/**
 * The heartbeat failure detector. The manager keeps, per address, the time a
 * heartbeat was last seen, and works on the address list of the peer it
 * belongs to. "Now" is passed in; transport.write appends to the peer's
 * record of sent datagrams.
 */
module Heartbeat {
  import opened Wrappers
  import opened PyStr
  import opened Seqs
  import opened Wire
  import opened PeerNode

  const HeartbeatMessage := "HEARTBEAT!"

  /** The state the detector reads and writes: the peer's address list, the last-seen table and what was sent. */
  datatype Table = Table(addresses: seq<Address>, lastSeen: map<Address, real>, sent: seq<Datagram>)

  /** One write of message to every destination, in order. */
  function Broadcast(message: string, dests: seq<Address>): (out: seq<Datagram>)
    ensures |out| == |dests|
    ensures forall i :: 0 <= i < |dests| ==> out[i] == Datagram(message, dests[i])
  {
    if dests == [] then [] else [Datagram(message, dests[0])] + Broadcast(message, dests[1..])
  }

  /** The write loop of send_heartbeats and notify_disconnection_to_peers. */
  method SendToAll(message: string, dests: seq<Address>) returns (out: seq<Datagram>)
    ensures out == Broadcast(message, dests)
  {
    out := [];
    for k := 0 to |dests|
      invariant |out| == k
      invariant forall i :: 0 <= i < k ==> out[i] == Datagram(message, dests[i])
    {
      out := out + [Datagram(message, dests[k])];
    }
  }

  const DisconnectCommand := "PEER_DISCONNECTED"

  /** "PEER_DISCONNECTED!<host>!<port>" */
  function DisconnectNotice(a: Address): string
  {
    DisconnectCommand + ['!'] + (a.host + ['!'] + IntToString(a.port))
  }

  /** The command word holds no "!". */
  lemma CommandAvoids()
    ensures '!' !in DisconnectCommand
  {
    forall i | 0 <= i < |DisconnectCommand| ensures DisconnectCommand[i] != '!' {
    }
  }

  lemma NoticeSplit(a: Address)
    requires '!' !in a.host
    ensures Split(DisconnectNotice(a), '!') == [DisconnectCommand] + ([a.host] + [IntToString(a.port)])
  {
    var port := IntToString(a.port);
    IntToStringClean(a.port);
    CommandAvoids();
    SplitCons(DisconnectCommand, a.host + ['!'] + port, '!');
    SplitCons(a.host, port, '!');
    assert Split(port, '!') == [port];
  }

  /** The notice splits into three fields, from which the command, the host and (via int()) the port are recovered. */
  lemma DisconnectNoticeFields(a: Address)
    requires '!' !in a.host
    ensures var fields := Split(DisconnectNotice(a), '!');
      |fields| == 3 && fields[0] == DisconnectCommand && fields[1] == a.host && ParseInt(fields[2]) == Some(a.port)
  {
    NoticeSplit(a);
    ParseIntToString(a.port);
  }

  /**
   * notify_disconnection_to_peers: drop the first occurrence of a from the
   * list, drop a's entry, then send the notice to everyone still listed.
   */
  function Disconnect(t: Table, a: Address): Table
  {
    var rest := RemoveFirst(t.addresses, a);
    Table(rest, t.lastSeen - {a}, t.sent + Broadcast(DisconnectNotice(a), rest))
  }

  /** The disconnection removes a's first occurrence from the list, if any, and nothing else. */
  lemma DisconnectList(t: Table, a: Address)
    ensures var r := Disconnect(t, a);
      && (a !in t.addresses ==> r.addresses == t.addresses)
      && (a in t.addresses ==> r.addresses == t.addresses[..FirstIndex(t.addresses, a)] + t.addresses[FirstIndex(t.addresses, a) + 1..])
      && multiset(r.addresses) == multiset(t.addresses) - multiset{a}
  {
    if a in t.addresses {
      RemoveFirstPresent(t.addresses, a);
    } else {
      RemoveFirstAbsent(t.addresses, a);
    }
    RemoveFirstMultiset(t.addresses, a);
  }

  /** The disconnection drops a's entry only, and notifies each remaining address once, in list order, after what was sent before. */
  lemma DisconnectTableAndSent(t: Table, a: Address)
    ensures var r := Disconnect(t, a);
      && r.lastSeen.Keys == t.lastSeen.Keys - {a}
      && (forall b :: b in r.lastSeen ==> r.lastSeen[b] == t.lastSeen[b])
      && |r.sent| == |t.sent| + |r.addresses|
      && r.sent[..|t.sent|] == t.sent
      && (forall i :: 0 <= i < |r.addresses| ==> r.sent[|t.sent| + i] == Datagram(DisconnectNotice(a), r.addresses[i]))
  {
    var r := Disconnect(t, a);
    assert r.sent[..|t.sent|] == t.sent;
  }

  /** The disconnections of check_connections' second loop, in the order the addresses were reported. */
  function DisconnectAll(t: Table, reported: seq<Address>): Table
    decreases |reported|
  {
    if reported == [] then t else DisconnectAll(Disconnect(t, reported[0]), reported[1..])
  }

  /** The disconnections remove the reported addresses from the list one at a time, in the order reported. */
  lemma {:induction false} DisconnectAllList(t: Table, reported: seq<Address>)
    ensures DisconnectAll(t, reported).addresses == RemoveEach(t.addresses, reported)
    decreases |reported|
  {
    if reported != [] {
      DisconnectAllList(Disconnect(t, reported[0]), reported[1..]);
    }
  }

  /** As a multiset, the list loses one copy of each reported address. */
  lemma DisconnectAllAddresses(t: Table, reported: seq<Address>)
    ensures multiset(DisconnectAll(t, reported).addresses) == multiset(t.addresses) - multiset(reported)
  {
    DisconnectAllList(t, reported);
    RemoveEachMultiset(t.addresses, reported);
  }

  /** No reported address keeps a table entry, and every other entry keeps its time. */
  lemma {:induction false} DisconnectAllTable(t: Table, reported: seq<Address>)
    ensures forall b :: b in DisconnectAll(t, reported).lastSeen <==> b in t.lastSeen && b !in reported
    ensures forall b :: b in DisconnectAll(t, reported).lastSeen ==> DisconnectAll(t, reported).lastSeen[b] == t.lastSeen[b]
    decreases |reported|
  {
    if reported != [] {
      DisconnectAllTable(Disconnect(t, reported[0]), reported[1..]);
      assert forall b :: b in reported <==> b == reported[0] || b in reported[1..];
    }
  }

  /** The datagrams already sent stay a prefix of the outbox. */
  lemma {:induction false} DisconnectAllSent(t: Table, reported: seq<Address>)
    ensures |DisconnectAll(t, reported).sent| >= |t.sent|
    ensures DisconnectAll(t, reported).sent[..|t.sent|] == t.sent
    decreases |reported|
  {
    if reported != [] {
      var t1 := Disconnect(t, reported[0]);
      DisconnectAllSent(t1, reported[1..]);
      var r := DisconnectAll(t, reported);
      assert r.sent[..|t.sent|] == r.sent[..|t1.sent|][..|t.sent|];
    }
  }

  /** What check_connections' first loop produces: the addresses it reports and the table it leaves. */
  datatype ScanResult = ScanResult(reported: seq<Address>, lastSeen: map<Address, real>)

  /**
   * check_connections' first loop, over the list in order: an address with no
   * entry is stamped with now; one whose entry is more than timeout old is
   * reported.
   */
  function Scan(addrs: seq<Address>, seen: map<Address, real>, now: real, timeout: real): ScanResult
    decreases |addrs|
  {
    if addrs == [] then ScanResult([], seen)
    else
      var a := addrs[0];
      if a !in seen then
        Scan(addrs[1..], seen[a := now], now, timeout)
      else if now - seen[a] > timeout then
        var rest := Scan(addrs[1..], seen, now, timeout);
        ScanResult([a] + rest.reported, rest.lastSeen)
      else
        Scan(addrs[1..], seen, now, timeout)
  }

  /**
   * The table the scan leaves: every listed address has an entry, existing
   * entries keep their time, new ones carry now, and every reported address
   * is listed and has an entry more than timeout old.
   */
  lemma {:induction false} ScanTable(addrs: seq<Address>, seen: map<Address, real>, now: real, timeout: real)
    ensures var r := Scan(addrs, seen, now, timeout);
      && (forall a :: a in r.lastSeen <==> a in seen || a in addrs)
      && (forall a :: a in seen ==> r.lastSeen[a] == seen[a])
      && (forall a :: a in addrs && a !in seen ==> r.lastSeen[a] == now)
      && (forall i :: 0 <= i < |r.reported| ==> r.reported[i] in addrs)
      && (forall i :: 0 <= i < |r.reported| ==> r.reported[i] in r.lastSeen && now - r.lastSeen[r.reported[i]] > timeout)
    decreases |addrs|
  {
    if addrs != [] {
      var a := addrs[0];
      assert forall b :: b in addrs <==> b == a || b in addrs[1..];
      if a !in seen {
        ScanTable(addrs[1..], seen[a := now], now, timeout);
      } else {
        ScanTable(addrs[1..], seen, now, timeout);
      }
    }
  }

  /** The addresses, in list order, that have an entry more than timeout old. */
  function Expired(addrs: seq<Address>, seen: map<Address, real>, now: real, timeout: real): (e: seq<Address>)
    ensures forall a :: a in e <==> a in addrs && a in seen && now - seen[a] > timeout
  {
    if addrs == [] then []
    else
      var rest := Expired(addrs[1..], seen, now, timeout);
      var a := addrs[0];
      if a in seen && now - seen[a] > timeout then [a] + rest else rest
  }

  /**
   * Stamping inside the loop does not change what is reported: an address
   * stamped now is not more than a non-negative timeout old.
   */
  lemma {:induction false} ScanReportsExpiredFrom(addrs: seq<Address>, seen: map<Address, real>, base: map<Address, real>, now: real, timeout: real)
    requires timeout >= 0.0
    requires forall a :: a in base ==> a in seen && seen[a] == base[a]
    requires forall a :: a in seen && a !in base ==> seen[a] == now
    ensures Scan(addrs, seen, now, timeout).reported == Expired(addrs, base, now, timeout)
    decreases |addrs|
  {
    if addrs != [] {
      var a := addrs[0];
      if a !in seen {
        ScanReportsExpiredFrom(addrs[1..], seen[a := now], base, now, timeout);
      } else {
        ScanReportsExpiredFrom(addrs[1..], seen, base, now, timeout);
      }
    }
  }

  /**
   * With a non-negative timeout, the scan reports exactly the listed
   * addresses that had an entry more than timeout old before the scan,
   * in list order: an address first stamped in this run is not reported.
   */
  lemma ScanReportsExpired(addrs: seq<Address>, seen: map<Address, real>, now: real, timeout: real)
    requires timeout >= 0.0
    ensures Scan(addrs, seen, now, timeout).reported == Expired(addrs, seen, now, timeout)
    ensures forall a :: a in Scan(addrs, seen, now, timeout).reported <==> a in addrs && a in seen && now - seen[a] > timeout
  {
    ScanReportsExpiredFrom(addrs, seen, seen, now, timeout);
  }

  /** One turn of the scan loop, seen from position i on. */
  lemma ScanStep(addrs: seq<Address>, i: nat, seen: map<Address, real>, now: real, timeout: real)
    requires i < |addrs|
    ensures var a := addrs[i];
      Scan(addrs[i..], seen, now, timeout) ==
        if a !in seen then Scan(addrs[i + 1..], seen[a := now], now, timeout)
        else if now - seen[a] > timeout then
          ScanResult([a] + Scan(addrs[i + 1..], seen, now, timeout).reported, Scan(addrs[i + 1..], seen, now, timeout).lastSeen)
        else Scan(addrs[i + 1..], seen, now, timeout)
  {
    assert addrs[i..][0] == addrs[i] && addrs[i..][1..] == addrs[i + 1..];
  }

  class HeartbeatManager {
    const peer: Peer
    const heartbeatInterval: real
    const timeout: real
    var lastHeartbeats: map<Address, real>

    constructor (peer: Peer, heartbeatInterval: real := 1.0, timeout: real := 2.0)
      ensures this.peer == peer && this.heartbeatInterval == heartbeatInterval && this.timeout == timeout
      ensures lastHeartbeats == map[]
    {
      this.peer := peer;
      this.heartbeatInterval := heartbeatInterval;
      this.timeout := timeout;
      lastHeartbeats := map[];
    }

    function Current(): Table
      reads this, peer
    {
      Table(peer.addresses, lastHeartbeats, peer.sent)
    }

    /** send_heartbeats: one heartbeat to every listed address, in order. */
    method SendHeartbeats()
      modifies peer`sent
      ensures peer.sent == old(peer.sent) + Broadcast(HeartbeatMessage, peer.addresses)
      ensures peer.addresses == old(peer.addresses) && lastHeartbeats == old(lastHeartbeats)
    {
      var out := SendToAll(HeartbeatMessage, peer.addresses);
      peer.sent := peer.sent + out;
    }

    /** record_heartbeat: a's entry becomes now; nothing else changes. */
    method RecordHeartbeat(a: Address, now: real)
      modifies this`lastHeartbeats
      ensures lastHeartbeats == old(lastHeartbeats)[a := now]
      ensures peer.addresses == old(peer.addresses) && peer.sent == old(peer.sent)
    {
      lastHeartbeats := lastHeartbeats[a := now];
    }

    method NotifyDisconnectionToPeers(a: Address)
      modifies this`lastHeartbeats, peer`addresses, peer`sent
      ensures Current() == Disconnect(old(Current()), a)
    {
      var addrs, seen, sent := peer.addresses, lastHeartbeats, peer.sent;
      if a in addrs {
        addrs := RemoveFirst(addrs, a);
      } else {
        RemoveFirstAbsent(addrs, a);
      }
      if a in seen {
        seen := seen - {a};
      } else {
        assert seen - {a} == seen;
      }
      var out := SendToAll(DisconnectNotice(a), addrs);
      sent := sent + out;
      peer.addresses, lastHeartbeats, peer.sent := addrs, seen, sent;
    }

    /**
     * check_connections: scan the whole list first, collecting the timed-out
     * addresses, and only then disconnect them one by one.
     */
    method CheckConnections(now: real)
      modifies this`lastHeartbeats, peer`addresses, peer`sent
      ensures var scan := Scan(old(peer.addresses), old(lastHeartbeats), now, timeout);
              Current() == DisconnectAll(Table(old(peer.addresses), scan.lastSeen, old(peer.sent)), scan.reported)
    {
      var addrs := peer.addresses;
      ghost var scan := Scan(addrs, lastHeartbeats, now, timeout);
      var seen := lastHeartbeats;
      var disconnected: seq<Address> := [];
      for i := 0 to |addrs|
        invariant disconnected + Scan(addrs[i..], seen, now, timeout).reported == scan.reported
        invariant Scan(addrs[i..], seen, now, timeout).lastSeen == scan.lastSeen
        modifies {}
      {
        var a := addrs[i];
        ScanStep(addrs, i, seen, now, timeout);
        if a !in seen {
          seen := seen[a := now];
        } else if now - seen[a] > timeout {
          disconnected := disconnected + [a];
        }
      }
      assert addrs[|addrs|..] == [];
      assert disconnected == scan.reported && seen == scan.lastSeen;
      lastHeartbeats := seen;
      ghost var start := Table(addrs, scan.lastSeen, peer.sent);
      for j := 0 to |disconnected|
        invariant DisconnectAll(Current(), disconnected[j..]) == DisconnectAll(start, disconnected)
      {
        assert disconnected[j..][0] == disconnected[j] && disconnected[j..][1..] == disconnected[j + 1..];
        NotifyDisconnectionToPeers(disconnected[j]);
      }
      assert disconnected[|disconnected|..] == [];
      assert Current() == DisconnectAll(start, disconnected);
    }
  }
}
