/**
 * The peer process: its address list, the send-thread flag, the gameplay
 * object it owns, and the handling of datagrams from the rendezvous server.
 * The pure functions say what one datagram does to the peer's state; the
 * Peer class does it step by step and is proved to agree with them.
 */
module PeerNode {
  import opened Wrappers
  import opened PyStr
  import opened Wire
  import opened Game

  /** The part of a peer the datagram handlers change. */
  datatype PeerState = PeerState(addresses: seq<Address>, sendThreadActive: bool, deck: Option<seq<string>>)

  /** The state after handling a datagram, and the exception the handler raised, if any. */
  datatype Step = Step(state: PeerState, raised: Option<PyError>)

  /**
   * handle_datagram: CREATE_DECK imports the remaining fields as the deck;
   * anything else is a list of addresses, appended one per field until a
   * field fails; the send thread is started after a fully parsed list.
   */
  function HandleDatagramModel(s: PeerState, datagram: string): (r: Step)
    ensures |r.state.addresses| >= |s.addresses| && r.state.addresses[..|s.addresses|] == s.addresses
    ensures |r.state.addresses| - |s.addresses| <= |Split(datagram, '!')|
    ensures s.sendThreadActive ==> r.state.sendThreadActive
    ensures r.state.deck == s.deck || r.state.addresses == s.addresses
    ensures r.raised.Some? ==> r.state.sendThreadActive == s.sendThreadActive && r.state.deck == s.deck
  {
    var fields := Split(datagram, '!');
    if fields[0] == "CREATE_DECK" then
      Step(s.(deck := Some(fields[1..])), None)
    else
      var p := ParseAll(fields);
      var appended := s.addresses + p.addresses;
      assert appended[..|s.addresses|] == s.addresses;
      if p.failure.Some? then Step(s.(addresses := appended), p.failure)
      else Step(s.(addresses := appended, sendThreadActive := true), None)
  }

  /** datagramReceived: only the server is listened to, and an empty datagram from it changes nothing. */
  function ReceiveModel(s: PeerState, datagram: string, from: Address): (r: Step)
    ensures from != ServerAddress ==> r == Step(s, None)
    ensures datagram == "" ==> r == Step(s, None)
  {
    if from == ServerAddress then
      if datagram == "" then Step(s, None) else HandleDatagramModel(s, datagram)
    else Step(s, None)
  }

  /** "CREATE_DECK!c1!...!cn" sets the deck to exactly [c1, ..., cn] and leaves the addresses and the flag alone. */
  lemma CreateDeckImports(s: PeerState, fields: seq<string>)
    requires |fields| >= 1 && fields[0] == "CREATE_DECK"
    requires forall i :: 0 <= i < |fields| ==> '!' !in fields[i]
    ensures HandleDatagramModel(s, Join(fields, '!')) == Step(s.(deck := Some(fields[1..])), None)
  {
    SplitJoin(fields, '!');
  }

  /**
   * Any other datagram appends, after the existing entries, one address per
   * field in field order, stopping at the first field that fails; the flag is
   * set exactly when every field parsed.
   */
  lemma AddressDatagramAppends(s: PeerState, datagram: string)
    requires Split(datagram, '!')[0] != "CREATE_DECK"
    ensures var fields := Split(datagram, '!');
            var r := HandleDatagramModel(s, datagram);
            && r.state.deck == s.deck
            && |r.state.addresses| <= |s.addresses| + |fields|
            && (forall i :: 0 <= i < |r.state.addresses| - |s.addresses| ==>
                  ParseField(fields[i]) == Success(r.state.addresses[|s.addresses| + i]))
            && (r.raised.None? <==> |r.state.addresses| == |s.addresses| + |fields|)
            && (r.raised.Some? ==> ParseField(fields[|r.state.addresses| - |s.addresses|]) == Failure(r.raised.value))
            && r.state.sendThreadActive == (s.sendThreadActive || r.raised.None?)
  {
    AddressBranch(s, datagram);
    ParseAllAppended(s.addresses, Split(datagram, '!'));
  }

  lemma AddressBranch(s: PeerState, datagram: string)
    requires Split(datagram, '!')[0] != "CREATE_DECK"
    ensures var p := ParseAll(Split(datagram, '!'));
      HandleDatagramModel(s, datagram)
        == Step(s.(addresses := s.addresses + p.addresses, sendThreadActive := s.sendThreadActive || p.failure.None?), p.failure)
  {
  }

  /** The server's reply when exactly one client registered before: the peer learns that client and starts its send thread. */
  lemma LearnsSoleEarlierClient(s: PeerState, a: Address)
    requires PlainHost(a.host)
    ensures ReceiveModel(s, Reply([a]), ServerAddress)
         == Step(s.(addresses := s.addresses + [a], sendThreadActive := true), None)
  {
    var reply := Reply([a]);
    SingleClientReply(a);
    ReplyIsOneField([a]);
    ReplyStart([a]);
    assert Split(reply, '!')[0][0] == '(';
  }

  /**
   * The server's reply when two or more clients registered before: it is a
   * single "!" field whose port piece int() refuses, so the peer learns no
   * address, keeps its flag, and the handler raises ValueError.
   */
  lemma CrowdedReplyTeachesNothing(s: PeerState, order: seq<Address>)
    requires |order| >= 2
    requires forall i :: 0 <= i < |order| ==> PlainHost(order[i].host) && order[i].host != ""
    ensures ReceiveModel(s, Reply(order), ServerAddress) == Step(s, Some(ValueError))
  {
    var reply := Reply(order);
    CrowdedReplyRejected(order);
    ReplyStart(order);
    assert Split(reply, '!')[0][0] == '(';
    assert s.addresses + [] == s.addresses;
  }

  class Peer {
    const id: Address
    var addresses: seq<Address>
    const server: Address := ServerAddress
    var sendThreadActive: bool
    const gameplay: Gameplay
    /** The datagrams written through this peer's transport, oldest first. */
    var sent: seq<Datagram>

    constructor (host: string, port: int)
      ensures id == Address(LocalHost(host), port)
      ensures addresses == [] && server == ServerAddress && !sendThreadActive && sent == []
      ensures fresh(gameplay) && gameplay.deck == None
    {
      id := Address(LocalHost(host), port);
      addresses := [];
      sendThreadActive := false;
      gameplay := new Gameplay();
      sent := [];
    }

    function State(): PeerState
      reads this, gameplay
    {
      PeerState(addresses, sendThreadActive, gameplay.deck)
    }

    /** The loop of handle_datagram's CREATE_DECK branch: the fields after the command, in order. */
    static method CollectDeck(fields: seq<string>) returns (deck: seq<string>)
      requires |fields| >= 1
      ensures deck == fields[1..]
    {
      deck := [];
      for index := 1 to |fields|
        invariant deck == fields[1..index]
      {
        deck := deck + [fields[index]];
      }
    }

    method HandleDatagram(datagram: string) returns (raised: Option<PyError>)
      modifies this`addresses, this`sendThreadActive, gameplay
      ensures Step(State(), raised) == HandleDatagramModel(old(State()), datagram)
    {
      var fields := Split(datagram, '!');
      if fields[0] == "CREATE_DECK" {
        var deck := CollectDeck(fields);
        gameplay.CreateDeck(Some(deck));
        raised := None;
      } else {
        var appended;
        appended, raised := AppendParsed(addresses, fields);
        addresses := appended;
        if raised.None? && !sendThreadActive {
          sendThreadActive := true;
        }
      }
    }

    method DatagramReceived(datagram: string, from: Address) returns (raised: Option<PyError>)
      modifies this`addresses, this`sendThreadActive, gameplay
      ensures Step(State(), raised) == ReceiveModel(old(State()), datagram, from)
    {
      if from == server {
        if datagram == "" {
          gameplay.CreateDeck();
          raised := None;
        } else {
          raised := HandleDatagram(datagram);
        }
      } else {
        raised := None;
      }
    }
  }
}
