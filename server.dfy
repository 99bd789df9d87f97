/**
 * The rendezvous server: a set of registered client addresses. A "ready"
 * datagram is answered with the rendering of every client registered so far,
 * one per line, and then registers its sender. transport.write appends to the
 * server's record of sent datagrams.
 */
module Rendezvous {
  import opened Wrappers
  import opened PyStr
  import opened Wire

  const ReadyMessage := "ready"

  /** order lists every member of s exactly once, in some order (the order a set is iterated in). */
  ghost predicate Enumerates(order: seq<Address>, s: set<Address>)
  {
    && (forall i, j :: 0 <= i < j < |order| ==> order[i] != order[j])
    && (forall a :: a in order <==> a in s)
  }

  lemma EnumeratesExtend(order: seq<Address>, s: set<Address>, x: Address)
    requires Enumerates(order, s) && x !in s
    ensures Enumerates(order + [x], s + {x})
  {
    assert forall b :: b in order + [x] <==> b in order || b == x;
  }

  /** An enumeration has one entry per member. */
  lemma {:induction false} EnumeratesSize(order: seq<Address>, s: set<Address>)
    requires Enumerates(order, s)
    ensures |order| == |s|
    decreases |order|
  {
    if order == [] {
      assert s == {};
    } else {
      var a := order[0];
      assert forall b :: b in order[1..] <==> b in order && b != a;
      EnumeratesSize(order[1..], s - {a});
    }
  }

  /** With nobody registered the reply is the empty string, whose one line decodes to nothing. */
  lemma EmptyReply()
    ensures Reply([]) == ""
    ensures Split(Reply([]), '\n') == [""]
    ensures ParseField("").Failure?
  {
  }

  /** A nonempty listing's lines decode to exactly the listed addresses. */
  lemma ReplyDecodes(order: seq<Address>)
    requires order != []
    requires forall i :: 0 <= i < |order| ==> PlainHost(order[i].host)
    ensures |Split(Reply(order), '\n')| == |order|
    ensures forall a :: a in order <==> exists i :: 0 <= i < |Split(Reply(order), '\n')| && ParseField(Split(Reply(order), '\n')[i]) == Success(a)
  {
    ReplyLines(order);
    var lines := Split(Reply(order), '\n');
    forall a | a in order
      ensures exists i :: 0 <= i < |lines| && ParseField(lines[i]) == Success(a)
    {
      var i :| 0 <= i < |order| && order[i] == a;
      assert ParseField(lines[i]) == Success(a);
    }
  }

  /**
   * Whatever order the set is iterated in, the reply is empty exactly when no
   * client is registered, has one line per client, and a line decodes (as a
   * peer decodes one field) to an address exactly when that address is a
   * registered client.
   */
  lemma ReplyListsClients(order: seq<Address>, clients: set<Address>)
    requires Enumerates(order, clients)
    requires forall a :: a in clients ==> PlainHost(a.host)
    ensures Reply(order) == "" <==> clients == {}
    ensures clients != {} ==> |Split(Reply(order), '\n')| == |clients|
    ensures forall a :: a in clients <==> exists i :: 0 <= i < |Split(Reply(order), '\n')| && ParseField(Split(Reply(order), '\n')[i]) == Success(a)
  {
    EnumeratesSize(order, clients);
    if order == [] {
      EmptyReply();
      assert clients == {};
    } else {
      assert forall i :: 0 <= i < |order| ==> order[i] in clients;
      ReplyLines(order);
      ReplyDecodes(order);
    }
  }

  /** A first-time sender does not appear in its own reply; a repeated sender does. */
  lemma ReplyExcludesNewcomer(order: seq<Address>, clients: set<Address>, from: Address)
    requires Enumerates(order, clients)
    requires forall a :: a in clients ==> PlainHost(a.host)
    ensures from !in clients <==> forall line :: line in Split(Reply(order), '\n') ==> ParseField(line) != Success(from)
  {
    ReplyListsClients(order, clients);
  }

  /** The order in which the comprehension of datagramReceived visits the set: each member once. */
  method IterationOrder(clients: set<Address>) returns (order: seq<Address>)
    ensures Enumerates(order, clients)
  {
    var remaining := clients;
    ghost var done: set<Address> := {};
    order := [];
    while remaining != {}
      invariant done + remaining == clients && done !! remaining
      invariant Enumerates(order, done)
      decreases remaining
    {
      var x :| x in remaining;
      EnumeratesExtend(order, done, x);
      order := order + [x];
      done := done + {x};
      remaining := remaining - {x};
    }
  }

  class Server {
    var clients: set<Address>
    var sent: seq<Datagram>

    constructor ()
      ensures clients == {} && sent == []
    {
      clients := {};
      sent := [];
    }

    /**
     * datagramReceived: anything but "ready" is ignored; "ready" from addr
     * sends addr the reply for the clients registered before it, then adds
     * addr. The set only grows, and a repeated "ready" leaves it as it was.
     */
    method DatagramReceived(datagram: string, from: Address)
      modifies this
      ensures datagram != ReadyMessage ==> clients == old(clients) && sent == old(sent)
      ensures datagram == ReadyMessage ==> clients == old(clients) + {from}
      ensures datagram == ReadyMessage ==>
        exists order :: Enumerates(order, old(clients)) && sent == old(sent) + [Datagram(Reply(order), from)]
      ensures old(clients) <= clients
      ensures from in old(clients) ==> clients == old(clients)
    {
      if datagram == ReadyMessage {
        var order := IterationOrder(clients);
        var reply := Join(RenderAll(order), '\n');
        sent := sent + [Datagram(reply, from)];
        clients := clients + {from};
      }
    }
  }
}
