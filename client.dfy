/**
 * The plain chat client: like a peer it learns addresses from the rendezvous
 * server, but it has no gameplay and no CREATE_DECK case, so every non-empty
 * datagram from the server is read as a list of addresses.
 */
module ClientNode {
  import opened Wrappers
  import opened PyStr
  import opened Wire

  datatype ClientState = ClientState(addresses: seq<Address>, sendThreadActive: bool)

  /** The state after handling a datagram, and the exception the handler raised, if any. */
  datatype ClientStep = ClientStep(state: ClientState, raised: Option<PyError>)

  /**
   * datagramReceived: only the server is heeded; an empty datagram from it
   * changes nothing; any other one is split on "!" and appended one address
   * per field until a field fails; the send thread starts after a fully
   * parsed list.
   */
  function ReceiveModel(s: ClientState, datagram: string, from: Address): (r: ClientStep)
    ensures from != ServerAddress || datagram == "" ==> r == ClientStep(s, None)
    ensures |r.state.addresses| >= |s.addresses| && r.state.addresses[..|s.addresses|] == s.addresses
    ensures |r.state.addresses| - |s.addresses| <= |Split(datagram, '!')|
    ensures s.sendThreadActive ==> r.state.sendThreadActive
    ensures r.raised.Some? ==> r.state.sendThreadActive == s.sendThreadActive
  {
    if from != ServerAddress || datagram == "" then ClientStep(s, None)
    else
      var p := ParseAll(Split(datagram, '!'));
      var appended := s.addresses + p.addresses;
      assert appended[..|s.addresses|] == s.addresses;
      if p.failure.Some? then ClientStep(s.(addresses := appended), p.failure)
      else ClientStep(ClientState(appended, true), None)
  }

  /**
   * A non-empty server datagram appends, after the existing entries, one
   * address per field in field order, stopping at the first field that
   * fails; the flag is set exactly when every field parsed.
   */
  lemma ServerDatagramAppends(s: ClientState, datagram: string)
    requires datagram != ""
    ensures var fields := Split(datagram, '!');
            var r := ReceiveModel(s, datagram, ServerAddress);
            && |r.state.addresses| <= |s.addresses| + |fields|
            && (forall i :: 0 <= i < |r.state.addresses| - |s.addresses| ==>
                  ParseField(fields[i]) == Success(r.state.addresses[|s.addresses| + i]))
            && (r.raised.None? <==> |r.state.addresses| == |s.addresses| + |fields|)
            && (r.raised.Some? ==> ParseField(fields[|r.state.addresses| - |s.addresses|]) == Failure(r.raised.value))
            && r.state.sendThreadActive == (s.sendThreadActive || r.raised.None?)
  {
    var fields := Split(datagram, '!');
    var p := ParseAll(fields);
    assert ReceiveModel(s, datagram, ServerAddress).state.addresses == s.addresses + p.addresses;
    ParseAllAppended(s.addresses, fields);
  }

  /** A datagram whose first field is a single word (no comma) fails at that field and changes nothing. */
  lemma WordDatagramNotUnderstood(s: ClientState, fields: seq<string>)
    requires |fields| >= 1 && Token(fields[0])
    requires forall i :: 0 <= i < |fields| ==> '!' !in fields[i]
    ensures ReceiveModel(s, Join(fields, '!'), ServerAddress) == ClientStep(s, Some(IndexError))
  {
    var d := Join(fields, '!');
    SplitJoin(fields, '!');
    if |fields| > 1 {
      assert d == fields[0] + ['!'] + Join(fields[1..], '!');
    }
    assert |d| >= |fields[0]| > 0;
    TokenHasNoPort(fields[0]);
    assert ParseAll(Split(d, '!')) == Parsed([], Some(IndexError));
    assert s.addresses + [] == s.addresses;
  }

  /** There is no CREATE_DECK case: a deck datagram is read as addresses, fails at its first field and changes nothing. */
  lemma CreateDeckNotUnderstood(s: ClientState, fields: seq<string>)
    requires |fields| >= 1 && fields[0] == "CREATE_DECK"
    requires forall i :: 0 <= i < |fields| ==> '!' !in fields[i]
    ensures ReceiveModel(s, Join(fields, '!'), ServerAddress) == ClientStep(s, Some(IndexError))
  {
    CreateDeckIsToken();
    WordDatagramNotUnderstood(s, fields);
  }

  lemma CreateDeckIsToken()
    ensures Token("CREATE_DECK")
  {
  }

  /** The server's reply when exactly one client registered before: the client learns it and starts its send thread. */
  lemma LearnsSoleEarlierClient(s: ClientState, a: Address)
    requires PlainHost(a.host)
    ensures ReceiveModel(s, Reply([a]), ServerAddress) == ClientStep(ClientState(s.addresses + [a], true), None)
  {
    SingleClientReply(a);
    ReplyStart([a]);
  }

  /** The server's reply when two or more clients registered before: nothing is learnt and ValueError is raised. */
  lemma CrowdedReplyTeachesNothing(s: ClientState, order: seq<Address>)
    requires |order| >= 2
    requires forall i :: 0 <= i < |order| ==> PlainHost(order[i].host) && order[i].host != ""
    ensures ReceiveModel(s, Reply(order), ServerAddress) == ClientStep(s, Some(ValueError))
  {
    CrowdedReplyRejected(order);
    ReplyStart(order);
    assert s.addresses + [] == s.addresses;
  }

  class Client {
    const id: Address
    var addresses: seq<Address>
    const server: Address := ServerAddress
    var sendThreadActive: bool

    constructor (host: string, port: int)
      ensures id == Address(LocalHost(host), port)
      ensures addresses == [] && !sendThreadActive
    {
      id := Address(LocalHost(host), port);
      addresses := [];
      sendThreadActive := false;
    }

    function State(): ClientState
      reads this
    {
      ClientState(addresses, sendThreadActive)
    }

    method DatagramReceived(datagram: string, from: Address) returns (raised: Option<PyError>)
      modifies this
      ensures ClientStep(State(), raised) == ReceiveModel(old(State()), datagram, from)
    {
      raised := None;
      if from == server && datagram != "" {
        var fields := Split(datagram, '!');
        var appended;
        appended, raised := AppendParsed(addresses, fields);
        addresses := appended;
        if raised.None? && !sendThreadActive {
          sendThreadActive := true;
        }
      }
    }
  }
}
