/**
 * The wire format shared by the rendezvous server, the peers and the client:
 * addresses, outgoing datagrams, the rendering of an address as Python's
 * str((host, port)), the server's reply, and the per-field address parsing
 * both receivers apply to each "!"-separated field.
 */
module Wire {
  import opened Wrappers
  import opened PyStr

  /** A UDP endpoint, Python's (host, port) tuple. */
  datatype Address = Address(host: string, port: int)

  /** Where the rendezvous server listens; peers and clients only heed datagrams from it. */
  const ServerAddress := Address("127.0.0.1", 9999)

  /** The host normalisation of the peer and client constructors. */
  function LocalHost(host: string): string
  {
    if host == "localhost" then "127.0.0.1" else host
  }

  /** One call of transport.write(payload, dest). */
  datatype Datagram = Datagram(payload: string, dest: Address)

  /** The characters a receiver deletes from a field before splitting it: ( ) space ' " */
  predicate Deleted(c: char)
  {
    c == '(' || c == ')' || c == ' ' || c == '\'' || c == '"'
  }

  /** The chain of str.replace(ch, "") calls applied to each field. */
  function Clean(s: string): (r: string)
    ensures |r| <= |s|
    ensures forall i :: 0 <= i < |r| ==> !Deleted(r[i])
  {
    if s == [] then []
    else (if Deleted(s[0]) then [] else [s[0]]) + Clean(s[1..])
  }

  lemma {:induction false} CleanConcat(a: string, b: string)
    ensures Clean(a + b) == Clean(a) + Clean(b)
  {
    if a == [] {
      assert a + b == b;
    } else {
      var h := if Deleted(a[0]) then [] else [a[0]];
      assert (a + b)[0] == a[0];
      assert (a + b)[1..] == a[1..] + b;
      CleanConcat(a[1..], b);
      assert Clean(a + b) == h + (Clean(a[1..]) + Clean(b));
    }
  }

  lemma {:induction false} CleanKeeps(s: string)
    requires forall i :: 0 <= i < |s| ==> !Deleted(s[i])
    ensures Clean(s) == s
  {
    if s != [] {
      CleanKeeps(s[1..]);
    }
  }

  /**
   * One address field: delete ( ) space ' ", split at ",", host is piece 0
   * and port is int(piece 1). A missing second piece raises IndexError,
   * a port int() refuses raises ValueError.
   */
  function ParseField(field: string): (r: Result<Address, PyError>)
    ensures r == Failure(IndexError) <==> ',' !in Clean(field)
    ensures r.Success? ==> ',' !in r.value.host
  {
    var pieces := Split(Clean(field), ',');
    if |pieces| < 2 then Failure(IndexError)
    else
      match ParseInt(pieces[1])
      case None => Failure(ValueError)
      case Some(port) => Success(Address(pieces[0], port))
  }

  /** A non-empty word with no comma and nothing to delete, such as a command name. */
  predicate Token(w: string)
  {
    w != "" && forall i :: 0 <= i < |w| ==> !Deleted(w[i]) && w[i] != ','
  }

  /** A word has no port piece. */
  lemma TokenHasNoPort(f: string)
    requires Token(f)
    ensures ParseField(f) == Failure(IndexError)
  {
    CleanKeeps(f);
  }

  /** What the append loop leaves behind: the addresses appended, and the exception that stopped it, if any. */
  datatype Parsed = Parsed(addresses: seq<Address>, failure: Option<PyError>)

  /**
   * The receivers' loop over the "!" fields: one address per field, in field
   * order, and at the first field that fails the loop stops with that
   * field's exception, keeping what it appended before.
   */
  function ParseAll(fields: seq<string>): (p: Parsed)
    ensures |p.addresses| <= |fields|
    ensures p.failure.None? <==> |p.addresses| == |fields|
  {
    if fields == [] then Parsed([], None)
    else
      match ParseField(fields[0])
      case Failure(e) => Parsed([], Some(e))
      case Success(a) =>
        var rest := ParseAll(fields[1..]);
        Parsed([a] + rest.addresses, rest.failure)
  }

  /** Every address appended is the parse of the field at its position. */
  lemma {:induction false} ParseAllPointwise(fields: seq<string>)
    ensures forall i :: 0 <= i < |ParseAll(fields).addresses| ==> ParseField(fields[i]) == Success(ParseAll(fields).addresses[i])
  {
    if fields != [] && ParseField(fields[0]).Success? {
      ParseAllPointwise(fields[1..]);
      var p := ParseAll(fields);
      forall i | 0 < i < |p.addresses| ensures ParseField(fields[i]) == Success(p.addresses[i]) {
        assert fields[i] == fields[1..][i - 1];
      }
    }
  }

  /** The loop stops at the first field that fails, with that field's exception. */
  lemma {:induction false} ParseAllStopsAtFailure(fields: seq<string>)
    requires ParseAll(fields).failure.Some?
    ensures ParseField(fields[|ParseAll(fields).addresses|]) == Failure(ParseAll(fields).failure.value)
  {
    if ParseField(fields[0]).Success? {
      ParseAllStopsAtFailure(fields[1..]);
    }
  }

  /**
   * Appended after an existing list, the parsed addresses follow the fields
   * one for one; the run is complete exactly when nothing failed, and
   * otherwise ends at the field that failed.
   */
  lemma ParseAllAppended(base: seq<Address>, fields: seq<string>)
    ensures var p := ParseAll(fields);
            var r := base + p.addresses;
            && |r| <= |base| + |fields|
            && (forall i :: 0 <= i < |r| - |base| ==> ParseField(fields[i]) == Success(r[|base| + i]))
            && (p.failure.None? <==> |r| == |base| + |fields|)
            && (p.failure.Some? ==> ParseField(fields[|r| - |base|]) == Failure(p.failure.value))
  {
    var p := ParseAll(fields);
    if p.failure.Some? {
      ParseAllStopsAtFailure(fields);
    }
    ParseAllPointwise(fields);
    forall i | 0 <= i < |p.addresses| ensures (base + p.addresses)[|base| + i] == p.addresses[i] {
    }
  }

  /** One turn of the append loop, seen from field i on. */
  lemma ParseAllStep(fields: seq<string>, i: nat)
    requires i < |fields|
    ensures ParseField(fields[i]).Failure? ==> ParseAll(fields[i..]) == Parsed([], Some(ParseField(fields[i]).error))
    ensures ParseField(fields[i]).Success? ==>
      ParseAll(fields[i..]) == Parsed([ParseField(fields[i]).value] + ParseAll(fields[i + 1..]).addresses, ParseAll(fields[i + 1..]).failure)
  {
    assert fields[i..][0] == fields[i] && fields[i..][1..] == fields[i + 1..];
  }

  /**
   * The address loop of both receivers, on a copy of the list: append one
   * parsed address per field, and at the first field that fails stop with
   * that field's exception and what was appended before it.
   */
  method AppendParsed(base: seq<Address>, fields: seq<string>) returns (appended: seq<Address>, raised: Option<PyError>)
    ensures appended == base + ParseAll(fields).addresses
    ensures raised == ParseAll(fields).failure
  {
    appended, raised := base, None;
    var i := 0;
    while i < |fields|
      invariant 0 <= i <= |fields|
      invariant appended + ParseAll(fields[i..]).addresses == base + ParseAll(fields).addresses
      invariant ParseAll(fields[i..]).failure == ParseAll(fields).failure
    {
      var r := ParseField(fields[i]);
      ParseAllStep(fields, i);
      if r.Failure? {
        raised := Some(r.error);
        break;
      }
      appended := appended + [r.value];
      i := i + 1;
    }
  }

  // ---------------------------------------------------------------------
  // What the server sends

  /**
   * A host whose Python repr is just the host in single quotes (printable
   * ASCII without quote or backslash), and which a receiver's field cleaning
   * and splitting leave intact: none of ( ) space ' " , and no "!".
   */
  predicate PlainHost(h: string)
  {
    forall i :: 0 <= i < |h| ==> PlainChar(h[i])
  }

  predicate PlainChar(c: char)
  {
    32 < c as int < 127 && !Deleted(c) && c != ',' && c != '!' && c != '\\'
  }

  lemma PlainHostAvoids(h: string, c: char)
    requires PlainHost(h) && !PlainChar(c)
    ensures c !in h
  {
  }

  /** str((host, port)) for a plain host; other hosts are not modelled. */
  function Render(a: Address): string
  {
    "('" + a.host + "', " + IntToString(a.port) + ")"
  }

  /** The entries of the server's reply, one per client, in enumeration order. */
  function RenderAll(order: seq<Address>): seq<string>
  {
    seq(|order|, i requires 0 <= i < |order| => Render(order[i]))
  }

  /** "\n".join(str(x) for x in clients), for the clients enumerated in this order. */
  function Reply(order: seq<Address>): string
  {
    Join(RenderAll(order), '\n')
  }

  lemma IntToStringClean(n: int)
    ensures Clean(IntToString(n)) == IntToString(n)
    ensures ',' !in IntToString(n) && '!' !in IntToString(n) && '\n' !in IntToString(n)
    ensures HasNonSpace(IntToString(n))
  {
    CleanKeeps(IntToString(n));
  }

  lemma CleanLiterals()
    ensures Clean("('") == "" && Clean("', ") == "," && Clean(")") == "" && Clean("\n") == "\n"
  {
    assert "('"[1..] == "'" && "'"[1..] == "";
    assert "', "[1..] == ", " && ", "[1..] == " " && " "[1..] == "";
    assert ")"[1..] == "" && "\n"[1..] == "";
  }

  /** Cleaning a rendered address leaves "host,port". */
  lemma CleanRender(a: Address)
    requires PlainHost(a.host)
    ensures Clean(Render(a)) == a.host + "," + IntToString(a.port)
  {
    var p := IntToString(a.port);
    var x1 := "('" + a.host;
    var x2 := x1 + "', ";
    var x3 := x2 + p;
    assert Render(a) == x3 + ")";
    IntToStringClean(a.port);
    CleanKeeps(a.host);
    CleanLiterals();
    CleanConcat("('", a.host);
    assert Clean(x1) == a.host;
    CleanConcat(x1, "', ");
    assert Clean(x2) == a.host + ",";
    CleanConcat(x2, p);
    assert Clean(x3) == a.host + "," + p;
    CleanConcat(x3, ")");
  }

  /** Round trip: the receivers' field parsing reads a rendered address back. */
  lemma ParseRender(a: Address)
    requires PlainHost(a.host)
    ensures ParseField(Render(a)) == Success(a)
  {
    CleanRender(a);
    IntToStringClean(a.port);
    SplitCons(a.host, IntToString(a.port), ',');
    assert a.host + "," + IntToString(a.port) == a.host + [','] + IntToString(a.port);
    assert Split(IntToString(a.port), ',') == [IntToString(a.port)];
    ParseIntToString(a.port);
  }

  lemma RenderAvoids(a: Address)
    requires PlainHost(a.host)
    ensures '!' !in Render(a) && '\n' !in Render(a)
  {
    IntToStringClean(a.port);
    PlainHostAvoids(a.host, '!');
    PlainHostAvoids(a.host, '\n');
    var p := IntToString(a.port);
    var x1 := "('" + a.host;
    var x2 := x1 + "', ";
    var x3 := x2 + p;
    assert Render(a) == x3 + ")";
    assert '!' !in x1 && '\n' !in x1;
    assert '!' !in x2 && '\n' !in x2;
    assert '!' !in x3 && '\n' !in x3;
  }

  /**
   * Every entry of the reply for clients with plain hosts is free of both
   * separators and parses back to its own client.
   */
  lemma RenderAllDecodes(order: seq<Address>)
    requires forall i :: 0 <= i < |order| ==> PlainHost(order[i].host)
    ensures |RenderAll(order)| == |order|
    ensures forall i :: 0 <= i < |order| ==>
      '!' !in RenderAll(order)[i] && '\n' !in RenderAll(order)[i] && ParseField(RenderAll(order)[i]) == Success(order[i])
  {
    var lines := RenderAll(order);
    forall i | 0 <= i < |order| ensures '!' !in lines[i] && '\n' !in lines[i] && ParseField(lines[i]) == Success(order[i]) {
      RenderAvoids(order[i]);
      ParseRender(order[i]);
    }
  }

  /**
   * The reply is empty exactly when there are no clients; otherwise its
   * "\n"-separated lines are one rendered address per client, in order, and
   * each line parses back to its client.
   */
  lemma {:induction false} ReplyLines(order: seq<Address>)
    requires forall i :: 0 <= i < |order| ==> PlainHost(order[i].host)
    ensures Reply(order) == "" <==> order == []
    ensures order != [] ==> Split(Reply(order), '\n') == RenderAll(order)
    ensures forall i :: 0 <= i < |order| ==> ParseField(RenderAll(order)[i]) == Success(order[i])
  {
    var lines := RenderAll(order);
    RenderAllDecodes(order);
    if order != [] {
      SplitJoin(lines, '\n');
      ReplyStart(order);
    }
  }

  /** A non-empty reply starts with the parenthesis of its first entry. */
  lemma ReplyStart(order: seq<Address>)
    requires order != []
    ensures |Reply(order)| > 0 && Reply(order)[0] == '('
  {
    var lines := RenderAll(order);
    if |order| > 1 {
      assert Reply(order) == lines[0] + "\n" + Join(lines[1..], '\n');
    }
  }

  /** No "!" occurs in a reply, so a receiver sees it as a single field. */
  lemma ReplyIsOneField(order: seq<Address>)
    requires forall i :: 0 <= i < |order| ==> PlainHost(order[i].host)
    ensures Split(Reply(order), '!') == [Reply(order)]
  {
    RenderAllDecodes(order);
    JoinAvoids(RenderAll(order), '\n', '!');
  }

  /** With exactly one client, the reply parses to that client. */
  lemma SingleClientReply(a: Address)
    requires PlainHost(a.host)
    ensures Split(Reply([a]), '!') == [Render(a)]
    ensures ParseAll(Split(Reply([a]), '!')) == Parsed([a], None)
  {
    ReplyIsOneField([a]);
    assert RenderAll([a]) == [Render(a)];
    ParseRender(a);
    assert [Render(a)][1..] == [];
  }

  /** A reply for two or more clients starts with the first two entries. */
  lemma ReplyHead(order: seq<Address>) returns (e: string)
    requires |order| >= 2
    ensures Reply(order) == Render(order[0]) + "\n" + Render(order[1]) + e
  {
    var lines := RenderAll(order);
    e := JoinHead(lines, '\n');
  }

  /** Cleaning keeps a newline between two strings. */
  lemma CleanAroundNewline(x: string, y: string)
    ensures Clean(x + "\n" + y) == Clean(x) + "\n" + Clean(y)
  {
    CleanLiterals();
    CleanConcat(x, "\n");
    CleanConcat(x + "\n", y);
  }

  /** Cleaning the first two entries of a reply. */
  lemma CleanTwoEntries(a1: Address, a2: Address, e: string)
    requires PlainHost(a1.host) && PlainHost(a2.host)
    ensures Clean(Render(a1) + "\n" + Render(a2) + e)
         == a1.host + [','] + ((IntToString(a1.port) + "\n" + a2.host) + [','] + (IntToString(a2.port) + Clean(e)))
  {
    var r1, r2 := Render(a1), Render(a2);
    var p1, p2 := IntToString(a1.port), IntToString(a2.port);
    CleanRender(a1);
    CleanRender(a2);
    CleanAroundNewline(r1, r2);
    CleanConcat(r1 + "\n" + r2, e);
    var c := Clean(r1 + "\n" + r2 + e);
    assert c == (a1.host + "," + p1) + "\n" + (a2.host + "," + p2) + Clean(e);
  }

  /** The second comma-piece of a cleaned reply for two or more clients runs from the first port into the second host. */
  lemma CrowdedSecondPiece(order: seq<Address>)
    requires |order| >= 2
    requires forall i :: 0 <= i < |order| ==> PlainHost(order[i].host)
    ensures |Split(Clean(Reply(order)), ',')| >= 2
    ensures Split(Clean(Reply(order)), ',')[1] == IntToString(order[0].port) + "\n" + order[1].host
  {
    var a1, a2 := order[0], order[1];
    var e := ReplyHead(order);
    CleanTwoEntries(a1, a2, e);
    IntToStringClean(a1.port);
    PlainHostAvoids(a1.host, ',');
    PlainHostAvoids(a2.host, ',');
    var piece := IntToString(a1.port) + "\n" + a2.host;
    var z := IntToString(a2.port) + Clean(e);
    SplitCons(a1.host, piece + [','] + z, ',');
    SplitCons(piece, z, ',');
  }

  /**
   * The separator mismatch: the server joins entries with "\n" while the
   * receivers split on "!". With two or more clients the whole reply is one
   * field whose second comma-piece is "port1\nhost2", which int() refuses:
   * the receiver appends nothing and raises ValueError.
   */
  lemma CrowdedReplyRejected(order: seq<Address>)
    requires |order| >= 2
    requires forall i :: 0 <= i < |order| ==> PlainHost(order[i].host) && order[i].host != ""
    ensures Split(Reply(order), '!') == [Reply(order)]
    ensures ParseField(Reply(order)) == Failure(ValueError)
    ensures ParseAll(Split(Reply(order), '!')) == Parsed([], Some(ValueError))
  {
    ReplyIsOneField(order);
    CrowdedSecondPiece(order);
    var h2 := order[1].host;
    IntToStringClean(order[0].port);
    assert !IsSpace(h2[0]);
    ParseIntRejectsInnerSpace(IntToString(order[0].port), '\n', h2);
    assert [Reply(order)][1..] == [];
  }
}
