/**
 * The parts of Python's string semantics that the peers, the client and the
 * rendezvous server rely on: str.split and str.join on one separator
 * character, str.strip, ASCII str.lower, str(int) and int(str) in base 10.
 */
module PyStr {
  import opened Wrappers
  import opened Seqs

  /** The two exceptions the source can raise while decoding a datagram. */
  datatype PyError = IndexError | ValueError

  predicate IsDigit(c: char) { '0' <= c <= '9' }

  function DigitValue(c: char): (d: nat)
    requires IsDigit(c)
    ensures d < 10
  {
    (c as int) - ('0' as int)
  }

  function DigitChar(d: nat): (c: char)
    requires d < 10
    ensures IsDigit(c) && DigitValue(c) == d
  {
    ('0' as int + d) as char
  }

  /** The ASCII characters Python's int() treats as white space (str.isspace). */
  predicate IsSpace(c: char)
  {
    c == ' ' || 9 <= c as int <= 13 || 28 <= c as int <= 31
  }

  predicate HasNonSpace(s: string)
  {
    exists i :: 0 <= i < |s| && !IsSpace(s[i])
  }

  // ---------------------------------------------------------------------
  // split and join

  /** sep.join(parts) */
  function Join(parts: seq<string>, sep: char): (s: string)
  {
    if |parts| == 0 then ""
    else if |parts| == 1 then parts[0]
    else parts[0] + [sep] + Join(parts[1..], sep)
  }

  /** Joining two or more parts starts with the first two. */
  lemma JoinHead(parts: seq<string>, sep: char) returns (rest: string)
    requires |parts| >= 2
    ensures Join(parts, sep) == parts[0] + [sep] + parts[1] + rest
  {
    assert parts[1..][0] == parts[1] && parts[1..][1..] == parts[2..];
    if |parts| == 2 {
      rest := [];
    } else {
      rest := [sep] + Join(parts[2..], sep);
    }
  }

  /** s.split(sep): never empty, no part holds sep, more than one part exactly when sep occurs, and joining gives s back. */
  function Split(s: string, sep: char): (parts: seq<string>)
    ensures |parts| >= 1
    ensures forall i :: 0 <= i < |parts| ==> sep !in parts[i]
    ensures |parts| >= 2 <==> sep in s
    ensures Join(parts, sep) == s
    decreases |s|
  {
    if sep !in s then [s]
    else
      var i := FirstIndex(s, sep);
      var rest := Split(s[i + 1..], sep);
      var parts := [s[..i]] + rest;
      assert parts[1..] == rest;
      assert s == s[..i] + [sep] + s[i + 1..];
      parts
  }

  /** Splitting undoes joining whenever no part holds the separator. */
  lemma {:induction false} SplitJoin(parts: seq<string>, sep: char)
    requires |parts| >= 1
    requires forall i :: 0 <= i < |parts| ==> sep !in parts[i]
    ensures Split(Join(parts, sep), sep) == parts
  {
    if |parts| > 1 {
      var s := Join(parts, sep);
      var tail := Join(parts[1..], sep);
      assert s == parts[0] + [sep] + tail;
      SplitCons(parts[0], tail, sep);
      SplitJoin(parts[1..], sep);
      assert parts == [parts[0]] + parts[1..];
    }
  }

  /** The first separator ends the first part. */
  lemma SplitCons(x: string, y: string, sep: char)
    requires sep !in x
    ensures Split(x + [sep] + y, sep) == [x] + Split(y, sep)
  {
    var s := x + [sep] + y;
    assert s[..|x|] == x;
    FirstIndexUnique(s, sep, |x|);
    assert s[|x| + 1..] == y;
  }

  /** A character other than the separator that occurs in no part does not occur in the joined string. */
  lemma {:induction false} JoinAvoids(parts: seq<string>, sep: char, c: char)
    requires c != sep
    requires forall i :: 0 <= i < |parts| ==> c !in parts[i]
    ensures c !in Join(parts, sep)
  {
    if |parts| > 1 {
      JoinAvoids(parts[1..], sep, c);
    }
  }

  // ---------------------------------------------------------------------
  // lower

  function LowerChar(c: char): (l: char)
  {
    if 'A' <= c <= 'Z' then (c as int + 32) as char else c
  }

  /** s.lower(), on ASCII letters. */
  function Lower(s: string): string
  {
    seq(|s|, i requires 0 <= i < |s| => LowerChar(s[i]))
  }

  // ---------------------------------------------------------------------
  // strip

  function TrimLeft(s: string): (t: string)
  {
    if |s| > 0 && IsSpace(s[0]) then TrimLeft(s[1..]) else s
  }

  function TrimRight(s: string): (t: string)
  {
    if |s| > 0 && IsSpace(s[|s| - 1]) then TrimRight(s[..|s| - 1]) else s
  }

  /** s.strip() with Python's white space. */
  function Strip(s: string): string
  {
    TrimRight(TrimLeft(s))
  }

  lemma StripNoSpace(s: string)
    requires forall i :: 0 <= i < |s| ==> !IsSpace(s[i])
    ensures Strip(s) == s
  {
  }

  /** Leading white space is only looked for up to the first other character. */
  lemma {:induction false} TrimLeftConcat(u: string, w: string)
    requires HasNonSpace(u)
    ensures TrimLeft(u + w) == TrimLeft(u) + w
    ensures |TrimLeft(u)| > 0
  {
    if IsSpace(u[0]) {
      var i :| 0 <= i < |u| && !IsSpace(u[i]);
      assert i > 0 && u[1..][i - 1] == u[i];
      TrimLeftConcat(u[1..], w);
      assert (u + w)[1..] == u[1..] + w;
    }
  }

  /** Trailing white space is only looked for back to the last other character. */
  lemma {:induction false} TrimRightConcat(w: string, v: string)
    requires HasNonSpace(v)
    ensures TrimRight(w + v) == w + TrimRight(v)
    ensures |TrimRight(v)| > 0
  {
    var n := |v|;
    if IsSpace(v[n - 1]) {
      var i :| 0 <= i < n && !IsSpace(v[i]);
      assert i < n - 1 && v[..n - 1][i] == v[i];
      TrimRightConcat(w, v[..n - 1]);
      assert (w + v)[..|w + v| - 1] == w + v[..n - 1];
    }
  }

  // ---------------------------------------------------------------------
  // str(int)

  /** The value of a string of decimal digits, most significant first. */
  function DigitsValue(s: string): (n: nat)
    requires forall i :: 0 <= i < |s| ==> IsDigit(s[i])
  {
    if s == [] then 0 else DigitsValue(s[..|s| - 1]) * 10 + DigitValue(s[|s| - 1])
  }

  /** str(n) for n >= 0: decimal digits without leading zeros. */
  function NatToString(n: nat): (s: string)
    ensures |s| > 0
    ensures forall i :: 0 <= i < |s| ==> IsDigit(s[i])
    ensures DigitsValue(s) == n
  {
    if n < 10 then [DigitChar(n)]
    else
      var s := NatToString(n / 10) + [DigitChar(n % 10)];
      assert s[..|s| - 1] == NatToString(n / 10);
      s
  }

  /** str(n) */
  function IntToString(n: int): (s: string)
    ensures |s| > 0 && !IsSpace(s[0]) && !IsSpace(s[|s| - 1])
    ensures forall i :: 0 <= i < |s| ==> IsDigit(s[i]) || (i == 0 && s[i] == '-')
  {
    if n < 0 then "-" + NatToString(-n) else NatToString(n)
  }

  // ---------------------------------------------------------------------
  // int(str)

  /**
   * The body of a base-10 literal as int() accepts it: digits, with single
   * underscores allowed between two digits.
   */
  predicate DigitGroups(b: string)
  {
    && |b| > 0
    && IsDigit(b[0])
    && IsDigit(b[|b| - 1])
    && (forall i :: 0 <= i < |b| ==> IsDigit(b[i]) || b[i] == '_')
    && (forall i :: 0 <= i < |b| - 1 ==> !(b[i] == '_' && b[i + 1] == '_'))
  }

  function WithoutUnderscores(b: string): (d: string)
    requires forall i :: 0 <= i < |b| ==> IsDigit(b[i]) || b[i] == '_'
    ensures forall i :: 0 <= i < |d| ==> IsDigit(d[i])
    ensures (forall i :: 0 <= i < |b| ==> IsDigit(b[i])) ==> d == b
  {
    if b == [] then []
    else (if b[0] == '_' then [] else [b[0]]) + WithoutUnderscores(b[1..])
  }

  function ParseDigitGroups(b: string): (r: Option<nat>)
    ensures r.Some? <==> DigitGroups(b)
  {
    if DigitGroups(b) then Some(DigitsValue(WithoutUnderscores(b))) else None
  }

  /**
   * int(s) in base 10: surrounding white space is ignored, one optional sign,
   * then digit groups; anything else is a ValueError (here None).
   */
  function ParseInt(s: string): (r: Option<int>)
  {
    var t := Strip(s);
    if |t| > 0 && (t[0] == '+' || t[0] == '-') then
      match ParseDigitGroups(t[1..])
      case None => None
      case Some(m) => var v: int := m; Some(if t[0] == '-' then -v else v)
    else
      match ParseDigitGroups(t)
      case None => None
      case Some(m) => Some(m)
  }

  /** int(str(n)) == n */
  lemma ParseIntToString(n: int)
    ensures ParseInt(IntToString(n)) == Some(n)
  {
    var s := IntToString(n);
    StripNoSpace(s);
    if n < 0 {
      assert s[1..] == NatToString(-n);
    }
  }

  /** int() rejects a string with white space between two other characters. */
  lemma ParseIntRejectsInnerSpace(u: string, c: char, v: string)
    requires HasNonSpace(u) && IsSpace(c) && HasNonSpace(v)
    ensures ParseInt(u + [c] + v) == None
  {
    TrimLeftConcat(u, [c] + v);
    assert u + [c] + v == u + ([c] + v);
    var l := TrimLeft(u);
    TrimRightConcat(l + [c], v);
    var t := Strip(u + [c] + v);
    assert TrimLeft(u + [c] + v) == (l + [c]) + v;
    assert t == l + [c] + TrimRight(v);
    assert t[|l|] == c;
    if t[0] == '+' || t[0] == '-' {
      assert t[1..][|l| - 1] == c;
      assert !DigitGroups(t[1..]);
    } else {
      assert !DigitGroups(t);
    }
  }
}
