/** Sequence helpers standing in for Python's list.remove . */
module Seqs {

  /** The index of the first occurrence of x in s. */
  function FirstIndex<T(==)>(s: seq<T>, x: T): (i: nat)
    requires x in s
    ensures i < |s| && s[i] == x && x !in s[..i]
  {
    if s[0] == x then 0
    else
      var j := FirstIndex(s[1..], x);
      assert s[..j + 1] == [s[0]] + s[1..][..j];
      j + 1
  }

  /** The first occurrence is the only index with x there and not before. */
  lemma FirstIndexUnique<T>(s: seq<T>, x: T, i: nat)
    requires i < |s| && s[i] == x && x !in s[..i]
    ensures FirstIndex(s, x) == i
  {
  }

  /** Python's list.remove(x) when x is present; the list unchanged otherwise. */
  function RemoveFirst<T(==)>(s: seq<T>, x: T): (r: seq<T>)
  {
    if s == [] then []
    else if s[0] == x then s[1..]
    else [s[0]] + RemoveFirst(s[1..], x)
  }

  /** RemoveFirst leaves a list without x unchanged. */
  lemma {:induction false} RemoveFirstAbsent<T>(s: seq<T>, x: T)
    requires x !in s
    ensures RemoveFirst(s, x) == s
  {
    if s != [] {
      assert s[0] != x && x !in s[1..];
      RemoveFirstAbsent(s[1..], x);
    }
  }

  /** RemoveFirst deletes exactly the first occurrence of x and keeps every other element in order. */
  lemma {:induction false} RemoveFirstPresent<T>(s: seq<T>, x: T)
    requires x in s
    ensures RemoveFirst(s, x) == s[..FirstIndex(s, x)] + s[FirstIndex(s, x) + 1..]
  {
    if s[0] != x {
      assert x in s[1..];
      var j := FirstIndex(s[1..], x);
      RemoveFirstPresent(s[1..], x);
      assert FirstIndex(s, x) == j + 1;
      var u, v := s[1..][..j], s[1..][j + 1..];
      assert RemoveFirst(s, x) == [s[0]] + (u + v);
      assert s[..j + 1] == [s[0]] + u;
      assert s[j + 2..] == v;
      assert [s[0]] + (u + v) == ([s[0]] + u) + v;
    }
  }

  /** As a multiset, the result is the input with one copy of x taken away (none if x is absent). */
  lemma {:induction false} RemoveFirstMultiset<T>(s: seq<T>, x: T)
    ensures multiset(RemoveFirst(s, x)) == multiset(s) - multiset{x}
  {
    if s != [] {
      assert s == [s[0]] + s[1..];
      if s[0] != x {
        RemoveFirstMultiset(s[1..], x);
        assert RemoveFirst(s, x) == [s[0]] + RemoveFirst(s[1..], x);
      }
    }
  }

  /** Taking away a and then b takes away a + b. */
  lemma MultisetDiffDiff<T>(m: multiset<T>, a: multiset<T>, b: multiset<T>)
    ensures (m - a) - b == m - (a + b)
  {
  }

  /** RemoveFirst of each element of xs in turn. */
  function RemoveEach<T(==)>(s: seq<T>, xs: seq<T>): seq<T>
    decreases |xs|
  {
    if xs == [] then s else RemoveEach(RemoveFirst(s, xs[0]), xs[1..])
  }

  /** As a multiset, removing each element of xs in turn takes away multiset(xs). */
  lemma {:induction false} RemoveEachMultiset<T>(s: seq<T>, xs: seq<T>)
    ensures multiset(RemoveEach(s, xs)) == multiset(s) - multiset(xs)
    decreases |xs|
  {
    if xs != [] {
      RemoveFirstMultiset(s, xs[0]);
      RemoveEachMultiset(RemoveFirst(s, xs[0]), xs[1..]);
      assert xs == [xs[0]] + xs[1..];
      MultisetDiffDiff(multiset(s), multiset{xs[0]}, multiset(xs[1..]));
    }
  }
}
