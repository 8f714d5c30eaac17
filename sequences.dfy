/** Identity-based search and removal on sequences, as the token uses them on its registration list. */
module Sequences {

  /** No element occurs twice. */
  ghost predicate NoDuplicates<T>(s: seq<T>) {
    forall i, j :: 0 <= i < j < |s| ==> s[i] != s[j]
  }

  /** The index of the first element equal to `x`, or `|s|` when there is none
      (Swift's `firstIndex(where: { $0 === x })`). */
  function FirstIndex<T(==)>(s: seq<T>, x: T): (i: nat)
    ensures i <= |s|
    ensures i < |s| ==> s[i] == x
    ensures x !in s[..i]
  {
    if s == [] then 0
    else if s[0] == x then 0
    else
      var i := 1 + FirstIndex(s[1..], x);
      assert s[..i] == [s[0]] + s[1..][..i - 1];
      i
  }

  /** `s` with its first occurrence of `x` removed (`remove(at:)` at the first index), or `s` itself when `x` is absent. */
  function RemoveFirst<T(==)>(s: seq<T>, x: T): (r: seq<T>)
    ensures x !in s ==> r == s
    ensures x in s ==> |r| == |s| - 1
  {
    var i := FirstIndex(s, x);
    if i == |s| then
      assert s[..i] == s;
      s
    else
      s[..i] + s[i + 1..]
  }

  /** Removing the first `x` deletes exactly that occurrence and keeps the rest in order. */
  lemma RemoveFirstSplit<T>(a: seq<T>, x: T, b: seq<T>)
    requires x !in a
    ensures RemoveFirst(a + [x] + b, x) == a + b
  {
    var s := a + [x] + b;
    var i := FirstIndex(s, x);
    assert s[|a|] == x;
    assert i == |a|;
    assert s[..i] == a;
    assert s[i + 1..] == b;
  }

  /** On a list without duplicates, removing `x` removes every occurrence and keeps the list duplicate-free. */
  lemma RemoveFirstDistinct<T>(s: seq<T>, x: T)
    requires NoDuplicates(s)
    ensures NoDuplicates(RemoveFirst(s, x))
    ensures forall y :: y in RemoveFirst(s, x) <==> y in s && y != x
  {
    var i := FirstIndex(s, x);
    if i < |s| {
      var a, b := s[..i], s[i + 1..];
      assert s == a + [x] + b;
      RemoveFirstSplit(a, x, b);
      forall k | 0 <= k < |b| ensures b[k] != x {
        assert b[k] == s[i + 1 + k];
      }
      var r := a + b;
      forall p, q | 0 <= p < q < |r| ensures r[p] != r[q] {
        var p' := if p < i then p else p + 1;
        var q' := if q < i then q else q + 1;
        assert r[p] == s[p'] && r[q] == s[q'];
      }
    }
  }
}
