// What full-text search and both fusion methods of hybrid search do after
// scoring: turn the keys of a score map into a list (in the map's iteration
// order, which the model leaves unspecified), sort it by descending score in
// place, and keep the first k (results[:k] when k < len(results)).
module Ranking {
  import opened Sorting

  function Min(a: nat, b: nat): nat
  {
    if a <= b then a else b
  }

  predicate Distinct<T(==)>(s: seq<T>)
  {
    forall i, j :: 0 <= i < j < |s| ==> s[i] != s[j]
  }

  /** Ranging over a set: some duplicate-free list of exactly its elements. */
  method Enumerate(ids: set<nat>) returns (s: seq<nat>)
    ensures Distinct(s) && |s| == |ids|
    ensures forall x :: x in s <==> x in ids
  {
    s := [];
    var rest := ids;
    while rest != {}
      invariant Distinct(s) && rest <= ids
      invariant forall x :: x in s <==> x in ids && x !in rest
      invariant |s| + |rest| == |ids|
      decreases |rest|
    {
      var x :| x in rest;
      s := s + [x];
      rest := rest - {x};
    }
  }

  /** The sort and the truncation: SortDesc of the list, cut to its first k elements. */
  method TopK<T>(items: seq<T>, k: int, score: T -> real) returns (r: seq<T>)
    requires k >= 0
    ensures r == SortDesc(items, score)[..Min(k, |items|)]
  {
    var a := new T[|items|](i requires 0 <= i < |items| => items[i]);
    assert a[..] == items;
    SortInPlace(a, score);
    SortDescSortedPermutation(items, score);
    if k < a.Length {
      r := a[..k];
    } else {
      r := a[..];
    }
  }

  /**
   * The first k of the sorted list are sorted, number min(k, |items|), come
   * from the list, and score at least as high as every element left out.
   */
  lemma TopKSelects<T>(items: seq<T>, k: nat, score: T -> real)
    ensures var r := SortDesc(items, score)[..Min(k, |items|)];
      |r| == Min(k, |items|) && SortedDesc(r, score) &&
      multiset(r) <= multiset(items) &&
      forall x :: x in multiset(items) - multiset(r) ==> forall i :: 0 <= i < |r| ==> score(x) <= score(r[i])
  {
    SortDescSortedPermutation(items, score);
    PrefixSelects(SortDesc(items, score), Min(k, |items|), score);
  }

  lemma PrefixSelects<T>(s: seq<T>, m: nat, score: T -> real)
    requires m <= |s| && SortedDesc(s, score)
    ensures SortedDesc(s[..m], score) && multiset(s[..m]) <= multiset(s)
    ensures forall x :: x in multiset(s) - multiset(s[..m]) ==> forall i :: 0 <= i < m ==> score(x) <= score(s[i])
  {
    var r := s[..m];
    assert s == r + s[m..];
    assert multiset(s) == multiset(r) + multiset(s[m..]);
    forall x | x in multiset(s) - multiset(r)
      ensures forall i :: 0 <= i < m ==> score(x) <= score(s[i])
    {
      assert x in multiset(s[m..]);
      var j :| m <= j < |s| && s[j] == x;
    }
  }

  /** With distinct elements, an element of the list missing from the top k scores no higher than any of them. */
  lemma TopKDistinct<T>(items: seq<T>, k: nat, score: T -> real)
    requires Distinct(items)
    ensures var r := SortDesc(items, score)[..Min(k, |items|)];
      Distinct(r) && (forall x :: x in r ==> x in items) &&
      forall x :: x in items && x !in r ==> forall i :: 0 <= i < |r| ==> score(x) <= score(r[i])
  {
    TopKSelects(items, k, score);
    SubDistinct(SortDesc(items, score)[..Min(k, |items|)], items);
  }

  /** A sub-multiset of a duplicate-free list is duplicate-free, and what it lacks is in the difference. */
  lemma SubDistinct<T>(r: seq<T>, s: seq<T>)
    requires Distinct(s) && multiset(r) <= multiset(s)
    ensures Distinct(r) && (forall x :: x in r ==> x in s)
    ensures forall x :: x in s && x !in r ==> x in multiset(s) - multiset(r)
  {
    DistinctMultiset(s);
    forall x | x in r ensures x in s {
      assert x in multiset(r);
    }
    forall i, j | 0 <= i < j < |r| ensures r[i] != r[j] {
      assert r == r[..i] + [r[i]] + r[i + 1..j] + [r[j]] + r[j + 1..];
      assert multiset(r)[r[i]] >= multiset([r[i], r[j]])[r[i]];
    }
  }

  /** A duplicate-free list holds each element once. */
  lemma {:induction false} DistinctMultiset<T>(s: seq<T>)
    requires Distinct(s)
    ensures forall x :: multiset(s)[x] <= 1
  {
    if s != [] {
      var init := s[..|s| - 1];
      assert Distinct(init);
      DistinctMultiset(init);
      assert s == init + [s[|s| - 1]];
      assert s[|s| - 1] !in init;
    }
  }
}
