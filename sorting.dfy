// The insertion sort used by full-text search (sortByScore) and hybrid search
// (sortByFusedScore): descending by a real-valued score, in place on a slice.
// The two Go functions are the same algorithm over different element types, so
// the model defines it once, generic in the element type and its score.
module Sorting {

  /** Non-increasing by score. */
  ghost predicate SortedDesc<T>(s: seq<T>, score: T -> real)
  {
    forall i, j :: 0 <= i < j < |s| ==> score(s[i]) >= score(s[j])
  }

  /**
   * One step of insertion: `x` moves left past every trailing element whose
   * score is strictly smaller, exactly as the inner loop shifts elements right.
   */
  function InsertDesc<T>(p: seq<T>, x: T, score: T -> real): (r: seq<T>)
    ensures |r| == |p| + 1
  {
    if |p| == 0 then [x]
    else if score(p[|p| - 1]) < score(x) then InsertDesc(p[..|p| - 1], x, score) + [p[|p| - 1]]
    else p + [x]
  }

  /** The whole sort: insert the elements one at a time, left to right. */
  function SortDesc<T>(s: seq<T>, score: T -> real): (r: seq<T>)
    ensures |r| == |s|
  {
    if |s| == 0 then [] else InsertDesc(SortDesc(s[..|s| - 1], score), s[|s| - 1], score)
  }

  lemma {:induction false} InsertDescPermutes<T>(p: seq<T>, x: T, score: T -> real)
    ensures multiset(InsertDesc(p, x, score)) == multiset(p) + multiset{x}
  {
    if |p| > 0 && score(p[|p| - 1]) < score(x) {
      InsertDescPermutes(p[..|p| - 1], x, score);
      assert p == p[..|p| - 1] + [p[|p| - 1]];
    }
  }

  lemma {:induction false} InsertDescSorted<T>(p: seq<T>, x: T, score: T -> real)
    requires SortedDesc(p, score)
    ensures SortedDesc(InsertDesc(p, x, score), score)
  {
    if |p| > 0 && score(p[|p| - 1]) < score(x) {
      var q := p[..|p| - 1];
      var last := p[|p| - 1];
      assert SortedDesc(q, score);
      InsertDescSorted(q, x, score);
      var r := InsertDesc(q, x, score);
      InsertDescPermutes(q, x, score);
      forall k | 0 <= k < |r| ensures score(r[k]) >= score(last) {
        assert r[k] in multiset(r);
        if r[k] != x {
          assert r[k] in multiset(q);
          var i :| 0 <= i < |q| && q[i] == r[k];
          assert q[i] == p[i];
        }
      }
      assert InsertDesc(p, x, score) == r + [last];
    }
  }

  /** The sort returns a non-increasing arrangement of its input. */
  lemma {:induction false} SortDescSortedPermutation<T>(s: seq<T>, score: T -> real)
    ensures SortedDesc(SortDesc(s, score), score)
    ensures multiset(SortDesc(s, score)) == multiset(s)
  {
    if |s| > 0 {
      var init := s[..|s| - 1];
      SortDescSortedPermutation(init, score);
      InsertDescSorted(SortDesc(init, score), s[|s| - 1], score);
      InsertDescPermutes(SortDesc(init, score), s[|s| - 1], score);
      assert s == init + [s[|s| - 1]];
    }
  }

  /**
   * One pass of the outer loop: the element at `i` is taken out and the
   * smaller-scored elements before it are shifted one slot to the right.
   */
  method InsertAt<T>(a: array<T>, i: nat, score: T -> real)
    requires i < a.Length
    modifies a
    ensures a[..i + 1] == InsertDesc(old(a[..i]), old(a[i]), score)
    ensures a[i + 1..] == old(a[i + 1..])
  {
    ghost var p := a[..i];
    var key := a[i];
    var j := i - 1;
    while j >= 0 && score(a[j]) < score(key)
      invariant -1 <= j < i
      invariant forall k :: 0 <= k <= j ==> a[k] == p[k]
      invariant forall k :: j + 2 <= k <= i ==> a[k] == p[k - 1]
      invariant forall k :: i < k < a.Length ==> a[k] == old(a[k])
      invariant forall k :: j < k < i ==> score(p[k]) < score(key)
    {
      a[j + 1] := a[j];
      j := j - 1;
    }
    a[j + 1] := key;
    assert forall k :: i < k < a.Length ==> a[k] == old(a[k]);
    assert a[i + 1..] == old(a[i + 1..]);
    ShiftedIsInsert(p, a[..i + 1], j, key, score);
  }

  /**
   * The state the inner loop leaves: the prefix up to `j` untouched, the key
   * at `j + 1`, the rest shifted right by one, is the insertion of the key.
   */
  lemma {:induction false} ShiftedIsInsert<T>(p: seq<T>, t: seq<T>, j: int, key: T, score: T -> real)
    requires -1 <= j < |p| && |t| == |p| + 1
    requires forall k :: 0 <= k <= j ==> t[k] == p[k]
    requires t[j + 1] == key
    requires forall k :: j + 2 <= k <= |p| ==> t[k] == p[k - 1]
    requires forall k :: j < k < |p| ==> score(p[k]) < score(key)
    requires j >= 0 ==> score(p[j]) >= score(key)
    ensures t == InsertDesc(p, key, score)
    decreases |p|
  {
    if j + 1 < |p| {
      var q := p[..|p| - 1];
      assert score(p[|p| - 1]) < score(key);
      ShiftedIsInsert(q, t[..|p|], j, key, score);
      assert t == t[..|p|] + [p[|p| - 1]];
    } else {
      assert t == p + [key];
    }
  }

  /** The in-place insertion sort; the result is SortDesc of the old contents. */
  method SortInPlace<T>(a: array<T>, score: T -> real)
    modifies a
    ensures a[..] == SortDesc(old(a[..]), score)
  {
    ghost var s := a[..];
    if a.Length == 0 { return; }
    var i := 1;
    assert a[..1] == SortDesc(s[..1], score);
    while i < a.Length
      invariant 1 <= i <= a.Length
      invariant a[..i] == SortDesc(s[..i], score)
      invariant a[i..] == s[i..]
    {
      assert a[i] == s[i];
      InsertAt(a, i, score);
      assert s[..i + 1][..i] == s[..i];
      i := i + 1;
    }
    assert a[..] == a[..a.Length] && s[..a.Length] == s;
  }
}
