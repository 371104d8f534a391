// Operations on a graph node's neighbour list (a Go `[]uint64`), shared by the
// HNSW and NSG node types: append-if-absent and remove-by-swapping-with-last.
module NeighborLists {

  /** No identifier occurs twice. */
  predicate NoDup(s: seq<nat>)
  {
    forall i, j :: 0 <= i < j < |s| ==> s[i] != s[j]
  }

  /** The position of the first occurrence of `x`. */
  function FirstIndex(s: seq<nat>, x: nat): (i: nat)
    requires x in s
    ensures i < |s| && s[i] == x
    ensures forall k :: 0 <= k < i ==> s[k] != x
  {
    if s[0] == x then 0 else 1 + FirstIndex(s[1..], x)
  }

  /** AddNeighbor: append `x` unless it is already present. */
  function AppendNew(s: seq<nat>, x: nat): (r: seq<nat>)
    ensures forall y :: y in r <==> y in s || y == x
    ensures |s| <= |r| <= |s| + 1 && r[..|s|] == s
    ensures NoDup(s) ==> NoDup(r)
  {
    if x in s then s else s + [x]
  }

  /**
   * RemoveNeighbor: the first occurrence of `x` is overwritten by the last
   * element and the list is truncated by one; a missing `x` changes nothing.
   */
  function SwapRemove(s: seq<nat>, x: nat): seq<nat>
  {
    if x !in s then s
    else
      var i := FirstIndex(s, x);
      s[i := s[|s| - 1]][..|s| - 1]
  }

  /** Removal takes exactly one copy of `x` out of the list, none when it is absent. */
  lemma SwapRemoveCount(s: seq<nat>, x: nat)
    ensures x !in s ==> SwapRemove(s, x) == s
    ensures x in s ==> |SwapRemove(s, x)| == |s| - 1
    ensures multiset(SwapRemove(s, x)) == multiset(s) - multiset{x}
  {
    if x in s {
      var i := FirstIndex(s, x);
      var n := |s| - 1;
      var r := s[i := s[n]][..n];
      if i == n {
        assert s == r + [x];
      } else {
        var pre, mid := s[..i], s[i + 1..n];
        assert r == pre + [s[n]] + mid;
        assert s == pre + [x] + mid + [s[n]];
      }
    }
  }

  /** On a duplicate-free list, `x` is gone afterwards and no duplicate appears. */
  lemma SwapRemoveNoDup(s: seq<nat>, x: nat)
    requires NoDup(s)
    ensures NoDup(SwapRemove(s, x)) && x !in SwapRemove(s, x)
  {
    if x in s {
      var i := FirstIndex(s, x);
      var n := |s| - 1;
      var r := s[i := s[n]][..n];
      assert forall k :: 0 <= k < |r| ==> r[k] == s[if k == i then n else k];
    }
  }

  /** Removal takes `x` and nothing else off the list, never lengthens it, and keeps it duplicate-free. */
  lemma SwapRemoveKeeps(s: seq<nat>, x: nat)
    ensures forall y :: y in SwapRemove(s, x) ==> y in s
    ensures forall y :: y != x && y in s ==> y in SwapRemove(s, x)
    ensures |SwapRemove(s, x)| <= |s|
    ensures NoDup(s) ==> NoDup(SwapRemove(s, x))
  {
    SwapRemoveCount(s, x);
    if NoDup(s) {
      SwapRemoveNoDup(s, x);
    }
    forall y ensures y in SwapRemove(s, x) <==> y in multiset(s) - multiset{x} {
    }
  }

  /** The membership loop of AddNeighbor and HasNeighbor. */
  method Contains(s: seq<nat>, x: nat) returns (found: bool)
    ensures found <==> x in s
  {
    var k := 0;
    while k < |s|
      invariant 0 <= k <= |s|
      invariant x !in s[..k]
    {
      if s[k] == x { return true; }
      k := k + 1;
    }
    assert s[..k] == s;
    return false;
  }

  /** The search loop of RemoveNeighbor, followed by the swap and truncation. */
  method RemoveBySwap(s: seq<nat>, x: nat) returns (r: seq<nat>)
    ensures r == SwapRemove(s, x)
  {
    var k := 0;
    while k < |s|
      invariant 0 <= k <= |s|
      invariant forall j :: 0 <= j < k ==> s[j] != x
    {
      if s[k] == x {
        assert FirstIndex(s, x) == k by { FirstIndexUnique(s, x, k); }
        r := s[k := s[|s| - 1]][..|s| - 1];
        return;
      }
      k := k + 1;
    }
    return s;
  }

  lemma FirstIndexUnique(s: seq<nat>, x: nat, k: nat)
    requires k < |s| && s[k] == x
    requires forall j :: 0 <= j < k ==> s[j] != x
    ensures FirstIndex(s, x) == k
  {
    var i := FirstIndex(s, x);
    assert !(i < k) && !(k < i);
  }
}
