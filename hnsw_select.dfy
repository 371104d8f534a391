// Neighbour selection during HNSW construction (pkg/hnsw/insert.go):
// selectNeighbors keeps the first M search candidates, pruneNeighbors keeps
// the M closest of a node's neighbours. Distances are abstract reals.
module HnswSelect {
  import opened Wrappers
  import opened NeighborLists

  /** A (node id, distance) pair: the heap item / neighbour-distance record. */
  datatype Candidate = Candidate(id: nat, distance: real)

  function Ids(cs: seq<Candidate>): (r: seq<nat>)
    ensures |r| == |cs|
  {
    seq(|cs|, i requires 0 <= i < |cs| => cs[i].id)
  }

  /** selectNeighbors: every candidate id when there are at most M, otherwise the first M. */
  function SelectNeighbors(cands: seq<Candidate>, m: int): (r: seq<nat>)
    requires m >= 0
    ensures |r| == if |cands| <= m then |cands| else m
    ensures forall i :: 0 <= i < |r| ==> r[i] == cands[i].id
  {
    if |cands| <= m then Ids(cands) else Ids(cands[..m])
  }

  /** The first index holding the smallest distance, as the strict `<` scan finds it. */
  function ArgMin(ds: seq<Candidate>): (i: nat)
    requires |ds| > 0
    ensures i < |ds|
    ensures forall j :: 0 <= j < |ds| ==> ds[i].distance <= ds[j].distance
    ensures forall j :: 0 <= j < i ==> ds[j].distance > ds[i].distance
  {
    if |ds| == 1 then 0
    else
      var m := ArgMin(ds[..|ds| - 1]);
      if ds[|ds| - 1].distance < ds[m].distance then |ds| - 1 else m
  }

  function RemoveAt<T>(s: seq<T>, i: nat): (r: seq<T>)
    requires i < |s|
    ensures |r| == |s| - 1
    ensures forall k :: 0 <= k < |r| ==> r[k] == s[if k < i then k else k + 1]
  {
    s[..i] + s[i + 1..]
  }

  lemma RemoveAtMultiset<T>(s: seq<T>, i: nat)
    requires i < |s|
    ensures multiset(RemoveAt(s, i)) + multiset{s[i]} == multiset(s)
    ensures forall c :: c in RemoveAt(s, i) ==> c in s
  {
    RemoveAtCount(s, i);
  }

  lemma RemoveAtCount<T>(s: seq<T>, i: nat)
    requires i < |s|
    ensures multiset(RemoveAt(s, i)) + multiset{s[i]} == multiset(s)
  {
    assert s == s[..i] + [s[i]] + s[i + 1..];
  }

  lemma RemoveAtIds(ds: seq<Candidate>, i: nat)
    requires i < |ds|
    ensures Ids(RemoveAt(ds, i)) == RemoveAt(Ids(ds), i)
  {
  }

  lemma NoDupRemoveAt(s: seq<nat>, i: nat)
    requires i < |s| && NoDup(s)
    ensures NoDup(RemoveAt(s, i)) && s[i] !in RemoveAt(s, i)
  {
  }

  /** Repeatedly takes out the closest remaining entry until `m` are taken or none is left. */
  function PruneSelect(ds: seq<Candidate>, m: int): seq<Candidate>
    decreases |ds|
  {
    if m <= 0 || |ds| == 0 then []
    else
      var i := ArgMin(ds);
      [ds[i]] + PruneSelect(RemoveAt(ds, i), m - 1)
  }

  lemma PruneSelectCons(ds: seq<Candidate>, m: int)
    requires m > 0 && |ds| > 0
    ensures PruneSelect(ds, m) == [ds[ArgMin(ds)]] + PruneSelect(RemoveAt(ds, ArgMin(ds)), m - 1)
  {
  }

  lemma PruneSelectUnfold(ds: seq<Candidate>, m: int)
    requires m > 0 && |ds| > 0
    ensures PruneSelect(ds, m) == [ds[ArgMin(ds)]] + PruneSelect(RemoveAt(ds, ArgMin(ds)), m - 1)
    ensures Ids(PruneSelect(ds, m)) == [ds[ArgMin(ds)].id] + Ids(PruneSelect(RemoveAt(ds, ArgMin(ds)), m - 1))
  {
    var r := PruneSelect(ds, m);
    var tail := PruneSelect(RemoveAt(ds, ArgMin(ds)), m - 1);
    assert r == [ds[ArgMin(ds)]] + tail;
    assert Ids(r) == [ds[ArgMin(ds)].id] + Ids(tail);
  }

  /** What the selection leaves out. */
  function Leftover(ds: seq<Candidate>, m: int): seq<Candidate>
    decreases |ds|
  {
    if m <= 0 || |ds| == 0 then ds else Leftover(RemoveAt(ds, ArgMin(ds)), m - 1)
  }

  /** The selection takes min(m, |ds|) entries of `ds`, and with the leftover it makes up `ds`. */
  lemma PruneSelectSize(ds: seq<Candidate>, m: int)
    requires m >= 0
    ensures |PruneSelect(ds, m)| == if |ds| <= m then |ds| else m
    ensures multiset(PruneSelect(ds, m)) + multiset(Leftover(ds, m)) == multiset(ds)
  {
    PruneSelectLength(ds, m);
    PruneSelectSplit(ds, m);
  }

  lemma {:induction false} PruneSelectLength(ds: seq<Candidate>, m: int)
    requires m >= 0
    ensures |PruneSelect(ds, m)| == if |ds| <= m then |ds| else m
    decreases |ds|
  {
    if m > 0 && |ds| > 0 {
      var rest := RemoveAt(ds, ArgMin(ds));
      PruneSelectLength(rest, m - 1);
      PruneSelectUnfold(ds, m);
      assert |PruneSelect(ds, m)| == 1 + |PruneSelect(rest, m - 1)|;
    }
  }

  lemma PruneSelectSplit(ds: seq<Candidate>, m: int)
    ensures multiset(PruneSelect(ds, m)) + multiset(Leftover(ds, m)) == multiset(ds)
  {
    PruneSelectParts(ds, m, PruneSelect(ds, m), Leftover(ds, m));
  }

  /** The same, about the two parts passed in, so that the induction hypothesis names no recursive call. */
  lemma {:induction false} PruneSelectParts(ds: seq<Candidate>, m: int, kept: seq<Candidate>, left: seq<Candidate>)
    requires kept == PruneSelect(ds, m) && left == Leftover(ds, m)
    ensures multiset(kept) + multiset(left) == multiset(ds)
    decreases |ds|
  {
    if m > 0 && |ds| > 0 {
      var i := ArgMin(ds);
      var rest := RemoveAt(ds, i);
      var kept', left' := PruneSelect(rest, m - 1), Leftover(rest, m - 1);
      PruneSelectParts(rest, m - 1, kept', left');
      RemoveAtCount(ds, i);
      PruneSelectCons(ds, m);
      SplitCons(ds[i], kept', left', rest, ds);
    }
  }

  /** Putting x back in front of the kept part restores the whole. */
  lemma SplitCons<T>(x: T, kept: seq<T>, left: seq<T>, rest: seq<T>, whole: seq<T>)
    requires multiset(kept) + multiset(left) == multiset(rest)
    requires multiset(rest) + multiset{x} == multiset(whole)
    ensures multiset([x] + kept) + multiset(left) == multiset(whole)
  {
    assert multiset([x] + kept) == multiset{x} + multiset(kept);
  }

  lemma {:induction false} LeftoverFrom(ds: seq<Candidate>, m: int)
    ensures forall c :: c in Leftover(ds, m) ==> c in ds
    decreases |ds|
  {
    if m > 0 && |ds| > 0 {
      var i := ArgMin(ds);
      LeftoverFrom(RemoveAt(ds, i), m - 1);
      RemoveAtMultiset(ds, i);
    }
  }

  lemma RemoveAtFrom<T>(s: seq<T>, i: nat)
    requires i < |s|
    ensures forall c :: c in RemoveAt(s, i) ==> c in s
  {
  }

  /** Every entry the selection keeps is at least as close as every entry it leaves out. */
  lemma {:induction false} PruneSelectClosest(ds: seq<Candidate>, m: int)
    ensures forall e, f :: e in PruneSelect(ds, m) && f in Leftover(ds, m) ==> e.distance <= f.distance
    decreases |ds|
  {
    if m > 0 && |ds| > 0 {
      var i := ArgMin(ds);
      var rest := RemoveAt(ds, i);
      var tail := PruneSelect(rest, m - 1);
      var left := Leftover(rest, m - 1);
      PruneSelectClosest(rest, m - 1);
      LeftoverFrom(rest, m - 1);
      RemoveAtFrom(ds, i);
      assert PruneSelect(ds, m) == [ds[i]] + tail;
      assert Leftover(ds, m) == left;
      forall e, f | e in [ds[i]] + tail && f in left ensures e.distance <= f.distance {
        if e == ds[i] {
          assert f in rest;
          assert f in ds;
          var j :| 0 <= j < |ds| && ds[j] == f;
        } else {
          assert e in tail;
        }
      }
    }
  }

  lemma {:induction false} PruneSelectFrom(ds: seq<Candidate>, m: int)
    ensures forall c :: c in PruneSelect(ds, m) ==> c in ds
    decreases |ds|
  {
    if m > 0 && |ds| > 0 {
      var i := ArgMin(ds);
      PruneSelectFrom(RemoveAt(ds, i), m - 1);
      RemoveAtMultiset(ds, i);
      PruneSelectUnfold(ds, m);
    }
  }

  lemma IdsOfSubset(a: seq<Candidate>, b: seq<Candidate>)
    requires forall c :: c in a ==> c in b
    ensures forall x :: x in Ids(a) ==> x in Ids(b)
  {
    forall x | x in Ids(a) ensures x in Ids(b) {
      var k :| 0 <= k < |a| && Ids(a)[k] == x;
      assert a[k] in a;
      var j :| 0 <= j < |b| && b[j] == a[k];
      assert Ids(b)[j] == x;
    }
  }

  /** The ids of a selection are ids of the input; duplicate-free ids stay duplicate-free. */
  lemma {:induction false} PruneSelectIds(ds: seq<Candidate>, m: int)
    ensures forall x :: x in Ids(PruneSelect(ds, m)) ==> x in Ids(ds)
    ensures NoDup(Ids(ds)) ==> NoDup(Ids(PruneSelect(ds, m)))
    decreases |ds|
  {
    PruneSelectFrom(ds, m);
    IdsOfSubset(PruneSelect(ds, m), ds);
    if m > 0 && |ds| > 0 && NoDup(Ids(ds)) {
      var i := ArgMin(ds);
      var rest := RemoveAt(ds, i);
      PruneSelectIds(rest, m - 1);
      PruneSelectUnfold(ds, m);
      RemoveAtIds(ds, i);
      NoDupRemoveAt(Ids(ds), i);
      var tail := Ids(PruneSelect(rest, m - 1));
      assert ds[i].id !in tail;
      assert NoDup([ds[i].id] + tail);
    }
  }

  lemma ArgMinExtend(ds: seq<Candidate>, i: nat)
    requires 1 <= i < |ds|
    ensures ArgMin(ds[..i + 1]) == if ds[i].distance < ds[ArgMin(ds[..i])].distance then i else ArgMin(ds[..i])
  {
    assert ds[..i + 1][..i] == ds[..i];
  }

  /** The inner loop of pruneNeighbors: a strict `<` scan for the closest entry. */
  method FirstClosest(ds: seq<Candidate>) returns (minIdx: nat)
    requires |ds| > 0
    ensures minIdx == ArgMin(ds)
  {
    minIdx := 0;
    var minDist := ds[0].distance;
    var i := 1;
    while i < |ds|
      invariant 1 <= i <= |ds|
      invariant minIdx == ArgMin(ds[..i]) && minDist == ds[minIdx].distance
    {
      ArgMinExtend(ds, i);
      if ds[i].distance < minDist {
        minDist := ds[i].distance;
        minIdx := i;
      }
      i := i + 1;
    }
    assert ds[..i] == ds;
  }

  /** The outer loop of pruneNeighbors: take the closest remaining entry until `m` are taken. */
  method SelectClosest(ds: seq<Candidate>, m: int) returns (selected: seq<nat>)
    ensures selected == Ids(PruneSelect(ds, m))
  {
    selected := [];
    var remaining := ds;
    while |selected| < m && |remaining| > 0
      invariant Ids(PruneSelect(ds, m)) == selected + Ids(PruneSelect(remaining, m - |selected|))
      decreases |remaining|
    {
      var minIdx := FirstClosest(remaining);
      SelectStep(ds, m, selected, remaining);
      selected := selected + [remaining[minIdx].id];
      remaining := RemoveAt(remaining, minIdx);
    }
  }

  /** One pass of that loop keeps the selection so far followed by the selection from what remains. */
  lemma SelectStep(ds: seq<Candidate>, m: int, selected: seq<nat>, remaining: seq<Candidate>)
    requires |selected| < m && |remaining| > 0
    requires Ids(PruneSelect(ds, m)) == selected + Ids(PruneSelect(remaining, m - |selected|))
    ensures Ids(PruneSelect(ds, m)) ==
      (selected + [remaining[ArgMin(remaining)].id]) + Ids(PruneSelect(RemoveAt(remaining, ArgMin(remaining)), m - (|selected| + 1)))
  {
    var i := ArgMin(remaining);
    var later := Ids(PruneSelect(RemoveAt(remaining, i), m - |selected| - 1));
    PruneSelectUnfold(remaining, m - |selected|);
    assert Ids(PruneSelect(remaining, m - |selected|)) == [remaining[i].id] + later;
  }

  /** Resolving a node id to its vector through a snapshot of the node table. */
  function LookupIn(vs: map<nat, seq<real>>): nat -> Option<seq<real>>
  {
    (x: nat) => if x in vs then Some(vs[x]) else None
  }

  /**
   * The neighbour-distance records as pruneNeighbors builds them: a neighbour
   * whose node cannot be found keeps the zero record, id 0 at distance 0.
   */
  function EntriesAsWritten(ns: seq<nat>, lookup: nat -> Option<seq<real>>, self: seq<real>,
                            dist: (seq<real>, seq<real>) -> real): (r: seq<Candidate>)
    ensures |r| == |ns|
    ensures forall i :: 0 <= i < |ns| ==>
      r[i] == match lookup(ns[i]) { case Some(v) => Candidate(ns[i], dist(self, v)) case None => Candidate(0, 0.0) }
  {
    if |ns| == 0 then []
    else
      var last := ns[|ns| - 1];
      var e := match lookup(last) { case Some(v) => Candidate(last, dist(self, v)) case None => Candidate(0, 0.0) };
      EntriesAsWritten(ns[..|ns| - 1], lookup, self, dist) + [e]
  }

  /** The records pruneNeighbors evidently means to build: one per neighbour it can resolve. */
  function Entries(ns: seq<nat>, lookup: nat -> Option<seq<real>>, self: seq<real>,
                   dist: (seq<real>, seq<real>) -> real): (r: seq<Candidate>)
    ensures forall x :: x in Ids(r) ==> x in ns && lookup(x).Some?
    ensures forall x :: x in ns && lookup(x).Some? ==> x in Ids(r)
    ensures NoDup(ns) ==> NoDup(Ids(r))
    ensures forall e :: e in r ==> lookup(e.id).Some? && e.distance == dist(self, lookup(e.id).value)
  {
    if |ns| == 0 then []
    else
      var init := Entries(ns[..|ns| - 1], lookup, self, dist);
      var last := ns[|ns| - 1];
      assert ns == ns[..|ns| - 1] + [last];
      match lookup(last)
      case Some(v) =>
        assert NoDup(ns) ==> last !in ns[..|ns| - 1];
        assert Ids(init + [Candidate(last, dist(self, v))]) == Ids(init) + [last];
        init + [Candidate(last, dist(self, v))]
      case None => init
  }

  /** pruneNeighbors as written: lists of at most `m` are left alone. */
  function PruneAsWritten(ns: seq<nat>, m: int, lookup: nat -> Option<seq<real>>, self: seq<real>,
                          dist: (seq<real>, seq<real>) -> real): seq<nat>
  {
    if |ns| <= m then ns else Ids(PruneSelect(EntriesAsWritten(ns, lookup, self, dist), m))
  }

  /** pruneNeighbors as intended: keep the `m` closest of the neighbours that exist. */
  function Prune(ns: seq<nat>, m: int, lookup: nat -> Option<seq<real>>, self: seq<real>,
                 dist: (seq<real>, seq<real>) -> real): seq<nat>
  {
    if |ns| <= m then ns else Ids(PruneSelect(Entries(ns, lookup, self, dist), m))
  }

  /**
   * The corrected prune keeps a duplicate-free list duplicate-free, never
   * introduces an id that was not a neighbour, and leaves at most `m` ids.
   */
  lemma PruneKeepsNeighbors(ns: seq<nat>, m: int, lookup: nat -> Option<seq<real>>, self: seq<real>,
                            dist: (seq<real>, seq<real>) -> real)
    requires m >= 0
    ensures forall x :: x in Prune(ns, m, lookup, self, dist) ==> x in ns
    ensures |ns| <= m ==> Prune(ns, m, lookup, self, dist) == ns
    ensures |ns| > m ==> |Prune(ns, m, lookup, self, dist)| <= m
    ensures NoDup(ns) ==> NoDup(Prune(ns, m, lookup, self, dist))
  {
    if |ns| > m {
      var es := Entries(ns, lookup, self, dist);
      PruneSelectIds(es, m);
      PruneSelectSize(es, m);
    }
  }

  /**
   * The resolved neighbours it keeps are the `m` closest: none left out is
   * strictly closer than one kept.
   */
  lemma PruneKeepsClosest(ns: seq<nat>, m: int, lookup: nat -> Option<seq<real>>, self: seq<real>,
                          dist: (seq<real>, seq<real>) -> real)
    requires m >= 0 && |ns| > m
    ensures var es := Entries(ns, lookup, self, dist);
            forall e, f :: e in PruneSelect(es, m) && f in Leftover(es, m) ==> e.distance <= f.distance
  {
    PruneSelectClosest(Entries(ns, lookup, self, dist), m);
  }

  /**
   * As written, an unresolved neighbour (here 7, as the node being inserted is
   * while its neighbours are pruned) becomes id 0, which was never a neighbour.
   */
  lemma PruneAsWrittenPhantom()
    ensures var lookup := (x: nat) => if x == 5 then Some([1.0]) else None;
            var dist := (a: seq<real>, b: seq<real>) => 1.0;
            PruneAsWritten([5, 7], 1, lookup, [0.0], dist) == [0] && 0 !in [5, 7]
  {
    var lookup := (x: nat) => if x == 5 then Some([1.0]) else None;
    var dist := (a: seq<real>, b: seq<real>) => 1.0;
    var es := EntriesAsWritten([5, 7], lookup, [0.0], dist);
    assert es == [Candidate(5, 1.0), Candidate(0, 0.0)];
    assert ArgMin(es) == 1;
    assert PruneSelect(es, 1) == [Candidate(0, 0.0)] + PruneSelect(RemoveAt(es, 1), 0);
  }
}
