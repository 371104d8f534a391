// What Delete (pkg/hnsw/search.go) does to the rest of the graph: for each
// layer of the deleted node, every node on that layer's list that is still in
// the table drops the deleted id from its own list on that layer. The two
// loops are modelled by two folds, and the lemmas say what the folds keep.
module HnswUnlink {
  import opened NeighborLists
  import opened HnswNode

  ghost predicate AllValid(ns: map<nat, Vertex>)
  {
    forall y :: y in ns ==> ns[y].Valid()
  }

  /** Same id, vector, level and number of layers. */
  ghost predicate SameShape(v: Vertex, w: Vertex)
  {
    w.id == v.id && w.vector == v.vector && w.level == v.level && |w.neighbors| == |v.neighbors|
  }

  /** The inner loop: the listed nodes `ids`, in order, each drop `id` on `layer` if they exist. */
  ghost function UnlinkEach(ns: map<nat, Vertex>, ids: seq<nat>, layer: int, id: nat): (r: map<nat, Vertex>)
    requires AllValid(ns)
    ensures r.Keys == ns.Keys && AllValid(r)
    ensures forall y :: y in r ==> SameShape(ns[y], r[y])
    decreases |ids|
  {
    if ids == [] then ns
    else
      var prev := UnlinkEach(ns, ids[..|ids| - 1], layer, id);
      var y := ids[|ids| - 1];
      if y in prev then prev[y := prev[y].RemoveNeighbor(layer, id)] else prev
  }

  /** The outer loop over layers 0..upto-1 of the deleted node's lists `deleted`. */
  ghost function UnlinkLayers(ns: map<nat, Vertex>, deleted: seq<seq<nat>>, id: nat, upto: nat): (r: map<nat, Vertex>)
    requires AllValid(ns) && upto <= |deleted|
    ensures r.Keys == ns.Keys && AllValid(r)
    ensures forall y :: y in r ==> SameShape(ns[y], r[y])
  {
    if upto == 0 then ns
    else UnlinkEach(UnlinkLayers(ns, deleted, id, upto - 1), deleted[upto - 1], upto - 1, id)
  }

  /**
   * `w` is `v` with some copies of `id` taken off its list on `l`: no other
   * identifier arrives or leaves, the list does not grow, and a
   * duplicate-free list stays duplicate-free.
   */
  ghost predicate ShrinksAt(v: Vertex, w: Vertex, l: int, id: nat)
    requires v.Valid() && w.Valid()
  {
    (forall x :: x in w.Neighbors(l) ==> x in v.Neighbors(l)) &&
    (forall x :: x != id && x in v.Neighbors(l) ==> x in w.Neighbors(l)) &&
    |w.Neighbors(l)| <= |v.Neighbors(l)| &&
    (NoDup(v.Neighbors(l)) ==> NoDup(w.Neighbors(l)))
  }

  ghost predicate Shrinks(v: Vertex, w: Vertex, id: nat)
  {
    v.Valid() && w.Valid() && SameShape(v, w) && forall l :: ShrinksAt(v, w, l, id)
  }

  lemma RemoveShrinks(v: Vertex, layer: int, id: nat)
    requires v.Valid()
    ensures Shrinks(v, v.RemoveNeighbor(layer, id), id)
  {
    var w := v.RemoveNeighbor(layer, id);
    forall l ensures ShrinksAt(v, w, l, id) {
      if l == layer && v.InRange(layer) {
        var s := v.Neighbors(layer);
        assert w.Neighbors(l) == SwapRemove(s, id);
        SwapRemoveKeeps(s, id);
      } else {
        assert w.Neighbors(l) == v.Neighbors(l);
      }
    }
  }

  lemma ShrinksTrans(u: Vertex, v: Vertex, w: Vertex, id: nat)
    requires Shrinks(u, v, id) && Shrinks(v, w, id)
    ensures Shrinks(u, w, id)
  {
    forall l ensures ShrinksAt(u, w, l, id) {
      assert ShrinksAt(u, v, l, id) && ShrinksAt(v, w, l, id);
    }
  }

  /** Nodes not listed are untouched. */
  lemma {:induction false} UnlinkEachFrame(ns: map<nat, Vertex>, ids: seq<nat>, layer: int, id: nat)
    requires AllValid(ns)
    ensures forall y :: y in ns && y !in ids ==> UnlinkEach(ns, ids, layer, id)[y] == ns[y]
    decreases |ids|
  {
    if ids != [] {
      var init := ids[..|ids| - 1];
      UnlinkEachFrame(ns, init, layer, id);
      forall y | y in ns && y !in ids ensures UnlinkEach(ns, ids, layer, id)[y] == ns[y] {
        assert y !in init;
      }
    }
  }

  /** Every node only shrinks by copies of `id`. */
  lemma {:induction false} UnlinkEachShrinks(ns: map<nat, Vertex>, ids: seq<nat>, layer: int, id: nat)
    requires AllValid(ns)
    ensures forall y :: y in ns ==> Shrinks(ns[y], UnlinkEach(ns, ids, layer, id)[y], id)
    decreases |ids|
  {
    if ids == [] {
      forall y | y in ns ensures Shrinks(ns[y], ns[y], id) {
      }
    } else {
      var init := ids[..|ids| - 1];
      UnlinkEachShrinks(ns, init, layer, id);
      var prev := UnlinkEach(ns, init, layer, id);
      var y := ids[|ids| - 1];
      if y in prev {
        RemoveShrinks(prev[y], layer, id);
        ShrinksTrans(ns[y], prev[y], prev[y].RemoveNeighbor(layer, id), id);
      }
    }
  }

  /** Every listed node that exists has no `id` left on `layer`, given duplicate-free lists. */
  lemma {:induction false} UnlinkEachRemoves(ns: map<nat, Vertex>, ids: seq<nat>, layer: int, id: nat)
    requires AllValid(ns)
    requires forall y :: y in ns ==> NoDup(ns[y].Neighbors(layer))
    ensures forall y :: y in ns && y in ids ==> id !in UnlinkEach(ns, ids, layer, id)[y].Neighbors(layer)
    decreases |ids|
  {
    if ids != [] {
      var init := ids[..|ids| - 1];
      UnlinkEachRemoves(ns, init, layer, id);
      UnlinkEachShrinks(ns, init, layer, id);
      var prev := UnlinkEach(ns, init, layer, id);
      var y := ids[|ids| - 1];
      if y in prev && prev[y].InRange(layer) {
        assert ShrinksAt(ns[y], prev[y], layer, id);
        SwapRemoveNoDup(prev[y].Neighbors(layer), id);
      }
      forall z | z in ns && z in ids ensures id !in UnlinkEach(ns, ids, layer, id)[z].Neighbors(layer) {
        if z != y {
          assert z in init;
        }
      }
    }
  }

  /** Over all layers: a node none of whose lists named it is untouched. */
  lemma {:induction false} UnlinkLayersFrame(ns: map<nat, Vertex>, deleted: seq<seq<nat>>, id: nat, upto: nat)
    requires AllValid(ns) && upto <= |deleted|
    ensures forall y :: y in ns && (forall l :: 0 <= l < upto ==> y !in deleted[l]) ==>
      UnlinkLayers(ns, deleted, id, upto)[y] == ns[y]
  {
    if upto > 0 {
      UnlinkLayersFrame(ns, deleted, id, upto - 1);
      UnlinkEachFrame(UnlinkLayers(ns, deleted, id, upto - 1), deleted[upto - 1], upto - 1, id);
    }
  }

  /** Over all layers: every node only shrinks by copies of `id`. */
  lemma {:induction false} UnlinkLayersShrinks(ns: map<nat, Vertex>, deleted: seq<seq<nat>>, id: nat, upto: nat)
    requires AllValid(ns) && upto <= |deleted|
    ensures forall y :: y in ns ==> Shrinks(ns[y], UnlinkLayers(ns, deleted, id, upto)[y], id)
  {
    if upto == 0 {
      forall y | y in ns ensures Shrinks(ns[y], ns[y], id) {
      }
    } else {
      UnlinkLayersShrinks(ns, deleted, id, upto - 1);
      var prev := UnlinkLayers(ns, deleted, id, upto - 1);
      var r := UnlinkLayers(ns, deleted, id, upto);
      UnlinkEachShrinks(prev, deleted[upto - 1], upto - 1, id);
      forall y | y in ns ensures Shrinks(ns[y], r[y], id) {
        ShrinksTrans(ns[y], prev[y], r[y], id);
      }
    }
  }

  /** After all layers, a node the deleted node listed on layer `l` no longer lists `id` there. */
  lemma {:induction false} UnlinkLayersRemoves(ns: map<nat, Vertex>, deleted: seq<seq<nat>>, id: nat, upto: nat)
    requires AllValid(ns) && upto <= |deleted|
    requires forall y, l :: y in ns ==> NoDup(ns[y].Neighbors(l))
    ensures forall y, l :: y in ns && 0 <= l < upto && y in deleted[l] ==>
      id !in UnlinkLayers(ns, deleted, id, upto)[y].Neighbors(l)
  {
    if upto > 0 {
      UnlinkLayersRemoves(ns, deleted, id, upto - 1);
      UnlinkLayersShrinks(ns, deleted, id, upto - 1);
      var prev := UnlinkLayers(ns, deleted, id, upto - 1);
      var r := UnlinkLayers(ns, deleted, id, upto);
      forall y | y in prev ensures NoDup(prev[y].Neighbors(upto - 1)) {
        assert ShrinksAt(ns[y], prev[y], upto - 1, id);
      }
      UnlinkEachShrinks(prev, deleted[upto - 1], upto - 1, id);
      UnlinkEachRemoves(prev, deleted[upto - 1], upto - 1, id);
      forall y, l | y in ns && 0 <= l < upto && y in deleted[l] ensures id !in r[y].Neighbors(l) {
        if l < upto - 1 {
          assert ShrinksAt(prev[y], r[y], l, id);
        }
      }
    }
  }
}
