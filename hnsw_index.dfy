// The HNSW index (pkg/hnsw/index.go, insert.go, search.go): a table of nodes
// keyed by id, an entry point on the top layer, and the per-layer degree caps
// M (upper layers) and M0 = 2M (layer 0). The random level of a new node and
// the greedy/heap searches over the graph are parameters of the operations
// that use them; distances are abstract reals.
module HnswIndex {
  import opened Wrappers
  import opened Strconv
  import opened NeighborLists
  import opened HnswNode
  import opened HnswSelect
  import opened HnswUnlink

  datatype IndexConfig = IndexConfig(m: int, efConstruction: int)

  datatype IndexStats = IndexStats(size: int, dimension: nat, maxLayer: int, m: int, m0: int,
                                   efConstruction: int, nodesPerLayer: map<int, nat>)

  /** What a search of the bottom layer with a given ef returns: closest-first candidates and a visit count. */
  datatype LayerSearch = LayerSearch(candidates: seq<Candidate>, visited: nat)

  datatype SearchResult = SearchResult(results: seq<Candidate>, visited: nat)

  /** DefaultConfig: M = 16, efConstruction = 200. */
  function DefaultConfig(): (c: IndexConfig)
    ensures c.m == 16 && c.efConstruction == 200
  {
    IndexConfig(16, 200)
  }

  function NotFound(id: nat): string
  {
    "node with ID " + NatToString(id) + " not found"
  }

  const EmptyVectorError := "cannot insert empty vector"

  function MismatchError(expected: nat, got: nat): string
  {
    "vector dimension mismatch: expected " + NatToString(expected) + ", got " + NatToString(got)
  }

  /** Update's wrapping of an insert error. */
  function InsertFailed(cause: string): string
  {
    "failed to insert new vector: " + cause
  }

  /** The ids among `ids` that sit on layer `l` or higher. */
  ghost function AtLeastSet(levels: map<nat, int>, ids: set<nat>, l: int): set<nat>
  {
    set y | y in ids && y in levels && levels[y] >= l
  }

  ghost function AtLeast(levels: map<nat, int>, ids: set<nat>, l: int): nat
  {
    |AtLeastSet(levels, ids, l)|
  }

  lemma AtLeastAdd(levels: map<nat, int>, ids: set<nat>, y: nat, l: int)
    requires y !in ids && y in levels
    ensures AtLeast(levels, ids + {y}, l) == AtLeast(levels, ids, l) + (if l <= levels[y] then 1 else 0)
  {
    var a := AtLeastSet(levels, ids, l);
    var b := AtLeastSet(levels, ids + {y}, l);
    if l <= levels[y] {
      assert b == a + {y};
    } else {
      assert b == a;
    }
  }

  lemma AtLeastWitness(levels: map<nat, int>, ids: set<nat>, y: nat, l: int)
    requires y in ids && y in levels && levels[y] >= l
    ensures AtLeast(levels, ids, l) > 0
  {
    assert y in AtLeastSet(levels, ids, l);
  }

  /** The inner loop of GetStats: one more node counted on each of the layers 0..level. */
  method CountLayers(counts: map<int, nat>, level: int) returns (r: map<int, nat>)
    ensures forall l :: l in r <==> l in counts || 0 <= l <= level
    ensures forall l :: l in r ==> r[l] == (if l in counts then counts[l] else 0) + (if 0 <= l <= level then 1 else 0)
  {
    r := counts;
    var layer := 0;
    while layer <= level
      invariant 0 <= layer <= (if level < 0 then 0 else level + 1)
      invariant forall l :: l in r <==> l in counts || 0 <= l < layer
      invariant forall l :: l in r ==> r[l] == (if l in counts then counts[l] else 0) + (if 0 <= l < layer then 1 else 0)
    {
      r := r[layer := (if layer in r then r[layer] else 0) + 1];
      layer := layer + 1;
    }
    assert layer == if level < 0 then 0 else level + 1;
  }

  /** The outer loop of GetStats, over the node table in any order. */
  method CountPerLayer(levels: map<nat, int>) returns (counts: map<int, nat>)
    requires forall y :: y in levels ==> levels[y] >= 0
    ensures forall l :: l in counts <==> 0 <= l && AtLeast(levels, levels.Keys, l) > 0
    ensures forall l :: l in counts ==> counts[l] == AtLeast(levels, levels.Keys, l)
  {
    counts := map[];
    var rest := levels.Keys;
    ghost var seen: set<nat> := {};
    while rest != {}
      invariant rest !! seen && rest + seen == levels.Keys
      invariant forall l :: l in counts <==> 0 <= l && AtLeast(levels, seen, l) > 0
      invariant forall l :: l in counts ==> counts[l] == AtLeast(levels, seen, l)
      decreases |rest|
    {
      var y :| y in rest;
      counts := CountLayers(counts, levels[y]);
      forall l ensures AtLeast(levels, seen + {y}, l) == AtLeast(levels, seen, l) + (if l <= levels[y] then 1 else 0) {
        AtLeastAdd(levels, seen, y, l);
      }
      seen := seen + {y};
      rest := rest - {y};
    }
  }


  /**
   * From `before` to `after` no node disappears or changes its id, vector,
   * level or number of layers, and the only id any list gains is `id`.
   */
  ghost predicate OnlyAdds(before: map<nat, Vertex>, after: map<nat, Vertex>, id: nat)
  {
    before.Keys <= after.Keys &&
    (forall y :: y in before ==>
      after[y].id == before[y].id && after[y].vector == before[y].vector &&
      after[y].level == before[y].level && |after[y].neighbors| == |before[y].neighbors|) &&
    (forall y, l, x :: y in before && 0 <= l < |after[y].neighbors| && x in after[y].neighbors[l] ==>
      x in before[y].neighbors[l] || x == id)
  }

  lemma OnlyAddsTrans(a: map<nat, Vertex>, b: map<nat, Vertex>, c: map<nat, Vertex>, id: nat)
    requires OnlyAdds(a, b, id) && OnlyAdds(b, c, id)
    ensures OnlyAdds(a, c, id)
  {
    forall y, l, x | y in a && 0 <= l < |c[y].neighbors| && x in c[y].neighbors[l] ensures x in a[y].neighbors[l] || x == id {
      assert x in b[y].neighbors[l] || x == id;
    }
  }

  /** Replacing one node by one of the same shape whose lists gain at most `id` keeps OnlyAdds. */
  lemma OnlyAddsUpdate(before: map<nat, Vertex>, y: nat, w: Vertex, id: nat)
    requires y in before
    requires w.id == before[y].id && w.vector == before[y].vector && w.level == before[y].level
    requires |w.neighbors| == |before[y].neighbors|
    requires forall l, x :: 0 <= l < |w.neighbors| && x in w.neighbors[l] ==> x in before[y].neighbors[l] || x == id
    ensures OnlyAdds(before, before[y := w], id)
  {
    var after := before[y := w];
    forall z, l, x | z in before && 0 <= l < |after[z].neighbors| && x in after[z].neighbors[l]
      ensures x in before[z].neighbors[l] || x == id
    {
      if z != y {
        assert after[z] == before[z];
      }
    }
  }

  /** A node joining under a fresh key leaves every existing node as it was. */
  lemma OnlyAddsFresh(before: map<nat, Vertex>, v: Vertex, id: nat)
    requires v.id !in before
    ensures OnlyAdds(before, before[v.id := v], id)
  {
    var after := before[v.id := v];
    forall y | y in before ensures after[y] == before[y] {
    }
  }


  /** A one-dimensional distance for the example below: |a[0] - b[0]|. */
  function Gap(a: seq<real>, b: seq<real>): real
  {
    if |a| == 0 || |b| == 0 then 0.0 else if a[0] >= b[0] then a[0] - b[0] else b[0] - a[0]
  }

  /**
   * Insert prunes an over-full neighbour before the new node is in the table.
   * Here neighbour 1 at [0.0] lists 5 and the new node 7, with a cap of 1.
   * As written, 7 cannot be found while the list is pruned, so its record is
   * the zero one and wins: the list becomes [0], losing the back-link to 7
   * and gaining id 0, which is not a neighbour. Resolving 7 by its own
   * vector [0.5] keeps [7].
   */
  lemma InsertPruneAsWritten()
    ensures var table := map[1 := [0.0], 5 := [1.0]];
      PruneAsWritten([5, 7], 1, LookupIn(table), [0.0], Gap) == [0] &&
      Prune([5, 7], 1, LookupIn(table[7 := [0.5]]), [0.0], Gap) == [7]
  {
    var table := map[1 := [0.0], 5 := [1.0]];
    var written := EntriesAsWritten([5, 7], LookupIn(table), [0.0], Gap);
    assert written == [Candidate(5, 1.0), Candidate(0, 0.0)];
    assert ArgMin(written) == 1;
    assert PruneSelect(written, 1) == [written[1]] + PruneSelect(RemoveAt(written, 1), 0);
    InsertPruneKept(table[7 := [0.5]]);
  }

  /** The corrected half of the example above: with 7 resolvable, it is kept. */
  lemma InsertPruneKept(table: map<nat, seq<real>>)
    requires table == map[1 := [0.0], 5 := [1.0], 7 := [0.5]]
    ensures Prune([5, 7], 1, LookupIn(table), [0.0], Gap) == [7]
  {
    var lookup := LookupIn(table);
    var es := Entries([5, 7], lookup, [0.0], Gap);
    assert Entries([5], lookup, [0.0], Gap) == [Candidate(5, 1.0)];
    assert es == [Candidate(5, 1.0), Candidate(7, 0.5)];
    assert ArgMin(es) == 1;
    assert PruneSelect(es, 1) == [es[1]] + PruneSelect(RemoveAt(es, 1), 0);
  }

  class Index {
    const m: int
    const m0: int
    const efConstruction: int
    var nodes: map<nat, Vertex>
    var entryPoint: Option<nat>
    var maxLayer: int
    var nodeCounter: nat
    var dimension: nat
    var size: int

    /** The degree cap of a layer: M0 on layer 0, M above. */
    function Cap(layer: int): int
    {
      if layer == 0 then m0 else m
    }

    /** Every list of `v` is duplicate-free and within its layer's degree cap. */
    ghost predicate ListsOk(v: Vertex)
    {
      forall l :: 0 <= l < |v.neighbors| ==> NoDup(v.neighbors[l]) && |v.neighbors[l]| <= Cap(l)
    }

    /** A table entry under id `id`, given the top layer, the id counter and the dimension. */
    ghost predicate NodeOk(id: nat, v: Vertex, top: int, counter: nat, dim: nat)
    {
      v.id == id && v.Valid() && 0 <= v.level <= top && id < counter && |v.vector| == dim && ListsOk(v)
    }

    ghost predicate TableOk(ns: map<nat, Vertex>, top: int, counter: nat, dim: nat)
    {
      forall id {:trigger NodeOk(id, ns[id], top, counter, dim)} :: id in ns ==> NodeOk(id, ns[id], top, counter, dim)
    }

    /** The index invariant, over the values of the fields. */
    ghost predicate IndexOk(ns: map<nat, Vertex>, ep: Option<nat>, top: int, counter: nat, dim: nat, sz: int)
    {
      m >= 0 && m0 == 2 * m &&
      TableOk(ns, top, counter, dim) &&
      sz == |ns| &&
      (ns != map[] ==> dim > 0) &&
      (ep.None? <==> ns == map[]) &&
      (ep.Some? ==> ep.value in ns && ns[ep.value].level == top) &&
      (ns == map[] ==> top == -1)
    }

    ghost predicate Valid()
      reads this
    {
      IndexOk(nodes, entryPoint, maxLayer, nodeCounter, dimension, size)
    }

    lemma TableOkSet(ns: map<nat, Vertex>, top: int, counter: nat, dim: nat, y: nat, w: Vertex)
      requires TableOk(ns, top, counter, dim) && NodeOk(y, w, top, counter, dim)
      ensures TableOk(ns[y := w], top, counter, dim)
    {
    }

    lemma TableOkLevels(ns: map<nat, Vertex>, top: int, counter: nat, dim: nat)
      requires TableOk(ns, top, counter, dim)
      ensures forall y :: y in ns ==> ns[y].Valid() && 0 <= ns[y].level <= top
    {
      forall y | y in ns ensures ns[y].Valid() && 0 <= ns[y].level <= top {
        assert NodeOk(y, ns[y], top, counter, dim);
      }
    }

    lemma TableOkWiden(ns: map<nat, Vertex>, top: int, counter: nat, dim: nat, top2: int, counter2: nat)
      requires TableOk(ns, top, counter, dim) && top <= top2 && counter <= counter2
      ensures TableOk(ns, top2, counter2, dim)
    {
      forall id | id in ns ensures NodeOk(id, ns[id], top2, counter2, dim) {
        assert NodeOk(id, ns[id], top, counter, dim);
      }
    }

    /** Dropping `y` from the table, with a top layer that still bounds every remaining level. */
    lemma TableOkRemove(ns: map<nat, Vertex>, top: int, counter: nat, dim: nat, y: nat, top2: int)
      requires TableOk(ns, top, counter, dim)
      requires forall z :: z in ns && z != y ==> ns[z].level <= top2
      ensures TableOk(ns - {y}, top2, counter, dim)
    {
      forall id | id in ns - {y} ensures NodeOk(id, ns[id], top2, counter, dim) {
        assert NodeOk(id, ns[id], top, counter, dim);
      }
    }

    /** Delete's unlinking keeps the index well formed: no key, level or entry point changes. */
    lemma IndexOkUnlinked(ns: map<nat, Vertex>, ep: Option<nat>, top: int, counter: nat, dim: nat, sz: int,
                          deleted: seq<seq<nat>>, id: nat)
      requires IndexOk(ns, ep, top, counter, dim, sz)
      ensures AllValid(ns)
      ensures IndexOk(UnlinkLayers(ns, deleted, id, |deleted|), ep, top, counter, dim, sz)
    {
      assert AllValid(ns) by {
        forall y | y in ns ensures ns[y].Valid() {
          assert NodeOk(y, ns[y], top, counter, dim);
        }
      }
      var r := UnlinkLayers(ns, deleted, id, |deleted|);
      UnlinkLayersShrinks(ns, deleted, id, |deleted|);
      forall y | y in r ensures NodeOk(y, r[y], top, counter, dim) {
        assert NodeOk(y, ns[y], top, counter, dim);
        forall l | 0 <= l < |r[y].neighbors| ensures NoDup(r[y].neighbors[l]) && |r[y].neighbors[l]| <= Cap(l) {
          assert ShrinksAt(ns[y], r[y], l, id);
          assert r[y].Neighbors(l) == r[y].neighbors[l] && ns[y].Neighbors(l) == ns[y].neighbors[l];
        }
      }
      assert r.Keys == ns.Keys;
      assert |r| == |r.Keys| == |ns.Keys| == |ns|;
      assert r == map[] <==> ns == map[];
    }

    /**
     * The end of Delete: `id` leaves the table; when it was the entry point,
     * `e` and `t` are a highest remaining node and its level (none and -1 if
     * nothing remains), otherwise the entry point and top layer stay.
     */
    lemma IndexOkRemove(ns: map<nat, Vertex>, ep: Option<nat>, top: int, counter: nat, dim: nat, sz: int,
                        id: nat, e: Option<nat>, t: int)
      requires IndexOk(ns, ep, top, counter, dim, sz) && id in ns
      requires ep != Some(id) ==> e == ep && t == top
      requires ep == Some(id) ==>
        (e.None? <==> ns.Keys <= {id}) && (e.None? ==> t == -1) &&
        (e.Some? ==> e.value in ns && e.value != id && ns[e.value].level == t) &&
        (forall y :: y in ns && y != id ==> ns[y].level <= t)
      ensures IndexOk(ns - {id}, e, t, counter, dim, sz - 1)
    {
      var r := ns - {id};
      assert r.Keys == ns.Keys - {id};
      assert |r| == |r.Keys| == |ns.Keys| - 1;
      if ep != Some(id) {
        forall y | y in ns && y != id ensures ns[y].level <= t {
          assert NodeOk(y, ns[y], top, counter, dim);
        }
      }
      TableOkRemove(ns, top, counter, dim, id, t);
      if e.None? {
        assert r.Keys == {};
      } else {
        assert e.value in r;
      }
    }

    /** The vector of every node, by id. */
    function Vectors(): map<nat, seq<real>>
      reads this
    {
      map id | id in nodes :: nodes[id].vector
    }

    function Levels(): map<nat, int>
      reads this
    {
      map id | id in nodes :: nodes[id].level
    }

    /** New: a zero M or efConstruction takes the default (16, 200); M0 = 2M; empty, max layer -1. */
    constructor (config: IndexConfig)
      requires config.m >= 0
      ensures Valid()
      ensures m == (if config.m == 0 then 16 else config.m) && m0 == 2 * m
      ensures efConstruction == (if config.efConstruction == 0 then 200 else config.efConstruction)
      ensures nodes == map[] && entryPoint == None && maxLayer == -1
      ensures nodeCounter == 0 && dimension == 0 && size == 0
    {
      var mm := if config.m == 0 then 16 else config.m;
      m := mm;
      m0 := mm * 2;
      efConstruction := if config.efConstruction == 0 then 200 else config.efConstruction;
      nodes := map[];
      entryPoint := None;
      maxLayer := -1;
      nodeCounter := 0;
      dimension := 0;
      size := 0;
    }

    /** Size: the number of vectors, which is the number of nodes in the table. */
    function Size(): (n: int)
      reads this
      requires Valid()
      ensures n == |nodes|
    {
      size
    }

    /** EntryPoint: absent exactly when the index is empty, otherwise a node on the top layer. */
    function EntryPoint(): (r: Option<Vertex>)
      reads this
      requires Valid()
      ensures r.None? <==> nodes == map[]
      ensures r.Some? ==> r.value.id in nodes && nodes[r.value.id] == r.value && r.value.level == maxLayer
      ensures r.Some? ==> forall id :: id in nodes ==> nodes[id].level <= r.value.level
    {
      match entryPoint
      case None => None
      case Some(e) =>
        assert NodeOk(e, nodes[e], maxLayer, nodeCounter, dimension);
        TableOkLevels(nodes, maxLayer, nodeCounter, dimension);
        Some(nodes[e])
    }

    /** GetNode: the node with that id, if any. */
    function GetNode(id: nat): (r: Option<Vertex>)
      reads this
      requires Valid()
      ensures r.Some? <==> id in nodes
      ensures r.Some? ==> r.value.id == id && r.value == nodes[id]
    {
      if id in nodes then
        assert NodeOk(id, nodes[id], maxLayer, nodeCounter, dimension);
        Some(nodes[id])
      else None
    }

    /**
     * GetStats: layer l maps to the number of nodes whose level is at least l,
     * for exactly the layers 0..maxLayer.
     */
    method GetStats() returns (st: IndexStats)
      requires Valid()
      ensures st.size == |nodes| && st.dimension == dimension && st.maxLayer == maxLayer
      ensures st.m == m && st.m0 == m0 && st.efConstruction == efConstruction
      ensures forall l :: l in st.nodesPerLayer <==> 0 <= l <= maxLayer
      ensures forall l :: l in st.nodesPerLayer ==> st.nodesPerLayer[l] == AtLeast(Levels(), nodes.Keys, l)
    {
      var levels := Levels();
      assert levels.Keys == nodes.Keys;
      forall y | y in levels ensures 0 <= levels[y] <= maxLayer {
        assert NodeOk(y, nodes[y], maxLayer, nodeCounter, dimension);
      }
      var counts := CountPerLayer(levels);
      forall l | 0 <= l <= maxLayer ensures AtLeast(levels, levels.Keys, l) > 0 {
        AtLeastWitness(levels, levels.Keys, entryPoint.value, l);
      }
      forall l | l > maxLayer ensures AtLeast(levels, levels.Keys, l) == 0 {
        assert AtLeastSet(levels, levels.Keys, l) == {};
      }
      st := IndexStats(size, dimension, maxLayer, m, m0, efConstruction, counts);
    }

    /** A neighbour's list on `layer` after pruneNeighbors, with distances resolved by `lookup`. */
    ghost function PrunedAt(v: Vertex, layer: int, lookup: nat -> Option<seq<real>>,
                            dist: (seq<real>, seq<real>) -> real): Vertex
      requires v.Valid() && m >= 0
    {
      v.SetNeighbors(layer, Prune(v.Neighbors(layer), Cap(layer), lookup, v.vector, dist))
    }

    /**
     * The new node's list `ns` on layer `l` once Insert has linked it: exactly
     * the selected candidates that were in the table, on the layers up to the
     * old top layer and no others, without duplicates and within the cap.
     */
    ghost predicate Linked(ns: seq<nat>, l: int, sel: seq<nat>, top: int, known: set<nat>)
    {
      (forall x :: x in ns <==> l <= top && x in sel && x in known) && NoDup(ns) && |ns| <= Cap(l)
    }

    /** Part way through LinkLayer: `w` is `v` whose list on `lc` holds the existing ones among `done`. */
    ghost predicate PartLinked(v: Vertex, w: Vertex, lc: int, done: seq<nat>, keys: set<nat>)
    {
      v.Valid() && w.Valid() && SameShape(v, w) && v.InRange(lc) &&
      (forall l :: l != lc ==> w.Neighbors(l) == v.Neighbors(l)) &&
      (forall x :: x in w.Neighbors(lc) <==> x in done && x in keys) &&
      NoDup(w.Neighbors(lc)) && |w.Neighbors(lc)| <= |done|
    }

    lemma PartLinkedStep(v: Vertex, w: Vertex, lc: int, done: seq<nat>, keys: set<nat>, nb: nat)
      requires PartLinked(v, w, lc, done, keys)
      ensures nb in keys ==> PartLinked(v, w.AddNeighbor(lc, nb), lc, done + [nb], keys)
      ensures nb !in keys ==> PartLinked(v, w, lc, done + [nb], keys)
    {
      var w2 := w.AddNeighbor(lc, nb);
      assert forall x :: x in done + [nb] <==> x in done || x == nb;
      if nb in keys {
        assert w2.Neighbors(lc) == AppendNew(w.Neighbors(lc), nb);
      }
    }

    /**
     * pruneNeighbors on `nb`'s list at `layer`: a list within the cap is kept;
     * a longer one becomes its Cap(layer) closest resolvable neighbours, where
     * the node being inserted counts as resolvable.
     */
    method PruneNeighbors(nb: nat, layer: int, newNode: Vertex, dist: (seq<real>, seq<real>) -> real)
      requires nb in nodes && nodes[nb].Valid() && m >= 0
      modifies this`nodes
      ensures nodes == old(nodes)[nb := PrunedAt(old(nodes)[nb], layer,
                                                 LookupIn(old(Vectors())[newNode.id := newNode.vector]), dist)]
    {
      var node := nodes[nb];
      var ns := node.Neighbors(layer);
      var cap := Cap(layer);
      if |ns| <= cap {
        assert node.SetNeighbors(layer, ns) == node;
        assert nodes == nodes[nb := node];
        return;
      }
      ghost var lookup := LookupIn(Vectors()[newNode.id := newNode.vector]);
      var entries: seq<Candidate> := [];
      var i := 0;
      while i < |ns|
        invariant 0 <= i <= |ns|
        invariant entries == Entries(ns[..i], lookup, node.vector, dist)
      {
        var nid := ns[i];
        assert ns[..i + 1][..i] == ns[..i];
        if nid == newNode.id {
          entries := entries + [Candidate(nid, dist(node.vector, newNode.vector))];
        } else if nid in nodes {
          entries := entries + [Candidate(nid, dist(node.vector, nodes[nid].vector))];
        }
        i := i + 1;
      }
      assert ns[..i] == ns;
      var selected := SelectClosest(entries, cap);
      nodes := nodes[nb := node.SetNeighbors(layer, selected)];
    }

    /**
     * What linking does to an existing neighbour: its list on `lc` gains the
     * new id and is then pruned. The result has the same shape, stays within
     * the caps and duplicate-free, and gains no id other than the new one.
     */
    lemma PrunedNeighbour(was: Vertex, lc: int, id: nat, lookup: nat -> Option<seq<real>>,
                          dist: (seq<real>, seq<real>) -> real)
      requires was.Valid() && ListsOk(was) && 0 <= lc && m >= 0 && m0 == 2 * m
      ensures var after := PrunedAt(was.AddNeighbor(lc, id), lc, lookup, dist);
        SameShape(was, after) && after.Valid() && ListsOk(after) &&
        forall l, x :: 0 <= l < |after.neighbors| && x in after.neighbors[l] ==> x in was.neighbors[l] || x == id
    {
      var added := was.AddNeighbor(lc, id);
      var after := PrunedAt(added, lc, lookup, dist);
      forall l | 0 <= l < |after.neighbors| && l != lc ensures after.neighbors[l] == was.neighbors[l] {
        assert after.Neighbors(l) == added.Neighbors(l) == was.Neighbors(l);
      }
      if was.InRange(lc) {
        assert NoDup(was.neighbors[lc]);
        PruneKeepsNeighbors(added.neighbors[lc], Cap(lc), lookup, added.vector, dist);
        assert after.Neighbors(lc) == Prune(added.Neighbors(lc), Cap(lc), lookup, added.vector, dist);
      }
    }

    /**
     * One step of Insert's linking loop for an existing neighbour `nb`: the
     * new node lists `nb`, `nb` lists the new node, and `nb`'s list is pruned.
     */
    method Link(v: Vertex, nb: nat, lc: int, dist: (seq<real>, seq<real>) -> real) returns (w: Vertex)
      requires Valid() && nb in nodes && 0 <= lc
      requires v.Valid() && v.id !in nodes
      modifies this`nodes
      ensures Valid() && w == v.AddNeighbor(lc, nb)
      ensures nodes.Keys == old(nodes).Keys && OnlyAdds(old(nodes), nodes, v.id)
    {
      w := v.AddNeighbor(lc, nb);
      ghost var before := nodes;
      var was := nodes[nb];
      assert NodeOk(nb, was, maxLayer, nodeCounter, dimension);
      nodes := nodes[nb := was.AddNeighbor(lc, v.id)];
      ghost var lookup := LookupIn(Vectors()[v.id := v.vector]);
      PruneNeighbors(nb, lc, v, dist);
      ghost var after := PrunedAt(was.AddNeighbor(lc, v.id), lc, lookup, dist);
      assert nodes == before[nb := after];
      PrunedNeighbour(was, lc, v.id, lookup, dist);
      OnlyAddsUpdate(before, nb, after, v.id);
      TableOkSet(before, maxLayer, nodeCounter, dimension, nb, after);
    }

    /** Insert's linking loop on one layer, over the selected neighbours in order. */
    method LinkLayer(v: Vertex, lc: int, sel: seq<nat>, dist: (seq<real>, seq<real>) -> real) returns (w: Vertex)
      requires Valid() && v.Valid() && v.id !in nodes
      requires v.InRange(lc) && lc <= maxLayer && v.Neighbors(lc) == [] && |sel| <= Cap(lc)
      modifies this`nodes
      ensures Valid() && w.Valid() && SameShape(v, w)
      ensures forall l :: l != lc ==> w.Neighbors(l) == v.Neighbors(l)
      ensures Linked(w.Neighbors(lc), lc, sel, maxLayer, old(nodes).Keys)
      ensures nodes.Keys == old(nodes).Keys && OnlyAdds(old(nodes), nodes, v.id)
    {
      ghost var start := nodes;
      ghost var keys := nodes.Keys;
      w := v;
      var k := 0;
      while k < |sel|
        invariant 0 <= k <= |sel| && Valid()
        invariant PartLinked(v, w, lc, sel[..k], keys)
        invariant nodes.Keys == keys && OnlyAdds(start, nodes, v.id)
      {
        var nb := sel[k];
        assert sel[..k + 1] == sel[..k] + [nb];
        PartLinkedStep(v, w, lc, sel[..k], keys, nb);
        if nb in nodes {
          ghost var mid := nodes;
          w := Link(w, nb, lc, dist);
          OnlyAddsTrans(start, mid, nodes, v.id);
        }
        k := k + 1;
      }
      assert sel[..k] == sel;
    }

    /** Insert's loop over the layers min(level, maxLayer) down to 0. */
    method LinkLayers(v: Vertex, layerCandidates: int -> seq<Candidate>, dist: (seq<real>, seq<real>) -> real)
      returns (w: Vertex)
      requires Valid() && entryPoint.Some? && v.Valid() && v.id !in nodes && v.level >= 0
      requires forall l :: v.Neighbors(l) == []
      modifies this`nodes
      ensures Valid() && w.Valid() && SameShape(v, w)
      ensures forall l :: 0 <= l <= v.level ==>
        Linked(w.Neighbors(l), l, SelectNeighbors(layerCandidates(l), Cap(l)), maxLayer, old(nodes).Keys)
      ensures ListsOk(w)
      ensures nodes.Keys == old(nodes).Keys && OnlyAdds(old(nodes), nodes, v.id)
    {
      ghost var start := nodes;
      ghost var keys := nodes.Keys;
      w := v;
      assert NodeOk(entryPoint.value, nodes[entryPoint.value], maxLayer, nodeCounter, dimension);
      var lc := if v.level < maxLayer then v.level else maxLayer;
      while lc >= 0
        invariant -1 <= lc <= v.level && lc <= maxLayer
        invariant Valid() && w.Valid() && SameShape(v, w)
        invariant forall l :: lc < l <= v.level ==>
          Linked(w.Neighbors(l), l, SelectNeighbors(layerCandidates(l), Cap(l)), maxLayer, keys)
        invariant forall l :: l <= lc ==> w.Neighbors(l) == []
        invariant nodes.Keys == keys && OnlyAdds(start, nodes, v.id)
      {
        var sel := SelectNeighbors(layerCandidates(lc), Cap(lc));
        ghost var mid := nodes;
        ghost var was := w;
        w := LinkLayer(w, lc, sel, dist);
        OnlyAddsTrans(start, mid, nodes, v.id);
        forall l | lc < l <= v.level
          ensures Linked(w.Neighbors(l), l, SelectNeighbors(layerCandidates(l), Cap(l)), maxLayer, keys)
        {
          assert w.Neighbors(l) == was.Neighbors(l);
        }
        lc := lc - 1;
      }
      forall l | 0 <= l < |w.neighbors| ensures NoDup(w.neighbors[l]) && |w.neighbors[l]| <= Cap(l) {
        assert w.Neighbors(l) == w.neighbors[l];
        if l > lc {
          assert Linked(w.Neighbors(l), l, SelectNeighbors(layerCandidates(l), Cap(l)), maxLayer, keys);
        }
      }
    }

    /**
     * The end of Insert: the node joins the table, and becomes the entry point
     * if the table was empty or its level is above the current top layer.
     */
    method Attach(v: Vertex)
      requires Valid() && v.level >= 0 && NodeOk(v.id, v, v.level, nodeCounter, dimension)
      requires v.id !in nodes && dimension > 0
      modifies this`nodes, this`entryPoint, this`maxLayer, this`size
      ensures Valid()
      ensures nodes == old(nodes)[v.id := v] && size == old(size) + 1
      ensures if old(entryPoint).None? || v.level > old(maxLayer)
        then entryPoint == Some(v.id) && maxLayer == v.level
        else entryPoint == old(entryPoint) && maxLayer == old(maxLayer)
    {
      var top := if entryPoint.None? || v.level > maxLayer then v.level else maxLayer;
      TableOkWiden(nodes, maxLayer, nodeCounter, dimension, top, nodeCounter);
      TableOkSet(nodes, top, nodeCounter, dimension, v.id, v);
      if entryPoint.None? || v.level > maxLayer {
        entryPoint := Some(v.id);
      }
      nodes := nodes[v.id := v];
      maxLayer := top;
      size := size + 1;
    }

    /** Insert's first steps: the first vector fixes the dimension, and the node takes the next id. */
    method Reserve(n: nat) returns (nodeID: nat)
      requires Valid() && n > 0 && (dimension == 0 || n == dimension)
      modifies this`dimension, this`nodeCounter
      ensures Valid() && nodeID == old(nodeCounter) && nodeCounter == nodeID + 1 && dimension == n
      ensures nodeID !in nodes
    {
      if dimension == 0 {
        dimension := n;
      }
      nodeID := nodeCounter;
      nodeCounter := nodeCounter + 1;
      TableOkWiden(nodes, maxLayer, nodeID, dimension, maxLayer, nodeCounter);
      forall y | y in nodes ensures y < nodeID {
        assert NodeOk(y, nodes[y], maxLayer, nodeID, dimension);
      }
    }

    /** Insert into an empty index: the node becomes the entry point and its level the top layer. */
    method AddFirst(vector: seq<real>, level: int) returns (nodeID: nat)
      requires Valid() && level >= 0 && entryPoint.None?
      requires |vector| > 0 && (dimension == 0 || |vector| == dimension)
      modifies this
      ensures Valid()
      ensures nodeID == old(nodeCounter) && nodeCounter == old(nodeCounter) + 1 && dimension == |vector|
      ensures nodes == map[nodeID := NewVertex(nodeID, vector, level)] && size == 1
      ensures entryPoint == Some(nodeID) && maxLayer == level
    {
      nodeID := Reserve(|vector|);
      var v := NewVertex(nodeID, vector, level);
      assert ListsOk(v);
      Attach(v);
    }

    /**
     * Insert into a non-empty index: the node is linked on the layers up to
     * min(level, maxLayer), joins the table, and becomes the entry point if
     * its level is above the top layer.
     */
    method AddLinked(vector: seq<real>, level: int, layerCandidates: int -> seq<Candidate>,
                     dist: (seq<real>, seq<real>) -> real) returns (nodeID: nat)
      requires Valid() && level >= 0 && entryPoint.Some?
      requires |vector| > 0 && (dimension == 0 || |vector| == dimension)
      modifies this
      ensures Valid()
      ensures nodeID == old(nodeCounter) && nodeCounter == old(nodeCounter) + 1 && dimension == |vector|
      ensures nodes.Keys == old(nodes).Keys + {nodeID} && size == old(size) + 1
      ensures OnlyAdds(old(nodes), nodes, nodeID)
      ensures nodes[nodeID].Valid() && nodes[nodeID].vector == vector && nodes[nodeID].level == level
      ensures if level > old(maxLayer) then entryPoint == Some(nodeID) && maxLayer == level
        else entryPoint == old(entryPoint) && maxLayer == old(maxLayer)
      ensures forall l :: 0 <= l <= level ==>
        Linked(nodes[nodeID].Neighbors(l), l, SelectNeighbors(layerCandidates(l), Cap(l)), old(maxLayer), old(nodes).Keys)
    {
      nodeID := Reserve(|vector|);
      var v := LinkLayers(NewVertex(nodeID, vector, level), layerCandidates, dist);
      ghost var linked := nodes;
      Attach(v);
      OnlyAddsFresh(linked, v, nodeID);
      OnlyAddsTrans(old(nodes), linked, nodes, nodeID);
    }

    /**
     * Insert: an empty vector or one of the wrong dimension is refused and
     * changes nothing; otherwise the node gets the next id and the given
     * level, is linked on each layer up to min(level, maxLayer) with the
     * selected candidates that exist, and becomes the entry point when it is
     * the first node or reaches above the current top layer. Existing lists
     * gain at most the new id.
     */
    method Insert(vector: seq<real>, level: int, layerCandidates: int -> seq<Candidate>,
                  dist: (seq<real>, seq<real>) -> real) returns (r: Result<nat>)
      requires Valid() && level >= 0
      modifies this
      ensures Valid()
      ensures |vector| == 0 ==> r == Err(EmptyVectorError)
      ensures |vector| > 0 && old(dimension) != 0 && |vector| != old(dimension) ==>
        r == Err(MismatchError(old(dimension), |vector|))
      ensures r.Ok? <==> |vector| > 0 && (old(dimension) == 0 || |vector| == old(dimension))
      ensures r.Err? ==> unchanged(this)
      ensures r.Ok? ==> r.value == old(nodeCounter) && nodeCounter == old(nodeCounter) + 1 && dimension == |vector|
      ensures r.Ok? ==> nodes.Keys == old(nodes).Keys + {r.value} && size == old(size) + 1
      ensures r.Ok? ==> OnlyAdds(old(nodes), nodes, r.value)
      ensures r.Ok? ==> nodes[r.value].Valid() && nodes[r.value].vector == vector && nodes[r.value].level == level
      ensures r.Ok? ==>
        if old(entryPoint).None? || level > old(maxLayer) then entryPoint == Some(r.value) && maxLayer == level
        else entryPoint == old(entryPoint) && maxLayer == old(maxLayer)
      ensures r.Ok? ==> forall l :: 0 <= l <= level ==>
        Linked(nodes[r.value].Neighbors(l), l, SelectNeighbors(layerCandidates(l), Cap(l)), old(maxLayer), old(nodes).Keys)
    {
      if |vector| == 0 { return Err(EmptyVectorError); }
      if dimension != 0 && |vector| != dimension {
        return Err(MismatchError(dimension, |vector|));
      }
      var nodeID;
      if entryPoint.None? {
        nodeID := AddFirst(vector, level);
        assert forall l :: 0 <= l <= level ==> nodes[nodeID].Neighbors(l) == [];
      } else {
        nodeID := AddLinked(vector, level, layerCandidates, dist);
      }
      return Ok(nodeID);
    }

    /**
     * Search: the error cases in the order the source checks them, then the
     * first min(k, |candidates|) closest candidates of a bottom-layer search
     * run with ef = max(efSearch, k).
     */
    method Search(query: seq<real>, k: int, efSearch: int, layerSearch: int -> LayerSearch)
      returns (r: Result<SearchResult>)
      requires Valid()
      requires k >= 0
      ensures |query| == 0 ==> r == Err("query vector cannot be empty")
      ensures |query| > 0 && dimension == 0 ==> r == Err("index is empty")
      ensures |query| > 0 && dimension != 0 && |query| != dimension ==>
        r == Err("query dimension mismatch: expected " + NatToString(dimension) + ", got " + NatToString(|query|))
      ensures |query| > 0 && dimension != 0 && |query| == dimension && entryPoint.None? ==>
        r == Err("index has no entry point")
      ensures r.Ok? <==> |query| > 0 && |query| == dimension && entryPoint.Some?
      ensures r.Ok? ==>
        var found := layerSearch(if efSearch < k then k else efSearch);
        var n := if |found.candidates| < k then |found.candidates| else k;
        r.value.results == found.candidates[..n] && r.value.visited == found.visited
    {
      if |query| == 0 { return Err("query vector cannot be empty"); }
      if dimension == 0 { return Err("index is empty"); }
      if |query| != dimension {
        return Err("query dimension mismatch: expected " + NatToString(dimension) + ", got " + NatToString(|query|));
      }
      if entryPoint.None? { return Err("index has no entry point"); }
      var ef := efSearch;
      if ef < k { ef := k; }
      var found := layerSearch(ef);
      var cands := found.candidates;
      var results: seq<Candidate> := [];
      var i := 0;
      while i < |cands| && i < k
        invariant 0 <= i <= |cands| && i <= k
        invariant results == cands[..i]
      {
        results := results + [cands[i]];
        i := i + 1;
      }
      return Ok(SearchResult(results, found.visited));
    }

    /** KNNSearch: Search with efSearch = max(2k, 50). */
    method KNNSearch(query: seq<real>, k: int, layerSearch: int -> LayerSearch) returns (r: Result<SearchResult>)
      requires Valid()
      requires k >= 0
      ensures r.Ok? <==> |query| > 0 && |query| == dimension && entryPoint.Some?
      ensures r.Ok? ==>
        var found := layerSearch(if 2 * k < 50 then 50 else 2 * k);
        r.value.results == found.candidates[..if |found.candidates| < k then |found.candidates| else k]
    {
      var ef := k * 2;
      if ef < 50 { ef := 50; }
      r := Search(query, k, ef, layerSearch);
    }

    /** GetVector: a copy of the stored vector, or a not-found error. */
    method GetVector(id: nat) returns (r: Result<seq<real>>)
      requires Valid()
      ensures id in nodes ==> r == Ok(nodes[id].vector) && |r.value| == dimension
      ensures id !in nodes ==> r == Err(NotFound(id))
    {
      if id !in nodes { return Err(NotFound(id)); }
      assert NodeOk(id, nodes[id], maxLayer, nodeCounter, dimension);
      return Ok(nodes[id].vector);
    }


    /**
     * Delete's search for a new entry point: a node other than `id` on the
     * highest level among them, and that level; none and -1 when `id` is the
     * only node. Which of several equally high nodes is taken is left open,
     * as the source takes the first one its map iteration meets.
     */
    method HighestOther(id: nat) returns (e: Option<nat>, top: int)
      requires forall y :: y in nodes ==> nodes[y].level >= 0
      ensures e.None? <==> nodes.Keys <= {id}
      ensures e.None? ==> top == -1
      ensures e.Some? ==> e.value in nodes && e.value != id && nodes[e.value].level == top
      ensures forall y :: y in nodes && y != id ==> nodes[y].level <= top
    {
      e := None;
      top := -1;
      var rest := nodes.Keys;
      ghost var seen: set<nat> := {};
      while rest != {}
        invariant rest !! seen && rest + seen == nodes.Keys
        invariant e.None? <==> seen <= {id}
        invariant e.None? ==> top == -1
        invariant e.Some? ==> e.value in seen && e.value != id && nodes[e.value].level == top
        invariant forall y :: y in seen && y != id ==> nodes[y].level <= top
        decreases |rest|
      {
        var y :| y in rest;
        if y != id && nodes[y].level > top {
          top := nodes[y].level;
          e := Some(y);
        }
        seen := seen + {y};
        rest := rest - {y};
      }
    }

    /** Delete's inner loop: each node on the deleted node's list at `layer` drops its id there. */
    method UnlinkLayer(node: Vertex, layer: int)
      requires AllValid(nodes) && node.Valid()
      modifies this`nodes
      ensures nodes == UnlinkEach(old(nodes), node.Neighbors(layer), layer, node.id)
    {
      ghost var start := nodes;
      var ns := node.Neighbors(layer);
      var k := 0;
      while k < |ns|
        invariant 0 <= k <= |ns|
        invariant nodes == UnlinkEach(start, ns[..k], layer, node.id)
      {
        var nid := ns[k];
        assert ns[..k + 1][..k] == ns[..k];
        if nid in nodes {
          nodes := nodes[nid := nodes[nid].RemoveNeighbor(layer, node.id)];
        }
        k := k + 1;
      }
      assert ns[..k] == ns;
    }

    /** Delete's outer loop, over the deleted node's layers 0..level. */
    method UnlinkAll(node: Vertex)
      requires AllValid(nodes) && node.Valid()
      modifies this`nodes
      ensures nodes == UnlinkLayers(old(nodes), node.neighbors, node.id, |node.neighbors|)
    {
      ghost var before := nodes;
      var layer := 0;
      while layer <= node.level
        invariant 0 <= layer <= node.level + 1
        invariant nodes == UnlinkLayers(before, node.neighbors, node.id, layer)
      {
        UnlinkLayer(node, layer);
        assert node.Neighbors(layer) == node.neighbors[layer];
        layer := layer + 1;
      }
    }

    /** Delete's unlinking, as a whole: the invariant holds and no key or level changes. */
    method UnlinkNode(node: Vertex)
      requires Valid() && node.id in nodes && nodes[node.id] == node
      modifies this`nodes
      ensures Valid() && AllValid(old(nodes))
      ensures nodes == UnlinkLayers(old(nodes), node.neighbors, node.id, |node.neighbors|)
    {
      IndexOkUnlinked(nodes, entryPoint, maxLayer, nodeCounter, dimension, size, node.neighbors, node.id);
      assert NodeOk(node.id, node, maxLayer, nodeCounter, dimension);
      UnlinkAll(node);
    }

    /**
     * The end of Delete: the node leaves the table; if it was the entry point,
     * a highest other node takes its place and the top layer becomes that
     * node's level (none and -1 when nothing is left).
     */
    method Detach(id: nat)
      requires Valid() && id in nodes
      modifies this`nodes, this`entryPoint, this`maxLayer, this`size
      ensures Valid()
      ensures nodes == old(nodes) - {id} && size == old(size) - 1
      ensures old(entryPoint) != Some(id) ==> entryPoint == old(entryPoint) && maxLayer == old(maxLayer)
      ensures old(entryPoint) == Some(id) ==> forall y :: y in nodes ==> nodes[y].level <= maxLayer
    {
      var e, top := entryPoint, maxLayer;
      if entryPoint == Some(id) {
        forall y | y in nodes ensures nodes[y].level >= 0 {
          assert NodeOk(y, nodes[y], maxLayer, nodeCounter, dimension);
        }
        e, top := HighestOther(id);
      }
      IndexOkRemove(nodes, entryPoint, maxLayer, nodeCounter, dimension, size, id, e, top);
      entryPoint, maxLayer := e, top;
      nodes := nodes - {id};
      size := size - 1;
    }

    /**
     * Delete: a missing id is an error that changes nothing. Otherwise every
     * node the deleted one listed on a layer drops the deleted id from its
     * list on that layer (the fold UnlinkLayers), a new entry point on the
     * highest remaining level is chosen when the deleted node was the entry
     * point, and the node leaves the table.
     */
    method Delete(id: nat) returns (r: Outcome)
      requires Valid()
      modifies this`nodes, this`entryPoint, this`maxLayer, this`size
      ensures Valid()
      ensures id !in old(nodes) ==> r == Fail(NotFound(id)) && unchanged(this)
      ensures id in old(nodes) ==>
        r == Pass && size == old(size) - 1 && AllValid(old(nodes)) &&
        nodes == UnlinkLayers(old(nodes), old(nodes[id]).neighbors, id, |old(nodes[id]).neighbors|) - {id}
      ensures id in old(nodes) && old(entryPoint) != Some(id) ==>
        entryPoint == old(entryPoint) && maxLayer == old(maxLayer)
      ensures id in old(nodes) && old(entryPoint) == Some(id) ==>
        forall y :: y in nodes ==> nodes[y].level <= maxLayer
    {
      if id !in nodes { return Fail(NotFound(id)); }
      var node := nodes[id];
      assert NodeOk(id, node, maxLayer, nodeCounter, dimension);
      UnlinkNode(node);
      Detach(id);
      return Pass;
    }

    /**
     * Update: delete, then insert the new vector as a new node with a new id.
     * A failed insert leaves the old node deleted and reports the insert's
     * error behind "failed to insert new vector: ". The other nodes first lose
     * the old id from the lists the deleted node named (UnlinkLayers), and then
     * gain at most the new id; the new node is linked as Insert links it, to
     * the selected candidates that remain.
     */
    method Update(id: nat, newVector: seq<real>, level: int, layerCandidates: int -> seq<Candidate>,
                  dist: (seq<real>, seq<real>) -> real) returns (r: Outcome)
      requires Valid() && level >= 0
      modifies this
      ensures Valid()
      ensures id !in old(nodes) ==> r == Fail(NotFound(id)) && unchanged(this)
      ensures id in old(nodes) ==> (r.Pass? <==> |newVector| == old(dimension))
      ensures id in old(nodes) && r.Pass? ==> nodes.Keys == old(nodes).Keys - {id} + {old(nodeCounter)}
      ensures id in old(nodes) && r.Pass? ==> nodes[old(nodeCounter)].vector == newVector
      ensures id in old(nodes) && r.Fail? ==> nodes.Keys == old(nodes).Keys - {id}
      ensures id in old(nodes) && |newVector| == 0 ==> r == Fail(InsertFailed(EmptyVectorError))
      ensures id in old(nodes) && |newVector| > 0 && |newVector| != old(dimension) ==>
        r == Fail(InsertFailed(MismatchError(old(dimension), |newVector|)))
      ensures id in old(nodes) ==> AllValid(old(nodes))
      ensures id in old(nodes) && r.Fail? ==>
        nodes == UnlinkLayers(old(nodes), old(nodes[id]).neighbors, id, |old(nodes[id]).neighbors|) - {id}
      ensures id in old(nodes) && r.Pass? ==>
        OnlyAdds(UnlinkLayers(old(nodes), old(nodes[id]).neighbors, id, |old(nodes[id]).neighbors|) - {id},
                 nodes, old(nodeCounter)) &&
        nodeCounter == old(nodeCounter) + 1 && nodes[old(nodeCounter)].Valid() &&
        nodes[old(nodeCounter)].level == level
      ensures id in old(nodes) && r.Pass? && old(entryPoint) != Some(id) ==>
        if old(entryPoint).None? || level > old(maxLayer) then entryPoint == Some(old(nodeCounter)) && maxLayer == level
        else entryPoint == old(entryPoint) && maxLayer == old(maxLayer)
      ensures id in old(nodes) && r.Pass? && old(entryPoint) != Some(id) ==> forall l :: 0 <= l <= level ==>
        Linked(nodes[old(nodeCounter)].Neighbors(l), l, SelectNeighbors(layerCandidates(l), Cap(l)),
               old(maxLayer), old(nodes).Keys - {id})
    {
      if id !in nodes { return Fail(NotFound(id)); }
      var _ := Delete(id);
      assert old(nodes).Keys - {id} == nodes.Keys;
      var ins := Insert(newVector, level, layerCandidates, dist);
      if ins.Err? {
        return Fail(InsertFailed(ins.error));
      }
      return Pass;
    }
  }
}
