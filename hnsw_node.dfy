// A vertex of the HNSW graph: an identifier, its vector, its top layer, and
// one neighbour list per layer 0..level (pkg/hnsw/node.go). `Vertex` is the
// value a node holds; the class `Node` is the mutable node itself, and each of
// its methods is specified by the `Vertex` function of the same name.
module HnswNode {
  import opened NeighborLists

  datatype Vertex = Vertex(id: nat, vector: seq<real>, level: int, neighbors: seq<seq<nat>>)
  {
    /** One neighbour list per layer 0..level. */
    predicate Valid()
    {
      level >= -1 && |neighbors| == level + 1
    }

    predicate InRange(layer: int)
    {
      0 <= layer <= level
    }

    /** The list at `layer`, or the empty list for a layer the node is not on. */
    function Neighbors(layer: int): (r: seq<nat>)
      requires Valid()
      ensures !InRange(layer) ==> r == []
    {
      if InRange(layer) then neighbors[layer] else []
    }

    /** AddNeighbor: the list at `layer` gains `nid` unless it holds it already; other layers are untouched. */
    function AddNeighbor(layer: int, nid: nat): (v: Vertex)
      requires Valid()
      ensures v.Valid() && v.id == id && v.vector == vector && v.level == level
      ensures InRange(layer) ==> v.Neighbors(layer) == AppendNew(Neighbors(layer), nid)
      ensures forall l :: l != layer ==> v.Neighbors(l) == Neighbors(l)
      ensures !InRange(layer) ==> v == this
    {
      if InRange(layer) then this.(neighbors := neighbors[layer := AppendNew(neighbors[layer], nid)]) else this
    }

    /** RemoveNeighbor: the list at `layer` loses its first `nid` by a swap with the last entry; other layers are untouched. */
    function RemoveNeighbor(layer: int, nid: nat): (v: Vertex)
      requires Valid()
      ensures v.Valid() && v.id == id && v.vector == vector && v.level == level
      ensures InRange(layer) ==> v.Neighbors(layer) == SwapRemove(Neighbors(layer), nid)
      ensures forall l :: l != layer ==> v.Neighbors(l) == Neighbors(l)
      ensures !InRange(layer) ==> v == this
    {
      if InRange(layer) then this.(neighbors := neighbors[layer := SwapRemove(neighbors[layer], nid)]) else this
    }

    /** SetNeighbors: the list at `layer` becomes `ns`; an out-of-range layer is ignored. */
    function SetNeighbors(layer: int, ns: seq<nat>): (v: Vertex)
      requires Valid()
      ensures v.Valid() && v.id == id && v.vector == vector && v.level == level
      ensures InRange(layer) ==> v.Neighbors(layer) == ns
      ensures forall l :: l != layer ==> v.Neighbors(l) == Neighbors(l)
      ensures !InRange(layer) ==> v == this
    {
      if InRange(layer) then this.(neighbors := neighbors[layer := ns]) else this
    }
  }

  /** NewNode: the given id, vector and level, with an empty list on each layer 0..level. */
  function NewVertex(id: nat, vector: seq<real>, level: int): (v: Vertex)
    requires level >= -1
    ensures v.Valid() && v.id == id && v.vector == vector && v.level == level
    ensures forall l :: 0 <= l <= level ==> v.neighbors[l] == []
  {
    Vertex(id, vector, level, seq(level + 1, _ => []))
  }

  class Node {
    const id: nat
    const vector: seq<real>
    const level: int
    var neighbors: seq<seq<nat>>

    /** The node's current value. */
    function Value(): Vertex
      reads this
    {
      Vertex(id, vector, level, neighbors)
    }

    ghost predicate Valid()
      reads this
    {
      Value().Valid()
    }

    predicate InRange(layer: int)
    {
      0 <= layer <= level
    }

    constructor (id: nat, vector: seq<real>, level: int)
      requires level >= -1
      ensures Valid() && Value() == NewVertex(id, vector, level)
    {
      this.id := id;
      this.vector := vector;
      this.level := level;
      neighbors := seq(level + 1, _ => []);
    }

    /** Appends `nid` at `layer` unless it is there already; an out-of-range layer is ignored. */
    method AddNeighbor(layer: int, nid: nat)
      requires Valid()
      modifies this`neighbors
      ensures Valid() && Value() == old(Value()).AddNeighbor(layer, nid)
    {
      if layer < 0 || layer > level { return; }
      var present := Contains(neighbors[layer], nid);
      if present { return; }
      neighbors := neighbors[layer := neighbors[layer] + [nid]];
    }

    /** Removes the first `nid` at `layer` by overwriting it with the last entry. */
    method RemoveNeighbor(layer: int, nid: nat)
      requires Valid()
      modifies this`neighbors
      ensures Valid() && Value() == old(Value()).RemoveNeighbor(layer, nid)
    {
      if layer < 0 || layer > level { return; }
      var rest := RemoveBySwap(neighbors[layer], nid);
      neighbors := neighbors[layer := rest];
    }

    /** A copy of the list at `layer`, or the empty list for a layer the node is not on. */
    method GetNeighbors(layer: int) returns (r: seq<nat>)
      requires Valid()
      ensures r == Value().Neighbors(layer)
    {
      if layer < 0 || layer > level { return []; }
      r := neighbors[layer];
    }

    /** Replaces the list at `layer`; an out-of-range layer is ignored. */
    method SetNeighbors(layer: int, ns: seq<nat>)
      requires Valid()
      modifies this`neighbors
      ensures Valid() && Value() == old(Value()).SetNeighbors(layer, ns)
    {
      if layer < 0 || layer > level { return; }
      neighbors := neighbors[layer := ns];
    }

    /** The length of the list at `layer`, 0 for a layer the node is not on. */
    method NeighborCount(layer: int) returns (c: nat)
      requires Valid()
      ensures c == |Value().Neighbors(layer)|
    {
      if layer < 0 || layer > level { return 0; }
      c := |neighbors[layer]|;
    }

    /** Whether `nid` is a neighbour at `layer`; false for a layer the node is not on. */
    method HasNeighbor(layer: int, nid: nat) returns (b: bool)
      requires Valid()
      ensures b <==> InRange(layer) && nid in neighbors[layer]
    {
      if layer < 0 || layer > level { return false; }
      b := Contains(neighbors[layer], nid);
    }

    /** The non-empty layers only, each mapped to a copy of its list. */
    method GetAllNeighbors() returns (r: map<int, seq<nat>>)
      requires Valid()
      ensures forall l :: l in r <==> InRange(l) && neighbors[l] != []
      ensures forall l :: l in r ==> InRange(l) && r[l] == neighbors[l]
    {
      r := map[];
      var l := 0;
      while l < |neighbors|
        invariant 0 <= l <= |neighbors|
        invariant forall k :: k in r <==> 0 <= k < l && neighbors[k] != []
        invariant forall k :: k in r ==> 0 <= k < l && r[k] == neighbors[k]
      {
        if |neighbors[l]| > 0 {
          r := r[l := neighbors[l]];
        }
        l := l + 1;
      }
    }
  }
}
