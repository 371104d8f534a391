// A vertex of the single-layer NSG graph: an identifier, its vector and one
// outgoing neighbour list (pkg/nsg/node.go).
module NsgNode {
  import opened NeighborLists

  class Node {
    const id: nat
    const vector: seq<real>
    var neighbors: seq<nat>

    constructor (id: nat, vector: seq<real>)
      ensures this.id == id && this.vector == vector && neighbors == []
    {
      this.id := id;
      this.vector := vector;
      neighbors := [];
    }

    /** Appends `nid` unless it is there already (so a duplicate-free list stays so). */
    method AddNeighbor(nid: nat)
      modifies this`neighbors
      ensures neighbors == AppendNew(old(neighbors), nid)
    {
      var present := Contains(neighbors, nid);
      if present { return; }
      neighbors := neighbors + [nid];
    }

    /** Removes the first `nid` by overwriting it with the last entry and truncating. */
    method RemoveNeighbor(nid: nat)
      modifies this`neighbors
      ensures neighbors == SwapRemove(old(neighbors), nid)
    {
      neighbors := RemoveBySwap(neighbors, nid);
    }

    /** A copy of the neighbour list. */
    method GetNeighbors() returns (r: seq<nat>)
      ensures r == neighbors
    {
      r := neighbors;
    }

    method SetNeighbors(ns: seq<nat>)
      modifies this`neighbors
      ensures neighbors == ns
    {
      neighbors := ns;
    }

    method NeighborCount() returns (c: nat)
      ensures c == |neighbors|
    {
      c := |neighbors|;
    }

    method HasNeighbor(nid: nat) returns (b: bool)
      ensures b <==> nid in neighbors
    {
      b := Contains(neighbors, nid);
    }
  }
}
