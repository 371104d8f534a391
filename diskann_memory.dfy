// The in-memory routing graph of DiskANN (pkg/diskann/memory_graph.go): a
// bounded map from node id to node that keeps the first `maxSize` ids it is
// given, plus an entry point. Vectors and neighbour lists are sequences, so
// the copies the source takes of its arguments are inherent in the values.
module DiskAnnMemory {

  datatype MemoryNode = MemoryNode(id: nat, vector: seq<real>, neighbors: seq<nat>, pqCode: seq<int>)

  type Nodes = map<nat, MemoryNode>

  /** The capacity as a count: a maxSize of zero or below admits no new id. */
  function Capacity(maxSize: int): nat
  {
    if maxSize < 0 then 0 else maxSize
  }

  /** AddNode on the map: a new id is skipped once the graph is full; otherwise the node is (re)placed. */
  function Add(g: Nodes, maxSize: int, id: nat, vector: seq<real>, neighbors: seq<nat>): (r: Nodes)
    ensures id in r <==> id in g || |g| < maxSize
    ensures id in r ==> r[id] == MemoryNode(id, vector, neighbors, [])
    ensures r.Keys <= g.Keys + {id}
    ensures forall k :: k in g && k != id ==> k in r && r[k] == g[k]
  {
    if |g| >= maxSize && id !in g then g
    else g[id := MemoryNode(id, vector, neighbors, [])]
  }

  /**
   * Adding keeps the graph within its capacity, admits an id exactly when it
   * was present already or there was room, stores the given vector and
   * neighbours under it, and leaves every other id as it was.
   */
  lemma {:induction false} AddBounded(g: Nodes, maxSize: int, id: nat, vector: seq<real>, neighbors: seq<nat>)
    requires |g| <= Capacity(maxSize)
    ensures |Add(g, maxSize, id, vector, neighbors)| <= Capacity(maxSize)
    ensures id in Add(g, maxSize, id, vector, neighbors) <==> id in g || |g| < maxSize
    ensures id in Add(g, maxSize, id, vector, neighbors) ==>
      Add(g, maxSize, id, vector, neighbors)[id] == MemoryNode(id, vector, neighbors, [])
    ensures forall k :: k != id ==>
      (k in Add(g, maxSize, id, vector, neighbors) <==> k in g) &&
      (k in g ==> Add(g, maxSize, id, vector, neighbors)[k] == g[k])
  {
    AddSize(g, maxSize, id, vector, neighbors);
    AddOthers(g, maxSize, id, vector, neighbors);
  }

  lemma AddSize(g: Nodes, maxSize: int, id: nat, vector: seq<real>, neighbors: seq<nat>)
    requires |g| <= Capacity(maxSize)
    ensures |Add(g, maxSize, id, vector, neighbors)| <= Capacity(maxSize)
    ensures id in Add(g, maxSize, id, vector, neighbors) <==> id in g || |g| < maxSize
  {
    var r := Add(g, maxSize, id, vector, neighbors);
    var n := MemoryNode(id, vector, neighbors, []);
    if id in g {
      assert r == g[id := n];
      assert |r| == |g|;
    } else if |g| < maxSize {
      assert r == g[id := n];
      assert |r| == |g| + 1;
    } else {
      assert r == g;
    }
  }

  lemma AddOthers(g: Nodes, maxSize: int, id: nat, vector: seq<real>, neighbors: seq<nat>)
    ensures id in Add(g, maxSize, id, vector, neighbors) ==>
      Add(g, maxSize, id, vector, neighbors)[id] == MemoryNode(id, vector, neighbors, [])
    ensures forall k :: k != id ==>
      (k in Add(g, maxSize, id, vector, neighbors) <==> k in g) &&
      (k in g ==> Add(g, maxSize, id, vector, neighbors)[k] == g[k])
  {
  }

  /** An id already present is overwritten even when the graph is full. */
  lemma OverwriteWhenFull(g: Nodes, maxSize: int, id: nat, vector: seq<real>, neighbors: seq<nat>)
    requires id in g && |g| >= maxSize
    ensures Add(g, maxSize, id, vector, neighbors)[id].vector == vector
    ensures Add(g, maxSize, id, vector, neighbors)[id].neighbors == neighbors
    ensures Add(g, maxSize, id, vector, neighbors).Keys == g.Keys
  {
  }

  /** UpdateNeighbors on the map: only an existing node's neighbour list changes. */
  function Relink(g: Nodes, id: nat, neighbors: seq<nat>): (r: Nodes)
    ensures r.Keys == g.Keys
    ensures id in g ==> r[id].neighbors == neighbors && r[id].(neighbors := g[id].neighbors) == g[id]
    ensures forall k :: k in g && k != id ==> r[k] == g[k]
  {
    if id in g then g[id := g[id].(neighbors := neighbors)] else g
  }

  lemma RelinkOnlyNeighbors(g: Nodes, id: nat, neighbors: seq<nat>)
    ensures Relink(g, id, neighbors).Keys == g.Keys
    ensures id in g ==> Relink(g, id, neighbors)[id] == g[id].(neighbors := neighbors)
    ensures forall k :: k in g && k != id ==> Relink(g, id, neighbors)[k] == g[k]
  {
  }

  /** Every node is filed under its own id. */
  ghost predicate WellFiled(g: Nodes)
  {
    forall k :: k in g ==> g[k].id == k
  }

  lemma AddWellFiled(g: Nodes, maxSize: int, id: nat, vector: seq<real>, neighbors: seq<nat>)
    requires WellFiled(g)
    ensures WellFiled(Add(g, maxSize, id, vector, neighbors))
  {
  }

  lemma RelinkWellFiled(g: Nodes, id: nat, neighbors: seq<nat>)
    requires WellFiled(g)
    ensures WellFiled(Relink(g, id, neighbors))
  {
  }

  class MemoryGraph {
    const maxSize: int
    /** Neighbours per node; stored, not enforced. */
    const degree: int
    var nodes: Nodes
    var entryPoint: nat

    ghost predicate Valid()
      reads this
    {
      |nodes| <= Capacity(maxSize) && WellFiled(nodes)
    }

    /** NewMemoryGraph: empty, with entry point 0. */
    constructor (maxSize: int, degree: int)
      ensures Valid() && this.maxSize == maxSize && this.degree == degree
      ensures nodes == map[] && entryPoint == 0
    {
      this.maxSize := maxSize;
      this.degree := degree;
      nodes := map[];
      entryPoint := 0;
    }

    method AddNode(id: nat, vector: seq<real>, neighbors: seq<nat>)
      requires Valid()
      modifies this`nodes
      ensures Valid() && nodes == Add(old(nodes), maxSize, id, vector, neighbors)
    {
      AddBounded(nodes, maxSize, id, vector, neighbors);
      AddWellFiled(nodes, maxSize, id, vector, neighbors);
      if |nodes| >= maxSize && id !in nodes {
        return;
      }
      nodes := nodes[id := MemoryNode(id, vector, neighbors, [])];
    }

    /** GetNode: the node under `id`, when there is one. */
    method GetNode(id: nat) returns (node: MemoryNode, exists_: bool)
      ensures exists_ <==> id in nodes
      ensures exists_ ==> node == nodes[id]
    {
      if id in nodes {
        return nodes[id], true;
      }
      return MemoryNode(0, [], [], []), false;
    }

    method SetEntryPoint(id: nat)
      modifies this`entryPoint
      ensures entryPoint == id
    {
      entryPoint := id;
    }

    function GetEntryPoint(): nat
      reads this
    {
      entryPoint
    }

    function Size(): nat
      reads this
    {
      |nodes|
    }

    function Contains(id: nat): bool
      reads this
    {
      id in nodes
    }

    method UpdateNeighbors(id: nat, neighbors: seq<nat>)
      requires Valid()
      modifies this`nodes
      ensures Valid() && nodes == Relink(old(nodes), id, neighbors)
    {
      RelinkWellFiled(nodes, id, neighbors);
      if id in nodes {
        nodes := nodes[id := nodes[id].(neighbors := neighbors)];
      }
    }

    /** GetAllNodes: every stored id once, in some order; Contains and Size agree with it. */
    method GetAllNodes() returns (ids: seq<nat>)
      ensures |ids| == Size() && forall id :: id in ids <==> Contains(id)
      ensures forall i, j :: 0 <= i < j < |ids| ==> ids[i] != ids[j]
    {
      ids := [];
      var left := nodes.Keys;
      while left != {}
        invariant left <= nodes.Keys && |ids| + |left| == |nodes|
        invariant forall x :: x in ids <==> x in nodes && x !in left
        invariant forall i, j :: 0 <= i < j < |ids| ==> ids[i] != ids[j]
        decreases |left|
      {
        var x :| x in left;
        ids := ids + [x];
        left := left - {x};
      }
    }
  }
}
