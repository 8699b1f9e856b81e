/** Edges of the lattice and the pool of their weight nodes (`edge.py`,
    classes `Edge` and `EdgePool`). */
module Edges {
  import opened Wrappers
  import Symbolic

  /** A lattice position: one integer coordinate per dimension. */
  type Position = seq<int>

  /** An edge from `tail` to `head` standing for vector `vectorId`, with
      `numEdges` (the `multiples` argument) and the web node holding its
      weight. */
  datatype Edge = Edge(head: Position, tail: Position, vectorId: nat, numEdges: int, weight: nat)

  /** `Edge(head, tail, vector_id, multiples)` followed by the assignment of
      its weight node. */
  function NewEdge(head: Position, tail: Position, vectorId: nat, multiples: int, weight: nat): (e: Edge)
    ensures e.head == head && e.tail == tail && e.vectorId == vectorId && e.numEdges == multiples && e.weight == weight
  {
    Edge(head, tail, vectorId, multiples, weight)
  }

  /** `Edge.__eq__`: same head, same tail, same vector. */
  predicate SameEdge(a: Edge, b: Edge)
  {
    if a.head != b.head then false
    else if a.tail != b.tail then false
    else a.vectorId == b.vectorId
  }

  /** Edge equality ignores the weight node and the multiple, and is an
      equivalence. */
  lemma {:induction false} SameEdgeMeaning(a: Edge, b: Edge, c: Edge)
    ensures SameEdge(a, b) <==> a.(weight := 0, numEdges := 0) == b.(weight := 0, numEdges := 0)
    ensures SameEdge(a, a)
    ensures SameEdge(a, b) ==> SameEdge(b, a)
    ensures SameEdge(a, b) && SameEdge(b, c) ==> SameEdge(a, c)
  {
  }

  /** `position + d`, coordinate by coordinate. */
  function Translate(position: Position, d: seq<int>): (r: Position)
    requires |d| == |position|
    ensures |r| == |position|
    ensures forall i | 0 <= i < |position| :: r[i] == position[i] + d[i]
  {
    seq(|position|, i requires 0 <= i < |position| => position[i] + d[i])
  }

  /** `head - tail`, coordinate by coordinate. */
  function Displacement(e: Edge): (d: seq<int>)
    requires |e.head| == |e.tail|
    ensures |d| == |e.tail| && Translate(e.tail, d) == e.head
  {
    seq(|e.tail|, i requires 0 <= i < |e.tail| => e.head[i] - e.tail[i])
  }

  // ---------------------------------------------------------------------
  // EdgePool
  // ---------------------------------------------------------------------

  /** The weight nodes of every accepted edge, with the next weight id. */
  datatype EdgePool = EdgePool(weights: seq<nat>, currentId: int)

  /** `EdgePool()`. */
  function EmptyPool(): (ep: EdgePool)
    ensures Dense(ep)
  {
    EdgePool([], 0)
  }

  /** Weight ids are dense: the counter is the number of weights. */
  predicate Dense(ep: EdgePool)
  {
    ep.currentId == |ep.weights|
  }

  /** `AddEdgeWeight(weight)`: append the node and give it the current
      weight id, then count up. */
  function AddEdgeWeight(ep: EdgePool, w: Symbolic.Web, weight: nat): (r: (EdgePool, Symbolic.Web))
    requires Symbolic.Valid(w) && weight < |w.nodes|
    ensures r.0.weights == ep.weights + [weight] && r.0.currentId == ep.currentId + 1
    ensures Dense(ep) ==> Dense(r.0)
    ensures Symbolic.Valid(r.1) && |r.1.nodes| == |w.nodes| && r.1.nodes[weight] == w.nodes[weight].(weightId := ep.currentId)
    ensures forall i | 0 <= i < |w.nodes| && i != weight :: r.1.nodes[i] == w.nodes[i]
    ensures r.1.locks == w.locks && r.1.errors == w.errors && r.1.nextId == w.nextId
  {
    (EdgePool(ep.weights + [weight], ep.currentId + 1),
     Symbolic.SetNode(w, weight, w.nodes[weight].(weightId := ep.currentId)))
  }

  /** `RemoveEdgeWeight()`: drop the last weight and count down; an empty
      pool fails on `pop`. */
  function RemoveEdgeWeight(ep: EdgePool): (r: Result<EdgePool>)
    ensures |ep.weights| == 0 <==> r == Fail(IndexError)
    ensures r.Ok? ==> r.value.weights == ep.weights[..|ep.weights| - 1] && r.value.currentId == ep.currentId - 1
    ensures r.Ok? && Dense(ep) ==> Dense(r.value)
  {
    if |ep.weights| == 0 then Fail(IndexError)
    else Ok(EdgePool(ep.weights[..|ep.weights| - 1], ep.currentId - 1))
  }

  /** Removing the weight just added gives the pool back. */
  lemma {:induction false} AddRemoveWeight(ep: EdgePool, w: Symbolic.Web, weight: nat)
    requires Symbolic.Valid(w) && weight < |w.nodes|
    ensures RemoveEdgeWeight(AddEdgeWeight(ep, w, weight).0) == Ok(ep)
  {
    var r := AddEdgeWeight(ep, w, weight).0;
    assert r.weights[..|r.weights| - 1] == ep.weights;
  }
}
