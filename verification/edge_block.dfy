/** Blocks of edges over a shared vertex pool and edge pool (`edge.py`,
    class `Block`). Every block built on the same pools shares one
    `Lattice`: the vertex pool, whose web holds every node, and the edge
    pool. */
module Blocks {
  import opened Wrappers
  import opened Symbolic
  import opened Edges
  import opened Vertices

  /** The pools a block works on. */
  datatype Lattice = Lattice(pool: Pool, edgePool: EdgePool)

  /** A block: its accepted edges, its dimension and its vector count. */
  datatype Block = Block(edges: seq<Edge>, dimension: nat, numVectors: int)

  /** The pools' invariant. */
  predicate LatticeValid(l: Lattice)
  {
    PoolValid(l.pool) && Dense(l.edgePool)
  }

  /** `Block(vertex_pool, edge_pool)`: no edges, the pool's dimension, no
      vectors yet. */
  function NewBlock(l: Lattice): (b: Block)
    ensures |b.edges| == 0 && b.dimension == Dimension(l.pool) && b.numVectors == 0
  {
    Block([], Dimension(l.pool), 0)
  }

  /** `Size()`: the largest coordinate met per dimension. */
  function Size(l: Lattice): (r: seq<int>)
    ensures PoolValid(l.pool) ==> |r| == Dimension(l.pool)
  {
    l.pool.size
  }

  /** `Vertices()`: the pool's vertices, shared by every block. */
  function VertexList(l: Lattice): (r: seq<Vertex>)
    ensures |r| == |l.pool.vertices|
  {
    l.pool.vertices
  }

  // ---------------------------------------------------------------------
  // Creating an edge
  // ---------------------------------------------------------------------

  /** `CreateEdge(tail_position, head_position, vector_id, num_edges)`. The
      source passes its first argument on as the edge's head, so `first`
      becomes the head. The weight is a new node of kind edge, registered
      with the edge pool. */
  function CreateEdge(l: Lattice, first: Position, second: Position, vectorId: nat, numEdges: int): (r: (Lattice, Edge))
    requires LatticeValid(l)
    ensures var (l', e) := r;
      && e == Edge(first, second, vectorId, numEdges, |l.pool.web.nodes|)
      && LatticeValid(l') && l'.pool == l.pool.(web := l'.pool.web)
      && l'.pool.web.nodes == l.pool.web.nodes + [NewNode(e.weight).(kind := EdgeKind, weightId := l.edgePool.currentId)]
      && l'.pool.web.locks == l.pool.web.locks && l'.pool.web.errors == l.pool.web.errors
      && l'.edgePool.weights == l.edgePool.weights + [e.weight]
  {
    var (w1, id) := CreateNode(l.pool.web);
    var w2 := SetKind(w1, id, EdgeKind);
    var (ep, w3) := AddEdgeWeight(l.edgePool, w2, id);
    assert w3.nodes == l.pool.web.nodes + [NewNode(id).(kind := EdgeKind, weightId := l.edgePool.currentId)];
    WebGrowsValid(l.pool, w3);
    (Lattice(l.pool.(web := w3), ep), NewEdge(first, second, vectorId, numEdges, id))
  }

  /** A pool stays valid when its web only gains nodes and groups. */
  lemma {:induction false} WebGrowsValid(p: Pool, web: Web)
    requires PoolValid(p) && Valid(web) && WebExtends(p.web, web)
    ensures PoolValid(p.(web := web))
  {
    forall k | 0 <= k < |p.vertices|
      ensures VertexIn(p.vertices[k], web)
    {
      VertexInExtends(p.vertices[k], p.web, web);
    }
  }

  /** Retracting the weight of the edge just created gives both pools back. */
  lemma {:induction false} CreateEdgeRetract(l: Lattice, first: Position, second: Position, vectorId: nat, numEdges: int)
    requires LatticeValid(l)
    ensures var l' := CreateEdge(l, first, second, vectorId, numEdges).0;
      && RemoveEdgeWeight(l'.edgePool) == Ok(l.edgePool)
      && RemoveNode(l'.pool.web) == Ok(l.pool.web)
  {
    var l' := CreateEdge(l, first, second, vectorId, numEdges).0;
    assert l'.edgePool.weights[..|l'.edgePool.weights| - 1] == l.edgePool.weights;
    assert l'.pool.web.nodes[..|l'.pool.web.nodes| - 1] == l.pool.web.nodes;
  }

  // ---------------------------------------------------------------------
  // Adding an edge
  // ---------------------------------------------------------------------

  /** Vertex `i` of the pool replaced, with the web it now lives in. */
  function SetVertex(p: Pool, i: nat, v: Vertex, web: Web): (q: Pool)
    requires i < |p.vertices|
    ensures q.vertices == p.vertices[i := v] && q.web == web
    ensures q.index == p.index && q.condition == p.condition && q.columns == p.columns && q.size == p.size
  {
    p.(vertices := p.vertices[i := v], web := web)
  }

  /** Replacing a vertex by one with the same position and cut, in a web
      that only gained groups, keeps the pool valid. */
  lemma {:induction false} SetVertexValid(p: Pool, i: nat, v: Vertex, web: Web)
    requires PoolValid(p) && i < |p.vertices| && Valid(web) && WebExtends(p.web, web) && |web.nodes| == |p.web.nodes|
    requires VertexIn(v, web) && v.position == p.vertices[i].position && v.cut == p.vertices[i].cut
    ensures PoolValid(SetVertex(p, i, v, web))
  {
    var q := SetVertex(p, i, v, web);
    SetVertexFits(p, i, v, web);
    PositionsKept(p, q);
  }

  lemma {:induction false} SetVertexFits(p: Pool, i: nat, v: Vertex, web: Web)
    requires VerticesFit(p) && i < |p.vertices| && WebExtends(p.web, web)
    requires VertexIn(v, web) && |v.position| == |p.vertices[i].position| && |v.cut| == |p.vertices[i].cut|
    ensures VerticesFit(SetVertex(p, i, v, web))
  {
    var q := SetVertex(p, i, v, web);
    forall k | 0 <= k < |q.vertices|
      ensures VertexIn(q.vertices[k], web) && |q.vertices[k].cut| == CutSize(q) && |q.vertices[k].position| == Dimension(q)
    {
      if k != i {
        VertexInExtends(p.vertices[k], p.web, web);
      }
    }
  }

  /** The index lookups hold as long as every vertex keeps its position. */
  lemma {:induction false} PositionsKept(p: Pool, q: Pool)
    requires EntriesNamed(p) && VerticesFound(p) && q.index == p.index && |q.vertices| == |p.vertices|
    requires forall j | 0 <= j < |p.vertices| :: q.vertices[j].position == p.vertices[j].position
    ensures EntriesNamed(q) && VerticesFound(q)
  {
  }

  /** `q` is `p` with vertices changed at most in their slots and keys, and
      with a web that only gained groups. */
  predicate SamePlaces(p: Pool, q: Pool)
  {
    && |q.vertices| == |p.vertices| && q.index == p.index && q.size == p.size
    && q.condition == p.condition && q.columns == p.columns
    && |q.web.nodes| == |p.web.nodes| && WebExtends(p.web, q.web)
    && (forall j | 0 <= j < |p.vertices| :: q.vertices[j].position == p.vertices[j].position && q.vertices[j].cut == p.vertices[j].cut)
  }

  /** Whether the slot of the edge's vector that vertex `v` would use for it
      (outgoing at the tail, incoming at the head) is free. */
  predicate SlotFree(v: Vertex, e: Edge)
    requires e.vectorId < |v.edges|
  {
    if v.position == e.tail then v.edges[e.vectorId].0.None? else v.edges[e.vectorId].1.None?
  }

  /** `vertex.AddEdge(edge)` on vertex `i` of the pool, written back. */
  function Offer(p: Pool, i: nat, e: Edge): (r: Result<(Pool, bool)>)
    requires Valid(p.web) && i < |p.vertices| && VertexIn(p.vertices[i], p.web) && e.weight < |p.web.nodes|
    ensures p.vertices[i].position != e.tail && p.vertices[i].position != e.head <==> r == Fail(TouchError)
    ensures (p.vertices[i].position == e.tail || p.vertices[i].position == e.head) && e.vectorId >= |p.vertices[i].edges| ==> r == Fail(IndexError)
    ensures (p.vertices[i].position == e.tail || p.vertices[i].position == e.head) && e.vectorId < |p.vertices[i].edges| ==> r.Ok?
    ensures r.Ok? ==> var (q, accepted) := r.value;
      && e.vectorId < |p.vertices[i].edges|
      && (accepted <==> SlotFree(p.vertices[i], e))
      && (!accepted ==> q == p)
  {
    match Vertices.AddEdge(p.web, p.vertices[i], e)
    case Fail(err) => Fail(err)
    case Ok((w, v, accepted)) =>
      if !accepted then Ok((p, false))
      else Ok((SetVertex(p, i, v, w), true))
  }

  /** An offer keeps the vertices fitting the web and changes only slots,
      keys and groups. */
  lemma {:induction false} OfferFits(p: Pool, i: nat, e: Edge)
    requires Valid(p.web) && VerticesFit(p) && i < |p.vertices| && e.weight < |p.web.nodes|
    ensures Offer(p, i, e).Ok? ==> var q := Offer(p, i, e).value.0;
      Valid(q.web) && VerticesFit(q) && SamePlaces(p, q)
  {
    if Offer(p, i, e).Ok? {
      if Offer(p, i, e).value.1 {
        var (w, v, _) := Vertices.AddEdge(p.web, p.vertices[i], e).value;
        SetVertexFits(p, i, v, w);
        SetVertexSame(p, i, v, w);
      } else {
        SamePlacesRefl(p);
      }
    }
  }

  /** A pool with the same places as a valid one, whose vertices fit its
      web, is valid. */
  lemma {:induction false} SamePlacesValid(p: Pool, q: Pool)
    requires PoolValid(p) && SamePlaces(p, q) && Valid(q.web) && VerticesFit(q)
    ensures PoolValid(q)
  {
    PositionsKept(p, q);
  }

  /** An offer fills at most the offered slot, and at the tail leaves it
      filled. */
  lemma {:induction false} OfferSlots(p: Pool, i: nat, e: Edge)
    requires Valid(p.web) && VerticesFit(p) && i < |p.vertices| && e.weight < |p.web.nodes| && Offer(p, i, e).Ok?
    ensures var q := Offer(p, i, e).value.0;
      && OutKept(p, q) && OutOnly(p, q, if p.vertices[i].position == e.tail then i else -1, e.vectorId)
      && (p.vertices[i].position == e.tail ==> q.vertices[i].edges[e.vectorId].0.Some?)
  {
    var (q, accepted) := Offer(p, i, e).value;
    if accepted {
      var (w, v, _) := Vertices.AddEdge(p.web, p.vertices[i], e).value;
      SlotSet(p, q, i, e.vectorId, if p.vertices[i].position == e.tail then i else -1);
    }
  }

  lemma {:induction false} OutTrans(a: Pool, b: Pool, c: Pool, t: int, u: int, k: int)
    requires OutKept(a, b) && OutKept(b, c) && OutOnly(a, b, t, k) && OutOnly(b, c, u, k)
    requires u == t || u == -1
    ensures OutKept(a, c) && OutOnly(a, c, t, k)
  {
  }

  /** `edge.AddVertices` fills the tail's outgoing slot, if it was free,
      and no other outgoing slot. */
  lemma {:induction false} AddVerticesSlots(p: Pool, t: nat, h: nat, e: Edge)
    requires PoolValid(p) && t < |p.vertices| && h < |p.vertices| && e.weight < |p.web.nodes| && AddVertices(p, t, h, e).Ok?
    ensures var q := AddVertices(p, t, h, e).value.0;
      && OutKept(p, q) && OutOnly(p, q, t, e.vectorId) && q.vertices[t].edges[e.vectorId].0.Some?
  {
    OfferFits(p, t, e);
    var (p1, accepted) := Offer(p, t, e).value;
    OfferSlots(p, t, e);
    if accepted {
      OfferSlots(p1, h, e);
      var p2 := Offer(p1, h, e).value.0;
      if e.head == e.tail {
        DistinctPositions(p, t, h);
      }
      OutTrans(p, p1, p2, t, if p1.vertices[h].position == e.tail then h else -1, e.vectorId);
    }
  }

  /** Changing one slot of one vertex keeps every other slot. */
  lemma {:induction false} SlotSet(p: Pool, q: Pool, i: nat, k: nat, t: int)
    requires i < |p.vertices| && |q.vertices| == |p.vertices| && k < |p.vertices[i].edges|
    requires forall j | 0 <= j < |p.vertices| && j != i :: q.vertices[j] == p.vertices[j]
    requires |q.vertices[i].edges| == |p.vertices[i].edges|
    requires forall k' | 0 <= k' < |p.vertices[i].edges| && k' != k :: q.vertices[i].edges[k'] == p.vertices[i].edges[k']
    requires p.vertices[i].edges[k].0.Some? ==> q.vertices[i].edges[k].0.Some?
    requires t == i || q.vertices[i].edges[k].0 == p.vertices[i].edges[k].0
    ensures OutKept(p, q) && OutOnly(p, q, t, k)
  {
  }

  /** Every outgoing slot filled in `p` is still filled in `q`. */
  predicate OutKept(p: Pool, q: Pool)
  {
    forall j, k | 0 <= j < |p.vertices| && 0 <= k < |p.vertices[j].edges| && p.vertices[j].edges[k].0.Some? ::
      j < |q.vertices| && k < |q.vertices[j].edges| && q.vertices[j].edges[k].0.Some?
  }

  /** The only outgoing slot `q` may have filled beyond `p` is slot `k` of
      vertex `t`. */
  predicate OutOnly(p: Pool, q: Pool, t: int, k: int)
  {
    forall j, k' | 0 <= j < |q.vertices| && 0 <= k' < |q.vertices[j].edges| && q.vertices[j].edges[k'].0.Some? ::
      (j == t && k' == k) || (j < |p.vertices| && k' < |p.vertices[j].edges| && p.vertices[j].edges[k'].0.Some?)
  }

  lemma {:induction false} SetVertexSame(p: Pool, i: nat, v: Vertex, web: Web)
    requires i < |p.vertices| && WebExtends(p.web, web) && |web.nodes| == |p.web.nodes|
    requires v.position == p.vertices[i].position && v.cut == p.vertices[i].cut
    ensures SamePlaces(p, SetVertex(p, i, v, web))
  {
  }

  lemma {:induction false} SamePlacesRefl(p: Pool)
    ensures SamePlaces(p, p)
  {
  }

  /** `SamePlaces` composes. */
  lemma {:induction false} SamePlacesTrans(a: Pool, b: Pool, c: Pool)
    requires SamePlaces(a, b) && SamePlaces(b, c)
    ensures SamePlaces(a, c)
  {
  }

  /** `q` keeps the vertices of `p` where they are, and the pool's
      parameters. */
  predicate Extends(p: Pool, q: Pool)
  {
    && |p.vertices| <= |q.vertices|
    && (forall j | 0 <= j < |p.vertices| :: q.vertices[j].position == p.vertices[j].position)
    && q.condition == p.condition && q.columns == p.columns && q.index.range == p.index.range
  }

  lemma {:induction false} ExtendsTrans(a: Pool, b: Pool, c: Pool)
    requires Extends(a, b) && Extends(b, c)
    ensures Extends(a, c)
  {
  }

  /** Both vertices of a pool hold the positions of the edge's ends. */
  predicate Touches(p: Pool, t: nat, h: nat, e: Edge)
  {
    t < |p.vertices| && h < |p.vertices| && p.vertices[t].position == e.tail && p.vertices[h].position == e.head
  }

  /** `edge.AddVertices(tail_vertex, head_vertex)` with the pool's vertices
      `t` and `h`: the tail vertex is offered the edge first, and only when
      it accepts is the head vertex offered it too. When both ends are one
      vertex, the head's offer meets the slot the tail just filled. */
  function AddVertices(p: Pool, t: nat, h: nat, e: Edge): (r: Result<(Pool, bool)>)
    requires Valid(p.web) && VerticesFit(p) && t < |p.vertices| && h < |p.vertices| && e.weight < |p.web.nodes|
    ensures !Touches(p, t, h, e) <==> r == Fail(TouchError)
    ensures Touches(p, t, h, e) && e.vectorId >= CutSize(p) ==> r == Fail(IndexError)
    ensures Touches(p, t, h, e) && e.vectorId < CutSize(p) ==> r.Ok?
    ensures r.Ok? ==> var (q, accepted) := r.value;
      && e.vectorId < CutSize(p) && Valid(q.web) && VerticesFit(q) && SamePlaces(p, q)
      && (accepted <==> p.vertices[t].edges[e.vectorId].0.None?)
      && (!accepted ==> q == p)
  {
    if p.vertices[t].position != e.tail || p.vertices[h].position != e.head then Fail(TouchError)
    else
      OfferFits(p, t, e);
      match Offer(p, t, e)
      case Fail(err) => Fail(err)
      case Ok((p1, accepted)) =>
        if !accepted then Ok((p, false))
        else
          OfferFits(p1, h, e);
          match Offer(p1, h, e)
          case Fail(err) => Fail(err)
          case Ok((p2, _)) =>
            SamePlacesTrans(p, p1, p2);
            Ok((p2, true))
  }

  /** `AddVertices` keeps a valid pool valid. */
  lemma {:induction false} AddVerticesValid(p: Pool, t: nat, h: nat, e: Edge)
    requires PoolValid(p) && t < |p.vertices| && h < |p.vertices| && e.weight < |p.web.nodes| && AddVertices(p, t, h, e).Ok?
    ensures PoolValid(AddVertices(p, t, h, e).value.0)
  {
    SamePlacesValid(p, AddVertices(p, t, h, e).value.0);
  }

  /** `Block.AddEdge(edge)`: get (or create) the tail vertex, then the head
      vertex, and offer them the edge. An accepted edge joins the block; a
      rejected one has its weight retracted from the edge pool and the last
      node popped from the web. */
  function AddEdge(l: Lattice, b: Block, e: Edge): (r: Result<(Lattice, Block)>)
    requires LatticeValid(l) && e.weight < |l.pool.web.nodes|
    ensures r.Ok? ==> var (l', b') := r.value;
      && b'.dimension == b.dimension && b'.numVectors == b.numVectors
      && (b'.edges == b.edges || b'.edges == b.edges + [e])
      && Extends(l.pool, l'.pool)
  {
    match Endpoints(l.pool, e)
    case Fail(err) => Fail(err)
    case Ok((p2, t, h)) =>
      var r := Settle(p2, l.edgePool, b, t, h, e);
      if r.Ok? then
        ExtendsTrans(l.pool, p2, r.value.0.pool);
        r
      else r
  }

  /** The second half of `Block.AddEdge`, once both end vertices are in the
      pool: offer them the edge, and keep it or retract its weight. */
  function Settle(p: Pool, ep: EdgePool, b: Block, t: nat, h: nat, e: Edge): (r: Result<(Lattice, Block)>)
    requires Valid(p.web) && VerticesFit(p) && t < |p.vertices| && h < |p.vertices| && e.weight < |p.web.nodes|
    ensures r.Ok? ==> var (l', b') := r.value;
      && b'.dimension == b.dimension && b'.numVectors == b.numVectors
      && (b'.edges == b.edges || b'.edges == b.edges + [e])
      && Extends(p, l'.pool)
  {
    match AddVertices(p, t, h, e)
    case Fail(err) => Fail(err)
    case Ok((q, accepted)) =>
      if accepted then Ok((Lattice(q, ep), b.(edges := b.edges + [e])))
      else
        match Retract(Lattice(q, ep))
        case Fail(err) => Fail(err)
        case Ok(l') => Ok((l', b))
  }

  /** The rejection branch of `Block.AddEdge`: the last weight leaves the
      edge pool and the last node leaves the web. */
  function Retract(l: Lattice): (r: Result<Lattice>)
    ensures r.Ok? ==> r.value.pool == l.pool.(web := r.value.pool.web)
  {
    match RemoveEdgeWeight(l.edgePool)
    case Fail(err) => Fail(err)
    case Ok(ep) =>
      match RemoveNode(l.pool.web)
      case Fail(err) => Fail(err)
      case Ok(web) => Ok(Lattice(l.pool.(web := web), ep))
  }

  /** The two `GetVertex` calls of `Block.AddEdge`: the tail vertex, then
      the head vertex, each created when missing. */
  function Endpoints(p: Pool, e: Edge): (r: Result<(Pool, nat, nat)>)
    requires PoolValid(p)
    ensures r.Ok? ==> var (q, t, h) := r.value;
      && Valid(q.web) && VerticesFit(q) && Extends(p, q) && WebExtends(p.web, q.web) && Touches(q, t, h, e)
  {
    match GetVertex(p, e.tail)
    case Fail(err) => Fail(err)
    case Ok((p1, t)) =>
      GetVertexGrows(p, e.tail);
      match GetVertex(p1, e.head)
      case Fail(err) => Fail(err)
      case Ok((p2, h)) =>
        GetVertexGrows(p1, e.head);
        Ok((p2, t, h))
  }

  /** `Endpoints` keeps a valid pool valid. */
  lemma {:induction false} EndpointsValid(p: Pool, e: Edge)
    requires PoolValid(p) && Endpoints(p, e).Ok?
    ensures PoolValid(Endpoints(p, e).value.0)
  {
    var p1 := GetVertex(p, e.tail).value.0;
    assert PoolValid(p1);
  }

  /** `GetVertex` fills no outgoing slot: the vertices it keeps keep their
      slots, and a new vertex has none filled. */
  lemma {:induction false} EndpointsSlots(p: Pool, e: Edge)
    requires PoolValid(p) && Endpoints(p, e).Ok?
    ensures var q := Endpoints(p, e).value.0; OutKept(p, q) && OutOnly(p, q, -1, 0)
  {
    var (p1, t) := GetVertex(p, e.tail).value;
    GetVertexSlots(p, e.tail);
    GetVertexSlots(p1, e.head);
    OutTrans(p, p1, GetVertex(p1, e.head).value.0, -1, -1, 0);
  }

  lemma {:induction false} GetVertexSlots(p: Pool, position: Position)
    requires PoolValid(p) && GetVertex(p, position).Ok?
    ensures var q := GetVertex(p, position).value.0; OutKept(p, q) && OutOnly(p, q, -1, 0)
  {
    if j :| 0 <= j < |p.vertices| && p.vertices[j].position == position {
      GetVertexFound(p, position, j);
    } else {
      GetVertexNew(p, position);
      AppendedSlots(p, AddVertex(p, position, CutWeb(p.web, p.condition, p.columns)));
    }
  }

  lemma {:induction false} AppendedSlots(p: Pool, q: Pool)
    requires |q.vertices| == |p.vertices| + 1 && q.vertices[..|p.vertices|] == p.vertices
    requires forall k | 0 <= k < |q.vertices[|p.vertices|].edges| :: q.vertices[|p.vertices|].edges[k] == (None, None)
    ensures OutKept(p, q) && OutOnly(p, q, -1, 0)
  {
    assert forall j | 0 <= j < |p.vertices| :: q.vertices[j] == p.vertices[j];
  }

  // ---------------------------------------------------------------------
  // One displacement per vector
  // ---------------------------------------------------------------------

  /** Some vertex of the pool is at the position. */
  predicate Located(p: Pool, position: Position)
  {
    exists j | 0 <= j < |p.vertices| :: p.vertices[j].position == position
  }

  /** Every vertex at the position has its outgoing slot `k` filled. */
  predicate Filled(p: Pool, position: Position, k: nat)
  {
    forall j | 0 <= j < |p.vertices| && p.vertices[j].position == position ::
      k < |p.vertices[j].edges| && p.vertices[j].edges[k].0.Some?
  }

  /** The edges of vector `k` all run along `d[k]`: wherever a vertex has
      its outgoing slot `k` filled, the vertex `d[k]` further on exists. */
  predicate Consistent(p: Pool, d: seq<seq<int>>)
  {
    forall j, k {:trigger p.vertices[j].edges[k]} | 0 <= j < |p.vertices| && 0 <= k < |p.vertices[j].edges| && p.vertices[j].edges[k].0.Some? ::
      k < |d| && |d[k]| == |p.vertices[j].position| && Located(p, Translate(p.vertices[j].position, d[k]))
  }

  /** The edge runs along its vector's displacement. */
  predicate Along(e: Edge, d: seq<seq<int>>)
  {
    e.vectorId < |d| && |d[e.vectorId]| == |e.tail| && e.head == Translate(e.tail, d[e.vectorId])
  }

  /** The pool can place vertices: a dimension and a bucket range to index
      them by. */
  predicate Usable(p: Pool)
  {
    Dimension(p) > 0 && p.index.range != 0
  }

  lemma {:induction false} LocatedKept(p: Pool, q: Pool, position: Position)
    requires Extends(p, q) && Located(p, position)
    ensures Located(q, position)
  {
    var j :| 0 <= j < |p.vertices| && p.vertices[j].position == position;
    assert q.vertices[j].position == position;
  }

  /** A pool that fills at most slot `k` of vertex `t`, where the vertex
      `d[k]` further on exists, stays consistent. */
  lemma {:induction false} ConsistentKept(p: Pool, q: Pool, d: seq<seq<int>>, t: int, k: int)
    requires Consistent(p, d) && Extends(p, q) && OutOnly(p, q, t, k)
    requires 0 <= t < |q.vertices| ==> 0 <= k < |d| && |d[k]| == |q.vertices[t].position| && Located(q, Translate(q.vertices[t].position, d[k]))
    ensures Consistent(q, d)
  {
    forall j, k' | 0 <= j < |q.vertices| && 0 <= k' < |q.vertices[j].edges| && q.vertices[j].edges[k'].0.Some?
      ensures k' < |d| && |d[k']| == |q.vertices[j].position| && Located(q, Translate(q.vertices[j].position, d[k']))
    {
      if !(j == t && k' == k) {
        assert j < |p.vertices| && k' < |p.vertices[j].edges| && p.vertices[j].edges[k'].0.Some?;
        assert q.vertices[j].position == p.vertices[j].position;
        LocatedKept(p, q, Translate(p.vertices[j].position, d[k']));
      }
    }
  }

  /** Under one displacement per vector, an edge whose tail vertex already
      has the slot filled finds both of its ends in place: `GetVertex`
      created nothing. */
  lemma {:induction false} EndpointsFound(p: Pool, e: Edge, d: seq<seq<int>>)
    requires PoolValid(p) && Consistent(p, d) && Along(e, d) && Endpoints(p, e).Ok?
    requires var (q, t, _) := Endpoints(p, e).value; e.vectorId < |q.vertices[t].edges| && q.vertices[t].edges[e.vectorId].0.Some?
    ensures Endpoints(p, e).value.0 == p
  {
    var (p1, t) := GetVertex(p, e.tail).value;
    GetVertexGrows(p, e.tail);
    var (p2, h) := GetVertex(p1, e.head).value;
    GetVertexGrows(p1, e.head);
    assert p2.vertices[t] == p1.vertices[t];
    if p1 != p {
      assert false;
    }
    assert Located(p, e.head);
  }

  /** `block.AddEdge(block.CreateEdge(first, second, vector_id, num_edges))`,
      the way every construction adds an edge: `first` is the head. */
  function Place(l: Lattice, b: Block, first: Position, second: Position, vectorId: nat, numEdges: int): (r: Result<(Lattice, Block)>)
    requires LatticeValid(l)
    ensures r.Ok? ==> var (l', b') := r.value;
      && b'.dimension == b.dimension && b'.numVectors == b.numVectors && Extends(l.pool, l'.pool)
      && (b'.edges == b.edges || b'.edges == b.edges + [Edge(first, second, vectorId, numEdges, |l.pool.web.nodes|)])
  {
    var (l1, e) := CreateEdge(l, first, second, vectorId, numEdges);
    AddEdge(l1, b, e)
  }

  /** Both ends of the dimension can always be got in a usable pool. */
  lemma {:induction false} EndpointsOk(p: Pool, e: Edge)
    requires PoolValid(p) && Usable(p) && |e.tail| == Dimension(p) && |e.head| == Dimension(p)
    ensures Endpoints(p, e).Ok?
  {
    var p1 := GetVertex(p, e.tail).value.0;
    assert GetVertex(p1, e.head).Ok?;
  }

  /** The tail vertex `Endpoints` returns is the one the pool had, when it
      had one, and otherwise a new vertex with every slot free. */
  lemma {:induction false} EndpointsTail(p: Pool, e: Edge)
    requires PoolValid(p) && Endpoints(p, e).Ok?
    ensures var (q, t, _) := Endpoints(p, e).value;
      && (Located(p, e.tail) ==> t < |p.vertices| && q.vertices[t] == p.vertices[t])
      && (!Located(p, e.tail) ==> forall k | 0 <= k < |q.vertices[t].edges| :: q.vertices[t].edges[k].0.None?)
  {
    var (p1, t) := GetVertex(p, e.tail).value;
    GetVertexGrows(p, e.tail);
    GetVertexGrows(p1, e.head);
  }

  /** A filled slot of a vertex is filled at every vertex of its position,
      there being only that one. */
  lemma {:induction false} FilledAt(p: Pool, t: nat, k: nat)
    requires PoolValid(p) && t < |p.vertices| && k < |p.vertices[t].edges| && p.vertices[t].edges[k].0.Some?
    ensures Filled(p, p.vertices[t].position, k)
  {
    forall j | 0 <= j < |p.vertices| && p.vertices[j].position == p.vertices[t].position
      ensures k < |p.vertices[j].edges| && p.vertices[j].edges[k].0.Some?
    {
      DistinctPositions(p, j, t);
    }
  }

  /** An edge whose tail vertex exists with the slot filled is rejected,
      and the rejection retracts its weight: the pools are as they were. */
  lemma {:induction false} PlaceRejected(l: Lattice, b: Block, head: Position, tail: Position, vectorId: nat, numEdges: int, d: seq<seq<int>>)
    requires LatticeValid(l) && Usable(l.pool) && Consistent(l.pool, d)
    requires |tail| == Dimension(l.pool) && vectorId < CutSize(l.pool) && Along(Edge(head, tail, vectorId, numEdges, 0), d)
    requires Located(l.pool, tail) && Filled(l.pool, tail, vectorId)
    ensures Place(l, b, head, tail, vectorId, numEdges) == Ok((l, b))
  {
    var (l1, e) := CreateEdge(l, head, tail, vectorId, numEdges);
    assert l1.pool.vertices == l.pool.vertices;
    assert Consistent(l1.pool, d) && Located(l1.pool, tail) && Filled(l1.pool, tail, vectorId);
    RefusedBoth(l1.pool, e, d);
    CreateEdgeRetract(l, head, tail, vectorId, numEdges);
  }

  /** At the level of the vertex pool: an edge along its displacement whose
      tail vertex exists with the slot filled finds both ends in place and
      is refused, the pool unchanged. */
  lemma {:induction false} RefusedBoth(p: Pool, e: Edge, d: seq<seq<int>>)
    requires PoolValid(p) && Usable(p) && Consistent(p, d) && Along(e, d)
    requires |e.tail| == Dimension(p) && e.vectorId < CutSize(p) && e.weight < |p.web.nodes|
    requires Located(p, e.tail) && Filled(p, e.tail, e.vectorId)
    ensures Endpoints(p, e).Ok? && Endpoints(p, e).value.0 == p
    ensures var (_, t, h) := Endpoints(p, e).value; AddVertices(p, t, h, e) == Ok((p, false))
  {
    EndpointsOk(p, e);
    EndpointsTail(p, e);
    EndpointsFound(p, e, d);
  }

  /** Any other edge is accepted: it joins the block, both its ends exist,
      its tail's slot is filled, and the pools stay valid and consistent. */
  lemma {:induction false} PlaceAccepted(l: Lattice, b: Block, head: Position, tail: Position, vectorId: nat, numEdges: int, d: seq<seq<int>>)
    requires LatticeValid(l) && Usable(l.pool) && Consistent(l.pool, d)
    requires |tail| == Dimension(l.pool) && vectorId < CutSize(l.pool) && Along(Edge(head, tail, vectorId, numEdges, 0), d)
    requires !(Located(l.pool, tail) && Filled(l.pool, tail, vectorId))
    ensures Place(l, b, head, tail, vectorId, numEdges).Ok?
    ensures var (l', b') := Place(l, b, head, tail, vectorId, numEdges).value;
      && b'.edges == b.edges + [Edge(head, tail, vectorId, numEdges, |l.pool.web.nodes|)]
      && LatticeValid(l') && Consistent(l'.pool, d) && OutKept(l.pool, l'.pool)
      && Located(l'.pool, tail) && Located(l'.pool, head) && Filled(l'.pool, tail, vectorId)
  {
    var (l1, e) := CreateEdge(l, head, tail, vectorId, numEdges);
    assert l1.pool.vertices == l.pool.vertices;
    assert Consistent(l1.pool, d) && Located(l1.pool, tail) == Located(l.pool, tail) && Filled(l1.pool, tail, vectorId) == Filled(l.pool, tail, vectorId);
    OfferedBoth(l1.pool, e, d);
    assert OutKept(l.pool, l1.pool);
  }

  /** At the level of the vertex pool: an edge along its displacement whose
      tail slot is free is taken by both its end vertices. */
  lemma {:induction false} OfferedBoth(p: Pool, e: Edge, d: seq<seq<int>>)
    requires PoolValid(p) && Usable(p) && Consistent(p, d) && Along(e, d)
    requires |e.tail| == Dimension(p) && e.vectorId < CutSize(p) && e.weight < |p.web.nodes|
    requires !(Located(p, e.tail) && Filled(p, e.tail, e.vectorId))
    ensures Endpoints(p, e).Ok?
    ensures var (p2, t, h) := Endpoints(p, e).value;
      && AddVertices(p2, t, h, e).Ok? && AddVertices(p2, t, h, e).value.1
      && var q := AddVertices(p2, t, h, e).value.0;
      && PoolValid(q) && Consistent(q, d) && OutKept(p, q)
      && Located(q, e.tail) && Located(q, e.head) && Filled(q, e.tail, e.vectorId)
  {
    EndpointsOk(p, e);
    EndpointsTail(p, e);
    EndpointsSlots(p, e);
    EndpointsValid(p, e);
    var (p2, t, h) := Endpoints(p, e).value;
    ConsistentKept(p, p2, d, -1, 0);
    if Located(p, e.tail) && p.vertices[t].edges[e.vectorId].0.Some? {
      FilledAt(p, t, e.vectorId);
    }
    assert AddVertices(p2, t, h, e).value.1;
    TakenBoth(p2, t, h, e, d);
    OutKeptTrans(p, p2, AddVertices(p2, t, h, e).value.0);
  }

  lemma {:induction false} OutKeptTrans(a: Pool, b: Pool, c: Pool)
    requires OutKept(a, b) && OutKept(b, c)
    ensures OutKept(a, c)
  {
  }

  /** `AddVertices` accepting an edge along its displacement keeps the pool
      consistent and leaves both ends in place with the tail slot filled. */
  lemma {:induction false} TakenBoth(p: Pool, t: nat, h: nat, e: Edge, d: seq<seq<int>>)
    requires PoolValid(p) && Consistent(p, d) && Along(e, d) && Touches(p, t, h, e) && e.weight < |p.web.nodes|
    requires AddVertices(p, t, h, e).Ok?
    ensures var q := AddVertices(p, t, h, e).value.0;
      && PoolValid(q) && Consistent(q, d) && OutKept(p, q) && OutOnly(p, q, t, e.vectorId)
      && Located(q, e.tail) && Located(q, e.head) && Filled(q, e.tail, e.vectorId)
  {
    AddVerticesSlots(p, t, h, e);
    AddVerticesValid(p, t, h, e);
    var q := AddVertices(p, t, h, e).value.0;
    assert q.vertices[h].position == e.head && q.vertices[t].position == e.tail;
    ConsistentKept(p, q, d, t, e.vectorId);
    FilledAt(q, t, e.vectorId);
  }

  // ---------------------------------------------------------------------
  // Blocks built under one displacement per vector
  // ---------------------------------------------------------------------

  /** Every edge of the block runs along its vector's displacement, in the
      pool's dimension, with a vector the cuts have a slot for. */
  predicate BlockFits(l: Lattice, b: Block, d: seq<seq<int>>)
  {
    forall i | 0 <= i < |b.edges| ::
      Along(b.edges[i], d) && |b.edges[i].tail| == Dimension(l.pool) && b.edges[i].vectorId < CutSize(l.pool)
  }

  /** Every edge of the block has both ends in the pool and fills its tail's
      outgoing slot. */
  predicate Placed(l: Lattice, b: Block)
  {
    forall i | 0 <= i < |b.edges| ::
      Located(l.pool, b.edges[i].tail) && Located(l.pool, b.edges[i].head) && Filled(l.pool, b.edges[i].tail, b.edges[i].vectorId)
  }

  /** No two edges of the block leave one position along one vector. */
  predicate Distinct(b: Block)
  {
    forall i, j | 0 <= i < j < |b.edges| :: b.edges[i].tail != b.edges[j].tail || b.edges[i].vectorId != b.edges[j].vectorId
  }

  /** The invariant every construction keeps: valid pools that can place
      vertices, one displacement per vector, and a block of distinct edges
      along those displacements, each in place. */
  predicate Grounded(l: Lattice, b: Block, d: seq<seq<int>>)
  {
    && LatticeValid(l) && Usable(l.pool) && Consistent(l.pool, d) && b.dimension == Dimension(l.pool)
    && BlockFits(l, b, d) && Placed(l, b) && Distinct(b)
  }

  /** A filled slot stays filled at its position in a pool that only grew. */
  lemma {:induction false} FilledKept(p: Pool, q: Pool, position: Position, k: nat)
    requires PoolValid(q) && Extends(p, q) && OutKept(p, q) && Located(p, position) && Filled(p, position, k)
    ensures Filled(q, position, k)
  {
    var j :| 0 <= j < |p.vertices| && p.vertices[j].position == position;
    assert q.vertices[j].position == position;
    FilledAt(q, j, k);
  }

  /** The edges of a block stay in place while the pool only grows. */
  lemma {:induction false} PlacedKept(l: Lattice, l': Lattice, b: Block)
    requires Placed(l, b) && PoolValid(l'.pool) && Extends(l.pool, l'.pool) && OutKept(l.pool, l'.pool)
    ensures Placed(l', b)
  {
    forall i | 0 <= i < |b.edges|
      ensures Located(l'.pool, b.edges[i].tail) && Located(l'.pool, b.edges[i].head) && Filled(l'.pool, b.edges[i].tail, b.edges[i].vectorId)
    {
      LocatedKept(l.pool, l'.pool, b.edges[i].tail);
      LocatedKept(l.pool, l'.pool, b.edges[i].head);
      FilledKept(l.pool, l'.pool, b.edges[i].tail, b.edges[i].vectorId);
    }
  }

  /** Placing an edge along its displacement keeps the invariant. The edge
      is taken exactly when no vertex at its tail has the slot filled yet;
      otherwise nothing changes at all. Either way its ends are in place
      afterwards. */
  lemma {:induction false} PlaceStep(l: Lattice, b: Block, head: Position, tail: Position, vectorId: nat, numEdges: int, d: seq<seq<int>>)
    requires Grounded(l, b, d)
    requires |tail| == Dimension(l.pool) && vectorId < CutSize(l.pool) && Along(Edge(head, tail, vectorId, numEdges, 0), d)
    ensures Place(l, b, head, tail, vectorId, numEdges).Ok?
    ensures var (l', b') := Place(l, b, head, tail, vectorId, numEdges).value;
      && Grounded(l', b', d) && Extends(l.pool, l'.pool) && OutKept(l.pool, l'.pool)
      && Located(l'.pool, tail) && Located(l'.pool, head) && Filled(l'.pool, tail, vectorId)
      && (Located(l.pool, tail) && Filled(l.pool, tail, vectorId) ==> l' == l && b' == b)
      && (!(Located(l.pool, tail) && Filled(l.pool, tail, vectorId)) ==>
            b'.edges == b.edges + [Edge(head, tail, vectorId, numEdges, |l.pool.web.nodes|)])
  {
    if Located(l.pool, tail) && Filled(l.pool, tail, vectorId) {
      PlaceRejected(l, b, head, tail, vectorId, numEdges, d);
      assert OutKept(l.pool, l.pool);
      assert Extends(l.pool, l.pool);
    } else {
      PlaceAccepted(l, b, head, tail, vectorId, numEdges, d);
      var (l', b') := Place(l, b, head, tail, vectorId, numEdges).value;
      AcceptedGrounded(l, b, l', b', Edge(head, tail, vectorId, numEdges, |l.pool.web.nodes|), d);
    }
  }

  /** The accepted half of `PlaceStep`: the appended edge fits, sits in
      place, and differs from every earlier edge in tail or vector. */
  lemma {:induction false} AcceptedGrounded(l: Lattice, b: Block, l': Lattice, b': Block, e: Edge, d: seq<seq<int>>)
    requires Grounded(l, b, d) && LatticeValid(l') && Consistent(l'.pool, d)
    requires Extends(l.pool, l'.pool) && OutKept(l.pool, l'.pool)
    requires b'.dimension == b.dimension && b'.edges == b.edges + [e]
    requires Along(e, d) && |e.tail| == Dimension(l.pool) && e.vectorId < CutSize(l.pool)
    requires !(Located(l.pool, e.tail) && Filled(l.pool, e.tail, e.vectorId))
    requires Located(l'.pool, e.tail) && Located(l'.pool, e.head) && Filled(l'.pool, e.tail, e.vectorId)
    ensures Grounded(l', b', d)
  {
    PlacedKept(l, l', b);
    PlacedAppend(l', b, b', e);
    FitsAppend(l, l', b, b', e, d);
    DistinctAppend(l, b, b', e);
  }

  lemma {:induction false} PlacedAppend(l: Lattice, b: Block, b': Block, e: Edge)
    requires Placed(l, b) && b'.edges == b.edges + [e]
    requires Located(l.pool, e.tail) && Located(l.pool, e.head) && Filled(l.pool, e.tail, e.vectorId)
    ensures Placed(l, b')
  {
    assert forall i | 0 <= i < |b.edges| :: b'.edges[i] == b.edges[i];
  }

  lemma {:induction false} FitsAppend(l: Lattice, l': Lattice, b: Block, b': Block, e: Edge, d: seq<seq<int>>)
    requires BlockFits(l, b, d) && b'.edges == b.edges + [e] && Extends(l.pool, l'.pool)
    requires Along(e, d) && |e.tail| == Dimension(l.pool) && e.vectorId < CutSize(l.pool)
    ensures BlockFits(l', b', d)
  {
    assert forall i | 0 <= i < |b.edges| :: b'.edges[i] == b.edges[i];
  }

  /** An edge whose tail slot was free is none of the block's edges, all
      of whose tail slots are filled. */
  lemma {:induction false} DistinctAppend(l: Lattice, b: Block, b': Block, e: Edge)
    requires Placed(l, b) && Distinct(b) && b'.edges == b.edges + [e]
    requires !(Located(l.pool, e.tail) && Filled(l.pool, e.tail, e.vectorId))
    ensures Distinct(b')
  {
    forall i, j | 0 <= i < j < |b'.edges|
      ensures b'.edges[i].tail != b'.edges[j].tail || b'.edges[i].vectorId != b'.edges[j].vectorId
    {
      assert b'.edges[i] == b.edges[i];
      if j < |b.edges| {
        assert b'.edges[j] == b.edges[j];
      }
    }
  }

  // ---------------------------------------------------------------------
  // Shifting a block
  // ---------------------------------------------------------------------

  /** The entry a Python subscript `x[i]` reads in a list of length `n`:
      negative subscripts count from the end, and anything outside raises
      `IndexError`. */
  function PyIndex(n: nat, i: int): (r: Result<nat>)
    ensures r.Ok? <==> -(n as int) <= i < n
    ensures r.Ok? ==> r.value < n && (r.value == i || r.value == i + n)
  {
    if 0 <= i < n then Ok(i)
    else if -(n as int) <= i < 0 then Ok(i + n)
    else Fail(IndexError)
  }

  /** `position` moved by `amount` along coordinate `k`. */
  function Shift(position: Position, amount: int, k: nat): (r: Position)
    requires k < |position|
    ensures |r| == |position| && r[k] == position[k] + amount
    ensures forall i | 0 <= i < |position| && i != k :: r[i] == position[i]
  {
    position[k := position[k] + amount]
  }

  /** Moving both ends of an edge by the same amount keeps it along its
      displacement. */
  lemma {:induction false} ShiftAlong(e: Edge, amount: int, k: nat, d: seq<seq<int>>)
    requires Along(e, d) && k < |e.tail|
    ensures Along(Edge(Shift(e.head, amount, k), Shift(e.tail, amount, k), e.vectorId, e.numEdges, 0), d)
  {
    var h := Shift(e.head, amount, k);
    var t := Shift(e.tail, amount, k);
    assert h == Translate(t, d[e.vectorId]);
  }

  /** Edge `e` moved along coordinate `k` is edge `f`, up to its weight. */
  predicate IsShiftOf(f: Edge, e: Edge, amount: int, k: nat)
  {
    && k < |e.head| && k < |e.tail|
    && f.head == Shift(e.head, amount, k) && f.tail == Shift(e.tail, amount, k)
    && f.vectorId == e.vectorId && f.numEdges == e.numEdges
  }

  /** The shifted copy of `e` has both ends in the pool and fills its
      tail's slot: it is in the block or was refused as already there. */
  predicate Covered(l: Lattice, e: Edge, amount: int, k: nat)
  {
    && k < |e.head| && k < |e.tail|
    && Located(l.pool, Shift(e.tail, amount, k)) && Located(l.pool, Shift(e.head, amount, k))
    && Filled(l.pool, Shift(e.tail, amount, k), e.vectorId)
  }

  /** Coverage survives pools that only grow. */
  lemma {:induction false} CoveredKept(l: Lattice, l': Lattice, e: Edge, amount: int, k: nat)
    requires Covered(l, e, amount, k) && PoolValid(l'.pool) && Extends(l.pool, l'.pool) && OutKept(l.pool, l'.pool)
    ensures Covered(l', e, amount, k)
  {
    LocatedKept(l.pool, l'.pool, Shift(e.tail, amount, k));
    LocatedKept(l.pool, l'.pool, Shift(e.head, amount, k));
    FilledKept(l.pool, l'.pool, Shift(e.tail, amount, k), e.vectorId);
  }

  /** `f` is the shifted copy of one of the edges `src`. */
  predicate ShiftedFrom(f: Edge, src: seq<Edge>, amount: int, k: nat)
  {
    exists j | 0 <= j < |src| :: IsShiftOf(f, src[j], amount, k)
  }

  /** A move by nothing leaves a position where it is. */
  lemma {:induction false} ShiftZero(position: Position, k: nat)
    requires k < |position|
    ensures Shift(position, 0, k) == position
  {
  }

  /** One round of the loop of `AddShift`: edge `e` moved by `amount` along
      coordinate `k` and placed. The pools only grow, the copy is covered
      afterwards, and it is the only edge the block may gain; a copy that
      was covered already changes nothing. */
  method ShiftEdge(l: Lattice, b: Block, e: Edge, amount: int, k: nat, d: seq<seq<int>>) returns (l1: Lattice, b1: Block)
    requires Grounded(l, b, d) && Along(e, d) && |e.tail| == Dimension(l.pool) && e.vectorId < CutSize(l.pool) && k < |e.tail|
    ensures Grounded(l1, b1, d) && Extends(l.pool, l1.pool) && OutKept(l.pool, l1.pool)
    ensures b1.dimension == b.dimension && b1.numVectors == b.numVectors && b.edges <= b1.edges
    ensures Covered(l1, e, amount, k)
    ensures b1.edges == b.edges || (|b1.edges| == |b.edges| + 1 && IsShiftOf(b1.edges[|b.edges|], e, amount, k))
    ensures Covered(l, e, amount, k) ==> l1 == l && b1 == b
  {
    ShiftAlong(e, amount, k, d);
    var head := Shift(e.head, amount, k);
    var tail := Shift(e.tail, amount, k);
    PlaceStep(l, b, head, tail, e.vectorId, e.numEdges, d);
    var r := Place(l, b, head, tail, e.vectorId, e.numEdges);
    l1, b1 := r.value.0, r.value.1;
  }

  /** The loop of `AddShift`: each edge the block had on entry (the ones
      the loop appends are not revisited) is moved by `amount` along
      `dimension` and placed as a new edge. The subscript fails on the first
      edge when the dimension is outside the positions. */
  method ShiftLoop(l: Lattice, b: Block, amount: int, dimension: int, d: seq<seq<int>>) returns (r: Result<(Lattice, Block)>)
    requires Grounded(l, b, d)
    ensures !(-(b.dimension as int) <= dimension < b.dimension) ==> r == if |b.edges| == 0 then Ok((l, b)) else Fail(IndexError)
    ensures -(b.dimension as int) <= dimension < b.dimension ==> r.Ok? && ShiftPost(l, b, r.value.0, r.value.1, amount, PyIndex(b.dimension, dimension).value, d)
  {
    var num := |b.edges|;
    var l', b' := l, b;
    var i := 0;
    ghost var c := PyIndex(b.dimension, dimension);
    while i < num
      invariant 0 <= i <= num && Grounded(l', b', d)
      invariant b'.dimension == b.dimension && b'.numVectors == b.numVectors && b.edges <= b'.edges
      invariant Extends(l.pool, l'.pool) && OutKept(l.pool, l'.pool)
      invariant i == 0 || amount == 0 ==> l' == l && b' == b
      invariant i > 0 ==> c.Ok?
      invariant c.Ok? ==> forall j | 0 <= j < i :: Covered(l', b.edges[j], amount, c.value)
      invariant c.Ok? ==> forall m | |b.edges| <= m < |b'.edges| :: ShiftedFrom(b'.edges[m], b.edges, amount, c.value)
    {
      var e := b'.edges[i];
      assert e == b.edges[i] && |e.head| == b.dimension && |e.tail| == b.dimension;
      // The head is subscripted first; the tail, of the same length, then
      // always succeeds.
      var kh := PyIndex(|e.head|, dimension);
      if kh.Fail? {
        return Fail(kh.error);
      }
      var k := kh.value;
      assert c == Ok(k);
      if amount == 0 {
        ShiftZero(e.head, k);
        ShiftZero(e.tail, k);
      }
      var l1, b1 := ShiftEdge(l', b', e, amount, k, d);
      ShiftRound(l, b, l', b', l1, b1, amount, k, i);
      l', b', i := l1, b1, i + 1;
    }
    r := Ok((l', b'));
  }

  /** The guard of `AddShift` as the source writes it: only a dimension
      above the block's is refused. */
  predicate ShiftRefusedAsWritten(dimension: int, blockDimension: nat)
  {
    dimension > blockDimension
  }

  /** The guard as its message describes it: a dimension outside the
      block, the block's own count included, is refused. */
  predicate ShiftRefused(dimension: int, blockDimension: nat)
  {
    dimension >= blockDimension
  }

  /** The block's own dimension passes the written guard, and the subscript
      it leads to fails; the intended guard refuses it, and it refuses
      nothing the subscript would accept. */
  lemma {:induction false} ShiftGuardGap(n: nat)
    ensures !ShiftRefusedAsWritten(n, n) && PyIndex(n, n) == Fail(IndexError)
    ensures ShiftRefused(n, n)
    ensures forall dimension: int :: ShiftRefused(dimension, n) ==> PyIndex(n, dimension).Fail?
    ensures forall dimension: int :: ShiftRefusedAsWritten(dimension, n) ==> ShiftRefused(dimension, n)
  {
  }

  /** `AddShift(amount, dimension)` with the guard its message describes: a
      dimension outside the block is refused before any edge moves; a
      negative one beyond the positions fails on the first subscript. */
  method AddShift(l: Lattice, b: Block, amount: int, dimension: int, d: seq<seq<int>>) returns (r: Result<(Lattice, Block)>)
    requires Grounded(l, b, d)
    ensures ShiftRefused(dimension, b.dimension) ==> r == Fail(DimensionError)
    ensures dimension < -(b.dimension as int) ==> r == if |b.edges| == 0 then Ok((l, b)) else Fail(IndexError)
    ensures -(b.dimension as int) <= dimension < b.dimension ==>
      r.Ok? && ShiftPost(l, b, r.value.0, r.value.1, amount, PyIndex(b.dimension, dimension).value, d)
  {
    if ShiftRefused(dimension, b.dimension) {
      return Fail(DimensionError);
    }
    r := ShiftLoop(l, b, amount, dimension, d);
  }

  /** `AddShift(amount, dimension)` as written: the block's own dimension
      gets past the guard and fails on the subscript, or, in a block
      without edges, does nothing. */
  method AddShiftAsWritten(l: Lattice, b: Block, amount: int, dimension: int, d: seq<seq<int>>) returns (r: Result<(Lattice, Block)>)
    requires Grounded(l, b, d)
    ensures ShiftRefusedAsWritten(dimension, b.dimension) ==> r == Fail(DimensionError)
    ensures dimension == b.dimension ==> r == if |b.edges| == 0 then Ok((l, b)) else Fail(IndexError)
    ensures dimension < -(b.dimension as int) ==> r == if |b.edges| == 0 then Ok((l, b)) else Fail(IndexError)
    ensures -(b.dimension as int) <= dimension < b.dimension ==>
      r.Ok? && ShiftPost(l, b, r.value.0, r.value.1, amount, PyIndex(b.dimension, dimension).value, d)
  {
    if ShiftRefusedAsWritten(dimension, b.dimension) {
      return Fail(DimensionError);
    }
    r := ShiftLoop(l, b, amount, dimension, d);
  }

  /** What the loop of `AddShift` leaves, moving along coordinate `k`: the
      invariant kept, pools that only grew, the block's edges kept in front,
      the shifted copy of each of them covered, every added edge such a
      copy, and nothing changed by a move of zero. */
  predicate ShiftPost(l: Lattice, b: Block, l': Lattice, b': Block, amount: int, k: nat, d: seq<seq<int>>)
  {
    && Grounded(l', b', d) && Extends(l.pool, l'.pool) && OutKept(l.pool, l'.pool)
    && b'.dimension == b.dimension && b'.numVectors == b.numVectors && b.edges <= b'.edges
    && (forall j | 0 <= j < |b.edges| :: Covered(l', b.edges[j], amount, k))
    && (forall m | |b.edges| <= m < |b'.edges| :: ShiftedFrom(b'.edges[m], b.edges, amount, k))
    && (amount == 0 ==> l' == l && b' == b)
  }

  /** The loop's facts carry over one round. */
  lemma {:induction false} ShiftRound(l: Lattice, b: Block, l': Lattice, b': Block, l1: Lattice, b1: Block, amount: int, k: nat, i: nat)
    requires i < |b.edges| && b.edges <= b'.edges && b'.edges <= b1.edges && PoolValid(l1.pool)
    requires Extends(l.pool, l'.pool) && OutKept(l.pool, l'.pool) && Extends(l'.pool, l1.pool) && OutKept(l'.pool, l1.pool)
    requires Covered(l1, b.edges[i], amount, k)
    requires forall j | 0 <= j < i :: Covered(l', b.edges[j], amount, k)
    requires forall m | |b.edges| <= m < |b'.edges| :: ShiftedFrom(b'.edges[m], b.edges, amount, k)
    requires b1.edges == b'.edges || (|b1.edges| == |b'.edges| + 1 && IsShiftOf(b1.edges[|b'.edges|], b.edges[i], amount, k))
    ensures Extends(l.pool, l1.pool) && OutKept(l.pool, l1.pool) && b.edges <= b1.edges
    ensures forall j | 0 <= j < i + 1 :: Covered(l1, b.edges[j], amount, k)
    ensures forall m | |b.edges| <= m < |b1.edges| :: ShiftedFrom(b1.edges[m], b.edges, amount, k)
  {
    ExtendsTrans(l.pool, l'.pool, l1.pool);
    OutKeptTrans(l.pool, l'.pool, l1.pool);
    PrefixTrans(b.edges, b'.edges, b1.edges);
    CoverRound(b, l', l1, amount, k, i);
    CopyRound(b, b', b1, amount, k, i);
  }

  lemma {:induction false} CoverRound(b: Block, l': Lattice, l1: Lattice, amount: int, k: nat, i: nat)
    requires i < |b.edges| && PoolValid(l1.pool) && Extends(l'.pool, l1.pool) && OutKept(l'.pool, l1.pool)
    requires Covered(l1, b.edges[i], amount, k)
    requires forall j | 0 <= j < i :: Covered(l', b.edges[j], amount, k)
    ensures forall j | 0 <= j < i + 1 :: Covered(l1, b.edges[j], amount, k)
  {
    forall j | 0 <= j < i
      ensures Covered(l1, b.edges[j], amount, k)
    {
      CoveredKept(l', l1, b.edges[j], amount, k);
    }
  }

  lemma {:induction false} CopyRound(b: Block, b': Block, b1: Block, amount: int, k: nat, i: nat)
    requires i < |b.edges| && b.edges <= b'.edges && b'.edges <= b1.edges
    requires forall m | |b.edges| <= m < |b'.edges| :: ShiftedFrom(b'.edges[m], b.edges, amount, k)
    requires b1.edges == b'.edges || (|b1.edges| == |b'.edges| + 1 && IsShiftOf(b1.edges[|b'.edges|], b.edges[i], amount, k))
    ensures forall m | |b.edges| <= m < |b1.edges| :: ShiftedFrom(b1.edges[m], b.edges, amount, k)
  {
    forall m | |b.edges| <= m < |b1.edges|
      ensures ShiftedFrom(b1.edges[m], b.edges, amount, k)
    {
      if m < |b'.edges| {
        assert b1.edges[m] == b'.edges[m];
      } else {
        assert IsShiftOf(b1.edges[m], b.edges[i], amount, k);
      }
    }
  }

  lemma {:induction false} PrefixTrans<T>(a: seq<T>, b: seq<T>, c: seq<T>)
    requires a <= b && b <= c
    ensures a <= c
  {
    assert b[..|a|] == a;
    assert c[..|b|] == b;
    assert c[..|a|] == c[..|b|][..|a|];
  }
}
