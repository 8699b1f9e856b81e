/** The set-based lattice of `kirky/block.py`: a frame of unit edges grown by
    translated copies, an interior of edges with one fixed displacement, and
    vertices with one incoming and one outgoing slot per vector. */
module BlockLattice {
  import opened Wrappers
  import Edges

  type Position = seq<int>

  /** An edge from `tail` to `head` standing for vector `id`. */
  datatype Edge = Edge(tail: Position, head: Position, id: nat)

  /** One entry of a vertex's cut: slot `[0]`, the edge poking in, and slot
      `[1]`, the edge leading off. */
  datatype Slot = Slot(incoming: Option<Edge>, outgoing: Option<Edge>)

  datatype Vertex = Vertex(position: Position, cut: seq<Slot>)

  /** The frame and interior sets are kept as sequences, in the order the
      sets are iterated. */
  datatype Block = Block(numVectors: nat, dimensions: nat, shape: seq<int>,
                         interior: seq<Edge>, frame: seq<Edge>, vertices: map<Position, Vertex>)

  /** The origin of a `dimensions`-dimensional lattice. */
  function Origin(dimensions: nat): (o: Position)
    ensures |o| == dimensions && forall j | 0 <= j < dimensions :: o[j] == 0
  {
    seq(dimensions, _ => 0)
  }

  /** The `i`-th unit vector as integer coordinates. */
  function UnitVector(dimensions: nat, i: nat): (u: seq<int>)
    ensures |u| == dimensions && forall j | 0 <= j < dimensions :: u[j] == if j == i then 1 else 0
  {
    seq(dimensions, j => if j == i then 1 else 0)
  }

  /** `Vertex(position, num_vectors)`: every slot empty. */
  function NewVertex(position: Position, numVectors: nat): (v: Vertex)
    ensures v.position == position && |v.cut| == numVectors
    ensures forall i | 0 <= i < numVectors :: v.cut[i] == Slot(None, None)
  {
    Vertex(position, seq(numVectors, _ => Slot(None, None)))
  }

  /** `Block(dimensions, num_vectors)`, with the shape a list of zeros. */
  function NewBlock(dimensions: nat, numVectors: nat): (b: Block)
    ensures Valid(b) && b.dimensions == dimensions && b.numVectors == numVectors
    ensures |b.shape| == dimensions && forall i | 0 <= i < dimensions :: b.shape[i] == 0
    ensures b.frame == [] && b.interior == [] && b.vertices == map[]
  {
    Block(numVectors, dimensions, Origin(dimensions), [], [], map[])
  }

  /** `Vertex.add_edge(edge, id, tail)`: a tail fills slot `[1]` of entry
      `id`, a head slot `[0]`; every other slot is kept. */
  function AddEdge(v: Vertex, e: Edge, id: nat, tail: bool): (r: Result<Vertex>)
    ensures id < |v.cut| <==> r.Ok?
    ensures r.Fail? ==> r.error == IndexError
    ensures r.Ok? ==> r.value.position == v.position && |r.value.cut| == |v.cut|
    ensures r.Ok? && tail ==> r.value.cut[id] == v.cut[id].(outgoing := Some(e))
    ensures r.Ok? && !tail ==> r.value.cut[id] == v.cut[id].(incoming := Some(e))
    ensures r.Ok? ==> forall k | 0 <= k < |v.cut| && k != id :: r.value.cut[k] == v.cut[k]
  {
    if id >= |v.cut| then Fail(IndexError)
    else if tail then Ok(v.(cut := v.cut[id := v.cut[id].(outgoing := Some(e))]))
    else Ok(v.(cut := v.cut[id := v.cut[id].(incoming := Some(e))]))
  }

  /** Every vertex is stored under its own position, has the block's number
      of coordinates and one cut entry per vector. */
  predicate Named(b: Block)
  {
    forall p | p in b.vertices :: b.vertices[p].position == p && |p| == b.dimensions && |b.vertices[p].cut| == b.numVectors
  }

  /** An edge of the block's shape whose ends are both vertices. */
  predicate Registered(b: Block, e: Edge)
  {
    |e.tail| == b.dimensions && |e.head| == b.dimensions && e.id < b.numVectors
    && e.tail in b.vertices && e.head in b.vertices
  }

  predicate Valid(b: Block)
  {
    Named(b) && |b.shape| == b.dimensions
    && (forall i | 0 <= i < |b.frame| :: Registered(b, b.frame[i]))
    && (forall i | 0 <= i < |b.interior| :: Registered(b, b.interior[i]))
  }

  /** The tail's entry `id` holds `e` as the edge leading off and the head's
      entry holds it as the edge poking in. */
  predicate Recorded(b: Block, e: Edge)
  {
    e.tail in b.vertices && e.head in b.vertices
    && e.id < |b.vertices[e.tail].cut| && e.id < |b.vertices[e.head].cut|
    && b.vertices[e.tail].cut[e.id].outgoing == Some(e)
    && b.vertices[e.head].cut[e.id].incoming == Some(e)
  }

  /** Only the two slots `e` is written into differ between `b` and `r`. */
  predicate OnlySlotsOf(b: Block, r: Block, e: Edge)
  {
    forall p, k | p in b.vertices && p in r.vertices && 0 <= k < |b.vertices[p].cut| && k < |r.vertices[p].cut| ::
      (r.vertices[p].cut[k].outgoing == b.vertices[p].cut[k].outgoing || (p == e.tail && k == e.id))
      && (r.vertices[p].cut[k].incoming == b.vertices[p].cut[k].incoming || (p == e.head && k == e.id))
  }

  /** The vertices of `vs` are stored under their own positions with one cut
      entry per vector. */
  predicate Slotted(vs: map<Position, Vertex>, numVectors: nat)
  {
    forall p | p in vs :: vs[p].position == p && |vs[p].cut| == numVectors
  }

  /** One half of `update_vertices`: the vertex at `p` (created when absent)
      takes `e` into slot `[1]` (a tail) or slot `[0]` (a head) of entry
      `e.id`. */
  function Attach(vs: map<Position, Vertex>, numVectors: nat, p: Position, e: Edge, tail: bool): (r: Result<map<Position, Vertex>>)
    requires Slotted(vs, numVectors)
    ensures e.id < numVectors <==> r.Ok?
    ensures r.Fail? ==> r.error == IndexError
    ensures r.Ok? ==> Slotted(r.value, numVectors) && r.value.Keys == vs.Keys + {p}
    ensures r.Ok? ==> forall q | q in vs && q != p :: r.value[q] == vs[q]
    ensures r.Ok? && tail ==> (r.value[p].cut[e.id].outgoing == Some(e)
      && (p in vs ==> r.value[p].cut[e.id].incoming == vs[p].cut[e.id].incoming))
    ensures r.Ok? && !tail ==> (r.value[p].cut[e.id].incoming == Some(e)
      && (p in vs ==> r.value[p].cut[e.id].outgoing == vs[p].cut[e.id].outgoing))
    ensures r.Ok? && p in vs ==> forall k | 0 <= k < numVectors && k != e.id :: r.value[p].cut[k] == vs[p].cut[k]
  {
    var v := if p in vs then vs[p] else NewVertex(p, numVectors);
    match AddEdge(v, e, e.id, tail)
    case Fail(err) => Fail(err)
    case Ok(v') => Ok(vs[p := v'])
  }

  /** `update_vertices(edge)`: the tail's vertex (created when absent) takes
      the edge as leaving, then the head's vertex takes it as entering. */
  function UpdateVertices(b: Block, e: Edge): (r: Result<Block>)
    requires Named(b) && |e.tail| == b.dimensions && |e.head| == b.dimensions
    ensures e.id < b.numVectors <==> r.Ok?
    ensures r.Fail? ==> r.error == IndexError
    ensures r.Ok? ==> (r.value.frame == b.frame && r.value.interior == b.interior
      && r.value.shape == b.shape && r.value.numVectors == b.numVectors && r.value.dimensions == b.dimensions)
    ensures r.Ok? ==> Named(r.value) && r.value.vertices.Keys == b.vertices.Keys + {e.tail, e.head}
  {
    match Attach(b.vertices, b.numVectors, e.tail, e, true)
    case Fail(err) => Fail(err)
    case Ok(vs) =>
      match Attach(vs, b.numVectors, e.head, e, false)
      case Fail(err) => Fail(err)
      case Ok(vs') => Ok(b.(vertices := vs'))
  }

  /** After the update both vertices of the edge record it, and no other
      slot of any vertex changed. */
  lemma {:induction false} UpdateVerticesRecords(b: Block, e: Edge)
    requires Named(b) && |e.tail| == b.dimensions && |e.head| == b.dimensions && e.id < b.numVectors
    ensures Recorded(UpdateVertices(b, e).value, e) && OnlySlotsOf(b, UpdateVertices(b, e).value, e)
  {
    var vs := Attach(b.vertices, b.numVectors, e.tail, e, true).value;
    var vs' := Attach(vs, b.numVectors, e.head, e, false).value;
    var r := UpdateVertices(b, e).value;
    assert r.vertices == vs';
    forall p, k | p in b.vertices && p in r.vertices && 0 <= k < |b.vertices[p].cut| && k < |r.vertices[p].cut|
      ensures r.vertices[p].cut[k].outgoing == b.vertices[p].cut[k].outgoing || (p == e.tail && k == e.id)
      ensures r.vertices[p].cut[k].incoming == b.vertices[p].cut[k].incoming || (p == e.head && k == e.id)
    {
      assert |b.vertices[p].cut| == b.numVectors;
    }
  }

  /** Updating the vertices for an edge of the block's shape keeps the block
      valid and registers the edge. */
  lemma {:induction false} UpdateVerticesValid(b: Block, e: Edge)
    requires Valid(b) && |e.tail| == b.dimensions && |e.head| == b.dimensions && e.id < b.numVectors
    ensures UpdateVertices(b, e).Ok?
    ensures Valid(UpdateVertices(b, e).value) && Registered(UpdateVertices(b, e).value, e)
  {
    var r := UpdateVertices(b, e).value;
    assert forall i | 0 <= i < |r.frame| :: Registered(r, r.frame[i]) by {
      assert forall i | 0 <= i < |b.frame| :: Registered(b, b.frame[i]);
    }
    assert forall i | 0 <= i < |r.interior| :: Registered(r, r.interior[i]) by {
      assert forall i | 0 <= i < |b.interior| :: Registered(b, b.interior[i]);
    }
  }

  /** An edge recorded before an update stays recorded unless the new edge
      shares its tail or its head and its vector. */
  lemma {:induction false} UpdateKeepsRecorded(b: Block, e: Edge, f: Edge)
    requires Named(b) && |e.tail| == b.dimensions && |e.head| == b.dimensions && e.id < b.numVectors
    requires Recorded(b, f) && !(f.tail == e.tail && f.id == e.id) && !(f.head == e.head && f.id == e.id)
    ensures Recorded(UpdateVertices(b, e).value, f)
  {
    var r := UpdateVertices(b, e).value;
    UpdateVerticesRecords(b, e);
    assert |r.vertices[f.tail].cut| == b.numVectors == |b.vertices[f.tail].cut|;
    assert |r.vertices[f.head].cut| == b.numVectors == |b.vertices[f.head].cut|;
  }

  // ---------------------------------------------------------------------
  // Copies
  // ---------------------------------------------------------------------

  /** A position moved by `distance` along `dimension`. */
  function Move(p: Position, dimension: nat, distance: int): (r: Position)
    requires dimension < |p|
    ensures |r| == |p| && r[dimension] == p[dimension] + distance
    ensures forall j | 0 <= j < |p| && j != dimension :: r[j] == p[j]
  {
    p[dimension := p[dimension] + distance]
  }

  /** `head - tail`. */
  function Displacement(e: Edge): (d: seq<int>)
    requires |e.tail| == |e.head|
    ensures |d| == |e.tail| && Edges.Translate(e.tail, d) == e.head
  {
    seq(|e.tail|, j requires 0 <= j < |e.tail| => e.head[j] - e.tail[j])
  }

  /** The copy `copy_and_add` makes of an edge, as written (block.py:76):
      both lists are taken from the tail, so the copy is a loop at the moved
      tail. */
  function CopyAsWritten(e: Edge, dimension: nat, distance: int): (c: Edge)
    requires dimension < |e.tail|
    ensures c.tail == c.head && c.id == e.id
  {
    Edge(Move(e.tail, dimension, distance), Move(e.tail, dimension, distance), e.id)
  }

  /** The copy the comments describe: tail and head both moved. */
  function Copy(e: Edge, dimension: nat, distance: int): (c: Edge)
    requires dimension < |e.tail| && dimension < |e.head|
    ensures c.tail == Move(e.tail, dimension, distance) && c.head == Move(e.head, dimension, distance) && c.id == e.id
  {
    Edge(Move(e.tail, dimension, distance), Move(e.head, dimension, distance), e.id)
  }

  /** The corrected copy keeps an edge's displacement; the copy as written
      loses it for every edge that has one. */
  lemma {:induction false} CopyKeepsDisplacement(e: Edge, dimension: nat, distance: int)
    requires |e.tail| == |e.head| && dimension < |e.tail|
    ensures Displacement(Copy(e, dimension, distance)) == Displacement(e)
    ensures e.tail != e.head ==> Displacement(CopyAsWritten(e, dimension, distance)) != Displacement(e)
  {
    var c := Copy(e, dimension, distance);
    var d := Displacement(e);
    assert Displacement(c) == d by {
      forall j | 0 <= j < |d|
        ensures Displacement(c)[j] == d[j]
      {
        assert Edges.Translate(c.tail, Displacement(c))[j] == c.head[j];
        assert Edges.Translate(e.tail, d)[j] == e.head[j];
      }
    }
    if e.tail != e.head {
      var w := CopyAsWritten(e, dimension, distance);
      var j :| 0 <= j < |e.tail| && e.tail[j] != e.head[j];
      assert Edges.Translate(w.tail, Displacement(w))[j] == w.head[j];
      assert Edges.Translate(e.tail, d)[j] == e.head[j];
      assert Displacement(w)[j] == 0 != d[j];
    }
  }

  /** The seed's first unit edge already shows the difference. */
  lemma {:induction false} CopyAsWrittenExample()
    ensures CopyAsWritten(Edge([0], [1], 0), 0, 1) == Edge([1], [1], 0)
    ensures Copy(Edge([0], [1], 0), 0, 1) == Edge([1], [2], 0)
  {
  }

  /** Copying twice along one axis is copying once by the summed distance. */
  lemma {:induction false} CopyCompose(e: Edge, dimension: nat, s: int, t: int)
    requires dimension < |e.tail| && dimension < |e.head|
    ensures Copy(Copy(e, dimension, s), dimension, t) == Copy(e, dimension, s + t)
  {
  }

  /** Every edge of `src` has an axis `dimension`. */
  predicate Fits(src: seq<Edge>, dimension: nat)
  {
    forall k | 0 <= k < |src| :: dimension < |src[k].tail| && dimension < |src[k].head|
  }

  /** The copies of `src[..n]` that `src` is missing, in loop order. */
  function Missing(src: seq<Edge>, n: nat, dimension: nat, distance: int): (r: seq<Edge>)
    requires n <= |src| && Fits(src, dimension)
    ensures forall k | 0 <= k < |r| :: r[k] !in src
    ensures forall k | 0 <= k < |r| :: exists m | 0 <= m < n :: r[k] == Copy(src[m], dimension, distance)
    ensures forall m | 0 <= m < n :: Copy(src[m], dimension, distance) in src || Copy(src[m], dimension, distance) in r
  {
    if n == 0 then []
    else
      var c := Copy(src[n - 1], dimension, distance);
      var before := Missing(src, n - 1, dimension, distance);
      if c in src then before else before + [c]
  }

  lemma {:induction false} Prefix<T>(a: seq<T>, b: seq<T>)
    ensures a <= a + b
  {
  }

  lemma {:induction false} PrefixTrans<T>(a: seq<T>, b: seq<T>, c: seq<T>)
    requires a <= b && b <= c
    ensures a <= c
  {
  }

  /** Every key of `b` is a key of `r`. */
  predicate Grows(b: Block, r: Block)
  {
    forall p | p in b.vertices :: p in r.vertices
  }

  /** `b` and `r` agree on everything but the vertices and the frame. */
  predicate SameFrame(b: Block, r: Block)
  {
    r.interior == b.interior && r.shape == b.shape && r.numVectors == b.numVectors && r.dimensions == b.dimensions
  }

  /** Edges registered in `b` stay registered in a block with more keys. */
  lemma {:induction false} RegisteredAppend(b: Block, b': Block, added: seq<Edge>, c: Edge)
    requires Grows(b, b') && b'.dimensions == b.dimensions && b'.numVectors == b.numVectors
    requires forall k | 0 <= k < |added| :: Registered(b, added[k])
    requires Registered(b', c)
    ensures forall k | 0 <= k < |added + [c]| :: Registered(b', (added + [c])[k])
  {
    forall k | 0 <= k < |added + [c]|
      ensures Registered(b', (added + [c])[k])
    {
      if k < |added| {
        assert Registered(b, added[k]);
      }
    }
  }

  /** Every frame edge has the block's shape. */
  lemma {:induction false} FrameFits(b: Block)
    requires Valid(b)
    ensures forall k | 0 <= k < |b.frame| :: |b.frame[k].tail| == b.dimensions && |b.frame[k].head| == b.dimensions && b.frame[k].id < b.numVectors
  {
    forall k | 0 <= k < |b.frame|
      ensures |b.frame[k].tail| == b.dimensions && |b.frame[k].head| == b.dimensions && b.frame[k].id < b.numVectors
    {
      assert Registered(b, b.frame[k]);
    }
  }

  /** A block with more keys whose frame is the old frame followed by
      registered edges is valid. */
  lemma {:induction false} AppendValid(b: Block, b': Block, added: seq<Edge>, r: Block)
    requires Valid(b)
    requires Named(b') && SameFrame(b, b') && Grows(b, b')
    requires forall k | 0 <= k < |added| :: Registered(b', added[k])
    requires r == b'.(frame := b.frame + added)
    ensures Valid(r)
  {
    forall k | 0 <= k < |r.frame|
      ensures Registered(r, r.frame[k])
    {
      if k < |b.frame| {
        assert Registered(b, b.frame[k]);
      } else {
        assert r.frame[k] == added[k - |b.frame|];
      }
    }
    forall k | 0 <= k < |r.interior|
      ensures Registered(r, r.interior[k])
    {
      assert Registered(b, b.interior[k]);
    }
  }

  /** `src` followed by the copies it is missing holds the copy of every
      edge of `src`, and everything after `src` is such a copy. */
  lemma {:induction false} MissingCovers(src: seq<Edge>, dimension: nat, distance: int)
    requires Fits(src, dimension)
    ensures forall k | 0 <= k < |src| :: Copy(src[k], dimension, distance) in src + Missing(src, |src|, dimension, distance)
    ensures forall k | |src| <= k < |src + Missing(src, |src|, dimension, distance)| ::
      exists m | 0 <= m < |src| :: (src + Missing(src, |src|, dimension, distance))[k] == Copy(src[m], dimension, distance)
  {
    var added := Missing(src, |src|, dimension, distance);
    forall k | 0 <= k < |src|
      ensures Copy(src[k], dimension, distance) in src + added
    {
      var c := Copy(src[k], dimension, distance);
      assert c in src || c in added;
    }
    forall k | |src| <= k < |src + added|
      ensures exists m | 0 <= m < |src| :: (src + added)[k] == Copy(src[m], dimension, distance)
    {
      assert (src + added)[k] == added[k - |src|];
    }
  }

  // ---------------------------------------------------------------------
  // The frame of unit edges
  // ---------------------------------------------------------------------

  /** A frame edge: one unit step along the axis its id names. */
  predicate Unit(b: Block, e: Edge)
  {
    e.id < b.dimensions && |e.tail| == b.dimensions && e.head == Edges.Translate(e.tail, UnitVector(b.dimensions, e.id))
  }

  predicate UnitFrame(b: Block)
  {
    forall k | 0 <= k < |b.frame| :: Unit(b, b.frame[k])
  }

  /** The corrected copy of a unit edge is a unit edge. */
  lemma {:induction false} CopyUnit(b: Block, e: Edge, dimension: nat, distance: int)
    requires Unit(b, e) && dimension < b.dimensions
    ensures Unit(b, Copy(e, dimension, distance))
  {
    var c := Copy(e, dimension, distance);
    var u := UnitVector(b.dimensions, e.id);
    assert c.head == Edges.Translate(c.tail, u);
  }

  /** The copies of unit edges are unit edges. */
  lemma {:induction false} MissingUnit(b: Block, src: seq<Edge>, dimension: nat, distance: int)
    requires dimension < b.dimensions && forall k | 0 <= k < |src| :: Unit(b, src[k])
    requires Fits(src, dimension)
    ensures forall k | 0 <= k < |Missing(src, |src|, dimension, distance)| :: Unit(b, Missing(src, |src|, dimension, distance)[k])
  {
    var added := Missing(src, |src|, dimension, distance);
    forall k | 0 <= k < |added|
      ensures Unit(b, added[k])
    {
      var m :| 0 <= m < |src| && added[k] == Copy(src[m], dimension, distance);
      CopyUnit(b, src[m], dimension, distance);
    }
  }

  /** Appending unit edges to a frame of unit edges. */
  lemma {:induction false} UnitFrameAppend(b: Block, r: Block, added: seq<Edge>)
    requires r.dimensions == b.dimensions && r.frame == b.frame + added
    requires UnitFrame(b) && forall k | 0 <= k < |added| :: Unit(b, added[k])
    ensures UnitFrame(r)
  {
    forall k | 0 <= k < |r.frame|
      ensures Unit(r, r.frame[k])
    {
      if k < |b.frame| {
        assert Unit(b, b.frame[k]);
      } else {
        assert r.frame[k] == added[k - |b.frame|];
        assert Unit(b, added[k - |b.frame|]);
      }
    }
  }

  // ---------------------------------------------------------------------
  // Growing the frame
  // ---------------------------------------------------------------------

  /** What the loop of `copy_and_add` has done to the block: the copies
      `added` so far are registered with their vertices. */
  predicate Holds(b: Block, cur: Block, added: seq<Edge>)
  {
    Named(cur) && SameFrame(b, cur) && cur.frame == b.frame && Grows(b, cur)
    && forall k | 0 <= k < |added| :: Registered(cur, added[k])
  }

  /** Registering one more edge keeps `Holds`. */
  lemma {:induction false} HoldsAdd(b: Block, cur: Block, added: seq<Edge>, c: Edge)
    requires Holds(b, cur, added)
    requires |c.tail| == cur.dimensions && |c.head| == cur.dimensions && c.id < cur.numVectors
    ensures UpdateVertices(cur, c).Ok? && Holds(b, UpdateVertices(cur, c).value, added + [c])
  {
    var next := UpdateVertices(cur, c).value;
    assert Registered(next, c);
    RegisteredAppend(cur, next, added, c);
  }

  /** A copy of a frame edge has the block's shape. */
  lemma {:induction false} CopyFits(b: Block, i: nat, dimension: nat, distance: int)
    requires Valid(b) && i < |b.frame| && dimension < b.dimensions
    ensures |Copy(b.frame[i], dimension, distance).tail| == b.dimensions
    ensures |Copy(b.frame[i], dimension, distance).head| == b.dimensions
    ensures Copy(b.frame[i], dimension, distance).id < b.numVectors
  {
    assert Registered(b, b.frame[i]);
  }

  /** What the loop of `copy_and_add` has done after `b.frame[..i]`. */
  predicate CopyInv(b: Block, cur: Block, added: seq<Edge>, i: nat, dimension: nat, distance: int)
    requires Fits(b.frame, dimension)
  {
    i <= |b.frame| && Holds(b, cur, added) && added == Missing(b.frame, i, dimension, distance)
  }

  /** One step of the loop of `copy_and_add` keeps its invariant. */
  lemma {:induction false} CopyStep(b: Block, cur: Block, added: seq<Edge>, i: nat, dimension: nat, distance: int)
    requires Valid(b) && dimension < b.dimensions && Fits(b.frame, dimension) && i < |b.frame|
    requires CopyInv(b, cur, added, i, dimension, distance)
    ensures var c := Copy(b.frame[i], dimension, distance);
      if c in b.frame then CopyInv(b, cur, added, i + 1, dimension, distance)
      else UpdateVertices(cur, c).Ok? && CopyInv(b, UpdateVertices(cur, c).value, added + [c], i + 1, dimension, distance)
  {
    var c := Copy(b.frame[i], dimension, distance);
    if c !in b.frame {
      CopyFits(b, i, dimension, distance);
      HoldsAdd(b, cur, added, c);
    }
  }

  /** The loop of `copy_and_add`: each copy the frame is missing, in order,
      is registered with its two vertices. */
  method CopyLoop(b: Block, dimension: nat, distance: int) returns (cur: Block, added: seq<Edge>)
    requires Valid(b) && dimension < b.dimensions && Fits(b.frame, dimension)
    ensures Holds(b, cur, added) && added == Missing(b.frame, |b.frame|, dimension, distance)
  {
    cur := b;
    added := [];
    var i := 0;
    while i < |b.frame|
      invariant CopyInv(b, cur, added, i, dimension, distance)
    {
      CopyStep(b, cur, added, i, dimension, distance);
      var c := Copy(b.frame[i], dimension, distance);
      if c !in b.frame {
        cur := UpdateVertices(cur, c).value;
        added := added + [c];
      }
      i := i + 1;
    }
  }

  /** Validity does not look at the sides, only at how many there are. */
  lemma ValidReshape(b: Block, shape: seq<int>)
    requires Valid(b) && |shape| == b.dimensions
    ensures Valid(b.(shape := shape))
  {
    var r := b.(shape := shape);
    assert forall i | 0 <= i < |r.frame| :: Registered(r, r.frame[i]) by {
      forall i | 0 <= i < |r.frame|
        ensures Registered(r, r.frame[i])
      {
        assert Registered(b, b.frame[i]);
      }
    }
    assert forall i | 0 <= i < |r.interior| :: Registered(r, r.interior[i]) by {
      forall i | 0 <= i < |r.interior|
        ensures Registered(r, r.interior[i])
      {
        assert Registered(b, b.interior[i]);
      }
    }
  }

  /** `r` grew out of `b` by frame edges and vertices only: it is valid,
      keeps every vertex and starts its frame with the frame of `b`, and a
      frame of unit edges stays one. */
  predicate Extends(b: Block, r: Block)
  {
    Valid(r) && SameFrame(b, r) && Grows(b, r) && b.frame <= r.frame && (UnitFrame(b) ==> UnitFrame(r))
  }

  lemma {:induction false} ExtendsRefl(b: Block)
    requires Valid(b)
    ensures Extends(b, b)
  {
  }

  lemma {:induction false} ExtendsTrans(a: Block, b: Block, c: Block)
    requires Extends(a, b) && Extends(b, c)
    ensures Extends(a, c)
  {
    PrefixTrans(a.frame, b.frame, c.frame);
  }

  /** The copy of every edge of `src` by `distance` along the axis is in
      `frame`. */
  predicate Covers(src: seq<Edge>, frame: seq<Edge>, dimension: nat, distance: int)
  {
    Fits(src, dimension) && forall m | 0 <= m < |src| :: Copy(src[m], dimension, distance) in frame
  }

  /** The copies of every frame edge are in the frame after `copy_and_add`. */
  lemma {:induction false} CopiesPresent(b: Block, r: Block, dimension: nat, distance: int)
    requires Fits(b.frame, dimension)
    requires r.frame == b.frame + Missing(b.frame, |b.frame|, dimension, distance)
    ensures Covers(b.frame, r.frame, dimension, distance)
  {
    MissingCovers(b.frame, dimension, distance);
  }

  /** A copy by distance 0 is the edge itself. */
  lemma {:induction false} CopyZero(e: Edge, dimension: nat)
    requires dimension < |e.tail| && dimension < |e.head|
    ensures Copy(e, dimension, 0) == e
  {
    assert Move(e.tail, dimension, 0) == e.tail;
    assert Move(e.head, dimension, 0) == e.head;
  }

  /** No frame misses its copies by distance 0. */
  lemma {:induction false} MissingZero(src: seq<Edge>, n: nat, dimension: nat)
    requires n <= |src| && Fits(src, dimension)
    ensures Missing(src, n, dimension, 0) == []
  {
    if n > 0 {
      CopyZero(src[n - 1], dimension);
      MissingZero(src, n - 1, dimension);
    }
  }

  /** `copy_and_add(self.frame, dimension, distance)`: the frame is followed
      by the copies it was missing, so afterwards it holds the copy of each
      of its edges; the block stays valid, no vertex is lost and a frame of
      unit edges stays one. */
  method CopyAndAdd(b: Block, dimension: nat, distance: int) returns (r: Result<Block>)
    requires Valid(b)
    ensures (dimension >= b.dimensions && |b.frame| > 0) <==> r.Fail?
    ensures r.Fail? ==> r.error == IndexError
    ensures r.Ok? ==> Extends(b, r.value)
    ensures r.Ok? && |b.frame| == 0 ==> r.value == b
    ensures r.Ok? && |b.frame| > 0 ==> r.value.frame == b.frame + Missing(b.frame, |b.frame|, dimension, distance)
    ensures r.Ok? && dimension < b.dimensions ==> Covers(b.frame, r.value.frame, dimension, distance)
    ensures r.Ok? && distance == 0 ==> r.value.frame == b.frame
  {
    if dimension < b.dimensions {
      FrameFits(b);
    }
    if |b.frame| == 0 {
      ExtendsRefl(b);
      return Ok(b);
    }
    if dimension >= b.dimensions {
      assert Registered(b, b.frame[0]);
      return Fail(IndexError);
    }
    var cur, added := CopyLoop(b, dimension, distance);
    var res := cur.(frame := b.frame + added);
    AppendValid(b, cur, added, res);
    Prefix(b.frame, added);
    if UnitFrame(b) {
      MissingUnit(b, b.frame, dimension, distance);
      UnitFrameAppend(b, res, added);
    }
    CopiesPresent(b, res, dimension, distance);
    if distance == 0 {
      MissingZero(b.frame, |b.frame|, dimension);
    }
    return Ok(res);
  }

  /** One copy by `t` of an edge already copied by `t - 1` along the same
      axis. */
  lemma {:induction false} ReachStep(e: Edge, frame: seq<Edge>, next: seq<Edge>, dimension: nat, t: int)
    requires dimension < |e.tail| && dimension < |e.head|
    requires Copy(e, dimension, t - 1) in frame && Covers(frame, next, dimension, 1)
    ensures Copy(e, dimension, t) in next
  {
    var m :| 0 <= m < |frame| && frame[m] == Copy(e, dimension, t - 1);
    CopyCompose(e, dimension, t - 1, 1);
    assert Copy(frame[m], dimension, 1) in next;
  }

  /** The copies of `base` by `1 .. j` along the axis are all in `frame`. */
  predicate Reaches(base: seq<Edge>, frame: seq<Edge>, dimension: nat, j: int)
  {
    Fits(base, dimension)
    && forall k, t | 0 <= k < |base| && 1 <= t <= j :: Copy(base[k], dimension, t) in frame
  }

  /** One more unit pass extends the reach by one. */
  lemma {:induction false} ReachesStep(base: seq<Edge>, frame: seq<Edge>, next: seq<Edge>, dimension: nat, j: nat)
    requires base <= frame && Reaches(base, frame, dimension, j) && Covers(frame, next, dimension, 1)
    ensures Reaches(base, next, dimension, j + 1)
  {
    forall k, t | 0 <= k < |base| && 1 <= t <= j + 1
      ensures Copy(base[k], dimension, t) in next
    {
      var e := base[k];
      if t == 1 {
        assert frame[k] == e;
        assert Copy(frame[k], dimension, 1) in next;
      } else {
        assert Copy(e, dimension, t - 1) in frame;
        ReachStep(e, frame, next, dimension, t);
      }
    }
  }

  /** What the loop of the unit passes has done after `j` passes. */
  predicate PassInv(b: Block, cur: Block, dimension: nat, count: int, j: int)
  {
    0 <= j && (count > 0 ==> j <= count) && Extends(b, cur)
    && (dimension < b.dimensions ==> Reaches(b.frame, cur.frame, dimension, j))
    && (dimension >= b.dimensions ==> cur.frame == b.frame && (|b.frame| > 0 ==> j == 0))
  }

  lemma {:induction false} PassStart(b: Block, dimension: nat, count: int)
    requires Valid(b)
    ensures PassInv(b, b, dimension, count, 0)
  {
    if dimension < b.dimensions {
      FrameFits(b);
    }
  }

  /** A unit pass that succeeds keeps the invariant of the passes. */
  lemma {:induction false} PassStep(b: Block, cur: Block, next: Block, dimension: nat, count: int, j: int)
    requires PassInv(b, cur, dimension, count, j) && j < count && Extends(cur, next)
    requires dimension < b.dimensions ==> Covers(cur.frame, next.frame, dimension, 1)
    requires dimension >= b.dimensions ==> |cur.frame| == 0 && next == cur
    ensures PassInv(b, next, dimension, count, j + 1)
  {
    ExtendsTrans(b, cur, next);
    if dimension < b.dimensions {
      ReachesStep(b.frame, cur.frame, next.frame, dimension, j);
    }
  }

  /** `for j in range(count): self.copy_and_add(self.frame, dimension, 1)`:
      afterwards the copy of every earlier frame edge by each distance
      `1 .. count` along the axis is in the frame. */
  method Passes(b: Block, dimension: nat, count: int) returns (r: Result<Block>)
    requires Valid(b)
    ensures (dimension >= b.dimensions && |b.frame| > 0 && count > 0) <==> r.Fail?
    ensures r.Fail? ==> r.error == IndexError
    ensures r.Ok? ==> Extends(b, r.value)
    ensures r.Ok? && dimension < b.dimensions ==> Reaches(b.frame, r.value.frame, dimension, count)
    ensures count <= 0 ==> r == Ok(b)
  {
    var cur := b;
    var j := 0;
    PassStart(b, dimension, count);
    while j < count
      invariant PassInv(b, cur, dimension, count, j)
      invariant j == 0 ==> cur == b
      invariant count <= 0 ==> j == 0
    {
      var next := CopyAndAdd(cur, dimension, 1);
      if next.Fail? {
        return next;
      }
      PassStep(b, cur, next.value, dimension, count, j);
      cur := next.value;
      j := j + 1;
    }
    return Ok(cur);
  }

  /** Appending a registered edge to the frame keeps the block valid. */
  lemma {:induction false} AppendFrameValid(b: Block, e: Edge)
    requires Valid(b) && Registered(b, e)
    ensures Valid(b.(frame := b.frame + [e]))
  {
    var r := b.(frame := b.frame + [e]);
    forall k | 0 <= k < |r.frame|
      ensures Registered(r, r.frame[k])
    {
      if k < |b.frame| {
        assert Registered(b, b.frame[k]);
      }
    }
    assert forall k | 0 <= k < |r.interior| :: Registered(r, r.interior[k]) by {
      assert forall k | 0 <= k < |b.interior| :: Registered(b, b.interior[k]);
    }
  }

  /** The unit edge from the origin along axis `i`. */
  function SeedEdge(dimensions: nat, i: nat): (e: Edge)
    ensures e.id == i && e.tail == Origin(dimensions) && e.head == UnitVector(dimensions, i)
  {
    Edge(Origin(dimensions), UnitVector(dimensions, i), i)
  }

  /** The seed edges along axes `0 .. n`. */
  function SeedRun(dimensions: nat, n: nat): (r: seq<Edge>)
    requires n <= dimensions
    ensures |r| == n && forall k | 0 <= k < n :: r[k] == SeedEdge(dimensions, k)
  {
    seq(n, k requires 0 <= k < n => SeedEdge(dimensions, k))
  }

  /** A seed edge is a unit edge. */
  lemma {:induction false} SeedEdgeUnit(b: Block, i: nat)
    requires i < b.dimensions
    ensures Unit(b, SeedEdge(b.dimensions, i))
  {
    var e := SeedEdge(b.dimensions, i);
    assert e.head == Edges.Translate(e.tail, UnitVector(b.dimensions, i));
  }

  /** The seed edges along axes `0 .. i + 1` extend those along `0 .. i`. */
  lemma {:induction false} SeedRunStep(dimensions: nat, i: nat)
    requires i < dimensions
    ensures SeedRun(dimensions, i + 1) == SeedRun(dimensions, i) + [SeedEdge(dimensions, i)]
  {
  }

  lemma {:induction false} Assoc<T>(a: seq<T>, b: seq<T>, c: seq<T>)
    ensures a + b + c == a + (b + c)
  {
  }

  /** What the first loop of `seed_frame` has done after the axes
      `0 .. i`. */
  predicate SeedInv(b: Block, cur: Block, i: nat)
  {
    i <= b.dimensions && (i == 0 || i <= b.numVectors) && Valid(cur) && SameFrame(b, cur) && Grows(b, cur)
    && cur.frame == b.frame + SeedRun(b.dimensions, i) && (UnitFrame(b) ==> UnitFrame(cur))
  }

  /** Registering the seed edge along axis `i` keeps the invariant. */
  lemma {:induction false} SeedStep(b: Block, cur: Block, i: nat)
    requires SeedInv(b, cur, i) && i < b.dimensions && i < b.numVectors
    ensures UpdateVertices(cur, SeedEdge(b.dimensions, i)).Ok?
    ensures var next := UpdateVertices(cur, SeedEdge(b.dimensions, i)).value;
      SeedInv(b, next.(frame := next.frame + [SeedEdge(b.dimensions, i)]), i + 1)
  {
    var e := SeedEdge(b.dimensions, i);
    UpdateVerticesValid(cur, e);
    var next := UpdateVertices(cur, e).value;
    AppendFrameValid(next, e);
    var grown := next.(frame := next.frame + [e]);
    SeedRunStep(b.dimensions, i);
    Assoc(b.frame, SeedRun(b.dimensions, i), [e]);
    if UnitFrame(b) {
      SeedEdgeUnit(b, i);
      UnitFrameAppend(next, grown, [e]);
    }
  }

  /** The first loop of `seed_frame`: the unit edge out of the origin along
      each axis joins the frame; the cut of a vertex has no slot for an axis
      beyond the vector count. */
  method SeedEdges(b: Block) returns (r: Result<Block>)
    requires Valid(b)
    ensures (b.dimensions <= b.numVectors) <==> r.Ok?
    ensures r.Fail? ==> r.error == IndexError
    ensures r.Ok? ==> Valid(r.value) && SameFrame(b, r.value) && Grows(b, r.value)
    ensures r.Ok? ==> r.value.frame == b.frame + SeedRun(b.dimensions, b.dimensions)
    ensures r.Ok? && UnitFrame(b) ==> UnitFrame(r.value)
  {
    var cur := b;
    var i := 0;
    assert b.frame + SeedRun(b.dimensions, 0) == b.frame;
    while i < b.dimensions
      invariant SeedInv(b, cur, i)
    {
      if i >= b.numVectors {
        return Fail(IndexError);
      }
      SeedStep(b, cur, i);
      var e := SeedEdge(b.dimensions, i);
      var next := UpdateVertices(cur, e).value;
      cur := next.(frame := next.frame + [e]);
      i := i + 1;
    }
    return Ok(cur);
  }

  /** Reach survives the frame growing. */
  lemma {:induction false} ReachesGrow(base: seq<Edge>, frame: seq<Edge>, next: seq<Edge>, dimension: nat, j: int)
    requires Reaches(base, frame, dimension, j) && frame <= next
    ensures Reaches(base, next, dimension, j)
  {
    forall k, t | 0 <= k < |base| && 1 <= t <= j
      ensures Copy(base[k], dimension, t) in next
    {
      var c := Copy(base[k], dimension, t);
      var m :| 0 <= m < |frame| && frame[m] == c;
      assert next[m] == c;
    }
  }

  /** What the second loop of `seed_frame` has done after the axes
      `0 .. i`. */
  predicate ShapeInv(b: Block, cur: Block, shape: seq<int>, i: nat)
  {
    i <= b.dimensions && (i == 0 || i <= |shape|) && Extends(b, cur)
    && forall a | 0 <= a < i && a < |shape| :: Reaches(b.frame, cur.frame, a, shape[a])
  }

  /** The passes along axis `i` keep the invariant. */
  lemma {:induction false} ShapeStep(b: Block, cur: Block, next: Block, shape: seq<int>, i: nat)
    requires Valid(b) && ShapeInv(b, cur, shape, i) && i < b.dimensions && i < |shape|
    requires Extends(cur, next) && Reaches(cur.frame, next.frame, i, shape[i])
    ensures ShapeInv(b, next, shape, i + 1)
  {
    ExtendsTrans(b, cur, next);
    FrameFits(b);
    ReachesPrefix(b.frame, cur.frame, next.frame, i, shape[i]);
    forall a | 0 <= a < i && a < |shape|
      ensures Reaches(b.frame, next.frame, a, shape[a])
    {
      ReachesGrow(b.frame, cur.frame, next.frame, a, shape[a]);
    }
  }

  /** The second loop of `seed_frame`: `shape[i]` unit passes along each
      axis `i` in turn, after which the copies of the starting frame by
      `1 .. shape[i]` along each axis `i` are in the frame. */
  method ShapePasses(b: Block, shape: seq<int>) returns (r: Result<Block>)
    requires Valid(b)
    ensures (b.dimensions <= |shape|) <==> r.Ok?
    ensures r.Fail? ==> r.error == IndexError
    ensures r.Ok? ==> Extends(b, r.value)
    ensures r.Ok? ==> forall a | 0 <= a < b.dimensions :: Reaches(b.frame, r.value.frame, a, shape[a])
  {
    var cur := b;
    var i := 0;
    ExtendsRefl(b);
    while i < b.dimensions
      invariant ShapeInv(b, cur, shape, i)
    {
      if i >= |shape| {
        return Fail(IndexError);
      }
      var next := Passes(cur, i, shape[i]);
      ShapeStep(b, cur, next.value, shape, i);
      cur := next.value;
      i := i + 1;
    }
    return Ok(cur);
  }

  /** `seed_frame(shape)`: the unit edge out of the origin along each axis,
      then `shape[i]` unit passes along each axis `i` in turn. The frame
      starts with the seed edges, holds their copies by `1 .. shape[i]`
      along each axis `i` and, from a frame of unit edges, stays one. The
      recorded side lengths are left as they were. */
  method SeedFrame(b: Block, shape: seq<int>) returns (r: Result<Block>)
    requires Valid(b)
    ensures (b.dimensions == 0 || (b.dimensions <= b.numVectors && b.dimensions <= |shape|)) <==> r.Ok?
    ensures r.Fail? ==> r.error == IndexError
    ensures r.Ok? ==> Valid(r.value) && SameFrame(b, r.value) && Grows(b, r.value)
    ensures r.Ok? ==> b.frame + SeedRun(b.dimensions, b.dimensions) <= r.value.frame
    ensures r.Ok? ==> forall a | 0 <= a < b.dimensions ::
      Reaches(b.frame + SeedRun(b.dimensions, b.dimensions), r.value.frame, a, shape[a])
    ensures r.Ok? && UnitFrame(b) ==> UnitFrame(r.value)
  {
    var seeded := SeedEdges(b);
    if seeded.Fail? {
      return seeded;
    }
    r := ShapePasses(seeded.value, shape);
  }

  /** `seed_frame` as evidently intended: the side lengths it builds are
      recorded as the block's shape, so that `double` starts from them. */
  method SeedFrameShaped(b: Block, shape: seq<int>) returns (r: Result<Block>)
    requires Valid(b)
    ensures (b.dimensions == 0 || (b.dimensions <= b.numVectors && b.dimensions <= |shape|)) <==> r.Ok?
    ensures r.Fail? ==> r.error == IndexError
    ensures r.Ok? ==> Valid(r.value) && r.value.shape == shape[..b.dimensions] && Grows(b, r.value)
    ensures r.Ok? ==> forall a | 0 <= a < b.dimensions ::
      Reaches(b.frame + SeedRun(b.dimensions, b.dimensions), r.value.frame, a, r.value.shape[a])
  {
    r := SeedFrame(b, shape);
    if r.Ok? {
      var blk := r.value.(shape := shape[..b.dimensions]);
      assert Valid(blk) by {
        assert forall k | 0 <= k < |blk.frame| :: Registered(blk, blk.frame[k]) by {
          assert forall k | 0 <= k < |r.value.frame| :: Registered(r.value, r.value.frame[k]);
        }
        assert forall k | 0 <= k < |blk.interior| :: Registered(blk, blk.interior[k]) by {
          assert forall k | 0 <= k < |r.value.interior| :: Registered(r.value, r.value.interior[k]);
        }
      }
      r := Ok(blk);
    }
  }

  /** Reach from a longer prefix gives reach from a shorter one. */
  lemma {:induction false} ReachesPrefix(base: seq<Edge>, frame: seq<Edge>, next: seq<Edge>, dimension: nat, j: int)
    requires Fits(base, dimension) && base <= frame && Reaches(frame, next, dimension, j)
    ensures Reaches(base, next, dimension, j)
  {
    forall k, t | 0 <= k < |base| && 1 <= t <= j
      ensures Copy(base[k], dimension, t) in next
    {
      assert base[k] == frame[k];
    }
  }

  /** Covering from a frame carries over to any longer frame. */
  lemma {:induction false} CoversGrow(src: seq<Edge>, frame: seq<Edge>, next: seq<Edge>, dimension: nat, distance: int)
    requires Covers(src, frame, dimension, distance) && frame <= next
    ensures Covers(src, next, dimension, distance)
  {
    forall m | 0 <= m < |src|
      ensures Copy(src[m], dimension, distance) in next
    {
      var c := Copy(src[m], dimension, distance);
      var k :| 0 <= k < |frame| && frame[k] == c;
      assert next[k] == c;
    }
  }

  /** `double(dimension)`: the frame copied by the current side along the
      axis, then that many unit passes, and the side doubled. The copy of
      every earlier frame edge by the old side and by each distance up to
      it is then in the frame. */
  method Double(b: Block, dimension: nat) returns (r: Result<Block>)
    requires Valid(b)
    ensures dimension < b.dimensions <==> r.Ok?
    ensures r.Fail? ==> r.error == IndexError
    ensures r.Ok? ==> Extends(b, r.value.(shape := b.shape))
    ensures r.Ok? ==> r.value.shape == b.shape[dimension := 2 * b.shape[dimension]]
    ensures r.Ok? ==> Covers(b.frame, r.value.frame, dimension, b.shape[dimension])
    ensures r.Ok? ==> Reaches(b.frame, r.value.frame, dimension, b.shape[dimension])
    ensures r.Ok? && b.shape[dimension] == 0 ==> r.value.frame == b.frame && r.value.shape == b.shape
  {
    if dimension >= |b.shape| {
      return Fail(IndexError);
    }
    var side := b.shape[dimension];
    var first := CopyAndAdd(b, dimension, side);
    var b1 := first.value;
    var second := Passes(b1, dimension, side);
    var b2 := second.value;
    ExtendsTrans(b, b1, b2);
    FrameFits(b);
    CoversGrow(b.frame, b1.frame, b2.frame, dimension, side);
    ReachesPrefix(b.frame, b1.frame, b2.frame, dimension, side);
    return Ok(b2.(shape := b.shape[dimension := 2 * side]));
  }

  // ---------------------------------------------------------------------
  // The interior
  // ---------------------------------------------------------------------

  /** The interior edge for vector `id` out of `p`, displaced by `dif`. */
  function Across(p: Position, dif: seq<int>, id: nat): (e: Edge)
    requires |p| == |dif|
    ensures e.tail == p && e.head == Edges.Translate(p, dif) && e.id == id
  {
    Edge(p, Edges.Translate(p, dif), id)
  }

  /** Translation by a fixed displacement is injective. */
  lemma {:induction false} TranslateInjective(p: Position, q: Position, dif: seq<int>)
    requires |p| == |dif| && |q| == |dif| && p != q
    ensures Edges.Translate(p, dif) != Edges.Translate(q, dif)
  {
    var j :| 0 <= j < |p| && p[j] != q[j];
    assert Edges.Translate(p, dif)[j] != Edges.Translate(q, dif)[j];
  }

  /** `order` lists the keys of the vertex dictionary once each, in the
      order the dictionary is iterated. */
  predicate Enumerates(b: Block, order: seq<Position>)
  {
    (forall p | p in order :: p in b.vertices) && (forall p | p in b.vertices :: p in order)
    && forall i, j | 0 <= i < j < |order| :: order[i] != order[j]
  }

  /** `p` is a vertex and so is `p` displaced by `dif`. */
  predicate Joins(b: Block, p: Position, dif: seq<int>)
  {
    |p| == |dif| && p in b.vertices && Edges.Translate(p, dif) in b.vertices
  }

  /** `e` is the edge for vector `id` displaced by `dif` out of a vertex of
      `b`, into a vertex of `b`. */
  predicate AcrossIn(b: Block, e: Edge, dif: seq<int>, id: nat)
  {
    Joins(b, e.tail, dif) && e == Across(e.tail, dif, id)
  }

  /** `interior.add(e)`: the interior is a set, so an edge already in it is
      not added twice. */
  function AddInterior(b: Block, e: Edge): (r: Block)
    ensures r.vertices == b.vertices && r.frame == b.frame && SameVertices(b, r)
    ensures b.interior <= r.interior && e in r.interior
    ensures forall k | |b.interior| <= k < |r.interior| :: r.interior[k] == e
  {
    if e in b.interior then b else b.(interior := b.interior + [e])
  }

  /** `b` and `r` agree on the frame's shape, the vector count and the
      dimension count. */
  predicate SameVertices(b: Block, r: Block)
  {
    r.shape == b.shape && r.numVectors == b.numVectors && r.dimensions == b.dimensions
  }

  /** What the loop of `populate_interior` has done after the positions
      `order[..i]`. */
  predicate InteriorInv(b: Block, cur: Block, order: seq<Position>, i: nat, dif: seq<int>, id: nat)
  {
    i <= |order| && Valid(cur) && cur.vertices.Keys == b.vertices.Keys && cur.frame == b.frame
    && SameVertices(b, cur) && b.interior <= cur.interior
    && (forall k | 0 <= k < i && Joins(b, order[k], dif) ::
      Across(order[k], dif, id) in cur.interior && Recorded(cur, Across(order[k], dif, id)))
    && (forall k | |b.interior| <= k < |cur.interior| :: AcrossIn(b, cur.interior[k], dif, id))
    && (id >= b.numVectors ==> forall k | 0 <= k < i :: !Joins(b, order[k], dif))
  }

  /** The edge out of an earlier position stays recorded when the edge out
      of a later one is recorded. */
  lemma {:induction false} RecordedKept(b: Block, order: seq<Position>, i: nat, k: nat, dif: seq<int>, id: nat)
    requires Named(b) && Enumerates(b, order) && k < i < |order| && |dif| == b.dimensions && id < b.numVectors
    requires Edges.Translate(order[i], dif) in b.vertices
    requires Recorded(b, Across(order[k], dif, id))
    ensures Recorded(UpdateVertices(b, Across(order[i], dif, id)).value, Across(order[k], dif, id))
  {
    assert order[i] in b.vertices && order[k] in b.vertices;
    TranslateInjective(order[k], order[i], dif);
    UpdateKeepsRecorded(b, Across(order[i], dif, id), Across(order[k], dif, id));
  }

  /** Adding an edge that is already registered to the interior keeps the
      block valid. */
  lemma {:induction false} AddInteriorValid(b: Block, e: Edge)
    requires Valid(b) && Registered(b, e)
    ensures Valid(AddInterior(b, e))
  {
    var r := AddInterior(b, e);
    forall k | 0 <= k < |r.interior|
      ensures Registered(r, r.interior[k])
    {
      if k < |b.interior| {
        assert Registered(b, b.interior[k]);
      }
    }
    assert forall k | 0 <= k < |r.frame| :: Registered(r, r.frame[k]) by {
      assert forall k | 0 <= k < |b.frame| :: Registered(b, b.frame[k]);
    }
  }

  /** The step of the loop of `populate_interior` at a position with a
      vertex across from it: the block part of the invariant. */
  lemma {:induction false} InteriorAddBlock(b: Block, cur: Block, order: seq<Position>, i: nat, dif: seq<int>, id: nat)
    requires |dif| == b.dimensions && i < |order|
    requires InteriorInv(b, cur, order, i, dif, id) && Joins(b, order[i], dif) && id < b.numVectors
    ensures UpdateVertices(cur, Across(order[i], dif, id)).Ok?
    ensures var r := AddInterior(UpdateVertices(cur, Across(order[i], dif, id)).value, Across(order[i], dif, id));
      Valid(r) && r.vertices.Keys == b.vertices.Keys && r.frame == b.frame && SameVertices(b, r) && b.interior <= r.interior
      && Recorded(r, Across(order[i], dif, id))
      && forall k | |b.interior| <= k < |r.interior| :: AcrossIn(b, r.interior[k], dif, id)
  {
    var e := Across(order[i], dif, id);
    UpdateVerticesValid(cur, e);
    UpdateVerticesRecords(cur, e);
    var next := UpdateVertices(cur, e).value;
    AddInteriorValid(next, e);
    var r := AddInterior(next, e);
    forall k | |b.interior| <= k < |r.interior|
      ensures AcrossIn(b, r.interior[k], dif, id)
    {
      if k >= |cur.interior| {
        assert r.interior[k] == e;
      }
    }
  }

  /** The step of the loop of `populate_interior` at a position with a
      vertex across from it: the edges out of earlier positions stay
      recorded. */
  lemma {:induction false} InteriorAddKept(b: Block, cur: Block, order: seq<Position>, i: nat, dif: seq<int>, id: nat)
    requires |dif| == b.dimensions && i < |order| && Enumerates(b, order)
    requires InteriorInv(b, cur, order, i, dif, id) && Joins(b, order[i], dif) && id < b.numVectors
    ensures UpdateVertices(cur, Across(order[i], dif, id)).Ok?
    ensures var r := AddInterior(UpdateVertices(cur, Across(order[i], dif, id)).value, Across(order[i], dif, id));
      forall k | 0 <= k < i && Joins(b, order[k], dif) ::
        Across(order[k], dif, id) in r.interior && Recorded(r, Across(order[k], dif, id))
  {
    var e := Across(order[i], dif, id);
    var r := AddInterior(UpdateVertices(cur, e).value, e);
    forall k | 0 <= k < i && Joins(b, order[k], dif)
      ensures Across(order[k], dif, id) in r.interior && Recorded(r, Across(order[k], dif, id))
    {
      assert Enumerates(cur, order);
      RecordedKept(cur, order, i, k, dif, id);
    }
  }

  /** The step of the loop of `populate_interior` at a position with a
      vertex across from it keeps the invariant. */
  lemma {:induction false} InteriorAdd(b: Block, cur: Block, order: seq<Position>, i: nat, dif: seq<int>, id: nat)
    requires |dif| == b.dimensions && i < |order| && Enumerates(b, order)
    requires InteriorInv(b, cur, order, i, dif, id) && Joins(b, order[i], dif) && id < b.numVectors
    ensures UpdateVertices(cur, Across(order[i], dif, id)).Ok?
    ensures InteriorInv(b, AddInterior(UpdateVertices(cur, Across(order[i], dif, id)).value, Across(order[i], dif, id)), order, i + 1, dif, id)
  {
    InteriorAddBlock(b, cur, order, i, dif, id);
    InteriorAddKept(b, cur, order, i, dif, id);
  }

  /** Before the loop of `populate_interior` nothing has been done. */
  lemma {:induction false} InteriorStart(b: Block, order: seq<Position>, dif: seq<int>, id: nat)
    requires Valid(b)
    ensures InteriorInv(b, b, order, 0, dif, id)
  {
  }

  /** The step of the loop of `populate_interior` at a position with no
      vertex across from it keeps the invariant. */
  lemma {:induction false} InteriorSkip(b: Block, cur: Block, order: seq<Position>, i: nat, dif: seq<int>, id: nat)
    requires i < |order| && InteriorInv(b, cur, order, i, dif, id) && !Joins(b, order[i], dif)
    ensures InteriorInv(b, cur, order, i + 1, dif, id)
  {
  }

  /** The loop of `populate_interior` over the vertices in `order`. */
  method InteriorLoop(b: Block, order: seq<Position>, dif: seq<int>, id: nat) returns (r: Result<Block>)
    requires Valid(b) && Enumerates(b, order) && |dif| == b.dimensions
    ensures r.Fail? ==> r.error == IndexError && id >= b.numVectors && exists k | 0 <= k < |order| :: Joins(b, order[k], dif)
    ensures r.Ok? ==> InteriorInv(b, r.value, order, |order|, dif, id)
  {
    var cur := b;
    var i := 0;
    InteriorStart(b, order, dif, id);
    while i < |order|
      invariant InteriorInv(b, cur, order, i, dif, id)
    {
      if !Joins(b, order[i], dif) {
        InteriorSkip(b, cur, order, i, dif, id);
      } else {
        if id >= b.numVectors {
          return Fail(IndexError);
        }
        InteriorAdd(b, cur, order, i, dif, id);
        var e := Across(order[i], dif, id);
        cur := AddInterior(UpdateVertices(cur, e).value, e);
      }
      i := i + 1;
    }
    return Ok(cur);
  }

  /** After the loop, the invariant over all of `order` is the promise
      over every vertex. */
  lemma {:induction false} InteriorDone(b: Block, cur: Block, order: seq<Position>, dif: seq<int>, id: nat)
    requires Enumerates(b, order) && InteriorInv(b, cur, order, |order|, dif, id)
    ensures forall p | Joins(b, p, dif) :: Across(p, dif, id) in cur.interior && Recorded(cur, Across(p, dif, id))
    ensures id >= b.numVectors ==> forall p | p in b.vertices :: !Joins(b, p, dif)
  {
    forall p | p in b.vertices
      ensures Joins(b, p, dif) ==> Across(p, dif, id) in cur.interior && Recorded(cur, Across(p, dif, id))
      ensures id >= b.numVectors ==> !Joins(b, p, dif)
    {
      var k :| 0 <= k < |order| && order[k] == p;
    }
  }

  /** `populate_interior(edge, id)` with the vertex dictionary iterated in
      `order`: the displacement `dif` is the example edge's over the
      block's axes; every edge displaced by `dif` between two vertices
      joins the interior under vector `id` and is recorded by both of its
      vertices, every edge added is one of them, and no vertex is created.
      It fails exactly when the example is too short or there is such an
      edge but vector `id` has no slot in the cut. */
  method PopulateInterior(b: Block, example: Edge, id: nat, order: seq<Position>) returns (r: Result<Block>, dif: seq<int>)
    requires Valid(b) && Enumerates(b, order)
    ensures |dif| == b.dimensions
    ensures r.Fail? ==> r.error == IndexError
    ensures (|example.tail| < b.dimensions || |example.head| < b.dimensions) && b.dimensions > 0 ==> r.Fail?
    ensures |example.tail| >= b.dimensions && |example.head| >= b.dimensions ==>
      (forall j | 0 <= j < b.dimensions :: dif[j] == example.head[j] - example.tail[j])
      && (r.Fail? <==> id >= b.numVectors && exists p | p in b.vertices :: Joins(b, p, dif))
    ensures r.Ok? ==> (Valid(r.value) && r.value.vertices.Keys == b.vertices.Keys && r.value.frame == b.frame
      && SameVertices(b, r.value) && b.interior <= r.value.interior)
    ensures r.Ok? ==> forall p | Joins(b, p, dif) :: Across(p, dif, id) in r.value.interior && Recorded(r.value, Across(p, dif, id))
    ensures r.Ok? ==> forall k | |b.interior| <= k < |r.value.interior| :: AcrossIn(b, r.value.interior[k], dif, id)
  {
    if b.dimensions > 0 && (|example.tail| < b.dimensions || |example.head| < b.dimensions) {
      return Fail(IndexError), Origin(b.dimensions);
    }
    dif := seq(b.dimensions, j requires 0 <= j < b.dimensions => example.head[j] - example.tail[j]);
    r := InteriorLoop(b, order, dif, id);
    if r.Ok? {
      InteriorDone(b, r.value, order, dif, id);
    } else {
      var k :| 0 <= k < |order| && Joins(b, order[k], dif);
      assert order[k] in b.vertices;
    }
  }
}
