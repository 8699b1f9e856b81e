/** Building the two blocks of a Kirchhoff lattice (`block_creation.py`): the
    base block, a box of unit edges along every axis grown from the origin,
    and the interior block of the dependent vectors, placed over the same
    vertex and edge pools. Vector `k < dim` is the unit vector of axis `k`;
    vector `dim + i` is row `i` of the integer condition matrix. */
module BlockCreation {
  import opened Wrappers
  import opened Edges
  import opened Vertices
  import opened Blocks

  // ---------------------------------------------------------------------
  // Shapes
  // ---------------------------------------------------------------------

  /** Every row of the condition matrix has one entry per axis. */
  predicate IsGrid(conditions: seq<seq<int>>, dim: nat)
  {
    forall r | 0 <= r < |conditions| :: |conditions[r]| == dim
  }

  function Abs(x: int): nat
  {
    if x < 0 then -x else x
  }

  /** The largest absolute entry of column `i` among the first `n` rows, the
      running maximum starting at 0 and replaced only by a larger entry. */
  function ColumnMax(conditions: seq<seq<int>>, i: nat, n: nat): (m: nat)
    requires n <= |conditions| && forall r | 0 <= r < |conditions| :: i < |conditions[r]|
    ensures forall r | 0 <= r < n :: Abs(conditions[r][i]) <= m
    ensures m == 0 || exists r | 0 <= r < n :: Abs(conditions[r][i]) == m
  {
    if n == 0 then 0
    else
      var m := ColumnMax(conditions, i, n - 1);
      if Abs(conditions[n - 1][i]) > m then Abs(conditions[n - 1][i]) else m
  }

  /** The side lengths of the block: per axis, the largest absolute entry
      of the condition matrix's column, or 0 for a column of zeros. */
  function Sides(conditions: seq<seq<int>>, dim: nat): (s: seq<nat>)
    requires IsGrid(conditions, dim)
    ensures |s| == dim
    ensures forall i, r | 0 <= i < dim && 0 <= r < |conditions| :: Abs(conditions[r][i]) <= s[i]
    ensures forall i | 0 <= i < dim :: s[i] == 0 || exists r | 0 <= r < |conditions| :: Abs(conditions[r][i]) == s[i]
  {
    seq(dim, i requires 0 <= i < dim => ColumnMax(conditions, i, |conditions|))
  }

  // ---------------------------------------------------------------------
  // Displacements
  // ---------------------------------------------------------------------

  /** The unit vector of axis `k`. */
  function Unit(dim: nat, k: nat): (u: seq<int>)
    ensures |u| == dim
  {
    seq(dim, j => if j == k then 1 else 0)
  }

  /** Every vector's displacement: the unit vectors of the axes, then the
      rows of the condition matrix. */
  function Displacements(dim: nat, conditions: seq<seq<int>>): (d: seq<seq<int>>)
    ensures |d| == dim + |conditions|
    ensures forall k | 0 <= k < dim :: d[k] == Unit(dim, k)
    ensures forall r | 0 <= r < |conditions| :: d[dim + r] == conditions[r]
  {
    seq(dim, (k: int) requires 0 <= k < dim => Unit(dim, k)) + conditions
  }

  /** The position `[0] * dim`. */
  function Origin(dim: nat): (v: Position)
    ensures |v| == dim
  {
    seq(dim, _ => 0)
  }

  /** `position - c`, coordinate by coordinate. */
  function Minus(position: Position, c: seq<int>): (r: Position)
    requires |c| == |position|
    ensures |r| == |position|
  {
    seq(|position|, j requires 0 <= j < |position| => position[j] - c[j])
  }

  /** Moving back by `c` and then forward by `c` returns to the start. */
  lemma {:induction false} MinusTranslate(position: Position, c: seq<int>)
    requires |c| == |position|
    ensures Translate(Minus(position, c), c) == position
  {
  }

  // ---------------------------------------------------------------------
  // The unit cube
  // ---------------------------------------------------------------------

  /** A corner of the unit cube spanned by the first `a` axes: every
      coordinate is 0, or 1 on one of those axes. */
  predicate Corner(v: Position, dim: nat, a: nat)
  {
    |v| == dim && forall k | 0 <= k < dim :: v[k] == 0 || (k < a && v[k] == 1)
  }

  /** The pool holds the unit cube spanned by the first `a` axes, and from
      every corner of the cube spanned by the first `k < a` axes leaves an
      edge of vector `k`. */
  ghost predicate Cube(p: Pool, dim: nat, a: nat)
  {
    && (forall v | Corner(v, dim, a) :: Located(p, v))
    && (forall k, v | 0 <= k < a && Corner(v, dim, k) :: Filled(p, v, k))
  }

  /** The only corner of the cube spanned by no axis is the origin. */
  lemma {:induction false} CubeStart(p: Pool, dim: nat)
    requires Located(p, Origin(dim))
    ensures Cube(p, dim, 0)
  {
    forall v | Corner(v, dim, 0)
      ensures Located(p, v)
    {
      assert v == Origin(dim);
    }
  }

  /** The cube survives a pool that only grew. */
  lemma {:induction false} CubeKept(p: Pool, q: Pool, dim: nat, a: nat)
    requires Cube(p, dim, a) && PoolValid(q) && Extends(p, q) && OutKept(p, q)
    ensures Cube(q, dim, a)
  {
    forall v | Corner(v, dim, a)
      ensures Located(q, v)
    {
      LocatedKept(p, q, v);
    }
    forall k, v | 0 <= k < a && Corner(v, dim, k)
      ensures Filled(q, v, k)
    {
      assert Corner(v, dim, a);
      FilledKept(p, q, v, k);
    }
  }

  /** The vertices `vs[..n]` are in the pool, each with an edge of vector
      `a` leaving it whose head is one step further along axis `a`. */
  predicate EdgesFrom(q: Pool, vs: seq<Vertex>, n: nat, a: nat, dim: nat)
  {
    forall j | 0 <= j < n && j < |vs| ::
      && |vs[j].position| == dim && Located(q, vs[j].position) && Filled(q, vs[j].position, a)
      && Located(q, Translate(vs[j].position, Unit(dim, a)))
  }

  lemma {:induction false} EdgesFromKept(q: Pool, q': Pool, vs: seq<Vertex>, n: nat, a: nat, dim: nat)
    requires EdgesFrom(q, vs, n, a, dim) && PoolValid(q') && Extends(q, q') && OutKept(q, q')
    ensures EdgesFrom(q', vs, n, a, dim)
  {
    forall j | 0 <= j < n && j < |vs|
      ensures Located(q', vs[j].position) && Filled(q', vs[j].position, a)
      ensures Located(q', Translate(vs[j].position, Unit(dim, a)))
    {
      LocatedKept(q, q', vs[j].position);
      FilledKept(q, q', vs[j].position, a);
      LocatedKept(q, q', Translate(vs[j].position, Unit(dim, a)));
    }
  }

  lemma {:induction false} EdgesFromNext(q: Pool, vs: seq<Vertex>, n: nat, a: nat, dim: nat)
    requires EdgesFrom(q, vs, n, a, dim) && n < |vs| && |vs[n].position| == dim
    requires Located(q, vs[n].position) && Filled(q, vs[n].position, a) && Located(q, Translate(vs[n].position, Unit(dim, a)))
    ensures EdgesFrom(q, vs, n + 1, a, dim)
  {
  }

  /** Joining every vertex of a pool holding the cube of the first `a` axes
      to its neighbour along axis `a` gives the cube of the first `a + 1`
      axes. */
  lemma {:induction false} CubeNext(p0: Pool, q: Pool, dim: nat, a: nat)
    requires a < dim && Cube(p0, dim, a) && PoolValid(q) && Extends(p0, q) && OutKept(p0, q)
    requires EdgesFrom(q, p0.vertices, |p0.vertices|, a, dim)
    ensures Cube(q, dim, a + 1)
  {
    CubeKept(p0, q, dim, a);
    forall v | Corner(v, dim, a + 1)
      ensures Located(q, v)
    {
      if v[a] == 0 {
        assert Corner(v, dim, a);
      } else {
        CornerBelow(v, dim, a);
        var w := v[a := 0];
        assert Located(p0, w);
        var j :| 0 <= j < |p0.vertices| && p0.vertices[j].position == w;
      }
    }
    forall k, v | 0 <= k < a + 1 && Corner(v, dim, k)
      ensures Filled(q, v, k)
    {
      if k == a {
        var j :| 0 <= j < |p0.vertices| && p0.vertices[j].position == v;
      }
    }
  }

  /** A corner one step along axis `a` is the step from the corner below
      it. */
  lemma {:induction false} CornerBelow(v: Position, dim: nat, a: nat)
    requires a < dim && Corner(v, dim, a + 1) && v[a] != 0
    ensures Corner(v[a := 0], dim, a) && Translate(v[a := 0], Unit(dim, a)) == v
  {
  }

  // ---------------------------------------------------------------------
  // createBaseBlock
  // ---------------------------------------------------------------------

  /** Every edge of the block is one unit long along one of the first `a`
      axes, counted once. */
  predicate UnitEdges(b: Block, a: nat)
  {
    forall e | e in b.edges :: e.vectorId < a && e.numEdges == 1
  }

  /** The shifted copies `AddShift` adds keep vector and count. */
  lemma {:induction false} UnitEdgesShift(l: Lattice, b: Block, l': Lattice, b': Block, k: nat, a: nat, d: seq<seq<int>>)
    requires UnitEdges(b, a) && ShiftPost(l, b, l', b', 1, k, d)
    ensures UnitEdges(b', a)
  {
    forall e | e in b'.edges
      ensures e.vectorId < a && e.numEdges == 1
    {
      var m :| 0 <= m < |b'.edges| && b'.edges[m] == e;
      if m < |b.edges| {
        assert b'.edges[m] == b.edges[m];
      } else {
        assert ShiftedFrom(b'.edges[m], b.edges, 1, k);
        var j :| 0 <= j < |b.edges| && IsShiftOf(b'.edges[m], b.edges[j], 1, k);
        assert b.edges[j] in b.edges;
      }
    }
  }

  /** The base block under construction: the construction invariant over
      pools built from `B` with bucket range 2, and the vector count set
      to the dimension plus `B`'s column count. */
  predicate Building(l: Lattice, blk: Block, b: seq<seq<real>>, columns: nat, d: seq<seq<int>>)
  {
    && Grounded(l, blk, d) && l.pool.condition == b && l.pool.columns == columns && l.pool.index.range == 2
    && blk.numVectors == |b| + columns
  }

  /** Each edge of `cube` has its copy one step along every axis `m < a`
      whose side is at least 2. */
  predicate Spread(l: Lattice, cube: seq<Edge>, s: seq<nat>, a: nat)
  {
    forall e, m | e in cube && 0 <= m < a && m < |s| && s[m] >= 2 :: Covered(l, e, 1, m)
  }

  /** What `createBaseBlock` builds: the construction invariant; the whole
      unit cube, with an edge of vector `k` leaving every corner of the
      cube of the first `k` axes; only unit edges along the axes; and each
      edge of the cube stage copied one step along every axis of side at
      least 2. */
  ghost predicate Built(conditions: seq<seq<int>>, b: seq<seq<real>>, columns: nat, l: Lattice, blk: Block, cube: seq<Edge>)
    requires IsGrid(conditions, |b|)
  {
    && Building(l, blk, b, columns, Displacements(|b|, conditions))
    && Cube(l.pool, |b|, |b|) && UnitEdges(blk, |b|)
    && cube <= blk.edges && Spread(l, cube, Sides(conditions, |b|), |b|)
  }

  /** The new pools with the origin's vertex got: a valid pool, holding
      the origin, with no slot filled. */
  lemma {:induction false} OriginGot(b: seq<seq<real>>, columns: nat, d: seq<seq<int>>)
    requires IsMatrix(b, columns) && |b| > 0
    ensures GetVertex(NewPool(b, columns, 2), Origin(|b|)).Ok?
    ensures var p := GetVertex(NewPool(b, columns, 2), Origin(|b|)).value.0;
      && PoolValid(p) && p.condition == b && p.columns == columns && p.index.range == 2
      && Consistent(p, d) && Located(p, Origin(|b|))
  {
    var p0 := NewPool(b, columns, 2);
    var (p, k) := GetVertex(p0, Origin(|b|)).value;
    GetVertexSlots(p0, Origin(|b|));
    ConsistentKept(p0, p, d, -1, 0);
  }

  /** Such a pool with the empty block starts the construction. */
  lemma {:induction false} StartBuilding(p: Pool, b: seq<seq<real>>, columns: nat, d: seq<seq<int>>)
    requires PoolValid(p) && p.condition == b && p.columns == columns && p.index.range == 2 && |b| > 0
    requires Consistent(p, d) && Located(p, Origin(|b|))
    ensures Building(Lattice(p, EmptyPool()), Block([], |b|, |b| + columns), b, columns, d) && Cube(p, |b|, 0)
  {
    CubeStart(p, |b|);
  }

  /** What one placed unit edge leaves, stated over the placement's
      outcome: the construction goes on, and vertex `j` of the snapshot
      `p0` joins the vertices with their edge of vector `a`. */
  lemma {:induction false} UnitKept(p0: Pool, l: Lattice, blk: Block, l': Lattice, blk': Block, b: seq<seq<real>>, columns: nat,
                                    d: seq<seq<int>>, j: nat, a: nat, head: Position, w: nat)
    requires j < |p0.vertices| && |p0.vertices[j].position| == |b| && a < |b|
    requires head == Translate(p0.vertices[j].position, Unit(|b|, a))
    requires Building(l, blk, b, columns, d) && UnitEdges(blk, a + 1)
    requires Extends(p0, l.pool) && OutKept(p0, l.pool) && EdgesFrom(l.pool, p0.vertices, j, a, |b|)
    requires Grounded(l', blk', d) && Extends(l.pool, l'.pool) && OutKept(l.pool, l'.pool)
    requires blk'.numVectors == blk.numVectors && blk'.dimension == blk.dimension
    requires blk'.edges == blk.edges || blk'.edges == blk.edges + [Edge(head, p0.vertices[j].position, a, 1, w)]
    requires Located(l'.pool, p0.vertices[j].position) && Located(l'.pool, head) && Filled(l'.pool, p0.vertices[j].position, a)
    ensures Building(l', blk', b, columns, d) && UnitEdges(blk', a + 1)
    ensures Extends(p0, l'.pool) && OutKept(p0, l'.pool) && EdgesFrom(l'.pool, p0.vertices, j + 1, a, |b|)
  {
    EdgesFromKept(l.pool, l'.pool, p0.vertices, j, a, |b|);
    EdgesFromNext(l'.pool, p0.vertices, j, a, |b|);
    ExtendsTrans(p0, l.pool, l'.pool);
    OutKeptTrans(p0, l.pool, l'.pool);
  }

  /** `block.AddEdge(block.CreateEdge(head, tail, a))` for vertex `j` of
      the snapshot `p0`: the edge of vector `a` from its position to the
      neighbour along axis `a`. */
  method JoinUnit(p0: Pool, l: Lattice, blk: Block, b: seq<seq<real>>, columns: nat, conditions: seq<seq<int>>, j: nat, a: nat)
    returns (l': Lattice, blk': Block)
    requires IsGrid(conditions, |b|) && a < |b| && j < |p0.vertices| && PoolValid(p0) && Dimension(p0) == |b|
    requires Building(l, blk, b, columns, Displacements(|b|, conditions)) && UnitEdges(blk, a + 1)
    requires Extends(p0, l.pool) && OutKept(p0, l.pool) && EdgesFrom(l.pool, p0.vertices, j, a, |b|)
    ensures Building(l', blk', b, columns, Displacements(|b|, conditions)) && UnitEdges(blk', a + 1)
    ensures Extends(p0, l'.pool) && OutKept(p0, l'.pool) && EdgesFrom(l'.pool, p0.vertices, j + 1, a, |b|)
  {
    var d := Displacements(|b|, conditions);
    var tail := p0.vertices[j].position;
    var head := Translate(tail, Unit(|b|, a));
    PlaceStep(l, blk, head, tail, a, 1, d);
    var placed := Place(l, blk, head, tail, a, 1);
    l', blk' := placed.value.0, placed.value.1;
    UnitKept(p0, l, blk, l', blk', b, columns, d, j, a, head, |l.pool.web.nodes|);
  }

  /** The edges of vector `a` from every vertex of the snapshot `p0`. */
  method JoinAll(p0: Pool, l: Lattice, blk: Block, b: seq<seq<real>>, columns: nat, conditions: seq<seq<int>>, a: nat)
    returns (l': Lattice, blk': Block)
    requires IsGrid(conditions, |b|) && a < |b| && PoolValid(p0) && Dimension(p0) == |b|
    requires Building(l, blk, b, columns, Displacements(|b|, conditions)) && UnitEdges(blk, a + 1)
    requires Extends(p0, l.pool) && OutKept(p0, l.pool)
    ensures Building(l', blk', b, columns, Displacements(|b|, conditions)) && UnitEdges(blk', a + 1)
    ensures Extends(p0, l'.pool) && OutKept(p0, l'.pool) && EdgesFrom(l'.pool, p0.vertices, |p0.vertices|, a, |b|)
  {
    l', blk' := l, blk;
    var j := 0;
    while j < |p0.vertices|
      invariant j <= |p0.vertices| && Building(l', blk', b, columns, Displacements(|b|, conditions)) && UnitEdges(blk', a + 1)
      invariant Extends(p0, l'.pool) && OutKept(p0, l'.pool) && EdgesFrom(l'.pool, p0.vertices, j, a, |b|)
    {
      l', blk' := JoinUnit(p0, l', blk', b, columns, conditions, j, a);
      j := j + 1;
    }
  }

  /** The cube stage: for each axis `a` in turn, the vertices so far are
      noted, the block is shifted one step along `a`, and an edge of vector
      `a` joins each noted vertex to its neighbour along `a`. */
  method UnitCube(l: Lattice, blk: Block, b: seq<seq<real>>, columns: nat, conditions: seq<seq<int>>)
    returns (l': Lattice, blk': Block)
    requires IsGrid(conditions, |b|)
    requires Building(l, blk, b, columns, Displacements(|b|, conditions)) && Cube(l.pool, |b|, 0) && UnitEdges(blk, 0)
    ensures Building(l', blk', b, columns, Displacements(|b|, conditions)) && Cube(l'.pool, |b|, |b|) && UnitEdges(blk', |b|)
  {
    var d := Displacements(|b|, conditions);
    l', blk' := l, blk;
    var a := 0;
    while a < |b|
      invariant a <= |b| && Building(l', blk', b, columns, d) && Cube(l'.pool, |b|, a) && UnitEdges(blk', a)
    {
      var p0 := l'.pool;
      var shifted := AddShift(l', blk', 1, a, d);
      CubeShift(l', blk', shifted.value.0, shifted.value.1, b, columns, conditions, a);
      var l1, blk1 := JoinAll(p0, shifted.value.0, shifted.value.1, b, columns, conditions, a);
      CubeNext(p0, l1.pool, |b|, a);
      l', blk' := l1, blk1;
      a := a + 1;
    }
  }

  /** One `AddShift(1, k)` of the growing stage keeps what was built. */
  lemma {:induction false} GrowStep(l: Lattice, blk: Block, l': Lattice, blk': Block, b: seq<seq<real>>, columns: nat,
                                    conditions: seq<seq<int>>, cube: seq<Edge>, k: nat)
    requires IsGrid(conditions, |b|) && k < |b|
    requires Building(l, blk, b, columns, Displacements(|b|, conditions)) && Cube(l.pool, |b|, |b|) && UnitEdges(blk, |b|)
    requires cube <= blk.edges && Spread(l, cube, Sides(conditions, |b|), k)
    requires ShiftPost(l, blk, l', blk', 1, k, Displacements(|b|, conditions))
    ensures Building(l', blk', b, columns, Displacements(|b|, conditions)) && Cube(l'.pool, |b|, |b|) && UnitEdges(blk', |b|)
    ensures cube <= blk'.edges && Spread(l', cube, Sides(conditions, |b|), k)
    ensures forall e | e in cube :: Covered(l', e, 1, k)
  {
    var s := Sides(conditions, |b|);
    CubeKept(l.pool, l'.pool, |b|, |b|);
    UnitEdgesShift(l, blk, l', blk', k, |b|, Displacements(|b|, conditions));
    PrefixTrans(cube, blk.edges, blk'.edges);
    forall e, m | e in cube && 0 <= m < k && m < |s| && s[m] >= 2
      ensures Covered(l', e, 1, m)
    {
      CoveredKept(l, l', e, 1, m);
    }
    forall e | e in cube
      ensures Covered(l', e, 1, k)
    {
      var m :| 0 <= m < |cube| && cube[m] == e;
      assert blk.edges[m] == e;
    }
  }

  /** The first `AddShift(1, a)` of the cube stage keeps what was built. */
  lemma {:induction false} CubeShift(l: Lattice, blk: Block, l': Lattice, blk': Block, b: seq<seq<real>>, columns: nat,
                                     conditions: seq<seq<int>>, a: nat)
    requires IsGrid(conditions, |b|) && a < |b|
    requires Building(l, blk, b, columns, Displacements(|b|, conditions)) && Cube(l.pool, |b|, a) && UnitEdges(blk, a)
    requires ShiftPost(l, blk, l', blk', 1, a, Displacements(|b|, conditions))
    ensures Building(l', blk', b, columns, Displacements(|b|, conditions)) && UnitEdges(blk', a + 1)
    ensures Extends(l.pool, l'.pool) && OutKept(l.pool, l'.pool)
  {
    UnitEdgesShift(l, blk, l', blk', a, a, Displacements(|b|, conditions));
  }

  /** The base block while it grows: the construction invariant, the
      cube, unit edges only, and the cube stage's edges kept in front and
      copied along the axes before `a`. */
  ghost predicate Growing(l: Lattice, blk: Block, b: seq<seq<real>>, columns: nat, conditions: seq<seq<int>>, cube: seq<Edge>, a: nat)
    requires IsGrid(conditions, |b|)
  {
    && Building(l, blk, b, columns, Displacements(|b|, conditions)) && Cube(l.pool, |b|, |b|) && UnitEdges(blk, |b|)
    && cube <= blk.edges && Spread(l, cube, Sides(conditions, |b|), a)
  }

  /** One `block.AddShift(1, a)` of the growing stage. */
  method GrowOnce(l: Lattice, blk: Block, b: seq<seq<real>>, columns: nat, conditions: seq<seq<int>>, cube: seq<Edge>, a: nat)
    returns (l': Lattice, blk': Block)
    requires IsGrid(conditions, |b|) && a < |b| && Growing(l, blk, b, columns, conditions, cube, a)
    ensures Growing(l', blk', b, columns, conditions, cube, a)
    ensures forall e | e in cube :: Covered(l', e, 1, a)
  {
    var shifted := AddShift(l, blk, 1, a, Displacements(|b|, conditions));
    GrowStep(l, blk, shifted.value.0, shifted.value.1, b, columns, conditions, cube, a);
    l', blk' := shifted.value.0, shifted.value.1;
  }

  /** `for j in range(1, sides[a]): block.AddShift(1, a)`. */
  method GrowAxis(l: Lattice, blk: Block, b: seq<seq<real>>, columns: nat, conditions: seq<seq<int>>, cube: seq<Edge>, a: nat)
    returns (l': Lattice, blk': Block)
    requires IsGrid(conditions, |b|) && a < |b| && Growing(l, blk, b, columns, conditions, cube, a)
    ensures Growing(l', blk', b, columns, conditions, cube, a + 1)
  {
    var s := Sides(conditions, |b|);
    l', blk' := l, blk;
    var t := 1;
    while t < s[a]
      invariant 1 <= t && (s[a] >= 1 ==> t <= s[a]) && Growing(l', blk', b, columns, conditions, cube, a)
      invariant t > 1 ==> forall e | e in cube :: Covered(l', e, 1, a)
    {
      l', blk' := GrowOnce(l', blk', b, columns, conditions, cube, a);
      t := t + 1;
    }
    SpreadNext(l', cube, s, a);
  }

  /** Copies along axis `a` extend the spread to the axes before `a + 1`;
      an axis of side below 2 needs none. */
  lemma {:induction false} SpreadNext(l: Lattice, cube: seq<Edge>, s: seq<nat>, a: nat)
    requires Spread(l, cube, s, a) && a < |s|
    requires s[a] >= 2 ==> forall e | e in cube :: Covered(l, e, 1, a)
    ensures Spread(l, cube, s, a + 1)
  {
  }

  /** `createBaseBlock(conditions, B)`. The sides are the columns' largest
      absolute entries. The pools are new, with bucket range 2; the vector
      count is set to the dimension plus `B`'s column count; the origin's
      vertex is got. Then comes the cube stage, whose edges are returned as
      `cube`, and last, along each axis `a`, the block is shifted one step
      `sides[a] - 1` times. A pool of dimension 0 cannot get its origin. */
  method CreateBaseBlock(conditions: seq<seq<int>>, b: seq<seq<real>>, columns: nat) returns (r: Result<(Lattice, Block)>, cube: seq<Edge>)
    requires IsMatrix(b, columns) && IsGrid(conditions, |b|) && |conditions| == columns
    ensures |b| == 0 ==> r == Fail(UnboundLocal)
    ensures |b| > 0 ==> r.Ok? && Built(conditions, b, columns, r.value.0, r.value.1, cube)
  {
    var d := Displacements(|b|, conditions);
    var got := GetVertex(NewPool(b, columns, 2), Origin(|b|));
    if got.Fail? {
      return Fail(got.error), [];
    }
    OriginGot(b, columns, d);
    StartBuilding(got.value.0, b, columns, d);
    var l, blk := UnitCube(Lattice(got.value.0, EmptyPool()), Block([], |b|, |b| + columns), b, columns, conditions);
    cube := blk.edges;
    var a := 0;
    while a < |b|
      invariant a <= |b| && Growing(l, blk, b, columns, conditions, cube, a)
    {
      l, blk := GrowAxis(l, blk, b, columns, conditions, cube, a);
      a := a + 1;
    }
    r := Ok((l, blk));
  }

  // ---------------------------------------------------------------------
  // createInteriorBlock
  // ---------------------------------------------------------------------

  /** An edge between two vertices the pool already has creates no vertex:
      `GetVertex` finds both ends, and the rejection of a taken slot only
      retracts the weight. */
  lemma {:induction false} PlaceKeepsVertices(l: Lattice, b: Block, head: Position, tail: Position, vectorId: nat, numEdges: int)
    requires LatticeValid(l) && Located(l.pool, head) && Located(l.pool, tail)
    requires Place(l, b, head, tail, vectorId, numEdges).Ok?
    ensures |Place(l, b, head, tail, vectorId, numEdges).value.0.pool.vertices| == |l.pool.vertices|
  {
    var (l1, e) := CreateEdge(l, head, tail, vectorId, numEdges);
    assert l1.pool.vertices == l.pool.vertices;
    var t :| 0 <= t < |l1.pool.vertices| && l1.pool.vertices[t].position == tail;
    var h :| 0 <= h < |l1.pool.vertices| && l1.pool.vertices[h].position == head;
    GetVertexFound(l1.pool, tail, t);
    GetVertexFound(l1.pool, head, h);
    assert Endpoints(l1.pool, e) == Ok((l1.pool, t, h));
    assert Blocks.AddEdge(l1, b, e) == Settle(l1.pool, l1.edgePool, b, t, h, e);
    SettleKeepsVertices(l1.pool, l1.edgePool, b, t, h, e);
  }

  /** Offering an edge to two vertices keeps the vertex count, whether the
      edge is kept or its weight retracted. */
  lemma {:induction false} SettleKeepsVertices(p: Pool, ep: EdgePool, b: Block, t: nat, h: nat, e: Edge)
    requires PoolValid(p) && t < |p.vertices| && h < |p.vertices| && e.weight < |p.web.nodes|
    requires Settle(p, ep, b, t, h, e).Ok?
    ensures |Settle(p, ep, b, t, h, e).value.0.pool.vertices| == |p.vertices|
  {
    var (q, accepted) := AddVertices(p, t, h, e).value;
    assert |q.vertices| == |p.vertices|;
  }

  /** A pool that grew without gaining a vertex has the same vertices at
      the same positions. */
  lemma {:induction false} SameLocated(p: Pool, q: Pool, position: Position)
    requires Extends(p, q) && |q.vertices| == |p.vertices|
    ensures Located(q, position) <==> Located(p, position)
  {
    if Located(q, position) {
      var j :| 0 <= j < |q.vertices| && q.vertices[j].position == position;
      assert p.vertices[j].position == position;
    } else if Located(p, position) {
      LocatedKept(p, q, position);
    }
  }

  /** Every edge of the interior stands for a row of the condition matrix,
      with that row's multiple as its count. */
  predicate Labelled(ib: Block, dim: nat, conditions: seq<seq<int>>, multiples: seq<int>)
    requires |multiples| == |conditions|
  {
    forall e | e in ib.edges :: dim <= e.vectorId < dim + |conditions| && e.numEdges == multiples[e.vectorId - dim]
  }

  /** Every edge of the block joins two vertices of the pool. */
  predicate Joins(p: Pool, ib: Block)
  {
    forall e | e in ib.edges :: Located(p, e.tail) && Located(p, e.head)
  }

  /** The interior under construction over the pools `l0` started from:
      the construction invariant, no vertex gained, the vector count
      copied, labelled edges, each between vertices `l0` had. */
  predicate Linking(l0: Lattice, l: Lattice, ib: Block, conditions: seq<seq<int>>, multiples: seq<int>, numVectors: int)
    requires |multiples| == |conditions| && IsGrid(conditions, Dimension(l0.pool))
  {
    Grounded(l, ib, Displacements(Dimension(l0.pool), conditions)) && Framed(l0, l, ib, conditions, multiples, numVectors)
  }

  /** The part of `Linking` about what the interior keeps from `l0`. */
  predicate Framed(l0: Lattice, l: Lattice, ib: Block, conditions: seq<seq<int>>, multiples: seq<int>, numVectors: int)
    requires |multiples| == |conditions|
  {
    && Extends(l0.pool, l.pool) && OutKept(l0.pool, l.pool) && |l.pool.vertices| == |l0.pool.vertices|
    && ib.numVectors == numVectors && Labelled(ib, Dimension(l0.pool), conditions, multiples) && Joins(l0.pool, ib)
  }

  /** Vertex `k` of `p0` has its slot for row `r` filled in `q` whenever its
      translate by the row is a vertex of `p0`. */
  predicate LinkedAt(p0: Pool, q: Pool, conditions: seq<seq<int>>, r: nat, k: nat)
    requires r < |conditions| && k < |p0.vertices|
  {
    |conditions[r]| == |p0.vertices[k].position| && Located(p0, Translate(p0.vertices[k].position, conditions[r])) ==>
      Filled(q, p0.vertices[k].position, Dimension(p0) + r)
  }

  /** `LinkedAt` for the rows before `i`, and for the first `j` vertices of
      row `i`. */
  predicate Linked(p0: Pool, q: Pool, conditions: seq<seq<int>>, i: nat, j: nat)
  {
    forall r, k | 0 <= r < |conditions| && 0 <= k < |p0.vertices| && (r < i || (r == i && k < j)) :: LinkedAt(p0, q, conditions, r, k)
  }

  /** No two vertices of the pool share a position. */
  predicate Unique(p: Pool)
  {
    forall a, b | 0 <= a < b < |p.vertices| :: p.vertices[a].position != p.vertices[b].position
  }

  lemma {:induction false} UniqueOf(p: Pool)
    requires PoolValid(p)
    ensures Unique(p)
  {
    forall a, b | 0 <= a < b < |p.vertices|
      ensures p.vertices[a].position != p.vertices[b].position
    {
      if p.vertices[a].position == p.vertices[b].position {
        assert false;
      }
    }
  }

  /** A filled slot stays filled in a pool that only grew, the one vertex
      at its position keeping its outgoing edges. */
  lemma {:induction false} FilledStays(p: Pool, q: Pool, position: Position, k: nat)
    requires Unique(q) && Extends(p, q) && OutKept(p, q) && Located(p, position) && Filled(p, position, k)
    ensures Filled(q, position, k)
  {
    var t :| 0 <= t < |p.vertices| && p.vertices[t].position == position;
    forall j | 0 <= j < |q.vertices| && q.vertices[j].position == position
      ensures k < |q.vertices[j].edges| && q.vertices[j].edges[k].0.Some?
    {
      assert q.vertices[t].position == position;
    }
  }

  /** One linked fact survives a pool that only grew. */
  lemma {:induction false} LinkedAtKept(p0: Pool, q: Pool, q': Pool, conditions: seq<seq<int>>, r: nat, k: nat)
    requires r < |conditions| && k < |p0.vertices|
    requires LinkedAt(p0, q, conditions, r, k) && Unique(q') && Extends(p0, q) && Extends(q, q') && OutKept(q, q')
    ensures LinkedAt(p0, q', conditions, r, k)
  {
    var pos := p0.vertices[k].position;
    if |conditions[r]| == |pos| && Located(p0, Translate(pos, conditions[r])) {
      assert q.vertices[k].position == pos;
      FilledStays(q, q', pos, Dimension(p0) + r);
    }
  }

  /** `block.AddEdge(block.CreateEdge(head, tail, vector_id, num_edges))`
      between two vertices the pool already has: the construction goes on,
      no vertex is created, the tail's slot is filled, and the edge joins
      the block unless the slot was taken before. */
  method Join(l: Lattice, b: Block, head: Position, tail: Position, vectorId: nat, numEdges: int, d: seq<seq<int>>)
    returns (l': Lattice, b': Block)
    requires Grounded(l, b, d) && Located(l.pool, head) && Located(l.pool, tail)
    requires |tail| == Dimension(l.pool) && vectorId < CutSize(l.pool) && Along(Edge(head, tail, vectorId, numEdges, 0), d)
    ensures Grounded(l', b', d) && Extends(l.pool, l'.pool) && OutKept(l.pool, l'.pool) && |l'.pool.vertices| == |l.pool.vertices|
    ensures Filled(l'.pool, tail, vectorId) && b'.numVectors == b.numVectors
    ensures b'.edges == b.edges || b'.edges == b.edges + [Edge(head, tail, vectorId, numEdges, |l.pool.web.nodes|)]
  {
    PlaceStep(l, b, head, tail, vectorId, numEdges, d);
    PlaceKeepsVertices(l, b, head, tail, vectorId, numEdges);
    var placed := Place(l, b, head, tail, vectorId, numEdges);
    l', b' := placed.value.0, placed.value.1;
  }

  /** What an interior `Join` keeps from `l0`. */
  lemma {:induction false} LinkKept(l0: Lattice, l: Lattice, ib: Block, l': Lattice, ib': Block, conditions: seq<seq<int>>, multiples: seq<int>,
                                    numVectors: int, head: Position, tail: Position, i: nat, k: nat, w: nat)
    requires |multiples| == |conditions| && i < |conditions| && k == Dimension(l0.pool) + i
    requires Framed(l0, l, ib, conditions, multiples, numVectors)
    requires Located(l.pool, head) && Located(l.pool, tail)
    requires Extends(l.pool, l'.pool) && OutKept(l.pool, l'.pool)
    requires |l'.pool.vertices| == |l.pool.vertices| && ib'.numVectors == ib.numVectors
    requires ib'.edges == ib.edges || ib'.edges == ib.edges + [Edge(head, tail, k, multiples[i], w)]
    ensures Framed(l0, l', ib', conditions, multiples, numVectors)
  {
    var x := Edge(head, tail, k, multiples[i], w);
    ExtendsTrans(l0.pool, l.pool, l'.pool);
    OutKeptTrans(l0.pool, l.pool, l'.pool);
    SameLocated(l0.pool, l.pool, head);
    SameLocated(l0.pool, l.pool, tail);
    LabelledAppend(l0.pool, ib, ib', conditions, multiples, x, i);
  }

  /** A placement along row `i` between vertices of `p0` keeps the edges
      labelled and joining vertices of `p0`. */
  lemma {:induction false} LabelledAppend(p0: Pool, ib: Block, ib': Block, conditions: seq<seq<int>>, multiples: seq<int>, x: Edge, i: nat)
    requires |multiples| == |conditions| && i < |conditions|
    requires Labelled(ib, Dimension(p0), conditions, multiples) && Joins(p0, ib)
    requires x.vectorId == Dimension(p0) + i && x.numEdges == multiples[i] && Located(p0, x.tail) && Located(p0, x.head)
    requires ib'.edges == ib.edges || ib'.edges == ib.edges + [x]
    ensures Labelled(ib', Dimension(p0), conditions, multiples) && Joins(p0, ib')
  {
    AppendEdges(ib, ib', x);
  }

  /** The edges after a placement are the earlier ones and perhaps `x`. */
  lemma {:induction false} AppendEdges(ib: Block, ib': Block, x: Edge)
    requires ib'.edges == ib.edges || ib'.edges == ib.edges + [x]
    ensures forall e | e in ib'.edges :: e in ib.edges || e == x
  {
  }

  /** Linked facts survive a pool that only grew. */
  lemma {:induction false} LinkedKept(p0: Pool, q: Pool, q': Pool, conditions: seq<seq<int>>, i: nat, j: nat)
    requires Linked(p0, q, conditions, i, j) && Unique(q') && Extends(p0, q) && Extends(q, q') && OutKept(q, q')
    ensures Linked(p0, q', conditions, i, j)
  {
    forall r, k | 0 <= r < |conditions| && 0 <= k < |p0.vertices| && (r < i || (r == i && k < j))
      ensures LinkedAt(p0, q', conditions, r, k)
    {
      LinkedAtKept(p0, q, q', conditions, r, k);
    }
  }

  /** A step that fills the slot of vertex `j` for row `i` links one more
      vertex. */
  lemma {:induction false} LinkedNext(p0: Pool, q: Pool, q': Pool, conditions: seq<seq<int>>, i: nat, j: nat)
    requires i < |conditions| && j < |p0.vertices|
    requires Linked(p0, q, conditions, i, j) && Unique(q') && Extends(p0, q) && Extends(q, q') && OutKept(q, q')
    requires LinkedAt(p0, q', conditions, i, j)
    ensures Linked(p0, q', conditions, i, j + 1)
  {
    forall r, k | 0 <= r < |conditions| && 0 <= k < |p0.vertices| && (r < i || (r == i && k < j + 1))
      ensures LinkedAt(p0, q', conditions, r, k)
    {
      if r < i || k < j {
        LinkedAtKept(p0, q, q', conditions, r, k);
      }
    }
  }

  /** One edge of the interior along row `i` between two vertices `l0`
      had. */
  method LinkOne(l0: Lattice, l: Lattice, ib: Block, conditions: seq<seq<int>>, multiples: seq<int>, numVectors: int, i: nat,
                 head: Position, tail: Position, k: nat)
    returns (l': Lattice, ib': Block)
    requires |multiples| == |conditions| && IsGrid(conditions, Dimension(l0.pool)) && |conditions| == l0.pool.columns && i < |conditions|
    requires Linking(l0, l, ib, conditions, multiples, numVectors)
    requires Located(l0.pool, head) && Located(l0.pool, tail) && |tail| == Dimension(l0.pool)
    requires k == Dimension(l0.pool) + i && Along(Edge(head, tail, k, multiples[i], 0), Displacements(Dimension(l0.pool), conditions))
    ensures Linking(l0, l', ib', conditions, multiples, numVectors) && Extends(l.pool, l'.pool) && OutKept(l.pool, l'.pool)
    ensures Filled(l'.pool, tail, k)
  {
    SameLocated(l0.pool, l.pool, head);
    SameLocated(l0.pool, l.pool, tail);
    l', ib' := Join(l, ib, head, tail, k, multiples[i], Displacements(Dimension(l0.pool), conditions));
    LinkKept(l0, l, ib, l', ib', conditions, multiples, numVectors, head, tail, i, k, |l.pool.web.nodes|);
  }

  /** The first half of the inner loop's body: when the translate of
      vertex `j` by row `i` is a vertex, an edge from vertex `j` to it.
      `has_vertex` answers exactly `Located` (`Vertices.HasVertex`). */
  method LinkUp(l0: Lattice, l: Lattice, ib: Block, conditions: seq<seq<int>>, multiples: seq<int>, numVectors: int, i: nat, j: nat)
    returns (l': Lattice, ib': Block)
    requires |multiples| == |conditions| && IsGrid(conditions, Dimension(l0.pool)) && |conditions| == l0.pool.columns
    requires i < |conditions| && j < |l0.pool.vertices|
    requires Linking(l0, l, ib, conditions, multiples, numVectors)
    ensures Linking(l0, l', ib', conditions, multiples, numVectors) && Extends(l.pool, l'.pool) && OutKept(l.pool, l'.pool)
    ensures LinkedAt(l0.pool, l'.pool, conditions, i, j)
  {
    var pos := l0.pool.vertices[j].position;
    assert l.pool.vertices[j].position == pos;
    var up := Translate(pos, conditions[i]);
    l', ib' := l, ib;
    var k := Dimension(l0.pool) + i;
    if Located(l0.pool, up) {
      UpAlong(pos, conditions, i);
      l', ib' := LinkOne(l0, l, ib, conditions, multiples, numVectors, i, up, pos, k);
      LinkedAtFilled(l0.pool, l'.pool, conditions, i, j, pos, k);
    } else {
      LinkedAtAbsent(l0.pool, l'.pool, conditions, i, j);
    }
  }

  /** A vertex whose slot for the row is filled is linked. */
  lemma {:induction false} LinkedAtFilled(p0: Pool, q: Pool, conditions: seq<seq<int>>, i: nat, j: nat, position: Position, k: nat)
    requires i < |conditions| && j < |p0.vertices| && k == Dimension(p0) + i
    requires position == p0.vertices[j].position && Filled(q, position, k)
    ensures LinkedAt(p0, q, conditions, i, j)
  {
  }

  /** A vertex whose translate by the row is no vertex is linked. */
  lemma {:induction false} LinkedAtAbsent(p0: Pool, q: Pool, conditions: seq<seq<int>>, i: nat, j: nat)
    requires i < |conditions| && j < |p0.vertices| && |conditions[i]| == |p0.vertices[j].position|
    requires !Located(p0, Translate(p0.vertices[j].position, conditions[i]))
    ensures LinkedAt(p0, q, conditions, i, j)
  {
  }

  /** The edge from a position to its translate by row `i` runs along that
      row's displacement. */
  lemma {:induction false} UpAlong(position: Position, conditions: seq<seq<int>>, i: nat)
    requires i < |conditions| && |conditions[i]| == |position|
    ensures Along(Edge(Translate(position, conditions[i]), position, |position| + i, 0, 0), Displacements(|position|, conditions))
  {
  }

  /** The edge from `position` back to its translate by `-c` runs along `c`. */
  lemma {:induction false} DownAlong(position: Position, c: seq<int>, d: seq<seq<int>>, k: nat, m: int)
    requires |c| == |position| && k < |d| && d[k] == c
    ensures Along(Edge(position, Minus(position, c), k, m, 0), d)
  {
    MinusTranslate(position, c);
  }

  /** The second half: when the translate of vertex `j` back by row `i` is
      a vertex, an edge from it to vertex `j`. This is the up edge of that
      other vertex, so it adds no linked fact of its own. */
  method LinkDown(l0: Lattice, l: Lattice, ib: Block, conditions: seq<seq<int>>, multiples: seq<int>, numVectors: int, i: nat, j: nat)
    returns (l': Lattice, ib': Block)
    requires |multiples| == |conditions| && IsGrid(conditions, Dimension(l0.pool)) && |conditions| == l0.pool.columns
    requires i < |conditions| && j < |l0.pool.vertices|
    requires Linking(l0, l, ib, conditions, multiples, numVectors)
    ensures Linking(l0, l', ib', conditions, multiples, numVectors) && Extends(l.pool, l'.pool) && OutKept(l.pool, l'.pool)
  {
    var pos := l0.pool.vertices[j].position;
    var down := Minus(pos, conditions[i]);
    if !Located(l0.pool, down) {
      PoolSelf(l.pool);
      return l, ib;
    }
    assert l.pool.vertices[j].position == pos;
    DownAlong(pos, conditions[i], Displacements(Dimension(l0.pool), conditions), Dimension(l0.pool) + i, multiples[i]);
    l', ib' := LinkOne(l0, l, ib, conditions, multiples, numVectors, i, pos, down, Dimension(l0.pool) + i);
  }

  /** A pool extends itself and keeps its own slots. */
  lemma {:induction false} PoolSelf(p: Pool)
    ensures Extends(p, p) && OutKept(p, p)
  {
  }

  /** The body of the inner loop for vertex `j` and row `i`: the up edge,
      then the down edge; vertex `j` is linked along row `i`. */
  method LinkVertex(l0: Lattice, l: Lattice, ib: Block, conditions: seq<seq<int>>, multiples: seq<int>, numVectors: int, i: nat, j: nat)
    returns (l': Lattice, ib': Block)
    requires |multiples| == |conditions| && IsGrid(conditions, Dimension(l0.pool)) && |conditions| == l0.pool.columns
    requires i < |conditions| && j < |l0.pool.vertices|
    requires Linking(l0, l, ib, conditions, multiples, numVectors) && Linked(l0.pool, l.pool, conditions, i, j)
    ensures Linking(l0, l', ib', conditions, multiples, numVectors) && Linked(l0.pool, l'.pool, conditions, i, j + 1)
  {
    var l1, ib1 := LinkUp(l0, l, ib, conditions, multiples, numVectors, i, j);
    var p0, p, p1 := l0.pool, l.pool, l1.pool;
    UniqueOf(p1);
    LinkedNext(p0, p, p1, conditions, i, j);
    l', ib' := LinkDown(l0, l1, ib1, conditions, multiples, numVectors, i, j);
    var p' := l'.pool;
    UniqueOf(p');
    ExtendsTrans(p0, p, p1);
    LinkedKept(p0, p1, p', conditions, i, j + 1);
  }

  /** Every vertex linked along row `i`: the rows up to `i` are done. */
  lemma {:induction false} LinkedRow(p0: Pool, q: Pool, conditions: seq<seq<int>>, i: nat)
    requires Linked(p0, q, conditions, i, |p0.vertices|)
    ensures Linked(p0, q, conditions, i + 1, 0)
  {
  }

  /** The inner loop of `createInteriorBlock`: every vertex of the shared
      pool, row `i`. No vertex is created, so the live list keeps its
      length. */
  method LinkRow(l0: Lattice, l: Lattice, ib: Block, conditions: seq<seq<int>>, multiples: seq<int>, numVectors: int, i: nat)
    returns (l': Lattice, ib': Block)
    requires |multiples| == |conditions| && IsGrid(conditions, Dimension(l0.pool)) && |conditions| == l0.pool.columns
    requires i < |conditions|
    requires Linking(l0, l, ib, conditions, multiples, numVectors) && Linked(l0.pool, l.pool, conditions, i, 0)
    ensures Linking(l0, l', ib', conditions, multiples, numVectors) && Linked(l0.pool, l'.pool, conditions, i + 1, 0)
  {
    l', ib' := l, ib;
    var j := 0;
    while j < |l'.pool.vertices|
      invariant j <= |l0.pool.vertices|
      invariant Linking(l0, l', ib', conditions, multiples, numVectors) && Linked(l0.pool, l'.pool, conditions, i, j)
    {
      l', ib' := LinkVertex(l0, l', ib', conditions, multiples, numVectors, i, j);
      j := j + 1;
    }
    LinkedRow(l0.pool, l'.pool, conditions, i);
  }

  /** The interior starts with no edges and the base block's vector count. */
  lemma {:induction false} InteriorStart(l: Lattice, base: Block, conditions: seq<seq<int>>, multiples: seq<int>)
    requires |multiples| == |conditions| && IsGrid(conditions, Dimension(l.pool))
    requires Grounded(l, base, Displacements(Dimension(l.pool), conditions))
    ensures Linking(l, l, NewBlock(l).(numVectors := base.numVectors), conditions, multiples, base.numVectors)
    ensures Linked(l.pool, l.pool, conditions, 0, 0)
  {
  }

  /** `createInteriorBlock(conditions, multiples, baseblock)`: over the base
      block's pools, for every row `i` of the conditions and every vertex,
      an edge along the row to the vertex's translate and one from its
      translate back by the row, whenever that translate is a vertex. The
      result keeps the construction invariant and creates no vertex; its
      edges are labelled by the rows with their multiples and join vertices
      of the base; and every vertex whose translate by a row is a vertex has
      its slot for that row filled. */
  method CreateInteriorBlock(l: Lattice, base: Block, conditions: seq<seq<int>>, multiples: seq<int>)
    returns (l': Lattice, ib: Block)
    requires Grounded(l, base, Displacements(Dimension(l.pool), conditions))
    requires IsGrid(conditions, Dimension(l.pool)) && |conditions| == l.pool.columns && |multiples| == |conditions|
    ensures Linking(l, l', ib, conditions, multiples, base.numVectors) && ib.dimension == Dimension(l.pool)
    ensures Linked(l.pool, l'.pool, conditions, |conditions|, 0)
  {
    InteriorStart(l, base, conditions, multiples);
    l', ib := l, NewBlock(l).(numVectors := base.numVectors);
    var i := 0;
    while i < |conditions|
      invariant i <= |conditions| && ib.dimension == Dimension(l.pool)
      invariant Linking(l, l', ib, conditions, multiples, base.numVectors) && Linked(l.pool, l'.pool, conditions, i, 0)
    {
      l', ib := LinkRow(l, l', ib, conditions, multiples, base.numVectors, i);
      i := i + 1;
    }
  }
}
