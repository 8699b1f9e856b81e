/** The driver of the `Kirchhoff` class (`kirky/__init__.py:97-453`): the
    block and its interior over one lattice, growing them, locking cut
    entries to zero, locking a found solution onto the edge weights, and
    reading the incidence matrix off the vertices' cuts. The nullspace
    solver is a parameter. */
module Kirchhoff {
  import opened Wrappers
  import opened Symbolic
  import opened Vertices
  import opened Blocks
  import opened Edges
  import KirchhoffSystem
  import KirchhoffEdges

  // ---------------------------------------------------------------------
  // Locking and keeping locks
  // ---------------------------------------------------------------------

  /** `v` is `w` after locking: the same nodes in shape, and every lock of
      `w` kept with its value. */
  predicate Kept(w: Web, v: Web)
  {
    && |v.nodes| == |w.nodes|
    && forall i | 0 <= i < |w.nodes| ::
         SameShape(w.nodes[i], v.nodes[i]) && (w.nodes[i].lock ==> v.nodes[i].lock && v.nodes[i].value == w.nodes[i].value)
  }

  lemma {:induction false} KeptRefl(w: Web)
    ensures Kept(w, w)
  {
  }

  lemma {:induction false} KeptTrans(a: Web, b: Web, c: Web)
    requires Kept(a, b) && Kept(b, c)
    ensures Kept(a, c)
  {
  }

  /** `if not node.lock: web.Lock(node, value)`: a locked node is left
      alone; otherwise it is locked to `value` with its cascade (`down`
      selects `LockDown`). Every lock held before is kept. */
  method LockIfUnlocked(w: Web, id: nat, value: real, down: bool, fuel: nat) returns (r: Result<Web>)
    requires Valid(w) && id < |w.nodes|
    ensures w.nodes[id].lock ==> r == Ok(w)
    ensures r.Ok? ==> Valid(r.value) && Kept(w, r.value) && r.value.nodes[id].lock
    ensures r.Ok? && !w.nodes[id].lock ==> r.value.nodes[id].value == Some(value)
  {
    if w.nodes[id].lock {
      return Ok(w);
    }
    r := if down then LockDown(w, id, value, fuel) else Lock(w, id, value, fuel);
    if r.Ok? {
      assert Grows(Push(w, id), r.value);
      assert forall i | 0 <= i < |w.nodes| :: NodeGrows(Push(w, id).nodes[i], r.value.nodes[i]);
    }
  }

  // ---------------------------------------------------------------------
  // `LockZeroes`
  // ---------------------------------------------------------------------

  /** Every vertex has one edge slot per cut node, and its cut nodes are in
      a web of `n` nodes. */
  predicate CutsIn(vs: seq<Vertex>, n: nat)
  {
    forall j | 0 <= j < |vs| :: |vs[j].edges| == |vs[j].cut| && forall i | 0 <= i < |vs[j].cut| :: vs[j].cut[i] < n
  }

  /** No edge at all, in or out, uses slot `i` of the vertex. */
  predicate Bare(v: Vertex, i: nat)
    requires i < |v.edges|
  {
    v.edges[i].0.None? && v.edges[i].1.None?
  }

  /** The number of bare slots among the first `n`. */
  function Bares(v: Vertex, n: nat): nat
    requires n <= |v.edges|
  {
    if n == 0 then 0 else Bares(v, n - 1) + if Bare(v, n - 1) then 1 else 0
  }

  /** The rule for locking the whole cut: too few slots would be left for
      `minVectors` vectors, and the cut is not bare throughout. */
  predicate Crowded(v: Vertex, numVectors: int, minVectors: int)
  {
    var count := Bares(v, |v.edges|);
    minVectors > numVectors - count && count != |v.cut|
  }

  /** What `LockZeroes` asks of a vertex: every bare slot's cut node is
      locked, and every cut node is when the cut is crowded. */
  predicate ZeroesLocked(w: Web, v: Vertex, numVectors: int, minVectors: int)
    requires |v.edges| == |v.cut| && forall i | 0 <= i < |v.cut| :: v.cut[i] < |w.nodes|
  {
    && (forall i | 0 <= i < |v.cut| && Bare(v, i) :: w.nodes[v.cut[i]].lock)
    && (Crowded(v, numVectors, minVectors) ==> forall i | 0 <= i < |v.cut| :: w.nodes[v.cut[i]].lock)
  }

  /** Every listed node is locked. */
  predicate AllLocked(w: Web, ids: seq<nat>)
  {
    forall j | 0 <= j < |ids| :: ids[j] < |w.nodes| && w.nodes[ids[j]].lock
  }

  /** Locks listed stay locked, and one more can be listed. */
  lemma {:induction false} AllLockedStep(w: Web, v: Web, ids: seq<nat>, id: nat)
    requires Kept(w, v) && AllLocked(w, ids) && id < |v.nodes| && v.nodes[id].lock
    ensures AllLocked(v, ids + [id])
  {
    forall j | 0 <= j < |ids|
      ensures v.nodes[ids[j]].lock
    {
      assert w.nodes[ids[j]].lock;
    }
  }

  /** Lock to zero every cut node of the vertex from slot `from` on that is
      not locked yet. */
  method LockCut(w: Web, v: Vertex, from: nat, fuel: nat) returns (r: Result<Web>)
    requires Valid(w) && from <= |v.cut| && forall i | 0 <= i < |v.cut| :: v.cut[i] < |w.nodes|
    ensures r.Ok? ==> Valid(r.value) && Kept(w, r.value)
    ensures r.Ok? ==> AllLocked(r.value, v.cut[from..])
  {
    var u := w;
    var i := from;
    while i < |v.cut|
      invariant from <= i <= |v.cut| && Valid(u) && Kept(w, u)
      invariant AllLocked(u, v.cut[from..i])
    {
      var s := LockIfUnlocked(u, v.cut[i], 0.0, false, fuel);
      if s.Fail? {
        return s;
      }
      KeptTrans(w, u, s.value);
      AllLockedStep(u, s.value, v.cut[from..i], v.cut[i]);
      assert v.cut[from..i + 1] == v.cut[from..i] + [v.cut[i]];
      u, i := s.value, i + 1;
    }
    assert v.cut[from..] == v.cut[from..i];
    r := Ok(u);
  }

  /** The first loop of `LockZeroes` over one vertex: lock each bare slot's
      cut node to zero and count the bare slots. */
  method LockBare(w: Web, v: Vertex, fuel: nat) returns (r: Result<Web>, count: nat)
    requires Valid(w) && |v.edges| == |v.cut| && forall i | 0 <= i < |v.cut| :: v.cut[i] < |w.nodes|
    ensures count == Bares(v, |v.edges|)
    ensures r.Ok? ==> Valid(r.value) && Kept(w, r.value)
    ensures r.Ok? ==> forall i | 0 <= i < |v.cut| && Bare(v, i) :: r.value.nodes[v.cut[i]].lock
  {
    var u := w;
    count := 0;
    var i := 0;
    while i < |v.edges|
      invariant i <= |v.edges| && Valid(u) && Kept(w, u) && count == Bares(v, i)
      invariant forall i' | 0 <= i' < i && Bare(v, i') :: u.nodes[v.cut[i']].lock
    {
      if Bare(v, i) {
        var s := LockIfUnlocked(u, v.cut[i], 0.0, false, fuel);
        if s.Fail? {
          r, count := s, Bares(v, |v.edges|);
          return;
        }
        KeptTrans(w, u, s.value);
        u := s.value;
        count := count + 1;
      }
      i := i + 1;
    }
    r := Ok(u);
  }

  /** `LockZeroes()` for one vertex. */
  method LockVertexZeroes(w: Web, v: Vertex, numVectors: int, minVectors: int, fuel: nat) returns (r: Result<Web>)
    requires Valid(w) && |v.edges| == |v.cut| && forall i | 0 <= i < |v.cut| :: v.cut[i] < |w.nodes|
    ensures r.Ok? ==> Valid(r.value) && Kept(w, r.value) && ZeroesLocked(r.value, v, numVectors, minVectors)
  {
    var s, count := LockBare(w, v, fuel);
    if s.Fail? || !(minVectors > numVectors - count && count != |v.cut|) {
      return s;
    }
    r := LockCut(s.value, v, 0, fuel);
    if r.Ok? {
      KeptTrans(w, s.value, r.value);
    }
  }

  /** `LockZeroes()`: for every vertex in turn, lock to zero the cut
      entries no edge uses, and the whole cut when too few entries would
      be left for `minVectors` vectors. Locks already held are kept, and
      every vertex ends as the rule asks. */
  method LockZeroes(w: Web, vs: seq<Vertex>, numVectors: int, minVectors: int, fuel: nat) returns (r: Result<Web>)
    requires Valid(w) && CutsIn(vs, |w.nodes|)
    ensures r.Ok? ==> Valid(r.value) && Kept(w, r.value)
    ensures r.Ok? ==> forall j | 0 <= j < |vs| :: ZeroesLocked(r.value, vs[j], numVectors, minVectors)
  {
    var u := w;
    var j := 0;
    while j < |vs|
      invariant j <= |vs| && Valid(u) && Kept(w, u)
      invariant forall j' | 0 <= j' < j :: ZeroesLocked(u, vs[j'], numVectors, minVectors)
    {
      var s := LockVertexZeroes(u, vs[j], numVectors, minVectors, fuel);
      if s.Fail? {
        return s;
      }
      KeptTrans(w, u, s.value);
      forall j' | 0 <= j' < j
        ensures ZeroesLocked(s.value, vs[j'], numVectors, minVectors)
      {
        ZeroesKept(u, s.value, vs[j'], numVectors, minVectors);
      }
      u, j := s.value, j + 1;
    }
    r := Ok(u);
  }

  /** What `LockZeroes` established survives further locking. */
  lemma {:induction false} ZeroesKept(w: Web, w': Web, v: Vertex, numVectors: int, minVectors: int)
    requires |v.edges| == |v.cut| && forall i | 0 <= i < |v.cut| :: v.cut[i] < |w.nodes|
    requires Kept(w, w') && ZeroesLocked(w, v, numVectors, minVectors)
    ensures ZeroesLocked(w', v, numVectors, minVectors)
  {
  }

  // ---------------------------------------------------------------------
  // `LockSolutionEdgeOnly`
  // ---------------------------------------------------------------------

  /** `LockSolutionEdgeOnly(solution)`: for each edge weight in turn, read
      its entry of the nullspace vector (a short vector raises), and lock
      it down to that entry unless it is locked already. Every edge weight
      ends locked; locks already held are kept. */
  method LockSolutionEdgeOnly(w: Web, weights: seq<nat>, vector: seq<real>, fuel: nat) returns (r: Result<Web>)
    requires Valid(w) && forall i | 0 <= i < |weights| :: weights[i] < |w.nodes|
    ensures |vector| < |weights| ==> r.Fail?
    ensures r.Ok? ==> Valid(r.value) && Kept(w, r.value)
    ensures r.Ok? ==> forall i | 0 <= i < |weights| :: r.value.nodes[weights[i]].lock
  {
    var u := w;
    var i := 0;
    while i < |weights|
      invariant i <= |weights| && i <= |vector| && Valid(u) && Kept(w, u)
      invariant forall i' | 0 <= i' < i :: u.nodes[weights[i']].lock
    {
      if i >= |vector| {
        return Fail(IndexError);
      }
      var s := LockIfUnlocked(u, weights[i], vector[i], true, fuel);
      if s.Fail? {
        return s;
      }
      KeptTrans(w, u, s.value);
      u, i := s.value, i + 1;
    }
    r := Ok(u);
  }

  // ---------------------------------------------------------------------
  // `GetIncidenceMatrix`
  // ---------------------------------------------------------------------

  /** Column `k` of a vertex's row: its `k`th cut node's value, or the zero
      the matrix starts with past the cut. An unset value stays `None`. */
  function Cell(w: Web, v: Vertex, k: nat): Option<real>
    requires forall i | 0 <= i < |v.cut| :: v.cut[i] < |w.nodes|
  {
    if k < |v.cut| then w.nodes[v.cut[k]].value else Some(0.0)
  }

  /** The incidence matrix: one row per vertex, one column per vector. */
  function IncidenceMatrix(w: Web, vs: seq<Vertex>, numVectors: nat): (m: seq<seq<Option<real>>>)
    requires CutsIn(vs, |w.nodes|)
  {
    seq(|vs|, r requires 0 <= r < |vs| => seq(numVectors, k requires 0 <= k < numVectors => Cell(w, vs[r], k)))
  }

  /** Some vertex has more cut nodes than the matrix has columns. */
  predicate CutTooWide(vs: seq<Vertex>, numVectors: int)
  {
    exists j | 0 <= j < |vs| :: |vs[j].cut| > numVectors
  }

  /** `GetIncidenceMatrix()`: a zero matrix of one row per vertex and
      `num_vectors` columns, then each vertex's cut values written into its
      row in order. A negative column count is refused, and a cut wider
      than the matrix fails on the first column past its end. */
  method GetIncidenceMatrix(w: Web, vs: seq<Vertex>, numVectors: int) returns (r: Result<seq<seq<Option<real>>>>)
    requires CutsIn(vs, |w.nodes|)
    ensures numVectors < 0 ==> r == Fail(ValueError)
    ensures numVectors >= 0 && CutTooWide(vs, numVectors) ==> r == Fail(IndexError)
    ensures numVectors >= 0 && !CutTooWide(vs, numVectors) ==> r == Ok(IncidenceMatrix(w, vs, numVectors))
  {
    if numVectors < 0 {
      return Fail(ValueError);
    }
    var m: seq<seq<Option<real>>> := seq(|vs|, _ => seq(numVectors, _ => Some(0.0)));
    var row := 0;
    while row < |vs|
      invariant row <= |vs| && |m| == |vs|
      invariant forall j | 0 <= j < row :: |vs[j].cut| <= numVectors
      invariant forall j | 0 <= j < |vs| :: |m[j]| == numVectors
      invariant forall j, k | 0 <= j < row && 0 <= k < numVectors :: m[j][k] == Cell(w, vs[j], k)
      invariant forall j, k | row <= j < |vs| && 0 <= k < numVectors :: m[j][k] == Some(0.0)
    {
      var v := vs[row];
      var id := 0;
      while id < |v.cut|
        invariant id <= |v.cut| && id <= numVectors && |m| == |vs|
        invariant forall j | 0 <= j < |vs| :: |m[j]| == numVectors
        invariant forall j, k | 0 <= j < row && 0 <= k < numVectors :: m[j][k] == Cell(w, vs[j], k)
        invariant forall k | 0 <= k < numVectors :: m[row][k] == if k < id then Cell(w, v, k) else Some(0.0)
        invariant forall j, k | row < j < |vs| && 0 <= k < numVectors :: m[j][k] == Some(0.0)
      {
        if id >= numVectors {
          return Fail(IndexError);
        }
        m := m[row := m[row][id := w.nodes[v.cut[id]].value]];
        id := id + 1;
      }
      row := row + 1;
    }
    var want := IncidenceMatrix(w, vs, numVectors);
    forall j | 0 <= j < |vs|
      ensures m[j] == want[j]
    {
      assert forall k | 0 <= k < numVectors :: m[j][k] == want[j][k];
    }
    assert m == want;
    r := Ok(m);
  }

  // ---------------------------------------------------------------------
  // `Grow`
  // ---------------------------------------------------------------------

  /** The web of the lattice replaced by one with the same nodes in shape:
      the vertices, the index and the edge pool stay as they are. */
  function WithWeb(l: Lattice, w: Web): (l': Lattice)
    ensures l'.pool.vertices == l.pool.vertices && l'.pool.web == w && l'.edgePool == l.edgePool
  {
    l.(pool := l.pool.(web := w))
  }

  /** Unlocking or locking changes no node's shape, so a block grounded on
      the old web is grounded on the new one. */
  lemma {:induction false} WebSwap(l: Lattice, b: Block, w: Web, d: seq<seq<int>>)
    requires Grounded(l, b, d) && Valid(w) && |w.nodes| == |l.pool.web.nodes|
    requires forall i | 0 <= i < |w.nodes| :: SameShape(l.pool.web.nodes[i], w.nodes[i])
    ensures Grounded(WithWeb(l, w), b, d)
    ensures Extends(l.pool, WithWeb(l, w).pool) && OutKept(l.pool, WithWeb(l, w).pool)
  {
    var l' := WithWeb(l, w);
    WebGrowsValid(l.pool, w);
    PlacedKept(l, l', b);
  }

  /** A second block on the same lattice stays grounded while the first
      one grows the pools. */
  lemma {:induction false} OtherKept(l: Lattice, c: Block, l': Lattice, b': Block, d: seq<seq<int>>)
    requires Grounded(l, c, d) && Grounded(l', b', d) && Extends(l.pool, l'.pool) && OutKept(l.pool, l'.pool)
    ensures Grounded(l', c, d)
  {
    PlacedKept(l, l', c);
  }

  /** Every edge of `es` stays covered while the pools only grow. */
  lemma {:induction false} CoveredAllKept(l: Lattice, l': Lattice, es: seq<Edge>, amount: int, k: nat)
    requires PoolValid(l'.pool) && Extends(l.pool, l'.pool) && OutKept(l.pool, l'.pool)
    requires forall j | 0 <= j < |es| :: Covered(l, es[j], amount, k)
    ensures forall j | 0 <= j < |es| :: Covered(l', es[j], amount, k)
  {
    forall j | 0 <= j < |es|
      ensures Covered(l', es[j], amount, k)
    {
      CoveredKept(l, l', es[j], amount, k);
    }
  }

  /** What `Grow` along coordinate `k` leaves: both blocks grounded on pools
      that only grew, each keeping its edges in front; the block's edges
      covered by their copies moved by the block's size along `k`, its new
      edges such copies, and, when that size is positive, the interior's
      edges covered by their copies moved by one. */
  predicate GrowPost(l: Lattice, b: Block, c: Block, l': Lattice, b': Block, c': Block, k: nat, d: seq<seq<int>>)
    requires k < |l.pool.size|
  {
    && Grounded(l', b', d) && Grounded(l', c', d) && Extends(l.pool, l'.pool) && OutKept(l.pool, l'.pool)
    && b.edges <= b'.edges && c.edges <= c'.edges
    && b'.dimension == b.dimension && c'.dimension == c.dimension
    && b'.numVectors == b.numVectors && c'.numVectors == c.numVectors
    && (forall j | 0 <= j < |b.edges| :: Covered(l', b.edges[j], l.pool.size[k], k))
    && (forall m | |b.edges| <= m < |b'.edges| :: ShiftedFrom(b'.edges[m], b.edges, l.pool.size[k], k))
    && (l.pool.size[k] > 0 ==> forall j | 0 <= j < |c.edges| :: Covered(l', c.edges[j], 1, k))
  }

  /** `Grow(dimension)`: unlock the web, read the block's size along the
      dimension (a Python subscript), shift the block by that amount, then
      shift the interior by one that many times. */
  method Grow(l: Lattice, b: Block, c: Block, dimension: int, d: seq<seq<int>>) returns (r: Result<(Lattice, Block, Block)>)
    requires Grounded(l, b, d) && Grounded(l, c, d) && c.dimension == b.dimension
    ensures Unlock(l.pool.web).Fail? ==> r == Fail(KeyError)
    ensures Unlock(l.pool.web).Ok? && PyIndex(Dimension(l.pool), dimension).Fail? ==> r == Fail(IndexError)
    ensures Unlock(l.pool.web).Ok? && PyIndex(Dimension(l.pool), dimension).Ok? ==> r.Ok?
    ensures r.Ok? ==> PyIndex(Dimension(l.pool), dimension).Ok? && Unlock(l.pool.web).Ok?
    ensures r.Ok? ==> var (l', b', c') := r.value;
      GrowPost(l, b, c, l', b', c', PyIndex(Dimension(l.pool), dimension).value, d)
  {
    var u := Unlock(l.pool.web);
    if u.Fail? {
      return Fail(KeyError);
    }
    var l1 := WithWeb(l, u.value);
    WebSwap(l, b, u.value, d);
    WebSwap(l, c, u.value, d);
    var size := Size(l1);
    var kr := PyIndex(|size|, dimension);
    if kr.Fail? {
      return Fail(IndexError);
    }
    var k := kr.value;
    var amount := size[k];
    var s := AddShift(l1, b, amount, dimension, d);
    var l2, b2 := s.value.0, s.value.1;
    ExtendsTrans(l.pool, l1.pool, l2.pool);
    OutKeptTrans(l.pool, l1.pool, l2.pool);
    OtherKept(l1, c, l2, b2, d);
    var c2 := c;
    var i := 0;
    while i < amount
      invariant Grounded(l2, b2, d) && Grounded(l2, c2, d) && Extends(l.pool, l2.pool) && OutKept(l.pool, l2.pool)
      invariant c.edges <= c2.edges && c2.dimension == c.dimension && c2.numVectors == c.numVectors
      invariant forall j | 0 <= j < |b.edges| :: Covered(l2, b.edges[j], amount, k)
      invariant i > 0 ==> forall j | 0 <= j < |c.edges| :: Covered(l2, c.edges[j], 1, k)
      invariant i == 0 ==> c2 == c
    {
      var t := AddShift(l2, c2, 1, dimension, d);
      var l3, c3 := t.value.0, t.value.1;
      OtherKept(l2, b2, l3, c3, d);
      CoveredAllKept(l2, l3, b.edges, amount, k);
      if i > 0 {
        CoveredAllKept(l2, l3, c.edges, 1, k);
      } else {
        assert forall j | 0 <= j < |c.edges| :: Covered(l3, c2.edges[j], 1, k);
      }
      PrefixTrans(c.edges, c2.edges, c3.edges);
      ExtendsTrans(l.pool, l2.pool, l3.pool);
      OutKeptTrans(l.pool, l2.pool, l3.pool);
      l2, c2, i := l3, c3, i + 1;
    }
    r := Ok((l2, b2, c2));
  }

  // ---------------------------------------------------------------------
  // `Find`
  // ---------------------------------------------------------------------

  /** Every vertex of a valid pool has its cut in the pool's web. */
  lemma {:induction false} PoolCuts(p: Pool)
    requires PoolValid(p)
    ensures CutsIn(p.vertices, |p.web.nodes|)
  {
    forall j | 0 <= j < |p.vertices|
      ensures |p.vertices[j].edges| == |p.vertices[j].cut|
      ensures forall i | 0 <= i < |p.vertices[j].cut| :: p.vertices[j].cut[i] < |p.web.nodes|
    {
      assert VertexIn(p.vertices[j], p.web);
    }
  }

  /** The nullspace solver: a basis of the nullspace of the given rows,
      empty when only the zero vector solves them. */
  type Nullspace = seq<KirchhoffSystem.Row> -> seq<seq<real>>

  /** Where the search of `Find` stops: the pools, with the web zero-locked,
      the two blocks, the edge-only system of that web and its nullspace
      basis, and the dimension of each growth on the way. */
  datatype Solved = Solved(l: Lattice, block: Block, interior: Block, system: seq<KirchhoffSystem.Row>, basis: seq<seq<real>>, grown: seq<nat>)

  /** Growth alternates between the first two dimensions, starting with the
      first, and never asks for a dimension the pool lacks. */
  predicate Alternates(grown: seq<nat>, dimension: nat)
  {
    forall i | 0 <= i < |grown| :: grown[i] == i % 2 && grown[i] < dimension
  }

  /** What the search leaves: both blocks grounded on pools that only grew,
      their edges kept in front; growth alternating; every vertex's zeroes
      locked in the web; the system being the edge-only system of that web
      over one column per edge weight; and a nonempty nullspace basis. */
  predicate SolvedPost(l: Lattice, b: Block, c: Block, minVectors: int, d: seq<seq<int>>, nullspace: Nullspace, s: Solved)
  {
    && Holds(l, b, c, s.l, s.block, s.interior, d)
    && Alternates(s.grown, Dimension(l.pool))
    && ZeroedPost(s.l, b.numVectors, minVectors, s.system)
    && s.basis == nullspace(s.system) && |s.basis| > 0
  }

  lemma {:induction false} AlternatesStep(grown: seq<nat>, dimension: nat, current: nat)
    requires Alternates(grown, dimension) && current == |grown| % 2 && current < dimension
    ensures Alternates(grown + [current], dimension) && 1 - current == |grown + [current]| % 2
  {
  }

  /** The invariant of the search: both blocks grounded on pools that only
      grew from `l`, their edges kept in front, and their dimensions and
      vector counts as they were. */
  predicate Holds(l: Lattice, b: Block, c: Block, lx: Lattice, bx: Block, cx: Block, d: seq<seq<int>>)
  {
    && Grounded(lx, bx, d) && Grounded(lx, cx, d) && Extends(l.pool, lx.pool) && OutKept(l.pool, lx.pool)
    && b.edges <= bx.edges && c.edges <= cx.edges
    && bx.dimension == b.dimension && cx.dimension == c.dimension && bx.numVectors == b.numVectors
  }

  /** What a round leaves in the web: every vertex's zeroes locked, and the
      system being the edge-only system of that web over one column per
      edge weight. */
  predicate ZeroedPost(l: Lattice, numVectors: int, minVectors: int, m: seq<KirchhoffSystem.Row>)
  {
    && CutsIn(l.pool.vertices, |l.pool.web.nodes|)
    && (forall j | 0 <= j < |l.pool.vertices| :: ZeroesLocked(l.pool.web, l.pool.vertices[j], numVectors, minVectors))
    && KirchhoffEdges.ColumnsFit(l.pool.web, |l.edgePool.weights|)
    && KirchhoffEdges.GenerateLinearSystemEdgeOnly(l.pool.web, |l.edgePool.weights|) == Ok(m)
  }

  /** One round of the search: lock the zeroes and build the edge-only
      system of the locked web. Every node referenced as a column must be
      an edge weight of the pool; any other one fails like an index outside
      the matrix. */
  method Zeroed(l: Lattice, b: Block, c: Block, lx: Lattice, bx: Block, cx: Block, minVectors: int, d: seq<seq<int>>, fuel: nat)
    returns (r: Result<(Lattice, seq<KirchhoffSystem.Row>)>)
    requires Holds(l, b, c, lx, bx, cx, d)
    ensures r.Ok? ==> var (lz, m) := r.value;
      && Holds(l, b, c, lz, bx, cx, d) && lz.pool == lx.pool.(web := lz.pool.web) && Kept(lx.pool.web, lz.pool.web)
      && ZeroedPost(lz, b.numVectors, minVectors, m)
  {
    PoolCuts(lx.pool);
    var z := LockZeroes(lx.pool.web, VertexList(lx), bx.numVectors, minVectors, fuel);
    if z.Fail? {
      return Fail(z.error);
    }
    WebSwap(lx, bx, z.value, d);
    WebSwap(lx, cx, z.value, d);
    var lz := WithWeb(lx, z.value);
    ExtendsTrans(l.pool, lx.pool, lz.pool);
    OutKeptTrans(l.pool, lx.pool, lz.pool);
    PoolCuts(lz.pool);
    var e := |lx.edgePool.weights|;
    if !KirchhoffEdges.ColumnsFit(z.value, e) {
      return Fail(IndexError);
    }
    var m := KirchhoffEdges.GenerateLinearSystemEdgeOnly(z.value, e);
    if m.Fail? {
      return Fail(m.error);
    }
    r := Ok((lz, m.value));
  }

  /** The growing half of a round: unlock, then grow along `current`. */
  method Regrow(l: Lattice, b: Block, c: Block, lz: Lattice, bx: Block, cx: Block, current: nat, d: seq<seq<int>>)
    returns (r: Result<(Lattice, Block, Block)>)
    requires Holds(l, b, c, lz, bx, cx, d) && c.dimension == b.dimension
    ensures r.Ok? ==> Holds(l, b, c, r.value.0, r.value.1, r.value.2, d) && current < Dimension(l.pool)
  {
    var u := Unlock(lz.pool.web);
    if u.Fail? {
      return Fail(KeyError);
    }
    WebSwap(lz, bx, u.value, d);
    WebSwap(lz, cx, u.value, d);
    var lu := WithWeb(lz, u.value);
    ExtendsTrans(l.pool, lz.pool, lu.pool);
    OutKeptTrans(l.pool, lz.pool, lu.pool);
    var g := Grow(lu, bx, cx, current, d);
    if g.Fail? {
      return Fail(g.error);
    }
    var (l', b', c') := g.value;
    ExtendsTrans(l.pool, lu.pool, l'.pool);
    OutKeptTrans(l.pool, lu.pool, l'.pool);
    PrefixTrans(b.edges, bx.edges, b'.edges);
    PrefixTrans(c.edges, cx.edges, c'.edges);
    r := Ok((l', b', c'));
  }

  /** The loop of `Find`: lock the zeroes and look for a nullspace of the
      edge-only system; when there is none, unlock, grow along the current
      dimension and switch to the other one of the first two. */
  method Search(l: Lattice, b: Block, c: Block, minVectors: int, d: seq<seq<int>>, nullspace: Nullspace, fuel: nat) returns (r: Result<Solved>)
    requires Grounded(l, b, d) && Grounded(l, c, d) && c.dimension == b.dimension
    ensures r.Ok? ==> SolvedPost(l, b, c, minVectors, d, nullspace, r.value)
  {
    var lx, bx, cx := l, b, c;
    var grown: seq<nat> := [];
    var current: nat := 0;
    var f := fuel;
    assert Holds(l, b, c, l, b, c, d);
    while f > 0
      invariant Holds(l, b, c, lx, bx, cx, d)
      invariant Alternates(grown, Dimension(l.pool)) && current == |grown| % 2
      decreases f
    {
      var z := Zeroed(l, b, c, lx, bx, cx, minVectors, d, fuel);
      if z.Fail? {
        return Fail(z.error);
      }
      var (lz, m) := z.value;
      var basis := nullspace(m);
      if |basis| > 0 {
        return Ok(Solved(lz, bx, cx, m, basis, grown));
      }
      var g := Regrow(l, b, c, lz, bx, cx, current, d);
      if g.Fail? {
        return Fail(g.error);
      }
      AlternatesStep(grown, Dimension(l.pool), current);
      lx, bx, cx := g.value.0, g.value.1, g.value.2;
      grown, current := grown + [current], 1 - current;
      f := f - 1;
    }
    r := Fail(OutOfFuel);
  }

  /** The outcome of `Find`: where the search stopped, the pools once the
      solution is locked onto the edge weights, the nullspace vector used,
      and the incidence matrix. */
  datatype Found = Found(solved: Solved, l: Lattice, solution: seq<real>, matrix: seq<seq<Option<real>>>)

  /** What `Find` leaves: the search's outcome; the first basis vector as
      the solution, with an entry for every edge weight; the pools with only
      the web changed and both blocks grounded on them; every edge weight
      locked; and the incidence matrix of the final web. */
  predicate FoundPost(l: Lattice, b: Block, c: Block, minVectors: int, d: seq<seq<int>>, nullspace: Nullspace, f: Found)
  {
    && SolvedPost(l, b, c, minVectors, d, nullspace, f.solved)
    && f.solution == f.solved.basis[0] && |f.l.edgePool.weights| <= |f.solution|
    && f.l.pool == f.solved.l.pool.(web := f.l.pool.web) && f.l.edgePool == f.solved.l.edgePool
    && Grounded(f.l, f.solved.block, d) && Grounded(f.l, f.solved.interior, d)
    && (forall i | 0 <= i < |f.l.edgePool.weights| ::
          f.l.edgePool.weights[i] < |f.l.pool.web.nodes| && f.l.pool.web.nodes[f.l.edgePool.weights[i]].lock)
    && CutsIn(f.l.pool.vertices, |f.l.pool.web.nodes|) && f.solved.block.numVectors >= 0
    && f.matrix == IncidenceMatrix(f.l.pool.web, f.l.pool.vertices, f.solved.block.numVectors)
  }

  /** Some edge weight names no node of the web. */
  predicate WeightOutside(ws: seq<nat>, w: Web)
  {
    exists i | 0 <= i < |ws| :: ws[i] >= |w.nodes|
  }

  /** `Find()`: search for a nullspace, then unlock, lock the first basis
      vector onto the edge weights, and read off the incidence matrix. A
      basis vector shorter than the edge weights fails, and so does an edge
      weight outside the web. */
  method Find(l: Lattice, b: Block, c: Block, minVectors: int, d: seq<seq<int>>, nullspace: Nullspace, fuel: nat) returns (r: Result<Found>)
    requires Grounded(l, b, d) && Grounded(l, c, d) && c.dimension == b.dimension
    ensures r.Ok? ==> FoundPost(l, b, c, minVectors, d, nullspace, r.value)
  {
    var s := Search(l, b, c, minVectors, d, nullspace, fuel);
    if s.Fail? {
      return Fail(s.error);
    }
    var solved := s.value;
    var u := Unlock(solved.l.pool.web);
    if u.Fail? {
      return Fail(KeyError);
    }
    var ws := solved.l.edgePool.weights;
    if WeightOutside(ws, u.value) {
      return Fail(IndexError);
    }
    var vector := solved.basis[0];
    var k := LockSolutionEdgeOnly(u.value, ws, vector, fuel);
    if k.Fail? {
      return Fail(k.error);
    }
    WebSwap(solved.l, solved.block, k.value, d);
    WebSwap(solved.l, solved.interior, k.value, d);
    var lf := WithWeb(solved.l, k.value);
    PoolCuts(lf.pool);
    var m := GetIncidenceMatrix(lf.pool.web, VertexList(lf), solved.block.numVectors);
    if m.Fail? {
      return Fail(m.error);
    }
    r := Ok(Found(solved, lf, vector, m.value));
  }

  /** The meaning of what `Find` returns: when the solver's vector is in
      the nullspace of the system the search stopped at and has one entry
      per edge weight, it satisfies every Kirchhoff condition of the
      zero-locked web. */
  lemma {:induction false} FindMeaning(s: Solved, numVectors: int, minVectors: int, y: seq<real>)
    requires ZeroedPost(s.l, numVectors, minVectors, s.system)
    requires |y| == |s.l.edgePool.weights| && KirchhoffSystem.Vanish(s.system, y)
    ensures KirchhoffEdges.ViewFits(KirchhoffEdges.View(s.l.pool.web), |y|)
    ensures forall i | 0 <= i < |s.l.pool.web.nodes| :: KirchhoffEdges.NodeEdgeHolds(KirchhoffEdges.View(s.l.pool.web)[i], y)
  {
    KirchhoffEdges.EdgeSystemMeaning(s.l.pool.web, y);
  }
}
