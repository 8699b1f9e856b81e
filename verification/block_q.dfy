/** The box-shaped frame of `block_q.py`: vertices fill a box of positions
    enumerated in mixed radix, and an edge for column `k` of the matrix joins
    every tail whose translate by that column stays in the box. */
module BlockQ {
  import opened Wrappers
  import Edges
  import Vertices

  type Position = seq<int>

  // ---------------------------------------------------------------------
  // Shape
  // ---------------------------------------------------------------------

  function Abs(x: int): nat
  {
    if x < 0 then -x else x
  }

  /** `max(abs(e) for e in row)`; `max` of nothing raises. */
  function MaxAbs(row: seq<int>): (m: Result<nat>)
    ensures m.Fail? <==> |row| == 0
    ensures m.Fail? ==> m.error == ValueError
    ensures m.Ok? ==> forall j | 0 <= j < |row| :: Abs(row[j]) <= m.value
    ensures m.Ok? ==> exists j | 0 <= j < |row| :: Abs(row[j]) == m.value
  {
    if |row| == 0 then Fail(ValueError)
    else if |row| == 1 then Ok(Abs(row[0]))
    else
      var rest := MaxAbs(row[1..]).value;
      assert forall j | 1 <= j < |row| :: row[j] == row[1..][j - 1];
      Ok(if Abs(row[0]) >= rest then Abs(row[0]) else rest)
  }

  /** `get_first_shape`: per matrix row, the largest magnitude times the
      search depth, plus one. */
  function FirstShape(matrix: seq<seq<int>>, depth: int): (r: Result<seq<int>>)
    ensures r.Fail? <==> exists d | 0 <= d < |matrix| :: |matrix[d]| == 0
    ensures r.Ok? ==> (|r.value| == |matrix|
      && forall d | 0 <= d < |matrix| :: r.value[d] == MaxAbs(matrix[d]).value * depth + 1)
  {
    if |matrix| == 0 then Ok([])
    else match MaxAbs(matrix[0])
      case Fail(e) => Fail(e)
      case Ok(m) =>
        match FirstShape(matrix[1..], depth)
        case Fail(e) =>
          assert exists d | 0 <= d < |matrix| :: |matrix[d]| == 0 by {
            var d :| 0 <= d < |matrix[1..]| && |matrix[1..][d]| == 0;
            assert matrix[d + 1] == matrix[1..][d];
          }
          Fail(e)
        case Ok(rest) =>
          assert forall d | 1 <= d < |matrix| :: matrix[d] == matrix[1..][d - 1];
          Ok([m * depth + 1] + rest)
  }

  /** With a non-negative depth every matrix entry, scaled by the depth, lies
      strictly inside its row's side length, and every side is positive. */
  lemma {:induction false} FirstShapeCovers(matrix: seq<seq<int>>, depth: nat, d: nat, k: nat)
    requires FirstShape(matrix, depth).Ok? && d < |matrix| && k < |matrix[d]|
    ensures FirstShape(matrix, depth).value[d] >= 1
    ensures Abs(matrix[d][k]) * depth < FirstShape(matrix, depth).value[d]
  {
    var m := MaxAbs(matrix[d]).value;
    var a := Abs(matrix[d][k]);
    var side := FirstShape(matrix, depth).value[d];
    assert side == m * depth + 1;
    assert a <= m;
    MulMonotone(a, m, depth);
    MulNonNegative(a, depth);
  }

  lemma {:induction false} MulMonotone(a: nat, b: nat, c: nat)
    requires a <= b
    ensures a * c <= b * c
  {
    assert b * c == a * c + (b - a) * c;
  }

  // ---------------------------------------------------------------------
  // Mixed-radix enumeration
  // ---------------------------------------------------------------------

  /** `np.product`. */
  function Prod(sizes: seq<int>): int
  {
    if |sizes| == 0 then 1 else sizes[0] * Prod(sizes[1..])
  }

  predicate NonZero(sizes: seq<int>)
  {
    forall j | 0 <= j < |sizes| :: sizes[j] != 0
  }

  predicate Positive(sizes: seq<int>)
  {
    forall j | 0 <= j < |sizes| :: sizes[j] > 0
  }

  /** A nonzero product has no zero factor. */
  lemma {:induction false} ProdNonZero(sizes: seq<int>)
    requires Prod(sizes) != 0
    ensures NonZero(sizes)
  {
    if |sizes| > 0 {
      ProdNonZero(sizes[1..]);
      assert forall j | 1 <= j < |sizes| :: sizes[j] == sizes[1..][j - 1];
    }
  }

  lemma {:induction false} ProdPositive(sizes: seq<int>)
    requires Positive(sizes)
    ensures Prod(sizes) > 0
  {
    if |sizes| > 0 {
      assert Positive(sizes[1..]) by {
        assert forall j | 0 <= j < |sizes| - 1 :: sizes[1..][j] == sizes[j + 1];
      }
      ProdPositive(sizes[1..]);
      MulPositive(sizes[0], Prod(sizes[1..]));
    }
  }

  lemma {:induction false} MulPositive(a: int, b: int)
    requires a > 0 && b > 0
    ensures a * b > 0
  {
    assert a * b == (a - 1) * b + b;
    assert (a - 1) * b >= 0;
  }

  /** `end - start`. */
  function Sizes(start: Position, end: Position): (s: seq<int>)
    requires |start| == |end|
    ensures |s| == |start| && forall j | 0 <= j < |s| :: s[j] == end[j] - start[j]
  {
    seq(|start|, j requires 0 <= j < |start| => end[j] - start[j])
  }

  /** The inner loop of `iterate_vertices`: each coordinate is the running
      index modulo its side, and the index is then floor-divided by it. */
  function Decode(i: int, sizes: seq<int>): (p: Position)
    requires NonZero(sizes)
    ensures |p| == |sizes|
    decreases |sizes|
  {
    if |sizes| == 0 then []
    else
      assert NonZero(sizes[1..]) by {
        assert forall j | 0 <= j < |sizes| - 1 :: sizes[1..][j] == sizes[j + 1];
      }
      [Vertices.PyMod(i, sizes[0])] + Decode(Vertices.PyDiv(i, sizes[0]), sizes[1..])
  }

  /** The inverse of `Decode`: the mixed-radix number of a position. */
  function Encode(p: Position, sizes: seq<int>): int
    requires |p| == |sizes|
  {
    if |sizes| == 0 then 0 else p[0] + sizes[0] * Encode(p[1..], sizes[1..])
  }

  /** `iterate_vertices(start, end)`: positions number `0 ..
      prod(end - start)`, each decoded and moved by `start`; a product that
      is not positive yields nothing. */
  function Enumerate(start: Position, end: Position): (r: seq<Position>)
    requires |start| == |end|
    ensures |r| == if Prod(Sizes(start, end)) > 0 then Prod(Sizes(start, end)) else 0
    ensures forall k | 0 <= k < |r| :: |r[k]| == |start|
  {
    var s := Sizes(start, end);
    var n := Prod(s);
    if n <= 0 then []
    else
      ProdNonZero(s);
      seq(n, i requires 0 <= i < n => Edges.Translate(Decode(i, s), start))
  }

  /** The half-open box `[start, end)`. */
  predicate InBox(p: Position, start: Position, end: Position)
    requires |start| == |end|
  {
    |p| == |start| && forall j | 0 <= j < |p| :: start[j] <= p[j] < end[j]
  }

  /** Every decoded coordinate lies within its side. */
  lemma {:induction false} DecodeBox(i: int, sizes: seq<int>)
    requires Positive(sizes)
    ensures forall j | 0 <= j < |sizes| :: 0 <= Decode(i, sizes)[j] < sizes[j]
    decreases |sizes|
  {
    if |sizes| > 0 {
      assert Positive(sizes[1..]) by {
        assert forall j | 0 <= j < |sizes| - 1 :: sizes[1..][j] == sizes[j + 1];
      }
      DecodeBox(Vertices.PyDiv(i, sizes[0]), sizes[1..]);
      var p := Decode(i, sizes);
      assert forall j | 1 <= j < |sizes| :: p[j] == Decode(Vertices.PyDiv(i, sizes[0]), sizes[1..])[j - 1];
    }
  }

  /** Decoding an index in range and encoding the result gives the index
      back. */
  lemma {:induction false} EncodeDecode(i: int, sizes: seq<int>)
    requires Positive(sizes) && 0 <= i < Prod(sizes)
    ensures Encode(Decode(i, sizes), sizes) == i
    decreases |sizes|
  {
    if |sizes| > 0 {
      var s0, rest := sizes[0], sizes[1..];
      assert Positive(rest) by {
        assert forall j | 0 <= j < |rest| :: rest[j] == sizes[j + 1];
      }
      var q, r := Vertices.PyDiv(i, s0), Vertices.PyMod(i, s0);
      Vertices.PyDivMod(i, s0);
      assert i == q * s0 + r && 0 <= r < s0;
      QuotientBound(i, s0, Prod(rest), q, r);
      EncodeDecode(q, rest);
      var p := Decode(i, sizes);
      assert p[0] == r && p[1..] == Decode(q, rest);
    }
  }

  lemma {:induction false} QuotientBound(i: int, s: int, n: int, q: int, r: int)
    requires s > 0 && 0 <= i < s * n && i == q * s + r && 0 <= r < s
    ensures 0 <= q < n
  {
    if q < 0 {
      assert q * s <= -s by { MulPositive(-q, s); assert (-q) * s >= s by { MulStepUp(-q, s); } }
    }
    if q >= n {
      assert q * s >= n * s by { assert q * s == n * s + (q - n) * s; MulNonNegative(q - n, s); }
    }
  }

  lemma {:induction false} MulStepUp(x: int, r: int)
    requires x >= 1 && r > 0
    ensures x * r >= r
  {
    assert x * r == (x - 1) * r + r;
    MulNonNegative(x - 1, r);
  }

  lemma {:induction false} MulNonNegative(a: int, b: int)
    requires a >= 0 && b >= 0
    ensures a * b >= 0
  {
  }

  /** Encoding a position of the box and decoding the number gives the
      position back, and the number is in range. */
  lemma {:induction false} DecodeEncode(p: Position, sizes: seq<int>)
    requires Positive(sizes) && |p| == |sizes|
    requires forall j | 0 <= j < |p| :: 0 <= p[j] < sizes[j]
    ensures 0 <= Encode(p, sizes) < Prod(sizes)
    ensures Decode(Encode(p, sizes), sizes) == p
  {
    if |sizes| > 0 {
      var s0, rest, t := sizes[0], sizes[1..], p[1..];
      assert Positive(rest) by {
        assert forall j | 0 <= j < |rest| :: rest[j] == sizes[j + 1];
      }
      assert forall j | 0 <= j < |t| :: 0 <= t[j] < rest[j] by {
        assert forall j | 0 <= j < |t| :: t[j] == p[j + 1] && rest[j] == sizes[j + 1];
      }
      DecodeEncode(t, rest);
      var e := Encode(t, rest);
      var n := Encode(p, sizes);
      assert n == p[0] + s0 * e;
      DivModUnique(n, s0, e, p[0]);
      assert Vertices.PyDiv(n, s0) == e && Vertices.PyMod(n, s0) == p[0];
      assert 0 <= n < s0 * Prod(rest) by {
        MulNonNegative(s0, e);
        assert s0 * Prod(rest) == s0 * e + s0 * (Prod(rest) - e);
        MulStepUp(Prod(rest) - e, s0);
        assert s0 * (Prod(rest) - e) == (Prod(rest) - e) * s0;
      }
      assert Decode(n, sizes) == [p[0]] + t;
    }
  }

  /** Euclidean quotient and remainder are unique. */
  lemma {:induction false} DivModUnique(n: int, s: int, q: int, r: int)
    requires s > 0 && n == r + s * q && 0 <= r < s
    ensures n / s == q && n % s == r
  {
    var q', r' := n / s, n % s;
    assert n == q' * s + r';
    assert (q - q') * s == r' - r;
    if q > q' {
      MulStepUp(q - q', s);
    } else if q < q' {
      MulStepUp(q' - q, s);
    }
  }

  /** Moving by `start` and back. */
  function Untranslate(p: Position, start: Position): (r: Position)
    requires |p| == |start|
    ensures |r| == |p| && forall j | 0 <= j < |p| :: r[j] == p[j] - start[j]
  {
    seq(|p|, j requires 0 <= j < |p| => p[j] - start[j])
  }

  /** `iterate_vertices` yields exactly the positions of the box, each
      once: every position lies in the box, no two coincide, and every box
      position is yielded. */
  lemma {:induction false} EnumerateBox(start: Position, end: Position, k: nat)
    requires |start| == |end| && Positive(Sizes(start, end)) && k < |Enumerate(start, end)|
    ensures InBox(Enumerate(start, end)[k], start, end)
  {
    var s := Sizes(start, end);
    ProdPositive(s);
    ProdNonZero(s);
    DecodeBox(k, s);
  }

  lemma {:induction false} EnumerateDistinct(start: Position, end: Position, a: nat, b: nat)
    requires |start| == |end| && Positive(Sizes(start, end))
    requires a < |Enumerate(start, end)| && b < |Enumerate(start, end)|
    requires Enumerate(start, end)[a] == Enumerate(start, end)[b]
    ensures a == b
  {
    var s := Sizes(start, end);
    ProdPositive(s);
    assert Decode(a, s) == Decode(b, s) by {
      ProdNonZero(s);
      var r := Enumerate(start, end);
      var da, db := Decode(a, s), Decode(b, s);
      assert r[a] == Edges.Translate(da, start) && r[b] == Edges.Translate(db, start);
      assert forall j | 0 <= j < |da| :: da[j] == r[a][j] - start[j] && db[j] == r[b][j] - start[j];
    }
    EncodeDecode(a, s);
    EncodeDecode(b, s);
  }

  lemma {:induction false} EnumerateComplete(start: Position, end: Position, p: Position)
    requires |start| == |end| && InBox(p, start, end)
    ensures Positive(Sizes(start, end))
    ensures exists k | 0 <= k < |Enumerate(start, end)| :: Enumerate(start, end)[k] == p
  {
    var s := Sizes(start, end);
    var u := Untranslate(p, start);
    DecodeEncode(u, s);
    var k := Encode(u, s);
    ProdPositive(s);
    ProdNonZero(s);
    assert Enumerate(start, end)[k] == Edges.Translate(Decode(k, s), start);
    assert Edges.Translate(u, start) == p;
  }

  // ---------------------------------------------------------------------
  // Bounds
  // ---------------------------------------------------------------------

  /** `get_bounds(vector, start, end)`: where a tail may sit so that both
      it and its head stay in `[start, end)`. */
  function Bounds(vector: seq<int>, start: Position, end: Position): (r: (Position, Position))
    requires |vector| == |start| == |end|
    ensures |r.0| == |start| && |r.1| == |start|
  {
    (seq(|start|, i requires 0 <= i < |start| => start[i] + (if vector[i] < 0 then Abs(vector[i]) else 0)),
     seq(|start|, i requires 0 <= i < |start| =>
       start[i] + (if vector[i] > 0 then (end[i] - start[i]) - vector[i] else end[i] - start[i])))
  }

  /** A tail lies within the bounds exactly when it and its head both lie
      in the box. */
  lemma {:induction false} BoundsExact(vector: seq<int>, start: Position, end: Position, t: Position)
    requires |vector| == |start| == |end| && |t| == |start|
    ensures InBox(t, Bounds(vector, start, end).0, Bounds(vector, start, end).1)
      <==> InBox(t, start, end) && InBox(Edges.Translate(t, vector), start, end)
  {
  }

  // ---------------------------------------------------------------------
  // Vertices and edges
  // ---------------------------------------------------------------------

  /** An edge of the frame, identified by its ends and the column it stands
      for. */
  datatype Link = Link(tail: Position, head: Position, id: nat)

  /** `Edge.__eq__` as written (block_q.py:20): `self.head == self.head` is
      always true, so only the tails are compared. */
  predicate EqualAsWritten(a: Link, b: Link)
  {
    a.head == a.head && a.tail == b.tail
  }

  /** The comparison the line evidently means: the same two ends. */
  predicate SameEnds(a: Link, b: Link)
  {
    a.head == b.head && a.tail == b.tail
  }

  /** As written, two edges leaving one tail for different heads compare
      equal. */
  lemma {:induction false} EqualAsWrittenConflates()
    ensures EqualAsWritten(Link([0], [1], 0), Link([0], [2], 1))
    ensures !SameEnds(Link([0], [1], 0), Link([0], [2], 1))
  {
  }

  /** The corrected comparison is an equivalence that also fixes the
      displacement. */
  lemma {:induction false} SameEndsMeaning(a: Link, b: Link, c: Link)
    ensures SameEnds(a, a)
    ensures SameEnds(a, b) ==> SameEnds(b, a)
    ensures SameEnds(a, b) && SameEnds(b, c) ==> SameEnds(a, c)
    ensures SameEnds(a, b) <==> a.(id := 0) == b.(id := 0)
  {
  }

  /** `edges.add(edge)`: the set keeps its element when one with the same
      ends is present (the hash mixes both ends). */
  function AddToSet(edges: set<Link>, e: Link): (r: set<Link>)
    ensures edges <= r
    ensures (exists f | f in edges :: SameEnds(f, e)) ==> r == edges
    ensures (forall f | f in edges :: !SameEnds(f, e)) ==> r == edges + {e}
  {
    if exists f | f in edges :: SameEnds(f, e) then edges else edges + {e}
  }

  /** A vertex with one incoming and one outgoing slot per column; an empty
      slot holds the placeholder edge of weight 0. */
  datatype Vertex = Vertex(position: Position, incoming: seq<Option<Link>>, outgoing: seq<Option<Link>>)

  function NewVertex(position: Position, numVectors: nat): (v: Vertex)
    ensures v.position == position && |v.incoming| == numVectors && |v.outgoing| == numVectors
    ensures forall i | 0 <= i < numVectors :: v.incoming[i].None? && v.outgoing[i].None?
  {
    Vertex(position, seq(numVectors, _ => None), seq(numVectors, _ => None))
  }

  /** `Vertex.add_edge`: the head side is checked first; an edge touching
      neither end raises. */
  function AddEdge(v: Vertex, e: Link): (r: Result<Vertex>)
    ensures e.head != v.position && e.tail != v.position <==> r == Fail(ValueError)
    ensures r.Ok? ==> r.value.position == v.position
    ensures e.head == v.position ==>
      if e.id < |v.incoming| then r == Ok(v.(incoming := v.incoming[e.id := Some(e)])) else r == Fail(IndexError)
    ensures e.head != v.position && e.tail == v.position ==>
      if e.id < |v.outgoing| then r == Ok(v.(outgoing := v.outgoing[e.id := Some(e)])) else r == Fail(IndexError)
  {
    if e.head == v.position then
      if e.id < |v.incoming| then Ok(v.(incoming := v.incoming[e.id := Some(e)])) else Fail(IndexError)
    else if e.tail == v.position then
      if e.id < |v.outgoing| then Ok(v.(outgoing := v.outgoing[e.id := Some(e)])) else Fail(IndexError)
    else Fail(ValueError)
  }

  /** The weight of a slot; the placeholder weighs 0. */
  function SlotWeight(s: Option<Link>, weight: Link -> real): real
  {
    if s.None? then 0.0 else weight(s.value)
  }

  /** `get_vertex_cut`: outgoing minus incoming weight per column. */
  function VertexCut(v: Vertex, numVectors: nat, weight: Link -> real): (c: seq<real>)
    requires |v.incoming| >= numVectors && |v.outgoing| >= numVectors
    ensures |c| == numVectors
    ensures forall i | 0 <= i < numVectors ::
      c[i] == SlotWeight(v.outgoing[i], weight) - SlotWeight(v.incoming[i], weight)
  {
    seq(numVectors, i requires 0 <= i < numVectors =>
      SlotWeight(v.outgoing[i], weight) - SlotWeight(v.incoming[i], weight))
  }

  function AllZeroFrom(s: seq<Option<Link>>, weight: Link -> real, from: nat): (r: bool)
    requires from <= |s|
    ensures r <==> forall i | from <= i < |s| :: SlotWeight(s[i], weight) == 0.0
    decreases |s| - from
  {
    if from == |s| then true
    else SlotWeight(s[from], weight) == 0.0 && AllZeroFrom(s, weight, from + 1)
  }

  /** `is_connected`: not every slot weighs 0. */
  function IsConnected(v: Vertex, weight: Link -> real): (r: bool)
    ensures !r <==> ((forall i | 0 <= i < |v.incoming| :: SlotWeight(v.incoming[i], weight) == 0.0)
      && (forall i | 0 <= i < |v.outgoing| :: SlotWeight(v.outgoing[i], weight) == 0.0))
  {
    !(AllZeroFrom(v.incoming, weight, 0) && AllZeroFrom(v.outgoing, weight, 0))
  }

  /** A vertex that is not connected has a zero cut. */
  lemma {:induction false} UnconnectedCutZero(v: Vertex, numVectors: nat, weight: Link -> real)
    requires |v.incoming| >= numVectors && |v.outgoing| >= numVectors
    requires !IsConnected(v, weight)
    ensures forall i | 0 <= i < numVectors :: VertexCut(v, numVectors, weight)[i] == 0.0
  {
  }

  // ---------------------------------------------------------------------
  // Frame
  // ---------------------------------------------------------------------

  /** A frame: the matrix (one row per dimension, one column per vector),
      the side lengths, the vertices by position and the edge set. */
  datatype Frame = Frame(matrix: seq<seq<int>>, numVectors: nat, shape: seq<int>,
                         vertices: map<Position, Vertex>, edges: set<Link>)

  predicate Rectangular(matrix: seq<seq<int>>, columns: nat)
  {
    forall d | 0 <= d < |matrix| :: |matrix[d]| == columns
  }

  /** Column `k` of the matrix: the displacement of vector `k`. */
  function Column(matrix: seq<seq<int>>, k: nat): (c: seq<int>)
    requires forall d | 0 <= d < |matrix| :: k < |matrix[d]|
    ensures |c| == |matrix| && forall d | 0 <= d < |matrix| :: c[d] == matrix[d][k]
  {
    seq(|matrix|, d requires 0 <= d < |matrix| => matrix[d][k])
  }

  /** Every vertex is stored under its own position and has one slot pair
      per column. */
  predicate Named(vs: map<Position, Vertex>, numVectors: nat)
  {
    forall p | p in vs :: vs[p].position == p && |vs[p].incoming| == numVectors && |vs[p].outgoing| == numVectors
  }

  /** An edge that joins two vertices and moves by its column. */
  predicate Joins(f: Frame, e: Link)
  {
    Rectangular(f.matrix, f.numVectors) && e.id < f.numVectors
    && e.tail in f.vertices && e.head in f.vertices
    && |e.tail| == |f.matrix| && e.head == Edges.Translate(e.tail, Column(f.matrix, e.id))
  }

  predicate Valid(f: Frame)
  {
    Rectangular(f.matrix, f.numVectors) && |f.shape| == |f.matrix|
    && Named(f.vertices, f.numVectors) && forall e | e in f.edges :: Joins(f, e)
  }

  /** `populate_vertices`: a fresh vertex at every listed position, replacing
      whatever was there. */
  function PlaceVertices(vs: map<Position, Vertex>, ps: seq<Position>, numVectors: nat): (r: map<Position, Vertex>)
    ensures forall p :: p in r <==> p in vs || p in ps
    ensures forall p | p in ps :: r[p] == NewVertex(p, numVectors)
    ensures forall p | p in vs && p !in ps :: r[p] == vs[p]
    ensures Named(vs, numVectors) ==> Named(r, numVectors)
    decreases |ps|
  {
    if |ps| == 0 then vs
    else
      var vs' := vs[ps[0] := NewVertex(ps[0], numVectors)];
      var r := PlaceVertices(vs', ps[1..], numVectors);
      assert forall p | p in ps :: p == ps[0] || p in ps[1..];
      r
  }

  /** `Edge(head, tail, id)`: the head registers the edge, then the tail,
      then the set takes it. */
  function Connect(f: Frame, e: Link): (r: Result<Frame>)
    requires Named(f.vertices, f.numVectors) && e.head in f.vertices && e.tail in f.vertices
    ensures e.id < f.numVectors <==> r.Ok?
    ensures r.Fail? ==> r.error == IndexError
    ensures r.Ok? ==> (r.value.matrix == f.matrix && r.value.numVectors == f.numVectors
      && r.value.shape == f.shape && r.value.vertices.Keys == f.vertices.Keys
      && Named(r.value.vertices, f.numVectors) && r.value.edges == AddToSet(f.edges, e))
    ensures r.Ok? ==> r.value.vertices[e.head].incoming[e.id] == Some(e)
    ensures r.Ok? && e.head != e.tail ==> r.value.vertices[e.tail].outgoing[e.id] == Some(e)
    ensures r.Ok? ==> forall p | p in f.vertices && p != e.head && p != e.tail :: r.value.vertices[p] == f.vertices[p]
  {
    if e.id >= f.numVectors then Fail(IndexError)
    else
      var h := f.vertices[e.head];
      var h' := h.(incoming := h.incoming[e.id := Some(e)]);
      var vs := f.vertices[e.head := h'];
      var t := vs[e.tail];
      var t' := if e.head == e.tail then t.(incoming := t.incoming[e.id := Some(e)])
                else t.(outgoing := t.outgoing[e.id := Some(e)]);
      Ok(f.(vertices := vs[e.tail := t'], edges := AddToSet(f.edges, e)))
  }

  /** `Connect` is `add_edge` on the head and then on the tail. */
  lemma {:induction false} ConnectAddsEdge(f: Frame, e: Link)
    requires Named(f.vertices, f.numVectors) && e.head in f.vertices && e.tail in f.vertices
    requires e.id < f.numVectors
    ensures AddEdge(f.vertices[e.head], e).Ok?
    ensures Connect(f, e).value.vertices[e.tail]
      == AddEdge(f.vertices[e.head := AddEdge(f.vertices[e.head], e).value][e.tail], e).value
  {
  }

  /** Joining edges stay joining once the set grows and no vertex is lost. */
  lemma {:induction false} ConnectValid(f: Frame, e: Link)
    requires Valid(f) && Joins(f, e)
    ensures Connect(f, e).Ok? && Valid(Connect(f, e).value)
  {
    var g := Connect(f, e).value;
    forall x | x in g.edges
      ensures Joins(g, x)
    {
      assert Joins(f, x);
    }
  }

  /** One column's pass of `populate_edges`: an edge from every listed tail
      to the tail moved by the column; a missing vertex raises `KeyError`. */
  function EdgesFrom(f: Frame, k: nat, tails: seq<Position>): (r: Result<Frame>)
    requires Valid(f) && k < f.numVectors
    requires forall i | 0 <= i < |tails| :: |tails[i]| == |f.matrix|
    ensures r.Ok? ==> (Valid(r.value) && r.value.matrix == f.matrix && r.value.numVectors == f.numVectors
      && r.value.shape == f.shape && r.value.vertices.Keys == f.vertices.Keys && f.edges <= r.value.edges)
    ensures r.Ok? ==> forall e | e in r.value.edges && e !in f.edges :: e.id == k && e.tail in tails
    ensures (forall i | 0 <= i < |tails| ::
      tails[i] in f.vertices && Edges.Translate(tails[i], Column(f.matrix, k)) in f.vertices) ==> r.Ok?
    decreases |tails|
  {
    if |tails| == 0 then Ok(f)
    else
      var t := tails[0];
      var c := Column(f.matrix, k);
      if t !in f.vertices then Fail(KeyError)
      else if Edges.Translate(t, c) !in f.vertices then Fail(KeyError)
      else
        var e := Link(t, Edges.Translate(t, c), k);
        ConnectValid(f, e);
        var g := Connect(f, e).value;
        assert g.vertices.Keys == f.vertices.Keys && f.edges <= g.edges;
        assert forall x | x in g.edges && x !in f.edges :: x == e;
        assert forall i | 0 <= i < |tails| - 1 :: tails[1..][i] == tails[i + 1];
        EdgesFrom(g, k, tails[1..])
  }

  /** A column whose bounds enumerate only positions of their box. */
  predicate Tame(c: seq<int>, start: Position, end: Position)
    requires |c| == |start| == |end|
  {
    Enumerable(Bounds(c, start, end).0, Bounds(c, start, end).1)
  }

  predicate AllTame(f: Frame, start: Position, end: Position)
    requires Rectangular(f.matrix, f.numVectors) && |start| == |end| == |f.matrix|
  {
    forall k | 0 <= k < f.numVectors :: Tame(Column(f.matrix, k), start, end)
  }

  /** `populate_edges(start, end)` over columns `k ..`: each column's tails
      are the box of its bounds. */
  function EdgesOver(f: Frame, k: nat, start: Position, end: Position): (r: Result<Frame>)
    requires Valid(f) && k <= f.numVectors && |start| == |end| == |f.matrix|
    ensures r.Ok? ==> (Valid(r.value) && r.value.matrix == f.matrix && r.value.numVectors == f.numVectors
      && r.value.shape == f.shape && r.value.vertices.Keys == f.vertices.Keys && f.edges <= r.value.edges)
    ensures r.Ok? ==> forall e | e in r.value.edges && e !in f.edges :: k <= e.id
    ensures r.Ok? && AllTame(f, start, end) ==> forall e | e in r.value.edges && e !in f.edges ::
      InBox(e.tail, start, end) && InBox(e.head, start, end)
    ensures AllTame(f, start, end) && (forall p | InBox(p, start, end) :: p in f.vertices) ==> r.Ok?
    decreases f.numVectors - k
  {
    if k == f.numVectors then Ok(f)
    else
      var c := Column(f.matrix, k);
      var (lo, hi) := Bounds(c, start, end);
      var tails := Enumerate(lo, hi);
      match EdgesFrom(f, k, tails)
      case Fail(err) =>
        if AllTame(f, start, end) then
          TailsInBox(c, start, end, lo, hi, tails);
          Fail(err)
        else Fail(err)
      case Ok(g) =>
        var r := EdgesOver(g, k + 1, start, end);
        if r.Ok? && AllTame(f, start, end) then
          TailsInBox(c, start, end, lo, hi, tails);
          assert forall e | e in r.value.edges && e !in f.edges :: InBox(e.tail, start, end) && InBox(e.head, start, end) by {
            forall e | e in r.value.edges && e !in f.edges
              ensures InBox(e.tail, start, end) && InBox(e.head, start, end)
            {
              if e in g.edges {
                assert e.id == k && e.tail in tails;
                assert Joins(g, e);
              }
            }
          }
          r
        else r
  }

  /** The tails a tame column's bounds enumerate lie in the box, and so do
      their heads. */
  lemma {:induction false} TailsInBox(c: seq<int>, start: Position, end: Position, lo: Position, hi: Position, tails: seq<Position>)
    requires |c| == |start| == |end| && (lo, hi) == Bounds(c, start, end) && tails == Enumerate(lo, hi)
    requires Tame(c, start, end)
    ensures forall i | 0 <= i < |tails| :: InBox(tails[i], start, end) && InBox(Edges.Translate(tails[i], c), start, end)
  {
    forall i | 0 <= i < |tails|
      ensures InBox(tails[i], start, end) && InBox(Edges.Translate(tails[i], c), start, end)
    {
      EnumerateBox(lo, hi, i);
      BoundsExact(c, start, end, tails[i]);
    }
  }

  /** `position - vector`. */
  function Back(position: Position, vector: seq<int>): (r: Position)
    requires |vector| == |position|
    ensures |r| == |position| && Edges.Translate(r, vector) == position
  {
    seq(|position|, i requires 0 <= i < |position| => position[i] - vector[i])
  }

  /** The first loop of `add_new_edges` for column `k`: an edge into every
      listed head whose tail already exists. */
  function EdgesInto(f: Frame, k: nat, heads: seq<Position>): (r: Result<Frame>)
    requires Valid(f) && k < f.numVectors
    requires forall i | 0 <= i < |heads| :: |heads[i]| == |f.matrix|
    ensures r.Ok? ==> (Valid(r.value) && r.value.matrix == f.matrix && r.value.numVectors == f.numVectors
      && r.value.shape == f.shape && r.value.vertices.Keys == f.vertices.Keys && f.edges <= r.value.edges)
    ensures r.Ok? ==> forall e | e in r.value.edges && e !in f.edges :: e.id == k && e.head in heads
    ensures (forall i | 0 <= i < |heads| :: heads[i] in f.vertices) ==> r.Ok?
    decreases |heads|
  {
    if |heads| == 0 then Ok(f)
    else
      var h := heads[0];
      var t := Back(h, Column(f.matrix, k));
      assert forall i | 0 <= i < |heads| - 1 :: heads[1..][i] == heads[i + 1];
      if t !in f.vertices then EdgesInto(f, k, heads[1..])
      else if h !in f.vertices then Fail(KeyError)
      else
        var e := Link(t, h, k);
        ConnectValid(f, e);
        EdgesInto(Connect(f, e).value, k, heads[1..])
  }

  /** The second loop of `add_new_edges` for column `k`: an edge out of
      every listed tail whose head already exists. */
  function EdgesOutOf(f: Frame, k: nat, tails: seq<Position>): (r: Result<Frame>)
    requires Valid(f) && k < f.numVectors
    requires forall i | 0 <= i < |tails| :: |tails[i]| == |f.matrix|
    ensures r.Ok? ==> (Valid(r.value) && r.value.matrix == f.matrix && r.value.numVectors == f.numVectors
      && r.value.shape == f.shape && r.value.vertices.Keys == f.vertices.Keys && f.edges <= r.value.edges)
    ensures r.Ok? ==> forall e | e in r.value.edges && e !in f.edges :: e.id == k && e.tail in tails
    ensures (forall i | 0 <= i < |tails| :: tails[i] in f.vertices) ==> r.Ok?
    decreases |tails|
  {
    if |tails| == 0 then Ok(f)
    else
      var t := tails[0];
      var h := Edges.Translate(t, Column(f.matrix, k));
      assert forall i | 0 <= i < |tails| - 1 :: tails[1..][i] == tails[i + 1];
      if h !in f.vertices then EdgesOutOf(f, k, tails[1..])
      else if t !in f.vertices then Fail(KeyError)
      else
        var e := Link(t, h, k);
        ConnectValid(f, e);
        EdgesOutOf(Connect(f, e).value, k, tails[1..])
  }

  /** `add_new_edges(start)` over columns `k ..`: for every position of the
      box from `start` to the shape, the column's edge into it and out of
      it wherever the other end exists. */
  function NewEdgesOver(f: Frame, k: nat, start: Position): (r: Result<Frame>)
    requires Valid(f) && k <= f.numVectors && |start| == |f.matrix|
    ensures r.Ok? ==> (Valid(r.value) && r.value.matrix == f.matrix && r.value.numVectors == f.numVectors
      && r.value.shape == f.shape && r.value.vertices.Keys == f.vertices.Keys && f.edges <= r.value.edges)
    ensures r.Ok? ==> forall e | e in r.value.edges && e !in f.edges :: k <= e.id
    ensures r.Ok? && Enumerable(start, f.shape) ==> forall e | e in r.value.edges && e !in f.edges ::
      InBox(e.head, start, f.shape) || InBox(e.tail, start, f.shape)
    ensures Enumerable(start, f.shape) && (forall p | InBox(p, start, f.shape) :: p in f.vertices) ==> r.Ok?
    decreases f.numVectors - k
  {
    if k == f.numVectors then Ok(f)
    else
      var box := Enumerate(start, f.shape);
      match EdgesInto(f, k, box)
      case Fail(err) =>
        if Enumerable(start, f.shape) then
          EnumerateInBox(start, f.shape, box);
          Fail(err)
        else Fail(err)
      case Ok(g) =>
        match EdgesOutOf(g, k, box)
        case Fail(err) =>
          if Enumerable(start, f.shape) then
            EnumerateInBox(start, f.shape, box);
            Fail(err)
          else Fail(err)
        case Ok(g') =>
          var r := NewEdgesOver(g', k + 1, start);
          if r.Ok? && Enumerable(start, f.shape) then
            EnumerateInBox(start, f.shape, box);
            r
          else r
  }

  /** Sides whose enumeration stays in the box: the product is not
      positive (nothing is enumerated) or every side is positive. Two
      negative sides make the product positive and enumerate positions
      outside the box. */
  predicate Enumerable(start: Position, end: Position)
    requires |start| == |end|
  {
    Prod(Sizes(start, end)) <= 0 || Positive(Sizes(start, end))
  }

  /** Every position an enumerable box enumerates lies in it. */
  lemma {:induction false} EnumerateInBox(start: Position, end: Position, box: seq<Position>)
    requires |start| == |end| && box == Enumerate(start, end) && Enumerable(start, end)
    ensures forall i | 0 <= i < |box| :: InBox(box[i], start, end)
  {
    forall i | 0 <= i < |box|
      ensures InBox(box[i], start, end)
    {
      EnumerateBox(start, end, i);
    }
  }

  // ---------------------------------------------------------------------
  // Construction and growth
  // ---------------------------------------------------------------------

  function Origin(n: nat): (p: Position)
    ensures |p| == n && forall j | 0 <= j < n :: p[j] == 0
  {
    seq(n, _ => 0)
  }

  /** A positive search depth makes every column's bounds a proper box
      inside the first shape. */
  lemma {:induction false} FirstShapeTame(matrix: seq<seq<int>>, columns: nat, depth: int, shape: seq<int>, k: nat)
    requires Rectangular(matrix, columns) && k < columns && depth >= 1
    requires FirstShape(matrix, depth) == Ok(shape)
    ensures Positive(Sizes(Bounds(Column(matrix, k), Origin(|matrix|), shape).0, Bounds(Column(matrix, k), Origin(|matrix|), shape).1))
  {
    var c := Column(matrix, k);
    var o := Origin(|matrix|);
    var (lo, hi) := Bounds(c, o, shape);
    forall d | 0 <= d < |matrix|
      ensures hi[d] - lo[d] > 0
    {
      FirstShapeCovers(matrix, depth, d, k);
      MulMonotone(1, depth, Abs(matrix[d][k]));
      assert Abs(c[d]) * depth < shape[d];
    }
  }

  /** `Frame(matrix, search_depth)`: the first shape, a vertex at every
      position of its box, then the edges of every column. */
  function NewFrame(matrix: seq<seq<int>>, columns: nat, depth: int): (r: Result<Frame>)
    requires Rectangular(matrix, columns)
    ensures |matrix| > 0 && columns == 0 ==> r == Fail(ValueError)
    ensures r.Ok? ==> (Valid(r.value) && r.value.matrix == matrix && r.value.numVectors == columns
      && FirstShape(matrix, depth) == Ok(r.value.shape))
    ensures r.Ok? && depth >= 0 ==>
      forall p :: p in r.value.vertices <==> InBox(p, Origin(|matrix|), r.value.shape)
    ensures r.Ok? && depth >= 1 ==>
      forall e | e in r.value.edges :: InBox(e.tail, Origin(|matrix|), r.value.shape) && InBox(e.head, Origin(|matrix|), r.value.shape)
    ensures depth >= 1 && (|matrix| == 0 || columns > 0) ==> r.Ok?
  {
    match FirstShape(matrix, depth)
    case Fail(err) => Fail(err)
    case Ok(shape) =>
      var o := Origin(|matrix|);
      var box := Enumerate(o, shape);
      var f := Frame(matrix, columns, shape, PlaceVertices(map[], box, columns), {});
      var r := EdgesOver(f, 0, o, shape);
      if depth >= 0 then
        ShapeBox(matrix, depth, shape, box);
        if depth >= 1 then
          assert AllTame(f, o, shape) by {
            forall k | 0 <= k < columns
              ensures Tame(Column(matrix, k), o, shape)
            {
              FirstShapeTame(matrix, columns, depth, shape, k);
            }
          }
          r
        else r
      else r
  }

  /** With a non-negative depth the first shape is a proper box and the
      enumeration lists exactly its positions. */
  lemma {:induction false} ShapeBox(matrix: seq<seq<int>>, depth: int, shape: seq<int>, box: seq<Position>)
    requires depth >= 0 && FirstShape(matrix, depth) == Ok(shape)
    requires box == Enumerate(Origin(|matrix|), shape)
    ensures forall p :: p in box <==> InBox(p, Origin(|matrix|), shape)
  {
    var o := Origin(|matrix|);
    assert Positive(Sizes(o, shape)) by {
      forall d | 0 <= d < |matrix|
        ensures shape[d] > 0
      {
        MulNonNegative(MaxAbs(matrix[d]).value, depth);
      }
    }
    EnumerateInBox(o, shape, box);
    forall p | InBox(p, o, shape)
      ensures p in box
    {
      EnumerateComplete(o, shape, p);
    }
  }

  /** The start of the slab `expand` adds: the old side along `dim`, 0
      elsewhere. */
  function SlabStart(n: nat, dim: nat, side: int): (p: Position)
    requires dim < n
    ensures |p| == n && p[dim] == side && forall j | 0 <= j < n && j != dim :: p[j] == 0
  {
    Origin(n)[dim := side]
  }

  /** `expand(dimension)`: the side along `dim` grows by one, a fresh vertex
      fills every position of the new slab, and the edges inside the slab
      are added. */
  function Expand(f: Frame, dim: nat): (r: Result<Frame>)
    requires Valid(f)
    ensures dim >= |f.shape| ==> r == Fail(IndexError)
    ensures r.Ok? ==> (Valid(r.value) && r.value.matrix == f.matrix && r.value.numVectors == f.numVectors
      && dim < |f.shape| && r.value.shape == f.shape[dim := f.shape[dim] + 1]
      && f.vertices.Keys <= r.value.vertices.Keys && f.edges <= r.value.edges)
    ensures r.Ok? && Enumerable(SlabStart(|f.shape|, dim, f.shape[dim]), r.value.shape) ==>
      forall p :: p in r.value.vertices <==> p in f.vertices || InBox(p, SlabStart(|f.shape|, dim, f.shape[dim]), r.value.shape)
    ensures (dim < |f.shape| && Enumerable(SlabStart(|f.shape|, dim, f.shape[dim]), f.shape[dim := f.shape[dim] + 1])
      && AllTame(f, SlabStart(|f.shape|, dim, f.shape[dim]), f.shape[dim := f.shape[dim] + 1])) ==> r.Ok?
  {
    if dim >= |f.shape| then Fail(IndexError)
    else
      var start := SlabStart(|f.shape|, dim, f.shape[dim]);
      var shape := f.shape[dim := f.shape[dim] + 1];
      var box := Enumerate(start, shape);
      var g := f.(shape := shape, vertices := PlaceVertices(f.vertices, box, f.numVectors));
      assert Valid(g) by {
        forall e | e in g.edges
          ensures Joins(g, e)
        {
          assert Joins(f, e);
        }
      }
      var r := EdgesOver(g, 0, start, shape);
      if Enumerable(start, shape) then
        EnumerateInBox(start, shape, box);
        assert forall p | InBox(p, start, shape) :: p in box by {
          forall p | InBox(p, start, shape)
            ensures p in box
          {
            EnumerateComplete(start, shape, p);
          }
        }
        r
      else r
  }
}
