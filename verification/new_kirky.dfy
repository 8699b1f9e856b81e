/** The driver of `kirky/new_kirky.py`: a block lattice seeded from an
    integer matrix, one conservation row per vertex and dependent column,
    edge weights read back by pin, and the doubling search. */
module NewKirky {
  import opened Wrappers
  import BQ = BlockQ
  import BL = BlockLattice

  /** A `rows` by `cols` integer matrix; row `d` holds the coefficients of
      independent vector `d` in each dependent column. */
  datatype Matrix = Matrix(rows: nat, cols: nat, entries: seq<seq<int>>)

  predicate Shaped(m: Matrix)
  {
    |m.entries| == m.rows && forall d | 0 <= d < m.rows :: |m.entries[d]| == m.cols
  }

  /** Column `i` of the matrix. */
  function Column(m: Matrix, i: nat): (c: seq<int>)
    requires Shaped(m) && i < m.cols
    ensures |c| == m.rows && forall d | 0 <= d < m.rows :: c[d] == m.entries[d][i]
  {
    seq(m.rows, d requires 0 <= d < m.rows => m.entries[d][i])
  }

  // ---------------------------------------------------------------------
  // Setting up the block
  // ---------------------------------------------------------------------

  /** `x` is the largest absolute value in `row`. */
  predicate IsRowMax(row: seq<int>, x: int)
  {
    (forall j | 0 <= j < |row| :: BQ.Abs(row[j]) <= x) && exists j | 0 <= j < |row| :: BQ.Abs(row[j]) == x
  }

  /** `get_first_frame_shape()`: entry `d` is the largest absolute value in
      row `d`; `max` of an empty row raises. */
  function FrameShape(m: Matrix): (r: Result<seq<int>>)
    requires Shaped(m)
    ensures r.Fail? <==> m.rows > 0 && m.cols == 0
    ensures r.Fail? ==> r.error == ValueError
    ensures r.Ok? ==> |r.value| == m.rows && forall d | 0 <= d < m.rows :: IsRowMax(m.entries[d], r.value[d])
  {
    if m.rows > 0 && m.cols == 0 then Fail(ValueError)
    else Ok(seq(m.rows, d requires 0 <= d < m.rows => BQ.MaxAbs(m.entries[d]).value))
  }

  /** `get_interior_edges()`: for each column `i`, the edge from the origin
      to the column itself, standing for vector `rows + i`. */
  function InteriorEdges(m: Matrix): (r: seq<BL.Edge>)
    requires Shaped(m)
    ensures |r| == m.cols
    ensures forall i | 0 <= i < m.cols :: r[i].id == m.rows + i && |r[i].tail| == m.rows && |r[i].head| == m.rows
    ensures forall i, d | 0 <= i < m.cols && 0 <= d < m.rows :: r[i].head[d] - r[i].tail[d] == m.entries[d][i]
  {
    var r := seq(m.cols, i requires 0 <= i < m.cols => BL.Edge(BL.Origin(m.rows), Column(m, i), m.rows + i));
    assert forall i | 0 <= i < m.cols :: r[i].id == m.rows + i && |r[i].tail| == m.rows && |r[i].head| == m.rows by {
      forall i | 0 <= i < m.cols
        ensures r[i].id == m.rows + i && |r[i].tail| == m.rows && |r[i].head| == m.rows
      {
        assert r[i] == BL.Edge(BL.Origin(m.rows), Column(m, i), m.rows + i);
      }
    }
    assert forall i, d | 0 <= i < m.cols && 0 <= d < m.rows :: r[i].head[d] - r[i].tail[d] == m.entries[d][i] by {
      forall i, d | 0 <= i < m.cols && 0 <= d < m.rows
        ensures r[i].head[d] - r[i].tail[d] == m.entries[d][i]
      {
        assert r[i].tail[d] == 0 && r[i].head[d] == Column(m, i)[d];
      }
    }
    r
  }

  /** The state of a `Kirchhoff` object: the matrix and its block, with one
      axis per row and one vector per row and per column. */
  datatype Kirchhoff = Kirchhoff(matrix: Matrix, block: BL.Block)

  predicate Fitted(k: Kirchhoff)
  {
    Shaped(k.matrix) && BL.Valid(k.block)
    && k.block.dimensions == k.matrix.rows && k.block.numVectors == k.matrix.rows + k.matrix.cols
  }

  /** Some order listing each key of the vertex dictionary once: the
      dictionary's iteration order, which the model leaves open. */
  method KeysOrder(b: BL.Block) returns (order: seq<BL.Position>)
    ensures BL.Enumerates(b, order)
  {
    var left := b.vertices.Keys;
    order := [];
    while left != {}
      invariant left <= b.vertices.Keys
      invariant forall p | p in order :: p in b.vertices && p !in left
      invariant forall p | p in b.vertices :: p in order || p in left
      invariant forall i, j | 0 <= i < j < |order| :: order[i] != order[j]
      decreases |left|
    {
      var p :| p in left;
      order := order + [p];
      left := left - {p};
    }
  }

  /** What the loop over the interior edges in `__init__` has done after
      columns `0 .. i`. */
  ghost predicate InitInv(m: Matrix, seeded: BL.Block, cur: BL.Block, i: nat)
    requires Shaped(m)
  {
    i <= m.cols && BL.Valid(cur) && cur.vertices.Keys == seeded.vertices.Keys && cur.frame == seeded.frame
    && BL.SameVertices(seeded, cur)
    && forall c, p | 0 <= c < i && BL.Joins(cur, p, Column(m, c)) :: BL.Across(p, Column(m, c), m.rows + c) in cur.interior
  }

  /** Populating the interior for column `i` keeps the edges of earlier
      columns and adds those of column `i`. */
  lemma {:induction false} InitStep(m: Matrix, seeded: BL.Block, cur: BL.Block, next: BL.Block, i: nat, dif: seq<int>, id: nat)
    requires Shaped(m) && i < m.cols && InitInv(m, seeded, cur, i)
    requires BL.Valid(next) && next.vertices.Keys == cur.vertices.Keys && next.frame == cur.frame
    requires BL.SameVertices(cur, next) && cur.interior <= next.interior
    requires dif == Column(m, i) && id == m.rows + i
    requires forall p | BL.Joins(cur, p, dif) :: BL.Across(p, dif, id) in next.interior
    ensures InitInv(m, seeded, next, i + 1)
  {
    forall c, p | 0 <= c < i + 1 && BL.Joins(next, p, Column(m, c))
      ensures BL.Across(p, Column(m, c), m.rows + c) in next.interior
    {
      assert BL.Joins(cur, p, Column(m, c));
      if c < i {
        var e := BL.Across(p, Column(m, c), m.rows + c);
        var k :| 0 <= k < |cur.interior| && cur.interior[k] == e;
        assert next.interior[k] == e;
      } else {
        assert BL.Joins(cur, p, dif);
      }
    }
  }

  /** The loop of `Kirchhoff.__init__` as written (new_kirky.py:19-20):
      `populate_interior(edge)` passes one argument to a method that takes
      the edge and its id (block.py:55), so the first interior edge raises
      `TypeError` before anything is populated. Only a matrix without
      columns gets through, with the block as seeded. PopulateColumns passes
      the edge's id as the second argument. */
  function PopulateColumnsAsWritten(m: Matrix, seeded: BL.Block): (r: Result<BL.Block>)
    requires Shaped(m)
    ensures r.Ok? <==> m.cols == 0
    ensures r.Fail? ==> r.error == TypeError
    ensures r.Ok? ==> r.value == seeded
  {
    if |InteriorEdges(m)| == 0 then Ok(seeded) else Fail(TypeError)
  }

  method PopulateColumns(m: Matrix, seeded: BL.Block) returns (cur: BL.Block)
    requires Shaped(m) && BL.Valid(seeded)
    requires seeded.dimensions == m.rows && seeded.numVectors == m.rows + m.cols
    ensures InitInv(m, seeded, cur, m.cols)
  {
    cur := seeded;
    var i := 0;
    while i < m.cols
      invariant InitInv(m, seeded, cur, i)
    {
      cur := PopulateColumn(m, seeded, cur, i);
      i := i + 1;
    }
  }

  /** The example edge of column `i` runs from the origin along the
      column, under vector `rows + i`. */
  lemma ColumnExample(m: Matrix, i: nat)
    requires Shaped(m) && i < m.cols
    ensures InteriorEdges(m)[i].id == m.rows + i
    ensures |InteriorEdges(m)[i].tail| == m.rows && |InteriorEdges(m)[i].head| == m.rows
    ensures forall d | 0 <= d < m.rows :: InteriorEdges(m)[i].head[d] - InteriorEdges(m)[i].tail[d] == Column(m, i)[d]
  {
  }

  /** One round of that loop: the interior populated with the example
      edge of column `i`, under its own vector. */
  method PopulateColumn(m: Matrix, seeded: BL.Block, cur: BL.Block, i: nat) returns (next: BL.Block)
    requires Shaped(m) && i < m.cols && InitInv(m, seeded, cur, i)
    requires seeded.dimensions == m.rows && seeded.numVectors == m.rows + m.cols
    ensures InitInv(m, seeded, next, i + 1)
  {
    assert cur.dimensions == m.rows && cur.numVectors == m.rows + m.cols;
    var e := InteriorEdges(m)[i];
    ColumnExample(m, i);
    var order := KeysOrder(cur);
    var populated, dif := BL.PopulateInterior(cur, e, e.id, order);
    assert dif == Column(m, i);
    assert populated.Ok?;
    next := populated.value;
    InitStep(m, seeded, cur, next, i, dif, e.id);
  }

  /** `Kirchhoff(matrix)`: a block with one axis per row and one vector per
      row and per column, its frame seeded to the frame shape, and the
      interior populated with every edge of each column's displacement that
      joins two vertices, under the column's vector. */
  method Init(m: Matrix) returns (r: Result<Kirchhoff>)
    requires Shaped(m)
    ensures r.Fail? <==> m.rows > 0 && m.cols == 0
    ensures r.Fail? ==> r.error == ValueError
    ensures r.Ok? ==> Fitted(r.value) && r.value.matrix == m
    ensures r.Ok? ==> forall a | 0 <= a < m.rows ::
      BL.Reaches(BL.SeedRun(m.rows, m.rows), r.value.block.frame, a, FrameShape(m).value[a])
    ensures r.Ok? ==> forall c, p | 0 <= c < m.cols && BL.Joins(r.value.block, p, Column(m, c)) ::
      BL.Across(p, Column(m, c), m.rows + c) in r.value.block.interior
  {
    var shape := FrameShape(m);
    if shape.Fail? {
      return Fail(ValueError);
    }
    var empty := BL.NewBlock(m.rows, m.rows + m.cols);
    var seededR := BL.SeedFrame(empty, shape.value);
    var seeded := seededR.value;
    assert empty.frame + BL.SeedRun(m.rows, m.rows) == BL.SeedRun(m.rows, m.rows);
    var cur := PopulateColumns(m, seeded);
    return Ok(Kirchhoff(m, cur));
  }

  // ---------------------------------------------------------------------
  // The linear system
  // ---------------------------------------------------------------------

  /** One assignment `row[pin] = value`. */
  datatype Write = Write(pin: nat, value: real)

  /** The entry of the cut that assignment `k` of a row reads: entries
      `0 .. rows` for the independent vectors, then the dependent vector
      `rows + i`; even `k` for the edge poking in, odd `k` for the edge
      leading off. */
  function Assignment(v: BL.Vertex, m: Matrix, i: nat, pin: BL.Edge -> nat, k: nat): Option<Write>
    requires Shaped(m) && i < m.cols && |v.cut| == m.rows + m.cols && k < 2 * m.rows + 2
  {
    var j := k / 2;
    var slot := if j < m.rows then v.cut[j] else v.cut[m.rows + i];
    var inValue := if j < m.rows then -(m.entries[j][i] as real) else 1.0;
    var outValue := if j < m.rows then m.entries[j][i] as real else -1.0;
    if k % 2 == 0 then
      (if slot.incoming.Some? then Some(Write(pin(slot.incoming.value), inValue)) else None)
    else
      (if slot.outgoing.Some? then Some(Write(pin(slot.outgoing.value), outValue)) else None)
  }

  /** The assignments of the row for vertex `v` and column `i`, in the
      order they are made; `None` where the cut has no edge. */
  function RowWrites(v: BL.Vertex, m: Matrix, i: nat, pin: BL.Edge -> nat): (ws: seq<Option<Write>>)
    requires Shaped(m) && i < m.cols && |v.cut| == m.rows + m.cols
    ensures |ws| == 2 * m.rows + 2
  {
    seq(2 * m.rows + 2, k requires 0 <= k < 2 * m.rows + 2 => Assignment(v, m, i, pin, k))
  }

  /** Reference meaning of a run of assignments: entry `p` ends with the
      value of the last assignment to `p`, or keeps `base` if there is
      none. */
  function LastWrite(base: real, ws: seq<Option<Write>>, p: nat): real
  {
    if |ws| == 0 then base
    else if ws[|ws| - 1].Some? && ws[|ws| - 1].value.pin == p then ws[|ws| - 1].value.value
    else LastWrite(base, ws[..|ws| - 1], p)
  }

  /** Carrying out the assignments in order; an index past the row
      raises. */
  function Apply(row: seq<real>, ws: seq<Option<Write>>): (r: Result<seq<real>>)
    ensures r.Fail? <==> exists k | 0 <= k < |ws| :: ws[k].Some? && ws[k].value.pin >= |row|
    ensures r.Fail? ==> r.error == IndexError
    ensures r.Ok? ==> |r.value| == |row| && forall p | 0 <= p < |row| :: r.value[p] == LastWrite(row[p], ws, p)
  {
    if |ws| == 0 then Ok(row)
    else
      var front := ws[..|ws| - 1];
      var w := ws[|ws| - 1];
      assert forall k | 0 <= k < |front| :: front[k] == ws[k];
      match Apply(row, front)
      case Fail(e) => Fail(e)
      case Ok(prev) =>
        if w.None? then Ok(prev)
        else if w.value.pin >= |row| then Fail(IndexError)
        else Ok(prev[w.value.pin := w.value.value])
  }

  /** No two assignments share an index. */
  predicate DistinctPins(ws: seq<Option<Write>>)
  {
    forall a, b | 0 <= a < b < |ws| && ws[a].Some? && ws[b].Some? :: ws[a].value.pin != ws[b].value.pin
  }

  /** With distinct indices every assignment survives. */
  lemma {:induction false} LastWriteAt(base: real, ws: seq<Option<Write>>, k: nat)
    requires DistinctPins(ws) && k < |ws| && ws[k].Some?
    ensures LastWrite(base, ws, ws[k].value.pin) == ws[k].value.value
    decreases |ws|
  {
    if k < |ws| - 1 {
      var front := ws[..|ws| - 1];
      assert front[k] == ws[k];
      LastWriteAt(base, front, k);
    }
  }

  /** An index nobody assigns keeps its value. */
  lemma {:induction false} LastWriteNone(base: real, ws: seq<Option<Write>>, p: nat)
    requires forall k | 0 <= k < |ws| && ws[k].Some? :: ws[k].value.pin != p
    ensures LastWrite(base, ws, p) == base
    decreases |ws|
  {
    if |ws| > 0 {
      var front := ws[..|ws| - 1];
      assert forall k | 0 <= k < |front| :: front[k] == ws[k];
      LastWriteNone(base, front, p);
    }
  }

  function Zeros(n: nat): (z: seq<real>)
    ensures |z| == n && forall p | 0 <= p < n :: z[p] == 0.0
  {
    seq(n, _ => 0.0)
  }

  /** The row for vertex `v` and dependent column `i` over `n` edge
      columns. */
  function Row(v: BL.Vertex, m: Matrix, i: nat, pin: BL.Edge -> nat, n: nat): (r: Result<seq<real>>)
    requires Shaped(m) && i < m.cols && |v.cut| == m.rows + m.cols
    ensures r.Ok? ==> |r.value| == n
  {
    Apply(Zeros(n), RowWrites(v, m, i, pin))
  }

  /** Building a row can only fail on an index past its end. */
  lemma RowError(v: BL.Vertex, m: Matrix, i: nat, pin: BL.Edge -> nat, n: nat)
    requires Shaped(m) && i < m.cols && |v.cut| == m.rows + m.cols
    ensures Row(v, m, i, pin, n).Fail? ==> Row(v, m, i, pin, n).error == IndexError
  {
  }

  /** Every edge in the cut has a pin below `n`. */
  predicate PinsBelow(v: BL.Vertex, pin: BL.Edge -> nat, n: nat)
  {
    forall j | 0 <= j < |v.cut| ::
      (v.cut[j].incoming.Some? ==> pin(v.cut[j].incoming.value) < n)
      && (v.cut[j].outgoing.Some? ==> pin(v.cut[j].outgoing.value) < n)
  }

  /** Some assignment of the row for column `i` is to index `p`. */
  predicate Assigned(v: BL.Vertex, m: Matrix, i: nat, pin: BL.Edge -> nat, p: nat)
    requires Shaped(m) && i < m.cols && |v.cut| == m.rows + m.cols
  {
    exists k | 0 <= k < 2 * m.rows + 2 :: Assignment(v, m, i, pin, k).Some? && Assignment(v, m, i, pin, k).value.pin == p
  }

  /** A row is built exactly when every pin it assigns lies inside it. */
  lemma {:induction false} RowOk(v: BL.Vertex, m: Matrix, i: nat, pin: BL.Edge -> nat, n: nat)
    requires Shaped(m) && i < m.cols && |v.cut| == m.rows + m.cols && PinsBelow(v, pin, n)
    ensures Row(v, m, i, pin, n).Ok? && |Row(v, m, i, pin, n).value| == n
  {
    var ws := RowWrites(v, m, i, pin);
    forall k | 0 <= k < |ws| && ws[k].Some?
      ensures ws[k].value.pin < n
    {
      assert ws[k] == Assignment(v, m, i, pin, k);
    }
  }

  /** When the pins the row assigns are distinct and inside it, the row
      for column `i` holds minus the coefficient of vector `j` at the pin
      of the edge poking in along `j` and plus it at the pin of the edge
      leading off, plus one and minus one at the pins of the dependent
      vector's edges, and zero everywhere else. */
  lemma {:induction false} RowEntries(v: BL.Vertex, m: Matrix, i: nat, pin: BL.Edge -> nat, n: nat)
    requires Shaped(m) && i < m.cols && |v.cut| == m.rows + m.cols && PinsBelow(v, pin, n)
    requires DistinctPins(RowWrites(v, m, i, pin))
    ensures Row(v, m, i, pin, n).Ok? && |Row(v, m, i, pin, n).value| == n
    ensures forall j | 0 <= j < m.rows && v.cut[j].incoming.Some? ::
      Row(v, m, i, pin, n).value[pin(v.cut[j].incoming.value)] == -(m.entries[j][i] as real)
    ensures forall j | 0 <= j < m.rows && v.cut[j].outgoing.Some? ::
      Row(v, m, i, pin, n).value[pin(v.cut[j].outgoing.value)] == m.entries[j][i] as real
    ensures v.cut[m.rows + i].incoming.Some? ==> Row(v, m, i, pin, n).value[pin(v.cut[m.rows + i].incoming.value)] == 1.0
    ensures v.cut[m.rows + i].outgoing.Some? ==> Row(v, m, i, pin, n).value[pin(v.cut[m.rows + i].outgoing.value)] == -1.0
    ensures forall p | 0 <= p < n && !Assigned(v, m, i, pin, p) :: Row(v, m, i, pin, n).value[p] == 0.0
  {
    RowOk(v, m, i, pin, n);
    var ws := RowWrites(v, m, i, pin);
    var row := Row(v, m, i, pin, n).value;
    forall k | 0 <= k < |ws| && ws[k].Some?
      ensures row[ws[k].value.pin] == ws[k].value.value
    {
      assert ws[k] == Assignment(v, m, i, pin, k);
      LastWriteAt(0.0, ws, k);
    }
    forall j | 0 <= j < m.rows + 1
      ensures j < m.rows && v.cut[j].incoming.Some? ==> row[pin(v.cut[j].incoming.value)] == -(m.entries[j][i] as real)
      ensures j < m.rows && v.cut[j].outgoing.Some? ==> row[pin(v.cut[j].outgoing.value)] == m.entries[j][i] as real
      ensures j == m.rows && v.cut[m.rows + i].incoming.Some? ==> row[pin(v.cut[m.rows + i].incoming.value)] == 1.0
      ensures j == m.rows && v.cut[m.rows + i].outgoing.Some? ==> row[pin(v.cut[m.rows + i].outgoing.value)] == -1.0
    {
      assert (2 * j) / 2 == j && (2 * j) % 2 == 0 && (2 * j + 1) / 2 == j && (2 * j + 1) % 2 == 1;
      assert ws[2 * j] == Assignment(v, m, i, pin, 2 * j);
      assert ws[2 * j + 1] == Assignment(v, m, i, pin, 2 * j + 1);
    }
    forall p | 0 <= p < n && !Assigned(v, m, i, pin, p)
      ensures row[p] == 0.0
    {
      forall k | 0 <= k < |ws| && ws[k].Some?
        ensures ws[k].value.pin != p
      {
        assert ws[k] == Assignment(v, m, i, pin, k);
      }
      LastWriteNone(0.0, ws, p);
    }
  }

  /** `a * b` built by repeated addition, so that the row arithmetic
      below stays linear; MulIs connects it to `*`. */
  function Mul(a: nat, b: nat): nat
  {
    if a == 0 then 0 else Mul(a - 1, b) + b
  }

  lemma {:induction false} MulIs(a: nat, b: nat)
    ensures Mul(a, b) == a * b
  {
    if a > 0 {
      MulIs(a - 1, b);
    }
  }

  lemma {:induction false} MulStep(u: nat, c: nat, cols: nat, i: nat)
    requires u < c && i < cols
    ensures Mul(u, cols) + i < Mul(c, cols)
  {
    if u < c - 1 {
      MulStep(u, c - 1, cols, i);
    }
  }

  /** Concatenating the results `t[..i]`, failing with one of the errors
      met. */
  function CollectRow<T>(t: seq<Result<T>>, i: nat): (r: Result<seq<T>>)
    requires i <= |t|
    ensures r.Fail? <==> exists x | 0 <= x < i :: t[x].Fail?
    ensures r.Fail? ==> exists x | 0 <= x < i :: t[x] == Fail(r.error)
    ensures r.Ok? ==> |r.value| == i && forall x | 0 <= x < i :: t[x] == Ok(r.value[x])
  {
    if i == 0 then Ok([])
    else
      match CollectRow(t, i - 1)
      case Fail(e) => Fail(e)
      case Ok(done) =>
        match t[i - 1]
        case Fail(e) => Fail(e)
        case Ok(y) => Ok(done + [y])
  }

  /** Concatenating the results of a table, table row by table row, over
      the first `c` rows. */
  function Collect<T>(t: seq<seq<Result<T>>>, cols: nat, c: nat): (r: Result<seq<T>>)
    requires c <= |t| && forall u | 0 <= u < |t| :: |t[u]| == cols
    ensures r.Fail? <==> exists u, i | 0 <= u < c && 0 <= i < cols :: t[u][i].Fail?
    ensures r.Fail? ==> exists u, i | 0 <= u < c && 0 <= i < cols :: t[u][i] == Fail(r.error)
    ensures r.Ok? ==> |r.value| == Mul(c, cols)
    ensures r.Ok? ==> forall y | y in r.value :: exists u, i | 0 <= u < c && 0 <= i < cols :: t[u][i] == Ok(y)
  {
    if c == 0 then Ok([])
    else
      match Collect(t, cols, c - 1)
      case Fail(e) => Fail(e)
      case Ok(done) =>
        var last := t[c - 1];
        match CollectRow(last, cols)
        case Fail(e) => Fail(e)
        case Ok(more) =>
          assert forall y | y in more :: exists i | 0 <= i < cols :: last[i] == Ok(y) by {
            forall y | y in more
              ensures exists i | 0 <= i < cols :: last[i] == Ok(y)
            {
              var i :| 0 <= i < |more| && more[i] == y;
            }
          }
          Ok(done + more)
  }

  /** Entry `u * cols + i` of a collected table is the result at `t[u][i]`. */
  lemma {:induction false} CollectAt<T>(t: seq<seq<Result<T>>>, cols: nat, c: nat, u: nat, i: nat)
    requires c <= |t| && forall u | 0 <= u < |t| :: |t[u]| == cols
    requires Collect(t, cols, c).Ok? && u < c && i < cols
    ensures Mul(u, cols) + i < |Collect(t, cols, c).value|
    ensures t[u][i] == Ok(Collect(t, cols, c).value[Mul(u, cols) + i])
  {
    MulStep(u, c, cols, i);
    var done := Collect(t, cols, c - 1).value;
    var more := CollectRow(t[c - 1], cols).value;
    assert Collect(t, cols, c).value == done + more;
    if u < c - 1 {
      CollectAt(t, cols, c - 1, u, i);
      MulStep(u, c - 1, cols, i);
    } else {
      assert Mul(u, cols) == |done|;
    }
  }

  /** A sequence without repeats has as many entries as it has distinct
      elements. */
  lemma {:induction false} DistinctCount<T>(s: seq<T>)
    requires forall i, j | 0 <= i < j < |s| :: s[i] != s[j]
    ensures |set x | x in s| == |s|
  {
    if |s| > 0 {
      var front := s[..|s| - 1];
      DistinctCount(front);
      assert (set x | x in s) == (set x | x in front) + {s[|s| - 1]};
      assert s[|s| - 1] !in (set x | x in front);
    }
  }

  /** An enumeration of the vertex dictionary lists as many positions as
      there are vertices. */
  lemma {:induction false} EnumeratesCount(b: BL.Block, order: seq<BL.Position>)
    requires BL.Enumerates(b, order)
    ensures |order| == |b.vertices|
  {
    DistinctCount(order);
    assert (set x | x in order) == b.vertices.Keys;
  }

  /** The number of unknowns: one weight per frame and interior edge. */
  function Width(b: BL.Block): nat
  {
    |b.frame| + |b.interior|
  }

  /** The rows of the system before they are gathered: entry `[u][i]` is
      the row of vertex `order[u]` for dependent column `i`. */
  function Table(k: Kirchhoff, order: seq<BL.Position>, pin: BL.Edge -> nat): (t: seq<seq<Result<seq<real>>>>)
    requires Fitted(k) && forall p | p in order :: p in k.block.vertices
    ensures |t| == |order|
    ensures forall u | 0 <= u < |t| :: |t[u]| == k.matrix.cols
    ensures forall u, i | 0 <= u < |t| && 0 <= i < k.matrix.cols ::
      t[u][i] == Row(k.block.vertices[order[u]], k.matrix, i, pin, Width(k.block))
  {
    seq(|order|, u requires 0 <= u < |order| =>
      seq(k.matrix.cols, i requires 0 <= i < k.matrix.cols =>
        Row(k.block.vertices[order[u]], k.matrix, i, pin, Width(k.block))))
  }

  /** Some entry of the table fails exactly when the row of some vertex
      and column fails. */
  lemma TableFails(k: Kirchhoff, order: seq<BL.Position>, pin: BL.Edge -> nat)
    requires Fitted(k) && BL.Enumerates(k.block, order)
    ensures (exists u, i | 0 <= u < |order| && 0 <= i < k.matrix.cols :: Table(k, order, pin)[u][i].Fail?) <==>
      exists p, i | p in k.block.vertices && 0 <= i < k.matrix.cols ::
        Row(k.block.vertices[p], k.matrix, i, pin, Width(k.block)).Fail?
  {
    TableOfFails(k, order, pin, Table(k, order, pin));
  }

  /** `t` is the table of the vertices in `order`. */
  predicate TableOf(k: Kirchhoff, order: seq<BL.Position>, pin: BL.Edge -> nat, t: seq<seq<Result<seq<real>>>>)
    requires Fitted(k) && forall p | p in order :: p in k.block.vertices
  {
    |t| == |order| && (forall u | 0 <= u < |t| :: |t[u]| == k.matrix.cols)
    && forall u, i | 0 <= u < |t| && 0 <= i < k.matrix.cols ::
      t[u][i] == Row(k.block.vertices[order[u]], k.matrix, i, pin, Width(k.block))
  }

  lemma TableOfFails(k: Kirchhoff, order: seq<BL.Position>, pin: BL.Edge -> nat, t: seq<seq<Result<seq<real>>>>)
    requires Fitted(k) && BL.Enumerates(k.block, order) && TableOf(k, order, pin, t)
    ensures (exists u, i | 0 <= u < |order| && 0 <= i < k.matrix.cols :: t[u][i].Fail?) <==>
      exists p, i | p in k.block.vertices && 0 <= i < k.matrix.cols ::
        Row(k.block.vertices[p], k.matrix, i, pin, Width(k.block)).Fail?
  {
    if exists p, i | p in k.block.vertices && 0 <= i < k.matrix.cols ::
        Row(k.block.vertices[p], k.matrix, i, pin, Width(k.block)).Fail? {
      var p: BL.Position, i: int :| p in k.block.vertices && 0 <= i < k.matrix.cols &&
        Row(k.block.vertices[p], k.matrix, i, pin, Width(k.block)).Fail?;
      var u :| 0 <= u < |order| && order[u] == p;
      assert t[u][i].Fail?;
    }
  }

  /** `generate_linear_system()` with the vertex dictionary iterated in
      `order` and the edges' pins given by `pin`: one row per vertex and
      dependent column, each as long as the frame and the interior
      together; an edge pin past the row raises. */
  function GenerateLinearSystem(k: Kirchhoff, order: seq<BL.Position>, pin: BL.Edge -> nat): (r: Result<seq<seq<real>>>)
    requires Fitted(k) && BL.Enumerates(k.block, order)
    ensures r.Ok? ==> |r.value| == |k.block.vertices| * k.matrix.cols
    ensures r.Ok? ==> forall row | row in r.value :: |row| == Width(k.block)
  {
    EnumeratesCount(k.block, order);
    MulIs(|order|, k.matrix.cols);
    Collect(Table(k, order, pin), k.matrix.cols, |order|)
  }

  /** The system fails exactly when the row of some vertex and dependent
      column fails, and then with `IndexError`. */
  lemma SystemFails(k: Kirchhoff, order: seq<BL.Position>, pin: BL.Edge -> nat)
    requires Fitted(k) && BL.Enumerates(k.block, order)
    ensures GenerateLinearSystem(k, order, pin).Fail? <==> exists p, i | p in k.block.vertices && 0 <= i < k.matrix.cols ::
      Row(k.block.vertices[p], k.matrix, i, pin, Width(k.block)).Fail?
    ensures GenerateLinearSystem(k, order, pin).Fail? ==> GenerateLinearSystem(k, order, pin).error == IndexError
  {
    SystemFailsWhen(k, order, pin);
    SystemFailsWith(k, order, pin);
  }

  lemma SystemFailsWhen(k: Kirchhoff, order: seq<BL.Position>, pin: BL.Edge -> nat)
    requires Fitted(k) && BL.Enumerates(k.block, order)
    ensures GenerateLinearSystem(k, order, pin).Fail? <==> exists p, i | p in k.block.vertices && 0 <= i < k.matrix.cols ::
      Row(k.block.vertices[p], k.matrix, i, pin, Width(k.block)).Fail?
  {
    TableFails(k, order, pin);
    assert GenerateLinearSystem(k, order, pin) == Collect(Table(k, order, pin), k.matrix.cols, |order|);
  }

  lemma SystemFailsWith(k: Kirchhoff, order: seq<BL.Position>, pin: BL.Edge -> nat)
    requires Fitted(k) && BL.Enumerates(k.block, order)
    ensures GenerateLinearSystem(k, order, pin).Fail? ==> GenerateLinearSystem(k, order, pin).error == IndexError
  {
    TableErrors(k, order, pin);
    var t := Table(k, order, pin);
    assert GenerateLinearSystem(k, order, pin) == Collect(t, k.matrix.cols, |order|);
    CollectFailsWith(t, k.matrix.cols, |order|, IndexError);
  }

  /** Every failing entry of the table fails with `IndexError`. */
  lemma TableErrors(k: Kirchhoff, order: seq<BL.Position>, pin: BL.Edge -> nat)
    requires Fitted(k) && BL.Enumerates(k.block, order)
    ensures forall u, i | 0 <= u < |order| && 0 <= i < k.matrix.cols && Table(k, order, pin)[u][i].Fail? ::
      Table(k, order, pin)[u][i].error == IndexError
  {
    forall u, i | 0 <= u < |order| && 0 <= i < k.matrix.cols
      ensures Table(k, order, pin)[u][i] == Row(k.block.vertices[order[u]], k.matrix, i, pin, Width(k.block))
      ensures Table(k, order, pin)[u][i].Fail? ==> Table(k, order, pin)[u][i].error == IndexError
    {
      RowError(k.block.vertices[order[u]], k.matrix, i, pin, Width(k.block));
    }
  }

  /** When every failing entry fails with `e`, so does the collected table. */
  lemma CollectFailsWith<T>(t: seq<seq<Result<T>>>, cols: nat, c: nat, e: Error)
    requires c <= |t| && forall u | 0 <= u < |t| :: |t[u]| == cols
    requires forall u, i | 0 <= u < c && 0 <= i < cols && t[u][i].Fail? :: t[u][i].error == e
    ensures Collect(t, cols, c).Fail? ==> Collect(t, cols, c).error == e
  {
  }

  /** Row `u * cols + i` of the system is the row of vertex `order[u]` for
      dependent column `i` (`Mul(u, cols)` is `u * cols`, MulIs). */
  lemma SystemRowAt(k: Kirchhoff, order: seq<BL.Position>, pin: BL.Edge -> nat, u: nat, i: nat)
    requires Fitted(k) && BL.Enumerates(k.block, order)
    requires GenerateLinearSystem(k, order, pin).Ok? && u < |order| && i < k.matrix.cols
    ensures Mul(u, k.matrix.cols) + i < |GenerateLinearSystem(k, order, pin).value|
    ensures Row(k.block.vertices[order[u]], k.matrix, i, pin, Width(k.block)) ==
      Ok(GenerateLinearSystem(k, order, pin).value[Mul(u, k.matrix.cols) + i])
  {
    var t := Table(k, order, pin);
    var x := Row(k.block.vertices[order[u]], k.matrix, i, pin, Width(k.block));
    assert t[u][i] == x;
    assert GenerateLinearSystem(k, order, pin) == Collect(t, k.matrix.cols, |order|);
    CollectEntry(t, k.matrix.cols, |order|, u, i, x);
  }

  /** CollectAt, for an entry already known by another name. */
  lemma CollectEntry<T>(t: seq<seq<Result<T>>>, cols: nat, c: nat, u: nat, i: nat, x: Result<T>)
    requires c <= |t| && forall u | 0 <= u < |t| :: |t[u]| == cols
    requires Collect(t, cols, c).Ok? && u < c && i < cols && t[u][i] == x
    ensures Mul(u, cols) + i < |Collect(t, cols, c).value|
    ensures x == Ok(Collect(t, cols, c).value[Mul(u, cols) + i])
  {
    CollectAt(t, cols, c, u, i);
  }

  /** An edge with the weight the solution gives it. */
  datatype Weighted = Weighted(edge: BL.Edge, weight: real)

  /** The keys never decrease along `s`. */
  predicate SortedBy<T>(s: seq<T>, key: T -> nat)
  {
    forall a, b | 0 <= a < b < |s| :: key(s[a]) <= key(s[b])
  }

  /** No two entries of `s` share a key. */
  predicate DistinctKeys<T>(s: seq<T>, key: T -> nat)
  {
    forall a, b | 0 <= a < b < |s| :: key(s[a]) != key(s[b])
  }

  /** Putting `e` after every entry of the sorted `s` whose key is not
      larger, so that entries with equal keys keep their order. */
  function InsertBy<T>(e: T, s: seq<T>, key: T -> nat): (r: seq<T>)
    requires SortedBy(s, key)
    ensures multiset(r) == multiset(s) + multiset{e}
    ensures |r| == |s| + 1
    ensures SortedBy(r, key)
    ensures forall x | x in r :: x == e || x in s
  {
    if |s| == 0 then [e]
    else
      var front, last := s[..|s| - 1], s[|s| - 1];
      assert s == front + [last];
      if key(last) <= key(e) then s + [e]
      else
        var mid := InsertBy(e, front, key);
        assert forall x | x in front :: key(x) <= key(last) by {
          forall x | x in front
            ensures key(x) <= key(last)
          {
            var a :| 0 <= a < |front| && front[a] == x;
            assert s[a] == x;
          }
        }
        assert forall x | x in mid :: key(x) <= key(last);
        assert multiset(s) == multiset(front) + multiset{last};
        SortedAppend(mid, last, key);
        mid + [last]
  }

  /** An entry whose key is at least every key of a sorted sequence may
      follow it. */
  lemma SortedAppend<T>(s: seq<T>, e: T, key: T -> nat)
    requires SortedBy(s, key) && forall x | x in s :: key(x) <= key(e)
    ensures SortedBy(s + [e], key)
  {
    var r := s + [e];
    forall a, b | 0 <= a < b < |r|
      ensures key(r[a]) <= key(r[b])
    {
      if b == |s| {
        assert r[a] in s;
      }
    }
  }

  /** Python's `sorted(s, key=key)`: a stable sort, which insertion from
      the left reproduces. */
  function SortBy<T>(s: seq<T>, key: T -> nat): (r: seq<T>)
    ensures SortedBy(r, key)
  {
    if |s| == 0 then [] else InsertBy(s[|s| - 1], SortBy(s[..|s| - 1], key), key)
  }

  /** Sorting only reorders. */
  lemma {:induction false} SortByPermutes<T>(s: seq<T>, key: T -> nat)
    ensures multiset(SortBy(s, key)) == multiset(s)
    ensures |SortBy(s, key)| == |s|
  {
    if |s| > 0 {
      var front, last := s[..|s| - 1], s[|s| - 1];
      SortByPermutes(front, key);
      assert s == front + [last];
      assert multiset(s) == multiset(front) + multiset{last};
      assert SortBy(s, key) == InsertBy(last, SortBy(front, key), key);
    }
  }

  /** An entry that occurs at most once is met at one place only. */
  lemma OnceDistinct<T>(s: seq<T>, a: nat, b: nat)
    requires a < b < |s| && multiset(s)[s[a]] <= 1
    ensures s[a] != s[b]
  {
    assert s == s[..b] + s[b..];
    assert s[a] in s[..b];
    assert s[b..][0] == s[b];
  }

  /** Entries with distinct keys occur once each. */
  lemma {:induction false} CountOne<T>(s: seq<T>, key: T -> nat, x: T)
    requires DistinctKeys(s, key)
    ensures multiset(s)[x] <= 1
  {
    if |s| > 0 {
      var front, last := s[..|s| - 1], s[|s| - 1];
      assert s == front + [last];
      CountOne(front, key, x);
      assert forall a | 0 <= a < |front| :: front[a] != last by {
        forall a | 0 <= a < |front|
          ensures front[a] != last
        {
          assert key(s[a]) != key(s[|s| - 1]);
        }
      }
    }
  }

  /** A reordering keeps keys distinct. */
  lemma DistinctKeysPermute<T>(t: seq<T>, s: seq<T>, key: T -> nat)
    requires DistinctKeys(t, key) && multiset(t) == multiset(s)
    ensures DistinctKeys(s, key)
  {
    forall a, b | 0 <= a < b < |s|
      ensures key(s[a]) != key(s[b])
    {
      CountOne(t, key, s[a]);
      OnceDistinct(s, a, b);
      assert s[a] in multiset(t) && s[b] in multiset(t);
      var i :| 0 <= i < |t| && t[i] == s[a];
      var j :| 0 <= j < |t| && t[j] == s[b];
      if i < j {
        assert key(t[i]) != key(t[j]);
      } else {
        assert key(t[j]) != key(t[i]);
      }
    }
  }

  lemma {:induction false} KeyAtLeast<T>(s: seq<T>, key: T -> nat, k: nat)
    requires SortedBy(s, key) && DistinctKeys(s, key) && k < |s|
    ensures key(s[k]) >= k
  {
    if k > 0 {
      KeyAtLeast(s, key, k - 1);
    }
  }

  lemma {:induction false} KeyAtMost<T>(s: seq<T>, key: T -> nat, k: nat)
    requires SortedBy(s, key) && DistinctKeys(s, key) && k < |s|
    requires forall x | x in s :: key(x) < |s|
    ensures key(s[k]) <= k
    decreases |s| - k
  {
    if k < |s| - 1 {
      KeyAtMost(s, key, k + 1);
    }
  }

  /** Sorted distinct keys below the length are exactly the indices. */
  lemma KeyIsIndex<T>(s: seq<T>, key: T -> nat, k: nat)
    requires SortedBy(s, key) && DistinctKeys(s, key) && k < |s|
    requires forall x | x in s :: key(x) < |s|
    ensures key(s[k]) == k
  {
    KeyAtLeast(s, key, k);
    KeyAtMost(s, key, k);
  }

  /** The edges of a weighting, in order. */
  function Edges(ws: seq<Weighted>): (es: seq<BL.Edge>)
    ensures |es| == |ws| && forall i | 0 <= i < |ws| :: es[i] == ws[i].edge
  {
    seq(|ws|, i requires 0 <= i < |ws| => ws[i].edge)
  }

  /** Pairing each edge with the unknown at its index. */
  function Weigh(edges: seq<BL.Edge>, solution: seq<real>): (r: seq<Weighted>)
    requires |edges| <= |solution|
    ensures Edges(r) == edges && forall i | 0 <= i < |r| :: r[i].weight == solution[i]
  {
    seq(|edges|, i requires 0 <= i < |edges| => Weighted(edges[i], solution[i]))
  }

  /** `set_edge_weights(solution)`: the frame and interior edges sorted by
      pin, the `i`-th of them weighted by the `i`-th unknown of the
      solution; a solution shorter than the edge list raises. */
  function SetEdgeWeights(b: BL.Block, pin: BL.Edge -> nat, solution: seq<real>): (r: Result<seq<Weighted>>)
    ensures r.Fail? <==> |solution| < Width(b)
    ensures r.Fail? ==> r.error == IndexError
    ensures r.Ok? ==> |r.value| == Width(b) && multiset(Edges(r.value)) == multiset(b.frame + b.interior)
    ensures r.Ok? ==> forall i | 0 <= i < |r.value| :: r.value[i].weight == solution[i]
    ensures r.Ok? ==> SortedBy(Edges(r.value), pin)
  {
    var all := b.frame + b.interior;
    SortByPermutes(all, pin);
    var edges := SortBy(all, pin);
    if |solution| < |edges| then Fail(IndexError) else Ok(Weigh(edges, solution))
  }

  /** When the pins number the edges `0 .. n` without repeats, every edge
      is weighted by the unknown at its own pin, the column the linear
      system gave it. */
  lemma WeightsByPin(b: BL.Block, pin: BL.Edge -> nat, solution: seq<real>)
    requires DistinctKeys(b.frame + b.interior, pin)
    requires forall e | e in b.frame + b.interior :: pin(e) < Width(b)
    requires |solution| >= Width(b)
    ensures SetEdgeWeights(b, pin, solution).Ok?
    ensures forall e | e in b.frame + b.interior ::
      pin(e) < Width(b) && SetEdgeWeights(b, pin, solution).value[pin(e)] == Weighted(e, solution[pin(e)])
  {
    var all := b.frame + b.interior;
    var ws := SetEdgeWeights(b, pin, solution).value;
    var sorted := Edges(ws);
    assert ws == Weigh(SortBy(all, pin), solution);
    DistinctKeysPermute(all, sorted, pin);
    forall e | e in all
      ensures ws[pin(e)] == Weighted(e, solution[pin(e)])
    {
      assert e in multiset(sorted);
      var k :| 0 <= k < |sorted| && sorted[k] == e;
      assert forall x | x in sorted :: pin(x) < |sorted| by {
        forall x | x in sorted
          ensures pin(x) < |sorted|
        {
          assert x in multiset(all);
        }
      }
      KeyIsIndex(sorted, pin, k);
    }
  }

  /** The shape after doubling the axes `ds` in turn. */
  function Doubled(shape: seq<int>, ds: seq<nat>): seq<int>
  {
    if |ds| == 0 then shape
    else
      var s := Doubled(shape, ds[..|ds| - 1]);
      var d := ds[|ds| - 1];
      if d < |s| then s[d := 2 * s[d]] else s
  }

  lemma DoubledLength(shape: seq<int>, ds: seq<nat>)
    ensures |Doubled(shape, ds)| == |shape|
  {
  }

  /** What `find()` settles on: the block it grew, the vertex order and
      linear system of the last round, the solver's answer, the weighted
      edges, and the axes doubled on the way, in order. */
  datatype Found = Found(kirchhoff: Kirchhoff, order: seq<BL.Position>, system: seq<seq<real>>,
                         solution: seq<real>, weights: seq<Weighted>, doubled: seq<nat>)

  /** The loop of `find()` so far: `cur` is `k` with the axes `ds` doubled,
      the next axis to double is `dimension`. */
  predicate FindInv(k: Kirchhoff, cur: Kirchhoff, ds: seq<nat>, dimension: nat)
  {
    Fitted(cur) && cur.matrix == k.matrix
    && cur.block.interior == k.block.interior && k.block.frame <= cur.block.frame
    && BL.Grows(k.block, cur.block)
    && cur.block.shape == Doubled(k.block.shape, ds)
    && (forall j | 0 <= j < |ds| :: k.matrix.rows > 0 && ds[j] == j % k.matrix.rows)
    && (|ds| == 0 ==> dimension == 0)
    && (|ds| > 0 ==> k.matrix.rows > 0 && dimension == |ds| % k.matrix.rows)
  }

  lemma FindStep(k: Kirchhoff, cur: Kirchhoff, ds: seq<nat>, dimension: nat, next: BL.Block)
    requires Fitted(k) && FindInv(k, cur, ds, dimension) && dimension < cur.block.dimensions
    requires BL.Extends(cur.block, next.(shape := cur.block.shape))
    requires next.shape == cur.block.shape[dimension := 2 * cur.block.shape[dimension]]
    ensures FindInv(k, Kirchhoff(cur.matrix, next), ds + [dimension], (dimension + 1) % k.matrix.rows)
  {
    var k' := Kirchhoff(cur.matrix, next);
    assert Fitted(k') && BL.Grows(k.block, next) by {
      var flat := next.(shape := cur.block.shape);
      BL.ValidReshape(flat, next.shape);
      assert flat.(shape := next.shape) == next;
    }
    assert next.shape == Doubled(k.block.shape, ds + [dimension]) by {
      assert (ds + [dimension])[..|ds|] == ds;
      DoubledLength(k.block.shape, ds);
    }
    AxesStep(ds, dimension, k.matrix.rows);
  }

  /** The axes doubled so far cycle through `0 .. rows - 1`, one more round. */
  lemma AxesStep(ds: seq<nat>, dimension: nat, rows: nat)
    requires rows > 0
    requires forall j | 0 <= j < |ds| :: ds[j] == j % rows
    requires |ds| == 0 ==> dimension == 0
    requires |ds| > 0 ==> dimension == |ds| % rows
    ensures forall j | 0 <= j < |ds + [dimension]| :: (ds + [dimension])[j] == j % rows
    ensures (dimension + 1) % rows == |ds + [dimension]| % rows
  {
    if |ds| == 0 {
      ModSmall(0, rows);
    }
    assert dimension == |ds| % rows;
    ModNext(|ds|, rows);
  }

  lemma ModSmall(x: int, d: int)
    requires 0 <= x < d
    ensures x % d == x
  {
  }

  lemma ModUnique(n: int, d: int, q: int, r: int)
    requires d > 0 && 0 <= r < d && n == q * d + r
    ensures n % d == r
  {
    var q', r' := n / d, n % d;
    assert n == q' * d + r';
    assert (q' - q) * d == r - r';
    MulAway(q' - q, d);
  }

  /** A nonzero multiple of `d` is at least `d` away from zero. */
  lemma MulAway(a: int, d: int)
    requires d > 0
    ensures a == 0 || a * d >= d || a * d <= -d
  {
    if a >= 1 {
      assert a * d == (a - 1) * d + d;
    } else if a <= -1 {
      assert a * d == (a + 1) * d - d;
    }
  }

  lemma ModNext(n: nat, d: nat)
    requires d > 0
    ensures (n % d + 1) % d == (n + 1) % d
  {
    var q, r := n / d, n % d;
    if r + 1 < d {
      ModUnique(n + 1, d, q, r + 1);
      ModSmall(r + 1, d);
    } else {
      ModUnique(n + 1, d, q + 1, 0);
      ModUnique(r + 1, d, 1, 0);
    }
  }

  /** `find()` with the nullspace solver `solve` and the pins `pin` as
      parameters: build the linear system, ask for a solution, and double
      the block along the axes `0, 1, ..` in turn until one comes; the
      solution then weights the edges. `fuel` bounds the rounds. */
  method Find(k: Kirchhoff, solve: seq<seq<real>> -> Option<seq<real>>, pin: BL.Edge -> nat, fuel: nat)
    returns (r: Result<Found>)
    requires Fitted(k)
    ensures r.Fail? ==> r.error == IndexError || r.error == OutOfFuel
    ensures r.Ok? ==> Fitted(r.value.kirchhoff) && r.value.kirchhoff.matrix == k.matrix
    ensures r.Ok? ==> (BL.Enumerates(r.value.kirchhoff.block, r.value.order)
      && GenerateLinearSystem(r.value.kirchhoff, r.value.order, pin) == Ok(r.value.system)
      && solve(r.value.system) == Some(r.value.solution)
      && SetEdgeWeights(r.value.kirchhoff.block, pin, r.value.solution) == Ok(r.value.weights))
    ensures r.Ok? ==> (|r.value.doubled| < fuel
      && forall j | 0 <= j < |r.value.doubled| :: k.matrix.rows > 0 && r.value.doubled[j] == j % k.matrix.rows)
    ensures r.Ok? ==> (r.value.kirchhoff.block.interior == k.block.interior
      && k.block.frame <= r.value.kirchhoff.block.frame && BL.Grows(k.block, r.value.kirchhoff.block)
      && r.value.kirchhoff.block.shape == Doubled(k.block.shape, r.value.doubled))
  {
    var cur := k;
    var ds: seq<nat> := [];
    var dimension: nat := 0;
    var left := fuel;
    while left > 0
      invariant FindInv(k, cur, ds, dimension)
      invariant |ds| + left == fuel
      decreases left
    {
      var order := KeysOrder(cur.block);
      var system := GenerateLinearSystem(cur, order, pin);
      if system.Fail? {
        SystemFails(cur, order, pin);
        return Fail(system.error);
      }
      var solution := solve(system.value);
      if solution.Some? {
        var weights := SetEdgeWeights(cur.block, pin, solution.value);
        if weights.Fail? {
          return Fail(weights.error);
        }
        return Ok(Found(cur, order, system.value, solution.value, weights.value, ds));
      }
      var next := BL.Double(cur.block, dimension);
      if next.Fail? {
        return Fail(next.error);
      }
      FindStep(k, cur, ds, dimension, next.value);
      cur := Kirchhoff(cur.matrix, next.value);
      ds := ds + [dimension];
      dimension := (dimension + 1) % k.matrix.rows;
      left := left - 1;
    }
    return Fail(OutOfFuel);
  }
}
