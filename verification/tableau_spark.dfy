/** The Spark variant of the phase-I tableau (`tableau_spark.py`). Each
    constraint row carries its right-hand side as a last, augmented entry and
    the objective row carries `-d` there; the basis is found by folding the
    rows into a column tally, and the pivot row is chosen by reducing the
    candidate rows with a ratio comparison instead of by an index scan. The
    distributed collection is modelled as a sequence in its given order. */
module TableauSpark {
  import opened Wrappers
  import opened Vectors
  import DT = DegenerateTableau

  /** The tableau: the augmented objective row, the augmented constraint
      rows, the `basis_dict` as (column, row) pairs in insertion order, and
      the current pivot as a column index and a row value. */
  datatype Spark = Spark(
    objective: Vector,
    rows: seq<Vector>,
    basis: seq<(nat, Vector)>,
    pivotColumn: Option<nat>,
    pivotRow: Option<Vector>)

  /** Every row has `w` entries. */
  predicate Wide(rows: seq<Vector>, w: nat)
  {
    forall i | 0 <= i < |rows| :: |rows[i]| == w
  }

  /** Every basis pair names a non-augmented column and a row of width `w`. */
  predicate Paired(basis: seq<(nat, Vector)>, w: nat)
  {
    forall k | 0 <= k < |basis| :: basis[k].0 + 1 < w && |basis[k].1| == w
  }

  /** The rows agree in width with the objective, and the recorded pivot row
      is one of the constraint rows, positive in the recorded column. */
  predicate Valid(t: Spark)
  {
    && |t.objective| >= 1 && Wide(t.rows, |t.objective|) && Paired(t.basis, |t.objective|)
    && (t.pivotColumn.Some? ==> t.pivotColumn.value + 1 < |t.objective|)
    && (t.pivotRow.Some? ==> t.pivotColumn.Some? && t.pivotRow.value in t.rows
                             && t.pivotRow.value[t.pivotColumn.value] > 0.0)
  }

  // ---------------------------------------------------------------------
  // Row
  // ---------------------------------------------------------------------

  /** `Row.__eq__` from entry `i` on: only the first row's entries are
      compared, and the first difference answers `False`. */
  function RowEqFrom(a: Vector, b: Vector, i: nat): bool
    requires |a| <= |b|
    decreases |a| - i
  {
    if i >= |a| then true
    else if a[i] != b[i] then false
    else RowEqFrom(a, b, i + 1)
  }

  function RowEq(a: Vector, b: Vector): bool
    requires |a| <= |b|
  {
    RowEqFrom(a, b, 0)
  }

  lemma {:induction false} RowEqFromSpec(a: Vector, b: Vector, i: nat)
    requires |a| <= |b| && i <= |a|
    ensures RowEqFrom(a, b, i) <==> forall k | i <= k < |a| :: a[k] == b[k]
    decreases |a| - i
  {
    if i < |a| {
      RowEqFromSpec(a, b, i + 1);
    }
  }

  /** `Row.__eq__` decides whether the first row is a prefix of the second;
      for rows of one width that is plain equality. */
  lemma {:induction false} RowEqIsPrefix(a: Vector, b: Vector)
    requires |a| <= |b|
    ensures RowEq(a, b) <==> a == b[..|a|]
    ensures |a| == |b| ==> (RowEq(a, b) <==> a == b)
  {
    RowEqFromSpec(a, b, 0);
    if a == b[..|a|] {
      assert forall k | 0 <= k < |a| :: a[k] == b[..|a|][k];
    }
    assert |a| == |b| ==> b[..|a|] == b;
  }

  // ---------------------------------------------------------------------
  // What an augmented tableau states
  // ---------------------------------------------------------------------

  /** The point `x` with `-1` appended for the augmented column. */
  function Ext(x: Vector): (r: Vector)
    ensures |r| == |x| + 1 && r[|x|] == -1.0 && r[..|x|] == x
  {
    x + [-1.0]
  }

  /** An augmented row `a ++ [v]` states `a . x == v`. */
  predicate Holds(row: Vector, x: Vector)
    requires |row| == |x| + 1
  {
    Dot(row, Ext(x)) == 0.0
  }

  /** `x` solves every constraint row. */
  predicate Solves(rows: seq<Vector>, x: Vector)
    requires Wide(rows, |x| + 1)
  {
    forall i | 0 <= i < |rows| :: Holds(rows[i], x)
  }

  /** The function an augmented objective row `c ++ [-d]` stands for:
      `c . x + d`. */
  function Value(objective: Vector, x: Vector): real
    requires |objective| == |x| + 1
  {
    Dot(objective, Ext(x))
  }

  /** Dotting an augmented row with an extended point subtracts the
      augmented entry. */
  lemma {:induction false} AugmentedDot(a: Vector, v: real, x: Vector)
    requires |a| == |x|
    ensures Dot(a + [v], Ext(x)) == Dot(a, x) - v
  {
    DotConcat(a, [v], x, [-1.0]);
  }

  /** The same, for a row given whole. */
  lemma {:induction false} SplitDot(row: Vector, x: Vector)
    requires |row| == |x| + 1
    ensures Dot(row, Ext(x)) == Dot(row[..|x|], x) - row[|x|]
  {
    assert row == row[..|x|] + [row[|x|]];
    AugmentedDot(row[..|x|], row[|x|], x);
  }

  // ---------------------------------------------------------------------
  // find_basis
  // ---------------------------------------------------------------------

  /** `there_can_only_be_one` on one pair of entries: 0 when both are 0, 1
      when exactly one is 1 and the other 0, -1 otherwise. */
  function Combine(a: real, b: real): real
  {
    if a == 0.0 && b == 0.0 then 0.0
    else if (a == 1.0 && b == 0.0) || (a == 0.0 && b == 1.0) then 1.0
    else -1.0
  }

  /** `there_can_only_be_one` on two rows, over the first row's length. */
  function CombineRows(r1: Vector, r2: Vector): (r: Vector)
    requires |r1| <= |r2|
    ensures |r| == |r1|
    ensures forall i {:trigger r[i]} | 0 <= i < |r1| :: r[i] == Combine(r1[i], r2[i])
  {
    seq(|r1|, i requires 0 <= i < |r1| => Combine(r1[i], r2[i]))
  }

  /** `constraint_rows.reduce(there_can_only_be_one)`: a left fold of rows
      `i..` into `acc`. */
  function TallyFrom(acc: Vector, rows: seq<Vector>, i: nat): (r: Vector)
    requires i <= |rows| && Wide(rows, |acc|)
    ensures |r| == |acc|
    decreases |rows| - i
  {
    if i == |rows| then acc
    else TallyFrom(CombineRows(acc, rows[i]), rows, i + 1)
  }

  /** The tally of all rows; the fold starts from the first row. */
  function Tally(rows: seq<Vector>): (r: Vector)
    requires |rows| > 0 && Wide(rows, |rows[0]|)
    ensures |r| == |rows[0]|
  {
    TallyFrom(rows[0], rows, 1)
  }

  /** How many of the rows `0..i` hold a 1 in column `j`. */
  function OnesAt(rows: seq<Vector>, j: nat, i: nat): nat
    requires i <= |rows| && forall k | 0 <= k < |rows| :: j < |rows[k]|
  {
    if i == 0 then 0 else OnesAt(rows, j, i - 1) + (if rows[i - 1][j] == 1.0 then 1 else 0)
  }

  /** How many of the rows `0..i` hold neither 0 nor 1 in column `j`. */
  function StraysAt(rows: seq<Vector>, j: nat, i: nat): nat
    requires i <= |rows| && forall k | 0 <= k < |rows| :: j < |rows[k]|
  {
    if i == 0 then 0 else StraysAt(rows, j, i - 1) + (if rows[i - 1][j] != 0.0 && rows[i - 1][j] != 1.0 then 1 else 0)
  }

  /** Column `j` holds a single 1 and zeros elsewhere. */
  predicate UnitColumn(rows: seq<Vector>, j: nat)
    requires forall k | 0 <= k < |rows| :: j < |rows[k]|
  {
    OnesAt(rows, j, |rows|) == 1 && StraysAt(rows, j, |rows|) == 0
  }

  /** Column `j` is zero in every row. */
  predicate ZeroColumn(rows: seq<Vector>, j: nat)
    requires forall k | 0 <= k < |rows| :: j < |rows[k]|
  {
    OnesAt(rows, j, |rows|) == 0 && StraysAt(rows, j, |rows|) == 0
  }

  /** The tally entry `t` classifies column `j` over the rows `0..i`. */
  predicate Tallied(t: real, rows: seq<Vector>, j: nat, i: nat)
    requires i <= |rows| && forall k | 0 <= k < |rows| :: j < |rows[k]|
  {
    && (t == 0.0 <==> OnesAt(rows, j, i) == 0 && StraysAt(rows, j, i) == 0)
    && (t == 1.0 <==> OnesAt(rows, j, i) == 1 && StraysAt(rows, j, i) == 0)
  }

  lemma {:induction false} CombineStep(t: real, rows: seq<Vector>, j: nat, i: nat)
    requires i < |rows| && forall k | 0 <= k < |rows| :: j < |rows[k]|
    requires Tallied(t, rows, j, i)
    ensures Tallied(Combine(t, rows[i][j]), rows, j, i + 1)
  {
  }

  lemma {:induction false} TallyFromColumn(acc: Vector, rows: seq<Vector>, i: nat, j: nat)
    requires i <= |rows| && Wide(rows, |acc|) && j < |acc|
    requires Tallied(acc[j], rows, j, i)
    ensures Tallied(TallyFrom(acc, rows, i)[j], rows, j, |rows|)
    decreases |rows| - i
  {
    if i < |rows| {
      var next := CombineRows(acc, rows[i]);
      assert next[j] == Combine(acc[j], rows[i][j]);
      CombineStep(acc[j], rows, j, i);
      TallyFromColumn(next, rows, i + 1, j);
    }
  }

  /** The tally is 1 exactly on the columns holding a single 1 and zeros
      elsewhere, and 0 exactly on the all-zero columns. */
  lemma {:induction false} TallySpec(rows: seq<Vector>, j: nat)
    requires |rows| > 0 && Wide(rows, |rows[0]|) && j < |rows[0]|
    ensures Tally(rows)[j] == 1.0 <==> UnitColumn(rows, j)
    ensures Tally(rows)[j] == 0.0 <==> ZeroColumn(rows, j)
  {
    assert OnesAt(rows, j, 1) == if rows[0][j] == 1.0 then 1 else 0;
    assert StraysAt(rows, j, 1) == if rows[0][j] != 0.0 && rows[0][j] != 1.0 then 1 else 0;
    TallyFromColumn(rows[0], rows, 1, j);
  }

  /** The column loop of `find_basis` from column `i`: the non-augmented
      columns whose tally is 1, stopping as soon as there are `count`. */
  function ColumnsFrom(data: Vector, count: nat, i: nat, cols: seq<nat>): (r: seq<nat>)
    requires |data| >= 1
    decreases |data| - i
  {
    if i + 1 >= |data| then cols
    else if data[i] == 1.0 then
      if |cols| + 1 == count then cols + [i]
      else ColumnsFrom(data, count, i + 1, cols + [i])
    else ColumnsFrom(data, count, i + 1, cols)
  }

  /** What the column loop has established after looking at columns `0..i`. */
  predicate ColumnsFacts(data: Vector, count: nat, i: nat, cols: seq<nat>)
  {
    && |cols| <= count
    && (forall k | 0 <= k < |cols| :: cols[k] < i && cols[k] + 1 < |data| && data[cols[k]] == 1.0)
    && (forall k, l | 0 <= k < l < |cols| :: cols[k] < cols[l])
    && (|cols| < count ==> forall c | 0 <= c < i && c + 1 < |data| && data[c] == 1.0 :: c in cols)
  }

  lemma {:induction false} ColumnsFromSpec(data: Vector, count: nat, i: nat, cols: seq<nat>)
    requires |data| >= 1 && i < |data| && |cols| < count && ColumnsFacts(data, count, i, cols)
    ensures ColumnsFacts(data, count, |data|, ColumnsFrom(data, count, i, cols))
    decreases |data| - i
  {
    if i + 1 >= |data| {
    } else if data[i] == 1.0 {
      var next := cols + [i];
      assert ColumnsFacts(data, count, i + 1, next) by {
        assert forall k | 0 <= k < |cols| :: next[k] == cols[k];
        assert forall c | c in cols :: c in next;
      }
      if |cols| + 1 == count {
        assert ColumnsFacts(data, count, |data|, next);
      } else {
        ColumnsFromSpec(data, count, i + 1, next);
      }
    } else {
      ColumnsFromSpec(data, count, i + 1, cols);
    }
  }

  /** `is_basis_row` from the `k`-th basis column: the row holds a 1 in one
      of the basis columns. */
  function IsBasisRow(row: Vector, cols: seq<nat>, k: nat): (r: bool)
    requires forall l | 0 <= l < |cols| :: cols[l] < |row|
    ensures r <==> exists l | k <= l < |cols| :: row[cols[l]] == 1.0
    decreases |cols| - k
  {
    if k >= |cols| then false
    else if row[cols[k]] == 1.0 then true
    else IsBasisRow(row, cols, k + 1)
  }

  /** `constraint_rows.filter(is_basis_row)`. */
  function BasisRows(rows: seq<Vector>, cols: seq<nat>): (r: seq<Vector>)
    requires forall i | 0 <= i < |rows| :: forall l | 0 <= l < |cols| :: cols[l] < |rows[i]|
    ensures forall i | 0 <= i < |r| :: r[i] in rows
  {
    if |rows| == 0 then []
    else
      var rest := BasisRows(rows[1..], cols);
      assert forall i | 0 <= i < |rest| :: rest[i] in rows by {
        assert forall v | v in rows[1..] :: v in rows;
      }
      if IsBasisRow(rows[0], cols, 0) then [rows[0]] + rest else rest
  }

  /** The first row holding a 1 in column `j` (the inner pairing loop). */
  function FirstWithOne(rows: seq<Vector>, j: nat): (r: Option<Vector>)
    requires forall i | 0 <= i < |rows| :: j < |rows[i]|
    ensures r.Some? ==> r.value in rows && r.value[j] == 1.0
    ensures r.None? <==> forall i | 0 <= i < |rows| :: rows[i][j] != 1.0
  {
    if |rows| == 0 then None
    else if rows[0][j] == 1.0 then Some(rows[0])
    else
      var r := FirstWithOne(rows[1..], j);
      assert r.None? <==> forall i | 1 <= i < |rows| :: rows[i][j] != 1.0 by {
        assert forall i | 1 <= i < |rows| :: rows[i] == rows[1..][i - 1];
      }
      r
  }

  /** Filtering by `is_basis_row` keeps the first row with a 1 in any basis
      column. */
  lemma {:induction false} BasisRowsKeepFirst(rows: seq<Vector>, cols: seq<nat>, j: nat)
    requires forall i | 0 <= i < |rows| :: forall l | 0 <= l < |cols| :: cols[l] < |rows[i]|
    requires j in cols
    ensures forall i | 0 <= i < |BasisRows(rows, cols)| :: j < |BasisRows(rows, cols)[i]|
    ensures FirstWithOne(BasisRows(rows, cols), j) == FirstWithOne(rows, j)
  {
    var l :| 0 <= l < |cols| && cols[l] == j;
    if |rows| > 0 {
      BasisRowsKeepFirst(rows[1..], cols, j);
      if rows[0][j] == 1.0 {
        assert IsBasisRow(rows[0], cols, 0);
      }
    }
  }

  /** The pairing loop from the `k`-th basis column: each column paired with
      the first basis row holding a 1 there. */
  function Pairs(cols: seq<nat>, brows: seq<Vector>, k: nat): (r: seq<(nat, Vector)>)
    requires forall i | 0 <= i < |brows| :: forall l | 0 <= l < |cols| :: cols[l] < |brows[i]|
    decreases |cols| - k
  {
    if k >= |cols| then []
    else match FirstWithOne(brows, cols[k])
      case None => Pairs(cols, brows, k + 1)
      case Some(row) => [(cols[k], row)] + Pairs(cols, brows, k + 1)
  }

  /** The basis columns of a tableau whose rows have width `w`. */
  function BasisColumns(rows: seq<Vector>): (r: seq<nat>)
    requires |rows| > 0 && Wide(rows, |rows[0]|) && |rows[0]| >= 1
  {
    ColumnsFrom(Tally(rows), |rows|, 0, [])
  }

  /** `find_basis`: pair each basis column with the first row holding a 1
      there. */
  function FindBasis(rows: seq<Vector>): (r: seq<(nat, Vector)>)
    requires |rows| > 0 && Wide(rows, |rows[0]|) && |rows[0]| >= 1
  {
    var cols := BasisColumns(rows);
    ColumnsFromSpec(Tally(rows), |rows|, 0, []);
    Pairs(cols, BasisRows(rows, cols), 0)
  }

  /** A column without any 1 counts no ones. */
  lemma {:induction false} NoOnes(rows: seq<Vector>, j: nat, i: nat)
    requires i <= |rows| && forall k | 0 <= k < |rows| :: j < |rows[k]|
    requires forall k | 0 <= k < i :: rows[k][j] != 1.0
    ensures OnesAt(rows, j, i) == 0
  {
    if i > 0 {
      NoOnes(rows, j, i - 1);
    }
  }

  /** When every column finds a row, the pairing keeps every column, in
      order. */
  lemma {:induction false} PairsSpec(cols: seq<nat>, brows: seq<Vector>, k: nat)
    requires forall i | 0 <= i < |brows| :: forall l | 0 <= l < |cols| :: cols[l] < |brows[i]|
    requires k <= |cols| && forall l | 0 <= l < |cols| :: FirstWithOne(brows, cols[l]).Some?
    ensures var r := Pairs(cols, brows, k);
      && |r| == |cols| - k
      && forall l | 0 <= l < |r| :: r[l] == (cols[k + l], FirstWithOne(brows, cols[k + l]).value)
    decreases |cols| - k
  {
    if k < |cols| {
      PairsSpec(cols, brows, k + 1);
      var rest := Pairs(cols, brows, k + 1);
      var head := (cols[k], FirstWithOne(brows, cols[k]).value);
      assert Pairs(cols, brows, k) == [head] + rest;
      forall l | 1 <= l < |rest| + 1
        ensures ([head] + rest)[l] == (cols[k + l], FirstWithOne(brows, cols[k + l]).value)
      {
        assert ([head] + rest)[l] == rest[l - 1];
        assert k + 1 + (l - 1) == k + l;
      }
    }
  }

  /** The basis columns are increasing, at most one per row, and are exactly
      the non-augmented columns holding a single 1 and zeros elsewhere,
      except that the loop stops once there are as many as rows. */
  lemma {:induction false} BasisColumnsSpec(rows: seq<Vector>)
    requires |rows| > 0 && Wide(rows, |rows[0]|) && |rows[0]| >= 1
    ensures var cols := BasisColumns(rows);
      && |cols| <= |rows|
      && (forall k | 0 <= k < |cols| :: cols[k] + 1 < |rows[0]| && UnitColumn(rows, cols[k]))
      && (forall k, l | 0 <= k < l < |cols| :: cols[k] < cols[l])
      && (|cols| < |rows| ==> forall c | 0 <= c && c + 1 < |rows[0]| && UnitColumn(rows, c) :: c in cols)
  {
    var data := Tally(rows);
    ColumnsFromSpec(data, |rows|, 0, []);
    forall c | 0 <= c < |rows[0]|
      ensures data[c] == 1.0 <==> UnitColumn(rows, c)
    {
      TallySpec(rows, c);
    }
  }

  /** `find_basis` pairs every basis column, in order, with the first
      constraint row holding a 1 there. */
  lemma {:induction false} FindBasisSpec(rows: seq<Vector>)
    requires |rows| > 0 && Wide(rows, |rows[0]|) && |rows[0]| >= 1
    ensures var cols, r := BasisColumns(rows), FindBasis(rows);
      && |r| == |cols|
      && (forall k | 0 <= k < |cols| :: cols[k] + 1 < |rows[0]|)
      && forall k | 0 <= k < |r| :: r[k].0 == cols[k] && Some(r[k].1) == FirstWithOne(rows, cols[k])
  {
    var cols := BasisColumns(rows);
    BasisColumnsSpec(rows);
    var brows := BasisRows(rows, cols);
    forall l | 0 <= l < |cols|
      ensures FirstWithOne(brows, cols[l]) == FirstWithOne(rows, cols[l])
      ensures FirstWithOne(rows, cols[l]).Some?
    {
      BasisRowsKeepFirst(rows, cols, cols[l]);
      if FirstWithOne(rows, cols[l]).None? {
        NoOnes(rows, cols[l], |rows|);
      }
    }
    PairsSpec(cols, brows, 0);
  }

  /** Every row `find_basis` pairs is a constraint row of the right width
      with a 1 in its column. */
  lemma {:induction false} FindBasisRows(rows: seq<Vector>)
    requires |rows| > 0 && Wide(rows, |rows[0]|) && |rows[0]| >= 1
    ensures var r := FindBasis(rows);
      Paired(r, |rows[0]|) && forall k | 0 <= k < |r| :: r[k].1 in rows && r[k].1[r[k].0] == 1.0
  {
    FindBasisSpec(rows);
    BasisColumnsSpec(rows);
  }

  // ---------------------------------------------------------------------
  // prepare
  // ---------------------------------------------------------------------

  /** `prepare`: for each basis pair in insertion order, add `-objective[i]`
      times its row to the objective. */
  function Prepare(objective: Vector, basis: seq<(nat, Vector)>): (r: Vector)
    requires Paired(basis, |objective|)
    ensures |r| == |objective|
    ensures |basis| > 0 && basis[|basis| - 1].1[basis[|basis| - 1].0] == 1.0 ==> r[basis[|basis| - 1].0] == 0.0
  {
    if |basis| == 0 then objective
    else
      var o := Prepare(objective, basis[..|basis| - 1]);
      var (i, row) := basis[|basis| - 1];
      var r := ShiftRow(o, -o[i], row);
      assert r[i] == ShiftValue(o[i], -o[i], row[i]);
      if row[i] == 1.0 then DT.ShiftCancels(o[i], row[i], -o[i]); r else r
  }

  /** `prepare` keeps the objective's value on every point all paired rows
      hold at. */
  lemma {:induction false} PrepareKeepsValue(objective: Vector, basis: seq<(nat, Vector)>, x: Vector)
    requires Paired(basis, |objective|) && |objective| == |x| + 1
    requires forall k | 0 <= k < |basis| :: Holds(basis[k].1, x)
    ensures Value(Prepare(objective, basis), x) == Value(objective, x)
  {
    if |basis| > 0 {
      var pre := basis[..|basis| - 1];
      PrepareKeepsValue(objective, pre, x);
      var o := Prepare(objective, pre);
      var (i, row) := basis[|basis| - 1];
      ShiftDot(o, row, -o[i], Ext(x));
    }
  }

  /** The basis pairs form an identity: each pair's row holds 1 in its own
      column and 0 in every other pair's column. */
  predicate Identity(basis: seq<(nat, Vector)>)
  {
    forall k, l | 0 <= k < |basis| && 0 <= l < |basis| ::
      basis[l].0 < |basis[k].1| && basis[k].1[basis[l].0] == if k == l then 1.0 else 0.0
  }

  /** A prefix of an identity basis is one. */
  lemma {:induction false} IdentityPrefix(basis: seq<(nat, Vector)>, n: nat)
    requires Identity(basis) && n <= |basis|
    ensures Identity(basis[..n])
  {
    assert forall k | 0 <= k < n :: basis[..n][k] == basis[k];
  }

  /** One `prepare` step keeps a zero where the added row is zero. */
  lemma {:induction false} PrepareStepKeepsZero(o: Vector, row: Vector, i: nat, j: nat)
    requires |o| == |row| && i < |o| && j < |o| && o[j] == 0.0 && row[j] == 0.0
    ensures ShiftRow(o, -o[i], row)[j] == 0.0
  {
    DT.ShiftZero(o[j], -o[i], row[j]);
  }

  /** On an identity basis `prepare` zeroes the objective in every basis
      column. */
  lemma {:induction false} PrepareZeroesBasis(objective: Vector, basis: seq<(nat, Vector)>)
    requires Paired(basis, |objective|) && Identity(basis)
    ensures forall k | 0 <= k < |basis| :: Prepare(objective, basis)[basis[k].0] == 0.0
  {
    if |basis| > 0 {
      var last := |basis| - 1;
      var pre := basis[..last];
      IdentityPrefix(basis, last);
      PrepareZeroesBasis(objective, pre);
      var o := Prepare(objective, pre);
      var (i, row) := basis[last];
      assert Prepare(objective, basis) == ShiftRow(o, -o[i], row);
      forall k | 0 <= k < last
        ensures Prepare(objective, basis)[basis[k].0] == 0.0
      {
        assert pre[k] == basis[k];
        assert row[basis[k].0] == 0.0;
        PrepareStepKeepsZero(o, row, i, basis[k].0);
      }
      assert row[i] == 1.0;
    }
  }

  // ---------------------------------------------------------------------
  // find_pivot
  // ---------------------------------------------------------------------

  /** `constraint_rows.filter(row[c] > 0)`. */
  function Candidates(rows: seq<Vector>, c: nat): (r: seq<Vector>)
    requires forall i | 0 <= i < |rows| :: c < |rows[i]|
    ensures forall i | 0 <= i < |r| :: r[i] in rows && c < |r[i]| && r[i][c] > 0.0
    ensures forall i | 0 <= i < |rows| && rows[i][c] > 0.0 :: rows[i] in r
  {
    if |rows| == 0 then []
    else
      var rest := Candidates(rows[1..], c);
      assert forall i | 0 <= i < |rest| :: rest[i] in rows by {
        assert forall v | v in rows[1..] :: v in rows;
      }
      assert forall i | 1 <= i < |rows| :: rows[i] == rows[1..][i - 1];
      if rows[0][c] > 0.0 then [rows[0]] + rest else rest
  }

  /** The ratio of a candidate row: its augmented entry over its entry in the
      pivot column. */
  function Ratio(row: Vector, c: nat): real
    requires c < |row| && row[c] > 0.0
  {
    row[|row| - 1] / row[c]
  }

  /** Row `a` is as good a pivot row as `b`: a smaller ratio, or the same
      ratio and an entry no larger in the pivot column. */
  predicate NoWorse(a: Vector, b: Vector, c: nat)
    requires c < |a| && a[c] > 0.0 && c < |b| && b[c] > 0.0
  {
    Ratio(a, c) < Ratio(b, c) || (Ratio(a, c) == Ratio(b, c) && a[c] <= b[c])
  }

  /** `select_by_ratio`: the row with the smaller ratio; on equal ratios the
      first row when its pivot-column entry is strictly smaller, otherwise
      the second. */
  function SelectByRatio(r1: Vector, r2: Vector, c: nat): (r: Vector)
    requires c < |r1| && r1[c] > 0.0 && c < |r2| && r2[c] > 0.0
    ensures r == r1 || r == r2
    ensures NoWorse(r, r1, c) && NoWorse(r, r2, c)
  {
    var ratio1, ratio2 := Ratio(r1, c), Ratio(r2, c);
    if ratio1 < ratio2 then r1
    else if ratio1 > ratio2 then r2
    else if r1[c] < r2[c] then r1
    else r2
  }

  /** `candidate_rows.reduce(select_by_ratio)` as a left fold of candidates
      `i..` into `acc`. */
  function ReduceFrom(acc: Vector, cands: seq<Vector>, i: nat, c: nat): (r: Vector)
    requires i <= |cands| && c < |acc| && acc[c] > 0.0
    requires forall k | 0 <= k < |cands| :: c < |cands[k]| && cands[k][c] > 0.0
    ensures c < |r| && r[c] > 0.0
    ensures r == acc || r in cands[i..]
    decreases |cands| - i
  {
    if i == |cands| then acc
    else
      var r := ReduceFrom(SelectByRatio(acc, cands[i], c), cands, i + 1, c);
      assert forall v | v in cands[i + 1..] :: v in cands[i..] by {
        assert forall k | i + 1 <= k < |cands| :: cands[k] == cands[i..][k - i];
      }
      assert cands[i] == cands[i..][0];
      r
  }

  lemma {:induction false} NoWorseTrans(a: Vector, b: Vector, d: Vector, c: nat)
    requires c < |a| && a[c] > 0.0 && c < |b| && b[c] > 0.0 && c < |d| && d[c] > 0.0
    requires NoWorse(a, b, c) && NoWorse(b, d, c)
    ensures NoWorse(a, d, c)
  {
  }

  /** The fold's result is no worse than its start and every row it folds. */
  lemma {:induction false} ReduceFromLeast(acc: Vector, cands: seq<Vector>, i: nat, c: nat)
    requires i <= |cands| && c < |acc| && acc[c] > 0.0
    requires forall k | 0 <= k < |cands| :: c < |cands[k]| && cands[k][c] > 0.0
    ensures var r := ReduceFrom(acc, cands, i, c);
      NoWorse(r, acc, c) && forall k | i <= k < |cands| :: NoWorse(r, cands[k], c)
    decreases |cands| - i
  {
    if i < |cands| {
      var s := SelectByRatio(acc, cands[i], c);
      ReduceFromLeast(s, cands, i + 1, c);
      var r := ReduceFrom(acc, cands, i, c);
      assert r == ReduceFrom(s, cands, i + 1, c);
      NoWorseTrans(r, s, acc, c);
      NoWorseTrans(r, s, cands[i], c);
    }
  }

  /** `find_pivot`: the first negative entry of the objective outside the
      augmented column, then the reduced candidate row; `None` for the row
      when no row is positive in that column. */
  function FindPivot(objective: Vector, rows: seq<Vector>): (r: (Option<nat>, Option<Vector>))
    requires |objective| >= 1 && Wide(rows, |objective|)
    ensures r.0 == DT.FirstNegative(objective[..|objective| - 1], 0)
    ensures r.1.Some? ==> r.0.Some? && r.1.value in rows && r.1.value[r.0.value] > 0.0
    ensures r.0.Some? ==> (r.1.None? <==> forall i | 0 <= i < |rows| :: rows[i][r.0.value] <= 0.0)
  {
    match DT.FirstNegative(objective[..|objective| - 1], 0)
    case None => (None, None)
    case Some(c) =>
      var cands := Candidates(rows, c);
      if |cands| == 0 then (Some(c), None)
      else
        var row := ReduceFrom(cands[0], cands, 1, c);
        assert row in cands by {
          assert forall v | v in cands[1..] :: v in cands;
        }
        (Some(c), Some(row))
  }

  /** The pivot row is no worse than any row positive in the pivot column:
      the least ratio, and among equal ratios the least pivot-column entry. */
  lemma {:induction false} FindPivotLeast(objective: Vector, rows: seq<Vector>)
    requires |objective| >= 1 && Wide(rows, |objective|)
    ensures var r := FindPivot(objective, rows);
      r.1.Some? ==> forall i | 0 <= i < |rows| && rows[i][r.0.value] > 0.0 :: NoWorse(r.1.value, rows[i], r.0.value)
  {
    var r := FindPivot(objective, rows);
    if r.1.Some? {
      var c := r.0.value;
      var cands := Candidates(rows, c);
      ReduceFromLeast(cands[0], cands, 1, c);
      assert r.1.value == ReduceFrom(cands[0], cands, 1, c);
      forall i | 0 <= i < |rows| && rows[i][c] > 0.0
        ensures NoWorse(r.1.value, rows[i], c)
      {
        assert rows[i] in cands;
        var k :| 0 <= k < |cands| && cands[k] == rows[i];
        if k == 0 {
        }
      }
    }
  }

  /** `is_solved`: neither a pivot column nor a pivot row. */
  predicate IsSolved(t: Spark)
  {
    t.pivotColumn.None? && t.pivotRow.None?
  }

  /** `is_unbounded`: a pivot column but no pivot row. */
  predicate IsUnbounded(t: Spark)
  {
    t.pivotColumn.Some? && t.pivotRow.None?
  }

  /** The recorded pivot is what `find_pivot` finds on the current rows. */
  predicate Ready(t: Spark)
  {
    Valid(t) && (t.pivotColumn, t.pivotRow) == FindPivot(t.objective, t.rows)
  }

  /** A ready tableau is solved exactly when no objective entry outside the
      augmented column is negative, and unbounded exactly when the first
      negative one has no positive entry below it. */
  lemma {:induction false} SolvedUnbounded(t: Spark)
    requires Ready(t)
    ensures IsSolved(t) <==> forall k | 0 <= k < |t.objective| - 1 :: t.objective[k] >= 0.0
    ensures IsUnbounded(t) <==> t.pivotColumn.Some? && forall i | 0 <= i < |t.rows| :: t.rows[i][t.pivotColumn.value] <= 0.0
  {
    var head := t.objective[..|t.objective| - 1];
    assert forall k | 0 <= k < |head| :: head[k] == t.objective[k];
  }

  // ---------------------------------------------------------------------
  // pivot
  // ---------------------------------------------------------------------

  /** `update` inside `pivot`: a row equal to the pivot row is divided by its
      pivot-column entry; any other row gets `-row[c] / pr[c]` times the
      pivot row added. */
  function Update(row: Vector, pr: Vector, c: nat): (r: Vector)
    requires |row| == |pr| && c < |pr| && pr[c] > 0.0
    ensures |r| == |row|
  {
    if RowEq(row, pr) then
      RowEqIsPrefix(row, pr);
      Div(row, row[c])
    else ShiftRow(row, -row[c] / pr[c], pr)
  }

  /** `pivot`: every constraint row updated, the objective cleared in the
      pivot column with the un-normalised pivot row, then `find_pivot`. The
      basis is left as it was. */
  function Pivot(t: Spark): (r: Spark)
    requires Valid(t) && t.pivotRow.Some?
    ensures Ready(r) && r.basis == t.basis && |r.objective| == |t.objective| && |r.rows| == |t.rows|
  {
    var pr, c := t.pivotRow.value, t.pivotColumn.value;
    var rows := seq(|t.rows|, i requires 0 <= i < |t.rows| => Update(t.rows[i], pr, c));
    var objective := ShiftRow(t.objective, -t.objective[c] / pr[c], pr);
    var p := FindPivot(objective, rows);
    Spark(objective, rows, t.basis, p.0, p.1)
  }

  lemma {:induction false} ShiftClears(a: real, b: real)
    requires b != 0.0
    ensures ShiftValue(a, -a / b, b) == 0.0
  {
  }

  /** An updated row holds 1 in the pivot column when it is the pivot row
      and 0 otherwise. */
  lemma {:induction false} UpdateColumn(row: Vector, pr: Vector, c: nat)
    requires |row| == |pr| && c < |pr| && pr[c] > 0.0
    ensures Update(row, pr, c)[c] == if row == pr then 1.0 else 0.0
  {
    RowEqIsPrefix(row, pr);
    if row == pr {
      assert Update(row, pr, c) == Div(row, row[c]);
      DivSelf(row[c]);
    } else {
      assert Update(row, pr, c)[c] == ShiftValue(row[c], -row[c] / pr[c], pr[c]);
      ShiftClears(row[c], pr[c]);
    }
  }

  /** After a pivot the pivot column is 0 in the objective, 1 in every row
      equal to the pivot row and 0 in every other row. */
  lemma {:induction false} PivotClearsColumn(t: Spark)
    requires Valid(t) && t.pivotRow.Some?
    ensures var r, pr, c := Pivot(t), t.pivotRow.value, t.pivotColumn.value;
      && r.objective[c] == 0.0
      && forall i | 0 <= i < |t.rows| :: r.rows[i][c] == if t.rows[i] == pr then 1.0 else 0.0
  {
    var r, pr, c := Pivot(t), t.pivotRow.value, t.pivotColumn.value;
    assert r.objective == ShiftRow(t.objective, -t.objective[c] / pr[c], pr);
    assert r.objective[c] == ShiftValue(t.objective[c], -t.objective[c] / pr[c], pr[c]);
    ShiftClears(t.objective[c], pr[c]);
    forall i | 0 <= i < |t.rows|
      ensures r.rows[i][c] == if t.rows[i] == pr then 1.0 else 0.0
    {
      assert r.rows[i] == Update(t.rows[i], pr, c);
      UpdateColumn(t.rows[i], pr, c);
    }
  }

  /** One updated row holds at `x` exactly when the row did, given that the
      pivot row holds there. */
  lemma {:induction false} UpdateHolds(row: Vector, pr: Vector, c: nat, x: Vector)
    requires |row| == |pr| == |x| + 1 && c < |pr| && pr[c] > 0.0 && Holds(pr, x)
    ensures Holds(Update(row, pr, c), x) <==> Holds(row, x)
  {
    RowEqIsPrefix(row, pr);
    if row == pr {
      DotDiv(row, row[c], Ext(x));
      DivCancel(Dot(row, Ext(x)), 0.0, row[c]);
    } else {
      ShiftEquation(row, 0.0, pr, 0.0, -row[c] / pr[c], Ext(x));
    }
  }

  /** A pivot keeps the solution set of the constraint rows, and the
      objective's value on it. */
  lemma {:induction false} PivotPreservesSolutions(t: Spark, x: Vector)
    requires Valid(t) && t.pivotRow.Some? && |x| + 1 == |t.objective|
    ensures var r := Pivot(t);
      && (Solves(r.rows, x) <==> Solves(t.rows, x))
      && (Solves(t.rows, x) ==> Value(r.objective, x) == Value(t.objective, x))
  {
    var r, pr, c := Pivot(t), t.pivotRow.value, t.pivotColumn.value;
    var p :| 0 <= p < |t.rows| && t.rows[p] == pr;
    assert r.rows[p] == Update(pr, pr, c);
    if Holds(pr, x) {
      forall i | 0 <= i < |t.rows|
        ensures Holds(r.rows[i], x) <==> Holds(t.rows[i], x)
      {
        assert r.rows[i] == Update(t.rows[i], pr, c);
        UpdateHolds(t.rows[i], pr, c, x);
      }
      ShiftDot(t.objective, pr, -t.objective[c] / pr[c], Ext(x));
    } else {
      RowEqIsPrefix(pr, pr);
      assert r.rows[p] == Div(pr, pr[c]);
      DotDiv(pr, pr[c], Ext(x));
      DivCancel(Dot(pr, Ext(x)), 0.0, pr[c]);
      assert !Holds(r.rows[p], x);
    }
  }

  // ---------------------------------------------------------------------
  // Construction
  // ---------------------------------------------------------------------

  /** The augmented constraint rows `A[i] ++ [b[i]]`. */
  function Augment(a: seq<Vector>, b: Vector): (r: seq<Vector>)
    requires |b| == |a|
    ensures |r| == |a| && forall i | 0 <= i < |a| :: r[i] == a[i] + [b[i]]
  {
    seq(|a|, i requires 0 <= i < |a| => a[i] + [b[i]])
  }

  /** `DegenerateTableau(c, d, A, b)`: the objective row `c ++ [-d]`, the
      augmented rows, `find_basis`, `prepare` and `find_pivot`. An empty `A`
      fails on `constraint_rows[0]`. */
  function Init(c: Vector, d: real, a: seq<Vector>, b: Vector): (r: Result<Spark>)
    requires |b| == |a| && Wide(a, |c|)
    ensures |a| == 0 <==> r == Fail(IndexError)
    ensures r.Ok? ==> Ready(r.value) && |r.value.objective| == |c| + 1 && |r.value.rows| == |a|
  {
    if |a| == 0 then Fail(IndexError)
    else
      var rows := Augment(a, b);
      var basis := FindBasis(rows);
      FindBasisRows(rows);
      var objective := Prepare(c + [-d], basis);
      var p := FindPivot(objective, rows);
      Ok(Spark(objective, rows, basis, p.0, p.1))
  }

  /** The tableau states the problem it was built from: `x` solves the rows
      exactly when `A x == b`, and then the objective's value is `c . x + d`. */
  lemma {:induction false} InitMeaning(c: Vector, d: real, a: seq<Vector>, b: Vector, x: Vector)
    requires |b| == |a| && Wide(a, |c|) && |a| > 0 && |x| == |c|
    ensures var t := Init(c, d, a, b).value;
      && (Solves(t.rows, x) <==> forall i | 0 <= i < |a| :: Dot(a[i], x) == b[i])
      && (Solves(t.rows, x) ==> Value(t.objective, x) == Dot(c, x) + d)
  {
    var t := Init(c, d, a, b).value;
    var rows := Augment(a, b);
    assert t.rows == rows;
    forall i | 0 <= i < |a|
      ensures Holds(rows[i], x) <==> Dot(a[i], x) == b[i]
    {
      AugmentedDot(a[i], b[i], x);
    }
    if Solves(rows, x) {
      var basis := FindBasis(rows);
      FindBasisRows(rows);
      forall k | 0 <= k < |basis|
        ensures Holds(basis[k].1, x)
      {
        var i :| 0 <= i < |rows| && rows[i] == basis[k].1;
      }
      PrepareKeepsValue(c + [-d], basis, x);
      AugmentedDot(c, -d, x);
    }
  }

  // ---------------------------------------------------------------------
  // get_solution
  // ---------------------------------------------------------------------

  /** The solution loop: entry `i` of `sol` set to the augmented entry of
      its paired row, pair by pair. */
  function Fill(sol: Vector, pairs: seq<(nat, Vector)>): (r: Vector)
    requires forall k | 0 <= k < |pairs| :: pairs[k].0 < |sol| && |pairs[k].1| >= 1
    ensures |r| == |sol|
    decreases |pairs|
  {
    if |pairs| == 0 then sol
    else Fill(sol[pairs[0].0 := pairs[0].1[|pairs[0].1| - 1]], pairs[1..])
  }

  /** With distinct columns, every paired column gets its row's augmented
      entry and every other entry is left alone. */
  lemma {:induction false} FillSpec(sol: Vector, pairs: seq<(nat, Vector)>)
    requires forall k | 0 <= k < |pairs| :: pairs[k].0 < |sol| && |pairs[k].1| >= 1
    requires forall k, l | 0 <= k < l < |pairs| :: pairs[k].0 != pairs[l].0
    ensures var r := Fill(sol, pairs);
      && (forall k | 0 <= k < |pairs| :: r[pairs[k].0] == pairs[k].1[|pairs[k].1| - 1])
      && (forall j | 0 <= j < |sol| && (forall k | 0 <= k < |pairs| :: pairs[k].0 != j) :: r[j] == sol[j])
    decreases |pairs|
  {
    if |pairs| > 0 {
      var (i, row) := pairs[0];
      var next := sol[i := row[|row| - 1]];
      var rest := pairs[1..];
      assert forall k | 1 <= k < |pairs| :: rest[k - 1] == pairs[k];
      FillSpec(next, rest);
      assert forall k | 0 <= k < |rest| :: rest[k].0 != i;
    }
  }

  /** `get_solution`: `find_basis` on the current rows, then zeros with each
      basis column set to its row's augmented entry. */
  function GetSolution(t: Spark): (r: Vector)
    requires Valid(t) && |t.rows| > 0
    ensures |r| == |t.objective| - 1
  {
    var pairs := FindBasis(t.rows);
    FindBasisRows(t.rows);
    Fill(Zeros(|t.objective| - 1), pairs)
  }

  /** The augmented entry of a row that may be missing (0 when missing). */
  function AugmentedEntry(row: Option<Vector>): real
  {
    if row.Some? && |row.value| > 0 then row.value[|row.value| - 1] else 0.0
  }

  /** The solution is `Fill` over the `find_basis` pairs, whose columns are
      distinct. */
  lemma {:induction false} GetSolutionFill(t: Spark)
    requires Valid(t) && |t.rows| > 0
    ensures var pairs := FindBasis(t.rows);
      && (forall k | 0 <= k < |pairs| :: pairs[k].0 < |t.objective| - 1 && |pairs[k].1| >= 1)
      && (forall k | 0 <= k < |pairs| :: GetSolution(t)[pairs[k].0] == pairs[k].1[|pairs[k].1| - 1])
      && (forall j | 0 <= j < |t.objective| - 1 && (forall k | 0 <= k < |pairs| :: pairs[k].0 != j) :: GetSolution(t)[j] == 0.0)
  {
    var pairs := FindBasis(t.rows);
    FindBasisSpec(t.rows);
    FindBasisRows(t.rows);
    BasisColumnsSpec(t.rows);
    FillSpec(Zeros(|t.objective| - 1), pairs);
  }

  /** The solution holds, in each basis column, the augmented entry of the
      first row with a 1 there, and 0 in every other column. */
  lemma {:induction false} GetSolutionSpec(t: Spark)
    requires Valid(t) && |t.rows| > 0
    ensures var s, cols := GetSolution(t), BasisColumns(t.rows);
      forall j | 0 <= j < |s| :: s[j] == if j in cols then AugmentedEntry(FirstWithOne(t.rows, j)) else 0.0
  {
    var pairs := FindBasis(t.rows);
    var cols := BasisColumns(t.rows);
    FindBasisSpec(t.rows);
    GetSolutionFill(t);
    forall j | 0 <= j < |t.objective| - 1
      ensures GetSolution(t)[j] == if j in cols then AugmentedEntry(FirstWithOne(t.rows, j)) else 0.0
    {
      if j in cols {
        var k :| 0 <= k < |cols| && cols[k] == j;
        assert Some(pairs[k].1) == FirstWithOne(t.rows, j);
      } else {
        assert forall k | 0 <= k < |pairs| :: pairs[k].0 != j;
      }
    }
  }

  // ---------------------------------------------------------------------
  // solve_kirky
  // ---------------------------------------------------------------------

  /** `b` keeps `a`'s solution set, and `a`'s objective value on it. */
  predicate SamePoint(a: Spark, b: Spark, x: Vector)
    requires Valid(a) && Valid(b) && |a.objective| == |b.objective| == |x| + 1
  {
    (Solves(a.rows, x) <==> Solves(b.rows, x))
    && (Solves(a.rows, x) ==> Value(b.objective, x) == Value(a.objective, x))
  }

  lemma {:induction false} PivotSame(t: Spark)
    requires Valid(t) && t.pivotRow.Some?
    ensures forall x | |x| + 1 == |t.objective| :: SamePoint(t, Pivot(t), x)
  {
    forall x | |x| + 1 == |t.objective|
      ensures SamePoint(t, Pivot(t), x)
    {
      PivotPreservesSolutions(t, x);
    }
  }

  lemma {:induction false} SameTrans(a: Spark, b: Spark, c: Spark)
    requires Valid(a) && Valid(b) && Valid(c) && |a.objective| == |b.objective| == |c.objective|
    requires forall x | |x| + 1 == |a.objective| :: SamePoint(a, b, x)
    requires forall x | |x| + 1 == |a.objective| :: SamePoint(b, c, x)
    ensures forall x | |x| + 1 == |a.objective| :: SamePoint(a, c, x)
  {
    forall x | |x| + 1 == |a.objective|
      ensures SamePoint(a, c, x)
    {
      assert SamePoint(a, b, x) && SamePoint(b, c, x);
    }
  }

  /** The `while not tabby.is_solved(): tabby.pivot()` loop, with fuel;
      pivoting an unbounded tableau fails on the missing pivot row. */
  function Run(t: Spark, fuel: nat): (r: Result<Spark>)
    requires Ready(t)
    ensures r.Ok? ==> Ready(r.value) && IsSolved(r.value)
    ensures r.Ok? ==> |r.value.objective| == |t.objective| && |r.value.rows| == |t.rows|
    ensures r.Fail? ==> r.error == TypeError || r.error == OutOfFuel
    ensures r.Ok? ==> forall x | |x| + 1 == |t.objective| :: SamePoint(t, r.value, x)
    decreases fuel
  {
    if IsSolved(t) then Ok(t)
    else if t.pivotRow.None? then Fail(TypeError)
    else if fuel == 0 then Fail(OutOfFuel)
    else
      PivotSame(t);
      var r := Run(Pivot(t), fuel - 1);
      if r.Ok? then
        SameTrans(t, Pivot(t), r.value);
        r
      else r
  }

  /** The phase-I tableau `solve_kirky` builds: the rows of `E` with the slack
      column and the sum row, the identity block, right-hand sides `0..0, 1`,
      objective zero on the weights and the slack and one on the auxiliary
      columns, and `d = 0`. */
  function PhaseOne(e: seq<Vector>): (t: Spark)
    requires |e| > 0 && DT.Matrix(e)
    ensures Ready(t) && |t.objective| == |e[0]| + 1 + |e| + 1 + 1 && |t.rows| == |e| + 1
  {
    var n, m := |e[0]|, |e| + 1;
    Init(DT.PhaseObjective(n, m), 0.0, DT.PhaseRows(e, n), DT.PhaseValues(|e|)).value
  }

  /** The augmented entry of the objective row, `objective_row[-1]`. */
  function Final(t: Spark): real
  {
    if |t.objective| == 0 then 0.0 else t.objective[|t.objective| - 1]
  }

  /** `solve_kirky(E)`: `None` when phase I ends with a non-zero augmented
      objective entry, otherwise the first `len(E[0])` entries of the final
      solution. An empty `E` fails on `E[0]`. */
  function SolveKirky(e: seq<Vector>, fuel: nat): (r: Result<Option<Vector>>)
    requires DT.Matrix(e)
    ensures |e| == 0 ==> r == Fail(IndexError)
    ensures r.Ok? ==> |e| > 0 && Run(PhaseOne(e), fuel).Ok?
    ensures r.Ok? ==> (r.value.None? <==> Final(Run(PhaseOne(e), fuel).value) != 0.0)
    ensures r.Ok? && r.value.Some? ==> |r.value.value| == |e[0]|
                                       && r.value.value == GetSolution(Run(PhaseOne(e), fuel).value)[..|e[0]|]
  {
    if |e| == 0 then Fail(IndexError)
    else
      var run := Run(PhaseOne(e), fuel);
      if run.Fail? then Fail(run.error)
      else
        if Final(run.value) != 0.0 then Ok(None)
        else Ok(Some(GetSolution(run.value)[..|e[0]|]))
  }

  /** On a solved tableau and a non-negative point, the objective's value is
      at least minus its augmented entry. */
  lemma {:induction false} SolvedValueBound(t: Spark, x: Vector)
    requires Ready(t) && IsSolved(t) && |x| + 1 == |t.objective| && NonNegative(x)
    ensures Value(t.objective, x) >= -t.objective[|x|]
  {
    SolvedUnbounded(t);
    var head := t.objective[..|x|];
    assert NonNegative(head);
    DotNonNegative(head, x);
    SplitDot(t.objective, x);
  }

  /** Soundness of the phase-I verdict: when the problem has a feasible
      point, a run that ends solved ends with a non-negative augmented
      objective entry; so a negative one, on which `solve_kirky` returns
      `None`, means there is no feasible point. */
  lemma {:induction false} FeasibleKeepsValueNonNegative(e: seq<Vector>, fuel: nat, w: Vector, s: real)
    requires |e| > 0 && DT.Matrix(e) && |w| == |e[0]| && DT.Feasible(e, w, s)
    requires Run(PhaseOne(e), fuel).Ok?
    ensures Final(Run(PhaseOne(e), fuel).value) >= 0.0
  {
    var n, m := |w|, |e| + 1;
    var x := w + [s] + Zeros(m);
    DT.PhaseSolution(e, w, s);
    var c, a, b := DT.PhaseObjective(n, m), DT.PhaseRows(e, n), DT.PhaseValues(|e|);
    InitMeaning(c, 0.0, a, b, x);
    var t := PhaseOne(e);
    assert Solves(t.rows, x) && Value(t.objective, x) == 0.0;
    RunKeepsFinalNonNegative(t, fuel, x);
  }

  /** A run from a tableau whose rows hold at a non-negative point where the
      objective's value is 0 ends, if solved, with a non-negative augmented
      objective entry. */
  lemma {:induction false} RunKeepsFinalNonNegative(t: Spark, fuel: nat, x: Vector)
    requires Ready(t) && Run(t, fuel).Ok? && |x| + 1 == |t.objective| && NonNegative(x)
    requires Solves(t.rows, x) && Value(t.objective, x) == 0.0
    ensures Final(Run(t, fuel).value) >= 0.0
  {
    var f := Run(t, fuel).value;
    assert SamePoint(t, f, x);
    SolvedValueBound(f, x);
    assert Final(f) == f.objective[|x|];
  }

  /** `solve_kirky` returns `None` after a negative final augmented entry
      only when the problem has no feasible point. */
  lemma {:induction false} SolveKirkyNoneSound(e: seq<Vector>, fuel: nat, w: Vector, s: real)
    requires DT.Matrix(e) && SolveKirky(e, fuel) == Ok(None)
    requires Final(Run(PhaseOne(e), fuel).value) < 0.0
    requires |w| == |e[0]|
    ensures !DT.Feasible(e, w, s)
  {
    if DT.Feasible(e, w, s) {
      FeasibleKeepsValueNonNegative(e, fuel, w, s);
    }
  }
}
