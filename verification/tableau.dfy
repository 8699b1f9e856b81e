/** The earlier simplex tableau of `kirky/tableau.py`. It negates the cost
    vector, takes as basis every column with at most one entry equal to 1,
    chooses the pivot column by Bland's rule (`exact`) or by the most
    negative entry, and shares the elimination step of the degenerate
    tableau.

    Two loops of `find_pivot` advance their index counter only at the end
    of the loop body, so a `continue` leaves it behind, and `find_basis`
    tests `given` for truthiness, which loses column 0. Each is modelled as
    written (`PivotColumnAsWritten`, `PivotRowAsWritten`,
    `FindBasisAsWritten`) next to the corrected version the tableau uses. */
module Tableau {
  import opened Wrappers
  import opened Vectors
  import DT = DegenerateTableau

  datatype Tab = Tab(
    exact: bool,
    objective: Vector,
    value: real,
    rows: seq<Vector>,
    values: Vector,
    basis: seq<nat>,
    pivotColumn: Option<nat>,
    pivotRow: Option<nat>)

  /** The arrays agree in size and the recorded pivot is in range. */
  predicate Valid(t: Tab)
  {
    DT.Shaped(t.rows, t.values, |t.objective|)
    && (t.pivotColumn.Some? ==> t.pivotColumn.value < |t.objective|)
    && (t.pivotRow.Some? ==> t.pivotRow.value < |t.rows|)
  }

  // ---------------------------------------------------------------------
  // find_basis
  // ---------------------------------------------------------------------

  /** The number of rows from row `i` on holding a 1 in column `j`. */
  function OnesFrom(rows: seq<Vector>, j: nat, i: nat): nat
    requires forall k | 0 <= k < |rows| :: j < |rows[k]|
    decreases |rows| - i
  {
    if i >= |rows| then 0
    else (if rows[i][j] == 1.0 then 1 else 0) + OnesFrom(rows, j, i + 1)
  }

  /** The inner loop of `find_basis` from row `i` on, with its `found_one`
      and `just_one` flags; the result is the final `just_one`. */
  function JustOne(rows: seq<Vector>, j: nat, i: nat, found: bool, just: bool): bool
    requires forall k | 0 <= k < |rows| :: j < |rows[k]|
    decreases |rows| - i
  {
    if i >= |rows| then just
    else if rows[i][j] == 1.0 then
      if !found then JustOne(rows, j, i + 1, true, just) else JustOne(rows, j, i + 1, found, false)
    else JustOne(rows, j, i + 1, found, just)
  }

  /** The flags compute "at most one row holds a 1": entries other than 1
      are never looked at, so a column of zeros, or one without any 1,
      counts as well. */
  lemma {:induction false} JustOneCounts(rows: seq<Vector>, j: nat, i: nat, found: bool, just: bool)
    requires forall k | 0 <= k < |rows| :: j < |rows[k]|
    ensures JustOne(rows, j, i, found, just)
            <==> just && (if found then OnesFrom(rows, j, i) == 0 else OnesFrom(rows, j, i) <= 1)
    decreases |rows| - i
  {
    if i < |rows| {
      if rows[i][j] == 1.0 {
        if !found {
          JustOneCounts(rows, j, i + 1, true, just);
        } else {
          JustOneCounts(rows, j, i + 1, found, false);
        }
      } else {
        JustOneCounts(rows, j, i + 1, found, just);
      }
    }
  }

  /** Column `j` passes the basis test of `find_basis`. */
  predicate BasisColumn(rows: seq<Vector>, j: nat)
    requires forall k | 0 <= k < |rows| :: j < |rows[k]|
  {
    JustOne(rows, j, 0, false, true)
  }

  /** The outer loop of `find_basis` from column `j` on; the test `j ==
      given` skips the given column whether or not it was put first. */
  function BasisLoop(rows: seq<Vector>, n: nat, given: Option<nat>, j: nat, basis: seq<nat>): seq<nat>
    requires forall k | 0 <= k < |rows| :: |rows[k]| == n
    decreases n - j
  {
    if j >= n || |basis| == |rows| then basis
    else if given == Some(j) then BasisLoop(rows, n, given, j + 1, basis)
    else if BasisColumn(rows, j) then BasisLoop(rows, n, given, j + 1, basis + [j])
    else BasisLoop(rows, n, given, j + 1, basis)
  }

  /** What the outer loop guarantees about the columns it appends: they keep
      the starting basis as a prefix, are increasing columns of `[j, n)`
      other than `given` that pass the basis test, and the loop stops once
      the basis is as long as there are rows. If it stops short of that,
      every column of `[j, n)` that passes the test and is not `given` was
      appended. */
  predicate LoopFacts(rows: seq<Vector>, n: nat, given: Option<nat>, j: nat, basis: seq<nat>, r: seq<nat>)
    requires forall k | 0 <= k < |rows| :: |rows[k]| == n
  {
    && |r| >= |basis| && r[..|basis|] == basis
    && (|basis| <= |rows| ==> |r| <= |rows|)
    && (forall k | |basis| <= k < |r| :: j <= r[k] < n && Some(r[k]) != given && BasisColumn(rows, r[k]))
    && (forall k | |basis| <= k < |r| - 1 :: r[k] < r[k + 1])
    && (|r| < |rows| ==>
          forall c | j <= c < n && Some(c) != given && BasisColumn(rows, c) :: c in r[|basis|..])
  }

  lemma {:induction false} BasisLoopSpec(rows: seq<Vector>, n: nat, given: Option<nat>, j: nat, basis: seq<nat>)
    requires forall k | 0 <= k < |rows| :: |rows[k]| == n
    ensures LoopFacts(rows, n, given, j, basis, BasisLoop(rows, n, given, j, basis))
    decreases n - j
  {
    var r := BasisLoop(rows, n, given, j, basis);
    if j >= n || |basis| == |rows| {
    } else if given == Some(j) {
      BasisLoopSpec(rows, n, given, j + 1, basis);
    } else if BasisColumn(rows, j) {
      BasisLoopSpec(rows, n, given, j + 1, basis + [j]);
      LoopStep(rows, n, given, j, basis, r);
    } else {
      BasisLoopSpec(rows, n, given, j + 1, basis);
    }
  }

  /** The step of `BasisLoopSpec` that appends column `j`. */
  lemma {:induction false} LoopStep(rows: seq<Vector>, n: nat, given: Option<nat>, j: nat, basis: seq<nat>, r: seq<nat>)
    requires forall k | 0 <= k < |rows| :: |rows[k]| == n
    requires j < n && Some(j) != given && BasisColumn(rows, j) && |basis| != |rows|
    requires LoopFacts(rows, n, given, j + 1, basis + [j], r)
    ensures LoopFacts(rows, n, given, j, basis, r)
  {
    assert r[..|basis|] == basis by {
      assert r[..|basis|] == r[..|basis| + 1][..|basis|];
    }
    assert r[|basis|] == j by {
      assert r[..|basis| + 1][|basis|] == j;
    }
    if |r| < |rows| {
      forall c | j <= c < n && Some(c) != given && BasisColumn(rows, c)
        ensures c in r[|basis|..]
      {
        if c == j {
          assert r[|basis|..][0] == j;
        } else {
          assert c in r[|basis| + 1..];
          assert r[|basis| + 1..] == r[|basis|..][1..];
        }
      }
    }
  }

  /** `find_basis(given)` as written: `if given:` treats a given column 0
      as absent, so column 0 is then neither put first nor (because of the
      `j == given` test) appended later. */
  function FindBasisAsWritten(rows: seq<Vector>, n: nat, given: Option<nat>): seq<nat>
    requires forall k | 0 <= k < |rows| :: |rows[k]| == n
  {
    BasisLoop(rows, n, given, 0, if given.Some? && given.value != 0 then [given.value] else [])
  }

  /** As written, a given column 0 never reaches the basis. */
  lemma {:induction false} FindBasisLosesColumnZero(rows: seq<Vector>, n: nat)
    requires forall k | 0 <= k < |rows| :: |rows[k]| == n
    ensures 0 !in FindBasisAsWritten(rows, n, Some(0))
  {
    var r := FindBasisAsWritten(rows, n, Some(0));
    BasisLoopSpec(rows, n, Some(0), 0, []);
    assert r == r[0..];
  }

  /** A concrete case: after a pivot on column 0 of the one-row system
      `[1, 0]`, the basis is `[1]` instead of `[0]`. */
  lemma {:induction false} FindBasisAsWrittenExample()
    ensures FindBasisAsWritten([[1.0, 0.0]], 2, Some(0)) == [1]
    ensures FindBasis([[1.0, 0.0]], 2, Some(0)) == [0]
  {
    var rows: seq<Vector> := [[1.0, 0.0]];
    assert BasisColumn(rows, 1) by {
      assert JustOne(rows, 1, 1, false, true);
    }
  }

  /** `find_basis(given)` as intended: a given column comes first. */
  function FindBasis(rows: seq<Vector>, n: nat, given: Option<nat>): (r: seq<nat>)
    requires forall k | 0 <= k < |rows| :: |rows[k]| == n
    ensures given.Some? ==> |r| > 0 && r[0] == given.value
  {
    var start := if given.Some? then [given.value] else [];
    BasisLoopSpec(rows, n, given, 0, start);
    BasisLoop(rows, n, given, 0, start)
  }

  /** The basis found: `given` first, then increasing columns that pass the
      basis test, at most one per row unless a given column meets an empty
      system; and a basis shorter than the row count holds every column that
      passes the test. */
  lemma {:induction false} FindBasisSpec(rows: seq<Vector>, n: nat, given: Option<nat>)
    requires forall k | 0 <= k < |rows| :: |rows[k]| == n
    ensures var r := FindBasis(rows, n, given); var s := if given.Some? then 1 else 0;
      && |r| >= s
      && (given.None? || |rows| > 0 ==> |r| <= |rows|)
      && (forall k | s <= k < |r| :: r[k] < n && Some(r[k]) != given && BasisColumn(rows, r[k]))
      && (forall k | s <= k < |r| - 1 :: r[k] < r[k + 1])
      && (|r| < |rows| ==> forall c | 0 <= c < n && Some(c) != given && BasisColumn(rows, c) :: c in r)
  {
    var start := if given.Some? then [given.value] else [];
    BasisLoopSpec(rows, n, given, 0, start);
    var r := FindBasis(rows, n, given);
    assert r == r[..|start|] + r[|start|..];
  }

  // ---------------------------------------------------------------------
  // find_pivot: the column
  // ---------------------------------------------------------------------

  /** The column loop of `find_pivot` as written: `k` walks the objective
      values, `i` is the counter the loop records, which a `continue` on a
      basis column leaves behind for good. */
  function ColumnLoop(objective: Vector, basis: seq<nat>, exact: bool, k: nat, i: nat,
                      smallest: real, column: Option<nat>): Option<nat>
    decreases |objective| - k
  {
    if k >= |objective| then column
    else if i in basis then ColumnLoop(objective, basis, exact, k + 1, i, smallest, column)
    else if objective[k] < 0.0 && objective[k] < smallest then
      if exact then Some(i) else ColumnLoop(objective, basis, exact, k + 1, i + 1, objective[k], Some(i))
    else ColumnLoop(objective, basis, exact, k + 1, i + 1, smallest, column)
  }

  function PivotColumnAsWritten(objective: Vector, basis: seq<nat>, exact: bool): Option<nat>
  {
    ColumnLoop(objective, basis, exact, 0, 0, 1.0, None)
  }

  /** Once the counter stops on a basis column, the loop chooses nothing
      more. */
  lemma {:induction false} ColumnLoopStuck(objective: Vector, basis: seq<nat>, exact: bool, k: nat, i: nat,
                                           smallest: real, column: Option<nat>)
    requires i in basis
    ensures ColumnLoop(objective, basis, exact, k, i, smallest, column) == column
    decreases |objective| - k
  {
    if k < |objective| {
      ColumnLoopStuck(objective, basis, exact, k + 1, i, smallest, column);
    }
  }

  /** As written, with column 0 in the basis no pivot column is ever found,
      whatever the objective; e.g. `[0, -1]` with basis `[0]` counts as
      solved, while the intended scan picks column 1. */
  lemma {:induction false} PivotColumnAsWrittenStuck(objective: Vector, basis: seq<nat>, exact: bool)
    requires 0 in basis
    ensures PivotColumnAsWritten(objective, basis, exact).None?
    ensures objective == [0.0, -1.0] && basis == [0] ==> PivotColumn(objective, basis, exact) == Some(1)
  {
    ColumnLoopStuck(objective, basis, exact, 0, 0, 1.0, None);
    if objective == [0.0, -1.0] && basis == [0] {
      assert ColumnScan(objective, basis, exact, 2, -1.0, Some(1)) == Some(1);
      assert ColumnScan(objective, basis, exact, 1, 1.0, None) == Some(1);
    }
  }

  /** The column scan as intended: skip basis columns; among negative
      entries take the first (`exact`, Bland's rule) or the most negative,
      the earliest on ties. */
  function ColumnScan(objective: Vector, basis: seq<nat>, exact: bool, i: nat,
                      smallest: real, column: Option<nat>): Option<nat>
    decreases |objective| - i
  {
    if i >= |objective| then column
    else if i in basis then ColumnScan(objective, basis, exact, i + 1, smallest, column)
    else if objective[i] < 0.0 && objective[i] < smallest then
      if exact then Some(i) else ColumnScan(objective, basis, exact, i + 1, objective[i], Some(i))
    else ColumnScan(objective, basis, exact, i + 1, smallest, column)
  }

  function PivotColumn(objective: Vector, basis: seq<nat>, exact: bool): Option<nat>
  {
    ColumnScan(objective, basis, exact, 0, 1.0, None)
  }

  /** Column `k` is a non-basis column with a negative objective entry. */
  predicate Entering(objective: Vector, basis: seq<nat>, k: nat)
    requires k < |objective|
  {
    k !in basis && objective[k] < 0.0
  }

  /** The running state of the column scan: a column chosen so far is an
      entering column holding the running minimum, which stays below 1. */
  predicate ScanState(objective: Vector, basis: seq<nat>, i: nat, smallest: real, column: Option<nat>)
  {
    && smallest <= 1.0
    && (column.None? ==> smallest == 1.0)
    && (column.Some? ==> column.value < i && column.value < |objective|
                         && Entering(objective, basis, column.value) && smallest == objective[column.value])
  }

  lemma {:induction false} ColumnScanSpec(objective: Vector, basis: seq<nat>, exact: bool, i: nat,
                                          smallest: real, column: Option<nat>)
    requires ScanState(objective, basis, i, smallest, column)
    requires exact ==> column.None?
    ensures var r := ColumnScan(objective, basis, exact, i, smallest, column);
      && (r.Some? ==> r.value < |objective| && Entering(objective, basis, r.value))
      && (r.Some? ==> r == column || i <= r.value)
      && (r.None? ==> column.None? && forall k | i <= k < |objective| :: !Entering(objective, basis, k))
      && (exact && r.Some? ==> forall k | i <= k < r.value :: !Entering(objective, basis, k))
      && (!exact && r.Some? ==> objective[r.value] <= smallest)
      && (!exact && r.Some? && r != column ==> objective[r.value] < smallest)
      && (!exact && r.Some? ==> forall k | i <= k < |objective| && Entering(objective, basis, k) ::
            objective[r.value] <= objective[k])
      && (!exact && r.Some? ==> forall k | i <= k < r.value && Entering(objective, basis, k) ::
            objective[r.value] < objective[k] || (column.Some? && r == column))
    decreases |objective| - i
  {
    if i < |objective| {
      if i in basis {
        ColumnScanSpec(objective, basis, exact, i + 1, smallest, column);
      } else if objective[i] < 0.0 && objective[i] < smallest {
        if !exact {
          ColumnScanSpec(objective, basis, exact, i + 1, objective[i], Some(i));
        }
      } else {
        ColumnScanSpec(objective, basis, exact, i + 1, smallest, column);
      }
    }
  }

  /** The pivot column is a non-basis column with a negative entry; there is
      none exactly when no non-basis entry is negative. In exact mode it is
      the first such column; otherwise it holds the least entry, and no
      earlier non-basis column holds the same value. */
  lemma {:induction false} PivotColumnSpec(objective: Vector, basis: seq<nat>, exact: bool)
    ensures var r := PivotColumn(objective, basis, exact);
      && (r.Some? ==> r.value < |objective| && Entering(objective, basis, r.value))
      && (r.None? <==> forall k | 0 <= k < |objective| :: !Entering(objective, basis, k))
      && (exact && r.Some? ==> forall k | 0 <= k < r.value :: !Entering(objective, basis, k))
      && (!exact && r.Some? ==> forall k | 0 <= k < |objective| && Entering(objective, basis, k) ::
            objective[r.value] <= objective[k])
      && (!exact && r.Some? ==> forall k | 0 <= k < r.value && Entering(objective, basis, k) ::
            objective[r.value] < objective[k])
  {
    ColumnScanSpec(objective, basis, exact, 0, 1.0, None);
  }

  // ---------------------------------------------------------------------
  // find_pivot: the row
  // ---------------------------------------------------------------------

  /** The row loop of `find_pivot` as written: `k` walks the rows, `i` is
      the counter used both to read the right-hand side and to record the
      row; a row with a negative entry skips the increment. A zero entry is
      divided by. */
  function RowLoop(rows: seq<Vector>, values: Vector, c: nat, k: nat, i: nat,
                   smallest: real, row: Option<nat>): Result<Option<nat>>
    requires |values| == |rows| && forall m | 0 <= m < |rows| :: c < |rows[m]|
    requires i <= k
    decreases |rows| - k
  {
    if k >= |rows| then Ok(row)
    else if rows[k][c] < 0.0 then RowLoop(rows, values, c, k + 1, i, smallest, row)
    else if rows[k][c] == 0.0 then Fail(DivisionByZero)
    else
      var ratio := values[i] / rows[k][c];
      if ratio < smallest then RowLoop(rows, values, c, k + 1, i + 1, ratio, Some(i))
      else RowLoop(rows, values, c, k + 1, i + 1, smallest, row)
  }

  function PivotRowAsWritten(rows: seq<Vector>, values: Vector, c: nat): Result<Option<nat>>
    requires |values| == |rows| && forall m | 0 <= m < |rows| :: c < |rows[m]|
  {
    RowLoop(rows, values, c, 0, 0, DT.RatioCap, None)
  }

  /** As written, a row with a negative pivot-column entry can become the
      pivot row: with rows `[-1]`, `[1]` and right-hand sides `5`, `1` the
      second row's ratio is computed from the first row's right-hand side
      and recorded as row 0. The intended ratio test picks row 1. */
  lemma {:induction false} PivotRowAsWrittenNegative()
    ensures PivotRowAsWritten([[-1.0], [1.0]], [5.0, 1.0], 0) == Ok(Some(0))
    ensures [[-1.0], [1.0]][0][0] < 0.0
    ensures PivotRow([[-1.0], [1.0]], [5.0, 1.0], 0) == Some(1)
  {
  }

  /** The ratio test as intended (the degenerate tableau's, which skips
      every row whose entry is not positive and advances its counter). */
  function PivotRow(rows: seq<Vector>, values: Vector, c: nat): (r: Option<nat>)
    requires |values| == |rows| && forall m | 0 <= m < |rows| :: c < |rows[m]|
    ensures r.Some? ==> r.value < |rows| && rows[r.value][c] > 0.0
  {
    DT.RatioScan(rows, values, c, 0, DT.RatioCap, None)
  }

  /** `find_pivot` as intended. */
  function FindPivot(objective: Vector, rows: seq<Vector>, values: Vector, basis: seq<nat>, exact: bool)
    : (r: (Option<nat>, Option<nat>))
    requires DT.Shaped(rows, values, |objective|)
    ensures r.1.Some? ==> r.0.Some? && r.1.value < |rows|
    ensures r.0.Some? ==> r.0.value < |objective| && Entering(objective, basis, r.0.value)
    ensures r.1.Some? ==> rows[r.1.value][r.0.value] > 0.0
  {
    PivotColumnSpec(objective, basis, exact);
    var column := PivotColumn(objective, basis, exact);
    if column.None? then (None, None)
    else (column, PivotRow(rows, values, column.value))
  }

  /** `is_solved`: neither a pivot column nor a pivot row. */
  predicate IsSolved(t: Tab)
  {
    t.pivotColumn.None? && t.pivotRow.None?
  }

  /** `is_unbounded`: a pivot column but no pivot row. */
  predicate IsUnbounded(t: Tab)
  {
    t.pivotColumn.Some? && t.pivotRow.None?
  }

  /** The pivot recorded is the one `find_pivot` chooses. */
  predicate Consistent(t: Tab)
  {
    Valid(t) && (t.pivotColumn, t.pivotRow) == FindPivot(t.objective, t.rows, t.values, t.basis, t.exact)
  }

  /** A tableau is solved exactly when no non-basis objective entry is
      negative, and unbounded exactly when there is a pivot column but no
      row reaches a ratio below `10**16` for it. */
  lemma {:induction false} SolvedUnbounded(t: Tab)
    requires Consistent(t)
    ensures IsSolved(t) <==> forall k | 0 <= k < |t.objective| :: !Entering(t.objective, t.basis, k)
    ensures IsUnbounded(t) <==>
              t.pivotColumn.Some? && forall k | 0 <= k < |t.rows| && DT.Candidate(t.rows, t.pivotColumn.value, k) ::
                DT.Ratio(t.rows, t.values, t.pivotColumn.value, k) >= DT.RatioCap
  {
    PivotColumnSpec(t.objective, t.basis, t.exact);
    if t.pivotColumn.Some? {
      DT.RatioScanLeast(t.rows, t.values, t.pivotColumn.value, 0, DT.RatioCap, None);
    }
  }

  // ---------------------------------------------------------------------
  // construction and pivoting
  // ---------------------------------------------------------------------

  /** The tableau with the given arrays, its basis and its pivot. */
  function Refresh(exact: bool, objective: Vector, value: real, rows: seq<Vector>, values: Vector,
                   basis: seq<nat>): (t: Tab)
    requires DT.Shaped(rows, values, |objective|)
    ensures Consistent(t)
    ensures t.objective == objective && t.value == value && t.rows == rows && t.values == values
    ensures t.basis == basis && t.exact == exact
  {
    var p := FindPivot(objective, rows, values, basis, exact);
    Tab(exact, objective, value, rows, values, basis, p.0, p.1)
  }

  /** `Tableau(c, d, A, b, exact)`: the objective row is `-c`, the objective
      value `d`, the constraints are copies of `A` and `b`. */
  function Init(c: Vector, d: real, a: seq<Vector>, b: Vector, exact: bool): (t: Tab)
    requires DT.Shaped(a, b, |c|)
    ensures Consistent(t)
    ensures |t.objective| == |c| && forall k | 0 <= k < |c| :: t.objective[k] == -c[k]
    ensures t.value == d && t.rows == a && t.values == b && t.exact == exact
  {
    Refresh(exact, Neg(c), d, a, b, FindBasis(a, |c|, None))
  }

  /** The objective row of a fresh tableau measures `-(c . x)`. */
  lemma {:induction false} InitObjective(c: Vector, d: real, a: seq<Vector>, b: Vector, exact: bool, x: Vector)
    requires DT.Shaped(a, b, |c|) && |x| == |c|
    ensures Dot(Init(c, d, a, b, exact).objective, x) == -Dot(c, x)
  {
    DotNeg(c, x);
  }

  /** `pivot`: the elimination of the degenerate tableau on the recorded
      pivot, then `find_basis` with the pivot column given, then
      `find_pivot`. */
  function Pivot(t: Tab): (r: Tab)
    requires Consistent(t) && t.pivotRow.Some?
    ensures Consistent(r) && |r.objective| == |t.objective| && |r.rows| == |t.rows| && r.exact == t.exact
    ensures |r.basis| > 0 && r.basis[0] == t.pivotColumn.value
    ensures var e := DT.Eliminate(t.objective, t.value, t.rows, t.values, t.pivotColumn.value, t.pivotRow.value);
      r.objective == e.objective && r.value == e.value && r.rows == e.rows && r.values == e.values
  {
    var c, p := t.pivotColumn.value, t.pivotRow.value;
    var e := DT.Eliminate(t.objective, t.value, t.rows, t.values, c, p);
    Refresh(t.exact, e.objective, e.value, e.rows, e.values, FindBasis(e.rows, |e.objective|, Some(c)))
  }

  /** What the tableau holds as its objective value: `Tableau.__init__`
      stores the one-entry list `[d]` (tableau.py:18), where `pivot` needs a
      number. */
  datatype HeldValue = Number(x: real) | OneList(items: seq<real>)

  /** The objective value of `Tableau(c, d, A, b)` as written. */
  function InitValueAsWritten(d: real): HeldValue
  {
    OneList([d])
  }

  /** Python's `held += x` for a number `x`: a number adds it; a list
      would be extended by the entries of `x`, and a number has none, so
      it raises `TypeError`. */
  function PlusAssign(held: HeldValue, x: real): (r: Result<HeldValue>)
    ensures r.Ok? <==> held.Number?
    ensures r.Fail? ==> r.error == TypeError
    ensures r.Ok? ==> r.value == Number(held.x + x)
  {
    match held
    case Number(v) => Ok(Number(v + x))
    case OneList(_) => Fail(TypeError)
  }

  /** `pivot` as written (tableau.py:94-115), with the objective value held
      as `held`: the elimination runs, then `objective_value += pivot_value
      * coefficient` (:112). */
  function PivotAsWritten(t: Tab, held: HeldValue): (r: Result<Tab>)
    requires Consistent(t) && t.pivotRow.Some?
    requires held.Number? ==> held.x == t.value
    ensures r.Ok? <==> held.Number?
    ensures r.Fail? ==> r.error == TypeError
  {
    match PlusAssign(held, PivotIncrement(t))
    case Fail(err) => Fail(err)
    case Ok(v) => Ok(PivotWithValue(t, v.x))
  }

  /** `pivot_value * coefficient`, the amount `pivot` adds to the objective
      value (tableau.py:112), written with the coefficient first as the
      shifted value has it. */
  function PivotIncrement(t: Tab): real
    requires Consistent(t) && t.pivotRow.Some?
  {
    var c, p := t.pivotColumn.value, t.pivotRow.value;
    var e := DT.Eliminate(t.objective, t.value, t.rows, t.values, c, p);
    -t.objective[c] * e.values[p]
  }

  /** The tableau `pivot` leaves, with `v` as its objective value: the
      elimination's arrays, a basis starting with the pivot column, and a
      fresh pivot. */
  function PivotWithValue(t: Tab, v: real): (r: Tab)
    requires Consistent(t) && t.pivotRow.Some?
    ensures r.value == v
  {
    var c, p := t.pivotColumn.value, t.pivotRow.value;
    var e := DT.Eliminate(t.objective, t.value, t.rows, t.values, c, p);
    Refresh(t.exact, e.objective, v, e.rows, e.values, FindBasis(e.rows, |e.objective|, Some(c)))
  }


  /** Every pivot of a tableau built as written raises `TypeError`; with
      the value held as a number, the pivot is Pivot. */
  lemma {:induction false} PivotAsWrittenFails(t: Tab, d: real)
    requires Consistent(t) && t.pivotRow.Some?
    ensures PivotAsWritten(t, InitValueAsWritten(d)) == Fail(TypeError)
    ensures PivotAsWritten(t, Number(t.value)) == Ok(Pivot(t))
  {
    var e := DT.Eliminate(t.objective, t.value, t.rows, t.values, t.pivotColumn.value, t.pivotRow.value);
    IncrementShifts(t);
    PivotIsWithValue(t);
    assert PivotAsWritten(t, Number(t.value)) == Ok(PivotWithValue(t, t.value + PivotIncrement(t)));
  }

  /** Adding the increment to the value gives the eliminated value. */
  lemma {:induction false} IncrementShifts(t: Tab)
    requires Consistent(t) && t.pivotRow.Some?
    ensures t.value + PivotIncrement(t)
            == DT.Eliminate(t.objective, t.value, t.rows, t.values, t.pivotColumn.value, t.pivotRow.value).value
  {
    var c, p := t.pivotColumn.value, t.pivotRow.value;
    var e := DT.Eliminate(t.objective, t.value, t.rows, t.values, c, p);
    PlusShift(t.value, PivotIncrement(t), -t.objective[c], e.values[p], e.value);
  }

  /** Adding `k * pvalue` is the shift of the value by `k` times `pvalue`. */
  lemma {:induction false} PlusShift(value: real, inc: real, k: real, pvalue: real, shifted: real)
    requires inc == k * pvalue && shifted == ShiftValue(value, k, pvalue)
    ensures value + inc == shifted
  {
  }



  /** Pivot is PivotWithValue at the eliminated value. */
  lemma {:induction false} PivotIsWithValue(t: Tab)
    requires Consistent(t) && t.pivotRow.Some?
    ensures Pivot(t)
            == PivotWithValue(t, DT.Eliminate(t.objective, t.value, t.rows, t.values, t.pivotColumn.value, t.pivotRow.value).value)
  {
  }

  /** After `pivot` the pivot row holds 1 in the pivot column, every row
      that differs from it and the objective hold 0 there, and the equation
      system keeps its solutions. */
  lemma {:induction false} PivotEffect(t: Tab, x: Vector)
    requires Consistent(t) && t.pivotRow.Some? && |x| == |t.objective|
    ensures var r := Pivot(t); var c, p := t.pivotColumn.value, t.pivotRow.value;
      && r.rows[p][c] == 1.0 && r.objective[c] == 0.0
      && (forall i | 0 <= i < |r.rows| && r.rows[i] != r.rows[p] :: r.rows[i][c] == 0.0)
      && (DT.Satisfies(t.rows, t.values, x) <==> DT.Satisfies(r.rows, r.values, x))
  {
    var c, p := t.pivotColumn.value, t.pivotRow.value;
    DT.EliminateClearsColumn(t.objective, t.value, t.rows, t.values, c, p);
    DT.EliminatePreservesSolutions(t.objective, t.value, t.rows, t.values, c, p, x);
  }
}
