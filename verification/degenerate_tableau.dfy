/** The exact simplex tableau of `kirky/degenerate_tableau.py` (Bland's rule,
    unit-column basis, objective mending) and the phase-I feasibility driver
    `solve_kirky`.

    A tableau stores the objective row `objective`, the objective value
    `value`, the constraint rows `rows` with right-hand sides `values`, the
    basis columns, the chosen pivot and the basic solution. Its meaning is the
    equation system `rows[i] . x == values[i]` together with the function
    `objective . x - value`, which every operation keeps unchanged on the
    solutions of the system. */
module DegenerateTableau {
  import opened Wrappers
  import opened Vectors

  /** The initial `smallest_ratio` of the ratio test, `10**16`. */
  const RatioCap: real := 10000000000000000.0

  datatype Tableau = Tableau(
    objective: Vector,
    value: real,
    rows: seq<Vector>,
    values: Vector,
    basis: seq<nat>,
    pivotColumn: Option<nat>,
    pivotRow: Option<nat>,
    solution: Vector)

  /** Every row has `n` entries and there is one right-hand side per row. */
  predicate Shaped(rows: seq<Vector>, values: Vector, n: nat)
  {
    |values| == |rows| && forall i | 0 <= i < |rows| :: |rows[i]| == n
  }

  /** The tableau's arrays agree in size and its recorded pivot is in range. */
  predicate Valid(t: Tableau)
  {
    Shaped(t.rows, t.values, |t.objective|)
    && (forall k | 0 <= k < |t.basis| :: t.basis[k] < |t.objective|)
    && (t.pivotColumn.Some? ==> t.pivotColumn.value < |t.objective|)
    && (t.pivotRow.Some? ==> t.pivotRow.value < |t.rows|)
    && |t.solution| == |t.objective|
  }

  /** `x` solves the tableau's equation system. */
  predicate Satisfies(rows: seq<Vector>, values: Vector, x: Vector)
    requires Shaped(rows, values, |x|)
  {
    forall i | 0 <= i < |rows| :: Dot(rows[i], x) == values[i]
  }

  /** The function the objective row stands for: `objective . x - value`. */
  function Measure(objective: Vector, value: real, x: Vector): real
    requires |objective| == |x|
  {
    Dot(objective, x) - value
  }

  // ---------------------------------------------------------------------
  // find_basis
  // ---------------------------------------------------------------------

  /** Column `j` is zero in every row from `i` on that is not in `used`,
      except possibly row `except`. */
  predicate ZeroFrom(rows: seq<Vector>, j: nat, used: seq<nat>, i: nat, except: int)
    requires forall k | 0 <= k < |rows| :: j < |rows[k]|
  {
    forall k | i <= k < |rows| && k !in used && k != except :: rows[k][j] == 0.0
  }

  /** Over the rows from `i` on that are not in `used`, column `j` is the unit
      vector with its 1 in row `r`. */
  predicate UnitFrom(rows: seq<Vector>, j: nat, used: seq<nat>, i: nat, r: nat)
    requires forall k | 0 <= k < |rows| :: j < |rows[k]|
  {
    i <= r < |rows| && r !in used && rows[r][j] == 1.0 && ZeroFrom(rows, j, used, i, r)
  }

  /** Over the rows not in `used`, column `j` is a unit column whose 1 is in
      row `r`: the test `find_basis` applies before taking a column. */
  predicate UnitOver(rows: seq<Vector>, j: nat, used: seq<nat>, r: nat)
    requires forall k | 0 <= k < |rows| :: j < |rows[k]|
  {
    UnitFrom(rows, j, used, 0, r)
  }

  /** The inner loop of `find_basis` over the rows, from row `i` on, with the
      loop's `found_one`/`current_i` (as `found`) and `just_one` flags. */
  function ScanColumn(rows: seq<Vector>, j: nat, used: seq<nat>, i: nat,
                      found: Option<nat>, justOne: bool): Option<nat>
    requires forall k | 0 <= k < |rows| :: j < |rows[k]|
    decreases |rows| - i
  {
    if i >= |rows| then (if justOne && found.Some? then found else None)
    else if i in used then ScanColumn(rows, j, used, i + 1, found, justOne)
    else if rows[i][j] == 1.0 then
      if found.None? then ScanColumn(rows, j, used, i + 1, Some(i), justOne)
      else ScanColumn(rows, j, used, i + 1, found, false)
    else if rows[i][j] != 0.0 then None
    else ScanColumn(rows, j, used, i + 1, found, justOne)
  }

  /** The row column `j` claims, if it passes the unit-column test. */
  function ClaimsColumn(rows: seq<Vector>, j: nat, used: seq<nat>): Option<nat>
    requires forall k | 0 <= k < |rows| :: j < |rows[k]|
  {
    ScanColumn(rows, j, used, 0, None, true)
  }

  /** The scan from row `i` ends with row `r` exactly when the rows seen so far
      left the flags clean and the rest of the column completes the unit
      column at `r`. */
  lemma {:induction false} ScanColumnSpec(rows: seq<Vector>, j: nat, used: seq<nat>, i: nat,
                                          found: Option<nat>, justOne: bool, r: nat)
    requires forall k | 0 <= k < |rows| :: j < |rows[k]|
    requires found.Some? ==> found.value < i && found.value !in used
    ensures ScanColumn(rows, j, used, i, found, justOne) == Some(r) <==>
      justOne && ((found == Some(r) && ZeroFrom(rows, j, used, i, -1))
                  || (found.None? && UnitFrom(rows, j, used, i, r)))
    decreases |rows| - i
  {
    if i < |rows| {
      if i in used {
        ScanColumnSpec(rows, j, used, i + 1, found, justOne, r);
      } else if rows[i][j] == 1.0 {
        if found.None? {
          ScanColumnSpec(rows, j, used, i + 1, Some(i), justOne, r);
        } else {
          ScanColumnSpec(rows, j, used, i + 1, found, false, r);
          assert !ZeroFrom(rows, j, used, i, -1);
        }
      } else if rows[i][j] != 0.0 {
        assert !ZeroFrom(rows, j, used, i, -1);
        assert !UnitFrom(rows, j, used, i, r);
      } else {
        ScanColumnSpec(rows, j, used, i + 1, found, justOne, r);
      }
    }
  }

  /** `find_basis` takes column `j` with row `r` exactly when the column is a
      unit column at `r` over the rows not yet claimed. */
  lemma {:induction false} ClaimsColumnSpec(rows: seq<Vector>, j: nat, used: seq<nat>, r: nat)
    requires forall k | 0 <= k < |rows| :: j < |rows[k]|
    ensures ClaimsColumn(rows, j, used) == Some(r) <==> UnitOver(rows, j, used, r)
  {
    ScanColumnSpec(rows, j, used, 0, None, true, r);
  }

  /** No entry of `s` occurs twice. */
  predicate Distinct(s: seq<nat>)
  {
    forall p, q | 0 <= p < q < |s| :: s[p] != s[q]
  }

  /** The basis columns found, and the rows they claimed (`used_i`). */
  datatype Basis = Basis(columns: seq<nat>, claimed: seq<nat>)

  /** The outer loop of `find_basis` over the columns from `j` on. */
  function BasisScan(rows: seq<Vector>, n: nat, given: Option<nat>, j: nat,
                     cols: seq<nat>, used: seq<nat>): (r: Basis)
    requires forall k | 0 <= k < |rows| :: |rows[k]| == n
    decreases n - j
  {
    if j >= n || |cols| == |rows| then Basis(cols, used)
    else if given == Some(j) then BasisScan(rows, n, given, j + 1, cols, used)
    else
      match ClaimsColumn(rows, j, used)
      case Some(i) => BasisScan(rows, n, given, j + 1, cols + [j], used + [i])
      case None => BasisScan(rows, n, given, j + 1, cols, used)
  }

  /** The outer loop keeps what it was given as a prefix, appends as many
      rows as columns, and stops at a full basis. */
  predicate ScanShape(r: Basis, rows: seq<Vector>, cols: seq<nat>, used: seq<nat>)
  {
    && |r.columns| >= |cols| && |r.claimed| >= |used|
    && r.columns[..|cols|] == cols && r.claimed[..|used|] == used
    && |r.columns| - |cols| == |r.claimed| - |used|
    && (|r.columns| <= |rows| || |rows| == 0)
  }

  /** The appended columns are increasing columns of `[j, n)` other than
      `given`. */
  predicate ScanRange(r: Basis, n: nat, given: Option<nat>, j: nat, cols: seq<nat>)
  {
    && (forall k | |cols| <= k < |r.columns| :: j <= r.columns[k] < n && Some(r.columns[k]) != given)
    && (forall k | |cols| <= k < |r.columns| - 1 :: r.columns[k] < r.columns[k + 1])
  }

  /** Each appended column is a unit column over the rows claimed before it,
      together with its row. */
  predicate ScanUnits(r: Basis, rows: seq<Vector>, n: nat, cols: seq<nat>, used: seq<nat>)
    requires forall k | 0 <= k < |rows| :: |rows[k]| == n
    requires ScanShape(r, rows, cols, used)
    requires forall k | |cols| <= k < |r.columns| :: r.columns[k] < n
  {
    forall k | |cols| <= k < |r.columns| ::
      UnitOver(rows, r.columns[k], r.claimed[..k + (|used| - |cols|)], r.claimed[k + (|used| - |cols|)])
  }

  /** Everything the outer loop guarantees. */
  predicate BasisScanFacts(rows: seq<Vector>, n: nat, given: Option<nat>, j: nat,
                           cols: seq<nat>, used: seq<nat>)
    requires forall k | 0 <= k < |rows| :: |rows[k]| == n
  {
    var r := BasisScan(rows, n, given, j, cols, used);
    && ScanShape(r, rows, cols, used)
    && ScanRange(r, n, given, j, cols)
    && ScanUnits(r, rows, n, cols, used)
    && (Distinct(used) ==> Distinct(r.claimed))
  }

  lemma {:induction false} BasisScanShape(rows: seq<Vector>, n: nat, given: Option<nat>, j: nat,
                                          cols: seq<nat>, used: seq<nat>)
    requires forall k | 0 <= k < |rows| :: |rows[k]| == n
    requires |cols| <= |rows| || |rows| == 0
    ensures ScanShape(BasisScan(rows, n, given, j, cols, used), rows, cols, used)
    decreases n - j
  {
    if j >= n || |cols| == |rows| {
    } else if given == Some(j) {
      BasisScanShape(rows, n, given, j + 1, cols, used);
    } else {
      match ClaimsColumn(rows, j, used)
      case Some(i) =>
        BasisScanShape(rows, n, given, j + 1, cols + [j], used + [i]);
        var r := BasisScan(rows, n, given, j + 1, cols + [j], used + [i]);
        assert r.columns[..|cols|] == cols by {
          assert r.columns[..|cols|] == r.columns[..|cols| + 1][..|cols|];
        }
        assert r.claimed[..|used|] == used by {
          assert r.claimed[..|used|] == r.claimed[..|used| + 1][..|used|];
        }
      case None =>
        BasisScanShape(rows, n, given, j + 1, cols, used);
    }
  }

  lemma {:induction false} BasisScanRange(rows: seq<Vector>, n: nat, given: Option<nat>, j: nat,
                                          cols: seq<nat>, used: seq<nat>)
    requires forall k | 0 <= k < |rows| :: |rows[k]| == n
    requires |cols| <= |rows| || |rows| == 0
    ensures ScanShape(BasisScan(rows, n, given, j, cols, used), rows, cols, used)
    ensures ScanRange(BasisScan(rows, n, given, j, cols, used), n, given, j, cols)
    decreases n - j
  {
    BasisScanShape(rows, n, given, j, cols, used);
    if j >= n || |cols| == |rows| {
    } else if given == Some(j) {
      BasisScanRange(rows, n, given, j + 1, cols, used);
    } else {
      match ClaimsColumn(rows, j, used)
      case Some(i) =>
        BasisScanRange(rows, n, given, j + 1, cols + [j], used + [i]);
        RangeStep(BasisScan(rows, n, given, j + 1, cols + [j], used + [i]), n, given, j, cols);
      case None =>
        BasisScanRange(rows, n, given, j + 1, cols, used);
    }
  }

  /** Appending column `j` in front of increasing columns of `[j + 1, n)`. */
  lemma {:induction false} RangeStep(r: Basis, n: nat, given: Option<nat>, j: nat, cols: seq<nat>)
    requires j < n && given != Some(j)
    requires |r.columns| > |cols| && r.columns[..|cols| + 1] == cols + [j]
    requires ScanRange(r, n, given, j + 1, cols + [j])
    ensures ScanRange(r, n, given, j, cols)
  {
    assert r.columns[|cols|] == j;
  }

  lemma {:induction false} BasisScanUnits(rows: seq<Vector>, n: nat, given: Option<nat>, j: nat,
                                          cols: seq<nat>, used: seq<nat>)
    requires forall k | 0 <= k < |rows| :: |rows[k]| == n
    requires |cols| <= |rows| || |rows| == 0
    ensures ScanShape(BasisScan(rows, n, given, j, cols, used), rows, cols, used)
    ensures ScanRange(BasisScan(rows, n, given, j, cols, used), n, given, j, cols)
    ensures ScanUnits(BasisScan(rows, n, given, j, cols, used), rows, n, cols, used)
    decreases n - j
  {
    BasisScanRange(rows, n, given, j, cols, used);
    if j >= n || |cols| == |rows| {
    } else if given == Some(j) {
      BasisScanUnits(rows, n, given, j + 1, cols, used);
    } else {
      match ClaimsColumn(rows, j, used)
      case Some(i) =>
        ClaimsColumnSpec(rows, j, used, i);
        BasisScanUnits(rows, n, given, j + 1, cols + [j], used + [i]);
        UnitsStep(BasisScan(rows, n, given, j + 1, cols + [j], used + [i]), rows, n, j, i, cols, used);
      case None =>
        BasisScanUnits(rows, n, given, j + 1, cols, used);
    }
  }

  /** Appending column `j`, a unit column over `used` claiming row `i`, in
      front of unit columns over the rows claimed after it. */
  lemma {:induction false} UnitsStep(r: Basis, rows: seq<Vector>, n: nat, j: nat, i: nat, cols: seq<nat>, used: seq<nat>)
    requires forall k | 0 <= k < |rows| :: |rows[k]| == n
    requires j < n && UnitOver(rows, j, used, i)
    requires ScanShape(r, rows, cols + [j], used + [i])
    requires ScanShape(r, rows, cols, used)
    requires forall k | |cols| <= k < |r.columns| :: r.columns[k] < n
    requires ScanUnits(r, rows, n, cols + [j], used + [i])
    ensures ScanUnits(r, rows, n, cols, used)
  {
    var d := |used| - |cols|;
    forall k | |cols| <= k < |r.columns|
      ensures UnitOver(rows, r.columns[k], r.claimed[..k + d], r.claimed[k + d])
    {
      if k == |cols| {
        assert r.columns[..|cols| + 1] == cols + [j];
        assert r.claimed[..|used| + 1] == used + [i];
        assert r.columns[k] == j;
        assert r.claimed[..k + d] == used && r.claimed[k + d] == i;
      }
    }
  }

  lemma {:induction false} BasisScanDistinct(rows: seq<Vector>, n: nat, given: Option<nat>, j: nat,
                                             cols: seq<nat>, used: seq<nat>)
    requires forall k | 0 <= k < |rows| :: |rows[k]| == n
    requires Distinct(used)
    ensures Distinct(BasisScan(rows, n, given, j, cols, used).claimed)
    decreases n - j
  {
    if j >= n || |cols| == |rows| {
    } else if given == Some(j) {
      BasisScanDistinct(rows, n, given, j + 1, cols, used);
    } else {
      match ClaimsColumn(rows, j, used)
      case Some(i) =>
        ClaimsColumnSpec(rows, j, used, i);
        assert Distinct(used + [i]);
        BasisScanDistinct(rows, n, given, j + 1, cols + [j], used + [i]);
      case None =>
        BasisScanDistinct(rows, n, given, j + 1, cols, used);
    }
  }

  lemma {:induction false} BasisScanSpec(rows: seq<Vector>, n: nat, given: Option<nat>, j: nat,
                      cols: seq<nat>, used: seq<nat>)
    requires forall k | 0 <= k < |rows| :: |rows[k]| == n
    requires |cols| <= |rows| || |rows| == 0
    ensures BasisScanFacts(rows, n, given, j, cols, used)
  {
    BasisScanUnits(rows, n, given, j, cols, used);
    if Distinct(used) {
      BasisScanDistinct(rows, n, given, j, cols, used);
    }
  }

  /** The rows whose entry in column `c` is 1, in order, from row `i` on. */
  function RowsWithOne(rows: seq<Vector>, c: nat, i: nat): (r: seq<nat>)
    requires forall k | 0 <= k < |rows| :: c < |rows[k]|
    decreases |rows| - i
  {
    if i >= |rows| then []
    else if rows[i][c] == 1.0 then [i] + RowsWithOne(rows, c, i + 1)
    else RowsWithOne(rows, c, i + 1)
  }

  /** `RowsWithOne` lists exactly the rows from `i` on with a 1 in column
      `c`, increasing. */
  predicate RowsWithOneFrom(rows: seq<Vector>, c: nat, i: nat)
    requires forall k | 0 <= k < |rows| :: c < |rows[k]|
  {
    var r := RowsWithOne(rows, c, i);
      && (forall k | 0 <= k < |r| :: i <= r[k] < |rows| && rows[r[k]][c] == 1.0)
      && (forall k | i <= k < |rows| && rows[k][c] == 1.0 :: k in r)
      && (forall k, m | 0 <= k < m < |r| :: r[k] < r[m])
  }

  /** The rows with a 1 in a column, listed from the first row. */
  predicate RowsWithOneFacts(rows: seq<Vector>, c: nat)
    requires forall k | 0 <= k < |rows| :: c < |rows[k]|
  {
    RowsWithOneFrom(rows, c, 0)
  }

  lemma {:induction false} RowsWithOneSpec(rows: seq<Vector>, c: nat, i: nat)
    requires forall k | 0 <= k < |rows| :: c < |rows[k]|
    ensures RowsWithOneFrom(rows, c, i)
    decreases |rows| - i
  {
    if i < |rows| {
      RowsWithOneSpec(rows, c, i + 1);
    }
  }

  /** `find_basis(given)`: with `given`, that column comes first and every row
      holding a 1 in it is claimed up front; then every other column that is a
      unit column over the unclaimed rows is taken with its row, until there
      are as many basis columns as rows. */
  function FindBasis(rows: seq<Vector>, n: nat, given: Option<nat>): (r: Basis)
    requires forall k | 0 <= k < |rows| :: |rows[k]| == n
    requires given.Some? ==> given.value < n
    ensures forall k | 0 <= k < |r.columns| :: r.columns[k] < n
  {
    FindBasisScans(rows, n, given);
    if given.Some? && |rows| > 0 then
      BasisScan(rows, n, given, 0, [given.value], RowsWithOne(rows, given.value, 0))
    else if given.Some? then Basis([given.value], [])
    else BasisScan(rows, n, None, 0, [], [])
  }

  /** What `find_basis` promises of a basis `r`: `given` first, no more
      columns than rows, every other column paired with the row it
      claimed. */
  predicate BasisShape(rows: seq<Vector>, n: nat, given: Option<nat>, r: Basis)
    requires forall k | 0 <= k < |rows| :: |rows[k]| == n
    requires given.Some? ==> given.value < n
  {
    var off := if given.Some? then 1 else 0;
    var pre := if given.Some? then RowsWithOne(rows, given.value, 0) else [];
    && (given.Some? ==> |r.columns| > 0 && r.columns[0] == given.value)
    && |r.claimed| == |pre| + |r.columns| - off
    && (given.Some? ==> forall i | 0 <= i < |rows| :: rows[i][given.value] == 1.0 <==> i in r.claimed[..|pre|])
    && (|rows| > 0 || given.None? ==> |r.columns| <= |rows|)
    && (forall k | off <= k < |r.columns| :: r.columns[k] < n && Some(r.columns[k]) != given)
    && (forall k | off <= k < |r.columns| - 1 :: r.columns[k] < r.columns[k + 1])
    && (forall k | off <= k < |r.columns| ::
          UnitOver(rows, r.columns[k], r.claimed[..|pre| + k - off], r.claimed[|pre| + k - off]))
  }

  /** The basis `find_basis` returns has the shape `BasisShape` describes. */
  lemma {:induction false} FindBasisSpec(rows: seq<Vector>, n: nat, given: Option<nat>)
    requires forall k | 0 <= k < |rows| :: |rows[k]| == n
    requires given.Some? ==> given.value < n
    ensures BasisShape(rows, n, given, FindBasis(rows, n, given))
  {
    if given.Some? && |rows| > 0 {
      FindBasisSpecGiven(rows, n, given);
    } else if given.None? {
      FindBasisSpecNone(rows, n, given);
    } else {
      assert FindBasis(rows, n, given) == Basis([given.value], []);
    }
  }

  /** `FindBasisSpec` for a given column over a nonempty system. */
  lemma {:induction false} FindBasisSpecGiven(rows: seq<Vector>, n: nat, given: Option<nat>)
    requires forall k | 0 <= k < |rows| :: |rows[k]| == n
    requires given.Some? && given.value < n && |rows| > 0
    ensures BasisShape(rows, n, given, FindBasis(rows, n, given))
  {
    var g := given.value;
    var pre := RowsWithOne(rows, g, 0);
    RowsWithOneSpec(rows, g, 0);
    BasisScanSpec(rows, n, given, 0, [g], pre);
    var r := FindBasis(rows, n, given);
    assert r == BasisScan(rows, n, given, 0, [g], pre);
    assert r.claimed[..|pre|] == pre;
    assert r.columns[..1] == [g];
    assert r.columns[0] == r.columns[..1][0];
  }

  /** `FindBasisSpec` without a given column. */
  lemma {:induction false} FindBasisSpecNone(rows: seq<Vector>, n: nat, given: Option<nat>)
    requires forall k | 0 <= k < |rows| :: |rows[k]| == n
    requires given.None?
    ensures BasisShape(rows, n, given, FindBasis(rows, n, given))
  {
    BasisScanSpec(rows, n, None, 0, [], []);
    var r := FindBasis(rows, n, given);
    assert r == BasisScan(rows, n, None, 0, [], []);
  }

  /** The facts about the scans `find_basis` runs. */
  lemma {:induction false} FindBasisScans(rows: seq<Vector>, n: nat, given: Option<nat>)
    requires forall k | 0 <= k < |rows| :: |rows[k]| == n
    requires given.Some? ==> given.value < n
    ensures given.Some? ==> RowsWithOneFacts(rows, given.value)
    ensures given.Some? && |rows| > 0 ==>
              BasisScanFacts(rows, n, given, 0, [given.value], RowsWithOne(rows, given.value, 0))
    ensures given.None? ==> BasisScanFacts(rows, n, None, 0, [], [])
  {
    if given.Some? {
      RowsWithOneSpec(rows, given.value, 0);
      if |rows| > 0 {
        BasisScanSpec(rows, n, given, 0, [given.value], RowsWithOne(rows, given.value, 0));
      }
    } else {
      BasisScanSpec(rows, n, None, 0, [], []);
    }
  }

  /** No row is claimed by two basis columns. */
  lemma {:induction false} FindBasisClaimsDistinct(rows: seq<Vector>, n: nat, given: Option<nat>)
    requires forall k | 0 <= k < |rows| :: |rows[k]| == n
    requires given.Some? ==> given.value < n
    ensures Distinct(FindBasis(rows, n, given).claimed)
  {
    FindBasisScans(rows, n, given);
    if given.Some? && |rows| > 0 {
      var pre := RowsWithOne(rows, given.value, 0);
      assert Distinct(pre);
    }
  }

  // ---------------------------------------------------------------------
  // mend_objective
  // ---------------------------------------------------------------------

  /** The row `mend_objective` subtracts for basis column `i`: the first row
      holding a 1 there, or the last row when none does (Python leaves the
      loop variable at its last value). */
  function MendRow(rows: seq<Vector>, i: nat, j: nat): (r: nat)
    requires forall k | 0 <= k < |rows| :: i < |rows[k]|
    requires j < |rows|
    ensures j <= r < |rows|
    ensures forall k | j <= k < r :: rows[k][i] != 1.0
    ensures rows[r][i] == 1.0 || (r == |rows| - 1 && forall k | j <= k < |rows| :: rows[k][i] != 1.0)
    decreases |rows| - j
  {
    if rows[j][i] == 1.0 || j == |rows| - 1 then j else MendRow(rows, i, j + 1)
  }

  /** One pass of `mend_objective` for basis column `i`: with a non-zero
      objective entry there, subtract that multiple of the row `MendRow`
      picks from the objective and its value, then zero the entry. */
  function MendStep(objective: Vector, value: real, rows: seq<Vector>, values: Vector, i: nat): (r: (Vector, real))
    requires Shaped(rows, values, |objective|) && i < |objective|
    requires |rows| > 0
    ensures |r.0| == |objective| && r.0[i] == 0.0
    ensures forall k | 0 <= k < |objective| && k != i && objective[i] == 0.0 :: r.0[k] == objective[k]
  {
    if objective[i] == 0.0 then (objective, value)
    else
      var coefficient := objective[i];
      var j := MendRow(rows, i, 0);
      (ShiftRow(objective, -coefficient, rows[j])[i := 0.0], ShiftValue(value, -coefficient, values[j]))
  }

  /** `mend_objective`: one pass for every basis column, in basis order. */
  function Mend(objective: Vector, value: real, rows: seq<Vector>, values: Vector, basis: seq<nat>): (r: (Vector, real))
    requires Shaped(rows, values, |objective|)
    requires forall k | 0 <= k < |basis| :: basis[k] < |objective|
    requires |rows| > 0 || |basis| == 0
    ensures |r.0| == |objective|
    ensures |basis| > 0 ==> r.0[basis[|basis| - 1]] == 0.0
  {
    if |basis| == 0 then (objective, value)
    else
      var s := Mend(objective, value, rows, values, basis[..|basis| - 1]);
      MendStep(s.0, s.1, rows, values, basis[|basis| - 1])
  }

  // ---------------------------------------------------------------------
  // find_pivot
  // ---------------------------------------------------------------------

  /** Bland's rule for the column: the first negative objective entry at or
      after `i`. */
  function FirstNegative(objective: Vector, i: nat): (r: Option<nat>)
    ensures r.Some? ==> i <= r.value < |objective| && objective[r.value] < 0.0
    ensures r.Some? ==> forall k | i <= k < r.value :: objective[k] >= 0.0
    ensures r.None? ==> forall k | i <= k < |objective| :: objective[k] >= 0.0
    decreases |objective| - i
  {
    if i >= |objective| then None
    else if objective[i] < 0.0 then Some(i)
    else FirstNegative(objective, i + 1)
  }

  /** Row `k` takes part in the ratio test for column `c`. */
  predicate Candidate(rows: seq<Vector>, c: nat, k: nat)
    requires k < |rows| && c < |rows[k]|
  {
    rows[k][c] > 0.0
  }

  /** The ratio `constraint_value / column_value` of a candidate row. */
  function Ratio(rows: seq<Vector>, values: Vector, c: nat, k: nat): real
    requires |values| == |rows| && k < |rows| && c < |rows[k]| && rows[k][c] > 0.0
  {
    values[k] / rows[k][c]
  }

  /** The ratio test from row `i` on, with the running `smallest_ratio` and
      the row it belongs to. */
  function RatioScan(rows: seq<Vector>, values: Vector, c: nat, i: nat,
                     smallest: real, best: Option<nat>): (r: Option<nat>)
    requires |values| == |rows| && forall k | 0 <= k < |rows| :: c < |rows[k]|
    requires best.Some? ==> best.value < i && best.value < |rows| && Candidate(rows, c, best.value)
                            && smallest == Ratio(rows, values, c, best.value) && smallest < RatioCap
    requires best.None? ==> smallest == RatioCap
    ensures best.Some? ==> r.Some?
    ensures r.Some? ==> r.value < |rows| && Candidate(rows, c, r.value)
                        && Ratio(rows, values, c, r.value) <= smallest
                        && (r == best || (i <= r.value && Ratio(rows, values, c, r.value) < smallest))
    decreases |rows| - i
  {
    if i >= |rows| then best
    else if rows[i][c] <= 0.0 then RatioScan(rows, values, c, i + 1, smallest, best)
    else
      var ratio := values[i] / rows[i][c];
      if ratio < smallest then RatioScan(rows, values, c, i + 1, ratio, Some(i))
      else RatioScan(rows, values, c, i + 1, smallest, best)
  }

  /** The ratio test picks the least ratio among the candidates from row `i`
      on (and below the running minimum), the earliest one on ties; it picks
      nothing only when no candidate beats the running minimum. */
  lemma {:induction false} RatioScanLeast(rows: seq<Vector>, values: Vector, c: nat, i: nat,
                                          smallest: real, best: Option<nat>)
    requires |values| == |rows| && forall k | 0 <= k < |rows| :: c < |rows[k]|
    requires best.Some? ==> best.value < i && best.value < |rows| && Candidate(rows, c, best.value)
                            && smallest == Ratio(rows, values, c, best.value) && smallest < RatioCap
    requires best.None? ==> smallest == RatioCap
    ensures var r := RatioScan(rows, values, c, i, smallest, best);
      r.Some? ==> forall k | i <= k < |rows| && Candidate(rows, c, k) ::
                    Ratio(rows, values, c, r.value) <= Ratio(rows, values, c, k)
    ensures var r := RatioScan(rows, values, c, i, smallest, best);
      r.Some? ==> forall k | i <= k < r.value && Candidate(rows, c, k) ::
                    Ratio(rows, values, c, r.value) < Ratio(rows, values, c, k)
    ensures var r := RatioScan(rows, values, c, i, smallest, best);
      r.None? ==> forall k | i <= k < |rows| && Candidate(rows, c, k) ::
                    Ratio(rows, values, c, k) >= RatioCap
    decreases |rows| - i
  {
    if i < |rows| {
      if rows[i][c] <= 0.0 {
        RatioScanLeast(rows, values, c, i + 1, smallest, best);
      } else {
        var ratio := values[i] / rows[i][c];
        if ratio < smallest {
          RatioScanLeast(rows, values, c, i + 1, ratio, Some(i));
        } else {
          RatioScanLeast(rows, values, c, i + 1, smallest, best);
        }
      }
    }
  }

  /** `find_pivot`: the column by Bland's rule, then the candidate row with
      the least ratio below `10**16`, the earliest on ties. */
  function FindPivot(objective: Vector, rows: seq<Vector>, values: Vector): (r: (Option<nat>, Option<nat>))
    requires Shaped(rows, values, |objective|)
    ensures r.0.None? ==> r.1.None?
    ensures r.0.None? <==> forall k | 0 <= k < |objective| :: objective[k] >= 0.0
    ensures r.0.Some? ==> r.0.value < |objective| && objective[r.0.value] < 0.0
                          && forall k | 0 <= k < r.0.value :: objective[k] >= 0.0
    ensures r.1.Some? ==> r.0.Some? && r.1.value < |rows| && Candidate(rows, r.0.value, r.1.value)
    ensures r.1.Some? ==> Ratio(rows, values, r.0.value, r.1.value) < RatioCap
  {
    var column := FirstNegative(objective, 0);
    if column.None? then (None, None)
    else (column, RatioScan(rows, values, column.value, 0, RatioCap, None))
  }

  /** The pivot row has the least ratio of all candidate rows, and is the
      first of them on ties; there is none (the unbounded case) exactly when
      every candidate's ratio reaches `10**16`. */
  lemma {:induction false} FindPivotLeast(objective: Vector, rows: seq<Vector>, values: Vector)
    requires Shaped(rows, values, |objective|)
    ensures var r := FindPivot(objective, rows, values);
      r.1.Some? ==> forall k | 0 <= k < |rows| && Candidate(rows, r.0.value, k) ::
                      Ratio(rows, values, r.0.value, r.1.value) <= Ratio(rows, values, r.0.value, k)
    ensures var r := FindPivot(objective, rows, values);
      r.1.Some? ==> forall k | 0 <= k < r.1.value && Candidate(rows, r.0.value, k) ::
                      Ratio(rows, values, r.0.value, r.1.value) < Ratio(rows, values, r.0.value, k)
    ensures var r := FindPivot(objective, rows, values);
      r.0.Some? && r.1.None? <==>
        r.0.Some? && forall k | 0 <= k < |rows| && Candidate(rows, r.0.value, k) ::
                       Ratio(rows, values, r.0.value, k) >= RatioCap
  {
    var column := FirstNegative(objective, 0);
    if column.Some? {
      RatioScanLeast(rows, values, column.value, 0, RatioCap, None);
    }
  }

  /** `is_solved`: there is neither a pivot column nor a pivot row. */
  predicate IsSolved(t: Tableau)
  {
    t.pivotColumn.None? && t.pivotRow.None?
  }

  /** `is_unbounded`: a pivot column without a pivot row. */
  predicate IsUnbounded(t: Tableau)
  {
    t.pivotColumn.Some? && t.pivotRow.None?
  }

  // ---------------------------------------------------------------------
  // get_solution
  // ---------------------------------------------------------------------

  /** The right-hand side of the LAST row at or after `i` holding a 1 in
      column `j` (each such row overwrites the entry), else `current`. */
  function LastOneValue(rows: seq<Vector>, values: Vector, j: nat, i: nat, current: real): real
    requires |values| == |rows| && forall k | 0 <= k < |rows| :: j < |rows[k]|
    decreases |rows| - i
  {
    if i >= |rows| then current
    else LastOneValue(rows, values, j, i + 1, if rows[i][j] == 1.0 then values[i] else current)
  }

  /** `get_solution`: zero outside the basis, and each basis column takes the
      right-hand side of a row holding its 1. */
  function GetSolution(rows: seq<Vector>, values: Vector, n: nat, basis: seq<nat>): (r: Vector)
    requires Shaped(rows, values, n)
    requires forall k | 0 <= k < |basis| :: basis[k] < n
    ensures |r| == n
    ensures forall j | 0 <= j < n && j !in basis :: r[j] == 0.0
    ensures forall j | 0 <= j < n && j in basis ::
              r[j] == LastOneValue(rows, values, j, 0, 0.0)
  {
    seq(n, j requires 0 <= j < n => if j in basis then LastOneValue(rows, values, j, 0, 0.0) else 0.0)
  }

  // ---------------------------------------------------------------------
  // construction and pivoting
  // ---------------------------------------------------------------------

  /** Completes a tableau after its arrays changed: `find_pivot` and
      `get_solution`. */
  function Refresh(objective: Vector, value: real, rows: seq<Vector>, values: Vector, basis: seq<nat>): (t: Tableau)
    requires Shaped(rows, values, |objective|)
    requires forall k | 0 <= k < |basis| :: basis[k] < |objective|
    ensures Valid(t) && Ready(t)
    ensures t.objective == objective && t.value == value && t.rows == rows && t.values == values
    ensures t.basis == basis
  {
    var p := FindPivot(objective, rows, values);
    Tableau(objective, value, rows, values, basis, p.0, p.1, GetSolution(rows, values, |objective|, basis))
  }

  /** `DegenerateTableau(c, d, A, b)`: objective `c` with value `-d`, the rows
      of `A` with right-hand sides `b`, then `find_basis`, `mend_objective`,
      `find_pivot` and `get_solution`. */
  function Init(c: Vector, d: real, a: seq<Vector>, b: Vector): (t: Tableau)
    requires Shaped(a, b, |c|)
    ensures Valid(t)
    ensures t.rows == a && t.values == b
  {
    var basis := FindBasis(a, |c|, None).columns;
    var mended := Mend(c, -d, a, b, basis);
    Refresh(mended.0, mended.1, a, b, basis)
  }

  /** The eliminated form of one row: unchanged when it equals the
      normalised pivot row `pv`, otherwise `pv` times `k` added to it (the
      source's `k` is minus the row's entry in the pivot column). */
  function EliminateRow(row: Vector, pv: Vector, k: real): (r: Vector)
    requires |row| == |pv|
    ensures |r| == |row|
  {
    if row == pv then row else ShiftRow(row, k, pv)
  }

  /** The right-hand side that goes with `EliminateRow`. */
  function EliminateValue(row: Vector, value: real, pv: Vector, pvalue: real, k: real): real
    requires |row| == |pv|
  {
    if row == pv then value else ShiftValue(value, k, pvalue)
  }

  /** The arrays of a tableau after the elimination part of `pivot`. */
  datatype Eliminated = Eliminated(objective: Vector, value: real, rows: seq<Vector>, values: Vector)

  /** The elimination part of `pivot` on column `c` and row `p`: divide the
      pivot row by its pivot entry, then eliminate column `c` from every other
      row (rows equal to the normalised pivot row are left alone) and from the
      objective. */
  function Eliminate(objective: Vector, value: real, rows: seq<Vector>, values: Vector, c: nat, p: nat): (r: Eliminated)
    requires Shaped(rows, values, |objective|) && c < |objective| && p < |rows|
    requires rows[p][c] != 0.0
    ensures |r.objective| == |objective| && |r.rows| == |rows| && Shaped(r.rows, r.values, |objective|)
    ensures r.rows[p] == Div(rows[p], rows[p][c]) && r.values[p] == values[p] / rows[p][c]
    ensures r.rows[p][c] == 1.0
    ensures forall i | 0 <= i < |rows| && i != p ::
              r.rows[i] == EliminateRow(rows[i], r.rows[p], -rows[i][c])
              && r.values[i] == EliminateValue(rows[i], values[i], r.rows[p], r.values[p], -rows[i][c])
    ensures r.objective == ShiftRow(objective, -objective[c], r.rows[p])
    ensures r.value == ShiftValue(value, -objective[c], r.values[p])
  {
    var divisor := rows[p][c];
    var pv := Div(rows[p], divisor);
    var pvalue := values[p] / divisor;
    DivSelf(divisor);
    var coefficient := -objective[c];
    Eliminated(ShiftRow(objective, coefficient, pv), ShiftValue(value, coefficient, pvalue),
               EliminateRows(rows, c, p, pv), EliminateValues(rows, values, c, p, pv, pvalue))
  }

  /** The rows after elimination: row `p` becomes `pv`, every other row is
      reduced by it. Row `p` already holds `pv` when the elimination loop
      reaches it, so the loop's equality test skips it. */
  function EliminateRows(rows: seq<Vector>, c: nat, p: nat, pv: Vector): (r: seq<Vector>)
    requires p < |rows| && forall i | 0 <= i < |rows| :: |rows[i]| == |pv| && c < |pv|
    ensures |r| == |rows| && r[p] == pv
    ensures forall i | 0 <= i < |rows| :: |r[i]| == |pv|
    ensures forall i | 0 <= i < |rows| && i != p :: r[i] == EliminateRow(rows[i], pv, -rows[i][c])
  {
    seq(|rows|, i requires 0 <= i < |rows| => if i == p then pv else EliminateRow(rows[i], pv, -rows[i][c]))
  }

  /** The right-hand sides that go with `EliminateRows`. */
  function EliminateValues(rows: seq<Vector>, values: Vector, c: nat, p: nat, pv: Vector, pvalue: real): (r: Vector)
    requires p < |rows| == |values| && forall i | 0 <= i < |rows| :: |rows[i]| == |pv| && c < |pv|
    ensures |r| == |rows| && r[p] == pvalue
    ensures forall i | 0 <= i < |rows| && i != p ::
              r[i] == EliminateValue(rows[i], values[i], pv, pvalue, -rows[i][c])
  {
    seq(|rows|, i requires 0 <= i < |rows| =>
      if i == p then pvalue else EliminateValue(rows[i], values[i], pv, pvalue, -rows[i][c]))
  }

  /** `pivot`: the elimination on the recorded pivot, then `find_basis` with
      the pivot column given, `find_pivot` and `get_solution`. */
  function Pivot(t: Tableau): (r: Tableau)
    requires Valid(t) && t.pivotColumn.Some? && t.pivotRow.Some?
    requires t.rows[t.pivotRow.value][t.pivotColumn.value] != 0.0
    ensures Valid(r) && Ready(r) && |r.objective| == |t.objective| && |r.rows| == |t.rows|
    ensures |r.basis| > 0 && r.basis[0] == t.pivotColumn.value
    ensures var e := Eliminate(t.objective, t.value, t.rows, t.values, t.pivotColumn.value, t.pivotRow.value);
      r.objective == e.objective && r.value == e.value && r.rows == e.rows && r.values == e.values
  {
    var c := t.pivotColumn.value;
    var e := Eliminate(t.objective, t.value, t.rows, t.values, c, t.pivotRow.value);
    var basis := FindBasis(e.rows, |e.objective|, Some(c));
    FindBasisSpec(e.rows, |e.objective|, Some(c));
    assert |basis.columns| > 0 && basis.columns[0] == c;
    Refresh(e.objective, e.value, e.rows, e.values, basis.columns)
  }

  /** The pivot recorded in a tableau is the one `find_pivot` chooses for it. */
  predicate Consistent(t: Tableau)
  {
    Valid(t) && (t.pivotColumn, t.pivotRow) == FindPivot(t.objective, t.rows, t.values)
  }

  /** What the pivot loop needs of a tableau: a recorded pivot row comes with
      a column and a positive pivot entry, and no pivot column means no
      negative objective entry. */
  predicate Ready(t: Tableau)
  {
    Valid(t)
    && (t.pivotRow.Some? ==> t.pivotColumn.Some? && t.rows[t.pivotRow.value][t.pivotColumn.value] > 0.0)
    && (t.pivotColumn.None? ==> NonNegative(t.objective))
  }

  /** A tableau whose pivot is the one `find_pivot` chooses is ready. */
  lemma {:induction false} ConsistentReady(t: Tableau)
    requires Consistent(t)
    ensures Ready(t)
  {
  }

  lemma {:induction false} RefreshConsistent(objective: Vector, value: real, rows: seq<Vector>, values: Vector, basis: seq<nat>)
    requires Shaped(rows, values, |objective|)
    requires forall k | 0 <= k < |basis| :: basis[k] < |objective|
    ensures Consistent(Refresh(objective, value, rows, values, basis))
  {
  }

  // ---------------------------------------------------------------------
  // what pivoting and mending preserve
  // ---------------------------------------------------------------------

  /** Given the normalised pivot row's equation, an eliminated row's equation
      holds exactly when the original row's does. */
  lemma {:induction false} EliminateRowEquation(row: Vector, value: real, pv: Vector, pvalue: real, k: real, x: Vector)
    requires |row| == |pv| == |x| && Dot(pv, x) == pvalue
    ensures Dot(EliminateRow(row, pv, k), x) == EliminateValue(row, value, pv, pvalue, k)
            <==> Dot(row, x) == value
  {
    if row != pv {
      ShiftEquation(row, value, pv, pvalue, k, x);
    }
  }

  /** Adding `-a` times something that is 1 to `a` leaves 0. */
  lemma {:induction false} ShiftCancels(a: real, b: real, k: real)
    requires b == 1.0 && k == -a
    ensures ShiftValue(a, k, b) == 0.0
  {
  }

  /** After elimination column `c` is zero in the objective and in every row
      that differs from the normalised pivot row. */
  lemma {:induction false} EliminateClearsColumn(objective: Vector, value: real, rows: seq<Vector>, values: Vector, c: nat, p: nat)
    requires Shaped(rows, values, |objective|) && c < |objective| && p < |rows|
    requires rows[p][c] != 0.0
    ensures var e := Eliminate(objective, value, rows, values, c, p);
      e.objective[c] == 0.0 && forall i | 0 <= i < |rows| && e.rows[i] != e.rows[p] :: e.rows[i][c] == 0.0
  {
    var e := Eliminate(objective, value, rows, values, c, p);
    var pv := e.rows[p];
    assert pv[c] == 1.0;
    assert e.objective[c] == ShiftValue(objective[c], -objective[c], pv[c]);
    ShiftCancels(objective[c], pv[c], -objective[c]);
    forall i | 0 <= i < |rows| && e.rows[i] != pv
      ensures e.rows[i][c] == 0.0
    {
      assert i != p && rows[i] != pv;
      assert e.rows[i] == ShiftRow(rows[i], -rows[i][c], pv);
      assert e.rows[i][c] == ShiftValue(rows[i][c], -rows[i][c], pv[c]);
      ShiftCancels(rows[i][c], pv[c], -rows[i][c]);
    }
  }

  /** Elimination keeps the solutions of the equation system, in both
      directions. */
  lemma {:induction false} EliminatePreservesSolutions(objective: Vector, value: real, rows: seq<Vector>, values: Vector,
                                    c: nat, p: nat, x: Vector)
    requires Shaped(rows, values, |objective|) && c < |objective| && p < |rows|
    requires rows[p][c] != 0.0 && |x| == |objective|
    ensures var e := Eliminate(objective, value, rows, values, c, p);
      Satisfies(rows, values, x) <==> Satisfies(e.rows, e.values, x)
  {
    var e := Eliminate(objective, value, rows, values, c, p);
    DivEquation(rows[p], values[p], rows[p][c], x);
    EliminatedEquations(rows, values, e.rows, e.values, c, p, x);
  }

  /** The row-by-row argument behind `EliminatePreservesSolutions`, for any
      system shaped like an elimination's result whose pivot equation holds
      exactly when the original one does. */
  lemma {:induction false} EliminatedEquations(rows: seq<Vector>, values: Vector, rows': seq<Vector>, values': Vector,
                            c: nat, p: nat, x: Vector)
    requires Shaped(rows, values, |x|) && Shaped(rows', values', |x|) && |rows'| == |rows|
    requires c < |x| && p < |rows|
    requires forall i | 0 <= i < |rows| && i != p ::
               rows'[i] == EliminateRow(rows[i], rows'[p], -rows[i][c])
               && values'[i] == EliminateValue(rows[i], values[i], rows'[p], values'[p], -rows[i][c])
    requires Dot(rows'[p], x) == values'[p] <==> Dot(rows[p], x) == values[p]
    ensures Satisfies(rows, values, x) <==> Satisfies(rows', values', x)
  {
    var pv, pvalue := rows'[p], values'[p];
    if Dot(pv, x) == pvalue {
      forall i | 0 <= i < |rows|
        ensures Dot(rows'[i], x) == values'[i] <==> Dot(rows[i], x) == values[i]
      {
        if i != p {
          EliminateRowEquation(rows[i], values[i], pv, pvalue, -rows[i][c], x);
        }
      }
      SameEquations(rows, values, rows', values', x);
    } else {
      assert !Satisfies(rows', values', x);
      assert !Satisfies(rows, values, x);
    }
  }

  /** Two systems whose equations hold on `x` row by row together agree on
      whether `x` solves them. */
  lemma {:induction false} SameEquations(rows: seq<Vector>, values: Vector, rows': seq<Vector>, values': Vector, x: Vector)
    requires Shaped(rows, values, |x|) && Shaped(rows', values', |x|) && |rows| == |rows'|
    requires forall i | 0 <= i < |rows| :: Dot(rows'[i], x) == values'[i] <==> Dot(rows[i], x) == values[i]
    ensures Satisfies(rows, values, x) <==> Satisfies(rows', values', x)
  {
  }

  /** Elimination keeps `objective . x - value` on the solutions. */
  lemma {:induction false} EliminatePreservesMeasure(objective: Vector, value: real, rows: seq<Vector>, values: Vector,
                                  c: nat, p: nat, x: Vector)
    requires Shaped(rows, values, |objective|) && c < |objective| && p < |rows|
    requires rows[p][c] != 0.0 && |x| == |objective| && Satisfies(rows, values, x)
    ensures var e := Eliminate(objective, value, rows, values, c, p);
      Measure(e.objective, e.value, x) == Measure(objective, value, x)
  {
    var e := Eliminate(objective, value, rows, values, c, p);
    DivEquation(rows[p], values[p], rows[p][c], x);
    ShiftDifference(objective, value, e.rows[p], e.values[p], -objective[c], x);
  }

  /** A pivot step keeps the solutions of the equation system, in both
      directions, and keeps `objective . x - value` on them. */
  lemma {:induction false} PivotPreservesSolutions(t: Tableau, x: Vector)
    requires Valid(t) && t.pivotColumn.Some? && t.pivotRow.Some?
    requires t.rows[t.pivotRow.value][t.pivotColumn.value] != 0.0
    requires |x| == |t.objective|
    ensures Satisfies(t.rows, t.values, x) <==> Satisfies(Pivot(t).rows, Pivot(t).values, x)
    ensures Satisfies(t.rows, t.values, x) ==>
              Measure(Pivot(t).objective, Pivot(t).value, x) == Measure(t.objective, t.value, x)
  {
    EliminatePreservesSolutions(t.objective, t.value, t.rows, t.values, t.pivotColumn.value, t.pivotRow.value, x);
    if Satisfies(t.rows, t.values, x) {
      EliminatePreservesMeasure(t.objective, t.value, t.rows, t.values, t.pivotColumn.value, t.pivotRow.value, x);
    }
  }

  /** Column `i` holds a 1 in some row. */
  predicate ColumnHasOne(rows: seq<Vector>, i: nat)
    requires forall k | 0 <= k < |rows| :: i < |rows[k]|
  {
    exists k | 0 <= k < |rows| :: rows[k][i] == 1.0
  }

  /** When the row it subtracts holds a 1 in column `i`, a mending pass is a
      plain row operation: zeroing the entry changes nothing. */
  lemma {:induction false} MendStepForm(objective: Vector, value: real, rows: seq<Vector>, values: Vector, i: nat)
    requires Shaped(rows, values, |objective|) && i < |objective| && |rows| > 0
    requires objective[i] != 0.0 && rows[MendRow(rows, i, 0)][i] == 1.0
    ensures var j := MendRow(rows, i, 0);
      MendStep(objective, value, rows, values, i)
        == (ShiftRow(objective, -objective[i], rows[j]), ShiftValue(value, -objective[i], values[j]))
  {
    var j := MendRow(rows, i, 0);
    var shifted := ShiftRow(objective, -objective[i], rows[j]);
    ShiftCancels(objective[i], rows[j][i], -objective[i]);
    assert shifted[i := 0.0] == shifted;
  }

  /** One pass of `mend_objective` keeps `objective . x - value` on the
      solutions, when the column has the 1 the pass looks for. */
  lemma {:induction false} MendStepPreservesMeasure(objective: Vector, value: real, rows: seq<Vector>, values: Vector, i: nat, x: Vector)
    requires Shaped(rows, values, |objective|) && i < |objective| && |rows| > 0
    requires |x| == |objective| && Satisfies(rows, values, x)
    requires ColumnHasOne(rows, i)
    ensures var r := MendStep(objective, value, rows, values, i);
      Measure(r.0, r.1, x) == Measure(objective, value, x)
  {
    if objective[i] != 0.0 {
      var j := MendRow(rows, i, 0);
      assert rows[j][i] == 1.0;
      MendStepForm(objective, value, rows, values, i);
      assert Dot(rows[j], x) == values[j];
      ShiftDifference(objective, value, rows[j], values[j], -objective[i], x);
    }
  }

  /** `mend_objective` keeps `objective . x - value` on the solutions, when
      every basis column holds a 1. */
  lemma {:induction false} MendPreservesMeasure(objective: Vector, value: real, rows: seq<Vector>, values: Vector,
                                                basis: seq<nat>, x: Vector)
    requires Shaped(rows, values, |objective|) && |rows| > 0
    requires forall k | 0 <= k < |basis| :: basis[k] < |objective| && ColumnHasOne(rows, basis[k])
    requires |x| == |objective| && Satisfies(rows, values, x)
    ensures var r := Mend(objective, value, rows, values, basis);
      Measure(r.0, r.1, x) == Measure(objective, value, x)
  {
    if |basis| > 0 {
      MendPreservesMeasure(objective, value, rows, values, basis[..|basis| - 1], x);
      var s := Mend(objective, value, rows, values, basis[..|basis| - 1]);
      MendStepPreservesMeasure(s.0, s.1, rows, values, basis[|basis| - 1], x);
    }
  }

  /** Column `j` is the unit vector with its 1 in row `p`. */
  predicate UnitColumn(rows: seq<Vector>, j: nat, p: nat)
    requires forall k | 0 <= k < |rows| :: j < |rows[k]|
  {
    p < |rows| && forall k | 0 <= k < |rows| :: rows[k][j] == if k == p then 1.0 else 0.0
  }

  /** The basis columns are unit columns owned by distinct rows. */
  predicate IdentityBasis(rows: seq<Vector>, n: nat, basis: seq<nat>, owner: seq<nat>)
    requires forall k | 0 <= k < |rows| :: |rows[k]| == n
  {
    |owner| == |basis| && Distinct(owner)
    && forall k | 0 <= k < |basis| :: basis[k] < n && UnitColumn(rows, basis[k], owner[k])
  }

  /** With a basis of unit columns owned by distinct rows, mending leaves a
      zero objective entry in every basis column. */
  lemma {:induction false} MendZeroesBasis(objective: Vector, value: real, rows: seq<Vector>, values: Vector,
                                           basis: seq<nat>, owner: seq<nat>)
    requires Shaped(rows, values, |objective|) && |rows| > 0
    requires IdentityBasis(rows, |objective|, basis, owner)
    ensures forall k | 0 <= k < |basis| :: Mend(objective, value, rows, values, basis).0[basis[k]] == 0.0
  {
    if |basis| > 0 {
      var last := |basis| - 1;
      var pre, preOwner := basis[..last], owner[..last];
      assert IdentityBasis(rows, |objective|, pre, preOwner) by {
        assert forall p, q | 0 <= p < q < |preOwner| :: preOwner[p] == owner[p] && preOwner[q] == owner[q];
      }
      MendZeroesBasis(objective, value, rows, values, pre, preOwner);
      var s := Mend(objective, value, rows, values, pre);
      var i := basis[last];
      var j := MendRow(rows, i, 0);
      var o := owner[last];
      assert UnitColumn(rows, i, o);
      assert rows[o][i] == 1.0;
      assert rows[j][i] == 1.0;
      assert j == o;
      forall k | 0 <= k < last
        ensures MendStep(s.0, s.1, rows, values, i).0[basis[k]] == 0.0
      {
        assert s.0[basis[k]] == 0.0;
        if basis[k] != i && s.0[i] != 0.0 {
          assert UnitColumn(rows, basis[k], owner[k]);
          assert owner[k] != o;
          assert rows[j][basis[k]] == 0.0;
          ShiftZero(s.0[basis[k]], -s.0[i], rows[j][basis[k]]);
        }
      }
    }
  }

  /** Adding a multiple of 0 to 0 leaves 0. */
  lemma {:induction false} ShiftZero(a: real, k: real, b: real)
    requires a == 0.0 && b == 0.0
    ensures ShiftValue(a, k, b) == 0.0
  {
  }

  /** The scan of `get_solution` over a unit column owned by row `p`: from
      any row up to `p` it ends at `p`'s right-hand side, and past `p` it
      keeps what it had. */
  lemma {:induction false} LastOneOfUnit(rows: seq<Vector>, values: Vector, j: nat, p: nat, i: nat, current: real)
    requires |values| == |rows| && forall k | 0 <= k < |rows| :: j < |rows[k]|
    requires UnitColumn(rows, j, p)
    ensures LastOneValue(rows, values, j, i, current) == if i <= p then values[p] else current
    decreases |rows| - i
  {
    if i < |rows| {
      LastOneOfUnit(rows, values, j, p, i + 1, if rows[i][j] == 1.0 then values[i] else current);
    }
  }

  /** On a basis of unit columns owned by distinct rows, `get_solution` gives
      each basis column its owner row's right-hand side. */
  lemma {:induction false} BasicSolutionEntries(rows: seq<Vector>, values: Vector, n: nat, basis: seq<nat>, owner: seq<nat>)
    requires Shaped(rows, values, n)
    requires IdentityBasis(rows, n, basis, owner)
    ensures forall k | 0 <= k < |basis| :: GetSolution(rows, values, n, basis)[basis[k]] == values[owner[k]]
  {
    forall k | 0 <= k < |basis|
      ensures GetSolution(rows, values, n, basis)[basis[k]] == values[owner[k]]
    {
      LastOneOfUnit(rows, values, basis[k], owner[k], 0, 0.0);
    }
  }

  /** A term of row `i` against a point that is zero outside the basis
      vanishes unless its column is a basis column owned by row `i`. */
  lemma {:induction false} BasicTerm(rows: seq<Vector>, n: nat, basis: seq<nat>, owner: seq<nat>, i: nat, j: nat, x: Vector)
    requires forall k | 0 <= k < |rows| :: |rows[k]| == n
    requires IdentityBasis(rows, n, basis, owner)
    requires i < |rows| && j < n == |x|
    requires j !in basis ==> x[j] == 0.0
    requires forall m | 0 <= m < |basis| && basis[m] == j :: owner[m] != i
    ensures rows[i][j] * x[j] == 0.0
  {
    if j in basis {
      var m :| 0 <= m < |basis| && basis[m] == j;
      assert UnitColumn(rows, j, owner[m]);
    }
  }

  /** Row `i` against a point that is zero outside the basis and holds, in
      each basis column, its owner row's right-hand side. */
  lemma {:induction false} BasicDot(rows: seq<Vector>, values: Vector, n: nat, basis: seq<nat>,
                                    owner: seq<nat>, i: nat, x: Vector)
    requires Shaped(rows, values, n)
    requires IdentityBasis(rows, n, basis, owner)
    requires i < |rows| && |x| == n
    requires forall j | 0 <= j < n && j !in basis :: x[j] == 0.0
    requires forall k | 0 <= k < |basis| :: x[basis[k]] == values[owner[k]]
    ensures Dot(rows[i], x) == if i in owner then values[i] else 0.0
  {
    if i in owner {
      var k :| 0 <= k < |owner| && owner[k] == i;
      var p := basis[k];
      assert UnitColumn(rows, p, i);
      forall j | 0 <= j < n && j != p
        ensures rows[i][j] * x[j] == 0.0
      {
        forall m | 0 <= m < |basis| && basis[m] == j
          ensures owner[m] != i
        {
          assert m != k;
        }
        BasicTerm(rows, n, basis, owner, i, j, x);
      }
      DotOneTerm(rows[i], x, p);
    } else {
      forall j | 0 <= j < n
        ensures rows[i][j] * x[j] == 0.0
      {
        BasicTerm(rows, n, basis, owner, i, j, x);
      }
      DotTermsZero(rows[i], x);
    }
  }

  /** The basic solution against one constraint row: on a basis of unit
      columns owned by distinct rows, row `i` is solved when some basis column
      is owned by it, and evaluates to 0 otherwise. */
  lemma {:induction false} GetSolutionRowDot(rows: seq<Vector>, values: Vector, n: nat, basis: seq<nat>,
                                             owner: seq<nat>, i: nat)
    requires Shaped(rows, values, n)
    requires IdentityBasis(rows, n, basis, owner)
    requires i < |rows|
    ensures Dot(rows[i], GetSolution(rows, values, n, basis)) == if i in owner then values[i] else 0.0
  {
    BasicSolutionEntries(rows, values, n, basis, owner);
    BasicDot(rows, values, n, basis, owner, i, GetSolution(rows, values, n, basis));
  }

  /** When the basis owns every row, the basic solution solves the whole
      constraint system. */
  lemma {:induction false} GetSolutionSolves(rows: seq<Vector>, values: Vector, n: nat, basis: seq<nat>, owner: seq<nat>)
    requires Shaped(rows, values, n)
    requires IdentityBasis(rows, n, basis, owner)
    requires forall i | 0 <= i < |rows| :: i in owner
    ensures Satisfies(rows, values, GetSolution(rows, values, n, basis))
  {
    forall i | 0 <= i < |rows|
      ensures Dot(rows[i], GetSolution(rows, values, n, basis)) == values[i]
    {
      GetSolutionRowDot(rows, values, n, basis, owner, i);
    }
  }

  // ---------------------------------------------------------------------
  // solve_kirky
  // ---------------------------------------------------------------------

  /** Every row of `e` has the length of the first. */
  predicate Matrix(e: seq<Vector>)
  {
    forall i | 0 <= i < |e| :: |e[i]| == |e[0]|
  }

  /** The phase-I constraint rows: each row of `E` extended by a 0 for the
      slack column and an identity block, then the sum row `[1..1, -1]`
      with its identity entry. */
  function PhaseRows(e: seq<Vector>, n: nat): (r: seq<Vector>)
    requires forall i | 0 <= i < |e| :: |e[i]| == n
    ensures |r| == |e| + 1
    ensures forall i | 0 <= i < |e| :: r[i] == e[i] + [0.0] + Unit(|e| + 1, i)
    ensures r[|e|] == Ones(n) + [-1.0] + Unit(|e| + 1, |e|)
    ensures forall i | 0 <= i < |r| :: |r[i]| == n + 1 + |e| + 1
  {
    var m := |e| + 1;
    seq(m, i requires 0 <= i < m =>
          (if i < |e| then e[i] + [0.0] else Ones(n) + [-1.0]) + Unit(m, i))
  }

  /** The phase-I right-hand sides: zeros, then 1 for the sum row. */
  function PhaseValues(m: nat): (r: Vector)
    ensures |r| == m + 1 && r[m] == 1.0
    ensures forall i | 0 <= i < m :: r[i] == 0.0
  {
    Zeros(m) + [1.0]
  }

  /** The phase-I objective: zero on the weights and the slack, one on every
      auxiliary column. */
  function PhaseObjective(n: nat, m: nat): (r: Vector)
    ensures |r| == n + 1 + m
    ensures forall k | 0 <= k < n + 1 :: r[k] == 0.0
    ensures forall k | n + 1 <= k < n + 1 + m :: r[k] == 1.0
  {
    Zeros(n + 1) + Ones(m)
  }

  /** The tableau `solve_kirky` starts from. */
  function PhaseOne(e: seq<Vector>): (t: Tableau)
    requires |e| > 0 && Matrix(e)
    ensures Consistent(t) && Ready(t)
    ensures |t.objective| == |e[0]| + 1 + |e| + 1
  {
    var n := |e[0]|;
    var t := Init(PhaseObjective(n, |e| + 1), 0.0, PhaseRows(e, n), PhaseValues(|e|));
    RefreshConsistent(t.objective, t.value, t.rows, t.values, t.basis);
    t
  }

  /** The `while not tabby.is_solved(): tabby.pivot()` loop, with fuel;
      pivoting an unbounded tableau fails on the missing pivot row. */
  function Run(t: Tableau, fuel: nat): (r: Result<Tableau>)
    requires Ready(t)
    ensures r.Ok? ==> Ready(r.value) && IsSolved(r.value)
    ensures r.Ok? ==> |r.value.objective| == |t.objective| && |r.value.rows| == |t.rows|
    ensures r.Fail? ==> r.error == TypeError || r.error == OutOfFuel
    ensures r.Ok? ==> forall x | |x| == |t.objective| :: SamePoint(t, r.value, x)
    decreases fuel
  {
    if IsSolved(t) then Ok(t)
    else if t.pivotRow.None? then Fail(TypeError)
    else if fuel == 0 then Fail(OutOfFuel)
    else
      PivotSame(t);
      var r := Run(Pivot(t), fuel - 1);
      if r.Ok? then
        SameTrans(t, Pivot(t), r.value);
        r
      else r
  }

  /** `solve_kirky(E)`: `None` when phase I ends with a non-zero objective
      value, otherwise the first `len(E[0])` entries of the final solution.
      An empty `E` fails on `E[0]`. */
  function SolveKirky(e: seq<Vector>, fuel: nat): (r: Result<Option<Vector>>)
    requires Matrix(e)
    ensures |e| == 0 ==> r == Fail(IndexError)
    ensures r.Ok? ==> |e| > 0 && Run(PhaseOne(e), fuel).Ok?
    ensures r.Ok? ==> (r.value.None? <==> Run(PhaseOne(e), fuel).value.value != 0.0)
    ensures r.Ok? && r.value.Some? ==> |r.value.value| == |e[0]|
                                       && r.value.value == Run(PhaseOne(e), fuel).value.solution[..|e[0]|]
  {
    if |e| == 0 then Fail(IndexError)
    else
      match Run(PhaseOne(e), fuel)
      case Fail(err) => Fail(err)
      case Ok(t) =>
        if t.value != 0.0 then Ok(None)
        else
          assert |t.solution| == |t.objective|;
          Ok(Some(t.solution[..|e[0]|]))
  }

  // ---------------------------------------------------------------------
  // soundness of the phase-I verdict
  // ---------------------------------------------------------------------

  /** The tableau `Init` builds keeps `c . x + d` on the solutions of the
      constraints: every basis column `find_basis` picks holds a 1, so every
      mending pass is a row operation. */
  lemma {:induction false} InitPreservesMeasure(c: Vector, d: real, a: seq<Vector>, b: Vector, x: Vector)
    requires Shaped(a, b, |c|) && |x| == |c| && Satisfies(a, b, x)
    ensures Measure(Init(c, d, a, b).objective, Init(c, d, a, b).value, x) == Measure(c, -d, x)
  {
    if |a| > 0 {
      var basis := FindBasis(a, |c|, None).columns;
      var mended := Mend(c, -d, a, b, basis);
      assert Init(c, d, a, b).objective == mended.0 && Init(c, d, a, b).value == mended.1;
      BasisColumnsHaveOne(a, |c|);
      MendPreservesMeasure(c, -d, a, b, basis, x);
    }
  }

  /** Every column `find_basis` picks without a given column holds a 1. */
  lemma {:induction false} BasisColumnsHaveOne(a: seq<Vector>, n: nat)
    requires forall k | 0 <= k < |a| :: |a[k]| == n
    ensures var basis := FindBasis(a, n, None).columns;
      forall k | 0 <= k < |basis| :: basis[k] < n && ColumnHasOne(a, basis[k])
  {
    var basis := FindBasis(a, n, None);
    FindBasisSpec(a, n, None);
    forall k | 0 <= k < |basis.columns|
      ensures basis.columns[k] < n && ColumnHasOne(a, basis.columns[k])
    {
      assert UnitOver(a, basis.columns[k], basis.claimed[..k], basis.claimed[k]);
    }
  }

  /** On a solved tableau every objective entry is non-negative, so on the
      non-negative solutions `objective . x - value` is at least `-value`. */
  lemma {:induction false} SolvedMeasureBound(t: Tableau, x: Vector)
    requires Ready(t) && IsSolved(t) && |x| == |t.objective| && NonNegative(x)
    ensures Measure(t.objective, t.value, x) >= -t.value
  {
    DotNonNegative(t.objective, x);
  }

  /** A feasible point of the problem `solve_kirky` decides: non-negative
      weights `w` with `E w == 0` whose sum exceeds the slack `s >= 0` by
      exactly 1. */
  predicate Feasible(e: seq<Vector>, w: Vector, s: real)
    requires forall i | 0 <= i < |e| :: |e[i]| == |w|
  {
    NonNegative(w) && s >= 0.0 && Sum(w) - s == 1.0
    && forall i | 0 <= i < |e| :: Dot(e[i], w) == 0.0
  }

  /** A feasible point extended with zero auxiliary variables solves the
      phase-I system, is non-negative, and has phase-I objective 0. */
  lemma {:induction false} PhaseSolution(e: seq<Vector>, w: Vector, s: real)
    requires |e| > 0 && Matrix(e) && |w| == |e[0]| && Feasible(e, w, s)
    ensures var x := w + [s] + Zeros(|e| + 1);
      && |x| == |PhaseObjective(|w|, |e| + 1)|
      && Satisfies(PhaseRows(e, |w|), PhaseValues(|e|), x)
      && NonNegative(x)
      && Measure(PhaseObjective(|w|, |e| + 1), 0.0, x) == 0.0
  {
    var n, m := |w|, |e| + 1;
    var x := w + [s] + Zeros(m);
    var rows, values := PhaseRows(e, n), PhaseValues(|e|);
    forall i | 0 <= i < m
      ensures Dot(rows[i], x) == values[i]
    {
      DotZero(Unit(m, i), Zeros(m));
      if i < |e| {
        DotConcat(e[i] + [0.0], Unit(m, i), w + [s], Zeros(m));
        DotConcat(e[i], [0.0], w, [s]);
      } else {
        DotConcat(Ones(n) + [-1.0], Unit(m, i), w + [s], Zeros(m));
        DotConcat(Ones(n), [-1.0], w, [s]);
        OnesDot(w);
      }
    }
    DotConcat(Zeros(n + 1), Ones(m), w + [s], Zeros(m));
    ZerosDot(w + [s]);
    DotZero(Ones(m), Zeros(m));
  }

  /** Soundness of the phase-I verdict: when the problem has a feasible
      point, a run that ends solved ends with a non-negative objective value.
      So a negative final value, on which `solve_kirky` returns `None`,
      means there is no feasible point. */
  lemma {:induction false} FeasibleKeepsValueNonNegative(e: seq<Vector>, fuel: nat, w: Vector, s: real)
    requires |e| > 0 && Matrix(e) && |w| == |e[0]| && Feasible(e, w, s)
    requires Run(PhaseOne(e), fuel).Ok?
    ensures Run(PhaseOne(e), fuel).value.value >= 0.0
  {
    var n, m := |w|, |e| + 1;
    var x := w + [s] + Zeros(m);
    PhaseSolution(e, w, s);
    var t := PhaseOne(e);
    InitPreservesMeasure(PhaseObjective(n, m), 0.0, PhaseRows(e, n), PhaseValues(|e|), x);
    assert SamePoint(t, Run(t, fuel).value, x);
    SolvedMeasureBound(Run(t, fuel).value, x);
  }

  /** `solve_kirky` returns `None` after a negative final objective value
      only when the problem has no feasible point. */
  lemma {:induction false} SolveKirkyNoneSound(e: seq<Vector>, fuel: nat, w: Vector, s: real)
    requires Matrix(e) && SolveKirky(e, fuel) == Ok(None)
    requires Run(PhaseOne(e), fuel).value.value < 0.0
    requires |w| == |e[0]|
    ensures !Feasible(e, w, s)
  {
    if Feasible(e, w, s) {
      FeasibleKeepsValueNonNegative(e, fuel, w, s);
    }
  }

  predicate SamePoint(a: Tableau, b: Tableau, x: Vector)
    requires Valid(a) && Valid(b) && |a.objective| == |b.objective| == |x|
  {
    (Satisfies(a.rows, a.values, x) <==> Satisfies(b.rows, b.values, x))
    && (Satisfies(a.rows, a.values, x) ==> Measure(b.objective, b.value, x) == Measure(a.objective, a.value, x))
  }

  lemma {:induction false} PivotSame(t: Tableau)
    requires Valid(t) && t.pivotColumn.Some? && t.pivotRow.Some?
    requires t.rows[t.pivotRow.value][t.pivotColumn.value] != 0.0
    ensures forall x | |x| == |t.objective| :: SamePoint(t, Pivot(t), x)
  {
    forall x | |x| == |t.objective|
      ensures SamePoint(t, Pivot(t), x)
    {
      PivotPreservesSolutions(t, x);
    }
  }

  lemma {:induction false} SameTrans(a: Tableau, b: Tableau, c: Tableau)
    requires Valid(a) && Valid(b) && Valid(c) && |a.objective| == |b.objective| == |c.objective|
    requires forall x | |x| == |a.objective| :: SamePoint(a, b, x)
    requires forall x | |x| == |a.objective| :: SamePoint(b, c, x)
    ensures forall x | |x| == |a.objective| :: SamePoint(a, c, x)
  {
    forall x | |x| == |a.objective|
      ensures SamePoint(a, c, x)
    {
      assert SamePoint(a, b, x) && SamePoint(b, c, x);
    }
  }
}
