# kirky in Dafny

kirky searches for a Kirchhoff graph: a positively weighted directed lattice
graph whose vertex conservation equations are forced by a given rational
matrix. It builds a growable lattice of edges from the matrix, derives one
linear equation per vertex and dependent vector, and asks an exact simplex
(or a nullspace solver) whether a positive weighting exists, growing the
lattice along one dimension at a time until one does.

This project models the core of that pipeline as pure Dafny functions and
methods over immutable datatypes, one module per source file:

- `DegenerateTableau`, `Tableau`, `TableauSpark`: the three exact simplex
  tableaux and the phase-I feasibility driver `solve_kirky`. These cover
  the unit-column basis search, objective mending, Bland's-rule pivot
  selection, pivot elimination, solution extraction and the
  solved/unbounded predicates. The Spark tableau's distributed collection
  is a plain sequence.
- `Edges`, `Vertices`, `Symbolic`, `Blocks`: the lattice data structures of
  `kirky/edge.py`, `kirky/vertex.py` and `kirky/symbolic.py`. These are the
  edge pool with its dense id counter and retraction, vertex cut slots, the
  bucketed index and `GetVertex`, the node web with its id and key counters,
  and lock, unlock and roll-back bookkeeping. A node graph is a sequence of
  nodes referring to each other by id.
- `BlockCreation`: `createBaseBlock` and `createInteriorBlock`.
- `Kirchhoff`, `KirchhoffSystem`, `KirchhoffEdges`: the driver class of
  `kirky/__init__.py`. This covers `Grow`, `LockZeroes`, the full and
  edge-only linear systems with their row counts, the incidence matrix and
  the `Find` loop.
- `BlockLattice` and `BlockAsWritten`: the alternative lattice of
  `kirky/block.py`, as intended and as written.
- `NewKirky`: the driver of `kirky/new_kirky.py`, with its linear system
  over edge pins.
- `BlockQ`: the frame of `block_q.py`, with mixed-radix vertex enumeration,
  bounds and expansion.
- `Splitter`, `Helpers`, `Vectors`: the splitting programs of
  `kirky/splitter.py`, the LCM fold of `common_denominator`, and the exact
  vector algebra shared by the tableaux.

Python `Fraction` values are Dafny `real`. Lattice positions are integer
sequences, because every construction moves by integer amounts. A Python
exception is a `Fail` of the `Wrappers.Error` datatype, named after the
exception it models. An operation that mutates its receiver returns the
new state.

Foreign calls are parameters:
- the sympy nullspace (`Kirchhoff.Nullspace`);
- `positive_nullspace_vector` (`solve` of `NewKirky.Find`);
- the `Simplex` that `kirky/splitter.py` imports (`Splitter.Solver`).

Loops that the source runs without bound take a `fuel` argument and fail
with `OutOfFuel` when it runs out. These are the growth loops, `solve_kirky`'s
pivot loop and the lock cascade.

Where the source as written raises on every input, or computes something
other than its comments and callers evidently intend, the model keeps both
versions. A member that follows the code, with a lemma exhibiting the
difference, sits next to a corrected member that the rest of the model
uses. These pairs are listed under "Findings".

## Model

| member | source | states |
|---|---|---|
| DegenerateTableau.ClaimsColumnSpec | kirky/degenerate_tableau.py:55-71 | `find_basis` takes column `j` with row `r` exactly when, over the rows not yet claimed, the column holds a single 1 (at `r`) and zeros elsewhere |
| DegenerateTableau.ScanColumnSpec | kirky/degenerate_tableau.py:55-68 | the inner scan ends with row `r` exactly when the rows it saw kept `just_one` and the rest of the column completes the unit column at `r` |
| DegenerateTableau.FindBasisSpec | kirky/degenerate_tableau.py:41-71 | a given column comes first with every row holding a 1 in it claimed up front; there are no more columns than rows; the other columns rise, skip the given one, and each is a unit column over the rows unclaimed before it, paired with the row it claims |
| DegenerateTableau.FindBasisClaimsDistinct | kirky/degenerate_tableau.py:41-71 | no row is claimed by two basis columns |
| DegenerateTableau.MendRow | kirky/degenerate_tableau.py:78-80 | the row `mend_objective` uses is the first one holding a 1 in the column, or the last row when none does, because the loop variable keeps its last value |
| DegenerateTableau.MendStep | kirky/degenerate_tableau.py:74-89 | one mending pass zeroes the basis column's objective entry and leaves the objective alone when that entry was already 0 |
| DegenerateTableau.MendStepForm | kirky/degenerate_tableau.py:77-89 | when the chosen row holds a 1, the pass is the row operation "objective minus coefficient times the row", on the value too |
| DegenerateTableau.MendPreservesMeasure | kirky/degenerate_tableau.py:73-89 | `mend_objective` keeps `objective . x - value` on every solution of the constraints when each basis column holds a 1 |
| DegenerateTableau.MendZeroesBasis | kirky/degenerate_tableau.py:73-89 | with basis columns that are unit columns of distinct rows, every basis column ends with a zero objective entry |
| DegenerateTableau.FirstNegative | kirky/degenerate_tableau.py:95-98 | Bland's rule: the first negative objective entry, with every earlier entry non-negative; none only when all are non-negative |
| DegenerateTableau.FindPivot | kirky/degenerate_tableau.py:91-115 | no pivot column exactly when the objective is non-negative; the column is the first negative entry; a pivot row has a positive entry in it and a ratio below `10**16`; no column means no row |
| DegenerateTableau.RatioScanLeast | kirky/degenerate_tableau.py:101-115 | the ratio scan picks the least ratio among the candidate rows, the earliest on ties, and nothing only when every candidate's ratio reaches the running minimum |
| DegenerateTableau.FindPivotLeast | kirky/degenerate_tableau.py:101-115 | the pivot row has the least ratio of all candidate rows and is the first on ties; there is none, with a column, exactly when every candidate's ratio is at least `10**16` |
| DegenerateTableau.GetSolution | kirky/degenerate_tableau.py:117-122 | the solution is 0 outside the basis, and a basis column takes the right-hand side of the last row holding a 1 in it |
| DegenerateTableau.LastOneOfUnit | kirky/degenerate_tableau.py:119-122 | over a unit column owned by row `p`, the scan for a 1 ends at `p`'s right-hand side from any row up to `p` |
| DegenerateTableau.BasicSolutionEntries | kirky/degenerate_tableau.py:117-122 | on a basis of unit columns owned by distinct rows, each basis column of the solution holds its owner row's right-hand side |
| DegenerateTableau.BasicDot | kirky/degenerate_tableau.py:117-122 | a point zero outside the basis and holding each owner's right-hand side solves every owned row and makes every other row 0 |
| DegenerateTableau.GetSolutionRowDot | kirky/degenerate_tableau.py:117-122 | the basic solution solves constraint row `i` when a basis column is owned by it, and makes the row 0 otherwise |
| DegenerateTableau.GetSolutionSolves | kirky/degenerate_tableau.py:117-122 | when the basis owns every row, the basic solution solves the whole constraint system |
| DegenerateTableau.Init | kirky/degenerate_tableau.py:15-39 | the constraints are `A` and `b` as given, and the tableau is well formed |
| DegenerateTableau.InitPreservesMeasure | kirky/degenerate_tableau.py:15-39 | the built tableau's objective row stands for `c . x + d` on every solution of the constraints |
| DegenerateTableau.BasisColumnsHaveOne | kirky/degenerate_tableau.py:41-71 | every column `find_basis` picks without a given column holds a 1, so mending subtracts a real row |
| DegenerateTableau.Eliminate | kirky/degenerate_tableau.py:135-152 | the pivot row is divided by its pivot entry and holds 1 there; every other row equal to it is left alone, every other row and the objective get the pivot row times minus their entry added, values alike |
| DegenerateTableau.EliminateClearsColumn | kirky/degenerate_tableau.py:140-152 | after elimination the pivot column is 0 in the objective and in every row that differs from the pivot row |
| DegenerateTableau.EliminatePreservesSolutions | kirky/degenerate_tableau.py:135-148 | elimination keeps the solutions of the constraint system, in both directions |
| DegenerateTableau.EliminatePreservesMeasure | kirky/degenerate_tableau.py:149-152 | elimination keeps `objective . x - value` on every solution |
| DegenerateTableau.Pivot | kirky/degenerate_tableau.py:134-159 | the result holds the elimination's arrays, its basis starts with the pivot column, and its pivot is the one `find_pivot` chooses |
| DegenerateTableau.PivotPreservesSolutions | kirky/degenerate_tableau.py:134-159 | a pivot keeps the solutions of the constraints in both directions and keeps `objective . x - value` on them |
| DegenerateTableau.PhaseRows | kirky/degenerate_tableau.py:165-182 | each row of `E` gets a 0 for the slack column and its identity entry; the sum row `[1..1, -1]` comes last with its own |
| DegenerateTableau.PhaseValues | kirky/degenerate_tableau.py:172 | zeros for the rows of `E`, then 1 for the sum row |
| DegenerateTableau.PhaseObjective | kirky/degenerate_tableau.py:184 | zero on the weights and the slack, one on every auxiliary column |
| DegenerateTableau.PhaseOne | kirky/degenerate_tableau.py:187 | the phase-I tableau is ready to pivot and has one column per weight, the slack and each auxiliary variable |
| DegenerateTableau.Run | kirky/degenerate_tableau.py:188-189 | a finished loop ends solved, with the same solutions and the same `objective . x - value` on them as the start; an unbounded tableau fails with `TypeError` on the missing pivot row |
| DegenerateTableau.SolveKirky | kirky/degenerate_tableau.py:162-194 | an empty `E` raises `IndexError`; otherwise `None` exactly when the final objective value is not 0, else the first `len(E[0])` entries of the final solution |
| DegenerateTableau.PhaseSolution | kirky/degenerate_tableau.py:165-185 | a non-negative `w` with `E w = 0` and `sum(w) - s = 1` (`s >= 0`), extended by zero auxiliaries, solves the phase-I system with objective 0 |
| DegenerateTableau.SolvedMeasureBound | kirky/degenerate_tableau.py:124-127 | on a solved tableau `objective . x - value >= -value` for every non-negative `x` |
| DegenerateTableau.FeasibleKeepsValueNonNegative | kirky/degenerate_tableau.py:187-190 | when the problem has a feasible point, the final objective value is non-negative |
| DegenerateTableau.SolveKirkyNoneSound | kirky/degenerate_tableau.py:190-191 | `None` after a negative final value means no feasible point exists |
| Tableau.JustOneCounts | kirky/tableau.py:44-52 | the `found_one`/`just_one` flags accept a column exactly when at most one row holds a 1 in it; other entries are never looked at |
| Tableau.BasisLoopSpec | kirky/tableau.py:39-53 | the basis loop appends, in increasing order, the non-given columns that pass the test, and stops when the basis is as long as the row count |
| Tableau.FindBasis | kirky/tableau.py:34-53 | a given column comes first |
| Tableau.FindBasisSpec | kirky/tableau.py:34-53 | after the given column, increasing columns that pass the test, at most one per row; a basis shorter than the row count holds every column that passes |
| Tableau.FindBasisLosesColumnZero | kirky/tableau.py:35 | as written, `if given:` drops a given column 0, and the `j == given` test keeps it out later too |
| Tableau.FindBasisAsWrittenExample | kirky/tableau.py:35-43 | on the one-row system `[1, 0]` after a pivot on column 0, the code's basis is `[1]` where the intended one is `[0]` |
| Tableau.ColumnLoopStuck | kirky/tableau.py:59-67 | once the counter `i` stops on a basis column, `continue` skips its increment and the loop chooses nothing more |
| Tableau.PivotColumnAsWrittenStuck | kirky/tableau.py:57-67 | as written, with column 0 in the basis no pivot column is ever found; on `[0, -1]` with basis `[0]` the intended scan picks column 1 |
| Tableau.ColumnScanSpec | kirky/tableau.py:59-67 | the intended column scan keeps to non-basis negative entries, takes the first in exact mode and otherwise the least, earliest on ties |
| Tableau.PivotColumnSpec | kirky/tableau.py:55-67 | the pivot column is a non-basis column with a negative entry, none exactly when there is no such column; first (exact) or least, earliest on ties (otherwise) |
| Tableau.PivotRowAsWrittenNegative | kirky/tableau.py:72-82 | as written, a row with a negative entry skips the counter's increment, so with rows `[-1]`, `[1]` and right-hand sides `5`, `1` the second row is read against the first right-hand side and recorded as row 0; the intended test picks row 1 |
| Tableau.PivotRow | kirky/tableau.py:71-82 | the intended ratio test only picks a row with a positive entry in the pivot column |
| Tableau.FindPivot | kirky/tableau.py:55-82 | a pivot row comes with a pivot column, the column is a non-basis column with a negative entry, and the row's entry in it is positive |
| Tableau.SolvedUnbounded | kirky/tableau.py:84-92 | solved exactly when no non-basis objective entry is negative; unbounded exactly when there is a pivot column and no candidate row's ratio is below `10**16` |
| Tableau.Init | kirky/tableau.py:13-32 | the objective row is `-c`, the value `d`, the constraints `A` and `b` |
| Tableau.InitObjective | kirky/tableau.py:16 | the fresh objective row measures `-(c . x)` |
| Tableau.PlusAssign | kirky/tableau.py:112 | `+=` on a held number adds; on the list `[d]` it raises `TypeError` |
| Tableau.PivotAsWritten | kirky/tableau.py:94-115 | as written the pivot succeeds exactly when the objective value is held as a number, and raises `TypeError` otherwise |
| Tableau.PivotAsWrittenFails | kirky/tableau.py:18 | on a tableau built as written (value `[d]`) every pivot raises `TypeError`; with the value held as a number it is Pivot |
| Tableau.Pivot | kirky/tableau.py:94-115 | the degenerate tableau's elimination on the recorded pivot, then a basis starting with the pivot column and a fresh pivot |
| Tableau.PivotEffect | kirky/tableau.py:95-111 | after a pivot the pivot row holds 1 in the pivot column, the objective and every row that differs from the pivot row hold 0 there, and the solutions are kept |
| TableauSpark.RowEqIsPrefix | kirky/tableau_spark.py:27-31 | `Row.__eq__` only walks the first row, so it holds exactly when the first row is a prefix of the second, and for rows of one width exactly when they are equal |
| TableauSpark.Ext | kirky/tableau_spark.py:42-48 | the augmented column reads as a `-1` coordinate appended to the point |
| TableauSpark.AugmentedDot | kirky/tableau_spark.py:47 | dotting `A[i] ++ [b[i]]` with the extended point gives `A[i] . x - b[i]` |
| TableauSpark.CombineRows | kirky/tableau_spark.py:140-156 | `there_can_only_be_one` combines two rows entry by entry over the first row's length |
| TableauSpark.TallySpec | kirky/tableau_spark.py:160 | the reduced row is 1 exactly on the columns holding a single 1 and zeros elsewhere, and 0 exactly on the all-zero columns |
| TableauSpark.IsBasisRow | kirky/tableau_spark.py:171-175 | a row is a basis row exactly when it holds a 1 in some basis column |
| TableauSpark.BasisRows | kirky/tableau_spark.py:177 | the filter keeps only constraint rows |
| TableauSpark.FirstWithOne | kirky/tableau_spark.py:182-185 | the inner loop finds a row with a 1 in the column, and none exactly when no row holds a 1 there |
| TableauSpark.BasisRowsKeepFirst | kirky/tableau_spark.py:177-185 | pairing against the filtered rows finds the same row as pairing against all rows |
| TableauSpark.BasisColumnsSpec | kirky/tableau_spark.py:160-167 | the basis columns are increasing, non-augmented, at most one per row, each a single 1 among zeros, and all such columns unless the row count stopped the loop |
| TableauSpark.FindBasisSpec | kirky/tableau_spark.py:124-185 | `basis_dict` pairs every basis column, in order, with the first constraint row holding a 1 there |
| TableauSpark.FindBasisRows | kirky/tableau_spark.py:179-185 | every paired row is a constraint row with a 1 in its column |
| TableauSpark.Prepare | kirky/tableau_spark.py:197-203 | the objective keeps its width, and the column of the last pair ends at zero whenever its row holds a 1 there |
| TableauSpark.PrepareKeepsValue | kirky/tableau_spark.py:201-203 | on every point where the paired rows hold, `prepare` keeps the objective's value |
| TableauSpark.PrepareZeroesBasis | kirky/tableau_spark.py:197-203 | on an identity basis, `prepare` zeroes the objective in every basis column |
| TableauSpark.Candidates | kirky/tableau_spark.py:82 | the candidates are exactly the rows with a positive entry in the pivot column |
| TableauSpark.SelectByRatio | kirky/tableau_spark.py:90-100 | `select_by_ratio` returns one of its rows, no worse than either: smaller ratio, then smaller pivot-column entry |
| TableauSpark.ReduceFromLeast | kirky/tableau_spark.py:102 | the reduce's result is no worse than its start and every row it folds |
| TableauSpark.FindPivot | kirky/tableau_spark.py:65-102 | the pivot column is the first negative non-augmented objective entry; a pivot row is a constraint row positive in it, and there is none exactly when no row is positive there |
| TableauSpark.FindPivotLeast | kirky/tableau_spark.py:87-102 | the pivot row is no worse than any row positive in the pivot column |
| TableauSpark.SolvedUnbounded | kirky/tableau_spark.py:187-195 | solved exactly when no non-augmented objective entry is negative; unbounded exactly when the pivot column has no positive entry |
| TableauSpark.UpdateColumn | kirky/tableau_spark.py:108-115 | an updated row holds 1 in the pivot column when it equals the pivot row and 0 otherwise |
| TableauSpark.Pivot | kirky/tableau_spark.py:104-122 | a pivot keeps the basis and the widths and leaves a ready tableau |
| TableauSpark.PivotClearsColumn | kirky/tableau_spark.py:117-120 | after a pivot the objective holds 0 in the pivot column, rows equal to the pivot row 1, every other row 0 |
| TableauSpark.UpdateHolds | kirky/tableau_spark.py:108-115 | given that the pivot row holds at a point, an updated row holds there exactly when the row did |
| TableauSpark.PivotPreservesSolutions | kirky/tableau_spark.py:104-120 | a pivot keeps the solution set of the rows and the objective's value on it |
| TableauSpark.Augment | kirky/tableau_spark.py:46-48 | the constraint rows are `A[i] ++ [b[i]]` |
| TableauSpark.Init | kirky/tableau_spark.py:40-63 | construction fails with `IndexError` exactly when `A` is empty; otherwise the tableau is ready and has the problem's widths |
| TableauSpark.InitMeaning | kirky/tableau_spark.py:40-56 | the tableau states its problem: a point solves the rows exactly when `A x == b`, and then the objective's value is `c . x + d` |
| TableauSpark.FillSpec | kirky/tableau_spark.py:211-212 | with distinct columns, each paired column gets its row's augmented entry and every other entry is left alone |
| TableauSpark.GetSolutionSpec | kirky/tableau_spark.py:205-212 | the solution holds, in each basis column, the augmented entry of the first row with a 1 there, and 0 elsewhere |
| TableauSpark.Run | kirky/tableau_spark.py:241-242 | a finished run is solved, keeps the widths and the meaning of every point, and fails only by pivoting an unbounded tableau (`TypeError`) or on fuel |
| TableauSpark.PhaseOne | kirky/tableau_spark.py:216-240 | the phase-I tableau is ready, with one column per weight, the slack, one per auxiliary and the augmented column, and one row per row of `E` plus the sum row |
| TableauSpark.SolveKirky | kirky/tableau_spark.py:215-247 | empty `E` raises `IndexError`; `None` exactly when the final augmented objective entry is non-zero; otherwise the first `len(E[0])` entries of the final solution |
| TableauSpark.SolvedValueBound | kirky/tableau_spark.py:187-190 | on a solved tableau and a non-negative point the objective's value is at least minus its augmented entry |
| TableauSpark.RunKeepsFinalNonNegative | kirky/tableau_spark.py:241-242 | a run from a non-negative point of value 0 on which the rows hold ends with a non-negative augmented entry |
| TableauSpark.FeasibleKeepsValueNonNegative | kirky/tableau_spark.py:240-243 | when the problem has a feasible point, a solved run ends with a non-negative augmented objective entry |
| TableauSpark.SolveKirkyNoneSound | kirky/tableau_spark.py:243-244 | `None` after a negative final entry means there is no feasible point |
| Symbolic.CreateNode | kirky/symbolic.py:206-210 | a fresh node with id `next_id` is appended and the counter steps on; nothing else changes |
| Symbolic.RemoveNode | kirky/symbolic.py:212-214 | the last node is popped and the counter steps back; an empty web raises `IndexError` |
| Symbolic.CreateRemove | kirky/symbolic.py:206-214 | removing the node just created gives the web back |
| Symbolic.CreateParentGroup | kirky/symbolic.py:38-52 | a new empty group under the next key with lock count 0, nothing else changed; any parent passed along raises `AttributeError` (`append` on a dictionary) |
| Symbolic.AddChild | kirky/symbolic.py:58-61 | the child is appended under its key, a missing key created first; keys stay distinct and no other list changes |
| Symbolic.AddParent | kirky/symbolic.py:54-56 | the parent is appended to group `key` and this node registered as its child under `key`; a missing key raises `KeyError`; no other node changes |
| Symbolic.AddLock | kirky/symbolic.py:232-234 | the node is appended to the current record, earlier records kept; with no record it raises `IndexError` |
| Symbolic.LockStepGrows | kirky/symbolic.py:131-134 | locking an unlocked node and recording it keeps every earlier lock and record |
| Symbolic.IncLock | kirky/symbolic.py:118 | one child's count for the key goes up by one and nothing else is locked |
| Symbolic.HandleDoubleLock | kirky/symbolic.py:249-250 | the node and the rejected value are appended to the errors, nothing else changes |
| Symbolic.GroupValue | kirky/symbolic.py:68-70 | the weighted sum of a group exists exactly when every parent has a value; otherwise `None` arithmetic raises `TypeError` |
| Symbolic.Scan | kirky/symbolic.py:98-104 | the scan reports an unlocked parent exactly when one was left over or the group has one, and a new one is an unlocked member of the group |
| Symbolic.NodeLock | kirky/symbolic.py:129-155 | locking an unlocked node locks it to the value, records it first, raises its children's counts and only adds locks and records; a locked node is kept on an equal value and reported as a double lock otherwise; with no record it raises `IndexError` |
| Symbolic.FinishLock | kirky/symbolic.py:140-146 | the closing checks only add locks and records |
| Symbolic.NodeLockDown | kirky/symbolic.py:157-168 | as `NodeLock`, for the downward cascade |
| Symbolic.ParentLock | kirky/symbolic.py:65-83 | a parent lock (down or not) leaves the child locked and only adds locks and records |
| Symbolic.UpdateKeys | kirky/symbolic.py:115-127 | every child's count for the key it is listed under is raised, and only locks and records are added |
| Symbolic.UpdateOne | kirky/symbolic.py:117-127 | one child's count goes up; a key the child lacks raises `KeyError` |
| Symbolic.UpdateList | kirky/symbolic.py:117-127 | every listed child's count for the key is raised |
| Symbolic.CheckGroupLocks | kirky/symbolic.py:87-111 | an unlocked node changes nothing; otherwise only locks and records are added |
| Symbolic.CheckGroupsFrom | kirky/symbolic.py:95-111 | the group loop only adds locks and records |
| Symbolic.CheckKeys | kirky/symbolic.py:144-146 | every child's check only adds locks and records |
| Symbolic.DecList | kirky/symbolic.py:179-181 | each listed child's count drops by one per listing and nothing else changes; a missing key raises `KeyError` |
| Symbolic.DecKeys | kirky/symbolic.py:179-181 | every count drops by the number of times the child is listed under that key |
| Symbolic.NodeUnlock | kirky/symbolic.py:170-181 | an unlocked node is left alone; a locked one is unlocked with value 0 and its children's counts lowered once per listing; no other node's lock or value changes |
| Symbolic.UnlockAll | kirky/symbolic.py:241-242 | unlocking a list unlocks exactly the listed nodes and keeps every other value |
| Symbolic.NodeUnlockList | kirky/symbolic.py:170-175 | a successful `Unlock` unlocks exactly that node |
| Symbolic.RollBack | kirky/symbolic.py:236-247 | the errors are cleared, the last record's nodes and its commanded node unlocked, the record dropped and the commanded node returned; with no record it raises `IndexError` |
| Symbolic.Push | kirky/symbolic.py:219-220 | a new record is opened, empty |
| Symbolic.Lock | kirky/symbolic.py:216-222 | a locked node raises the lock error; otherwise a new record names the node and the node is locked with the full cascade |
| Symbolic.LockDown | kirky/symbolic.py:224-230 | as `Lock`, with the downward cascade |
| Symbolic.Unlock | kirky/symbolic.py:252-255 | rolling back every record unlocks every node any record names and leaves no record |
| Symbolic.LockRollBack | kirky/symbolic.py:216-247 | rolling back a `Lock` restores which nodes are locked, the values of those that were locked and the records, and returns the commanded node |
| Vertices.PyMod | kirky/vertex.py:133 | Python's `%` on integers: the remainder lies between 0 and the divisor, on the divisor's side |
| Vertices.PyDivMod | kirky/vertex.py:133-134 | Python's floor quotient and remainder recombine to the dividend |
| Vertices.BucketSpec | kirky/vertex.py:132-135 | `getRange` puts an entry in the bucket `[start, start + range)` with `start = entry - entry % range`, and two entries share a bucket exactly when they have the same floor quotient |
| Vertices.Key | kirky/vertex.py:143-159 | the bucket path of a position exists exactly when the depth is positive, the range non-zero and the position long enough; depth 0 leaves the list unbound |
| Vertices.FindIn | kirky/vertex.py:187-191 | the scan finds an element at the position, and none exactly when no element has it |
| Vertices.GetElement | kirky/vertex.py:168-191 | a lookup fails exactly when the bucket path does, and what it returns has the queried position |
| Vertices.AddElement | kirky/vertex.py:139-166 | an insert fails exactly when the bucket path does, keeps the index's shape, and changes nothing when an element at the position is already there |
| Vertices.GetElementSpec | kirky/vertex.py:168-191 | `GetElement` answers `None` exactly when no stored element has the position, and otherwise returns a stored element |
| Vertices.AddKeepsValid | kirky/vertex.py:139-166 | `AddElement` keeps every element in the bucket of its own position |
| Vertices.AddThenGet | kirky/vertex.py:139-191 | after `AddElement`, `GetElement` returns the added element when none was at its position, and the old one otherwise |
| Vertices.AddKeepsOthers | kirky/vertex.py:139-191 | `AddElement` leaves every other position's answer as it was |
| Vertices.EnsureKey | kirky/vertex.py:62-63 | a slot's group key is created on first use, as the cut node's next group, and reused afterwards |
| Vertices.Attach | kirky/vertex.py:62-66 | the weight joins the slot's group, with only that cut node's groups changed |
| Vertices.AddEdge | kirky/vertex.py:49-83 | a vertex at neither end raises; at the tail the outgoing slot is used with multiplier 1, at the head the incoming slot with multiplier -1; an occupied slot returns False and changes nothing |
| Vertices.ConditionGroup | kirky/vertex.py:236-239 | the parents of dependent entry `i` are the independent entries `j`, weighted by `B[j, i]` |
| Vertices.Independents | kirky/vertex.py:222-225 | the first loop appends fresh vertex nodes and changes no earlier node |
| Vertices.AddParents | kirky/vertex.py:236-239 | the node's one group grows by the parents and no other node's groups change |
| Vertices.AddParentsUnchanged | kirky/vertex.py:236-239 | adding parents changes no node's kind, lock, value or lock counts |
| Vertices.GroupedNode | kirky/vertex.py:230-234 | a fresh vertex node with one empty parent group |
| Vertices.Dependent | kirky/vertex.py:229-240 | one round of the second loop appends one node |
| Vertices.DependentFacts | kirky/vertex.py:229-240 | the round's node has column `i` of the condition block as its only group, and earlier nodes change at most in their children |
| Vertices.Dependents | kirky/vertex.py:229-240 | every dependent node has its column as its only group |
| Vertices.CutWeb | kirky/vertex.py:217-242 | `createCut` appends one node per dimension and one per column, each dependent node grouped by its column over the first nodes |
| Vertices.CreateCut | kirky/vertex.py:217-242 | the cut is the new nodes, numbered in creation order |
| Vertices.CutWebIndependents | kirky/vertex.py:221-225 | the cut's first nodes are unlocked vertex nodes without parents |
| Vertices.NewPool | kirky/vertex.py:198-215 | a new pool has no vertices, an empty index over all coordinates, an empty web and sizes zero |
| Vertices.DistinctPositions | kirky/vertex.py:245-249 | two vertices of a pool never share a position |
| Vertices.UpdateSize | kirky/vertex.py:264-266 | each size becomes the larger of itself and the coordinate; a position longer than the dimension raises |
| Vertices.FreshVertex | kirky/vertex.py:252-259 | a new vertex has its cut, no group keys and `[None, None]` in every edge slot |
| Vertices.AddVertex | kirky/vertex.py:252-267 | the new vertex is appended with a cut of `cut_size` fresh nodes and the sizes are raised |
| Vertices.GetVertex | kirky/vertex.py:245-269 | the result is the pool's vertex at that position, the pool stays valid, and it fails exactly when the position cannot be indexed |
| Vertices.GetVertexFound | kirky/vertex.py:268-269 | a position some vertex has gives that vertex with the pool unchanged |
| Vertices.GetVertexNew | kirky/vertex.py:251-267 | any other position gives the pool with one new vertex there |
| Vertices.FoundIsVertex | kirky/vertex.py:250 | the element the index finds is the vertex at that position |
| Vertices.NotFoundIsNew | kirky/vertex.py:250-251 | when the index finds nothing no vertex has the position |
| Vertices.AddedVertexValid | kirky/vertex.py:252-267 | adding the new vertex keeps the pool valid |
| Vertices.HasVertex | kirky/vertex.py:271-277 | true exactly when some vertex has the position |
| Vertices.GetVertexIdempotent | kirky/vertex.py:245-277 | asking again for a vertex just got returns it with the pool unchanged, and `HasVertex` then answers true |
| Vertices.GetVertexGrows | kirky/vertex.py:245-269 | the pool comes back unchanged when a vertex has the position, and otherwise with exactly one fresh vertex appended |
| Edges.NewEdge | kirky/edge.py:6-23 | a new edge holds the given head, tail, vector id and multiple, and its weight node |
| Edges.SameEdgeMeaning | kirky/edge.py:51-58 | two edges are equal exactly when head, tail and vector id agree, whatever their weights and multiples, and that equality is an equivalence |
| Edges.Translate | kirky/edge.py:142-145 | a translation moves every coordinate by its amount |
| Edges.Displacement | kirky/edge.py:14-16 | the edge's displacement carries its tail to its head |
| Edges.EmptyPool | kirky/edge.py:67-69 | a new edge pool is dense: no weights and the id counter at 0 |
| Edges.AddEdgeWeight | kirky/edge.py:72-75 | the weight is appended and given the current id, the counter steps up, and density (`len(edge_weights) == current_id`) is kept |
| Edges.RemoveEdgeWeight | kirky/edge.py:77-79 | the last weight is popped and the counter steps back, keeping density; an empty pool raises `IndexError` |
| Edges.AddRemoveWeight | kirky/edge.py:72-79 | removing the weight just added gives the pool back |
| Blocks.NewBlock | kirky/edge.py:83-88 | a new block has no edges, the pool's dimension and no vectors |
| Blocks.Size | kirky/edge.py:122-123 | the size has one entry per dimension |
| Blocks.VertexList | kirky/edge.py:125-126 | the block's vertices are the pool's |
| Blocks.CreateEdge | kirky/edge.py:115-120 | the first argument becomes the edge's head; exactly one new web node, of kind edge, is created and registered as the next weight |
| Blocks.CreateEdgeRetract | kirky/edge.py:107-120 | retracting the weight of the edge just created gives both counters back |
| Blocks.Offer | kirky/vertex.py:49-83 | offering an edge to a pool vertex is accepted exactly when its slot is free, and a refusal changes nothing |
| Blocks.AddVertices | kirky/edge.py:32-40 | a vertex at the wrong position raises; the edge is accepted exactly when the tail's outgoing slot is free, and only then offered to the head; a refusal changes nothing |
| Blocks.AddVerticesSlots | kirky/edge.py:37-38 | `AddVertices` fills the tail's outgoing slot and no other outgoing slot |
| Blocks.AddVerticesValid | kirky/edge.py:32-40 | `AddVertices` keeps a valid pool valid |
| Blocks.AddEdge | kirky/edge.py:98-108 | the block gains the edge or nothing, and the pool only grows |
| Blocks.Settle | kirky/edge.py:103-108 | once both ends exist, the edge is kept or its weight retracted |
| Blocks.Retract | kirky/edge.py:107-108 | the rejection branch changes only the web and the edge pool |
| Blocks.Endpoints | kirky/edge.py:101-102 | the tail and head vertices are got, or created, at the edge's ends |
| Blocks.EndpointsTail | kirky/edge.py:101 | the tail vertex is the pool's own when it had one, and otherwise a new vertex with every slot free |
| Blocks.Place | kirky/edge.py:115-120 | `AddEdge(CreateEdge(...))` appends at most the new edge, whose head is the first argument |
| Blocks.PlaceRejected | kirky/edge.py:103-108 | an edge whose tail slot is already filled is refused and the retraction leaves both pools exactly as they were |
| Blocks.PlaceAccepted | kirky/edge.py:103-105 | any other edge joins the block, with both ends in the pool and its tail slot filled |
| Blocks.PlaceStep | kirky/edge.py:98-120 | the edge is taken exactly when no vertex at its tail has the slot filled, and otherwise nothing changes; either way its ends are in place afterwards |
| Blocks.DistinctAppend | kirky/edge.py:98-105 | an accepted edge differs from every edge of the block in tail or vector, so the block never holds two equal edges |
| Blocks.PyIndex | kirky/edge.py:143 | a Python subscript reads from the end for negative indices and raises `IndexError` outside the list |
| Blocks.Shift | kirky/edge.py:142-145 | a shift moves one coordinate by the amount and leaves the others |
| Blocks.ShiftEdge | kirky/edge.py:141-147 | one round places the shifted copy of the edge, and the block gains at most that copy |
| Blocks.ShiftLoop | kirky/edge.py:139-147 | every edge present at the start has its shifted copy in place afterwards, every edge added is such a copy, no edge is lost, and a zero amount changes nothing |
| Blocks.ShiftGuardGap | kirky/edge.py:137-143 | the block's own dimension passes the written `>` guard and then fails on the subscript; the intended `>=` guard refuses it, and refuses nothing the subscript would accept |
| Blocks.AddShift | kirky/edge.py:136-147 | a dimension outside the block is refused before any edge moves; a dimension inside it leaves every edge present at the start with its shifted copy in place, and adds nothing else |
| Blocks.AddShiftAsWritten | kirky/edge.py:136-147 | as written, the block's own dimension gets past the guard and raises `IndexError` on the first edge |
| BlockLattice.NewVertex | kirky/block.py:17-20 | a new vertex has one empty `[None, None]` slot per vector |
| BlockLattice.NewBlock | kirky/block.py:31-37 | a new block has empty frame, interior and vertex dictionary, and a side of 0 per dimension |
| BlockLattice.AddEdge | kirky/block.py:22-26 | a tail fills slot `[1]` of entry `id`, a head slot `[0]`, every other slot kept; an `id` beyond the cut raises `IndexError` |
| BlockLattice.Attach | kirky/block.py:100-116 | the vertex at a position, created when absent, takes the edge in the right slot, and no other vertex changes |
| BlockLattice.UpdateVertices | kirky/block.py:96-116 | both end vertices exist afterwards and only the vertex dictionary changes; an id beyond the vector count raises `IndexError` |
| BlockLattice.UpdateVerticesRecords | kirky/block.py:96-116 | after the update both end vertices record the edge, and no other slot of any vertex changed |
| BlockLattice.UpdateVerticesValid | kirky/block.py:96-116 | updating the vertices keeps the block valid and registers the edge |
| BlockLattice.UpdateKeepsRecorded | kirky/block.py:96-116 | an edge recorded before stays recorded unless the new edge takes its tail or head slot |
| BlockLattice.Move | kirky/block.py:80-82 | a move changes one coordinate by the distance and keeps the others |
| BlockLattice.CopyAsWritten | kirky/block.py:76 | as written, both lists are read from the tail, so every copy is a loop at the moved tail |
| BlockLattice.Copy | kirky/block.py:75-84 | the intended copy moves both ends by the distance and keeps the vector id |
| BlockLattice.CopyKeepsDisplacement | kirky/block.py:76-84 | the intended copy keeps an edge's displacement; the copy as written loses it for every edge that has one |
| BlockLattice.CopyAsWrittenExample | kirky/block.py:76 | the seed edge `(0) -> (1)` is copied as written to the loop `(1) -> (1)`, where the intended copy is `(1) -> (2)` |
| BlockLattice.CopyCompose | kirky/block.py:80-82 | copying twice along one axis is copying once by the summed distance |
| BlockLattice.Missing | kirky/block.py:74-90 | the new edges are copies of frame edges not already in the frame, and every copy is either in the frame or among them |
| BlockLattice.MissingCovers | kirky/block.py:74-94 | the frame followed by the new edges holds the copy of every frame edge, and everything after the frame is such a copy |
| BlockLattice.CopyLoop | kirky/block.py:74-92 | the loop registers each missing copy, in order, with its two vertices |
| BlockLattice.CopiesPresent | kirky/block.py:94 | after the update the frame holds the copy of each of its edges |
| BlockLattice.CopyZero | kirky/block.py:80-82 | a copy by distance 0 is the edge itself |
| BlockLattice.MissingZero | kirky/block.py:87 | no frame misses its copies by distance 0 |
| BlockLattice.CopyAndAdd | kirky/block.py:72-94 | the frame is followed by the copies it was missing, so it holds the copy of each of its edges; the block stays valid, no vertex is lost, a distance of 0 changes nothing, and an axis beyond the positions raises `IndexError` |
| BlockLattice.Passes | kirky/block.py:51-53 | after `count` unit passes along an axis the copy of every earlier frame edge by each distance `1 .. count` is in the frame |
| BlockLattice.SeedEdge | kirky/block.py:44-47 | seed edge `i` runs from the origin to the `i`-th unit vector |
| BlockLattice.SeedRun | kirky/block.py:43-49 | the seed edges come one per axis, in axis order |
| BlockLattice.SeedEdgeUnit | kirky/block.py:44-47 | a seed edge is a unit edge |
| BlockLattice.SeedEdges | kirky/block.py:43-49 | the first loop appends the seed edge of every axis to the frame; an axis beyond the vector count raises `IndexError` |
| BlockLattice.ShapePasses | kirky/block.py:51-53 | after the second loop, the copies of the starting frame by `1 .. shape[i]` along each axis `i` are in the frame; a short shape raises `IndexError` |
| BlockLattice.SeedFrame | kirky/block.py:39-53 | the frame starts with the seed edges and holds their copies by `1 .. shape[i]` along each axis `i`; the recorded sides are left as they were |
| BlockLattice.SeedFrameShaped | kirky/block.py:39-53 | with the sides recorded, the frame reaches `shape[i]` along each axis `i` from the seed |
| BlockLattice.Double | kirky/block.py:118-131 | the frame is copied by the current side and then that many unit passes are made, the side doubles, and the copy of every earlier frame edge by the old side is in the frame |
| BlockLattice.Across | kirky/block.py:62-65 | the interior edge out of a position runs to the position moved by the example's displacement |
| BlockLattice.TranslateInjective | kirky/block.py:62 | different positions give different interior edges |
| BlockLattice.AddInterior | kirky/block.py:66 | the interior, a set, gains the edge at most once |
| BlockLattice.InteriorLoop | kirky/block.py:61-70 | the loop over the vertices keeps its invariant, and fails only when an edge fits and the id is beyond the vector count |
| BlockLattice.InteriorDone | kirky/block.py:61-70 | after the loop every edge displaced by `dif` between two vertices is in the interior and recorded |
| BlockLattice.PopulateInterior | kirky/block.py:55-70 | every edge displaced like the example between two vertices joins the interior and is recorded by both vertices, every edge added is one of them, and no vertex or frame edge changes |
| BlockAsWritten.Hash | kirky/block.py:11-12 | `hash()` accepts only an integer from `__hash__`; anything else raises `TypeError` |
| BlockAsWritten.EdgeUnhashable | kirky/block.py:11-12 | as written no edge can be hashed, because `__hash__` returns a tuple; returning `hash(tuple(...))` makes every edge hashable |
| BlockAsWritten.SetAdd | kirky/block.py:49 | `set.add` hashes the edge first; with identity equality a new edge is always added |
| BlockAsWritten.SeedHashes | kirky/block.py:43-49 | no seed edge hashes as written, and all of them do with the repaired hash |
| BlockAsWritten.SeedRoundsAsWritten | kirky/block.py:43-49 | the first loop succeeds exactly when every axis has a cut slot and every seed edge hashes, and then appends the seed edges in axis order; as written it raises `TypeError` at the first edge |
| BlockAsWritten.ShapePassesAsWritten | kirky/block.py:51-53 | the passes of the second loop keep the block's dimension count |
| BlockAsWritten.SeedFrameAsWritten | kirky/block.py:39-53 | as written, seeding a block with an axis and a cut slot for it raises `TypeError`; it succeeds only when every seed edge hashes |
| BlockAsWritten.CopyAndAddAsWritten | kirky/block.py:72-94 | as written, `copy_and_add` over a non-empty frame never succeeds |
| BlockAsWritten.CopyAndAddAsWrittenFails | kirky/block.py:87-90 | over a valid block's non-empty frame it raises `TypeError` at the membership test, and with the hash repaired `AttributeError` at `.add` on a list |
| BlockAsWritten.MissingByIdentity | kirky/block.py:87 | with identity equality the membership test never finds a copy, so every copy is added |
| BlockAsWritten.IdentityDuplicates | kirky/block.py:87 | on a pass by distance 0 the structural test adds nothing, while the identity test adds a second copy of every edge |
| BlockAsWritten.PopulateInteriorAsWritten | kirky/block.py:55-70 | as written, `populate_interior` fails only with `IndexError` or `TypeError` |
| BlockAsWritten.PopulateInteriorAsWrittenFails | kirky/block.py:62-63 | as written, a block with a vertex, keyed by positions of its dimension count, raises `TypeError`, because `needed_position in self.vertices` hashes a list |
| BlockAsWritten.Subscript | kirky/block.py:126 | a generator cannot be subscripted (`TypeError`); a list takes indices from `-len` to `len - 1` |
| BlockAsWritten.NewShapeUnreadable | kirky/block.py:34 | no side of a new block can be read as written, while a list of zeros reads 0 on every axis |
| BlockAsWritten.DoubleAsWritten | kirky/block.py:118-131 | as written, `double` raises `TypeError` on its first line; with a list of sides it succeeds exactly on an axis of the block and doubles that side |
| BlockQ.MaxAbs | block_q.py:79 | `max(abs(e) for e in row)` bounds every magnitude of the row and is one of them; an empty row raises `ValueError` |
| BlockQ.FirstShape | block_q.py:76-81 | one side per matrix row, the largest magnitude times the search depth plus one; an empty row raises |
| BlockQ.FirstShapeCovers | block_q.py:76-81 | with a non-negative depth every side is positive and every entry, scaled by the depth, lies strictly inside its row's side |
| BlockQ.Sizes | block_q.py:91-93 | the box's sides are `end - start` |
| BlockQ.Decode | block_q.py:92-95 | the mixed-radix decoding gives one coordinate per side |
| BlockQ.Enumerate | block_q.py:88-97 | `iterate_vertices` yields the product of the sides many positions when that product is positive, and nothing otherwise |
| BlockQ.DecodeBox | block_q.py:93-95 | every decoded coordinate lies within its side |
| BlockQ.EncodeDecode | block_q.py:91-95 | decoding an index in range and encoding the result gives the index back |
| BlockQ.DecodeEncode | block_q.py:91-95 | encoding a position of the box and decoding the number gives the position back, the number in range |
| BlockQ.EnumerateBox | block_q.py:88-97 | every position `iterate_vertices` yields lies in the box |
| BlockQ.EnumerateDistinct | block_q.py:88-97 | `iterate_vertices` yields no position twice |
| BlockQ.EnumerateComplete | block_q.py:88-97 | every position of the box is yielded |
| BlockQ.Bounds | block_q.py:111-120 | `get_bounds` gives a lower and upper corner of the box's dimension |
| BlockQ.BoundsExact | block_q.py:111-120 | a tail lies within the bounds exactly when it and its head both lie in the box |
| BlockQ.EqualAsWrittenConflates | block_q.py:20 | as written (`self.head == self.head`), two edges leaving one tail for different heads compare equal |
| BlockQ.SameEndsMeaning | block_q.py:17-22 | the intended comparison, head and tail, is an equivalence that ignores only the column id |
| BlockQ.AddToSet | block_q.py:109 | the set keeps its element when one with the same ends is present and gains the edge otherwise |
| BlockQ.NewVertex | block_q.py:29-33 | a new vertex has one empty incoming and outgoing slot per vector |
| BlockQ.AddEdge | block_q.py:35-41 | the head side is checked first and fills the incoming slot, otherwise the tail fills the outgoing one; an edge touching neither end raises `ValueError` |
| BlockQ.VertexCut | block_q.py:48-49 | the cut is outgoing minus incoming weight per vector |
| BlockQ.IsConnected | block_q.py:42-44 | a vertex is connected exactly when some slot has a non-zero weight |
| BlockQ.UnconnectedCutZero | block_q.py:42-49 | a vertex that is not connected has a zero cut |
| BlockQ.Column | block_q.py:100 | column `k` of the matrix is the displacement of vector `k` |
| BlockQ.PlaceVertices | block_q.py:83-86 | a fresh vertex at every listed position, replacing what was there, and every other vertex kept |
| BlockQ.Connect | block_q.py:4-16 | a new edge registers at its head and then its tail and joins the set; a column id beyond the cut raises `IndexError` |
| BlockQ.ConnectAddsEdge | block_q.py:12-16 | `Connect` is `add_edge` on the head and then on the tail |
| BlockQ.ConnectValid | block_q.py:4-16 | connecting an edge between two vertices keeps the frame valid |
| BlockQ.EdgesFrom | block_q.py:104-109 | one column's pass adds edges of that column from the listed tails only, and succeeds when every tail and head exists |
| BlockQ.EdgesOver | block_q.py:99-109 | `populate_edges` adds only edges inside the box, for the columns still to go, and succeeds when the box is filled with vertices |
| BlockQ.TailsInBox | block_q.py:102-107 | the tails a column's bounds enumerate lie in the box, and so do their heads |
| BlockQ.Back | block_q.py:135 | `position - vector` moved by the vector is the position again |
| BlockQ.EdgesInto | block_q.py:134-140 | the first loop of `add_new_edges` adds only edges of the column into the listed heads |
| BlockQ.EdgesOutOf | block_q.py:142-148 | the second loop adds only edges of the column out of the listed tails |
| BlockQ.NewEdgesOver | block_q.py:130-148 | `add_new_edges` adds only edges with an end in the new box, and succeeds when the box is filled with vertices |
| BlockQ.FirstShapeTame | block_q.py:76-81 | with a positive depth every column's bounds are a proper box inside the first shape |
| BlockQ.NewFrame | block_q.py:64-74 | a new frame has the first shape, a vertex at exactly the positions of its box and only edges inside it; a matrix without columns raises `ValueError` |
| BlockQ.ShapeBox | block_q.py:70-72 | with a non-negative depth the enumeration of the first shape lists exactly its positions |
| BlockQ.SlabStart | block_q.py:124-125 | the new slab starts at the old side along the axis and 0 elsewhere |
| BlockQ.Expand | block_q.py:123-128 | the side along the axis grows by one, a fresh vertex fills every position of the new slab and nothing is lost; an axis beyond the shape raises `IndexError` |
| BlockCreation.ColumnMax | kirky/block_creation.py:37-41 | the running maximum of a column's absolute entries bounds every one of them and is 0 or one of them |
| BlockCreation.Sides | kirky/block_creation.py:35-42 | one side per axis, each at least the absolute value of every entry of that column and equal to one of them (or 0 for a column of zeros) |
| BlockCreation.Displacements | kirky/block_creation.py:55-56 | the first `dim` vectors are the unit vectors of the axes and the rest are the condition rows, in order |
| BlockCreation.MinusTranslate | kirky/block_creation.py:120-122 | moving back by a row and then forward by it returns to the start, so the subtract branch finds the vertex whose add branch reaches this one |
| BlockCreation.CubeNext | kirky/block_creation.py:52-73 | an edge of vector `a` from every vertex of the cube over the first `a` axes gives the cube over the first `a + 1` axes |
| BlockCreation.CornerBelow | kirky/block_creation.py:64-69 | every corner with coordinate `a` set is the unit step along `a` from a corner of the smaller cube |
| BlockCreation.JoinUnit | kirky/block_creation.py:65-73 | the edge of vector `a` from one noted vertex to its neighbour along `a` keeps the construction going, creates no vertex of the snapshot's, and fills that vertex's slot |
| BlockCreation.JoinAll | kirky/block_creation.py:64-73 | after the inner loop every vertex of the snapshot has its slot for vector `a` filled and every block edge is still a unit edge |
| BlockCreation.UnitCube | kirky/block_creation.py:52-73 | after the cube stage the pool holds every corner of the unit cube, every corner of the cube over the first `k` axes has its edge of vector `k`, and every edge is a unit edge along an axis |
| BlockCreation.CubeShift | kirky/block_creation.py:59-61 | the shift before the inner loop keeps the construction invariant and the unit edges, and the pool only grows |
| BlockCreation.GrowStep | kirky/block_creation.py:78-79 | one further shift along `k` keeps the unit cube and copies every cube edge one step along `k` |
| BlockCreation.GrowAxis | kirky/block_creation.py:78-79 | the shifts along axis `a` copy every cube edge one step along every axis up to `a` whose side is at least 2 |
| BlockCreation.SpreadNext | kirky/block_creation.py:75-79 | an axis of side below 2 needs no shift; the spread extends to the next axis either way |
| BlockCreation.CreateBaseBlock | kirky/block_creation.py:32-81 | with a non-empty `B`: pools of bucket range 2, vector count dimension plus `B`'s column count, the whole unit cube with its axis edges, only unit edges, and each cube edge copied along every axis of side at least 2; with an empty `B` the loop variable of the origin is unbound and it fails |
| BlockCreation.PlaceKeepsVertices | kirky/block_creation.py:115-118 | placing an edge between two vertices the pool already has creates no vertex |
| BlockCreation.SettleKeepsVertices | kirky/vertex.py:49-83 | offering an edge to two existing vertices keeps the vertex count whether the edge is kept or retracted |
| BlockCreation.SameLocated | kirky/vertex.py:271-277 | in a pool that grew without gaining a vertex, `HasVertex` answers as before |
| BlockCreation.FilledStays | kirky/vertex.py:49-83 | a filled slot of a vertex stays filled as the pool grows |
| BlockCreation.Join | kirky/block_creation.py:116-118 | an edge between two existing vertices keeps the construction, creates no vertex, fills the tail's slot, and joins the block unless the slot was already taken |
| BlockCreation.LinkUp | kirky/block_creation.py:110-118 | after the add branch the vertex's slot for the row is filled whenever its translate by the row is a vertex |
| BlockCreation.LinkDown | kirky/block_creation.py:120-127 | the subtract branch keeps the interior labelled, between old vertices, and creates no vertex |
| BlockCreation.LinkVertex | kirky/block_creation.py:108-127 | one more vertex of the row is linked |
| BlockCreation.LinkRow | kirky/block_creation.py:107-127 | every vertex is linked along row `i` |
| BlockCreation.InteriorStart | kirky/block_creation.py:105-106 | the interior starts with no edges, the base block's vector count and nothing linked yet |
| BlockCreation.CreateInteriorBlock | kirky/block_creation.py:104-128 | the interior shares the base pools and gains no vertex, copies the vector count, labels every edge with its row's vector and multiple, joins only existing vertices, and fills the slot of every vertex whose translate by some row is a vertex |
| NewKirky.FrameShape | kirky/new_kirky.py:23-29 | entry `d` is the largest absolute value of row `d`; a matrix with rows but no columns makes `max` of an empty list raise `ValueError`, and that is the only failure |
| NewKirky.InteriorEdges | kirky/new_kirky.py:31-42 | one edge per column, from the origin to the column's own entries, under vector `rows + i` |
| NewKirky.KeysOrder | kirky/new_kirky.py:46 | some order listing each key of the vertex dictionary exactly once |
| NewKirky.PopulateColumnsAsWritten | kirky/new_kirky.py:19-20 | `populate_interior(edge)` misses the id argument, so the loop raises `TypeError` exactly when there is a column and leaves the seeded block alone otherwise |
| NewKirky.InitStep | kirky/new_kirky.py:19-20 | populating column `i` keeps the earlier columns' interior edges and adds, for every vertex joined by the column's displacement, the edge under the column's vector |
| NewKirky.PopulateColumn | kirky/new_kirky.py:19-20 | one round of the interior loop advances the invariant by one column |
| NewKirky.PopulateColumns | kirky/new_kirky.py:18-20 | after the loop every column's displacement edges are in the interior under that column's vector |
| NewKirky.Init | kirky/new_kirky.py:10-21 | fails with `ValueError` exactly when the matrix has rows but no columns; otherwise the block has one axis per row and one vector per row and column, the frame reaches the frame shape on every axis, and every pair of vertices joined by a column is an interior edge under that column's vector |
| NewKirky.Apply | kirky/new_kirky.py:57-68 | the assignments raise `IndexError` exactly when one index lies past the row; otherwise each entry holds the last value assigned to it |
| NewKirky.LastWriteAt | kirky/new_kirky.py:57-68 | with distinct indices each assignment survives |
| NewKirky.LastWriteNone | kirky/new_kirky.py:51 | an index no assignment touches keeps its zero |
| NewKirky.RowError | kirky/new_kirky.py:51-68 | building a row can only fail with `IndexError` |
| NewKirky.RowOk | kirky/new_kirky.py:51-68 | a row is built, as long as the frame and interior together, whenever every pin it assigns lies inside it |
| NewKirky.RowEntries | kirky/new_kirky.py:53-68 | with distinct in-range pins the row holds minus the matrix coefficient at the incoming edge and plus it at the outgoing edge of each independent vector, plus one and minus one at the dependent vector's incoming and outgoing edges, and zero elsewhere |
| NewKirky.CollectRow | kirky/new_kirky.py:70 | appending a row's results fails exactly when one of them fails, with one of their errors, and otherwise lists them in order |
| NewKirky.Collect | kirky/new_kirky.py:46-70 | gathering the table fails exactly when some entry fails, with that entry's error, and otherwise has `vertices * columns` rows, each from the table |
| NewKirky.CollectAt | kirky/new_kirky.py:46-70 | entry `u * cols + i` of the gathered rows is the table's entry `[u][i]` |
| NewKirky.Table | kirky/new_kirky.py:46-70 | one row per vertex and dependent column, each the row of that vertex and column |
| NewKirky.TableFails | kirky/new_kirky.py:46-70 | a table entry fails exactly when the row of some vertex and column fails |
| NewKirky.GenerateLinearSystem | kirky/new_kirky.py:44-72 | the system has one row per vertex and dependent column, each as long as the frame and interior together |
| NewKirky.SystemFails | kirky/new_kirky.py:44-72 | the system fails exactly when the row of some vertex and dependent column fails, and then with `IndexError` |
| NewKirky.SystemRowAt | kirky/new_kirky.py:44-72 | row `u * cols + i` of the system is the row of vertex `order[u]` for dependent column `i` |
| NewKirky.InsertBy | kirky/new_kirky.py:79 | inserting into a sorted list keeps it sorted and adds exactly the new entry |
| NewKirky.SortBy | kirky/new_kirky.py:79 | `sorted(edges, key=pin)` is ordered by pin |
| NewKirky.SortByPermutes | kirky/new_kirky.py:79 | sorting only reorders: same multiset, same length |
| NewKirky.KeyIsIndex | kirky/new_kirky.py:79-81 | sorted distinct keys below the length are exactly the positions |
| NewKirky.Weigh | kirky/new_kirky.py:80-81 | the `i`-th edge is weighted by the `i`-th unknown |
| NewKirky.SetEdgeWeights | kirky/new_kirky.py:77-81 | a solution shorter than the edge list raises `IndexError`, and only then; otherwise the frame and interior edges, sorted by pin, are weighted in order by the solution's entries |
| NewKirky.WeightsByPin | kirky/new_kirky.py:77-81 | when the pins number the edges without repeats, each edge is weighted by the unknown at its own pin, the column the linear system gave it |
| NewKirky.AxesStep | kirky/new_kirky.py:95-96 | the axes doubled so far are `0, 1, ..` modulo the row count, and the next one follows on |
| NewKirky.FindStep | kirky/new_kirky.py:95-96 | one doubling keeps the interior, grows the frame and doubles the shape on the chosen axis |
| NewKirky.Find | kirky/new_kirky.py:89-99 | on success the last round's system is that of the grown block, the solver answered it, and the weights come from that answer; the block kept its interior, grew its frame and doubled axes `0, 1, ..` in turn; failures are `IndexError` or running out of rounds |
| Kirchhoff.KeptTrans | kirky/__init__.py:149-150 | locks held are kept across successive locking steps |
| Kirchhoff.LockIfUnlocked | kirky/__init__.py:149-150 | a locked node leaves the web alone; otherwise the node ends locked to the value, and every lock held before is kept |
| Kirchhoff.AllLockedStep | kirky/__init__.py:191-195 | nodes locked stay locked as one more is locked |
| Kirchhoff.LockCut | kirky/__init__.py:190-195 | every cut node of the vertex from the given slot on ends locked, and earlier locks are kept |
| Kirchhoff.LockBare | kirky/__init__.py:178-187 | the count is the number of slots with neither an incoming nor an outgoing edge, and the cut node of every such slot ends locked |
| Kirchhoff.LockVertexZeroes | kirky/__init__.py:176-195 | one vertex ends as the rule asks: its bare slots locked, and its whole cut locked when `min_vectors` exceeds `num_vectors` minus the bare count and not every slot is bare |
| Kirchhoff.LockZeroes | kirky/__init__.py:167-197 | every vertex ends as the rule asks, and locks already held are kept |
| Kirchhoff.ZeroesKept | kirky/__init__.py:442-443 | what `LockZeroes` established survives further locking |
| Kirchhoff.LockSolutionEdgeOnly | kirky/__init__.py:154-165 | a nullspace vector shorter than the edge weights raises; otherwise every edge weight ends locked and earlier locks are kept |
| Kirchhoff.GetIncidenceMatrix | kirky/__init__.py:411-433 | a negative vector count raises `ValueError`; a cut wider than the row raises `IndexError`; otherwise entry `[r][k]` is the value of cut node `k` of vertex `r`, with zeros past the cut |
| Kirchhoff.WebSwap | kirky/__init__.py:133-134 | unlocking changes no node's shape, so both blocks stay grounded and the pool's slots are kept |
| Kirchhoff.OtherKept | kirky/__init__.py:125-128 | the interior stays grounded while the block's shift grows the shared pools |
| Kirchhoff.CoveredAllKept | kirky/__init__.py:125-128 | edges already covered by their copies stay covered as the pools grow |
| Kirchhoff.Grow | kirky/__init__.py:113-131 | a failing unlock fails with `KeyError` and a dimension outside the block with `IndexError`; otherwise both blocks stay grounded, each edge of the block is covered by its copy moved by the block's size along the dimension, its new edges are such copies, and with a positive size the interior's edges are covered by their copies moved by one |
| Kirchhoff.PoolCuts | kirky/__init__.py:175 | every vertex of a valid pool has its cut in the web |
| Kirchhoff.AlternatesStep | kirky/__init__.py:447-450 | growing along `current` and flipping it keeps the dimensions alternating 0, 1, 0, … |
| Kirchhoff.Zeroed | kirky/__init__.py:442-443 | a round locks every vertex's zeroes and builds the edge-only system of that web over one column per edge weight, only locking the web |
| Kirchhoff.Regrow | kirky/__init__.py:445-446 | unlocking and growing keep both blocks grounded on pools that only grew, their edges kept in front |
| Kirchhoff.Search | kirky/__init__.py:440-453 | the search stops at a web whose zeroes are locked, with the edge-only system of that web and a nonempty nullspace basis; growth alternates between dimensions 0 and 1 and both blocks only grew |
| Kirchhoff.Find | kirky/__init__.py:436-456 | the solution is the first basis vector, long enough for every edge weight; only the web changed afterwards; every edge weight ends locked; and the incidence matrix is that of the final web |
| Kirchhoff.FindMeaning | kirky/__init__.py:270-340 | a vector with one entry per edge weight that the stopped system sends to zero satisfies every Kirchhoff condition of the zero-locked web |
| KirchhoffSystem.Zeros | kirky/__init__.py:246 | the matrix starts as rows of zeros of the web's width |
| KirchhoffSystem.DotUpdate | kirky/__init__.py:259-263 | writing an entry moves the row's product with a valuation by the change times that entry's value |
| KirchhoffSystem.VanishConcat | kirky/__init__.py:252-265 | the rows of two parts vanish together exactly when each part's rows vanish |
| KirchhoffSystem.GroupRowEntries | kirky/__init__.py:258-263 | a group's row holds -1 at the child, each parent's multiplier at the parent, and 0 elsewhere |
| KirchhoffSystem.GroupRowDot | kirky/__init__.py:258-265 | a group's row vanishes on a valuation exactly when the child's value is the weighted sum of its parents' values |
| KirchhoffSystem.UnitRowDot | kirky/__init__.py:254-257 | a lock row vanishes exactly when the locked node's value is zero |
| KirchhoffSystem.GroupRows | kirky/__init__.py:258-265 | one row per parent group, each of the web's width |
| KirchhoffSystem.NodesBelow | kirky/__init__.py:218-219 | every node of a valid web names only columns within the web |
| KirchhoffSystem.GenerateLinearSystem | kirky/__init__.py:213-268 | one row per locked node and per parent group, each as wide as the web |
| KirchhoffSystem.RowsCount | kirky/__init__.py:252-265 | the rows filled number the locked nodes plus the parent groups |
| KirchhoffSystem.FindNumRows | kirky/__init__.py:199-211 | the count is the number of rows `GenerateLinearSystem` fills |
| KirchhoffSystem.RowsVanish | kirky/__init__.py:252-265 | the rows of a run of nodes vanish exactly when every node is satisfied |
| KirchhoffSystem.NodeRowsVanish | kirky/__init__.py:254-265 | a node's rows vanish exactly when it is zero if locked and the weighted sum of each of its parent groups |
| KirchhoffSystem.SystemMeaning | kirky/__init__.py:213-268 | a valuation of the nodes makes every row vanish exactly when it zeroes every locked node and gives every node the weighted sum of each parent group |
| KirchhoffEdges.ValidNamed | kirky/__init__.py:349-353 | every parent of a valid web is a node of the web |
| KirchhoffEdges.FirstEdgeGroup | kirky/__init__.py:347-350 | the group found is edge-led, and when none is found no group is |
| KirchhoffEdges.FirstEdgeGroupIsFirst | kirky/__init__.py:347-359 | the group found is the first edge-led one in key order, and one is found whenever any group is edge-led |
| KirchhoffEdges.EdgeParents | kirky/__init__.py:342-360 | at most two parents, a prefix of the first edge-led group, and none exactly when no group is edge-led |
| KirchhoffEdges.Terms | kirky/__init__.py:306-308 | each edge parent becomes its weight's id and its multiplier |
| KirchhoffEdges.ValueScale | kirky/__init__.py:328 | terms scaled by `s` one by one scale the edge expression by `s` |
| KirchhoffEdges.AddDot | kirky/__init__.py:304-308 | adding the terms scaled by `s` into a row moves its product with a valuation by the scaled edge expression |
| KirchhoffEdges.Substitute | kirky/__init__.py:316-322 | each parent of a group is replaced by its own edge parents, keeping its multiplier |
| KirchhoffEdges.ParentTermsDot | kirky/__init__.py:316-328 | writing the substituted parents moves the product by the weighted sum of the parents' edge expressions |
| KirchhoffEdges.EdgeGroupRowAsWritten | kirky/__init__.py:316-335 | the loop as written, subtracting the node's own edge terms once per parent |
| KirchhoffEdges.EdgeGroupRowAsWrittenDot | kirky/__init__.py:316-335 | as written, a group of `n` parents equates the weighted sum of the parents' edge expressions with `n` times the node's own |
| KirchhoffEdges.EdgeGroupRow | kirky/__init__.py:316-337 | the intended row: the parents' edge terms, then the node's own subtracted once |
| KirchhoffEdges.EdgeGroupRowDot | kirky/__init__.py:316-337 | the intended row vanishes exactly when the node's edge expression is the weighted sum of its parents' |
| KirchhoffEdges.AsWrittenDiffers | kirky/__init__.py:329-335 | with two or more parents and a nonzero own edge expression the row as written states a different relation from the intended one |
| KirchhoffEdges.View | kirky/__init__.py:300-301 | one view per node, in node order |
| KirchhoffEdges.ColumnsFitView | kirky/__init__.py:308 | when every node's own edge terms are columns, so is everything the system writes |
| KirchhoffEdges.HasEmptyGroupWeb | kirky/__init__.py:313 | the system fails exactly when some node has an empty parent group, where `[0][0]` raises |
| KirchhoffEdges.CountRows | kirky/__init__.py:363-375 | an empty group raises `IndexError` and only then; otherwise the count has one row per counted lock and per group that is not edge-led |
| KirchhoffEdges.FindNumRowsEdgeOnly | kirky/__init__.py:362-375 | the count is the rows the generator writes plus one for each locked node with edge parents that is not a vertex, which the generator never writes |
| KirchhoffEdges.EdgeRowsShape | kirky/__init__.py:292-337 | the count is the rows written plus the rows counted but never written, each row one entry per edge weight |
| KirchhoffEdges.EdgeSystem | kirky/__init__.py:292-340 | as many rows as counted, each one entry per edge weight |
| KirchhoffEdges.GenerateLinearSystemEdgeOnly | kirky/__init__.py:270-340 | an empty group raises `IndexError` and only then; otherwise as many rows as `FindNumRowsEdgeOnly` counts, each one entry per edge weight |
| KirchhoffEdges.LockRowsVanish | kirky/__init__.py:302-309 | a locked vertex's row vanishes exactly when its edge expression is zero |
| KirchhoffEdges.EdgeRowsVanish | kirky/__init__.py:300-337 | the rows of the first `n` nodes vanish exactly when those nodes meet what the system asks |
| KirchhoffEdges.NodeRowsVanish | kirky/__init__.py:300-337 | a node's rows vanish exactly when its locked edge expression is zero and each cut group's weighted parent sum equals its own |
| KirchhoffEdges.EdgeSystemMeaning | kirky/__init__.py:270-340 | a valuation of the edge weights makes every row vanish exactly when every locked vertex's edge expression is zero and every cut node's edge expression is the weighted sum of each of its groups' parents |
| Splitter.NullIsZero | kirky/splitter.py:54 | the self dot product vanishes exactly on the zero vector |
| Splitter.SelfDotPositive | kirky/splitter.py:54 | a nonzero entry makes the self dot product strictly positive |
| Splitter.Clean | kirky/splitter.py:51-57 | keeps exactly the input vectors that are not null |
| Splitter.CleanMembers | kirky/splitter.py:51-57 | a vector is kept exactly when it is an input and not null |
| Splitter.CleanConcat | kirky/splitter.py:51-57 | cleaning a concatenation concatenates the cleaned parts, so the order is kept |
| Splitter.CleanIdempotent | kirky/splitter.py:51-57 | cleaning twice changes nothing |
| Splitter.Negatives | kirky/splitter.py:11-17 | true exactly when some input vector's reflection is also an input vector |
| Splitter.NegativesZero | kirky/splitter.py:11-17 | an input holding a zero vector always has negatives |
| Splitter.NegativesSymmetric | kirky/splitter.py:14-15 | the reflection relation is symmetric |
| Splitter.NegUnit | kirky/splitter.py:36-37 | `id_row` is zero except for -1 at `i` |
| Splitter.SplitterRow | kirky/splitter.py:35-38 | row `i` is the vector, its negation, -1 and the negated unit row |
| Splitter.SlackRow | kirky/splitter.py:99-103 | row `i` is the vector, its negation, the negated unit row and the unit row |
| Splitter.SplitterProgram | kirky/splitter.py:22-49 | infeasible exactly when cleaning leaves nothing; otherwise one row per cleaned vector, right-hand sides all 1 and a zero objective |
| Splitter.SlackProgram | kirky/splitter.py:85-121 | infeasible exactly when cleaning leaves nothing; otherwise the slack rows, right-hand sides all 1 and the objective of `2·dimension + n` zeros followed by `n` minus ones |
| Splitter.Convert | kirky/splitter.py:66-71 | the norm is `s[i] - s[i + dimension]`; a solution shorter than `2·dimension` raises `IndexError`, and only then |
| Splitter.ConvertParts | kirky/splitter.py:66-71 | every norm comes back from its positive and negative parts followed by any slack |
| Splitter.ConvertDot | kirky/splitter.py:35 | the row part `v ++ -v` applied to the solver's variables is `v` applied to the converted norm |
| Splitter.PyDot | kirky/splitter.py:7-8 | the sum runs over the first vector's length and a shorter second vector fails |
| Splitter.CheckNorm | kirky/splitter.py:140-147 | true means every cleaned vector lies on the norm's non-negative side up to the tolerance; when no subscript fails, the answer is exactly that |
| Splitter.Split | kirky/splitter.py:73-80 | `None` when cleaning left nothing or the solver answers infeasible; a norm returned is the conversion of the solver's answer over the first cleaned vector's dimension |
| Splitter.SlackSplit | kirky/splitter.py:156-168 | as `Split`, and every norm returned puts every cleaned vector on its non-negative side |
| Splitter.SplitFindsNorm | kirky/splitter.py:73-80 | a solver answer holding the parts of a norm yields exactly that norm |
| Helpers.ExtGcd | kirky/helpers.py:20-21 | the gcd together with coefficients satisfying Bezout's identity |
| Helpers.GcdDivides | kirky/helpers.py:20-21 | the gcd of two numbers, not both zero, divides both |
| Helpers.Lcm | kirky/helpers.py:8-10 | `a * (b / gcd(a, b))` is a positive common multiple of `a` and `b` |
| Helpers.LcmLeast | kirky/helpers.py:8-10 | that multiple divides every common multiple, so it is the least one |
| Helpers.LcmFold | kirky/helpers.py:11-15 | the fold over the remaining denominators is a positive multiple of the running value and of each remaining denominator |
| Helpers.LcmFoldLeast | kirky/helpers.py:11-15 | the fold divides every common multiple of the running value and the remaining denominators |
| Helpers.CommonDenominator | build/lib/kirky/helpers.py:4-17 | no fraction raises `IndexError`, and only then; one fraction gives its denominator; otherwise a positive multiple of every denominator |
| Helpers.CommonDenominatorLeast | build/lib/kirky/helpers.py:4-17 | the common denominator divides every common multiple of the denominators |
| Helpers.CommonDenominatorClearsFractions | kirky/helpers.py:5-18 | each fraction scaled by the common denominator is the integer `numerator * (common / denominator)` |
| Vectors.Add | kirky/degenerate_tableau.py:3-10 | `add_vectors` sums entry by entry over the first vector's length; the second may be longer |
| Vectors.DotAdd | kirky/degenerate_tableau.py:3-10 | the dot product is additive in its first argument |
| Vectors.ShiftRow | kirky/degenerate_tableau.py:145-147 | the row operation adds `k` times the pivot row to a row, entry by entry |
| Vectors.ShiftEquation | kirky/degenerate_tableau.py:145-148 | a row shifted by `k` times the pivot row, with its value shifted alike, holds on a solution of the pivot row exactly when the original row does |
| Vectors.DivEquation | kirky/degenerate_tableau.py:135-139 | dividing a row and its value by the same nonzero number keeps its equation |


## Left out

Weaker contracts:

- DegenerateTableau.SolveKirky: the contract ties `None` to a nonzero final phase-I value and a result to the first `num_weights` solution entries. It does not state that a returned weighting is non-negative, solves `E w = 0` and sums to 1. Soundness of `None` (DegenerateTableau.SolveKirkyNoneSound) is proved only when the final value is negative; that the final value can never be positive is not proved.
- TableauSpark.SolveKirky: the same gap as DegenerateTableau.SolveKirky; TableauSpark.SolveKirkyNoneSound covers only a negative final value.
- Helpers.CommonDenominator: `kirky/helpers.py` is Python 3 code (it imports `gcd` from `math`), so its `/` at lines 9 and 14 is true division and the result is a float (6.0 for the denominators 2 and 3), rounded above 2^53. The model computes the exact integer that build/lib/kirky/helpers.py:8 and :13 compute under Python 2's integer `/`.
- DegenerateTableau.GetSolution: the solution is sized by the objective's length. degenerate_tableau.py:118 sizes it by `len(self.constraint_vectors[0])`, which raises `IndexError` on a tableau without constraints; that error path is not modelled.
- TableauSpark.Pivot: `Row` defines only `__div__` (tableau_spark.py:24-25), so `row / row[...]` at tableau_spark.py:112 works only under Python 2. The model follows Python 2 and does not raise the `TypeError` Python 3 would.
- DegenerateTableau.SolveKirky and TableauSpark.SolveKirky also leave the caller's `E` alone, where degenerate_tableau.py:168-182 and tableau_spark.py:221-224 append to its rows in place.
- Vertices.Key: a position shorter than the index depth fails with `IndexError` at once, where `GetElement` (vertex.py:168-191) can return `None` first when an earlier bucket is absent.
- NewKirky.Find: a solver answer is success when it is `Some`. new_kirky.py:94 tests `if not solution:` on a numpy column vector, which raises `ValueError` for a vector of more than one entry.
- NewKirky.GenerateLinearSystem and NewKirky.SetEdgeWeights: new_kirky.py:59-68 and :79 read `edge.pin`, an attribute the `Edge` of `kirky/block.py` never sets. The pins are an unconstrained parameter `pin`; NewKirky.WeightsByPin states what holds when they number the edges without repeats.
- Kirchhoff.Grow: the interior's growth is stated through its first unit shift only (each interior edge is covered by its copy moved by one); the later unit shifts are carried out but only their grounding is stated.
- Kirchhoff.LockSolutionEdgeOnly: states that every edge weight ends locked and earlier locks are kept, not the value each one ends with. A weight that an earlier weight's cascade already locked is skipped by the source and keeps the cascade's value, so no simple per-weight value holds.
- Kirchhoff.Zeroed: a web in which some node refers to a column outside the edge weights fails with `IndexError`, as sympy's matrix write outside the matrix does; the contract does not say which node.
- Kirchhoff.GetIncidenceMatrix: an unset node value is kept as `None` in the model's matrix; what sympy does with a `None` entry is not modelled. A negative column count fails with `ValueError` before anything is built.
- Symbolic: a node's `children` dictionary is iterated in insertion order. Python 2 iterates dictionaries in hash order, so the order in which the lock cascade visits children may differ; the set of nodes visited and the counts kept are the same.
- Symbolic.CreateParentGroup: with parents given, symbolic.py:48 calls `.append` on a dictionary and the model fails with `AttributeError`. No caller passes parents (vertex.py:63, :76, :234), so no corrected version is modelled.
- BlockLattice.SeedFrame and BlockLattice.Double: the shape is a list; block.py:34 makes it a generator, which BlockAsWritten.DoubleAsWritten models.

Not modelled:

- The unbounded loops (`solve_kirky`, both `find` loops, the lock cascade) run on `fuel`; running out of fuel is a failure (`OutOfFuel`) that the source cannot have. Termination is not proved.
- The sympy `Matrix.nullspace` (kirky/__init__.py:385, :398), `positive_nullspace_vector` (kirky/new_kirky.py:75) and the `Simplex` class imported by kirky/splitter.py:1 are parameters. kirky/tableau.py defines no `Simplex`, so the import at splitter.py:1 fails; the splitters are modelled with the solver as a parameter.
- The Spark `parallelize`, `filter`, `map` and `reduce` of kirky/tableau_spark.py are sequence operations; distribution and evaluation order are not modelled.
- Floating point: the non-exact branches and the `10 ** -12` tolerance of kirky/splitter.py, the `1.0 *` multipliers of kirky/new_kirky.py:59-68 and numpy's `int16` positions in block_q.py are exact reals and unbounded integers. `Splitter.CheckNorm` keeps the tolerance as a real constant.
- `Tableau`'s inexact mode keeps the most negative objective entry as the source does; rounding is not modelled.
- Drawing, PDF output, `clock` timing and `print` (kirky/draw.py, pyx canvases, kirky/__init__.py:119-131 and similar) have no counterpart.
- `Kirchhoff.__init__` (kirky/__init__.py:98-109) only stores what `createBaseBlock` and `createInteriorBlock` return; the copies of those two functions at kirky/__init__.py:15-96 are line for line the ones of kirky/block_creation.py and are modelled once, in `BlockCreation`.
- `Kirchhoff.LockSolution` (kirky/__init__.py:136-152) and `Kirchhoff.Solve` (kirky/__init__.py:377-388) are not modelled: `Find` calls only their edge-only counterparts, which are.
- `Vertex.IsLocked` (kirky/vertex.py:85-89), `__str__`, `__repr__` and `__hash__` helpers, and `Draw` methods are not part of this model.
- kirky/linsolve.py, kirky/positive_solve.py, kirky/tests.py, the imagine and draw modules, the example and profiling scripts and setup.py are not part of this model.

## Findings

Nothing here was executed; each row names the input on which the lemma in the as-written cell proves the difference.

| source | as written | input that shows it | evidently intended | confidence | as-written member | corrected member |
|---|---|---|---|---|---|---|
| kirky/__init__.py:331-335 | the node's own edge terms are subtracted inside the loop over the group's parents, once per parent | any group of two or more cut-node parents whose node has a nonzero edge expression | subtract the node's own edge terms once per group, so the row states node = weighted sum of parents | not executed | KirchhoffEdges.EdgeGroupRowAsWrittenDot | KirchhoffEdges.EdgeGroupRowDot |
| kirky/block.py:12 | `__hash__` returns a tuple, so adding an edge to the frame set raises `TypeError` | `seed_frame` on any block with one axis: the first seed edge cannot be hashed | hash the tuple, e.g. `hash((tail, head, id))` | not executed | BlockAsWritten.SeedFrameAsWritten | BlockLattice.SeedFrame |
| kirky/block.py:34 | `shape` is a generator expression, so `self.shape[dimension]` in `double` raises `TypeError` | `double(0)` on any block | a list of zeros | not executed | BlockAsWritten.DoubleAsWritten | BlockLattice.Double |
| kirky/block.py:63 | `needed_position` is a list, and `in self.vertices` hashes it, raising `TypeError` | `populate_interior` on any block with a vertex | test the tuple of the position | not executed | BlockAsWritten.PopulateInteriorAsWrittenFails | BlockLattice.PopulateInterior |
| kirky/block.py:76 | the copy's head coordinates are taken from the edge's tail | the unit edge from `[0]` to `[1]` copied by 1 along axis 0 gives `[1]` to `[1]` | copy the head from the edge's head | not executed | BlockLattice.CopyAsWrittenExample | BlockLattice.Copy |
| kirky/block.py:90 | `new_edges` is a list and `new_edges.add` raises `AttributeError` | `copy_and_add` on any nonempty frame, once the hash is repaired | `new_edges.append` | not executed | BlockAsWritten.CopyAndAddAsWrittenFails | BlockLattice.CopyAndAdd |
| kirky/block.py:87 | `Edge` has no `__eq__`, so `new_edge in edges` compares objects by identity and never finds a copy | a pass by distance 0 adds a second copy of every edge | compare edges by tail, head and id | not executed | BlockAsWritten.IdentityDuplicates | BlockLattice.Missing |
| kirky/block.py:39-53 | `seed_frame` never records `shape`, so a later `double` copies by 0 and makes no passes | `seed_frame([1])` then `double(0)` leaves the frame as it was | store the seeded shape | not executed | BlockLattice.SeedFrame | BlockLattice.SeedFrameShaped |
| kirky/new_kirky.py:20 | `populate_interior(edge)` omits the id argument and raises `TypeError` | any matrix with a column | `populate_interior(edge, edge.id)` | not executed | NewKirky.PopulateColumnsAsWritten | NewKirky.PopulateColumns |
| kirky/tableau.py:18 | the objective value is the list `[d]`, so `+=` a number at line 112 raises `TypeError` | every pivot | store `d` itself | not executed | Tableau.PivotAsWrittenFails | Tableau.Pivot |
| kirky/tableau.py:35 | `if given:` treats column 0 as absent | a pivot on column 0 of the one-row system `[1, 0]` gives the basis `[1]` | `if given is not None:` | not executed | Tableau.FindBasisLosesColumnZero | Tableau.FindBasis |
| kirky/tableau.py:59-67 | `continue` skips `i += 1`, so once a basis column is met the counter stops and no later column is chosen | objective `[0, -1]` with basis `[0]` gives no pivot column instead of column 1 | advance the counter on every entry | not executed | Tableau.PivotColumnAsWrittenStuck | Tableau.PivotColumnSpec |
| kirky/tableau.py:72-82 | a row with a negative entry is skipped by `continue` without `i += 1`, so later rows read the wrong right-hand side and are recorded under the wrong index (a zero entry raises `ZeroDivisionError`) | rows `[[-1], [1]]` with values `[5, 1]` pick row 0, whose entry is negative | skip non-positive entries and advance the counter every row | not executed | Tableau.PivotRowAsWrittenNegative | Tableau.PivotRow |
| kirky/edge.py:137 | the guard `dimension > self.dimension` lets `dimension == self.dimension` through, which then fails on the subscript | `AddShift(1, n)` on a block of dimension `n` with an edge | `dimension >= self.dimension`, as the message says | not executed | Blocks.ShiftGuardGap | Blocks.AddShift |
| block_q.py:20 | `__eq__` compares `self.head` with itself, so edges with the same tail are equal whatever their heads and ids | `Link([0], [1], 0)` equals `Link([0], [2], 1)` | compare `self.head` with `other.head` | not executed | BlockQ.EqualAsWrittenConflates | BlockQ.SameEndsMeaning |
