/** The splitting linear programs of `kirky/splitter.py`: a norm `x` that
    puts every input vector on its non-negative side is sought as
    `x = s⁺ - s⁻` with non-negative parts.  The simplex solver the module
    imports is not part of this model and enters as a parameter. */
module Splitter {
  import opened Wrappers
  import opened Vectors

  /** A vector whose self dot product is 0, i.e. the zero vector. */
  predicate Null(v: Vector)
  {
    Dot(v, v) == 0.0
  }

  /** Over the reals the self dot product vanishes exactly on the zero
      vector. */
  lemma {:induction false} NullIsZero(v: Vector)
    ensures Null(v) <==> forall i | 0 <= i < |v| :: v[i] == 0.0
  {
    if exists k | 0 <= k < |v| :: v[k] != 0.0 {
      var k :| 0 <= k < |v| && v[k] != 0.0;
      SelfDotPositive(v, k);
    } else {
      DotZero(v);
    }
  }

  /** A nonzero entry makes the self dot product strictly positive. */
  lemma {:induction false} SelfDotPositive(v: Vector, k: nat)
    requires k < |v| && v[k] != 0.0
    ensures Dot(v, v) > 0.0
  {
    forall i | 0 <= i < |v|
      ensures v[i] * v[i] >= 0.0
    {
      if v[i] != 0.0 { SquarePositive(v[i]); }
    }
    SquarePositive(v[k]);
    DotPositive(v, v, k);
  }

  /** Products are kept as atoms here: the solver handles `a[i] * x[i]`
      better than a square spelled out inside a sum. */
  lemma {:induction false} DotPositive(a: Vector, x: Vector, k: nat)
    requires |a| == |x| && k < |a|
    requires forall i | 0 <= i < |a| :: a[i] * x[i] >= 0.0
    requires a[k] * x[k] > 0.0
    ensures Dot(a, x) > 0.0
  {
    if k == 0 {
      DotNonNegativeTerms(a[1..], x[1..]);
    } else {
      DotPositive(a[1..], x[1..], k - 1);
      assert a[0] * x[0] >= 0.0;
    }
  }

  lemma {:induction false} DotNonNegativeTerms(a: Vector, x: Vector)
    requires |a| == |x|
    requires forall i | 0 <= i < |a| :: a[i] * x[i] >= 0.0
    ensures Dot(a, x) >= 0.0
  {
    if |a| > 0 {
      DotNonNegativeTerms(a[1..], x[1..]);
      assert a[0] * x[0] >= 0.0;
    }
  }

  lemma {:induction false} DotZero(v: Vector)
    requires forall i | 0 <= i < |v| :: v[i] == 0.0
    ensures Dot(v, v) == 0.0
  {
    if |v| > 0 {
      var t := v[1..];
      assert forall i | 0 <= i < |t| :: t[i] == v[i + 1];
      DotZero(t);
    }
  }

  lemma {:induction false} SquarePositive(a: real)
    requires a != 0.0
    ensures a * a > 0.0
  {
    if a < 0.0 {
      var b := -a;
      assert a * a == b * b;
      assert b * b > 0.0;
    } else {
      assert a * a > 0.0;
    }
  }

  /** `clean`: the vectors that are not null, in their original order. */
  function Clean(vs: seq<Vector>): (r: seq<Vector>)
    ensures |r| <= |vs|
    ensures forall i | 0 <= i < |r| :: r[i] in vs && !Null(r[i])
    ensures forall v | v in vs && !Null(v) :: v in r
  {
    if |vs| == 0 then []
    else if Null(vs[0]) then Clean(vs[1..])
    else [vs[0]] + Clean(vs[1..])
  }

  /** `v` is kept by `Clean` exactly when it is an input and not null. */
  lemma {:induction false} CleanMembers(vs: seq<Vector>, v: Vector)
    ensures v in Clean(vs) <==> v in vs && !Null(v)
  {
  }

  /** The cleaned sequence is a subsequence: `Clean` on a concatenation is
      the concatenation of the cleaned parts, so relative order is kept. */
  lemma {:induction false} CleanConcat(a: seq<Vector>, b: seq<Vector>)
    ensures Clean(a + b) == Clean(a) + Clean(b)
  {
    if |a| == 0 {
      assert a + b == b;
    } else {
      assert (a + b)[1..] == a[1..] + b;
      CleanConcat(a[1..], b);
    }
  }

  /** Cleaning twice changes nothing. */
  lemma {:induction false} CleanIdempotent(vs: seq<Vector>)
    ensures Clean(Clean(vs)) == Clean(vs)
  {
    if |vs| > 0 {
      CleanIdempotent(vs[1..]);
      if !Null(vs[0]) {
        CleanConcat([vs[0]], Clean(vs[1..]));
        assert Clean([vs[0]]) == [vs[0]] by {
          assert [vs[0]][1..] == [];
        }
      }
    }
  }

  /** Is the reflection of some `vs[j]` with `j >= from` among `vs`? */
  function NegativesFrom(vs: seq<Vector>, from: nat): (r: bool)
    requires from <= |vs|
    ensures r <==> exists i, j | from <= i < |vs| && 0 <= j < |vs| :: vs[j] == Neg(vs[i])
    decreases |vs| - from
  {
    if from == |vs| then false
    else if Neg(vs[from]) in vs then true
    else NegativesFrom(vs, from + 1)
  }

  /** `negatives`: some vector's reflection is also an input vector. */
  function Negatives(vs: seq<Vector>): (r: bool)
    ensures r <==> exists i, j | 0 <= i < |vs| && 0 <= j < |vs| :: vs[j] == Neg(vs[i])
  {
    NegativesFrom(vs, 0)
  }

  /** A zero vector is its own reflection, so any input holding one has
      negatives; the relation is also symmetric in the pair. */
  lemma {:induction false} NegativesZero(vs: seq<Vector>, k: nat)
    requires k < |vs| && forall i | 0 <= i < |vs[k]| :: vs[k][i] == 0.0
    ensures Negatives(vs)
  {
    assert vs[k] == Neg(vs[k]);
  }

  lemma {:induction false} NegativesSymmetric(vs: seq<Vector>, i: nat, j: nat)
    requires i < |vs| && j < |vs| && vs[j] == Neg(vs[i])
    ensures vs[i] == Neg(vs[j])
  {
    assert |vs[i]| == |vs[j]|;
    assert forall k | 0 <= k < |vs[i]| :: vs[i][k] == Neg(vs[j])[k];
  }

  /** `id_row` with `-1` at `i`: the negated unit vector. */
  function NegUnit(n: nat, i: nat): (r: Vector)
    ensures |r| == n
    ensures forall k | 0 <= k < n :: r[k] == if k == i then -1.0 else 0.0
  {
    seq(n, k => if k == i then -1.0 else 0.0)
  }

  /** Row `i` of `Splitter`: `v ++ -v ++ [-1] ++ -e_i`. */
  function SplitterRow(v: Vector, i: nat, n: nat): (r: Vector)
    ensures |r| == 2 * |v| + 1 + n
    ensures r[..|v|] == v && r[|v|..2 * |v|] == Neg(v) && r[2 * |v|] == -1.0
    ensures r[2 * |v| + 1..] == NegUnit(n, i)
  {
    v + Neg(v) + [-1.0] + NegUnit(n, i)
  }

  /** Row `i` of `SlackSplitter`: `v ++ -v ++ -e_i ++ e_i`. */
  function SlackRow(v: Vector, i: nat, n: nat): (r: Vector)
    ensures |r| == 2 * |v| + 2 * n
    ensures r[..|v|] == v && r[|v|..2 * |v|] == Neg(v)
    ensures r[2 * |v|..2 * |v| + n] == NegUnit(n, i) && r[2 * |v| + n..] == Neg(NegUnit(n, i))
  {
    v + Neg(v) + NegUnit(n, i) + Neg(NegUnit(n, i))
  }

  /** A linear program `A x ? b` with objective `c`, as handed to the solver. */
  datatype Program = Program(a: seq<Vector>, b: Vector, c: Vector)

  /** The constructor of `Splitter`: `None` (infeasible) when no vector
      survives cleaning; otherwise one row per cleaned vector, every
      right-hand side 1 and a zero objective over the row length. */
  function SplitterProgram(vectors: seq<Vector>): (r: Option<Program>)
    ensures r.None? <==> |Clean(vectors)| == 0
    ensures r.Some? ==> var vs := Clean(vectors);
      |r.value.a| == |vs| && r.value.b == Ones(|vs|) && r.value.c == Zeros(|r.value.a[0]|)
      && forall i | 0 <= i < |vs| :: r.value.a[i] == SplitterRow(vs[i], i, |vs|)
  {
    var vs := Clean(vectors);
    if |vs| == 0 then None
    else
      var a := seq(|vs|, i requires 0 <= i < |vs| => SplitterRow(vs[i], i, |vs|));
      Some(Program(a, Ones(|a|), Zeros(|a[0]|)))
  }

  /** The constructor of `SlackSplitter`: the same rows with slack columns,
      and the objective `0^(2·dimension + n) ++ (-1)^n`, where `dimension`
      is the length of the first cleaned vector. */
  function SlackProgram(vectors: seq<Vector>): (r: Option<Program>)
    ensures r.None? <==> |Clean(vectors)| == 0
    ensures r.Some? ==> var vs := Clean(vectors);
      |r.value.a| == |vs| && r.value.b == Ones(|vs|)
      && r.value.c == Zeros(2 * |vs[0]| + |vs|) + Neg(Ones(|vs|))
      && forall i | 0 <= i < |vs| :: r.value.a[i] == SlackRow(vs[i], i, |vs|)
  {
    var vs := Clean(vectors);
    if |vs| == 0 then None
    else
      var a := seq(|vs|, i requires 0 <= i < |vs| => SlackRow(vs[i], i, |vs|));
      Some(Program(a, Ones(|a|), Zeros(2 * |vs[0]| + |a|) + Neg(Ones(|a|))))
  }

  /** `convert_simplex_solution`: the norm `s[i] - s[i + dimension]`; a
      solution shorter than `2·dimension` fails on the subscript. */
  function Convert(s: Vector, dimension: nat): (r: Result<Vector>)
    ensures r.Fail? <==> dimension > 0 && |s| < 2 * dimension
    ensures r.Fail? ==> r.error == IndexError
    ensures r.Ok? ==> |r.value| == dimension
    ensures r.Ok? ==> forall i | 0 <= i < dimension :: r.value[i] == s[i] - s[i + dimension]
  {
    if dimension > 0 && |s| < 2 * dimension then Fail(IndexError)
    else Ok(seq(dimension, i requires 0 <= i < dimension => s[i] - s[i + dimension]))
  }

  /** The positive and negative parts of a norm, laid out as the solver's
      first `2·dimension` variables. */
  function Parts(x: Vector): (s: Vector)
    ensures |s| == 2 * |x| && NonNegative(s)
  {
    seq(2 * |x|, k requires 0 <= k < 2 * |x| =>
      if k < |x| then (if x[k] > 0.0 then x[k] else 0.0)
      else (if x[k - |x|] < 0.0 then -x[k - |x|] else 0.0))
  }

  /** Every norm is reachable: converting its positive and negative parts,
      followed by any slack values, gives it back. */
  lemma {:induction false} ConvertParts(x: Vector, slack: Vector)
    ensures Convert(Parts(x) + slack, |x|) == Ok(x)
  {
    var s := Parts(x) + slack;
    var r := Convert(s, |x|);
    assert r.Ok? && |r.value| == |x|;
    assert r.value == x by {
      forall i | 0 <= i < |x|
        ensures r.value[i] == x[i]
      {
        assert s[i] == Parts(x)[i] && s[i + |x|] == Parts(x)[i + |x|];
      }
    }
  }

  /** The constraint part `v ++ -v` of a row, applied to the solver's
      variables, is `v` applied to the converted norm. */
  lemma {:induction false} ConvertDot(v: Vector, s: Vector, x: Vector)
    requires |s| == 2 * |v| && Convert(s, |v|) == Ok(x)
    ensures Dot(v + Neg(v), s) == Dot(v, x)
  {
    DotConcat(v, Neg(v), s[..|v|], s[|v|..]);
    assert s[..|v|] + s[|v|..] == s;
    ConvertDotParts(v, s[..|v|], s[|v|..], x);
  }

  lemma {:induction false} ConvertDotParts(v: Vector, p: Vector, m: Vector, x: Vector)
    requires |p| == |v| && |m| == |v| && |x| == |v|
    requires forall i | 0 <= i < |v| :: x[i] == p[i] - m[i]
    ensures Dot(v, p) + Dot(Neg(v), m) == Dot(v, x)
  {
    if |v| > 0 {
      ConvertDotParts(v[1..], p[1..], m[1..], x[1..]);
      assert Neg(v)[1..] == Neg(v[1..]);
    }
  }

  /** The module's `dot`: it runs over the first vector's length, so a
      shorter second vector fails on the subscript. */
  function PyDot(v: Vector, w: Vector): (r: Result<real>)
    ensures r.Fail? <==> |w| < |v|
    ensures r.Ok? ==> r.value == Dot(v, w[..|v|])
  {
    if |w| < |v| then Fail(IndexError) else Ok(Dot(v, w[..|v|]))
  }

  /** The non-exact `check_norm`, read exactly: a vector fails only when
      its dot product with the norm is below `-10^-12`. */
  const Tolerance: real := 1.0 / 1000000000000.0

  /** A vector on the non-negative side of `norm`, up to the tolerance. */
  predicate Above(v: Vector, norm: Vector)
    requires |v| <= |norm|
  {
    Dot(v, norm[..|v|]) >= -Tolerance
  }

  function CheckNormFrom(vs: seq<Vector>, norm: Vector, from: nat): (r: Result<bool>)
    requires from <= |vs|
    ensures r == Ok(true) ==> forall i | from <= i < |vs| :: |vs[i]| <= |norm| && Above(vs[i], norm)
    ensures (forall i | from <= i < |vs| :: |vs[i]| <= |norm|) ==>
      r == Ok(forall i | from <= i < |vs| :: Above(vs[i], norm))
    decreases |vs| - from
  {
    if from == |vs| then Ok(true)
    else
      match PyDot(vs[from], norm)
      case Fail(e) => Fail(e)
      case Ok(d) =>
        if (if d < 0.0 then -d else d) <= Tolerance then CheckNormFrom(vs, norm, from + 1)
        else if d < 0.0 then Ok(false)
        else CheckNormFrom(vs, norm, from + 1)
  }

  /** `check_norm`: every cleaned vector lies on the norm's non-negative
      side, up to the tolerance; a vector longer than the norm fails on
      the subscript when the scan reaches it. */
  function CheckNorm(vs: seq<Vector>, norm: Vector): (r: Result<bool>)
    ensures r == Ok(true) ==> forall i | 0 <= i < |vs| :: |vs[i]| <= |norm| && Above(vs[i], norm)
    ensures (forall i | 0 <= i < |vs| :: |vs[i]| <= |norm|) ==>
      r == Ok(forall i | 0 <= i < |vs| :: Above(vs[i], norm))
  {
    CheckNormFrom(vs, norm, 0)
  }

  /** The solver `Splitter.split` calls. The source imports it as
      `Simplex` from `tableau` (splitter.py:1), a name `kirky/tableau.py`
      does not define, so importing the module raises `ImportError`; here
      it is a parameter that answers `None` when the program is infeasible
      and a solution vector otherwise. */
  type Solver = Program -> Option<Vector>

  /** `Splitter.split`: `None` when cleaning left nothing or the solver
      finds the program infeasible; otherwise the norm converted from the
      solver's answer over the first cleaned vector's dimension. */
  function Split(vectors: seq<Vector>, solve: Solver): (r: Result<Option<Vector>>)
    ensures SplitterProgram(vectors).None? ==> r == Ok(None)
    ensures SplitterProgram(vectors).Some? && solve(SplitterProgram(vectors).value).None? ==> r == Ok(None)
    ensures r.Ok? && r.value.Some? ==>
      (|Clean(vectors)| > 0 && solve(SplitterProgram(vectors).value).Some?
       && Convert(solve(SplitterProgram(vectors).value).value, |Clean(vectors)[0]|) == Ok(r.value.value))
  {
    match SplitterProgram(vectors)
    case None => Ok(None)
    case Some(p) =>
      match solve(p)
      case None => Ok(None)
      case Some(s) =>
        var vs := Clean(vectors);
        match Convert(s, |vs[0]|)
        case Fail(e) => Fail(e)
        case Ok(norm) => Ok(Some(norm))
  }

  /** `SlackSplitter.split`: as `Split`, and a norm that fails
      `check_norm` is dropped, so every norm returned puts every cleaned
      vector on its non-negative side. */
  function SlackSplit(vectors: seq<Vector>, solve: Solver): (r: Result<Option<Vector>>)
    ensures SlackProgram(vectors).None? ==> r == Ok(None)
    ensures SlackProgram(vectors).Some? && solve(SlackProgram(vectors).value).None? ==> r == Ok(None)
    ensures r.Ok? && r.value.Some? ==> var vs := Clean(vectors);
      |vs| > 0 && |r.value.value| == |vs[0]|
      && forall i | 0 <= i < |vs| :: |vs[i]| <= |vs[0]| && Above(vs[i], r.value.value)
  {
    match SlackProgram(vectors)
    case None => Ok(None)
    case Some(p) =>
      match solve(p)
      case None => Ok(None)
      case Some(s) =>
        var vs := Clean(vectors);
        match Convert(s, |vs[0]|)
        case Fail(e) => Fail(e)
        case Ok(norm) =>
          match CheckNorm(vs, norm)
          case Fail(e) => Fail(e)
          case Ok(good) => if good then Ok(Some(norm)) else Ok(None)
  }

  /** A solver answer holding the parts of a norm yields that norm. */
  lemma {:induction false} SplitFindsNorm(vectors: seq<Vector>, solve: Solver, x: Vector, slack: Vector)
    requires SplitterProgram(vectors).Some?
    requires solve(SplitterProgram(vectors).value) == Some(Parts(x) + slack)
    requires |x| == |Clean(vectors)[0]|
    ensures Split(vectors, solve) == Ok(Some(x))
  {
    ConvertParts(x, slack);
  }
}
