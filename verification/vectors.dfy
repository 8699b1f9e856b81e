/** Exact vectors of rationals (Python `Fraction` lists) and the algebra the
    tableaux rely on: element-wise sums, scaling and dot products. */
module Vectors {

  type Vector = seq<real>

  /** A vector of `n` zeros. */
  function Zeros(n: nat): (r: Vector)
    ensures |r| == n
    ensures forall i | 0 <= i < n :: r[i] == 0.0
  {
    seq(n, _ => 0.0)
  }

  /** A vector of `n` ones. */
  function Ones(n: nat): (r: Vector)
    ensures |r| == n
    ensures forall i | 0 <= i < n :: r[i] == 1.0
  {
    seq(n, _ => 1.0)
  }

  /** The `k`-th unit vector of length `n`. */
  function Unit(n: nat, k: nat): (r: Vector)
    ensures |r| == n
    ensures forall i | 0 <= i < n :: r[i] == if i == k then 1.0 else 0.0
  {
    seq(n, i => if i == k then 1.0 else 0.0)
  }

  /** Element-wise sum over the length of the first argument; the second
      argument may be longer (Python `add_vectors`). */
  function Add(a: Vector, b: Vector): (r: Vector)
    requires |a| <= |b|
    ensures |r| == |a|
    ensures forall i {:trigger r[i]} | 0 <= i < |a| :: r[i] == a[i] + b[i]
  {
    if |a| == 0 then [] else [a[0] + b[0]] + Add(a[1..], b[1..])
  }

  /** Every entry multiplied by `k`. */
  function Scale(k: real, a: Vector): (r: Vector)
    ensures |r| == |a|
    ensures forall i {:trigger r[i]} | 0 <= i < |a| :: r[i] == k * a[i]
  {
    if |a| == 0 then [] else [k * a[0]] + Scale(k, a[1..])
  }

  /** Element-wise negation. */
  function Neg(a: Vector): (r: Vector)
    ensures |r| == |a|
    ensures forall i {:trigger r[i]} | 0 <= i < |a| :: r[i] == -a[i]
  {
    if |a| == 0 then [] else [-a[0]] + Neg(a[1..])
  }

  /** Every entry divided by `d`. */
  function Div(a: Vector, d: real): (r: Vector)
    requires d != 0.0
    ensures |r| == |a|
    ensures forall i {:trigger r[i]} | 0 <= i < |a| :: r[i] == a[i] / d
  {
    if |a| == 0 then [] else [a[0] / d] + Div(a[1..], d)
  }

  function Dot(a: Vector, x: Vector): real
    requires |a| == |x|
  {
    if |a| == 0 then 0.0 else a[0] * x[0] + Dot(a[1..], x[1..])
  }

  function Sum(a: Vector): real
  {
    if |a| == 0 then 0.0 else a[0] + Sum(a[1..])
  }

  predicate NonNegative(x: Vector)
  {
    forall i | 0 <= i < |x| :: x[i] >= 0.0
  }

  /** The dot product is additive in its first argument. */
  lemma {:induction false} DotAdd(a: Vector, b: Vector, x: Vector)
    requires |a| == |b| == |x|
    ensures Dot(Add(a, b), x) == Dot(a, x) + Dot(b, x)
  {
    if |a| > 0 {
      DotAdd(a[1..], b[1..], x[1..]);
      assert Add(a, b)[1..] == Add(a[1..], b[1..]);
    }
  }

  /** The dot product is homogeneous in its first argument. */
  lemma {:induction false} DotScale(k: real, a: Vector, x: Vector)
    requires |a| == |x|
    ensures Dot(Scale(k, a), x) == k * Dot(a, x)
  {
    if |a| > 0 {
      DotScale(k, a[1..], x[1..]);
      assert Scale(k, a)[1..] == Scale(k, a[1..]);
      calc {
        Dot(Scale(k, a), x);
        k * a[0] * x[0] + Dot(Scale(k, a[1..]), x[1..]);
        k * a[0] * x[0] + k * Dot(a[1..], x[1..]);
        k * (a[0] * x[0] + Dot(a[1..], x[1..]));
      }
    }
  }

  /** Negating the first argument negates the dot product. */
  lemma {:induction false} DotNeg(a: Vector, x: Vector)
    requires |a| == |x|
    ensures Dot(Neg(a), x) == -Dot(a, x)
  {
    if |a| > 0 {
      DotNeg(a[1..], x[1..]);
      assert Neg(a)[1..] == Neg(a[1..]);
    }
  }

  /** Dividing the first argument divides the dot product. */
  lemma {:induction false} DotDiv(a: Vector, d: real, x: Vector)
    requires |a| == |x| && d != 0.0
    ensures Dot(Div(a, d), x) == Dot(a, x) / d
  {
    if |a| > 0 {
      DotDiv(a[1..], d, x[1..]);
      assert Div(a, d)[1..] == Div(a[1..], d);
      DivDistributes(a[0], x[0], Dot(a[1..], x[1..]), d);
    }
  }

  /** `(a / d) * x + r / d == (a * x + r) / d`. */
  lemma {:induction false} DivDistributes(a: real, x: real, r: real, d: real)
    requires d != 0.0
    ensures (a / d) * x + r / d == (a * x + r) / d
  {
  }

  /** The dot product splits over concatenation. */
  lemma {:induction false} DotConcat(a: Vector, b: Vector, x: Vector, y: Vector)
    requires |a| == |x| && |b| == |y|
    ensures Dot(a + b, x + y) == Dot(a, x) + Dot(b, y)
  {
    if |a| > 0 {
      assert (a + b)[1..] == a[1..] + b;
      assert (x + y)[1..] == x[1..] + y;
      DotConcat(a[1..], b, x[1..], y);
    } else {
      assert a + b == b && x + y == y;
    }
  }

  /** Dotting with a vector that is zero outside position `p` picks out one term. */
  lemma {:induction false} DotSparse(a: Vector, x: Vector, p: nat)
    requires |a| == |x| && p < |x|
    requires forall i | 0 <= i < |x| && i != p :: x[i] == 0.0
    ensures Dot(a, x) == a[p] * x[p]
  {
    if p == 0 {
      DotZero(a[1..], x[1..]);
    } else {
      DotSparse(a[1..], x[1..], p - 1);
    }
  }

  /** Dotting with the zero vector gives zero. */
  lemma {:induction false} DotZero(a: Vector, x: Vector)
    requires |a| == |x|
    requires forall i | 0 <= i < |x| :: x[i] == 0.0
    ensures Dot(a, x) == 0.0
  {
    if |a| > 0 {
      DotZero(a[1..], x[1..]);
    }
  }

  /** A dot product whose every term vanishes is zero. */
  lemma {:induction false} DotTermsZero(a: Vector, x: Vector)
    requires |a| == |x|
    requires forall i | 0 <= i < |x| :: a[i] * x[i] == 0.0
    ensures Dot(a, x) == 0.0
  {
    if |a| > 0 {
      assert forall i | 0 <= i < |x| - 1 :: a[1..][i] * x[1..][i] == a[i + 1] * x[i + 1];
      DotTermsZero(a[1..], x[1..]);
    }
  }

  /** A dot product whose terms vanish outside position `p` is its term at `p`. */
  lemma {:induction false} DotOneTerm(a: Vector, x: Vector, p: nat)
    requires |a| == |x| && p < |x|
    requires forall i | 0 <= i < |x| && i != p :: a[i] * x[i] == 0.0
    ensures Dot(a, x) == a[p] * x[p]
  {
    assert forall i | 0 <= i < |x| - 1 :: a[1..][i] * x[1..][i] == a[i + 1] * x[i + 1];
    if p == 0 {
      DotTermsZero(a[1..], x[1..]);
    } else {
      DotOneTerm(a[1..], x[1..], p - 1);
    }
  }

  /** Dotting with all ones sums the vector. */
  lemma {:induction false} DotOnes(a: Vector)
    ensures Dot(a, Ones(|a|)) == Sum(a)
  {
    if |a| > 0 {
      assert Ones(|a|)[1..] == Ones(|a| - 1);
      DotOnes(a[1..]);
    }
  }

  /** Dotting the zero vector with anything gives zero. */
  lemma {:induction false} ZerosDot(x: Vector)
    ensures Dot(Zeros(|x|), x) == 0.0
  {
    if |x| > 0 {
      assert Zeros(|x|)[1..] == Zeros(|x| - 1);
      ZerosDot(x[1..]);
    }
  }

  /** Dotting all ones with a vector sums the vector. */
  lemma {:induction false} OnesDot(x: Vector)
    ensures Dot(Ones(|x|), x) == Sum(x)
  {
    if |x| > 0 {
      assert Ones(|x|)[1..] == Ones(|x| - 1);
      OnesDot(x[1..]);
    }
  }

  /** Two non-negative vectors have a non-negative dot product. */
  lemma {:induction false} DotNonNegative(a: Vector, x: Vector)
    requires |a| == |x| && NonNegative(a) && NonNegative(x)
    ensures Dot(a, x) >= 0.0
  {
    if |a| > 0 {
      DotNonNegative(a[1..], x[1..]);
    }
  }

  lemma {:induction false} SelfDotNonNegative(a: Vector)
    ensures Dot(a, a) >= 0.0
  {
    if |a| > 0 {
      SelfDotNonNegative(a[1..]);
      assert a[0] * a[0] >= 0.0;
    }
  }

  /** The row operation of both tableaux: `k` times `pv` added to `row`. */
  function ShiftRow(row: Vector, k: real, pv: Vector): (r: Vector)
    requires |row| <= |pv|
    ensures |r| == |row|
    ensures forall i {:trigger r[i]} | 0 <= i < |row| :: r[i] == row[i] + k * pv[i]
  {
    Add(row, Scale(k, pv))
  }

  /** The right-hand side that goes with `ShiftRow`. */
  function ShiftValue(value: real, k: real, pvalue: real): real
  {
    value + k * pvalue
  }

  /** Adding `k` times a row to another shifts their dot product by `k`
      times the added row's dot product. */
  lemma {:induction false} ShiftDot(row: Vector, pv: Vector, k: real, x: Vector)
    requires |row| == |pv| == |x|
    ensures Dot(ShiftRow(row, k, pv), x) == ShiftValue(Dot(row, x), k, Dot(pv, x))
  {
    DotAdd(row, Scale(k, pv), x);
    DotScale(k, pv, x);
  }

  /** The shifted equation holds exactly when the original one does. */
  lemma {:induction false} ShiftEquation(row: Vector, value: real, pv: Vector, pvalue: real, k: real, x: Vector)
    requires |row| == |pv| == |x| && Dot(pv, x) == pvalue
    ensures Dot(ShiftRow(row, k, pv), x) == ShiftValue(value, k, pvalue) <==> Dot(row, x) == value
  {
    ShiftDot(row, pv, k, x);
  }

  /** Shifting a row and a value together keeps their difference on `x`. */
  lemma {:induction false} ShiftDifference(row: Vector, value: real, pv: Vector, pvalue: real, k: real, x: Vector)
    requires |row| == |pv| == |x| && Dot(pv, x) == pvalue
    ensures Dot(ShiftRow(row, k, pv), x) - ShiftValue(value, k, pvalue) == Dot(row, x) - value
  {
    ShiftDot(row, pv, k, x);
  }

  /** Dividing a row and its right-hand side by the same number keeps its
      equation. */
  lemma {:induction false} DivEquation(row: Vector, value: real, d: real, x: Vector)
    requires |row| == |x| && d != 0.0
    ensures Dot(Div(row, d), x) == value / d <==> Dot(row, x) == value
  {
    DotDiv(row, d, x);
    DivCancel(Dot(row, x), value, d);
  }

  /** Division by a non-zero number is injective. */
  lemma {:induction false} DivCancel(a: real, b: real, d: real)
    requires d != 0.0
    ensures a / d == b / d <==> a == b
  {
    if a / d == b / d {
      assert a == (a / d) * d && b == (b / d) * d;
    }
  }

  /** A non-zero number divided by itself is 1. */
  lemma {:induction false} DivSelf(d: real)
    requires d != 0.0
    ensures d / d == 1.0
  {
  }
}
