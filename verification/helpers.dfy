/** The exact integer helpers: `gcd` and the least-common-multiple fold
    `common_denominator` over the denominators of a list of fractions. */
module Helpers {
  import opened Wrappers

  /** `d` divides `n` (only positive divisors are used). */
  predicate Divides(d: int, n: int)
  {
    d > 0 && n % d == 0
  }

  /** Euclid's algorithm, the value `math.gcd` returns for non-negative
      arguments. */
  function Gcd(a: nat, b: nat): nat
    decreases b
  {
    if b == 0 then a else Gcd(b, a % b)
  }

  /** Extended Euclid: the gcd together with Bezout coefficients. */
  function ExtGcd(a: nat, b: nat): (r: (nat, int, int))
    ensures r.0 == Gcd(a, b)
    ensures r.0 == r.1 * a + r.2 * b
    decreases b
  {
    if b == 0 then (a, 1, 0)
    else
      var t := ExtGcd(b, a % b);
      EuclidStep(a, b, t.0, t.1, t.2);
      (t.0, t.2, t.1 - (a / b) * t.2)
  }

  /** One step of the extended algorithm keeps the Bezout identity. */
  lemma {:induction false} EuclidStep(a: nat, b: nat, g: int, x: int, y: int)
    requires b > 0 && g == x * b + y * (a % b)
    ensures g == y * a + (x - (a / b) * y) * b
  {
    var q, m := a / b, a % b;
    assert a == q * b + m;
    calc {
      y * a + (x - q * y) * b;
      y * (q * b + m) + x * b - q * y * b;
      { assert y * (q * b + m) == y * q * b + y * m; }
      y * q * b + y * m + x * b - q * y * b;
      { assert y * q * b == q * y * b; }
      x * b + y * m;
    }
  }

  /** A multiple of a positive number is divisible by it. */
  lemma {:induction false} DividesMultiple(d: int, k: int)
    requires d > 0
    ensures Divides(d, d * k)
  {
    assert (d * k) / d == k by {
      assert d * k == d * k + 0;
    }
  }

  /** Divisibility by an explicit quotient. */
  lemma {:induction false} DividesWitness(d: int, n: int, k: int)
    requires d > 0 && n == d * k
    ensures Divides(d, n)
  {
    DividesMultiple(d, k);
  }

  /** The quotient of an exact division. */
  lemma {:induction false} DividesQuotient(d: int, n: int)
    requires Divides(d, n)
    ensures n == d * (n / d)
  {
  }

  /** Divisibility is transitive. */
  lemma {:induction false} DividesTrans(a: int, b: int, c: int)
    requires Divides(a, b) && Divides(b, c)
    ensures Divides(a, c)
  {
    var p, q := b / a, c / b;
    DividesQuotient(a, b);
    DividesQuotient(b, c);
    assert c == a * (p * q) by {
      assert c == (a * p) * q;
    }
    DividesWitness(a, c, p * q);
  }

  /** The gcd of two numbers, not both zero, divides both. */
  lemma {:induction false} GcdDivides(a: nat, b: nat)
    requires a > 0 || b > 0
    ensures Divides(Gcd(a, b), a) && Divides(Gcd(a, b), b)
    decreases b
  {
    if b == 0 {
      DividesWitness(a, a, 1);
      DividesWitness(a, 0, 0);
    } else {
      GcdDivides(b, a % b);
      var g := Gcd(b, a % b);
      var q := a / b;
      var s, t := b / g, (a % b) / g;
      DividesQuotient(g, b);
      DividesQuotient(g, a % b);
      assert a == g * (q * s + t) by {
        assert a == q * b + a % b;
        assert q * b == g * (q * s) by {
          assert b == g * s;
        }
      }
      DividesWitness(g, a, q * s + t);
    }
  }

  /** The least common multiple of two positive numbers, computed as the
      source does: `a * (b / gcd(a, b))`. */
  function Lcm(a: int, b: int): (r: int)
    requires a >= 1 && b >= 1
    ensures r >= 1
    ensures Divides(a, r) && Divides(b, r)
  {
    var g := Gcd(a, b);
    GcdDivides(a, b);
    var p, q := a / g, b / g;
    DividesQuotient(g, a);
    DividesQuotient(g, b);
    assert q >= 1 && p >= 1;
    assert a * q == b * p by {
      calc {
        a * q;
        (g * p) * q;
        p * (g * q);
        p * b;
      }
    }
    DividesMultiple(a, q);
    DividesMultiple(b, p);
    a * q
  }

  /** The lcm of two numbers divides each of their common multiples. */
  lemma {:induction false} LcmLeast(a: int, b: int, m: int)
    requires a >= 1 && b >= 1
    requires Divides(a, m) && Divides(b, m)
    ensures Divides(Lcm(a, b), m)
  {
    var e := ExtGcd(a, b);
    var g := e.0;
    GcdDivides(a, b);
    var q := b / g;
    DividesQuotient(g, a);
    DividesQuotient(g, b);
    DividesQuotient(a, m);
    DividesQuotient(b, m);
    var k := e.1 * (m / b) + e.2 * (m / a);
    BezoutMultiple(a, b, m, g, e.1, e.2, m / a, m / b);
    assert m * g == (a * q * k) * g by {
      LcmTimesGcd(a, b, g, a / g, q, k);
    }
    CancelPositive(m, a * q * k, g);
    DividesWitness(a * q, m, k);
  }

  /** With `g == x*a + y*b` and `m == a*s == b*t`, `m*g` is a multiple of `a*b`. */
  lemma {:induction false} BezoutMultiple(a: int, b: int, m: int, g: int, x: int, y: int, s: int, t: int)
    requires g == x * a + y * b && m == a * s && m == b * t
    ensures m * g == (a * b) * (x * t + y * s)
  {
    calc {
      m * g;
      m * (x * a) + m * (y * b);
      { assert m * (x * a) == x * (a * m) == x * (a * (b * t)); 
        assert m * (y * b) == y * (b * m) == y * (b * (a * s)); }
      x * (a * (b * t)) + y * (b * (a * s));
      (a * b) * (x * t) + (a * b) * (y * s);
    }
  }

  /** `a * b == (a * (b / g)) * g` when `g` divides `b`. */
  lemma {:induction false} LcmTimesGcd(a: int, b: int, g: int, p: int, q: int, k: int)
    requires b == g * q
    ensures (a * b) * k == (a * q * k) * g
  {
    calc {
      (a * b) * k;
      (a * (g * q)) * k;
      { assert a * (g * q) == (a * q) * g; }
      ((a * q) * g) * k;
      (a * q * k) * g;
    }
  }

  /** A positive factor cancels from both sides of an equation. */
  lemma {:induction false} CancelPositive(u: int, v: int, g: int)
    requires g > 0 && u * g == v * g
    ensures u == v
  {
  }

  /** Every entry is a valid fraction denominator. */
  predicate PositiveAll(ds: seq<int>)
  {
    forall i | 0 <= i < |ds| :: ds[i] >= 1
  }

  /** Continues the fold with the denominators `rest` (the source's loop over
      `denominators[2:]`). */
  function LcmFold(acc: int, rest: seq<int>): (r: int)
    requires acc >= 1 && PositiveAll(rest)
    ensures r >= 1 && Divides(acc, r)
    ensures forall i | 0 <= i < |rest| :: Divides(rest[i], r)
    decreases |rest|
  {
    if |rest| == 0 then
      DividesWitness(acc, acc, 1);
      acc
    else
      var next := Lcm(acc, rest[0]);
      var r := LcmFold(next, rest[1..]);
      DividesTrans(acc, next, r);
      DividesTrans(rest[0], next, r);
      assert forall i | 1 <= i < |rest| :: Divides(rest[i], r) by {
        forall i | 1 <= i < |rest| ensures Divides(rest[i], r) {
          assert rest[i] == rest[1..][i - 1];
        }
      }
      r
  }

  /** `common_denominator` over the denominators of the fractions: one input
      gives its denominator, several give the lcm fold, and no input fails
      with an index error (`denominators[0]` does not exist). The fold's
      `/` is integer division, as in `build/lib/kirky/helpers.py`; the
      Python 3 copy in `kirky/helpers.py` divides to a float instead. */
  function CommonDenominator(ds: seq<int>): (r: Result<int>)
    requires PositiveAll(ds)
    ensures r.Fail? <==> |ds| == 0
    ensures r.Fail? ==> r.error == IndexError
    ensures |ds| == 1 ==> r == Ok(ds[0])
    ensures r.Ok? ==> r.value >= 1 && forall i | 0 <= i < |ds| :: Divides(ds[i], r.value)
  {
    if |ds| == 0 then Fail(IndexError)
    else if |ds| == 1 then
      DividesWitness(ds[0], ds[0], 1);
      Ok(ds[0])
    else
      var first := Lcm(ds[0], ds[1]);
      var r := LcmFold(first, ds[2..]);
      DividesTrans(ds[0], first, r);
      DividesTrans(ds[1], first, r);
      assert forall i | 2 <= i < |ds| :: Divides(ds[i], r) by {
        forall i | 2 <= i < |ds| ensures Divides(ds[i], r) {
          assert ds[i] == ds[2..][i - 2];
        }
      }
      Ok(r)
  }

  /** The fold continued from `acc` divides every common multiple of `acc`
      and the remaining denominators. */
  lemma {:induction false} LcmFoldLeast(acc: int, rest: seq<int>, m: int)
    requires acc >= 1 && PositiveAll(rest)
    requires Divides(acc, m)
    requires forall i | 0 <= i < |rest| :: Divides(rest[i], m)
    ensures Divides(LcmFold(acc, rest), m)
    decreases |rest|
  {
    if |rest| > 0 {
      LcmLeast(acc, rest[0], m);
      LcmFoldLeast(Lcm(acc, rest[0]), rest[1..], m);
    }
  }

  /** The common denominator is the least one: it divides every common
      multiple of the denominators. */
  lemma {:induction false} CommonDenominatorLeast(ds: seq<int>, m: int)
    requires PositiveAll(ds) && |ds| > 0
    requires forall i | 0 <= i < |ds| :: Divides(ds[i], m)
    ensures CommonDenominator(ds).Ok?
    ensures Divides(CommonDenominator(ds).value, m)
  {
    if |ds| > 1 {
      LcmLeast(ds[0], ds[1], m);
      LcmFoldLeast(Lcm(ds[0], ds[1]), ds[2..], m);
    }
  }

  /** Scaling every fraction by the common denominator gives integers: the
      property both copies of `common_denominator` exist for. The fraction
      `ns[i] / ds[i]` times the common denominator is the integer
      `ns[i] * (common / ds[i])`. */
  lemma {:induction false} CommonDenominatorClearsFractions(ns: seq<int>, ds: seq<int>, i: int)
    requires PositiveAll(ds) && |ns| == |ds| && 0 <= i < |ds|
    ensures CommonDenominator(ds).Ok?
    ensures (ns[i] * CommonDenominator(ds).value) % ds[i] == 0
    ensures (ns[i] * CommonDenominator(ds).value) / ds[i] == ns[i] * (CommonDenominator(ds).value / ds[i])
  {
    ScaleClears(ns[i], ds[i], CommonDenominator(ds).value);
  }

  /** A multiple `c` of `d` turns `n / d` into an integer. */
  lemma {:induction false} ScaleClears(n: int, d: int, c: int)
    requires Divides(d, c)
    ensures (n * c) % d == 0 && (n * c) / d == n * (c / d)
  {
    var q := c / d;
    DividesQuotient(d, c);
    assert n * c == d * (n * q) by {
      assert n * (d * q) == d * (n * q);
    }
    DividesWitness(d, n * c, n * q);
    ExactQuotient(d, n * c, n * q);
  }

  /** An exact division's quotient is the witness. */
  lemma {:induction false} ExactQuotient(d: int, n: int, k: int)
    requires d > 0 && n == d * k
    ensures n / d == k
  {
    DividesMultiple(d, k);
    assert (d * k) / d == k by {
      assert d * k == d * k + 0;
    }
  }
}
