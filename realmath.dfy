/**
 * Exact-arithmetic stand-ins for the numeric library calls of the source (Python
 * `math.sqrt`, `math.ceil` and `round`, Java `Math.pow` and Guava's `factorial`). Floats
 * and BigDecimals are idealised as Dafny `real`.
 */
module RealMath {

  /**
   * `sqrt` behaves as the non-negative square root on non-negative arguments.
   * Square roots cannot be constructed in Dafny's real arithmetic, so every
   * operation that calls `math.sqrt` takes the root function as a parameter
   * constrained by this predicate.
   */
  ghost predicate IsSqrt(sqrt: real -> real) {
    forall x {:trigger sqrt(x)} :: 0.0 <= x ==> 0.0 <= sqrt(x) && sqrt(x) * sqrt(x) == x
  }

  lemma SquareMonotone(a: real, b: real)
    requires 0.0 <= a <= b
    ensures a * a <= b * b
  {
    assert a * a <= a * b;
    assert a * b <= b * b;
  }

  lemma SquareStrictlyMonotone(a: real, b: real)
    requires 0.0 <= a < b
    ensures a * a < b * b
  {
    var aa, ab, bb := a * a, a * b, b * b;
    assert aa <= ab;
    assert ab < bb by { assert (b - a) * b > 0.0; }
  }

  /** The root is determined by its square. */
  lemma SqrtOfSquare(sqrt: real -> real, s: real)
    requires IsSqrt(sqrt) && 0.0 <= s
    ensures sqrt(s * s) == s
  {
    var t := sqrt(s * s);
    assert 0.0 <= t && t * t == s * s;
    if t < s {
      SquareStrictlyMonotone(t, s);
    } else if s < t {
      SquareStrictlyMonotone(s, t);
    }
  }

  /** `sqrt(a * x) == sqrt(a) * sqrt(x)`, the step used to pull `mu**2` out of a root. */
  lemma SqrtOfProduct(sqrt: real -> real, a: real, x: real)
    requires IsSqrt(sqrt) && 0.0 <= a && 0.0 <= x
    ensures sqrt(a * x) == sqrt(a) * sqrt(x)
  {
    var sa, sx := sqrt(a), sqrt(x);
    assert sa * sa == a && sx * sx == x;
    var p := sa * sx;
    assert 0.0 <= p;
    assert p * p == (sa * sa) * (sx * sx);
    assert p * p == a * x;
    SqrtOfSquare(sqrt, p);
  }

  /** A non-negative number whose square is y is the root of y. */
  lemma SqrtUnique(sqrt: real -> real, y: real, t: real)
    requires IsSqrt(sqrt) && 0.0 <= t && t * t == y
    ensures sqrt(y) == t
  {
    var u := sqrt(y);
    assert 0.0 <= u && u * u == t * t;
    if u < t {
      SquareStrictlyMonotone(u, t);
    } else if t < u {
      SquareStrictlyMonotone(t, u);
    }
  }

  /** `sqrt(m * m * x) == m * sqrt(x)` for non-negative m and x. */
  lemma SqrtOfSquareTimes(sqrt: real -> real, m: real, x: real)
    requires IsSqrt(sqrt) && 0.0 <= m && 0.0 <= x
    ensures sqrt(m * m * x) == m * sqrt(x)
  {
    var sx := sqrt(x);
    assert 0.0 <= sx && sx * sx == x;
    var t := m * sx;
    assert 0.0 <= t;
    assert t * t == (m * m) * (sx * sx);
    SqrtUnique(sqrt, m * m * x, t);
  }

  /** Scaling a positive number by a factor in [0, 1) makes it smaller. */
  lemma ScaledBelow(m: real, s: real)
    requires m > 0.0 && 0.0 <= s < 1.0
    ensures 0.0 <= m * s < m
  {
    assert m * s < m * 1.0;
  }

  lemma NonNegativeProduct(a: real, b: real)
    requires 0.0 <= a && 0.0 <= b
    ensures 0.0 <= a * b
  {
  }

  lemma NonZeroProduct(a: real, b: real)
    requires a != 0.0 && b != 0.0
    ensures a * b != 0.0
  {
  }

  lemma PositiveProduct(a: real, b: real)
    requires 0.0 < a && 0.0 < b
    ensures 0.0 < a * b
  {
  }

  /** c = m**2 (1 - c2) is positive when m is and c2 < 1. */
  lemma SquareTimesComplementPositive(c: real, m: real, c2: real)
    requires c == (m * m) * (1.0 - c2) && m > 0.0 && c2 < 1.0
    ensures c > 0.0
  {
    var v := m * (1.0 - c2);
    assert v > 0.0;
    assert c == m * v;
    assert m * v > 0.0;
  }

  /** The square s of a non-zero x, passed as a value of its own, is positive. */
  lemma SquareOfNonZero(s: real, x: real)
    requires x != 0.0 && s == x * x
    ensures s > 0.0
  {
    var y := if x > 0.0 then x else -x;
    assert s == y * y;
    var h := y / 2.0;
    assert s == y * (h + h);
  }

  lemma SquarePositive(x: real)
    requires x != 0.0
    ensures x * x > 0.0
  {
    if x < 0.0 {
      assert x * x == (-x) * (-x);
    }
  }

  /** Taking reciprocals reverses the order of positive numbers. */
  lemma ReciprocalAntitone(a: real, b: real)
    requires 0.0 < a <= b
    ensures 0.0 < 1.0 / b <= 1.0 / a
  {
    var ra, rb := 1.0 / a, 1.0 / b;
    assert ra * a == 1.0 && rb * b == 1.0;
    assert (ra - rb) * (a * b) == b - a;
  }

  /** The reciprocal of a reciprocal, and of its square. */
  lemma Reciprocal(m: real, l: real)
    requires m != 0.0 && l == 1.0 / m
    ensures l != 0.0 && 1.0 / l == m && 1.0 / (l * l) == m * m
  {
    assert l * m == 1.0;
    assert (l * l) * (m * m) == 1.0;
  }

  /** Square roots are strictly increasing. */
  lemma SqrtStrictlyIncreasing(sqrt: real -> real, x: real, y: real)
    requires IsSqrt(sqrt) && 0.0 <= x < y
    ensures sqrt(x) < sqrt(y)
  {
    var sx, sy := sqrt(x), sqrt(y);
    assert sx * sx == x && sy * sy == y;
  }

  /** For a non-negative `cv`, `cv < 1/sqrt(2)` is the same test as `cv**2 < 1/2`. */
  lemma BelowInvSqrt2(sqrt: real -> real, cv: real)
    requires IsSqrt(sqrt) && 0.0 <= cv
    ensures sqrt(2.0) > 0.0
    ensures cv < 1.0 / sqrt(2.0) <==> cv * cv < 0.5
  {
    var r := sqrt(2.0);
    assert r * r == 2.0;
    assert r > 0.0;
    var c := cv * r;
    assert cv < 1.0 / r <==> c < 1.0 by {
      assert (1.0 / r) * r == 1.0;
    }
    assert c * c == 2.0 * (cv * cv);
    if c < 1.0 {
      SquareStrictlyMonotone(c, 1.0);
    } else {
      SquareMonotone(1.0, c);
    }
  }

  /** Python's `math.ceil`. */
  function Ceil(x: real): (n: int)
    ensures (n - 1) as real < x <= n as real
  {
    -((-x).Floor)
  }

  /** Python's `round` on a float: to the nearest integer, ties to the even one. */
  function RoundHalfEven(x: real): (n: int)
    ensures -0.5 <= x - n as real <= 0.5
    ensures x - n as real == 0.5 || x - n as real == -0.5 ==> n % 2 == 0
  {
    var f := x.Floor;
    var d := x - f as real;
    if d < 0.5 then f
    else if d > 0.5 then f + 1
    else if f % 2 == 0 then f
    else f + 1
  }

  /** `Math.pow` with a natural exponent; `Pow(0.0, 0) == 1.0` as in Java. */
  function Pow(x: real, n: nat): real {
    if n == 0 then 1.0 else x * Pow(x, n - 1)
  }

  lemma {:induction false} PowNonZero(x: real, n: nat)
    requires x != 0.0
    ensures Pow(x, n) != 0.0
  {
    if n > 0 {
      PowNonZero(x, n - 1);
    }
  }

  lemma PowOfZero(n: nat)
    requires n > 0
    ensures Pow(0.0, n) == 0.0
  {
  }

  function Factorial(n: nat): (f: nat)
    ensures f >= 1
  {
    if n == 0 then 1 else n * Factorial(n - 1)
  }
}
