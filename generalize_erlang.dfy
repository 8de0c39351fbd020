/**
 * GeneralizeErlangTime.java: k exponential phases of rate `rate1` followed by one phase of
 * rate `rate2`. The object's fields have setters, so it is a class. `PDF` and `CDF`
 * accumulate sums in loops; they are methods proved against the series functions below.
 * BigDecimal and double arithmetic is idealised as `real`, `Math.pow` with a natural
 * exponent is RealMath.Pow, Guava's `factorial` is RealMath.Factorial and `Math.exp` is the
 * parameter `exp`.
 */
module GeneralizeErlang {
  import opened Wrappers
  import opened RealMath
  import opened PhaseType
  import opened StochasticTimes

  /** `Math.abs(r1 - r2) < 1e-9`: the rates are treated as equal and the law as Erlang(k+1, r1). */
  predicate NearlyEqual(r1: real, r2: real) {
    -0.000000001 < r1 - r2 < 0.000000001
  }

  // The series below take e1 = e^(-rate1 t) and e2 = e^(-rate2 t), the only two values at
  // which `PDF` and `CDF` evaluate `Math.exp`, as numbers.

  /** Density of Erlang(k+1, r1): r1**(k+1) t**k e^(-r1 t) / k!. */
  function ErlangDensity(k: nat, r1: real, t: real, e1: real): real {
    Pow(r1, k + 1) * Pow(t, k) * e1 / Factorial(k) as real
  }

  /** j! delta**(k-j), the divisor shared by the rounds of `PDF` and `CDF`. */
  function RoundDivisor(j: nat, delta: real, k: nat): (d: real)
    requires delta != 0.0 && j <= k
    ensures d != 0.0
  {
    PowNonZero(delta, k - j);
    NonZeroProduct(Factorial(j) as real, Pow(delta, k - j));
    Factorial(j) as real * Pow(delta, k - j)
  }

  /** The j-th summand of the bracket of `term2` in `PDF`: t**j / (j! delta**(k-j)). */
  function DensityTerm(t: real, delta: real, k: nat, j: nat): real
    requires delta != 0.0 && j <= k
  {
    Pow(t, j) / RoundDivisor(j, delta, k)
  }

  /** The bracket of `term2` in `PDF` after its first n rounds. */
  function DensitySeries(t: real, delta: real, k: nat, n: nat): real
    requires delta != 0.0 && n <= k
  {
    if n == 0 then 0.0 else DensitySeries(t, delta, k, n - 1) + DensityTerm(t, delta, k, n - 1)
  }

  /** `PDF(t)` for distinct rates: term1 - term2, with delta = r1 - r2 != 0. */
  function DistinctRatesDensity(k: nat, r1: real, r2: real, t: real, e1: real, e2: real): real
    requires r1 - r2 != 0.0
  {
    var delta := r1 - r2;
    PowNonZero(delta, k);
    var term1 := (Pow(r1, k) * r2 / Pow(delta, k)) * e2;
    var term2 := DensitySeries(t, delta, k, k) * (Pow(r1, k) * r2 * e1);
    term1 - term2
  }

  /**
   * `PDF(t)`: 0 for t < 0; the Erlang(k+1, r1) density when the rates are nearly equal;
   * otherwise the closed form for distinct rates, whose divisions by delta = r1 - r2 are
   * defined because that branch is only reached with delta != 0.
   */
  function Density(k: nat, r1: real, r2: real, t: real, e1: real, e2: real): (p: real)
    ensures t < 0.0 ==> p == 0.0
  {
    if t < 0.0 then 0.0
    else if NearlyEqual(r1, r2) then ErlangDensity(k, r1, t, e1)
    else DistinctRatesDensity(k, r1, r2, t, e1, e2)
  }

  /** x**m / m!, a summand of `poissonSum`. */
  function PoissonTerm(x: real, m: nat): real {
    Pow(x, m) / Factorial(m) as real
  }

  /** The sum over m < n of x**m / m!, the `poissonSum` of `CDF` once n = j + 1. */
  function PoissonPrefix(x: real, n: nat): real {
    if n == 0 then 0.0 else PoissonPrefix(x, n - 1) + PoissonTerm(x, n - 1)
  }

  /** e^(-r1 t) (r1 t)**i / i!, a summand of `v` in `CDF`'s Erlang branch. */
  function ErlangTerm(r1: real, t: real, i: nat, e1: real): real {
    e1 * Pow(r1 * t, i) / Factorial(i) as real
  }

  /** The sum over i < n of ErlangTerm, the `v` of `CDF`'s Erlang branch after n rounds. */
  function ErlangTail(r1: real, t: real, n: nat, e1: real): real {
    if n == 0 then 0.0 else ErlangTail(r1, t, n - 1, e1) + ErlangTerm(r1, t, n - 1, e1)
  }

  /** `termCoeff` of round j of `CDF`: r1**k r2 / (j! delta**(k-j)). */
  function TermCoeff(r1: real, r2: real, k: nat, j: nat): real
    requires r1 - r2 != 0.0 && j <= k
  {
    Pow(r1, k) * r2 / RoundDivisor(j, r1 - r2, k)
  }

  /** `integralPart` of round j of `CDF`: j!/r1**(j+1) (1 - e^(-r1 t) poisson). */
  function IntegralPart(r1: real, j: nat, poisson: real, e1: real): real
    requires r1 != 0.0
  {
    PowNonZero(r1, j + 1);
    (Factorial(j) as real / Pow(r1, j + 1)) * (1.0 - e1 * poisson)
  }

  /** `val2` of `CDF` after its first n rounds. */
  function DistributionSeries(r1: real, r2: real, t: real, k: nat, n: nat, e1: real): real
    requires r1 - r2 != 0.0 && n <= k && (n == 0 || r1 != 0.0)
  {
    if n == 0 then 0.0
    else
      DistributionSeries(r1, r2, t, k, n - 1, e1)
      + TermCoeff(r1, r2, k, n - 1) * IntegralPart(r1, n - 1, PoissonPrefix(r1 * t, n), e1)
  }

  /** `CDF(t)` for distinct rates: val1 - val2, with val1 = (r1/delta)**k (1 - e^(-r2 t)). */
  function DistinctRatesDistribution(k: nat, r1: real, r2: real, t: real, e1: real, e2: real): real
    requires r1 - r2 != 0.0 && (k == 0 || r1 != 0.0)
  {
    var delta := r1 - r2;
    PowNonZero(delta, k);
    var val1 := Pow(r1, k) / Pow(delta, k) * (1.0 - e2);
    val1 - DistributionSeries(r1, r2, t, k, k, e1)
  }

  /**
   * `CDF(t)`: 0 for t < 0; one minus the Erlang(k+1, r1) tail when the rates are nearly
   * equal; otherwise val1 - val2. There a zero r1 with k >= 1 makes the double expression
   * j!/r1**(j+1) infinite and its product with zero NaN, which is `None` here.
   */
  function Distribution(k: nat, r1: real, r2: real, t: real, e1: real, e2: real): (c: Option<real>)
    ensures t < 0.0 ==> c == Some(0.0)
    ensures c == None <==> 0.0 <= t && !NearlyEqual(r1, r2) && k >= 1 && r1 == 0.0
  {
    if t < 0.0 then Some(0.0)
    else if NearlyEqual(r1, r2) then Some(1.0 - ErlangTail(r1, t, k + 1, e1))
    else if k >= 1 && r1 == 0.0 then None
    else Some(DistinctRatesDistribution(k, r1, r2, t, e1, e2))
  }

  /** The loop of `PDF` that accumulates the bracket of `term2`. */
  method DensitySeriesLoop(k: nat, t: real, delta: real) returns (s: real)
    requires delta != 0.0
    ensures s == DensitySeries(t, delta, k, k)
  {
    s := 0.0;
    for j := 0 to k
      invariant s == DensitySeries(t, delta, k, j)
    {
      s := s + Pow(t, j) / RoundDivisor(j, delta, k);
    }
  }

  /** The loop of `CDF`'s Erlang branch that accumulates `v` over n < totalK. */
  method ErlangTailLoop(r1: real, t: real, totalK: nat, e1: real) returns (v: real)
    ensures v == ErlangTail(r1, t, totalK, e1)
  {
    v := 0.0;
    for n := 0 to totalK
      invariant v == ErlangTail(r1, t, n, e1)
    {
      v := v + e1 * Pow(r1 * t, n) / Factorial(n) as real;
    }
  }

  /** The inner loop of `CDF`: `poissonSum` over m <= j. */
  method PoissonSumLoop(x: real, j: nat) returns (s: real)
    ensures s == PoissonPrefix(x, j + 1)
  {
    s := 0.0;
    for m := 0 to j + 1
      invariant s == PoissonPrefix(x, m)
    {
      s := s + Pow(x, m) / Factorial(m) as real;
    }
  }

  /** The outer loop of `CDF` that accumulates `val2`. */
  method DistributionSeriesLoop(r1: real, r2: real, t: real, k: nat, e1: real) returns (val2: real)
    requires r1 - r2 != 0.0 && (k == 0 || r1 != 0.0)
    ensures val2 == DistributionSeries(r1, r2, t, k, k, e1)
  {
    val2 := 0.0;
    for j := 0 to k
      invariant val2 == DistributionSeries(r1, r2, t, k, j, e1)
    {
      var term := DistributionRound(r1, r2, t, k, j, e1);
      val2 := val2 + term;
    }
  }

  /** Round j of that loop: `termCoeff * integralPart`. */
  method DistributionRound(r1: real, r2: real, t: real, k: nat, j: nat, e1: real) returns (term: real)
    requires r1 - r2 != 0.0 && j < k && r1 != 0.0
    ensures term == TermCoeff(r1, r2, k, j) * IntegralPart(r1, j, PoissonPrefix(r1 * t, j + 1), e1)
  {
    var delta := r1 - r2;
    var b := Pow(r1, k) * r2;
    PowNonZero(r1, j + 1);
    var termCoeff := b / RoundDivisor(j, delta, k);
    var integralPart := Factorial(j) as real / Pow(r1, j + 1);
    var poissonSum := PoissonSumLoop(r1 * t, j);
    integralPart := integralPart * (1.0 - e1 * poissonSum);
    assert integralPart == IntegralPart(r1, j, poissonSum, e1);
    term := termCoeff * integralPart;
  }

  /** The body of `PDF` for phase count k, rates r1 and r2, e1 = e^(-r1 t) and e2 = e^(-r2 t). */
  method PdfOf(k: nat, r1: real, r2: real, t: real, e1: real, e2: real) returns (p: real)
    ensures p == Density(k, r1, r2, t, e1, e2)
  {
    if t < 0.0 {
      return 0.0;
    }
    if NearlyEqual(r1, r2) {
      var totalK := k + 1;
      return Pow(r1, totalK) * Pow(t, totalK - 1) * e1 / Factorial(totalK - 1) as real;
    }
    p := DistinctRatesPdf(k, r1, r2, t, e1, e2);
  }

  /** The distinct-rates branch of `PDF`: term1 - term2. */
  method DistinctRatesPdf(k: nat, r1: real, r2: real, t: real, e1: real, e2: real) returns (p: real)
    requires r1 - r2 != 0.0
    ensures p == DistinctRatesDensity(k, r1, r2, t, e1, e2)
  {
    var delta := r1 - r2;
    PowNonZero(delta, k);
    var term1 := (Pow(r1, k) * r2 / Pow(delta, k)) * e2;
    var term2 := DensitySeriesLoop(k, t, delta);
    term2 := term2 * (Pow(r1, k) * r2 * e1);
    p := term1 - term2;
  }

  /** The body of `CDF` for the same arguments. */
  method CdfOf(k: nat, r1: real, r2: real, t: real, e1: real, e2: real) returns (c: Option<real>)
    ensures c == Distribution(k, r1, r2, t, e1, e2)
  {
    if t < 0.0 {
      return Some(0.0);
    }
    if NearlyEqual(r1, r2) {
      var totalK := k + 1;
      var v := ErlangTailLoop(r1, t, totalK, e1);
      return Some(1.0 - v);
    }
    var delta := r1 - r2;
    PowNonZero(delta, k);
    var coeff1 := Pow(r1, k) / Pow(delta, k);
    var val1 := coeff1 * (1.0 - e2);
    if k >= 1 && r1 == 0.0 {
      return None;
    }
    var val2 := DistributionSeriesLoop(r1, r2, t, k, e1);
    assert val1 - val2 == DistinctRatesDistribution(k, r1, r2, t, e1, e2);
    return Some(val1 - val2);
  }

  /** At x = 0 only the m = 0 summand of the Poisson sum survives. */
  lemma {:induction false} PoissonPrefixAtZero(n: nat)
    requires n >= 1
    ensures PoissonPrefix(0.0, n) == 1.0
  {
    if n > 1 {
      PoissonPrefixAtZero(n - 1);
      PowOfZero(n - 1);
    }
  }

  /** At t = 0 (so e^(-r1 t) = 1) the Erlang tail is 1 as soon as it has a summand. */
  lemma {:induction false} ErlangTailAtZero(r1: real, n: nat)
    requires n >= 1
    ensures ErlangTail(r1, 0.0, n, 1.0) == 1.0
  {
    if n > 1 {
      ErlangTailAtZero(r1, n - 1);
      PowOfZero(n - 1);
    }
  }

  /** At t = 0 every `integralPart` is zero, so `val2` is. */
  lemma {:induction false} DistributionSeriesAtZero(r1: real, r2: real, k: nat, n: nat)
    requires r1 - r2 != 0.0 && n <= k && (n == 0 || r1 != 0.0)
    ensures DistributionSeries(r1, r2, 0.0, k, n, 1.0) == 0.0
  {
    if n > 0 {
      DistributionSeriesAtZero(r1, r2, k, n - 1);
      PoissonPrefixAtZero(n);
      assert r1 * 0.0 == 0.0;
      assert IntegralPart(r1, n - 1, PoissonPrefix(r1 * 0.0, n), 1.0) == 0.0;
    }
  }

  /** At t = 0 the bracket of `term2` is its j = 0 summand 1/delta**k. */
  lemma {:induction false} DensitySeriesAtZero(delta: real, k: nat, n: nat)
    requires delta != 0.0 && 1 <= n <= k
    ensures Pow(delta, k) != 0.0
    ensures DensitySeries(0.0, delta, k, n) == 1.0 / Pow(delta, k)
  {
    PowNonZero(delta, k);
    if n > 1 {
      DensitySeriesAtZero(delta, k, n - 1);
      PowOfZero(n - 1);
      PowNonZero(delta, k - (n - 1));
      NonZeroProduct(Factorial(n - 1) as real, Pow(delta, k - (n - 1)));
    }
  }

  /**
   * `CDF(0)` is 0 (with e^0 = 1 for both exponentials): no mass below time zero. The one
   * exception is the NaN of a zero r1 with k >= 1 phases at distinct rates.
   */
  lemma CdfAtZero(k: nat, r1: real, r2: real)
    ensures Distribution(k, r1, r2, 0.0, 1.0, 1.0)
            == if !NearlyEqual(r1, r2) && k >= 1 && r1 == 0.0 then None else Some(0.0)
  {
    if NearlyEqual(r1, r2) {
      ErlangTailAtZero(r1, k + 1);
    } else if k == 0 || r1 != 0.0 {
      DistributionSeriesAtZero(r1, r2, k, k);
    }
  }

  /**
   * `PDF(0)`: a single exponential phase (k = 0) starts at its rate; with k >= 1 phases
   * before the last one the density starts at 0.
   */
  lemma PdfAtZero(k: nat, r1: real, r2: real)
    ensures Density(k, r1, r2, 0.0, 1.0, 1.0)
            == if k >= 1 then 0.0 else if NearlyEqual(r1, r2) then r1 else r2
  {
    if NearlyEqual(r1, r2) {
      if k >= 1 {
        PowOfZero(k);
      }
    } else if k >= 1 {
      DistinctRatesPdfAtZero(k, r1, r2);
    }
  }

  lemma DistinctRatesPdfAtZero(k: nat, r1: real, r2: real)
    requires r1 - r2 != 0.0 && k >= 1
    ensures DistinctRatesDensity(k, r1, r2, 0.0, 1.0, 1.0) == 0.0
  {
    var delta := r1 - r2;
    DensitySeriesAtZero(delta, k, k);
    var a, d := Pow(r1, k) * r2, Pow(delta, k);
    SameQuotient(a, d, DensitySeries(0.0, delta, k, k));
  }

  /** (a / d) * 1 and s * (a * 1) agree when s = 1/d. */
  lemma SameQuotient(a: real, d: real, s: real)
    requires d != 0.0 && s == 1.0 / d
    ensures (a / d) * 1.0 - s * (a * 1.0) == 0.0
  {
  }

  /** With k = 0 the law is one exponential phase: rate r1 when the rates are nearly equal, else r2. */
  lemma SinglePhase(r1: real, r2: real, t: real, e1: real, e2: real)
    requires t >= 0.0
    ensures Density(0, r1, r2, t, e1, e2) == if NearlyEqual(r1, r2) then r1 * e1 else r2 * e2
    ensures Distribution(0, r1, r2, t, e1, e2) == Some(if NearlyEqual(r1, r2) then 1.0 - e1 else 1.0 - e2)
  {
    if NearlyEqual(r1, r2) {
      assert ErlangTail(r1, t, 1, e1) == ErlangTail(r1, t, 0, e1) + ErlangTerm(r1, t, 0, e1);
    } else {
      assert DistinctRatesDistribution(0, r1, r2, t, e1, e2) == 1.0 - e2;
    }
  }

  class GeneralizeErlangTime {
    var k: nat
    var rate1: real
    var rate2: real

    constructor(k: nat, rate1: real, rate2: real)
      ensures this.k == k && this.rate1 == rate1 && this.rate2 == rate2
    {
      this.k := k;
      this.rate1 := rate1;
      this.rate2 := rate2;
    }

    method SetK(k: nat)
      modifies this`k
      ensures this.k == k
    {
      this.k := k;
    }

    method SetRate1(rate1: real)
      modifies this`rate1
      ensures this.rate1 == rate1
    {
      this.rate1 := rate1;
    }

    method SetRate2(rate2: real)
      modifies this`rate2
      ensures this.rate2 == rate2
    {
      this.rate2 := rate2;
    }

    /** `clone`: a new object with the same k, rate1 and rate2. */
    method Clone() returns (c: GeneralizeErlangTime)
      ensures fresh(c) && c.k == k && c.rate1 == rate1 && c.rate2 == rate2
    {
      c := new GeneralizeErlangTime(k, rate1, rate2);
    }

    /** `getExpectedValue`: k/rate1 + 1/rate2; BigDecimal division by a zero rate throws. */
    function ExpectedValue(): (r: Result<real, JavaException>)
      reads this
      ensures r.Err? <==> rate1 == 0.0 || rate2 == 0.0
    {
      if rate1 == 0.0 || rate2 == 0.0 then Err(ArithmeticException)
      else Ok(GenErlangMean(k, rate1, rate2))
    }

    /** `getVariance`: k/rate1**2 + 1/rate2**2. */
    function Variance(): (r: Result<real, JavaException>)
      reads this
      ensures r.Err? <==> rate1 == 0.0 || rate2 == 0.0
      ensures r.Ok? && (rate1 != 0.0 && rate2 != 0.0) ==> r.value > 0.0
    {
      if rate1 == 0.0 || rate2 == 0.0 then Err(ArithmeticException)
      else
        GenErlangVariancePositive(k, rate1, rate2);
        Ok(GenErlangVariance(k, rate1, rate2))
    }

    /**
     * `PDF(t)`, with `Math.exp` given as `exp`. (`old` only pins the two values of `exp`
     * to the call: Dafny does not carry an arrow application across the method calls.)
     */
    method Pdf(t: real, exp: real -> real) returns (p: real)
      ensures p == Density(k, rate1, rate2, t, old(exp(-rate1 * t)), old(exp(-rate2 * t)))
    {
      p := PdfOf(k, rate1, rate2, t, exp(-rate1 * t), exp(-rate2 * t));
    }

    /** `CDF(t)`, with `Math.exp` given as `exp`. */
    method Cdf(t: real, exp: real -> real) returns (c: Option<real>)
      ensures c == Distribution(k, rate1, rate2, t, old(exp(-rate1 * t)), old(exp(-rate2 * t)))
    {
      c := CdfOf(k, rate1, rate2, t, exp(-rate1 * t), exp(-rate2 * t));
    }
  }

  /** Every `StochasticTime` method this class leaves unimplemented throws. */
  function Thrown(m: TimeMethod): (r: Option<JavaException>)
    ensures r == Some(UnsupportedOperationException)
  {
    Some(UnsupportedOperationException)
  }
}
