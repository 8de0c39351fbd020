/**
 * HyperExponentialTime.java: a two-branch hyper-exponential law, rate1 with probability
 * prob1 and rate2 with probability prob2 = 1 - prob1. The fields are set once by the
 * constructor, so the object is modelled as a value; `getRate1`, `getRate2`, `getProb1`
 * and `getProb2` are the datatype's fields. BigDecimal and double arithmetic is idealised
 * as `real`, and `Math.exp` is the parameter `exp`.
 */
module HyperExponential {
  import opened Wrappers
  import opened PhaseType
  import opened StochasticTimes

  datatype HyperExponentialTime = HyperExponentialTime(rate1: real, rate2: real, prob1: real, prob2: real)

  /** The constructor: it takes (rate1, rate2, prob1) and derives prob2. */
  function New(rate1: real, rate2: real, prob1: real): (h: HyperExponentialTime)
    ensures h.rate1 == rate1 && h.rate2 == rate2 && h.prob1 == prob1
    ensures h.prob1 + h.prob2 == 1.0
  {
    HyperExponentialTime(rate1, rate2, prob1, 1.0 - prob1)
  }

  /** Objects the constructor can build. */
  predicate Constructed(h: HyperExponentialTime) {
    h.prob1 + h.prob2 == 1.0
  }

  /** `clone` passes rate1, rate2 and prob1 to the constructor, which recomputes prob2. */
  function Clone(h: HyperExponentialTime): (c: HyperExponentialTime)
    ensures c.rate1 == h.rate1 && c.rate2 == h.rate2 && c.prob1 == h.prob1
    ensures Constructed(h) ==> c == h
  {
    New(h.rate1, h.rate2, h.prob1)
  }

  /** `getExpectedValue`: prob1/rate1 + prob2/rate2; BigDecimal division by a zero rate throws. */
  function ExpectedValue(h: HyperExponentialTime): (r: Result<real, JavaException>)
    ensures r.Err? <==> h.rate1 == 0.0 || h.rate2 == 0.0
    ensures r.Ok? ==> r.value == HyperMean(h.prob1, h.rate1, h.prob2, h.rate2)
  {
    if h.rate1 == 0.0 || h.rate2 == 0.0 then Err(ArithmeticException)
    else Ok(HyperMean(h.prob1, h.rate1, h.prob2, h.rate2))
  }

  /** `getVariance`: second moment 2 p1/r1**2 + 2 p2/r2**2 minus the squared mean. */
  function Variance(h: HyperExponentialTime): (r: Result<real, JavaException>)
    ensures r.Err? <==> h.rate1 == 0.0 || h.rate2 == 0.0
    ensures r.Ok? ==> ExpectedValue(h).Ok?
    ensures r.Ok? ==> r.value == HyperSecondMoment(h.prob1, h.rate1, h.prob2, h.rate2) - ExpectedValue(h).value * ExpectedValue(h).value
  {
    if h.rate1 == 0.0 || h.rate2 == 0.0 then Err(ArithmeticException)
    else Ok(HyperVariance(h.prob1, h.rate1, h.prob2, h.rate2))
  }

  /** For 0 <= prob1 <= 1 and non-zero rates the variance of a constructed object is not negative. */
  lemma VarianceNonNegative(h: HyperExponentialTime)
    requires Constructed(h) && 0.0 <= h.prob1 <= 1.0 && h.rate1 != 0.0 && h.rate2 != 0.0
    ensures Variance(h).Ok? && Variance(h).value >= 0.0
  {
    HyperVarianceNonNegative(h.prob1, h.rate1, h.prob2, h.rate2);
  }

  /** `PDF(t)`; there is no guard for negative t. */
  function Pdf(h: HyperExponentialTime, t: real, exp: real -> real): real {
    h.prob1 * h.rate1 * exp(-h.rate1 * t) + h.prob2 * h.rate2 * exp(-h.rate2 * t)
  }

  /** `CDF(t)` = 1 - (prob1 e^(-rate1 t) + prob2 e^(-rate2 t)). */
  function Cdf(h: HyperExponentialTime, t: real, exp: real -> real): real {
    1.0 - (h.prob1 * exp(-h.rate1 * t) + h.prob2 * exp(-h.rate2 * t))
  }

  /** What invoking one of the `StochasticTime` methods on this class throws, if anything. */
  function Thrown(m: TimeMethod): (r: Option<JavaException>)
    ensures r.Some? <==> !IsFeatureMethod(m)
    ensures r.Some? ==> r.value == UnsupportedOperationException
  {
    if IsFeatureMethod(m) then None else Some(UnsupportedOperationException)
  }

  /** With exp(0) = 1, the CDF of a constructed object is 0 at t = 0. */
  lemma CdfAtZero(h: HyperExponentialTime, exp: real -> real)
    requires Constructed(h) && exp(0.0) == 1.0
    ensures Cdf(h, 0.0, exp) == 0.0
  {
    assert -h.rate1 * 0.0 == 0.0 && -h.rate2 * 0.0 == 0.0;
  }

  /** With exp(0) = 1, the density at t = 0 is prob1 rate1 + prob2 rate2. */
  lemma PdfAtZero(h: HyperExponentialTime, exp: real -> real)
    requires exp(0.0) == 1.0
    ensures Pdf(h, 0.0, exp) == h.prob1 * h.rate1 + h.prob2 * h.rate2
  {
    assert -h.rate1 * 0.0 == 0.0 && -h.rate2 * 0.0 == 0.0;
  }
}
