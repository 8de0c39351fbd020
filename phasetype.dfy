/**
 * Mean and variance of the phase-type laws the fitters produce and the Java
 * stochastic-time classes evaluate, written once so that the fitters and the
 * classes can be related.
 */
module PhaseType {
  import opened RealMath

  /** Mean of k phases of rate `rate1` followed by one of rate `rate2`: k/rate1 + 1/rate2. */
  function GenErlangMean(k: int, rate1: real, rate2: real): real
    requires rate1 != 0.0 && rate2 != 0.0
  {
    k as real / rate1 + 1.0 / rate2
  }

  /** Variance of the same sum of independent exponentials: k/rate1**2 + 1/rate2**2. */
  function GenErlangVariance(k: int, rate1: real, rate2: real): real
    requires rate1 != 0.0 && rate2 != 0.0
  {
    k as real / (rate1 * rate1) + 1.0 / (rate2 * rate2)
  }

  /** With k >= 0 phases and non-zero rates the variance is positive (the last phase alone contributes). */
  lemma GenErlangVariancePositive(k: int, rate1: real, rate2: real)
    requires k >= 0 && rate1 != 0.0 && rate2 != 0.0
    ensures GenErlangVariance(k, rate1, rate2) > 0.0
  {
    var s1, s2 := rate1 * rate1, rate2 * rate2;
    SquareOfNonZero(s1, rate1);
    SquareOfNonZero(s2, rate2);
    assert k as real / s1 >= 0.0;
    assert 1.0 / s2 > 0.0;
  }

  /** Mean of an Erlang law of k phases of rate `rate`: k/rate. */
  function ErlangMean(k: int, rate: real): real
    requires rate != 0.0
  {
    k as real / rate
  }

  /** Variance of the same law: k/rate**2. */
  function ErlangVariance(k: int, rate: real): real
    requires rate != 0.0
  {
    k as real / (rate * rate)
  }

  /** Mean of the mixture that takes rate r1 with probability p1 and rate r2 with probability p2. */
  function HyperMean(p1: real, r1: real, p2: real, r2: real): real
    requires r1 != 0.0 && r2 != 0.0
  {
    p1 / r1 + p2 / r2
  }

  /** Second moment of the same mixture: 2 p1/r1**2 + 2 p2/r2**2. */
  function HyperSecondMoment(p1: real, r1: real, p2: real, r2: real): real
    requires r1 != 0.0 && r2 != 0.0
  {
    2.0 * p1 / (r1 * r1) + 2.0 * p2 / (r2 * r2)
  }

  function HyperVariance(p1: real, r1: real, p2: real, r2: real): real
    requires r1 != 0.0 && r2 != 0.0
  {
    HyperSecondMoment(p1, r1, p2, r2) - HyperMean(p1, r1, p2, r2) * HyperMean(p1, r1, p2, r2)
  }

  /** k phases of mean x and one of mean y, in total. */
  function PhaseMeansTotal(k: int, x: real, y: real): real {
    k as real * x + y
  }

  /** The variance of the same phases: k x**2 + y**2 (an exponential's variance is its mean squared). */
  function PhaseMeansSquares(k: int, x: real, y: real): real {
    k as real * (x * x) + y * y
  }

  /** Phases given by their means x and y have rates 1/x and 1/y, and the same moments. */
  lemma FromPhaseMeans(k: int, x: real, y: real)
    requires x != 0.0 && y != 0.0
    ensures 1.0 / x != 0.0 && 1.0 / y != 0.0
    ensures GenErlangMean(k, 1.0 / x, 1.0 / y) == PhaseMeansTotal(k, x, y)
    ensures GenErlangVariance(k, 1.0 / x, 1.0 / y) == PhaseMeansSquares(k, x, y)
  {
    var l1, l2 := 1.0 / x, 1.0 / y;
    assert l1 * x == 1.0 && l2 * y == 1.0;
    assert (l1 * l1) * (x * x) == 1.0;
    assert (l2 * l2) * (y * y) == 1.0;
    var kr := k as real;
    assert kr / l1 == kr * x;
    assert kr / (l1 * l1) == kr * (x * x);
  }

  /** The moments of one branch in terms of its mean a = 1/r. */
  lemma BranchMoments(p: real, r: real)
    requires r != 0.0
    ensures p / r == p * (1.0 / r)
    ensures 2.0 * p / (r * r) == 2.0 * p * ((1.0 / r) * (1.0 / r))
  {
    var a := 1.0 / r;
    assert r * a == 1.0;
    assert (r * r) * (a * a) == 1.0;
  }

  /**
   * A mixture with weights p1, p2 >= 0 summing to one has a non-negative variance: with
   * branch means a and b it is p1 a**2 + p2 b**2 + p1 p2 (a - b)**2.
   */
  lemma HyperVarianceNonNegative(p1: real, r1: real, p2: real, r2: real)
    requires r1 != 0.0 && r2 != 0.0
    requires 0.0 <= p1 && 0.0 <= p2 && p1 + p2 == 1.0
    ensures HyperVariance(p1, r1, p2, r2) >= 0.0
  {
    BranchMoments(p1, r1);
    BranchMoments(p2, r2);
    TwoPointVariance(p1, p2, 1.0 / r1, 1.0 / r2);
  }

  lemma TwoPointVariance(p1: real, p2: real, a: real, b: real)
    requires 0.0 <= p1 && 0.0 <= p2 && p1 + p2 == 1.0
    ensures 2.0 * p1 * (a * a) + 2.0 * p2 * (b * b) - (p1 * a + p2 * b) * (p1 * a + p2 * b) >= 0.0
  {
    var d := a - b;
    var aa, bb, dd := a * a, b * b, d * d;
    assert aa >= 0.0 && bb >= 0.0 && dd >= 0.0;
    NonNegativeProduct(p1, aa);
    NonNegativeProduct(p2, bb);
    NonNegativeProduct(p1, p2);
    NonNegativeProduct(p1 * p2, dd);
    assert 2.0 * p1 * (a * a) + 2.0 * p2 * (b * b) - (p1 * a + p2 * b) * (p1 * a + p2 * b)
           == p1 * aa + p2 * bb + (p1 * p2) * dd;
  }
}
