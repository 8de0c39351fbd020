/**
 * Moment-matching fitters of E2E-analysis/extract_data/src/distribution_fitting.py.
 *
 * Given a mean `mu` and a coefficient of variation `cv` (standard deviation over mean),
 * each fitter chooses the parameters of a phase-type law in closed form:
 * a two-phase hyper-exponential (cv >= 1), a two-phase hypo-exponential
 * (1/sqrt(2) <= cv < 1) or a generalized Erlang, that is k exponential phases of one
 * rate followed by one phase of another (cv < 1/sqrt(2)). Floats are idealised as
 * exact reals, and `math.sqrt` is the parameter `sqrt` (see RealMath.IsSqrt).
 */
module DistributionFitting {
  import opened Wrappers
  import opened RealMath
  import opened PhaseType

  /** Why a fitter raises: the four `ValueError`s of the source, and Python's `ZeroDivisionError`. */
  datatype FitError =
    | CvAboveRange        // cv too large for the requested law
    | CvBelowRange        // cv too small for the requested law
    | ComplexRoots        // the generalized-Erlang quadratic has a negative discriminant
    | NoPositiveSolution  // no root gives two positive phase means
    | ZeroDivision

  /** `(p1, lambda1, p2, lambda2)`: phase i is taken with probability pi and has rate lambdai. */
  datatype HyperParams = HyperParams(p1: real, lambda1: real, p2: real, lambda2: real)

  /** `(lambda1, lambda2)`: the rates of two phases run one after the other. */
  datatype HypoParams = HypoParams(lambda1: real, lambda2: real)

  /** `(k, lambda1, lambda2)`: k phases of rate lambda1 followed by one phase of rate lambda2. */
  datatype ErlangParams = ErlangParams(k: int, lambda1: real, lambda2: real)

  /** `1/math.sqrt(2)`, the boundary between the hypo-exponential and generalized-Erlang ranges. */
  function InvSqrt2(sqrt: real -> real): (r: real)
    requires IsSqrt(sqrt)
    ensures r > 0.0 && r * r == 0.5
  {
    var s := sqrt(2.0);
    assert s * s == 2.0;
    assert (1.0 / s) * (1.0 / s) == 1.0 / (s * s);
    1.0 / s
  }

  // ---------------------------------------------------------------------------
  // Hyper-exponential, "balanced means" (source lines 3-23)
  // ---------------------------------------------------------------------------

  function FitHyperExponential(mu: real, cv: real, sqrt: real -> real): (r: Result<HyperParams, FitError>)
    requires IsSqrt(sqrt)
    ensures r.Err? <==> cv < 1.0 || mu == 0.0
    ensures r.Err? ==> r.error == (if cv < 1.0 then CvBelowRange else ZeroDivision)
  {
    if cv < 1.0 then Err(CvBelowRange)
    else
      var term := sqrt(HyperRadicand(cv));
      var p1 := 0.5 * (1.0 + term);
      var p2 := 1.0 - p1;
      if mu == 0.0 then Err(ZeroDivision)
      else Ok(HyperParams(p1, (2.0 * p1) / mu, p2, (2.0 * p2) / mu))
  }

  /** `(cv**2 - 1) / (cv**2 + 1)`, whose root is `term` in the hyper-exponential fit. */
  function HyperRadicand(cv: real): real {
    (cv * cv - 1.0) / (cv * cv + 1.0)
  }

  /** The value `term` takes inside FitHyperExponential lies in [0, 1). */
  lemma HyperTerm(cv: real, sqrt: real -> real)
    requires IsSqrt(sqrt) && cv >= 1.0
    ensures 0.0 <= HyperRadicand(cv) < 1.0
    ensures 0.0 <= sqrt(HyperRadicand(cv)) < 1.0
  {
    var c2 := cv * cv;
    assert c2 >= 1.0 by { SquareMonotone(1.0, cv); }
    var x := HyperRadicand(cv);
    assert x * (c2 + 1.0) == c2 - 1.0;
    assert 0.0 <= x < 1.0;
    SqrtStrictlyIncreasing(sqrt, x, 1.0);
    SqrtOfSquare(sqrt, 1.0);
  }

  /**
   * For cv >= 1 and mu != 0: p1 is in [1/2, 1), p1 + p2 = 1, and both phases carry
   * half of the mean (p1/lambda1 = p2/lambda2 = mu/2), so the mixture's mean is mu.
   */
  lemma HyperBalancedMeans(mu: real, cv: real, sqrt: real -> real)
    requires IsSqrt(sqrt) && cv >= 1.0 && mu != 0.0
    ensures FitHyperExponential(mu, cv, sqrt).Ok?
    ensures var p := FitHyperExponential(mu, cv, sqrt).value;
            && 0.5 <= p.p1 < 1.0 && 0.0 < p.p2 <= 0.5 && p.p1 + p.p2 == 1.0
            && p.lambda1 != 0.0 && p.lambda2 != 0.0
            && p.p1 / p.lambda1 == mu / 2.0 && p.p2 / p.lambda2 == mu / 2.0
            && HyperMean(p.p1, p.lambda1, p.p2, p.lambda2) == mu
  {
    HyperTerm(cv, sqrt);
    var p := FitHyperExponential(mu, cv, sqrt).value;
    assert p.p1 / ((2.0 * p.p1) / mu) == mu / 2.0;
    assert p.p2 / ((2.0 * p.p2) / mu) == mu / 2.0;
  }


  /**
   * The hyper-exponential fit matches both moments: mean mu and variance (cv mu)**2, that is
   * coefficient of variation cv.
   */
  lemma HyperMoments(mu: real, cv: real, sqrt: real -> real)
    requires IsSqrt(sqrt) && cv >= 1.0 && mu != 0.0
    ensures FitHyperExponential(mu, cv, sqrt).Ok?
    ensures var p := FitHyperExponential(mu, cv, sqrt).value;
            && p.lambda1 != 0.0 && p.lambda2 != 0.0
            && HyperMean(p.p1, p.lambda1, p.p2, p.lambda2) == mu
            && HyperVariance(p.p1, p.lambda1, p.p2, p.lambda2) == (cv * mu) * (cv * mu)
  {
    HyperBalancedMeans(mu, cv, sqrt);
    HyperTerm(cv, sqrt);
    var p := FitHyperExponential(mu, cv, sqrt).value;
    var c2 := cv * cv;
    assert c2 >= 1.0 by { SquareMonotone(1.0, cv); }
    var term := sqrt(HyperRadicand(cv));
    ProbabilityProduct(p.p1, p.p2, term, c2);
    BalancedVariance(p.p1, p.p2, mu, p.lambda1, p.lambda2, c2);
    assert c2 * (mu * mu) == (cv * mu) * (cv * mu);
  }

  /** p1 p2 = (1 - term**2)/4 = 1/(2 (cv**2 + 1)). */
  lemma ProbabilityProduct(p1: real, p2: real, term: real, c2: real)
    requires c2 >= 1.0 && term * term == (c2 - 1.0) / (c2 + 1.0)
    requires p1 == 0.5 * (1.0 + term) && p2 == 1.0 - p1
    ensures (p1 * p2) * (2.0 * (c2 + 1.0)) == 1.0
  {
    var x := term * term;
    assert x * (c2 + 1.0) == c2 - 1.0;
    assert p1 * p2 == 0.25 * (1.0 - x);
    assert 0.25 * (1.0 - x) * (2.0 * (c2 + 1.0)) == 0.5 * ((c2 + 1.0) - x * (c2 + 1.0));
  }

  /** A branch of weight p and rate 2p/mu has mean u = mu/(2p) and carries half of mu. */
  lemma BranchMean(p: real, mu: real, r: real) returns (u: real)
    requires p != 0.0 && mu != 0.0 && r == (2.0 * p) / mu
    ensures r != 0.0 && u == 1.0 / r
    ensures 2.0 * p * u == mu
    ensures p / r == mu / 2.0
    ensures 2.0 * p / (r * r) == mu * u
  {
    assert r * mu == 2.0 * p;
    u := 1.0 / r;
    assert r * u == 1.0;
    assert 2.0 * p * u == r * mu * u;
    BranchMoments(p, r);
    assert 2.0 * p * (u * u) == (2.0 * p * u) * u;
  }

  /**
   * Two branches carrying mu/2 each, with p1 p2 = 1/(2 (c2 + 1)), give the mixture mean mu
   * and variance c2 mu**2.
   */
  lemma BalancedVariance(p1: real, p2: real, mu: real, r1: real, r2: real, c2: real)
    requires p1 > 0.0 && p2 > 0.0 && p1 + p2 == 1.0 && mu != 0.0
    requires r1 == (2.0 * p1) / mu && r2 == (2.0 * p2) / mu
    requires (p1 * p2) * (2.0 * (c2 + 1.0)) == 1.0
    ensures r1 != 0.0 && r2 != 0.0
    ensures HyperMean(p1, r1, p2, r2) == mu
    ensures HyperVariance(p1, r1, p2, r2) == c2 * (mu * mu)
  {
    var u1 := BranchMean(p1, mu, r1);
    var u2 := BranchMean(p2, mu, r2);
    var q := p1 * p2;
    assert (u1 * (2.0 * p1)) * p2 == mu * p2;
    assert (u2 * (2.0 * p2)) * p1 == mu * p1;
    assert (u1 + u2) * (2.0 * q) == mu;
    assert (u1 + u2) * ((2.0 * q) * (c2 + 1.0)) == mu * (c2 + 1.0);
    assert u1 + u2 == mu * (c2 + 1.0);
    assert HyperSecondMoment(p1, r1, p2, r2) == mu * (u1 + u2);
  }

  // ---------------------------------------------------------------------------
  // Hypo-exponential (source lines 25-50)
  // ---------------------------------------------------------------------------

  function FitHypoExponential(mu: real, cv: real, sqrt: real -> real): (r: Result<HypoParams, FitError>)
    requires IsSqrt(sqrt)
    ensures cv >= 1.0 ==> r == Err(CvAboveRange)
    ensures cv < 1.0 && cv < InvSqrt2(sqrt) ==> r == Err(CvBelowRange)
    ensures r.Ok? ==> InvSqrt2(sqrt) <= cv < 1.0
  {
    if cv >= 1.0 then Err(CvAboveRange)
    else if cv < InvSqrt2(sqrt) then Err(CvBelowRange)
    else HypoRates(mu, cv, sqrt)
  }

  /**
   * The part of the hypo-exponential fit after its range guards (lines 37-41 here, and
   * lines 25-30 of E2E-analysis/extract_data/scr/distribution_fitting.py): the phase
   * means are (mu +- discriminant) / 2 and the rates their reciprocals.
   */
  function HypoRates(mu: real, cv: real, sqrt: real -> real): (r: Result<HypoParams, FitError>)
    requires IsSqrt(sqrt)
    ensures r.Err? ==> r.error == ZeroDivision
  {
    var discriminant := sqrt(mu * mu * HypoRadicand(cv));
    var mu1 := (mu + discriminant) / 2.0;
    var mu2 := (mu - discriminant) / 2.0;
    if mu1 == 0.0 || mu2 == 0.0 then Err(ZeroDivision)
    else Ok(HypoParams(1.0 / mu1, 1.0 / mu2))
  }

  /** `2*cv**2 - 1`, the factor under the root in the hypo-exponential fit. */
  function HypoRadicand(cv: real): real {
    2.0 * (cv * cv) - 1.0
  }

  /** Inside the hypo-exponential range 1/sqrt(2) <= cv < 1 the squared cv lies in [1/2, 1). */
  lemma HypoRange(cv: real, sqrt: real -> real)
    requires IsSqrt(sqrt) && InvSqrt2(sqrt) <= cv < 1.0
    ensures 0.5 <= cv * cv < 1.0
  {
    var i := InvSqrt2(sqrt);
    SquareMonotone(i, cv);
    SquareStrictlyMonotone(cv, 1.0);
  }

  /** For 1/2 <= cv**2 < 1, `sqrt(2*cv**2 - 1)` lies in [0, 1). */
  lemma HypoRoot(cv: real, sqrt: real -> real)
    requires IsSqrt(sqrt) && 0.5 <= cv * cv < 1.0
    ensures 0.0 <= HypoRadicand(cv) < 1.0
    ensures 0.0 <= sqrt(HypoRadicand(cv)) < 1.0
  {
    var x := HypoRadicand(cv);
    SqrtStrictlyIncreasing(sqrt, x, 1.0);
    SqrtOfSquare(sqrt, 1.0);
  }

  /** The discriminant of the hypo-exponential fit is `|mu| * sqrt(2*cv**2 - 1)`. */
  lemma HypoDiscriminant(mu: real, cv: real, sqrt: real -> real)
    requires IsSqrt(sqrt) && 0.5 <= cv * cv < 1.0
    ensures mu >= 0.0 ==> sqrt(mu * mu * HypoRadicand(cv)) == mu * sqrt(HypoRadicand(cv))
    ensures mu < 0.0 ==> sqrt(mu * mu * HypoRadicand(cv)) == -mu * sqrt(HypoRadicand(cv))
  {
    HypoRoot(cv, sqrt);
    var x := HypoRadicand(cv);
    var r := sqrt(x);
    assert r * r == x;
    var m := if mu >= 0.0 then mu else -mu;
    var t := m * r;
    assert 0.0 <= t;
    assert t * t == (m * m) * (r * r);
    assert m * m == mu * mu;
    SqrtUnique(sqrt, mu * mu * HypoRadicand(cv), t);
  }

  /** HypoRates with its phase means mu1 and mu2 named, for 2*cv**2 - 1 >= 0. */
  lemma HypoPhases(mu: real, cv: real, sqrt: real -> real) returns (d: real, mu1: real, mu2: real)
    requires IsSqrt(sqrt) && 0.5 <= cv * cv
    ensures d == sqrt(mu * mu * HypoRadicand(cv))
    ensures d * d == (mu * mu) * HypoRadicand(cv)
    ensures mu1 == (mu + d) / 2.0 && mu2 == (mu - d) / 2.0
    ensures HypoRates(mu, cv, sqrt)
            == if mu1 == 0.0 || mu2 == 0.0 then Err(ZeroDivision) else Ok(HypoParams(1.0 / mu1, 1.0 / mu2))
  {
    assert HypoRadicand(cv) >= 0.0;
    NonNegativeProduct(mu * mu, HypoRadicand(cv));
    d := sqrt(mu * mu * HypoRadicand(cv));
    mu1, mu2 := (mu + d) / 2.0, (mu - d) / 2.0;
  }

  /**
   * For 1/2 <= cv**2 < 1 the only failure left is a zero mean: for mu != 0 neither phase
   * mean (mu +- discriminant)/2 is zero.
   */
  lemma HypoFailsOnlyAtZeroMean(mu: real, cv: real, sqrt: real -> real)
    requires IsSqrt(sqrt) && 0.5 <= cv * cv < 1.0
    ensures HypoRates(mu, cv, sqrt).Err? <==> mu == 0.0
  {
    var d, mu1, mu2 := HypoPhases(mu, cv, sqrt);
    HypoRoot(cv, sqrt);
    HypoDiscriminant(mu, cv, sqrt);
    var s := sqrt(HypoRadicand(cv));
    if mu > 0.0 {
      ScaledBelow(mu, s);
    } else if mu < 0.0 {
      ScaledBelow(-mu, s);
    }
  }

  /** Sum and sum of squares of the two phase means, from d**2 = mu**2 (2 c2 - 1). */
  lemma PhaseMeanMoments(mu: real, c2: real, d: real, mu1: real, mu2: real)
    requires d * d == (mu * mu) * (2.0 * c2 - 1.0)
    requires mu1 == (mu + d) / 2.0 && mu2 == (mu - d) / 2.0
    ensures mu1 + mu2 == mu
    ensures mu1 * mu1 + mu2 * mu2 == c2 * (mu * mu)
  {
    assert mu1 * mu1 + mu2 * mu2 == (mu * mu + d * d) / 2.0;
  }

  /**
   * When HypoRates succeeds for cv**2 >= 1/2, running the two phases one after the
   * other (a generalized Erlang with k = 1) has mean mu and variance (cv * mu)**2.
   */
  lemma HypoRatesMoments(mu: real, cv: real, sqrt: real -> real)
    requires IsSqrt(sqrt) && 0.5 <= cv * cv && HypoRates(mu, cv, sqrt).Ok?
    ensures var p := HypoRates(mu, cv, sqrt).value;
            && p.lambda1 != 0.0 && p.lambda2 != 0.0
            && GenErlangMean(1, p.lambda1, p.lambda2) == mu
            && GenErlangVariance(1, p.lambda1, p.lambda2) == (cv * mu) * (cv * mu)
  {
    var d, mu1, mu2 := HypoPhases(mu, cv, sqrt);
    PhaseMeanMoments(mu, cv * cv, d, mu1, mu2);
    FromPhaseMeans(1, mu1, mu2);
    assert (cv * mu) * (cv * mu) == (cv * cv) * (mu * mu);
  }

  /** For a positive mean and 1/2 <= cv**2 < 1 the faster phase comes second: 0 < lambda1 <= lambda2. */
  lemma HypoRatesPositiveOrdered(mu: real, cv: real, sqrt: real -> real)
    requires IsSqrt(sqrt) && 0.5 <= cv * cv < 1.0 && mu > 0.0
    ensures HypoRates(mu, cv, sqrt).Ok?
    ensures var p := HypoRates(mu, cv, sqrt).value;
            0.0 < p.lambda1 <= p.lambda2
  {
    var d, mu1, mu2 := HypoPhases(mu, cv, sqrt);
    HypoRoot(cv, sqrt);
    HypoDiscriminant(mu, cv, sqrt);
    var s := sqrt(HypoRadicand(cv));
    ScaledBelow(mu, s);
    assert 0.0 < mu2 <= mu1;
    ReciprocalAntitone(mu2, mu1);
  }

  /**
   * Whenever the hypo-exponential fit succeeds, the two phases in sequence have mean mu
   * and variance (cv * mu)**2; it fails inside its cv range only for a zero mean.
   */
  lemma HypoMoments(mu: real, cv: real, sqrt: real -> real)
    requires IsSqrt(sqrt) && FitHypoExponential(mu, cv, sqrt).Ok?
    ensures var p := FitHypoExponential(mu, cv, sqrt).value;
            && p.lambda1 != 0.0 && p.lambda2 != 0.0
            && GenErlangMean(1, p.lambda1, p.lambda2) == mu
            && GenErlangVariance(1, p.lambda1, p.lambda2) == (cv * mu) * (cv * mu)
  {
    HypoRange(cv, sqrt);
    HypoRatesMoments(mu, cv, sqrt);
  }

  /** In range and for a positive mean the fit succeeds with 0 < lambda1 <= lambda2. */
  lemma HypoRatesOrdered(mu: real, cv: real, sqrt: real -> real)
    requires IsSqrt(sqrt) && InvSqrt2(sqrt) <= cv < 1.0 && mu > 0.0
    ensures FitHypoExponential(mu, cv, sqrt).Ok?
    ensures var p := FitHypoExponential(mu, cv, sqrt).value;
            0.0 < p.lambda1 <= p.lambda2
  {
    HypoRange(cv, sqrt);
    HypoRatesPositiveOrdered(mu, cv, sqrt);
  }

  // ---------------------------------------------------------------------------
  // Generalized Erlang (source lines 52-88)
  // ---------------------------------------------------------------------------

  /** y = mu - k*x, the mean of the last phase once the k first phases have mean x. */
  function SecondPhaseMean(mu: real, k: int, x: real): real {
    mu - k as real * x
  }

  /** A root x is kept when both phase means, x and mu - k*x, are positive. */
  predicate Qualifies(mu: real, k: int, x: real) {
    x > 0.0 && SecondPhaseMean(mu, k, x) > 0.0
  }

  /** The `candidates` list of lines 79-84: the pairs (x, mu - k*x) of the qualifying roots, in order. */
  function PositivePairs(mu: real, k: int, xs: seq<real>): (pairs: seq<(real, real)>)
    ensures forall i | 0 <= i < |pairs| :: Qualifies(mu, k, pairs[i].0) && pairs[i].1 == SecondPhaseMean(mu, k, pairs[i].0)
    ensures pairs == [] <==> forall i | 0 <= i < |xs| :: !Qualifies(mu, k, xs[i])
  {
    if xs == [] then []
    else
      var rest := PositivePairs(mu, k, xs[..|xs| - 1]);
      assert forall i | 0 <= i < |xs| - 1 :: xs[..|xs| - 1][i] == xs[i];
      var x := xs[|xs| - 1];
      if Qualifies(mu, k, x) then rest + [(x, SecondPhaseMean(mu, k, x))] else rest
  }

  /** Of the two roots, the first one is chosen whenever it qualifies. */
  lemma FirstQualifyingRootChosen(mu: real, k: int, x1: real, x2: real)
    requires Qualifies(mu, k, x1)
    ensures |PositivePairs(mu, k, [x1, x2])| > 0
    ensures PositivePairs(mu, k, [x1, x2])[0] == (x1, SecondPhaseMean(mu, k, x1))
  {
    assert [x1, x2][..1] == [x1];
    assert [x1][..0] == [];
    assert PositivePairs(mu, k, [x1]) == [(x1, SecondPhaseMean(mu, k, x1))];
  }

  /** Every candidate comes from one of the roots. */
  lemma {:induction false} PairsFromRoots(mu: real, k: int, xs: seq<real>)
    ensures forall i | 0 <= i < |PositivePairs(mu, k, xs)| :: PositivePairs(mu, k, xs)[i].0 in xs
  {
    if xs != [] {
      PairsFromRoots(mu, k, xs[..|xs| - 1]);
      assert forall z | z in xs[..|xs| - 1] :: z in xs;
    }
  }

  /** The loop of lines 79-84, filling `candidates` root by root. */
  method CollectCandidates(mu: real, k: int, roots: seq<real>) returns (candidates: seq<(real, real)>)
    ensures candidates == PositivePairs(mu, k, roots)
  {
    candidates := [];
    for i := 0 to |roots|
      invariant candidates == PositivePairs(mu, k, roots[..i])
    {
      assert roots[..i + 1][..i] == roots[..i];
      var x := roots[i];
      if x > 0.0 {
        var y := SecondPhaseMean(mu, k, x);
        if y > 0.0 {
          candidates := candidates + [(x, y)];
        }
      }
    }
    assert roots[..|roots|] == roots;
  }

  /** The coefficients A, B, C of the quadratic A*x**2 + B*x + C = 0 solved at lines 69-71. */
  function QuadA(k: int): real { (k * (k + 1)) as real }
  function QuadB(mu: real, k: int): real { -2.0 * mu * k as real }
  function QuadC(mu: real, cv: real): real { (mu * mu) * (1.0 - cv * cv) }

  function Discriminant(mu: real, cv: real, k: int): real {
    QuadB(mu, k) * QuadB(mu, k) - 4.0 * QuadA(k) * QuadC(mu, cv)
  }

  /** `max(delta, 0.0)` */
  function NonNegativePart(x: real): (r: real)
    ensures r >= 0.0 && (x >= 0.0 ==> r == x)
  {
    if x > 0.0 then x else 0.0
  }

  /** The two quadratic-formula roots (-B -+ s) / (2A) for a root `s` of the discriminant. */
  function LowRoot(mu: real, k: int, s: real): real
    requires QuadA(k) != 0.0
  {
    (-QuadB(mu, k) - s) / (2.0 * QuadA(k))
  }

  function HighRoot(mu: real, k: int, s: real): real
    requires QuadA(k) != 0.0
  {
    (-QuadB(mu, k) + s) / (2.0 * QuadA(k))
  }

  /** `k = ceil(1 / cv**2) - 1`, the number of rate-lambda1 phases. */
  function PhaseCount(cv: real): int
    requires cv != 0.0
  {
    Ceil(1.0 / (cv * cv)) - 1
  }

  function FitGeneralizedErlang(mu: real, cv: real, sqrt: real -> real): (r: Result<ErlangParams, FitError>)
    requires IsSqrt(sqrt)
    ensures cv >= InvSqrt2(sqrt) <==> r == Err(CvAboveRange)
    ensures r.Ok? ==> cv != 0.0 && r.value.k == PhaseCount(cv)
  {
    if cv >= InvSqrt2(sqrt) then Err(CvAboveRange)
    else if cv == 0.0 then Err(ZeroDivision)
    else
      var k := PhaseCount(cv);
      var delta := Discriminant(mu, cv, k);
      if delta < -0.000000000001 then Err(ComplexRoots)
      else
        var sqrtDelta := sqrt(NonNegativePart(delta));
        if QuadA(k) == 0.0 then Err(ZeroDivision)
        else
          var candidates := PositivePairs(mu, k, [LowRoot(mu, k, sqrtDelta), HighRoot(mu, k, sqrtDelta)]);
          if candidates == [] then Err(NoPositiveSolution)
          else Ok(ErlangParams(k, 1.0 / candidates[0].0, 1.0 / candidates[0].1))
  }

  lemma SquaredCvBelowHalf(cv: real, sqrt: real -> real)
    requires IsSqrt(sqrt) && 0.0 < cv < InvSqrt2(sqrt)
    ensures 0.0 < cv * cv < 0.5
  {
    var i := InvSqrt2(sqrt);
    assert i * i == 0.5;
    SquareStrictlyMonotone(cv, i);
    SquarePositive(cv);
  }

  /** A positive cv below 1/sqrt(2) gives at least two rate-lambda1 phases. */
  lemma PhaseCountAtLeastTwo(cv: real, sqrt: real -> real)
    requires IsSqrt(sqrt) && 0.0 < cv < InvSqrt2(sqrt)
    ensures PhaseCount(cv) >= 2
  {
    SquaredCvBelowHalf(cv, sqrt);
    ReciprocalAntitone(cv * cv, 0.5);
  }

  /** The discriminant is `4 mu**2 k ((k+1) cv**2 - 1)`, which is never negative since k+1 >= 1/cv**2. */
  lemma DiscriminantNonNegative(mu: real, cv: real)
    requires cv != 0.0
    ensures PhaseCount(cv) >= 0
    ensures Discriminant(mu, cv, PhaseCount(cv)) >= 0.0
  {
    var k := PhaseCount(cv);
    SquarePositive(cv);
    var c2 := cv * cv;
    var inv := 1.0 / c2;
    assert inv * c2 == 1.0;
    var n := (k + 1) as real;
    assert n >= inv;
    assert n * c2 >= 1.0 by { assert (n - inv) * c2 >= 0.0; }
    var kr := k as real;
    assert kr >= 0.0;
    DiscriminantFactored(mu, c2, kr, n);
    assert Discriminant(mu, cv, k) == 4.0 * (mu * mu) * kr * (n * c2 - 1.0);
    DiscriminantFactorsNonNegative(mu, kr, n * c2 - 1.0);
  }

  lemma DiscriminantFactored(mu: real, c2: real, kr: real, n: real)
    requires n == kr + 1.0
    ensures (-2.0 * mu * kr) * (-2.0 * mu * kr) - 4.0 * (kr * n) * ((mu * mu) * (1.0 - c2))
            == 4.0 * (mu * mu) * kr * (n * c2 - 1.0)
  {
  }

  lemma DiscriminantFactorsNonNegative(mu: real, kr: real, e: real)
    requires kr >= 0.0 && e >= 0.0
    ensures 4.0 * (mu * mu) * kr * e >= 0.0
  {
    var m2 := mu * mu;
    assert m2 >= 0.0;
    var t := 4.0 * m2 * kr;
    assert t >= 0.0;
    assert t * e >= 0.0;
  }

  /** A root x of A x**2 + B x + C = 0 gives the phase means x (k times) and mu - k*x their target moments. */
  lemma RootMatchesMoments(mu: real, cv: real, k: int, x: real)
    requires QuadA(k) * x * x + QuadB(mu, k) * x + QuadC(mu, cv) == 0.0
    ensures PhaseMeansTotal(k, x, SecondPhaseMean(mu, k, x)) == mu
    ensures PhaseMeansSquares(k, x, SecondPhaseMean(mu, k, x)) == (cv * mu) * (cv * mu)
  {
    var kr := k as real;
    var y := mu - kr * x;
    assert QuadA(k) == kr * kr + kr;
    assert y * y == mu * mu - 2.0 * mu * kr * x + kr * kr * (x * x);
  }

  /** Both quadratic-formula candidates are roots once `s` is a root of the discriminant. */
  lemma QuadraticRoot(a: real, b: real, c: real, s: real, x: real)
    requires a != 0.0 && s * s == b * b - 4.0 * a * c
    requires x == (-b - s) / (2.0 * a) || x == (-b + s) / (2.0 * a)
    ensures a * x * x + b * x + c == 0.0
  {
    var u := 2.0 * a * x + b;
    assert u == s || u == -s;
    assert u * u == s * s;
    assert u * u == 4.0 * a * (a * x * x + b * x) + b * b;
    assert 4.0 * a * (a * x * x + b * x + c) == 0.0;
  }

  /** The root of the discriminant the fitter computes, named `s`, once the fit gets past its guards. */
  lemma ErlangRoots(mu: real, cv: real, sqrt: real -> real) returns (k: int, s: real)
    requires IsSqrt(sqrt) && cv < InvSqrt2(sqrt) && cv != 0.0 && QuadA(PhaseCount(cv)) != 0.0
    ensures k == PhaseCount(cv) && k >= 1 && QuadA(k) != 0.0
    ensures s >= 0.0 && s * s == Discriminant(mu, cv, k) && s == sqrt(Discriminant(mu, cv, k))
    ensures FitGeneralizedErlang(mu, cv, sqrt)
            == var candidates := PositivePairs(mu, k, [LowRoot(mu, k, s), HighRoot(mu, k, s)]);
               if candidates == [] then Err(NoPositiveSolution)
               else Ok(ErlangParams(k, 1.0 / candidates[0].0, 1.0 / candidates[0].1))
  {
    k := PhaseCount(cv);
    DiscriminantNonNegative(mu, cv);
    s := sqrt(NonNegativePart(Discriminant(mu, cv, k)));
  }

  /** A candidate built from one of the two roots has the target moments. */
  lemma CandidateMoments(mu: real, cv: real, k: int, s: real, x: real)
    requires QuadA(k) != 0.0 && s * s == Discriminant(mu, cv, k)
    requires x == LowRoot(mu, k, s) || x == HighRoot(mu, k, s)
    ensures PhaseMeansTotal(k, x, SecondPhaseMean(mu, k, x)) == mu
    ensures PhaseMeansSquares(k, x, SecondPhaseMean(mu, k, x)) == (cv * mu) * (cv * mu)
  {
    QuadraticRoot(QuadA(k), QuadB(mu, k), QuadC(mu, cv), s, x);
    RootMatchesMoments(mu, cv, k, x);
  }

  /**
   * Whenever the generalized-Erlang fit succeeds with (k, lambda1, lambda2), both rates are
   * positive, k >= 1, and k phases of rate lambda1 followed by one of rate lambda2 have
   * mean mu and variance (cv * mu)**2.
   */
  lemma GeneralizedErlangMoments(mu: real, cv: real, sqrt: real -> real)
    requires IsSqrt(sqrt) && FitGeneralizedErlang(mu, cv, sqrt).Ok?
    ensures var p := FitGeneralizedErlang(mu, cv, sqrt).value;
            && p.k >= 1 && p.lambda1 > 0.0 && p.lambda2 > 0.0
            && GenErlangMean(p.k, p.lambda1, p.lambda2) == mu
            && GenErlangVariance(p.k, p.lambda1, p.lambda2) == (cv * mu) * (cv * mu)
  {
    var k, s := ErlangRoots(mu, cv, sqrt);
    ChosenCandidateMoments(mu, cv, k, s);
  }

  /** The first candidate, turned into rates, has the target mean and variance. */
  lemma ChosenCandidateMoments(mu: real, cv: real, k: int, s: real)
    requires k >= 1 && QuadA(k) != 0.0 && s * s == Discriminant(mu, cv, k)
    requires PositivePairs(mu, k, [LowRoot(mu, k, s), HighRoot(mu, k, s)]) != []
    ensures var candidates := PositivePairs(mu, k, [LowRoot(mu, k, s), HighRoot(mu, k, s)]);
            var x, y := candidates[0].0, candidates[0].1;
            && x > 0.0 && y > 0.0 && 1.0 / x > 0.0 && 1.0 / y > 0.0
            && GenErlangMean(k, 1.0 / x, 1.0 / y) == mu
            && GenErlangVariance(k, 1.0 / x, 1.0 / y) == (cv * mu) * (cv * mu)
  {
    var roots := [LowRoot(mu, k, s), HighRoot(mu, k, s)];
    var candidates := PositivePairs(mu, k, roots);
    var x := candidates[0].0;
    PairsFromRoots(mu, k, roots);
    assert x in roots;
    CandidateMoments(mu, cv, k, s, x);
    FromPhaseMeans(k, x, candidates[0].1);
  }

  /** (-B - s)/(2A) is positive when B < 0, A > 0, C > 0, since then s < -B. */
  lemma LowRootPositive(a: real, b: real, c: real, s: real)
    requires a > 0.0 && b < 0.0 && c > 0.0 && s >= 0.0 && s * s == b * b - 4.0 * a * c
    ensures (-b - s) / (2.0 * a) > 0.0
  {
    var nb := -b;
    assert 4.0 * a * c > 0.0;
    assert s * s < nb * nb;
    if s >= nb {
      SquareMonotone(nb, s);
    }
  }

  /** With x1 = (2 mu k - s) / (2 k (k+1)), the last phase mean mu - k*x1 is (2 mu + s) / (2 (k+1)) > 0. */
  lemma LowRootSecondPhase(mu: real, kr: real, s: real, x1: real)
    requires kr >= 1.0 && mu > 0.0 && s >= 0.0
    requires x1 == (2.0 * mu * kr - s) / (2.0 * (kr * (kr + 1.0)))
    ensures mu - kr * x1 > 0.0
  {
    var d := 2.0 * (kr * (kr + 1.0));
    assert x1 * d == 2.0 * mu * kr - s;
    var y := mu - kr * x1;
    assert kr * x1 * (2.0 * (kr + 1.0)) == 2.0 * mu * kr - s;
    assert y * (2.0 * (kr + 1.0)) == 2.0 * mu + s;
  }

  lemma QuadCPositive(mu: real, cv: real)
    requires mu > 0.0 && cv * cv < 1.0
    ensures QuadC(mu, cv) > 0.0
  {
    SquareTimesComplementPositive(QuadC(mu, cv), mu, cv * cv);
  }

  /** For mu > 0 and 0 < cv < 1/sqrt(2) the low root always qualifies. */
  lemma LowRootQualifies(mu: real, cv: real, k: int, s: real)
    requires mu > 0.0 && 0.0 < cv * cv < 0.5 && k >= 1 && s >= 0.0 && s * s == Discriminant(mu, cv, k)
    ensures Qualifies(mu, k, LowRoot(mu, k, s))
  {
    var kr := k as real;
    var c := QuadC(mu, cv);
    QuadCPositive(mu, cv);
    assert QuadA(k) == kr * (kr + 1.0);
    assert QuadA(k) > 0.0;
    LowRootPositive(QuadA(k), QuadB(mu, k), c, s);
    assert -QuadB(mu, k) == 2.0 * mu * kr;
    LowRootSecondPhase(mu, kr, s, LowRoot(mu, k, s));
  }

  /**
   * For mu > 0 and 0 < cv < 1/sqrt(2) the fit never raises, and it keeps the low
   * root x1 = (-B - sqrt(delta)) / (2A): x1 > 0 and mu - k*x1 > 0 always hold.
   */
  lemma GeneralizedErlangLowRoot(mu: real, cv: real, sqrt: real -> real)
    requires IsSqrt(sqrt) && mu > 0.0 && 0.0 < cv < InvSqrt2(sqrt)
    ensures FitGeneralizedErlang(mu, cv, sqrt).Ok?
    ensures var k := PhaseCount(cv);
            var s := sqrt(Discriminant(mu, cv, k));
            1.0 / FitGeneralizedErlang(mu, cv, sqrt).value.lambda1 == LowRoot(mu, k, s)
  {
    PhaseCountAtLeastTwo(cv, sqrt);
    SquaredCvBelowHalf(cv, sqrt);
    var k, s := ErlangRoots(mu, cv, sqrt);
    LowRootQualifies(mu, cv, k, s);
    FirstQualifyingRootChosen(mu, k, LowRoot(mu, k, s), HighRoot(mu, k, s));
    var p := FitGeneralizedErlang(mu, cv, sqrt).value;
    Reciprocal(LowRoot(mu, k, s), p.lambda1);
  }

  // ---------------------------------------------------------------------------
  // Dispatch on cv (source lines 90-131)
  // ---------------------------------------------------------------------------

  datatype FittedLaw =
    | HyperExponential(hyper: HyperParams)
    | HypoExponential(hypo: HypoParams)
    | GeneralizedErlang(erlang: ErlangParams)

  /** The Java constructor call that the `java_code` string of each branch spells out. */
  datatype JavaCall =
    | NewHyperExponentialTime(rate1: real, rate2: real, prob1: real)
    | NewHypoExponentialTime(rate1: real, rate2: real)
    | NewGeneralizeErlangTime(k: int, rate1: real, rate2: real)

  function JavaCode(law: FittedLaw): JavaCall {
    match law
    case HyperExponential(p) => NewHyperExponentialTime(p.lambda1, p.lambda2, p.p1)
    case HypoExponential(p) => NewHypoExponentialTime(p.lambda1, p.lambda2)
    case GeneralizedErlang(p) => NewGeneralizeErlangTime(p.k, p.lambda1, p.lambda2)
  }

  /**
   * Routes cv >= 1 to the hyper-exponential (cv = 1 included), 1/sqrt(2) <= cv < 1 to the
   * hypo-exponential, and anything smaller to the generalized Erlang. Because of this
   * routing no fitter ever trips its own cv-range guard.
   */
  function FitDistribution(mean: real, cv: real, sqrt: real -> real): (r: Result<FittedLaw, FitError>)
    requires IsSqrt(sqrt)
    ensures r.Ok? ==> (r.value.HyperExponential? <==> cv >= 1.0)
    ensures r.Ok? ==> (r.value.HypoExponential? <==> InvSqrt2(sqrt) <= cv < 1.0)
    ensures r.Ok? ==> (r.value.GeneralizedErlang? <==> cv < InvSqrt2(sqrt))
    ensures r.Err? ==> r.error != CvAboveRange && r.error != CvBelowRange
  {
    if cv >= 1.0 then
      match FitHyperExponential(mean, cv, sqrt)
      case Ok(p) => Ok(HyperExponential(p))
      case Err(e) => Err(e)
    else if cv >= InvSqrt2(sqrt) then
      match FitHypoExponential(mean, cv, sqrt)
      case Ok(p) => Ok(HypoExponential(p))
      case Err(e) => Err(e)
    else
      match FitGeneralizedErlang(mean, cv, sqrt)
      case Ok(p) => Ok(GeneralizedErlang(p))
      case Err(e) => Err(e)
  }

  /** With a positive mean and a positive cv the dispatcher always returns a law. */
  lemma FitDistributionTotal(mean: real, cv: real, sqrt: real -> real)
    requires IsSqrt(sqrt) && mean > 0.0 && cv > 0.0
    ensures FitDistribution(mean, cv, sqrt).Ok?
  {
    if cv >= 1.0 {
      HyperBalancedMeans(mean, cv, sqrt);
    } else if cv >= InvSqrt2(sqrt) {
      HypoRatesOrdered(mean, cv, sqrt);
    } else {
      GeneralizedErlangLowRoot(mean, cv, sqrt);
    }
  }
}
