/**
 * The second copy of the fitters, E2E-analysis/extract_data/scr/distribution_fitting.py.
 *
 * Its hyper-exponential fitter has the same body as the one of
 * E2E-analysis/extract_data/src/distribution_fitting.py and is modelled by
 * DistributionFitting.FitHyperExponential. Its hypo-exponential fitter differs only in
 * the lower guard, `cv**2 < 0.5` instead of `cv < 1/sqrt(2)`, and shares the computation
 * DistributionFitting.HypoRates. The Erlang fitter exists only here.
 */
module ScrDistributionFitting {
  import opened Wrappers
  import opened RealMath
  import opened PhaseType
  import opened DistributionFitting

  /** `(k, lambda)`: an Erlang law of k phases, each of rate lambda. */
  datatype ErlangLaw = ErlangLaw(k: int, lambda: real)

  function FitHypoExponential(mu: real, cv: real, sqrt: real -> real): (r: Result<HypoParams, FitError>)
    requires IsSqrt(sqrt)
    ensures cv >= 1.0 ==> r == Err(CvAboveRange)
    ensures cv < 1.0 && cv * cv < 0.5 ==> r == Err(CvBelowRange)
    ensures r.Ok? ==> 0.5 <= cv * cv && cv < 1.0
  {
    if cv >= 1.0 then Err(CvAboveRange)
    else if cv * cv < 0.5 then Err(CvBelowRange)
    else HypoRates(mu, cv, sqrt)
  }

  /**
   * Whenever this hypo-exponential fit succeeds, 1/lambda1 + 1/lambda2 = mu and
   * 1/lambda1**2 + 1/lambda2**2 = (cv * mu)**2; for 1/2 <= cv**2 < 1 it fails only for mu = 0.
   */
  lemma HypoMoments(mu: real, cv: real, sqrt: real -> real)
    requires IsSqrt(sqrt)
    ensures 0.5 <= cv * cv < 1.0 ==> (FitHypoExponential(mu, cv, sqrt).Err? <==> mu == 0.0)
    ensures FitHypoExponential(mu, cv, sqrt).Ok? ==>
            var p := FitHypoExponential(mu, cv, sqrt).value;
            && p.lambda1 != 0.0 && p.lambda2 != 0.0
            && GenErlangMean(1, p.lambda1, p.lambda2) == mu
            && GenErlangVariance(1, p.lambda1, p.lambda2) == (cv * mu) * (cv * mu)
  {
    if 0.5 <= cv * cv < 1.0 {
      assert cv < 1.0 by {
        if cv >= 1.0 { SquareMonotone(1.0, cv); }
      }
      HypoFailsOnlyAtZeroMean(mu, cv, sqrt);
    }
    if FitHypoExponential(mu, cv, sqrt).Ok? {
      HypoRatesMoments(mu, cv, sqrt);
    }
  }

  /**
   * The two copies disagree on negative cv: for -1 < cv <= -1/sqrt(2) the guard
   * `cv < 1/sqrt(2)` of the other copy rejects it, while `cv**2 < 0.5` lets it through.
   */
  lemma HypoGuardsDisagreeOnNegativeCv(mu: real, cv: real, sqrt: real -> real)
    requires IsSqrt(sqrt) && cv < 0.0 && 0.5 <= cv * cv
    ensures DistributionFitting.FitHypoExponential(mu, cv, sqrt) == Err(CvBelowRange)
    ensures FitHypoExponential(mu, cv, sqrt) == HypoRates(mu, cv, sqrt)
  {
  }

  /**
   * `fit_erlang`: raises for cv > 1; `1.0 / cv**2` divides by zero for cv = 0 and
   * `k / mu` for mu = 0; otherwise k = round(1/cv**2) and lambda = k/mu.
   */
  function FitErlang(mu: real, cv: real): (r: Result<ErlangLaw, FitError>)
    ensures r.Err? <==> cv > 1.0 || cv == 0.0 || mu == 0.0
    ensures r.Err? ==> r.error == (if cv > 1.0 then CvAboveRange else ZeroDivision)
    ensures r.Ok? ==> r.value.k == RoundHalfEven(1.0 / (cv * cv))
  {
    if cv > 1.0 then Err(CvAboveRange)
    else if cv == 0.0 then Err(ZeroDivision)
    else
      var k := RoundHalfEven(1.0 / (cv * cv));
      if mu == 0.0 then Err(ZeroDivision)
      else Ok(ErlangLaw(k, k as real / mu))
  }

  /** For 0 < cv <= 1 the rounded phase count is at least one, since 1/cv**2 >= 1. */
  lemma ErlangPhaseCount(mu: real, cv: real)
    requires 0.0 < cv <= 1.0 && mu != 0.0
    ensures FitErlang(mu, cv).Ok? && FitErlang(mu, cv).value.k >= 1
  {
    var c2 := cv * cv;
    assert 0.0 < c2 <= 1.0 by { SquareMonotone(cv, 1.0); }
    ReciprocalAntitone(c2, 1.0);
  }

  /**
   * The returned (k, k/mu) has Erlang mean k/lambda = mu whenever k != 0, and variance
   * k/lambda**2 = mu**2/k, which is (cv * mu)**2 exactly when 1/cv**2 is the integer k.
   */
  lemma ErlangMoments(mu: real, cv: real)
    requires FitErlang(mu, cv).Ok? && FitErlang(mu, cv).value.k != 0
    ensures var e := FitErlang(mu, cv).value;
            && e.lambda != 0.0
            && ErlangMean(e.k, e.lambda) == mu
            && ErlangVariance(e.k, e.lambda) == (mu * mu) / e.k as real
            && (1.0 / (cv * cv) == e.k as real ==> ErlangVariance(e.k, e.lambda) == (cv * mu) * (cv * mu))
  {
    var e := FitErlang(mu, cv).value;
    var kr := e.k as real;
    var l := e.lambda;
    assert l == kr / mu;
    assert l * mu == kr;
    assert kr / l == mu;
    assert kr / (l * l) == (mu * mu) / kr by {
      assert (l * l) * (mu * mu) == kr * kr;
    }
    if 1.0 / (cv * cv) == kr {
      assert kr * (cv * cv) == 1.0;
      assert (mu * mu) / kr == (cv * cv) * (mu * mu);
    }
  }

  /**
   * At cv = 1 exactly the hyper-exponential and Erlang fitters both accept (the Erlang one
   * with a single phase, an exponential of rate 1/mu) and the hypo-exponential one refuses.
   */
  lemma UnitCvBoundary(mu: real, sqrt: real -> real)
    requires IsSqrt(sqrt) && mu != 0.0
    ensures DistributionFitting.FitHyperExponential(mu, 1.0, sqrt).Ok?
    ensures FitErlang(mu, 1.0) == Ok(ErlangLaw(1, 1.0 / mu))
    ensures FitHypoExponential(mu, 1.0, sqrt) == Err(CvAboveRange)
  {
    assert RoundHalfEven(1.0 / (1.0 * 1.0)) == 1;
  }
}
