/**
 * The fitters' `java_code` strings construct eulero stochastic times from the fitted
 * parameters. This module follows the hyper-exponential and generalized-Erlang strings
 * into the models of HyperExponentialTime and GeneralizeErlangTime and shows that the
 * objects built there report the mean and the variance the fit was asked for.
 */
module FittedTimes {
  import opened Wrappers
  import opened RealMath
  import opened PhaseType
  import opened DistributionFitting
  import Hyper = HyperExponential
  import opened GeneralizeErlang

  /**
   * For cv >= 1 and a non-zero mean, `new HyperExponentialTime(lambda1, lambda2, p1)` built
   * from the fit has `getExpectedValue` = mean and `getVariance` = (cv mean)**2.
   */
  lemma HyperTimeMatchesFit(mean: real, cv: real, sqrt: real -> real)
    requires IsSqrt(sqrt) && cv >= 1.0 && mean != 0.0
    ensures FitDistribution(mean, cv, sqrt).Ok?
    ensures var call := JavaCode(FitDistribution(mean, cv, sqrt).value);
            && call.NewHyperExponentialTime?
            && var h := Hyper.New(call.rate1, call.rate2, call.prob1);
               && Hyper.ExpectedValue(h) == Ok(mean)
               && Hyper.Variance(h) == Ok((cv * mean) * (cv * mean))
  {
    HyperMoments(mean, cv, sqrt);
  }

  /**
   * Evaluates the generalized-Erlang `java_code`: the object it constructs has
   * `getExpectedValue` = mean and `getVariance` = (cv mean)**2.
   */
  method NewFittedGeneralizeErlang(mean: real, cv: real, sqrt: real -> real) returns (g: GeneralizeErlangTime)
    requires IsSqrt(sqrt) && FitDistribution(mean, cv, sqrt).Ok?
    requires FitDistribution(mean, cv, sqrt).value.GeneralizedErlang?
    ensures fresh(g)
    ensures g.ExpectedValue() == Ok(mean)
    ensures g.Variance() == Ok((cv * mean) * (cv * mean))
  {
    var call := JavaCode(FitDistribution(mean, cv, sqrt).value);
    GeneralizedErlangMoments(mean, cv, sqrt);
    g := new GeneralizeErlangTime(call.k, call.rate1, call.rate2);
  }
}
