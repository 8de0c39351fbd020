// The last two analyses of E2E-analysis/data/main.py: fitting a phase-type law to every
// per-operation statistics entry (`distribution_fitting`), and the statistics of the
// end-to-end `users-service` / `POST /reserve` latency (`collect_end_to_end_statistics`).
//
// Durations stay integer nanoseconds; the one place where the unit matters is the mean handed
// to a fitter, which the source converts to milliseconds, and so does the model.

module EndToEnd {
  import opened Wrappers
  import opened RealMath
  import opened Statistics
  import opened PhaseType
  import opened DistributionFitting
  import opened Spans
  import opened WorkflowTraces

  /** `10**6`: nanoseconds per millisecond. */
  const NsPerMs: real := 1_000_000.0

  /** `("hyperExp", p1, lambda1, p2, lambda2)` or `("hypoExp", lambda1, lambda2)`. */
  datatype Distribution =
    | HyperExp(hyper: HyperParams)
    | HypoExp(hypo: HypoParams)

  /** The `ValueError` of an unsupported cv, or an exception raised inside a fitter. */
  datatype FittingError =
    | UnsupportedCv(cv: real)
    | FitterRaised(error: FitError)

  /** The cv ranges the routing accepts: above 1, or strictly between 1/sqrt(2) and 1. */
  predicate Supported(cv: real, sqrt: real -> real)
    requires IsSqrt(sqrt)
  {
    cv > 1.0 || (cv < 1.0 && cv > InvSqrt2(sqrt))
  }

  /**
   * The routing of one entry (E2E-analysis/data/main.py:167-174): the hyper-exponential fit
   * for cv > 1, the hypo-exponential fit strictly inside (1/sqrt(2), 1), and a `ValueError`
   * otherwise, cv = 1 included. The fitters receive the mean in milliseconds.
   */
  function Route(meanNs: real, cv: real, sqrt: real -> real): (r: Result<Distribution, FittingError>)
    requires IsSqrt(sqrt)
    ensures r.Ok? ==> (r.value.HyperExp? <==> cv > 1.0)
    ensures r.Ok? ==> (r.value.HypoExp? <==> cv < 1.0 && cv > InvSqrt2(sqrt))
    ensures r.Err? && r.error.UnsupportedCv? <==> !Supported(cv, sqrt)
    ensures r.Err? && r.error.FitterRaised? ==> meanNs <= 0.0
    ensures meanNs > 0.0 ==> (r.Ok? <==> Supported(cv, sqrt))
  {
    if cv > 1.0 then
      match FitHyperExponential(meanNs / NsPerMs, cv, sqrt)
      case Ok(p) => Ok(HyperExp(p))
      case Err(e) => Err(FitterRaised(e))
    else if cv < 1.0 && cv > InvSqrt2(sqrt) then
      var mu := meanNs / NsPerMs;
      if mu > 0.0 then
        HypoRatesOrdered(mu, cv, sqrt);
        Ok(HypoExp(FitHypoExponential(mu, cv, sqrt).value))
      else
        match FitHypoExponential(mu, cv, sqrt)
        case Ok(p) => Ok(HypoExp(p))
        case Err(e) => Err(FitterRaised(e))
    else
      Err(UnsupportedCv(cv))
  }

  /**
   * A fitted law reproduces the observed mean, in milliseconds, and the variance the cv asks
   * for: the parameters that `distribution_fitting` stores are moment matches of the entry.
   */
  lemma RoutedMoments(meanNs: real, cv: real, sqrt: real -> real)
    requires IsSqrt(sqrt) && Route(meanNs, cv, sqrt).Ok?
    ensures var mu := meanNs / NsPerMs;
            match Route(meanNs, cv, sqrt).value
            case HyperExp(p) =>
              && p.lambda1 != 0.0 && p.lambda2 != 0.0
              && HyperMean(p.p1, p.lambda1, p.p2, p.lambda2) == mu
              && HyperVariance(p.p1, p.lambda1, p.p2, p.lambda2) == (cv * mu) * (cv * mu)
            case HypoExp(p) =>
              && p.lambda1 != 0.0 && p.lambda2 != 0.0
              && GenErlangMean(1, p.lambda1, p.lambda2) == mu
              && GenErlangVariance(1, p.lambda1, p.lambda2) == (cv * mu) * (cv * mu)
  {
    var mu := meanNs / NsPerMs;
    if cv > 1.0 {
      assert mu != 0.0;
      HyperMoments(mu, cv, sqrt);
    } else {
      if mu > 0.0 {
        HypoRatesOrdered(mu, cv, sqrt);
      }
      assert FitHypoExponential(mu, cv, sqrt).Ok?;
      HypoMoments(mu, cv, sqrt);
    }
  }

  /**
   * Every entry that `collect_statisctics` produces has cv = 0 unless its mean is positive,
   * so on such entries the routing fails exactly on an unsupported cv: never inside a fitter.
   */
  lemma CollectedEntryRoute(stats: OperationStats, sqrt: real -> real)
    requires IsSqrt(sqrt)
    requires stats.mean <= 0.0 ==> stats.cv == 0.0
    ensures Route(stats.mean, stats.cv, sqrt).Ok? <==> Supported(stats.cv, sqrt)
  {
    var s := InvSqrt2(sqrt);
    if stats.mean <= 0.0 {
      assert !Supported(stats.cv, sqrt);
    }
  }

  // ---------------------------------------------------------------------------
  // distribution_fitting (E2E-analysis/data/main.py:164-175)
  // ---------------------------------------------------------------------------

  /** The dict `distribution_fitting` returns when no entry raises. */
  function FittedDistributions(statistics: map<(string, string), OperationStats>, sqrt: real -> real)
    : (r: map<(string, string), Distribution>)
    requires IsSqrt(sqrt)
    requires forall key | key in statistics :: Route(statistics[key].mean, statistics[key].cv, sqrt).Ok?
    ensures r.Keys == statistics.Keys
  {
    map key | key in statistics :: Route(statistics[key].mean, statistics[key].cv, sqrt).value
  }

  /**
   * `distribution_fitting`: one law per entry, or the first exception raised. The dict's
   * iteration order is not modelled, so an error is that of some failing entry.
   */
  method FitDistributions(statistics: map<(string, string), OperationStats>, sqrt: real -> real)
    returns (r: Result<map<(string, string), Distribution>, FittingError>)
    requires IsSqrt(sqrt)
    ensures r.Ok? <==> forall key | key in statistics :: Route(statistics[key].mean, statistics[key].cv, sqrt).Ok?
    ensures r.Ok? ==> r.value == FittedDistributions(statistics, sqrt)
    ensures r.Err? ==> exists key | key in statistics :: Route(statistics[key].mean, statistics[key].cv, sqrt) == Err(r.error)
  {
    var distributions: map<(string, string), Distribution> := map[];
    var pending := statistics.Keys;
    while pending != {}
      invariant pending <= statistics.Keys
      invariant distributions.Keys == statistics.Keys - pending
      invariant forall key | key in distributions ::
                  Route(statistics[key].mean, statistics[key].cv, sqrt) == Ok(distributions[key])
      decreases pending
    {
      var key :| key in pending;
      var statistic := statistics[key];
      var fitted := Route(statistic.mean, statistic.cv, sqrt);
      if fitted.Err? {
        return Err(fitted.error);
      }
      distributions := distributions[key := fitted.value];
      pending := pending - {key};
    }
    assert distributions.Keys == FittedDistributions(statistics, sqrt).Keys;
    return Ok(distributions);
  }

  /**
   * On what `collect_statisctics` returns, `distribution_fitting` succeeds exactly when every
   * operation's cv lies in a supported range.
   */
  lemma CollectedStatisticsFit(buckets: map<(string, string), seq<int>>, last: int, sqrt: real -> real)
    requires IsSqrt(sqrt)
    requires forall key | key in buckets :: buckets[key] != []
    ensures var statistics := StatisticsOf(buckets, last, sqrt);
            (forall key | key in statistics :: Route(statistics[key].mean, statistics[key].cv, sqrt).Ok?)
            <==> (forall key | key in statistics :: Supported(statistics[key].cv, sqrt))
  {
    var statistics := StatisticsOf(buckets, last, sqrt);
    forall key | key in statistics
      ensures Route(statistics[key].mean, statistics[key].cv, sqrt).Ok? <==> Supported(statistics[key].cv, sqrt)
    {
      CollectedEntryRoute(statistics[key], sqrt);
    }
  }

  // ---------------------------------------------------------------------------
  // collect_end_to_end_statistics (E2E-analysis/data/main.py:192-236)
  // ---------------------------------------------------------------------------

  /** The first `users-service` / `POST /reserve` span of a trace, where the scan breaks. */
  function FirstEntry(spans: seq<Span>): (r: Option<Span>)
    ensures r.None? <==> forall s | s in spans :: !IsReserveEntry(s)
    ensures r.Some? ==> exists i | 0 <= i < |spans| :: spans[i] == r.value && IsReserveEntry(spans[i])
                                   && forall j | 0 <= j < i :: !IsReserveEntry(spans[j])
  {
    if spans == [] then None
    else if IsReserveEntry(spans[0]) then Some(spans[0])
    else
      var r := FirstEntry(spans[1..]);
      assert forall s | s in spans[1..] :: s in spans;
      assert forall s | s in spans :: s == spans[0] || s in spans[1..];
      if r.Some? then
        var i :| 0 <= i < |spans[1..]| && spans[1..][i] == r.value && IsReserveEntry(spans[1..][i])
                 && forall j | 0 <= j < i :: !IsReserveEntry(spans[1..][j]);
        assert spans[i + 1] == r.value;
        r
      else r
  }

  /** `durations`: at most one entry duration per trace, in trace order. */
  function EntryDurations(traces: seq<seq<Span>>): (ds: seq<int>)
    ensures |ds| <= |traces|
  {
    if traces == [] then []
    else
      EntryDurations(traces[..|traces| - 1])
        + match FirstEntry(traces[|traces| - 1]) {
            case Some(s) => [Duration(s)]
            case None => []
          }
  }

  /** The dict `collect_end_to_end_statistics` returns when it is not `{}`. */
  datatype EndToEndStats = EndToEndStats(
    min: int,
    max: int,
    mean: real,
    variance: real,
    stdDev: real,
    cv: real,
    distributionParams: Option<Distribution>)

  /**
   * `None` is the `{}` of a run without any entry span. The summary is the same one
   * `collect_statisctics` computes per operation; the law is fitted only for a positive mean
   * and a supported cv, and is left `None` otherwise instead of raising.
   */
  function EndToEndStatistics(traces: seq<seq<Span>>, sqrt: real -> real): (r: Option<EndToEndStats>)
    requires IsSqrt(sqrt)
    ensures r.None? <==> EntryDurations(traces) == []
  {
    var durations := EntryDurations(traces);
    if durations == [] then None else Some(SummariseEndToEnd(durations, sqrt))
  }

  /**
   * The summary of a non-empty list of entry durations: the same one `collect_statisctics`
   * computes per operation, plus the law, fitted only for a positive mean.
   */
  function SummariseEndToEnd(durations: seq<int>, sqrt: real -> real): (r: EndToEndStats)
    requires IsSqrt(sqrt) && durations != []
  {
    var summary := Summary(durations, 0, sqrt);
    var params :=
      if summary.mean > 0.0 then
        match Route(summary.mean, summary.cv, sqrt) {
          case Ok(d) => Some(d)
          case Err(_) => None
        }
      else None;
    EndToEndStats(summary.min, summary.max, summary.mean, summary.variance,
                  summary.stdDev, summary.cv, params)
  }

  /** The scan of one trace's spans, stopping at the first entry span. */
  method FindEntry(spans: seq<Span>) returns (entry: Option<Span>)
    ensures entry == FirstEntry(spans)
  {
    entry := None;
    var j := 0;
    while j < |spans|
      invariant 0 <= j <= |spans|
      invariant FirstEntry(spans) == FirstEntry(spans[j..])
    {
      if IsReserveEntry(spans[j]) {
        return Some(spans[j]);
      }
      assert spans[j..][1..] == spans[j + 1..];
      j := j + 1;
    }
  }

  method CollectEndToEndStatistics(traces: seq<seq<Span>>, sqrt: real -> real) returns (r: Option<EndToEndStats>)
    requires IsSqrt(sqrt)
    ensures r == EndToEndStatistics(traces, sqrt)
  {
    var durations: seq<int> := [];
    for i := 0 to |traces|
      invariant durations == EntryDurations(traces[..i])
    {
      assert traces[..i + 1][..i] == traces[..i];
      var entry := FindEntry(traces[i]);
      if entry.Some? {
        durations := durations + [Duration(entry.value)];
      }
    }
    assert traces[..|traces|] == traces;
    if durations == [] {
      return None;
    }
    r := Some(SummariseEndToEnd(durations, sqrt));
  }

  /** Each duration is that of a trace's first entry span, and each trace contributes at most once. */
  lemma {:induction false} EntryDurationsFromFirstEntries(traces: seq<seq<Span>>)
    ensures forall d | d in EntryDurations(traces) ::
              exists t | t in traces :: FirstEntry(t).Some? && d == Duration(FirstEntry(t).value)
  {
    if traces != [] {
      var init := traces[..|traces| - 1];
      EntryDurationsFromFirstEntries(init);
      var last := traces[|traces| - 1];
      assert last in traces;
      forall d | d in EntryDurations(traces)
        ensures exists t | t in traces :: FirstEntry(t).Some? && d == Duration(FirstEntry(t).value)
      {
        if d in EntryDurations(init) {
          var t :| t in init && FirstEntry(t).Some? && d == Duration(FirstEntry(t).value);
          assert t in traces;
        } else {
          assert FirstEntry(last).Some? && d == Duration(FirstEntry(last).value);
        }
      }
    }
  }

  /**
   * On workflow traces, which all contain an entry span, every trace contributes exactly one
   * duration.
   */
  lemma {:induction false} WorkflowTracesAllCounted(traces: seq<seq<Span>>, requiredLength: Option<nat>)
    requires forall i | 0 <= i < |traces| :: InWorkflow(traces[i], requiredLength)
    ensures |EntryDurations(traces)| == |traces|
  {
    if traces != [] {
      WorkflowTracesAllCounted(traces[..|traces| - 1], requiredLength);
      var last := traces[|traces| - 1];
      assert InWorkflow(last, requiredLength);
    }
  }

  /** The summary's bounds and moments are those of the entry durations. */
  lemma EndToEndBounds(durations: seq<int>, sqrt: real -> real)
    requires IsSqrt(sqrt) && durations != []
    ensures var r := SummariseEndToEnd(durations, sqrt);
            && r.min in durations && r.max in durations
            && (forall i | 0 <= i < |durations| :: r.min <= durations[i] <= r.max)
            && r.min as real <= r.mean <= r.max as real
            && r.variance >= 0.0 && IsStdDev(r.stdDev, r.variance)
            && (r.mean <= 0.0 ==> r.cv == 0.0)
  {
    var summary := Summary(durations, 0, sqrt);
    var r := SummariseEndToEnd(durations, sqrt);
    assert r.min == summary.min && r.max == summary.max && r.mean == summary.mean;
    assert r.variance == summary.variance && r.stdDev == summary.stdDev && r.cv == summary.cv;
  }

  /**
   * A law is fitted exactly when the mean is positive and the cv supported, and it is then the
   * one the routing gives; out of range the entry stays `None` instead of raising.
   */
  lemma EndToEndFit(durations: seq<int>, sqrt: real -> real)
    requires IsSqrt(sqrt) && durations != []
    ensures var r := SummariseEndToEnd(durations, sqrt);
            && (r.distributionParams.Some? <==> r.mean > 0.0 && Supported(r.cv, sqrt))
            && (r.distributionParams.Some? ==> Route(r.mean, r.cv, sqrt) == Ok(r.distributionParams.value))
  {
    var summary := Summary(durations, 0, sqrt);
  }
}
