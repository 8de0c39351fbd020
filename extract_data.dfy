/**
 * The per-service breakdown of extract_data/src/main.py: a server span is cut into
 * processing segments around its external (non-database) child calls, segment and total
 * times are grouped per service, end-to-end times are classified against a 170 ms cut-off,
 * and client/server network overheads are collected. Durations stay in integer
 * nanoseconds; the source divides every one of them by 1e6 to report milliseconds.
 */
module ExtractData {
  import opened Wrappers
  import opened RealMath
  import opened Statistics
  import opened Spans
  import DistributionFitting

  /** Gaps of at most this many nanoseconds (0.01 ms) are treated as noise. */
  const MinSegmentNs := 10000

  /** An early-return search for `key` among the attribute keys. */
  function HasKey(keys: seq<string>, key: string): (r: bool)
    ensures r <==> key in keys
  {
    if keys == [] then false
    else if keys[0] == key then true
    else HasKey(keys[1..], key)
  }

  /** `is_db_call`: some attribute of the span is keyed `db.system`. */
  predicate IsDbCall(s: Span) {
    HasKey(s.attributeKeys, "db.system")
  }

  /** External calls are the children that are not database calls. */
  predicate IsExternalCall(s: Span) {
    !IsDbCall(s)
  }

  /** `parent_id = span.get('parentSpanId'); if parent_id:` (a present, non-empty id). */
  predicate HasParent(s: Span) {
    s.parentSpanId.Some? && s.parentSpanId.value != ""
  }

  /** `spans_by_parent.get(id, [])` for the `spans_by_parent` built from `spans`. */
  function ChildrenOf(spans: seq<Span>, id: string): (r: seq<Span>)
    ensures forall c | c in r :: c in spans && HasParent(c) && c.parentSpanId.value == id
  {
    Filter(spans, c => HasParent(c) && c.parentSpanId.value == id)
  }

  datatype SegmentName =
    | BeforeCall(service: string, operation: string)  // "Processing before calling {service} [{operation}]"
    | FinalProcessing                                  // "Final Processing / Response Preparation"
    | FullInternalExecution                            // "Full Internal Execution"

  datatype Segment = Segment(name: SegmentName, duration: int)

  /** The external calls of a span: the non-database children, sorted by start. */
  function ExternalCalls(children: seq<Span>): (r: seq<Span>)
    ensures multiset(r) == multiset(Filter(children, IsExternalCall))
  {
    SortByStart(Filter(children, IsExternalCall))
  }

  /** The segments emitted and the cursor reached after visiting `calls` from `start`. */
  datatype Scan = Scan(segments: seq<Segment>, cursor: int)

  /** One iteration of the loop over the sorted external calls. */
  function ScanStep(sc: Scan, call: Span): Scan {
    var gap := call.start - sc.cursor;
    if gap > MinSegmentNs then
      var name := BeforeCall(call.serviceName.GetOr("unknown"), call.name.GetOr("unknown"));
      Scan(sc.segments + [Segment(name, gap)], call.end)
    else
      Scan(sc.segments, if sc.cursor >= call.end then sc.cursor else call.end)
  }

  function ScanCalls(calls: seq<Span>, start: int): Scan {
    if calls == [] then Scan([], start)
    else ScanStep(ScanCalls(calls[..|calls| - 1], start), calls[|calls| - 1])
  }

  /** The segments of a span around calls already filtered and sorted. */
  function SegmentsAround(span: Span, calls: seq<Span>): seq<Segment> {
    var sc := ScanCalls(calls, span.start);
    var finalNs := span.end - sc.cursor;
    var segments := if finalNs > MinSegmentNs then sc.segments + [Segment(FinalProcessing, finalNs)] else sc.segments;
    if calls == [] && segments == [] then [Segment(FullInternalExecution, span.end - span.start)]
    else segments
  }

  /** The value `extract_execution_segments(span, ...)` returns when `children` are the span's children. */
  function Segments(span: Span, children: seq<Span>): seq<Segment> {
    SegmentsAround(span, ExternalCalls(children))
  }

  /** The cursor loop of `extract_execution_segments` and the final segment, on calls already filtered and sorted. */
  method SegmentCalls(span: Span, calls: seq<Span>) returns (segments: seq<Segment>)
    ensures segments == SegmentsAround(span, calls)
  {
    segments := [];
    var cursor := span.start;
    for i := 0 to |calls|
      invariant Scan(segments, cursor) == ScanCalls(calls[..i], span.start)
    {
      assert calls[..i + 1][..i] == calls[..i];
      var call := calls[i];
      var gap := call.start - cursor;
      if gap > MinSegmentNs {
        var name := BeforeCall(call.serviceName.GetOr("unknown"), call.name.GetOr("unknown"));
        segments := segments + [Segment(name, gap)];
        cursor := call.end;
      } else {
        cursor := if cursor >= call.end then cursor else call.end;
      }
    }
    assert calls[..|calls|] == calls;
    var finalNs := span.end - cursor;
    if finalNs > MinSegmentNs {
      segments := segments + [Segment(FinalProcessing, finalNs)];
    }
    if |calls| == 0 && |segments| == 0 {
      segments := [Segment(FullInternalExecution, span.end - span.start)];
    }
  }

  /** `extract_execution_segments`: walks the external calls in start order with a cursor. */
  method ExtractExecutionSegments(span: Span, children: seq<Span>) returns (segments: seq<Segment>)
    ensures segments == Segments(span, children)
  {
    var calls := Filter(children, IsExternalCall);
    calls := SortByStart(calls);
    segments := SegmentCalls(span, calls);
  }

  /** A database child anywhere among the children changes nothing. */
  lemma DbCallIgnored(span: Span, before: seq<Span>, db: Span, after: seq<Span>)
    requires IsDbCall(db)
    ensures Segments(span, before + [db] + after) == Segments(span, before + after)
  {
    var with, without := before + [db] + after, before + after;
    FilterConcat(before + [db], after, IsExternalCall);
    FilterConcat(before, [db], IsExternalCall);
    FilterConcat(before, after, IsExternalCall);
    assert Filter([db], IsExternalCall) == [] by {
      assert [db][..0] == [];
    }
    assert Filter(with, IsExternalCall) == Filter(without, IsExternalCall);
  }

  /** The calls are visited in non-decreasing start order. */
  lemma ExternalCallsInStartOrder(children: seq<Span>)
    ensures SortedByStart(ExternalCalls(children))
  {
    SortByStartSorted(Filter(children, IsExternalCall));
  }

  predicate WellFormedCalls(calls: seq<Span>) {
    forall c | c in calls :: c.start <= c.end
  }

  /** Visiting one more call never moves the cursor back, when that call starts before it ends. */
  lemma CursorNeverDecreases(calls: seq<Span>, start: int, call: Span)
    requires call.start <= call.end
    ensures ScanCalls(calls + [call], start).cursor >= ScanCalls(calls, start).cursor
  {
    assert (calls + [call])[..|calls|] == calls;
  }

  /** So, starting at the span start, the cursor never falls below it. */
  lemma {:induction false} CursorFromStart(calls: seq<Span>, start: int)
    requires WellFormedCalls(calls)
    ensures ScanCalls(calls, start).cursor >= start
  {
    if calls != [] {
      var init := calls[..|calls| - 1];
      assert WellFormedCalls(init);
      CursorFromStart(init, start);
      CursorNeverDecreases(init, start, calls[|calls| - 1]);
      assert init + [calls[|calls| - 1]] == calls;
    }
  }

  /** The segments emitted during the scan are all "before calling" segments of more than 10 000 ns. */
  lemma {:induction false} ScanSegmentsAboveThreshold(calls: seq<Span>, start: int)
    ensures forall s | s in ScanCalls(calls, start).segments :: s.name.BeforeCall? && s.duration > MinSegmentNs
  {
    if calls != [] {
      ScanSegmentsAboveThreshold(calls[..|calls| - 1], start);
    }
  }

  /** Every segment other than the whole-span one lasts more than 10 000 ns. */
  lemma SegmentsAboveThreshold(span: Span, children: seq<Span>)
    ensures forall s | s in Segments(span, children) && !s.name.FullInternalExecution? :: s.duration > MinSegmentNs
  {
    ScanSegmentsAboveThreshold(ExternalCalls(children), span.start);
  }

  /**
   * The "Full Internal Execution" segment appears exactly when the span has no external
   * call and lasts at most 10 000 ns; it is then the only segment and covers the span.
   */
  lemma FullInternalExactly(span: Span, children: seq<Span>)
    ensures (exists s | s in Segments(span, children) :: s.name.FullInternalExecution?)
            <==> ExternalCalls(children) == [] && span.end - span.start <= MinSegmentNs
    ensures ExternalCalls(children) == [] && span.end - span.start <= MinSegmentNs
            ==> Segments(span, children) == [Segment(FullInternalExecution, span.end - span.start)]
  {
    var calls := ExternalCalls(children);
    ScanSegmentsAboveThreshold(calls, span.start);
    if calls == [] && span.end - span.start <= MinSegmentNs {
      assert Segments(span, children)[0].name.FullInternalExecution?;
    }
  }

  /** Without external calls the result is never empty: exactly one segment spanning the whole span. */
  lemma NoExternalCalls(span: Span, children: seq<Span>)
    requires forall c | c in children :: IsDbCall(c)
    ensures |Segments(span, children)| == 1
    ensures Segments(span, children)[0].duration == span.end - span.start
  {
    FilterNone(children, IsExternalCall);
    assert Segments(span, children) == SegmentsAround(span, []);
    assert ScanCalls([], span.start) == Scan([], span.start);
    if span.end - span.start > MinSegmentNs {
      assert SegmentsAround(span, []) == [Segment(FinalProcessing, span.end - span.start)];
    } else {
      assert SegmentsAround(span, []) == [Segment(FullInternalExecution, span.end - span.start)];
    }
  }

  /** With an external call the result can be empty: a call covering the whole span. */
  lemma EmptyWithExternalCall()
    ensures var span := Span("t", "a", None, Some("s"), Some("op"), Some(Server), 0, 5000, []);
            var call := Span("t", "b", Some("a"), Some("s"), Some("op"), Some(Client), 0, 5000, []);
            Segments(span, [call]) == []
  {
    var call := Span("t", "b", Some("a"), Some("s"), Some("op"), Some(Client), 0, 5000, []);
    assert !IsDbCall(call);
    assert Filter([call], IsExternalCall) == [call] by {
      assert [call][..0] == [];
    }
    assert SortByStart([call]) == [call] by {
      assert [call][..0] == [];
    }
    assert ScanCalls([call], 0) == Scan([], 5000) by {
      assert [call][..0] == [];
    }
  }

  function SegmentTime(segments: seq<Segment>): int {
    if segments == [] then 0 else SegmentTime(segments[..|segments| - 1]) + segments[|segments| - 1].duration
  }

  lemma SegmentTimeAppend(segments: seq<Segment>, s: Segment)
    ensures SegmentTime(segments + [s]) == SegmentTime(segments) + s.duration
  {
    assert (segments + [s])[..|segments|] == segments;
  }

  /** During the scan the segments emitted fit between the start and the cursor, and the cursor stays below `bound`. */
  lemma {:induction false} ScanTimeBounded(calls: seq<Span>, start: int, bound: int)
    requires start <= bound
    requires forall c | c in calls :: c.start <= c.end <= bound
    ensures SegmentTime(ScanCalls(calls, start).segments) <= ScanCalls(calls, start).cursor - start
    ensures ScanCalls(calls, start).cursor <= bound
  {
    if calls != [] {
      var init := calls[..|calls| - 1];
      ScanTimeBounded(init, start, bound);
      var sc := ScanCalls(init, start);
      var call := calls[|calls| - 1];
      if call.start - sc.cursor > MinSegmentNs {
        var name := BeforeCall(call.serviceName.GetOr("unknown"), call.name.GetOr("unknown"));
        SegmentTimeAppend(sc.segments, Segment(name, call.start - sc.cursor));
      }
    }
  }

  /**
   * When the span does not end before it starts and every external call starts no later
   * than it ends, which is no later than the span's end, the segments add up to at most
   * the span's duration.
   */
  lemma SegmentTimeWithinSpan(span: Span, children: seq<Span>)
    requires span.start <= span.end
    requires forall c | c in children && !IsDbCall(c) :: c.start <= c.end <= span.end
    ensures SegmentTime(Segments(span, children)) <= span.end - span.start
  {
    var calls := ExternalCalls(children);
    forall c | c in calls
      ensures c.start <= c.end <= span.end
    {
      assert c in multiset(Filter(children, IsExternalCall));
      assert c in Filter(children, IsExternalCall);
      assert c in children && !IsDbCall(c);
    }
    SegmentTimeAroundCalls(span, calls);
  }

  lemma SegmentTimeAroundCalls(span: Span, calls: seq<Span>)
    requires span.start <= span.end
    requires forall c | c in calls :: c.start <= c.end <= span.end
    ensures SegmentTime(SegmentsAround(span, calls)) <= span.end - span.start
  {
    ScanTimeBounded(calls, span.start, span.end);
    var sc := ScanCalls(calls, span.start);
    if span.end - sc.cursor > MinSegmentNs {
      SegmentTimeAppend(sc.segments, Segment(FinalProcessing, span.end - sc.cursor));
    }
    SegmentTimeAppend([], Segment(FullInternalExecution, span.end - span.start));
    assert [] + [Segment(FullInternalExecution, span.end - span.start)] == [Segment(FullInternalExecution, span.end - span.start)];
  }

  /** The dict `calculate_stats` returns. */
  datatype SampleStats = SampleStats(mean: real, min: real, max: real, variance: real, stdDev: real, cv: real)

  /**
   * `calculate_stats`: None for no data; otherwise the mean, the extremes, the sample
   * variance (divisor n - 1, and 0 for a single value), its root and `std / mean`
   * (0 for a zero mean).
   */
  function CalculateStats(data: seq<real>, sqrt: real -> real): (r: Option<SampleStats>)
    requires IsSqrt(sqrt)
    ensures r.None? <==> data == []
    ensures r.Some? ==> IsMean(r.value.mean, data)
    ensures r.Some? ==> IsSampleVariance(r.value.variance, data, r.value.mean)
    ensures r.Some? ==> IsStdDev(r.value.stdDev, r.value.variance)
    ensures r.Some? ==> IsCv(r.value.cv, r.value.stdDev, r.value.mean)
  {
    if data == [] then None
    else
      var mean := Mean(data);
      var variance := SampleVariance(data, mean);
      var stdDev := if |data| > 1 then Root(variance, sqrt) else 0.0;
      Some(SampleStats(mean, Min(data), Max(data), variance, stdDev, Cv(stdDev, mean)))
  }

  /** The extremes reported are elements of the data bounding all of it, and the mean lies between them. */
  lemma SampleStatsRange(data: seq<real>, sqrt: real -> real)
    requires IsSqrt(sqrt) && |data| > 0
    ensures var st := CalculateStats(data, sqrt).value;
            && st.min in data && st.max in data
            && (forall i | 0 <= i < |data| :: st.min <= data[i] <= st.max)
            && st.min <= st.mean <= st.max
  {
    MeanBetweenMinAndMax(data);
  }

  /** v is the sample variance of the data around mean: divisor n - 1, and 0 for a single value. */
  predicate IsSampleVariance(v: real, data: seq<real>, mean: real) {
    && 0.0 <= v
    && (|data| == 1 ==> v == 0.0)
    && (|data| > 1 ==> v * (|data| - 1) as real == SquaredDeviations(data, mean))
  }

  /** `sum((x - mean) ** 2 for x in data) / (n - 1)` when n > 1, else 0. */
  function SampleVariance(data: seq<real>, mean: real): (v: real)
    requires |data| > 0
    ensures IsSampleVariance(v, data, mean)
  {
    if |data| > 1 then SquaredDeviations(data, mean) / (|data| - 1) as real else 0.0
  }

  /** cv is the coefficient of variation `std / mean`, taken as 0 for a zero mean. */
  predicate IsCv(cv: real, stdDev: real, mean: real) {
    && (mean == 0.0 ==> cv == 0.0)
    && (mean != 0.0 ==> cv * mean == stdDev)
  }

  /** `(std / mean) if mean != 0 else 0.0`. */
  function Cv(stdDev: real, mean: real): (cv: real)
    ensures IsCv(cv, stdDev, mean)
  {
    if mean != 0.0 then stdDev / mean else 0.0
  }

  /** Equal values have no spread: variance, standard deviation and cv are all 0. */
  lemma ConstantDataNoSpread(data: seq<real>, x: real, sqrt: real -> real)
    requires IsSqrt(sqrt) && |data| > 0
    requires forall i | 0 <= i < |data| :: data[i] == x
    ensures var st := CalculateStats(data, sqrt).value;
            st.mean == x && st.variance == 0.0 && st.stdDev == 0.0 && st.cv == 0.0
  {
    MeanBetween(data, x, x);
    NoDeviation(data, x);
    var st := CalculateStats(data, sqrt).value;
    if |data| > 1 {
      assert st.variance == 0.0;
      SqrtOfSquare(sqrt, 0.0);
      assert 0.0 * 0.0 == 0.0;
    }
  }

  /** The dict `calculate_latency_stats` returns. */
  datatype LatencyStats = LatencyStats(mean: real, variance: real)

  /** `calculate_latency_stats`: the mean and the sample variance only. */
  function CalculateLatencyStats(data: seq<real>): (r: Option<LatencyStats>)
    ensures r.None? <==> data == []
    ensures r.Some? ==> IsMean(r.value.mean, data)
    ensures r.Some? ==> IsSampleVariance(r.value.variance, data, r.value.mean)
  {
    if data == [] then None
    else
      var mean := Mean(data);
      Some(LatencyStats(mean, SampleVariance(data, mean)))
  }

  /** The latency summary is the mean and variance of the full summary. */
  lemma LatencyStatsAgree(data: seq<real>, sqrt: real -> real)
    requires IsSqrt(sqrt)
    ensures CalculateLatencyStats(data).Some? <==> CalculateStats(data, sqrt).Some?
    ensures CalculateLatencyStats(data).Some? ==>
              CalculateLatencyStats(data).value.mean == CalculateStats(data, sqrt).value.mean
              && CalculateLatencyStats(data).value.variance == CalculateStats(data, sqrt).value.variance
  {
  }

  /** End-to-end durations above 170 ms are discarded. */
  const MaxEndToEndNs := 170_000_000

  /** The entry span of the reservation workflow, as a server span. */
  predicate IsRoot(s: Span) {
    s.serviceName == Some("users-service") && s.name == Some("POST /reserve") && s.kind == Some(Server)
  }

  predicate IsServer(s: Span) {
    s.kind == Some(Server)
  }

  /** The first root span of the list. */
  function FindRoot(spans: seq<Span>): (r: Option<Span>)
    ensures r.None? <==> forall s | s in spans :: !IsRoot(s)
    ensures r.Some? ==> r.value in spans && IsRoot(r.value)
  {
    if spans == [] then None
    else if IsRoot(spans[0]) then Some(spans[0])
    else
      assert forall s | s in spans :: s == spans[0] || s in spans[1..];
      FindRoot(spans[1..])
  }

  /** The root found is the first one: the span at the lowest index that is a root. */
  lemma {:induction false} FindRootFirst(spans: seq<Span>, i: int)
    requires 0 <= i < |spans| && IsRoot(spans[i])
    requires forall j | 0 <= j < i :: !IsRoot(spans[j])
    ensures FindRoot(spans) == Some(spans[i])
  {
    if i > 0 {
      assert forall j | 0 <= j < i - 1 :: spans[1..][j] == spans[j + 1];
      FindRootFirst(spans[1..], i - 1);
    }
  }

  /** `f"{service} [{operation}]"`, kept as the pair it is formatted from. */
  type ServiceKey = (string, string)

  /** The lists `analyze_all_traces` fills; durations and overheads in ns. */
  datatype Analysis = Analysis(
    endToEnd: seq<int>,
    filteredOut: nat,
    granular: map<(ServiceKey, SegmentName), seq<int>>,
    totals: map<ServiceKey, seq<int>>,
    latencies: map<(string, string), seq<int>>)

  const NoAnalysis := Analysis([], 0, map[], map[], map[])

  /** The inner `for seg in segments` loop: each duration appended under the segment's name. */
  function RecordSegments(a: Analysis, key: ServiceKey, segments: seq<Segment>): Analysis {
    if segments == [] then a
    else
      var s := segments[|segments| - 1];
      var b := RecordSegments(a, key, segments[..|segments| - 1]);
      b.(granular := Append(b.granular, (key, s.name), s.duration))
  }

  /** The client's duration minus the server's, clamped at 0. */
  function Overhead(client: Span, server: Span): (o: int)
    ensures o >= 0
    ensures o >= Duration(client) - Duration(server)
    ensures o == 0 || o == Duration(client) - Duration(server)
  {
    var o := Duration(client) - Duration(server);
    if o < 0 then 0 else o
  }

  /** The client span a server span was called from: its parent, present in the trace with kind 3. */
  function CallingClient(spans: seq<Span>, span: Span): Option<Span> {
    if HasParent(span) then
      match Lookup(spans, span.parentSpanId.value)
      case Some(c) => if c.kind == Some(Client) then Some(c) else None
      case None => None
    else None
  }

  /** `f"{service} [{operation}]"` of a span. */
  function KeyOf(span: Span): ServiceKey {
    (span.serviceName.GetOr("unknown"), span.name.GetOr("unknown"))
  }

  /** The segment durations of one server span and their total. */
  function RecordTimes(a: Analysis, key: ServiceKey, segments: seq<Segment>): Analysis {
    var b := RecordSegments(a, key, segments);
    b.(totals := Append(b.totals, key, SegmentTime(segments)))
  }

  /** The network overhead of one server span, when it was called by a client span of the trace. */
  function RecordOverhead(a: Analysis, spans: seq<Span>, span: Span): Analysis {
    match CallingClient(spans, span)
    case None => a
    case Some(client) =>
      var latencyKey := (client.serviceName.GetOr("unknown"), span.serviceName.GetOr("unknown"));
      a.(latencies := Append(a.latencies, latencyKey, Overhead(client, span)))
  }

  /** The body of the loop over one trace's server spans. */
  function RecordServer(a: Analysis, spans: seq<Span>, span: Span): Analysis {
    RecordOverhead(RecordTimes(a, KeyOf(span), Segments(span, ChildrenOf(spans, span.spanId))), spans, span)
  }

  function RecordServers(a: Analysis, spans: seq<Span>, servers: seq<Span>): Analysis {
    if servers == [] then a
    else RecordServer(RecordServers(a, spans, servers[..|servers| - 1]), spans, servers[|servers| - 1])
  }

  /** One iteration of the loop over traces, on the trace's raw span list. */
  function AnalyzeTrace(a: Analysis, raw: seq<Span>): Analysis {
    var spans := ById(raw);
    match FindRoot(spans)
    case None => a
    case Some(root) =>
      if Duration(root) > MaxEndToEndNs then a.(filteredOut := a.filteredOut + 1)
      else RecordServers(a.(endToEnd := a.endToEnd + [Duration(root)]), spans, Filter(spans, IsServer))
  }

  function AnalyzeAll(traces: seq<seq<Span>>): Analysis {
    if traces == [] then NoAnalysis
    else AnalyzeTrace(AnalyzeAll(traces[..|traces| - 1]), traces[|traces| - 1])
  }

  /** The search for the root, stopping at the first match. */
  method FindRootSpan(spans: seq<Span>) returns (root: Option<Span>)
    ensures root == FindRoot(spans)
  {
    root := None;
    var i := 0;
    while i < |spans|
      invariant 0 <= i <= |spans|
      invariant FindRoot(spans) == FindRoot(spans[i..])
    {
      if IsRoot(spans[i]) {
        root := Some(spans[i]);
        return;
      }
      assert spans[i..][1..] == spans[i + 1..];
      i := i + 1;
    }
  }

  /** The `for seg in segments` loop, which also adds up `total_net_time`. */
  method RecordSegmentTimes(a: Analysis, key: ServiceKey, segments: seq<Segment>) returns (b: Analysis, total: int)
    ensures b == RecordSegments(a, key, segments)
    ensures total == SegmentTime(segments)
  {
    b := a;
    total := 0;
    for i := 0 to |segments|
      invariant b == RecordSegments(a, key, segments[..i])
      invariant total == SegmentTime(segments[..i])
    {
      assert segments[..i + 1][..i] == segments[..i];
      b := b.(granular := Append(b.granular, (key, segments[i].name), segments[i].duration));
      total := total + segments[i].duration;
    }
    assert segments[..|segments|] == segments;
  }

  /** One iteration of the loop over the server spans. */
  method RecordServerSpan(a: Analysis, spans: seq<Span>, span: Span) returns (b: Analysis)
    ensures b == RecordServer(a, spans, span)
  {
    var key := (span.serviceName.GetOr("unknown"), span.name.GetOr("unknown"));
    var segments := ExtractExecutionSegments(span, ChildrenOf(spans, span.spanId));
    var total;
    b, total := RecordSegmentTimes(a, key, segments);
    b := b.(totals := Append(b.totals, key, total));
    if HasParent(span) {
      var parent := Lookup(spans, span.parentSpanId.value);
      if parent.Some? && parent.value.kind == Some(Client) {
        var client := parent.value;
        var latencyKey := (client.serviceName.GetOr("unknown"), span.serviceName.GetOr("unknown"));
        b := b.(latencies := Append(b.latencies, latencyKey, Overhead(client, span)));
      }
    }
  }

  method RecordServerSpans(a: Analysis, spans: seq<Span>, servers: seq<Span>) returns (b: Analysis)
    ensures b == RecordServers(a, spans, servers)
  {
    b := a;
    for i := 0 to |servers|
      invariant b == RecordServers(a, spans, servers[..i])
    {
      assert servers[..i + 1][..i] == servers[..i];
      assert RecordServers(a, spans, servers[..i + 1]) == RecordServer(RecordServers(a, spans, servers[..i]), spans, servers[i]);
      b := RecordServerSpan(b, spans, servers[i]);
    }
    assert servers[..|servers|] == servers;
  }

  /** One iteration of the loop over the traces. */
  method AnalyzeOneTrace(a: Analysis, raw: seq<Span>) returns (b: Analysis)
    ensures b == AnalyzeTrace(a, raw)
  {
    b := a;
    var spans := ById(raw);
    var root := FindRootSpan(spans);
    if root.Some? {
      var total := Duration(root.value);
      if total > MaxEndToEndNs {
        b := b.(filteredOut := b.filteredOut + 1);
      } else {
        b := b.(endToEnd := b.endToEnd + [total]);
        b := RecordServerSpans(b, spans, Filter(spans, IsServer));
      }
    }
  }

  /** The loop of `analyze_all_traces` over the traces, up to the statistics. */
  method AnalyzeAllTraces(traces: seq<seq<Span>>) returns (a: Analysis)
    ensures a == AnalyzeAll(traces)
  {
    a := NoAnalysis;
    for t := 0 to |traces|
      invariant a == AnalyzeAll(traces[..t])
    {
      assert traces[..t + 1][..t] == traces[..t];
      a := AnalyzeOneTrace(a, traces[t]);
    }
    assert traces[..|traces|] == traces;
  }

  lemma {:induction false} RecordSegmentsKeepsCounts(a: Analysis, key: ServiceKey, segments: seq<Segment>)
    ensures RecordSegments(a, key, segments).endToEnd == a.endToEnd
    ensures RecordSegments(a, key, segments).filteredOut == a.filteredOut
    ensures RecordSegments(a, key, segments).latencies == a.latencies
  {
    if segments != [] {
      RecordSegmentsKeepsCounts(a, key, segments[..|segments| - 1]);
    }
  }

  /** Recording one server span leaves the end-to-end list and the filtered count alone, and adds to the overheads only its own. */
  lemma RecordServerKeepsCounts(a: Analysis, spans: seq<Span>, span: Span)
    ensures RecordServer(a, spans, span).endToEnd == a.endToEnd
    ensures RecordServer(a, spans, span).filteredOut == a.filteredOut
    ensures RecordServer(a, spans, span).latencies == RecordOverhead(a, spans, span).latencies
  {
    var segments := Segments(span, ChildrenOf(spans, span.spanId));
    RecordSegmentsKeepsCounts(a, KeyOf(span), segments);
  }

  /** Recording server spans leaves the end-to-end list and the filtered count alone. */
  lemma {:induction false} RecordServersKeepsCounts(a: Analysis, spans: seq<Span>, servers: seq<Span>)
    ensures RecordServers(a, spans, servers).endToEnd == a.endToEnd
    ensures RecordServers(a, spans, servers).filteredOut == a.filteredOut
  {
    if servers != [] {
      var init := servers[..|servers| - 1];
      RecordServersKeepsCounts(a, spans, init);
      RecordServerKeepsCounts(RecordServers(a, spans, init), spans, servers[|servers| - 1]);
    }
  }

  predicate HasRoot(raw: seq<Span>) {
    FindRoot(ById(raw)).Some?
  }

  function CountWithRoot(traces: seq<seq<Span>>): nat {
    if traces == [] then 0
    else CountWithRoot(traces[..|traces| - 1]) + (if HasRoot(traces[|traces| - 1]) then 1 else 0)
  }

  /** `trace_count + filtered_out_traces` is the number of traces with a root. */
  lemma {:induction false} CountsAddUp(traces: seq<seq<Span>>)
    ensures |AnalyzeAll(traces).endToEnd| + AnalyzeAll(traces).filteredOut == CountWithRoot(traces)
  {
    if traces != [] {
      var init, raw := traces[..|traces| - 1], traces[|traces| - 1];
      CountsAddUp(init);
      TraceStep(AnalyzeAll(init), raw);
    }
  }

  /**
   * One trace: without a users-service `POST /reserve` server span it contributes nothing;
   * with a root longer than 170 ms it only bumps the filtered count; otherwise it appends the
   * root's duration and leaves the filtered count alone.
   */
  lemma TraceStep(a: Analysis, raw: seq<Span>)
    ensures !HasRoot(raw) ==> AnalyzeTrace(a, raw) == a
    ensures HasRoot(raw) && Duration(FindRoot(ById(raw)).value) > MaxEndToEndNs
            ==> AnalyzeTrace(a, raw) == a.(filteredOut := a.filteredOut + 1)
    ensures HasRoot(raw) && Duration(FindRoot(ById(raw)).value) <= MaxEndToEndNs
            ==> AnalyzeTrace(a, raw).endToEnd == a.endToEnd + [Duration(FindRoot(ById(raw)).value)]
                && AnalyzeTrace(a, raw).filteredOut == a.filteredOut
  {
    var spans := ById(raw);
    if HasRoot(raw) && Duration(FindRoot(spans).value) <= MaxEndToEndNs {
      var root := FindRoot(spans).value;
      RecordServersKeepsCounts(a.(endToEnd := a.endToEnd + [Duration(root)]), spans, Filter(spans, IsServer));
    }
  }

  /** Every end-to-end duration kept is within the cut-off. */
  lemma {:induction false} EndToEndWithinCutoff(traces: seq<seq<Span>>)
    ensures forall d | d in AnalyzeAll(traces).endToEnd :: d <= MaxEndToEndNs
  {
    if traces != [] {
      var init, raw := traces[..|traces| - 1], traces[|traces| - 1];
      EndToEndWithinCutoff(init);
      var a := AnalyzeAll(init);
      TraceStep(a, raw);
      assert AnalyzeAll(traces) == AnalyzeTrace(a, raw);
      if HasRoot(raw) && Duration(FindRoot(ById(raw)).value) <= MaxEndToEndNs {
        assert AnalyzeAll(traces).endToEnd == a.endToEnd + [Duration(FindRoot(ById(raw)).value)];
      } else {
        assert AnalyzeAll(traces).endToEnd == a.endToEnd;
      }
    }
  }

  predicate NonNegativeValues(m: map<(string, string), seq<int>>) {
    forall k | k in m :: forall v | v in m[k] :: v >= 0
  }

  predicate NonNegativeLatencies(a: Analysis) {
    NonNegativeValues(a.latencies)
  }

  lemma AppendNonNegative(m: map<(string, string), seq<int>>, key: (string, string), v: int)
    requires NonNegativeValues(m) && v >= 0
    ensures NonNegativeValues(Append(m, key, v))
  {
    var r := Append(m, key, v);
    forall k | k in r
      ensures forall x | x in r[k] :: x >= 0
    {
      if k != key {
        assert r[k] == m[k];
      }
    }
  }

  lemma RecordServerNonNegative(a: Analysis, spans: seq<Span>, span: Span)
    requires NonNegativeLatencies(a)
    ensures NonNegativeLatencies(RecordServer(a, spans, span))
  {
    RecordServerKeepsCounts(a, spans, span);
    match CallingClient(spans, span)
    case None =>
    case Some(client) =>
      AppendNonNegative(a.latencies, (client.serviceName.GetOr("unknown"), span.serviceName.GetOr("unknown")),
                        Overhead(client, span));
  }

  lemma {:induction false} RecordServersNonNegative(a: Analysis, spans: seq<Span>, servers: seq<Span>)
    requires NonNegativeLatencies(a)
    ensures NonNegativeLatencies(RecordServers(a, spans, servers))
  {
    if servers != [] {
      var init := servers[..|servers| - 1];
      RecordServersNonNegative(a, spans, init);
      RecordServerNonNegative(RecordServers(a, spans, init), spans, servers[|servers| - 1]);
    }
  }

  /** Every recorded network overhead is non-negative. */
  lemma {:induction false} OverheadsNonNegative(traces: seq<seq<Span>>)
    ensures NonNegativeLatencies(AnalyzeAll(traces))
  {
    if traces != [] {
      var init, raw := traces[..|traces| - 1], traces[|traces| - 1];
      OverheadsNonNegative(init);
      var a := AnalyzeAll(init);
      var spans := ById(raw);
      match FindRoot(spans)
      case None =>
      case Some(root) =>
        if Duration(root) <= MaxEndToEndNs {
          RecordServersNonNegative(a.(endToEnd := a.endToEnd + [Duration(root)]), spans, Filter(spans, IsServer));
        }
    }
  }

  /**
   * A server span adds an overhead exactly when its parent is in the trace and is a
   * client span, and the overhead is the clamped difference of their durations.
   */
  lemma OverheadOnlyFromClientParent(a: Analysis, spans: seq<Span>, span: Span)
    ensures RecordServer(a, spans, span).latencies
              == if HasParent(span) && Lookup(spans, span.parentSpanId.value).Some?
                    && Lookup(spans, span.parentSpanId.value).value.kind == Some(Client)
                 then
                   var client := Lookup(spans, span.parentSpanId.value).value;
                   Append(a.latencies, (client.serviceName.GetOr("unknown"), span.serviceName.GetOr("unknown")),
                          Overhead(client, span))
                 else a.latencies
  {
    RecordServerKeepsCounts(a, spans, span);
  }

  // ---------------------------------------------------------------------------
  // The statistics after the loop (lines 252-284)
  // ---------------------------------------------------------------------------

  /** `d / 1e6` for every duration: the milliseconds the source stores in its lists. */
  function Milliseconds(ns: seq<int>): (ms: seq<real>)
    ensures |ms| == |ns|
    ensures forall i | 0 <= i < |ns| :: ms[i] * 1_000_000.0 == ns[i] as real
  {
    seq(|ns|, i requires 0 <= i < |ns| => ns[i] as real / 1_000_000.0)
  }

  /** A `calculate_stats` dict, with the `distribution` key when one was attached. */
  datatype FittedStats = FittedStats(stats: SampleStats, distribution: Option<DistributionFitting.FittedLaw>)

  /**
   * The summary of one list of times: `calculate_stats`, then `fit_distribution` when the
   * mean and the cv are positive, whose exception would leave the law off.
   */
  function SummariseTimes(times: seq<int>, sqrt: real -> real): (r: Option<FittedStats>)
    requires IsSqrt(sqrt)
    ensures r.None? <==> times == []
    ensures r.Some? ==> Some(r.value.stats) == CalculateStats(Milliseconds(times), sqrt)
    ensures r.Some? && r.value.distribution.Some? ==> r.value.stats.mean > 0.0 && r.value.stats.cv > 0.0
  {
    match CalculateStats(Milliseconds(times), sqrt)
    case None => None
    case Some(st) =>
      if st.mean > 0.0 && st.cv > 0.0 then
        match DistributionFitting.FitDistribution(st.mean, st.cv, sqrt)
        case Ok(law) => Some(FittedStats(st, Some(law)))
        case Err(_) => Some(FittedStats(st, None))
      else Some(FittedStats(st, None))
  }

  /**
   * The `except Exception: pass` never fires: every summary with a positive mean and a
   * positive cv gets the law `fit_distribution` computes for them.
   */
  lemma FitNeverSwallowed(times: seq<int>, sqrt: real -> real)
    requires IsSqrt(sqrt) && times != []
    ensures var r := SummariseTimes(times, sqrt).value;
            && (r.distribution.Some? <==> r.stats.mean > 0.0 && r.stats.cv > 0.0)
            && (r.distribution.Some? ==> DistributionFitting.FitDistribution(r.stats.mean, r.stats.cv, sqrt) == Ok(r.distribution.value))
  {
    var st := CalculateStats(Milliseconds(times), sqrt).value;
    if st.mean > 0.0 && st.cv > 0.0 {
      DistributionFitting.FitDistributionTotal(st.mean, st.cv, sqrt);
    }
  }

  /** The output dict, without its file and console side. */
  datatype Report = Report(
    traceCount: nat,
    filteredOutTraces: nat,
    endToEnd: Option<SampleStats>,
    totals: map<ServiceKey, Option<FittedStats>>,
    granular: map<(ServiceKey, SegmentName), Option<FittedStats>>,
    latencies: map<(string, string), Option<LatencyStats>>)

  /** What `analyze_all_traces` computes from the lists its loop filled. */
  function ReportOf(a: Analysis, sqrt: real -> real): (r: Report)
    requires IsSqrt(sqrt)
    ensures r.traceCount == |a.endToEnd| && r.filteredOutTraces == a.filteredOut
    ensures r.endToEnd.None? <==> a.endToEnd == []
    ensures r.totals.Keys == a.totals.Keys && r.granular.Keys == a.granular.Keys
    ensures r.latencies.Keys == a.latencies.Keys
    ensures r.endToEnd == CalculateStats(Milliseconds(a.endToEnd), sqrt)
    ensures forall key | key in r.totals :: r.totals[key] == SummariseTimes(a.totals[key], sqrt)
    ensures forall key | key in r.granular :: r.granular[key] == SummariseTimes(a.granular[key], sqrt)
    ensures forall key | key in r.latencies :: r.latencies[key] == CalculateLatencyStats(Milliseconds(a.latencies[key]))
  {
    Report(
      |a.endToEnd|,
      a.filteredOut,
      CalculateStats(Milliseconds(a.endToEnd), sqrt),
      map key | key in a.totals :: SummariseTimes(a.totals[key], sqrt),
      map key | key in a.granular :: SummariseTimes(a.granular[key], sqrt),
      map key | key in a.latencies :: CalculateLatencyStats(Milliseconds(a.latencies[key])))
  }

  /**
   * The end-to-end summary of the report stays within the 170 ms cutoff: its mean and
   * maximum are at most 170 ms.
   */
  lemma ReportWithinCutoff(traces: seq<seq<Span>>, sqrt: real -> real)
    requires IsSqrt(sqrt)
    ensures var r := ReportOf(AnalyzeAll(traces), sqrt);
            r.endToEnd.Some? ==> r.endToEnd.value.min <= r.endToEnd.value.mean <= r.endToEnd.value.max <= 170.0
  {
    var a := AnalyzeAll(traces);
    if a.endToEnd != [] {
      EndToEndWithinCutoff(traces);
      var ms := Milliseconds(a.endToEnd);
      SampleStatsRange(ms, sqrt);
      var st := CalculateStats(ms, sqrt).value;
      var i :| 0 <= i < |ms| && ms[i] == st.max;
      assert a.endToEnd[i] in a.endToEnd;
      assert ms[i] * 1_000_000.0 <= 170_000_000.0;
    }
  }
}
