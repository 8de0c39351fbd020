/**
 * The trace helpers that data/main.py, analize_traces/functions.py and
 * extract_traces/functions.py share: the table of spans per trace built while reading,
 * the reservation-workflow filter, the per-operation duration statistics, and the
 * root, offset and indentation rules of the trace listing. A trace is a dict from
 * `spanId` to span, held as the sequence of its values (see `Spans.UniqueIds`).
 */
module WorkflowTraces {
  import opened Wrappers
  import opened RealMath
  import opened Statistics
  import opened Spans

  /** Both scripts with a size check keep only traces of exactly this many spans. */
  const WorkflowTraceLength := 17

  predicate LengthMatches(spans: seq<Span>, requiredLength: Option<nat>) {
    requiredLength.None? || |spans| == requiredLength.value
  }

  /** A trace belongs to the workflow: right size, and a users-service `POST /reserve` span. */
  predicate InWorkflow(spans: seq<Span>, requiredLength: Option<nat>) {
    LengthMatches(spans, requiredLength) && exists s | s in spans :: IsReserveEntry(s)
  }

  /** The dict `filter_traces_for_workflow` returns. */
  function WorkflowTraces(traces: map<string, seq<Span>>, requiredLength: Option<nat>): (r: map<string, seq<Span>>)
    ensures r.Keys <= traces.Keys
    ensures forall id :: id in r <==> id in traces && InWorkflow(traces[id], requiredLength)
    ensures forall id | id in r :: r[id] == traces[id]
  {
    map id | id in traces && InWorkflow(traces[id], requiredLength) :: traces[id]
  }

  /**
   * `filter_traces_for_workflow`: collects the ids of matching traces in a set, then
   * builds the dict of those traces. `requiredLength` is `Some(17)` in data/main.py and
   * analize_traces/functions.py, and `None` in extract_traces/functions.py.
   */
  method FilterTracesForWorkflow(traces: map<string, seq<Span>>, requiredLength: Option<nat>)
    returns (filtered: map<string, seq<Span>>)
    ensures filtered == WorkflowTraces(traces, requiredLength)
  {
    var targetTraceIds: set<string> := {};
    var pending := traces.Keys;
    while pending != {}
      invariant pending <= traces.Keys
      invariant forall id :: id in targetTraceIds <==>
                  id in traces && id !in pending && InWorkflow(traces[id], requiredLength)
      decreases pending
    {
      var id :| id in pending;
      var spans := traces[id];
      for j := 0 to |spans|
        invariant forall x :: x in targetTraceIds <==>
                    (x in traces && x !in pending && InWorkflow(traces[x], requiredLength))
                    || (x == id && LengthMatches(spans, requiredLength)
                        && exists k | 0 <= k < j :: IsReserveEntry(spans[k]))
      {
        if IsReserveEntry(spans[j]) && LengthMatches(spans, requiredLength) {
          targetTraceIds := targetTraceIds + {id};
        }
      }
      pending := pending - {id};
    }
    filtered := map id | id in targetTraceIds :: traces[id];
  }

  /** Filtering twice is filtering once. */
  lemma FilterIdempotent(traces: map<string, seq<Span>>, requiredLength: Option<nat>)
    ensures WorkflowTraces(WorkflowTraces(traces, requiredLength), requiredLength) == WorkflowTraces(traces, requiredLength)
  {
  }

  /** The size check only removes traces: the 17-span filter keeps a subset of the unsized one. */
  lemma SizedFilterWithinUnsized(traces: map<string, seq<Span>>)
    ensures WorkflowTraces(traces, Some(WorkflowTraceLength)).Keys <= WorkflowTraces(traces, None).Keys
    ensures WorkflowTraces(traces, Some(WorkflowTraceLength))
            == WorkflowTraces(WorkflowTraces(traces, None), Some(WorkflowTraceLength))
  {
  }

  /** `(span.get('serviceName', 'unknown-service'), span.get('name', 'unknown-operation'))`. */
  function OperationKey(s: Span): (string, string) {
    (s.serviceName.GetOr("unknown-service"), s.name.GetOr("unknown-operation"))
  }

  /** The spans of every trace, trace after trace. */
  function AllSpans(traces: seq<seq<Span>>): seq<Span> {
    if traces == [] then [] else AllSpans(traces[..|traces| - 1]) + traces[|traces| - 1]
  }

  /** `operation_durations` after scanning `spans`: one append per span. */
  function Group(spans: seq<Span>): (r: map<(string, string), seq<int>>)
    ensures forall key | key in r :: r[key] != []
  {
    if spans == [] then map[]
    else
      var s := spans[|spans| - 1];
      Append(Group(spans[..|spans| - 1]), OperationKey(s), Duration(s))
  }

  /** Reference definition of one bucket: the durations of the spans with that key, in scan order. */
  function Bucket(spans: seq<Span>, key: (string, string)): seq<int> {
    if spans == [] then []
    else
      var s := spans[|spans| - 1];
      Bucket(spans[..|spans| - 1], key) + (if OperationKey(s) == key then [Duration(s)] else [])
  }

  /** The buckets are exactly the keys of the spans scanned. */
  lemma {:induction false} GroupKeys(spans: seq<Span>)
    ensures forall key :: key in Group(spans) <==> exists s | s in spans :: OperationKey(s) == key
  {
    if spans != [] {
      var init, s := spans[..|spans| - 1], spans[|spans| - 1];
      GroupKeys(init);
      assert spans == init + [s];
      forall key
        ensures key in Group(spans) <==> exists x | x in spans :: OperationKey(x) == key
      {
        if key in Group(init) {
          var x :| x in init && OperationKey(x) == key;
          assert x in spans;
        }
      }
    }
  }

  /** Each span lands in exactly its own bucket, in scan order. */
  lemma {:induction false} GroupIsBuckets(spans: seq<Span>)
    ensures forall key | key in Group(spans) :: Group(spans)[key] == Bucket(spans, key)
  {
    if spans != [] {
      var init := spans[..|spans| - 1];
      GroupIsBuckets(init);
      GroupKeys(init);
      forall key | key in Group(spans) && key !in Group(init)
        ensures Bucket(init, key) == []
      {
        BucketOfUnseenKey(init, key);
      }
    }
  }

  /** The bucket of a key never seen is empty, so its statistics are never computed. */
  lemma {:induction false} BucketOfUnseenKey(spans: seq<Span>, key: (string, string))
    requires forall s | s in spans :: OperationKey(s) != key
    ensures Bucket(spans, key) == []
  {
    if spans != [] {
      BucketOfUnseenKey(spans[..|spans| - 1], key);
    }
  }

  /** The seven-slot list `collect_statisctics` stores per (service, operation). */
  datatype OperationStats = OperationStats(
    last: int,        // slot 0: the `duration` variable left over from the scan
    min: int,
    max: int,
    mean: real,
    variance: real,   // NumPy `var`, divisor n
    stdDev: real,
    cv: real)

  /** Python's `min` on a non-empty list of ints. */
  function MinOf(s: seq<int>): (m: int)
    requires |s| > 0
    ensures m in s && forall i | 0 <= i < |s| :: m <= s[i]
  {
    if |s| == 1 then s[0]
    else
      var m := MinOf(s[..|s| - 1]);
      assert forall i | 0 <= i < |s| - 1 :: s[..|s| - 1][i] == s[i];
      if s[|s| - 1] < m then s[|s| - 1] else m
  }

  /** Python's `max` on a non-empty list of ints. */
  function MaxOf(s: seq<int>): (m: int)
    requires |s| > 0
    ensures m in s && forall i | 0 <= i < |s| :: s[i] <= m
  {
    if |s| == 1 then s[0]
    else
      var m := MaxOf(s[..|s| - 1]);
      assert forall i | 0 <= i < |s| - 1 :: s[..|s| - 1][i] == s[i];
      if s[|s| - 1] > m then s[|s| - 1] else m
  }

  /** The statistics of one non-empty bucket, with the stale `duration` in slot 0. */
  function Summary(durations: seq<int>, last: int, sqrt: real -> real): (r: OperationStats)
    requires |durations| > 0 && IsSqrt(sqrt)
    ensures r.last == last
    ensures r.min in durations && r.max in durations
    ensures forall i | 0 <= i < |durations| :: r.min <= durations[i] <= r.max
    ensures r.min as real <= r.mean <= r.max as real
    ensures 0.0 <= r.variance && IsStdDev(r.stdDev, r.variance)
    ensures r.mean <= 0.0 ==> r.cv == 0.0
    ensures r.mean > 0.0 ==> r.cv == r.stdDev / r.mean
  {
    var xs := Reals(durations);
    var lo, hi := MinOf(durations), MaxOf(durations);
    DurationsMeanBetween(durations);
    var mean := Mean(xs);
    var variance := PopulationVariance(xs);
    var stdDev := Root(variance, sqrt);
    var cv := PositiveMeanCv(stdDev, mean);
    OperationStats(last, lo, hi, mean, variance, stdDev, cv)
  }

  /** `std / mean if mean > 0 else 0`. */
  function PositiveMeanCv(stdDev: real, mean: real): (cv: real)
    ensures mean <= 0.0 ==> cv == 0.0
    ensures mean > 0.0 ==> cv * mean == stdDev
    ensures mean > 0.0 ==> cv == stdDev / mean
  {
    if mean > 0.0 then stdDev / mean else 0.0
  }

  lemma DurationsMeanBetween(durations: seq<int>)
    requires |durations| > 0
    ensures MinOf(durations) as real <= Mean(Reals(durations)) <= MaxOf(durations) as real
  {
    MeanBetween(Reals(durations), MinOf(durations) as real, MaxOf(durations) as real);
  }

  /** The duration of the last span scanned, which every slot 0 repeats; 0 when nothing was scanned. */
  function LastDuration(spans: seq<Span>): int {
    if spans == [] then 0 else Duration(spans[|spans| - 1])
  }

  function StatisticsOf(buckets: map<(string, string), seq<int>>, last: int, sqrt: real -> real): map<(string, string), OperationStats>
    requires IsSqrt(sqrt)
    requires forall key | key in buckets :: buckets[key] != []
  {
    map key | key in buckets :: Summary(buckets[key], last, sqrt)
  }

  /** One more span scanned: one more append, and it becomes the last duration. */
  lemma GroupSnoc(spans: seq<Span>, s: Span)
    ensures Group(spans + [s]) == Append(Group(spans), OperationKey(s), Duration(s))
    ensures LastDuration(spans + [s]) == Duration(s)
  {
    assert (spans + [s])[..|spans|] == spans;
  }

  /** The inner loop of the scan, over the spans of one trace. */
  method GroupTraceDurations(buckets: map<(string, string), seq<int>>, last: int, ghost before: seq<Span>, spans: seq<Span>)
    returns (operationDurations: map<(string, string), seq<int>>, duration: int)
    requires buckets == Group(before) && last == LastDuration(before)
    ensures operationDurations == Group(before + spans)
    ensures duration == LastDuration(before + spans)
  {
    operationDurations, duration := buckets, last;
    ghost var scanned := before;
    for j := 0 to |spans|
      invariant scanned == before + spans[..j]
      invariant operationDurations == Group(scanned) && duration == LastDuration(scanned)
    {
      operationDurations, duration := ScanSpan(operationDurations, scanned, spans[j]);
      PrefixSnoc(before, spans, j);
      scanned := scanned + [spans[j]];
    }
    assert spans[..|spans|] == spans;
  }

  /** One round of that loop: the span's duration, appended to its key's bucket. */
  method ScanSpan(buckets: map<(string, string), seq<int>>, ghost scanned: seq<Span>, span: Span)
    returns (operationDurations: map<(string, string), seq<int>>, duration: int)
    requires buckets == Group(scanned)
    ensures operationDurations == Group(scanned + [span]) && duration == LastDuration(scanned + [span])
  {
    GroupSnoc(scanned, span);
    duration := span.end - span.start;
    operationDurations := Append(buckets, OperationKey(span), duration);
  }

  lemma PrefixSnoc(before: seq<Span>, spans: seq<Span>, j: nat)
    requires j < |spans|
    ensures (before + spans[..j]) + [spans[j]] == before + spans[..j + 1]
  {
    assert spans[..j + 1] == spans[..j] + [spans[j]];
  }

  /** The scan of `collect_statisctics`: buckets per key, and the last duration computed. */
  method GroupDurations(traces: seq<seq<Span>>)
    returns (operationDurations: map<(string, string), seq<int>>, duration: int)
    ensures operationDurations == Group(AllSpans(traces))
    ensures duration == LastDuration(AllSpans(traces))
  {
    operationDurations := map[];
    duration := 0;
    for t := 0 to |traces|
      invariant operationDurations == Group(AllSpans(traces[..t]))
      invariant duration == LastDuration(AllSpans(traces[..t]))
    {
      assert traces[..t + 1][..t] == traces[..t];
      assert AllSpans(traces[..t + 1]) == AllSpans(traces[..t]) + traces[t];
      operationDurations, duration := GroupTraceDurations(operationDurations, duration, AllSpans(traces[..t]), traces[t]);
    }
    assert traces[..|traces|] == traces;
  }

  /**
   * `collect_statisctics` over the traces' span dicts in iteration order: one bucket per
   * (service, operation) holding the durations of its spans, summarised; slot 0 of every
   * entry is the duration of the very last span scanned.
   */
  method CollectStatistics(traces: seq<seq<Span>>, sqrt: real -> real)
    returns (statistics: map<(string, string), OperationStats>)
    requires IsSqrt(sqrt)
    ensures statistics == StatisticsOf(Group(AllSpans(traces)), LastDuration(AllSpans(traces)), sqrt)
  {
    var operationDurations, duration := GroupDurations(traces);
    statistics := SummariseBuckets(operationDurations, duration, sqrt);
  }

  /** The second loop of `collect_statisctics`: one summary per bucket. */
  method SummariseBuckets(buckets: map<(string, string), seq<int>>, last: int, sqrt: real -> real)
    returns (statistics: map<(string, string), OperationStats>)
    requires IsSqrt(sqrt)
    requires forall key | key in buckets :: buckets[key] != []
    ensures statistics == StatisticsOf(buckets, last, sqrt)
  {
    statistics := map[];
    var pending := buckets.Keys;
    while pending != {}
      invariant pending <= buckets.Keys
      invariant statistics.Keys == buckets.Keys - pending
      invariant forall key | key in statistics :: statistics[key] == Summary(buckets[key], last, sqrt)
      decreases pending
    {
      var key :| key in pending;
      statistics := statistics[key := Summary(buckets[key], last, sqrt)];
      pending := pending - {key};
    }
    assert statistics.Keys == StatisticsOf(buckets, last, sqrt).Keys;
  }

  /**
   * What `collect_statisctics` returns: an entry for exactly the keys of the spans scanned;
   * each entry's min and max are durations of that key's spans, with min <= max, and slot 0
   * is the duration of the last span scanned over all traces, whatever the key.
   */
  lemma StatisticsPerOperation(traces: seq<seq<Span>>, sqrt: real -> real)
    requires IsSqrt(sqrt)
    ensures var spans := AllSpans(traces);
            var st := StatisticsOf(Group(spans), LastDuration(spans), sqrt);
            && (forall key :: key in st <==> exists s | s in spans :: OperationKey(s) == key)
            && (forall key | key in st ::
                  && st[key].min in Bucket(spans, key) && st[key].max in Bucket(spans, key)
                  && st[key].min <= st[key].max
                  && st[key].last == Duration(spans[|spans| - 1]))
  {
    var spans := AllSpans(traces);
    GroupKeys(spans);
    var st := StatisticsOf(Group(spans), LastDuration(spans), sqrt);
    forall key | key in st
      ensures spans != []
      ensures st[key].min in Bucket(spans, key) && st[key].max in Bucket(spans, key)
      ensures st[key].min <= st[key].max
      ensures st[key].last == LastDuration(spans)
    {
      EntryOfKey(spans, key, sqrt);
    }
  }

  /** The entry of one key: min and max come from that key's bucket. */
  lemma EntryOfKey(spans: seq<Span>, key: (string, string), sqrt: real -> real)
    requires IsSqrt(sqrt) && key in Group(spans)
    ensures spans != []
    ensures var e := Summary(Group(spans)[key], LastDuration(spans), sqrt);
            && e.min in Bucket(spans, key) && e.max in Bucket(spans, key)
            && e.min <= e.max && e.last == LastDuration(spans)
  {
    GroupIsBuckets(spans);
    var b := Group(spans)[key];
    var e := Summary(b, LastDuration(spans), sqrt);
    assert e.min <= b[0] <= e.max;
  }

  /** `'parentSpanId' not in span`. */
  predicate IsTopLevel(s: Span) {
    s.parentSpanId.None?
  }

  /** The first top-level span, in list order. */
  function FirstTopLevel(spans: seq<Span>): (r: Option<Span>)
    ensures r.None? <==> forall s | s in spans :: !IsTopLevel(s)
    ensures r.Some? ==> r.value in spans && IsTopLevel(r.value)
    ensures r.Some? ==> exists i | 0 <= i < |spans| :: spans[i] == r.value && forall j | 0 <= j < i :: !IsTopLevel(spans[j])
  {
    if spans == [] then None
    else if IsTopLevel(spans[0]) then Some(spans[0])
    else
      var r := FirstTopLevel(spans[1..]);
      assert forall s | s in spans :: s == spans[0] || s in spans[1..];
      if r.Some? then
        var i :| 0 <= i < |spans[1..]| && spans[1..][i] == r.value && forall j | 0 <= j < i :: !IsTopLevel(spans[1..][j]);
        assert spans[i + 1] == r.value;
        r
      else r
  }

  /**
   * `next((s for s in spans if 'parentSpanId' not in s), spans[0])` on the spans sorted by
   * start. None stands for the IndexError an empty trace raises.
   */
  function RootSpan(sorted: seq<Span>): (r: Option<Span>)
    ensures r.None? <==> sorted == []
    ensures r.Some? ==> r.value in sorted
  {
    if sorted == [] then None
    else match FirstTopLevel(sorted)
      case Some(s) => Some(s)
      case None => Some(sorted[0])
  }

  /** `"  "` when the span names a parent that is present in the trace. */
  function Indent(spans: seq<Span>, s: Span): string {
    if s.parentSpanId.Some? && Lookup(spans, s.parentSpanId.value).Some? then "  " else ""
  }

  /** One line of the listing: service, operation, duration and start offset in ns, indentation. */
  datatype Row = Row(service: string, operation: string, duration: int, offset: int, indent: string)

  function RowOf(sorted: seq<Span>, root: Span, s: Span, indented: bool): Row {
    Row(s.serviceName.GetOr("unknown-service"), s.name.GetOr("unknown-operation"), Duration(s),
        s.start - root.start, if indented then Indent(sorted, s) else "")
  }

  /** The lines printed for one trace, before any formatting. */
  function Listing(spans: seq<Span>, indented: bool): Option<seq<Row>> {
    var sorted := SortByStart(spans);
    match RootSpan(sorted)
    case None => None
    case Some(root) => Some(seq(|sorted|, i requires 0 <= i < |sorted| => RowOf(sorted, root, sorted[i], indented)))
  }

  /** The `next(...)` search: the first top-level span, else the first span. */
  method FindListingRoot(spans: seq<Span>) returns (root: Span)
    requires spans != []
    ensures Some(root) == RootSpan(spans)
  {
    root := spans[0];
    var i := 0;
    while i < |spans|
      invariant 0 <= i <= |spans|
      invariant FirstTopLevel(spans) == FirstTopLevel(spans[i..])
    {
      if IsTopLevel(spans[i]) {
        root := spans[i];
        return;
      }
      assert spans[i..][1..] == spans[i + 1..];
      i := i + 1;
    }
    assert spans[i..] == [];
  }

  /**
   * The body of `print_traces` for one trace, returning its lines instead of printing them.
   * `indented` is true in extract_traces/functions.py, false in analize_traces/functions.py.
   */
  method TraceListing(spansDict: seq<Span>, indented: bool) returns (rows: Option<seq<Row>>)
    ensures rows == Listing(spansDict, indented)
  {
    var spans := SortByStart(spansDict);
    if |spans| == 0 {
      return None;
    }
    var root := FindListingRoot(spans);
    var lines := ListingRows(spans, root, indented);
    rows := Some(lines);
  }

  /** The `for i, span in enumerate(spans)` loop of `print_traces`. */
  method ListingRows(spans: seq<Span>, root: Span, indented: bool) returns (lines: seq<Row>)
    ensures lines == seq(|spans|, i requires 0 <= i < |spans| => RowOf(spans, root, spans[i], indented))
  {
    lines := [];
    for j := 0 to |spans|
      invariant |lines| == j
      invariant forall k | 0 <= k < j :: lines[k] == RowOf(spans, root, spans[k], indented)
    {
      var span := spans[j];
      var indent := "";
      if indented && span.parentSpanId.Some? {
        var parentFound := Lookup(spans, span.parentSpanId.value).Some?;
        if parentFound {
          indent := "  ";
        }
      }
      lines := lines + [Row(span.serviceName.GetOr("unknown-service"), span.name.GetOr("unknown-operation"),
                            span.end - span.start, span.start - root.start, indent)];
    }
  }

  /**
   * The root is the first span in start order without a parent, or the earliest span when
   * every span has one; its own offset is 0, and in the fallback case no offset is negative.
   */
  lemma RootAndOffsets(spans: seq<Span>, indented: bool)
    requires spans != []
    ensures var sorted := SortByStart(spans);
            var root := RootSpan(sorted).value;
            && (IsTopLevel(root) || ((forall s | s in sorted :: !IsTopLevel(s)) && root == sorted[0]))
            && (forall i | 0 <= i < |sorted| && !IsTopLevel(root) :: Listing(spans, indented).value[i].offset >= 0)
            && (forall i | 0 <= i < |sorted| && sorted[i] == root :: Listing(spans, indented).value[i].offset == 0)
  {
    var sorted := SortByStart(spans);
    SortByStartSorted(spans);
    assert |sorted| > 0;
  }

  /** The offsets grow along the listing, since it is in start order. */
  lemma OffsetsNonDecreasing(spans: seq<Span>, indented: bool, i: nat, j: nat)
    requires spans != [] && i <= j < |spans|
    ensures Listing(spans, indented).value[i].offset <= Listing(spans, indented).value[j].offset
  {
    var sorted := SortByStart(spans);
    SortByStartSorted(spans);
    ListingOffset(spans, indented, i);
    ListingOffset(spans, indented, j);
    assert sorted[i].start <= sorted[j].start;
  }

  /** Line i of the listing is the i-th span in start order, offset from the root's start. */
  lemma ListingOffset(spans: seq<Span>, indented: bool, i: nat)
    requires i < |spans|
    ensures var sorted := SortByStart(spans);
            && Listing(spans, indented).Some?
            && |Listing(spans, indented).value| == |spans|
            && Listing(spans, indented).value[i].offset == sorted[i].start - RootSpan(sorted).value.start
  {
  }

  /** A line is indented exactly when its span names a parent and a span with that id is in the trace. */
  lemma IndentExactlyUnderPresentParent(spans: seq<Span>, i: nat)
    requires i < |spans|
    ensures var sorted := SortByStart(spans);
            Listing(spans, true).value[i].indent == "  " <==>
              sorted[i].parentSpanId.Some? && exists s | s in spans :: s.spanId == sorted[i].parentSpanId.value
  {
    var sorted := SortByStart(spans);
    ListingOffset(spans, true, i);
    assert Listing(spans, true).value[i].indent == Indent(sorted, sorted[i]);
    var parent := sorted[i].parentSpanId;
    if parent.Some? {
      assert forall s :: s in sorted <==> s in spans by {
        assert forall s :: s in sorted <==> s in multiset(sorted);
      }
      var hit := Lookup(sorted, parent.value);
      assert hit.Some? <==> exists s | s in sorted :: s.spanId == parent.value;
    }
  }

  /** Every trace's dict has distinct span ids and holds only spans of that trace. */
  ghost predicate WellKeyed(traces: map<string, seq<Span>>) {
    forall id | id in traces :: UniqueIds(traces[id]) && forall s | s in traces[id] :: s.traceId == id
  }

  /** `traces[trace_id][span_id]`, None when either key is missing. */
  function LookupSpan(traces: map<string, seq<Span>>, traceId: string, spanId: string): Option<Span> {
    if traceId in traces then Lookup(traces[traceId], spanId) else None
  }

  /** The table after `traces[span['traceId']][span['spanId']] = span`. */
  function TableWith(traces: map<string, seq<Span>>, span: Span): map<string, seq<Span>> {
    traces[span.traceId := Upsert(if span.traceId in traces then traces[span.traceId] else [], span)]
  }

  /** One span per (traceId, spanId): the new span replaces any earlier one with the same ids, and nothing else moves. */
  lemma TableWithLookup(traces: map<string, seq<Span>>, span: Span, traceId: string, spanId: string)
    requires WellKeyed(traces)
    ensures WellKeyed(TableWith(traces, span))
    ensures LookupSpan(TableWith(traces, span), traceId, spanId)
            == if traceId == span.traceId && spanId == span.spanId then Some(span) else LookupSpan(traces, traceId, spanId)
  {
    var d := if span.traceId in traces then traces[span.traceId] else [];
    UpsertUnique(d, span);
    UpsertMembers(d, span);
    UpsertLookup(d, span, spanId);
  }

  /** The `traces` table `extract_traces` fills while reading spans. */
  class SpanTable {
    var traces: map<string, seq<Span>>

    ghost predicate Valid()
      reads this
    {
      WellKeyed(traces)
    }

    constructor ()
      ensures traces == map[] && Valid()
    {
      traces := map[];
    }

    /** `traces[span['traceId']][span['spanId']] = span` on the defaultdict of dicts. */
    method Add(span: Span)
      requires Valid()
      modifies this
      ensures Valid()
      ensures traces == TableWith(old(traces), span)
      ensures LookupSpan(traces, span.traceId, span.spanId) == Some(span)
    {
      var spansDict := if span.traceId in traces then traces[span.traceId] else [];
      var i := IndexOfId(spansDict, span.spanId);
      if i.Some? {
        spansDict := spansDict[i.value := span];
      } else {
        spansDict := spansDict + [span];
      }
      TableWithLookup(traces, span, span.traceId, span.spanId);
      traces := traces[span.traceId := spansDict];
    }
  }
}
