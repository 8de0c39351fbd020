# E2E reservation traces: verified model of the post-processing core

This project models, in Dafny, the core of an end-to-end latency study of a
car-reservation microservice system. The study collects OpenTelemetry traces of the
`POST /reserve` workflow, post-processes them in Python, and fits phase-type
distributions (hyper-exponential, hypo-exponential, generalized Erlang, Erlang) to the
measured durations by matching the mean and the coefficient of variation (cv). The
fitted laws are then handed to the Eulero library as Java `StochasticTime` objects.
The services themselves are Quarkus REST resources.

The model covers five parts of that system.

- **Trace post-processing** (`Spans`, `ExtractData`, `WorkflowTraces`, `SpanMerge`,
  `EndToEnd`, `Statistics`):
  - the workflow-trace filters;
  - merging of consecutive spans of the same service;
  - per-operation statistics;
  - end-to-end statistics and their fitted law;
  - the execution-segment extraction with its 10 µs threshold;
  - the 170 ms cutoff and network overheads.

  Each Python loop is a method proved equal to a specification function. The
  properties the scripts rely on are lemmas about those functions.
- **Moment-matching fitters** (`DistributionFitting` for `extract_data/src`,
  `ScrDistributionFitting` for `extract_data/scr`). Every error path of the source is
  a `Result` error. The lemmas prove:
  - which cv ranges each fitter accepts;
  - that the dispatcher never trips a fitter's own guard;
  - that every successful fit reproduces the target mean and variance exactly.

  The `scr` copy's `fit_hyper_exponential` has the same text as the `src` copy's, so
  `DistributionFitting.FitHyperExponential` stands for both.
- **Phase-type moments** (`PhaseType`, `FittedTimes`): the closed-form expected value
  and variance of the two Eulero classes, tied back to the fitters' output.
- **Eulero stochastic times**:
  - `GeneralizeErlang` holds a class `GeneralizeErlangTime` with its setters, `clone`,
    and the series loops of `PDF` and `CDF`.
  - `HyperExponential` models `HyperExponentialTime` as an immutable value.
- **Reservation resource** (`Reservations`):
  - the price formula;
  - `make`, including the busy-wait variant of the high-correlation copy;
  - the availability combiner and its fallback.

Real arithmetic is exact. The square root and the exponential are passed in as
functions that satisfy their defining equations (`sqrt(x) >= 0`, `sqrt(x)^2 = x`,
`exp(0) = 1`).

## Model

| member | source | states |
|---|---|---|
| Spans.Durations | E2E-analysis/analize_traces/functions.py:86-88 | one duration end - start per span, in order |
| Spans.SortByStart | E2E-analysis/data/main.py:61 | the sort by `startTimeUnixNano` returns a permutation of the spans (same multiset, same length) |
| Spans.SortByStartSorted | E2E-analysis/data/main.py:61 | the sorted list is in non-decreasing start order |
| Spans.SortByStartOfSorted | E2E-analysis/data/main.py:61 | the sort is stable: a list already in start order comes back unchanged |
| Spans.Lookup | E2E-analysis/extract_data/src/main.py:219-220 | `id in d` / `d[id]` on a span dict: a hit is a span of the dict with that id; a miss means no span has it |
| Spans.Upsert | E2E-analysis/extract_traces/functions.py:29 | `d[spanId] = span` replaces in place or appends one entry |
| Spans.UpsertMembers | E2E-analysis/extract_traces/functions.py:29 | after the upsert the dict holds the new span and otherwise only spans it held before |
| Spans.UpsertUnique | E2E-analysis/extract_traces/functions.py:29 | the upsert keeps span ids distinct |
| Spans.UpsertLookup | E2E-analysis/extract_traces/functions.py:29 | after the upsert the new id finds the new span and every other id finds what it found before |
| Spans.ById | E2E-analysis/extract_data/src/main.py:167-168 | `{span_id: span}` built from a list holds at most the list's spans |
| Spans.ByIdLastWins | E2E-analysis/extract_data/src/main.py:167-168 | the built dict has distinct ids and each id maps to the last span in the list carrying it |
| Spans.ByIdOfUnique | E2E-analysis/extract_data/src/main.py:167-168 | spans that already have distinct ids are all kept, in order |
| Spans.Filter | E2E-analysis/extract_data/src/main.py:198 | a list comprehension with a condition keeps exactly the elements satisfying it |
| Spans.Append | E2E-analysis/extract_data/src/main.py:211 | `d[k].append(v)` on a defaultdict(list): key k gains v at the end, other keys are unchanged |
| ExtractData.HasKey | E2E-analysis/extract_data/src/main.py:39-44 | `is_db_call` is true exactly when some attribute key is `db.system` |
| ExtractData.ChildrenOf | E2E-analysis/extract_data/src/main.py:170-174 | the children list of an id holds only spans of the trace whose non-empty parent id is that id |
| ExtractData.ExternalCalls | E2E-analysis/extract_data/src/main.py:58-59 | the external calls are a permutation of the non-database children |
| ExtractData.SegmentCalls | E2E-analysis/extract_data/src/main.py:61-95 | the cursor loop and final segment produce exactly the segments of the specification function `SegmentsAround` |
| ExtractData.ExtractExecutionSegments | E2E-analysis/extract_data/src/main.py:46-104 | `extract_execution_segments` returns exactly `Segments(span, children)` |
| ExtractData.DbCallIgnored | E2E-analysis/extract_data/src/main.py:56-58 | inserting a database child anywhere among the children does not change the segments |
| ExtractData.ExternalCallsInStartOrder | E2E-analysis/extract_data/src/main.py:59 | external calls are visited in non-decreasing start order |
| ExtractData.CursorNeverDecreases | E2E-analysis/extract_data/src/main.py:62-87 | visiting one more call with start <= end never moves the cursor back |
| ExtractData.CursorFromStart | E2E-analysis/extract_data/src/main.py:62-87 | starting from the span start, the cursor never falls below it |
| ExtractData.ScanSegmentsAboveThreshold | E2E-analysis/extract_data/src/main.py:73-81 | every segment emitted in the loop is a "before calling" segment of more than 10 000 ns |
| ExtractData.SegmentsAboveThreshold | E2E-analysis/extract_data/src/main.py:73-95 | every segment other than "Full Internal Execution" lasts more than 10 000 ns |
| ExtractData.FullInternalExactly | E2E-analysis/extract_data/src/main.py:97-102 | "Full Internal Execution" appears exactly when there is no external call and the span lasts at most 10 000 ns; it is then the only segment and covers the span |
| ExtractData.NoExternalCalls | E2E-analysis/extract_data/src/main.py:90-102 | with only database children the result is exactly one segment of length end - start |
| ExtractData.EmptyWithExternalCall | E2E-analysis/extract_data/src/main.py:90-102 | with an external call covering the whole span the result is empty |
| ExtractData.ScanTimeBounded | E2E-analysis/extract_data/src/main.py:62-87 | segments emitted during the scan fit between the start and the cursor, and the cursor stays below the span end |
| ExtractData.SegmentTimeWithinSpan | E2E-analysis/extract_data/src/main.py:62-95 | when every external call has start <= end <= span end, the segments add up to at most end - start |
| ExtractData.CalculateStats | E2E-analysis/extract_data/src/main.py:106-131 | None exactly for empty data; otherwise the mean, the sample variance (divisor n - 1, 0 for one value), its square root, and cv = std / mean with 0 for a zero mean |
| ExtractData.SampleStatsRange | E2E-analysis/extract_data/src/main.py:111-113 | min and max are elements bounding all the data, and min <= mean <= max |
| ExtractData.SampleVariance | E2E-analysis/extract_data/src/main.py:115-120 | non-negative; 0 for one value; (n - 1) times it is the sum of squared deviations |
| ExtractData.Cv | E2E-analysis/extract_data/src/main.py:122 | cv * mean = std for a non-zero mean, and cv = 0 for a zero mean |
| ExtractData.ConstantDataNoSpread | E2E-analysis/extract_data/src/main.py:115-122 | equal values give variance, standard deviation and cv 0 |
| ExtractData.CalculateLatencyStats | E2E-analysis/extract_data/src/main.py:133-151 | None exactly for empty data; otherwise the mean and the sample variance |
| ExtractData.LatencyStatsAgree | E2E-analysis/extract_data/src/main.py:133-151 | the latency summary exists exactly when the full summary does, with the same mean and variance |
| ExtractData.FindRoot | E2E-analysis/extract_data/src/main.py:176-184 | None exactly when no span is a users-service `POST /reserve` span of kind 2; otherwise such a span of the trace |
| ExtractData.FindRootFirst | E2E-analysis/extract_data/src/main.py:177-182 | the root found is the first one in list order |
| ExtractData.FindRootSpan | E2E-analysis/extract_data/src/main.py:176-182 | the breaking search loop returns `FindRoot` |
| ExtractData.Overhead | E2E-analysis/extract_data/src/main.py:224-228 | the overhead is client minus server duration clamped at 0: never negative, and one of 0 or the difference |
| ExtractData.RecordSegmentTimes | E2E-analysis/extract_data/src/main.py:209-212 | the segment loop appends each duration under its name and returns their total |
| ExtractData.RecordServerSpan | E2E-analysis/extract_data/src/main.py:200-234 | one server span is recorded as the specification function `RecordServer` says |
| ExtractData.RecordServerSpans | E2E-analysis/extract_data/src/main.py:198-234 | the loop over the server spans equals `RecordServers` |
| ExtractData.AnalyzeOneTrace | E2E-analysis/extract_data/src/main.py:166-234 | one trace is processed as `AnalyzeTrace` says |
| ExtractData.AnalyzeAllTraces | E2E-analysis/extract_data/src/main.py:166-234 | the loop over the traces equals `AnalyzeAll` |
| ExtractData.RecordSegmentsKeepsCounts | E2E-analysis/extract_data/src/main.py:210-211 | recording segments leaves the end-to-end list, the filtered count and the overheads alone |
| ExtractData.RecordServerKeepsCounts | E2E-analysis/extract_data/src/main.py:200-234 | recording a server span leaves the end-to-end list and filtered count alone, and adds only its own overhead |
| ExtractData.RecordServersKeepsCounts | E2E-analysis/extract_data/src/main.py:198-234 | recording all server spans leaves the end-to-end list and filtered count alone |
| ExtractData.TraceStep | E2E-analysis/extract_data/src/main.py:184-195 | a trace without root changes nothing; with a root over 170 ms it only bumps the filtered count; otherwise it appends the root duration |
| ExtractData.CountsAddUp | E2E-analysis/extract_data/src/main.py:176-195 | `trace_count` + `filtered_out_traces` equals the number of traces with a root |
| ExtractData.EndToEndWithinCutoff | E2E-analysis/extract_data/src/main.py:188-195 | every end-to-end duration kept is at most 170 ms |
| ExtractData.RecordServerNonNegative | E2E-analysis/extract_data/src/main.py:227-234 | recording a server span keeps every overhead non-negative |
| ExtractData.RecordServersNonNegative | E2E-analysis/extract_data/src/main.py:198-234 | recording all server spans keeps every overhead non-negative |
| ExtractData.OverheadsNonNegative | E2E-analysis/extract_data/src/main.py:218-234 | every recorded network overhead is non-negative |
| ExtractData.OverheadOnlyFromClientParent | E2E-analysis/extract_data/src/main.py:218-234 | an overhead is added exactly when the parent is in the trace with kind 3, keyed "client -> server", and equals the clamped difference |
| ExtractData.Milliseconds | E2E-analysis/extract_data/src/main.py:188 | each millisecond value times 1e6 is the nanosecond value |
| ExtractData.SummariseTimes | E2E-analysis/extract_data/src/main.py:257-265 | None exactly for no times; the stats are `calculate_stats` of the milliseconds; a law is attached only for positive mean and cv |
| ExtractData.FitNeverSwallowed | E2E-analysis/extract_data/src/main.py:259-264 | a law is attached exactly when mean and cv are positive, and it is `fit_distribution` of them: the `except` never fires |
| ExtractData.ReportOf | E2E-analysis/extract_data/src/main.py:252-291 | trace count = number of kept end-to-end durations; filtered count carried over; one entry per key of each collected dict; the end-to-end entry is `calculate_stats` of the durations in ms, each totals and granular entry is `SummariseTimes` of its list, each latency entry is `calculate_latency_stats` of its list in ms |
| ExtractData.ReportWithinCutoff | E2E-analysis/extract_data/src/main.py:184-195 | the reported end-to-end min <= mean <= max, and max is at most 170 ms |
| WorkflowTraces.WorkflowTraces | E2E-analysis/data/main.py:38-51 | a trace is kept exactly when it has the required size and a users-service `POST /reserve` span; kept traces are unchanged |
| WorkflowTraces.FilterTracesForWorkflow | E2E-analysis/data/main.py:38-51 | the id-collecting loop and the comprehension return `WorkflowTraces` (size 17 here and in analize_traces/functions.py:38-48; no size in extract_traces/functions.py:37-44) |
| WorkflowTraces.FilterIdempotent | E2E-analysis/extract_traces/functions.py:37-44 | filtering twice is filtering once |
| WorkflowTraces.SizedFilterWithinUnsized | E2E-analysis/analize_traces/functions.py:38-48 | the 17-span filter keeps a subset of what the unsized filter keeps, with the same values |
| WorkflowTraces.Group | E2E-analysis/data/main.py:115-125 | every bucket built is non-empty |
| WorkflowTraces.GroupKeys | E2E-analysis/analize_traces/functions.py:80-90 | the buckets are exactly the (serviceName, name) keys of the spans scanned |
| WorkflowTraces.GroupIsBuckets | E2E-analysis/analize_traces/functions.py:80-90 | each bucket holds exactly the durations of its key's spans, in scan order |
| WorkflowTraces.BucketOfUnseenKey | E2E-analysis/analize_traces/functions.py:80-90 | a key no span carries has an empty bucket |
| WorkflowTraces.MinOf | E2E-analysis/data/main.py:130 | `min` is an element and a lower bound |
| WorkflowTraces.MaxOf | E2E-analysis/data/main.py:129 | `max` is an element and an upper bound |
| WorkflowTraces.Summary | E2E-analysis/data/main.py:128-145 | min and max are bucket elements bounding it, min <= mean <= max, variance >= 0 with its root, cv 0 for mean <= 0 and std / mean otherwise, slot 0 the given last duration |
| WorkflowTraces.PositiveMeanCv | E2E-analysis/data/main.py:134-137 | cv = std / mean for a positive mean, 0 otherwise |
| WorkflowTraces.DurationsMeanBetween | E2E-analysis/data/main.py:129-131 | min <= mean <= max of a bucket |
| WorkflowTraces.GroupTraceDurations | E2E-analysis/analize_traces/functions.py:83-90 | the inner loop over one trace extends the buckets to `Group` of all spans so far, and tracks the last duration |
| WorkflowTraces.ScanSpan | E2E-analysis/analize_traces/functions.py:84-90 | one span is appended to its own bucket and becomes the last duration |
| WorkflowTraces.GroupDurations | E2E-analysis/data/main.py:115-125 | the scan builds `Group` of all spans and the last duration |
| WorkflowTraces.CollectStatistics | E2E-analysis/data/main.py:109-146 | `collect_statisctics` returns the summary of every bucket of `Group`, with the last duration in slot 0 |
| WorkflowTraces.SummariseBuckets | E2E-analysis/data/main.py:128-145 | the second loop produces one summary per bucket |
| WorkflowTraces.StatisticsPerOperation | E2E-analysis/analize_traces/functions.py:78-111 | entries exist exactly for the keys of the spans; min and max are members of the key's bucket with min <= max; slot 0 is the last span's duration over all traces |
| WorkflowTraces.EntryOfKey | E2E-analysis/analize_traces/functions.py:93-110 | the entry of one key takes min and max from that key's bucket |
| WorkflowTraces.FirstTopLevel | E2E-analysis/analize_traces/functions.py:60 | None exactly when every span has a parent; otherwise the first span without `parentSpanId` |
| WorkflowTraces.RootSpan | E2E-analysis/analize_traces/functions.py:60 | the root exists exactly for a non-empty trace and is one of its spans |
| WorkflowTraces.FindListingRoot | E2E-analysis/extract_traces/functions.py:58 | the `next(...)` search returns `RootSpan` |
| WorkflowTraces.TraceListing | E2E-analysis/extract_traces/functions.py:49-79 | the body of `print_traces` for one trace gives the rows of `Listing` |
| WorkflowTraces.ListingRows | E2E-analysis/extract_traces/functions.py:61-78 | one row per span in sorted order |
| WorkflowTraces.RootAndOffsets | E2E-analysis/analize_traces/functions.py:58-66 | the root is the first parentless span in start order, else the earliest span; its offset is 0, and in the fallback case no offset is negative |
| WorkflowTraces.OffsetsNonDecreasing | E2E-analysis/analize_traces/functions.py:58-66 | offsets grow along the listing |
| WorkflowTraces.ListingOffset | E2E-analysis/extract_traces/functions.py:58-66 | row i is the i-th span in start order, with offset its start minus the root's start |
| WorkflowTraces.IndentExactlyUnderPresentParent | E2E-analysis/extract_traces/functions.py:71-76 | a row is indented exactly when its span names a parent whose id is in the trace |
| WorkflowTraces.TableWithLookup | E2E-analysis/extract_traces/functions.py:29 | the table keeps one span per (traceId, spanId): the new span replaces an earlier one with the same ids and nothing else moves |
| WorkflowTraces.SpanTable.constructor | E2E-analysis/extract_traces/functions.py:9 | the table starts empty |
| WorkflowTraces.SpanTable.Add | E2E-analysis/extract_traces/functions.py:29 | adding a span keeps the table well keyed and makes its ids find it |
| SpanMerge.Absorb | E2E-analysis/data/main.py:72-75 | the merged span keeps every field of the current span except its end, and its duration is the sum of both durations |
| SpanMerge.MergeStep | E2E-analysis/data/main.py:69-80 | one step grows the merged list by at most one span |
| SpanMerge.Merge | E2E-analysis/data/main.py:65-82 | a non-empty trace gives between 1 and len(spans) merged spans |
| SpanMerge.MergeNext | E2E-analysis/data/main.py:69-80 | one loop iteration performs `MergeStep` on the closed spans plus the open one |
| SpanMerge.MergeConsecutive | E2E-analysis/data/main.py:65-82 | the merge loop returns `Merge` of the sorted spans |
| SpanMerge.MergedTraces | E2E-analysis/data/main.py:57-86 | the result has exactly the traces with a non-empty span dict |
| SpanMerge.MergeTrace | E2E-analysis/data/main.py:61-85 | the body for one trace returns `MergedDict` |
| SpanMerge.SumExecTimeSameConsecutiveService | E2E-analysis/data/main.py:53-86 | the function returns `MergedTraces`; empty traces are dropped |
| SpanMerge.AdjacentServicesDiffer | E2E-analysis/data/main.py:61-82 | adjacent merged spans always belong to different services |
| SpanMerge.MergedFromInputs | E2E-analysis/data/main.py:67-80 | every merged span is an input span with at most its end moved |
| SpanMerge.FirstSpanKept | E2E-analysis/data/main.py:67 | the first merged span keeps the earliest span's id and start |
| SpanMerge.TotalDurationKept | E2E-analysis/data/main.py:65-85 | merging keeps the total duration of the trace |
| SpanMerge.SingleRun | E2E-analysis/data/main.py:72-75 | a run of one service becomes its first span with end = start + the sum of the durations |
| SpanMerge.OverlapSummed | E2E-analysis/data/main.py:72-75 | two overlapping 10 ns spans merge into one 20 ns span: durations add, intervals are not united |
| SpanMerge.MergeKeepsIdsUnique | E2E-analysis/data/main.py:84 | merged spans keep distinct ids |
| SpanMerge.MergedDictOfUnique | E2E-analysis/data/main.py:84 | for distinct ids, the new dict holds exactly the merged spans, in order |
| EndToEnd.Route | E2E-analysis/data/main.py:164-175 | hyperExp exactly for cv > 1; hypoExp exactly for 1/sqrt(2) < cv < 1; ValueError exactly outside those ranges, cv = 1 included; for a positive mean a supported cv always fits |
| EndToEnd.RoutedMoments | E2E-analysis/data/main.py:166-172 | the fitted law has the mean in milliseconds and variance (cv * mean)^2 |
| EndToEnd.CollectedEntryRoute | E2E-analysis/data/main.py:164-175 | on collected entries the routing fails exactly on an unsupported cv, never inside a fitter |
| EndToEnd.FittedDistributions | E2E-analysis/data/main.py:164-175 | one law per statistics key |
| EndToEnd.FitDistributions | E2E-analysis/data/main.py:164-175 | succeeds exactly when every entry routes, returning `FittedDistributions`; an error is that of some entry |
| EndToEnd.CollectedStatisticsFit | E2E-analysis/data/main.py:164-175 | on `collect_statisctics` output, fitting succeeds exactly when every cv is supported |
| EndToEnd.FirstEntry | E2E-analysis/data/main.py:199-205 | None exactly when no span is the users-service `POST /reserve` span; otherwise such a span of the trace |
| EndToEnd.EntryDurations | E2E-analysis/data/main.py:197-205 | at most one duration per trace |
| EndToEnd.FindEntry | E2E-analysis/data/main.py:199-205 | the breaking scan returns `FirstEntry` |
| EndToEnd.EndToEndStatistics | E2E-analysis/data/main.py:192-236 | `{}` (None) exactly when no entry duration was found |
| EndToEnd.CollectEndToEndStatistics | E2E-analysis/data/main.py:192-236 | the loops return `EndToEndStatistics` |
| EndToEnd.EntryDurationsFromFirstEntries | E2E-analysis/data/main.py:198-205 | every duration is the duration of some trace's first entry span |
| EndToEnd.WorkflowTracesAllCounted | E2E-analysis/data/main.py:198-205 | on workflow traces every trace contributes exactly one duration |
| EndToEnd.EndToEndBounds | E2E-analysis/data/main.py:208-216 | min and max are durations bounding all, min <= mean <= max, variance >= 0 with its root, cv 0 for mean <= 0 |
| EndToEnd.EndToEndFit | E2E-analysis/data/main.py:218-226 | a law is present exactly for a positive mean and a supported cv, and is then the routed law; otherwise None instead of raising |
| Statistics.Mean | E2E-analysis/data/main.py:131 | n times the mean is the sum |
| Statistics.MeanBetweenMinAndMax | E2E-analysis/data/main.py:129-131 | min <= mean <= max |
| Statistics.PopulationVariance | E2E-analysis/data/main.py:132 | NumPy's variance is non-negative |
| Statistics.Root | E2E-analysis/data/main.py:133 | the standard deviation is the non-negative root of the variance |
| DistributionFitting.InvSqrt2 | E2E-analysis/extract_data/src/distribution_fitting.py:41 | 1/sqrt(2) is positive and squares to 1/2 |
| DistributionFitting.FitHyperExponential | E2E-analysis/extract_data/src/distribution_fitting.py:3-23 | raises exactly for cv < 1 (ValueError) or a zero mean (division by zero) |
| DistributionFitting.HyperTerm | E2E-analysis/extract_data/src/distribution_fitting.py:18 | `term` lies in [0, 1) for cv >= 1 |
| DistributionFitting.HyperBalancedMeans | E2E-analysis/extract_data/src/distribution_fitting.py:14-23 | for cv >= 1, mu != 0: p1 in [1/2, 1), p1 + p2 = 1, p1/lambda1 = p2/lambda2 = mu/2, mixture mean mu (same text at extract_data/scr/distribution_fitting.py:44-55) |
| DistributionFitting.HyperMoments | E2E-analysis/extract_data/src/distribution_fitting.py:18-23 | the hyper-exponential fit has mean mu and variance (cv * mu)^2 |
| DistributionFitting.FitHypoExponential | E2E-analysis/extract_data/src/distribution_fitting.py:25-50 | ValueError for cv >= 1 and for cv < 1/sqrt(2); success only inside [1/sqrt(2), 1) |
| DistributionFitting.HypoRates | E2E-analysis/extract_data/src/distribution_fitting.py:45-50 | after the guards the only failure is a division by zero |
| DistributionFitting.HypoFailsOnlyAtZeroMean | E2E-analysis/extract_data/src/distribution_fitting.py:45-49 | for 1/2 <= cv^2 < 1 the rates fail exactly for mu = 0 |
| DistributionFitting.HypoRatesMoments | E2E-analysis/extract_data/src/distribution_fitting.py:45-50 | the two phases in sequence have mean mu and variance (cv * mu)^2 |
| DistributionFitting.HypoRatesPositiveOrdered | E2E-analysis/extract_data/src/distribution_fitting.py:45-50 | for mu > 0: 0 < lambda1 <= lambda2 |
| DistributionFitting.HypoMoments | E2E-analysis/extract_data/src/distribution_fitting.py:37-50 | whenever the hypo-exponential fit succeeds, 1/lambda1 + 1/lambda2 = mu and 1/lambda1^2 + 1/lambda2^2 = (cv * mu)^2 |
| DistributionFitting.HypoRatesOrdered | E2E-analysis/extract_data/src/distribution_fitting.py:37-50 | in range and for mu > 0 the fit succeeds with 0 < lambda1 <= lambda2 |
| DistributionFitting.PositivePairs | E2E-analysis/extract_data/src/distribution_fitting.py:79-84 | each candidate is a qualifying root x paired with mu - k*x; empty exactly when no root qualifies |
| DistributionFitting.FirstQualifyingRootChosen | E2E-analysis/extract_data/src/distribution_fitting.py:85-87 | the first root is chosen whenever it qualifies |
| DistributionFitting.PairsFromRoots | E2E-analysis/extract_data/src/distribution_fitting.py:79-84 | every candidate comes from one of the roots |
| DistributionFitting.CollectCandidates | E2E-analysis/extract_data/src/distribution_fitting.py:79-84 | the candidate loop returns `PositivePairs` |
| DistributionFitting.NonNegativePart | E2E-analysis/extract_data/src/distribution_fitting.py:75 | `max(delta, 0.0)` is non-negative and equals delta when delta >= 0 |
| DistributionFitting.FitGeneralizedErlang | E2E-analysis/extract_data/src/distribution_fitting.py:52-88 | ValueError for cv >= 1/sqrt(2) and only then with that error; on success k = ceil(1/cv^2) - 1 |
| DistributionFitting.PhaseCountAtLeastTwo | E2E-analysis/extract_data/src/distribution_fitting.py:67-68 | for 0 < cv < 1/sqrt(2), k >= 2 |
| DistributionFitting.DiscriminantNonNegative | E2E-analysis/extract_data/src/distribution_fitting.py:69-75 | the discriminant is never negative, so the `-1e-12` guard never fires in exact arithmetic |
| DistributionFitting.RootMatchesMoments | E2E-analysis/extract_data/src/distribution_fitting.py:69-88 | a root of the quadratic gives k*x + y = mu and k*x^2 + y^2 = (cv * mu)^2 |
| DistributionFitting.CandidateMoments | E2E-analysis/extract_data/src/distribution_fitting.py:77-88 | both quadratic-formula roots give the target moments |
| DistributionFitting.ChosenCandidateMoments | E2E-analysis/extract_data/src/distribution_fitting.py:85-88 | the chosen candidate, as rates, has the target mean and variance |
| DistributionFitting.GeneralizedErlangMoments | E2E-analysis/extract_data/src/distribution_fitting.py:52-88 | on success k >= 1, both rates positive, mean mu and variance (cv * mu)^2 |
| DistributionFitting.LowRootQualifies | E2E-analysis/extract_data/src/distribution_fitting.py:77-84 | for mu > 0 and 0 < cv < 1/sqrt(2) the low root x1 qualifies |
| DistributionFitting.GeneralizedErlangLowRoot | E2E-analysis/extract_data/src/distribution_fitting.py:72-87 | for mu > 0 and 0 < cv < 1/sqrt(2) the fit never raises and keeps x1 |
| DistributionFitting.FitDistribution | E2E-analysis/extract_data/src/distribution_fitting.py:90-131 | Hyper exactly for cv >= 1 (1 included), Hypo exactly for 1/sqrt(2) <= cv < 1, Generalized-Erlang below; no fitter ever trips its own range guard |
| DistributionFitting.FitDistributionTotal | E2E-analysis/extract_data/src/distribution_fitting.py:99-131 | for positive mean and cv the dispatcher always returns a law |
| ScrDistributionFitting.FitHypoExponential | E2E-analysis/extract_data/scr/distribution_fitting.py:3-30 | ValueError for cv >= 1 and for cv^2 < 0.5; success only for 1/2 <= cv^2 and cv < 1 |
| ScrDistributionFitting.HypoMoments | E2E-analysis/extract_data/scr/distribution_fitting.py:25-30 | on success 1/lambda1 + 1/lambda2 = mu and 1/lambda1^2 + 1/lambda2^2 = (cv * mu)^2; in range it fails only for mu = 0 |
| ScrDistributionFitting.HypoGuardsDisagreeOnNegativeCv | E2E-analysis/extract_data/scr/distribution_fitting.py:20-24 | for negative cv with cv^2 >= 1/2 the other copy rejects while this one goes on to the rates |
| ScrDistributionFitting.FitErlang | E2E-analysis/extract_data/scr/distribution_fitting.py:57-79 | raises exactly for cv > 1 (ValueError) or cv = 0 or mu = 0 (division by zero); k = round(1/cv^2) half to even |
| ScrDistributionFitting.ErlangPhaseCount | E2E-analysis/extract_data/scr/distribution_fitting.py:69-76 | for 0 < cv <= 1, k >= 1 |
| ScrDistributionFitting.ErlangMoments | E2E-analysis/extract_data/scr/distribution_fitting.py:76-79 | k/lambda = mu; variance mu^2/k, which is (cv * mu)^2 exactly when 1/cv^2 = k |
| ScrDistributionFitting.UnitCvBoundary | E2E-analysis/extract_data/scr/distribution_fitting.py:16-79 | at cv = 1 the hyper-exponential and Erlang fitters accept (Erlang with one phase of rate 1/mu) and the hypo-exponential one refuses |
| RealMath.Ceil | E2E-analysis/extract_data/src/distribution_fitting.py:67 | `math.ceil`: the least integer at or above x |
| RealMath.RoundHalfEven | E2E-analysis/extract_data/scr/distribution_fitting.py:76 | Python `round`: within 1/2 of x, ties go to the even integer |
| PhaseType.GenErlangVariancePositive | E2E-analysis/eulero/src/main/java/org/oristool/eulero/modeling/stochastictime/GeneralizeErlangTime.java:88-91 | with k >= 0 and non-zero rates the variance is positive |
| PhaseType.FromPhaseMeans | E2E-analysis/extract_data/src/distribution_fitting.py:87-88 | phase means x and y become rates 1/x and 1/y with the same moments |
| PhaseType.HyperVarianceNonNegative | E2E-analysis/eulero/src/main/java/org/oristool/eulero/modeling/stochastictime/HyperExponentialTime.java:71-77 | a mixture with weights in [0, 1] summing to one has non-negative variance |
| GeneralizeErlang.Density | E2E-analysis/eulero/src/main/java/org/oristool/eulero/modeling/stochastictime/GeneralizeErlangTime.java:93-115 | 0 for t < 0; otherwise the Erlang(k+1) branch when the rates are within 1e-9, else the distinct-rates closed form |
| GeneralizeErlang.DensitySeriesLoop | E2E-analysis/eulero/src/main/java/org/oristool/eulero/modeling/stochastictime/GeneralizeErlangTime.java:108-112 | the `term2` loop sums the series `DensitySeries` |
| GeneralizeErlang.ErlangTailLoop | E2E-analysis/eulero/src/main/java/org/oristool/eulero/modeling/stochastictime/GeneralizeErlangTime.java:126-129 | the `v` loop sums `ErlangTail` |
| GeneralizeErlang.PoissonSumLoop | E2E-analysis/eulero/src/main/java/org/oristool/eulero/modeling/stochastictime/GeneralizeErlangTime.java:154-157 | the `poissonSum` loop sums x^m/m! for m <= j |
| GeneralizeErlang.DistributionSeriesLoop | E2E-analysis/eulero/src/main/java/org/oristool/eulero/modeling/stochastictime/GeneralizeErlangTime.java:151-160 | the `val2` loop sums `DistributionSeries` |
| GeneralizeErlang.DistributionRound | E2E-analysis/eulero/src/main/java/org/oristool/eulero/modeling/stochastictime/GeneralizeErlangTime.java:152-159 | one round is termCoeff * integralPart |
| GeneralizeErlang.PdfOf | E2E-analysis/eulero/src/main/java/org/oristool/eulero/modeling/stochastictime/GeneralizeErlangTime.java:94-115 | the body of `PDF` returns `Density` |
| GeneralizeErlang.DistinctRatesPdf | E2E-analysis/eulero/src/main/java/org/oristool/eulero/modeling/stochastictime/GeneralizeErlangTime.java:105-114 | the distinct-rates branch returns term1 - term2 |
| GeneralizeErlang.CdfOf | E2E-analysis/eulero/src/main/java/org/oristool/eulero/modeling/stochastictime/GeneralizeErlangTime.java:118-163 | the body of `CDF` returns `Distribution` |
| GeneralizeErlang.Distribution | E2E-analysis/eulero/src/main/java/org/oristool/eulero/modeling/stochastictime/GeneralizeErlangTime.java:117-163 | 0 for t < 0; NaN (None) exactly for t >= 0, distinct rates, k >= 1 and rate1 = 0 |
| GeneralizeErlang.CdfAtZero | E2E-analysis/eulero/src/main/java/org/oristool/eulero/modeling/stochastictime/GeneralizeErlangTime.java:117-163 | CDF(0) = 0 in both branches with exp(0) = 1, except the NaN case |
| GeneralizeErlang.PdfAtZero | E2E-analysis/eulero/src/main/java/org/oristool/eulero/modeling/stochastictime/GeneralizeErlangTime.java:93-115 | PDF(0) is the rate for k = 0, else 0 |
| GeneralizeErlang.DistinctRatesPdfAtZero | E2E-analysis/eulero/src/main/java/org/oristool/eulero/modeling/stochastictime/GeneralizeErlangTime.java:105-114 | term1 and term2 cancel at t = 0 for k >= 1 |
| GeneralizeErlang.SinglePhase | E2E-analysis/eulero/src/main/java/org/oristool/eulero/modeling/stochastictime/GeneralizeErlangTime.java:99-114 | with k = 0 the law is one exponential phase: rate1 when the rates are nearly equal, else rate2 |
| GeneralizeErlang.GeneralizeErlangTime.constructor | E2E-analysis/eulero/src/main/java/org/oristool/eulero/modeling/stochastictime/GeneralizeErlangTime.java:17-22 | the object stores k, rate1 and rate2 |
| GeneralizeErlang.GeneralizeErlangTime.SetK | E2E-analysis/eulero/src/main/java/org/oristool/eulero/modeling/stochastictime/GeneralizeErlangTime.java:28-30 | sets k and changes nothing else |
| GeneralizeErlang.GeneralizeErlangTime.SetRate1 | E2E-analysis/eulero/src/main/java/org/oristool/eulero/modeling/stochastictime/GeneralizeErlangTime.java:36-38 | sets rate1 and changes nothing else |
| GeneralizeErlang.GeneralizeErlangTime.SetRate2 | E2E-analysis/eulero/src/main/java/org/oristool/eulero/modeling/stochastictime/GeneralizeErlangTime.java:44-46 | sets rate2 and changes nothing else |
| GeneralizeErlang.GeneralizeErlangTime.Clone | E2E-analysis/eulero/src/main/java/org/oristool/eulero/modeling/stochastictime/GeneralizeErlangTime.java:170-173 | a fresh object with equal k, rate1 and rate2 |
| GeneralizeErlang.GeneralizeErlangTime.ExpectedValue | E2E-analysis/eulero/src/main/java/org/oristool/eulero/modeling/stochastictime/GeneralizeErlangTime.java:83-86 | throws exactly when a rate is zero (BigDecimal division) |
| GeneralizeErlang.GeneralizeErlangTime.Variance | E2E-analysis/eulero/src/main/java/org/oristool/eulero/modeling/stochastictime/GeneralizeErlangTime.java:88-91 | throws exactly when a rate is zero; otherwise positive |
| GeneralizeErlang.GeneralizeErlangTime.Pdf | E2E-analysis/eulero/src/main/java/org/oristool/eulero/modeling/stochastictime/GeneralizeErlangTime.java:93-115 | `PDF(t)` is `Density` at the object's parameters |
| GeneralizeErlang.GeneralizeErlangTime.Cdf | E2E-analysis/eulero/src/main/java/org/oristool/eulero/modeling/stochastictime/GeneralizeErlangTime.java:117-163 | `CDF(t)` is `Distribution` at the object's parameters |
| GeneralizeErlang.Thrown | E2E-analysis/eulero/src/main/java/org/oristool/eulero/modeling/stochastictime/GeneralizeErlangTime.java:48-81 | every unimplemented method throws UnsupportedOperationException |
| HyperExponential.New | E2E-analysis/eulero/src/main/java/org/oristool/eulero/modeling/stochastictime/HyperExponentialTime.java:18-24 | the constructor stores rate1, rate2 and prob1, and prob1 + prob2 = 1 |
| HyperExponential.Clone | E2E-analysis/eulero/src/main/java/org/oristool/eulero/modeling/stochastictime/HyperExponentialTime.java:99-102 | `clone` copies rate1, rate2 and prob1 and recomputes prob2, giving an equal object for a constructed one |
| HyperExponential.ExpectedValue | E2E-analysis/eulero/src/main/java/org/oristool/eulero/modeling/stochastictime/HyperExponentialTime.java:65-69 | throws exactly when a rate is zero; otherwise prob1/rate1 + prob2/rate2, the mixture mean |
| HyperExponential.Variance | E2E-analysis/eulero/src/main/java/org/oristool/eulero/modeling/stochastictime/HyperExponentialTime.java:71-77 | throws exactly when a rate is zero; otherwise the second moment 2 prob1/rate1^2 + 2 prob2/rate2^2 minus the square of `getExpectedValue` |
| HyperExponential.VarianceNonNegative | E2E-analysis/eulero/src/main/java/org/oristool/eulero/modeling/stochastictime/HyperExponentialTime.java:71-77 | for 0 <= prob1 <= 1 and non-zero rates the variance is non-negative |
| HyperExponential.Thrown | E2E-analysis/eulero/src/main/java/org/oristool/eulero/modeling/stochastictime/HyperExponentialTime.java:26-63 | only the two feature methods do not throw; the rest throw UnsupportedOperationException |
| HyperExponential.CdfAtZero | E2E-analysis/eulero/src/main/java/org/oristool/eulero/modeling/stochastictime/HyperExponentialTime.java:85-91 | CDF(0) = 0 given exp(0) = 1 |
| HyperExponential.PdfAtZero | E2E-analysis/eulero/src/main/java/org/oristool/eulero/modeling/stochastictime/HyperExponentialTime.java:79-83 | PDF(0) = prob1 rate1 + prob2 rate2 |
| FittedTimes.HyperTimeMatchesFit | E2E-analysis/extract_data/src/distribution_fitting.py:99-110 | for cv >= 1, mean != 0, the `HyperExponentialTime` built from the `java_code` arguments has expected value mean and variance (cv * mean)^2 |
| FittedTimes.NewFittedGeneralizeErlang | E2E-analysis/extract_data/src/distribution_fitting.py:121-131 | the `GeneralizeErlangTime` built from a generalized-Erlang fit has expected value mean and variance (cv * mean)^2 |
| Reservations.ComputePrice | services/reservation-service/src/main/java/org/acme/reservation/rest/ReservationResource.java:83-86 | at least one day's rate (19.99) when end >= start, exactly one for a single day, never positive when end < start |
| Reservations.PricePerExtraDay | services/reservation-service/src/main/java/org/acme/reservation/rest/ReservationResource.java:83-86 | each further day adds exactly 19.99 |
| Reservations.PriceShiftInvariant | services/reservation-service/src/main/java/org/acme/reservation/rest/ReservationResource.java:83-86 | the price depends only on the reservation length |
| Reservations.Make | services/reservation-service/src/main/java/org/acme/reservation/rest/ReservationResource.java:57-81 | userId becomes "guest"; the invoice carries `computePrice`; a rental is started exactly when startDay is today, for ("guest", id) |
| Reservations.BusyWaitMs | services_with_correlation/high_correlation/reservation-service/src/main/java/org/acme/reservation/rest/ReservationResource.java:52 | the busy-wait target is positive |
| Reservations.BusyWaitNs | services_with_correlation/high_correlation/reservation-service/src/main/java/org/acme/reservation/rest/ReservationResource.java:52-53 | 5 000 000 ns when `choice` is true, else 15 000 000 ns |
| Reservations.BusyWaitRatio | services_with_correlation/high_correlation/reservation-service/src/main/java/org/acme/reservation/rest/ReservationResource.java:52-53 | the false branch spins three times as long |
| Reservations.MakeWithBusyWait | services_with_correlation/high_correlation/reservation-service/src/main/java/org/acme/reservation/rest/ReservationResource.java:50-67 | userId becomes "guest", the busy wait is `BusyWaitNs(choice)`, and a rental is started exactly when startDay is today |
| Reservations.CarsById | services/reservation-service/src/main/java/org/acme/reservation/rest/ReservationResource.java:103-106 | every id maps to an inventory car with that id |
| Reservations.ReservedCarIds | services/reservation-service/src/main/java/org/acme/reservation/rest/ReservationResource.java:109-113 | exactly the car ids of reservations that `isReserved` reports for the window |
| Reservations.IndexCars | services/reservation-service/src/main/java/org/acme/reservation/rest/ReservationResource.java:103-106 | the first loop returns `CarsById` |
| Reservations.Availability | services/reservation-service/src/main/java/org/acme/reservation/rest/ReservationResource.java:100-116 | the combiner returns the cars by id minus the reserved ids (same code at services_with_correlation/high_correlation/reservation-service/src/main/java/org/acme/reservation/rest/ReservationResource.java:82-98) |
| Reservations.AvailabilityFallback | services/reservation-service/src/main/java/org/acme/reservation/rest/ReservationResource.java:119-122 | the fallback offers no car (same at the high-correlation copy, lines 101-104) |
| Reservations.OnlyInventoryCars | services/reservation-service/src/main/java/org/acme/reservation/rest/ReservationResource.java:100-115 | every car offered is an inventory car filed under its own id |
| Reservations.ReservedCarsExcluded | services/reservation-service/src/main/java/org/acme/reservation/rest/ReservationResource.java:109-113 | no car of a reservation holding in the window is offered |
| Reservations.LastDuplicateWins | services/reservation-service/src/main/java/org/acme/reservation/rest/ReservationResource.java:103-106 | for duplicate ids the last inventory entry wins |
| Reservations.UnreservedCarsOffered | services/reservation-service/src/main/java/org/acme/reservation/rest/ReservationResource.java:103-115 | every inventory car whose id no holding reservation names is offered, as the last entry with that id |

## Left out

- Floating point: Python floats, NumPy and Java `double`/`BigDecimal` (DECIMAL64) are modelled as exact reals. Rounding, overflow and NaN propagation are not modelled. The one NaN the Java source produces on purpose (CDF with a zero rate) is a `None`.
- Square root and exponential: `math.sqrt`, `np.sqrt` and `Math.exp` are parameters constrained by their defining equations. No numeric value of them is computed.
- Tolerances: the `1e-9` rate comparison in `GeneralizeErlangTime` and the `1e-12` guard in `fit_generalized_erlang` are kept as guards. No claim is made about rounding near them.
- Units: durations stay in integer nanoseconds. The millisecond values the scripts derive are exact quotients: `ExtractData.Milliseconds`, the 170 ms cutoff as 170 000 000 ns, and the fitter mean divided by 10^6.
- File and JSON I/O: JSON loading and dumping, CSV and text output, `print` and plotting are left out. Traces come in as values.
- Iteration order of Python dicts and sets: not modelled. Collected dictionaries are Dafny maps, and the nested `granular` dict of extract_data is flattened to pair keys.
- Dictionary keys: extract_data/src/main.py keys its dicts by formatted strings, `f"{service} [{operation}]"` and `f"{source} -> {target}"`, and also formats its "Processing before calling" segment names. The model keys them by the pairs and segment names themselves. Two different pairs that format to the same string, such as ("a [b", "c") and ("a", "b [c"), would share one list in the source; the model keeps them apart.
- Parent ids: an absent `parentSpanId` is `None`. A JSON `null` (or an empty id) is `Some("")`. That is not top-level for the `'parentSpanId' not in s` test of analize_traces/functions.py, and `HasParent` is false for it, as `if parent_id:` is in extract_data/src/main.py.
- Segment names: segment labels are a datatype (`Before`, `After`, `FullInternal`) rather than formatted strings.
- Dead branch: the `spans_dict = {}` branch of `sum_exec_time_same_consecutive_service` (E2E-analysis/data/main.py:62-64) cannot be reached once empty traces are skipped. It is dropped, and `SpanMerge.MergedTraces` states the skip.
- Eulero internals: `getStochasticTransitionFeature` and the other methods that build ORIS objects call an external library. Only the fact that they are not UnsupportedOperationException paths is modelled. `HypoExponentialTime` and the `data/distribution_fitting.py` copy are not part of this model.
- Reservation plumbing: Mutiny `Uni` pipelines, Panache persistence, the invoice and rental REST clients, and GraphQL are left out. The persisted reservation id is taken as given. `isReserved` is a parameter, and only the `id` of a `Car` is modelled.
- Busy wait: the spin loop of the high-correlation `make` is represented by its target duration, `Reservations.BusyWaitNs`. Clock reads are not modelled.
- EndToEnd.EndToEndBounds: states min, max, mean bounds, variance and cv, but does not restate the mean formula, which `Statistics.Mean` states.
- GeneralizeErlang.GeneralizeErlangTime.ExpectedValue: the method states only its error condition. Its value is tied to the fitted moments through `FittedTimes.NewFittedGeneralizeErlang`, and the same holds for `Variance`.
- ScrDistributionFitting.FitHypoExponential: the guard `cv**2 < 0.5` lets negative cv with cv² >= 0.5 through, unlike the `src` copy. The lemma `ScrDistributionFitting.HypoGuardsDisagreeOnNegativeCv` records the difference, and the copy is modelled as written.
- EndToEnd.Route: E2E-analysis/data/main.py imports its fitters from a `distribution_fitting` module next to it, which is not part of this model. `EndToEnd.Route`, `EndToEnd.RoutedMoments`, `EndToEnd.FitDistributions` and `EndToEnd.EndToEndFit` use the extract_data/src fitters (`DistributionFitting`) in its place. Their claims that a supported cv always fits and that the moments match hold for that copy.
- GeneralizeErlang.GeneralizeErlangTime.SetK: `k` is a `nat` in the model, whereas Java declares `int k` in the field, the constructor and `setK`. Negative phase counts are not modelled.
