/**
 * `sum_exec_time_same_consecutive_service` of data/main.py: each trace's spans, in start
 * order, are collapsed run by run, a maximal run of consecutive spans of one service
 * becoming its first span with the run's durations added up.
 */
module SpanMerge {
  import opened Wrappers
  import opened Spans

  /** The first span of a run with its end moved so that its duration also covers `next`. */
  function Absorb(current: Span, next: Span): (r: Span)
    ensures Duration(r) == Duration(current) + Duration(next)
    ensures r == current.(end := r.end)
  {
    current.(end := current.start + Duration(current) + Duration(next))
  }

  /** One step of the merge: `next` joins the last merged span when it has the same service, else follows it. */
  function MergeStep(m: seq<Span>, next: Span): (r: seq<Span>)
    requires m != []
    ensures |m| <= |r| <= |m| + 1
  {
    var current := m[|m| - 1];
    if next.serviceName == current.serviceName then m[..|m| - 1] + [Absorb(current, next)]
    else m + [next]
  }

  /** The merged list for spans already in start order. */
  function Merge(sorted: seq<Span>): (m: seq<Span>)
    requires sorted != []
    ensures 1 <= |m| <= |sorted|
  {
    if |sorted| == 1 then [sorted[0]]
    else MergeStep(Merge(sorted[..|sorted| - 1]), sorted[|sorted| - 1])
  }

  /** The step as the loop sees it: the spans already closed, then the open one. */
  lemma MergeStepOf(merged: seq<Span>, current: Span, next: Span)
    ensures MergeStep(merged + [current], next)
            == if next.serviceName == current.serviceName then merged + [Absorb(current, next)]
               else merged + [current] + [next]
  {
    assert (merged + [current])[..|merged|] == merged;
  }

  /** Merging one more span of the list is one more step. */
  lemma MergeSnoc(spans: seq<Span>, i: int)
    requires 1 <= i < |spans|
    ensures Merge(spans[..i + 1]) == MergeStep(Merge(spans[..i]), spans[i])
  {
    assert spans[..i + 1][..i] == spans[..i];
  }

  /** One iteration of the merge loop. */
  method MergeNext(merged: seq<Span>, current: Span, next: Span) returns (merged': seq<Span>, current': Span)
    ensures merged' + [current'] == MergeStep(merged + [current], next)
  {
    MergeStepOf(merged, current, next);
    if next.serviceName == current.serviceName {
      var durationCurrent := current.end - current.start;
      var durationNext := next.end - next.start;
      merged', current' := merged, current.(end := current.start + durationCurrent + durationNext);
    } else {
      merged', current' := merged + [current], next;
    }
  }

  /** The merge loop over one trace's spans, already sorted. */
  method MergeConsecutive(spans: seq<Span>) returns (merged: seq<Span>)
    requires spans != []
    ensures merged == Merge(spans)
  {
    merged := [];
    var current := spans[0];
    assert spans[..1] == [spans[0]];
    for i := 1 to |spans|
      invariant merged + [current] == Merge(spans[..i])
    {
      MergeSnoc(spans, i);
      merged, current := MergeNext(merged, current, spans[i]);
    }
    merged := merged + [current];
    assert spans[..|spans|] == spans;
  }

  /** The dict `sum_exec_time_same_consecutive_service` returns. */
  function MergedTraces(traces: map<string, seq<Span>>): (r: map<string, seq<Span>>)
    ensures forall id :: id in r <==> id in traces && traces[id] != []
  {
    map id | id in traces && traces[id] != [] :: MergedDict(traces[id])
  }

  /** The new span dict of one non-empty trace: the merged spans keyed by their (first) `spanId`. */
  function MergedDict(spansDict: seq<Span>): seq<Span>
    requires spansDict != []
  {
    ById(Merge(SortByStart(spansDict)))
  }

  /** The body of the loop over traces, for a trace with spans. */
  method MergeTrace(spansDict: seq<Span>) returns (newSpansDict: seq<Span>)
    requires spansDict != []
    ensures newSpansDict == MergedDict(spansDict)
  {
    var spans := SortByStart(spansDict);
    var merged := MergeConsecutive(spans);
    newSpansDict := ById(merged);
  }

  /**
   * `sum_exec_time_same_consecutive_service`. A trace with no spans is skipped, so it is
   * absent from the result; the `{}` branch after sorting cannot be reached, since sorting
   * keeps every span.
   */
  method SumExecTimeSameConsecutiveService(traces: map<string, seq<Span>>) returns (processed: map<string, seq<Span>>)
    ensures processed == MergedTraces(traces)
  {
    processed := map[];
    var pending := traces.Keys;
    while pending != {}
      invariant pending <= traces.Keys
      invariant forall id | id in processed :: id in traces && id !in pending && traces[id] != [] && processed[id] == MergedDict(traces[id])
      invariant forall id | id in traces && id !in pending && traces[id] != [] :: id in processed
      decreases pending
    {
      var id :| id in pending;
      var spansDict := traces[id];
      pending := pending - {id};
      if spansDict != [] {
        var newSpansDict := MergeTrace(spansDict);
        processed := processed[id := newSpansDict];
      }
    }
    ProcessedIsMerged(traces, processed);
  }

  /** A map holding the merged dict of every non-empty trace, and nothing else, is the result. */
  lemma ProcessedIsMerged(traces: map<string, seq<Span>>, processed: map<string, seq<Span>>)
    requires forall id | id in processed :: id in traces && traces[id] != [] && processed[id] == MergedDict(traces[id])
    requires forall id | id in traces && traces[id] != [] :: id in processed
    ensures processed == MergedTraces(traces)
  {
    assert processed.Keys == MergedTraces(traces).Keys;
  }

  /** No two neighbours share a service. */
  predicate ServicesAlternate(m: seq<Span>) {
    forall i | 0 <= i < |m| - 1 :: m[i].serviceName != m[i + 1].serviceName
  }

  /** Adjacent merged spans always belong to different services. */
  lemma {:induction false} AdjacentServicesDiffer(sorted: seq<Span>)
    requires sorted != []
    ensures ServicesAlternate(Merge(sorted))
  {
    if |sorted| > 1 {
      var init, next := sorted[..|sorted| - 1], sorted[|sorted| - 1];
      AdjacentServicesDiffer(init);
      var m := Merge(init);
      var current := m[|m| - 1];
      var r := Merge(sorted);
      if next.serviceName == current.serviceName {
        var absorbed := Absorb(current, next);
        assert r == m[..|m| - 1] + [absorbed];
        assert absorbed.serviceName == current.serviceName;
        forall i | 0 <= i < |r| - 1
          ensures r[i].serviceName != r[i + 1].serviceName
        {
          assert r[i] == m[i];
          if i + 1 < |m| - 1 {
            assert r[i + 1] == m[i + 1];
          } else {
            assert r[i + 1] == absorbed;
          }
        }
      } else {
        assert r == m + [next];
        forall i | 0 <= i < |r| - 1
          ensures r[i].serviceName != r[i + 1].serviceName
        {
          assert r[i] == m[i];
          if i + 1 < |m| {
            assert r[i + 1] == m[i + 1];
          }
        }
      }
    }
  }

  /** o is one of the inputs with at most its end moved. */
  predicate FromInput(o: Span, inputs: seq<Span>) {
    exists x | x in inputs :: o == x.(end := o.end)
  }

  /** Every merged span is an input span, only its end moved. */
  lemma {:induction false} MergedFromInputs(sorted: seq<Span>)
    requires sorted != []
    ensures forall o | o in Merge(sorted) :: FromInput(o, sorted)
  {
    if |sorted| == 1 {
      assert Merge(sorted) == [sorted[0]];
      assert sorted[0] == sorted[0].(end := sorted[0].end);
    } else {
      var init, next := sorted[..|sorted| - 1], sorted[|sorted| - 1];
      MergedFromInputs(init);
      var m := Merge(init);
      forall o | o in m
        ensures FromInput(o, sorted)
      {
        var x :| x in init && o == x.(end := o.end);
        assert x in sorted;
      }
      StepFromInputs(m, next, sorted);
    }
  }

  /** A merge step only moves the end of the last span, or appends an input. */
  lemma StepFromInputs(m: seq<Span>, next: Span, inputs: seq<Span>)
    requires m != [] && next in inputs
    requires forall o | o in m :: FromInput(o, inputs)
    ensures forall o | o in MergeStep(m, next) :: FromInput(o, inputs)
  {
    var current := m[|m| - 1];
    assert current in m;
    if next.serviceName == current.serviceName {
      var r := m[..|m| - 1] + [Absorb(current, next)];
      forall o | o in r
        ensures FromInput(o, inputs)
      {
        if o in m[..|m| - 1] {
          assert o in m;
        } else {
          var y :| y in inputs && current == y.(end := current.end);
          assert o == y.(end := o.end);
        }
      }
    } else {
      forall o | o in m + [next]
        ensures FromInput(o, inputs)
      {
        if o !in m {
          assert o == next.(end := o.end);
        }
      }
    }
  }

  /** The merged list starts with the earliest span, keeping its id and start. */
  lemma {:induction false} FirstSpanKept(sorted: seq<Span>)
    requires sorted != []
    ensures Merge(sorted)[0].spanId == sorted[0].spanId && Merge(sorted)[0].start == sorted[0].start
  {
    if |sorted| > 1 {
      var init := sorted[..|sorted| - 1];
      FirstSpanKept(init);
    }
  }

  /** Merging keeps the trace's total duration. */
  lemma {:induction false} TotalDurationKept(sorted: seq<Span>)
    requires sorted != []
    ensures TotalDuration(Merge(sorted)) == TotalDuration(sorted)
  {
    if |sorted| > 1 {
      var init, next := sorted[..|sorted| - 1], sorted[|sorted| - 1];
      TotalDurationKept(init);
      var m := Merge(init);
      var current := m[|m| - 1];
      assert m == m[..|m| - 1] + [current];
      TotalDurationAppend(m[..|m| - 1], current);
      if next.serviceName == current.serviceName {
        TotalDurationAppend(m[..|m| - 1], Absorb(current, next));
      } else {
        TotalDurationAppend(m, next);
      }
    }
  }

  lemma TotalDurationAppend(spans: seq<Span>, s: Span)
    ensures TotalDuration(spans + [s]) == TotalDuration(spans) + Duration(s)
  {
    assert (spans + [s])[..|spans|] == spans;
  }

  /**
   * A run of one service collapses to its first span with the durations summed, not the
   * union of the intervals: two overlapping 10 ns spans give one span of 20 ns.
   */
  lemma {:induction false} SingleRun(sorted: seq<Span>)
    requires sorted != []
    requires forall i | 0 <= i < |sorted| :: sorted[i].serviceName == sorted[0].serviceName
    ensures Merge(sorted) == [sorted[0].(end := sorted[0].start + TotalDuration(sorted))]
  {
    if |sorted| > 1 {
      var init, next := sorted[..|sorted| - 1], sorted[|sorted| - 1];
      SingleRun(init);
      assert init[0] == sorted[0];
      var c := sorted[0].(end := sorted[0].start + TotalDuration(init));
      assert Merge(sorted) == MergeStep([c], next);
      MergeStepOf([], c, next);
      assert [] + [c] == [c];
      assert sorted == init + [next];
      TotalDurationAppend(init, next);
      assert Absorb(c, next) == sorted[0].(end := sorted[0].start + TotalDuration(sorted));
    } else {
      assert sorted[..0] == [];
      assert TotalDuration(sorted) == Duration(sorted[0]);
      assert sorted[0].(end := sorted[0].end) == sorted[0];
    }
  }

  lemma OverlapSummed()
    ensures var a := Span("t", "a", None, Some("s"), Some("op"), Some(Server), 0, 10, []);
            var b := Span("t", "b", Some("a"), Some("s"), Some("op"), Some(Client), 5, 15, []);
            Merge([a, b]) == [a.(end := 20)]
  {
    var a := Span("t", "a", None, Some("s"), Some("op"), Some(Server), 0, 10, []);
    var b := Span("t", "b", Some("a"), Some("s"), Some("op"), Some(Client), 5, 15, []);
    assert [a, b][..1] == [a];
  }

  /** Merging keeps span ids distinct: each merged span carries the id of a different input span. */
  lemma {:induction false} MergeKeepsIdsUnique(sorted: seq<Span>)
    requires sorted != [] && UniqueIds(sorted)
    ensures UniqueIds(Merge(sorted))
  {
    if |sorted| > 1 {
      var init, next := sorted[..|sorted| - 1], sorted[|sorted| - 1];
      assert sorted == init + [next];
      UniqueSplit(init, next);
      MergeKeepsIdsUnique(init);
      var m := Merge(init);
      if next.serviceName == m[|m| - 1].serviceName {
        AbsorbKeepsIds(m, next);
      } else {
        NextIdIsNew(init, next);
        AppendNewId(m, next);
      }
    }
  }

  /** Absorbing a span into the last one changes no id. */
  lemma AbsorbKeepsIds(m: seq<Span>, next: Span)
    requires m != [] && UniqueIds(m)
    ensures UniqueIds(m[..|m| - 1] + [Absorb(m[|m| - 1], next)])
  {
    var r := m[..|m| - 1] + [Absorb(m[|m| - 1], next)];
    assert forall i | 0 <= i < |m| :: r[i].spanId == m[i].spanId;
  }

  /** A span whose id is new keeps the ids distinct. */
  lemma AppendNewId(m: seq<Span>, s: Span)
    requires UniqueIds(m)
    requires forall o | o in m :: o.spanId != s.spanId
    ensures UniqueIds(m + [s])
  {
    var r := m + [s];
    forall i, j | 0 <= i < j < |r|
      ensures r[i].spanId != r[j].spanId
    {
      assert r[i] == m[i] && r[i] in m;
    }
  }

  /** With distinct ids, the id of the next span is carried by no span merged so far. */
  lemma NextIdIsNew(init: seq<Span>, next: Span)
    requires init != [] && UniqueIds(init + [next])
    ensures forall o | o in Merge(init) :: o.spanId != next.spanId
  {
    UniqueSplit(init, next);
    MergedFromInputs(init);
    forall o | o in Merge(init)
      ensures o.spanId != next.spanId
    {
      var x :| x in init && o == x.(end := o.end);
    }
  }

  /** For a trace whose spans have distinct ids, the new dict holds exactly the merged spans, in order. */
  lemma MergedDictOfUnique(spansDict: seq<Span>)
    requires spansDict != [] && UniqueIds(spansDict)
    ensures MergedDict(spansDict) == Merge(SortByStart(spansDict))
  {
    SortByStartUnique(spansDict);
    MergeKeepsIdsUnique(SortByStart(spansDict));
    ByIdOfUnique(Merge(SortByStart(spansDict)));
  }
}
