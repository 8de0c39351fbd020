/**
 * OpenTelemetry spans as the trace scripts see them once a JSON line has been parsed:
 * the keys they read, integer nanosecond timestamps, and `kind` from the `SpanKind` enum
 * of opentelemetry-proto (2 is SERVER, 3 is CLIENT). A key the dict may lack is an
 * `Option`; `serviceName` is the key the parser adds (`serviceName`, or `service_name`
 * in extract_data/src/main.py).
 */
module Spans {
  import opened Wrappers

  datatype Span = Span(
    traceId: string,
    spanId: string,
    parentSpanId: Option<string>,
    serviceName: Option<string>,
    name: Option<string>,
    kind: Option<int>,
    start: int,                 // int(span['startTimeUnixNano'])
    end: int,                   // int(span['endTimeUnixNano'])
    attributeKeys: seq<string>) // the 'key' of each entry of span['attributes'], [] when absent

  const Server := 2
  const Client := 3

  function Duration(s: Span): int {
    s.end - s.start
  }

  function Durations(spans: seq<Span>): (ds: seq<int>)
    ensures |ds| == |spans|
    ensures forall i | 0 <= i < |spans| :: ds[i] == Duration(spans[i])
  {
    if spans == [] then [] else Durations(spans[..|spans| - 1]) + [Duration(spans[|spans| - 1])]
  }

  function TotalDuration(spans: seq<Span>): int {
    if spans == [] then 0 else TotalDuration(spans[..|spans| - 1]) + Duration(spans[|spans| - 1])
  }

  /** `span.get('serviceName') == 'users-service' and span.get('name') == 'POST /reserve'`. */
  predicate IsReserveEntry(s: Span) {
    s.serviceName == Some("users-service") && s.name == Some("POST /reserve")
  }

  predicate SortedByStart(spans: seq<Span>) {
    forall i, j | 0 <= i < j < |spans| :: spans[i].start <= spans[j].start
  }

  /** Inserts s after every element whose start is at most s.start. */
  function InsertByStart(s: Span, sorted: seq<Span>): (r: seq<Span>)
    ensures multiset(r) == multiset(sorted) + multiset{s}
    ensures |r| == |sorted| + 1
  {
    if sorted == [] || sorted[|sorted| - 1].start <= s.start then sorted + [s]
    else
      var r := InsertByStart(s, sorted[..|sorted| - 1]) + [sorted[|sorted| - 1]];
      assert sorted == sorted[..|sorted| - 1] + [sorted[|sorted| - 1]];
      r
  }

  lemma {:induction false} InsertKeepsSorted(s: Span, sorted: seq<Span>)
    requires SortedByStart(sorted)
    ensures SortedByStart(InsertByStart(s, sorted))
    ensures forall x | x in InsertByStart(s, sorted) :: x in sorted || x == s
  {
    if sorted == [] || sorted[|sorted| - 1].start <= s.start {
    } else {
      var init := sorted[..|sorted| - 1];
      assert SortedByStart(init);
      InsertKeepsSorted(s, init);
      var ins := InsertByStart(s, init);
      assert forall x | x in ins :: x.start <= sorted[|sorted| - 1].start by {
        forall x | x in ins
          ensures x.start <= sorted[|sorted| - 1].start
        {
          if x != s {
            var i :| 0 <= i < |init| && init[i] == x;
            assert sorted[i] == x;
          }
        }
      }
      assert forall i | 0 <= i < |ins| :: ins[i] in ins;
    }
  }

  lemma {:induction false} InsertMembers(s: Span, sorted: seq<Span>)
    ensures forall x | x in InsertByStart(s, sorted) :: x in sorted || x == s
  {
    if !(sorted == [] || sorted[|sorted| - 1].start <= s.start) {
      var init := sorted[..|sorted| - 1];
      InsertMembers(s, init);
      assert forall x | x in init :: x in sorted;
    }
  }

  lemma {:induction false} InsertKeepsUnique(s: Span, sorted: seq<Span>)
    requires UniqueIds(sorted)
    requires forall x | x in sorted :: x.spanId != s.spanId
    ensures UniqueIds(InsertByStart(s, sorted))
  {
    if !(sorted == [] || sorted[|sorted| - 1].start <= s.start) {
      var init, last := sorted[..|sorted| - 1], sorted[|sorted| - 1];
      assert UniqueIds(init);
      assert forall x | x in init :: x in sorted;
      InsertKeepsUnique(s, init);
      InsertMembers(s, init);
      var ins := InsertByStart(s, init);
      forall i | 0 <= i < |ins|
        ensures ins[i].spanId != last.spanId
      {
        assert ins[i] in ins;
        if ins[i] != s {
          var k :| 0 <= k < |init| && init[k] == ins[i];
          assert sorted[k] == init[k];
        }
      }
    }
  }

  /**
   * `sorted(spans, key=start)` and `list.sort(key=start)`: an insertion sort that keeps
   * spans with equal starts in their original order, as Python's stable sort does.
   */
  function SortByStart(spans: seq<Span>): (r: seq<Span>)
    ensures multiset(r) == multiset(spans)
    ensures |r| == |spans|
  {
    if spans == [] then []
    else
      assert spans == spans[..|spans| - 1] + [spans[|spans| - 1]];
      InsertByStart(spans[|spans| - 1], SortByStart(spans[..|spans| - 1]))
  }

  lemma {:induction false} SortByStartSorted(spans: seq<Span>)
    ensures SortedByStart(SortByStart(spans))
  {
    if spans != [] {
      SortByStartSorted(spans[..|spans| - 1]);
      InsertKeepsSorted(spans[|spans| - 1], SortByStart(spans[..|spans| - 1]));
    }
  }

  /** The prefix of a list in start order is in start order, and its last span starts no later. */
  lemma SortedSplit(init: seq<Span>, last: Span)
    requires SortedByStart(init + [last])
    ensures SortedByStart(init)
    ensures init == [] || init[|init| - 1].start <= last.start
  {
    assert forall i | 0 <= i < |init| :: init[i] == (init + [last])[i];
    if init != [] {
      assert (init + [last])[|init|] == last;
    }
  }

  /** A span that starts no earlier than every other goes at the end. */
  lemma InsertAtEnd(s: Span, sorted: seq<Span>)
    requires sorted == [] || sorted[|sorted| - 1].start <= s.start
    ensures InsertByStart(s, sorted) == sorted + [s]
  {
  }

  /** Sorting a list that is already in start order changes nothing (the sort is stable). */
  lemma {:induction false} SortByStartOfSorted(spans: seq<Span>)
    requires SortedByStart(spans)
    ensures SortByStart(spans) == spans
  {
    if spans != [] {
      var init, last := spans[..|spans| - 1], spans[|spans| - 1];
      assert spans == init + [last];
      SortedSplit(init, last);
      SortByStartOfSorted(init);
      InsertAtEnd(last, init);
    }
  }

  /*
   * A Python dict of spans keyed by `spanId` is a sequence of its values in insertion
   * order with pairwise distinct ids.
   */

  predicate UniqueIds(d: seq<Span>) {
    forall i, j | 0 <= i < j < |d| :: d[i].spanId != d[j].spanId
  }

  /** The position of the first span with this id. */
  function IndexOfId(d: seq<Span>, id: string): (r: Option<nat>)
    ensures r.None? <==> forall i | 0 <= i < |d| :: d[i].spanId != id
    ensures r.Some? ==> r.value < |d| && d[r.value].spanId == id
    ensures r.Some? ==> forall i | 0 <= i < r.value :: d[i].spanId != id
  {
    if d == [] then None
    else if d[0].spanId == id then Some(0)
    else match IndexOfId(d[1..], id)
      case None => None
      case Some(i) => Some(i + 1)
  }

  /** `id in d` and `d[id]`. */
  function Lookup(d: seq<Span>, id: string): (r: Option<Span>)
    ensures r.Some? ==> r.value in d && r.value.spanId == id
    ensures r.None? <==> forall s | s in d :: s.spanId != id
  {
    match IndexOfId(d, id)
    case None => None
    case Some(i) => Some(d[i])
  }

  /** `d[s['spanId']] = s`: replaces the entry with the same id in place, or appends. */
  function Upsert(d: seq<Span>, s: Span): (r: seq<Span>)
    ensures |r| == |d| || |r| == |d| + 1
  {
    match IndexOfId(d, s.spanId)
    case Some(i) => d[i := s]
    case None => d + [s]
  }

  /** The upserted dict holds the new span, and otherwise only spans it held before. */
  lemma UpsertMembers(d: seq<Span>, s: Span)
    ensures s in Upsert(d, s)
    ensures forall x | x in Upsert(d, s) :: x in d || x == s
  {
    match IndexOfId(d, s.spanId)
    case Some(i) =>
      var r := d[i := s];
      assert r[i] == s;
      forall x | x in r
        ensures x in d || x == s
      {
        var j :| 0 <= j < |r| && r[j] == x;
        if j != i {
          assert d[j] == x;
        }
      }
    case None =>
  }

  lemma UpsertUnique(d: seq<Span>, s: Span)
    requires UniqueIds(d)
    ensures UniqueIds(Upsert(d, s))
  {
  }

  /** After the upsert the id finds the new span, and every other id what it found before. */
  lemma UpsertLookup(d: seq<Span>, s: Span, id: string)
    requires UniqueIds(d)
    ensures Lookup(Upsert(d, s), id) == if id == s.spanId then Some(s) else Lookup(d, id)
  {
    UpsertUnique(d, s);
    match IndexOfId(d, s.spanId)
    case Some(i) => ReplaceLookup(d, i, s, id);
    case None => AppendLookup(d, s, id);
  }

  /** The in-place branch of the upsert. */
  lemma ReplaceLookup(d: seq<Span>, i: nat, s: Span, id: string)
    requires UniqueIds(d) && i < |d| && d[i].spanId == s.spanId && UniqueIds(d[i := s])
    ensures Lookup(d[i := s], id) == if id == s.spanId then Some(s) else Lookup(d, id)
  {
    var r := d[i := s];
    match IndexOfId(r, id) {
      case Some(j) =>
        if j != i {
          assert d[j] == r[j];
        }
      case None =>
        assert id != s.spanId by { assert r[i].spanId == s.spanId; }
        forall k | 0 <= k < |d|
          ensures d[k].spanId != id
        {
          if k != i {
            assert r[k] == d[k];
          }
        }
    }
  }

  /** The append branch of the upsert. */
  lemma AppendLookup(d: seq<Span>, s: Span, id: string)
    requires forall i | 0 <= i < |d| :: d[i].spanId != s.spanId
    ensures Lookup(d + [s], id) == if id == s.spanId then Some(s) else Lookup(d, id)
  {
    var r := d + [s];
    if id != s.spanId {
      match IndexOfId(d, id)
      case Some(j) =>
        assert r[j] == d[j];
        assert forall k | 0 <= k < j :: r[k] == d[k];
        assert IndexOfId(r, id) == Some(j);
      case None =>
        assert forall k | 0 <= k < |d| :: r[k] == d[k];
        assert IndexOfId(r, id) == None;
    } else {
      assert r[|d|] == s;
      assert forall k | 0 <= k < |d| :: r[k].spanId != id;
    }
  }

  /** `{s['spanId']: s for s in spans}`, as the sequence of its values. */
  function ById(spans: seq<Span>): (d: seq<Span>)
    ensures |d| <= |spans|
    ensures forall x | x in d :: x in spans
  {
    if spans == [] then []
    else
      var d := ById(spans[..|spans| - 1]);
      UpsertMembers(d, spans[|spans| - 1]);
      Upsert(d, spans[|spans| - 1])
  }

  /** Reference definition: the last span of the list with this id. */
  function LastWithId(spans: seq<Span>, id: string): Option<Span> {
    if spans == [] then None
    else if spans[|spans| - 1].spanId == id then Some(spans[|spans| - 1])
    else LastWithId(spans[..|spans| - 1], id)
  }

  /** The dict has distinct ids, and each id maps to the last span of the list carrying it. */
  lemma {:induction false} ByIdLastWins(spans: seq<Span>, id: string)
    ensures UniqueIds(ById(spans))
    ensures Lookup(ById(spans), id) == LastWithId(spans, id)
  {
    if spans != [] {
      var init := spans[..|spans| - 1];
      ByIdLastWins(init, id);
      UpsertLookup(ById(init), spans[|spans| - 1], id);
      UpsertUnique(ById(init), spans[|spans| - 1]);
    }
  }

  /** Building the dict from spans that already have distinct ids keeps them all, in order. */
  lemma {:induction false} ByIdOfUnique(spans: seq<Span>)
    requires UniqueIds(spans)
    ensures ById(spans) == spans
  {
    if spans != [] {
      var init, last := spans[..|spans| - 1], spans[|spans| - 1];
      assert spans == init + [last];
      UniqueSplit(init, last);
      ByIdOfUnique(init);
      assert IndexOfId(init, last.spanId) == None;
      assert spans == init + [last];
    }
  }

  /** Distinct ids stay distinct in the prefix, and the last id is new to it. */
  lemma UniqueSplit(init: seq<Span>, last: Span)
    requires UniqueIds(init + [last])
    ensures UniqueIds(init)
    ensures forall i | 0 <= i < |init| :: init[i].spanId != last.spanId
  {
    assert forall i | 0 <= i < |init| :: init[i] == (init + [last])[i];
    assert (init + [last])[|init|] == last;
  }

  /** `[x for x in spans if keep(x)]`. */
  function Filter(spans: seq<Span>, keep: Span -> bool): (r: seq<Span>)
    ensures |r| <= |spans|
    ensures forall x :: x in r <==> x in spans && keep(x)
  {
    if spans == [] then []
    else
      var init, last := spans[..|spans| - 1], spans[|spans| - 1];
      assert spans == init + [last];
      Filter(init, keep) + (if keep(last) then [last] else [])
  }

  lemma {:induction false} FilterConcat(a: seq<Span>, b: seq<Span>, keep: Span -> bool)
    ensures Filter(a + b, keep) == Filter(a, keep) + Filter(b, keep)
  {
    if b != [] {
      var init := b[..|b| - 1];
      FilterConcat(a, init, keep);
      assert (a + b)[..|a + b| - 1] == a + init;
    } else {
      assert a + b == a;
    }
  }

  lemma {:induction false} FilterNone(spans: seq<Span>, keep: Span -> bool)
    requires forall x | x in spans :: !keep(x)
    ensures Filter(spans, keep) == []
  {
    if spans != [] {
      FilterNone(spans[..|spans| - 1], keep);
    }
  }

  /** `d[k].append(v)` on a defaultdict(list). */
  function Append<K>(m: map<K, seq<int>>, k: K, v: int): (r: map<K, seq<int>>)
    ensures r.Keys == m.Keys + {k}
    ensures r[k] == (if k in m then m[k] else []) + [v]
    ensures forall k' | k' in m && k' != k :: r[k'] == m[k']
  {
    m[k := (if k in m then m[k] else []) + [v]]
  }

  /** Sorting a dict's values keeps their ids distinct. */
  lemma {:induction false} SortByStartUnique(spans: seq<Span>)
    requires UniqueIds(spans)
    ensures UniqueIds(SortByStart(spans))
  {
    if spans != [] {
      var init, last := spans[..|spans| - 1], spans[|spans| - 1];
      assert UniqueIds(init);
      SortByStartUnique(init);
      var sorted := SortByStart(init);
      forall x | x in sorted
        ensures x.spanId != last.spanId
      {
        assert x in multiset(init);
        var k :| 0 <= k < |init| && init[k] == x;
        assert spans[k] == x;
      }
      InsertKeepsUnique(last, sorted);
    }
  }
}
