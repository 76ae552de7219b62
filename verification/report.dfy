/** "Generate Report": the total, per-type counts with the mean elapsed time of the valid samples,
    and the ten most frequent queries. The .NET Framework window averages safely; the .NET 6 window
    and the console average through `DefaultIfEmpty()`, which fails on a type with no valid sample. */
module Report {
  import opened Prelude
  import opened Dns
  import opened Grouping
  import opened Stats

  /** How many query rows the report lists at most. */
  const TopLimit: nat := 10

  /** One line of "Statistics by Type". */
  datatype TypeStat = TypeStat(recordType: string, count: nat, averageMs: real)

  /** One line of "Top 10 Queries". */
  datatype QueryStat = QueryStat(query: string, count: nat)

  /** What the report button or menu item produces: nothing for an empty history, a failure when
      the averaging throws, or the report's figures. */
  datatype ReportOutcome =
    | Skipped
    | ReportFailed(fault: Fault)
    | Produced(total: nat, byType: seq<TypeStat>, topQueries: seq<QueryStat>)

  function TypeKeys(h: seq<HistoryEntry>): (r: seq<string>)
    ensures |r| == |h| && forall i :: 0 <= i < |h| ==> r[i] == h[i].recordType
  {
    seq(|h|, i requires 0 <= i < |h| => h[i].recordType)
  }

  function QueryKeys(h: seq<HistoryEntry>): (r: seq<string>)
    ensures |r| == |h| && forall i :: 0 <= i < |h| ==> r[i] == h[i].query
  {
    seq(|h|, i requires 0 <= i < |h| => h[i].query)
  }

  /** The elapsed times of the entries of type `t`, in history order (a group's elements). */
  function ElapsedOfType(h: seq<HistoryEntry>, t: string): (r: seq<int>)
    ensures |r| <= |h|
    ensures |h| == 0 ==> r == []
    ensures |h| == 1 ==> r == (if h[0].recordType == t then [h[0].elapsedMs] else [])
  {
    if |h| == 0 then []
    else ElapsedOfType(h[..|h| - 1], t) + (if h[|h| - 1].recordType == t then [h[|h| - 1].elapsedMs] else [])
  }

  /** There is one sample for each entry of the type: as many as the type's count in the table. */
  lemma {:induction false} ElapsedOfTypeCount(h: seq<HistoryEntry>, t: string)
    ensures |ElapsedOfType(h, t)| == CountOf(TypeKeys(h), t)
  {
    if |h| > 0 {
      var init := h[..|h| - 1];
      ElapsedOfTypeCount(init, t);
      assert TypeKeys(init) == TypeKeys(h)[..|h| - 1];
    }
  }

  /** The samples of a history made of two parts are those of the first part followed by those of
      the second: with the one-entry case above, the samples of `t` are exactly the elapsed times of
      the entries of type `t`, in history order, repeats included. */
  lemma {:induction false} ElapsedOfTypeAppend(a: seq<HistoryEntry>, b: seq<HistoryEntry>, t: string)
    ensures ElapsedOfType(a + b, t) == ElapsedOfType(a, t) + ElapsedOfType(b, t)
  {
    if |b| > 0 {
      var b0, last := b[..|b| - 1], b[|b| - 1];
      ElapsedOfTypeAppend(a, b0, t);
      assert b == b0 + [last];
      assert a + b == (a + b0) + [last];
      ElapsedOfTypeSnoc(a + b0, last, t);
      ElapsedOfTypeSnoc(b0, last, t);
    } else {
      assert a + b == a;
    }
  }

  lemma ElapsedOfTypeSnoc(h: seq<HistoryEntry>, e: HistoryEntry, t: string)
    ensures ElapsedOfType(h + [e], t) == ElapsedOfType(h, t) + (if e.recordType == t then [e.elapsedMs] else [])
  {
    assert (h + [e])[..|h|] == h;
  }

  /** The mean over the valid samples of type `t`, or 0 when it has none. */
  function SafeAverage(h: seq<HistoryEntry>, t: string): (r: real)
    ensures var valid := ValidSamples(ElapsedOfType(h, t));
      && (|valid| == 0 ==> r == 0.0)
      && (|valid| > 0 ==> Minimum(valid) as real <= r <= Maximum(valid) as real && 0.0 <= r)
  {
    Average(ValidSamples(ElapsedOfType(h, t)))
  }

  /** A type none of whose entries has a non-negative elapsed time. */
  predicate NoValidSample(h: seq<HistoryEntry>, t: string) {
    |ValidSamples(ElapsedOfType(h, t))| == 0
  }

  /** The by-type table has a row for type `t`. */
  predicate HasRow(stats: seq<TypeStat>, t: string) {
    exists i :: 0 <= i < |stats| && stats[i].recordType == t
  }

  function SumStatCounts(stats: seq<TypeStat>): nat {
    if |stats| == 0 then 0 else stats[0].count + SumStatCounts(stats[1..])
  }

  /** "Statistics by Type" of the .NET Framework window: one row per type, largest group first and
      equal groups in order of first appearance, each with its exact size and the mean of its valid
      samples (0 when there is none); the sizes add up to the history's length. */
  function ByTypeSafe(h: seq<HistoryEntry>): (stats: seq<TypeStat>)
    ensures forall i :: 0 <= i < |stats| ==>
      && stats[i].recordType in TypeKeys(h)
      && stats[i].count == CountOf(TypeKeys(h), stats[i].recordType)
      && stats[i].averageMs == SafeAverage(h, stats[i].recordType)
    ensures forall j :: 0 <= j < |h| ==> HasRow(stats, h[j].recordType)
    ensures forall a, b :: 0 <= a < b < |stats| ==>
      || stats[a].count > stats[b].count
      || (stats[a].count == stats[b].count &&
          FirstIndex(TypeKeys(h), stats[a].recordType) < FirstIndex(TypeKeys(h), stats[b].recordType))
    ensures SumStatCounts(stats) == |h|
  {
    var gs := CountRanking(TypeKeys(h));
    var stats := StatsOfGroups(h, gs);
    ByTypeFacts(h, gs, stats);
    stats
  }

  /** One row per group: its key, its size and the safe mean of its type. */
  function StatsOfGroups(h: seq<HistoryEntry>, gs: seq<Group>): (stats: seq<TypeStat>)
    ensures |stats| == |gs|
    ensures forall i :: 0 <= i < |gs| ==> stats[i] == TypeStat(gs[i].key, gs[i].count, SafeAverage(h, gs[i].key))
  {
    if |gs| == 0 then [] else [TypeStat(gs[0].key, gs[0].count, SafeAverage(h, gs[0].key))] + StatsOfGroups(h, gs[1..])
  }

  lemma ByTypeFacts(h: seq<HistoryEntry>, gs: seq<Group>, stats: seq<TypeStat>)
    requires RankedGroupsOf(TypeKeys(h), gs)
    requires |stats| == |gs|
    requires forall i :: 0 <= i < |gs| ==> stats[i] == TypeStat(gs[i].key, gs[i].count, SafeAverage(h, gs[i].key))
    ensures forall i :: 0 <= i < |stats| ==>
      && stats[i].recordType in TypeKeys(h)
      && stats[i].count == CountOf(TypeKeys(h), stats[i].recordType)
      && stats[i].averageMs == SafeAverage(h, stats[i].recordType)
    ensures forall j :: 0 <= j < |h| ==> HasRow(stats, h[j].recordType)
    ensures forall a, b :: 0 <= a < b < |stats| ==>
      || stats[a].count > stats[b].count
      || (stats[a].count == stats[b].count &&
          FirstIndex(TypeKeys(h), stats[a].recordType) < FirstIndex(TypeKeys(h), stats[b].recordType))
    ensures SumStatCounts(stats) == |h|
  {
    ByTypeRows(h, gs, stats);
    ByTypeCovers(h, gs, stats);
    SumStatCountsOfGroups(gs, stats);
  }

  lemma ByTypeRows(h: seq<HistoryEntry>, gs: seq<Group>, stats: seq<TypeStat>)
    requires RankedGroupsOf(TypeKeys(h), gs)
    requires |stats| == |gs|
    requires forall i :: 0 <= i < |gs| ==> stats[i] == TypeStat(gs[i].key, gs[i].count, SafeAverage(h, gs[i].key))
    ensures forall i :: 0 <= i < |stats| ==>
      && stats[i].recordType in TypeKeys(h)
      && stats[i].count == CountOf(TypeKeys(h), stats[i].recordType)
      && stats[i].averageMs == SafeAverage(h, stats[i].recordType)
    ensures forall a, b :: 0 <= a < b < |stats| ==>
      || stats[a].count > stats[b].count
      || (stats[a].count == stats[b].count &&
          FirstIndex(TypeKeys(h), stats[a].recordType) < FirstIndex(TypeKeys(h), stats[b].recordType))
  {
    var keys := TypeKeys(h);
    forall a, b | 0 <= a < b < |stats|
      ensures || stats[a].count > stats[b].count
              || (stats[a].count == stats[b].count && FirstIndex(keys, stats[a].recordType) < FirstIndex(keys, stats[b].recordType))
    {
      assert gs[a].firstSeen == FirstIndex(keys, gs[a].key) && gs[b].firstSeen == FirstIndex(keys, gs[b].key);
    }
  }

  lemma ByTypeCovers(h: seq<HistoryEntry>, gs: seq<Group>, stats: seq<TypeStat>)
    requires Covers(TypeKeys(h), gs) && |stats| == |gs|
    requires forall i :: 0 <= i < |gs| ==> stats[i].recordType == gs[i].key
    ensures forall j :: 0 <= j < |h| ==> HasRow(stats, h[j].recordType)
  {
    forall j | 0 <= j < |h|
      ensures HasRow(stats, h[j].recordType)
    {
      assert TypeKeys(h)[j] == h[j].recordType;
      assert h[j].recordType in TypeKeys(h);
      var i :| 0 <= i < |gs| && gs[i].key == h[j].recordType;
      assert stats[i].recordType == h[j].recordType;
    }
  }

  lemma {:induction false} SumStatCountsOfGroups(gs: seq<Group>, stats: seq<TypeStat>)
    requires |stats| == |gs|
    requires forall i :: 0 <= i < |gs| ==> stats[i].count == gs[i].count
    ensures SumStatCounts(stats) == SumCounts(gs)
  {
    if |gs| > 0 {
      SumStatCountsOfGroups(gs[1..], stats[1..]);
    }
  }

  /** "Statistics by Type" through `Where(x => x.ElapsedMs >= 0).DefaultIfEmpty().Average(...)`:
      for a type with no valid sample, `DefaultIfEmpty()` yields a null entry and the selector
      dereferences it, so the whole report fails; otherwise the rows are those of `ByTypeSafe`. */
  function ByTypeAsWritten(h: seq<HistoryEntry>): (r: Result<seq<TypeStat>, Fault>)
    ensures r.Err? <==> exists j :: 0 <= j < |h| && NoValidSample(h, h[j].recordType)
    ensures r.Err? ==> r.error == NullReference
    ensures r.Ok? ==> r.value == ByTypeSafe(h)
  {
    var stats := ByTypeSafe(h);
    SomeTypeWithoutSample(h, stats);
    if exists i :: 0 <= i < |stats| && NoValidSample(h, stats[i].recordType) then
      Err(NullReference)
    else
      Ok(stats)
  }

  /** The rows of the by-type table are exactly the types of the history, so "some row has no valid
      sample" and "some entry's type has no valid sample" say the same. */
  lemma SomeTypeWithoutSample(h: seq<HistoryEntry>, stats: seq<TypeStat>)
    requires forall i :: 0 <= i < |stats| ==> stats[i].recordType in TypeKeys(h)
    requires forall j :: 0 <= j < |h| ==> HasRow(stats, h[j].recordType)
    ensures (exists i :: 0 <= i < |stats| && NoValidSample(h, stats[i].recordType))
        <==> (exists j :: 0 <= j < |h| && NoValidSample(h, h[j].recordType))
  {
    if exists i :: 0 <= i < |stats| && NoValidSample(h, stats[i].recordType) {
      var i :| 0 <= i < |stats| && NoValidSample(h, stats[i].recordType);
      var keys := TypeKeys(h);
      var j :| 0 <= j < |keys| && keys[j] == stats[i].recordType;
      assert NoValidSample(h, h[j].recordType);
    }
    if exists j :: 0 <= j < |h| && NoValidSample(h, h[j].recordType) {
      var j :| 0 <= j < |h| && NoValidSample(h, h[j].recordType);
      var i :| 0 <= i < |stats| && stats[i].recordType == h[j].recordType;
      assert NoValidSample(h, stats[i].recordType);
    }
  }

  /** A history whose only entry has a negative elapsed time breaks the report as written, while
      the safe version reports that type with an average of 0. */
  lemma NegativeOnlyTypeBreaksReport(e: HistoryEntry)
    requires e.elapsedMs < 0
    ensures ByTypeAsWritten([e]) == Err(NullReference)
    ensures ByTypeSafe([e]) == [TypeStat(e.recordType, 1, 0.0)]
  {
    var h := [e];
    SingleNegativeEntry(e);
    assert NoValidSample(h, h[0].recordType);
    SingleEntryOneRow(e);
  }

  lemma SingleNegativeEntry(e: HistoryEntry)
    requires e.elapsedMs < 0
    ensures NoValidSample([e], e.recordType) && SafeAverage([e], e.recordType) == 0.0
  {
    var h := [e];
    assert h[..0] == [];
    assert ElapsedOfType(h, e.recordType) == [e.elapsedMs];
    assert ValidSamples([e.elapsedMs]) == [];
  }

  /** A worked case: four entries of one type taking 10, 20, -1 (failed) and 30 ms average 20 ms,
      the failed sample being left out of the mean. */
  lemma AverageSkipsFailedSample(t: string, q: string, now: int, d: string)
    ensures SafeAverage([HistoryEntry(t, q, now, 10, d), HistoryEntry(t, q, now, 20, d),
                         HistoryEntry(t, q, now, -1, d), HistoryEntry(t, q, now, 30, d)], t) == 20.0
  {
    var h := [HistoryEntry(t, q, now, 10, d), HistoryEntry(t, q, now, 20, d),
              HistoryEntry(t, q, now, -1, d), HistoryEntry(t, q, now, 30, d)];
    ElapsedOfExample(h[0], h[1], h[2], h[3], t);
    assert h == [h[0], h[1], h[2], h[3]];
    ValidSamplesOfExample();
    MeanOfExample();
  }

  lemma ElapsedOfExample(e0: HistoryEntry, e1: HistoryEntry, e2: HistoryEntry, e3: HistoryEntry, t: string)
    requires e0.recordType == e1.recordType == e2.recordType == e3.recordType == t
    ensures ElapsedOfType([e0, e1, e2, e3], t) == [e0.elapsedMs, e1.elapsedMs, e2.elapsedMs, e3.elapsedMs]
  {
    assert [e0, e1][..1] == [e0];
    assert ElapsedOfType([e0, e1], t) == [e0.elapsedMs, e1.elapsedMs];
    assert [e0, e1, e2][..2] == [e0, e1];
    assert ElapsedOfType([e0, e1, e2], t) == [e0.elapsedMs, e1.elapsedMs, e2.elapsedMs];
    assert [e0, e1, e2, e3][..3] == [e0, e1, e2];
  }

  lemma ValidSamplesOfExample()
    ensures ValidSamples([10, 20, -1, 30]) == [10, 20, 30]
  {
    assert [10, 20, -1, 30][..3] == [10, 20, -1];
    assert [10, 20, -1][..2] == [10, 20];
    assert [10, 20][..1] == [10];
    assert [10][..0] == [];
  }

  lemma MeanOfExample()
    ensures Average([10, 20, 30]) == 20.0
  {
    assert Sum([10, 20, 30]) == 60 by {
      assert [10, 20, 30][..2] == [10, 20];
      assert [10, 20][..1] == [10];
      assert [10][..0] == [];
    }
    AverageIsMean([10, 20, 30], 20.0);
  }

  /** A one-entry history has one row in the by-type table. */
  lemma SingleEntryOneRow(e: HistoryEntry)
    ensures ByTypeSafe([e]) == [TypeStat(e.recordType, 1, SafeAverage([e], e.recordType))]
  {
    var h := [e];
    var keys := TypeKeys(h);
    assert keys == [e.recordType];
    var stats := ByTypeSafe(h);
    assert HasRow(stats, h[0].recordType);
    RowsOfOneKey(stats, keys, e.recordType);
  }

  /** Rows that count the keys of a single-key input: exactly one row, for that key. */
  lemma RowsOfOneKey(stats: seq<TypeStat>, keys: seq<string>, t: string)
    requires keys == [t]
    requires forall i :: 0 <= i < |stats| ==> stats[i].recordType in keys && stats[i].count == CountOf(keys, stats[i].recordType)
    requires SumStatCounts(stats) == 1 && HasRow(stats, t)
    ensures |stats| == 1 && stats[0].recordType == t && stats[0].count == 1
  {
    assert CountOf(keys, t) == 1 by {
      assert keys[..0] == [];
    }
    SumStatCountsAtLeastRows(stats);
  }

  /** Rows that each count at least one entry are no more than the entries counted. */
  lemma {:induction false} SumStatCountsAtLeastRows(stats: seq<TypeStat>)
    requires forall i :: 0 <= i < |stats| ==> stats[i].count >= 1
    ensures SumStatCounts(stats) >= |stats|
  {
    if |stats| > 0 {
      SumStatCountsAtLeastRows(stats[1..]);
    }
  }

  /** "Top 10 Queries": the most frequent query strings, largest count first and equal counts in
      order of first appearance; each count is the exact number of entries with that query; a query
      left out is asked no more often than any listed one, and with fewer than ten rows every query
      is listed. */
  /** `OrderByDescending(count)` puts the row `s` before the query `q`: `s` is asked more often, or
      as often and first asked earlier. */
  ghost predicate OutranksQuery(h: seq<HistoryEntry>, s: QueryStat, q: string)
    requires s.query in QueryKeys(h) && q in QueryKeys(h)
  {
    var keys := QueryKeys(h);
    || s.count > CountOf(keys, q)
    || (s.count == CountOf(keys, q) && FirstIndex(keys, s.query) < FirstIndex(keys, q))
  }

  function TopQueries(h: seq<HistoryEntry>): (top: seq<QueryStat>)
    ensures |top| <= TopLimit
    ensures forall i :: 0 <= i < |top| ==>
      top[i].query in QueryKeys(h) && top[i].count == CountOf(QueryKeys(h), top[i].query)
    ensures forall a, b :: 0 <= a < b < |top| ==>
      || top[a].count > top[b].count
      || (top[a].count == top[b].count &&
          FirstIndex(QueryKeys(h), top[a].query) < FirstIndex(QueryKeys(h), top[b].query))
    ensures forall j :: 0 <= j < |h| && (forall i :: 0 <= i < |top| ==> top[i].query != h[j].query) ==>
      && |top| == TopLimit
      && forall i :: 0 <= i < |top| ==> OutranksQuery(h, top[i], h[j].query)
  {
    var keys := QueryKeys(h);
    var gs := CountRanking(keys);
    var n := Min(TopLimit, |gs|);
    var top := seq(n, i requires 0 <= i < n => QueryStat(gs[i].key, gs[i].count));
    TopQueriesRanked(h, gs, top);
    TopQueriesComplete(h, gs, top);
    top
  }

  lemma TopQueriesRanked(h: seq<HistoryEntry>, gs: seq<Group>, top: seq<QueryStat>)
    requires RankedGroupsOf(QueryKeys(h), gs)
    requires |top| == Min(TopLimit, |gs|)
    requires forall i :: 0 <= i < |top| ==> top[i] == QueryStat(gs[i].key, gs[i].count)
    ensures forall i :: 0 <= i < |top| ==>
      top[i].query in QueryKeys(h) && top[i].count == CountOf(QueryKeys(h), top[i].query)
    ensures forall a, b :: 0 <= a < b < |top| ==>
      || top[a].count > top[b].count
      || (top[a].count == top[b].count &&
          FirstIndex(QueryKeys(h), top[a].query) < FirstIndex(QueryKeys(h), top[b].query))
  {
    var keys := QueryKeys(h);
    forall a, b | 0 <= a < b < |top|
      ensures || top[a].count > top[b].count
              || (top[a].count == top[b].count && FirstIndex(keys, top[a].query) < FirstIndex(keys, top[b].query))
    {
      assert gs[a].firstSeen == FirstIndex(keys, gs[a].key);
      assert gs[b].firstSeen == FirstIndex(keys, gs[b].key);
    }
  }

  lemma TopQueriesComplete(h: seq<HistoryEntry>, gs: seq<Group>, top: seq<QueryStat>)
    requires RankedGroupsOf(QueryKeys(h), gs)
    requires |top| == Min(TopLimit, |gs|)
    requires forall i :: 0 <= i < |top| ==> top[i] == QueryStat(gs[i].key, gs[i].count)
    ensures forall j :: 0 <= j < |h| && (forall i :: 0 <= i < |top| ==> top[i].query != h[j].query) ==>
      && |top| == TopLimit
      && forall i :: 0 <= i < |top| ==> OutranksQuery(h, top[i], h[j].query)
  {
    var keys := QueryKeys(h);
    forall j | 0 <= j < |h| && (forall i :: 0 <= i < |top| ==> top[i].query != h[j].query)
      ensures |top| == TopLimit && forall i :: 0 <= i < |top| ==> OutranksQuery(h, top[i], h[j].query)
    {
      assert keys[j] == h[j].query;
      assert h[j].query in keys;
      var m :| 0 <= m < |gs| && gs[m].key == h[j].query;
      assert m >= |top|;
      forall i | 0 <= i < |top|
        ensures OutranksQuery(h, top[i], h[j].query)
      {
        assert gs[i].count > gs[m].count || (gs[i].count == gs[m].count && gs[i].firstSeen < gs[m].firstSeen);
      }
    }
  }

  /** Ties at the cut keep the earliest queries: the query asked first is always listed when no
      query is asked more often, however many queries tie with it. */
  lemma FirstQueryListedOnTie(h: seq<HistoryEntry>)
    requires |h| > 0
    requires forall j :: 0 <= j < |h| ==> CountOf(QueryKeys(h), h[j].query) <= CountOf(QueryKeys(h), h[0].query)
    ensures exists i :: 0 <= i < |TopQueries(h)| && TopQueries(h)[i].query == h[0].query
  {
    var top := TopQueries(h);
    if forall i :: 0 <= i < |top| ==> top[i].query != h[0].query {
      NothingOutranksFirstQuery(h, top[0]);
      assert false;
    }
  }

  /** No row outranks the query asked first when no query is asked more often. */
  lemma NothingOutranksFirstQuery(h: seq<HistoryEntry>, s: QueryStat)
    requires |h| > 0
    requires forall j :: 0 <= j < |h| ==> CountOf(QueryKeys(h), h[j].query) <= CountOf(QueryKeys(h), h[0].query)
    requires s.query in QueryKeys(h) && s.count == CountOf(QueryKeys(h), s.query)
    ensures !OutranksQuery(h, s, h[0].query)
  {
    var keys := QueryKeys(h);
    var k := FirstIndex(keys, s.query);
    assert keys[k] == h[k].query;
    assert keys[0] == h[0].query;
    assert FirstIndex(keys, h[0].query) == 0;
  }

  /** The report of the .NET Framework window: skipped for an empty history, never failing. */
  function GenerateReportSafe(h: seq<HistoryEntry>): (r: ReportOutcome)
    ensures r.Skipped? <==> |h| == 0
    ensures !r.ReportFailed?
    ensures r.Produced? ==> r.total == |h| && r.byType == ByTypeSafe(h) && r.topQueries == TopQueries(h)
  {
    if |h| == 0 then Skipped else Produced(|h|, ByTypeSafe(h), TopQueries(h))
  }

  /** The report of the .NET 6 window and of the console: skipped for an empty history, failing
      exactly when some type has no valid sample, and otherwise the same as the safe report. */
  function GenerateReportAsWritten(h: seq<HistoryEntry>): (r: ReportOutcome)
    ensures r.Skipped? <==> |h| == 0
    ensures r.ReportFailed? <==> |h| > 0 && exists j :: 0 <= j < |h| && NoValidSample(h, h[j].recordType)
    ensures r.Produced? ==> r.total == |h| && r.byType == ByTypeSafe(h) && r.topQueries == TopQueries(h)
  {
    if |h| == 0 then Skipped
    else
      match ByTypeAsWritten(h)
      case Err(f) => ReportFailed(f)
      case Ok(stats) => Produced(|h|, stats, TopQueries(h))
  }

  /** When every entry of the history has a valid sample, both reports agree. */
  lemma ReportsAgreeOnValidSamples(h: seq<HistoryEntry>)
    requires forall j :: 0 <= j < |h| ==> h[j].elapsedMs >= 0
    ensures GenerateReportAsWritten(h) == GenerateReportSafe(h)
  {
    forall j | 0 <= j < |h|
      ensures !NoValidSample(h, h[j].recordType)
    {
      EntryHasValidSample(h, j);
    }
    ReportsAgreeWhenEveryTypeHasSample(h);
  }

  lemma ReportsAgreeWhenEveryTypeHasSample(h: seq<HistoryEntry>)
    requires forall j :: 0 <= j < |h| ==> !NoValidSample(h, h[j].recordType)
    ensures GenerateReportAsWritten(h) == GenerateReportSafe(h)
  {
    var a, b := GenerateReportAsWritten(h), GenerateReportSafe(h);
    if |h| > 0 {
      assert a.Produced? && b.Produced?;
    }
  }

  /** An entry with a non-negative elapsed time gives its type a valid sample. */
  lemma EntryHasValidSample(h: seq<HistoryEntry>, j: nat)
    requires j < |h| && h[j].elapsedMs >= 0
    ensures !NoValidSample(h, h[j].recordType)
  {
    ElapsedOfTypeHolds(h, j);
    var xs := ElapsedOfType(h, h[j].recordType);
    var k :| 0 <= k < |xs| && xs[k] == h[j].elapsedMs;
    assert xs[k] in ValidSamples(xs);
  }

  /** Each entry's elapsed time is among the samples of its own type. */
  lemma {:induction false} ElapsedOfTypeHolds(h: seq<HistoryEntry>, j: nat)
    requires j < |h|
    ensures h[j].elapsedMs in ElapsedOfType(h, h[j].recordType)
  {
    if j < |h| - 1 {
      ElapsedOfTypeHolds(h[..|h| - 1], j);
    }
  }
}
