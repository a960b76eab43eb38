/** The daily aggregation of the wallet-app variant (`frontend/utils/dataProcessing.js`):
    entries are grouped by the local calendar day of their timestamp and the chart keeps
    the days inside a trailing time window.

    `localDay` gives the local calendar day (a day number) of an instant; the source
    formats the instant as `yyyy-MM-dd`, which names the same day exactly when the day
    numbers agree. The final `sort` of the source subtracts the raw `timestamp` values,
    which the app stores as ISO strings: the difference is `NaN`, which a sort comparator
    reads as "equal", so the stable sort keeps the groups in first-occurrence order. The
    model keeps that order and proves it chronological for time-sorted input. */
module FrontendProcessing {
  import opened Wrappers
  import opened Records
  import opened Grouping
  import opened Daily
  import Seqs

  function DayKey(localDay: int -> int): Entry -> int {
    (e: Entry) => localDay(e.timestamp)
  }

  /** The entries of `ws` that fall on local day `d`, in input order. */
  function DayEntries(ws: seq<Entry>, localDay: int -> int, d: int): seq<Entry> {
    Members(ws, DayKey(localDay), d)
  }

  function AverageGroups(gs: seq<Group<int, Entry>>): (r: seq<Entry>)
    requires forall i :: 0 <= i < |gs| ==> |gs[i].members| > 0
    ensures |r| == |gs|
    ensures forall i :: 0 <= i < |gs| ==> r[i] == AverageDay(gs[i].members)
  {
    seq(|gs|, i requires 0 <= i < |gs| => AverageDay(gs[i].members))
  }

  /** `averageWeightsByDay`: one record per local day, in first-occurrence order. */
  function AverageWeightsByDay(ws: seq<Entry>, localDay: int -> int): (r: seq<Entry>)
    ensures |r| == 0 <==> |ws| == 0
    ensures |r| <= |ws|
  {
    if |ws| == 0 then []
    else
      var gs := GroupBy(ws, DayKey(localDay));
      GroupByMembers(ws, DayKey(localDay));
      AverageGroups(gs)
  }

  /** The record of each day is built from that day's entries, and only from them. */
  lemma AverageDayOfGroup(g: Group<int, Entry>, ws: seq<Entry>, localDay: int -> int)
    requires |g.members| > 0 && g.members == DayEntries(ws, localDay, g.key)
    ensures localDay(AverageDay(g.members).timestamp) == g.key
  {
    var m := g.members;
    if |m| == 1 {
      assert m[0] in m;
    } else {
      assert m[LatestIndex(m)] in m;
    }
  }

  /** The daily list holds exactly one record per local day of the input, no day twice,
      and each record is the aggregate of precisely that day's entries. */
  lemma {:induction false} AverageWeightsByDaySpec(ws: seq<Entry>, localDay: int -> int)
    ensures var r := AverageWeightsByDay(ws, localDay);
      && (forall i, j :: 0 <= i < j < |r| ==> localDay(r[i].timestamp) != localDay(r[j].timestamp))
      && (forall k :: 0 <= k < |ws| ==>
            exists i :: 0 <= i < |r| && localDay(r[i].timestamp) == localDay(ws[k].timestamp))
      && (forall i :: 0 <= i < |r| ==>
            var m := DayEntries(ws, localDay, localDay(r[i].timestamp));
            |m| > 0 && r[i] == AverageDay(m))
  {
    var r := AverageWeightsByDay(ws, localDay);
    if |ws| > 0 {
      var gs := GroupBy(ws, DayKey(localDay));
      GroupByMembers(ws, DayKey(localDay));
      forall i | 0 <= i < |gs| ensures localDay(r[i].timestamp) == gs[i].key {
        AverageDayOfGroup(gs[i], ws, localDay);
      }
      forall k | 0 <= k < |ws|
        ensures exists i :: 0 <= i < |r| && localDay(r[i].timestamp) == localDay(ws[k].timestamp)
      {
        assert HasKey(gs, DayKey(localDay)(ws[k]));
        var i :| 0 <= i < |gs| && gs[i].key == DayKey(localDay)(ws[k]);
        assert localDay(r[i].timestamp) == localDay(ws[k].timestamp);
      }
    }
  }

  /** For entries sorted by time, the daily list is chronological: the local days and
      the timestamps of its records strictly increase. */
  lemma ChronologicalForSortedInput(ws: seq<Entry>, localDay: int -> int)
    requires forall i, j :: 0 <= i < j < |ws| ==> ws[i].timestamp <= ws[j].timestamp
    requires forall a, b :: a <= b ==> localDay(a) <= localDay(b)
    ensures var r := AverageWeightsByDay(ws, localDay);
      forall i, j :: 0 <= i < j < |r| ==>
        localDay(r[i].timestamp) < localDay(r[j].timestamp) && r[i].timestamp < r[j].timestamp
  {
    var r := AverageWeightsByDay(ws, localDay);
    if |ws| > 0 {
      var gs := GroupBy(ws, DayKey(localDay));
      GroupByMembers(ws, DayKey(localDay));
      GroupByKeysIncreasing(ws, DayKey(localDay));
      forall i | 0 <= i < |gs| ensures localDay(r[i].timestamp) == gs[i].key {
        AverageDayOfGroup(gs[i], ws, localDay);
      }
    }
  }

  /** Every averaged record counts at least two entries, so `isAveraged` holds exactly
      when `originalEntries` exceeds one. */
  predicate CountConsistent(a: Entry) {
    IsAveraged(a) <==> OriginalEntries(a) > 1
  }

  lemma AverageDayConsistent(m: seq<Entry>)
    requires |m| > 0
    requires forall i :: 0 <= i < |m| ==> IsRaw(m[i])
    ensures CountConsistent(AverageDay(m))
    ensures OriginalEntries(AverageDay(m)) == |m|
  {
  }

  function SumCounts(r: seq<Entry>): nat
    decreases |r|
  {
    if |r| == 0 then 0 else SumCounts(r[..|r| - 1]) + OriginalEntries(r[|r| - 1])
  }

  lemma {:induction false} SumCountsOfGroups(gs: seq<Group<int, Entry>>)
    requires forall i :: 0 <= i < |gs| ==> |gs[i].members| > 0
    requires forall i, j :: 0 <= i < |gs| && 0 <= j < |gs[i].members| ==> IsRaw(gs[i].members[j])
    ensures SumCounts(AverageGroups(gs)) == TotalMembers(gs)
    decreases |gs|
  {
    if |gs| > 0 {
      var n := |gs| - 1;
      SumCountsOfGroups(gs[..n]);
      assert AverageGroups(gs)[..n] == AverageGroups(gs[..n]);
      AverageDayConsistent(gs[n].members);
    }
  }

  /** For raw input, the `originalEntries` of the daily records add up to the number of
      entries: every entry is counted on exactly one day. */
  lemma CountsSumToLength(ws: seq<Entry>, localDay: int -> int)
    requires forall i :: 0 <= i < |ws| ==> IsRaw(ws[i])
    ensures SumCounts(AverageWeightsByDay(ws, localDay)) == |ws|
  {
    if |ws| > 0 {
      var gs := GroupBy(ws, DayKey(localDay));
      GroupByMembers(ws, DayKey(localDay));
      GroupBySizes(ws, DayKey(localDay));
      forall i, j | 0 <= i < |gs| && 0 <= j < |gs[i].members| ensures IsRaw(gs[i].members[j]) {
        assert gs[i].members[j] in DayEntries(ws, localDay, gs[i].key);
      }
      SumCountsOfGroups(gs);
    }
  }

  /** For raw input every daily record satisfies `isAveraged <==> originalEntries > 1`. */
  lemma RecordsCountConsistent(ws: seq<Entry>, localDay: int -> int)
    requires forall i :: 0 <= i < |ws| ==> IsRaw(ws[i])
    ensures forall a :: a in AverageWeightsByDay(ws, localDay) ==> CountConsistent(a)
  {
    var r := AverageWeightsByDay(ws, localDay);
    AverageWeightsByDaySpec(ws, localDay);
    forall a | a in r ensures CountConsistent(a) {
      var i :| 0 <= i < |r| && r[i] == a;
      var m := DayEntries(ws, localDay, localDay(a.timestamp));
      forall j | 0 <= j < |m| ensures IsRaw(m[j]) {
        assert m[j] in m;
      }
      AverageDayConsistent(m);
    }
  }

  /** `entryDate >= startDate && entryDate <= endDate` with `startDate = subDays(now, days - 1)`. */
  function InWindow(now: int, days: int): Entry -> bool {
    (a: Entry) => now - (days - 1) * DayMs <= a.timestamp <= now
  }

  /** The daily records the chart shows, in daily-list order. */
  function WindowedDays(ws: seq<Entry>, days: int, now: int, localDay: int -> int): (r: seq<Entry>)
    ensures |r| <= |AverageWeightsByDay(ws, localDay)|
    ensures forall a :: a in r <==>
      a in AverageWeightsByDay(ws, localDay) && now - (days - 1) * DayMs <= a.timestamp <= now
  {
    Seqs.Filter(AverageWeightsByDay(ws, localDay), InWindow(now, days))
  }

  /** A chart point carries the record's weight and its aggregation fields, with the
      defaults `isAveraged = false` and `originalEntries = 1`. */
  function ToPoint(a: Entry, text: string): (p: ChartPoint)
    ensures p.weight == a.weight && p.date == text
    ensures p.isAveraged == IsAveraged(a) && p.originalEntries == OriginalEntries(a)
    ensures p.originalEntries >= 1 && (IsRaw(a) ==> !p.isAveraged && p.originalEntries == 1)
    ensures p.timeRange.None? && p.goal.None?
  {
    ChartPoint(text, a.weight, IsAveraged(a), OriginalEntries(a), None, None)
  }

  /** `r` charts the records `w`: one point per record, in order, labelled from the
      record's timestamp. */
  ghost predicate PointsOf(r: seq<ChartPoint>, w: seq<Entry>, format: (int, LabelFormat) -> string,
                           fmt: LabelFormat) {
    |r| == |w| && forall i :: 0 <= i < |w| ==> r[i] == ToPoint(w[i], format(w[i].timestamp, fmt))
  }

  /** `prepareChartData(weights, days, dateFormat)` at the instant `now`; `format` is the
      label formatting of an instant. */
  function PrepareChartData(ws: seq<Entry>, days: int, now: int, localDay: int -> int,
                            format: (int, LabelFormat) -> string, fmt: LabelFormat): (r: seq<ChartPoint>)
    ensures |ws| == 0 ==> r == []
    ensures PointsOf(r, WindowedDays(ws, days, now, localDay), format, fmt)
  {
    var aggs := AverageWeightsByDay(ws, localDay);
    if |aggs| == 0 then []
    else Points(WindowedDays(ws, days, now, localDay), format, fmt)
  }

  /** `.map(w => ({ date: format(new Date(w.timestamp), dateFormat), ... }))`. */
  function Points(w: seq<Entry>, format: (int, LabelFormat) -> string, fmt: LabelFormat)
    : (r: seq<ChartPoint>)
    ensures PointsOf(r, w, format, fmt)
  {
    seq(|w|, i requires 0 <= i < |w| => ToPoint(w[i], format(w[i].timestamp, fmt)))
  }

  /** The chart of time-sorted input is chronological: its records' timestamps
      strictly increase. */
  lemma ChartChronological(ws: seq<Entry>, days: int, now: int, localDay: int -> int)
    requires forall i, j :: 0 <= i < j < |ws| ==> ws[i].timestamp <= ws[j].timestamp
    requires forall a, b :: a <= b ==> localDay(a) <= localDay(b)
    ensures var w := WindowedDays(ws, days, now, localDay);
      forall i, j :: 0 <= i < j < |w| ==> w[i].timestamp < w[j].timestamp
  {
    ChronologicalForSortedInput(ws, localDay);
    Seqs.FilterKeepsOrder(AverageWeightsByDay(ws, localDay), InWindow(now, days),
                          (a: Entry, b: Entry) => a.timestamp < b.timestamp);
  }

  /** An entry logged inside the window puts its day on the chart: the chart is empty
      only when no entry falls in the window. */
  lemma ChartShowsWindowedEntry(ws: seq<Entry>, days: int, now: int, localDay: int -> int, k: nat)
    requires k < |ws| && now - (days - 1) * DayMs <= ws[k].timestamp <= now
    requires forall i, j :: 0 <= i < j < |ws| ==> ws[i].timestamp <= ws[j].timestamp
    requires ws[|ws| - 1].timestamp <= now
    ensures exists a :: a in WindowedDays(ws, days, now, localDay)
                        && localDay(a.timestamp) == localDay(ws[k].timestamp)
  {
    var r := AverageWeightsByDay(ws, localDay);
    var i := LatestOfDayWithin(ws, localDay, k);
    assert r[i] in r;
  }

  /** The record of an entry's day is no earlier than that entry and, for time-sorted
      input, no later than the last entry of the input. */
  lemma LatestOfDayWithin(ws: seq<Entry>, localDay: int -> int, k: nat) returns (i: nat)
    requires k < |ws|
    requires forall i, j :: 0 <= i < j < |ws| ==> ws[i].timestamp <= ws[j].timestamp
    ensures i < |AverageWeightsByDay(ws, localDay)|
    ensures var a := AverageWeightsByDay(ws, localDay)[i];
      localDay(a.timestamp) == localDay(ws[k].timestamp)
      && ws[k].timestamp <= a.timestamp <= ws[|ws| - 1].timestamp
  {
    var r := AverageWeightsByDay(ws, localDay);
    var d := localDay(ws[k].timestamp);
    var m := DayEntries(ws, localDay, d);
    assert exists i :: 0 <= i < |r| && localDay(r[i].timestamp) == d && r[i] == AverageDay(m) by {
      AverageWeightsByDaySpec(ws, localDay);
      var i :| 0 <= i < |r| && localDay(r[i].timestamp) == d;
    }
    i :| 0 <= i < |r| && localDay(r[i].timestamp) == d && r[i] == AverageDay(m);
    DayRecordBounds(ws, localDay, k, m);
  }

  /** The aggregate of the entries of `ws[k]`'s day lies between `ws[k]` and the last entry. */
  lemma DayRecordBounds(ws: seq<Entry>, localDay: int -> int, k: nat, m: seq<Entry>)
    requires k < |ws| && m == DayEntries(ws, localDay, localDay(ws[k].timestamp))
    requires forall i, j :: 0 <= i < j < |ws| ==> ws[i].timestamp <= ws[j].timestamp
    ensures |m| > 0
    ensures ws[k].timestamp <= AverageDay(m).timestamp <= ws[|ws| - 1].timestamp
  {
    assert ws[k] in m;
    var j :| 0 <= j < |m| && m[j] == ws[k];
    MemberOfDayIsInput(m, ws, localDay, localDay(ws[k].timestamp));
    AverageDayIsLatest(m);
    var q :| 0 <= q < |m| && m[q].timestamp == AverageDay(m).timestamp;
  }

  lemma MemberOfDayIsInput(m: seq<Entry>, ws: seq<Entry>, localDay: int -> int, d: int)
    requires m == DayEntries(ws, localDay, d)
    requires |ws| > 0
    requires forall i, j :: 0 <= i < j < |ws| ==> ws[i].timestamp <= ws[j].timestamp
    ensures forall j :: 0 <= j < |m| ==> m[j].timestamp <= ws[|ws| - 1].timestamp
  {
    forall j | 0 <= j < |m| ensures m[j].timestamp <= ws[|ws| - 1].timestamp {
      assert m[j] in m;
      var q :| 0 <= q < |ws| && ws[q] == m[j];
    }
  }

  /** A day's record carries the greatest timestamp of that day, taken from one of its entries. */
  lemma AverageDayIsLatest(m: seq<Entry>)
    requires |m| > 0
    ensures forall j :: 0 <= j < |m| ==> m[j].timestamp <= AverageDay(m).timestamp
    ensures exists j :: 0 <= j < |m| && m[j].timestamp == AverageDay(m).timestamp
  {
    var k := if |m| == 1 then 0 else LatestIndex(m);
    assert m[k].timestamp == AverageDay(m).timestamp;
  }

  /** `getLatestWeight`: `null` for no entries, otherwise the last daily record. */
  function GetLatestWeight(ws: seq<Entry>, localDay: int -> int): (r: Option<Entry>)
    ensures r.None? <==> |ws| == 0
    ensures r.Some? ==> r.value in AverageWeightsByDay(ws, localDay)
    ensures r.Some? ==> var d := AverageWeightsByDay(ws, localDay);
      |d| > 0 && r.value == d[|d| - 1]
  {
    if |ws| == 0 then None else LatestOf(AverageWeightsByDay(ws, localDay))
  }

  /** For time-sorted input the latest record belongs to the day of the last entry and
      carries its timestamp. */
  lemma LatestIsMostRecent(ws: seq<Entry>, localDay: int -> int)
    requires |ws| > 0
    requires forall i, j :: 0 <= i < j < |ws| ==> ws[i].timestamp <= ws[j].timestamp
    requires forall a, b :: a <= b ==> localDay(a) <= localDay(b)
    ensures GetLatestWeight(ws, localDay).value.timestamp == ws[|ws| - 1].timestamp
  {
    var r := AverageWeightsByDay(ws, localDay);
    var i := LatestOfDayWithin(ws, localDay, |ws| - 1);
    ChronologicalForSortedInput(ws, localDay);
    RecordsNotAfterLast(ws, localDay, |r| - 1);
    LastOfIncreasing(r, ws[|ws| - 1].timestamp, i);
  }

  /** In a list of non-decreasing timestamps, a bound `t` that some record reaches
      and the last record does not exceed is the last record's timestamp. */
  lemma LastOfIncreasing(r: seq<Entry>, t: int, i: nat)
    requires i < |r| && t <= r[i].timestamp && r[|r| - 1].timestamp <= t
    requires forall i, j :: 0 <= i <= j < |r| ==> r[i].timestamp <= r[j].timestamp
    ensures r[|r| - 1].timestamp == t
  {
    assert r[i].timestamp <= r[|r| - 1].timestamp;
  }

  lemma RecordsNotAfterLast(ws: seq<Entry>, localDay: int -> int, i: nat)
    requires forall i, j :: 0 <= i < j < |ws| ==> ws[i].timestamp <= ws[j].timestamp
    requires i < |AverageWeightsByDay(ws, localDay)|
    ensures AverageWeightsByDay(ws, localDay)[i].timestamp <= ws[|ws| - 1].timestamp
  {
    var r := AverageWeightsByDay(ws, localDay);
    AverageWeightsByDaySpec(ws, localDay);
    var m := DayEntries(ws, localDay, localDay(r[i].timestamp));
    MemberOfDayIsInput(m, ws, localDay, localDay(r[i].timestamp));
    AverageDayIsLatest(m);
  }

  /** `calculateWeightChange`: zeros for no entries, otherwise the first and last daily
      weights and their difference. */
  function CalculateWeightChange(ws: seq<Entry>, localDay: int -> int): (r: WeightChange)
    ensures |ws| == 0 ==> r == WeightChange(0.0, 0.0, 0.0)
    ensures r.change == r.current - r.start
    ensures |ws| > 0 ==> r.current == GetLatestWeight(ws, localDay).value.weight
    ensures |ws| > 0 ==> r.start == AverageWeightsByDay(ws, localDay)[0].weight
  {
    if |ws| == 0 then WeightChange(0.0, 0.0, 0.0) else ChangeOf(AverageWeightsByDay(ws, localDay))
  }

  /** For time-sorted input the first daily record, whose weight is the starting
      weight, is the aggregate of the entries of the first entry's day. */
  lemma StartIsFirstDay(ws: seq<Entry>, localDay: int -> int)
    requires |ws| > 0
    requires forall i, j :: 0 <= i < j < |ws| ==> ws[i].timestamp <= ws[j].timestamp
    requires forall a, b :: a <= b ==> localDay(a) <= localDay(b)
    ensures var a := AverageWeightsByDay(ws, localDay)[0];
      var m := DayEntries(ws, localDay, localDay(ws[0].timestamp));
      && localDay(a.timestamp) == localDay(ws[0].timestamp)
      && |m| > 0 && a == AverageDay(m)
      && CalculateWeightChange(ws, localDay).start == a.weight
  {
    var r := AverageWeightsByDay(ws, localDay);
    var i := LatestOfDayWithin(ws, localDay, 0);
    var q := FirstRecordOfItsDay(ws, localDay);
    ChronologicalForSortedInput(ws, localDay);
    SameFirstDay(r, ws, localDay, i, q);
  }

  /** The first daily record aggregates the entries of its own day, which holds some entry. */
  lemma FirstRecordOfItsDay(ws: seq<Entry>, localDay: int -> int) returns (q: nat)
    requires |ws| > 0
    ensures var r := AverageWeightsByDay(ws, localDay);
      var m := DayEntries(ws, localDay, localDay(r[0].timestamp));
      && q < |ws| && localDay(ws[q].timestamp) == localDay(r[0].timestamp)
      && |m| > 0 && r[0] == AverageDay(m)
  {
    var r := AverageWeightsByDay(ws, localDay);
    AverageWeightsByDaySpec(ws, localDay);
    var m := DayEntries(ws, localDay, localDay(r[0].timestamp));
    assert m[0] in m;
    q :| 0 <= q < |ws| && ws[q] == m[0];
  }

  /** When the days of the records and the times of the entries never decrease, a record
      on the first entry's day and an entry on the first record's day put both firsts on
      the same day. */
  lemma SameFirstDay(r: seq<Entry>, ws: seq<Entry>, localDay: int -> int, i: nat, q: nat)
    requires i < |r| && q < |ws|
    requires localDay(r[i].timestamp) == localDay(ws[0].timestamp)
    requires localDay(ws[q].timestamp) == localDay(r[0].timestamp)
    requires forall i, j :: 0 <= i <= j < |r| ==> localDay(r[i].timestamp) <= localDay(r[j].timestamp)
    requires forall i, j :: 0 <= i <= j < |ws| ==> ws[i].timestamp <= ws[j].timestamp
    requires forall a, b :: a <= b ==> localDay(a) <= localDay(b)
    ensures localDay(r[0].timestamp) == localDay(ws[0].timestamp)
  {
    assert localDay(r[0].timestamp) <= localDay(r[i].timestamp);
    assert ws[0].timestamp <= ws[q].timestamp;
  }

  /** A single measurement of weight `w` reports `{current: w, start: w, change: 0}`. */
  lemma SingleEntryChange(e: Entry, localDay: int -> int)
    ensures CalculateWeightChange([e], localDay) == WeightChange(e.weight, e.weight, 0.0)
  {
    assert [e][..0] == [];
    assert GroupBy([e], DayKey(localDay)) == [Group(localDay(e.timestamp), [e])];
    assert AverageWeightsByDay([e], localDay) == [AverageDay([e])];
  }
}
