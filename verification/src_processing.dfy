/** The daily aggregation of the local-storage variant (`src/utils/dataProcessing.js`):
    entries are grouped by their stored `date` string, averaged days also list their
    clock times, the daily list is sorted by date, and the chart keeps the last N days.

    `clockOf` is the `HH:mm` formatting of an instant, `parseDate` the instant
    `new Date(date)` denotes, and `labelOf` the chart-label formatting of a date. */
module SrcProcessing {
  import opened Wrappers
  import opened Records
  import opened Grouping
  import opened Daily
  import Seqs
  import Sorting
  import Strings

  function DateOf(e: Entry): string {
    e.date
  }

  /** `entry.time || format(new Date(entry.timestamp), 'HH:mm')`. */
  function ClockTime(e: Entry, clockOf: int -> string): string {
    if e.time != "" then e.time else clockOf(e.timestamp)
  }

  function ClockTimes(m: seq<Entry>, clockOf: int -> string): (t: seq<string>)
    ensures |t| == |m|
    ensures forall i :: 0 <= i < |m| ==> t[i] == ClockTime(m[i], clockOf)
  {
    seq(|m|, i requires 0 <= i < |m| => ClockTime(m[i], clockOf))
  }

  /** The daily record of the date variant for the entries `m` of one date: a lone entry
      passes through unchanged; several become the latest entry carrying their rounded
      mean weight, their count, their clock times in order and the range they span. */
  function AverageDayWithTimes(m: seq<Entry>, clockOf: int -> string): (r: Entry)
    requires |m| > 0
    ensures |m| == 1 ==> r == m[0]
    ensures |m| > 1 ==> SameBase(r, m[LatestIndex(m)]) && r.weight == RoundToTenth(Mean(m))
    ensures |m| > 1 ==> r.decoration.AveragedWithTimes? && r.decoration.originalEntries == |m|
  {
    if |m| == 1 then m[0]
    else
      var times := Sorting.SortBy(ClockTimes(m, clockOf), Strings.LexLe);
      // several entries give several times, so the range always has two ends here
      var range := times[0] + "-" + times[|times| - 1];
      m[LatestIndex(m)].(weight := RoundToTenth(Mean(m)),
                          decoration := AveragedWithTimes(|m|, times, range))
  }

  /** An averaged day lists the clock times of all its entries in string order, and
      its time range joins the first and the last of them. */
  lemma AverageDayTimes(m: seq<Entry>, clockOf: int -> string)
    requires |m| > 1
    ensures var d := AverageDayWithTimes(m, clockOf).decoration;
      && |d.times| == |m|
      && multiset(d.times) == multiset(ClockTimes(m, clockOf))
      && Sorting.Sorted(d.times, Strings.LexLe)
      && d.timeRange == d.times[0] + "-" + d.times[|d.times| - 1]
  {
    Strings.LexLeIsTotalPreorder();
    Sorting.SortBySorted(ClockTimes(m, clockOf), Strings.LexLe);
  }

  /** The time range runs from the earliest to the latest clock time of the day. */
  lemma TimeRangeSpansDay(m: seq<Entry>, clockOf: int -> string)
    requires |m| > 1
    ensures var d := AverageDayWithTimes(m, clockOf).decoration;
      forall i :: 0 <= i < |m| ==>
        Strings.LexLe(d.times[0], ClockTime(m[i], clockOf))
        && Strings.LexLe(ClockTime(m[i], clockOf), d.times[|d.times| - 1])
  {
    var t := AverageDayWithTimes(m, clockOf).decoration.times;
    var c := ClockTimes(m, clockOf);
    AverageDayTimes(m, clockOf);
    forall i | 0 <= i < |m|
      ensures Strings.LexLe(t[0], c[i]) && Strings.LexLe(c[i], t[|t| - 1])
    {
      assert c[i] in multiset(c);
      assert c[i] in multiset(t);
      var k :| 0 <= k < |t| && t[k] == c[i];
      if k > 0 { assert Strings.LexLe(t[0], t[k]); } else { Strings.LexLeTotal(t[0], t[0]); }
      if k < |t| - 1 { assert Strings.LexLe(t[k], t[|t| - 1]); } else { Strings.LexLeTotal(t[k], t[k]); }
    }
  }

  function AverageGroups(gs: seq<Group<string, Entry>>, clockOf: int -> string): (r: seq<Entry>)
    requires forall i :: 0 <= i < |gs| ==> |gs[i].members| > 0
    ensures |r| == |gs|
    ensures forall i :: 0 <= i < |gs| ==> r[i] == AverageDayWithTimes(gs[i].members, clockOf)
  {
    seq(|gs|, i requires 0 <= i < |gs| => AverageDayWithTimes(gs[i].members, clockOf))
  }

  /** `(a, b) => new Date(a.date) - new Date(b.date)` as an ordering. */
  function ByDate(parseDate: string -> int): (Entry, Entry) -> bool {
    (a: Entry, b: Entry) => parseDate(a.date) <= parseDate(b.date)
  }

  lemma ByDateIsTotalPreorder(parseDate: string -> int)
    ensures Sorting.TotalPreorder(ByDate(parseDate))
  {
  }

  /** The daily records in first-occurrence order, before the final sort. */
  function Aggregates(ws: seq<Entry>, clockOf: int -> string): (r: seq<Entry>)
    ensures |r| == 0 <==> |ws| == 0
  {
    GroupByMembers(ws, DateOf);
    AverageGroups(GroupBy(ws, DateOf), clockOf)
  }

  /** The dates the entries of `s` carry. */
  ghost function DatesOf(s: seq<Entry>): set<string> {
    set i | 0 <= i < |s| :: s[i].date
  }

  /** What a list of daily records of `ws` holds: one record per `date`, each the
      aggregate of precisely that date's entries. */
  ghost predicate DailyRecordsOf(r: seq<Entry>, ws: seq<Entry>, clockOf: int -> string) {
    && Seqs.DistinctBy(r, DateOf)
    && DatesOf(ws) <= DatesOf(r)
    && (forall i :: 0 <= i < |r| ==>
          |Members(ws, DateOf, r[i].date)| > 0
          && r[i] == AverageDayWithTimes(Members(ws, DateOf, r[i].date), clockOf))
  }

  /** Each daily record carries the date of the group it was made from. */
  lemma AggregatesDates(ws: seq<Entry>, clockOf: int -> string)
    ensures var gs := GroupBy(ws, DateOf); var aggs := Aggregates(ws, clockOf);
      |aggs| == |gs| && forall i :: 0 <= i < |gs| ==> aggs[i].date == gs[i].key
  {
    var gs := GroupBy(ws, DateOf);
    GroupByMembers(ws, DateOf);
    var aggs := Aggregates(ws, clockOf);
    forall i | 0 <= i < |gs| ensures aggs[i].date == gs[i].key {
      var m := gs[i].members;
      var k := if |m| == 1 then 0 else LatestIndex(m);
      assert m[k] in Members(ws, DateOf, gs[i].key);
    }
  }

  lemma AggregatesSpec(ws: seq<Entry>, clockOf: int -> string)
    ensures DailyRecordsOf(Aggregates(ws, clockOf), ws, clockOf)
  {
    GroupByMembers(ws, DateOf);
    AggregatesDates(ws, clockOf);
    RecordsOfGroups(Aggregates(ws, clockOf), GroupBy(ws, DateOf), ws, clockOf);
  }

  /** One aggregate per group of a grouping by date, in the same order, are the daily
      records of the grouped entries. */
  lemma RecordsOfGroups(aggs: seq<Entry>, gs: seq<Group<string, Entry>>, ws: seq<Entry>,
                        clockOf: int -> string)
    requires GroupsOf(gs, ws, DateOf) && DistinctKeys(gs)
    requires |aggs| == |gs|
    requires forall i :: 0 <= i < |gs| ==>
      aggs[i].date == gs[i].key && aggs[i] == AverageDayWithTimes(gs[i].members, clockOf)
    ensures DailyRecordsOf(aggs, ws, clockOf)
  {
    forall d | d in DatesOf(ws) ensures d in DatesOf(aggs) {
      var k :| 0 <= k < |ws| && ws[k].date == d;
      assert HasKey(gs, DateOf(ws[k]));
      var j :| 0 <= j < |gs| && gs[j].key == d;
      assert aggs[j].date == d;
    }
  }

  /** Reordering daily records keeps them the daily records of the same entries. */
  lemma DailyRecordsPermutation(a: seq<Entry>, b: seq<Entry>, ws: seq<Entry>, clockOf: int -> string)
    requires multiset(a) == multiset(b)
    requires DailyRecordsOf(a, ws, clockOf)
    ensures DailyRecordsOf(b, ws, clockOf)
  {
    Seqs.DistinctByPermutation(a, b, DateOf);
    forall d | d in DatesOf(a) ensures d in DatesOf(b) {
      var j :| 0 <= j < |a| && a[j].date == d;
      assert a[j] in multiset(b);
      var i :| 0 <= i < |b| && b[i] == a[j];
    }
    forall i | 0 <= i < |b|
      ensures |Members(ws, DateOf, b[i].date)| > 0
              && b[i] == AverageDayWithTimes(Members(ws, DateOf, b[i].date), clockOf)
    {
      assert b[i] in multiset(a);
      var j :| 0 <= j < |a| && a[j] == b[i];
    }
  }

  /** `averageWeightsByDay`: one record per `date`, sorted by date. */
  function AverageWeightsByDay(ws: seq<Entry>, clockOf: int -> string, parseDate: string -> int)
    : (r: seq<Entry>)
    ensures |r| == 0 <==> |ws| == 0
    ensures forall i, j :: 0 <= i < j < |r| ==> parseDate(r[i].date) <= parseDate(r[j].date)
    ensures multiset(r) == multiset(Aggregates(ws, clockOf))
  {
    if |ws| == 0 then []
    else
      var aggs := Aggregates(ws, clockOf);
      ByDateIsTotalPreorder(parseDate);
      Sorting.SortBySorted(aggs, ByDate(parseDate));
      var r := Sorting.SortBy(aggs, ByDate(parseDate));
      assert forall i, j :: 0 <= i < j < |r| ==> ByDate(parseDate)(r[i], r[j]);
      r
  }

  /** The daily list holds exactly one record per `date` of the input, no date twice,
      and each record is the aggregate of precisely that date's entries. */
  lemma AverageWeightsByDaySpec(ws: seq<Entry>, clockOf: int -> string, parseDate: string -> int)
    ensures DailyRecordsOf(AverageWeightsByDay(ws, clockOf, parseDate), ws, clockOf)
  {
    AggregatesSpec(ws, clockOf);
    DailyRecordsPermutation(Aggregates(ws, clockOf), AverageWeightsByDay(ws, clockOf, parseDate), ws, clockOf);
  }

  /** `averageWeightsByDay(weights).slice(-days)`: a positive count keeps that many
      records from the end, zero keeps all, a negative count drops that many from the front. */
  function SliceFromEnd(s: seq<Entry>, days: int): (r: seq<Entry>)
    ensures days >= 1 ==> |r| == (if days < |s| then days else |s|)
    ensures days == 0 ==> r == s
    ensures days < 0 ==> |r| == (if -days < |s| then |s| + days else 0)
    ensures |r| <= |s| && r == s[|s| - |r|..]
  {
    var start := -days;
    var from := if start < 0 then (if |s| + start > 0 then |s| + start else 0)
                else (if start < |s| then start else |s|);
    s[from..]
  }

  /** `entry.timeRange || entry.time || null`. */
  function TimeRangeOf(a: Entry): Option<string> {
    if a.decoration.AveragedWithTimes? && a.decoration.timeRange != "" then Some(a.decoration.timeRange)
    else if a.time != "" then Some(a.time)
    else None
  }

  function ToPoint(a: Entry, text: string): (p: ChartPoint)
    ensures p.weight == a.weight && p.date == text && p.goal.None?
    ensures p.isAveraged == IsAveraged(a) && p.originalEntries == OriginalEntries(a)
    ensures p.originalEntries >= 1 && (IsRaw(a) ==> !p.isAveraged && p.originalEntries == 1)
    ensures a.decoration.AveragedWithTimes? && a.decoration.timeRange != ""
            ==> p.timeRange == Some(a.decoration.timeRange)
    ensures !(a.decoration.AveragedWithTimes? && a.decoration.timeRange != "") && a.time != ""
            ==> p.timeRange == Some(a.time)
    ensures !(a.decoration.AveragedWithTimes? && a.decoration.timeRange != "") && a.time == ""
            ==> p.timeRange.None?
  {
    ChartPoint(text, a.weight, IsAveraged(a), OriginalEntries(a), TimeRangeOf(a), None)
  }

  /** `r` is the chart of the last `days` records of the daily list `aggs`: a positive
      count keeps that many records from the end, zero keeps all, and each point is
      built from its record and labelled from the record's date. */
  ghost predicate ChartOf(r: seq<ChartPoint>, aggs: seq<Entry>, days: int,
                          labelOf: (string, LabelFormat) -> string, fmt: LabelFormat) {
    && (days >= 1 ==> |r| == if days < |aggs| then days else |aggs|)
    && (days == 0 ==> |r| == |aggs|)
    && |r| <= |aggs|
    && forall i :: 0 <= i < |r| ==>
         var a := aggs[|aggs| - |r| + i];
         r[i] == ToPoint(a, labelOf(a.date, fmt))
  }

  /** `prepareChartData(weights, days, dateFormat)`: the last `days` daily records as
      chart points, labelled from their `date`. */
  function PrepareChartData(ws: seq<Entry>, days: int, clockOf: int -> string,
                            parseDate: string -> int, labelOf: (string, LabelFormat) -> string,
                            fmt: LabelFormat): (r: seq<ChartPoint>)
    ensures ChartOf(r, AverageWeightsByDay(ws, clockOf, parseDate), days, labelOf, fmt)
  {
    RecentPoints(AverageWeightsByDay(ws, clockOf, parseDate), days, labelOf, fmt)
  }

  /** The chart points of the last `days` records of a daily list `aggs`. */
  function RecentPoints(aggs: seq<Entry>, days: int, labelOf: (string, LabelFormat) -> string,
                        fmt: LabelFormat): (r: seq<ChartPoint>)
    ensures ChartOf(r, aggs, days, labelOf, fmt)
  {
    var recent := SliceFromEnd(aggs, days);
    var r := seq(|recent|, i requires 0 <= i < |recent| => ToPoint(recent[i], labelOf(recent[i].date, fmt)));
    RecentIsChart(r, recent, aggs, days, labelOf, fmt);
    r
  }

  lemma RecentIsChart(r: seq<ChartPoint>, recent: seq<Entry>, aggs: seq<Entry>, days: int,
                      labelOf: (string, LabelFormat) -> string, fmt: LabelFormat)
    requires recent == SliceFromEnd(aggs, days)
    requires |r| == |recent|
    requires forall i :: 0 <= i < |recent| ==> r[i] == ToPoint(recent[i], labelOf(recent[i].date, fmt))
    ensures ChartOf(r, aggs, days, labelOf, fmt)
  {
    forall i | 0 <= i < |r|
      ensures r[i] == ToPoint(aggs[|aggs| - |r| + i], labelOf(aggs[|aggs| - |r| + i].date, fmt))
    {
      assert recent[i] == aggs[|aggs| - |r| + i];
    }
  }

  /** `getLatestWeight`: `null` for no entries, otherwise the last daily record. */
  function GetLatestWeight(ws: seq<Entry>, clockOf: int -> string, parseDate: string -> int)
    : (r: Option<Entry>)
    ensures r.None? <==> |ws| == 0
  {
    if |ws| == 0 then None else LatestOf(AverageWeightsByDay(ws, clockOf, parseDate))
  }

  /** `r` holds one record for each date of `ws` and no other date. */
  ghost predicate SameDates(r: seq<Entry>, ws: seq<Entry>) {
    Seqs.DistinctBy(r, DateOf) && DatesOf(r) == DatesOf(ws)
  }

  /** The dates of the daily list are exactly the input's dates, each once. */
  lemma AverageWeightsByDayDates(ws: seq<Entry>, clockOf: int -> string, parseDate: string -> int)
    ensures SameDates(AverageWeightsByDay(ws, clockOf, parseDate), ws)
  {
    AverageWeightsByDaySpec(ws, clockOf, parseDate);
    DailyRecordsDates(AverageWeightsByDay(ws, clockOf, parseDate), ws, clockOf);
  }

  lemma DailyRecordsDates(r: seq<Entry>, ws: seq<Entry>, clockOf: int -> string)
    requires DailyRecordsOf(r, ws, clockOf)
    ensures SameDates(r, ws)
  {
    forall d | d in DatesOf(r) ensures d in DatesOf(ws) {
      var i :| 0 <= i < |r| && r[i].date == d;
      var k := RecordDateOccurs(r, ws, clockOf, i);
    }
  }

  /** In a date-sorted list holding every date of `ws`, the last record carries the
      latest of those dates. */
  lemma LastRecordHasLatestDate(r: seq<Entry>, ws: seq<Entry>, parseDate: string -> int)
    requires SameDates(r, ws) && |ws| > 0
    requires forall i, j :: 0 <= i < j < |r| ==> parseDate(r[i].date) <= parseDate(r[j].date)
    ensures |r| > 0
    ensures forall k :: 0 <= k < |ws| ==> parseDate(ws[k].date) <= parseDate(r[|r| - 1].date)
  {
    assert ws[0].date in DatesOf(ws);
    forall k | 0 <= k < |ws| ensures parseDate(ws[k].date) <= parseDate(r[|r| - 1].date) {
      assert ws[k].date in DatesOf(r);
      var i :| 0 <= i < |r| && r[i].date == ws[k].date;
      if i < |r| - 1 {
        assert parseDate(r[i].date) <= parseDate(r[|r| - 1].date);
      }
    }
  }

  /** The latest weight is the daily record of the latest date. */
  lemma LatestIsLatestDate(ws: seq<Entry>, clockOf: int -> string, parseDate: string -> int)
    requires |ws| > 0
    ensures var r := GetLatestWeight(ws, clockOf, parseDate).value;
      forall k :: 0 <= k < |ws| ==> parseDate(ws[k].date) <= parseDate(r.date)
  {
    var aggs := AverageWeightsByDay(ws, clockOf, parseDate);
    AverageWeightsByDayDates(ws, clockOf, parseDate);
    LastRecordHasLatestDate(aggs, ws, parseDate);
  }

  /** The latest weight aggregates all the entries of its date. */
  lemma LatestAggregatesItsDate(ws: seq<Entry>, clockOf: int -> string, parseDate: string -> int)
    requires |ws| > 0
    ensures var r := GetLatestWeight(ws, clockOf, parseDate).value;
      |Members(ws, DateOf, r.date)| > 0 && r == AverageDayWithTimes(Members(ws, DateOf, r.date), clockOf)
  {
    var aggs := AverageWeightsByDay(ws, clockOf, parseDate);
    AverageWeightsByDaySpec(ws, clockOf, parseDate);
    assert GetLatestWeight(ws, clockOf, parseDate).value == aggs[|aggs| - 1];
  }

  /** `calculateWeightChange`: zeros for no entries, otherwise the earliest and latest
      dates' weights and their difference. */
  function CalculateWeightChange(ws: seq<Entry>, clockOf: int -> string, parseDate: string -> int)
    : (r: WeightChange)
    ensures |ws| == 0 ==> r == WeightChange(0.0, 0.0, 0.0)
    ensures r.change == r.current - r.start
    ensures |ws| > 0 ==> r.current == GetLatestWeight(ws, clockOf, parseDate).value.weight
    ensures |ws| > 0 ==> r.start == AverageWeightsByDay(ws, clockOf, parseDate)[0].weight
  {
    if |ws| == 0 then WeightChange(0.0, 0.0, 0.0)
    else ChangeOf(AverageWeightsByDay(ws, clockOf, parseDate))
  }

  /** In a date-sorted list holding every date of `ws`, the first record carries the
      earliest of those dates. */
  lemma FirstRecordHasEarliestDate(r: seq<Entry>, ws: seq<Entry>, parseDate: string -> int)
    requires SameDates(r, ws) && |ws| > 0
    requires forall i, j :: 0 <= i < j < |r| ==> parseDate(r[i].date) <= parseDate(r[j].date)
    ensures |r| > 0
    ensures forall k :: 0 <= k < |ws| ==> parseDate(r[0].date) <= parseDate(ws[k].date)
  {
    assert ws[0].date in DatesOf(ws);
    forall k | 0 <= k < |ws| ensures parseDate(r[0].date) <= parseDate(ws[k].date) {
      assert ws[k].date in DatesOf(r);
      var i :| 0 <= i < |r| && r[i].date == ws[k].date;
      if i > 0 {
        assert parseDate(r[0].date) <= parseDate(r[i].date);
      }
    }
  }

  /** The starting weight is that of the daily record of the earliest date, which
      aggregates all the entries of that date. */
  lemma StartIsEarliestDate(ws: seq<Entry>, clockOf: int -> string, parseDate: string -> int)
    requires |ws| > 0
    ensures var a := AverageWeightsByDay(ws, clockOf, parseDate)[0];
      && (forall k :: 0 <= k < |ws| ==> parseDate(a.date) <= parseDate(ws[k].date))
      && |Members(ws, DateOf, a.date)| > 0
      && a == AverageDayWithTimes(Members(ws, DateOf, a.date), clockOf)
      && CalculateWeightChange(ws, clockOf, parseDate).start == a.weight
  {
    var aggs := AverageWeightsByDay(ws, clockOf, parseDate);
    AverageWeightsByDaySpec(ws, clockOf, parseDate);
    AverageWeightsByDayDates(ws, clockOf, parseDate);
    FirstRecordHasEarliestDate(aggs, ws, parseDate);
  }

  /** Every daily record's date is the date of some entry. */
  lemma RecordDateOccurs(r: seq<Entry>, ws: seq<Entry>, clockOf: int -> string, i: nat)
    returns (k: nat)
    requires DailyRecordsOf(r, ws, clockOf)
    requires i < |r|
    ensures k < |ws| && ws[k].date == r[i].date
  {
    var m := Members(ws, DateOf, r[i].date);
    assert m[0] in m;
    k :| 0 <= k < |ws| && ws[k] == m[0];
  }

  /** Records for the dates of entries that all share one date: a single record. */
  lemma OneDateOneRecord(r: seq<Entry>, ws: seq<Entry>)
    requires SameDates(r, ws) && |ws| > 0
    requires forall k :: 0 <= k < |ws| ==> ws[k].date == ws[0].date
    ensures |r| == 1
  {
    assert ws[0].date in DatesOf(ws);
    forall i | 0 <= i < |r| ensures DateOf(r[i]) == ws[0].date {
      assert r[i].date in DatesOf(ws);
    }
    Seqs.DistinctBySingleKey(r, DateOf, ws[0].date);
  }

  /** All entries on one date: the change is zero. */
  lemma SingleDateNoChange(ws: seq<Entry>, clockOf: int -> string, parseDate: string -> int)
    requires |ws| > 0
    requires forall k :: 0 <= k < |ws| ==> ws[k].date == ws[0].date
    ensures CalculateWeightChange(ws, clockOf, parseDate).change == 0.0
  {
    var r := AverageWeightsByDay(ws, clockOf, parseDate);
    AverageWeightsByDayDates(ws, clockOf, parseDate);
    OneDateOneRecord(r, ws);
    SingleDayNoChange(r);
  }
}
