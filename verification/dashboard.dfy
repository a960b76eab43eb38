/** The two dashboards (`frontend/pages/Dashboard.jsx` and `src/pages/Dashboard.jsx`): the
    quick-entry form, the chart with its goal line, and the y-axis bounds. Both pages
    compute the chart and the axis the same way; they differ in the timestamp they give a
    new entry and in where they save it. */
module DashboardPage {
  import opened Wrappers
  import opened Records
  import opened Store
  import opened Charts
  import FrontendProcessing
  import SrcProcessing
  import DataService
  import Sorting

  /** The form's default weight after loading: the last stored entry's weight. */
  function DefaultWeight(ws: seq<Entry>): (w: Option<real>)
    ensures w.None? <==> |ws| == 0
    ensures w.Some? ==> exists i :: 0 <= i < |ws| && ws[i].weight == w.value
    ensures w.Some? ==> w.value == ws[|ws| - 1].weight
  {
    if |ws| == 0 then None else Some(ws[|ws| - 1].weight)
  }

  /** On the time-sorted stored list the default is the weight of an entry no other
      entry is later than. */
  lemma DefaultIsLatest(ws: seq<Entry>) returns (k: nat)
    requires TimeSorted(ws) && |ws| > 0
    ensures k < |ws| && DefaultWeight(ws) == Some(ws[k].weight)
    ensures forall i :: 0 <= i < |ws| ==> ws[i].timestamp <= ws[k].timestamp
  {
    k := |ws| - 1;
  }

  /** The entry the frontend form creates: the chosen date at the current time of day. */
  function FrontendEntry(id: int, weight: real, date: string, atNow: string -> int): Entry {
    Entry(id, weight, date, "", atNow(date), false, Plain)
  }

  /** The frontend `addWeight`: nothing happens without a weight or a date; otherwise the
      entry goes through the storage service, which re-sorts and saves the list. */
  function FrontendAddWeight(s: Store, weightText: string, date: string, id: int, weight: real,
                             atNow: string -> int): (r: Store)
    ensures weightText == "" || date == "" ==> r == s
    ensures weightText != "" && date != "" ==>
      && |LoadWeights(r)| == |LoadWeights(s)| + 1
      && multiset(LoadWeights(r)) == multiset(LoadWeights(s)) + multiset{FrontendEntry(id, weight, date, atNow)}
      && TimeSorted(LoadWeights(r))
    ensures r.goal == s.goal && r.demoGoalFlag == s.demoGoalFlag
  {
    if weightText == "" || date == "" then s
    else DataService.AddWeight(s, FrontendEntry(id, weight, date, atNow)).0
  }

  /** An entry not earlier than any stored one becomes the last entry, so a reload offers
      its weight as the default. */
  lemma DefaultAfterLatestAdd(s: Store, weightText: string, date: string, id: int, weight: real,
                              atNow: string -> int)
    requires weightText != "" && date != ""
    requires TimeSorted(LoadWeights(s))
    requires forall i :: 0 <= i < |LoadWeights(s)| ==> LoadWeights(s)[i].timestamp <= atNow(date)
    ensures DefaultWeight(LoadWeights(FrontendAddWeight(s, weightText, date, id, weight, atNow)))
            == Some(weight)
  {
    var ws := LoadWeights(s);
    var e := FrontendEntry(id, weight, date, atNow);
    var le := ByTimestamp();
    assert Sorting.Sorted(ws, le);
    Sorting.SortBySortedIsIdentity(ws, le);
    assert (ws + [e])[..|ws|] == ws;
    assert Sorting.SortBy(ws + [e], le) == Sorting.Insert(ws, e, le);
    Sorting.InsertGreatest(ws, e, le);
  }

  /** The entry the local-storage form creates: the chosen date at noon. */
  function SrcEntry(id: int, weight: real, date: string, noonOf: string -> int): Entry {
    Entry(id, weight, date, "", noonOf(date), false, Plain)
  }

  /** The local-storage `addWeight`: nothing happens without a weight or a date;
      otherwise the entry joins the list, which is re-sorted by timestamp and saved. */
  function SrcAddWeight(s: Store, weightText: string, date: string, id: int, weight: real,
                        noonOf: string -> int): (r: Store)
    ensures weightText == "" || date == "" ==> r == s
    ensures weightText != "" && date != "" ==>
      && |LoadWeights(r)| == |LoadWeights(s)| + 1
      && multiset(LoadWeights(r)) == multiset(LoadWeights(s)) + multiset{SrcEntry(id, weight, date, noonOf)}
      && TimeSorted(LoadWeights(r))
    ensures r.goal == s.goal && r.demoGoalFlag == s.demoGoalFlag
  {
    if weightText == "" || date == "" then s
    else SaveWeights(s, AddSorted(LoadWeights(s), SrcEntry(id, weight, date, noonOf)))
  }

  /** The frontend `getChartData`: the prepared points of the period, labelled `MMM dd`
      for a week and `MM/dd` otherwise, with the goal line added. */
  function FrontendChartData(ws: seq<Entry>, period: int, now: int, localDay: int -> int,
                             format: (int, LabelFormat) -> string, goalWeight: real)
    : (r: seq<ChartPoint>)
    ensures |r| == |FrontendProcessing.WindowedDays(ws, period, now, localDay)|
    ensures forall i :: 0 <= i < |r| ==>
      var a := FrontendProcessing.WindowedDays(ws, period, now, localDay)[i];
      && r[i].(goal := None) == FrontendProcessing.ToPoint(a, format(a.timestamp, LabelFormatFor(period)))
      && r[i].date == format(a.timestamp, if period <= 7 then MonthNameDay else MonthSlashDay)
      && (r[i].goal.None? <==> goalWeight == 0.0)
      && (r[i].goal.Some? ==> r[i].goal.value == goalWeight)
  {
    var points := FrontendProcessing.PrepareChartData(ws, period, now, localDay, format, LabelFormatFor(period));
    DecorateGoal(points, goalWeight)
  }

  /** The local-storage `getChartData`: the same decoration over the date-sorted daily
      records of the period. */
  function SrcChartData(ws: seq<Entry>, period: int, clockOf: int -> string,
                        parseDate: string -> int, labelOf: (string, LabelFormat) -> string,
                        goalWeight: real): (r: seq<ChartPoint>)
    ensures |r| == |SrcProcessing.PrepareChartData(ws, period, clockOf, parseDate, labelOf, LabelFormatFor(period))|
    ensures forall i :: 0 <= i < |r| ==>
      var p := SrcProcessing.PrepareChartData(ws, period, clockOf, parseDate, labelOf, LabelFormatFor(period))[i];
      && r[i].(goal := None) == p
      && (r[i].goal.None? <==> goalWeight == 0.0)
      && (r[i].goal.Some? ==> r[i].goal.value == goalWeight)
  {
    var points := SrcProcessing.PrepareChartData(ws, period, clockOf, parseDate, labelOf, LabelFormatFor(period));
    DecorateGoal(points, goalWeight)
  }

  /** The values the y-axis must show: the plotted weights, and the goal when positive. */
  function AxisValues(points: seq<ChartPoint>, goalWeight: real): (vs: seq<real>)
    ensures |vs| >= |points|
    ensures forall i :: 0 <= i < |points| ==> points[i].weight in vs
    ensures goalWeight > 0.0 ==> goalWeight in vs
    ensures forall v :: v in vs ==> v == goalWeight || exists i :: 0 <= i < |points| && points[i].weight == v
  {
    var ws := Weights(points);
    assert forall i :: 0 <= i < |points| ==> ws[i] in ws;
    if goalWeight > 0.0 then ws + [goalWeight] else ws
  }

  /** `getYAxisDomain`: automatic without points; otherwise the shown values widened by a
      tenth of their range but at least 5 on each side, the lower bound rounded down and
      cut off at 0, the upper bound rounded up. */
  function YAxisDomain(points: seq<ChartPoint>, goalWeight: real): (d: Domain)
    ensures d.Auto? <==> |points| == 0
    ensures d.Bounds? ==> 0 <= d.lo
    ensures d.Bounds? ==> forall v :: v in AxisValues(points, goalWeight) ==>
      (v >= 0.0 ==> d.lo as real <= v) && v + 5.0 <= d.hi as real
    ensures |points| > 0 ==> PaddedAround(d, AxisValues(points, goalWeight), 5.0)
  {
    if |points| == 0 then Auto else PaddedBounds(AxisValues(points, goalWeight))
  }

  /** The bounds around the non-empty values `vs`. */
  function PaddedBounds(vs: seq<real>): (d: Domain)
    requires |vs| > 0
    ensures d.Bounds? && 0 <= d.lo
    ensures forall v :: v in vs ==> (v >= 0.0 ==> d.lo as real <= v) && v + 5.0 <= d.hi as real
    ensures PaddedAround(d, vs, 5.0)
  {
    var lo := SeqMin(vs);
    var hi := SeqMax(vs);
    var padding := MaxReal((hi - lo) * 0.1, 5.0);
    var yMin := (lo - padding).Floor;
    Bounds(if yMin > 0 then yMin else 0, Ceil(hi + padding))
  }

  /** With a positive goal the chart's axis shows the goal line with room to spare, and
      every non-negative plotted weight. */
  lemma GoalLineVisible(points: seq<ChartPoint>, goalWeight: real)
    requires |points| > 0 && goalWeight > 0.0
    ensures var d := YAxisDomain(points, goalWeight);
      && d.lo as real <= goalWeight && goalWeight + 5.0 <= d.hi as real
      && forall i :: 0 <= i < |points| ==> points[i].weight >= 0.0 ==> d.lo as real <= points[i].weight
  {
    var d := YAxisDomain(points, goalWeight);
    var vs := AxisValues(points, goalWeight);
    assert goalWeight in vs;
    forall i | 0 <= i < |points| && points[i].weight >= 0.0 ensures d.lo as real <= points[i].weight {
      assert points[i].weight in vs;
    }
  }
}
