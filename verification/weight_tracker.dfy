/** The weight page of the local-storage variant (`src/pages/WeightTracker.jsx`): the
    entry form, deletion, progress towards the goal, the list of recent records and the
    chart's y-axis. The page keeps its list equal to the stored one, so its operations
    are written on the store. */
module WeightTrackerPage {
  import opened Wrappers
  import opened Records
  import opened Store
  import opened Charts
  import Seqs
  import SrcProcessing
  import DataService
  import FakeData

  /** The entry the form creates: `timestamp` is the instant of `${date}T${time}:00`,
      `id` the current clock reading and `weight` the parsed weight field. */
  function NewEntry(id: int, weight: real, date: string, time: string,
                    instantOf: (string, string) -> int): Entry {
    Entry(id, weight, date, time, instantOf(date, time), false, Plain)
  }

  /** `addWeight`: with an empty weight, date or time field nothing happens; otherwise
      the new entry joins the list, which is re-sorted by timestamp and saved. */
  function AddWeight(s: Store, weightText: string, date: string, time: string, id: int,
                     weight: real, instantOf: (string, string) -> int): (r: Store)
    ensures weightText == "" || date == "" || time == "" ==> r == s
    ensures weightText != "" && date != "" && time != "" ==>
      var e := NewEntry(id, weight, date, time, instantOf);
      && |LoadWeights(r)| == |LoadWeights(s)| + 1
      && multiset(LoadWeights(r)) == multiset(LoadWeights(s)) + multiset{e}
      && TimeSorted(LoadWeights(r))
    ensures r.goal == s.goal && r.demoGoalFlag == s.demoGoalFlag
  {
    if weightText == "" || date == "" || time == "" then s
    else DataService.AddWeight(s, NewEntry(id, weight, date, time, instantOf)).0
  }

  /** An entry added to a sorted list lands behind every entry not later than it, and
      the entries already there keep their order. */
  lemma AddWeightInserts(s: Store, weightText: string, date: string, time: string, id: int,
                         weight: real, instantOf: (string, string) -> int) returns (k: nat)
    requires weightText != "" && date != "" && time != ""
    requires TimeSorted(LoadWeights(s))
    ensures var ws := LoadWeights(s);
      && k <= |ws|
      && LoadWeights(AddWeight(s, weightText, date, time, id, weight, instantOf))
         == ws[..k] + [NewEntry(id, weight, date, time, instantOf)] + ws[k..]
  {
    k := AddSortedInserts(LoadWeights(s), NewEntry(id, weight, date, time, instantOf));
  }

  /** `deleteWeight`: the entries carrying `id` removed, the others kept in order, and
      the list saved. */
  function DeleteWeight(s: Store, id: int): (r: Store)
    ensures forall e :: e in LoadWeights(r) <==> e in LoadWeights(s) && e.id != id
    ensures forall e: Entry :: e.id != id ==> multiset(LoadWeights(r))[e] == multiset(LoadWeights(s))[e]
    ensures Seqs.SubsequenceOf(LoadWeights(r), LoadWeights(s))
    ensures r.goal == s.goal && r.demoGoalFlag == s.demoGoalFlag
  {
    SaveWeights(s, RemoveById(LoadWeights(s), id))
  }

  /** Deleting an id nobody carries leaves the list as it was, and deleting keeps a
      sorted list sorted. */
  lemma DeleteWeightKeeps(s: Store, id: int)
    ensures (forall i :: 0 <= i < |LoadWeights(s)| ==> LoadWeights(s)[i].id != id) ==>
      LoadWeights(DeleteWeight(s, id)) == LoadWeights(s)
    ensures TimeSorted(LoadWeights(s)) ==> TimeSorted(LoadWeights(DeleteWeight(s, id)))
  {
    var ws := LoadWeights(s);
    if forall i :: 0 <= i < |ws| ==> ws[i].id != id { RemoveAbsentId(ws, id); }
    if TimeSorted(ws) { RemoveKeepsOrder(ws, id); }
  }

  /** `saveGoal`: the typed goal is stored under the goal key. The demo-goal flag is not
      touched, so a goal typed after loading demo data still reads as the demo's. */
  function SetGoal(s: Store, g: string): (r: Store)
    ensures LoadGoal(r) == g
    ensures LoadWeights(r) == LoadWeights(s) && r.demoGoalFlag == s.demoGoalFlag
  {
    SaveGoal(s, g)
  }

  /** Load the demo data into a store without a goal, type a goal, clear the demo data:
      the typed goal is gone, although clearing is meant to keep what the user entered. */
  lemma DemoClearDropsTypedGoal(s: Store, generated: seq<Entry>, parseDate: string -> int,
                                parseNumber: string -> real, g: string)
    requires !HasDemoData(s) && LoadGoal(s) == "" && g != ""
    ensures var typed := SetGoal(FakeData.LoadFakeData(s, generated, parseDate, parseNumber).store, g);
      LoadGoal(typed) == g && LoadGoal(FakeData.ClearFakeData(typed)) == ""
  {
    var loaded := FakeData.LoadFakeData(s, generated, parseDate, parseNumber).store;
    assert IsDemoGoal(loaded);
    assert IsDemoGoal(SetGoal(loaded, g));
  }

  /** A goal the user types is the user's: stored, with the demo-goal flag removed. */
  function SetUserGoal(s: Store, g: string): (r: Store)
    ensures LoadGoal(r) == g
    ensures LoadWeights(r) == LoadWeights(s) && !IsDemoGoal(r)
  {
    SaveGoal(s, g).(demoGoalFlag := None)
  }

  /** With the flag removed, clearing the demo data keeps a typed goal, loaded demo data
      or not, and keeps the manual entries. */
  lemma TypedGoalSurvivesClear(s: Store, g: string)
    ensures var cleared := FakeData.ClearFakeData(SetUserGoal(s, g));
      && LoadGoal(cleared) == g
      && LoadWeights(cleared) == Seqs.Filter(LoadWeights(s), DataService.IsManual)
  {
    assert !IsDemoGoal(SetUserGoal(s, g));
  }

  /** `goalWeight ? currentWeight - goalWeight : 0`: how far the current weight is above
      the goal, zero when no goal is set. */
  function GoalProgress(current: real, goalWeight: real): (p: real)
    ensures goalWeight == 0.0 ==> p == 0.0
    ensures goalWeight != 0.0 ==> current == goalWeight + p
    ensures p > 0.0 <==> goalWeight != 0.0 && current > goalWeight
  {
    if goalWeight != 0.0 then current - goalWeight else 0.0
  }

  /** The list under the form: the last 20 entries, or the last 10 daily records, newest
      first. */
  function EntriesToShow(ws: seq<Entry>, showAll: bool, clockOf: int -> string,
                         parseDate: string -> int): (r: seq<Entry>)
    ensures showAll ==>
      |r| == (if |ws| < 20 then |ws| else 20)
      && forall i :: 0 <= i < |r| ==> r[i] == ws[|ws| - 1 - i]
    ensures !showAll ==>
      var aggs := SrcProcessing.AverageWeightsByDay(ws, clockOf, parseDate);
      && |r| == (if |aggs| < 10 then |aggs| else 10)
      && forall i :: 0 <= i < |r| ==> r[i] == aggs[|aggs| - 1 - i]
  {
    if showAll then Seqs.NewestN(ws, 20)
    else Seqs.NewestN(SrcProcessing.AverageWeightsByDay(ws, clockOf, parseDate), 10)
  }

  /** The last `n` elements of a list sorted by `key`, read from the end, form a list in
      which `key` never grows. */
  lemma {:induction false} NewestFirst(s: seq<Entry>, n: nat, key: Entry -> int)
    requires forall i, j :: 0 <= i < j < |s| ==> key(s[i]) <= key(s[j])
    ensures var r := Seqs.NewestN(s, n);
      forall i, j :: 0 <= i < j < |r| ==> key(r[j]) <= key(r[i])
  {
    var r := Seqs.NewestN(s, n);
    forall i, j | 0 <= i < j < |r| ensures key(r[j]) <= key(r[i]) {
      assert r[j] == s[|s| - 1 - j] && r[i] == s[|s| - 1 - i];
    }
  }

  /** The daily list runs from the latest date backwards. */
  lemma DailyListNewestFirst(ws: seq<Entry>, clockOf: int -> string, parseDate: string -> int)
    ensures var r := EntriesToShow(ws, false, clockOf, parseDate);
      forall i, j :: 0 <= i < j < |r| ==> parseDate(r[j].date) <= parseDate(r[i].date)
  {
    var aggs := SrcProcessing.AverageWeightsByDay(ws, clockOf, parseDate);
    var key := (e: Entry) => parseDate(e.date);
    assert forall i, j :: 0 <= i < j < |aggs| ==> key(aggs[i]) <= key(aggs[j]);
    NewestFirst(aggs, 10, key);
  }

  /** The full list of a time-sorted store runs from the latest entry backwards. */
  lemma AllEntriesNewestFirst(ws: seq<Entry>, clockOf: int -> string, parseDate: string -> int)
    requires TimeSorted(ws)
    ensures var r := EntriesToShow(ws, true, clockOf, parseDate);
      forall i, j :: 0 <= i < j < |r| ==> r[j].timestamp <= r[i].timestamp
  {
    NewestFirst(ws, 20, (e: Entry) => e.timestamp);
  }

  /** `getYAxisDomain`: automatic without points; otherwise the plotted range widened by
      a tenth of it but at least 2 on each side, cut off at 0 below, rounded outwards to
      the nearest whole numbers. */
  function YAxisDomain(points: seq<ChartPoint>): (d: Domain)
    ensures d.Auto? <==> |points| == 0
    ensures d.Bounds? ==> 0 <= d.lo
    ensures d.Bounds? ==> forall i :: 0 <= i < |points| ==>
      (points[i].weight >= 0.0 ==> d.lo as real <= points[i].weight)
      && points[i].weight + 2.0 <= d.hi as real
    ensures |points| > 0 ==> PaddedAround(d, Weights(points), 2.0)
  {
    if |points| == 0 then Auto else PaddedBounds(Weights(points))
  }

  /** The bounds around the non-empty values `ws`. */
  function PaddedBounds(ws: seq<real>): (d: Domain)
    requires |ws| > 0
    ensures d.Bounds? && 0 <= d.lo
    ensures forall i :: 0 <= i < |ws| ==> (ws[i] >= 0.0 ==> d.lo as real <= ws[i]) && ws[i] + 2.0 <= d.hi as real
    ensures PaddedAround(d, ws, 2.0)
  {
    var lo := SeqMin(ws);
    var hi := SeqMax(ws);
    var padding := MaxReal((hi - lo) * 0.1, 2.0);
    Bounds(MaxReal(0.0, lo - padding).Floor, Ceil(hi + padding))
  }
}
