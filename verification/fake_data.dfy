/** Loading and clearing the demo data set in the local-storage variant
    (`src/utils/generateFakeData.js`). The generated list is an input: the generator's
    randomness and clock are not modelled. `parseDate` is `new Date(date)` and
    `parseNumber` is `parseFloat`. */
module FakeData {
  import opened Wrappers
  import opened Records
  import opened Store
  import Seqs
  import Sorting
  import SrcProcessing
  import DataService

  /** `{ ...entry, isDemoData: true }` for every generated entry. */
  function MarkDemo(ws: seq<Entry>): (r: seq<Entry>)
    ensures |r| == |ws|
    ensures forall i :: 0 <= i < |ws| ==> r[i].isDemoData && r[i] == ws[i].(isDemoData := true)
  {
    seq(|ws|, i requires 0 <= i < |ws| => ws[i].(isDemoData := true))
  }

  /** The goal the demo sets when there is none: `165`. */
  const DemoGoalWeight: string := "165"

  /** What `loadFakeData` returns, with the store it leaves. */
  datatype FakeLoad = FakeLoad(weightData: seq<Entry>, goalWeight: real, store: Store)

  /** `[...existing, ...marked].sort((a, b) => new Date(a.date) - new Date(b.date))`. */
  function MergeByDate(existing: seq<Entry>, marked: seq<Entry>, parseDate: string -> int): (r: seq<Entry>)
    ensures |r| == |existing| + |marked|
    ensures multiset(r) == multiset(existing + marked)
    ensures forall i, j :: 0 <= i < j < |r| ==> parseDate(r[i].date) <= parseDate(r[j].date)
  {
    SrcProcessing.ByDateIsTotalPreorder(parseDate);
    Sorting.SortBySorted(existing + marked, SrcProcessing.ByDate(parseDate));
    var r := Sorting.SortBy(existing + marked, SrcProcessing.ByDate(parseDate));
    assert forall i, j :: 0 <= i < j < |r| ==> SrcProcessing.ByDate(parseDate)(r[i], r[j]);
    r
  }

  /** `loadFakeData`: with demo data present nothing changes; otherwise the generated
      entries, flagged as demo data, are merged in by date, and the demo goal is stored
      and flagged only when no goal was set. */
  function LoadFakeData(s: Store, generated: seq<Entry>, parseDate: string -> int,
                        parseNumber: string -> real): (r: FakeLoad)
    ensures HasDemoData(s) ==>
      r == FakeLoad(LoadWeights(s), parseNumber(if LoadGoal(s) == "" then "0" else LoadGoal(s)), s)
    ensures !HasDemoData(s) ==>
      && r.weightData == LoadWeights(r.store)
      && multiset(r.weightData) == multiset(LoadWeights(s)) + multiset(MarkDemo(generated))
      && (forall i :: 0 <= i < |r.weightData| ==>
            r.weightData[i] in LoadWeights(s) || r.weightData[i].isDemoData)
      && (forall i, j :: 0 <= i < j < |r.weightData| ==>
            parseDate(r.weightData[i].date) <= parseDate(r.weightData[j].date))
    ensures !HasDemoData(s) && LoadGoal(s) == "" ==>
      LoadGoal(r.store) == DemoGoalWeight && IsDemoGoal(r.store) && r.goalWeight == 165.0
    ensures !HasDemoData(s) && LoadGoal(s) != "" ==>
      r.store.goal == s.goal && r.store.demoGoalFlag == s.demoGoalFlag
      && r.goalWeight == parseNumber(LoadGoal(s))
  {
    if HasDemoData(s) then
      var goal := LoadGoal(s);
      FakeLoad(LoadWeights(s), parseNumber(if goal == "" then "0" else goal), s)
    else AddDemoData(s, generated, parseDate, parseNumber)
  }

  /** The branch of `loadFakeData` that adds the demo data. */
  function AddDemoData(s: Store, generated: seq<Entry>, parseDate: string -> int,
                       parseNumber: string -> real): (r: FakeLoad)
    ensures r.weightData == LoadWeights(r.store)
    ensures multiset(r.weightData) == multiset(LoadWeights(s)) + multiset(MarkDemo(generated))
    ensures forall i :: 0 <= i < |r.weightData| ==>
      r.weightData[i] in LoadWeights(s) || r.weightData[i].isDemoData
    ensures forall i, j :: 0 <= i < j < |r.weightData| ==>
      parseDate(r.weightData[i].date) <= parseDate(r.weightData[j].date)
    ensures LoadGoal(s) == "" ==>
      LoadGoal(r.store) == DemoGoalWeight && IsDemoGoal(r.store) && r.goalWeight == 165.0
    ensures LoadGoal(s) != "" ==>
      r.store.goal == s.goal && r.store.demoGoalFlag == s.demoGoalFlag
      && r.goalWeight == parseNumber(LoadGoal(s))
  {
    var existing := LoadWeights(s);
    var existingGoal := LoadGoal(s);
    var marked := MarkDemo(generated);
    var all := MergeByDate(existing, marked, parseDate);
    assert forall i :: 0 <= i < |all| ==> all[i] in multiset(existing + marked);
    var saved := SaveWeights(s, all);
    var store :=
      if existingGoal == "" then SaveGoal(saved, DemoGoalWeight).(demoGoalFlag := Some("true"))
      else saved;
    FakeLoad(all, if existingGoal != "" then parseNumber(existingGoal) else 165.0, store)
  }

  /** `clearFakeData`: the entries not flagged as demo data kept in order, and the goal
      and its flag removed when the goal was the demo's. */
  function ClearFakeData(s: Store): (r: Store)
    ensures LoadWeights(r) == Seqs.Filter(LoadWeights(s), DataService.IsManual)
    ensures !HasDemoData(r)
    ensures IsDemoGoal(s) ==> r.goal.None? && r.demoGoalFlag.None?
    ensures !IsDemoGoal(s) ==> r.goal == s.goal && r.demoGoalFlag == s.demoGoalFlag
  {
    var manual := Seqs.Filter(LoadWeights(s), DataService.IsManual);
    var saved := SaveWeights(s, manual);
    assert forall i :: 0 <= i < |manual| ==> manual[i] in manual;
    if IsDemoGoal(s) then saved.(goal := None, demoGoalFlag := None) else saved
  }

  /** The two variants clear demo data to the same store. */
  lemma ClearVariantsAgree(s: Store)
    ensures ClearFakeData(s) == DataService.ClearDemoData(s).store
  {
  }

  /** Starting from a store with no demo data and no demo goal, loading the demo data
      and clearing it again gives back the manual entries (as a multiset, since the
      merge re-sorts them by date) and the goal. */
  lemma LoadThenClearRestores(s: Store, generated: seq<Entry>, parseDate: string -> int,
                              parseNumber: string -> real)
    requires !HasDemoData(s) && !IsDemoGoal(s)
    ensures var cleared := ClearFakeData(LoadFakeData(s, generated, parseDate, parseNumber).store);
      && multiset(LoadWeights(cleared)) == multiset(LoadWeights(s))
      && LoadGoal(cleared) == LoadGoal(s)
      && !IsDemoGoal(cleared)
  {
    var before := LoadWeights(s);
    var marked := MarkDemo(generated);
    var merged := LoadWeights(LoadFakeData(s, generated, parseDate, parseNumber).store);
    assert forall i :: 0 <= i < |before| ==> !before[i].isDemoData;
    DataService.SplitByDemo(before, marked, merged);
  }
}
