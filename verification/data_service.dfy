/** The storage service of the wallet-app variant (`frontend/services/dataService.js`)
    over the `localStorage` backend: adding and deleting entries, and loading and
    clearing the demo data set. Each operation takes the store and returns the new
    store together with what the service method returns. */
module DataService {
  import opened Wrappers
  import opened Records
  import opened Store
  import Seqs
  import Sorting

  /** `addWeight`: the entry appended, the list re-sorted by timestamp and saved. */
  function AddWeight(s: Store, e: Entry): (r: (Store, seq<Entry>))
    ensures r.1 == LoadWeights(r.0)
    ensures |r.1| == |LoadWeights(s)| + 1
    ensures multiset(r.1) == multiset(LoadWeights(s)) + multiset{e}
    ensures TimeSorted(r.1)
    ensures r.0.goal == s.goal && r.0.demoGoalFlag == s.demoGoalFlag
  {
    var ws := AddSorted(LoadWeights(s), e);
    (SaveWeights(s, ws), ws)
  }

  /** `deleteWeight`: every entry carrying `id` removed, the rest kept and saved. */
  function DeleteWeight(s: Store, id: int): (r: (Store, seq<Entry>))
    ensures r.1 == LoadWeights(r.0)
    ensures forall e :: e in r.1 <==> e in LoadWeights(s) && e.id != id
    ensures forall e: Entry :: e.id != id ==> multiset(r.1)[e] == multiset(LoadWeights(s))[e]
    ensures Seqs.SubsequenceOf(r.1, LoadWeights(s))
    ensures r.0.goal == s.goal && r.0.demoGoalFlag == s.demoGoalFlag
  {
    var ws := RemoveById(LoadWeights(s), id);
    (SaveWeights(s, ws), ws)
  }

  /** What `loadDemoData` returns, with the store it leaves. */
  datatype DemoLoad = DemoLoad(success: bool, weightData: seq<Entry>, goalWeight: real, store: Store)

  /** `customDemoGoal || '165'`. */
  function DemoGoal(customGoal: Option<string>): (g: string)
    ensures g != ""
    ensures customGoal.Some? && customGoal.value != "" ==> g == customGoal.value
  {
    if customGoal.Some? && customGoal.value != "" then customGoal.value else "165"
  }

  /** The demo entries to load: the generated ones, or the caller's, with a missing
      list read as an empty one (both make the load fail). */
  function DemoList(generateNew: bool, generated: seq<Entry>, customWeights: Option<seq<Entry>>)
    : seq<Entry>
  {
    if generateNew then generated else customWeights.GetOr([])
  }

  /** `loadDemoData(generateNew, customDemoWeights, customDemoGoal)`. `generated` is the
      list the demo generator produced and `parseNumber` is `parseFloat`. Demo data
      already present, or no demo entries to load, leave the store as it was; otherwise
      the demo entries are merged in by timestamp and the demo goal is stored, flagged
      as a demo goal, only when no goal was set. */
  function LoadDemoData(s: Store, generateNew: bool, generated: seq<Entry>,
                        customWeights: Option<seq<Entry>>, customGoal: Option<string>,
                        parseNumber: string -> real): (r: DemoLoad)
    ensures HasDemoData(s) ==>
      r == DemoLoad(false, LoadWeights(s), parseNumber(if LoadGoal(s) == "" then "0" else LoadGoal(s)), s)
    ensures !HasDemoData(s) && |DemoList(generateNew, generated, customWeights)| == 0 ==>
      r == DemoLoad(false, [], 0.0, s)
    ensures r.success <==> !HasDemoData(s) && |DemoList(generateNew, generated, customWeights)| > 0
    ensures r.success ==>
      var demo := DemoList(generateNew, generated, customWeights);
      && r.weightData == LoadWeights(r.store)
      && multiset(r.weightData) == multiset(LoadWeights(s)) + multiset(demo)
      && TimeSorted(r.weightData)
    ensures r.success && LoadGoal(s) == "" ==>
      LoadGoal(r.store) == DemoGoal(customGoal) && IsDemoGoal(r.store)
      && r.goalWeight == parseNumber(DemoGoal(customGoal))
    ensures r.success && LoadGoal(s) != "" ==>
      r.store.goal == s.goal && r.store.demoGoalFlag == s.demoGoalFlag
      && r.goalWeight == parseNumber(LoadGoal(s))
  {
    if HasDemoData(s) then
      var goal := LoadGoal(s);
      DemoLoad(false, LoadWeights(s), parseNumber(if goal == "" then "0" else goal), s)
    else
      var existing := LoadWeights(s);
      var existingGoal := LoadGoal(s);
      var demoGoal := DemoGoal(customGoal);
      var demo := if generateNew then Some(generated) else customWeights;
      if demo.None? || |demo.value| == 0 then
        DemoLoad(false, [], 0.0, s)
      else
        var all := MergeByTimestamp(existing, demo.value);
        var saved := SaveWeights(s, all);
        var store :=
          if existingGoal == "" then SaveGoal(saved, demoGoal).(demoGoalFlag := Some("true"))
          else saved;
        DemoLoad(true, all, if existingGoal != "" then parseNumber(existingGoal) else parseNumber(demoGoal), store)
  }

  /** `[...existing, ...demo].sort(byTimestamp)`. */
  function MergeByTimestamp(existing: seq<Entry>, demo: seq<Entry>): (r: seq<Entry>)
    ensures multiset(r) == multiset(existing) + multiset(demo)
    ensures |r| == |existing| + |demo|
    ensures TimeSorted(r)
  {
    Sorting.SortBySorted(existing + demo, ByTimestamp());
    ByTimestampIsTotalPreorder();
    var r := Sorting.SortBy(existing + demo, ByTimestamp());
    assert forall i, j :: 0 <= i < j < |r| ==> ByTimestamp()(r[i], r[j]);
    r
  }

  /** What `clearDemoData` returns, with the store it leaves. */
  datatype DemoClear = DemoClear(success: bool, manualEntriesPreserved: nat, demoEntriesRemoved: nat,
                                 goalCleared: bool, store: Store)

  function IsManual(e: Entry): bool {
    !e.isDemoData
  }

  function IsDemo(e: Entry): bool {
    e.isDemoData
  }

  /** `clearDemoData`: the entries not flagged as demo data kept in order, and the goal
      and its flag removed when the goal was the demo's. */
  function ClearDemoData(s: Store): (r: DemoClear)
    ensures r.success
    ensures LoadWeights(r.store) == Seqs.Filter(LoadWeights(s), IsManual)
    ensures forall e :: e in LoadWeights(r.store) <==> e in LoadWeights(s) && !e.isDemoData
    ensures !HasDemoData(r.store)
    ensures r.manualEntriesPreserved == |LoadWeights(r.store)|
    ensures r.demoEntriesRemoved == |Seqs.Filter(LoadWeights(s), IsDemo)|
    ensures r.goalCleared <==> IsDemoGoal(s)
    ensures r.goalCleared ==> r.store.goal.None? && r.store.demoGoalFlag.None?
    ensures !r.goalCleared ==> r.store.goal == s.goal && r.store.demoGoalFlag == s.demoGoalFlag
  {
    var existing := LoadWeights(s);
    var manual := Seqs.Filter(existing, IsManual);
    Seqs.FilterComplement(existing, IsManual, IsDemo);
    var demoCount := |existing| - |manual|;
    var saved := SaveWeights(s, manual);
    var goalCleared := IsDemoGoal(s);
    var store := if goalCleared then saved.(goal := None, demoGoalFlag := None) else saved;
    assert LoadWeights(store) == manual;
    assert forall i :: 0 <= i < |manual| ==> manual[i] in manual;
    DemoClear(true, |manual|, demoCount, goalCleared, store)
  }

  /** Clearing the demo data keeps a timestamp-sorted list sorted. */
  lemma ClearDemoKeepsOrder(s: Store)
    requires TimeSorted(LoadWeights(s))
    ensures TimeSorted(LoadWeights(ClearDemoData(s).store))
  {
    Seqs.FilterKeepsOrder(LoadWeights(s), IsManual, ByTimestamp());
  }

  /** Loading demo entries that are all flagged as demo data into a store holding none
      and no demo goal, then clearing the demo data, gives back the manual entries and
      the goal as they were. */
  lemma LoadThenClearRestores(s: Store, generated: seq<Entry>, customGoal: Option<string>,
                              parseNumber: string -> real)
    requires !HasDemoData(s) && !IsDemoGoal(s)
    requires |generated| > 0
    requires forall i :: 0 <= i < |generated| ==> generated[i].isDemoData
    ensures var loaded := LoadDemoData(s, true, generated, None, customGoal, parseNumber);
      var cleared := ClearDemoData(loaded.store);
      && loaded.success
      && multiset(LoadWeights(cleared.store)) == multiset(LoadWeights(s))
      && LoadGoal(cleared.store) == LoadGoal(s)
      && !IsDemoGoal(cleared.store)
      && cleared.demoEntriesRemoved == |generated|
  {
    var loaded := LoadDemoData(s, true, generated, None, customGoal, parseNumber);
    var before := LoadWeights(s);
    var merged := LoadWeights(loaded.store);
    assert forall i :: 0 <= i < |before| ==> !before[i].isDemoData;
    SplitByDemo(before, generated, merged);
  }

  /** Of a rearrangement of demo-free entries followed by flagged demo entries, the
      manual filter keeps a rearrangement of the former and the demo filter as many
      entries as the latter. */
  lemma SplitByDemo(before: seq<Entry>, demo: seq<Entry>, merged: seq<Entry>)
    requires multiset(merged) == multiset(before + demo)
    requires forall i :: 0 <= i < |before| ==> !before[i].isDemoData
    requires forall i :: 0 <= i < |demo| ==> demo[i].isDemoData
    ensures multiset(Seqs.Filter(merged, IsManual)) == multiset(before)
    ensures |Seqs.Filter(merged, IsDemo)| == |demo|
  {
    Seqs.FilterAppend(before, demo, IsManual);
    Seqs.FilterAppend(before, demo, IsDemo);
    Seqs.FilterAll(before, IsManual);
    Seqs.FilterNone(demo, IsManual);
    Seqs.FilterNone(before, IsDemo);
    Seqs.FilterAll(demo, IsDemo);
    assert Seqs.Filter(before + demo, IsManual) == before;
    assert Seqs.Filter(before + demo, IsDemo) == demo;
    Seqs.FilterPermutation(merged, before + demo, IsManual);
    Seqs.FilterPermutation(merged, before + demo, IsDemo);
    assert |multiset(Seqs.Filter(merged, IsDemo))| == |multiset(demo)|;
  }
}
