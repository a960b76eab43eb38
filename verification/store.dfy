/** The three `localStorage` keys the app persists — `healthTracker_weight`,
    `healthTracker_weightGoal` and `healthTracker_isDemoGoal` — as one immutable record,
    with the reads and writes both variants perform on it. A key that was never written
    or has been removed is `None`. */
module Store {
  import opened Wrappers
  import opened Records
  import Seqs
  import Sorting

  datatype Store = Store(
    weights: Option<seq<Entry>>,
    goal: Option<string>,
    demoGoalFlag: Option<string>)

  /** `JSON.parse(getItem('healthTracker_weight') || '[]')`. */
  function LoadWeights(s: Store): seq<Entry> {
    s.weights.GetOr([])
  }

  /** `setItem('healthTracker_weight', JSON.stringify(weights))`. */
  function SaveWeights(s: Store, ws: seq<Entry>): (r: Store)
    ensures LoadWeights(r) == ws
    ensures r.goal == s.goal && r.demoGoalFlag == s.demoGoalFlag
  {
    s.(weights := Some(ws))
  }

  /** `getItem('healthTracker_weightGoal') || ''`. */
  function LoadGoal(s: Store): string {
    s.goal.GetOr("")
  }

  /** `setItem('healthTracker_weightGoal', goal)`. */
  function SaveGoal(s: Store, g: string): (r: Store)
    ensures LoadGoal(r) == g
    ensures r.weights == s.weights && r.demoGoalFlag == s.demoGoalFlag
  {
    s.(goal := Some(g))
  }

  /** `getItem('healthTracker_isDemoGoal') === 'true'`. */
  predicate IsDemoGoal(s: Store) {
    s.demoGoalFlag == Some("true")
  }

  /** Nothing stored reads as no entries and no goal. */
  lemma EmptyStoreReads()
    ensures LoadWeights(Store(None, None, None)) == []
    ensures LoadGoal(Store(None, None, None)) == ""
    ensures !IsDemoGoal(Store(None, None, None))
  {
  }

  /** `clearAllData`: the three keys removed. */
  function ClearAllData(s: Store): (r: Store)
    ensures LoadWeights(r) == [] && LoadGoal(r) == "" && !IsDemoGoal(r)
    ensures r.weights.None? && r.goal.None? && r.demoGoalFlag.None?
  {
    Store(None, None, None)
  }

  /** `weights.some(entry => entry.isDemoData)`, scanning from the end. */
  function AnyDemo(ws: seq<Entry>): bool
    decreases |ws|
  {
    |ws| > 0 && (ws[|ws| - 1].isDemoData || AnyDemo(ws[..|ws| - 1]))
  }

  /** The scan finds a demo entry exactly when there is one. */
  lemma {:induction false} AnyDemoIff(ws: seq<Entry>)
    ensures AnyDemo(ws) <==> exists i :: 0 <= i < |ws| && ws[i].isDemoData
    decreases |ws|
  {
    if |ws| > 0 {
      var p := ws[..|ws| - 1];
      AnyDemoIff(p);
      if AnyDemo(p) {
        var i :| 0 <= i < |p| && p[i].isDemoData;
        assert ws[i] == p[i];
      }
      if i :| 0 <= i < |ws| - 1 && ws[i].isDemoData {
        assert p[i] == ws[i];
      }
    }
  }

  /** `hasDemoData`: some stored entry is flagged as demo data. */
  function HasDemoData(s: Store): (r: bool)
    ensures r <==> exists i :: 0 <= i < |LoadWeights(s)| && LoadWeights(s)[i].isDemoData
  {
    AnyDemoIff(LoadWeights(s));
    AnyDemo(LoadWeights(s))
  }

  /** `(a, b) => new Date(a.timestamp) - new Date(b.timestamp)` as an ordering. */
  function ByTimestamp(): (Entry, Entry) -> bool {
    (a: Entry, b: Entry) => a.timestamp <= b.timestamp
  }

  lemma ByTimestampIsTotalPreorder()
    ensures Sorting.TotalPreorder(ByTimestamp())
  {
  }

  /** Stored entries in the order the timestamp sort leaves them. */
  ghost predicate TimeSorted(ws: seq<Entry>) {
    forall i, j :: 0 <= i < j < |ws| ==> ws[i].timestamp <= ws[j].timestamp
  }

  /** `[...weights, entry].sort(byTimestamp)`: the entry added and the list re-sorted. */
  function AddSorted(ws: seq<Entry>, e: Entry): (r: seq<Entry>)
    ensures |r| == |ws| + 1
    ensures multiset(r) == multiset(ws) + multiset{e}
    ensures TimeSorted(r)
  {
    ByTimestampIsTotalPreorder();
    Sorting.SortBySorted(ws + [e], ByTimestamp());
    var r := Sorting.SortBy(ws + [e], ByTimestamp());
    assert forall i, j :: 0 <= i < j < |r| ==> ByTimestamp()(r[i], r[j]);
    r
  }

  /** On a sorted list the sort is stable: the new entry goes in after every entry whose
      timestamp is not later than its own, and every other entry keeps its place. */
  lemma AddSortedInserts(ws: seq<Entry>, e: Entry) returns (k: nat)
    requires TimeSorted(ws)
    ensures k <= |ws|
    ensures AddSorted(ws, e) == ws[..k] + [e] + ws[k..]
    ensures forall i :: 0 <= i < k ==> ws[i].timestamp <= e.timestamp
    ensures forall i :: k <= i < |ws| ==> ws[i].timestamp > e.timestamp
  {
    var le := ByTimestamp();
    assert Sorting.Sorted(ws, le);
    Sorting.SortBySortedIsIdentity(ws, le);
    assert (ws + [e])[..|ws|] == ws;
    assert Sorting.SortBy(ws + [e], le) == Sorting.Insert(ws, e, le);
    k := Sorting.InsertPos(ws, e, le);
    Sorting.InsertSplits(ws, e, le);
    ByTimestampIsTotalPreorder();
    Sorting.InsertPosSorted(ws, e, le);
  }

  /** `weights.filter(weight => weight.id !== id)`. */
  function RemoveById(ws: seq<Entry>, id: int): (r: seq<Entry>)
    ensures forall e :: e in r <==> e in ws && e.id != id
    ensures forall e :: multiset(r)[e] == if e.id != id then multiset(ws)[e] else 0
    ensures |r| <= |ws|
    ensures Seqs.SubsequenceOf(r, ws)
  {
    var keep := (e: Entry) => e.id != id;
    Seqs.FilterSubsequence(ws, keep);
    Seqs.Filter(ws, keep)
  }

  /** Deleting an id that no entry carries changes nothing. */
  lemma RemoveAbsentId(ws: seq<Entry>, id: int)
    requires forall i :: 0 <= i < |ws| ==> ws[i].id != id
    ensures RemoveById(ws, id) == ws
  {
    Seqs.FilterAll(ws, (e: Entry) => e.id != id);
  }

  /** Deleting keeps the remaining entries in their order, so a sorted list stays sorted. */
  lemma RemoveKeepsOrder(ws: seq<Entry>, id: int)
    requires TimeSorted(ws)
    ensures TimeSorted(RemoveById(ws, id))
  {
    Seqs.FilterKeepsOrder(ws, (e: Entry) => e.id != id, ByTimestamp());
  }

  /** The outcome of restoring a backup file. */
  datatype RestoreResult = RestoreResult(success: bool, entryCount: nat, store: Store)

  /** A backup's `weights` key: missing, present but not an array, or an array. */
  datatype BackupWeights = Missing | NotArray | WeightArray(entries: seq<Entry>)

  /** Restoring a parsed backup: a missing or non-array `weights` is rejected, otherwise
      the weights are replaced and the goal is replaced only by a non-empty one. */
  function RestoreBackup(s: Store, weights: BackupWeights, goal: Option<string>): (r: RestoreResult)
    ensures !weights.WeightArray? <==> !r.success
    ensures !r.success ==> r.store == s && r.entryCount == 0
    ensures r.success ==> LoadWeights(r.store) == weights.entries
                          && r.entryCount == |weights.entries|
                          && r.store.demoGoalFlag == s.demoGoalFlag
    ensures r.success && goal.Some? && goal.value != "" ==> LoadGoal(r.store) == goal.value
    ensures r.success && (goal.None? || goal.value == "") ==> r.store.goal == s.goal
  {
    match weights
    case WeightArray(ws) =>
      var saved := SaveWeights(s, ws);
      var store := if goal.Some? && goal.value != "" then SaveGoal(saved, goal.value) else saved;
      RestoreResult(true, |ws|, store)
    case _ => RestoreResult(false, 0, s)
  }
}
