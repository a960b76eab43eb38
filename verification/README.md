# Health tracker weight core, in Dafny

This project models the weight-tracking core of the health tracker. The app exists in
two variants that share a data model:

- the **local-storage app** (`src/`) keeps its entries in three `localStorage` keys;
- the **wallet app** (`frontend/`) reaches the same keys through a storage service.

The model covers:

- the persisted store: the entry list, the goal, and the flag that marks the goal as
  the demo's;
- the storage service's operations: add, delete, load and clear the demo data set,
  clear everything, and restore a backup;
- the daily aggregation of both variants. Entries on the same day become one record:
  the rounded mean weight, carried by the latest entry. The wallet app groups by the
  local day of the timestamp. The local-storage app groups by the stored date string
  and also records the day's clock times;
- chart preparation, the latest weight, and the weight change;
- the page logic of the weight tracker and of both dashboards: the entry forms, the
  list of recent records, the goal line, goal progress, and the y-axis bounds.

Every operation is a pure function on immutable values, and each returns the new store
where the source writes to storage. Calendar and formatting functions the source takes
from `Date` and `date-fns` are parameters. Nothing in the model fixes a time zone:

- `localDay` is the local day number of an instant;
- `clockOf` is the `HH:mm` text of an instant;
- `parseDate` is the instant `new Date(date)` denotes;
- `format` and `labelOf` produce the chart labels;
- `parseNumber` is `parseFloat`;
- `atNow` and `noonOf` give the timestamps the dashboards stamp a date with;
- `instantOf` is the weight tracker's `${date}T${time}:00`.

Points where the code's behaviour is easy to misread:

- the wallet app's final sort subtracts timestamps stored as ISO strings. Each
  comparison is `NaN`, which the sort reads as "equal", so the daily list stays in
  first-occurrence order. The model keeps that order (`GroupByFirstOccurrence`), and
  `ChronologicalForSortedInput` proves it chronological for the time-sorted lists the
  store holds;
- a day with a single entry passes that entry through unchanged;
- the weight tracker's y-axis comment speaks of 5% padding with a minimum of 2. The code
  pads by 10% of the range with a minimum of 2, and the model follows the code.

Modules:

- `Wrappers`: the `Option` type;
- `Records`: entries, daily-record decorations, chart points;
- `Seqs`, `Sorting`, `Strings`: filters, stable insertion sort, and string order;
- `Grouping`: the `reduce` into `groups[key]` and `Object.entries` order;
- `Daily`: the per-day arithmetic both variants share;
- `FrontendProcessing` and `SrcProcessing`: the two aggregation variants;
- `Store`, `DataService`, `FakeData`: the stored keys, the wallet app's storage
  service, and the local-storage app's demo loader;
- `Charts`, `WeightTrackerPage`, `DashboardPage`: chart helpers and page logic.

## Model

| member | source | states |
|---|---|---|
| Store.SaveWeights | frontend/services/dataService.js:44-56 | a saved list is what the next load returns; the goal and its demo flag are untouched |
| Store.SaveGoal | frontend/services/dataService.js:116-128 | a saved goal is what the next goal load returns; the list and the flag are untouched |
| Store.EmptyStoreReads | frontend/services/dataService.js:25-37 | with nothing stored, the list reads as empty, the goal as `''`, and the goal is not a demo goal |
| Store.ClearAllData | frontend/services/dataService.js:134-159 | all three keys are removed, so the list reads empty, the goal `''`, and no demo goal (src/utils/generateFakeData.js:176-182 does the same) |
| Store.AnyDemoIff | src/utils/generateFakeData.js:82-85 | the `some` scan finds a demo-flagged entry exactly when one exists |
| Store.HasDemoData | frontend/services/dataService.js:246-254 | true exactly when some stored entry is flagged as demo data |
| Store.AddSorted | frontend/services/dataService.js:63-75 | adding gives one more entry; the old entries plus the new one form the same multiset; the result is sorted by timestamp |
| Store.AddSortedInserts | frontend/services/dataService.js:65-67 | on a sorted list the stable sort puts the new entry after every entry not later than it and before every later one; the other entries keep their order |
| Store.RemoveById | frontend/services/dataService.js:82-92 | exactly the entries carrying the id disappear; every other entry keeps its multiplicity, and the kept entries stay in their order |
| Store.RemoveAbsentId | frontend/services/dataService.js:85 | deleting an id nobody carries changes nothing |
| Store.RemoveKeepsOrder | frontend/services/dataService.js:85 | deleting keeps a timestamp-sorted list sorted |
| Store.RestoreBackup | frontend/services/backupService.js:116-124 | a backup fails exactly when its `weights` is missing or not an array, and then nothing changes; otherwise the list is replaced and the goal only by a non-empty one |
| DataService.AddWeight | frontend/services/dataService.js:63-75 | the returned list is the stored one: the old entries plus the new one, sorted by timestamp; the goal is untouched |
| DataService.DeleteWeight | frontend/services/dataService.js:82-92 | the returned list is the stored one, without exactly the entries carrying the id, the others kept with their multiplicity and in their order |
| DataService.DemoGoal | frontend/services/dataService.js:289 | the demo goal is never empty; a non-empty custom goal is used as given |
| DataService.LoadDemoData | frontend/services/dataService.js:263-331 | existing demo data, or nothing to load, leave the store as it was. The load succeeds exactly when neither holds; the stored list is then the old entries plus the demo ones, sorted by timestamp. The demo goal is stored and flagged exactly when no goal was set; the reported goal weight is in every branch |
| DataService.MergeByTimestamp | frontend/services/dataService.js:296-298 | the merge holds exactly the entries of both lists and is sorted by timestamp |
| DataService.ClearDemoData | frontend/services/dataService.js:337-378 | the manual entries are kept in order and no demo entry is left; the counts report the kept and removed entries; the goal and flag are removed exactly when the goal was the demo's |
| DataService.ClearDemoKeepsOrder | frontend/services/dataService.js:341-345 | clearing keeps a timestamp-sorted list sorted |
| DataService.LoadThenClearRestores | frontend/services/dataService.js:263-366 | on a store with no demo data and no demo goal, loading flagged demo entries and clearing them restores the entries (as a multiset) and the goal; it reports every demo entry as removed |
| DataService.SplitByDemo | frontend/services/dataService.js:341-343 | in a rearrangement of manual entries followed by demo entries, the manual filter recovers the manual entries and the demo filter counts the demo ones |
| FakeData.MarkDemo | src/utils/generateFakeData.js:116-119 | every generated entry is kept with its demo flag set |
| FakeData.MergeByDate | src/utils/generateFakeData.js:122-123 | the merge holds exactly the entries of both lists, sorted by `new Date(date)` |
| FakeData.LoadFakeData | src/utils/generateFakeData.js:92-143 | existing demo data leave everything as it was. Otherwise the stored list is the old entries plus the flagged demo ones, date-sorted, and every entry is either old or flagged. Goal 165 is stored and flagged only when no goal was set |
| FakeData.AddDemoData | src/utils/generateFakeData.js:104-142 | with no demo data present: the saved list is the old entries plus the flagged demo ones, sorted by date, each entry old or flagged; goal 165 is stored and flagged only when no goal was set, otherwise the existing goal is kept and returned |
| FakeData.ClearFakeData | src/utils/generateFakeData.js:149-170 | the manual entries are kept in order and no demo entry is left; the goal and flag are removed exactly when the goal was the demo's |
| FakeData.ClearVariantsAgree | src/utils/generateFakeData.js:149-170 | the local-storage clear leaves the same store as the storage service's `clearDemoData` |
| FakeData.LoadThenClearRestores | src/utils/generateFakeData.js:92-170 | from a store with no demo data and no demo goal, load then clear restores the entries (as a multiset) and the goal |
| Grouping.Members | frontend/utils/dataProcessing.js:19-26 | a key's group holds exactly the input elements with that key |
| Grouping.Place | frontend/utils/dataProcessing.js:21-24 | one `reduce` step appends the element to its key's group, or opens a new group at the end; keys stay distinct |
| Grouping.GroupBy | frontend/utils/dataProcessing.js:19-26 | the groups have distinct keys, are no more numerous than the input, and are absent exactly for empty input |
| Grouping.GroupByMembers | frontend/utils/dataProcessing.js:19-29 | each group is non-empty and equals its key's input elements in input order; every input key has a group |
| Grouping.GroupBySizes | frontend/utils/dataProcessing.js:19-26 | the group sizes add up to the input length |
| Grouping.GroupByFirstOccurrence | frontend/utils/dataProcessing.js:19-29 | `Object.entries` lists the groups in the order their keys first occur: a group's key occurs before every occurrence of a later group's key |
| Grouping.GroupByKeysIncreasing | frontend/utils/dataProcessing.js:19-29 | for input ordered by key, `Object.entries` lists the groups in strictly increasing key order |
| Daily.RoundToTenth | frontend/utils/dataProcessing.js:46 | `Math.round(x * 10) / 10` is within 0.05 of `x` and has one decimal |
| Daily.LatestIndex | frontend/utils/dataProcessing.js:40-42 | the `reduce` keeps an entry with the greatest timestamp, the first of several equal ones |
| Daily.AverageDay | frontend/utils/dataProcessing.js:29-50 | a lone entry passes through; several become the latest entry with their rounded mean weight and their count |
| Daily.EqualWeightsAverage | frontend/utils/dataProcessing.js:36-46 | a day whose entries all weigh the same one-decimal amount averages to that amount |
| Daily.LatestOf | frontend/utils/dataProcessing.js:95-100 | `null` exactly for an empty list, else the last record |
| Daily.ChangeOf | frontend/utils/dataProcessing.js:107-121 | zeros for no records; otherwise start and current are the first and last records' weights, and change is their difference |
| Daily.SingleDayNoChange | frontend/utils/dataProcessing.js:112-120 | a single daily record gives start = current and change 0 |
| FrontendProcessing.AverageWeightsByDay | frontend/utils/dataProcessing.js:15-54 | empty exactly for empty input, and never longer than the input |
| FrontendProcessing.AverageDayOfGroup | frontend/utils/dataProcessing.js:29-50 | a day's record falls on that local day |
| FrontendProcessing.AverageWeightsByDaySpec | frontend/utils/dataProcessing.js:15-54 | one record per local day of the input and no day twice; each record aggregates exactly that day's entries |
| FrontendProcessing.ChronologicalForSortedInput | frontend/utils/dataProcessing.js:52-53 | for time-sorted input, the no-op final sort still leaves the records in strictly increasing day and timestamp order |
| FrontendProcessing.AverageDayConsistent | frontend/utils/dataProcessing.js:44-49 | an averaged day counts its entries, and `isAveraged` holds exactly when that count exceeds 1 |
| FrontendProcessing.CountsSumToLength | frontend/utils/dataProcessing.js:29-50 | for raw input, the records' `originalEntries` add up to the number of entries |
| FrontendProcessing.RecordsCountConsistent | frontend/utils/dataProcessing.js:44-49 | for raw input every record has `isAveraged` exactly when `originalEntries > 1` |
| FrontendProcessing.WindowedDays | frontend/utils/dataProcessing.js:69-77 | a record is charted exactly when its timestamp lies in `[now - (days-1) days, now]` |
| FrontendProcessing.ToPoint | frontend/utils/dataProcessing.js:78-83 | a point carries the record's weight and label, with `isAveraged` defaulting to false and `originalEntries` to 1 |
| FrontendProcessing.PrepareChartData | frontend/utils/dataProcessing.js:63-86 | no entries give no points; otherwise one point per windowed record, labelled from its timestamp |
| FrontendProcessing.ChartChronological | frontend/utils/dataProcessing.js:73-77 | the charted records of time-sorted input have strictly increasing timestamps |
| FrontendProcessing.ChartShowsWindowedEntry | frontend/utils/dataProcessing.js:69-77 | an entry inside the window puts its day on the chart |
| FrontendProcessing.LatestOfDayWithin | frontend/utils/dataProcessing.js:40-44 | an entry's day record is not earlier than the entry and not later than the last input entry |
| FrontendProcessing.AverageDayIsLatest | frontend/utils/dataProcessing.js:40-45 | a day's record carries the greatest timestamp among that day's entries |
| FrontendProcessing.GetLatestWeight | frontend/utils/dataProcessing.js:95-100 | `null` exactly for no entries, else the last record of the daily list, whatever order the input is in |
| FrontendProcessing.LatestIsMostRecent | frontend/utils/dataProcessing.js:95-100 | for time-sorted input the latest weight carries the last entry's timestamp |
| FrontendProcessing.CalculateWeightChange | frontend/utils/dataProcessing.js:107-121 | zeros for no entries; otherwise start is the first daily record's weight, current the latest weight, and change = current - start |
| FrontendProcessing.StartIsFirstDay | frontend/utils/dataProcessing.js:112-114 | for time-sorted input the starting weight is that of the record aggregating exactly the entries of the first entry's day |
| FrontendProcessing.SingleEntryChange | frontend/utils/dataProcessing.js:107-121 | a single entry of weight `w` reports current = start = `w` and change 0 |
| Strings.LexLeIsTotalPreorder | src/utils/dataProcessing.js:42 | the default `sort()` order on strings is total and transitive |
| SrcProcessing.AverageDayWithTimes | src/utils/dataProcessing.js:26-52 | a lone entry passes through; several become the latest entry with their rounded mean weight, their count and their clock times |
| SrcProcessing.AverageDayTimes | src/utils/dataProcessing.js:41-50 | an averaged day lists every entry's clock time once, in string order; the range joins the first and last with `-` |
| SrcProcessing.TimeRangeSpansDay | src/utils/dataProcessing.js:41-50 | every entry's clock time lies between the two ends of the day's time range |
| SrcProcessing.AggregatesSpec | src/utils/dataProcessing.js:16-52 | before sorting, there is one record per date and no date twice; each aggregates exactly that date's entries |
| SrcProcessing.DailyRecordsPermutation | src/utils/dataProcessing.js:54-55 | reordering daily records keeps them the daily records of the same entries |
| SrcProcessing.AverageWeightsByDay | src/utils/dataProcessing.js:12-56 | empty exactly for empty input; sorted by `new Date(date)`; a rearrangement of the unsorted records |
| SrcProcessing.AverageWeightsByDaySpec | src/utils/dataProcessing.js:12-56 | one record per date and no date twice; each aggregates exactly that date's entries |
| SrcProcessing.AverageWeightsByDayDates | src/utils/dataProcessing.js:12-56 | the records' dates are exactly the input's dates, each once |
| SrcProcessing.SliceFromEnd | src/utils/dataProcessing.js:67 | `slice(-days)` keeps the last `days` records; 0 keeps all; a negative count drops that many from the front |
| SrcProcessing.ToPoint | src/utils/dataProcessing.js:69-75 | a point carries the record's weight, label, averaged flag and count; its time range is the averaged day's non-empty range, else the entry's non-empty time, else `null` |
| SrcProcessing.PrepareChartData | src/utils/dataProcessing.js:65-76 | the points are the last `days` daily records in order (all for `days` = 0), labelled from their date |
| SrcProcessing.GetLatestWeight | src/utils/dataProcessing.js:83-88 | `null` exactly for no entries |
| SrcProcessing.LatestIsLatestDate | src/utils/dataProcessing.js:83-88 | the latest weight's date is not earlier than any entry's date |
| SrcProcessing.LatestAggregatesItsDate | src/utils/dataProcessing.js:83-88 | the latest weight aggregates all the entries of its date |
| SrcProcessing.CalculateWeightChange | src/utils/dataProcessing.js:95-109 | zeros for no entries; otherwise start is the first daily record's weight, current the latest weight, and change = current - start |
| SrcProcessing.StartIsEarliestDate | src/utils/dataProcessing.js:100-102 | the starting weight is that of the record of the earliest date, which aggregates exactly the entries of that date |
| SrcProcessing.SingleDateNoChange | src/utils/dataProcessing.js:95-109 | entries all on one date report no change |
| Sorting.SortBySorted | frontend/services/dataService.js:65-67 | the stable sort returns a sorted rearrangement of its input |
| Sorting.SortBySortedIsIdentity | frontend/services/dataService.js:65-67 | sorting an already sorted list changes nothing |
| Seqs.FilterKeepsOrder | frontend/services/dataService.js:342 | a filter keeps a sorted list sorted |
| Seqs.FilterSubsequence | frontend/services/dataService.js:85 | `filter` only leaves elements out: the kept ones appear at increasing positions of the input |
| Seqs.FilterComplement | frontend/services/dataService.js:342-343 | the manual and demo filters together account for every entry, so `demoCount` counts the demo entries |
| Seqs.LastN | src/pages/WeightTracker.jsx:228 | `slice(-n)` keeps the last `n` elements, or all when fewer |
| Seqs.Reverse | src/pages/WeightTracker.jsx:228 | `reverse()` lists the elements from the last to the first |
| Seqs.NewestN | src/pages/WeightTracker.jsx:228-229 | `slice(-n).reverse()` holds the last `n` elements, or all when fewer, with position `i` holding the `i`-th element from the end |
| Charts.SeqMin | src/pages/WeightTracker.jsx:99 | `Math.min(...s)` is an element of `s` not above any other |
| Charts.SeqMax | src/pages/WeightTracker.jsx:100 | `Math.max(...s)` is an element of `s` not below any other |
| Charts.Ceil | src/pages/WeightTracker.jsx:110 | `Math.ceil(x)` is the whole number in `[x, x + 1)` |
| Charts.LabelFormatFor | src/pages/WeightTracker.jsx:82 | labels are `MMM dd` exactly for periods of at most 7 days |
| Charts.DecorateGoal | src/pages/WeightTracker.jsx:86-89 | every point is kept, and it carries the goal exactly when the goal is non-zero |
| Charts.DecorateGoalRemovable | src/pages/WeightTracker.jsx:86-89 | removing the goal again gives back the undecorated points |
| WeightTrackerPage.AddWeight | src/pages/WeightTracker.jsx:36-57 | an empty weight, date or time changes nothing; otherwise the new entry joins the list, which stays sorted by timestamp |
| WeightTrackerPage.AddWeightInserts | src/pages/WeightTracker.jsx:52-53 | on a sorted list the new entry is inserted and every other entry keeps its order |
| WeightTrackerPage.DeleteWeight | src/pages/WeightTracker.jsx:59-62 | exactly the entries carrying the id disappear; every other entry keeps its multiplicity, and the kept entries stay in their order |
| WeightTrackerPage.DeleteWeightKeeps | src/pages/WeightTracker.jsx:59-62 | deleting an absent id changes nothing, and deleting keeps a sorted list sorted |
| WeightTrackerPage.SetGoal | src/pages/WeightTracker.jsx:31-34 | the typed goal is stored and read back; the entries and the demo-goal flag are untouched |
| WeightTrackerPage.DemoClearDropsTypedGoal | src/utils/generateFakeData.js:144-166 | after loading demo data into a store without a goal and typing a goal, clearing the demo data removes the typed goal |
| WeightTrackerPage.SetUserGoal | src/pages/WeightTracker.jsx:31-34 | corrected: the typed goal is stored and the demo-goal flag removed |
| WeightTrackerPage.TypedGoalSurvivesClear | src/utils/generateFakeData.js:144-166 | with the corrected goal setter, clearing the demo data keeps the typed goal and the manual entries |
| WeightTrackerPage.GoalProgress | src/pages/WeightTracker.jsx:77-78 | progress is 0 without a goal, else the weight above the goal; it is positive exactly when a goal is set and exceeded |
| WeightTrackerPage.EntriesToShow | src/pages/WeightTracker.jsx:227-229 | the list is the last 20 entries or the last 10 daily records, newest first |
| WeightTrackerPage.NewestFirst | src/pages/WeightTracker.jsx:227-229 | reading the tail of a sorted list from its end gives a list whose key never grows |
| WeightTrackerPage.DailyListNewestFirst | src/pages/WeightTracker.jsx:229 | the daily list never moves to a later date |
| WeightTrackerPage.AllEntriesNewestFirst | src/pages/WeightTracker.jsx:228 | for the sorted stored list, the full list never moves to a later timestamp |
| WeightTrackerPage.YAxisDomain | src/pages/WeightTracker.jsx:95-111 | automatic exactly without points; otherwise the lower bound is at least 0 and not above any non-negative weight, the upper bound is at least 2 above every weight, and the bounds are the weights' range widened by max(10% of it, 2), cut at 0 below and rounded outwards to the nearest whole numbers |
| DashboardPage.DefaultWeight | frontend/pages/Dashboard.jsx:28-31 | no default exactly when nothing is stored; otherwise the weight of the last stored entry |
| DashboardPage.DefaultIsLatest | frontend/pages/Dashboard.jsx:28-31 | on the sorted stored list, the default weight belongs to an entry no other entry is later than |
| DashboardPage.FrontendAddWeight | frontend/pages/Dashboard.jsx:40-74 | an empty weight or date changes nothing; otherwise the entry is stamped with the date at the current time and added through the storage service, keeping the list sorted |
| DashboardPage.DefaultAfterLatestAdd | frontend/pages/Dashboard.jsx:59-68 | an entry no earlier than any stored one becomes the default weight on the next load |
| DashboardPage.SrcAddWeight | src/pages/Dashboard.jsx:28-47 | an empty weight or date changes nothing; otherwise the entry, stamped at noon of its date, joins the list, which stays sorted |
| DashboardPage.FrontendChartData | frontend/pages/Dashboard.jsx:77-87 | one point per windowed daily record, carrying its weight, `isAveraged`, `originalEntries` and no time range; labels are `MMM dd` exactly for periods up to a week; the goal is added exactly when non-zero |
| DashboardPage.SrcChartData | src/pages/Dashboard.jsx:50-60 | the prepared points unchanged apart from the goal, which is added exactly when non-zero |
| DashboardPage.AxisValues | frontend/pages/Dashboard.jsx:95-100 | the axis must show every plotted weight and a positive goal, and nothing else |
| DashboardPage.YAxisDomain | frontend/pages/Dashboard.jsx:92-111 | automatic exactly without points; otherwise the lower bound is at least 0 and not above any non-negative shown value, the upper bound is at least 5 above every shown value, and the bounds are the shown values' range widened by max(10% of it, 5), cut at 0 below and rounded outwards to the nearest whole numbers |
| DashboardPage.GoalLineVisible | src/pages/Dashboard.jsx:65-84 | with a positive goal, the axis contains the goal with 5 to spare above and every non-negative weight |

The weight tracker's chart (`src/pages/WeightTracker.jsx:81-90`) is the same computation
as `DashboardPage.SrcChartData`.

## Left out

- Time zones and `date-fns`. Calendar days, clock times, date parsing and label
  formatting are parameters, so the model holds for any time zone and calendar. The
  wallet app's `subDays` window is taken as a fixed offset of `days - 1` whole days.
- Floating point. Weights are exact reals. IEEE rounding in the mean and in
  `Math.round(x * 10) / 10` is not modelled, and neither is `NaN` from an unparsable
  weight or goal (`parseFloat` is the `parseNumber` parameter, or its result is passed in).
- `x || 0` fallbacks that only matter for `NaN` or a missing field, such as
  `averagedWeights[i]?.weight || 0`, are modelled as the plain value.
- `null`, `undefined` and a missing storage key are `None`. A `null` weight list is
  treated like an empty one, which every operation handles the same way.
- JSON (de)serialisation, `localStorage` quota and parse exceptions, and every
  `try`/`catch` path that only logs are out of the model. The service's error results
  for a missing demo list are modelled.
- The random demo generators (`generateWeightLossData` in both variants) and
  `Date.now()` ids are out of the model. The generated list and the id are inputs.
- The string order of clock times is code-point order. JavaScript's default `sort()`
  compares UTF-16 code units; the two agree on the `HH:mm` texts the app produces.
- The backup file's reading, its other keys, and backup creation are out of the model.
  Only the store transition of a restore is modelled.
- The wallet, Aptos and database services, and every React component and its rendering.
- The goal text's parse (`parseFloat(goal) || 0`) is not modelled: the chart and axis
  operations take the parsed goal as a number.
- The wallet app's dashboard stamps a new entry with `new Date(date)` at the current
  clock time. `new Date('yyyy-MM-dd')` is UTC midnight, so west of UTC the stamp can
  fall on the previous local day. The `atNow` parameter stands for that stamping as
  written; which day it lands on depends on the time zone, which is outside the model.
- SrcProcessing.GetLatestWeight: its own contract only says when it is `null`. What
  the record is comes from `LatestIsLatestDate` and `LatestAggregatesItsDate`.

## Findings

| source | as written | input that shows it | evidently intended | confidence | as-written member | corrected member |
|---|---|---|---|---|---|---|
| src/utils/generateFakeData.js:162-166 | the weight page's `saveGoal` (`WeightTrackerPage.SetGoal`) stores the typed goal but leaves `healthTracker_isDemoGoal` set, and `clearFakeData` removes the goal whenever that flag is set | a store with no goal: load the demo data (goal 165, flag set), type goal `170`, clear the demo data: the goal is gone | clearing demo data keeps what the user entered, including a goal typed after loading, as the comment above `clearFakeData` says; `WeightTrackerPage.SetUserGoal` drops the flag when the user saves a goal | medium; not executed | WeightTrackerPage.DemoClearDropsTypedGoal | WeightTrackerPage.TypedGoalSurvivesClear |
