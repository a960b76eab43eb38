/** The records the app keeps and derives: logged weight entries, the daily records
    built from them, chart points and summary figures. */
module Records {
  import opened Wrappers

  /** The fields the daily aggregation adds to a record. A record that passed through
      untouched carries none of them (`Plain`); the timestamp variant adds the count,
      the date variant adds the count and the day's clock times as well. */
  datatype Decoration =
    | Plain
    | Averaged(originalEntries: nat)
    | AveragedWithTimes(originalEntries: nat, times: seq<string>, timeRange: string)

  /** A logged measurement. `timestamp` is the instant in epoch milliseconds; `date` is
      the `yyyy-MM-dd` string and `time` the `HH:mm` string the form recorded (the
      empty string where the record has none). */
  datatype Entry = Entry(
    id: int,
    weight: real,
    date: string,
    time: string,
    timestamp: int,
    isDemoData: bool,
    decoration: Decoration)

  /** A measurement as the forms and the demo generator create it. */
  predicate IsRaw(e: Entry) {
    e.decoration.Plain?
  }

  /** Every field except `weight` and the aggregation fields agree. */
  predicate SameBase(a: Entry, b: Entry) {
    a.id == b.id && a.date == b.date && a.time == b.time
    && a.timestamp == b.timestamp && a.isDemoData == b.isDemoData
  }

  /** `entry.isAveraged || false`. */
  function IsAveraged(e: Entry): bool {
    !e.decoration.Plain?
  }

  /** `entry.originalEntries || 1`: a missing or zero count reads as one. */
  function OriginalEntries(e: Entry): (n: nat)
    ensures n >= 1
    ensures e.decoration.Plain? ==> n == 1
  {
    match e.decoration
    case Plain => 1
    case Averaged(k) => if k == 0 then 1 else k
    case AveragedWithTimes(k, _, _) => if k == 0 then 1 else k
  }

  /** The two label formats of the chart: `'MMM dd'` and `'MM/dd'`. */
  datatype LabelFormat = MonthNameDay | MonthSlashDay

  /** A point of the weight chart; `date` is the formatted label. `timeRange` is absent in the timestamp variant and
      `null` when the date variant has none; `goal` is added by the dashboards and is
      `undefined` when there is no goal. */
  datatype ChartPoint = ChartPoint(
    date: string,
    weight: real,
    isAveraged: bool,
    originalEntries: nat,
    timeRange: Option<string>,
    goal: Option<real>)

  /** The summary figures `calculateWeightChange` returns. */
  datatype WeightChange = WeightChange(current: real, start: real, change: real)

  /** Milliseconds in a day: `subDays` is taken as a fixed offset. */
  const DayMs: int := 86_400_000
}
