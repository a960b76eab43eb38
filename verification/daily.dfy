/** The arithmetic and selection both aggregation variants apply to the entries of
    one day, and the summaries both derive from the daily list. */
module Daily {
  import opened Wrappers
  import opened Records

  function SumWeights(m: seq<Entry>): real
    decreases |m|
  {
    if |m| == 0 then 0.0 else SumWeights(m[..|m| - 1]) + m[|m| - 1].weight
  }

  function Mean(m: seq<Entry>): real
    requires |m| > 0
  {
    SumWeights(m) / (|m| as real)
  }

  /** `Math.round(x * 10) / 10`: round half up to one decimal. */
  function RoundToTenth(x: real): (r: real)
    ensures x - 0.05 < r <= x + 0.05
    ensures (r * 10.0).Floor as real == r * 10.0
  {
    ((x * 10.0 + 0.5).Floor as real) / 10.0
  }

  /** The position the `reduce` keeps as the latest entry: a strictly later timestamp
      replaces the current choice, so the first of several equal latest ones wins. */
  function LatestIndex(m: seq<Entry>): (k: nat)
    requires |m| > 0
    ensures k < |m|
    ensures forall j :: 0 <= j < |m| ==> m[j].timestamp <= m[k].timestamp
    ensures forall j :: 0 <= j < k ==> m[j].timestamp < m[k].timestamp
    decreases |m|
  {
    if |m| == 1 then 0
    else
      var k := LatestIndex(m[..|m| - 1]);
      if m[|m| - 1].timestamp > m[k].timestamp then |m| - 1 else k
  }

  /** The daily record of the timestamp variant for the entries `m` of one day: a lone
      entry passes through unchanged; several become the latest entry carrying their
      rounded mean weight and their count. */
  function AverageDay(m: seq<Entry>): (r: Entry)
    requires |m| > 0
    ensures |m| == 1 ==> r == m[0]
    ensures |m| > 1 ==> SameBase(r, m[LatestIndex(m)])
    ensures |m| > 1 ==> r.weight == RoundToTenth(Mean(m)) && r.decoration == Averaged(|m|)
  {
    if |m| == 1 then m[0]
    else m[LatestIndex(m)].(weight := RoundToTenth(Mean(m)), decoration := Averaged(|m|))
  }

  /** The last daily record, or `null` when there are no entries. */
  function LatestOf(aggs: seq<Entry>): (r: Option<Entry>)
    ensures r.None? <==> |aggs| == 0
    ensures r.Some? ==> r.value == aggs[|aggs| - 1]
  {
    if |aggs| == 0 then None else Some(aggs[|aggs| - 1])
  }

  /** Start and current weight are the first and last daily records' weights. */
  function ChangeOf(aggs: seq<Entry>): (r: WeightChange)
    ensures |aggs| == 0 ==> r == WeightChange(0.0, 0.0, 0.0)
    ensures |aggs| > 0 ==> r.start == aggs[0].weight && r.current == aggs[|aggs| - 1].weight
    ensures r.change == r.current - r.start
  {
    if |aggs| == 0 then WeightChange(0.0, 0.0, 0.0)
    else
      var current := aggs[|aggs| - 1].weight;
      var start := aggs[0].weight;
      WeightChange(current, start, current - start)
  }

  /** One daily record moves neither way. */
  lemma SingleDayNoChange(aggs: seq<Entry>)
    requires |aggs| == 1
    ensures ChangeOf(aggs).change == 0.0
    ensures ChangeOf(aggs).current == ChangeOf(aggs).start == aggs[0].weight
  {
  }

  /** A day whose entries all weigh the same one-decimal amount averages to it. */
  lemma {:induction false} EqualWeightsAverage(m: seq<Entry>, w: real)
    requires |m| > 0
    requires forall i :: 0 <= i < |m| ==> m[i].weight == w
    requires (w * 10.0).Floor as real == w * 10.0
    ensures AverageDay(m).weight == w
  {
    SumOfEqual(m, w);
    assert Mean(m) == w;
    var f := (w * 10.0 + 0.5).Floor;
    assert f == (w * 10.0).Floor;
  }

  lemma {:induction false} SumOfEqual(m: seq<Entry>, w: real)
    requires forall i :: 0 <= i < |m| ==> m[i].weight == w
    ensures SumWeights(m) == (|m| as real) * w
    decreases |m|
  {
    if |m| > 0 {
      SumOfEqual(m[..|m| - 1], w);
    }
  }
}
