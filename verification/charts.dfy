/** What the pages do with chart points: pick the label format, add the goal line, and
    bound the y-axis around the plotted values. */
module Charts {
  import opened Wrappers
  import opened Records

  /** A y-axis domain: recharts' `['auto', 'auto']`, or whole-number bounds. */
  datatype Domain = Auto | Bounds(lo: int, hi: int)

  /** `Math.min(...s)`. */
  function SeqMin(s: seq<real>): (m: real)
    requires |s| > 0
    ensures m in s
    ensures forall i :: 0 <= i < |s| ==> m <= s[i]
    decreases |s|
  {
    if |s| == 1 then s[0]
    else
      var rest := SeqMin(s[..|s| - 1]);
      assert s[..|s| - 1][0] == s[0];
      if s[|s| - 1] < rest then s[|s| - 1] else rest
  }

  /** `Math.max(...s)`. */
  function SeqMax(s: seq<real>): (m: real)
    requires |s| > 0
    ensures m in s
    ensures forall i :: 0 <= i < |s| ==> s[i] <= m
    decreases |s|
  {
    if |s| == 1 then s[0]
    else
      var rest := SeqMax(s[..|s| - 1]);
      assert s[..|s| - 1][0] == s[0];
      if s[|s| - 1] > rest then s[|s| - 1] else rest
  }

  /** `Math.ceil(x)`: the least whole number not below `x`. */
  function Ceil(x: real): (c: int)
    ensures x <= c as real < x + 1.0
  {
    -((-x).Floor)
  }

  function MaxReal(a: real, b: real): (m: real)
    ensures m >= a && m >= b && (m == a || m == b)
  {
    if a >= b then a else b
  }

  /** `d` is the domain of the values `vs` widened on each side by a tenth of their
      range but at least `minPad`: the upper end is the widened maximum rounded up, the
      lower end the widened minimum cut off at 0 and rounded down. */
  ghost predicate PaddedAround(d: Domain, vs: seq<real>, minPad: real)
    requires |vs| > 0
  {
    var lo := SeqMin(vs);
    var hi := SeqMax(vs);
    var padding := MaxReal((hi - lo) * 0.1, minPad);
    && d.Bounds?
    && hi + padding <= d.hi as real < hi + padding + 1.0
    && d.lo as real <= MaxReal(0.0, lo - padding) < d.lo as real + 1.0
  }

  /** The plotted weights, in order. */
  function Weights(points: seq<ChartPoint>): (ws: seq<real>)
    ensures |ws| == |points|
    ensures forall i :: 0 <= i < |points| ==> ws[i] == points[i].weight
  {
    seq(|points|, i requires 0 <= i < |points| => points[i].weight)
  }

  /** `chartPeriod <= 7 ? 'MMM dd' : 'MM/dd'`. */
  function LabelFormatFor(period: int): (f: LabelFormat)
    ensures f == MonthNameDay <==> period <= 7
  {
    if period <= 7 then MonthNameDay else MonthSlashDay
  }

  /** `chartData.map(entry => ({ ...entry, goal: goalWeight || undefined }))`. */
  function DecorateGoal(points: seq<ChartPoint>, goalWeight: real): (r: seq<ChartPoint>)
    ensures |r| == |points|
    ensures forall i :: 0 <= i < |points| ==> r[i].(goal := None) == points[i].(goal := None)
    ensures forall i :: 0 <= i < |points| ==>
      (r[i].goal.None? <==> goalWeight == 0.0) && (r[i].goal.Some? ==> r[i].goal.value == goalWeight)
  {
    var goal := if goalWeight != 0.0 then Some(goalWeight) else None;
    seq(|points|, i requires 0 <= i < |points| => points[i].(goal := goal))
  }

  /** Decorating points that carry no goal and then dropping the goal again gives the
      points back: the decoration touches nothing else. */
  lemma DecorateGoalRemovable(points: seq<ChartPoint>, goalWeight: real)
    requires forall i :: 0 <= i < |points| ==> points[i].goal.None?
    ensures var r := DecorateGoal(points, goalWeight);
      seq(|r|, i requires 0 <= i < |r| => r[i].(goal := None)) == points
  {
    var r := DecorateGoal(points, goalWeight);
    var back := seq(|r|, i requires 0 <= i < |r| => r[i].(goal := None));
    forall i | 0 <= i < |points| ensures back[i] == points[i] {
      assert points[i].(goal := None) == points[i];
    }
  }
}
