/**
 * The scatter plot's data side (the VisualizationPage component): which
 * records can be drawn, the padded linear scale of each axis, and the six
 * axis ticks. Arithmetic is over the reals, not IEEE doubles.
 */
module Scatter {
  import opened Options
  import opened Hikes
  import opened Subsequences

  /** The numeric fields offered for either axis. */
  datatype Field =
    | DifficultyRating | RoundTripMiles | TotalElevationGain | HikingTimeMax | HikingTimeMin
    | StartElevation | ClassNumeric | CrowdLevelNumeric | HighestPeakElevation | DistanceFromDenver

  /** `hike[field]`; only the Denver distance can be null. */
  function FieldValue(h: Hike, f: Field): Option<real> {
    match f
    case DifficultyRating => Some(h.difficultyRating)
    case RoundTripMiles => Some(h.roundTripMiles)
    case TotalElevationGain => Some(h.totalElevationGain)
    case HikingTimeMax => Some(h.hikingTimeMax)
    case HikingTimeMin => Some(h.hikingTimeMin)
    case StartElevation => Some(h.startElevation)
    case ClassNumeric => Some(h.classNumeric)
    case CrowdLevelNumeric => Some(h.crowdLevelNumeric as real)
    case HighestPeakElevation => Some(h.highestPeakElevation)
    case DistanceFromDenver => h.distanceFromDenver
  }

  datatype Axis = X | Y

  /** Size of the drawing and the margins around the plotting area, in pixels. */
  datatype Size = Size(width: real, height: real)
  datatype Margin = Margin(top: real, right: real, bottom: real, left: real)

  const InitialSvgSize: Size := Size(800.0, 600.0)
  const ChartMargin: Margin := Margin(20.0, 20.0, 60.0, 80.0)

  /** The plotting area: the drawing less the margins on each side. */
  function ChartSize(svg: Size, m: Margin): (c: Size)
    ensures c.width + m.left + m.right == svg.width
    ensures c.height + m.top + m.bottom == svg.height
  {
    Size(svg.width - m.left - m.right, svg.height - m.top - m.bottom)
  }

  /** With the initial drawing size the plotting area is 700 by 520. */
  lemma InitialChartSize()
    ensures ChartSize(InitialSvgSize, ChartMargin) == Size(700.0, 520.0)
  {
  }

  predicate IsValidPoint(h: Hike, x: Field, y: Field) {
    FieldValue(h, x).Some? && FieldValue(h, y).Some?
  }

  /** `validHikes`: the records with a value on both axes, in their original order. */
  function ValidHikes(hikes: seq<Hike>, x: Field, y: Field): (r: seq<Hike>)
    ensures forall h :: h in r <==> h in hikes && IsValidPoint(h, x, y)
    ensures forall h :: multiset(r)[h] == if IsValidPoint(h, x, y) then multiset(hikes)[h] else 0
    ensures IsSubsequence(r, hikes)
  {
    if hikes == [] then []
    else
      var rest := ValidHikes(hikes[1..], x, y);
      assert forall h :: h in hikes <==> h == hikes[0] || h in hikes[1..] by {
        assert hikes == [hikes[0]] + hikes[1..];
      }
      assert multiset(hikes) == multiset([hikes[0]]) + multiset(hikes[1..]) by {
        assert hikes == [hikes[0]] + hikes[1..];
      }
      if IsValidPoint(hikes[0], x, y) then [hikes[0]] + rest else rest
  }

  /** A hike without a Denver distance is dropped exactly when that field is on an axis. */
  lemma MissingDenverDistance(hikes: seq<Hike>, h: Hike, x: Field, y: Field)
    requires h in hikes && h.distanceFromDenver.None?
    ensures h in ValidHikes(hikes, x, y) <==> x != DistanceFromDenver && y != DistanceFromDenver
  {
  }

  /** `validHikes.map(h => h[field])` for a field every valid record has. */
  function Values(valid: seq<Hike>, f: Field): (v: seq<real>)
    requires forall h :: h in valid ==> FieldValue(h, f).Some?
    ensures |v| == |valid|
    ensures forall i :: 0 <= i < |valid| ==> v[i] == FieldValue(valid[i], f).value
  {
    seq(|valid|, i requires 0 <= i < |valid| => FieldValue(valid[i], f).value)
  }

  /** `Math.min(...values)`. */
  function Min(v: seq<real>): (m: real)
    requires |v| > 0
    ensures m in v && forall x :: x in v ==> m <= x
  {
    if |v| == 1 then v[0]
    else
      var rest := Min(v[1..]);
      assert forall x :: x in v <==> x == v[0] || x in v[1..] by {
        assert v == [v[0]] + v[1..];
      }
      if v[0] <= rest then v[0] else rest
  }

  /** `Math.max(...values)`. */
  function Max(v: seq<real>): (m: real)
    requires |v| > 0
    ensures m in v && forall x :: x in v ==> x <= m
  {
    if |v| == 1 then v[0]
    else
      var rest := Max(v[1..]);
      assert forall x :: x in v <==> x == v[0] || x in v[1..] by {
        assert v == [v[0]] + v[1..];
      }
      if v[0] >= rest then v[0] else rest
  }

  /**
   * What `getScale` returns and what its `scale` closure captures: the padded
   * domain `[min, max]`, the data minimum, the data range and the padding,
   * the axis, and the plotting area.
   */
  datatype Scale = Scale(min: real, max: real, dataMin: real, range: real, padding: real,
                         axis: Axis, chartWidth: real, chartHeight: real)

  /** The shape every scale built from data has: 5% padding on each side of the data range. */
  predicate WellFormed(s: Scale) {
    && s.range >= 0.0
    && s.padding == s.range * 0.05
    && s.min == s.dataMin - s.padding
    && s.max == s.dataMin + s.range + s.padding
  }

  /** `getScale(field, dimension)` over the field's values on the valid records. */
  function GetScale(values: seq<real>, axis: Axis, chart: Size): (s: Scale)
    requires |values| > 0
    ensures WellFormed(s)
    ensures s.dataMin == Min(values) && s.dataMin + s.range == Max(values)
    ensures forall v :: v in values ==> s.min <= v <= s.max
    ensures s.max - s.min == (Max(values) - Min(values)) * 1.1
  {
    var lo := Min(values);
    var hi := Max(values);
    var range := hi - lo;
    var padding := range * 0.05;
    Scale(lo - padding, hi + padding, lo, range, padding, axis, chart.width, chart.height)
  }

  /** `scale.scale(value)`: the pixel position of a value (`range + 2·padding` must not be 0). */
  function Project(s: Scale, value: real): real
    requires s.range + 2.0 * s.padding != 0.0
  {
    var normalized := (value - (s.dataMin - s.padding)) / (s.range + 2.0 * s.padding);
    if s.axis == X then normalized * s.chartWidth else s.chartHeight - normalized * s.chartHeight
  }

  /**
   * The x axis maps the padded domain's lower end to 0 and its upper end to
   * the chart width; the y axis is inverted, lower end to the chart height
   * and upper end to 0.
   */
  lemma ProjectDomainEnds(s: Scale)
    requires WellFormed(s) && s.range > 0.0
    ensures s.axis == X ==> Project(s, s.min) == 0.0 && Project(s, s.max) == s.chartWidth
    ensures s.axis == Y ==> Project(s, s.min) == s.chartHeight && Project(s, s.max) == 0.0
  {
    var d := s.range + 2.0 * s.padding;
    assert d == s.range * 1.1;
    assert s.max - (s.dataMin - s.padding) == d;
    assert d / d == 1.0;
    assert (s.dataMin - s.padding - (s.dataMin - s.padding)) / d == 0.0;
  }

  /** The data minimum itself lands one twenty-second of the way along the axis, inside the padding. */
  lemma ProjectDataMin(s: Scale)
    requires WellFormed(s) && s.range > 0.0
    ensures s.axis == X ==> Project(s, s.dataMin) == s.chartWidth / 22.0
    ensures s.axis == Y ==> Project(s, s.dataMin) == s.chartHeight - s.chartHeight / 22.0
  {
    var d := s.range + 2.0 * s.padding;
    assert d == s.range * 1.1;
    assert s.padding / d == 1.0 / 22.0;
  }

  /** With a positive data range the x projection is increasing and the y projection decreasing. */
  lemma ProjectMonotone(s: Scale, a: real, b: real)
    requires WellFormed(s) && s.range > 0.0
    requires a < b
    ensures s.axis == X && s.chartWidth > 0.0 ==> Project(s, a) < Project(s, b)
    ensures s.axis == Y && s.chartHeight > 0.0 ==> Project(s, a) > Project(s, b)
  {
    var d := s.range + 2.0 * s.padding;
    var lo := s.dataMin - s.padding;
    assert d > 0.0;
    assert (a - lo) / d < (b - lo) / d by {
      assert (b - lo) / d - (a - lo) / d == (b - a) / d;
    }
    var na, nb := (a - lo) / d, (b - lo) / d;
    if s.chartWidth > 0.0 {
      assert na * s.chartWidth < nb * s.chartWidth by {
        assert nb * s.chartWidth - na * s.chartWidth == (nb - na) * s.chartWidth;
      }
    }
    if s.chartHeight > 0.0 {
      assert na * s.chartHeight < nb * s.chartHeight by {
        assert nb * s.chartHeight - na * s.chartHeight == (nb - na) * s.chartHeight;
      }
    }
  }

  /** The last of `TickCount + 1` evenly spaced values is the upper end. */
  lemma LastTick(lo: real, hi: real)
    ensures lo + (hi - lo) / TickCount as real * TickCount as real == hi
  {
  }

  /** Evenly spaced values with a positive step increase with their index. */
  lemma TickValuesIncrease(lo: real, step: real, i: nat, j: nat, a: real, b: real)
    requires step > 0.0 && i < j
    requires a == lo + step * i as real && b == lo + step * j as real
    ensures a < b
  {
    assert step * j as real - step * i as real == step * (j - i) as real;
    assert step * (j - i) as real > 0.0;
  }

  /** One axis tick: its value (before rounding for display) and its pixel position. */
  datatype Tick = Tick(value: real, position: real)

  const TickCount: nat := 5

  /** `generateTicks`: `TickCount + 1` evenly spaced values from the domain's lower to its upper end. */
  method GenerateTicks(s: Scale) returns (ticks: seq<Tick>)
    requires WellFormed(s) && s.range > 0.0
    ensures |ticks| == TickCount + 1
    ensures forall i :: 0 <= i < |ticks| ==>
      ticks[i].value == s.min + (s.max - s.min) / TickCount as real * i as real
      && ticks[i].position == Project(s, ticks[i].value)
    ensures ticks[0].value == s.min && ticks[TickCount].value == s.max
    ensures s.axis == X && s.chartWidth > 0.0 ==>
      forall i, j :: 0 <= i < j < |ticks| ==> ticks[i].position < ticks[j].position
    ensures s.axis == Y && s.chartHeight > 0.0 ==>
      forall i, j :: 0 <= i < j < |ticks| ==> ticks[i].position > ticks[j].position
  {
    ticks := [];
    var step := (s.max - s.min) / TickCount as real;
    assert step > 0.0;
    for i := 0 to TickCount + 1
      invariant |ticks| == i
      invariant forall k :: 0 <= k < i ==>
        ticks[k].value == s.min + step * k as real && ticks[k].position == Project(s, ticks[k].value)
    {
      var value := s.min + step * i as real;
      var position := Project(s, value);
      ghost var prior := ticks;
      ticks := ticks + [Tick(value, position)];
      assert ticks[i] == Tick(value, position);
      assert forall k :: 0 <= k < i ==> ticks[k] == prior[k];
    }
    LastTick(s.min, s.max);
    forall i, j | 0 <= i < j < |ticks|
      ensures s.axis == X && s.chartWidth > 0.0 ==> ticks[i].position < ticks[j].position
      ensures s.axis == Y && s.chartHeight > 0.0 ==> ticks[i].position > ticks[j].position
    {
      TickValuesIncrease(s.min, step, i, j, ticks[i].value, ticks[j].value);
      ProjectMonotone(s, ticks[i].value, ticks[j].value);
    }
  }
}
