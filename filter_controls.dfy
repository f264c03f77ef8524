/**
 * The range editors of the filter panel. Each of the five ranges
 * (difficulty, distance, elevation gain, hike time, distance from Denver)
 * has a minimum and a maximum input guarded by the same rule: a new minimum
 * is passed on only when it does not exceed the current maximum, a new
 * maximum only when it is not below the current minimum. Otherwise nothing
 * is emitted and the range stays as it was.
 */
module FilterControls {
  import opened Options

  /** An inclusive numeric range `{min, max}`. */
  datatype Range = Range(min: real, max: real)

  /** The five filter dimensions that carry a range. */
  datatype Dimension = Difficulty | Distance | ElevationGain | HikeTime | DistanceFromDenver

  predicate Ordered(r: Range) {
    r.min <= r.max
  }

  /** A typed minimum: `Some(new range)` when it is forwarded, `None` when the edit is dropped. */
  function EditMin(range: Range, newMin: real): (r: Option<Range>)
    ensures r.Some? <==> newMin <= range.max
    ensures r.Some? ==> r.value.min == newMin && r.value.max == range.max
  {
    if newMin <= range.max then Some(range.(min := newMin)) else None
  }

  /** A typed maximum: `Some(new range)` when it is forwarded, `None` when the edit is dropped. */
  function EditMax(range: Range, newMax: real): (r: Option<Range>)
    ensures r.Some? <==> newMax >= range.min
    ensures r.Some? ==> r.value.max == newMax && r.value.min == range.min
  {
    if newMax >= range.min then Some(range.(max := newMax)) else None
  }

  /** The range the parent holds after an edit: the forwarded one, or the old one when nothing was emitted. */
  function Applied(range: Range, emitted: Option<Range>): Range {
    emitted.GetOr(range)
  }

  /**
   * Every forwarded range is ordered, whatever the range was before, and
   * so the parent's range stays ordered across any sequence of edits.
   */
  lemma EditsKeepRangeOrdered(range: Range, value: real)
    requires Ordered(range)
    ensures Ordered(Applied(range, EditMin(range, value)))
    ensures Ordered(Applied(range, EditMax(range, value)))
    ensures EditMin(range, value).Some? ==> Ordered(EditMin(range, value).value)
    ensures EditMax(range, value).Some? ==> Ordered(EditMax(range, value).value)
  {
  }

  /** An accepted edit changes only the edited end; a rejected one changes nothing. */
  lemma EditsChangeOneEnd(range: Range, value: real)
    ensures Applied(range, EditMin(range, value)).max == range.max
    ensures Applied(range, EditMax(range, value)).min == range.min
    ensures Applied(range, EditMin(range, value)).min == (if value <= range.max then value else range.min)
    ensures Applied(range, EditMax(range, value)).max == (if value >= range.min then value else range.max)
  {
  }

  /** Labels of the crowd-level selector, lowest first. */
  const CrowdLevelLabels: seq<string> := ["Hermit", "Low", "Moderate", "Medium", "High"]

  /** The values the crowd-level selector offers: one per label, numbered from 1. */
  function CrowdLevelChoices(): (levels: seq<int>)
    ensures levels == [1, 2, 3, 4, 5]
  {
    seq(|CrowdLevelLabels|, i => i + 1)
  }
}
