/**
 * The two classifiers of the hike card: the colour band of a difficulty
 * rating and the label of a crowd level.
 */
module HikeCard {

  /** The CSS class names `getDifficultyColor` returns, from easiest to hardest. */
  datatype Band = Easy | Moderate | Hard | Extreme

  function Rank(b: Band): nat {
    match b
    case Easy => 0
    case Moderate => 1
    case Hard => 2
    case Extreme => 3
  }

  /** The ratings at which the card moves to the next band: 3, 6 and 8 still belong to the band below. */
  const Thresholds: seq<real> := [3.0, 6.0, 8.0]

  /** `getDifficultyColor`: the band is one step harder for each threshold the rating exceeds. */
  function DifficultyColor(rating: real): (band: Band)
    ensures forall k :: 0 <= k < |Thresholds| ==> (Rank(band) > k <==> rating > Thresholds[k])
  {
    if rating <= 3.0 then Easy
    else if rating <= 6.0 then Moderate
    else if rating <= 8.0 then Hard
    else Extreme
  }

  /** A harder rating never gets an easier band. */
  lemma DifficultyMonotone(r1: real, r2: real)
    requires r1 <= r2
    ensures Rank(DifficultyColor(r1)) <= Rank(DifficultyColor(r2))
  {
  }

  /** Every band is reached by some rating on the 1..10 scale. */
  lemma EveryBandReached(b: Band) returns (rating: real)
    ensures 1.0 <= rating <= 10.0 && DifficultyColor(rating) == b
  {
    rating := match b
      case Easy => 1.0
      case Moderate => 4.0
      case Hard => 7.0
      case Extreme => 9.0;
  }

  /** The crowd labels by level; level 0 holds the empty string, which counts as missing. */
  const Labels: seq<string> := ["", "Hermit", "Low", "Moderate", "Medium", "High"]

  const UnknownLabel: string := "Unknown"

  /**
   * `getCrowdLabel`: `labels[level] || 'Unknown'`. An index outside the
   * table reads `undefined` and the empty entry is falsy; both fall back.
   */
  function CrowdLabel(level: int): (name: string)
    ensures 1 <= level <= 5 ==> name == Labels[level]
    ensures !(1 <= level <= 5) ==> name == UnknownLabel
    ensures name != ""
  {
    if 0 <= level < |Labels| && Labels[level] != "" then Labels[level] else UnknownLabel
  }

  /** The five levels have five different labels, none of them the fallback. */
  lemma CrowdLabelsDistinct(l1: int, l2: int)
    requires 1 <= l1 <= 5 && 1 <= l2 <= 5
    ensures CrowdLabel(l1) != UnknownLabel
    ensures CrowdLabel(l1) == CrowdLabel(l2) <==> l1 == l2
  {
  }
}
