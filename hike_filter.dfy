/**
 * The hikes page's filter and sort (the App component's `getFilteredHikes`
 * and `getSortedHikes`). Both are pure: the filter keeps, in order, the
 * records that pass every criterion; the sort orders a copy of its input.
 */
module HikeFilter {
  import opened Options
  import opened Text
  import opened Sorting
  import opened Subsequences
  import opened Hikes
  import opened FilterControls

  /** Every filter setting the hikes page holds. */
  datatype FilterParams = FilterParams(
    searchTerm: string,
    difficultyRange: Range,
    distanceRange: Range,
    elevationGainRange: Range,
    hikeTimeRange: Range,
    distanceFromDenverRange: Range,
    selectedClasses: seq<int>,
    maxCrowdLevel: int,
    showFourteenersOnly: bool,
    showOvernightOnly: bool,
    showInSeasonOnly: bool)

  /** The settings the page starts with and returns to on reset. */
  const DefaultFilters: FilterParams := FilterParams(
    "",
    Range(1.0, 10.0),
    Range(0.0, 25.0),
    Range(0.0, 10000.0),
    Range(0.0, 24.0),
    Range(0.0, 250.0),
    [],
    5,
    false,
    false,
    false)

  /** Peak elevation from which a hike counts as a fourteener. */
  const FourteenerElevation: real := 14000.0

  /** An empty term matches everything; otherwise the name or the description contains it, ignoring case. */
  predicate MatchesSearch(h: Hike, term: string) {
    term == []
    || Contains(ToLower(h.name), ToLower(term))
    || Contains(ToLower(h.description), ToLower(term))
  }

  predicate InRange(v: real, r: Range) {
    r.min <= v <= r.max
  }

  /** The hike's time span is rejected only when it lies wholly above or wholly below the range. */
  predicate TimeOverlaps(h: Hike, r: Range) {
    !(h.hikingTimeMin > r.max || h.hikingTimeMax < r.min)
  }

  /** No class selected means no restriction; otherwise the integer part of the class must be selected. */
  predicate ClassSelected(h: Hike, classes: seq<int>) {
    |classes| == 0 || h.classNumeric.Floor in classes
  }

  /** The Denver range is checked only for a truthy distance: null and 0 always pass. */
  predicate DenverDistanceAllowed(h: Hike, r: Range) {
    match h.distanceFromDenver
    case None => true
    case Some(d) => d == 0.0 || InRange(d, r)
  }

  /** All criteria of the filter, conjunctively. */
  predicate Passes(h: Hike, p: FilterParams) {
    && MatchesSearch(h, p.searchTerm)
    && InRange(h.difficultyRating, p.difficultyRange)
    && InRange(h.roundTripMiles, p.distanceRange)
    && InRange(h.totalElevationGain, p.elevationGainRange)
    && TimeOverlaps(h, p.hikeTimeRange)
    && ClassSelected(h, p.selectedClasses)
    && h.crowdLevelNumeric <= p.maxCrowdLevel
    && (p.showFourteenersOnly ==> h.highestPeakElevation >= FourteenerElevation)
    && (p.showOvernightOnly ==> h.isOvernight)
    && (p.showInSeasonOnly ==> h.isInSeason)
    && DenverDistanceAllowed(h, p.distanceFromDenverRange)
  }

  /** `getFilteredHikes`: the records that pass every criterion, in their original order. */
  function GetFilteredHikes(hikes: seq<Hike>, p: FilterParams): (r: seq<Hike>)
    ensures forall h :: h in r <==> h in hikes && Passes(h, p)
    ensures forall h :: multiset(r)[h] == if Passes(h, p) then multiset(hikes)[h] else 0
    ensures IsSubsequence(r, hikes)
    ensures |r| <= |hikes|
  {
    if hikes == [] then []
    else
      var rest := GetFilteredHikes(hikes[1..], p);
      assert forall h :: h in hikes <==> h == hikes[0] || h in hikes[1..] by {
        assert hikes == [hikes[0]] + hikes[1..];
      }
      assert multiset(hikes) == multiset([hikes[0]]) + multiset(hikes[1..]) by {
        assert hikes == [hikes[0]] + hikes[1..];
      }
      if Passes(hikes[0], p) then [hikes[0]] + rest else rest
  }

  /** Every kept record lies inside the difficulty, distance and elevation-gain ranges, both ends inclusive. */
  lemma KeptHikesWithinRanges(hikes: seq<Hike>, p: FilterParams, h: Hike)
    requires h in GetFilteredHikes(hikes, p)
    ensures p.difficultyRange.min <= h.difficultyRating <= p.difficultyRange.max
    ensures p.distanceRange.min <= h.roundTripMiles <= p.distanceRange.max
    ensures p.elevationGainRange.min <= h.totalElevationGain <= p.elevationGainRange.max
    ensures h.crowdLevelNumeric <= p.maxCrowdLevel
    ensures p.showFourteenersOnly ==> h.highestPeakElevation >= 14000.0
  {
  }

  /**
   * The time criterion is an inclusive overlap test: a hike whose longest
   * time equals the range minimum, or whose shortest time equals the range
   * maximum, still overlaps.
   */
  lemma TimeOverlapIsInclusive(h: Hike, r: Range)
    ensures TimeOverlaps(h, r) <==> h.hikingTimeMin <= r.max && r.min <= h.hikingTimeMax
    ensures h.hikingTimeMax == r.min && h.hikingTimeMin <= r.max ==> TimeOverlaps(h, r)
    ensures h.hikingTimeMin == r.max && r.min <= h.hikingTimeMax ==> TimeOverlaps(h, r)
  {
  }

  /** Criteria that are switched off restrict nothing. */
  lemma InactiveCriteriaPassEverything(h: Hike, r: Range)
    ensures MatchesSearch(h, "")
    ensures ClassSelected(h, [])
    ensures h.distanceFromDenver == None ==> DenverDistanceAllowed(h, r)
    ensures h.distanceFromDenver == Some(0.0) ==> DenverDistanceAllowed(h, r)
  {
  }

  /** A selected class admits exactly the hikes whose class rounds down to it. */
  lemma ClassSelectionUsesIntegerPart(h: Hike, classes: seq<int>)
    requires |classes| > 0
    ensures ClassSelected(h, classes) <==> exists c :: c in classes && c as real <= h.classNumeric < (c + 1) as real
  {
    if ClassSelected(h, classes) {
      var c := h.classNumeric.Floor;
      assert c in classes && c as real <= h.classNumeric < (c + 1) as real;
    }
  }

  /** With the default settings a record whose values lie inside the default ranges is kept. */
  lemma DefaultFiltersKeepTypicalHikes(hikes: seq<Hike>, h: Hike)
    requires h in hikes
    requires 1.0 <= h.difficultyRating <= 10.0 && 0.0 <= h.roundTripMiles <= 25.0
    requires 0.0 <= h.totalElevationGain <= 10000.0
    requires h.hikingTimeMin <= 24.0 && 0.0 <= h.hikingTimeMax
    requires h.crowdLevelNumeric <= 5
    requires h.distanceFromDenver.Some? ==> 0.0 <= h.distanceFromDenver.value <= 250.0
    ensures h in GetFilteredHikes(hikes, DefaultFilters)
  {
  }

  /** The keys offered by the sort selector. */
  datatype SortField =
    | Number | Name | DifficultyRating | RoundTripMiles | TotalElevationGain
    | HighestPeakElevation | HikingTimeMin | HikingTimeMax | DistanceFromDenver

  datatype SortOrder = Asc | Desc

  /** `a[sortBy]`, with a missing value turned into the empty key. */
  function SortKey(h: Hike, field: SortField): SortValue {
    match field
    case Number => Num(h.number as real)
    case Name => Str(h.name)
    case DifficultyRating => Num(h.difficultyRating)
    case RoundTripMiles => Num(h.roundTripMiles)
    case TotalElevationGain => Num(h.totalElevationGain)
    case HighestPeakElevation => Num(h.highestPeakElevation)
    case HikingTimeMin => Num(h.hikingTimeMin)
    case HikingTimeMax => Num(h.hikingTimeMax)
    case DistanceFromDenver =>
      match h.distanceFromDenver
      case None => Null
      case Some(d) => Num(d)
  }

  /** The comparator's key extractor for one sort field. */
  function KeyOf(field: SortField): Hike -> SortValue {
    h => SortKey(h, field)
  }

  /**
   * `getSortedHikes`: a sorted copy. The result is a permutation of the
   * input, ordered by the key in the chosen direction, with missing keys
   * lowest; the input sequence itself is a value and is left as it was.
   */
  function GetSortedHikes(hikes: seq<Hike>, field: SortField, order: SortOrder): (r: seq<Hike>)
    ensures multiset(r) == multiset(hikes)
    ensures SortedBy(r, KeyOf(field), order == Desc)
  {
    SortByIsSorted(hikes, KeyOf(field), order == Desc);
    SortBy(hikes, KeyOf(field), order == Desc)
  }

  /** Sorting the sorted list again with the same settings changes nothing. */
  lemma GetSortedHikesIdempotent(hikes: seq<Hike>, field: SortField, order: SortOrder)
    ensures GetSortedHikes(GetSortedHikes(hikes, field, order), field, order) == GetSortedHikes(hikes, field, order)
  {
    SortByIdempotent(hikes, KeyOf(field), order == Desc);
  }

  /** In ascending order a hike without a Denver distance never comes after one that has it. */
  lemma MissingDistanceSortsFirst(hikes: seq<Hike>, i: int, j: int)
    requires 0 <= i < j < |GetSortedHikes(hikes, SortField.DistanceFromDenver, Asc)|
    requires GetSortedHikes(hikes, SortField.DistanceFromDenver, Asc)[i].distanceFromDenver.Some?
    ensures GetSortedHikes(hikes, SortField.DistanceFromDenver, Asc)[j].distanceFromDenver.Some?
  {
    var r := GetSortedHikes(hikes, SortField.DistanceFromDenver, Asc);
    assert !Before(SortKey(r[j], SortField.DistanceFromDenver), SortKey(r[i], SortField.DistanceFromDenver), false);
  }

  /** A hike that differs from the others only in its number and difficulty. */
  function SampleHike(number: int, difficulty: real): Hike {
    Hike(number, number, "Sample", "", difficulty, 5.0, 1000.0, 2.0, 4.0, 9000.0, 11000.0,
         None, 1.0, 2, false, true)
  }

  /** Ratings 2, 5 and 9 under a difficulty range of 3 to 8: only the rating-5 hike remains. */
  lemma DifficultyScenario()
    ensures GetFilteredHikes([SampleHike(1, 2.0), SampleHike(2, 5.0), SampleHike(3, 9.0)],
                             DefaultFilters.(difficultyRange := Range(3.0, 8.0)))
            == [SampleHike(2, 5.0)]
  {
    var p := DefaultFilters.(difficultyRange := Range(3.0, 8.0));
    var hs := [SampleHike(1, 2.0), SampleHike(2, 5.0), SampleHike(3, 9.0)];
    assert !Passes(hs[0], p) && Passes(hs[1], p) && !Passes(hs[2], p);
    assert hs[1..][1..] == [hs[2]];
    assert GetFilteredHikes([hs[2]], p) == [];
  }

  /** Numbers 3, 1, 2 sort to 1, 2, 3 ascending. */
  lemma NumberSortAscendingScenario()
    ensures GetSortedHikes([SampleHike(3, 1.0), SampleHike(1, 1.0), SampleHike(2, 1.0)], Number, Asc)
            == [SampleHike(1, 1.0), SampleHike(2, 1.0), SampleHike(3, 1.0)]
  {
    var key := KeyOf(Number);
    var a, b, c := SampleHike(1, 1.0), SampleHike(2, 1.0), SampleHike(3, 1.0);
    assert key(a) == Num(1.0) && key(b) == Num(2.0) && key(c) == Num(3.0);
    var s := [c, a, b];
    assert s[1..] == [a, b] && [a, b][1..] == [b];
    assert SortBy([b], key, false) == [b];
    assert [b][1..] == [];
    assert Insert(a, [b], key, false) == [a, b];
    assert SortBy([a, b], key, false) == [a, b];
    assert Insert(c, [b], key, false) == [b, c];
    assert Insert(c, [a, b], key, false) == [a, b, c];
    assert SortBy(s, key, false) == [a, b, c];
  }

  /** Numbers 3, 1, 2 sort to 3, 2, 1 descending. */
  lemma NumberSortDescendingScenario()
    ensures GetSortedHikes([SampleHike(3, 1.0), SampleHike(1, 1.0), SampleHike(2, 1.0)], Number, Desc)
            == [SampleHike(3, 1.0), SampleHike(2, 1.0), SampleHike(1, 1.0)]
  {
    var key := KeyOf(Number);
    var a, b, c := SampleHike(1, 1.0), SampleHike(2, 1.0), SampleHike(3, 1.0);
    assert key(a) == Num(1.0) && key(b) == Num(2.0) && key(c) == Num(3.0);
    var s := [c, a, b];
    assert s[1..] == [a, b] && [a, b][1..] == [b];
    assert SortBy([b], key, true) == [b];
    assert [b][1..] == [];
    assert Insert(a, [b], key, true) == [b, a];
    assert SortBy([a, b], key, true) == [b, a];
    assert Insert(c, [b, a], key, true) == [c, b, a];
    assert SortBy(s, key, true) == [c, b, a];
  }
}
