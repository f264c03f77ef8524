/**
 * The hikes page's state and its event handlers (the App component).
 * React state cells become fields of one object; each handler is a method
 * that assigns the fields its setters touch and leaves the others alone.
 * The range editors of the filter panel are wired to the range setters,
 * which is what keeps every range ordered.
 */
module AppState {
  import opened Hikes
  import opened FilterControls
  import opened HikeFilter
  import opened Sorting
  import opened Subsequences

  predicate NoDuplicates(s: seq<int>) {
    forall i, j :: 0 <= i < j < |s| ==> s[i] != s[j]
  }

  /** `prev.filter(c => c !== x)`: every occurrence of `x` dropped, the rest kept in order. */
  function Without(prev: seq<int>, x: int): (r: seq<int>)
    ensures forall y :: y in r <==> y in prev && y != x
    ensures IsSubsequence(r, prev)
    ensures NoDuplicates(prev) ==> NoDuplicates(r)
    ensures |r| <= |prev|
  {
    if prev == [] then []
    else
      var rest := Without(prev[1..], x);
      assert forall y :: y in prev <==> y == prev[0] || y in prev[1..] by {
        assert prev == [prev[0]] + prev[1..];
      }
      if prev[0] == x then
        assert rest != [] ==> rest[0] in rest && rest[0] != prev[0];
        rest
      else
        assert ([prev[0]] + rest)[1..] == rest;
        assert NoDuplicates(prev) ==> NoDuplicates([prev[0]] + rest) by {
          if NoDuplicates(prev) {
            assert forall k :: 0 <= k < |prev[1..]| ==> prev[1..][k] == prev[k + 1] != prev[0];
            assert prev[0] !in rest;
          }
        }
        [prev[0]] + rest
  }

  /** `handleClassToggle`'s update: remove the class if it is selected, append it otherwise. */
  function ToggleClass(prev: seq<int>, c: int): (next: seq<int>)
    ensures c in next <==> c !in prev
    ensures forall y :: y != c ==> (y in next <==> y in prev)
    ensures NoDuplicates(prev) ==> NoDuplicates(next)
    ensures c !in prev ==> next == prev + [c]
  {
    if c in prev then Without(prev, c) else prev + [c]
  }

  /** Toggling the same class twice gives back the same selection, as a set. */
  lemma ToggleClassTwice(prev: seq<int>, c: int)
    ensures forall y :: y in ToggleClass(ToggleClass(prev, c), c) <==> y in prev
    ensures c !in prev ==> ToggleClass(ToggleClass(prev, c), c) == prev
  {
    if c !in prev {
      var once := prev + [c];
      var twice := Without(once, c);
      assert twice == prev by {
        WithoutAbsentAppended(prev, c);
      }
    }
  }

  /** Removing an element that was appended to a list without it gives the list back. */
  lemma {:induction false} WithoutAbsentAppended(prev: seq<int>, c: int)
    requires c !in prev
    ensures Without(prev + [c], c) == prev
  {
    if prev == [] {
      assert Without([c], c) == Without([], c);
    } else {
      assert (prev + [c])[1..] == prev[1..] + [c];
      WithoutAbsentAppended(prev[1..], c);
      assert prev == [prev[0]] + prev[1..];
    }
  }

  datatype SortState = SortState(sortBy: SortField, sortOrder: SortOrder)

  function Flip(order: SortOrder): SortOrder {
    if order == Asc then Desc else Asc
  }

  /** `handleSortChange`: the current key flips the direction; any other key is taken ascending. */
  function NextSort(s: SortState, newSortBy: SortField): (r: SortState)
    ensures r.sortBy == newSortBy
    ensures newSortBy == s.sortBy ==> r.sortOrder != s.sortOrder
    ensures newSortBy != s.sortBy ==> r.sortOrder == Asc
  {
    if newSortBy == s.sortBy then s.(sortOrder := Flip(s.sortOrder)) else SortState(newSortBy, Asc)
  }

  /** Choosing the current key twice restores the state, and with it the displayed order. */
  lemma NextSortTwiceRestores(s: SortState, hikes: seq<Hike>)
    ensures NextSort(NextSort(s, s.sortBy), s.sortBy) == s
    ensures var t := NextSort(NextSort(s, s.sortBy), s.sortBy);
            GetSortedHikes(hikes, t.sortBy, t.sortOrder) == GetSortedHikes(hikes, s.sortBy, s.sortOrder)
  {
  }

  /** Switching to another key and back starts that key ascending again. */
  lemma NewKeyStartsAscending(s: SortState, other: SortField)
    requires other != s.sortBy
    ensures NextSort(NextSort(s, other), s.sortBy) == SortState(s.sortBy, Asc)
  {
  }

  class App {
    var allHikes: seq<Hike>
    var searchTerm: string
    var difficultyRange: Range
    var distanceRange: Range
    var elevationGainRange: Range
    var hikeTimeRange: Range
    var distanceFromDenverRange: Range
    var selectedClasses: seq<int>
    var maxCrowdLevel: int
    var showFourteenersOnly: bool
    var showOvernightOnly: bool
    var showInSeasonOnly: bool
    var sortBy: SortField
    var sortOrder: SortOrder

    /** Every range is ordered and no class is selected twice. */
    predicate Valid()
      reads this
    {
      && Ordered(difficultyRange) && Ordered(distanceRange) && Ordered(elevationGainRange)
      && Ordered(hikeTimeRange) && Ordered(distanceFromDenverRange)
      && NoDuplicates(selectedClasses)
    }

    /** The filter settings as one value. */
    function Filters(): FilterParams
      reads this
    {
      FilterParams(searchTerm, difficultyRange, distanceRange, elevationGainRange, hikeTimeRange,
                   distanceFromDenverRange, selectedClasses, maxCrowdLevel,
                   showFourteenersOnly, showOvernightOnly, showInSeasonOnly)
    }

    function Sort(): SortState
      reads this
    {
      SortState(sortBy, sortOrder)
    }

    function RangeOf(d: Dimension): Range
      reads this
    {
      match d
      case Difficulty => difficultyRange
      case Distance => distanceRange
      case ElevationGain => elevationGainRange
      case HikeTime => hikeTimeRange
      case DistanceFromDenver => distanceFromDenverRange
    }

    /** `filteredHikes.length`: how many records pass the filters. */
    function FilteredCount(): (n: nat)
      reads this
      ensures n <= |allHikes|
    {
      |GetFilteredHikes(allHikes, Filters())|
    }

    /** `displayHikes`: the filtered records in the chosen order. */
    function DisplayHikes(): (r: seq<Hike>)
      reads this
      ensures multiset(r) == multiset(GetFilteredHikes(allHikes, Filters()))
      ensures forall h :: h in r <==> h in allHikes && Passes(h, Filters())
      ensures SortedBy(r, KeyOf(sortBy), sortOrder == Desc)
    {
      var r := GetSortedHikes(GetFilteredHikes(allHikes, Filters()), sortBy, sortOrder);
      assert forall h :: h in r <==> h in multiset(r);
      r
    }

    /** The initial state: no hikes loaded, default filters, sorted by number ascending. */
    constructor ()
      ensures Valid()
      ensures allHikes == []
      ensures Filters() == DefaultFilters
      ensures Sort() == SortState(Number, Asc)
    {
      allHikes := [];
      searchTerm := "";
      difficultyRange := Range(1.0, 10.0);
      distanceRange := Range(0.0, 25.0);
      elevationGainRange := Range(0.0, 10000.0);
      hikeTimeRange := Range(0.0, 24.0);
      distanceFromDenverRange := Range(0.0, 250.0);
      selectedClasses := [];
      maxCrowdLevel := 5;
      showFourteenersOnly := false;
      showOvernightOnly := false;
      showInSeasonOnly := false;
      sortBy := Number;
      sortOrder := Asc;
    }

    /** The records a successful load delivers (the fetch itself is not modelled). */
    method SetAllHikes(hikes: seq<Hike>)
      modifies this
      ensures allHikes == hikes
      ensures Filters() == old(Filters()) && Sort() == old(Sort())
      ensures Valid() == old(Valid())
    {
      allHikes := hikes;
    }

    method HandleSearchChange(term: string)
      modifies this
      ensures Filters() == old(Filters()).(searchTerm := term)
      ensures allHikes == old(allHikes) && Sort() == old(Sort())
      ensures Valid() == old(Valid())
    {
      searchTerm := term;
    }

    /** The five range setters: the chosen range is replaced, every other setting stays. */
    method HandleRangeChange(d: Dimension, r: Range)
      modifies this
      ensures RangeOf(d) == r
      ensures forall e :: e != d ==> RangeOf(e) == old(RangeOf(e))
      ensures Filters().(difficultyRange := r, distanceRange := r, elevationGainRange := r,
                         hikeTimeRange := r, distanceFromDenverRange := r)
           == old(Filters()).(difficultyRange := r, distanceRange := r, elevationGainRange := r,
                              hikeTimeRange := r, distanceFromDenverRange := r)
      ensures allHikes == old(allHikes) && Sort() == old(Sort())
      ensures old(Valid()) && Ordered(r) ==> Valid()
    {
      match d
      case Difficulty => difficultyRange := r;
      case Distance => distanceRange := r;
      case ElevationGain => elevationGainRange := r;
      case HikeTime => hikeTimeRange := r;
      case DistanceFromDenver => distanceFromDenverRange := r;
    }

    /**
     * A typed minimum or maximum for dimension `d`, as the filter panel
     * handles it: the edit reaches the setter only when the guard lets it
     * through. The object stays valid whatever is typed.
     */
    method EditRange(d: Dimension, editsMin: bool, value: real)
      requires Valid()
      modifies this
      ensures Valid()
      ensures RangeOf(d) == Applied(old(RangeOf(d)),
                                    if editsMin then EditMin(old(RangeOf(d)), value)
                                    else EditMax(old(RangeOf(d)), value))
      ensures forall e :: e != d ==> RangeOf(e) == old(RangeOf(e))
      ensures allHikes == old(allHikes) && Sort() == old(Sort())
      ensures searchTerm == old(searchTerm) && selectedClasses == old(selectedClasses)
      ensures maxCrowdLevel == old(maxCrowdLevel)
      ensures showFourteenersOnly == old(showFourteenersOnly) && showOvernightOnly == old(showOvernightOnly)
      ensures showInSeasonOnly == old(showInSeasonOnly)
    {
      var current := RangeOf(d);
      var emitted := if editsMin then EditMin(current, value) else EditMax(current, value);
      EditsKeepRangeOrdered(current, value);
      if emitted.Some? {
        HandleRangeChange(d, emitted.value);
      }
    }

    method HandleClassToggle(c: int)
      modifies this
      ensures Filters() == old(Filters()).(selectedClasses := ToggleClass(old(selectedClasses), c))
      ensures allHikes == old(allHikes) && Sort() == old(Sort())
      ensures old(Valid()) ==> Valid()
    {
      selectedClasses := ToggleClass(selectedClasses, c);
    }

    method HandleCrowdLevelChange(level: int)
      modifies this
      ensures Filters() == old(Filters()).(maxCrowdLevel := level)
      ensures allHikes == old(allHikes) && Sort() == old(Sort())
      ensures Valid() == old(Valid())
    {
      maxCrowdLevel := level;
    }

    method HandleFourteenersToggle()
      modifies this
      ensures Filters() == old(Filters()).(showFourteenersOnly := !old(showFourteenersOnly))
      ensures allHikes == old(allHikes) && Sort() == old(Sort())
      ensures Valid() == old(Valid())
    {
      showFourteenersOnly := !showFourteenersOnly;
    }

    method HandleOvernightToggle()
      modifies this
      ensures Filters() == old(Filters()).(showOvernightOnly := !old(showOvernightOnly))
      ensures allHikes == old(allHikes) && Sort() == old(Sort())
      ensures Valid() == old(Valid())
    {
      showOvernightOnly := !showOvernightOnly;
    }

    method HandleInSeasonToggle()
      modifies this
      ensures Filters() == old(Filters()).(showInSeasonOnly := !old(showInSeasonOnly))
      ensures allHikes == old(allHikes) && Sort() == old(Sort())
      ensures Valid() == old(Valid())
    {
      showInSeasonOnly := !showInSeasonOnly;
    }

    method HandleSortChange(newSortBy: SortField)
      modifies this
      ensures Sort() == NextSort(old(Sort()), newSortBy)
      ensures allHikes == old(allHikes) && Filters() == old(Filters())
      ensures Valid() == old(Valid())
    {
      if newSortBy == sortBy {
        sortOrder := if sortOrder == Asc then Desc else Asc;
      } else {
        sortBy := newSortBy;
        sortOrder := Asc;
      }
    }

    /** Every filter goes back to its initial value; the sort and the loaded records stay. */
    method HandleResetFilters()
      modifies this
      ensures Filters() == DefaultFilters
      ensures Valid()
      ensures allHikes == old(allHikes) && Sort() == old(Sort())
    {
      searchTerm := "";
      difficultyRange := Range(1.0, 10.0);
      distanceRange := Range(0.0, 25.0);
      elevationGainRange := Range(0.0, 10000.0);
      hikeTimeRange := Range(0.0, 24.0);
      distanceFromDenverRange := Range(0.0, 250.0);
      selectedClasses := [];
      maxCrowdLevel := 5;
      showFourteenersOnly := false;
      showOvernightOnly := false;
      showInSeasonOnly := false;
    }
  }

  /** Clicking the direction button twice shows the records in the order they had before. */
  method SortButtonTwice(app: App)
    modifies app
    ensures app.DisplayHikes() == old(app.DisplayHikes())
  {
    app.HandleSortChange(app.sortBy);
    app.HandleSortChange(app.sortBy);
  }
}
