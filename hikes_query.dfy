/**
 * The query construction inside `get_hikes` of the API server: the filters
 * become WHERE conditions, the Denver-distance bounds become HAVING
 * conditions, and every `?` placeholder of the final SQL text is paired with
 * one entry of `params`. The SQL is kept as a sequence of pieces (fixed
 * fragments, column comparisons, clause keywords, the ORDER BY and LIMIT
 * tails, and placeholders that carry the value the source binds to them),
 * so the pairing can be stated outright; `Render` gives the SQL string.
 */
module HikesQuery {
  import opened Options
  import opened Text
  import opened Scan

  /** A value bound to a placeholder. */
  datatype Param = RealParam(r: real) | IntParam(i: int) | TextParam(s: string)

  /** The columns the filters compare. */
  datatype Column =
    | DifficultyRating | RoundTripMiles | HikingTimeMax | HikingTimeMin
    | TotalElevationGain | ClassNumeric | CrowdLevelNumeric | DistanceFromDenver

  datatype Comparison = AtMost | AtLeast

  /** The columns `sort_by` may name; the request is refused for any other value. */
  datatype SortColumn =
    | ByNumber | ByName | ByDifficultyRating | ByRoundTripMiles | ByTotalElevationGain
    | ByHighestPeakElevation | ByClassNumeric | ByHikingTimeMin | ByHikingTimeMax | ByDistanceFromDenver

  /** The fixed SQL text around the placeholders. */
  datatype Fragment =
    | SelectCosLat     // the SELECT up to the first Denver latitude
    | CosLon           // up to the Denver longitude
    | SinLat           // up to the second Denver latitude
    | FromJoin         // the rest of the distance expression, FROM and the trailhead join
    | FourteenersOnly  // `highest_peak_elevation >= 14000`
    | OvernightOnly    // `is_overnight = 1`
    | NameLike         // `(name LIKE `
    | DescriptionLike  // ` OR description LIKE `
    | CloseParen

  /** The keywords that open or separate clauses. */
  datatype Keyword = WhereKw | AndKw | GroupByKw | HavingKw

  /** A piece of the SQL text; only `Bind` renders as a `?`. */
  datatype Piece =
    | Frag(fragment: Fragment)
    | Cmp(column: Column, comparison: Comparison)
    | Kw(keyword: Keyword)
    | OrderBy(sortBy: SortColumn, descending: bool)
    | Page(limit: nat, offset: nat)
    | Bind(value: Param)

  /** The request's query parameters that shape the SQL. */
  datatype Filters = Filters(
    maxDifficulty: Option<real>,
    minDifficulty: Option<real>,
    maxDistance: Option<real>,
    minDistance: Option<real>,
    maxTime: Option<real>,
    minTime: Option<real>,
    maxElevationGain: Option<int>,
    minElevationGain: Option<int>,
    maxClass: Option<real>,
    maxCrowd: Option<int>,
    fourteenersOnly: bool,
    overnightOnly: bool,
    search: Option<string>,
    maxDistanceFromDenver: Option<real>,
    minDistanceFromDenver: Option<real>,
    sortBy: SortColumn,
    descending: bool,
    limit: nat,
    offset: nat)

  const DenverLat: real := 39.7392
  const DenverLon: real := -104.9903

  const Where: Piece := Kw(WhereKw)
  const And: Piece := Kw(AndKw)
  const GroupBy: Piece := Kw(GroupByKw)
  const Having: Piece := Kw(HavingKw)

  function ColumnName(c: Column): (t: string)
    ensures '?' !in t
  {
    match c
    case DifficultyRating => "difficulty_rating"
    case RoundTripMiles => "round_trip_miles"
    case HikingTimeMax => "hiking_time_max"
    case HikingTimeMin => "hiking_time_min"
    case TotalElevationGain => "total_elevation_gain"
    case ClassNumeric => "class_numeric"
    case CrowdLevelNumeric => "crowd_level_numeric"
    case DistanceFromDenver => "distance_from_denver"
  }

  function SortColumnName(c: SortColumn): (t: string)
    ensures '?' !in t
  {
    match c
    case ByNumber => "number"
    case ByName => "name"
    case ByDifficultyRating => "difficulty_rating"
    case ByRoundTripMiles => "round_trip_miles"
    case ByTotalElevationGain => "total_elevation_gain"
    case ByHighestPeakElevation => "highest_peak_elevation"
    case ByClassNumeric => "class_numeric"
    case ByHikingTimeMin => "hiking_time_min"
    case ByHikingTimeMax => "hiking_time_max"
    case ByDistanceFromDenver => "distance_from_denver"
  }

  const SelectCosLatText: string :=
    "SELECT DISTINCT h.*, " + "t.latitude, " + "t.longitude, "
    + "ROUND" + "(" + "3959 * ACOS" + "(" + "COS" + "(" + "RADIANS" + "("

  const CosLonText: string :=
    ")" + ")" + " * COS" + "(" + "RADIANS" + "(" + "t.latitude" + ")" + ")"
    + " * COS" + "(" + "RADIANS" + "(" + "t.longitude" + ")" + " - RADIANS" + "("

  const SinLatText: string :=
    ")" + ")" + " + SIN" + "(" + "RADIANS" + "("

  const FromJoinText: string :=
    ")" + ")" + " * SIN" + "(" + "RADIANS" + "(" + "t.latitude" + ")" + ")" + ")" + ", 1" + ")"
    + AliasText + TrailheadJoinText

  /** The column alias and the FROM. */
  const AliasText: string :=
    " as " + "distance_from_denver" + " FROM " + "hikes_with_peaks h"

  /** The join with the trailheads. */
  const TrailheadJoinText: string :=
    " LEFT JOIN " + "trailheads t" + " ON h.id = " + "t.hike_id"

  lemma SelectCosLatPlain()
    ensures '?' !in SelectCosLatText
  {
  }

  lemma CosLonPlain()
    ensures '?' !in CosLonText
  {
  }

  lemma SinLatPlain()
    ensures '?' !in SinLatText
  {
  }

  lemma FromJoinPlain()
    ensures '?' !in FromJoinText
  {
    AliasPlain();
    TrailheadJoinPlain();
  }

  function FragmentText(f: Fragment): (t: string)
    ensures '?' !in t
  {
    match f
    case SelectCosLat => SelectCosLatPlain(); SelectCosLatText
    case CosLon => CosLonPlain(); CosLonText
    case SinLat => SinLatPlain(); SinLatText
    case FromJoin => FromJoinPlain(); FromJoinText
    case FourteenersOnly => "highest_peak_" + "elevation >= 14000"
    case OvernightOnly => "is_overnight = 1"
    case NameLike => "(name LIKE "
    case DescriptionLike => " OR description LIKE "
    case CloseParen => ")"
  }


  function KeywordText(k: Keyword): (t: string)
    ensures '?' !in t
  {
    match k
    case WhereKw => " WHERE "
    case AndKw => " AND "
    case GroupByKw => " GROUP BY h.id"
    case HavingKw => " HAVING "
  }

  /** A numeral holds no `?`. */
  lemma NumeralLacksQuestion(s: string)
    requires AllDigits(s)
    ensures '?' !in s
  {
    assert forall k :: 0 <= k < |s| ==> IsDigit(s[k]);
  }

  /** The text of one piece: only a placeholder holds a `?`. */
  function PieceText(p: Piece): (t: string)
    ensures p.Bind? <==> '?' in t
  {
    match p
    case Frag(f) => FragmentText(f)
    case Cmp(c, op) =>
      assert '?' !in " <= " && '?' !in " >= ";
      ColumnName(c) + (if op == AtMost then " <= " else " >= ")
    case Kw(k) => KeywordText(k)
    case OrderBy(c, desc) =>
      assert '?' !in " ORDER BY " && '?' !in " DESC" && '?' !in " ASC";
      " ORDER BY " + SortColumnName(c) + (if desc then " DESC" else " ASC")
    case Page(limit, offset) =>
      NumeralLacksQuestion(NatString(limit));
      NumeralLacksQuestion(NatString(offset));
      assert '?' !in " LIMIT " && '?' !in " OFFSET ";
      " LIMIT " + NatString(limit) + " OFFSET " + NatString(offset)
    case Bind(_) =>
      assert "?"[0] == '?';
      "?"
  }

  /** The SQL string the pieces stand for. */
  function Render(q: seq<Piece>): string {
    if q == [] then [] else PieceText(q[0]) + Render(q[1..])
  }

  /** The values of the placeholders, in the order they appear in the text. */
  function Bindings(q: seq<Piece>): seq<Param> {
    if q == [] then []
    else (if q[0].Bind? then [q[0].value] else []) + Bindings(q[1..])
  }

  lemma BindingsOne(p: Piece)
    ensures Bindings([p]) == if p.Bind? then [p.value] else []
  {
    assert [p][1..] == [];
  }

  lemma {:induction false} BindingsAppend(a: seq<Piece>, b: seq<Piece>)
    ensures Bindings(a + b) == Bindings(a) + Bindings(b)
    decreases |a|
  {
    if a == [] {
      assert a + b == b;
    } else {
      var head := if a[0].Bind? then [a[0].value] else [];
      assert Bindings(a + b) == head + Bindings(a[1..] + b) by {
        assert (a + b)[0] == a[0];
        assert (a + b)[1..] == a[1..] + b;
      }
      BindingsAppend(a[1..], b);
      assert head + (Bindings(a[1..]) + Bindings(b)) == (head + Bindings(a[1..])) + Bindings(b);
    }
  }

  lemma {:induction false} CountCharAppend(a: string, b: string, c: char)
    ensures CountChar(a + b, c) == CountChar(a, c) + CountChar(b, c)
    decreases |a|
  {
    if a == [] {
      assert a + b == b;
    } else {
      assert (a + b)[1..] == a[1..] + b;
      CountCharAppend(a[1..], b, c);
    }
  }

  lemma {:induction false} CountCharAbsent(s: string, c: char)
    requires c !in s
    ensures CountChar(s, c) == 0
  {
    if s != [] {
      CountCharAbsent(s[1..], c);
    }
  }

  /**
   * The rendered SQL holds exactly one `?` per bound value, so the
   * database pairs the placeholders with `params` one to one.
   */
  lemma {:induction false} RenderPlaceholders(q: seq<Piece>)
    ensures CountChar(Render(q), '?') == |Bindings(q)|
  {
    if q != [] {
      RenderPlaceholders(q[1..]);
      CountCharAppend(PieceText(q[0]), Render(q[1..]), '?');
      if q[0].Bind? {
        assert CountChar("?", '?') == 1 by {
          assert "?"[1..] == [];
        }
      } else {
        CountCharAbsent(PieceText(q[0]), '?');
      }
    }
  }

  /** `" AND ".join(conditions)`. */
  function JoinAnd(conditions: seq<seq<Piece>>): seq<Piece> {
    if conditions == [] then []
    else if |conditions| == 1 then conditions[0]
    else conditions[0] + [And] + JoinAnd(conditions[1..])
  }

  /** The conditions one after the other. */
  function Flatten(conditions: seq<seq<Piece>>): seq<Piece> {
    if conditions == [] then [] else conditions[0] + Flatten(conditions[1..])
  }

  lemma {:induction false} FlattenAppend(conditions: seq<seq<Piece>>, c: seq<Piece>)
    ensures Flatten(conditions + [c]) == Flatten(conditions) + c
    decreases |conditions|
  {
    if conditions == [] {
      assert [] + [c] == [c];
      assert [c][1..] == [];
    } else {
      assert (conditions + [c])[1..] == conditions[1..] + [c];
      FlattenAppend(conditions[1..], c);
    }
  }

  /** Joining with `AND` adds no placeholder: the joined text binds what the conditions bind. */
  lemma {:induction false} JoinAndBindings(conditions: seq<seq<Piece>>)
    ensures Bindings(JoinAnd(conditions)) == Bindings(Flatten(conditions))
  {
    if |conditions| == 1 {
      assert conditions[1..] == [];
      assert Flatten(conditions) == conditions[0] + [];
      assert conditions[0] + [] == conditions[0];
    } else if |conditions| > 1 {
      var rest := JoinAnd(conditions[1..]);
      JoinAndBindings(conditions[1..]);
      assert JoinAnd(conditions) == conditions[0] + ([And] + rest);
      BindingsAppend(conditions[0], [And] + rest);
      BindingsAppend([And], rest);
      BindingsOne(And);
      BindingsAppend(conditions[0], Flatten(conditions[1..]));
    }
  }

  /** A condition: fragments, comparisons and placeholders, no clause keyword. */
  ghost predicate PlainCondition(c: seq<Piece>) {
    forall k :: 0 <= k < |c| ==> !c[k].Kw?
  }

  /** `column <= ?` or `column >= ?`, binding one value. */
  function Compare(column: Column, comparison: Comparison, v: Param): (c: seq<Piece>)
    ensures Bindings(c) == [v] && PlainCondition(c)
  {
    BindingsAppend([Cmp(column, comparison)], [Bind(v)]);
    BindingsOne(Cmp(column, comparison));
    BindingsOne(Bind(v));
    assert [Cmp(column, comparison)] + [Bind(v)] == [Cmp(column, comparison), Bind(v)];
    [Cmp(column, comparison), Bind(v)]
  }

  /** `(name LIKE ? OR description LIKE ?)`, binding the pattern twice. */
  function SearchCondition(term: Param): (c: seq<Piece>)
    ensures Bindings(c) == [term, term] && PlainCondition(c)
  {
    var c := [Frag(NameLike), Bind(term), Frag(DescriptionLike), Bind(term), Frag(CloseParen)];
    assert c == [Frag(NameLike)] + [Bind(term)] + [Frag(DescriptionLike)] + [Bind(term)] + [Frag(CloseParen)];
    BindingsAppend([Frag(NameLike)], [Bind(term)]);
    BindingsAppend([Frag(NameLike)] + [Bind(term)], [Frag(DescriptionLike)]);
    BindingsAppend([Frag(NameLike)] + [Bind(term)] + [Frag(DescriptionLike)], [Bind(term)]);
    BindingsAppend([Frag(NameLike)] + [Bind(term)] + [Frag(DescriptionLike)] + [Bind(term)], [Frag(CloseParen)]);
    BindingsOne(Frag(NameLike));
    BindingsOne(Bind(term));
    BindingsOne(Frag(DescriptionLike));
    BindingsOne(Frag(CloseParen));
    c
  }

  function Indicator(b: bool): nat {
    if b then 1 else 0
  }

  /** Whether `search` is truthy: present and not the empty string. */
  predicate HasSearch(f: Filters) {
    f.search.Some? && f.search.value != ""
  }

  /** The number of numeric filters given. */
  function BoundCount(f: Filters): nat {
    Indicator(f.maxDifficulty.Some?) + Indicator(f.minDifficulty.Some?)
    + Indicator(f.maxDistance.Some?) + Indicator(f.minDistance.Some?)
    + Indicator(f.maxTime.Some?) + Indicator(f.minTime.Some?)
    + Indicator(f.maxElevationGain.Some?) + Indicator(f.minElevationGain.Some?)
    + Indicator(f.maxClass.Some?) + Indicator(f.maxCrowd.Some?)
  }

  /** The number of WHERE conditions the filters call for: one per filter given, flag set or search. */
  function ConditionCount(f: Filters): nat {
    BoundCount(f) + Indicator(f.fourteenersOnly) + Indicator(f.overnightOnly) + Indicator(HasSearch(f))
  }

  /** The number of values the WHERE conditions bind: one per numeric filter, two for a search. */
  function WhereParamCount(f: Filters): nat {
    BoundCount(f) + 2 * Indicator(HasSearch(f))
  }

  /** The number of values the HAVING conditions bind. */
  function HavingParamCount(f: Filters): nat {
    Indicator(f.maxDistanceFromDenver.Some?) + Indicator(f.minDistanceFromDenver.Some?)
  }

  /** Whether any filter calls for a WHERE condition. */
  predicate HasWhereFilter(f: Filters) {
    f.maxDifficulty.Some? || f.minDifficulty.Some? || f.maxDistance.Some? || f.minDistance.Some?
    || f.maxTime.Some? || f.minTime.Some? || f.maxElevationGain.Some? || f.minElevationGain.Some?
    || f.maxClass.Some? || f.maxCrowd.Some? || f.fourteenersOnly || f.overnightOnly || HasSearch(f)
  }

  /** Some condition is counted exactly when some filter calls for one. */
  lemma SomeConditionIffFilter(f: Filters)
    ensures ConditionCount(f) > 0 <==> HasWhereFilter(f)
  {
  }

  predicate HasDenverBound(f: Filters) {
    f.maxDistanceFromDenver.Some? || f.minDistanceFromDenver.Some?
  }

  /**
   * The steady state of the condition-building steps: the values appended
   * to `params` are the values the conditions bind, in order, and no
   * condition holds a clause keyword.
   */
  ghost predicate Paired(conditions: seq<seq<Piece>>, params: seq<Param>) {
    Bindings(Flatten(conditions)) == params
    && forall j :: 0 <= j < |conditions| ==> PlainCondition(conditions[j])
  }

  /** Appends one condition and the values it binds. */
  method AddCondition(conditions: seq<seq<Piece>>, params: seq<Param>, c: seq<Piece>, values: seq<Param>)
    returns (conditions': seq<seq<Piece>>, params': seq<Param>)
    requires Paired(conditions, params) && PlainCondition(c) && Bindings(c) == values
    ensures Paired(conditions', params')
    ensures conditions' == conditions + [c] && params' == params + values
  {
    FlattenAppend(conditions, c);
    BindingsAppend(Flatten(conditions), c);
    conditions' := conditions + [c];
    params' := params + values;
  }

  /** The value of an optional filter, as a bound parameter. */
  function RealBound(o: Option<real>): (b: Option<Param>)
    ensures b.Some? == o.Some?
  {
    if o.Some? then Some(RealParam(o.value)) else None
  }

  function IntBound(o: Option<int>): (b: Option<Param>)
    ensures b.Some? == o.Some?
  {
    if o.Some? then Some(IntParam(o.value)) else None
  }

  /** The values an optional filter contributes to `params`: its value when present, nothing otherwise. */
  function Values(bound: Option<Param>): (vs: seq<Param>)
    ensures |vs| == Indicator(bound.Some?)
  {
    if bound.Some? then [bound.value] else []
  }

  /** `if bound is not None: where_conditions.append("column op ?"); params.append(bound)`. */
  method AddBound(conditions: seq<seq<Piece>>, params: seq<Param>, bound: Option<Param>, column: Column, comparison: Comparison)
    returns (conditions': seq<seq<Piece>>, params': seq<Param>)
    requires Paired(conditions, params)
    ensures Paired(conditions', params')
    ensures |conditions'| == |conditions| + Indicator(bound.Some?)
    ensures bound.Some? ==> conditions' == conditions + [Compare(column, comparison, bound.value)]
    ensures bound.None? ==> conditions' == conditions
    ensures params' == params + Values(bound)
  {
    if bound.Some? {
      conditions', params' := AddCondition(conditions, params, Compare(column, comparison, bound.value), [bound.value]);
    } else {
      conditions', params' := conditions, params;
      assert params + [] == params;
    }
  }

  /** `if flag: where_conditions.append(fragment)`: a condition without placeholders. */
  method AddFlag(conditions: seq<seq<Piece>>, params: seq<Param>, flag: bool, fragment: Fragment)
    returns (conditions': seq<seq<Piece>>, params': seq<Param>)
    requires Paired(conditions, params)
    ensures Paired(conditions', params')
    ensures |conditions'| == |conditions| + Indicator(flag)
    ensures params' == params
  {
    conditions', params' := conditions, params;
    if flag {
      BindingsOne(Frag(fragment));
      conditions', params' := AddCondition(conditions, params, [Frag(fragment)], []);
      assert params + [] == params;
    }
  }

  /** The `%search%` pattern, bound twice when the search text is not empty. */
  function SearchValues(f: Filters): (vs: seq<Param>)
    ensures |vs| == 2 * Indicator(HasSearch(f))
  {
    if HasSearch(f) then [TextParam("%" + f.search.value + "%"), TextParam("%" + f.search.value + "%")] else []
  }

  /** The values of the difficulty, distance and maximum-time filters. */
  function FirstBoundValues(f: Filters): (vs: seq<Param>)
    ensures |vs| == Indicator(f.maxDifficulty.Some?) + Indicator(f.minDifficulty.Some?)
      + Indicator(f.maxDistance.Some?) + Indicator(f.minDistance.Some?) + Indicator(f.maxTime.Some?)
  {
    Values(RealBound(f.maxDifficulty)) + Values(RealBound(f.minDifficulty))
    + Values(RealBound(f.maxDistance)) + Values(RealBound(f.minDistance))
    + Values(RealBound(f.maxTime))
  }

  /** The values of the minimum-time, elevation-gain, class and crowd filters. */
  function LastBoundValues(f: Filters): (vs: seq<Param>)
    ensures |vs| == Indicator(f.minTime.Some?) + Indicator(f.maxElevationGain.Some?)
      + Indicator(f.minElevationGain.Some?) + Indicator(f.maxClass.Some?) + Indicator(f.maxCrowd.Some?)
  {
    Values(RealBound(f.minTime))
    + Values(IntBound(f.maxElevationGain)) + Values(IntBound(f.minElevationGain))
    + Values(RealBound(f.maxClass)) + Values(IntBound(f.maxCrowd))
  }

  /** The values the numeric filters bind, filter by filter in the order of the request's parameters. */
  function BoundValues(f: Filters): seq<Param> {
    FirstBoundValues(f) + LastBoundValues(f)
  }

  /** The values the WHERE conditions bind: the numeric filters', then the search pattern twice. */
  function WhereValues(f: Filters): seq<Param> {
    BoundValues(f) + SearchValues(f)
  }

  /** The WHERE values number one per numeric filter given and two for a search. */
  lemma WhereValuesCount(f: Filters)
    ensures |WhereValues(f)| == WhereParamCount(f)
  {
  }

  /** The conditions and values of the difficulty, distance and maximum-time filters. */
  method AddFirstBounds(f: Filters) returns (whereConditions: seq<seq<Piece>>, params: seq<Param>)
    ensures Paired(whereConditions, params)
    ensures |whereConditions| == |params|
    ensures params == FirstBoundValues(f)
  {
    whereConditions, params := [], [];
    assert Flatten([]) == [];
    whereConditions, params := AddBound(whereConditions, params, RealBound(f.maxDifficulty), DifficultyRating, AtMost);
    assert params == Values(RealBound(f.maxDifficulty));
    whereConditions, params := AddBound(whereConditions, params, RealBound(f.minDifficulty), DifficultyRating, AtLeast);
    whereConditions, params := AddBound(whereConditions, params, RealBound(f.maxDistance), RoundTripMiles, AtMost);
    whereConditions, params := AddBound(whereConditions, params, RealBound(f.minDistance), RoundTripMiles, AtLeast);
    whereConditions, params := AddBound(whereConditions, params, RealBound(f.maxTime), HikingTimeMax, AtMost);
  }

  /** The conditions and values of the ten numeric filters. */
  method AddBounds(f: Filters) returns (whereConditions: seq<seq<Piece>>, params: seq<Param>)
    ensures Paired(whereConditions, params)
    ensures |whereConditions| == BoundCount(f)
    ensures params == BoundValues(f)
  {
    whereConditions, params := AddFirstBounds(f);
    ghost var first := params;
    whereConditions, params := AddBound(whereConditions, params, RealBound(f.minTime), HikingTimeMin, AtLeast);
    whereConditions, params := AddBound(whereConditions, params, IntBound(f.maxElevationGain), TotalElevationGain, AtMost);
    whereConditions, params := AddBound(whereConditions, params, IntBound(f.minElevationGain), TotalElevationGain, AtLeast);
    whereConditions, params := AddBound(whereConditions, params, RealBound(f.maxClass), ClassNumeric, AtMost);
    whereConditions, params := AddBound(whereConditions, params, IntBound(f.maxCrowd), CrowdLevelNumeric, AtMost);
    AppendFive(first, Values(RealBound(f.minTime)), Values(IntBound(f.maxElevationGain)),
      Values(IntBound(f.minElevationGain)), Values(RealBound(f.maxClass)), Values(IntBound(f.maxCrowd)));
  }

  /** Appending five lists one by one appends their concatenation. */
  lemma AppendFive<T>(p: seq<T>, a: seq<T>, b: seq<T>, c: seq<T>, d: seq<T>, e: seq<T>)
    ensures p + a + b + c + d + e == p + (a + b + c + d + e)
  {
  }

  /** The WHERE conditions and their values, in the order the source appends them. */
  method BuildWhere(f: Filters) returns (whereConditions: seq<seq<Piece>>, params: seq<Param>)
    ensures Paired(whereConditions, params)
    ensures |whereConditions| == ConditionCount(f)
    ensures params == WhereValues(f)
  {
    whereConditions, params := AddBounds(f);
    whereConditions, params := AddFlag(whereConditions, params, f.fourteenersOnly, FourteenersOnly);
    whereConditions, params := AddFlag(whereConditions, params, f.overnightOnly, OvernightOnly);
    if HasSearch(f) {
      var searchTerm := TextParam("%" + f.search.value + "%");
      whereConditions, params := AddCondition(whereConditions, params, SearchCondition(searchTerm), [searchTerm, searchTerm]);
    } else {
      assert params + [] == params;
    }
  }

  lemma FragmentThenBind(f: Fragment, v: Param)
    ensures Bindings([Frag(f), Bind(v)]) == [v]
  {
    assert [Frag(f), Bind(v)] == [Frag(f)] + [Bind(v)];
    BindingsAppend([Frag(f)], [Bind(v)]);
    BindingsOne(Frag(f));
    BindingsOne(Bind(v));
  }

  /** The SELECT with the distance expression, which binds the Denver coordinates. */
  function SelectHead(): (q: seq<Piece>)
    ensures Bindings(q) == [RealParam(DenverLat), RealParam(DenverLon), RealParam(DenverLat)]
    ensures forall k :: 0 <= k < |q| ==> !q[k].Kw?
  {
    var lat := [Frag(SelectCosLat), Bind(RealParam(DenverLat))];
    var lon := [Frag(CosLon), Bind(RealParam(DenverLon))];
    var lat2 := [Frag(SinLat), Bind(RealParam(DenverLat))];
    var from := [Frag(FromJoin)];
    FragmentThenBind(SelectCosLat, RealParam(DenverLat));
    FragmentThenBind(CosLon, RealParam(DenverLon));
    FragmentThenBind(SinLat, RealParam(DenverLat));
    BindingsOne(Frag(FromJoin));
    BindingsAppend(lat, lon);
    BindingsAppend(lat + lon, lat2);
    BindingsAppend(lat + lon + lat2, from);
    lat + lon + lat2 + from
  }

  /**
   * Reads `s` left to right with `depth` parentheses open: `None` when a `)`
   * closes nothing, otherwise the number still open at the end.
   */
  function OpenAfter(s: string, depth: nat): Option<nat> {
    if s == [] then Some(depth)
    else if s[0] == '(' then OpenAfter(s[1..], depth + 1)
    else if s[0] == ')' then (if depth == 0 then None else OpenAfter(s[1..], depth - 1))
    else OpenAfter(s[1..], depth)
  }

  /** Every `(` of `s` is closed by a later `)` and every `)` closes one. */
  predicate Balanced(s: string) {
    OpenAfter(s, 0) == Some(0)
  }

  /** Reading `a + b` is reading `a` and then `b` from where `a` left off. */
  lemma {:induction false} OpenAfterAppend(a: string, b: string, depth: nat)
    ensures OpenAfter(a + b, depth) == if OpenAfter(a, depth).None? then None else OpenAfter(b, OpenAfter(a, depth).value)
    decreases |a|
  {
    if a != [] {
      assert (a + b)[0] == a[0];
      assert (a + b)[1..] == a[1..] + b;
      if a[0] == '(' {
        OpenAfterAppend(a[1..], b, depth + 1);
      } else if a[0] == ')' {
        if depth > 0 {
          OpenAfterAppend(a[1..], b, depth - 1);
        }
      } else {
        OpenAfterAppend(a[1..], b, depth);
      }
    } else {
      assert a + b == b;
    }
  }

  /** Text with neither `(` nor `)`. */
  predicate NoParens(w: string) {
    forall k :: 0 <= k < |w| ==> w[k] != '(' && w[k] != ')'
  }

  lemma NoParensAppend(a: string, b: string)
    requires NoParens(a) && NoParens(b)
    ensures NoParens(a + b)
  {
    forall k | 0 <= k < |a + b|
      ensures (a + b)[k] != '(' && (a + b)[k] != ')'
    {
      if k >= |a| {
        assert (a + b)[k] == b[k - |a|];
      }
    }
  }

  /** Text without parentheses leaves the depth as it is. */
  lemma {:induction false} OpenAfterPlain(w: string, depth: nat)
    requires NoParens(w)
    ensures OpenAfter(w, depth) == Some(depth)
    decreases |w|
  {
    if w != [] {
      assert forall k :: 0 <= k < |w[1..]| ==> w[1..][k] == w[k + 1];
      OpenAfterPlain(w[1..], depth);
    }
  }

  /** Appending text without parentheses keeps the depth. */
  lemma ThenWords(a: string, w: string, depth: nat, open: nat)
    requires OpenAfter(a, depth) == Some(open)
    requires NoParens(w)
    ensures OpenAfter(a + w, depth) == Some(open)
  {
    OpenAfterAppend(a, w, depth);
    OpenAfterPlain(w, open);
  }

  /** Appending `(` opens one more parenthesis. */
  lemma ThenOpen(a: string, depth: nat, open: nat)
    requires OpenAfter(a, depth) == Some(open)
    ensures OpenAfter(a + "(", depth) == Some(open + 1)
  {
    OpenAfterAppend(a, "(", depth);
    assert "("[1..] == [];
  }

  /** Appending `)` closes the innermost open parenthesis. */
  lemma ThenClose(a: string, depth: nat, open: nat)
    requires OpenAfter(a, depth) == Some(open) && open > 0
    ensures OpenAfter(a + ")", depth) == Some(open - 1)
  {
    OpenAfterAppend(a, ")", depth);
    assert ")"[1..] == [];
  }

  /** The SELECT up to the first placeholder opens ROUND, ACOS, COS and RADIANS. */
  lemma SelectCosLatShape(select: string, lat: string, lon: string, round: string, acos: string, cos: string,
                          radians: string, depth: nat)
    requires NoParens(select) && NoParens(lat) && NoParens(lon)
    requires NoParens(round) && NoParens(acos) && NoParens(cos) && NoParens(radians)
    ensures OpenAfter(select + lat + lon + round + "(" + acos + "(" + cos + "(" + radians + "(", depth)
         == Some(depth + 4)
  {
    var s := select;
    OpenAfterPlain(s, depth);
    ThenWords(s, lat, depth, depth); s := s + lat;
    ThenWords(s, lon, depth, depth); s := s + lon;
    ThenWords(s, round, depth, depth); s := s + round;
    ThenOpen(s, depth, depth); s := s + "(";
    ThenWords(s, acos, depth, depth + 1); s := s + acos;
    ThenOpen(s, depth, depth + 1); s := s + "(";
    ThenWords(s, cos, depth, depth + 2); s := s + cos;
    ThenOpen(s, depth, depth + 2); s := s + "(";
    ThenWords(s, radians, depth, depth + 3); s := s + radians;
    ThenOpen(s, depth, depth + 3);
  }

  lemma SelectCosLatDepth(depth: nat)
    ensures OpenAfter(FragmentText(SelectCosLat), depth) == Some(depth + 4)
  {
    SelectCosLatShape("SELECT DISTINCT h.*, ", "t.latitude, ", "t.longitude, ", "ROUND", "3959 * ACOS", "COS",
                      "RADIANS", depth);
  }

  /**
   * Between the Denver latitude and longitude the text closes RADIANS and
   * COS, multiplies by the cosines of the trailhead's latitude and of the
   * longitude difference, and opens COS and RADIANS again.
   */
  lemma CosLonShape(cos: string, radians: string, lat: string, lon: string, minus: string, depth: nat)
    requires NoParens(cos) && NoParens(radians) && NoParens(lat) && NoParens(lon) && NoParens(minus)
    ensures OpenAfter(")" + ")" + cos + "(" + radians + "(" + lat + ")" + ")"
      + cos + "(" + radians + "(" + lon + ")" + minus + "(", depth + 4) == Some(depth + 4)
  {
    var s := ")";
    assert OpenAfter(s, depth + 4) == Some(depth + 3) by {
      assert s[1..] == [];
    }
    ThenClose(s, depth + 4, depth + 3); s := s + ")";
    ThenWords(s, cos, depth + 4, depth + 2); s := s + cos;
    ThenOpen(s, depth + 4, depth + 2); s := s + "(";
    ThenWords(s, radians, depth + 4, depth + 3); s := s + radians;
    ThenOpen(s, depth + 4, depth + 3); s := s + "(";
    ThenWords(s, lat, depth + 4, depth + 4); s := s + lat;
    ThenClose(s, depth + 4, depth + 4); s := s + ")";
    ThenClose(s, depth + 4, depth + 3); s := s + ")";
    ThenWords(s, cos, depth + 4, depth + 2); s := s + cos;
    ThenOpen(s, depth + 4, depth + 2); s := s + "(";
    ThenWords(s, radians, depth + 4, depth + 3); s := s + radians;
    ThenOpen(s, depth + 4, depth + 3); s := s + "(";
    ThenWords(s, lon, depth + 4, depth + 4); s := s + lon;
    ThenClose(s, depth + 4, depth + 4); s := s + ")";
    ThenWords(s, minus, depth + 4, depth + 3); s := s + minus;
    ThenOpen(s, depth + 4, depth + 3);
  }

  lemma CosLonDepth(depth: nat)
    ensures OpenAfter(FragmentText(CosLon), depth + 4) == Some(depth + 4)
  {
    CosLonShape(" * COS", "RADIANS", "t.latitude", "t.longitude", " - RADIANS", depth);
  }

  /** Before the second Denver latitude the text closes two parentheses and opens SIN and RADIANS. */
  lemma SinLatShape(sin: string, radians: string, depth: nat)
    requires NoParens(sin) && NoParens(radians)
    ensures OpenAfter(")" + ")" + sin + "(" + radians + "(", depth + 4) == Some(depth + 4)
  {
    var s := ")";
    assert OpenAfter(s, depth + 4) == Some(depth + 3) by {
      assert s[1..] == [];
    }
    ThenClose(s, depth + 4, depth + 3); s := s + ")";
    ThenWords(s, sin, depth + 4, depth + 2); s := s + sin;
    ThenOpen(s, depth + 4, depth + 2); s := s + "(";
    ThenWords(s, radians, depth + 4, depth + 3); s := s + radians;
    ThenOpen(s, depth + 4, depth + 3);
  }

  lemma SinLatDepth(depth: nat)
    ensures OpenAfter(FragmentText(SinLat), depth + 4) == Some(depth + 4)
  {
    SinLatShape(" + SIN", "RADIANS", depth);
  }

  /**
   * After the last placeholder the text closes RADIANS and COS, adds the
   * sine of the trailhead's latitude, closes ACOS, gives ROUND its precision
   * and closes it: four parentheses closed and no more.
   */
  lemma DistanceEndShape(sin: string, radians: string, lat: string, precision: string, depth: nat)
    requires NoParens(sin) && NoParens(radians) && NoParens(lat) && NoParens(precision)
    ensures OpenAfter(")" + ")" + sin + "(" + radians + "(" + lat + ")" + ")" + ")" + precision + ")", depth + 4)
         == Some(depth)
  {
    var s := ")";
    assert OpenAfter(s, depth + 4) == Some(depth + 3) by {
      assert s[1..] == [];
    }
    ThenClose(s, depth + 4, depth + 3); s := s + ")";
    ThenWords(s, sin, depth + 4, depth + 2); s := s + sin;
    ThenOpen(s, depth + 4, depth + 2); s := s + "(";
    ThenWords(s, radians, depth + 4, depth + 3); s := s + radians;
    ThenOpen(s, depth + 4, depth + 3); s := s + "(";
    ThenWords(s, lat, depth + 4, depth + 4); s := s + lat;
    ThenClose(s, depth + 4, depth + 4); s := s + ")";
    ThenClose(s, depth + 4, depth + 3); s := s + ")";
    ThenClose(s, depth + 4, depth + 2); s := s + ")";
    ThenWords(s, precision, depth + 4, depth + 1); s := s + precision;
    ThenClose(s, depth + 4, depth + 1);
  }

  /** Four words without parentheses or placeholders, joined. */
  lemma WordsShape(w1: string, w2: string, w3: string, w4: string)
    requires NoParens(w1) && NoParens(w2) && NoParens(w3) && NoParens(w4)
    requires '?' !in w1 && '?' !in w2 && '?' !in w3 && '?' !in w4
    ensures NoParens(w1 + w2 + w3 + w4) && '?' !in w1 + w2 + w3 + w4
  {
    NoParensAppend(w1, w2);
    NoParensAppend(w1 + w2, w3);
    NoParensAppend(w1 + w2 + w3, w4);
  }

  lemma AliasPlain()
    ensures NoParens(AliasText) && '?' !in AliasText
  {
    WordsShape(" as ", "distance_from_denver", " FROM ", "hikes_with_peaks h");
  }

  lemma TrailheadJoinPlain()
    ensures NoParens(TrailheadJoinText) && '?' !in TrailheadJoinText
  {
    WordsShape(" LEFT JOIN ", "trailheads t", " ON h.id = ", "t.hike_id");
  }

  lemma FromJoinDepth(depth: nat)
    ensures OpenAfter(FragmentText(FromJoin), depth + 4) == Some(depth)
  {
    var end := ")" + ")" + " * SIN" + "(" + "RADIANS" + "(" + "t.latitude" + ")" + ")" + ")" + ", 1" + ")";
    DistanceEndShape(" * SIN", "RADIANS", "t.latitude", ", 1", depth);
    AliasPlain();
    TrailheadJoinPlain();
    ThenWords(end, AliasText, depth + 4, depth);
    ThenWords(end + AliasText, TrailheadJoinText, depth + 4, depth);
  }

  /** `Render` of a concatenation is the concatenation of the renders. */
  lemma {:induction false} RenderAppend(a: seq<Piece>, b: seq<Piece>)
    ensures Render(a + b) == Render(a) + Render(b)
    decreases |a|
  {
    if a == [] {
      assert a + b == b;
    } else {
      assert (a + b)[0] == a[0];
      assert (a + b)[1..] == a[1..] + b;
      RenderAppend(a[1..], b);
    }
  }

  /** A fragment followed by its placeholder renders as the fragment's text and a `?`. */
  lemma FragmentThenPlaceholderText(f: Fragment, v: Param)
    ensures Render([Frag(f), Bind(v)]) == FragmentText(f) + "?"
  {
    var q := [Frag(f), Bind(v)];
    assert q[1..] == [Bind(v)] && q[1..][1..] == [];
    assert Render(q[1..]) == "?" by {
      assert "?" + [] == "?";
    }
  }

  /** The select head is its four fragments with a placeholder after each of the first three. */
  lemma SelectHeadPieces()
    ensures Render(SelectHead())
         == FragmentText(SelectCosLat) + "?" + (FragmentText(CosLon) + "?") + (FragmentText(SinLat) + "?")
            + FragmentText(FromJoin)
  {
    var lat := [Frag(SelectCosLat), Bind(RealParam(DenverLat))];
    var lon := [Frag(CosLon), Bind(RealParam(DenverLon))];
    var lat2 := [Frag(SinLat), Bind(RealParam(DenverLat))];
    var from := [Frag(FromJoin)];
    assert SelectHead() == lat + lon + lat2 + from;
    FragmentThenPlaceholderText(SelectCosLat, RealParam(DenverLat));
    FragmentThenPlaceholderText(CosLon, RealParam(DenverLon));
    FragmentThenPlaceholderText(SinLat, RealParam(DenverLat));
    assert Render(from) == FragmentText(FromJoin) by {
      assert from[1..] == [];
      assert FragmentText(FromJoin) + [] == FragmentText(FromJoin);
    }
    RenderAppend(lat, lon);
    RenderAppend(lat + lon, lat2);
    RenderAppend(lat + lon + lat2, from);
  }

  /**
   * Text that opens four parentheses, keeps the depth across two more
   * stretches and then closes four ends where it started, whatever
   * placeholders sit between the stretches.
   */
  lemma HeadNesting(a: string, b: string, c: string, d: string, depth: nat)
    requires OpenAfter(a, depth) == Some(depth + 4)
    requires OpenAfter(b, depth + 4) == Some(depth + 4) && OpenAfter(c, depth + 4) == Some(depth + 4)
    requires OpenAfter(d, depth + 4) == Some(depth)
    ensures OpenAfter(a + "?" + (b + "?") + (c + "?") + d, depth) == Some(depth)
  {
    ThenWords(a, "?", depth, depth + 4);
    ThenWords(b, "?", depth + 4, depth + 4);
    ThenWords(c, "?", depth + 4, depth + 4);
    OpenAfterAppend(a + "?", b + "?", depth);
    OpenAfterAppend(a + "?" + (b + "?"), c + "?", depth);
    OpenAfterAppend(a + "?" + (b + "?") + (c + "?"), d, depth);
  }

  /**
   * Read from any depth, the select head ends at that depth again and never
   * closes more than it opened.
   */
  lemma SelectHeadNesting(depth: nat)
    ensures OpenAfter(Render(SelectHead()), depth) == Some(depth)
  {
    SelectHeadPieces();
    SelectCosLatDepth(depth);
    CosLonDepth(depth);
    SinLatDepth(depth);
    FromJoinDepth(depth);
    HeadNesting(FragmentText(SelectCosLat), FragmentText(CosLon), FragmentText(SinLat), FragmentText(FromJoin), depth);
  }

  /**
   * The distance expression opens ROUND, ACOS, COS and RADIANS and closes
   * each of them, so the select head's parentheses balance.
   */
  lemma SelectHeadBalanced()
    ensures Balanced(Render(SelectHead()))
  {
    SelectHeadNesting(0);
  }

  /** How many times a piece occurs in the text. */
  function Occurrences(q: seq<Piece>, p: Piece): nat {
    multiset(q)[p]
  }

  /** Pieces that are no clause keyword but `AND`. */
  ghost predicate ClauseFree(q: seq<Piece>) {
    forall k :: 0 <= k < |q| ==> q[k] == And || !q[k].Kw?
  }

  /** Joining plain conditions with `AND` adds only `AND` pieces. */
  lemma {:induction false} JoinAndPlain(conditions: seq<seq<Piece>>)
    requires forall j :: 0 <= j < |conditions| ==> PlainCondition(conditions[j])
    ensures ClauseFree(JoinAnd(conditions))
  {
    if |conditions| > 1 {
      JoinAndPlain(conditions[1..]);
      var rest := JoinAnd(conditions[1..]);
      var j := conditions[0] + [And] + rest;
      forall k | 0 <= k < |j| ensures j[k] == And || !j[k].Kw? {
        if k < |conditions[0]| {
          assert j[k] == conditions[0][k];
        } else if k > |conditions[0]| {
          assert j[k] == rest[k - |conditions[0]| - 1];
        }
      }
    }
  }

  /** A clause: nothing, or its keyword followed by the conditions joined with `AND`. */
  function Clause(keyword: Piece, conditions: seq<seq<Piece>>): seq<Piece> {
    if conditions == [] then [] else [keyword] + JoinAnd(conditions)
  }

  /** A clause binds exactly what its conditions bind. */
  lemma ClauseBindings(keyword: Piece, conditions: seq<seq<Piece>>)
    requires keyword.Kw?
    ensures Bindings(Clause(keyword, conditions)) == Bindings(Flatten(conditions))
  {
    if conditions != [] {
      JoinAndBindings(conditions);
      BindingsAppend([keyword], JoinAnd(conditions));
      BindingsOne(keyword);
    } else {
      assert Flatten(conditions) == [];
    }
  }

  /** A clause holds its own keyword exactly when it has conditions, and no other keyword but `AND`. */
  lemma ClauseKeywords(keyword: Piece, conditions: seq<seq<Piece>>)
    requires keyword == Where || keyword == Having
    requires forall j :: 0 <= j < |conditions| ==> PlainCondition(conditions[j])
    ensures keyword in Clause(keyword, conditions) <==> conditions != []
    ensures GroupBy !in Clause(keyword, conditions)
    ensures keyword == Where ==> Having !in Clause(keyword, conditions)
    ensures keyword == Having ==> Where !in Clause(keyword, conditions)
  {
    if conditions != [] {
      JoinAndPlain(conditions);
      var c := Clause(keyword, conditions);
      assert c[0] == keyword;
      forall k | 0 <= k < |c| ensures c[k] == keyword || c[k] == And || !c[k].Kw? {
        if k > 0 {
          assert c[k] == JoinAnd(conditions)[k - 1];
        }
      }
    }
  }

  /** The values the HAVING conditions bind: the maximum, then the minimum distance from Denver. */
  function HavingValues(f: Filters): (vs: seq<Param>)
    ensures |vs| == HavingParamCount(f)
  {
    Values(RealBound(f.maxDistanceFromDenver)) + Values(RealBound(f.minDistanceFromDenver))
  }

  /** The HAVING conditions on the distance from Denver and their values. */
  method BuildHaving(f: Filters) returns (havingConditions: seq<seq<Piece>>, havingParams: seq<Param>)
    ensures Paired(havingConditions, havingParams)
    ensures |havingConditions| == HavingParamCount(f)
    ensures havingParams == HavingValues(f)
  {
    havingConditions, havingParams := [], [];
    assert Flatten(havingConditions) == [];
    havingConditions, havingParams := AddBound(havingConditions, havingParams, RealBound(f.maxDistanceFromDenver), DistanceFromDenver, AtMost);
    assert havingParams == Values(RealBound(f.maxDistanceFromDenver));
    havingConditions, havingParams := AddBound(havingConditions, havingParams, RealBound(f.minDistanceFromDenver), DistanceFromDenver, AtLeast);
  }

  /** `if conditions: query += keyword + " AND ".join(conditions)`. */
  method AppendClause(query: seq<Piece>, keyword: Piece, conditions: seq<seq<Piece>>) returns (query': seq<Piece>)
    ensures query' == query + Clause(keyword, conditions)
  {
    query' := query;
    if conditions != [] {
      query' := query' + [keyword] + JoinAnd(conditions);
    } else {
      assert query == query + [];
    }
  }

  /**
   * GROUP BY, then the HAVING clause when a Denver-distance bound is given;
   * the HAVING values are returned for `params`.
   */
  method AddGroupAndHaving(f: Filters, query: seq<Piece>)
    returns (query': seq<Piece>, havingConditions: seq<seq<Piece>>, havingParams: seq<Param>)
    ensures Paired(havingConditions, havingParams)
    ensures havingConditions != [] <==> HasDenverBound(f)
    ensures havingParams == HavingValues(f)
    ensures query' == query + [GroupBy] + Clause(Having, havingConditions)
  {
    if f.maxDistanceFromDenver.Some? || f.minDistanceFromDenver.Some? {
      havingConditions, havingParams := BuildHaving(f);
      query' := query + [GroupBy];
      query' := AppendClause(query', Having, havingConditions);
    } else {
      havingConditions, havingParams := [], [];
      assert Flatten(havingConditions) == [];
      query' := query + [GroupBy];
      assert query' == query' + Clause(Having, havingConditions);
    }
  }

  /**
   * The SQL text and its parameters: the Denver coordinates first, then
   * the WHERE values, then the HAVING values. GROUP BY appears once,
   * whatever the filters; WHERE and HAVING appear exactly when some
   * condition calls for them.
   */
  method BuildHikesQuery(f: Filters) returns (query: seq<Piece>, params: seq<Param>)
    ensures Bindings(query) == params
    ensures params == [RealParam(DenverLat), RealParam(DenverLon), RealParam(DenverLat)] + WhereValues(f) + HavingValues(f)
    ensures Occurrences(query, GroupBy) == 1
    ensures Having in query <==> HasDenverBound(f)
    ensures Where in query <==> HasWhereFilter(f)
  {
    var whereConditions, whereParams := BuildWhere(f);
    var head := SelectHead();
    query := head;
    params := [RealParam(DenverLat), RealParam(DenverLon), RealParam(DenverLat)] + whereParams;
    query := AppendClause(query, Where, whereConditions);

    var havingConditions;
    var havingParams;
    query, havingConditions, havingParams := AddGroupAndHaving(f, query);
    params := params + havingParams;
    var tail := [OrderBy(f.sortBy, f.descending), Page(f.limit, f.offset)];
    query := query + tail;
    QueryFacts(f, head, whereConditions, whereParams, havingConditions, havingParams, tail, query, params);
  }

  /** The facts `BuildHikesQuery` promises, for the text assembled from its parts. */
  lemma QueryFacts(f: Filters, head: seq<Piece>, whereConditions: seq<seq<Piece>>, whereParams: seq<Param>,
                   havingConditions: seq<seq<Piece>>, havingParams: seq<Param>, tail: seq<Piece>,
                   query: seq<Piece>, params: seq<Param>)
    requires Bindings(head) == [RealParam(DenverLat), RealParam(DenverLon), RealParam(DenverLat)]
    requires forall k :: 0 <= k < |head| ==> !head[k].Kw?
    requires Paired(whereConditions, whereParams) && |whereConditions| == ConditionCount(f) && whereParams == WhereValues(f)
    requires Paired(havingConditions, havingParams) && (havingConditions != [] <==> HasDenverBound(f)) && havingParams == HavingValues(f)
    requires forall k :: 0 <= k < |tail| ==> tail[k].OrderBy? || tail[k].Page?
    requires query == head + Clause(Where, whereConditions) + [GroupBy] + Clause(Having, havingConditions) + tail
    requires params == [RealParam(DenverLat), RealParam(DenverLon), RealParam(DenverLat)] + whereParams + havingParams
    ensures Bindings(query) == params
    ensures params == [RealParam(DenverLat), RealParam(DenverLon), RealParam(DenverLat)] + WhereValues(f) + HavingValues(f)
    ensures Occurrences(query, GroupBy) == 1
    ensures Having in query <==> HasDenverBound(f)
    ensures Where in query <==> HasWhereFilter(f)
  {
    QueryBindings(head, whereConditions, whereParams, havingConditions, havingParams, tail);
    QueryKeywords(head, whereConditions, havingConditions, tail);
    SomeConditionIffFilter(f);
  }

  lemma {:induction false} NoBindings(q: seq<Piece>)
    requires forall k :: 0 <= k < |q| ==> !q[k].Bind?
    ensures Bindings(q) == []
  {
    if q != [] {
      NoBindings(q[1..]);
    }
  }

  /** The text assembled from its parts binds the Denver coordinates, then the WHERE values, then the HAVING values. */
  lemma QueryBindings(head: seq<Piece>, whereConditions: seq<seq<Piece>>, whereParams: seq<Param>,
                      havingConditions: seq<seq<Piece>>, havingParams: seq<Param>, tail: seq<Piece>)
    requires Bindings(head) == [RealParam(DenverLat), RealParam(DenverLon), RealParam(DenverLat)]
    requires Paired(whereConditions, whereParams) && Paired(havingConditions, havingParams)
    requires forall k :: 0 <= k < |tail| ==> !tail[k].Bind?
    ensures Bindings(head + Clause(Where, whereConditions) + [GroupBy] + Clause(Having, havingConditions) + tail)
         == [RealParam(DenverLat), RealParam(DenverLon), RealParam(DenverLat)] + whereParams + havingParams
  {
    var w := Clause(Where, whereConditions);
    var h := Clause(Having, havingConditions);
    var a1 := head + w;
    var a2 := a1 + [GroupBy];
    var a3 := a2 + h;
    assert Bindings(a1) == Bindings(head) + whereParams by {
      ClauseBindings(Where, whereConditions);
      BindingsAppend(head, w);
    }
    assert Bindings(a2) == Bindings(a1) by {
      BindingsAppend(a1, [GroupBy]);
      BindingsOne(GroupBy);
    }
    assert Bindings(a3) == Bindings(a2) + havingParams by {
      ClauseBindings(Having, havingConditions);
      BindingsAppend(a2, h);
    }
    assert Bindings(a3 + tail) == Bindings(a3) by {
      BindingsAppend(a3, tail);
      NoBindings(tail);
    }
  }

  /**
   * In the text assembled from its parts, GROUP BY occurs once, HAVING
   * occurs exactly when there are HAVING conditions and WHERE exactly when
   * there are WHERE conditions.
   */
  lemma QueryKeywords(head: seq<Piece>, whereConditions: seq<seq<Piece>>, havingConditions: seq<seq<Piece>>, tail: seq<Piece>)
    requires forall k :: 0 <= k < |head| ==> !head[k].Kw?
    requires forall j :: 0 <= j < |whereConditions| ==> PlainCondition(whereConditions[j])
    requires forall j :: 0 <= j < |havingConditions| ==> PlainCondition(havingConditions[j])
    requires forall k :: 0 <= k < |tail| ==> !tail[k].Kw?
    ensures var query := head + Clause(Where, whereConditions) + [GroupBy] + Clause(Having, havingConditions) + tail;
      && Occurrences(query, GroupBy) == 1
      && (Having in query <==> havingConditions != [])
      && (Where in query <==> whereConditions != [])
  {
    KeywordsOutside(head);
    KeywordsOutside(tail);
    ClauseKeywords(Where, whereConditions);
    ClauseKeywords(Having, havingConditions);
    KeywordsAround(head, Clause(Where, whereConditions), Clause(Having, havingConditions), tail);
  }

  /** A part without keywords holds none of the clause keywords. */
  lemma KeywordsOutside(q: seq<Piece>)
    requires forall k :: 0 <= k < |q| ==> !q[k].Kw?
    ensures Where !in q && Having !in q && GroupBy !in q
  {
  }

  /**
   * Between a head and a tail without keywords, GROUP BY occurs once and
   * WHERE and HAVING occur exactly when their own clause holds them.
   */
  lemma KeywordsAround(head: seq<Piece>, w: seq<Piece>, h: seq<Piece>, tail: seq<Piece>)
    requires Where !in head && Having !in head && GroupBy !in head
    requires Where !in tail && Having !in tail && GroupBy !in tail
    requires GroupBy !in w && Having !in w && GroupBy !in h && Where !in h
    ensures var query := head + w + [GroupBy] + h + tail;
      && Occurrences(query, GroupBy) == 1
      && (Having in query <==> Having in h)
      && (Where in query <==> Where in w)
  {
    var query := head + w + [GroupBy] + h + tail;
    assert multiset(query) == multiset(head) + multiset(w) + multiset([GroupBy]) + multiset(h) + multiset(tail);
  }
}
