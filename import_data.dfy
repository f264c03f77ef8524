/**
 * The import-time field parsers of `import_data.py`: difficulty `X/10`, the
 * class lookup table, crowd-level keywords, miles, hiking-time ranges,
 * elevations and degree-minute GPS coordinates. Each regular expression is
 * a hand-written matcher at one position, and `re.search` is `Scan.Search`
 * over those positions.
 */
module ImportData {
  import opened Options
  import opened Text
  import opened Scan

  // ---------------------------------------------------------------- difficulty

  /** `(\d+(?:\.\d+)?)/10` at `i`: the number. */
  function DifficultyAt(s: string, i: nat): (r: Option<real>)
    ensures r.Some? ==> r.value >= 0.0
  {
    match NumberAt(s, i)
    case None => None
    case Some(m) => if OccursAt(s, "/10", m.end) then Some(m.value) else None
  }

  function DifficultyMatcher(s: string): nat -> Option<real> {
    (k: nat) => DifficultyAt(s, k)
  }

  /** `parse_difficulty`: the number of the first `X/10`, or 0.0. */
  function ParseDifficulty(s: string): (r: real)
    ensures r >= 0.0
  {
    var m := Search(s, DifficultyMatcher(s));
    SearchKeeps(s, DifficultyMatcher(s), (v: real) => v >= 0.0);
    if m.Some? then m.value else 0.0
  }

  /** Without any `/10` in the text the difficulty is 0.0. */
  lemma DifficultyWithoutMarker(s: string)
    ensures !Contains(s, "/10") ==> ParseDifficulty(s) == 0.0
  {
    var m := Search(s, DifficultyMatcher(s));
    if m.Some? {
      var k := SearchWitness(s, DifficultyMatcher(s));
      ContainsIff(s, "/10");
      assert OccursAt(s, "/10", NumberAt(s, k).value.end);
    }
  }

  /** A rating written `n/10` at the start of the text reads back as `n`. */
  lemma DifficultyRoundTrip(n: nat, t: string)
    ensures ParseDifficulty(NatString(n) + "/10" + t) == n as real
  {
    var s := NatString(n) + "/10" + t;
    DifficultyAtStart(n, t);
    assert DifficultyMatcher(s)(0) == Some(n as real);
    SearchAtStart(s, DifficultyMatcher(s));
  }

  lemma DifficultyAtStart(n: nat, t: string)
    ensures DifficultyAt(NatString(n) + "/10" + t, 0) == Some(n as real)
  {
    DifficultyNumber(n, t);
    DifficultyMarker(n, t);
    DifficultyOfParts(NatString(n) + "/10" + t, n as real, |NatString(n)|);
  }

  /** The number at the start of `n/10…` is `n`, ending before the slash. */
  lemma DifficultyNumber(n: nat, t: string)
    ensures NumberAt(NatString(n) + "/10" + t, 0) == Some(Number(n as real, |NatString(n)|))
  {
    NumberAtNatString("", n, "/10" + t);
    assert "" + NatString(n) + ("/10" + t) == NatString(n) + "/10" + t;
  }

  /** `/10` stands right after the numeral. */
  lemma DifficultyMarker(n: nat, t: string)
    ensures OccursAt(NatString(n) + "/10" + t, "/10", |NatString(n)|)
  {
    OccursAtSplice(NatString(n), "/10", t);
  }

  /** The difficulty pattern at the start, from its parts: a number followed by `/10`. */
  lemma DifficultyOfParts(s: string, x: real, e: nat)
    requires NumberAt(s, 0) == Some(Number(x, e)) && OccursAt(s, "/10", e)
    ensures DifficultyAt(s, 0) == Some(x)
  {
  }

  // --------------------------------------------------------------------- class

  /** The class descriptions the importer knows, with their numeric class. */
  const ClassTable: map<string, real> := map[
    "1" := 1.0,
    "1; 2 for the last 0.5 mile" := 1.5,
    "2" := 2.0,
    "2 with long class 1 sections" := 2.0,
    "2+" := 2.3,
    "2+/3" := 2.5,
    "2+; optional class 3 moves on summit" := 2.3,
    "2/2+" := 2.2,
    "3" := 3.0,
    "3 with significant exposure" := 3.0,
    "3/3+" := 3.3,
    "3; class 2 hike in" := 3.0
  ]

  /** `parse_class`: the table entry, or class 2.0 for an unknown description. */
  function ParseClass(s: string): (r: real)
    ensures 1.0 <= r <= 3.3
    ensures s in ClassTable ==> r == ClassTable[s]
    ensures s !in ClassTable ==> r == 2.0
  {
    if s in ClassTable then ClassTable[s] else 2.0
  }

  /** The twelve known descriptions map to their classes; anything else is class 2. */
  lemma ClassOfDescriptions()
    ensures ParseClass("1") == 1.0
    ensures ParseClass("1; 2 for the last 0.5 mile") == 1.5
    ensures ParseClass("2") == 2.0
    ensures ParseClass("2 with long class 1 sections") == 2.0
    ensures ParseClass("2+") == 2.3
    ensures ParseClass("2+/3") == 2.5
    ensures ParseClass("2+; optional class 3 moves on summit") == 2.3
    ensures ParseClass("2/2+") == 2.2
    ensures ParseClass("3") == 3.0
    ensures ParseClass("3 with significant exposure") == 3.0
    ensures ParseClass("3/3+") == 3.3
    ensures ParseClass("3; class 2 hike in") == 3.0
    ensures ParseClass("4") == 2.0 && ParseClass("") == 2.0
  {
  }

  /** Every numeric class of the table lies in [1.0, 3.3]. */
  lemma ClassTableRange()
    ensures forall k :: k in ClassTable ==> 1.0 <= ClassTable[k] <= 3.3
  {
  }

  // --------------------------------------------------------------- crowd level

  /**
   * `parse_crowd_level`: keyword classification of the lower-cased text,
   * first match wins; the original text is returned alongside.
   */
  function ParseCrowdLevel(s: string): (r: (int, string))
    ensures 1 <= r.0 <= 5
    ensures r.1 == s
  {
    var l := ToLower(s);
    if Contains(l, "hermit") then (1, s)
    else if Contains(l, "low") && Contains(l, "moderate") then (3, s)
    else if Contains(l, "low") then (2, s)
    else if Contains(l, "high") then (5, s)
    else if Contains(l, "moderate") || Contains(l, "medium") then (4, s)
    else (3, s)
  }

  /** The lower-cased text holds the keyword `w` at some index. */
  ghost predicate Mentions(s: string, w: string) {
    exists k :: 0 <= k <= |s| && OccursAt(ToLower(s), w, k)
  }

  /**
   * The keyword table in its order of priority: `hermit` gives 1; `low`
   * gives 3 together with `moderate` and 2 without it; then `high` gives 5;
   * then `moderate` or `medium` gives 4; text with none of these gives 3.
   */
  lemma CrowdLevelKeywords(s: string)
    ensures Mentions(s, "hermit") ==> ParseCrowdLevel(s).0 == 1
    ensures !Mentions(s, "hermit") && Mentions(s, "low") && Mentions(s, "moderate") ==> ParseCrowdLevel(s).0 == 3
    ensures !Mentions(s, "hermit") && Mentions(s, "low") && !Mentions(s, "moderate") ==> ParseCrowdLevel(s).0 == 2
    ensures !Mentions(s, "hermit") && !Mentions(s, "low") && Mentions(s, "high") ==> ParseCrowdLevel(s).0 == 5
    ensures (!Mentions(s, "hermit") && !Mentions(s, "low") && !Mentions(s, "high")
             && (Mentions(s, "moderate") || Mentions(s, "medium"))) ==> ParseCrowdLevel(s).0 == 4
    ensures (!Mentions(s, "hermit") && !Mentions(s, "low") && !Mentions(s, "high")
             && !Mentions(s, "moderate") && !Mentions(s, "medium")) ==> ParseCrowdLevel(s).0 == 3
  {
    var l := ToLower(s);
    ContainsIff(l, "hermit");
    ContainsIff(l, "low");
    ContainsIff(l, "moderate");
    ContainsIff(l, "high");
    ContainsIff(l, "medium");
  }

  /** The classification does not depend on letter case. */
  lemma CrowdLevelIgnoresCase(s: string)
    ensures ParseCrowdLevel(ToLower(s)).0 == ParseCrowdLevel(s).0
  {
    ToLowerIdempotent(s);
  }

  // ------------------------------------------------------------------ distance

  /** `(\d+(?:\.\d+)?)\s*miles` at `i`: the number. */
  function DistanceAt(s: string, i: nat): (r: Option<real>)
    ensures r.Some? ==> r.value >= 0.0
  {
    match NumberAt(s, i)
    case None => None
    case Some(m) => if OccursAt(s, "miles", SkipSpaces(s, m.end)) then Some(m.value) else None
  }

  function DistanceMatcher(s: string): nat -> Option<real> {
    (k: nat) => DistanceAt(s, k)
  }

  /** `parse_distance`: the number of the first `X miles`, or 0.0. */
  function ParseDistance(s: string): (r: real)
    ensures r >= 0.0
  {
    var m := Search(s, DistanceMatcher(s));
    SearchKeeps(s, DistanceMatcher(s), (v: real) => v >= 0.0);
    if m.Some? then m.value else 0.0
  }

  /** Without the word `miles` the distance is 0.0. */
  lemma DistanceWithoutMiles(s: string)
    ensures !Contains(s, "miles") ==> ParseDistance(s) == 0.0
  {
    var m := Search(s, DistanceMatcher(s));
    if m.Some? {
      var k := SearchWitness(s, DistanceMatcher(s));
      ContainsIff(s, "miles");
      assert OccursAt(s, "miles", SkipSpaces(s, NumberAt(s, k).value.end));
    }
  }

  /** `n miles` at the start of the text reads back as `n`. */
  lemma DistanceRoundTrip(n: nat, t: string)
    ensures ParseDistance(NatString(n) + " miles" + t) == n as real
  {
    var s := NatString(n) + " miles" + t;
    DistanceAtStart(n, t);
    assert DistanceMatcher(s)(0) == Some(n as real);
    SearchAtStart(s, DistanceMatcher(s));
  }

  lemma DistanceAtStart(n: nat, t: string)
    ensures DistanceAt(NatString(n) + " miles" + t, 0) == Some(n as real)
  {
    var w := NatString(n);
    var s := w + " miles" + t;
    assert NumberAt(s, 0) == Some(Number(n as real, |w|)) by {
      NumberAtNatString("", n, " miles" + t);
      assert "" + w + (" miles" + t) == s;
    }
    assert OccursAt(s, "miles", SkipSpaces(s, |w|)) by {
      MilesAfterNumber(w, t);
    }
  }

  lemma MilesAfterNumber(w: string, t: string)
    ensures OccursAt(w + " miles" + t, "miles", SkipSpaces(w + " miles" + t, |w|))
  {
    var s := w + " miles" + t;
    assert s[|w|] == ' ' && !IsSpace(s[|w| + 1]);
    assert SkipSpaces(s, |w| + 1) == |w| + 1;
    assert s[|w| + 1..|w| + 6] == "miles";
  }

  // -------------------------------------------------------------- hiking time

  /** `(\d+(?:\.\d+)?)-(\d+(?:\.\d+)?)\s*hours` at `i`: both numbers. */
  function RangeHoursAt(s: string, i: nat): (r: Option<(real, real)>)
    ensures r.Some? ==> r.value.0 >= 0.0 && r.value.1 >= 0.0
  {
    match NumberAt(s, i)
    case None => None
    case Some(a) =>
      if a.end < |s| && s[a.end] == '-' then
        match NumberAt(s, a.end + 1)
        case None => None
        case Some(b) =>
          if OccursAt(s, "hours", SkipSpaces(s, b.end)) then Some((a.value, b.value)) else None
      else None
  }

  /** `(\d+(?:\.\d+)?)\s*<word>` at `i`: the number (`days?` and `hours?` need only their stem). */
  function NumberBeforeAt(s: string, word: string, i: nat): (r: Option<real>)
    ensures r.Some? ==> r.value >= 0.0
  {
    match NumberAt(s, i)
    case None => None
    case Some(m) => if OccursAt(s, word, SkipSpaces(s, m.end)) then Some(m.value) else None
  }

  function RangeMatcher(s: string): nat -> Option<(real, real)> {
    (k: nat) => RangeHoursAt(s, k)
  }

  function WordMatcher(s: string, word: string): nat -> Option<real> {
    (k: nat) => NumberBeforeAt(s, word, k)
  }

  /**
   * `parse_hiking_time`: `X-Y hours` gives (X, Y); otherwise `N day(s)`
   * gives (8N, 12N); otherwise `N hour(s)` gives (N, N); otherwise (0, 0).
   */
  function ParseHikingTime(s: string): (r: (real, real))
    ensures r.0 >= 0.0 && r.1 >= 0.0
  {
    var range := Search(s, RangeMatcher(s));
    var days := Search(s, WordMatcher(s, "day"));
    var hours := Search(s, WordMatcher(s, "hour"));
    SearchKeeps(s, RangeMatcher(s), (v: (real, real)) => v.0 >= 0.0 && v.1 >= 0.0);
    SearchKeeps(s, WordMatcher(s, "day"), (v: real) => v >= 0.0);
    SearchKeeps(s, WordMatcher(s, "hour"), (v: real) => v >= 0.0);
    HikingTime(range, days, hours)
  }

  /** The priority among the three patterns of `parse_hiking_time`. */
  function HikingTime(range: Option<(real, real)>, days: Option<real>, hours: Option<real>): (r: (real, real))
    requires range.Some? ==> range.value.0 >= 0.0 && range.value.1 >= 0.0
    requires days.Some? ==> days.value >= 0.0
    requires hours.Some? ==> hours.value >= 0.0
    ensures r.0 >= 0.0 && r.1 >= 0.0
    ensures range.None? && days.Some? ==> r.0 <= r.1
  {
    if range.Some? then range.value
    else if days.Some? then (days.value * 8.0, days.value * 12.0)
    else if hours.Some? then (hours.value, hours.value)
    else (0.0, 0.0)
  }

  /** A number-before-word match needs the word somewhere in the text. */
  lemma WordNeeded(s: string, word: string)
    ensures Search(s, WordMatcher(s, word)).Some? ==> Contains(s, word)
  {
    if Search(s, WordMatcher(s, word)).None? { return; }
    var k := SearchWitness(s, WordMatcher(s, word));
    ContainsIff(s, word);
    assert OccursAt(s, word, SkipSpaces(s, NumberAt(s, k).value.end));
  }

  /** A range match needs a `-` in the text. */
  lemma DashNeeded(s: string)
    ensures Search(s, RangeMatcher(s)).Some? ==> '-' in s
  {
    if Search(s, RangeMatcher(s)).None? { return; }
    var k := SearchWitness(s, RangeMatcher(s));
    var a := NumberAt(s, k).value;
    assert s[a.end] == '-';
  }

  /** A range match needs `hour` in the text. */
  lemma RangeNeedsHour(s: string)
    ensures Search(s, RangeMatcher(s)).Some? ==> Contains(s, "hour")
  {
    if Search(s, RangeMatcher(s)).None? { return; }
    var k := SearchWitness(s, RangeMatcher(s));
    var b := NumberAt(s, NumberAt(s, k).value.end + 1).value;
    var h := SkipSpaces(s, b.end);
    assert OccursAt(s, "hours", h);
    assert "hours" == "hour" + "s";
    OccursAtPrefix(s, "hour", "s", h);
    ContainsIff(s, "hour");
  }

  /** Text that mentions neither hours nor days gives (0.0, 0.0). */
  lemma HikingTimeWithoutUnits(s: string)
    ensures !Contains(s, "hour") && !Contains(s, "day") ==> ParseHikingTime(s) == (0.0, 0.0)
  {
    RangeNeedsHour(s);
    WordNeeded(s, "day");
    WordNeeded(s, "hour");
  }

  /** A range at the very start of the text decides the hiking time. */
  lemma HikingTimeOfRange(s: string, x: real, y: real)
    requires RangeHoursAt(s, 0) == Some((x, y))
    ensures ParseHikingTime(s) == (x, y)
  {
    SearchAtStart(s, RangeMatcher(s));
  }

  /** Without a dash, a day count at the very start decides the hiking time. */
  lemma HikingTimeOfDays(s: string, x: real)
    requires '-' !in s && NumberBeforeAt(s, "day", 0) == Some(x)
    ensures ParseHikingTime(s) == (x * 8.0, x * 12.0)
  {
    DashNeeded(s);
    SearchAtStart(s, WordMatcher(s, "day"));
  }

  /** Without a dash or a `d`, an hour count at the very start decides the hiking time. */
  lemma HikingTimeOfHours(s: string, x: real)
    requires '-' !in s && 'd' !in s && NumberBeforeAt(s, "hour", 0) == Some(x)
    ensures ParseHikingTime(s) == (x, x)
  {
    DashNeeded(s);
    WordNeeded(s, "day");
    AbsentFirstChar(s, "day");
    SearchAtStart(s, WordMatcher(s, "hour"));
  }

  /** The unit words stand right after the space that follows a numeral. */
  lemma UnitAfterSpace(w: string)
    ensures OccursAt(w + " hours", "hours", |w| + 1) && OccursAt(w + " hours", "hour", |w| + 1)
    ensures OccursAt(w + " days", "day", |w| + 1)
  {
    assert w + " hours" == (w + " ") + "hours" + "";
    OccursAtSplice(w + " ", "hours", "");
    assert w + " hours" == (w + " ") + "hour" + "s";
    OccursAtSplice(w + " ", "hour", "s");
    assert w + " days" == (w + " ") + "day" + "s";
    OccursAtSplice(w + " ", "day", "s");
  }

  /** A number followed by ` days` or ` hours` matches the number-before-unit pattern. */
  lemma NumberBeforeUnit(w: string, x: real)
    ensures NumberAt(w + " days", 0) == Some(Number(x, |w|)) ==> NumberBeforeAt(w + " days", "day", 0) == Some(x)
    ensures NumberAt(w + " hours", 0) == Some(Number(x, |w|)) ==> NumberBeforeAt(w + " hours", "hour", 0) == Some(x)
  {
    UnitAfterSpace(w);
    var d, h := w + " days", w + " hours";
    assert d[|w|] == ' ' && !IsSpace(d[|w| + 1]);
    assert SkipSpaces(d, |w| + 1) == |w| + 1;
    assert h[|w|] == ' ' && !IsSpace(h[|w| + 1]);
    assert SkipSpaces(h, |w| + 1) == |w| + 1;
  }

  /** The first number of `a-b hours` is `a`, and it ends at the dash. */
  lemma RangeFirstNumber(a: nat, wb: string)
    ensures NumberAt(NatString(a) + "-" + wb + " hours", 0) == Some(Number(a as real, |NatString(a)|))
  {
    LeadingNumber(a, "-" + wb + " hours");
    assert NatString(a) + ("-" + wb + " hours") == NatString(a) + "-" + wb + " hours";
  }

  /** The second number of `a-b hours` is `b`, and it ends at the space. */
  lemma RangeSecondNumber(wa: string, b: nat)
    ensures NumberAt(wa + "-" + NatString(b) + " hours", |wa| + 1)
      == Some(Number(b as real, |wa| + 1 + |NatString(b)|))
  {
    NumberAtNatString(wa + "-", b, " hours");
  }

  /** The dash and the unit of `a-b hours`, by position. */
  lemma RangeShape(wa: string, wb: string)
    ensures var s := wa + "-" + wb + " hours";
      |wa| < |wa| + 1 + |wb| && |s| == |wa| + 1 + |wb| + 6 && s[|wa|] == '-' && s[|wa| + 1 + |wb|..] == " hours"
  {
    var s := wa + "-" + wb + " hours";
    assert s[|wa| + 1 + |wb|..] == " hours";
  }

  /** Two numbers joined by a dash and followed by ` hours` match the range pattern. */
  lemma RangeOfNumbers(s: string, e1: nat, e2: nat, x: real, y: real)
    requires e1 < e2 && |s| == e2 + 6 && s[e1] == '-' && s[e2..] == " hours"
    requires NumberAt(s, 0) == Some(Number(x, e1)) && NumberAt(s, e1 + 1) == Some(Number(y, e2))
    ensures RangeHoursAt(s, 0) == Some((x, y))
  {
    assert SkipSpaces(s, e2) == e2 + 1 by {
      assert s[e2] == ' ' && !IsSpace(s[e2 + 1]);
    }
    assert OccursAt(s, "hours", e2 + 1) by {
      assert s[e2 + 1..e2 + 6] == s[e2..][1..];
    }
    RangeOfParts(s, e1, e2, x, y);
  }

  /** The range pattern at the start, from its parts: a number, a dash, a number, then `hours` after spaces. */
  lemma RangeOfParts(s: string, e1: nat, e2: nat, x: real, y: real)
    requires NumberAt(s, 0) == Some(Number(x, e1)) && e1 < |s| && s[e1] == '-'
    requires NumberAt(s, e1 + 1) == Some(Number(y, e2))
    requires OccursAt(s, "hours", SkipSpaces(s, e2))
    ensures RangeHoursAt(s, 0) == Some((x, y))
  {
  }

  /** The first number at the start of `n` followed by `t` is `n`. */
  lemma LeadingNumber(n: nat, t: string)
    requires t == [] || (!IsDigit(t[0]) && t[0] != '.')
    ensures NumberAt(NatString(n) + t, 0) == Some(Number(n as real, |NatString(n)|))
  {
    NumberAtNatString("", n, t);
    assert "" + NatString(n) + t == NatString(n) + t;
  }

  /** A numeral holds no letter and no dash. */
  lemma NumeralLacks(n: nat, t: string, c: char)
    requires !IsDigit(c) && c !in t
    ensures c !in NatString(n) + t
  {
    var w := NatString(n);
    assert forall k :: 0 <= k < |w| ==> w[k] != c;
  }

  /** `a-b hours` matches the range pattern at its start. */
  lemma RangeAtStart(a: nat, b: nat)
    ensures RangeHoursAt(NatString(a) + "-" + NatString(b) + " hours", 0) == Some((a as real, b as real))
  {
    var wa, wb := NatString(a), NatString(b);
    RangeFirstNumber(a, wb);
    RangeSecondNumber(wa, b);
    RangeShape(wa, wb);
    RangeOfNumbers(wa + "-" + wb + " hours", |wa|, |wa| + 1 + |wb|, a as real, b as real);
  }

  /** `n days` matches the day pattern at its start. */
  lemma DaysAtStart(n: nat)
    ensures NumberBeforeAt(NatString(n) + " days", "day", 0) == Some(n as real)
  {
    LeadingNumber(n, " days");
    NumberBeforeUnit(NatString(n), n as real);
  }

  /** `n hours` matches the hour pattern at its start. */
  lemma HoursAtStart(n: nat)
    ensures NumberBeforeAt(NatString(n) + " hours", "hour", 0) == Some(n as real)
  {
    LeadingNumber(n, " hours");
    NumberBeforeUnit(NatString(n), n as real);
  }

  /** `a-b hours` at the start of the text reads back as (a, b). */
  lemma HikingTimeRangeRoundTrip(a: nat, b: nat)
    ensures ParseHikingTime(NatString(a) + "-" + NatString(b) + " hours") == (a as real, b as real)
  {
    RangeAtStart(a, b);
    HikingTimeOfRange(NatString(a) + "-" + NatString(b) + " hours", a as real, b as real);
  }

  /** `n days` reads back as (8n, 12n), so the minimum never exceeds the maximum. */
  lemma HikingTimeDaysRoundTrip(n: nat)
    ensures ParseHikingTime(NatString(n) + " days") == (n as real * 8.0, n as real * 12.0)
    ensures ParseHikingTime(NatString(n) + " days").0 <= ParseHikingTime(NatString(n) + " days").1
  {
    DaysAtStart(n);
    NumeralLacks(n, " days", '-');
    HikingTimeOfDays(NatString(n) + " days", n as real);
  }

  /** `n hours` without a range reads back as (n, n). */
  lemma HikingTimeHoursRoundTrip(n: nat)
    ensures ParseHikingTime(NatString(n) + " hours") == (n as real, n as real)
  {
    HoursAtStart(n);
    NumeralLacks(n, " hours", '-');
    NumeralLacks(n, " hours", 'd');
    HikingTimeOfHours(NatString(n) + " hours", n as real);
  }

  // ----------------------------------------------------------------- elevation

  /** A stretch `s[start..end]` found by a matcher. */
  datatype Span = Span(start: nat, end: nat)

  predicate DigitsAt(s: string, i: nat, n: nat) {
    i + n <= |s| && forall k :: i <= k < i + n ==> IsDigit(s[k])
  }

  /**
   * `\d{1,2},?\d{3}` at `i`, trying the alternatives in the regex engine's
   * order: two digits before one digit, the comma before no comma.
   */
  function ElevationAt(s: string, i: nat): (r: Option<Span>)
    ensures r.Some? ==> r.value.start == i && i + 4 <= r.value.end <= i + 6 && r.value.end <= |s|
    ensures r.Some? ==> forall k :: i <= k < r.value.end ==> IsDigit(s[k]) || s[k] == ','
    ensures r.Some? && (forall k :: i <= k < r.value.end ==> s[k] != ',') ==> r.value.end <= i + 5
  {
    if DigitsAt(s, i, 2) && i + 2 < |s| && s[i + 2] == ',' && DigitsAt(s, i + 3, 3) then Some(Span(i, i + 6))
    else if DigitsAt(s, i, 2) && DigitsAt(s, i + 2, 3) then Some(Span(i, i + 5))
    else if DigitsAt(s, i, 1) && i + 1 < |s| && s[i + 1] == ',' && DigitsAt(s, i + 2, 3) then Some(Span(i, i + 5))
    else if DigitsAt(s, i, 1) && DigitsAt(s, i + 1, 3) then Some(Span(i, i + 4))
    else None
  }

  function ElevationMatcher(s: string): nat -> Option<Span> {
    (k: nat) => ElevationAt(s, k)
  }

  /** In text without commas a found elevation is four or five digits. */
  lemma ElevationSpanDigits(t: string)
    requires ',' !in t
    requires Search(t, ElevationMatcher(t)).Some?
    ensures var sp := Search(t, ElevationMatcher(t)).value;
      sp.start + 4 <= sp.end <= sp.start + 5 && sp.end <= |t| && AllDigits(t[sp.start..sp.end])
  {
    var k := SearchWitness(t, ElevationMatcher(t));
    var sp := ElevationAt(t, k).value;
    assert forall j :: k <= j < sp.end ==> t[j] in t;
  }

  /**
   * `parse_elevation`: drop every comma, then read the first run of four or
   * five digits (`\d{1,2}\d{3}`) as an integer; 0 when there is none.
   */
  function ParseElevation(s: string): (r: nat)
    ensures r < 100000
  {
    var t := RemoveChar(s, ',');
    var m := Search(t, ElevationMatcher(t));
    if m.Some? then
      ElevationSpanDigits(t);
      var digits := t[m.value.start..m.value.end];
      NatOfBound(digits);
      assert Pow10(4) == 10000 && Pow10(5) == 100000 by {
        assert Pow10(1) == 10 && Pow10(2) == 100 && Pow10(3) == 1000;
      }
      NatOf(digits)
    else
      0
  }

  /** Once commas are removed, text without four digits in a row gives 0. */
  lemma ElevationWithoutDigitRun(s: string)
    ensures (forall k: nat :: k + 4 <= |RemoveChar(s, ',')| ==> !DigitsAt(RemoveChar(s, ','), k, 4))
      ==> ParseElevation(s) == 0
  {
    var t := RemoveChar(s, ',');
    var m := Search(t, ElevationMatcher(t));
    if m.Some? {
      var k := SearchWitness(t, ElevationMatcher(t));
      var sp := ElevationAt(t, k).value;
      assert forall j :: k <= j < k + 4 ==> t[j] in t;
      assert DigitsAt(t, k, 4);
    }
  }

  /** A four- or five-digit numeral not followed by a digit matches the elevation pattern exactly. */
  lemma ElevationAtNumeral(pre: string, n: nat, t: string)
    requires 4 <= |NatString(n)| <= 5
    requires t == [] || !IsDigit(t[0])
    ensures ElevationAt(pre + NatString(n) + t, |pre|) == Some(Span(|pre|, |pre| + |NatString(n)|))
  {
    var w := NatString(n);
    var s := pre + w + t;
    forall k | 0 <= k < |w| ensures s[|pre| + k] == w[k] && IsDigit(s[|pre| + k]) { }
    assert |pre| + |w| < |s| ==> !IsDigit(s[|pre| + |w|]);
  }

  /** A four- or five-digit numeral at the start of comma-free text reads back as itself. */
  lemma ElevationRoundTrip(n: nat, t: string)
    requires 4 <= |NatString(n)| <= 5
    requires ',' !in t && (t == [] || !IsDigit(t[0]))
    ensures ParseElevation(NatString(n) + t) == n
  {
    var w := NatString(n);
    var s := w + t;
    NumeralWithoutComma(w, t);
    ElevationAtNumeral("", n, t);
    assert "" + w + t == s;
    SearchAtStart(s, ElevationMatcher(s));
    assert s[0..|w|] == w;
  }

  /** A numeral followed by comma-free text has no comma at all. */
  lemma NumeralWithoutComma(w: string, t: string)
    requires AllDigits(w) && ',' !in t
    ensures ',' !in w + t
  {
    assert forall k :: 0 <= k < |w| ==> w[k] != ',';
  }

  /** Thousands separators are ignored: a comma anywhere leaves the elevation unchanged. */
  lemma ElevationIgnoresComma(a: string, b: string)
    ensures ParseElevation(a + "," + b) == ParseElevation(a + b)
  {
    RemoveCharSkips(a, b, ',');
  }

  // ----------------------------------------------------------------------- GPS

  /** A matched coordinate: whole degrees, minutes and the hemisphere letter. */
  datatype Coordinate = Coordinate(degrees: nat, minutes: real, direction: char)

  const Degree: char := '\U{B0}'

  /** `(\d+)°(\d+(?:\.\d+)?)'?\s*([NSEW])` at `i`. */
  function CoordinateAt(s: string, i: nat): (r: Option<Coordinate>)
    ensures r.Some? ==> r.value.direction in "NSEW" && r.value.minutes >= 0.0
  {
    if i < |s| && IsDigit(s[i]) then
      var j := DigitsEnd(s, i);
      assert AllDigits(s[i..j]);
      if j < |s| && s[j] == Degree then
        match NumberAt(s, j + 1)
        case None => None
        case Some(m) =>
          match HemisphereAt(s, m.end)
          case None => None
          case Some(c) => Some(Coordinate(NatOf(s[i..j]), m.value, c))
      else None
    else None
  }

  /** `'?\s*([NSEW])` at `i`: an optional quote, optional spaces, then the hemisphere letter. */
  function HemisphereAt(s: string, i: nat): (r: Option<char>)
    ensures r.Some? ==> r.value in "NSEW"
  {
    var q := if i < |s| && s[i] == '\'' then i + 1 else i;
    if q <= |s| then
      var d := SkipSpaces(s, q);
      if d < |s| && s[d] in "NSEW" then Some(s[d]) else None
    else None
  }

  function CoordinateMatcher(s: string): nat -> Option<Coordinate> {
    (k: nat) => CoordinateAt(s, k)
  }

  /** Decimal degrees of a coordinate: negative in the southern and western hemispheres. */
  function DecimalDegrees(c: Coordinate): (r: real)
    requires c.minutes >= 0.0
    ensures c.direction in "SW" ==> r == -(c.degrees as real + c.minutes / 60.0) && r <= 0.0
    ensures c.direction !in "SW" ==> r == c.degrees as real + c.minutes / 60.0 && r >= 0.0
  {
    var decimal := c.degrees as real + c.minutes / 60.0;
    if c.direction in "SW" then -decimal else decimal
  }

  /** `parse_gps_coordinate`: the first degree-minute coordinate in decimal degrees, or 0.0. */
  function ParseGpsCoordinate(s: string): (r: real)
    ensures var m := Search(s, CoordinateMatcher(s));
      m.Some? ==> (r == m.value.degrees as real + m.value.minutes / 60.0
                   || r == -(m.value.degrees as real + m.value.minutes / 60.0))
    ensures Search(s, CoordinateMatcher(s)).None? ==> r == 0.0
  {
    var m := Search(s, CoordinateMatcher(s));
    SearchKeeps(s, CoordinateMatcher(s), (c: Coordinate) => c.minutes >= 0.0);
    if m.Some? then DecimalDegrees(m.value) else 0.0
  }

  /** Southern and western coordinates are never positive, northern and eastern never negative. */
  lemma GpsCoordinateSign(s: string)
    ensures var m := Search(s, CoordinateMatcher(s));
      m.Some? && m.value.direction in "SW" ==> ParseGpsCoordinate(s) <= 0.0
    ensures var m := Search(s, CoordinateMatcher(s));
      m.Some? && m.value.direction in "NE" ==> ParseGpsCoordinate(s) >= 0.0
    ensures var m := Search(s, CoordinateMatcher(s));
      m.Some? ==> (ParseGpsCoordinate(s) == m.value.degrees as real + m.value.minutes / 60.0
                   || ParseGpsCoordinate(s) == -(m.value.degrees as real + m.value.minutes / 60.0))
    ensures Search(s, CoordinateMatcher(s)).None? ==> ParseGpsCoordinate(s) == 0.0
  {
    SearchKeeps(s, CoordinateMatcher(s), (c: Coordinate) => c.minutes >= 0.0);
  }

  /** `d°m'` followed by a hemisphere letter reads back as `±(d + m/60)`. */
  lemma GpsCoordinateRoundTrip(d: nat, m: nat, direction: char)
    requires direction in "NSEW"
    ensures var r := ParseGpsCoordinate(NatString(d) + [Degree] + NatString(m) + "' " + [direction]);
      direction in "SW" ==> r == -(d as real + m as real / 60.0)
    ensures var r := ParseGpsCoordinate(NatString(d) + [Degree] + NatString(m) + "' " + [direction]);
      direction in "NE" ==> r == d as real + m as real / 60.0
  {
    var wd, wm := NatString(d), NatString(m);
    var tail := "' " + [direction];
    var s := wd + [Degree] + wm + tail;
    assert s == NatString(d) + [Degree] + NatString(m) + "' " + [direction];
    assert tail[0] == '\'' && tail[1] == ' ' && tail[2] == direction;
    CoordinateAtStart(d, m, tail);
    assert CoordinateMatcher(s)(0) == Some(Coordinate(d, m as real, direction));
    SearchAtStart(s, CoordinateMatcher(s));
  }

  /** A quote, a space and a hemisphere letter: what the round trip writes after the minutes. */
  predicate HemisphereTail(tail: string) {
    |tail| == 3 && tail[0] == '\'' && tail[1] == ' ' && tail[2] in "NSEW"
  }

  /** Degrees, the degree sign, minutes and a hemisphere tail match as that coordinate. */
  lemma CoordinateAtStart(d: nat, m: nat, tail: string)
    requires HemisphereTail(tail)
    ensures CoordinateAt(NatString(d) + [Degree] + NatString(m) + tail, 0)
      == Some(Coordinate(d, m as real, tail[2]))
  {
    var wd, wm := NatString(d), NatString(m);
    var s := wd + [Degree] + wm + tail;
    var k := |wd| + 1;
    var e := k + |wm|;
    DegreesAtStart(s, wd, wm, tail);
    MinutesAfterDegrees(s, wd, m, tail, k, e);
    HemisphereAfterMinutes(s, wd + [Degree] + wm, tail, e);
    CoordinateFromParts(s, wd, k, e, m, tail[2]);
  }

  /** The three pieces of the pattern, matched one after the other, make the coordinate. */
  lemma CoordinateFromParts(s: string, wd: string, k: nat, e: nat, minutes: nat, c: char)
    requires AllDigits(wd) && 0 < |wd| < |s| && s[0..|wd|] == wd
    requires IsDigit(s[0]) && DigitsEnd(s, 0) == |wd| && s[|wd|] == Degree
    requires k == |wd| + 1 && NumberAt(s, k) == Some(Number(minutes as real, e))
    requires HemisphereAt(s, e) == Some(c)
    ensures CoordinateAt(s, 0) == Some(Coordinate(NatOf(wd), minutes as real, c))
  {
  }

  /** The whole-degree numeral at the start ends at the degree sign and reads back as itself. */
  lemma DegreesAtStart(s: string, wd: string, wm: string, tail: string)
    requires AllDigits(wd) && |wd| > 0
    requires s == wd + [Degree] + wm + tail
    ensures 0 < |wd| < |s| && s[0..|wd|] == wd
    ensures IsDigit(s[0]) && DigitsEnd(s, 0) == |wd| && s[|wd|] == Degree
  {
    forall k | 0 <= k < |wd| ensures s[k] == wd[k] && IsDigit(s[k]) { }
    DigitsEndExact(s, 0, |wd|);
    assert s[0..|wd|] == wd;
  }

  /** The minutes numeral after the degree sign scans as its own value. */
  lemma MinutesAfterDegrees(s: string, wd: string, m: nat, tail: string, k: nat, e: nat)
    requires HemisphereTail(tail)
    requires s == wd + [Degree] + NatString(m) + tail
    requires k == |wd| + 1 && e == k + |NatString(m)|
    ensures NumberAt(s, k) == Some(Number(m as real, e))
  {
    NumberAtNatString(wd + [Degree], m, tail);
  }

  /** After the minutes the quote is skipped, then the space, landing on the letter. */
  lemma HemisphereAfterMinutes(s: string, p: string, tail: string, e: nat)
    requires HemisphereTail(tail)
    requires s == p + tail && e == |p|
    ensures HemisphereAt(s, e) == Some(tail[2])
  {
    assert s[|p|] == '\'' && s[|p| + 1] == ' ' && s[|p| + 2] == tail[2];
    assert !IsSpace(s[|p| + 2]);
    assert SkipSpaces(s, |p| + 2) == |p| + 2;
    assert SkipSpaces(s, |p| + 1) == |p| + 2;
  }

  /**
   * `parse_gps`: split on commas; exactly two parts give (latitude,
   * longitude) from the stripped parts, anything else gives (0.0, 0.0).
   */
  function ParseGps(s: string): (r: (real, real))
    ensures CountChar(s, ',') != 1 ==> r == (0.0, 0.0)
  {
    var parts := Split(s, ',');
    if |parts| == 2 then (ParseGpsCoordinate(Strip(parts[0])), ParseGpsCoordinate(Strip(parts[1])))
    else (0.0, 0.0)
  }

  /** Splitting `a,b` where neither side has a comma gives the two sides. */
  lemma {:induction false} SplitPair(a: string, b: string, sep: char)
    requires sep !in a && sep !in b
    ensures Split(a + [sep] + b, sep) == [a, b]
    decreases |a|
  {
    var s := a + [sep] + b;
    if a == [] {
      assert s[1..] == b;
      SplitWithout(b, sep);
    } else {
      assert s[1..] == a[1..] + [sep] + b;
      SplitPair(a[1..], b, sep);
      assert [a[0]] + a[1..] == a;
    }
  }

  /** A string without the separator splits into itself. */
  lemma {:induction false} SplitWithout(s: string, sep: char)
    requires sep !in s
    ensures Split(s, sep) == [s]
    decreases |s|
  {
    if s != [] {
      assert s[1..] == s[1..];
      assert sep !in s[1..] by {
        forall k | 0 <= k < |s[1..]| ensures s[1..][k] != sep {
          assert s[1..][k] == s[k + 1];
        }
      }
      SplitWithout(s[1..], sep);
      assert [s[0]] + s[1..] == s;
    }
  }

  /** `lat,lon` parses each side separately. */
  lemma GpsPair(lat: string, lon: string)
    requires ',' !in lat && ',' !in lon
    ensures ParseGps(lat + "," + lon) == (ParseGpsCoordinate(Strip(lat)), ParseGpsCoordinate(Strip(lon)))
  {
    SplitPair(lat, lon, ',');
    assert lat + "," + lon == lat + [','] + lon;
  }
}
