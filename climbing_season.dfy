/**
 * `parse_climbing_season` of the import script: the month names found in a
 * free-text season ("Late June - September", "Year-round") become a list of
 * (start month, end month) pairs. The parser walks the month table in its
 * insertion order, remembers the first-found position of each month number,
 * orders the hits by position and then decides between a range, a single
 * month and the summer default.
 */
module ClimbingSeason {
  import opened Text
  import opened Sorting

  /**
   * The month table in the iteration order of the Python dictionary: the
   * twelve full names, then the three-letter forms. `'may'` is written
   * twice in the source; a dictionary keeps the first position of a
   * repeated key, so it appears only once here.
   */
  const MonthTable: seq<(string, nat)> := [
    ("january", 1), ("february", 2), ("march", 3), ("april", 4),
    ("may", 5), ("june", 6), ("july", 7), ("august", 8),
    ("september", 9), ("october", 10), ("november", 11), ("december", 12),
    ("jan", 1), ("feb", 2), ("mar", 3), ("apr", 4),
    ("jun", 6), ("jul", 7), ("aug", 8),
    ("sep", 9), ("oct", 10), ("nov", 11), ("dec", 12)
  ]

  /** Every month number of the table is a calendar month. */
  lemma MonthTableNumbers()
    ensures forall j :: 0 <= j < |MonthTable| ==> 1 <= MonthTable[j].1 <= 12
  {
  }

  /** An entry of `month_positions`: where a month name was found, the name and its number. */
  datatype MonthHit = MonthHit(pos: nat, month: string, num: nat)

  /** The month numbers already recorded (`found_nums`). */
  function NumsOf(hits: seq<MonthHit>): set<nat> {
    set j | 0 <= j < |hits| :: hits[j].num
  }

  lemma NumsOfAppend(hits: seq<MonthHit>, h: MonthHit)
    ensures NumsOf(hits + [h]) == NumsOf(hits) + {h.num}
  {
    var r := hits + [h];
    assert r[|hits|] == h;
    forall n | n in NumsOf(hits) ensures n in NumsOf(r) {
      var j :| 0 <= j < |hits| && hits[j].num == n;
      assert r[j] == hits[j];
    }
  }

  /**
   * `month_positions` after the first `k` table entries: an entry is recorded
   * when its name occurs in the lower-cased text and its number is new.
   */
  function HitsUpTo(lower: string, k: nat): seq<MonthHit>
    requires k <= |MonthTable|
  {
    HitsIn(lower, MonthTable, k)
  }

  /** The same scan over any table of (name, number) entries. */
  function HitsIn(lower: string, table: seq<(string, nat)>, k: nat): seq<MonthHit>
    requires k <= |table|
  {
    if k == 0 then []
    else
      var prev := HitsIn(lower, table, k - 1);
      var name := table[k - 1].0;
      var num := table[k - 1].1;
      var pos := Find(lower, name);
      if pos != -1 && num !in NumsOf(prev) then prev + [MonthHit(pos as nat, name, num)] else prev
  }

  /** The sort key of `month_positions.sort(key=lambda x: x[0])`. */
  function PosKey(h: MonthHit): SortValue {
    Num(h.pos as real)
  }

  /** The hits of the whole table, in the order of their positions in the text. */
  function SortedHits(season: string): seq<MonthHit> {
    SortBy(HitsUpTo(ToLower(season), |MonthTable|), PosKey, false)
  }

  /** The month ranges `parse_climbing_season` returns. */
  function SeasonOf(season: string): (r: seq<(nat, nat)>)
    ensures |r| == 1 && 1 <= r[0].0 <= 12 && 1 <= r[0].1 <= 12
  {
    if Contains(ToLower(season), "year-round") then [(1, 12)]
    else
      var hits := SortedHits(season);
      SortedHitsGood(season);
      if |hits| == 2 && '-' in season then [(hits[0].num, hits[1].num)]
      else if |hits| == 1 then [(hits[0].num, hits[0].num)]
      else [(6, 9)]
  }

  /** The loop of `parse_climbing_season` that fills `month_positions` and `found_nums`. */
  method CollectMonthPositions(lower: string) returns (positions: seq<MonthHit>)
    ensures positions == HitsUpTo(lower, |MonthTable|)
  {
    positions := [];
    var found: set<nat> := {};
    var i := 0;
    while i < |MonthTable|
      invariant 0 <= i <= |MonthTable|
      invariant positions == HitsUpTo(lower, i)
      invariant found == NumsOf(positions)
    {
      var name := MonthTable[i].0;
      var num := MonthTable[i].1;
      var pos := Find(lower, name);
      if pos != -1 && num !in found {
        NumsOfAppend(positions, MonthHit(pos as nat, name, num));
        positions := positions + [MonthHit(pos as nat, name, num)];
        found := found + {num};
      }
      i := i + 1;
    }
  }

  /** `parse_climbing_season`: the month positions, sorted in place, then the final choice. */
  method ParseClimbingSeason(season: string) returns (seasons: seq<(nat, nat)>)
    ensures seasons == SeasonOf(season)
  {
    if Contains(ToLower(season), "year-round") {
      return [(1, 12)];
    }
    seasons := [];
    var seasonLower := ToLower(season);
    var positions := CollectMonthPositions(seasonLower);
    positions := SortBy(positions, PosKey, false);
    assert positions == SortedHits(season);
    if |positions| == 2 && '-' in season {
      var startNum := positions[0].num;
      var endNum := positions[1].num;
      if startNum <= endNum {
        seasons := seasons + [(startNum, endNum)];
      } else {
        // a season that wraps past December keeps its text order
        seasons := seasons + [(startNum, endNum)];
      }
    } else if |positions| == 1 {
      var monthNum := positions[0].num;
      seasons := seasons + [(monthNum, monthNum)];
    }
    if seasons == [] {
      seasons := [(6, 9)];
    }
  }

  /** What every recorded hit satisfies. */
  ghost predicate GoodHit(lower: string, h: MonthHit) {
    GoodHitIn(lower, MonthTable, h)
  }

  /**
   * The hit's number is a calendar month, its position is the first index
   * `find` reports for its name (so the name occurs there), and the pair is
   * a table entry.
   */
  ghost predicate GoodHitIn(lower: string, table: seq<(string, nat)>, h: MonthHit) {
    1 <= h.num <= 12 && h.pos == Find(lower, h.month) && OccursAt(lower, h.month, h.pos)
    && exists t :: 0 <= t < |table| && table[t] == (h.month, h.num)
  }

  /** Appending a good hit to good hits gives good hits. */
  lemma GoodAppend(lower: string, table: seq<(string, nat)>, prev: seq<MonthHit>, h: MonthHit)
    requires forall j :: 0 <= j < |prev| ==> GoodHitIn(lower, table, prev[j])
    requires GoodHitIn(lower, table, h)
    ensures forall j :: 0 <= j < |prev + [h]| ==> GoodHitIn(lower, table, (prev + [h])[j])
  {
    forall j | 0 <= j < |prev + [h]| ensures GoodHitIn(lower, table, (prev + [h])[j]) {
      if j < |prev| {
        assert (prev + [h])[j] == prev[j];
      } else {
        assert (prev + [h])[j] == h;
      }
    }
  }

  /** Appending a hit with a new month number keeps the numbers distinct. */
  lemma DistinctAppend(prev: seq<MonthHit>, h: MonthHit)
    requires forall i, j :: 0 <= i < j < |prev| ==> prev[i].num != prev[j].num
    requires h.num !in NumsOf(prev)
    ensures forall i, j :: 0 <= i < j < |prev + [h]| ==> (prev + [h])[i].num != (prev + [h])[j].num
  {
    var hits := prev + [h];
    forall i, j | 0 <= i < j < |hits| ensures hits[i].num != hits[j].num {
      assert hits[i] == prev[i];
      if j < |prev| {
        assert hits[j] == prev[j];
      } else {
        assert hits[j] == h;
        assert prev[i].num in NumsOf(prev);
      }
    }
  }

  /**
   * Over a table of calendar month numbers, each hit names a table entry
   * found at its position, and no month number is recorded twice.
   */
  lemma {:induction false} HitsInFacts(lower: string, table: seq<(string, nat)>, k: nat)
    requires k <= |table|
    requires forall j :: 0 <= j < |table| ==> 1 <= table[j].1 <= 12
    ensures forall j :: 0 <= j < |HitsIn(lower, table, k)| ==> GoodHitIn(lower, table, HitsIn(lower, table, k)[j])
    ensures forall i, j :: 0 <= i < j < |HitsIn(lower, table, k)| ==> HitsIn(lower, table, k)[i].num != HitsIn(lower, table, k)[j].num
  {
    if k > 0 {
      HitsInFacts(lower, table, k - 1);
      var prev := HitsIn(lower, table, k - 1);
      var name := table[k - 1].0;
      var num := table[k - 1].1;
      var pos := Find(lower, name);
      if pos != -1 && num !in NumsOf(prev) {
        var h := MonthHit(pos as nat, name, num);
        assert prev + [h] == HitsIn(lower, table, k);
        assert table[k - 1] == (h.month, h.num);
        assert GoodHitIn(lower, table, h);
        GoodAppend(lower, table, prev, h);
        DistinctAppend(prev, h);
      } else {
        assert HitsIn(lower, table, k) == prev;
      }
    }
  }

  /** The month numbers of the first `k` table entries whose names occur in the text. */
  ghost function NamedIn(lower: string, table: seq<(string, nat)>, k: nat): set<nat>
    requires k <= |table|
  {
    set t | 0 <= t < k && Contains(lower, table[t].0) :: table[t].1
  }

  /** The months the lower-cased text names, by any name of the table. */
  ghost function NamedMonths(lower: string): set<nat> {
    NamedIn(lower, MonthTable, |MonthTable|)
  }

  /**
   * Where the parser places month `n`: what `find` reports for the first
   * name of `n` in table order that occurs in the text, or -1 when no name
   * of `n` occurs among the first `k` entries.
   */
  function FirstPosIn(lower: string, table: seq<(string, nat)>, n: nat, k: nat): int
    requires k <= |table|
  {
    if k == 0 then -1
    else
      var p := FirstPosIn(lower, table, n, k - 1);
      if p == -1 && table[k - 1].1 == n then Find(lower, table[k - 1].0) else p
  }

  /** The position recorded for month `n` over the whole table. */
  function MonthPos(lower: string, n: nat): int {
    FirstPosIn(lower, MonthTable, n, |MonthTable|)
  }

  /** One more table entry adds its number exactly when its name occurs. */
  lemma NamedInStep(lower: string, table: seq<(string, nat)>, k: nat)
    requires 0 < k <= |table|
    ensures NamedIn(lower, table, k)
         == NamedIn(lower, table, k - 1) + (if Contains(lower, table[k - 1].0) then {table[k - 1].1} else {})
  {
    var before := NamedIn(lower, table, k - 1);
    var after := NamedIn(lower, table, k);
    forall n | n in after
      ensures n in before + (if Contains(lower, table[k - 1].0) then {table[k - 1].1} else {})
    {
      var t :| 0 <= t < k && Contains(lower, table[t].0) && table[t].1 == n;
      if t < k - 1 {
        assert n in before;
      }
    }
    forall n | n in before ensures n in after {
      var t :| 0 <= t < k - 1 && Contains(lower, table[t].0) && table[t].1 == n;
      assert 0 <= t < k;
    }
    if Contains(lower, table[k - 1].0) {
      assert table[k - 1].1 in after;
    }
  }

  /** `FirstPosIn` finds month `n` exactly when some name of `n` among the first `k` entries occurs. */
  lemma {:induction false} FirstPosFound(lower: string, table: seq<(string, nat)>, k: nat)
    requires k <= |table|
    ensures forall n :: FirstPosIn(lower, table, n, k) != -1 <==> n in NamedIn(lower, table, k)
  {
    if k > 0 {
      FirstPosFound(lower, table, k - 1);
      NamedInStep(lower, table, k);
    }
  }

  /** The recorded numbers are exactly the named months, one hit per month. */
  lemma {:induction false} HitsInNamed(lower: string, table: seq<(string, nat)>, k: nat)
    requires k <= |table|
    ensures NumsOf(HitsIn(lower, table, k)) == NamedIn(lower, table, k)
    ensures |HitsIn(lower, table, k)| == |NamedIn(lower, table, k)|
  {
    if k > 0 {
      HitsInNamed(lower, table, k - 1);
      NamedInStep(lower, table, k);
      var prev := HitsIn(lower, table, k - 1);
      var name := table[k - 1].0;
      var num := table[k - 1].1;
      var pos := Find(lower, name);
      if pos != -1 && num !in NumsOf(prev) {
        NumsOfAppend(prev, MonthHit(pos as nat, name, num));
      }
    }
  }

  /** Each recorded hit sits at the position `FirstPosIn` gives for its month. */
  lemma {:induction false} HitsInPositions(lower: string, table: seq<(string, nat)>, k: nat)
    requires k <= |table|
    ensures forall j :: 0 <= j < |HitsIn(lower, table, k)| ==>
      HitsIn(lower, table, k)[j].pos == FirstPosIn(lower, table, HitsIn(lower, table, k)[j].num, k)
  {
    if k > 0 {
      HitsInPositions(lower, table, k - 1);
      var prev := HitsIn(lower, table, k - 1);
      var name := table[k - 1].0;
      var num := table[k - 1].1;
      var pos := Find(lower, name);
      var hits := HitsIn(lower, table, k);
      assert forall j :: 0 <= j < |prev| ==> prev[j].num in NumsOf(prev);
      if pos != -1 && num !in NumsOf(prev) {
        assert FirstPosIn(lower, table, num, k - 1) == -1 by {
          HitsInNamed(lower, table, k - 1);
          FirstPosFound(lower, table, k - 1);
        }
        forall j | 0 <= j < |hits| ensures hits[j].pos == FirstPosIn(lower, table, hits[j].num, k) {
          if j < |prev| {
            assert hits[j] == prev[j];
          }
        }
      }
    }
  }

  /**
   * Each hit names a month of the table at the first index `find` reports
   * for that name, no month number is recorded twice, and the recorded
   * numbers are exactly the months the text names, each at `MonthPos`.
   */
  lemma HitsFacts(lower: string)
    ensures forall j :: 0 <= j < |HitsUpTo(lower, |MonthTable|)| ==> GoodHit(lower, HitsUpTo(lower, |MonthTable|)[j])
    ensures forall i, j :: 0 <= i < j < |HitsUpTo(lower, |MonthTable|)| ==>
      HitsUpTo(lower, |MonthTable|)[i].num != HitsUpTo(lower, |MonthTable|)[j].num
    ensures NumsOf(HitsUpTo(lower, |MonthTable|)) == NamedMonths(lower)
    ensures |HitsUpTo(lower, |MonthTable|)| == |NamedMonths(lower)|
    ensures forall j :: 0 <= j < |HitsUpTo(lower, |MonthTable|)| ==>
      HitsUpTo(lower, |MonthTable|)[j].pos == MonthPos(lower, HitsUpTo(lower, |MonthTable|)[j].num)
  {
    MonthTableNumbers();
    HitsInFacts(lower, MonthTable, |MonthTable|);
    HitsInNamed(lower, MonthTable, |MonthTable|);
    HitsInPositions(lower, MonthTable, |MonthTable|);
  }

  /**
   * The month a table name stands for, read from its first three letters;
   * 0 for letters that begin no month name.
   */
  function MonthOfLetters(a: char, b: char, c: char): nat {
    match [a, b, c]
    case "jan" => 1 case "feb" => 2 case "mar" => 3 case "apr" => 4
    case "may" => 5 case "jun" => 6 case "jul" => 7 case "aug" => 8
    case "sep" => 9 case "oct" => 10 case "nov" => 11 case "dec" => 12
    case _ => 0
  }

  /** Every table name is at least three letters long, and those letters fix its month. */
  lemma MonthTableLetters()
    ensures forall t :: 0 <= t < |MonthTable| ==>
      |MonthTable[t].0| >= 3 && MonthOfLetters(MonthTable[t].0[0], MonthTable[t].0[1], MonthTable[t].0[2]) == MonthTable[t].1
  {
  }

  /** The three letters at a good hit's position fix its month. */
  lemma HitLetters(lower: string, h: MonthHit)
    requires GoodHit(lower, h)
    ensures h.pos + 3 <= |lower| && MonthOfLetters(lower[h.pos], lower[h.pos + 1], lower[h.pos + 2]) == h.num
  {
    var t :| 0 <= t < |MonthTable| && MonthTable[t] == (h.month, h.num);
    assert |h.month| >= 3 && MonthOfLetters(h.month[0], h.month[1], h.month[2]) == h.num by {
      MonthTableLetters();
    }
    assert h.month[0] == lower[h.pos] && h.month[1] == lower[h.pos + 1] && h.month[2] == lower[h.pos + 2];
  }

  /** Two good hits at the same index name the same month. */
  lemma SamePositionSameMonth(lower: string, h: MonthHit, g: MonthHit)
    requires GoodHit(lower, h) && GoodHit(lower, g) && h.pos == g.pos
    ensures h.num == g.num
  {
    HitLetters(lower, h);
    HitLetters(lower, g);
  }

  /** The sort only reorders the hits: there are as many as named months, and each is good. */
  lemma SortedHitsGood(season: string)
    ensures |SortedHits(season)| == |NamedMonths(ToLower(season))|
    ensures forall j :: 0 <= j < |SortedHits(season)| ==> GoodHit(ToLower(season), SortedHits(season)[j])
  {
    var lower := ToLower(season);
    var hits := HitsUpTo(lower, |MonthTable|);
    HitsFacts(lower);
    var sorted := SortedHits(season);
    assert |sorted| == |multiset(sorted)| == |multiset(hits)| == |hits|;
    forall j | 0 <= j < |sorted| ensures GoodHit(lower, sorted[j]) {
      assert sorted[j] in multiset(sorted);
      assert sorted[j] in multiset(hits);
      var i :| 0 <= i < |hits| && hits[i] == sorted[j];
    }
  }

  /** A permutation of one element is the sequence itself. */
  lemma SinglePermutation<T>(s: seq<T>, t: seq<T>)
    requires |s| == 1 && multiset(s) == multiset(t)
    ensures t == s
  {
    assert |t| == |multiset(t)| == |multiset(s)| == 1;
    assert t[0] in multiset(s);
  }

  /** A permutation of two elements is the pair itself or the pair swapped. */
  lemma PairPermutation<T>(s: seq<T>, t: seq<T>)
    requires |s| == 2 && multiset(s) == multiset(t)
    ensures t == s || t == [s[1], s[0]]
  {
    assert |t| == |multiset(t)| == |multiset(s)| == 2;
    assert t[0] in multiset(s) && t[1] in multiset(s);
    assert s[0] in multiset(t) && s[1] in multiset(t);
  }

  /** The numbers of a one- or two-hit list. */
  lemma NumsOfSmall(hits: seq<MonthHit>)
    ensures |hits| == 1 ==> NumsOf(hits) == {hits[0].num}
    ensures |hits| == 2 ==> NumsOf(hits) == {hits[0].num, hits[1].num}
  {
    if |hits| == 1 {
      assert hits[0].num in NumsOf(hits);
    } else if |hits| == 2 {
      assert hits[0].num in NumsOf(hits) && hits[1].num in NumsOf(hits);
    }
  }

  /** With one month named, the single hit is that month. */
  lemma SingleHitFacts(lower: string)
    requires |HitsUpTo(lower, |MonthTable|)| == 1
    ensures NamedMonths(lower) == {HitsUpTo(lower, |MonthTable|)[0].num}
  {
    HitsFacts(lower);
    NumsOfSmall(HitsUpTo(lower, |MonthTable|));
  }

  /**
   * With two months named, the two hits carry different numbers, which are
   * the named months, each at its `MonthPos`, and never at the same index.
   */
  lemma HitPairFacts(lower: string)
    requires |HitsUpTo(lower, |MonthTable|)| == 2
    ensures var hits := HitsUpTo(lower, |MonthTable|);
      && hits[0].num != hits[1].num && NamedMonths(lower) == {hits[0].num, hits[1].num}
      && hits[0].pos == MonthPos(lower, hits[0].num) && hits[1].pos == MonthPos(lower, hits[1].num)
      && hits[0].pos != hits[1].pos
  {
    var hits := HitsUpTo(lower, |MonthTable|);
    HitsFacts(lower);
    NumsOfSmall(hits);
    if hits[0].pos == hits[1].pos {
      SamePositionSameMonth(lower, hits[0], hits[1]);
    }
  }

  /** Ordering a pair of hits by position keeps what is known of each hit. */
  lemma PairOrder(lower: string, hits: seq<MonthHit>, sorted: seq<MonthHit>)
    requires |hits| == 2 && multiset(sorted) == multiset(hits)
    requires hits[0].num != hits[1].num && hits[0].pos != hits[1].pos
    requires hits[0].pos == MonthPos(lower, hits[0].num) && hits[1].pos == MonthPos(lower, hits[1].num)
    requires |sorted| == 2 ==> sorted[0].pos <= sorted[1].pos
    ensures |sorted| == 2
    ensures {sorted[0].num, sorted[1].num} == {hits[0].num, hits[1].num} && sorted[0].num != sorted[1].num
    ensures sorted[0].pos == MonthPos(lower, sorted[0].num) && sorted[1].pos == MonthPos(lower, sorted[1].num)
    ensures sorted[0].pos < sorted[1].pos
  {
    PairPermutation(hits, sorted);
  }

  /**
   * Two sorted hits carry the two named months, each at its `MonthPos`, at
   * strictly increasing positions.
   */
  lemma SortedPairDistinct(season: string)
    requires |SortedHits(season)| == 2
    ensures var sorted := SortedHits(season);
      && sorted[0].num != sorted[1].num
      && NamedMonths(ToLower(season)) == {sorted[0].num, sorted[1].num}
      && sorted[0].pos == MonthPos(ToLower(season), sorted[0].num)
      && sorted[1].pos == MonthPos(ToLower(season), sorted[1].num)
      && sorted[0].pos < sorted[1].pos
  {
    var lower := ToLower(season);
    var hits := HitsUpTo(lower, |MonthTable|);
    var sorted := SortedHits(season);
    assert |hits| == 2 by {
      assert |sorted| == |multiset(sorted)| == |multiset(hits)| == |hits|;
    }
    HitPairFacts(lower);
    assert sorted[0].pos <= sorted[1].pos by {
      SortByIsSorted(hits, PosKey, false);
      assert !Before(PosKey(sorted[1]), PosKey(sorted[0]), false);
    }
    PairOrder(lower, hits, sorted);
  }

  /** The parser never returns an empty list, and every month it returns is a calendar month. */
  lemma SeasonShape(season: string)
    ensures |SeasonOf(season)| == 1
    ensures 1 <= SeasonOf(season)[0].0 <= 12 && 1 <= SeasonOf(season)[0].1 <= 12
  {
    SortedHitsGood(season);
  }

  /**
   * Text that names exactly two different months and holds a dash gives one
   * range from the month placed first to the month placed second, even when
   * the range wraps past December; the two months never share a position.
   */
  lemma SeasonRangeInTextOrder(season: string, a: nat, b: nat)
    ensures (!Contains(ToLower(season), "year-round") && '-' in season
             && NamedMonths(ToLower(season)) == {a, b} && a != b) ==>
      && MonthPos(ToLower(season), a) != MonthPos(ToLower(season), b)
      && SeasonOf(season) == if MonthPos(ToLower(season), a) < MonthPos(ToLower(season), b) then [(a, b)] else [(b, a)]
  {
    var lower := ToLower(season);
    if NamedMonths(lower) == {a, b} && a != b {
      var hits := SortedHits(season);
      assert |hits| == 2 by {
        SortedHitsGood(season);
        assert |{a, b}| == 2;
      }
      SortedPairDistinct(season);
      var x, y := hits[0].num, hits[1].num;
      assert x in {a, b} && y in {a, b};
    }
  }

  /** Text naming exactly one month gives the one-month range of that month. */
  lemma SeasonSingleMonth(season: string, m: nat)
    ensures (!Contains(ToLower(season), "year-round") && NamedMonths(ToLower(season)) == {m}) ==>
      SeasonOf(season) == [(m, m)]
  {
    var lower := ToLower(season);
    if NamedMonths(lower) == {m} {
      assert |SortedHits(season)| == 1 by {
        SortedHitsGood(season);
        assert |{m}| == 1;
      }
      SortedSingleFacts(season);
      assert SortedHits(season)[0].num in {m};
    }
  }

  /** A single sorted hit carries the one named month. */
  lemma SortedSingleFacts(season: string)
    requires |SortedHits(season)| == 1
    ensures NamedMonths(ToLower(season)) == {SortedHits(season)[0].num}
  {
    var lower := ToLower(season);
    var hits := HitsUpTo(lower, |MonthTable|);
    var sorted := SortedHits(season);
    assert |hits| == 1 by {
      assert |sorted| == |multiset(sorted)| == |multiset(hits)| == |hits|;
    }
    SinglePermutation(hits, sorted);
    SingleHitFacts(lower);
  }

  /**
   * `year-round` gives the whole year. Otherwise text naming no month, more
   * than two months, or two months without a dash gives the summer default.
   */
  lemma SeasonDefault(season: string)
    ensures Contains(ToLower(season), "year-round") ==> SeasonOf(season) == [(1, 12)]
    ensures (!Contains(ToLower(season), "year-round")
             && (|NamedMonths(ToLower(season))| == 0 || |NamedMonths(ToLower(season))| > 2
                 || (|NamedMonths(ToLower(season))| == 2 && '-' !in season))) ==>
      SeasonOf(season) == [(6, 9)]
  {
    SortedHitsGood(season);
  }

  /** Where `FirstPosIn` finds month `n`, some name of `n` occurs. */
  lemma {:induction false} FirstPosOccurs(lower: string, table: seq<(string, nat)>, n: nat, k: nat)
    requires k <= |table|
    ensures FirstPosIn(lower, table, n, k) != -1 ==>
      exists t :: 0 <= t < k && table[t].1 == n && OccursAt(lower, table[t].0, FirstPosIn(lower, table, n, k))
  {
    if k > 0 {
      FirstPosOccurs(lower, table, n, k - 1);
    }
  }

  /** The three letters at the position recorded for month `n` spell `n`. */
  lemma MonthPosLetters(lower: string, n: nat)
    ensures MonthPos(lower, n) != -1 ==>
      && 0 <= MonthPos(lower, n) && MonthPos(lower, n) + 3 <= |lower|
      && MonthOfLetters(lower[MonthPos(lower, n)], lower[MonthPos(lower, n) + 1], lower[MonthPos(lower, n) + 2]) == n
  {
    FirstPosOccurs(lower, MonthTable, n, |MonthTable|);
    if MonthPos(lower, n) != -1 {
      var p := MonthPos(lower, n);
      var t :| 0 <= t < |MonthTable| && MonthTable[t].1 == n && OccursAt(lower, MonthTable[t].0, p);
      var name := MonthTable[t].0;
      assert |name| >= 3 && MonthOfLetters(name[0], name[1], name[2]) == n by {
        MonthTableLetters();
      }
      assert name[0] == lower[p] && name[1] == lower[p + 1] && name[2] == lower[p + 2];
    }
  }

  /** The month the three letters at index `p` of the text spell (0: no month). */
  function LettersAt(lower: string, p: nat): nat
    requires p + 3 <= |lower|
  {
    MonthOfLetters(lower[p], lower[p + 1], lower[p + 2])
  }

  /** The three letters at index `p` of the text spell month `n`. */
  predicate SpellsAt(lower: string, p: int, n: nat) {
    0 <= p && p + 3 <= |lower| && LettersAt(lower, p) == n
  }

  /** Every month the text names is spelled, by its first three letters, at some index of the text. */
  lemma NamedMonthLetters(lower: string, n: nat)
    requires n in NamedMonths(lower)
    ensures 1 <= n <= 12
    ensures exists p :: SpellsAt(lower, p, n)
  {
    var t :| 0 <= t < |MonthTable| && Contains(lower, MonthTable[t].0) && MonthTable[t].1 == n;
    var name := MonthTable[t].0;
    var p := Find(lower, name);
    assert OccursAt(lower, name, p);
    assert 1 <= n <= 12 && |name| >= 3 && MonthOfLetters(name[0], name[1], name[2]) == n by {
      MonthTableLetters();
      MonthTableNumbers();
    }
    assert name[0] == lower[p] && name[1] == lower[p + 1] && name[2] == lower[p + 2];
    assert SpellsAt(lower, p, n);
  }

  /** Text without the first letter of `t` does not contain `t`. */
  lemma MissingFirstLetter(s: string, t: string)
    requires |t| > 0 && t[0] !in s
    ensures !Contains(s, t)
  {
    forall k | 0 <= k <= |s| ensures !OccursAt(s, t, k) {
      if k + |t| <= |s| {
        assert s[k..k + |t|][0] == s[k];
      }
    }
    ContainsIff(s, t);
  }

  /** A table entry whose name occurs in the text is a named month, spelled where it occurs. */
  lemma NamedByEntry(lower: string, t: nat, p: nat)
    requires t < |MonthTable| && OccursAt(lower, MonthTable[t].0, p)
    ensures MonthTable[t].1 in NamedMonths(lower)
    ensures SpellsAt(lower, p, MonthTable[t].1)
  {
    assert Contains(lower, MonthTable[t].0);
    var name := MonthTable[t].0;
    assert |name| >= 3 && MonthOfLetters(name[0], name[1], name[2]) == MonthTable[t].1 by {
      MonthTableLetters();
    }
    assert name[0] == lower[p] && name[1] == lower[p + 1] && name[2] == lower[p + 2];
  }

  /**
   * Where the letters spell month `a` only at `i`, month `b` only at `j` and
   * no month elsewhere, a month spelled at `q` is `a` at `i` or `b` at `j`.
   */
  lemma SpelledOnlyThere(lower: string, a: nat, i: nat, b: nat, j: nat, n: nat, q: int)
    requires SpellsAt(lower, i, a) && SpellsAt(lower, j, b)
    requires forall p :: 0 <= p && p + 3 <= |lower| && p != i && p != j ==>
      LettersAt(lower, p) == 0
    requires 1 <= n && SpellsAt(lower, q, n)
    ensures (q == i && n == a) || (q == j && n == b)
  {
  }

  /**
   * Text naming two different months `a` and `b`, spelled at `i` and `j`,
   * whose letters spell no month anywhere else, names exactly those two
   * months, at those positions.
   */
  lemma TwoNamedMonths(lower: string, a: nat, i: nat, b: nat, j: nat)
    requires a != b && a in NamedMonths(lower) && b in NamedMonths(lower)
    requires SpellsAt(lower, i, a) && SpellsAt(lower, j, b)
    requires forall p :: 0 <= p && p + 3 <= |lower| && p != i && p != j ==>
      LettersAt(lower, p) == 0
    ensures NamedMonths(lower) == {a, b}
    ensures MonthPos(lower, a) == i && MonthPos(lower, b) == j
  {
    forall n | n in NamedMonths(lower) ensures n == a || n == b {
      NamedMonthLetters(lower, n);
      var p :| SpellsAt(lower, p, n);
      SpelledOnlyThere(lower, a, i, b, j, n, p);
    }
    NamedMonthPosition(lower, a, i, b, j);
    NamedMonthPosition(lower, b, j, a, i);
  }

  /** A named month spelled only at `i` (besides another month at `j`) is placed at `i`. */
  lemma NamedMonthPosition(lower: string, a: nat, i: nat, b: nat, j: nat)
    requires a != b && a in NamedMonths(lower)
    requires SpellsAt(lower, i, a) && SpellsAt(lower, j, b)
    requires forall p :: 0 <= p && p + 3 <= |lower| && p != i && p != j ==>
      LettersAt(lower, p) == 0
    ensures MonthPos(lower, a) == i
  {
    assert MonthPos(lower, a) != -1 by {
      FirstPosFound(lower, MonthTable, |MonthTable|);
    }
    assert 1 <= a by {
      NamedMonthLetters(lower, a);
    }
    MonthPosLetters(lower, a);
    SpelledOnlyThere(lower, a, i, b, j, a, MonthPos(lower, a));
  }

  /** "June - September" is the season from June to September. */
  lemma JuneToSeptember()
    ensures SeasonOf("June - September") == [(6, 9)]
  {
    JuneToSeptemberSpelled("June - September");
  }

  /** Any text spelled like "June - September" is the season from June to September. */
  lemma JuneToSeptemberSpelled(season: string)
    requires |season| == 16 && forall k :: 0 <= k < 16 ==> season[k] == "June - September"[k]
    ensures SeasonOf(season) == [(6, 9)]
  {
    var lower := ToLower(season);
    forall k | 0 <= k < 16 ensures lower[k] == "june - september"[k] {
      assert lower[k] == LowerChar(season[k]);
    }
    assert '-' == season[5];
    JuneToSeptemberNames(lower);
    SeasonRangeInTextOrder(season, 6, 9);
  }

  /** Text spelled "june - september" names June at 0 and September at 7, and no other month. */
  lemma JuneToSeptemberNames(lower: string)
    requires |lower| == 16 && forall k :: 0 <= k < 16 ==> lower[k] == "june - september"[k]
    ensures !Contains(lower, "year-round")
    ensures NamedMonths(lower) == {6, 9} && MonthPos(lower, 6) == 0 && MonthPos(lower, 9) == 7
  {
    assert !Contains(lower, "year-round") by {
      forall k | 0 <= k < |lower| ensures lower[k] != 'y' {
        assert lower[k] == "june - september"[k];
      }
      MissingFirstLetter(lower, "year-round");
    }
    assert lower[0..4] == MonthTable[5].0 && lower[7..16] == MonthTable[8].0;
    NamedByEntry(lower, 5, 0);
    NamedByEntry(lower, 8, 7);
    JuneToSeptemberLetters(lower);
    TwoNamedMonths(lower, 6, 0, 9, 7);
  }

  /** In text spelled "june - september" no three letters but those at 0 and 7 spell a month. */
  lemma JuneToSeptemberLetters(lower: string)
    requires |lower| == 16 && forall k :: 0 <= k < 16 ==> lower[k] == "june - september"[k]
    ensures forall p :: 0 <= p && p + 3 <= |lower| && p != 0 && p != 7 ==> LettersAt(lower, p) == 0
  {
    forall p | 0 <= p && p + 3 <= |lower| && p != 0 && p != 7
      ensures LettersAt(lower, p) == 0 {
      if p == 1 {} else if p == 2 {} else if p == 3 {} else if p == 4 {} else if p == 5 {}
      else if p == 6 {} else if p == 8 {} else if p == 9 {} else if p == 10 {} else if p == 11 {}
      else if p == 12 {} else { assert p == 13; }
    }
  }

  /** "November-March" wraps past December: the range stays in text order, November to March. */
  lemma NovemberToMarch()
    ensures SeasonOf("November-March") == [(11, 3)]
  {
    NovemberToMarchSpelled("November-March");
  }

  /** Any text spelled like "November-March" is the season from November to March. */
  lemma NovemberToMarchSpelled(season: string)
    requires |season| == 14 && forall k :: 0 <= k < 14 ==> season[k] == "November-March"[k]
    ensures SeasonOf(season) == [(11, 3)]
  {
    var lower := ToLower(season);
    forall k | 0 <= k < 14 ensures lower[k] == "november-march"[k] {
      assert lower[k] == LowerChar(season[k]);
    }
    assert '-' == season[8];
    NovemberToMarchNames(lower);
    SeasonRangeInTextOrder(season, 11, 3);
  }

  /** Text spelled "november-march" names November at 0 and March at 9, and no other month. */
  lemma NovemberToMarchNames(lower: string)
    requires |lower| == 14 && forall k :: 0 <= k < 14 ==> lower[k] == "november-march"[k]
    ensures !Contains(lower, "year-round")
    ensures NamedMonths(lower) == {11, 3} && MonthPos(lower, 11) == 0 && MonthPos(lower, 3) == 9
  {
    assert !Contains(lower, "year-round") by {
      forall k | 0 <= k < |lower| ensures lower[k] != 'y' {
        assert lower[k] == "november-march"[k];
      }
      MissingFirstLetter(lower, "year-round");
    }
    assert lower[0..8] == MonthTable[10].0 && lower[9..14] == MonthTable[2].0;
    NamedByEntry(lower, 10, 0);
    NamedByEntry(lower, 2, 9);
    NovemberToMarchLetters(lower);
    TwoNamedMonths(lower, 11, 0, 3, 9);
  }

  /** In text spelled "november-march" no three letters but those at 0 and 9 spell a month. */
  lemma NovemberToMarchLetters(lower: string)
    requires |lower| == 14 && forall k :: 0 <= k < 14 ==> lower[k] == "november-march"[k]
    ensures forall p :: 0 <= p && p + 3 <= |lower| && p != 0 && p != 9 ==> LettersAt(lower, p) == 0
  {
    forall p | 0 <= p && p + 3 <= |lower| && p != 0 && p != 9
      ensures LettersAt(lower, p) == 0 {
      if p == 1 {} else if p == 2 {} else if p == 3 {} else if p == 4 {} else if p == 5 {}
      else if p == 6 {} else if p == 7 {} else if p == 8 {} else if p == 10 {} else { assert p == 11; }
    }
  }
}
