/**
 * The second half of `get_hikes` in the API server: the climbing seasons of
 * the fetched hikes are grouped per hike in fetch order, every hike gets its
 * list of seasons and an `is_in_season` flag, and with `in_season_only` the
 * hikes that are out of season are dropped. Rows of the `hikes` query are
 * kept abstract: the columns other than the id are passed through unchanged.
 */
module SeasonResults {
  import opened SeasonWindow
  import opened Subsequences

  /** The buffer `get_hikes` leaves to `is_in_season`'s default. */
  const BufferDays: int := 15

  /** A row of the climbing-seasons query: `hike_id, start_month, end_month, season_text`. */
  datatype SeasonRow = SeasonRow(hikeId: int, startMonth: int, endMonth: int, seasonText: string)

  /** One entry of a hike's `climbing_seasons` list. */
  datatype Season = Season(startMonth: int, endMonth: int, seasonText: string)

  /** A row of the hikes query: its id and the other columns as fetched. */
  datatype HikeRow = HikeRow(id: int, columns: map<string, string>)

  /** A hike as returned: the fetched row with its seasons and its in-season flag. */
  datatype HikeResult = HikeResult(row: HikeRow, climbingSeasons: seq<Season>, isInSeason: bool)

  function SeasonOfRow(r: SeasonRow): Season {
    Season(r.startMonth, r.endMonth, r.seasonText)
  }

  /** Months as `datetime` accepts them; another month makes `is_in_season` raise. */
  predicate ValidMonths(s: Season) {
    1 <= s.startMonth <= 12 && 1 <= s.endMonth <= 12
  }

  predicate ValidRows(rows: seq<SeasonRow>) {
    forall k :: 0 <= k < |rows| ==> ValidMonths(SeasonOfRow(rows[k]))
  }

  predicate ValidSeasons(seasons: seq<Season>) {
    forall k :: 0 <= k < |seasons| ==> ValidMonths(seasons[k])
  }

  predicate ValidData(seasonsData: map<int, seq<Season>>) {
    forall id :: id in seasonsData ==> ValidSeasons(seasonsData[id])
  }

  // ---------------------------------------------------------------------
  // Grouping the season rows per hike
  // ---------------------------------------------------------------------

  /** The seasons of hike `id`, in the order their rows were fetched. */
  function SeasonsFor(rows: seq<SeasonRow>, id: int): seq<Season> {
    if rows == [] then []
    else
      var last := rows[|rows| - 1];
      SeasonsFor(rows[..|rows| - 1], id) + (if last.hikeId == id then [SeasonOfRow(last)] else [])
  }

  /** Every fetched season in fetch order. */
  function AllSeasons(rows: seq<SeasonRow>): seq<Season> {
    if rows == [] then [] else AllSeasons(rows[..|rows| - 1]) + [SeasonOfRow(rows[|rows| - 1])]
  }

  function HikeIdsOf(rows: seq<SeasonRow>): set<int> {
    set r | r in rows :: r.hikeId
  }

  /** `seasons_data` once every row has been appended: one entry per hike that has a row. */
  function Grouped(rows: seq<SeasonRow>): map<int, seq<Season>> {
    map id | id in HikeIdsOf(rows) :: SeasonsFor(rows, id)
  }

  /** `seasons_data.get(hike_id, [])`. */
  function SeasonsOf(seasonsData: map<int, seq<Season>>, id: int): seq<Season> {
    if id in seasonsData then seasonsData[id] else []
  }

  /** A hike's seasons are exactly its rows' seasons. */
  lemma {:induction false} SeasonsForMembers(rows: seq<SeasonRow>, id: int, s: Season)
    ensures s in SeasonsFor(rows, id) <==> exists r :: r in rows && r.hikeId == id && SeasonOfRow(r) == s
  {
    if rows != [] {
      var init := rows[..|rows| - 1];
      var last := rows[|rows| - 1];
      SeasonsForMembers(init, id, s);
      assert rows == init + [last];
      if s in SeasonsFor(rows, id) && s !in SeasonsFor(init, id) {
        assert last in rows && last.hikeId == id && SeasonOfRow(last) == s;
      }
      if r :| r in rows && r.hikeId == id && SeasonOfRow(r) == s {
        if r != last {
          assert r in init;
        }
      }
    }
  }

  /** A hike's seasons keep the order in which all seasons were fetched. */
  lemma {:induction false} SeasonsForInFetchOrder(rows: seq<SeasonRow>, id: int)
    ensures IsSubsequence(SeasonsFor(rows, id), AllSeasons(rows))
  {
    if rows == [] {
    } else {
      var init := rows[..|rows| - 1];
      var last := SeasonOfRow(rows[|rows| - 1]);
      SeasonsForInFetchOrder(init, id);
      if rows[|rows| - 1].hikeId == id {
        SubsequenceAppendBoth(SeasonsFor(init, id), AllSeasons(init), last);
      } else {
        SubsequenceOfLonger(SeasonsFor(init, id), AllSeasons(init), last);
        assert SeasonsFor(rows, id) == SeasonsFor(init, id);
      }
    }
  }

  /** A hike without rows has no seasons. */
  lemma {:induction false} SeasonsForAbsent(rows: seq<SeasonRow>, id: int)
    requires id !in HikeIdsOf(rows)
    ensures SeasonsFor(rows, id) == []
  {
    if rows != [] {
      var init := rows[..|rows| - 1];
      assert forall r :: r in init ==> r in rows;
      SeasonsForAbsent(init, id);
    }
  }

  /** Appending one row extends the list of that row's hike and no other. */
  lemma GroupedStep(rows: seq<SeasonRow>, r: SeasonRow)
    ensures Grouped(rows + [r]) == Grouped(rows)[r.hikeId := SeasonsOf(Grouped(rows), r.hikeId) + [SeasonOfRow(r)]]
  {
    var rows' := rows + [r];
    var before := Grouped(rows);
    var after := before[r.hikeId := SeasonsOf(before, r.hikeId) + [SeasonOfRow(r)]];
    assert rows'[..|rows'| - 1] == rows;
    assert HikeIdsOf(rows') == HikeIdsOf(rows) + {r.hikeId};
    if r.hikeId !in HikeIdsOf(rows) {
      SeasonsForAbsent(rows, r.hikeId);
    }
    assert Grouped(rows').Keys == after.Keys;
    forall id | id in after
      ensures Grouped(rows')[id] == after[id]
    {
      assert SeasonsFor(rows', id) == SeasonsFor(rows, id) + (if r.hikeId == id then [SeasonOfRow(r)] else []);
    }
  }

  /** Every grouped season comes from a row, so valid rows give valid seasons. */
  lemma GroupedValid(rows: seq<SeasonRow>)
    requires ValidRows(rows)
    ensures ValidData(Grouped(rows))
  {
    forall id | id in Grouped(rows)
      ensures ValidSeasons(Grouped(rows)[id])
    {
      var seasons := SeasonsFor(rows, id);
      forall k | 0 <= k < |seasons|
        ensures ValidMonths(seasons[k])
      {
        SeasonsForMembers(rows, id, seasons[k]);
        var r :| r in rows && r.hikeId == id && SeasonOfRow(r) == seasons[k];
        var j :| 0 <= j < |rows| && rows[j] == r;
      }
    }
  }

  /**
   * Builds `seasons_data` from the fetched season rows. The season query
   * only runs when some hike was fetched; otherwise the map stays empty.
   */
  method GroupSeasons(hikeIds: seq<int>, seasonRows: seq<SeasonRow>) returns (seasonsData: map<int, seq<Season>>)
    ensures hikeIds == [] ==> seasonsData == map[]
    ensures hikeIds != [] ==> seasonsData == Grouped(seasonRows)
  {
    seasonsData := map[];
    if hikeIds != [] {
      assert seasonRows[..0] == [] && HikeIdsOf([]) == {};
      for i := 0 to |seasonRows|
        invariant seasonsData == Grouped(seasonRows[..i])
      {
        var r := seasonRows[i];
        GroupedStep(seasonRows[..i], r);
        assert seasonRows[..i + 1] == seasonRows[..i] + [r];
        // a missing hike starts from the empty list, then the season is appended
        var prior := if r.hikeId in seasonsData then seasonsData[r.hikeId] else [];
        seasonsData := seasonsData[r.hikeId := prior + [SeasonOfRow(r)]];
      }
      assert seasonRows[..|seasonRows|] == seasonRows;
    }
  }

  // ---------------------------------------------------------------------
  // The in-season flag and the in-season filter
  // ---------------------------------------------------------------------

  /**
   * `is_in_season(start_month, end_month)` with the default buffer, on the
   * current date, with the buffer reaching across New Year as intended.
   */
  predicate Open(s: Season, today: Date)
    requires ValidMonths(s) && 1 <= today.month <= 12
  {
    InSeasonAnyYear(s.startMonth, s.endMonth, BufferDays, today)
  }

  ghost predicate AnyOpen(seasons: seq<Season>, today: Date)
    requires ValidSeasons(seasons) && 1 <= today.month <= 12
  {
    exists k :: 0 <= k < |seasons| && Open(seasons[k], today)
  }

  /** The loop that sets `is_in_season` and stops at the first season that is open. */
  method AnyInSeason(seasons: seq<Season>, today: Date) returns (inSeason: bool)
    requires ValidSeasons(seasons) && 1 <= today.month <= 12
    ensures inSeason <==> exists k :: 0 <= k < |seasons| && Open(seasons[k], today)
  {
    inSeason := false;
    var k := 0;
    while k < |seasons|
      invariant 0 <= k <= |seasons|
      invariant forall j :: 0 <= j < k ==> !Open(seasons[j], today)
    {
      if Open(seasons[k], today) {
        inSeason := true;
        break;
      }
      k := k + 1;
    }
  }

  /** What one fetched row becomes. */
  ghost function ResultOf(row: HikeRow, seasonsData: map<int, seq<Season>>, today: Date): HikeResult
    requires ValidData(seasonsData) && 1 <= today.month <= 12
  {
    var seasons := SeasonsOf(seasonsData, row.id);
    HikeResult(row, seasons, AnyOpen(seasons, today))
  }

  /** The list `get_hikes` returns for the fetched rows, in their order. */
  ghost function ResultsOf(rows: seq<HikeRow>, seasonsData: map<int, seq<Season>>, inSeasonOnly: bool, today: Date): seq<HikeResult>
    requires ValidData(seasonsData) && 1 <= today.month <= 12
  {
    if rows == [] then []
    else
      var hike := ResultOf(rows[|rows| - 1], seasonsData, today);
      ResultsOf(rows[..|rows| - 1], seasonsData, inSeasonOnly, today)
        + (if !inSeasonOnly || hike.isInSeason then [hike] else [])
  }

  function Rows(results: seq<HikeResult>): seq<HikeRow> {
    if results == [] then [] else Rows(results[..|results| - 1]) + [results[|results| - 1].row]
  }

  /** The loop over the fetched rows that attaches seasons and applies the filter. */
  method AssembleResults(rows: seq<HikeRow>, seasonsData: map<int, seq<Season>>, inSeasonOnly: bool, today: Date)
    returns (results: seq<HikeResult>)
    requires ValidData(seasonsData) && 1 <= today.month <= 12
    ensures results == ResultsOf(rows, seasonsData, inSeasonOnly, today)
  {
    results := [];
    for i := 0 to |rows|
      invariant results == ResultsOf(rows[..i], seasonsData, inSeasonOnly, today)
    {
      var row := rows[i];
      var seasons := SeasonsOf(seasonsData, row.id);
      var inSeason := AnyInSeason(seasons, today);
      var hike := HikeResult(row, seasons, inSeason);
      if !inSeasonOnly || inSeason {
        results := results + [hike];
      }
      assert rows[..i + 1][..i] == rows[..i];
    }
    assert rows[..|rows|] == rows;
  }

  /** Season grouping followed by the result loop, as `get_hikes` runs them on the fetched rows. */
  method AttachSeasons(rows: seq<HikeRow>, seasonRows: seq<SeasonRow>, inSeasonOnly: bool, today: Date)
    returns (results: seq<HikeResult>)
    requires ValidRows(seasonRows) && 1 <= today.month <= 12
    ensures ValidData(Grouped(seasonRows))
    ensures results == ResultsOf(rows, Grouped(seasonRows), inSeasonOnly, today)
  {
    var hikeIds := seq(|rows|, k requires 0 <= k < |rows| => rows[k].id);
    var seasonsData := GroupSeasons(hikeIds, seasonRows);
    GroupedValid(seasonRows);
    results := AssembleResults(rows, seasonsData, inSeasonOnly, today);
    if rows == [] {
      assert results == [];
    }
  }

  /** The returned hikes are fetched rows, in fetch order. */
  lemma {:induction false} ResultsInFetchOrder(rows: seq<HikeRow>, seasonsData: map<int, seq<Season>>, inSeasonOnly: bool, today: Date)
    requires ValidData(seasonsData) && 1 <= today.month <= 12
    ensures IsSubsequence(Rows(ResultsOf(rows, seasonsData, inSeasonOnly, today)), rows)
  {
    if rows != [] {
      var init := rows[..|rows| - 1];
      var last := rows[|rows| - 1];
      var prior := ResultsOf(init, seasonsData, inSeasonOnly, today);
      var hike := ResultOf(last, seasonsData, today);
      ResultsInFetchOrder(init, seasonsData, inSeasonOnly, today);
      assert rows == init + [last];
      if !inSeasonOnly || hike.isInSeason {
        assert ResultsOf(rows, seasonsData, inSeasonOnly, today) == prior + [hike];
        assert (prior + [hike])[..|prior|] == prior;
        assert Rows(prior + [hike]) == Rows(prior) + [last];
        SubsequenceAppendBoth(Rows(prior), init, last);
      } else {
        assert ResultsOf(rows, seasonsData, inSeasonOnly, today) == prior;
        SubsequenceOfLonger(Rows(prior), init, last);
      }
    }
  }

  /** Each returned hike carries its own seasons and is flagged iff one of them is open. */
  lemma {:induction false} ResultsDescribeRows(rows: seq<HikeRow>, seasonsData: map<int, seq<Season>>, inSeasonOnly: bool, today: Date)
    requires ValidData(seasonsData) && 1 <= today.month <= 12
    ensures forall h :: h in ResultsOf(rows, seasonsData, inSeasonOnly, today) ==>
      h.row in rows && h.climbingSeasons == SeasonsOf(seasonsData, h.row.id)
      && (h.isInSeason <==> exists k :: 0 <= k < |h.climbingSeasons| && Open(h.climbingSeasons[k], today))
  {
    if rows != [] {
      var init := rows[..|rows| - 1];
      ResultsDescribeRows(init, seasonsData, inSeasonOnly, today);
      assert forall r :: r in init ==> r in rows;
    }
  }

  /** Without `in_season_only` every fetched hike is returned, in place. */
  lemma {:induction false} UnfilteredKeepsAll(rows: seq<HikeRow>, seasonsData: map<int, seq<Season>>, today: Date)
    requires ValidData(seasonsData) && 1 <= today.month <= 12
    ensures |ResultsOf(rows, seasonsData, false, today)| == |rows|
    ensures forall k :: 0 <= k < |rows| ==> ResultsOf(rows, seasonsData, false, today)[k] == ResultOf(rows[k], seasonsData, today)
  {
    if rows != [] {
      var init := rows[..|rows| - 1];
      UnfilteredKeepsAll(init, seasonsData, today);
    }
  }

  /** With `in_season_only` a fetched hike is returned exactly when it is in season. */
  lemma {:induction false} FilterKeepsInSeason(rows: seq<HikeRow>, seasonsData: map<int, seq<Season>>, today: Date)
    requires ValidData(seasonsData) && 1 <= today.month <= 12
    ensures forall h :: h in ResultsOf(rows, seasonsData, true, today) ==> h.isInSeason
    ensures forall k :: 0 <= k < |rows| ==>
      (ResultOf(rows[k], seasonsData, today) in ResultsOf(rows, seasonsData, true, today)
       <==> ResultOf(rows[k], seasonsData, today).isInSeason)
  {
    if rows != [] {
      var init := rows[..|rows| - 1];
      FilterKeepsInSeason(init, seasonsData, today);
      forall k | 0 <= k < |rows|
        ensures ResultOf(rows[k], seasonsData, today).isInSeason
          ==> ResultOf(rows[k], seasonsData, today) in ResultsOf(rows, seasonsData, true, today)
      {
        if k < |init| {
          assert rows[k] == init[k];
        }
      }
    }
  }

  /** A hike with no season rows is never in season, so `in_season_only` drops it. */
  lemma NoSeasonsDropped(rows: seq<HikeRow>, seasonRows: seq<SeasonRow>, today: Date, row: HikeRow)
    requires ValidRows(seasonRows) && 1 <= today.month <= 12
    requires forall r :: r in seasonRows ==> r.hikeId != row.id
    ensures ValidData(Grouped(seasonRows))
    ensures SeasonsOf(Grouped(seasonRows), row.id) == []
    ensures ResultOf(row, Grouped(seasonRows), today) !in ResultsOf(rows, Grouped(seasonRows), true, today)
  {
    GroupedValid(seasonRows);
    FilterKeepsInSeason(rows, Grouped(seasonRows), today);
  }
}
