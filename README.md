# Summit hikes — a Dafny model

Summit Hikes is a catalogue of Colorado hikes. It has three parts:

- an import script reads a JSON list of hikes, parses the free-text fields into numbers, and writes a SQLite database;
- a small HTTP API lists the hikes with optional filters, sorting and paging, and flags each hike as in season or not;
- a React client filters and sorts the records it fetched, and plots two numeric fields as a scatter chart with a least-squares regression line.

This project models the logic of all three parts in Dafny and proves properties of it:

- **Import parsers** of `import_data.py`:
  - difficulty, class, crowd level, distance, hiking time, elevation and GPS coordinates;
  - the climbing-season text and the peak list.
  - Modules: `ImportData`, `ClimbingSeason`, `Peaks`, with `Scan` and `Text` for the regular-expression and string primitives they rely on.
- **The API's season window** `is_in_season`, in module `SeasonWindow`, over proleptic Gregorian day numbers.
- **The construction of the hikes query** (WHERE, GROUP BY, HAVING, ORDER BY and LIMIT clauses with their parameter list), in module `HikesQuery`.
- **The post-processing in `get_hikes`**: season grouping, the in-season flag and the in-season filter, in module `SeasonResults`.
- **The client's filter and sort engine**: `HikeFilter`, `Sorting`, `Subsequences`.
- **The client's application state** as a class whose handlers update its fields, in `AppState`.
- **The range-editing rules of the filter controls**, in `FilterControls`.
- **The scatter chart**: valid points, padded scales, ticks (`Scatter`) and the regression (`Regression`).
- **The hike card's difficulty band and crowd label**, in `HikeCard`.

Methods model the loops and the state changes of the source. Each method is proved against a function that specifies its result, and the properties the source promises are proved about those functions as lemmas.

Notes on the code:

- **Zero-width axis.** When every plotted value on an axis is equal, the chart's scale divides by a domain width of zero. `Scatter.Project` requires a non-zero width.
- **Regression with all x values equal.** The chart's regression divides by the slope denominator without checking it. `Regression.LinearRegression` requires it to be non-zero when there are two or more points.
- **Season buffer across New Year.** `is_in_season` takes the year of the season from today's date, so its 15-day buffer never reaches into the next or the previous year, and a season that wraps past December has no lead-in. `SeasonWindow.InSeasonAnyYear` also tries the neighbouring years, and the in-season flag uses it (see Findings).
- **Sort ties.** The client sorts with JavaScript's `Array.prototype.sort`, which is stable. `Sorting.SortBy` keeps hikes with equal keys in their input order, and `Sorting.SortByStable` proves it.
- **Hiking-time filter boundary.** The hike-time filter keeps a hike whose time span touches the filter range at either end (`HikeFilter.TimeOverlapIsInclusive`).

## Model

| member | source | states |
|---|---|---|
| Text.ToLower | summit-hikes-app/src/App.jsx:66-69 | lower-casing keeps the length and changes only ASCII capitals |
| Text.ToLowerIdempotent | import_data.py:40 | lower-casing twice is lower-casing once |
| Text.FindFrom | import_data.py:145 | `str.find`: the first index at or after the start where the text occurs, or -1 when it occurs nowhere |
| Text.ContainsIff | summit-hikes-app/src/App.jsx:68-69 | a substring test holds exactly when some index carries an occurrence |
| Text.Strip | import_data.py:114-115 | `str.strip()` yields a slice of the input with no whitespace at either end, and everything cut off on either side is whitespace |
| Text.StripSlice | import_data.py:114-115 | cutting leading and then trailing whitespace leaves a slice of the original text, with only whitespace after it |
| Text.Split | import_data.py:112 | `str.split(sep)` on one character: the parts hold no separator and number one more than the separators |
| Text.SplitJoin | import_data.py:112 | joining the parts of a split with the separator gives the text back |
| Scan.NatString | import_data.py:15 | the decimal numeral of a natural is all digits and reads back as that natural |
| Scan.NumberAt | import_data.py:15 | `\d+(?:\.\d+)?` matches at an index iff a digit stands there; the match ends before a non-digit with a non-negative value |
| Scan.NumberAtNatString | import_data.py:15 | a numeral followed by neither a digit nor a point scans as exactly that number |
| Scan.SearchSpec | import_data.py:15 | `re.search` reports no match iff no position matches, and otherwise reports the match at the first matching position |
| Scan.SearchKeeps | import_data.py:15-16 | a property every match has, the reported match has |
| Scan.RemoveChar | import_data.py:89 | `replace(',', '')` leaves no comma, never lengthens the text, and leaves comma-free text unchanged |
| Scan.RemoveCharSkips | import_data.py:89 | a comma anywhere in the text makes no difference once commas are removed |
| ImportData.ParseDifficulty | import_data.py:13-16 | the difficulty is never negative |
| ImportData.DifficultyWithoutMarker | import_data.py:15-16 | text without `/10` gives 0.0 |
| ImportData.DifficultyRoundTrip | import_data.py:13-16 | `n/10` at the start of the text reads back as `n` |
| ImportData.ParseClass | import_data.py:19-35 | a known description gives its table class, an unknown one 2.0; the class lies in [1.0, 3.3] |
| ImportData.ClassOfDescriptions | import_data.py:21-35 | each of the twelve descriptions gives the class written next to it, and other text gives 2.0 |
| ImportData.ClassTableRange | import_data.py:21-34 | every class in the table lies in [1.0, 3.3] |
| ImportData.ParseCrowdLevel | import_data.py:38-53 | the level lies in 1..5 and the original text is returned with it |
| ImportData.CrowdLevelKeywords | import_data.py:38-53 | `hermit` gives 1; otherwise `low` with `moderate` gives 3; `low` alone gives 2; then `high` gives 5; then `moderate` or `medium` gives 4; none of these words gives 3, all case-insensitively |
| ImportData.CrowdLevelIgnoresCase | import_data.py:40-53 | the level does not depend on letter case |
| ImportData.ParseDistance | import_data.py:56-59 | the distance is never negative |
| ImportData.DistanceWithoutMiles | import_data.py:58-59 | text without `miles` gives 0.0 |
| ImportData.DistanceRoundTrip | import_data.py:56-59 | `n miles` at the start reads back as `n` |
| ImportData.ParseHikingTime | import_data.py:62-84 | both hour bounds are never negative |
| ImportData.HikingTime | import_data.py:64-84 | both hour bounds are never negative, and without a range match a day count gives min ≤ max; the priority among the patterns is stated by `HikingTimeOfRange`, `HikingTimeOfDays` and `HikingTimeOfHours` |
| ImportData.DashNeeded | import_data.py:65 | the range pattern needs a `-` in the text |
| ImportData.RangeNeedsHour | import_data.py:65 | the range pattern needs `hour` in the text |
| ImportData.HikingTimeWithoutUnits | import_data.py:84 | text mentioning neither hours nor days gives (0.0, 0.0) |
| ImportData.HikingTimeOfRange | import_data.py:65-67 | a range at the start decides the hiking time |
| ImportData.HikingTimeOfDays | import_data.py:70-76 | without a dash, a day count at the start gives (8·days, 12·days) |
| ImportData.HikingTimeOfHours | import_data.py:79-82 | without a dash or a day count, an hour count at the start gives (h, h) |
| ImportData.HikingTimeRangeRoundTrip | import_data.py:65-67 | `a-b hours` reads back as (a, b) |
| ImportData.HikingTimeDaysRoundTrip | import_data.py:70-76 | `n days` reads back as (8n, 12n), with the minimum never above the maximum |
| ImportData.HikingTimeHoursRoundTrip | import_data.py:79-82 | `n hours` reads back as (n, n) |
| ImportData.ElevationAt | import_data.py:89 | `\d{1,2},?\d{3}` matches four to six characters, each a digit or a comma, and at most five when none is a comma |
| ImportData.ElevationSpanDigits | import_data.py:89 | in text with the commas removed, a match is four or five digits |
| ImportData.ParseElevation | import_data.py:87-90 | the elevation is below 100000 |
| ImportData.ElevationWithoutDigitRun | import_data.py:90 | text with no run of four digits once commas are removed gives 0 |
| ImportData.ElevationRoundTrip | import_data.py:87-90 | a four- or five-digit numeral at the start of comma-free text reads back as itself |
| ImportData.ElevationIgnoresComma | import_data.py:89 | thousands separators do not change the elevation |
| ImportData.CoordinateAt | import_data.py:95 | a coordinate match has a hemisphere letter in NSEW and non-negative minutes |
| ImportData.HemisphereAt | import_data.py:95 | the `'?\s*([NSEW])` tail yields only a hemisphere letter in NSEW |
| ImportData.DecimalDegrees | import_data.py:97-106 | degrees + minutes/60, negated in the southern and western hemispheres |
| ImportData.ParseGpsCoordinate | import_data.py:93-107 | the first coordinate in the text reads as ±(degrees + minutes/60); no coordinate gives 0.0 |
| ImportData.GpsCoordinateSign | import_data.py:93-107 | a southern or western coordinate is never positive, a northern or eastern one never negative, and the value is ±(d + m/60) of the first match |
| ImportData.GpsCoordinateRoundTrip | import_data.py:93-107 | `d°m' H` reads back as ±(d + m/60) |
| ImportData.CoordinateAtStart | import_data.py:95-99 | degrees, the degree sign, minutes, a quote, a space and a hemisphere letter match as exactly that coordinate |
| ImportData.ParseGps | import_data.py:110-117 | text without exactly one comma gives (0.0, 0.0) |
| ImportData.GpsPair | import_data.py:110-116 | `lat,lon` parses each stripped side as a coordinate |
| ClimbingSeason.MonthTableNumbers | import_data.py:122-129 | every month number of the table is a calendar month |
| ClimbingSeason.CollectMonthPositions | import_data.py:142-148 | the loop records, in table order, each month name found whose number was not recorded before |
| ClimbingSeason.ParseClimbingSeason | import_data.py:120-167 | the method returns what the season function specifies |
| ClimbingSeason.SeasonOf | import_data.py:131-167 | exactly one range is returned, and both of its months are calendar months |
| ClimbingSeason.HitsInFacts | import_data.py:142-148 | over any prefix of a table of calendar months, each hit is a table entry found at `find`'s first index of its name, and no month number is recorded twice |
| ClimbingSeason.NamedInStep | import_data.py:142-148 | the months named by a prefix of the table grow by the next entry's month exactly when that name occurs in the text |
| ClimbingSeason.FirstPosFound | import_data.py:144-145 | a month gets a position exactly when one of its table names occurs in the text |
| ClimbingSeason.HitsInNamed | import_data.py:142-148 | the recorded month numbers are exactly the months the text names, one hit per month |
| ClimbingSeason.HitsInPositions | import_data.py:144-148 | each hit sits where `find` finds the first table name of its month that occurs in the text |
| ClimbingSeason.HitsFacts | import_data.py:142-148 | over the whole table: each hit is a table entry at `find`'s first index of its name, no month is recorded twice, the recorded months are exactly the months named in the text, one hit each, at the position of the month's first occurring name in table order |
| ClimbingSeason.MonthTableLetters | import_data.py:122-129 | the first three letters of every table name determine its month |
| ClimbingSeason.HitLetters | import_data.py:144-148 | the three letters at a hit's position spell its month |
| ClimbingSeason.SamePositionSameMonth | import_data.py:144-151 | two hits at one position are the same month, so the sort by position never meets a tie |
| ClimbingSeason.SortedHitsGood | import_data.py:151 | sorting by position keeps every hit valid and keeps one hit per named month |
| ClimbingSeason.PairOrder | import_data.py:151-156 | two hits of different months at their first positions, once sorted by position, come out in strictly increasing position |
| ClimbingSeason.SortedPairDistinct | import_data.py:151-156 | when two hits remain after sorting, the text names exactly those two months, each at its first position, the earlier-written one first |
| ClimbingSeason.SeasonShape | import_data.py:131-167 | exactly one range is returned, and both of its months are calendar months |
| ClimbingSeason.SeasonRangeInTextOrder | import_data.py:131-161 | text without `year-round`, with a dash and naming exactly two different months gives one range, from the month found earlier in the text to the one found later, wrapping or not |
| ClimbingSeason.SeasonSingleMonth | import_data.py:131-165 | text without `year-round` naming exactly one month gives that month's one-month range |
| ClimbingSeason.SeasonDefault | import_data.py:131-167 | `year-round` gives (1, 12); otherwise text naming no month, more than two months, or two months without a dash gives the summer default (6, 9) |
| ClimbingSeason.NamedMonthLetters | import_data.py:142-145 | every month the text names is a calendar month spelled by the first three letters of one of its names somewhere in the text |
| ClimbingSeason.NamedByEntry | import_data.py:144-145 | a table name occurring in the text makes its month a named month, spelled where it occurs |
| ClimbingSeason.TwoNamedMonths | import_data.py:142-151 | text whose letters spell exactly two different months, each at one position, names those two months at those positions |
| ClimbingSeason.JuneToSeptember | import_data.py:131-161 | "June - September" gives [(6, 9)] |
| ClimbingSeason.NovemberToMarch | import_data.py:131-161 | "November-March" gives [(11, 3)]: the wrapping range keeps text order |
| ClimbingSeason.FirstPosOccurs | import_data.py:144-145 | a month's position is where one of its table names occurs |
| ClimbingSeason.MonthPosLetters | import_data.py:144-145 | the three letters at a month's position spell that month |
| Peaks.NameEnd | import_data.py:182 | the greedy `[^:;]+` stops at the first `:`, `;` or end of text |
| Peaks.PeakMatchAt | import_data.py:182 | a match takes at least six characters, and its name is non-empty with no `:` or `;` |
| Peaks.FindAllPeaks | import_data.py:182 | `re.findall` returns matches that lie inside the text from the start index on, each ending at least six characters after the previous one |
| Peaks.PeaksOf | import_data.py:174-186 | a single `peak_elevation` gives one entry; an entry has no name exactly when it comes from `peak_elevation` |
| Peaks.PeaksOfMatches | import_data.py:183-184 | one named peak per match |
| Peaks.ParsePeaks | import_data.py:170-186 | the loop returns what the peak function specifies |
| Peaks.FindAllPeaksBound | import_data.py:182 | `re.findall` finds at most one match per six characters |
| Peaks.FindAllPeaksNames | import_data.py:182 | every name found is non-empty and free of `:` and `;` |
| Peaks.PeaksShape | import_data.py:174-186 | a single peak gives one unnamed entry; no peak field gives none; a list gives one named entry per match |
| Peaks.PeaksOfMatchesNamed | import_data.py:183-184 | the j-th peak comes from the j-th match |
| Peaks.PeakMatchOfNumeral | import_data.py:182 | `name: n` matches as a whole, with the name and the numeral as its groups |
| Peaks.FindAllWhole | import_data.py:182 | a match spanning the whole text is the only match |
| Peaks.PeakRoundTrip | import_data.py:178-184 | `name: n` reads back as the stripped name with elevation `n` |
| SeasonWindow.SeasonBounds | simple_api.py:68-89 | the unbuffered season never ends before it starts, wrapping or not |
| SeasonWindow.MonthStartBeforeEnd | simple_api.py:69-76 | the first of a month comes no later than the last day of the same or a later month |
| SeasonWindow.StartBeforeNextYear | simple_api.py:77-89 | every first of a month in one year comes before every first of a month in the next year |
| SeasonWindow.InSeasonAsWritten | simple_api.py:62-95 | the as-written check, comparing date and time against midnight bounds, never says in season when the day-level check does not |
| SeasonWindow.InSeason | simple_api.py:91-95 | with a non-negative buffer every day of the unbuffered season is in season |
| SeasonWindow.DaysInMonth | simple_api.py:73-76 | a month has 28 to 31 days |
| SeasonWindow.DaysBeforeMonthMonotone | simple_api.py:71-76 | day counts before a month never decrease through the year |
| SeasonWindow.DaysInYear | simple_api.py:74 | a year has 366 days in a leap year and 365 otherwise |
| SeasonWindow.NewYear | simple_api.py:77-89 | in day numbers, 1 January of the next year is one day after 31 December, the step a season that crosses the new year spans |
| SeasonWindow.MonthEndIsLastDay | simple_api.py:73-76 | the day before the first of the next month is the month's last day |
| SeasonWindow.SeasonBoundsAreMonthEdges | simple_api.py:69-89 | the season starts on the first of the start month and ends on the last of the end month, in the years the code picks |
| SeasonWindow.BufferMonotone | simple_api.py:92-95 | a wider buffer never takes a date out of season |
| SeasonWindow.OrdinalWithinYear | simple_api.py:65-66 | a valid date lies between 1 January and 31 December of its year |
| SeasonWindow.InSeasonDuringSeasonMonths | simple_api.py:69-95 | any date in a month of a non-wrapping season is in season |
| SeasonWindow.YearRoundAlwaysInSeason | simple_api.py:69-95 | the season (1, 12) holds on every date |
| SeasonWindow.InSeasonDuringWrappedMonths | simple_api.py:77-95 | any date in a month of a season that crosses the new year is in season |
| SeasonWindow.AsWrittenAgreesOffLastDay | simple_api.py:92-95 | the as-written check and the corrected check agree except after midnight on the last buffered day |
| SeasonWindow.InSeasonLeadIn | simple_api.py:62-95 | a date at most the buffer before the first of the start month of a non-wrapping season, in the same year, is in season |
| SeasonWindow.InSeasonTail | simple_api.py:62-95 | a date at most the buffer after the last day of the end month, in the same year, is in season, for a non-wrapping season and for a wrapping one before its start month comes round |
| SeasonWindow.WrappedLeadInMissed | simple_api.py:77-95 | on 20 October, 12 days before 1 November, the season (11, 3) with buffer 15 is out of season as written and in season under the corrected check |
| SeasonWindow.NewYearLeadInMissed | simple_api.py:69-76 | on 20 December, 12 days before 1 January, the season (1, 3) with buffer 15 is out of season as written and in season under the corrected check |
| SeasonWindow.NewYearTailMissed | simple_api.py:69-76 | on 10 January, 10 days after 31 December, the season (6, 12) with buffer 15 is out of season as written and in season under the corrected check |
| SeasonWindow.SeasonFrom | simple_api.py:69-89 | the season starting in a given year, wrapping or not, never ends before it starts |
| SeasonWindow.SeasonBoundsChooseYear | simple_api.py:69-89 | the source's bounds are those of the season starting this year, or last year for a wrapping season before its start month |
| SeasonWindow.InSeasonWithinAnyYear | simple_api.py:62-95 | the corrected check keeps every date the source has in season |
| SeasonWindow.AnyYearLeadIn | simple_api.py:63-64 | corrected check: a date at most the buffer before the next first of the start month, this year or next, is in season |
| SeasonWindow.AnyYearTail | simple_api.py:63-64 | corrected check: a date at most the buffer after the last day of the end month, this year or last, is in season |
| SeasonWindow.AsWrittenDropsLastBufferedDay | simple_api.py:63-95 | at noon on the last buffered day the as-written check says out of season, the corrected check in season |
| HikesQuery.PieceText | simple_api.py:148-239 | a query piece renders with a `?` iff it is a parameter placeholder |
| HikesQuery.RenderPlaceholders | simple_api.py:241 | the rendered query holds exactly as many `?` as there are bound parameters |
| HikesQuery.JoinAndBindings | simple_api.py:220 | joining conditions with AND binds the conditions' parameters in order |
| HikesQuery.Compare | simple_api.py:149-186 | a comparison condition binds exactly its one value |
| HikesQuery.SearchCondition | simple_api.py:194-197 | the search condition binds the search term twice |
| HikesQuery.SomeConditionIffFilter | simple_api.py:148-219 | some WHERE condition exists iff some bound, flag or non-empty search is given |
| HikesQuery.AddCondition | simple_api.py:149-150 | a condition and its values are appended together, keeping conditions and parameters paired |
| HikesQuery.AddBound | simple_api.py:148-186 | an optional bound appends its column compared to a placeholder, and its value, when given, and nothing otherwise |
| HikesQuery.AddFirstBounds | simple_api.py:148-166 | the difficulty, distance and maximum-time bounds append their conditions and values in source order |
| HikesQuery.AddFlag | simple_api.py:188-192 | a flag appends one parameter-free condition when set |
| HikesQuery.WhereValuesCount | simple_api.py:148-197 | one parameter per given bound plus two for a search |
| HikesQuery.AddBounds | simple_api.py:148-186 | the ten bounds append their conditions and values in source order |
| HikesQuery.BuildWhere | simple_api.py:145-197 | one condition per active filter and the parameter list in source order, paired |
| HikesQuery.SelectHead | simple_api.py:200-215 | the select head binds Denver's latitude, longitude and latitude and holds no clause keyword |
| HikesQuery.SelectHeadBalanced | simple_api.py:201-213 | the rendered select head's parentheses balance: ROUND, ACOS, both COS, SIN and every RADIANS are closed, and no `)` closes nothing |
| HikesQuery.SelectHeadNesting | simple_api.py:201-213 | read from any nesting depth, the select head ends at that depth and never closes more than it opened |
| HikesQuery.SelectCosLatDepth | simple_api.py:201-207 | the text before the first placeholder leaves ROUND, ACOS, COS and RADIANS open |
| HikesQuery.CosLonDepth | simple_api.py:207-208 | between the Denver latitude and longitude the text closes as many parentheses as it opens |
| HikesQuery.SinLatDepth | simple_api.py:208-209 | between the Denver longitude and the second latitude the text closes as many parentheses as it opens |
| HikesQuery.FromJoinDepth | simple_api.py:209-215 | after the last placeholder the text closes the four open parentheses and no more |
| HikesQuery.ClauseBindings | simple_api.py:219-234 | a clause binds its conditions' parameters |
| HikesQuery.ClauseKeywords | simple_api.py:219-234 | a clause holds its keyword iff it has conditions |
| HikesQuery.HavingValues | simple_api.py:223-230 | one parameter per Denver bound given |
| HikesQuery.BuildHaving | simple_api.py:224-230 | the HAVING conditions and their parameters, paired, in source order |
| HikesQuery.AddGroupAndHaving | simple_api.py:222-236 | GROUP BY is appended whatever the filters; HAVING conditions exist exactly when a Denver bound is given, and their values are the HAVING values in source order |
| HikesQuery.AppendClause | simple_api.py:219-220 | the clause is appended to the query |
| HikesQuery.BuildHikesQuery | simple_api.py:144-239 | the query's placeholders bind exactly the parameter list; the list is the Denver coordinates, then the WHERE values, then the HAVING values; GROUP BY occurs once; HAVING iff a Denver bound is given; WHERE iff some filter is given |
| HikesQuery.QueryFacts | simple_api.py:217-239 | the assembled query has the bindings and keyword properties `BuildHikesQuery` promises |
| HikesQuery.QueryBindings | simple_api.py:217-230 | the parameters of the assembled query are the head's, then the WHERE ones, then the HAVING ones |
| HikesQuery.QueryKeywords | simple_api.py:219-236 | GROUP BY once, HAVING iff HAVING conditions, WHERE iff WHERE conditions |
| SeasonResults.SeasonsForMembers | simple_api.py:256-264 | a hike's seasons are exactly the seasons of its rows |
| SeasonResults.SeasonsForInFetchOrder | simple_api.py:256-264 | a hike's seasons keep the order in which they were fetched |
| SeasonResults.SeasonsForAbsent | simple_api.py:277 | a hike without season rows has no seasons |
| SeasonResults.GroupedStep | simple_api.py:258-264 | appending one row extends that row's hike's list and no other |
| SeasonResults.GroupedValid | simple_api.py:256-264 | the grouped seasons have valid months when the rows do |
| SeasonResults.GroupSeasons | simple_api.py:248-264 | no hikes gives the empty map; otherwise the loop builds one list per hike, as the grouping function specifies |
| SeasonResults.AnyInSeason | simple_api.py:279-284 | the loop with `break` sets the flag iff some season of the hike is open today |
| SeasonResults.AssembleResults | simple_api.py:266-288 | the loop returns what the results function specifies |
| SeasonResults.AttachSeasons | simple_api.py:244-290 | grouping followed by the result loop gives the specified results |
| SeasonResults.ResultsInFetchOrder | simple_api.py:266-288 | the returned hikes are fetched rows, in fetch order |
| SeasonResults.ResultsDescribeRows | simple_api.py:274-283 | each returned hike carries its own seasons (empty by default) and is flagged iff one of them is open |
| SeasonResults.UnfilteredKeepsAll | simple_api.py:286-287 | without `in_season_only` every fetched hike is returned in place |
| SeasonResults.FilterKeepsInSeason | simple_api.py:286-287 | with `in_season_only` a hike is returned exactly when it is in season |
| SeasonResults.NoSeasonsDropped | simple_api.py:276-287 | a hike without season rows is never in season, so `in_season_only` drops it |
| Sorting.LessTotalOrder | summit-hikes-app/src/App.jsx:144-150 | the comparator's order on keys is a strict total order, with the missing value lowest |
| Sorting.BeforeSplits | summit-hikes-app/src/App.jsx:148-149 | if a must precede c, then a precedes b or b precedes c, for every b |
| Sorting.SortBy | summit-hikes-app/src/App.jsx:139-151 | the sorted list is a permutation of the input |
| Sorting.SortByIsSorted | summit-hikes-app/src/App.jsx:139-151 | the sorted list is ordered by the key in the chosen direction |
| Sorting.InsertWithKey | summit-hikes-app/src/App.jsx:139-151 | inserting one element leaves the order of the elements with any one key unchanged, adding the new one in front of those with its key |
| Sorting.SortByStable | summit-hikes-app/src/App.jsx:139-151 | sorting keeps the elements that share a key in their input order |
| Sorting.SortBySortedIsIdentity | summit-hikes-app/src/App.jsx:139-151 | a stable sort leaves an already sorted list unchanged |
| Sorting.SortByIdempotent | summit-hikes-app/src/App.jsx:139-151 | sorting twice is sorting once |
| Subsequences.SubsequenceBounds | summit-hikes-app/src/App.jsx:63 | a filtered list is never longer and holds only elements of the original |
| HikeFilter.Passes | summit-hikes-app/src/App.jsx:62-134 | the filter callback: the conjunction of the search, range, class, crowd, flag and Denver criteria (a definition; its properties are the lemmas below) |
| HikeFilter.GetFilteredHikes | summit-hikes-app/src/App.jsx:62-135 | a hike is kept iff it passes every criterion, each passing hike as many times as it is loaded, and the kept hikes keep their order |
| HikeFilter.KeptHikesWithinRanges | summit-hikes-app/src/App.jsx:74-113 | every kept hike lies inside the difficulty, distance and elevation-gain ranges, under the crowd limit, and at 14000 or more with fourteeners only |
| HikeFilter.TimeOverlapIsInclusive | summit-hikes-app/src/App.jsx:92-95 | the time filter keeps a hike iff its span meets the range, touching ends included |
| HikeFilter.InactiveCriteriaPassEverything | summit-hikes-app/src/App.jsx:65-126 | an empty search, no class selected, and a null or zero Denver distance restrict nothing |
| HikeFilter.ClassSelectionUsesIntegerPart | summit-hikes-app/src/App.jsx:98-103 | a selected class admits exactly the hikes whose class rounds down to it |
| HikeFilter.DefaultFiltersKeepTypicalHikes | summit-hikes-app/src/App.jsx:17-135 | the default filters keep every hike whose values lie inside the default ranges |
| HikeFilter.GetSortedHikes | summit-hikes-app/src/App.jsx:138-152 | the display order is a permutation of the filtered list, sorted by the key with missing values as the lowest key |
| HikeFilter.GetSortedHikesIdempotent | summit-hikes-app/src/App.jsx:138-152 | sorting again with the same settings changes nothing |
| HikeFilter.MissingDistanceSortsFirst | summit-hikes-app/src/App.jsx:144-148 | in ascending Denver-distance order no hike without a distance follows one with a distance |
| HikeFilter.DifficultyScenario | summit-hikes-app/src/App.jsx:74-77 | ratings 2, 5 and 9 under the range 3 to 8 leave only the rating-5 hike |
| HikeFilter.NumberSortAscendingScenario | summit-hikes-app/src/App.jsx:138-152 | numbers 3, 1, 2 sort to 1, 2, 3 ascending |
| HikeFilter.NumberSortDescendingScenario | summit-hikes-app/src/App.jsx:138-152 | numbers 3, 1, 2 sort to 3, 2, 1 descending |
| AppState.Without | summit-hikes-app/src/App.jsx:186 | `filter(c => c !== x)` keeps exactly the other elements, in order, without creating duplicates |
| AppState.ToggleClass | summit-hikes-app/src/App.jsx:183-191 | the toggled class flips membership, every other class keeps it, and a new class is appended |
| AppState.ToggleClassTwice | summit-hikes-app/src/App.jsx:183-191 | toggling twice restores the selection as a set, and gives back the same list when the class was absent |
| AppState.NextSort | summit-hikes-app/src/App.jsx:209-217 | the current key flips the direction; another key becomes the key, ascending |
| AppState.NextSortTwiceRestores | summit-hikes-app/src/App.jsx:209-213 | choosing the current key twice restores the state and the displayed order |
| AppState.NewKeyStartsAscending | summit-hikes-app/src/App.jsx:214-216 | switching to another key and back starts ascending again |
| AppState.App.FilteredCount | summit-hikes-app/src/App.jsx:302 | the filtered count never exceeds the number of loaded hikes |
| AppState.App.DisplayHikes | summit-hikes-app/src/App.jsx:155-156 | the displayed hikes are the filtered hikes reordered: exactly the loaded hikes that pass the filters, sorted by the chosen key in the chosen direction |
| AppState.App.constructor | summit-hikes-app/src/App.jsx:12-31 | the initial state: no hikes, the default filters, number ascending |
| AppState.App.SetAllHikes | summit-hikes-app/src/App.jsx:52 | a load replaces the hikes and nothing else |
| AppState.App.HandleSearchChange | summit-hikes-app/src/App.jsx:159-161 | only the search term changes |
| AppState.App.HandleRangeChange | summit-hikes-app/src/App.jsx:163-181 | only the chosen range changes |
| AppState.App.EditRange | summit-hikes-app/src/components/FilterControls.jsx:27-99 | a typed bound is applied only when it keeps the range ordered; other ranges, the search, classes, crowd limit, the three flags, the hikes and the sort stay |
| AppState.App.HandleClassToggle | summit-hikes-app/src/App.jsx:183-191 | only the class selection changes, by the toggle |
| AppState.App.HandleCrowdLevelChange | summit-hikes-app/src/App.jsx:193-195 | only the crowd limit changes |
| AppState.App.HandleFourteenersToggle | summit-hikes-app/src/App.jsx:197-199 | only the fourteeners flag flips |
| AppState.App.HandleOvernightToggle | summit-hikes-app/src/App.jsx:201-203 | only the overnight flag flips |
| AppState.App.HandleInSeasonToggle | summit-hikes-app/src/App.jsx:205-207 | only the in-season flag flips |
| AppState.App.HandleSortChange | summit-hikes-app/src/App.jsx:209-217 | only the sort state changes, as the next-sort rule specifies |
| AppState.App.HandleResetFilters | summit-hikes-app/src/App.jsx:219-231 | every filter returns to its default; the hikes and the sort stay |
| AppState.SortButtonTwice | summit-hikes-app/src/App.jsx:209-213 | clicking the current key twice shows the same list as before |
| FilterControls.EditMin | summit-hikes-app/src/components/FilterControls.jsx:27-32 | a new minimum is forwarded iff it is at most the maximum, and then only the minimum changes |
| FilterControls.EditMax | summit-hikes-app/src/components/FilterControls.jsx:34-39 | a new maximum is forwarded iff it is at least the minimum, and then only the maximum changes |
| FilterControls.EditsKeepRangeOrdered | summit-hikes-app/src/components/FilterControls.jsx:27-99 | an ordered range stays ordered after any edit |
| FilterControls.EditsChangeOneEnd | summit-hikes-app/src/components/FilterControls.jsx:27-99 | an edit changes only its own end, and a rejected edit changes nothing |
| FilterControls.CrowdLevelChoices | summit-hikes-app/src/components/FilterControls.jsx:273-277 | the crowd selector offers exactly the levels 1 to 5 |
| HikeCard.DifficultyColor | summit-hikes-app/src/components/HikeCard.jsx:10-15 | the band is one step harder for each of the thresholds 3, 6 and 8 that the rating exceeds |
| HikeCard.DifficultyMonotone | summit-hikes-app/src/components/HikeCard.jsx:10-15 | a higher rating never gets an easier band |
| HikeCard.EveryBandReached | summit-hikes-app/src/components/HikeCard.jsx:10-15 | every band is reached by some rating from 1 to 10 |
| HikeCard.CrowdLabel | summit-hikes-app/src/components/HikeCard.jsx:18-21 | levels 1 to 5 get their label; any other level, 0 included, gets `Unknown`; the label is never empty |
| HikeCard.CrowdLabelsDistinct | summit-hikes-app/src/components/HikeCard.jsx:19 | the five levels have five different labels, none of them `Unknown` |
| Scatter.ChartSize | summit-hikes-app/src/components/VisualizationPage.jsx:7-12 | the plotting area plus the margins is the drawing size |
| Scatter.InitialChartSize | summit-hikes-app/src/components/VisualizationPage.jsx:7-12 | the initial plotting area is 700 by 520 |
| Scatter.ValidHikes | summit-hikes-app/src/components/VisualizationPage.jsx:29-31 | a hike is plotted iff both of its axis values are non-null, as many times as it occurs, in the original order |
| Scatter.MissingDenverDistance | summit-hikes-app/src/components/VisualizationPage.jsx:29-31 | a hike without a Denver distance is dropped iff that field is on an axis |
| Scatter.Values | summit-hikes-app/src/components/VisualizationPage.jsx:35 | the i-th value is the field of the i-th valid hike |
| Scatter.Min | summit-hikes-app/src/components/VisualizationPage.jsx:36 | `Math.min` is a value of the list and below all others |
| Scatter.Max | summit-hikes-app/src/components/VisualizationPage.jsx:37 | `Math.max` is a value of the list and above all others |
| Scatter.GetScale | summit-hikes-app/src/components/VisualizationPage.jsx:34-49 | the domain covers every value, with 5% of the data range as padding on each side |
| Scatter.Project | summit-hikes-app/src/components/VisualizationPage.jsx:44-47 | the scale closure: position along the padded domain, scaled to the chart width on x and inverted on y (a definition; its properties are the three lemmas below) |
| Scatter.ProjectDomainEnds | summit-hikes-app/src/components/VisualizationPage.jsx:44-47 | the domain ends project to the two ends of the axis, with the y axis inverted |
| Scatter.ProjectDataMin | summit-hikes-app/src/components/VisualizationPage.jsx:44-47 | the data minimum projects one twenty-second of the way along the axis |
| Scatter.ProjectMonotone | summit-hikes-app/src/components/VisualizationPage.jsx:44-47 | projection is increasing on x and decreasing on y |
| Scatter.GenerateTicks | summit-hikes-app/src/components/VisualizationPage.jsx:55-66 | six evenly spaced ticks from the domain's lower to its upper end, each at its projected position, in axis order |
| Regression.PointOf | summit-hikes-app/src/components/VisualizationPage.jsx:76-79 | a point is the hike's x and y field values |
| Regression.PointsOf | summit-hikes-app/src/components/VisualizationPage.jsx:76-80 | one point per valid hike, in order |
| Regression.LinearRegression | summit-hikes-app/src/components/VisualizationPage.jsx:72-96 | no fit below two points; otherwise R² ≥ 0, R² = 0 when all y are equal, and the intercept satisfies n·b = Σy − slope·Σx |
| Regression.Intercept | summit-hikes-app/src/components/VisualizationPage.jsx:83 | n·intercept = Σy − slope·Σx |
| Regression.RSquared | summit-hikes-app/src/components/VisualizationPage.jsx:86-95 | R² is never negative, and is 0 when the total sum of squares is 0 |
| Regression.CalculateLinearRegression | summit-hikes-app/src/components/VisualizationPage.jsx:72-98 | a fit exists iff there are two valid hikes, and its R² is never negative |
| Regression.ZeroTotalSumSquares | summit-hikes-app/src/components/VisualizationPage.jsx:87 | the total sum of squares is non-negative, and 0 iff every y equals the mean |
| Regression.EqualXZeroDenominator | summit-hikes-app/src/components/VisualizationPage.jsx:82 | with all x equal the slope's denominator is 0 |
| Regression.CollinearFit | summit-hikes-app/src/components/VisualizationPage.jsx:72-96 | points on y = a·x + b with distinct x give back slope a and intercept b, with R² = 1 when a ≠ 0 |
| Regression.CollinearRSquared | summit-hikes-app/src/components/VisualizationPage.jsx:86-95 | on a line R² is 1 when the line is not flat and 0 when it is |
| Regression.DoublingScenario | summit-hikes-app/src/components/VisualizationPage.jsx:72-96 | (1,2), (2,4), (3,6) give slope 2, intercept 0 and R² = 1 |

## Left out

- The HTTP layer, the SQLite database, the JSON file reading and the inserts of `import_hikes` are left out. The parsers are modelled on the strings those steps pass in.
- The detail and statistics endpoints (`get_hike`, `get_stats`) are not part of this model.
- The distance of a hike from Denver is left out, both the Haversine function and the SQL expression. The model carries it as an optional number the hike already holds.
- Floating-point arithmetic is modelled with exact reals. Rounding to one decimal or to two decimals for tick labels is left out, and so are NaN and infinities.
- The clock is a parameter. `datetime.now()` becomes a date, and in the as-written season check a time of day.
- The database's row order is a parameter. The season rows and hike rows are taken in the order they arrive.
- Regular expressions are hand-written scanners for each pattern, with ASCII digit and whitespace classes. Lower-casing covers ASCII letters only.
- JavaScript's loose comparison between a number and the empty string is left out. Sort keys compare a missing value below everything; numbers compare with numbers and texts with texts.
- The query's SQL text is rendered from a structured form. Its exact whitespace is not modelled; the order of its clauses and of its placeholders is.
- `sort_by`, `sort_order`, `limit` and `offset` are modelled as typed values. FastAPI's validation of the query string is therefore not modelled.
- Chart drawing, the card layout, the search bar and the loading state are left out. So are `toLocaleString` and the client's `fetch` wrapper.
- Scatter.Project: requires a non-zero domain width, because the component divides by it unguarded.
- Scatter.GetScale: requires at least one value, because `Math.min` and `Math.max` of an empty list give infinities, which the model's reals do not have.
- Scatter.GenerateTicks: requires a positive domain width, because with a zero width every tick projects by a division by zero.
- Regression.LinearRegression: requires a non-zero slope denominator for two or more points, because the component divides by it unguarded.
- SeasonResults.Open: uses the corrected season check `SeasonWindow.InSeasonAnyYear`, not the as-written one. It differs from the source's `is_in_season`, which `get_hikes` calls at simple_api.py:282, in two ways:
  - the source's comparison at line 95 reports `False` after midnight on the last buffered day, for example at 12:00; the as-written behaviour is `SeasonWindow.InSeasonAsWritten`;
  - the source picks the year of the season from today's date alone (lines 69-89), so its buffer does not reach across New Year and a season that wraps past December has no lead-in; the as-written behaviour is `SeasonWindow.InSeason`.
  In both cases the model flags the hike in season and keeps it under `in_season_only`, where the source drops it.
- SeasonWindow.InSeasonAnyYear: tries the seasons that start last year, this year and next year. With a buffer longer than a month, a buffered season two years away could also reach today; that case is not modelled.
- Sorting.StrLess: compares characters by code point, where JavaScript's `<` on strings compares UTF-16 code units. The two orders differ only for characters outside the Basic Multilingual Plane, such as emoji.
- SeasonResults.AnyInSeason: requires every season's months to lie in 1..12, because `datetime` raises for any other month.
- HikesQuery.BuildHikesQuery: states the placeholders and their parameters on the structured query. The count of `?` in the rendered text is stated once for every query by HikesQuery.RenderPlaceholders.

## Findings

| source | as written | input that shows it | evidently intended | confidence | as-written member | corrected member |
|---|---|---|---|---|---|---|
| simple_api.py:63-95 | `datetime.now()`, with its time of day, is compared against buffered season bounds at midnight, so the last buffered day counts only at 00:00:00 | season June to September with the default 15-day buffer, checked at 12:00 on 15 October | every day from the buffered start to the buffered end, inclusive, is in season | not executed | SeasonWindow.AsWrittenDropsLastBufferedDay | SeasonWindow.InSeason |
| simple_api.py:62-95 | the year of the season's bounds comes from today's date alone, so the buffer never reaches across New Year, and a season that wraps past December has no lead-in at all | buffer 15: season (11, 3) on 20 October; season (1, 3) on 20 December; season (6, 12) on 10 January | as the docstring at lines 63-64 says, a date within the buffer before the season's next start or after its last end is in season | not executed | SeasonWindow.WrappedLeadInMissed | SeasonWindow.InSeasonAnyYear |
