/**
 * `is_in_season` of the API server: whether the current date falls inside a
 * climbing season given as a start month and an end month, widened by a
 * buffer of days at both ends. Dates are proleptic Gregorian calendar days
 * numbered as Python's `date.toordinal()` numbers them; the current date is
 * a parameter.
 */
module SeasonWindow {

  datatype Date = Date(year: int, month: int, day: int)

  predicate IsLeapYear(y: int) {
    y % 4 == 0 && (y % 100 != 0 || y % 400 == 0)
  }

  function DaysInMonth(y: int, m: int): (n: int)
    requires 1 <= m <= 12
    ensures 28 <= n <= 31
  {
    if m == 2 then (if IsLeapYear(y) then 29 else 28)
    else if m == 4 || m == 6 || m == 9 || m == 11 then 30
    else 31
  }

  predicate ValidDate(d: Date) {
    1 <= d.month <= 12 && 1 <= d.day <= DaysInMonth(d.year, d.month)
  }

  /** Days of year `y` that come before month `m` (13 stands for the year's end). */
  function DaysBeforeMonth(y: int, m: int): int
    requires 1 <= m <= 13
    decreases m
  {
    if m == 1 then 0 else DaysBeforeMonth(y, m - 1) + DaysInMonth(y, m - 1)
  }

  /** Days before 1 January of year `y`, counted from 1 January of year 1. */
  function DaysBeforeYear(y: int): int {
    365 * (y - 1) + (y - 1) / 4 - (y - 1) / 100 + (y - 1) / 400
  }

  /** `date.toordinal()`: 1 January of year 1 is day 1. */
  function Ordinal(d: Date): int
    requires 1 <= d.month <= 12
  {
    DaysBeforeYear(d.year) + DaysBeforeMonth(d.year, d.month) + d.day
  }

  /**
   * The last day of month `m` as the source computes it: 31 December for
   * December, otherwise the first of the next month minus one day.
   */
  function MonthEnd(y: int, m: int): int
    requires 1 <= m <= 12
  {
    if m == 12 then Ordinal(Date(y, 12, 31)) else Ordinal(Date(y, m + 1, 1)) - 1
  }

  /**
   * `season_start` and `season_end` before the buffer: a season that wraps
   * past December starts in the current year when the current month has
   * reached the start month, and in the previous year otherwise.
   */
  function SeasonBounds(startMonth: int, endMonth: int, today: Date): (r: (int, int))
    requires 1 <= startMonth <= 12 && 1 <= endMonth <= 12 && 1 <= today.month <= 12
    ensures r.0 <= r.1
  {
    var y := today.year;
    if startMonth <= endMonth then
      MonthStartBeforeEnd(y, startMonth, endMonth);
      (Ordinal(Date(y, startMonth, 1)), MonthEnd(y, endMonth))
    else if today.month >= startMonth then
      StartBeforeNextYear(y, startMonth, endMonth + 1);
      (Ordinal(Date(y, startMonth, 1)), Ordinal(Date(y + 1, endMonth + 1, 1)) - 1)
    else
      StartBeforeNextYear(y - 1, startMonth, endMonth);
      MonthStartBeforeEnd(y, endMonth, endMonth);
      (Ordinal(Date(y - 1, startMonth, 1)), MonthEnd(y, endMonth))
  }

  /** `datetime.now()`: the calendar date and the time of day in microseconds. */
  datatype Now = Now(date: Date, micros: nat)

  const MicrosPerDay: nat := 86_400_000_000

  predicate ValidNow(now: Now) {
    ValidDate(now.date) && now.micros < MicrosPerDay
  }

  /** `datetime` ordering: by day, then by time of day. */
  predicate NotAfter(day1: int, micros1: int, day2: int, micros2: int) {
    day1 < day2 || (day1 == day2 && micros1 <= micros2)
  }

  /**
   * `is_in_season` as written: the buffered bounds are midnights, and they
   * are compared with the current date and time.
   */
  predicate InSeasonAsWritten(startMonth: int, endMonth: int, bufferDays: int, now: Now)
    requires 1 <= startMonth <= 12 && 1 <= endMonth <= 12 && 1 <= now.date.month <= 12
    ensures InSeasonAsWritten(startMonth, endMonth, bufferDays, now) ==> InSeason(startMonth, endMonth, bufferDays, now.date)
  {
    var bounds := SeasonBounds(startMonth, endMonth, now.date);
    var today := Ordinal(now.date);
    NotAfter(bounds.0 - bufferDays, 0, today, now.micros)
    && NotAfter(today, now.micros, bounds.1 + bufferDays, 0)
  }

  /** `is_in_season` as intended: compares calendar days, so both buffered ends are inclusive. */
  predicate InSeason(startMonth: int, endMonth: int, bufferDays: int, today: Date)
    requires 1 <= startMonth <= 12 && 1 <= endMonth <= 12 && 1 <= today.month <= 12
    ensures (bufferDays >= 0
             && SeasonBounds(startMonth, endMonth, today).0 <= Ordinal(today) <= SeasonBounds(startMonth, endMonth, today).1)
      ==> InSeason(startMonth, endMonth, bufferDays, today)
  {
    var bounds := SeasonBounds(startMonth, endMonth, today);
    bounds.0 - bufferDays <= Ordinal(today) <= bounds.1 + bufferDays
  }

  /** The first day of a month comes no later than the last day of the same or a later month. */
  lemma MonthStartBeforeEnd(y: int, m1: int, m2: int)
    requires 1 <= m1 <= m2 <= 12
    ensures Ordinal(Date(y, m1, 1)) <= MonthEnd(y, m2)
  {
    MonthEndIsLastDay(y, m2);
    DaysBeforeMonthMonotone(y, m1, m2);
  }

  /** Every first of a month in year `y` comes before every first of a month in year `y + 1`. */
  lemma StartBeforeNextYear(y: int, m1: int, m2: int)
    requires 1 <= m1 <= 12 && 1 <= m2 <= 12
    ensures Ordinal(Date(y, m1, 1)) < Ordinal(Date(y + 1, m2, 1))
  {
    OrdinalWithinYear(Date(y, m1, 1));
    NewYear(y);
    YearStartFirst(y + 1, m2);
  }

  /** 1 January is the first of the first days of the months of its year. */
  lemma YearStartFirst(y: int, m: int)
    requires 1 <= m <= 12
    ensures Ordinal(Date(y, 1, 1)) <= Ordinal(Date(y, m, 1))
  {
    DaysBeforeMonthMonotone(y, 1, m);
  }

  /** Days before a month never decrease through the year. */
  lemma {:induction false} DaysBeforeMonthMonotone(y: int, m1: int, m2: int)
    requires 1 <= m1 <= m2 <= 13
    ensures DaysBeforeMonth(y, m1) <= DaysBeforeMonth(y, m2)
    decreases m2 - m1
  {
    if m1 < m2 {
      DaysBeforeMonthMonotone(y, m1, m2 - 1);
    }
  }

  /** A year has 366 days when it is a leap year and 365 otherwise. */
  lemma DaysInYear(y: int)
    ensures DaysBeforeMonth(y, 13) == if IsLeapYear(y) then 366 else 365
  {
  }

  /** The day before the first of the next month is the last day of the month. */
  lemma MonthEndIsLastDay(y: int, m: int)
    requires 1 <= m <= 12
    ensures MonthEnd(y, m) == Ordinal(Date(y, m, DaysInMonth(y, m)))
    ensures MonthEnd(y, m) == DaysBeforeYear(y) + DaysBeforeMonth(y, m + 1)
  {
  }

  /**
   * The unbuffered season runs from the first day of the start month to the
   * last day of the end month; a wrapping season is anchored in the current
   * year once the start month is reached and in the previous year before.
   */
  lemma SeasonBoundsAreMonthEdges(startMonth: int, endMonth: int, today: Date)
    requires 1 <= startMonth <= 12 && 1 <= endMonth <= 12 && 1 <= today.month <= 12
    ensures var y := today.year;
      startMonth <= endMonth ==>
        SeasonBounds(startMonth, endMonth, today)
          == (Ordinal(Date(y, startMonth, 1)), Ordinal(Date(y, endMonth, DaysInMonth(y, endMonth))))
    ensures var y := today.year;
      startMonth > endMonth && today.month >= startMonth ==>
        SeasonBounds(startMonth, endMonth, today)
          == (Ordinal(Date(y, startMonth, 1)), Ordinal(Date(y + 1, endMonth, DaysInMonth(y + 1, endMonth))))
    ensures var y := today.year;
      startMonth > endMonth && today.month < startMonth ==>
        SeasonBounds(startMonth, endMonth, today)
          == (Ordinal(Date(y - 1, startMonth, 1)), Ordinal(Date(y, endMonth, DaysInMonth(y, endMonth))))
  {
    MonthEndIsLastDay(today.year, endMonth);
    MonthEndIsLastDay(today.year + 1, endMonth);
  }

  /** A wider buffer never takes a date out of season. */
  lemma BufferMonotone(startMonth: int, endMonth: int, b1: int, b2: int, today: Date)
    requires 1 <= startMonth <= 12 && 1 <= endMonth <= 12 && 1 <= today.month <= 12
    requires b1 <= b2
    ensures InSeason(startMonth, endMonth, b1, today) ==> InSeason(startMonth, endMonth, b2, today)
  {
  }

  /** A valid date lies between 1 January and 31 December of its year. */
  lemma OrdinalWithinYear(d: Date)
    requires ValidDate(d)
    ensures Ordinal(Date(d.year, 1, 1)) <= Ordinal(d) <= Ordinal(Date(d.year, 12, 31))
  {
    DaysBeforeMonthMonotone(d.year, d.month + 1, 13);
  }

  /** A date in a month between the start and end months of a non-wrapping season is in season. */
  lemma InSeasonDuringSeasonMonths(startMonth: int, endMonth: int, bufferDays: int, today: Date)
    requires 1 <= startMonth <= endMonth <= 12 && ValidDate(today) && bufferDays >= 0
    requires startMonth <= today.month <= endMonth
    ensures InSeason(startMonth, endMonth, bufferDays, today)
  {
    DaysBeforeMonthMonotone(today.year, startMonth, today.month);
    DaysBeforeMonthMonotone(today.year, today.month + 1, endMonth + 1);
    MonthEndIsLastDay(today.year, endMonth);
  }

  /** The season (1, 12) holds on every date, whatever non-negative buffer is used. */
  lemma YearRoundAlwaysInSeason(bufferDays: int, today: Date)
    requires ValidDate(today) && bufferDays >= 0
    ensures InSeason(1, 12, bufferDays, today)
  {
    InSeasonDuringSeasonMonths(1, 12, bufferDays, today);
  }

  /** `y / k` exceeds `(y - 1) / k` by one exactly when `y` is a multiple of `k`. */
  lemma DivSteps(y: int)
    ensures y / 4 - (y - 1) / 4 == if y % 4 == 0 then 1 else 0
    ensures y / 100 - (y - 1) / 100 == if y % 100 == 0 then 1 else 0
    ensures y / 400 - (y - 1) / 400 == if y % 400 == 0 then 1 else 0
  {
  }

  /** Year `y` adds one leap day to the count of days before the next year exactly when it is a leap year. */
  lemma LeapSteps(y: int)
    ensures DaysBeforeYear(y + 1) - DaysBeforeYear(y) == if IsLeapYear(y) then 366 else 365
  {
    DivSteps(y);
    DivisorChain(y);
  }

  /** A multiple of 400 is a multiple of 100, and a multiple of 100 a multiple of 4. */
  lemma DivisorChain(y: int)
    ensures y % 400 == 0 ==> y % 100 == 0
    ensures y % 100 == 0 ==> y % 4 == 0
  {
    if y % 400 == 0 {
      CenturyOf400(y);
    }
    if y % 100 == 0 {
      LeapOfCentury(y);
    }
  }

  lemma CenturyOf400(y: int)
    requires y % 400 == 0
    ensures y % 100 == 0
  {
    var q := y / 400;
    assert y == 100 * (4 * q) + 0;
  }

  lemma LeapOfCentury(y: int)
    requires y % 100 == 0
    ensures y % 4 == 0
  {
    var q := y / 100;
    assert y == 4 * (25 * q) + 0;
  }

  /** 1 January of the next year follows 31 December. */
  lemma NewYear(y: int)
    ensures Ordinal(Date(y + 1, 1, 1)) == Ordinal(Date(y, 12, 31)) + 1
  {
    LeapSteps(y);
    DaysInYear(y);
    assert DaysBeforeMonth(y, 13) == DaysBeforeMonth(y, 12) + 31;
  }

  /** A date from the start month to December lies before the wrapped season's end in the next year. */
  lemma BeforeNextYearEnd(endMonth: int, today: Date)
    requires 1 <= endMonth < 12 && ValidDate(today)
    ensures Ordinal(today) <= Ordinal(Date(today.year + 1, endMonth + 1, 1)) - 1
  {
    var y := today.year;
    var newYear := Ordinal(Date(y + 1, 1, 1));
    assert Ordinal(today) < newYear by {
      OrdinalWithinYear(today);
      NewYear(y);
    }
    assert Ordinal(Date(y + 1, endMonth + 1, 1)) - 1 >= newYear by {
      DaysBeforeMonthMonotone(y + 1, 2, endMonth + 1);
      assert DaysBeforeMonth(y + 1, 2) == 31;
    }
  }

  /** The wrapped season that began in the previous year began before this year. */
  lemma AfterLastYearStart(startMonth: int, today: Date)
    requires 1 <= startMonth <= 12 && ValidDate(today)
    ensures Ordinal(Date(today.year - 1, startMonth, 1)) <= Ordinal(today)
  {
    var y := today.year;
    var newYear := Ordinal(Date(y, 1, 1));
    assert Ordinal(Date(y - 1, startMonth, 1)) < newYear by {
      OrdinalWithinYear(Date(y - 1, startMonth, 1));
      NewYear(y - 1);
    }
    assert newYear <= Ordinal(today) by {
      OrdinalWithinYear(today);
    }
  }

  /** From the start month to December, the season started this year and ends next year. */
  lemma WrappedFromStartMonth(startMonth: int, endMonth: int, today: Date)
    requires 1 <= endMonth < startMonth <= today.month <= 12 && ValidDate(today)
    ensures SeasonBounds(startMonth, endMonth, today).0 <= Ordinal(today) <= SeasonBounds(startMonth, endMonth, today).1
  {
    DaysBeforeMonthMonotone(today.year, startMonth, today.month);
    BeforeNextYearEnd(endMonth, today);
  }

  /** From January to the end month, the season started last year and ends this year. */
  lemma WrappedUntilEndMonth(startMonth: int, endMonth: int, today: Date)
    requires 1 <= today.month <= endMonth < startMonth <= 12 && ValidDate(today)
    ensures SeasonBounds(startMonth, endMonth, today).0 <= Ordinal(today) <= SeasonBounds(startMonth, endMonth, today).1
  {
    AfterLastYearStart(startMonth, today);
    UpToMonthEnd(endMonth, today);
  }

  /** A date no later than month `m` of its own year is at most the last day of `m`. */
  lemma UpToMonthEnd(m: int, today: Date)
    requires today.month <= m <= 12 && ValidDate(today)
    ensures Ordinal(today) <= MonthEnd(today.year, m)
  {
    MonthEndIsLastDay(today.year, m);
    DaysBeforeMonthMonotone(today.year, today.month + 1, m + 1);
  }


  /** A date in any month of a wrapping season is in season. */
  lemma InSeasonDuringWrappedMonths(startMonth: int, endMonth: int, bufferDays: int, today: Date)
    requires 1 <= endMonth < startMonth <= 12 && ValidDate(today) && bufferDays >= 0
    requires today.month >= startMonth || today.month <= endMonth
    ensures InSeason(startMonth, endMonth, bufferDays, today)
  {
    if today.month >= startMonth {
      WrappedFromStartMonth(startMonth, endMonth, today);
    } else {
      WrappedUntilEndMonth(startMonth, endMonth, today);
    }
  }

  /**
   * The buffer's lead-in where the source keeps it: a date at most
   * `bufferDays` days before the first of the start month of a non-wrapping
   * season, in the same year, is in season.
   */
  lemma InSeasonLeadIn(startMonth: int, endMonth: int, bufferDays: int, today: Date)
    requires 1 <= startMonth <= endMonth <= 12 && ValidDate(today)
    requires Ordinal(Date(today.year, startMonth, 1)) - bufferDays <= Ordinal(today) <= Ordinal(Date(today.year, startMonth, 1))
    ensures InSeason(startMonth, endMonth, bufferDays, today)
  {
    MonthStartBeforeEnd(today.year, startMonth, endMonth);
  }

  /**
   * The buffer's tail where the source keeps it: a date at most
   * `bufferDays` days after the last day of the end month in the same year
   * is in season, for a non-wrapping season and for a wrapping one before
   * its start month comes round again.
   */
  lemma InSeasonTail(startMonth: int, endMonth: int, bufferDays: int, today: Date)
    requires 1 <= startMonth <= 12 && 1 <= endMonth <= 12 && ValidDate(today)
    requires startMonth <= endMonth || today.month < startMonth
    requires MonthEnd(today.year, endMonth) <= Ordinal(today) <= MonthEnd(today.year, endMonth) + bufferDays
    ensures InSeason(startMonth, endMonth, bufferDays, today)
  {
    if startMonth <= endMonth {
      MonthStartBeforeEnd(today.year, startMonth, endMonth);
    } else {
      AfterLastYearStart(startMonth, today);
    }
  }

  /**
   * The source as written: a season that wraps past December has no
   * lead-in. On 20 October the season (11, 3) is taken to be the one that
   * began the November before, so the hike is out of season, though
   * 1 November is 12 days away; the corrected check has it in season.
   */
  lemma WrappedLeadInMissed(y: int)
    ensures Ordinal(Date(y, 11, 1)) - Ordinal(Date(y, 10, 20)) == 12
    ensures !InSeason(11, 3, 15, Date(y, 10, 20))
    ensures InSeasonAnyYear(11, 3, 15, Date(y, 10, 20))
  {
    AnyYearLeadIn(11, 3, 15, Date(y, 10, 20), y);
  }

  /**
   * The source as written: the lead-in of a season that starts in January
   * is lost across New Year. On 20 December the season (1, 3) is taken in
   * the current year, which is long past, though 1 January is 12 days away.
   */
  lemma NewYearLeadInMissed(y: int)
    ensures Ordinal(Date(y + 1, 1, 1)) - Ordinal(Date(y, 12, 20)) == 12
    ensures !InSeason(1, 3, 15, Date(y, 12, 20))
    ensures InSeasonAnyYear(1, 3, 15, Date(y, 12, 20))
  {
    NewYear(y);
    AnyYearLeadIn(1, 3, 15, Date(y, 12, 20), y + 1);
  }

  /**
   * The source as written: the tail of a season that ends in December is
   * lost across New Year. On 10 January the season (6, 12) is taken in the
   * current year, which has not begun, though the last season ended 10 days
   * before.
   */
  lemma NewYearTailMissed(y: int)
    ensures Ordinal(Date(y, 1, 10)) - Ordinal(Date(y - 1, 12, 31)) == 10
    ensures !InSeason(6, 12, 15, Date(y, 1, 10))
    ensures InSeasonAnyYear(6, 12, 15, Date(y, 1, 10))
  {
    NewYear(y - 1);
    AnyYearTail(6, 12, 15, Date(y, 1, 10), y - 1);
  }

  /**
   * The season that starts in `year`: from the first of the start month to
   * the last day of the end month, in the next year when the season wraps
   * past December.
   */
  function SeasonFrom(startMonth: int, endMonth: int, year: int): (r: (int, int))
    requires 1 <= startMonth <= 12 && 1 <= endMonth <= 12
    ensures r.0 <= r.1
  {
    if startMonth <= endMonth then
      MonthStartBeforeEnd(year, startMonth, endMonth);
      (Ordinal(Date(year, startMonth, 1)), MonthEnd(year, endMonth))
    else
      StartBeforeNextYear(year, startMonth, endMonth);
      MonthStartBeforeEnd(year + 1, endMonth, endMonth);
      (Ordinal(Date(year, startMonth, 1)), MonthEnd(year + 1, endMonth))
  }

  /** `today` lies within the season that starts in `year`, widened by the buffer. */
  predicate NearSeasonFrom(startMonth: int, endMonth: int, bufferDays: int, today: Date, year: int)
    requires 1 <= startMonth <= 12 && 1 <= endMonth <= 12 && 1 <= today.month <= 12
  {
    var bounds := SeasonFrom(startMonth, endMonth, year);
    bounds.0 - bufferDays <= Ordinal(today) <= bounds.1 + bufferDays
  }

  /**
   * `is_in_season` as its docstring promises: the buffered season that
   * started last year, this year or next year contains today, so the buffer
   * reaches across New Year.
   */
  predicate InSeasonAnyYear(startMonth: int, endMonth: int, bufferDays: int, today: Date)
    requires 1 <= startMonth <= 12 && 1 <= endMonth <= 12 && 1 <= today.month <= 12
  {
    NearSeasonFrom(startMonth, endMonth, bufferDays, today, today.year - 1)
    || NearSeasonFrom(startMonth, endMonth, bufferDays, today, today.year)
    || NearSeasonFrom(startMonth, endMonth, bufferDays, today, today.year + 1)
  }

  /** The source's bounds are those of the season starting in the year it picks. */
  lemma SeasonBoundsChooseYear(startMonth: int, endMonth: int, today: Date)
    requires 1 <= startMonth <= 12 && 1 <= endMonth <= 12 && 1 <= today.month <= 12
    ensures startMonth <= endMonth || today.month >= startMonth ==>
      SeasonBounds(startMonth, endMonth, today) == SeasonFrom(startMonth, endMonth, today.year)
    ensures startMonth > endMonth && today.month < startMonth ==>
      SeasonBounds(startMonth, endMonth, today) == SeasonFrom(startMonth, endMonth, today.year - 1)
  {
  }

  /** The corrected check only adds dates: whatever the source has in season stays in season. */
  lemma InSeasonWithinAnyYear(startMonth: int, endMonth: int, bufferDays: int, today: Date)
    requires 1 <= startMonth <= 12 && 1 <= endMonth <= 12 && 1 <= today.month <= 12
    ensures InSeason(startMonth, endMonth, bufferDays, today) ==> InSeasonAnyYear(startMonth, endMonth, bufferDays, today)
  {
    SeasonBoundsChooseYear(startMonth, endMonth, today);
  }

  /**
   * The lead-in, across New Year too: a date at most `bufferDays` days
   * before the next first of the start month, this year or next, is in
   * season.
   */
  lemma AnyYearLeadIn(startMonth: int, endMonth: int, bufferDays: int, today: Date, year: int)
    requires 1 <= startMonth <= 12 && 1 <= endMonth <= 12 && ValidDate(today)
    requires year == today.year || year == today.year + 1
    requires Ordinal(Date(year, startMonth, 1)) - bufferDays <= Ordinal(today) <= Ordinal(Date(year, startMonth, 1))
    ensures InSeasonAnyYear(startMonth, endMonth, bufferDays, today)
  {
    assert NearSeasonFrom(startMonth, endMonth, bufferDays, today, year);
  }

  /**
   * The tail, across New Year too: a date at most `bufferDays` days after
   * the last day of the end month, this year or (for a season that does
   * not wrap) last year, is in season.
   */
  lemma AnyYearTail(startMonth: int, endMonth: int, bufferDays: int, today: Date, year: int)
    requires 1 <= startMonth <= 12 && 1 <= endMonth <= 12 && ValidDate(today)
    requires year == today.year || (year == today.year - 1 && startMonth <= endMonth)
    requires MonthEnd(year, endMonth) <= Ordinal(today) <= MonthEnd(year, endMonth) + bufferDays
    ensures InSeasonAnyYear(startMonth, endMonth, bufferDays, today)
  {
    var first := if startMonth <= endMonth then year else year - 1;
    assert SeasonFrom(startMonth, endMonth, first).1 == MonthEnd(year, endMonth);
    assert NearSeasonFrom(startMonth, endMonth, bufferDays, today, first);
  }

  /** On every day but the last buffered day, and at midnight on any day, both readings agree. */
  lemma AsWrittenAgreesOffLastDay(startMonth: int, endMonth: int, bufferDays: int, now: Now)
    requires 1 <= startMonth <= 12 && 1 <= endMonth <= 12 && ValidNow(now)
    ensures Ordinal(now.date) != SeasonBounds(startMonth, endMonth, now.date).1 + bufferDays || now.micros == 0 ==>
      (InSeasonAsWritten(startMonth, endMonth, bufferDays, now) <==> InSeason(startMonth, endMonth, bufferDays, now.date))
  {
  }

  /**
   * The source as written: on the last buffered day, any moment after
   * midnight is reported out of season. For the summer season (6, 9) with
   * the default buffer of 15 days, noon on 15 October is such a moment,
   * though that day is the last day of the buffered season.
   */
  lemma AsWrittenDropsLastBufferedDay(y: int)
    ensures var now := Now(Date(y, 10, 15), 43_200_000_000);
      ValidNow(now) && !InSeasonAsWritten(6, 9, 15, now) && InSeason(6, 9, 15, now.date)
  {
    var today := Date(y, 10, 15);
    assert Ordinal(today) == Ordinal(Date(y, 10, 1)) + 14;
    assert SeasonBounds(6, 9, today).1 == Ordinal(Date(y, 10, 1)) - 1;
  }
}
