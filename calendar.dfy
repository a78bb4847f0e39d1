/**
  Dates and clock times as the service sees them: Python `date` values in the
  proleptic Gregorian calendar and `time` values of the day, kept at minute
  resolution. Date comparison is the lexicographic comparison Python applies to
  (year, month, day); `Ordinal` is `date.toordinal()` and `IsoWeekday` is
  `date.isoweekday()` (equal to `date.weekday() + 1`, 1 = Monday .. 7 = Sunday).
*/
module Calendar {

  datatype Ymd = Ymd(year: int, month: int, day: int)

  predicate IsLeapYear(y: int) {
    y % 4 == 0 && (y % 100 != 0 || y % 400 == 0)
  }

  function DaysInYear(y: int): int {
    if IsLeapYear(y) then 366 else 365
  }

  function DaysInMonth(y: int, m: int): (n: int)
    requires 1 <= m <= 12
    ensures 28 <= n <= 31
    ensures n == 29 <==> m == 2 && IsLeapYear(y)
  {
    if m == 2 then (if IsLeapYear(y) then 29 else 28)
    else if m == 4 || m == 6 || m == 9 || m == 11 then 30
    else 31
  }

  /** A calendar day Python's `date` accepts: years 1..9999 (MINYEAR..MAXYEAR). */
  predicate IsValidDate(d: Ymd) {
    1 <= d.year <= 9999 && 1 <= d.month <= 12 && 1 <= d.day <= DaysInMonth(d.year, d.month)
  }

  type Date = d: Ymd | IsValidDate(d) witness Ymd(1, 1, 1)

  /** A time of day, in minutes since midnight (00:00 .. 23:59). */
  type Time = m: int | 0 <= m < 1440

  /** `a < b` on dates: Python compares the (year, month, day) tuples. */
  predicate Before(a: Date, b: Date) {
    a.year < b.year
    || (a.year == b.year && a.month < b.month)
    || (a.year == b.year && a.month == b.month && a.day < b.day)
  }

  /** `a <= b` on dates. */
  predicate AtOrBefore(a: Date, b: Date) {
    a == b || Before(a, b)
  }

  /** Days in all the years before year `y` (January 1 of year 1 is day 1). */
  function DaysBeforeYear(y: int): (n: int)
    requires y >= 1
    ensures n >= 0
  {
    var p := y - 1;
    p * 365 + p / 4 - p / 100 + p / 400
  }

  /** Days in the months of year `y` that precede month `m`. */
  function DaysBeforeMonth(y: int, m: int): (n: int)
    requires 1 <= m <= 13
    ensures 0 <= n <= 31 * (m - 1)
  {
    if m == 1 then 0 else DaysBeforeMonth(y, m - 1) + DaysInMonth(y, m - 1)
  }

  /** `date.toordinal()`: 0001-01-01 is day 1. */
  function Ordinal(d: Date): (n: int)
    ensures n >= 1
  {
    DaysBeforeYear(d.year) + DaysBeforeMonth(d.year, d.month) + d.day
  }

  /** `date.isoweekday()`, which is also `date.weekday() + 1`: 1 = Monday .. 7 = Sunday. */
  function IsoWeekday(d: Date): (w: int)
    ensures 1 <= w <= 7
    ensures w == 1 <==> Ordinal(d) % 7 == 1
    // every seventh day shares the weekday: w is fixed by the ordinal modulo 7
    ensures (Ordinal(d) - w) % 7 == 0
  {
    var n := Ordinal(d);
    WeekdayMod7(n);
    (n - 1) % 7 + 1
  }

  /** The weekday formula on an ordinal: in 1..7, 1 exactly on the Mondays, and equal to the ordinal modulo 7. */
  lemma WeekdayMod7(n: int)
    ensures 1 <= (n - 1) % 7 + 1 <= 7
    ensures (n - 1) % 7 + 1 == 1 <==> n % 7 == 1
    ensures (n - ((n - 1) % 7 + 1)) % 7 == 0
  {
    var q, r := (n - 1) / 7, (n - 1) % 7;
    assert n - (r + 1) == 7 * q;
    if r < 6 {
      assert n == 7 * q + (r + 1);
    } else {
      assert n == 7 * (q + 1);
    }
  }

  /** Adding whole weeks keeps the remainder by 7. */
  lemma WeeksKeepMod7(n: int, weeks: int)
    ensures (n + 7 * weeks) % 7 == n % 7
  {
    var q, r := n / 7, n % 7;
    assert n + 7 * weeks == 7 * (q + weeks) + r;
  }

  /**
    `(datetime.combine(day, t) - timedelta(minutes=10)).time()`: ten minutes
    earlier on the clock, wrapping past midnight into the previous day.
  */
  function TenMinutesBefore(t: Time): (r: Time)
    ensures (r + 10) % 1440 == t
    ensures t >= 10 ==> r + 10 == t
    ensures t < 10 ==> r >= 1430
  {
    (t - 10) % 1440
  }

  /** A point in time as minutes counted from 0001-01-01 00:00 (`datetime.combine(day, t)`). */
  function Moment(d: Date, t: Time): int {
    (Ordinal(d) - 1) * 1440 + t
  }

  // ---------------------------------------------------------------------------
  // The ordinal count agrees with the calendar order.

  lemma DaysBeforeYearStep(y: int)
    requires y >= 1
    ensures DaysBeforeYear(y + 1) == DaysBeforeYear(y) + DaysInYear(y)
  {
    var p := y - 1;
    assert y / 4 == p / 4 + (if y % 4 == 0 then 1 else 0);
    assert y / 100 == p / 100 + (if y % 100 == 0 then 1 else 0);
    assert y / 400 == p / 400 + (if y % 400 == 0 then 1 else 0);
    assert y % 400 == 0 ==> y % 100 == 0 && y % 4 == 0;
    assert y % 100 == 0 ==> y % 4 == 0;
  }

  lemma {:induction false} DaysBeforeYearGrows(y1: int, y2: int)
    requires 1 <= y1 < y2
    ensures DaysBeforeYear(y1) + DaysInYear(y1) <= DaysBeforeYear(y2)
    decreases y2 - y1
  {
    DaysBeforeYearStep(y1);
    if y1 + 1 < y2 {
      DaysBeforeYearGrows(y1 + 1, y2);
    }
  }

  lemma DaysBeforeMonthYearEnd(y: int)
    ensures DaysBeforeMonth(y, 13) == DaysInYear(y)
  {
    assert DaysBeforeMonth(y, 2) == 31;
    assert DaysBeforeMonth(y, 4) == DaysBeforeMonth(y, 3) + 31;
    assert DaysBeforeMonth(y, 6) == DaysBeforeMonth(y, 4) + 61;
    assert DaysBeforeMonth(y, 8) == DaysBeforeMonth(y, 6) + 61;
    assert DaysBeforeMonth(y, 10) == DaysBeforeMonth(y, 8) + 61;
    assert DaysBeforeMonth(y, 12) == DaysBeforeMonth(y, 10) + 61;
    assert DaysBeforeMonth(y, 13) == DaysBeforeMonth(y, 12) + 31;
  }

  lemma {:induction false} DaysBeforeMonthGrows(y: int, m1: int, m2: int)
    requires 1 <= m1 < m2 <= 13
    ensures DaysBeforeMonth(y, m1) + DaysInMonth(y, m1) <= DaysBeforeMonth(y, m2)
    decreases m2 - m1
  {
    if m1 + 1 < m2 {
      DaysBeforeMonthGrows(y, m1 + 1, m2);
    }
  }

  /** The last day of a month is still inside its year's count. */
  lemma DayWithinYear(d: Date)
    ensures DaysBeforeMonth(d.year, d.month) + d.day <= DaysInYear(d.year)
  {
    DaysBeforeMonthYearEnd(d.year);
    if d.month < 12 {
      DaysBeforeMonthGrows(d.year, d.month, 13);
    }
  }

  lemma BeforeHasSmallerOrdinal(a: Date, b: Date)
    requires Before(a, b)
    ensures Ordinal(a) < Ordinal(b)
  {
    if a.year < b.year {
      DayWithinYear(a);
      DaysBeforeYearGrows(a.year, b.year);
    } else if a.month < b.month {
      DaysBeforeMonthGrows(a.year, a.month, b.month);
    }
  }

  /** Python's tuple order on dates is exactly the order of their ordinals. */
  lemma BeforeIffOrdinalLess(a: Date, b: Date)
    ensures Before(a, b) <==> Ordinal(a) < Ordinal(b)
  {
    if Before(a, b) {
      BeforeHasSmallerOrdinal(a, b);
    } else if a != b {
      assert Before(b, a);
      BeforeHasSmallerOrdinal(b, a);
    }
  }

  /** Distinct dates have distinct ordinals, so a date is determined by its ordinal. */
  lemma OrdinalInjective(a: Date, b: Date)
    ensures Ordinal(a) == Ordinal(b) <==> a == b
  {
    BeforeIffOrdinalLess(a, b);
    BeforeIffOrdinalLess(b, a);
  }

  /** Two dates a whole number of weeks apart fall on the same weekday. */
  lemma SameWeekdayWeeksApart(a: Date, b: Date, weeks: int)
    requires Ordinal(b) == Ordinal(a) + 7 * weeks
    ensures IsoWeekday(a) == IsoWeekday(b)
  {
    WeeksKeepMod7(Ordinal(a) - 1, weeks);
  }

  /** Moments follow the date first and the clock second. */
  lemma MomentOrder(d1: Date, t1: Time, d2: Date, t2: Time)
    ensures Moment(d1, t1) < Moment(d2, t2) <==> Before(d1, d2) || (d1 == d2 && t1 < t2)
  {
    BeforeIffOrdinalLess(d1, d2);
    BeforeIffOrdinalLess(d2, d1);
    OrdinalInjective(d1, d2);
  }
}
