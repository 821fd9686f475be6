/**
 * Calendar arithmetic as JavaScript's `Date` does it in local time, without time zones or
 * daylight saving: days are numbered from 1970-01-01 (day 0) in the proleptic Gregorian
 * calendar, and `new Date(y, m, d)` accepts a month index outside 0..11 and a day past the
 * end of the month, carrying the excess into the year or the next month.
 */
module Calendar {

  /** Milliseconds in a day: `24 * 60 * 60 * 1000`. */
  const DayMs := 86400000

  predicate IsLeapYear(y: int)
  {
    y % 4 == 0 && (y % 100 != 0 || y % 400 == 0)
  }

  function YearLength(y: int): int
  {
    if IsLeapYear(y) then 366 else 365
  }

  /** Days in month `m` (0 = January) of year `y`. */
  function DaysInMonth(y: int, m: int): (n: int)
    requires 0 <= m < 12
    ensures 28 <= n <= 31
  {
    if m == 1 then (if IsLeapYear(y) then 29 else 28)
    else if m == 3 || m == 5 || m == 8 || m == 10 then 30
    else 31
  }

  /** Days of year `y` before the first of month `m`. */
  function DaysBeforeMonth(y: int, m: int): (n: int)
    requires 0 <= m < 12
    ensures 0 <= n <= 335
  {
    var common :=
      if m < 6 then
        (if m == 0 then 0 else if m == 1 then 31 else if m == 2 then 59
         else if m == 3 then 90 else if m == 4 then 120 else 151)
      else
        (if m == 6 then 181 else if m == 7 then 212 else if m == 8 then 243
         else if m == 9 then 273 else if m == 10 then 304 else 334);
    if m >= 2 && IsLeapYear(y) then common + 1 else common
  }

  /** Leap years among 1..y (counted with floor division, so the formula holds for every y). */
  function LeapYearsThrough(y: int): int
  {
    y / 4 - y / 100 + y / 400
  }

  /** Days from 1970-01-01 to January 1 of year `y`. */
  function DaysBeforeYear(y: int): int
  {
    365 * (y - 1970) + LeapYearsThrough(y - 1) - LeapYearsThrough(1969)
  }

  /**
   * The day number of `new Date(y, m, d)`, month index and day normalised as JavaScript does.
   * JavaScript reads a year argument from 0 to 99 as 1900 + y; this function takes every year as written.
   */
  function EpochDay(y: int, m: int, d: int): int
  {
    var year := y + m / 12;
    var month := m % 12;
    DaysBeforeYear(year) + DaysBeforeMonth(year, month) + d - 1
  }

  /** A year is as long as the calendar says: 366 days for a leap year, 365 otherwise. */
  lemma YearStep(y: int)
    ensures DaysBeforeYear(y + 1) == DaysBeforeYear(y) + YearLength(y)
  {
    QuotientStep(y, 4);
    QuotientStep(y, 100);
    QuotientStep(y, 400);
  }

  /** Going from `y - 1` to `y` raises the quotient by `k` exactly when `y` is a multiple of `k`. */
  lemma QuotientStep(y: int, k: int)
    requires k > 0
    ensures y / k - (y - 1) / k == if y % k == 0 then 1 else 0
  {
    var q, r := (y - 1) / k, (y - 1) % k;
    assert y == q * k + r + 1;
    assert (q + 1) * k == q * k + k;
    if r == k - 1 {
      DivBetween(y, k, q + 1);
      assert y == (q + 1) * k;
    } else {
      DivBetween(y, k, q);
    }
  }

  /** A positive multiple of a positive number is at least that number. */
  lemma MulAtLeast(x: int, b: int)
    requires x >= 1 && b > 0
    ensures x * b >= b
  {
  }

  /** Integer division is pinned down by the multiples of the divisor around the dividend. */
  lemma DivBetween(a: int, b: int, q: int)
    requires b > 0 && q * b <= a < (q + 1) * b
    ensures a / b == q
  {
    var d, r := a / b, a % b;
    assert a == d * b + r && 0 <= r < b;
    assert (d - q) * b == d * b - q * b;
    assert (q - d) * b == q * b - d * b;
    if d > q {
      MulAtLeast(d - q, b);
    }
    if d < q {
      MulAtLeast(q - d, b);
    }
  }

  /** `new Date(y, m, d)` lies `d - 1` days after `new Date(y, m, 1)`, for any month index. */
  lemma DayOfMonth(y: int, m: int, d: int)
    ensures EpochDay(y, m, d) == EpochDay(y, m, 1) + d - 1
  {
  }

  /** For a month index within 0..11 no year carry happens. */
  lemma EpochDayInYear(y: int, m: int, d: int)
    requires 0 <= m < 12
    ensures EpochDay(y, m, d) == DaysBeforeYear(y) + DaysBeforeMonth(y, m) + d - 1
  {
    assert m / 12 == 0 && m % 12 == m;
  }

  /** Two consecutive years are never both leap years. */
  lemma NoConsecutiveLeaps(y: int)
    ensures !(IsLeapYear(y) && IsLeapYear(y + 1))
  {
    if y % 4 == 0 {
      assert (y + 1) % 4 == 1;
    }
  }

  /**
   * Two years on, the same month starts 730 or 731 days later: at most one of the two
   * years passed, or of the shifted February, adds a leap day.
   */
  lemma TwoYearsDrift(y: int, m: int)
    requires 0 <= m < 12
    ensures 730 <= YearLength(y - 2) + YearLength(y - 1) + DaysBeforeMonth(y, m) - DaysBeforeMonth(y - 2, m) <= 731
  {
    NoConsecutiveLeaps(y - 2);
    NoConsecutiveLeaps(y - 1);
  }

  /** The same day of the previous month is that month's length back, even when the day overflows it. */
  lemma OneMonthEarlier(y: int, m: int, d: int)
    ensures EpochDay(y, m, d) - EpochDay(y, m - 1, d) == DaysInMonth(y + (m - 1) / 12, (m - 1) % 12)
  {
    DayOfMonth(y, m, d);
    DayOfMonth(y, m - 1, d);
    MonthStep(y, m - 1);
  }

  /** A real date lies in its own year: less than a year after that year's January 1. */
  lemma WithinYear(y: int, m: int, d: int)
    ensures 0 <= m < 12 && 1 <= d <= DaysInMonth(y, m) ==>
      0 <= EpochDay(y, m, d) - EpochDay(y, 0, 1) < YearLength(y)
  {
    if 0 <= m < 12 && 1 <= d <= DaysInMonth(y, m) {
      EpochDayInYear(y, m, d);
      EpochDayInYear(y, 0, 1);
      MonthWithinYear(y, m);
    }
  }

  /** The months of a year add up to its length. */
  lemma MonthsFillYear(y: int)
    ensures DaysBeforeMonth(y, 11) + DaysInMonth(y, 11) == YearLength(y)
  {
  }

  /** Every month ends within its year. */
  lemma MonthWithinYear(y: int, m: int)
    requires 0 <= m < 12
    ensures DaysBeforeMonth(y, m) + DaysInMonth(y, m) <= YearLength(y)
  {
  }

  /** The first of the next month (possibly in the next year) lies one month length later. */
  lemma MonthStep(y: int, m: int)
    ensures EpochDay(y, m + 1, 1) == EpochDay(y, m, 1) + DaysInMonth(y + m / 12, m % 12)
  {
    var year := y + m / 12;
    var month := m % 12;
    if month == 11 {
      assert (m + 1) / 12 == m / 12 + 1 && (m + 1) % 12 == 0;
      YearStep(year);
      MonthsFillYear(year);
    } else {
      assert (m + 1) / 12 == m / 12 && (m + 1) % 12 == month + 1;
    }
  }

  /** A local date and time of day: what `new Date()` reads from the clock. */
  datatype Clock = Clock(year: int, month: int, date: int, msOfDay: int)

  /** A real calendar date (month 0..11, day within the month) and a time of day. */
  predicate ValidClock(c: Clock)
  {
    0 <= c.month < 12 && 1 <= c.date <= DaysInMonth(c.year, c.month) && 0 <= c.msOfDay < DayMs
  }

  /** The day number of the clock's date. */
  function Today(c: Clock): int
  {
    EpochDay(c.year, c.month, c.date)
  }

  /** The clock's instant in milliseconds: `now.getTime()`. */
  function NowMs(c: Clock): int
  {
    Today(c) * DayMs + c.msOfDay
  }

  /** The same day one month back lies 28 to 31 days before today. */
  lemma MonthBeforeToday(c: Clock)
    ensures Today(c) - 31 <= EpochDay(c.year, c.month - 1, c.date) <= Today(c) - 28
  {
    OneMonthEarlier(c.year, c.month, c.date);
  }

  /** `OneMonthEarlier` with the earlier month `p` named by the caller. */
  lemma MonthBefore(y: int, m: int, p: int, d: int)
    requires p == m - 1
    ensures EpochDay(y, m, d) - EpochDay(y, p, d) == DaysInMonth(y + p / 12, p % 12)
  {
    OneMonthEarlier(y, m, d);
  }

  /** The same day two months back lies the lengths of the two months before this one back. */
  lemma TwoMonthsEarlier(y: int, m: int, d: int)
    ensures EpochDay(y, m, d) - EpochDay(y, m - 2, d) ==
      DaysInMonth(y + (m - 1) / 12, (m - 1) % 12) + DaysInMonth(y + (m - 2) / 12, (m - 2) % 12)
  {
    MonthBefore(y, m, m - 1, d);
    MonthBefore(y, m - 1, m - 2, d);
  }

  /** The same day three months back lies the lengths of the three months before this one back. */
  lemma ThreeMonthsEarlier(y: int, m: int, d: int)
    ensures EpochDay(y, m, d) - EpochDay(y, m - 3, d) ==
      DaysInMonth(y + (m - 1) / 12, (m - 1) % 12) +
      DaysInMonth(y + (m - 2) / 12, (m - 2) % 12) +
      DaysInMonth(y + (m - 3) / 12, (m - 3) % 12)
  {
    TwoMonthsEarlier(y, m, d);
    MonthBefore(y, m - 2, m - 3, d);
  }

  /** The same day three months back lies the three previous months' lengths, 84 to 93 days, before today. */
  lemma QuarterBeforeToday(c: Clock)
    ensures Today(c) - EpochDay(c.year, c.month - 3, c.date) ==
      DaysInMonth(c.year + (c.month - 1) / 12, (c.month - 1) % 12) +
      DaysInMonth(c.year + (c.month - 2) / 12, (c.month - 2) % 12) +
      DaysInMonth(c.year + (c.month - 3) / 12, (c.month - 3) % 12)
    ensures Today(c) - 93 <= EpochDay(c.year, c.month - 3, c.date) <= Today(c) - 84
  {
    ThreeMonthsEarlier(c.year, c.month, c.date);
  }

  /** January 1 of the current year is today or less than a year before it. */
  lemma YearStartBeforeToday(c: Clock)
    ensures ValidClock(c) ==> Today(c) - 366 < EpochDay(c.year, 0, 1) <= Today(c)
  {
    WithinYear(c.year, c.month, c.date);
  }

  /** The same date two years back lies the two years' lengths, corrected by the leap days before that date: 730 or 731 days. */
  lemma TwoYearsEarlier(y: int, m: int, d: int)
    requires 0 <= m < 12
    ensures EpochDay(y, m, d) - EpochDay(y - 2, m, d) ==
      YearLength(y - 2) + YearLength(y - 1) + DaysBeforeMonth(y, m) - DaysBeforeMonth(y - 2, m)
    ensures 730 <= EpochDay(y, m, d) - EpochDay(y - 2, m, d) <= 731
  {
    TwoYearsDrift(y, m);
    EpochDayInYear(y, m, d);
    EpochDayInYear(y - 2, m, d);
    YearStep(y - 2);
    YearStep(y - 1);
    assert y - 2 + 1 == y - 1 && y - 1 + 1 == y;
  }

  /**
   * The same date two years back lies the two years' lengths before today, corrected by the
   * leap days of the current and the earlier year before that date: 730 or 731 days.
   */
  lemma TwoYearsBeforeToday(c: Clock)
    ensures ValidClock(c) ==> (Today(c) - EpochDay(c.year - 2, c.month, c.date) ==
      YearLength(c.year - 2) + YearLength(c.year - 1) +
      DaysBeforeMonth(c.year, c.month) - DaysBeforeMonth(c.year - 2, c.month))
    ensures ValidClock(c) ==> Today(c) - 731 <= EpochDay(c.year - 2, c.month, c.date) <= Today(c) - 730
  {
    if ValidClock(c) {
      TwoYearsEarlier(c.year, c.month, c.date);
    }
  }
}
