/**
 * ECMAScript time values (section 21.4.1 of ECMA-262): a Date is a number of
 * milliseconds since 1970-01-01T00:00:00Z, and the days of the proleptic Gregorian
 * calendar are numbered by DayFromYear and MakeDay. Only what the purchase form's
 * date rule needs is modelled: the instant of a calendar day's midnight, in UTC or
 * at a given offset of local time from UTC.
 */
module JsDate {

  /** A time value: milliseconds since the epoch. */
  type Instant = int

  const MsPerDay := 86400000

  /** DayFromYear: the day number of the first day of year y (divisions are floor divisions). */
  function DayFromYear(y: int): int {
    365 * (y - 1970) + (y - 1969) / 4 - (y - 1901) / 100 + (y - 1601) / 400
  }

  predicate InLeapYear(y: int) {
    (y % 4 == 0 && y % 100 != 0) || y % 400 == 0
  }

  function DaysInYear(y: int): int {
    if InLeapYear(y) then 366 else 365
  }

  function DaysInMonth(y: int, m: int): int
    requires 1 <= m <= 12
  {
    if m == 2 then (if InLeapYear(y) then 29 else 28)
    else if m == 4 || m == 6 || m == 9 || m == 11 then 30
    else 31
  }

  /** The days of year y before the first day of month m. */
  function DaysBeforeMonth(y: int, m: int): (n: int)
    requires 1 <= m <= 12
    ensures 0 <= n && n + DaysInMonth(y, m) <= DaysInYear(y)
    ensures m > 1 ==> n >= 31
  {
    [0, 31, 59, 90, 120, 151, 181, 212, 243, 273, 304, 334][m - 1]
    + (if InLeapYear(y) && m > 2 then 1 else 0)
  }

  /** Each month starts where the one before it ends: the table accumulates the month lengths. */
  lemma DaysBeforeMonthStep(y: int, m: int)
    requires 1 <= m < 12
    ensures DaysBeforeMonth(y, m + 1) == DaysBeforeMonth(y, m) + DaysInMonth(y, m)
  {
  }

  /** A day of the calendar: month 1 to 12, day within the month. */
  predicate ValidDay(y: int, m: int, d: int) {
    1 <= m <= 12 && 1 <= d <= DaysInMonth(y, m)
  }

  /** MakeDay(y, m - 1, d): the day number of a calendar day. */
  function DayNumber(y: int, m: int, d: int): int
    requires ValidDay(y, m, d)
  {
    DayFromYear(y) + DaysBeforeMonth(y, m) + d - 1
  }

  /** `new Date("YYYY-MM-DD")`: a date-only form denotes midnight UTC of that day. */
  function UtcMidnight(y: int, m: int, d: int): Instant
    requires ValidDay(y, m, d)
  {
    DayNumber(y, m, d) * MsPerDay
  }

  /**
   * Midnight local time of a calendar day, where local time is `offset`
   * milliseconds ahead of UTC (positive east of Greenwich).
   */
  function LocalMidnight(y: int, m: int, d: int, offset: int): Instant
    requires ValidDay(y, m, d)
  {
    UtcMidnight(y, m, d) - offset
  }

  /** Time zone offsets are less than a day in either direction. */
  predicate PlausibleOffset(offset: int) {
    -MsPerDay < offset < MsPerDay
  }

  /** Consecutive years are DaysInYear apart. */
  lemma DayFromYearNext(y: int)
    ensures DayFromYear(y + 1) == DayFromYear(y) + DaysInYear(y)
  {
    FloorDivStep(y - 1969, 4);
    FloorDivStep(y - 1901, 100);
    FloorDivStep(y - 1601, 400);
    assert (y - 1968) % 4 == y % 4 && (y - 1900) % 100 == y % 100 && (y - 1600) % 400 == y % 400;
  }

  /**
   * A floor division by the leap-year divisors 4, 100 and 400 goes up by one
   * exactly when the dividend reaches a multiple of the divisor.
   */
  lemma FloorDivStep(a: int, k: int)
    requires k == 4 || k == 100 || k == 400
    ensures (a + 1) / k == a / k + (if (a + 1) % k == 0 then 1 else 0)
  {
    if k == 4 {
      assert (a + 1) / 4 == a / 4 + (if (a + 1) % 4 == 0 then 1 else 0);
    } else if k == 100 {
      assert (a + 1) / 100 == a / 100 + (if (a + 1) % 100 == 0 then 1 else 0);
    } else {
      assert (a + 1) / 400 == a / 400 + (if (a + 1) % 400 == 0 then 1 else 0);
    }
  }

  /** Later years start on later days. */
  lemma {:induction false} DayFromYearMonotone(a: int, b: int)
    requires a <= b
    ensures DayFromYear(a) + 365 * (b - a) <= DayFromYear(b)
    decreases b - a
  {
    if a < b {
      DayFromYearMonotone(a, b - 1);
      DayFromYearNext(b - 1);
    }
  }

  /** Every day of year y lies between the first day of y and the first day of y + 1. */
  lemma DayNumberWithinYear(y: int, m: int, d: int)
    requires ValidDay(y, m, d)
    ensures DayFromYear(y) <= DayNumber(y, m, d) < DayFromYear(y + 1)
  {
    DayFromYearNext(y);
  }

  /** The earliest date the purchase form accepts: `new Date("1900-01-01")`. */
  const MinDate: Instant := UtcMidnight(1900, 1, 1)

  lemma MinDateValue()
    ensures DayNumber(1970, 1, 1) == 0
    ensures DayNumber(1900, 1, 1) == -25567
    ensures MinDate == -2208988800000
  {
    assert DayFromYear(1970) == 0;
    assert DayFromYear(1900) == -25567;
  }

  /**
   * At any plausible offset, local midnight of a day of a year before 1900 is
   * before the minimum, and local midnight of a day after 1900-01-01 is not.
   */
  lemma LocalMidnightAgainstMinDate(y: int, m: int, d: int, offset: int)
    requires ValidDay(y, m, d) && PlausibleOffset(offset)
    ensures y < 1900 ==> LocalMidnight(y, m, d, offset) < MinDate
    ensures (y > 1900 || (y == 1900 && (m > 1 || d > 1))) ==> LocalMidnight(y, m, d, offset) > MinDate
    ensures (y, m, d) == (1900, 1, 1) ==> (LocalMidnight(y, m, d, offset) >= MinDate <==> offset <= 0)
  {
    MinDateValue();
    DayNumberWithinYear(y, m, d);
    if y < 1900 {
      DayFromYearMonotone(y + 1, 1900);
      assert DayNumber(y, m, d) <= -25568;
    } else if y > 1900 {
      DayFromYearMonotone(1901, y);
      DayFromYearNext(1900);
      assert DayNumber(y, m, d) >= -25567 + 365;
    }
  }
}
