/**
 * The proleptic Gregorian calendar as far as the statistics need it:
 * leap years, month lengths and the ordinal date (day-of-year) of
 * section 4.1.3 of ISO 8601:2004, which pandas exposes as `dayofyear`.
 */
module Calendar {

  /** A date and an hour, the resolution of the station's observations. */
  datatype DateTime = DateTime(year: int, month: int, day: int, hour: int)

  /** The Gregorian leap-year rule, as Python's `calendar.isleap`. */
  predicate IsLeap(year: int): (leap: bool)
    ensures year % 4 != 0 ==> !leap
    ensures year % 4 == 0 && year % 100 != 0 ==> leap
    ensures year % 100 == 0 && year % 400 != 0 ==> !leap
    ensures year % 400 == 0 ==> leap
  {
    year % 4 == 0 && (year % 100 != 0 || year % 400 == 0)
  }

  function DaysInYear(year: int): int {
    if IsLeap(year) then 366 else 365
  }

  /** Days of the year before the first of `month`; month 13 stands for the year's end. */
  function DaysBeforeMonth(year: int, month: int): (n: int)
    requires 1 <= month <= 13
    ensures 0 <= n <= DaysInYear(year)
    ensures month == 13 ==> n == DaysInYear(year)
  {
    [0, 31, 59, 90, 120, 151, 181, 212, 243, 273, 304, 334, 365][month - 1]
      + (if month > 2 && IsLeap(year) then 1 else 0)
  }

  function DaysInMonth(year: int, month: int): (n: int)
    requires 1 <= month <= 12
    ensures 28 <= n <= 31
    ensures n == DaysBeforeMonth(year, month + 1) - DaysBeforeMonth(year, month)
    ensures n == 29 <==> month == 2 && IsLeap(year)
  {
    if month == 2 then (if IsLeap(year) then 29 else 28)
    else if month == 4 || month == 6 || month == 9 || month == 11 then 30
    else 31
  }

  predicate IsValid(t: DateTime) {
    1 <= t.month <= 12 && 1 <= t.day <= DaysInMonth(t.year, t.month) && 0 <= t.hour < 24
  }

  /** An element of a DatetimeIndex: always a real calendar date. */
  type Timestamp = t: DateTime | IsValid(t) witness DateTime(1970, 1, 1, 0)

  /** The ordinal date: 1 for 1 January, 60 for 29 February of a leap year. */
  function DayOfYear(t: Timestamp): (n: int)
    ensures 1 <= n <= DaysInYear(t.year)
    ensures !IsLeap(t.year) ==> n <= 365
  {
    DaysBeforeMonth(t.year, t.month) + t.day
  }

  /** The month whose days hold ordinal `n`, searched downwards from `month`. */
  function MonthOfOrdinal(year: int, n: int, month: int): (m: int)
    requires 1 <= month <= 12
    requires 1 <= n <= DaysBeforeMonth(year, month + 1)
    ensures 1 <= m <= month
    ensures DaysBeforeMonth(year, m) < n <= DaysBeforeMonth(year, m + 1)
    decreases month
  {
    if month == 1 || DaysBeforeMonth(year, month) < n then month
    else MonthOfOrdinal(year, n, month - 1)
  }

  /** The inverse of DayOfYear: the (month, day) whose ordinal in `year` is `n`. */
  function DateOfOrdinal(year: int, n: int): (md: (int, int))
    requires 1 <= n <= DaysInYear(year)
    ensures 1 <= md.0 <= 12 && 1 <= md.1 <= DaysInMonth(year, md.0)
    ensures DayOfYear(DateTime(year, md.0, md.1, 0)) == n
  {
    var m := MonthOfOrdinal(year, n, 12);
    (m, n - DaysBeforeMonth(year, m))
  }

  /** Every month has at least 28 days, so DaysBeforeMonth grows by at least 28 a month. */
  lemma {:induction false} DaysBeforeMonthGrows(year: int, m1: int, m2: int)
    requires 1 <= m1 <= m2 <= 13
    ensures DaysBeforeMonth(year, m1) + 28 * (m2 - m1) <= DaysBeforeMonth(year, m2)
    decreases m2 - m1
  {
    if m1 < m2 {
      DaysBeforeMonthGrows(year, m1 + 1, m2);
      assert DaysInMonth(year, m1) == DaysBeforeMonth(year, m1 + 1) - DaysBeforeMonth(year, m1);
    }
  }

  /** Reading an ordinal back gives the date it came from. */
  lemma DayOfYearRoundTrip(t: Timestamp)
    ensures DateOfOrdinal(t.year, DayOfYear(t)) == (t.month, t.day)
  {
    var n := DayOfYear(t);
    var m := DateOfOrdinal(t.year, n).0;
    assert DaysBeforeMonth(t.year, m) < n <= DaysBeforeMonth(t.year, m + 1);
    assert DaysBeforeMonth(t.year, t.month) < n <= DaysBeforeMonth(t.year, t.month + 1);
    if m < t.month {
      DaysBeforeMonthGrows(t.year, m + 1, t.month);
      assert false;
    } else if m > t.month {
      DaysBeforeMonthGrows(t.year, t.month + 1, m);
      assert false;
    }
  }

  /** Two dates of one year with the same ordinal are the same date. */
  lemma DayOfYearInjective(a: Timestamp, b: Timestamp)
    requires a.year == b.year && DayOfYear(a) == DayOfYear(b)
    ensures a.month == b.month && a.day == b.day
  {
    DayOfYearRoundTrip(a);
    DayOfYearRoundTrip(b);
  }

  /** Ordinal 60 is 29 February exactly in leap years. */
  lemma LeapDayIsSixtieth(t: Timestamp)
    ensures (t.month == 2 && t.day == 29) <==> (IsLeap(t.year) && DayOfYear(t) == 60)
  {
    if IsLeap(t.year) && DayOfYear(t) == 60 {
      DayOfYearInjective(t, DateTime(t.year, 2, 29, 0));
    }
  }

  /**
   * Ordinal 60 is 29 February in a leap year and 1 March in a common one:
   * grouping by day-of-year over both kinds of year pools those two dates.
   */
  lemma SixtiethDay(t: Timestamp)
    ensures DayOfYear(t) == 60 <==>
      if IsLeap(t.year) then t.month == 2 && t.day == 29 else t.month == 3 && t.day == 1
  {
    LeapDayIsSixtieth(t);
    if !IsLeap(t.year) && DayOfYear(t) == 60 {
      DayOfYearInjective(t, DateTime(t.year, 3, 1, 0));
    }
  }

  /** The ordinal the same month and day have in a leap year (29 February is 60). */
  function LeapOrdinal(t: Timestamp): (n: int)
    ensures 1 <= n <= 366
    ensures IsLeap(t.year) ==> n == DayOfYear(t)
    ensures !IsLeap(t.year) ==> n == DayOfYear(t) + (if t.month > 2 then 1 else 0)
    ensures !IsLeap(t.year) ==> (t.month > 2 <==> DayOfYear(t) >= 60)
  {
    DaysBeforeMonth(2000, t.month) + t.day
  }
}
