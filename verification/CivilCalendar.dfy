/**
 The proleptic Gregorian calendar as sections 21.4.1.3 to 21.4.1.11 of ECMA-262 compute it:
 dates, day numbers counted from 1 January 1970, and the two functions between them.
*/
module CivilCalendar {

  datatype Date = Date(year: int, month: int, day: int)

  predicate IsLeap(year: int) {
    year % 4 == 0 && (year % 100 != 0 || year % 400 == 0)
  }

  function DaysInYear(year: int): int {
    if IsLeap(year) then 366 else 365
  }

  /** DayFromYear: the day number of 1 January, year by year from 1970. */
  function DayFromYear(year: int): int
    decreases if year >= 1970 then year - 1970 else 1970 - year
  {
    if year == 1970 then 0
    else if year > 1970 then DayFromYear(year - 1) + DaysInYear(year - 1)
    else DayFromYear(year + 1) - DaysInYear(year)
  }

  function MonthLength(month: int, leap: bool): int {
    if month == 2 then (if leap then 29 else 28)
    else if month == 4 || month == 6 || month == 9 || month == 11 then 30
    else 31
  }

  /** The days of the year before the month begins; month 13 stands for the end of the year. */
  function DaysBefore(month: int, leap: bool): int
    decreases month
  {
    if month <= 1 then 0 else DaysBefore(month - 1, leap) + MonthLength(month - 1, leap)
  }

  /** A day of a month, in a leap year or not. */
  predicate IsDayOfMonth(month: int, day: int, leap: bool) {
    1 <= month <= 12 && 1 <= day <= MonthLength(month, leap)
  }

  predicate IsDate(d: Date) {
    IsDayOfMonth(d.month, d.day, IsLeap(d.year))
  }

  /** MakeDay, for a month that is in range and any day of the month. */
  function DayNumber(year: int, month: int, day: int): int {
    DayFromYear(year) + DaysBefore(month, IsLeap(year)) + day - 1
  }

  function DayOf(d: Date): int {
    DayNumber(d.year, d.month, d.day)
  }

  lemma YearsAreAdjacent(year: int)
    ensures DayFromYear(year + 1) == DayFromYear(year) + DaysInYear(year)
  {
  }

  lemma FourYears(year: int)
    ensures (year + 1 - 1969) / 4 == (year - 1969) / 4 + (if year % 4 == 0 then 1 else 0)
  {
  }

  lemma HundredYears(year: int)
    ensures (year + 1 - 1901) / 100 == (year - 1901) / 100 + (if year % 100 == 0 then 1 else 0)
  {
  }

  lemma FourHundredYears(year: int)
    ensures (year + 1 - 1601) / 400 == (year - 1601) / 400 + (if year % 400 == 0 then 1 else 0)
  {
  }

  lemma FourCenturies(q: int)
    ensures (400 * q) % 100 == 0
  {
    assert 400 * q == 100 * (4 * q);
  }

  lemma OneCentury(q: int)
    ensures (100 * q) % 4 == 0
  {
    assert 100 * q == 4 * (25 * q);
  }

  lemma CenturiesAreMultiples(year: int)
    ensures year % 400 == 0 ==> year % 100 == 0
    ensures year % 100 == 0 ==> year % 4 == 0
  {
    FourCenturies(year / 400);
    OneCentury(year / 100);
  }

  /** DayFromYear in closed form, as section 21.4.1.3 of ECMA-262 gives it. */
  function ClosedDayFromYear(year: int): int {
    365 * (year - 1970) + (year - 1969) / 4 - (year - 1901) / 100 + (year - 1601) / 400
  }

  lemma ClosedFormSteps(year: int)
    ensures ClosedDayFromYear(year + 1) == ClosedDayFromYear(year) + DaysInYear(year)
  {
    FourYears(year);
    HundredYears(year);
    FourHundredYears(year);
    CenturiesAreMultiples(year);
  }

  /** Counting year by year and the closed form agree on every year. */
  lemma {:induction false} DayFromYearIsClosedForm(year: int)
    ensures DayFromYear(year) == ClosedDayFromYear(year)
    decreases if year >= 1970 then year - 1970 else 1970 - year
  {
    if year > 1970 {
      DayFromYearIsClosedForm(year - 1);
      ClosedFormSteps(year - 1);
    } else if year < 1970 {
      DayFromYearIsClosedForm(year + 1);
      ClosedFormSteps(year);
    }
  }

  /**
   Where every month begins within its year, month 13 standing for the end: the thresholds of
   MonthFromTime in section 21.4.1.4 of ECMA-262.
  */
  lemma MonthStarts(leap: bool)
    ensures DaysBefore(1, leap) == 0 && DaysBefore(2, leap) == 31
    ensures var l := if leap then 1 else 0;
      && DaysBefore(3, leap) == 59 + l && DaysBefore(4, leap) == 90 + l && DaysBefore(5, leap) == 120 + l
      && DaysBefore(6, leap) == 151 + l && DaysBefore(7, leap) == 181 + l && DaysBefore(8, leap) == 212 + l
      && DaysBefore(9, leap) == 243 + l && DaysBefore(10, leap) == 273 + l && DaysBefore(11, leap) == 304 + l
      && DaysBefore(12, leap) == 334 + l && DaysBefore(13, leap) == 365 + l
  {
    assert DaysBefore(2, leap) == 31 && DaysBefore(3, leap) == if leap then 60 else 59;
    assert DaysBefore(5, leap) == if leap then 121 else 120;
    assert DaysBefore(7, leap) == if leap then 182 else 181;
    assert DaysBefore(9, leap) == if leap then 244 else 243;
    assert DaysBefore(11, leap) == if leap then 305 else 304;
  }

  /** The same in closed form. */
  lemma MonthStartsInClosedForm(month: int, leap: bool)
    requires 1 <= month <= 13
    ensures DaysBefore(month, leap) == (367 * month - 362) / 12 - (if month <= 2 then 0 else if leap then 1 else 2)
  {
    MonthStarts(leap);
  }

  /** The year, searched upward from one that begins no later than the day. */
  function YearFrom(n: int, start: int): (year: int)
    requires DayFromYear(start) <= n
    ensures DayFromYear(year) <= n < DayFromYear(year + 1)
    decreases n - DayFromYear(start)
  {
    YearsAreAdjacent(start);
    if n < DayFromYear(start + 1) then start else YearFrom(n, start + 1)
  }

  lemma EarlyEnough(n: int)
    ensures DayFromYear(1970 + (if n < 0 then n else 0)) <= n
  {
    if n < 0 {
      DayFromYearIsClosedForm(1970 + n);
    }
  }

  /** YearFromTime: the year that holds the day. */
  function YearOf(n: int): (year: int)
    ensures DayFromYear(year) <= n < DayFromYear(year + 1)
  {
    EarlyEnough(n);
    YearFrom(n, 1970 + (if n < 0 then n else 0))
  }

  /** MonthFromTime, counted from 1. */
  function MonthFrom(dayOfYear: int, leap: bool, month: int): (m: int)
    requires 1 <= month <= 12
    requires DaysBefore(month, leap) <= dayOfYear < DaysBefore(13, leap)
    ensures 1 <= m <= 12 && DaysBefore(m, leap) <= dayOfYear < DaysBefore(m + 1, leap)
    decreases 12 - month
  {
    if dayOfYear < DaysBefore(month + 1, leap) then month else MonthFrom(dayOfYear, leap, month + 1)
  }

  /** The date in a given year. */
  function DateInYear(year: int, dayOfYear: int, leap: bool): (d: Date)
    requires 0 <= dayOfYear < DaysBefore(13, leap)
    ensures d.year == year && IsDayOfMonth(d.month, d.day, leap)
    ensures DaysBefore(d.month, leap) + d.day - 1 == dayOfYear
  {
    var month := MonthFrom(dayOfYear, leap, 1);
    Date(year, month, dayOfYear - DaysBefore(month, leap) + 1)
  }

  /** The date of a day number. */
  function DateOf(n: int): (d: Date)
    ensures IsDate(d)
    ensures DayOf(d) == n
  {
    var year := YearOf(n);
    YearsAreAdjacent(year);
    MonthStarts(IsLeap(year));
    DateInYear(year, n - DayFromYear(year), IsLeap(year))
  }

  lemma {:induction false} YearsIncrease(a: int, b: int)
    requires a <= b
    ensures DayFromYear(a) <= DayFromYear(b)
    decreases b - a
  {
    if a < b {
      YearsAreAdjacent(b - 1);
      YearsIncrease(a, b - 1);
    }
  }

  lemma {:induction false} MonthsIncrease(a: int, b: int, leap: bool)
    requires 1 <= a <= b <= 13
    ensures DaysBefore(a, leap) <= DaysBefore(b, leap)
    decreases b - a
  {
    if a < b {
      MonthsIncrease(a, b - 1, leap);
    }
  }

  lemma DayInItsYear(d: Date)
    requires IsDate(d)
    ensures DayFromYear(d.year) <= DayOf(d) < DayFromYear(d.year + 1)
  {
    YearsAreAdjacent(d.year);
    MonthStarts(IsLeap(d.year));
    MonthsIncrease(d.month + 1, 13, IsLeap(d.year));
    MonthsIncrease(1, d.month, IsLeap(d.year));
  }

  lemma SameYear(a: Date, b: Date)
    requires IsDate(a) && IsDate(b) && DayOf(a) == DayOf(b)
    ensures a.year == b.year
  {
    DayInItsYear(a);
    DayInItsYear(b);
    if a.year < b.year {
      YearsIncrease(a.year + 1, b.year);
    } else if b.year < a.year {
      YearsIncrease(b.year + 1, a.year);
    }
  }

  lemma SameMonth(m: int, d: int, m': int, d': int, leap: bool)
    requires IsDayOfMonth(m, d, leap) && IsDayOfMonth(m', d', leap)
    requires DaysBefore(m, leap) + d == DaysBefore(m', leap) + d'
    ensures m == m' && d == d'
  {
    if m < m' {
      MonthsIncrease(m + 1, m', leap);
    } else if m' < m {
      MonthsIncrease(m' + 1, m, leap);
    }
  }

  /** Two dates with the same day number are the same date: with `DateOf`, a bijection. */
  lemma DayNumbersAreUnique(a: Date, b: Date)
    requires IsDate(a) && IsDate(b) && DayOf(a) == DayOf(b)
    ensures a == b
  {
    SameYear(a, b);
    SameMonth(a.month, a.day, b.month, b.day, IsLeap(a.year));
  }

  /**
   A date's day number in closed form, from the formulas of sections 21.4.1.3 and 21.4.1.4 of
   ECMA-262 alone: the years, their leap days, the months of the year and the day.
  */
  lemma DayNumberIsClosedForm(d: Date)
    requires IsDate(d)
    ensures var y, m := d.year, d.month;
      var leap := y % 4 == 0 && (y % 100 != 0 || y % 400 == 0);
      DayOf(d) ==
        365 * (y - 1970) + (y - 1969) / 4 - (y - 1901) / 100 + (y - 1601) / 400
        + (367 * m - 362) / 12 - (if m <= 2 then 0 else if leap then 1 else 2)
        + d.day - 1
  {
    DayFromYearIsClosedForm(d.year);
    MonthStartsInClosedForm(d.month, IsLeap(d.year));
  }

  /** Reading a day number off a date and building the date again gives the date back. */
  lemma DateRoundTrip(d: Date)
    requires IsDate(d)
    ensures DateOf(DayOf(d)) == d
  {
    DayNumbersAreUnique(DateOf(DayOf(d)), d);
  }
}
