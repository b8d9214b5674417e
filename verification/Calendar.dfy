/**
 Days as numbers and as dates of the Gregorian calendar, by the day arithmetic of section 21.4.1 of
 ECMA-262, on which `Date.UTC` and `toISOString` rest (lib/dates.ts).
 */
module Calendar {
  const DAY_MS: int := 86_400_000

  /** The furthest time a `Date` can hold, either way. */
  const MAX_MS: int := 8_640_000_000_000_000

  datatype RangeError = RangeError

  // ---- Days and dates ----

  /** The number of the first day of a year, 1970 beginning with day 0: the lengths of the years between. */
  function DayFromYear(y: int): int
    decreases if y < 1970 then 1970 - y else y - 1970
  {
    if y == 1970 then 0
    else if y > 1970 then DayFromYear(y - 1) + YearDays(y - 1)
    else DayFromYear(y + 1) - YearDays(y)
  }

  function YearDays(y: int): int {
    if Leap(y) then 366 else 365
  }

  /** The same by the formula of `DayFromYear` (section 21.4.1.6 of ECMA-262, 2024), where division rounds down. */
  function DayFromYearFormula(y: int): int {
    365 * (y - 1970) + (y - 1969) / 4 - (y - 1901) / 100 + (y - 1601) / 400
  }

  predicate Leap(y: int) {
    y % 4 == 0 && (y % 100 != 0 || y % 400 == 0)
  }

  /** Days before a month (0 is January) in its year. */
  function MonthStart(month: int, leap: bool): int
    requires 0 <= month <= 12
  {
    (if month > 1 && leap then 1 else 0)
    + match month
      case 0 => 0
      case 1 => 31
      case 2 => 59
      case 3 => 90
      case 4 => 120
      case 5 => 151
      case 6 => 181
      case 7 => 212
      case 8 => 243
      case 9 => 273
      case 10 => 304
      case 11 => 334
      case 12 => 365
  }

  lemma Fourths(y: int)
    ensures (y + 1 - 1969) / 4 - (y - 1969) / 4 == if y % 4 == 0 then 1 else 0
  {
  }

  lemma Hundredths(y: int)
    ensures (y + 1 - 1901) / 100 - (y - 1901) / 100 == if y % 100 == 0 then 1 else 0
  {
  }

  lemma FourHundredths(y: int)
    ensures (y + 1 - 1601) / 400 - (y - 1601) / 400 == if y % 400 == 0 then 1 else 0
  {
  }

  lemma Centuries(y: int)
    ensures y % 400 == 0 ==> y % 100 == 0
    ensures y % 100 == 0 ==> y % 4 == 0
  {
  }

  lemma FormulaStep(y: int)
    ensures DayFromYearFormula(y + 1) == DayFromYearFormula(y) + YearDays(y)
  {
    Fourths(y);
    Hundredths(y);
    FourHundredths(y);
    Centuries(y);
  }

  /** The formula counts the days of the years. */
  lemma {:induction false} FormulaIsDayFromYear(y: int)
    ensures DayFromYearFormula(y) == DayFromYear(y)
    decreases if y < 1970 then 1970 - y else y - 1970
  {
    if y > 1970 {
      FormulaStep(y - 1);
      FormulaIsDayFromYear(y - 1);
    } else if y < 1970 {
      FormulaStep(y);
      FormulaIsDayFromYear(y + 1);
    }
  }

  /** A year is as long as its months. */
  lemma YearLength(y: int)
    ensures DayFromYear(y + 1) - DayFromYear(y) == MonthStart(12, Leap(y))
  {
  }

  lemma {:induction false} YearsAscend(y: int, z: int)
    requires y <= z
    ensures 365 * (z - y) <= DayFromYear(z) - DayFromYear(y) <= 366 * (z - y)
    decreases z - y
  {
    if y < z {
      YearLength(y);
      YearsAscend(y + 1, z);
    }
  }

  lemma YearBounds(y: int)
    requires -1 <= y <= 10_000
    ensures -1_000_000 <= DayFromYear(y) <= 5_000_000
  {
    if y < 1970 {
      YearsAscend(y, 1970);
    } else {
      YearsAscend(1970, y);
    }
  }

  function DaysInMonth(y: int, month: int): int
    requires 1 <= month <= 12
  {
    MonthStart(month, Leap(y)) - MonthStart(month - 1, Leap(y))
  }

  datatype Date = Date(year: int, month: int, day: int) {
    /** A day that is on the calendar. */
    predicate Real() { 1 <= month <= 12 && 1 <= day <= DaysInMonth(year, month) }

    predicate Before(other: Date) {
      year < other.year || (year == other.year && (month < other.month || (month == other.month && day < other.day)))
    }
  }

  /** `MakeDay`: months beyond the year's end roll over, and so do days beyond the month's. `month` counts from 0. */
  function MakeDay(year: int, month: int, day: int): int {
    var y := year + month / 12;
    DayFromYear(y) + MonthStart(month % 12, Leap(y)) + day - 1
  }

  function DayOf(date: Date): int {
    MakeDay(date.year, date.month - 1, date.day)
  }

  function YearUp(day: int, y: int): (r: int)
    requires DayFromYear(y) <= day
    ensures DayFromYear(r) <= day < DayFromYear(r + 1)
    decreases day - DayFromYear(y)
  {
    YearLength(y);
    if day < DayFromYear(y + 1) then y else YearUp(day, y + 1)
  }

  function YearDown(day: int, y: int): (r: int)
    requires day < DayFromYear(y + 1)
    ensures DayFromYear(r) <= day < DayFromYear(r + 1)
    decreases DayFromYear(y + 1) - day
  {
    YearLength(y);
    if DayFromYear(y) <= day then y else YearDown(day, y - 1)
  }

  /** The year a day is in. */
  function YearOf(day: int): (y: int)
    ensures DayFromYear(y) <= day < DayFromYear(y + 1)
  {
    if day >= 0 then YearUp(day, 1970) else YearDown(day, 1969)
  }

  /** The month (0 is January) that the `d`th day of a year is in. */
  function MonthWithin(d: int, leap: bool, upTo: int): (m: int)
    requires 0 <= upTo <= 11 && 0 <= d < MonthStart(upTo + 1, leap)
    ensures 0 <= m <= upTo && MonthStart(m, leap) <= d < MonthStart(m + 1, leap)
  {
    if MonthStart(upTo, leap) <= d then upTo else MonthWithin(d, leap, upTo - 1)
  }

  function DateOf(day: int): (date: Date)
    ensures date.year == YearOf(day) && date.Real()
  {
    var y := YearOf(day);
    YearLength(y);
    var d := day - DayFromYear(y);
    var m := MonthWithin(d, Leap(y), 11);
    Date(y, m + 1, d - MonthStart(m, Leap(y)) + 1)
  }

  lemma MonthsAscend(m: int, n: int, leap: bool)
    requires 0 <= m <= n <= 12
    ensures MonthStart(m, leap) <= MonthStart(n, leap)
    ensures m < n ==> MonthStart(m, leap) < MonthStart(n, leap)
  {
  }

  /** Every day has one date, and every date one day. */
  lemma DateOfDay(day: int)
    ensures DayOf(DateOf(day)) == day
  {
    YearLength(YearOf(day));
    DayWithinYear(DateOf(day));
  }

  /** With no month to roll over. */
  lemma PlainDay(year: int, month: int, day: int)
    requires 1 <= month <= 12
    ensures MakeDay(year, month - 1, day) == DayFromYear(year) + MonthStart(month - 1, Leap(year)) + day - 1
  {
    assert (month - 1) / 12 == 0 && (month - 1) % 12 == month - 1;
  }

  lemma MonthLengths(year: int, month: int)
    requires 1 <= month <= 12
    ensures 28 <= DaysInMonth(year, month) <= 31
  {
  }

  lemma DayWithinYear(date: Date)
    requires date.Real()
    ensures DayFromYear(date.year) <= DayOf(date) < DayFromYear(date.year + 1)
    ensures DayOf(date) == DayFromYear(date.year) + MonthStart(date.month - 1, Leap(date.year)) + date.day - 1
  {
    PlainDay(date.year, date.month, date.day);
    YearLength(date.year);
    MonthsAscend(0, date.month - 1, Leap(date.year));
    MonthsAscend(date.month, 12, Leap(date.year));
  }

  lemma EarlierDay(one: Date, other: Date)
    requires one.Real() && other.Real() && one.Before(other)
    ensures DayOf(one) < DayOf(other)
  {
    DayWithinYear(one);
    DayWithinYear(other);
    if one.year < other.year {
      EarlierYear(one.year, other.year);
    } else {
      EarlierInYear(one, other);
    }
  }

  lemma EarlierYear(y: int, z: int)
    requires y < z
    ensures DayFromYear(y + 1) <= DayFromYear(z)
  {
    YearsAscend(y + 1, z);
  }

  lemma EarlierInYear(one: Date, other: Date)
    requires one.Real() && other.Real() && one.Before(other) && one.year == other.year
    ensures var leap := Leap(one.year);
      MonthStart(one.month - 1, leap) + one.day < MonthStart(other.month - 1, leap) + other.day
  {
    if one.month < other.month {
      MonthsAscend(one.month, other.month - 1, Leap(one.year));
    }
  }

  /** Dates and day numbers are in the same order. */
  lemma DaysInOrder(one: Date, other: Date)
    requires one.Real() && other.Real()
    ensures one.Before(other) <==> DayOf(one) < DayOf(other)
    ensures one == other <==> DayOf(one) == DayOf(other)
  {
    if one.Before(other) {
      EarlierDay(one, other);
    } else if other.Before(one) {
      EarlierDay(other, one);
    }
  }

  lemma DayOfDate(date: Date)
    requires date.Real()
    ensures DateOf(DayOf(date)) == date
  {
    DateOfDay(DayOf(date));
    DaysInOrder(DateOf(DayOf(date)), date);
  }

  // ---- The months, checked against a rule of their own ----

  /** From March on the days before a month follow the rule of 153 days to five months. */
  lemma MonthsByRule(month: int, leap: bool)
    requires 2 <= month <= 12
    ensures MonthStart(month, leap) - MonthStart(2, leap) == (153 * (month - 2) + 2) / 5
    ensures MonthStart(0, leap) == 0 && MonthStart(1, leap) == 31 && MonthStart(2, leap) == if leap then 60 else 59
  {
  }

  lemma MonthLength(month: int, leap: bool)
    requires 1 <= month <= 12
    ensures MonthStart(month, leap) - MonthStart(month - 1, leap) ==
      if month in {4, 6, 9, 11} then 30 else if month == 2 then (if leap then 29 else 28) else 31
  {
  }

  /** April, June, September and November have 30 days, February 28 or 29, the others 31. */
  lemma MonthDays(year: int, month: int)
    requires 1 <= month <= 12
    ensures DaysInMonth(year, month) ==
      if month in {4, 6, 9, 11} then 30 else if month == 2 then (if Leap(year) then 29 else 28) else 31
  {
    MonthLength(month, Leap(year));
  }

  function NextDate(date: Date): Date
    requires date.Real()
  {
    if date.day < DaysInMonth(date.year, date.month) then Date(date.year, date.month, date.day + 1)
    else if date.month < 12 then Date(date.year, date.month + 1, 1)
    else Date(date.year + 1, 1, 1)
  }

  /** The day after the last of a month is the first of the next, the day after the last of December that of the next year. */
  lemma NextDay(date: Date)
    requires date.Real()
    ensures NextDate(date).Real() && DateOf(DayOf(date) + 1) == NextDate(date)
  {
    if date.day < DaysInMonth(date.year, date.month) {
      NextInMonth(date);
    } else if date.month < 12 {
      FirstOfNextMonth(date);
    } else {
      FirstOfNextYear(date);
    }
    DayOfDate(NextDate(date));
  }

  lemma NextInMonth(date: Date)
    requires date.Real() && date.day < DaysInMonth(date.year, date.month)
    ensures DayOf(NextDate(date)) == DayOf(date) + 1 && NextDate(date).Real()
  {
    OneDayMore(date.year, date.month - 1, date.day, date.day + 1);
  }

  lemma OneDayMore(year: int, month: int, day: int, day': int)
    requires day' == day + 1
    ensures MakeDay(year, month, day') == MakeDay(year, month, day) + 1
  {
  }

  lemma FirstOfNextMonth(date: Date)
    requires date.Real() && date.day == DaysInMonth(date.year, date.month) && date.month < 12
    ensures DayOf(NextDate(date)) == DayOf(date) + 1 && NextDate(date).Real()
  {
    PlainDay(date.year, date.month, date.day);
    PlainDay(date.year, date.month + 1, 1);
    MonthLengths(date.year, date.month + 1);
  }

  lemma FirstOfNextYear(date: Date)
    requires date.Real() && date.day == DaysInMonth(date.year, date.month) && date.month == 12
    ensures DayOf(NextDate(date)) == DayOf(date) + 1 && NextDate(date).Real()
  {
    LastOfYear(date);
    FirstOfYear(date.year + 1);
  }

  lemma LastOfYear(date: Date)
    requires date.Real() && date.day == DaysInMonth(date.year, date.month) && date.month == 12
    ensures DayOf(date) == DayFromYear(date.year + 1) - 1
  {
    DayWithinYear(date);
    YearLength(date.year);
  }

  lemma FirstOfYear(year: int)
    ensures Date(year, 1, 1).Real() && DayOf(Date(year, 1, 1)) == DayFromYear(year)
  {
    PlainDay(year, 1, 1);
    MonthLengths(year, 1);
  }

  /** Days are counted from the first of January 1970. */
  lemma FirstDay()
    ensures DateOf(0) == Date(1970, 1, 1)
  {
    PlainDay(1970, 1, 1);
    DayOfDate(Date(1970, 1, 1));
  }

  /** A day has twenty-four hours, and a `Date` holds a hundred million of them either way. */
  lemma DayLength()
    ensures DAY_MS == 24 * 60 * 60 * 1000 && MAX_MS == 100_000_000 * DAY_MS
  {
  }
}
