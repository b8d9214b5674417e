/**
 Which periods an investor report may be asked for, and the one offered (lib/investor-report-period.ts).
 The period offered is always one that may be asked for, as long as it lies in the years that have a text.
 */
module ReportPeriod {
  import opened Wrappers
  import opened Calendar
  import opened Dates

  datatype Cadence = Weekly | Monthly

  datatype Problem = NoStart | NoEnd | NotRealDays | EndsBeforeStart | AfterToday | TooLong(days: int)

  /** The longest period of a cadence, both ends included. */
  function Longest(cadence: Cadence): int {
    match cadence
    case Weekly => 7
    case Monthly => 31
  }

  /** The first thing wrong with two times, each given or not. */
  function Judge(startGiven: bool, endGiven: bool, from: Option<int>, to: Option<int>, cadence: Cadence, today: Option<int>): Option<Problem> {
    if !startGiven then Some(NoStart)
    else if !endGiven then Some(NoEnd)
    else if from.None? || to.None? then Some(NotRealDays)
    else if to.value < from.value then Some(EndsBeforeStart)
    else if today.Some? && to.value > today.value then Some(AfterToday)
    else
      var days := DaysApart(from, to).value + 1;
      if days > Longest(cadence) then Some(TooLong(days)) else None
  }

  function PeriodProblem(start: string, end: string, cadence: Cadence, today: string): Option<Problem> {
    Judge(start != [], end != [], UtcOf(start), UtcOf(end), cadence, UtcOf(today))
  }

  lemma JudgedDays(a: int, b: int, cadence: Cadence, today: Option<int>)
    ensures var problem := Judge(true, true, Some(a * DAY_MS), Some(b * DAY_MS), cadence, today);
      var late := today.Some? && b * DAY_MS > today.value;
      && (problem.None? <==> a <= b && !late && b - a + 1 <= Longest(cadence))
      && (b < a ==> problem == Some(EndsBeforeStart))
      && (a <= b && late ==> problem == Some(AfterToday))
      && (a <= b && !late && b - a + 1 > Longest(cadence) ==> problem == Some(TooLong(b - a + 1)))
  {
    MidnightsApart(a, b - a);
    assert a + (b - a) == b;
  }

  /** The days a cadence covers at most: a week, or the longest month. */
  lemma LongestIs()
    ensures Longest(Weekly) == 7 && Longest(Monthly) == 31
  {
  }

  /** A period may be asked for exactly when both ends are real days in order, no more of them than the cadence
      covers, and the end is not after today, if today is a day at all. */
  lemma AcceptedExactlyWhen(start: string, end: string, cadence: Cadence, today: string)
    ensures PeriodProblem(start, end, cadence, today).None? <==>
      exists a, b :: UtcOf(start) == Some(a * DAY_MS) && UtcOf(end) == Some(b * DAY_MS) && a <= b
        && b - a + 1 <= (if cadence == Weekly then 7 else 31)
        && (UtcOf(today).Some? ==> b * DAY_MS <= UtcOf(today).value)
  {
    LongestIs();
    if UtcOf(start).Some? && UtcOf(end).Some? {
      var a := MidnightOf(start);
      var b := MidnightOf(end);
      JudgedDays(a, b, cadence, UtcOf(today));
    }
  }

  /** Which reason is given: the first that applies, of a missing end, an end that is no day, the wrong order, an end
      after today, and too many days. */
  lemma ReasonGiven(start: string, end: string, cadence: Cadence, today: string)
    ensures var problem := PeriodProblem(start, end, cadence, today);
      && (problem == Some(NoStart) <==> start == "")
      && (problem == Some(NoEnd) <==> start != "" && end == "")
      && (problem == Some(NotRealDays) <==> start != "" && end != "" && (UtcOf(start).None? || UtcOf(end).None?))
  {
    FirstReasons(start != "", end != "", UtcOf(start), UtcOf(end), cadence, UtcOf(today));
  }

  lemma FirstReasons(startGiven: bool, endGiven: bool, from: Option<int>, to: Option<int>, cadence: Cadence, today: Option<int>)
    ensures var problem := Judge(startGiven, endGiven, from, to, cadence, today);
      && (problem == Some(NoStart) <==> !startGiven)
      && (problem == Some(NoEnd) <==> startGiven && !endGiven)
      && (problem == Some(NotRealDays) <==> startGiven && endGiven && (from.None? || to.None?))
  {
  }

  lemma ReasonForDays(start: string, end: string, cadence: Cadence, today: string, a: int, b: int)
    requires UtcOf(start) == Some(a * DAY_MS) && UtcOf(end) == Some(b * DAY_MS)
    ensures var problem := PeriodProblem(start, end, cadence, today);
      var late := UtcOf(today).Some? && b * DAY_MS > UtcOf(today).value;
      && (problem == Some(EndsBeforeStart) <==> b < a)
      && (problem == Some(AfterToday) <==> a <= b && late)
      && (problem == Some(TooLong(b - a + 1)) <==> a <= b && !late && b - a + 1 > Longest(cadence))
  {
    JudgedDays(a, b, cadence, UtcOf(today));
    DaysGiven(start, end, cadence, today, UtcOf(start), UtcOf(end), UtcOf(today));
  }

  lemma DaysGiven(start: string, end: string, cadence: Cadence, today: string, from: Option<int>, to: Option<int>, now: Option<int>)
    requires UtcOf(start) == from && UtcOf(end) == to && UtcOf(today) == now && from.Some? && to.Some?
    ensures PeriodProblem(start, end, cadence, today) == Judge(true, true, from, to, cadence, now)
  {
    assert UtcOf("").None?;
  }

  lemma MidnightOf(iso: string) returns (day: int)
    requires UtcOf(iso).Some?
    ensures UtcOf(iso) == Some(day * DAY_MS) && iso != []
  {
    UtcIsMidnight(iso);
    day := DayOf(DateOf(DayPart(UtcOf(iso).value)));
  }

  // ---- The period offered ----

  datatype Period = Period(start: string, end: string)

  /** `getUTCDay`: Sunday is 0. */
  function WeekDay(day: int): int { (day + 4) % 7 }

  /** The first of January 1970 was a Thursday, and the days of the week follow one another. */
  lemma WeekDaysGoOn(day: int)
    ensures WeekDay(0) == 4 && 0 <= WeekDay(day) < 7
    ensures WeekDay(day + 1) == if WeekDay(day) == 6 then 0 else WeekDay(day) + 1
  {
  }

  function SinceMonday(day: int): int { (WeekDay(day) + 6) % 7 }

  function WeekBefore(now: int): Result<Period, RangeError> {
    WeekEnding(IsoOf(Some(now - (SinceMonday(DayPart(now)) + 1) * DAY_MS)))
  }

  function WeekEnding(sunday: Result<string, RangeError>): Result<Period, RangeError> {
    match sunday
    case Err(e) => Err(e)
    case Ok(end) =>
      match AddDays(end, -6)
      case Err(e) => Err(e)
      case Ok(start) => Ok(Period(start, end))
  }

  function MonthBefore(now: int): Result<Period, RangeError> {
    MonthBeforeDate(DateOf(DayPart(now)))
  }

  function MonthBeforeDate(date: Date): Result<Period, RangeError> {
    MonthUpTo(FirstOfMonth(date, 1), FirstOfMonth(date, 0))
  }

  /** Midnight of the first of a date's month, or of the month so many before. */
  function FirstOfMonth(date: Date, back: int): Option<int> {
    DateUtc(date.year, date.month - 1 - back, 1)
  }

  /** The days from one midnight up to but not including another, as text. */
  function MonthUpTo(first: Option<int>, next: Option<int>): Result<Period, RangeError> {
    MonthOf(IsoOf(first), IsoOf(DayEarlier(next)))
  }

  function DayEarlier(ms: Option<int>): Option<int> {
    if ms.Some? then Some(ms.value - DAY_MS) else None
  }

  function MonthOf(first: Result<string, RangeError>, last: Result<string, RangeError>): Result<Period, RangeError> {
    match first
    case Err(e) => Err(e)
    case Ok(start) =>
      match last
      case Err(e) => Err(e)
      case Ok(end) => Ok(Period(start, end))
  }

  function DefaultPeriod(cadence: Cadence, today: string): Result<Period, RangeError> {
    match UtcOf(today)
    case None => Err(RangeError)
    case Some(now) => if cadence == Weekly then WeekBefore(now) else MonthBefore(now)
  }

  /** The first and last day of the whole week before a day. */
  function WeekFirst(day: int): int { day - SinceMonday(day) - 7 }

  function WeekLast(day: int): int { day - SinceMonday(day) - 1 }

  /** It runs from a Monday to a Sunday, and is the last such week that is over. */
  lemma WholeWeek(day: int)
    ensures WeekDay(WeekFirst(day)) == 1 && WeekDay(WeekLast(day)) == 0
    ensures WeekLast(day) == WeekFirst(day) + 6 && WeekLast(day) < day <= WeekLast(day) + 7
  {
  }

  /** A period was worked out, and it may be asked for. */
  predicate Offered(period: Result<Period, RangeError>, cadence: Cadence, today: string) {
    period.Ok? && PeriodProblem(period.value.start, period.value.end, cadence, today).None?
  }

  /** A period of these days, as text. */
  predicate Names(period: Result<Period, RangeError>, first: int, last: int) {
    period.Ok? && UtcOf(period.value.start) == Some(first * DAY_MS) && UtcOf(period.value.end) == Some(last * DAY_MS)
  }

  lemma NamedIsOffered(period: Result<Period, RangeError>, first: int, last: int, cadence: Cadence, today: string, t: int)
    requires Names(period, first, last) && UtcOf(today) == Some(t * DAY_MS)
    requires first <= last <= t && last - first + 1 <= Longest(cadence)
    ensures Offered(period, cadence, today)
  {
    AcceptedExactlyWhen(period.value.start, period.value.end, cadence, today);
  }

  /** Both ends are days that have a time. */
  predicate ReadsBack(period: Result<Period, RangeError>) {
    period.Ok? && UtcOf(period.value.start).Some? && UtcOf(period.value.end).Some?
  }

  lemma OfferedWhenNamed(period: Result<Period, RangeError>, written: bool, first: int, last: int, cadence: Cadence, today: string, t: int)
    requires UtcOf(today) == Some(t * DAY_MS) && first <= last <= t && last - first + 1 <= Longest(cadence)
    requires if written then Names(period, first, last) else !ReadsBack(period)
    ensures Offered(period, cadence, today) <==> written
  {
    if written {
      NamedIsOffered(period, first, last, cadence, today, t);
    }
  }

  lemma DefaultPeriodIs(cadence: Cadence, today: string, t: int)
    requires UtcOf(today) == Some(t * DAY_MS)
    ensures DefaultPeriod(cadence, today) == if cadence == Weekly then WeekBefore(t * DAY_MS) else MonthBefore(t * DAY_MS)
  {
  }

  /** The week offered is the last whole one before today, and may be asked for, exactly when it lies in the
      years that have a text. */
  lemma WeekOffered(today: string, t: int)
    requires UtcOf(today) == Some(t * DAY_MS)
    ensures InWrittenYears(WeekFirst(t)) ==> Names(DefaultPeriod(Weekly, today), WeekFirst(t), WeekLast(t))
    ensures Offered(DefaultPeriod(Weekly, today), Weekly, today) <==> InWrittenYears(WeekFirst(t))
  {
    WholeWeek(t);
    TodayWritten(today, t);
    WeekNamed(t);
    DefaultPeriodIs(Weekly, today, t);
    OfferedWhenNamed(WeekBefore(t * DAY_MS), InWrittenYears(WeekFirst(t)), WeekFirst(t), WeekLast(t), Weekly, today, t);
  }

  lemma TodayWritten(today: string, t: int)
    requires UtcOf(today) == Some(t * DAY_MS)
    ensures InWrittenYears(t)
  {
    UtcIsMidnight(today);
    WholeDay(t);
    WrittenYears(t);
  }

  lemma WeekNamed(t: int)
    requires InWrittenYears(t)
    ensures InWrittenYears(WeekFirst(t)) ==> Names(WeekBefore(t * DAY_MS), WeekFirst(t), WeekLast(t))
    ensures !InWrittenYears(WeekFirst(t)) ==> !ReadsBack(WeekBefore(t * DAY_MS))
  {
    WholeWeek(t);
    WeekBeforeIs(t, WeekLast(t));
    WeekEndingNamed(WeekFirst(t), WeekLast(t));
  }

  lemma WeekBeforeIs(t: int, sunday: int)
    requires sunday == WeekLast(t)
    ensures WeekBefore(t * DAY_MS) == WeekEnding(IsoOf(Some(sunday * DAY_MS)))
  {
    WholeDay(t);
    MidnightPlus(t, -(SinceMonday(t) + 1));
  }

  lemma WeekEndingNamed(monday: int, sunday: int)
    requires monday == sunday - 6 && sunday < DayFromYear(10_000)
    ensures var period := WeekEnding(IsoOf(Some(sunday * DAY_MS)));
      && (InWrittenYears(monday) ==> Names(period, monday, sunday))
      && (!InWrittenYears(monday) ==> !ReadsBack(period))
  {
    DayReadBack(sunday);
    var end := IsoOf(Some(sunday * DAY_MS));
    if end.Ok? && UtcOf(end.value).Some? {
      AddedDays(end.value, sunday, -6);
      DayReadBack(monday);
    }
  }

  // ---- The month ----

  function MonthFirst(year: int, month: int): int {
    MakeDay(year, month - 1, 1)
  }

  /** The month before a month. */
  function Previous(date: Date): Date {
    if date.month == 1 then Date(date.year - 1, 12, 1) else Date(date.year, date.month - 1, 1)
  }

  /** The month before begins where `MakeDay` puts the month one less, whatever the year. */
  lemma PreviousBegins(date: Date)
    requires date.Real()
    ensures Previous(date).Real() && MonthFirst(date.year, date.month - 1) == DayOf(Previous(date))
  {
    if date.month == 1 {
      assert (date.month - 2) / 12 == -1 && (date.month - 2) % 12 == 11;
    }
  }

  /** It runs up to the day before the month's first, and is no longer than the cadence covers. */
  lemma PreviousEnds(date: Date)
    requires date.Real()
    ensures var before := Previous(date);
      && before.Real() && 28 <= DaysInMonth(before.year, before.month) <= 31
      && MonthFirst(date.year, date.month) == DayOf(before) + DaysInMonth(before.year, before.month)
  {
    var before := Previous(date);
    MonthLengths(before.year, before.month);
    PlainDay(before.year, before.month, 1);
    PlainDay(date.year, date.month, 1);
    if date.month == 1 {
      YearLength(before.year);
    }
  }

  lemma MonthFirstWithin(date: Date)
    requires date.Real()
    ensures DayFromYear(date.year) <= MonthFirst(date.year, date.month) <= DayOf(date) < DayFromYear(date.year + 1)
  {
    DayWithinYear(date);
    PlainDay(date.year, date.month, 1);
    MonthsAscend(0, date.month - 1, Leap(date.year));
  }

  lemma FirstOfMonthIs(date: Date, back: int, at: int)
    requires date.year >= 100 && MonthFirst(date.year, date.month - back) == at && -50_000_000 <= at <= 50_000_000
    ensures FirstOfMonth(date, back) == Some(at * DAY_MS)
  {
    assert date.month - back - 1 == date.month - 1 - back;
  }

  /** `Date.UTC` takes both month starts as they are. */
  lemma MonthStartsInRange(date: Date, first: int, firstOfLast: int)
    requires Written(date) && first == MonthFirst(date.year, date.month) && firstOfLast == DayOf(Previous(date))
    ensures FirstOfMonth(date, 0) == Some(first * DAY_MS) && FirstOfMonth(date, 1) == Some(firstOfLast * DAY_MS)
  {
    MonthStartsBounded(date);
    FirstOfMonthIs(date, 0, first);
    LastMonthStarts(date, firstOfLast);
  }

  lemma LastMonthStarts(date: Date, firstOfLast: int)
    requires Written(date) && firstOfLast == DayOf(Previous(date)) && -50_000_000 <= firstOfLast <= 50_000_000
    ensures FirstOfMonth(date, 1) == Some(firstOfLast * DAY_MS)
  {
    PreviousBegins(date);
    FirstOfMonthIs(date, 1, firstOfLast);
  }

  lemma MonthStartsBounded(date: Date)
    requires Written(date)
    ensures -50_000_000 <= DayOf(Previous(date)) <= MonthFirst(date.year, date.month) <= 50_000_000
  {
    PreviousEnds(date);
    MonthFirstWithin(date);
    YearBounds(date.year);
    YearBounds(date.year + 1);
  }

  lemma MonthBeforeIs(date: Date, first: int, firstOfLast: int)
    requires Written(date) && first == MonthFirst(date.year, date.month) && firstOfLast == DayOf(Previous(date))
    ensures MonthBefore(DayOf(date) * DAY_MS) == MonthOf(IsoOf(Some(firstOfLast * DAY_MS)), IsoOf(Some((first - 1) * DAY_MS)))
  {
    DateOfMidnight(date);
    MonthBeforeDateIs(date, first, firstOfLast);
  }

  lemma MonthBeforeDateIs(date: Date, first: int, firstOfLast: int)
    requires Written(date) && first == MonthFirst(date.year, date.month) && firstOfLast == DayOf(Previous(date))
    ensures MonthBeforeDate(date) == MonthOf(IsoOf(Some(firstOfLast * DAY_MS)), IsoOf(Some((first - 1) * DAY_MS)))
  {
    MonthStartsInRange(date, first, firstOfLast);
    MonthFromStarts(date, Some(first * DAY_MS), Some(firstOfLast * DAY_MS));
    MonthOfMidnights(firstOfLast, first);
  }

  lemma MonthFromStarts(date: Date, first: Option<int>, firstOfLast: Option<int>)
    requires FirstOfMonth(date, 0) == first && FirstOfMonth(date, 1) == firstOfLast
    ensures MonthBeforeDate(date) == MonthUpTo(firstOfLast, first)
  {
  }

  lemma MonthOfMidnights(first: int, next: int)
    ensures MonthUpTo(Some(first * DAY_MS), Some(next * DAY_MS)) == MonthOf(IsoOf(Some(first * DAY_MS)), IsoOf(Some((next - 1) * DAY_MS)))
  {
    DayEarlierThan(next);
  }

  lemma DateOfMidnight(date: Date)
    requires date.Real()
    ensures DateOf(DayPart(DayOf(date) * DAY_MS)) == date
  {
    WholeDay(DayOf(date));
    DayOfDate(date);
  }

  lemma DayEarlierThan(day: int)
    ensures DayEarlier(Some(day * DAY_MS)) == Some((day - 1) * DAY_MS)
  {
  }

  lemma BeforeWritten(date: Date)
    requires Written(date)
    ensures InWrittenYears(DayOf(Previous(date))) <==> Previous(date).year >= 100
  {
    var before := Previous(date);
    PreviousBegins(date);
    DayWithinYear(before);
    YearWritten(DayOf(before), before.year);
  }

  /** Which days of a year have a text. */
  lemma YearWritten(day: int, year: int)
    requires DayFromYear(year) <= day < DayFromYear(year + 1) && year < 10_000
    ensures InWrittenYears(day) <==> year >= 100
  {
    YearsAscend(year + 1, 10_000);
    if year >= 100 {
      YearsAscend(100, year);
    } else {
      YearsAscend(year + 1, 100);
    }
  }

  lemma LastWritten(date: Date)
    requires Written(date) && Previous(date).year >= 100
    ensures InWrittenYears(MonthFirst(date.year, date.month) - 1)
  {
    BeforeWritten(date);
    PreviousEnds(date);
    MonthFirstWithin(date);
    YearsAscend(date.year + 1, 10_000);
  }

  lemma MonthOfNamed(first: int, last: int)
    ensures var period := MonthOf(IsoOf(Some(first * DAY_MS)), IsoOf(Some(last * DAY_MS)));
      && (InWrittenYears(first) && InWrittenYears(last) ==> Names(period, first, last))
      && (!InWrittenYears(first) ==> !ReadsBack(period))
  {
    DayReadBack(first);
    DayReadBack(last);
  }

  /** The month offered runs from the first of the month before today's to the day before today's month, and
      may be asked for, exactly when that month is of the year 100 or later. */
  lemma MonthOffered(today: string, date: Date)
    requires Written(date) && today == IsoText(date)
    ensures var period := DefaultPeriod(Monthly, today);
      && (Previous(date).year >= 100 ==> Names(period, DayOf(Previous(date)), MonthFirst(date.year, date.month) - 1))
      && (Offered(period, Monthly, today) <==> Previous(date).year >= 100)
  {
    UtcOfText(date);
    MonthConcluded(today, date, DayOf(date), DayOf(Previous(date)), MonthFirst(date.year, date.month));
  }

  lemma MonthConcluded(today: string, date: Date, t: int, first: int, next: int)
    requires Written(date) && UtcOf(today) == Some(t * DAY_MS) && t == DayOf(date)
    requires first == DayOf(Previous(date)) && next == MonthFirst(date.year, date.month)
    ensures Previous(date).year >= 100 ==> Names(DefaultPeriod(Monthly, today), first, next - 1)
    ensures Offered(DefaultPeriod(Monthly, today), Monthly, today) <==> Previous(date).year >= 100
  {
    MonthDays(date, t, first, next);
    MonthNamed(date, t, first, next);
    DefaultPeriodIs(Monthly, today, t);
    OfferedWhenNamed(DefaultPeriod(Monthly, today), Previous(date).year >= 100, first, next - 1, Monthly, today, t);
  }

  lemma MonthDays(date: Date, t: int, first: int, next: int)
    requires Written(date) && t == DayOf(date) && first == DayOf(Previous(date)) && next == MonthFirst(date.year, date.month)
    ensures first < next <= t && next - first <= 31
  {
    PreviousEnds(date);
    MonthFirstWithin(date);
  }

  lemma MonthNamed(date: Date, t: int, first: int, next: int)
    requires Written(date) && t == DayOf(date) && first == DayOf(Previous(date)) && next == MonthFirst(date.year, date.month)
    ensures if Previous(date).year >= 100 then Names(MonthBefore(t * DAY_MS), first, next - 1) else !ReadsBack(MonthBefore(t * DAY_MS))
  {
    MonthBeforeIs(date, next, first);
    BeforeWritten(date);
    if Previous(date).year >= 100 {
      LastWritten(date);
    }
    MonthOfNamed(first, next - 1);
  }

  // ---- Early in the year 100 ----

  /** On the first day of the year 100 the week offered may not be asked for: it begins in a year that has no text. */
  lemma EarlyWeekIsRejected(today: string)
    requires today == IsoText(Date(100, 1, 1))
    ensures !Offered(DefaultPeriod(Weekly, today), Weekly, today)
  {
    var day := DayOf(Date(100, 1, 1));
    FirstWrittenDay();
    UtcOfText(Date(100, 1, 1));
    WholeWeek(day);
    WeekOffered(today, day);
  }

  /** Nor may the month offered. */
  lemma EarlyMonthIsRejected(today: string)
    requires today == IsoText(Date(100, 1, 1))
    ensures !Offered(DefaultPeriod(Monthly, today), Monthly, today)
  {
    MonthOffered(today, Date(100, 1, 1));
  }
}
