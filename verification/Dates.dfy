/**
 Calendar days as `YYYY-MM-DD` text (lib/dates.ts). `None` stands for NaN and `Err` for the `RangeError`
 that printing an invalid `Date` throws.
 */
module Dates {
  import opened Wrappers
  import opened Calendar
  import TextOrder

  // ---- Digits ----

  predicate IsDigit(c: char) { '0' <= c <= '9' }

  function Digit(n: int): (c: char)
    requires 0 <= n < 10
    ensures IsDigit(c)
  {
    ('0' as int + n) as char
  }

  function ValueOf(c: char): int {
    c as int - '0' as int
  }

  function Two(n: int): (s: string)
    requires 0 <= n < 100
    ensures |s| == 2 && IsDigit(s[0]) && IsDigit(s[1]) && Number2(s) == n
  {
    [Digit(n / 10), Digit(n % 10)]
  }

  function Number2(s: string): int
    requires |s| == 2
  {
    10 * ValueOf(s[0]) + ValueOf(s[1])
  }

  // ---- Text and time ----

  /** The year as four digits, for the years that have them. */
  function YearText(year: int): string
    requires 0 <= year <= 9999
  {
    Two(year / 100) + Two(year % 100)
  }

  /** The first ten characters of `toISOString`: beyond the years 0 to 9999 the year takes a sign and six digits. */
  function IsoText(date: Date): (s: string)
    requires date.Real() && -1_000_000 < date.year < 1_000_000
    ensures |s| == 10
  {
    if 0 <= date.year <= 9999 then YearText(date.year) + "-" + Two(date.month) + "-" + Two(date.day)
    else
      var n := if date.year < 0 then -date.year else date.year;
      (if date.year < 0 then "-" else "+") + Two(n / 10_000) + Two(n / 100 % 100) + Two(n % 100) + "-" + Two(date.month)
  }

  /** A year that has no four digits is written with its sign and six; of the rest the month is left. */
  lemma SignedYear(date: Date)
    requires date.Real() && -1_000_000 < date.year < 1_000_000 && !(0 <= date.year <= 9999)
    ensures var s := IsoText(date);
      && s[0] == (if date.year < 0 then '-' else '+') && s[7] == '-' && Number2(s[8..]) == date.month
      && 10_000 * Number2(s[1..3]) + 100 * Number2(s[3..5]) + Number2(s[5..7]) == if date.year < 0 then -date.year else date.year
  {
    var n := if date.year < 0 then -date.year else date.year;
    var a, b, c, m := Two(n / 10_000), Two(n / 100 % 100), Two(n % 100), Two(date.month);
    var s := IsoText(date);
    assert s[1..3] == a && s[3..5] == b && s[5..7] == c && s[8..] == m;
    SixDigits(n);
  }

  lemma SixDigits(n: nat)
    ensures 10_000 * (n / 10_000) + 100 * (n / 100 % 100) + n % 100 == n
  {
    assert n / 100 == 100 * (n / 10_000) + n / 100 % 100;
  }

  function DayPart(ms: int): int { ms / DAY_MS }

  lemma YearInRange(day: int)
    requires -100_000_000 <= day <= 100_000_000
    ensures -1_000_000 < YearOf(day) < 1_000_000
  {
    var y := YearOf(day);
    if y >= 1_000_000 {
      YearsAscend(1970, y);
    } else if y <= -1_000_000 {
      YearsAscend(y + 1, 1970);
    }
  }

  function IsoOf(ms: Option<int>): Result<string, RangeError> {
    if ms.None? || !(-MAX_MS <= ms.value <= MAX_MS) then Err(RangeError)
    else
      YearInRange(DayPart(ms.value));
      Ok(IsoText(DateOf(DayPart(ms.value))))
  }

  /** `Date.UTC`: a year from 0 to 99 means one of the twentieth century. `month` counts from 0. */
  function DateUtc(year: int, month: int, day: int): Option<int> {
    var y := if 0 <= year <= 99 then 1900 + year else year;
    var ms := MakeDay(y, month, day) * DAY_MS;
    if -MAX_MS <= ms <= MAX_MS then Some(ms) else None
  }

  /** Four digits, a dash, two digits, a dash, two digits. */
  predicate LooksLikeDay(s: string) {
    |s| == 10 && s[4] == '-' && s[7] == '-'
    && forall i :: 0 <= i < 10 && i != 4 && i != 7 ==> IsDigit(s[i])
  }

  /** The year, month and day a text names, on the calendar or not. */
  function Named(iso: string): Date
    requires LooksLikeDay(iso)
  {
    Date(100 * Number2(iso[..2]) + Number2(iso[2..4]), Number2(iso[5..7]), Number2(iso[8..]))
  }

  function UtcOf(iso: string): Option<int> {
    if !LooksLikeDay(iso) then None
    else
      var ms := UtcNamed(Named(iso));
      if IsoOf(ms) == Ok(iso) then ms else None
  }

  function UtcNamed(date: Date): Option<int> {
    DateUtc(date.year, date.month - 1, date.day)
  }

  function AddDays(iso: string, days: int): Result<string, RangeError> {
    match UtcOf(iso)
    case None => IsoOf(None)
    case Some(ms) => IsoOf(Some(ms + days * DAY_MS))
  }

  /** `Math.round` of a number of milliseconds over a day. */
  function RoundedDays(ms: int): int {
    (2 * ms + DAY_MS) / (2 * DAY_MS)
  }

  function DaysApart(from: Option<int>, to: Option<int>): Option<int> {
    if from.Some? && to.Some? then Some(RoundedDays(to.value - from.value)) else None
  }

  function DaysBetween(from: string, to: string): Option<int> {
    DaysApart(UtcOf(from), UtcOf(to))
  }

  // ---- What the texts mean ----

  /** The dates that have a text `utcOf` understands. */
  predicate Written(date: Date) {
    date.Real() && 100 <= date.year <= 9999
  }

  lemma TextParts(date: Date)
    requires date.Real() && 0 <= date.year <= 9999
    ensures LooksLikeDay(IsoText(date)) && Named(IsoText(date)) == date
  {
    var s := IsoText(date);
    var c, y, m, d := Two(date.year / 100), Two(date.year % 100), Two(date.month), Two(date.day);
    assert s == c + y + "-" + m + "-" + d;
    assert s[..2] == c && s[2..4] == y && s[5..7] == m && s[8..] == d;
  }

  lemma TimesInRange(date: Date)
    requires date.Real() && 0 <= date.year <= 9999
    ensures -MAX_MS <= DayOf(date) * DAY_MS <= MAX_MS
    ensures DayPart(DayOf(date) * DAY_MS) == DayOf(date)
  {
    DayWithinYear(date);
    YearBounds(date.year);
    YearBounds(date.year + 1);
    WholeDay(DayOf(date));
    WholeDayInRange(DayOf(date) * DAY_MS, DayOf(date));
  }

  lemma IsoOfDay(date: Date)
    requires date.Real() && 0 <= date.year <= 9999
    ensures IsoOf(Some(DayOf(date) * DAY_MS)) == Ok(IsoText(date))
  {
    TimesInRange(date);
    DayOfDate(date);
  }

  /** The text of a day gives its midnight. */
  lemma UtcOfText(date: Date)
    requires Written(date)
    ensures UtcOf(IsoText(date)) == Some(DayOf(date) * DAY_MS)
  {
    TextParts(date);
    DateUtcOfDate(date);
    IsoOfDay(date);
    UtcFromPrint(IsoText(date), date, Some(DayOf(date) * DAY_MS));
  }

  lemma UtcFromPrint(iso: string, date: Date, ms: Option<int>)
    requires LooksLikeDay(iso) && Named(iso) == date
    requires UtcNamed(date) == ms && IsoOf(ms) == Ok(iso)
    ensures UtcOf(iso) == ms
  {
  }

  lemma DateUtcOfDate(date: Date)
    requires Written(date)
    ensures UtcNamed(date) == Some(DayOf(date) * DAY_MS)
  {
    TimesInRange(date);
  }

  /** Only the text of a day on the calendar gives a time: the thirtieth of February is not one. */
  lemma UtcOfRealDaysOnly(iso: string)
    ensures UtcOf(iso).Some? <==> exists date :: Written(date) && iso == IsoText(date)
  {
    if UtcOf(iso).Some? {
      var date := DateOf(DayPart(UtcOf(iso).value));
      UtcIsMidnight(iso);
      assert Written(date) && iso == IsoText(date);
    }
    if date :| Written(date) && iso == IsoText(date) {
      UtcOfText(date);
    }
  }

  lemma UtcIsMidnight(iso: string)
    requires UtcOf(iso).Some?
    ensures var date := DateOf(DayPart(UtcOf(iso).value));
      Written(date) && iso == IsoText(date) && UtcOf(iso) == Some(DayOf(date) * DAY_MS)
  {
    var ms := UtcPrints(iso);
    var date := PrintedDate(ms, iso);
    SignedIsNoDay(date);
    TextParts(date);
    MidnightOfDate(date, ms);
  }

  lemma UtcPrints(iso: string) returns (ms: int)
    requires UtcOf(iso).Some?
    ensures LooksLikeDay(iso) && IsoOf(Some(ms)) == Ok(iso) && UtcOf(iso) == Some(ms)
    ensures UtcNamed(Named(iso)) == Some(ms)
  {
    ms := UtcOf(iso).value;
  }

  lemma PrintedDate(ms: int, iso: string) returns (date: Date)
    requires IsoOf(Some(ms)) == Ok(iso)
    ensures date == DateOf(DayPart(ms)) && -1_000_000 < date.year < 1_000_000 && iso == IsoText(date)
  {
    date := DateOf(DayPart(ms));
    YearInRange(DayPart(ms));
  }

  /** A time made of the parts of its own date is a midnight, of a year that `Date.UTC` takes as it is. */
  lemma MidnightOfDate(date: Date, ms: int)
    requires date.Real() && 0 <= date.year <= 9999 && date == DateOf(DayPart(ms))
    requires UtcNamed(date) == Some(ms)
    ensures Written(date) && ms == DayOf(date) * DAY_MS
  {
    if date.year <= 99 {
      NoEarlyYears(date, ms);
    }
  }

  lemma NoEarlyYears(date: Date, ms: int)
    requires date.Real() && 0 <= date.year <= 99 && date == DateOf(DayPart(ms))
    ensures UtcNamed(date) != Some(ms)
  {
    var y := 1900 + date.year;
    var other := MakeDay(y, date.month - 1, date.day);
    DateOfDay(DayPart(ms));
    DayWithinYear(date);
    YearsAscend(date.year + 1, y);
    FirstOfYearAtMost(y, date.month, date.day);
    assert DayPart(ms) < other;
    WholeDay(other);
    EarlyYearsShift(date);
  }

  lemma WholeDay(day: int)
    ensures DayPart(day * DAY_MS) == day
  {
  }

  lemma EarlyYearsShift(date: Date)
    requires 0 <= date.year <= 99
    ensures UtcNamed(date).Some? ==> UtcNamed(date).value == MakeDay(1900 + date.year, date.month - 1, date.day) * DAY_MS
  {
  }

  lemma FirstOfYearAtMost(y: int, month: int, day: int)
    requires 1 <= month <= 12 && day >= 1
    ensures DayFromYear(y) <= MakeDay(y, month - 1, day)
  {
    assert (month - 1) / 12 == 0 && (month - 1) % 12 == month - 1;
    MonthsAscend(0, month - 1, Leap(y));
  }

  /** A year written with a sign does not look like a day. */
  lemma SignedIsNoDay(date: Date)
    requires date.Real() && -1_000_000 < date.year < 1_000_000
    ensures LooksLikeDay(IsoText(date)) ==> 0 <= date.year <= 9999
  {
    if !(0 <= date.year <= 9999) {
      assert IsoText(date)[0] == '-' || IsoText(date)[0] == '+';
    }
  }

  /** Reading a day and printing it gives the text back. */
  lemma ReadThenPrinted(iso: string)
    requires UtcOf(iso).Some?
    ensures IsoOf(UtcOf(iso)) == Ok(iso)
  {
    var same := UtcPrints(iso);
  }

  /** Printing a time and reading it gives its midnight, from the year 100 to the year 9999. */
  lemma PrintedThenRead(ms: int)
    requires InWrittenYears(DayPart(ms))
    ensures IsoOf(Some(ms)).Ok? && UtcOf(IsoOf(Some(ms)).value) == Some(DayPart(ms) * DAY_MS)
  {
    var day := DayPart(ms);
    YearBounds(100);
    YearBounds(10_000);
    WholeDayInRange(ms, day);
    WrittenYears(day);
    DateOfDay(day);
    UtcOfText(DateOf(day));
    SamePrint(ms);
  }

  lemma SamePrint(ms: int)
    requires -MAX_MS <= ms <= MAX_MS && Written(DateOf(DayPart(ms)))
    ensures IsoOf(Some(ms)) == Ok(IsoText(DateOf(DayPart(ms))))
  {
  }

  lemma WholeDayInRange(ms: int, day: int)
    requires DayPart(ms) == day && -50_000_000 <= day <= 50_000_000
    ensures -MAX_MS <= ms <= MAX_MS
  {
  }

  /** Days as texts are in the order of their times. */
  lemma TextsInOrder(one: Date, other: Date)
    requires Written(one) && Written(other)
    ensures TextOrder.Before(IsoText(one), IsoText(other)) <==> DayOf(one) < DayOf(other)
  {
    YearsInOrder(one.year, other.year);
    TwosInOrder(one.month, other.month);
    TwosInOrder(one.day, other.day);
    PartsOfText(one);
    PartsOfText(other);
    PartsInOrder(YearText(one.year), Two(one.month), Two(one.day), YearText(other.year), Two(other.month), Two(other.day));
    DaysInOrder(one, other);
  }

  lemma PartsOfText(date: Date)
    requires Written(date)
    ensures |YearText(date.year)| == 4
    ensures IsoText(date) == YearText(date.year) + ("-" + (Two(date.month) + ("-" + Two(date.day))))
  {
  }

  lemma YearsInOrder(x: int, y: int)
    requires 0 <= x < 10_000 && 0 <= y < 10_000
    ensures TextOrder.Before(YearText(x), YearText(y)) <==> x < y
    ensures YearText(x) == YearText(y) <==> x == y
  {
    var c, d, c', d' := Two(x / 100), Two(x % 100), Two(y / 100), Two(y % 100);
    TwosInOrder(x / 100, y / 100);
    TwosInOrder(x % 100, y % 100);
    TextOrder.PieceByPiece(c, d, c', d');
    assert YearText(x) == c + d && YearText(y) == c' + d';
    assert (c + d)[..2] == c && (c + d)[2..] == d && (c' + d')[..2] == c' && (c' + d')[2..] == d';
  }

  /** Year, month and day decide in this order. */
  lemma PartsInOrder(y: string, m: string, d: string, y': string, m': string, d': string)
    requires |y| == |y'| && |m| == |m'|
    ensures TextOrder.Before(y + ("-" + (m + ("-" + d))), y' + ("-" + (m' + ("-" + d')))) <==>
      TextOrder.Before(y, y') || (y == y' && (TextOrder.Before(m, m') || (m == m' && TextOrder.Before(d, d'))))
  {
    DashInOrder(m, d, m', d');
    DashInOrder(y, m + ("-" + d), y', m' + ("-" + d'));
  }

  lemma DashInOrder(p: string, q: string, p': string, q': string)
    requires |p| == |p'|
    ensures TextOrder.Before(p + ("-" + q), p' + ("-" + q')) <==> TextOrder.Before(p, p') || (p == p' && TextOrder.Before(q, q'))
  {
    TextOrder.PieceByPiece(p, "-" + q, p', "-" + q');
    TextOrder.PieceByPiece("-", q, "-", q');
  }

  lemma TwosInOrder(x: int, y: int)
    requires 0 <= x < 100 && 0 <= y < 100
    ensures TextOrder.Before(Two(x), Two(y)) <==> x < y
    ensures Two(x) == Two(y) <==> x == y
  {
    DigitsInOrder(x / 10, y / 10);
    DigitsInOrder(x % 10, y % 10);
    TextOrder.PieceByPiece([Digit(x / 10)], [Digit(x % 10)], [Digit(y / 10)], [Digit(y % 10)]);
    assert Two(x) == [Digit(x / 10)] + [Digit(x % 10)] && Two(y) == [Digit(y / 10)] + [Digit(y % 10)];
    assert Two(x) == Two(y) ==> Number2(Two(x)) == Number2(Two(y));
  }

  lemma DigitsInOrder(x: int, y: int)
    requires 0 <= x < 10 && 0 <= y < 10
    ensures TextOrder.Before([Digit(x)], [Digit(y)]) <==> x < y
    ensures [Digit(x)] == [Digit(y)] <==> x == y
  {
    assert Digit(x) < Digit(y) <==> x < y;
    assert [Digit(x)][0] == Digit(x) && [Digit(y)][0] == Digit(y);
  }

  /** The days of the years 100 to 9999. */
  predicate InWrittenYears(day: int) {
    DayFromYear(100) <= day < DayFromYear(10_000)
  }

  lemma WrittenYears(day: int)
    ensures InWrittenYears(day) <==> Written(DateOf(day))
  {
    var y := YearOf(day);
    if y < 100 {
      YearsAscend(y + 1, 100);
    } else {
      YearsAscend(100, y);
    }
    if y < 10_000 {
      YearsAscend(y + 1, 10_000);
    } else {
      YearsAscend(10_000, y);
    }
  }

  /** The text of a day is read back exactly when its year is one of those. */
  lemma DayReadBack(day: int)
    ensures InWrittenYears(day) ==>
      IsoOf(Some(day * DAY_MS)).Ok? && UtcOf(IsoOf(Some(day * DAY_MS)).value) == Some(day * DAY_MS)
    ensures !InWrittenYears(day) ==>
      IsoOf(Some(day * DAY_MS)).Err? || UtcOf(IsoOf(Some(day * DAY_MS)).value).None?
  {
    WrittenYears(day);
    if InWrittenYears(day) {
      DateOfDay(day);
      IsoOfDay(DateOf(day));
      UtcOfText(DateOf(day));
    } else {
      DayNotRead(day);
    }
  }

  lemma DayNotRead(day: int)
    requires !Written(DateOf(day))
    ensures IsoOf(Some(day * DAY_MS)).Err? || UtcOf(IsoOf(Some(day * DAY_MS)).value).None?
  {
    if IsoOf(Some(day * DAY_MS)).Ok? {
      PrintsDay(day, IsoOf(Some(day * DAY_MS)).value);
      NotUnderstood(DateOf(day));
    }
  }

  /** Adding days and counting them agree exactly as long as the day reached is of a year from 100 to 9999. */
  lemma AddedDaysBetween(iso: string, day: int, days: int)
    requires UtcOf(iso) == Some(day * DAY_MS)
    ensures var sum := AddDays(iso, days);
      && sum == IsoOf(Some((day + days) * DAY_MS))
      && (InWrittenYears(day + days) ==> sum.Ok?)
      && (sum.Ok? ==> (DaysBetween(iso, sum.value) == Some(days) <==> InWrittenYears(day + days)))
  {
    AddedDays(iso, day, days);
    DayReadBack(day + days);
    var sum := AddDays(iso, days);
    if sum.Ok? {
      Counted(iso, sum.value, day, days, InWrittenYears(day + days));
    }
  }

  /** A day before the year 100 is printed, but cannot be counted to. */
  lemma EarlyDayIsNotCounted()
    ensures var iso := IsoText(Date(100, 1, 1)); AddDays(iso, -1).Ok? && DaysBetween(iso, AddDays(iso, -1).value) != Some(-1)
  {
    var day := DayOf(Date(100, 1, 1));
    FirstWrittenDay();
    UtcOfText(Date(100, 1, 1));
    EarlyDayPrints(day - 1);
    AddedDaysBetween(IsoText(Date(100, 1, 1)), day, -1);
  }

  lemma FirstWrittenDay()
    ensures DayOf(Date(100, 1, 1)) == DayFromYear(100) && -1_000_000 <= DayFromYear(100) <= 5_000_000
  {
    PlainDay(100, 1, 1);
    YearBounds(100);
  }

  lemma EarlyDayPrints(day: int)
    requires -50_000_000 <= day <= 50_000_000
    ensures IsoOf(Some(day * DAY_MS)).Ok?
  {
  }

  lemma Counted(from: string, to: string, day: int, days: int, read: bool)
    requires UtcOf(from) == Some(day * DAY_MS) && UtcOf(to) == (if read then Some((day + days) * DAY_MS) else None)
    ensures DaysBetween(from, to) == Some(days) <==> read
  {
    MidnightsApart(day, days);
    assert DaysBetween(from, to) == DaysApart(Some(day * DAY_MS), if read then Some((day + days) * DAY_MS) else None);
  }

  lemma AddedDays(iso: string, day: int, days: int)
    requires UtcOf(iso) == Some(day * DAY_MS)
    ensures AddDays(iso, days) == IsoOf(Some((day + days) * DAY_MS))
  {
    MidnightPlus(day, days);
  }

  lemma MidnightsApart(day: int, days: int)
    ensures DaysApart(Some(day * DAY_MS), Some((day + days) * DAY_MS)) == Some(days)
    ensures DaysApart(Some(day * DAY_MS), None) == None
  {
    assert (day + days) * DAY_MS - day * DAY_MS == days * DAY_MS;
  }

  lemma MidnightPlus(day: int, days: int)
    ensures day * DAY_MS + days * DAY_MS == (day + days) * DAY_MS
  {
  }

  lemma PrintsDay(day: int, iso: string)
    requires IsoOf(Some(day * DAY_MS)) == Ok(iso)
    ensures -1_000_000 < DateOf(day).year < 1_000_000 && iso == IsoText(DateOf(day))
  {
    WholeDay(day);
    YearInRange(day);
  }

  /** The texts of other years are not understood. */
  lemma NotUnderstood(date: Date)
    requires date.Real() && -1_000_000 < date.year < 1_000_000 && !Written(date)
    ensures UtcOf(IsoText(date)).None?
  {
    if UtcOf(IsoText(date)).Some? {
      UtcIsMidnight(IsoText(date));
      var other := DateOf(DayPart(UtcOf(IsoText(date)).value));
      SignedIsNoDay(date);
      TextParts(date);
      TextParts(other);
      assert false;
    }
  }

  /** What follows the last day of a month is the first of the next. */
  lemma DayAfter(date: Date)
    requires Written(date) && InWrittenYears(DayOf(date) + 1)
    ensures NextDate(date).Real() && 100 <= NextDate(date).year <= 9999
    ensures AddDays(IsoText(date), 1) == Ok(IsoText(NextDate(date)))
  {
    UtcOfText(date);
    NextDay(date);
    WrittenYears(DayOf(date) + 1);
    AddedDays(IsoText(date), DayOf(date), 1);
    DateOfDay(DayOf(date) + 1);
    IsoOfDay(NextDate(date));
  }

  // ---- Which texts are days ----

  /** The date a text names is on the calendar, by the days each month has, and not before the year 100. */
  predicate OnCalendar(year: int, month: int, day: int) {
    && year >= 100 && 1 <= month <= 12 && day >= 1
    && day <= if month in {4, 6, 9, 11} then 30 else if month == 2 then (if Leap(year) then 29 else 28) else 31
  }

  /** A text is read as a day exactly when it has the form of one and names a date on the calendar. */
  lemma ReadExactlyWhen(iso: string)
    ensures UtcOf(iso).Some? <==> LooksLikeDay(iso) && OnCalendar(Named(iso).year, Named(iso).month, Named(iso).day)
  {
    if UtcOf(iso).Some? {
      var date := DateOf(DayPart(UtcOf(iso).value));
      UtcIsMidnight(iso);
      TextParts(date);
      MonthDays(date.year, date.month);
    }
    if LooksLikeDay(iso) && OnCalendar(Named(iso).year, Named(iso).month, Named(iso).day) {
      MonthDays(Named(iso).year, Named(iso).month);
      NamedIsInRange(iso);
      TextOfNamed(iso);
      UtcOfText(Named(iso));
    }
  }

  lemma NamedIsInRange(iso: string)
    requires LooksLikeDay(iso)
    ensures 0 <= Named(iso).year <= 9999
  {
    TwoOfNumber(iso[..2]);
    TwoOfNumber(iso[2..4]);
  }

  lemma TextOfNamed(iso: string)
    requires LooksLikeDay(iso) && Written(Named(iso))
    ensures IsoText(Named(iso)) == iso
  {
    var c, y, m, d := iso[..2], iso[2..4], iso[5..7], iso[8..];
    TwoOfNumber(c);
    TwoOfNumber(y);
    TwoOfNumber(m);
    TwoOfNumber(d);
    assert iso == c + y + "-" + m + "-" + d;
    assert Named(iso).year / 100 == Number2(c) && Named(iso).year % 100 == Number2(y);
  }

  /** Two digits say one number, and the number says the digits. */
  lemma TwoOfNumber(s: string)
    requires |s| == 2 && IsDigit(s[0]) && IsDigit(s[1])
    ensures 0 <= Number2(s) < 100 && Two(Number2(s)) == s
  {
    var x, y := ValueOf(s[0]), ValueOf(s[1]);
    assert (10 * x + y) / 10 == x && (10 * x + y) % 10 == y;
  }
}
