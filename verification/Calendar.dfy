/** Dates of the proleptic Gregorian calendar as day numbers counted from 1 January 1970,
    after section 21.4.1 of ECMA-262. */
module Calendar {

  datatype Date = Date(year: int, month: int, day: int)

  /** Wall-clock time to the minute. */
  datatype Local = Local(date: Date, hour: int, minute: int)

  predicate IsLeap(year: int) {
    (year % 4 == 0 && year % 100 != 0) || year % 400 == 0
  }

  function DayFromYear(year: int): int {
    365 * (year - 1970) + Quadrennials(year) - Centuries(year) + FourCenturies(year)
  }

  function Quadrennials(year: int): int {
    (year - 1969) / 4
  }

  function Centuries(year: int): int {
    (year - 1901) / 100
  }

  function FourCenturies(year: int): int {
    (year - 1601) / 400
  }

  /** Days of the year before the first of `month`; month 13 stands for the end of the year. */
  function DaysBefore(month: int, leap: bool): int
    requires 1 <= month <= 13
  {
    var extra := if leap && month > 2 then 1 else 0;
    extra +
    match month
    case 1 => 0
    case 2 => 31
    case 3 => 59
    case 4 => 90
    case 5 => 120
    case 6 => 151
    case 7 => 181
    case 8 => 212
    case 9 => 243
    case 10 => 273
    case 11 => 304
    case 12 => 334
    case 13 => 365
  }

  function DaysIn(month: int, leap: bool): int
    requires 1 <= month <= 12
  {
    DaysBefore(month + 1, leap) - DaysBefore(month, leap)
  }

  predicate ValidDate(d: Date) {
    1 <= d.month <= 12 && 1 <= d.day <= DaysIn(d.month, IsLeap(d.year))
  }

  /** MakeDay: the day number of a date. */
  function DayNumber(d: Date): int
    requires 1 <= d.month <= 12
  {
    DayFromYear(d.year) + DaysBefore(d.month, IsLeap(d.year)) + d.day - 1
  }

  function WeekDay(n: int): int {
    (n + 4) % 7
  }

  // ---- From day numbers back to dates ----

  lemma YearLength(year: int)
    ensures DayFromYear(year + 1) - DayFromYear(year) == DaysBefore(13, IsLeap(year))
  {
    QuadrennialStep(year);
    CenturyStep(year);
    FourCenturyStep(year);
    hide Quadrennials, Centuries, FourCenturies;
  }

  /** Day 0 is 1 January 1970, years and months have their Gregorian lengths, and the dates of a
      month follow each other. */
  lemma CalendarIsGregorian(year: int, month: int, leap: bool)
    requires 1 <= month <= 12 && leap == IsLeap(year)
    ensures DayNumber(Date(1970, 1, 1)) == 0
    ensures DayNumber(Date(year + 1, 1, 1)) - DayNumber(Date(year, 1, 1)) == if leap then 366 else 365
    ensures var next := if month == 12 then Date(year + 1, 1, 1) else Date(year, month + 1, 1);
            DayNumber(next) - DayNumber(Date(year, month, 1)) ==
            if month == 2 then if leap then 29 else 28 else if month in {4, 6, 9, 11} then 30 else 31
    ensures forall day :: DayNumber(Date(year, month, day)) == DayNumber(Date(year, month, 1)) + day - 1
  {
    EpochIsDayZero();
    YearLength(year);
    MonthLength(month, leap);
    YearStarts(leap);
    YearStarts(IsLeap(year + 1));
    hide DayFromYear, DaysIn, DaysBefore, IsLeap;
  }

  lemma EpochIsDayZero()
    ensures DayNumber(Date(1970, 1, 1)) == 0
  {}

  lemma YearStarts(leap: bool)
    ensures DaysBefore(1, leap) == 0 && DaysBefore(13, leap) == if leap then 366 else 365
  {}

  lemma MonthLength(month: int, leap: bool)
    requires 1 <= month <= 12
    ensures DaysBefore(month + 1, leap) - DaysBefore(month, leap) ==
            if month == 2 then if leap then 29 else 28 else if month in {4, 6, 9, 11} then 30 else 31
  {}

  lemma QuadrennialStep(year: int)
    ensures Quadrennials(year + 1) - Quadrennials(year) == if year % 4 == 0 then 1 else 0
  {}

  lemma CenturyStep(year: int)
    ensures Centuries(year + 1) - Centuries(year) == if year % 100 == 0 then 1 else 0
  {}

  lemma FourCenturyStep(year: int)
    ensures FourCenturies(year + 1) - FourCenturies(year) == if year % 400 == 0 then 1 else 0
  {}

  lemma {:induction false} YearsAreOrdered(a: int, b: int)
    requires a <= b
    ensures DayFromYear(a) + 365 * (b - a) <= DayFromYear(b)
    decreases b - a
  {
    hide Quadrennials, Centuries, FourCenturies, IsLeap;
    if a < b {
      YearLength(b - 1);
      YearsAreOrdered(a, b - 1);
    }
  }

  /** YearFromTime: the largest year that starts on or before day `n`. */
  function YearFrom(n: int, year: int): (y: int)
    requires DayFromYear(year) <= n
    ensures DayFromYear(y) <= n < DayFromYear(y + 1)
    decreases n - DayFromYear(year)
  {
    YearLength(year);
    if n < DayFromYear(year + 1) then year else YearFrom(n, year + 1)
  }

  function YearOf(n: int): (y: int)
    ensures DayFromYear(y) <= n < DayFromYear(y + 1)
  {
    if n >= 0 then YearFrom(n, 1970) else
    YearsAreOrdered(1970 + n, 1970);
    YearFrom(n, 1970 + n)
  }

  /** The month whose days include day `k` of the year. */
  function MonthFrom(k: int, leap: bool, month: int): (m: int)
    requires 1 <= month <= 12 && DaysBefore(month, leap) <= k < DaysBefore(13, leap)
    ensures 1 <= m <= 12 && DaysBefore(m, leap) <= k < DaysBefore(m + 1, leap)
    decreases 12 - month
  {
    if k < DaysBefore(month + 1, leap) then month else MonthFrom(k, leap, month + 1)
  }

  /** The day of the year whose first day is that of `y`. */
  lemma DayOfYearBounds(n: int, y: int)
    requires DayFromYear(y) <= n < DayFromYear(y + 1)
    ensures DaysBefore(1, IsLeap(y)) <= n - DayFromYear(y) < DaysBefore(13, IsLeap(y))
  {
    YearLength(y);
    hide DayFromYear, IsLeap;
  }

  lemma DateInMonth(y: int, m: int, k: int)
    requires 1 <= m <= 12 && DaysBefore(m, IsLeap(y)) <= k < DaysBefore(m + 1, IsLeap(y))
    ensures var d := Date(y, m, k - DaysBefore(m, IsLeap(y)) + 1); ValidDate(d) && DayNumber(d) == DayFromYear(y) + k
  {
    hide DayFromYear, IsLeap;
  }

  function DateOf(n: int): (d: Date)
    ensures ValidDate(d) && DayNumber(d) == n
  {
    hide DayFromYear, IsLeap, DaysBefore, ValidDate, DayNumber;
    var y := YearOf(n);
    var k := n - DayFromYear(y);
    DayOfYearBounds(n, y);
    var m := MonthFrom(k, IsLeap(y), 1);
    DateInMonth(y, m, k);
    Date(y, m, k - DaysBefore(m, IsLeap(y)) + 1)
  }

  lemma MonthsAreOrdered(a: int, b: int, leap: bool)
    requires 1 <= a < b <= 12
    ensures DaysBefore(a + 1, leap) <= DaysBefore(b, leap)
  {}

  /** Valid dates and day numbers are in bijection. */
  lemma DateIsUnique(d: Date)
    requires ValidDate(d)
    ensures DateOf(DayNumber(d)) == d
  {
    hide DayFromYear, IsLeap, YearOf, MonthFrom, DateOf;
    var e := DateOf(DayNumber(d));
    SameYear(d, e);
    if d.month < e.month {
      MonthsAreOrdered(d.month, e.month, IsLeap(d.year));
    } else if e.month < d.month {
      MonthsAreOrdered(e.month, d.month, IsLeap(d.year));
    }
  }

  lemma SameYear(d: Date, e: Date)
    requires ValidDate(d) && ValidDate(e) && DayNumber(d) == DayNumber(e)
    ensures d.year == e.year
  {
    hide DayFromYear, IsLeap;
    DateIsInItsYear(d);
    DateIsInItsYear(e);
    if d.year < e.year {
      YearsAreOrdered(d.year + 1, e.year);
    } else if e.year < d.year {
      YearsAreOrdered(e.year + 1, d.year);
    }
  }

  lemma DateIsInItsYear(d: Date)
    requires ValidDate(d)
    ensures DayFromYear(d.year) <= DayNumber(d) < DayFromYear(d.year + 1)
  {
    hide DayFromYear, IsLeap;
    YearLength(d.year);
    if d.month < 12 {
      MonthsAreOrdered(d.month, 12, IsLeap(d.year));
    }
  }

  // ---- Minutes ----

  predicate ValidLocal(t: Local) {
    ValidDate(t.date) && 0 <= t.hour < 24 && 0 <= t.minute < 60
  }

  /** Date.UTC of a wall-clock time, in minutes. */
  function MinuteOf(t: Local): int
    requires 1 <= t.date.month <= 12
  {
    DayNumber(t.date) * 1440 + t.hour * 60 + t.minute
  }

  function LocalOf(m: int): (t: Local)
    ensures ValidLocal(t) && MinuteOf(t) == m
  {
    var k := m % 1440;
    Local(DateOf(m / 1440), k / 60, k % 60)
  }

  lemma LocalIsUnique(t: Local)
    requires ValidLocal(t)
    ensures LocalOf(MinuteOf(t)) == t
  {
    var k := t.hour * 60 + t.minute;
    assert MinuteOf(t) / 1440 == DayNumber(t.date) && MinuteOf(t) % 1440 == k;
    DateIsUnique(t.date);
  }

  // ---- Which days occur again ----

  lemma LongMonths(month: int, leap: bool)
    requires 1 <= month <= 12
    ensures 28 <= DaysIn(month, leap) <= 31
    ensures DaysIn(month, leap) < 31 ==> month != 12 && month != 1 && DaysIn(month + 1, leap) == 31
  {}

  function NextMonth(d: Date): Date {
    if d.month == 12 then Date(d.year + 1, 1, 1) else Date(d.year, d.month + 1, 1)
  }

  lemma NextMonthFollows(d: Date)
    requires ValidDate(d)
    ensures ValidDate(NextMonth(d))
    ensures DayNumber(d) < DayNumber(NextMonth(d)) <= DayNumber(d) + 31
    ensures d.day == 1 ==> DayNumber(NextMonth(d)) == DayNumber(d) + DaysIn(d.month, IsLeap(d.year))
  {
    YearLength(d.year);
    LongMonths(d.month, IsLeap(d.year));
  }

  /** Every day of the month from 1 to 31 comes round again within 93 days. */
  lemma DayOfMonthRecurs(n: int, k: int) returns (later: int)
    requires 1 <= k <= 31
    ensures n < later <= n + 93 && DateOf(later).day == k
  {
    var first := NextMonth(DateOf(n));
    NextMonthFollows(DateOf(n));
    LongMonths(first.month, IsLeap(first.year));
    var target := first;
    if k > DaysIn(first.month, IsLeap(first.year)) {
      NextMonthFollows(first);
      target := NextMonth(first);
    }
    LongMonths(target.month, IsLeap(target.year));
    var date := target.(day := k);
    DateIsUnique(date);
    later := DayNumber(date);
  }
}
