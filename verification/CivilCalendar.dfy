/** The proleptic Gregorian day arithmetic behind `Date.UTC` and the UTC date getters
    (section 21.4.1 of ECMA-262), on whole days since 1970-01-01. */
module CivilCalendar {
  predicate IsLeap(y: int)
  {
    y % 4 == 0 && (y % 100 != 0 || y % 400 == 0)
  }

  function DaysInYear(y: int): int
  {
    if IsLeap(y) then 366 else 365
  }

  /** The day number of January 1 of a year. */
  function DayFromYear(y: int): int
  {
    365 * (y - 1970) + (y - 1969) / 4 - (y - 1901) / 100 + (y - 1601) / 400
  }

  /** Days before month `m` (0 to 12) in a year. */
  function MonthStart(m: int, leap: bool): int
    requires 0 <= m <= 12
  {
    [0, 31, 59, 90, 120, 151, 181, 212, 243, 273, 304, 334, 365][m] + if leap && m >= 2 then 1 else 0
  }

  function DaysInMonth(y: int, m: int): int
    requires 0 <= m < 12
  {
    MonthStart(m + 1, IsLeap(y)) - MonthStart(m, IsLeap(y))
  }

  /** `MakeDay`: months carry into years, days count on from the first. */
  function MakeDay(y: int, m: int, d: int): int
  {
    DayFromYear(y + m / 12) + MonthStart(m % 12, IsLeap(y + m / 12)) + d - 1
  }

  lemma Quarter(y: int)
    ensures (y - 1968) / 4 == (y - 1969) / 4 + if y % 4 == 0 then 1 else 0
  {
  }

  lemma Century(y: int)
    ensures (y - 1900) / 100 == (y - 1901) / 100 + if y % 100 == 0 then 1 else 0
  {
  }

  lemma FourCenturies(y: int)
    ensures (y - 1600) / 400 == (y - 1601) / 400 + if y % 400 == 0 then 1 else 0
  {
  }

  lemma LeapNesting(y: int)
    ensures y % 400 == 0 ==> y % 100 == 0
    ensures y % 100 == 0 ==> y % 4 == 0
  {
  }

  lemma YearLength(y: int)
    ensures DayFromYear(y + 1) == DayFromYear(y) + DaysInYear(y)
  {
    Quarter(y);
    Century(y);
    FourCenturies(y);
    LeapNesting(y);
  }

  lemma {:induction false} YearsGrow(a: int, b: int)
    requires a <= b
    ensures DayFromYear(a) + 365 * (b - a) <= DayFromYear(b)
    decreases b - a
  {
    if a < b {
      hide DayFromYear;
      YearLength(b - 1);
      YearsGrow(a, b - 1);
    }
  }

  /** The year search: up or down from `y` until the day falls inside. */
  function YearFrom(day: int, y: int): (r: int)
    ensures DayFromYear(r) <= day < DayFromYear(r + 1)
    decreases if day < DayFromYear(y) then DayFromYear(y) - day
      else if day >= DayFromYear(y + 1) then day - DayFromYear(y) else 0
  {
    YearLength(y - 1);
    YearLength(y);
    YearLength(y + 1);
    if day < DayFromYear(y) then YearFrom(day, y - 1)
    else if day >= DayFromYear(y + 1) then YearFrom(day, y + 1)
    else y
  }

  /** `getUTCFullYear` of a day. */
  function YearOf(day: int): (y: int)
    ensures DayFromYear(y) <= day < DayFromYear(y + 1)
  {
    YearFrom(day, 1970)
  }

  lemma YearUnique(day: int, y: int)
    requires DayFromYear(y) <= day < DayFromYear(y + 1)
    ensures YearOf(day) == y
  {
    hide DayFromYear;
    var r := YearOf(day);
    if r < y { YearsGrow(r + 1, y); }
    if y < r { YearsGrow(y + 1, r); }
  }

  /** The month holding the `k`-th day (from 0) of a year. */
  function MonthAt(k: int, leap: bool): (m: int)
    requires 0 <= k < (if leap then 366 else 365)
    ensures 0 <= m < 12 && MonthStart(m, leap) <= k < MonthStart(m + 1, leap)
  {
    if k < MonthStart(1, leap) then 0
    else if k < MonthStart(2, leap) then 1
    else if k < MonthStart(3, leap) then 2
    else if k < MonthStart(4, leap) then 3
    else if k < MonthStart(5, leap) then 4
    else if k < MonthStart(6, leap) then 5
    else if k < MonthStart(7, leap) then 6
    else if k < MonthStart(8, leap) then 7
    else if k < MonthStart(9, leap) then 8
    else if k < MonthStart(10, leap) then 9
    else if k < MonthStart(11, leap) then 10
    else 11
  }

  /** `getUTCMonth` and `getUTCDate` of a day. */
  function MonthOf(day: int): (m: int)
    ensures 0 <= m < 12
  {
    YearLength(YearOf(day));
    MonthAt(day - DayFromYear(YearOf(day)), IsLeap(YearOf(day)))
  }

  function DateOf(day: int): (d: int)
    ensures 1 <= d <= DaysInMonth(YearOf(day), MonthOf(day))
  {
    YearLength(YearOf(day));
    day - DayFromYear(YearOf(day)) - MonthStart(MonthOf(day), IsLeap(YearOf(day))) + 1
  }

  /** `getUTCDay`: 0 is Sunday. */
  function WeekDay(day: int): (w: int)
    ensures 0 <= w < 7
  {
    (day + 4) % 7
  }

  /** Day 0 is Thursday 1 January 1970, and weekdays follow each other. */
  lemma EpochDay(day: int)
    ensures DayFromYear(1970) == 0 && WeekDay(0) == 4
    ensures WeekDay(day + 1) == (if WeekDay(day) == 6 then 0 else WeekDay(day) + 1)
  {
  }

  /** Taking a day apart and putting it together again gives the day. */
  lemma DayRoundTrip(day: int)
    ensures MakeDay(YearOf(day), MonthOf(day), DateOf(day)) == day
  {
    hide DayFromYear, MonthStart;
  }

  lemma MonthUnique(k: int, leap: bool, m: int)
    requires 0 <= m < 12 && MonthStart(m, leap) <= k < MonthStart(m + 1, leap)
    ensures 0 <= k < (if leap then 366 else 365) && MonthAt(k, leap) == m
  {
  }

  ghost predicate RealDate(y: int, m: int, d: int)
  {
    0 <= m < 12 && 1 <= d <= DaysInMonth(y, m)
  }

  /** Every real date is the date of exactly the day it makes. */
  lemma DateRoundTrip(y: int, m: int, d: int)
    requires RealDate(y, m, d)
    ensures var day := MakeDay(y, m, d); YearOf(day) == y && MonthOf(day) == m && DateOf(day) == d
  {
    var day := MakeDay(y, m, d);
    var k := MonthStart(m, IsLeap(y)) + d - 1;
    MonthUnique(k, IsLeap(y), m);
    YearLength(y);
    OwnMonth(m);
    hide DayFromYear, MonthStart, IsLeap, MonthAt, YearFrom;
    assert day == DayFromYear(y) + k;
    YearUnique(day, y);
  }

  /** Consecutive months meet, across year ends too, and every month has 28 to 31 days. */
  lemma MonthsMeet(y: int, m: int)
    ensures MakeDay(y, m + 1, 1) == MakeDay(y, m, 1) + DaysInMonth(y + m / 12, m % 12)
    ensures 28 <= DaysInMonth(y + m / 12, m % 12) <= 31
  {
    if m % 12 == 11 {
      assert (m + 1) / 12 == m / 12 + 1 && (m + 1) % 12 == 0;
      YearLength(y + m / 12);
    } else {
      assert (m + 1) / 12 == m / 12 && (m + 1) % 12 == m % 12 + 1;
    }
  }

  /** Twelve months are a year, wherever they start. */
  lemma MonthsCarry(y: int, m: int, k: int, d: int)
    ensures MakeDay(y, m + 12 * k, d) == MakeDay(y + k, m, d)
  {
    hide DayFromYear, MonthStart;
    assert (m + 12 * k) / 12 == m / 12 + k && (m + 12 * k) % 12 == m % 12;
  }

  lemma MonthNext(y: int, m: int)
    ensures MakeDay(y, m, 1) + 28 <= MakeDay(y, m + 1, 1) <= MakeDay(y, m, 1) + 31
  {
    hide MakeDay, DaysInMonth;
    MonthsMeet(y, m);
  }

  lemma {:induction false} MonthsGrow(y: int, m: int, n: int)
    requires m <= n
    ensures MakeDay(y, m, 1) + 28 * (n - m) <= MakeDay(y, n, 1)
    decreases n - m
  {
    hide MakeDay;
    if m < n {
      MonthNext(y, n - 1);
      MonthsGrow(y, m, n - 1);
    }
  }

  lemma FirstOfYear(y: int)
    ensures MakeDay(y, 0, 1) == DayFromYear(y)
  {
    hide DayFromYear;
  }

  /** Days of a month count on from its first. */
  lemma DaysCount(y: int, m: int, d: int)
    ensures MakeDay(y, m, d) == MakeDay(y, m, 1) + d - 1
  {
    hide DayFromYear, MonthStart;
  }

  lemma OwnMonth(m: int)
    requires 0 <= m < 12
    ensures m / 12 == 0 && m % 12 == m
  {
  }

  /** A day lies inside its civil month and its civil year. */
  lemma DayInMonthAndYear(day: int)
    ensures MakeDay(YearOf(day), MonthOf(day), 1) <= day < MakeDay(YearOf(day), MonthOf(day) + 1, 1)
    ensures MakeDay(YearOf(day), 0, 1) <= day < MakeDay(YearOf(day) + 1, 0, 1)
  {
    hide DayFromYear, MonthStart, MakeDay, DaysInMonth, YearOf, MonthOf, DateOf;
    var y, m := YearOf(day), MonthOf(day);
    DayRoundTrip(day);
    DaysCount(y, m, DateOf(day));
    OwnMonth(m);
    MonthsMeet(y, m);
    FirstOfYear(y);
    FirstOfYear(y + 1);
  }
}
