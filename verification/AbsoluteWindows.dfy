/** Windows of days, months and years spelled out in full. */
module AbsoluteWindows {
  import opened CivilCalendar
  import opened TemporalWindows

  datatype Answer = Accepted(window: Window) | Rejected

  predicate IsSupportedYear(y: int)
  {
    1000 <= y <= 9999
  }

  /** The date is accepted when the day it resolves to reads back as the same date. */
  predicate IsValidCivilDate(y: int, month: int, d: int)
  {
    && 1 <= month <= 12 && 1 <= d <= 31
    && var resolved := MakeDay(FullYear(y), month - 1, d);
      YearOf(resolved) == y && MonthOf(resolved) == month - 1 && DateOf(resolved) == d
  }

  function DayWindow(y: int, month: int, d: int, offset: int): Answer
  {
    if !IsSupportedYear(y) || !IsValidCivilDate(y, month, d) then Rejected
    else
      var start := Midnight(y, month - 1, d, offset);
      Accepted(Window(start, start + DAY_MS - 1, DayPrecision))
  }

  function MonthWindow(y: int, month: int, offset: int): Answer
  {
    if !IsSupportedYear(y) || month < 1 || month > 12 then Rejected
    else Accepted(Window(Midnight(y, month - 1, 1, offset), Midnight(y, month, 1, offset) - 1, MonthPrecision))
  }

  function YearWindow(y: int, offset: int): Answer
  {
    if !IsSupportedYear(y) then Rejected
    else Accepted(Window(Midnight(y, 0, 1, offset), Midnight(y + 1, 0, 1, offset) - 1, YearPrecision))
  }

  /** The read-back test accepts exactly the dates that exist, leap days included; the years 0 to
      99 never read back. */
  lemma ValidDatesAreReal(y: int, month: int, d: int)
    ensures IsValidCivilDate(y, month, d) <==> RealDate(y, month - 1, d) && !TwoDigit(y)
  {
    hide MakeDay, YearOf, MonthOf, DateOf;
    var m := month - 1;
    if RealDate(y, m, d) {
      MonthLengths(y, m);
      DateRoundTrip(y, m, d);
      if TwoDigit(y) { TwoDigitReadsBackOtherwise(y, m, d); }
    }
    if IsValidCivilDate(y, month, d) && TwoDigit(y) { TwoDigitReadsBackOtherwise(y, m, d); }
  }

  lemma MonthLengths(y: int, m: int)
    requires 0 <= m < 12
    ensures 28 <= DaysInMonth(y, m) <= 31
    ensures DaysInMonth(y, m) ==
      (if m == 1 then (if IsLeap(y) then 29 else 28) else if m in {3, 5, 8, 10} then 30 else 31)
  {
  }

  lemma TwoDigitReadsBackOtherwise(y: int, m: int, d: int)
    requires TwoDigit(y) && 0 <= m < 12 && d >= 1
    ensures YearOf(MakeDay(FullYear(y), m, d)) != y
  {
    hide MakeDay, YearOf, DayFromYear;
    var day := MakeDay(FullYear(y), m, d);
    FirstOfYear(1900 + y);
    MonthsGrow(1900 + y, 0, m);
    DaysCount(1900 + y, m, d);
    YearBefore(day, 1900 + y);
  }

  ghost predicate Covers(a: Answer, t: int)
  {
    a.Accepted? && Contains(a.window, t)
  }

  /** A day window covers exactly the instants whose civil date it spells. */
  lemma DayCovers(y: int, month: int, d: int, offset: int, t: int)
    ensures var day := CivilDay(t, offset);
      Covers(DayWindow(y, month, d, offset), t) <==>
        1000 <= y <= 9999 && YearOf(day) == y && MonthOf(day) == month - 1 && DateOf(day) == d
  {
    hide MakeDay, YearOf, MonthOf, DateOf, CivilDay, DayStart, Contains, IsValidCivilDate;
    var day := CivilDay(t, offset);
    ValidDatesAreReal(y, month, d);
    DayRoundTrip(day);
    var named := MakeDay(y, month - 1, d);
    MidnightIsDayStart(y, month - 1, d, offset);
    NextDayStart(named, offset);
    DaySpanContains(t, offset, named, named + 1, DayPrecision);
    if 1000 <= y <= 9999 && RealDate(y, month - 1, d) { DateRoundTrip(y, month - 1, d); }
  }

  /** A month window covers exactly the instants whose civil month it spells. */
  lemma MonthCovers(y: int, month: int, offset: int, t: int)
    ensures var day := CivilDay(t, offset);
      Covers(MonthWindow(y, month, offset), t) <==> 1000 <= y <= 9999 && YearOf(day) == y && MonthOf(day) == month - 1
  {
    hide MakeDay, YearOf, MonthOf, CivilDay, DayStart, Contains;
    var day := CivilDay(t, offset);
    MidnightIsDayStart(y, month - 1, 1, offset);
    MidnightIsDayStart(y, month, 1, offset);
    DaySpanContains(t, offset, MakeDay(y, month - 1, 1), MakeDay(y, month, 1), MonthPrecision);
    var k := y - YearOf(day);
    MonthsCarry(YearOf(day), month - 1, k, 1);
    MonthsCarry(YearOf(day), month, k, 1);
    MonthBefore(day, month - 1 + 12 * k);
    MonthBefore(day, month + 12 * k);
  }

  /** A year window covers exactly the instants of its civil year. */
  lemma YearCovers(y: int, offset: int, t: int)
    ensures Covers(YearWindow(y, offset), t) <==> 1000 <= y <= 9999 && YearOf(CivilDay(t, offset)) == y
  {
    hide MakeDay, YearOf, CivilDay, DayStart, Contains, DayFromYear;
    var day := CivilDay(t, offset);
    MidnightIsDayStart(y, 0, 1, offset);
    MidnightIsDayStart(y + 1, 0, 1, offset);
    FirstOfYear(y);
    FirstOfYear(y + 1);
    DaySpanContains(t, offset, DayFromYear(y), DayFromYear(y + 1), YearPrecision);
    YearBefore(day, y);
    YearBefore(day, y + 1);
  }

  /** A month window is the disjoint union of its day windows. */
  lemma MonthIsItsDays(y: int, month: int, offset: int, t: int)
    ensures Covers(MonthWindow(y, month, offset), t) <==> exists d :: Covers(DayWindow(y, month, d, offset), t)
    ensures forall d, e ::
      Covers(DayWindow(y, month, d, offset), t) && Covers(DayWindow(y, month, e, offset), t) ==> d == e
  {
    hide MonthWindow, DayWindow, Covers, YearOf, MonthOf, DateOf, CivilDay;
    MonthCovers(y, month, offset, t);
    forall d
      ensures var day := CivilDay(t, offset);
        Covers(DayWindow(y, month, d, offset), t) <==>
          1000 <= y <= 9999 && YearOf(day) == y && MonthOf(day) == month - 1 && DateOf(day) == d
    {
      DayCovers(y, month, d, offset, t);
    }
    var d := DateOf(CivilDay(t, offset));
    assert Covers(MonthWindow(y, month, offset), t) ==> Covers(DayWindow(y, month, d, offset), t);
  }

  /** A year window is the disjoint union of its month windows. */
  lemma YearIsItsMonths(y: int, offset: int, t: int)
    ensures Covers(YearWindow(y, offset), t) <==> exists m :: Covers(MonthWindow(y, m, offset), t)
    ensures forall m, n :: Covers(MonthWindow(y, m, offset), t) && Covers(MonthWindow(y, n, offset), t) ==> m == n
  {
    hide MonthWindow, YearWindow, Covers, YearOf, MonthOf, CivilDay;
    YearCovers(y, offset, t);
    forall m
      ensures var day := CivilDay(t, offset);
        Covers(MonthWindow(y, m, offset), t) <==> 1000 <= y <= 9999 && YearOf(day) == y && MonthOf(day) == m - 1
    {
      MonthCovers(y, m, offset, t);
    }
    var m := MonthOf(CivilDay(t, offset)) + 1;
    assert Covers(YearWindow(y, offset), t) ==> Covers(MonthWindow(y, m, offset), t);
  }

  /** "Today", "this month" and "this year" are the absolute windows of the anchor's civil day,
      month and year, whenever the year is a supported one. */
  lemma RelativeIsAbsolute(anchor: int, offset: int)
    ensures var day := CivilDay(anchor, offset); var y, m, d := YearOf(day), MonthOf(day) + 1, DateOf(day);
      && (DayWindow(y, m, d, offset) == Accepted(OffsetWindow(Day, anchor, 0, offset)) <==> 1000 <= y <= 9999)
      && (MonthWindow(y, m, offset) == Accepted(OffsetWindow(Month, anchor, 0, offset)) <==> 1000 <= y <= 9999)
      && (YearWindow(y, offset) == Accepted(OffsetWindow(Year, anchor, 0, offset)) <==> 1000 <= y <= 9999)
  {
    hide MakeDay, YearOf, MonthOf, DateOf, CivilDay, Midnight, IsValidCivilDate;
    var day := CivilDay(anchor, offset);
    ValidDatesAreReal(YearOf(day), MonthOf(day) + 1, DateOf(day));
  }
}
