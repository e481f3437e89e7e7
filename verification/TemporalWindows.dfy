/** Relative and absolute time windows in a zone at a fixed offset from UTC, in milliseconds. */
module TemporalWindows {
  import opened CivilCalendar

  const DAY_MS: int := 86_400_000

  datatype Precision = DayPrecision | MonthPrecision | YearPrecision | RangePrecision

  datatype Window = Window(startMs: int, endMs: int, precision: Precision)

  datatype Unit = Day | Week | Month | Year

  datatype Season = Spring | Summer | Autumn | Winter

  /** `Date.UTC` reads the years 0 to 99 as 1900 to 1999 (section 21.4.3.4 of ECMA-262). */
  function FullYear(y: int): int
  {
    if 0 <= y <= 99 then 1900 + y else y
  }

  predicate TwoDigit(y: int)
  {
    0 <= y <= 99
  }

  function Midnight(y: int, m: int, d: int, offset: int): int
  {
    MakeDay(FullYear(y), m, d) * DAY_MS - offset * 60_000
  }

  /** The civil day of an instant in the zone. */
  function CivilDay(anchor: int, offset: int): int
  {
    (anchor + offset * 60_000) / DAY_MS
  }

  // ---------- relative windows ----------

  function DayOffset(anchor: int, amount: int, offset: int): Window
  {
    var day := CivilDay(anchor, offset);
    var start := Midnight(YearOf(day), MonthOf(day), DateOf(day) + amount, offset);
    Window(start, start + DAY_MS - 1, DayPrecision)
  }

  function SinceMonday(day: int): int
  {
    (WeekDay(day) + 6) % 7
  }

  function WeekOffset(anchor: int, amount: int, offset: int): Window
  {
    var day := CivilDay(anchor, offset);
    var dayStart := Midnight(YearOf(day), MonthOf(day), DateOf(day), offset);
    var start := dayStart - SinceMonday(day) * DAY_MS + amount * 7 * DAY_MS;
    Window(start, start + 7 * DAY_MS - 1, RangePrecision)
  }

  /** How many days the named weekday (0 is Monday) lies from the anchor's. JavaScript's `%` takes
      the sign of its left operand; here that operand is never negative. */
  function DaysToWeekday(target: int, today: int, weekOffset: int): int
    requires 0 <= target < 7 && 0 <= today < 7
  {
    if weekOffset == 0 then target - today
    else if weekOffset < 0 then -((today - target + 6) % 7 + 1)
    else (target - today + 6) % 7 + 1
  }

  function WeekdayWindow(target: int, anchor: int, weekOffset: int, offset: int): Window
    requires 0 <= target < 7
  {
    var day := CivilDay(anchor, offset);
    var dayStart := Midnight(YearOf(day), MonthOf(day), DateOf(day), offset);
    var start := dayStart + DaysToWeekday(target, SinceMonday(day), weekOffset) * DAY_MS;
    Window(start, start + DAY_MS - 1, DayPrecision)
  }

  function MonthOffset(anchor: int, amount: int, offset: int): Window
  {
    var day := CivilDay(anchor, offset);
    var y, m := YearOf(day), MonthOf(day);
    Window(Midnight(y, m + amount, 1, offset), Midnight(y, m + amount + 1, 1, offset) - 1, MonthPrecision)
  }

  function YearOffset(anchor: int, amount: int, offset: int): Window
  {
    var y := YearOf(CivilDay(anchor, offset)) + amount;
    Window(Midnight(y, 0, 1, offset), Midnight(y + 1, 0, 1, offset) - 1, YearPrecision)
  }

  function LookbackStart(unit: Unit, amount: int, day: int, offset: int): int
  {
    var y, m, d := YearOf(day), MonthOf(day), DateOf(day);
    match unit
    case Day => Midnight(y, m, d - amount + 1, offset)
    case Month => Midnight(y, m - amount + 1, 1, offset)
    case Year => Midnight(y - amount + 1, 0, 1, offset)
    case Week => Midnight(y, m, d - SinceMonday(day) - (amount - 1) * 7, offset)
  }

  function Lookback(unit: Unit, amount: int, anchor: int, offset: int): Window
  {
    var day := CivilDay(anchor, offset);
    Window(LookbackStart(unit, amount, day, offset),
           Midnight(YearOf(day), MonthOf(day), DateOf(day) + 1, offset) - 1, RangePrecision)
  }

  function NamedMonthYear(month0: int, day: int): int
  {
    YearOf(day) - if month0 > MonthOf(day) then 1 else 0
  }

  function NamedMonth(month0: int, anchor: int, offset: int): Window
  {
    var y := NamedMonthYear(month0, CivilDay(anchor, offset));
    Window(Midnight(y, month0, 1, offset), Midnight(y, month0 + 1, 1, offset) - 1, MonthPrecision)
  }

  function SeasonStart(season: Season): int
  {
    match season
    case Spring => 2
    case Summer => 5
    case Autumn => 8
    case Winter => 11
  }

  function SeasonYear(season: Season, day: int, yearOffset: int): int
  {
    YearOf(day) + (if season.Winter? && MonthOf(day) < 2 then -1 else 0) + yearOffset
  }

  function SeasonWindow(season: Season, anchor: int, yearOffset: int, offset: int): Window
  {
    var y := SeasonYear(season, CivilDay(anchor, offset), yearOffset);
    var m := SeasonStart(season);
    Window(Midnight(y, m, 1, offset), Midnight(y, m + 3, 1, offset) - 1, RangePrecision)
  }

  function OffsetWindow(unit: Unit, anchor: int, amount: int, offset: int): Window
  {
    match unit
    case Day => DayOffset(anchor, amount, offset)
    case Week => WeekOffset(anchor, amount, offset)
    case Month => MonthOffset(anchor, amount, offset)
    case Year => YearOffset(anchor, amount, offset)
  }

  // ---------- days and milliseconds ----------

  ghost predicate Contains(w: Window, t: int)
  {
    w.startMs <= t <= w.endMs
  }

  /** The first millisecond of a civil day in the zone. */
  function DayStart(day: int, offset: int): int
  {
    day * DAY_MS - offset * 60_000
  }

  lemma InstantInDay(anchor: int, offset: int)
    ensures var day := CivilDay(anchor, offset);
      DayStart(day, offset) <= anchor < DayStart(day + 1, offset)
  {
  }

  /** An instant is in a window of whole days exactly when its civil day is. */
  lemma DaySpanContains(anchor: int, offset: int, a: int, b: int, p: Precision)
    ensures Contains(Window(DayStart(a, offset), DayStart(b, offset) - 1, p), anchor) <==>
      a <= CivilDay(anchor, offset) < b
  {
    InstantInDay(anchor, offset);
    hide CivilDay;
  }

  lemma MidnightIsDayStart(y: int, m: int, d: int, offset: int)
    ensures Midnight(y, m, d, offset) == DayStart(MakeDay(FullYear(y), m, d), offset)
  {
    hide MakeDay;
  }

  /** The day the code takes as the anchor's own: off by exactly the two-digit-year rule. */
  function TakenDay(day: int): int
  {
    MakeDay(FullYear(YearOf(day)), MonthOf(day), DateOf(day))
  }

  lemma CenturyShift(y: int)
    requires TwoDigit(y)
    ensures DayFromYear(1900 + y) == DayFromYear(y) + 693_500 + if y == 0 then 461 else 460
    ensures y != 0 ==> (IsLeap(1900 + y) <==> IsLeap(y))
    ensures y == 0 ==> IsLeap(y) && !IsLeap(1900 + y)
  {
    assert (1900 + y - 1969) / 4 == (y - 1969) / 4 + 475;
    assert (1900 + y - 1901) / 100 == (y - 1901) / 100 + if y == 0 then 19 else 19;
    assert (1900 + y - 1601) / 400 == (y - 1601) / 400 + if y == 0 then 5 else 4;
  }

  /** How many days the two-digit-year rule moves a day. */
  function YearShift(day: int): int
  {
    if !TwoDigit(YearOf(day)) then 0
    else if YearOf(day) == 0 && MonthOf(day) < 2 then 693_961
    else 693_960
  }

  /** The taken day is the anchor's day exactly when its civil year is not 0 to 99; otherwise it
      lies nineteen centuries later, on another weekday. */
  lemma TakenDayExact(day: int)
    ensures TakenDay(day) == day + YearShift(day)
    ensures YearShift(day) == 0 <==> !TwoDigit(YearOf(day))
    ensures YearShift(day) % 7 == 0 <==> !TwoDigit(YearOf(day))
    ensures 0 <= YearShift(day)
  {
    hide YearOf, MonthOf, DateOf;
    DayRoundTrip(day);
    var y, m, d := YearOf(day), MonthOf(day), DateOf(day);
    if TwoDigit(y) {
      CenturyShift(y);
      OwnMonth(m);
      LeapMonthStart(m);
      hide DayFromYear, MonthStart, IsLeap;
    }
  }

  lemma LeapMonthStart(m: int)
    requires 0 <= m < 12
    ensures MonthStart(m, true) == MonthStart(m, false) + if m >= 2 then 1 else 0
  {
  }

  // ---------- offset windows ----------

  lemma DayOffsetDays(anchor: int, n: int, offset: int)
    ensures DayOffset(anchor, n, offset) ==
      Window(DayStart(TakenDay(CivilDay(anchor, offset)) + n, offset),
             DayStart(TakenDay(CivilDay(anchor, offset)) + n + 1, offset) - 1, DayPrecision)
  {
    hide MakeDay, YearOf, MonthOf, DateOf, CivilDay, DayStart;
    var day := CivilDay(anchor, offset);
    var y, m, d := YearOf(day), MonthOf(day), DateOf(day);
    MidnightIsDayStart(y, m, d + n, offset);
    DaysCount(FullYear(y), m, d + n);
    DaysCount(FullYear(y), m, d);
    NextDayStart(TakenDay(day) + n, offset);
  }

  lemma NextDayStart(day: int, offset: int)
    ensures DayStart(day + 1, offset) == DayStart(day, offset) + DAY_MS
  {
  }

  lemma ShiftDays(day: int, k: int, offset: int)
    ensures DayStart(day + k, offset) == DayStart(day, offset) + k * DAY_MS
  {
  }

  lemma WeekOffsetDays(anchor: int, n: int, offset: int)
    ensures var day := CivilDay(anchor, offset);
      var monday := TakenDay(day) - SinceMonday(day) + 7 * n;
      WeekOffset(anchor, n, offset) ==
        Window(DayStart(monday, offset), DayStart(monday + 7, offset) - 1, RangePrecision)
  {
    hide MakeDay, YearOf, MonthOf, DateOf, CivilDay, DayStart, SinceMonday;
    var day := CivilDay(anchor, offset);
    MidnightIsDayStart(YearOf(day), MonthOf(day), DateOf(day), offset);
    ShiftDays(TakenDay(day), -SinceMonday(day) + 7 * n, offset);
    ShiftDays(TakenDay(day) - SinceMonday(day) + 7 * n, 7, offset);
  }

  lemma MonthOffsetDays(anchor: int, n: int, offset: int)
    ensures var day := CivilDay(anchor, offset); var y, m := FullYear(YearOf(day)), MonthOf(day) + n;
      MonthOffset(anchor, n, offset) ==
        Window(DayStart(MakeDay(y, m, 1), offset), DayStart(MakeDay(y, m + 1, 1), offset) - 1, MonthPrecision)
  {
    hide MakeDay, YearOf, MonthOf, CivilDay, DayStart;
    var day := CivilDay(anchor, offset);
    MidnightIsDayStart(YearOf(day), MonthOf(day) + n, 1, offset);
    MidnightIsDayStart(YearOf(day), MonthOf(day) + n + 1, 1, offset);
  }

  lemma YearOffsetDays(anchor: int, n: int, offset: int)
    ensures var y := YearOf(CivilDay(anchor, offset)) + n;
      YearOffset(anchor, n, offset) ==
        Window(DayStart(DayFromYear(FullYear(y)), offset), DayStart(DayFromYear(FullYear(y + 1)), offset) - 1,
          YearPrecision)
  {
    hide MakeDay, YearOf, CivilDay, DayStart, DayFromYear;
    var y := YearOf(CivilDay(anchor, offset)) + n;
    MidnightIsDayStart(y, 0, 1, offset);
    MidnightIsDayStart(y + 1, 0, 1, offset);
    FirstOfYear(FullYear(y));
    FirstOfYear(FullYear(y + 1));
  }

  /** Offset windows n and n + 1 tile without gap or overlap, for every unit, anchor and zone. */
  lemma OffsetWindowsTile(unit: Unit, anchor: int, n: int, offset: int)
    ensures OffsetWindow(unit, anchor, n, offset).endMs + 1 == OffsetWindow(unit, anchor, n + 1, offset).startMs
  {
    hide MakeDay, YearOf, MonthOf, DateOf, CivilDay, DayStart, SinceMonday, TakenDay, DayOffset, WeekOffset,
      MonthOffset, YearOffset, DayFromYear;
    DayOffsetDays(anchor, n, offset);
    DayOffsetDays(anchor, n + 1, offset);
    WeekOffsetDays(anchor, n, offset);
    WeekOffsetDays(anchor, n + 1, offset);
    MonthOffsetDays(anchor, n, offset);
    MonthOffsetDays(anchor, n + 1, offset);
    YearOffsetDays(anchor, n, offset);
    YearOffsetDays(anchor, n + 1, offset);
  }

  lemma DayStartOrder(a: int, b: int, offset: int)
    ensures DayStart(a, offset) < DayStart(b, offset) <==> a < b
  {
  }

  /** Day, week and month windows are never empty; a year window is empty exactly for year 99. */
  lemma OffsetWindowNonEmpty(unit: Unit, anchor: int, n: int, offset: int)
    ensures var w := OffsetWindow(unit, anchor, n, offset);
      w.startMs <= w.endMs <==> !(unit.Year? && YearOf(CivilDay(anchor, offset)) + n == 99)
  {
    hide MakeDay, YearOf, MonthOf, DateOf, CivilDay, DayStart, SinceMonday, TakenDay, DayOffset, WeekOffset,
      MonthOffset, YearOffset, DayFromYear;
    var day := CivilDay(anchor, offset);
    match unit
    case Day =>
      DayOffsetDays(anchor, n, offset);
      DayStartOrder(TakenDay(day) + n, TakenDay(day) + n + 1, offset);
    case Week =>
      WeekOffsetDays(anchor, n, offset);
      var monday := TakenDay(day) - SinceMonday(day) + 7 * n;
      DayStartOrder(monday, monday + 7, offset);
    case Month =>
      MonthOffsetDays(anchor, n, offset);
      var y, m := FullYear(YearOf(day)), MonthOf(day) + n;
      MonthNext(y, m);
      DayStartOrder(MakeDay(y, m, 1), MakeDay(y, m + 1, 1), offset);
    case Year =>
      YearOffsetDays(anchor, n, offset);
      var y := YearOf(day) + n;
      DayStartOrder(DayFromYear(FullYear(y)), DayFromYear(FullYear(y + 1)), offset);
      YearOrder(FullYear(y), FullYear(y + 1));
  }

  lemma YearOrder(a: int, b: int)
    ensures DayFromYear(a) < DayFromYear(b) <==> a < b
  {
    hide DayFromYear;
    if a < b { YearsGrow(a, b); } else { YearsGrow(b, a); }
  }

  /** A year window is exactly its civil year, unless the year is -1 to 99. */
  lemma YearWindowExact(anchor: int, n: int, offset: int)
    ensures var y := YearOf(CivilDay(anchor, offset)) + n;
      YearOffset(anchor, n, offset) ==
        Window(DayStart(DayFromYear(y), offset), DayStart(DayFromYear(y + 1), offset) - 1, YearPrecision)
      <==> !(-1 <= y <= 99)
  {
    hide MakeDay, YearOf, CivilDay, DayStart, YearOffset, DayFromYear;
    YearOffsetDays(anchor, n, offset);
    var y := YearOf(CivilDay(anchor, offset)) + n;
    YearOrder(y, FullYear(y));
    YearOrder(y + 1, FullYear(y + 1));
    DayStartOrder(DayFromYear(y), DayFromYear(FullYear(y)), offset);
    DayStartOrder(DayFromYear(y + 1), DayFromYear(FullYear(y + 1)), offset);
  }

  lemma SinceMondayRange(day: int)
    ensures 0 <= SinceMonday(day) < 7
  {
  }

  lemma TwoDigitLater(day: int, m: int)
    requires TwoDigit(YearOf(day)) && m >= 0
    ensures MakeDay(FullYear(YearOf(day)), m, 1) > day
  {
    hide MakeDay, DayFromYear, YearOf;
    var y := YearOf(day);
    YearsGrow(y + 1, 1900 + y);
    FirstOfYear(1900 + y);
    MonthsGrow(1900 + y, 0, m);
  }

  /** The current day, week, month or year contains the anchor, exactly when the anchor's civil
      year is not 0 to 99. */
  lemma CurrentWindowContains(unit: Unit, anchor: int, offset: int)
    ensures Contains(OffsetWindow(unit, anchor, 0, offset), anchor) <==> !TwoDigit(YearOf(CivilDay(anchor, offset)))
  {
    hide MakeDay, YearOf, MonthOf, DateOf, CivilDay, DayStart, SinceMonday, TakenDay, DayOffset, WeekOffset,
      MonthOffset, YearOffset, DayFromYear, Contains;
    var day := CivilDay(anchor, offset);
    TakenDayExact(day);
    match unit
    case Day =>
      DayOffsetDays(anchor, 0, offset);
      DaySpanContains(anchor, offset, TakenDay(day), TakenDay(day) + 1, DayPrecision);
    case Week =>
      WeekOffsetDays(anchor, 0, offset);
      SinceMondayRange(day);
      var monday := TakenDay(day) - SinceMonday(day) + 7 * 0;
      DaySpanContains(anchor, offset, monday, monday + 7, RangePrecision);
    case Month =>
      MonthOffsetDays(anchor, 0, offset);
      var y, m := FullYear(YearOf(day)), MonthOf(day);
      DayInMonthAndYear(day);
      DaySpanContains(anchor, offset, MakeDay(y, m + 0, 1), MakeDay(y, m + 0 + 1, 1), MonthPrecision);
      if TwoDigit(YearOf(day)) { TwoDigitLater(day, m); }
    case Year =>
      YearOffsetDays(anchor, 0, offset);
      var y := YearOf(day) + 0;
      DaySpanContains(anchor, offset, DayFromYear(FullYear(y)), DayFromYear(FullYear(y + 1)), YearPrecision);
      YearOrder(y + 1, FullYear(y + 1));
      if TwoDigit(y) { YearsGrow(y + 1, 1900 + y); }
  }

  lemma MonthSpanContains(t: int, offset: int, y: int, m: int, p: Precision)
    ensures var day := CivilDay(t, offset);
      Contains(Window(DayStart(MakeDay(y, m, 1), offset), DayStart(MakeDay(y, m + 1, 1), offset) - 1, p), t) <==>
        12 * YearOf(day) + MonthOf(day) == 12 * y + m
  {
    hide MakeDay, CivilDay, DayStart, YearOf, MonthOf, Contains;
    var day := CivilDay(t, offset);
    var k := y - YearOf(day);
    DaySpanContains(t, offset, MakeDay(y, m, 1), MakeDay(y, m + 1, 1), p);
    MonthsCarry(YearOf(day), m, k, 1);
    MonthsCarry(YearOf(day), m + 1, k, 1);
    MonthBefore(day, m + 12 * k);
    MonthBefore(day, m + 1 + 12 * k);
  }

  /** What offset windows cover, for anchors outside the years 0 to 99: exactly the n-th day, the n-th
      Monday-to-Sunday week, the n-th month and, as long as it is not -1 to 99, the n-th year from the
      anchor's. */
  lemma OffsetCovers(anchor: int, n: int, offset: int, t: int)
    requires !TwoDigit(YearOf(CivilDay(anchor, offset)))
    ensures var a, day := CivilDay(anchor, offset), CivilDay(t, offset);
      && (Contains(OffsetWindow(Day, anchor, n, offset), t) <==> day == a + n)
      && (Contains(OffsetWindow(Week, anchor, n, offset), t) <==>
        day - SinceMonday(day) == a - SinceMonday(a) + 7 * n)
      && (Contains(OffsetWindow(Month, anchor, n, offset), t) <==>
        12 * YearOf(day) + MonthOf(day) == 12 * YearOf(a) + MonthOf(a) + n)
      && (!(-1 <= YearOf(a) + n <= 99) ==>
        (Contains(OffsetWindow(Year, anchor, n, offset), t) <==> YearOf(day) == YearOf(a) + n))
  {
    hide MakeDay, YearOf, MonthOf, DateOf, CivilDay, DayStart, SinceMonday, TakenDay, DayOffset, WeekOffset,
      MonthOffset,
      YearOffset, DayFromYear, Contains;
    var a, day := CivilDay(anchor, offset), CivilDay(t, offset);
    TakenDayExact(a);
    DayOffsetDays(anchor, n, offset);
    DaySpanContains(t, offset, TakenDay(a) + n, TakenDay(a) + n + 1, DayPrecision);
    WeekOffsetDays(anchor, n, offset);
    var monday := TakenDay(a) - SinceMonday(a) + 7 * n;
    DaySpanContains(t, offset, monday, monday + 7, RangePrecision);
    WeekOfDay(day, a - SinceMonday(a) + 7 * n, a, n);
    MonthOffsetDays(anchor, n, offset);
    MonthSpanContains(t, offset, YearOf(a), MonthOf(a) + n, MonthPrecision);
    YearOffsetDays(anchor, n, offset);
    var y := YearOf(a) + n;
    DaySpanContains(t, offset, DayFromYear(FullYear(y)), DayFromYear(FullYear(y + 1)), YearPrecision);
    YearBefore(day, FullYear(y));
    YearBefore(day, FullYear(y + 1));
  }

  /** A day lies in the week of a Monday exactly when that is its own week's Monday. */
  lemma WeekOfDay(day: int, monday: int, a: int, n: int)
    requires monday == a - SinceMonday(a) + 7 * n
    ensures monday <= day < monday + 7 <==> day - SinceMonday(day) == monday
  {
    MondaysApart(day, a);
    SinceMondayRange(day);
    hide SinceMonday;
  }

  lemma MondaysApart(day: int, a: int)
    ensures ((day - SinceMonday(day)) - (a - SinceMonday(a))) % 7 == 0
  {
    assert (day - SinceMonday(day)) % 7 == (-3) % 7;
    assert (a - SinceMonday(a)) % 7 == (-3) % 7;
  }

  // ---------- lookbacks ----------

  /** A lookback of n units starts exactly where offset window -(n - 1) starts. */
  lemma LookbackStartsAtOffset(unit: Unit, n: int, anchor: int, offset: int)
    ensures Lookback(unit, n, anchor, offset).startMs == OffsetWindow(unit, anchor, -(n - 1), offset).startMs
  {
    hide MakeDay, YearOf, MonthOf, DateOf, CivilDay, DayStart, SinceMonday, TakenDay, WeekOffset;
    if unit.Week? {
      var day := CivilDay(anchor, offset);
      WeekOffsetDays(anchor, -(n - 1), offset);
      WeekLookbackStart(day, n, offset);
    }
  }

  lemma WeekLookbackStart(day: int, n: int, offset: int)
    ensures LookbackStart(Week, n, day, offset) == DayStart(TakenDay(day) - SinceMonday(day) + 7 * -(n - 1), offset)
  {
    hide MakeDay, YearOf, MonthOf, DateOf, DayStart, SinceMonday;
    var y, m, d := YearOf(day), MonthOf(day), DateOf(day);
    MidnightIsDayStart(y, m, d - SinceMonday(day) - (n - 1) * 7, offset);
    DaysCount(FullYear(y), m, d - SinceMonday(day) - (n - 1) * 7);
    DaysCount(FullYear(y), m, d);
  }

  lemma LookbackEnd(unit: Unit, n: int, anchor: int, offset: int)
    ensures Lookback(unit, n, anchor, offset).endMs == DayStart(TakenDay(CivilDay(anchor, offset)) + 1, offset) - 1
  {
    hide MakeDay, YearOf, MonthOf, DateOf, CivilDay, DayStart, SinceMonday, LookbackStart;
    var day := CivilDay(anchor, offset);
    var y, m, d := YearOf(day), MonthOf(day), DateOf(day);
    MidnightIsDayStart(y, m, d + 1, offset);
    DaysCount(FullYear(y), m, d + 1);
    DaysCount(FullYear(y), m, d);
  }

  /** The day a lookback starts on. */
  ghost function LookbackDay(unit: Unit, n: int, day: int): int
  {
    match unit
    case Day => TakenDay(day) - n + 1
    case Week => TakenDay(day) - SinceMonday(day) + 7 * -(n - 1)
    case Month => MakeDay(FullYear(YearOf(day)), MonthOf(day) - n + 1, 1)
    case Year => DayFromYear(FullYear(YearOf(day) - n + 1))
  }

  lemma LookbackStartDay(unit: Unit, n: int, day: int, offset: int)
    ensures LookbackStart(unit, n, day, offset) == DayStart(LookbackDay(unit, n, day), offset)
  {
    hide MakeDay, YearOf, MonthOf, DateOf, DayStart, SinceMonday, DayFromYear, Midnight;
    var y, m, d := YearOf(day), MonthOf(day), DateOf(day);
    match unit
    case Day =>
      MidnightIsDayStart(y, m, d - n + 1, offset);
      DaysCount(FullYear(y), m, d - n + 1);
      DaysCount(FullYear(y), m, d);
    case Week => WeekLookbackStart(day, n, offset);
    case Month => MidnightIsDayStart(y, m - n + 1, 1, offset);
    case Year =>
      MidnightIsDayStart(y - n + 1, 0, 1, offset);
      FirstOfYear(FullYear(y - n + 1));
  }

  lemma YearBefore(day: int, y: int)
    ensures DayFromYear(y) <= day <==> y <= YearOf(day)
  {
    hide DayFromYear, YearOf;
    if y <= YearOf(day) { YearsGrow(y, YearOf(day)); } else { YearsGrow(YearOf(day) + 1, y); }
  }

  /** Month `m` of the day's year (counting on into other years) has begun exactly when it is not
      after the day's own month. */
  lemma MonthBefore(day: int, m: int)
    ensures MakeDay(YearOf(day), m, 1) <= day <==> m <= MonthOf(day)
  {
    hide MakeDay, DayFromYear, YearOf, MonthOf;
    var y, own := YearOf(day), MonthOf(day);
    DayInMonthAndYear(day);
    if m <= own { MonthsGrow(y, m, own); } else { MonthsGrow(y, own + 1, m); }
  }

  /** Whether a lookback of n units reaches back over the days, months or years that the
      two-digit-year rule added. With no year between 0 and 99 involved it always does. */
  predicate LookbackReaches(unit: Unit, n: int, day: int)
  {
    var y := YearOf(day);
    match unit
    case Day => n - 1 >= YearShift(day)
    case Week => 7 * (n - 1) + SinceMonday(day) >= YearShift(day)
    case Month => n - 1 >= 12 * (FullYear(y) - y)
    case Year => FullYear(y - n + 1) <= y
  }

  lemma LookbackDayBefore(unit: Unit, n: int, day: int)
    ensures LookbackDay(unit, n, day) <= day <==> LookbackReaches(unit, n, day)
  {
    hide MakeDay, YearOf, MonthOf, DateOf, SinceMonday, DayFromYear, YearShift, TakenDay;
    var y := YearOf(day);
    TakenDayExact(day);
    if unit.Month? {
      MonthsCarry(y, MonthOf(day) - n + 1, FullYear(y) - y, 1);
      MonthBefore(day, MonthOf(day) - n + 1 + 12 * (FullYear(y) - y));
    }
    YearBefore(day, FullYear(y - n + 1));
  }

  /** A lookback contains the anchor exactly when it reaches over the two-digit-year shift. */
  lemma LookbackContains(unit: Unit, n: int, anchor: int, offset: int)
    ensures Contains(Lookback(unit, n, anchor, offset), anchor) <==> LookbackReaches(unit, n, CivilDay(anchor, offset))
  {
    hide MakeDay, YearOf, MonthOf, DateOf, CivilDay, DayStart, SinceMonday, TakenDay, DayFromYear, LookbackStart,
      Midnight, LookbackReaches, LookbackDay, YearShift, Contains;
    var day := CivilDay(anchor, offset);
    LookbackStartDay(unit, n, day, offset);
    LookbackEnd(unit, n, anchor, offset);
    DaySpanContains(anchor, offset, LookbackDay(unit, n, day), TakenDay(day) + 1, RangePrecision);
    TakenDayExact(day);
    LookbackDayBefore(unit, n, day);
  }

  /** For anchors outside the years 0 to 99, a lookback covers everything from the start of offset window
      -(n - 1) to the end of the anchor's day. */
  lemma LookbackCovers(unit: Unit, n: int, anchor: int, offset: int, t: int)
    requires !TwoDigit(YearOf(CivilDay(anchor, offset)))
    ensures Contains(Lookback(unit, n, anchor, offset), t) <==>
      OffsetWindow(unit, anchor, -(n - 1), offset).startMs <= t && CivilDay(t, offset) <= CivilDay(anchor, offset)
    ensures Lookback(unit, n, anchor, offset).precision == RangePrecision
  {
    hide MakeDay, YearOf, MonthOf, DateOf, CivilDay, DayStart, TakenDay, LookbackStart, OffsetWindow, Midnight;
    LookbackStartsAtOffset(unit, n, anchor, offset);
    LookbackEnd(unit, n, anchor, offset);
    TakenDayExact(CivilDay(anchor, offset));
    InstantInDay(t, offset);
    var a, day := CivilDay(anchor, offset), CivilDay(t, offset);
    DayStartOrder(day, a + 1, offset);
    DayStartOrder(a + 1, day + 1, offset);
  }

  /** For the amounts a term can spell (1 to 999): a lookback contains the anchor exactly when the
      anchor's civil year (for years, the start year) is not 0 to 99. */
  lemma SpelledLookbackContains(unit: Unit, n: int, anchor: int, offset: int)
    requires 1 <= n <= 999
    ensures var y := YearOf(CivilDay(anchor, offset));
      Contains(Lookback(unit, n, anchor, offset), anchor) <==>
        !TwoDigit(if unit.Year? then y - n + 1 else y)
  {
    hide YearOf, MonthOf, CivilDay, SinceMonday, Contains, Lookback;
    LookbackContains(unit, n, anchor, offset);
    SinceMondayRange(CivilDay(anchor, offset));
  }

  // ---------- weekdays ----------

  lemma DaysToWeekdayLands(day: int, target: int, weekOffset: int)
    requires 0 <= target < 7
    ensures var k := DaysToWeekday(target, SinceMonday(day), weekOffset);
      && SinceMonday(day + k) == target
      && (weekOffset < 0 ==> -7 <= k <= -1)
      && (weekOffset > 0 ==> 1 <= k <= 7)
      && (weekOffset == 0 ==> day + k - SinceMonday(day + k) == day - SinceMonday(day))
  {
    hide SinceMonday;
    SinceMondayRange(day);
    var today := SinceMonday(day);
    var k := DaysToWeekday(target, today, weekOffset);
    DaysToWeekdayCongruent(target, today, weekOffset);
    hide DaysToWeekday;
    SinceMondayMoves(day, k, (today + k - target) / 7, target);
  }

  lemma DaysToWeekdayCongruent(target: int, today: int, weekOffset: int)
    requires 0 <= target < 7 && 0 <= today < 7
    ensures var k := DaysToWeekday(target, today, weekOffset); today + k == target + 7 * ((today + k - target) / 7)
    ensures weekOffset < 0 ==> -7 <= DaysToWeekday(target, today, weekOffset) <= -1
    ensures weekOffset > 0 ==> 1 <= DaysToWeekday(target, today, weekOffset) <= 7
  {
  }

  lemma SinceMondayMoves(day: int, k: int, weeks: int, target: int)
    requires 0 <= target < 7 && SinceMonday(day) + k == target + 7 * weeks
    ensures SinceMonday(day + k) == target
  {
  }

  lemma WeekdayWindowDays(target: int, anchor: int, weekOffset: int, offset: int)
    requires 0 <= target < 7
    ensures var day := CivilDay(anchor, offset);
      var there := TakenDay(day) + DaysToWeekday(target, SinceMonday(day), weekOffset);
      WeekdayWindow(target, anchor, weekOffset, offset) ==
        Window(DayStart(there, offset), DayStart(there + 1, offset) - 1, DayPrecision)
  {
    hide MakeDay, YearOf, MonthOf, DateOf, CivilDay, DayStart, SinceMonday, DaysToWeekday;
    var day := CivilDay(anchor, offset);
    SinceMondayRange(day);
    var k := DaysToWeekday(target, SinceMonday(day), weekOffset);
    MidnightIsDayStart(YearOf(day), MonthOf(day), DateOf(day), offset);
    ShiftDays(TakenDay(day), k, offset);
    NextDayStart(TakenDay(day) + k, offset);
  }

  lemma CivilDayOfStart(day: int, offset: int)
    ensures CivilDay(DayStart(day, offset), offset) == day
  {
  }

  lemma WeekdayShift(day: int, k: int)
    ensures SinceMonday(day + k) == SinceMonday(day) <==> k % 7 == 0
  {
  }

  /** A weekday window opens on the named weekday exactly when the anchor's civil year is not 0 to
      99; then "last" lies 1 to 7 days before the anchor's day, "next" 1 to 7 days after it, and
      "this" in its Monday-to-Sunday week. */
  lemma WeekdayLands(target: int, anchor: int, weekOffset: int, offset: int)
    requires 0 <= target < 7
    ensures var day := CivilDay(anchor, offset);
      var there := CivilDay(WeekdayWindow(target, anchor, weekOffset, offset).startMs, offset);
      && (SinceMonday(there) == target <==> !TwoDigit(YearOf(day)))
      && (!TwoDigit(YearOf(day)) ==> (
        && (weekOffset < 0 ==> day - 7 <= there <= day - 1)
        && (weekOffset > 0 ==> day + 1 <= there <= day + 7)
        && (weekOffset == 0 ==> there - SinceMonday(there) == day - SinceMonday(day))))
  {
    hide MakeDay, YearOf, MonthOf, DateOf, CivilDay, DayStart, SinceMonday, DaysToWeekday, WeekdayWindow, TakenDay,
      YearShift;
    var day := CivilDay(anchor, offset);
    SinceMondayRange(day);
    var k := DaysToWeekday(target, SinceMonday(day), weekOffset);
    WeekdayWindowDays(target, anchor, weekOffset, offset);
    CivilDayOfStart(TakenDay(day) + k, offset);
    DaysToWeekdayLands(day, target, weekOffset);
    TakenDayExact(day);
    WeekdayShift(day + k, YearShift(day));
    assert day + k + YearShift(day) == TakenDay(day) + k;
  }

  /** A week window opens on a Monday exactly when the anchor's civil year is not 0 to 99. */
  lemma WeekOpensOnMonday(anchor: int, n: int, offset: int)
    ensures SinceMonday(CivilDay(WeekOffset(anchor, n, offset).startMs, offset)) == 0 <==>
      !TwoDigit(YearOf(CivilDay(anchor, offset)))
  {
    hide MakeDay, YearOf, MonthOf, DateOf, CivilDay, DayStart, SinceMonday, WeekOffset, TakenDay, YearShift;
    var day := CivilDay(anchor, offset);
    WeekOffsetDays(anchor, n, offset);
    var monday := day - SinceMonday(day);
    CivilDayOfStart(TakenDay(day) - SinceMonday(day) + 7 * n, offset);
    TakenDayExact(day);
    MondayOfWeek(day);
    WeekdayShift(monday, YearShift(day) + 7 * n);
    assert monday + (YearShift(day) + 7 * n) == TakenDay(day) - SinceMonday(day) + 7 * n;
    assert (YearShift(day) + 7 * n) % 7 == YearShift(day) % 7;
  }

  lemma MondayOfWeek(day: int)
    ensures SinceMonday(day - SinceMonday(day)) == 0
  {
  }

  // ---------- named months and seasons ----------

  /** The first millisecond of a civil month, whatever its year. */
  ghost function MonthStartMs(y: int, m: int, offset: int): int
  {
    DayStart(MakeDay(y, m, 1), offset)
  }

  lemma MonthStartOrder(a: int, b: int, m: int)
    ensures MakeDay(a, m, 1) <= MakeDay(b, m, 1) <==> a <= b
  {
    hide MakeDay;
    MonthsCarry(a, m, b - a, 1);
    if a <= b { MonthsGrow(a, m, m + 12 * (b - a)); } else { MonthsGrow(a, m + 12 * (b - a), m); }
  }

  lemma MonthReached(anchor: int, y: int, m: int, offset: int)
    ensures MonthStartMs(y, m, offset) <= anchor <==> MakeDay(y, m, 1) <= CivilDay(anchor, offset)
  {
    hide MakeDay, CivilDay, DayStart;
    var day := CivilDay(anchor, offset);
    InstantInDay(anchor, offset);
    DayStartOrder(day, MakeDay(y, m, 1), offset);
    DayStartOrder(MakeDay(y, m, 1), day + 1, offset);
  }

  /** The year a named month resolves to is the latest whose such month starts at or before the
      anchor. */
  lemma NamedMonthIsLatest(month0: int, anchor: int, offset: int, y: int)
    requires 0 <= month0 < 12
    ensures MonthStartMs(y, month0, offset) <= anchor <==> y <= NamedMonthYear(month0, CivilDay(anchor, offset))
  {
    hide MakeDay, CivilDay, DayStart, YearOf, MonthOf, MonthStartMs;
    var day := CivilDay(anchor, offset);
    MonthReached(anchor, y, month0, offset);
    MonthsCarry(YearOf(day), month0, y - YearOf(day), 1);
    MonthBefore(day, month0 + 12 * (y - YearOf(day)));
  }

  /** A named month's window is that civil month exactly when its year is not 0 to 99. */
  lemma NamedMonthExact(month0: int, anchor: int, offset: int)
    requires 0 <= month0 < 12
    ensures var y := NamedMonthYear(month0, CivilDay(anchor, offset));
      NamedMonth(month0, anchor, offset) ==
        Window(MonthStartMs(y, month0, offset), MonthStartMs(y, month0 + 1, offset) - 1, MonthPrecision)
      <==> !TwoDigit(y)
  {
    hide MakeDay, CivilDay, DayStart, NamedMonthYear;
    var y := NamedMonthYear(month0, CivilDay(anchor, offset));
    MidnightIsDayStart(y, month0, 1, offset);
    MidnightIsDayStart(y, month0 + 1, 1, offset);
    MonthStartOrder(FullYear(y), y, month0);
    DayStartOrder(MakeDay(y, month0, 1), MakeDay(FullYear(y), month0, 1), offset);
  }

  predicate InSeason(season: Season, month0: int)
  {
    match season
    case Spring => 2 <= month0 < 5
    case Summer => 5 <= month0 < 8
    case Autumn => 8 <= month0 < 11
    case Winter => month0 < 2 || month0 == 11
  }

  lemma SeasonWindowDays(season: Season, anchor: int, yearOffset: int, offset: int)
    ensures var y := FullYear(SeasonYear(season, CivilDay(anchor, offset), yearOffset));
      SeasonWindow(season, anchor, yearOffset, offset) ==
        Window(MonthStartMs(y, SeasonStart(season), offset), MonthStartMs(y, SeasonStart(season) + 3, offset) - 1,
          RangePrecision)
  {
    hide MakeDay, CivilDay, DayStart, SeasonYear, SeasonStart;
    var y := SeasonYear(season, CivilDay(anchor, offset), yearOffset);
    MidnightIsDayStart(y, SeasonStart(season), 1, offset);
    MidnightIsDayStart(y, SeasonStart(season) + 3, 1, offset);
  }

  /** "This season" contains the anchor exactly when the anchor's month belongs to the season and
      the season's year is not 0 to 99: in January and February "this winter" began last year. */
  lemma CurrentSeasonContains(season: Season, anchor: int, offset: int)
    ensures var day := CivilDay(anchor, offset);
      Contains(SeasonWindow(season, anchor, 0, offset), anchor) <==>
        InSeason(season, MonthOf(day)) && !TwoDigit(SeasonYear(season, day, 0))
  {
    hide MakeDay, CivilDay, DayStart, SeasonWindow, MonthOf, YearOf, MonthStartMs;
    var day := CivilDay(anchor, offset);
    var y, start := SeasonYear(season, day, 0), SeasonStart(season);
    var k := FullYear(y) - YearOf(day);
    SeasonWindowDays(season, anchor, 0, offset);
    MonthReached(anchor, FullYear(y), start, offset);
    MonthReached(anchor, FullYear(y), start + 3, offset);
    MonthsCarry(YearOf(day), start, k, 1);
    MonthsCarry(YearOf(day), start + 3, k, 1);
    MonthBefore(day, start + 12 * k);
    MonthBefore(day, start + 3 + 12 * k);
  }

  /** Which year's season a day's month belongs to: January and February belong to the winter of the
      year before. */
  function SeasonYearOf(season: Season, y: int, month0: int): int
  {
    if season == Winter && (month0 == 0 || month0 == 1) then y - 1 else y
  }

  /** A season window covers exactly the instants whose month is in the season and whose season year
      is the anchor's plus the offset; that sum is read as 1900 to 1999 when it is 0 to 99. */
  lemma SeasonCovers(season: Season, anchor: int, n: int, offset: int, t: int)
    ensures var day, a := CivilDay(t, offset), CivilDay(anchor, offset);
      var named := SeasonYearOf(season, YearOf(a), MonthOf(a)) + n;
      Contains(SeasonWindow(season, anchor, n, offset), t) <==>
        && InSeason(season, MonthOf(day))
        && SeasonYearOf(season, YearOf(day), MonthOf(day)) == (if 0 <= named <= 99 then 1900 + named else named)
  {
    hide MakeDay, CivilDay, DayStart, SeasonWindow, MonthOf, YearOf, MonthStartMs;
    var day := CivilDay(t, offset);
    var y, start := FullYear(SeasonYear(season, CivilDay(anchor, offset), n)), SeasonStart(season);
    var k := y - YearOf(day);
    SeasonWindowDays(season, anchor, n, offset);
    MonthReached(t, y, start, offset);
    MonthReached(t, y, start + 3, offset);
    MonthsCarry(YearOf(day), start, k, 1);
    MonthsCarry(YearOf(day), start + 3, k, 1);
    MonthBefore(day, start + 12 * k);
    MonthBefore(day, start + 3 + 12 * k);
  }

  function NextSeason(season: Season): Season
  {
    match season
    case Spring => Summer
    case Summer => Autumn
    case Autumn => Winter
    case Winter => Spring
  }

  /** Each season ends where the next one begins; winter runs into the next year's spring, except
      where the two-digit-year rule takes hold or lets go between the two years. */
  lemma SeasonsTile(season: Season, anchor: int, a: int, b: int, offset: int)
    requires var day := CivilDay(anchor, offset);
      SeasonYear(NextSeason(season), day, b) == SeasonYear(season, day, a) + if season.Winter? then 1 else 0
    ensures SeasonWindow(season, anchor, a, offset).endMs + 1 ==
      SeasonWindow(NextSeason(season), anchor, b, offset).startMs
      <==> !(season.Winter? && SeasonYear(season, CivilDay(anchor, offset), a) in {-1, 99})
  {
    hide MakeDay, CivilDay, DayStart, SeasonWindow, SeasonYear;
    var y := SeasonYear(season, CivilDay(anchor, offset), a);
    SeasonWindowDays(season, anchor, a, offset);
    SeasonWindowDays(NextSeason(season), anchor, b, offset);
    if season.Winter? {
      MonthsCarry(FullYear(y), 2, 1, 1);
      MonthStartOrder(FullYear(y) + 1, FullYear(y + 1), 2);
      MonthStartOrder(FullYear(y + 1), FullYear(y) + 1, 2);
      DayStartOrder(MakeDay(FullYear(y) + 1, 2, 1), MakeDay(FullYear(y + 1), 2, 1), offset);
      DayStartOrder(MakeDay(FullYear(y + 1), 2, 1), MakeDay(FullYear(y) + 1, 2, 1), offset);
    }
  }

  // ---------- the two-digit-year rule at work ----------

  /** The first instant of the year 50: "today" there is a day of the year 1950. */
  lemma YearFiftyMissed()
    ensures var anchor := DayStart(DayFromYear(50), 0);
      && CivilDay(anchor, 0) == DayFromYear(50)
      && DayOffset(anchor, 0, 0) ==
        Window(DayStart(DayFromYear(1950), 0), DayStart(DayFromYear(1950) + 1, 0) - 1, DayPrecision)
      && !Contains(DayOffset(anchor, 0, 0), anchor)
  {
    hide YearOf, MonthOf, DateOf, Contains, DayOffset, DayStart, CivilDay, TakenDay, MakeDay;
    var day := DayFromYear(50);
    var anchor := DayStart(day, 0);
    CivilDayOfStart(day, 0);
    YearUnique(day, 50);
    DayOffsetDays(anchor, 0, 0);
    TakenDayExact(day);
    assert TakenDay(day) == DayFromYear(1950);
    CurrentWindowContains(Day, anchor, 0);
  }
}
