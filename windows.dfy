/** The three pairs of period windows of the improvement route, computed
    from `now` with the same `Date` calls as routes/performance.js, and the
    facts about them: where each window starts, that it contains `now`, and
    that each previous period ends exactly where the current one begins. */
module Windows {
  import opened CivilTime
  import opened JsDate

  /** A range of instants `[start, end)`, or `[start, end]` when
      `endInclusive` (Prisma's `lt` versus `lte`). */
  datatype Window = Window(start: int, end: int, endInclusive: bool)

  predicate InWindow(w: Window, t: int) {
    w.start <= t && if w.endInclusive then t <= w.end else t < w.end
  }

  /** A current period and the one compared against it. */
  datatype PeriodPair = PeriodPair(current: Window, previous: Window)

  /** `previous` holds exactly the instants from its start up to, but not
      including, the start of `current`: the two touch and do not overlap. */
  ghost predicate Precedes(previous: Window, current: Window) {
    previous.start <= current.start
    && forall t :: InWindow(previous, t) <==> previous.start <= t < current.start
  }

  /** Today and yesterday, both half-open. */
  function DailyPair(now: int): PeriodPair {
    var startOfToday := SetHours(now, 0, 0, 0, 0);
    var startOfTomorrow := SetDate(startOfToday, Date(startOfToday) + 1);
    var startOfYesterday := SetDate(startOfToday, Date(startOfToday) - 1);
    PeriodPair(Window(startOfToday, startOfTomorrow, false),
               Window(startOfYesterday, startOfToday, false))
  }

  /** Midnight of the Monday that starts the week of `now`. */
  function StartOfWeek(now: int): int {
    var diffToMonday := (WeekDay(now) + 6) % 7;
    SetHours(SetDate(now, Date(now) - diffToMonday), 0, 0, 0, 0)
  }

  /** The week so far (up to and including `now`) and the seven days before. */
  function WeeklyPair(now: int): PeriodPair {
    var startOfWeek := StartOfWeek(now);
    var startPrevWeek := SetDate(startOfWeek, Date(startOfWeek) - 7);
    PeriodPair(Window(startOfWeek, now, true),
               Window(startPrevWeek, startOfWeek, false))
  }

  /** The month so far (up to and including `now`) and the whole previous
      month, up to the last millisecond before this month began. */
  function MonthlyPair(now: int): PeriodPair {
    var startOfMonth := NewLocalDate(FullYear(now), Month(now), 1);
    var startPrevMonth := NewLocalDate(FullYear(now), Month(now) - 1, 1);
    var endPrevMonth := SetMilliseconds(startOfMonth, MsFromTime(startOfMonth) - 1);
    PeriodPair(Window(startOfMonth, now, true),
               Window(startPrevMonth, endPrevMonth, true))
  }

  /** Today is the midnight-to-midnight day holding `now`, tomorrow's
      midnight excluded, and yesterday is the day before it. */
  lemma DailyWindows(now: int)
    ensures var p := DailyPair(now);
            && p.current.start % MsPerDay == 0
            && p.current.start <= now < p.current.end
            && InWindow(p.current, now)
            && p.current == Window(p.current.start, p.current.start + MsPerDay, false)
            && p.previous == Window(p.current.start - MsPerDay, p.current.start, false)
            && !InWindow(p.current, p.current.end)
            && Precedes(p.previous, p.current)
  {
    var startOfToday := SetHours(now, 0, 0, 0, 0);
    MidnightOf(now);
    SetDateShifts(startOfToday, 1);
    SetDateShifts(startOfToday, -1);
    var p := DailyPair(now);
    assert p.current == Window(startOfToday, startOfToday + MsPerDay, false);
    assert p.previous == Window(startOfToday - MsPerDay, startOfToday, false);
    HalfOpenPrecedes(p.previous, p.current);
  }

  /** A half-open window that ends where another starts precedes it. */
  lemma HalfOpenPrecedes(previous: Window, current: Window)
    requires !previous.endInclusive && previous.start <= previous.end == current.start
    ensures Precedes(previous, current)
  {
  }

  /** The week starts at midnight on a Monday at most six days before `now`:
      that very midnight on a Monday, six days back on a Sunday. */
  lemma WeekStart(now: int)
    ensures var s := StartOfWeek(now);
            && s % MsPerDay == 0
            && WeekDay(s) == 1
            && s <= now < s + 7 * MsPerDay
            && (WeekDay(now) == 1 ==> s == SetHours(now, 0, 0, 0, 0))
            && (WeekDay(now) == 0 ==> s == SetHours(now, 0, 0, 0, 0) - 6 * MsPerDay)
  {
    var diff := (WeekDay(now) + 6) % 7;
    BackToMonday(now);
    SetDateShifts(now, -diff);
    var shifted := now - diff * MsPerDay;
    MidnightOf(shifted);
    MidnightOf(now);
  }

  /** No other Monday midnight has `now` within the seven days after it, so
      the week start is determined by `now` alone. */
  lemma WeekStartUnique(now: int, m: int)
    requires m % MsPerDay == 0 && WeekDay(m) == 1 && m <= now < m + 7 * MsPerDay
    ensures m == StartOfWeek(now)
  {
    var s := StartOfWeek(now);
    WeekStart(now);
    var ds, dm := Day(s), Day(m);
    assert s == ds * MsPerDay && m == dm * MsPerDay;
    assert -7 < ds - dm < 7;
    var qs, qm := (ds + 4) / 7, (dm + 4) / 7;
    assert ds + 4 == 7 * qs + 1 && dm + 4 == 7 * qm + 1;
    assert -1 < qs - qm < 1;
  }

  /** The current week runs from its Monday to `now` inclusive; the previous
      week is the seven days before, ending where the current one starts. */
  lemma WeeklyWindows(now: int)
    ensures var p := WeeklyPair(now);
            && p.current == Window(StartOfWeek(now), now, true)
            && InWindow(p.current, now)
            && p.previous == Window(StartOfWeek(now) - 7 * MsPerDay, StartOfWeek(now), false)
            && Precedes(p.previous, p.current)
  {
    var s := StartOfWeek(now);
    WeekStart(now);
    SetDateShifts(s, -7);
    var p := WeeklyPair(now);
    assert p.previous == Window(s - 7 * MsPerDay, s, false);
    HalfOpenPrecedes(p.previous, p.current);
  }

  /** `new Date(now.getFullYear(), now.getMonth() + k, 1)` for k = 0 and
      k = -1, as day numbers of firsts of months. In the years 0 to 99 the
      constructor reads the year as 1900 to 1999. */
  lemma MonthStarts(now: int)
    ensures var c := CivilFromDays(Day(now));
            var y := ConstructorYear(c.year);
            var prev := PreviousMonth(y, c.month);
            && NewLocalDate(FullYear(now), Month(now), 1)
               == DaysFromCivil(Civil(y, c.month, 1)) * MsPerDay
            && NewLocalDate(FullYear(now), Month(now) - 1, 1)
               == DaysFromCivil(Civil(prev.0, prev.1, 1)) * MsPerDay
  {
    var c := CivilFromDays(Day(now));
    assert (c.month - 1) / 12 == 0 && (c.month - 1) % 12 == c.month - 1;
    if c.month == 1 {
      assert (c.month - 2) / 12 == -1 && (c.month - 2) % 12 == 11;
    } else {
      assert (c.month - 2) / 12 == 0 && (c.month - 2) % 12 == c.month - 2;
    }
  }

  /** The current month window starts at midnight on the 1st of `now`'s
      month; the previous one starts on the 1st of the month before (January
      going back to December of the previous year) and ends one millisecond
      before the current one starts. Stated for years outside 0 to 99, which
      the constructor would read as 1900 to 1999. */
  lemma MonthlyWindows(now: int)
    requires FullYear(now) < 0 || 99 < FullYear(now)
    ensures var p := MonthlyPair(now);
            var c := CivilFromDays(Day(now));
            var prev := PreviousMonth(c.year, c.month);
            && p.current.start % MsPerDay == 0
            && CivilFromDays(Day(p.current.start)) == Civil(c.year, c.month, 1)
            && InWindow(p.current, now)
            && p.previous.start % MsPerDay == 0
            && CivilFromDays(Day(p.previous.start)) == Civil(prev.0, prev.1, 1)
            && (c.month == 1 ==> prev == (c.year - 1, 12))
            && p.previous.end == p.current.start - 1
            && Precedes(p.previous, p.current)
  {
    var p := MonthlyPair(now);
    var c := CivilFromDays(Day(now));
    var prev := PreviousMonth(c.year, c.month);
    var first := DaysFromCivil(Civil(c.year, c.month, 1));
    var prevFirst := DaysFromCivil(Civil(prev.0, prev.1, 1));
    MonthStarts(now);
    assert p.current.start == first * MsPerDay;
    assert p.previous.start == prevFirst * MsPerDay;
    assert Day(p.current.start) == first;
    assert Day(p.previous.start) == prevFirst;
    CivilRoundTrip(Civil(c.year, c.month, 1));
    CivilRoundTrip(Civil(prev.0, prev.1, 1));
    assert first <= Day(now);
    assert prevFirst < first;
    SetMillisecondsShifts(p.current.start, -1);
  }

  /** A day number between the first and the last day of a month belongs to
      that month. */
  lemma DayOfMonth(y: int, m: int, n: int)
    requires 1 <= m <= 12
    requires DaysFromCivil(Civil(y, m, 1)) <= n < DaysFromCivil(Civil(y, m, 1)) + DaysInMonth(y, m)
    ensures CivilFromDays(n) == Civil(y, m, n - DaysFromCivil(Civil(y, m, 1)) + 1)
  {
    CivilRoundTrip(Civil(y, m, n - DaysFromCivil(Civil(y, m, 1)) + 1));
  }

  /** Every instant of the current-month window falls in `now`'s month. */
  lemma CurrentMonthWindowInMonth(now: int, t: int)
    requires FullYear(now) < 0 || 99 < FullYear(now)
    requires InWindow(MonthlyPair(now).current, t)
    ensures var c := CivilFromDays(Day(now));
            var d := CivilFromDays(Day(t));
            d.year == c.year && d.month == c.month
  {
    var c := CivilFromDays(Day(now));
    MonthStarts(now);
    var first := DaysFromCivil(Civil(c.year, c.month, 1));
    assert first <= Day(t) <= Day(now);
    DayOfMonth(c.year, c.month, Day(t));
  }

  /** Every instant of the previous-month window falls in the month before
      `now`'s. */
  lemma PreviousMonthWindowInMonth(now: int, t: int)
    requires FullYear(now) < 0 || 99 < FullYear(now)
    requires InWindow(MonthlyPair(now).previous, t)
    ensures var c := CivilFromDays(Day(now));
            var prev := PreviousMonth(c.year, c.month);
            var d := CivilFromDays(Day(t));
            d.year == prev.0 && d.month == prev.1
  {
    var c := CivilFromDays(Day(now));
    var prev := PreviousMonth(c.year, c.month);
    MonthlyWindows(now);
    MonthStarts(now);
    var first := DaysFromCivil(Civil(c.year, c.month, 1));
    var prevFirst := DaysFromCivil(Civil(prev.0, prev.1, 1));
    assert prevFirst * MsPerDay <= t < first * MsPerDay;
    assert prevFirst <= Day(t) < first;
    DayOfMonth(prev.0, prev.1, Day(t));
  }
}
