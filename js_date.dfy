/** The parts of JavaScript's `Date` that the improvement route uses, on time
    values in milliseconds of local time in one fixed-offset zone (so local
    and UTC differ by a constant and no daylight-saving rule applies).
    Getters and setters follow the abstract operations Day, TimeWithinDay,
    WeekDay, MakeTime, MakeDay and MakeDate of the ECMAScript specification
    (section 21.4.1 of ECMA-262); its `floor` and `modulo` are Dafny's `/`
    and `%` because every divisor here is positive. */
module JsDate {
  import opened CivilTime

  const MsPerSecond: int := 1000
  const MsPerMinute: int := 60_000
  const MsPerHour: int := 3_600_000
  const MsPerDay: int := 86_400_000

  /** Days since 1970-01-01 (floor, also for instants before 1970). */
  function Day(t: int): int { t / MsPerDay }

  function TimeWithinDay(t: int): int { t % MsPerDay }

  /** `getFullYear()`, `getMonth()` (0-based) and `getDate()`. */
  function FullYear(t: int): int { CivilFromDays(Day(t)).year }
  function Month(t: int): int { CivilFromDays(Day(t)).month - 1 }
  function Date(t: int): int { CivilFromDays(Day(t)).day }

  /** `getDay()`: 0 is Sunday; day 0 (1970-01-01) was a Thursday. */
  function WeekDay(t: int): int { (Day(t) + 4) % 7 }

  function HourFromTime(t: int): int { (t / MsPerHour) % 24 }
  function MinFromTime(t: int): int { (t / MsPerMinute) % 60 }
  function SecFromTime(t: int): int { (t / MsPerSecond) % 60 }
  function MsFromTime(t: int): int { t % MsPerSecond }

  function MakeTime(hour: int, min: int, sec: int, ms: int): int {
    hour * MsPerHour + min * MsPerMinute + sec * MsPerSecond + ms
  }

  /** Day number of `date` days into month `month` (0-based; out-of-range
      months roll into neighbouring years) of `year`. */
  function MakeDay(year: int, month: int, date: int): int {
    DaysFromCivil(Civil(year + month / 12, month % 12 + 1, 1)) + date - 1
  }

  function MakeDate(day: int, time: int): int { day * MsPerDay + time }

  /** The year the `Date` constructor passes to MakeDay: a year from 0 to 99
      means 1900 to 1999 (section 21.4.2.1 of ECMA-262). */
  function ConstructorYear(year: int): int {
    if 0 <= year <= 99 then 1900 + year else year
  }

  /** `new Date(year, month, date)`: midnight of that day. */
  function NewLocalDate(year: int, month: int, date: int): int {
    MakeDate(MakeDay(ConstructorYear(year), month, date), MakeTime(0, 0, 0, 0))
  }

  /** `t.setHours(hour, min, sec, ms)`. */
  function SetHours(t: int, hour: int, min: int, sec: int, ms: int): int {
    MakeDate(Day(t), MakeTime(hour, min, sec, ms))
  }

  /** `t.setDate(date)`: same year, month and time of day. */
  function SetDate(t: int, date: int): int {
    MakeDate(MakeDay(FullYear(t), Month(t), date), TimeWithinDay(t))
  }

  /** `t.setMilliseconds(ms)`: same day, hour, minute and second. */
  function SetMilliseconds(t: int, ms: int): int {
    MakeDate(Day(t), MakeTime(HourFromTime(t), MinFromTime(t), SecFromTime(t), ms))
  }

  /** The getters pick a time value apart without loss. */
  lemma TimeDecomposition(t: int)
    ensures MakeDate(Day(t), TimeWithinDay(t)) == t
    ensures MakeTime(HourFromTime(t), MinFromTime(t), SecFromTime(t), MsFromTime(t))
            == TimeWithinDay(t)
  {
    var s := t / MsPerSecond;
    var mi := t / MsPerMinute;
    var h := t / MsPerHour;
    assert s / 60 == mi;
    assert mi / 60 == h;
    assert h / 24 == Day(t);
  }

  /** `setDate(getDate() + k)` moves a time value by exactly `k` whole days,
      across month and year ends alike. */
  lemma SetDateShifts(t: int, k: int)
    ensures SetDate(t, Date(t) + k) == t + k * MsPerDay
  {
    var c := CivilFromDays(Day(t));
    assert (c.month - 1) / 12 == 0 && (c.month - 1) % 12 == c.month - 1;
    assert MakeDay(FullYear(t), Month(t), Date(t) + k) == Day(t) + k;
    TimeDecomposition(t);
  }

  /** `setHours(0, 0, 0, 0)` gives the midnight that starts the day of `t`. */
  lemma MidnightOf(t: int)
    ensures var m := SetHours(t, 0, 0, 0, 0);
            m % MsPerDay == 0 && Day(m) == Day(t) && m <= t < m + MsPerDay
  {
  }

  /** `setMilliseconds(getMilliseconds() + k)` moves a time value by `k` ms. */
  lemma SetMillisecondsShifts(t: int, k: int)
    ensures SetMilliseconds(t, MsFromTime(t) + k) == t + k
  {
    TimeDecomposition(t);
  }

  /** `new Date(y, m, 1)` is midnight of the first of that month, in year y
      itself unless y is from 0 to 99, which means 1900 + y. */
  lemma NewLocalDateIsFirstOfMonth(year: int, month: int)
    requires 0 <= month < 12
    ensures var t := NewLocalDate(year, month, 1);
            t % MsPerDay == 0 && CivilFromDays(Day(t)) == Civil(ConstructorYear(year), month + 1, 1)
  {
    FirstOfMonth(ConstructorYear(year), month);
  }

  /** MakeDay and MakeDate of the 1st of a month, in a year taken as is. */
  lemma FirstOfMonth(y: int, month: int)
    requires 0 <= month < 12
    ensures var t := MakeDate(MakeDay(y, month, 1), MakeTime(0, 0, 0, 0));
            t % MsPerDay == 0 && CivilFromDays(Day(t)) == Civil(y, month + 1, 1)
  {
    var n := DaysFromCivil(Civil(y, month + 1, 1));
    assert month / 12 == 0 && month % 12 == month;
    assert MakeDay(y, month, 1) == n;
    MidnightOfDay(n);
    CivilRoundTrip(Civil(y, month + 1, 1));
  }

  lemma MidnightOfDay(n: int)
    ensures MakeDate(n, MakeTime(0, 0, 0, 0)) % MsPerDay == 0
    ensures Day(MakeDate(n, MakeTime(0, 0, 0, 0))) == n
  {
  }

  /** Going back `(getDay() + 6) % 7` days from any day lands on a Monday;
      on a Monday it stays put and on a Sunday it goes back six days. */
  lemma BackToMonday(t: int)
    ensures var diff := (WeekDay(t) + 6) % 7;
            0 <= diff < 7 && WeekDay(t - diff * MsPerDay) == 1
            && (WeekDay(t) == 1 ==> diff == 0) && (WeekDay(t) == 0 ==> diff == 6)
  {
    var w := WeekDay(t);
    var q := (Day(t) + 4) / 7;
    assert Day(t) + 4 == 7 * q + w;
    var diff := (w + 6) % 7;
    assert diff == if w == 0 then 6 else w - 1;
    assert Day(t - diff * MsPerDay) == Day(t) - diff;
    if w == 0 {
      assert Day(t) - diff + 4 == 7 * (q - 1) + 1;
    } else {
      assert Day(t) - diff + 4 == 7 * q + 1;
    }
  }
}
