/** The proleptic Gregorian calendar that JavaScript's `Date` uses, as a pair
    of conversions between day numbers (days since 1970-01-01) and civil
    dates, proved to be inverse to each other. */
module CivilTime {

  /** A calendar date: `month` is 1..12 and `day` is 1-based. */
  datatype Civil = Civil(year: int, month: int, day: int)

  predicate IsLeapYear(y: int) {
    y % 4 == 0 && (y % 100 != 0 || y % 400 == 0)
  }

  function DaysInYear(y: int): int {
    if IsLeapYear(y) then 366 else 365
  }

  function DaysInMonth(y: int, m: int): int
    requires 1 <= m <= 12
  {
    if m == 2 then (if IsLeapYear(y) then 29 else 28)
    else if m == 4 || m == 6 || m == 9 || m == 11 then 30
    else 31
  }

  predicate ValidCivil(c: Civil) {
    1 <= c.month <= 12 && 1 <= c.day <= DaysInMonth(c.year, c.month)
  }

  /** Days of year `y` that come before the first of month `m`. */
  function DaysBeforeMonth(y: int, m: int): int
    requires 1 <= m <= 12
  {
    var common := [0, 31, 59, 90, 120, 151, 181, 212, 243, 273, 304, 334][m - 1];
    if m > 2 && IsLeapYear(y) then common + 1 else common
  }

  /** Day number of January 1st of year `y`. */
  function DaysBeforeYear(y: int): int
    decreases if y < 1970 then 1970 - y else y - 1970
  {
    if y == 1970 then 0
    else if y > 1970 then DaysBeforeYear(y - 1) + DaysInYear(y - 1)
    else DaysBeforeYear(y + 1) - DaysInYear(y)
  }

  /** Day number of a civil date (for `day` outside the month this simply
      counts on from the first of the month). */
  function DaysFromCivil(c: Civil): int
    requires 1 <= c.month <= 12
  {
    DaysBeforeYear(c.year) + DaysBeforeMonth(c.year, c.month) + c.day - 1
  }

  lemma YearStep(y: int)
    ensures DaysBeforeYear(y + 1) == DaysBeforeYear(y) + DaysInYear(y)
  {
  }

  lemma MonthStep(y: int, m: int)
    requires 1 <= m <= 12
    ensures DaysBeforeMonth(y, m) + DaysInMonth(y, m)
            == if m < 12 then DaysBeforeMonth(y, m + 1) else DaysInYear(y)
  {
  }

  /** Finds the year holding the day `k` days after January 1st of `y`, and
      that day's offset within its year. */
  function YearSearch(y: int, k: int): (r: (int, int))
    ensures 0 <= r.1 < DaysInYear(r.0)
    ensures DaysBeforeYear(r.0) + r.1 == DaysBeforeYear(y) + k
    decreases if k < 0 then 400 - k else k
  {
    if k < 0 then
      YearStep(y - 1);
      YearSearch(y - 1, k + DaysInYear(y - 1))
    else if k < DaysInYear(y) then
      (y, k)
    else
      YearStep(y);
      YearSearch(y + 1, k - DaysInYear(y))
  }

  /** Finds, among months 1..m, the month of year `y` holding day-of-year `k`. */
  function MonthSearch(y: int, k: int, m: int): (r: int)
    requires 1 <= m <= 12 && 0 <= k < DaysBeforeMonth(y, m) + DaysInMonth(y, m)
    ensures 1 <= r <= m
    ensures DaysBeforeMonth(y, r) <= k < DaysBeforeMonth(y, r) + DaysInMonth(y, r)
    decreases m
  {
    if DaysBeforeMonth(y, m) <= k then m
    else
      MonthStep(y, m - 1);
      MonthSearch(y, k, m - 1)
  }

  /** The civil date of day number `n`: a real calendar date that lies
      exactly `n` days after 1970-01-01. */
  function CivilFromDays(n: int): (c: Civil)
    ensures ValidCivil(c) && DaysFromCivil(c) == n
  {
    var yk := YearSearch(1970, n);
    MonthStep(yk.0, 12);
    var m := MonthSearch(yk.0, yk.1, 12);
    Civil(yk.0, m, yk.1 - DaysBeforeMonth(yk.0, m) + 1)
  }

  lemma {:induction false} YearsAreOrdered(a: int, b: int)
    requires a < b
    ensures DaysBeforeYear(a) + DaysInYear(a) <= DaysBeforeYear(b)
    decreases b - a
  {
    YearStep(a);
    if a + 1 < b {
      YearsAreOrdered(a + 1, b);
    }
  }

  lemma {:induction false} MonthsAreOrdered(y: int, a: int, b: int)
    requires 1 <= a < b <= 12
    ensures DaysBeforeMonth(y, a) + DaysInMonth(y, a) <= DaysBeforeMonth(y, b)
    decreases b - a
  {
    MonthStep(y, a);
    if a + 1 < b {
      MonthsAreOrdered(y, a + 1, b);
    }
  }

  /** Distinct calendar dates have distinct day numbers. */
  lemma DaysFromCivilInjective(c1: Civil, c2: Civil)
    requires ValidCivil(c1) && ValidCivil(c2)
    requires DaysFromCivil(c1) == DaysFromCivil(c2)
    ensures c1 == c2
  {
    MonthStep(c1.year, c1.month);
    MonthStep(c2.year, c2.month);
    MonthStep(c1.year, 12);
    MonthStep(c2.year, 12);
    if c1.year < c2.year {
      YearsAreOrdered(c1.year, c2.year);
    } else if c2.year < c1.year {
      YearsAreOrdered(c2.year, c1.year);
    }
    if c1.month < c2.month {
      MonthsAreOrdered(c1.year, c1.month, c2.month);
    } else if c2.month < c1.month {
      MonthsAreOrdered(c1.year, c2.month, c1.month);
    }
  }

  /** Converting a calendar date to its day number and back gives it back. */
  lemma CivilRoundTrip(c: Civil)
    requires ValidCivil(c)
    ensures CivilFromDays(DaysFromCivil(c)) == c
  {
    DaysFromCivilInjective(CivilFromDays(DaysFromCivil(c)), c);
  }

  /** The month that precedes month `m` of year `y`, January wrapping to
      December of the year before. */
  function PreviousMonth(y: int, m: int): (p: (int, int))
    requires 1 <= m <= 12
    ensures 1 <= p.1 <= 12
    ensures DaysFromCivil(Civil(p.0, p.1, 1)) + DaysInMonth(p.0, p.1)
            == DaysFromCivil(Civil(y, m, 1))
  {
    if m == 1 then
      YearStep(y - 1);
      MonthStep(y - 1, 12);
      (y - 1, 12)
    else
      MonthStep(y, m - 1);
      (y, m - 1)
  }
}
