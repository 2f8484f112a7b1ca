/**
 * The proleptic Gregorian calendar that JavaScript's `Date` implements, with
 * dates as integer day numbers (1970-01-01 is day 0) and months numbered 1 to
 * 12 as in a day key. Time zones and daylight-saving shifts are not part of
 * this model: every date is a whole calendar day.
 */
module Calendar {
  import opened DayKeys

  predicate IsLeapYear(y: int)
  {
    y % 4 == 0 && (y % 100 != 0 || y % 400 == 0)
  }

  function YearLength(y: int): int
  {
    if IsLeapYear(y) then 366 else 365
  }

  function DaysInMonth(y: int, m: int): (n: int)
    requires 1 <= m <= 12
    ensures 28 <= n <= 31
    ensures n == 29 <==> m == 2 && IsLeapYear(y)
  {
    if m == 2 then (if IsLeapYear(y) then 29 else 28)
    else if m == 4 || m == 6 || m == 9 || m == 11 then 30
    else 31
  }

  /** Days of year `y` before the first of month `m` (`m == 13`: the whole year). */
  function DaysBeforeMonth(y: int, m: int): int
    requires 1 <= m <= 13
  {
    [0, 31, 59, 90, 120, 151, 181, 212, 243, 273, 304, 334, 365][m - 1]
      + (if m > 2 && IsLeapYear(y) then 1 else 0)
  }

  /** Each month starts where the previous one ends, and the twelve months fill the year. */
  lemma DaysBeforeMonthStep(y: int, m: int)
    requires 1 <= m <= 12
    ensures DaysBeforeMonth(y, m + 1) == DaysBeforeMonth(y, m) + DaysInMonth(y, m)
    ensures DaysBeforeMonth(y, 13) == YearLength(y)
  {
  }

  lemma {:induction false} DaysBeforeMonthMonotone(y: int, m1: int, m2: int)
    requires 1 <= m1 <= m2 <= 13
    ensures DaysBeforeMonth(y, m1) <= DaysBeforeMonth(y, m2)
  {
    if m1 < m2 {
      DaysBeforeMonthStep(y, m2 - 1);
      DaysBeforeMonthMonotone(y, m1, m2 - 1);
    }
  }

  /** Leap years in [0, y) (a signed count when y is negative). */
  function LeapYearsBefore(y: int): int
  {
    (y + 3) / 4 - (y + 99) / 100 + (y + 399) / 400
  }

  /** Days from 1970-01-01 to the first of January of year `y`. */
  function DaysBeforeYear(y: int): int
  {
    365 * (y - 1970) + LeapYearsBefore(y) - LeapYearsBefore(1970)
  }

  /** Stepping a floor quotient by one whole divisor adds one exactly at multiples. */
  lemma MultipleStep4(y: int)
    ensures (y + 4) / 4 - (y + 3) / 4 == if y % 4 == 0 then 1 else 0
  {
  }

  lemma MultipleStep100(y: int)
    ensures (y + 100) / 100 - (y + 99) / 100 == if y % 100 == 0 then 1 else 0
  {
  }

  lemma MultipleStep400(y: int)
    ensures (y + 400) / 400 - (y + 399) / 400 == if y % 400 == 0 then 1 else 0
  {
  }

  /** The first of January of `y + 1` comes exactly one year-length after that of `y`. */
  lemma YearStep(y: int)
    ensures DaysBeforeYear(y + 1) == DaysBeforeYear(y) + YearLength(y)
  {
    MultipleStep4(y);
    MultipleStep100(y);
    MultipleStep400(y);
    MultiplesNest(y);
  }

  /** A multiple of 400 is a multiple of 100, and a multiple of 100 one of 4. */
  lemma MultiplesNest(y: int)
    ensures y % 400 == 0 ==> y % 100 == 0
    ensures y % 100 == 0 ==> y % 4 == 0
  {
    if y % 400 == 0 {
      var q := y / 400;
      assert y == 400 * q;
      assert y - 100 * (4 * q) == 0;
    }
    if y % 100 == 0 {
      var q := y / 100;
      assert y == 100 * q;
      assert y - 4 * (25 * q) == 0;
    }
  }

  lemma {:induction false} DaysBeforeYearMonotone(y1: int, y2: int)
    requires y1 <= y2
    ensures DaysBeforeYear(y1) <= DaysBeforeYear(y2)
    decreases y2 - y1
  {
    if y1 < y2 {
      YearStep(y2 - 1);
      DaysBeforeYearMonotone(y1, y2 - 1);
    }
  }

  predicate IsValidDate(y: int, m: int, d: int)
  {
    1 <= m <= 12 && 1 <= d <= DaysInMonth(y, m)
  }

  /** The day number of a calendar date; 1970-01-01 is day 0. */
  function DayNumber(y: int, m: int, d: int): int
    requires IsValidDate(y, m, d)
  {
    DaysBeforeYear(y) + DaysBeforeMonth(y, m) + d - 1
  }

  /** A valid date's day number lies inside its year. */
  lemma DayNumberWithinYear(y: int, m: int, d: int)
    requires IsValidDate(y, m, d)
    ensures DaysBeforeYear(y) <= DayNumber(y, m, d) < DaysBeforeYear(y + 1)
  {
    DaysBeforeMonthStep(y, m);
    DaysBeforeMonthMonotone(y, m + 1, 13);
    YearStep(y);
  }

  /** A date that comes earlier in (year, month, day) order has a smaller day number. */
  lemma DayNumberStrictlyIncreasing(y1: int, m1: int, d1: int, y2: int, m2: int, d2: int)
    requires IsValidDate(y1, m1, d1) && IsValidDate(y2, m2, d2)
    requires !TripleLe(y2, m2, d2, y1, m1, d1)
    ensures DayNumber(y1, m1, d1) < DayNumber(y2, m2, d2)
  {
    if y1 < y2 {
      DayNumberWithinYear(y1, m1, d1);
      DayNumberWithinYear(y2, m2, d2);
      DaysBeforeYearMonotone(y1 + 1, y2);
    } else if m1 < m2 {
      DaysBeforeMonthStep(y1, m1);
      DaysBeforeMonthMonotone(y1, m1 + 1, m2);
    }
  }

  /** Day numbers order valid dates exactly as (year, month, day) order does. */
  lemma DayNumberOrder(y1: int, m1: int, d1: int, y2: int, m2: int, d2: int)
    requires IsValidDate(y1, m1, d1) && IsValidDate(y2, m2, d2)
    ensures TripleLe(y1, m1, d1, y2, m2, d2) <==> DayNumber(y1, m1, d1) <= DayNumber(y2, m2, d2)
  {
    if y1 == y2 && m1 == m2 && d1 == d2 {
    } else if TripleLe(y1, m1, d1, y2, m2, d2) {
      DayNumberStrictlyIncreasing(y1, m1, d1, y2, m2, d2);
    } else {
      DayNumberStrictlyIncreasing(y2, m2, d2, y1, m1, d1);
    }
  }

  /** The day after the last day of a month is the first of the next month
      (`new Date(y, m + 1, 0)` is the last day of month `m`). */
  lemma MonthEnd(y: int, m: int)
    requires 1 <= m <= 12
    ensures IsValidDate(y, m, DaysInMonth(y, m))
    ensures DayNumber(y, m, DaysInMonth(y, m)) + 1
              == if m == 12 then DayNumber(y + 1, 1, 1) else DayNumber(y, m + 1, 1)
  {
    DaysBeforeMonthStep(y, m);
    if m == 12 {
      YearStep(y);
    }
  }

  // ---------------------------------------------------------------------------
  // Day keys as dates

  /** A key `YYYY-MM-DD` naming a real calendar date. */
  predicate IsDayKey(k: string)
  {
    IsKeyShape(k) && IsValidDate(YearOf(k), MonthOf(k), DayOfMonthOf(k))
  }

  /** The day number of a day key: what `new Date(key)` denotes, in whole days. */
  function KeyDayNumber(k: string): int
    requires IsDayKey(k)
  {
    DayNumber(YearOf(k), MonthOf(k), DayOfMonthOf(k))
  }

  /** Comparing day keys as strings is comparing their dates: sorting keys with
      `localeCompare` or `sort()`, or testing `a <= b`, is chronological. */
  lemma KeyOrderIsChronological(a: string, b: string)
    requires IsDayKey(a) && IsDayKey(b)
    ensures Le(a, b) <==> KeyDayNumber(a) <= KeyDayNumber(b)
  {
    KeyOrder(a, b);
    DayNumberOrder(YearOf(a), MonthOf(a), DayOfMonthOf(a), YearOf(b), MonthOf(b), DayOfMonthOf(b));
  }

  /** Distinct day keys name distinct days. */
  lemma KeyDayNumberInjective(a: string, b: string)
    requires IsDayKey(a) && IsDayKey(b) && KeyDayNumber(a) == KeyDayNumber(b)
    ensures a == b
  {
    KeyOrderIsChronological(a, b);
    KeyOrderIsChronological(b, a);
    LeAntisymmetric(a, b);
  }

  // ---------------------------------------------------------------------------
  // Weekdays

  /** `Date.prototype.getDay`: 0 is Sunday, 1 Monday, … 6 Saturday.
      Day 0, 1970-01-01, was a Thursday. */
  function Weekday(n: int): (w: int)
    ensures 0 <= w <= 6
  {
    (n + 4) % 7
  }

  /** The column of a day in a week that starts on Monday: `(getDay() + 6) % 7`. */
  function MondayColumn(n: int): (c: int)
    ensures 0 <= c <= 6
    ensures Weekday(n) == (c + 1) % 7
    ensures c == 0 <==> Weekday(n) == 1
    ensures c == 6 <==> Weekday(n) == 0
  {
    (Weekday(n) + 6) % 7
  }

  /** The Monday-first column counts days from a Monday: day 4 (1970-01-05). */
  lemma MondayColumnFromMonday(n: int)
    ensures MondayColumn(n) == (n + 3) % 7
  {
    var t := (n + 4) / 7;
    assert n + 4 == 7 * t + Weekday(n);
    assert Weekday(n) + 6 == 7 * (1 - t) + (n + 3);
    ShiftByWeeks(n + 3, 1 - t);
  }

  /** Consecutive days sit in consecutive columns, wrapping after Sunday. */
  lemma MondayColumnAdvances(n: int, k: int)
    ensures MondayColumn(n + k) == (MondayColumn(n) + k) % 7
  {
    MondayColumnFromMonday(n);
    MondayColumnFromMonday(n + k);
    var a := n + 3;
    var q := a / 7;
    assert a == 7 * q + a % 7;
    assert a + k == 7 * q + (a % 7 + k);
    ShiftByWeeks(a % 7 + k, q);
  }

  lemma ShiftByWeeks(x: int, q: int)
    ensures (7 * q + x) % 7 == x % 7
  {
    var t := (7 * q + x) / 7;
    var u := x / 7;
    assert 7 * q + x == 7 * t + (7 * q + x) % 7;
    assert x == 7 * u + x % 7;
    assert 7 * (q + u - t) == (7 * q + x) % 7 - x % 7;
  }
}
