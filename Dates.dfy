/**
 * The proleptic Gregorian calendar of .NET's DateTime, restricted to the date part.
 * A date is identified by its day number: the days elapsed since 0001-01-01, which is
 * how DateTime orders and subtracts values whose time of day is zero.
 */
module Dates {

  datatype Date = Date(year: int, month: int, day: int)

  /** A DateTime value: a calendar date plus the ticks (100 ns) elapsed since midnight. */
  datatype DateTime = DateTime(date: Date, timeOfDay: nat)

  const TICKS_PER_DAY: nat := 864_000_000_000

  /** Day number of 9999-12-31, the last day DateTime can represent. */
  const MAX_DAY_NUMBER: int := 3_652_058

  // DayOfWeek values, numbered as System.DayOfWeek numbers them.
  const SUNDAY: int := 0
  const MONDAY: int := 1
  const THURSDAY: int := 4
  const FRIDAY: int := 5
  const SATURDAY: int := 6

  predicate IsLeapYear(y: int) {
    y % 4 == 0 && (y % 100 != 0 || y % 400 == 0)
  }

  function DaysInYear(y: int): int {
    if IsLeapYear(y) then 366 else 365
  }

  function DaysInMonth(y: int, m: int): int {
    if m == 2 then (if IsLeapYear(y) then 29 else 28)
    else if m == 4 || m == 6 || m == 9 || m == 11 then 30
    else 31
  }

  /** The dates DateTime can hold: years 1 through 9999. */
  predicate ValidDate(d: Date) {
    1 <= d.year <= 9999 && 1 <= d.month <= 12 && 1 <= d.day <= DaysInMonth(d.year, d.month)
  }

  predicate ValidDateTime(t: DateTime) {
    ValidDate(t.date) && t.timeOfDay < TICKS_PER_DAY
  }

  /** The tick count of a DateTime, by which DateTime values compare and subtract. */
  function Ticks(t: DateTime): int {
    DayNumber(t.date) * TICKS_PER_DAY + t.timeOfDay
  }

  /** The DateTime at the start of a date, as `new DateTime(y, m, d)` builds it. */
  function AtMidnight(d: Date): DateTime {
    DateTime(d, 0)
  }

  /** DateTime.Date: the same day at midnight. */
  function Midnight(t: DateTime): (r: DateTime)
    ensures r.date == t.date && r.timeOfDay == 0
  {
    DateTime(t.date, 0)
  }

  /** Days in the years before year `y`, counted from year 1. */
  function DaysBeforeYear(y: int): int
    decreases y
  {
    if y <= 1 then 0 else DaysBeforeYear(y - 1) + DaysInYear(y - 1)
  }

  function DaysBeforeMonth(y: int, m: int): int {
    if 1 <= m <= 12 then
      [0, 31, 59, 90, 120, 151, 181, 212, 243, 273, 304, 334][m - 1]
      + (if m > 2 && IsLeapYear(y) then 1 else 0)
    else 0
  }

  /** Days elapsed since 0001-01-01 (which has day number 0). */
  function DayNumber(d: Date): int {
    DaysBeforeYear(d.year) + DaysBeforeMonth(d.year, d.month) + d.day - 1
  }

  /** System.DayOfWeek of a date: 0001-01-01 is a Monday. */
  function DayOfWeek(d: Date): (w: int)
    ensures 0 <= w < 7
  {
    (DayNumber(d) + 1) % 7
  }

  /** The weekday of a day number, as DayOfWeek numbers it. */
  function WeekdayOfNumber(n: int): (w: int)
    ensures 0 <= w < 7
  {
    (n + 1) % 7
  }

  /** Lexicographic order on (year, month, day). */
  predicate LexBefore(a: Date, b: Date) {
    a.year < b.year
    || (a.year == b.year && a.month < b.month)
    || (a.year == b.year && a.month == b.month && a.day < b.day)
  }

  lemma DivStep4(p: int)
    ensures (p + 1) / 4 == p / 4 + (if (p + 1) % 4 == 0 then 1 else 0)
  {
  }

  lemma DivStep100(p: int)
    ensures (p + 1) / 100 == p / 100 + (if (p + 1) % 100 == 0 then 1 else 0)
  {
  }

  lemma DivStep400(p: int)
    ensures (p + 1) / 400 == p / 400 + (if (p + 1) % 400 == 0 then 1 else 0)
  {
  }

  lemma DaysBeforeYearStep(y: int)
    requires y >= 1
    ensures DaysBeforeYear(y + 1) == DaysBeforeYear(y) + DaysInYear(y)
  {
  }

  lemma {:induction false} DaysBeforeYearNonNegative(y: int)
    ensures DaysBeforeYear(y) >= 0
    decreases y
  {
    if y > 1 {
      DaysBeforeYearNonNegative(y - 1);
    }
  }

  /** 365 days for each earlier year plus one for each earlier leap year. */
  function DaysBeforeYearClosedForm(y: int): int {
    var p := y - 1;
    365 * p + p / 4 - p / 100 + p / 400
  }

  lemma ClosedFormStep(y: int)
    ensures DaysBeforeYearClosedForm(y + 1) == DaysBeforeYearClosedForm(y) + DaysInYear(y)
  {
    DivStep4(y - 1);
    DivStep100(y - 1);
    DivStep400(y - 1);
    DivisibilityChain(y);
  }

  lemma DivisibilityChain(y: int)
    ensures y % 400 == 0 ==> y % 100 == 0
    ensures y % 100 == 0 ==> y % 4 == 0
  {
    if y % 400 == 0 {
      var k := 4 * (y / 400);
      assert y == 100 * k;
      MultipleOf100(k);
    }
    if y % 100 == 0 {
      var k := 25 * (y / 100);
      assert y == 4 * k;
      MultipleOf4(k);
    }
  }

  lemma MultipleOf100(k: int)
    ensures (100 * k) % 100 == 0
  {
  }

  lemma MultipleOf4(k: int)
    ensures (4 * k) % 4 == 0
  {
  }

  /** The recursive year count agrees with the closed form. */
  lemma {:induction false} DaysBeforeYearFormula(y: int)
    requires y >= 1
    ensures DaysBeforeYear(y) == DaysBeforeYearClosedForm(y)
    decreases y
  {
    if y > 1 {
      DaysBeforeYearFormula(y - 1);
      ClosedFormStep(y - 1);
    }
  }

  lemma {:induction false} DaysBeforeYearMonotone(a: int, b: int)
    requires 1 <= a < b
    ensures DaysBeforeYear(a) + DaysInYear(a) <= DaysBeforeYear(b)
    decreases b - a
  {
    DaysBeforeYearStep(a);
    if a + 1 < b {
      DaysBeforeYearMonotone(a + 1, b);
    }
  }

  lemma DaysBeforeMonthStep(y: int, m: int)
    requires 1 <= m < 12
    ensures DaysBeforeMonth(y, m + 1) == DaysBeforeMonth(y, m) + DaysInMonth(y, m)
  {
  }

  lemma DaysBeforeMonthEnd(y: int)
    ensures DaysBeforeMonth(y, 12) + DaysInMonth(y, 12) == DaysInYear(y)
  {
  }

  lemma {:induction false} DaysBeforeMonthMonotone(y: int, a: int, b: int)
    requires 1 <= a < b <= 12
    ensures DaysBeforeMonth(y, a) + DaysInMonth(y, a) <= DaysBeforeMonth(y, b)
    decreases b - a
  {
    DaysBeforeMonthStep(y, a);
    if a + 1 < b {
      DaysBeforeMonthMonotone(y, a + 1, b);
    }
  }

  /** A valid date's day number lies within its year. */
  lemma DayNumberInYear(d: Date)
    requires ValidDate(d)
    ensures DaysBeforeYear(d.year) <= DayNumber(d) < DaysBeforeYear(d.year) + DaysInYear(d.year)
    ensures DayNumber(d) < DaysBeforeYear(d.year + 1)
  {
    DaysBeforeYearStep(d.year);
    DaysBeforeMonthEnd(d.year);
    if d.month < 12 {
      DaysBeforeMonthMonotone(d.year, d.month, 12);
    }
  }

  /** Day numbers order valid dates exactly as (year, month, day) does, and identify them. */
  lemma DayNumberOrder(a: Date, b: Date)
    requires ValidDate(a) && ValidDate(b)
    ensures DayNumber(a) < DayNumber(b) <==> LexBefore(a, b)
    ensures DayNumber(a) == DayNumber(b) <==> a == b
  {
    DayNumberInYear(a);
    DayNumberInYear(b);
    if a.year < b.year {
      DaysBeforeYearMonotone(a.year, b.year);
    } else if b.year < a.year {
      DaysBeforeYearMonotone(b.year, a.year);
    } else if a.month < b.month {
      DaysBeforeMonthMonotone(a.year, a.month, b.month);
    } else if b.month < a.month {
      DaysBeforeMonthMonotone(a.year, b.month, a.month);
    }
  }

  /** Day numbers are ordered the way years are. */
  lemma YearOrder(a: Date, b: Date)
    requires ValidDate(a) && ValidDate(b)
    ensures DayNumber(a) <= DayNumber(b) ==> a.year <= b.year
    ensures a.year < b.year ==> DayNumber(a) < DayNumber(b)
  {
    DayNumberOrder(a, b);
  }

  lemma MaxDayNumberIsLastDate()
    ensures DayNumber(Date(9999, 12, 31)) == MAX_DAY_NUMBER
  {
    DaysBeforeYearFormula(9999);
  }

  /** No valid date lies beyond 9999-12-31. */
  lemma DayNumberBounds(d: Date)
    requires ValidDate(d)
    ensures 0 <= DayNumber(d) <= MAX_DAY_NUMBER
    ensures d.year < 9999 ==> DayNumber(d) + 365 <= MAX_DAY_NUMBER
  {
    DayNumberInYear(d);
    DaysBeforeYearNonNegative(d.year);
    MaxDayNumberIsLastDate();
    var last := Date(9999, 12, 31);
    if d != last {
      DayNumberOrder(d, last);
    }
    if d.year + 1 < 9999 {
      DaysBeforeYearMonotone(d.year + 1, 9999);
    }
  }

  /** The day after `d`, by the calendar rules (DateTime.AddDays(1)). */
  function NextDay(d: Date): (r: Date)
    requires ValidDate(d) && DayNumber(d) < MAX_DAY_NUMBER
    ensures ValidDate(r) && DayNumber(r) == DayNumber(d) + 1
  {
    if d.day < DaysInMonth(d.year, d.month) then
      Date(d.year, d.month, d.day + 1)
    else if d.month < 12 then
      DaysBeforeMonthStep(d.year, d.month);
      Date(d.year, d.month + 1, 1)
    else
      MaxDayNumberIsLastDate();
      DaysBeforeYearStep(d.year);
      DaysBeforeMonthEnd(d.year);
      Date(d.year + 1, 1, 1)
  }

  /** DateTime.AddDays(k) for a whole, non-negative number of days. */
  function AddDays(d: Date, k: nat): (r: Date)
    requires ValidDate(d) && DayNumber(d) + k <= MAX_DAY_NUMBER
    ensures ValidDate(r) && DayNumber(r) == DayNumber(d) + k
  {
    AdvanceTo(d, DayNumber(d) + k)
  }

  /** Steps forward one day at a time from `d` until day number `target` is reached. */
  function AdvanceTo(d: Date, target: int): (r: Date)
    requires ValidDate(d) && DayNumber(d) <= target <= MAX_DAY_NUMBER
    ensures ValidDate(r) && DayNumber(r) == target
    decreases target - DayNumber(d)
  {
    if DayNumber(d) == target then d else AdvanceTo(NextDay(d), target)
  }

  /** Moving k days forward moves the weekday k steps round the week. */
  lemma DayOfWeekAfter(d: Date, k: nat)
    requires ValidDate(d) && DayNumber(d) + k <= MAX_DAY_NUMBER
    ensures DayOfWeek(AddDays(d, k)) == (DayOfWeek(d) + k) % 7
  {
    ModSevenShift(DayNumber(d) + 1, k);
  }

  lemma ModSevenShift(x: int, k: int)
    ensures (x + k) % 7 == (x % 7 + k) % 7
  {
    var q := x / 7;
    assert x == 7 * q + x % 7;
  }

  /** Adding days inside a month only moves the day of the month. */
  lemma AddDaysInMonth(d: Date, k: nat)
    requires ValidDate(d) && d.day + k <= DaysInMonth(d.year, d.month)
    ensures DayNumber(d) + k <= MAX_DAY_NUMBER
    ensures AddDays(d, k) == Date(d.year, d.month, d.day + k)
  {
    var t := Date(d.year, d.month, d.day + k);
    DayNumberBounds(t);
    DayNumberOrder(AddDays(d, k), t);
  }

  /** Adding days past the end of a month (other than December) lands in the next month. */
  lemma AddDaysIntoNextMonth(d: Date, k: nat)
    requires ValidDate(d) && d.month < 12
    requires DaysInMonth(d.year, d.month) < d.day + k
    requires d.day + k <= DaysInMonth(d.year, d.month) + DaysInMonth(d.year, d.month + 1)
    ensures DayNumber(d) + k <= MAX_DAY_NUMBER
    ensures AddDays(d, k) == Date(d.year, d.month + 1, d.day + k - DaysInMonth(d.year, d.month))
  {
    var t := Date(d.year, d.month + 1, d.day + k - DaysInMonth(d.year, d.month));
    DaysBeforeMonthStep(d.year, d.month);
    DayNumberBounds(t);
    DayNumberOrder(AddDays(d, k), t);
  }

  /** Tick order is day order first, then time of day. */
  lemma TicksOrder(a: DateTime, b: DateTime)
    requires a.timeOfDay < TICKS_PER_DAY && b.timeOfDay < TICKS_PER_DAY
    ensures Ticks(a) <= Ticks(b) <==>
      DayNumber(a.date) < DayNumber(b.date)
      || (DayNumber(a.date) == DayNumber(b.date) && a.timeOfDay <= b.timeOfDay)
  {
  }

  /** Two valid dates with the same day number are the same date. */
  lemma SameDay(a: Date, b: Date)
    requires ValidDate(a) && ValidDate(b) && DayNumber(a) == DayNumber(b)
    ensures a == b
  {
    DayNumberOrder(a, b);
  }

  /** A valid date between January 1 and December 31 of a year lies in that year. */
  lemma YearOfDayNumber(d: Date, y: int)
    requires ValidDate(d) && 1 <= y <= 9999
    requires DayNumber(Date(y, 1, 1)) <= DayNumber(d) <= DayNumber(Date(y, 12, 31))
    ensures d.year == y
  {
    YearOrder(Date(y, 1, 1), d);
    YearOrder(d, Date(y, 12, 31));
  }

  /** A valid date lies between January 1 and December 31 of its year. */
  lemma DateWithinItsYear(d: Date)
    requires ValidDate(d)
    ensures DayNumber(Date(d.year, 1, 1)) <= DayNumber(d) <= DayNumber(Date(d.year, 12, 31))
  {
    if d.month < 12 {
      DaysBeforeMonthMonotone(d.year, d.month, 12);
    }
  }

  /** December 31 of any supported year has a day number DateTime can hold. */
  lemma LastDayOfYear(y: int)
    requires 1 <= y <= 9999
    ensures DayNumber(Date(y, 12, 31)) <= MAX_DAY_NUMBER
  {
    DayNumberBounds(Date(y, 12, 31));
  }

  /**
   * The first date on or after `d` whose weekday is `w`: the date a loop reaches that
   * starts at `d` and adds one day while the weekday differs from `w`.
   */
  function FirstOnOrAfter(d: Date, w: int): (r: Date)
    requires ValidDate(d) && DayNumber(d) + 6 <= MAX_DAY_NUMBER && 0 <= w < 7
    ensures ValidDate(r) && DayOfWeek(r) == w
    ensures DayNumber(d) <= DayNumber(r) <= DayNumber(d) + 6
    ensures forall n :: DayNumber(d) <= n < DayNumber(r) ==> WeekdayOfNumber(n) != w
  {
    var k := WeekdayDistance(DayOfWeek(d), w);
    StepsToWeekday(d, w);
    AddDays(d, k)
  }

  /** Adding the weekday distance reaches weekday `w` and passes no earlier day with it. */
  lemma StepsToWeekday(d: Date, w: int)
    requires ValidDate(d) && DayNumber(d) + 6 <= MAX_DAY_NUMBER && 0 <= w < 7
    ensures DayOfWeek(AddDays(d, WeekdayDistance(DayOfWeek(d), w))) == w
    ensures forall n :: DayNumber(d) <= n < DayNumber(d) + WeekdayDistance(DayOfWeek(d), w) ==>
      WeekdayOfNumber(n) != w
  {
    var k := WeekdayDistance(DayOfWeek(d), w);
    DayOfWeekAfter(d, k);
    forall n | DayNumber(d) <= n < DayNumber(d) + k ensures WeekdayOfNumber(n) != w {
      WeekdayGap(DayNumber(d), w, n);
    }
  }

  /** How many days forward weekday `w` next comes after (or on) weekday `dw`. */
  function WeekdayDistance(dw: int, w: int): (k: nat)
    requires 0 <= dw < 7 && 0 <= w < 7
    ensures k < 7 && (dw + k) % 7 == w
  {
    (w - dw + 7) % 7
  }

  /** Day numbers before the first one with weekday `w` have another weekday. */
  lemma WeekdayGap(x: int, w: int, n: int)
    requires 0 <= w < 7
    requires x <= n < x + WeekdayDistance(WeekdayOfNumber(x), w)
    ensures WeekdayOfNumber(n) != w
  {
    ModSevenShift(x + 1, n - x);
    StepsBeforeWeekday(WeekdayOfNumber(x), w, n - x);
  }

  /** Fewer steps than the distance to weekday `w` never reach `w`. */
  lemma StepsBeforeWeekday(dw: int, w: int, j: int)
    requires 0 <= dw < 7 && 0 <= w < 7 && 0 <= j < WeekdayDistance(dw, w)
    ensures (dw + j) % 7 != w
  {
    if dw <= w {
      assert (w - dw + 7) % 7 == w - dw;
    } else {
      assert (w - dw + 7) % 7 == w - dw + 7;
    }
  }

  /** The weekday of a date follows from the weekday of January 1 of its year. */
  lemma DayOfWeekInYear(d: Date)
    ensures DayOfWeek(d)
      == (DayOfWeek(Date(d.year, 1, 1)) + DaysBeforeMonth(d.year, d.month) + d.day - 1) % 7
  {
    ModSevenShift(DaysBeforeYear(d.year) + 1, DaysBeforeMonth(d.year, d.month) + d.day - 1);
  }

  /** January 1 of the years around the supported range. */
  function NewYearWeekdayOf(y: int): int {
    if y == 2019 then 2        // Tuesday
    else if y == 2020 then 3   // Wednesday
    else if y == 2021 then 5
    else if y == 2022 then 6
    else if y == 2023 then 0
    else if y == 2024 then 1
    else 3
  }

  lemma DaysBefore2019(y: int)
    requires y == 2019
    ensures DaysBeforeYear(y) == 737_059
  {
    DaysBeforeYearFormula(y);
  }

  lemma NewYearStep(y: int)
    requires y >= 2
    ensures DayOfWeek(Date(y, 1, 1)) == (DayOfWeek(Date(y - 1, 1, 1)) + DaysInYear(y - 1)) % 7
  {
    DaysBeforeYearStep(y - 1);
    ModSevenShift(DaysBeforeYear(y - 1) + 1, DaysInYear(y - 1));
  }

  /** Each entry of the table follows from the one before by the length of that year. */
  lemma NewYearTable(y: int)
    requires 2020 <= y <= 2025
    ensures NewYearWeekdayOf(y) == (NewYearWeekdayOf(y - 1) + DaysInYear(y - 1)) % 7
  {
    if y == 2020 {
    } else if y == 2021 {
    } else if y == 2022 {
    } else if y == 2023 {
    } else if y == 2024 {
    } else {
    }
  }

  /** The weekday of January 1 for the years 2019 through 2025. */
  lemma {:induction false} NewYearWeekday(y: int)
    requires 2019 <= y <= 2025
    ensures DayOfWeek(Date(y, 1, 1)) == NewYearWeekdayOf(y)
    decreases y
  {
    if y == 2019 {
      DaysBefore2019(y);
    } else {
      NewYearWeekday(y - 1);
      NewYearStep(y);
      NewYearTable(y);
    }
  }
}
