/**
 * The vacation-day calculator: the days of a period, less its Sundays, less the national
 * holidays in it that do not fall on a Sunday.
 */
module Planner {
  import opened Wrappers
  import opened Dates
  import opened DateLists
  import opened FinnishHolidays
  import opened ValidationResults
  import opened Validator

  // Counting days by day number.

  /** The number of Sundays among the day numbers lo..hi. */
  function CountSundays(lo: int, hi: int): nat
    decreases hi - lo
  {
    if lo > hi then 0
    else (if WeekdayOfNumber(lo) == SUNDAY then 1 else 0) + CountSundays(lo + 1, hi)
  }

  /** The number of days among lo..hi that are neither Sundays nor listed in `holidays`. */
  function WorkDays(lo: int, hi: int, holidays: seq<int>): nat
    decreases hi - lo
  {
    if lo > hi then 0
    else (if WeekdayOfNumber(lo) != SUNDAY && lo !in holidays then 1 else 0) + WorkDays(lo + 1, hi, holidays)
  }

  /** `holidays.Count(holiday => holiday.DayOfWeek != DayOfWeek.Sunday)`. */
  function NonSundayCount(holidays: seq<Date>): (r: nat)
    ensures r <= |holidays|
  {
    if holidays == [] then 0
    else (if DayOfWeek(holidays[0]) != SUNDAY then 1 else 0) + NonSundayCount(holidays[1..])
  }

  /** The day numbers of a list of dates. */
  function DayNumbers(dates: seq<Date>): (r: seq<int>)
    ensures |r| == |dates| && forall i :: 0 <= i < |r| ==> r[i] == DayNumber(dates[i])
  {
    if dates == [] then [] else [DayNumber(dates[0])] + DayNumbers(dates[1..])
  }

  predicate IncreasingWithin(ns: seq<int>, lo: int, hi: int) {
    (forall i, j :: 0 <= i < j < |ns| ==> ns[i] < ns[j])
    && (forall i :: 0 <= i < |ns| ==> lo <= ns[i] <= hi)
  }

  /** Days before the first Sunday that a scan reaches are skipped without changing the count. */
  lemma {:induction false} SkipNonSundays(a: int, b: int, hi: int)
    requires a <= b <= hi + 1
    requires forall n :: a <= n < b ==> WeekdayOfNumber(n) != SUNDAY
    ensures CountSundays(a, hi) == CountSundays(b, hi)
    decreases b - a
  {
    if a < b {
      SkipNonSundays(a + 1, b, hi);
    }
  }

  /** The days after a Sunday up to the next one are not Sundays. */
  lemma WeekAfterSunday(lo: int)
    requires WeekdayOfNumber(lo) == SUNDAY
    ensures forall n :: lo < n < lo + 7 ==> WeekdayOfNumber(n) != SUNDAY
    ensures WeekdayOfNumber(lo + 7) == SUNDAY
  {
    forall n | lo < n < lo + 7 ensures WeekdayOfNumber(n) != SUNDAY {
      ModSevenShift(lo + 1, n - lo);
    }
    ModSevenShift(lo + 1, 7);
  }

  /** From a Sunday, every seventh day is a Sunday: floor((hi - lo) / 7) + 1 of them. */
  lemma {:induction false} SundaysFromSunday(lo: int, hi: int)
    requires WeekdayOfNumber(lo) == SUNDAY && lo <= hi
    ensures CountSundays(lo, hi) == (hi - lo) / 7 + 1
    decreases hi - lo
  {
    WeekAfterSunday(lo);
    if hi < lo + 7 {
      SkipNonSundays(lo + 1, hi + 1, hi);
    } else {
      SkipNonSundays(lo + 1, lo + 7, hi);
      SundaysFromSunday(lo + 7, hi);
    }
  }

  /**
   * The number of Sundays in lo..hi in closed form: none when the first Sunday on or after
   * lo is past hi, otherwise one plus a Sunday for every further full week.
   */
  lemma SundayCountClosedForm(lo: int, hi: int)
    ensures var first := lo + WeekdayDistance(WeekdayOfNumber(lo), SUNDAY);
      CountSundays(lo, hi) == if first > hi then 0 else (hi - first) / 7 + 1
  {
    var first := lo + WeekdayDistance(WeekdayOfNumber(lo), SUNDAY);
    forall n | lo <= n < first ensures WeekdayOfNumber(n) != SUNDAY {
      WeekdayGap(lo, SUNDAY, n);
    }
    ModSevenShift(lo + 1, first - lo);
    if lo <= hi {
      if first > hi {
        SkipNonSundays(lo, hi + 1, hi);
      } else {
        SkipNonSundays(lo, first, hi);
        SundaysFromSunday(first, hi);
      }
    }
  }

  /** Which holidays are listed matters only inside the range counted. */
  lemma {:induction false} WorkDaysInside(lo: int, hi: int, a: seq<int>, b: seq<int>)
    requires forall n :: lo <= n <= hi ==> (n in a <==> n in b)
    ensures WorkDays(lo, hi, a) == WorkDays(lo, hi, b)
    decreases hi - lo
  {
    if lo <= hi {
      WorkDaysInside(lo + 1, hi, a, b);
    }
  }

  /** The non-Sunday count of integers: how many of `ns` are not Sundays. */
  function NonSundayNumbers(ns: seq<int>): nat {
    if ns == [] then 0
    else (if WeekdayOfNumber(ns[0]) != SUNDAY then 1 else 0) + NonSundayNumbers(ns[1..])
  }

  /** Past its first element, an increasing list lies after that element. */
  lemma IncreasingTail(ns: seq<int>, lo: int, hi: int)
    requires ns != [] && IncreasingWithin(ns, lo, hi)
    ensures IncreasingWithin(ns[1..], ns[0] + 1, hi)
    ensures forall n :: ns[0] < n ==> (n in ns <==> n in ns[1..])
  {
    forall i | 0 <= i < |ns[1..]| ensures ns[0] + 1 <= ns[1..][i] <= hi {
      assert ns[1..][i] == ns[i + 1];
    }
    assert ns == [ns[0]] + ns[1..];
  }

  /** A list that does not hold `lo` lies within the range that starts one day later. */
  lemma IncreasingPast(ns: seq<int>, lo: int, hi: int)
    requires IncreasingWithin(ns, lo, hi) && lo !in ns
    ensures IncreasingWithin(ns, lo + 1, hi)
  {
    forall i | 0 <= i < |ns| ensures lo + 1 <= ns[i] {
      assert ns[i] != lo;
    }
  }

  /**
   * Subtracting the Sundays and then the holidays that are not Sundays counts every other
   * day once: a holiday on a Sunday is taken off only once.
   */
  lemma {:induction false} WorkDaysByCounting(lo: int, hi: int, ns: seq<int>)
    requires lo <= hi + 1 && IncreasingWithin(ns, lo, hi)
    ensures WorkDays(lo, hi, ns) == (hi - lo + 1) - CountSundays(lo, hi) - NonSundayNumbers(ns)
    decreases hi - lo
  {
    if lo > hi {
      assert ns == [];
    } else if ns != [] && ns[0] == lo {
      IncreasingTail(ns, lo, hi);
      WorkDaysInside(lo + 1, hi, ns, ns[1..]);
      WorkDaysByCounting(lo + 1, hi, ns[1..]);
      assert WorkDays(lo, hi, ns) == WorkDays(lo + 1, hi, ns);
      assert NonSundayNumbers(ns)
        == (if WeekdayOfNumber(lo) != SUNDAY then 1 else 0) + NonSundayNumbers(ns[1..]);
    } else {
      forall i | 0 <= i < |ns| ensures ns[i] != lo {
        if i > 0 {
          assert ns[0] < ns[i];
        }
      }
      IncreasingPast(ns, lo, hi);
      WorkDaysByCounting(lo + 1, hi, ns);
    }
  }

  /** Counting non-Sunday holidays by date is counting their day numbers. */
  lemma {:induction false} NonSundayCountNumbers(holidays: seq<Date>)
    ensures NonSundayCount(holidays) == NonSundayNumbers(DayNumbers(holidays))
  {
    if holidays != [] {
      NonSundayCountNumbers(holidays[1..]);
      assert DayNumbers(holidays)[1..] == DayNumbers(holidays[1..]);
    }
  }

  // The calculation.

  /**
   * Days spent on a period from `startDate` to `endDate`, both included, given the
   * holidays the provider lists for it: days, less Sundays, less non-Sunday holidays.
   */
  function DaysSpent(startDate: Date, endDate: Date, holidays: seq<Date>): int {
    DayNumber(endDate) - DayNumber(startDate) + 1
    - CountSundays(DayNumber(startDate), DayNumber(endDate)) - NonSundayCount(holidays)
  }

  /**
   * CalculateSpentHolidays: the time of day is dropped; a period that fails validation is
   * refused with every message; otherwise the days spent, given the national holidays in
   * the period.
   */
  function SpentHolidays(startDate: DateTime, endDate: DateTime): Result<int> {
    var start := Midnight(startDate);
    var end := Midnight(endDate);
    var failing :- FailingChecks(start, end);
    if failing != [] then Err(ValidationFailed(failing))
    else
      var holidays :- HolidaysBetween(start, end);
      Ok(DaysSpent(start.date, end.date, holidays))
  }

  /** The result depends on the calendar dates only, not on the time of day. */
  lemma SpentHolidaysIgnoresTime(startDate: DateTime, endDate: DateTime)
    ensures SpentHolidays(startDate, endDate) == SpentHolidays(Midnight(startDate), Midnight(endDate))
  {
  }

  /** Increasing dates within a range have increasing day numbers within it. */
  lemma AscendingDayNumbers(holidays: seq<Date>, lo: int, hi: int)
    requires StrictlyAscending(holidays)
    requires forall i :: 0 <= i < |holidays| ==> lo <= DayNumber(holidays[i]) <= hi
    ensures IncreasingWithin(DayNumbers(holidays), lo, hi)
  {
  }

  /** The spent-day formula counts the days that are neither Sundays nor listed holidays. */
  lemma DaysSpentCountsWorkDays(startDate: Date, endDate: Date, holidays: seq<Date>)
    requires DayNumber(startDate) <= DayNumber(endDate)
    requires IncreasingWithin(DayNumbers(holidays), DayNumber(startDate), DayNumber(endDate))
    ensures DaysSpent(startDate, endDate, holidays)
      == WorkDays(DayNumber(startDate), DayNumber(endDate), DayNumbers(holidays))
  {
    WorkDaysByCounting(DayNumber(startDate), DayNumber(endDate), DayNumbers(holidays));
    NonSundayCountNumbers(holidays);
  }

  /** The holidays of a period lie between its first and last day, by day number. */
  lemma HolidaysBetweenInDays(startDate: DateTime, endDate: DateTime)
    requires ValidDateTime(startDate) && ValidDateTime(endDate) && HolidaysBetween(startDate, endDate).Ok?
    requires startDate.timeOfDay == 0 && endDate.timeOfDay == 0
    ensures var holidays := HolidaysBetween(startDate, endDate).value;
      forall i :: 0 <= i < |holidays| ==>
        DayNumber(startDate.date) <= DayNumber(holidays[i]) <= DayNumber(endDate.date)
  {
    HolidaysBetweenContents(startDate, endDate);
    var holidays := HolidaysBetween(startDate, endDate).value;
    forall i | 0 <= i < |holidays|
      ensures DayNumber(startDate.date) <= DayNumber(holidays[i]) <= DayNumber(endDate.date)
    {
      assert Within(holidays[i], startDate, endDate);
      TicksOrder(startDate, AtMidnight(holidays[i]));
      TicksOrder(AtMidnight(holidays[i]), endDate);
    }
  }

  /** An accepted period is one that passes the checks and whose holidays can be had. */
  lemma SpentHolidaysOk(startDate: DateTime, endDate: DateTime)
    requires SpentHolidays(startDate, endDate).Ok?
    ensures var start, end := Midnight(startDate), Midnight(endDate);
      && FailingChecks(start, end) == Ok([]) && HolidaysBetween(start, end).Ok?
      && SpentHolidays(startDate, endDate).value
         == DaysSpent(start.date, end.date, HolidaysBetween(start, end).value)
  {
  }

  /**
   * The days spent on a valid period are exactly its days that are neither Sundays nor
   * national holidays; the holidays taken off are the national holidays in the period.
   */
  lemma SpentHolidaysCountsWorkingDays(startDate: DateTime, endDate: DateTime)
    requires ValidDateTime(startDate) && ValidDateTime(endDate)
    requires SpentHolidays(startDate, endDate).Ok?
    ensures var start, end := Midnight(startDate), Midnight(endDate);
      var holidays := HolidaysBetween(start, end).value;
      && DayNumber(start.date) <= DayNumber(end.date)
      && (forall d :: d in holidays <==> IsNationalHoliday(d) && Within(d, start, end))
      && SpentHolidays(startDate, endDate).value
         == WorkDays(DayNumber(start.date), DayNumber(end.date), DayNumbers(holidays))
  {
    var start, end := Midnight(startDate), Midnight(endDate);
    SpentHolidaysOk(startDate, endDate);
    PassingPeriodIsOrdered(start, end);
    HolidaysBetweenContents(start, end);
    HolidaysBetweenInDays(start, end);
    AscendingDayNumbers(HolidaysBetween(start, end).value, DayNumber(start.date), DayNumber(end.date));
    DaysSpentCountsWorkDays(start.date, end.date, HolidaysBetween(start, end).value);
  }

  /** A period that passes every check runs forwards. */
  lemma PassingPeriodIsOrdered(startDate: DateTime, endDate: DateTime)
    requires ValidDateTime(startDate) && ValidDateTime(endDate)
    requires FailingChecks(startDate, endDate) == Ok([])
    ensures Ticks(startDate) <= Ticks(endDate)
    ensures DayNumber(startDate.date) <= DayNumber(endDate.date)
  {
    if Ticks(startDate) > Ticks(endDate) {
      ReversedPeriodThrows(startDate, endDate);
    }
    TicksOrder(startDate, endDate);
  }

  /** How SpentHolidays answers once the checks have run, in the two cases. */
  lemma SpentHolidaysThrows(startDate: DateTime, endDate: DateTime)
    requires FailingChecks(Midnight(startDate), Midnight(endDate)).Err?
    ensures SpentHolidays(startDate, endDate) == Err(FailingChecks(Midnight(startDate), Midnight(endDate)).error)
  {
  }

  lemma SpentHolidaysRefusedBy(startDate: DateTime, endDate: DateTime)
    requires FailingChecks(Midnight(startDate), Midnight(endDate)).Ok?
    requires FailingChecks(Midnight(startDate), Midnight(endDate)).value != []
    ensures SpentHolidays(startDate, endDate)
      == Err(ValidationFailed(FailingChecks(Midnight(startDate), Midnight(endDate)).value))
  {
  }

  lemma SpentHolidaysAccepted(startDate: DateTime, endDate: DateTime)
    requires FailingChecks(Midnight(startDate), Midnight(endDate)) == Ok([])
    ensures var start, end := Midnight(startDate), Midnight(endDate);
      SpentHolidays(startDate, endDate) ==
        match HolidaysBetween(start, end)
        case Err(e) => Err(e)
        case Ok(holidays) => Ok(DaysSpent(start.date, end.date, holidays))
  {
  }

  /**
   * A period running forwards is refused by validation exactly when it is more than 50 days
   * long or has an April 1 after its first day, with the length message before the overlap
   * message. A period that passes is counted exactly when every year it touches is one the
   * provider knows, and otherwise fails with the first unknown year.
   */
  lemma SpentHolidaysRefusal(startDate: DateTime, endDate: DateTime)
    requires ValidDateTime(startDate) && ValidDateTime(endDate)
    requires DayNumber(startDate.date) <= DayNumber(endDate.date)
    ensures var long := DayNumber(endDate.date) - DayNumber(startDate.date) > MAX_PERIOD_LENGTH;
      var overlap := HolidayYear(startDate.date) < HolidayYearJustBefore(Midnight(endDate));
      var r := SpentHolidays(startDate, endDate);
      && (r.Err? && r.error.ValidationFailed? <==> long || overlap)
      && (long || overlap ==>
           r == Err(ValidationFailed((if long then [LENGTH_ERROR] else []) + (if overlap then [OVERLAP_ERROR] else []))))
      && (!long && !overlap ==>
           (r.Ok? <==> forall y :: startDate.date.year <= y <= endDate.date.year ==> y in GOOD_FRIDAYS))
      && (!long && !overlap && r.Err? ==>
           exists y :: startDate.date.year <= y <= endDate.date.year && y !in GOOD_FRIDAYS
             && r.error == UnsupportedYear(y))
  {
    var start, end := Midnight(startDate), Midnight(endDate);
    TicksOrder(start, end);
    FailingChecksMeaning(start, end);
    HolidaysBetweenErrors(start, end);
  }

  /** A reversed period is refused by the first check, before any other message is gathered. */
  lemma SpentHolidaysReversed(startDate: DateTime, endDate: DateTime)
    requires ValidDateTime(startDate) && ValidDateTime(endDate)
    requires DayNumber(startDate.date) > DayNumber(endDate.date)
    ensures SpentHolidays(startDate, endDate) == Err(StartAfterEnd)
  {
    var start, end := Midnight(startDate), Midnight(endDate);
    TicksOrder(end, start);
    ReversedPeriodThrows(start, end);
  }

  // The expected values of the calculator's tests, on February 2023 (Sunday the 12th).

  /** Sunday counts over the first week and a half from a Sunday `n`. */
  lemma SundaysAroundAWeek(n: int)
    requires WeekdayOfNumber(n) == SUNDAY
    ensures CountSundays(n, n) == 1 && CountSundays(n, n + 1) == 1 && CountSundays(n, n + 7) == 2
    ensures CountSundays(n + 1, n + 1) == 0 && CountSundays(n + 1, n + 3) == 0
    ensures CountSundays(n + 1, n + 6) == 0 && CountSundays(n + 1, n + 7) == 1
    ensures CountSundays(n + 1, n + 8) == 1 && CountSundays(n + 4, n + 8) == 1
  {
    WeekAfterSunday(n);
    SkipNonSundays(n + 1, n + 7, n + 8);
    SkipNonSundays(n + 4, n + 7, n + 8);
    SkipNonSundays(n + 1, n + 7, n + 7);
    SkipNonSundays(n + 1, n + 7, n + 6);
    SkipNonSundays(n + 1, n + 4, n + 3);
    SkipNonSundays(n + 1, n + 2, n + 1);
    assert CountSundays(n + 8, n + 8) == 0;
  }

  /** The non-Sunday count of a short list, date by date. */
  lemma NonSundayCountOfThree(a: Date, b: Date, c: Date)
    ensures NonSundayCount([a, b, c])
      == (if DayOfWeek(a) != SUNDAY then 1 else 0) + (if DayOfWeek(b) != SUNDAY then 1 else 0)
         + (if DayOfWeek(c) != SUNDAY then 1 else 0)
  {
    assert [a, b, c][1..] == [b, c];
    assert [b, c][1..] == [c];
    assert [c][1..] == [];
    assert NonSundayCount([c]) == if DayOfWeek(c) != SUNDAY then 1 else 0;
    assert NonSundayCount([b, c]) == (if DayOfWeek(b) != SUNDAY then 1 else 0) + NonSundayCount([c]);
  }

  /** The date `k` days after `d`, for the examples below. */
  function After(d: Date, k: nat): Date
    requires ValidDate(d) && DayNumber(d) + 8 <= MAX_DAY_NUMBER && k <= 8
  {
    AddDays(d, k)
  }

  /**
   * Periods around a Sunday `sunday`, without holidays: Monday alone 1, Sunday alone 0,
   * Monday to Wednesday 3, Monday to Saturday 6, Sunday to Monday 1.
   */
  lemma DaysSpentWithinAWeek(sunday: Date)
    requires ValidDate(sunday) && DayNumber(sunday) + 8 <= MAX_DAY_NUMBER && DayOfWeek(sunday) == SUNDAY
    ensures DaysSpent(After(sunday, 1), After(sunday, 1), []) == 1
    ensures DaysSpent(sunday, sunday, []) == 0
    ensures DaysSpent(After(sunday, 1), After(sunday, 3), []) == 3
    ensures DaysSpent(After(sunday, 1), After(sunday, 6), []) == 6
    ensures DaysSpent(sunday, After(sunday, 1), []) == 1
  {
    SundaysAroundAWeek(DayNumber(sunday));
  }

  /** Without holidays: Monday to the next Monday 7, Sunday to the next Sunday 6. */
  lemma DaysSpentOverAWeek(sunday: Date)
    requires ValidDate(sunday) && DayNumber(sunday) + 8 <= MAX_DAY_NUMBER && DayOfWeek(sunday) == SUNDAY
    ensures DaysSpent(After(sunday, 1), After(sunday, 8), []) == 7
    ensures DaysSpent(sunday, After(sunday, 7), []) == 6
  {
    SundaysAroundAWeek(DayNumber(sunday));
  }

  /** A holiday on the Sunday itself is not taken off a second time. */
  lemma DaysSpentOnASundayHoliday(sunday: Date)
    requires ValidDate(sunday) && DayNumber(sunday) + 8 <= MAX_DAY_NUMBER && DayOfWeek(sunday) == SUNDAY
    ensures DaysSpent(sunday, sunday, [sunday]) == 0
  {
    SundaysAroundAWeek(DayNumber(sunday));
    assert [sunday][1..] == [];
  }

  /** Holidays on Friday, Saturday and Sunday take two days off a Monday-to-Sunday week. */
  lemma DaysSpentWithWeekendHolidays(sunday: Date)
    requires ValidDate(sunday) && DayNumber(sunday) + 8 <= MAX_DAY_NUMBER && DayOfWeek(sunday) == SUNDAY
    ensures DaysSpent(After(sunday, 1), After(sunday, 7), [After(sunday, 5), After(sunday, 6), After(sunday, 7)]) == 4
  {
    var n := DayNumber(sunday);
    SundaysAroundAWeek(n);
    WeekAfterSunday(n);
    NonSundayCountOfThree(After(sunday, 5), After(sunday, 6), After(sunday, 7));
  }

  /** Thursday to the next Monday is four days. */
  lemma DaysSpentThursdayToMonday(sunday: Date)
    requires ValidDate(sunday) && DayNumber(sunday) + 8 <= MAX_DAY_NUMBER && DayOfWeek(sunday) == SUNDAY
    ensures DaysSpent(After(sunday, 4), After(sunday, 8), []) == 4
  {
    SundaysAroundAWeek(DayNumber(sunday));
  }

  /** February 2023 has its 12th on a Sunday, and the days after it are the ones counted on from it. */
  lemma February2023(y: int)
    requires y == 2023
    ensures ValidDate(Date(y, 2, 12)) && DayNumber(Date(y, 2, 12)) + 8 <= MAX_DAY_NUMBER
    ensures DayOfWeek(Date(y, 2, 12)) == SUNDAY
    ensures forall k :: 0 <= k <= 8 ==> After(Date(y, 2, 12), k) == Date(y, 2, 12 + k)
  {
    NewYearWeekday(y);
    DayOfWeekInYear(Date(y, 2, 12));
    DayNumberBounds(Date(y, 2, 12));
    forall k | 0 <= k <= 8 ensures After(Date(y, 2, 12), k) == Date(y, 2, 12 + k) {
      AddDaysInMonth(Date(y, 2, 12), k);
    }
  }

  /** The calculator's examples on the week of Monday 13 February 2023. */
  lemma February2023Examples(y: int)
    requires y == 2023
    ensures DaysSpent(Date(y, 2, 13), Date(y, 2, 13), []) == 1
    ensures DaysSpent(Date(y, 2, 12), Date(y, 2, 12), [Date(y, 2, 12)]) == 0
    ensures DaysSpent(Date(y, 2, 13), Date(y, 2, 19), [Date(y, 2, 17), Date(y, 2, 18), Date(y, 2, 19)]) == 4
    ensures DaysSpent(Date(y, 2, 16), Date(y, 2, 20), []) == 4
  {
    February2023(y);
    var sunday := Date(y, 2, 12);
    assert After(sunday, 1) == Date(y, 2, 13) && After(sunday, 4) == Date(y, 2, 16);
    assert After(sunday, 5) == Date(y, 2, 17) && After(sunday, 6) == Date(y, 2, 18);
    assert After(sunday, 7) == Date(y, 2, 19) && After(sunday, 8) == Date(y, 2, 20);
    DaysSpentWithinAWeek(sunday);
    DaysSpentOnASundayHoliday(sunday);
    DaysSpentWithWeekendHolidays(sunday);
    DaysSpentThursdayToMonday(sunday);
  }

  /** A Friday and the Saturday after it, without holidays, are two days spent. */
  lemma DaysSpentFridayToSaturday(friday: Date, saturday: Date)
    requires DayOfWeek(friday) == FRIDAY && DayNumber(saturday) == DayNumber(friday) + 1
    ensures DaysSpent(friday, saturday, []) == 2
  {
    var n := DayNumber(friday);
    assert CountSundays(n + 1, n + 1) == 0;
  }

  /** 2023-03-31 is a Friday. */
  lemma March31Of2023(y: int)
    requires y == 2023
    ensures DayOfWeek(Date(y, 3, 31)) == FRIDAY
  {
    NewYearWeekday(y);
    DayOfWeekInYear(Date(y, 3, 31));
  }

  /**
   * As written, 2023-03-31 to 2023-04-01 is accepted though its days lie in two holiday
   * years: a Friday and a Saturday without holidays, two days spent.
   */
  lemma AprilFirstEndIsCounted(y: int)
    requires y == 2023
    ensures HolidayYear(Date(y, 3, 31)) != HolidayYear(Date(y, 4, 1))
    ensures SpentHolidays(On2023(y, 3, 31), On2023(y, 4, 1)) == Ok(2)
  {
    AprilFirstEndPasses(y);
    NoHolidaysEndOfMarch2023(y);
    EndOfMarch2023(y);
    March31Of2023(y);
    DaysSpentFridayToSaturday(Date(y, 3, 31), Date(y, 4, 1));
  }

  // The methods.

  /**
   * GetSundayCountInPeriod: steps forward to the first Sunday, answering 0 when the end is
   * reached first; then counts that Sunday and one per further full week.
   */
  method GetSundayCountInPeriod(startDate: Date, endDate: Date) returns (r: int)
    requires ValidDate(startDate) && ValidDate(endDate)
    ensures DayNumber(startDate) <= DayNumber(endDate) ==>
      r == CountSundays(DayNumber(startDate), DayNumber(endDate))
    ensures DayNumber(startDate) > DayNumber(endDate) ==>
      r == if DayOfWeek(startDate) == SUNDAY then (DayNumber(endDate) - DayNumber(startDate)) / 7 + 1 else 0
  {
    var date := startDate;
    while DayOfWeek(date) != SUNDAY
      invariant SundayScan(startDate, date, endDate)
      decreases DayNumber(endDate) - DayNumber(date)
    {
      if DayNumber(date) >= DayNumber(endDate) {
        ScanEndsBeforeSunday(startDate, date, endDate);
        return 0;
      }
      ScanStep(startDate, date, endDate);
      date := AddDays(date, 1);
    }
    ScanFindsSunday(startDate, date, endDate);
    return (DayNumber(endDate) - DayNumber(date)) / 7 + 1;
  }

  /**
   * What the Sunday scan keeps: `date` is a valid date from the start on, no further than
   * the end once it has moved, and no Sunday lies between the start and it.
   */
  predicate SundayScan(startDate: Date, date: Date, endDate: Date) {
    ValidDate(startDate) && ValidDate(endDate) && ValidDate(date)
    && DayNumber(startDate) <= DayNumber(date)
    && (date == startDate || DayNumber(date) <= DayNumber(endDate))
    && forall n :: DayNumber(startDate) <= n < DayNumber(date) ==> WeekdayOfNumber(n) != SUNDAY
  }

  /** Moving past a day that is not a Sunday and not yet the end keeps the scan's invariant. */
  lemma ScanStep(startDate: Date, date: Date, endDate: Date)
    requires SundayScan(startDate, date, endDate)
    requires DayOfWeek(date) != SUNDAY && DayNumber(date) < DayNumber(endDate)
    ensures DayNumber(date) + 1 <= MAX_DAY_NUMBER
    ensures SundayScan(startDate, AddDays(date, 1), endDate)
  {
    DayNumberBounds(endDate);
    var next := AddDays(date, 1);
    forall n | DayNumber(startDate) <= n < DayNumber(next) ensures WeekdayOfNumber(n) != SUNDAY {
      if n == DayNumber(date) {
        assert WeekdayOfNumber(n) == DayOfWeek(date);
      }
    }
  }

  /** Reaching the end on a day that is not a Sunday: the period holds no Sunday. */
  lemma ScanEndsBeforeSunday(startDate: Date, date: Date, endDate: Date)
    requires SundayScan(startDate, date, endDate)
    requires DayOfWeek(date) != SUNDAY && DayNumber(date) >= DayNumber(endDate)
    ensures DayNumber(startDate) <= DayNumber(endDate) ==>
      CountSundays(DayNumber(startDate), DayNumber(endDate)) == 0
    ensures DayNumber(startDate) > DayNumber(endDate) ==> DayOfWeek(startDate) != SUNDAY
  {
    if DayNumber(startDate) <= DayNumber(endDate) {
      assert DayNumber(date) == DayNumber(endDate);
      SkipNonSundays(DayNumber(startDate), DayNumber(endDate) + 1, DayNumber(endDate));
    } else {
      assert date == startDate;
    }
  }

  /** Stopping on a Sunday: it and every seventh day after it up to the end are counted. */
  lemma ScanFindsSunday(startDate: Date, date: Date, endDate: Date)
    requires SundayScan(startDate, date, endDate) && DayOfWeek(date) == SUNDAY
    ensures DayNumber(startDate) <= DayNumber(endDate) ==>
      (DayNumber(endDate) - DayNumber(date)) / 7 + 1 == CountSundays(DayNumber(startDate), DayNumber(endDate))
    ensures DayNumber(startDate) > DayNumber(endDate) ==>
      date == startDate && DayOfWeek(startDate) == SUNDAY
  {
    if DayNumber(startDate) <= DayNumber(endDate) {
      SkipNonSundays(DayNumber(startDate), DayNumber(date), DayNumber(endDate));
      SundaysFromSunday(DayNumber(date), DayNumber(endDate));
    }
  }

  /** The planner, with the holiday provider it consults; the validator has no state of its own. */
  class HolidayPlanner {
    const nationalHolidayProvider: FinnishNationalHolidayProvider

    constructor(provider: FinnishNationalHolidayProvider)
      ensures nationalHolidayProvider == provider
    {
      nationalHolidayProvider := provider;
    }

    /**
     * CalculateSpentHolidays. A period that fails validation is refused before the
     * provider is asked, so the provider's cache is then left as it was.
     */
    method CalculateSpentHolidays(startDate: DateTime, endDate: DateTime) returns (r: Result<int>)
      requires ValidDateTime(startDate) && ValidDateTime(endDate) && nationalHolidayProvider.Valid()
      modifies nationalHolidayProvider
      ensures nationalHolidayProvider.Valid()
      ensures r == SpentHolidays(startDate, endDate)
      ensures FailingChecks(Midnight(startDate), Midnight(endDate)) != Ok([]) ==>
        nationalHolidayProvider.holidaysPerYear == old(nationalHolidayProvider.holidaysPerYear)
    {
      var start := Midnight(startDate);
      var end := Midnight(endDate);
      var validation := ValidateHolidayPeriodCombined(start, end);
      if validation.Err? {
        SpentHolidaysThrows(startDate, endDate);
        return Err(validation.error);
      }
      var validationResult := validation.value;
      if validationResult.status != Success {
        SpentHolidaysRefusedBy(startDate, endDate);
        return Err(ValidationFailed(validationResult.GetErrorMessages()));
      }
      assert FailingChecks(start, end) == Ok([]);
      PassingPeriodIsOrdered(start, end);
      var dayCount := DayNumber(end.date) - DayNumber(start.date) + 1;
      var sundayCount := GetSundayCountInPeriod(start.date, end.date);
      var holidays := nationalHolidayProvider.GetNationalHolidaysBetween(start, end);
      SpentHolidaysAccepted(startDate, endDate);
      if holidays.Err? {
        return Err(holidays.error);
      }
      var nationalHolidays := holidays.value;
      var nonSundayHolidayCount := NonSundayCount(nationalHolidays);
      ghost var spent := DaysSpent(start.date, end.date, nationalHolidays);
      assert SpentHolidays(startDate, endDate) == Ok(spent);
      r := Ok(dayCount - sundayCount - nonSundayHolidayCount);
      assert r.value == spent;
    }
  }
}
