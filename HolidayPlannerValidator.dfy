/**
 * The three checks a vacation period must pass: at most 50 days long, not reversed, and
 * no April 1 strictly inside it (holiday years begin on April 1). The last check is meant
 * to keep a period within one holiday year, but as written it lets a period end on April 1.
 */
module Validator {
  import opened Wrappers
  import opened Dates
  import opened ValidationErrors
  import opened ValidationResults

  const MAX_PERIOD_LENGTH: int := 50
  const HOLIDAY_PERIOD_START_MONTH: int := 4
  const HOLIDAY_PERIOD_START_DAY: int := 1

  const LENGTH_ERROR: string := "Period length is invalid"
  const CHRONOLOGY_ERROR: string := "End date < start date"
  const OVERLAP_ERROR: string := "Input period is on more than one holiday periods"

  /** The message of a check's result: none for success, one for an error. */
  function Listed(error: Option<string>): seq<string> {
    if error.Some? then [error.value] else []
  }

  /** ValidatePeriodLength: an error when the end is more than 50 days after the start. */
  function PeriodLengthError(startDate: DateTime, endDate: DateTime): Option<string> {
    if Ticks(endDate) - Ticks(startDate) <= MAX_PERIOD_LENGTH * TICKS_PER_DAY then None
    else Some(LENGTH_ERROR)
  }

  /** ValidatePeriodChronology: an error when the end comes before the start. */
  function ChronologyError(startDate: DateTime, endDate: DateTime): Option<string> {
    if Ticks(endDate) >= Ticks(startDate) then None else Some(CHRONOLOGY_ERROR)
  }

  /** April 1 of a year, at midnight: the first day of the holiday year `y`. */
  function HolidayPeriodStart(y: int): DateTime {
    AtMidnight(Date(y, HOLIDAY_PERIOD_START_MONTH, HOLIDAY_PERIOD_START_DAY))
  }

  /** The holiday year a date belongs to: the year of the April 1 on or before it. */
  function HolidayYear(d: Date): int {
    if d.month >= HOLIDAY_PERIOD_START_MONTH then d.year else d.year - 1
  }

  /**
   * The holiday year of the last instant before `t`: the holiday year of its date, except
   * at midnight of April 1, whose previous instant is still in the year before.
   */
  function HolidayYearJustBefore(t: DateTime): int {
    if t.timeOfDay == 0 && t.date.month == HOLIDAY_PERIOD_START_MONTH && t.date.day == HOLIDAY_PERIOD_START_DAY
    then t.date.year - 1
    else HolidayYear(t.date)
  }

  /**
   * IsDateBetween. With `endInclusive` false it is the test as the source writes it, strict
   * on both sides; with `endInclusive` true the end date itself counts as inside, which is
   * what the validator's own tests expect of a period ending on April 1.
   */
  predicate IsDateBetween(dateToCheck: DateTime, startDate: DateTime, endDate: DateTime, endInclusive: bool) {
    Ticks(dateToCheck) > Ticks(startDate)
    && (if endInclusive then Ticks(dateToCheck) <= Ticks(endDate) else Ticks(dateToCheck) < Ticks(endDate))
  }

  /** April 1 of the start's year, and of the end's year when that is another one. */
  function HolidayPeriodDates(startDate: DateTime, endDate: DateTime): seq<DateTime> {
    [HolidayPeriodStart(startDate.date.year)]
    + (if endDate.date.year != startDate.date.year then [HolidayPeriodStart(endDate.date.year)] else [])
  }

  /**
   * ValidateHolidayPeridOverlap with the given end test: an error when the years are more
   * than one apart; the exception for a reversed period; otherwise an error when one of
   * the April 1 dates lies inside the period.
   */
  function OverlapErrorWith(startDate: DateTime, endDate: DateTime, endInclusive: bool): Result<Option<string>> {
    if endDate.date.year - startDate.date.year > 1 then Ok(Some(OVERLAP_ERROR))
    else if Ticks(startDate) > Ticks(endDate) then Err(StartAfterEnd)
    else
      var dates := HolidayPeriodDates(startDate, endDate);
      if exists i :: 0 <= i < |dates| && IsDateBetween(dates[i], startDate, endDate, endInclusive)
      then Ok(Some(OVERLAP_ERROR))
      else Ok(None)
  }

  /** The overlap check as the source writes it: April 1 must lie strictly inside. */
  function StrictOverlapError(startDate: DateTime, endDate: DateTime): Result<Option<string>> {
    OverlapErrorWith(startDate, endDate, false)
  }

  /**
   * The overlap check as its tests expect it: an April 1 on the end date counts too. Only
   * the lemmas comparing it with the strict check use it.
   */
  function OverlapError(startDate: DateTime, endDate: DateTime): Result<Option<string>> {
    OverlapErrorWith(startDate, endDate, true)
  }

  /**
   * The messages of the failing checks, in the order length, chronology, overlap; or the
   * exception the overlap check throws.
   */
  function FailingChecks(startDate: DateTime, endDate: DateTime): Result<seq<string>> {
    var overlap :- StrictOverlapError(startDate, endDate);
    Ok(Listed(PeriodLengthError(startDate, endDate)) + Listed(ChronologyError(startDate, endDate))
       + Listed(overlap))
  }

  // Ticks and day numbers.

  /** The instant of a date-time is before midnight of a date exactly when its day is earlier. */
  lemma BeforeMidnight(t: DateTime, d: Date)
    requires ValidDateTime(t)
    ensures Ticks(t) < Ticks(AtMidnight(d)) <==> DayNumber(t.date) < DayNumber(d)
    ensures Ticks(AtMidnight(d)) <= Ticks(t) <==> DayNumber(d) <= DayNumber(t.date)
  {
    TicksOrder(AtMidnight(d), t);
  }

  /** April 1 of `y` comes after a date exactly when the date's holiday year is before `y`. */
  lemma AprilFirstOrder(d: Date, y: int)
    requires ValidDate(d) && 1 <= y <= 9999
    ensures DayNumber(d) < DayNumber(Date(y, 4, 1)) <==> HolidayYear(d) < y
  {
    DayNumberOrder(d, Date(y, 4, 1));
  }

  // What the checks mean.

  /** On dates, the length check passes exactly for periods of at most 50 days; always for reversed ones. */
  lemma PeriodLengthInDays(startDate: DateTime, endDate: DateTime)
    requires ValidDateTime(startDate) && ValidDateTime(endDate)
    requires startDate.timeOfDay == 0 && endDate.timeOfDay == 0
    ensures PeriodLengthError(startDate, endDate).None?
      <==> DayNumber(endDate.date) - DayNumber(startDate.date) <= MAX_PERIOD_LENGTH
    ensures Ticks(startDate) > Ticks(endDate) ==> PeriodLengthError(startDate, endDate).None?
  {
    assert Ticks(endDate) - Ticks(startDate)
      == (DayNumber(endDate.date) - DayNumber(startDate.date)) * TICKS_PER_DAY;
  }

  /** The chronology check passes exactly when the end date is not before the start date. */
  lemma ChronologyInDays(startDate: DateTime, endDate: DateTime)
    requires ValidDateTime(startDate) && ValidDateTime(endDate)
    ensures ChronologyError(startDate, endDate).None? ==>
      DayNumber(startDate.date) <= DayNumber(endDate.date)
    ensures DayNumber(startDate.date) < DayNumber(endDate.date) ==>
      ChronologyError(startDate, endDate).None?
  {
    TicksOrder(startDate, endDate);
  }

  /**
   * For a period that is not reversed and spans at most two calendar years, the overlap
   * check errs exactly when April 1 of some year lies inside the period.
   */
  lemma OverlapMeansAprilFirstInside(startDate: DateTime, endDate: DateTime, endInclusive: bool)
    requires ValidDateTime(startDate) && ValidDateTime(endDate)
    requires Ticks(startDate) <= Ticks(endDate) && endDate.date.year - startDate.date.year <= 1
    ensures OverlapErrorWith(startDate, endDate, endInclusive).Ok?
    ensures OverlapErrorWith(startDate, endDate, endInclusive).value.Some? <==>
      exists y :: 1 <= y <= 9999 && IsDateBetween(HolidayPeriodStart(y), startDate, endDate, endInclusive)
  {
    var dates := HolidayPeriodDates(startDate, endDate);
    forall y | 1 <= y <= 9999 && IsDateBetween(HolidayPeriodStart(y), startDate, endDate, endInclusive)
      ensures exists i :: 0 <= i < |dates| && IsDateBetween(dates[i], startDate, endDate, endInclusive)
    {
      var a := Date(y, 4, 1);
      BeforeMidnight(startDate, a);
      BeforeMidnight(endDate, a);
      YearOrder(startDate.date, a);
      YearOrder(a, endDate.date);
      if y == startDate.date.year {
        assert dates[0] == HolidayPeriodStart(y);
      } else {
        assert dates[1] == HolidayPeriodStart(y);
      }
    }
    if exists i :: 0 <= i < |dates| && IsDateBetween(dates[i], startDate, endDate, endInclusive) {
      var i :| 0 <= i < |dates| && IsDateBetween(dates[i], startDate, endDate, endInclusive);
      var y := if i == 0 then startDate.date.year else endDate.date.year;
      assert dates[i] == HolidayPeriodStart(y);
    }
  }

  /** An April 1 lies in (start, end] exactly when its day number does. */
  lemma BetweenInDays(startDate: DateTime, endDate: DateTime, y: int)
    requires ValidDateTime(startDate) && ValidDateTime(endDate)
    ensures IsDateBetween(HolidayPeriodStart(y), startDate, endDate, true) <==>
      DayNumber(startDate.date) < DayNumber(Date(y, 4, 1)) <= DayNumber(endDate.date)
  {
    BeforeMidnight(startDate, Date(y, 4, 1));
    BeforeMidnight(endDate, Date(y, 4, 1));
  }

  /**
   * The inclusive overlap check errs exactly when the period's first and last days lie in
   * different holiday years, and never throws for a period that is not reversed.
   */
  lemma OverlapMeansTwoHolidayYears(startDate: DateTime, endDate: DateTime)
    requires ValidDateTime(startDate) && ValidDateTime(endDate)
    requires Ticks(startDate) <= Ticks(endDate)
    ensures OverlapError(startDate, endDate).Ok?
    ensures OverlapError(startDate, endDate).value.Some? <==>
      HolidayYear(startDate.date) != HolidayYear(endDate.date)
  {
    var s, e := startDate.date, endDate.date;
    if e.year - s.year <= 1 {
      OverlapMeansAprilFirstInside(startDate, endDate, true);
      forall y | 1 <= y <= 9999
        ensures IsDateBetween(HolidayPeriodStart(y), startDate, endDate, true) <==>
          HolidayYear(s) < y <= HolidayYear(e)
      {
        BetweenInDays(startDate, endDate, y);
        AprilFirstOrder(s, y);
        AprilFirstOrder(e, y);
      }
      if HolidayYear(s) != HolidayYear(e) {
        HolidayYearMonotone(startDate, endDate);
        var y := HolidayYear(s) + 1;
        assert IsDateBetween(HolidayPeriodStart(y), startDate, endDate, true);
      }
    }
  }

  /** April 1 of `y` comes before an instant exactly when the instant just before it is in holiday year `y` or later. */
  lemma StrictlyBeforeEnd(endDate: DateTime, y: int)
    requires ValidDateTime(endDate) && 1 <= y <= 9999
    ensures Ticks(HolidayPeriodStart(y)) < Ticks(endDate) <==> y <= HolidayYearJustBefore(endDate)
  {
    var a, e := Date(y, 4, 1), endDate.date;
    TicksOrder(endDate, AtMidnight(a));
    AprilFirstOrder(e, y);
    DayNumberOrder(e, a);
  }

  /**
   * The overlap check as written errs exactly when the period's first day and the instant
   * just before its end lie in different holiday years, and never throws for a period
   * that is not reversed.
   */
  lemma OverlapMeansAprilFirstBeforeEnd(startDate: DateTime, endDate: DateTime)
    requires ValidDateTime(startDate) && ValidDateTime(endDate)
    requires Ticks(startDate) <= Ticks(endDate)
    ensures StrictOverlapError(startDate, endDate).Ok?
    ensures StrictOverlapError(startDate, endDate).value.Some? <==>
      HolidayYear(startDate.date) < HolidayYearJustBefore(endDate)
  {
    var s, e := startDate.date, endDate.date;
    if e.year - s.year <= 1 {
      OverlapMeansAprilFirstInside(startDate, endDate, false);
      forall y | 1 <= y <= 9999
        ensures IsDateBetween(HolidayPeriodStart(y), startDate, endDate, false) <==>
          HolidayYear(s) < y <= HolidayYearJustBefore(endDate)
      {
        BeforeMidnight(startDate, Date(y, 4, 1));
        AprilFirstOrder(s, y);
        StrictlyBeforeEnd(endDate, y);
      }
      if HolidayYear(s) < HolidayYearJustBefore(endDate) {
        var y := HolidayYearJustBefore(endDate);
        assert IsDateBetween(HolidayPeriodStart(y), startDate, endDate, false);
      }
    }
  }

  /** A later date is in the same or a later holiday year. */
  lemma HolidayYearMonotone(startDate: DateTime, endDate: DateTime)
    requires ValidDateTime(startDate) && ValidDateTime(endDate)
    requires Ticks(startDate) <= Ticks(endDate)
    ensures HolidayYear(startDate.date) <= HolidayYear(endDate.date)
  {
    var s, e := startDate.date, endDate.date;
    TicksOrder(startDate, endDate);
    if HolidayYear(e) < HolidayYear(s) {
      AprilFirstOrder(e, HolidayYear(s));
      AprilFirstOrder(s, HolidayYear(s));
    }
  }

  /**
   * The strict end test of IsDateBetween (HolidayPlannerValidator.cs, line 76) misses a
   * period that ends on April 1: the last day of one holiday year and the first day of the
   * next are reported as one holiday year. The inclusive test reports them.
   */
  lemma StrictEndMissesAprilFirst(y: int)
    requires 1 <= y <= 9999
    ensures HolidayYear(Date(y, 3, 31)) != HolidayYear(Date(y, 4, 1))
    ensures OverlapErrorWith(AtMidnight(Date(y, 3, 31)), AtMidnight(Date(y, 4, 1)), false) == Ok(None)
    ensures OverlapError(AtMidnight(Date(y, 3, 31)), AtMidnight(Date(y, 4, 1))) == Ok(Some(OVERLAP_ERROR))
  {
    var s, e := AtMidnight(Date(y, 3, 31)), AtMidnight(Date(y, 4, 1));
    assert DayNumber(Date(y, 3, 31)) + 1 == DayNumber(Date(y, 4, 1));
    assert HolidayPeriodDates(s, e) == [e];
    assert IsDateBetween(HolidayPeriodDates(s, e)[0], s, e, true);
  }

  /**
   * A reversed period is never reported: its years never differ by more than one, so the
   * overlap check throws before any result is returned.
   */
  lemma ReversedPeriodThrows(startDate: DateTime, endDate: DateTime)
    requires ValidDateTime(startDate) && ValidDateTime(endDate)
    requires Ticks(startDate) > Ticks(endDate)
    ensures FailingChecks(startDate, endDate) == Err(StartAfterEnd)
  {
    TicksOrder(startDate, endDate);
    YearOrder(endDate.date, startDate.date);
  }

  /**
   * For a period that is not reversed the checks never throw, the chronology error never
   * appears, and the length and overlap errors appear exactly when those rules are broken,
   * in that order.
   */
  lemma FailingChecksMeaning(startDate: DateTime, endDate: DateTime)
    requires ValidDateTime(startDate) && ValidDateTime(endDate)
    requires Ticks(startDate) <= Ticks(endDate)
    ensures FailingChecks(startDate, endDate).Ok?
    ensures var failing := FailingChecks(startDate, endDate).value;
      && CHRONOLOGY_ERROR !in failing
      && (LENGTH_ERROR in failing <==> Ticks(endDate) - Ticks(startDate) > MAX_PERIOD_LENGTH * TICKS_PER_DAY)
      && (OVERLAP_ERROR in failing <==> HolidayYear(startDate.date) < HolidayYearJustBefore(endDate))
      && (failing == [] <==>
           Ticks(endDate) - Ticks(startDate) <= MAX_PERIOD_LENGTH * TICKS_PER_DAY
           && HolidayYearJustBefore(endDate) <= HolidayYear(startDate.date))
      && failing
         == (if Ticks(endDate) - Ticks(startDate) > MAX_PERIOD_LENGTH * TICKS_PER_DAY then [LENGTH_ERROR] else [])
            + (if HolidayYear(startDate.date) < HolidayYearJustBefore(endDate) then [OVERLAP_ERROR] else [])
  {
    OverlapMeansAprilFirstBeforeEnd(startDate, endDate);
  }

  /** Midnight of a date of 2023. */
  function On2023(y: int, m: int, d: int): DateTime
    requires y == 2023
  {
    AtMidnight(Date(y, m, d))
  }

  /** 2023-02-15 to the next day: no errors. */
  lemma OneDayHasNoErrors(y: int)
    requires y == 2023
    ensures FailingChecks(On2023(y, 2, 15), On2023(y, 2, 16)) == Ok([])
  {
    var s, e := On2023(y, 2, 15), On2023(y, 2, 16);
    assert DayNumber(e.date) - DayNumber(s.date) == 1;
    PeriodLengthInDays(s, e);
    OverlapMeansAprilFirstBeforeEnd(s, e);
    assert FailingChecks(s, e).value == Listed(None) + Listed(None) + Listed(None) == [];
  }

  /** 2023-05-15 plus 100 days (2023-08-23): the length error only. */
  lemma LongSummerPeriodHasOneError(y: int)
    requires y == 2023
    ensures FailingChecks(On2023(y, 5, 15), On2023(y, 8, 23)) == Ok([LENGTH_ERROR])
  {
    var s, e := On2023(y, 5, 15), On2023(y, 8, 23);
    assert DayNumber(e.date) - DayNumber(s.date) == 100;
    PeriodLengthInDays(s, e);
    OverlapMeansAprilFirstBeforeEnd(s, e);
    assert FailingChecks(s, e).value == Listed(Some(LENGTH_ERROR)) + Listed(None) + Listed(None)
      == [LENGTH_ERROR];
  }

  /**
   * 2023-03-31 to 2023-04-01 spans two holiday years, yet passes every check, because
   * the April 1 is the period's end and not strictly inside it.
   */
  lemma AprilFirstEndPasses(y: int)
    requires y == 2023
    ensures HolidayYear(On2023(y, 3, 31).date) != HolidayYear(On2023(y, 4, 1).date)
    ensures FailingChecks(On2023(y, 3, 31), On2023(y, 4, 1)) == Ok([])
  {
    var s, e := On2023(y, 3, 31), On2023(y, 4, 1);
    assert DayNumber(e.date) - DayNumber(s.date) == 1;
    PeriodLengthInDays(s, e);
    OverlapMeansAprilFirstBeforeEnd(s, e);
    assert FailingChecks(s, e).value == Listed(None) + Listed(None) + Listed(None) == [];
  }

  /**
   * 2022-04-01 plus 365 days (2023-04-01) spans two holiday years, yet only the length
   * check fails.
   */
  lemma YearToAprilFirstHasOneError(y: int)
    requires y == 2023
    ensures FailingChecks(AtMidnight(Date(y - 1, 4, 1)), On2023(y, 4, 1)) == Ok([LENGTH_ERROR])
  {
    var s, e := AtMidnight(Date(y - 1, 4, 1)), On2023(y, 4, 1);
    assert DayNumber(e.date) - DayNumber(s.date) == 365;
    PeriodLengthInDays(s, e);
    OverlapMeansAprilFirstBeforeEnd(s, e);
    assert FailingChecks(s, e).value == Listed(Some(LENGTH_ERROR)) + Listed(None) + Listed(None)
      == [LENGTH_ERROR];
  }

  /** 2023-02-15 plus 100 days (2023-05-26): the length and the overlap errors. */
  lemma LongSpringPeriodHasTwoErrors(y: int)
    requires y == 2023
    ensures FailingChecks(On2023(y, 2, 15), On2023(y, 5, 26)) == Ok([LENGTH_ERROR, OVERLAP_ERROR])
  {
    var s, e := On2023(y, 2, 15), On2023(y, 5, 26);
    assert DayNumber(e.date) - DayNumber(s.date) == 100;
    PeriodLengthInDays(s, e);
    OverlapMeansAprilFirstBeforeEnd(s, e);
    assert FailingChecks(s, e).value
      == Listed(Some(LENGTH_ERROR)) + Listed(None) + Listed(Some(OVERLAP_ERROR))
      == [LENGTH_ERROR, OVERLAP_ERROR];
  }

  // The validator's methods.

  /** `new ValidationResult()` for a passed check, `new ValidationResult(message)` for a failed one. */
  method NewCheckResult(error: Option<string>) returns (r: ValidationResult)
    ensures fresh(r) && r.Valid() && r.GetErrorMessages() == Listed(error)
    ensures r.status == Error <==> error.Some?
  {
    r := new ValidationResult();
    if error.Some? {
      var added := r.AddErrorMessages([Some(error.value)]);
    }
  }

  /**
   * ValidateHolidayPeriod: runs all three checks and returns the results of the failing
   * ones, in order; the overlap check's exception propagates. The overlap check is the
   * strict one of the source (see StrictEndMissesAprilFirst).
   */
  method ValidateHolidayPeriod(startDate: DateTime, endDate: DateTime) returns (r: Result<seq<ValidationResult>>)
    ensures r.Err? <==> FailingChecks(startDate, endDate).Err?
    ensures r.Err? ==> r.error == FailingChecks(startDate, endDate).error
    ensures r.Ok? ==> |r.value| == |FailingChecks(startDate, endDate).value|
    ensures r.Ok? ==> forall i :: 0 <= i < |r.value| ==>
      fresh(r.value[i]) && r.value[i].Valid() && r.value[i].status == Error
      && r.value[i].GetErrorMessages() == [FailingChecks(startDate, endDate).value[i]]
  {
    var result: seq<ValidationResult> := [];
    var periodLength := NewCheckResult(PeriodLengthError(startDate, endDate));
    if periodLength.status == Error {
      result := result + [periodLength];
    }
    var chronology := NewCheckResult(ChronologyError(startDate, endDate));
    if chronology.status == Error {
      result := result + [chronology];
    }
    var overlapError :- StrictOverlapError(startDate, endDate);
    var overlap := NewCheckResult(overlapError);
    if overlap.status == Error {
      result := result + [overlap];
    }
    return Ok(result);
  }

  /**
   * The single ValidationResult the planner expects: the errors of every failing check,
   * in order, gathered into one result.
   */
  method ValidateHolidayPeriodCombined(startDate: DateTime, endDate: DateTime) returns (r: Result<ValidationResult>)
    ensures r.Err? <==> FailingChecks(startDate, endDate).Err?
    ensures r.Err? ==> r.error == FailingChecks(startDate, endDate).error
    ensures r.Ok? ==> fresh(r.value) && r.value.Valid()
    ensures r.Ok? ==> r.value.GetErrorMessages() == FailingChecks(startDate, endDate).value
    ensures r.Ok? ==> (r.value.status == Success <==> FailingChecks(startDate, endDate).value == [])
  {
    var results :- ValidateHolidayPeriod(startDate, endDate);
    var combined := CombineResults(results, FailingChecks(startDate, endDate).value);
    return Ok(combined);
  }

  /**
   * Gathers the errors of single-error results, in order, into one new result: its
   * messages are the results' messages one after another.
   */
  method CombineResults(results: seq<ValidationResult>, ghost messages: seq<string>) returns (combined: ValidationResult)
    requires |results| == |messages|
    requires forall i :: 0 <= i < |results| ==> MessagesOf(results[i].errors) == [messages[i]]
    ensures fresh(combined) && combined.Valid()
    ensures combined.GetErrorMessages() == messages
    ensures combined.status == Success <==> messages == []
  {
    combined := new ValidationResult();
    var i := 0;
    while i < |results|
      invariant 0 <= i <= |results|
      invariant fresh(combined) && combined.Valid()
      invariant MessagesOf(combined.errors) == messages[..i]
      modifies combined
    {
      ghost var before := combined.errors;
      var added := combined.AddErrors(Somes(results[i].errors));
      CombineStep(before, results[i].errors, messages, i);
      i := i + 1;
    }
    assert messages[..i] == messages;
  }

  /** Adding the next result's errors extends the gathered messages by its message. */
  lemma CombineStep(before: seq<ValidationError>, added: seq<ValidationError>, messages: seq<string>, i: int)
    requires 0 <= i < |messages|
    requires MessagesOf(before) == messages[..i] && MessagesOf(added) == [messages[i]]
    ensures MessagesOf(before + added) == messages[..i + 1]
  {
    MessagesOfAppend(before, added);
    TakeOneMore(messages, i);
  }

  /** A prefix one longer is the prefix with the next element after it. */
  lemma TakeOneMore<T>(s: seq<T>, i: int)
    requires 0 <= i < |s|
    ensures s[..i + 1] == s[..i] + [s[i]]
  {
  }
}
