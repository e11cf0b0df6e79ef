# Holiday planner: a verified model

The holiday planner computes how many vacation days a Finnish employee spends on a vacation
from a start date to an end date, both included. It counts the days of the period, then
subtracts the Sundays and the national holidays that do not fall on a Sunday. First it
validates the period, which must:

- be at most 50 days long;
- not end before it starts;
- have no April 1 strictly between its start and its end (holiday years begin on April 1).
  The check is meant to keep a period within one holiday year, but as written it lets a
  period end on April 1.

A period that fails validation is refused. The national holidays come from a provider. It
builds, sorts and caches each year's fifteen Finnish holidays:

- seven on fixed dates;
- five tied to a table of Good Fridays;
- Midsummer Eve and Midsummer Day, found by scanning forward from June 19;
- All Saints' Day, found by scanning forward from October 31.

The provider then keeps the ones inside a period. Two small supporting classes and a parser
come with the planner:

- a validation result that collects error messages;
- a validation error that wraps one message;
- a parser that splits a text such as `1.6.2023 - 14.6.2023` into two dates.

The model is organised as follows:

- Dates: `Date` and `DateTime` values in the .NET calendar of years 1 to 9999.
  - Dates are counted by day number since 0001-01-01.
  - The weekday follows .NET's numbering: Sunday is 0.
  - Times of day are kept in ticks, at 864 000 000 000 ticks per day.
- `DateLists`: the list operations the provider relies on.
  - `SortByDate` models `List.Sort` as an insertion sort.
  - `InRange` models the LINQ filter on both ends of the period.
- `FinnishHolidays`: the provider.
  - Its pure specification is `HolidaysForYear` and `HolidaysBetween`.
  - The class `FinnishNationalHolidayProvider` keeps the year cache as a `map` field. Its
    methods run the source's loops.
- `ValidationErrors`, `ValidationResults`: the error value and the result class. The result
  class holds a growing error list and a status.
- `Validator`: the three checks as functions; `ValidateHolidayPeriod` builds the result
  objects.
- `Planner`: the day counting (`DaysSpent`, `SpentHolidays`) and the class `HolidayPlanner`.
- `RangeParser`: how `String.Split` splits the input with `RemoveEmptyEntries |
  TrimEntries`, and the class `DateRangeParser`.
- `Wrappers`: the exceptions the source throws, as `Result`/`Outcome` values. A .NET `null`
  is `Option.None`.

Choices made in the model:

- Every exception the source throws is an `Err` value.
- A precondition stands only for what the .NET types already guarantee: a valid `DateTime`
  and a year between 1 and 9999.
- `DateTime.TryParse` and `DateTime.TryParseExact` belong to the .NET runtime. Each is a
  function parameter of the parser. The format provider and the date styles are folded
  into these functions.

## Model

| member | source | states |
|---|---|---|
| Dates.Midnight | HolidayPlanner/HolidayPlanner.cs:37-38 | `DateTime.Date` keeps the date and sets the time of day to zero |
| Dates.AddDays | visma-sign-rekry/FinnishNationalHolidayProvider.cs:111-114 | `AddDays(k)` gives a valid date exactly k day numbers later |
| Dates.DayNumberOrder | visma-sign-rekry/FinnishNationalHolidayProvider.cs:101 | comparing day numbers is the same as comparing year, then month, then day (the order `Sort` uses); equal day numbers mean the same date |
| Dates.TicksOrder | visma-sign-rekry/FinnishNationalHolidayProvider.cs:54 | comparing two DateTimes compares their dates, then their times of day |
| Dates.FirstOnOrAfter | visma-sign-rekry/FinnishNationalHolidayProvider.cs:124-127 | the first date on or after d with weekday w: it has that weekday, lies within six days of d, and no day before it does |
| DateLists.SortByDate | visma-sign-rekry/FinnishNationalHolidayProvider.cs:101 | `List.Sort` returns an ascending permutation of its input |
| DateLists.SortedMembers | visma-sign-rekry/FinnishNationalHolidayProvider.cs:101 | sorting keeps exactly the same dates |
| DateLists.AscendingPermutationUnique | visma-sign-rekry/FinnishNationalHolidayProvider.cs:101 | two ascending permutations of the same valid dates are equal, so the sorted list is unique |
| DateLists.InRangeMembers | visma-sign-rekry/FinnishNationalHolidayProvider.cs:53-54 | a date is kept by the filter if and only if it is in the list and lies between start and end, both included |
| DateLists.InRangeKeepsOrder | visma-sign-rekry/FinnishNationalHolidayProvider.cs:53-54 | filtering a strictly ascending list of one year keeps it valid, in that year and strictly ascending |
| DateLists.InRangeAppend | visma-sign-rekry/FinnishNationalHolidayProvider.cs:51-56 | filtering a concatenation is concatenating the filtered parts |
| DateLists.GapOfAscending | visma-sign-rekry/FinnishNationalHolidayProvider.cs:53-54 | a range lying strictly between two neighbouring dates of an ascending list keeps none of them |
| DateLists.StretchOfAscending | visma-sign-rekry/FinnishNationalHolidayProvider.cs:53-54 | in a strictly ascending list, the filter from its i-th to its (j-1)-th element keeps exactly the slice i..j |
| FinnishHolidays.GoodFriday | visma-sign-rekry/FinnishNationalHolidayProvider.cs:24-31 | each table entry is a Friday of its year between March 29 and April 15 |
| FinnishHolidays.GetEasterRelatedHolidays | visma-sign-rekry/FinnishNationalHolidayProvider.cs:105-117 | an error exactly for a year missing from the table, naming that year. Otherwise Good Friday plus the days 2, 3, 41 and 51 days after it, all in the same year, falling on Sunday, Monday, Thursday and Sunday |
| FinnishHolidays.MidsummerEve | visma-sign-rekry/FinnishNationalHolidayProvider.cs:121-126 | a valid Friday within six days after June 19 |
| FinnishHolidays.MidsummerRelatedHolidays | visma-sign-rekry/FinnishNationalHolidayProvider.cs:127 | Midsummer Eve and the day after it |
| FinnishHolidays.MidsummerEveIsTheFridayInWindow | visma-sign-rekry/FinnishNationalHolidayProvider.cs:121-127 | Midsummer Eve is a June date from the 19th to the 25th, and it is the only Friday in that window |
| FinnishHolidays.AllSaintsDay | visma-sign-rekry/FinnishNationalHolidayProvider.cs:132-137 | a valid Saturday within six days after October 31 |
| FinnishHolidays.AllSaintsDayIsTheSaturdayInWindow | visma-sign-rekry/FinnishNationalHolidayProvider.cs:132-137 | All Saints' Day is October 31 when that is a Saturday, otherwise the Saturday among November 1 to 6; it lies in the same year |
| FinnishHolidays.FixedHolidaysInYear | visma-sign-rekry/FinnishNationalHolidayProvider.cs:86-95 | the seven fixed holidays are valid dates of the year |
| FinnishHolidays.LaterHolidaysFacts | visma-sign-rekry/FinnishNationalHolidayProvider.cs:98-99 | Midsummer Eve, Midsummer Day and All Saints' Day are valid dates of the year, in order, inside their windows |
| FinnishHolidays.InCalendarOrderFacts | visma-sign-rekry/FinnishNationalHolidayProvider.cs:84-103 | the fifteen holidays of a supported year, arranged by season, are valid dates of that year and strictly ascending (no two coincide) |
| FinnishHolidays.SortedIsCalendarOrder | visma-sign-rekry/FinnishNationalHolidayProvider.cs:97-101 | sorting the list as built (fixed, Easter, Midsummer, All Saints') gives that calendar order |
| FinnishHolidays.SortedHolidaysForYear | visma-sign-rekry/FinnishNationalHolidayProvider.cs:84-103 | the year's holiday list is the sorted list as built |
| FinnishHolidays.HolidaysForYearFacts | visma-sign-rekry/FinnishNationalHolidayProvider.cs:84-108 | an error exactly for an unsupported year, naming that year; otherwise fifteen valid dates of the year, strictly ascending |
| FinnishHolidays.YearsBetween | visma-sign-rekry/FinnishNationalHolidayProvider.cs:61-71 | the consecutive years from the first through the last; just the first when the last is smaller |
| FinnishHolidays.YearsBetweenMembers | visma-sign-rekry/FinnishNationalHolidayProvider.cs:61-71 | a year is listed if and only if it lies from the first year through the last (or is the first) |
| FinnishHolidays.CollectErrors | visma-sign-rekry/FinnishNationalHolidayProvider.cs:51-56 | the per-year loop succeeds if and only if every year's list does; a failure is the exception of one of its years |
| FinnishHolidays.CollectMembers | visma-sign-rekry/FinnishNationalHolidayProvider.cs:51-56 | the loop's result holds exactly the dates of the listed years' lists that lie in the period |
| FinnishHolidays.CollectOrdered | visma-sign-rekry/FinnishNationalHolidayProvider.cs:51-56 | over increasing years with ascending yearly lists, the result is strictly ascending |
| FinnishHolidays.HolidaysBetweenErrors | visma-sign-rekry/FinnishNationalHolidayProvider.cs:44-58 | a start after the end throws; otherwise the call succeeds if and only if every year from the start's through the end's has a Good Friday, and else names a missing year |
| FinnishHolidays.HolidaysBetweenContents | visma-sign-rekry/FinnishNationalHolidayProvider.cs:44-58 | a successful result is strictly ascending and holds exactly the national holidays lying from start to end, both included |
| FinnishHolidays.HolidaysWithinOneYear | visma-sign-rekry/FinnishNationalHolidayProvider.cs:44-58 | within one supported year the result is that year's sorted list filtered to the period |
| FinnishHolidays.WholeYearHolidays | HolidayPlannerTests/FinnishNationalHolidayProviderTests.cs:136-144 | January 1 to December 31 of a supported year gives its fifteen holidays |
| FinnishHolidays.EasterWeekendHolidays | visma-sign-rekry/FinnishNationalHolidayProvider.cs:110-112 | Good Friday to Easter Monday of a supported year holds exactly Good Friday, Easter Sunday and Easter Monday |
| FinnishHolidays.Easter2023 | HolidayPlannerTests/FinnishNationalHolidayProviderTests.cs:54-63 | 2023-04-07 to 2023-04-10 holds 2023-04-07, 2023-04-09 and 2023-04-10 |
| FinnishHolidays.EndOfMarch2023 | visma-sign-rekry/FinnishNationalHolidayProvider.cs:24-31 | 2023 is in the table with Good Friday on April 7, and 2023-03-31 and 2023-04-01 lie after January 6 and before it |
| FinnishHolidays.NoHolidaysBeforeEaster | visma-sign-rekry/FinnishNationalHolidayProvider.cs:84-103 | a range after Epiphany and before Good Friday holds none of the year's holidays |
| FinnishHolidays.NoHolidaysEndOfMarch2023 | visma-sign-rekry/FinnishNationalHolidayProvider.cs:44-58 | 2023-03-31 to 2023-04-01 holds no national holiday |
| FinnishHolidays.CacheLookup | visma-sign-rekry/FinnishNationalHolidayProvider.cs:75-76 | a year found in a faithful cache has the computed list |
| FinnishHolidays.CacheStore | visma-sign-rekry/FinnishNationalHolidayProvider.cs:79-80 | storing a year's computed list keeps the cache faithful |
| FinnishHolidays.FinnishNationalHolidayProvider.constructor | visma-sign-rekry/FinnishNationalHolidayProvider.cs:19 | the provider starts with an empty cache |
| FinnishHolidays.FinnishNationalHolidayProvider.GetNationalHolidaysBetween | visma-sign-rekry/FinnishNationalHolidayProvider.cs:44-58 | the year-by-year loop returns `HolidaysBetween` (result or exception); the cache stays faithful and keeps every entry it had |
| FinnishHolidays.FinnishNationalHolidayProvider.GetYearsBetween | visma-sign-rekry/FinnishNationalHolidayProvider.cs:61-71 | the counting loop returns `YearsBetween` of the two years |
| FinnishHolidays.FinnishNationalHolidayProvider.GetHolidaysForYear | visma-sign-rekry/FinnishNationalHolidayProvider.cs:73-82 | returns the year's list. A cached year leaves the cache as it was; a new supported year is added to the cache; an unsupported year throws and leaves the cache as it was |
| FinnishHolidays.FinnishNationalHolidayProvider.CalculateHolidaysForYear | visma-sign-rekry/FinnishNationalHolidayProvider.cs:84-103 | building, appending and sorting gives the year's holiday list, or the unsupported-year exception |
| FinnishHolidays.FinnishNationalHolidayProvider.GetMidsummerRelatedHolidays | visma-sign-rekry/FinnishNationalHolidayProvider.cs:119-128 | the scan from June 19 stops at Midsummer Eve and returns it with the next day |
| FinnishHolidays.FinnishNationalHolidayProvider.GetAllSaintsDay | visma-sign-rekry/FinnishNationalHolidayProvider.cs:130-138 | the scan from October 31 stops at All Saints' Day |
| ValidationErrors.NewValidationError | HolidayPlanner/ValidationError.cs:20-23 | a null message throws; otherwise the error's `ToString` is the message |
| ValidationErrors.MessageRoundTrip | HolidayPlanner/ValidationError.cs:20-28 | an error built from a message gives that message back |
| ValidationErrors.MessagesOf | HolidayPlanner/ValidationResult.cs:100-101 | one message per error, in order, each the error's `ToString` |
| ValidationErrors.ErrorsFor | HolidayPlanner/ValidationResult.cs:75 | one error per message, in order, each built from its message |
| ValidationErrors.ErrorsForRoundTrip | HolidayPlanner/ValidationResult.cs:75 | the messages of the errors built from messages are those messages |
| ValidationResults.ValidationResult.constructor | HolidayPlanner/ValidationResult.cs:38-40 | a new result is Success with no errors |
| ValidationResults.ValidationResult.GetErrorMessages | HolidayPlanner/ValidationResult.cs:100-101 | one message per error, in order, each the error's `ToString` |
| ValidationResults.ValidationResult.AddErrors | HolidayPlanner/ValidationResult.cs:85-94 | an array holding null throws and changes nothing. Otherwise the items are appended; the status becomes Error when any were added, and an Error status stays Error |
| ValidationResults.ValidationResult.AddErrorMessages | HolidayPlanner/ValidationResult.cs:70-76 | a null message throws and changes nothing; otherwise the messages are appended in order, and the status follows as for `AddErrors` |
| ValidationResults.NewWithMessages | HolidayPlanner/ValidationResult.cs:47-50 | the message constructor holds exactly the given messages and is Error exactly when there are any; a null message throws |
| ValidationResults.NewWithErrors | HolidayPlanner/ValidationResult.cs:57-60 | the error constructor holds exactly the given errors and is Error exactly when there are any; a null item throws |
| ValidationResults.ThreeThenTwo | HolidayPlannerTests/ValidationResultTests.cs:103-111 | adding three messages and then two more gives five messages in order, with status Error |
| ValidationResults.NullItemRefused | HolidayPlanner/ValidationResult.cs:72-73 | adding an array holding null throws and leaves the result empty and Success |
| Validator.PeriodLengthInDays | HolidayPlanner/HolidayPlannerValidator.cs:41-46 | on dates at midnight the length check passes if and only if the end is at most 50 days after the start; a reversed period always passes it |
| Validator.ChronologyInDays | HolidayPlanner/HolidayPlannerValidator.cs:48-53 | passing the chronology check means the end's date is not before the start's; an end on a later day always passes |
| Validator.OverlapMeansAprilFirstInside | HolidayPlanner/HolidayPlannerValidator.cs:55-72 | for an ordered period spanning at most two calendar years, the overlap check fails if and only if some April 1 lies inside the period under the chosen end test |
| Validator.OverlapMeansTwoHolidayYears | HolidayPlanner/HolidayPlannerValidator.cs:55-77 | with the end included, the overlap check of an ordered period fails if and only if its start and end lie in different holiday years |
| Validator.StrictlyBeforeEnd | HolidayPlanner/HolidayPlannerValidator.cs:76 | April 1 of year y lies strictly before an end exactly when y is at most the holiday year of the moment just before that end |
| Validator.OverlapMeansAprilFirstBeforeEnd | HolidayPlanner/HolidayPlannerValidator.cs:55-77 | the overlap check as written never throws on an ordered period, and fails exactly when an April 1 lies after the start and strictly before the end: the end is in a later holiday year than the start, an end at midnight on April 1 counting as the year before |
| Validator.StrictEndMissesAprilFirst | HolidayPlanner/HolidayPlannerValidator.cs:74-77 | March 31 to April 1 spans two holiday years. The strict end test reports no overlap; the inclusive test reports one |
| Validator.ReversedPeriodThrows | HolidayPlanner/HolidayPlannerValidator.cs:58-63 | a reversed period makes the overlap check throw, so validation throws |
| Validator.FailingChecksMeaning | HolidayPlanner/HolidayPlannerValidator.cs:21-77 | for an ordered period the checks do not throw and the chronology message never appears. The length message appears exactly when the period exceeds 50 days, the overlap message exactly when an April 1 lies strictly between start and end; the messages are exactly these, length first, and there are none exactly when both rules hold |
| Validator.OneDayHasNoErrors | HolidayPlannerTests/HolidayPlannerValidatorTests.cs:23-34 | 2023-02-15 to 2023-02-16 passes every check |
| Validator.LongSummerPeriodHasOneError | HolidayPlannerTests/HolidayPlannerValidatorTests.cs:36-46 | 2023-05-15 to 2023-08-23 fails the length check only |
| Validator.LongSpringPeriodHasTwoErrors | HolidayPlannerTests/HolidayPlannerValidatorTests.cs:48-58 | 2023-02-15 to 2023-05-26 fails the length check and the overlap check, in that order |
| Validator.AprilFirstEndPasses | HolidayPlanner/HolidayPlannerValidator.cs:74-77 | 2023-03-31 to 2023-04-01 lies in two holiday years, yet passes every check as written |
| Validator.YearToAprilFirstHasOneError | HolidayPlannerTests/HolidayPlannerValidatorTests.cs:314-325 | 2022-04-01 to 2023-04-01 (365 days on) fails the length check only: as written no overlap is found, though that test expects one |
| Validator.NewCheckResult | HolidayPlanner/HolidayPlannerValidator.cs:41-53 | a check's result holds its message, if any, and is Error exactly when there is one |
| Validator.ValidateHolidayPeriod | HolidayPlanner/HolidayPlannerValidator.cs:21-38 | one Error result per failing check, in order, each holding that check's message, the overlap check ending strictly before the end date; the overlap check's exception propagates |
| Validator.ValidateHolidayPeriodCombined | HolidayPlanner/IHolidayPlannerValidator.cs:18 | one result holding every failing check's message in order, with the same checks as `ValidateHolidayPeriod`; Success exactly when none fails |
| Validator.CombineResults | HolidayPlanner/IHolidayPlannerValidator.cs:18 | merging single-message results gives one result with all the messages in order |
| Planner.SundaysFromSunday | HolidayPlanner/HolidayPlanner.cs:69 | counted from a Sunday, the Sundays up to hi number (hi - lo) / 7 + 1 |
| Planner.SundayCountClosedForm | HolidayPlanner/HolidayPlanner.cs:60-71 | the Sundays of lo..hi number zero when the first Sunday from lo is after hi, else (hi - first) / 7 + 1 |
| Planner.WorkDaysByCounting | HolidayPlanner/HolidayPlanner.cs:50-56 | days, less Sundays, less non-Sunday holidays, equals the number of days that are neither a Sunday nor a holiday |
| Planner.DaysSpentCountsWorkDays | HolidayPlanner/HolidayPlanner.cs:50-56 | the planner's formula counts the days of the period that are neither a Sunday nor one of the holidays |
| Planner.SpentHolidaysIgnoresTime | HolidayPlanner/HolidayPlanner.cs:36-38 | the result depends only on the dates, not the times of day |
| Planner.SpentHolidaysCountsWorkingDays | HolidayPlanner/HolidayPlanner.cs:34-57 | a result counts exactly the days of the ordered period that are neither a Sunday nor a national holiday |
| Planner.SpentHolidaysRefusal | HolidayPlanner/HolidayPlanner.cs:34-57 | for a period running forwards: refused by validation exactly when it is over 50 days long or holds an April 1 strictly between its first and last day, with the length message before the overlap message; otherwise counted exactly when every year it touches has a Good Friday, and else the exception names such a year |
| Planner.SpentHolidaysReversed | HolidayPlanner/HolidayPlanner.cs:40 | a period ending on an earlier day than it starts throws the start-after-end exception |
| Planner.PassingPeriodIsOrdered | HolidayPlanner/HolidayPlannerValidator.cs:48-53 | a period passing validation does not end before it starts |
| Planner.DaysSpentWithinAWeek | HolidayPlannerTests/HolidayPlannerTests.cs:19-123 | Monday alone costs 1 and Sunday alone 0; Monday to Wednesday costs 3, Monday to Saturday 6, Sunday to Monday 1 |
| Planner.DaysSpentOverAWeek | HolidayPlannerTests/HolidayPlannerTests.cs:89-141 | Monday to the next Monday costs 7; Sunday to the next Sunday costs 6 |
| Planner.DaysSpentOnASundayHoliday | HolidayPlannerTests/HolidayPlannerTests.cs:168-187 | a holiday on a Sunday costs nothing |
| Planner.DaysSpentWithWeekendHolidays | HolidayPlannerTests/HolidayPlannerTests.cs:189-210 | Monday to Sunday with holidays on Friday, Saturday and Sunday costs 4 |
| Planner.DaysSpentThursdayToMonday | HolidayPlannerTests/HolidayPlannerTests.cs:212-232 | Thursday to the next Monday costs 4 |
| Planner.February2023 | HolidayPlannerTests/HolidayPlannerTests.cs:19-34 | 2023-02-12 is a Sunday and the following days are 2023-02-13 onwards |
| Planner.February2023Examples | HolidayPlannerTests/HolidayPlannerTests.cs:147-232 | the test dates of February 2023 give 1, 0, 4 and 4 |
| Planner.DaysSpentFridayToSaturday | HolidayPlanner/HolidayPlanner.cs:50-56 | a Friday and the next day, without holidays, cost 2 |
| Planner.AprilFirstEndIsCounted | HolidayPlanner/HolidayPlannerValidator.cs:76 | as written, 2023-03-31 to 2023-04-01 lies in two holiday years, yet the planner accepts it and counts 2 days |
| Planner.GetSundayCountInPeriod | HolidayPlanner/HolidayPlanner.cs:60-71 | the scan counts the Sundays from start to end. When the start is after the end it gives the source's floored quotient for a Sunday start and 0 for any other start |
| Planner.HolidayPlanner.constructor | HolidayPlanner/HolidayPlanner.cs:18-22 | the planner keeps the provider it is given |
| Planner.HolidayPlanner.CalculateSpentHolidays | HolidayPlanner/HolidayPlanner.cs:34-57 | the method returns `SpentHolidays` (value or exception); a refused period leaves the provider's cache untouched |
| RangeParser.TrimFacts | HolidayPlanner/DateRangeParser.cs:69 | a trimmed entry has no white space at either end, and is empty exactly when the entry was all white space |
| RangeParser.TrimPadded | HolidayPlanner/DateRangeParser.cs:69 | trimming white space around a trimmed text gives the text back |
| RangeParser.FirstMatch | HolidayPlanner/DateRangeParser.cs:70 | the first separator, in list order, that begins the remaining input; none when no separator does |
| RangeParser.CleanTrimmed | HolidayPlanner/DateRangeParser.cs:69 | every part kept is non-empty and trimmed |
| RangeParser.PartsAtSeparator | HolidayPlanner/DateRangeParser.cs:69-70 | a separator-free prefix followed by a separator yields its trimmed text, when not blank, before the parts of the rest |
| RangeParser.PartsWithoutSeparator | HolidayPlanner/DateRangeParser.cs:69-70 | a separator-free input yields its trimmed text, or nothing when it is blank |
| RangeParser.SeparatorError | HolidayPlanner/DateRangeParser.cs:49-54 | separators are refused exactly when one is null or empty or there are none, and an empty list gives its own exception |
| RangeParser.DateRangeParser.WithSeparators | HolidayPlanner/DateRangeParser.cs:56 | the parser keeps valid separators as given, with no date format |
| RangeParser.DateRangeParser.SetDateFormat | HolidayPlanner/DateRangeParser.cs:18 | setting the format changes only the format |
| RangeParser.DateRangeParser.ParseToDateTime | HolidayPlanner/DateRangeParser.cs:91-100 | with no or an empty format, free parsing decides; otherwise exact parsing with the format does. A failure is a format exception |
| RangeParser.DateRangeParser.Parse | HolidayPlanner/DateRangeParser.cs:67-88 | succeeds exactly when the split gives two parts that both parse, and then returns the two parsed dates in textual order; any failure is a format exception |
| RangeParser.NewDateRangeParser | HolidayPlanner/DateRangeParser.cs:49-57 | throws exactly the separator error; otherwise a new parser holding the separators in order |
| RangeParser.TwoDatesHaveTwoParts | HolidayPlannerTests/DateRangeParserTests.cs:17-29 | two dates joined by a separator split into those two dates |
| RangeParser.PaddedRangeParts | HolidayPlannerTests/DateRangeParserTests.cs:31-43 | white space around the dates and the separator is trimmed away |
| RangeParser.ParsePaddedRange | HolidayPlannerTests/DateRangeParserTests.cs:31-43 | a padded range parses to the two dates |
| RangeParser.MissingSeparatorRefused | HolidayPlannerTests/DateRangeParserTests.cs:253-275 | an input without any separator is a format exception |
| RangeParser.ThreeDatesHaveThreeParts | HolidayPlannerTests/DateRangeParserTests.cs:277-288 | three dates joined by a separator split into three parts, so `Parse`, which needs two, refuses them |
| RangeParser.TrailingSeparatorHasOnePart | HolidayPlannerTests/DateRangeParserTests.cs:290-299 | a date with a trailing separator gives one part |
| RangeParser.BlankInputHasNoParts | HolidayPlannerTests/DateRangeParserTests.cs:301-319 | empty or all-white-space input gives no parts |

## Left out

- The provider's cache is a `static` dictionary shared by every instance. The model keeps
  it as an instance field. Sharing between instances and thread safety are not modelled.
- FinnishHolidays.FinnishNationalHolidayProvider.GetNationalHolidaysBetween: the contract
  does not say which years become new cache entries, only that existing entries are kept
  and every entry stays faithful.
- With a cache hit, `GetHolidaysForYear` returns the cached list itself; with a miss, it
  returns a copy. The model returns values, so aliasing of returned lists is not modelled.
- `Locale` is kept as the constant `LOCALE`; nothing depends on it.
- `DateTime.TryParse` and `DateTime.TryParseExact` are parameters, not models of .NET
  parsing. `FormatProvider` (`DateTimeFormatInfo.CurrentInfo`) and `DateStyles` are folded
  into them.
- The model does not separate the `ArgumentException` and `NotSupportedException` that
  .NET parsing may throw: both end in the same `FormatException`. A parse function that
  fails stands for either one.
- The exceptions' message texts are not modelled, nor their joining with
  `Environment.NewLine`. A validation exception carries the list of messages.
- The interfaces (`IHolidayPlanner.cs`, `IHolidayPlannerValidator.cs`,
  `INationalHolidayProvider.cs`) are not modelled as types. The planner is bound to the
  Finnish provider. `Program.cs` is console I/O and is not part of this model.
- The interface also declares a string overload of `CalculateSpentHolidays`.
  `HolidayPlanner.cs` has no body for it, so there is nothing to model. The range parser
  is modelled on its own.
- A `null` array passed as the `params` argument of `DateRangeParser` or `AddErrors` is
  not modelled. A `null` element is.
- The validator exists in two revisions. `HolidayPlannerValidator.cs` returns a list of
  results and does not implement `IHolidayPlannerValidator`, which returns one result. Both
  are modelled: `ValidateHolidayPeriod` and `ValidateHolidayPeriodCombined`. The planner
  uses the second.
- Easter is not computed: only the table of Good Fridays for 2020 to 2024 is, as in the
  source.
- `DateTime` values outside years 1 to 9999 cannot exist in .NET. Operations that build
  dates require a valid `DateTime` or year range. `ArgumentOutOfRangeException` is not
  modelled.
- A `null` input to `Parse` is not modelled: the input is a `string` value, and
  `input.Split` would throw a `NullReferenceException` (HolidayPlanner/DateRangeParser.cs:70).

## Findings

| source | as written | input that shows it | evidently intended | confidence | as-written member | corrected member |
|---|---|---|---|---|---|---|
| HolidayPlanner/HolidayPlannerValidator.cs:76 | `IsDateBetween` tests `dateToCheck < endDate`, so an April 1 that is the period's last day is not inside it | 2023-03-31 to 2023-04-01 spans two holiday years but passes validation, and the planner counts 2 days for it; the validator's tests at HolidayPlannerTests/HolidayPlannerValidatorTests.cs:314-325 and 340-351 expect an overlap error | `dateToCheck <= endDate`: the end date is part of the period | not executed | Validator.StrictEndMissesAprilFirst | Validator.OverlapMeansTwoHolidayYears |

The model follows the code as written: `FailingChecks`, `ValidateHolidayPeriod` and the
planner use the strict test (`StrictOverlapError`), and `AprilFirstEndPasses` and
`AprilFirstEndIsCounted` show its effect. The inclusive test (`OverlapError`) is kept to
state the intended behaviour, in `OverlapMeansTwoHolidayYears`.
