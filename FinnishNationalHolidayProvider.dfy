/**
 * Finnish national holidays: the fixed dates, the Easter-related dates derived from a
 * table of Good Fridays, Midsummer and All Saints' Day found by scanning for a weekday,
 * and the provider that caches each year's sorted list and filters it to a period.
 */
module FinnishHolidays {
  import opened Wrappers
  import opened Dates
  import opened DateLists

  /** The locale the provider reports. */
  const LOCALE: string := "FI"

  /** Month and day of Good Friday for the only years the provider supports. */
  const GOOD_FRIDAYS: map<int, (int, int)> :=
    map[2020 := (4, 10), 2021 := (4, 2), 2022 := (4, 15), 2023 := (4, 7), 2024 := (3, 29)]

  /** Good Friday of a supported year: a Friday between March 29 and April 15. */
  function GoodFriday(y: int): (r: Date)
    requires y in GOOD_FRIDAYS
    ensures PlausibleGoodFriday(r) && r.year == y
  {
    var r := Date(y, GOOD_FRIDAYS[y].0, GOOD_FRIDAYS[y].1);
    if y == 2020 then FridayOfYear(y, 4, 10); r
    else if y == 2021 then FridayOfYear(y, 4, 2); r
    else if y == 2022 then FridayOfYear(y, 4, 15); r
    else if y == 2023 then FridayOfYear(y, 4, 7); r
    else FridayOfYear(y, 3, 29); r
  }

  /** A date of 2019 to 2025 whose offset from January 1 lands on a Friday is a Friday. */
  lemma FridayOfYear(y: int, m: int, d: int)
    requires 2019 <= y <= 2025 && 3 <= m <= 4 && 1 <= d <= 31
    requires (NewYearWeekdayOf(y) + DaysBeforeMonth(y, m) + d - 1) % 7 == FRIDAY
    ensures DayOfWeek(Date(y, m, d)) == FRIDAY
  {
    NewYearWeekday(y);
    DayOfWeekInYear(Date(y, m, d));
  }

  /** The seven holidays on the same date every year, in the order the source lists them. */
  function FixedHolidays(y: int): seq<Date> {
    [Date(y, 1, 1), Date(y, 1, 6), Date(y, 5, 1), Date(y, 12, 6),
     Date(y, 12, 24), Date(y, 12, 25), Date(y, 12, 26)]
  }

  /** What the table promises of each entry: a Friday from March 29 to April 15. */
  predicate PlausibleGoodFriday(g: Date) {
    ValidDate(g) && DayOfWeek(g) == FRIDAY
    && DayNumber(Date(g.year, 3, 29)) <= DayNumber(g) <= DayNumber(Date(g.year, 4, 15))
  }

  /**
   * Good Friday, Easter Sunday, Easter Monday, the Feast of the Ascension and Pentecost,
   * or the unsupported-year exception when the year has no Good Friday entry.
   */
  function GetEasterRelatedHolidays(y: int): (r: Result<seq<Date>>)
    ensures r.Err? <==> y !in GOOD_FRIDAYS
    ensures r.Err? ==> r.error == UnsupportedYear(y)
    ensures r.Ok? ==> |r.value| == 5 && r.value[0] == GoodFriday(y)
    ensures r.Ok? ==> AllValid(r.value) && AllInYear(r.value, y)
    ensures r.Ok? ==>
      DayNumber(r.value[1]) == DayNumber(r.value[0]) + 2
      && DayNumber(r.value[2]) == DayNumber(r.value[0]) + 3
      && DayNumber(r.value[3]) == DayNumber(r.value[0]) + 41
      && DayNumber(r.value[4]) == DayNumber(r.value[0]) + 51
    ensures r.Ok? ==>
      DayOfWeek(r.value[1]) == SUNDAY && DayOfWeek(r.value[2]) == MONDAY
      && DayOfWeek(r.value[3]) == THURSDAY && DayOfWeek(r.value[4]) == SUNDAY
  {
    if y !in GOOD_FRIDAYS then Err(UnsupportedYear(y))
    else
      var goodFriday := GoodFriday(y);
      EasterListValid(goodFriday);
      EasterListOffsets(goodFriday);
      EasterListWeekdays(goodFriday);
      Ok(EasterList(goodFriday))
  }

  /** Good Friday and the days 2, 3, 41 and 51 days after it. */
  function EasterList(g: Date): seq<Date>
    requires PlausibleGoodFriday(g)
  {
    EasterDate(g, 51);
    [g, AddDays(g, 2), AddDays(g, 3), AddDays(g, 41), AddDays(g, 51)]
  }

  /** Up to 51 days after Good Friday is still in the same year. */
  lemma EasterDate(g: Date, k: nat)
    requires PlausibleGoodFriday(g) && k <= 51
    ensures DayNumber(g) + k <= MAX_DAY_NUMBER
    ensures AddDays(g, k).year == g.year
  {
    LastDayOfYear(g.year);
    AprilRoom(g.year);
    YearOfDayNumber(AddDays(g, k), g.year);
  }

  lemma AprilRoom(y: int)
    ensures DayNumber(Date(y, 4, 15)) + 51 <= DayNumber(Date(y, 12, 31))
  {
  }

  lemma EasterListValid(g: Date)
    requires PlausibleGoodFriday(g)
    ensures |EasterList(g)| == 5 && EasterList(g)[0] == g
    ensures AllValid(EasterList(g)) && AllInYear(EasterList(g), g.year)
  {
    EasterDate(g, 2);
    EasterDate(g, 3);
    EasterDate(g, 41);
    EasterDate(g, 51);
  }

  lemma EasterListOffsets(g: Date)
    requires PlausibleGoodFriday(g)
    ensures |EasterList(g)| == 5
    ensures DayNumber(EasterList(g)[1]) == DayNumber(g) + 2
    ensures DayNumber(EasterList(g)[2]) == DayNumber(g) + 3
    ensures DayNumber(EasterList(g)[3]) == DayNumber(g) + 41
    ensures DayNumber(EasterList(g)[4]) == DayNumber(g) + 51
  {
    EasterDate(g, 51);
  }

  lemma EasterListWeekdays(g: Date)
    requires PlausibleGoodFriday(g)
    ensures |EasterList(g)| == 5
    ensures DayOfWeek(EasterList(g)[1]) == SUNDAY && DayOfWeek(EasterList(g)[2]) == MONDAY
    ensures DayOfWeek(EasterList(g)[3]) == THURSDAY && DayOfWeek(EasterList(g)[4]) == SUNDAY
  {
    EasterDate(g, 51);
    DayOfWeekAfter(g, 2);
    DayOfWeekAfter(g, 3);
    DayOfWeekAfter(g, 41);
    DayOfWeekAfter(g, 51);
    WeekdaysAfterFriday();
  }

  /** Two, three, 41 and 51 days after a Friday fall on Sunday, Monday, Thursday, Sunday. */
  lemma WeekdaysAfterFriday()
    ensures (FRIDAY + 2) % 7 == SUNDAY && (FRIDAY + 3) % 7 == MONDAY
    ensures (FRIDAY + 41) % 7 == THURSDAY && (FRIDAY + 51) % 7 == SUNDAY
  {
  }

  /** Midsummer Eve: the first Friday on or after June 19. */
  function MidsummerEve(y: int): (r: Date)
    requires 1 <= y <= 9999
    ensures ValidDate(r) && DayOfWeek(r) == FRIDAY
    ensures DayNumber(Date(y, 6, 19)) <= DayNumber(r) <= DayNumber(Date(y, 6, 19)) + 6
  {
    LastDayOfYear(y);
    FirstOnOrAfter(Date(y, 6, 19), FRIDAY)
  }

  /** Midsummer Eve and Midsummer Day, the Saturday after it. */
  function MidsummerRelatedHolidays(y: int): (r: seq<Date>)
    requires 1 <= y <= 9999
    ensures |r| == 2 && r[0] == MidsummerEve(y)
    ensures ValidDate(r[1]) && DayNumber(r[1]) == DayNumber(r[0]) + 1
  {
    LastDayOfYear(y);
    JuneRoom(y);
    [MidsummerEve(y), AddDays(MidsummerEve(y), 1)]
  }

  lemma JuneRoom(y: int)
    ensures DayNumber(Date(y, 6, 19)) + 7 <= DayNumber(Date(y, 12, 31))
  {
  }

  lemma OctoberRoom(y: int)
    ensures DayNumber(Date(y, 10, 31)) + 7 <= DayNumber(Date(y, 12, 31))
  {
  }

  /** All Saints' Day: the first Saturday on or after October 31. */
  function AllSaintsDay(y: int): (r: Date)
    requires 1 <= y <= 9999
    ensures ValidDate(r) && DayOfWeek(r) == SATURDAY
    ensures DayNumber(Date(y, 10, 31)) <= DayNumber(r) <= DayNumber(Date(y, 10, 31)) + 6
  {
    LastDayOfYear(y);
    FirstOnOrAfter(Date(y, 10, 31), SATURDAY)
  }

  /** Midsummer Eve is the one Friday from June 19 to June 25. */
  lemma MidsummerEveIsTheFridayInWindow(y: int)
    requires 1 <= y <= 9999
    ensures MidsummerEve(y).year == y && MidsummerEve(y).month == 6
    ensures 19 <= MidsummerEve(y).day <= 25
    ensures forall day :: 19 <= day <= 25 && DayOfWeek(Date(y, 6, day)) == FRIDAY ==>
      MidsummerEve(y) == Date(y, 6, day)
  {
    var start := Date(y, 6, 19);
    var k := DayNumber(MidsummerEve(y)) - DayNumber(start);
    AddDaysInMonth(start, k);
    SameDay(MidsummerEve(y), AddDays(start, k));
    forall day | 19 <= day <= 25 && DayOfWeek(Date(y, 6, day)) == FRIDAY
      ensures MidsummerEve(y) == Date(y, 6, day)
    {
      SameWeekdayWithinWeek(DayNumber(MidsummerEve(y)), DayNumber(Date(y, 6, day)));
    }
  }

  /** All Saints' Day is the one Saturday from October 31 to November 6. */
  lemma AllSaintsDayIsTheSaturdayInWindow(y: int)
    requires 1 <= y <= 9999
    ensures AllSaintsDay(y).year == y
    ensures AllSaintsDay(y) == Date(y, 10, 31)
      || (AllSaintsDay(y).month == 11 && 1 <= AllSaintsDay(y).day <= 6)
    ensures DayOfWeek(Date(y, 10, 31)) == SATURDAY ==> AllSaintsDay(y) == Date(y, 10, 31)
    ensures forall day :: 1 <= day <= 6 && DayOfWeek(Date(y, 11, day)) == SATURDAY ==>
      AllSaintsDay(y) == Date(y, 11, day)
  {
    var start := Date(y, 10, 31);
    var k := DayNumber(AllSaintsDay(y)) - DayNumber(start);
    if k == 0 {
      SameDay(AllSaintsDay(y), start);
    } else {
      AddDaysIntoNextMonth(start, k);
      SameDay(AllSaintsDay(y), AddDays(start, k));
    }
    if DayOfWeek(start) == SATURDAY {
      SameWeekdayWithinWeek(DayNumber(AllSaintsDay(y)), DayNumber(start));
      SameDay(AllSaintsDay(y), start);
    }
    forall day | 1 <= day <= 6 && DayOfWeek(Date(y, 11, day)) == SATURDAY
      ensures AllSaintsDay(y) == Date(y, 11, day)
    {
      SameWeekdayWithinWeek(DayNumber(AllSaintsDay(y)), DayNumber(Date(y, 11, day)));
      SameDay(AllSaintsDay(y), Date(y, 11, day));
    }
  }

  /** Two day numbers less than a week apart with the same weekday are equal. */
  lemma SameWeekdayWithinWeek(a: int, b: int)
    requires -7 < a - b < 7 && WeekdayOfNumber(a) == WeekdayOfNumber(b)
    ensures a == b
  {
    var qa := (a + 1) / 7;
    var qb := (b + 1) / 7;
    assert a + 1 == 7 * qa + WeekdayOfNumber(a);
    assert b + 1 == 7 * qb + WeekdayOfNumber(b);
  }

  /** The list CalculateHolidaysForYear builds before sorting it. */
  function UnsortedHolidays(y: int): seq<Date>
    requires y in GOOD_FRIDAYS
  {
    FixedHolidays(y) + GetEasterRelatedHolidays(y).value + LaterHolidays(y)
  }

  /**
   * The holidays of a year in calendar order, or the exception for a year without a Good
   * Friday. CalculateHolidaysForYear computes this list by sorting the built one, and the
   * cache holds it.
   */
  function HolidaysForYear(y: int): Result<seq<Date>> {
    if y in GOOD_FRIDAYS then Ok(InCalendarOrder(GoodFriday(y)))
    else Err(UnsupportedYear(y))
  }

  /** The same list for the year of any plausible Good Friday. */
  function BuiltHolidays(g: Date): seq<Date>
    requires PlausibleGoodFriday(g)
  {
    FixedHolidays(g.year) + EasterList(g) + LaterHolidays(g.year)
  }

  /** Midsummer Eve, Midsummer Day and All Saints' Day. */
  function LaterHolidays(y: int): seq<Date>
    requires 1 <= y <= 9999
  {
    MidsummerRelatedHolidays(y) + [AllSaintsDay(y)]
  }

  /** Seven fixed, five Easter and three later dates, interleaved as the calendar has them. */
  function Arrange(f: seq<Date>, e: seq<Date>, s: seq<Date>): seq<Date>
    requires |f| == 7 && |e| == 5 && |s| == 3
  {
    [f[0], f[1], e[0], e[1], e[2], f[2], e[3], e[4], s[0], s[1], s[2], f[3], f[4], f[5], f[6]]
  }

  /** The fifteen holidays of the year of Good Friday `g` in calendar order. */
  function InCalendarOrder(g: Date): seq<Date>
    requires PlausibleGoodFriday(g)
  {
    EasterListValid(g);
    Arrange(FixedHolidays(g.year), EasterList(g), LaterHolidays(g.year))
  }

  /** How the month-day anchors of the holiday windows lie apart within any year. */
  lemma SeasonAnchors(y: int)
    ensures DayNumber(Date(y, 1, 1)) < DayNumber(Date(y, 1, 6)) < DayNumber(Date(y, 3, 29))
    ensures DayNumber(Date(y, 4, 15)) + 3 < DayNumber(Date(y, 5, 1))
    ensures DayNumber(Date(y, 5, 1)) < DayNumber(Date(y, 3, 29)) + 41
    ensures DayNumber(Date(y, 4, 15)) + 51 < DayNumber(Date(y, 6, 19))
    ensures DayNumber(Date(y, 6, 19)) + 7 < DayNumber(Date(y, 10, 31))
    ensures DayNumber(Date(y, 10, 31)) + 6 < DayNumber(Date(y, 12, 6))
    ensures DayNumber(Date(y, 12, 6)) < DayNumber(Date(y, 12, 24))
    ensures DayNumber(Date(y, 12, 24)) < DayNumber(Date(y, 12, 25)) < DayNumber(Date(y, 12, 26))
  {
  }

  /** The fixed holidays are valid dates of their year. */
  lemma FixedHolidaysInYear(y: int)
    requires 1 <= y <= 9999
    ensures |FixedHolidays(y)| == 7
    ensures AllValid(FixedHolidays(y)) && AllInYear(FixedHolidays(y), y)
  {
  }

  /** Midsummer Eve, Midsummer Day and All Saints' Day are valid dates of their year, in order. */
  lemma LaterHolidaysFacts(y: int)
    requires 1 <= y <= 9999
    ensures |LaterHolidays(y)| == 3
    ensures AllValid(LaterHolidays(y)) && AllInYear(LaterHolidays(y), y)
    ensures DayNumber(Date(y, 6, 19)) <= DayNumber(LaterHolidays(y)[0])
    ensures DayNumber(LaterHolidays(y)[0]) < DayNumber(LaterHolidays(y)[1])
    ensures DayNumber(LaterHolidays(y)[1]) <= DayNumber(Date(y, 6, 19)) + 7
    ensures DayNumber(Date(y, 10, 31)) <= DayNumber(LaterHolidays(y)[2])
    ensures DayNumber(LaterHolidays(y)[2]) <= DayNumber(Date(y, 10, 31)) + 6
  {
    var m := MidsummerRelatedHolidays(y);
    var a := AllSaintsDay(y);
    MidsummerInYear(y);
    AllSaintsDayIsTheSaturdayInWindow(y);
    assert LaterHolidays(y) == [m[0], m[1], a];
  }

  /** Midsummer Eve and Midsummer Day are valid dates of their year. */
  lemma MidsummerInYear(y: int)
    requires 1 <= y <= 9999
    ensures MidsummerRelatedHolidays(y)[0].year == y && MidsummerRelatedHolidays(y)[1].year == y
  {
    var m := MidsummerRelatedHolidays(y);
    MidsummerEveIsTheFridayInWindow(y);
    LastDayOfYear(y);
    JuneRoom(y);
    assert DayNumber(Date(y, 1, 1)) <= DayNumber(Date(y, 6, 19));
    YearOfDayNumber(m[1], y);
  }

  /** Arranging three lists of valid dates of one year gives fifteen valid dates of it. */
  lemma ArrangeInYear(f: seq<Date>, e: seq<Date>, s: seq<Date>, y: int)
    requires |f| == 7 && |e| == 5 && |s| == 3
    requires AllValid(f) && AllValid(e) && AllValid(s)
    requires AllInYear(f, y) && AllInYear(e, y) && AllInYear(s, y)
    ensures AllValid(Arrange(f, e, s)) && AllInYear(Arrange(f, e, s), y)
  {
    var c := Arrange(f, e, s);
    forall i | 0 <= i < |c| ensures ValidDate(c[i]) && c[i].year == y {
      assert c[i] in f || c[i] in e || c[i] in s;
    }
  }

  /** The arrangement, written as one date appended after another. */
  lemma ArrangeAsAppends(f: seq<Date>, e: seq<Date>, s: seq<Date>)
    requires |f| == 7 && |e| == 5 && |s| == 3
    ensures Arrange(f, e, s) == [f[0]] + [f[1]] + [e[0]] + [e[1]] + [e[2]] + [f[2]] + [e[3]] + [e[4]] + [s[0]] + [s[1]] + [s[2]] + [f[3]] + [f[4]] + [f[5]] + [f[6]]
  {
  }

  /** The dates up to Easter Monday increase, as the calendar has them. */
  lemma ArrangeFront(f: seq<Date>, e: seq<Date>)
    requires |f| == 7 && |e| == 5
    requires DayNumber(f[0]) < DayNumber(f[1]) < DayNumber(e[0]) < DayNumber(e[1]) < DayNumber(e[2])
    requires DayNumber(e[2]) < DayNumber(f[2]) < DayNumber(e[3]) < DayNumber(e[4])
    ensures StrictlyAscending([f[0]] + [f[1]] + [e[0]] + [e[1]] + [e[2]] + [f[2]] + [e[3]] + [e[4]])
  {
    var t := [f[0]];
    SnocStrict(t, f[1]);
    t := t + [f[1]];
    SnocStrict(t, e[0]);
    t := t + [e[0]];
    SnocStrict(t, e[1]);
    t := t + [e[1]];
    SnocStrict(t, e[2]);
    t := t + [e[2]];
    SnocStrict(t, f[2]);
    t := t + [f[2]];
    SnocStrict(t, e[3]);
    t := t + [e[3]];
    SnocStrict(t, e[4]);
    t := t + [e[4]];
  }

  /**
   * Arranging increases when each block increases and the blocks interleave: both
   * winter dates before Good Friday, May Day between Easter Monday and Ascension Day,
   * the later dates after Pentecost and before the December dates.
   */
  lemma ArrangeIncreasing(f: seq<Date>, e: seq<Date>, s: seq<Date>)
    requires |f| == 7 && |e| == 5 && |s| == 3
    requires DayNumber(f[0]) < DayNumber(f[1]) < DayNumber(e[0]) < DayNumber(e[1]) < DayNumber(e[2])
    requires DayNumber(e[2]) < DayNumber(f[2]) < DayNumber(e[3]) < DayNumber(e[4])
    requires DayNumber(e[4]) < DayNumber(s[0]) < DayNumber(s[1]) < DayNumber(s[2])
    requires DayNumber(s[2]) < DayNumber(f[3]) < DayNumber(f[4]) < DayNumber(f[5]) < DayNumber(f[6])
    ensures StrictlyAscending(Arrange(f, e, s))
  {
    ArrangeAsAppends(f, e, s);
    ArrangeFront(f, e);
    var t := [f[0]] + [f[1]] + [e[0]] + [e[1]] + [e[2]] + [f[2]] + [e[3]] + [e[4]];
    SnocStrict(t, s[0]);
    t := t + [s[0]];
    SnocStrict(t, s[1]);
    t := t + [s[1]];
    SnocStrict(t, s[2]);
    t := t + [s[2]];
    SnocStrict(t, f[3]);
    t := t + [f[3]];
    SnocStrict(t, f[4]);
    t := t + [f[4]];
    SnocStrict(t, f[5]);
    t := t + [f[5]];
    SnocStrict(t, f[6]);
    t := t + [f[6]];
  }

  /** The Easter dates increase and lie between the winter dates and May Day. */
  lemma EasterInSeason(g: Date)
    requires PlausibleGoodFriday(g)
    ensures |EasterList(g)| == 5
    ensures DayNumber(EasterList(g)[0]) < DayNumber(EasterList(g)[1]) < DayNumber(EasterList(g)[2])
    ensures DayNumber(EasterList(g)[2]) < DayNumber(EasterList(g)[3]) < DayNumber(EasterList(g)[4])
    ensures DayNumber(Date(g.year, 1, 6)) < DayNumber(EasterList(g)[0])
    ensures DayNumber(EasterList(g)[2]) < DayNumber(Date(g.year, 5, 1)) < DayNumber(EasterList(g)[3])
    ensures DayNumber(EasterList(g)[4]) < DayNumber(Date(g.year, 6, 19))
  {
    SeasonAnchors(g.year);
    EasterListOffsets(g);
  }

  /** The calendar-order list holds fifteen valid, increasing dates, all in one year. */
  lemma InCalendarOrderFacts(g: Date)
    requires PlausibleGoodFriday(g)
    ensures |InCalendarOrder(g)| == 15
    ensures AllValid(InCalendarOrder(g)) && AllInYear(InCalendarOrder(g), g.year)
    ensures StrictlyAscending(InCalendarOrder(g))
  {
    var y := g.year;
    FixedHolidaysInYear(y);
    EasterListValid(g);
    LaterHolidaysFacts(y);
    ArrangeInYear(FixedHolidays(y), EasterList(g), LaterHolidays(y), y);
    SeasonAnchors(y);
    EasterInSeason(g);
    ArrangeIncreasing(FixedHolidays(y), EasterList(g), LaterHolidays(y));
  }

  /**
   * Sorting the built list yields the calendar order: the two lists hold the same dates,
   * and there is only one ascending arrangement of them.
   */
  lemma SortedIsCalendarOrder(g: Date)
    requires PlausibleGoodFriday(g)
    ensures SortByDate(BuiltHolidays(g)) == InCalendarOrder(g)
  {
    InCalendarOrderFacts(g);
    EasterListValid(g);
    ArrangePermutes(FixedHolidays(g.year), EasterList(g), LaterHolidays(g.year));
    StrictlyAscendingIsAscending(InCalendarOrder(g));
    AscendingPermutationUnique(InCalendarOrder(g), SortByDate(BuiltHolidays(g)));
  }

  /** The arrangement holds the dates of the three blocks, each as often. */
  lemma ArrangePermutes(f: seq<Date>, e: seq<Date>, s: seq<Date>)
    requires |f| == 7 && |e| == 5 && |s| == 3
    ensures multiset(f + e + s) == multiset(Arrange(f, e, s))
  {
    assert f == f[..2] + f[2..3] + f[3..];
    assert e == e[..3] + e[3..];
    assert Arrange(f, e, s) == f[..2] + e[..3] + f[2..3] + e[3..] + s + f[3..];
    BlocksRearranged(f[..2], f[2..3], f[3..], e[..3], e[3..], s);
  }

  /** Moving blocks of a list around keeps its elements and their numbers. */
  lemma BlocksRearranged<T>(a: seq<T>, b: seq<T>, c: seq<T>, d: seq<T>, e: seq<T>, f: seq<T>)
    ensures multiset(a + b + c + d + e + f) == multiset(a + d + b + e + f + c)
  {
  }

  /** The Easter holidays of a supported year are the list derived from its Good Friday. */
  lemma EasterRelatedList(y: int)
    requires y in GOOD_FRIDAYS
    ensures GetEasterRelatedHolidays(y) == Ok(EasterList(GoodFriday(y)))
  {
  }

  /** Sorting the list CalculateHolidaysForYear builds gives the year's holidays. */
  lemma SortedHolidaysForYear(y: int)
    requires y in GOOD_FRIDAYS
    ensures HolidaysForYear(y) == Ok(SortByDate(UnsortedHolidays(y)))
  {
    EasterRelatedList(y);
    SortedIsCalendarOrder(GoodFriday(y));
  }

  /** A supported year has fifteen holidays, increasing and all in that year. */
  lemma HolidaysForYearFacts(y: int)
    ensures HolidaysForYear(y).Err? <==> y !in GOOD_FRIDAYS
    ensures HolidaysForYear(y).Err? ==> HolidaysForYear(y).error == UnsupportedYear(y)
    ensures HolidaysForYear(y).Ok? ==>
      var h := HolidaysForYear(y).value;
      |h| == 15 && AllValid(h) && AllInYear(h, y) && StrictlyAscending(h)
  {
    if y in GOOD_FRIDAYS {
      InCalendarOrderFacts(GoodFriday(y));
    }
  }

  // The period query.

  /** GetYearsBetween: the first year, then every following year up to the last one. */
  function YearsBetween(first: int, last: int): (r: seq<int>)
    ensures |r| == if first <= last then last - first + 1 else 1
    ensures forall i :: 0 <= i < |r| ==> r[i] == first + i
    decreases last - first
  {
    if first < last then [first] + YearsBetween(first + 1, last) else [first]
  }

  /** The years walked are exactly those from the first year to the later of the two. */
  lemma YearsBetweenMembers(first: int, last: int, y: int)
    ensures y in YearsBetween(first, last) <==> first <= y <= (if first <= last then last else first)
  {
    var r := YearsBetween(first, last);
    if first <= y <= (if first <= last then last else first) {
      assert r[y - first] == y;
    }
  }

  /** What the period query relies on of each year's list: valid dates of that year, increasing. */
  ghost predicate SortedYearLists(yearly: int -> Result<seq<Date>>) {
    forall y :: yearly(y).Ok? ==>
      AllValid(yearly(y).value) && AllInYear(yearly(y).value, y) && StrictlyAscending(yearly(y).value)
  }

  /**
   * The lists of `years`, one year after another, each filtered to [lo, hi]; or the
   * exception of the first year whose list cannot be had.
   */
  function Collect(yearly: int -> Result<seq<Date>>, years: seq<int>, lo: DateTime, hi: DateTime)
    : Result<seq<Date>>
  {
    if years == [] then Ok([])
    else
      var holidays :- yearly(years[0]);
      var rest :- Collect(yearly, years[1..], lo, hi);
      Ok(InRange(holidays, lo, hi) + rest)
  }

  /**
   * GetNationalHolidaysBetween: the exception for a start after the end, otherwise the
   * holidays of every year of the period that lie in the period.
   */
  function HolidaysBetween(startDate: DateTime, endDate: DateTime): Result<seq<Date>> {
    if Ticks(startDate) > Ticks(endDate) then Err(StartAfterEnd)
    else Collect(HolidaysForYear, YearsBetween(startDate.date.year, endDate.date.year), startDate, endDate)
  }

  /** A national holiday: a date in the holiday list of its (supported) year. */
  predicate IsNationalHoliday(d: Date) {
    HolidaysForYear(d.year).Ok? && d in HolidaysForYear(d.year).value
  }

  /** Collecting succeeds exactly when every year's list can be had; otherwise it fails as one of them does. */
  lemma {:induction false} CollectErrors(yearly: int -> Result<seq<Date>>, years: seq<int>, lo: DateTime, hi: DateTime)
    ensures Collect(yearly, years, lo, hi).Ok? <==> forall i :: 0 <= i < |years| ==> yearly(years[i]).Ok?
    ensures Collect(yearly, years, lo, hi).Err? ==>
      exists i :: 0 <= i < |years| && yearly(years[i]).Err?
        && Collect(yearly, years, lo, hi).error == yearly(years[i]).error
  {
    if years != [] {
      CollectErrors(yearly, years[1..], lo, hi);
      assert forall i :: 0 < i < |years| ==> years[i] == years[1..][i - 1];
      if yearly(years[0]).Ok? && Collect(yearly, years[1..], lo, hi).Err? {
        var i :| 0 <= i < |years[1..]| && yearly(years[1..][i]).Err?
          && Collect(yearly, years[1..], lo, hi).error == yearly(years[1..][i]).error;
        assert years[i + 1] == years[1..][i];
      }
    }
  }

  /** A collected date is a date of one of the years' lists, lying in the range, and conversely. */
  lemma {:induction false} CollectMembers(yearly: int -> Result<seq<Date>>, years: seq<int>,
                                          lo: DateTime, hi: DateTime, d: Date)
    requires SortedYearLists(yearly) && Collect(yearly, years, lo, hi).Ok?
    ensures d in Collect(yearly, years, lo, hi).value <==>
      d.year in years && yearly(d.year).Ok? && d in yearly(d.year).value && Within(d, lo, hi)
  {
    if years != [] {
      var h := yearly(years[0]).value;
      CollectMembers(yearly, years[1..], lo, hi, d);
      InRangeMembers(h, lo, hi, d);
      assert years == [years[0]] + years[1..];
      if d in h {
        var k :| 0 <= k < |h| && h[k] == d;
        assert d.year == years[0];
      }
      if d.year == years[0] && d in yearly(d.year).value {
        assert d in h;
      }
    }
  }

  /** Lists of valid, increasing dates for increasing years collect into valid, increasing dates. */
  lemma {:induction false} CollectOrdered(yearly: int -> Result<seq<Date>>, years: seq<int>,
                                          lo: DateTime, hi: DateTime)
    requires SortedYearLists(yearly) && Collect(yearly, years, lo, hi).Ok?
    requires forall i, j :: 0 <= i < j < |years| ==> years[i] < years[j]
    ensures AllValid(Collect(yearly, years, lo, hi).value)
    ensures StrictlyAscending(Collect(yearly, years, lo, hi).value)
  {
    if years != [] {
      var y := years[0];
      var h := yearly(y).value;
      var rest := Collect(yearly, years[1..], lo, hi).value;
      CollectOrdered(yearly, years[1..], lo, hi);
      InRangeKeepsOrder(h, lo, hi, y);
      var first := InRange(h, lo, hi);
      forall i, j | 0 <= i < |first| && 0 <= j < |rest|
        ensures DayNumber(first[i]) < DayNumber(rest[j])
      {
        CollectMembers(yearly, years[1..], lo, hi, rest[j]);
        var k :| 0 <= k < |years[1..]| && years[1..][k] == rest[j].year;
        assert years[k + 1] == rest[j].year;
        var m :| 0 <= m < |yearly(rest[j].year).value| && yearly(rest[j].year).value[m] == rest[j];
        YearOrder(first[i], rest[j]);
      }
      StrictlyAscendingAppend(first, rest);
    }
  }

  /** Each year's holiday list holds valid dates of that year, increasing. */
  lemma HolidaysForYearLists()
    ensures SortedYearLists(HolidaysForYear)
  {
    forall y | HolidaysForYear(y).Ok?
      ensures AllValid(HolidaysForYear(y).value) && AllInYear(HolidaysForYear(y).value, y)
      ensures StrictlyAscending(HolidaysForYear(y).value)
    {
      HolidaysForYearFacts(y);
    }
  }

  /** Collecting a run of years succeeds exactly when every year of the run does, and fails as one does. */
  lemma CollectYearsErrors(yearly: int -> Result<seq<Date>>, first: int, last: int, lo: DateTime, hi: DateTime)
    requires first <= last
    ensures Collect(yearly, YearsBetween(first, last), lo, hi).Ok? <==>
      forall y :: first <= y <= last ==> yearly(y).Ok?
    ensures Collect(yearly, YearsBetween(first, last), lo, hi).Err? ==>
      exists y :: first <= y <= last && yearly(y).Err?
        && Collect(yearly, YearsBetween(first, last), lo, hi).error == yearly(y).error
  {
    var years := YearsBetween(first, last);
    CollectErrors(yearly, years, lo, hi);
    if forall i :: 0 <= i < |years| ==> yearly(years[i]).Ok? {
      forall y | first <= y <= last ensures yearly(y).Ok? {
        assert years[y - first] == y;
      }
    }
  }

  /** Whether a year has a holiday list is whether it has a Good Friday. */
  lemma HolidaysForYearErrors(y: int)
    ensures HolidaysForYear(y).Ok? <==> y in GOOD_FRIDAYS
    ensures HolidaysForYear(y).Err? ==> HolidaysForYear(y).error == UnsupportedYear(y)
  {
  }

  /** The period query fails for a start after the end, and otherwise for an unsupported year. */
  lemma HolidaysBetweenErrors(startDate: DateTime, endDate: DateTime)
    requires ValidDateTime(startDate) && ValidDateTime(endDate)
    ensures Ticks(startDate) > Ticks(endDate) ==> HolidaysBetween(startDate, endDate) == Err(StartAfterEnd)
    ensures Ticks(startDate) <= Ticks(endDate) ==>
      (HolidaysBetween(startDate, endDate).Ok? <==>
        forall y :: startDate.date.year <= y <= endDate.date.year ==> y in GOOD_FRIDAYS)
    ensures Ticks(startDate) <= Ticks(endDate) && HolidaysBetween(startDate, endDate).Err? ==>
      exists y :: startDate.date.year <= y <= endDate.date.year && y !in GOOD_FRIDAYS
        && HolidaysBetween(startDate, endDate).error == UnsupportedYear(y)
  {
    if Ticks(startDate) <= Ticks(endDate) {
      var a, b := startDate.date.year, endDate.date.year;
      YearOrder(startDate.date, endDate.date);
      CollectYearsErrors(HolidaysForYear, a, b, startDate, endDate);
      forall y ensures HolidaysForYear(y).Ok? <==> y in GOOD_FRIDAYS {
        HolidaysForYearErrors(y);
      }
      if HolidaysBetween(startDate, endDate).Err? {
        var y :| a <= y <= b && HolidaysForYear(y).Err?
          && HolidaysBetween(startDate, endDate).error == HolidaysForYear(y).error;
        HolidaysForYearErrors(y);
      }
    }
  }

  /**
   * Collecting the years of a period gives, in increasing order, exactly the dates of the
   * years' lists that lie in the period.
   */
  lemma CollectPeriod(yearly: int -> Result<seq<Date>>, lo: DateTime, hi: DateTime)
    requires ValidDateTime(lo) && ValidDateTime(hi) && Ticks(lo) <= Ticks(hi)
    requires SortedYearLists(yearly)
    requires Collect(yearly, YearsBetween(lo.date.year, hi.date.year), lo, hi).Ok?
    ensures var r := Collect(yearly, YearsBetween(lo.date.year, hi.date.year), lo, hi).value;
      AllValid(r) && StrictlyAscending(r) && AllInRange(r, lo, hi)
      && forall d :: d in r <==> yearly(d.year).Ok? && d in yearly(d.year).value && Within(d, lo, hi)
  {
    var a, b := lo.date.year, hi.date.year;
    var years := YearsBetween(a, b);
    var r := Collect(yearly, years, lo, hi).value;
    CollectOrdered(yearly, years, lo, hi);
    forall d ensures d in r <==> yearly(d.year).Ok? && d in yearly(d.year).value && Within(d, lo, hi) {
      CollectMembers(yearly, years, lo, hi, d);
      if yearly(d.year).Ok? && d in yearly(d.year).value && Within(d, lo, hi) {
        var h := yearly(d.year).value;
        var k :| 0 <= k < |h| && h[k] == d;
        YearOrder(lo.date, d);
        YearOrder(d, hi.date);
        YearsBetweenMembers(a, b, d.year);
      }
    }
    forall i | 0 <= i < |r| ensures Within(r[i], lo, hi) {
      CollectMembers(yearly, years, lo, hi, r[i]);
    }
  }

  /**
   * A successful period query returns, in increasing order, exactly the national holidays
   * that lie between the start and the end, both included.
   */
  lemma HolidaysBetweenContents(startDate: DateTime, endDate: DateTime)
    requires ValidDateTime(startDate) && ValidDateTime(endDate)
    requires HolidaysBetween(startDate, endDate).Ok?
    ensures Ticks(startDate) <= Ticks(endDate)
    ensures AllValid(HolidaysBetween(startDate, endDate).value)
    ensures StrictlyAscending(HolidaysBetween(startDate, endDate).value)
    ensures AllInRange(HolidaysBetween(startDate, endDate).value, startDate, endDate)
    ensures forall d :: d in HolidaysBetween(startDate, endDate).value <==>
      IsNationalHoliday(d) && Within(d, startDate, endDate)
  {
    HolidaysForYearLists();
    CollectPeriod(HolidaysForYear, startDate, endDate);
  }

  /** Collecting a single year is filtering that year's list. */
  lemma CollectOneYear(yearly: int -> Result<seq<Date>>, y: int, lo: DateTime, hi: DateTime)
    requires yearly(y).Ok?
    ensures Collect(yearly, YearsBetween(y, y), lo, hi) == Ok(InRange(yearly(y).value, lo, hi))
  {
    var h := InRange(yearly(y).value, lo, hi);
    assert YearsBetween(y, y) == [y];
    assert [y][1..] == [];
    assert h + [] == h;
  }

  /** The period query for a single supported year is that year's list filtered to the period. */
  lemma HolidaysWithinOneYear(startDate: DateTime, endDate: DateTime)
    requires Ticks(startDate) <= Ticks(endDate) && startDate.date.year == endDate.date.year
    requires startDate.date.year in GOOD_FRIDAYS
    ensures HolidaysBetween(startDate, endDate)
      == Ok(InRange(InCalendarOrder(GoodFriday(startDate.date.year)), startDate, endDate))
  {
    CollectOneYear(HolidaysForYear, startDate.date.year, startDate, endDate);
  }

  /** Asked for a whole supported year, the period query returns all fifteen of its holidays. */
  lemma WholeYearHolidays(y: int)
    requires y in GOOD_FRIDAYS
    ensures HolidaysBetween(AtMidnight(Date(y, 1, 1)), AtMidnight(Date(y, 12, 31))) == HolidaysForYear(y)
    ensures |HolidaysForYear(y).value| == 15
  {
    var lo, hi := AtMidnight(Date(y, 1, 1)), AtMidnight(Date(y, 12, 31));
    var h := InCalendarOrder(GoodFriday(y));
    InCalendarOrderFacts(GoodFriday(y));
    TicksOrder(lo, hi);
    HolidaysWithinOneYear(lo, hi);
    forall i | 0 <= i < |h| ensures Within(h[i], lo, hi) {
      DateWithinItsYear(h[i]);
      TicksOrder(lo, AtMidnight(h[i]));
      TicksOrder(AtMidnight(h[i]), hi);
    }
    InRangeAll(h, lo, hi);
  }

  /**
   * From Good Friday to Easter Monday the period query returns three holidays: Good Friday,
   * Easter Sunday and Easter Monday.
   */
  lemma EasterWeekendHolidays(y: int)
    requires y in GOOD_FRIDAYS
    ensures DayNumber(GoodFriday(y)) + 3 <= MAX_DAY_NUMBER
    ensures var g := GoodFriday(y);
      HolidaysBetween(AtMidnight(g), AtMidnight(AddDays(g, 3))) == Ok([g, AddDays(g, 2), AddDays(g, 3)])
  {
    var g := GoodFriday(y);
    EasterDate(g, 3);
    var h := InCalendarOrder(g);
    InCalendarOrderFacts(g);
    EasterInCalendarOrder(g);
    HolidaysWithinOneYear(AtMidnight(g), AtMidnight(AddDays(g, 3)));
    StretchOfAscending(h, 2, 5);
    ThreeInARow(h, 2);
  }

  /** In calendar order, the third to fifth holidays are Good Friday, Easter Sunday and Easter Monday. */
  lemma EasterInCalendarOrder(g: Date)
    requires PlausibleGoodFriday(g)
    ensures DayNumber(g) + 3 <= MAX_DAY_NUMBER && |InCalendarOrder(g)| == 15
    ensures InCalendarOrder(g)[2] == g && InCalendarOrder(g)[3] == AddDays(g, 2)
    ensures InCalendarOrder(g)[4] == AddDays(g, 3)
    ensures InCalendarOrder(g)[1] == Date(g.year, 1, 6)
  {
    EasterDate(g, 3);
    EasterListValid(g);
    EasterListFront(g);
    ArrangeEaster(FixedHolidays(g.year), EasterList(g), LaterHolidays(g.year));
  }

  lemma EasterListFront(g: Date)
    requires PlausibleGoodFriday(g)
    ensures DayNumber(g) + 3 <= MAX_DAY_NUMBER && |EasterList(g)| == 5
    ensures EasterList(g)[1] == AddDays(g, 2) && EasterList(g)[2] == AddDays(g, 3)
  {
    EasterDate(g, 3);
  }

  lemma ArrangeEaster(f: seq<Date>, e: seq<Date>, s: seq<Date>)
    requires |f| == 7 && |e| == 5 && |s| == 3
    ensures |Arrange(f, e, s)| == 15
    ensures Arrange(f, e, s)[2] == e[0] && Arrange(f, e, s)[3] == e[1] && Arrange(f, e, s)[4] == e[2]
    ensures Arrange(f, e, s)[1] == f[1]
  {
  }

  /** Three consecutive elements of a list, as a slice. */
  lemma ThreeInARow<T>(s: seq<T>, i: int)
    requires 0 <= i && i + 3 <= |s|
    ensures s[i..i + 3] == [s[i], s[i + 1], s[i + 2]]
  {
  }

  /** 2023-04-07 to 2023-04-10 holds three holidays: Good Friday, Easter Sunday and Easter Monday. */
  lemma Easter2023(y: int)
    requires y == 2023
    ensures HolidaysBetween(AtMidnight(Date(y, 4, 7)), AtMidnight(Date(y, 4, 10)))
      == Ok([Date(y, 4, 7), Date(y, 4, 9), Date(y, 4, 10)])
  {
    EasterWeekendHolidays(y);
    AddDaysInMonth(Date(y, 4, 7), 2);
    AddDaysInMonth(Date(y, 4, 7), 3);
  }

  /** A range between Epiphany and Good Friday holds none of the year's holidays. */
  lemma NoHolidaysBeforeEaster(g: Date, lo: DateTime, hi: DateTime)
    requires PlausibleGoodFriday(g)
    requires lo.timeOfDay < TICKS_PER_DAY && hi.timeOfDay < TICKS_PER_DAY
    requires DayNumber(Date(g.year, 1, 6)) < DayNumber(lo.date) && DayNumber(hi.date) < DayNumber(g)
    ensures InRange(InCalendarOrder(g), lo, hi) == []
  {
    InCalendarOrderFacts(g);
    EasterInCalendarOrder(g);
    GapOfAscending(InCalendarOrder(g), 2, lo, hi);
  }

  /**
   * 2023-03-31 to 2023-04-01 holds no holiday: it lies between Epiphany and Good Friday
   * (April 7).
   */
  lemma NoHolidaysEndOfMarch2023(y: int)
    requires y == 2023
    ensures HolidaysBetween(AtMidnight(Date(y, 3, 31)), AtMidnight(Date(y, 4, 1))) == Ok([])
  {
    var lo, hi := AtMidnight(Date(y, 3, 31)), AtMidnight(Date(y, 4, 1));
    EndOfMarch2023(y);
    NoHolidaysBeforeEaster(GoodFriday(y), lo, hi);
    HolidaysWithinOneYear(lo, hi);
  }

  /** Where 2023-03-31 and 2023-04-01 lie among that year's Epiphany and Good Friday. */
  lemma EndOfMarch2023(y: int)
    requires y == 2023
    ensures y in GOOD_FRIDAYS && GoodFriday(y) == Date(y, 4, 7)
    ensures DayNumber(Date(y, 1, 6)) < DayNumber(Date(y, 3, 31))
    ensures DayNumber(Date(y, 3, 31)) + 1 == DayNumber(Date(y, 4, 1)) < DayNumber(Date(y, 4, 7))
  {
  }

  /** The holiday lists of the cache agree with the calendar: an old map is kept, entry by entry. */
  predicate Extends(later: map<int, seq<Date>>, earlier: map<int, seq<Date>>) {
    forall y :: y in earlier ==> y in later && later[y] == earlier[y]
  }

  /** Collect, with the lists of the years already done put in front. */
  function Prepend(done: seq<Date>, rest: Result<seq<Date>>): Result<seq<Date>> {
    if rest.Ok? then Ok(done + rest.value) else rest
  }

  /**
   * The provider. Its cache maps each year asked for so far to that year's holiday list;
   * a year's list is computed once and then read from the cache.
   */
  class FinnishNationalHolidayProvider {
    var holidaysPerYear: map<int, seq<Date>>

    /** Every cached list is the holiday list of its year. */
    predicate Valid()
      reads this
    {
      CacheAgrees(holidaysPerYear)
    }

    constructor()
      ensures Valid() && holidaysPerYear == map[]
    {
      holidaysPerYear := map[];
    }

    /**
     * The holidays from `startDate` to `endDate`, both included, year by year; the
     * exception for a start after the end or for a year without a Good Friday.
     */
    method GetNationalHolidaysBetween(startDate: DateTime, endDate: DateTime) returns (r: Result<seq<Date>>)
      requires Valid() && ValidDateTime(startDate) && ValidDateTime(endDate)
      modifies this
      ensures Valid()
      ensures r == HolidaysBetween(startDate, endDate)
      ensures Extends(holidaysPerYear, old(holidaysPerYear))
    {
      if Ticks(startDate) > Ticks(endDate) {
        return Err(StartAfterEnd);
      }
      YearOrder(startDate.date, endDate.date);
      var holidays: seq<Date> := [];
      var yearsToCheck := GetYearsBetween(startDate, endDate);
      ghost var yearly := HolidaysForYear;
      var i := 0;
      CollectStart(yearly, yearsToCheck, startDate, endDate);
      while i < |yearsToCheck|
        invariant 0 <= i <= |yearsToCheck|
        invariant Valid()
        invariant Extends(holidaysPerYear, old(holidaysPerYear))
        invariant Collect(yearly, yearsToCheck, startDate, endDate)
          == Prepend(holidays, Collect(yearly, yearsToCheck[i..], startDate, endDate))
      {
        var year := yearsToCheck[i];
        assert 1 <= year <= 9999;
        var yearlyHolidays := GetHolidaysForYear(year);
        assert yearlyHolidays == yearly(year);
        CollectStep(yearly, yearsToCheck, i, startDate, endDate, holidays);
        if yearlyHolidays.Err? {
          assert Collect(yearly, yearsToCheck, startDate, endDate) == Err(yearlyHolidays.error);
          return Err(yearlyHolidays.error);
        }
        holidays := holidays + InRange(yearlyHolidays.value, startDate, endDate);
        i := i + 1;
      }
      CollectDone(yearly, yearsToCheck, startDate, endDate, holidays);
      assert Collect(yearly, yearsToCheck, startDate, endDate) == Ok(holidays);
      r := Ok(holidays);
    }

    /** The years from the start's year through the end's year (just the start's when it is later). */
    method GetYearsBetween(startDate: DateTime, endDate: DateTime) returns (years: seq<int>)
      ensures years == YearsBetween(startDate.date.year, endDate.date.year)
    {
      var year := startDate.date.year;
      years := [year];
      while year < endDate.date.year
        invariant startDate.date.year <= year
        invariant year <= endDate.date.year || year == startDate.date.year
        invariant |years| == year - startDate.date.year + 1
        invariant forall i :: 0 <= i < |years| ==> years[i] == startDate.date.year + i
      {
        year := year + 1;
        years := years + [year];
      }
    }

    /**
     * The holiday list of `year`, from the cache when it is there; otherwise computed and
     * stored. An unsupported year leaves the cache as it was.
     */
    method GetHolidaysForYear(year: int) returns (r: Result<seq<Date>>)
      requires Valid() && 1 <= year <= 9999
      modifies this
      ensures Valid()
      ensures r == HolidaysForYear(year)
      ensures year in old(holidaysPerYear) ==> holidaysPerYear == old(holidaysPerYear)
      ensures year !in old(holidaysPerYear) && r.Ok? ==>
        holidaysPerYear == old(holidaysPerYear)[year := r.value]
      ensures r.Err? ==> holidaysPerYear == old(holidaysPerYear)
    {
      if year in holidaysPerYear {
        CacheLookup(holidaysPerYear, year);
        return Ok(holidaysPerYear[year]);
      }
      var holidays :- CalculateHolidaysForYear(year);
      CacheStore(holidaysPerYear, year, holidays);
      holidaysPerYear := holidaysPerYear[year := holidays];
      return Ok(holidays);
    }

    /**
     * The seven fixed holidays, the Easter holidays, Midsummer and All Saints' Day, sorted;
     * the exception for a year without a Good Friday.
     */
    method CalculateHolidaysForYear(year: int) returns (r: Result<seq<Date>>)
      requires 1 <= year <= 9999
      ensures r == HolidaysForYear(year)
    {
      var holidays := FixedHolidays(year);
      var easter :- GetEasterRelatedHolidays(year);
      holidays := holidays + easter;
      var midsummer := GetMidsummerRelatedHolidays(year);
      holidays := holidays + midsummer;
      var allSaints := GetAllSaintsDay(year);
      holidays := holidays + [allSaints];
      EasterRelatedList(year);
      BuiltListSorts(GoodFriday(year), easter, midsummer, allSaints);
      return Ok(SortByDate(holidays));
    }

    /** Scans forward from June 19 to the first Friday; returns it and the day after it. */
    method GetMidsummerRelatedHolidays(year: int) returns (r: seq<Date>)
      requires 1 <= year <= 9999
      ensures r == MidsummerRelatedHolidays(year)
    {
      var start := Date(year, 6, 19);
      var dateToCheck := start;
      LastDayOfYear(year);
      JuneRoom(year);
      ghost var target := MidsummerEve(year);
      while DayOfWeek(dateToCheck) != FRIDAY
        invariant Scanning(start, dateToCheck, target)
        decreases DayNumber(target) - DayNumber(dateToCheck)
      {
        ScanAdvance(start, dateToCheck, target);
        dateToCheck := AddDays(dateToCheck, 1);
      }
      ScanStopsAtFirst(start, dateToCheck, FRIDAY);
      assert dateToCheck == target;
      r := [dateToCheck, AddDays(dateToCheck, 1)];
    }

    /** Scans forward from October 31 to the first Saturday. */
    method GetAllSaintsDay(year: int) returns (r: Date)
      requires 1 <= year <= 9999
      ensures r == AllSaintsDay(year)
    {
      var start := Date(year, 10, 31);
      var dateToCheck := start;
      LastDayOfYear(year);
      OctoberRoom(year);
      ghost var target := AllSaintsDay(year);
      while DayOfWeek(dateToCheck) != SATURDAY
        invariant Scanning(start, dateToCheck, target)
        decreases DayNumber(target) - DayNumber(dateToCheck)
      {
        ScanAdvance(start, dateToCheck, target);
        dateToCheck := AddDays(dateToCheck, 1);
      }
      ScanStopsAtFirst(start, dateToCheck, SATURDAY);
      r := dateToCheck;
    }
  }

  /** A year cache whose every entry is the holiday list of its year. */
  predicate CacheAgrees(cache: map<int, seq<Date>>) {
    forall y :: y in cache ==> HolidaysForYear(y) == Ok(cache[y])
  }

  /** A cached entry is the year's holiday list. */
  lemma CacheLookup(cache: map<int, seq<Date>>, year: int)
    requires CacheAgrees(cache) && year in cache
    ensures HolidaysForYear(year) == Ok(cache[year])
  {
  }

  /** Storing a year's holiday list keeps the cache in agreement. */
  lemma CacheStore(cache: map<int, seq<Date>>, year: int, holidays: seq<Date>)
    requires CacheAgrees(cache) && HolidaysForYear(year) == Ok(holidays)
    ensures CacheAgrees(cache[year := holidays])
  {
  }

  /** Sorting the list built from the holiday groups of Good Friday's year gives the calendar order. */
  lemma BuiltListSorts(g: Date, easter: seq<Date>, midsummer: seq<Date>, allSaints: Date)
    requires PlausibleGoodFriday(g) && easter == EasterList(g)
    requires midsummer == MidsummerRelatedHolidays(g.year) && allSaints == AllSaintsDay(g.year)
    ensures SortByDate(FixedHolidays(g.year) + easter + midsummer + [allSaints]) == InCalendarOrder(g)
  {
    assert FixedHolidays(g.year) + easter + midsummer + [allSaints] == BuiltHolidays(g);
    SortedIsCalendarOrder(g);
  }

  /** One step of the year loop: a year whose list can be had moves from the rest to the done part. */
  lemma CollectStep(yearly: int -> Result<seq<Date>>, years: seq<int>, i: int, lo: DateTime, hi: DateTime,
                    done: seq<Date>)
    requires 0 <= i < |years|
    ensures yearly(years[i]).Err? ==>
      Prepend(done, Collect(yearly, years[i..], lo, hi)) == Err(yearly(years[i]).error)
    ensures yearly(years[i]).Ok? ==>
      Prepend(done, Collect(yearly, years[i..], lo, hi))
      == Prepend(done + InRange(yearly(years[i]).value, lo, hi), Collect(yearly, years[i + 1..], lo, hi))
  {
    assert years[i..][0] == years[i] && years[i..][1..] == years[i + 1..];
    var rest := Collect(yearly, years[i + 1..], lo, hi);
    if yearly(years[i]).Ok? && rest.Ok? {
      var part := InRange(yearly(years[i]).value, lo, hi);
      assert done + (part + rest.value) == done + part + rest.value;
    }
  }

  /** Before the first year nothing is done yet. */
  lemma CollectStart(yearly: int -> Result<seq<Date>>, years: seq<int>, lo: DateTime, hi: DateTime)
    ensures Collect(yearly, years, lo, hi) == Prepend([], Collect(yearly, years[0..], lo, hi))
  {
    assert years[0..] == years;
    var all := Collect(yearly, years, lo, hi);
    if all.Ok? {
      assert [] + all.value == all.value;
    }
  }

  /** After the last year nothing is left to collect. */
  lemma CollectDone(yearly: int -> Result<seq<Date>>, years: seq<int>, lo: DateTime, hi: DateTime,
                    done: seq<Date>)
    ensures Prepend(done, Collect(yearly, years[|years|..], lo, hi)) == Ok(done)
  {
    assert years[|years|..] == [];
    assert done + [] == done;
  }

  /** A forward scan from `start` that has not yet passed `target`. */
  predicate Scanning(start: Date, date: Date, target: Date) {
    ValidDate(date) && ValidDate(target) && DayNumber(target) <= MAX_DAY_NUMBER
    && DayNumber(start) <= DayNumber(date) <= DayNumber(target)
  }

  /** A day whose weekday differs from the target's lies before it, so the scan may step on. */
  lemma ScanAdvance(start: Date, date: Date, target: Date)
    requires Scanning(start, date, target) && DayOfWeek(date) != DayOfWeek(target)
    ensures DayNumber(date) + 1 <= MAX_DAY_NUMBER
    ensures Scanning(start, AddDays(date, 1), target)
  {
    assert DayNumber(date) != DayNumber(target);
  }

  /** A scan that stops at the first date with weekday `w` stops where FirstOnOrAfter is. */
  lemma ScanStopsAtFirst(start: Date, stop: Date, w: int)
    requires ValidDate(start) && DayNumber(start) + 6 <= MAX_DAY_NUMBER && 0 <= w < 7
    requires ValidDate(stop) && DayOfWeek(stop) == w
    requires DayNumber(start) <= DayNumber(stop) <= DayNumber(FirstOnOrAfter(start, w))
    ensures stop == FirstOnOrAfter(start, w)
  {
    var first := FirstOnOrAfter(start, w);
    assert WeekdayOfNumber(DayNumber(stop)) == w;
    SameDay(stop, first);
  }
}
