/**
 * Reading a date range from text: the text is split on any of the configured separators,
 * the parts are trimmed, empty parts are dropped, and exactly two parts must remain, each
 * of which must read as a date.
 */
module RangeParser {
  import opened Wrappers
  import opened Dates

  // Trimming, as String.Trim does with char.IsWhiteSpace.

  /** char.IsWhiteSpace: the Unicode space, line and paragraph separators and the white-space controls. */
  predicate IsWhiteSpace(c: char) {
    ('\U{0009}' <= c <= '\U{000D}') || c == '\U{0020}' || c == '\U{0085}' || c == '\U{00A0}'
    || c == '\U{1680}' || ('\U{2000}' <= c <= '\U{200A}') || c == '\U{2028}' || c == '\U{2029}'
    || c == '\U{202F}' || c == '\U{205F}' || c == '\U{3000}'
  }

  predicate AllWhiteSpace(s: string) {
    forall i :: 0 <= i < |s| ==> IsWhiteSpace(s[i])
  }

  /** Text that neither starts nor ends with white space. */
  predicate Trimmed(s: string) {
    s == [] || (!IsWhiteSpace(s[0]) && !IsWhiteSpace(s[|s| - 1]))
  }

  function TrimStart(s: string): (r: string)
    ensures |r| <= |s|
  {
    if s != [] && IsWhiteSpace(s[0]) then TrimStart(s[1..]) else s
  }

  function TrimEnd(s: string): (r: string)
    ensures |r| <= |s|
  {
    if s != [] && IsWhiteSpace(s[|s| - 1]) then TrimEnd(s[..|s| - 1]) else s
  }

  /** String.Trim(): the text without its leading and trailing white space. */
  function Trim(s: string): string {
    TrimEnd(TrimStart(s))
  }

  /** TrimStart removes a run of white space from the front, and only that. */
  lemma {:induction false} TrimStartFacts(s: string)
    ensures TrimStart(s) == s[|s| - |TrimStart(s)|..]
    ensures AllWhiteSpace(s[..|s| - |TrimStart(s)|])
    ensures TrimStart(s) == [] || !IsWhiteSpace(TrimStart(s)[0])
  {
    if s != [] && IsWhiteSpace(s[0]) {
      TrimStartFacts(s[1..]);
      var k := |s| - |TrimStart(s)|;
      assert s[k..] == s[1..][k - 1..];
      assert forall i :: 1 <= i < k ==> s[..k][i] == s[1..][..k - 1][i - 1];
    }
  }

  /** TrimEnd removes a run of white space from the back, and only that. */
  lemma {:induction false} TrimEndFacts(s: string)
    ensures TrimEnd(s) == s[..|TrimEnd(s)|]
    ensures AllWhiteSpace(s[|TrimEnd(s)|..])
    ensures TrimEnd(s) == [] || !IsWhiteSpace(TrimEnd(s)[|TrimEnd(s)| - 1])
  {
    if s != [] && IsWhiteSpace(s[|s| - 1]) {
      var t := s[..|s| - 1];
      TrimEndFacts(t);
      var k := |TrimEnd(s)|;
      assert s[..k] == t[..k];
    }
  }

  /**
   * Trimmed text neither starts nor ends with white space, and it is empty exactly when
   * the text is all white space.
   */
  lemma TrimFacts(s: string)
    ensures Trimmed(Trim(s))
    ensures Trim(s) == [] <==> AllWhiteSpace(s)
  {
    var t := TrimStart(s);
    TrimStartFacts(s);
    TrimEndFacts(t);
    var r := TrimEnd(t);
    if r != [] {
      assert r[0] == t[0];
    }
    if r == [] {
      assert AllWhiteSpace(t[|r|..]);
      assert t[|r|..] == t;
      assert t == [];
      forall i | 0 <= i < |s| ensures IsWhiteSpace(s[i]) {
        assert s[i] == s[..|s| - |t|][i];
      }
    }
  }

  lemma {:induction false} TrimStartPadded(w: string, t: string)
    requires AllWhiteSpace(w) && (t == [] || !IsWhiteSpace(t[0]))
    ensures TrimStart(w + t) == t
  {
    if w != [] {
      assert (w + t)[1..] == w[1..] + t;
      TrimStartPadded(w[1..], t);
    } else {
      assert w + t == t;
    }
  }

  lemma {:induction false} TrimEndPadded(t: string, w: string)
    requires AllWhiteSpace(w) && (t == [] || !IsWhiteSpace(t[|t| - 1]))
    ensures TrimEnd(t + w) == t
  {
    if w != [] {
      assert (t + w)[..|t + w| - 1] == t + w[..|w| - 1];
      TrimEndPadded(t, w[..|w| - 1]);
    } else {
      assert t + w == t;
    }
  }

  /** White space around trimmed text is exactly what trimming removes. */
  lemma TrimPadded(w1: string, a: string, w2: string)
    requires AllWhiteSpace(w1) && AllWhiteSpace(w2) && Trimmed(a)
    ensures Trim(w1 + a + w2) == a
  {
    if a == [] {
      assert w1 + a + w2 == w1 + w2;
      TrimStartPadded(w1 + w2, []);
      assert w1 + w2 + [] == w1 + w2;
    } else {
      assert w1 + a + w2 == w1 + (a + w2);
      TrimStartPadded(w1, a + w2);
      TrimEndPadded(a, w2);
    }
  }

  // Splitting, as String.Split(string[], StringSplitOptions) does.

  /**
   * The separator that matches at the start of `rest`: the first one, in the order they
   * were given after index `j`, of which `rest` starts with, if any.
   */
  function FirstMatch(rest: string, separators: seq<string>, j: nat): (r: Option<nat>)
    requires j <= |separators|
    ensures r.Some? ==> j <= r.value < |separators| && separators[r.value] <= rest
    ensures r.Some? ==> forall k :: j <= k < r.value ==> !(separators[k] <= rest)
    ensures r.None? ==> forall k :: j <= k < |separators| ==> !(separators[k] <= rest)
    decreases |separators| - j
  {
    if j == |separators| then None
    else if separators[j] <= rest then Some(j)
    else FirstMatch(rest, separators, j + 1)
  }

  predicate NonEmptySeparators(separators: seq<string>) {
    forall k :: 0 <= k < |separators| ==> separators[k] != []
  }

  /**
   * The scan behind Split: `current` is the part read so far; at each position the text
   * is cut at the first separator that matches there, and scanning resumes after it.
   */
  function SplitFrom(current: string, rest: string, separators: seq<string>): seq<string>
    requires NonEmptySeparators(separators)
    decreases |rest|
  {
    if rest == [] then [current]
    else match FirstMatch(rest, separators, 0)
      case Some(k) => [current] + SplitFrom([], rest[|separators[k]|..], separators)
      case None => SplitFrom(current + [rest[0]], rest[1..], separators)
  }

  /** input.Split(separators): the raw parts, empty ones included, in textual order. */
  function Split(input: string, separators: seq<string>): seq<string>
    requires NonEmptySeparators(separators)
  {
    SplitFrom([], input, separators)
  }

  /** TrimEntries | RemoveEmptyEntries: each part trimmed, the empty ones dropped. */
  function Clean(parts: seq<string>): (r: seq<string>)
    ensures |r| <= |parts|
  {
    if parts == [] then [] else CleanOne(parts[0]) + Clean(parts[1..])
  }

  /** One part cleaned: trimmed, or dropped when nothing is left of it. */
  function CleanOne(part: string): (r: seq<string>)
    ensures |r| <= 1
  {
    if Trim(part) == [] then [] else [Trim(part)]
  }

  /** What survives cleaning is trimmed and not empty. */
  lemma {:induction false} CleanTrimmed(parts: seq<string>)
    ensures forall i :: 0 <= i < |Clean(parts)| ==> Clean(parts)[i] != [] && Trimmed(Clean(parts)[i])
  {
    if parts != [] {
      TrimFacts(parts[0]);
      CleanTrimmed(parts[1..]);
    }
  }

  /** The parts a range is read from. */
  function Parts(input: string, separators: seq<string>): seq<string>
    requires NonEmptySeparators(separators)
  {
    Clean(Split(input, separators))
  }

  /** Text none of whose characters appears in any separator. */
  predicate SeparatorFree(s: string, separators: seq<string>) {
    forall i, k :: 0 <= i < |s| && 0 <= k < |separators| ==> s[i] !in separators[k]
  }

  lemma {:induction false} CleanAppend(a: seq<string>, b: seq<string>)
    ensures Clean(a + b) == Clean(a) + Clean(b)
  {
    if a == [] {
      assert a + b == b;
    } else {
      assert (a + b)[0] == a[0] && (a + b)[1..] == a[1..] + b;
      CleanAppend(a[1..], b);
    }
  }

  /** No separator can match where the text starts with a character that no separator holds. */
  lemma NoMatchOnFreeCharacter(rest: string, separators: seq<string>)
    requires NonEmptySeparators(separators)
    requires rest != [] && forall k :: 0 <= k < |separators| ==> rest[0] !in separators[k]
    ensures FirstMatch(rest, separators, 0).None?
  {
  }

  /** Text without separator characters is read on to its end as one part. */
  lemma {:induction false} SplitFree(current: string, x: string, y: string, separators: seq<string>)
    requires NonEmptySeparators(separators) && SeparatorFree(x, separators)
    ensures SplitFrom(current, x + y, separators) == SplitFrom(current + x, y, separators)
    decreases |x|
  {
    if x == [] {
      assert x + y == y && current + x == current;
    } else {
      assert (x + y)[0] == x[0] && (x + y)[1..] == x[1..] + y;
      NoMatchOnFreeCharacter(x + y, separators);
      SplitFree(current + [x[0]], x[1..], y, separators);
      assert current + [x[0]] + x[1..] == current + x;
    }
  }

  /**
   * Cutting at a separator: when no separator holds a character of `x` and no separator
   * earlier in the list matches where `separators[k]` does, the text before the separator
   * is one part and the rest is split on its own.
   */
  lemma SplitAtSeparator(x: string, k: nat, y: string, separators: seq<string>)
    requires NonEmptySeparators(separators) && k < |separators| && SeparatorFree(x, separators)
    requires forall j :: 0 <= j < k ==> !(separators[j] <= separators[k] + y)
    ensures Split(x + separators[k] + y, separators) == [x] + Split(y, separators)
  {
    var rest := separators[k] + y;
    assert x + separators[k] + y == x + rest;
    SplitFree([], x, rest, separators);
    assert [] + x == x;
    assert separators[k] <= rest;
    assert FirstMatch(rest, separators, 0) == Some(k);
    assert rest[|separators[k]|..] == y;
  }

  /** Text without separator characters is a single raw part. */
  lemma SplitWithoutSeparator(x: string, separators: seq<string>)
    requires NonEmptySeparators(separators) && SeparatorFree(x, separators)
    ensures Split(x, separators) == [x]
  {
    SplitFree([], x, [], separators);
    assert x + [] == x && [] + x == x;
  }

  /** Parts at a separator: the trimmed text before it, if not empty, then the parts after it. */
  lemma PartsAtSeparator(x: string, k: nat, y: string, separators: seq<string>)
    requires NonEmptySeparators(separators) && k < |separators| && SeparatorFree(x, separators)
    requires forall j :: 0 <= j < k ==> !(separators[j] <= separators[k] + y)
    ensures Parts(x + separators[k] + y, separators)
      == (if Trim(x) == [] then [] else [Trim(x)]) + Parts(y, separators)
  {
    SplitAtSeparator(x, k, y, separators);
    CleanAppend([x], Split(y, separators));
    assert [x][1..] == [];
  }

  /** Without a separator there is at most one part: the trimmed text, unless it is empty. */
  lemma PartsWithoutSeparator(x: string, separators: seq<string>)
    requires NonEmptySeparators(separators) && SeparatorFree(x, separators)
    ensures Parts(x, separators) == if Trim(x) == [] then [] else [Trim(x)]
  {
    SplitWithoutSeparator(x, separators);
    assert [x][1..] == [];
  }

  // The parser.

  /** A separator list the constructor accepts: at least one separator, none of them empty. */
  predicate ValidSeparators(separators: seq<string>) {
    separators != [] && NonEmptySeparators(separators)
  }

  /** Why the constructor refuses a separator list (`None` for `null`), if it does. */
  function SeparatorError(separators: seq<Option<string>>): (r: Option<Exception>)
    ensures r.None? <==> NoneNull(separators) && ValidSeparators(Present(separators))
    ensures r == Some(EmptySeparatorList) <==> separators == []
    ensures r.Some? ==> r.value.IsArgumentException()
  {
    if separators == [] then Some(EmptySeparatorList)
    else if exists i :: 0 <= i < |separators| && (separators[i].None? || separators[i].value == []) then
      Some(NullOrEmptySeparator)
    else None
  }

  /**
   * DateRangeParser: the separators it splits on and the optional exact date format. The
   * format provider and the date styles are folded into the date readers `Parse` is given.
   */
  class DateRangeParser {
    var dateFormat: Option<string>
    var rangeSeparators: seq<string>

    predicate Valid()
      reads this
    {
      ValidSeparators(rangeSeparators)
    }

    /** The constructor's work once the separators have been accepted: they are added, in order. */
    constructor WithSeparators(separators: seq<string>)
      requires ValidSeparators(separators)
      ensures Valid() && rangeSeparators == separators && dateFormat == None
    {
      dateFormat := None;
      rangeSeparators := [];
      new;
      rangeSeparators := rangeSeparators + separators;
    }

    /** RangeSeparators: a copy of the separators, in the order they were given. */
    function RangeSeparators(): seq<string>
      reads this
    {
      rangeSeparators
    }

    /** Setting DateFormat changes nothing else. */
    method SetDateFormat(format: Option<string>)
      modifies this
      ensures dateFormat == format && rangeSeparators == old(rangeSeparators)
    {
      dateFormat := format;
    }

    /**
     * ParseToDateTime: an exact read when a non-empty format is set, a free read
     * otherwise; a text that does not read as a date throws FormatException.
     */
    function ParseToDateTime(dateStr: string, tryParse: string -> Option<DateTime>,
                             tryParseExact: (string, string) -> Option<DateTime>): (r: Result<DateTime>)
      reads this
      ensures r.Err? ==> r.error == InvalidRangeFormat
      ensures dateFormat.None? || dateFormat.value == [] ==>
        (r.Ok? <==> tryParse(dateStr).Some?) && (r.Ok? ==> Some(r.value) == tryParse(dateStr))
      ensures dateFormat.Some? && dateFormat.value != [] ==>
        (r.Ok? <==> tryParseExact(dateStr, dateFormat.value).Some?)
        && (r.Ok? ==> Some(r.value) == tryParseExact(dateStr, dateFormat.value))
    {
      var parsed := if dateFormat.None? || dateFormat.value == [] then tryParse(dateStr)
                    else tryParseExact(dateStr, dateFormat.value);
      if parsed.Some? then Ok(parsed.value) else Err(InvalidRangeFormat)
    }

    /**
     * Parse: the text must hold exactly two parts, and each must read as a date; the dates
     * are returned in textual order. Every failure is a FormatException.
     */
    function Parse(input: string, tryParse: string -> Option<DateTime>,
                   tryParseExact: (string, string) -> Option<DateTime>): (r: Result<(DateTime, DateTime)>)
      requires Valid()
      reads this
      ensures r.Err? ==> r.error == InvalidRangeFormat
      ensures |Parts(input, rangeSeparators)| != 2 ==> r.Err?
      ensures r.Ok? <==> var parts := Parts(input, rangeSeparators);
        |parts| == 2 && ParseToDateTime(parts[0], tryParse, tryParseExact).Ok?
        && ParseToDateTime(parts[1], tryParse, tryParseExact).Ok?
      ensures r.Ok? ==> var parts := Parts(input, rangeSeparators);
        r.value == (ParseToDateTime(parts[0], tryParse, tryParseExact).value,
                    ParseToDateTime(parts[1], tryParse, tryParseExact).value)
    {
      var parts := Parts(input, rangeSeparators);
      if |parts| != 2 then Err(InvalidRangeFormat)
      else
        var first :- ParseToDateTime(parts[0], tryParse, tryParseExact);
        var second :- ParseToDateTime(parts[1], tryParse, tryParseExact);
        Ok((first, second))
    }
  }

  /**
   * The DateRangeParser constructor: refuses an empty list and a list with a `null` or
   * empty separator, and otherwise keeps the separators in the order given.
   */
  method NewDateRangeParser(separators: seq<Option<string>>) returns (r: Result<DateRangeParser>)
    ensures r.Err? <==> SeparatorError(separators).Some?
    ensures r.Err? ==> r.error == SeparatorError(separators).value
    ensures r.Ok? ==> fresh(r.value) && r.value.Valid() && r.value.dateFormat == None
    ensures r.Ok? ==> NoneNull(separators) && r.value.RangeSeparators() == Present(separators)
  {
    if separators == [] {
      return Err(EmptySeparatorList);
    }
    var i := 0;
    while i < |separators|
      invariant 0 <= i <= |separators|
      invariant forall j :: 0 <= j < i ==> separators[j].Some? && separators[j].value != []
    {
      if separators[i].None? || separators[i].value == [] {
        return Err(NullOrEmptySeparator);
      }
      i := i + 1;
    }
    var parser := new DateRangeParser.WithSeparators(Present(separators));
    return Ok(parser);
  }

  // What the parser makes of typical inputs, for a separator list `separators`.

  /**
   * Dates padded with white space on either side of a separator come back as the two
   * dates, in order. `k` is the separator used; no earlier separator may match there.
   */
  lemma PaddedRangeParts(w1: string, a: string, w2: string, k: nat, w3: string, b: string, w4: string,
                         separators: seq<string>)
    requires ValidSeparators(separators) && k < |separators|
    requires AllWhiteSpace(w1) && AllWhiteSpace(w2) && AllWhiteSpace(w3) && AllWhiteSpace(w4)
    requires a != [] && b != [] && Trimmed(a) && Trimmed(b)
    requires SeparatorFree(w1 + a + w2, separators) && SeparatorFree(w3 + b + w4, separators)
    requires forall j :: 0 <= j < k ==> !(separators[j] <= separators[k] + (w3 + b + w4))
    ensures Parts(w1 + a + w2 + separators[k] + (w3 + b + w4), separators) == [a, b]
  {
    PartsAtSeparator(w1 + a + w2, k, w3 + b + w4, separators);
    PartsWithoutSeparator(w3 + b + w4, separators);
    TrimPadded(w1, a, w2);
    TrimPadded(w3, b, w4);
  }

  /** Two dates around a separator read as those dates, whatever the white space around them. */
  lemma ParsePaddedRange(parser: DateRangeParser, w1: string, a: string, w2: string, k: nat,
                         w3: string, b: string, w4: string,
                         tryParse: string -> Option<DateTime>, tryParseExact: (string, string) -> Option<DateTime>)
    requires parser.Valid() && k < |parser.rangeSeparators|
    requires AllWhiteSpace(w1) && AllWhiteSpace(w2) && AllWhiteSpace(w3) && AllWhiteSpace(w4)
    requires a != [] && b != [] && Trimmed(a) && Trimmed(b)
    requires SeparatorFree(w1 + a + w2, parser.rangeSeparators)
    requires SeparatorFree(w3 + b + w4, parser.rangeSeparators)
    requires forall j :: 0 <= j < k ==>
      !(parser.rangeSeparators[j] <= parser.rangeSeparators[k] + (w3 + b + w4))
    requires parser.ParseToDateTime(a, tryParse, tryParseExact).Ok?
    requires parser.ParseToDateTime(b, tryParse, tryParseExact).Ok?
    ensures parser.Parse(w1 + a + w2 + parser.rangeSeparators[k] + (w3 + b + w4), tryParse, tryParseExact)
      == Ok((parser.ParseToDateTime(a, tryParse, tryParseExact).value,
             parser.ParseToDateTime(b, tryParse, tryParseExact).value))
  {
    PaddedRangeParts(w1, a, w2, k, w3, b, w4, parser.rangeSeparators);
  }

  /** Text without a separator has fewer than two parts, so it is refused. */
  lemma MissingSeparatorRefused(parser: DateRangeParser, input: string,
                                tryParse: string -> Option<DateTime>, tryParseExact: (string, string) -> Option<DateTime>)
    requires parser.Valid() && SeparatorFree(input, parser.rangeSeparators)
    ensures |Parts(input, parser.rangeSeparators)| <= 1
    ensures parser.Parse(input, tryParse, tryParseExact) == Err(InvalidRangeFormat)
  {
    PartsWithoutSeparator(input, parser.rangeSeparators);
  }

  /** Empty text and text of white space only have no parts at all. */
  lemma BlankInputHasNoParts(w: string, separators: seq<string>)
    requires ValidSeparators(separators) && AllWhiteSpace(w) && SeparatorFree(w, separators)
    ensures Parts(w, separators) == []
  {
    PartsWithoutSeparator(w, separators);
    TrimPadded(w, [], []);
    assert w + [] + [] == w;
  }

  /** A date followed by a separator and nothing else has one part. */
  lemma TrailingSeparatorHasOnePart(a: string, k: nat, separators: seq<string>)
    requires ValidSeparators(separators) && k < |separators|
    requires a != [] && Trimmed(a) && SeparatorFree(a, separators)
    requires forall j :: 0 <= j < k ==> !(separators[j] <= separators[k])
    ensures Parts(a + separators[k], separators) == [a]
  {
    assert separators[k] + [] == separators[k];
    PartsAtSeparator(a, k, [], separators);
    assert a + separators[k] + [] == a + separators[k];
    PartsWithoutSeparator([], separators);
    TrimPadded([], a, []);
    assert [] + a + [] == a;
  }

  /** Two dates with a single separator between them have two parts. */
  lemma TwoDatesHaveTwoParts(a: string, b: string, separator: string)
    requires separator != []
    requires a != [] && b != [] && Trimmed(a) && Trimmed(b)
    requires SeparatorFree(a, [separator]) && SeparatorFree(b, [separator])
    ensures Parts(a + separator + b, [separator]) == [a, b]
  {
    var seps := [separator];
    assert a + separator + b == [] + a + [] + seps[0] + ([] + b + []);
    PaddedRangeParts([], a, [], 0, [], b, [], seps);
  }

  /** Three dates with a single separator between each have three parts. */
  lemma ThreeDatesHaveThreeParts(a: string, b: string, c: string, separator: string)
    requires separator != []
    requires a != [] && b != [] && c != [] && Trimmed(a) && Trimmed(b) && Trimmed(c)
    requires SeparatorFree(a, [separator]) && SeparatorFree(b, [separator]) && SeparatorFree(c, [separator])
    ensures Parts(a + separator + b + separator + c, [separator]) == [a, b, c]
  {
    var seps := [separator];
    var rest := b + separator + c;
    TwoDatesHaveTwoParts(b, c, separator);
    assert a + separator + b + separator + c == a + seps[0] + rest;
    PartsAtSeparator(a, 0, rest, seps);
    TrimPadded([], a, []);
    assert [] + a + [] == a;
  }
}
