/**
 * Lists of dates as the holiday calendar handles them: List<DateTime>.Sort(),
 * the inclusive range filter of a LINQ Where, and the orderings they establish.
 */
module DateLists {
  import opened Dates

  predicate AllValid(s: seq<Date>) {
    forall i :: 0 <= i < |s| ==> ValidDate(s[i])
  }

  /** Non-decreasing by day number, which is how DateTime values compare. */
  predicate Ascending(s: seq<Date>) {
    forall i, j :: 0 <= i < j < |s| ==> DayNumber(s[i]) <= DayNumber(s[j])
  }

  /** Increasing by day number: ascending and free of repeated dates. */
  predicate StrictlyAscending(s: seq<Date>) {
    forall i, j :: 0 <= i < j < |s| ==> DayNumber(s[i]) < DayNumber(s[j])
  }

  /** `holiday >= lo && holiday <= hi` for a date at midnight, comparing ticks. */
  predicate Within(d: Date, lo: DateTime, hi: DateTime) {
    Ticks(lo) <= Ticks(AtMidnight(d)) <= Ticks(hi)
  }

  predicate AllInRange(s: seq<Date>, lo: DateTime, hi: DateTime) {
    forall i :: 0 <= i < |s| ==> Within(s[i], lo, hi)
  }

  predicate AllInYear(s: seq<Date>, y: int) {
    forall i :: 0 <= i < |s| ==> s[i].year == y
  }

  lemma MultisetMember<T>(x: T, a: seq<T>, b: seq<T>)
    requires multiset(a) == multiset(b) && x in a
    ensures x in b
  {
    assert x in multiset(a);
  }

  /** Inserts `x` into a list after the leading elements smaller than it. */
  function Insert(x: Date, s: seq<Date>): (r: seq<Date>)
    ensures |r| == |s| + 1
  {
    if s == [] then [x]
    else if DayNumber(x) <= DayNumber(s[0]) then [x] + s
    else [s[0]] + Insert(x, s[1..])
  }

  /** Inserting adds exactly `x`. */
  lemma {:induction false} InsertMultiset(x: Date, s: seq<Date>)
    ensures multiset(Insert(x, s)) == multiset(s) + multiset{x}
  {
    if s != [] && DayNumber(x) > DayNumber(s[0]) {
      assert s == [s[0]] + s[1..];
      InsertMultiset(x, s[1..]);
    }
  }

  /** Nothing lands before both `x` and the old first element. */
  lemma {:induction false} InsertBound(x: Date, s: seq<Date>)
    requires Ascending(s)
    ensures forall k :: 0 <= k < |Insert(x, s)| ==>
      DayNumber(x) <= DayNumber(Insert(x, s)[k]) || (s != [] && DayNumber(s[0]) <= DayNumber(Insert(x, s)[k]))
  {
    if s != [] && DayNumber(x) > DayNumber(s[0]) {
      InsertBound(x, s[1..]);
      var rest := Insert(x, s[1..]);
      forall k | 0 <= k < |rest| ensures DayNumber(s[0]) <= DayNumber(rest[k]) {
        if s[1..] != [] {
          assert DayNumber(s[0]) <= DayNumber(s[1..][0]);
        }
      }
      assert Insert(x, s) == [s[0]] + rest;
    }
  }

  /** A date no later than any element of an ascending list can go in front of it. */
  lemma ConsAscending(h: Date, t: seq<Date>)
    requires Ascending(t) && forall k :: 0 <= k < |t| ==> DayNumber(h) <= DayNumber(t[k])
    ensures Ascending([h] + t)
  {
    var r := [h] + t;
    forall i, j | 0 <= i < j < |r| ensures DayNumber(r[i]) <= DayNumber(r[j]) {
      if i > 0 {
        assert r[i] == t[i - 1];
      }
      assert r[j] == t[j - 1];
    }
  }

  /** An increasing list stays increasing when a later date is put at its end. */
  lemma SnocStrict(t: seq<Date>, x: Date)
    requires StrictlyAscending(t) && t != [] && DayNumber(t[|t| - 1]) < DayNumber(x)
    ensures StrictlyAscending(t + [x])
  {
    var r := t + [x];
    forall i, j | 0 <= i < j < |r| ensures DayNumber(r[i]) < DayNumber(r[j]) {
      assert r[i] == t[i];
      if j < |t| {
        assert r[j] == t[j];
      } else if i < |t| - 1 {
        assert DayNumber(t[i]) < DayNumber(t[|t| - 1]);
      }
    }
  }

  /** Inserting into an ascending list keeps it ascending. */
  lemma {:induction false} InsertAscending(x: Date, s: seq<Date>)
    requires Ascending(s)
    ensures Ascending(Insert(x, s))
  {
    if s == [] {
    } else if DayNumber(x) <= DayNumber(s[0]) {
      ConsAscending(x, s);
    } else {
      var rest := Insert(x, s[1..]);
      InsertAscending(x, s[1..]);
      InsertBound(x, s[1..]);
      forall k | 0 <= k < |rest| ensures DayNumber(s[0]) <= DayNumber(rest[k]) {
        if s[1..] != [] {
          assert DayNumber(s[0]) <= DayNumber(s[1..][0]);
        }
      }
      ConsAscending(s[0], rest);
    }
  }

  /** List<DateTime>.Sort(): the same dates, in ascending order. */
  function SortByDate(s: seq<Date>): (r: seq<Date>)
    ensures Ascending(r)
    ensures multiset(r) == multiset(s)
    ensures |r| == |s|
  {
    if s == [] then []
    else
      assert s == [s[0]] + s[1..];
      InsertMultiset(s[0], SortByDate(s[1..]));
      InsertAscending(s[0], SortByDate(s[1..]));
      Insert(s[0], SortByDate(s[1..]))
  }

  /** Where(d => d >= lo && d <= hi): the dates of `s` in [lo, hi], in their original order. */
  function InRange(s: seq<Date>, lo: DateTime, hi: DateTime): (r: seq<Date>)
    ensures |r| <= |s|
  {
    if s == [] then []
    else if Within(s[0], lo, hi) then [s[0]] + InRange(s[1..], lo, hi)
    else InRange(s[1..], lo, hi)
  }

  /** The filter keeps exactly the elements that lie in the range. */
  lemma {:induction false} InRangeMembers(s: seq<Date>, lo: DateTime, hi: DateTime, d: Date)
    ensures d in InRange(s, lo, hi) <==> d in s && Within(d, lo, hi)
  {
    if s != [] {
      InRangeMembers(s[1..], lo, hi, d);
      assert s == [s[0]] + s[1..];
    }
  }

  /** Everything the filter returns lies in the range. */
  lemma InRangeIsInRange(s: seq<Date>, lo: DateTime, hi: DateTime)
    ensures AllInRange(InRange(s, lo, hi), lo, hi)
  {
    var r := InRange(s, lo, hi);
    forall i | 0 <= i < |r| ensures Within(r[i], lo, hi) {
      InRangeMembers(s, lo, hi, r[i]);
    }
  }

  /** Filtering keeps validity, year membership and strict ascending order. */
  lemma {:induction false} InRangeKeepsOrder(s: seq<Date>, lo: DateTime, hi: DateTime, y: int)
    requires AllValid(s) && AllInYear(s, y) && StrictlyAscending(s)
    ensures AllValid(InRange(s, lo, hi)) && AllInYear(InRange(s, lo, hi), y)
    ensures StrictlyAscending(InRange(s, lo, hi))
  {
    if s != [] {
      InRangeKeepsOrder(s[1..], lo, hi, y);
      var rest := InRange(s[1..], lo, hi);
      forall k | 0 <= k < |rest| ensures DayNumber(s[0]) < DayNumber(rest[k]) {
        InRangeMembers(s[1..], lo, hi, rest[k]);
      }
    }
  }

  /** An increasing list is in particular non-decreasing. */
  lemma StrictlyAscendingIsAscending(s: seq<Date>)
    requires StrictlyAscending(s)
    ensures Ascending(s)
  {
  }

  /** Filtering a joined list is joining the filtered parts. */
  lemma {:induction false} InRangeAppend(a: seq<Date>, b: seq<Date>, lo: DateTime, hi: DateTime)
    ensures InRange(a + b, lo, hi) == InRange(a, lo, hi) + InRange(b, lo, hi)
  {
    if a == [] {
      assert a + b == b;
    } else {
      var ab := a + b;
      assert ab[0] == a[0] && ab[1..] == a[1..] + b;
      InRangeAppend(a[1..], b, lo, hi);
      var rest := InRange(a[1..], lo, hi) + InRange(b, lo, hi);
      if Within(a[0], lo, hi) {
        assert InRange(ab, lo, hi) == [a[0]] + rest;
        assert InRange(a, lo, hi) == [a[0]] + InRange(a[1..], lo, hi);
      } else {
        assert InRange(ab, lo, hi) == rest;
        assert InRange(a, lo, hi) == InRange(a[1..], lo, hi);
      }
    }
  }

  /** A list wholly inside the range passes the filter unchanged. */
  lemma {:induction false} InRangeAll(s: seq<Date>, lo: DateTime, hi: DateTime)
    requires AllInRange(s, lo, hi)
    ensures InRange(s, lo, hi) == s
  {
    if s != [] {
      InRangeAll(s[1..], lo, hi);
    }
  }

  /** A list wholly outside the range is filtered away. */
  lemma {:induction false} InRangeNone(s: seq<Date>, lo: DateTime, hi: DateTime)
    requires forall i :: 0 <= i < |s| ==> !Within(s[i], lo, hi)
    ensures InRange(s, lo, hi) == []
  {
    if s != [] {
      InRangeNone(s[1..], lo, hi);
    }
  }

  /** A range lying wholly between two neighbours of an increasing list holds none of its dates. */
  lemma GapOfAscending(s: seq<Date>, i: int, lo: DateTime, hi: DateTime)
    requires StrictlyAscending(s) && 0 < i < |s|
    requires lo.timeOfDay < TICKS_PER_DAY && hi.timeOfDay < TICKS_PER_DAY
    requires DayNumber(s[i - 1]) < DayNumber(lo.date) && DayNumber(hi.date) < DayNumber(s[i])
    ensures InRange(s, lo, hi) == []
  {
    forall k | 0 <= k < |s| ensures !Within(s[k], lo, hi) {
      TicksOrder(lo, AtMidnight(s[k]));
      TicksOrder(AtMidnight(s[k]), hi);
      if k < i {
        assert DayNumber(s[k]) <= DayNumber(s[i - 1]);
      } else {
        assert DayNumber(s[i]) <= DayNumber(s[k]);
      }
    }
    InRangeNone(s, lo, hi);
  }

  /** When only a stretch of the list lies in the range, the filter keeps that stretch. */
  lemma InRangeSlice(s: seq<Date>, lo: DateTime, hi: DateTime, i: int, j: int)
    requires 0 <= i <= j <= |s|
    requires forall k :: 0 <= k < i ==> !Within(s[k], lo, hi)
    requires forall k :: i <= k < j ==> Within(s[k], lo, hi)
    requires forall k :: j <= k < |s| ==> !Within(s[k], lo, hi)
    ensures InRange(s, lo, hi) == s[i..j]
  {
    var a, b, c := s[..i], s[i..j], s[j..];
    assert s == a + b + c;
    InRangeAppend(a + b, c, lo, hi);
    InRangeAppend(a, b, lo, hi);
    InRangeNone(a, lo, hi);
    InRangeAll(b, lo, hi);
    InRangeNone(c, lo, hi);
  }

  /**
   * Filtering an increasing list of valid dates to the days from its i-th to its (j-1)-th
   * date keeps exactly those dates.
   */
  lemma StretchOfAscending(s: seq<Date>, i: int, j: int)
    requires AllValid(s) && StrictlyAscending(s) && 0 <= i < j <= |s|
    ensures InRange(s, AtMidnight(s[i]), AtMidnight(s[j - 1])) == s[i..j]
  {
    var lo, hi := AtMidnight(s[i]), AtMidnight(s[j - 1]);
    forall k | 0 <= k < i ensures !Within(s[k], lo, hi) {
      assert DayNumber(s[k]) < DayNumber(s[i]);
    }
    forall k | i <= k < j ensures Within(s[k], lo, hi) {
      assert DayNumber(s[i]) <= DayNumber(s[k]) <= DayNumber(s[j - 1]);
    }
    forall k | j <= k < |s| ensures !Within(s[k], lo, hi) {
      assert DayNumber(s[j - 1]) < DayNumber(s[k]);
    }
    InRangeSlice(s, lo, hi, i, j);
  }

  /** Joining two increasing lists, the first wholly before the second, is increasing. */
  lemma StrictlyAscendingAppend(a: seq<Date>, b: seq<Date>)
    requires StrictlyAscending(a) && StrictlyAscending(b)
    requires forall i, j :: 0 <= i < |a| && 0 <= j < |b| ==> DayNumber(a[i]) < DayNumber(b[j])
    ensures StrictlyAscending(a + b)
  {
  }

  /** Adjacent steps that increase make the whole list increase. */
  lemma {:induction false} AdjacentStrict(s: seq<Date>)
    requires forall i :: 0 < i < |s| ==> DayNumber(s[i - 1]) < DayNumber(s[i])
    ensures StrictlyAscending(s)
  {
    if |s| > 1 {
      AdjacentStrict(s[1..]);
      assert forall j :: 0 < j < |s| ==> DayNumber(s[0]) < DayNumber(s[j]) by {
        forall j | 0 < j < |s| ensures DayNumber(s[0]) < DayNumber(s[j]) {
          if j > 1 {
            assert DayNumber(s[1..][0]) < DayNumber(s[1..][j - 1]);
          }
        }
      }
    }
  }

  /**
   * Sorting is unique on valid dates: two ascending lists holding the same dates in the
   * same numbers are equal, because no two valid dates share a day number.
   */
  lemma {:induction false} AscendingPermutationUnique(a: seq<Date>, b: seq<Date>)
    requires AllValid(a) && Ascending(a) && Ascending(b)
    requires multiset(a) == multiset(b)
    ensures a == b
    decreases |a|
  {
    if a == [] {
      assert |b| == |multiset(b)| == 0;
    } else {
      HeadsEqual(a, b);
      Tail(a);
      Tail(b);
      assert multiset(a[1..]) == multiset(a) - multiset{a[0]};
      assert multiset(b[1..]) == multiset(b) - multiset{b[0]};
      AscendingPermutationUnique(a[1..], b[1..]);
    }
  }

  /** Dropping the first date keeps the list's properties and removes one occurrence. */
  lemma Tail(a: seq<Date>)
    requires a != []
    ensures multiset(a) == multiset{a[0]} + multiset(a[1..])
    ensures Ascending(a) ==> Ascending(a[1..])
    ensures AllValid(a) ==> AllValid(a[1..])
  {
    assert a == [a[0]] + a[1..];
  }

  /** Two ascending permutations of valid dates start with the same date. */
  lemma HeadsEqual(a: seq<Date>, b: seq<Date>)
    requires AllValid(a) && Ascending(a) && Ascending(b) && a != []
    requires multiset(a) == multiset(b)
    ensures b != [] && a[0] == b[0]
  {
    assert a[0] in multiset(b);
    assert b[0] in multiset(a);
    var i :| 0 <= i < |a| && a[i] == b[0];
    var j :| 0 <= j < |b| && b[j] == a[0];
    DayNumberOrder(a[0], b[0]);
  }

  /** A sorted copy holds only dates of the original list. */
  lemma SortedMembers(s: seq<Date>)
    ensures forall d :: d in SortByDate(s) <==> d in s
  {
    forall d ensures d in SortByDate(s) <==> d in s {
      if d in SortByDate(s) {
        MultisetMember(d, SortByDate(s), s);
      }
      if d in s {
        MultisetMember(d, s, SortByDate(s));
      }
    }
  }
}
