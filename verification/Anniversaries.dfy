/** Recurring dates: the next occurrence and the upcoming list. */
module Anniversaries {
  import opened Wrappers
  import opened Calendar

  datatype Repeat = Once | Yearly | Monthly

  datatype Anniversary = Anniversary(target: Date, repeat_: Repeat)

  const MAX_YEAR: int := 9999

  /** The target day in a given month, moved back to the month's last day when the month is shorter. */
  function Clamp(year: int, month: int, day: int): (d: Date)
    requires 1 <= day && 1 <= month <= 12
    ensures d.year == year && d.month == month && 1 <= d.day <= MonthLength(year, month) && d.day <= day
  {
    Date(year, month, if day <= MonthLength(year, month) then day else MonthLength(year, month))
  }

  predicate Representable(d: Date) {
    ValidDate(d) && d.year <= MAX_YEAR
  }

  /** `get_next_occurrence`; no date exists after the last representable year, and the code raises there. */
  function NextOccurrence(a: Anniversary, from: Date): Option<Date>
    requires Representable(a.target) && Representable(from)
  {
    match a.repeat_
    case Once => Some(a.target)
    case Yearly =>
      var thisYear := Clamp(from.year, a.target.month, a.target.day);
      if !Earlier(thisYear, from) then Some(thisYear)
      else if from.year == MAX_YEAR then None
      else Some(Clamp(from.year + 1, a.target.month, a.target.day))
    case Monthly =>
      var thisMonth := Clamp(from.year, from.month, a.target.day);
      if !Earlier(thisMonth, from) then Some(thisMonth)
      else if from.month < 12 then Some(Clamp(from.year, from.month + 1, a.target.day))
      else if from.year == MAX_YEAR then None
      else Some(Clamp(from.year + 1, 1, a.target.day))
  }

  /** The target's day, or the last day of a month that does not have it. */
  predicate OnDay(d: Date, day: int) {
    d.day == day || (d.day < day && d.day == MonthLength(d.year, d.month))
  }

  /** The recurrence dates of the rule. */
  predicate Occurs(a: Anniversary, d: Date) {
    && ValidDate(d) && d.year <= 9999
    && match a.repeat_
       case Once => d == a.target
       case Yearly => d.month == a.target.month && OnDay(d, a.target.day)
       case Monthly => OnDay(d, a.target.day)
  }

  lemma NextInFieldOrder(a: Anniversary, from: Date, d: Date)
    requires Representable(a.target) && Representable(from) && a.repeat_ != Once
    ensures match NextOccurrence(a, from)
            case Some(next) =>
              Occurs(a, next) && !Earlier(next, from) && (Occurs(a, d) && !Earlier(d, from) ==> !Earlier(d, next))
            case None => !(Occurs(a, d) && !Earlier(d, from))
  {
  }

  /** The result is the least recurrence date on or after the given day, and the code raises exactly when the
      calendar holds none. */
  lemma NextIsLeast(a: Anniversary, from: Date, d: Date)
    requires Representable(a.target) && Representable(from) && a.repeat_ != Once
    ensures match NextOccurrence(a, from)
            case Some(next) =>
              && Occurs(a, next) && Ordinal(from) <= Ordinal(next)
              && (Occurs(a, d) && Ordinal(from) <= Ordinal(d) ==> Ordinal(next) <= Ordinal(d))
            case None => !(Occurs(a, d) && Ordinal(from) <= Ordinal(d))
  {
    NextInFieldOrder(a, from, d);
    var next := NextOccurrence(a, from);
    if next.Some? { OrdinalOrder(next.value, from); }
    if Occurs(a, d) {
      OrdinalOrder(d, from);
      if next.Some? { OrdinalOrder(d, next.value); }
    }
  }

  predicate Within(d: Date, from: Date, days: int)
    requires 1 <= d.month <= 12 && 1 <= from.month <= 12
  {
    0 <= Ordinal(d) - Ordinal(from) <= days
  }

  /** A yearly date comes round within 365 days, a monthly one within 30. */
  lemma NextIsNear(a: Anniversary, from: Date)
    requires Representable(a.target) && Representable(from)
    ensures var next := NextOccurrence(a, from);
            && (a.repeat_ == Yearly && next.Some? ==> Within(next.value, from, 365))
            && (a.repeat_ == Monthly && next.Some? ==> Within(next.value, from, 30))
  {
    match a.repeat_
    case Once =>
    case Yearly => YearlyIsNear(a.target.month, a.target.day, from);
    case Monthly => MonthlyIsNear(a.target.day, from);
  }

  /** From one year to the next, the same clamped date is at most 366 days away. */
  lemma YearApart(year: int, month: int, day: int)
    requires 1 <= month <= 12 && 1 <= day && 1 <= year
    ensures Ordinal(Clamp(year + 1, month, day)) - Ordinal(Clamp(year, month, day)) <= 366
  {
    YearLengths(year);
    if month <= 2 {
      assert DaysBeforeMonth(year, month) == DaysBeforeMonth(year + 1, month);
    } else {
      AfterFebruary(year, month);
      AfterFebruary(year + 1, month);
      LeapsApart(year);
    }
  }

  lemma LeapsApart(year: int)
    ensures !(IsLeap(year) && IsLeap(year + 1))
  {
    LeapNesting(year);
    LeapNesting(year + 1);
  }

  /** The day count at the start of a month after February, up to the leap day. */
  lemma {:induction false} AfterFebruary(year: int, month: int)
    requires 3 <= month <= 12
    ensures DaysBeforeMonth(year, month) == DaysBeforeMonth(1, month) + (if IsLeap(year) then 1 else 0)
  {
    if month == 3 {
      assert DaysBeforeMonth(year, 3) == MonthLength(year, 1) + MonthLength(year, 2);
      assert DaysBeforeMonth(1, 3) == MonthLength(1, 1) + MonthLength(1, 2);
    } else {
      AfterFebruary(year, month - 1);
    }
  }

  lemma SameYearNear(d: Date, from: Date)
    requires ValidDate(d) && ValidDate(from) && d.year == from.year && !Earlier(d, from)
    ensures Within(d, from, 365)
  {
    OrdinalOrder(d, from);
    DayOfYear(d);
    DayOfYear(from);
  }

  lemma NextYearNear(month: int, day: int, from: Date)
    requires 1 <= month <= 12 && 1 <= day && ValidDate(from) && Earlier(Clamp(from.year, month, day), from)
    ensures Within(Clamp(from.year + 1, month, day), from, 365)
  {
    OrdinalOrder(Clamp(from.year, month, day), from);
    YearApart(from.year, month, day);
    OrdinalOrder(from, Clamp(from.year + 1, month, day));
  }

  lemma YearlyIsNear(month: int, day: int, from: Date)
    requires 1 <= month <= 12 && 1 <= day && ValidDate(from)
    ensures var thisYear := Clamp(from.year, month, day);
            if !Earlier(thisYear, from) then Within(thisYear, from, 365)
            else Within(Clamp(from.year + 1, month, day), from, 365)
  {
    var thisYear := Clamp(from.year, month, day);
    if !Earlier(thisYear, from) { SameYearNear(thisYear, from); } else { NextYearNear(month, day, from); }
  }

  lemma NextMonthNear(day: int, from: Date)
    requires 1 <= day < from.day && ValidDate(from) && from.month < 12
    ensures Within(Clamp(from.year, from.month + 1, day), from, 30)
  {
    assert DaysBeforeMonth(from.year, from.month + 1) == DaysBeforeMonth(from.year, from.month)
        + MonthLength(from.year, from.month);
  }

  lemma JanuaryNear(day: int, from: Date)
    requires 1 <= day < from.day && ValidDate(from) && from.month == 12
    ensures Within(Clamp(from.year + 1, 1, day), from, 30)
  {
    YearLengths(from.year);
    MonthLengthsSum(from.year);
    assert DaysBeforeMonth(from.year, 13) == DaysBeforeMonth(from.year, 12) + 31;
  }

  lemma MonthlyIsNear(day: int, from: Date)
    requires 1 <= day && ValidDate(from)
    ensures var thisMonth := Clamp(from.year, from.month, day);
            if !Earlier(thisMonth, from) then Within(thisMonth, from, 30)
            else if from.month < 12 then Within(Clamp(from.year, from.month + 1, day), from, 30)
            else Within(Clamp(from.year + 1, 1, day), from, 30)
  {
    if day < from.day {
      if from.month < 12 { NextMonthNear(day, from); } else { JanuaryNear(day, from); }
    }
  }

  // ---------- the upcoming list ----------

  datatype Entry = Entry(anniversary: Anniversary, next: Date, daysUntil: int)

  /** The sort key order: days ahead before days past, each nearest first. */
  predicate SortsBefore(a: Entry, b: Entry) {
    || (a.daysUntil >= 0 && b.daysUntil < 0)
    || (a.daysUntil >= 0 && b.daysUntil >= 0 && a.daysUntil < b.daysUntil)
    || (a.daysUntil < 0 && b.daysUntil < 0 && -a.daysUntil < -b.daysUntil)
  }

  function InsertEntry(es: seq<Entry>, e: Entry): seq<Entry> {
    if es == [] then [e]
    else
      var n := |es| - 1;
      if SortsBefore(e, es[n]) then InsertEntry(es[..n], e) + [es[n]] else es + [e]
  }

  /** A stable sort by the key. */
  function SortEntries(es: seq<Entry>): seq<Entry> {
    if es == [] then [] else InsertEntry(SortEntries(es[..|es| - 1]), es[|es| - 1])
  }

  ghost predicate Sorted(es: seq<Entry>) {
    forall i, j :: 0 <= i < j < |es| ==> !SortsBefore(es[j], es[i])
  }

  lemma {:induction false} InsertPermutes(es: seq<Entry>, e: Entry)
    ensures multiset(InsertEntry(es, e)) == multiset(es) + multiset{e}
  {
    if es != [] {
      var n := |es| - 1;
      assert es == es[..n] + [es[n]];
      if SortsBefore(e, es[n]) { InsertPermutes(es[..n], e); }
    }
  }

  lemma SortedAppend(es: seq<Entry>, e: Entry)
    requires Sorted(es) && forall x :: x in es ==> !SortsBefore(e, x)
    ensures Sorted(es + [e])
  {
  }

  lemma {:induction false} InsertSorts(es: seq<Entry>, e: Entry)
    requires Sorted(es)
    ensures Sorted(InsertEntry(es, e))
  {
    if es == [] {
    } else if SortsBefore(e, es[|es| - 1]) {
      var n := |es| - 1;
      InsertSorts(es[..n], e);
      InsertPermutes(es[..n], e);
      var r := InsertEntry(es[..n], e);
      forall x | x in r ensures !SortsBefore(es[n], x) {
        assert x in multiset(r);
        if x != e {
          assert x in multiset(es[..n]);
          var k :| 0 <= k < n && es[k] == x;
        }
      }
      SortedAppend(r, es[n]);
    } else {
      var n := |es| - 1;
      forall x | x in es ensures !SortsBefore(e, x) {
        var k :| 0 <= k < |es| && es[k] == x;
        assert k < n ==> !SortsBefore(es[n], es[k]);
      }
      SortedAppend(es, e);
    }
  }

  lemma {:induction false} SortEntriesSorts(es: seq<Entry>)
    ensures Sorted(SortEntries(es)) && multiset(SortEntries(es)) == multiset(es)
  {
    if es != [] {
      var n := |es| - 1;
      assert es == es[..n] + [es[n]];
      SortEntriesSorts(es[..n]);
      InsertSorts(SortEntries(es[..n]), es[n]);
      InsertPermutes(SortEntries(es[..n]), es[n]);
    }
  }

  function Take(es: seq<Entry>, limit: nat): seq<Entry> {
    if limit < |es| then es[..limit] else es
  }

  /** Every coming date precedes every past one; coming dates ascend, past ones recede. */
  ghost predicate ComingFirst(es: seq<Entry>) {
    forall i, j :: 0 <= i < j < |es| ==>
      && (es[j].daysUntil >= 0 ==> 0 <= es[i].daysUntil <= es[j].daysUntil)
      && (es[i].daysUntil < 0 ==> es[j].daysUntil <= es[i].daysUntil)
  }

  /** The shown entries are among all of them, in that order, and none that was left out sorts before a shown one. */
  ghost predicate ShownFirst(all: seq<Entry>, shown: seq<Entry>) {
    && multiset(shown) <= multiset(all) && ComingFirst(shown)
    && forall i, x :: 0 <= i < |shown| && x in multiset(all) - multiset(shown) ==> !SortsBefore(x, shown[i])
  }

  lemma RestSortsLater(r: seq<Entry>, limit: nat, i: nat, x: Entry)
    requires Sorted(r) && i < limit <= |r| && x in multiset(r) - multiset(r[..limit])
    ensures !SortsBefore(x, r[i])
  {
    assert r == r[..limit] + r[limit..];
    assert x in multiset(r[limit..]);
    var k :| 0 <= k < |r[limit..]| && r[limit..][k] == x;
    assert x == r[limit + k];
  }

  lemma UpcomingOrder(es: seq<Entry>, limit: nat)
    ensures var shown := Take(SortEntries(es), limit);
            ShownFirst(es, shown) && |shown| == if limit < |es| then limit else |es|
  {
    SortEntriesSorts(es);
    var r := SortEntries(es);
    assert |r| == |multiset(r)| == |multiset(es)| == |es|;
    if limit < |r| {
      assert r == r[..limit] + r[limit..];
      forall i, x | 0 <= i < limit && x in multiset(es) - multiset(r[..limit]) ensures !SortsBefore(x, r[..limit][i]) {
        RestSortsLater(r, limit, i, x);
      }
    }
  }

  /** The unsorted entries; none when some date cannot be represented. */
  function EntriesFor(anniversaries: seq<Anniversary>, today: Date): Option<seq<Entry>>
    requires Representable(today) && forall i :: 0 <= i < |anniversaries| ==> Representable(anniversaries[i].target)
  {
    if anniversaries == [] then Some([])
    else
      var n := |anniversaries| - 1;
      var front := EntriesFor(anniversaries[..n], today);
      var next := NextOccurrence(anniversaries[n], today);
      if front.None? || next.None? then None
      else Some(front.value + [Entry(anniversaries[n], next.value, Ordinal(next.value) - Ordinal(today))])
  }

  lemma {:induction false} MissingEntryStays(anniversaries: seq<Anniversary>, today: Date, i: nat)
    requires Representable(today) && forall k :: 0 <= k < |anniversaries| ==> Representable(anniversaries[k].target)
    requires i <= |anniversaries| && EntriesFor(anniversaries[..i], today).None?
    ensures EntriesFor(anniversaries, today).None?
  {
    var n := |anniversaries| - 1;
    if i == |anniversaries| {
      assert anniversaries[..i] == anniversaries;
    } else {
      assert anniversaries[..n][..i] == anniversaries[..i];
      MissingEntryStays(anniversaries[..n], today, i);
    }
  }

  /** No recurrence date is left in the calendar. */
  ghost predicate RunsOut(a: Anniversary, today: Date)
    requires ValidDate(today)
  {
    a.repeat_ != Once && forall d :: Occurs(a, d) ==> Ordinal(d) < Ordinal(today)
  }

  ghost predicate SomeRunsOut(anniversaries: seq<Anniversary>, today: Date)
    requires ValidDate(today)
  {
    exists i :: 0 <= i < |anniversaries| && RunsOut(anniversaries[i], today)
  }

  /** The first recurrence from today on, or the one date there is, with the days until then. */
  ghost predicate EntryOf(a: Anniversary, today: Date, e: Entry)
    requires ValidDate(today)
  {
    && e.anniversary == a && Occurs(a, e.next) && e.daysUntil == Ordinal(e.next) - Ordinal(today)
    && (a.repeat_ != Once ==>
          && 0 <= e.daysUntil
          && forall d :: Occurs(a, d) && Ordinal(today) <= Ordinal(d) ==> Ordinal(e.next) <= Ordinal(d))
  }

  ghost predicate EntriesOf(anniversaries: seq<Anniversary>, today: Date, all: seq<Entry>)
    requires ValidDate(today)
  {
    |all| == |anniversaries| && forall i :: 0 <= i < |all| ==> EntryOf(anniversaries[i], today, all[i])
  }

  /** Refused when some date does not come round any more; otherwise the first of all entries, coming dates before past
      ones. */
  ghost predicate UpcomingAs(anniversaries: seq<Anniversary>, today: Date, limit: nat, r: Option<seq<Entry>>)
    requires ValidDate(today)
  {
    && (r.None? <==> SomeRunsOut(anniversaries, today))
    && (r.Some? ==>
          exists all :: EntriesOf(anniversaries, today, all) && ShownFirst(all, r.value)
                        && |r.value| == if limit < |all| then limit else |all|)
  }

  lemma EntryExactly(a: Anniversary, today: Date)
    requires Representable(a.target) && Representable(today)
    ensures match NextOccurrence(a, today)
            case Some(next) => EntryOf(a, today, Entry(a, next, Ordinal(next) - Ordinal(today))) && !RunsOut(a, today)
            case None => RunsOut(a, today)
  {
    if a.repeat_ != Once {
      forall d
        ensures match NextOccurrence(a, today)
                case Some(next) =>
                  && Occurs(a, next) && Ordinal(today) <= Ordinal(next)
                  && (Occurs(a, d) && Ordinal(today) <= Ordinal(d) ==> Ordinal(next) <= Ordinal(d))
                case None => !(Occurs(a, d) && Ordinal(today) <= Ordinal(d))
      {
        NextIsLeast(a, today, d);
      }
    }
  }

  lemma {:induction false} EntriesExactly(anniversaries: seq<Anniversary>, today: Date)
    requires Representable(today) && forall i :: 0 <= i < |anniversaries| ==> Representable(anniversaries[i].target)
    ensures EntriesFor(anniversaries, today).Some? ==>
              EntriesOf(anniversaries, today, EntriesFor(anniversaries, today).value)
    ensures EntriesFor(anniversaries, today).None? <==> SomeRunsOut(anniversaries, today)
  {
    if anniversaries != [] {
      var front := anniversaries[..|anniversaries| - 1];
      EntriesExactly(front, today);
      EntryExactly(anniversaries[|front|], today);
      assert anniversaries == front + [anniversaries[|front|]];
      RunsOutLater(front, anniversaries[|front|], today);
    }
  }

  lemma RunsOutLater(front: seq<Anniversary>, a: Anniversary, today: Date)
    requires ValidDate(today)
    ensures SomeRunsOut(front + [a], today) <==> SomeRunsOut(front, today) || RunsOut(a, today)
  {
    var more := front + [a];
    if i :| 0 <= i < |front| && RunsOut(front[i], today) { assert more[i] == front[i]; }
    assert more[|front|] == a;
  }

  lemma UpcomingExactly(anniversaries: seq<Anniversary>, today: Date, limit: nat)
    requires Representable(today) && forall i :: 0 <= i < |anniversaries| ==> Representable(anniversaries[i].target)
    ensures UpcomingAs(anniversaries, today, limit,
                       match EntriesFor(anniversaries, today)
                       case None => None
                       case Some(all) => Some(Take(SortEntries(all), limit)))
  {
    EntriesExactly(anniversaries, today);
    var all := EntriesFor(anniversaries, today);
    if all.Some? { UpcomingOrder(all.value, limit); }
  }

  /** Build the entries. */
  method CollectEntries(anniversaries: seq<Anniversary>, today: Date) returns (r: Option<seq<Entry>>)
    requires Representable(today) && forall i :: 0 <= i < |anniversaries| ==> Representable(anniversaries[i].target)
    ensures r == EntriesFor(anniversaries, today)
  {
    var results: seq<Entry> := [];
    var i := 0;
    while i < |anniversaries|
      invariant 0 <= i <= |anniversaries|
      invariant EntriesFor(anniversaries[..i], today) == Some(results)
    {
      assert anniversaries[..i + 1][..i] == anniversaries[..i];
      var next := NextOccurrence(anniversaries[i], today);
      if next.None? {
        MissingEntryStays(anniversaries, today, i + 1);
        return None;
      }
      results := results + [Entry(anniversaries[i], next.value, Ordinal(next.value) - Ordinal(today))];
      i := i + 1;
    }
    assert anniversaries[..i] == anniversaries;
    return Some(results);
  }

  /** `get_upcoming_anniversaries`: build the entries, sort, and keep the first `limit`. */
  method Upcoming(anniversaries: seq<Anniversary>, today: Date, limit: nat) returns (r: Option<seq<Entry>>)
    requires Representable(today) && forall i :: 0 <= i < |anniversaries| ==> Representable(anniversaries[i].target)
    ensures match EntriesFor(anniversaries, today)
            case None => r.None?
            case Some(all) => r == Some(Take(SortEntries(all), limit))
    ensures UpcomingAs(anniversaries, today, limit, r)
  {
    UpcomingExactly(anniversaries, today, limit);
    var results := CollectEntries(anniversaries, today);
    if results.None? {
      return None;
    }
    return Some(Take(SortEntries(results.value), limit));
  }
}
