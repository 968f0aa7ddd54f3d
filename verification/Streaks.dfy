/** The sign-in streak: consecutive local dates of the log, seen against the reset windows the guard counts. */
module Streaks {
  import opened Wrappers
  import opened SignIn
  import opened SignInEffects
  import Runs = WalletRuns

  const LOG_LIMIT: nat := 365

  /** The instants of the latest log rows. */
  function Latest(signs: seq<SignedIn>): (logs: seq<int>)
    ensures |logs| == if |signs| > LOG_LIMIT then LOG_LIMIT else |signs|
    ensures forall i :: 0 <= i < |logs| ==> logs[i] == signs[|signs| - |logs| + i].visit.logged
  {
    var n := if |signs| > LOG_LIMIT then LOG_LIMIT else |signs|;
    seq(n, i requires 0 <= i < n => signs[|signs| - n + i].visit.logged)
  }

  function SignDates(logs: seq<int>): set<int> {
    set i | 0 <= i < |logs| :: LocalDay(logs[i])
  }

  /** The longest run of consecutive dates in the set that ends today has this length. */
  ghost predicate IsStreak(dates: set<int>, today: int, days: nat) {
    (forall d :: today - days < d <= today ==> d in dates) && today - days !in dates
  }

  lemma StreakIsUnique(dates: set<int>, today: int, m: nat, n: nat)
    requires IsStreak(dates, today, m) && IsStreak(dates, today, n)
    ensures m == n
  {
  }

  method CountBack(dates: set<int>, today: int) returns (days: nat)
    ensures IsStreak(dates, today, days)
  {
    days := 0;
    var check := today;
    ghost var pending := dates;
    while check in dates
      invariant check == today - days
      invariant forall d :: check < d <= today ==> d in dates
      invariant forall d :: d in dates && d <= check ==> d in pending
      decreases pending
    {
      pending := pending - {check};
      days := days + 1;
      check := check - 1;
    }
  }

  // ---------- dates against windows ----------

  /** At or after the midnight inside its window. */
  predicate Late(x: int, resetHour: int) {
    (WindowIndex(x, resetHour) + 1) * DAY <= x
  }

  function LateDay(x: int, resetHour: int): int {
    if Late(x, resetHour) then 1 else 0
  }

  /** The local date is the window's, or the next one from midnight on. */
  lemma DateInWindow(x: int, resetHour: int)
    requires 0 <= resetHour < 24
    ensures LocalDay(x) == WindowIndex(x, resetHour) + LateDay(x, resetHour)
  {
    var d, k := LocalDay(x), WindowIndex(x, resetHour);
    assert d * DAY <= x < (d + 1) * DAY && k * DAY <= x - resetHour * HOUR < (k + 1) * DAY;
    if d < k { DaysApart(d + 1, k); }
    if k + 1 < d { DaysApart(k + 2, d); }
  }

  /** The windows between two sign-ins let the streak go on. */
  predicate Continues(a: int, b: int, resetHour: int) {
    var apart := WindowIndex(b, resetHour) - WindowIndex(a, resetHour);
    || apart == 0
    || (apart == 1 && (Late(a, resetHour) || !Late(b, resetHour)))
    || (apart == 2 && Late(a, resetHour) && !Late(b, resetHour))
  }

  /** When the dates of two sign-ins have no gap, for every reset hour. In adjacent windows there is a gap exactly
      when the first sign-in comes before its window's midnight and the second at or after its own; and one missed
      window leaves none exactly when the first comes at or after midnight and the second before. */
  lemma NoGapExactly(a: int, b: int, resetHour: int)
    requires 0 <= resetHour < 24 && a <= b
    ensures LocalDay(b) <= LocalDay(a) + 1 <==> Continues(a, b, resetHour)
    ensures WindowStart(b, resetHour) == WindowEnd(a, resetHour) ==>
              (LocalDay(b) <= LocalDay(a) + 1 <==> !(!Late(a, resetHour) && Late(b, resetHour)))
  {
    DateInWindow(a, resetHour);
    DateInWindow(b, resetHour);
    WindowAt(a, resetHour);
    WindowAt(b, resetHour);
    var k, l := WindowIndex(a, resetHour), WindowIndex(b, resetHour);
    if l < k { DaysApart(l + 1, k); }
  }

  // ---------- the streak over runs ----------

  ghost predicate Ascending(logs: seq<int>) {
    forall i, j :: 0 <= i < j < |logs| ==> logs[i] <= logs[j]
  }

  lemma DayAscends(a: int, b: int)
    requires a <= b
    ensures LocalDay(a) <= LocalDay(b)
  {
    if LocalDay(b) < LocalDay(a) { DaysApart(LocalDay(b) + 1, LocalDay(a)); }
  }

  /** No two neighbours from this row on leave a date out. */
  ghost predicate NoGapFrom(logs: seq<int>, j: nat, resetHour: int) {
    forall i :: j < i < |logs| ==> Continues(logs[i - 1], logs[i], resetHour)
  }

  lemma {:induction false} DayCovered(logs: seq<int>, j: nat, n: nat, day: int, resetHour: int) returns (i: nat)
    requires 0 <= resetHour < 24 && Ascending(logs) && j <= n < |logs| && NoGapFrom(logs, j, resetHour)
    requires LocalDay(logs[j]) <= day <= LocalDay(logs[n])
    ensures i < |logs| && LocalDay(logs[i]) == day
    decreases n
  {
    if day == LocalDay(logs[n]) {
      i := n;
    } else {
      NoGapExactly(logs[n - 1], logs[n], resetHour);
      i := DayCovered(logs, j, n - 1, day, resetHour);
    }
  }

  lemma NoDayBefore(logs: seq<int>, j: nat, i: nat, resetHour: int)
    requires 0 <= resetHour < 24 && Ascending(logs) && i < |logs| && j < |logs|
    requires j == 0 || !Continues(logs[j - 1], logs[j], resetHour)
    ensures LocalDay(logs[i]) != LocalDay(logs[j]) - 1
  {
    if i < j {
      if i < j - 1 { DayAscends(logs[i], logs[j - 1]); }
      NoGapExactly(logs[j - 1], logs[j], resetHour);
    } else if j < i {
      DayAscends(logs[j], logs[i]);
    }
  }

  /** The streak starts with the date of the row behind the last gap. */
  lemma StreakSinceGap(logs: seq<int>, j: nat, resetHour: int, days: nat)
    requires 0 <= resetHour < 24 && Ascending(logs) && j < |logs| && NoGapFrom(logs, j, resetHour)
    requires j == 0 || !Continues(logs[j - 1], logs[j], resetHour)
    requires IsStreak(SignDates(logs), LocalDay(logs[|logs| - 1]), days)
    ensures days == LocalDay(logs[|logs| - 1]) - LocalDay(logs[j]) + 1
  {
    var n := |logs| - 1;
    var today := LocalDay(logs[n]);
    if j < n { DayAscends(logs[j], logs[n]); }
    var length := today - LocalDay(logs[j]) + 1;
    forall d | today - length < d <= today ensures d in SignDates(logs) {
      var i := DayCovered(logs, j, n, d, resetHour);
    }
    forall i | 0 <= i < |logs| ensures LocalDay(logs[i]) != today - length {
      NoDayBefore(logs, j, i, resetHour);
    }
    StreakIsUnique(SignDates(logs), today, days, length);
  }

  lemma {:induction false} LastGap(logs: seq<int>, n: nat, resetHour: int) returns (j: nat)
    requires n < |logs| && NoGapFrom(logs, n, resetHour)
    ensures j <= n && NoGapFrom(logs, j, resetHour) && (j == 0 || !Continues(logs[j - 1], logs[j], resetHour))
    decreases n
  {
    if n == 0 || !Continues(logs[n - 1], logs[n], resetHour) {
      j := n;
    } else {
      j := LastGap(logs, n - 1, resetHour);
    }
  }

  lemma LatestAscend(signs: seq<SignedIn>)
    requires SignsOrdered(signs)
    ensures Ascending(Latest(signs))
  {
    var logs := Latest(signs);
    var first := |signs| - |logs|;
    forall i, j | 0 <= i < j < |logs| ensures logs[i] <= logs[j] {
      assert Before(signs[first + i].visit, signs[first + j].visit);
    }
  }

  /** The streak answered for the last of these sign-ins. */
  ghost predicate Answered(signs: seq<SignedIn>, days: nat) {
    && signs != []
    && IsStreak(SignDates(Latest(signs)), LocalDay(signs[|signs| - 1].visit.clock), days)
  }

  /** One of the last 365 rows carries this day's number. */
  ghost predicate DayLogged(signs: seq<SignedIn>, day: int) {
    exists i :: 0 <= i < |signs| && |signs| - 365 <= i && signs[i].visit.logged / 86_400_000_000 == day
  }

  /** So many days in a row up to the day of the last request's clock carry a row, and the day before them does not. */
  ghost predicate DaysInARow(signs: seq<SignedIn>, days: nat) {
    && signs != []
    && (var today := signs[|signs| - 1].visit.clock / 86_400_000_000;
        && !DayLogged(signs, today - days)
        && forall d :: today - days < d <= today ==> DayLogged(signs, d))
  }

  lemma DatesExactly(signs: seq<SignedIn>, day: int)
    ensures day in SignDates(Latest(signs)) <==> DayLogged(signs, day)
  {
    var logs := Latest(signs);
    var first := |signs| - |logs|;
    if day in SignDates(logs) {
      var i :| 0 <= i < |logs| && LocalDay(logs[i]) == day;
      assert signs[first + i].visit.logged / 86_400_000_000 == day;
    }
    if DayLogged(signs, day) {
      var i :| 0 <= i < |signs| && |signs| - 365 <= i && signs[i].visit.logged / 86_400_000_000 == day;
      assert logs[i - first] == signs[i].visit.logged && LocalDay(logs[i - first]) == day;
    }
  }

  lemma AnsweredExactly(signs: seq<SignedIn>, days: nat)
    requires Answered(signs, days)
    ensures DaysInARow(signs, days)
  {
    var today := LocalDay(signs[|signs| - 1].visit.clock);
    DatesExactly(signs, today - days);
    forall d | today - days < d <= today ensures DayLogged(signs, d) {
      DatesExactly(signs, d);
    }
  }

  /** The last row carries the date of its clock. */
  predicate DatedToday(signs: seq<SignedIn>) {
    signs != [] && LocalDay(signs[|signs| - 1].visit.logged) == LocalDay(signs[|signs| - 1].visit.clock)
  }

  /** The streak counts the dates from the row behind the last neighbours whose windows leave a gap. */
  lemma StreakExactly(signs: seq<SignedIn>, resetHour: int, days: nat) returns (j: nat)
    requires 0 <= resetHour < 24 && SignsOrdered(signs) && DatedToday(signs) && Answered(signs, days)
    ensures var logs := Latest(signs);
            && j < |logs| && NoGapFrom(logs, j, resetHour) && (j == 0 || !Continues(logs[j - 1], logs[j], resetHour))
            && days == LocalDay(logs[|logs| - 1]) - LocalDay(logs[j]) + 1
  {
    LatestAscend(signs);
    j := LastGap(Latest(signs), |Latest(signs)| - 1, resetHour);
    StreakSinceGap(Latest(signs), j, resetHour, days);
  }

  /** One sign-in in each of consecutive windows. */
  ghost predicate NoWindowMissed(logs: seq<int>, resetHour: int) {
    forall i :: 0 < i < |logs| ==> WindowIndex(logs[i], resetHour) == WindowIndex(logs[i - 1], resetHour) + 1
  }

  /** Neighbours of which the first comes before its window's midnight and the second at or after its own. */
  ghost predicate EarlyThenLate(logs: seq<int>, resetHour: int) {
    exists i :: 0 < i < |logs| && !Late(logs[i - 1], resetHour) && Late(logs[i], resetHour)
  }

  lemma {:induction false} WindowsCounted(logs: seq<int>, n: nat, resetHour: int)
    requires n < |logs| && NoWindowMissed(logs, resetHour)
    ensures WindowIndex(logs[n], resetHour) == WindowIndex(logs[0], resetHour) + n
    decreases n
  {
    if n > 0 { WindowsCounted(logs, n - 1, resetHour); }
  }

  lemma GapBehind(logs: seq<int>, j: nat, resetHour: int)
    requires 0 <= resetHour < 24 && Ascending(logs) && 0 < j < |logs| && !Continues(logs[j - 1], logs[j], resetHour)
    ensures LocalDay(logs[0]) + 1 < LocalDay(logs[j])
  {
    NoGapExactly(logs[j - 1], logs[j], resetHour);
    if 0 < j - 1 { DayAscends(logs[0], logs[j - 1]); }
  }

  /** Signing in once in every window keeps the streak exactly when no sign-in before midnight is followed by one at or
      after it in the next window; the streak is then one per window, give or take the date two windows share. */
  lemma UnbrokenExactly(signs: seq<SignedIn>, resetHour: int, days: nat)
    requires 0 <= resetHour < 24 && SignsOrdered(signs) && DatedToday(signs) && Answered(signs, days)
    requires NoWindowMissed(Latest(signs), resetHour)
    ensures var logs := Latest(signs);
            var n := |logs| - 1;
            && (days == LocalDay(logs[n]) - LocalDay(logs[0]) + 1 <==> !EarlyThenLate(logs, resetHour))
            && (!EarlyThenLate(logs, resetHour) ==>
                  days == |logs| + LateDay(logs[n], resetHour) - LateDay(logs[0], resetHour))
  {
    var logs := Latest(signs);
    var j := StreakExactly(signs, resetHour, days);
    LatestAscend(signs);
    if j > 0 {
      GapBehind(logs, j, resetHour);
      assert !Late(logs[j - 1], resetHour) && Late(logs[j], resetHour);
    }
    WindowsCounted(logs, |logs| - 1, resetHour);
    DateInWindow(logs[0], resetHour);
    DateInWindow(logs[|logs| - 1], resetHour);
  }

  /** Over every run of requests, whatever else happens to the wallet. */
  lemma UnbrokenOverRuns(now: int, events: seq<Event>, resetHour: int, days: nat, signs: seq<SignedIn>)
    requires 0 <= resetHour < 24 && InOrder(events) && signs == Run(now, events, resetHour).signs
    requires DatedToday(signs) && Answered(signs, days) && NoWindowMissed(Latest(signs), resetHour)
    ensures days == LocalDay(Latest(signs)[|Latest(signs)| - 1]) - LocalDay(Latest(signs)[0]) + 1
            <==> !EarlyThenLate(Latest(signs), resetHour)
  {
    SignsFollowEvents(now, events, resetHour);
    UnbrokenExactly(signs, resetHour, days);
  }

  /** A row dated before its clock's local day leaves no streak at all, and only such a row does. */
  lemma NoStreakExactly(signs: seq<SignedIn>, days: nat)
    requires SignsOrdered(signs) && Answered(signs, days)
    requires signs[|signs| - 1].visit.logged <= signs[|signs| - 1].visit.clock
    ensures var v := signs[|signs| - 1].visit; days == 0 <==> LocalDay(v.logged) < LocalDay(v.clock)
  {
    var logs := Latest(signs);
    var n := |logs| - 1;
    var v := signs[|signs| - 1].visit;
    LatestAscend(signs);
    assert logs[n] == v.logged;
    DayAscends(v.logged, v.clock);
    if LocalDay(v.logged) < LocalDay(v.clock) {
      forall i | 0 <= i < |logs| ensures LocalDay(logs[i]) < LocalDay(v.clock) {
        if i < n { DayAscends(logs[i], logs[n]); }
      }
      StreakIsUnique(SignDates(logs), LocalDay(v.clock), days, 0);
    } else {
      assert LocalDay(v.clock) in SignDates(logs);
    }
  }

  // ---------- a run without a missed window whose streak breaks ----------

  function At(now: int): Visit {
    Visit(now, now, 10)
  }

  lemma ThirdVisit(b: Book, u: Visit, v: Visit, w: Visit, resetHour: int)
    requires |b.signs| == 2 && b.signs[0].visit == u && b.signs[1].visit == v
    requires !InWindow(u.logged, w.clock, resetHour) && !InWindow(v.logged, w.clock, resetHour)
    ensures var signs := Step(b, Visited(w), resetHour).signs;
            |signs| == 3 && signs[0].visit == u && signs[1].visit == v && signs[2].visit == w
  {
    StepSigns(b, Visited(w), resetHour);
  }

  lemma SignsOfThree(u: Visit, v: Visit, w: Visit, resetHour: int)
    requires !InWindow(u.logged, v.clock, resetHour)
    requires !InWindow(u.logged, w.clock, resetHour) && !InWindow(v.logged, w.clock, resetHour)
    ensures var signs := Run(0, [Visited(u), Visited(v), Visited(w)], resetHour).signs;
            && |signs| == 3 && signs[2].visit == w
            && Latest(signs) == [u.logged, v.logged, w.logged]
  {
    var two := [Visited(u), Visited(v)];
    TwoVisits(0, u, v, resetHour);
    ThirdVisit(Run(0, two, resetHour), u, v, w, resetHour);
    assert [Visited(u), Visited(v), Visited(w)][..2] == two;
  }

  lemma NoonWindow(now: int, day: int)
    requires day * DAY + 12 * HOUR <= now < (day + 1) * DAY + 12 * HOUR
    ensures WindowIndex(now, 12) == day && WindowStart(now, 12) == day * DAY + 12 * HOUR
    ensures Late(now, 12) <==> (day + 1) * DAY <= now
  {
    WindowAt(now, 12);
  }

  const THREE: seq<int> := [11 * HOUR, 13 * HOUR, 2 * DAY + 11 * HOUR]

  lemma ThreeWindows()
    ensures THREE[0] == 11 * HOUR && THREE[1] == 13 * HOUR && THREE[2] == 2 * DAY + 11 * HOUR
    ensures WindowIndex(THREE[0], 12) == -1 && WindowIndex(THREE[1], 12) == 0 && WindowIndex(THREE[2], 12) == 1
    ensures WindowStart(THREE[1], 12) == 12 * HOUR && WindowStart(THREE[2], 12) == DAY + 12 * HOUR
    ensures !Late(THREE[1], 12) && Late(THREE[2], 12)
  {
    NoonWindow(THREE[0], -1);
    NoonWindow(THREE[1], 0);
    NoonWindow(THREE[2], 1);
  }

  lemma RowsOfThree(signs: seq<SignedIn>)
    requires signs == Run(0, [Visited(At(THREE[0])), Visited(At(THREE[1])), Visited(At(THREE[2]))], 12).signs
    ensures |signs| == 3 && signs[2].visit == At(THREE[2]) && Latest(signs) == THREE
  {
    ThreeWindows();
    SignsOfThree(At(THREE[0]), At(THREE[1]), At(THREE[2]), 12);
  }

  /** The window guard counts resets while the streak counts calendar dates: signing in at eleven, at one the same
      day, and at eleven two days later fills three consecutive windows and leaves a streak of one. */
  lemma StreakCanBreakWithoutMissingAWindow(days: nat, signs: seq<SignedIn>)
    requires signs == Run(0, [Visited(At(THREE[0])), Visited(At(THREE[1])), Visited(At(THREE[2]))], 12).signs
    requires Answered(signs, days)
    ensures Latest(signs) == THREE && NoWindowMissed(THREE, 12) && days == 1
  {
    RowsOfThree(signs);
    ThreeWindows();
    StreakSinceGap(THREE, 2, 12, days);
  }

  // ---------- the service ----------

  lemma SignedInOrder(b: Book, v: Visit, resetHour: int)
    requires BookOk(b, resetHour) && SignsOrdered(b.signs)
    requires forall i :: 0 <= i < |b.signs| ==> Before(b.signs[i].visit, v)
    ensures BookOk(SignInAt(b, v, resetHour), resetHour) && SignsOrdered(SignInAt(b, v, resetHour).signs)
  {
    VisitKeeps(b, v, resetHour);
    StepSigns(b, Visited(v), resetHour);
  }

  /** The streak of the rows of these sign-ins, the last of which has just been written. */
  method CountStreak(signs: seq<SignedIn>) returns (days: nat)
    requires signs != [] && SignsOrdered(signs)
    ensures Answered(signs, days) && DaysInARow(signs, days)
    ensures var v := signs[|signs| - 1].visit;
            v.logged <= v.clock ==> (days == 0 <==> LocalDay(v.logged) < LocalDay(v.clock))
  {
    var v := signs[|signs| - 1].visit;
    days := CountBack(SignDates(Latest(signs)), LocalDay(v.clock));
    AnsweredExactly(signs, days);
    if v.logged <= v.clock { NoStreakExactly(signs, days); }
  }

  /** `daily_sign_in` as the service runs it, with the reset hour of its configuration. */
  class SignInService {
    const resetHour: int
    var book: Book

    ghost predicate Valid()
      reads this
    {
      BookOk(book, resetHour) && SignsOrdered(book.signs)
    }

    constructor (now: int, resetHour: int)
      ensures Valid() && this.resetHour == resetHour && book == Run(now, [], resetHour)
    {
      this.resetHour := resetHour;
      book := Book(Runs.Opened(now), []);
      new;
      RunKeeps(now, [], resetHour);
    }

    /** Refused when the window holds a row; otherwise the reward, a row, and the streak of local dates that ends on the
        clock's date. Requests of one user come one after the other. */
    method DailySignIn(v: Visit) returns (streak: Option<nat>)
      requires Valid() && forall i :: 0 <= i < |book.signs| ==> Before(book.signs[i].visit, v)
      modifies this
      ensures Valid()
      ensures book == SignInAt(old(book), v, resetHour)
      ensures streak.Some? <==> !SignedInWindow(old(book).signs, v.clock, resetHour)
      ensures streak.Some? ==> Answered(book.signs, streak.value) && DaysInARow(book.signs, streak.value)
      ensures streak.None? ==> book == old(book)
      ensures 0 <= resetHour < 24 ==>
                SignedAs(old(book), v, resetHour, book)
                && (streak.None? <==> AlreadySigned(old(book).signs, v.clock, resetHour))
      ensures streak.Some? && v.logged <= v.clock ==> (streak.value == 0 <==> LocalDay(v.logged) < LocalDay(v.clock))
    {
      if 0 <= resetHour < 24 {
        SignedInExactly(book.signs, v.clock, resetHour);
        SignInExactly(book, v, resetHour);
      }
      if SignedInWindow(book.signs, v.clock, resetHour) {
        return None;
      }
      SignedInOrder(book, v, resetHour);
      var id: Option<nat> := if v.reward > 0 then Some(|book.wallet.account.grants|) else None;
      book := book.(wallet := Rewarded(book.wallet, v, resetHour));
      book := book.(signs := book.signs + [SignedIn(v, id)]);
      assert book == SignInAt(old(book), v, resetHour);
      var days := CountStreak(book.signs);
      streak := Some(days);
    }
  }
}
