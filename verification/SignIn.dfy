/** Daily sign-in: the reset window, the guard on a second sign-in and the expiry of the reward. */
module SignIn {
  import opened Wrappers
  import opened Wallet
  import Runs = WalletRuns

  /** Instants are microseconds of local time, so the local day is the floor of a division. */
  const HOUR: int := 3_600_000_000
  const DAY: int := 24 * HOUR

  function LocalDay(now: int): int {
    now / DAY
  }

  /** Today at the reset hour. */
  function ResetToday(now: int, resetHour: int): int {
    LocalDay(now) * DAY + resetHour * HOUR
  }

  /** `daily_sign_in`'s window: it starts at the latest reset. */
  function WindowStart(now: int, resetHour: int): int {
    if now < ResetToday(now, resetHour) then ResetToday(now, resetHour) - DAY else ResetToday(now, resetHour)
  }

  function WindowEnd(now: int, resetHour: int): int {
    WindowStart(now, resetHour) + DAY
  }

  /** `_next_reset_at`: when the granted points expire. */
  function NextReset(now: int, resetHour: int): int {
    if now >= ResetToday(now, resetHour) then ResetToday(now, resetHour) + DAY else ResetToday(now, resetHour)
  }

  predicate InWindow(x: int, now: int, resetHour: int) {
    WindowStart(now, resetHour) <= x < WindowEnd(now, resetHour)
  }

  predicate SameWindow(a: int, b: int, resetHour: int) {
    WindowStart(a, resetHour) == WindowStart(b, resetHour)
  }

  /** Windows are numbered by the day they start on. */
  function WindowIndex(now: int, resetHour: int): int {
    (now - resetHour * HOUR) / DAY
  }

  lemma WindowAt(now: int, resetHour: int)
    requires 0 <= resetHour < 24
    ensures WindowStart(now, resetHour) == WindowIndex(now, resetHour) * DAY + resetHour * HOUR
    ensures WindowStart(now, resetHour) <= now < WindowEnd(now, resetHour) == NextReset(now, resetHour)
  {
    var d, k := LocalDay(now), WindowIndex(now, resetHour);
    assert d * DAY <= now < (d + 1) * DAY && k * DAY <= now - resetHour * HOUR < (k + 1) * DAY;
    if k < d - 1 { DaysApart(k + 1, d - 1); }
    if d < k { DaysApart(d + 1, k); }
  }

  lemma DaysApart(a: int, b: int)
    requires a <= b
    ensures a * DAY <= b * DAY
  {
  }

  /** The window that forbids a second sign-in ends exactly when the first one's points expire, and it is the same
      window for every instant in it. */
  lemma WindowEndsAtExpiry(now: int, later: int, resetHour: int)
    requires 0 <= resetHour < 24
    ensures WindowStart(now, resetHour) <= now < WindowEnd(now, resetHour) == NextReset(now, resetHour)
    ensures InWindow(later, now, resetHour) <==> SameWindow(later, now, resetHour)
    ensures WindowEnd(now, resetHour) <= later ==> WindowEnd(now, resetHour) <= WindowStart(later, resetHour)
  {
    WindowAt(now, resetHour);
    WindowAt(later, resetHour);
    var k, l := WindowIndex(now, resetHour), WindowIndex(later, resetHour);
    if k < l { DaysApart(k + 1, l); }
    if l < k { DaysApart(l + 1, k); }
  }

  /** A request: the clock reading its window and expiry are computed from, and the instant its log row carries. The row
      takes its instant from the database, which gives the start of the transaction; the clock may be read later. */
  datatype Visit = Visit(clock: int, logged: int, reward: int)

  /** A log row, with the grant that was credited with it. */
  datatype SignedIn = SignedIn(visit: Visit, grant: Option<nat>)

  datatype Book = Book(wallet: Runs.Books, signs: seq<SignedIn>)

  predicate SignedInWindow(signs: seq<SignedIn>, clock: int, resetHour: int) {
    exists i :: 0 <= i < |signs| && InWindow(signs[i].visit.logged, clock, resetHour)
  }

  /** Loading the asset syncs it; the reward is then credited until the next reset. */
  function Rewarded(b: Runs.Books, v: Visit, resetHour: int): Runs.Books {
    var synced := Runs.Apply(b.(account := b.account.(now := v.clock)), Runs.DoSync);
    Runs.Apply(synced, Runs.DoCredit(v.reward, Some(NextReset(v.clock, resetHour))))
  }

  /** One serialised sign-in; refused when a row of the window already exists. */
  function SignInAt(b: Book, v: Visit, resetHour: int): Book {
    if SignedInWindow(b.signs, v.clock, resetHour) then b
    else
      Book(Rewarded(b.wallet, v, resetHour),
           b.signs + [SignedIn(v, if v.reward > 0 then Some(|b.wallet.account.grants|) else None)])
  }

  /** Requests to sign in, among whatever else happens to the wallet. */
  datatype Event = Visited(visit: Visit) | Elsewhere(op: Runs.Op)

  function Step(b: Book, e: Event, resetHour: int): Book {
    match e
    case Visited(v) => SignInAt(b, v, resetHour)
    case Elsewhere(op) => b.(wallet := Runs.Apply(b.wallet, op))
  }

  function Run(now: int, events: seq<Event>, resetHour: int): Book {
    if events == [] then Book(Runs.Opened(now), [])
    else
      var n := |events| - 1;
      Step(Run(now, events[..n], resetHour), events[n], resetHour)
  }

  /** One request's transaction is over before the next one starts. */
  predicate Before(v: Visit, w: Visit) {
    v.clock <= w.clock && v.clock <= w.logged && v.logged <= w.clock && v.logged <= w.logged
  }

  ghost predicate InOrder(events: seq<Event>) {
    forall p, q :: 0 <= p < q < |events| && events[p].Visited? && events[q].Visited? ==>
        Before(events[p].visit, events[q].visit)
  }

  // ---------- every reward is a grant that expires with its window ----------

  predicate RewardHeld(gs: seq<Grant>, s: SignedIn, resetHour: int) {
    if s.visit.reward <= 0 then s.grant.None?
    else
      && s.grant.Some? && s.grant.value < |gs| && gs[s.grant.value].amount == s.visit.reward
      && gs[s.grant.value].expires == Some(NextReset(s.visit.clock, resetHour))
  }

  ghost predicate BookOk(b: Book, resetHour: int) {
    && Runs.BooksOk(b.wallet)
    && (forall i :: 0 <= i < |b.signs| ==> RewardHeld(b.wallet.account.grants, b.signs[i], resetHour))
    && (forall i, j :: 0 <= i < j < |b.signs| && b.signs[i].grant.Some? ==> b.signs[j].grant != b.signs[i].grant)
  }

  lemma RewardedBooks(b: Runs.Books, v: Visit, resetHour: int)
    requires Runs.BooksOk(b)
    ensures Runs.BooksOk(Rewarded(b, v, resetHour))
    ensures Runs.GrantsStay(b.account.grants, Rewarded(b, v, resetHour).account.grants)
    ensures v.reward > 0 ==>
              RewardHeld(Rewarded(b, v, resetHour).account.grants, SignedIn(v, Some(|b.account.grants|)), resetHour)
  {
    var timed := b.(account := b.account.(now := v.clock));
    var credit := Runs.DoCredit(v.reward, Some(NextReset(v.clock, resetHour)));
    Runs.ApplyKeeps(timed, Runs.DoSync);
    Runs.ApplyGrantsStay(timed, Runs.DoSync);
    Runs.ApplyKeeps(Runs.Apply(timed, Runs.DoSync), credit);
    Runs.ApplyGrantsStay(Runs.Apply(timed, Runs.DoSync), credit);
  }

  lemma RewardsStay(gs: seq<Grant>, hs: seq<Grant>, signs: seq<SignedIn>, resetHour: int)
    requires Runs.GrantsStay(gs, hs) && forall i :: 0 <= i < |signs| ==> RewardHeld(gs, signs[i], resetHour)
    ensures forall i :: 0 <= i < |signs| ==> RewardHeld(hs, signs[i], resetHour)
  {
  }

  lemma WalletMoves(b: Book, w: Runs.Books, resetHour: int)
    requires BookOk(b, resetHour) && Runs.BooksOk(w) && Runs.GrantsStay(b.wallet.account.grants, w.account.grants)
    ensures BookOk(b.(wallet := w), resetHour)
  {
    RewardsStay(b.wallet.account.grants, w.account.grants, b.signs, resetHour);
  }

  lemma SignAdded(b: Book, s: SignedIn, resetHour: int)
    requires BookOk(b, resetHour) && RewardHeld(b.wallet.account.grants, s, resetHour)
    requires forall i :: 0 <= i < |b.signs| && b.signs[i].grant.Some? ==> s.grant != b.signs[i].grant
    ensures BookOk(b.(signs := b.signs + [s]), resetHour)
  {
  }

  lemma VisitKeeps(b: Book, v: Visit, resetHour: int)
    requires BookOk(b, resetHour)
    ensures BookOk(SignInAt(b, v, resetHour), resetHour)
  {
    var w := Rewarded(b.wallet, v, resetHour);
    RewardedBooks(b.wallet, v, resetHour);
    WalletMoves(b, w, resetHour);
    var id: Option<nat> := if v.reward > 0 then Some(|b.wallet.account.grants|) else None;
    forall i | 0 <= i < |b.signs| && b.signs[i].grant.Some? ensures id != b.signs[i].grant {
      assert RewardHeld(b.wallet.account.grants, b.signs[i], resetHour);
    }
    SignAdded(b.(wallet := w), SignedIn(v, id), resetHour);
  }

  lemma StepKeeps(b: Book, e: Event, resetHour: int)
    requires BookOk(b, resetHour)
    ensures BookOk(Step(b, e, resetHour), resetHour)
  {
    match e
    case Visited(v) => VisitKeeps(b, v, resetHour);
    case Elsewhere(op) =>
      Runs.ApplyKeeps(b.wallet, op);
      Runs.ApplyGrantsStay(b.wallet, op);
      WalletMoves(b, Runs.Apply(b.wallet, op), resetHour);
  }

  /** Over every run, whatever happens to the wallet in between: the points stay conserved, and each rewarded sign-in
      keeps a grant of its own, with its amount and the expiry it was given. */
  lemma {:induction false} RunKeeps(now: int, events: seq<Event>, resetHour: int)
    ensures BookOk(Run(now, events, resetHour), resetHour)
  {
    if events == [] {
      Runs.PointsAreConserved(now, []);
    } else {
      var n := |events| - 1;
      RunKeeps(now, events[..n], resetHour);
      StepKeeps(Run(now, events[..n], resetHour), events[n], resetHour);
    }
  }

  // ---------- the guard ----------

  /** Rows stay, and a request that is granted adds its own. */
  ghost predicate RowAdded(before: seq<SignedIn>, after: seq<SignedIn>, e: Event, resetHour: int) {
    if e.Visited? && !SignedInWindow(before, e.visit.clock, resetHour)
    then before <= after && |after| == |before| + 1 && after[|before|].visit == e.visit
    else after == before
  }

  /** The log before each event and after the last. */
  ghost predicate Linked(rows: seq<seq<SignedIn>>, events: seq<Event>, resetHour: int) {
    && |rows| == |events| + 1 && rows[0] == []
    && forall p :: 0 <= p < |events| ==> RowAdded(rows[p], rows[p + 1], events[p], resetHour)
  }

  lemma StepSigns(b: Book, e: Event, resetHour: int)
    ensures RowAdded(b.signs, Step(b, e, resetHour).signs, e, resetHour)
  {
  }

  function History(now: int, events: seq<Event>, resetHour: int): (rows: seq<seq<SignedIn>>)
    ensures |rows| == |events| + 1
    ensures forall p :: 0 <= p <= |events| ==> rows[p] == Run(now, events[..p], resetHour).signs
  {
    if events == [] then
      assert events[..0] == events;
      [Run(now, events, resetHour).signs]
    else
      var n := |events| - 1;
      var rows := History(now, events[..n], resetHour) + [Run(now, events, resetHour).signs];
      assert events[..n + 1] == events;
      assert forall p :: 0 <= p <= n ==> events[..n][..p] == events[..p];
      rows
  }

  lemma HistoryLinked(now: int, events: seq<Event>, resetHour: int)
    ensures Linked(History(now, events, resetHour), events, resetHour)
  {
    var rows := History(now, events, resetHour);
    assert Run(now, events[..0], resetHour).signs == [];
    forall p | 0 <= p < |events| ensures RowAdded(rows[p], rows[p + 1], events[p], resetHour) {
      assert events[..p + 1][..p] == events[..p];
      StepSigns(Run(now, events[..p], resetHour), events[p], resetHour);
    }
  }

  /** The request at this position was granted. */
  ghost predicate Granted(rows: seq<seq<SignedIn>>, events: seq<Event>, p: nat, resetHour: int)
    requires p < |events| < |rows|
  {
    events[p].Visited? && !SignedInWindow(rows[p], events[p].visit.clock, resetHour)
  }

  /** Every log row was written by a request that was granted. */
  lemma {:induction false} RowHasRequest(rows: seq<seq<SignedIn>>, events: seq<Event>, q: nat, resetHour: int, i: nat)
    returns (p: nat)
    requires Linked(rows, events, resetHour) && q <= |events| && i < |rows[q]|
    ensures p < q && Granted(rows, events, p, resetHour) && events[p].visit == rows[q][i].visit
    decreases q
  {
    assert RowAdded(rows[q - 1], rows[q], events[q - 1], resetHour);
    if i < |rows[q - 1]| {
      p := RowHasRequest(rows, events, q - 1, resetHour, i);
    } else {
      p := q - 1;
    }
  }

  /** Every request that was granted wrote a log row, which stays. */
  lemma {:induction false} RequestHasRow(rows: seq<seq<SignedIn>>, events: seq<Event>, p: nat, q: nat, resetHour: int)
    requires Linked(rows, events, resetHour) && p < q <= |events| && Granted(rows, events, p, resetHour)
    ensures |rows[p]| < |rows[q]| && rows[q][|rows[p]|].visit == events[p].visit
    decreases q
  {
    assert RowAdded(rows[q - 1], rows[q], events[q - 1], resetHour);
    if p < q - 1 { RequestHasRow(rows, events, p, q - 1, resetHour); }
  }

  /** A granted request found no row of an earlier one in its window. */
  lemma NoRowBefore(rows: seq<seq<SignedIn>>, events: seq<Event>, r: nat, p: nat, resetHour: int)
    requires Linked(rows, events, resetHour) && r < p < |events|
    requires Granted(rows, events, r, resetHour) && Granted(rows, events, p, resetHour)
    ensures !InWindow(events[r].visit.logged, events[p].visit.clock, resetHour)
  {
    RequestHasRow(rows, events, r, p, resetHour);
    assert !InWindow(rows[p][|rows[r]|].visit.logged, events[p].visit.clock, resetHour);
  }

  ghost predicate BothGranted(rows: seq<seq<SignedIn>>, events: seq<Event>, p: nat, q: nat, resetHour: int)
    requires p < |events| < |rows| && q < |events|
  {
    && Granted(rows, events, p, resetHour) && Granted(rows, events, q, resetHour)
    && SameWindow(events[p].visit.clock, events[q].visit.clock, resetHour)
  }

  /** Two requests were granted in one window. */
  ghost predicate GrantedTwice(rows: seq<seq<SignedIn>>, events: seq<Event>, resetHour: int)
    requires |events| < |rows|
  {
    exists p: nat, q: nat :: p < q < |events| && BothGranted(rows, events, p, q, resetHour)
  }

  /** A request was granted whose log row fell outside its window, and the window was visited again. */
  ghost predicate MisdatedBefore(rows: seq<seq<SignedIn>>, events: seq<Event>, p: nat, q: nat, resetHour: int)
    requires p < |events| < |rows| && q < |events|
  {
    && Granted(rows, events, p, resetHour) && !InWindow(events[p].visit.logged, events[p].visit.clock, resetHour)
    && events[q].Visited? && SameWindow(events[p].visit.clock, events[q].visit.clock, resetHour)
  }

  ghost predicate MisdatedThenVisited(rows: seq<seq<SignedIn>>, events: seq<Event>, resetHour: int)
    requires |events| < |rows|
  {
    exists p: nat, q: nat :: p < q < |events| && MisdatedBefore(rows, events, p, q, resetHour)
  }

  lemma MisdatedAdmitsAnother(rows: seq<seq<SignedIn>>, events: seq<Event>, p: nat, q: nat, resetHour: int)
    returns (r: nat)
    requires 0 <= resetHour < 24 && InOrder(events) && Linked(rows, events, resetHour) && p < q < |events|
    requires MisdatedBefore(rows, events, p, q, resetHour)
    ensures p < r < |events| && BothGranted(rows, events, p, r, resetHour)
  {
    if Granted(rows, events, q, resetHour) {
      r := q;
    } else {
      var i :| 0 <= i < |rows[q]| && InWindow(rows[q][i].visit.logged, events[q].visit.clock, resetHour);
      r := RowHasRequest(rows, events, q, resetHour, i);
      if r < p { NoRowBefore(rows, events, r, p, resetHour); }
      Between(events[p].visit.clock, events[r].visit.clock, events[q].visit.clock, resetHour);
    }
  }

  lemma Between(a: int, b: int, c: int, resetHour: int)
    requires 0 <= resetHour < 24 && a <= b <= c && SameWindow(a, c, resetHour)
    ensures SameWindow(a, b, resetHour)
  {
    WindowEndsAtExpiry(a, b, resetHour);
    WindowEndsAtExpiry(a, c, resetHour);
  }

  /** The guard fails exactly when the log row of a granted request falls outside the window of its clock, and the
      window is visited again. */
  lemma GrantedTwiceExactly(now: int, events: seq<Event>, resetHour: int)
    requires 0 <= resetHour < 24 && InOrder(events)
    ensures var rows := History(now, events, resetHour);
            GrantedTwice(rows, events, resetHour) <==> MisdatedThenVisited(rows, events, resetHour)
  {
    var rows := History(now, events, resetHour);
    HistoryLinked(now, events, resetHour);
    if GrantedTwice(rows, events, resetHour) {
      var p: nat, q: nat :| p < q < |events| && BothGranted(rows, events, p, q, resetHour);
      NoRowBefore(rows, events, p, q, resetHour);
      assert MisdatedBefore(rows, events, p, q, resetHour);
    }
    if MisdatedThenVisited(rows, events, resetHour) {
      var p: nat, q: nat :| p < q < |events| && MisdatedBefore(rows, events, p, q, resetHour);
      var r := MisdatedAdmitsAnother(rows, events, p, q, resetHour);
    }
  }

  // ---------- live grants ----------

  ghost predicate SignsOrdered(signs: seq<SignedIn>) {
    forall i, j :: 0 <= i < j < |signs| ==> Before(signs[i].visit, signs[j].visit)
  }

  lemma {:induction false} RowsOrdered(rows: seq<seq<SignedIn>>, events: seq<Event>, q: nat, resetHour: int)
    requires InOrder(events) && Linked(rows, events, resetHour) && q <= |events|
    ensures SignsOrdered(rows[q])
    decreases q
  {
    if q > 0 {
      RowsOrdered(rows, events, q - 1, resetHour);
      assert RowAdded(rows[q - 1], rows[q], events[q - 1], resetHour);
      var signs := rows[q - 1];
      if events[q - 1].Visited? {
        forall i | 0 <= i < |signs| ensures Before(signs[i].visit, events[q - 1].visit) {
          var p := RowHasRequest(rows, events, q - 1, resetHour, i);
        }
      }
    }
  }

  lemma SignsFollowEvents(now: int, events: seq<Event>, resetHour: int)
    requires InOrder(events)
    ensures SignsOrdered(Run(now, events, resetHour).signs)
  {
    HistoryLinked(now, events, resetHour);
    RowsOrdered(History(now, events, resetHour), events, |events|, resetHour);
    assert events[..|events|] == events;
  }

  /** The grant of this sign-in exists and has not expired. */
  predicate Live(b: Book, i: nat, t: int)
    requires i < |b.signs|
  {
    && b.signs[i].grant.Some? && b.signs[i].grant.value < |b.wallet.account.grants|
    && !Expired(b.wallet.account.grants[b.signs[i].grant.value], t)
  }

  /** Two rewarded sign-ins hold unexpired grants together, at an instant when both exist, exactly when they fell into
      one window, which is not over. */
  lemma LiveTogether(now: int, events: seq<Event>, resetHour: int, i: nat, j: nat, t: int)
    requires 0 <= resetHour < 24 && InOrder(events)
    requires i < j < |Run(now, events, resetHour).signs|
    requires var signs := Run(now, events, resetHour).signs;
             signs[i].visit.reward > 0 && signs[j].visit.reward > 0 && signs[j].visit.clock <= t
    ensures var b := Run(now, events, resetHour);
            && b.signs[i].grant != b.signs[j].grant
            && (Live(b, i, t) && Live(b, j, t) <==>
                SameWindow(b.signs[i].visit.clock, b.signs[j].visit.clock, resetHour)
                && InWindow(t, b.signs[j].visit.clock, resetHour))
  {
    var b := Run(now, events, resetHour);
    RunKeeps(now, events, resetHour);
    SignsFollowEvents(now, events, resetHour);
    WindowEndsAtExpiry(b.signs[i].visit.clock, b.signs[j].visit.clock, resetHour);
    WindowEndsAtExpiry(b.signs[j].visit.clock, t, resetHour);
    assert RewardHeld(b.wallet.account.grants, b.signs[i], resetHour);
    assert RewardHeld(b.wallet.account.grants, b.signs[j], resetHour);
  }

  ghost predicate AllDated(events: seq<Event>, resetHour: int) {
    forall p :: 0 <= p < |events| && events[p].Visited? ==>
        InWindow(events[p].visit.logged, events[p].visit.clock, resetHour)
  }

  ghost predicate OneEach(signs: seq<SignedIn>, resetHour: int) {
    && (forall i :: 0 <= i < |signs| ==> InWindow(signs[i].visit.logged, signs[i].visit.clock, resetHour))
    && (forall i, j :: 0 <= i < j < |signs| ==> !SameWindow(signs[i].visit.clock, signs[j].visit.clock, resetHour))
  }

  lemma OneMore(b: Book, v: Visit, resetHour: int)
    requires OneEach(b.signs, resetHour) && InWindow(v.logged, v.clock, resetHour)
    ensures OneEach(SignInAt(b, v, resetHour).signs, resetHour)
  {
    if !SignedInWindow(b.signs, v.clock, resetHour) {
      forall i | 0 <= i < |b.signs| ensures !SameWindow(b.signs[i].visit.clock, v.clock, resetHour) {
        assert !InWindow(b.signs[i].visit.logged, v.clock, resetHour);
        assert InWindow(b.signs[i].visit.logged, b.signs[i].visit.clock, resetHour);
      }
    }
  }

  lemma {:induction false} WindowsDiffer(now: int, events: seq<Event>, resetHour: int)
    requires AllDated(events, resetHour)
    ensures OneEach(Run(now, events, resetHour).signs, resetHour)
  {
    if events != [] {
      var n := |events| - 1;
      WindowsDiffer(now, events[..n], resetHour);
      if events[n].Visited? { OneMore(Run(now, events[..n], resetHour), events[n].visit, resetHour); }
    }
  }

  /** When every request's row falls into the window of its clock: each window holds at most one sign-in, and at most
      one sign-in grant is unexpired at any time. */
  lemma OneLiveGrant(now: int, events: seq<Event>, resetHour: int, i: nat, j: nat, t: int)
    requires 0 <= resetHour < 24 && InOrder(events) && AllDated(events, resetHour)
    requires i < j < |Run(now, events, resetHour).signs|
    ensures var b := Run(now, events, resetHour);
            && !SameWindow(b.signs[i].visit.clock, b.signs[j].visit.clock, resetHour)
            && (b.signs[j].visit.clock <= t ==> !(Live(b, i, t) && Live(b, j, t)))
  {
    var b := Run(now, events, resetHour);
    WindowsDiffer(now, events, resetHour);
    RunKeeps(now, events, resetHour);
    assert RewardHeld(b.wallet.account.grants, b.signs[i], resetHour);
    assert RewardHeld(b.wallet.account.grants, b.signs[j], resetHour);
    if b.signs[j].visit.clock <= t && b.signs[i].visit.reward > 0 && b.signs[j].visit.reward > 0 {
      LiveTogether(now, events, resetHour, i, j, t);
    }
  }

  lemma TwoVisits(now: int, v: Visit, w: Visit, resetHour: int)
    requires !InWindow(v.logged, w.clock, resetHour)
    ensures var signs := Run(now, [Visited(v), Visited(w)], resetHour).signs;
            |signs| == 2 && signs[0].visit == v && signs[1].visit == w
  {
    assert [Visited(v), Visited(w)][..1] == [Visited(v)] && [Visited(v)][..0] == [];
    assert Run(now, [], resetHour).signs == [];
    assert Run(now, [Visited(v)], resetHour).signs == [SignedIn(v, if v.reward > 0 then Some(0) else None)];
  }

  /** What happens otherwise, for every reset hour: a request whose transaction started just before the reset and whose
      clock was read after it leaves its window open, and a second request gets a second unexpired grant. */
  lemma StraddlingResetGrantsTwice(now: int, v: Visit, w: Visit, resetHour: int)
    requires 0 <= resetHour < 24 && v.reward > 0 && w.reward > 0 && Before(v, w)
    requires v.logged < WindowStart(v.clock, resetHour) && SameWindow(v.clock, w.clock, resetHour)
    ensures var b := Run(now, [Visited(v), Visited(w)], resetHour);
            |b.signs| == 2 && Live(b, 0, w.clock) && Live(b, 1, w.clock) && b.signs[0].grant != b.signs[1].grant
  {
    var events := [Visited(v), Visited(w)];
    TwoVisits(now, v, w, resetHour);
    WindowEndsAtExpiry(w.clock, w.clock, resetHour);
    LiveTogether(now, events, resetHour, 0, 1, w.clock);
  }
}
