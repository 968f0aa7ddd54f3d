/** What a sign-in leaves, counted in microseconds from the row's clock. */
module SignInEffects {
  import opened Wrappers
  import opened Wallet
  import opened WalletEffects
  import opened SignIn
  import Spending = WalletSpending
  import Runs = WalletRuns

  /** The latest instant at the reset hour of some day. */
  function LatestReset(now: int, resetHour: int): int {
    now - (now - resetHour * 3_600_000_000) % 86_400_000_000
  }

  /** The same hour of the next day is when the points run out and the next window begins. */
  lemma WindowsByTheClock(now: int, resetHour: int)
    requires 0 <= resetHour < 24
    ensures WindowStart(now, resetHour) == LatestReset(now, resetHour)
    ensures NextReset(now, resetHour) == WindowEnd(now, resetHour) == LatestReset(now, resetHour) + 86_400_000_000
  {
    WindowAt(now, resetHour);
  }

  /** The log holds a row of the day that began at the latest reset. */
  ghost predicate AlreadySigned(signs: seq<SignedIn>, clock: int, resetHour: int) {
    exists i :: 0 <= i < |signs|
      && 0 <= signs[i].visit.logged - LatestReset(clock, resetHour) < 86_400_000_000
  }

  /** Expired points go, and the reward becomes one grant that runs out at the next reset. */
  ghost predicate RewardedAs(a: Account, v: Visit, resetHour: int, b: Account) {
    var n := |a.grants|;
    && b.now == v.clock && b.tasks == a.tasks
    && |b.grants| == n + (if v.reward > 0 then 1 else 0)
    && (forall i :: 0 <= i < n ==> b.grants[i] == a.grants[i].(remaining := Worth(a.grants[i], v.clock)))
    && b.balance == Spending.Lasting(a.grants, v.clock) + (if v.reward > 0 then v.reward else 0)
    && (v.reward > 0 ==>
          b.grants[n] == Grant(v.reward, v.reward, Some(LatestReset(v.clock, resetHour) + 86_400_000_000), v.clock))
  }

  /** Nothing happens to one who has signed in already; otherwise one row is added, and the reward. */
  ghost predicate SignedAs(b: Book, v: Visit, resetHour: int, c: Book) {
    if AlreadySigned(b.signs, v.clock, resetHour) then c == b
    else
      && |c.signs| == |b.signs| + 1 && b.signs <= c.signs && c.signs[|b.signs|].visit == v
      && c.signs[|b.signs|].grant == (if v.reward > 0 then Some(|b.wallet.account.grants|) else None)
      && RewardedAs(b.wallet.account, v, resetHour, c.wallet.account)
  }

  lemma SignedInExactly(signs: seq<SignedIn>, clock: int, resetHour: int)
    requires 0 <= resetHour < 24
    ensures SignedInWindow(signs, clock, resetHour) <==> AlreadySigned(signs, clock, resetHour)
  {
    WindowsByTheClock(clock, resetHour);
    if SignedInWindow(signs, clock, resetHour) {
      var i :| 0 <= i < |signs| && InWindow(signs[i].visit.logged, clock, resetHour);
      assert 0 <= signs[i].visit.logged - LatestReset(clock, resetHour) < 86_400_000_000;
    }
    if AlreadySigned(signs, clock, resetHour) {
      var i :| 0 <= i < |signs| && 0 <= signs[i].visit.logged - LatestReset(clock, resetHour) < 86_400_000_000;
      assert InWindow(signs[i].visit.logged, clock, resetHour);
    }
  }

  lemma RewardExactly(b: Runs.Books, v: Visit, resetHour: int)
    requires 0 <= resetHour < 24
    ensures RewardedAs(b.account, v, resetHour, Rewarded(b, v, resetHour).account)
  {
    var timed := b.account.(now := v.clock);
    SyncExactly(timed);
    WindowsByTheClock(v.clock, resetHour);
    CreditExactly(Sync(timed), v.reward, Some(NextReset(v.clock, resetHour)));
  }

  lemma SignInExactly(b: Book, v: Visit, resetHour: int)
    requires 0 <= resetHour < 24
    ensures SignedAs(b, v, resetHour, SignInAt(b, v, resetHour))
  {
    SignedInExactly(b.signs, v.clock, resetHour);
    RewardExactly(b.wallet, v, resetHour);
  }
}
