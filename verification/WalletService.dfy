/** The wallet service over its rows: the loops update grants, running totals and the cached balance in place. */
module WalletService {
  import opened Wrappers
  import opened Wallet
  import opened WalletSpending
  import opened WalletEffects

  /** What a spend answers: the deduction with its allocation, or a refusal. */
  datatype SpendAnswer = Refused | Deducted(amount: int, allocation: seq<Slice>)

  class PointService {
    var balance: int
    var grants: seq<Grant>
    var tasks: seq<Task>
    var now: int

    ghost function View(): Account
      reads this
    {
      Account(balance, grants, tasks, now)
    }

    constructor (now: int)
      ensures View() == Account(0, [], [], now)
    {
      balance, grants, tasks, this.now := 0, [], [], now;
    }

    method SyncRows()
      modifies this`grants, this`balance
      ensures View() == Sync(old(View()))
    {
      ghost var before := grants;
      var activeTotal := SweepGrants();
      SweepDone(before, grants, now);
      if balance != activeTotal {
        balance := activeTotal;
      }
    }

    /** Zero expired grants and refresh the cached balance. */
    method SyncPointBalance()
      modifies this`grants, this`balance
      ensures View() == Sync(old(View())) && SyncedAs(old(View()), View())
    {
      SyncExactly(View());
      SyncRows();
    }

    method SweepGrants() returns (activeTotal: nat)
      modifies this`grants
      ensures |grants| == |old(grants)| && forall k :: 0 <= k < |grants| ==> grants[k] == Swept(old(grants)[k], now)
      ensures activeTotal == SweptSum(old(grants), |old(grants)|, now)
    {
      ghost var before := grants;
      activeTotal := 0;
      var i := 0;
      while i < |grants|
        invariant 0 <= i <= |grants| == |before|
        invariant forall k :: 0 <= k < |grants| ==> grants[k] == if k < i then Swept(before[k], now) else before[k]
        invariant activeTotal == SweptSum(before, i, now)
      {
        var grant := grants[i];
        if grant.remaining > 0 {
          if grant.expires.Some? && grant.expires.value <= now {
            grants := grants[i := grant.(remaining := 0)];
          } else {
            activeTotal := activeTotal + grant.remaining;
          }
        }
        i := i + 1;
      }
    }

    method CreditPoints(amount: int, expires: Option<int>)
      modifies this`grants, this`balance
      ensures View() == Credit(old(View()), amount, expires)
      ensures CreditedAs(old(View()), amount, expires, View())
    {
      if amount <= 0 {
        return;
      }
      balance := balance + amount;
      grants := grants + [Grant(amount, amount, expires, now)];
    }

    /** The loop over the sorted grants. */
    method TakeFrom(sorted: seq<nat>, amount: nat) returns (deducted: int, allocation: seq<Slice>)
      requires Indices(grants, sorted) && Distinct(sorted)
      modifies this`grants
      ensures TakeAll(old(grants), sorted, amount) == Spending(grants, amount - deducted, allocation)
    {
      var remaining := amount;
      deducted, allocation := 0, [];
      var k := 0;
      while k < |sorted| && remaining > 0
        invariant 0 <= k <= |sorted| && |grants| == |old(grants)|
        invariant TakeAll(old(grants), sorted[..k], amount) == Spending(grants, remaining, allocation)
        invariant deducted == amount - remaining
      {
        assert sorted[..k + 1][..k] == sorted[..k];
        var grant := grants[sorted[k]];
        var take := Min(grant.remaining, remaining);
        if take > 0 {
          grants := grants[sorted[k] := grant.(remaining := grant.remaining - take)];
          remaining := remaining - take;
          deducted := deducted + take;
          allocation := allocation + [Slice(sorted[k], take, grant.expires)];
        }
        k := k + 1;
      }
      StoppedEarly(old(grants), sorted, k, amount);
    }

    method SpendRows(amount: int, allowPartial: bool) returns (r: SpendAnswer)
      modifies this`grants, this`balance
      ensures match Spend(old(View()), amount, allowPartial)
              case Insufficient => r == Refused && View() == old(View())
              case Spent(a, deducted, allocation) => r == Deducted(deducted, allocation) && View() == a
    {
      if amount <= 0 {
        return Deducted(0, []);
      }
      var savedBalance, savedGrants := balance, grants;
      SyncRows();
      if balance < amount && !allowPartial {
        balance, grants := savedBalance, savedGrants;
        return Refused;
      }
      OrderIsDistinct(grants);
      var deducted, allocation := TakeFrom(SortByExpiry(grants, |grants|), amount);
      SpendIs(old(View()), amount, allowPartial, grants, deducted, allocation);
      if deducted <= 0 {
        return Deducted(0, []);
      }
      balance := if balance - deducted < 0 then 0 else balance - deducted;
      return Deducted(deducted, allocation);
    }

    /** Spend from the earliest expiry on, recording what was taken from which grant. */
    method SpendPoints(amount: int, allowPartial: bool) returns (r: SpendAnswer)
      modifies this`grants, this`balance
      ensures match Spend(old(View()), amount, allowPartial)
              case Insufficient => r == Refused && View() == old(View())
              case Spent(a, deducted, allocation) => r == Deducted(deducted, allocation) && View() == a
      ensures SpentAs(old(View()), amount, allowPartial,
                      if r.Refused? then Insufficient else Spent(View(), r.amount, r.allocation))
    {
      SpendExactly(View(), amount, allowPartial);
      r := SpendRows(amount, allowPartial);
    }

    method RestoreRows(allocation: seq<Slice>, fallback: nat) returns (restored: nat)
      modifies this`grants, this`balance
      ensures View() == Restore(old(View()), allocation, fallback)
      ensures restored == if allocation != [] then Total(allocation) else fallback
    {
      restored := 0;
      if allocation != [] {
        var k := 0;
        while k < |allocation|
          invariant 0 <= k <= |allocation|
          invariant grants == RestoreAll(old(grants), allocation[..k], now)
          invariant restored == Total(allocation[..k]) && balance == old(balance)
        {
          assert allocation[..k + 1][..k] == allocation[..k];
          var item := allocation[k];
          if item.amount > 0 {
            if item.grant < |grants| {
              var grant := grants[item.grant];
              grant := grant.(remaining := grant.remaining + item.amount);
              if grant.expires.None? && item.expires.Some? {
                grant := grant.(expires := item.expires);
              }
              grants := grants[item.grant := grant];
            } else {
              grants := grants + [Grant(item.amount, item.amount, item.expires, now)];
            }
            restored := restored + item.amount;
          }
          k := k + 1;
        }
        assert allocation[..k] == allocation;
        assert grants == RestoreAll(old(grants), allocation, now) && restored == Total(allocation);
      } else if fallback > 0 {
        grants := grants + [Grant(fallback, fallback, None, now)];
        restored := fallback;
      }
      if restored > 0 {
        balance := balance + restored;
      }
    }

    /** Replay an allocation, or grant the fallback amount when there is none. */
    method RestorePoints(allocation: seq<Slice>, fallback: nat) returns (restored: nat)
      modifies this`grants, this`balance
      ensures View() == Restore(old(View()), allocation, fallback)
      ensures restored == if allocation != [] then Total(allocation) else fallback
      ensures RestoredAs(old(View()), allocation, fallback, View())
    {
      RestoreExactly(View(), allocation, fallback);
      restored := RestoreRows(allocation, fallback);
    }

    method SubmitRow(cost: int, remote: bool) returns (ok: bool)
      modifies this`grants, this`balance, this`tasks
      ensures match Submit(old(View()), cost, remote)
              case None => !ok && View() == old(View())
              case Some(a) => ok && View() == a
    {
      var savedBalance, savedGrants := balance, grants;
      SyncRows();
      var answer := SpendRows(cost, false);
      if answer.Refused? || answer.amount < 0 {
        balance, grants := savedBalance, savedGrants;
        return false;
      }
      tasks := tasks + [Task(Processing, answer.amount, answer.amount, answer.allocation, remote, false, now)];
      return true;
    }

    /** Freeze the cost of an image in a new task, or refuse. */
    method SubmitTask(cost: int, remote: bool) returns (ok: bool)
      modifies this`grants, this`balance, this`tasks
      ensures match Submit(old(View()), cost, remote)
              case None => !ok && View() == old(View())
              case Some(a) => ok && View() == a
      ensures SubmittedAs(old(View()), cost, remote, if ok then Some(View()) else None)
    {
      SubmitExactly(View(), cost, remote);
      ok := SubmitRow(cost, remote);
    }

    /** Give a task's frozen points back and mark it failed. */
    method Refund(t: nat)
      requires t < |tasks|
      modifies this`grants, this`balance, this`tasks
      ensures View() == RefundTask(old(View()), t) && RefundedAs(old(View()), t, View())
    {
      RefundExactly(View(), t);
      if tasks[t].frozen > 0 {
        var refunded := RestoreRows(tasks[t].deductions, tasks[t].frozen);
        tasks := tasks[t := tasks[t].(deductions := [])];
        tasks := tasks[t := tasks[t].(frozen := 0)];
      }
      tasks := tasks[t := tasks[t].(status := Failed)];
    }

    /** The worker's last step for an image that arrived. */
    method FinishTask(t: nat)
      requires t < |tasks|
      modifies this`tasks
      ensures View() == CompleteTask(old(View()), t) && FinishedAs(old(View()), t, View())
    {
      tasks := tasks[t := tasks[t].(status := Success, hasImage := true, remote := false)];
      tasks := tasks[t := tasks[t].(frozen := 0)];
    }

    method PollTask(t: nat, timeout: int, result: RemoteResult)
      requires t < |tasks|
      modifies this`grants, this`balance, this`tasks
      ensures View() == Poll(old(View()), t, timeout, result)
      ensures PolledAs(old(View()), t, timeout, result, View())
    {
      PollExactly(View(), t, timeout, result);
      if tasks[t].status == Processing && !tasks[t].remote && !tasks[t].hasImage
          && now - tasks[t].created >= timeout + STALE_GRACE {
        Refund(t);
        return;
      }
      if tasks[t].status == Processing && tasks[t].remote {
        match result
        case RemoteSuccess => tasks := tasks[t := tasks[t].(hasImage := true, status := Success)];
        case RemoteFailure =>
          tasks := tasks[t := tasks[t].(status := Failed)];
          if tasks[t].frozen > 0 {
            var refunded := RestoreRows(tasks[t].deductions, tasks[t].frozen);
            tasks := tasks[t := tasks[t].(frozen := 0, deductions := [])];
          }
        case RemoteRunning =>
      }
    }

    /** Take away as much of an amount as there is. */
    method TakeAway(amount: int) returns (taken: int)
      modifies this`grants, this`balance
      ensures var r := Spend(old(View()), amount, true); r.Spent? && View() == r.account
      ensures amount > 0 ==> taken == Min(amount, Lasting(old(grants), now))
    {
      if amount > 0 { SpendsExactly(View(), amount, true); }
      var answer := SpendRows(amount, true);
      taken := if answer.Deducted? then answer.amount else 0;
    }

    /** The administrator's adjustment: a credit, or a deduction of as much as there is. */
    method AdjustBalance(amount: int) returns (actual: int)
      modifies this`grants, this`balance
      ensures View() == Adjust(old(View()), amount) && AdjustedAs(old(View()), amount, View())
      ensures amount >= 0 ==> actual == amount
      ensures amount < 0 ==> -actual == Min(-amount, Lasting(old(grants), now))
    {
      AdjustExactly(View(), amount);
      actual := amount;
      if amount > 0 {
        CreditPoints(amount, None);
      } else if amount < 0 {
        var taken := TakeAway(-amount);
        actual := -taken;
      }
    }

    /** Take back what an order granted, as far as it is still there, and refresh the asset. */
    method RefundOrderPoints(points: int) returns (deducted: int)
      modifies this`grants, this`balance
      ensures View() == RefundOrder(old(View()), points) && OrderRefundedAs(old(View()), points, View())
      ensures points > 0 ==> deducted == Min(points, Lasting(old(grants), now))
    {
      OrderRefundExactly(View(), points);
      deducted := TakeAway(points);
      SyncRows();
    }
  }

  // ---------- steps of the loops ----------

  function SweptSum(gs: seq<Grant>, i: nat, now: int): nat
    requires i <= |gs|
  {
    if i == 0 then 0 else SweptSum(gs, i - 1, now) + Swept(gs[i - 1], now).remaining
  }

  lemma {:induction false} SweptSumIs(gs: seq<Grant>, i: nat, now: int)
    requires i <= |gs|
    ensures SweptSum(gs, i, now) == Remaining(SweepAll(gs, now)[..i])
  {
    if i > 0 {
      SweptSumIs(gs, i - 1, now);
      assert SweepAll(gs, now)[..i][..i - 1] == SweepAll(gs, now)[..i - 1];
    }
  }

  lemma SweepDone(before: seq<Grant>, after: seq<Grant>, now: int)
    requires |after| == |before| && forall k :: 0 <= k < |before| ==> after[k] == Swept(before[k], now)
    ensures after == SweepAll(before, now) && SweptSum(before, |before|, now) == Remaining(after)
  {
    SweptSumIs(before, |before|, now);
    assert after[..|before|] == after;
  }

  /** What the loop took, seen from the specification of the spend. */
  lemma SpendIs(a: Account, amount: nat, allowPartial: bool, gs: seq<Grant>, deducted: int, allocation: seq<Slice>)
    requires amount > 0 && (allowPartial || amount <= Sync(a).balance)
    requires var order := SortByExpiry(Sync(a).grants, |Sync(a).grants|);
             TakeAll(Sync(a).grants, order, amount) == Spending(gs, amount - deducted, allocation)
    ensures var b := Sync(a);
            Spend(a, amount, allowPartial) ==
            if deducted <= 0 then Spent(b, 0, [])
            else Spent(b.(grants := gs, balance := if b.balance - deducted < 0 then 0 else b.balance - deducted),
                       deducted, allocation)
    ensures deducted <= 0 ==> gs == Sync(a).grants
  {
    if deducted <= 0 {
      NothingDeducted(Sync(a).grants, amount);
    }
  }

  lemma NothingDeducted(gs: seq<Grant>, amount: nat)
    requires TakeAll(gs, SortByExpiry(gs, |gs|), amount).left >= amount
    ensures TakeAll(gs, SortByExpiry(gs, |gs|), amount) == Spending(gs, amount, [])
  {
    var order := SortByExpiry(gs, |gs|);
    OrderIsDistinct(gs);
    TakeAllSums(gs, order, amount);
    NothingTaken(gs, order, amount);
  }

  /** Leaving the loop once nothing is left to take is the same as running it to the end. */
  lemma {:induction false} StoppedEarly(gs: seq<Grant>, order: seq<nat>, k: nat, need: nat)
    requires Indices(gs, order) && Distinct(order) && k <= |order|
    requires k == |order| || TakeAll(gs, order[..k], need).left <= 0
    ensures TakeAll(gs, order, need) == TakeAll(gs, order[..k], need)
  {
    if k == |order| {
      assert order[..k] == order;
    } else {
      var n := |order| - 1;
      assert order[..n][..k] == order[..k];
      TakeAllGrants(gs, order[..k], need);
      StoppedEarly(gs, order[..n], k, need);
    }
  }

  lemma NothingTaken(gs: seq<Grant>, order: seq<nat>, need: nat)
    requires Indices(gs, order) && Distinct(order) && TakeAll(gs, order, need).left == need
    ensures TakeAll(gs, order, need) == Spending(gs, need, [])
  {
    var s := TakeAll(gs, order, need);
    TakeAllSums(gs, order, need);
    TakeAllAllocation(gs, order, need);
    assert Total(s.allocation) == 0;
    forall i | 0 <= i < |gs| ensures s.grants[i] == gs[i] {
      TakeAllOn(gs, order, need, i);
    }
  }
}
