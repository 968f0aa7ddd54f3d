/** What each wallet operation leaves, grant by grant and point by point, read off the rows before it. */
module WalletEffects {
  import opened Wrappers
  import opened Wallet
  import opened WalletSpending

  // ---------- sync ----------

  predicate RunOut(g: Grant, now: int) {
    g.expires.Some? && g.expires.value <= now
  }

  /** What a grant is still worth at this instant. */
  function Worth(g: Grant, now: int): nat {
    if RunOut(g, now) then 0 else g.remaining
  }

  /** Every grant that has run out holds nothing, every other one what it held, and the balance is what lasts. */
  ghost predicate SyncedAs(a: Account, b: Account) {
    && |b.grants| == |a.grants|
    && (forall i :: 0 <= i < |a.grants| ==> b.grants[i] == a.grants[i].(remaining := Worth(a.grants[i], a.now)))
    && b.balance == Lasting(a.grants, a.now) && b.tasks == a.tasks && b.now == a.now
  }

  lemma SyncExactly(a: Account)
    ensures SyncedAs(a, Sync(a))
  {
    SweptIsLasting(a.grants, a.now);
  }

  // ---------- credit ----------

  ghost predicate CreditedAs(a: Account, amount: int, expires: Option<int>, b: Account) {
    if amount <= 0 then b == a
    else
      && b.balance == a.balance + amount && b.tasks == a.tasks && b.now == a.now
      && |b.grants| == |a.grants| + 1 && a.grants <= b.grants
      && b.grants[|a.grants|] == Grant(amount, amount, expires, a.now)
  }

  lemma CreditExactly(a: Account, amount: int, expires: Option<int>)
    ensures CreditedAs(a, amount, expires, Credit(a, amount, expires))
  {
  }

  // ---------- spend ----------

  /** Points go out of g before any go out of h: it expires earlier, or at the same time and was created earlier; what
      never expires goes last. */
  predicate GoesFirst(g: Grant, h: Grant) {
    match (g.expires, h.expires)
    case (Some(x), Some(y)) => x < y || (x == y && g.created < h.created)
    case (Some(_), None) => true
    case (None, Some(_)) => false
    case (None, None) => g.created < h.created
  }

  /** Each slice names a grant of its own that has not run out, and takes some of what it held. */
  ghost predicate SlicesOf(a: Account, slices: seq<Slice>) {
    && (forall k :: 0 <= k < |slices| ==>
          && slices[k].grant < |a.grants| && slices[k].expires == a.grants[slices[k].grant].expires
          && !RunOut(a.grants[slices[k].grant], a.now)
          && 0 < slices[k].amount <= a.grants[slices[k].grant].remaining)
    && (forall j, k :: 0 <= j < k < |slices| ==> slices[j].grant != slices[k].grant)
  }

  /** What the slices took is gone, everything that had run out as well, and nothing else. */
  ghost predicate TakenFrom(a: Account, slices: seq<Slice>, gs: seq<Grant>) {
    && |gs| == |a.grants|
    && forall i :: 0 <= i < |gs| ==>
         && gs[i] == a.grants[i].(remaining := gs[i].remaining)
         && gs[i].remaining + On(slices, i) == Worth(a.grants[i], a.now)
  }

  ghost predicate EarliestFirst(slices: seq<Slice>, gs: seq<Grant>) {
    forall i, j :: 0 <= i < |gs| && 0 <= j < |gs| && GoesFirst(gs[i], gs[j]) && On(slices, j) > 0 ==>
        gs[i].remaining == 0
  }

  /** A spend deducts the smaller of the request and what has not run out; without partial spending it is refused
      exactly when that is too little. The deduction comes from grants that have not run out, the earliest expiry
      emptied first. */
  ghost predicate SpentAs(a: Account, amount: int, allowPartial: bool, r: Spent) {
    var lasting := Lasting(a.grants, a.now);
    if amount <= 0 then r == Spent(a, 0, [])
    else
      && (r == Insufficient <==> !allowPartial && lasting < amount)
      && (r.Spent? ==>
            && r.deducted == (if lasting < amount then lasting else amount)
            && Total(r.allocation) == r.deducted && r.account.balance == lasting - r.deducted
            && SlicesOf(a, r.allocation) && TakenFrom(a, r.allocation, r.account.grants)
            && EarliestFirst(r.allocation, r.account.grants)
            && r.account.tasks == a.tasks && r.account.now == a.now)
  }

  lemma {:induction false} OnPositive(slices: seq<Slice>, i: nat) returns (k: nat)
    requires On(slices, i) > 0
    ensures k < |slices| && slices[k].grant == i
  {
    var n := |slices| - 1;
    if slices[n].grant == i { k := n; } else { k := OnPositive(slices[..n], i); }
  }

  lemma {:induction false} OnNamed(slices: seq<Slice>, k: nat)
    requires k < |slices|
    ensures On(slices, slices[k].grant) >= slices[k].amount
  {
    var n := |slices| - 1;
    if k < n { OnNamed(slices[..n], k); }
  }

  /** One more grant of the loop, behind one that is empty or from which nothing may follow yet. */
  lemma TakenNext(s: Spending, x: nat, p: nat, q: nat)
    requires x < |s.grants| && p < |s.grants| && s.left >= 0 && q != x
    requires On(s.allocation, q) > 0 ==> s.grants[p].remaining == 0
    ensures var s' := TakeOne(s, x); On(s'.allocation, q) > 0 ==> s'.grants[p].remaining == 0
  {
    TakeOneEffect(s, x);
    var s' := TakeOne(s, x);
    if s'.left < s.left { OnAppend(s.allocation, s'.allocation[|s.allocation|], q); }
  }

  lemma NothingOn(slices: seq<Slice>, order: seq<nat>, x: nat)
    requires x !in order && forall k :: 0 <= k < |slices| ==> slices[k].grant in order
    ensures On(slices, x) == 0
  {
    if On(slices, x) > 0 { var k := OnPositive(slices, x); }
  }

  lemma TakenLast(s: Spending, x: nat, p: nat)
    requires x < |s.grants| && p < |s.grants| && p != x && s.left >= 0 && On(s.allocation, x) == 0
    requires s.left > 0 ==> s.grants[p].remaining == 0
    ensures var s' := TakeOne(s, x); On(s'.allocation, x) > 0 ==> s'.grants[p].remaining == 0
  {
    TakeOneEffect(s, x);
  }

  lemma NothingOnLast(gs: seq<Grant>, order: seq<nat>, need: nat)
    requires order != [] && Indices(gs, order) && Distinct(order)
    ensures var n := |order| - 1;
            On(TakeAll(gs, order[..n], need).allocation, order[n]) == 0
  {
    var n := |order| - 1;
    TakeAllAllocation(gs, order[..n], need);
    NothingOn(TakeAll(gs, order[..n], need).allocation, order[..n], order[n]);
  }

  /** In the loop's order: when something went out of a grant, every grant before it is empty. */
  lemma {:induction false} TakenInOrder(gs: seq<Grant>, order: seq<nat>, need: nat, p: nat, q: nat)
    requires Indices(gs, order) && Distinct(order) && p < q < |order|
    ensures var s := TakeAll(gs, order, need); On(s.allocation, order[q]) > 0 ==> s.grants[order[p]].remaining == 0
  {
    var n := |order| - 1;
    var front := order[..n];
    var s := TakeAll(gs, front, need);
    TakeAllGrants(gs, front, need);
    assert front[p] == order[p];
    if q < n {
      TakenInOrder(gs, front, need, p, q);
      TakenNext(s, order[n], order[p], order[q]);
    } else {
      NothingOnLast(gs, order, need);
      TakenLast(s, order[n], order[p]);
    }
  }

  lemma PlacedBefore(gs: seq<Grant>, order: seq<nat>, i: nat, j: nat) returns (p: nat, q: nat)
    requires SpendOrder(gs, |gs|, order) && i in order && j in order && i < |gs| && j < |gs| && GoesFirst(gs[i], gs[j])
    ensures p < q < |order| && order[p] == i && order[q] == j
  {
    p :| 0 <= p < |order| && order[p] == i;
    q :| 0 <= q < |order| && order[q] == j;
  }

  lemma TakesEarliestFirst(gs: seq<Grant>, amount: nat)
    ensures var s := TakeAll(gs, SortByExpiry(gs, |gs|), amount); EarliestFirst(s.allocation, s.grants)
  {
    var order := SortByExpiry(gs, |gs|);
    OrderIsDistinct(gs);
    TakeAllGrants(gs, order, amount);
    TakeAllAllocation(gs, order, amount);
    var s := TakeAll(gs, order, amount);
    forall i, j | 0 <= i < |gs| && 0 <= j < |gs| && GoesFirst(s.grants[i], s.grants[j]) && On(s.allocation, j) > 0
      ensures s.grants[i].remaining == 0
    {
      if i in order {
        var k := OnPositive(s.allocation, j);
        var p, q := PlacedBefore(gs, order, i, j);
        TakenInOrder(gs, order, amount, p, q);
      }
    }
  }

  lemma SlicesAreOf(a: Account, amount: nat)
    ensures SlicesOf(a, TakeAll(Sync(a).grants, SortByExpiry(Sync(a).grants, |a.grants|), amount).allocation)
    ensures var s := TakeAll(Sync(a).grants, SortByExpiry(Sync(a).grants, |a.grants|), amount);
            TakenFrom(a, s.allocation, s.grants)
  {
    var gs := Sync(a).grants;
    var order := SortByExpiry(gs, |gs|);
    SyncExactly(a);
    OrderIsDistinct(gs);
    TakeAllAllocation(gs, order, amount);
    TakeAllGrants(gs, order, amount);
    var s := TakeAll(gs, order, amount);
    forall i | 0 <= i < |gs| ensures s.grants[i].remaining + On(s.allocation, i) == gs[i].remaining {
      TakeAllOn(gs, order, amount, i);
    }
    forall k | 0 <= k < |s.allocation|
      ensures 0 < s.allocation[k].amount <= gs[s.allocation[k].grant].remaining
    {
      OnNamed(s.allocation, k);
    }
  }

  lemma LoopGivesSpend(a: Account, amount: int, allowPartial: bool, s: Spending)
    requires amount > 0 && SyncedAs(a, Sync(a))
    requires var lasting := Lasting(a.grants, a.now);
             amount - s.left == (if lasting < amount then lasting else amount) && Total(s.allocation) == amount - s.left
    requires SlicesOf(a, s.allocation) && TakenFrom(a, s.allocation, s.grants) && EarliestFirst(s.allocation, s.grants)
    requires s.left == amount ==> s.allocation == [] && s.grants == Sync(a).grants
    ensures SpentAs(a, amount, allowPartial,
                    if Sync(a).balance < amount && !allowPartial then Insufficient else Settle(Sync(a), s, amount))
  {
  }

  lemma LoopAmounts(a: Account, amount: nat)
    ensures var s := TakeAll(Sync(a).grants, SortByExpiry(Sync(a).grants, |a.grants|), amount);
            var lasting := Lasting(a.grants, a.now);
            && amount - s.left == (if lasting < amount then lasting else amount)
            && Total(s.allocation) == amount - s.left
            && (s.left == amount ==> s.allocation == [] || amount == 0)
  {
    SweptIsLasting(a.grants, a.now);
    TakeFacts(Sync(a).grants, amount);
  }

  lemma NothingGone(gs: seq<Grant>, amount: nat)
    requires TakeAll(gs, SortByExpiry(gs, |gs|), amount).allocation == []
    ensures TakeAll(gs, SortByExpiry(gs, |gs|), amount).grants == gs
  {
    var order := SortByExpiry(gs, |gs|);
    OrderIsDistinct(gs);
    TakeAllGrants(gs, order, amount);
    forall i | 0 <= i < |gs| ensures TakeAll(gs, order, amount).grants[i] == gs[i] {
      TakeAllOn(gs, order, amount, i);
    }
  }

  lemma SpendExactly(a: Account, amount: int, allowPartial: bool)
    ensures SpentAs(a, amount, allowPartial, Spend(a, amount, allowPartial))
  {
    if amount > 0 {
      SyncExactly(a);
      LoopAmounts(a, amount);
      SlicesAreOf(a, amount);
      TakesEarliestFirst(Sync(a).grants, amount);
      var s := TakeAll(Sync(a).grants, SortByExpiry(Sync(a).grants, |a.grants|), amount);
      if s.left == amount { NothingGone(Sync(a).grants, amount); }
      LoopGivesSpend(a, amount, allowPartial, s);
    }
  }

  // ---------- restore ----------

  /** One slice goes back: into its grant, which takes over the slice's expiry if it has none, or into a new grant
      when its own is missing. */
  lemma RestoreOneExactly(gs: seq<Grant>, x: Slice, now: int)
    ensures var hs := RestoreOne(gs, x, now);
            if x.amount == 0 then hs == gs
            else if x.grant >= |gs| then hs == gs + [Grant(x.amount, x.amount, x.expires, now)]
            else
              && |hs| == |gs| && (forall i :: 0 <= i < |gs| && i != x.grant ==> hs[i] == gs[i])
              && (var (g, h) := (gs[x.grant], hs[x.grant]);
                  && h.remaining == g.remaining + x.amount && h.amount == g.amount && h.created == g.created
                  && h.expires == if g.expires.Some? then g.expires else x.expires)
  {
  }

  /** Each grant gets back what the allocation says was taken from it; without an allocation the amount becomes a
      grant that never expires. */
  ghost predicate RestoredAs(a: Account, allocation: seq<Slice>, fallback: nat, b: Account) {
    && b.tasks == a.tasks && b.now == a.now
    && (if allocation != []
        then && b.balance == a.balance + Total(allocation)
             && (SlicesFit(a.grants, allocation) ==>
                   && |b.grants| == |a.grants|
                   && forall i :: 0 <= i < |a.grants| ==>
                        b.grants[i] == a.grants[i].(remaining := a.grants[i].remaining + On(allocation, i)))
        else CreditedAs(a, fallback, None, b))
  }

  lemma RestoreExactly(a: Account, allocation: seq<Slice>, fallback: nat)
    ensures RestoredAs(a, allocation, fallback, Restore(a, allocation, fallback))
  {
    if allocation != [] && SlicesFit(a.grants, allocation) {
      RestoreAllEffect(a.grants, allocation, a.now);
      forall i | 0 <= i < |a.grants|
        ensures RestoreAll(a.grants, allocation, a.now)[i].remaining == a.grants[i].remaining + On(allocation, i)
      {
        RestoreAllOn(a.grants, allocation, a.now, i);
      }
    }
  }

  // ---------- tasks ----------

  /** A task is refused exactly when its cost is more than what lasts. Otherwise its cost, if any, is taken as a spend
      takes it and frozen in one new task that waits for its image. */
  ghost predicate SubmittedAs(a: Account, cost: int, remote: bool, r: Option<Account>) {
    var lasting := Lasting(a.grants, a.now);
    && (r.None? <==> cost > 0 && lasting < cost)
    && (r.Some? ==>
          var (b, paid) := (r.value, if cost > 0 then cost else 0);
          && |b.tasks| == |a.tasks| + 1
          && (var slices := b.tasks[|a.tasks|].deductions;
              && b.tasks == a.tasks + [Task(Processing, paid, paid, slices, remote, false, a.now)]
              && Total(slices) == paid && b.balance == lasting - paid && b.now == a.now
              && SlicesOf(a, slices) && TakenFrom(a, slices, b.grants) && EarliestFirst(slices, b.grants)))
  }

  lemma {:induction false} LastingAfterSync(gs: seq<Grant>, hs: seq<Grant>, now: int)
    requires |hs| == |gs|
    requires forall i :: 0 <= i < |gs| ==> hs[i] == gs[i].(remaining := Worth(gs[i], now))
    ensures Lasting(hs, now) == Lasting(gs, now)
  {
    if gs != [] { LastingAfterSync(gs[..|gs| - 1], hs[..|hs| - 1], now); }
  }

  lemma SyncedSlices(a: Account, slices: seq<Slice>, gs: seq<Grant>)
    requires SyncedAs(a, Sync(a)) && SlicesOf(Sync(a), slices) && TakenFrom(Sync(a), slices, gs)
    ensures SlicesOf(a, slices) && TakenFrom(a, slices, gs)
  {
  }

  lemma SyncedSpend(a: Account, amount: int, r: Spent)
    requires amount > 0 && SpentAs(Sync(a), amount, false, r)
    ensures SpentAs(a, amount, false, r)
  {
    SyncExactly(a);
    LastingAfterSync(a.grants, Sync(a).grants, a.now);
    if r.Spent? { SyncedSlices(a, r.allocation, r.account.grants); }
  }

  lemma NothingSpent(a: Account)
    ensures SlicesOf(a, []) && TakenFrom(a, [], Sync(a).grants) && EarliestFirst([], Sync(a).grants)
  {
    SyncExactly(a);
  }

  lemma SubmitExactly(a: Account, cost: int, remote: bool)
    ensures SubmittedAs(a, cost, remote, Submit(a, cost, remote))
  {
    SyncExactly(a);
    SpendExactly(Sync(a), cost, false);
    if cost > 0 { SyncedSpend(a, cost, Spend(Sync(a), cost, false)); } else { NothingSpent(a); }
  }

  /** A refunded task has failed and holds nothing; what it held went back. */
  ghost predicate RefundedAs(a: Account, t: nat, b: Account)
    requires t < |a.tasks|
  {
    var task := a.tasks[t];
    if task.frozen > 0
    then && b.tasks == a.tasks[t := Task(Failed, task.cost, 0, [], task.remote, task.hasImage, task.created)]
         && RestoredAs(a, task.deductions, task.frozen, b.(tasks := a.tasks))
    else b == a.(tasks := a.tasks[t := task.(status := Failed)])
  }

  lemma RefundExactly(a: Account, t: nat)
    requires t < |a.tasks|
    ensures RefundedAs(a, t, RefundTask(a, t))
  {
    RestoreExactly(a, a.tasks[t].deductions, a.tasks[t].frozen);
  }

  /** A completed task has its image and holds nothing; no grant changes. */
  ghost predicate FinishedAs(a: Account, t: nat, b: Account)
    requires t < |a.tasks|
  {
    var task := a.tasks[t];
    b == a.(tasks := a.tasks[t := Task(Success, task.cost, 0, task.deductions, false, true, task.created)])
  }

  lemma FinishExactly(a: Account, t: nat)
    requires t < |a.tasks|
    ensures FinishedAs(a, t, CompleteTask(a, t))
  {
  }

  /** A local task without image is refunded a minute after its timeout. An upstream task in progress is refunded when
      it failed there and, when it succeeded there, is marked successful with its points left in it. Nothing else
      changes anything. */
  ghost predicate PolledAs(a: Account, t: nat, timeout: int, result: RemoteResult, b: Account)
    requires t < |a.tasks|
  {
    var task := a.tasks[t];
    var overdue := !task.remote && !task.hasImage && a.now >= task.created + timeout + 60_000_000;
    if task.status == Processing && (overdue || (task.remote && result == RemoteFailure)) then RefundedAs(a, t, b)
    else if task.status == Processing && task.remote && result == RemoteSuccess
    then b == a.(tasks :=
                 a.tasks[t := Task(Success, task.cost, task.frozen, task.deductions, true, true, task.created)])
    else b == a
  }

  lemma PollExactly(a: Account, t: nat, timeout: int, result: RemoteResult)
    requires t < |a.tasks|
    ensures PolledAs(a, t, timeout, result, Poll(a, t, timeout, result))
  {
    RefundExactly(a, t);
  }

  // ---------- administration ----------

  /** A positive adjustment is a grant that never expires; a negative one is a spend of as much as there is. */
  ghost predicate AdjustedAs(a: Account, amount: int, b: Account) {
    if amount >= 0 then CreditedAs(a, amount, None, b)
    else exists r: Spent :: r.Spent? && r.account == b && SpentAs(a, -amount, true, r)
  }

  lemma AdjustExactly(a: Account, amount: int)
    ensures AdjustedAs(a, amount, Adjust(a, amount))
  {
    if amount > 0 {
      CreditExactly(a, amount, None);
    } else {
      SpendExactly(a, -amount, true);
    }
  }

  /** A refunded order is a spend of as much as there is; the balance is what lasts without it. */
  ghost predicate OrderRefundedAs(a: Account, points: int, b: Account) {
    var lasting := Lasting(a.grants, a.now);
    && (points <= 0 ==> SyncedAs(a, b))
    && (points > 0 ==> b.balance == (if lasting < points then 0 else lasting - points)
                       && exists r: Spent :: r.Spent? && SpentAs(a, points, true, r) && b == r.account)
  }

  lemma {:induction false} LastingIsRemaining(gs: seq<Grant>, now: int)
    requires forall i :: 0 <= i < |gs| && RunOut(gs[i], now) ==> gs[i].remaining == 0
    ensures SweepAll(gs, now) == gs && Lasting(gs, now) == Remaining(gs)
  {
    AllLasting(gs, now);
    assert SweepAll(gs, now) == gs;
  }

  lemma SpentIsSynced(a: Account, amount: int)
    requires amount > 0
    ensures var r := Spend(a, amount, true); r.Spent? && Sync(r.account) == r.account
  {
    SpendsExactly(a, amount, true);
    SpendExactly(a, amount, true);
    var b := Spend(a, amount, true).account;
    LastingIsRemaining(b.grants, b.now);
  }

  lemma OrderRefundExactly(a: Account, points: int)
    ensures OrderRefundedAs(a, points, RefundOrder(a, points))
  {
    SpendExactly(a, points, true);
    if points > 0 {
      SpentIsSynced(a, points);
    } else {
      SyncExactly(a);
    }
  }
}
