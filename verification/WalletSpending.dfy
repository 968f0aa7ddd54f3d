/** What one spend promises: exact amount, best choice of grants, and exact undo. */
module WalletSpending {
  import opened Wallet

  // ---------- sums under an update ----------

  lemma {:induction false} SumsAfterSet(gs: seq<Grant>, i: nat, g: Grant)
    requires i < |gs|
    ensures Remaining(gs[i := g]) == Remaining(gs) - gs[i].remaining + g.remaining
    ensures Issued(gs[i := g]) == Issued(gs) - gs[i].amount + g.amount
  {
    var n := |gs| - 1;
    if i == n {
      assert gs[i := g][..n] == gs[..n];
    } else {
      SumsAfterSet(gs[..n], i, g);
      assert gs[i := g][..n] == gs[..n][i := g];
    }
  }

  lemma SumsAfterAppend(gs: seq<Grant>, g: Grant)
    ensures Remaining(gs + [g]) == Remaining(gs) + g.remaining
    ensures Issued(gs + [g]) == Issued(gs) + g.amount
  {
    assert (gs + [g])[..|gs|] == gs;
  }

  lemma {:induction false} SweepSums(gs: seq<Grant>, now: int)
    ensures Remaining(SweepAll(gs, now)) <= Remaining(gs)
    ensures Issued(SweepAll(gs, now)) == Issued(gs)
  {
    if gs != [] {
      var n := |gs| - 1;
      SweepSums(gs[..n], now);
      assert SweepAll(gs, now)[..n] == SweepAll(gs[..n], now);
    }
  }

  lemma {:induction false} RemainingZero(gs: seq<Grant>)
    requires forall i :: 0 <= i < |gs| ==> gs[i].remaining == 0
    ensures Remaining(gs) == 0
  {
    if gs != [] { RemainingZero(gs[..|gs| - 1]); }
  }

  lemma SweepTwice(gs: seq<Grant>, now: int)
    ensures SweepAll(SweepAll(gs, now), now) == SweepAll(gs, now)
  {
  }

  // ---------- the greedy loop ----------

  /** An allocation over the grants: each entry takes a positive amount from an existing grant, no grant twice. */
  ghost predicate Allocation(gs: seq<Grant>, slices: seq<Slice>) {
    && (forall k :: 0 <= k < |slices| ==>
          slices[k].grant < |gs| && slices[k].amount > 0 && slices[k].expires == gs[slices[k].grant].expires)
    && (forall j, k :: 0 <= j < k < |slices| ==> slices[j].grant != slices[k].grant)
  }

  /** Everything but the remaining amounts is left alone. */
  ghost predicate SameGrants(gs: seq<Grant>, hs: seq<Grant>) {
    |gs| == |hs| && forall i :: 0 <= i < |gs| ==> hs[i] == gs[i].(remaining := hs[i].remaining)
  }

  lemma OnAppend(slices: seq<Slice>, x: Slice, i: nat)
    ensures On(slices + [x], i) == On(slices, i) + if x.grant == i then x.amount else 0
    ensures Total(slices + [x]) == Total(slices) + x.amount
  {
    assert (slices + [x])[..|slices|] == slices;
  }

  lemma TakeOneEffect(s: Spending, i: nat)
    requires i < |s.grants| && 0 <= s.left
    ensures var s' := TakeOne(s, i);
            && SameGrants(s.grants, s'.grants) && 0 <= s'.left <= s.left
            && s'.grants == s.grants[i := s'.grants[i]]
            && s'.grants[i].remaining + (s.left - s'.left) == s.grants[i].remaining
            && (s'.left > 0 ==> s'.grants[i].remaining == 0)
            && s'.allocation == (if s'.left < s.left
                                 then s.allocation + [Slice(i, s.left - s'.left, s.grants[i].expires)]
                                 else s.allocation)
  {
  }

  ghost predicate Indices(gs: seq<Grant>, order: seq<nat>) {
    forall k :: 0 <= k < |order| ==> order[k] < |gs|
  }

  ghost predicate Distinct(order: seq<nat>) {
    forall j, k :: 0 <= j < k < |order| ==> order[j] != order[k]
  }

  lemma {:induction false} TakeAllGrants(gs: seq<Grant>, order: seq<nat>, need: nat)
    requires Indices(gs, order) && Distinct(order)
    ensures var s := TakeAll(gs, order, need);
            && SameGrants(gs, s.grants) && 0 <= s.left <= need
            && (s.left > 0 ==> forall k :: 0 <= k < |order| ==> s.grants[order[k]].remaining == 0)
            && (forall i :: 0 <= i < |gs| && i !in order ==> s.grants[i] == gs[i])
            && (forall i :: 0 <= i < |gs| ==> s.grants[i].remaining <= gs[i].remaining)
  {
    if order != [] {
      var n := |order| - 1;
      TakeAllGrants(gs, order[..n], need);
      TakeOneEffect(TakeAll(gs, order[..n], need), order[n]);
      assert order == order[..n] + [order[n]];
    }
  }

  lemma {:induction false} TakeAllSums(gs: seq<Grant>, order: seq<nat>, need: nat)
    requires Indices(gs, order) && Distinct(order)
    ensures var s := TakeAll(gs, order, need);
            && Total(s.allocation) + s.left == need
            && Remaining(s.grants) + Total(s.allocation) == Remaining(gs) && Issued(s.grants) == Issued(gs)
  {
    if order != [] {
      var n := |order| - 1;
      var s := TakeAll(gs, order[..n], need);
      TakeAllSums(gs, order[..n], need);
      TakeAllGrants(gs, order[..n], need);
      TakeOneEffect(s, order[n]);
      var s' := TakeOne(s, order[n]);
      SumsAfterSet(s.grants, order[n], s'.grants[order[n]]);
      if s'.left < s.left {
        OnAppend(s.allocation, s'.allocation[|s.allocation|], 0);
      }
    }
  }

  lemma AllocationAppend(gs: seq<Grant>, slices: seq<Slice>, order: seq<nat>, x: Slice)
    requires Allocation(gs, slices) && forall k :: 0 <= k < |slices| ==> slices[k].grant in order
    requires x.grant < |gs| && x.amount > 0 && x.expires == gs[x.grant].expires && x.grant !in order
    ensures Allocation(gs, slices + [x])
    ensures forall k :: 0 <= k < |slices + [x]| ==> (slices + [x])[k].grant in order + [x.grant]
  {
  }

  lemma {:induction false} TakeAllAllocation(gs: seq<Grant>, order: seq<nat>, need: nat)
    requires Indices(gs, order) && Distinct(order)
    ensures var s := TakeAll(gs, order, need);
            && SameGrants(gs, s.grants)
            && Allocation(gs, s.allocation) && (forall k :: 0 <= k < |s.allocation| ==> s.allocation[k].grant in order)
  {
    if order != [] {
      var n := |order| - 1;
      var s := TakeAll(gs, order[..n], need);
      TakeAllAllocation(gs, order[..n], need);
      TakeAllGrants(gs, order[..n], need);
      TakeOneEffect(s, order[n]);
      assert order == order[..n] + [order[n]];
      var s' := TakeOne(s, order[n]);
      if s'.left < s.left {
        AllocationAppend(gs, s.allocation, order[..n], s'.allocation[|s.allocation|]);
      }
    }
  }

  /** Grant by grant, what was taken and what is left add up. */
  lemma {:induction false} TakeAllOn(gs: seq<Grant>, order: seq<nat>, need: nat, i: nat)
    requires Indices(gs, order) && Distinct(order) && i < |gs|
    ensures var s := TakeAll(gs, order, need); s.grants[i].remaining + On(s.allocation, i) == gs[i].remaining
  {
    if order != [] {
      var n := |order| - 1;
      var s := TakeAll(gs, order[..n], need);
      TakeAllOn(gs, order[..n], need, i);
      TakeAllGrants(gs, order[..n], need);
      TakeOneEffect(s, order[n]);
      var s' := TakeOne(s, order[n]);
      if s'.left < s.left {
        OnAppend(s.allocation, s'.allocation[|s.allocation|], i);
      }
    }
  }

  // ---------- exact amount, all or nothing ----------

  lemma OrderIsDistinct(gs: seq<Grant>)
    ensures var order := SortByExpiry(gs, |gs|); Indices(gs, order) && Distinct(order)
  {
  }

  lemma AllOrderedEmpty(gs: seq<Grant>, hs: seq<Grant>, order: seq<nat>)
    requires SpendOrder(gs, |gs|, order) && |hs| == |gs|
    requires forall k :: 0 <= k < |order| ==> hs[order[k]].remaining == 0
    requires forall i :: 0 <= i < |gs| && i !in order ==> hs[i] == gs[i]
    ensures Remaining(hs) == 0
  {
    forall i | 0 <= i < |hs| ensures hs[i].remaining == 0 {
      if i in order {
        var k :| 0 <= k < |order| && order[k] == i;
      }
    }
    RemainingZero(hs);
  }

  lemma TakesMin(gs: seq<Grant>, need: nat)
    ensures need - TakeAll(gs, SortByExpiry(gs, |gs|), need).left == Min(need, Remaining(gs))
  {
    var order := SortByExpiry(gs, |gs|);
    OrderIsDistinct(gs);
    TakeAllGrants(gs, order, need);
    TakeAllSums(gs, order, need);
    var s := TakeAll(gs, order, need);
    if s.left > 0 {
      AllOrderedEmpty(gs, s.grants, order);
    }
  }

  /** No grant holds more than before. */
  ghost predicate Lowered(gs: seq<Grant>, hs: seq<Grant>) {
    |hs| == |gs| && forall i :: 0 <= i < |gs| ==> hs[i].remaining <= gs[i].remaining
  }

  /** What running the loop over all grants in spending order comes to. */
  ghost predicate TookRight(gs: seq<Grant>, s: Spending, amount: nat) {
    && amount - s.left == Min(amount, Remaining(gs))
    && Total(s.allocation) == amount - s.left && Allocation(gs, s.allocation)
    && Remaining(s.grants) == Remaining(gs) - (amount - s.left)
    && Issued(s.grants) == Issued(gs) && SameGrants(gs, s.grants) && Lowered(gs, s.grants)
    && (amount > 0 && s.left == amount ==> s.allocation == [])
  }

  lemma TakeFacts(gs: seq<Grant>, amount: nat)
    ensures TookRight(gs, TakeAll(gs, SortByExpiry(gs, |gs|), amount), amount)
  {
    var order := SortByExpiry(gs, |gs|);
    OrderIsDistinct(gs);
    TakesMin(gs, amount);
    TakeAllSums(gs, order, amount);
    TakeAllAllocation(gs, order, amount);
    TakeAllGrants(gs, order, amount);
  }

  lemma SettleFacts(b: Account, s: Spending, amount: nat)
    requires amount > 0 && b.balance == Remaining(b.grants) && TookRight(b.grants, s, amount)
    ensures var r := Settle(b, s, amount);
            && r.Spent? && r.deducted == Min(amount, Remaining(b.grants))
            && Total(r.allocation) == r.deducted && Allocation(b.grants, r.allocation)
            && r.account.balance == Remaining(r.account.grants) == Remaining(b.grants) - r.deducted
            && Issued(r.account.grants) == Issued(b.grants)
            && SameGrants(b.grants, r.account.grants) && Lowered(b.grants, r.account.grants)
            && r.account.tasks == b.tasks && r.account.now == b.now
  {
  }

  /** What a spend promises, relative to the account just after its sync. */
  ghost predicate SpentRight(a: Account, gs: seq<Grant>, amount: int, allowPartial: bool, r: Spent) {
    match r
    case Insufficient => !allowPartial && Remaining(gs) < amount
    case Spent(b, deducted, allocation) =>
      && (!allowPartial ==> amount <= Remaining(gs))
      && deducted == Min(amount, Remaining(gs))
      && Total(allocation) == deducted && Allocation(gs, allocation)
      && b.balance == Remaining(b.grants) == Remaining(gs) - deducted
      && Issued(b.grants) == Issued(a.grants)
      && SameGrants(a.grants, b.grants) && Lowered(gs, b.grants) && b.tasks == a.tasks && b.now == a.now
  }

  lemma SettleIsRight(a: Account, b: Account, s: Spending, amount: nat, allowPartial: bool)
    requires amount > 0 && b.balance == Remaining(b.grants) && TookRight(b.grants, s, amount)
    requires SameGrants(a.grants, b.grants) && Issued(b.grants) == Issued(a.grants) && b.tasks == a.tasks
             && b.now == a.now
    ensures SpentRight(a, b.grants, amount, allowPartial,
                       if b.balance < amount && !allowPartial then Insufficient else Settle(b, s, amount))
  {
    SettleFacts(b, s, amount);
  }

  predicate ExpiresAfter(g: Grant, t: int) {
    g.expires.Some? ==> g.expires.value > t
  }

  /** The points that are still usable after the instant t. */
  function Lasting(gs: seq<Grant>, t: int): nat {
    if gs == [] then 0
    else Lasting(gs[..|gs| - 1], t) + if ExpiresAfter(gs[|gs| - 1], t) then gs[|gs| - 1].remaining else 0
  }

  lemma {:induction false} SweptIsLasting(gs: seq<Grant>, now: int)
    ensures Remaining(SweepAll(gs, now)) == Lasting(gs, now)
  {
    if gs != [] {
      var n := |gs| - 1;
      SweptIsLasting(gs[..n], now);
      assert SweepAll(gs, now)[..n] == SweepAll(gs[..n], now);
    }
  }

  /** The spend deducts exactly the smaller of the request and what has not expired, through an allocation that names
      each grant at most once and sums to the deduction; without partial spending it is all or nothing. */
  lemma SpendsExactly(a: Account, amount: int, allowPartial: bool)
    requires amount > 0
    ensures SpentRight(a, SweepAll(a.grants, a.now), amount, allowPartial, Spend(a, amount, allowPartial))
    ensures var (r, lasting) := (Spend(a, amount, allowPartial), Lasting(a.grants, a.now));
            && (r == Insufficient <==> !allowPartial && lasting < amount)
            && (r.Spent? ==> r.deducted == if lasting < amount then lasting else amount)
  {
    var b := Sync(a);
    SweepSums(a.grants, a.now);
    SweptIsLasting(a.grants, a.now);
    TakeFacts(b.grants, amount);
    SettleIsRight(a, b, TakeAll(b.grants, SortByExpiry(b.grants, |b.grants|), amount), amount, allowPartial);
  }

  // ---------- earliest expiry first is the best choice ----------

  lemma {:induction false} LastingAfterSet(gs: seq<Grant>, i: nat, remaining: nat, t: int)
    requires i < |gs|
    ensures Lasting(gs[i := gs[i].(remaining := remaining)], t) ==
            Lasting(gs, t) + if ExpiresAfter(gs[i], t) then remaining - gs[i].remaining else 0
  {
    var n := |gs| - 1;
    var gs' := gs[i := gs[i].(remaining := remaining)];
    if i == n {
      assert gs'[..n] == gs[..n];
    } else {
      LastingAfterSet(gs[..n], i, remaining, t);
      assert gs'[..n] == gs[..n][i := gs[i].(remaining := remaining)];
    }
  }

  lemma {:induction false} LastingBounds(gs: seq<Grant>, hs: seq<Grant>, t: int)
    requires SameGrants(gs, hs) && forall i :: 0 <= i < |gs| ==> hs[i].remaining <= gs[i].remaining
    ensures Lasting(hs, t) <= Lasting(gs, t)
    ensures Lasting(hs, t) <= Remaining(hs)
  {
    if gs != [] {
      LastingBounds(gs[..|gs| - 1], hs[..|hs| - 1], t);
    }
  }

  lemma {:induction false} AllLasting(gs: seq<Grant>, t: int)
    requires forall i :: 0 <= i < |gs| && !ExpiresAfter(gs[i], t) ==> gs[i].remaining == 0
    ensures Lasting(gs, t) == Remaining(gs)
  {
    if gs != [] { AllLasting(gs[..|gs| - 1], t); }
  }

  /** Either no lasting grant was touched, or the early ones are empty. */
  ghost predicate EarlyFirst(gs: seq<Grant>, hs: seq<Grant>, t: int)
    requires |hs| == |gs|
  {
    || Lasting(hs, t) == Lasting(gs, t)
    || forall i :: 0 <= i < |gs| && !ExpiresAfter(gs[i], t) ==> hs[i].remaining == 0
  }

  /** When the loop reaches a lasting grant, the early ones are empty already. */
  lemma EarlyEmpty(gs: seq<Grant>, order: seq<nat>, k: nat, hs: seq<Grant>, t: int)
    requires SpendOrder(gs, |gs|, order) && k < |order| && ExpiresAfter(gs[order[k]], t) && |hs| == |gs|
    requires forall j :: 0 <= j < k ==> hs[order[j]].remaining == 0
    requires forall i :: 0 <= i < |gs| ==> hs[i].remaining <= gs[i].remaining
    ensures forall i :: 0 <= i < |gs| && !ExpiresAfter(gs[i], t) ==> hs[i].remaining == 0
  {
    forall i | 0 <= i < |gs| && !ExpiresAfter(gs[i], t) ensures hs[i].remaining == 0 {
      EarlyIsExhausted(gs, order, k, i, t);
      if i in order[..k] {
        var j :| 0 <= j < k && order[..k][j] == i;
      }
    }
  }

  lemma EarlyFirstStep(gs: seq<Grant>, order: seq<nat>, k: nat, need: nat, t: int)
    requires SpendOrder(gs, |gs|, order) && k < |order| && Indices(gs, order[..k])
    requires EarlyFirst(gs, TakeAll(gs, order[..k], need).grants, t)
    ensures EarlyFirst(gs, TakeOne(TakeAll(gs, order[..k], need), order[k]).grants, t)
  {
    var front := order[..k];
    TakeAllGrants(gs, front, need);
    var s := TakeAll(gs, front, need);
    var x := order[k];
    TakeOneEffect(s, x);
    var s' := TakeOne(s, x);
    if s'.left < s.left {
      LastingAfterSet(s.grants, x, s'.grants[x].remaining, t);
      if ExpiresAfter(gs[x], t) {
        forall j | 0 <= j < k ensures s'.grants[order[j]].remaining == 0 {
          assert front[j] == order[j];
        }
        EarlyEmpty(gs, order, k, s'.grants, t);
      }
    } else {
      assert s'.grants == s.grants;
    }
  }

  /** The loop touches a lasting grant only when every earlier one is empty. */
  lemma {:induction false} GreedyTakesEarlyFirst(gs: seq<Grant>, order: seq<nat>, k: nat, need: nat, t: int)
    requires SpendOrder(gs, |gs|, order) && k <= |order|
    ensures Indices(gs, order[..k]) && EarlyFirst(gs, TakeAll(gs, order[..k], need).grants, t)
  {
    if k > 0 {
      assert order[..k][..k - 1] == order[..k - 1];
      GreedyTakesEarlyFirst(gs, order, k - 1, need, t);
      EarlyFirstStep(gs, order, k - 1, need, t);
    }
  }

  /** In spending order every early grant that holds points comes before a lasting one. */
  lemma EarlyIsExhausted(gs: seq<Grant>, order: seq<nat>, k: nat, i: nat, t: int)
    requires SpendOrder(gs, |gs|, order) && k < |order| && i < |gs|
    requires ExpiresAfter(gs[order[k]], t) && !ExpiresAfter(gs[i], t)
    ensures i in order[..k] || gs[i].remaining == 0
  {
    if gs[i].remaining > 0 {
      var j :| 0 <= j < |order| && order[j] == i;
      assert Before(gs[i], gs[order[k]]);
      assert order[..k][j] == i;
    }
  }

  lemma TakeIsOptimal(gs: seq<Grant>, amount: nat, other: seq<Grant>, t: int)
    requires SameGrants(gs, other) && Lowered(gs, other)
    requires Remaining(other) == Remaining(TakeAll(gs, SortByExpiry(gs, |gs|), amount).grants)
    ensures Lasting(other, t) <= Lasting(TakeAll(gs, SortByExpiry(gs, |gs|), amount).grants, t)
  {
    var order := SortByExpiry(gs, |gs|);
    assert order[..|order|] == order;
    GreedyTakesEarlyFirst(gs, order, |order|, amount, t);
    OrderIsDistinct(gs);
    TakeAllGrants(gs, order, amount);
    LastingBounds(gs, other, t);
    LastingBounds(other, other, t);
    var hs := TakeAll(gs, order, amount).grants;
    if Lasting(hs, t) != Lasting(gs, t) {
      AllLasting(hs, t);
    }
  }

  /** Exchange optimality: after the spend, for every instant t at least as many points outlive t as after any other
      way of taking the same total from the same grants. */
  lemma SpendIsOptimal(a: Account, amount: int, allowPartial: bool, other: seq<Grant>, t: int)
    requires Spend(a, amount, allowPartial).Spent? && amount > 0
    requires var gs := SweepAll(a.grants, a.now); SameGrants(gs, other) && Lowered(gs, other)
    requires Remaining(other) == Remaining(Spend(a, amount, allowPartial).account.grants)
    ensures Lasting(other, t) <= Lasting(Spend(a, amount, allowPartial).account.grants, t)
  {
    SpendsExactly(a, amount, allowPartial);
    if Spend(a, amount, allowPartial).deducted > 0 {
      TakeIsOptimal(SweepAll(a.grants, a.now), amount, other, t);
    } else {
      LastingBounds(other, other, t);
    }
  }

  // ---------- restore undoes spend ----------

  ghost predicate SlicesFit(gs: seq<Grant>, slices: seq<Slice>) {
    forall k :: 0 <= k < |slices| ==>
      slices[k].grant < |gs| && (gs[slices[k].grant].expires.None? ==> slices[k].expires.None?)
  }

  /** Replaying fitting slices only raises remaining amounts, by what the slices say. */
  lemma {:induction false} RestoreAllEffect(gs: seq<Grant>, slices: seq<Slice>, now: int)
    requires SlicesFit(gs, slices)
    ensures var r := RestoreAll(gs, slices, now);
            && SameGrants(gs, r)
            && Remaining(r) == Remaining(gs) + Total(slices) && Issued(r) == Issued(gs)
  {
    if slices != [] {
      var n := |slices| - 1;
      RestoreAllEffect(gs, slices[..n], now);
      var mid := RestoreAll(gs, slices[..n], now);
      var x := slices[n];
      assert x.grant < |mid|;
      SumsAfterSet(mid, x.grant, mid[x.grant].(remaining := mid[x.grant].remaining + x.amount));
      assert RestoreOne(mid, x, now) == mid[x.grant := mid[x.grant].(remaining := mid[x.grant].remaining + x.amount)];
    }
  }

  lemma {:induction false} RestoreAllOn(gs: seq<Grant>, slices: seq<Slice>, now: int, i: nat)
    requires SlicesFit(gs, slices) && i < |gs|
    ensures |RestoreAll(gs, slices, now)| == |gs|
    ensures RestoreAll(gs, slices, now)[i].remaining == gs[i].remaining + On(slices, i)
  {
    if slices != [] {
      var n := |slices| - 1;
      RestoreAllEffect(gs, slices[..n], now);
      RestoreAllOn(gs, slices[..n], now, i);
    }
  }

  lemma RestoreUndoesTake(gs: seq<Grant>, order: seq<nat>, need: nat, now: int)
    requires Indices(gs, order) && Distinct(order)
    ensures var s := TakeAll(gs, order, need); RestoreAll(s.grants, s.allocation, now) == gs
  {
    TakeAllAllocation(gs, order, need);
    var s := TakeAll(gs, order, need);
    RestoreAllEffect(s.grants, s.allocation, now);
    var r := RestoreAll(s.grants, s.allocation, now);
    forall i | 0 <= i < |gs| ensures r[i] == gs[i] {
      TakeAllOn(gs, order, need, i);
      RestoreAllOn(s.grants, s.allocation, now, i);
    }
    assert r == gs;
  }

  /** Replaying the allocation of a spend gives back, grant by grant, the account just after the spend's sync. */
  lemma RestoreUndoesSpend(a: Account, amount: int, allowPartial: bool)
    requires amount > 0 && Spend(a, amount, allowPartial).Spent? && Spend(a, amount, allowPartial).deducted > 0
    ensures var Spent(b, deducted, allocation) := Spend(a, amount, allowPartial);
            Restore(b, allocation, deducted) == Sync(a)
  {
    var gs := SweepAll(a.grants, a.now);
    OrderIsDistinct(gs);
    SpendsExactly(a, amount, allowPartial);
    RestoreUndoesTake(gs, SortByExpiry(gs, |gs|), amount, a.now);
  }
}
