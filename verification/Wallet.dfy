/** The points wallet on values: expiring grants, a cached balance, and tasks that hold spent points. */
module Wallet {
  import opened Wrappers

  /** A grant row; its position in the table is its id. */
  datatype Grant = Grant(amount: nat, remaining: nat, expires: Option<int>, created: int)

  /** One entry of the allocation a spend returns. */
  datatype Slice = Slice(grant: nat, amount: nat, expires: Option<int>)

  datatype TaskStatus = Processing | Success | Failed

  /** `remote` marks rows that carry an upstream task id; tasks submitted today never do. */
  datatype Task = Task(status: TaskStatus, cost: nat, frozen: nat, deductions: seq<Slice>, remote: bool, hasImage: bool,
                       created: int)

  datatype Account = Account(balance: int, grants: seq<Grant>, tasks: seq<Task>, now: int)

  // ---------- sums ----------

  function Remaining(gs: seq<Grant>): nat {
    if gs == [] then 0 else Remaining(gs[..|gs| - 1]) + gs[|gs| - 1].remaining
  }

  function Issued(gs: seq<Grant>): nat {
    if gs == [] then 0 else Issued(gs[..|gs| - 1]) + gs[|gs| - 1].amount
  }

  function Total(slices: seq<Slice>): nat {
    if slices == [] then 0 else Total(slices[..|slices| - 1]) + slices[|slices| - 1].amount
  }

  /** How much an allocation takes from one grant. */
  function On(slices: seq<Slice>, grant: nat): nat {
    if slices == [] then 0
    else On(slices[..|slices| - 1], grant) + if slices[|slices| - 1].grant == grant then slices[|slices| - 1].amount
                                             else 0
  }

  // ---------- expiry ----------

  predicate Expired(g: Grant, now: int) {
    g.expires.Some? && g.expires.value <= now
  }

  function Swept(g: Grant, now: int): Grant {
    if Expired(g, now) then g.(remaining := 0) else g
  }

  function SweepAll(gs: seq<Grant>, now: int): (r: seq<Grant>)
    ensures |r| == |gs| && forall i :: 0 <= i < |gs| ==> r[i] == Swept(gs[i], now)
  {
    if gs == [] then [] else SweepAll(gs[..|gs| - 1], now) + [Swept(gs[|gs| - 1], now)]
  }

  /** `_sync_point_balance`: zero what has expired and make the cached balance the sum of the rest. */
  function Sync(a: Account): Account {
    var gs := SweepAll(a.grants, a.now);
    a.(grants := gs, balance := Remaining(gs))
  }

  // ---------- earliest expiry first ----------

  /** The sort key: grants without expiry last, then by expiry, then by creation. */
  predicate Before(a: Grant, b: Grant) {
    || (a.expires.Some? && b.expires.None?)
    || (a.expires.Some? && b.expires.Some? && a.expires.value < b.expires.value)
    || (a.expires == b.expires && a.created < b.created)
  }

  /** Stable insertion: behind everything that does not sort after it. */
  function Insert(gs: seq<Grant>, ids: seq<nat>, i: nat): seq<nat>
    requires i < |gs| && forall k :: 0 <= k < |ids| ==> ids[k] < |gs|
  {
    if ids == [] then [i]
    else
      var n := |ids| - 1;
      if Before(gs[i], gs[ids[n]]) then Insert(gs, ids[..n], i) + [ids[n]] else ids + [i]
  }

  ghost predicate Ordered(gs: seq<Grant>, ids: seq<nat>) {
    && (forall k :: 0 <= k < |ids| ==> ids[k] < |gs|)
    && (forall j, k :: 0 <= j < k < |ids| ==> ids[j] != ids[k] && !Before(gs[ids[k]], gs[ids[j]]))
  }

  ghost predicate SpendOrder(gs: seq<Grant>, n: nat, ids: seq<nat>) {
    && Ordered(gs, ids)
    && forall i :: i in ids <==> 0 <= i < n && i < |gs| && gs[i].remaining > 0
  }

  lemma {:induction false} InsertMembers(gs: seq<Grant>, ids: seq<nat>, i: nat)
    requires i < |gs| && forall k :: 0 <= k < |ids| ==> ids[k] < |gs|
    ensures forall x :: x in Insert(gs, ids, i) <==> x == i || x in ids
  {
    if ids != [] {
      var n := |ids| - 1;
      assert ids == ids[..n] + [ids[n]];
      if Before(gs[i], gs[ids[n]]) {
        InsertMembers(gs, ids[..n], i);
      }
    }
  }

  lemma OrderedAppend(gs: seq<Grant>, ids: seq<nat>, i: nat)
    requires Ordered(gs, ids) && i < |gs| && i !in ids
    requires forall x :: x in ids ==> x < |gs| && !Before(gs[i], gs[x])
    ensures Ordered(gs, ids + [i])
  {
  }

  lemma {:induction false} InsertSorts(gs: seq<Grant>, ids: seq<nat>, i: nat)
    requires i < |gs| && i !in ids && Ordered(gs, ids)
    ensures Ordered(gs, Insert(gs, ids, i))
  {
    if ids == [] {
    } else if Before(gs[i], gs[ids[|ids| - 1]]) {
      var n := |ids| - 1;
      InsertSorts(gs, ids[..n], i);
      InsertMembers(gs, ids[..n], i);
      forall x | x in Insert(gs, ids[..n], i) ensures x < |gs| && x != ids[n] && !Before(gs[ids[n]], gs[x]) {
        if x != i {
          var j :| 0 <= j < n && ids[j] == x;
        }
      }
      OrderedAppend(gs, Insert(gs, ids[..n], i), ids[n]);
    } else {
      var n := |ids| - 1;
      forall x | x in ids ensures x < |gs| && !Before(gs[i], gs[x]) {
        var j :| 0 <= j < |ids| && ids[j] == x;
        assert j < n ==> !Before(gs[ids[n]], gs[ids[j]]);
      }
      OrderedAppend(gs, ids, i);
    }
  }

  /** The ids of the first `n` grants that still hold points, in spending order. */
  function SortByExpiry(gs: seq<Grant>, n: nat): (ids: seq<nat>)
    requires n <= |gs|
    ensures SpendOrder(gs, n, ids)
  {
    if n == 0 then []
    else
      var ids := SortByExpiry(gs, n - 1);
      if gs[n - 1].remaining > 0 then
        InsertSorts(gs, ids, n - 1);
        InsertMembers(gs, ids, n - 1);
        Insert(gs, ids, n - 1)
      else ids
  }

  // ---------- spending ----------

  datatype Spending = Spending(grants: seq<Grant>, left: int, allocation: seq<Slice>)

  function Min(a: int, b: int): int {
    if a < b then a else b
  }

  function TakeOne(s: Spending, i: nat): Spending
    requires i < |s.grants|
  {
    var take := Min(s.grants[i].remaining, s.left);
    if take <= 0 then s
    else Spending(s.grants[i := s.grants[i].(remaining := s.grants[i].remaining - take)], s.left - take,
                  s.allocation + [Slice(i, take, s.grants[i].expires)])
  }

  function TakeAll(gs: seq<Grant>, order: seq<nat>, need: int): (s: Spending)
    requires forall k :: 0 <= k < |order| ==> order[k] < |gs|
    ensures |s.grants| == |gs|
  {
    if order == [] then Spending(gs, need, [])
    else TakeOne(TakeAll(gs, order[..|order| - 1], need), order[|order| - 1])
  }

  datatype Spent = Insufficient | Spent(account: Account, deducted: int, allocation: seq<Slice>)

  /** The account after the loop. */
  function Settle(b: Account, s: Spending, amount: int): Spent {
    var deducted := amount - s.left;
    if deducted <= 0 then Spent(b, 0, [])
    else Spent(b.(grants := s.grants, balance := if b.balance - deducted < 0 then 0 else b.balance - deducted),
               deducted, s.allocation)
  }

  /** `_spend_points`; the refused case leaves the account as it was because its transaction is rolled back. */
  function Spend(a: Account, amount: int, allowPartial: bool): Spent {
    if amount <= 0 then Spent(a, 0, [])
    else
      var b := Sync(a);
      if b.balance < amount && !allowPartial then Insufficient
      else
        Settle(b, TakeAll(b.grants, SortByExpiry(b.grants, |b.grants|), amount), amount)
  }

  /** `_credit_points`. */
  function Credit(a: Account, amount: int, expires: Option<int>): Account {
    if amount <= 0 then a
    else a.(balance := a.balance + amount, grants := a.grants + [Grant(amount, amount, expires, a.now)])
  }

  // ---------- restoring ----------

  function RestoreOne(gs: seq<Grant>, slice: Slice, now: int): seq<Grant> {
    if slice.amount == 0 then gs
    else if slice.grant < |gs| then
      var g := gs[slice.grant];
      var expires := if g.expires.None? then slice.expires else g.expires;
      gs[slice.grant := g.(remaining := g.remaining + slice.amount, expires := expires)]
    else gs + [Grant(slice.amount, slice.amount, slice.expires, now)]
  }

  function RestoreAll(gs: seq<Grant>, slices: seq<Slice>, now: int): seq<Grant> {
    if slices == [] then gs
    else RestoreOne(RestoreAll(gs, slices[..|slices| - 1], now), slices[|slices| - 1], now)
  }

  /** `_restore_points`: replay the allocation, or grant the fallback amount when there is none. */
  function Restore(a: Account, allocation: seq<Slice>, fallback: nat): Account {
    if allocation != []
    then a.(grants := RestoreAll(a.grants, allocation, a.now), balance := a.balance + Total(allocation))
    else if fallback > 0
         then a.(grants := a.grants + [Grant(fallback, fallback, None, a.now)], balance := a.balance + fallback)
    else a
  }

  // ---------- tasks ----------

  const STALE_GRACE: int := 60_000_000

  /** Submission: the asset is synced when it is loaded, then the cost is spent in full or the request is refused. */
  function Submit(a: Account, cost: int, remote: bool): Option<Account> {
    match Spend(Sync(a), cost, false)
    case Insufficient => None
    case Spent(b, deducted, allocation) =>
      if deducted < 0 then None
      else Some(b.(tasks := b.tasks + [Task(Processing, deducted, deducted, allocation, remote, false, a.now)]))
  }

  /** `_refund_task`. */
  function RefundTask(a: Account, t: nat): Account
    requires t < |a.tasks|
  {
    var task := a.tasks[t];
    if task.frozen > 0 then
      var b := Restore(a, task.deductions, task.frozen);
      b.(tasks := b.tasks[t := task.(status := Failed, frozen := 0, deductions := [])])
    else a.(tasks := a.tasks[t := task.(status := Failed)])
  }

  /** The worker's final step after the image arrived. */
  function CompleteTask(a: Account, t: nat): Account
    requires t < |a.tasks|
  {
    a.(tasks := a.tasks[t := a.tasks[t].(status := Success, frozen := 0, hasImage := true, remote := false)])
  }

  predicate Stale(task: Task, now: int, timeout: int) {
    task.status == Processing && !task.remote && !task.hasImage && now - task.created >= timeout + STALE_GRACE
  }

  datatype RemoteResult = RemoteSuccess | RemoteFailure | RemoteRunning

  /** Polling: sweep a stale local task, or ask the upstream about a remote one. */
  function Poll(a: Account, t: nat, timeout: int, result: RemoteResult): Account
    requires t < |a.tasks|
  {
    var task := a.tasks[t];
    if Stale(task, a.now, timeout) then RefundTask(a, t)
    else if task.status == Processing && task.remote then
      match result
      case RemoteSuccess => a.(tasks := a.tasks[t := task.(status := Success, hasImage := true)])
      case RemoteFailure => RefundTask(a, t)
      case RemoteRunning => a
    else a
  }

  // ---------- administration ----------

  function Adjust(a: Account, amount: int): Account {
    if amount > 0 then Credit(a, amount, None)
    else
      match Spend(a, -amount, true)
      case Insufficient => a
      case Spent(b, _, _) => b
  }

  function RefundOrder(a: Account, points: int): Account {
    match Spend(a, points, true)
    case Insufficient => Sync(a)
    case Spent(b, _, _) => Sync(b)
  }
}
