/** Conservation of points over whole runs of wallet operations. */
module WalletRuns {
  import opened Wrappers
  import opened Wallet
  import opened WalletSpending

  /** Where a task's points went after they left it. */
  datatype TaskBook = TaskBook(consumed: nat, returned: nat)

  /** The account together with what an accountant outside it writes down. */
  datatype Books = Books(account: Account, expired: nat, consumed: nat, tasks: seq<TaskBook>)

  datatype Op =
    | DoCredit(amount: int, expires: Option<int>)
    | DoSync
    | DoSubmit(cost: int, remote: bool)
    | DoRefundTask(t: nat)
    | DoComplete(t: nat)
    | DoPoll(t: nat, timeout: int, result: RemoteResult)
    | DoAdjust(amount: int)
    | DoRefundOrder(points: int)
    | Tick(elapsed: nat)

  function SweepLoss(a: Account): nat {
    SweepSums(a.grants, a.now);
    Remaining(a.grants) - Remaining(SweepAll(a.grants, a.now))
  }

  /** A deduction outside any task: the points are consumed at once. */
  function Deduct(b: Books, amount: int): Books {
    match Spend(b.account, amount, true)
    case Insufficient => b
    case Spent(a, deducted, _) =>
      b.(account := a, expired := b.expired + (if amount > 0 then SweepLoss(b.account) else 0),
         consumed := b.consumed + if deducted > 0 then deducted else 0)
  }

  function SyncBooks(b: Books): Books {
    b.(account := Sync(b.account), expired := b.expired + SweepLoss(b.account))
  }

  /** The accountant's view of a task transaction: points that left the task were returned. */
  function ReturnedBy(b: Books, a: Account, t: nat): Books
    requires t < |b.tasks| && t < |b.account.tasks| && t < |a.tasks|
  {
    var moved := b.account.tasks[t].frozen - a.tasks[t].frozen;
    var returned := b.tasks[t].returned + if moved > 0 then moved else 0;
    b.(account := a, tasks := b.tasks[t := b.tasks[t].(returned := returned)])
  }

  function CreditOrDeduct(b: Books, amount: int): Books {
    if amount > 0 then b.(account := Credit(b.account, amount, None)) else Deduct(b, -amount)
  }

  predicate HasTask(b: Books, t: nat) {
    t < |b.tasks| && t < |b.account.tasks|
  }

  function Apply(b: Books, op: Op): Books {
    match op
    case DoCredit(amount, expires) => b.(account := Credit(b.account, amount, expires))
    case DoSync => SyncBooks(b)
    case DoSubmit(cost, remote) =>
      (match Submit(b.account, cost, remote)
       case None => b
       case Some(a) =>
         b.(account := a, expired := b.expired + SweepLoss(b.account), tasks := b.tasks + [TaskBook(0, 0)]))
    case DoRefundTask(t) => if HasTask(b, t) then ReturnedBy(b, RefundTask(b.account, t), t) else b
    case DoComplete(t) =>
      if HasTask(b, t) then
        var frozen := b.account.tasks[t].frozen;
        b.(account := CompleteTask(b.account, t), consumed := b.consumed + frozen,
           tasks := b.tasks[t := b.tasks[t].(consumed := b.tasks[t].consumed + frozen)])
      else b
    case DoPoll(t, timeout, result) => if HasTask(b, t) then ReturnedBy(b, Poll(b.account, t, timeout, result), t)
                                       else b
    case DoAdjust(amount) => CreditOrDeduct(b, amount)
    case DoRefundOrder(points) => SyncBooks(Deduct(b, points))
    case Tick(elapsed) => b.(account := b.account.(now := b.account.now + elapsed))
  }

  lemma DeductFollows(b: Books, amount: int)
    ensures Deduct(b, amount).account == match Spend(b.account, amount, true) case Insufficient =>
      b.account case Spent(a, _, _) => a
  {
  }

  /** The accountant follows the account's own operations. */
  lemma AccountFollows(b: Books, op: Op)
    ensures var a := b.account;
            Apply(b, op).account ==
            match op
            case DoCredit(amount, expires) => Credit(a, amount, expires)
            case DoSync => Sync(a)
            case DoSubmit(cost, remote) => Submit(a, cost, remote).GetOr(a)
            case DoRefundTask(t) => if HasTask(b, t) then RefundTask(a, t) else a
            case DoComplete(t) => if HasTask(b, t) then CompleteTask(a, t) else a
            case DoPoll(t, timeout, result) => if HasTask(b, t) then Poll(a, t, timeout, result) else a
            case DoAdjust(amount) => Adjust(a, amount)
            case DoRefundOrder(points) => RefundOrder(a, points)
            case Tick(elapsed) => a.(now := a.now + elapsed)
  {
    match op
    case DoAdjust(amount) => DeductFollows(b, -amount);
    case DoRefundOrder(points) => DeductFollows(b, points);
    case _ =>
  }

  function Run(b: Books, ops: seq<Op>): Books {
    if ops == [] then b else Apply(Run(b, ops[..|ops| - 1]), ops[|ops| - 1])
  }

  function Opened(now: int): Books {
    Books(Account(0, [], [], now), 0, 0, [])
  }

  // ---------- the invariant ----------

  function Frozen(ts: seq<Task>): nat {
    if ts == [] then 0 else Frozen(ts[..|ts| - 1]) + ts[|ts| - 1].frozen
  }

  function HeldBy(t: Task, grant: nat): nat {
    if t.frozen > 0 then On(t.deductions, grant) else 0
  }

  /** How much of a grant sits in allocations that are still frozen. */
  function Held(ts: seq<Task>, grant: nat): nat {
    if ts == [] then 0 else Held(ts[..|ts| - 1], grant) + HeldBy(ts[|ts| - 1], grant)
  }

  /** Frozen points are backed by the task's allocation; only a polled success leaves them in a finished task. */
  ghost predicate TaskOk(gs: seq<Grant>, t: Task) {
    && (t.frozen > 0 ==> SlicesFit(gs, t.deductions) && Total(t.deductions) == t.frozen)
    && (t.frozen > 0 && t.status != Processing ==> t.remote && t.status == Success)
  }

  /** A task's points are in one place: still frozen, consumed, or returned. */
  ghost predicate OnePlace(t: Task, k: TaskBook) {
    && t.cost == t.frozen + k.consumed + k.returned
    && (t.frozen == 0 || (k.consumed == 0 && k.returned == 0))
    && (k.consumed == 0 || k.returned == 0)
  }

  ghost predicate GrantsOk(gs: seq<Grant>, ts: seq<Task>) {
    forall i :: 0 <= i < |gs| ==> gs[i].remaining + Held(ts, i) <= gs[i].amount
  }

  ghost predicate TasksOk(gs: seq<Grant>, ts: seq<Task>, ks: seq<TaskBook>) {
    |ts| == |ks| && forall t :: 0 <= t < |ts| ==> TaskOk(gs, ts[t]) && OnePlace(ts[t], ks[t])
  }

  ghost predicate Conserved(b: Books) {
    Issued(b.account.grants) == Remaining(b.account.grants) + Frozen(b.account.tasks) + b.consumed + b.expired
  }

  ghost predicate BooksOk(b: Books) {
    && b.account.balance == Remaining(b.account.grants)
    && Conserved(b)
    && GrantsOk(b.account.grants, b.account.tasks)
    && TasksOk(b.account.grants, b.account.tasks, b.tasks)
  }

  // ---------- sums over tasks ----------

  lemma {:induction false} TaskSumsAfterSet(ts: seq<Task>, t: nat, x: Task, grant: nat)
    requires t < |ts|
    ensures Frozen(ts[t := x]) == Frozen(ts) - ts[t].frozen + x.frozen
    ensures Held(ts[t := x], grant) == Held(ts, grant) - HeldBy(ts[t], grant) + HeldBy(x, grant)
  {
    var n := |ts| - 1;
    if t == n {
      assert ts[t := x][..n] == ts[..n];
    } else {
      TaskSumsAfterSet(ts[..n], t, x, grant);
      assert ts[t := x][..n] == ts[..n][t := x];
    }
  }

  lemma TaskSumsAfterAppend(ts: seq<Task>, x: Task, grant: nat)
    ensures Frozen(ts + [x]) == Frozen(ts) + x.frozen
    ensures Held(ts + [x], grant) == Held(ts, grant) + HeldBy(x, grant)
  {
    assert (ts + [x])[..|ts|] == ts;
  }

  lemma {:induction false} OnMissing(slices: seq<Slice>, gs: seq<Grant>, grant: nat)
    requires SlicesFit(gs, slices) && |gs| <= grant
    ensures On(slices, grant) == 0
  {
    if slices != [] { OnMissing(slices[..|slices| - 1], gs, grant); }
  }

  /** No allocation names a grant that is yet to be created. */
  lemma {:induction false} HeldMissing(gs: seq<Grant>, ts: seq<Task>, grant: nat)
    requires |gs| <= grant && forall t :: 0 <= t < |ts| ==> TaskOk(gs, ts[t])
    ensures Held(ts, grant) == 0
  {
    if ts != [] {
      HeldMissing(gs, ts[..|ts| - 1], grant);
      if ts[|ts| - 1].frozen > 0 { OnMissing(ts[|ts| - 1].deductions, gs, grant); }
    }
  }

  // ---------- each kind of change keeps the books ----------

  /** Sweeping, or taking points without a task: remaining amounts fall and the loss is booked. */
  ghost predicate PointsFall(b: Books, b': Books) {
    && SameGrants(b.account.grants, b'.account.grants)
    && (forall i :: 0 <= i < |b.account.grants| ==> b'.account.grants[i].remaining <= b.account.grants[i].remaining)
    && b'.account.tasks == b.account.tasks && b'.tasks == b.tasks
    && b'.account.balance == Remaining(b'.account.grants)
    && Issued(b'.account.grants) == Issued(b.account.grants)
    && Remaining(b'.account.grants) + b'.consumed + b'.expired == Remaining(b.account.grants) + b.consumed + b.expired
  }

  lemma PointsLeave(b: Books, b': Books)
    requires BooksOk(b) && PointsFall(b, b')
    ensures BooksOk(b')
  {
  }

  lemma SweepFacts(gs: seq<Grant>, now: int)
    ensures SameGrants(gs, SweepAll(gs, now)) && Issued(SweepAll(gs, now)) == Issued(gs)
            && Lowered(gs, SweepAll(gs, now))
  {
    SweepSums(gs, now);
  }

  lemma SyncFacts(a: Account)
    ensures var gs := SweepAll(a.grants, a.now);
            && SameGrants(a.grants, gs) && Issued(gs) == Issued(a.grants) && Lowered(a.grants, gs)
            && Sync(a) == a.(grants := gs, balance := Remaining(gs))
            && SweepLoss(a) == Remaining(a.grants) - Remaining(gs)
  {
    SweepFacts(a.grants, a.now);
  }

  lemma SyncKeeps(b: Books)
    requires BooksOk(b)
    ensures BooksOk(SyncBooks(b))
  {
    SyncFacts(b.account);
    PointsLeave(b, SyncBooks(b));
  }

  lemma DeductFalls(b: Books, amount: int, d: Books)
    requires b.account.balance == Remaining(b.account.grants) && d.account == Deduct(b, amount).account
    requires d.expired == Deduct(b, amount).expired && d.consumed == Deduct(b, amount).consumed && d.tasks == b.tasks
    ensures PointsFall(b, d)
  {
    if amount > 0 {
      SyncFacts(b.account);
      SpendsExactly(b.account, amount, true);
    }
  }

  lemma DeductedBooks(b: Books, amount: int, d: Books)
    requires BooksOk(b) && d.account == Deduct(b, amount).account
    requires d.expired == Deduct(b, amount).expired && d.consumed == Deduct(b, amount).consumed && d.tasks == b.tasks
    ensures BooksOk(d)
  {
    DeductFalls(b, amount, d);
    PointsLeave(b, d);
  }

  lemma DeductKeeps(b: Books, amount: int)
    requires BooksOk(b)
    ensures BooksOk(Deduct(b, amount))
  {
    DeductedBooks(b, amount, Deduct(b, amount));
  }

  lemma CreditKeeps(b: Books, amount: int, expires: Option<int>)
    requires BooksOk(b)
    ensures BooksOk(b.(account := Credit(b.account, amount, expires)))
  {
    if amount > 0 {
      var a := b.account;
      var g := Grant(amount, amount, expires, a.now);
      SumsAfterAppend(a.grants, g);
      HeldMissing(a.grants, a.tasks, |a.grants|);
    }
  }

  lemma SpendIntoTaskGrants(gs: seq<Grant>, ts: seq<Task>, order: seq<nat>, cost: nat, task: Task)
    requires GrantsOk(gs, ts) && Indices(gs, order) && Distinct(order)
    requires task.frozen > 0 && task.deductions == TakeAll(gs, order, cost).allocation
    ensures GrantsOk(TakeAll(gs, order, cost).grants, ts + [task])
  {
    var hs := TakeAll(gs, order, cost).grants;
    TakeAllGrants(gs, order, cost);
    forall i | 0 <= i < |hs| ensures hs[i].remaining + Held(ts + [task], i) <= hs[i].amount {
      TakeAllOn(gs, order, cost, i);
      TaskSumsAfterAppend(ts, task, i);
    }
  }

  lemma TaskOkSame(gs: seq<Grant>, hs: seq<Grant>, ts: seq<Task>, ks: seq<TaskBook>)
    requires TasksOk(gs, ts, ks) && SameGrants(gs, hs)
    ensures TasksOk(hs, ts, ks)
  {
    forall t | 0 <= t < |ts| ensures TaskOk(hs, ts[t]) { assert TaskOk(gs, ts[t]); }
  }

  lemma SyncTwice(a: Account)
    ensures Sync(Sync(a)) == Sync(a)
  {
    SweepTwice(a.grants, a.now);
  }

  lemma SpendSynced(c: Account, cost: int)
    requires Sync(c) == c
    ensures match Spend(c, cost, false)
            case Insufficient => cost > Remaining(c.grants)
            case Spent(a, deducted, allocation) =>
              if cost <= 0 then a == c && deducted == 0 && allocation == []
              else
                var s := TakeAll(c.grants, SortByExpiry(c.grants, |c.grants|), cost);
                && deducted == cost <= Remaining(c.grants) && allocation == s.allocation
                && a == c.(grants := s.grants, balance := Remaining(s.grants))
  {
    if cost > 0 { SpendsExactly(c, cost, false); }
  }

  /** What a submission gives, from the account just after its sync. */
  lemma SubmitAccount(a: Account, cost: int, remote: bool)
    requires Submit(a, cost, remote).Some?
    ensures var (c, a') := (Sync(a), Submit(a, cost, remote).value);
            && a'.tasks == c.tasks + [a'.tasks[|a'.tasks| - 1]]
            && (var task := a'.tasks[|c.tasks|];
                && task.status == Processing && task.cost == task.frozen
                && (if cost <= 0 then task.frozen == 0 && a'.grants == c.grants && a'.balance == c.balance
                    else && task.frozen == cost <= Remaining(c.grants)
                         && a'.grants == TakeAll(c.grants, SortByExpiry(c.grants, |c.grants|), cost).grants
                         && task.deductions == TakeAll(c.grants, SortByExpiry(c.grants, |c.grants|), cost).allocation
                         && a'.balance == Remaining(a'.grants)))
  {
    SyncTwice(a);
    SpendSynced(Sync(a), cost);
  }

  lemma SubmitShape(b: Books, cost: int, remote: bool)
    ensures var c := SyncBooks(b);
            var gs := c.account.grants;
            match Submit(b.account, cost, remote)
            case None => Apply(b, DoSubmit(cost, remote)) == b
            case Some(a) =>
              && a.tasks == c.account.tasks + [a.tasks[|a.tasks| - 1]]
              && (var task := a.tasks[|c.account.tasks|];
                  && Apply(b, DoSubmit(cost, remote)) == c.(account := a, tasks := c.tasks + [TaskBook(0, 0)])
                  && task.status == Processing && task.cost == task.frozen
                  && (if cost <= 0 then task.frozen == 0 && a.grants == gs && a.balance == c.account.balance
                      else task.frozen == cost <= Remaining(gs)
                           && a.grants == TakeAll(gs, SortByExpiry(gs, |gs|), cost).grants
                           && task.deductions == TakeAll(gs, SortByExpiry(gs, |gs|), cost).allocation
                           && a.balance == Remaining(a.grants)))
  {
    if Submit(b.account, cost, remote).Some? { SubmitAccount(b.account, cost, remote); }
  }

  /** The books after a task was appended, from what is known about its points. */
  lemma TaskAppended(c: Books, b': Books, task: Task)
    requires b'.account.balance == Remaining(b'.account.grants) && Conserved(c)
    requires b'.account.tasks == c.account.tasks + [task] && b'.consumed == c.consumed && b'.expired == c.expired
    requires Issued(b'.account.grants) == Issued(c.account.grants)
    requires Remaining(b'.account.grants) + task.frozen == Remaining(c.account.grants)
    requires GrantsOk(b'.account.grants, b'.account.tasks) && TasksOk(b'.account.grants, b'.account.tasks, b'.tasks)
    ensures BooksOk(b')
  {
    TaskSumsAfterAppend(c.account.tasks, task, 0);
  }

  lemma TasksOkAppend(gs: seq<Grant>, ts: seq<Task>, ks: seq<TaskBook>, task: Task)
    requires TasksOk(gs, ts, ks) && TaskOk(gs, task) && task.cost == task.frozen
    ensures TasksOk(gs, ts + [task], ks + [TaskBook(0, 0)])
  {
  }

  /** A task without points changes no sum. */
  lemma NothingIntoTask(gs: seq<Grant>, ts: seq<Task>, ks: seq<TaskBook>, task: Task)
    requires GrantsOk(gs, ts) && TasksOk(gs, ts, ks) && task.frozen == task.cost == 0
    ensures GrantsOk(gs, ts + [task]) && TasksOk(gs, ts + [task], ks + [TaskBook(0, 0)])
  {
    forall i | 0 <= i < |gs| ensures Held(ts + [task], i) == Held(ts, i) {
      TaskSumsAfterAppend(ts, task, i);
    }
    TasksOkAppend(gs, ts, ks, task);
  }

  lemma SubmitNothing(b: Books, cost: int, remote: bool)
    requires BooksOk(b) && cost <= 0 && Submit(b.account, cost, remote).Some?
    ensures BooksOk(Apply(b, DoSubmit(cost, remote)))
  {
    SyncKeeps(b);
    SubmitShape(b, cost, remote);
    var c, b' := SyncBooks(b), Apply(b, DoSubmit(cost, remote));
    var task := b'.account.tasks[|c.account.tasks|];
    NothingIntoTask(c.account.grants, c.account.tasks, c.tasks, task);
    TaskAppended(c, b', task);
  }

  /** What taking a task's cost from synced grants does to sums, grants and tasks. */
  lemma SpendIntoTask(gs: seq<Grant>, ts: seq<Task>, ks: seq<TaskBook>, cost: nat, task: Task)
    requires GrantsOk(gs, ts) && TasksOk(gs, ts, ks)
    requires 0 < cost <= Remaining(gs) && task.frozen == task.cost == cost && task.status == Processing
    requires task.deductions == TakeAll(gs, SortByExpiry(gs, |gs|), cost).allocation
    ensures var hs := TakeAll(gs, SortByExpiry(gs, |gs|), cost).grants;
            && Issued(hs) == Issued(gs) && Remaining(hs) + cost == Remaining(gs)
            && GrantsOk(hs, ts + [task]) && TasksOk(hs, ts + [task], ks + [TaskBook(0, 0)])
  {
    var order := SortByExpiry(gs, |gs|);
    OrderIsDistinct(gs);
    TakeFacts(gs, cost);
    TakeAllAllocation(gs, order, cost);
    SpendIntoTaskGrants(gs, ts, order, cost, task);
    var hs := TakeAll(gs, order, cost).grants;
    TaskOkSame(gs, hs, ts, ks);
    AllocationFits(gs, hs, task);
    TasksOkAppend(hs, ts, ks, task);
  }

  lemma AllocationFits(gs: seq<Grant>, hs: seq<Grant>, task: Task)
    requires SameGrants(gs, hs) && Allocation(gs, task.deductions)
    requires Total(task.deductions) == task.frozen && task.status == Processing
    ensures TaskOk(hs, task)
  {
  }

  lemma SubmitSpends(b: Books, cost: int, remote: bool)
    requires BooksOk(b) && cost > 0 && Submit(b.account, cost, remote).Some?
    ensures BooksOk(Apply(b, DoSubmit(cost, remote)))
  {
    SyncKeeps(b);
    SubmitShape(b, cost, remote);
    var c, b' := SyncBooks(b), Apply(b, DoSubmit(cost, remote));
    var task := b'.account.tasks[|c.account.tasks|];
    SpendIntoTask(c.account.grants, c.account.tasks, c.tasks, cost, task);
    TaskAppended(c, b', task);
  }

  lemma SubmitKeeps(b: Books, cost: int, remote: bool)
    requires BooksOk(b)
    ensures BooksOk(Apply(b, DoSubmit(cost, remote)))
  {
    if Submit(b.account, cost, remote).Some? {
      if cost <= 0 { SubmitNothing(b, cost, remote); } else { SubmitSpends(b, cost, remote); }
    }
  }

  /** What giving a task's allocation back does to the grants. */
  lemma RefundEffect(a: Account, t: nat)
    requires t < |a.tasks| && TaskOk(a.grants, a.tasks[t])
    ensures var (a', task) := (RefundTask(a, t), a.tasks[t]);
            && SameGrants(a.grants, a'.grants) && Issued(a'.grants) == Issued(a.grants)
            && Remaining(a'.grants) == Remaining(a.grants) + task.frozen && a'.balance == a.balance + task.frozen
            && a'.tasks == a.tasks[t := a'.tasks[t]] && a'.tasks[t].frozen == 0 && a'.tasks[t].cost == task.cost
  {
    var task := a.tasks[t];
    if task.frozen > 0 { RestoreAllEffect(a.grants, task.deductions, a.now); }
  }

  lemma RefundGrants(a: Account, t: nat, i: nat)
    requires t < |a.tasks| && TaskOk(a.grants, a.tasks[t]) && i < |a.grants|
    ensures var a' := RefundTask(a, t);
            |a'.grants| == |a.grants|
            && a'.grants[i].remaining + Held(a'.tasks, i) == a.grants[i].remaining + Held(a.tasks, i)
  {
    RefundEffect(a, t);
    TaskSumsAfterSet(a.tasks, t, RefundTask(a, t).tasks[t], i);
    if a.tasks[t].frozen > 0 { RestoreAllOn(a.grants, a.tasks[t].deductions, a.now, i); }
  }

  lemma TasksOkSet(gs: seq<Grant>, hs: seq<Grant>, ts: seq<Task>, ks: seq<TaskBook>, t: nat, x: Task, k: TaskBook)
    requires TasksOk(gs, ts, ks) && SameGrants(gs, hs) && t < |ts| && TaskOk(hs, x) && OnePlace(x, k)
    ensures TasksOk(hs, ts[t := x], ks[t := k])
  {
    forall u | 0 <= u < |ts| && u != t ensures TaskOk(hs, ts[u]) { assert TaskOk(gs, ts[u]); }
  }

  /** Returning a task's allocation. */
  lemma RefundKeeps(b: Books, t: nat)
    requires BooksOk(b) && HasTask(b, t)
    ensures BooksOk(ReturnedBy(b, RefundTask(b.account, t), t))
    ensures Issued(RefundTask(b.account, t).grants) == Issued(b.account.grants)
  {
    var a := b.account;
    var a' := RefundTask(a, t);
    assert TaskOk(a.grants, a.tasks[t]) && OnePlace(a.tasks[t], b.tasks[t]);
    RefundEffect(a, t);
    TaskSumsAfterSet(a.tasks, t, a'.tasks[t], 0);
    forall i | 0 <= i < |a'.grants| ensures a'.grants[i].remaining + Held(a'.tasks, i) <= a'.grants[i].amount {
      RefundGrants(a, t, i);
    }
    TasksOkSet(a.grants, a'.grants, a.tasks, b.tasks, t, a'.tasks[t], ReturnedBy(b, a', t).tasks[t]);
  }

  lemma CompleteKeeps(b: Books, t: nat)
    requires BooksOk(b) && HasTask(b, t)
    ensures BooksOk(Apply(b, DoComplete(t)))
  {
    var a := b.account;
    var a' := CompleteTask(a, t);
    assert TaskOk(a.grants, a.tasks[t]) && OnePlace(a.tasks[t], b.tasks[t]);
    TaskSumsAfterSet(a.tasks, t, a'.tasks[t], 0);
    forall i | 0 <= i < |a.grants| ensures Held(a'.tasks, i) <= Held(a.tasks, i) {
      TaskSumsAfterSet(a.tasks, t, a'.tasks[t], i);
    }
  }

  /** A change to a task that leaves its points alone. */
  lemma StatusKeeps(b: Books, t: nat, x: Task)
    requires BooksOk(b) && HasTask(b, t)
    requires x.frozen == b.account.tasks[t].frozen && x.cost == b.account.tasks[t].cost
             && x.deductions == b.account.tasks[t].deductions
    requires TaskOk(b.account.grants, x)
    ensures BooksOk(ReturnedBy(b, b.account.(tasks := b.account.tasks[t := x]), t))
  {
    var a := b.account;
    assert OnePlace(a.tasks[t], b.tasks[t]);
    TaskSumsAfterSet(a.tasks, t, x, 0);
    forall i | 0 <= i < |a.grants| ensures Held(a.tasks[t := x], i) == Held(a.tasks, i) {
      TaskSumsAfterSet(a.tasks, t, x, i);
    }
    TasksOkSet(a.grants, a.grants, a.tasks, b.tasks, t, x, b.tasks[t]);
    assert ReturnedBy(b, a.(tasks := a.tasks[t := x]), t).tasks == b.tasks[t := b.tasks[t]];
  }

  lemma PollShape(a: Account, t: nat, timeout: int, result: RemoteResult)
    requires t < |a.tasks|
    ensures var a' := Poll(a, t, timeout, result);
            || a' == RefundTask(a, t)
            || a' == a.(tasks := a.tasks[t := a.tasks[t]])
            || (a.tasks[t].remote && a' == a.(tasks := a.tasks[t := a.tasks[t].(status := Success, hasImage := true)]))
  {
    assert a.tasks[t := a.tasks[t]] == a.tasks;
  }

  lemma PollKeeps(b: Books, t: nat, timeout: int, result: RemoteResult)
    requires BooksOk(b) && HasTask(b, t)
    ensures BooksOk(ReturnedBy(b, Poll(b.account, t, timeout, result), t))
  {
    var a := b.account;
    PollShape(a, t, timeout, result);
    assert TaskOk(a.grants, a.tasks[t]);
    if Poll(a, t, timeout, result) == RefundTask(a, t) {
      RefundKeeps(b, t);
    } else {
      StatusKeeps(b, t, Poll(a, t, timeout, result).tasks[t]);
    }
  }

  lemma ApplyKeeps(b: Books, op: Op)
    requires BooksOk(b)
    ensures BooksOk(Apply(b, op))
  {
    match op
    case DoCredit(amount, expires) => CreditKeeps(b, amount, expires);
    case DoSync => SyncKeeps(b);
    case DoSubmit(cost, remote) => SubmitKeeps(b, cost, remote);
    case DoRefundTask(t) => if HasTask(b, t) { RefundKeeps(b, t); }
    case DoComplete(t) => if HasTask(b, t) { CompleteKeeps(b, t); }
    case DoPoll(t, timeout, result) => if HasTask(b, t) { PollKeeps(b, t, timeout, result); }
    case DoAdjust(amount) =>
      if amount > 0 { CreditedKeeps(b, amount); } else { DeductedKeeps(b, amount); }
    case DoRefundOrder(points) => RefundOrderKeeps(b, points);
    case Tick(elapsed) => TickKeeps(b, elapsed);
  }

  lemma CreditedKeeps(b: Books, amount: int)
    requires BooksOk(b) && amount > 0
    ensures BooksOk(CreditOrDeduct(b, amount))
  {
    CreditKeeps(b, amount, None);
  }

  lemma DeductedKeeps(b: Books, amount: int)
    requires BooksOk(b) && amount <= 0
    ensures BooksOk(CreditOrDeduct(b, amount))
  {
    DeductedBooks(b, -amount, CreditOrDeduct(b, amount));
  }

  lemma RefundOrderKeeps(b: Books, points: int)
    requires BooksOk(b)
    ensures BooksOk(Apply(b, DoRefundOrder(points)))
  {
    DeductKeeps(b, points);
    SyncKeeps(Deduct(b, points));
  }

  lemma TickKeeps(b: Books, elapsed: nat)
    requires BooksOk(b)
    ensures BooksOk(Apply(b, Tick(elapsed)))
  {
  }

  /** Points are conserved over every run: what was issued is remaining, frozen, consumed or expired; the cached
      balance is the sum of the grants; no grant's remaining and frozen points exceed what it issued; and the points
      of each task are in exactly one place. */
  lemma {:induction false} PointsAreConserved(now: int, ops: seq<Op>)
    ensures BooksOk(Run(Opened(now), ops))
  {
    if ops != [] {
      PointsAreConserved(now, ops[..|ops| - 1]);
      ApplyKeeps(Run(Opened(now), ops[..|ops| - 1]), ops[|ops| - 1]);
    }
  }

  /** Every grant is still there, with the amount, expiry and creation it was given. */
  ghost predicate GrantsStay(gs: seq<Grant>, hs: seq<Grant>) {
    |gs| <= |hs| && forall i :: 0 <= i < |gs| ==> hs[i] == gs[i].(remaining := hs[i].remaining)
  }

  lemma SpendGrantsStay(a: Account, amount: int, c: Account)
    requires match Spend(a, amount, true) case Insufficient => c == a case Spent(b, _, _) => c == b
    ensures GrantsStay(a.grants, c.grants)
  {
    if amount > 0 { SpendsExactly(a, amount, true); }
  }

  lemma AdjustGrantsStay(a: Account, amount: int)
    ensures GrantsStay(a.grants, Adjust(a, amount).grants)
  {
    if amount <= 0 { SpendGrantsStay(a, -amount, Adjust(a, amount)); }
  }

  lemma OrderGrantsStay(a: Account, points: int)
    ensures GrantsStay(a.grants, RefundOrder(a, points).grants)
  {
    match Spend(a, points, true)
    case Insufficient => SyncFacts(a);
    case Spent(b, _, _) =>
      SpendGrantsStay(a, points, b);
      SyncFacts(b);
  }

  lemma SubmitGrantsStay(a: Account, cost: int, remote: bool)
    requires Submit(a, cost, remote).Some?
    ensures GrantsStay(a.grants, Submit(a, cost, remote).value.grants)
  {
    SyncFacts(a);
    SubmitAccount(a, cost, remote);
    if cost > 0 { TakeFacts(Sync(a).grants, cost); }
  }

  lemma TaskGrantsStay(a: Account, t: nat, timeout: int, result: RemoteResult)
    requires t < |a.tasks| && TaskOk(a.grants, a.tasks[t])
    ensures GrantsStay(a.grants, RefundTask(a, t).grants) && GrantsStay(a.grants, Poll(a, t, timeout, result).grants)
  {
    RefundEffect(a, t);
    PollShape(a, t, timeout, result);
  }

  /** No operation removes a grant or changes what it issued, when it expires or when it was created. */
  lemma ApplyGrantsStay(b: Books, op: Op)
    requires BooksOk(b)
    ensures GrantsStay(b.account.grants, Apply(b, op).account.grants)
  {
    AccountFollows(b, op);
    var a := b.account;
    match op
    case DoSync => SyncFacts(a);
    case DoSubmit(cost, remote) => if Submit(a, cost, remote).Some? { SubmitGrantsStay(a, cost, remote); }
    case DoRefundTask(t) => if HasTask(b, t) { TaskGrantsStay(a, t, 0, RemoteRunning); }
    case DoPoll(t, timeout, result) => if HasTask(b, t) { TaskGrantsStay(a, t, timeout, result); }
    case DoAdjust(amount) => AdjustGrantsStay(a, amount);
    case DoRefundOrder(points) => OrderGrantsStay(a, points);
    case _ =>
  }

  // ---------- leaving exactly once ----------

  /** No operation puts points back into a task or turns a local task into a remote one. */
  lemma RefundTaskEffect(a: Account, t: nat)
    requires t < |a.tasks|
    ensures var a' := RefundTask(a, t);
            |a'.tasks| == |a.tasks| && a'.tasks == a.tasks[t := a'.tasks[t]]
            && a'.tasks[t].frozen == 0 && a'.tasks[t].remote == a.tasks[t].remote
  {
  }

  lemma PollEffect(a: Account, t: nat, timeout: int, result: RemoteResult)
    requires t < |a.tasks|
    ensures var a' := Poll(a, t, timeout, result);
            |a'.tasks| == |a.tasks| && a'.tasks == a.tasks[t := a'.tasks[t]]
            && (a'.tasks[t].frozen == 0 || a'.tasks[t].frozen == a.tasks[t].frozen)
            && a'.tasks[t].remote == a.tasks[t].remote
  {
    RefundTaskEffect(a, t);
  }

  lemma SpendEffect(a: Account, amount: int, allowPartial: bool)
    ensures var r := Spend(a, amount, allowPartial); r.Spent? ==> r.account.tasks == a.tasks
  {
  }

  /** A submission appends one task in progress, or nothing. */
  lemma SubmitTasks(b: Books, cost: int, remote: bool)
    ensures var ts := Apply(b, DoSubmit(cost, remote)).account.tasks;
            ts == b.account.tasks || (exists x: Task :: x.status == Processing && ts == b.account.tasks + [x])
  {
    SpendEffect(Sync(b.account), cost, false);
    if Submit(b.account, cost, remote).Some? {
      var ts := Submit(b.account, cost, remote).value.tasks;
      assert ts == b.account.tasks + [ts[|b.account.tasks|]];
    }
  }

  lemma OtherTasks(b: Books, op: Op)
    requires op.DoCredit? || op.DoSync? || op.DoAdjust? || op.DoRefundOrder? || op.Tick?
    ensures Apply(b, op).account.tasks == b.account.tasks
  {
    if op.DoAdjust? { SpendEffect(b.account, -op.amount, true); }
    if op.DoRefundOrder? { SpendEffect(b.account, op.points, true); }
  }

  /** What each operation does to one task that was there before. */
  lemma TaskAfter(b: Books, op: Op, t: nat)
    requires BooksOk(b) && t < |b.account.tasks|
    ensures t < |Apply(b, op).account.tasks|
    ensures Apply(b, op).account.tasks[t] ==
            if op.DoRefundTask? && op.t == t then RefundTask(b.account, t).tasks[t]
            else if op.DoComplete? && op.t == t then CompleteTask(b.account, t).tasks[t]
            else if op.DoPoll? && op.t == t then Poll(b.account, t, op.timeout, op.result).tasks[t]
            else b.account.tasks[t]
  {
    match op
    case DoSubmit(cost, remote) => SubmitTasks(b, cost, remote);
    case DoRefundTask(u) => if HasTask(b, u) { RefundTaskEffect(b.account, u); }
    case DoComplete(u) =>
    case DoPoll(u, timeout, result) => if HasTask(b, u) { PollEffect(b.account, u, timeout, result); }
    case _ => OtherTasks(b, op);
  }

  /** The books of a task that holds nothing. */
  lemma SettledBooksStay(b: Books, op: Op, t: nat)
    requires BooksOk(b) && t < |b.tasks| && b.account.tasks[t].frozen == 0
    ensures t < |Apply(b, op).tasks| && Apply(b, op).tasks[t] == b.tasks[t]
  {
    match op
    case DoRefundTask(u) => if HasTask(b, u) { RefundTaskEffect(b.account, u); }
    case DoPoll(u, timeout, result) => if HasTask(b, u) { PollEffect(b.account, u, timeout, result); }
    case _ =>
  }

  /** Once a task holds nothing, its points never move again: no later operation of any kind consumes or returns
      them. */
  lemma SettledTaskStays(b: Books, op: Op, t: nat)
    requires BooksOk(b) && t < |b.tasks| && b.account.tasks[t].frozen == 0
    ensures var b' := Apply(b, op);
            t < |b'.tasks| && b'.tasks[t] == b.tasks[t] && t < |b'.account.tasks| && b'.account.tasks[t].frozen == 0
  {
    SettledBooksStay(b, op, t);
    TaskAfter(b, op, t);
    RefundTaskEffect(b.account, t);
    if op.DoPoll? { PollEffect(b.account, t, op.timeout, op.result); }
  }

  lemma {:induction false} PointsLeaveOnce(b: Books, ops: seq<Op>, t: nat)
    requires BooksOk(b) && t < |b.tasks| && b.account.tasks[t].frozen == 0
    ensures var b' := Run(b, ops);
            BooksOk(b') && t < |b'.tasks| && b'.tasks[t] == b.tasks[t] && b'.account.tasks[t].frozen == 0
  {
    if ops != [] {
      var n := |ops| - 1;
      PointsLeaveOnce(b, ops[..n], t);
      ApplyKeeps(Run(b, ops[..n]), ops[n]);
      SettledTaskStays(Run(b, ops[..n]), ops[n], t);
    }
  }

  // ---------- finished tasks that still hold points ----------

  /** A task that is over and still has points frozen. */
  predicate HoldsFinished(a: Account, t: nat) {
    t < |a.tasks| && a.tasks[t].status != Processing && a.tasks[t].frozen > 0
  }

  /** Polling learns that an upstream task succeeded whose points are frozen. */
  predicate PollsSuccess(a: Account, op: Op, t: nat) {
    && op.DoPoll? && op.t == t && op.result == RemoteSuccess
    && t < |a.tasks| && a.tasks[t].status == Processing && a.tasks[t].remote && a.tasks[t].frozen > 0
  }

  predicate Settles(op: Op, t: nat) {
    (op.DoComplete? || op.DoRefundTask?) && op.t == t
  }

  /** A submission creates only a task in progress, every other operation creates none. */
  lemma NewTask(b: Books, op: Op, t: nat)
    requires BooksOk(b) && |b.account.tasks| <= t < |Apply(b, op).account.tasks|
    ensures Apply(b, op).account.tasks[t].status == Processing
  {
    match op
    case DoSubmit(cost, remote) => SubmitTasks(b, cost, remote);
    case DoRefundTask(u) => if HasTask(b, u) { RefundTaskEffect(b.account, u); }
    case DoComplete(u) =>
    case DoPoll(u, timeout, result) => if HasTask(b, u) { PollEffect(b.account, u, timeout, result); }
    case _ => OtherTasks(b, op);
  }

  /** A finished task holds points after an operation exactly when polling has just learnt of its success, or it did so
      before and the operation is neither its completion nor its refund. */
  lemma FinishedHoldsExactly(b: Books, op: Op, t: nat)
    requires BooksOk(b)
    ensures HoldsFinished(Apply(b, op).account, t) <==>
            PollsSuccess(b.account, op, t) || (HoldsFinished(b.account, t) && !Settles(op, t))
  {
    if t < |b.account.tasks| {
      TaskAfter(b, op, t);
    } else if t < |Apply(b, op).account.tasks| {
      NewTask(b, op, t);
    }
  }

  /** The poll at position i of the run learnt of the task's success, and nothing settled the task since. */
  ghost predicate LeftFrozenBy(now: int, ops: seq<Op>, i: nat, t: nat)
    requires i < |ops|
  {
    PollsSuccess(Run(Opened(now), ops[..i]).account, ops[i], t) && forall j :: i < j < |ops| ==> !Settles(ops[j], t)
  }

  lemma LeftFrozenLater(now: int, ops: seq<Op>, i: nat, t: nat)
    requires i < |ops| - 1
    ensures LeftFrozenBy(now, ops, i, t) <==> LeftFrozenBy(now, ops[..|ops| - 1], i, t) && !Settles(ops[|ops| - 1], t)
  {
    var front := ops[..|ops| - 1];
    assert front[..i] == ops[..i] && front[i] == ops[i];
    forall j | i < j < |front| ensures front[j] == ops[j] {
    }
    if LeftFrozenBy(now, front, i, t) && !Settles(ops[|ops| - 1], t) {
      forall j | i < j < |ops| ensures !Settles(ops[j], t) {
        if j < |front| { assert !Settles(front[j], t); }
      }
    }
  }

  /** Some poll of the run left the task finished with its points frozen. */
  ghost predicate LeftFrozen(now: int, ops: seq<Op>, t: nat) {
    exists i :: 0 <= i < |ops| && LeftFrozenBy(now, ops, i, t)
  }

  /** The last operation is the poll that learnt of the success. */
  lemma LeftFrozenLast(now: int, ops: seq<Op>, t: nat)
    requires ops != []
    ensures var n := |ops| - 1;
            LeftFrozenBy(now, ops, n, t) <==> PollsSuccess(Run(Opened(now), ops[..n]).account, ops[n], t)
  {
  }

  lemma LeftFrozenStep(now: int, ops: seq<Op>, t: nat)
    requires ops != []
    ensures var (front, last) := (ops[..|ops| - 1], ops[|ops| - 1]);
            LeftFrozen(now, ops, t) <==>
            PollsSuccess(Run(Opened(now), front).account, last, t) || (LeftFrozen(now, front, t) && !Settles(last, t))
  {
    var n := |ops| - 1;
    LeftFrozenLast(now, ops, t);
    if LeftFrozen(now, ops, t) {
      var i :| 0 <= i < |ops| && LeftFrozenBy(now, ops, i, t);
      if i < n { LeftFrozenLater(now, ops, i, t); }
    }
    if LeftFrozen(now, ops[..n], t) {
      var i :| 0 <= i < n && LeftFrozenBy(now, ops[..n], i, t);
      LeftFrozenLater(now, ops, i, t);
    }
  }

  /** Over every run: a finished task holds points exactly when polling an upstream task learnt of its success and
      neither a completion nor a refund of the task came afterwards. */
  lemma {:induction false} FinishedHoldsOverRuns(now: int, ops: seq<Op>, t: nat)
    ensures HoldsFinished(Run(Opened(now), ops).account, t) <==> LeftFrozen(now, ops, t)
  {
    if ops != [] {
      var front := ops[..|ops| - 1];
      PointsAreConserved(now, front);
      FinishedHoldsExactly(Run(Opened(now), front), ops[|ops| - 1], t);
      FinishedHoldsOverRuns(now, front, t);
      LeftFrozenStep(now, ops, t);
    }
  }

  function UnfinishedFrozen(ts: seq<Task>): nat {
    if ts == [] then 0
    else
      var n := |ts| - 1;
      UnfinishedFrozen(ts[..n]) + if ts[n].status == Processing then ts[n].frozen else 0
  }

  lemma {:induction false} UnfinishedFrozenExactly(ts: seq<Task>)
    ensures UnfinishedFrozen(ts) <= Frozen(ts)
    ensures UnfinishedFrozen(ts) == Frozen(ts)
            <==> forall t :: 0 <= t < |ts| && ts[t].status != Processing ==> ts[t].frozen == 0
  {
    if ts != [] {
      var n := |ts| - 1;
      UnfinishedFrozenExactly(ts[..n]);
      forall t | 0 <= t < n ensures ts[..n][t] == ts[t] {
      }
    }
  }

  lemma UnfinishedIsAll(a: Account)
    ensures UnfinishedFrozen(a.tasks) == Frozen(a.tasks) <==> forall t: nat :: !HoldsFinished(a, t)
  {
    UnfinishedFrozenExactly(a.tasks);
    if forall t: nat :: !HoldsFinished(a, t) {
      forall t | 0 <= t < |a.tasks| && a.tasks[t].status != Processing ensures a.tasks[t].frozen == 0 {
        assert !HoldsFinished(a, t);
      }
    }
  }

  /** Conservation as it is usually put, with only unfinished tasks on the books, holds exactly when no poll of the
      run left a finished task frozen. */
  lemma ConservedWithoutFinished(now: int, ops: seq<Op>)
    ensures var b := Run(Opened(now), ops);
            Issued(b.account.grants) == Remaining(b.account.grants) + UnfinishedFrozen(b.account.tasks) + b.consumed
                + b.expired
            <==> forall t: nat :: !LeftFrozen(now, ops, t)
  {
    PointsAreConserved(now, ops);
    var a := Run(Opened(now), ops).account;
    UnfinishedIsAll(a);
    forall t: nat ensures HoldsFinished(a, t) <==> LeftFrozen(now, ops, t) {
      FinishedHoldsOverRuns(now, ops, t);
    }
  }

  lemma RunOne(b: Books, ops: seq<Op>, op: Op)
    ensures Run(b, ops + [op]) == Apply(Run(b, ops), op)
  {
    assert (ops + [op])[..|ops|] == ops;
  }

  lemma Credited(now: int)
    ensures Run(Opened(now), [DoCredit(10, None)]) == Books(Account(10, [Grant(10, 10, None, now)], [], now), 0, 0, [])
  {
    RunOne(Opened(now), [], DoCredit(10, None));
    assert [] + [DoCredit(10, None)] == [DoCredit(10, None)];
  }

  /** One task in progress upstream, with ten points frozen. */
  ghost predicate OneUpstreamTask(b: Books) {
    && |b.tasks| == 1 && |b.account.tasks| == 1 && b.account.tasks[0].status == Processing
    && b.account.tasks[0].remote && b.account.tasks[0].frozen == 10
  }

  lemma OneGrantSubmit(b: Books, g: Grant)
    requires g.expires.None? && g.remaining == 10 && b.account.grants == [g] && b.account.tasks == [] && b.tasks == []
    ensures OneUpstreamTask(Apply(b, DoSubmit(10, true)))
  {
    SubmitShape(b, 10, true);
    SpendSynced(Sync(b.account), 10);
    assert SweepAll([g], b.account.now) == [g];
    assert Remaining([g]) == 10 by { assert [g][..0] == []; }
    SyncTwice(b.account);
  }

  lemma CreditedAndSpent(now: int)
    ensures OneUpstreamTask(Run(Opened(now), [DoCredit(10, None), DoSubmit(10, true)]))
  {
    var (o1, o2) := (DoCredit(10, None), DoSubmit(10, true));
    Credited(now);
    OneGrantSubmit(Run(Opened(now), [o1]), Grant(10, 10, None, now));
    RunOne(Opened(now), [o1], o2);
    assert [o1] + [o2] == [o1, o2];
  }

  lemma PolledNow(b: Books, timeout: int)
    requires OneUpstreamTask(b)
    ensures HoldsFinished(Apply(b, DoPoll(0, timeout, RemoteSuccess)).account, 0)
  {
  }

  /** Such a run: ten points are credited, spent on an upstream task, and its success is learnt by polling. */
  lemma PolledSuccessKeepsPointsFrozen(now: int, timeout: int)
    ensures var ops := [DoCredit(10, None), DoSubmit(10, true), DoPoll(0, timeout, RemoteSuccess)];
            HoldsFinished(Run(Opened(now), ops).account, 0)
  {
    var ops := [DoCredit(10, None), DoSubmit(10, true)];
    CreditedAndSpent(now);
    PolledNow(Run(Opened(now), ops), timeout);
    RunOne(Opened(now), ops, DoPoll(0, timeout, RemoteSuccess));
    assert ops + [DoPoll(0, timeout, RemoteSuccess)] ==
           [DoCredit(10, None), DoSubmit(10, true), DoPoll(0, timeout, RemoteSuccess)];
  }

  predicate NoRemote(ops: seq<Op>) {
    forall i :: 0 <= i < |ops| && ops[i].DoSubmit? ==> !ops[i].remote
  }

  ghost predicate AllLocal(a: Account) {
    forall t :: 0 <= t < |a.tasks| ==> !a.tasks[t].remote
  }

  lemma TasksStayLocal(b: Books, op: Op)
    requires AllLocal(b.account) && (op.DoRefundTask? || op.DoComplete? || op.DoPoll?)
    ensures AllLocal(Apply(b, op).account)
  {
    if HasTask(b, op.t) {
      RefundTaskEffect(b.account, op.t);
      if op.DoPoll? { PollEffect(b.account, op.t, op.timeout, op.result); }
    }
  }

  lemma StaysLocal(b: Books, op: Op)
    requires AllLocal(b.account) && (op.DoSubmit? ==> !op.remote)
    ensures AllLocal(Apply(b, op).account)
  {
    if op.DoSubmit? {
      SpendEffect(Sync(b.account), op.cost, false);
    } else if op.DoRefundTask? || op.DoComplete? || op.DoPoll? {
      TasksStayLocal(b, op);
    } else {
      OtherTasks(b, op);
    }
  }

  lemma {:induction false} NoRemoteTasks(now: int, ops: seq<Op>)
    requires NoRemote(ops)
    ensures AllLocal(Run(Opened(now), ops).account)
  {
    if ops != [] {
      NoRemoteTasks(now, ops[..|ops| - 1]);
      StaysLocal(Run(Opened(now), ops[..|ops| - 1]), ops[|ops| - 1]);
    }
  }

  /** Over runs without upstream task ids, which is every task submitted today, only unfinished tasks hold points. */
  lemma OnlyUnfinishedHoldPoints(now: int, ops: seq<Op>, t: nat)
    requires NoRemote(ops)
    ensures !HoldsFinished(Run(Opened(now), ops).account, t)
  {
    PointsAreConserved(now, ops);
    NoRemoteTasks(now, ops);
    var b := Run(Opened(now), ops);
    if t < |b.account.tasks| {
      assert TaskOk(b.account.grants, b.account.tasks[t]);
    }
  }
}
