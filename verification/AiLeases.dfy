/** How long a lease and a retry delay last, over whole runs: nobody but the holder ends a lease for three minutes, and
    nobody takes up a failed request before its delay is over. */
module AiLeases {
  import opened Wrappers
  import opened AiRequests
  import opened AiInvariants
  import opened AiEffects

  /** The payload of a message that exists. */
  function PayloadOf(s: State, id: nat): Payload
    requires id < |s.messages|
  {
    s.messages[id].payload
  }

  /** In this step some delivery gets the lease of the message: it carries a token it did not carry before. */
  ghost predicate LeaseBegins(s: State, a: Action, id: nat) {
    && Enabled(s, a) && id < |Step(s, a).messages|
    && PayloadOf(Step(s, a), id).leaseToken.Some?
    && (id < |s.messages| ==> PayloadOf(Step(s, a), id).leaseToken != PayloadOf(s, id).leaseToken)
  }

  /** In this step the holder of the lease commits its answer or reports its failure. */
  ghost predicate HolderEnds(s: State, a: Action, id: nat) {
    && (a.DoComplete? || a.DoFail?)
    && Holder(s, a.worker) && s.workers[a.worker].message == id
  }

  lemma EndStartsNoLease(s: State, a: Action, id: nat)
    requires Inv(s) && (a.DoComplete? || a.DoFail?)
    ensures !LeaseBegins(s, a, id)
  {
    if a.DoComplete? { CompleteExactly(s, a.worker, a.catalog); } else { FailExactly(s, a.worker); }
  }

  lemma EntryStartsNoLease(s: State, a: Action, id: nat)
    requires Inv(s) && (a.DoAccept? || a.DoChat?)
    ensures !LeaseBegins(s, a, id)
  {
  }

  lemma LeaseBeginsByClaim(s: State, a: Action, id: nat)
    requires Inv(s) && LeaseBegins(s, a, id)
    ensures a.DoClaim? && a.id == id && id < |s.messages|
  {
    match a
    case DoAccept(_, _, _, _) => EntryStartsNoLease(s, a, id);
    case DoChat(_, _, _, _, _, _) => EntryStartsNoLease(s, a, id);
    case DoComplete(_, _) => EndStartsNoLease(s, a, id);
    case DoFail(_) => EndStartsNoLease(s, a, id);
    case _ =>
  }

  /** A lease begins with its deadline three minutes ahead. */
  lemma LeaseLength(s: State, a: Action, id: nat)
    requires Inv(s) && LeaseBegins(s, a, id)
    ensures Step(s, a).now == s.now && PayloadOf(Step(s, a), id).leaseExpires == Some(s.now + 180_000_000)
    ensures PayloadOf(Step(s, a), id).status == Some(Processing)
  {
    LeaseBeginsByClaim(s, a, id);
    ClaimExactly(s, a.worker, id, a.token);
  }

  /** Until its deadline the lease is ended by nobody but its holder. */
  lemma StepKeepsLease(s: State, a: Action, id: nat)
    requires Inv(s) && Enabled(s, a) && id < |s.messages| && !HolderEnds(s, a, id)
    requires PayloadOf(s, id).status == Some(Processing)
    requires PayloadOf(s, id).leaseExpires.Some? && s.now < PayloadOf(s, id).leaseExpires.value
    ensures id < |Step(s, a).messages| && PayloadOf(Step(s, a), id) == PayloadOf(s, id)
  {
    match a
    case DoAccept(user, session, cid, content) => AcceptKeepsActive(s, user, session, cid, content, id);
    case DoClaim(w, i, token) =>
    case DoComplete(w, catalog) => CompleteExactly(s, w, catalog);
    case DoFail(w) => FailExactly(s, w);
    case DoChat(user, session, cid, content, result, catalog) =>
    case _ =>
  }

  lemma AcceptKeepsActive(s: State, user: nat, session: nat, cid: string, content: string, id: nat)
    requires Inv(s) && id < |s.messages| && Active(s.messages[id])
    ensures var t := Accept(s, user, session, cid, content).0; id < |t.messages| && t.messages[id] == s.messages[id]
  {
  }

  /** While its delay lasts a queued request is touched by nobody. */
  lemma StepKeepsWaiting(s: State, a: Action, id: nat)
    requires Inv(s) && Enabled(s, a) && id < |s.messages|
    requires PayloadOf(s, id).status == Some(Queued)
    requires PayloadOf(s, id).retryAfter.Some? && s.now < PayloadOf(s, id).retryAfter.value
    ensures id < |Step(s, a).messages| && PayloadOf(Step(s, a), id) == PayloadOf(s, id)
  {
    match a
    case DoAccept(user, session, cid, content) => AcceptKeepsActive(s, user, session, cid, content, id);
    case DoClaim(w, i, token) =>
    case DoComplete(w, catalog) => CompleteExactly(s, w, catalog);
    case DoFail(w) => FailExactly(s, w);
    case DoChat(user, session, cid, content, result, catalog) =>
    case _ =>
  }

  // ---------- over runs ----------

  function At(s: State, actions: seq<Action>, i: nat): State
    requires i <= |actions|
  {
    Run(s, actions[..i])
  }

  lemma NextAt(s: State, actions: seq<Action>, i: nat)
    requires i < |actions|
    ensures At(s, actions, i + 1) ==
            if Enabled(At(s, actions, i), actions[i]) then Step(At(s, actions, i), actions[i]) else At(s, actions, i)
  {
    assert actions[..i + 1][..i] == actions[..i];
  }

  lemma TimeGoesOn(s: State, a: Action)
    requires Enabled(s, a)
    ensures s.now <= Step(s, a).now
  {
  }

  ghost predicate HolderEndsWithin(s: State, actions: seq<Action>, from: nat, until: nat, id: nat)
    requires until <= |actions|
  {
    exists k :: from <= k < until && Enabled(At(s, actions, k), actions[k])
      && HolderEnds(At(s, actions, k), actions[k], id)
  }

  /** The lease that is running after `from` steps still runs after `until` steps when its deadline has not come and
      its holder has not ended it. */
  lemma {:induction false} LeaseHeld(s: State, actions: seq<Action>, from: nat, until: nat, id: nat)
    requires Inv(s) && from <= until <= |actions| && id < |At(s, actions, from).messages|
    requires PayloadOf(At(s, actions, from), id).status == Some(Processing)
    requires PayloadOf(At(s, actions, from), id).leaseExpires.Some?
    requires At(s, actions, until).now < PayloadOf(At(s, actions, from), id).leaseExpires.value
    requires !HolderEndsWithin(s, actions, from, until, id)
    ensures id < |At(s, actions, until).messages|
    ensures PayloadOf(At(s, actions, until), id) == PayloadOf(At(s, actions, from), id)
    decreases until
  {
    if from < until {
      var mid := At(s, actions, until - 1);
      NextAt(s, actions, until - 1);
      RunInv(s, actions[..until - 1]);
      if Enabled(mid, actions[until - 1]) { TimeGoesOn(mid, actions[until - 1]); }
      LeaseHeld(s, actions, from, until - 1, id);
      if Enabled(mid, actions[until - 1]) { StepKeepsLease(mid, actions[until - 1], id); }
    }
  }

  lemma {:induction false} WaitHeld(s: State, actions: seq<Action>, from: nat, until: nat, id: nat)
    requires Inv(s) && from <= until <= |actions| && id < |At(s, actions, from).messages|
    requires PayloadOf(At(s, actions, from), id).status == Some(Queued)
    requires PayloadOf(At(s, actions, from), id).retryAfter.Some?
    requires At(s, actions, until).now < PayloadOf(At(s, actions, from), id).retryAfter.value
    ensures id < |At(s, actions, until).messages|
    ensures PayloadOf(At(s, actions, until), id) == PayloadOf(At(s, actions, from), id)
    decreases until
  {
    if from < until {
      var mid := At(s, actions, until - 1);
      NextAt(s, actions, until - 1);
      RunInv(s, actions[..until - 1]);
      if Enabled(mid, actions[until - 1]) { TimeGoesOn(mid, actions[until - 1]); }
      WaitHeld(s, actions, from, until - 1, id);
      if Enabled(mid, actions[until - 1]) { StepKeepsWaiting(mid, actions[until - 1], id); }
    }
  }

  /** Over every run: for three minutes after a lease began, the request is exactly as the lease left it, whatever is
      redelivered, accepted, crashes or is written meanwhile, unless its own holder ended the lease. */
  lemma LeaseLasts(s: State, actions: seq<Action>, i: nat, j: nat, id: nat)
    requires Inv(s) && i < j <= |actions| && LeaseBegins(At(s, actions, i), actions[i], id)
    requires At(s, actions, j).now < At(s, actions, i).now + 180_000_000
    requires !HolderEndsWithin(s, actions, i + 1, j, id)
    ensures id < |At(s, actions, i + 1).messages| && id < |At(s, actions, j).messages|
    ensures PayloadOf(At(s, actions, j), id) == PayloadOf(At(s, actions, i + 1), id)
    ensures PayloadOf(At(s, actions, j), id).leaseToken.Some?
  {
    NextAt(s, actions, i);
    RunInv(s, actions[..i]);
    LeaseLength(At(s, actions, i), actions[i], id);
    LeaseHeld(s, actions, i + 1, j, id);
  }

  /** Over every run two leases of one request are at least three minutes apart, unless the holder of the first ended
      it in between. */
  lemma LeasesApart(s: State, actions: seq<Action>, i: nat, j: nat, id: nat)
    requires Inv(s) && i < j < |actions|
    requires LeaseBegins(At(s, actions, i), actions[i], id) && LeaseBegins(At(s, actions, j), actions[j], id)
    ensures HolderEndsWithin(s, actions, i + 1, j, id) || At(s, actions, i).now + 180_000_000 <= At(s, actions, j).now
  {
    if !HolderEndsWithin(s, actions, i + 1, j, id) && At(s, actions, j).now < At(s, actions, i).now + 180_000_000 {
      LeaseLasts(s, actions, i, j, id);
      NextAt(s, actions, i);
      RunInv(s, actions[..i]);
      RunInv(s, actions[..j]);
      LeaseLength(At(s, actions, i), actions[i], id);
      LeaseBeginsByClaim(At(s, actions, j), actions[j], id);
      ClaimExactly(At(s, actions, j), actions[j].worker, id, actions[j].token);
    }
  }

  /** In this step a worker's failure queues the request again. */
  ghost predicate Requeues(s: State, a: Action, id: nat) {
    && Enabled(s, a) && a.DoFail? && id < |s.messages| && id < |Step(s, a).messages|
    && PayloadOf(s, id).status == Some(Processing) && PayloadOf(Step(s, a), id).status == Some(Queued)
  }

  lemma RequeueDelay(s: State, a: Action, id: nat)
    requires Inv(s) && Requeues(s, a, id)
    ensures PayloadOf(Step(s, a), id).retryAfter == Some(s.now + 10_000_000 * PayloadOf(s, id).attempts)
    ensures PayloadOf(s, id).attempts == PayloadOf(Step(s, a), id).attempts >= 1
  {
    FailExactly(s, a.worker);
    assert PayloadOk(s.messages[id].payload, s.now, s.tokens);
  }

  /** Over every run a request that failed is not leased again before ten seconds for each attempt made are over. */
  lemma RetriesApart(s: State, actions: seq<Action>, i: nat, j: nat, id: nat)
    requires Inv(s) && i < j < |actions|
    requires Requeues(At(s, actions, i), actions[i], id) && LeaseBegins(At(s, actions, j), actions[j], id)
    ensures At(s, actions, i).now + 10_000_000 * PayloadOf(At(s, actions, i), id).attempts <= At(s, actions, j).now
  {
    if At(s, actions, j).now < At(s, actions, i).now + 10_000_000 * PayloadOf(At(s, actions, i), id).attempts {
      NextAt(s, actions, i);
      RunInv(s, actions[..i]);
      RunInv(s, actions[..j]);
      RequeueDelay(At(s, actions, i), actions[i], id);
      WaitHeld(s, actions, i + 1, j, id);
      LeaseBeginsByClaim(At(s, actions, j), actions[j], id);
      ClaimExactly(At(s, actions, j), actions[j].worker, id, actions[j].token);
    }
  }
}
