/** Fencing, absorption and bounded work over whole runs of the request protocol. */
module AiTheorems {
  import opened Wrappers
  import opened Records
  import opened AiRequests
  import opened AiInvariants

  // ---------- what every reachable state looks like ----------

  /** Session serialisation and exactly-once, read off the invariant for any run from an empty message table. */
  lemma ReachableStates(s0: State, actions: seq<Action>)
    requires Init(s0)
    ensures var s := Run(s0, actions);
            && (forall i, j :: 0 <= i < j < |s.messages| && s.messages[i].session == s.messages[j].session ==>
                  s.messages[i].payload.cid != s.messages[j].payload.cid
                  && !(Active(s.messages[i]) && Active(s.messages[j])))
            && (forall i :: 0 <= i < |s.messages| ==>
                  (s.messages[i].payload.leaseToken.Some? <==> s.messages[i].payload.status == Some(Processing)))
            && (forall i :: 0 <= i < |s.messages| && s.messages[i].payload.status.Some? ==>
                  (s.messages[i].payload.status == Some(Completed) <==> HasReply(s.replies, i)))
            && (forall i, j :: 0 <= i < j < |s.replies| ==> s.replies[i].replyTo != s.replies[j].replyTo)
            && UniqueKeys(s.records)
  {
    InitInv(s0);
    RunInv(s0, actions);
  }

  // ---------- one step, seen from one message ----------

  ghost predicate Reaccepted(p: Payload, p': Payload) {
    p.status == Some(Failed) && p'.status == Some(Queued) && p'.attempts == 0
  }

  /** Work left to a request before it must settle. */
  function Rank(p: Payload): nat
    requires p.attempts <= MAX_ATTEMPTS
  {
    if p.status == Some(Queued) then 2 * (MAX_ATTEMPTS - p.attempts) + 1
    else if p.status == Some(Processing) then 2 * (MAX_ATTEMPTS - p.attempts) + 2
    else 0
  }

  predicate Leases(s: State, a: Action, id: nat) {
    a.DoClaim? && a.id == id && Claim(s, a.worker, a.id, a.token).1 == Leased
  }

  /** A step leaves a message alone, re-accepts it after a failure, or strictly lowers its rank; attempts count
      leases. */
  lemma StepOnMessage(s: State, a: Action, id: nat)
    requires Inv(s) && Enabled(s, a) && id < |s.messages|
    ensures id < |Step(s, a).messages|
    ensures var p, p' := s.messages[id].payload, Step(s, a).messages[id].payload;
            && p.attempts <= MAX_ATTEMPTS && p'.attempts <= MAX_ATTEMPTS
            && (p' == p || Reaccepted(p, p') || Rank(p') < Rank(p))
            && (if Leases(s, a, id) then p'.attempts == p.attempts + 1 && p' != p
                else Reaccepted(p, p') || p'.attempts == p.attempts)
  {
    AttemptsBounded(s, a, id);
    match a
    case DoAccept(user, session, cid, content) => AcceptOnMessage(s, user, session, cid, content, id);
    case DoClaim(w, i, token) => ClaimOnMessage(s, w, i, token, id);
    case DoComplete(w, catalog) => CompleteOnMessage(s, w, catalog, id);
    case DoFail(w) => FailOnMessage(s, w, id);
    case DoChat(_, _, _, _, _, _) => assert id < |Step(s, a).messages| && Step(s, a).messages[id] == s.messages[id];
    case _ => assert Step(s, a).messages == s.messages;
  }

  lemma AttemptsBounded(s: State, a: Action, id: nat)
    requires Inv(s) && Enabled(s, a) && id < |s.messages|
    ensures s.messages[id].payload.attempts <= MAX_ATTEMPTS
    ensures id < |Step(s, a).messages| ==> Step(s, a).messages[id].payload.attempts <= MAX_ATTEMPTS
  {
    StepTables(s, a);
  }

  lemma ClaimOnMessage(s: State, w: nat, i: nat, token: nat, id: nat)
    requires Inv(s) && id < |s.messages|
    ensures var (s', claimed) := Claim(s, w, i, token);
            var p, p' := s.messages[id].payload, s'.messages[id].payload;
            && p.attempts <= MAX_ATTEMPTS
            && (p' == p || (p'.attempts <= MAX_ATTEMPTS && Rank(p') < Rank(p)))
            && (if id == i && claimed == Leased then p'.attempts == p.attempts + 1 && p' != p
                else p'.attempts == p.attempts)
  {
  }

  lemma FailOnMessage(s: State, w: nat, id: nat)
    requires Inv(s) && id < |s.messages|
    ensures var p, p' := s.messages[id].payload, Fail(s, w).0.messages[id].payload;
            p' == p || (p.attempts <= MAX_ATTEMPTS && p'.attempts == p.attempts && Rank(p') < Rank(p))
  {
  }

  lemma CompleteOnMessage(s: State, w: nat, catalog: Catalog, id: nat)
    requires Inv(s) && id < |s.messages|
    ensures var p, p' := s.messages[id].payload, Complete(s, w, catalog).0.messages[id].payload;
            p' == p || (p.attempts <= MAX_ATTEMPTS && p'.attempts == p.attempts && Rank(p') < Rank(p))
  {
  }

  lemma AcceptOnMessage(s: State, user: nat, session: nat, cid: string, content: string, id: nat)
    requires Inv(s) && id < |s.messages|
    ensures id < |Accept(s, user, session, cid, content).0.messages|
    ensures var p, p' := s.messages[id].payload, Accept(s, user, session, cid, content).0.messages[id].payload;
            p' == p || Reaccepted(p, p')
  {
  }

  // ---------- bounded work ----------

  /** How often the message is leased in the run. */
  function LeaseCount(s: State, actions: seq<Action>, id: nat): nat {
    if actions == [] then 0
    else
      var n := |actions| - 1;
      var mid := Run(s, actions[..n]);
      LeaseCount(s, actions[..n], id) + if Enabled(mid, actions[n]) && Leases(mid, actions[n], id) then 1 else 0
  }

  /** How often the message's payload changes in the run. */
  function ChangeCount(s: State, actions: seq<Action>, id: nat): nat {
    if actions == [] then 0
    else
      var n := |actions| - 1;
      var a, b := Run(s, actions[..n]), Run(s, actions);
      ChangeCount(s, actions[..n], id) +
      if id < |a.messages| && id < |b.messages| && a.messages[id].payload != b.messages[id].payload then 1 else 0
  }

  ghost predicate NeverReaccepted(s: State, actions: seq<Action>, id: nat) {
    forall i :: 0 <= i < |actions| ==>
      var a, b := Run(s, actions[..i]), Run(s, actions[..i + 1]);
      id < |a.messages| && id < |b.messages| ==> !Reaccepted(a.messages[id].payload, b.messages[id].payload)
  }

  lemma NeverReacceptedPrefix(s: State, actions: seq<Action>, id: nat)
    requires actions != [] && NeverReaccepted(s, actions, id)
    ensures NeverReaccepted(s, actions[..|actions| - 1], id)
  {
    var front := actions[..|actions| - 1];
    forall i | 0 <= i < |front|
      ensures var a, b := Run(s, front[..i]), Run(s, front[..i + 1]);
              id < |a.messages| && id < |b.messages| ==> !Reaccepted(a.messages[id].payload, b.messages[id].payload)
    {
      assert front[..i] == actions[..i];
      assert front[..i + 1] == actions[..i + 1];
    }
  }

  /** Between two acceptances a request is leased at most three times and its payload changes at most seven times,
      over any interleaving with any number of workers, crashes and redeliveries. */
  lemma {:induction false} BoundedWork(s: State, actions: seq<Action>, id: nat)
    requires Inv(s) && id < |s.messages| && NeverReaccepted(s, actions, id)
    ensures var s' := Run(s, actions);
            && id < |s'.messages|
            && s.messages[id].payload.attempts <= MAX_ATTEMPTS && s'.messages[id].payload.attempts <= MAX_ATTEMPTS
            && s'.messages[id].payload.attempts == s.messages[id].payload.attempts + LeaseCount(s, actions, id)
            && ChangeCount(s, actions, id) + Rank(s'.messages[id].payload) <= Rank(s.messages[id].payload)
    ensures LeaseCount(s, actions, id) <= 3 && ChangeCount(s, actions, id) <= 7
  {
    if actions != [] {
      var n := |actions| - 1;
      var front := actions[..n];
      NeverReacceptedPrefix(s, actions, id);
      BoundedWork(s, front, id);
      var mid := Run(s, front);
      RunInv(s, front);
      assert actions[..n + 1] == actions;
      if Enabled(mid, actions[n]) {
        StepOnMessage(mid, actions[n], id);
      }
    }
  }

  // ---------- every unfinished request gets its turn ----------

  /** The instant stored in the payload from which the request may be taken over. */
  function Deadline(p: Payload, now: int): int {
    if p.status == Some(Processing) then p.leaseExpires.GetOr(now) else p.retryAfter.GetOr(now)
  }

  /** An unfinished request waits at most one lease; from its stored deadline on, the next delivery leases it or
      gives it up, whatever happened to the worker that held it. */
  lemma UnfinishedIsTakenOver(s: State, id: nat, later: int, w: nat, token: nat)
    requires Inv(s) && id < |s.messages| && Active(s.messages[id])
    requires Deadline(s.messages[id].payload, s.now) <= later && w !in s.workers && token !in s.tokens
    ensures Deadline(s.messages[id].payload, s.now) <= s.now + 180_000_000
    ensures Claimable(s.messages[id].payload, later)
    ensures var (s', claimed) := Claim(s.(now := later), w, id, token);
            && (claimed == Leased || claimed == GaveUp)
            && s'.messages[id].payload.attempts <= MAX_ATTEMPTS && s.messages[id].payload.attempts <= MAX_ATTEMPTS
            && Rank(s'.messages[id].payload) < Rank(s.messages[id].payload)
            && (claimed == GaveUp <==> s.messages[id].payload.attempts == MAX_ATTEMPTS)
  {
  }

  // ---------- fencing ----------

  predicate TokenCurrent(s: State, token: nat) {
    exists i :: 0 <= i < |s.messages| && s.messages[i].payload.leaseToken == Some(token)
  }

  /** A token that is not current anywhere never becomes current again. */
  lemma TokenStaysDead(s: State, a: Action, token: nat)
    requires Inv(s) && Enabled(s, a) && token in s.tokens && !TokenCurrent(s, token)
    ensures token in Step(s, a).tokens && !TokenCurrent(Step(s, a), token)
  {
    var s' := Step(s, a);
    forall i | 0 <= i < |s'.messages| ensures s'.messages[i].payload.leaseToken != Some(token) {
      if i < |s.messages| && s'.messages[i] == s.messages[i] {
        assert s.messages[i].payload.leaseToken != Some(token);
      }
    }
  }

  /** The transactions that end a delivery without the lease touch no table. */
  lemma FencedIsInert(s: State, w: nat, catalog: Catalog)
    requires w in s.workers && !HoldsLease(s, w)
    ensures var s' := Complete(s, w, catalog).0; s' == s || s' == Leave(s, w)
    ensures var s' := Fail(s, w).0; s' == s || s' == Leave(s, w)
  {
  }

  /** Lease fencing over runs: once a worker's token is not current, then whatever happens next, including a failure
      and a new acceptance of the same request, its completion and its failure leave messages, replies and records as
      they are. */
  lemma {:induction false} FencedForever(s: State, actions: seq<Action>, w: nat, token: nat, catalog: Catalog)
    requires Inv(s) && token in s.tokens && !TokenCurrent(s, token)
    ensures var s' := Run(s, actions);
            && token in s'.tokens && !TokenCurrent(s', token)
            && (w in s'.workers && s'.workers[w].token == token ==>
                  && (var c := Complete(s', w, catalog).0;
                      c.messages == s'.messages && c.replies == s'.replies && c.records == s'.records)
                  && (var f := Fail(s', w).0;
                      f.messages == s'.messages && f.replies == s'.replies && f.records == s'.records))
  {
    var s' := Run(s, actions);
    if actions != [] {
      var n := |actions| - 1;
      FencedForever(s, actions[..n], w, token, catalog);
      var mid := Run(s, actions[..n]);
      RunInv(s, actions[..n]);
      if Enabled(mid, actions[n]) {
        TokenStaysDead(mid, actions[n], token);
      }
    }
    if w in s'.workers && s'.workers[w].token == token {
      assert !HoldsLease(s', w);
      FencedIsInert(s', w, catalog);
    }
  }

  /** When a lease ends, by completion, failure, retry or takeover, its token is dead. */
  lemma LeaseEndKillsToken(s: State, w: nat, catalog: Catalog)
    requires Inv(s) && HoldsLease(s, w)
    ensures var (c, ended) := Complete(s, w, catalog); ended == Done ==> !TokenCurrent(c, s.workers[w].token)
    ensures var (f, ended) := Fail(s, w); ended == Retry || ended == GivenUp ==> !TokenCurrent(f, s.workers[w].token)
    ensures forall v, token :: v !in s.workers && token !in s.tokens ==>
      var (t, claimed) := Claim(s, v, s.workers[w].message, token);
      claimed == Leased || claimed == GaveUp ==> !TokenCurrent(t, s.workers[w].token)
  {
  }

  // ---------- completed is absorbing ----------

  /** A replied message is in no state that a step rewrites. */
  lemma ServedAtRest(s: State, id: nat)
    requires Inv(s) && id < |s.messages| && HasReply(s.replies, id)
    ensures var p := s.messages[id].payload;
            (p.status.None? || p.status == Some(Completed)) && p.leaseToken.None? && ShownStatus(s, id) == Completed
  {
  }

  lemma AcceptKeepsServed(s: State, user: nat, session: nat, cid: string, content: string, id: nat)
    requires Inv(s) && id < |s.messages| && HasReply(s.replies, id)
    ensures var s' := Accept(s, user, session, cid, content).0;
            s'.replies == s.replies && id < |s'.messages| && s'.messages[id] == s.messages[id]
  {
    ServedAtRest(s, id);
  }

  lemma ChatKeepsServed(s: State, user: nat, session: nat, cid: string, content: string, parsed: Option<Parsed>,
                        catalog: Catalog, id: nat)
    requires id < |s.messages|
    ensures var s' := Chat(s, user, session, cid, content, parsed, catalog).0;
            s.replies <= s'.replies && id < |s'.messages| && s'.messages[id] == s.messages[id]
  {
  }

  lemma ClaimKeepsServed(s: State, w: nat, i: nat, token: nat, id: nat)
    requires Inv(s) && id < |s.messages| && HasReply(s.replies, id)
    ensures var s' := Claim(s, w, i, token).0;
            s'.replies == s.replies && id < |s'.messages| && s'.messages[id] == s.messages[id]
  {
    ServedAtRest(s, id);
  }

  lemma CompleteKeepsServed(s: State, w: nat, catalog: Catalog, id: nat)
    requires Inv(s) && id < |s.messages| && HasReply(s.replies, id)
    ensures var s' := Complete(s, w, catalog).0;
            s.replies <= s'.replies && id < |s'.messages| && s'.messages[id] == s.messages[id]
  {
    ServedAtRest(s, id);
  }

  lemma FailKeepsServed(s: State, w: nat, id: nat)
    requires Inv(s) && id < |s.messages| && HasReply(s.replies, id)
    ensures var s' := Fail(s, w).0;
            s'.replies == s.replies && id < |s'.messages| && s'.messages[id] == s.messages[id]
  {
    ServedAtRest(s, id);
  }

  lemma QuietKeepsServed(s: State, a: Action, id: nat)
    requires Enabled(s, a) && id < |s.messages|
    requires !a.DoAccept? && !a.DoClaim? && !a.DoComplete? && !a.DoChat? && !a.DoFail?
    ensures var s' := Step(s, a); s.replies <= s'.replies && id < |s'.messages| && s'.messages[id] == s.messages[id]
  {
  }

  lemma StepKeepsServed(s: State, a: Action, id: nat)
    requires Inv(s) && Enabled(s, a) && id < |s.messages| && HasReply(s.replies, id)
    ensures var s' := Step(s, a);
            s.replies <= s'.replies && id < |s'.messages| && s'.messages[id] == s.messages[id]
  {
    if a.DoAccept? || a.DoChat? {
      EntryKeepsServed(s, a, id);
    } else if a.DoClaim? || a.DoComplete? || a.DoFail? {
      WorkerKeepsServed(s, a, id);
    } else {
      QuietKeepsServed(s, a, id);
    }
  }

  lemma EntryKeepsServed(s: State, a: Action, id: nat)
    requires Inv(s) && Enabled(s, a) && id < |s.messages| && HasReply(s.replies, id)
    requires a.DoAccept? || a.DoChat?
    ensures var s' := Step(s, a);
            s.replies <= s'.replies && id < |s'.messages| && s'.messages[id] == s.messages[id]
  {
    ServedAtRest(s, id);
    match a
    case DoAccept(user, session, cid, content) => AcceptKeepsServed(s, user, session, cid, content, id);
    case DoChat(user, session, cid, content, result, catalog) =>
      ChatKeepsServed(s, user, session, cid, content, result, catalog, id);
  }

  lemma WorkerKeepsServed(s: State, a: Action, id: nat)
    requires Inv(s) && Enabled(s, a) && id < |s.messages| && HasReply(s.replies, id)
    requires a.DoClaim? || a.DoComplete? || a.DoFail?
    ensures var s' := Step(s, a);
            s.replies <= s'.replies && id < |s'.messages| && s'.messages[id] == s.messages[id]
  {
    match a
    case DoClaim(w, i, token) => ClaimKeepsServed(s, w, i, token, id);
    case DoComplete(w, catalog) => CompleteKeepsServed(s, w, catalog, id);
    case DoFail(w) => FailKeepsServed(s, w, id);
  }

  /** A message with a reply keeps its content, its payload and its reply for ever, on both entry points. */
  lemma {:induction false} ServedIsAbsorbing(s: State, actions: seq<Action>, id: nat)
    requires Inv(s) && id < |s.messages| && HasReply(s.replies, id)
    ensures var s' := Run(s, actions);
            s.replies <= s'.replies && id < |s'.messages| && s'.messages[id] == s.messages[id]
            && HasReply(s'.replies, id)
  {
    if actions != [] {
      var n := |actions| - 1;
      ServedIsAbsorbing(s, actions[..n], id);
      var mid := Run(s, actions[..n]);
      RunInv(s, actions[..n]);
      if Enabled(mid, actions[n]) {
        StepKeepsServed(mid, actions[n], id);
      }
    }
    var s' := Run(s, actions);
    var i :| 0 <= i < |s.replies| && s.replies[i].replyTo == id;
    assert s'.replies[i].replyTo == id;
  }
}
