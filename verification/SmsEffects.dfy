/** What each command of the code service leaves in the store, in milliseconds and counts, and when a code is
    accepted. */
module SmsEffects {
  import opened Wrappers
  import opened Sms

  // ---------- one command ----------

  /** This session is in the store and has time left. */
  predicate Held(s: State, id: nat) {
    s.session.Some? && s.now < s.session.value.expires && s.session.value.value.id == id
  }

  predicate Counting(s: State, id: nat) {
    id in s.attempts && s.now < s.attempts[id].expires
  }

  /** How many attempts the running counter of a session has counted. */
  function Tries(s: State, id: nat): nat {
    if Counting(s, id) then s.attempts[id].value else 0
  }

  /** How many sends the running daily counter has counted. */
  function SentToday(s: State): nat {
    if s.daily.Some? && s.now < s.daily.value.expires then s.daily.value.value else 0
  }

  /** A send is admitted unless one was admitted in the last minute or five in the counter's day. */
  ghost predicate ReservedAs(s: State, sender: nat, t: State, allowed: bool) {
    && (allowed <==> (s.cooldown.Some? ==> s.cooldown.value.expires <= s.now) && SentToday(s) < 5)
    && (!allowed ==> t == s)
    && (allowed ==>
          && t.cooldown == Some(Timed((), s.now + 60_000)) && t.sends == s.sends + [s.now]
          && t.daily.Some? && t.daily.value.value == SentToday(s) + 1
          && t.daily.value.expires == (if SentToday(s) == 0 then s.now + 86_400_000 else s.daily.value.expires)
          && t == s.(cooldown := t.cooldown, daily := t.daily, senders := s.senders + {sender}, sends := t.sends))
  }

  lemma ReserveExactly(s: State, sender: nat)
    ensures ReservedAs(s, sender, Reserve(s, sender).0, Reserve(s, sender).1)
  {
  }

  /** The new session is stored for five minutes, whatever was there before. */
  ghost predicate StoredAs(s: State, sender: nat, id: nat, code: string, t: State) {
    && t.session.Some? && t.session.value.value.id == id && t.session.value.value.code == code
    && t.session.value.expires == s.now + 300_000
    && t == s.(session := t.session, issued := s.issued[id := Issue(code, s.now)], senders := s.senders - {sender})
  }

  lemma StoreExactly(s: State, sender: nat, id: nat, code: string)
    ensures StoredAs(s, sender, id, code, StoreSession(s, sender, id, code))
  {
  }

  /** A verification goes on exactly when there is a session with time left, and then with that session. */
  ghost predicate BegunAs(s: State, v: nat, code: string, t: State) {
    && t == s.(verifiers := t.verifiers)
    && (if s.session.Some? && s.now < s.session.value.expires
        then t.verifiers == s.verifiers[v := Verifier(code, Read(s.session.value.value))]
        else t.verifiers == s.verifiers - {v})
  }

  lemma BeginExactly(s: State, v: nat, code: string)
    ensures BegunAs(s, v, code, Begin(s, v, code))
  {
  }

  /** The attempt is counted. The verifier goes on with the right code or from the fifth attempt on; what it goes on
      with is a match exactly for the right code within the first five attempts. */
  ghost predicate CountedAs(s: State, v: nat, t: State)
    requires v in s.verifiers && s.verifiers[v].phase.Read?
  {
    var (code, read) := (s.verifiers[v].code, s.verifiers[v].phase.session);
    var tries := Tries(s, read.id) + 1;
    && t == s.(attempts := t.attempts, comparisons := t.comparisons, verifiers := t.verifiers)
    && t.attempts == s.attempts[read.id := Timed(tries, if Counting(s, read.id) then s.attempts[read.id].expires
                                                        else s.now + 300_000)]
    && t.comparisons == s.comparisons + (if tries <= 5 then [Comparison(read.id, Held(s, read.id))] else [])
    && (if code == read.code || tries >= 5
        then t.verifiers == s.verifiers[v := Verifier(code, Consuming(read, code == read.code && tries <= 5))]
        else t.verifiers == s.verifiers - {v})
  }

  lemma CountExactly(s: State, v: nat)
    requires v in s.verifiers && s.verifiers[v].phase.Read?
    ensures CountedAs(s, v, CountAttempt(s, v))
  {
  }

  /** The session that was read is deleted if it is still there; the answer is yes exactly when that happens to a
      match. */
  ghost predicate ConsumedAs(s: State, v: nat, t: State, verified: bool)
    requires v in s.verifiers && s.verifiers[v].phase.Consuming?
  {
    var Consuming(read, matched) := s.verifiers[v].phase;
    var there := s.session.Some? && s.now < s.session.value.expires && s.session.value.value == read;
    && (verified <==> there && matched)
    && t == s.(session := if there then None else s.session, verifiers := s.verifiers - {v},
               wins := if verified then s.wins + [read.id] else s.wins)
  }

  lemma ConsumeExactly(s: State, v: nat)
    requires v in s.verifiers && s.verifiers[v].phase.Consuming?
    ensures ConsumedAs(s, v, Consume(s, v), |Consume(s, v).wins| > |s.wins|)
  {
  }

  /** Over every run: a send is refused within a minute of the one before, and admitted after it when fewer than five
      were admitted in the last day. */
  lemma SendIsAdmitted(now: int, actions: seq<Action>, sender: nat)
    ensures var s := Run(Fresh(now), actions);
            var (n, allowed) := (|s.sends|, Reserve(s, sender).1);
            && (n > 0 && s.now < s.sends[n - 1] + 60_000 ==> !allowed)
            && ((n > 0 ==> s.sends[n - 1] + 60_000 <= s.now) && (n >= 5 ==> s.sends[n - 5] + 86_400_000 <= s.now) ==>
                  allowed)
  {
    RunSends(now, actions);
    SpacedIsAdmitted(Run(Fresh(now), actions), sender);
  }

  lemma SpacedIsAdmitted(s: State, sender: nat)
    requires SendsOk(s)
    ensures var (n, allowed) := (|s.sends|, Reserve(s, sender).1);
            && (n > 0 && s.now < s.sends[n - 1] + 60_000 ==> !allowed)
            && ((n > 0 ==> s.sends[n - 1] + 60_000 <= s.now) && (n >= 5 ==> s.sends[n - 5] + 86_400_000 <= s.now) ==>
                  allowed)
  {
    ReserveExactly(s, sender);
    assert CounterFollows(s);
    if SentToday(s) >= 5 { assert s.daily.value.expires == s.sends[|s.sends| - 5] + 86_400_000; }
  }

  // ---------- a right code is accepted ----------

  /** What a verifier was given and what it read is not touched by anybody else. */
  predicate Hands(v: nat, a: Action) {
    match a
    case DoBegin(w, _) => w == v
    case DoCount(w) => w == v
    case DoConsume(w) => w == v
    case Crash(w) => w == v
    case _ => false
  }

  lemma {:induction false} VerifierWaits(s: State, actions: seq<Action>, v: nat)
    requires v in s.verifiers && forall k :: 0 <= k < |actions| ==> !Hands(v, actions[k])
    ensures v in Run(s, actions).verifiers && Run(s, actions).verifiers[v] == s.verifiers[v]
  {
    if actions != [] {
      var n := |actions| - 1;
      VerifierWaits(s, actions[..n], v);
    }
  }

  lemma {:induction false} InvLasts(s: State, actions: seq<Action>)
    requires Inv(s)
    ensures Inv(Run(s, actions))
  {
    if actions != [] {
      var n := |actions| - 1;
      InvLasts(s, actions[..n]);
      var mid := Run(s, actions[..n]);
      if Enabled(mid, actions[n]) { StepKeeps(mid, actions[n]); }
    }
  }

  lemma {:induction false} IssuedStays(s: State, actions: seq<Action>, id: nat)
    requires id in s.issued
    ensures id in Run(s, actions).issued && Run(s, actions).issued[id] == s.issued[id]
  {
    if actions != [] { IssuedStays(s, actions[..|actions| - 1], id); }
  }

  /** This step puts another session in the place of this one, or deletes it. */
  predicate Takes(s: State, a: Action, id: nat) {
    && Enabled(s, a)
    && (a.DoStore? || (a.DoConsume? && s.verifiers[a.v].phase.session.id == id))
  }

  lemma TakenByStep(s: State, a: Action, id: nat)
    requires Inv(s) && id in s.issued && Enabled(s, a)
    ensures var t := Step(s, a);
            && id in t.issued && t.issued[id] == s.issued[id] && s.now <= t.now
            && (Held(t, id) <==> Held(s, id) && t.now < s.issued[id].at + 300_000 && !Takes(s, a, id))
  {
    match a
    case DoConsume(v) => ConsumeExactly(s, v);
    case DoReserve(_) =>
    case DoStore(_, _, _, _) =>
    case DoCount(_) =>
    case _ =>
  }

  ghost predicate Untaken(s: State, actions: seq<Action>, id: nat) {
    forall k :: 0 <= k < |actions| ==> !Takes(Run(s, actions[..k]), actions[k], id)
  }

  lemma UntakenNext(s: State, actions: seq<Action>, a: Action, id: nat)
    ensures Untaken(s, actions + [a], id) <==> Untaken(s, actions, id) && !Takes(Run(s, actions), a, id)
  {
    var more := actions + [a];
    assert forall k :: 0 <= k < |actions| ==> more[..k] == actions[..k] && more[k] == actions[k];
    assert more[..|actions|] == actions;
    if Untaken(s, actions, id) && !Takes(Run(s, actions), a, id) {
      forall k | 0 <= k < |more| ensures !Takes(Run(s, more[..k]), more[k], id) {
      }
    }
    if Untaken(s, more, id) {
      forall k | 0 <= k < |actions| ensures !Takes(Run(s, actions[..k]), actions[k], id) {
        assert !Takes(Run(s, more[..k]), more[k], id);
      }
    }
  }

  /** A session that is stored stays exactly until it is five minutes old, or another one is sent, or somebody who
      read it consumes it. */
  lemma {:induction false} StoredUntilTaken(s: State, actions: seq<Action>, id: nat)
    requires Inv(s) && Held(s, id)
    ensures var t := Run(s, actions);
            && id in t.issued
            && (Held(t, id) <==> t.now < t.issued[id].at + 300_000 && Untaken(s, actions, id))
  {
    if actions != [] {
      var n := |actions| - 1;
      StoredUntilTaken(s, actions[..n], id);
      InvLasts(s, actions[..n]);
      UntakenNext(s, actions[..n], actions[n], id);
      assert actions == actions[..n] + [actions[n]];
      var mid := Run(s, actions[..n]);
      if Enabled(mid, actions[n]) { TakenByStep(mid, actions[n], id); }
    }
  }

  lemma {:induction false} NotBusy(s: State, actions: seq<Action>, v: nat)
    requires v !in s.verifiers && forall k :: 0 <= k < |actions| ==> !Hands(v, actions[k])
    ensures v !in Run(s, actions).verifiers
  {
    if actions != [] { NotBusy(s, actions[..|actions| - 1], v); }
  }

  /** This verifier's last command answers yes. */
  predicate Verifies(s: State, v: nat, id: nat) {
    v in s.verifiers && s.verifiers[v].phase.Consuming? && Step(s, DoConsume(v)).wins == s.wins + [id]
  }

  /** A verification that read a session is answered yes exactly when it submitted that session's code as one of the
      first five attempts counted, and the session is still stored when it comes to consume it. */
  lemma VerifiedExactly(s: State, v: nat, rest: seq<Action>)
    requires Inv(s) && v in s.verifiers && s.verifiers[v].phase.Read?
    requires forall k :: 0 <= k < |rest| ==> !Hands(v, rest[k])
    ensures var (id, u) := (s.verifiers[v].phase.session.id, Run(Step(s, DoCount(v)), rest));
            Verifies(u, v, id) <==> s.verifiers[v].code == s.issued[id].code && Tries(s, id) < 5 && Held(u, id)
  {
    CountExactly(s, v);
    StepKeeps(s, DoCount(v));
    var t := Step(s, DoCount(v));
    if v in t.verifiers {
      VerifierWaits(t, rest, v);
      InvLasts(t, rest);
      IssuedStays(t, rest, s.verifiers[v].phase.session.id);
      ConsumeExactly(Run(t, rest), v);
    } else {
      NotBusy(t, rest, v);
    }
  }

  lemma {:induction false} TimePasses(s: State, actions: seq<Action>)
    ensures s.now <= Run(s, actions).now
  {
    if actions != [] { TimePasses(s, actions[..|actions| - 1]); }
  }

  /** Over every run, whatever others do between a verifier's three commands: one that read a stored session is verified
      exactly when it submits the code that was sent, fewer than five attempts were counted before its own, and until it
      consumes the session five minutes have not passed, no other session was sent and nobody else consumed this one. So
      the first to consume among those with the right code is verified, and the others are not. */
  lemma FirstRightCodeWins(now: int, before: seq<Action>, id: nat, v: nat, code: string, between: seq<Action>,
                           rest: seq<Action>)
    requires Held(Run(Fresh(now), before), id) && v !in Run(Fresh(now), before).verifiers
    requires forall k :: 0 <= k < |between| ==> !Hands(v, between[k])
    requires forall k :: 0 <= k < |rest| ==> !Hands(v, rest[k])
    ensures var s := Step(Run(Fresh(now), before), DoBegin(v, code));
            var t := Run(s, between);
            && id in s.issued && Enabled(t, DoCount(v))
            && (var u := Run(Step(t, DoCount(v)), rest);
                Verifies(u, v, id) <==>
                && code == s.issued[id].code && Tries(t, id) < 5
                && u.now < s.issued[id].at + 300_000 && Untaken(s, between, id)
                && Untaken(Step(t, DoCount(v)), rest, id))
  {
    RunKeeps(now, before);
    var r := Run(Fresh(now), before);
    BeginExactly(r, v, code);
    StepKeeps(r, DoBegin(v, code));
    var s := Step(r, DoBegin(v, code));
    VerifierWaits(s, between, v);
    InvLasts(s, between);
    StoredUntilTaken(s, between, id);
    IssuedStays(s, between, id);
    var t := Run(s, between);
    VerifiedExactly(t, v, rest);
    HeldThroughCount(t, v, id, rest);
  }

  lemma HeldThroughCount(t: State, v: nat, id: nat, rest: seq<Action>)
    requires Inv(t) && v in t.verifiers && t.verifiers[v].phase.Read? && id in t.issued
    ensures var t' := Step(t, DoCount(v));
            var u := Run(t', rest);
            && t.now <= u.now
            && (Held(u, id) <==> Held(t, id) && u.now < t.issued[id].at + 300_000 && Untaken(t', rest, id))
  {
    CountExactly(t, v);
    StepKeeps(t, DoCount(v));
    var t' := Step(t, DoCount(v));
    TimePasses(t', rest);
    if Held(t, id) {
      StoredUntilTaken(t', rest, id);
      IssuedStays(t', rest, id);
    } else {
      NotHeldAgain(t', rest, id);
    }
  }

  lemma NotHeldAgain(s: State, actions: seq<Action>, id: nat)
    requires id in s.issued && !Held(s, id)
    ensures !Held(Run(s, actions), id)
  {
    GoneForever(s, actions, id);
  }
}
