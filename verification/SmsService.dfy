/** The code service over its Redis keys; each method is one command or script, the history fields are ghost. */
module SmsService {
  import opened Wrappers
  import opened Sms
  import opened SmsEffects

  lemma Limited(s: State)
    requires Inv(s)
    ensures forall id :: StoredComparisons(s.comparisons, id) <= ATTEMPT_LIMIT
  {
    forall id ensures StoredComparisons(s.comparisons, id) <= ATTEMPT_LIMIT {
      assert CounterOk(s, id);
    }
  }

  lemma ReservesInto(s: State, sender: nat)
    requires Inv(s) && SendsOk(s) && MaySend(s)
    ensures Inv(Reserved(s, sender, CountToday(s))) && SendsOk(Reserved(s, sender, CountToday(s)))
  {
    StepKeeps(s, DoReserve(sender));
    ReserveSends(s, sender);
  }

  lemma CountsInto(s: State, v: nat, counter: Timed<nat>)
    requires Inv(s) && SendsOk(s) && v in s.verifiers && s.verifiers[v].phase.Read?
    requires counter == Bumped(s, s.verifiers[v].phase.session.id)
    ensures var t := Counted(s, v, counter);
            && t == CountAttempt(s, v) && Inv(t) && SendsOk(t)
            && forall id :: StoredComparisons(t.comparisons, id) <= ATTEMPT_LIMIT
  {
    var t := CountAttempt(s, v);
    CountKeeps(s, v);
    SameSends(s, t);
    Limited(t);
  }

  class CodeStore {
    var session: Option<Timed<Session>>
    var attempts: map<nat, Timed<nat>>
    var cooldown: Option<Timed<()>>
    var daily: Option<Timed<nat>>
    var verifiers: map<nat, Verifier>
    var senders: set<nat>
    var now: int
    ghost var issued: map<nat, Issue>
    ghost var comparisons: seq<Comparison>
    ghost var wins: seq<nat>
    ghost var sends: seq<int>

    ghost function View(): State
      reads this
    {
      State(session, attempts, cooldown, daily, verifiers, senders, now, issued, comparisons, wins, sends)
    }

    /** The protocol's invariant: lifetimes, counters, one win per session, and the spacing of sends. */
    ghost predicate Valid()
      reads this
    {
      Inv(View()) && SendsOk(View())
    }

    constructor (now: int)
      ensures Valid() && View() == Fresh(now)
    {
      session, attempts, cooldown, daily := None, map[], None, None;
      verifiers, senders, this.now := map[], {}, now;
      issued, comparisons, wins, sends := map[], [], [], [];
    }

    /** The script's writes, with the daily counter at this count. */
    method CountSend(sender: nat, count: nat)
      requires count > 0 ==> daily.Some?
      modifies this
      ensures View() == Reserved(old(View()), sender, count)
    {
      cooldown := Some(Timed((), now + COOLDOWN));
      if count == 0 {
        daily := Some(Timed(1, now + DAILY_TTL));
      } else {
        daily := Some(daily.value.(value := count + 1));
      }
      senders := senders + {sender};
      sends := sends + [now];
    }

    /** The rate-limit script. With `Valid`, an allowed send comes a cooldown after the one before and a day after the
        ninth before. */
    method ReserveSend(sender: nat) returns (allowed: bool)
      requires Valid()
      modifies this
      ensures Valid() && (View(), allowed) == Reserve(old(View()), sender)
      ensures ReservedAs(old(View()), sender, View(), allowed)
    {
      ReserveExactly(View(), sender);
      ghost var before := View();
      var count := if daily.Some? && now < daily.value.expires then daily.value.value else 0;
      if (cooldown.Some? && now < cooldown.value.expires) || count >= DAILY_LIMIT {
        return false;
      }
      ReservesInto(before, sender);
      CountSend(sender, count);
      return true;
    }

    /** The message went out: the new session, under an id of its own, is the one that is stored. */
    method SaveSession(sender: nat, id: nat, code: string)
      requires Valid() && id !in issued
      modifies this
      ensures Valid() && View() == StoreSession(old(View()), sender, id, code)
      ensures StoredAs(old(View()), sender, id, code, View())
      ensures Stored(View(), id) && forall other :: other != id ==> !Stored(View(), other)
    {
      StoreKeeps(View(), sender, id, code);
      SameSends(View(), StoreSession(View(), sender, id, code));
      session := Some(Timed(Session(id, code), now + CODE_TTL));
      senders := senders - {sender};
      issued := issued[id := Issue(code, now)];
    }

    /** First command of a verification: read the stored session. */
    method BeginVerify(v: nat, code: string) returns (found: bool)
      requires Valid() && v !in verifiers
      modifies this
      ensures Valid() && View() == Begin(old(View()), v, code) && BegunAs(old(View()), v, code, View())
      ensures found <==> Live(session, now).Some?
      ensures session == old(session) && comparisons == old(comparisons) && wins == old(wins)
    {
      StepKeeps(View(), DoBegin(v, code));
      SameSends(View(), Begin(View(), v, code));
      if session.Some? && now < session.value.expires {
        verifiers := verifiers[v := Verifier(code, Read(session.value.value))];
        return true;
      }
      verifiers := verifiers - {v};
      return false;
    }

    /** Second command: count the attempt, then compare unless the limit is passed. However many verifications run
        side by side, no session is compared more than five times while it is stored. */
    method CountVerify(v: nat) returns (goesOn: bool)
      requires Valid() && v in verifiers && verifiers[v].phase.Read?
      modifies this
      ensures Valid() && View() == CountAttempt(old(View()), v) && CountedAs(old(View()), v, View())
      ensures goesOn <==> v in verifiers
      ensures forall id :: StoredComparisons(comparisons, id) <= ATTEMPT_LIMIT
      ensures session == old(session) && wins == old(wins)
    {
      ghost var before := View();
      CountExactly(before, v);
      var verifier := verifiers[v];
      var read := verifier.phase.session;
      var counter := Timed(1, now + CODE_TTL);
      if read.id in attempts && now < attempts[read.id].expires {
        counter := attempts[read.id].(value := attempts[read.id].value + 1);
      }
      CountsInto(before, v, counter);
      attempts := attempts[read.id := counter];
      var matched := read.code == verifier.code && counter.value <= ATTEMPT_LIMIT;
      if counter.value <= ATTEMPT_LIMIT {
        comparisons := comparisons + [Comparison(read.id, Stored(before, read.id))];
      }
      goesOn := matched || counter.value >= ATTEMPT_LIMIT;
      verifiers := if goesOn then verifiers[v := verifier.(phase := Consuming(read, matched))] else verifiers - {v};
      assert View() == Counted(before, v, counter);
    }

    /** Last command: delete the session if it is still the one that was read; the verdict needs a match as well. A
        success means that the session was stored and alive, held the submitted code and had not been won before; it is
        gone afterwards. No other session is touched. */
    method FinishVerify(v: nat) returns (verified: bool)
      requires Valid() && v in verifiers && verifiers[v].phase.Consuming?
      modifies this
      ensures Valid() && View() == Consume(old(View()), v) && ConsumedAs(old(View()), v, View(), verified)
      ensures var read := old(verifiers[v].phase.session);
              && (verified ==>
                    && Live(old(session), now) == Some(read) && session == None && now < issued[read.id].at + CODE_TTL
                    && old(verifiers[v].code) == issued[read.id].code
                    && read.id !in old(wins) && wins == old(wins) + [read.id])
              && (!verified ==> wins == old(wins))
              && (session != old(session) ==> session == None && Live(old(session), now) == Some(read))
    {
      ConsumeKeeps(View(), v);
      SameSends(View(), Consume(View(), v));
      SuccessMatches(View(), v);
      ConsumeExactly(View(), v);
      var read, matched := verifiers[v].phase.session, verifiers[v].phase.matched;
      verifiers := verifiers - {v};
      var deleted := false;
      if session.Some? && now < session.value.expires && session.value.value == read {
        session := None;
        deleted := true;
        if matched {
          wins := wins + [read.id];
        }
      }
      return matched && deleted;
    }
  }
}
