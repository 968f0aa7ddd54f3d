/** One-shot verification codes for one phone number: every Redis command or Lua script is one step. */
module Sms {
  import opened Wrappers

  const SECOND: int := 1000
  const CODE_TTL: int := 300 * SECOND
  const COOLDOWN: int := 60 * SECOND
  const DAILY_TTL: int := 86_400 * SECOND
  const DAILY_LIMIT: nat := 5
  const ATTEMPT_LIMIT: nat := 5

  /** The stored session text; the keyed digest of the code is injective, so the code stands for it. */
  datatype Session = Session(id: nat, code: string)

  /** A value with the instant at which Redis drops it. */
  datatype Timed<T> = Timed(value: T, expires: int)

  datatype Phase = Read(session: Session) | Consuming(session: Session, matched: bool)

  datatype Verifier = Verifier(code: string, phase: Phase)

  datatype Issue = Issue(code: string, at: int)

  /** One comparison of a submitted code: against which session, and whether that session was still stored. */
  datatype Comparison = Comparison(session: nat, stored: bool)

  datatype State = State(
    session: Option<Timed<Session>>, attempts: map<nat, Timed<nat>>, cooldown: Option<Timed<()>>,
        daily: Option<Timed<nat>>,
    verifiers: map<nat, Verifier>, senders: set<nat>, now: int,
    issued: map<nat, Issue>, comparisons: seq<Comparison>, wins: seq<nat>, sends: seq<int>)

  function Live<T>(slot: Option<Timed<T>>, now: int): Option<T> {
    if slot.Some? && now < slot.value.expires then Some(slot.value.value) else None
  }

  function AttemptsSlot(s: State, id: nat): Option<Timed<nat>> {
    if id in s.attempts then Some(s.attempts[id]) else None
  }

  // ---------- sending ----------

  /** The keys after an admitted send, when the daily counter stood at this count. */
  function Reserved(s: State, sender: nat, count: nat): State
    requires count > 0 ==> s.daily.Some?
  {
    s.(cooldown := Some(Timed((), s.now + COOLDOWN)),
       daily := Some(Timed(count + 1, if count == 0 then s.now + DAILY_TTL else s.daily.value.expires)),
       senders := s.senders + {sender}, sends := s.sends + [s.now])
  }

  function CountToday(s: State): nat {
    Live(s.daily, s.now).GetOr(0)
  }

  predicate MaySend(s: State) {
    Live(s.cooldown, s.now).None? && CountToday(s) < DAILY_LIMIT
  }

  /** The rate-limit script. */
  function Reserve(s: State, sender: nat): (State, bool) {
    if MaySend(s) then (Reserved(s, sender, CountToday(s)), true) else (s, false)
  }

  /** The provider accepted the message: the new session replaces whatever was stored. */
  function StoreSession(s: State, sender: nat, id: nat, code: string): State {
    s.(session := Some(Timed(Session(id, code), s.now + CODE_TTL)), issued := s.issued[id := Issue(code, s.now)],
       senders := s.senders - {sender})
  }

  // ---------- verifying ----------

  function Begin(s: State, v: nat, code: string): State {
    match Live(s.session, s.now)
    case None => s.(verifiers := s.verifiers - {v})
    case Some(session) => s.(verifiers := s.verifiers[v := Verifier(code, Read(session))])
  }

  /** The counter after the attempt script: a missing counter starts at one with the code's lifetime. */
  function Bumped(s: State, id: nat): Timed<nat> {
    match Live(AttemptsSlot(s, id), s.now)
    case Some(count) => Timed(count + 1, s.attempts[id].expires)
    case None => Timed(1, s.now + CODE_TTL)
  }

  predicate Stored(s: State, id: nat) {
    Live(s.session, s.now).Some? && Live(s.session, s.now).value.id == id
  }

  /** With the counter at its new value: up to the limit compare, and go on to consume the session when the code matches
      or the limit is reached. */
  function Counted(s: State, v: nat, counter: Timed<nat>): State
    requires v in s.verifiers && s.verifiers[v].phase.Read?
  {
    var (verifier, read) := (s.verifiers[v], s.verifiers[v].phase.session);
    var matched := read.code == verifier.code && counter.value <= ATTEMPT_LIMIT;
    s.(attempts := s.attempts[read.id := counter],
       comparisons := if counter.value <= ATTEMPT_LIMIT then s.comparisons + [Comparison(read.id, Stored(s, read.id))]
                      else s.comparisons,
       verifiers := if matched || counter.value >= ATTEMPT_LIMIT
                    then s.verifiers[v := verifier.(phase := Consuming(read, matched))] else s.verifiers - {v})
  }

  function CountAttempt(s: State, v: nat): State
    requires v in s.verifiers && s.verifiers[v].phase.Read?
  {
    Counted(s, v, Bumped(s, s.verifiers[v].phase.session.id))
  }

  /** The compare-and-delete script; its answer is the verification's answer when the code matched. */
  function Consume(s: State, v: nat): State
    requires v in s.verifiers && s.verifiers[v].phase.Consuming?
  {
    var Consuming(session, matched) := s.verifiers[v].phase;
    var t := s.(verifiers := s.verifiers - {v});
    if Live(s.session, s.now) != Some(session) then t
    else t.(session := None, wins := if matched then s.wins + [session.id] else s.wins)
  }

  // ---------- steps and runs ----------

  datatype Action =
    | DoReserve(sender: nat)
    | DoStore(sender: nat, testMode: bool, id: nat, code: string)
    | DoReject(sender: nat)
    | DoBegin(v: nat, code: string)
    | DoCount(v: nat)
    | DoConsume(v: nat)
    | Crash(v: nat)
    | Tick(elapsed: nat)

  predicate Enabled(s: State, a: Action) {
    match a
    case DoStore(sender, testMode, id, _) => (testMode || sender in s.senders) && id !in s.issued
    case DoBegin(v, _) => v !in s.verifiers
    case DoCount(v) => v in s.verifiers && s.verifiers[v].phase.Read?
    case DoConsume(v) => v in s.verifiers && s.verifiers[v].phase.Consuming?
    case _ => true
  }

  function Step(s: State, a: Action): State
    requires Enabled(s, a)
  {
    match a
    case DoReserve(sender) => Reserve(s, sender).0
    case DoStore(sender, _, id, code) => StoreSession(s, sender, id, code)
    case DoReject(sender) => s.(senders := s.senders - {sender})
    case DoBegin(v, code) => Begin(s, v, code)
    case DoCount(v) => CountAttempt(s, v)
    case DoConsume(v) => Consume(s, v)
    case Crash(v) => s.(verifiers := s.verifiers - {v})
    case Tick(elapsed) => s.(now := s.now + elapsed)
  }

  function Run(s: State, actions: seq<Action>): State {
    if actions == [] then s
    else
      var mid := Run(s, actions[..|actions| - 1]);
      if Enabled(mid, actions[|actions| - 1]) then Step(mid, actions[|actions| - 1]) else mid
  }

  function Fresh(now: int): State {
    State(None, map[], None, None, map[], {}, now, map[], [], [], [])
  }

  // ---------- the invariant ----------

  /** Comparisons made against a session while it was stored. */
  function StoredComparisons(cs: seq<Comparison>, id: nat): nat {
    if cs == [] then 0
    else StoredComparisons(cs[..|cs| - 1], id) + if cs[|cs| - 1] == Comparison(id, true) then 1 else 0
  }

  ghost predicate Known(s: State, session: Session) {
    session.id in s.issued && s.issued[session.id].code == session.code && s.issued[session.id].at <= s.now
  }

  /** The stored session lives exactly one code lifetime. */
  ghost predicate SessionOk(s: State) {
    s.session.Some? ==>
          Known(s, s.session.value.value) && s.session.value.expires == s.issued[s.session.value.value.id].at + CODE_TTL
  }

  ghost predicate VerifiersOk(s: State) {
    forall v :: v in s.verifiers ==>
      && Known(s, s.verifiers[v].phase.session)
      && (s.verifiers[v].phase.Consuming? && s.verifiers[v].phase.matched ==>
            s.verifiers[v].code == s.verifiers[v].phase.session.code)
  }

  /** While a session is stored its attempt counter, once started, is still counting: it outlives the session. */
  ghost predicate CounterOk(s: State, id: nat) {
    && StoredComparisons(s.comparisons, id) <= ATTEMPT_LIMIT
    && (id !in s.issued ==> StoredComparisons(s.comparisons, id) == 0)
    && (Stored(s, id) ==> id in s.issued)
    && (Stored(s, id) ==>
          if id in s.attempts then
            s.attempts[id].expires >= s.issued[id].at + CODE_TTL
            && StoredComparisons(s.comparisons, id) <= s.attempts[id].value
          else StoredComparisons(s.comparisons, id) == 0)
  }

  ghost predicate Inv(s: State) {
    && SessionOk(s) && VerifiersOk(s)
    && (forall id :: id in s.attempts ==> id in s.issued)
    && (forall id :: id in s.issued ==> s.issued[id].at <= s.now)
    && (forall id :: CounterOk(s, id))
    && (forall i, j :: 0 <= i < j < |s.wins| ==> s.wins[i] != s.wins[j])
    && (forall i :: 0 <= i < |s.wins| ==>
            s.wins[i] in s.issued && (s.session.Some? ==> s.session.value.value.id != s.wins[i]))
  }

  lemma CountAppend(cs: seq<Comparison>, c: Comparison, id: nat)
    ensures StoredComparisons(cs + [c], id) == StoredComparisons(cs, id) + if c == Comparison(id, true) then 1 else 0
  {
    assert (cs + [c])[..|cs|] == cs;
  }

  /** The counter of the session being tried, and everybody else's. */
  lemma CountCounter(s: State, v: nat, id: nat)
    requires Inv(s) && v in s.verifiers && s.verifiers[v].phase.Read?
    ensures CounterOk(CountAttempt(s, v), id)
  {
    var s' := CountAttempt(s, v);
    assert CounterOk(s, id) && CounterOk(s, s.verifiers[v].phase.session.id);
    if |s'.comparisons| > |s.comparisons| {
      CountAppend(s.comparisons, s'.comparisons[|s.comparisons|], id);
    }
  }

  lemma CountKeeps(s: State, v: nat)
    requires Inv(s) && v in s.verifiers && s.verifiers[v].phase.Read?
    ensures Inv(CountAttempt(s, v))
  {
    forall id ensures CounterOk(CountAttempt(s, v), id) { CountCounter(s, v, id); }
  }

  lemma StoreKeeps(s: State, sender: nat, id: nat, code: string)
    requires Inv(s) && id !in s.issued
    ensures Inv(StoreSession(s, sender, id, code))
  {
    var s' := StoreSession(s, sender, id, code);
    forall x ensures CounterOk(s', x) { assert CounterOk(s, x); }
  }

  lemma ConsumeKeeps(s: State, v: nat)
    requires Inv(s) && v in s.verifiers && s.verifiers[v].phase.Consuming?
    ensures Inv(Consume(s, v))
  {
    var s' := Consume(s, v);
    forall x ensures CounterOk(s', x) { assert CounterOk(s, x); }
  }

  lemma OtherKeeps(s: State, a: Action)
    requires Inv(s) && Enabled(s, a) && !a.DoStore? && !a.DoCount? && !a.DoConsume?
    ensures Inv(Step(s, a))
  {
    var s' := Step(s, a);
    forall x ensures CounterOk(s', x) { assert CounterOk(s, x); }
  }

  lemma StepKeeps(s: State, a: Action)
    requires Inv(s) && Enabled(s, a)
    ensures Inv(Step(s, a))
  {
    match a
    case DoStore(sender, _, id, code) => StoreKeeps(s, sender, id, code);
    case DoCount(v) => CountKeeps(s, v);
    case DoConsume(v) => ConsumeKeeps(s, v);
    case _ => OtherKeeps(s, a);
  }

  lemma {:induction false} RunKeeps(now: int, actions: seq<Action>)
    ensures Inv(Run(Fresh(now), actions))
  {
    if actions != [] {
      RunKeeps(now, actions[..|actions| - 1]);
      var mid := Run(Fresh(now), actions[..|actions| - 1]);
      if Enabled(mid, actions[|actions| - 1]) { StepKeeps(mid, actions[|actions| - 1]); }
    }
  }

  // ---------- what the protocol promises ----------

  /** Under any interleaving of verifiers and re-sends, each issued session is verified successfully at most once, and
      at most five codes are compared against it while it is stored. */
  lemma OneSuccessFiveComparisons(now: int, actions: seq<Action>, id: nat)
    ensures var s := Run(Fresh(now), actions);
            && (forall i, j :: 0 <= i < |s.wins| && 0 <= j < |s.wins| && s.wins[i] == id && s.wins[j] == id ==> i == j)
            && StoredComparisons(s.comparisons, id) <= ATTEMPT_LIMIT
  {
    RunKeeps(now, actions);
    assert CounterOk(Run(Fresh(now), actions), id);
  }

  /** A success is for the stored session's own code, and it removes that session. */
  lemma SuccessMatches(s: State, v: nat)
    requires Inv(s) && v in s.verifiers && s.verifiers[v].phase.Consuming?
    ensures var s' := Consume(s, v);
            var session := s.verifiers[v].phase.session;
            |s'.wins| > |s.wins| ==>
              && Live(s.session, s.now) == Some(session) && s'.session.None?
              && s.verifiers[v].code == s.issued[session.id].code && s.now < s.issued[session.id].at + CODE_TTL
  {
  }

  /** A verifier that read one session never deletes another: whatever it consumes, a stored session with a different
      id stays, code and lifetime included. */
  lemma OldVerifierSparesNewSession(s: State, v: nat)
    requires Inv(s) && v in s.verifiers && s.verifiers[v].phase.Consuming?
    ensures var s' := Consume(s, v);
            s'.session != s.session ==> Stored(s, s.verifiers[v].phase.session.id)
  {
  }

  /** Once a session has left the store, by success, exhaustion, expiry or replacement, it never comes back. */
  ghost predicate Gone(s: State, id: nat) {
    id in s.issued && !Stored(s, id)
  }

  lemma {:induction false} GoneForever(s: State, actions: seq<Action>, id: nat)
    requires Gone(s, id)
    ensures Gone(Run(s, actions), id)
  {
    if actions != [] {
      GoneForever(s, actions[..|actions| - 1], id);
      var mid := Run(s, actions[..|actions| - 1]);
      var a := actions[|actions| - 1];
      if Enabled(mid, a) {
        match a
        case DoCount(_) =>
        case DoConsume(_) =>
        case _ =>
      }
    }
  }

  /** While a session is stored and has been tried, its counter is alive, so the limit cannot restart. */
  lemma CounterOutlivesSession(s: State, id: nat)
    requires Inv(s) && Stored(s, id) && id in s.attempts
    ensures Live(AttemptsSlot(s, id), s.now) == Some(s.attempts[id].value)
    ensures s.issued[id].at + CODE_TTL <= s.attempts[id].expires
  {
    assert CounterOk(s, id);
  }

  // ---------- sending limits ----------

  /** Where the current daily counter started. */
  function CounterStart(s: State): int {
    if s.daily.Some? then |s.sends| - s.daily.value.value else 0
  }

  /** The daily counter counts the latest sends since it started. */
  ghost predicate CounterFollows(s: State) {
    s.daily.Some? ==>
      && 1 <= s.daily.value.value <= DAILY_LIMIT && 0 <= CounterStart(s)
      && s.daily.value.expires == s.sends[CounterStart(s)] + DAILY_TTL
  }

  /** Ten sends never fit into one day: the last of them is at least a day after the first. */
  ghost predicate NineADay(sends: seq<int>) {
    forall i, j :: 0 <= i && j == i + 9 && j < |sends| ==> sends[i] + DAILY_TTL <= sends[j]
  }

  /** The send that started this counter came a day after the start of the one before, which counted at most five. */
  ghost predicate CountersApart(sends: seq<int>, start: int) {
    0 < start < |sends| ==> sends[if start < DAILY_LIMIT then 0 else start - DAILY_LIMIT] + DAILY_TTL <= sends[start]
  }

  /** Sends are spaced by the cooldown, and by the day over any ten. */
  ghost predicate SendsOk(s: State) {
    && (forall i :: 0 <= i < |s.sends| ==> s.sends[i] <= s.now)
    && (forall i, j :: 0 <= i < j < |s.sends| ==> s.sends[i] + COOLDOWN <= s.sends[j])
    && (s.sends != [] ==> s.cooldown.Some? && s.cooldown.value.expires == s.sends[|s.sends| - 1] + COOLDOWN)
    && (s.sends == [] ==> s.cooldown.None? && s.daily.None?) && (s.sends != [] ==> s.daily.Some?)
    && CounterFollows(s) && CountersApart(s.sends, CounterStart(s)) && NineADay(s.sends)
  }

  lemma NinthSend(sends: seq<int>, now: int, start: int)
    requires forall i, j :: 0 <= i < j < |sends| ==> sends[i] <= sends[j]
    requires |sends| - 4 <= start <= |sends| && CountersApart(sends + [now], start) && NineADay(sends)
    requires forall i :: 0 <= i < |sends| ==> sends[i] <= now
    ensures NineADay(sends + [now])
  {
    var n := |sends|;
    assert (sends + [now])[n] == now;
  }

  lemma CounterAfter(s: State, sender: nat)
    requires SendsOk(s) && Reserve(s, sender).1
    ensures var s' := Reserve(s, sender).0;
            && CounterFollows(s') && CountersApart(s'.sends, CounterStart(s')) && |s.sends| - 4 <= CounterStart(s')
  {
    var s' := Reserve(s, sender).0;
    var n := |s.sends|;
    assert s'.sends[n] == s.now && forall i :: 0 <= i < n ==> s'.sends[i] == s.sends[i];
  }

  lemma SpacedAfter(sends: seq<int>, now: int)
    requires forall i, j :: 0 <= i < j < |sends| ==> sends[i] + COOLDOWN <= sends[j]
    requires sends != [] ==> sends[|sends| - 1] + COOLDOWN <= now
    ensures forall i, j :: 0 <= i < j < |sends + [now]| ==> (sends + [now])[i] + COOLDOWN <= (sends + [now])[j]
  {
    forall i | 0 <= i < |sends| ensures sends[i] + COOLDOWN <= now {
    }
  }

  lemma ReserveSends(s: State, sender: nat)
    requires SendsOk(s)
    ensures SendsOk(Reserve(s, sender).0)
  {
    if Reserve(s, sender).1 {
      CounterAfter(s, sender);
      SpacedAfter(s.sends, s.now);
      NinthSend(s.sends, s.now, CounterStart(Reserve(s, sender).0));
    }
  }

  lemma SameSends(s: State, s': State)
    requires SendsOk(s) && s'.sends == s.sends && s'.cooldown == s.cooldown && s'.daily == s.daily && s.now <= s'.now
    ensures SendsOk(s')
  {
  }

  lemma StepSends(s: State, a: Action)
    requires SendsOk(s) && Enabled(s, a)
    ensures SendsOk(Step(s, a))
  {
    match a
    case DoReserve(sender) => ReserveSends(s, sender);
    case _ => SameSends(s, Step(s, a));
  }

  lemma {:induction false} RunSends(now: int, actions: seq<Action>)
    ensures SendsOk(Run(Fresh(now), actions))
  {
    if actions != [] {
      RunSends(now, actions[..|actions| - 1]);
      var mid := Run(Fresh(now), actions[..|actions| - 1]);
      if Enabled(mid, actions[|actions| - 1]) { StepSends(mid, actions[|actions| - 1]); }
    }
  }

  /** Over every run any two sends are a cooldown apart, and no half-open stretch of one day holds more than nine:
      five of one counter's day and four of the next one's. */
  lemma SendsAreLimited(now: int, actions: seq<Action>, i: nat, j: nat)
    requires i < j < |Run(Fresh(now), actions).sends|
    ensures var sends := Run(Fresh(now), actions).sends;
            sends[i] + COOLDOWN <= sends[j] && (i + 9 <= j ==> sends[i] + DAILY_TTL <= sends[j])
  {
    RunSends(now, actions);
    var sends := Run(Fresh(now), actions).sends;
    if i + 9 <= j { assert sends[i] + DAILY_TTL <= sends[i + 9]; }
  }
}
