/** The durable accounting-request protocol as a transition system: every locked transaction of the service,
    every local event of a worker and every passage of time is one step on a value of type State. */
module AiRequests {
  import opened Wrappers
  import opened Records

  const MAX_ATTEMPTS: nat := 3
  const SECOND: int := 1_000_000
  const LEASE: int := 180 * SECOND
  const RETRY_STEP: int := 10 * SECOND

  datatype Status = Queued | Processing | Completed | Failed

  /** The JSON payload of a user message. The synchronous path stores only `cid`. */
  datatype Payload = Payload(
    cid: string, status: Option<Status>, acceptedAt: Option<int>, attempts: nat,
    leaseToken: Option<nat>, leaseExpires: Option<int>, retryAfter: Option<int>, error: Option<string>)

  /** A user message; its position in the table is its id. */
  datatype Message = Message(user: nat, session: nat, content: string, payload: Payload)

  /** An assistant message with its references to the records it saved. */
  datatype Reply = Reply(session: nat, replyTo: nat, autoSaved: bool, refs: seq<nat>)

  datatype Parsed = Ready(drafts: seq<Draft>) | NeedsClarification

  datatype Phase = Thinking | Answered(parsed: Parsed) | Raised

  /** A delivery between its claim and its final transaction. */
  datatype Worker = Worker(message: nat, token: nat, phase: Phase)

  datatype State = State(
    owner: map<nat, nat>, messages: seq<Message>, replies: seq<Reply>, records: seq<Record>,
    workers: map<nat, Worker>, tokens: set<nat>, now: int)

  // ---------- queries ----------

  predicate IsRequest(m: Message, session: nat, cid: string) {
    m.session == session && m.payload.cid == cid
  }

  function FindMessage(ms: seq<Message>, session: nat, cid: string): (found: Option<nat>)
    ensures found.Some? ==> found.value < |ms| && IsRequest(ms[found.value], session, cid)
    ensures found.None? ==> forall i :: 0 <= i < |ms| ==> !IsRequest(ms[i], session, cid)
  {
    if ms == [] then None
    else
      var n := |ms| - 1;
      match FindMessage(ms[..n], session, cid)
      case Some(i) => Some(i)
      case None => if IsRequest(ms[n], session, cid) then Some(n) else None
  }

  predicate HasReply(rs: seq<Reply>, id: nat) {
    exists i :: 0 <= i < |rs| && rs[i].replyTo == id
  }

  predicate Active(m: Message) {
    m.payload.status == Some(Queued) || m.payload.status == Some(Processing)
  }

  predicate SessionBusy(ms: seq<Message>, session: nat) {
    exists i :: 0 <= i < |ms| && ms[i].session == session && Active(ms[i])
  }

  predicate Due(at: Option<int>, now: int) {
    at.Some? ==> at.value <= now
  }

  /** The rows the claim step takes over, which are the rows the recovery scan dispatches. */
  predicate Claimable(p: Payload, now: int) {
    || (p.status == Some(Queued) && Due(p.retryAfter, now))
    || (p.status == Some(Processing) && Due(p.leaseExpires, now))
  }

  /** The status shown to the client: a reply decides, then the payload, and a message with neither has failed. */
  function ShownStatus(s: State, id: nat): Status
    requires id < |s.messages|
  {
    if HasReply(s.replies, id) then Completed else s.messages[id].payload.status.GetOr(Failed)
  }

  predicate Owns(s: State, user: nat, session: nat) {
    session in s.owner && s.owner[session] == user
  }

  function Finished(p: Payload, status: Status, error: Option<string>): Payload {
    p.(status := Some(status), leaseToken := None, leaseExpires := None, retryAfter := None, error := error)
  }

  function SetPayload(ms: seq<Message>, id: nat, p: Payload): seq<Message>
    requires id < |ms|
  {
    ms[id := ms[id].(payload := p)]
  }

  // ---------- accept ----------

  datatype Accepted = NoSession | ContentConflict | Current(id: nat, status: Status) | Busy | Enqueued(id: nat)

  function Accept(s: State, user: nat, session: nat, cid: string, content: string): (State, Accepted) {
    if !Owns(s, user, session) then (s, NoSession)
    else
      var found := FindMessage(s.messages, session, cid);
      if found.Some? && s.messages[found.value].content != content then (s, ContentConflict)
      else if found.Some? && ShownStatus(s, found.value) != Failed
           then (s, Current(found.value, ShownStatus(s, found.value)))
      else if SessionBusy(s.messages, session) then (s, Busy)
      else
        var at := if found.Some? then s.messages[found.value].payload.acceptedAt.GetOr(s.now) else s.now;
        var p := Payload(cid, Some(Queued), Some(at), 0, None, None, None, None);
        if found.Some? then (s.(messages := SetPayload(s.messages, found.value, p)), Enqueued(found.value))
        else (s.(messages := s.messages + [Message(user, session, content, p)]), Enqueued(|s.messages|))
  }

  // ---------- process: claim, model call, commit or fail ----------

  datatype Claimed = Missing | Settled(status: Status) | GaveUp | Leased

  const GAVE_UP_ERROR: string := "gave up after repeated attempts"
  const RETRY_ERROR: string := "temporarily unfinished"

  function Claim(s: State, w: nat, id: nat, token: nat): (State, Claimed) {
    if id >= |s.messages| || s.messages[id].payload.status.None? then (s, Missing)
    else
      var p := s.messages[id].payload;
      if !Claimable(p, s.now) then (s, Settled(p.status.value))
      else if p.attempts >= MAX_ATTEMPTS then
        (s.(messages := SetPayload(s.messages, id, Finished(p, Failed, Some(GAVE_UP_ERROR)))), GaveUp)
      else
        var p' := p.(status := Some(Processing), attempts := p.attempts + 1, leaseToken := Some(token),
                     leaseExpires := Some(s.now + LEASE));
        (s.(messages := SetPayload(s.messages, id, p'), workers := s.workers[w := Worker(id, token, Thinking)],
            tokens := s.tokens + {token}),
         Leased)
  }

  /** The unlocked model call ends, with a parse result or with an exception. */
  function Answer(s: State, w: nat, parsed: Option<Parsed>): State {
    if w in s.workers && s.workers[w].phase == Thinking then
      s.(workers := s.workers[w := s.workers[w].(phase := if parsed.Some? then Answered(parsed.value) else Raised)])
    else s
  }

  function Leave(s: State, w: nat): State {
    s.(workers := s.workers - {w})
  }

  function BatchItems(user: nat, session: nat, cid: string, drafts: seq<Draft>): (items: seq<Item>)
    ensures |items| == |drafts|
    ensures forall i :: 0 <= i < |items| ==> items[i] == Item(AiKey(session, cid, i), drafts[i])
  {
    if drafts == [] then []
    else
      var n := |drafts| - 1;
      BatchItems(user, session, cid, drafts[..n]) + [Item(AiKey(session, cid, n), drafts[n])]
  }

  function Drafts(parsed: Parsed): seq<Draft> {
    if parsed.Ready? then parsed.drafts else []
  }

  function SaveResult(rs: seq<Record>, user: nat, session: nat, cid: string, parsed: Parsed, catalog: Catalog): Saved {
    SaveAll(rs, user, BatchItems(user, session, cid, Drafts(parsed)), FromAi, catalog)
  }

  predicate HoldsLease(s: State, w: nat) {
    && w in s.workers
    && s.workers[w].message < |s.messages|
    && s.messages[s.workers[w].message].payload.leaseToken == Some(s.workers[w].token)
  }

  datatype Ended = NotRunning | Fenced | Rolled(error: CreateError) | Done | Retry | GivenUp

  /** The commit transaction: fence, save the whole batch with its reply, mark the request completed. */
  function Complete(s: State, w: nat, catalog: Catalog): (State, Ended) {
    if w !in s.workers || !s.workers[w].phase.Answered? then (s, NotRunning)
    else if !HoldsLease(s, w) then (Leave(s, w), Fenced)
    else
      var id := s.workers[w].message;
      var m := s.messages[id];
      var parsed := s.workers[w].phase.parsed;
      match SaveResult(s.records, m.user, m.session, m.payload.cid, parsed, catalog)
      case Err(e) => (s.(workers := s.workers[w := s.workers[w].(phase := Raised)]), Rolled(e))
      case Ok((rs, ids)) =>
        (Leave(s, w).(records := rs, replies := s.replies + [Reply(m.session, id, parsed.Ready?, ids)],
                      messages := SetPayload(s.messages, id, Finished(m.payload, Completed, None))),
         Done)
  }

  /** The commit transaction raised before it could commit, for whatever reason; nothing of it is left. */
  function Abort(s: State, w: nat): State {
    if w in s.workers && s.workers[w].phase.Answered? then s.(workers := s.workers[w := s.workers[w].(phase := Raised)])
    else s
  }

  /** The failure transaction that follows an exception. */
  function Fail(s: State, w: nat): (State, Ended) {
    if w !in s.workers || !s.workers[w].phase.Raised? then (s, NotRunning)
    else if !HoldsLease(s, w) then (Leave(s, w), Fenced)
    else
      var id := s.workers[w].message;
      var p := s.messages[id].payload;
      if p.attempts >= MAX_ATTEMPTS then
        (Leave(s, w).(messages := SetPayload(s.messages, id, Finished(p, Failed, Some(RETRY_ERROR)))), GivenUp)
      else
        var p' := Finished(p, Queued, Some(RETRY_ERROR)).(retryAfter := Some(s.now + RETRY_STEP * p.attempts));
        (Leave(s, w).(messages := SetPayload(s.messages, id, p')), Retry)
  }

  // ---------- the synchronous chat path ----------

  datatype Chatted =
    | ChatNoSession | ChatConflict | Unfinished | Replayed(id: nat) | ChatBusy | ModelError
        | ChatRolled(error: CreateError)
    | Answers(id: nat)

  function Chat(s: State, user: nat, session: nat, cid: string, content: string, parsed: Option<Parsed>,
                catalog: Catalog)
    : (State, Chatted)
  {
    if !Owns(s, user, session) then (s, ChatNoSession)
    else
      var found := FindMessage(s.messages, session, cid);
      if found.Some? then
        if s.messages[found.value].content != content then (s, ChatConflict)
        else if !HasReply(s.replies, found.value) then (s, Unfinished)
        else (s, Replayed(found.value))
      else if SessionBusy(s.messages, session) then (s, ChatBusy)
      else if parsed.None? then (s, ModelError)
      else
        var id := |s.messages|;
        match SaveResult(s.records, user, session, cid, parsed.value, catalog)
        case Err(e) => (s, ChatRolled(e))
        case Ok((rs, ids)) =>
          var m := Message(user, session, content, Payload(cid, None, None, 0, None, None, None, None));
          (s.(messages := s.messages + [m],
              replies := s.replies + [Reply(session, id, parsed.value.Ready?, ids)], records := rs),
           Answers(id))
  }

  // ---------- steps and runs ----------

  datatype Action =
    | DoAccept(user: nat, session: nat, cid: string, content: string)
    | DoClaim(worker: nat, id: nat, token: nat)
    | DoAnswer(worker: nat, result: Option<Parsed>)
    | DoComplete(worker: nat, catalog: Catalog)
    | DoAbort(worker: nat)
    | DoFail(worker: nat)
    | Crash(worker: nat)
    | DoChat(user: nat, session: nat, cid: string, content: string, result: Option<Parsed>, catalog: Catalog)
    | WriteRecord(user: nat, key: Option<RecordKey>, draft: Draft, source: Source, catalog: Catalog)
    | DeleteRecord(id: nat)
    | Tick(elapsed: nat)

  /** A claim starts a new delivery and draws a token never drawn before. Records written outside this protocol
      may carry any key; of those writers only the draft confirmation, with its own keys, marks them as AI records. */
  predicate Enabled(s: State, a: Action) {
    match a
    case DoClaim(w, _, token) => w !in s.workers && token !in s.tokens
    case WriteRecord(_, key, _, source, _) => source == FromAi ==> key.Some? && key.value.ConfirmKey?
    case _ => true
  }

  function Step(s: State, a: Action): State {
    match a
    case DoAccept(user, session, cid, content) => Accept(s, user, session, cid, content).0
    case DoClaim(w, id, token) => Claim(s, w, id, token).0
    case DoAnswer(w, result) => Answer(s, w, result)
    case DoComplete(w, catalog) => Complete(s, w, catalog).0
    case DoAbort(w) => Abort(s, w)
    case DoFail(w) => Fail(s, w).0
    case Crash(w) => Leave(s, w)
    case DoChat(user, session, cid, content, result, catalog) => Chat(s, user, session, cid, content, result, catalog).0
    case WriteRecord(user, key, d, source, catalog) =>
      (match Create(s.records, user, key, d, source, catalog)
       case Ok((rs, _)) => s.(records := rs)
       case Err(_) => s)
    case DeleteRecord(id) => if id < |s.records| then s.(records := s.records[id := s.records[id].(deleted := true)])
                             else s
    case Tick(elapsed) => s.(now := s.now + elapsed)
  }

  /** Any interleaving, from any set of sessions; a step that is not enabled does not happen. */
  function Run(s: State, actions: seq<Action>): State {
    if actions == [] then s
    else
      var n := |actions| - 1;
      var mid := Run(s, actions[..n]);
      if Enabled(mid, actions[n]) then Step(mid, actions[n]) else mid
  }

  /** The ledger may already hold records of other origins. */
  ghost predicate Init(s: State) {
    && s.messages == [] && s.replies == [] && s.workers == map[] && s.tokens == {}
    && UniqueKeys(s.records)
    && forall i :: 0 <= i < |s.records| && s.records[i].source == FromAi ==>
           s.records[i].key.Some? && !s.records[i].key.value.AiKey?
  }
}
