/** What each transaction of the request service answers, and what it leaves, read off the rows alone. */
module AiEffects {
  import opened Wrappers
  import opened Records
  import opened AiRequests
  import opened AiInvariants

  predicate SameTables(s: State, t: State) {
    t.messages == s.messages && t.replies == s.replies && t.records == s.records
  }

  /** A reply to this message exists. */
  ghost predicate Replied(s: State, id: nat) {
    exists i :: 0 <= i < |s.replies| && s.replies[i].replyTo == id
  }

  /** A message of the session is waiting for its model answer or being worked on. */
  ghost predicate InProgress(s: State, session: nat) {
    exists j :: 0 <= j < |s.messages| && s.messages[j].session == session
                && s.messages[j].payload.status in {Some(Queued), Some(Processing)}
  }

  predicate UnderClientId(m: Message, session: nat, cid: string) {
    m.session == session && m.payload.cid == cid
  }

  /** The one message of the session under this client id, if there is one. */
  ghost predicate EarlierIs(s: State, session: nat, cid: string, earlier: Option<nat>) {
    match earlier
    case None => forall i :: 0 <= i < |s.messages| ==> !UnderClientId(s.messages[i], session, cid)
    case Some(k) =>
      && k < |s.messages| && UnderClientId(s.messages[k], session, cid)
      && forall i :: 0 <= i < |s.messages| && UnderClientId(s.messages[i], session, cid) ==> i == k
  }

  lemma FoundIsEarlier(s: State, session: nat, cid: string)
    requires SerialOk(s.messages)
    ensures EarlierIs(s, session, cid, FindMessage(s.messages, session, cid))
  {
    var found := FindMessage(s.messages, session, cid);
    forall i | 0 <= i < |s.messages| && UnderClientId(s.messages[i], session, cid) ensures found == Some(i) {
      assert IsRequest(s.messages[i], session, cid);
    }
  }

  // ---------- acceptance ----------

  /** The status a client sees: a reply decides, then the payload, and a message with neither has failed. */
  ghost predicate SeenAs(s: State, id: nat, status: Status)
    requires id < |s.messages|
  {
    if Replied(s, id) then status == Completed
    else if s.messages[id].payload.status.Some? then s.messages[id].payload.status == Some(status)
    else status == Failed
  }

  /** A queued request: attempts, lease and error start afresh, and a retry keeps its first acceptance time. */
  ghost predicate QueuedAs(s: State, t: State, id: nat, user: nat, session: nat, cid: string, content: string,
                           earlier: Option<nat>)
  {
    && t == s.(messages := t.messages)
    && (match earlier
        case None =>
          && id == |s.messages|
          && t.messages == s.messages +
               [Message(user, session, content, Payload(cid, Some(Queued), Some(s.now), 0, None, None, None, None))]
        case Some(k) =>
          && id == k < |s.messages|
          && (var first := if s.messages[k].payload.acceptedAt.Some? then s.messages[k].payload.acceptedAt
                           else Some(s.now);
              t.messages == s.messages[k := s.messages[k].(payload :=
                              Payload(cid, Some(Queued), first, 0, None, None, None, None))]))
  }

  /** Every answer with exactly when it is given: the session must be the user's; a used client id needs the same
      content and is answered with its status unless it failed; then nothing else of the session may be in progress.
      */
  ghost predicate AcceptedAs(s: State, t: State, r: Accepted, user: nat, session: nat, cid: string, content: string,
                             earlier: Option<nat>)
  {
    var mine := session in s.owner && s.owner[session] == user;
    && EarlierIs(s, session, cid, earlier)
    && (r == NoSession <==> !mine)
    && (r == ContentConflict <==> mine && earlier.Some? && s.messages[earlier.value].content != content)
    && (var same := mine && (earlier.Some? ==> s.messages[earlier.value].content == content);
        var open := same && (earlier.Some? ==> SeenAs(s, earlier.value, Failed));
        && (r.Current? <==> same && !open)
        && (r.Current? ==> earlier == Some(r.id) && SeenAs(s, r.id, r.status))
        && (r == Busy <==> open && InProgress(s, session))
        && (r.Enqueued? <==> open && !InProgress(s, session)))
    && (if r.Enqueued? then QueuedAs(s, t, r.id, user, session, cid, content, earlier) else t == s)
  }

  lemma BusyExactly(s: State, session: nat)
    ensures SessionBusy(s.messages, session) <==> InProgress(s, session)
  {
    if SessionBusy(s.messages, session) {
      var i :| 0 <= i < |s.messages| && s.messages[i].session == session && Active(s.messages[i]);
      assert s.messages[i].payload.status in {Some(Queued), Some(Processing)};
    }
    if InProgress(s, session) {
      var j :| 0 <= j < |s.messages| && s.messages[j].session == session
               && s.messages[j].payload.status in {Some(Queued), Some(Processing)};
      assert Active(s.messages[j]);
    }
  }

  lemma RepliedExactly(s: State, id: nat)
    ensures HasReply(s.replies, id) <==> Replied(s, id)
  {
  }

  lemma AcceptExactly(s: State, user: nat, session: nat, cid: string, content: string)
    requires Inv(s)
    ensures var (t, r) := Accept(s, user, session, cid, content);
            AcceptedAs(s, t, r, user, session, cid, content, FindMessage(s.messages, session, cid))
  {
    FoundIsEarlier(s, session, cid);
    BusyExactly(s, session);
    if FindMessage(s.messages, session, cid).Some? { RepliedExactly(s, FindMessage(s.messages, session, cid).value); }
  }

  // ---------- claim ----------

  /** A delivery may take the request over: it waits and its delay is over, or its lease has run out. */
  predicate TakeoverDue(p: Payload, now: int) {
    || (p.status == Some(Queued) && (p.retryAfter.Some? ==> p.retryAfter.value <= now))
    || (p.status == Some(Processing) && (p.leaseExpires.Some? ==> p.leaseExpires.value <= now))
  }

  /** Every answer with exactly when it is given. A lease is for 180 seconds under the new token, counts one attempt
      and ends every earlier worker's; the third attempt is the last. */
  ghost predicate ClaimedAs(s: State, t: State, r: Claimed, w: nat, id: nat, token: nat) {
    && (r == Missing <==> id >= |s.messages| || s.messages[id].payload.status.None?)
    && (r != Missing ==>
          var p := s.messages[id].payload;
          && (r == Leased <==> TakeoverDue(p, s.now) && p.attempts < 3)
          && (r == GaveUp <==> TakeoverDue(p, s.now) && p.attempts >= 3)
          && (r.Settled? <==> !TakeoverDue(p, s.now)) && (r.Settled? ==> p.status == Some(r.status))
          && (r == Leased ==>
                && t.messages == s.messages[id := s.messages[id].(payload := p.(status := Some(Processing),
                     attempts := p.attempts + 1, leaseToken := Some(token), leaseExpires := Some(s.now + 180_000_000)))]
                && t == s.(messages := t.messages, workers := s.workers[w := Worker(id, token, Thinking)],
                           tokens := s.tokens + {token})
                && forall v :: v in s.workers && s.workers[v].message == id ==>
                     t.messages[id].payload.leaseToken != Some(s.workers[v].token))
          && (r == GaveUp ==>
                && t == s.(messages := t.messages) && |t.messages| == |s.messages|
                && t.messages == s.messages[id := t.messages[id]]
                && (exists e :: t.messages[id] == s.messages[id].(payload :=
                      Payload(p.cid, Some(Failed), p.acceptedAt, p.attempts, None, None, None, Some(e))))))
    && (r == Missing || r.Settled? ==> t == s)
  }

  lemma ClaimExactly(s: State, w: nat, id: nat, token: nat)
    requires Inv(s) && w !in s.workers && token !in s.tokens
    ensures var (t, r) := Claim(s, w, id, token); ClaimedAs(s, t, r, w, id, token)
  {
    if id < |s.messages| && s.messages[id].payload.status.Some? {
      assert PayloadOk(s.messages[id].payload, s.now, s.tokens);
    }
  }

  // ---------- completion, failure, chat ----------

  /** The worker's token is the one the message carries. */
  predicate Holder(s: State, w: nat) {
    && w in s.workers && s.workers[w].message < |s.messages|
    && s.messages[s.workers[w].message].payload.leaseToken == Some(s.workers[w].token)
  }

  /** The k-th draft of a message's answer, under the key that the message and k make. */
  function Keyed(m: Message, drafts: seq<Draft>, k: nat): Item
    requires k < |drafts|
  {
    Item(AiKey(m.session, m.payload.cid, k), drafts[k])
  }

  ghost predicate AllSavable(rs: seq<Record>, m: Message, drafts: seq<Draft>, catalog: Catalog) {
    forall k :: 0 <= k < |drafts| ==> Savable(rs, m.user, Keyed(m, drafts, k), catalog)
  }

  /** The records a reply refers to are live, belong to the message's user, carry its keys in order and, where new, the
      answered drafts; nothing else was added. */
  ghost predicate BatchSavedFor(rs: seq<Record>, after: seq<Record>, m: Message, drafts: seq<Draft>, refs: seq<nat>) {
    && rs <= after && |refs| == |drafts|
    && (forall j :: |rs| <= j < |after| ==> j in refs)
    && (forall k :: 0 <= k < |refs| ==>
          && refs[k] < |after| && !after[refs[k]].deleted && after[refs[k]].user == m.user
          && after[refs[k]].key == Some(AiKey(m.session, m.payload.cid, k))
          && (|rs| <= refs[k] ==> after[refs[k]].draft == drafts[k] && after[refs[k]].source == FromAi))
  }

  /** The drafts an answer asks to book: none while it still has questions. */
  function Booked(parsed: Parsed): seq<Draft> {
    match parsed
    case Ready(drafts) => drafts
    case NeedsClarification => []
  }

  lemma SaveResultExactly(rs: seq<Record>, m: Message, parsed: Parsed, catalog: Catalog)
    requires UniqueKeys(rs)
    ensures var r := SaveResult(rs, m.user, m.session, m.payload.cid, parsed, catalog);
            && (r.Ok? <==> AllSavable(rs, m, Booked(parsed), catalog))
            && (r.Ok? ==> BatchSavedFor(rs, r.value.0, m, Booked(parsed), r.value.1))
  {
    var items := BatchItems(m.user, m.session, m.payload.cid, Drafts(parsed));
    SaveExactly(rs, m.user, items, FromAi, catalog);
    SaveAllHolds(rs, m.user, items, FromAi, catalog);
    assert Drafts(parsed) == Booked(parsed);
    forall k | 0 <= k < |items| ensures items[k] == Keyed(m, Booked(parsed), k) {
    }
  }

  /** The message of a finished request: lease and retry time are gone, everything else but status and error stays. */
  function AfterEnd(m: Message, status: Status, retryAfter: Option<int>, error: Option<string>): Message {
    m.(payload :=
       Payload(m.payload.cid, Some(status), m.payload.acceptedAt, m.payload.attempts, None, None, retryAfter, error))
  }

  /** Done means, and is answered exactly when: the worker has its answer, still holds the lease, and the whole batch
      can be saved. Then one reply with that batch is added and the request is completed. Every other outcome leaves
      all tables. */
  ghost predicate CompletedAs(s: State, t: State, r: Ended, w: nat, catalog: Catalog) {
    var answered := w in s.workers && s.workers[w].phase.Answered?;
    && (r == NotRunning <==> !answered)
    && (r == Fenced <==> answered && !Holder(s, w))
    && (answered && Holder(s, w) ==>
          var (id, parsed) := (s.workers[w].message, s.workers[w].phase.parsed);
          var m := s.messages[id];
          && (r == Done <==> AllSavable(s.records, m, Booked(parsed), catalog))
          && (r != Done ==> r.Rolled? && t == s.(workers := s.workers[w := s.workers[w].(phase := Raised)]))
          && (r == Done ==>
                && |t.replies| == |s.replies| + 1
                && (var refs := t.replies[|s.replies|].refs;
                    && t.replies == s.replies + [Reply(m.session, id, parsed.Ready?, refs)] && !Replied(s, id)
                    && BatchSavedFor(s.records, t.records, m, Booked(parsed), refs))
                && t == s.(messages := s.messages[id := AfterEnd(m, Completed, None, None)], replies := t.replies,
                           records := t.records, workers := s.workers - {w})))
    && (r == NotRunning ==> t == s)
    && (r == Fenced ==> t == s.(workers := s.workers - {w}))
  }

  lemma CompleteExactly(s: State, w: nat, catalog: Catalog)
    requires Inv(s)
    ensures var (t, r) := Complete(s, w, catalog); CompletedAs(s, t, r, w, catalog)
  {
    if Holder(s, w) && s.workers[w].phase.Answered? {
      SaveResultExactly(s.records, s.messages[s.workers[w].message], s.workers[w].phase.parsed, catalog);
    }
  }

  /** A failure touches neither replies nor records; without the lease it touches nothing. With it, the request waits
      ten seconds for each attempt made and is queued again, and has failed after the third. */
  ghost predicate FailedAs(s: State, t: State, r: Ended, w: nat) {
    var raised := w in s.workers && s.workers[w].phase.Raised?;
    && (r == NotRunning <==> !raised)
    && (r == Fenced <==> raised && !Holder(s, w))
    && (raised && Holder(s, w) ==>
          var id := s.workers[w].message;
          var m := s.messages[id];
          && (r == Retry <==> m.payload.attempts < 3) && (r == GivenUp <==> m.payload.attempts >= 3)
          && (exists e ::
                t == s.(workers := s.workers - {w}, messages := s.messages[id :=
                  if r == Retry then AfterEnd(m, Queued, Some(s.now + 10_000_000 * m.payload.attempts), Some(e))
                  else AfterEnd(m, Failed, None, Some(e))]))
          && m.payload.attempts > 0)
    && (r == NotRunning ==> t == s)
    && (r == Fenced ==> t == s.(workers := s.workers - {w}))
  }

  lemma FailExactly(s: State, w: nat)
    requires Inv(s)
    ensures var (t, r) := Fail(s, w); FailedAs(s, t, r, w)
  {
  }

  /** Every answer of the synchronous path with exactly when it is given. Answers means: a new message with its reply
      and the whole batch, in a session that had nothing in progress. Every other outcome changes nothing. */
  ghost predicate ChattedAs(s: State, t: State, r: Chatted, user: nat, session: nat, cid: string, content: string,
                            parsed: Option<Parsed>, catalog: Catalog, earlier: Option<nat>)
  {
    var mine := session in s.owner && s.owner[session] == user;
    var m := Message(user, session, content, Payload(cid, None, None, 0, None, None, None, None));
    && EarlierIs(s, session, cid, earlier)
    && (r == ChatNoSession <==> !mine)
    && (r == ChatConflict <==> mine && earlier.Some? && s.messages[earlier.value].content != content)
    && (var same := mine && earlier.Some? && s.messages[earlier.value].content == content;
        && (r == Unfinished <==> same && !Replied(s, earlier.value))
        && (r.Replayed? <==> same && Replied(s, earlier.value)) && (r.Replayed? ==> earlier == Some(r.id)))
    && (r == ChatBusy <==> mine && earlier.None? && InProgress(s, session))
    && (var asked := mine && earlier.None? && !InProgress(s, session);
        && (r == ModelError <==> asked && parsed.None?)
        && (r.Answers? <==> asked && parsed.Some? && AllSavable(s.records, m, Booked(parsed.value), catalog)))
    && (r.Answers? ==>
          && r.id == |s.messages| && |t.replies| == |s.replies| + 1
          && (var refs := t.replies[|s.replies|].refs;
              && t.replies == s.replies + [Reply(session, r.id, parsed.value.Ready?, refs)]
              && BatchSavedFor(s.records, t.records, m, Booked(parsed.value), refs))
          && t == s.(messages := s.messages + [m], replies := t.replies, records := t.records))
    && (!r.Answers? ==> t == s)
  }

  lemma ChatExactly(s: State, user: nat, session: nat, cid: string, content: string, parsed: Option<Parsed>,
                    catalog: Catalog)
    requires Inv(s)
    ensures var (t, r) := Chat(s, user, session, cid, content, parsed, catalog);
            ChattedAs(s, t, r, user, session, cid, content, parsed, catalog, FindMessage(s.messages, session, cid))
  {
    FoundIsEarlier(s, session, cid);
    BusyExactly(s, session);
    if FindMessage(s.messages, session, cid).Some? {
      RepliedExactly(s, FindMessage(s.messages, session, cid).value);
    } else if parsed.Some? {
      var m := Message(user, session, content, Payload(cid, None, None, 0, None, None, None, None));
      SaveResultExactly(s.records, m, parsed.value, catalog);
    }
  }
}
