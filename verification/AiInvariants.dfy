/** What every reachable state of the request protocol satisfies. */
module AiInvariants {
  import opened Wrappers
  import opened Records
  import opened AiRequests

  // ---------- the invariant, part by part ----------

  /** A lease token is present exactly while processing, attempts never pass the limit, and the stored deadline
      of a message that still has work to do is never more than one lease or retry delay away. */
  ghost predicate PayloadOk(p: Payload, now: int, tokens: set<nat>) {
    && (p.leaseToken.Some? <==> p.status == Some(Processing))
    && (p.leaseToken.Some? ==> p.leaseToken.value in tokens)
    && p.attempts <= MAX_ATTEMPTS
    && (p.status == Some(Processing) ==> 1 <= p.attempts && p.leaseExpires.Some? && p.leaseExpires.value <= now + LEASE)
    && (p.status == Some(Queued) ==>
          p.attempts < MAX_ATTEMPTS && (p.retryAfter.Some? ==> p.retryAfter.value <= now + 2 * RETRY_STEP))
  }

  ghost predicate MessagesOk(s: State) {
    forall i :: 0 <= i < |s.messages| ==>
      Owns(s, s.messages[i].user, s.messages[i].session) && PayloadOk(s.messages[i].payload, s.now, s.tokens)
  }

  /** One message per client id, and at most one message of a session in progress. */
  ghost predicate SerialOk(ms: seq<Message>) {
    forall i, j :: 0 <= i < |ms| && 0 <= j < |ms| && i != j && ms[i].session == ms[j].session ==>
      ms[i].payload.cid != ms[j].payload.cid && !(Active(ms[i]) && Active(ms[j]))
  }

  /** Exactly the completed requests and the synchronous messages have a reply, and they have one. */
  ghost predicate RepliesOk(s: State) {
    && (forall i, j :: 0 <= i < j < |s.replies| ==> s.replies[i].replyTo != s.replies[j].replyTo)
    && (forall i :: 0 <= i < |s.replies| ==> s.replies[i].replyTo < |s.messages|)
    && (forall i :: 0 <= i < |s.messages| ==>
          (HasReply(s.replies, i)
           <==> s.messages[i].payload.status.None? || s.messages[i].payload.status == Some(Completed)))
  }

  /** The references of a reply are the records that hold its message's keys, in order. */
  ghost predicate RefsHold(s: State, r: Reply)
    requires r.replyTo < |s.messages|
  {
    var m := s.messages[r.replyTo];
    forall k :: 0 <= k < |r.refs| ==>
        r.refs[k] < |s.records| && HasKey(s.records[r.refs[k]], m.user, AiKey(m.session, m.payload.cid, k))
  }

  /** An AI record carrying a request key was saved by the commit that wrote the request's reply. */
  ghost predicate SavedByReply(s: State, id: nat)
    requires id < |s.records|
  {
    exists i :: 0 <= i < |s.replies| && id in s.replies[i].refs
  }

  ghost predicate RecordsOk(s: State) {
    && UniqueKeys(s.records)
    && (forall i :: 0 <= i < |s.replies| ==> s.replies[i].replyTo < |s.messages| && RefsHold(s, s.replies[i]))
    && (forall i :: 0 <= i < |s.records| && s.records[i].source == FromAi && s.records[i].key.Some?
                    && s.records[i].key.value.AiKey? ==>
          SavedByReply(s, i))
  }

  /** Tokens are drawn once, so a live token names one worker and one message. */
  ghost predicate WorkersOk(s: State) {
    && (forall w :: w in s.workers ==> s.workers[w].token in s.tokens && s.workers[w].message < |s.messages|)
    && (forall v, w :: v in s.workers && w in s.workers && v != w ==> s.workers[v].token != s.workers[w].token)
    && (forall w, i :: w in s.workers && 0 <= i < |s.messages|
                       && s.messages[i].payload.leaseToken == Some(s.workers[w].token) ==>
          i == s.workers[w].message)
  }

  ghost predicate Inv(s: State) {
    MessagesOk(s) && SerialOk(s.messages) && RepliesOk(s) && RecordsOk(s) && WorkersOk(s)
  }

  // ---------- preservation, action by action ----------

  lemma InitInv(s: State)
    requires Init(s)
    ensures Inv(s)
  {
  }

  lemma HasReplyAppend(rs: seq<Reply>, r: Reply)
    ensures forall id :: HasReply(rs + [r], id) <==> HasReply(rs, id) || r.replyTo == id
  {
    forall id ensures HasReply(rs + [r], id) <==> HasReply(rs, id) || r.replyTo == id {
      if HasReply(rs, id) {
        var i :| 0 <= i < |rs| && rs[i].replyTo == id;
        assert (rs + [r])[i].replyTo == id;
      }
      assert (rs + [r])[|rs|] == r;
    }
  }

  /** One new reply, to a message that had none and whose status now asks for one. */
  lemma ReplyAdded(s: State, s': State, r: Reply)
    requires RepliesOk(s) && s'.replies == s.replies + [r]
    requires r.replyTo < |s'.messages| && |s.messages| <= |s'.messages| <= |s.messages| + 1
    requires !HasReply(s.replies, r.replyTo)
    requires var status := s'.messages[r.replyTo].payload.status; status.None? || status == Some(Completed)
    requires |s.messages| < |s'.messages| ==> r.replyTo == |s.messages|
    requires forall i :: 0 <= i < |s.messages| && i != r.replyTo ==> s'.messages[i] == s.messages[i]
    ensures RepliesOk(s')
  {
    HasReplyAppend(s.replies, r);
  }

  /** A step that drops workers or moves their phase, and hands out no token. */
  lemma NoNewLease(s: State, s': State)
    requires WorkersOk(s) && s.tokens <= s'.tokens && |s.messages| <= |s'.messages|
    requires forall w :: w in s'.workers ==>
      w in s.workers && s'.workers[w].token == s.workers[w].token && s'.workers[w].message == s.workers[w].message
    requires forall i :: 0 <= i < |s'.messages| && s'.messages[i].payload.leaseToken.Some? ==>
      i < |s.messages| && s'.messages[i].payload.leaseToken == s.messages[i].payload.leaseToken
    ensures WorkersOk(s')
  {
  }

  ghost predicate TablesOk(s: State) {
    MessagesOk(s) && SerialOk(s.messages) && RepliesOk(s) && WorkersOk(s)
  }

  predicate AloneActive(ms: seq<Message>, id: nat, session: nat) {
    forall j :: 0 <= j < |ms| && j != id && ms[j].session == session ==> !Active(ms[j])
  }

  /** One payload rewritten, between statuses that ask for no reply. */
  lemma PayloadSet(s: State, s': State, id: nat, p: Payload)
    requires Inv(s) && id < |s.messages| && s'.messages == SetPayload(s.messages, id, p)
    requires s'.owner == s.owner && s'.replies == s.replies && s'.now == s.now && s.tokens <= s'.tokens
    requires p.cid == s.messages[id].payload.cid && PayloadOk(p, s'.now, s'.tokens)
    requires Active(s.messages[id]) || AloneActive(s.messages, id, s.messages[id].session)
    requires s.messages[id].payload.status.Some? && s.messages[id].payload.status.value != Completed
    requires p.status.Some? && p.status.value != Completed
    ensures MessagesOk(s') && SerialOk(s'.messages) && RepliesOk(s')
  {
    forall i, j | 0 <= i < |s'.messages| && 0 <= j < |s'.messages| && i != j
      && s'.messages[i].session == s'.messages[j].session
      ensures s'.messages[i].payload.cid != s'.messages[j].payload.cid
              && !(Active(s'.messages[i]) && Active(s'.messages[j]))
    {
      assert s.messages[i].session == s.messages[j].session;
    }
  }

  /** A message is appended under a client id that its session did not have. */
  lemma MessageAppended(s: State, s': State, m: Message)
    requires Inv(s) && s'.messages == s.messages + [m]
    requires s'.owner == s.owner && s'.now == s.now && s'.tokens == s.tokens
    requires Owns(s, m.user, m.session) && PayloadOk(m.payload, s.now, s.tokens)
    requires FindMessage(s.messages, m.session, m.payload.cid).None?
    requires Active(m) ==> !SessionBusy(s.messages, m.session)
    ensures MessagesOk(s') && SerialOk(s'.messages)
  {
    forall i | 0 <= i < |s.messages|
      ensures s'.messages[i] == s.messages[i] && !IsRequest(s.messages[i], m.session, m.payload.cid)
    {
    }
  }

  lemma UnansweredAppended(s: State, s': State, m: Message)
    requires RepliesOk(s) && s'.messages == s.messages + [m] && s'.replies == s.replies
    requires m.payload.status.Some? && m.payload.status.value != Completed
    ensures RepliesOk(s')
  {
  }

  lemma AcceptTables(s: State, user: nat, session: nat, cid: string, content: string)
    requires Inv(s)
    ensures TablesOk(Accept(s, user, session, cid, content).0)
  {
    var (s', accepted) := Accept(s, user, session, cid, content);
    if accepted.Enqueued? {
      NoNewLease(s, s');
      var id := accepted.id;
      if id < |s.messages| {
        PayloadSet(s, s', id, s'.messages[id].payload);
      } else {
        MessageAppended(s, s', s'.messages[id]);
        UnansweredAppended(s, s', s'.messages[id]);
      }
    }
  }

  lemma ClaimTables(s: State, w: nat, id: nat, token: nat)
    requires Inv(s) && w !in s.workers && token !in s.tokens
    ensures TablesOk(Claim(s, w, id, token).0)
  {
    var s' := Claim(s, w, id, token).0;
    if s' != s {
      PayloadSet(s, s', id, s'.messages[id].payload);
      forall v, i | v in s'.workers && 0 <= i < |s'.messages|
        && s'.messages[i].payload.leaseToken == Some(s'.workers[v].token)
        ensures i == s'.workers[v].message
      {
        if i != id { assert s'.messages[i] == s.messages[i]; }
      }
    }
  }

  lemma CompleteTables(s: State, w: nat, catalog: Catalog)
    requires Inv(s)
    ensures TablesOk(Complete(s, w, catalog).0)
  {
    var s' := Complete(s, w, catalog).0;
    NoNewLease(s, s');
    if |s'.replies| > |s.replies| {
      ReplyAdded(s, s', s'.replies[|s.replies|]);
    }
  }

  lemma FailTables(s: State, w: nat)
    requires Inv(s)
    ensures TablesOk(Fail(s, w).0)
  {
    var (s', ended) := Fail(s, w);
    NoNewLease(s, s');
    if ended == Retry || ended == GivenUp {
      var id := s.workers[w].message;
      PayloadSet(s, s', id, s'.messages[id].payload);
    }
  }

  lemma ChatTables(s: State, user: nat, session: nat, cid: string, content: string, parsed: Option<Parsed>,
                   catalog: Catalog)
    requires Inv(s)
    ensures TablesOk(Chat(s, user, session, cid, content, parsed, catalog).0)
  {
    var (s', chatted) := Chat(s, user, session, cid, content, parsed, catalog);
    if chatted.Answers? {
      var n := |s.messages|;
      MessageAppended(s, s', s'.messages[n]);
      NoNewLease(s, s');
      ReplyAdded(s, s', s'.replies[|s.replies|]);
    }
  }

  /** Messages and replies stay, time does not run back, and no worker is added. */
  lemma QuietTables(s: State, s': State)
    requires Inv(s) && s'.owner == s.owner && s'.messages == s.messages && s'.replies == s.replies
             && s'.tokens == s.tokens
    requires s.now <= s'.now
    requires forall w :: w in s'.workers ==>
      w in s.workers && s'.workers[w].token == s.workers[w].token && s'.workers[w].message == s.workers[w].message
    ensures TablesOk(s')
  {
    NoNewLease(s, s');
    forall i | 0 <= i < |s'.messages| ensures PayloadOk(s'.messages[i].payload, s'.now, s'.tokens) {
      assert PayloadOk(s.messages[i].payload, s.now, s.tokens);
    }
  }

  lemma StepTables(s: State, a: Action)
    requires Inv(s) && Enabled(s, a)
    ensures TablesOk(Step(s, a))
  {
    match a
    case DoAccept(user, session, cid, content) => AcceptTables(s, user, session, cid, content);
    case DoClaim(w, id, token) => ClaimTables(s, w, id, token);
    case DoComplete(w, catalog) => CompleteTables(s, w, catalog);
    case DoFail(w) => FailTables(s, w);
    case DoChat(user, session, cid, content, result, catalog) =>
      ChatTables(s, user, session, cid, content, result, catalog);
    case _ => QuietTables(s, Step(s, a));
  }

  // ---------- records ----------

  /** Growing the record table, or deleting rows in it, leaves every reply's references in place. */
  lemma RefsSurvive(s: State, s': State, r: Reply)
    requires r.replyTo < |s.messages| <= |s'.messages| && RefsHold(s, r)
    requires var m, m' := s.messages[r.replyTo], s'.messages[r.replyTo];
             m.user == m'.user && m.session == m'.session && m.payload.cid == m'.payload.cid
    requires |s.records| <= |s'.records|
    requires forall i :: 0 <= i < |s.records| ==>
                 s'.records[i].user == s.records[i].user && s'.records[i].key == s.records[i].key
    ensures RefsHold(s', r)
  {
  }

  /** The batch a reply saves: its references hold the keys, and every record the commit added is among them. */
  lemma BatchSaved(rs: seq<Record>, user: nat, session: nat, cid: string, parsed: Parsed, catalog: Catalog)
    requires UniqueKeys(rs) && SaveResult(rs, user, session, cid, parsed, catalog).Ok?
    ensures var (rs', ids) := SaveResult(rs, user, session, cid, parsed, catalog).value;
            && rs <= rs' && UniqueKeys(rs') && |ids| == |Drafts(parsed)|
            && (forall j :: |rs| <= j < |rs'| ==> j in ids)
            && (forall k :: 0 <= k < |ids| ==>
                  && ids[k] < |rs'| && HasKey(rs'[ids[k]], user, AiKey(session, cid, k)) && !rs'[ids[k]].deleted
                  && (|rs| <= ids[k] ==> rs'[ids[k]].draft == Drafts(parsed)[k] && rs'[ids[k]].source == FromAi))
  {
    SaveAllHolds(rs, user, BatchItems(user, session, cid, Drafts(parsed)), FromAi, catalog);
  }

  lemma SameRecords(s: State, s': State)
    requires RecordsOk(s) && s'.records == s.records && s'.replies == s.replies && |s.messages| <= |s'.messages|
    requires forall i :: 0 <= i < |s.messages| ==>
      var m, m' := s.messages[i], s'.messages[i];
      m.user == m'.user && m.session == m'.session && m.payload.cid == m'.payload.cid
    ensures RecordsOk(s')
  {
    forall i | 0 <= i < |s'.replies| ensures s'.replies[i].replyTo < |s'.messages| && RefsHold(s', s'.replies[i]) {
      RefsSurvive(s, s', s.replies[i]);
    }
    forall i | 0 <= i < |s'.records| && SavedByReply(s, i) ensures SavedByReply(s', i) {
      var k :| 0 <= k < |s.replies| && i in s.replies[k].refs;
      assert i in s'.replies[k].refs;
    }
  }

  /** A commit appends one reply together with the batch it refers to. */
  lemma ReplyWithBatch(s: State, s': State, m: Message, parsed: Parsed, catalog: Catalog, r: Reply)
    requires RecordsOk(s) && |s.messages| <= |s'.messages|
    requires SaveResult(s.records, m.user, m.session, m.payload.cid, parsed, catalog) == Ok((s'.records, r.refs))
    requires s'.replies == s.replies + [r] && r.replyTo < |s'.messages|
    requires var m' := s'.messages[r.replyTo];
             m'.user == m.user && m'.session == m.session && m'.payload.cid == m.payload.cid
    requires forall i :: 0 <= i < |s.messages| ==>
      var n, n' := s.messages[i], s'.messages[i];
      n.user == n'.user && n.session == n'.session && n.payload.cid == n'.payload.cid
    ensures RecordsOk(s')
  {
    BatchSaved(s.records, m.user, m.session, m.payload.cid, parsed, catalog);
    forall i | 0 <= i < |s'.replies| ensures s'.replies[i].replyTo < |s'.messages| && RefsHold(s', s'.replies[i]) {
      if i < |s.replies| { RefsSurvive(s, s', s.replies[i]); }
    }
    forall i | 0 <= i < |s'.records| && (i >= |s.records| || SavedByReply(s, i)) ensures SavedByReply(s', i) {
      if i >= |s.records| {
        assert i in s'.replies[|s.replies|].refs;
      } else {
        var k :| 0 <= k < |s.replies| && i in s.replies[k].refs;
        assert i in s'.replies[k].refs;
      }
    }
  }

  lemma OtherRecords(s: State, s': State)
    requires RecordsOk(s) && UniqueKeys(s'.records) && |s.records| <= |s'.records|
    requires s'.messages == s.messages && s'.replies == s.replies
    requires forall i :: 0 <= i < |s.records| ==>
      s'.records[i].user == s.records[i].user && s'.records[i].key == s.records[i].key
      && s'.records[i].source == s.records[i].source
    requires forall i :: |s.records| <= i < |s'.records| && s'.records[i].source == FromAi ==>
      s'.records[i].key.Some? && s'.records[i].key.value.ConfirmKey?
    ensures RecordsOk(s')
  {
    forall i | 0 <= i < |s'.replies| ensures s'.replies[i].replyTo < |s'.messages| && RefsHold(s', s'.replies[i]) {
      RefsSurvive(s, s', s.replies[i]);
    }
    forall i | 0 <= i < |s.records| && SavedByReply(s, i) ensures SavedByReply(s', i) {
      var k :| 0 <= k < |s.replies| && i in s.replies[k].refs;
      assert i in s'.replies[k].refs;
    }
  }

  lemma CompleteRecords(s: State, w: nat, catalog: Catalog)
    requires Inv(s)
    ensures RecordsOk(Complete(s, w, catalog).0)
  {
    var (s', ended) := Complete(s, w, catalog);
    if ended == Done {
      var id := s.workers[w].message;
      ReplyWithBatch(s, s', s.messages[id], s.workers[w].phase.parsed, catalog, s'.replies[|s.replies|]);
    } else {
      SameRecords(s, s');
    }
  }

  lemma ChatRecords(s: State, user: nat, session: nat, cid: string, content: string, parsed: Option<Parsed>,
                    catalog: Catalog)
    requires Inv(s)
    ensures RecordsOk(Chat(s, user, session, cid, content, parsed, catalog).0)
  {
    var (s', chatted) := Chat(s, user, session, cid, content, parsed, catalog);
    if chatted.Answers? {
      ReplyWithBatch(s, s', s'.messages[|s.messages|], parsed.value, catalog, s'.replies[|s.replies|]);
    }
  }

  lemma AcceptRecords(s: State, user: nat, session: nat, cid: string, content: string)
    requires Inv(s)
    ensures RecordsOk(Accept(s, user, session, cid, content).0)
  {
    SameRecords(s, Accept(s, user, session, cid, content).0);
  }

  lemma StepRecords(s: State, a: Action)
    requires Inv(s) && Enabled(s, a)
    ensures RecordsOk(Step(s, a))
  {
    match a
    case DoAccept(user, session, cid, content) => AcceptRecords(s, user, session, cid, content);
    case DoComplete(w, catalog) => CompleteRecords(s, w, catalog);
    case DoChat(user, session, cid, content, result, catalog) =>
      ChatRecords(s, user, session, cid, content, result, catalog);
    case WriteRecord(user, key, d, source, catalog) =>
      CreateKeepsUniqueKeys(s.records, user, key, d, source, catalog);
      OtherRecords(s, Step(s, a));
    case DeleteRecord(_) => OtherRecords(s, Step(s, a));
    case _ => SameRecords(s, Step(s, a));
  }

  lemma StepInv(s: State, a: Action)
    requires Inv(s) && Enabled(s, a)
    ensures Inv(Step(s, a))
  {
    StepTables(s, a);
    StepRecords(s, a);
  }

  /** Every state of every run satisfies the invariant. */
  lemma {:induction false} RunInv(s: State, actions: seq<Action>)
    requires Inv(s)
    ensures Inv(Run(s, actions))
  {
    if actions != [] {
      var n := |actions| - 1;
      RunInv(s, actions[..n]);
      var mid := Run(s, actions[..n]);
      if Enabled(mid, actions[n]) {
        StepInv(mid, actions[n]);
      }
    }
  }
}
