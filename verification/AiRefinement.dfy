/** Exactly once: the leased, retried, crashing protocol refines a specification in which a request moves in one
    step to failed, or to done together with its whole batch of records. */
module AiRefinement {
  import opened Wrappers
  import opened Records
  import opened AiRequests
  import opened AiInvariants

  // ---------- the specification ----------

  datatype Outcome = Waiting | GivenBack | Served(refs: seq<nat>)

  datatype RequestKey = RequestKey(session: nat, cid: string)

  /** Who owns each session, what became of each request, and the ledger. */
  datatype Spec = Spec(owner: map<nat, nat>, outcomes: map<RequestKey, Outcome>, records: seq<Record>)

  /** What a step is, seen from the specification. A serving step names what the model answered. */
  datatype Label =
    | Silent
    | Outside
    | Accepting(k: RequestKey)
    | GivingBack(k: RequestKey)
    | Serving(k: RequestKey, answer: Parsed, refs: seq<nat>)

  ghost predicate SessionFree(a: Spec, session: nat) {
    forall k :: k in a.outcomes && k.session == session ==> a.outcomes[k] != Waiting
  }

  /** `refs` are live records holding the request's keys in order; the step added nothing else, each row it added
      carries its draft, and a row it found instead was not written by this protocol. */
  ghost predicate WholeBatch(before: seq<Record>, after: seq<Record>, user: nat, k: RequestKey, answer: Parsed,
                             refs: seq<nat>)
  {
    && before <= after
    && |refs| == (if answer.Ready? then |answer.drafts| else 0)
    && (forall j :: |before| <= j < |after| ==> j in refs)
    && (forall i :: 0 <= i < |refs| ==>
          && refs[i] < |after|
          && HasKey(after[refs[i]], user, AiKey(k.session, k.cid, i))
          && !after[refs[i]].deleted
          && (if |before| <= refs[i] then after[refs[i]].draft == answer.drafts[i] && after[refs[i]].source == FromAi
              else after[refs[i]].source != FromAi))
  }

  ghost predicate SpecAccept(a: Spec, b: Spec, k: RequestKey) {
    && k.session in a.owner
    && (k in a.outcomes ==> a.outcomes[k] == GivenBack)
    && SessionFree(a, k.session)
    && b == a.(outcomes := a.outcomes[k := Waiting])
  }

  ghost predicate SpecFail(a: Spec, b: Spec, k: RequestKey) {
    && k in a.outcomes && a.outcomes[k] == Waiting
    && b == a.(outcomes := a.outcomes[k := GivenBack])
  }

  /** The whole batch appears under the session's owner, in the step that marks the request served. */
  ghost predicate SpecServe(a: Spec, b: Spec, k: RequestKey, answer: Parsed, refs: seq<nat>) {
    && k.session in a.owner
    && (if k in a.outcomes then a.outcomes[k] == Waiting else SessionFree(a, k.session))
    && b.owner == a.owner && b.outcomes == a.outcomes[k := Served(refs)]
    && WholeBatch(a.records, b.records, a.owner[k.session], k, answer, refs)
  }

  /** A writer outside the protocol adds at most one record or deletes one; an AI record it adds has a key of its own
      kind. */
  ghost predicate SpecOutside(a: Spec, b: Spec) {
    && b.owner == a.owner && b.outcomes == a.outcomes
    && |a.records| <= |b.records| <= |a.records| + 1
    && (forall i :: 0 <= i < |a.records| ==>
            b.records[i] == a.records[i] || b.records[i] == a.records[i].(deleted := true))
    && (forall i :: |a.records| <= i < |b.records| && b.records[i].source == FromAi ==>
          b.records[i].key.Some? && b.records[i].key.value.ConfirmKey?)
  }

  ghost predicate SpecStep(a: Spec, b: Spec, tag: Label) {
    match tag
    case Silent => a == b
    case Outside => SpecOutside(a, b)
    case Accepting(k) => SpecAccept(a, b, k)
    case GivingBack(k) => SpecFail(a, b, k)
    case Serving(k, answer, refs) => SpecServe(a, b, k, answer, refs)
  }

  // ---------- what the specification gives away for free ----------

  /** A served request stays served with the same records. */
  lemma SpecServedStays(a: Spec, b: Spec, tag: Label, k: RequestKey)
    requires SpecStep(a, b, tag) && k in a.outcomes && a.outcomes[k].Served?
    ensures k in b.outcomes && b.outcomes[k] == a.outcomes[k]
  {
  }

  /** Only a serving step serves, and it serves the one request it names. */
  lemma SpecOnlyServingServes(a: Spec, b: Spec, tag: Label, k: RequestKey)
    requires SpecStep(a, b, tag)
    requires k in b.outcomes && b.outcomes[k].Served? && !(k in a.outcomes && a.outcomes[k].Served?)
    ensures tag.Serving? && tag.k == k && b.outcomes[k] == Served(tag.refs)
  {
  }

  /** An AI record carrying a request's key is one of the records of that served request. */
  ghost predicate PartOfServed(a: Spec, r: nat)
    requires r < |a.records|
  {
    exists k :: k in a.outcomes && a.outcomes[k].Served? && r in a.outcomes[k].refs
  }

  ghost predicate NoPartialBatch(a: Spec) {
    forall r :: 0 <= r < |a.records| && a.records[r].source == FromAi && a.records[r].key.Some?
                && a.records[r].key.value.AiKey? ==>
      PartOfServed(a, r)
  }

  /** No step of the specification leaves part of a batch behind: an AI record of a request exists only once the request
      is served, and then it belongs to the served batch. */
  lemma SpecNoPartialBatch(a: Spec, b: Spec, tag: Label)
    requires NoPartialBatch(a) && SpecStep(a, b, tag)
    ensures NoPartialBatch(b)
  {
    forall r | 0 <= r < |b.records| && b.records[r].source == FromAi && b.records[r].key.Some?
      && b.records[r].key.value.AiKey?
      ensures PartOfServed(b, r)
    {
      if r < |a.records| {
        assert b.records[r].(deleted := false) == a.records[r].(deleted := false);
        assert PartOfServed(a, r);
        var k :| k in a.outcomes && a.outcomes[k].Served? && r in a.outcomes[k].refs;
        SpecServedStays(a, b, tag, k);
      } else {
        assert tag.Serving?;
        assert b.outcomes[tag.k] == Served(tag.refs);
      }
    }
  }

  // ---------- the abstraction ----------

  function KeyOf(m: Message): RequestKey {
    RequestKey(m.session, m.payload.cid)
  }

  function RefsOf(rs: seq<Reply>, id: nat): (refs: seq<nat>)
    requires HasReply(rs, id)
    ensures exists i :: 0 <= i < |rs| && rs[i].replyTo == id && rs[i].refs == refs
  {
    var n := |rs| - 1;
    if rs[n].replyTo == id then rs[n].refs
    else
      assert HasReply(rs[..n], id) by {
        var i :| 0 <= i < |rs| && rs[i].replyTo == id;
        assert rs[..n][i].replyTo == id;
      }
      RefsOf(rs[..n], id)
  }

  function OutcomeOf(s: State, id: nat): Outcome
    requires id < |s.messages|
  {
    if HasReply(s.replies, id) then Served(RefsOf(s.replies, id))
    else if Active(s.messages[id]) then Waiting
    else GivenBack
  }

  function Keys(ms: seq<Message>): set<RequestKey> {
    set i | 0 <= i < |ms| :: KeyOf(ms[i])
  }

  function Abs(s: State): Spec {
    Spec(s.owner,
         map k | k in Keys(s.messages) ::
           (var found := FindMessage(s.messages, k.session, k.cid);
            if found.Some? then OutcomeOf(s, found.value) else GivenBack),
         s.records)
  }

  lemma AbsAt(s: State, id: nat)
    requires SerialOk(s.messages) && id < |s.messages|
    ensures KeyOf(s.messages[id]) in Abs(s).outcomes && Abs(s).outcomes[KeyOf(s.messages[id])] == OutcomeOf(s, id)
  {
    var k := KeyOf(s.messages[id]);
    assert k in Keys(s.messages);
    var found := FindMessage(s.messages, k.session, k.cid);
    assert found == Some(id);
  }

  lemma KeyHolder(s: State, k: RequestKey) returns (id: nat)
    requires k in Abs(s).outcomes
    ensures id < |s.messages| && KeyOf(s.messages[id]) == k
  {
    id :| 0 <= id < |s.messages| && KeyOf(s.messages[id]) == k;
  }

  lemma SameAbs(s: State, s': State)
    requires s'.messages == s.messages && s'.replies == s.replies
    ensures Abs(s').outcomes == Abs(s).outcomes
  {
  }

  ghost predicate OnlyTouches(s: State, s': State, id: nat) {
    && SerialOk(s.messages) && SerialOk(s'.messages)
    && id < |s'.messages| && |s.messages| <= |s'.messages|
    && (|s.messages| < |s'.messages| ==> id == |s.messages| && |s'.messages| == |s.messages| + 1)
    && (forall i :: 0 <= i < |s.messages| ==> KeyOf(s'.messages[i]) == KeyOf(s.messages[i]))
    && (forall i :: 0 <= i < |s.messages| && i != id ==> OutcomeOf(s', i) == OutcomeOf(s, i))
  }

  lemma MapsEqual(a: map<RequestKey, Outcome>, b: map<RequestKey, Outcome>)
    requires forall k :: (k in a <==> k in b) && (k in a ==> a[k] == b[k])
    ensures a == b
  {
    assert a.Keys == b.Keys;
  }

  lemma TouchedAt(s: State, s': State, id: nat, k: RequestKey)
    requires OnlyTouches(s, s', id)
    ensures var a', b := Abs(s).outcomes[KeyOf(s'.messages[id]) := OutcomeOf(s', id)], Abs(s').outcomes;
            (k in a' <==> k in b) && (k in a' ==> a'[k] == b[k])
  {
    if k == KeyOf(s'.messages[id]) {
      AbsAt(s', id);
    } else if k in Abs(s).outcomes {
      var i := KeyHolder(s, k);
      AbsAt(s, i);
      AbsAt(s', i);
    } else if k in Abs(s').outcomes {
      var i := KeyHolder(s', k);
      AbsAt(s, i);
    }
  }

  /** When a step touches one message only, the abstraction changes at that message's key only. */
  lemma AbsUpdate(s: State, s': State, id: nat)
    requires OnlyTouches(s, s', id)
    ensures Abs(s').outcomes == Abs(s).outcomes[KeyOf(s'.messages[id]) := OutcomeOf(s', id)]
  {
    forall k { TouchedAt(s, s', id, k); }
    MapsEqual(Abs(s).outcomes[KeyOf(s'.messages[id]) := OutcomeOf(s', id)], Abs(s').outcomes);
  }

  lemma OutcomeFrame(s: State, s': State, i: nat)
    requires i < |s.messages| && i < |s'.messages|
    requires s'.messages[i] == s.messages[i]
    requires s.replies <= s'.replies && |s'.replies| <= |s.replies| + 1
    requires |s.replies| < |s'.replies| ==> s'.replies[|s.replies|].replyTo != i
    ensures OutcomeOf(s', i) == OutcomeOf(s, i)
  {
    var n := |s.replies|;
    if |s'.replies| > n {
      assert s'.replies == s.replies + [s'.replies[n]];
      HasReplyAppend(s.replies, s'.replies[n]);
      assert s'.replies[..n] == s.replies;
    } else {
      assert s'.replies == s.replies;
    }
  }

  lemma FreeSession(s: State, session: nat)
    requires Inv(s) && !SessionBusy(s.messages, session)
    ensures SessionFree(Abs(s), session)
  {
    forall k | k in Abs(s).outcomes && k.session == session ensures Abs(s).outcomes[k] != Waiting {
      var i := KeyHolder(s, k);
      AbsAt(s, i);
    }
  }

  // ---------- the batch is whole, and only this commit can have written it ----------

  /** An AI record with a request's key was saved by the commit that wrote the request's reply. */
  lemma Saver(s: State, r: nat, session: nat, cid: string, index: nat) returns (id: nat)
    requires Inv(s) && r < |s.records| && s.records[r].source == FromAi
    requires s.records[r].key == Some(AiKey(session, cid, index))
    ensures id < |s.messages| && IsRequest(s.messages[id], session, cid) && HasReply(s.replies, id)
  {
    assert SavedByReply(s, r);
    var i :| 0 <= i < |s.replies| && r in s.replies[i].refs;
    var j :| 0 <= j < |s.replies[i].refs| && s.replies[i].refs[j] == r;
    assert RefsHold(s, s.replies[i]);
    id := s.replies[i].replyTo;
  }

  /** Before a request has its reply, no AI record carries any of its keys: the idempotency lookup of the commit
      can only meet records written by someone else under the same key. */
  lemma NoAiRecordBeforeReply(s: State, k: RequestKey, r: nat, index: nat)
    requires Inv(s) && r < |s.records| && s.records[r].source == FromAi
    requires k in Abs(s).outcomes ==> !Abs(s).outcomes[k].Served?
    ensures s.records[r].key != Some(AiKey(k.session, k.cid, index))
  {
    if s.records[r].key == Some(AiKey(k.session, k.cid, index)) {
      var id := Saver(s, r, k.session, k.cid, index);
      AbsAt(s, id);
    }
  }

  lemma NoAiRecords(s: State, k: RequestKey)
    requires Inv(s) && (k in Abs(s).outcomes ==> !Abs(s).outcomes[k].Served?)
    ensures forall r, i :: 0 <= r < |s.records| && 0 <= i && s.records[r].source == FromAi ==>
              s.records[r].key != Some(AiKey(k.session, k.cid, i))
  {
    forall r, i | 0 <= r < |s.records| && 0 <= i && s.records[r].source == FromAi
      ensures s.records[r].key != Some(AiKey(k.session, k.cid, i))
    {
      NoAiRecordBeforeReply(s, k, r, i);
    }
  }

  lemma BatchIsWhole(rs: seq<Record>, user: nat, k: RequestKey, parsed: Parsed, catalog: Catalog)
    requires UniqueKeys(rs) && SaveResult(rs, user, k.session, k.cid, parsed, catalog).Ok?
    requires forall r, i :: 0 <= r < |rs| && 0 <= i && rs[r].source == FromAi ==>
                 rs[r].key != Some(AiKey(k.session, k.cid, i))
    ensures var (rs', ids) := SaveResult(rs, user, k.session, k.cid, parsed, catalog).value;
            WholeBatch(rs, rs', user, k, parsed, ids)
  {
    BatchSaved(rs, user, k.session, k.cid, parsed, catalog);
  }

  // ---------- what each transaction is in the specification ----------

  function AcceptLabel(s: State, user: nat, session: nat, cid: string, content: string): Label {
    if Accept(s, user, session, cid, content).1.Enqueued? then Accepting(RequestKey(session, cid)) else Silent
  }

  function ClaimLabel(s: State, w: nat, id: nat, token: nat): Label {
    if Claim(s, w, id, token).1 == GaveUp then GivingBack(KeyOf(s.messages[id])) else Silent
  }

  function FailLabel(s: State, w: nat): Label {
    if Fail(s, w).1 == GivenUp then GivingBack(KeyOf(s.messages[s.workers[w].message])) else Silent
  }

  /** A commit serves its request with the answer its own worker was given, and with the ids the save returned. */
  function CompleteLabel(s: State, w: nat, catalog: Catalog): Label {
    if Complete(s, w, catalog).1 != Done then Silent
    else
      var m := s.messages[s.workers[w].message];
      var parsed := s.workers[w].phase.parsed;
      Serving(KeyOf(m), parsed, SaveResult(s.records, m.user, m.session, m.payload.cid, parsed, catalog).value.1)
  }

  function ChatLabel(s: State, user: nat, session: nat, cid: string, content: string, parsed: Option<Parsed>,
                     catalog: Catalog)
    : Label
  {
    if !Chat(s, user, session, cid, content, parsed, catalog).1.Answers? then Silent
    else
      Serving(RequestKey(session, cid), parsed.value,
              SaveResult(s.records, user, session, cid, parsed.value, catalog).value.1)
  }

  function LabelOf(s: State, a: Action): Label {
    match a
    case DoAccept(user, session, cid, content) => AcceptLabel(s, user, session, cid, content)
    case DoClaim(w, id, token) => ClaimLabel(s, w, id, token)
    case DoComplete(w, catalog) => CompleteLabel(s, w, catalog)
    case DoFail(w) => FailLabel(s, w)
    case DoChat(user, session, cid, content, result, catalog) =>
      ChatLabel(s, user, session, cid, content, result, catalog)
    case WriteRecord(_, _, _, _, _) => Outside
    case DeleteRecord(_) => Outside
    case _ => Silent
  }

  // ---------- simulation ----------

  /** One payload rewritten, for a message without reply. */
  lemma PayloadSetAbs(s: State, s': State, id: nat, p: Payload)
    requires Inv(s) && SerialOk(s'.messages)
    requires id < |s.messages| && s'.messages == SetPayload(s.messages, id, p) && s'.replies == s.replies
    requires p.cid == s.messages[id].payload.cid && !HasReply(s.replies, id)
    ensures var k := KeyOf(s.messages[id]);
            && k in Abs(s).outcomes
            && Abs(s).outcomes[k] == (if Active(s.messages[id]) then Waiting else GivenBack)
            && Abs(s').outcomes == Abs(s).outcomes[k := if Active(s'.messages[id]) then Waiting else GivenBack]
  {
    forall i | 0 <= i < |s.messages| && i != id ensures OutcomeOf(s', i) == OutcomeOf(s, i) {
      OutcomeFrame(s, s', i);
    }
    AbsUpdate(s, s', id);
    AbsAt(s, id);
  }

  lemma AcceptRefines(s: State, user: nat, session: nat, cid: string, content: string)
    requires Inv(s)
    ensures SpecStep(Abs(s), Abs(Accept(s, user, session, cid, content).0), AcceptLabel(s, user, session, cid, content))
  {
    var (s', accepted) := Accept(s, user, session, cid, content);
    if accepted.Enqueued? {
      AcceptTables(s, user, session, cid, content);
      var id := accepted.id;
      forall i | 0 <= i < |s.messages| && i != id ensures OutcomeOf(s', i) == OutcomeOf(s, i) {
        OutcomeFrame(s, s', i);
      }
      AbsUpdate(s, s', id);
      FreeSession(s, session);
      if id < |s.messages| { AbsAt(s, id); }
      var k := RequestKey(session, cid);
      if k in Abs(s).outcomes { var i := KeyHolder(s, k); }
      assert SpecAccept(Abs(s), Abs(s'), k);
    }
  }

  lemma SameOutcome(a: map<RequestKey, Outcome>, b: map<RequestKey, Outcome>, k: RequestKey)
    requires k in a && b == a[k := a[k]]
    ensures b == a
  {
  }

  /** A claim is invisible, except that the fourth one gives the request up. */
  lemma ClaimRefines(s: State, w: nat, id: nat, token: nat)
    requires Inv(s) && w !in s.workers && token !in s.tokens
    ensures SpecStep(Abs(s), Abs(Claim(s, w, id, token).0), ClaimLabel(s, w, id, token))
  {
    var (s', claimed) := Claim(s, w, id, token);
    if s' != s {
      ClaimTables(s, w, id, token);
      var k := KeyOf(s.messages[id]);
      PayloadSetAbs(s, s', id, s'.messages[id].payload);
      if claimed == GaveUp {
        assert SpecFail(Abs(s), Abs(s'), k);
      } else {
        SameOutcome(Abs(s).outcomes, Abs(s').outcomes, k);
      }
    }
  }

  lemma FailRefines(s: State, w: nat)
    requires Inv(s)
    ensures SpecStep(Abs(s), Abs(Fail(s, w).0), FailLabel(s, w))
  {
    var (s', ended) := Fail(s, w);
    if ended == Retry || ended == GivenUp {
      FailTables(s, w);
      var id := s.workers[w].message;
      PayloadSetAbs(s, s', id, s'.messages[id].payload);
      if ended == GivenUp {
        assert SpecFail(Abs(s), Abs(s'), KeyOf(s.messages[id]));
      } else {
        assert Abs(s').outcomes == Abs(s).outcomes;
      }
    } else {
      SameAbs(s, s');
    }
  }

  lemma ReplyRefs(s: State, s': State, r: Reply)
    requires s'.replies == s.replies + [r]
    ensures HasReply(s'.replies, r.replyTo) && RefsOf(s'.replies, r.replyTo) == r.refs
  {
    assert s'.replies[|s.replies|] == r;
  }

  lemma CompleteRefines(s: State, w: nat, catalog: Catalog)
    requires Inv(s)
    ensures SpecStep(Abs(s), Abs(Complete(s, w, catalog).0), CompleteLabel(s, w, catalog))
  {
    var (s', ended) := Complete(s, w, catalog);
    if ended == Done {
      CompleteTables(s, w, catalog);
      var id := s.workers[w].message;
      var m, parsed := s.messages[id], s.workers[w].phase.parsed;
      var k := KeyOf(m);
      var r := s'.replies[|s.replies|];
      forall i | 0 <= i < |s.messages| && i != id ensures OutcomeOf(s', i) == OutcomeOf(s, i) {
        OutcomeFrame(s, s', i);
      }
      AbsUpdate(s, s', id);
      AbsAt(s, id);
      ReplyRefs(s, s', r);
      NoAiRecords(s, k);
      BatchIsWhole(s.records, m.user, k, parsed, catalog);
      assert SpecServe(Abs(s), Abs(s'), k, parsed, r.refs);
    } else {
      SameAbs(s, s');
    }
  }

  /** A message appended together with its reply. */
  lemma ServedAppended(s: State, s': State, r: Reply)
    requires SerialOk(s.messages) && SerialOk(s'.messages)
    requires s.messages <= s'.messages && |s'.messages| == |s.messages| + 1
    requires s'.replies == s.replies + [r] && r.replyTo == |s.messages|
    ensures Abs(s').outcomes == Abs(s).outcomes[KeyOf(s'.messages[|s.messages|]) := Served(r.refs)]
  {
    var id := |s.messages|;
    forall i | 0 <= i < id ensures s'.messages[i] == s.messages[i] && OutcomeOf(s', i) == OutcomeOf(s, i) {
      OutcomeFrame(s, s', i);
    }
    AbsUpdate(s, s', id);
    ReplyRefs(s, s', r);
  }

  lemma NoSuchKey(s: State, k: RequestKey)
    requires FindMessage(s.messages, k.session, k.cid).None?
    ensures k !in Abs(s).outcomes
  {
    if k in Abs(s).outcomes { var i := KeyHolder(s, k); }
  }

  lemma ChatRefines(s: State, user: nat, session: nat, cid: string, content: string, parsed: Option<Parsed>,
                    catalog: Catalog)
    requires Inv(s)
    ensures SpecStep(Abs(s), Abs(Chat(s, user, session, cid, content, parsed, catalog).0),
                     ChatLabel(s, user, session, cid, content, parsed, catalog))
  {
    var (s', chatted) := Chat(s, user, session, cid, content, parsed, catalog);
    if chatted.Answers? {
      ChatTables(s, user, session, cid, content, parsed, catalog);
      var k := RequestKey(session, cid);
      var r := s'.replies[|s.replies|];
      ServedAppended(s, s', r);
      FreeSession(s, session);
      NoSuchKey(s, k);
      NoAiRecords(s, k);
      BatchIsWhole(s.records, user, k, parsed.value, catalog);
      assert SpecServe(Abs(s), Abs(s'), k, parsed.value, r.refs);
    }
  }

  lemma OutsideRefines(s: State, a: Action)
    requires Inv(s) && Enabled(s, a) && (a.WriteRecord? || a.DeleteRecord?)
    ensures SpecStep(Abs(s), Abs(Step(s, a)), Outside)
  {
    SameAbs(s, Step(s, a));
  }

  /** Every transaction is the specification's step of its tag; in particular a commit that ends Done, and a chat that
      answers, serve their request with exactly the drafts the model answered, and nothing else serves. */
  lemma StepRefines(s: State, a: Action)
    requires Inv(s) && Enabled(s, a)
    ensures SpecStep(Abs(s), Abs(Step(s, a)), LabelOf(s, a))
  {
    match a
    case DoAccept(user, session, cid, content) => AcceptRefines(s, user, session, cid, content);
    case DoClaim(w, id, token) => ClaimRefines(s, w, id, token);
    case DoComplete(w, catalog) => CompleteRefines(s, w, catalog);
    case DoFail(w) => FailRefines(s, w);
    case DoChat(user, session, cid, content, result, catalog) =>
      ChatRefines(s, user, session, cid, content, result, catalog);
    case WriteRecord(_, _, _, _, _) => OutsideRefines(s, a);
    case DeleteRecord(_) => OutsideRefines(s, a);
    case _ => SameAbs(s, Step(s, a));
  }

  // ---------- whole runs ----------

  /** A step that is enabled is the specification's step of its tag; one that is not changes nothing. */
  ghost predicate RefinedAt(s: State, actions: seq<Action>, i: nat)
    requires i < |actions|
  {
    var mid := Run(s, actions[..i]);
    SpecStep(Abs(mid), Abs(Run(s, actions[..i + 1])), if Enabled(mid, actions[i]) then LabelOf(mid, actions[i])
                                                      else Silent)
  }

  /** Every step of every run is the specification's step of its tag, from the empty specification. */
  lemma RunRefines(s: State, actions: seq<Action>)
    requires Init(s)
    ensures Abs(s) == Spec(s.owner, map[], s.records) && NoPartialBatch(Abs(s))
    ensures forall i :: 0 <= i < |actions| ==> RefinedAt(s, actions, i)
  {
    InitInv(s);
    assert Keys(s.messages) == {};
    forall i | 0 <= i < |actions| ensures RefinedAt(s, actions, i) {
      RunInv(s, actions[..i]);
      var mid := Run(s, actions[..i]);
      assert actions[..i + 1][..i] == actions[..i];
      if Enabled(mid, actions[i]) {
        StepRefines(mid, actions[i]);
      }
    }
  }

  lemma OneStep(s: State, actions: seq<Action>)
    requires Init(s) && actions != []
    ensures var n := |actions| - 1;
            actions[..n + 1] == actions && RefinedAt(s, actions, n)
  {
    RunRefines(s, actions);
    assert actions[..|actions|] == actions;
  }

  /** No reachable state holds part of a batch. */
  lemma {:induction false} NeverPartial(s: State, actions: seq<Action>)
    requires Init(s)
    ensures NoPartialBatch(Abs(Run(s, actions)))
  {
    RunRefines(s, []);
    if actions != [] {
      var n := |actions| - 1;
      NeverPartial(s, actions[..n]);
      OneStep(s, actions);
      var mid := Run(s, actions[..n]);
      SpecNoPartialBatch(Abs(mid), Abs(Run(s, actions)), if Enabled(mid, actions[n]) then LabelOf(mid, actions[n])
                                                         else Silent);
    }
  }

  /** The i-th step of the run served the request with these records. */
  ghost predicate ServedAt(s: State, actions: seq<Action>, i: nat, k: RequestKey, refs: seq<nat>)
    requires i < |actions|
  {
    var mid := Run(s, actions[..i]);
    && Enabled(mid, actions[i])
    && LabelOf(mid, actions[i]).Serving? && LabelOf(mid, actions[i]).k == k && LabelOf(mid, actions[i]).refs == refs
    && SpecServe(Abs(mid), Abs(Run(s, actions[..i + 1])), k, LabelOf(mid, actions[i]).answer, refs)
  }

  lemma ServedAtLonger(s: State, actions: seq<Action>, i: nat, k: RequestKey, refs: seq<nat>)
    requires i < |actions| - 1 && ServedAt(s, actions[..|actions| - 1], i, k, refs)
    ensures ServedAt(s, actions, i, k, refs)
  {
    var front := actions[..|actions| - 1];
    assert front[..i] == actions[..i] && front[..i + 1] == actions[..i + 1] && front[i] == actions[i];
  }

  predicate IsServed(outcomes: map<RequestKey, Outcome>, k: RequestKey, refs: seq<nat>) {
    k in outcomes && outcomes[k] == Served(refs)
  }

  lemma SpecServedLately(a: Spec, b: Spec, tag: Label, k: RequestKey, refs: seq<nat>)
    requires SpecStep(a, b, tag) && IsServed(b.outcomes, k, refs)
    ensures IsServed(a.outcomes, k, refs) ||
            (tag.Serving? && tag.k == k && tag.refs == refs && SpecServe(a, b, k, tag.answer, refs))
  {
    if k in a.outcomes && a.outcomes[k].Served? {
      SpecServedStays(a, b, tag, k);
    } else {
      SpecOnlyServingServes(a, b, tag, k);
    }
  }

  /** The last step served the request, or it had been served before. */
  lemma ServedLately(s: State, actions: seq<Action>, k: RequestKey, refs: seq<nat>)
    requires Init(s) && actions != [] && IsServed(Abs(Run(s, actions)).outcomes, k, refs)
    ensures IsServed(Abs(Run(s, actions[..|actions| - 1])).outcomes, k, refs)
            || ServedAt(s, actions, |actions| - 1, k, refs)
  {
    var n := |actions| - 1;
    var mid := Run(s, actions[..n]);
    OneStep(s, actions);
    SpecServedLately(Abs(mid), Abs(Run(s, actions)), if Enabled(mid, actions[n]) then LabelOf(mid, actions[n])
                                                     else Silent, k, refs);
  }

  lemma NothingServedAtFirst(s: State, k: RequestKey)
    requires Init(s)
    ensures !(k in Abs(s).outcomes && Abs(s).outcomes[k].Served?)
  {
    RunRefines(s, []);
  }

  /** Exactly once, read backwards: a request that is served in the end was served by one transaction of the run,
      which put its whole batch, the answered drafts in order, into the ledger of the session's owner. */
  lemma {:induction false} ServedByOneStep(s: State, actions: seq<Action>, k: RequestKey, refs: seq<nat>)
    returns (i: nat)
    requires Init(s) && IsServed(Abs(Run(s, actions)).outcomes, k, refs)
    ensures i < |actions| && ServedAt(s, actions, i, k, refs)
  {
    NothingServedAtFirst(s, k);
    var n := |actions| - 1;
    ServedLately(s, actions, k, refs);
    if IsServed(Abs(Run(s, actions[..n])).outcomes, k, refs) {
      i := ServedByOneStep(s, actions[..n], k, refs);
      ServedAtLonger(s, actions, i, k, refs);
    } else {
      i := n;
    }
  }

  /** A worker's answer was given to it, under the token it still holds. */
  lemma {:induction false} AnswerWasGiven(s: State, actions: seq<Action>, w: nat) returns (i: nat)
    requires Init(s) && w in Run(s, actions).workers && Run(s, actions).workers[w].phase.Answered?
    ensures i < |actions| && actions[i] == DoAnswer(w, Some(Run(s, actions).workers[w].phase.parsed))
    ensures w in Run(s, actions[..i]).workers
    ensures Run(s, actions[..i]).workers[w] == Run(s, actions).workers[w].(phase := Thinking)
  {
    var n := |actions| - 1;
    var front := actions[..n];
    var mid := Run(s, front);
    if w in mid.workers && mid.workers[w] == Run(s, actions).workers[w] {
      i := AnswerWasGiven(s, front, w);
      assert front[..i] == actions[..i] && front[i] == actions[i];
    } else {
      AnswerNow(mid, actions[n], w);
      i := n;
    }
  }

  lemma AnswerNow(s: State, a: Action, w: nat)
    requires Enabled(s, a) && w in Step(s, a).workers && Step(s, a).workers[w].phase.Answered?
    requires !(w in s.workers && s.workers[w] == Step(s, a).workers[w])
    ensures a == DoAnswer(w, Some(Step(s, a).workers[w].phase.parsed))
    ensures w in s.workers && s.workers[w] == Step(s, a).workers[w].(phase := Thinking)
  {
  }
}
