/** The request service over its tables: each method is one transaction, rewriting rows as the service does. */
module AiService {
  import opened Wrappers
  import opened Records
  import opened AiRequests
  import opened AiInvariants
  import opened AiEffects

  class RequestDb {
    var owner: map<nat, nat>
    var messages: seq<Message>
    var replies: seq<Reply>
    const table: RecordTable
    var workers: map<nat, Worker>
    ghost var tokens: set<nat>
    var now: int

    ghost function View(): State
      reads this, table
    {
      State(owner, messages, replies, table.rows, workers, tokens, now)
    }

    /** The protocol's invariant over these tables. */
    ghost predicate Valid()
      reads this, table
    {
      Inv(View())
    }

    /** The ledger may hold records of other origins already. */
    constructor (owner: map<nat, nat>, table: RecordTable, now: int)
      requires Init(State(owner, [], [], table.rows, map[], {}, now))
      ensures this.table == table && Valid()
      ensures View() == State(owner, [], [], table.rows, map[], {}, now)
    {
      this.owner, this.table, this.now := owner, table, now;
      messages, replies, workers, tokens := [], [], map[], {};
    }

    /** Queue a message, or queue it again after it failed. */
    method AcceptRequest(user: nat, session: nat, cid: string, content: string) returns (r: Accepted)
      requires Valid()
      modifies this`messages
      ensures Valid() && (View(), r) == Accept(old(View()), user, session, cid, content)
      ensures AcceptedAs(old(View()), View(), r, user, session, cid, content, FindMessage(old(messages), session, cid))
    {
      AcceptExactly(View(), user, session, cid, content);
      StepInv(View(), DoAccept(user, session, cid, content));
      r := AcceptRow(user, session, cid, content);
    }

    method AcceptRow(user: nat, session: nat, cid: string, content: string) returns (r: Accepted)
      modifies this`messages
      ensures (View(), r) == Accept(old(View()), user, session, cid, content)
    {
      if session !in owner || owner[session] != user {
        return NoSession;
      }
      var existing := FindMessage(messages, session, cid);
      if existing.Some? {
        var m := messages[existing.value];
        if m.content != content {
          return ContentConflict;
        }
        var status := if HasReply(replies, existing.value) then Completed else m.payload.status.GetOr(Failed);
        if status != Failed {
          return Current(existing.value, status);
        }
      }
      if SessionBusy(messages, session) {
        return Busy;
      }
      var acceptedAt := now;
      if existing.Some? {
        acceptedAt := messages[existing.value].payload.acceptedAt.GetOr(now);
      }
      var payload := Payload(cid, Some(Queued), Some(acceptedAt), 0, None, None, None, None);
      if existing.Some? {
        messages := messages[existing.value := messages[existing.value].(payload := payload)];
        r := Enqueued(existing.value);
      } else {
        messages := messages + [Message(user, session, content, payload)];
        r := Enqueued(|messages| - 1);
      }
    }

    method ClaimRow(w: nat, id: nat, token: nat) returns (r: Claimed)
      modifies this`messages, this`workers, this`tokens
      ensures (View(), r) == Claim(old(View()), w, id, token)
    {
      if id >= |messages| || messages[id].payload.status.None? {
        return Missing;
      }
      var payload := messages[id].payload;
      var status := payload.status.value;
      if status == Completed || status == Failed
        || (status == Processing && payload.leaseExpires.Some? && payload.leaseExpires.value > now)
        || (status == Queued && payload.retryAfter.Some? && payload.retryAfter.value > now)
      {
        return Settled(status);
      }
      if payload.attempts >= MAX_ATTEMPTS {
        messages := SetPayload(messages, id, Finished(payload, Failed, Some(GAVE_UP_ERROR)));
        return GaveUp;
      }
      payload := payload.(status := Some(Processing), attempts := payload.attempts + 1);
      payload := payload.(leaseToken := Some(token), leaseExpires := Some(now + LEASE));
      messages := SetPayload(messages, id, payload);
      workers := workers[w := Worker(id, token, Thinking)];
      tokens := tokens + {token};
      return Leased;
    }

    /** First locked transaction of a delivery. */
    method ClaimRequest(w: nat, id: nat, token: nat) returns (r: Claimed)
      requires Valid() && w !in workers && token !in tokens
      modifies this`messages, this`workers, this`tokens
      ensures Valid() && (View(), r) == Claim(old(View()), w, id, token)
      ensures ClaimedAs(old(View()), View(), r, w, id, token)
    {
      ClaimExactly(View(), w, id, token);
      StepInv(View(), DoClaim(w, id, token));
      r := ClaimRow(w, id, token);
    }

    /** The final transaction of a delivery whose model call returned. */
    method CompleteRequest(w: nat, catalog: Catalog) returns (r: Ended)
      requires Valid()
      modifies this`messages, this`replies, this`workers, table
      ensures Valid() && (View(), r) == Complete(old(View()), w, catalog)
      ensures CompletedAs(old(View()), View(), r, w, catalog)
    {
      CompleteExactly(View(), w, catalog);
      StepInv(View(), DoComplete(w, catalog));
      r := CompleteRows(w, catalog);
    }

    method CompleteRows(w: nat, catalog: Catalog) returns (r: Ended)
      modifies this`messages, this`replies, this`workers, table
      ensures (View(), r) == Complete(old(View()), w, catalog)
    {
      if w !in workers || !workers[w].phase.Answered? {
        return NotRunning;
      }
      var worker := workers[w];
      if worker.message >= |messages| || messages[worker.message].payload.leaseToken != Some(worker.token) {
        workers := workers - {w};
        return Fenced;
      }
      var m := messages[worker.message];
      var items := BatchItems(m.user, m.session, m.payload.cid, Drafts(worker.phase.parsed));
      var saved := table.SaveBatch(m.user, items, FromAi, catalog);
      if saved.Err? {
        workers := workers[w := worker.(phase := Raised)];
        return Rolled(saved.error);
      }
      replies := replies + [Reply(m.session, worker.message, worker.phase.parsed.Ready?, saved.value)];
      messages := SetPayload(messages, worker.message, Finished(m.payload, Completed, None));
      workers := workers - {w};
      return Done;
    }

    method FailRow(w: nat) returns (r: Ended)
      modifies this`messages, this`workers
      ensures (View(), r) == Fail(old(View()), w)
    {
      if w !in workers || !workers[w].phase.Raised? {
        return NotRunning;
      }
      var worker := workers[w];
      workers := workers - {w};
      if worker.message >= |messages| || messages[worker.message].payload.leaseToken != Some(worker.token) {
        return Fenced;
      }
      var attempts := messages[worker.message].payload.attempts;
      var status := if attempts >= MAX_ATTEMPTS then Failed else Queued;
      var payload := Finished(messages[worker.message].payload, status, Some(RETRY_ERROR));
      if status == Queued {
        payload := payload.(retryAfter := Some(now + RETRY_STEP * attempts));
      }
      messages := SetPayload(messages, worker.message, payload);
      return if status == Failed then GivenUp else Retry;
    }

    /** The final transaction of a delivery that raised. */
    method FailRequest(w: nat) returns (r: Ended)
      requires Valid()
      modifies this`messages, this`workers
      ensures Valid() && (View(), r) == Fail(old(View()), w)
      ensures FailedAs(old(View()), View(), r, w)
    {
      FailExactly(View(), w);
      StepInv(View(), DoFail(w));
      r := FailRow(w);
    }

    method ChatRows(user: nat, session: nat, cid: string, content: string, parsed: Option<Parsed>, catalog: Catalog)
      returns (r: Chatted)
      modifies this`messages, this`replies, table
      ensures (View(), r) == Chat(old(View()), user, session, cid, content, parsed, catalog)
    {
      if session !in owner || owner[session] != user {
        return ChatNoSession;
      }
      var existing := FindMessage(messages, session, cid);
      if existing.Some? {
        if messages[existing.value].content != content {
          return ChatConflict;
        }
        if !HasReply(replies, existing.value) {
          return Unfinished;
        }
        return Replayed(existing.value);
      }
      if SessionBusy(messages, session) {
        return ChatBusy;
      }
      if parsed.None? {
        return ModelError;
      }
      var saved := table.SaveBatch(user, BatchItems(user, session, cid, Drafts(parsed.value)), FromAi, catalog);
      if saved.Err? {
        return ChatRolled(saved.error);
      }
      messages := messages + [Message(user, session, content, Payload(cid, None, None, 0, None, None, None, None))];
      replies := replies + [Reply(session, |messages| - 1, parsed.value.Ready?, saved.value)];
      return Answers(|messages| - 1);
    }

    /** The synchronous path, whose messages, records and reply commit together. */
    method ChatWithAi(user: nat, session: nat, cid: string, content: string, parsed: Option<Parsed>, catalog: Catalog)
      returns (r: Chatted)
      requires Valid()
      modifies this`messages, this`replies, table
      ensures Valid() && (View(), r) == Chat(old(View()), user, session, cid, content, parsed, catalog)
      ensures ChattedAs(old(View()), View(), r, user, session, cid, content, parsed, catalog,
                        FindMessage(old(messages), session, cid))
    {
      ChatExactly(View(), user, session, cid, content, parsed, catalog);
      StepInv(View(), DoChat(user, session, cid, content, parsed, catalog));
      r := ChatRows(user, session, cid, content, parsed, catalog);
    }
  }
}
