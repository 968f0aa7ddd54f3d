# Verified model of the service back end

A Dafny model of the parts of the repository whose correctness is hardest to see from the code, with proofs of what they
promise. Check it with `dafny verify dfyconfig.toml`.

* **Durable AI requests** (`Records`, `AiRequests`, `AiInvariants`, `AiRefinement`, `AiTheorems`, `AiEffects`,
  `AiLeases`, `AiService`, `AiRecovery`, `IsoTime`, `AiDrafts`). Accounting requests are accepted, leased to workers,
  retried and recovered. Every locked transaction, model answer, crash and passage of time is one step of a transition
  system; the theorems hold over every interleaving with any number of workers. The class `RequestDb` is the service
  code, tied to those steps.
* **Points wallet** (`Wallet`, `WalletSpending`, `WalletRuns`, `WalletEffects`, `WalletService`, `SignIn`,
  `SignInEffects`, `Streaks`). Expiring grants, a cached balance, greedy spending, refunds by allocation, tasks that
  hold frozen points, the daily sign-in window and its streak.
* **One-shot credentials** (`Sms`, `SmsEffects`, `SmsService`, `RefreshTokens`). Each Redis command or script is one
  step.
* **Ledger import and export** (`NoteTags`, `NoteNames`, `Numerals`, `Amounts`, `ImportRows`, `ImportConfirm`,
  `ImportRuns`, `ImportDuplicates`, `ImportAgain`, `ImportExport`, `ImportEffects`, `ImportService`). Row normalisation,
  duplicate fingerprints, note tags, decimal text and concurrent batch confirmation.
* **Schema repair** (`RepairPlan`, `RepairEffects`, `RepairConvergence`, `RepairRuns`, `RepairSchema`, `RepairService`).
  The planner, its statements, the fixpoint, and the schemas it accepts and ends in.
* **Calendar and couples** (`Calendar`, `Anniversaries`, `Couples`).

Code that changes state step by step is a class or a loop proved against a function on values; the theorems are lemmas
about those functions and about runs of them. What an operation leaves is also stated without those functions, read off
the rows before it with the numbers written out (`AiEffects`, `WalletEffects`, `SignInEffects`, `SmsEffects`,
`ImportEffects`, `RepairSchema`, and the predicates whose names end in `As`), and the class methods promise both. Rows
are addressed by their position in a table, times are integers, digests and signatures are injective and so appear as
what they are computed from, fresh identifiers are drawn once, and foreign calls may return anything. Text order is
bytewise and the time zone is a fixed +08:00.

Results a reader may not expect:

* A success learnt by polling an upstream task leaves its points frozen in a finished task, exactly until a completion or
  refund of that task (`FinishedHoldsOverRuns`, with a run in `PolledSuccessKeepsPointsFrozen`); tasks submitted today never
  carry an upstream id, and for those only unfinished tasks hold points.
* The sign-in guard compares log rows dated by the database with a window computed from the application's clock. A request
  that straddles the reset is logged into the old window, and a second one is granted in the new
  (`StraddlingResetGrantsTwice`); among requests that come one after the other this is the only way
  (`GrantedTwiceExactly`).
* The sign-in window counts resets at the configured hour while the streak counts calendar dates, so a user who signs in once
  in every window can lose the streak (`StreakCanBreakWithoutMissingAWindow`), and one who misses a window can keep it;
  `NoGapExactly` and `UnbrokenOverRuns` say exactly when.
* A file with tagged notes and named books may be imported twice: its second preview flags a row exactly when the note
  survives the tags (`OneRowFlaggedExactly`, `WhenNotesSurvive`, `BracketInNameStaysBehind`).
* An amount too long for the decimal context is not reported as an error of its row but ends the whole preview
  (`RaisesExactly`, `NormalizeRows`).
* An exported row whose note fills the column cannot be previewed, because the book name is spelled out again; it is reported
  as an error instead of a duplicate (`ExportFlaggedExactly`).
* A confirmation that raced with another and lost repeats the same receipt, unless a record of the batch was deleted in
  between, which it reports as a conflict (`LateCommitRepeats`). The status is not read again under the lock; idempotency rests
  on the record keys alone.
* The repair planner looks for a missing index only on its own table; when another relation has the name, the plan is accepted
  and applying it fails (`TakenNameIsAccepted`).
* `get_next_occurrence` has no answer after the last representable year (`NextIsLeast`).

## Model

| member | source | states |
|---|---|---|
| `Records.RecordTable.CreateRecord` | apps/ledger_mate/services.py:469-492 | The insert every writer goes through: the key lookup comes first and finds deleted rows too (which is refused), then category and method are checked, then one row is appended; any refusal leaves the table as it was |
| `Records.RecordTable.SaveBatch` | apps/ledger_mate/services.py:147-156 | The loop over a batch inside one transaction: all rows of the batch in order, or none |
| `Records.CreateExactly` | apps/ledger_mate/services.py:469-492 | Read off the rows: an insert is refused for a deleted key exactly when a deleted row of the user carries it, for its category exactly when no row carries the key and the category is not enabled or of another kind, and for its method exactly when only that is not enabled; a key that is taken answers with its row and writes nothing, and any other insert adds one row with exactly these values |
| `Records.SaveExactly` | apps/ledger_mate/services.py:147-156 | A batch is saved exactly when each of its drafts could be inserted on its own before the batch |
| `Records.CreateKeepsUniqueKeys` | apps/ledger_mate/services.py:472-480 | No insert gives a user two rows with one key, and rows already stored keep their place |
| `Records.SaveAllHolds` | apps/ledger_mate/services.py:147-156 | A saved batch returns, in order, live rows that hold the batch's keys; every row it added is among them and carries its draft |
| `Records.ReplayFindsSameRows` | apps/ledger_mate/services.py:472-480 | Saving a batch again while its rows live finds the same rows and writes nothing, whatever drafts and catalog the replay brings |
| `Records.FreshBatchSucceeds` | apps/ledger_mate/services.py:469-492 | A batch over unused keys with usable categories and methods always succeeds, with exactly one new row per draft, in order |
| `AiInvariants.RunInv` | apps/ledger_mate/ai_requests.py:68-211 | The full protocol invariant (tokens exactly while processing, serial sessions, one reply per finished request, references that hold the keys, tokens that name one worker) in every state of every interleaving |
| `AiRefinement.RunRefines` | apps/ledger_mate/ai_requests.py:140-211 | Exactly once: every step of every interleaving, with crashes, expiry, redelivery and the synchronous path, is the specification's step of its label. A serving step names the request, the model's answer and the records, and in that one step the answered drafts, all of them and in order, appear in the ledger of the session's owner; writers outside the protocol may add AI records only under keys of their own kind |
| `AiRefinement.StepRefines` | apps/ledger_mate/ai_requests.py:140-211 | The simulation behind it, transaction by transaction: a commit that ends done and a chat that answers are labelled with the message's owner and the answer they hold, acceptance and final failure with their request, and no other step serves |
| `AiRefinement.NoAiRecordBeforeReply` | apps/ledger_mate/services.py:147-162 | Before a request has its reply no AI record carries any of its keys, so the commit's key lookup can only meet rows written by other writers |
| `AiRefinement.SpecServedStays` | apps/ledger_mate/ai_requests.py:153-155 | In the specification a done request stays done with the same records |
| `AiRefinement.SpecOnlyServingServes` | apps/ledger_mate/ai_requests.py:183-191 | In the specification a request becomes done only by the serving step that names it, with the records that step names |
| `AiRefinement.NeverPartial` | apps/ledger_mate/services.py:147-162 | No reachable state holds part of a batch: an AI record under a request's key exists only once that request is done and belongs to the batch its reply refers to |
| `AiRefinement.ServedByOneStep` | apps/ledger_mate/ai_requests.py:140-191 | Read backwards: a request that is done at the end of a run was served by one step of it, in one transaction with its whole batch under the session's owner |
| `AiRefinement.AnswerWasGiven` | apps/ledger_mate/ai_requests.py:166-191 | The answer a worker commits was given to that worker, under the token it still holds |
| `AiTheorems.ReachableStates` | apps/ledger_mate/ai_requests.py:68-102 | In every reachable state: one user message per client id, at most one unfinished message per session, a lease token exactly while processing, completed exactly when the reply exists, one reply per message, one record per key |
| `AiTheorems.StepOnMessage` | apps/ledger_mate/ai_requests.py:153-208 | Every step leaves a request alone, re-accepts it after a failure, or strictly lowers a rank on attempts and status; attempts count the leases |
| `AiTheorems.BoundedWork` | apps/ledger_mate/ai_requests.py:153-161 | Between two acceptances a request is leased at most three times and its payload changes at most seven times, over any interleaving |
| `AiTheorems.UnfinishedIsTakenOver` | apps/ledger_mate/ai_requests.py:153-161 | An unfinished request waits at most one lease; from its stored deadline on the next delivery leases it, or gives it up exactly when the attempts are used up |
| `AiTheorems.TokenStaysDead` | apps/ledger_mate/ai_requests.py:183-187 | A lease token that is no longer current never becomes current again |
| `AiTheorems.FencedForever` | apps/ledger_mate/ai_requests.py:183-208 | A worker whose token is not current leaves messages, replies and records unchanged for the rest of every run, whether it completes or fails, even after the request failed and was accepted again |
| `AiTheorems.LeaseEndKillsToken` | apps/ledger_mate/ai_requests.py:131-137 | Completion, retry, giving up and takeover by another worker each end the old token |
| `AiTheorems.ServedIsAbsorbing` | apps/ledger_mate/ai_requests.py:54-65 | A message with a reply keeps its content, payload and reply for ever, through both entry points |
| `AiEffects.AcceptExactly` | apps/ledger_mate/ai_requests.py:68-105 | Each answer of the acceptance as a condition on the rows before it, and the rows after it field by field: a failed request is queued again with no attempts and its first acceptance time |
| `AiEffects.ClaimExactly` | apps/ledger_mate/ai_requests.py:140-165 | A delivery leases exactly a request with fewer than three attempts that is queued with no retry time ahead or processing with its lease over; the lease ends 180 seconds later under the new token, and nothing else changes |
| `AiEffects.CompleteExactly` | apps/ledger_mate/ai_requests.py:183-191 | The commit read off the rows: when it is fenced, when it is rolled back, and on success one reply with the ids of all drafts and a request that is completed |
| `AiEffects.FailExactly` | apps/ledger_mate/ai_requests.py:192-208 | The failure read off the rows: a request with fewer than three attempts is queued again no earlier than ten seconds times its attempts from now, any other has failed |
| `AiEffects.ChatExactly` | apps/ledger_mate/services.py:165-211 | Each answer of the synchronous path as a condition on the rows before it, with the message, reply and records it adds |
| `AiLeases.LeaseLasts` | apps/ledger_mate/ai_requests.py:153-161 | Over every run: for 180 seconds after a lease began its holder keeps it, whatever else is delivered, unless the holder itself commits or fails |
| `AiLeases.LeasesApart` | apps/ledger_mate/ai_requests.py:153-161 | Over every run: two leases of one request with neither a commit nor a failure of the first holder between them are at least 180 seconds apart |
| `AiLeases.RetriesApart` | apps/ledger_mate/ai_requests.py:192-208 | Over every run: a request that was queued again after a failure is not leased for ten seconds times its attempts |
| `AiService.RequestDb.AcceptRequest` | apps/ledger_mate/ai_requests.py:68-105 | Acceptance as written, tied to the protocol's step; every answer is stated as a condition on the rows, the accepted or re-accepted request with all its fields, and any other answer changes nothing |
| `AiService.RequestDb.ClaimRequest` | apps/ledger_mate/ai_requests.py:140-165 | The claim transaction as written, tied to the protocol's step; it leases exactly a due request with fewer than three attempts, for 180 seconds, and then no earlier worker holds it any more |
| `AiService.RequestDb.CompleteRequest` | apps/ledger_mate/ai_requests.py:183-191 | The fenced commit as written; done means that the worker still held the lease and that one reply with the whole batch of its answer was added to a message that had none, and every other outcome leaves all tables as they were |
| `AiService.RequestDb.FailRequest` | apps/ledger_mate/ai_requests.py:192-208 | The fenced failure transaction as written; it touches neither replies nor records, nothing at all without the lease, and otherwise queues the request again, ten seconds times its attempts from now, or fails it exactly when three are used |
| `AiService.RequestDb.ChatWithAi` | apps/ledger_mate/services.py:165-211 | The synchronous path as written; an answer means a new message with its reply and the whole batch in a session with nothing in progress, and every other outcome changes nothing |
| `AiRecovery.ScanSelectsExactlyClaimable` | apps/ledger_mate/ai_requests.py:214-219 | On a row that holds a payload with its instants written as text, the scan's comparison of texts selects exactly what the claim's comparison of instants takes over |
| `AiRecovery.Recover` | apps/ledger_mate/ai_requests.py:214-222 | The scan as written, over the stored texts: it returns the first requests in its order that a delivery takes over now, up to the clamped limit, and leaves none of them out |
| `IsoTime.IsoOrderIsTimeOrder` | apps/ledger_mate/ai_requests.py:160-160 | Bytewise order of the stored timestamps, with or without a fraction on either side, is time order, and equal texts are equal instants |
| `IsoTime.ParseIso` | apps/ledger_mate/ai_requests.py:128-129 | Reading a stored timestamp back gives the instant that was written |
| `IsoTime.ScanAgreesWithClaim` | apps/ledger_mate/ai_requests.py:128-129 | On every value the service stores, the due check on the parsed instant and the scan's check on the text agree |
| `AiDrafts.PrepareParsed` | apps/ledger_mate/services.py:89-116 | The loop over the model's drafts: a category is looked up by name among the enabled ones of its kind, every question is the model's or about something a draft lacks, and up to five go back |
| `AiDrafts.PrepareExactly` | apps/ledger_mate/services.py:89-116 | The prepared answer read off the model's, without the loop: which category each draft gets, when the answer is ready, and which questions go back |
| `AiDrafts.ReadyExactly` | apps/ledger_mate/services.py:89-116 | An answer stays ready exactly when the model said so, asked nothing, named a draft, and every draft is complete and fits the enabled categories and methods; otherwise one to five different questions go back |
| `AiDrafts.ReadyIsSaved` | apps/ledger_mate/services.py:147-156 | A ready answer saved under the listing it was prepared with, its keys unused, is saved in full: one new record per draft, in order |
| `AiDrafts.PendingHistory` | apps/ledger_mate/services.py:76-86 | The loop from the newest turn back; what it returns begins behind the last turn that was booked and leaves out only turns that failed |
| `AiDrafts.ShownExactly` | apps/ledger_mate/services.py:76-86 | The model is shown exactly the unfailed turns after the last booked one, in order |
| `WalletService.PointService.SyncPointBalance` | apps/aurakey/services.py:260-283 | Every grant whose expiry has come holds nothing, every other one what it held, and the cached balance is what lasts beyond this instant |
| `WalletService.PointService.CreditPoints` | apps/aurakey/services.py:286-310 | A positive amount becomes one grant with that amount, expiry and time, and raises the balance by it; any other amount changes nothing |
| `WalletService.PointService.SpendPoints` | apps/aurakey/services.py:312-360 | The greedy loop with its early exit: refused exactly when partial spending is off and too little lasts; otherwise the smaller of the request and what lasts is taken from grants that have not expired, the earliest expiry emptied first, and each slice of the allocation names what it took |
| `WalletService.PointService.RestorePoints` | apps/aurakey/services.py:363-417 | The replay loop: each grant gets back what the allocation says was taken from it; without an allocation the fallback becomes a grant |
| `WalletService.PointService.SubmitTask` | apps/aurakey/services.py:756-798 | Submission is refused, without effect, exactly when the cost is more than what lasts; otherwise the cost is paid as a spend pays it and frozen in one new task |
| `WalletService.PointService.Refund` | apps/aurakey/tasks.py:153-177 | A failed task gives its frozen allocation back and holds nothing afterwards |
| `WalletService.PointService.FinishTask` | apps/aurakey/tasks.py:263-279 | The worker's success step: the frozen points are consumed |
| `WalletService.PointService.PollTask` | apps/aurakey/services.py:811-880 | Polling: a local task without image is refunded from a minute after its timeout on, a remote one when it failed upstream; an upstream success marks the task and leaves its points in it; nothing else changes anything |
| `WalletService.PointService.AdjustBalance` | apps/aurakey/admin_services.py:65-90 | A positive adjustment credits the amount; a negative one takes exactly the smaller of the amount and what has not expired, and reports it |
| `WalletService.PointService.RefundOrderPoints` | apps/aurakey/admin_services.py:103-143 | A refunded order takes back exactly the smaller of its points and what has not expired, and the balance is what lasts without it |
| `WalletSpending.SpendsExactly` | apps/aurakey/services.py:312-360 | A spend deducts exactly the smaller of the request and what has not expired, and is refused exactly when partial spending is off and that is too little; the allocation names each grant at most once and sums to the deduction; the cached balance is the new sum |
| `WalletEffects.SyncExactly` | apps/aurakey/services.py:260-283 | Without the sweep's own terms: what an expired grant held is gone, nothing else, and the balance is the sum of the grants that have not expired |
| `WalletEffects.SpendExactly` | apps/aurakey/services.py:312-360 | Grant by grant: no slice names an expired grant or takes more than it held, what is left and what was taken add up to what was worth something before, and when anything was taken from a grant every grant that expires earlier is empty |
| `WalletEffects.RestoreExactly` | apps/aurakey/services.py:363-417 | A refund adds to each grant exactly what the allocation took from it, and to the balance the total |
| `WalletEffects.SubmitExactly` | apps/aurakey/services.py:756-798 | A new task is refused exactly when less than its cost lasts, and otherwise freezes exactly its cost with the allocation of one spend |
| `WalletEffects.OrderRefundExactly` | apps/aurakey/admin_services.py:103-143 | Taking back an order is one spend of as much as there is, and the sync after it finds nothing left to do |
| `WalletSpending.SpendIsOptimal` | apps/aurakey/services.py:329-353 | Exchange optimality: for every instant, at least as many points outlive it as after any other way of taking the same total from the same grants |
| `WalletSpending.RestoreUndoesSpend` | apps/aurakey/services.py:371-416 | Replaying the allocation of a spend gives back, grant by grant, the account just after the spend's sync |
| `WalletRuns.AccountFollows` | apps/aurakey/services.py:260-417 | The bookkeeping around the account follows the account's own operations and adds none |
| `WalletRuns.PointsAreConserved` | apps/aurakey/services.py:260-417 | Over every run of credits, spends, expiry, refunds, completions, polls and adjustments: issued points equal remaining plus frozen plus consumed plus expired; the cached balance is the sum of the grants; remaining plus frozen never exceeds a grant's amount; each task's points are in one place |
| `WalletRuns.RefundKeeps` | apps/aurakey/tasks.py:153-177 | Returning a task's allocation keeps the books and issues no new points |
| `WalletRuns.SettledTaskStays` | apps/aurakey/tasks.py:155-173 | Once a task holds nothing, no operation of any kind moves its points again |
| `WalletRuns.PointsLeaveOnce` | apps/aurakey/tasks.py:155-173 | The same over whole runs: points leave a task exactly once, consumed or returned |
| `WalletRuns.FinishedHoldsExactly` | apps/aurakey/services.py:829-841 | For every operation: a finished task holds points afterwards exactly when it held them before and the operation is neither its completion nor its refund, or polling has just learnt that it succeeded upstream with points frozen |
| `WalletRuns.FinishedHoldsOverRuns` | apps/aurakey/services.py:829-841 | Over every run a finished task holds points exactly when some poll learnt of its upstream success with points frozen and no completion or refund of it came later |
| `WalletRuns.ConservedWithoutFinished` | apps/aurakey/services.py:829-841 | Issued points equal remaining plus those frozen in unfinished tasks plus consumed plus expired exactly when no poll of the run left a finished task frozen |
| `WalletRuns.PolledSuccessKeepsPointsFrozen` | apps/aurakey/services.py:829-841 | Such a run: ten points are credited, spent on an upstream task, and stay frozen in it after polling learnt of its success |
| `WalletRuns.OnlyUnfinishedHoldPoints` | apps/aurakey/tasks.py:264-279 | Without upstream task ids, which is every task submitted today, only unfinished tasks hold points |
| `WalletRuns.ApplyGrantsStay` | apps/aurakey/services.py:260-417 | No operation removes a grant or changes what it issued, when it expires or when it was created |
| `SignIn.WindowEndsAtExpiry` | apps/aurakey/services.py:89-95 | The duplicate-check window contains the sign-in, ends exactly when its points expire, and is the same for exactly the instants in it |
| `SignInEffects.SignInExactly` | apps/aurakey/services.py:1281-1324 | Counted in microseconds from the clock: refused exactly when a row falls into the day that began at the latest reset hour; otherwise expired points go, and the reward is one grant that runs out a day after that reset |
| `SignIn.RunKeeps` | apps/aurakey/services.py:1301-1324 | Over every run of sign-ins and other wallet operations the points stay conserved, and each rewarded sign-in keeps a grant of its own with its amount and its window's end as expiry |
| `SignIn.GrantedTwiceExactly` | apps/aurakey/services.py:1283-1302 | Two sign-ins are granted in one window exactly when the log row of a granted one, dated by the database at the start of its transaction, falls outside the window of the clock it read, and that window is visited again |
| `SignIn.LiveTogether` | apps/aurakey/services.py:1303-1316 | Two sign-in grants are unexpired together, at an instant when both exist, exactly when they were granted in one window that is not over |
| `SignIn.OneLiveGrant` | apps/aurakey/services.py:1283-1316 | When every row falls into the window of its clock, each window holds at most one sign-in and at most one sign-in grant is unexpired at any time |
| `SignIn.StraddlingResetGrantsTwice` | apps/aurakey/services.py:1283-1324 | Otherwise, for every reset hour: a request whose transaction starts just before the reset and whose clock is read after it leaves its window open, and the next request holds a second unexpired grant |
| `Streaks.CountBack` | apps/aurakey/services.py:1333-1343 | The counting loop returns the longest run of consecutive signed dates that ends today |
| `Streaks.NoGapExactly` | apps/aurakey/services.py:1287-1343 | For every reset hour and any two sign-ins, exactly when their dates leave no gap: in adjacent windows unless the first comes before its window's midnight and the second at or after its own, and across one missed window exactly when it is the other way round |
| `Streaks.StreakExactly` | apps/aurakey/services.py:1326-1343 | The streak counts the dates from the row behind the last neighbours that leave a gap, among the latest 365 rows |
| `Streaks.UnbrokenOverRuns` | apps/aurakey/services.py:1287-1343 | Over every run with one sign-in in each of consecutive windows, the streak reaches back to the first sign-in's date exactly when no sign-in before midnight is followed by one at or after midnight in the next window |
| `Streaks.UnbrokenExactly` | apps/aurakey/services.py:1287-1343 | ... and it is then one day per window, give or take the date that two windows share |
| `Streaks.NoStreakExactly` | apps/aurakey/services.py:1326-1343 | A sign-in is answered with no streak at all exactly when its row is dated before the clock's local day |
| `Streaks.AnsweredExactly` | apps/aurakey/services.py:1326-1343 | The answered streak is the number of days in a row, up to the clock's day, on which one of the last 365 rows falls |
| `Streaks.SignInService.DailySignIn` | apps/aurakey/services.py:1281-1345 | The whole call: refused without effect exactly when the window holds a row, otherwise logged, credited until the reset and answered with the streak over the latest 365 rows, which is zero exactly when the row is dated before the clock's local day |
| `Streaks.StreakCanBreakWithoutMissingAWindow` | apps/aurakey/services.py:1287-1343 | A run with one sign-in in each of three consecutive windows that leaves a streak of one |
| `Sms.OneSuccessFiveComparisons` | core/sms.py:151-188 | Over every interleaving of verifiers and re-sends each session yields at most one success, and at most five comparisons are made while it is stored |
| `Sms.SuccessMatches` | core/sms.py:184-188 | A verification succeeds only against the session it read, still stored, with that session's code |
| `SmsEffects.FirstRightCodeWins` | core/sms.py:151-188 | Over every run, whatever others do between its commands: a verifier that read a stored session is verified exactly when it submits the code that was sent, fewer than five attempts were counted before its own, and until it consumes the session five minutes have not passed, no other code was sent and nobody else consumed the session |
| `SmsEffects.VerifiedExactly` | core/sms.py:167-188 | The same from the count on: the answer is yes exactly for the right code among the first five attempts while the session is still stored |
| `SmsEffects.StoredUntilTaken` | core/sms.py:123-148 | A stored session stays stored exactly until it is five minutes old, or another one is sent, or a verifier that read it consumes it |
| `Sms.OldVerifierSparesNewSession` | core/sms.py:139-148 | A verifier that read an older session never deletes a newer one |
| `Sms.GoneForever` | core/sms.py:139-148 | A session that was consumed or replaced never comes back and never succeeds again |
| `Sms.CounterOutlivesSession` | core/sms.py:167-176 | Once counted, the attempt counter of a stored session outlives the session |
| `Sms.SendsAreLimited` | core/sms.py:82-97 | Over every run two sends are at least the cooldown apart, and every tenth send comes a day or more after the first of the ten: five of one counter's day and four of the next fit, not more |
| `SmsEffects.SendIsAdmitted` | core/sms.py:82-97 | Over every run a send is refused within a minute of the one before, and admitted after it when fewer than five were admitted in the last day |
| `SmsService.CodeStore.ReserveSend` | core/sms.py:82-97 | The rate-limit script as written: admitted exactly when the last admitted send is a minute old and the counter of the day stands below five, keeping the spacing of sends; a refusal changes nothing |
| `SmsService.CodeStore.SaveSession` | core/sms.py:123-132 | A new session, under an id of its own, is afterwards the only one stored, with this code and for five minutes |
| `SmsService.CodeStore.BeginVerify` | core/sms.py:159-166 | Reading the stored session as written; it changes no session, comparison or success |
| `SmsService.CodeStore.CountVerify` | core/sms.py:167-188 | Counting and comparing an attempt as written: the verifier goes on with a match exactly for the right code within five attempts, and without one from the fifth attempt on; however many verifications run side by side, no session is compared more than five times while it is stored |
| `SmsService.CodeStore.FinishVerify` | core/sms.py:139-148 | The compare-and-delete script as written: the answer is yes exactly for a match whose session is still the one stored, which is then gone, held the submitted code and had not been won; no other session is touched |
| `RefreshTokens.FamilyIsAChain` | core/security.py:111-151 | Over every run the tokens of one login form a chain, one per rotation; only the last can be stored, and all keep the login's subject, version and scope |
| `RefreshTokens.SingleUse` | core/security.py:128-140 | After one rotation of a token succeeded no rotation of it succeeds again, not even one decoded earlier that runs concurrently |
| `RefreshTokens.RotatesExactlyTheLiveToken` | core/security.py:114-151 | A rotation succeeds exactly for the stored, unexpired token presented with its own subject and version, and swaps that one session for one of thirty days |
| `RefreshTokens.SessionStore.CreatePair` | core/security.py:97-108 | A login stores one session for the new token, for thirty days |
| `RefreshTokens.SessionStore.RotateToken` | core/security.py:111-151 | The checks and the script as written: it succeeds exactly for the stored, unexpired token with its own subject and version; then exactly the old session is swapped for one with the same claims and the old token is superseded for good, otherwise nothing changes |
| `Couples.PartnerIsAnInvolution` | apps/just_right/services.py:184-209 | Over every run each user is in at most one couple that is not deleted, and 'partner of' is symmetric and never reflexive |
| `Couples.JoinMatches` | apps/just_right/services.py:146-181 | Joining matches exactly the inviter and the joiner, neither of whom had a partner |
| `Couples.JoinLeavesOthers` | apps/just_right/services.py:146-181 | Joining changes nobody else's partner |
| `Couples.JoinExactly` | apps/just_right/services.py:146-181 | Each answer read off the rows: refused as matched, for an unknown code, or for the user's own code exactly when that is so; everybody else is matched in the row that invited them, the row they waited in is withdrawn, and no other row changes |
| `Couples.DissolveFrees` | apps/just_right/services.py:229-242 | Dissolving leaves both users in no couple |
| `Couples.DissolveLeavesOthers` | apps/just_right/services.py:229-242 | Dissolving changes nobody else's partner |
| `Couples.CreateInvites` | apps/just_right/services.py:117-143 | Creating an invite leaves its user waiting alone in the couple, is refused exactly for a user with a partner, and changes nobody's partner |
| `Couples.CreateExactly` | apps/just_right/services.py:117-143 | Each answer read off the rows: refused exactly for a matched user, answered with the waiting row if there is one, otherwise one new row under the first of five drawn codes that no row carries |
| `Couples.CoupleService.CreateCouple` | apps/just_right/services.py:117-143 | An existing invite is reused; otherwise up to five drawn codes are tried and the first unused one is taken; whoever has no partner is left waiting unless no code was free, and no partner changes |
| `Couples.CoupleService.JoinCouple` | apps/just_right/services.py:146-181 | Joining as written: every refusal exactly on its condition, the match, and the withdrawal of the joiner's own waiting invite; on success inviter and joiner, both free before, are each other's partner and nobody else is affected |
| `Couples.CoupleService.DissolveCouple` | apps/just_right/services.py:229-242 | Dissolving as written: unknown couple, foreign user, or this one row dissolved and deleted, each exactly on its condition; on success its users are free and nobody else is affected |
| `Anniversaries.NextIsLeast` | apps/just_right/services.py:1072-1106 | The next occurrence is the least clamped recurrence date on or after the day, yearly and monthly, 29 February and days 29 to 31 included; it is missing exactly when the calendar holds none |
| `Anniversaries.NextIsNear` | apps/just_right/services.py:1082-1104 | A yearly date is at most 365 days ahead, a monthly one at most 30, in Gregorian day counts |
| `Anniversaries.EntriesExactly` | apps/just_right/services.py:1109-1126 | The entries read off the calendar: for each anniversary its first recurrence from today on with the days until then; there are none exactly when some anniversary has no recurrence left |
| `Anniversaries.SortEntriesSorts` | apps/just_right/services.py:1127-1133 | The upcoming list is a permutation of the entries, ordered by the sort key |
| `Anniversaries.UpcomingOrder` | apps/just_right/services.py:1127-1134 | Of the shown entries, coming dates precede past ones and ascend, past ones recede, and no entry that was left out sorts before a shown one |
| `Anniversaries.Upcoming` | apps/just_right/services.py:1109-1134 | The loop over the anniversaries, the sort and the limit; the answer holds the first entries of that list, coming dates first, and leaves out none that sorts earlier |
| `Calendar.OrdinalOrder` | apps/just_right/services.py:1064-1069 | Comparing dates field by field is comparing day counts |
| `NoteTags.UntagExpand` | apps/ledger_mate/services.py:593-594 | Taking the tags out of an expanded note gives the note back exactly when no tag stands open in it, for names a tag can hold |
| `NoteNames.HeldExactly` | apps/ledger_mate/services.py:593-594 | For any two names and a note without open tag: untagging the expanded note gives the note back exactly when a tag can hold each name, that is, no line ends before its first closing bracket and what follows a bracket inside the name is again the opener of such a tag |
| `NoteTags.BracketInNameStaysBehind` | apps/ledger_mate/services.py:593-593 | With a closing bracket in the name the tag ends early and the rest of the name stays behind in the note |
| `Amounts.PriceRoundTrip` | apps/ledger_mate/services.py:504-527 | Printing cents with two places and reading them back gives the same cents for 1 to 100,000,000; every other count is refused, or raises when it is too long for the decimal context |
| `Amounts.AcceptedAmountIsExact` | apps/ledger_mate/services.py:504-527 | An accepted amount is within the limits and is exactly the number that was written, from either field |
| `Amounts.AmountExactly` | apps/ledger_mate/services.py:504-527 | A cell is accepted as this many cents exactly when it says so: a positive plain number, written to the cent or shorter, of 1 to 100,000,000 cents |
| `Amounts.WrittenIsRead` | apps/ledger_mate/services.py:504-520 | Every text of a sign or none, digits and at most one point among them is read as the number it writes |
| `Amounts.ReadWasWritten` | apps/ledger_mate/services.py:504-520 | ... and no other text is read as a number |
| `Amounts.RaisesExactly` | apps/ledger_mate/services.py:521-522 | Reading an amount raises, instead of being refused, exactly in the field for amounts and from half a cent below ten to the power of twenty-eight cents on |
| `ImportEffects.AnyRaisesExactly` | apps/ledger_mate/services.py:521-522 | A preview ends without any row exactly when some row gives, in the amount cell alone, a positive number of half a cent below ten to the power of twenty-eight cents or more |
| `ImportRows.NormalizeRows` | apps/ledger_mate/services.py:571-686 | The row loop with its fingerprint set, tied to the specification of the preview; no rows come out exactly when some row's amount raises |
| `ImportEffects.NormalizeExactly` | apps/ledger_mate/services.py:602-677 | A row is without errors exactly when kind, day and amount can be read, the category and the method, if any, are enabled ids or names of at most 30 characters, and note and expanded note hold at most 500; it then holds what the cells say, under the enabled category and method of that name if there are such |
| `ImportEffects.PreviewExactly` | apps/ledger_mate/services.py:571-686 | Row by row what the cells say, flagged exactly when a live record or an earlier row without errors says the same |
| `ImportRows.PrintMeets` | apps/ledger_mate/services.py:580-601 | The fingerprint of an error-free row is among a record's fingerprints exactly when the row describes the record; which categories and methods are enabled plays no part |
| `ImportDuplicates.FlaggedExactly` | apps/ledger_mate/services.py:678-685 | A row is flagged exactly when it has no errors and describes a live record of the user or repeats an earlier error-free row |
| `ImportDuplicates.FirstConfirmRecords` | apps/ledger_mate/services.py:754-780 | A first confirmation adds exactly one live record per imported row, in order, with the row's values under the category and method it names |
| `ImportDuplicates.FirstConfirmSucceeds` | apps/ledger_mate/services.py:754-780 | A first confirmation of rows without errors succeeds while the ids its unflagged rows settled on may still be used |
| `ImportEffects.FirstConfirmAdds` | apps/ledger_mate/services.py:754-780 | A first confirmation that succeeds has made one record for each row without flag, in order, under that row's own key and an enabled category, and none for a flagged row |
| `ImportEffects.GuardExactly` | apps/ledger_mate/services.py:736-751 | Each answer of the unlocked half read off the batch: refused for errors exactly when a row has one, for duplicates exactly when no row has an error, some row is flagged and flagged rows are not to be skipped, and every other unconfirmed batch goes on |
| `ImportEffects.ConfirmationSucceeds` | apps/ledger_mate/services.py:736-789 | In every reachable state: an unconfirmed batch without errors, and with no flagged row or flagged rows to be skipped, whose keys are unused and whose unflagged rows settled on ids that may still be used, passes the guard and is imported, with a receipt that counts its rows |
| `ImportDuplicates.OwnRecordAnswers` | apps/ledger_mate/services.py:590-601 | The record made from a row answers to that row again exactly when its note survives the tags |
| `ImportAgain.SecondPreviewFlagsAll` | apps/ledger_mate/services.py:579-685 | Previewing a confirmed file again, at any later time, flags every row duplicate, provided the notes survive and ids spelled out in the file are still enabled |
| `ImportAgain.OneRowFlaggedExactly` | apps/ledger_mate/services.py:579-685 | The proviso is needed: a one-row file imported into an empty ledger is flagged the second time exactly when its note survives |
| `ImportAgain.WhenNotesSurvive` | apps/ledger_mate/services.py:759-764 | Notes survive when no name is given; with names that hold neither bracket nor line end, exactly when no tag stands open in the note; and in a note without open tag, with any names, exactly when a tag can hold each of them |
| `ImportExport.ExportRecords` | apps/ledger_mate/services.py:795-807 | The loop over the records, one exported row each |
| `ImportExport.ExportExactly` | apps/ledger_mate/services.py:795-807 | One exported row for each live record of the user, in order, whose cells name its kind, exact amount, day, category and method |
| `ImportExport.ExportFlaggedExactly` | apps/ledger_mate/services.py:803-807 | Previewing an export flags every row, except those whose note no longer fits 500 characters once book and second-level category are spelled out; these carry that one error |
| `ImportExport.ExportReadsParts` | apps/ledger_mate/services.py:805-807 | Exporting the stored note of an imported row gives back its note, book and second-level category, for texts free of the tag syntax |
| `ImportExport.ImportedWithBookFits` | apps/ledger_mate/services.py:807-807 | A record imported with a book of its own always fits, so its exported row is always flagged |
| `ImportConfirm.ConfirmKeeps` | apps/ledger_mate/services.py:754-781 | A confirmation keeps names unique and enabled, only appends records, keeps keys unique, and returns the ids of the rows' keys in order |
| `ImportRuns.AnswersAgree` | apps/ledger_mate/services.py:736-789 | Over every interleaving of confirmations, edits, deletions and other writers, all successes ever returned for a batch are the same receipt, which accounts for every row |
| `ImportRuns.OneRecordPerRow` | apps/ledger_mate/services.py:766-778 | No row of a batch ever has two records |
| `ImportRuns.LateCommitRepeats` | apps/ledger_mate/services.py:737-753 | The status is read before the lock and not again: a late confirmation succeeds exactly when no record of the batch was deleted, writes no record and returns the same receipt; otherwise it changes nothing |
| `ImportRuns.CommitIsAtomic` | apps/ledger_mate/services.py:752-792 | A commit is all or nothing |
| `ImportService.ImportDb.PreviewImport` | apps/ledger_mate/services.py:702-709 | A preview brings the default categories and methods up to date and stores the rows, each what its cells say and flagged exactly when it is a duplicate, as a new batch, in one transaction of which nothing is left when a row raises; records are not touched |
| `ImportService.ImportDb.CategoryFor` | apps/ledger_mate/services.py:712-721 | The category of that kind and name is enabled, or added when there is none, and nothing else changes |
| `ImportService.ImportDb.ConfirmOne` | apps/ledger_mate/services.py:758-781 | One pass of the loop, tied to the specification |
| `ImportService.ImportDb.ConfirmImport` | apps/ledger_mate/services.py:736-792 | The guard, the loop and the rollback as written: each refusal exactly on its condition on the rows and without effect; a batch that goes on with unused keys and usable ids is imported, one record for each row without flag |
| `RepairConvergence.ColumnRepaired` | repair_migration_state.py:247-275 | After the planned statements a column fits its spec with nothing left to state |
| `RepairConvergence.TableRepaired` | repair_migration_state.py:242-298 | A planned table passes the same checks afterwards: columns, keys, and no unknown unique index |
| `RepairConvergence.IndexesRepaired` | repair_migration_state.py:299-313 | Every expected index is there, matching and ready, afterwards |
| `RepairConvergence.SeedsRepaired` | repair_migration_state.py:170-184 | After the insert no default template is missing and no id clashes |
| `RepairConvergence.MissingInserted` | repair_migration_state.py:333-337 | All missing templates go in, one new row each |
| `RepairSchema.PlanExactly` | repair_migration_state.py:187-313 | Against a description that does not use the planner (types, nullability with its exception, defaults, keys, indexes, templates): a plan is made exactly at the base revision for a schema that differs by nothing but the icon width, the listed missing defaults, the two repairable indexes and missing templates, or at the target revision for one that does not differ; it is empty exactly when nothing differs |
| `RepairRuns.PlanRuns` | repair_migration_state.py:330-332 | A planned list runs to its end exactly when the names of its new indexes are free in the whole schema |
| `RepairRuns.RepairConverges` | repair_migration_state.py:316-350 | For every schema the planner accepts: applying succeeds exactly when it is at the target already or those names are free; it then ends at the target with an empty plan, and a second apply changes nothing |
| `RepairSchema.RepairEndsConforming` | repair_migration_state.py:316-350 | Applying to such a schema, while no relation has the name of a missing index, ends at the target revision with everything the migrations describe; every other schema is refused |
| `RepairRuns.ApplyKeepsTheRest` | repair_migration_state.py:316-350 | Applying changes only column types, column defaults and added indexes, appends the missing templates and sets the version |
| `RepairRuns.TakenNameIsAccepted` | repair_migration_state.py:299-332 | For every manifest and every schema at the base revision whose plan creates an index: the same schema with a relation of that name elsewhere is planned the same, and applying the plan fails |
| `RepairService.Connection.PlanNow` | repair_migration_state.py:187-313 | The planner's loops as written: a plan exactly when the schema differs from the migrations by nothing but what may be repaired, and nothing to do exactly when it does not differ |
| `RepairService.Connection.FindMissing` | repair_migration_state.py:170-184 | The scan for missing templates as written: exactly those whose kind and name no stored template has |
| `RepairService.Connection.Apply` | repair_migration_state.py:316-350 | The transaction as written: it ends at the target revision with everything the migrations describe, exactly for the schemas that can be repaired, and otherwise changes nothing |

## Left out

- AiRequests: the model call, prompt, history query and model timeout are one nondeterministic answer; messages and sessions are never deleted, because no code path deletes them.
- Recover: the rows come in the scan's order, by update time and id, as the database sorts them, and texts are compared bytewise.
- AiRefinement: a record that another writer stored earlier under a request's own key is found and kept instead of being replaced, as the code does; the specification says so instead of excluding it.
- WalletRuns: each service call is one serialised transaction on fresh rows; the code takes no row locks there, so races between two calls are not covered.
- RestorePoints: the branches for a missing grant and for an empty allocation are modelled, but no run reaches them, since grants are never removed and frozen points always have an allocation.
- PollTask: uploading the remote image and the progress estimate are foreign; an upstream success without an image counts as a failure, as in the code.
- RefundOrderPoints: the order row, its status and the fallback amount for a missing product are parameters.
- DailySignIn: an hour of 0 cannot be configured, because the code replaces it by 12; the hour is fixed over a run; concurrent requests of one user, against which the code takes no lock, are not covered; and the grants of the registration bonus are other wallet operations.
- Sms: phone number syntax and the provider's answer are not modelled; a submitted text that is not four digits is refused before the first command and is not a step; malformed stored sessions cannot occur, since one place writes them.
- RotatesExactlyTheLiveToken: tokens that this server never signed do not decode; access tokens and scope names are not modelled.
- CoupleService: calls are serialised and invite codes are arbitrary drawn strings; anniversaries of a couple are not part of its state.
- Upcoming: the limit is a natural number, so Python's negative slice is not modelled.
- ImportRows: rows start as cells that denote a value or do not; column aliases, CSV and JSON syntax, date and UUID text, warnings and the words of messages are not modelled. Names in the tables are trimmed and unique, as the schema and every writer keep them.
- ImportAmount: only plain decimal notation is read as a number; exponents, underscores and non-ASCII digits, which Python's Decimal accepts, count as no number. Rounding the product to the context before rounding it to cents changes no result.
- PriceRoundTrip: no stored record holds more cents than the limit; beyond it the text printed by the code is rounded.
- WhenNotesSurvive: for a note with an open tag together with a name that holds brackets or line ends, survival is not characterised beyond its definition.
- SecondPreviewFlagsAll: template synchronisation may disable any category between the previews, which the theorem allows; a category id spelled out in the file must still be enabled, or the row is an error.
- ExportRecords: date, type, category and keyword filters and the sort by time only choose and order rows; the file's text format is not modelled.
- ImportRuns: batches of one user; two different batches that create the same category at the same instant are not interleaved within a transaction.
- RepairPlan: column defaults are compared in normalised form, and a default that was set is reported back as set; CHECK, exclusion, deferrable and unvalidated constraints are flags, and PostgreSQL refuses a statement only for a missing table or column or a taken name.
- RepairConverges: the manifest has distinct names, its repairable indexes are plain, and its templates have distinct ids and names, as the pinned migrations have.
- `confirm_ai_drafts`, `update_record`, `resolve_range`, VIP state, payment notification, gallery, progress simulation, memos, wishlists and the other applications would only add easy members.
