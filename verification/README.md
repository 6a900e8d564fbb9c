# BTX consent machinery: a Dafny model and its proofs

This project models the consent service, its audit log, outbox, broker and expiry job as one step system,
and beside it the Merkle commitment, the policy engine, the idempotency cache and the federation sync.
`dafny verify dfyconfig.toml` checks all of it.

## How the model is built

**Step systems.** `Consents`, `Outbox`, `Idempotency`, `Policy` and `Federation` each define a state, an action
type, `Step` and `Run`. One action is one SQL statement, one in-process decision between two awaits, or one
event of the environment; an action that is not enabled does nothing. The reachable states are the results of
`Run` over all lists of actions, so a theorem about `Run` covers any number of requests and pods, every
interleaving, and a failure or crash at every await. `System` composes consents and outbox.

**The code in its own form.** `ConsentService`, `ExpiryJob`, `OutboxPublisher`, `PolicyPlugin`,
`IdempotencyPlugin`, `FederationRepository` and `FederationService` are classes whose methods follow the source
statement by statement, update the tables in place and loop where it loops. At every await a `World` parameter
lets everybody else take any steps and decides whether the awaited statement throws. A ghost trace shows that
each execution is a run of the step system, so the theorems about runs hold at every await of these methods. In
addition each method states what it does when undisturbed (`Quiet`, `OneWorker`).

**Files.** `Std` counting and ORDER BY ... LIMIT; `Text` decimal numerals and splitting; `Consents` the core step
system; `ConsentInvariants` status rules, conservation, audit rows; `Expiry` lock, at-most-once expiry, tick
results; `ExpiryLimits` exact conditions and runs for what does not hold; `ConsentService`, `ExpiryJob` the
imperative form; `Outbox`, `OutboxOrder`, `OutboxPublisher` delivery; `System`, `SystemOrder` the composition;
`Days`, `Merkle` the daily commitment; `Policy`; `Idempotency`, `Retries`; `Federation`.

## Assumptions

- A statement that throws has no effect. A crash of a pod ends its calls where they stand and closes its
  database sessions, which frees a lock they hold; it is a `Fail` for each of its calls followed by `Crash`, so a
  statement in flight has taken effect or been dropped by the time the lock is free.
- `Activate` turns PENDING into ACTIVE; `create` inserts PENDING and nothing in the repository activates a consent.
- Each database session belongs to one pod. `ExpiryTheorem` also asks that the session that holds the lock is not
  closed while its pod is between lock and unlock; `ClosedSessionExpiresTwice` shows that this is needed.
- `result[i]` of `sendBatch` refers to `pending[i]`, and a record reported without error is in the broker log.
- A hook that calls `reply.send` ends the request, and a hook that throws makes the framework send its error reply.
- SHA-256, signature checks and `verifyAuditChain` are arbitrary: functions about which nothing is assumed,
  or a free answer per call.
- Numbers in a policy context are never NaN. A policy payload may lack its rules, or hold null, values
  without an id and rules without `when` among them; a `when` has the shape that the source declares.

## Where the code differs from its comments

- `expiry-job.ts:15-16` says that status and audit row are written in the same transaction. They are two, for
  all call sites, and `ConservationTheorem` counts the calls between them.
- `migrations/001_init_consents.sql:28` declares `actor_node_id UUID NOT NULL`, and `expiry-job.ts:5` passes
  `'system:expiry-job'`. Under this schema (`strictActor`) the audit INSERT of every expiry is refused after the
  consent was set EXPIRED: no expiry is audited or announced (`UuidColumnLosesExpiries`). All theorems hold with
  the column as declared and with one that takes any text.
- `expiry-job.ts:18-19` says the lock makes the job safe in every deployment. Lock and unlock go to the pool
  separately, so an undisturbed tick that finds the lock free leaves it held exactly when it unlocks another
  session than it locked (`Tick`, `LockLeaks`, `LeakedLockStarves`).
- REVOKED is not final: an `expireOne` that read the consent before the revocation overwrites it
  (`RevokedIsNotFinal`). It is final exactly when no such `expireOne` is about to write (`RevokedIsFinalExactlyWhen`).
- `consent-service.ts:167` says that a query writes no outbox row; it does, and the model follows the code.
- `created_at` is the start of the transaction, so the ids of a day can still change after midnight, exactly
  while a transaction begun on that day is open (`DayIsFinalExactlyWhenClosed`).
- The Merkle tree pairs an odd last node with itself and does not mark leaves, unlike section 2.1 of RFC 6962;
  which lists share a root is stated exactly (`RootsAgreeExactly`). For `merkleRoot` that includes lists of different
  length, and lists of inner nodes; the daily root of distinct ids does bind the ids and their number
  (`DayRootBinds`).
- A ':' in the url or inside the key lets two requests share an entry (`StorageKeyIsOwnExactlyWhen`), and every
  reply of a handler is stored and replayed, error replies included.
- `policy/src/index.ts:96` calls the load fail-closed. A verified payload whose rules cannot be indexed still becomes
  the bundle in force while the old rules decide (`MalformedPayloadSplits`); every allow comes from a verified
  payload all the same (`FailClosedTheorem`).
- Sync cursors are not monotone (`CursorDropsExactly`), and a failed sync may have moved its cursor, exactly
  when the verified mark threw (`RowTheorem`).

## Model

| member | source | states |
|---|---|---|
| `ConsentInvariants.ConsentStatusTheorem` | btx-repo/services/control-plane/src/adapter/db/repository.ts:10-47 | Over every run and every continuation: the consents table is the replay of its committed changes, status is REVOKED exactly when revoked_at is set, EXPIRED only with a past expires_at, expires_at never changes, and a REVOKED or EXPIRED consent is never PENDING or ACTIVE again |
| `ConsentInvariants.ConservationTheorem` | btx-repo/services/control-plane/src/domain/consent-service.ts:55-141 | Over every run, per consent and per kind: the number of status writes equals the committed audit rows, plus the calls now between write and COMMIT, plus the calls that failed or crashed there; so the audit log never runs ahead of the state |
| `ConsentInvariants.Reachable` | btx-repo/services/control-plane/src/adapter/db/repository.ts:91-136 | In every reachable state each audit row is that of exactly one finished call with the same consent, actor and kind, and each finished call has exactly one row |
| `ConsentInvariants.RunLater` | btx-repo/services/control-plane/src/adapter/db/repository.ts:38-47 | Along every run consents are never removed and their parties and expires_at never change |
| `ConsentInvariants.StepKeepsStatuses` | btx-repo/services/control-plane/src/adapter/db/repository.ts:38-47 | No statement of any call breaks the status rules, although updateStatus has no condition on the current status |
| `ConsentInvariants.StepKeepsReplay` | btx-repo/services/control-plane/src/adapter/db/repository.ts:38-47 | The change history determines the table, row by row |
| `ConsentInvariants.TerminalForever` | btx-repo/services/control-plane/src/adapter/db/repository.ts:38-47 | From any state, REVOKED and EXPIRED consents stay in these two statuses along every continuation |
| `ConsentInvariants.StatementKeepsBalance` | btx-repo/services/control-plane/src/domain/consent-service.ts:55-82 | What one statement takes from one of the accounts written, in flight, audited and lost it adds to another |
| `ConsentInvariants.StepKeepsConserved` | btx-repo/services/control-plane/src/domain/consent-service.ts:114-141 | The conservation equation is kept by every step of every request, pod and environment event |
| `ConsentInvariants.StepKeepsRows` | btx-repo/services/control-plane/src/adapter/db/repository.ts:99-129 | Every step keeps finished calls and audit rows in one-to-one correspondence: a COMMIT adds exactly one row, for a call that had none |
| `ConsentInvariants.StepKeepsWellFormed` | btx-repo/services/control-plane/src/adapter/jobs/expiry-job.ts:59-87 | A consent the job scanned stays overdue, and a call about to write or append targets an existing consent |
| `Expiry.ExpiryTheorem` | btx-repo/services/control-plane/src/adapter/jobs/expiry-job.ts:48-110 | With any number of pods, any pooled sessions for lock and unlock, racing revokes, failures and crashes: at most one pod is between lock and unlock, and each consent is set EXPIRED at most once and gets at most one consent.expired audit row, as long as the session that holds the lock is not closed between lock and unlock |
| `Expiry.TickResultTheorem` | btx-repo/services/control-plane/src/adapter/jobs/expiry-job.ts:48-81 | The count tick returns is the number of consent.expired rows that tick committed, at most 500, whatever fails or interleaves, and stays equal to it in every later state |
| `Expiry.UuidColumnLosesExpiries` | btx-repo/services/control-plane/migrations/001_init_consents.sql:28 | With the column as the migration declares it, the literal actor of the job is refused: no expiry is ever audited, every tick that returns gives 0, and each EXPIRED write is in flight or lost |
| `Expiry.StepKeepsLock` | btx-repo/services/control-plane/src/adapter/jobs/expiry-job.ts:53-76 | A pod inside its scan holds the advisory lock on one of its own sessions |
| `Expiry.StepKeepsLive` | btx-repo/services/control-plane/src/adapter/jobs/expiry-job.ts:67-73 | Every unfinished expireOne is the current row of a looping tick, and that tick waits for it |
| `Expiry.StepKeepsOneWriter` | btx-repo/services/control-plane/src/adapter/jobs/expiry-job.ts:83-87 | Once an expireOne has written a consent, no other one has written it or is about to |
| `Expiry.StepKeepsWroteTerminal` | btx-repo/services/control-plane/src/adapter/jobs/expiry-job.ts:84-87 | A consent that an expireOne wrote is never ACTIVE again, so a later scan or read skips it |
| `Expiry.StepKeepsExpiries` | btx-repo/services/control-plane/src/adapter/jobs/expiry-job.ts:87 | Every change to EXPIRED belongs to a different expireOne |
| `Expiry.RowsOfTickAfter` | btx-repo/services/control-plane/src/adapter/jobs/expiry-job.ts:89-108 | Only the COMMIT of one of its own rows changes the number of audit rows of a tick |
| `Expiry.StepKeepsTicks` | btx-repo/services/control-plane/src/adapter/jobs/expiry-job.ts:51-80 | Every step keeps the running count of each tick equal to the rows it has committed, up to the row just finished |
| `Expiry.SafeReachable` | btx-repo/services/control-plane/src/adapter/jobs/expiry-job.ts:48-110 | The invariants behind the expiry theorem hold in every reachable state, as long as the lock-holding session of a pod in its section stays open |
| `ExpiryLimits.RevokedIsFinalExactlyWhen` | btx-repo/services/control-plane/src/adapter/jobs/expiry-job.ts:84-87 | From every well-formed state, a revoked consent stays REVOKED along every continuation exactly when no expireOne that read it as ACTIVE before is still about to write it |
| `ExpiryLimits.FinallyRevokedForever` | btx-repo/services/control-plane/src/adapter/jobs/expiry-job.ts:84-87 | Once no such expireOne is left, none ever begins to write the consent again |
| `ExpiryLimits.RevokedLostExactlyByRacingExpiry` | btx-repo/services/control-plane/src/adapter/jobs/expiry-job.ts:84-87 | The one step that takes a consent out of REVOKED: the UPDATE of such an expireOne, which also clears revoked_at |
| `ExpiryLimits.RevokedIsNotFinal` | btx-repo/services/control-plane/src/adapter/jobs/expiry-job.ts:84-87 | A complete run in which no session is closed and in which a REVOKED consent ends EXPIRED without revoked_at |
| `ExpiryLimits.ClosedSessionExpiresTwice` | btx-repo/services/control-plane/src/adapter/jobs/expiry-job.ts:55-76 | Why the lock-holding session must stay open: a run that closes it in the middle of a tick commits two consent.expired rows for one consent |
| `ExpiryLimits.LockLeaks` | btx-repo/services/control-plane/src/adapter/jobs/expiry-job.ts:55-76 | A faultless run with no overdue consent after which no tick runs and the lock is still held |
| `ExpiryLimits.LeakedLockStarves` | btx-repo/services/control-plane/src/adapter/jobs/expiry-job.ts:55-56 | While an idle pod is left holding the lock, no other pod ever gets into its scan, and every tick that returns returns 0 |
| `ConsentService.Database.Perform` | btx-repo/services/control-plane/src/adapter/db/repository.ts:10-136 | The database always is the result of a run of the step system, so the theorems about runs hold at every await of the methods below |
| `ConsentService.Database.Others` | btx-repo/services/control-plane/src/domain/consent-service.ts:42-92 | What other requests, pods and the environment do at an await leaves the control point of the waiting call alone |
| `ConsentService.Database.Create` | btx-repo/services/control-plane/src/adapter/db/repository.ts:10-28 | Inserts one PENDING row with the given parties and expires_at, or throws without effect; the new id is the position of that row |
| `ConsentService.Database.UpdateStatus` | btx-repo/services/control-plane/src/adapter/db/repository.ts:38-47 | Sets status and revoked_at of exactly the given row, clearing revoked_at when no date is passed, or throws without effect |
| `ConsentService.Database.GetById` | btx-repo/services/control-plane/src/adapter/db/repository.ts:30-36 | The row as of the statement, or none when it is missing |
| `ConsentService.Database.OpenTransaction` | btx-repo/services/control-plane/src/adapter/db/repository.ts:95-113 | BEGIN and the audit INSERT: afterwards the transaction waits for its outbox row, or it was rolled back |
| `ConsentService.Database.CloseTransaction` | btx-repo/services/control-plane/src/adapter/db/repository.ts:116-133 | The outbox INSERT and COMMIT: afterwards the call is committed, or it was rolled back |
| `ConsentService.Database.AppendInTransaction` | btx-repo/services/control-plane/src/adapter/db/repository.ts:91-136 | Succeeds exactly when the call is committed; touches no consent, clock, lock or tick |
| `ConsentService.ConsentService.Authorize` | btx-repo/services/control-plane/src/domain/consent-service.ts:43-53 | A denied or failing policy check ends the call before any write |
| `ConsentService.ConsentService.Grant` | btx-repo/services/control-plane/src/domain/consent-service.ts:42-92 | Under any interference: success exactly when the log holds the one audit row of this call, a consent.granted one about the new consent with the given actor; the consent has the given parties and expires_at. Undisturbed: exactly the statements of a grant, and one new PENDING consent if allowed, none if denied |
| `ConsentService.ConsentService.CreateAndAudit` | btx-repo/services/control-plane/src/domain/consent-service.ts:55-82 | The two separate transactions of grant; undisturbed the consent stays even if the audit is refused |
| `ConsentService.ConsentService.Revoke` | btx-repo/services/control-plane/src/domain/consent-service.ts:97-151 | Under any interference: success exactly when the log holds the one audit row of this call, a consent.revoked one about the given consent with the given actor. Undisturbed: exactly the given consent becomes REVOKED, and a denied or unknown one throws and changes nothing |
| `ConsentService.ConsentService.Query` | btx-repo/services/control-plane/src/domain/consent-service.ts:156-187 | Only a party of the consent gets it, and success exactly when the log holds the one audit row of this call, a consent.queried one about that consent that names the requestor; undisturbed the answer is the stored consent and no consent changes |
| `ConsentService.DoneIsAudited` | btx-repo/services/control-plane/src/adapter/db/repository.ts:99-113 | The log holds exactly one row of a finished call, with its kind, its consent and its actor |
| `ConsentService.FinalOutcome` | btx-repo/services/control-plane/src/domain/consent-service.ts:42-187 | A finished request has succeeded exactly when the log holds its audit row |
| `ExpiryJob.ConsentExpiryJob.ExpireOne` | btx-repo/services/control-plane/src/adapter/jobs/expiry-job.ts:83-110 | Returns true exactly when its audit row is committed; undisturbed, an overdue active consent is EXPIRED with no revoked_at and nothing else changes |
| `ExpiryJob.ConsentExpiryJob.ProcessRow` | btx-repo/services/control-plane/src/adapter/jobs/expiry-job.ts:67-73 | A row that throws is skipped and not counted, and the loop goes on with the next one; a counted one has exactly one audit row, a consent.expired one about that consent with the literal actor of the job |
| `ExpiryJob.ConsentExpiryJob.TryLock` | btx-repo/services/control-plane/src/adapter/jobs/expiry-job.ts:55-56 | Continues exactly when the lock was granted, which an undisturbed one is exactly when it is free or held by that same session; otherwise the tick is over with result 0 |
| `ExpiryJob.ConsentExpiryJob.SelectOverdue` | btx-repo/services/control-plane/src/adapter/jobs/expiry-job.ts:59-65 | Undisturbed: at most 500 distinct rows, each ACTIVE with expires_at before now, in ascending expires_at; an overdue ACTIVE consent that is not listed means 500 listed ones, none with a later expires_at |
| `ExpiryJob.ScanColumns` | btx-repo/services/control-plane/src/adapter/jobs/expiry-job.ts:59-65 | The same of any answer of the scan, in the columns of the table |
| `ExpiryJob.ExpiryColumns` | btx-repo/services/control-plane/src/adapter/jobs/expiry-job.ts:67-73 | Expiring the answer changes overdue ACTIVE consents alone, to EXPIRED without revoked_at, and leaves none of at most 500 behind |
| `ExpiryJob.ConsentExpiryJob.Release` | btx-repo/services/control-plane/src/adapter/jobs/expiry-job.ts:75 | The tick ends and, unless the unlock throws, returns its count |
| `ExpiryJob.ConsentExpiryJob.ScanAndExpire` | btx-repo/services/control-plane/src/adapter/jobs/expiry-job.ts:58-73 | Undisturbed, expires exactly the scanned rows |
| `ExpiryJob.ConsentExpiryJob.Locked` | btx-repo/services/control-plane/src/adapter/jobs/expiry-job.ts:58-76 | Scan, loop and the unlock that runs on every path; undisturbed the scanned rows are expired and the lock is released on the session handed out |
| `ExpiryJob.ConsentExpiryJob.Tick` | btx-repo/services/control-plane/src/adapter/jobs/expiry-job.ts:48-81 | Skips while its previous tick runs; otherwise returns the number of rows it committed, at most 500, and resets running on every path. Undisturbed, with any two pooled sessions: with the lock granted it expires exactly the scanned rows, without it nothing changes; every changed consent was ACTIVE with expires_at before now and is EXPIRED without revoked_at, and if at most 500 such consents there were, none is left; from a free lock, the lock is free afterwards exactly when lock and unlock got the same session |
| `ExpiryJob.BacklogShrinks` | btx-repo/services/control-plane/src/adapter/jobs/expiry-job.ts:59-73 | Expiring the scanned rows lowers the number of overdue consents by exactly min(500, k) |
| `ExpiryJob.RunTimer` | btx-repo/services/control-plane/src/adapter/jobs/expiry-job.ts:33-38 | With any pooled sessions, n undisturbed ticks of which g get the lock leave max(0, k - 500 g) of k overdue consents; all get it when the lock session stays the same or each tick unlocks the session it locked, and then no ACTIVE consent has expires_at before now if at most 500 n had |
| `Outbox.DeliveryTheorem` | btx-repo/services/control-plane/src/adapter/kafka/outbox-publisher.ts:85-127 | With any number of interleaved publishers, crashes and per-record errors: a row with published_at set has its id in the log, and every logged record tells the id, type, key and original payload of the one row with that id |
| `Outbox.DeliveringReachable` | btx-repo/services/control-plane/src/adapter/kafka/outbox-publisher.ts:85-127 | The delivery invariant, with distinct row ids, in every reachable state |
| `Outbox.KeptSince` | btx-repo/services/control-plane/src/adapter/db/repository.ts:192-204 | No row is ever lost or altered, published_at is never unset, and the log only grows |
| `Outbox.SendKeepsDelivering` | btx-repo/services/control-plane/src/adapter/kafka/outbox-publisher.ts:113-117 | A batch that lands in part, with or without a throw, puts only true records in the log |
| `Outbox.StepKeepsRows` | btx-repo/services/control-plane/src/adapter/db/repository.ts:192-204 | markPublished, markFailed and new rows leave every event as it was |
| `OutboxOrder.PrefixTheorem` | btx-repo/services/control-plane/src/adapter/kafka/outbox-publisher.ts:85-127 | One worker, all-or-nothing sends without per-record errors, rows visible in strict created_at order: at every await, across crashes and arrivals, the log without repeated idempotency keys is a prefix of the outbox and the published rows are a prefix of that |
| `OutboxOrder.OldestIsNext` | btx-repo/services/control-plane/src/adapter/db/repository.ts:184-190 | Under these conditions the query returns the first unpublished rows in order |
| `OutboxOrder.DedupStretch` | btx-repo/services/control-plane/src/adapter/kafka/outbox-publisher.ts:92-110 | Resending a stretch that begins within what was seen adds only what lies beyond it |
| `OutboxOrder.SeenAfterSend` | btx-repo/services/control-plane/src/adapter/kafka/outbox-publisher.ts:113-117 | After a send that landed, consumers have seen at least up to the end of the batch |
| `OutboxOrder.MarkInOrder` | btx-repo/services/control-plane/src/adapter/kafka/outbox-publisher.ts:120-126 | Each mark publishes exactly the first unpublished row |
| `OutboxOrder.FetchInOrder` | btx-repo/services/control-plane/src/adapter/db/repository.ts:184-190 | A fetch starts a drain at the first unpublished row |
| `OutboxPublisher.DrainAdvances` | btx-repo/services/control-plane/src/adapter/kafka/outbox-publisher.ts:85-127 | An error-free drain publishes a given row or a full batch of 100 of those ahead of it, however many newer rows arrive |
| `OutboxPublisher.DrainLowersPending` | btx-repo/services/control-plane/src/adapter/kafka/outbox-publisher.ts:119-126 | A drain lowers the number of pending rows, arrivals aside, by exactly the number of error-free results among the oldest 100 |
| `OutboxPublisher.MarkNext` | btx-repo/services/control-plane/src/adapter/kafka/outbox-publisher.ts:120-126 | One round of the marking loop marks exactly the row of the next batch position |
| `OutboxPublisher.OutboxPublisher.GetPending` | btx-repo/services/control-plane/src/adapter/db/repository.ts:184-190 | At most 100 distinct unpublished rows in ascending created_at; an unpublished row that is not listed means 100 listed ones, none created later |
| `Outbox.PendingColumns` | btx-repo/services/control-plane/src/adapter/db/repository.ts:184-190 | The same of any answer of the query, in the columns of the table |
| `OutboxPublisher.OutboxPublisher.Publish` | btx-repo/services/control-plane/src/adapter/kafka/outbox-publisher.ts:112-117 | After a throw the drain is over; otherwise the marking starts with the reported errors; undisturbed and without errors the log grows by one record per row, in order, with its id, type, key and payload |
| `OutboxPublisher.OutboxPublisher.MarkBatch` | btx-repo/services/control-plane/src/adapter/kafka/outbox-publisher.ts:119-126 | Without failures exactly the batch rows without a reported error become published |
| `OutboxPublisher.OutboxPublisher.DrainOnce` | btx-repo/services/control-plane/src/adapter/kafka/outbox-publisher.ts:85-127 | With one worker and no failure: a drain marks exactly the error-free rows of the oldest pending ones and changes no other row |
| `OutboxPublisher.OutboxPublisher.MarkNextRow` | btx-repo/services/control-plane/src/adapter/kafka/outbox-publisher.ts:120-126 | A round that throws ends the drain; undisturbed, the row of the batch is published, or with an error keeps its payload with _error set to the message, and no other row changes |
| `OutboxPublisher.OutboxPublisher.Round` | btx-repo/services/control-plane/src/adapter/kafka/outbox-publisher.ts:57-63 | One error-free round publishes a given row or takes a full batch off those ahead of it, and never unpublishes it |
| `OutboxPublisher.OutboxPublisher.Start` | btx-repo/services/control-plane/src/adapter/kafka/outbox-publisher.ts:53-80 | Nothing while running; else rounds follow each other until stop() has cleared the flag, and with one worker and error-free drains a row with r older pending rows is published and in the log after floor(r/100) + 1 rounds |
| `OutboxPublisher.OutboxPublisher.Stop` | btx-repo/services/control-plane/src/adapter/kafka/outbox-publisher.ts:74-80 | Only clears the flag: a drain in progress is not interrupted |
| `System.CorrespondenceTheorem` | btx-repo/services/control-plane/src/adapter/db/repository.ts:91-136 | Audit rows and outbox rows correspond one to one by transaction, with equal event type, consent and stamp, and ids are unique, for every call site, failure point and interleaving |
| `System.NothingAnnouncedThatDidNotHappen` | btx-repo/services/control-plane/src/adapter/kafka/outbox-publisher.ts:92-110 | Behind each broker record is a committed audit row of its type and consent, and behind each such row a status write |
| `System.ExpiryAnnouncedOnce` | btx-repo/services/control-plane/src/adapter/kafka/outbox-publisher.ts:92-110 | A consumer that drops repeated idempotency keys sees at most one consent.expired per consent, across all pods and publishers |
| `SystemOrder.AuditLogIsReplayed` | btx-repo/services/control-plane/src/adapter/kafka/outbox-publisher.ts:85-127 | In the whole system, if every commit carries a later stamp than all earlier ones, with one publisher and all-or-nothing sends: what a consumer that drops repeated idempotency keys keeps announces exactly the first rows of the audit log, in order, at every point and across crashes |
| `SystemOrder.OrderlyParts` | btx-repo/services/control-plane/src/adapter/db/repository.ts:184-190 | Commits in stamp order make the outbox part of the run orderly |
| `SystemOrder.FirstSeenIsDedup` | btx-repo/services/control-plane/src/adapter/kafka/outbox-publisher.ts:104-107 | Dropping records by idempotency key keeps the first of each |
| `System.AuditBehind` | btx-repo/services/control-plane/src/adapter/db/repository.ts:99-126 | Each broker record leads to the audit row that its own transaction committed |
| `System.LinkedReachable` | btx-repo/services/control-plane/src/adapter/db/repository.ts:99-126 | Serial numbers are used at most once, and the two tables grow in step, in every reachable state |
| `System.Parts` | btx-repo/services/control-plane/src/adapter/db/repository.ts:128 | The composed system projects to a run of the consent machinery and a run of the outbox |
| `System.StatementKeepsAuditSerials` | btx-repo/services/control-plane/migrations/001_init_consents.sql:25 | A drawn audit id is never drawn again, even if its transaction rolls back |
| `System.StatementKeepsOutboxSerials` | btx-repo/services/control-plane/migrations/001_init_consents.sql:47 | A drawn outbox id is never drawn again, even if its transaction rolls back |
| `Days.DayIsFinalExactlyWhenClosed` | btx-repo/services/control-plane/src/domain/consent-service.ts:206-211 | created_at is the start of the transaction: once a day is over, its list of audit ids is the same in every later state exactly when no transaction begun on that day is still open |
| `Days.ClosedDayIsFinal` | btx-repo/services/control-plane/src/domain/consent-service.ts:199-231 | A closed day has the same ids and the same Merkle root in every later state of every run |
| `Days.ComputeDailyMerkleRoot` | btx-repo/services/control-plane/src/domain/consent-service.ts:199-231 | The root of the ids of exactly the rows stamped within the 86400000 milliseconds of that UTC day, in ascending order |
| `Days.EachEventHasOneDay` | btx-repo/services/control-plane/src/domain/consent-service.ts:200-211 | In every reachable state each audit event is among the leaves of exactly one UTC day |
| `Days.DayRootBinds` | btx-repo/services/control-plane/src/domain/consent-service.ts:199-231 | The daily root binds the set of audit ids of a day, its size included: two days of one log or of two with one root have the same ids or give a SHA-256 collision |
| `Days.AscendingHasNoCopies` | btx-repo/services/control-plane/src/domain/consent-service.ts:206-211 | A list without repeated ids is never the same as another one up to copies only |
| `Days.AscendingIsUnique` | btx-repo/services/control-plane/src/domain/consent-service.ts:209 | ORDER BY id determines the leaf list |
| `Days.OpenTransactionChangesDay` | btx-repo/services/control-plane/src/adapter/db/repository.ts:97-128 | A transaction open over midnight can still add an id to the past day |
| `Merkle.MerkleLoop` | btx-repo/pkg/audit/src/index.ts:72-81 | Ends after exactly ceil(log2 n) rounds with between n - 1 and n - 1 + ceil(log2 n) hashes, and computes the level-by-level root |
| `Merkle.NextLevel` | btx-repo/pkg/audit/src/index.ts:74-79 | One level: neighbours joined, an odd last node with itself |
| `Merkle.RootIsTree` | btx-repo/pkg/audit/src/index.ts:69-82 | The loop computes the recursive balanced tree of least depth in which a missing right half copies the left |
| `Merkle.TreeFromBelow` | btx-repo/pkg/audit/src/index.ts:73-80 | Joining neighbours first leaves the balanced tree the same |
| `Merkle.CeilLog2IsLeast` | btx-repo/pkg/audit/src/index.ts:73-81 | The number of rounds is the least depth with room for all leaves |
| `Merkle.PathRebuildsRoot` | btx-repo/pkg/audit/src/index.ts:69-82 | From every leaf, folding in its sibling at each level, ceil(log2 n) of them, gives the root |
| `Merkle.Collision` | btx-repo/pkg/audit/src/index.ts:74-78 | From two different lists of equal length with one root: two different node pairs with one join |
| `Merkle.DigestRootBinds` | btx-repo/pkg/audit/src/index.ts:69-82 | Two different lists of equally many 32-byte hashes with one root give two different 64-byte inputs with one SHA-256 value |
| `Merkle.RootsAgreeExactly` | btx-repo/pkg/audit/src/index.ts:69-82 | For lists of any two lengths: aligned lists (equal once copies are written out, at the height of the lower one) share their root, and lists that share it are aligned or give two different node pairs with one join |
| `Merkle.DigestRootsAgreeExactly` | btx-repo/pkg/audit/src/index.ts:69-82 | The same for lists of 32-byte hashes, with two different 64-byte inputs of one SHA-256 value as the alternative |
| `Merkle.EmptyRootAgreesExactly` | btx-repo/pkg/audit/src/index.ts:70 | No hashes share their root with exactly one other list, that of the hash of nothing, or a 64-byte input has the SHA-256 value of the empty one |
| `Merkle.UpHasSameRoot` | btx-repo/pkg/audit/src/index.ts:72-81 | No mark tells inner nodes from leaves: every level of a tree has its root |
| `Merkle.PaddedHasSameRoot` | btx-repo/pkg/audit/src/index.ts:77 | Writing out the copies that fill the tree does not change the root |
| `Merkle.HexRootsAgreeExactly` | btx-repo/services/control-plane/src/domain/consent-service.ts:213-230 | For id lists of any two lengths below 2^63: lists that are the same up to copies share their root, and lists that share it are the same up to copies or give a SHA-256 collision, since a leaf hashes at most 19 characters and a node 128 |
| `Merkle.OtherHeightCollision` | btx-repo/services/control-plane/src/domain/consent-service.ts:215-224 | Id lists whose trees differ in height share a root only with a SHA-256 collision |
| `Merkle.HexRootBinds` | btx-repo/services/control-plane/src/domain/consent-service.ts:213-230 | Two different days of equally many audit ids with one root give a SHA-256 collision, through decimal text and hex strings |
| `Merkle.RepeatedLastLeaf` | btx-repo/pkg/audit/src/index.ts:77 | The smallest instance: an odd list has the root of the list that repeats its last leaf |
| `Merkle.MerkleRoot` | btx-repo/pkg/audit/src/index.ts:69-82 | On any strings: the hex text of the recursive tree whose nodes are SHA-256 of the left half followed by the right one, over the decoded leaves; a verifier that hashes sibling and node, or node and sibling, by position rebuilds it from every leaf with ceil(log2 n) siblings; the hash of nothing for no strings |
| `Merkle.HexMerkleRoot` | btx-repo/services/control-plane/src/domain/consent-service.ts:213-230 | The recursive tree whose nodes are the hex SHA-256 of the text of the left half followed by that of the right one, over the hashes of the numerals of the ids; a verifier rebuilds it from every id; the hash of nothing for no ids |
| `Merkle.HexAt` | btx-repo/pkg/audit/src/index.ts:81 | Hex text has two lower-case digits per byte, the high half first |
| `Merkle.DecodeHex` | btx-repo/pkg/audit/src/index.ts:71 | Decoding the hex text of bytes gives the bytes back |
| `Merkle.HexIsInjective` | btx-repo/services/control-plane/src/domain/consent-service.ts:215 | Hex text determines the bytes |
| `Text.DecimalReads` | btx-repo/services/control-plane/src/domain/consent-service.ts:215 | row.id.toString() is the decimal numeral of the id, without leading zeros |
| `Text.DecimalIsInjective` | btx-repo/services/control-plane/src/domain/consent-service.ts:215 | row.id.toString() determines the id |
| `Policy.FailClosedTheorem` | btx-repo/pkg/policy/src/index.ts:79-117 | At every point of any interleaving of loads, malformed payloads included: the bundle in force passed verify, and evaluate allows exactly when a bundle is in force and a scan of the payload behind the index for the last rule with the id finds a matching allow rule; that payload passed verify too, and is the bundle in force whenever that one can be indexed; it throws exactly when the rule found lacks its conditions |
| `Policy.IndexBelongsExactlyWhen` | btx-repo/pkg/policy/src/index.ts:99-100 | The index in force was built from the bundle in force exactly when the rules of that bundle are an array without null |
| `Policy.MalformedLoadKeepsRules` | btx-repo/pkg/policy/src/index.ts:99-101 | A verified payload that cannot be indexed replaces the bundle alone: the old rules go on deciding, unless the payload is falsy, which denies everything |
| `Policy.MalformedPayloadSplits` | btx-repo/pkg/policy/src/index.ts:99-100 | A run that ends with a bundle in force that has no rules, while the rule of the bundle before it still allows |
| `Policy.MatchSurvives` | btx-repo/pkg/policy/src/index.ts:57-77 | A rule without comparisons for difference with a primitive that matches a context matches every deep extension of it |
| `Policy.OperatorsDecide` | btx-repo/pkg/policy/src/index.ts:61-69 | On a context with a value at a dotted path: eq and neq compare primitives, in looks the primitive up in the list of the condition, contains looks the value of the condition up in a list of the context; nothing else holds |
| `Policy.ArrayKeys` | btx-repo/pkg/policy/src/index.ts:57-59 | A path reaches into an array by a decimal index and by length, and no other key |
| `Text.SplitJoin` | btx-repo/pkg/policy/src/index.ts:58 | Splitting a path gives back the dot-free keys that were joined |
| `Text.JoinSplit` | btx-repo/pkg/policy/src/index.ts:58 | Every path is the join of the dot-free keys it is split into |
| `Policy.LastRuleIsLast` | btx-repo/pkg/policy/src/index.ts:100 | The rule that decides for an id is that of the last entry with it, and there is none exactly when no entry has it |
| `Policy.SurvivesExactly` | btx-repo/pkg/policy/src/index.ts:61-69 | The match of a condition survives all deep extensions exactly when it is not a neq with a primitive |
| `Policy.WalkExtends` | btx-repo/pkg/policy/src/index.ts:57-59 | The value at a dotted path in a deeper context extends the value at that path |
| `Policy.FailedLoadChangesNothing` | btx-repo/pkg/policy/src/index.ts:86-97 | A skipped load, a failing fetch and a failed verification change no decision and not the age of the cache |
| `Policy.IndexedSince` | btx-repo/pkg/policy/src/index.ts:85-101 | The index in force came from an accepted load that began at loadedAt |
| `Policy.InForceSince` | btx-repo/pkg/policy/src/index.ts:85-101 | The bundle in force came from an accepted load, which began at loadedAt if its rules can be indexed |
| `Policy.IndexIsIndex` | btx-repo/pkg/policy/src/index.ts:100 | The map of rules is the scan in which the last duplicate wins |
| `Policy.SoundReachable` | btx-repo/pkg/policy/src/index.ts:79-117 | In every reachable state the index is that of the last accepted payload that could be indexed, or empty before the first |
| `Policy.PolicyPlugin.BeginLoad` | btx-repo/pkg/policy/src/index.ts:84-88 | Skips exactly while a bundle is in force and younger than the TTL; changes nothing else |
| `Policy.PolicyPlugin.FinishLoad` | btx-repo/pkg/policy/src/index.ts:89-103 | Assigns the bundle once verified, and index and time of start together exactly when its rules can be indexed; else throws with both as they were |
| `Policy.PolicyPlugin.BuildIndex` | btx-repo/pkg/policy/src/index.ts:100 | The map with the last duplicate of each id, or a throw exactly when an element is null |
| `Policy.PolicyPlugin.Decide` | btx-repo/pkg/policy/src/index.ts:105-117 | Denies with conditions-not-met exactly when some condition of all fails or any is not empty and all its conditions fail; else gives the effect of the rule; bundle-not-loaded, rule-not-found and the throw in their cases; allows only with a verified bundle in force |
| `Idempotency.HitTheorem` | btx-repo/pkg/idempotency/src/index.ts:25-58 | Under any interleaving, for an unambiguous request, or when no request has a ':' in its key: a hit was stored by a request with exactly this method, url and key, replays the most recently stored response, leaves the entry as it is, and the handler never runs for it |
| `Idempotency.StorageKeyIsOwnExactlyWhen` | btx-repo/pkg/idempotency/src/index.ts:30 | No other request shares the storage key of a request exactly when its url has no ':' and its key none but as the last character |
| `Idempotency.ConsistentReachable` | btx-repo/pkg/idempotency/src/index.ts:25-58 | Every cache entry is the last store under its key, and each call looks up and stores under the key of its own request |
| `Idempotency.StorageKeyIsInjective` | btx-repo/pkg/idempotency/src/index.ts:30 | Among requests without ':' in their keys, whatever their urls, a storage key determines method, url and key |
| `Idempotency.ColonConfuses` | btx-repo/pkg/idempotency/src/index.ts:30 | With a ':' in the key, two requests to different urls share an entry |
| `Idempotency.RepliedForever` | btx-repo/pkg/idempotency/src/index.ts:44 | A replied request never changes again |
| `Idempotency.IdempotencyPlugin.PreHandler` | btx-repo/pkg/idempotency/src/index.ts:25-45 | Bypassed exactly by other methods than POST, PUT, PATCH and DELETE and without a key; else a miss exactly when the entry under prefix, method, url and key is absent or expired; a hit replays status, payload and every header but content-length in any case, plus the marker |
| `Idempotency.IdempotencyPlugin.OnSend` | btx-repo/pkg/idempotency/src/index.ts:47-58 | Only a request that missed stores, once, under its key, until now + TTL |
| `Retries.RetryGrant` | btx-repo/pkg/idempotency/src/index.ts:25-58 | Retries within the TTL of the first store, with any traffic of others under other storage keys and in the database between them, and any later Redis failure: the handler runs once, every reply is the framework error of a throwing lookup or has the status and payload of the first, the entry is that of the first store, and the database has seen one grant, which adds one consent, one audit row and one outbox row, and the steps of the others |
| `Retries.RetryAll` | btx-repo/pkg/idempotency/src/index.ts:25-58 | With Redis failing at will: the handler runs in the attempts whose lookup works up to the first that stores, and never again |
| `Retries.RunsOnceExactly` | btx-repo/pkg/idempotency/src/index.ts:31-56 | The handler runs exactly once exactly when some lookup works and the first one that does either stores its reply or is also the last one that does |
| `Retries.Gateway.Serve` | btx-repo/services/control-plane/src/server.ts:147-190 | A hit leaves the database and the cache alone; a miss runs grant and stores its reply; a throwing GET runs nothing, a throwing SET has run grant and stores nothing |
| `Retries.GrantEffect` | btx-repo/services/control-plane/src/domain/consent-service.ts:42-92 | Those statements add one consent and one audit row about it, with its actor |
| `Retries.GrantAddsOneOfEach` | btx-repo/services/control-plane/src/domain/consent-service.ts:42-92 | From every reachable state of the whole system they add exactly one consent, one audit row and one outbox row |
| `Federation.CursorTheorem` | btx-repo/services/trust-node/src/domain/federation-service.ts:19-55 | Over any interleaving, failure and crash: a cursor is 0 or that of the last writer, a recorded request of that peer that passed every check applied to it; initialising never resets it |
| `Federation.RowTheorem` | btx-repo/services/trust-node/src/domain/federation-service.ts:19-55 | A row leaves pending at most once; a verified row passed its checks and wrote its cursor before the mark; a row that did not pass never wrote; a failed row wrote exactly when the verified mark itself threw |
| `Federation.RefusedSignatureNeverWrites` | btx-repo/services/trust-node/src/domain/federation-service.ts:25-35 | With signature and key present and not empty and verify refusing the signature over the root, or over the empty text, no run writes the cursor of the request or verifies its row |
| `Federation.RefusedChainNeverWrites` | btx-repo/services/trust-node/src/domain/federation-service.ts:38-44 | With a root that is not empty, the same unless verifyAuditChain has answered true |
| `Federation.UnsignedNeedsNoVerifier` | btx-repo/services/trust-node/src/domain/federation-service.ts:25 | Without a signature or without a key the verifier has no influence on any run |
| `Federation.ReturnTheorem` | btx-repo/services/trust-node/src/domain/federation-service.ts:33-50 | What a call told its caller is the status of its row |
| `Federation.InvariantReachable` | btx-repo/services/trust-node/src/domain/federation-service.ts:19-55 | The invariant behind these theorems, in every reachable state |
| `Federation.StatementKeepsRow` | btx-repo/services/trust-node/src/adapter/db/repository.ts:52-68 | What each statement leaves in a row agrees with the control point of its call and with the writes made |
| `Federation.StepKeepsCursor` | btx-repo/services/trust-node/src/adapter/db/repository.ts:11-40 | Every step keeps each cursor that of its last writer |
| `Federation.CursorDropsExactly` | btx-repo/services/trust-node/src/adapter/db/repository.ts:30-40 | A step lowers a cursor exactly when it is the cursor write of a request with a smaller one |
| `Federation.CursorCanAlwaysDrop` | btx-repo/services/trust-node/src/domain/federation-service.ts:46-48 | From every state a request without signature and root lowers the cursor of its peer |
| `Federation.FederationRepository.RecordPeerSync` | btx-repo/services/trust-node/src/adapter/db/repository.ts:42-50 | Adds one pending row with the fields of the request, empty strings stored as NULL, or throws without effect |
| `Federation.FederationRepository.UpdateSyncCursor` | btx-repo/services/trust-node/src/adapter/db/repository.ts:30-40 | The peer has exactly the given cursor, new or overwritten |
| `Federation.FederationRepository.MarkPeerSyncVerified` | btx-repo/services/trust-node/src/adapter/db/repository.ts:52-59 | Sets the status of exactly that row |
| `Federation.FederationRepository.MarkPeerSyncFailed` | btx-repo/services/trust-node/src/adapter/db/repository.ts:61-68 | Sets status and message of exactly that row; inside the try a throw leads to the catch, in the catch the call throws either way |
| `Federation.FederationRepository.InitializeFederationState` | btx-repo/services/trust-node/src/adapter/db/repository.ts:11-20 | A known peer keeps its cursor, a new one gets 0, and the stored one is returned |
| `Federation.FederationService.SyncFromPeer` | btx-repo/services/trust-node/src/domain/federation-service.ts:19-55 | Under any interference the outcome told is that of the row, and verified only if the checks passed; undisturbed: one new row, failed with the signature message if signature and key are there and verify refuses, else failed with the chain message if there is a root and the chain is refused, else verified with the cursor written |
| `Federation.FederationService.Process` | btx-repo/services/trust-node/src/domain/federation-service.ts:23-50 | The try block: returns with the row settled, or control is at the catch block |
| `Federation.FederationService.WriteCursorAndMark` | btx-repo/services/trust-node/src/domain/federation-service.ts:46-50 | The cursor is written before the row is marked |
| `Std.Select` | btx-repo/services/control-plane/src/adapter/db/repository.ts:184-190 | ORDER BY ... LIMIT: distinct rows of the table, as many as the limit allows, in key order, none left out that comes before one listed |
| `Std.TopTakesAll` | btx-repo/services/control-plane/src/domain/consent-service.ts:206-211 | Without a cutting limit the query lists every row |

## Left out

- KMS, object store, secret and log adapters and the bootstrap package: wrappers of cloud SDKs.
- The portal, the Fastify routes, schemas and bearer checks, and `reconfigureOutboxPublisher`: plumbing.
- The broker configuration, registry and telemetry packages: single-step upserts and defaults.
- `archiveAuditEvent`: fire and forget, it cannot affect consent state.
- `verifyAuditChain`: a stub that returns true; modelled as an arbitrary answer.
- `appendInTx` of the audit package: the shape of `appendInTransaction` with the transaction owned by the caller.
- The reading, signing and storing around the daily job `runDailyMerkleJob`; the Merkle root it computes is modelled.
- `getTopicForEvent`, trace ids, timestamps inside payloads, JSON text and the JavaScript prototype chain: payloads are abstract values.
- Obligations in policy decisions: copied through without effect on the decision.
- subject_ref, purpose and obligations of a consent, and details of an audit row: copied through.
- The monthly partitions of audit_events: an INSERT outside the one partition that the migration creates fails, which the model covers only as a statement that throws.
- ROLLBACK that itself throws: the call ends as failed either way.
- RunTimer: the interval timer is a given number of rounds, not real time.
- Start: the worker is followed for a given number of rounds, and its lastError field and the pauses between drains are not modelled.
- Ticks of different jobs in one pod process: one job per pod, as the server creates it.
