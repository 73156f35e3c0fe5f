# tabdeal-signal: a verified model

This project models the three parts of the signal service that carry its promises, and
proves them for every input and every run.

**The SQLite outbox.** Decisions are persisted under an idempotency key; each SIGNAL gets an
outbox row that workers claim under an expiring lease, send, and finalise. `OutboxTable` has
the rows and every SQL statement as a function on the table, `Decisions` has the phases of
`persist` and the in-memory reference, and `OutboxSystem` puts them together as a state machine
in which any number of `persist` calls are caught between their single statements while workers
claim, finalise and recover in any order. A claim may act on any stale selection, because its
guarded UPDATE checks each row again. `SqliteStore`, `Worker`, `InMemoryDecisions` and
`InMemoryOutbox` are the classes, method by method; `StoredRows`, `PayloadFields` and
`LeaseTakeover` say column by column what their calls store, answer and return; the ghost field
`trace` of the store ties its fields to a run of the state machine, so that a theorem about
runs is a theorem about every sequence of calls. `OutboxSafety`, `PersistRuns`, `OutboxDrain`,
`Backoff` and `Recovery` hold what follows over runs, `LeaseTimes` the deadline of a claim in
the times of the claim. `WorkerPlans` has what the worker decides about one record;
`WorkerRuns` and `WorkerBounds` show that in every run of workers, however they interleave,
each finalisation is such a decision about the row as it was claimed, so that the drain and
backoff bounds hold with nothing assumed; `WorkerPasses` iterates passes until the outbox is
empty, and `AbandonedBatch` is a pass that raises. Timestamps are instants in microseconds, and
`IsoTime` with `TextGuards` proves that the comparisons the database really makes, on
`isoformat` text, decide the same.

**The strategy.** `Strategy` has swings with delayed confirmation, trend and break-of-structure
events, `SwingPrices` says the same in candle prices alone; `Evaluation` the three-timeframe
evaluator; `DecisionPipeline` the conflict, risk and final gates around it, and
`DecisionAnswers` every answer of both with its text. `StrategySymmetry`, `EvaluationSymmetry`,
`ExactSymmetry` and `DecisionSymmetry` turn every price upside down and follow the difference
from one candle to the final decision, with the exact condition at each level; `GapMarket` is a
market on which they do not flip. Prices are only compared, so they are reals.

**Point-in-time data.** `Series` and `Alignment` show the loop validators equal to one short
condition and the aligned candle equal to a division formula; `Replay` shows sorting and
halving equal to a scan; `ChartFilter` shows a column filter equal to a filter on whole rows.

Where the code and its documents differ, the model follows the code:

- `docs/OUTBOX_STORAGE_CONTRACT.md` wants no expired lease to deliver. The in-memory
  `mark_delivered` reads no clock, so an expired lease that nobody replaced still delivers.
  `ExpiredDeliveryPossible` says exactly when, `ExpiredLeaseDelivers` exhibits one.
- `docs/OUTBOX_CONTRACT_V1.md` wants re-enqueueing the same message to be an idempotent
  duplicate. Status is part of message equality, so after delivery it is a collision;
  `ReenqueueAfterRun` says exactly when, `ReenqueueCollides` exhibits the collision.
- The same document wants no duplicate logical events. The in-memory `enqueue` accepts a second
  message of an event under another key (`DuplicateAccepted`). Over a run event ids stay distinct
  if and only if no `enqueue` met a new key with an event id already there
  (`EventIdsDistinctIff`). Delivery always finds the first message of an event: a message is
  deliverable if and only if no earlier one has its event id (`DeliverableIff`).
- The strategy treats LONG and SHORT alike except in one case: a close above the last swing
  high and below the last swing low is always a LONG event. `BreakEventsFlip` shows that this
  is the only case and `SymmetryFails` exhibits it. `EvaluationFlipsIff` and
  `EligibilityFlipsIff` say exactly when a whole evaluation still flips, `FinalFlipsIff` when
  the final decision does; `EvaluationFailsToFlip` and `FinalFailsToFlip` exhibit an accepted
  snapshot on which they do not.
- `docs/notification-worker-contract.md` moves a record to DEAD_LETTER once its claims reach
  `max_attempts`. In SQLite, reclaiming an expired lease raises `attempt_count` without a
  delivery having ended, so the limit can be passed: exactly when a lease taken at the limit or
  later runs out and the row is claimed again (`AttemptsOverLimit`), as in the run of
  `AttemptsPassTheLimit`. Every expired lease allows one claim more, and never more than one.
- The same document wants one failed event not to stop the batch. A failed delivery does not,
  but a finalisation whose lease has run out raises out of `run_once`, as does a retry time past
  year 9999: `ProcessBatch` stops at the first record that is not `Finalisable`, and the rest of
  its batch stays PROCESSING until the leases expire. `RunOnce` returns normally if and only if
  every record of its batch is `Finalisable`; `AbandonBatch` makes a pass that raises at its
  first record and leaves the second one undelivered.
- `docs/pit-replay-contract.md` lets no later data into an earlier answer. When nothing was
  available yet, replay answers with a stand-in that carries the source kind, topic and
  provenance of the earliest snapshot, although that one is still in the future.
  `LaterSnapshotsChangeNothing` says exactly when adding a later snapshot changes an answer,
  `StandInLooksAhead` exhibits one that changes.

Assumptions, each a parameter or a precondition: `uuid4` never repeats a token
(`FreshTokens`); each transaction is atomic; the clock that a finaliser reads is an argument,
independent of the `now` of the claim; the transport's reply is an argument. Exclusion in
time (`LeaseIsExclusive`) needs claims and recoveries that act before the lease's deadline,
which is what a common clock gives.

## Model

| member | source | states |
|---|---|---|
| IsoTime.TextOrderIsTimeOrder | src/tabdeal_signal/persistence/sqlite.py:626-636 | for all UTC datetimes of years 1 to 9999, byte order of the isoformat text is chronological order and equal text is equal time, although the fraction is either absent or six digits |
| IsoTime.IsoTextCoversAll | src/tabdeal_signal/persistence/sqlite.py:639-649 | every valid datetime has an instant, and the canonical text of that instant is its own |
| IsoTime.FromInstant | src/tabdeal_signal/persistence/sqlite.py:626-636 | every instant is the time of exactly the calendar fields returned |
| IsoTime.IsoFieldsRead | src/tabdeal_signal/persistence/sqlite.py:622-636 | the text of every UTC datetime by position: each field as its decimal digits between the separators, a fraction of six digits only when there is one, and the offset |
| IsoTime.CalendarDays | src/tabdeal_signal/persistence/sqlite.py:626-636 | every date is the day after the one before it, with the month lengths and leap years of the calendar, from day 0 on |
| Text.SpaceIsWhitespace | src/tabdeal_signal/persistence/contracts.py:19-29 | a blank is made of exactly the 29 characters that Python counts as whitespace |
| IsoTime.PlusSeconds | src/tabdeal_signal/persistence/sqlite.py:652-654 | the instant that many seconds later, and no result exactly when that passes year 9999, which is Python's OverflowError |
| TextGuards.GuardsOnText | src/tabdeal_signal/persistence/sqlite.py:430-434 | the claim, expiry and lease guards on stored text decide exactly as on instants |
| TextGuards.OrderOnText | src/tabdeal_signal/persistence/sqlite.py:435 | ORDER BY created_at, event_id on text is order by time, then event id |
| Domain.EncodeInjective | src/tabdeal_signal/persistence/sqlite.py:664-678 | two requests have the same encoded tree exactly when they are the same request; what the tree says is `PayloadFields.PayloadCarries` |
| Domain.RequestAccepted | src/tabdeal_signal/persistence/contracts.py:19-29 | what the constructors of a request accept, field by field |
| PayloadFields.PayloadCarries | src/tabdeal_signal/persistence/sqlite.py:664-678 | for every request and every field, the value at its path of literal names in the text of the payload is that field, enums and times as their texts |
| PayloadFields.PayloadNames | src/tabdeal_signal/persistence/sqlite.py:664-678 | the objects of a payload name their members in sorted order, and no others |
| PayloadFields.SignalNames | src/tabdeal_signal/persistence/sqlite.py:664-678 | so does the signal in it |
| PayloadText.PayloadInjective | src/tabdeal_signal/persistence/sqlite.py:306-308 | comparing rendered payloads compares requests |
| Domain.EventIdNotBlank | src/tabdeal_signal/persistence/sqlite.py:657-661 | the derived or explicit event id is never blank |
| OutboxTable.FirstInOrderMeaning | src/tabdeal_signal/persistence/sqlite.py:427-438 | the selection has as many eligible rows as the limit allows, ascending by (created_at, event_id), and every one before every row left out |
| OutboxTable.BatchRow | src/tabdeal_signal/persistence/sqlite.py:439-457 | what a whole batch of guarded UPDATEs, over any list of ids, does to each row: its first occurrence claims it if it is eligible, later occurrences miss |
| OutboxTable.ItemIsClaim | src/tabdeal_signal/persistence/sqlite.py:456-463 | a returned record is a row the batch claimed, as the batch leaves it |
| OutboxTable.ClaimsAreItems | src/tabdeal_signal/persistence/sqlite.py:456-463 | every row the batch claimed is returned |
| OutboxTable.ItemsAreDistinct | src/tabdeal_signal/persistence/sqlite.py:439-463 | no row is returned twice |
| OutboxTable.MatchedUnique | src/tabdeal_signal/persistence/sqlite.py:494-507 | with unique event ids a finaliser's WHERE clause matches at most one row |
| StoredRows.PersistStores | src/tabdeal_signal/persistence/sqlite.py:344-358 | a call is accepted if and only if neither its key nor, for a SIGNAL, its event id is stored; it then adds one decision and, for a SIGNAL, one row, column by column, whose payloads carry every field of the request |
| StoredRows.PersistAnswers | src/tabdeal_signal/persistence/sqlite.py:306-406 | the answer to every other call, check by check, on any two tables with unique keys |
| StoredRows.SelectionMeans | src/tabdeal_signal/persistence/sqlite.py:427-438 | the selection in columns: waiting, due and abandoned rows, oldest first, ties by event id, up to the limit |
| StoredRows.ClaimMeans | src/tabdeal_signal/persistence/sqlite.py:439-463 | each record of a claim is its row with one attempt more, the caller's owner, its own token, no error, and a deadline exactly the lease after now; every other row is kept |
| StoredRows.FinalisedMeans | src/tabdeal_signal/persistence/sqlite.py:493-602 | a finaliser that succeeds changes one held row, column by column, and any other changes nothing |
| StoredRows.SucceedsByEvent | src/tabdeal_signal/persistence/sqlite.py:481-573 | a finaliser by event id succeeds if and only if its arguments are proper and some row of the event is held by the caller at that time |
| StoredRows.SucceedsByRowid | src/tabdeal_signal/persistence/sqlite.py:575-602 | the same for the quarantine by rowid |
| StoredRows.RecoveredMeans | src/tabdeal_signal/persistence/sqlite.py:604-619 | recovery returns exactly the rows whose time is up, column by column |
| Decisions.CompareStoredIsReference | src/tabdeal_signal/persistence/sqlite.py:306-337 | on tables that represent a ledger the checks can only answer replay or key collision, as the reference does; the four inconsistency errors are unreachable |
| Decisions.InsertRefusedIsReference | src/tabdeal_signal/persistence/sqlite.py:344-358 | the two INSERTs are refused exactly when the key was accepted before or a SIGNAL's event id belongs to another key |
| Decisions.PersistRefines | src/tabdeal_signal/persistence/sqlite.py:300-406 | `persist` keeps representing the reference's ledger and answers as the reference; they differ exactly on a new key whose event id is taken |
| Decisions.OnlyNewWrites | src/tabdeal_signal/persistence/sqlite.py:306-337 | only a first acceptance writes; replays and collisions leave every row, lifecycle included, as it is |
| InMemoryDecisions.InMemoryDecisionPersistence.Persist | src/tabdeal_signal/persistence/in_memory.py:28-40 | the new dictionary and the answer are those of the reference: new exactly for an unknown key, a replay exactly for the stored request |
| OutboxSystem.StepMovesRow | src/tabdeal_signal/persistence/sqlite.py:408-619 | each step of the protocol changes each existing row by one enabled move |
| OutboxSystem.MoveKeepsSound | src/tabdeal_signal/persistence/sqlite.py:426-619 | every move keeps the field discipline of the five states: lease fields exactly while PROCESSING, error and retry time in RETRY, sent_at exactly in SENT, PENDING exactly at zero attempts |
| OutboxSystem.StepKeepsInv | src/tabdeal_signal/persistence/sqlite.py:300-619 | every step of every kind keeps the inductive invariant, in which each finished call has exactly one log entry |
| OutboxSystem.InvReopens | src/tabdeal_signal/persistence/sqlite.py:79-269 | the invariant implies the whole check made on reopening |
| OutboxSystem.ReachableStatesReopen | src/tabdeal_signal/persistence/sqlite.py:79-269 | every state that any interleaving reaches passes the reopen check |
| OutboxSystem.ReachableColumns | src/tabdeal_signal/persistence/sqlite.py:79-269 | every row of every reachable state, column by column, with its decision |
| OutboxSystem.ReopenAnswers | src/tabdeal_signal/persistence/sqlite.py:79-269 | the reopen check, column by column |
| OutboxSystem.StepsAllowed | src/tabdeal_signal/persistence/sqlite.py:300-619 | exactly which steps a caller can take in a state |
| OutboxSystem.UninterruptedPersist | src/tabdeal_signal/persistence/sqlite.py:300-406 | the phases of a call, run without interruption, add up to the sequential `persist` |
| PersistRuns.AnswersMean | src/tabdeal_signal/persistence/sqlite.py:359-406 | the answer of each finished call in terms of the new calls that finished before it: replay, key reused, event id taken, or new, each if and only if |
| PersistRuns.OneNewCallPerKey | src/tabdeal_signal/persistence/sqlite.py:359-404 | two different calls of one key are never both new, and a call that finishes after the new one is a replay if identical and a collision if not |
| PersistRuns.AcceptedKeyHasItsCall | src/tabdeal_signal/persistence/sqlite.py:344-358 | a key is stored if and only if some call was new under it; there is exactly one such call and the stored decision is its request |
| PersistRuns.AnswersAreFinal | src/tabdeal_signal/persistence/sqlite.py:300-406 | a run only extends the log of answers, and a finished call keeps its answer |
| PersistRuns.CallsAreAtomic | src/tabdeal_signal/persistence/sqlite.py:300-406 | under any interleaving of single reads and insert transactions, every finished call has exactly one place in the log and answered there as one atomic step of the reference; no two calls of one key are new, and decisions and outbox rows match the accepted requests one to one |
| OutboxSafety.RunFollowsHistory | src/tabdeal_signal/persistence/sqlite.py:408-619 | a row after a run is its moves applied in turn, each enabled when made |
| OutboxSafety.RowsOverRuns | src/tabdeal_signal/persistence/sqlite.py:443-454 | over any run the identity columns never change, attempt_count rises by the number of successful claims, and SENT and DEAD_LETTER rows are never touched again |
| OutboxSafety.SupersededTokenNeverFinalises | src/tabdeal_signal/persistence/sqlite.py:493-507 | a token that its row has lost finalises nothing in any later state |
| OutboxSafety.TokenFinalisesOnce | src/tabdeal_signal/persistence/sqlite.py:493-507 | each token finalises at most once: a successful finalisation makes every later one under its token fail |
| OutboxSafety.LeaseIsExclusive | src/tabdeal_signal/persistence/sqlite.py:427-454 | while a lease lasts nothing but its holder changes the row |
| OutboxSafety.HolderFinalises | src/tabdeal_signal/persistence/sqlite.py:494-507 | the holder of a live lease can finalise, by event id or by rowid |
| OutboxSafety.LateOrForeignFinaliserFails | src/tabdeal_signal/persistence/sqlite.py:494-602 | a finaliser past the deadline, or with another owner or token, fails and changes nothing, by event id and by rowid |
| LeaseTimes.ClaimedRow | src/tabdeal_signal/persistence/sqlite.py:443-454 | the row that any claim leaves under a token, field by field, whatever its selection |
| LeaseTimes.LeaseLasts | src/tabdeal_signal/persistence/sqlite.py:424-454 | after any run, a claim and any steps that respect its deadline: the row can be claimed again or recovered at t if and only if t is at least the time of the claim plus the lease, and its holder can finalise it if and only if t is before that |
| OutboxDrain.EventNeedsAtMost | src/tabdeal_signal/notifications/worker.py:144-163 | a history whose retries stay below the limit finalises its event at most `max_attempts` times, however claims, crashes and recoveries interleave |
| OutboxDrain.RunDrains | src/tabdeal_signal/notifications/worker.py:88-170 | over any run whose retries stay below the limit, each successful finalisation pays one unit of the drain measure and only a new SIGNAL adds to it |
| OutboxDrain.EnoughDeliveriesEmptyTheOutbox | src/tabdeal_signal/notifications/worker.py:88-97 | finalisations done and owed stay within `max_attempts` per SIGNAL, and the outbox is empty exactly when none is owed |
| OutboxDrain.DueRowsSelected | src/tabdeal_signal/persistence/sqlite.py:427-438 | once every backoff and lease has run out, the eligible rows are exactly the unfinished ones and a claim takes as many as its limit allows |
| Backoff.ClaimsAreSpaced | src/tabdeal_signal/notifications/worker.py:144-163 | if no lease of an event expires, its k-th claim is no earlier than its first plus base * (2^(k-1) - 1) seconds |
| Backoff.DeadLetterAfterExactDelay | src/tabdeal_signal/notifications/worker.py:146-163 | such an event is claimed at most `max_attempts` times, and a dead letter was claimed exactly that often after delays of exactly base * (2^(max_attempts-1) - 1) seconds |
| Backoff.AttemptsOverLimit | src/tabdeal_signal/persistence/sqlite.py:443-451 | the claims of a new event pass `max_attempts` if and only if a lease taken at the limit or later runs out and the row is claimed again, and every expired lease allows at most one claim more |
| Recovery.RecoveryKeepsEligible | src/tabdeal_signal/persistence/sqlite.py:604-619 | a recovery at `now` leaves the rows eligible at t as they were if and only if t is not before `now` or no lease had run out by t |
| Recovery.RecoveryKeepsSelection | src/tabdeal_signal/persistence/sqlite.py:427-438 | recover-then-select takes the same first rows in the same order as select alone |
| Recovery.RecoveryKeepsClaims | src/tabdeal_signal/persistence/sqlite.py:441-455 | the claimed rows are the same except for next_attempt_at |
| SqliteStore.SQLiteDecisionPersistence.Persist | src/tabdeal_signal/persistence/sqlite.py:300-406 | both tables and the answer are those of the sequential call, an accepted request is stored column by column as `StoredRows` says, and the run of the protocol is extended by its phases |
| SqliteStore.SQLiteDecisionPersistence.ClaimPendingOutbox | src/tabdeal_signal/persistence/sqlite.py:408-464 | the argument and overflow errors, and otherwise the claimed table and the returned records of the selection: record k is row k of the selection with its deadline at now plus the lease, column by column |
| SqliteStore.SQLiteDecisionPersistence.UpdateSelected | src/tabdeal_signal/persistence/sqlite.py:439-463 | the update loop leaves the claimed table and collects exactly the claimed rows |
| SqliteStore.SQLiteDecisionPersistence.FinaliseOutbox | src/tabdeal_signal/persistence/sqlite.py:493-507 | one guarded UPDATE, undone with a ValueError unless it matched exactly one row |
| SqliteStore.SQLiteDecisionPersistence.MarkOutboxSent | src/tabdeal_signal/persistence/sqlite.py:481-507 | the row of the event becomes SENT at the given time, every other column as stated, if and only if the arguments are proper and the caller holds it; otherwise nothing changes |
| SqliteStore.SQLiteDecisionPersistence.MarkOutboxRetry | src/tabdeal_signal/persistence/sqlite.py:509-545 | the row of the event becomes RETRY with its next attempt and error, or nothing changes |
| SqliteStore.SQLiteDecisionPersistence.MarkOutboxDeadLetter | src/tabdeal_signal/persistence/sqlite.py:547-573 | the row of the event becomes DEAD_LETTER with its error, or nothing changes |
| SqliteStore.SQLiteDecisionPersistence.QuarantineOutboxRecord | src/tabdeal_signal/persistence/sqlite.py:575-602 | the row with that rowid becomes DEAD_LETTER with its error, or nothing changes |
| SqliteStore.SQLiteDecisionPersistence.RecoverExpiredProcessing | src/tabdeal_signal/persistence/sqlite.py:604-619 | exactly the expired rows return to RETRY, and the count is theirs |
| WorkerPlans.RecordIsProcessed | src/tabdeal_signal/notifications/worker.py:114-170 | on a row that stands as claimed, processing succeeds exactly while the lease lasts and no date overflows, and changes that row only; skipping and quarantine are unreachable |
| WorkerPlans.FinalRowMeans | src/tabdeal_signal/notifications/worker.py:139-170 | a finalised record is SENT at the time of the pass exactly when its message was delivered, DEAD_LETTER exactly when a failed one has used up its attempts, and otherwise RETRY, due after the exponential delay; its lease is gone |
| WorkerPlans.PlanAnswers | src/tabdeal_signal/notifications/worker.py:114-163 | what the worker plans for any record, in its fields: skip, quarantine, sent, dead letter, retry at the exact time, or overflow |
| WorkerPlans.WorkerAccepts | src/tabdeal_signal/notifications/worker.py:75-80 | the settings and delivery errors that the worker accepts |
| WorkerPlans.ProcessedAnswers | src/tabdeal_signal/notifications/worker.py:114-170 | what processing then does: nothing, an error, or the planned finaliser under the record's own lease |
| WorkerPlans.RecordPays | src/tabdeal_signal/notifications/worker.py:144-170 | a successful finalisation lowers the drain measure |
| WorkerPlans.PlanFollowsPolicy | src/tabdeal_signal/notifications/worker.py:146-163 | planned at the time of its claim, a finalisation is one the policy decides: a retry below the limit at the exact exponential delay, a dead letter only at the limit |
| Worker.PassFollowsPolicy | src/tabdeal_signal/notifications/worker.py:88-97 | the plan for every record that a claim of a pass returns is one the policy decides |
| WorkerRuns.TokenKeepsRow | src/tabdeal_signal/persistence/sqlite.py:443-454 | a row that still holds a token after any run is the row it was when it held it before |
| WorkerBounds.ClaimedRecordLater | src/tabdeal_signal/notifications/worker.py:114-170 | whatever others do between a claim and the processing of its record, processing fails and changes nothing, or finds the row as claimed under a live lease and makes of it what the record alone says |
| WorkerRuns.WorkersFollowPolicy | src/tabdeal_signal/notifications/worker.py:88-170 | in any run whose finalisations are plans for records returned before, every retry is below the limit and every row history follows the policy |
| WorkerBounds.WorkersDrain | src/tabdeal_signal/notifications/worker.py:88-170 | over any run of workers finalisations done and owed stay within `max_attempts` per SIGNAL, and the outbox is empty exactly when none is owed |
| WorkerBounds.EventInWorkerRun | src/tabdeal_signal/notifications/worker.py:114-170 | an event in any run of workers: at most `max_attempts` finalisations, the exact condition for passing the limit, and, if no lease of it expires, spaced claims and the exact total delay |
| WorkerBounds.AttemptsPassTheLimit | src/tabdeal_signal/persistence/sqlite.py:443-451 | a run of workers with `max_attempts` 1 in which a SIGNAL is claimed twice |
| WorkerPasses.PassPays | src/tabdeal_signal/notifications/worker.py:88-97 | a pass that returns normally claims and finalises exactly the selected rows, keeps the others, and lowers the deliveries owed by at least one for each selected row |
| WorkerPasses.PassesEmptyTheOutbox | src/tabdeal_signal/notifications/worker.py:88-97 | passes over due rows that return normally leave every row SENT or DEAD_LETTER once there were as many as deliveries owed at the start, whatever the transport answered |
| WorkerPasses.BatchedPassesSuffice | src/tabdeal_signal/notifications/worker.py:88-97 | any batch size: deliveries owed divided by the batch size, plus `max_attempts`, such passes finish every row |
| WorkerPasses.MaxAttemptsPassesSuffice | src/tabdeal_signal/notifications/worker.py:88-170 | when one batch holds all the rows unfinished at the start, `max_attempts` such passes finish every row |
| WorkerPasses.DueTimeExists | src/tabdeal_signal/persistence/sqlite.py:430-434 | for every table there is a time at which every backoff and lease has run out |
| Worker.NotificationWorker.ProcessRecord | src/tabdeal_signal/notifications/worker.py:114-170 | the table, the exception and the step added to the run are those of the plan for the record |
| Worker.NotificationWorker.ProcessBatch | src/tabdeal_signal/notifications/worker.py:95-97 | after the loop the first `done` records are final, the others stand as claimed, no other row changed, and the measure fell by `done`; it returns normally if and only if every record can be finalised, and an exception stops at one that cannot |
| Worker.NotificationWorker.RunOnce | src/tabdeal_signal/notifications/worker.py:88-97 | the same for a whole pass, over the records of its own claim, the condition for a normal return included; the run grows by steps of a worker |
| AbandonedBatch.AbandonBatch | src/tabdeal_signal/notifications/worker.py:88-97 | two SIGNALs and a pass whose first delivery ends after its lease: the pass raises and both rows stay PROCESSING, the second with no delivery made |
| Worker.DuePassSelects | src/tabdeal_signal/notifications/worker.py:88-97 | a pass over due rows selects nothing exactly when nothing is owed |
| InMemoryOutbox.InMemoryOutboxRepository.Enqueue | src/tabdeal_signal/persistence/in_memory_outbox.py:19-29 | new message, exact duplicate, or collision, and the new state |
| InMemoryOutbox.InMemoryOutboxRepository.MarkDelivered | src/tabdeal_signal/persistence/in_memory_outbox.py:31-59 | the errors in order, and the message delivered and the lease consumed otherwise |
| InMemoryOutbox.InMemoryOutboxLeaseRepository.AcquireLease | src/tabdeal_signal/persistence/in_memory_outbox.py:76-102 | the lease granted, refused while another lasts, or the error; a token is drawn even when the call fails; granted if and only if the arguments are proper, the event is stored and no lease on record lasts past the start |
| InMemoryOutbox.InMemoryOutboxLeaseRepository.ReleaseLease | src/tabdeal_signal/persistence/in_memory_outbox.py:104-111 | only the lease on record is released |
| InMemoryOutbox.OutboxOverRuns | src/tabdeal_signal/persistence/in_memory_outbox.py:19-116 | over any run keys stay distinct, every leased event exists, messages keep their fields, and delivered ones stay delivered |
| InMemoryOutbox.ReplacementIsDisjoint | src/tabdeal_signal/persistence/in_memory_outbox.py:95-102 | a lease and its replacement cover disjoint times |
| InMemoryOutbox.LostLeaseNeverReturns | src/tabdeal_signal/persistence/in_memory_outbox.py:37-40 | a lease that was replaced, released or consumed never delivers or releases again |
| InMemoryOutbox.DeliveryNeedsTheCurrentLease | src/tabdeal_signal/persistence/in_memory_outbox.py:31-59 | delivery succeeds exactly for the lease on record, delivers that message only, and a failure changes nothing |
| InMemoryOutbox.ExpiredDeliveryPossible | src/tabdeal_signal/persistence/in_memory_outbox.py:31-59 | some expired lease can deliver an event if and only if the lease on record has run out |
| InMemoryOutbox.ExpiredLeaseDelivers | src/tabdeal_signal/persistence/in_memory_outbox.py:31-59 | a run after which an expired lease delivers |
| InMemoryOutbox.ReenqueueAfterRun | src/tabdeal_signal/persistence/in_memory_outbox.py:22-27 | an accepted message enqueued again after any run is a duplicate exactly while its status is unchanged, and otherwise a collision |
| InMemoryOutbox.ReenqueueCollides | src/tabdeal_signal/persistence/in_memory_outbox.py:22-27 | a message enqueued, leased and delivered, then enqueued again: a collision, where before the delivery it was a duplicate |
| InMemoryOutbox.DuplicateAccepted | src/tabdeal_signal/persistence/in_memory_outbox.py:19-29 | two messages of one event under two keys are both accepted, and the second is shadowed |
| InMemoryOutbox.EventIdsDistinctIff | src/tabdeal_signal/persistence/in_memory_outbox.py:19-29 | event ids distinct before a run are distinct after it if and only if every `enqueue` of it met a known key or an unknown event id |
| InMemoryOutbox.ShadowedNeverChanges | src/tabdeal_signal/persistence/in_memory_outbox.py:41-58 | a message behind an earlier one of its event never changes again |
| InMemoryOutbox.DeliverableIff | src/tabdeal_signal/persistence/in_memory_outbox.py:19-59 | a pending message can be delivered by some run if and only if no earlier message has its event id |
| LeaseTakeover.EnqueueAnswers | src/tabdeal_signal/persistence/in_memory_outbox.py:19-29 | new exactly for an unknown key, duplicate exactly for a stored message, collision otherwise |
| LeaseTakeover.AcquireAnswers | src/tabdeal_signal/persistence/in_memory_outbox.py:76-102 | granted if and only if the arguments are proper, the event is stored and no lease on record lasts past the start; the lease then has the caller's fields and is the one on record; every refusal with its condition |
| LeaseTakeover.TokenIsNew | src/tabdeal_signal/persistence/in_memory_outbox.py:84-102 | the token of a granted lease was on record at no earlier point of the run, for no event |
| LeaseTakeover.DeliverAnswers | src/tabdeal_signal/persistence/in_memory_outbox.py:31-59 | exactly the lease on record delivers, the first message of the event changes and no other, and each error has its condition |
| LeaseTakeover.DeliveryConsumesLease | src/tabdeal_signal/persistence/in_memory_outbox.py:49-59 | the delivery of a pending message gives up the lease, a repeated one keeps it |
| LeaseTakeover.ReleaseAnswers | src/tabdeal_signal/persistence/in_memory_outbox.py:104-111 | the lease on record, and no other, is given back |
| LeaseTakeover.Takeover | src/tabdeal_signal/persistence/in_memory_outbox.py:76-102 | after any run, once the lease on record has run out, any worker gets a lease, that lease delivers the event, and the former one is refused; nobody has to give anything back |
| Strategy.ComputeConfirmedSwings | src/tabdeal_signal/strategy/engine.py:24-35 | the loop computes the list of confirmed swings |
| Strategy.SwingsExactly | src/tabdeal_signal/strategy/engine.py:24-35 | that list holds exactly the candles strictly beyond two neighbours on either side, each once, in order, confirmed by the second candle after it |
| SwingPrices.SwingPoints | src/tabdeal_signal/strategy/engine.py:24-35 | a point is in the list of swings if and only if its candle is beyond the four candles within two places, has that price, and is confirmed when the second candle after it closes; in candle prices, for highs and for lows |
| Strategy.ComputeBreakEvents | src/tabdeal_signal/strategy/engine.py:58-72 | the loop computes the list of break events |
| Strategy.TrendByPosition | src/tabdeal_signal/strategy/engine.py:38-55 | in a series in time order the trend depends on the swings at least two candles before the first unclosed one, and on nothing else |
| Strategy.BreaksByPosition | src/tabdeal_signal/strategy/engine.py:58-72 | the events are those of the closed candles, each compared with swings at least three positions earlier |
| Strategy.TrendMeans | src/tabdeal_signal/strategy/engine.py:43-55 | the trend has a direction if and only if the last two swing highs and the last two swing lows, of those confirmed by a closed candle, both move that way |
| SwingPrices.TrendInPrices | src/tabdeal_signal/strategy/engine.py:38-55 | the trend in candle prices: LONG or SHORT if and only if the last two swing highs and the last two swing lows that closed candles confirm move that way |
| OuterNeighbour.OuterNeighbourDecides | src/tabdeal_signal/strategy/engine.py:28-34 | two valid series that differ in the high of one candle two places from a swing, one with the trend LONG and one with none |
| Strategy.BreakEventsMean | src/tabdeal_signal/strategy/engine.py:58-72 | an event is in the list if and only if some candle closed at its time, before the reference time, beyond the last swing high (LONG) or, failing that, the last swing low (SHORT) confirmed before it |
| SwingPrices.BreakEventsInPrices | src/tabdeal_signal/strategy/engine.py:58-72 | the same in candle prices, for LONG and for SHORT |
| Strategy.NoLookAhead | src/tabdeal_signal/strategy/engine.py:38-72 | trend and events of a series are those of its candles closed before the reference time |
| Strategy.LaterCandlesChangeNothing | src/tabdeal_signal/strategy/engine.py:38-72 | appending candles that close at or after the reference time changes neither |
| Strategy.EarlierReferenceSeesPrefix | src/tabdeal_signal/strategy/engine.py:58-72 | an earlier reference time sees a prefix of the later event list |
| Strategy.BreakEventsAscend | src/tabdeal_signal/strategy/engine.py:58-72 | events are in strictly ascending time and before the reference time |
| StrategySymmetry.TrendFlips | src/tabdeal_signal/strategy/engine.py:43-55 | negating all prices flips the trend, for every series |
| StrategySymmetry.BreakEventsFlip | src/tabdeal_signal/strategy/engine.py:65-71 | it flips every break event if and only if no closed candle breaks both ways |
| StrategySymmetry.SymmetryFails | src/tabdeal_signal/strategy/engine.py:68-71 | a valid gap-free series that breaks both ways, whose events do not flip |
| Evaluation.StructureClosedForm | src/tabdeal_signal/strategy/engine.py:75-88 | the BOS is the latest event of the direction; a CHOCH is reported exactly when the very last event is of the other direction, and is that event |
| Evaluation.SeriesOutcome | src/tabdeal_signal/strategy/engine.py:113-132 | eligibility and reason in closed form, from the 4h trend, the last 1h event and the 15m events |
| Evaluation.EligibleIff | src/tabdeal_signal/strategy/engine.py:102-132 | on every snapshot: eligible if and only if all three series exist and are integral, the 4h trend is the side's, the very last 1h event is the side's, and some 15m event of the side is later |
| DecisionAnswers.EvaluationAnswers | src/tabdeal_signal/strategy/engine.py:102-111 | candles missing, the first reason of the first timeframe in the order 4h, 1h, 15m that is not valid, and otherwise the three series |
| DecisionAnswers.SeriesAnswers | src/tabdeal_signal/strategy/engine.py:113-132 | the evaluation of the three series, check by check, with the text of every reason |
| Evaluation.NeverBothEligible | src/tabdeal_signal/strategy/engine.py:115-118 | LONG and SHORT of one symbol are never both eligible |
| Evaluation.EligibleFollowsTrend | src/tabdeal_signal/strategy/engine.py:115-132 | an eligible side points the way of the 4h trend |
| Evaluation.FaultIsDataReason | src/tabdeal_signal/strategy/engine.py:108-111 | a failed series check is reported by one of its own eight reasons |
| Evaluation.SeriesLookBackOnly | src/tabdeal_signal/strategy/engine.py:113-132 | after the series checks, candles not closed at the reference time cannot change the outcome |
| Evaluation.EvaluationLooksBackOnly | src/tabdeal_signal/strategy/engine.py:102-132 | `evaluate` as a whole, checks included: on sound series it decides as on the candles closed at the reference time, with the same reason when all three timeframes have closed candles |
| EvaluationSymmetry.SnapshotReasonsMirrored | src/tabdeal_signal/data/series.py:98-118 | the series checks look at no price |
| EvaluationSymmetry.EvaluationFlips | src/tabdeal_signal/strategy/engine.py:102-132 | mirroring a snapshot swaps the LONG and SHORT evaluations, reasons included, when no closed 1h or 15m candle breaks both ways; the simple case of `EvaluationFlipsIff` |
| ExactSymmetry.MirroredEvents | src/tabdeal_signal/strategy/engine.py:65-71 | the events of any mirrored series: each event flipped, except those of candles that break both ways, which stay LONG |
| ExactSymmetry.MirrorConfirmsIff | src/tabdeal_signal/strategy/engine.py:113-132 | the mirrored series confirm the other side if and only if the trend is the side's, the last 1h event counts for the side and some later 15m event does; LONG is counted by one-sided LONG events, SHORT by SHORT events and candles that break both ways |
| ExactSymmetry.EvaluationFlipsIff | src/tabdeal_signal/strategy/engine.py:102-132 | eligibility and reason flip if and only if the snapshot is unusable, the trend is another, or events by direction and events that count give the same verdict |
| ExactSymmetry.EligibilityFlipsIff | src/tabdeal_signal/strategy/engine.py:102-132 | the exact condition for eligibility to flip; LONG eligibility is only ever lost in the mirror, SHORT eligibility only gained |
| GapMarket.EvaluationFailsToFlip | src/tabdeal_signal/strategy/engine.py:68-71 | a snapshot the constructor accepts, as it does the mirrored one, on which LONG is eligible while SHORT is not on the mirrored prices |
| GapMarket.FinalFailsToFlip | src/tabdeal_signal/strategy/engine.py:68-71 | on that snapshot the final decision does not flip either, unless the LONG risk policy turns the signal down |
| GapMarket.MarketIsSnapshot | src/tabdeal_signal/data/contracts.py:44-68 | its candles are valid, in order, distinct and closed before the reference time |
| MarketData.SnapshotAccepted | src/tabdeal_signal/data/contracts.py:44-68 | what the constructors of a snapshot and its candles accept, in the fields of the candles |
| DecisionPipeline.FinalOutcome | src/tabdeal_signal/decision/pipeline.py:15-84 | the whole pipeline for one symbol on every input: request mismatch, NO_SIGNAL, or the answer of the one eligible side's risk policy |
| DecisionPipeline.SignalIff | src/tabdeal_signal/decision/final.py:46-72 | a SIGNAL of a direction is issued if and only if the request is consistent, that side is eligible, its risk policy allows it in its direction and the signal id is not blank; every other decision is NO_SIGNAL |
| DecisionAnswers.FinalAnswers | src/tabdeal_signal/decision/pipeline.py:15-84 | the final decision about one symbol in the fields of the request, with every error and code as its text |
| DecisionAnswers.ResolverAnswers | src/tabdeal_signal/strategy/conflict.py:57-68 | two eligible evaluators: the resolver's errors, its changed directions, and the risk gate of the side it leaves |
| DecisionAnswers.BothResolvedAnswers | src/tabdeal_signal/decision/final.py:46-72 | both sides left standing: both risk policies are asked, and two allowed sides are a conflict |
| DecisionAnswers.RefusedRequests | src/tabdeal_signal/decision/pipeline.py:29-31 | a request that does not fit its snapshot, and an evaluator that answers for the other side |
| DecisionAnswers.GatesRefuseWrongSides | src/tabdeal_signal/strategy/conflict.py:22-53 | the resolver, the conflict gate and the final gate refuse decisions about the wrong sides |
| DecisionPipeline.ResolverNeverMatters | src/tabdeal_signal/strategy/conflict.py:57-68 | no conflict resolver can influence a decision about one symbol |
| DecisionPipeline.ConflictFailsClosed | src/tabdeal_signal/strategy/conflict.py:22-42 | when evaluators of different symbols are both eligible the shipped resolver blocks, whatever the risk policies |
| DecisionPipeline.StrategyNeverClaimsConflict | src/tabdeal_signal/decision/final.py:51-57 | the strategy never produces the conflict code that the final gate looks for |
| DecisionSymmetry.FinalFlipsIff | src/tabdeal_signal/decision/pipeline.py:52-84 | mirrored prices and mirrored risk policies give the mirrored final decision if and only if the request is refused, or each side's eligibility flips unless its risk policy turns the signal down |
| DecisionSymmetry.FinalFlips | src/tabdeal_signal/decision/pipeline.py:52-84 | so they do when no closed 1h or 15m candle of the symbol breaks both ways |
| Series.ParsedTimeframe | src/tabdeal_signal/data/series.py:19-33 | a parsed timeframe spells the stripped text and lasts a positive time |
| Text.StripMeans | src/tabdeal_signal/data/series.py:21 | stripping removes blanks from both ends and nothing else |
| Series.TimeframeIff | src/tabdeal_signal/data/series.py:19-33 | a timeframe parses if and only if its stripped text is a positive count of minutes, hours, days or weeks, and then lasts exactly that |
| Series.OrderCheck | src/tabdeal_signal/data/series.py:67-68 | comparing with the sorted copy decides whether open times ascend |
| StableSort.SortPermutes | src/tabdeal_signal/data/series.py:84 | sorting permutes |
| StableSort.SortOrders | src/tabdeal_signal/data/series.py:84 | sorting orders by the key |
| Series.FindWrongDuration | src/tabdeal_signal/data/series.py:77-82 | the duration loop finds a wrong candle exactly when there is one |
| Series.FindBreak | src/tabdeal_signal/data/series.py:84-91 | the neighbour loop reports the first overlap or gap |
| Series.ValidateCandleSeries | src/tabdeal_signal/data/series.py:48-95 | the reasons of the report, in order |
| Series.ReasonsMean | src/tabdeal_signal/data/series.py:64-91 | when each reason is given; only the first neighbours that do not touch decide between overlap and gap |
| Series.ValidIffIntegral | src/tabdeal_signal/data/series.py:48-95 | the report is valid if and only if the series is not empty, the timeframe parses, every candle has it and its exact duration, and each opens when the one before closes; order and uniqueness follow |
| Series.ValidInFields | src/tabdeal_signal/data/series.py:48-95 | the same in the fields of the candles |
| Series.ReasonsInFields | src/tabdeal_signal/data/series.py:64-82 | mismatch, order, duplicate and duration reasons, each if and only if two or one candles have the fields that call for it |
| Series.OneReasonReports | src/tabdeal_signal/data/series.py:54-62 | the reports on no candles and on a timeframe that does not parse |
| Series.ReasonsInOrder | src/tabdeal_signal/data/series.py:64-93 | reasons are listed in the order of the checks, each once |
| Series.OpensOnGrid | src/tabdeal_signal/data/series.py:84-91 | candle i of such a series opens at the first open plus i durations |
| Series.SnapshotValidIff | src/tabdeal_signal/data/series.py:98-118 | a snapshot's timeframe is valid if and only if it parses, some candle has it, and each symbol's series is integral |
| Series.SnapshotReasonsMean | src/tabdeal_signal/data/series.py:98-118 | a snapshot report holds exactly the reasons of the series of its symbols |
| Series.SnapshotReportStarts | src/tabdeal_signal/data/series.py:98-118 | it repeats none, and starts with the first reason of the first symbol in text order whose series is not valid |
| MarketData.CandlesForActs | src/tabdeal_signal/data/contracts.py:70-75 | selecting a series keeps exactly the candles of the symbol and timeframe, in their order |
| Alignment.ValidateAlignment | src/tabdeal_signal/data/alignment.py:64-89 | the flag loop reports a boundary mismatch exactly when some candle has another timeframe or opens at no anchor plus n durations |
| Alignment.GridFollowsFirst | src/tabdeal_signal/data/alignment.py:25-33 | all candles of a valid series are on the anchor grid if and only if the first is; that needs a timeframe text without surrounding blanks |
| Alignment.ContainsMeans | src/tabdeal_signal/data/alignment.py:25-33 | a candle is on the grid if and only if it has the timeframe and opens at the anchor plus a natural number of durations |
| Alignment.ClosedArePrefix | src/tabdeal_signal/data/alignment.py:48-61 | the closed candles of a contiguous series are its first (reference - open_0 - 1) div duration, capped |
| MarketData.SelectClosedActs | src/tabdeal_signal/data/alignment.py:48-61 | selecting closed candles acts candle by candle, in their order |
| MarketData.SelectClosedOne | src/tabdeal_signal/data/alignment.py:48-61 | a candle is kept if and only if it closed strictly before the reference time |
| Alignment.AlignmentOutcome | src/tabdeal_signal/data/alignment.py:92-134 | the outcome on every input: the series reasons, a boundary mismatch, no closed candle, or candle number min(n, (reference - open_0 - 1) div duration) - 1; ambiguity is unreachable |
| Alignment.AlignmentInTimes | src/tabdeal_signal/data/alignment.py:92-134 | the answer on an integral series in times: a boundary mismatch if and only if the text has surrounding blanks or the series opens at no anchor plus n durations; a selected candle is the latest closed one and opens on that grid |
| Replay.Build | src/tabdeal_signal/data_sources/replay.py:140-156 | the sorted snapshots or the first error |
| Replay.SourceExistsIff | src/tabdeal_signal/data_sources/replay.py:140-156 | a source exists if and only if there are snapshots, all say when they became available, and no two say the same |
| Replay.SourceAnswers | src/tabdeal_signal/data_sources/replay.py:140-156 | each refusal with its condition on the times given |
| Replay.BisectSplits | src/tabdeal_signal/data_sources/replay.py:162 | halving finds the one split between times up to the argument and times after it |
| Replay.FetchMeans | src/tabdeal_signal/data_sources/replay.py:158-180 | the latest snapshot available by then, or the stand-in when there is none |
| Replay.FetchAnswers | src/tabdeal_signal/data_sources/replay.py:158-180 | the same over the snapshots as they were given, in their own times, with every field of the stand-in |
| Replay.FetchIsScan | src/tabdeal_signal/data_sources/replay.py:158-180 | sort and bisect return what one scan of the snapshots as given returns |
| Replay.TimesOfLast | src/tabdeal_signal/data_sources/replay.py:159-160 | without a time the answer is the latest snapshot of all |
| Replay.FetchIsMonotone | src/tabdeal_signal/data_sources/replay.py:158-180 | never from the future, and a later time never gets an earlier snapshot or falls back to the stand-in |
| Replay.InputOrderIrrelevant | src/tabdeal_signal/data_sources/replay.py:150-154 | snapshots in any order give the same source or the same refusal |
| Replay.LaterSnapshotsChangeNothing | src/tabdeal_signal/data_sources/replay.py:158-180 | adding snapshots available only later leaves an answer as it was if and only if some snapshot was available by then, or the earliest ones agree in kind, topic and provenance |
| Replay.StandInLooksAhead | src/tabdeal_signal/data_sources/replay.py:163-179 | a lookup whose answer changes when a snapshot is added that becomes available later |
| ChartFilter.CollectCompleted | src/tabdeal_signal/data_sources/deribit_public.py:131-137 | the tick loop returns the completed indices, or refuses an invalid tick |
| ChartFilter.FilterColumns | src/tabdeal_signal/data_sources/deribit_public.py:140-149 | the column loop restricts every column, or names the first of the wrong length |
| ChartFilter.FilterChart | src/tabdeal_signal/data_sources/deribit_public.py:111-150 | the filtered chart or the first error, in the order of the checks |
| ChartFilter.FilterAnswers | src/tabdeal_signal/data_sources/deribit_public.py:111-150 | each refusal with its condition in the fields of the chart: an unknown resolution, an invalid tick, no candle that ends before the cutoff |
| ChartFilter.MismatchAnswers | src/tabdeal_signal/data_sources/deribit_public.py:143-148 | the column named is the first, in the order of the checks, that does not fit |
| ChartFilter.CompletedRowsAct | src/tabdeal_signal/data_sources/deribit_public.py:135-139 | a row is kept if and only if its tick plus its minutes is before the cutoff, row by row |
| ChartFilter.AcceptedIsAligned | src/tabdeal_signal/data_sources/deribit_public.py:145-148 | the length check passes if and only if every column is null or a list as long as the ticks |
| ChartFilter.ColumnFilterIsRowFilter | src/tabdeal_signal/data_sources/deribit_public.py:130-150 | filtering columns is filtering whole rows: columns stay aligned, exactly the completed candles remain in order, nothing else changes |
| ChartFilter.FilterTwice | src/tabdeal_signal/data_sources/deribit_public.py:111-150 | filtering at a later time and then at an earlier one is filtering at the earlier one |
| ChartFilter.RefusedEarlier | src/tabdeal_signal/data_sources/deribit_public.py:111-150 | what is refused at a later time is refused at an earlier one |

## Left out

- Tokens are numbers that never repeat; the text of a `uuid4` is not modelled.
- PayloadText.PayloadInjective: the JSON text is a tree of its parts; quoting, escaping and separators of `json.dumps` are library behaviour. A Python string may hold a surrogate pair as two characters, which `json.dumps` writes like the one character it encodes; Dafny strings cannot express the pair, so two requests that differ only in this are outside the model.
- OutboxSystem.Reopens: column types, JSON syntax and canonical timestamps hold by the types of the model; schema migration, PRAGMA and index introspection are not modelled.
- IsoTime.PlusSeconds: parsing of timestamp text, naive timestamps and other offsets are not modelled; every time is a UTC instant of years 1 to 9999.
- SqliteStore.SQLiteDecisionPersistence.ClaimPendingOutbox: the default owner `worker:<uuid>` is an argument, and a transaction is one atomic step; SQLite's locking and busy errors are not modelled.
- Worker.NotificationWorker.RunOnce: the transport, the decoding of the payload and the clocks are inputs; the text of an error is only known not to be blank.
- InMemoryOutbox.InMemoryOutboxLeaseRepository.AcquireLease: the lock makes each call atomic; threads are not modelled.
- Strategy.BreakEventsFlip: prices are reals; the source compares finite floats and integers, whose order is that of the numbers they stand for.
- Series.ParsedTimeframe: a timeframe too long for `timedelta` raises OverflowError in Python; the model has no upper bound. NON_UTC_TIMESTAMP cannot occur in the model because every time is UTC.
- DecisionPipeline.FinalOutcome: risk policies are arbitrary functions; the shipped risk policy's own rule is not modelled.
- Replay.FetchMeans: values of a snapshot are text by name; nested JSON values and the fixture codec are not modelled.
- ChartFilter.FilterChart: the cutoff in milliseconds and the integer that `int(...)` makes of the resolution are arguments; the float rounding of `timestamp() * 1000` is not modelled.
- Network adapters, transports, the other data sources, Telegram settings and message formatting: input and output only.
- Catalogues, manifests, readiness reports and runtime configuration: constant tables.
- `src/tabdeal_signal/worker.py`: an older worker whose calls do not match the signatures of the store.
- Constructor type checks ("must be a string"): the types of the model.
