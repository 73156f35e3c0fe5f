/** What the worker does with one claimed record. */
module WorkerPlans {
  import opened Wrappers
  import opened Text
  import opened IsoTime
  import opened OutboxTable
  import opened OutboxSystem
  import opened OutboxSafety
  import opened OutboxDrain
  import opened Backoff

  /** What decoding and sending one record came to. */
  datatype Delivery = Sent | Failed(error: string)

  datatype Config = Config(maxAttempts: nat, baseBackoffSeconds: nat, leaseSeconds: nat, batchSize: nat)

  /** `NotificationWorker.__init__`. */
  predicate ValidConfig(c: Config)
  {
    c.maxAttempts >= 1 && c.baseBackoffSeconds >= 1 && c.leaseSeconds >= 1 && c.batchSize >= 1
  }

  /** `_error_text` is never blank: it starts with the type name of the exception. */
  predicate ValidDelivery(d: Delivery)
  {
    d.Failed? ==> !Blank(d.error)
  }

  /** What `_process_record` does with a record. */
  datatype Plan =
    | Skip                                                        // no exact ownership: left for recovery
    | Overflow                                                    // the backoff passes year 9999
    | Close(target: Target, finaliser: Finaliser)

  const INVALID_EVENT_ID := "invalid event_id: empty or whitespace-only"

  function PlanFor(record: Item, current: Instant, d: Delivery, c: Config): Plan
  {
    if record.row.owner.None? || Blank(record.row.owner.value) || record.row.token.None? then Skip
    else if Blank(record.row.eventId) then Close(ByRowid(record.internalId), MarkDead(INVALID_EVENT_ID))
    else
      match d
      case Sent => Close(ByEvent(record.row.eventId), MarkSent(current))
      case Failed(error) =>
        if record.row.attempts >= c.maxAttempts then Close(ByEvent(record.row.eventId), MarkDead(error))
        else
          match PlusSeconds(current, BackoffSeconds(c.baseBackoffSeconds, record.row.attempts))
          case None => Overflow
          case Some(at) => Close(ByEvent(record.row.eventId), MarkRetry(at, error))
  }

  /** The tables after `_process_record`, and whether it returned normally. */
  function Processed(rows: Table, record: Item, current: Instant, d: Delivery, clock: Instant, c: Config): (Table, bool)
  {
    match PlanFor(record, current, d, c)
    case Skip => (rows, true)
    case Overflow => (rows, false)
    case Close(target, f) =>
      var worker, lease := record.row.owner.value, record.row.token.value;
      (Finalised(rows, target, f, worker, lease, clock), FinaliserSucceeds(rows, target, f, worker, lease, clock))
  }

  /** A record whose row still stands as it was claimed. */
  predicate StillClaimed(rows: Table, record: Item)
  {
    && 1 <= record.internalId <= |rows| && rows[record.internalId - 1] == record.row
    && RowSound(record.row) && record.row.status == PROCESSING
  }

  /** The finalisation of a claimed record succeeds: its lease is live and no date overflows. */
  predicate Finalisable(record: Item, current: Instant, d: Delivery, clock: Instant, c: Config)
  {
    && PlanFor(record, current, d, c).Close?
    && record.row.lockedUntil.Some? && clock < record.row.lockedUntil.value
  }

  /** The row after a successful finalisation of its record. */
  function FinalRow(record: Item, current: Instant, d: Delivery, clock: Instant, c: Config): Row
    requires PlanFor(record, current, d, c).Close?
  {
    Apply(record.row, FinalMove(PlanFor(record, current, d, c).finaliser,
                                record.row.owner.value, record.row.token.value, clock))
  }

  lemma FinalisedTable(rows: Table, target: Target, f: Finaliser, worker: string, lease: Token, clock: Instant, i: nat)
    requires DistinctEvents(rows) && FinaliserSucceeds(rows, target, f, worker, lease, clock)
    requires i < |rows| && i in Matched(rows, target, worker, lease, clock)
    ensures Finalised(rows, target, f, worker, lease, clock)
            == rows[i := Apply(rows[i], FinalMove(f, worker, lease, clock))]
  {
    MatchedUnique(rows, target, worker, lease, clock, i);
  }

  /** On a row that still stands as claimed, processing succeeds exactly while the lease
      lasts, and changes that row only; skipping and quarantine are unreachable. */
  lemma RecordIsProcessed(rows: Table, record: Item, current: Instant, d: Delivery, clock: Instant, c: Config)
    requires DistinctEvents(rows) && StillClaimed(rows, record) && ValidDelivery(d)
    ensures !PlanFor(record, current, d, c).Skip?
    ensures PlanFor(record, current, d, c).Close?
            ==> PlanFor(record, current, d, c).target == ByEvent(record.row.eventId)
    ensures Processed(rows, record, current, d, clock, c)
            == if Finalisable(record, current, d, clock, c)
               then (rows[record.internalId - 1 := FinalRow(record, current, d, clock, c)], true)
               else (rows, false)
  {
    var i := record.internalId - 1;
    var plan := PlanFor(record, current, d, c);
    if plan.Close? {
      var worker, lease := record.row.owner.value, record.row.token.value;
      if clock < record.row.lockedUntil.value {
        HolderMatches(rows, plan.target, i, worker, lease, clock);
        FinalisedTable(rows, plan.target, plan.finaliser, worker, lease, clock, i);
      } else {
        forall j: nat | j < |rows| ensures j !in Matched(rows, plan.target, worker, lease, clock) {
          if j != i { assert rows[j].eventId != rows[i].eventId; }
        }
        assert Matched(rows, plan.target, worker, lease, clock) == {};
      }
    }
  }

  /** A successful finalisation by the worker's policy pays one unit of the drain measure. */
  lemma RecordPays(rows: Table, record: Item, current: Instant, d: Delivery, clock: Instant, c: Config)
    requires StillClaimed(rows, record) && ValidDelivery(d)
    requires Finalisable(record, current, d, clock, c)
    ensures TotalOwed(rows[record.internalId - 1 := FinalRow(record, current, d, clock, c)], c.maxAttempts)
            < TotalOwed(rows, c.maxAttempts)
  {
    var i := record.internalId - 1;
    var f := PlanFor(record, current, d, c).finaliser;
    MoveNeverOwesMore(record.row, FinalMove(f, record.row.owner.value, record.row.token.value, clock), c.maxAttempts);
    TotalDrops(rows, rows[i := FinalRow(record, current, d, clock, c)], c.maxAttempts, i);
  }

  /** What a finalised record becomes: SENT exactly when its message was delivered, at the time
      of the pass; DEAD_LETTER when a failed one has used up its attempts; RETRY otherwise, due
      after the exponential delay. Its lease is gone and its attempts are as claimed. */
  lemma FinalRowMeans(record: Item, current: Instant, d: Delivery, clock: Instant, c: Config)
    requires RowSound(record.row) && record.row.status == PROCESSING && PlanFor(record, current, d, c).Close?
    ensures var r := FinalRow(record, current, d, clock, c);
            var exhausted := record.row.attempts >= c.maxAttempts;
            && (r.status == SENT <==> d.Sent?) && (d.Sent? ==> r.sentAt == Some(current))
            && (r.status == DEAD_LETTER <==> d.Failed? && exhausted)
            && (r.status == RETRY <==> d.Failed? && !exhausted)
            && (d.Failed? ==> r.lastError == Some(d.error) && r.sentAt.None?)
            && (r.status == RETRY ==>
                  r.nextAttemptAt.Some?
                  && r.nextAttemptAt.value == current
                       + BackoffSeconds(c.baseBackoffSeconds, record.row.attempts) * MICROS_PER_SECOND)
            && r.attempts == record.row.attempts && r.eventId == record.row.eventId && r.payload == record.row.payload
            && r.owner.None? && r.token.None? && r.lockedUntil.None? && r.updatedAt == clock
  {
    hide BackoffSeconds;
  }

  /** Planned at the time of the claim, a finalisation is the one the policy decides. */
  lemma PlanFollowsPolicy(record: Item, current: Instant, d: Delivery, clock: Instant, c: Config)
    requires RowSound(record.row) && record.row.status == PROCESSING && record.row.updatedAt == current
             && ValidDelivery(d)
    ensures var plan := PlanFor(record, current, d, c);
            plan.Close? ==>
              var m := FinalMove(plan.finaliser, record.row.owner.value, record.row.token.value, clock);
              && WorkerPolicy(record.row, m, c.baseBackoffSeconds, c.maxAttempts)
              && RetryBelowLimit(record.row, m, c.maxAttempts)
  {
    hide BackoffSeconds;
  }

  /** What the worker plans for a record, in its fields: nothing without exact ownership, a
      quarantine by rowid for an event id that is blank, and otherwise by the transport's reply. */
  lemma PlanAnswers(record: Item, current: Instant, d: Delivery, c: Config)
    ensures var plan, row := PlanFor(record, current, d, c), record.row;
            var owned := row.owner.Some? && !Blank(row.owner.value) && row.token.Some?;
            && (plan == Skip <==> !owned)
            && (owned && Blank(row.eventId) ==>
                  plan == Close(ByRowid(record.internalId), MarkDead("invalid event_id: empty or whitespace-only")))
            && (owned && !Blank(row.eventId) ==>
                  match d
                  case Sent => plan == Close(ByEvent(row.eventId), MarkSent(current))
                  case Failed(error) =>
                    if row.attempts >= c.maxAttempts then plan == Close(ByEvent(row.eventId), MarkDead(error))
                    else
                      var due := current + BackoffSeconds(c.baseBackoffSeconds, row.attempts) * 1_000_000;
                      if due >= MAX_INSTANT then plan == Overflow
                      else plan == Close(ByEvent(row.eventId), MarkRetry(due, error)))
  {
    hide BackoffSeconds, Blank;
  }

  /** Processing a record: skipped without a change, refused without a change when the retry time
      overflows, and otherwise the finaliser of its plan under the record's own lease. */
  lemma ProcessedAnswers(rows: Table, record: Item, current: Instant, d: Delivery, clock: Instant, c: Config)
    ensures match PlanFor(record, current, d, c)
            case Skip => Processed(rows, record, current, d, clock, c) == (rows, true)
            case Overflow => Processed(rows, record, current, d, clock, c) == (rows, false)
            case Close(target, f) =>
              record.row.owner.Some? && record.row.token.Some? &&
              var worker, lease := record.row.owner.value, record.row.token.value;
              Processed(rows, record, current, d, clock, c)
              == (Finalised(rows, target, f, worker, lease, clock),
                  FinaliserSucceeds(rows, target, f, worker, lease, clock))
  {
    hide Finalised, FinaliserSucceeds, BackoffSeconds;
  }

  /** What the worker accepts: settings of at least one, and errors that are not blank. */
  lemma WorkerAccepts(c: Config, d: Delivery)
    ensures ValidConfig(c) <==> c.maxAttempts > 0 && c.baseBackoffSeconds > 0 && c.leaseSeconds > 0 && c.batchSize > 0
    ensures ValidDelivery(d) <==> d.Sent? || exists i :: 0 <= i < |d.error| && !IsSpace(d.error[i])
  {
  }
}
