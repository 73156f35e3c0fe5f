/** `NotificationWorker`: claim a batch, send each record, finalise it. */
module Worker {
  import opened Wrappers
  import opened Text
  import opened IsoTime
  import opened OutboxTable
  import opened OutboxSystem
  import opened OutboxDrain
  import opened Backoff
  import opened SqliteStore
  import opened StoredRows
  import opened WorkerPlans
  import opened WorkerRuns

  // ---------------------------------------------------------------- the batch

  function BatchIds(rows: Table, now: Instant, c: Config): (ids: seq<nat>)
    requires DistinctEvents(rows)
    ensures |ids| <= c.batchSize
  {
    SelectEligible(rows, now, c.batchSize)
  }

  /** The table right after the claim of a pass, and the records it returns. */
  function ClaimedTable(rows: Table, now: Instant, until: Instant, worker: string, tokens: seq<Token>,
                        c: Config): (r: Table)
    requires DistinctEvents(rows) && c.batchSize <= |tokens|
    ensures |r| == |rows|
  {
    var ids := BatchIds(rows, now, c);
    ClaimBatch(rows, ids, tokens[..|ids|], now, until, worker)
  }

  function ClaimedRecords(rows: Table, now: Instant, until: Instant, worker: string, tokens: seq<Token>,
                          c: Config): seq<Item>
    requires DistinctEvents(rows) && c.batchSize <= |tokens|
  {
    var ids := BatchIds(rows, now, c);
    ClaimItems(rows, ids, tokens[..|ids|], now, until, worker)
  }

  /** A pass claims every row it selected. */
  lemma {:induction false} SelectedAreReturned(rows: Table, ids: seq<nat>, tokens: seq<Token>, now: Instant,
                          until: Instant, worker: string)
    requires |ids| == |tokens| && DistinctIds(ids) && now < until && !Blank(worker)
    requires forall k :: 0 <= k < |ids| ==> ids[k] < |rows| && Eligible(rows[ids[k]], now)
    ensures |ClaimItems(rows, ids, tokens, now, until, worker)| == |ids|
    decreases |ids|
  {
    if |ids| > 0 {
      var last := |ids| - 1;
      SelectedAreReturned(rows, ids[..last], tokens[..last], now, until, worker);
      assert ids[last] !in ids[..last];
      BatchRow(rows, ids[..last], tokens[..last], now, until, worker, ids[last]);
    }
  }

  lemma BatchIsSelection(rows: Table, now: Instant, until: Instant, worker: string, tokens: seq<Token>, c: Config)
    requires DistinctEvents(rows) && c.batchSize <= |tokens| && now < until && !Blank(worker)
    ensures DistinctIds(BatchIds(rows, now, c))
    ensures |ClaimedRecords(rows, now, until, worker, tokens, c)| == |BatchIds(rows, now, c)|
  {
    var ids := BatchIds(rows, now, c);
    FirstInOrderMeaning(rows, EligibleRows(rows, now), c.batchSize);
    SelectionDistinct(rows, EligibleRows(rows, now), c.batchSize, ids);
    SelectedAreReturned(rows, ids, tokens[..|ids|], now, until, worker);
  }

  lemma ItemStands(item: Item, rows: Table, ids: seq<nat>, tokens: seq<Token>, now: Instant, until: Instant,
                   worker: string)
    requires |ids| == |tokens| && RowsSound(rows) && IsClaimItem(item, rows, ids, tokens, now, until, worker)
    ensures StillClaimed(ClaimBatch(rows, ids, tokens, now, until, worker), item)
  {
    var i := item.internalId - 1;
    BatchRow(rows, ids, tokens, now, until, worker, i);
    MoveKeepsSound(rows[i], BatchMove(rows, ids, tokens, now, until, worker, i));
  }

  /** Each record of a batch stands in the claimed table, and no two share a row. */
  lemma BatchStands(rows: Table, now: Instant, until: Instant, worker: string, tokens: seq<Token>, c: Config)
    requires DistinctEvents(rows) && RowsSound(rows) && c.batchSize <= |tokens| && now < until && !Blank(worker)
    ensures var records := ClaimedRecords(rows, now, until, worker, tokens, c);
            && DistinctItems(records)
            && forall k :: 0 <= k < |records|
                 ==> StillClaimed(ClaimedTable(rows, now, until, worker, tokens, c), records[k])
  {
    var ids := BatchIds(rows, now, c);
    var drawn := tokens[..|ids|];
    var records := ClaimedRecords(rows, now, until, worker, tokens, c);
    var claimed := ClaimedTable(rows, now, until, worker, tokens, c);
    BatchIsSelection(rows, now, until, worker, tokens, c);
    ItemsAreDistinct(rows, ids, drawn, now, until, worker);
    forall k | 0 <= k < |records| ensures StillClaimed(claimed, records[k]) {
      ItemIsClaim(records[k], rows, ids, drawn, now, until, worker);
      ItemStands(records[k], rows, ids, drawn, now, until, worker);
    }
  }

  /** Claiming owes no more than before. */
  lemma ClaimOwesNoMore(rows: Table, now: Instant, until: Instant, worker: string, tokens: seq<Token>, c: Config)
    requires DistinctEvents(rows) && c.batchSize <= |tokens|
    ensures TotalOwed(ClaimedTable(rows, now, until, worker, tokens, c), c.maxAttempts) <= TotalOwed(rows,
            c.maxAttempts)
  {
    var ids := BatchIds(rows, now, c);
    var claimed := ClaimedTable(rows, now, until, worker, tokens, c);
    forall i | 0 <= i < |rows| ensures Owed(claimed[i], c.maxAttempts) <= Owed(rows[i], c.maxAttempts) {
      BatchRow(rows, ids, tokens[..|ids|], now, until, worker, i);
      MoveNeverOwesMore(rows[i], BatchMove(rows, ids, tokens[..|ids|], now, until, worker, i), c.maxAttempts);
    }
    TotalMonotone(rows, claimed, c.maxAttempts);
  }

  /** The state of a batch after its first `done` records were finalised: those rows are
      final, the later ones still stand as claimed, and no other row has changed. */
  ghost predicate BatchDone(rows: Table, claimed: Table, records: seq<Item>, done: nat, current: Instant,
                            deliveries: seq<Delivery>, clocks: seq<Instant>, c: Config)
    requires |records| <= |deliveries| && |records| <= |clocks|
  {
    && done <= |records| && |rows| == |claimed|
    && (forall k :: 0 <= k < |records| ==> 1 <= records[k].internalId <= |rows|)
    && (forall k :: 0 <= k < done ==>
          && Finalisable(records[k], current, deliveries[k], clocks[k], c)
          && rows[records[k].internalId - 1] == FinalRow(records[k], current, deliveries[k], clocks[k], c))
    && (forall k :: done <= k < |records| ==> StillClaimed(rows, records[k]))
    && (forall i :: 0 <= i < |rows| && (forall k :: 0 <= k < |records| ==> records[k].internalId != i + 1)
          ==> rows[i] == claimed[i])
  }

  /** The inputs of one pass of `run_once`. */
  datatype Pass = Pass(now: Instant, worker: string, tokens: seq<Token>, deliveries: seq<Delivery>,
                       clocks: seq<Instant>)

  predicate ValidPass(p: Pass, c: Config)
  {
    && ValidConfig(c) && !Blank(p.worker)
    && c.batchSize <= |p.tokens| && c.batchSize <= |p.deliveries| && c.batchSize <= |p.clocks|
    && forall k :: 0 <= k < |p.deliveries| ==> ValidDelivery(p.deliveries[k])
  }

  /** What a pass that returned normally made of the table. */
  ghost predicate PassDone(rows: Table, rows': Table, p: Pass, c: Config)
  {
    DistinctEvents(rows) && ValidPass(p, c) &&
    match PlusSeconds(p.now, c.leaseSeconds)
    case None => false
    case Some(until) =>
      var records := ClaimedRecords(rows, p.now, until, p.worker, p.tokens, c);
      && |records| == |BatchIds(rows, p.now, c)|
      && BatchDone(rows', ClaimedTable(rows, p.now, until, p.worker, p.tokens, c), records, |records|, p.now,
                   p.deliveries, p.clocks, c)
  }

  /** How a pass ended that claimed its batch: the first `done` records are final, the others
      stand, it is `ok` exactly when every record could be finalised, and the measure fell. */
  ghost predicate PassEnds(rows: Table, rows': Table, p: Pass, c: Config, until: Instant, done: nat, ok: bool)
    requires DistinctEvents(rows) && ValidPass(p, c)
  {
    var records := ClaimedRecords(rows, p.now, until, p.worker, p.tokens, c);
    && |records| == |BatchIds(rows, p.now, c)|
    && BatchDone(rows', ClaimedTable(rows, p.now, until, p.worker, p.tokens, c), records, done, p.now, p.deliveries,
                 p.clocks, c)
    && (ok ==> done == |records|)
    && (ok <==> forall k :: 0 <= k < |records| ==> Finalisable(records[k], p.now, p.deliveries[k], p.clocks[k], c))
    && (!ok ==> done < |records| && !Finalisable(records[done], p.now, p.deliveries[done], p.clocks[done], c))
    && TotalOwed(rows', c.maxAttempts) + done <= TotalOwed(rows, c.maxAttempts)
  }

  lemma PassEndsDone(rows: Table, rows': Table, p: Pass, c: Config, until: Instant, done: nat)
    requires DistinctEvents(rows) && ValidPass(p, c) && PlusSeconds(p.now, c.leaseSeconds) == Some(until)
    requires PassEnds(rows, rows', p, c, until, done, true)
    ensures PassDone(rows, rows', p, c)
  {
    hide BatchDone, Finalisable, TotalOwed, ClaimedRecords, ClaimedTable, BatchIds;
  }

  lemma OtherStands(rows: Table, record: Item, i: nat, row: Row)
    requires i < |rows| && StillClaimed(rows, record) && record.internalId != i + 1
    ensures StillClaimed(rows[i := row], record)
  {
  }

  lemma BatchAdvances(rows: Table, claimed: Table, records: seq<Item>, done: nat, current: Instant,
                      deliveries: seq<Delivery>, clocks: seq<Instant>, c: Config)
    requires |records| <= |deliveries| && |records| <= |clocks| && DistinctItems(records) && done < |records|
    requires BatchDone(rows, claimed, records, done, current, deliveries, clocks, c)
    requires Finalisable(records[done], current, deliveries[done], clocks[done], c)
    ensures BatchDone(rows[records[done].internalId - 1 := FinalRow(records[done], current, deliveries[done],
            clocks[done], c)],
                      claimed, records, done + 1, current, deliveries, clocks, c)
  {
    var row := FinalRow(records[done], current, deliveries[done], clocks[done], c);
    var rows' := rows[records[done].internalId - 1 := row];
    hide FinalRow, Finalisable, StillClaimed;
    forall k | done + 1 <= k < |records| ensures StillClaimed(rows', records[k]) {
      OtherStands(rows, records[k], records[done].internalId - 1, row);
    }
    forall k | 0 <= k < done
      ensures rows'[records[k].internalId - 1] == FinalRow(records[k], current, deliveries[k], clocks[k], c)
    {
      assert records[k].internalId != records[done].internalId;
    }
  }

  /** One turn of the batch loop: the next record is finalised and pays its unit, or the
      exception leaves the table as it was. */
  lemma BatchStep(rows: Table, claimed: Table, records: seq<Item>, done: nat, current: Instant,
                  deliveries: seq<Delivery>, clocks: seq<Instant>, c: Config)
    requires DistinctEvents(rows) && |records| <= |deliveries| && |records| <= |clocks|
    requires DistinctItems(records) && done < |records| && ValidDelivery(deliveries[done])
    requires BatchDone(rows, claimed, records, done, current, deliveries, clocks, c)
    ensures var (rows', ok) := Processed(rows, records[done], current, deliveries[done], clocks[done], c);
            && (ok <==> Finalisable(records[done], current, deliveries[done], clocks[done], c))
            && (!ok ==> rows' == rows)
            && (ok ==> BatchDone(rows', claimed, records, done + 1, current, deliveries, clocks, c)
                       && TotalOwed(rows', c.maxAttempts) < TotalOwed(rows, c.maxAttempts))
  {
    hide FinalRow, Finalisable, Processed, TotalOwed;
    var record, d, clock := records[done], deliveries[done], clocks[done];
    assert StillClaimed(rows, record);
    RecordIsProcessed(rows, record, current, d, clock, c);
    if Finalisable(record, current, d, clock, c) {
      RecordPays(rows, record, current, d, clock, c);
      BatchAdvances(rows, claimed, records, done, current, deliveries, clocks, c);
    }
  }

  lemma SoundTables(store: SQLiteDecisionPersistence)
    requires store.Valid()
    ensures RowsSound(store.outbox)
  {
    ReachableStatesReopen(store.trace);
  }

  /** The state of the store is the start of a pass and the steps since. */
  lemma TraceSplits(store: SQLiteDecisionPersistence, start: System, before: seq<Event>)
    requires store.Valid() && AllowedRun(INITIAL, before) && Run(INITIAL, before) == start
    requires before <= store.trace && AllowedRun(start, store.trace[|before|..])
    ensures Run(start, store.trace[|before|..]) == store.Sys()
  {
    var suffix := store.trace[|before|..];
    RunAppend(INITIAL, before, suffix);
    assert before + suffix == store.trace;
  }

  lemma AfterClaim(store: SQLiteDecisionPersistence, start: System, before: seq<Event>, e: Event)
    requires store.Valid() && AllowedRun(INITIAL, before) && Run(INITIAL, before) == start
    requires Allowed(start, e) && store.trace == before + [e]
    ensures store.Sys() == Step(start, e)
  {
    SingleStep(start, e);
    RunAppend(INITIAL, before, [e]);
  }

  lemma ReturnedAtClaim(start: System, before: seq<Event>, e: Event)
    requires AllowedRun(INITIAL, before) && Run(INITIAL, before) == start
    requires Allowed(start, e) && e.Claim? && DistinctIds(e.ids)
    ensures forall item :: item in ReturnedBy(start, e) ==> item.row.updatedAt == e.now
  {
    ReachableStatesReopen(before);
    forall item | item in ReturnedBy(start, e)
      ensures item.row.updatedAt == e.now { ClaimReturnsSound(start, e, item); }
  }

  lemma ClaimExtends(start: System, before: seq<Event>, e: Event, after: seq<Event>, c: Config)
    requires Allowed(start, e) && Planned(e, {}, c)
    requires ExtendsByWorker(Step(start, e), before + [e], after, ReturnedBy(start, e), c)
    ensures ExtendsByWorker(start, before, after, {}, c)
  {
    hide Allowed, Step, Planned, ReturnedBy;
    var rest := after[|before| + 1..];
    assert after[|before + [e]|..] == rest;
    assert after[|before|..] == [e] + rest && ([e] + rest)[1..] == rest;
    assert {} + ReturnedBy(start, e) == ReturnedBy(start, e);
  }

  /** The claim step of a pass. */
  ghost function PassClaim(rows: Table, now: Instant, worker: string, tokens: seq<Token>, c: Config): Event
    requires DistinctEvents(rows) && c.batchSize <= |tokens|
  {
    Claim(BatchIds(rows, now, c), tokens[..|BatchIds(rows, now, c)|], now, c.leaseSeconds, worker)
  }

  /** What the claim of a pass leaves for its batch. */
  lemma BatchReady(rows: Table, now: Instant, until: Instant, worker: string, tokens: seq<Token>, c: Config)
    requires DistinctEvents(rows) && RowsSound(rows) && c.batchSize <= |tokens| && now < until && !Blank(worker)
    ensures var records := ClaimedRecords(rows, now, until, worker, tokens, c);
            var claimed := ClaimedTable(rows, now, until, worker, tokens, c);
            && |records| == |BatchIds(rows, now, c)| && DistinctItems(records) && DistinctIds(BatchIds(rows, now, c))
            && (forall k :: 0 <= k < |records| ==> StillClaimed(claimed, records[k]))
            && TotalOwed(claimed, c.maxAttempts) <= TotalOwed(rows, c.maxAttempts)
  {
    hide StillClaimed, TotalOwed, RowsSound, ClaimedRecords, ClaimedTable, BatchIds, DistinctIds, DistinctItems;
    BatchIsSelection(rows, now, until, worker, tokens, c);
    BatchStands(rows, now, until, worker, tokens, c);
    ClaimOwesNoMore(rows, now, until, worker, tokens, c);
  }

  /** The claim of a pass as a step: allowed, planned, and returning its records. */
  lemma PassClaimStep(store: SQLiteDecisionPersistence, start: System, before: seq<Event>, now: Instant, until: Instant,
                      worker: string, tokens: seq<Token>, c: Config)
    requires store.Valid() && AllowedRun(INITIAL, before) && Run(INITIAL, before) == start
    requires DistinctEvents(start.db.outbox) && DistinctIds(BatchIds(start.db.outbox, now, c)) && ValidConfig(c)
    requires c.batchSize <= |tokens| && FreshTokens(start, tokens) && !Blank(worker)
    requires PlusSeconds(now, c.leaseSeconds) == Some(until)
    requires store.trace == before + [PassClaim(start.db.outbox, now, worker, tokens, c)]
    ensures var e := PassClaim(start.db.outbox, now, worker, tokens, c);
            var records := ClaimedRecords(start.db.outbox, now, until, worker, tokens, c);
            && Allowed(start, e) && store.Sys() == Step(start, e) && Planned(e, {}, c)
            && forall k :: 0 <= k < |records| ==>
                 records[k] in ReturnedBy(start, e) && records[k].row.updatedAt == now
  {
    hide Step, ClaimItems, BatchIds, DistinctIds;
    var e := PassClaim(start.db.outbox, now, worker, tokens, c);
    AfterClaim(store, start, before, e);
    ReturnedAtClaim(start, before, e);
  }

  class NotificationWorker {
    const store: SQLiteDecisionPersistence
    const config: Config

    constructor (store: SQLiteDecisionPersistence, config: Config)
      requires ValidConfig(config)
      ensures this.store == store && this.config == config
    {
      this.store, this.config := store, config;
    }

    /** `_process_record`. The transport's reply `d` and the clock read by the finaliser are
        inputs; an error is the exception that leaves `run_once`. */
    method ProcessRecord(record: Item, current: Instant, d: Delivery, clock: Instant) returns (r: Result<(),
      StoreError>)
      requires store.Valid()
      modifies store
      ensures store.Valid() && store.decisions == old(store.decisions)
      ensures (store.outbox, r.Ok?) == Processed(old(store.outbox), record, current, d, clock, config)
      ensures store.trace == old(store.trace) + RecordSteps(old(store.outbox), record, current, d, clock, config)
    {
      if record.row.owner.None? || Blank(record.row.owner.value) || record.row.token.None? {
        return Ok(());
      }
      var worker, lease := record.row.owner.value, record.row.token.value;
      var eventId := record.row.eventId;
      if Blank(eventId) {
        r := store.QuarantineOutboxRecord(record.internalId, INVALID_EVENT_ID, worker, lease, clock);
        return;
      }
      match d {
        case Failed(error) =>
          var attempts := record.row.attempts;
          if attempts >= config.maxAttempts {
            r := store.MarkOutboxDeadLetter(eventId, error, worker, lease, clock);
          } else {
            var retryAt := PlusSeconds(current, BackoffSeconds(config.baseBackoffSeconds, attempts));
            if retryAt.None? {
              return Err(OverflowError);
            }
            r := store.MarkOutboxRetry(eventId, retryAt.value, error, worker, lease, clock);
          }
        case Sent =>
          r := store.MarkOutboxSent(eventId, current, worker, lease, clock);
      }
    }

    /** The loop of `run_once`; `done` is how many records were finalised before it ended. */
    method ProcessBatch(records: seq<Item>, now: Instant, deliveries: seq<Delivery>, clocks: seq<Instant>,
                        ghost returned: set<Item>)
      returns (done: nat, r: Result<nat, StoreError>)
      requires store.Valid() && |records| <= |deliveries| && |records| <= |clocks|
      requires forall k :: 0 <= k < |deliveries| ==> ValidDelivery(deliveries[k])
      requires DistinctItems(records) && forall k :: 0 <= k < |records| ==> StillClaimed(store.outbox, records[k])
      requires forall k :: 0 <= k < |records| ==> records[k] in returned && records[k].row.updatedAt == now
      modifies store
      ensures store.Valid() && store.decisions == old(store.decisions)
      ensures BatchDone(store.outbox, old(store.outbox), records, done, now, deliveries, clocks, config)
      ensures r.Ok? ==> done == |records| == r.value
      ensures r.Ok? <==>
                forall k :: 0 <= k < |records| ==> Finalisable(records[k], now, deliveries[k], clocks[k], config)
      ensures r.Err? ==> done < |records| && !Finalisable(records[done], now, deliveries[done], clocks[done], config)
      ensures TotalOwed(store.outbox, config.maxAttempts) + done <= TotalOwed(old(store.outbox), config.maxAttempts)
      ensures ExtendsByWorker(old(store.Sys()), old(store.trace), store.trace, returned, config)
    {
      ghost var claimed := store.outbox;
      ghost var start, trace := store.Sys(), store.trace;
      done := 0;
      while done < |records|
        invariant store.Valid() && store.decisions == old(store.decisions)
        invariant BatchDone(store.outbox, claimed, records, done, now, deliveries, clocks, config)
        invariant TotalOwed(store.outbox, config.maxAttempts) + done <= TotalOwed(claimed, config.maxAttempts)
        invariant ExtendsByWorker(start, trace, store.trace, returned, config)
      {
        ghost var rows, mid := store.outbox, store.trace;
        TraceSplits(store, start, trace);
        BatchStep(rows, claimed, records, done, now, deliveries, clocks, config);
        var step := ProcessRecord(records[done], now, deliveries[done], clocks[done]);
        ExtendOnce(start, trace, mid, store.trace, records[done], deliveries[done], clocks[done], returned, config);
        if step.Err? {
          return done, Err(step.error);
        }
        done := done + 1;
      }
      r := Ok(|records|);
    }

    /** What follows the claim in `run_once`, the table and run before the claim being given. */
    method FinishPass(records: seq<Item>, now: Instant, deliveries: seq<Delivery>, clocks: seq<Instant>,
                      ghost start: System, ghost before: seq<Event>, ghost p: Pass, ghost until: Instant)
      returns (done: nat, r: Result<nat, StoreError>)
      requires store.Valid() && AllowedRun(INITIAL, before) && Run(INITIAL, before) == start
      requires DistinctEvents(start.db.outbox) && RowsSound(start.db.outbox) && ValidPass(p, config)
      requires p.now == now && p.deliveries == deliveries && p.clocks == clocks && FreshTokens(start, p.tokens)
      requires PlusSeconds(now, config.leaseSeconds) == Some(until)
      requires store.trace == before + [PassClaim(start.db.outbox, now, p.worker, p.tokens, config)]
      requires records == ClaimedRecords(start.db.outbox, now, until, p.worker, p.tokens, config)
      requires store.outbox == ClaimedTable(start.db.outbox, now, until, p.worker, p.tokens, config)
      modifies store
      ensures store.Valid() && store.decisions == old(store.decisions)
      ensures PassEnds(start.db.outbox, store.outbox, p, config, until, done, r.Ok?) && (r.Ok? ==> r.value == done)
      ensures ExtendsByWorker(start, before, store.trace, {}, config)
    {
      ghost var e := PassClaim(start.db.outbox, now, p.worker, p.tokens, config);
      BatchReady(start.db.outbox, now, until, p.worker, p.tokens, config);
      PassClaimStep(store, start, before, now, until, p.worker, p.tokens, config);
      hide BatchDone, Finalisable, StillClaimed, TotalOwed, ReturnedBy, Allowed, Step, FreshTokens, ClaimedRecords,
        ClaimedTable, BatchIds, Planned, DistinctItems;
      done, r := ProcessBatch(records, now, deliveries, clocks, ReturnedBy(start, e));
      ClaimExtends(start, before, e, store.trace, config);
    }

    /** `run_once`. */
    method RunOnce(now: Instant, worker: string, tokens: seq<Token>, deliveries: seq<Delivery>, clocks: seq<Instant>)
      returns (done: nat, r: Result<nat, StoreError>)
      requires store.Valid() && ValidConfig(config) && !Blank(worker) && FreshTokens(store.Sys(), tokens)
      requires config.batchSize <= |tokens| && config.batchSize <= |deliveries| && config.batchSize <= |clocks|
      requires forall k :: 0 <= k < |deliveries| ==> ValidDelivery(deliveries[k])
      modifies store
      ensures store.Valid() && store.decisions == old(store.decisions)
      ensures PlusSeconds(now, config.leaseSeconds).None? ==> r.Err? && store.outbox == old(store.outbox)
      ensures PlusSeconds(now, config.leaseSeconds).Some? ==>
                && PassEnds(old(store.outbox), store.outbox, Pass(now, worker, tokens, deliveries, clocks), config,
                            PlusSeconds(now, config.leaseSeconds).value, done, r.Ok?)
                && (r.Ok? ==> r.value == done)
      ensures ExtendsByWorker(old(store.Sys()), old(store.trace), store.trace, {}, config)
      ensures r.Ok? ==> PassDone(old(store.outbox), store.outbox, Pass(now, worker, tokens, deliveries, clocks), config)
    {
      hide PassEnds, PassDone, ClaimsRows, ClaimBatch, ClaimItems, SelectEligible;
      ghost var p, before, trace := Pass(now, worker, tokens, deliveries, clocks), store.Sys(), store.trace;
      SoundTables(store);
      var claim := store.ClaimPendingOutbox(now, config.leaseSeconds, config.batchSize, worker, tokens);
      if claim.Err? {
        return 0, Err(claim.error);
      }
      ghost var until := PlusSeconds(now, config.leaseSeconds).value;
      done, r := FinishPass(claim.value, now, deliveries, clocks, before, trace, p, until);
      if r.Ok? { PassEndsDone(before.db.outbox, store.outbox, p, config, until, done); }
    }
  }

  // ---------------------------------------------------------------- the policy behind the bounds

  lemma BatchMoveIsNow(rows: Table, ids: seq<nat>, tokens: seq<Token>, now: Instant, until: Instant,
                       worker: string, i: nat)
    requires |ids| == |tokens| && i < |rows| && BatchMove(rows, ids, tokens, now, until, worker, i).ClaimMove?
    ensures Apply(rows[i], BatchMove(rows, ids, tokens, now, until, worker, i)).updatedAt == now
  {
  }

  /** The worker finalises every record it claimed by the policy that the drain and backoff
      bounds assume: retries only below `maxAttempts`, at exactly the exponential delay after
      the claim, and dead letters only at the limit. */
  lemma PassFollowsPolicy(rows: Table, now: Instant, until: Instant, worker: string, tokens: seq<Token>, c: Config,
                          k: nat, d: Delivery, clock: Instant)
    requires DistinctEvents(rows) && RowsSound(rows) && c.batchSize <= |tokens| && now < until && !Blank(worker)
    requires k < |ClaimedRecords(rows, now, until, worker, tokens, c)| && ValidDelivery(d)
    ensures var record := ClaimedRecords(rows, now, until, worker, tokens, c)[k];
            var plan := PlanFor(record, now, d, c);
            && record.row.updatedAt == now
            && (plan.Close? ==>
                  var m := FinalMove(plan.finaliser, record.row.owner.value, record.row.token.value, clock);
                  && WorkerPolicy(record.row, m, c.baseBackoffSeconds, c.maxAttempts)
                  && RetryBelowLimit(record.row, m, c.maxAttempts))
  {
    hide PlanFor, WorkerPolicy, RetryBelowLimit, ClaimBatch, ClaimItems, BatchMove, RowSound;
    var ids := BatchIds(rows, now, c);
    var record := ClaimedRecords(rows, now, until, worker, tokens, c)[k];
    var claimed := ClaimedTable(rows, now, until, worker, tokens, c);
    BatchIsSelection(rows, now, until, worker, tokens, c);
    ItemIsClaim(record, rows, ids, tokens[..|ids|], now, until, worker);
    BatchMoveIsNow(rows, ids, tokens[..|ids|], now, until, worker, record.internalId - 1);
    BatchStands(rows, now, until, worker, tokens, c);
    PlanFollowsPolicy(record, now, d, clock, c);
  }

  /** A pass over a table whose backoffs and leases have run out selects something as long as
      anything is unfinished, so by the bound of `RunOnce` passes that succeed empty it. */
  lemma DuePassSelects(rows: Table, now: Instant, c: Config)
    requires RowsSound(rows) && DistinctEvents(rows) && AllDue(rows, now) && ValidConfig(c)
    ensures BatchIds(rows, now, c) == [] <==> TotalOwed(rows, c.maxAttempts) == 0
  {
    DueRowsSelected(rows, now, c.batchSize);
    NothingOwedMeansDone(rows, c.maxAttempts);
    var unfinished := set i: nat | i < |rows| && !Terminal(rows[i]);
    assert unfinished == {} <==> forall i :: 0 <= i < |rows| ==> Terminal(rows[i]) by {
      if unfinished == {} {
        forall i | 0 <= i < |rows| ensures Terminal(rows[i]) {
          assert i !in unfinished;
        }
      }
    }
  }
}
