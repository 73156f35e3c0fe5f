/** A pass that stops: one record whose lease has run out leaves the rest of its batch behind. */
module AbandonedBatch {
  import opened Wrappers
  import opened Text
  import opened IsoTime
  import opened Domain
  import opened OutboxTable
  import opened Decisions
  import opened OutboxSystem
  import opened OutboxDrain
  import opened SqliteStore
  import opened StoredRows
  import opened WorkerPlans
  import opened Worker

  const CONFIG: Config := Config(3, 30, 1, 2)

  /** Two new rows are both claimed by a pass of two. */
  lemma BothSelected(rows: Table)
    requires |rows| == 2 && DistinctEvents(rows) && rows[0].status == PENDING && rows[1].status == PENDING
    ensures |BatchIds(rows, 0, CONFIG)| == 2
  {
    FirstInOrderMeaning(rows, EligibleRows(rows, 0), 2);
    assert EligibleRows(rows, 0) == {0, 1};
  }

  ghost predicate Leased(before: Table, item: Item, until: Instant)
  {
    && 1 <= item.internalId <= |before| && item.row.lockedUntil == Some(until)
    && item.row.eventId == before[item.internalId - 1].eventId
  }

  lemma ClaimLeases(rows: Table, ids: seq<nat>, tokens: seq<Token>, until: Instant, worker: string, item: Item)
    requires |ids| == |tokens| && DistinctIds(ids) && 0 < until && !Blank(worker) && DistinctEvents(rows)
    requires item in ClaimItems(rows, ids, tokens, 0, until, worker)
    ensures Leased(rows, item, until)
  {
    ItemIsClaim(item, rows, ids, tokens, 0, until, worker);
  }

  /** The records of a pass are rows of the table, no two of one row, claimed until that time. */
  lemma PassLeases(rows: Table, until: Instant, worker: string, tokens: seq<Token>)
    requires DistinctEvents(rows) && RowsSound(rows) && 2 <= |tokens| && 0 < until && !Blank(worker)
    ensures var records := ClaimedRecords(rows, 0, until, worker, tokens, CONFIG);
            DistinctItems(records) && forall k :: 0 <= k < |records| ==> Leased(rows, records[k], until)
  {
    hide Leased, DistinctItems, DistinctIds, ClaimItems, BatchIds;
    var ids, records := BatchIds(rows, 0, CONFIG), ClaimedRecords(rows, 0, until, worker, tokens, CONFIG);
    BatchIsSelection(rows, 0, until, worker, tokens, CONFIG);
    BatchStands(rows, 0, until, worker, tokens, CONFIG);
    forall k | 0 <= k < |records| ensures Leased(rows, records[k], until) {
      ClaimLeases(rows, ids, tokens[..|ids|], until, worker, records[k]);
    }
  }

  /** Nothing was finalised: both rows still stand as claimed. */
  lemma NothingDone(before: Table, rows: Table, claimed: Table, records: seq<Item>, until: Instant,
                    deliveries: seq<Delivery>, clocks: seq<Instant>, done: nat)
    requires |before| == |claimed| == 2 && DistinctItems(records)
    requires forall k :: 0 <= k < |records| ==> Leased(before, records[k], until)
    requires |records| == |deliveries| == |clocks| == 2 && clocks[0] >= until
    requires BatchDone(rows, claimed, records, done, 0, deliveries, clocks, CONFIG)
    ensures done == 0 && |rows| == 2
    ensures forall i :: 0 <= i < 2 ==>
              && rows[i].status == PROCESSING && rows[i].eventId == before[i].eventId
              && rows[i].lockedUntil == Some(until)
  {
    hide PlanFor, FinalRow, RowSound;
    assert !Finalisable(records[0], 0, deliveries[0], clocks[0], CONFIG);
    assert StillClaimed(rows, records[0]) && StillClaimed(rows, records[1]);
    assert records[0].internalId != records[1].internalId;
  }

  predicate TwoNewRows(rows: Table, first: Request, second: Request)
  {
    && |rows| == 2 && rows[0].status == PENDING && rows[1].status == PENDING
    && rows[0].eventId == EventIdOf(first) && rows[1].eventId == EventIdOf(second)
  }

  lemma TwoPersisted(db: Db, first: Request, second: Request)
    requires IsSignal(first) && IsSignal(second) && first.key != second.key && EventIdOf(first) != EventIdOf(second)
    requires db == Persisted(Db(map[], []), first, 0).0
    ensures TwoNewRows(Persisted(db, second, 0).0.outbox, first, second)
  {
    hide Encode, EventIdOf;
    assert db.outbox == [NewRow(EventIdOf(first), first.key, Encode(first), 0)];
    assert !InsertRefused(db, second);
  }

  /** A store in which two SIGNALs have just been persisted. */
  method PersistTwo(first: Request, second: Request) returns (store: SQLiteDecisionPersistence)
    requires ValidRequest(first) && ValidRequest(second) && IsSignal(first) && IsSignal(second)
    requires first.key != second.key && EventIdOf(first) != EventIdOf(second)
    ensures fresh(store) && store.Valid() && store.Sys().used == {} && TwoNewRows(store.outbox, first, second)
  {
    hide Persisted, ValidRequest, EventIdOf, TwoNewRows, PersistEvents, IsStored, NothingStored;
    store := new SQLiteDecisionPersistence();
    var o := store.Persist(0, first, 0);
    TwoPersisted(Db(store.decisions, store.outbox), first, second);
    o := store.Persist(1, second, 0);
  }

  /** Two SIGNALs, a pass over both with a lease of one second, and a first delivery that ends
      five seconds later: the pass raises and both rows stay PROCESSING, the second one without a
      delivery, although a clock read in time for its own lease would have let it finish. */
  method AbandonBatch(first: Request, second: Request) returns (rows: Table, r: Result<nat, StoreError>)
    requires ValidRequest(first) && ValidRequest(second) && IsSignal(first) && IsSignal(second)
    requires first.key != second.key && EventIdOf(first) != EventIdOf(second)
    ensures r.Err? && |rows| == 2 && rows[0].status == PROCESSING && rows[1].status == PROCESSING
    ensures rows[0].eventId == EventIdOf(first) && rows[1].eventId == EventIdOf(second)
    ensures rows[0].lockedUntil == rows[1].lockedUntil == Some(MICROS_PER_SECOND)
  {
    hide EventIdOf, ValidRequest, ClaimedTable, ClaimedRecords, BatchDone, BatchIds, Finalisable, TotalOwed;
    var store := PersistTwo(first, second);
    ghost var before := store.outbox;
    SoundTables(store);
    BothSelected(before);
    assert "w"[0] == 'w';
    var worker := new NotificationWorker(store, CONFIG);
    var deliveries, clocks := [Sent, Sent], [5 * MICROS_PER_SECOND, 0];
    var done;
    done, r := worker.RunOnce(0, "w", [0, 1], deliveries, clocks);
    rows := store.outbox;
    ghost var until: Instant := MICROS_PER_SECOND;
    assert PlusSeconds(0, 1) == Some(until);
    PassLeases(before, until, "w", [0, 1]);
    ghost var records := ClaimedRecords(before, 0, until, "w", [0, 1], CONFIG);
    NothingDone(before, rows, ClaimedTable(before, 0, until, "w", [0, 1], CONFIG), records, until, deliveries, clocks,
                done);
  }
}
