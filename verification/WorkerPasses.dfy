/** Repeated passes: each one that returns normally over due rows pays, until nothing is left. */
module WorkerPasses {
  import opened Wrappers
  import opened Text
  import opened IsoTime
  import opened Arithmetic
  import opened OutboxTable
  import opened OutboxSystem
  import opened OutboxDrain
  import opened WorkerPlans
  import opened Worker

  // ---------------------------------------------------------------- counting

  function Elements(r: seq<nat>): set<nat>
  {
    set i | i in r
  }

  lemma {:induction false} DistinctElements(r: seq<nat>)
    requires DistinctIds(r)
    ensures |Elements(r)| == |r|
    decreases |r|
  {
    if |r| > 0 {
      var n := |r| - 1;
      DistinctElements(r[..n]);
      assert r == r[..n] + [r[n]];
      assert Elements(r) == Elements(r[..n]) + {r[n]};
    }
  }

  lemma {:induction false} BoundedSize(a: set<nat>, n: nat)
    requires forall i :: i in a ==> i < n
    ensures |a| <= n
    decreases n
  {
    if n > 0 { BoundedSize(a - {n - 1}, n - 1); } else { assert a == {}; }
  }

  lemma SameSize(a: set<nat>, b: set<nat>)
    requires a <= b && |a| == |b|
    ensures a == b
  {
    assert |b - a| == |b| - |a|;
    assert b == a + (b - a);
  }

  /** One unit less for every row of `ids`. */
  lemma {:induction false} TotalDropsBy(rows: Table, rows': Table, maxAttempts: nat, ids: set<nat>)
    requires |rows'| == |rows| && forall i :: i in ids ==> i < |rows|
    requires forall i: nat :: i < |rows| ==>
               Owed(rows'[i], maxAttempts) + (if i in ids then 1 else 0) <= Owed(rows[i], maxAttempts)
    ensures TotalOwed(rows', maxAttempts) + |ids| <= TotalOwed(rows, maxAttempts)
    decreases |rows|
  {
    hide Owed;
    if |rows| > 0 {
      var n := |rows| - 1;
      TotalDropsBy(rows[..n], rows'[..n], maxAttempts, ids - {n});
      if n in ids { assert |ids - {n}| == |ids| - 1; } else { assert ids - {n} == ids; }
    } else {
      assert ids == {};
    }
  }

  // ---------------------------------------------------------------- one pass, row by row

  /** A row after a pass: as it was when it was not selected, and otherwise claimed once and
      finalised by its own delivery. */
  ghost predicate RowPassed(r: Row, r': Row, now: Instant, c: Config)
  {
    exists item: Item, m: Move, d: Delivery, clock: Instant ::
      && m.ClaimMove? && Enabled(r, m) && item.row == Apply(r, m) && ValidDelivery(d)
      && Finalisable(item, now, d, clock, c) && r' == FinalRow(item, now, d, clock, c)
  }

  /** The record that a claim returns for a selected row. */
  lemma SelectedRecord(rows: Table, now: Instant, until: Instant, worker: string, tokens: seq<Token>, c: Config, i: nat)
    returns (k: nat, m: Move)
    requires DistinctEvents(rows) && c.batchSize <= |tokens| && now < until && !Blank(worker)
    requires i < |rows| && i in BatchIds(rows, now, c)
    ensures var records := ClaimedRecords(rows, now, until, worker, tokens, c);
            k < |records| && records[k].internalId == i + 1 && records[k].row == Apply(rows[i], m)
    ensures m.ClaimMove? && Enabled(rows[i], m)
  {
    hide ClaimBatch, ClaimItems, SelectEligible, Apply;
    var ids := BatchIds(rows, now, c);
    var drawn := tokens[..|ids|];
    var records := ClaimedRecords(rows, now, until, worker, tokens, c);
    BatchIsSelection(rows, now, until, worker, tokens, c);
    SelectedIsEligible(rows, now, c, i);
    m := BatchMove(rows, ids, drawn, now, until, worker, i);
    ClaimsAreItems(rows, ids, drawn, now, until, worker, i);
    var item :| item in records && item.internalId == i + 1;
    k :| 0 <= k < |records| && records[k] == item;
    ItemIsClaim(item, rows, ids, drawn, now, until, worker);
  }

  lemma SelectedRowPassed(rows: Table, rows': Table, p: Pass, c: Config, i: nat)
    requires PassDone(rows, rows', p, c) && i < |rows| && i in BatchIds(rows, p.now, c)
    ensures |rows'| == |rows| && RowPassed(rows[i], rows'[i], p.now, c)
  {
    hide FinalRow, PlanFor, StillClaimed, ClaimedTable, ClaimedRecords, BatchIds, Apply, Enabled;
    var until := PlusSeconds(p.now, c.leaseSeconds).value;
    var records := ClaimedRecords(rows, p.now, until, p.worker, p.tokens, c);
    var k, m := SelectedRecord(rows, p.now, until, p.worker, p.tokens, c, i);
    assert Finalisable(records[k], p.now, p.deliveries[k], p.clocks[k], c);
    assert rows'[i] == FinalRow(records[k], p.now, p.deliveries[k], p.clocks[k], c);
    assert ValidDelivery(p.deliveries[k]);
  }

  lemma SelectedIsEligible(rows: Table, now: Instant, c: Config, i: nat)
    requires DistinctEvents(rows) && i in BatchIds(rows, now, c)
    ensures i < |rows| && Eligible(rows[i], now)
  {
  }

  /** The claim of a pass leaves a row that it did not select alone, and returns no record of it. */
  lemma OtherRowUnclaimed(rows: Table, now: Instant, until: Instant, worker: string, tokens: seq<Token>, c: Config,
                          i: nat)
    requires DistinctEvents(rows) && c.batchSize <= |tokens| && now < until && !Blank(worker)
    requires i < |rows| && i !in BatchIds(rows, now, c)
    ensures ClaimedTable(rows, now, until, worker, tokens, c)[i] == rows[i]
    ensures var records := ClaimedRecords(rows, now, until, worker, tokens, c);
            forall k :: 0 <= k < |records| ==> records[k].internalId != i + 1
  {
    var ids, drawn := BatchIds(rows, now, c), tokens[..|BatchIds(rows, now, c)|];
    hide ClaimBatch, ClaimItems, SelectEligible;
    BatchIsSelection(rows, now, until, worker, tokens, c);
    ItemsAreDistinct(rows, ids, drawn, now, until, worker);
    BatchRow(rows, ids, drawn, now, until, worker, i);
  }

  lemma OtherRowKept(rows: Table, rows': Table, p: Pass, c: Config, i: nat)
    requires PassDone(rows, rows', p, c) && i < |rows| && i !in BatchIds(rows, p.now, c)
    ensures |rows'| == |rows| && rows'[i] == rows[i]
  {
    hide FinalRow, Finalisable, StillClaimed, ClaimedTable, ClaimedRecords, BatchIds;
    OtherRowUnclaimed(rows, p.now, PlusSeconds(p.now, c.leaseSeconds).value, p.worker, p.tokens, c, i);
  }

  /** What being claimed and finalised does to a row. */
  lemma PassedRowPays(r: Row, r': Row, now: Instant, c: Config)
    requires RowSound(r) && RowPassed(r, r', now, c) && ValidConfig(c)
    ensures RowSound(r') && r'.eventId == r.eventId && r'.createdAt == r.createdAt
    ensures !Terminal(r) && r'.attempts == r.attempts + 1
    ensures Owed(r', c.maxAttempts) < Owed(r, c.maxAttempts)
    ensures Terminal(r') || r'.attempts < c.maxAttempts
  {
    var item: Item, m: Move, d: Delivery, clock: Instant :|
      && m.ClaimMove? && Enabled(r, m) && item.row == Apply(r, m) && ValidDelivery(d)
      && Finalisable(item, now, d, clock, c) && r' == FinalRow(item, now, d, clock, c);
    MoveKeepsSound(r, m);
    MoveNeverOwesMore(r, m, c.maxAttempts);
    FinalRowMeans(item, now, d, clock, c);
    FinalMovePays(item, now, d, clock, c);
  }

  lemma FinalMovePays(item: Item, now: Instant, d: Delivery, clock: Instant, c: Config)
    requires RowSound(item.row) && item.row.status == PROCESSING && ValidDelivery(d)
             && Finalisable(item, now, d, clock, c)
    ensures RowSound(FinalRow(item, now, d, clock, c))
    ensures Owed(FinalRow(item, now, d, clock, c), c.maxAttempts) < Owed(item.row, c.maxAttempts)
    ensures FinalRow(item, now, d, clock, c).createdAt == item.row.createdAt
  {
    var f := PlanFor(item, now, d, c).finaliser;
    var m := FinalMove(f, item.row.owner.value, item.row.token.value, clock);
    assert Enabled(item.row, m);
    MoveKeepsSound(item.row, m);
    MoveNeverOwesMore(item.row, m, c.maxAttempts);
  }

  /** The whole table after a pass: sound, with the same events, and one unit paid for every
      row that was selected. */
  lemma PassPays(rows: Table, rows': Table, p: Pass, c: Config)
    requires RowsSound(rows) && PassDone(rows, rows', p, c)
    ensures |rows'| == |rows| && RowsSound(rows') && DistinctEvents(rows')
    ensures forall i: nat :: i < |rows| ==>
              if i in BatchIds(rows, p.now, c) then RowPassed(rows[i], rows'[i], p.now, c) else rows'[i] == rows[i]
    ensures TotalOwed(rows', c.maxAttempts) + |BatchIds(rows, p.now, c)| <= TotalOwed(rows, c.maxAttempts)
  {
    var ids := BatchIds(rows, p.now, c);
    PassKeepsSize(rows, rows', p, c);
    BatchIsDistinct(rows, p.now, c);
    forall i: nat | i < |rows|
      ensures if i in ids then RowPassed(rows[i], rows'[i], p.now, c) else rows'[i] == rows[i]
      ensures RowSound(rows'[i]) && rows'[i].eventId == rows[i].eventId
      ensures Owed(rows'[i], c.maxAttempts) + (if i in ids then 1 else 0) <= Owed(rows[i], c.maxAttempts)
    {
      RowAfterPass(rows, rows', p, c, i);
    }
    hide PassDone, RowPassed, RowSound, Owed, BatchIds;
    DistinctElements(ids);
    TotalDropsBy(rows, rows', c.maxAttempts, Elements(ids));
  }

  lemma BatchIsDistinct(rows: Table, now: Instant, c: Config)
    requires DistinctEvents(rows)
    ensures DistinctIds(BatchIds(rows, now, c))
    ensures forall i :: i in BatchIds(rows, now, c) ==> i < |rows| && Eligible(rows[i], now)
  {
    var eligible := EligibleRows(rows, now);
    FirstInOrderMeaning(rows, eligible, c.batchSize);
    SelectionDistinct(rows, eligible, c.batchSize, BatchIds(rows, now, c));
  }

  lemma PassKeepsSize(rows: Table, rows': Table, p: Pass, c: Config)
    requires PassDone(rows, rows', p, c)
    ensures |rows'| == |rows|
  {
  }

  lemma RowAfterPass(rows: Table, rows': Table, p: Pass, c: Config, i: nat)
    requires RowsSound(rows) && PassDone(rows, rows', p, c) && i < |rows| == |rows'|
    ensures var selected := i in BatchIds(rows, p.now, c);
            && (if selected then RowPassed(rows[i], rows'[i], p.now, c) else rows'[i] == rows[i])
            && RowSound(rows'[i]) && rows'[i].eventId == rows[i].eventId
            && Owed(rows'[i], c.maxAttempts) <= Owed(rows[i], c.maxAttempts)
            && (selected ==> Owed(rows'[i], c.maxAttempts) < Owed(rows[i], c.maxAttempts))
  {
    assert ValidConfig(c);
    if i in BatchIds(rows, p.now, c) {
      SelectedRowPassed(rows, rows', p, c, i);
      hide PassDone, RowPassed, RowSound, Owed, BatchIds;
      assert RowSound(rows[i]);
      PassedRowPays(rows[i], rows'[i], p.now, c);
    } else {
      OtherRowKept(rows, rows', p, c, i);
    }
  }

  // ---------------------------------------------------------------- repeated passes

  predicate AllTerminal(rows: Table)
  {
    forall i :: 0 <= i < |rows| ==> Terminal(rows[i])
  }

  /** Each pass runs on what the one before left, when every backoff and lease has run out, and
      returns normally. */
  ghost predicate PassesDone(tables: seq<Table>, passes: seq<Pass>, c: Config)
  {
    && |tables| == |passes| + 1 && RowsSound(tables[0]) && DistinctEvents(tables[0])
    && forall k :: 0 <= k < |passes| ==>
         AllDue(tables[k], passes[k].now) && PassDone(tables[k], tables[k + 1], passes[k], c)
  }

  lemma {:induction false} PassesKeepSound(tables: seq<Table>, passes: seq<Pass>, c: Config, n: nat)
    requires PassesDone(tables, passes, c) && n <= |passes|
    ensures RowsSound(tables[n]) && DistinctEvents(tables[n]) && |tables[n]| == |tables[0]|
    decreases n
  {
    if n > 0 {
      PassesKeepSound(tables, passes, c, n - 1);
      PassPays(tables[n - 1], tables[n], passes[n - 1], c);
    }
  }

  lemma {:induction false} PassesPay(tables: seq<Table>, passes: seq<Pass>, c: Config, n: nat)
    requires PassesDone(tables, passes, c) && n <= |passes|
    ensures AllTerminal(tables[n]) || TotalOwed(tables[n], c.maxAttempts) + n <= TotalOwed(tables[0], c.maxAttempts)
    decreases n
  {
    hide PassDone, AllDue, RowsSound, DistinctEvents, TotalOwed, BatchIds, AllTerminal;
    if n > 0 {
      PassesPay(tables, passes, c, n - 1);
      PassesKeepSound(tables, passes, c, n - 1);
      OnePassOn(tables[n - 1], tables[n], passes[n - 1], c);
    }
  }

  lemma OnePassOn(rows: Table, rows': Table, p: Pass, c: Config)
    requires RowsSound(rows) && AllDue(rows, p.now) && PassDone(rows, rows', p, c)
    ensures if AllTerminal(rows) then AllTerminal(rows')
            else TotalOwed(rows', c.maxAttempts) < TotalOwed(rows, c.maxAttempts)
  {
    assert ValidConfig(c) && DistinctEvents(rows);
    hide PassDone, AllDue, TotalOwed, BatchIds, Owed;
    PassPays(rows, rows', p, c);
    DuePassSelects(rows, p.now, c);
    NothingOwedMeansDone(rows, c.maxAttempts);
    NothingOwedMeansDone(rows', c.maxAttempts);
  }

  /** Repeated passes empty the outbox: as soon as there were as many as deliveries owed at the
      start, every row is SENT or DEAD_LETTER, whatever the transport answered. */
  lemma PassesEmptyTheOutbox(tables: seq<Table>, passes: seq<Pass>, c: Config)
    requires PassesDone(tables, passes, c) && TotalOwed(tables[0], c.maxAttempts) <= |passes|
    ensures AllTerminal(tables[|passes|])
  {
    PassesPay(tables, passes, c, |passes|);
    NothingOwedMeansDone(tables[|passes|], c.maxAttempts);
  }

  // ---------------------------------------------------------------- passes over the whole outbox

  function Unfinished(rows: Table): set<nat>
  {
    set i: nat | i < |rows| && !Terminal(rows[i])
  }

  /** A pass over due rows takes as many unfinished rows as its batch allows. */
  lemma DueBatchSize(rows: Table, now: Instant, c: Config)
    requires RowsSound(rows) && DistinctEvents(rows) && AllDue(rows, now)
    ensures EligibleRows(rows, now) == Unfinished(rows)
    ensures |BatchIds(rows, now, c)| == (if |Unfinished(rows)| < c.batchSize then |Unfinished(rows)| else c.batchSize)
  {
    DueRowsSelected(rows, now, c.batchSize);
  }

  /** When the batch holds all unfinished rows, a pass over due rows takes every one. */
  lemma LargeBatchTakesAll(rows: Table, now: Instant, c: Config, i: nat)
    requires RowsSound(rows) && DistinctEvents(rows) && AllDue(rows, now) && |Unfinished(rows)| <= c.batchSize
    requires i < |rows| && !Terminal(rows[i])
    ensures i in BatchIds(rows, now, c)
  {
    var ids := BatchIds(rows, now, c);
    DueBatchSize(rows, now, c);
    BatchIsDistinct(rows, now, c);
    DistinctElements(ids);
    assert Elements(ids) <= EligibleRows(rows, now);
    SameSize(Elements(ids), Unfinished(rows));
    assert i in Unfinished(rows);
  }

  /** A pass finishes rows and starts none. */
  lemma UnfinishedShrinks(rows: Table, rows': Table, p: Pass, c: Config)
    requires RowsSound(rows) && PassDone(rows, rows', p, c)
    ensures |Unfinished(rows')| <= |Unfinished(rows)|
  {
    assert ValidConfig(c);
    PassPays(rows, rows', p, c);
    forall i | i in Unfinished(rows') ensures i in Unfinished(rows) {
      if i in BatchIds(rows, p.now, c) { PassedRowPays(rows[i], rows'[i], p.now, c); }
    }
    hide PassDone, BatchIds, Terminal;
    SubsetSize(Unfinished(rows'), Unfinished(rows));
  }

  lemma SubsetSize(a: set<nat>, b: set<nat>)
    requires a <= b
    ensures |a| <= |b|
  {
    assert b == a + (b - a);
  }

  /** An event needs at most `max_attempts` passes that take every unfinished row. */
  lemma {:induction false} AttemptsCountPasses(tables: seq<Table>, passes: seq<Pass>, c: Config, n: nat, i: nat)
    requires PassesDone(tables, passes, c) && n <= |passes| && i < |tables[0]|
    requires |Unfinished(tables[0])| <= c.batchSize
    ensures |tables[n]| == |tables[0]| && |Unfinished(tables[n])| <= c.batchSize
    ensures Terminal(tables[n][i]) || (tables[n][i].attempts >= n && (n > 0 ==> tables[n][i].attempts < c.maxAttempts))
    decreases n
  {
    PassesKeepSound(tables, passes, c, n);
    if n > 0 {
      AttemptsCountPasses(tables, passes, c, n - 1, i);
      PassesKeepSound(tables, passes, c, n - 1);
      var rows, p := tables[n - 1], passes[n - 1];
      assert RowSound(rows[i]) && PassDone(rows, tables[n], p, c) && ValidConfig(c) && AllDue(rows, p.now);
      hide PassDone, RowPassed, RowsSound, RowSound, AllDue, BatchIds, DistinctEvents, PassesDone, Unfinished;
      UnfinishedShrinks(rows, tables[n], p, c);
      PassPays(rows, tables[n], p, c);
      if !Terminal(rows[i]) {
        LargeBatchTakesAll(rows, p.now, c, i);
      }
      if i in BatchIds(rows, p.now, c) {
        PassedRowPays(rows[i], tables[n][i], p.now, c);
      }
    }
  }

  /** When the batch holds all unfinished rows, `max_attempts` passes finish every one. */
  lemma MaxAttemptsPassesSuffice(tables: seq<Table>, passes: seq<Pass>, c: Config)
    requires PassesDone(tables, passes, c) && |Unfinished(tables[0])| <= c.batchSize
    requires 1 <= c.maxAttempts <= |passes|
    ensures AllTerminal(tables[|passes|])
  {
    forall i | 0 <= i < |tables[|passes|]| ensures Terminal(tables[|passes|][i]) {
      PassesKeepSound(tables, passes, c, |passes|);
      AttemptsCountPasses(tables, passes, c, |passes|, i);
    }
  }

  // ---------------------------------------------------------------- passes of any batch size

  lemma PassesFrom(tables: seq<Table>, passes: seq<Pass>, c: Config, k: nat)
    requires PassesDone(tables, passes, c) && k <= |passes|
    ensures PassesDone(tables[k..], passes[k..], c)
  {
    PassesKeepSound(tables, passes, c, k);
    hide PassDone, AllDue, RowsSound, DistinctEvents;
  }

  /** As long as more rows are unfinished than a batch holds, a pass pays for a whole batch. */
  lemma FullBatchPays(rows: Table, rows': Table, p: Pass, c: Config)
    requires RowsSound(rows) && AllDue(rows, p.now) && PassDone(rows, rows', p, c) && |Unfinished(rows)| > c.batchSize
    ensures TotalOwed(rows', c.maxAttempts) + c.batchSize <= TotalOwed(rows, c.maxAttempts)
  {
    PassPays(rows, rows', p, c);
    DueBatchSize(rows, p.now, c);
  }

  /** The first table whose unfinished rows fit a batch comes after no more full batches than
      the deliveries owed at the start allow. */
  lemma {:induction false} FullBatches(tables: seq<Table>, passes: seq<Pass>, c: Config, n: nat)
    returns (k: nat)
    requires PassesDone(tables, passes, c) && n <= |passes| && ValidConfig(c)
    ensures k <= n && k * c.batchSize <= TotalOwed(tables[0], c.maxAttempts)
    ensures |Unfinished(tables[k])| <= c.batchSize
            || (k == n && TotalOwed(tables[n], c.maxAttempts) + n * c.batchSize <= TotalOwed(tables[0], c.maxAttempts))
    decreases n
  {
    hide PassDone, AllDue, RowsSound, DistinctEvents, TotalOwed, Unfinished;
    if n == 0 {
      k := 0;
    } else {
      k := FullBatches(tables, passes, c, n - 1);
      if |Unfinished(tables[k])| > c.batchSize {
        PassesKeepSound(tables, passes, c, n - 1);
        FullBatchPays(tables[n - 1], tables[n], passes[n - 1], c);
        MulStep(n - 1, c.batchSize);
        k := n;
      }
    }
  }

  /** With batches of any size, every row is final after no more passes than full batches of the
      deliveries owed at the start, and `max_attempts` more. */
  lemma BatchedPassesSuffice(tables: seq<Table>, passes: seq<Pass>, c: Config)
    requires PassesDone(tables, passes, c) && ValidConfig(c)
    requires TotalOwed(tables[0], c.maxAttempts) / c.batchSize + c.maxAttempts <= |passes|
    ensures AllTerminal(tables[|passes|])
  {
    hide PassDone, AllDue, RowsSound, DistinctEvents, TotalOwed, Unfinished, AllTerminal;
    var k := FullBatches(tables, passes, c, |passes|);
    MultiplesBelow(TotalOwed(tables[0], c.maxAttempts) + 1, c.batchSize, k);
    assert tables[k..][0] == tables[k] && tables[k..][|passes| - k] == tables[|passes|];
    PassesFrom(tables, passes, c, k);
    MaxAttemptsPassesSuffice(tables[k..], passes[k..], c);
  }

  function Later(a: Instant, b: Option<Instant>): Instant
  {
    match b case Some(t) => if a < t then t else a case None => a
  }

  /** There is a time from which on everything is due. */
  lemma {:induction false} DueTimeExists(rows: Table) returns (now: Instant)
    ensures AllDue(rows, now)
    decreases |rows|
  {
    if |rows| == 0 {
      now := 0;
    } else {
      var n := |rows| - 1;
      var before := DueTimeExists(rows[..n]);
      now := Later(Later(before, rows[n].nextAttemptAt), rows[n].lockedUntil);
      assert forall i :: 0 <= i < n ==> rows[..n][i] == rows[i];
    }
  }
}
