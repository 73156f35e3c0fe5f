/** Runs in which every finalisation is a worker's: whatever else acts between its claim and
    its finalisation, the row is still the one it claimed, or the finalisation fails. */
module WorkerRuns {
  import opened Wrappers
  import opened IsoTime
  import opened OutboxTable
  import opened OutboxSystem
  import opened OutboxSafety
  import opened OutboxDrain
  import opened Backoff
  import opened WorkerPlans

  // ---------------------------------------------------------------- a token keeps its row

  /** A row that keeps its token through a step is not touched by it. */
  lemma StepKeepsHeldRow(s: System, e: Event, i: nat, token: Token)
    requires Allowed(s, e) && i < |s.db.outbox| && token in s.used && s.db.outbox[i].token == Some(token)
    ensures |s.db.outbox| <= |Step(s, e).db.outbox|
    ensures Step(s, e).db.outbox[i].token == Some(token) ==> Step(s, e).db.outbox[i] == s.db.outbox[i]
  {
    StepMovesRow(s, e, i);
    if e.Claim? && i in e.ids {
      assert e.tokens[FirstIndex(e.ids, i)] !in s.used;
    }
  }

  /** A row that still holds a token after any run is the row it was when it held it before. */
  lemma {:induction false} TokenKeepsRow(s: System, events: seq<Event>, i: nat, token: Token)
    requires Inv(s) && AllowedRun(s, events) && i < |s.db.outbox| && s.db.outbox[i].token == Some(token)
    ensures |s.db.outbox| <= |Run(s, events).db.outbox|
    ensures Run(s, events).db.outbox[i].token == Some(token) ==> Run(s, events).db.outbox[i] == s.db.outbox[i]
    decreases |events|
  {
    assert RowsInv(s.db.outbox, s.used);
    hide PersistInv, CallsLogged, Allowed, Step;
    RunFollowsHistory(s, events, i);
    if |events| > 0 {
      var e, rest := events[0], events[1..];
      var s' := Step(s, e);
      StepKeepsHeldRow(s, e, i, token);
      if s'.db.outbox[i].token == Some(token) {
        StepKeepsInv(s, e);
        TokenKeepsRow(s', rest, i, token);
      } else {
        DroppedTokenIsDead(s, e, i, token);
        DeadOverRuns(s', rest, token);
      }
    }
  }

  // ---------------------------------------------------------------- returned records

  /** The records that a step returns to the worker that took it. */
  ghost function ReturnedBy(s: System, e: Event): set<Item>
    requires Allowed(s, e)
  {
    match e
    case Claim(ids, tokens, now, leaseSeconds, worker) =>
      (match PlusSeconds(now, leaseSeconds)
       case None => {}
       case Some(until) => set item | item in ClaimItems(s.db.outbox, ids, tokens, now, until, worker))
    case _ => {}
  }

  /** The token of a returned record was drawn, and the only row that can still hold it is the
      record's own, as it was claimed. */
  ghost predicate RecordSound(s: System, item: Item)
  {
    && 1 <= item.internalId <= |s.db.outbox|
    && RowSound(item.row) && item.row.status == PROCESSING
    && item.row.token.Some? && item.row.token.value in s.used
    && forall j: nat :: j < |s.db.outbox| && s.db.outbox[j].token == item.row.token ==>
         j == item.internalId - 1 && s.db.outbox[j] == item.row
  }

  ghost predicate RecordsSound(s: System, returned: set<Item>)
  {
    forall item :: item in returned ==> RecordSound(s, item)
  }

  lemma StepKeepsRecord(s: System, e: Event, item: Item)
    requires Allowed(s, e) && RecordSound(s, item)
    ensures RecordSound(Step(s, e), item)
  {
    hide RowSound;
    var s', token := Step(s, e), item.row.token.value;
    forall j: nat | j < |s'.db.outbox| && s'.db.outbox[j].token == Some(token)
      ensures j == item.internalId - 1 && s'.db.outbox[j] == item.row
    {
      if j < |s.db.outbox| {
        if s.db.outbox[j].token != Some(token) { TokenNotRegained(s, e, j, token); }
        StepKeepsHeldRow(s, e, j, token);
      } else {
        StepAppends(s, e);
      }
    }
    StepKeepsUsed(s, e);
  }

  lemma StepKeepsUsed(s: System, e: Event)
    requires Allowed(s, e)
    ensures s.used <= Step(s, e).used && |s.db.outbox| <= |Step(s, e).db.outbox|
  {
  }

  lemma OneHolder(rows: Table, used: set<Token>, i: nat, j: nat)
    requires TokensSound(rows, used) && i < |rows| && j < |rows|
    requires rows[i].token.Some? && rows[i].token == rows[j].token
    ensures i == j
  {
  }

  /** A returned record is its row as the claim leaves it. */
  lemma ClaimedRowIs(s: System, e: Event, item: Item)
    requires Inv(s) && Allowed(s, e) && e.Claim? && DistinctIds(e.ids) && item in ReturnedBy(s, e)
    ensures var rows := Step(s, e).db.outbox;
            1 <= item.internalId <= |rows| && rows[item.internalId - 1] == item.row
    ensures RowSound(item.row) && item.row.status == PROCESSING && item.row.token.Some?
    ensures item.row.updatedAt == e.now
  {
    var until, i := PlusSeconds(e.now, e.leaseSeconds).value, item.internalId - 1;
    assert RowsInv(s.db.outbox, s.used);
    hide PersistInv, CallsLogged, RowSound, ClaimItems, ClaimBatch;
    ItemIsClaim(item, s.db.outbox, e.ids, e.tokens, e.now, until, e.worker);
    BatchRow(s.db.outbox, e.ids, e.tokens, e.now, until, e.worker, i);
    MoveKeepsSound(s.db.outbox[i], BatchMove(s.db.outbox, e.ids, e.tokens, e.now, until, e.worker, i));
  }

  /** A record as the claim returns it. */
  lemma ClaimReturnsSound(s: System, e: Event, item: Item)
    requires Inv(s) && Allowed(s, e) && e.Claim? && DistinctIds(e.ids) && item in ReturnedBy(s, e)
    ensures RecordSound(Step(s, e), item) && item.row.updatedAt == e.now
  {
    ClaimedRowIs(s, e, item);
    assert TokensSound(s.db.outbox, s.used);
    hide RowSound, ReturnedBy, Inv, Step;
    LifecycleKeepsTokens(s, e);
    var s' := Step(s, e);
    forall j: nat | j < |s'.db.outbox| && s'.db.outbox[j].token == item.row.token
      ensures j == item.internalId - 1
    {
      OneHolder(s'.db.outbox, s'.used, item.internalId - 1, j);
    }
  }

  /** Whatever ran since the claim: processing a returned record either leaves the table alone
      and fails, or finds its row as claimed, under a live lease, and finalises that row. */
  lemma RecordAfterRun(s: System, item: Item, current: Instant, d: Delivery, clock: Instant, c: Config)
    requires DistinctEvents(s.db.outbox) && RecordSound(s, item) && ValidDelivery(d)
    ensures var rows := s.db.outbox;
            var live := StillClaimed(rows, item) && Finalisable(item, current, d, clock, c);
            Processed(rows, item, current, d, clock, c)
            == if live then (rows[item.internalId - 1 := FinalRow(item, current, d, clock, c)], true) else (rows, false)
  {
    hide FinalRow, RowSound, HoldsLease;
    var rows := s.db.outbox;
    if StillClaimed(rows, item) {
      RecordIsProcessed(rows, item, current, d, clock, c);
    } else {
      NeverSkipped(item, current, d, c);
      LostRecordMatchesNothing(s, item, current, d, clock, c);
    }
  }

  lemma NeverSkipped(item: Item, current: Instant, d: Delivery, c: Config)
    requires RowSound(item.row) && item.row.status == PROCESSING
    ensures !PlanFor(item, current, d, c).Skip?
  {
  }

  lemma LostRecordMatchesNothing(s: System, item: Item, current: Instant, d: Delivery, clock: Instant, c: Config)
    requires RecordSound(s, item) && !StillClaimed(s.db.outbox, item)
    ensures item.row.owner.Some?
    ensures var plan := PlanFor(item, current, d, c);
            plan.Close? ==> !FinaliserSucceeds(s.db.outbox, plan.target, plan.finaliser, item.row.owner.value,
              item.row.token.value, clock)
  {
    var plan := PlanFor(item, current, d, c);
    if plan.Close? {
      var worker, token := item.row.owner.value, item.row.token.value;
      assert forall j: nat :: j < |s.db.outbox| ==> s.db.outbox[j].token != Some(token);
      assert Matched(s.db.outbox, plan.target, worker, token, clock) == {};
    }
  }

  // ---------------------------------------------------------------- runs of workers

  /** The finalisation is what the plan for this record decides. */
  predicate IsPlan(item: Item, d: Delivery, e: Event, c: Config)
    requires e.Finalise?
  {
    && ValidDelivery(d) && item.row.owner == Some(e.worker) && item.row.token == Some(e.lease)
    && PlanFor(item, item.row.updatedAt, d, c) == Close(e.target, e.finaliser)
  }

  /** A finalisation is planned for a record returned before, by the time of its own pass; a
      claim takes each row of its selection once. Everything else is free. */
  ghost predicate Planned(e: Event, returned: set<Item>, c: Config)
  {
    && (e.Finalise? ==> exists item, d :: item in returned && IsPlan(item, d, e, c))
    && (e.Claim? ==> DistinctIds(e.ids))
  }

  /** Any number of workers with one configuration, in any interleaving with each other, with
      calls of `persist` and with recoveries; `returned` are the records they hold already. */
  ghost predicate WorkerRun(s: System, events: seq<Event>, returned: set<Item>, c: Config)
    requires AllowedRun(s, events)
    decreases |events|
  {
    |events| == 0 || (
      Planned(events[0], returned, c)
      && WorkerRun(Step(s, events[0]), events[1..], returned + ReturnedBy(s, events[0]), c))
  }

  lemma StepKeepsRecords(s: System, e: Event, returned: set<Item>, c: Config)
    requires Inv(s) && Allowed(s, e) && RecordsSound(s, returned) && Planned(e, returned, c)
    ensures RecordsSound(Step(s, e), returned + ReturnedBy(s, e))
  {
    hide Inv, Allowed, Step, RecordSound;
    forall item | item in returned + ReturnedBy(s, e) ensures RecordSound(Step(s, e), item) {
      if item in returned { StepKeepsRecord(s, e, item); } else { ClaimReturnsSound(s, e, item); }
    }
  }

  /** A finalisation that is planned and succeeds changes the row of its record, as claimed. */
  lemma PlannedMove(s: System, e: Event, item: Item, d: Delivery, c: Config, i: nat)
    requires Allowed(s, e) && e.Finalise? && RecordSound(s, item) && IsPlan(item, d, e, c) && i < |s.db.outbox|
    ensures WorkerPolicy(s.db.outbox[i], MoveOf(s, e, i), c.baseBackoffSeconds, c.maxAttempts)
    ensures RetryBelowLimit(s.db.outbox[i], MoveOf(s, e, i), c.maxAttempts)
  {
    hide RowSound, PlanFor, WorkerPolicy;
    if MoveOf(s, e, i).FinalMove? {
      assert s.db.outbox[i].token == item.row.token;
      PlanFollowsPolicy(item, item.row.updatedAt, d, e.clock, c);
    } else {
      StayFollowsPolicy(s.db.outbox[i], MoveOf(s, e, i), c);
    }
  }

  lemma StayFollowsPolicy(r: Row, m: Move, c: Config)
    requires !m.FinalMove?
    ensures WorkerPolicy(r, m, c.baseBackoffSeconds, c.maxAttempts)
  {
  }

  lemma StepFollowsPolicy(s: System, e: Event, returned: set<Item>, c: Config, i: nat)
    requires Allowed(s, e) && RecordsSound(s, returned) && Planned(e, returned, c) && i < |s.db.outbox|
    ensures WorkerPolicy(s.db.outbox[i], MoveOf(s, e, i), c.baseBackoffSeconds, c.maxAttempts)
    ensures RetryBelowLimit(s.db.outbox[i], MoveOf(s, e, i), c.maxAttempts)
  {
    hide RecordSound, IsPlan, WorkerPolicy;
    if e.Finalise? {
      var item, d :| item in returned && IsPlan(item, d, e, c);
      PlannedMove(s, e, item, d, c, i);
    } else {
      StayFollowsPolicy(s.db.outbox[i], MoveOf(s, e, i), c);
    }
  }

  /** What the drain bound and the backoff bound assume of a run holds of every run of workers. */
  lemma {:induction false} WorkersFollowPolicy(s: System, events: seq<Event>, returned: set<Item>, c: Config)
    requires Inv(s) && RecordsSound(s, returned) && AllowedRun(s, events) && WorkerRun(s, events, returned, c)
    ensures RunBelowLimit(s, events, c.maxAttempts)
    ensures forall i: nat :: i < |s.db.outbox| ==>
              FollowsPolicy(s.db.outbox[i], History(s, events, i), c.baseBackoffSeconds, c.maxAttempts)
    decreases |events|
  {
    hide Inv, Allowed, Step, RecordsSound, Planned, WorkerPolicy, RetryBelowLimit, MoveOf;
    if |events| > 0 {
      var e, rest := events[0], events[1..];
      forall i: nat | i < |s.db.outbox|
        ensures WorkerPolicy(s.db.outbox[i], MoveOf(s, e, i), c.baseBackoffSeconds, c.maxAttempts)
        ensures RetryBelowLimit(s.db.outbox[i], MoveOf(s, e, i), c.maxAttempts)
        ensures |s.db.outbox| <= |Step(s, e).db.outbox|
        ensures Step(s, e).db.outbox[i] == Apply(s.db.outbox[i], MoveOf(s, e, i))
      {
        StepFollowsPolicy(s, e, returned, c, i);
        StepMovesRow(s, e, i);
      }
      StepKeepsRecords(s, e, returned, c);
      StepKeepsInv(s, e);
      WorkersFollowPolicy(Step(s, e), rest, returned + ReturnedBy(s, e), c);
      forall i: nat | i < |s.db.outbox|
        ensures FollowsPolicy(s.db.outbox[i], History(s, events, i), c.baseBackoffSeconds, c.maxAttempts)
      {
        var h := History(s, events, i);
        assert h[0] == MoveOf(s, e, i) && h[1..] == History(Step(s, e), rest, i);
      }
    }
  }

  // ---------------------------------------------------------------- composing runs

  /** The records that a run returns. */
  ghost function ReturnedOver(s: System, events: seq<Event>): set<Item>
    requires AllowedRun(s, events)
    decreases |events|
  {
    if |events| == 0 then {} else ReturnedBy(s, events[0]) + ReturnedOver(Step(s, events[0]), events[1..])
  }

  /** Runs of workers compose: what the first part returned may be finalised in the second. */
  lemma {:induction false} WorkerRunAppend(s: System, a: seq<Event>, b: seq<Event>, returned: set<Item>, c: Config)
    requires AllowedRun(s, a) && AllowedRun(Run(s, a), b) && WorkerRun(s, a, returned, c)
    requires WorkerRun(Run(s, a), b, returned + ReturnedOver(s, a), c)
    ensures AllowedRun(s, a + b) && WorkerRun(s, a + b, returned, c)
    decreases |a|
  {
    hide Allowed, Step, Planned, ReturnedBy;
    RunAppend(s, a, b);
    if |a| == 0 {
      assert a + b == b && returned + ReturnedOver(s, a) == returned;
    } else {
      assert (a + b)[1..] == a[1..] + b;
      assert returned + ReturnedOver(s, a) == returned + ReturnedBy(s, a[0]) + ReturnedOver(Step(s, a[0]), a[1..]);
      WorkerRunAppend(Step(s, a[0]), a[1..], b, returned + ReturnedBy(s, a[0]), c);
    }
  }

  lemma {:induction false} RecordsOverRun(s: System, events: seq<Event>, returned: set<Item>, c: Config)
    requires Inv(s) && RecordsSound(s, returned) && AllowedRun(s, events) && WorkerRun(s, events, returned, c)
    ensures RecordsSound(Run(s, events), returned + ReturnedOver(s, events))
    decreases |events|
  {
    hide Inv, Allowed, Step, RecordsSound, Planned, ReturnedBy;
    if |events| > 0 {
      StepKeepsInv(s, events[0]);
      StepKeepsRecords(s, events[0], returned, c);
      RecordsOverRun(Step(s, events[0]), events[1..], returned + ReturnedBy(s, events[0]), c);
      assert returned + ReturnedOver(s, events)
        == returned + ReturnedBy(s, events[0]) + ReturnedOver(Step(s, events[0]), events[1..]);
    } else {
      assert returned + ReturnedOver(s, events) == returned;
    }
  }

  /** The trace of a store grew by steps of a worker. */
  ghost predicate ExtendsByWorker(s: System, before: seq<Event>, after: seq<Event>, returned: set<Item>, c: Config)
  {
    before <= after && AllowedRun(s, after[|before|..]) && WorkerRun(s, after[|before|..], returned, c)
  }

  /** The step that `_process_record` takes on the tables, if any. */
  function RecordSteps(rows: Table, record: Item, current: Instant, d: Delivery, clock: Instant, c: Config): seq<Event>
  {
    match PlanFor(record, current, d, c)
    case Close(target, f) =>
      var worker, lease := record.row.owner.value, record.row.token.value;
      if FinaliserSucceeds(rows, target, f, worker, lease, clock) then [Finalise(target, f, worker, lease, clock)]
        else []
    case _ => []
  }

  lemma RecordStepsPlanned(s: System, record: Item, d: Delivery, clock: Instant, returned: set<Item>, c: Config)
    requires record in returned && ValidDelivery(d)
    ensures var events := RecordSteps(s.db.outbox, record, record.row.updatedAt, d, clock, c);
            AllowedRun(s, events) && WorkerRun(s, events, returned, c)
  {
    var events := RecordSteps(s.db.outbox, record, record.row.updatedAt, d, clock, c);
    if events != [] {
      SingleStep(s, events[0]);
      assert IsPlan(record, d, events[0], c);
      assert events[1..] == [];
    }
  }

  lemma ExtendOnce(s: System, before: seq<Event>, mid: seq<Event>, after: seq<Event>, record: Item, d: Delivery,
                   clock: Instant, returned: set<Item>, c: Config)
    requires ExtendsByWorker(s, before, mid, returned, c) && record in returned && ValidDelivery(d)
    requires var s' := Run(s, mid[|before|..]);
             after == mid + RecordSteps(s'.db.outbox, record, record.row.updatedAt, d, clock, c)
    ensures ExtendsByWorker(s, before, after, returned, c)
  {
    hide AllowedRun, WorkerRun, RecordSteps;
    var suffix := mid[|before|..];
    var s' := Run(s, suffix);
    var steps := RecordSteps(s'.db.outbox, record, record.row.updatedAt, d, clock, c);
    RecordStepsPlanned(s', record, d, clock, returned + ReturnedOver(s, suffix), c);
    WorkerRunAppend(s, suffix, steps, returned, c);
    assert after[|before|..] == suffix + steps;
  }
}
