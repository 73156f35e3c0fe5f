/** What holds of every run of workers: the drain bound, the backoff bound and the attempt
    limit, with nothing assumed of the run but that each finalisation is a worker's plan. */
module WorkerBounds {
  import opened IsoTime
  import opened Domain
  import opened OutboxTable
  import opened Decisions
  import opened OutboxSystem
  import opened OutboxSafety
  import opened OutboxDrain
  import opened Backoff
  import opened WorkerPlans
  import opened WorkerRuns

  // ---------------------------------------------------------------- between claim and finalisation

  lemma {:induction false} RecordOverRun(s: System, events: seq<Event>, item: Item)
    requires AllowedRun(s, events) && RecordSound(s, item)
    ensures RecordSound(Run(s, events), item)
    decreases |events|
  {
    hide Allowed, Step, RecordSound;
    if |events| > 0 {
      StepKeepsRecord(s, events[0], item);
      RecordOverRun(Step(s, events[0]), events[1..], item);
    }
  }

  /** However others act between a claim and the processing of one of its records, processing
      either fails and changes nothing, or finds the row as claimed under a live lease and
      makes it what the record alone says. */
  lemma ClaimedRecordLater(s: System, e: Event, events: seq<Event>, item: Item, current: Instant, d: Delivery,
                           clock: Instant, c: Config)
    requires Inv(s) && Allowed(s, e) && e.Claim? && DistinctIds(e.ids) && item in ReturnedBy(s, e)
    requires AllowedRun(Step(s, e), events) && ValidDelivery(d)
    ensures var rows := Run(Step(s, e), events).db.outbox;
            var live := StillClaimed(rows, item) && Finalisable(item, current, d, clock, c);
            Processed(rows, item, current, d, clock, c)
            == if live then (rows[item.internalId - 1 := FinalRow(item, current, d, clock, c)], true) else (rows, false)
  {
    var s' := Run(Step(s, e), events);
    ClaimReturnsSound(s, e, item);
    RecordOverRun(Step(s, e), events, item);
    StepKeepsInv(s, e);
    RunKeepsInv(Step(s, e), events);
    assert DistinctEvents(s'.db.outbox) by { InvReopens(s'); }
    hide Inv, Allowed, Step, RecordSound, FinalRow, Processed;
    RecordAfterRun(s', item, current, d, clock, c);
  }

  // ---------------------------------------------------------------- drain

  /** Over any run of workers, finalisations done and owed stay within `maxAttempts` per SIGNAL,
      and the outbox is empty exactly when none is owed. */
  lemma WorkersDrain(events: seq<Event>, c: Config)
    requires AllowedRun(INITIAL, events) && WorkerRun(INITIAL, events, {}, c) && ValidConfig(c)
    ensures var rows := Run(INITIAL, events).db.outbox;
            && Delivered(INITIAL, events) + TotalOwed(rows, c.maxAttempts) <= c.maxAttempts * |rows|
            && (TotalOwed(rows, c.maxAttempts) == 0 <==> forall i :: 0 <= i < |rows| ==> Terminal(rows[i]))
  {
    InitialInv();
    WorkersFollowPolicy(INITIAL, events, {}, c);
    EnoughDeliveriesEmptyTheOutbox(events, c.maxAttempts);
  }

  // ---------------------------------------------------------------- one event

  lemma {:induction false} PolicyBoundsRetries(r: Row, h: seq<Move>, base: nat, maxAttempts: nat)
    requires FollowsPolicy(r, h, base, maxAttempts)
    ensures RetriesBelowLimit(r, h, maxAttempts)
    decreases |h|
  {
    if |h| > 0 { PolicyBoundsRetries(Apply(r, h[0]), h[1..], base, maxAttempts); }
  }

  /** A row at any point of a run of workers has a history that follows the policy from there. */
  lemma RowFollowsPolicy(before: seq<Event>, after: seq<Event>, i: nat, c: Config)
    requires AllowedRun(INITIAL, before) && AllowedRun(Run(INITIAL, before), after)
    requires WorkerRun(INITIAL, before, {}, c)
    requires WorkerRun(Run(INITIAL, before), after, ReturnedOver(INITIAL, before), c)
    requires i < |Run(INITIAL, before).db.outbox|
    ensures var s := Run(INITIAL, before);
            var r, h := s.db.outbox[i], History(s, after, i);
            && EnabledAll(r, h) && FollowsPolicy(r, h, c.baseBackoffSeconds, c.maxAttempts)
            && |s.db.outbox| <= |Run(s, after).db.outbox| && Run(s, after).db.outbox[i] == ApplyAll(r, h)
  {
    InitialInv();
    RunKeepsInv(INITIAL, before);
    hide Inv, Allowed, Step, RecordSound, WorkerRun, EnabledAll, FollowsPolicy;
    RecordsOverRun(INITIAL, before, {}, c);
    assert {} + ReturnedOver(INITIAL, before) == ReturnedOver(INITIAL, before);
    WorkersFollowPolicy(Run(INITIAL, before), after, ReturnedOver(INITIAL, before), c);
    RunFollowsHistory(Run(INITIAL, before), after, i);
  }

  /** One event in any run of workers, from the moment its row is new: it is finalised at most
      `maxAttempts` times; its claims pass the limit exactly when a lease taken at the limit runs
      out and it is claimed again; and as long as no lease of it runs out, its claims are spaced
      by the exponential backoff and a dead letter comes after exactly the scheduled delays. */
  lemma EventInWorkerRun(before: seq<Event>, after: seq<Event>, i: nat, c: Config)
    requires AllowedRun(INITIAL, before) && AllowedRun(Run(INITIAL, before), after)
    requires WorkerRun(INITIAL, before, {}, c) && ValidConfig(c)
    requires WorkerRun(Run(INITIAL, before), after, ReturnedOver(INITIAL, before), c)
    requires i < |Run(INITIAL, before).db.outbox|
    requires var r := Run(INITIAL, before).db.outbox[i]; r.status == PENDING && r.attempts == 0
    ensures var s := Run(INITIAL, before);
            var r, h := s.db.outbox[i], History(s, after, i);
            && Finalisations(h) <= c.maxAttempts
            && (ApplyAll(r, h).attempts > c.maxAttempts <==> ReclaimedAtLimit(r, h, c.maxAttempts))
            && ApplyAll(r, h).attempts <= c.maxAttempts + Expiries(r, h)
            && (Expiries(r, h) == 0 ==> ClaimsSpaced(h, c.baseBackoffSeconds))
            && (Expiries(r, h) == 0 && ApplyAll(r, h).status == DEAD_LETTER ==>
                  && ApplyAll(r, h).attempts == c.maxAttempts
                  && ScheduledDelay(r, h) == c.baseBackoffSeconds * (Pow2(c.maxAttempts - 1) - 1) * MICROS_PER_SECOND)
  {
    RowFollowsPolicy(before, after, i, c);
    var s := Run(INITIAL, before);
    HistoryBounds(s.db.outbox[i], History(s, after, i), c);
  }

  lemma HistoryBounds(r: Row, h: seq<Move>, c: Config)
    requires EnabledAll(r, h) && FollowsPolicy(r, h, c.baseBackoffSeconds, c.maxAttempts) && ValidConfig(c)
    requires r.status == PENDING && r.attempts == 0
    ensures Finalisations(h) <= c.maxAttempts
    ensures ApplyAll(r, h).attempts > c.maxAttempts <==> ReclaimedAtLimit(r, h, c.maxAttempts)
    ensures ApplyAll(r, h).attempts <= c.maxAttempts + Expiries(r, h)
    ensures Expiries(r, h) == 0 ==> ClaimsSpaced(h, c.baseBackoffSeconds)
    ensures Expiries(r, h) == 0 && ApplyAll(r, h).status == DEAD_LETTER ==>
              && ApplyAll(r, h).attempts == c.maxAttempts
              && ScheduledDelay(r, h) == c.baseBackoffSeconds * (Pow2(c.maxAttempts - 1) - 1) * MICROS_PER_SECOND
  {
    hide EnabledAll, FollowsPolicy, ApplyAll, ReclaimedAtLimit, ClaimTimes, Pow2, ScheduledDelay;
    PolicyBoundsRetries(r, h, c.baseBackoffSeconds, c.maxAttempts);
    EventNeedsAtMost(r, h, c.maxAttempts);
    AttemptsOverLimit(r, h, c.baseBackoffSeconds, c.maxAttempts);
    if Expiries(r, h) == 0 {
      DeadLetterAfterExactDelay(r, h, c.baseBackoffSeconds, c.maxAttempts);
      AllClaimsSpaced(r, h, c.baseBackoffSeconds, c.maxAttempts);
    }
  }

  // ---------------------------------------------------------------- past the limit

  /** Persist one SIGNAL, claim it for one second, and claim it again when that has run out. */
  function OverrunEvents(r: Request): seq<Event>
  {
    [Begin(0, r), ReadFirst(0), TryInsert(0, 0), Claim([0], [0], 0, 1, "w"), Claim([0], [1], MICROS_PER_SECOND, 1, "w")]
  }

  lemma FiveSteps(s: System, a: Event, b: Event, c: Event, d: Event, e: Event)
    requires Allowed(s, a) && Allowed(Step(s, a), b) && Allowed(Step(Step(s, a), b), c)
    requires AllowedRun(Step(Step(Step(s, a), b), c), [d, e])
    ensures AllowedRun(s, [a, b, c, d, e])
    ensures Run(s, [a, b, c, d, e]) == Run(Step(Step(Step(s, a), b), c), [d, e])
  {
    hide Allowed, Step;
    var s1 := Step(s, a);
    FirstStep(Step(s1, b), c, [d, e]);
    FirstStep(s1, b, [c] + [d, e]);
    FirstStep(s, a, [b] + ([c] + [d, e]));
    assert [a] + ([b] + ([c] + [d, e])) == [a, b, c, d, e];
  }

  lemma FreshSignal(r: Request)
    requires ValidRequest(r) && IsSignal(r)
    ensures Allowed(INITIAL, Begin(0, r))
    ensures Allowed(Step(INITIAL, Begin(0, r)), ReadFirst(0))
    ensures Allowed(Step(Step(INITIAL, Begin(0, r)), ReadFirst(0)), TryInsert(0, 0))
    ensures var s := Step(Step(Step(INITIAL, Begin(0, r)), ReadFirst(0)), TryInsert(0, 0));
            s.db.outbox == [NewRow(EventIdOf(r), r.key, Encode(r), 0)] && s.used == {}
  {
  }

  /** One guarded UPDATE on a table of one row. */
  lemma ClaimOnlyRow(s: System, token: Token, now: Instant)
    requires |s.db.outbox| == 1 && Eligible(s.db.outbox[0], now) && token !in s.used && PlusSeconds(now, 1).Some?
    ensures var e := Claim([0], [token], now, 1, "w");
            && Allowed(s, e)
            && Step(s, e).db.outbox == [Apply(s.db.outbox[0], ClaimMove(now, PlusSeconds(now, 1).value, "w", token))]
            && Step(s, e).used == s.used + {token}
  {
    assert "w"[0] == 'w';
    var e := Claim([0], [token], now, 1, "w");
    var until := PlusSeconds(now, 1).value;
    assert FirstIndex([0], 0) == 0;
    BatchRow(s.db.outbox, [0], [token], now, until, "w", 0);
  }

  /** A second claim of the one row, after a lease of one second. */
  lemma ClaimTwice(s: System, row: Row)
    requires s.db.outbox == [row] && s.used == {} && row.status == PENDING && row.attempts == 0
    ensures var events := [Claim([0], [0], 0, 1, "w"), Claim([0], [1], MICROS_PER_SECOND, 1, "w")];
            && AllowedRun(s, events) && |Run(s, events).db.outbox| == 1
            && Run(s, events).db.outbox[0].attempts == 2 && Run(s, events).db.outbox[0].status == PROCESSING
  {
    var a, b := Claim([0], [0], 0, 1, "w"), Claim([0], [1], MICROS_PER_SECOND, 1, "w");
    ClaimOnlyRow(s, 0, 0);
    ClaimOnlyRow(Step(s, a), 1, MICROS_PER_SECOND);
    TwoSteps(s, a, b);
  }

  lemma {:induction false} NothingFinalised(s: System, events: seq<Event>, returned: set<Item>, c: Config)
    requires AllowedRun(s, events)
    requires forall k :: 0 <= k < |events| ==> !events[k].Finalise? && (events[k].Claim? ==> DistinctIds(events[k].ids))
    ensures WorkerRun(s, events, returned, c)
    decreases |events|
  {
    hide Allowed, Step, ReturnedBy;
    if |events| > 0 { NothingFinalised(Step(s, events[0]), events[1..], returned + ReturnedBy(s, events[0]), c); }
  }

  /** The limit can be passed: of any SIGNAL, a run of workers with `max_attempts` 1 and a lease
      of one second makes two claims. */
  lemma AttemptsPassTheLimit(r: Request, c: Config)
    requires ValidRequest(r) && IsSignal(r) && ValidConfig(c) && c.maxAttempts == 1 && c.leaseSeconds == 1
    ensures AllowedRun(INITIAL, OverrunEvents(r)) && WorkerRun(INITIAL, OverrunEvents(r), {}, c)
    ensures var rows := Run(INITIAL, OverrunEvents(r)).db.outbox;
            |rows| == 1 && rows[0].attempts == 2 > c.maxAttempts
  {
    hide ValidRequest, Allowed, Step, Encode;
    var first, second := Claim([0], [0], 0, 1, "w"), Claim([0], [1], MICROS_PER_SECOND, 1, "w");
    FreshSignal(r);
    var s := Step(Step(Step(INITIAL, Begin(0, r)), ReadFirst(0)), TryInsert(0, 0));
    ClaimTwice(s, NewRow(EventIdOf(r), r.key, Encode(r), 0));
    FiveSteps(INITIAL, Begin(0, r), ReadFirst(0), TryInsert(0, 0), first, second);
    NothingFinalised(INITIAL, OverrunEvents(r), {}, c);
  }
}
