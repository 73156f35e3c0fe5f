/** How much delivery work a table can still cause, and how a worker's retries space out. */
module OutboxDrain {
  import opened IsoTime
  import opened OutboxTable
  import opened OutboxSystem
  import opened OutboxSafety

  // ---------------------------------------------------------------- the measure

  function AtLeastOne(n: int): nat
  {
    if n < 1 then 1 else n
  }

  /** Finalisations a row can still cause under `maxAttempts`; the claim under way is not
      paid for until it is finalised. */
  function Owed(r: Row, maxAttempts: nat): nat
  {
    if Terminal(r) then 0
    else if r.status == PROCESSING then AtLeastOne(maxAttempts - r.attempts + 1)
    else AtLeastOne(maxAttempts - r.attempts)
  }

  function TotalOwed(rows: Table, maxAttempts: nat): nat
  {
    if |rows| == 0 then 0
    else TotalOwed(rows[..|rows| - 1], maxAttempts) + Owed(rows[|rows| - 1], maxAttempts)
  }

  /** A worker schedules a retry only below the attempt limit. */
  predicate RetryBelowLimit(r: Row, m: Move, maxAttempts: nat)
  {
    m.FinalMove? && m.finaliser.MarkRetry? ==> r.attempts < maxAttempts
  }

  lemma MoveNeverOwesMore(r: Row, m: Move, maxAttempts: nat)
    requires Enabled(r, m) && RetryBelowLimit(r, m, maxAttempts)
    ensures Owed(Apply(r, m), maxAttempts) + (if m.FinalMove? then 1 else 0) <= Owed(r, maxAttempts)
  {
  }

  function Finalisations(h: seq<Move>): nat
  {
    if |h| == 0 then 0 else (if h[0].FinalMove? then 1 else 0) + Finalisations(h[1..])
  }

  predicate RetriesBelowLimit(r: Row, h: seq<Move>, maxAttempts: nat)
    decreases |h|
  {
    |h| == 0 || (RetryBelowLimit(r, h[0], maxAttempts) && RetriesBelowLimit(Apply(r, h[0]), h[1..], maxAttempts))
  }

  /** One event: a new row is finalised at most `maxAttempts` times, however its claims,
      crashes and recoveries interleave with those of other events. */
  lemma {:induction false} EventNeedsAtMost(r: Row, h: seq<Move>, maxAttempts: nat)
    requires EnabledAll(r, h) && RetriesBelowLimit(r, h, maxAttempts)
    ensures Owed(ApplyAll(r, h), maxAttempts) + Finalisations(h) <= Owed(r, maxAttempts)
    ensures r.status == PENDING && r.attempts == 0 && maxAttempts >= 1 ==> Finalisations(h) <= maxAttempts
    decreases |h|
  {
    if |h| > 0 {
      MoveNeverOwesMore(r, h[0], maxAttempts);
      EventNeedsAtMost(Apply(r, h[0]), h[1..], maxAttempts);
    }
  }

  // ---------------------------------------------------------------- the table

  lemma {:induction false} TotalMonotone(rows: Table, rows': Table, maxAttempts: nat)
    requires |rows'| == |rows|
    requires forall i :: 0 <= i < |rows| ==> Owed(rows'[i], maxAttempts) <= Owed(rows[i], maxAttempts)
    ensures TotalOwed(rows', maxAttempts) <= TotalOwed(rows, maxAttempts)
    decreases |rows|
  {
    if |rows| > 0 {
      TotalMonotone(rows[..|rows| - 1], rows'[..|rows| - 1], maxAttempts);
    }
  }

  lemma {:induction false} TotalDrops(rows: Table, rows': Table, maxAttempts: nat, k: nat)
    requires |rows'| == |rows| && k < |rows|
    requires forall i :: 0 <= i < |rows| ==> Owed(rows'[i], maxAttempts) <= Owed(rows[i], maxAttempts)
    requires Owed(rows'[k], maxAttempts) < Owed(rows[k], maxAttempts)
    ensures TotalOwed(rows', maxAttempts) < TotalOwed(rows, maxAttempts)
    decreases |rows|
  {
    var n := |rows| - 1;
    if k < n {
      TotalDrops(rows[..n], rows'[..n], maxAttempts, k);
    } else {
      TotalMonotone(rows[..n], rows'[..n], maxAttempts);
    }
  }

  /** Nothing is owed exactly when every row is SENT or DEAD_LETTER. */
  lemma {:induction false} NothingOwedMeansDone(rows: Table, maxAttempts: nat)
    ensures TotalOwed(rows, maxAttempts) == 0 <==> forall i :: 0 <= i < |rows| ==> Terminal(rows[i])
    decreases |rows|
  {
    if |rows| > 0 {
      var n := |rows| - 1;
      NothingOwedMeansDone(rows[..n], maxAttempts);
      assert (forall i :: 0 <= i < |rows| ==> Terminal(rows[i]))
        <==> (forall i :: 0 <= i < n ==> Terminal(rows[..n][i])) && Terminal(rows[n]);
    }
  }

  // ---------------------------------------------------------------- runs

  predicate Delivers(s: System, e: Event)
  {
    e.Finalise? && FinaliserSucceeds(s.db.outbox, e.target, e.finaliser, e.worker, e.lease, e.clock)
  }

  /** In this step every scheduled retry is below the attempt limit. */
  ghost predicate StepBelowLimit(s: System, e: Event, maxAttempts: nat)
    requires Allowed(s, e)
  {
    forall i :: 0 <= i < |s.db.outbox| ==> RetryBelowLimit(s.db.outbox[i], MoveOf(s, e, i), maxAttempts)
  }

  ghost predicate RunBelowLimit(s: System, events: seq<Event>, maxAttempts: nat)
    requires AllowedRun(s, events)
    decreases |events|
  {
    |events| == 0 || (StepBelowLimit(s, events[0], maxAttempts)
                      && RunBelowLimit(Step(s, events[0]), events[1..], maxAttempts))
  }

  /** Successful finalisations of a run. */
  ghost function Delivered(s: System, events: seq<Event>): nat
    requires AllowedRun(s, events)
    decreases |events|
  {
    if |events| == 0 then 0
    else (if Delivers(s, events[0]) then 1 else 0) + Delivered(Step(s, events[0]), events[1..])
  }

  lemma LifecycleStepDrains(s: System, e: Event, maxAttempts: nat)
    requires Allowed(s, e) && IsLifecycle(e) && StepBelowLimit(s, e, maxAttempts)
    ensures |Step(s, e).db.outbox| == |s.db.outbox|
    ensures TotalOwed(Step(s, e).db.outbox, maxAttempts) + (if Delivers(s, e) then 1 else 0)
            <= TotalOwed(s.db.outbox, maxAttempts)
  {
    var rows, rows' := s.db.outbox, Step(s, e).db.outbox;
    LifecycleMovesRows(s, e);
    forall i | 0 <= i < |rows| ensures Owed(rows'[i], maxAttempts) <= Owed(rows[i], maxAttempts) {
      MoveNeverOwesMore(rows[i], MoveOf(s, e, i), maxAttempts);
    }
    if Delivers(s, e) {
      var k := FinaliserHit(rows, e.target, e.finaliser, e.worker, e.lease, e.clock);
      MoveNeverOwesMore(rows[k], MoveOf(s, e, k), maxAttempts);
      TotalDrops(rows, rows', maxAttempts, k);
    } else {
      TotalMonotone(rows, rows', maxAttempts);
    }
  }

  /** A step of a `persist` call leaves the outbox alone or appends a fresh row. */
  lemma PersistStepRows(s: System, e: Event)
    requires Allowed(s, e) && !IsLifecycle(e)
    ensures var rows, rows' := s.db.outbox, Step(s, e).db.outbox;
            || rows' == rows
            || (|rows'| == |rows| + 1 && rows' == rows + [rows'[|rows|]]
                && rows'[|rows|].status == PENDING && rows'[|rows|].attempts == 0)
  {
    StepAppends(s, e);
  }

  lemma StepDrains(s: System, e: Event, maxAttempts: nat)
    requires Allowed(s, e) && StepBelowLimit(s, e, maxAttempts) && maxAttempts >= 1
    ensures |s.db.outbox| <= |Step(s, e).db.outbox|
    ensures TotalOwed(Step(s, e).db.outbox, maxAttempts) + (if Delivers(s, e) then 1 else 0)
            <= TotalOwed(s.db.outbox, maxAttempts) + maxAttempts * (|Step(s, e).db.outbox| - |s.db.outbox|)
  {
    if IsLifecycle(e) {
      LifecycleStepDrains(s, e, maxAttempts);
    } else {
      PersistStepRows(s, e);
      var rows, rows' := s.db.outbox, Step(s, e).db.outbox;
      if rows' != rows {
        assert rows'[..|rows|] == rows;
        assert maxAttempts * (|rows'| - |rows|) == maxAttempts * 1;
      } else {
        assert maxAttempts * (|rows'| - |rows|) == maxAttempts * 0;
      }
    }
  }

  /** Over any run, in any interleaving, with any number of workers, crashes and recoveries:
      each successful finalisation pays one unit, and only a new SIGNAL adds `maxAttempts`. */
  lemma {:induction false} RunDrains(s: System, events: seq<Event>, maxAttempts: nat)
    requires AllowedRun(s, events) && RunBelowLimit(s, events, maxAttempts) && maxAttempts >= 1
    ensures |s.db.outbox| <= |Run(s, events).db.outbox|
    ensures TotalOwed(Run(s, events).db.outbox, maxAttempts) + Delivered(s, events)
            <= TotalOwed(s.db.outbox, maxAttempts) + maxAttempts * (|Run(s, events).db.outbox| - |s.db.outbox|)
    decreases |events|
  {
    hide Step, Allowed, TotalOwed;
    if |events| > 0 {
      var s' := Step(s, events[0]);
      StepDrains(s, events[0], maxAttempts);
      RunDrains(s', events[1..], maxAttempts);
      var n, n', n'' := |s.db.outbox|, |s'.db.outbox|, |Run(s, events).db.outbox|;
      assert maxAttempts * (n' - n) + maxAttempts * (n'' - n') == maxAttempts * (n'' - n);
    } else {
      assert maxAttempts * 0 == 0;
    }
  }

  /** Finalisations done and finalisations owed never exceed `maxAttempts` per SIGNAL, and the
      outbox is empty exactly when none is owed; that many finalisations always empty it. */
  lemma EnoughDeliveriesEmptyTheOutbox(events: seq<Event>, maxAttempts: nat)
    requires AllowedRun(INITIAL, events) && RunBelowLimit(INITIAL, events, maxAttempts) && maxAttempts >= 1
    ensures var rows := Run(INITIAL, events).db.outbox;
            && Delivered(INITIAL, events) + TotalOwed(rows, maxAttempts) <= maxAttempts * |rows|
            && (TotalOwed(rows, maxAttempts) == 0 <==> forall i :: 0 <= i < |rows| ==> Terminal(rows[i]))
            && (Delivered(INITIAL, events) == maxAttempts * |rows| ==>
                  forall i :: 0 <= i < |rows| ==> Terminal(rows[i]))
  {
    RunDrains(INITIAL, events, maxAttempts);
    NothingOwedMeansDone(Run(INITIAL, events).db.outbox, maxAttempts);
  }

  // ---------------------------------------------------------------- progress

  /** Every backoff and every lease has run out. */
  predicate AllDue(rows: Table, now: Instant)
  {
    forall i :: 0 <= i < |rows| ==>
      && (rows[i].nextAttemptAt.Some? ==> rows[i].nextAttemptAt.value <= now)
      && (rows[i].lockedUntil.Some? ==> rows[i].lockedUntil.value <= now)
  }

  /** Once everything is due, the next claim selects as many unfinished rows as its limit
      allows: no row is stuck. */
  lemma DueRowsSelected(rows: Table, now: Instant, limit: nat)
    requires RowsSound(rows) && DistinctEvents(rows) && AllDue(rows, now)
    ensures var unfinished := set i: nat | i < |rows| && !Terminal(rows[i]);
            && EligibleRows(rows, now) == unfinished
            && |SelectEligible(rows, now, limit)| == (if |unfinished| < limit then |unfinished| else limit)
  {
    forall i: nat | i < |rows| ensures Eligible(rows[i], now) <==> !Terminal(rows[i]) {
      assert RowSound(rows[i]);
    }
    assert EligibleRows(rows, now) == set i: nat | i < |rows| && !Terminal(rows[i]);
    FirstInOrderMeaning(rows, EligibleRows(rows, now), limit);
  }
}
