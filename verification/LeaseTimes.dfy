/** The deadline of a claimed row in the times of its claim: when the row can be claimed,
    recovered or finalised again, over every run in which its holder stays silent. */
module LeaseTimes {
  import opened Wrappers
  import opened Text
  import opened IsoTime
  import opened OutboxTable
  import opened OutboxSystem
  import opened OutboxSafety
  import opened StoredRows

  /** The step claims row `i` under the token. */
  ghost predicate ClaimsUnder(s: System, e: Event, i: nat, token: Token)
    requires Allowed(s, e)
  {
    && e.Claim? && i < |s.db.outbox| && i < |Step(s, e).db.outbox|
    && s.db.outbox[i].token != Some(token) && Step(s, e).db.outbox[i].token == Some(token)
  }

  /** The row a claim leaves, field by field; stale selections and repeated ids included. */
  lemma ClaimedRow(s: System, e: Event, i: nat, token: Token)
    requires Allowed(s, e) && ClaimsUnder(s, e, i, token)
    ensures Claimable(s.db.outbox[i], e.now) && token in e.tokens
    ensures IsClaimed(s.db.outbox[i], Step(s, e).db.outbox[i], e.now, e.leaseSeconds, e.worker, token)
  {
    StepMovesRow(s, e, i);
    EligibleMeans(s.db.outbox[i], e.now);
  }

  /** As long as others respect the deadline, a row whose holder stays silent is claimable
      exactly from `now + leaseSeconds` on. */
  lemma ClaimableFromDeadline(s: System, e: Event, later: seq<Event>, i: nat, token: Token, deadline: Instant,
                              t: Instant)
    requires Allowed(s, e) && ClaimsUnder(s, e, i, token) && deadline == e.now + e.leaseSeconds * 1_000_000
    requires AllowedRun(Step(s, e), later)
    requires forall k :: 0 <= k < |later| ==> LeavesLease(later[k], deadline, token)
    ensures i < |Run(Step(s, e), later).db.outbox|
    ensures Run(Step(s, e), later).db.outbox[i] == Step(s, e).db.outbox[i]
    ensures Claimable(Run(Step(s, e), later).db.outbox[i], t) <==> t >= e.now + e.leaseSeconds * 1_000_000
  {
    ClaimedRow(s, e, i, token);
    LeaseIsExclusive(Step(s, e), later, i, token, deadline);
  }

  /** The row at an existing index after a step. */
  ghost function RowAfter(s: System, e: Event, i: nat): Row
    requires Allowed(s, e) && i < |s.db.outbox|
  {
    StepMovesRow(s, e, i);
    Step(s, e).db.outbox[i]
  }

  ghost predicate LeasedUntil(s: System, i: nat, token: Token, deadline: Instant)
  {
    && i < |s.db.outbox| && s.db.outbox[i].status == PROCESSING
    && s.db.outbox[i].token == Some(token) && s.db.outbox[i].lockedUntil == Some(deadline)
  }

  /** The next claim of the row takes it exactly from the deadline on. */
  lemma ClaimOnLease(s: System, i: nat, token: Token, deadline: Instant, t: Instant, seconds: nat, worker: string,
                     spare: Token)
    requires LeasedUntil(s, i, token, deadline) && token in s.used
    requires spare !in s.used && seconds > 0 && !Blank(worker) && PlusSeconds(t, seconds).Some?
    ensures Allowed(s, Claim([i], [spare], t, seconds, worker))
    ensures RowAfter(s, Claim([i], [spare], t, seconds, worker), i).token == Some(spare) <==> t >= deadline
  {
    hide Step;
    var claim := Claim([i], [spare], t, seconds, worker);
    StepMovesRow(s, claim, i);
    assert FirstIndex([i], i) == 0;
  }

  lemma RecoverOnLease(s: System, i: nat, token: Token, deadline: Instant, t: Instant)
    requires LeasedUntil(s, i, token, deadline)
    ensures Allowed(s, Recover(t))
    ensures RowAfter(s, Recover(t), i).status == RETRY <==> t >= deadline
  {
    hide Step;
    StepMovesRow(s, Recover(t), i);
  }

  lemma FinaliseOnLease(s: System, i: nat, token: Token, deadline: Instant, t: Instant)
    requires LeasedUntil(s, i, token, deadline) && RowsInv(s.db.outbox, s.used) && DistinctEvents(s.db.outbox)
    ensures s.db.outbox[i].owner.Some?
    ensures HeldByEvent(s.db.outbox, s.db.outbox[i].eventId, s.db.outbox[i].owner.value, token, t) <==> t < deadline
  {
    var row := s.db.outbox[i];
    assert RowSound(row);
    hide RowsSound, RowSound;
    if HeldByEvent(s.db.outbox, row.eventId, row.owner.value, token, t) {
      var j :| 0 <= j < |s.db.outbox| && s.db.outbox[j].eventId == row.eventId
               && IsHeld(s.db.outbox[j], row.owner.value, token, t);
      assert j == i;
    }
  }

  lemma SoundOutbox(s: System)
    requires Inv(s)
    ensures RowsInv(s.db.outbox, s.used) && DistinctEvents(s.db.outbox)
    ensures forall i :: 0 <= i < |s.db.outbox| && s.db.outbox[i].token.Some? ==> s.db.outbox[i].token.value in s.used
  {
  }

  /** A claim made after any run, and the steps that later find its lease: the row is claimed
      again at `t`, or recovered at `t`, if and only if `t >= now + leaseSeconds`, and its
      holder finalises it at `t` if and only if `t < now + leaseSeconds`. */
  lemma LeaseLasts(before: seq<Event>, e: Event, later: seq<Event>, i: nat, token: Token, deadline: Instant, t: Instant,
                   seconds: nat, worker: string, spare: Token)
    requires AllowedRun(INITIAL, before) && Allowed(Run(INITIAL, before), e)
    requires ClaimsUnder(Run(INITIAL, before), e, i, token)
    requires deadline == e.now + e.leaseSeconds * 1_000_000 && AllowedRun(Step(Run(INITIAL, before), e), later)
    requires forall k :: 0 <= k < |later| ==> LeavesLease(later[k], deadline, token)
    requires spare !in Run(Step(Run(INITIAL, before), e), later).used && seconds > 0 && !Blank(worker)
    requires PlusSeconds(t, seconds).Some?
    ensures var s := Run(Step(Run(INITIAL, before), e), later);
            && i < |s.db.outbox| && s.db.outbox[i].owner == Some(e.worker)
            && Allowed(s, Claim([i], [spare], t, seconds, worker)) && Allowed(s, Recover(t))
            && (RowAfter(s, Claim([i], [spare], t, seconds, worker), i).token == Some(spare)
                <==> t >= e.now + e.leaseSeconds * 1_000_000)
            && (RowAfter(s, Recover(t), i).status == RETRY <==> t >= e.now + e.leaseSeconds * 1_000_000)
            && (HeldByEvent(s.db.outbox, s.db.outbox[i].eventId, e.worker, token, t)
                <==> t < e.now + e.leaseSeconds * 1_000_000)
  {
    hide Inv, Step, Allowed, LeavesLease, HeldByEvent, Run, RowsInv, RowAfter, DistinctEvents;
    var s0 := Run(INITIAL, before);
    InitialInv();
    RunKeepsInv(INITIAL, before);
    StepKeepsInv(s0, e);
    RunKeepsInv(Step(s0, e), later);
    ClaimedRow(s0, e, i, token);
    ClaimableFromDeadline(s0, e, later, i, token, deadline, t);
    var s := Run(Step(s0, e), later);
    SoundOutbox(s);
    ClaimOnLease(s, i, token, deadline, t, seconds, worker, spare);
    RecoverOnLease(s, i, token, deadline, t);
    FinaliseOnLease(s, i, token, deadline, t);
  }
}
