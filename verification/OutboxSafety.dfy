/** Safety over runs: immutable identity, absorbing states, counted claims, and leases
    that nobody else can finalise or take while they last. */
module OutboxSafety {
  import opened Wrappers
  import opened Text
  import opened IsoTime
  import opened OutboxTable
  import opened OutboxSystem

  // ---------------------------------------------------------------- histories

  /** The moves a run makes on row `i`, one per step. */
  ghost function History(s: System, events: seq<Event>, i: nat): (h: seq<Move>)
    requires AllowedRun(s, events) && i < |s.db.outbox|
    ensures |h| == |events|
    decreases |events|
  {
    if |events| == 0 then []
    else
      StepMovesRow(s, events[0], i);
      [MoveOf(s, events[0], i)] + History(Step(s, events[0]), events[1..], i)
  }

  function ApplyAll(r: Row, h: seq<Move>): Row
    decreases |h|
  {
    if |h| == 0 then r else ApplyAll(Apply(r, h[0]), h[1..])
  }

  predicate EnabledAll(r: Row, h: seq<Move>)
    decreases |h|
  {
    |h| == 0 || (Enabled(r, h[0]) && EnabledAll(Apply(r, h[0]), h[1..]))
  }

  /** The state of a row after a run is its history applied, every move enabled in turn. */
  lemma {:induction false} RunFollowsHistory(s: System, events: seq<Event>, i: nat)
    requires AllowedRun(s, events) && i < |s.db.outbox|
    ensures |s.db.outbox| <= |Run(s, events).db.outbox|
    ensures EnabledAll(s.db.outbox[i], History(s, events, i))
    ensures Run(s, events).db.outbox[i] == ApplyAll(s.db.outbox[i], History(s, events, i))
    decreases |events|
  {
    if |events| > 0 {
      StepMovesRow(s, events[0], i);
      RunFollowsHistory(Step(s, events[0]), events[1..], i);
      var h := History(s, events, i);
      assert h[1..] == History(Step(s, events[0]), events[1..], i);
    }
  }

  function Claims(h: seq<Move>): nat
  {
    if |h| == 0 then 0 else (if h[0].ClaimMove? then 1 else 0) + Claims(h[1..])
  }

  /** Identity columns never change, attempt_count counts the successful claims, and a
      terminal row is never touched again. */
  lemma {:induction false} HistoryKeeps(r: Row, h: seq<Move>)
    requires EnabledAll(r, h)
    ensures var r' := ApplyAll(r, h);
            && r'.eventId == r.eventId && r'.key == r.key && r'.payload == r.payload && r'.createdAt == r.createdAt
            && r'.attempts == r.attempts + Claims(h)
            && (Terminal(r) ==> r' == r)
    decreases |h|
  {
    if |h| > 0 { HistoryKeeps(Apply(r, h[0]), h[1..]); }
  }

  lemma RowsOverRuns(s: System, events: seq<Event>, i: nat)
    requires AllowedRun(s, events) && i < |s.db.outbox|
    ensures |s.db.outbox| <= |Run(s, events).db.outbox|
    ensures var r, r' := s.db.outbox[i], Run(s, events).db.outbox[i];
            && r'.eventId == r.eventId && r'.key == r.key && r'.payload == r.payload && r'.createdAt == r.createdAt
            && r'.attempts == r.attempts + Claims(History(s, events, i))
            && (Terminal(r) ==> r' == r)
  {
    RunFollowsHistory(s, events, i);
    HistoryKeeps(s.db.outbox[i], History(s, events, i));
  }

  // ---------------------------------------------------------------- tokens

  /** The token was drawn and no row holds it. */
  ghost predicate Dead(s: System, token: Token)
  {
    token in s.used && forall i :: 0 <= i < |s.db.outbox| ==> s.db.outbox[i].token != Some(token)
  }

  /** A drawn token that a row does not hold is not given to it. */
  lemma TokenNotRegained(s: System, e: Event, i: nat, token: Token)
    requires Allowed(s, e) && token in s.used && i < |s.db.outbox| && s.db.outbox[i].token != Some(token)
    ensures |s.db.outbox| <= |Step(s, e).db.outbox| && Step(s, e).db.outbox[i].token != Some(token)
  {
    StepMovesRow(s, e, i);
    if IsLifecycle(e) { TokenOrigin(s, e, i); }
  }

  lemma DeadStaysDead(s: System, e: Event, token: Token)
    requires Allowed(s, e) && Dead(s, token)
    ensures Dead(Step(s, e), token)
  {
    var s' := Step(s, e);
    forall i | 0 <= i < |s'.db.outbox| ensures s'.db.outbox[i].token != Some(token) {
      if i < |s.db.outbox| { TokenNotRegained(s, e, i, token); } else { StepAppends(s, e); }
    }
  }

  lemma {:induction false} DeadOverRuns(s: System, events: seq<Event>, token: Token)
    requires AllowedRun(s, events) && Dead(s, token)
    ensures Dead(Run(s, events), token)
    decreases |events|
  {
    if |events| > 0 {
      DeadStaysDead(s, events[0], token);
      DeadOverRuns(Step(s, events[0]), events[1..], token);
    }
  }

  /** Once a row has dropped a token, no row holds it. */
  lemma DroppedTokenIsDead(s: System, e: Event, i: nat, token: Token)
    requires TokensSound(s.db.outbox, s.used) && Allowed(s, e) && i < |s.db.outbox|
             && s.db.outbox[i].token == Some(token)
    requires |s.db.outbox| <= |Step(s, e).db.outbox| && Step(s, e).db.outbox[i].token != Some(token)
    ensures Dead(Step(s, e), token)
  {
    var s' := Step(s, e);
    forall j | 0 <= j < |s'.db.outbox| ensures s'.db.outbox[j].token != Some(token) {
      if j < |s.db.outbox| {
        if j != i {
          assert j < i && s.db.outbox[j].token.Some? ==> s.db.outbox[j].token != s.db.outbox[i].token;
          TokenNotRegained(s, e, j, token);
        }
      } else {
        StepAppends(s, e);
      }
    }
  }

  lemma DeadTokenMatchesNothing(s: System, target: Target, f: Finaliser, worker: string, token: Token, clock: Instant)
    requires Dead(s, token)
    ensures !FinaliserSucceeds(s.db.outbox, target, f, worker, token, clock)
  {
    assert Matched(s.db.outbox, target, worker, token, clock) == {};
  }

  /** A worker whose lease was superseded, recovered or spent can never finalise its row
      again, whatever the run does afterwards. */
  lemma SupersededTokenNeverFinalises(s: System, e: Event, events: seq<Event>, i: nat, token: Token,
                                      target: Target, f: Finaliser, worker: string, clock: Instant)
    requires TokensSound(s.db.outbox, s.used) && Allowed(s, e) && AllowedRun(Step(s, e), events)
    requires i < |s.db.outbox| && s.db.outbox[i].token == Some(token)
    requires |s.db.outbox| <= |Step(s, e).db.outbox| && Step(s, e).db.outbox[i].token != Some(token)
    ensures !FinaliserSucceeds(Run(Step(s, e), events).db.outbox, target, f, worker, token, clock)
  {
    DroppedTokenIsDead(s, e, i, token);
    DeadOverRuns(Step(s, e), events, token);
    DeadTokenMatchesNothing(Run(Step(s, e), events), target, f, worker, token, clock);
  }

  /** The row a successful finaliser changes. */
  lemma FinaliserHit(rows: Table, target: Target, f: Finaliser, worker: string, lease: Token,
                     clock: Instant) returns (i: nat)
    requires FinaliserSucceeds(rows, target, f, worker, lease, clock)
    ensures i < |rows| && i in Matched(rows, target, worker, lease, clock) && HoldsLease(rows[i], worker, lease, clock)
  {
    assert Matched(rows, target, worker, lease, clock) != {};
    i :| i in Matched(rows, target, worker, lease, clock);
  }

  /** Each token finalises at most once. */
  lemma TokenFinalisesOnce(s: System, e: Event, events: seq<Event>,
                           target: Target, f: Finaliser, worker: string, clock: Instant)
    requires TokensSound(s.db.outbox, s.used) && e.Finalise? && Allowed(s, e) && AllowedRun(Step(s, e), events)
    ensures FinaliserSucceeds(s.db.outbox, e.target, e.finaliser, e.worker, e.lease, e.clock)
            ==> !FinaliserSucceeds(Run(Step(s, e), events).db.outbox, target, f, worker, e.lease, clock)
  {
    if FinaliserSucceeds(s.db.outbox, e.target, e.finaliser, e.worker, e.lease, e.clock) {
      var i := FinaliserHit(s.db.outbox, e.target, e.finaliser, e.worker, e.lease, e.clock);
      assert MoveOf(s, e, i) == FinalMove(e.finaliser, e.worker, e.lease, e.clock);
      StepMovesRow(s, e, i);
      assert Step(s, e).db.outbox[i].token == None;
      SupersededTokenNeverFinalises(s, e, events, i, e.lease, target, f, worker, clock);
    }
  }

  // ---------------------------------------------------------------- leases in time

  /** The step neither claims nor recovers at `deadline` or later, and does not use `token`. */
  predicate LeavesLease(e: Event, deadline: Instant, token: Token)
  {
    match e
    case Claim(_, _, now, _, _) => now < deadline
    case Recover(now) => now < deadline
    case Finalise(_, _, _, lease, _) => lease != token
    case _ => true
  }

  /** While a lease lasts, nothing but its own holder changes the row: no second claimer, no
      recovery, no foreign finaliser. */
  lemma {:induction false} LeaseIsExclusive(s: System, events: seq<Event>, i: nat, token: Token, deadline: Instant)
    requires AllowedRun(s, events) && i < |s.db.outbox|
    requires s.db.outbox[i].status == PROCESSING && s.db.outbox[i].token == Some(token)
    requires s.db.outbox[i].lockedUntil == Some(deadline)
    requires forall k :: 0 <= k < |events| ==> LeavesLease(events[k], deadline, token)
    ensures |s.db.outbox| <= |Run(s, events).db.outbox|
    ensures Run(s, events).db.outbox[i] == s.db.outbox[i]
    decreases |events|
  {
    if |events| > 0 {
      StepMovesRow(s, events[0], i);
      assert LeavesLease(events[0], deadline, token);
      LeaseIsExclusive(Step(s, events[0]), events[1..], i, token, deadline);
    }
  }

  lemma HolderMatches(rows: Table, target: Target, i: nat, worker: string, token: Token, clock: Instant)
    requires DistinctEvents(rows) && i < |rows| && Addresses(target, i, rows[i])
    requires HoldsLease(rows[i], worker, token, clock)
    ensures |Matched(rows, target, worker, token, clock)| == 1
  {
    MatchedUnique(rows, target, worker, token, clock, i);
  }

  /** The holder of a live lease can finalise its row, by event id or by rowid. */
  lemma HolderFinalises(s: System, i: nat, f: Finaliser, worker: string, token: Token, clock: Instant)
    requires Inv(s) && i < |s.db.outbox| && HoldsLease(s.db.outbox[i], worker, token, clock)
    requires f.MarkSent? || !Blank(f.error)
    ensures FinaliserSucceeds(s.db.outbox, ByEvent(s.db.outbox[i].eventId), f, worker, token, clock)
    ensures FinaliserSucceeds(s.db.outbox, ByRowid(i + 1), f, worker, token, clock)
  {
    var rows := s.db.outbox;
    assert RowSound(rows[i]);
    HolderMatches(rows, ByEvent(rows[i].eventId), i, worker, token, clock);
    HolderMatches(rows, ByRowid(i + 1), i, worker, token, clock);
  }

  /** After its deadline, or with any other owner or token, a finaliser addressed to a row
      changes nothing, by event id and by rowid. */
  lemma LateOrForeignFinaliserFails(s: System, i: nat, target: Target, f: Finaliser, worker: string, token: Token,
                                    clock: Instant)
    requires RowsSound(s.db.outbox) && DistinctEvents(s.db.outbox) && i < |s.db.outbox|
    requires Addresses(target, i, s.db.outbox[i])
    requires var r := s.db.outbox[i];
             r.status == PROCESSING ==>
               r.token != Some(token) || r.owner != Some(worker) || r.lockedUntil.value <= clock
    ensures !FinaliserSucceeds(s.db.outbox, target, f, worker, token, clock)
    ensures Finalised(s.db.outbox, target, f, worker, token, clock) == s.db.outbox
  {
    var rows := s.db.outbox;
    assert RowSound(rows[i]);
    forall j: nat | j < |rows| ensures j !in Matched(rows, target, worker, token, clock) {
      if j != i { assert rows[j].eventId != rows[i].eventId; }
    }
    assert Matched(rows, target, worker, token, clock) == {};
  }
}
