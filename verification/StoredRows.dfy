/** What each statement of the store leaves in the tables, column by column. */
module StoredRows {
  import opened Wrappers
  import opened Text
  import opened IsoTime
  import opened Domain
  import opened PayloadFields
  import opened OutboxTable
  import opened Decisions

  // ---------------------------------------------------------------- persist

  /** The row of a new SIGNAL. */
  ghost predicate IsNewRow(row: Row, r: Request, at: Instant)
  {
    && row.eventId == (if r.eventId.Some? then r.eventId.value else "signal:" + r.key)
    && row.key == r.key && Carries(row.payload, r)
    && row.status == PENDING && row.attempts == 0 && row.createdAt == at && row.updatedAt == at
    && row.nextAttemptAt.None? && row.lockedUntil.None? && row.lastError.None? && row.sentAt.None?
    && row.owner.None? && row.token.None?
  }

  /** Neither the key nor, for a SIGNAL, the event id is stored. */
  predicate NothingStored(db: Db, r: Request)
  {
    && r.key !in db.decisions
    && (r.decision.status == SIGNAL ==>
          forall i :: 0 <= i < |db.outbox| ==>
            && db.outbox[i].key != r.key
            && db.outbox[i].eventId != (if r.eventId.Some? then r.eventId.value else "signal:" + r.key))
  }

  /** One decision more and, for a SIGNAL, one outbox row more. */
  ghost predicate IsStored(db: Db, db': Db, r: Request, at: Instant)
  {
    && r.key in db'.decisions && db'.decisions == db.decisions[r.key := db'.decisions[r.key]]
    && (var d := db'.decisions[r.key];
        d.status == r.decision.status && d.createdAt == at && Carries(d.payload, r))
    && (r.decision.status == BLOCKED ==> db'.outbox == db.outbox)
    && (r.decision.status == SIGNAL ==>
          && |db'.outbox| == |db.outbox| + 1 && db'.outbox[..|db.outbox|] == db.outbox
          && IsNewRow(db'.outbox[|db.outbox|], r, at))
  }

  /** A call is accepted exactly when nothing of it is stored, and then stores it. */
  lemma PersistStores(db: Db, r: Request, at: Instant)
    ensures var (db', o) := Persisted(db, r, at);
            && (o == New <==> NothingStored(db, r))
            && (if o == New then IsStored(db, db', r, at) else db' == db)
  {
    hide Carries, Encode;
    PayloadCarries(r);
    CompareIsNotNew(db, r);
  }

  lemma CompareIsNotNew(db: Db, r: Request)
    ensures r.key in db.decisions ==> CompareStored(db, r) != New
    ensures Recheck(db, r) != New
  {
  }

  // ---------------------------------------------------------------- claim

  /** Waiting, due again, or abandoned by a holder whose time is up. */
  predicate Claimable(row: Row, now: Instant)
  {
    match row.status
    case PENDING => true
    case RETRY => row.nextAttemptAt.None? || row.nextAttemptAt.value <= now
    case PROCESSING => row.lockedUntil.Some? && row.lockedUntil.value <= now
    case _ => false
  }

  /** The columns that no statement after the INSERT writes. */
  predicate SameIdentity(row: Row, row': Row)
  {
    && row'.eventId == row.eventId && row'.key == row.key && row'.payload == row.payload
    && row'.createdAt == row.createdAt
  }

  /** A row as the claim leaves it: leased to the caller until the lease has passed. */
  predicate IsClaimed(row: Row, row': Row, now: Instant, leaseSeconds: int, worker: string, token: Token)
  {
    && SameIdentity(row, row') && row'.sentAt == row.sentAt && row'.nextAttemptAt == row.nextAttemptAt
    && row'.status == PROCESSING && row'.attempts == row.attempts + 1
    && row'.owner == Some(worker) && row'.token == Some(token) && row'.lastError.None? && row'.updatedAt == now
    && row'.lockedUntil.Some? && row'.lockedUntil.value == now + leaseSeconds * 1_000_000
  }

  /** A claim: record `k` is row `ids[k]`, claimed under token `k`; other rows are kept. */
  predicate ClaimsRows(rows: Table, rows': Table, ids: seq<nat>, tokens: seq<Token>, now: Instant, leaseSeconds: int,
                       worker: string, records: seq<Item>)
  {
    && |rows'| == |rows| && |records| == |ids| <= |tokens|
    && (forall k :: 0 <= k < |ids| ==>
          && ids[k] < |rows| && records[k] == Item(ids[k] + 1, rows'[ids[k]]) && Claimable(rows[ids[k]], now)
          && IsClaimed(rows[ids[k]], rows'[ids[k]], now, leaseSeconds, worker, tokens[k]))
    && (forall i: nat :: i < |rows| && i !in ids ==> rows'[i] == rows[i])
  }

  lemma {:induction false} ItemsInOrder(rows: Table, ids: seq<nat>, tokens: seq<Token>, now: Instant, until: Instant,
                                        worker: string)
    requires |ids| == |tokens| && DistinctIds(ids) && now < until && !Blank(worker)
    requires forall k :: 0 <= k < |ids| ==> ids[k] < |rows| && Eligible(rows[ids[k]], now)
    ensures var items := ClaimItems(rows, ids, tokens, now, until, worker);
            && |items| == |ids|
            && forall k :: 0 <= k < |ids| ==>
                 items[k] == Item(ids[k] + 1, Apply(rows[ids[k]], ClaimMove(now, until, worker, tokens[k])))
    decreases |ids|
  {
    if |ids| > 0 {
      var last := |ids| - 1;
      hide Apply, Eligible;
      ItemsInOrder(rows, ids[..last], tokens[..last], now, until, worker);
      assert ids[last] !in ids[..last];
      BatchRow(rows, ids[..last], tokens[..last], now, until, worker, ids[last]);
    }
  }

  lemma BatchInOrder(rows: Table, ids: seq<nat>, tokens: seq<Token>, now: Instant, until: Instant, worker: string,
                     k: nat)
    requires |ids| == |tokens| && DistinctIds(ids) && now < until && !Blank(worker) && k < |ids|
    requires ids[k] < |rows| && Eligible(rows[ids[k]], now)
    ensures ClaimBatch(rows, ids, tokens, now, until, worker)[ids[k]]
            == Apply(rows[ids[k]], ClaimMove(now, until, worker, tokens[k]))
  {
    hide Apply;
    BatchRow(rows, ids, tokens, now, until, worker, ids[k]);
    assert FirstIndex(ids, ids[k]) == k;
  }

  lemma ClaimMoveMeans(row: Row, now: Instant, until: Instant, leaseSeconds: int, worker: string, token: Token)
    requires until == now + leaseSeconds * 1_000_000
    ensures IsClaimed(row, Apply(row, ClaimMove(now, until, worker, token)), now, leaseSeconds, worker, token)
  {
  }

  lemma EligibleMeans(row: Row, now: Instant)
    ensures Eligible(row, now) <==> Claimable(row, now)
  {
  }

  /** What a claim of distinct eligible rows does. */
  lemma ClaimMeans(rows: Table, ids: seq<nat>, tokens: seq<Token>, now: Instant, leaseSeconds: nat, worker: string)
    requires |ids| == |tokens| && DistinctIds(ids) && leaseSeconds > 0 && !Blank(worker)
    requires PlusSeconds(now, leaseSeconds).Some?
    requires forall k :: 0 <= k < |ids| ==> ids[k] < |rows| && Eligible(rows[ids[k]], now)
    ensures var until := PlusSeconds(now, leaseSeconds).value;
            ClaimsRows(rows, ClaimBatch(rows, ids, tokens, now, until, worker), ids, tokens, now, leaseSeconds, worker,
                       ClaimItems(rows, ids, tokens, now, until, worker))
  {
    hide Apply, IsClaimed, Eligible, Claimable, ClaimBatch, ClaimItems;
    var until := PlusSeconds(now, leaseSeconds).value;
    ItemsInOrder(rows, ids, tokens, now, until, worker);
    forall k | 0 <= k < |ids|
      ensures ClaimBatch(rows, ids, tokens, now, until, worker)[ids[k]]
              == Apply(rows[ids[k]], ClaimMove(now, until, worker, tokens[k]))
      ensures IsClaimed(rows[ids[k]], Apply(rows[ids[k]], ClaimMove(now, until, worker, tokens[k])), now, leaseSeconds,
                        worker, tokens[k])
      ensures Claimable(rows[ids[k]], now)
    {
      BatchInOrder(rows, ids, tokens, now, until, worker, k);
      ClaimMoveMeans(rows[ids[k]], now, until, leaseSeconds, worker, tokens[k]);
      EligibleMeans(rows[ids[k]], now);
    }
    forall i: nat | i < |rows| && i !in ids ensures ClaimBatch(rows, ids, tokens, now, until, worker)[i] == rows[i] {
      BatchRow(rows, ids, tokens, now, until, worker, i);
      StayKeeps(rows[i]);
    }
  }

  lemma StayKeeps(row: Row)
    ensures Apply(row, Stay) == row
  {
  }

  /** The selection of a claim: the claimable rows, oldest first, ties by event id, up to the limit. */
  lemma SelectionMeans(rows: Table, now: Instant, limit: nat)
    requires DistinctEvents(rows)
    ensures var ids := SelectEligible(rows, now, limit);
            var claimable := set i: nat | i < |rows| && Claimable(rows[i], now);
            && DistinctIds(ids) && |ids| == (if |claimable| < limit then |claimable| else limit)
            && (forall k :: 0 <= k < |ids| ==> ids[k] < |rows| && Claimable(rows[ids[k]], now))
            && (forall k, l :: 0 <= k < l < |ids| ==> OlderFirst(rows[ids[k]], rows[ids[l]]))
            && forall j: nat, k :: j in claimable && j !in ids && 0 <= k < |ids| ==> OlderFirst(rows[ids[k]], rows[j])
  {
    var ids, claimable := SelectEligible(rows, now, limit), set i: nat | i < |rows| && Claimable(rows[i], now);
    assert EligibleRows(rows, now) == claimable;
    hide Eligible, Claimable, FirstInOrder;
    FirstInOrderMeaning(rows, EligibleRows(rows, now), limit);
    SelectionDistinct(rows, EligibleRows(rows, now), limit, ids);
    forall j: nat, k | j in claimable && j !in ids && 0 <= k < |ids| ensures OlderFirst(rows[ids[k]], rows[j]) {
      assert AllBefore(rows, ids, j);
    }
  }

  predicate OlderFirst(a: Row, b: Row)
  {
    a.createdAt < b.createdAt || (a.createdAt == b.createdAt && Less(a.eventId, b.eventId))
  }

  // ---------------------------------------------------------------- finalisers

  /** The caller holds the lease of the row at that time. */
  predicate IsHeld(row: Row, worker: string, lease: Token, clock: Instant)
  {
    && row.status == PROCESSING && row.owner == Some(worker) && row.token == Some(lease)
    && row.lockedUntil.Some? && clock < row.lockedUntil.value
  }

  /** Only row `i` was changed. */
  predicate OnlyRow(rows: Table, rows': Table, i: nat)
  {
    i < |rows| == |rows'| && forall j :: 0 <= j < |rows| && j != i ==> rows'[j] == rows[j]
  }

  /** What every finaliser does to its row: the lease is gone, attempts stay. */
  predicate IsReleased(row: Row, row': Row, clock: Instant)
  {
    && SameIdentity(row, row') && row'.attempts == row.attempts && row'.updatedAt == clock
    && row'.owner.None? && row'.token.None? && row'.lockedUntil.None?
  }

  predicate IsSent(row: Row, row': Row, sentAt: Instant, clock: Instant)
  {
    && IsReleased(row, row', clock) && row'.status == SENT && row'.sentAt == Some(sentAt)
    && row'.nextAttemptAt.None? && row'.lastError.None?
  }

  predicate IsRetried(row: Row, row': Row, nextAttemptAt: Instant, error: string, clock: Instant)
  {
    && IsReleased(row, row', clock) && row'.status == RETRY && row'.nextAttemptAt == Some(nextAttemptAt)
    && row'.lastError == Some(error) && row'.sentAt == row.sentAt
  }

  predicate IsDead(row: Row, row': Row, error: string, clock: Instant)
  {
    && IsReleased(row, row', clock) && row'.status == DEAD_LETTER && row'.lastError == Some(error)
    && row'.nextAttemptAt == row.nextAttemptAt && row'.sentAt == row.sentAt
  }

  /** The row as the finaliser leaves it. */
  predicate IsFinalised(row: Row, row': Row, f: Finaliser, clock: Instant)
  {
    match f
    case MarkSent(sentAt) => IsSent(row, row', sentAt, clock)
    case MarkRetry(at, error) => IsRetried(row, row', at, error, clock)
    case MarkDead(error) => IsDead(row, row', error, clock)
  }

  /** Some row has this event id and is held by the caller. */
  predicate HeldByEvent(rows: Table, eventId: string, worker: string, lease: Token, clock: Instant)
  {
    exists i :: 0 <= i < |rows| && rows[i].eventId == eventId && IsHeld(rows[i], worker, lease, clock)
  }

  predicate HeldByRowid(rows: Table, internalId: nat, worker: string, lease: Token, clock: Instant)
  {
    1 <= internalId <= |rows| && IsHeld(rows[internalId - 1], worker, lease, clock)
  }

  lemma FinalMoveMeans(row: Row, f: Finaliser, worker: string, lease: Token, clock: Instant)
    ensures IsFinalised(row, Apply(row, FinalMove(f, worker, lease, clock)), f, clock)
  {
  }

  lemma HeldMeans(row: Row, worker: string, lease: Token, clock: Instant)
    ensures HoldsLease(row, worker, lease, clock) <==> IsHeld(row, worker, lease, clock)
  {
  }

  lemma HeldMatches(rows: Table, target: Target, worker: string, lease: Token, clock: Instant)
    requires DistinctEvents(rows)
    ensures var hit := Matched(rows, target, worker, lease, clock);
            && |hit| <= 1
            && (|hit| == 1 <==> exists i: nat :: i in hit)
  {
    var hit := Matched(rows, target, worker, lease, clock);
    if i: nat :| i in hit { MatchedUnique(rows, target, worker, lease, clock, i); }
    else { assert hit == {}; }
  }

  /** A finaliser by event id succeeds exactly with proper arguments and a held row. */
  lemma SucceedsByEvent(rows: Table, eventId: string, f: Finaliser, worker: string, lease: Token, clock: Instant)
    requires DistinctEvents(rows)
    ensures FinaliserSucceeds(rows, ByEvent(eventId), f, worker, lease, clock) <==>
              && !Blank(eventId) && !Blank(worker) && (f.MarkRetry? || f.MarkDead? ==> !Blank(f.error))
              && HeldByEvent(rows, eventId, worker, lease, clock)
  {
    HeldMatches(rows, ByEvent(eventId), worker, lease, clock);
    if HeldByEvent(rows, eventId, worker, lease, clock) {
      var i :| 0 <= i < |rows| && rows[i].eventId == eventId && IsHeld(rows[i], worker, lease, clock);
      assert i in Matched(rows, ByEvent(eventId), worker, lease, clock);
    }
  }

  lemma SucceedsByRowid(rows: Table, internalId: nat, f: Finaliser, worker: string, lease: Token, clock: Instant)
    requires DistinctEvents(rows)
    ensures FinaliserSucceeds(rows, ByRowid(internalId), f, worker, lease, clock) <==>
              && !Blank(worker) && (f.MarkRetry? || f.MarkDead? ==> !Blank(f.error))
              && HeldByRowid(rows, internalId, worker, lease, clock)
  {
    HeldMatches(rows, ByRowid(internalId), worker, lease, clock);
    if HeldByRowid(rows, internalId, worker, lease, clock) {
      assert internalId - 1 in Matched(rows, ByRowid(internalId), worker, lease, clock);
    }
  }

  /** The one row that a successful finaliser changes, and how. */
  ghost predicate FinalisesOne(rows: Table, rows': Table, target: Target, f: Finaliser, worker: string, lease: Token,
                               clock: Instant)
  {
    exists i: nat ::
      && OnlyRow(rows, rows', i) && IsHeld(rows[i], worker, lease, clock) && IsFinalised(rows[i], rows'[i], f, clock)
      && (match target case ByEvent(e) => rows[i].eventId == e case ByRowid(n) => n == i + 1)
  }

  lemma FinalisedMeans(rows: Table, target: Target, f: Finaliser, worker: string, lease: Token, clock: Instant)
    requires DistinctEvents(rows)
    ensures var rows' := Finalised(rows, target, f, worker, lease, clock);
            if FinaliserSucceeds(rows, target, f, worker, lease, clock) then
              FinalisesOne(rows, rows', target, f, worker, lease, clock)
            else rows' == rows
  {
    hide Apply, IsFinalised;
    if FinaliserSucceeds(rows, target, f, worker, lease, clock) {
      HeldMatches(rows, target, worker, lease, clock);
      var i: nat :| i in Matched(rows, target, worker, lease, clock);
      MatchedUnique(rows, target, worker, lease, clock, i);
      FinalMoveMeans(rows[i], f, worker, lease, clock);
      assert OnlyRow(rows, Finalised(rows, target, f, worker, lease, clock), i);
    }
  }

  // ---------------------------------------------------------------- recovery

  /** A row that recovery returns: due at once, without its lease, and with an error to show. */
  predicate IsRecovered(row: Row, row': Row, now: Instant)
  {
    && IsReleased(row, row', now) && row'.status == RETRY && row'.nextAttemptAt == Some(now)
    && row'.sentAt == row.sentAt
    && row'.lastError == if row.lastError.Some? then row.lastError else Some("lease expired")
  }

  predicate TimeIsUp(row: Row, now: Instant)
  {
    row.status == PROCESSING && row.lockedUntil.Some? && row.lockedUntil.value <= now
  }

  /** Recovery returns the rows whose time is up and keeps the others. */
  lemma RecoveredMeans(rows: Table, now: Instant)
    ensures var rows' := Recovered(rows, now);
            && |rows'| == |rows|
            && forall i :: 0 <= i < |rows| ==>
                 if TimeIsUp(rows[i], now) then IsRecovered(rows[i], rows'[i], now) else rows'[i] == rows[i]
  {
  }

  // ---------------------------------------------------------------- answers of persist

  predicate HasKeyRow(rows: Table, key: string)
  {
    exists i :: 0 <= i < |rows| && rows[i].key == key
  }

  predicate HasEqualRow(rows: Table, r: Request)
  {
    exists i :: && 0 <= i < |rows| && rows[i].key == r.key && rows[i].payload == Encode(r)
                && rows[i].eventId == (if r.eventId.Some? then r.eventId.value else "signal:" + r.key)
  }

  /** The answer to a call that is not accepted, on every pair of tables with unique keys: check
      by check when its key is stored, and an integrity failure when only its event id is. */
  lemma PersistAnswers(db: Db, r: Request, at: Instant)
    requires DistinctKeys(db.outbox) && !NothingStored(db, r)
    ensures var o := Persisted(db, r, at).1;
            if r.key !in db.decisions then o == IntegrityFailure
            else if db.decisions[r.key].payload != Encode(r) then o == KeyReused
            else if db.decisions[r.key].status != r.decision.status then o == DecisionInconsistent
            else if r.decision.status == SIGNAL then
              if !HasKeyRow(db.outbox, r.key) then o == OutboxMissing
              else if !HasEqualRow(db.outbox, r) then o == SignalInconsistent
              else o == Replay
            else if HasKeyRow(db.outbox, r.key) then o == OrphanOutbox
            else o == Replay
  {
    hide Encode;
    var row := RowOfKey(db.outbox, r.key);
    if row.Some? {
      forall i | 0 <= i < |db.outbox| && db.outbox[i].key == r.key ensures db.outbox[i] == row.value {
        var j :| 0 <= j < |db.outbox| && db.outbox[j] == row.value;
        assert i == j;
      }
    }
  }
}
