/** `recover_expired_processing` is transparent to claiming. */
module Recovery {
  import opened IsoTime
  import opened OutboxTable

  ghost predicate NoneExpired(rows: Table, t: Instant)
  {
    forall i :: 0 <= i < |rows| ==> !Expired(rows[i], t)
  }

  lemma RowEligibility(rows: Table, now: Instant, t: Instant, i: nat)
    requires i < |rows|
    ensures now <= t ==> (Eligible(Recovered(rows, now)[i], t) <==> Eligible(rows[i], t))
    ensures t < now ==> (Eligible(Recovered(rows, now)[i], t) <==> Eligible(rows[i], t) && !Expired(rows[i], t))
  {
  }

  /** A recovery at `now` leaves the eligible rows at time `t` as they were exactly when `t`
      is not before `now`, or no lease had run out by `t`. */
  lemma RecoveryKeepsEligible(rows: Table, now: Instant, t: Instant)
    ensures EligibleRows(Recovered(rows, now), t) == EligibleRows(rows, t) <==> now <= t || NoneExpired(rows, t)
  {
    var rows' := Recovered(rows, now);
    forall i: nat | i < |rows|
      ensures now <= t ==> (Eligible(rows'[i], t) <==> Eligible(rows[i], t))
      ensures t < now ==> (Eligible(rows'[i], t) <==> Eligible(rows[i], t) && !Expired(rows[i], t))
    {
      RowEligibility(rows, now, t, i);
    }
    if t < now && !NoneExpired(rows, t) {
      var i: nat :| i < |rows| && Expired(rows[i], t);
      assert i in EligibleRows(rows, t) && i !in EligibleRows(rows', t);
    }
  }

  /** The order columns decide the selection. */
  lemma {:induction false} SelectionByKeys(rows: Table, rows': Table, ids: set<nat>, limit: nat)
    requires |rows'| == |rows| && InTable(rows, ids) && DistinctEvents(rows) && DistinctEvents(rows')
    requires forall i :: 0 <= i < |rows| ==>
               rows'[i].eventId == rows[i].eventId && rows'[i].createdAt == rows[i].createdAt
    ensures FirstInOrder(rows', ids, limit) == FirstInOrder(rows, ids, limit)
    decreases limit
  {
    if ids != {} && limit > 0 {
      FirstExists(rows, ids);
      FirstExists(rows', ids);
      var i, i' := FirstInOrder(rows, ids, limit)[0], FirstInOrder(rows', ids, limit)[0];
      assert IsFirst(rows, ids, i) && IsFirst(rows', ids, i');
      assert IsFirst(rows, ids, i') by {
        forall j | j in ids && j != i' ensures KeyBefore(rows[i'], rows[j]) {
          assert KeyBefore(rows'[i'], rows'[j]);
        }
      }
      FirstUnique(rows, ids, i, i');
      SelectionByKeys(rows, rows', ids - {i}, limit - 1);
    }
  }

  /** Recover-then-select takes the same rows in the same order as select alone. */
  lemma RecoveryKeepsSelection(rows: Table, now: Instant, t: Instant, limit: nat)
    requires DistinctEvents(rows) && now <= t
    ensures DistinctEvents(Recovered(rows, now))
    ensures SelectEligible(Recovered(rows, now), t, limit) == SelectEligible(rows, t, limit)
  {
    RecoveryKeepsEligible(rows, now, t);
    SelectionByKeys(rows, Recovered(rows, now), EligibleRows(rows, t), limit);
  }

  /** The claimed rows differ in `next_attempt_at` only, and only where a lease had run out. */
  lemma RecoveryKeepsClaims(rows: Table, now: Instant, ids: seq<nat>, tokens: seq<Token>,
                            t: Instant, until: Instant, worker: string, i: nat)
    requires |ids| == |tokens| && now <= t && i < |rows|
    ensures var recovered := Recovered(rows, now);
            var move := BatchMove(rows, ids, tokens, t, until, worker, i);
            && BatchMove(recovered, ids, tokens, t, until, worker, i) == move
            && (move.ClaimMove? ==>
                  ClaimBatch(recovered, ids, tokens, t, until, worker)[i]
                  == ClaimBatch(rows, ids, tokens, t, until, worker)[i].(nextAttemptAt := recovered[i].nextAttemptAt))
            && (!move.ClaimMove? ==>
                  ClaimBatch(recovered, ids, tokens, t, until, worker)[i] == recovered[i])
            && (!Expired(rows[i], now) ==> recovered[i] == rows[i])
  {
    RowEligibility(rows, now, t, i);
    BatchRow(rows, ids, tokens, t, until, worker, i);
    BatchRow(Recovered(rows, now), ids, tokens, t, until, worker, i);
  }
}
