/** The SQL guards as they run: on TEXT columns. They decide exactly as the guards on
    instants that the other modules use. */
module TextGuards {
  import opened Wrappers
  import opened Text
  import opened IsoTime
  import opened OutboxTable

  function Column(t: Option<Instant>): Option<string>
  {
    match t case None => None case Some(v) => Some(IsoText(v))
  }

  predicate SqlEligible(status: Status, nextAttemptAt: Option<string>, lockedUntil: Option<string>, now: string)
  {
    || status == PENDING
    || (status == RETRY && (nextAttemptAt.None? || TextAtMost(nextAttemptAt.value, now)))
    || (status == PROCESSING && lockedUntil.Some? && TextAtMost(lockedUntil.value, now))
  }

  predicate SqlExpired(status: Status, lockedUntil: Option<string>, now: string)
  {
    status == PROCESSING && lockedUntil.Some? && TextAtMost(lockedUntil.value, now)
  }

  predicate SqlHoldsLease(r: Row, lockedUntil: Option<string>, worker: string, token: Token, checkedAt: string)
  {
    && r.status == PROCESSING && r.owner == Some(worker) && r.token == Some(token)
    && lockedUntil.Some? && Less(checkedAt, lockedUntil.value)
  }

  predicate SqlBefore(createdA: string, eventA: string, createdB: string, eventB: string)
  {
    Less(createdA, createdB) || (createdA == createdB && Less(eventA, eventB))
  }

  lemma ColumnOrder(t: Option<Instant>, now: Instant)
    requires t.Some?
    ensures TextAtMost(Column(t).value, IsoText(now)) <==> t.value <= now
    ensures Less(IsoText(now), Column(t).value) <==> now < t.value
  {
    IsoTextOrder(t.value, now);
    IsoTextOrder(now, t.value);
  }

  /** The claim guard, the expiry guard and the lease guard on text. */
  lemma GuardsOnText(r: Row, now: Instant, worker: string, token: Token)
    ensures SqlEligible(r.status, Column(r.nextAttemptAt), Column(r.lockedUntil), IsoText(now)) <==> Eligible(r, now)
    ensures SqlExpired(r.status, Column(r.lockedUntil), IsoText(now)) <==> Expired(r, now)
    ensures SqlHoldsLease(r, Column(r.lockedUntil), worker, token, IsoText(now)) <==> HoldsLease(r, worker, token, now)
  {
    if r.nextAttemptAt.Some? { ColumnOrder(r.nextAttemptAt, now); }
    if r.lockedUntil.Some? { ColumnOrder(r.lockedUntil, now); }
  }

  /** ORDER BY created_at, event_id on text. */
  lemma OrderOnText(a: Row, b: Row)
    ensures SqlBefore(IsoText(a.createdAt), a.eventId, IsoText(b.createdAt), b.eventId) <==> KeyBefore(a, b)
  {
    IsoTextOrder(a.createdAt, b.createdAt);
  }
}
