/** Bounded exponential backoff, over every history of one event whose leases never expire. */
module Backoff {
  import opened IsoTime
  import opened OutboxTable
  import opened OutboxSafety

  function Pow2(n: nat): (p: nat)
    ensures p >= 1
  {
    if n == 0 then 1 else 2 * Pow2(n - 1)
  }

  /** `base_backoff_seconds * 2 ** max(attempts - 1, 0)`. */
  function BackoffSeconds(base: nat, attempts: nat): nat
  {
    base * Pow2(if attempts > 0 then attempts - 1 else 0)
  }

  /** What the worker decides on a failed delivery: `updated_at` of a claimed row is the
      `current` of the pass that claimed it. */
  predicate WorkerPolicy(r: Row, m: Move, base: nat, maxAttempts: nat)
  {
    match m
    case FinalMove(MarkRetry(at, _), _, _, _) =>
      r.attempts < maxAttempts && at == r.updatedAt + BackoffSeconds(base, r.attempts) * MICROS_PER_SECOND
    case FinalMove(MarkDead(_), _, _, _) => r.attempts >= maxAttempts
    case _ => true
  }

  /** A lease of the event runs out: the row is reclaimed or recovered while PROCESSING. */
  predicate Expires(r: Row, m: Move)
  {
    m.RecoverMove? || (m.ClaimMove? && r.status == PROCESSING)
  }

  /** Every finalisation in the history is one that the worker's policy decides. */
  predicate FollowsPolicy(r: Row, h: seq<Move>, base: nat, maxAttempts: nat)
    decreases |h|
  {
    |h| == 0 || (WorkerPolicy(r, h[0], base, maxAttempts) && FollowsPolicy(Apply(r, h[0]), h[1..], base, maxAttempts))
  }

  function Expiries(r: Row, h: seq<Move>): nat
    decreases |h|
  {
    if |h| == 0 then 0 else (if Expires(r, h[0]) then 1 else 0) + Expiries(Apply(r, h[0]), h[1..])
  }

  /** A history of the worker's making in which no lease runs out. */
  predicate Orderly(r: Row, h: seq<Move>, base: nat, maxAttempts: nat)
  {
    EnabledAll(r, h) && FollowsPolicy(r, h, base, maxAttempts) && Expiries(r, h) == 0
  }

  function ClaimTimes(h: seq<Move>): seq<Instant>
  {
    if |h| == 0 then []
    else if h[0].ClaimMove? then [h[0].now] + ClaimTimes(h[1..])
    else ClaimTimes(h[1..])
  }

  /** base * (2^n - 1) seconds, in microseconds. */
  function Elapsed(base: nat, n: nat): int
  {
    base * (Pow2(n) - 1) * MICROS_PER_SECOND
  }

  lemma ElapsedStep(base: nat, n: nat)
    requires n >= 1
    ensures Elapsed(base, n) == Elapsed(base, n - 1) + BackoffSeconds(base, n) * MICROS_PER_SECOND
  {
    var p := Pow2(n - 1);
    assert base * (2 * p - 1) == base * (p - 1) + base * p;
  }

  /** The earliest time that the next claim of a row may have, given its first claim. */
  predicate SpacedSince(r: Row, first: int, base: nat)
  {
    match r.status
    case PENDING => false
    case PROCESSING => r.attempts >= 1 && first + Elapsed(base, r.attempts - 1) <= r.updatedAt
    case RETRY => r.attempts >= 1 && r.nextAttemptAt.Some? && first + Elapsed(base, r.attempts) <= r.nextAttemptAt.value
    case _ => true
  }

  lemma MoveKeepsSpacing(r: Row, m: Move, first: int, base: nat, maxAttempts: nat)
    requires Enabled(r, m) && WorkerPolicy(r, m, base, maxAttempts) && !Expires(r, m)
    requires SpacedSince(r, first, base)
    ensures SpacedSince(Apply(r, m), first, base)
    ensures m.ClaimMove? ==> first + Elapsed(base, r.attempts) <= m.now && Apply(r, m).attempts == r.attempts + 1
    ensures !m.ClaimMove? ==> Apply(r, m).attempts == r.attempts
  {
    if r.attempts >= 1 { ElapsedStep(base, r.attempts); }
  }

  lemma {:induction false} LaterClaims(r: Row, h: seq<Move>, first: int, base: nat, maxAttempts: nat, k: nat)
    requires Orderly(r, h, base, maxAttempts) && SpacedSince(r, first, base) && k < |ClaimTimes(h)|
    ensures first + Elapsed(base, r.attempts + k) <= ClaimTimes(h)[k]
    decreases |h|
  {
    MoveKeepsSpacing(r, h[0], first, base, maxAttempts);
    if h[0].ClaimMove? {
      if k > 0 { LaterClaims(Apply(r, h[0]), h[1..], first, base, maxAttempts, k - 1); }
    } else {
      LaterClaims(Apply(r, h[0]), h[1..], first, base, maxAttempts, k);
    }
  }

  /** The k-th claim of a new event (counted from 1) is no earlier than its first claim plus
      base * (2^(k-1) - 1) seconds. */
  lemma {:induction false} ClaimsAreSpaced(r: Row, h: seq<Move>, base: nat, maxAttempts: nat, k: nat)
    requires r.status == PENDING && r.attempts == 0
    requires Orderly(r, h, base, maxAttempts) && 1 <= k <= |ClaimTimes(h)|
    ensures ClaimTimes(h)[0] + base * (Pow2(k - 1) - 1) * MICROS_PER_SECOND <= ClaimTimes(h)[k - 1]
    decreases |h|
  {
    if h[0].ClaimMove? {
      var r' := Apply(r, h[0]);
      assert Elapsed(base, 0) == 0;
      if k > 1 { LaterClaims(r', h[1..], h[0].now, base, maxAttempts, k - 2); }
    } else {
      ClaimsAreSpaced(Apply(r, h[0]), h[1..], base, maxAttempts, k);
    }
  }

  /** Every claim, counted from 0, keeps its distance from the first. */
  predicate ClaimsSpaced(h: seq<Move>, base: nat)
  {
    forall k: nat :: k < |ClaimTimes(h)| ==> ClaimTimes(h)[0] + Elapsed(base, k) <= ClaimTimes(h)[k]
  }

  lemma AllClaimsSpaced(r: Row, h: seq<Move>, base: nat, maxAttempts: nat)
    requires r.status == PENDING && r.attempts == 0 && Orderly(r, h, base, maxAttempts)
    ensures ClaimsSpaced(h, base)
  {
    forall k: nat | k < |ClaimTimes(h)| ensures ClaimTimes(h)[0] + Elapsed(base, k) <= ClaimTimes(h)[k] {
      ClaimsAreSpaced(r, h, base, maxAttempts, k + 1);
    }
  }

  /** The delays that a history schedules, in microseconds. */
  function ScheduledDelay(r: Row, h: seq<Move>): int
    decreases |h|
  {
    if |h| == 0 then 0
    else
      (match h[0]
       case FinalMove(MarkRetry(at, _), _, _, _) => at - r.updatedAt
       case _ => 0) + ScheduledDelay(Apply(r, h[0]), h[1..])
  }

  /** Delay already scheduled when a row is in this state. */
  function DelaySoFar(r: Row, base: nat): int
  {
    match r.status
    case PENDING => 0
    case RETRY => Elapsed(base, r.attempts)
    case _ => Elapsed(base, if r.attempts >= 1 then r.attempts - 1 else 0)
  }

  predicate WithinLimit(r: Row, maxAttempts: nat)
  {
    match r.status
    case PENDING => r.attempts == 0
    case RETRY => 1 <= r.attempts < maxAttempts
    case DEAD_LETTER => r.attempts == maxAttempts
    case _ => 1 <= r.attempts <= maxAttempts
  }

  lemma {:induction false} DelayAccumulates(r: Row, h: seq<Move>, base: nat, maxAttempts: nat)
    requires Orderly(r, h, base, maxAttempts) && WithinLimit(r, maxAttempts) && maxAttempts >= 1
    ensures var r' := ApplyAll(r, h);
            WithinLimit(r', maxAttempts) && DelaySoFar(r', base) == DelaySoFar(r, base) + ScheduledDelay(r, h)
    decreases |h|
  {
    if |h| > 0 {
      if r.attempts >= 1 { ElapsedStep(base, r.attempts); }
      assert Elapsed(base, 0) == 0;
      DelayAccumulates(Apply(r, h[0]), h[1..], base, maxAttempts);
    }
  }

  /** A new event is never claimed more than `maxAttempts` times, and one that ends in
      DEAD_LETTER was claimed exactly that often, after delays of exactly
      base * (2^(maxAttempts-1) - 1) seconds in all. */
  lemma DeadLetterAfterExactDelay(r: Row, h: seq<Move>, base: nat, maxAttempts: nat)
    requires r.status == PENDING && r.attempts == 0 && maxAttempts >= 1
    requires Orderly(r, h, base, maxAttempts)
    ensures var r' := ApplyAll(r, h);
            && r'.attempts <= maxAttempts
            && (r'.status == DEAD_LETTER ==>
                  r'.attempts == maxAttempts
                  && ScheduledDelay(r, h) == base * (Pow2(maxAttempts - 1) - 1) * MICROS_PER_SECOND)
  {
    DelayAccumulates(r, h, base, maxAttempts);
  }

  // ---------------------------------------------------------------- expired leases

  /** A lease taken at attempt number `maxAttempts` or later runs out, and the row is claimed
      again. */
  predicate ReclaimedAtLimit(r: Row, h: seq<Move>, maxAttempts: nat)
    decreases |h|
  {
    |h| > 0 && (
      (Expires(r, h[0]) && r.attempts >= maxAttempts && (h[0].ClaimMove? || Claims(h[1..]) > 0))
      || ReclaimedAtLimit(Apply(r, h[0]), h[1..], maxAttempts))
  }

  lemma {:induction false} ReclaimedIsClaimed(r: Row, h: seq<Move>, maxAttempts: nat)
    requires ReclaimedAtLimit(r, h, maxAttempts)
    ensures Claims(h) > 0
    decreases |h|
  {
    if ReclaimedAtLimit(Apply(r, h[0]), h[1..], maxAttempts) {
      ReclaimedIsClaimed(Apply(r, h[0]), h[1..], maxAttempts);
    }
  }

  /** The states in which a row can be claimed only below the limit, unless a lease runs out. */
  predicate BelowLimit(r: Row, maxAttempts: nat)
  {
    && r.attempts <= maxAttempts
    && (r.status == PENDING || r.status == RETRY ==> r.attempts < maxAttempts)
  }

  lemma {:induction false} OverLimitStep(r: Row, h: seq<Move>, base: nat, maxAttempts: nat)
    requires EnabledAll(r, h) && FollowsPolicy(r, h, base, maxAttempts) && BelowLimit(r, maxAttempts)
    ensures ApplyAll(r, h).attempts > maxAttempts <==> ReclaimedAtLimit(r, h, maxAttempts)
    decreases |h|
  {
    if |h| > 0 {
      var r' := Apply(r, h[0]);
      HistoryKeeps(r', h[1..]);
      if BelowLimit(r', maxAttempts) {
        OverLimitStep(r', h[1..], base, maxAttempts);
      } else if ReclaimedAtLimit(r', h[1..], maxAttempts) {
        ReclaimedIsClaimed(r', h[1..], maxAttempts);
      }
    }
  }

  /** The claims of a new event pass the limit exactly when a lease taken at the limit or later
      runs out and the row is claimed again; every expired lease allows one claim more. */
  lemma AttemptsOverLimit(r: Row, h: seq<Move>, base: nat, maxAttempts: nat)
    requires r.status == PENDING && r.attempts == 0 && maxAttempts >= 1
    requires EnabledAll(r, h) && FollowsPolicy(r, h, base, maxAttempts)
    ensures ApplyAll(r, h).attempts > maxAttempts <==> ReclaimedAtLimit(r, h, maxAttempts)
    ensures ApplyAll(r, h).attempts <= maxAttempts + Expiries(r, h)
  {
    OverLimitStep(r, h, base, maxAttempts);
    AttemptsBounded(r, h, base, maxAttempts, 0);
  }

  /** Claims so far, against the limit and `expired` leases that ran out; a row that waits has
      one claim in hand. */
  predicate AttemptsWithin(r: Row, maxAttempts: nat, expired: nat)
  {
    r.attempts + (if r.status == PENDING || r.status == RETRY then 1 else 0) <= maxAttempts + expired
  }

  lemma {:induction false} AttemptsBounded(r: Row, h: seq<Move>, base: nat, maxAttempts: nat, expired: nat)
    requires EnabledAll(r, h) && FollowsPolicy(r, h, base, maxAttempts) && AttemptsWithin(r, maxAttempts, expired)
    ensures ApplyAll(r, h).attempts <= maxAttempts + expired + Expiries(r, h)
    decreases |h|
  {
    if |h| > 0 {
      AttemptsBounded(Apply(r, h[0]), h[1..], base, maxAttempts, expired + if Expires(r, h[0]) then 1 else 0);
    }
  }
}
