/** The `outbox` table: its rows, and each SQL statement of the adapter as a function on
    the table. Rows are only ever appended, so the row with rowid n sits at index n - 1. */
module OutboxTable {
  import opened Wrappers
  import opened Text
  import opened IsoTime
  import opened Domain

  datatype Status = PENDING | PROCESSING | RETRY | SENT | DEAD_LETTER

  /** A lease token: `uuid4` values are modelled as numbers that are never drawn twice. */
  type Token = nat

  datatype Row = Row(eventId: string, key: string, payload: Json, status: Status, attempts: nat,
                     nextAttemptAt: Option<Instant>, lockedUntil: Option<Instant>,
                     lastError: Option<string>, sentAt: Option<Instant>,
                     createdAt: Instant, updatedAt: Instant,
                     owner: Option<string>, token: Option<Token>)

  type Table = seq<Row>

  /** The row that INSERT creates from the column defaults. */
  function NewRow(eventId: string, key: string, payload: Json, now: Instant): Row
  {
    Row(eventId, key, payload, PENDING, 0, None, None, None, None, now, now, None, None)
  }

  predicate Terminal(r: Row)
  {
    r.status == SENT || r.status == DEAD_LETTER
  }

  // ---------------------------------------------------------------- row moves

  /** The WHERE clause of the claim: its SELECT and its guarded UPDATE share it. */
  predicate Eligible(r: Row, now: Instant)
  {
    || r.status == PENDING
    || (r.status == RETRY && (r.nextAttemptAt.None? || r.nextAttemptAt.value <= now))
    || (r.status == PROCESSING && r.lockedUntil.Some? && r.lockedUntil.value <= now)
  }

  predicate Expired(r: Row, now: Instant)
  {
    r.status == PROCESSING && r.lockedUntil.Some? && r.lockedUntil.value <= now
  }

  /** The ownership part of every finaliser's WHERE clause. */
  predicate HoldsLease(r: Row, owner: string, token: Token, clock: Instant)
  {
    && r.status == PROCESSING && r.owner == Some(owner) && r.token == Some(token)
    && r.lockedUntil.Some? && clock < r.lockedUntil.value
  }

  datatype Finaliser =
    | MarkSent(sentAt: Instant)
    | MarkRetry(nextAttemptAt: Instant, error: string)
    | MarkDead(error: string)

  /** What one statement does to one row. */
  datatype Move =
    | Stay
    | ClaimMove(now: Instant, until: Instant, worker: string, lease: Token)
    | FinalMove(finaliser: Finaliser, worker: string, lease: Token, clock: Instant)
    | RecoverMove(now: Instant)

  predicate Enabled(r: Row, m: Move)
  {
    match m
    case Stay => true
    case ClaimMove(now, until, worker, _) => Eligible(r, now) && now < until && !Blank(worker)
    case FinalMove(f, worker, lease, clock) =>
      HoldsLease(r, worker, lease, clock) && (f.MarkSent? || !Blank(f.error))
    case RecoverMove(now) => Expired(r, now)
  }

  function Apply(r: Row, m: Move): Row
  {
    match m
    case Stay => r
    case ClaimMove(now, until, worker, lease) =>
      r.(status := PROCESSING, attempts := r.attempts + 1, lockedUntil := Some(until), updatedAt := now,
         lastError := None, owner := Some(worker), token := Some(lease))
    case FinalMove(MarkSent(at), _, _, clock) =>
      r.(status := SENT, sentAt := Some(at), lockedUntil := None, nextAttemptAt := None, lastError := None,
         updatedAt := clock, owner := None, token := None)
    case FinalMove(MarkRetry(at, error), _, _, clock) =>
      r.(status := RETRY, nextAttemptAt := Some(at), lockedUntil := None, lastError := Some(error),
         updatedAt := clock, owner := None, token := None)
    case FinalMove(MarkDead(error), _, _, clock) =>
      r.(status := DEAD_LETTER, lockedUntil := None, lastError := Some(error),
         updatedAt := clock, owner := None, token := None)
    case RecoverMove(now) =>
      r.(status := RETRY, lockedUntil := None, owner := None, token := None, nextAttemptAt := Some(now),
         lastError := if r.lastError.None? then Some("lease expired") else r.lastError, updatedAt := now)
  }

  // ---------------------------------------------------------------- SELECT of the claim

  /** ORDER BY created_at, event_id. */
  predicate KeyBefore(a: Row, b: Row)
  {
    a.createdAt < b.createdAt || (a.createdAt == b.createdAt && Less(a.eventId, b.eventId))
  }

  predicate DistinctEvents(rows: Table)
  {
    forall i, j :: 0 <= i < j < |rows| ==> rows[i].eventId != rows[j].eventId
  }

  function EligibleRows(rows: Table, now: Instant): set<nat>
  {
    set i: nat | i < |rows| && Eligible(rows[i], now)
  }

  predicate InTable(rows: Table, ids: set<nat>)
  {
    forall i :: i in ids ==> i < |rows|
  }

  predicate IsFirst(rows: Table, ids: set<nat>, i: nat)
    requires InTable(rows, ids)
  {
    i in ids && forall j :: j in ids && j != i ==> KeyBefore(rows[i], rows[j])
  }

  lemma {:induction false} FirstExists(rows: Table, ids: set<nat>)
    requires InTable(rows, ids) && DistinctEvents(rows) && ids != {}
    ensures exists i :: IsFirst(rows, ids, i)
    decreases |ids|
  {
    var a :| a in ids;
    if ids == {a} {
      assert IsFirst(rows, ids, a);
    } else {
      var rest := ids - {a};
      assert rest != {};
      FirstExists(rows, rest);
      var m: nat :| IsFirst(rows, rest, m);
      LessTrichotomy(rows[a].eventId, rows[m].eventId);
      if KeyBefore(rows[m], rows[a]) {
        assert IsFirst(rows, ids, m);
      } else {
        forall j | j in ids && j != a ensures KeyBefore(rows[a], rows[j]) {
          if j != m {
            KeyBeforeTransitive(rows[a], rows[m], rows[j]);
          }
        }
        assert IsFirst(rows, ids, a);
      }
    }
  }

  lemma KeyBeforeTransitive(a: Row, b: Row, c: Row)
    requires KeyBefore(a, b) && KeyBefore(b, c)
    ensures KeyBefore(a, c)
  {
    if a.createdAt == b.createdAt == c.createdAt {
      LessTransitive(a.eventId, b.eventId, c.eventId);
    }
  }

  lemma FirstUnique(rows: Table, ids: set<nat>, i: nat, j: nat)
    requires InTable(rows, ids) && IsFirst(rows, ids, i) && IsFirst(rows, ids, j)
    ensures i == j
  {
    if i != j {
      LessTrichotomy(rows[i].eventId, rows[j].eventId);
    }
  }

  /** The first `limit` of `ids` in ORDER BY order. */
  function FirstInOrder(rows: Table, ids: set<nat>, limit: nat): (r: seq<nat>)
    requires InTable(rows, ids) && DistinctEvents(rows)
    ensures |r| <= limit && forall k :: 0 <= k < |r| ==> r[k] in ids
    decreases limit
  {
    if ids == {} || limit == 0 then []
    else
      FirstExists(rows, ids);
      assert forall i, j :: IsFirst(rows, ids, i) && IsFirst(rows, ids, j) ==> i == j by {
        forall i, j | IsFirst(rows, ids, i) && IsFirst(rows, ids, j) ensures i == j {
          FirstUnique(rows, ids, i, j);
        }
      }
      var i :| i in ids && IsFirst(rows, ids, i);
      [i] + FirstInOrder(rows, ids - {i}, limit - 1)
  }

  /** SELECT rowid ... WHERE eligible ORDER BY created_at, event_id LIMIT ?. */
  function SelectEligible(rows: Table, now: Instant, limit: nat): seq<nat>
    requires DistinctEvents(rows)
  {
    FirstInOrder(rows, EligibleRows(rows, now), limit)
  }

  /** What a SELECT with ORDER BY and LIMIT promises: as many rows of `ids` as the limit
      allows, ascending, each before every row left out. */
  ghost predicate IsSelection(rows: Table, ids: set<nat>, limit: nat, r: seq<nat>)
    requires InTable(rows, ids)
  {
    && |r| == (if |ids| < limit then |ids| else limit)
    && (forall k :: 0 <= k < |r| ==> r[k] in ids)
    && (forall k, l :: 0 <= k < l < |r| ==> KeyBefore(rows[r[k]], rows[r[l]]))
    && (forall j :: j in ids && j !in r ==> AllBefore(rows, r, j))
  }

  predicate AllBefore(rows: Table, r: seq<nat>, j: nat)
  {
    forall k :: 0 <= k < |r| ==> j < |rows| && r[k] < |rows| && KeyBefore(rows[r[k]], rows[j])
  }

  lemma SelectionStep(rows: Table, ids: set<nat>, limit: nat, i: nat, rest: seq<nat>)
    requires InTable(rows, ids) && limit > 0 && IsFirst(rows, ids, i)
    requires IsSelection(rows, ids - {i}, limit - 1, rest)
    ensures IsSelection(rows, ids, limit, [i] + rest)
  {
    assert |ids - {i}| == |ids| - 1;
    var r := [i] + rest;
    forall j | j in ids && j !in r ensures AllBefore(rows, r, j) {
      assert r[0] == i && forall k :: 0 <= k < |rest| ==> r[k + 1] == rest[k];
      assert AllBefore(rows, rest, j);
    }
  }

  lemma {:induction false} FirstInOrderMeaning(rows: Table, ids: set<nat>, limit: nat)
    requires InTable(rows, ids) && DistinctEvents(rows)
    ensures IsSelection(rows, ids, limit, FirstInOrder(rows, ids, limit))
    decreases limit
  {
    if ids != {} && limit > 0 {
      FirstExists(rows, ids);
      var i := FirstInOrder(rows, ids, limit)[0];
      FirstInOrderMeaning(rows, ids - {i}, limit - 1);
      SelectionStep(rows, ids, limit, i, FirstInOrder(rows, ids - {i}, limit - 1));
    }
  }

  /** The selected ids are distinct. */
  lemma SelectionDistinct(rows: Table, ids: set<nat>, limit: nat, r: seq<nat>)
    requires InTable(rows, ids) && IsSelection(rows, ids, limit, r)
    ensures DistinctIds(r)
  {
    forall k, l | 0 <= k < l < |r| ensures r[k] != r[l] {
      LessTrichotomy(rows[r[k]].eventId, rows[r[k]].eventId);
    }
  }

  // ---------------------------------------------------------------- UPDATE statements

  /** The move of the guarded UPDATE of the claim on one row. */
  function ClaimOf(r: Row, now: Instant, until: Instant, worker: string, lease: Token): Move
  {
    if Eligible(r, now) && now < until && !Blank(worker) then ClaimMove(now, until, worker, lease) else Stay
  }

  /** One guarded UPDATE per selected row, each with its own token. */
  function ClaimBatch(rows: Table, ids: seq<nat>, tokens: seq<Token>, now: Instant, until: Instant, worker: string)
    : (r: Table)
    requires |ids| == |tokens|
    ensures |r| == |rows|
    decreases |ids|
  {
    if |ids| == 0 then rows
    else
      var last := |ids| - 1;
      var before := ClaimBatch(rows, ids[..last], tokens[..last], now, until, worker);
      var i := ids[last];
      if i < |rows| then before[i := Apply(before[i], ClaimOf(before[i], now, until, worker, tokens[last]))]
      else before
  }

  /** A record returned by the claim: `internal_id` and the row as it was read back. */
  datatype Item = Item(internalId: nat, row: Row)

  function ClaimItems(rows: Table, ids: seq<nat>, tokens: seq<Token>, now: Instant, until: Instant, worker: string)
    : seq<Item>
    requires |ids| == |tokens|
    decreases |ids|
  {
    if |ids| == 0 then []
    else
      var last := |ids| - 1;
      var before := ClaimBatch(rows, ids[..last], tokens[..last], now, until, worker);
      var items := ClaimItems(rows, ids[..last], tokens[..last], now, until, worker);
      var i := ids[last];
      if i < |rows| && ClaimOf(before[i], now, until, worker, tokens[last]).ClaimMove?
      then items + [Item(i + 1, Apply(before[i], ClaimOf(before[i], now, until, worker, tokens[last])))]
      else items
  }

  datatype Target = ByEvent(eventId: string) | ByRowid(internalId: nat)

  predicate Addresses(target: Target, i: nat, r: Row)
  {
    match target
    case ByEvent(e) => r.eventId == e
    case ByRowid(n) => n == i + 1
  }

  /** Rows matched by a finaliser's WHERE clause; `rowcount` is the size of this set. */
  function Matched(rows: Table, target: Target, worker: string, lease: Token, clock: Instant): set<nat>
  {
    set i: nat | i < |rows| && Addresses(target, i, rows[i]) && HoldsLease(rows[i], worker, lease, clock)
  }

  /** The argument checks that raise ValueError before any statement runs. */
  predicate FinaliserArgs(target: Target, f: Finaliser, worker: string)
  {
    && !Blank(worker)
    && (f.MarkSent? || !Blank(f.error))
    && (target.ByEvent? ==> !Blank(target.eventId))
    && (target.ByRowid? ==> target.internalId > 0)
  }

  predicate FinaliserSucceeds(rows: Table, target: Target, f: Finaliser, worker: string, lease: Token, clock: Instant)
  {
    FinaliserArgs(target, f, worker) && |Matched(rows, target, worker, lease, clock)| == 1
  }

  /** A finaliser's transaction: rolled back, with a ValueError, unless `rowcount` is 1. */
  function Finalised(rows: Table, target: Target, f: Finaliser, worker: string, lease: Token,
                     clock: Instant): (r: Table)
    ensures |r| == |rows|
  {
    if FinaliserSucceeds(rows, target, f, worker, lease, clock) then
      seq(|rows|, i requires 0 <= i < |rows| =>
        if i in Matched(rows, target, worker, lease, clock)
        then Apply(rows[i], FinalMove(f, worker, lease, clock)) else rows[i])
    else rows
  }

  /** `recover_expired_processing`. */
  function Recovered(rows: Table, now: Instant): (r: Table)
    ensures |r| == |rows|
  {
    seq(|rows|, i requires 0 <= i < |rows| =>
      if Expired(rows[i], now) then Apply(rows[i], RecoverMove(now)) else rows[i])
  }

  // ---------------------------------------------------------------- effect on one row

  function FirstIndex(ids: seq<nat>, i: nat): (k: nat)
    requires i in ids
    ensures k < |ids| && ids[k] == i && forall j :: 0 <= j < k ==> ids[j] != i
  {
    if ids[0] == i then 0 else FirstIndex(ids[1..], i) + 1
  }

  /** What a batch of guarded UPDATEs does to row `i`: its first occurrence claims it, and
      the lease just granted makes every later occurrence miss. */
  function BatchMove(rows: Table, ids: seq<nat>, tokens: seq<Token>, now: Instant, until: Instant, worker: string,
                     i: nat): Move
    requires |ids| == |tokens| && i < |rows|
  {
    if i in ids then ClaimOf(rows[i], now, until, worker, tokens[FirstIndex(ids, i)]) else Stay
  }

  lemma {:induction false} BatchRow(rows: Table, ids: seq<nat>, tokens: seq<Token>, now: Instant, until: Instant,
                          worker: string, i: nat)
    requires |ids| == |tokens| && i < |rows|
    ensures ClaimBatch(rows, ids, tokens, now, until, worker)[i]
            == Apply(rows[i], BatchMove(rows, ids, tokens, now, until, worker, i))
    decreases |ids|
  {
    if |ids| > 0 {
      var last := |ids| - 1;
      BatchRow(rows, ids[..last], tokens[..last], now, until, worker, i);
      assert ids == ids[..last] + [ids[last]];
      if i in ids[..last] {
        FirstIndexPrefix(ids, last, i);
      } else if ids[last] == i {
        assert FirstIndex(ids, i) == last;
      }
    }
  }

  lemma FirstIndexPrefix(ids: seq<nat>, n: nat, i: nat)
    requires n <= |ids| && i in ids[..n]
    ensures i in ids && FirstIndex(ids, i) == FirstIndex(ids[..n], i)
  {
    var k, l := FirstIndex(ids, i), FirstIndex(ids[..n], i);
    assert ids[l] == ids[..n][l] == i;
    assert forall j :: 0 <= j < n ==> ids[..n][j] == ids[j];
  }

  predicate DistinctIds(ids: seq<nat>)
  {
    forall k, l :: 0 <= k < l < |ids| ==> ids[k] != ids[l]
  }

  /** A returned record is its claimed row: the row the whole batch leaves behind. */
  ghost predicate IsClaimItem(item: Item, rows: Table, ids: seq<nat>, tokens: seq<Token>, now: Instant,
                          until: Instant, worker: string)
    requires |ids| == |tokens|
  {
    && 1 <= item.internalId <= |rows|
    && (item.internalId - 1) in ids
    && BatchMove(rows, ids, tokens, now, until, worker, item.internalId - 1).ClaimMove?
    && item.row == Apply(rows[item.internalId - 1],
         BatchMove(rows, ids, tokens, now, until, worker, item.internalId - 1))
  }

  predicate DistinctItems(items: seq<Item>)
  {
    forall k, l :: 0 <= k < l < |items| ==> items[k].internalId != items[l].internalId
  }

  lemma ClaimItemExtends(item: Item, rows: Table, ids: seq<nat>, tokens: seq<Token>, now: Instant, until: Instant,
                         worker: string)
    requires |ids| == |tokens| && |ids| > 0
    requires IsClaimItem(item, rows, ids[..|ids| - 1], tokens[..|ids| - 1], now, until, worker)
    ensures IsClaimItem(item, rows, ids, tokens, now, until, worker)
  {
    FirstIndexPrefix(ids, |ids| - 1, item.internalId - 1);
  }

  /** Every record a batch returns is a row it claimed. */
  lemma {:induction false} ItemIsClaim(item: Item, rows: Table, ids: seq<nat>, tokens: seq<Token>, now: Instant,
                          until: Instant, worker: string)
    requires |ids| == |tokens| && DistinctIds(ids)
    requires item in ClaimItems(rows, ids, tokens, now, until, worker)
    ensures IsClaimItem(item, rows, ids, tokens, now, until, worker)
    decreases |ids|
  {
    var last := |ids| - 1;
    var before := ids[..last];
    if item in ClaimItems(rows, before, tokens[..last], now, until, worker) {
      ItemIsClaim(item, rows, before, tokens[..last], now, until, worker);
      ClaimItemExtends(item, rows, ids, tokens, now, until, worker);
    } else {
      var i := ids[last];
      assert i !in before;
      BatchRow(rows, before, tokens[..last], now, until, worker, i);
      assert FirstIndex(ids, i) == last;
    }
  }

  /** No row is returned twice. */
  lemma {:induction false} ItemsAreDistinct(rows: Table, ids: seq<nat>, tokens: seq<Token>, now: Instant,
                          until: Instant, worker: string)
    requires |ids| == |tokens| && DistinctIds(ids)
    ensures DistinctItems(ClaimItems(rows, ids, tokens, now, until, worker))
    ensures |ClaimItems(rows, ids, tokens, now, until, worker)| <= |ids|
    ensures forall item :: item in ClaimItems(rows, ids, tokens, now, until, worker)
              ==> item.internalId >= 1 && (item.internalId - 1) in ids
    decreases |ids|
  {
    if |ids| > 0 {
      var last := |ids| - 1;
      ItemsAreDistinct(rows, ids[..last], tokens[..last], now, until, worker);
      assert ids[last] !in ids[..last];
    }
  }

  /** Every row a batch claims is returned. */
  lemma {:induction false} ClaimsAreItems(rows: Table, ids: seq<nat>, tokens: seq<Token>, now: Instant,
                          until: Instant, worker: string, i: nat)
    requires |ids| == |tokens| && DistinctIds(ids) && i < |rows|
    requires BatchMove(rows, ids, tokens, now, until, worker, i).ClaimMove?
    ensures exists item :: item in ClaimItems(rows, ids, tokens, now, until, worker) && item.internalId == i + 1
    decreases |ids|
  {
    var last := |ids| - 1;
    var before := ids[..last];
    if ids[last] == i {
      assert i !in before;
      BatchRow(rows, before, tokens[..last], now, until, worker, i);
      assert FirstIndex(ids, i) == last;
      var items := ClaimItems(rows, ids, tokens, now, until, worker);
      assert items[|items| - 1].internalId == i + 1;
    } else {
      assert ids == before + [ids[last]];
      FirstIndexPrefix(ids, last, i);
      ClaimsAreItems(rows, before, tokens[..last], now, until, worker, i);
    }
  }

  /** With unique event ids a finaliser matches at most one row. */
  lemma MatchedUnique(rows: Table, target: Target, worker: string, lease: Token, clock: Instant, i: nat)
    requires DistinctEvents(rows) && i in Matched(rows, target, worker, lease, clock)
    ensures Matched(rows, target, worker, lease, clock) == {i}
  {
    forall j | j in Matched(rows, target, worker, lease, clock) ensures j == i {
      assert rows[j].eventId == rows[i].eventId || (target.ByRowid? && j + 1 == target.internalId == i + 1);
    }
  }
}
