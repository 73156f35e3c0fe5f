/** The whole protocol as a state machine: any number of `persist` calls caught between
    their phases, workers claiming with stale selections, finalisers and recoveries, in
    any order. */
module OutboxSystem {
  import opened Wrappers
  import opened Text
  import opened IsoTime
  import opened Domain
  import opened OutboxTable
  import opened Decisions

  /** Where one `persist` call is: before its preflight read; before its insert transaction,
      when that found nothing; before its re-read after an IntegrityError; between the reads of
      an existing decision, each a statement of its own; or finished. */
  datatype Phase = Starting | Missed | Refused | PayloadEqual | StatusEqual | Finished(outcome: Outcome)

  datatype Call = Call(request: Request, phase: Phase)

  /** A finished call, in the order in which calls finish. */
  datatype Entry = Entry(id: nat, request: Request, outcome: Outcome)

  datatype System = System(db: Db, used: set<Token>, calls: map<nat, Call>, log: seq<Entry>)

  const INITIAL: System := System(Db(map[], []), {}, map[], [])

  /** One atomic step. A claim's selection is whatever an earlier SELECT returned: every
      list of ids is allowed, since the guarded UPDATE checks each row again. */
  datatype Event =
    | Begin(id: nat, request: Request)
    | ReadFirst(id: nat)
    | TryInsert(id: nat, at: Instant)
    | ReadAgain(id: nat)
    | ReadStatus(id: nat)
    | ReadOutbox(id: nat)
    | Claim(ids: seq<nat>, tokens: seq<Token>, now: Instant, leaseSeconds: nat, worker: string)
    | Finalise(target: Target, finaliser: Finaliser, worker: string, lease: Token, clock: Instant)
    | Recover(now: Instant)

  predicate InPhase(s: System, id: nat, phase: Phase)
  {
    id in s.calls && s.calls[id].phase == phase
  }

  predicate FreshTokens(s: System, tokens: seq<Token>)
  {
    && (forall k :: 0 <= k < |tokens| ==> tokens[k] !in s.used)
    && (forall k, l :: 0 <= k < l < |tokens| ==> tokens[k] != tokens[l])
  }

  predicate Allowed(s: System, e: Event)
  {
    match e
    case Begin(id, r) => id !in s.calls && ValidRequest(r)
    case ReadFirst(id) => InPhase(s, id, Starting)
    case TryInsert(id, _) => InPhase(s, id, Missed)
    case ReadAgain(id) => InPhase(s, id, Refused)
    case ReadStatus(id) => InPhase(s, id, PayloadEqual)
    case ReadOutbox(id) => InPhase(s, id, StatusEqual)
    case Claim(ids, tokens, _, leaseSeconds, worker) =>
      |ids| == |tokens| && FreshTokens(s, tokens) && leaseSeconds > 0 && !Blank(worker)
    case Finalise(target, f, worker, _, _) => FinaliserArgs(target, f, worker)
    case Recover(_) => true
  }

  function Advance(s: System, id: nat, phase: Phase): System
    requires id in s.calls
  {
    s.(calls := s.calls[id := s.calls[id].(phase := phase)])
  }

  function Finish(s: System, id: nat, o: Outcome): System
    requires id in s.calls
  {
    Advance(s, id, Finished(o)).(log := s.log + [Entry(id, s.calls[id].request, o)])
  }

  function Step(s: System, e: Event): System
    requires Allowed(s, e)
  {
    match e
    case Begin(id, r) => s.(calls := s.calls[id := Call(r, Starting)])
    case ReadFirst(id) =>
      var r := s.calls[id].request;
      if r.key !in s.db.decisions then Advance(s, id, Missed)
      else if !SamePayload(s.db, r) then Finish(s, id, KeyReused)
      else Advance(s, id, PayloadEqual)
    case TryInsert(id, at) =>
      if InsertRefused(s.db, s.calls[id].request) then Advance(s, id, Refused)
      else Finish(s, id, New).(db := Inserted(s.db, s.calls[id].request, at))
    case ReadAgain(id) =>
      var r := s.calls[id].request;
      if r.key !in s.db.decisions then Finish(s, id, IntegrityFailure)
      else if !SamePayload(s.db, r) then Finish(s, id, KeyReused)
      else if !SameStatus(s.db, r) then Finish(s, id, DecisionInconsistent)
      else Advance(s, id, StatusEqual)
    case ReadStatus(id) =>
      var r := s.calls[id].request;
      if r.key !in s.db.decisions || !SameStatus(s.db, r) then Finish(s, id, DecisionInconsistent)
      else Advance(s, id, StatusEqual)
    case ReadOutbox(id) => Finish(s, id, OutboxAnswer(s.db, s.calls[id].request))
    case Claim(ids, tokens, now, leaseSeconds, worker) =>
      (match PlusSeconds(now, leaseSeconds)
       case None => s
       case Some(until) =>
         s.(db := s.db.(outbox := ClaimBatch(s.db.outbox, ids, tokens, now, until, worker)),
            used := s.used + set k | 0 <= k < |tokens| :: tokens[k]))
    case Finalise(target, f, worker, lease, clock) =>
      s.(db := s.db.(outbox := Finalised(s.db.outbox, target, f, worker, lease, clock)))
    case Recover(now) =>
      s.(db := s.db.(outbox := Recovered(s.db.outbox, now)))
  }

  // ---------------------------------------------------------------- one row in one step

  /** What a step does to the row at index `i`. */
  function MoveOf(s: System, e: Event, i: nat): Move
    requires Allowed(s, e) && i < |s.db.outbox|
  {
    match e
    case Claim(ids, tokens, now, leaseSeconds, worker) =>
      (match PlusSeconds(now, leaseSeconds)
       case None => Stay
       case Some(until) => BatchMove(s.db.outbox, ids, tokens, now, until, worker, i))
    case Finalise(target, f, worker, lease, clock) =>
      if FinaliserSucceeds(s.db.outbox, target, f, worker, lease, clock)
         && i in Matched(s.db.outbox, target, worker, lease, clock)
      then FinalMove(f, worker, lease, clock) else Stay
    case Recover(now) => if Expired(s.db.outbox[i], now) then RecoverMove(now) else Stay
    case _ => Stay
  }

  /** Every step moves every existing row by exactly `MoveOf`, and that move is enabled. */
  lemma StepMovesRow(s: System, e: Event, i: nat)
    requires Allowed(s, e) && i < |s.db.outbox|
    ensures |s.db.outbox| <= |Step(s, e).db.outbox|
    ensures Enabled(s.db.outbox[i], MoveOf(s, e, i))
    ensures Step(s, e).db.outbox[i] == Apply(s.db.outbox[i], MoveOf(s, e, i))
  {
    match e
    case Claim(ids, tokens, now, leaseSeconds, worker) =>
      var until := PlusSeconds(now, leaseSeconds);
      if until.Some? { BatchRow(s.db.outbox, ids, tokens, now, until.value, worker, i); }
    case _ =>
  }

  /** Only an accepted insert appends a row. */
  lemma StepAppends(s: System, e: Event)
    requires Allowed(s, e)
    ensures |Step(s, e).db.outbox| > |s.db.outbox| ==>
              && e.TryInsert?
              && |Step(s, e).db.outbox| == |s.db.outbox| + 1
              && (var r := s.calls[e.id].request;
                  Step(s, e).db.outbox[|s.db.outbox|] == NewRow(EventIdOf(r), r.key, Encode(r), e.at))
  {
  }

  // ---------------------------------------------------------------- reopen check

  /** `_validate_schema_state` on one outbox row. Statuses, integer counts, JSON objects and
      canonical timestamps hold by the types of the columns. */
  predicate RowReopens(r: Row)
  {
    && !SqlBlank(r.eventId) && !SqlBlank(r.key)
    && (r.status == SENT <==> r.sentAt.Some?)
    && (r.status == DEAD_LETTER ==> r.lastError.Some? && !SqlBlank(r.lastError.value))
    && (r.status == PROCESSING ==> r.owner.Some? && r.token.Some? && r.lockedUntil.Some?)
    && (r.status != PROCESSING ==> r.owner.None? && r.token.None? && r.lockedUntil.None?)
    && r.payload.JObject?
  }

  /** `_validate_schema_state`: row checks, the link to decisions, and the unique columns. */
  ghost predicate Reopens(db: Db)
  {
    && (forall i :: 0 <= i < |db.outbox| ==> RowReopens(db.outbox[i]) && db.outbox[i].key in db.decisions)
    && (forall k :: k in db.decisions ==> !SqlBlank(k) && db.decisions[k].payload.JObject?)
    && DistinctEvents(db.outbox) && DistinctKeys(db.outbox)
  }

  /** The strengthening that every move keeps. */
  predicate RowSound(r: Row)
  {
    && !Blank(r.eventId) && !Blank(r.key) && r.payload.JObject?
    && (r.status == PENDING <==> r.attempts == 0)
    && (r.status == PENDING ==> r.nextAttemptAt.None? && r.lastError.None?)
    && (r.status == PROCESSING <==> r.owner.Some?)
    && (r.status == PROCESSING <==> r.token.Some?)
    && (r.status == PROCESSING <==> r.lockedUntil.Some?)
    && (r.status == PROCESSING ==> r.lastError.None? && !Blank(r.owner.value))
    && (r.status == RETRY ==> r.nextAttemptAt.Some? && r.lastError.Some?)
    && (r.status == SENT <==> r.sentAt.Some?)
    && (r.status == SENT ==> r.nextAttemptAt.None? && r.lastError.None?)
    && (r.status == DEAD_LETTER ==> r.lastError.Some?)
    && (r.lastError.Some? ==> !Blank(r.lastError.value))
  }

  lemma SoundRowReopens(r: Row)
    requires RowSound(r)
    ensures RowReopens(r)
  {
    NotBlankNotSqlBlank(r.eventId);
    NotBlankNotSqlBlank(r.key);
    if r.lastError.Some? { NotBlankNotSqlBlank(r.lastError.value); }
  }

  lemma NotBlankNotSqlBlank(s: string)
    requires !Blank(s)
    ensures !SqlBlank(s)
  {
    var i :| 0 <= i < |s| && !IsSpace(s[i]);
  }

  lemma MoveKeepsSound(r: Row, m: Move)
    requires RowSound(r) && Enabled(r, m)
    ensures RowSound(Apply(r, m))
  {
    assert !Blank("lease expired") by { assert "lease expired"[0] == 'l'; }
  }

  lemma NewRowSound(r: Request, now: Instant)
    requires ValidRequest(r)
    ensures RowSound(NewRow(EventIdOf(r), r.key, Encode(r), now))
  {
    EventIdNotBlank(r);
  }

  // ---------------------------------------------------------------- the invariant

  /** The requests accepted by the finished calls of a log. */
  function LedgerOf(log: seq<Entry>): Ledger
  {
    if |log| == 0 then map[]
    else
      var m := LedgerOf(log[..|log| - 1]);
      var last := log[|log| - 1];
      if last.outcome == New then m[last.request.key := last.request] else m
  }

  /** Entry `k` answered what the one-step reference answers at that point. */
  ghost predicate LinearAt(log: seq<Entry>, k: nat)
    requires k < |log|
  {
    log[k].outcome == AtomicPersist(LedgerOf(log[..k]), log[k].request).1
  }

  ghost predicate Linear(log: seq<Entry>)
  {
    forall k :: 0 <= k < |log| ==> LinearAt(log, k)
  }

  ghost predicate RowsSound(rows: Table)
  {
    forall i :: 0 <= i < |rows| ==> RowSound(rows[i])
  }

  /** Tokens in rows were drawn, and no two rows hold one token. */
  ghost predicate TokensSound(rows: Table, used: set<Token>)
  {
    && (forall i :: 0 <= i < |rows| && rows[i].token.Some? ==> rows[i].token.value in used)
    && (forall i, j :: 0 <= i < j < |rows| && rows[i].token.Some? ==> rows[i].token != rows[j].token)
  }

  /** What a call has read stays true: a refused insert keeps a reason to be, its key or its
      event id, and a payload found equal is that of the same request. */
  ghost predicate CallSound(c: Call, m: Ledger)
  {
    && ValidRequest(c.request)
    && (c.phase == Refused ==> c.request.key in m || EventTaken(m, c.request))
    && (c.phase == PayloadEqual || c.phase == StatusEqual ==> c.request.key in m && m[c.request.key] == c.request)
  }

  ghost predicate CallsSound(calls: map<nat, Call>, m: Ledger)
  {
    forall id :: id in calls ==> CallSound(calls[id], m)
  }

  ghost predicate KeysNotBlank(m: Ledger)
  {
    forall k :: k in m ==> !Blank(k)
  }

  /** The tables, the log and the calls agree on the requests accepted so far. */
  ghost predicate PersistInv(s: System)
  {
    var m := LedgerOf(s.log);
    Represents(s.db, m) && KeysNotBlank(m) && CallsSound(s.calls, m) && Linear(s.log)
  }

  predicate IsFinished(calls: map<nat, Call>, id: nat)
  {
    id in calls && calls[id].phase.Finished?
  }

  ghost predicate HasEntry(log: seq<Entry>, id: nat)
  {
    exists k :: 0 <= k < |log| && log[k].id == id
  }

  /** The log has exactly one entry for every finished call, with its request and its answer,
      and no other entries. */
  ghost predicate CallsLogged(calls: map<nat, Call>, log: seq<Entry>)
  {
    && (forall k, l :: 0 <= k < l < |log| ==> log[k].id != log[l].id)
    && (forall k :: 0 <= k < |log| ==>
          log[k].id in calls && calls[log[k].id] == Call(log[k].request, Finished(log[k].outcome)))
    && (forall id :: IsFinished(calls, id) ==> HasEntry(log, id))
  }

  ghost predicate RowsInv(rows: Table, used: set<Token>)
  {
    RowsSound(rows) && TokensSound(rows, used)
  }

  ghost predicate Inv(s: System)
  {
    PersistInv(s) && CallsLogged(s.calls, s.log) && RowsInv(s.db.outbox, s.used)
  }

  lemma InitialInv()
    ensures Inv(INITIAL)
  {
  }

  /** Moves never touch identity columns. */
  lemma MoveKeepsIdentity(r: Row, m: Move)
    ensures var r' := Apply(r, m);
            r'.eventId == r.eventId && r'.key == r.key && r'.payload == r.payload && r'.createdAt == r.createdAt
  {
  }

  lemma LogGrows(log: seq<Entry>, entry: Entry)
    ensures LedgerOf(log + [entry])
            == if entry.outcome == New then LedgerOf(log)[entry.request.key := entry.request] else LedgerOf(log)
    ensures Linear(log) && entry.outcome == AtomicPersist(LedgerOf(log), entry.request).1 ==> Linear(log + [entry])
  {
    var log' := log + [entry];
    assert log'[..|log|] == log;
    if Linear(log) && entry.outcome == AtomicPersist(LedgerOf(log), entry.request).1 {
      forall k | 0 <= k < |log'| ensures LinearAt(log', k) {
        if k < |log| {
          assert LinearAt(log, k);
          assert log'[..k] == log[..k];
        }
      }
    }
  }

  // ---- calls of `persist`

  predicate Extends(m: Ledger, m': Ledger)
  {
    forall k {:trigger k in m} :: k in m ==> k in m' && m'[k] == m[k]
  }

  lemma CallStaysSound(c: Call, m: Ledger, m': Ledger)
    requires CallSound(c, m) && Extends(m, m')
    ensures CallSound(c, m')
  {
    assert c.request.key in m ==> c.request.key in m' && m'[c.request.key] == m[c.request.key];
    if c.phase == Refused && c.request.key !in m {
      var k :| k in m && IsSignal(m[k]) && EventIdOf(m[k]) == EventIdOf(c.request);
      assert k in m' && m'[k] == m[k];
    }
  }

  /** One call moves on, the accepted requests only grow. */
  lemma CallsStaySound(calls: map<nat, Call>, m: Ledger, m': Ledger, id: nat, c: Call)
    requires CallsSound(calls, m) && Extends(m, m') && CallSound(c, m')
    ensures CallsSound(calls[id := c], m')
  {
    var calls' := calls[id := c];
    forall j | j in calls' ensures CallSound(calls'[j], m') {
      if j != id { CallStaysSound(calls[j], m, m'); }
    }
  }

  /** A call that finishes without inserting. */
  lemma FinishKeepsInv(s: System, id: nat, o: Outcome)
    requires PersistInv(s) && id in s.calls && o != New
    requires o == AtomicPersist(LedgerOf(s.log), s.calls[id].request).1
    ensures PersistInv(Finish(s, id, o))
  {
    var m := LedgerOf(s.log);
    LogGrows(s.log, Entry(id, s.calls[id].request, o));
    assert CallSound(s.calls[id], m);
    CallsStaySound(s.calls, m, m, id, s.calls[id].(phase := Finished(o)));
  }

  lemma BeginKeepsInv(s: System, e: Event)
    requires PersistInv(s) && Allowed(s, e) && e.Begin?
    ensures PersistInv(Step(s, e))
  {
    var m := LedgerOf(s.log);
    CallsStaySound(s.calls, m, m, e.id, Call(e.request, Starting));
  }

  /** A call that moves on without finishing or writing. */
  lemma AdvanceKeepsInv(s: System, id: nat, phase: Phase)
    requires PersistInv(s) && id in s.calls && CallSound(s.calls[id].(phase := phase), LedgerOf(s.log))
    ensures PersistInv(Advance(s, id, phase))
  {
    var m := LedgerOf(s.log);
    CallsStaySound(s.calls, m, m, id, s.calls[id].(phase := phase));
  }

  /** On matching tables, equal payloads are equal requests. */
  lemma PayloadsCompareRequests(db: Db, m: Ledger, r: Request)
    requires Represents(db, m) && r.key in m
    ensures SamePayload(db, r) <==> m[r.key] == r
    ensures m[r.key] == r ==> SameStatus(db, r) && OutboxAnswer(db, r) == Replay
  {
    assert DecisionMatches(db.decisions[r.key], m[r.key]);
    EncodeInjective(m[r.key], r);
    if m[r.key] == r { CompareStoredIsReference(db, m, r); }
  }

  lemma ReadFirstKeepsInv(s: System, e: Event)
    requires PersistInv(s) && Allowed(s, e) && e.ReadFirst?
    ensures PersistInv(Step(s, e))
  {
    var m := LedgerOf(s.log);
    var c := s.calls[e.id];
    assert CallSound(c, m);
    hide Represents, Linear, Encode, CallsSound, ValidRequest;
    if c.request.key !in m {
      AdvanceKeepsInv(s, e.id, Missed);
    } else {
      PayloadsCompareRequests(s.db, m, c.request);
      if m[c.request.key] == c.request { AdvanceKeepsInv(s, e.id, PayloadEqual); } else {
        FinishKeepsInv(s, e.id, KeyReused); }
    }
  }

  lemma ReadAgainKeepsInv(s: System, e: Event)
    requires PersistInv(s) && Allowed(s, e) && e.ReadAgain?
    ensures PersistInv(Step(s, e))
  {
    var m := LedgerOf(s.log);
    var c := s.calls[e.id];
    assert CallSound(c, m);
    if c.request.key !in m {
      FinishKeepsInv(s, e.id, IntegrityFailure);
    } else {
      PayloadsCompareRequests(s.db, m, c.request);
      if m[c.request.key] == c.request { AdvanceKeepsInv(s, e.id, StatusEqual); } else {
        FinishKeepsInv(s, e.id, KeyReused); }
    }
  }

  /** The later reads of an existing decision: nothing can have changed since the first. */
  lemma LaterReadsKeepInv(s: System, e: Event)
    requires PersistInv(s) && Allowed(s, e) && (e.ReadStatus? || e.ReadOutbox?)
    ensures PersistInv(Step(s, e))
  {
    var m := LedgerOf(s.log);
    var c := s.calls[e.id];
    assert CallSound(c, m);
    PayloadsCompareRequests(s.db, m, c.request);
    if e.ReadStatus? { AdvanceKeepsInv(s, e.id, StatusEqual); } else { FinishKeepsInv(s, e.id, Replay); }
  }

  // ---- the log

  lemma AdvanceKeepsLogged(calls: map<nat, Call>, log: seq<Entry>, id: nat, c: Call)
    requires CallsLogged(calls, log) && !IsFinished(calls, id) && !c.phase.Finished?
    ensures CallsLogged(calls[id := c], log)
  {
    var calls' := calls[id := c];
    forall j | IsFinished(calls', j) ensures HasEntry(log, j) {
      assert IsFinished(calls, j);
    }
  }

  lemma FinishKeepsLogged(calls: map<nat, Call>, log: seq<Entry>, id: nat, o: Outcome)
    requires CallsLogged(calls, log) && id in calls && !IsFinished(calls, id)
    ensures CallsLogged(calls[id := calls[id].(phase := Finished(o))], log + [Entry(id, calls[id].request, o)])
  {
    var calls', log' := calls[id := calls[id].(phase := Finished(o))], log + [Entry(id, calls[id].request, o)];
    forall j | IsFinished(calls', j) ensures HasEntry(log', j) {
      if j == id {
        assert log'[|log|].id == id;
      } else {
        assert IsFinished(calls, j);
        var k :| 0 <= k < |log| && log[k].id == j;
        assert log'[k].id == j;
      }
    }
  }

  lemma StepKeepsLogged(s: System, e: Event)
    requires CallsLogged(s.calls, s.log) && Allowed(s, e)
    ensures CallsLogged(Step(s, e).calls, Step(s, e).log)
  {
    if !IsLifecycle(e) {
      var s' := Step(s, e);
      assert e.id in s'.calls && !IsFinished(s.calls, e.id);
      if s'.calls[e.id].phase.Finished? {
        FinishKeepsLogged(s.calls, s.log, e.id, s'.calls[e.id].phase.outcome);
      } else {
        AdvanceKeepsLogged(s.calls, s.log, e.id, s'.calls[e.id]);
      }
    }
  }

  lemma AppendKeepsRowsInv(rows: Table, used: set<Token>, row: Row)
    requires RowsInv(rows, used) && RowSound(row) && row.token.None?
    ensures RowsInv(rows + [row], used)
  {
  }

  lemma InsertKeepsRowsInv(s: System, e: Event)
    requires Inv(s) && Allowed(s, e) && e.TryInsert?
    ensures RowsInv(Step(s, e).db.outbox, Step(s, e).used)
  {
    var r := s.calls[e.id].request;
    var row := NewRow(EventIdOf(r), r.key, Encode(r), e.at);
    assert RowSound(row) by {
      assert CallSound(s.calls[e.id], LedgerOf(s.log));
      NewRowSound(r, e.at);
    }
    AppendKeepsRowsInv(s.db.outbox, s.used, row);
  }

  /** The insert transaction is the moment an accepted call takes effect. */
  lemma AcceptKeepsInv(s: System, id: nat, at: Instant)
    requires PersistInv(s) && id in s.calls && !InsertRefused(s.db, s.calls[id].request)
    ensures PersistInv(Finish(s, id, New).(db := Inserted(s.db, s.calls[id].request, at)))
  {
    hide Linear, Encode, EventIdOf, RowsRepresent, DecisionMatches;
    var m := LedgerOf(s.log);
    var r := s.calls[id].request;
    var m' := m[r.key := r];
    assert Represents(Inserted(s.db, r, at), m') && AtomicPersist(m, r) == (m', New) && r.key !in m by {
      InsertRefusedIsReference(s.db, m, r);
      InsertRepresents(s.db, m, r, at);
    }
    LogGrows(s.log, Entry(id, r, New));
    assert CallsSound(s.calls[id := s.calls[id].(phase := Finished(New))], m') && KeysNotBlank(m') by {
      assert CallSound(s.calls[id], m);
      CallsStaySound(s.calls, m, m', id, s.calls[id].(phase := Finished(New)));
    }
  }

  lemma TryInsertKeepsInv(s: System, e: Event)
    requires PersistInv(s) && Allowed(s, e) && e.TryInsert?
    ensures PersistInv(Step(s, e))
  {
    var m := LedgerOf(s.log);
    var r := s.calls[e.id].request;
    assert CallSound(s.calls[e.id], m);
    if InsertRefused(s.db, r) {
      InsertRefusedIsReference(s.db, m, r);
      CallsStaySound(s.calls, m, m, e.id, s.calls[e.id].(phase := Refused));
    } else {
      AcceptKeepsInv(s, e.id, e.at);
    }
  }

  // ---- steps of the lifecycle

  predicate IsLifecycle(e: Event)
  {
    e.Claim? || e.Finalise? || e.Recover?
  }

  /** A lifecycle step moves rows one by one and changes nothing else. */
  lemma LifecycleMovesRows(s: System, e: Event)
    requires Allowed(s, e) && IsLifecycle(e)
    ensures var s' := Step(s, e);
            && s'.db.decisions == s.db.decisions && s'.calls == s.calls && s'.log == s.log
            && |s'.db.outbox| == |s.db.outbox|
            && forall i :: 0 <= i < |s.db.outbox| ==>
                 && Enabled(s.db.outbox[i], MoveOf(s, e, i))
                 && s'.db.outbox[i] == Apply(s.db.outbox[i], MoveOf(s, e, i))
  {
    forall i | 0 <= i < |s.db.outbox|
      ensures Enabled(s.db.outbox[i], MoveOf(s, e, i))
      ensures Step(s, e).db.outbox[i] == Apply(s.db.outbox[i], MoveOf(s, e, i))
    {
      StepMovesRow(s, e, i);
    }
  }

  /** Matching of the tables depends on the identity columns only. */
  lemma SameIdentityRepresents(rows: Table, rows': Table, m: Ledger)
    requires RowsRepresent(rows, m) && |rows'| == |rows|
    requires forall i :: 0 <= i < |rows| ==>
               rows'[i].eventId == rows[i].eventId && rows'[i].key == rows[i].key && rows'[i].payload == rows[i].payload
    ensures RowsRepresent(rows', m)
  {
    forall i | 0 <= i < |rows'| ensures RowMatches(rows'[i], m) {
      assert RowMatches(rows[i], m);
    }
    forall k | k in m && IsSignal(m[k]) ensures HasRow(rows', k) {
      assert HasRow(rows, k);
      var i :| 0 <= i < |rows| && rows[i].key == k;
      assert rows'[i].key == k;
    }
  }

  /** The token a row holds after a step was in it before, or is one the step drew for it. */
  lemma TokenOrigin(s: System, e: Event, i: nat)
    requires Allowed(s, e) && IsLifecycle(e) && i < |s.db.outbox|
    ensures var r' := Step(s, e).db.outbox[i];
            r'.token.None? || r'.token == s.db.outbox[i].token
            || (e.Claim? && i in e.ids && r'.token == Some(e.tokens[FirstIndex(e.ids, i)]))
  {
    StepMovesRow(s, e, i);
  }

  lemma TokensStayDistinct(s: System, e: Event, i: nat, j: nat)
    requires TokensSound(s.db.outbox, s.used) && Allowed(s, e) && IsLifecycle(e)
    requires i < j < |s.db.outbox| && Step(s, e).db.outbox[i].token.Some?
    ensures Step(s, e).db.outbox[i].token != Step(s, e).db.outbox[j].token
  {
    TokenOrigin(s, e, i);
    TokenOrigin(s, e, j);
    assert s.db.outbox[i].token.Some? ==> s.db.outbox[i].token != s.db.outbox[j].token;
    if e.Claim? && i in e.ids && j in e.ids {
      var k, l := FirstIndex(e.ids, i), FirstIndex(e.ids, j);
      assert k != l;
      assert e.tokens[k] != e.tokens[l];
    }
  }

  lemma LifecycleKeepsTokens(s: System, e: Event)
    requires TokensSound(s.db.outbox, s.used) && Allowed(s, e) && IsLifecycle(e)
    ensures TokensSound(Step(s, e).db.outbox, Step(s, e).used)
  {
    var s' := Step(s, e);
    LifecycleMovesRows(s, e);
    forall i | 0 <= i < |s'.db.outbox| && s'.db.outbox[i].token.Some?
      ensures s'.db.outbox[i].token.value in s'.used
    {
      TokenOrigin(s, e, i);
      StepMovesRow(s, e, i);
    }
    forall i, j | 0 <= i < j < |s'.db.outbox| && s'.db.outbox[i].token.Some?
      ensures s'.db.outbox[i].token != s'.db.outbox[j].token
    {
      TokensStayDistinct(s, e, i, j);
    }
  }

  lemma LifecycleKeepsInv(s: System, e: Event)
    requires Inv(s) && Allowed(s, e) && IsLifecycle(e)
    ensures Inv(Step(s, e))
  {
    var s' := Step(s, e);
    LifecycleMovesRows(s, e);
    LifecycleKeepsTokens(s, e);
    forall i | 0 <= i < |s.db.outbox|
      ensures RowSound(s'.db.outbox[i])
      ensures s'.db.outbox[i].eventId == s.db.outbox[i].eventId && s'.db.outbox[i].key == s.db.outbox[i].key
              && s'.db.outbox[i].payload == s.db.outbox[i].payload
    {
      MoveKeepsSound(s.db.outbox[i], MoveOf(s, e, i));
      MoveKeepsIdentity(s.db.outbox[i], MoveOf(s, e, i));
    }
    SameIdentityRepresents(s.db.outbox, s'.db.outbox, LedgerOf(s.log));
  }

  lemma ReadsKeepRows(s: System, e: Event)
    requires Allowed(s, e) && !IsLifecycle(e) && !e.TryInsert?
    ensures Step(s, e).db.outbox == s.db.outbox && Step(s, e).used == s.used
  {
  }

  /** Every step keeps the invariant. */
  lemma StepKeepsInv(s: System, e: Event)
    requires Inv(s) && Allowed(s, e)
    ensures Inv(Step(s, e))
  {
    hide Step, Allowed, PersistInv, CallsLogged, RowsInv;
    StepKeepsLogged(s, e);
    if e.TryInsert? {
      InsertKeepsRowsInv(s, e);
    } else if !IsLifecycle(e) {
      ReadsKeepRows(s, e);
    }
    match e
    case Begin(_, _) => BeginKeepsInv(s, e);
    case ReadFirst(_) => ReadFirstKeepsInv(s, e);
    case TryInsert(_, _) => TryInsertKeepsInv(s, e);
    case ReadAgain(_) => ReadAgainKeepsInv(s, e);
    case ReadStatus(_) => LaterReadsKeepInv(s, e);
    case ReadOutbox(_) => LaterReadsKeepInv(s, e);
    case _ => LifecycleKeepsInv(s, e);
  }

  /** The invariant implies the whole reopen check. */
  lemma InvReopens(s: System)
    requires Inv(s)
    ensures Reopens(s.db)
  {
    var m := LedgerOf(s.log);
    forall i | 0 <= i < |s.db.outbox|
      ensures RowReopens(s.db.outbox[i]) && s.db.outbox[i].key in s.db.decisions
    {
      SoundRowReopens(s.db.outbox[i]);
      assert RowMatches(s.db.outbox[i], m);
    }
    forall k | k in s.db.decisions ensures !SqlBlank(k) && s.db.decisions[k].payload.JObject? {
      NotBlankNotSqlBlank(k);
      assert DecisionMatches(s.db.decisions[k], m[k]);
    }
  }

  // ---------------------------------------------------------------- runs

  ghost predicate AllowedRun(s: System, events: seq<Event>)
    decreases |events|
  {
    |events| == 0 || (Allowed(s, events[0]) && AllowedRun(Step(s, events[0]), events[1..]))
  }

  ghost function Run(s: System, events: seq<Event>): System
    requires AllowedRun(s, events)
    decreases |events|
  {
    if |events| == 0 then s else Run(Step(s, events[0]), events[1..])
  }

  lemma {:induction false} RunKeepsInv(s: System, events: seq<Event>)
    requires Inv(s) && AllowedRun(s, events)
    ensures Inv(Run(s, events))
    decreases |events|
  {
    if |events| > 0 {
      StepKeepsInv(s, events[0]);
      RunKeepsInv(Step(s, events[0]), events[1..]);
    }
  }

  /** Every state that any run reaches passes the check made when the database is reopened. */
  lemma ReachableStatesReopen(events: seq<Event>)
    requires AllowedRun(INITIAL, events)
    ensures Inv(Run(INITIAL, events)) && Reopens(Run(INITIAL, events).db)
  {
    InitialInv();
    RunKeepsInv(INITIAL, events);
    InvReopens(Run(INITIAL, events));
  }

  /** Runs compose. */
  lemma {:induction false} RunAppend(s: System, a: seq<Event>, b: seq<Event>)
    requires AllowedRun(s, a) && AllowedRun(Run(s, a), b)
    ensures AllowedRun(s, a + b) && Run(s, a + b) == Run(Run(s, a), b)
    decreases |a|
  {
    if |a| == 0 {
      assert a + b == b;
    } else {
      RunAppend(Step(s, a[0]), a[1..], b);
      assert (a + b)[1..] == a[1..] + b;
    }
  }

  /** A run of one step. */
  lemma SingleStep(s: System, e: Event)
    requires Allowed(s, e)
    ensures AllowedRun(s, [e]) && Run(s, [e]) == Step(s, e)
  {
    assert [e][1..] == [];
  }

  lemma FirstStep(s: System, e: Event, rest: seq<Event>)
    requires Allowed(s, e) && AllowedRun(Step(s, e), rest)
    ensures AllowedRun(s, [e] + rest) && Run(s, [e] + rest) == Run(Step(s, e), rest)
  {
    assert ([e] + rest)[1..] == rest;
  }

  /** The reads that follow once the first has found a decision. */
  function CheckEvents(db: Db, id: nat, r: Request): seq<Event>
    requires r.key in db.decisions
  {
    if !SamePayload(db, r) then []
    else if !SameStatus(db, r) then [ReadStatus(id)]
    else [ReadStatus(id), ReadOutbox(id)]
  }

  /** The steps of one uninterrupted `persist` call. */
  function PersistEvents(db: Db, id: nat, r: Request, at: Instant): seq<Event>
  {
    [Begin(id, r), ReadFirst(id)]
    + if r.key in db.decisions then CheckEvents(db, id, r)
      else if InsertRefused(db, r) then [TryInsert(id, at), ReadAgain(id)]
      else [TryInsert(id, at)]
  }

  /** What the steps of an uninterrupted call have to add up to. */
  ghost predicate CallCompletes(s: System, s': System, id: nat, r: Request, at: Instant)
  {
    && s'.db == Persisted(s.db, r, at).0
    && s'.log == s.log + [Entry(id, r, Persisted(s.db, r, at).1)]
    && s'.used == s.used && s'.calls.Keys == s.calls.Keys + {id}
  }

  /** A run of at most two steps. */
  lemma TwoSteps(s: System, a: Event, b: Event)
    requires Allowed(s, a) && Allowed(Step(s, a), b)
    ensures AllowedRun(s, [a, b]) && Run(s, [a, b]) == Step(Step(s, a), b)
  {
    SingleStep(Step(s, a), b);
    FirstStep(s, a, [b]);
    assert [a] + [b] == [a, b];
  }

  lemma UninterruptedChecks(s: System, id: nat, r: Request, at: Instant)
    requires InPhase(s, id, Starting) && s.calls[id].request == r && r.key in s.db.decisions
    ensures AllowedRun(s, [ReadFirst(id)] + CheckEvents(s.db, id, r))
    ensures var s' := Run(s, [ReadFirst(id)] + CheckEvents(s.db, id, r));
            && s'.db == s.db && s'.log == s.log + [Entry(id, r, CompareStored(s.db, r))]
            && s'.used == s.used && s'.calls.Keys == s.calls.Keys
  {
    var s' := Step(s, ReadFirst(id));
    if SamePayload(s.db, r) {
      if SameStatus(s.db, r) { TwoSteps(s', ReadStatus(id), ReadOutbox(id)); } else { SingleStep(s', ReadStatus(id)); }
    }
    FirstStep(s, ReadFirst(id), CheckEvents(s.db, id, r));
  }

  lemma UninterruptedInsert(s: System, id: nat, r: Request, at: Instant)
    requires InPhase(s, id, Starting) && s.calls[id].request == r && r.key !in s.db.decisions
    ensures var events := [ReadFirst(id)] + if InsertRefused(s.db, r) then [TryInsert(id, at), ReadAgain(id)]
            else [TryInsert(id, at)];
            AllowedRun(s, events) && CallCompletes(s, Run(s, events), id, r, at)
  {
    var s' := Step(s, ReadFirst(id));
    if InsertRefused(s.db, r) {
      TwoSteps(s', TryInsert(id, at), ReadAgain(id));
      FirstStep(s, ReadFirst(id), [TryInsert(id, at), ReadAgain(id)]);
    } else {
      TwoSteps(s, ReadFirst(id), TryInsert(id, at));
      assert [ReadFirst(id)] + [TryInsert(id, at)] == [ReadFirst(id), TryInsert(id, at)];
    }
  }

  /** Run without interruption, the phases of a call add up to `Persisted`. */
  lemma UninterruptedPersist(s: System, id: nat, r: Request, at: Instant)
    requires ValidRequest(r) && id !in s.calls
    ensures var events := PersistEvents(s.db, id, r, at);
            AllowedRun(s, events) && CallCompletes(s, Run(s, events), id, r, at)
  {
    var s' := Step(s, Begin(id, r));
    var events := PersistEvents(s.db, id, r, at);
    if r.key in s.db.decisions { UninterruptedChecks(s', id, r, at); } else { UninterruptedInsert(s', id, r, at); }
    assert events == [Begin(id, r)] + events[1..];
    assert events[1..] == [ReadFirst(id)] + events[2..];
    FirstStep(s, Begin(id, r), events[1..]);
  }

  // ---------------------------------------------------------------- in columns

  /** Every step that a caller may take: any request with a new call id, the statements of a call
      in their order, any claim with new tokens, any finaliser with proper arguments, recovery. */
  lemma StepsAllowed(s: System, e: Event)
    ensures Allowed(s, e) <==>
              match e
              case Begin(id, r) => id !in s.calls && ValidRequest(r)
              case ReadFirst(id) => id in s.calls && s.calls[id].phase == Starting
              case TryInsert(id, _) => id in s.calls && s.calls[id].phase == Missed
              case ReadAgain(id) => id in s.calls && s.calls[id].phase == Refused
              case ReadStatus(id) => id in s.calls && s.calls[id].phase == PayloadEqual
              case ReadOutbox(id) => id in s.calls && s.calls[id].phase == StatusEqual
              case Claim(ids, tokens, _, leaseSeconds, worker) =>
                && |ids| == |tokens| && leaseSeconds > 0 && !Blank(worker)
                && (forall k :: 0 <= k < |tokens| ==> tokens[k] !in s.used)
                && (forall k, l :: 0 <= k < l < |tokens| ==> tokens[k] != tokens[l])
              case Finalise(target, f, worker, _, _) =>
                && !Blank(worker)
                && (match f
                    case MarkSent(_) => true
                    case MarkRetry(_, error) => !Blank(error)
                    case MarkDead(error) => !Blank(error))
                && (match target case ByEvent(eventId) => !Blank(eventId) case ByRowid(n) => n > 0)
              case Recover(_) => true
  {
  }

  /** The rows and decisions of every reachable state, column by column: what the reopen check
      asks of them, and more. */
  lemma ReachableColumns(events: seq<Event>, i: nat)
    requires AllowedRun(INITIAL, events) && i < |Run(INITIAL, events).db.outbox|
    ensures var db := Run(INITIAL, events).db;
            var r := db.outbox[i];
            && !Blank(r.eventId) && !Blank(r.key) && r.payload.JObject?
            && r.key in db.decisions && db.decisions[r.key].payload == r.payload && db.decisions[r.key].status == SIGNAL
            && (forall j :: 0 <= j < |db.outbox| && j != i ==>
                  db.outbox[j].eventId != r.eventId && db.outbox[j].key != r.key)
            && (r.status == SENT <==> r.sentAt.Some?)
            && (r.status == PROCESSING <==> r.owner.Some?)
            && (r.status == PROCESSING <==> r.token.Some?)
            && (r.status == PROCESSING <==> r.lockedUntil.Some?)
            && (r.status == PENDING <==> r.attempts == 0)
            && (r.status == DEAD_LETTER || r.status == RETRY ==> r.lastError.Some?)
            && (r.lastError.Some? ==> !Blank(r.lastError.value))
            && (r.status == RETRY ==> r.nextAttemptAt.Some?)
            && Reopens(db)
  {
    hide Run, CallsLogged, Linear, CallsSound;
    InitialInv();
    RunKeepsInv(INITIAL, events);
    var s := Run(INITIAL, events);
    InvReopens(s);
    assert RowSound(s.db.outbox[i]) && RowMatches(s.db.outbox[i], LedgerOf(s.log));
    assert DecisionMatches(s.db.decisions[s.db.outbox[i].key], LedgerOf(s.log)[s.db.outbox[i].key]);
  }

  /** The reopen check itself, column by column. */
  lemma ReopenAnswers(db: Db)
    ensures Reopens(db) <==>
              && (forall i :: 0 <= i < |db.outbox| ==>
                    var r := db.outbox[i];
                    && !SqlBlank(r.eventId) && !SqlBlank(r.key) && r.payload.JObject? && r.key in db.decisions
                    && (r.status == SENT ==> r.sentAt.Some?) && (r.status != SENT ==> r.sentAt.None?)
                    && (r.status == DEAD_LETTER ==> r.lastError.Some? && !SqlBlank(r.lastError.value))
                    && (r.status == PROCESSING ==> r.owner.Some? && r.token.Some? && r.lockedUntil.Some?)
                    && (r.status != PROCESSING ==> r.owner.None? && r.token.None? && r.lockedUntil.None?))
              && (forall k :: k in db.decisions ==> !SqlBlank(k) && db.decisions[k].payload.JObject?)
              && (forall i, j :: 0 <= i < j < |db.outbox| ==>
                    db.outbox[i].eventId != db.outbox[j].eventId && db.outbox[i].key != db.outbox[j].key)
  {
  }
}
