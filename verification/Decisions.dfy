/** `persist`: its preflight read, its insert transaction and its re-read after an
    IntegrityError, beside the one-step reference it has to behave like. */
module Decisions {
  import opened Wrappers
  import opened IsoTime
  import opened Domain
  import opened OutboxTable

  datatype DecisionRow = DecisionRow(status: DecisionStatus, payload: Json, createdAt: Instant)

  /** Both tables. */
  datatype Db = Db(decisions: map<string, DecisionRow>, outbox: Table)

  /** The two results of `persist` and the reasons of its PersistenceCollisionError. */
  datatype Outcome =
    | New
    | Replay
    | KeyReused              // "idempotency key collision"
    | IntegrityFailure       // an IntegrityError with no decision under the key
    | DecisionInconsistent   // "decision persistence is inconsistent"
    | OutboxMissing          // "signal persistence is incomplete"
    | SignalInconsistent     // "signal persistence is inconsistent"
    | OrphanOutbox           // "non-signal persistence is inconsistent"

  predicate IsSignal(r: Request)
  {
    r.decision.status == SIGNAL
  }

  // ---------------------------------------------------------------- the SQL statements

  /** SELECT ... FROM outbox WHERE idempotency_key = ? (`fetchone`). */
  function RowOfKey(rows: Table, key: string): (r: Option<Row>)
    ensures r.Some? <==> exists i :: 0 <= i < |rows| && rows[i].key == key
    ensures r.Some? ==> r.value in rows && r.value.key == key
  {
    if |rows| == 0 then None
    else if rows[0].key == key then Some(rows[0])
    else
      var r := RowOfKey(rows[1..], key);
      assert forall i :: 1 <= i < |rows| ==> rows[i] == rows[1..][i - 1];
      r
  }

  predicate SamePayload(db: Db, r: Request)
    requires r.key in db.decisions
  {
    db.decisions[r.key].payload == Encode(r)
  }

  predicate SameStatus(db: Db, r: Request)
    requires r.key in db.decisions
  {
    db.decisions[r.key].status == r.decision.status
  }

  /** The answer of the last SELECT, on the outbox, once payload and status were found equal. */
  function OutboxAnswer(db: Db, r: Request): Outcome
  {
    var row := RowOfKey(db.outbox, r.key);
    if IsSignal(r) then
      if row.None? then OutboxMissing
      else if row.value.eventId != EventIdOf(r) || row.value.payload != Encode(r) then SignalInconsistent
      else Replay
    else if row.Some? then OrphanOutbox
    else Replay
  }

  /** The checks on an existing decision; preflight and re-read make the same ones. */
  function CompareStored(db: Db, r: Request): Outcome
    requires r.key in db.decisions
  {
    if !SamePayload(db, r) then KeyReused
    else if !SameStatus(db, r) then DecisionInconsistent
    else OutboxAnswer(db, r)
  }

  function Preflight(db: Db, r: Request): Option<Outcome>
  {
    if r.key in db.decisions then Some(CompareStored(db, r)) else None
  }

  predicate Conflicts(row: Row, r: Request)
  {
    row.eventId == EventIdOf(r) || row.key == r.key
  }

  /** A PRIMARY KEY or UNIQUE constraint refuses one of the two INSERTs. */
  predicate InsertRefused(db: Db, r: Request)
  {
    || r.key in db.decisions
    || (IsSignal(r) && exists i :: 0 <= i < |db.outbox| && Conflicts(db.outbox[i], r))
  }

  /** The insert transaction; a refused INSERT rolls both back. */
  function Inserted(db: Db, r: Request, now: Instant): Db
  {
    if InsertRefused(db, r) then db
    else
      Db(db.decisions[r.key := DecisionRow(r.decision.status, Encode(r), now)],
         if IsSignal(r) then db.outbox + [NewRow(EventIdOf(r), r.key, Encode(r), now)] else db.outbox)
  }

  function Recheck(db: Db, r: Request): Outcome
  {
    if r.key in db.decisions then CompareStored(db, r) else IntegrityFailure
  }

  /** One uninterrupted call. */
  function Persisted(db: Db, r: Request, now: Instant): (Db, Outcome)
  {
    match Preflight(db, r)
    case Some(o) => (db, o)
    case None => if InsertRefused(db, r) then (db, Recheck(db, r)) else (Inserted(db, r, now), New)
  }

  // ---------------------------------------------------------------- the reference

  /** Accepted requests by idempotency key. */
  type Ledger = map<string, Request>

  predicate ValidLedger(m: Ledger)
  {
    forall k :: k in m ==> m[k].key == k
  }

  /** `InMemoryDecisionPersistence.persist`. */
  function ReferencePersist(m: Ledger, r: Request): (Ledger, Outcome)
  {
    if r.key in m then (m, if m[r.key] != r then KeyReused else Replay)
    else (m[r.key := r], New)
  }

  predicate EventTaken(m: Ledger, r: Request)
  {
    IsSignal(r) && exists k :: k in m && IsSignal(m[k]) && EventIdOf(m[k]) == EventIdOf(r)
  }

  /** The reference with globally unique event ids. */
  function AtomicPersist(m: Ledger, r: Request): (Ledger, Outcome)
  {
    if r.key !in m && EventTaken(m, r) then (m, IntegrityFailure) else ReferencePersist(m, r)
  }

  // ---------------------------------------------------------------- the relation

  /** The row of the outbox and the accepted request behind it. */
  predicate RowMatches(row: Row, m: Ledger)
  {
    && row.key in m && IsSignal(m[row.key])
    && row.eventId == EventIdOf(m[row.key]) && row.payload == Encode(m[row.key])
  }

  predicate DecisionMatches(d: DecisionRow, r: Request)
  {
    d.payload == Encode(r) && d.status == r.decision.status
  }

  predicate DistinctKeys(rows: Table)
  {
    forall i, j :: 0 <= i < j < |rows| ==> rows[i].key != rows[j].key
  }

  predicate HasRow(rows: Table, key: string)
  {
    exists i :: 0 <= i < |rows| && rows[i].key == key
  }

  /** The outbox holds the SIGNAL requests, one to one. */
  ghost predicate RowsRepresent(rows: Table, m: Ledger)
  {
    && (forall i :: 0 <= i < |rows| ==> RowMatches(rows[i], m))
    && (forall k :: k in m && IsSignal(m[k]) ==> HasRow(rows, k))
    && DistinctKeys(rows) && DistinctEvents(rows)
  }

  /** The tables hold exactly the accepted requests: a decision for each, and an outbox row
      for each SIGNAL, one to one, with its event id and payload. */
  ghost predicate Represents(db: Db, m: Ledger)
  {
    && ValidLedger(m)
    && db.decisions.Keys == m.Keys
    && (forall k :: k in m ==> DecisionMatches(db.decisions[k], m[k]))
    && RowsRepresent(db.outbox, m)
  }

  /** On matching tables the outbox has the row of a key exactly when it is a SIGNAL. */
  lemma RowOfAcceptedKey(db: Db, m: Ledger, key: string)
    requires Represents(db, m) && key in m
    ensures var row := RowOfKey(db.outbox, key);
            if IsSignal(m[key]) then row.Some? && RowMatches(row.value, m) && row.value.key == key else row.None?
  {
    var row := RowOfKey(db.outbox, key);
    assert IsSignal(m[key]) ==> HasRow(db.outbox, key);
    assert row.Some? ==> RowMatches(row.value, m);
  }

  /** On matching tables the checks of an existing decision can only say "replay" or
      "key collision": every inconsistency error is unreachable. */
  lemma CompareStoredIsReference(db: Db, m: Ledger, r: Request)
    requires Represents(db, m) && r.key in m
    ensures CompareStored(db, r) == if m[r.key] == r then Replay else KeyReused
  {
    assert DecisionMatches(db.decisions[r.key], m[r.key]);
    if m[r.key] == r {
      RowOfAcceptedKey(db, m, r.key);
    } else {
      EncodeInjective(m[r.key], r);
    }
  }

  /** The INSERTs are refused exactly when the reference finds the key or the event id. */
  lemma InsertRefusedIsReference(db: Db, m: Ledger, r: Request)
    requires Represents(db, m)
    ensures InsertRefused(db, r) <==> r.key in m || EventTaken(m, r)
  {
    if r.key !in m && EventTaken(m, r) {
      var k :| k in m && IsSignal(m[k]) && EventIdOf(m[k]) == EventIdOf(r);
      assert HasRow(db.outbox, k);
      var i :| 0 <= i < |db.outbox| && db.outbox[i].key == k;
      assert RowMatches(db.outbox[i], m);
      assert Conflicts(db.outbox[i], r);
    }
    if r.key !in m && InsertRefused(db, r) {
      var i :| 0 <= i < |db.outbox| && Conflicts(db.outbox[i], r);
      assert RowMatches(db.outbox[i], m);
    }
  }

  /** Accepting a new key leaves the rows of the others matching. */
  lemma OldRowsStillMatch(rows: Table, m: Ledger, r: Request)
    requires RowsRepresent(rows, m) && r.key !in m
    ensures forall i :: 0 <= i < |rows| ==> RowMatches(rows[i], m[r.key := r])
    ensures forall k :: k in m && IsSignal(m[k]) ==> HasRow(rows, k)
  {
    forall i | 0 <= i < |rows| ensures RowMatches(rows[i], m[r.key := r]) {
      assert RowMatches(rows[i], m);
    }
  }

  lemma AppendedRowRepresents(rows: Table, m: Ledger, r: Request, row: Row)
    requires RowsRepresent(rows, m) && r.key !in m && row.key == r.key
    requires RowMatches(row, m[r.key := r])
    requires forall i :: 0 <= i < |rows| ==> rows[i].eventId != row.eventId
    ensures RowsRepresent(rows + [row], m[r.key := r])
  {
    OldRowsStillMatch(rows, m, r);
    var rows', m' := rows + [row], m[r.key := r];
    forall k | k in m' && IsSignal(m'[k]) ensures HasRow(rows', k) {
      if k == r.key {
        assert rows'[|rows|].key == k;
      } else {
        assert HasRow(rows, k);
        var i :| 0 <= i < |rows| && rows[i].key == k;
        assert rows'[i].key == k;
      }
    }
    assert forall i :: 0 <= i < |rows| ==> RowMatches(rows[i], m) && rows[i].key != row.key;
  }

  lemma InsertKeepsRows(db: Db, m: Ledger, r: Request, now: Instant)
    requires Represents(db, m) && !InsertRefused(db, r)
    ensures RowsRepresent(Inserted(db, r, now).outbox, m[r.key := r])
  {
    OldRowsStillMatch(db.outbox, m, r);
    if IsSignal(r) {
      var row := NewRow(EventIdOf(r), r.key, Encode(r), now);
      assert forall i :: 0 <= i < |db.outbox| ==> !Conflicts(db.outbox[i], r);
      AppendedRowRepresents(db.outbox, m, r, row);
    }
  }

  /** An accepted insert is the reference's step, and keeps the tables matching. */
  lemma InsertRepresents(db: Db, m: Ledger, r: Request, now: Instant)
    requires Represents(db, m) && !InsertRefused(db, r)
    ensures Represents(Inserted(db, r, now), m[r.key := r])
    ensures AtomicPersist(m, r) == (m[r.key := r], New)
  {
    InsertKeepsRows(db, m, r, now);
    InsertRefusedIsReference(db, m, r);
    assert AtomicPersist(m, r) == (m[r.key := r], New);
    var db', m' := Inserted(db, r, now), m[r.key := r];
    forall k | k in m' ensures DecisionMatches(db'.decisions[k], m'[k]) {
      if k != r.key { assert DecisionMatches(db.decisions[k], m[k]); }
    }
  }

  /** `persist` refines the in-memory reference with unique event ids. */
  lemma PersistRefines(db: Db, m: Ledger, r: Request, now: Instant)
    requires Represents(db, m)
    ensures var (db', o) := Persisted(db, r, now);
            var (m', o') := AtomicPersist(m, r);
            Represents(db', m') && o == o'
    ensures var (_, o) := Persisted(db, r, now);
            var (_, o'') := ReferencePersist(m, r);
            o != o'' <==> r.key !in m && EventTaken(m, r)
    ensures Persisted(db, r, now).1 in {New, Replay, KeyReused, IntegrityFailure}
  {
    if r.key in m {
      CompareStoredIsReference(db, m, r);
    } else {
      InsertRefusedIsReference(db, m, r);
      if !InsertRefused(db, r) { InsertRepresents(db, m, r, now); }
    }
  }

  /** Only a first acceptance writes: a replay or a collision leaves both tables as they
      are, the lifecycle state of every row included. */
  lemma OnlyNewWrites(db: Db, m: Ledger, r: Request, now: Instant)
    requires Represents(db, m)
    ensures Persisted(db, r, now).1 != New ==> Persisted(db, r, now).0 == db
    ensures Persisted(db, r, now).1 == New ==> r.key !in db.decisions && r.key in Persisted(db, r, now).0.decisions
    ensures db.outbox <= Persisted(db, r, now).0.outbox
  {
    if r.key in m { CompareStoredIsReference(db, m, r); }
  }
}
