/** `SQLiteDecisionPersistence`: the two tables as fields, its methods as transactions. The
    ghost field `trace` is the run of `OutboxSystem` that the calls so far amount to, so
    every theorem about runs holds of every sequence of calls. */
module SqliteStore {
  import opened Wrappers
  import opened Text
  import opened IsoTime
  import opened Domain
  import opened OutboxTable
  import opened Decisions
  import opened OutboxSystem
  import opened StoredRows

  datatype StoreError = ValueError | OverflowError

  /** Event ids are unique in every reachable state. */
  lemma ReachableDistinct(trace: seq<Event>)
    requires AllowedRun(INITIAL, trace)
    ensures DistinctEvents(Run(INITIAL, trace).db.outbox)
  {
    ReachableStatesReopen(trace);
  }

  class SQLiteDecisionPersistence {
    var decisions: map<string, DecisionRow>
    var outbox: Table
    ghost var trace: seq<Event>

    ghost predicate Valid()
      reads this
    {
      && AllowedRun(INITIAL, trace)
      && Run(INITIAL, trace).db == Db(decisions, outbox)
      && DistinctEvents(outbox)
    }

    /** The state of the protocol after the calls made so far. */
    ghost function Sys(): System
      reads this
      requires Valid()
    {
      Run(INITIAL, trace)
    }

    constructor ()
      ensures Valid() && decisions == map[] && outbox == [] && trace == []
    {
      decisions, outbox, trace := map[], [], [];
    }

    /** Record the steps just performed on the tables. */
    ghost method Record(events: seq<Event>)
      requires AllowedRun(INITIAL, trace) && AllowedRun(Run(INITIAL, trace), events)
      requires Run(Run(INITIAL, trace), events).db == Db(decisions, outbox)
      modifies this`trace
      ensures Valid() && trace == old(trace) + events
      ensures Sys() == Run(Run(INITIAL, old(trace)), events)
    {
      RunAppend(INITIAL, trace, events);
      trace := trace + events;
      ReachableDistinct(trace);
    }

    /** One uninterrupted call of `persist`. */
    method Persist(ghost id: nat, r: Request, at: Instant) returns (o: Outcome)
      requires Valid() && ValidRequest(r) && id !in Sys().calls
      modifies this
      ensures Valid()
      ensures (Db(decisions, outbox), o) == Persisted(old(Db(decisions, outbox)), r, at)
      ensures o == New <==> NothingStored(old(Db(decisions, outbox)), r)
      ensures if o == New then IsStored(old(Db(decisions, outbox)), Db(decisions, outbox), r, at)
              else Db(decisions, outbox) == old(Db(decisions, outbox))
      ensures Sys().log == old(Sys().log) + [Entry(id, r, o)] && Sys().used == old(Sys().used)
      ensures Sys().calls.Keys == old(Sys().calls.Keys) + {id}
      ensures trace == old(trace) + PersistEvents(old(Db(decisions, outbox)), id, r, at)
    {
      hide IsStored, NothingStored, Encode, NewRow, EventIdOf;
      var db := Db(decisions, outbox);
      UninterruptedPersist(Sys(), id, r, at);
      PersistStores(db, r, at);
      if r.key in decisions {
        o := CompareStored(db, r);
      } else if InsertRefused(db, r) {
        o := Recheck(db, r);
      } else {
        decisions := decisions[r.key := DecisionRow(r.decision.status, Encode(r), at)];
        if IsSignal(r) {
          outbox := outbox + [NewRow(EventIdOf(r), r.key, Encode(r), at)];
        }
        o := New;
      }
      Record(PersistEvents(db, id, r, at));
    }

    /** `claim_pending_outbox`; `tokens` supplies the `uuid4` drawn for each selected row. */
    method ClaimPendingOutbox(now: Instant, leaseSeconds: int, limit: int, worker: string, tokens: seq<Token>)
      returns (r: Result<seq<Item>, StoreError>)
      requires Valid() && FreshTokens(Sys(), tokens) && limit <= |tokens|
      modifies this
      ensures Valid() && decisions == old(decisions)
      ensures leaseSeconds <= 0 || limit <= 0 || Blank(worker) ==> r == Err(ValueError)
      ensures leaseSeconds > 0 && limit > 0 && !Blank(worker) ==>
                (r.Err? <==> PlusSeconds(now, leaseSeconds).None?) && (r.Err? ==> r.error == OverflowError)
      ensures r.Err? ==> outbox == old(outbox) && trace == old(trace)
      ensures r.Ok? ==>
                var ids := SelectEligible(old(outbox), now, limit);
                var drawn := tokens[..|ids|];
                var until := PlusSeconds(now, leaseSeconds).value;
                && outbox == ClaimBatch(old(outbox), ids, drawn, now, until, worker)
                && r.value == ClaimItems(old(outbox), ids, drawn, now, until, worker)
                && ClaimsRows(old(outbox), outbox, ids, tokens, now, leaseSeconds, worker, r.value)
                && trace == old(trace) + [Claim(ids, drawn, now, leaseSeconds, worker)]
    {
      if leaseSeconds <= 0 || limit <= 0 || Blank(worker) {
        return Err(ValueError);
      }
      var lockedUntil := PlusSeconds(now, leaseSeconds);
      if lockedUntil.None? {
        return Err(OverflowError);
      }
      var ids := SelectEligible(outbox, now, limit);
      var drawn := tokens[..|ids|];
      SingleStep(Sys(), Claim(ids, drawn, now, leaseSeconds, worker));
      SelectionMeans(outbox, now, limit);
      ClaimMeans(outbox, ids, drawn, now, leaseSeconds, worker);
      var claimed := UpdateSelected(ids, drawn, now, lockedUntil.value, worker);
      Record([Claim(ids, drawn, now, leaseSeconds, worker)]);
      r := Ok(claimed);
    }

    /** The loop of the claim: one guarded UPDATE per selected row, and a read-back of the
        rows whose UPDATE changed something. */
    method UpdateSelected(ids: seq<nat>, tokens: seq<Token>, now: Instant, until: Instant, worker: string)
      returns (claimed: seq<Item>)
      requires |ids| == |tokens| && forall k :: 0 <= k < |ids| ==> ids[k] < |outbox|
      modifies this`outbox
      ensures outbox == ClaimBatch(old(outbox), ids, tokens, now, until, worker)
      ensures claimed == ClaimItems(old(outbox), ids, tokens, now, until, worker)
    {
      claimed := [];
      var k := 0;
      while k < |ids|
        invariant 0 <= k <= |ids|
        invariant outbox == ClaimBatch(old(outbox), ids[..k], tokens[..k], now, until, worker)
        invariant claimed == ClaimItems(old(outbox), ids[..k], tokens[..k], now, until, worker)
      {
        assert ids[..k + 1][..k] == ids[..k] && tokens[..k + 1][..k] == tokens[..k];
        var i := ids[k];
        var move := ClaimOf(outbox[i], now, until, worker, tokens[k]);
        outbox := outbox[i := Apply(outbox[i], move)];
        if move.ClaimMove? {
          claimed := claimed + [Item(i + 1, outbox[i])];
        }
        k := k + 1;
      }
      assert ids[..k] == ids && tokens[..k] == tokens;
    }

    /** The transaction shared by the four finalisers: one guarded UPDATE, rolled back with a
        ValueError unless it changed exactly one row. */
    method FinaliseOutbox(target: Target, f: Finaliser, worker: string, lease: Token, clock: Instant)
      returns (r: Result<(), StoreError>)
      requires Valid()
      modifies this
      ensures Valid() && decisions == old(decisions)
      ensures r == (if FinaliserSucceeds(old(outbox), target, f, worker, lease, clock) then Ok(()) else Err(ValueError))
      ensures outbox == Finalised(old(outbox), target, f, worker, lease, clock)
      ensures r.Ok? ==> FinalisesOne(old(outbox), outbox, target, f, worker, lease, clock)
      ensures r.Err? ==> outbox == old(outbox) && trace == old(trace)
      ensures r.Ok? ==>
                trace == old(trace) + [Finalise(target, f, worker, lease, clock)]
    {
      if !FinaliserArgs(target, f, worker) {
        return Err(ValueError);
      }
      var hit := Matched(outbox, target, worker, lease, clock);
      if |hit| != 1 {
        return Err(ValueError);
      }
      SingleStep(Sys(), Finalise(target, f, worker, lease, clock));
      FinalisedMeans(outbox, target, f, worker, lease, clock);
      outbox := Finalised(outbox, target, f, worker, lease, clock);
      Record([Finalise(target, f, worker, lease, clock)]);
      r := Ok(());
    }

    method MarkOutboxSent(eventId: string, sentAt: Instant, worker: string, lease: Token, clock: Instant)
      returns (r: Result<(), StoreError>)
      requires Valid()
      modifies this
      ensures Valid() && decisions == old(decisions)
      ensures r.Ok? <==> FinaliserSucceeds(old(outbox), ByEvent(eventId), MarkSent(sentAt), worker, lease, clock)
      ensures outbox == Finalised(old(outbox), ByEvent(eventId), MarkSent(sentAt), worker, lease, clock)
      ensures r.Ok? <==> !Blank(eventId) && !Blank(worker) && HeldByEvent(old(outbox), eventId, worker, lease, clock)
      ensures if r.Ok? then FinalisesOne(old(outbox), outbox, ByEvent(eventId), MarkSent(sentAt), worker, lease, clock)
              else outbox == old(outbox)
      ensures r.Err? ==> trace == old(trace)
      ensures r.Ok? ==>
                trace == old(trace) + [Finalise(ByEvent(eventId), MarkSent(sentAt), worker, lease, clock)]
    {
      SucceedsByEvent(outbox, eventId, MarkSent(sentAt), worker, lease, clock);
      r := FinaliseOutbox(ByEvent(eventId), MarkSent(sentAt), worker, lease, clock);
    }

    method MarkOutboxRetry(eventId: string, nextAttemptAt: Instant, error: string, worker: string, lease: Token,
                          clock: Instant)
      returns (r: Result<(), StoreError>)
      requires Valid()
      modifies this
      ensures Valid() && decisions == old(decisions)
      ensures r.Ok? <==> FinaliserSucceeds(old(outbox), ByEvent(eventId), MarkRetry(nextAttemptAt, error), worker,
              lease, clock)
      ensures outbox == Finalised(old(outbox), ByEvent(eventId), MarkRetry(nextAttemptAt, error), worker, lease, clock)
      ensures r.Ok? <==>
                !Blank(eventId) && !Blank(worker) && !Blank(error)
                && HeldByEvent(old(outbox), eventId, worker, lease, clock)
      ensures if r.Ok? then
                FinalisesOne(old(outbox), outbox, ByEvent(eventId), MarkRetry(nextAttemptAt, error), worker, lease,
                             clock)
              else outbox == old(outbox)
      ensures r.Err? ==> trace == old(trace)
      ensures r.Ok? ==>
                trace == old(trace) + [Finalise(ByEvent(eventId), MarkRetry(nextAttemptAt, error), worker, lease,
                  clock)]
    {
      SucceedsByEvent(outbox, eventId, MarkRetry(nextAttemptAt, error), worker, lease, clock);
      r := FinaliseOutbox(ByEvent(eventId), MarkRetry(nextAttemptAt, error), worker, lease, clock);
    }

    method MarkOutboxDeadLetter(eventId: string, error: string, worker: string, lease: Token, clock: Instant)
      returns (r: Result<(), StoreError>)
      requires Valid()
      modifies this
      ensures Valid() && decisions == old(decisions)
      ensures r.Ok? <==> FinaliserSucceeds(old(outbox), ByEvent(eventId), MarkDead(error), worker, lease, clock)
      ensures outbox == Finalised(old(outbox), ByEvent(eventId), MarkDead(error), worker, lease, clock)
      ensures r.Ok? <==>
                !Blank(eventId) && !Blank(worker) && !Blank(error)
                && HeldByEvent(old(outbox), eventId, worker, lease, clock)
      ensures if r.Ok? then FinalisesOne(old(outbox), outbox, ByEvent(eventId), MarkDead(error), worker, lease, clock)
              else outbox == old(outbox)
      ensures r.Err? ==> trace == old(trace)
      ensures r.Ok? ==>
                trace == old(trace) + [Finalise(ByEvent(eventId), MarkDead(error), worker, lease, clock)]
    {
      SucceedsByEvent(outbox, eventId, MarkDead(error), worker, lease, clock);
      r := FinaliseOutbox(ByEvent(eventId), MarkDead(error), worker, lease, clock);
    }

    method QuarantineOutboxRecord(internalId: nat, error: string, worker: string, lease: Token, clock: Instant)
      returns (r: Result<(), StoreError>)
      requires Valid()
      modifies this
      ensures Valid() && decisions == old(decisions)
      ensures r.Ok? <==> FinaliserSucceeds(old(outbox), ByRowid(internalId), MarkDead(error), worker, lease, clock)
      ensures outbox == Finalised(old(outbox), ByRowid(internalId), MarkDead(error), worker, lease, clock)
      ensures r.Ok? <==> !Blank(worker) && !Blank(error) && HeldByRowid(old(outbox), internalId, worker, lease, clock)
      ensures if r.Ok? then
                FinalisesOne(old(outbox), outbox, ByRowid(internalId), MarkDead(error), worker, lease, clock)
              else outbox == old(outbox)
      ensures r.Err? ==> trace == old(trace)
      ensures r.Ok? ==>
                trace == old(trace) + [Finalise(ByRowid(internalId), MarkDead(error), worker, lease, clock)]
    {
      SucceedsByRowid(outbox, internalId, MarkDead(error), worker, lease, clock);
      r := FinaliseOutbox(ByRowid(internalId), MarkDead(error), worker, lease, clock);
    }

    method RecoverExpiredProcessing(now: Instant) returns (count: nat)
      requires Valid()
      modifies this
      ensures Valid() && decisions == old(decisions)
      ensures outbox == Recovered(old(outbox), now)
      ensures |outbox| == |old(outbox)|
      ensures forall i :: 0 <= i < |outbox| ==>
                if TimeIsUp(old(outbox)[i], now) then IsRecovered(old(outbox)[i], outbox[i], now)
                else outbox[i] == old(outbox)[i]
      ensures count == |set i: nat | i < |old(outbox)| && TimeIsUp(old(outbox)[i], now)|
      ensures trace == old(trace) + [Recover(now)]
    {
      count := |set i: nat | i < |outbox| && Expired(outbox[i], now)|;
      assert (set i: nat | i < |outbox| && TimeIsUp(outbox[i], now))
        == set i: nat | i < |outbox| && Expired(outbox[i], now);
      SingleStep(Sys(), Recover(now));
      RecoveredMeans(outbox, now);
      outbox := Recovered(outbox, now);
      Record([Recover(now)]);
    }
  }
}
