/** What the answers of concurrent `persist` calls mean, over every run. */
module PersistRuns {
  import opened Domain
  import opened Decisions
  import opened OutboxSystem

  /** An accepted request stands in the ledger under its key, and nothing else does. */
  lemma {:induction false} LedgerHoldsAccepted(log: seq<Entry>)
    requires Linear(log)
    ensures forall k :: 0 <= k < |log| && log[k].outcome == New ==>
              log[k].request.key in LedgerOf(log) && LedgerOf(log)[log[k].request.key] == log[k].request
    ensures forall key :: key in LedgerOf(log) ==>
              exists k :: 0 <= k < |log| && log[k].outcome == New && log[k].request == LedgerOf(log)[key]
                && log[k].request.key == key
    decreases |log|
  {
    if |log| > 0 {
      var n := |log| - 1;
      var before := log[..n];
      forall k | 0 <= k < n ensures LinearAt(before, k) {
        assert LinearAt(log, k);
        assert log[..k] == before[..k];
      }
      LedgerHoldsAccepted(before);
      assert LinearAt(log, n);
      var m := LedgerOf(log);
      forall key | key in m
        ensures exists k :: && 0 <= k < |log| && log[k].outcome == New
                            && log[k].request == m[key] && log[k].request.key == key
      {
        if key in LedgerOf(before) && m[key] == LedgerOf(before)[key] {
          var k :| 0 <= k < n && before[k].outcome == New && before[k].request == LedgerOf(before)[key]
                   && before[k].request.key == key;
          assert log[k] == before[k];
        } else {
          assert log[n].outcome == New && log[n].request == m[key];
        }
      }
      forall k | 0 <= k < |log| && log[k].outcome == New
        ensures log[k].request.key in m && m[log[k].request.key] == log[k].request
      {
        if k < n { assert before[k] == log[k]; }
      }
    }
  }

  lemma LinearPrefix(log: seq<Entry>, n: nat)
    requires Linear(log) && n <= |log|
    ensures Linear(log[..n])
  {
    forall k | 0 <= k < n ensures LinearAt(log[..n], k) {
      assert LinearAt(log, k);
      assert log[..n][..k] == log[..k];
    }
  }

  /** An earlier call already had this request accepted. */
  ghost predicate AcceptedBefore(log: seq<Entry>, j: nat, r: Request)
    requires j <= |log|
  {
    exists i :: 0 <= i < j && log[i].outcome == New && log[i].request == r
  }

  ghost predicate KeyAcceptedBefore(log: seq<Entry>, j: nat, key: string)
    requires j <= |log|
  {
    exists i :: 0 <= i < j && log[i].outcome == New && log[i].request.key == key
  }

  ghost predicate EventAcceptedBefore(log: seq<Entry>, j: nat, eventId: string)
    requires j <= |log|
  {
    exists i :: 0 <= i < j && log[i].outcome == New && IsSignal(log[i].request) && EventIdOf(log[i].request) == eventId
  }

  lemma LedgerMeansAccepted(log: seq<Entry>, j: nat, r: Request)
    requires Linear(log) && j < |log|
    ensures var m := LedgerOf(log[..j]);
            && (r.key in m <==> KeyAcceptedBefore(log, j, r.key))
            && (r.key in m && m[r.key] == r <==> AcceptedBefore(log, j, r))
  {
    LinearPrefix(log, j);
    var before := log[..j];
    LedgerHoldsAccepted(before);
    assert forall i :: 0 <= i < j ==> before[i] == log[i];
    var m := LedgerOf(before);
    if r.key in m {
      var i :| 0 <= i < |before| && before[i].outcome == New && before[i].request == m[r.key]
        && before[i].request.key == r.key;
      assert log[i] == before[i];
    }
  }

  lemma LedgerMeansEventTaken(log: seq<Entry>, j: nat, r: Request)
    requires Linear(log) && j < |log| && IsSignal(r)
    ensures EventTaken(LedgerOf(log[..j]), r) <==> EventAcceptedBefore(log, j, EventIdOf(r))
  {
    LinearPrefix(log, j);
    var before := log[..j];
    LedgerHoldsAccepted(before);
    assert forall i :: 0 <= i < j ==> before[i] == log[i];
    var m := LedgerOf(before);
    if EventTaken(m, r) {
      var k :| k in m && IsSignal(m[k]) && EventIdOf(m[k]) == EventIdOf(r);
      var i :| 0 <= i < |before| && before[i].outcome == New && before[i].request == m[k] && before[i].request.key == k;
      assert log[i] == before[i];
    }
    if EventAcceptedBefore(log, j, EventIdOf(r)) {
      var i :| 0 <= i < j && log[i].outcome == New && IsSignal(log[i].request)
        && EventIdOf(log[i].request) == EventIdOf(r);
      assert before[i] == log[i];
      assert m[log[i].request.key] == log[i].request;
    }
  }

  /** The answer of log entry `j`, in terms of the entries before it. */
  lemma EntryMeans(log: seq<Entry>, j: nat)
    requires Linear(log) && j < |log|
    ensures var r := log[j].request;
            && (log[j].outcome == Replay <==> AcceptedBefore(log, j, r))
            && (log[j].outcome == KeyReused <==> KeyAcceptedBefore(log, j, r.key) && !AcceptedBefore(log, j, r))
            && (log[j].outcome == IntegrityFailure <==>
                  !KeyAcceptedBefore(log, j, r.key) && IsSignal(r) && EventAcceptedBefore(log, j, EventIdOf(r)))
            && (log[j].outcome == New <==>
                  !KeyAcceptedBefore(log, j, r.key) && !(IsSignal(r) && EventAcceptedBefore(log, j, EventIdOf(r))))
  {
    assert LinearAt(log, j);
    LedgerMeansAccepted(log, j, log[j].request);
    if IsSignal(log[j].request) { LedgerMeansEventTaken(log, j, log[j].request); }
  }

  // ---------------------------------------------------------------- calls

  /** Entry `k` of the log is the answer of call `id`. */
  predicate AnsweredAt(s: System, id: nat, k: nat)
  {
    k < |s.log| && s.log[k].id == id
  }

  predicate IsNew(s: System, id: nat)
  {
    IsFinished(s.calls, id) && s.calls[id].phase.outcome == New
  }

  /** Call `a` was accepted as new, and finished before call `b` did. */
  ghost predicate NewBefore(s: System, a: nat, b: nat)
  {
    IsNew(s, a) && exists k: nat, l: nat :: k < l && AnsweredAt(s, a, k) && AnsweredAt(s, b, l)
  }

  /** The one entry of a finished call, with its request and its answer. */
  lemma EntryOf(s: System, id: nat) returns (k: nat)
    requires CallsLogged(s.calls, s.log) && IsFinished(s.calls, id)
    ensures AnsweredAt(s, id, k) && forall l: nat :: AnsweredAt(s, id, l) ==> l == k
    ensures s.log[k] == Entry(id, s.calls[id].request, s.calls[id].phase.outcome)
  {
    assert HasEntry(s.log, id);
    k :| 0 <= k < |s.log| && s.log[k].id == id;
  }

  /** An accepted entry before that of call `b` is a new call that finished before it. */
  lemma NewEntryIsNewCall(s: System, b: nat, i: nat, j: nat)
    requires CallsLogged(s.calls, s.log) && i < j && AnsweredAt(s, b, j) && s.log[i].outcome == New
    ensures NewBefore(s, s.log[i].id, b) && s.calls[s.log[i].id].request == s.log[i].request
  {
    assert AnsweredAt(s, s.log[i].id, i);
  }

  lemma NewCallIsNewEntry(s: System, a: nat, b: nat, j: nat)
    requires CallsLogged(s.calls, s.log) && NewBefore(s, a, b) && AnsweredAt(s, b, j)
    ensures exists i :: 0 <= i < j && s.log[i] == Entry(a, s.calls[a].request, New)
  {
    var k: nat, l: nat :| k < l && AnsweredAt(s, a, k) && AnsweredAt(s, b, l);
    assert l == j;
    assert s.log[k] == Entry(a, s.calls[a].request, New);
  }

  ghost predicate RequestNewBefore(s: System, r: Request, b: nat)
  {
    exists a :: NewBefore(s, a, b) && s.calls[a].request == r
  }

  ghost predicate KeyNewBefore(s: System, key: string, b: nat)
  {
    exists a :: NewBefore(s, a, b) && s.calls[a].request.key == key
  }

  ghost predicate EventNewBefore(s: System, eventId: string, b: nat)
  {
    exists a :: NewBefore(s, a, b) && IsSignal(s.calls[a].request) && EventIdOf(s.calls[a].request) == eventId
  }

  lemma CallsAreEntries(s: System, b: nat, j: nat, r: Request)
    requires CallsLogged(s.calls, s.log) && AnsweredAt(s, b, j)
    ensures RequestNewBefore(s, r, b) <==> AcceptedBefore(s.log, j, r)
    ensures KeyNewBefore(s, r.key, b) <==> KeyAcceptedBefore(s.log, j, r.key)
    ensures EventNewBefore(s, EventIdOf(r), b) <==> EventAcceptedBefore(s.log, j, EventIdOf(r))
  {
    forall a | NewBefore(s, a, b) ensures exists i :: 0 <= i < j && s.log[i] == Entry(a, s.calls[a].request, New) {
      NewCallIsNewEntry(s, a, b, j);
    }
    forall i | 0 <= i < j && s.log[i].outcome == New
      ensures NewBefore(s, s.log[i].id, b) && s.calls[s.log[i].id].request == s.log[i].request
    {
      NewEntryIsNewCall(s, b, i, j);
    }
  }

  /** The answer of every finished call, in terms of the new calls that finished before it. */
  lemma AnswersMean(s: System, b: nat)
    requires Linear(s.log) && CallsLogged(s.calls, s.log) && IsFinished(s.calls, b)
    ensures var r, o := s.calls[b].request, s.calls[b].phase.outcome;
            && (o == Replay <==> RequestNewBefore(s, r, b))
            && (o == KeyReused <==> KeyNewBefore(s, r.key, b) && !RequestNewBefore(s, r, b))
            && (o == IntegrityFailure <==>
                  !KeyNewBefore(s, r.key, b) && IsSignal(r) && EventNewBefore(s, EventIdOf(r), b))
            && (o == New <==> !KeyNewBefore(s, r.key, b) && !(IsSignal(r) && EventNewBefore(s, EventIdOf(r), b)))
  {
    var j := EntryOf(s, b);
    hide NewBefore, RequestNewBefore, KeyNewBefore, EventNewBefore, Linear, CallsLogged, EventIdOf;
    CallsAreEntries(s, b, j, s.calls[b].request);
    EntryMeans(s.log, j);
  }

  lemma EarlierNewBlocks(s: System, a: nat, b: nat, i: nat, j: nat)
    requires Linear(s.log) && CallsLogged(s.calls, s.log) && i < j && AnsweredAt(s, a, i) && AnsweredAt(s, b, j)
    requires IsNew(s, a) && IsFinished(s.calls, b) && s.calls[a].request.key == s.calls[b].request.key
    ensures !IsNew(s, b)
    ensures s.calls[b].phase.outcome == if s.calls[a].request == s.calls[b].request then Replay else KeyReused
  {
    hide Linear, CallsLogged, EventNewBefore, EventIdOf;
    assert NewBefore(s, a, b);
    AnswersMean(s, b);
    OtherNewCalls(s, a, b, i, j);
  }

  /** Two different calls of one key are never both new, and a call that finishes after the
      new one of its key is a replay if it is identical and a collision if it is not. */
  lemma OneNewCallPerKey(s: System, a: nat, b: nat)
    requires Linear(s.log) && CallsLogged(s.calls, s.log) && a != b
    requires IsNew(s, a) && IsFinished(s.calls, b) && s.calls[a].request.key == s.calls[b].request.key
    ensures !IsNew(s, b)
    ensures NewBefore(s, a, b) ==>
              s.calls[b].phase.outcome == if s.calls[a].request == s.calls[b].request then Replay else KeyReused
  {
    var i := EntryOf(s, a);
    var j := EntryOf(s, b);
    if i < j {
      EarlierNewBlocks(s, a, b, i, j);
    } else {
      if IsNew(s, b) { EarlierNewBlocks(s, b, a, j, i); }
      if NewBefore(s, a, b) { NewCallIsEarlier(s, a, b, i, j); }
    }
  }

  lemma NewCallIsEarlier(s: System, a: nat, b: nat, i: nat, j: nat)
    requires CallsLogged(s.calls, s.log) && AnsweredAt(s, a, i) && AnsweredAt(s, b, j) && NewBefore(s, a, b)
    ensures i < j
  {
  }

  /** A replay repeats the one request accepted under its key. */
  lemma OtherNewCalls(s: System, a: nat, b: nat, i: nat, j: nat)
    requires Linear(s.log) && CallsLogged(s.calls, s.log) && i < j && AnsweredAt(s, a, i) && AnsweredAt(s, b, j)
    requires IsNew(s, a) && s.calls[a].request.key == s.calls[b].request.key
    ensures RequestNewBefore(s, s.calls[b].request, b) ==> s.calls[a].request == s.calls[b].request
  {
    if RequestNewBefore(s, s.calls[b].request, b) {
      CallsAreEntries(s, b, j, s.calls[b].request);
      LinearPrefix(s.log, j);
      LedgerHoldsAccepted(s.log[..j]);
      var k :| 0 <= k < j && s.log[k].outcome == New && s.log[k].request == s.calls[b].request;
      assert s.log[..j][k] == s.log[k] && s.log[..j][i] == s.log[i];
    }
  }

  lemma NewCallIsStored(s: System, a: nat)
    requires Inv(s) && IsNew(s, a)
    ensures var r := s.calls[a].request;
            r.key in s.db.decisions && DecisionMatches(s.db.decisions[r.key], r)
  {
    hide RowsInv, RowsRepresent, CallsSound, KeysNotBlank, Encode;
    LedgerHoldsAccepted(s.log);
    var k := EntryOf(s, a);
    assert s.log[k].outcome == New;
    assert DecisionMatches(s.db.decisions[s.calls[a].request.key], LedgerOf(s.log)[s.calls[a].request.key]);
  }

  lemma StoredKeyHasCall(s: System, key: string) returns (a: nat)
    requires Inv(s) && key in s.db.decisions
    ensures IsNew(s, a) && s.calls[a].request.key == key
  {
    hide RowsInv, RowsRepresent, CallsSound, KeysNotBlank, Encode;
    LedgerHoldsAccepted(s.log);
    var m := LedgerOf(s.log);
    var k :| 0 <= k < |s.log| && s.log[k].outcome == New && s.log[k].request == m[key] && s.log[k].request.key == key;
    a := s.log[k].id;
  }

  /** Per accepted key exactly one call is new, and the stored decision is that call's. */
  lemma AcceptedKeyHasItsCall(s: System, key: string)
    requires Inv(s)
    ensures key in s.db.decisions <==> exists a :: IsNew(s, a) && s.calls[a].request.key == key
    ensures forall a, b :: IsNew(s, a) && IsNew(s, b) && s.calls[a].request.key == s.calls[b].request.key ==> a == b
    ensures forall a :: IsNew(s, a) && s.calls[a].request.key == key ==>
              key in s.db.decisions && DecisionMatches(s.db.decisions[key], s.calls[a].request)
  {
    assert Linear(s.log) && CallsLogged(s.calls, s.log);
    hide PersistInv, RowsInv, CallsLogged, Linear, DecisionMatches;
    forall a | IsNew(s, a) && s.calls[a].request.key == key
      ensures key in s.db.decisions && DecisionMatches(s.db.decisions[key], s.calls[a].request)
    {
      NewCallIsStored(s, a);
    }
    if key in s.db.decisions { var a := StoredKeyHasCall(s, key); }
    forall a, b | IsNew(s, a) && IsNew(s, b) && s.calls[a].request.key == s.calls[b].request.key ensures a == b {
      if a != b { OneNewCallPerKey(s, a, b); }
    }
  }

  /** A finished call has one place in the log, and answered what the one-step reference
      answers to the requests accepted before that place. */
  ghost predicate CallIsAtomic(s: System, id: nat)
    requires IsFinished(s.calls, id)
  {
    exists k: nat :: && AnsweredAt(s, id, k) && (forall l: nat :: AnsweredAt(s, id, l) ==> l == k)
                     && s.log[k] == Entry(id, s.calls[id].request, s.calls[id].phase.outcome)
                     && s.calls[id].phase.outcome == AtomicPersist(LedgerOf(s.log[..k]), s.calls[id].request).1
  }

  /** Under any interleaving of the single reads and the insert transactions of any number of
      `persist` calls, with each other and with the outbox lifecycle, every finished call
      answered as one atomic step of the reference at its own place in the log, nothing but
      finished calls has such a place, no two calls of one key are new, and the tables hold
      exactly the accepted requests. */
  lemma CallsAreAtomic(events: seq<Event>)
    requires AllowedRun(INITIAL, events)
    ensures var s := Run(INITIAL, events);
            && Represents(s.db, LedgerOf(s.log))
            && (forall id :: IsFinished(s.calls, id) ==>
                  CallIsAtomic(s, id) && s.calls[id].phase.outcome in {New, Replay, KeyReused, IntegrityFailure})
            && (forall k :: 0 <= k < |s.log| ==> IsFinished(s.calls, s.log[k].id))
            && (forall a, b :: IsNew(s, a) && IsNew(s, b) && s.calls[a].request.key == s.calls[b].request.key
                 ==> a == b)
  {
    ReachableStatesReopen(events);
    var s := Run(INITIAL, events);
    AcceptedKeyHasItsCall(s, "");
    hide Represents, AtomicPersist, RowsInv;
    forall id | IsFinished(s.calls, id)
      ensures CallIsAtomic(s, id) && s.calls[id].phase.outcome in {New, Replay, KeyReused, IntegrityFailure}
    {
      var k := EntryOf(s, id);
      assert LinearAt(s.log, k);
      AtomicAnswers(LedgerOf(s.log[..k]), s.calls[id].request);
    }
  }

  lemma AtomicAnswers(m: Ledger, r: Request)
    ensures AtomicPersist(m, r).1 in {New, Replay, KeyReused, IntegrityFailure}
  {
  }

  /** Answers are final: a run only extends the log, and a finished call stays as it is. */
  lemma {:induction false} AnswersAreFinal(s: System, events: seq<Event>, id: nat)
    requires AllowedRun(s, events)
    ensures s.log <= Run(s, events).log
    ensures IsFinished(s.calls, id) ==> id in Run(s, events).calls && Run(s, events).calls[id] == s.calls[id]
    decreases |events|
  {
    if |events| > 0 {
      StepKeepsAnswers(s, events[0], id);
      hide Step, Allowed;
      AnswersAreFinal(Step(s, events[0]), events[1..], id);
    }
  }

  lemma StepKeepsAnswers(s: System, e: Event, id: nat)
    requires Allowed(s, e)
    ensures s.log <= Step(s, e).log
    ensures IsFinished(s.calls, id) ==> id in Step(s, e).calls && Step(s, e).calls[id] == s.calls[id]
  {
  }
}
