/** The in-memory outbox and its lease repository. The `_messages` dictionary is a sequence
    in insertion order with one entry per idempotency key. */
module InMemoryOutbox {
  import opened Wrappers
  import opened Text
  import opened IsoTime
  import opened Domain

  datatype OutboxStatus = PENDING | DELIVERED

  datatype Message = Message(eventId: string, key: string, context: DecisionContext,
                             decision: FinalDecision, createdAt: Instant, status: OutboxStatus)

  datatype Lease = Lease(eventId: string, token: string, owner: string, acquiredAt: Instant, expiresAt: Instant)

  /** The state shared by both repositories. */
  datatype Box = Box(messages: seq<Message>, leases: map<string, Lease>, sequence: nat)

  datatype OutboxError = ValueError | KeyCollision | NotOwner | EventNotFound

  // ---------------------------------------------------------------- operations

  function IndexOfKey(messages: seq<Message>, key: string): (r: Option<nat>)
    ensures r.Some? ==> r.value < |messages| && messages[r.value].key == key
    ensures r.None? <==> forall i :: 0 <= i < |messages| ==> messages[i].key != key
  {
    if |messages| == 0 then None
    else if messages[0].key == key then Some(0)
    else
      var r := IndexOfKey(messages[1..], key);
      assert forall i :: 1 <= i < |messages| ==> messages[i] == messages[1..][i - 1];
      match r case None => None case Some(i) => Some(i + 1)
  }

  /** The first message with this event id; event ids need not be distinct. */
  function IndexOfEvent(messages: seq<Message>, eventId: string): (r: Option<nat>)
    ensures r.Some? ==> r.value < |messages| && messages[r.value].eventId == eventId
    ensures r.Some? ==> forall i :: 0 <= i < r.value ==> messages[i].eventId != eventId
    ensures r.None? <==> forall i :: 0 <= i < |messages| ==> messages[i].eventId != eventId
  {
    if |messages| == 0 then None
    else if messages[0].eventId == eventId then Some(0)
    else
      var r := IndexOfEvent(messages[1..], eventId);
      assert forall i :: 1 <= i < |messages| ==> messages[i] == messages[1..][i - 1];
      match r case None => None case Some(i) => Some(i + 1)
  }

  function Enqueued(b: Box, m: Message): (Box, Result<bool, OutboxError>)
  {
    match IndexOfKey(b.messages, m.key)
    case Some(i) => (b, if b.messages[i] != m then Err(KeyCollision) else Ok(false))
    case None => (b.(messages := b.messages + [m]), Ok(true))
  }

  predicate Owns(b: Box, eventId: string, lease: Lease)
  {
    eventId in b.leases && b.leases[eventId] == lease
  }

  function MarkedDelivered(b: Box, eventId: string, lease: Lease): (Box, Result<(), OutboxError>)
  {
    if Blank(eventId) || lease.eventId != eventId then (b, Err(ValueError))
    else if !Owns(b, eventId, lease) then (b, Err(NotOwner))
    else
      match IndexOfEvent(b.messages, eventId)
      case None => (b, Err(EventNotFound))
      case Some(i) =>
        if b.messages[i].status == DELIVERED then (b, Ok(()))
        else (b.(messages := b.messages[i := b.messages[i].(status := DELIVERED)], leases := b.leases - {eventId}),
          Ok(()))
  }

  /** `f"lease-{n}"`. */
  function TokenText(n: nat): string
  {
    "lease-" + Decimal(n)
  }

  /** A drawn token counts even when the acquisition then fails. */
  function Acquired(b: Box, eventId: string, owner: string, at: Instant, until: Instant)
    : (Box, Result<Option<Lease>, OutboxError>)
  {
    if Blank(eventId) || Blank(owner) then (b, Err(ValueError))
    else
      var drawn := b.(sequence := b.sequence + 1);
      var candidate := Lease(eventId, TokenText(b.sequence + 1), owner, at, until);
      if until <= at then (drawn, Err(ValueError))
      else if IndexOfEvent(b.messages, eventId).None? then (drawn, Err(EventNotFound))
      else if eventId in b.leases && at < b.leases[eventId].expiresAt then (drawn, Ok(None))
      else (drawn.(leases := b.leases[eventId := candidate]), Ok(Some(candidate)))
  }

  function Released(b: Box, lease: Lease): Box
  {
    if Owns(b, lease.eventId, lease) then b.(leases := b.leases - {lease.eventId}) else b
  }

  // ---------------------------------------------------------------- classes

  class InMemoryOutboxRepository {
    var messages: seq<Message>
    var leases: map<string, Lease>
    var sequence: nat

    function State(): Box
      reads this
    {
      Box(messages, leases, sequence)
    }

    constructor ()
      ensures State() == Box([], map[], 0)
    {
      messages, leases, sequence := [], map[], 0;
    }

    method Enqueue(m: Message) returns (r: Result<bool, OutboxError>)
      modifies this
      ensures (State(), r) == Enqueued(old(State()), m)
    {
      var existing := IndexOfKey(messages, m.key);
      if existing.Some? {
        if messages[existing.value] != m {
          return Err(KeyCollision);
        }
        return Ok(false);
      }
      messages := messages + [m];
      r := Ok(true);
    }

    method MarkDelivered(eventId: string, lease: Lease) returns (r: Result<(), OutboxError>)
      modifies this
      ensures (State(), r) == MarkedDelivered(old(State()), eventId, lease)
    {
      if Blank(eventId) || lease.eventId != eventId {
        return Err(ValueError);
      }
      if eventId !in leases || leases[eventId] != lease {
        return Err(NotOwner);
      }
      var index := IndexOfEvent(messages, eventId);
      if index.None? {
        return Err(EventNotFound);
      }
      var message := messages[index.value];
      if message.status == DELIVERED {
        return Ok(());
      }
      messages := messages[index.value := message.(status := DELIVERED)];
      leases := leases - {eventId};
      r := Ok(());
    }
  }

  class InMemoryOutboxLeaseRepository {
    const outbox: InMemoryOutboxRepository

    constructor (outbox: InMemoryOutboxRepository)
      ensures this.outbox == outbox
    {
      this.outbox := outbox;
    }

    method AcquireLease(eventId: string, owner: string, at: Instant, until: Instant)
      returns (r: Result<Option<Lease>, OutboxError>)
      modifies outbox
      ensures (outbox.State(), r) == Acquired(old(outbox.State()), eventId, owner, at, until)
      ensures r.Ok? && r.value.Some? <==>
                && !Blank(eventId) && !Blank(owner) && at < until
                && (exists i :: 0 <= i < |old(outbox.messages)| && old(outbox.messages)[i].eventId == eventId)
                && (eventId in old(outbox.leases) ==> old(outbox.leases)[eventId].expiresAt <= at)
    {
      if Blank(eventId) || Blank(owner) {
        return Err(ValueError);
      }
      outbox.sequence := outbox.sequence + 1;
      var candidate := Lease(eventId, TokenText(outbox.sequence), owner, at, until);
      if until <= at {
        return Err(ValueError);
      }
      if IndexOfEvent(outbox.messages, eventId).None? {
        return Err(EventNotFound);
      }
      if eventId in outbox.leases && at < outbox.leases[eventId].expiresAt {
        return Ok(None);
      }
      outbox.leases := outbox.leases[eventId := candidate];
      r := Ok(Some(candidate));
    }

    method ReleaseLease(lease: Lease)
      modifies outbox
      ensures outbox.State() == Released(old(outbox.State()), lease)
    {
      if lease.eventId in outbox.leases && outbox.leases[lease.eventId] == lease {
        outbox.leases := outbox.leases - {lease.eventId};
      }
    }
  }

  // ---------------------------------------------------------------- runs

  datatype Op =
    | DoEnqueue(message: Message)
    | DoDeliver(eventId: string, lease: Lease)
    | DoAcquire(eventId: string, owner: string, at: Instant, until: Instant)
    | DoRelease(lease: Lease)

  function After(b: Box, op: Op): Box
  {
    match op
    case DoEnqueue(m) => Enqueued(b, m).0
    case DoDeliver(e, lease) => MarkedDelivered(b, e, lease).0
    case DoAcquire(e, owner, at, until) => Acquired(b, e, owner, at, until).0
    case DoRelease(lease) => Released(b, lease)
  }

  function AfterAll(b: Box, ops: seq<Op>): Box
    decreases |ops|
  {
    if |ops| == 0 then b else AfterAll(After(b, ops[0]), ops[1..])
  }

  /** Leases stand under their own event, run forward in time, and lease a stored message;
      their tokens were drawn from the counter. */
  ghost predicate LeaseSound(b: Box, e: string)
    requires e in b.leases
  {
    var lease := b.leases[e];
    && lease.eventId == e && lease.acquiredAt < lease.expiresAt
    && IndexOfEvent(b.messages, e).Some?
    && exists n :: 1 <= n <= b.sequence && lease.token == TokenText(n)
  }

  predicate DistinctMessageKeys(messages: seq<Message>)
  {
    forall i, j :: 0 <= i < j < |messages| ==> messages[i].key != messages[j].key
  }

  ghost predicate BoxInv(b: Box)
  {
    DistinctMessageKeys(b.messages) && forall e :: e in b.leases ==> LeaseSound(b, e)
  }

  const EMPTY: Box := Box([], map[], 0)

  /** Messages are never dropped or reordered; only their status moves, to DELIVERED. */
  ghost predicate MessagesKept(b: Box, b': Box)
  {
    && |b.messages| <= |b'.messages| && b.sequence <= b'.sequence
    && forall i :: 0 <= i < |b.messages| ==>
         && b'.messages[i].(status := b.messages[i].status) == b.messages[i]
         && (b.messages[i].status == DELIVERED ==> b'.messages[i].status == DELIVERED)
  }

  lemma StepKeepsMessages(b: Box, op: Op)
    ensures MessagesKept(b, After(b, op))
  {
  }

  lemma KeptMessagesKeepEvents(b: Box, b': Box, e: string)
    requires MessagesKept(b, b') && IndexOfEvent(b.messages, e).Some?
    ensures IndexOfEvent(b'.messages, e).Some?
  {
    var i := IndexOfEvent(b.messages, e).value;
    assert b'.messages[i].eventId == e;
  }

  /** The lease of an event after a step: the one before, none, or the one just granted, and
      a lease is only replaced once it has run out. */
  lemma LeaseChange(b: Box, op: Op, e: string)
    requires e in After(b, op).leases
    ensures var lease := After(b, op).leases[e];
            || Owns(b, e, lease)
            || (&& op.DoAcquire? && op.eventId == e && op.at < op.until
                && lease == Lease(e, TokenText(b.sequence + 1), op.owner, op.at, op.until)
                && After(b, op).sequence == b.sequence + 1
                && IndexOfEvent(b.messages, e).Some?
                && (e in b.leases ==> b.leases[e].expiresAt <= op.at))
  {
  }

  lemma StepKeepsKeys(b: Box, op: Op)
    requires DistinctMessageKeys(b.messages)
    ensures DistinctMessageKeys(After(b, op).messages)
  {
  }

  lemma StepKeepsBoxInv(b: Box, op: Op)
    requires BoxInv(b)
    ensures BoxInv(After(b, op))
  {
    var b' := After(b, op);
    StepKeepsKeys(b, op);
    StepKeepsMessages(b, op);
    forall e | e in b'.leases ensures LeaseSound(b', e) {
      LeaseChange(b, op, e);
      KeptMessagesKeepEvents(b, b', e);
      if Owns(b, e, b'.leases[e]) {
        assert LeaseSound(b, e);
        var n :| 1 <= n <= b.sequence && b.leases[e].token == TokenText(n);
        assert 1 <= n <= b'.sequence && b'.leases[e].token == TokenText(n);
      }
    }
  }

  lemma {:induction false} RunKeepsBoxInv(b: Box, ops: seq<Op>)
    requires BoxInv(b)
    ensures BoxInv(AfterAll(b, ops)) && MessagesKept(b, AfterAll(b, ops))
    decreases |ops|
  {
    if |ops| > 0 {
      StepKeepsBoxInv(b, ops[0]);
      StepKeepsMessages(b, ops[0]);
      RunKeepsBoxInv(After(b, ops[0]), ops[1..]);
    }
  }

  /** Over any run: keys stay distinct, every leased event exists, and delivered messages
      stay delivered with every other field unchanged. */
  lemma OutboxOverRuns(before: seq<Op>, after: seq<Op>)
    ensures var b := AfterAll(EMPTY, before);
            BoxInv(b) && BoxInv(AfterAll(b, after)) && MessagesKept(b, AfterAll(b, after))
  {
    RunKeepsBoxInv(EMPTY, before);
    RunKeepsBoxInv(AfterAll(EMPTY, before), after);
  }

  /** A lease and the one that replaces it cover disjoint times, the later one later. */
  lemma ReplacementIsDisjoint(b: Box, op: Op, e: string, t: Instant)
    requires e in b.leases && e in After(b, op).leases && After(b, op).leases[e] != b.leases[e]
    ensures var former, latter := b.leases[e], After(b, op).leases[e];
            && former.expiresAt <= latter.acquiredAt
            && !(former.acquiredAt <= t < former.expiresAt && latter.acquiredAt <= t < latter.expiresAt)
  {
    LeaseChange(b, op, e);
  }

  // ---------------------------------------------------------------- spent tokens

  /** Token number `n` was drawn and does not lease the event. */
  predicate Spent(b: Box, e: string, n: nat)
  {
    n <= b.sequence && (e in b.leases ==> b.leases[e].token != TokenText(n))
  }

  lemma TokenTextInjective(m: nat, n: nat)
    requires TokenText(m) == TokenText(n)
    ensures m == n
  {
    assert TokenText(m)[|"lease-"|..] == Decimal(m) && TokenText(n)[|"lease-"|..] == Decimal(n);
    DecimalInjective(m, n);
  }

  lemma {:induction false} SpentStaysSpent(b: Box, ops: seq<Op>, e: string, n: nat)
    requires Spent(b, e, n)
    ensures Spent(AfterAll(b, ops), e, n)
    decreases |ops|
  {
    if |ops| > 0 {
      var b' := After(b, ops[0]);
      StepKeepsMessages(b, ops[0]);
      if e in b'.leases {
        LeaseChange(b, ops[0], e);
        if b'.leases[e].token == TokenText(n) && !Owns(b, e, b'.leases[e]) {
          TokenTextInjective(n, b.sequence + 1);
        }
      }
      SpentStaysSpent(b', ops[1..], e, n);
    }
  }

  /** A lease that was replaced, released or consumed never owns its event again: it can
      neither deliver nor release anything in any later state. */
  lemma LostLeaseNeverReturns(b: Box, op: Op, ops: seq<Op>, e: string)
    requires BoxInv(b) && e in b.leases && !Owns(After(b, op), e, b.leases[e])
    ensures var later := AfterAll(After(b, op), ops);
            && !Owns(later, e, b.leases[e])
            && MarkedDelivered(later, e, b.leases[e]) == (later, Err(if Blank(e) then ValueError else NotOwner))
            && Released(later, b.leases[e]) == later
  {
    assert LeaseSound(b, e);
    var n :| 1 <= n <= b.sequence && b.leases[e].token == TokenText(n);
    var b' := After(b, op);
    StepKeepsMessages(b, op);
    if e in b'.leases {
      LeaseChange(b, op, e);
      if b'.leases[e].token == TokenText(n) { TokenTextInjective(n, b.sequence + 1); }
    }
    SpentStaysSpent(b', ops, e, n);
  }

  // ---------------------------------------------------------------- delivery

  /** In reachable states a delivery succeeds exactly for the lease on record. No clock is
      consulted, so an expired lease that nobody replaced still delivers. */
  lemma DeliveryNeedsTheCurrentLease(b: Box, e: string, lease: Lease)
    requires BoxInv(b)
    ensures MarkedDelivered(b, e, lease).1.Ok? <==> !Blank(e) && Owns(b, e, lease)
    ensures MarkedDelivered(b, e, lease).1.Ok? ==>
              var i := IndexOfEvent(b.messages, e);
              i.Some? && MarkedDelivered(b, e, lease).0.messages
                == b.messages[i.value := b.messages[i.value].(status := DELIVERED)]
    ensures MarkedDelivered(b, e, lease).1.Err? ==> MarkedDelivered(b, e, lease).0 == b
  {
    if Owns(b, e, lease) {
      assert LeaseSound(b, e);
      var i := IndexOfEvent(b.messages, e).value;
      assert b.messages[i].status == DELIVERED ==> b.messages[i := b.messages[i].(status := DELIVERED)] == b.messages;
    }
  }

  /** The storage contract wants no expired lease to deliver. At time `t` that holds of an
      event exactly when the lease on record, if any, has not run out. */
  lemma ExpiredDeliveryPossible(b: Box, e: string, t: Instant)
    requires BoxInv(b) && !Blank(e)
    ensures (exists lease: Lease :: lease.expiresAt <= t && MarkedDelivered(b, e, lease).1.Ok?)
            <==> e in b.leases && b.leases[e].expiresAt <= t
  {
    if e in b.leases {
      DeliveryNeedsTheCurrentLease(b, e, b.leases[e]);
    }
  }

  /** One that does: taken for one microsecond, it is still on record however much later it
      is used. */
  lemma ExpiredLeaseDelivers(context: DecisionContext, decision: FinalDecision)
    ensures var m := Message("e", "k", context, decision, 0, PENDING);
            var b := AfterAll(EMPTY, [DoEnqueue(m), DoAcquire("e", "w", 0, 1)]);
            "e" in b.leases && b.leases["e"].expiresAt == 1
            && MarkedDelivered(b, "e", b.leases["e"]).1 == Ok(())
            && MarkedDelivered(b, "e", b.leases["e"]).0.messages[0].status == DELIVERED
  {
    var m := Message("e", "k", context, decision, 0, PENDING);
    var b1 := After(EMPTY, DoEnqueue(m));
    assert b1.messages == [m];
    assert "e"[0] == 'e' && "w"[0] == 'w';
    var b2 := After(b1, DoAcquire("e", "w", 0, 1));
    assert AfterAll(b2, []) == b2;
    assert [DoEnqueue(m), DoAcquire("e", "w", 0, 1)][1..] == [DoAcquire("e", "w", 0, 1)];
    assert [DoAcquire("e", "w", 0, 1)][1..] == [];
    assert AfterAll(b1, [DoAcquire("e", "w", 0, 1)]) == b2;
  }

  lemma OnePlacePerKey(messages: seq<Message>, i: nat, j: nat)
    requires DistinctMessageKeys(messages) && i < |messages| && j < |messages| && messages[i].key == messages[j].key
    ensures i == j
  {
  }

  /** Status is part of message equality: enqueueing an accepted message again is a duplicate
      exactly while its status is what it was, and a collision once it was delivered. */
  lemma ReenqueueAfterRun(b: Box, m: Message, ops: seq<Op>)
    requires BoxInv(b) && Enqueued(b, m).1 == Ok(true)
    ensures var later := AfterAll(Enqueued(b, m).0, ops);
            && |b.messages| < |later.messages|
            && Enqueued(later, m) == (later, if later.messages[|b.messages|].status == m.status then Ok(false)
                 else Err(KeyCollision))
  {
    var b' := Enqueued(b, m).0;
    StepKeepsBoxInv(b, DoEnqueue(m));
    RunKeepsBoxInv(b', ops);
    var later := AfterAll(b', ops);
    var i := |b.messages|;
    assert b'.messages[i] == m;
    assert later.messages[i].key == m.key;
    var j := IndexOfKey(later.messages, m.key).value;
    OnePlacePerKey(later.messages, i, j);
  }

  // ---------------------------------------------------------------- duplicate event ids

  /** Some earlier message has the event id of message `j`. */
  predicate Shadowed(messages: seq<Message>, j: nat)
    requires j < |messages|
  {
    exists i :: 0 <= i < j && messages[i].eventId == messages[j].eventId
  }

  lemma StepKeepsShadowed(b: Box, op: Op, j: nat)
    requires j < |b.messages| && Shadowed(b.messages, j)
    ensures j < |After(b, op).messages| && After(b, op).messages[j] == b.messages[j]
            && Shadowed(After(b, op).messages, j)
  {
    var i :| 0 <= i < j && b.messages[i].eventId == b.messages[j].eventId;
    StepKeepsMessages(b, op);
    assert After(b, op).messages[i].eventId == b.messages[i].eventId;
  }

  /** `enqueue` accepts a second message of an event under another key; delivery looks the
      event up and always finds the first. */
  lemma {:induction false} ShadowedNeverChanges(b: Box, ops: seq<Op>, j: nat)
    requires j < |b.messages| && Shadowed(b.messages, j)
    ensures j < |AfterAll(b, ops).messages| && AfterAll(b, ops).messages[j] == b.messages[j]
    decreases |ops|
  {
    if |ops| > 0 {
      StepKeepsShadowed(b, ops[0], j);
      ShadowedNeverChanges(After(b, ops[0]), ops[1..], j);
    }
  }

  predicate DeliversMessage(b: Box, ops: seq<Op>, j: nat)
  {
    j < |AfterAll(b, ops).messages| && AfterAll(b, ops).messages[j].status == DELIVERED
  }

  /** Give back whatever lease stands, take one, and deliver under it. */
  function DeliveryRun(b: Box, e: string): seq<Op>
  {
    var lease := Lease(e, TokenText(b.sequence + 1), "w", 0, 1);
    [DoRelease(if e in b.leases then b.leases[e] else lease), DoAcquire(e, "w", 0, 1), DoDeliver(e, lease)]
  }

  lemma ThreeSteps(b: Box, x: Op, y: Op, z: Op)
    ensures AfterAll(b, [x, y, z]) == After(After(After(b, x), y), z)
  {
    assert [x, y, z][1..] == [y, z] && [y, z][1..] == [z] && [z][1..] == [];
    assert AfterAll(After(b, x), [y, z]) == AfterAll(After(After(b, x), y), [z]);
    assert AfterAll(After(After(b, x), y), [z]) == After(After(After(b, x), y), z);
  }

  /** The first step leaves the event without a lease. */
  lemma RunGivesBack(b: Box, e: string)
    requires BoxInv(b)
    ensures After(b, DeliveryRun(b, e)[0]) == b.(leases := b.leases - {e})
  {
    hide TokenText, Acquired, MarkedDelivered, Enqueued;
    if e in b.leases {
      assert LeaseSound(b, e);
    } else {
      assert b.leases - {e} == b.leases;
    }
  }

  /** After the first two steps the event is leased as planned, and no message has changed. */
  lemma RunTakesLease(b: Box, e: string)
    requires BoxInv(b) && !Blank(e) && IndexOfEvent(b.messages, e).Some?
    ensures var ops := DeliveryRun(b, e);
            var b2 := After(After(b, ops[0]), ops[1]);
            b2.messages == b.messages && Owns(b2, e, ops[2].lease)
  {
    hide TokenText, BoxInv, Released, MarkedDelivered, Enqueued, IndexOfEvent;
    RunGivesBack(b, e);
    assert "w"[0] == 'w';
  }

  lemma DeliveryRunDelivers(b: Box, j: nat)
    requires BoxInv(b) && j < |b.messages| && b.messages[j].status == PENDING && !Blank(b.messages[j].eventId)
    requires !Shadowed(b.messages, j)
    ensures DeliversMessage(b, DeliveryRun(b, b.messages[j].eventId), j)
  {
    hide TokenText, BoxInv, Blank, Acquired, Released;
    var e := b.messages[j].eventId;
    var ops := DeliveryRun(b, e);
    ThreeSteps(b, ops[0], ops[1], ops[2]);
    assert IndexOfEvent(b.messages, e) == Some(j);
    RunTakesLease(b, e);
  }

  /** A pending message can still be delivered, by some run, if and only if no earlier message
      has its event id. */
  lemma DeliverableIff(b: Box, j: nat)
    requires BoxInv(b) && j < |b.messages| && b.messages[j].status == PENDING && !Blank(b.messages[j].eventId)
    ensures (exists ops :: DeliversMessage(b, ops, j)) <==> !Shadowed(b.messages, j)
  {
    if Shadowed(b.messages, j) {
      forall ops ensures !DeliversMessage(b, ops, j) { ShadowedNeverChanges(b, ops, j); }
    } else {
      DeliveryRunDelivers(b, j);
    }
  }

  /** A delivered message enqueued again is a collision, in the run that delivers it. */
  lemma ReenqueueCollides(m: Message)
    requires m.status == PENDING && !Blank(m.eventId)
    ensures var b := After(EMPTY, DoEnqueue(m));
            var later := AfterAll(b, DeliveryRun(b, m.eventId));
            && Enqueued(b, m).1 == Ok(false)
            && Enqueued(later, m) == (later, Err(KeyCollision))
  {
    var b := After(EMPTY, DoEnqueue(m));
    assert b.messages == [m];
    StepKeepsBoxInv(EMPTY, DoEnqueue(m));
    DeliveryRunDelivers(b, 0);
    hide AfterAll, DeliveryRun, BoxInv;
    ReenqueueAfterRun(EMPTY, m, []);
    ReenqueueAfterRun(EMPTY, m, DeliveryRun(b, m.eventId));
  }

  // ---------------------------------------------------------------- distinct event ids

  predicate DistinctEventIds(messages: seq<Message>)
  {
    forall i, j :: 0 <= i < j < |messages| ==> messages[i].eventId != messages[j].eventId
  }

  /** What a caller can look up before enqueueing: the key is taken, or the event id is not. */
  predicate NoNewDuplicate(b: Box, op: Op)
  {
    op.DoEnqueue? ==> IndexOfKey(b.messages, op.message.key).Some? || IndexOfEvent(b.messages, op.message.eventId).None?
  }

  predicate NeverDuplicates(b: Box, ops: seq<Op>)
    decreases |ops|
  {
    |ops| == 0 || (NoNewDuplicate(b, ops[0]) && NeverDuplicates(After(b, ops[0]), ops[1..]))
  }

  lemma StepDuplicates(b: Box, op: Op)
    requires DistinctEventIds(b.messages)
    ensures DistinctEventIds(After(b, op).messages) <==> NoNewDuplicate(b, op)
  {
    StepKeepsMessages(b, op);
    var messages := After(b, op).messages;
    if op.DoEnqueue? && IndexOfKey(b.messages, op.message.key).None? {
      assert messages == b.messages + [op.message];
      var at := IndexOfEvent(b.messages, op.message.eventId);
      if at.Some? { assert messages[at.value].eventId == messages[|b.messages|].eventId; }
    } else {
      assert |messages| == |b.messages|;
      assert forall i :: 0 <= i < |messages| ==> messages[i].eventId == b.messages[i].eventId;
    }
  }

  lemma {:induction false} RunKeepsMessages(b: Box, ops: seq<Op>)
    ensures MessagesKept(b, AfterAll(b, ops))
    decreases |ops|
  {
    if |ops| > 0 {
      StepKeepsMessages(b, ops[0]);
      RunKeepsMessages(After(b, ops[0]), ops[1..]);
    }
  }

  lemma DuplicatesPersist(b: Box, b': Box)
    requires MessagesKept(b, b') && !DistinctEventIds(b.messages)
    ensures !DistinctEventIds(b'.messages)
  {
    var i, j :| 0 <= i < j < |b.messages| && b.messages[i].eventId == b.messages[j].eventId;
    assert b'.messages[i].eventId == b'.messages[j].eventId;
  }

  /** Event ids stay distinct if and only if every enqueue of the run, when it was made, met a
      key already taken or an event id not yet stored. */
  lemma {:induction false} EventIdsDistinctIff(b: Box, ops: seq<Op>)
    requires DistinctEventIds(b.messages)
    ensures DistinctEventIds(AfterAll(b, ops).messages) <==> NeverDuplicates(b, ops)
    decreases |ops|
  {
    if |ops| > 0 {
      hide After, DistinctEventIds, NoNewDuplicate, MessagesKept;
      var b' := After(b, ops[0]);
      StepDuplicates(b, ops[0]);
      if NoNewDuplicate(b, ops[0]) {
        EventIdsDistinctIff(b', ops[1..]);
      } else {
        RunKeepsMessages(b', ops[1..]);
        DuplicatesPersist(b', AfterAll(b', ops[1..]));
      }
    }
  }

  /** A duplicate is accepted: any message, and the same one under another key. */
  lemma DuplicateAccepted(m: Message, key: string)
    requires key != m.key
    ensures var n := m.(key := key);
            var b := AfterAll(EMPTY, [DoEnqueue(m), DoEnqueue(n)]);
            && Enqueued(After(EMPTY, DoEnqueue(m)), n).1 == Ok(true)
            && b.messages == [m, n] && Shadowed(b.messages, 1)
  {
    var n := m.(key := key);
    var first := After(EMPTY, DoEnqueue(m));
    assert first.messages == [m];
    var both := After(first, DoEnqueue(n));
    assert both.messages == [m, n] && both.messages[0].eventId == both.messages[1].eventId;
    assert [DoEnqueue(m), DoEnqueue(n)][1..] == [DoEnqueue(n)];
    assert [DoEnqueue(n)][1..] == [];
    assert AfterAll(first, [DoEnqueue(n)]) == AfterAll(both, []);
  }
}
