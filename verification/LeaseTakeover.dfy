/** The answers of the in-memory outbox in the fields of its state, and what becomes of an
    event whose holder is gone. */
module LeaseTakeover {
  import opened Wrappers
  import opened Text
  import opened IsoTime
  import opened InMemoryOutbox

  // ---------------------------------------------------------------- answers

  predicate HasEvent(messages: seq<Message>, eventId: string)
  {
    exists i :: 0 <= i < |messages| && messages[i].eventId == eventId
  }

  predicate HasKey(messages: seq<Message>, key: string)
  {
    exists i :: 0 <= i < |messages| && messages[i].key == key
  }

  /** `enqueue`: new exactly for an unknown key, a duplicate exactly for a stored message. */
  lemma EnqueueAnswers(b: Box, m: Message)
    requires BoxInv(b)
    ensures var (b', r) := Enqueued(b, m);
            && (r == Ok(true) <==> !HasKey(b.messages, m.key))
            && (r == Ok(false) <==> m in b.messages)
            && (r == Err(KeyCollision) <==> HasKey(b.messages, m.key) && m !in b.messages)
            && b' == (if r == Ok(true) then b.(messages := b.messages + [m]) else b)
  {
    if m in b.messages {
      var i :| 0 <= i < |b.messages| && b.messages[i] == m;
      OnePlacePerKey(b.messages, i, IndexOfKey(b.messages, m.key).value);
    }
  }

  /** `acquire_lease`: a lease is granted exactly when the arguments are proper, the event is
      stored and no lease on record lasts past `at`; it is then the lease on record. */
  lemma AcquireAnswers(b: Box, e: string, owner: string, at: Instant, until: Instant)
    ensures var (b', r) := Acquired(b, e, owner, at, until);
            var proper := !Blank(e) && !Blank(owner) && at < until;
            var leased := e in b.leases && at < b.leases[e].expiresAt;
            && (r == Err(ValueError) <==> !proper)
            && (r == Err(EventNotFound) <==> proper && !HasEvent(b.messages, e))
            && (r == Ok(None) <==> proper && HasEvent(b.messages, e) && leased)
            && (r.Ok? && r.value.Some? <==> proper && HasEvent(b.messages, e) && !leased)
            && b'.messages == b.messages
            && (if r.Ok? && r.value.Some? then
                  var lease := r.value.value;
                  && lease.eventId == e && lease.owner == owner && lease.acquiredAt == at && lease.expiresAt == until
                  && lease.token == "lease-" + Decimal(b.sequence + 1) && b'.sequence == b.sequence + 1
                  && b'.leases == b.leases[e := lease]
                else
                  b'.leases == b.leases
                  && b'.sequence == b.sequence + if Blank(e) || Blank(owner) then 0 else 1)
  {
    hide Decimal;
  }

  /** The lease that an acquisition grants. */
  ghost predicate Grants(b: Box, e: string, owner: string, at: Instant, until: Instant)
  {
    var r := Acquired(b, e, owner, at, until).1;
    r.Ok? && r.value.Some?
  }

  lemma GrantedToken(b: Box, e: string, owner: string, at: Instant, until: Instant)
    requires Grants(b, e, owner, at, until)
    ensures Acquired(b, e, owner, at, until).1.value.value.token == TokenText(b.sequence + 1)
  {
  }

  lemma NewerToken(before: Box, other: string, sequence: nat)
    requires other in before.leases && LeaseSound(before, other) && before.sequence <= sequence
    ensures before.leases[other].token != TokenText(sequence + 1)
  {
    hide TokenText;
    var n :| 1 <= n <= before.sequence && before.leases[other].token == TokenText(n);
    if TokenText(n) == TokenText(sequence + 1) { TokenTextInjective(n, sequence + 1); }
  }

  /** The token of a granted lease was never on record before, for any event. */
  lemma TokenIsNew(ops: seq<Op>, k: nat, e: string, owner: string, at: Instant, until: Instant, other: string)
    requires k <= |ops| && Grants(AfterAll(EMPTY, ops), e, owner, at, until)
    requires other in AfterAll(EMPTY, ops[..k]).leases
    ensures AfterAll(EMPTY, ops[..k]).leases[other].token
            != Acquired(AfterAll(EMPTY, ops), e, owner, at, until).1.value.value.token
  {
    hide TokenText, AfterAll, Acquired, LeaseSound;
    var before, b := AfterAll(EMPTY, ops[..k]), AfterAll(EMPTY, ops);
    RunKeepsBoxInv(EMPTY, ops[..k]);
    RunInTwo(EMPTY, ops, k);
    RunKeepsMessages(before, ops[k..]);
    NewerToken(before, other, b.sequence);
    GrantedToken(b, e, owner, at, until);
  }

  lemma {:induction false} RunInTwo(b: Box, ops: seq<Op>, k: nat)
    requires k <= |ops|
    ensures AfterAll(b, ops) == AfterAll(AfterAll(b, ops[..k]), ops[k..])
    decreases k
  {
    if k == 0 {
      assert ops[..0] == [] && ops[0..] == ops;
    } else {
      RunInTwo(After(b, ops[0]), ops[1..], k - 1);
      assert ops[..k][1..] == ops[1..][..k - 1] && ops[1..][k - 1..] == ops[k..];
    }
  }

  /** The first message of an event was delivered, and no other message changed. */
  predicate DeliversFirst(messages: seq<Message>, messages': seq<Message>, e: string)
  {
    |messages'| == |messages| &&
    forall i :: 0 <= i < |messages| ==>
      messages'[i] ==
        if messages[i].eventId == e && (forall j :: 0 <= j < i ==> messages[j].eventId != e)
        then messages[i].(status := DELIVERED) else messages[i]
  }

  /** `mark_delivered`: exactly the lease on record delivers; a reachable outbox never misses the
      event of a lease. */
  lemma DeliverAnswers(b: Box, e: string, lease: Lease)
    requires BoxInv(b)
    ensures var (b', r) := MarkedDelivered(b, e, lease);
            && (r == Err(ValueError) <==> Blank(e) || lease.eventId != e)
            && (r == Ok(()) <==> !Blank(e) && e in b.leases && b.leases[e] == lease)
            && (r == Err(NotOwner) <==>
                  !Blank(e) && lease.eventId == e && !(e in b.leases && b.leases[e] == lease))
            && (if r.Ok? then DeliversFirst(b.messages, b'.messages, e) else b' == b)
  {
    DeliveryNeedsTheCurrentLease(b, e, lease);
    if Owns(b, e, lease) { assert LeaseSound(b, e); }
  }

  /** The first message of the event is still pending. */
  ghost predicate IsPending(messages: seq<Message>, e: string)
  {
    exists i: nat :: IsFirstOf(messages, e, i) && messages[i].status == PENDING
  }

  predicate IsFirstOf(messages: seq<Message>, e: string, i: nat)
  {
    i < |messages| && messages[i].eventId == e && forall j :: 0 <= j < i ==> messages[j].eventId != e
  }

  lemma OneFirst(messages: seq<Message>, e: string, i: nat, k: nat)
    requires IsFirstOf(messages, e, i) && IsFirstOf(messages, e, k)
    ensures i == k
  {
  }

  /** The delivery of a pending message gives up the lease; a repeated one keeps it. */
  lemma DeliveryConsumesLease(b: Box, e: string, lease: Lease)
    requires BoxInv(b)
    ensures var (b', r) := MarkedDelivered(b, e, lease);
            && b'.leases == (if r.Ok? && IsPending(b.messages, e) then b.leases - {e} else b.leases)
            && b'.sequence == b.sequence
  {
    hide BoxInv, Blank, IndexOfEvent;
    var at := IndexOfEvent(b.messages, e);
    if at.Some? {
      forall k: nat | IsFirstOf(b.messages, e, k) ensures k == at.value { OneFirst(b.messages, e, at.value, k); }
    }
  }

  /** `release_lease`: the lease on record, and only that, is given back. */
  lemma ReleaseAnswers(b: Box, lease: Lease)
    ensures var e, b' := lease.eventId, Released(b, lease);
            && b'.messages == b.messages && b'.sequence == b.sequence
            && (forall f :: f in b'.leases <==> f in b.leases && (f != e || b.leases[f] != lease))
            && forall f :: f in b'.leases ==> b'.leases[f] == b.leases[f]
  {
  }

  // ---------------------------------------------------------------- takeover

  /** Once the lease on record, if any, has run out, every worker that asks gets a lease, that
      lease delivers the event, and the former one no longer does. Nobody has to give the
      former lease back. */
  lemma TakeoverFrom(b: Box, e: string, owner: string, at: Instant, until: Instant)
    requires BoxInv(b) && !Blank(e) && !Blank(owner) && at < until && HasEvent(b.messages, e)
    requires e in b.leases ==> b.leases[e].expiresAt <= at
    ensures var b' := After(b, DoAcquire(e, owner, at, until));
            && e in b'.leases && b'.leases[e].owner == owner && b'.leases[e].expiresAt == until
            && MarkedDelivered(b', e, b'.leases[e]).1 == Ok(())
            && DeliversFirst(b.messages, MarkedDelivered(b', e, b'.leases[e]).0.messages, e)
            && (e in b.leases ==> MarkedDelivered(b', e, b.leases[e]) == (b', Err(NotOwner)))
  {
    var b' := After(b, DoAcquire(e, owner, at, until));
    StepKeepsBoxInv(b, DoAcquire(e, owner, at, until));
    AcquireAnswers(b, e, owner, at, until);
    GrantedToken(b, e, owner, at, until);
    if e in b.leases { assert LeaseSound(b, e); }
    hide TokenText, DeliversFirst, Acquired, BoxInv, MarkedDelivered, LeaseSound, HasEvent;
    DeliverAnswers(b', e, b'.leases[e]);
    if e in b.leases {
      NewerToken(b, e, b.sequence);
      DeliverAnswers(b', e, b.leases[e]);
    }
  }

  /** So after any run of the outbox. */
  lemma Takeover(ops: seq<Op>, e: string, owner: string, at: Instant, until: Instant)
    requires !Blank(e) && !Blank(owner) && at < until
    requires var b := AfterAll(EMPTY, ops);
             HasEvent(b.messages, e) && (e in b.leases ==> b.leases[e].expiresAt <= at)
    ensures var b := AfterAll(EMPTY, ops);
            var b' := After(b, DoAcquire(e, owner, at, until));
            && e in b'.leases && b'.leases[e].owner == owner && b'.leases[e].expiresAt == until
            && MarkedDelivered(b', e, b'.leases[e]).1 == Ok(())
            && DeliversFirst(b.messages, MarkedDelivered(b', e, b'.leases[e]).0.messages, e)
            && (e in b.leases ==> MarkedDelivered(b', e, b.leases[e]) == (b', Err(NotOwner)))
  {
    RunKeepsBoxInv(EMPTY, ops);
    hide After, DeliversFirst, MarkedDelivered, BoxInv, HasEvent, AfterAll;
    TakeoverFrom(AfterAll(EMPTY, ops), e, owner, at, until);
  }
}
