/** Decisions, the request to persist one, and its JSON encoding. */
module Domain {
  import opened Wrappers
  import opened Text
  import opened IsoTime

  datatype Direction = LONG | SHORT

  datatype DecisionStatus = SIGNAL | BLOCKED

  function Opposite(d: Direction): Direction
  {
    if d == LONG then SHORT else LONG
  }

  datatype DecisionContext = DecisionContext(decisionTime: Instant, referenceTime: Instant,
                                             snapshotId: string, configVersion: string)

  datatype SignalDecision = SignalDecision(signalId: string, direction: Direction, createdAt: Instant,
                                           snapshotId: string, configVersion: string, reasonCode: string)

  datatype FinalDecision = FinalDecision(status: DecisionStatus, signal: Option<SignalDecision>, reasonCode: string)

  /** `FinalDecision.__post_init__`. */
  predicate ValidFinal(d: FinalDecision)
  {
    if d.status == SIGNAL then d.signal.Some? && d.reasonCode == ""
    else d.signal.None? && !Blank(d.reasonCode)
  }

  datatype Request = Request(context: DecisionContext, decision: FinalDecision,
                             key: string, eventId: Option<string>)

  /** `PersistenceRequest.__post_init__`. */
  predicate ValidRequest(r: Request)
  {
    && ValidFinal(r.decision)
    && !Blank(r.key)
    && (r.eventId.Some? ==> !Blank(r.eventId.value))
  }

  /** `_event_id`: the explicit identifier, or one derived from the idempotency key. */
  function EventIdOf(r: Request): string
  {
    match r.eventId
    case Some(e) => e
    case None => "signal:" + r.key
  }

  lemma EventIdNotBlank(r: Request)
    requires ValidRequest(r)
    ensures !Blank(EventIdOf(r))
  {
    if r.eventId.None? {
      assert EventIdOf(r)[0] == 's';
    }
  }

  // ---------------------------------------------------------------- encoding

  /** The member names of an encoded request. */
  datatype Field =
    | CONFIG_VERSION | CONTEXT | CREATED_AT | DECISION | DECISION_TIME | DIRECTION | EVENT_ID
    | IDEMPOTENCY_KEY | REASON_CODE | REFERENCE_TIME | SIGNAL_MEMBER | SIGNAL_ID | SNAPSHOT_ID | STATUS

  /** An encoded value: object members in the sorted key order that `json.dumps` writes, enum
      members as their values, times as the instants whose `isoformat` text they become. */
  datatype Json =
    | JNull
    | JString(text: string)
    | JDirection(direction: Direction)
    | JStatus(status: DecisionStatus)
    | JTime(instant: Instant)
    | JObject(members: Members)

  datatype Members = End | Member(name: Field, value: Json, rest: Members)

  function JOption(s: Option<string>): Json
  {
    match s case None => JNull case Some(t) => JString(t)
  }

  function EncodeContext(c: DecisionContext): Json
  {
    JObject(Member(CONFIG_VERSION, JString(c.configVersion),
            Member(DECISION_TIME, JTime(c.decisionTime),
            Member(REFERENCE_TIME, JTime(c.referenceTime),
            Member(SNAPSHOT_ID, JString(c.snapshotId), End)))))
  }

  function EncodeSignal(s: SignalDecision): Json
  {
    JObject(Member(CONFIG_VERSION, JString(s.configVersion),
            Member(CREATED_AT, JTime(s.createdAt),
            Member(DIRECTION, JDirection(s.direction),
            Member(REASON_CODE, JString(s.reasonCode),
            Member(SIGNAL_ID, JString(s.signalId),
            Member(SNAPSHOT_ID, JString(s.snapshotId), End)))))))
  }

  function EncodeOptionalSignal(s: Option<SignalDecision>): Json
  {
    match s case None => JNull case Some(t) => EncodeSignal(t)
  }

  function EncodeDecision(d: FinalDecision): Json
  {
    JObject(Member(REASON_CODE, JString(d.reasonCode),
            Member(SIGNAL_MEMBER, EncodeOptionalSignal(d.signal),
            Member(STATUS, JStatus(d.status), End))))
  }

  /** `_json_payload(request)`, as the tree that `json.dumps` renders. */
  function Encode(r: Request): Json
  {
    JObject(Member(CONTEXT, EncodeContext(r.context),
            Member(DECISION, EncodeDecision(r.decision),
            Member(EVENT_ID, JOption(r.eventId),
            Member(IDEMPOTENCY_KEY, JString(r.key), End)))))
  }

  /** The tree determines the request; `PayloadText` carries this on to the text. */
  lemma EncodeInjective(a: Request, b: Request)
    ensures Encode(a) == Encode(b) <==> a == b
  {
  }

  /** What the constructors of a request accept. */
  lemma RequestAccepted(r: Request)
    ensures ValidRequest(r) <==>
              && (exists i :: 0 <= i < |r.key| && !IsSpace(r.key[i]))
              && (r.eventId.Some? ==> exists i :: 0 <= i < |r.eventId.value| && !IsSpace(r.eventId.value[i]))
              && (r.decision.status == SIGNAL ==> r.decision.signal.Some? && r.decision.reasonCode == "")
              && (r.decision.status == BLOCKED ==>
                    r.decision.signal.None?
                    && exists i :: 0 <= i < |r.decision.reasonCode| && !IsSpace(r.decision.reasonCode[i]))
  {
  }
}
