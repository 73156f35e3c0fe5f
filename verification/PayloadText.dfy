/** The encoded request with its names, enum values and times as text: equal payloads come
    from equal requests. */
module PayloadText {
  import opened IsoTime
  import opened Domain

  /** A JSON value as text; laying the tree out as one string is `json.dumps` itself. */
  datatype TextTree = TNull | TString(text: string) | TObject(members: TextMembers)

  datatype TextMembers = TEnd | TMember(name: string, value: TextTree, rest: TextMembers)

  function FieldText(f: Field): string
  {
    match f
    case CONFIG_VERSION => "config_version"
    case CONTEXT => "context"
    case CREATED_AT => "created_at"
    case DECISION => "decision"
    case DECISION_TIME => "decision_time"
    case DIRECTION => "direction"
    case EVENT_ID => "event_id"
    case IDEMPOTENCY_KEY => "idempotency_key"
    case REASON_CODE => "reason_code"
    case REFERENCE_TIME => "reference_time"
    case SIGNAL_MEMBER => "signal"
    case SIGNAL_ID => "signal_id"
    case SNAPSHOT_ID => "snapshot_id"
    case STATUS => "status"
  }

  function DirectionText(d: Direction): string
  {
    match d case LONG => "LONG" case SHORT => "SHORT"
  }

  function StatusText(s: DecisionStatus): string
  {
    match s case SIGNAL => "SIGNAL" case BLOCKED => "BLOCKED"
  }

  function Render(j: Json): TextTree
  {
    match j
    case JNull => TNull
    case JString(s) => TString(s)
    case JDirection(d) => TString(DirectionText(d))
    case JStatus(s) => TString(StatusText(s))
    case JTime(t) => TString(IsoText(t))
    case JObject(ms) => TObject(RenderMembers(ms))
  }

  function RenderMembers(ms: Members): TextMembers
  {
    match ms
    case End => TEnd
    case Member(name, value, rest) => TMember(FieldText(name), Render(value), RenderMembers(rest))
  }

  /** Two trees of one shape: the same members, and leaves of the same kind or a null. */
  predicate SameShape(a: Json, b: Json)
  {
    match (a, b)
    case (JObject(m), JObject(n)) => SameMembers(m, n)
    case (JNull, _) => true
    case (_, JNull) => true
    case (JString(_), JString(_)) => true
    case (JDirection(_), JDirection(_)) => true
    case (JStatus(_), JStatus(_)) => true
    case (JTime(_), JTime(_)) => true
    case _ => false
  }

  predicate SameMembers(m: Members, n: Members)
  {
    match (m, n)
    case (End, End) => true
    case (Member(f, a, m'), Member(g, b, n')) => f == g && SameShape(a, b) && SameMembers(m', n')
    case _ => false
  }

  lemma EnumTextInjective()
    ensures DirectionText(LONG) != DirectionText(SHORT) && StatusText(SIGNAL) != StatusText(BLOCKED)
  {
    assert DirectionText(LONG)[0] != DirectionText(SHORT)[0];
    assert StatusText(SIGNAL)[0] != StatusText(BLOCKED)[0];
  }

  lemma {:induction false} RenderInjective(a: Json, b: Json)
    requires SameShape(a, b) && Render(a) == Render(b)
    ensures a == b
  {
    match (a, b) {
      case (JObject(m), JObject(n)) => RenderMembersInjective(m, n);
      case (JTime(s), JTime(t)) => IsoTextOrder(s, t);
      case (JDirection(_), JDirection(_)) => EnumTextInjective();
      case (JStatus(_), JStatus(_)) => EnumTextInjective();
      case _ =>
    }
  }

  lemma {:induction false} RenderMembersInjective(m: Members, n: Members)
    requires SameMembers(m, n) && RenderMembers(m) == RenderMembers(n)
    ensures m == n
  {
    if m.Member? && n.Member? {
      RenderInjective(m.value, n.value);
      RenderMembersInjective(m.rest, n.rest);
    }
  }

  /** The same member list in two requests, from its last member back to its first. */
  lemma SameShapeOfLists(m: Members, n: Members)
    requires m.Member? <==> n.Member?
    requires m.Member? ==> m.name == n.name && SameShape(m.value, n.value) && SameMembers(m.rest, n.rest)
    ensures SameMembers(m, n)
  {
  }

  lemma ContextsHaveOneShape(a: DecisionContext, b: DecisionContext)
    ensures SameShape(EncodeContext(a), EncodeContext(b))
  {
    var m, n := EncodeContext(a).members, EncodeContext(b).members;
    SameShapeOfLists(m.rest.rest.rest, n.rest.rest.rest);
    SameShapeOfLists(m.rest.rest, n.rest.rest);
    SameShapeOfLists(m.rest, n.rest);
  }

  lemma SignalsHaveOneShape(a: SignalDecision, b: SignalDecision)
    ensures SameShape(EncodeSignal(a), EncodeSignal(b))
  {
    var m, n := EncodeSignal(a).members, EncodeSignal(b).members;
    SameShapeOfLists(m.rest.rest.rest.rest.rest, n.rest.rest.rest.rest.rest);
    SameShapeOfLists(m.rest.rest.rest.rest, n.rest.rest.rest.rest);
    SameShapeOfLists(m.rest.rest.rest, n.rest.rest.rest);
    SameShapeOfLists(m.rest.rest, n.rest.rest);
    SameShapeOfLists(m.rest, n.rest);
  }

  lemma DecisionsHaveOneShape(a: FinalDecision, b: FinalDecision)
    ensures SameShape(EncodeDecision(a), EncodeDecision(b))
  {
    if a.signal.Some? && b.signal.Some? { SignalsHaveOneShape(a.signal.value, b.signal.value); }
    var m, n := EncodeDecision(a).members, EncodeDecision(b).members;
    assert SameShape(m.rest.value, n.rest.value);
    SameShapeOfLists(m.rest.rest, n.rest.rest);
    SameShapeOfLists(m.rest, n.rest);
  }

  lemma RequestsHaveOneShape(a: Request, b: Request)
    ensures SameShape(Encode(a), Encode(b))
  {
    ContextsHaveOneShape(a.context, b.context);
    DecisionsHaveOneShape(a.decision, b.decision);
    var m, n := Encode(a).members, Encode(b).members;
    SameShapeOfLists(m.rest.rest.rest, n.rest.rest.rest);
    SameShapeOfLists(m.rest.rest, n.rest.rest);
    SameShapeOfLists(m.rest, n.rest);
  }

  /** Comparing payload text compares requests. */
  lemma PayloadInjective(a: Request, b: Request)
    ensures Render(Encode(a)) == Render(Encode(b)) <==> a == b
  {
    RequestsHaveOneShape(a, b);
    if Render(Encode(a)) == Render(Encode(b)) {
      RenderInjective(Encode(a), Encode(b));
    }
  }
}
