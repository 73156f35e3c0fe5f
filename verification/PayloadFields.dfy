/** What a reader of a stored payload gets back: the value at every member path of the text
    tree, under the literal names and enum texts. */
module PayloadFields {
  import opened Wrappers
  import opened IsoTime
  import opened Domain
  import opened PayloadText

  // ---------------------------------------------------------------- reading a tree

  /** The value under a name in a list of members. */
  function Find(members: TextMembers, name: string): Option<TextTree>
  {
    match members
    case TEnd => None
    case TMember(n, value, rest) => if n == name then Some(value) else Find(rest, name)
  }

  /** `tree[path[0]][path[1]]...`; None when a name is missing or a value is no object. */
  function Lookup(tree: TextTree, path: seq<string>): Option<TextTree>
    decreases |path|
  {
    if |path| == 0 then Some(tree)
    else if !tree.TObject? then None
    else
      match Find(tree.members, path[0])
      case None => None
      case Some(value) => Lookup(value, path[1..])
  }

  predicate HasText(tree: TextTree, path: seq<string>, text: string)
  {
    Lookup(tree, path) == Some(TString(text))
  }

  /** The names of an object, in the order they are written. */
  function Names(members: TextMembers): seq<string>
  {
    match members case TEnd => [] case TMember(name, _, rest) => [name] + Names(rest)
  }

  // ---------------------------------------------------------------- the fields of a request

  ghost predicate CarriesContext(tree: TextTree, c: DecisionContext)
  {
    && HasText(tree, ["context", "config_version"], c.configVersion)
    && HasText(tree, ["context", "decision_time"], IsoText(c.decisionTime))
    && HasText(tree, ["context", "reference_time"], IsoText(c.referenceTime))
    && HasText(tree, ["context", "snapshot_id"], c.snapshotId)
  }

  ghost predicate CarriesSignal(tree: TextTree, s: SignalDecision)
  {
    && HasText(tree, ["decision", "signal", "config_version"], s.configVersion)
    && HasText(tree, ["decision", "signal", "created_at"], IsoText(s.createdAt))
    && HasText(tree, ["decision", "signal", "direction"], if s.direction == LONG then "LONG" else "SHORT")
    && HasText(tree, ["decision", "signal", "reason_code"], s.reasonCode)
    && HasText(tree, ["decision", "signal", "signal_id"], s.signalId)
    && HasText(tree, ["decision", "signal", "snapshot_id"], s.snapshotId)
  }

  ghost predicate CarriesDecision(tree: TextTree, d: FinalDecision)
  {
    && HasText(tree, ["decision", "reason_code"], d.reasonCode)
    && HasText(tree, ["decision", "status"], if d.status == SIGNAL then "SIGNAL" else "BLOCKED")
    && (d.signal.None? ==> Lookup(tree, ["decision", "signal"]) == Some(TNull))
    && (d.signal.Some? ==> CarriesSignal(tree, d.signal.value))
  }

  /** Every field of the request is at its path. */
  ghost predicate Carries(payload: Json, r: Request)
  {
    var tree := Render(payload);
    && CarriesContext(tree, r.context) && CarriesDecision(tree, r.decision)
    && HasText(tree, ["idempotency_key"], r.key)
    && Lookup(tree, ["event_id"]) == Some(if r.eventId.None? then TNull else TString(r.eventId.value))
  }

  // ---------------------------------------------------------------- proof

  lemma NamesDiffer(f: Field, g: Field)
    requires f != g
    ensures FieldText(f) != FieldText(g)
  {
    var a, b := FieldText(f), FieldText(g);
    assert |a| != |b| || a[0] != b[0] || a[1] != b[1];
  }

  function FindField(members: Members, f: Field): Option<Json>
  {
    match members
    case End => None
    case Member(name, value, rest) => if name == f then Some(value) else FindField(rest, f)
  }

  lemma {:induction false} FindRendered(members: Members, f: Field)
    ensures Find(RenderMembers(members), FieldText(f))
            == match FindField(members, f) case None => None case Some(value) => Some(Render(value))
  {
    if members.Member? {
      FindRendered(members.rest, f);
      if members.name != f { NamesDiffer(members.name, f); }
    }
  }

  lemma LookupOne(tree: TextTree, name: string)
    ensures Lookup(tree, [name]) == if tree.TObject? then Find(tree.members, name) else None
  {
    if tree.TObject? && Find(tree.members, name).Some? {
      assert Lookup(tree, [name]) == Lookup(Find(tree.members, name).value, [name][1..]);
    }
  }

  lemma LookupIn(tree: TextTree, name: string, value: TextTree, path: seq<string>)
    requires tree.TObject? && Find(tree.members, name) == Some(value)
    ensures Lookup(tree, [name] + path) == Lookup(value, path)
  {
    assert ([name] + path)[1..] == path;
  }

  lemma FieldReads(j: Json, f: Field, value: Json)
    requires j.JObject? && FindField(j.members, f) == Some(value)
    ensures Lookup(Render(j), [FieldText(f)]) == Some(Render(value))
  {
    FindRendered(j.members, f);
    LookupOne(Render(j), FieldText(f));
  }

  lemma SkipTwo(members: Members, f: Field)
    requires members.Member? && members.name != f && members.rest.Member? && members.rest.name != f
    ensures FindField(members, f) == FindField(members.rest.rest, f)
  {
  }

  lemma ContextMembers(c: DecisionContext)
    ensures var members := EncodeContext(c).members;
            && FindField(members, CONFIG_VERSION) == Some(JString(c.configVersion))
            && FindField(members, DECISION_TIME) == Some(JTime(c.decisionTime))
            && FindField(members, REFERENCE_TIME) == Some(JTime(c.referenceTime))
            && FindField(members, SNAPSHOT_ID) == Some(JString(c.snapshotId))
  {
    var members := EncodeContext(c).members;
    SkipTwo(members, REFERENCE_TIME);
    SkipTwo(members, SNAPSHOT_ID);
  }

  /** A member that holds text, or a time, under its literal name. */
  lemma TextReads(j: Json, f: Field, text: string, name: string)
    requires j.JObject? && FindField(j.members, f) == Some(JString(text)) && FieldText(f) == name
    ensures HasText(Render(j), [name], text)
  {
    FieldReads(j, f, JString(text));
  }

  lemma TimeReads(j: Json, f: Field, t: Instant, name: string)
    requires j.JObject? && FindField(j.members, f) == Some(JTime(t)) && FieldText(f) == name
    ensures HasText(Render(j), [name], IsoText(t))
  {
    FieldReads(j, f, JTime(t));
  }

  lemma ContextReads(c: DecisionContext)
    ensures var tree := Render(EncodeContext(c));
            && HasText(tree, ["config_version"], c.configVersion)
            && HasText(tree, ["decision_time"], IsoText(c.decisionTime))
            && HasText(tree, ["reference_time"], IsoText(c.referenceTime))
            && HasText(tree, ["snapshot_id"], c.snapshotId)
  {
    hide FindField, Render, HasText, IsoText;
    var j := EncodeContext(c);
    ContextMembers(c);
    TextReads(j, CONFIG_VERSION, c.configVersion, "config_version");
    TimeReads(j, DECISION_TIME, c.decisionTime, "decision_time");
    TimeReads(j, REFERENCE_TIME, c.referenceTime, "reference_time");
    TextReads(j, SNAPSHOT_ID, c.snapshotId, "snapshot_id");
  }

  lemma SignalMembers(s: SignalDecision)
    ensures var members := EncodeSignal(s).members;
            && FindField(members, CONFIG_VERSION) == Some(JString(s.configVersion))
            && FindField(members, CREATED_AT) == Some(JTime(s.createdAt))
            && FindField(members, DIRECTION) == Some(JDirection(s.direction))
            && FindField(members, REASON_CODE) == Some(JString(s.reasonCode))
            && FindField(members, SIGNAL_ID) == Some(JString(s.signalId))
            && FindField(members, SNAPSHOT_ID) == Some(JString(s.snapshotId))
  {
    var m := EncodeSignal(s).members;
    var k := m.rest.rest;
    SkipTwo(m, DIRECTION);
    SkipTwo(m, REASON_CODE);
    SkipTwo(m, SIGNAL_ID);
    SkipTwo(k, SIGNAL_ID);
    SkipTwo(m, SNAPSHOT_ID);
    SkipTwo(k, SNAPSHOT_ID);
  }

  lemma DirectionReads(j: Json, d: Direction)
    requires j.JObject? && FindField(j.members, DIRECTION) == Some(JDirection(d))
    ensures HasText(Render(j), ["direction"], if d == LONG then "LONG" else "SHORT")
  {
    FieldReads(j, DIRECTION, JDirection(d));
  }

  lemma SignalReads(s: SignalDecision)
    ensures var tree := Render(EncodeSignal(s));
            && HasText(tree, ["config_version"], s.configVersion)
            && HasText(tree, ["created_at"], IsoText(s.createdAt))
            && HasText(tree, ["direction"], if s.direction == LONG then "LONG" else "SHORT")
            && HasText(tree, ["reason_code"], s.reasonCode)
            && HasText(tree, ["signal_id"], s.signalId)
            && HasText(tree, ["snapshot_id"], s.snapshotId)
  {
    hide FindField, Render, HasText, IsoText;
    var j := EncodeSignal(s);
    SignalMembers(s);
    TextReads(j, CONFIG_VERSION, s.configVersion, "config_version");
    TimeReads(j, CREATED_AT, s.createdAt, "created_at");
    DirectionReads(j, s.direction);
    TextReads(j, REASON_CODE, s.reasonCode, "reason_code");
    TextReads(j, SIGNAL_ID, s.signalId, "signal_id");
    TextReads(j, SNAPSHOT_ID, s.snapshotId, "snapshot_id");
  }

  lemma DecisionReads(d: FinalDecision)
    ensures var tree := Render(EncodeDecision(d));
            && HasText(tree, ["reason_code"], d.reasonCode)
            && Lookup(tree, ["signal"]) == Some(Render(EncodeOptionalSignal(d.signal)))
            && HasText(tree, ["status"], if d.status == SIGNAL then "SIGNAL" else "BLOCKED")
  {
    hide Lookup;
    var j := EncodeDecision(d);
    FieldReads(j, REASON_CODE, JString(d.reasonCode));
    FieldReads(j, SIGNAL_MEMBER, EncodeOptionalSignal(d.signal));
    SkipTwo(j.members, STATUS);
    FieldReads(j, STATUS, JStatus(d.status));
  }

  lemma RequestReads(r: Request)
    ensures var tree := Render(Encode(r));
            && Lookup(tree, ["context"]) == Some(Render(EncodeContext(r.context)))
            && Lookup(tree, ["decision"]) == Some(Render(EncodeDecision(r.decision)))
            && Lookup(tree, ["event_id"]) == Some(if r.eventId.None? then TNull else TString(r.eventId.value))
            && HasText(tree, ["idempotency_key"], r.key)
  {
    hide Lookup, EncodeContext, EncodeDecision;
    var j := Encode(r);
    FieldReads(j, CONTEXT, EncodeContext(r.context));
    FieldReads(j, DECISION, EncodeDecision(r.decision));
    SkipTwo(j.members, EVENT_ID);
    FieldReads(j, EVENT_ID, JOption(r.eventId));
    SkipTwo(j.members, IDEMPOTENCY_KEY);
    FieldReads(j, IDEMPOTENCY_KEY, JString(r.key));
  }

  lemma LookupTwo(tree: TextTree, outer: string, inner: TextTree, name: string)
    requires Lookup(tree, [outer]) == Some(inner)
    ensures Lookup(tree, [outer, name]) == Lookup(inner, [name])
  {
    LookupOne(tree, outer);
    assert [outer, name][1..] == [name];
  }

  lemma LookupThree(tree: TextTree, outer: string, inner: TextTree, middle: string, name: string)
    requires Lookup(tree, [outer]) == Some(inner)
    ensures Lookup(tree, [outer, middle, name]) == Lookup(inner, [middle, name])
  {
    LookupOne(tree, outer);
    assert [outer, middle, name][1..] == [middle, name];
  }

  lemma ContextCarried(r: Request)
    ensures CarriesContext(Render(Encode(r)), r.context)
  {
    hide Lookup, Encode, EncodeContext, Render;
    var tree, inner := Render(Encode(r)), Render(EncodeContext(r.context));
    RequestReads(r);
    ContextReads(r.context);
    LookupTwo(tree, "context", inner, "config_version");
    LookupTwo(tree, "context", inner, "decision_time");
    LookupTwo(tree, "context", inner, "reference_time");
    LookupTwo(tree, "context", inner, "snapshot_id");
  }

  lemma SignalCarried(r: Request, name: string)
    requires r.decision.signal.Some?
    ensures Lookup(Render(Encode(r)), ["decision", "signal", name])
            == Lookup(Render(EncodeSignal(r.decision.signal.value)), [name])
  {
    hide Lookup, Encode, EncodeDecision, EncodeSignal, Render;
    var tree, inner := Render(Encode(r)), Render(EncodeDecision(r.decision));
    RequestReads(r);
    DecisionReads(r.decision);
    LookupThree(tree, "decision", inner, "signal", name);
    LookupTwo(inner, "signal", Render(EncodeSignal(r.decision.signal.value)), name);
  }

  lemma WholeSignalCarried(r: Request)
    requires r.decision.signal.Some?
    ensures CarriesSignal(Render(Encode(r)), r.decision.signal.value)
  {
    hide Lookup, Encode, EncodeSignal, Render;
    SignalReads(r.decision.signal.value);
    SignalCarried(r, "config_version");
    SignalCarried(r, "created_at");
    SignalCarried(r, "direction");
    SignalCarried(r, "reason_code");
    SignalCarried(r, "signal_id");
    SignalCarried(r, "snapshot_id");
  }

  lemma DecisionCarried(r: Request)
    ensures CarriesDecision(Render(Encode(r)), r.decision)
  {
    var tree, inner := Render(Encode(r)), Render(EncodeDecision(r.decision));
    assert Render(EncodeOptionalSignal(None)) == TNull;
    hide Lookup, Encode, EncodeDecision, EncodeSignal, Render, CarriesSignal;
    RequestReads(r);
    DecisionReads(r.decision);
    LookupTwo(tree, "decision", inner, "reason_code");
    LookupTwo(tree, "decision", inner, "signal");
    LookupTwo(tree, "decision", inner, "status");
    if r.decision.signal.Some? { WholeSignalCarried(r); }
  }

  /** The payload of every request carries every field of it. */
  lemma PayloadCarries(r: Request)
    ensures Carries(Encode(r), r)
  {
    hide Lookup, Encode, Render, CarriesContext, CarriesDecision;
    RequestReads(r);
    ContextCarried(r);
    DecisionCarried(r);
  }

  lemma FirstName(members: Members)
    requires members.Member?
    ensures Names(RenderMembers(members)) == [FieldText(members.name)] + Names(RenderMembers(members.rest))
  {
  }

  /** The objects of a payload name their members in sorted order, and no others. */
  lemma PayloadNames(r: Request)
    ensures Names(Render(Encode(r)).members) == ["context", "decision", "event_id", "idempotency_key"]
    ensures Names(Render(EncodeDecision(r.decision)).members) == ["reason_code", "signal", "status"]
  {
    hide Names, RenderMembers;
    var request, decision := Encode(r).members, EncodeDecision(r.decision).members;
    NoNames();
    FirstName(request);
    FirstName(request.rest);
    FirstName(request.rest.rest);
    FirstName(request.rest.rest.rest);
    FirstName(decision);
    FirstName(decision.rest);
    FirstName(decision.rest.rest);
  }

  lemma NoNames()
    ensures Names(RenderMembers(End)) == []
  {
  }

  lemma ContextNames(c: DecisionContext)
    ensures Names(Render(EncodeContext(c)).members)
            == ["config_version", "decision_time", "reference_time", "snapshot_id"]
  {
    hide Names, RenderMembers;
    var members := EncodeContext(c).members;
    NoNames();
    FirstName(members);
    FirstName(members.rest);
    FirstName(members.rest.rest);
    FirstName(members.rest.rest.rest);
  }

  lemma SignalNames(s: SignalDecision)
    ensures Names(Render(EncodeSignal(s)).members)
            == ["config_version", "created_at", "direction", "reason_code", "signal_id", "snapshot_id"]
  {
    hide Names, RenderMembers;
    var members := EncodeSignal(s).members;
    NoNames();
    FirstName(members);
    FirstName(members.rest);
    FirstName(members.rest.rest);
    FirstName(members.rest.rest.rest);
    FirstName(members.rest.rest.rest.rest);
    FirstName(members.rest.rest.rest.rest.rest);
  }
}
