/** Strategy, conflict and risk gates composed into one final decision. */
module DecisionPipeline {
  import opened Wrappers
  import opened Text
  import opened IsoTime
  import opened Domain
  import opened MarketData
  import opened Reasons
  import opened Strategy
  import opened Evaluation

  datatype SideDecision = SideDecision(direction: Direction, status: DecisionStatus, reasonCode: string)

  datatype RiskEvaluation = RiskEvaluation(direction: Direction, allowed: bool, reasonCode: string)

  /** The ValueErrors of the pipeline. */
  datatype Fault =
    | REFERENCE_TIME_MISMATCH | SNAPSHOT_ID_MISMATCH
    | NON_LONG_RESULT | NON_SHORT_RESULT
    | RESOLVER_FAILED | RESOLVED_LONG_CHANGED | RESOLVED_SHORT_CHANGED
    | RISK_DIRECTION_MISMATCH | BLANK_SIGNAL_ID

  /** The injected policies: any functions of these types. */
  type Evaluator = MarketSnapshot -> StrategyEvaluation
  type ConflictResolver = (SideDecision, SideDecision) -> Result<(SideDecision, SideDecision), Fault>
  type RiskEvaluator = (DecisionContext, SideDecision) -> RiskEvaluation

  datatype Gates = Gates(longEvaluator: Evaluator, shortEvaluator: Evaluator, resolver: ConflictResolver,
                         longRisk: RiskEvaluator, shortRisk: RiskEvaluator)

  const CONFLICT_CODE: string := "CONFLICT_BOTH_DIRECTIONS"
  const NO_SIGNAL_CODE: string := "NO_SIGNAL"

  // ---------------------------------------------------------------- gates

  /** `StrategyEvaluation.to_side_decision`. */
  function ToSideDecision(e: StrategyEvaluation): SideDecision
  {
    SideDecision(e.direction, if e.eligible then SIGNAL else BLOCKED, Code(e.reason))
  }

  /** `BlockOnConflictResolver.resolve`. */
  function BlockOnConflict(long: SideDecision, short: SideDecision): Result<(SideDecision, SideDecision), Fault>
  {
    if long.direction != LONG then Err(NON_LONG_RESULT)
    else if short.direction != SHORT then Err(NON_SHORT_RESULT)
    else Ok((SideDecision(LONG, BLOCKED, CONFLICT_CODE), SideDecision(SHORT, BLOCKED, CONFLICT_CODE)))
  }

  /** `apply_conflict_gate`. */
  function ConflictGate(long: SideDecision, short: SideDecision, resolver: ConflictResolver)
    : Result<(SideDecision, SideDecision), Fault>
  {
    if long.direction != LONG then Err(NON_LONG_RESULT)
    else if short.direction != SHORT then Err(NON_SHORT_RESULT)
    else if long.status != SIGNAL || short.status != SIGNAL then Ok((long, short))
    else
      match resolver(long, short)
      case Err(e) => Err(e)
      case Ok((resolvedLong, resolvedShort)) =>
        if resolvedLong.direction != LONG then Err(RESOLVED_LONG_CHANGED)
        else if resolvedShort.direction != SHORT then Err(RESOLVED_SHORT_CHANGED)
        else Ok((resolvedLong, resolvedShort))
  }

  /** `apply_risk_gate`: a blocked side is not asked about. */
  function RiskGate(decision: SideDecision, context: DecisionContext, risk: RiskEvaluator): Result<SideDecision, Fault>
  {
    if decision.status == BLOCKED then Ok(decision)
    else
      var r := risk(context, decision);
      if decision.direction != r.direction then Err(RISK_DIRECTION_MISMATCH)
      else Ok(SideDecision(decision.direction, if r.allowed then SIGNAL else BLOCKED, r.reasonCode))
  }

  /** `resolve_final_decision`. */
  function ResolveFinal(long: SideDecision, short: SideDecision, signalId: string, createdAt: Instant,
                        snapshotId: string, configVersion: string): Result<FinalDecision, Fault>
  {
    if long.direction != LONG then Err(NON_LONG_RESULT)
    else if short.direction != SHORT then Err(NON_SHORT_RESULT)
    else
      var longSignal, shortSignal := long.status == SIGNAL, short.status == SIGNAL;
      if longSignal && shortSignal then Ok(FinalDecision(BLOCKED, None, CONFLICT_CODE))
      else if !longSignal && !shortSignal && long.reasonCode == CONFLICT_CODE && short.reasonCode == CONFLICT_CODE then
        Ok(FinalDecision(BLOCKED, None, CONFLICT_CODE))
      else if !longSignal && !shortSignal then Ok(FinalDecision(BLOCKED, None, NO_SIGNAL_CODE))
      else
        var selected := if longSignal then long else short;
        if Blank(signalId) then Err(BLANK_SIGNAL_ID)
        else
          var signal := SignalDecision(signalId, selected.direction, createdAt, snapshotId, configVersion,
            selected.reasonCode);
          Ok(FinalDecision(SIGNAL, Some(signal), ""))
  }

  // ---------------------------------------------------------------- the pipeline

  /** `StrategyEvaluationRequest.__post_init__`. */
  function RequestFault(context: DecisionContext, snapshot: MarketSnapshot): Option<Fault>
  {
    if snapshot.referenceTime != context.referenceTime then Some(REFERENCE_TIME_MISMATCH)
    else if snapshot.snapshotId != context.snapshotId then Some(SNAPSHOT_ID_MISMATCH)
    else None
  }

  function BothSides(long: Result<SideDecision, Fault>, short: Result<SideDecision, Fault>)
    : Result<(SideDecision, SideDecision), Fault>
  {
    match (long, short)
    case (Ok(l), Ok(s)) => Ok((l, s))
    case (Err(e), _) => Err(e)
    case (_, Err(e)) => Err(e)
  }

  /** `evaluate_signal_sides`. */
  function EvaluateSides(context: DecisionContext, snapshot: MarketSnapshot, gates: Gates)
    : Result<(SideDecision, SideDecision), Fault>
  {
    match RequestFault(context, snapshot)
    case Some(fault) => Err(fault)
    case None =>
      var longResult := gates.longEvaluator(snapshot);
      if longResult.direction != LONG then Err(NON_LONG_RESULT)
      else
        var shortResult := gates.shortEvaluator(snapshot);
        if shortResult.direction != SHORT then Err(NON_SHORT_RESULT)
        else
          match ConflictGate(ToSideDecision(longResult), ToSideDecision(shortResult), gates.resolver)
          case Err(e) => Err(e)
          case Ok((long, short)) => BothSides(RiskGate(long, context, gates.longRisk),
            RiskGate(short, context, gates.shortRisk))
  }

  /** `evaluate_final_decision`. */
  function EvaluateFinal(context: DecisionContext, snapshot: MarketSnapshot, gates: Gates, signalId: string,
                         createdAt: Instant)
    : Result<FinalDecision, Fault>
  {
    match EvaluateSides(context, snapshot, gates)
    case Err(e) => Err(e)
    case Ok((long, short)) => ResolveFinal(long, short, signalId, createdAt, context.snapshotId, context.configVersion)
  }

  /** The two evaluators of one symbol. */
  function ForSymbol(symbol: string, gates: Gates): Gates
  {
    gates.(longEvaluator := (s: MarketSnapshot) => Evaluate(s.candles, symbol, LONG, s.referenceTime),
           shortEvaluator := (s: MarketSnapshot) => Evaluate(s.candles, symbol, SHORT, s.referenceTime))
  }

  // ---------------------------------------------------------------- outcome

  lemma NamedCodes(r: Reason)
    requires !r.Custom?
    ensures Code(r) != CONFLICT_CODE
  {
    assert CONFLICT_CODE[1] == 'O' && CONFLICT_CODE[5] == 'I';
  }

  /** The strategy itself never answers with the conflict code. */
  lemma StrategyNeverClaimsConflict(candles: seq<Candle>, symbol: string, d: Direction, referenceTime: Instant)
    ensures Code(Evaluate(candles, symbol, d, referenceTime).reason) != CONFLICT_CODE
  {
    hide Trend, BreakEvents, BosAndChoch, BreaksOutAfter, CandlesFor, FirstFault, Code;
    FaultIsDataReason(candles);
    NamedCodes(Evaluate(candles, symbol, d, referenceTime).reason);
  }

  const NO_SIGNAL: FinalDecision := FinalDecision(BLOCKED, None, NO_SIGNAL_CODE)

  function RiskOf(gates: Gates, d: Direction): RiskEvaluator
  {
    if d == LONG then gates.longRisk else gates.shortRisk
  }

  /** What an eligible side is asked of its risk policy. */
  function Proposal(d: Direction): SideDecision
  {
    SideDecision(d, SIGNAL, Code(EntryReason(d)))
  }

  /** The final decision when exactly the side `d` is eligible. */
  function OneSideOutcome(context: DecisionContext, d: Direction, r: RiskEvaluation, signalId: string,
                          createdAt: Instant)
    : Result<FinalDecision, Fault>
  {
    if r.direction != d then Err(RISK_DIRECTION_MISMATCH)
    else if !r.allowed then Ok(NO_SIGNAL)
    else if Blank(signalId) then Err(BLANK_SIGNAL_ID)
    else
      Ok(FinalDecision(SIGNAL, Some(SignalDecision(signalId, d, createdAt, context.snapshotId, context.configVersion,
        r.reasonCode)), ""))
  }

  /** One side eligible, the other blocked with a code of its own: only the eligible side's
      risk policy is asked, and it alone decides. */
  lemma OneEligible(context: DecisionContext, snapshot: MarketSnapshot, gates: Gates, signalId: string,
                    createdAt: Instant, d: Direction)
    requires RequestFault(context, snapshot).None?
    requires var l, s := gates.longEvaluator(snapshot), gates.shortEvaluator(snapshot);
             && l.direction == LONG && s.direction == SHORT
             && l.eligible == (d == LONG) && s.eligible == (d == SHORT)
             && Code((if d == LONG then s else l).reason) != CONFLICT_CODE
    ensures var e := if d == LONG then gates.longEvaluator(snapshot) else gates.shortEvaluator(snapshot);
            EvaluateFinal(context, snapshot, gates, signalId, createdAt)
            == OneSideOutcome(context, d, RiskOf(gates, d)(context, ToSideDecision(e)), signalId, createdAt)
  {
    hide Code, Blank;
  }

  lemma NoneEligible(context: DecisionContext, snapshot: MarketSnapshot, gates: Gates, signalId: string,
                     createdAt: Instant)
    requires RequestFault(context, snapshot).None?
    requires var l, s := gates.longEvaluator(snapshot), gates.shortEvaluator(snapshot);
             l.direction == LONG && s.direction == SHORT && !l.eligible && !s.eligible
               && Code(l.reason) != CONFLICT_CODE
    ensures EvaluateFinal(context, snapshot, gates, signalId, createdAt) == Ok(NO_SIGNAL)
  {
    hide Code, Blank;
  }

  /** Both sides eligible, which takes evaluators of different symbols: the shipped resolver
      fails closed, whatever the risk policies would say. */
  lemma ConflictFailsClosed(context: DecisionContext, snapshot: MarketSnapshot, gates: Gates, signalId: string,
                          createdAt: Instant)
    requires RequestFault(context, snapshot).None?
    requires var l, s := gates.longEvaluator(snapshot), gates.shortEvaluator(snapshot);
             l.direction == LONG && s.direction == SHORT && l.eligible && s.eligible
    ensures EvaluateFinal(context, snapshot, gates.(resolver := BlockOnConflict), signalId, createdAt)
            == Ok(FinalDecision(BLOCKED, None, CONFLICT_CODE))
  {
    hide Code, Blank;
  }

  function FinalForSymbol(context: DecisionContext, snapshot: MarketSnapshot, symbol: string, gates: Gates,
                          signalId: string, createdAt: Instant)
    : Result<FinalDecision, Fault>
  {
    EvaluateFinal(context, snapshot, ForSymbol(symbol, gates), signalId, createdAt)
  }

  /** The whole pipeline for one symbol, on every input. The resolver does not appear. */
  lemma FinalOutcome(context: DecisionContext, snapshot: MarketSnapshot, symbol: string, gates: Gates,
                     signalId: string, createdAt: Instant)
    ensures var l := Evaluate(snapshot.candles, symbol, LONG, snapshot.referenceTime).eligible;
            var s := Evaluate(snapshot.candles, symbol, SHORT, snapshot.referenceTime).eligible;
            var final := FinalForSymbol(context, snapshot, symbol, gates, signalId, createdAt);
            if RequestFault(context, snapshot).Some? then final == Err(RequestFault(context, snapshot).value)
            else if !l && !s then final == Ok(NO_SIGNAL)
            else
              var d := if l then LONG else SHORT;
              && l != s
              && Trend(CandlesFor(snapshot.candles, symbol, H4), snapshot.referenceTime) == Some(d)
              && final == OneSideOutcome(context, d, RiskOf(gates, d)(context, Proposal(d)), signalId, createdAt)
  {
    hide Code, Blank, Evaluate, Trend, CandlesFor, EvaluateFinal, OneSideOutcome;
    var candles, t := snapshot.candles, snapshot.referenceTime;
    var g := ForSymbol(symbol, gates);
    if RequestFault(context, snapshot).None? {
      StrategyNeverClaimsConflict(candles, symbol, LONG, t);
      StrategyNeverClaimsConflict(candles, symbol, SHORT, t);
      NeverBothEligible(candles, symbol, t);
      EvaluateKeepsDirection(candles, symbol, LONG, t);
      EvaluateKeepsDirection(candles, symbol, SHORT, t);
      if Evaluate(candles, symbol, LONG, t).eligible {
        EligibleFollowsTrend(candles, symbol, LONG, t);
        OneEligible(context, snapshot, g, signalId, createdAt, LONG);
      } else if Evaluate(candles, symbol, SHORT, t).eligible {
        EligibleFollowsTrend(candles, symbol, SHORT, t);
        OneEligible(context, snapshot, g, signalId, createdAt, SHORT);
      } else {
        NoneEligible(context, snapshot, g, signalId, createdAt);
      }
    } else {
      MismatchedRequest(context, snapshot, g, signalId, createdAt);
    }
  }

  lemma MismatchedRequest(context: DecisionContext, snapshot: MarketSnapshot, gates: Gates, signalId: string,
                          createdAt: Instant)
    requires RequestFault(context, snapshot).Some?
    ensures EvaluateFinal(context, snapshot, gates, signalId, createdAt) == Err(RequestFault(context, snapshot).value)
  {
  }

  lemma EvaluateKeepsDirection(candles: seq<Candle>, symbol: string, d: Direction, referenceTime: Instant)
    ensures Evaluate(candles, symbol, d, referenceTime).direction == d
  {
    hide Trend, BreakEvents, BosAndChoch, BreaksOutAfter, CandlesFor, FirstFault;
  }

  /** A SIGNAL is issued exactly when the request is consistent, one side is eligible, its
      risk policy allows it in its own direction, and the signal has an identifier; it then
      points the way of the 4h trend. */
  lemma SignalIff(context: DecisionContext, snapshot: MarketSnapshot, symbol: string, gates: Gates,
                  signalId: string, createdAt: Instant, d: Direction)
    ensures var final := FinalForSymbol(context, snapshot, symbol, gates, signalId, createdAt);
            var r := RiskOf(gates, d)(context, Proposal(d));
            (final.Ok? && final.value.status == SIGNAL && final.value.signal.Some?
              && final.value.signal.value.direction == d)
            <==> && RequestFault(context, snapshot).None?
                 && Evaluate(snapshot.candles, symbol, d, snapshot.referenceTime).eligible
                 && r.direction == d && r.allowed && !Blank(signalId)
    ensures var final := FinalForSymbol(context, snapshot, symbol, gates, signalId, createdAt);
            final.Ok? ==> && ValidFinal(final.value)
                          && (final.value.status == BLOCKED ==> final.value == NO_SIGNAL)
  {
    hide Evaluate, Trend, CandlesFor, FinalForSymbol, Code;
    FinalOutcome(context, snapshot, symbol, gates, signalId, createdAt);
    NeverBothEligible(snapshot.candles, symbol, snapshot.referenceTime);
    assert NO_SIGNAL_CODE[0] == 'N';
  }

  /** The conflict resolver cannot influence a decision about one symbol. */
  lemma ResolverNeverMatters(context: DecisionContext, snapshot: MarketSnapshot, symbol: string, gates: Gates,
                             other: ConflictResolver, signalId: string, createdAt: Instant)
    ensures FinalForSymbol(context, snapshot, symbol, gates, signalId, createdAt)
            == FinalForSymbol(context, snapshot, symbol, gates.(resolver := other), signalId, createdAt)
  {
    hide Evaluate, Trend, CandlesFor, FinalForSymbol, Code, OneSideOutcome;
    FinalOutcome(context, snapshot, symbol, gates, signalId, createdAt);
    FinalOutcome(context, snapshot, symbol, gates.(resolver := other), signalId, createdAt);
  }
}
