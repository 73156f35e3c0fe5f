/** The answers of the evaluator and of the decision pipeline in the fields of their input,
    with every code as the text a caller sees. */
module DecisionAnswers {
  import opened Wrappers
  import opened Text
  import opened IsoTime
  import opened Domain
  import opened MarketData
  import opened Reasons
  import opened Series
  import opened Strategy
  import opened Evaluation
  import opened DecisionPipeline

  // ---------------------------------------------------------------- the evaluator

  ghost predicate Answers(e: StrategyEvaluation, d: Direction, eligible: bool, code: string)
  {
    e.direction == d && e.eligible == eligible && Code(e.reason) == code
  }

  /** Some event of the direction comes after the time. */
  ghost predicate EventAfter(events: seq<BreakEvent>, d: Direction, t: Instant)
  {
    exists e :: e in events && e.direction == d && e.at > t
  }

  /** The evaluation of three series in time order, check by check. */
  lemma SeriesAnswers(h4: seq<Candle>, h1: seq<Candle>, m15: seq<Candle>, d: Direction, t: Instant)
    requires Ascending(h1)
    ensures var r, trend, structure := EvaluateSeries(h4, h1, m15, d, t), Trend(h4, t), BreakEvents(h1, t);
            if trend == None then Answers(r, d, false, "TREND_NEUTRAL")
            else if trend == Some(LONG) && d == SHORT then Answers(r, d, false, "TREND_LONG_CONFIRMED")
            else if trend == Some(SHORT) && d == LONG then Answers(r, d, false, "TREND_SHORT_CONFIRMED")
            else if forall e :: e in structure ==> e.direction != d then Answers(r, d, false, "ENTRY_NOT_CONFIRMED")
            else if structure[|structure| - 1].direction != d then
              Answers(r, d, false, if d == LONG then "STRUCTURE_CHOCH_LONG_INVALIDATED"
                                   else "STRUCTURE_CHOCH_SHORT_INVALIDATED")
            else if !EventAfter(BreakEvents(m15, t), d, structure[|structure| - 1].at) then
              Answers(r, d, false, "ENTRY_NOT_CONFIRMED")
            else Answers(r, d, true, if d == LONG then "ENTRY_BREAKOUT_LONG" else "ENTRY_BREAKOUT_SHORT")
  {
    hide Trend, BreakEvents, BosAndChoch;
    SeriesOutcome(h4, h1, m15, d, t);
  }

  /** The evaluation of a snapshot: candles missing, the first reason of the first timeframe in
      the order 4h, 1h, 15m that is not valid, and otherwise the three series. */
  lemma EvaluationAnswers(candles: seq<Candle>, symbol: string, d: Direction, t: Instant)
    ensures var r := Evaluate(candles, symbol, d, t);
            var (h4, h1, m15) :=
              (CandlesFor(candles, symbol, "4h"), CandlesFor(candles, symbol, "1h"),
               CandlesFor(candles, symbol, "15m"));
            var (r4, r1, r15) :=
              (SnapshotReasons(candles, "4h"), SnapshotReasons(candles, "1h"), SnapshotReasons(candles, "15m"));
            if h4 == [] || h1 == [] || m15 == [] then Answers(r, d, false, "INSUFFICIENT_SWING_CONTEXT")
            else if r4 != [] then Answers(r, d, false, Code(r4[0]))
            else if r1 != [] then Answers(r, d, false, Code(r1[0]))
            else if r15 != [] then Answers(r, d, false, Code(r15[0]))
            else Ascending(h1) && r == EvaluateSeries(h4, h1, m15, d, t)
  {
    hide CandlesFor, SnapshotReasons, EvaluateSeries, Code;
    assert Code(INSUFFICIENT_SWING_CONTEXT) == "INSUFFICIENT_SWING_CONTEXT" by { InsufficientText(); }
    if SnapshotReasons(candles, H1) == [] && |CandlesFor(candles, symbol, H1)| > 0 { SoundSeries(candles, symbol, H1); }
  }

  lemma InsufficientText()
    ensures Code(INSUFFICIENT_SWING_CONTEXT) == "INSUFFICIENT_SWING_CONTEXT"
  {
  }

  // ---------------------------------------------------------------- one symbol

  /** The answer of the risk policy of the one eligible side. */
  ghost predicate FollowsRisk(final: Result<FinalDecision, Fault>, d: Direction, r: RiskEvaluation,
                              context: DecisionContext, signalId: string, createdAt: Instant)
  {
    if r.direction != d then final == Err(RISK_DIRECTION_MISMATCH)
    else if !r.allowed then final == Ok(FinalDecision(BLOCKED, None, "NO_SIGNAL"))
    else if Blank(signalId) then final == Err(BLANK_SIGNAL_ID)
    else
      && final.Ok? && final.value.status == SIGNAL && final.value.reasonCode == "" && final.value.signal.Some?
      && var s := final.value.signal.value;
         && s.signalId == signalId && s.direction == d && s.createdAt == createdAt
         && s.snapshotId == context.snapshotId && s.configVersion == context.configVersion
         && s.reasonCode == r.reasonCode
  }

  /** The final decision about one symbol, in the fields of the request. */
  lemma FinalAnswers(context: DecisionContext, snapshot: MarketSnapshot, symbol: string, gates: Gates,
                     signalId: string, createdAt: Instant)
    ensures var final := FinalForSymbol(context, snapshot, symbol, gates, signalId, createdAt);
            var l := Evaluate(snapshot.candles, symbol, LONG, snapshot.referenceTime).eligible;
            var s := Evaluate(snapshot.candles, symbol, SHORT, snapshot.referenceTime).eligible;
            if snapshot.referenceTime != context.referenceTime then final == Err(REFERENCE_TIME_MISMATCH)
            else if snapshot.snapshotId != context.snapshotId then final == Err(SNAPSHOT_ID_MISMATCH)
            else if l then
              FollowsRisk(final, LONG, gates.longRisk(context, SideDecision(LONG, SIGNAL, "ENTRY_BREAKOUT_LONG")),
                          context, signalId, createdAt)
            else if s then
              FollowsRisk(final, SHORT, gates.shortRisk(context, SideDecision(SHORT, SIGNAL, "ENTRY_BREAKOUT_SHORT")),
                          context, signalId, createdAt)
            else final == Ok(FinalDecision(BLOCKED, None, "NO_SIGNAL"))
  {
    hide Evaluate, Trend, CandlesFor, FinalForSymbol;
    FinalOutcome(context, snapshot, symbol, gates, signalId, createdAt);
  }

  // ---------------------------------------------------------------- any evaluators

  /** Two eligible evaluators: the resolver is asked, its errors and its changed directions end
      the decision, and what it leaves goes through the risk gates. */
  lemma ResolverAnswers(context: DecisionContext, snapshot: MarketSnapshot, gates: Gates, signalId: string,
                        createdAt: Instant)
    requires snapshot.referenceTime == context.referenceTime && snapshot.snapshotId == context.snapshotId
    requires var l, s := gates.longEvaluator(snapshot), gates.shortEvaluator(snapshot);
             l.direction == LONG && s.direction == SHORT && l.eligible && s.eligible
    ensures var l, s := gates.longEvaluator(snapshot), gates.shortEvaluator(snapshot);
            var long, short := SideDecision(LONG, SIGNAL, Code(l.reason)), SideDecision(SHORT, SIGNAL, Code(s.reason));
            var resolved := gates.resolver(long, short);
            var final := EvaluateFinal(context, snapshot, gates, signalId, createdAt);
            && (resolved.Err? ==> final == Err(resolved.error))
            && (resolved.Ok? ==>
                  var (l', s') := resolved.value;
                  && (l'.direction != LONG ==> final == Err(RESOLVED_LONG_CHANGED))
                  && (l'.direction == LONG && s'.direction != SHORT ==> final == Err(RESOLVED_SHORT_CHANGED))
                  && (l'.direction == LONG && s'.direction == SHORT ==>
                        && (l'.status == SIGNAL && s'.status == BLOCKED ==>
                              FollowsRiskOrConflict(final, LONG, gates.longRisk(context, l'), s'.reasonCode, context,
                                                    signalId, createdAt))
                        && (l'.status == BLOCKED && s'.status == SIGNAL ==>
                              FollowsRiskOrConflict(final, SHORT, gates.shortRisk(context, s'), l'.reasonCode, context,
                                                    signalId, createdAt))
                        && (l'.status == BLOCKED && s'.status == BLOCKED ==>
                              final == Ok(FinalDecision(BLOCKED, None,
                                if l'.reasonCode == s'.reasonCode == "CONFLICT_BOTH_DIRECTIONS"
                                then "CONFLICT_BOTH_DIRECTIONS" else "NO_SIGNAL")))))
  {
    hide Code, Blank;
  }

  /** As `FollowsRisk`; a risk policy that turns the side down with the conflict code completes
      a conflict with the other side's. */
  ghost predicate FollowsRiskOrConflict(final: Result<FinalDecision, Fault>, d: Direction, r: RiskEvaluation,
                                        other: string, context: DecisionContext, signalId: string, createdAt: Instant)
  {
    if r.direction == d && !r.allowed && r.reasonCode == other == "CONFLICT_BOTH_DIRECTIONS" then
      final == Ok(FinalDecision(BLOCKED, None, "CONFLICT_BOTH_DIRECTIONS"))
    else FollowsRisk(final, d, r, context, signalId, createdAt)
  }

  /** Both sides left standing by the resolver: both risk policies are asked, and two allowed
      sides are a conflict. */
  lemma BothResolvedAnswers(context: DecisionContext, snapshot: MarketSnapshot, gates: Gates, signalId: string,
                            createdAt: Instant, l': SideDecision, s': SideDecision)
    requires snapshot.referenceTime == context.referenceTime && snapshot.snapshotId == context.snapshotId
    requires var l, s := gates.longEvaluator(snapshot), gates.shortEvaluator(snapshot);
             && l.direction == LONG && s.direction == SHORT && l.eligible && s.eligible
             && gates.resolver(SideDecision(LONG, SIGNAL, Code(l.reason)), SideDecision(SHORT, SIGNAL, Code(s.reason)))
                == Ok((l', s'))
    requires l'.direction == LONG && s'.direction == SHORT && l'.status == SIGNAL && s'.status == SIGNAL
    ensures var final := EvaluateFinal(context, snapshot, gates, signalId, createdAt);
            var l, s := gates.longRisk(context, l'), gates.shortRisk(context, s');
            && (l.direction != LONG || s.direction != SHORT ==> final == Err(RISK_DIRECTION_MISMATCH))
            && (l.direction == LONG && s.direction == SHORT ==>
                  && (l.allowed && s.allowed ==> final == Ok(FinalDecision(BLOCKED, None, "CONFLICT_BOTH_DIRECTIONS")))
                  && (l.allowed && !s.allowed ==> FollowsRisk(final, LONG, l, context, signalId, createdAt))
                  && (!l.allowed && s.allowed ==> FollowsRisk(final, SHORT, s, context, signalId, createdAt)))
  {
    hide Code, Blank;
  }

  /** An evaluator that answers for the other side, and a request that does not fit its snapshot. */
  lemma RefusedRequests(context: DecisionContext, snapshot: MarketSnapshot, gates: Gates, signalId: string,
                        createdAt: Instant)
    ensures var final := EvaluateFinal(context, snapshot, gates, signalId, createdAt);
            var l, s := gates.longEvaluator(snapshot), gates.shortEvaluator(snapshot);
            if snapshot.referenceTime != context.referenceTime then final == Err(REFERENCE_TIME_MISMATCH)
            else if snapshot.snapshotId != context.snapshotId then final == Err(SNAPSHOT_ID_MISMATCH)
            else
              && (l.direction == SHORT ==> final == Err(NON_LONG_RESULT))
              && (l.direction == LONG && s.direction == LONG ==> final == Err(NON_SHORT_RESULT))
  {
    hide Code, Blank;
  }

  // ---------------------------------------------------------------- gates

  /** The conflict gate and the final gate refuse decisions about the wrong sides. */
  lemma GatesRefuseWrongSides(long: SideDecision, short: SideDecision, gates: Gates, signalId: string,
                              createdAt: Instant, context: DecisionContext)
    ensures long.direction == SHORT ==>
              && ConflictGate(long, short, gates.resolver) == Err(NON_LONG_RESULT)
              && BlockOnConflict(long, short) == Err(NON_LONG_RESULT)
              && ResolveFinal(long, short, signalId, createdAt, context.snapshotId, context.configVersion)
                 == Err(NON_LONG_RESULT)
    ensures long.direction == LONG && short.direction == LONG ==>
              && ConflictGate(long, short, gates.resolver) == Err(NON_SHORT_RESULT)
              && BlockOnConflict(long, short) == Err(NON_SHORT_RESULT)
              && ResolveFinal(long, short, signalId, createdAt, context.snapshotId, context.configVersion)
                 == Err(NON_SHORT_RESULT)
  {
  }
}
