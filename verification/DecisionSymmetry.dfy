/** The decision as a whole has no preferred direction. */
module DecisionSymmetry {
  import opened Wrappers
  import opened IsoTime
  import opened Domain
  import opened MarketData
  import opened Reasons
  import opened Strategy
  import opened StrategySymmetry
  import opened Evaluation
  import opened EvaluationSymmetry
  import opened DecisionPipeline

  function MirrorSnapshot(s: MarketSnapshot): MarketSnapshot
  {
    s.(candles := Mirror(s.candles))
  }

  function FlipRisk(r: RiskEvaluation): RiskEvaluation
  {
    r.(direction := Opposite(r.direction))
  }

  /** The second gates' risk policies answer about a side as the first gates' do about the other. */
  ghost predicate RiskMirrored(context: DecisionContext, gates: Gates, mirrored: Gates)
  {
    forall d: Direction ::
      RiskOf(mirrored, Opposite(d))(context, Proposal(Opposite(d))) == FlipRisk(RiskOf(gates, d)(context, Proposal(d)))
  }

  function FlipFinal(r: Result<FinalDecision, Fault>): Result<FinalDecision, Fault>
  {
    match r
    case Err(e) => Err(e)
    case Ok(f) =>
      match f.signal
      case None => r
      case Some(s) => Ok(f.(signal := Some(s.(direction := Opposite(s.direction)))))
  }

  lemma OutcomeFlips(context: DecisionContext, d: Direction, r: RiskEvaluation, signalId: string, createdAt: Instant)
    ensures OneSideOutcome(context, Opposite(d), FlipRisk(r), signalId, createdAt)
            == FlipFinal(OneSideOutcome(context, d, r, signalId, createdAt))
  {
  }

  /** Whether the mirrored prices make the other side as eligible as this one is. */
  ghost predicate EligibilityFlips(snapshot: MarketSnapshot, symbol: string, d: Direction)
  {
    Evaluate(Mirror(snapshot.candles), symbol, Opposite(d), snapshot.referenceTime).eligible
    == Evaluate(snapshot.candles, symbol, d, snapshot.referenceTime).eligible
  }

  /** The risk policy of a side turns its signal down. */
  ghost predicate RiskRefuses(context: DecisionContext, gates: Gates, d: Direction)
  {
    var r := RiskOf(gates, d)(context, Proposal(d));
    r.direction == d && !r.allowed
  }

  lemma RefusedOutcome(context: DecisionContext, gates: Gates, d: Direction, signalId: string, createdAt: Instant)
    ensures var r := OneSideOutcome(context, d, RiskOf(gates, d)(context, Proposal(d)), signalId, createdAt);
            r == Ok(NO_SIGNAL) <==> RiskRefuses(context, gates, d)
  {
    hide Proposal, RiskOf;
  }

  lemma FlipsToNothing(r: Result<FinalDecision, Fault>)
    ensures FlipFinal(r) == Ok(NO_SIGNAL) <==> r == Ok(NO_SIGNAL)
  {
  }

  /** Eligible sides have the trend, and the trend flips: of both markets together, one side
      at most is ever eligible. */
  lemma OneSideAtMost(snapshot: MarketSnapshot, symbol: string, d: Direction)
    requires var t := snapshot.referenceTime;
             Evaluate(snapshot.candles, symbol, d, t).eligible
             || Evaluate(Mirror(snapshot.candles), symbol, Opposite(d), t).eligible
    ensures !Evaluate(snapshot.candles, symbol, Opposite(d), snapshot.referenceTime).eligible
    ensures !Evaluate(Mirror(snapshot.candles), symbol, d, snapshot.referenceTime).eligible
  {
    hide Evaluate, Trend, CandlesFor, Mirror;
    var candles, t := snapshot.candles, snapshot.referenceTime;
    CandlesForMirrored(candles, symbol, H4);
    TrendFlips(CandlesFor(candles, symbol, H4), t);
    forall s: Direction
      ensures Evaluate(candles, symbol, s, t).eligible ==> Trend(CandlesFor(candles, symbol, H4), t) == Some(s)
      ensures Evaluate(Mirror(candles), symbol, s, t).eligible ==>
                Trend(CandlesFor(Mirror(candles), symbol, H4), t) == Some(s)
    {
      if Evaluate(candles, symbol, s, t).eligible { EligibleFollowsTrend(candles, symbol, s, t); }
      if Evaluate(Mirror(candles), symbol, s, t).eligible { EligibleFollowsTrend(Mirror(candles), symbol, s, t); }
    }
  }

  /** When one side is eligible in one of the markets, its eligibility and its risk policy decide. */
  lemma EligibleFinalFlipsIff(context: DecisionContext, snapshot: MarketSnapshot, symbol: string, gates: Gates,
                              mirrored: Gates, signalId: string, createdAt: Instant, d: Direction)
    requires RiskMirrored(context, gates, mirrored) && RequestFault(context, snapshot).None?
    requires var t := snapshot.referenceTime;
             Evaluate(snapshot.candles, symbol, d, t).eligible
             || Evaluate(Mirror(snapshot.candles), symbol, Opposite(d), t).eligible
    ensures FinalForSymbol(context, MirrorSnapshot(snapshot), symbol, mirrored, signalId, createdAt)
            == FlipFinal(FinalForSymbol(context, snapshot, symbol, gates, signalId, createdAt))
            <==> EligibilityFlips(snapshot, symbol, d) || RiskRefuses(context, gates, d)
    ensures EligibilityFlips(snapshot, symbol, Opposite(d))
  {
    OneSideAtMost(snapshot, symbol, d);
    RefusedOutcome(context, gates, d, signalId, createdAt);
    hide Evaluate, Trend, CandlesFor, FinalForSymbol, Code, OneSideOutcome, Mirror, Proposal, RiskOf, FlipRisk,
      RiskRefuses, FlipFinal;
    FinalOutcome(context, snapshot, symbol, gates, signalId, createdAt);
    FinalOutcome(context, MirrorSnapshot(snapshot), symbol, mirrored, signalId, createdAt);
    OutcomeFlips(context, d, RiskOf(gates, d)(context, Proposal(d)), signalId, createdAt);
    FlipsToNothing(OneSideOutcome(context, d, RiskOf(gates, d)(context, Proposal(d)), signalId, createdAt));
    FlipsToNothing(Ok(NO_SIGNAL));
  }

  /** Mirrored prices and mirrored risk policies give the mirrored decision exactly when the
      request is refused, or each side's eligibility flips unless its risk policy turns the
      signal down anyway. */
  lemma FinalFlipsIff(context: DecisionContext, snapshot: MarketSnapshot, symbol: string, gates: Gates,
                      mirrored: Gates, signalId: string, createdAt: Instant)
    requires RiskMirrored(context, gates, mirrored)
    ensures FinalForSymbol(context, MirrorSnapshot(snapshot), symbol, mirrored, signalId, createdAt)
            == FlipFinal(FinalForSymbol(context, snapshot, symbol, gates, signalId, createdAt))
            <==> RequestFault(context, snapshot).Some?
                 || forall d: Direction :: EligibilityFlips(snapshot, symbol, d) || RiskRefuses(context, gates, d)
  {
    hide Evaluate, Trend, CandlesFor, FinalForSymbol, Code, OneSideOutcome, Mirror, Proposal, RiskOf, FlipRisk,
      RiskRefuses, RiskMirrored;
    FinalOutcome(context, snapshot, symbol, gates, signalId, createdAt);
    FinalOutcome(context, MirrorSnapshot(snapshot), symbol, mirrored, signalId, createdAt);
    if RequestFault(context, snapshot).None? {
      if d: Direction :|
        Evaluate(snapshot.candles, symbol, d, snapshot.referenceTime).eligible
        || Evaluate(Mirror(snapshot.candles), symbol, Opposite(d), snapshot.referenceTime).eligible
      {
        EligibleFinalFlipsIff(context, snapshot, symbol, gates, mirrored, signalId, createdAt, d);
      }
    }
  }

  /** In particular when no closed 1h or 15m candle of the symbol breaks both ways. */
  lemma FinalFlips(context: DecisionContext, snapshot: MarketSnapshot, symbol: string, gates: Gates, mirrored: Gates,
                   signalId: string, createdAt: Instant)
    requires OneSided(CandlesFor(snapshot.candles, symbol, H1), snapshot.referenceTime)
    requires OneSided(CandlesFor(snapshot.candles, symbol, M15), snapshot.referenceTime)
    requires RiskMirrored(context, gates, mirrored)
    ensures FinalForSymbol(context, MirrorSnapshot(snapshot), symbol, mirrored, signalId, createdAt)
            == FlipFinal(FinalForSymbol(context, snapshot, symbol, gates, signalId, createdAt))
  {
    hide Evaluate, Trend, CandlesFor, FinalForSymbol, OneSided, Mirror, RiskMirrored, RiskRefuses;
    forall d: Direction ensures EligibilityFlips(snapshot, symbol, d) {
      EvaluationFlips(snapshot.candles, symbol, d, snapshot.referenceTime);
    }
    FinalFlipsIff(context, snapshot, symbol, gates, mirrored, signalId, createdAt);
  }
}
