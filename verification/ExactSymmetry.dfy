/** Exactly when turning the market upside down swaps the two sides: what the mirrored market
    decides, read off the original one. */
module ExactSymmetry {
  import opened Wrappers
  import opened IsoTime
  import opened Domain
  import opened MarketData
  import opened Reasons
  import opened Series
  import opened Strategy
  import opened StrategySymmetry
  import opened Evaluation
  import opened EvaluationSymmetry

  // ---------------------------------------------------------------- the mirrored events

  /** For each break event, whether its candle breaks both ways. */
  function BothBelow(candles: seq<Candle>, referenceTime: Instant, highs: seq<SwingPoint>, lows: seq<SwingPoint>,
                     n: nat): seq<bool>
    requires n <= |candles|
  {
    if n == 0 then []
    else
      BothBelow(candles, referenceTime, highs, lows, n - 1)
      + if Contribution(candles, referenceTime, highs, lows, n - 1) == [] then []
        else [BreaksBothWays(candles, highs, lows, n - 1)]
  }

  function BothWays(candles: seq<Candle>, referenceTime: Instant): seq<bool>
  {
    BothBelow(candles, referenceTime, ConfirmedSwings(candles, true), ConfirmedSwings(candles, false), |candles|)
  }

  /** The mirrored event: flipped, unless its candle breaks both ways, which is LONG again. */
  function MirroredEvent(e: BreakEvent, both: bool): BreakEvent
  {
    if both then e else FlipEvent(e)
  }

  ghost predicate MirrorsEvents(events: seq<BreakEvent>, both: seq<bool>, mirrored: seq<BreakEvent>)
  {
    && |both| == |events| == |mirrored|
    && forall k :: 0 <= k < |events| ==>
         mirrored[k] == MirroredEvent(events[k], both[k]) && (both[k] ==> events[k].direction == LONG)
  }

  lemma MirroredBreak(c: Candle, highs: seq<SwingPoint>, lows: seq<SwingPoint>)
    ensures var both := BreaksUp(c.close, highs) && BreaksDown(c.close, lows);
            var events := BreakOf(c, highs, lows);
            MirrorsEvents(events, if events == [] then [] else [both],
                          BreakOf(MirrorCandle(c), Negate(lows), Negate(highs)))
  {
    assert BreaksUp(-c.close, Negate(lows)) <==> BreaksDown(c.close, lows);
    assert BreaksDown(-c.close, Negate(highs)) <==> BreaksUp(c.close, highs);
  }

  lemma MirroredContribution(candles: seq<Candle>, referenceTime: Instant, highs: seq<SwingPoint>,
                             lows: seq<SwingPoint>, i: nat)
    requires i < |candles|
    ensures var events := Contribution(candles, referenceTime, highs, lows, i);
            MirrorsEvents(events, if events == [] then [] else [BreaksBothWays(candles, highs, lows, i)],
                          Contribution(Mirror(candles), referenceTime, Negate(lows), Negate(highs), i))
  {
    hide BreakOf, BreaksUp, BreaksDown, PriorSwings, Negate;
    var c := candles[i];
    PriorNegated(highs, i, c.closeTime);
    PriorNegated(lows, i, c.closeTime);
    MirroredBreak(c, PriorSwings(highs, i, c.closeTime), PriorSwings(lows, i, c.closeTime));
  }

  lemma MirrorsAppend(events: seq<BreakEvent>, both: seq<bool>, mirrored: seq<BreakEvent>,
                      events': seq<BreakEvent>, both': seq<bool>, mirrored': seq<BreakEvent>)
    requires MirrorsEvents(events, both, mirrored) && MirrorsEvents(events', both', mirrored')
    ensures MirrorsEvents(events + events', both + both', mirrored + mirrored')
  {
  }

  lemma {:induction false} MirroredBelow(candles: seq<Candle>, referenceTime: Instant, highs: seq<SwingPoint>,
                                         lows: seq<SwingPoint>, n: nat)
    requires n <= |candles|
    ensures MirrorsEvents(EventsBelow(candles, referenceTime, highs, lows, n),
                          BothBelow(candles, referenceTime, highs, lows, n),
                          EventsBelow(Mirror(candles), referenceTime, Negate(lows), Negate(highs), n))
    decreases n
  {
    hide Contribution, BreaksBothWays, MirroredEvent, Negate, MirrorCandle;
    if n > 0 {
      MirroredBelow(candles, referenceTime, highs, lows, n - 1);
      MirroredContribution(candles, referenceTime, highs, lows, n - 1);
      hide MirrorsEvents;
      var last := Contribution(candles, referenceTime, highs, lows, n - 1);
      MirrorsAppend(EventsBelow(candles, referenceTime, highs, lows, n - 1),
                    BothBelow(candles, referenceTime, highs, lows, n - 1),
                    EventsBelow(Mirror(candles), referenceTime, Negate(lows), Negate(highs), n - 1),
                    last, if last == [] then [] else [BreaksBothWays(candles, highs, lows, n - 1)],
                    Contribution(Mirror(candles), referenceTime, Negate(lows), Negate(highs), n - 1));
    }
  }

  /** The break events of the mirror, for every series: each event flipped, except those of
      candles that break both ways, which stay LONG. */
  lemma MirroredEvents(candles: seq<Candle>, referenceTime: Instant)
    ensures MirrorsEvents(BreakEvents(candles, referenceTime), BothWays(candles, referenceTime),
                          BreakEvents(Mirror(candles), referenceTime))
  {
    hide SwingsBelow, EventsBelow, BothBelow, MirrorsEvents, Negate, MirrorCandle;
    SwingsMirrored(candles, true, |candles| - 2);
    SwingsMirrored(candles, false, |candles| - 2);
    MirroredBelow(candles, referenceTime, ConfirmedSwings(candles, true), ConfirmedSwings(candles, false), |candles|);
  }

  // ---------------------------------------------------------------- counting for a side

  /** An event as the mirrored market sees it: it counts for LONG when it is LONG and one-sided,
      and for SHORT when it is SHORT or breaks both ways. */
  predicate CountsFor(e: BreakEvent, both: bool, d: Direction)
  {
    if d == LONG then e.direction == LONG && !both else e.direction == SHORT || both
  }

  /** The trend is `d`, the last 1h event counts for `d`, and some later 15m event counts for `d`. */
  predicate ConfirmsMirrored(h4: seq<Candle>, h1: seq<Candle>, m15: seq<Candle>, d: Direction, t: Instant)
  {
    MirroredEvents(h1, t);
    MirroredEvents(m15, t);
    var (events, both) := (BreakEvents(h1, t), BothWays(h1, t));
    && Trend(h4, t) == Some(d)
    && |events| > 0 && CountsFor(events[|events| - 1], both[|events| - 1], d)
    && CountsLater(BreakEvents(m15, t), BothWays(m15, t), d, events[|events| - 1].at)
  }

  predicate CountsLater(events: seq<BreakEvent>, both: seq<bool>, d: Direction, t: Instant)
    requires |both| == |events|
  {
    exists k :: 0 <= k < |events| && CountsFor(events[k], both[k], d) && events[k].at > t
  }

  lemma CountsMirrored(events: seq<BreakEvent>, both: seq<bool>, mirrored: seq<BreakEvent>, d: Direction, k: nat)
    requires MirrorsEvents(events, both, mirrored) && k < |events|
    ensures mirrored[k].at == events[k].at
    ensures mirrored[k].direction == Opposite(d) <==> CountsFor(events[k], both[k], d)
  {
  }

  lemma LaterMirrored(events: seq<BreakEvent>, both: seq<bool>, mirrored: seq<BreakEvent>, d: Direction, t: Instant)
    requires MirrorsEvents(events, both, mirrored)
    ensures BreaksOutAfter(mirrored, Opposite(d), t) <==> CountsLater(events, both, d, t)
  {
    forall k | 0 <= k < |events|
      ensures mirrored[k].at == events[k].at
      ensures mirrored[k].direction == Opposite(d) <==> CountsFor(events[k], both[k], d)
    {
      CountsMirrored(events, both, mirrored, d, k);
    }
    hide CountsFor, MirrorsEvents;
    if BreaksOutAfter(mirrored, Opposite(d), t) {
      var k :| 0 <= k < |mirrored| && mirrored[k].direction == Opposite(d) && mirrored[k].at > t;
      assert CountsFor(events[k], both[k], d) && events[k].at > t;
    }
    if CountsLater(events, both, d, t) {
      var k :| 0 <= k < |events| && CountsFor(events[k], both[k], d) && events[k].at > t;
      assert mirrored[k].direction == Opposite(d) && mirrored[k].at > t;
    }
  }

  lemma TrendMirrored(h4: seq<Candle>, d: Direction, t: Instant)
    ensures Trend(Mirror(h4), t) == Some(Opposite(d)) <==> Trend(h4, t) == Some(d)
  {
    hide Trend, Mirror;
    TrendFlips(h4, t);
  }

  /** Whether the mirrored market confirms the other side, read off the original market. */
  lemma MirrorConfirmsIff(h4: seq<Candle>, h1: seq<Candle>, m15: seq<Candle>, d: Direction, t: Instant)
    ensures Confirms(Mirror(h4), Mirror(h1), Mirror(m15), Opposite(d), t) <==> ConfirmsMirrored(h4, h1, m15, d, t)
  {
    hide Trend, BreakEvents, BothWays, Mirror, CountsFor, CountsLater, BreaksOutAfter;
    MirroredEvents(h1, t);
    MirroredEvents(m15, t);
    var (events, both, mirrored) := (BreakEvents(h1, t), BothWays(h1, t), BreakEvents(Mirror(h1), t));
    if |events| > 0 {
      CountsMirrored(events, both, mirrored, d, |events| - 1);
      LaterMirrored(BreakEvents(m15, t), BothWays(m15, t), BreakEvents(Mirror(m15), t), d, events[|events| - 1].at);
    }
    TrendMirrored(h4, d, t);
  }

  // ---------------------------------------------------------------- verdicts

  datatype Verdict = Unconfirmed | Invalidated | Entered

  /** What the structure and the breakout say once the trend is the side's, given which events
      count for the side. */
  function VerdictOf(h1: seq<BreakEvent>, forSide: seq<bool>, m15: seq<BreakEvent>, laterForSide: seq<bool>): Verdict
    requires |forSide| == |h1| && |laterForSide| == |m15|
  {
    if forall k :: 0 <= k < |h1| ==> !forSide[k] then Unconfirmed
    else if !forSide[|h1| - 1] then Invalidated
    else if exists k :: 0 <= k < |m15| && laterForSide[k] && m15[k].at > h1[|h1| - 1].at then Entered
    else Unconfirmed
  }

  function Sides(events: seq<BreakEvent>, d: Direction): seq<bool>
  {
    seq(|events|, k requires 0 <= k < |events| => events[k].direction == d)
  }

  function MirroredSides(events: seq<BreakEvent>, both: seq<bool>, d: Direction): seq<bool>
    requires |both| == |events|
  {
    seq(|events|, k requires 0 <= k < |events| => CountsFor(events[k], both[k], d))
  }

  function VerdictEvaluation(d: Direction, v: Verdict): StrategyEvaluation
  {
    match v
    case Unconfirmed => StrategyEvaluation(d, false, ENTRY_NOT_CONFIRMED)
    case Invalidated => StrategyEvaluation(d, false, ChochReason(d))
    case Entered => StrategyEvaluation(d, true, EntryReason(d))
  }

  function VerdictFor(h1: seq<Candle>, m15: seq<Candle>, d: Direction, t: Instant): Verdict
  {
    VerdictOf(BreakEvents(h1, t), Sides(BreakEvents(h1, t), d), BreakEvents(m15, t), Sides(BreakEvents(m15, t), d))
  }

  /** The verdict of the mirrored market about the other side, read off the original market. */
  function MirroredVerdictFor(h1: seq<Candle>, m15: seq<Candle>, d: Direction, t: Instant): Verdict
  {
    MirroredEvents(h1, t);
    MirroredEvents(m15, t);
    VerdictOf(BreakEvents(h1, t), MirroredSides(BreakEvents(h1, t), BothWays(h1, t), d),
              BreakEvents(m15, t), MirroredSides(BreakEvents(m15, t), BothWays(m15, t), d))
  }

  lemma VerdictMeans(h1: seq<BreakEvent>, m15: seq<BreakEvent>, d: Direction)
    ensures var v := VerdictOf(h1, Sides(h1, d), m15, Sides(m15, d));
            && (HasDirection(h1, d) <==> exists k :: 0 <= k < |h1| && Sides(h1, d)[k])
            && (v == Entered <==> |h1| > 0 && h1[|h1| - 1].direction == d && BreaksOutAfter(m15, d, h1[|h1| - 1].at))
            && (v == Invalidated <==> HasDirection(h1, d) && h1[|h1| - 1].direction != d)
  {
    var sides, later := Sides(h1, d), Sides(m15, d);
    assert forall k :: 0 <= k < |h1| ==> (sides[k] <==> h1[k].direction == d);
    if HasDirection(h1, d) {
      var e :| e in h1 && e.direction == d;
      var k :| 0 <= k < |h1| && h1[k] == e;
      assert sides[k];
    }
    if k :| 0 <= k < |h1| && sides[k] {
      assert h1[k] in h1 && h1[k].direction == d;
    }
    if |h1| > 0 {
      LaterSides(m15, d, h1[|h1| - 1].at);
    }
  }

  lemma LaterSides(m15: seq<BreakEvent>, d: Direction, t: Instant)
    ensures BreaksOutAfter(m15, d, t) <==> exists k :: 0 <= k < |m15| && Sides(m15, d)[k] && m15[k].at > t
  {
    var later := Sides(m15, d);
    if BreaksOutAfter(m15, d, t) {
      var k :| 0 <= k < |m15| && m15[k].direction == d && m15[k].at > t;
      assert later[k] && m15[k].at > t;
    }
    if k :| 0 <= k < |m15| && later[k] && m15[k].at > t {
      assert m15[k].direction == d && m15[k].at > t;
    }
  }

  /** The evaluation of series in time order, by trend and verdict. */
  lemma SeriesVerdict(h4: seq<Candle>, h1: seq<Candle>, m15: seq<Candle>, d: Direction, t: Instant)
    requires Ascending(h1)
    ensures EvaluateSeries(h4, h1, m15, d, t)
            == if Trend(h4, t) != Some(d) then StrategyEvaluation(d, false, TrendReason(Trend(h4, t)))
               else VerdictEvaluation(d, VerdictFor(h1, m15, d, t))
  {
    SeriesOutcome(h4, h1, m15, d, t);
    VerdictMeans(BreakEvents(h1, t), BreakEvents(m15, t), d);
    SeriesKeepDirection(h4, h1, m15, d, t);
    hide Trend, BreakEvents, EvaluateSeries, HasDirection, BreaksOutAfter, VerdictOf;
  }

  lemma SeriesKeepDirection(h4: seq<Candle>, h1: seq<Candle>, m15: seq<Candle>, d: Direction, t: Instant)
    ensures EvaluateSeries(h4, h1, m15, d, t).direction == d
  {
    hide Trend, BreakEvents, BosAndChoch, BreaksOutAfter;
  }

  lemma MirroredVerdict(h1: seq<Candle>, m15: seq<Candle>, d: Direction, t: Instant)
    ensures VerdictFor(Mirror(h1), Mirror(m15), Opposite(d), t) == MirroredVerdictFor(h1, m15, d, t)
  {
    MirroredEvents(h1, t);
    MirroredEvents(m15, t);
    SidesMirrored(BreakEvents(h1, t), BothWays(h1, t), BreakEvents(Mirror(h1), t), d);
    SidesMirrored(BreakEvents(m15, t), BothWays(m15, t), BreakEvents(Mirror(m15), t), d);
    hide BreakEvents, BothWays, Mirror, Sides, MirroredSides, MirrorsEvents;
  }

  lemma SidesMirrored(events: seq<BreakEvent>, both: seq<bool>, mirrored: seq<BreakEvent>, d: Direction)
    requires MirrorsEvents(events, both, mirrored)
    ensures |both| == |events| == |mirrored|
    ensures Sides(mirrored, Opposite(d)) == MirroredSides(events, both, d)
    ensures forall k :: 0 <= k < |events| ==> mirrored[k].at == events[k].at
  {
  }

  // ---------------------------------------------------------------- when an evaluation flips

  lemma VerdictsFlip(d: Direction, v: Verdict, v': Verdict)
    ensures VerdictEvaluation(Opposite(d), v') == FlipEvaluation(VerdictEvaluation(d, v)) <==> v == v'
  {
  }

  lemma TrendReasonFlips(d: Direction, trend: Option<Direction>)
    requires trend != Some(d)
    ensures StrategyEvaluation(Opposite(d), false, TrendReason(FlipTrend(trend)))
            == FlipEvaluation(StrategyEvaluation(d, false, TrendReason(trend)))
  {
  }

  /** The evaluation of three series flips exactly when the trend is not the side's or the two
      verdicts agree. */
  lemma SeriesFlipIff(h4: seq<Candle>, h1: seq<Candle>, m15: seq<Candle>, d: Direction, t: Instant)
    requires Ascending(h1)
    ensures EvaluateSeries(Mirror(h4), Mirror(h1), Mirror(m15), Opposite(d), t)
            == FlipEvaluation(EvaluateSeries(h4, h1, m15, d, t))
            <==> (Trend(h4, t) == Some(d) ==> VerdictFor(h1, m15, d, t) == MirroredVerdictFor(h1, m15, d, t))
  {
    assert Ascending(Mirror(h1));
    hide Trend, EvaluateSeries, Mirror, VerdictFor, MirroredVerdictFor, VerdictEvaluation, FlipEvaluation, TrendReason;
    SeriesVerdict(h4, h1, m15, d, t);
    SeriesVerdict(Mirror(h4), Mirror(h1), Mirror(m15), Opposite(d), t);
    MirroredVerdict(h1, m15, d, t);
    TrendFlips(h4, t);
    if Trend(h4, t) == Some(d) {
      VerdictsFlip(d, VerdictFor(h1, m15, d, t), MirroredVerdictFor(h1, m15, d, t));
    } else {
      TrendReasonFlips(d, Trend(h4, t));
    }
  }

  /** The series checks pass and the symbol has candles in all three timeframes. */
  predicate Usable(candles: seq<Candle>, symbol: string)
  {
    && CandlesFor(candles, symbol, H4) != [] && CandlesFor(candles, symbol, H1) != []
    && CandlesFor(candles, symbol, M15) != [] && FirstFault(candles).None?
  }

  lemma UsableMirrored(candles: seq<Candle>, symbol: string)
    ensures Usable(Mirror(candles), symbol) <==> Usable(candles, symbol)
    ensures FirstFault(Mirror(candles)) == FirstFault(candles)
    ensures CandlesFor(Mirror(candles), symbol, H4) == Mirror(CandlesFor(candles, symbol, H4))
    ensures CandlesFor(Mirror(candles), symbol, H1) == Mirror(CandlesFor(candles, symbol, H1))
    ensures CandlesFor(Mirror(candles), symbol, M15) == Mirror(CandlesFor(candles, symbol, M15))
  {
    hide CandlesFor, SnapshotReasons, MirrorCandle;
    CandlesForMirrored(candles, symbol, H4);
    CandlesForMirrored(candles, symbol, H1);
    CandlesForMirrored(candles, symbol, M15);
    SnapshotReasonsMirrored(candles, H4);
    SnapshotReasonsMirrored(candles, H1);
    SnapshotReasonsMirrored(candles, M15);
  }

  /** A snapshot's evaluation flips, eligibility and reason, exactly when it is not usable, or the
      trend is not the side's, or the two verdicts about the original series agree. */
  lemma EvaluationFlipsIff(candles: seq<Candle>, symbol: string, d: Direction, t: Instant)
    ensures var (h4, h1, m15) :=
              (CandlesFor(candles, symbol, H4), CandlesFor(candles, symbol, H1), CandlesFor(candles, symbol, M15));
            Evaluate(Mirror(candles), symbol, Opposite(d), t) == FlipEvaluation(Evaluate(candles, symbol, d, t))
            <==> (Usable(candles, symbol) && Trend(h4, t) == Some(d)
                  ==> VerdictFor(h1, m15, d, t) == MirroredVerdictFor(h1, m15, d, t))
  {
    hide CandlesFor, EvaluateSeries, Mirror, Trend, VerdictFor, MirroredVerdictFor, Ascending, Evaluate, FlipEvaluation;
    if Usable(candles, symbol) {
      UsableMirrored(candles, symbol);
      UsableSeries(candles, symbol, d, t);
      UsableSeries(Mirror(candles), symbol, Opposite(d), t);
      SeriesFlipIff(CandlesFor(candles, symbol, H4), CandlesFor(candles, symbol, H1),
                    CandlesFor(candles, symbol, M15), d, t);
    } else {
      UnusableFlips(candles, symbol, d, t);
    }
  }

  lemma UsableSeries(candles: seq<Candle>, symbol: string, d: Direction, t: Instant)
    requires Usable(candles, symbol)
    ensures Ascending(CandlesFor(candles, symbol, H1))
    ensures Evaluate(candles, symbol, d, t)
            == EvaluateSeries(CandlesFor(candles, symbol, H4), CandlesFor(candles, symbol, H1),
                              CandlesFor(candles, symbol, M15), d, t)
  {
    NoFaultMeansNoReasons(candles);
    hide CandlesFor, EvaluateSeries, FirstFault, SnapshotReasons, Ascending;
    SoundSeries(candles, symbol, H1);
  }

  lemma UnusableFlips(candles: seq<Candle>, symbol: string, d: Direction, t: Instant)
    requires !Usable(candles, symbol)
    ensures Evaluate(Mirror(candles), symbol, Opposite(d), t) == FlipEvaluation(Evaluate(candles, symbol, d, t))
  {
    UsableMirrored(candles, symbol);
    FaultIsDataReason(candles);
    hide CandlesFor, EvaluateSeries, FirstFault, MirrorCandle;
  }

  lemma NoFaultMeansNoReasons(candles: seq<Candle>)
    ensures FirstFault(candles).None? ==> SnapshotReasons(candles, H1) == []
  {
    hide SnapshotReasons;
  }

  /** Eligibility alone: the mirrored market finds the other side eligible exactly when the
      snapshot is usable and the original series confirm by the events that count. */
  lemma MirroredEligibleIff(candles: seq<Candle>, symbol: string, d: Direction, t: Instant)
    ensures Evaluate(Mirror(candles), symbol, Opposite(d), t).eligible <==>
              && Usable(candles, symbol)
              && ConfirmsMirrored(CandlesFor(candles, symbol, H4), CandlesFor(candles, symbol, H1),
                                  CandlesFor(candles, symbol, M15), d, t)
    ensures Evaluate(candles, symbol, d, t).eligible <==>
              && Usable(candles, symbol)
              && Confirms(CandlesFor(candles, symbol, H4), CandlesFor(candles, symbol, H1),
                          CandlesFor(candles, symbol, M15), d, t)
  {
    UsableMirrored(candles, symbol);
    NoFault(candles);
    NoFault(Mirror(candles));
    hide CandlesFor, FirstFault, TimeframeSound, Mirror, Confirms, ConfirmsMirrored, Evaluate;
    EligibleIff(candles, symbol, d, t);
    EligibleIff(Mirror(candles), symbol, Opposite(d), t);
    MirrorConfirmsIff(CandlesFor(candles, symbol, H4), CandlesFor(candles, symbol, H1),
                      CandlesFor(candles, symbol, M15), d, t);
  }

  /** So LONG eligibility can only be lost in the mirror and SHORT eligibility only gained, and
      each exactly where the events that count differ from the events of the direction. */
  lemma EligibilityFlipsIff(candles: seq<Candle>, symbol: string, d: Direction, t: Instant)
    ensures var (h4, h1, m15) :=
              (CandlesFor(candles, symbol, H4), CandlesFor(candles, symbol, H1), CandlesFor(candles, symbol, M15));
            var here := Evaluate(candles, symbol, d, t).eligible;
            var there := Evaluate(Mirror(candles), symbol, Opposite(d), t).eligible;
            && (here == there
                <==> (Usable(candles, symbol) ==>
                        (Confirms(h4, h1, m15, d, t) <==> ConfirmsMirrored(h4, h1, m15, d, t))))
            && (d == LONG ==> (there ==> here)) && (d == SHORT ==> (here ==> there))
  {
    MirroredEligibleIff(candles, symbol, d, t);
    var (h4, h1, m15) :=
      (CandlesFor(candles, symbol, H4), CandlesFor(candles, symbol, H1), CandlesFor(candles, symbol, M15));
    CountingIsOneWay(h4, h1, m15, d, t);
    hide CandlesFor, Confirms, ConfirmsMirrored, Evaluate, Usable, Mirror;
  }

  lemma CountingIsOneWay(h4: seq<Candle>, h1: seq<Candle>, m15: seq<Candle>, d: Direction, t: Instant)
    ensures d == LONG && ConfirmsMirrored(h4, h1, m15, d, t) ==> Confirms(h4, h1, m15, d, t)
    ensures d == SHORT && Confirms(h4, h1, m15, d, t) ==> ConfirmsMirrored(h4, h1, m15, d, t)
  {
    MirroredEvents(h1, t);
    MirroredEvents(m15, t);
    hide Trend, BreakEvents, BothWays, Mirror;
    var (events, both) := (BreakEvents(m15, t), BothWays(m15, t));
    assert forall k :: 0 <= k < |events| && events[k].direction == SHORT ==> CountsFor(events[k], both[k], SHORT);
    assert forall k :: 0 <= k < |events| && CountsFor(events[k], both[k], LONG) ==> events[k].direction == LONG;
  }
}
