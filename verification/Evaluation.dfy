/** The three-timeframe evaluator: a 4h trend, the 1h structure, then a 15m breakout. */
module Evaluation {
  import opened Wrappers
  import opened IsoTime
  import opened Text
  import opened Domain
  import opened MarketData
  import opened Reasons
  import opened Series
  import opened Strategy

  datatype StrategyEvaluation = StrategyEvaluation(direction: Direction, eligible: bool, reason: Reason)

  // ---------------------------------------------------------------- structure

  function SameDirection(events: seq<BreakEvent>, d: Direction): seq<BreakEvent>
  {
    if |events| == 0 then []
    else
      var n := |events| - 1;
      SameDirection(events[..n], d) + if events[n].direction == d then [events[n]] else []
  }

  function LaterOpposite(events: seq<BreakEvent>, t: Instant, d: Direction): seq<BreakEvent>
  {
    if |events| == 0 then []
    else
      var n := |events| - 1;
      LaterOpposite(events[..n], t, d) + if events[n].at > t && events[n].direction != d then [events[n]] else []
  }

  datatype Structure = Structure(bos: Option<BreakEvent>, choch: Option<BreakEvent>)

  function Last(events: seq<BreakEvent>): Option<BreakEvent>
  {
    if |events| == 0 then None else Some(events[|events| - 1])
  }

  /** `_latest_bos_and_choch`, given the break events. */
  function BosAndChoch(events: seq<BreakEvent>, d: Direction): Structure
  {
    var same := SameDirection(events, d);
    if |same| == 0 then Structure(None, None)
    else
      var bos := same[|same| - 1];
      Structure(Some(bos), Last(LaterOpposite(events, bos.at, d)))
  }

  lemma {:induction false} SameDirectionMeans(events: seq<BreakEvent>, d: Direction)
    ensures forall e :: e in SameDirection(events, d) <==> e in events && e.direction == d
    decreases |events|
  {
    if |events| > 0 {
      var n := |events| - 1;
      SameDirectionMeans(events[..n], d);
      assert events == events[..n] + [events[n]];
    }
  }

  lemma {:induction false} LastSameIsLatest(events: seq<BreakEvent>, d: Direction)
    requires EventsAscend(events) && |SameDirection(events, d)| > 0
    ensures var same := SameDirection(events, d);
            forall e :: e in same ==> e.at <= same[|same| - 1].at
    decreases |events|
  {
    var n := |events| - 1;
    if events[n].direction == d {
      SameDirectionMeans(events, d);
      forall e | e in SameDirection(events, d) ensures e.at <= events[n].at { LastEventLatest(events, e); }
    } else {
      LastSameIsLatest(events[..n], d);
    }
  }

  lemma {:induction false} LaterOppositeMeans(events: seq<BreakEvent>, t: Instant, d: Direction)
    ensures forall e :: e in LaterOpposite(events, t, d) <==> e in events && e.at > t && e.direction != d
    decreases |events|
  {
    if |events| > 0 {
      var n := |events| - 1;
      LaterOppositeMeans(events[..n], t, d);
      assert events == events[..n] + [events[n]];
    }
  }

  lemma {:induction false} NoLaterOpposite(events: seq<BreakEvent>, t: Instant, d: Direction)
    requires forall e :: e in events ==> e.at <= t
    ensures LaterOpposite(events, t, d) == []
    decreases |events|
  {
    if |events| > 0 {
      NoLaterOpposite(events[..|events| - 1], t, d);
    }
  }

  lemma LastEventLatest(events: seq<BreakEvent>, e: BreakEvent)
    requires EventsAscend(events) && e in events
    ensures e.at <= events[|events| - 1].at
    ensures e.at == events[|events| - 1].at ==> e == events[|events| - 1]
  {
  }

  /** Of events in time order, the BOS is the latest one of the direction; a CHOCH is
      reported exactly when the very last event is of the other direction, and it is that
      event. */
  lemma StructureClosedForm(events: seq<BreakEvent>, d: Direction)
    requires EventsAscend(events)
    ensures var s := BosAndChoch(events, d);
            && (s.bos.None? <==> forall e :: e in events ==> e.direction != d)
            && (s.bos.Some? ==> s.bos.value in events && s.bos.value.direction == d
                                && forall e :: e in events && e.direction == d ==> e.at <= s.bos.value.at)
            && s.choch == (if s.bos.Some? && events[|events| - 1].direction != d then Last(events) else None)
            && (s.bos.Some? && s.choch.None? ==> s.bos == Last(events))
  {
    var same := SameDirection(events, d);
    SameDirectionMeans(events, d);
    if |same| > 0 {
      LastSameIsLatest(events, d);
      var bos, last := same[|same| - 1], events[|events| - 1];
      var opposite := LaterOpposite(events, bos.at, d);
      assert bos in same;
      LastEventLatest(events, bos);
      LaterOppositeMeans(events, bos.at, d);
      LastOpposite(events, bos.at, d);
      if last.direction == d {
        assert last in same;
        forall e | e in events ensures e.at <= bos.at { LastEventLatest(events, e); }
        NoLaterOpposite(events, bos.at, d);
      } else {
        assert last in opposite;
      }
    }
  }

  lemma LastOpposite(events: seq<BreakEvent>, t: Instant, d: Direction)
    ensures |events| > 0 && events[|events| - 1].at > t && events[|events| - 1].direction != d
            ==> Last(LaterOpposite(events, t, d)) == Last(events)
  {
  }

  // ---------------------------------------------------------------- evaluation

  predicate BreaksOutAfter(events: seq<BreakEvent>, d: Direction, t: Instant)
  {
    exists i :: 0 <= i < |events| && events[i].direction == d && events[i].at > t
  }

  function TrendReason(t: Option<Direction>): Reason
  {
    match t
    case None => TREND_NEUTRAL
    case Some(LONG) => TREND_LONG_CONFIRMED
    case Some(SHORT) => TREND_SHORT_CONFIRMED
  }

  function ChochReason(d: Direction): Reason
  {
    if d == LONG then STRUCTURE_CHOCH_LONG_INVALIDATED else STRUCTURE_CHOCH_SHORT_INVALIDATED
  }

  function EntryReason(d: Direction): Reason
  {
    if d == LONG then ENTRY_BREAKOUT_LONG else ENTRY_BREAKOUT_SHORT
  }

  /** What `evaluate` does once the three series have passed their checks. */
  function EvaluateSeries(h4: seq<Candle>, h1: seq<Candle>, m15: seq<Candle>, d: Direction, referenceTime: Instant)
    : StrategyEvaluation
  {
    var trend := Trend(h4, referenceTime);
    if trend != Some(d) then StrategyEvaluation(d, false, TrendReason(trend))
    else
      var structure := BosAndChoch(BreakEvents(h1, referenceTime), d);
      if structure.bos.None? then StrategyEvaluation(d, false, ENTRY_NOT_CONFIRMED)
      else if structure.choch.Some? then StrategyEvaluation(d, false, ChochReason(d))
      else if !BreaksOutAfter(BreakEvents(m15, referenceTime), d, structure.bos.value.at) then
        StrategyEvaluation(d, false, ENTRY_NOT_CONFIRMED)
      else StrategyEvaluation(d, true, EntryReason(d))
  }

  const H4: string := "4h"
  const H1: string := "1h"
  const M15: string := "15m"

  /** The first reason of the first timeframe whose report is invalid. */
  function FirstFault(candles: seq<Candle>): Option<Reason>
  {
    var (r4, r1, r15) := (SnapshotReasons(candles, H4), SnapshotReasons(candles, H1), SnapshotReasons(candles, M15));
    if r4 != [] then Some(r4[0])
    else if r1 != [] then Some(r1[0])
    else if r15 != [] then Some(r15[0])
    else None
  }

  /** `MultiTimeframeStrategyEvaluator.evaluate`, for the candles of the request's snapshot. */
  function Evaluate(candles: seq<Candle>, symbol: string, d: Direction, referenceTime: Instant): StrategyEvaluation
  {
    var h4 := CandlesFor(candles, symbol, H4);
    var h1 := CandlesFor(candles, symbol, H1);
    var m15 := CandlesFor(candles, symbol, M15);
    if |h4| == 0 || |h1| == 0 || |m15| == 0 then StrategyEvaluation(d, false, INSUFFICIENT_SWING_CONTEXT)
    else
      match FirstFault(candles)
      case Some(reason) => StrategyEvaluation(d, false, reason)
      case None => EvaluateSeries(h4, h1, m15, d, referenceTime)
  }

  // ---------------------------------------------------------------- reasons

  predicate DataReason(r: Reason)
  {
    r.EMPTY_SERIES? || r.INVALID_TIMEFRAME? || r.TIMEFRAME_MISMATCH? || r.NON_DETERMINISTIC_ORDER?
    || r.DUPLICATE_CANDLE? || r.INVALID_CANDLE_DURATION? || r.OVERLAPPING_CANDLES? || r.CANDLE_GAP?
  }

  lemma {:induction false} AdjacencyIsDataReason(ordered: seq<Candle>, i: nat)
    ensures forall r :: r in AdjacencyReasons(ordered, i) ==> DataReason(r)
    decreases |ordered| - i
  {
    if i + 1 < |ordered| { AdjacencyIsDataReason(ordered, i + 1); }
  }

  lemma SeriesReasonsAreData(series: seq<Candle>, timeframe: string)
    ensures forall r :: r in SeriesReasons(series, timeframe) ==> DataReason(r)
  {
    hide SortByOpen, ParseTimeframe, HasMismatch, HasDuplicate, HasWrongDuration, AdjacencyReasons;
    AdjacencyIsDataReason(SortByOpen(series), 0);
  }

  lemma {:induction false} ReasonsOfSymbolsAreData(candles: seq<Candle>, symbols: seq<string>, timeframe: string)
    ensures forall r :: r in ReasonsOfSymbols(candles, symbols, timeframe) ==> DataReason(r)
    decreases |symbols|
  {
    hide SeriesReasons, CandlesFor, DataReason;
    if |symbols| > 0 {
      SeriesReasonsAreData(CandlesFor(candles, symbols[0], timeframe), timeframe);
      ReasonsOfSymbolsAreData(candles, symbols[1..], timeframe);
    }
  }

  /** A series check only ever answers with one of its own eight reasons. */
  lemma FaultIsDataReason(candles: seq<Candle>)
    ensures FirstFault(candles).Some? ==> DataReason(FirstFault(candles).value)
  {
    hide ParseTimeframe, SymbolsOf, ReasonsOfSymbols, SortedStrings;
    forall timeframe: string ensures SnapshotReasons(candles, timeframe) != []
      ==> DataReason(SnapshotReasons(candles, timeframe)[0]) {
      ReasonsOfSymbolsAreData(candles, SortedStrings(SymbolsOf(candles, timeframe)), timeframe);
    }
  }

  // ---------------------------------------------------------------- closed form

  /** Every symbol's series of the timeframe is integral, and the timeframe is present. */
  predicate TimeframeSound(candles: seq<Candle>, timeframe: string)
  {
    && ParseTimeframe(timeframe).Some?
    && SymbolsOf(candles, timeframe) != {}
    && forall s :: s in SymbolsOf(candles, timeframe) ==> Integral(CandlesFor(candles, s, timeframe), timeframe)
  }

  lemma SymbolPresent(candles: seq<Candle>, symbol: string, timeframe: string)
    requires |CandlesFor(candles, symbol, timeframe)| > 0
    ensures symbol in SymbolsOf(candles, timeframe)
  {
    assert CandlesFor(candles, symbol, timeframe)[0] in candles;
  }

  lemma SoundSeries(candles: seq<Candle>, symbol: string, timeframe: string)
    ensures SnapshotReasons(candles, timeframe) == [] && |CandlesFor(candles, symbol, timeframe)| > 0
            ==> Ascending(CandlesFor(candles, symbol, timeframe))
  {
    SnapshotValidIff(candles, timeframe);
    ValidIffIntegral(CandlesFor(candles, symbol, timeframe), timeframe);
    if |CandlesFor(candles, symbol, timeframe)| > 0 { SymbolPresent(candles, symbol, timeframe); }
  }

  /** The trend is the side's, the very last 1h event has the side's direction, and some 15m
      event of that direction is later than it. */
  predicate Confirms(h4: seq<Candle>, h1: seq<Candle>, m15: seq<Candle>, d: Direction, referenceTime: Instant)
  {
    var structure := BreakEvents(h1, referenceTime);
    && Trend(h4, referenceTime) == Some(d)
    && |structure| > 0 && structure[|structure| - 1].direction == d
    && BreaksOutAfter(BreakEvents(m15, referenceTime), d, structure[|structure| - 1].at)
  }

  predicate HasDirection(events: seq<BreakEvent>, d: Direction)
  {
    exists e :: e in events && e.direction == d
  }

  /** The outcome on series in time order, reason and all. */
  lemma SeriesOutcome(h4: seq<Candle>, h1: seq<Candle>, m15: seq<Candle>, d: Direction, referenceTime: Instant)
    requires Ascending(h1)
    ensures var r := EvaluateSeries(h4, h1, m15, d, referenceTime);
            var trend, structure := Trend(h4, referenceTime), BreakEvents(h1, referenceTime);
            && (r.eligible <==> Confirms(h4, h1, m15, d, referenceTime))
            && r.reason == if trend != Some(d) then TrendReason(trend)
                           else if !HasDirection(structure, d) then ENTRY_NOT_CONFIRMED
                           else if structure[|structure| - 1].direction != d then ChochReason(d)
                           else if r.eligible then EntryReason(d)
                           else ENTRY_NOT_CONFIRMED
  {
    hide Trend, BreakEvents, BosAndChoch, BreaksOutAfter;
    BreakEventsAscend(h1, referenceTime);
    StructureClosedForm(BreakEvents(h1, referenceTime), d);
  }

  /** `evaluate`, on every snapshot: eligible exactly when the symbol has candles in all three
      timeframes, the snapshot's series are integral, and the three series confirm. */
  lemma EligibleIff(candles: seq<Candle>, symbol: string, d: Direction, referenceTime: Instant)
    ensures var (h4, h1, m15) := (CandlesFor(candles, symbol, H4), CandlesFor(candles, symbol, H1),
            CandlesFor(candles, symbol, M15));
            Evaluate(candles, symbol, d, referenceTime).eligible <==>
              && |h4| > 0 && |h1| > 0 && |m15| > 0
              && TimeframeSound(candles, H4) && TimeframeSound(candles, H1) && TimeframeSound(candles, M15)
              && Confirms(h4, h1, m15, d, referenceTime)
  {
    hide CandlesFor, Integral, SnapshotReasons, SymbolsOf, ParseTimeframe, EvaluateSeries, Confirms;
    var (h4, h1, m15) := (CandlesFor(candles, symbol, H4), CandlesFor(candles, symbol, H1),
      CandlesFor(candles, symbol, M15));
    SnapshotValidIff(candles, H4);
    SnapshotValidIff(candles, H1);
    SnapshotValidIff(candles, M15);
    if |h1| > 0 && SnapshotReasons(candles, H1) == [] {
      SoundSeries(candles, symbol, H1);
      SeriesOutcome(h4, h1, m15, d, referenceTime);
    }
  }

  /** The two sides of one symbol are never both eligible. */
  lemma NeverBothEligible(candles: seq<Candle>, symbol: string, referenceTime: Instant)
    ensures !(Evaluate(candles, symbol, LONG, referenceTime).eligible
            && Evaluate(candles, symbol, SHORT, referenceTime).eligible)
  {
    hide Trend, BreakEvents, BosAndChoch, CandlesFor, SnapshotReasons;
  }

  /** The direction of an eligible side is the 4h trend. */
  lemma EligibleFollowsTrend(candles: seq<Candle>, symbol: string, d: Direction, referenceTime: Instant)
    ensures Evaluate(candles, symbol, d, referenceTime).eligible ==>
              && Trend(CandlesFor(candles, symbol, H4), referenceTime) == Some(d)
              && Evaluate(candles, symbol, d, referenceTime).reason == EntryReason(d)
  {
    hide Trend, BreakEvents, BosAndChoch, CandlesFor, SnapshotReasons;
  }

  /** No look-ahead once the series have passed their checks: candles that had not closed at the
      reference time, in any of the three, cannot change the outcome. */
  lemma SeriesLookBackOnly(h4: seq<Candle>, h1: seq<Candle>, m15: seq<Candle>, d: Direction, referenceTime: Instant)
    requires Ascending(h4) && Ascending(h1) && Ascending(m15)
    ensures EvaluateSeries(h4, h1, m15, d, referenceTime)
            == EvaluateSeries(SelectClosed(h4, referenceTime), SelectClosed(h1, referenceTime),
                              SelectClosed(m15, referenceTime), d, referenceTime)
  {
    hide Trend, BreakEvents, BosAndChoch, BreaksOutAfter, SelectClosed;
    NoLookAhead(h4, referenceTime);
    NoLookAhead(h1, referenceTime);
    NoLookAhead(m15, referenceTime);
  }

  lemma ClosedOneMore(candles: seq<Candle>, c: Candle, t: Instant)
    ensures SelectClosed(candles + [c], t) == SelectClosed(candles, t) + if c.closeTime < t then [c] else []
  {
    assert (candles + [c])[..|candles|] == candles;
  }

  lemma OwnOneMore(candles: seq<Candle>, c: Candle, symbol: string, timeframe: string)
    ensures CandlesFor(candles + [c], symbol, timeframe)
            == CandlesFor(candles, symbol, timeframe)
               + if c.symbol == symbol && c.timeframe == timeframe then [c] else []
  {
    assert (candles + [c])[..|candles|] == candles;
  }

  lemma {:induction false} ClosedOfSymbol(candles: seq<Candle>, symbol: string, timeframe: string, t: Instant)
    ensures CandlesFor(SelectClosed(candles, t), symbol, timeframe)
            == SelectClosed(CandlesFor(candles, symbol, timeframe), t)
    decreases |candles|
  {
    if |candles| > 0 {
      hide SelectClosed, CandlesFor;
      var n := |candles| - 1;
      var c := candles[n];
      ClosedOfSymbol(candles[..n], symbol, timeframe, t);
      assert candles == candles[..n] + [c];
      ClosedOneMore(candles[..n], c, t);
      OwnOneMore(candles[..n], c, symbol, timeframe);
      ClosedOneMore(CandlesFor(candles[..n], symbol, timeframe), c, t);
      OwnOneMore(SelectClosed(candles[..n], t), c, symbol, timeframe);
      assert CandlesFor(SelectClosed(candles, t), symbol, timeframe)
          == SelectClosed(CandlesFor(candles, symbol, timeframe), t);
    }
  }

  /** The closed candles of a valid series, if any, are a valid series. */
  lemma ClosedIsIntegral(candles: seq<Candle>, timeframe: string, t: Instant)
    requires Integral(candles, timeframe)
    ensures Ascending(candles)
    ensures SelectClosed(candles, t) != [] ==> Integral(SelectClosed(candles, t), timeframe)
  {
    ValidIffIntegral(candles, timeframe);
    hide ParseTimeframe, SelectClosed;
    ClosedAreFirst(candles, t);
    var k := ClosedBefore(candles, t);
    assert forall i :: 0 <= i < k ==> candles[..k][i] == candles[i];
  }

  lemma ClosedSymbols(candles: seq<Candle>, timeframe: string, t: Instant, s: string)
    requires s in SymbolsOf(SelectClosed(candles, t), timeframe)
    ensures s in SymbolsOf(candles, timeframe) && CandlesFor(SelectClosed(candles, t), s, timeframe) != []
  {
    var closed := SelectClosed(candles, t);
    var i :| 0 <= i < |closed| && closed[i].timeframe == timeframe && closed[i].symbol == s;
    ClosedOfSymbol(candles, s, timeframe, t);
    SymbolPresent(candles, s, timeframe);
  }

  lemma ClosedIsSound(candles: seq<Candle>, symbol: string, timeframe: string, t: Instant)
    requires TimeframeSound(candles, timeframe) && CandlesFor(SelectClosed(candles, t), symbol, timeframe) != []
    ensures TimeframeSound(SelectClosed(candles, t), timeframe)
    ensures CandlesFor(candles, symbol, timeframe) != []
  {
    hide ParseTimeframe, SelectClosed, CandlesFor, Integral;
    var closed := SelectClosed(candles, t);
    SymbolPresent(closed, symbol, timeframe);
    forall s | s in SymbolsOf(closed, timeframe) ensures Integral(CandlesFor(closed, s, timeframe), timeframe) {
      ClosedSymbols(candles, timeframe, t, s);
      ClosedOfSymbol(candles, s, timeframe, t);
      ClosedIsIntegral(CandlesFor(candles, s, timeframe), timeframe, t);
    }
    ClosedOfSymbol(candles, symbol, timeframe, t);
    EmptyStaysEmpty(t);
  }

  lemma EmptyStaysEmpty(t: Instant)
    ensures SelectClosed([], t) == []
  {
  }

  /** The three closed series of a symbol. */
  predicate HasClosed(candles: seq<Candle>, symbol: string, timeframe: string, t: Instant)
  {
    CandlesFor(SelectClosed(candles, t), symbol, timeframe) != []
  }

  /** Where a series has no closed candle, its part of the confirmation fails. */
  lemma NothingClosed(series: seq<Candle>, t: Instant)
    requires Ascending(series) && SelectClosed(series, t) == []
    ensures Trend(series, t).None? && BreakEvents(series, t) == []
  {
    NoLookAhead(series, t);
  }

  lemma SeriesOfSound(candles: seq<Candle>, symbol: string, timeframe: string)
    requires TimeframeSound(candles, timeframe) && CandlesFor(candles, symbol, timeframe) != []
    ensures Ascending(CandlesFor(candles, symbol, timeframe))
  {
    SymbolPresent(candles, symbol, timeframe);
    ValidIffIntegral(CandlesFor(candles, symbol, timeframe), timeframe);
  }

  lemma NoFault(candles: seq<Candle>)
    ensures FirstFault(candles).None?
            <==> TimeframeSound(candles, H4) && TimeframeSound(candles, H1) && TimeframeSound(candles, M15)
  {
    hide SnapshotReasons, SymbolsOf, ParseTimeframe, Integral, CandlesFor;
    SnapshotValidIff(candles, H4);
    SnapshotValidIff(candles, H1);
    SnapshotValidIff(candles, M15);
  }

  /** No look-ahead in `evaluate` as a whole, checks included: on sound series it decides as on
      the candles that had closed at the reference time, and when the symbol has closed candles
      in all three timeframes it also gives the same reason. (A snapshot only holds candles that
      have closed; an unclosed one that spoils a series would be a fault.) */
  lemma EvaluationLooksBackOnly(candles: seq<Candle>, symbol: string, d: Direction, t: Instant)
    requires TimeframeSound(candles, H4) && TimeframeSound(candles, H1) && TimeframeSound(candles, M15)
    ensures Evaluate(candles, symbol, d, t).eligible == Evaluate(SelectClosed(candles, t), symbol, d, t).eligible
    ensures HasClosed(candles, symbol, H4, t) && HasClosed(candles, symbol, H1, t) && HasClosed(candles, symbol, M15, t)
            ==> Evaluate(candles, symbol, d, t) == Evaluate(SelectClosed(candles, t), symbol, d, t)
  {
    hide TimeframeSound, SelectClosed, CandlesFor, EvaluateSeries, FirstFault, Ascending;
    var closed := SelectClosed(candles, t);
    NoFault(candles);
    if HasClosed(candles, symbol, H4, t) && HasClosed(candles, symbol, H1, t) && HasClosed(candles, symbol, M15, t) {
      ClosedSeries(candles, symbol, H4, t);
      ClosedSeries(candles, symbol, H1, t);
      ClosedSeries(candles, symbol, M15, t);
      NoFault(closed);
      SeriesLookBackOnly(CandlesFor(candles, symbol, H4), CandlesFor(candles, symbol, H1),
                         CandlesFor(candles, symbol, M15), d, t);
    } else {
      NotConfirmed(candles, symbol, d, t);
    }
  }

  lemma ClosedSeries(candles: seq<Candle>, symbol: string, timeframe: string, t: Instant)
    requires TimeframeSound(candles, timeframe) && HasClosed(candles, symbol, timeframe, t)
    ensures TimeframeSound(SelectClosed(candles, t), timeframe)
    ensures CandlesFor(candles, symbol, timeframe) != [] && Ascending(CandlesFor(candles, symbol, timeframe))
    ensures CandlesFor(SelectClosed(candles, t), symbol, timeframe)
            == SelectClosed(CandlesFor(candles, symbol, timeframe), t)
  {
    ClosedIsSound(candles, symbol, timeframe, t);
    SeriesOfSound(candles, symbol, timeframe);
    ClosedOfSymbol(candles, symbol, timeframe, t);
  }

  lemma UnclosedSeries(candles: seq<Candle>, symbol: string, timeframe: string, t: Instant)
    requires TimeframeSound(candles, timeframe) && !HasClosed(candles, symbol, timeframe, t)
    ensures var series := CandlesFor(candles, symbol, timeframe);
            series != [] ==> Trend(series, t).None? && BreakEvents(series, t) == []
  {
    if CandlesFor(candles, symbol, timeframe) != [] {
      hide SelectClosed, CandlesFor, TimeframeSound, Trend, BreakEvents;
      SeriesOfSound(candles, symbol, timeframe);
      ClosedOfSymbol(candles, symbol, timeframe, t);
      NothingClosed(CandlesFor(candles, symbol, timeframe), t);
    }
  }

  lemma NotConfirmed(candles: seq<Candle>, symbol: string, d: Direction, t: Instant)
    requires TimeframeSound(candles, H4) && TimeframeSound(candles, H1) && TimeframeSound(candles, M15)
    requires !HasClosed(candles, symbol, H4, t) || !HasClosed(candles, symbol, H1, t)
             || !HasClosed(candles, symbol, M15, t)
    ensures !Evaluate(candles, symbol, d, t).eligible && !Evaluate(SelectClosed(candles, t), symbol, d, t).eligible
  {
    hide TimeframeSound, SelectClosed, CandlesFor, FirstFault, Trend, BreakEvents, Evaluate;
    if !HasClosed(candles, symbol, H4, t) { UnclosedSeries(candles, symbol, H4, t); }
    if !HasClosed(candles, symbol, H1, t) { UnclosedSeries(candles, symbol, H1, t); }
    if !HasClosed(candles, symbol, M15, t) { UnclosedSeries(candles, symbol, M15, t); }
    EligibleIff(candles, symbol, d, t);
    EligibleIff(SelectClosed(candles, t), symbol, d, t);
  }
}
