/** Turning the market upside down swaps the LONG and SHORT evaluations. */
module EvaluationSymmetry {
  import opened IsoTime
  import opened Text
  import opened Domain
  import opened MarketData
  import opened Reasons
  import opened Series
  import opened StableSort
  import opened Strategy
  import opened StrategySymmetry
  import opened Evaluation

  function FlipReason(r: Reason): Reason
  {
    match r
    case TREND_LONG_CONFIRMED => TREND_SHORT_CONFIRMED
    case TREND_SHORT_CONFIRMED => TREND_LONG_CONFIRMED
    case STRUCTURE_CHOCH_LONG_INVALIDATED => STRUCTURE_CHOCH_SHORT_INVALIDATED
    case STRUCTURE_CHOCH_SHORT_INVALIDATED => STRUCTURE_CHOCH_LONG_INVALIDATED
    case ENTRY_BREAKOUT_LONG => ENTRY_BREAKOUT_SHORT
    case ENTRY_BREAKOUT_SHORT => ENTRY_BREAKOUT_LONG
    case _ => r
  }

  function FlipEvaluation(e: StrategyEvaluation): StrategyEvaluation
  {
    StrategyEvaluation(Opposite(e.direction), e.eligible, FlipReason(e.reason))
  }

  // ---------------------------------------------------------------- structure

  lemma {:induction false} SameDirectionFlips(events: seq<BreakEvent>, d: Direction)
    ensures SameDirection(Flip(events), Opposite(d)) == Flip(SameDirection(events, d))
    decreases |events|
  {
    if |events| > 0 {
      var n := |events| - 1;
      SameDirectionFlips(events[..n], d);
      assert Flip(events)[..n] == Flip(events[..n]);
      if events[n].direction == d { FlipAppend(SameDirection(events[..n], d), [events[n]]); }
    }
  }

  lemma {:induction false} LaterOppositeFlips(events: seq<BreakEvent>, t: Instant, d: Direction)
    ensures LaterOpposite(Flip(events), t, Opposite(d)) == Flip(LaterOpposite(events, t, d))
    decreases |events|
  {
    if |events| > 0 {
      var n := |events| - 1;
      LaterOppositeFlips(events[..n], t, d);
      assert Flip(events)[..n] == Flip(events[..n]);
      if events[n].at > t && events[n].direction != d { FlipAppend(LaterOpposite(events[..n], t, d), [events[n]]); }
    }
  }

  lemma StructureFlips(events: seq<BreakEvent>, d: Direction)
    ensures var s, m := BosAndChoch(events, d), BosAndChoch(Flip(events), Opposite(d));
            && (m.bos.Some? <==> s.bos.Some?) && (m.choch.Some? <==> s.choch.Some?)
            && (s.bos.Some? ==> m.bos.value.at == s.bos.value.at)
  {
    hide SameDirection, LaterOpposite;
    SameDirectionFlips(events, d);
    var same := SameDirection(events, d);
    if |same| > 0 {
      LaterOppositeFlips(events, same[|same| - 1].at, d);
    }
  }

  lemma BreakoutFlips(events: seq<BreakEvent>, d: Direction, t: Instant)
    ensures BreaksOutAfter(Flip(events), Opposite(d), t) <==> BreaksOutAfter(events, d, t)
  {
    var flipped := Flip(events);
    if BreaksOutAfter(events, d, t) {
      var i :| 0 <= i < |events| && events[i].direction == d && events[i].at > t;
      assert flipped[i].direction == Opposite(d) && flipped[i].at > t;
    }
    if BreaksOutAfter(flipped, Opposite(d), t) {
      var i :| 0 <= i < |flipped| && flipped[i].direction == Opposite(d) && flipped[i].at > t;
      assert events[i].direction == d && events[i].at > t;
    }
  }

  lemma SeriesEvaluationFlips(h4: seq<Candle>, h1: seq<Candle>, m15: seq<Candle>, d: Direction, referenceTime: Instant)
    requires OneSided(h1, referenceTime) && OneSided(m15, referenceTime)
    ensures EvaluateSeries(Mirror(h4), Mirror(h1), Mirror(m15), Opposite(d), referenceTime)
            == FlipEvaluation(EvaluateSeries(h4, h1, m15, d, referenceTime))
  {
    hide Trend, BreakEvents, BosAndChoch, BreaksOutAfter, Mirror, Flip, OneSided;
    TrendFlips(h4, referenceTime);
    BreakEventsFlip(h1, referenceTime);
    BreakEventsFlip(m15, referenceTime);
    StructureFlips(BreakEvents(h1, referenceTime), d);
    var s := BosAndChoch(BreakEvents(h1, referenceTime), d);
    if s.bos.Some? {
      BreakoutFlips(BreakEvents(m15, referenceTime), d, s.bos.value.at);
    }
  }

  // ---------------------------------------------------------------- series checks look at no price

  lemma MirrorAppend(candles: seq<Candle>, c: Candle)
    ensures Mirror(candles + [c]) == Mirror(candles) + [MirrorCandle(c)]
  {
  }

  lemma {:induction false} CandlesForMirrored(candles: seq<Candle>, symbol: string, timeframe: string)
    ensures CandlesFor(Mirror(candles), symbol, timeframe) == Mirror(CandlesFor(candles, symbol, timeframe))
    decreases |candles|
  {
    if |candles| > 0 {
      var n := |candles| - 1;
      CandlesForMirrored(candles[..n], symbol, timeframe);
      assert Mirror(candles)[..n] == Mirror(candles[..n]);
      MirrorAppend(CandlesFor(candles[..n], symbol, timeframe), candles[n]);
    }
  }

  lemma {:induction false} InsertMirrored(candles: seq<Candle>, c: Candle)
    ensures InsertBy(OpenTimeOf, Mirror(candles), MirrorCandle(c)) == Mirror(InsertBy(OpenTimeOf, candles, c))
    decreases |candles|
  {
    if |candles| > 0 {
      var n := |candles| - 1;
      InsertMirrored(candles[..n], c);
      assert Mirror(candles)[..n] == Mirror(candles[..n]);
      MirrorAppend(candles, c);
      MirrorAppend(InsertBy(OpenTimeOf, candles[..n], c), candles[n]);
    }
  }

  lemma {:induction false} SortMirrored(candles: seq<Candle>)
    ensures SortByOpen(Mirror(candles)) == Mirror(SortByOpen(candles))
    decreases |candles|
  {
    if |candles| > 0 {
      var n := |candles| - 1;
      SortMirrored(candles[..n]);
      assert Mirror(candles)[..n] == Mirror(candles[..n]);
      InsertMirrored(SortByOpen(candles[..n]), candles[n]);
    }
  }

  lemma MirrorTwice(candles: seq<Candle>)
    ensures Mirror(Mirror(candles)) == candles
  {
  }

  lemma {:induction false} AdjacencyMirrored(ordered: seq<Candle>, i: nat)
    ensures AdjacencyReasons(Mirror(ordered), i) == AdjacencyReasons(ordered, i)
    decreases |ordered| - i
  {
    if i + 1 < |ordered| { AdjacencyMirrored(ordered, i + 1); }
  }

  lemma SymbolsMirrored(candles: seq<Candle>, timeframe: string)
    ensures SymbolsOf(Mirror(candles), timeframe) == SymbolsOf(candles, timeframe)
  {
    var m := Mirror(candles);
    forall s ensures s in SymbolsOf(m, timeframe) <==> s in SymbolsOf(candles, timeframe) {
      if s in SymbolsOf(candles, timeframe) {
        var i :| 0 <= i < |candles| && candles[i].timeframe == timeframe && candles[i].symbol == s;
        assert m[i].timeframe == timeframe && m[i].symbol == s;
      }
    }
  }

  lemma DuplicatesMirrored(candles: seq<Candle>)
    ensures HasDuplicate(Mirror(candles)) <==> HasDuplicate(candles)
  {
    var m := Mirror(candles);
    if i, j :| 0 <= i < j < |candles| && SameKey(candles[i], candles[j]) { assert SameKey(m[i], m[j]); }
    if i, j :| 0 <= i < j < |m| && SameKey(m[i], m[j]) { assert SameKey(candles[i], candles[j]); }
  }

  lemma DurationsMirrored(candles: seq<Candle>, timeframe: string, duration: int)
    ensures HasMismatch(Mirror(candles), timeframe) <==> HasMismatch(candles, timeframe)
    ensures HasWrongDuration(Mirror(candles), timeframe, duration) <==> HasWrongDuration(candles, timeframe, duration)
  {
    var m := Mirror(candles);
    if i :| 0 <= i < |candles| && candles[i].timeframe != timeframe { assert m[i].timeframe != timeframe; }
    if i :| 0 <= i < |candles| && WrongDuration(candles[i], timeframe, duration) {
      assert WrongDuration(m[i], timeframe, duration);
    }
    if i :| 0 <= i < |m| && WrongDuration(m[i], timeframe, duration) {
      assert WrongDuration(candles[i], timeframe, duration);
    }
  }

  lemma SeriesReasonsMirrored(candles: seq<Candle>, timeframe: string)
    ensures SeriesReasons(Mirror(candles), timeframe) == SeriesReasons(candles, timeframe)
  {
    hide SortByOpen, AdjacencyReasons, ParseTimeframe, HasMismatch, HasDuplicate, HasWrongDuration, MirrorCandle;
    if ParseTimeframe(timeframe).Some? {
      DuplicatesMirrored(candles);
      DurationsMirrored(candles, timeframe, ParseTimeframe(timeframe).value.duration);
      SortMirrored(candles);
      MirrorTwice(candles);
      MirrorTwice(SortByOpen(candles));
      AdjacencyMirrored(SortByOpen(candles), 0);
    }
  }

  lemma {:induction false} ReasonsOfSymbolsMirrored(candles: seq<Candle>, symbols: seq<string>, timeframe: string)
    ensures ReasonsOfSymbols(Mirror(candles), symbols, timeframe) == ReasonsOfSymbols(candles, symbols, timeframe)
    decreases |symbols|
  {
    hide SeriesReasons, CandlesFor, Mirror;
    if |symbols| > 0 {
      CandlesForMirrored(candles, symbols[0], timeframe);
      SeriesReasonsMirrored(CandlesFor(candles, symbols[0], timeframe), timeframe);
      ReasonsOfSymbolsMirrored(candles, symbols[1..], timeframe);
    }
  }

  lemma SnapshotReasonsMirrored(candles: seq<Candle>, timeframe: string)
    ensures SnapshotReasons(Mirror(candles), timeframe) == SnapshotReasons(candles, timeframe)
  {
    hide SortedStrings, ReasonsOfSymbols, Distinct, ParseTimeframe, SymbolsOf;
    SymbolsMirrored(candles, timeframe);
    if SymbolsOf(candles, timeframe) != {} {
      ReasonsOfSymbolsMirrored(candles, SortedStrings(SymbolsOf(candles, timeframe)), timeframe);
    }
  }

  // ---------------------------------------------------------------- the evaluation

  /** When no closed 1h or 15m candle of the symbol breaks both ways, mirroring the snapshot
      swaps the two sides' evaluations, eligibility and reason. */
  lemma EvaluationFlips(candles: seq<Candle>, symbol: string, d: Direction, referenceTime: Instant)
    requires OneSided(CandlesFor(candles, symbol, H1), referenceTime)
    requires OneSided(CandlesFor(candles, symbol, M15), referenceTime)
    ensures Evaluate(Mirror(candles), symbol, Opposite(d), referenceTime)
            == FlipEvaluation(Evaluate(candles, symbol, d, referenceTime))
  {
    hide CandlesFor, EvaluateSeries, SnapshotReasons, OneSided, MirrorCandle;
    CandlesForMirrored(candles, symbol, H4);
    CandlesForMirrored(candles, symbol, H1);
    CandlesForMirrored(candles, symbol, M15);
    SnapshotReasonsMirrored(candles, H4);
    SnapshotReasonsMirrored(candles, H1);
    SnapshotReasonsMirrored(candles, M15);
    SeriesEvaluationFlips(CandlesFor(candles, symbol, H4), CandlesFor(candles, symbol, H1),
      CandlesFor(candles, symbol, M15), d, referenceTime);
    FaultIsDataReason(candles);
  }
}
