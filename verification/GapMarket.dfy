/** A market on which the two sides are not treated alike: its 1h series closes once between a
    swing high below and a swing low above, and only the LONG side gains by it. */
module GapMarket {
  import opened Wrappers
  import opened Text
  import opened IsoTime
  import opened Domain
  import opened MarketData
  import opened Series
  import opened Strategy
  import opened StrategySymmetry
  import opened Evaluation
  import opened EvaluationSymmetry
  import opened DecisionPipeline
  import opened DecisionSymmetry

  // ---------------------------------------------------------------- the rising 4h series

  const RISING: seq<real> := [10.0, 11.0, 20.0, 12.0, 11.0, 13.0, 30.0, 22.0, 21.0, 23.0, 24.0]

  function RisingCandle(i: nat): Candle
    requires i < 11
  {
    var m := RISING[i];
    Candle("S", H4, i * 4 * HOUR, (i + 1) * 4 * HOUR, m, m + 1.0, m - 1.0, m, 0.0)
  }

  /** Swing highs at 2 and 6, swing lows at 4 and 8, each above the one before. */
  function RisingSeries(): seq<Candle>
  {
    seq(11, i requires 0 <= i < 11 => RisingCandle(i))
  }

  lemma RisingHighs()
    ensures SwingsBelow(RisingSeries(), true, 9)
            == [PointAt(RisingSeries(), true, 2), PointAt(RisingSeries(), true, 6)]
  {
    var s := RisingSeries();
    var a, b := PointAt(s, true, 2), PointAt(s, true, 6);
    assert SwingsBelow(s, true, 2) == [] && SwingsBelow(s, true, 3) == [a];
    assert SwingsBelow(s, true, 4) == SwingsBelow(s, true, 5) == SwingsBelow(s, true, 6) == [a];
    assert SwingsBelow(s, true, 7) == SwingsBelow(s, true, 8) == SwingsBelow(s, true, 9) == [a, b];
  }

  lemma RisingLows()
    ensures SwingsBelow(RisingSeries(), false, 9)
            == [PointAt(RisingSeries(), false, 4), PointAt(RisingSeries(), false, 8)]
  {
    var s := RisingSeries();
    var a, b := PointAt(s, false, 4), PointAt(s, false, 8);
    assert SwingsBelow(s, false, 2) == SwingsBelow(s, false, 3) == SwingsBelow(s, false, 4) == [];
    assert SwingsBelow(s, false, 5) == SwingsBelow(s, false, 6) == SwingsBelow(s, false, 7)
      == SwingsBelow(s, false, 8) == [a];
    assert SwingsBelow(s, false, 9) == [a, b];
  }

  lemma RisingAscends()
    ensures Ascending(RisingSeries()) && RisingSeries()[10].closeTime < NOW
  {
  }

  lemma ElevenClosed(candles: seq<Candle>)
    requires Ascending(candles) && |candles| == 11 && candles[10].closeTime < NOW
    ensures ClosedBefore(candles, NOW) == 11
  {
    hide SelectClosed;
    ClosedAreFirst(candles, NOW);
  }

  lemma RisingTrend()
    ensures Trend(RisingSeries(), NOW) == Some(LONG)
  {
    hide SwingsBelow, Trend, Ascending;
    RisingHighs();
    RisingLows();
    RisingAscends();
    ElevenClosed(RisingSeries());
    TrendByPosition(RisingSeries(), NOW);
  }

  // ---------------------------------------------------------------- the last event of the gap series

  lemma AllClosed(candles: seq<Candle>)
    requires Ascending(candles) && |candles| == 11 && candles[10].closeTime < NOW
    ensures var events := BreakEvents(candles, NOW);
            EventAt(candles, 10) != [] ==> |events| > 0 && events[|events| - 1] == EventAt(candles, 10)[0]
  {
    hide EventAt, SwingsBelow, BreakEvents;
    ElevenClosed(candles);
    BreaksByPosition(candles, NOW);
    EventsOne(candles);
    assert EventList(candles, 11) == EventList(candles, 10) + EventAt(candles, 10);
  }

  lemma EventsOne(candles: seq<Candle>)
    requires |candles| == 11
    ensures |EventAt(candles, 10)| <= 1
  {
  }

  /** The last candle breaks upwards, in the series and in its mirror alike. */
  lemma LastEventIsLong(hourly: bool)
    ensures var e := BreakEvent(GapTime(11, hourly), LONG);
            EventAt(GapSeries(hourly), 10) == [e] && EventAt(Mirror(GapSeries(hourly)), 10) == [e]
  {
    var s := GapSeries(hourly);
    GapSwingHighs(hourly);
    GapSwingLows(hourly);
    SwingsMirrored(s, true, 8);
    SwingsMirrored(s, false, 8);
    hide SwingsBelow;
    assert Mirror(s)[10] == MirrorCandle(s[10]);
  }

  lemma LastEvents(hourly: bool)
    ensures var e := BreakEvent(GapTime(11, hourly), LONG);
            var events, mirrored := BreakEvents(GapSeries(hourly), NOW), BreakEvents(Mirror(GapSeries(hourly)), NOW);
            && |events| > 0 && events[|events| - 1] == e
            && |mirrored| > 0 && mirrored[|mirrored| - 1] == e
  {
    hide EventAt, BreakEvents, SwingsBelow;
    var s := GapSeries(hourly);
    GapAscends(hourly);
    LastEventIsLong(hourly);
    AllClosed(s);
    assert Ascending(Mirror(s));
    AllClosed(Mirror(s));
  }

  // ---------------------------------------------------------------- the snapshot

  /** One symbol, three timeframes, in the order a snapshot keeps them. */
  function Market(): seq<Candle>
  {
    GapSeries(false) + GapSeries(true) + RisingSeries()
  }

  lemma {:induction false} CandlesForAppend(a: seq<Candle>, b: seq<Candle>, symbol: string, timeframe: string)
    ensures CandlesFor(a + b, symbol, timeframe) == CandlesFor(a, symbol, timeframe) + CandlesFor(b, symbol, timeframe)
    decreases |b|
  {
    if |b| > 0 {
      hide CandlesFor;
      var n := |b| - 1;
      CandlesForAppend(a, b[..n], symbol, timeframe);
      var init, last := b[..n], b[n];
      assert b == init + [last];
      assert a + (init + [last]) == (a + init) + [last];
      OwnOneMore(a + init, last, symbol, timeframe);
      OwnOneMore(init, last, symbol, timeframe);
      assert CandlesFor(a + b, symbol, timeframe)
          == CandlesFor(a, symbol, timeframe) + CandlesFor(b, symbol, timeframe);
    } else {
      assert a + b == a;
    }
  }

  lemma {:induction false} CandlesForAll(a: seq<Candle>, symbol: string, timeframe: string, own: string)
    requires forall c :: c in a ==> c.symbol == symbol && c.timeframe == own
    ensures CandlesFor(a, symbol, timeframe) == if own == timeframe then a else []
    decreases |a|
  {
    if |a| > 0 {
      assert a[|a| - 1] in a;
      CandlesForAll(a[..|a| - 1], symbol, timeframe, own);
    }
  }

  lemma Names()
    ensures H4 != H1 && H4 != M15 && H1 != M15
  {
    assert H4[0] == '4' && H1[0] == '1' && M15[0] == '1' && |H1| != |M15|;
  }

  lemma OwnNames()
    ensures forall c :: c in GapSeries(false) ==> c.symbol == "S" && c.timeframe == M15
    ensures forall c :: c in GapSeries(true) ==> c.symbol == "S" && c.timeframe == H1
    ensures forall c :: c in RisingSeries() ==> c.symbol == "S" && c.timeframe == H4
  {
  }

  lemma MarketSeriesOf(timeframe: string)
    ensures CandlesFor(Market(), "S", timeframe)
            == (if M15 == timeframe then GapSeries(false) else []) + (if H1 == timeframe then GapSeries(true) else [])
               + (if H4 == timeframe then RisingSeries() else [])
  {
    hide CandlesFor, GapSeries, RisingSeries;
    OwnNames();
    CandlesForAppend(GapSeries(false) + GapSeries(true), RisingSeries(), "S", timeframe);
    CandlesForAppend(GapSeries(false), GapSeries(true), "S", timeframe);
    CandlesForAll(GapSeries(false), "S", timeframe, M15);
    CandlesForAll(GapSeries(true), "S", timeframe, H1);
    CandlesForAll(RisingSeries(), "S", timeframe, H4);
  }

  lemma MarketSeries()
    ensures CandlesFor(Market(), "S", H4) == RisingSeries()
    ensures CandlesFor(Market(), "S", H1) == GapSeries(true)
    ensures CandlesFor(Market(), "S", M15) == GapSeries(false)
  {
    hide CandlesFor, GapSeries, RisingSeries, Market;
    Names();
    MarketSeriesOf(H4);
    MarketSeriesOf(H1);
    MarketSeriesOf(M15);
  }

  lemma DigitValue(d: char)
    requires '0' < d <= '9'
    ensures AllDigits([d]) && ParseDecimal([d]) == Value(d)
  {
    assert [d][..0] == [];
  }

  lemma ParsedH4()
    ensures ParseTimeframe(H4).Some? && ParseTimeframe(H4).value.duration == 4 * HOUR
  {
    assert Strip(H4) == H4;
    DigitValue('4');
    assert H4[..1] == ['4'];
    hide Decimal;
  }

  lemma ParsedH1()
    ensures ParseTimeframe(H1).Some? && ParseTimeframe(H1).value.duration == HOUR
  {
    assert Strip(H1) == H1;
    DigitValue('1');
    assert H1[..1] == ['1'];
    hide Decimal;
  }

  lemma ParsedM15()
    ensures ParseTimeframe(M15).Some? && ParseTimeframe(M15).value.duration == QUARTER
  {
    assert Strip(M15) == M15;
    DigitValue('1');
    assert M15[..2] == ['1', '5'] && ['1', '5'][..1] == ['1'];
    hide Decimal;
  }

  lemma MarketIntegral()
    ensures Integral(RisingSeries(), H4) && Integral(GapSeries(true), H1) && Integral(GapSeries(false), M15)
  {
    hide ParseTimeframe;
    ParsedH4();
    ParsedH1();
    ParsedM15();
  }

  lemma OnlyOneSymbol(s: string, timeframe: string)
    requires s in SymbolsOf(Market(), timeframe)
    ensures s == "S"
  {
    hide GapSeries, RisingSeries;
    OwnNames();
    var i :| 0 <= i < |Market()| && Market()[i].timeframe == timeframe && Market()[i].symbol == s;
    assert Market()[i] in Market();
  }

  lemma MarketSoundOf(timeframe: string)
    requires ParseTimeframe(timeframe).Some? && CandlesFor(Market(), "S", timeframe) != []
    requires Integral(CandlesFor(Market(), "S", timeframe), timeframe)
    ensures TimeframeSound(Market(), timeframe)
  {
    hide ParseTimeframe, CandlesFor, Market, Integral;
    SymbolPresent(Market(), "S", timeframe);
    forall s | s in SymbolsOf(Market(), timeframe) ensures s == "S" { OnlyOneSymbol(s, timeframe); }
  }

  lemma MarketSound()
    ensures TimeframeSound(Market(), H4) && TimeframeSound(Market(), H1) && TimeframeSound(Market(), M15)
  {
    assert |RisingSeries()| == |GapSeries(true)| == |GapSeries(false)| == 11;
    hide CandlesFor, Market, GapSeries, RisingSeries, TimeframeSound;
    MarketSeries();
    MarketIntegral();
    MarketSoundOf(H4);
    MarketSoundOf(H1);
    MarketSoundOf(M15);
  }

  // ---------------------------------------------------------------- the two evaluations

  lemma LongIsEligible()
    ensures Evaluate(Market(), "S", LONG, NOW).eligible
  {
    assert |RisingSeries()| == |GapSeries(true)| == |GapSeries(false)| == 11;
    assert GapTime(11, true) < GapTime(11, false);
    hide CandlesFor, Market, GapSeries, RisingSeries, TimeframeSound, Trend, BreakEvents, Evaluate;
    MarketSeries();
    MarketSound();
    RisingTrend();
    LastEvents(true);
    LastEvents(false);
    EligibleIff(Market(), "S", LONG, NOW);
  }

  lemma MirroredShortIsNot()
    ensures !Evaluate(Mirror(Market()), "S", SHORT, NOW).eligible
  {
    hide CandlesFor, Market, GapSeries, TimeframeSound, Trend, BreakEvents, Evaluate, Mirror;
    MarketSeries();
    CandlesForMirrored(Market(), "S", H1);
    LastEvents(true);
    EligibleIff(Mirror(Market()), "S", SHORT, NOW);
  }

  // ---------------------------------------------------------------- the snapshot is one

  lemma RisingCandleValid(i: nat)
    requires i < 11
    ensures ValidCandle(RisingCandle(i))
  {
    assert "S"[0] == 'S' && H4[0] == '4';
  }

  lemma SeriesValid()
    ensures forall c :: c in GapSeries(false) ==> ValidCandle(c) && c.closeTime < NOW
    ensures forall c :: c in GapSeries(true) ==> ValidCandle(c) && c.closeTime < NOW
    ensures forall c :: c in RisingSeries() ==> ValidCandle(c) && c.closeTime < NOW
  {
    forall i: nat | i < 11
      ensures ValidCandle(GapCandle(i, false)) && ValidCandle(GapCandle(i, true)) && ValidCandle(RisingCandle(i))
    {
      GapCandleValid(i, false);
      GapCandleValid(i, true);
      RisingCandleValid(i);
    }
    hide ValidCandle;
  }

  predicate OpensInOrder(candles: seq<Candle>)
  {
    forall i, j :: 0 <= i < j < |candles| ==> candles[i].openTime < candles[j].openTime
  }

  lemma SeriesInOrder()
    ensures OpensInOrder(GapSeries(false)) && OpensInOrder(GapSeries(true)) && OpensInOrder(RisingSeries())
  {
  }

  lemma NamesInOrder()
    ensures Less(M15, H1) && Less(H1, H4) && Less(M15, H4)
  {
    assert M15[0] == H1[0] && M15[1..][0] == '5' && H1[1..][0] == 'h';
    assert H4[0] == '4';
  }

  lemma OwnBefore(series: seq<Candle>, timeframe: string, i: nat, j: nat)
    requires OpensInOrder(series) && forall c :: c in series ==> c.symbol == "S" && c.timeframe == timeframe
    requires i < j < |series|
    ensures CandleBefore(series[i], series[j])
  {
    assert series[i] in series && series[j] in series;
  }

  lemma AppendSnapshots(a: seq<Candle>, b: seq<Candle>, t: Instant)
    requires ValidSnapshot(a, t) && ValidSnapshot(b, t)
    requires forall c, d :: c in a && d in b ==> CandleBefore(c, d)
    ensures ValidSnapshot(a + b, t)
  {
    hide ValidCandle, CandleBefore;
  }

  lemma SeriesSnapshot(series: seq<Candle>, timeframe: string)
    requires |series| > 0 && OpensInOrder(series)
    requires forall c :: c in series ==>
               c.symbol == "S" && c.timeframe == timeframe && ValidCandle(c) && c.closeTime < NOW
    ensures ValidSnapshot(series, NOW)
  {
    hide ValidCandle;
    forall i, j | 0 <= i < j < |series| ensures CandleBefore(series[i], series[j]) {
      OwnBefore(series, timeframe, i, j);
    }
  }

  /** The market is a snapshot that the constructor accepts. */
  lemma MarketIsSnapshot()
    ensures ValidSnapshot(Market(), NOW)
  {
    var a, b, c := GapSeries(false), GapSeries(true), RisingSeries();
    assert |a| == |b| == |c| == 11;
    SeriesValid();
    SeriesInOrder();
    OwnNames();
    NamesInOrder();
    hide GapSeries, RisingSeries, ValidCandle, ValidSnapshot, OpensInOrder;
    SeriesSnapshot(a, M15);
    SeriesSnapshot(b, H1);
    SeriesSnapshot(c, H4);
    AppendSnapshots(a, b, NOW);
    AppendSnapshots(a + b, c, NOW);
  }

  /** A mirrored snapshot is a snapshot. */
  lemma MirrorIsSnapshot(candles: seq<Candle>, t: Instant)
    requires ValidSnapshot(candles, t)
    ensures ValidSnapshot(Mirror(candles), t)
  {
    hide ValidCandle;
  }

  /** An evaluation itself fails to flip: on an accepted snapshot LONG is eligible, and on the
      mirrored one SHORT is not. */
  lemma EvaluationFailsToFlip()
    ensures ValidSnapshot(Market(), NOW) && ValidSnapshot(Mirror(Market()), NOW)
    ensures Evaluate(Market(), "S", LONG, NOW).eligible
    ensures !Evaluate(Mirror(Market()), "S", SHORT, NOW).eligible
    ensures Evaluate(Mirror(Market()), "S", SHORT, NOW) != FlipEvaluation(Evaluate(Market(), "S", LONG, NOW))
  {
    hide Market, Evaluate, Mirror, ValidSnapshot;
    MarketIsSnapshot();
    MirrorIsSnapshot(Market(), NOW);
    LongIsEligible();
    MirroredShortIsNot();
  }

  /** The difference reaches the final decision whenever the LONG risk policy does not turn the
      signal down. */
  lemma FinalFailsToFlip(context: DecisionContext, gates: Gates, mirrored: Gates, signalId: string, createdAt: Instant)
    requires context.referenceTime == NOW && RiskMirrored(context, gates, mirrored)
    requires !RiskRefuses(context, gates, LONG)
    ensures var snapshot := MarketSnapshot(context.snapshotId, NOW, Market());
            FinalForSymbol(context, MirrorSnapshot(snapshot), "S", mirrored, signalId, createdAt)
            != FlipFinal(FinalForSymbol(context, snapshot, "S", gates, signalId, createdAt))
  {
    hide Market, Evaluate, Mirror, ValidSnapshot, FinalForSymbol, FlipFinal, RiskMirrored, RiskRefuses;
    var snapshot := MarketSnapshot(context.snapshotId, NOW, Market());
    EvaluationFailsToFlip();
    assert !EligibilityFlips(snapshot, "S", LONG);
    FinalFlipsIff(context, snapshot, "S", gates, mirrored, signalId, createdAt);
  }
}
