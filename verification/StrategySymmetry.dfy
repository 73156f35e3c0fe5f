/** Turning the market upside down: where the strategy treats LONG and SHORT alike. */
module StrategySymmetry {
  import opened Wrappers
  import opened IsoTime
  import opened Domain
  import opened MarketData
  import opened Strategy

  function MirrorCandle(c: Candle): (m: Candle)
    ensures ValidCandle(c) <==> ValidCandle(m)
  {
    c.(open := -c.open, high := -c.low, low := -c.high, close := -c.close)
  }

  /** Every price negated, so that highs and lows trade places. */
  function Mirror(candles: seq<Candle>): seq<Candle>
  {
    seq(|candles|, i requires 0 <= i < |candles| => MirrorCandle(candles[i]))
  }

  function NegatePoint(p: SwingPoint): SwingPoint
  {
    p.(price := -p.price)
  }

  function Negate(points: seq<SwingPoint>): seq<SwingPoint>
  {
    seq(|points|, i requires 0 <= i < |points| => NegatePoint(points[i]))
  }

  function FlipTrend(t: Option<Direction>): Option<Direction>
  {
    match t case None => None case Some(d) => Some(Opposite(d))
  }

  function FlipEvent(e: BreakEvent): BreakEvent
  {
    e.(direction := Opposite(e.direction))
  }

  function Flip(events: seq<BreakEvent>): seq<BreakEvent>
  {
    seq(|events|, i requires 0 <= i < |events| => FlipEvent(events[i]))
  }

  lemma FlipAppend(a: seq<BreakEvent>, b: seq<BreakEvent>)
    ensures Flip(a + b) == Flip(a) + Flip(b)
  {
  }

  lemma NegateAppend(a: seq<SwingPoint>, b: seq<SwingPoint>)
    ensures Negate(a + b) == Negate(a) + Negate(b)
  {
  }

  // ---------------------------------------------------------------- swings and trend

  lemma SwingMirrored(candles: seq<Candle>, high: bool, i: nat)
    requires 2 <= i < |candles| - 2
    ensures IsSwing(Mirror(candles), high, i) <==> IsSwing(candles, !high, i)
  {
  }

  lemma PointMirrored(candles: seq<Candle>, high: bool, i: nat)
    requires i + 2 < |candles|
    ensures [PointAt(Mirror(candles), high, i)] == Negate([PointAt(candles, !high, i)])
  {
  }

  /** The swing highs of the mirror are the swing lows, negated; and the other way round. */
  lemma {:induction false} SwingsMirrored(candles: seq<Candle>, high: bool, n: int)
    requires n <= 2 || n <= |candles| - 2
    ensures SwingsBelow(Mirror(candles), high, n) == Negate(SwingsBelow(candles, !high, n))
    decreases if n < 0 then 0 else n
  {
    hide IsSwing, PointAt;
    if n > 2 {
      hide SwingsBelow, Negate;
      SwingsMirrored(candles, high, n - 1);
      SwingMirrored(candles, high, n - 1);
      SwingsStep(candles, !high, n);
      SwingsStep(Mirror(candles), high, n);
      if IsSwing(candles, !high, n - 1) {
        PointMirrored(candles, high, n - 1);
        NegateAppend(SwingsBelow(candles, !high, n - 1), [PointAt(candles, !high, n - 1)]);
      }
    }
  }

  lemma {:induction false} PitNegated(points: seq<SwingPoint>, referenceTime: Instant)
    ensures PitSwings(Negate(points), referenceTime) == Negate(PitSwings(points, referenceTime))
    decreases |points|
  {
    if |points| > 0 {
      var n := |points| - 1;
      PitNegated(points[..n], referenceTime);
      assert Negate(points)[..n] == Negate(points[..n]);
      if points[n].confirmedAt < referenceTime {
        NegateAppend(PitSwings(points[..n], referenceTime), [points[n]]);
      }
    }
  }

  lemma {:induction false} PriorNegated(points: seq<SwingPoint>, index: nat, closeTime: Instant)
    ensures PriorSwings(Negate(points), index, closeTime) == Negate(PriorSwings(points, index, closeTime))
    decreases |points|
  {
    if |points| > 0 {
      var n := |points| - 1;
      PriorNegated(points[..n], index, closeTime);
      assert Negate(points)[..n] == Negate(points[..n]);
      if points[n].index < index && points[n].confirmedAt < closeTime {
        NegateAppend(PriorSwings(points[..n], index, closeTime), [points[n]]);
      }
    }
  }

  lemma TrendOfNegated(highs: seq<SwingPoint>, lows: seq<SwingPoint>)
    ensures TrendOf(Negate(lows), Negate(highs)) == FlipTrend(TrendOf(highs, lows))
  {
  }

  /** The trend of the mirror is the flipped trend, for every series. */
  lemma TrendFlips(candles: seq<Candle>, referenceTime: Instant)
    ensures Trend(Mirror(candles), referenceTime) == FlipTrend(Trend(candles, referenceTime))
  {
    hide SwingsBelow, Negate, PitSwings, TrendOf, FlipTrend;
    var n := |candles| - 2;
    SwingsMirrored(candles, true, n);
    SwingsMirrored(candles, false, n);
    PitNegated(SwingsBelow(candles, true, n), referenceTime);
    PitNegated(SwingsBelow(candles, false, n), referenceTime);
    TrendOfNegated(PitSwings(ConfirmedSwings(candles, true), referenceTime),
      PitSwings(ConfirmedSwings(candles, false), referenceTime));
  }

  // ---------------------------------------------------------------- break events

  /** A close above the last swing high and below the last swing low at once. */
  predicate BreaksBothWays(candles: seq<Candle>, highs: seq<SwingPoint>, lows: seq<SwingPoint>, i: nat)
    requires i < |candles|
  {
    var c := candles[i];
    BreaksUp(c.close, PriorSwings(highs, i, c.closeTime)) && BreaksDown(c.close, PriorSwings(lows, i, c.closeTime))
  }

  /** No closed candle breaks both ways. */
  predicate OneSided(candles: seq<Candle>, referenceTime: Instant)
  {
    forall i :: 0 <= i < |candles| && candles[i].closeTime < referenceTime ==>
      !BreaksBothWays(candles, ConfirmedSwings(candles, true), ConfirmedSwings(candles, false), i)
  }

  /** One candle: its event flips exactly when it does not break both ways. */
  lemma BreakFlips(c: Candle, highs: seq<SwingPoint>, lows: seq<SwingPoint>)
    ensures |BreakOf(MirrorCandle(c), Negate(lows), Negate(highs))| == |BreakOf(c, highs, lows)|
    ensures BreakOf(MirrorCandle(c), Negate(lows), Negate(highs)) == Flip(BreakOf(c, highs, lows))
            <==> !(BreaksUp(c.close, highs) && BreaksDown(c.close, lows))
  {
    assert BreaksUp(-c.close, Negate(lows)) <==> BreaksDown(c.close, lows);
    assert BreaksDown(-c.close, Negate(highs)) <==> BreaksUp(c.close, highs);
    if BreaksUp(c.close, highs) {
      assert Flip(BreakOf(c, highs, lows)) == [BreakEvent(c.closeTime, SHORT)];
    } else if BreaksDown(c.close, lows) {
      assert Flip(BreakOf(c, highs, lows)) == [BreakEvent(c.closeTime, LONG)];
    }
  }

  lemma ContributionFlips(candles: seq<Candle>, referenceTime: Instant, highs: seq<SwingPoint>,
                          lows: seq<SwingPoint>, i: nat)
    requires i < |candles|
    ensures var mirrored := Contribution(Mirror(candles), referenceTime, Negate(lows), Negate(highs), i);
            var flipped := Flip(Contribution(candles, referenceTime, highs, lows, i));
            && |mirrored| == |flipped|
            && (mirrored == flipped <==>
                  !(candles[i].closeTime < referenceTime && BreaksBothWays(candles, highs, lows, i)))
  {
    var c := candles[i];
    PriorNegated(highs, i, c.closeTime);
    PriorNegated(lows, i, c.closeTime);
    BreakFlips(c, PriorSwings(highs, i, c.closeTime), PriorSwings(lows, i, c.closeTime));
  }

  lemma SplitEqual(a: seq<BreakEvent>, b: seq<BreakEvent>, x: seq<BreakEvent>, y: seq<BreakEvent>)
    requires |x| == |y|
    ensures a + x == b + y <==> a == b && x == y
  {
    if a + x == b + y {
      assert |a| == |b|;
      assert a == (a + x)[..|a|] == (b + y)[..|a|] == b;
      assert x == (a + x)[|a|..] == (b + y)[|a|..] == y;
    }
  }

  lemma EventsFlipStep(candles: seq<Candle>, referenceTime: Instant, highs: seq<SwingPoint>, lows: seq<SwingPoint>,
                       n: nat)
    requires 0 < n <= |candles|
    ensures EventsBelow(Mirror(candles), referenceTime, Negate(lows), Negate(highs), n)
            == Flip(EventsBelow(candles, referenceTime, highs, lows, n))
            <==> && EventsBelow(Mirror(candles), referenceTime, Negate(lows), Negate(highs), n - 1)
                    == Flip(EventsBelow(candles, referenceTime, highs, lows, n - 1))
                 && !(candles[n - 1].closeTime < referenceTime && BreaksBothWays(candles, highs, lows, n - 1))
  {
    hide Contribution, BreaksBothWays, Flip, Negate, MirrorCandle;
    ContributionFlips(candles, referenceTime, highs, lows, n - 1);
    var before, last := EventsBelow(candles, referenceTime, highs, lows, n - 1),
      Contribution(candles, referenceTime, highs, lows, n - 1);
    FlipAppend(before, last);
    SplitEqual(EventsBelow(Mirror(candles), referenceTime, Negate(lows), Negate(highs), n - 1), Flip(before),
               Contribution(Mirror(candles), referenceTime, Negate(lows), Negate(highs), n - 1), Flip(last));
  }

  lemma {:induction false} EventsFlip(candles: seq<Candle>, referenceTime: Instant, highs: seq<SwingPoint>,
                          lows: seq<SwingPoint>, n: nat)
    requires n <= |candles|
    ensures EventsBelow(Mirror(candles), referenceTime, Negate(lows), Negate(highs), n)
            == Flip(EventsBelow(candles, referenceTime, highs, lows, n))
            <==> forall i :: 0 <= i < n && candles[i].closeTime < referenceTime ==>
                   !BreaksBothWays(candles, highs, lows, i)
    decreases n
  {
    hide Contribution, BreaksBothWays, SwingsBelow, PriorSwings, BreakOf, MirrorCandle;
    if n > 0 {
      EventsFlip(candles, referenceTime, highs, lows, n - 1);
      EventsFlipStep(candles, referenceTime, highs, lows, n);
    }
  }

  /** The break events of the mirror are the flipped break events exactly when no closed
      candle breaks both ways; the code's `elif` then prefers LONG in both pictures. */
  lemma BreakEventsFlip(candles: seq<Candle>, referenceTime: Instant)
    ensures BreakEvents(Mirror(candles), referenceTime) == Flip(BreakEvents(candles, referenceTime))
            <==> OneSided(candles, referenceTime)
  {
    hide SwingsBelow, EventsBelow, Flip, Negate, BreaksBothWays, MirrorCandle;
    SwingsMirrored(candles, true, |candles| - 2);
    SwingsMirrored(candles, false, |candles| - 2);
    EventsFlip(candles, referenceTime, ConfirmedSwings(candles, true), ConfirmedSwings(candles, false), |candles|);
  }

  // ---------------------------------------------------------------- a series that breaks both ways

  const GAP_HIGHS: seq<real> := [5.0, 6.0, 10.0, 7.0, 8.0, 30.0, 31.0, 32.0, 33.0, 34.0, 16.0]
  const GAP_LOWS: seq<real> := [1.0, 2.0, 3.0, 4.0, 5.0, 25.0, 24.0, 20.0, 26.0, 27.0, 14.0]
  const HOUR: int := 3_600_000_000
  const QUARTER: int := 900_000_000
  const NOW: int := 50 * HOUR

  /** The series comes in hours, and in quarters of an hour that start after the hours are over. */
  function GapTime(i: nat, hourly: bool): int
  {
    if hourly then i * HOUR else 12 * HOUR + i * QUARTER
  }

  function GapCandle(i: nat, hourly: bool): Candle
    requires i < 11
  {
    var close := if i == 10 then 15.0 else GAP_LOWS[i];
    Candle("S", if hourly then "1h" else "15m", GapTime(i, hourly), GapTime(i + 1, hourly),
           close, GAP_HIGHS[i], GAP_LOWS[i], close, 0.0)
  }

  /** A swing high at 10, a gap up, a swing low at 20, then a close at 15 between them. */
  function GapSeries(hourly: bool): seq<Candle>
  {
    seq(11, i requires 0 <= i < 11 => GapCandle(i, hourly))
  }

  lemma GapSwingHighs(hourly: bool)
    ensures SwingsBelow(GapSeries(hourly), true, 8) == [PointAt(GapSeries(hourly), true, 2)]
  {
    var s := GapSeries(hourly);
    assert SwingsBelow(s, true, 3) == [PointAt(s, true, 2)];
    assert SwingsBelow(s, true, 4) == SwingsBelow(s, true, 5) == SwingsBelow(s, true, 3);
    assert SwingsBelow(s, true, 6) == SwingsBelow(s, true, 7) == SwingsBelow(s, true, 3);
  }

  lemma GapSwingLows(hourly: bool)
    ensures SwingsBelow(GapSeries(hourly), false, 8) == [PointAt(GapSeries(hourly), false, 7)]
  {
    var s := GapSeries(hourly);
    assert SwingsBelow(s, false, 2) == SwingsBelow(s, false, 3) == SwingsBelow(s, false, 4) == SwingsBelow(s, false, 5);
    assert SwingsBelow(s, false, 6) == SwingsBelow(s, false, 7) == [];
  }

  lemma GapCandleValid(i: nat, hourly: bool)
    requires i < 11
    ensures ValidCandle(GapCandle(i, hourly))
  {
    assert "S"[0] == 'S' && "15m"[0] == '1' && "1h"[0] == '1';
  }

  lemma GapAscends(hourly: bool)
    ensures Ascending(GapSeries(hourly))
  {
  }

  lemma GapPriors(high: bool, hourly: bool)
    ensures var s := GapSeries(hourly);
            PriorSwings(ConfirmedSwings(s, high), 10, s[10].closeTime) == SwingsBelow(s, high, 8)
  {
    hide SwingsBelow, PriorSwings, Price, GapTime;
    GapAscends(hourly);
    PriorByPosition(GapSeries(hourly), high, 10, 9);
  }

  lemma GapBreaksBothWays(hourly: bool)
    ensures var s := GapSeries(hourly);
            BreaksBothWays(s, ConfirmedSwings(s, true), ConfirmedSwings(s, false), 10)
  {
    hide SwingsBelow, PriorSwings, ConfirmedSwings;
    GapSwingHighs(hourly);
    GapSwingLows(hourly);
    GapPriors(true, hourly);
    GapPriors(false, hourly);
  }

  /** Symmetry does fail: valid, gap-free candles whose mirror keeps the LONG event. */
  lemma SymmetryFails(hourly: bool)
    ensures forall c :: c in GapSeries(hourly) ==> ValidCandle(c)
    ensures forall i :: 0 <= i < 10 ==> GapSeries(hourly)[i + 1].openTime == GapSeries(hourly)[i].closeTime
    ensures !OneSided(GapSeries(hourly), NOW)
    ensures BreakEvents(Mirror(GapSeries(hourly)), NOW) != Flip(BreakEvents(GapSeries(hourly), NOW))
  {
    hide SwingsBelow, ConfirmedSwings, BreaksBothWays, BreakEvents, Flip, Mirror, ValidCandle;
    var s := GapSeries(hourly);
    forall i: nat | i < 11 ensures ValidCandle(s[i]) { GapCandleValid(i, hourly); }
    GapBreaksBothWays(hourly);
    BreakEventsFlip(s, NOW);
    assert s[10].closeTime < NOW;
  }
}
