/** Swings, trend and break events read off candle prices alone. */
module SwingPrices {
  import opened Wrappers
  import opened IsoTime
  import opened Domain
  import opened MarketData
  import opened Strategy

  /** A high above the highs of all four candles within two places. */
  predicate HighSwing(candles: seq<Candle>, i: int)
  {
    && 2 <= i < |candles| - 2
    && forall j :: i - 2 <= j <= i + 2 && j != i ==> candles[i].high > candles[j].high
  }

  /** A low below the lows of all four candles within two places. */
  predicate LowSwing(candles: seq<Candle>, i: int)
  {
    && 2 <= i < |candles| - 2
    && forall j :: i - 2 <= j <= i + 2 && j != i ==> candles[i].low < candles[j].low
  }

  lemma SwingInPrices(candles: seq<Candle>, i: nat)
    requires 2 <= i < |candles| - 2
    ensures IsSwing(candles, true, i) <==> HighSwing(candles, i)
    ensures IsSwing(candles, false, i) <==> LowSwing(candles, i)
  {
  }

  /** The confirmed swings of a series: for the highs and for the lows, exactly the candles
      strictly beyond the four around them, with their price and the close that confirms them. */
  lemma SwingPoints(candles: seq<Candle>, p: SwingPoint)
    ensures p in ConfirmedSwings(candles, true) <==>
              && 2 <= p.index < |candles| - 2
              && candles[p.index].high > candles[p.index - 2].high && candles[p.index].high > candles[p.index - 1].high
              && candles[p.index].high > candles[p.index + 1].high && candles[p.index].high > candles[p.index + 2].high
              && p.price == candles[p.index].high && p.confirmedAt == candles[p.index + 2].closeTime
    ensures p in ConfirmedSwings(candles, false) <==>
              && 2 <= p.index < |candles| - 2
              && candles[p.index].low < candles[p.index - 2].low && candles[p.index].low < candles[p.index - 1].low
              && candles[p.index].low < candles[p.index + 1].low && candles[p.index].low < candles[p.index + 2].low
              && p.price == candles[p.index].low && p.confirmedAt == candles[p.index + 2].closeTime
  {
    hide SwingsBelow;
    SwingsExactly(candles, true, |candles| - 2);
    SwingsExactly(candles, false, |candles| - 2);
    if 2 <= p.index < |candles| - 2 { SwingInPrices(candles, p.index); }
  }

  /** Their order: by index, each candle once. */
  lemma SwingPointsAscend(candles: seq<Candle>, high: bool, k: nat, l: nat)
    requires k < l < |ConfirmedSwings(candles, high)|
    ensures ConfirmedSwings(candles, high)[k].index < ConfirmedSwings(candles, high)[l].index
  {
    hide SwingsBelow;
    SwingsExactly(candles, high, |candles| - 2);
  }

  // ---------------------------------------------------------------- last swings

  /** `j` is the last of the candles below `n` that is a swing high. */
  ghost predicate LastHigh(candles: seq<Candle>, n: int, j: int)
  {
    j < n && HighSwing(candles, j) && forall m :: j < m < n ==> !HighSwing(candles, m)
  }

  ghost predicate LastLow(candles: seq<Candle>, n: int, j: int)
  {
    j < n && LowSwing(candles, j) && forall m :: j < m < n ==> !LowSwing(candles, m)
  }

  lemma LastSwingInPrices(candles: seq<Candle>, n: int, j: nat)
    requires n <= 2 || n <= |candles| - 2
    ensures IsLastSwing(candles, true, n, j) <==> LastHigh(candles, n, j)
    ensures IsLastSwing(candles, false, n, j) <==> LastLow(candles, n, j)
  {
    hide IsSwing, HighSwing, LowSwing;
    forall m: nat | 2 <= m < n
      ensures IsSwing(candles, true, m) <==> HighSwing(candles, m)
      ensures IsSwing(candles, false, m) <==> LowSwing(candles, m)
    {
      SwingInPrices(candles, m);
    }
    forall m: int | m < 2 ensures !HighSwing(candles, m) && !LowSwing(candles, m) {
      NotBelowTwo(candles, m);
    }
  }

  lemma NotBelowTwo(candles: seq<Candle>, m: int)
    requires m < 2
    ensures !HighSwing(candles, m) && !LowSwing(candles, m)
  {
  }

  // ---------------------------------------------------------------- the trend

  /** The last two swing highs below `n` move up, or down. */
  ghost predicate HighsMove(candles: seq<Candle>, n: int, up: bool)
  {
    exists i, j :: LastHigh(candles, n, j) && LastHigh(candles, j, i)
      && if up then candles[j].high > candles[i].high else candles[j].high < candles[i].high
  }

  ghost predicate LowsMove(candles: seq<Candle>, n: int, up: bool)
  {
    exists i, j :: LastLow(candles, n, j) && LastLow(candles, j, i)
      && if up then candles[j].low > candles[i].low else candles[j].low < candles[i].low
  }

  lemma HighsMoveMeans(candles: seq<Candle>, n: int, d: Direction)
    requires n <= 2 || n <= |candles| - 2
    ensures Moves(candles, true, n, d) <==> HighsMove(candles, n, d == LONG)
  {
    hide IsSwing;
    if Moves(candles, true, n, d) {
      var i: nat, j: nat :| AreLastTwo(candles, true, n, i, j)
        && Beyond(Price(candles[j], true), Price(candles[i], true), d == LONG);
      LastSwingInPrices(candles, n, j);
      LastSwingInPrices(candles, j, i);
    }
    if HighsMove(candles, n, d == LONG) {
      var i, j :| LastHigh(candles, n, j) && LastHigh(candles, j, i)
        && if d == LONG then candles[j].high > candles[i].high else candles[j].high < candles[i].high;
      LastHighRange(candles, n, j);
      LastHighRange(candles, j, i);
      LastSwingInPrices(candles, n, j);
      LastSwingInPrices(candles, j, i);
      assert AreLastTwo(candles, true, n, i, j);
    }
  }

  lemma LastHighRange(candles: seq<Candle>, n: int, j: int)
    requires LastHigh(candles, n, j)
    ensures 2 <= j < |candles| - 2
  {
  }

  lemma LowsMoveMeans(candles: seq<Candle>, n: int, d: Direction)
    requires n <= 2 || n <= |candles| - 2
    ensures Moves(candles, false, n, d) <==> LowsMove(candles, n, d == LONG)
  {
    hide IsSwing;
    if Moves(candles, false, n, d) {
      var i: nat, j: nat :| AreLastTwo(candles, false, n, i, j)
        && Beyond(Price(candles[j], false), Price(candles[i], false), d == LONG);
      LastSwingInPrices(candles, n, j);
      LastSwingInPrices(candles, j, i);
    }
    if LowsMove(candles, n, d == LONG) {
      var i, j :| LastLow(candles, n, j) && LastLow(candles, j, i)
        && if d == LONG then candles[j].low > candles[i].low else candles[j].low < candles[i].low;
      LastLowRange(candles, n, j);
      LastLowRange(candles, j, i);
      LastSwingInPrices(candles, n, j);
      LastSwingInPrices(candles, j, i);
      assert AreLastTwo(candles, false, n, i, j);
    }
  }

  lemma LastLowRange(candles: seq<Candle>, n: int, j: int)
    requires LastLow(candles, n, j)
    ensures 2 <= j < |candles| - 2
  {
  }

  /** The trend in prices, when the first `k` candles are those that closed before the reference
      time: the last two swing highs and the last two swing lows that closed candles confirm
      rise both for LONG, and fall both for SHORT. */
  lemma TrendInPrices(candles: seq<Candle>, referenceTime: Instant, k: nat)
    requires Ascending(candles) && k <= |candles|
    requires forall i :: 0 <= i < |candles| ==> (candles[i].closeTime < referenceTime <==> i < k)
    ensures Trend(candles, referenceTime) == Some(LONG) <==>
              HighsMove(candles, k - 2, true) && LowsMove(candles, k - 2, true)
    ensures Trend(candles, referenceTime) == Some(SHORT) <==>
              HighsMove(candles, k - 2, false) && LowsMove(candles, k - 2, false)
  {
    hide Trend, Moves, HighsMove, LowsMove, SelectClosed;
    ClosedCount(candles, referenceTime, k);
    TrendMeans(candles, referenceTime, LONG);
    TrendMeans(candles, referenceTime, SHORT);
    HighsMoveMeans(candles, k - 2, LONG);
    LowsMoveMeans(candles, k - 2, LONG);
    HighsMoveMeans(candles, k - 2, SHORT);
    LowsMoveMeans(candles, k - 2, SHORT);
  }

  lemma ClosedCount(candles: seq<Candle>, referenceTime: Instant, k: nat)
    requires Ascending(candles) && k <= |candles|
    requires forall i :: 0 <= i < |candles| ==> (candles[i].closeTime < referenceTime <==> i < k)
    ensures ClosedBefore(candles, referenceTime) == k
  {
    hide SelectClosed;
    ClosedAreFirst(candles, referenceTime);
    var n := ClosedBefore(candles, referenceTime);
    assert ClosedUpTo(candles, referenceTime, n) && ClosedUpTo(candles, referenceTime, k);
    hide ClosedUpTo;
    if n < k {
      ClosedAt(candles, referenceTime, n, n);
      ClosedAt(candles, referenceTime, k, n);
    } else if k < n {
      ClosedAt(candles, referenceTime, n, k);
      ClosedAt(candles, referenceTime, k, k);
    }
  }

  // ---------------------------------------------------------------- break events

  /** The close of candle `i` is above the last swing high confirmed before it. */
  ghost predicate ClosesAbove(candles: seq<Candle>, i: int)
    requires 0 <= i < |candles|
  {
    exists j :: LastHigh(candles, i - 2, j) && candles[i].close > candles[j].high
  }

  ghost predicate ClosesUnder(candles: seq<Candle>, i: int)
    requires 0 <= i < |candles|
  {
    exists j :: LastLow(candles, i - 2, j) && candles[i].close < candles[j].low
  }

  lemma BreaksInPrices(candles: seq<Candle>, i: nat)
    requires i < |candles|
    ensures Breaks(candles, true, i) <==> ClosesAbove(candles, i)
    ensures Breaks(candles, false, i) <==> ClosesUnder(candles, i)
  {
    hide IsLastSwing, LastHigh, LastLow;
    var n := i - 2;
    forall j: nat
      ensures IsLastSwing(candles, true, n, j) <==> LastHigh(candles, n, j)
      ensures IsLastSwing(candles, false, n, j) <==> LastLow(candles, n, j)
    {
      LastSwingInPrices(candles, n, j);
    }
    forall j | LastHigh(candles, n, j) ensures 2 <= j < |candles| { LastHighRange(candles, n, j); }
    forall j | LastLow(candles, n, j) ensures 2 <= j < |candles| { LastLowRange(candles, n, j); }
  }

  /** The break events in prices: LONG for a candle that closed before the reference time above
      the last swing high confirmed before it, SHORT for one that closed below the last swing
      low and not above the last swing high. */
  lemma BreakEventsInPrices(candles: seq<Candle>, referenceTime: Instant, at: Instant)
    requires Ascending(candles)
    ensures BreakEvent(at, LONG) in BreakEvents(candles, referenceTime) <==>
              exists i :: && 0 <= i < |candles| && candles[i].closeTime == at < referenceTime
                          && ClosesAbove(candles, i)
    ensures BreakEvent(at, SHORT) in BreakEvents(candles, referenceTime) <==>
              exists i :: && 0 <= i < |candles| && candles[i].closeTime == at < referenceTime
                          && !ClosesAbove(candles, i) && ClosesUnder(candles, i)
  {
    hide BreakEvents, Breaks, ClosesAbove, ClosesUnder;
    BreakEventsMean(candles, referenceTime, BreakEvent(at, LONG));
    BreakEventsMean(candles, referenceTime, BreakEvent(at, SHORT));
    forall i | 0 <= i < |candles|
      ensures BreaksTowards(candles, i, LONG) <==> ClosesAbove(candles, i)
      ensures BreaksTowards(candles, i, SHORT) <==> !ClosesAbove(candles, i) && ClosesUnder(candles, i)
    {
      BreaksInPrices(candles, i);
    }
  }
}
