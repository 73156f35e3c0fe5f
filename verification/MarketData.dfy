/** Candles and point-in-time snapshots. Times are UTC instants; prices are finite numbers
    that the strategy only compares. */
module MarketData {
  import opened Text
  import opened IsoTime

  datatype Candle = Candle(symbol: string, timeframe: string, openTime: Instant, closeTime: Instant,
                           open: real, high: real, low: real, close: real, volume: real)

  /** `Candle.__post_init__`. */
  predicate ValidCandle(c: Candle)
  {
    && !Blank(c.symbol) && !Blank(c.timeframe)
    && c.openTime < c.closeTime
    && c.low <= c.open <= c.high && c.low <= c.close <= c.high
    && c.volume >= 0.0
  }

  datatype MarketSnapshot = MarketSnapshot(snapshotId: string, referenceTime: Instant, candles: seq<Candle>)

  /** Every candle of a snapshot closed strictly before its reference time. */
  predicate AvailableAt(candles: seq<Candle>, t: Instant)
  {
    forall i :: 0 <= i < |candles| ==> candles[i].closeTime < t
  }

  /** The order of the keys (symbol, timeframe, open_time). */
  predicate CandleBefore(a: Candle, b: Candle)
  {
    || Less(a.symbol, b.symbol)
    || (a.symbol == b.symbol && (Less(a.timeframe, b.timeframe)
                                 || (a.timeframe == b.timeframe && a.openTime < b.openTime)))
  }

  /** What `MarketSnapshot.__post_init__` asks of the candles: some, each valid, their keys in
      order and distinct, all closed before the reference time. */
  predicate ValidSnapshot(candles: seq<Candle>, referenceTime: Instant)
  {
    && |candles| > 0 && (forall i :: 0 <= i < |candles| ==> ValidCandle(candles[i]))
    && (forall i, j :: 0 <= i < j < |candles| ==> CandleBefore(candles[i], candles[j]))
    && AvailableAt(candles, referenceTime)
  }

  /** `MarketSnapshot.candles_for`. */
  function CandlesFor(candles: seq<Candle>, symbol: string, timeframe: string): (r: seq<Candle>)
    ensures forall i :: 0 <= i < |r| ==> r[i] in candles && r[i].symbol == symbol && r[i].timeframe == timeframe
    ensures r == [] <==>
              forall i :: 0 <= i < |candles| ==> candles[i].symbol != symbol || candles[i].timeframe != timeframe
  {
    if |candles| == 0 then []
    else
      var last := candles[|candles| - 1];
      var r := CandlesFor(candles[..|candles| - 1], symbol, timeframe);
      if last.symbol == symbol && last.timeframe == timeframe then r + [last] else r
  }

  /** Close times strictly ascend. */
  predicate Ascending(candles: seq<Candle>)
  {
    forall i, j :: 0 <= i < j < |candles| ==> candles[i].closeTime < candles[j].closeTime
  }

  /** `select_closed_candles`: the candles that closed strictly before the reference. */
  function SelectClosed(candles: seq<Candle>, referenceTime: Instant): (r: seq<Candle>)
    ensures AvailableAt(r, referenceTime) && |r| <= |candles|
  {
    if |candles| == 0 then []
    else
      var n := |candles| - 1;
      var r := SelectClosed(candles[..n], referenceTime);
      if candles[n].closeTime < referenceTime then r + [candles[n]] else r
  }

  /** When the closed candles are the first `k`, selecting them is taking a prefix. */
  lemma {:induction false} SelectClosedPrefix(candles: seq<Candle>, referenceTime: Instant, k: nat)
    requires k <= |candles|
    requires forall i :: 0 <= i < |candles| ==> (candles[i].closeTime < referenceTime <==> i < k)
    ensures SelectClosed(candles, referenceTime) == candles[..k]
    decreases |candles|
  {
    if |candles| > 0 {
      var n := |candles| - 1;
      SelectClosedPrefix(candles[..n], referenceTime, if k < n then k else n);
    }
  }

  /** Selecting the series of a symbol and timeframe keeps order: it acts candle by candle. */
  lemma {:induction false} CandlesForActs(a: seq<Candle>, b: seq<Candle>, c: Candle, symbol: string, timeframe: string)
    ensures CandlesFor([c], symbol, timeframe) == if c.symbol == symbol && c.timeframe == timeframe then [c] else []
    ensures CandlesFor(a + b, symbol, timeframe) == CandlesFor(a, symbol, timeframe) + CandlesFor(b, symbol, timeframe)
    decreases |b|
  {
    if |b| > 0 {
      CandlesForActs(a, b[..|b| - 1], c, symbol, timeframe);
      assert (a + b)[..|a + b| - 1] == a + b[..|b| - 1];
    } else {
      assert a + b == a;
    }
    assert [c][..0] == [];
  }

  lemma SelectClosedOne(c: Candle, t: Instant)
    ensures SelectClosed([c], t) == if c.closeTime < t then [c] else []
  {
    assert [c][..0] == [];
  }

  /** Selecting the closed candles acts candle by candle. */
  lemma {:induction false} SelectClosedActs(a: seq<Candle>, b: seq<Candle>, t: Instant)
    ensures SelectClosed(a + b, t) == SelectClosed(a, t) + SelectClosed(b, t)
    decreases |b|
  {
    hide AvailableAt;
    if |b| > 0 {
      var n := |b| - 1;
      SelectClosedActs(a, b[..n], t);
      assert (a + b)[..|a| + n] == a + b[..n];
    } else {
      assert a + b == a;
    }
  }

  /** What the constructors of a snapshot and of its candles accept, in the fields of the candles:
      sorted by symbol, timeframe and open time, without repetition, and closed by then. */
  lemma SnapshotAccepted(candles: seq<Candle>, referenceTime: Instant)
    ensures ValidSnapshot(candles, referenceTime) <==>
              && |candles| > 0
              && (forall c :: c in candles ==>
                    && !Blank(c.symbol) && !Blank(c.timeframe) && c.openTime < c.closeTime < referenceTime
                    && c.low <= c.open && c.low <= c.close && c.open <= c.high && c.close <= c.high && c.volume >= 0.0)
              && (forall i, j :: 0 <= i < j < |candles| ==>
                    var a, b := candles[i], candles[j];
                    || Less(a.symbol, b.symbol)
                    || (a.symbol == b.symbol && Less(a.timeframe, b.timeframe))
                    || (a.symbol == b.symbol && a.timeframe == b.timeframe && a.openTime < b.openTime))
  {
    assert forall i :: 0 <= i < |candles| ==> candles[i] in candles;
  }
}
