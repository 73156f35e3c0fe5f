/** Swings with delayed confirmation, trend and break-of-structure events, and their
    causality: nothing depends on a candle that had not closed. */
module Strategy {
  import opened Wrappers
  import opened IsoTime
  import opened Domain
  import opened MarketData

  datatype SwingPoint = SwingPoint(index: nat, price: real, confirmedAt: Instant)

  datatype BreakEvent = BreakEvent(at: Instant, direction: Direction)

  // ---------------------------------------------------------------- swings

  function Price(c: Candle, high: bool): real
  {
    if high then c.high else c.low
  }

  predicate Beyond(a: real, b: real, high: bool)
  {
    if high then a > b else a < b
  }

  /** Strictly beyond the two neighbours on either side. */
  predicate IsSwing(candles: seq<Candle>, high: bool, i: nat)
    requires 2 <= i < |candles| - 2
  {
    var v := Price(candles[i], high);
    && Beyond(v, Price(candles[i - 2], high), high) && Beyond(v, Price(candles[i - 1], high), high)
    && Beyond(v, Price(candles[i + 1], high), high) && Beyond(v, Price(candles[i + 2], high), high)
  }

  function PointAt(candles: seq<Candle>, high: bool, i: nat): SwingPoint
    requires i + 2 < |candles|
  {
    SwingPoint(i, Price(candles[i], high), candles[i + 2].closeTime)
  }

  /** The swings at indices below `n`. */
  function SwingsBelow(candles: seq<Candle>, high: bool, n: int): seq<SwingPoint>
    requires n <= 2 || n <= |candles| - 2
    decreases if n < 0 then 0 else n
  {
    if n <= 2 then []
    else SwingsBelow(candles, high, n - 1) + if IsSwing(candles, high, n - 1) then [PointAt(candles, high, n - 1)]
      else []
  }

  /** `_confirmed_swings`. */
  function ConfirmedSwings(candles: seq<Candle>, high: bool): seq<SwingPoint>
  {
    SwingsBelow(candles, high, |candles| - 2)
  }

  method ComputeConfirmedSwings(candles: seq<Candle>, high: bool) returns (points: seq<SwingPoint>)
    ensures points == ConfirmedSwings(candles, high)
  {
    points := [];
    var index := 2;
    while index < |candles| - 2
      invariant 2 <= index && (index <= |candles| - 2 || index == 2)
      invariant points == SwingsBelow(candles, high, index)
    {
      if IsSwing(candles, high, index) {
        points := points + [PointAt(candles, high, index)];
      }
      index := index + 1;
    }
  }

  /** `_pit_swings`. */
  function PitSwings(points: seq<SwingPoint>, referenceTime: Instant): seq<SwingPoint>
  {
    if |points| == 0 then []
    else
      var n := |points| - 1;
      PitSwings(points[..n], referenceTime) + if points[n].confirmedAt < referenceTime then [points[n]] else []
  }

  // ---------------------------------------------------------------- trend

  function TrendOf(highs: seq<SwingPoint>, lows: seq<SwingPoint>): Option<Direction>
  {
    if |highs| < 2 || |lows| < 2 then None
    else
      var h1, h2 := highs[|highs| - 2], highs[|highs| - 1];
      var l1, l2 := lows[|lows| - 2], lows[|lows| - 1];
      if h2.price > h1.price && l2.price > l1.price then Some(LONG)
      else if h2.price < h1.price && l2.price < l1.price then Some(SHORT)
      else None
  }

  /** `_trend`. */
  function Trend(candles: seq<Candle>, referenceTime: Instant): Option<Direction>
  {
    TrendOf(PitSwings(ConfirmedSwings(candles, true), referenceTime),
            PitSwings(ConfirmedSwings(candles, false), referenceTime))
  }

  // ---------------------------------------------------------------- break events

  /** The swings a candle may use: of earlier index and confirmed before it closed. */
  function PriorSwings(points: seq<SwingPoint>, index: nat, closeTime: Instant): seq<SwingPoint>
  {
    if |points| == 0 then []
    else
      var n := |points| - 1;
      PriorSwings(points[..n], index, closeTime)
      + if points[n].index < index && points[n].confirmedAt < closeTime then [points[n]] else []
  }

  predicate BreaksUp(close: real, highs: seq<SwingPoint>)
  {
    |highs| > 0 && close > highs[|highs| - 1].price
  }

  predicate BreaksDown(close: real, lows: seq<SwingPoint>)
  {
    |lows| > 0 && close < lows[|lows| - 1].price
  }

  /** The event of one candle, given the swings it may use. */
  function BreakOf(c: Candle, highs: seq<SwingPoint>, lows: seq<SwingPoint>): seq<BreakEvent>
  {
    if BreaksUp(c.close, highs) then [BreakEvent(c.closeTime, LONG)]
    else if BreaksDown(c.close, lows) then [BreakEvent(c.closeTime, SHORT)]
    else []
  }

  /** What candle `i` contributes to the events. */
  function Contribution(candles: seq<Candle>, referenceTime: Instant, highs: seq<SwingPoint>,
                        lows: seq<SwingPoint>, i: nat)
    : seq<BreakEvent>
    requires i < |candles|
  {
    var c := candles[i];
    if c.closeTime >= referenceTime then []
    else BreakOf(c, PriorSwings(highs, i, c.closeTime), PriorSwings(lows, i, c.closeTime))
  }

  function EventsBelow(candles: seq<Candle>, referenceTime: Instant, highs: seq<SwingPoint>, lows: seq<SwingPoint>,
                       n: nat)
    : seq<BreakEvent>
    requires n <= |candles|
  {
    if n == 0 then []
    else
      EventsBelow(candles, referenceTime, highs, lows, n - 1) + Contribution(candles, referenceTime, highs, lows, n - 1)
  }

  /** `_break_events`. */
  function BreakEvents(candles: seq<Candle>, referenceTime: Instant): seq<BreakEvent>
  {
    EventsBelow(candles, referenceTime, ConfirmedSwings(candles, true), ConfirmedSwings(candles, false), |candles|)
  }

  method ComputeBreakEvents(candles: seq<Candle>, referenceTime: Instant) returns (events: seq<BreakEvent>)
    ensures events == BreakEvents(candles, referenceTime)
  {
    hide SwingsBelow, PriorSwings;
    var highs := ComputeConfirmedSwings(candles, true);
    var lows := ComputeConfirmedSwings(candles, false);
    events := [];
    for index := 0 to |candles|
      invariant events == EventsBelow(candles, referenceTime, highs, lows, index)
    {
      var candle := candles[index];
      if candle.closeTime >= referenceTime {
        continue;
      }
      var priorHighs := PriorSwings(highs, index, candle.closeTime);
      var priorLows := PriorSwings(lows, index, candle.closeTime);
      if |priorHighs| > 0 && candle.close > priorHighs[|priorHighs| - 1].price {
        events := events + [BreakEvent(candle.closeTime, LONG)];
      } else if |priorLows| > 0 && candle.close < priorLows[|priorLows| - 1].price {
        events := events + [BreakEvent(candle.closeTime, SHORT)];
      }
    }
  }

  // ---------------------------------------------------------------- by position

  /** How many candles closed strictly before the reference. */
  function ClosedBefore(candles: seq<Candle>, referenceTime: Instant): (k: nat)
    ensures k <= |candles|
  {
    |SelectClosed(candles, referenceTime)|
  }

  /** In an ascending series the closed candles are a prefix. */
  lemma {:induction false} ClosedAreFirst(candles: seq<Candle>, referenceTime: Instant)
    requires Ascending(candles)
    ensures var k := ClosedBefore(candles, referenceTime);
            && SelectClosed(candles, referenceTime) == candles[..k]
            && forall i :: 0 <= i < |candles| ==> (candles[i].closeTime < referenceTime <==> i < k)
    decreases |candles|
  {
    if |candles| > 0 {
      var n := |candles| - 1;
      if candles[n].closeTime < referenceTime {
        SelectClosedPrefix(candles, referenceTime, n + 1);
      } else {
        ClosedAreFirst(candles[..n], referenceTime);
        assert forall i :: 0 <= i < n ==> candles[..n][i] == candles[i];
      }
    }
  }

  function AtMost(a: int, b: int): int
  {
    if a < b then a else b
  }

  lemma PitAppend(points: seq<SwingPoint>, p: SwingPoint, referenceTime: Instant)
    ensures PitSwings(points + [p], referenceTime)
            == PitSwings(points, referenceTime) + if p.confirmedAt < referenceTime then [p] else []
  {
    assert (points + [p])[..|points|] == points;
  }

  lemma PriorAppend(points: seq<SwingPoint>, p: SwingPoint, index: nat, closeTime: Instant)
    ensures PriorSwings(points + [p], index, closeTime)
            == PriorSwings(points, index, closeTime) + if p.index < index && p.confirmedAt < closeTime then [p] else []
  {
    assert (points + [p])[..|points|] == points;
  }

  lemma SwingsStep(candles: seq<Candle>, high: bool, n: int)
    requires 2 < n <= |candles| - 2
    ensures SwingsBelow(candles, high, n)
            == if IsSwing(candles, high, n - 1) then SwingsBelow(candles, high, n - 1) + [PointAt(candles, high, n - 1)]
               else SwingsBelow(candles, high, n - 1)
  {
  }

  /** Exactly the swing candles below `n`, each once, in index order, each confirmed when
      the second candle after it closes. */
  ghost predicate ListsSwings(points: seq<SwingPoint>, candles: seq<Candle>, high: bool, n: int)
    requires n <= 2 || n <= |candles| - 2
  {
    && (forall k, l :: 0 <= k < l < |points| ==> points[k].index < points[l].index)
    && (forall p :: p in points ==>
          2 <= p.index < n && IsSwing(candles, high, p.index) && p == PointAt(candles, high, p.index))
    && (forall i :: 2 <= i < n && IsSwing(candles, high, i) ==> PointAt(candles, high, i) in points)
  }

  lemma ListsOneMore(points: seq<SwingPoint>, candles: seq<Candle>, high: bool, n: int)
    requires 2 < n <= |candles| - 2 && ListsSwings(points, candles, high, n - 1)
    ensures ListsSwings(if IsSwing(candles, high, n - 1) then points + [PointAt(candles, high, n - 1)]
            else points, candles, high, n)
  {
    hide IsSwing, PointAt;
    PointFields(candles, high, n - 1);
  }

  lemma {:induction false} SwingsExactly(candles: seq<Candle>, high: bool, n: int)
    requires n <= 2 || n <= |candles| - 2
    ensures ListsSwings(SwingsBelow(candles, high, n), candles, high, n)
    decreases if n < 0 then 0 else n
  {
    if n > 2 {
      hide ListsSwings, IsSwing, PointAt, SwingsBelow;
      SwingsExactly(candles, high, n - 1);
      SwingsStep(candles, high, n);
      ListsOneMore(SwingsBelow(candles, high, n - 1), candles, high, n);
      assert ListsSwings(SwingsBelow(candles, high, n), candles, high, n);
    }
  }

  lemma PointFields(candles: seq<Candle>, high: bool, i: nat)
    requires i + 2 < |candles|
    ensures PointAt(candles, high, i).index == i && PointAt(candles, high, i).confirmedAt == candles[i + 2].closeTime
  {
  }

  /** Exactly the first `k` candles closed strictly before the reference. */
  predicate ClosedUpTo(candles: seq<Candle>, referenceTime: Instant, k: nat)
  {
    k <= |candles| && forall i :: 0 <= i < |candles| ==> (candles[i].closeTime < referenceTime <==> i < k)
  }

  lemma ClosedAt(candles: seq<Candle>, referenceTime: Instant, k: nat, i: nat)
    requires ClosedUpTo(candles, referenceTime, k) && i < |candles|
    ensures candles[i].closeTime < referenceTime <==> i < k
  {
  }

  lemma NoSwings(candles: seq<Candle>, high: bool, n: int)
    requires n <= 2
    ensures SwingsBelow(candles, high, n) == []
  {
  }

  lemma PitStep(candles: seq<Candle>, high: bool, referenceTime: Instant, k: nat, n: int)
    requires 2 < n <= |candles| - 2 && (candles[n + 1].closeTime < referenceTime <==> n + 1 < k)
    requires PitSwings(SwingsBelow(candles, high, n - 1), referenceTime)
             == SwingsBelow(candles, high, AtMost(n - 1, k - 2))
    ensures PitSwings(SwingsBelow(candles, high, n), referenceTime) == SwingsBelow(candles, high, AtMost(n, k - 2))
  {
    hide IsSwing, PointAt, SwingsBelow, PitSwings;
    SwingsStep(candles, high, n);
    PointFields(candles, high, n - 1);
    PitAppend(SwingsBelow(candles, high, n - 1), PointAt(candles, high, n - 1), referenceTime);
  }

  /** The point-in-time swings are those whose confirming candle is among the closed ones. */
  lemma {:induction false} PitByPosition(candles: seq<Candle>, high: bool, referenceTime: Instant, k: nat, n: int)
    requires (n <= 2 || n <= |candles| - 2) && ClosedUpTo(candles, referenceTime, k)
    ensures PitSwings(SwingsBelow(candles, high, n), referenceTime) == SwingsBelow(candles, high, AtMost(n, k - 2))
    decreases if n < 0 then 0 else n
  {
    if n > 2 {
      hide SwingsBelow, PitSwings, AtMost, ClosedUpTo;
      PitByPosition(candles, high, referenceTime, k, n - 1);
      ClosedAt(candles, referenceTime, k, n + 1);
      PitStep(candles, high, referenceTime, k, n);
      assert PitSwings(SwingsBelow(candles, high, n), referenceTime) == SwingsBelow(candles, high, AtMost(n, k - 2));
    } else {
      NoSwings(candles, high, n);
      NoSwings(candles, high, AtMost(n, k - 2));
      hide SwingsBelow, AtMost, ClosedUpTo;
      assert PitSwings(SwingsBelow(candles, high, n), referenceTime) == SwingsBelow(candles, high, AtMost(n, k - 2));
    }
  }

  lemma PriorStep(candles: seq<Candle>, high: bool, i: nat, n: int)
    requires i < |candles| && 2 < n <= |candles| - 2 && (candles[n + 1].closeTime < candles[i].closeTime <==> n + 1 < i)
    requires PriorSwings(SwingsBelow(candles, high, n - 1), i, candles[i].closeTime)
             == SwingsBelow(candles, high, AtMost(n - 1, i - 2))
    ensures PriorSwings(SwingsBelow(candles, high, n), i, candles[i].closeTime)
            == SwingsBelow(candles, high, AtMost(n, i - 2))
  {
    hide IsSwing, PointAt, SwingsBelow, PriorSwings;
    SwingsStep(candles, high, n);
    PointFields(candles, high, n - 1);
    PriorAppend(SwingsBelow(candles, high, n - 1), PointAt(candles, high, n - 1), i, candles[i].closeTime);
  }

  /** The prior swings of candle `i` are those confirmed at least one candle earlier. */
  lemma {:induction false} PriorByPosition(candles: seq<Candle>, high: bool, i: nat, n: int)
    requires Ascending(candles) && i < |candles| && (n <= 2 || n <= |candles| - 2)
    ensures PriorSwings(SwingsBelow(candles, high, n), i, candles[i].closeTime)
            == SwingsBelow(candles, high, AtMost(n, i - 2))
    decreases if n < 0 then 0 else n
  {
    if n > 2 {
      hide SwingsBelow, PriorSwings, AtMost;
      PriorByPosition(candles, high, i, n - 1);
      ConfirmedEarlier(candles, n + 1, i);
      PriorStep(candles, high, i, n);
      assert PriorSwings(SwingsBelow(candles, high, n), i, candles[i].closeTime)
        == SwingsBelow(candles, high, AtMost(n, i - 2));
    } else {
      NoSwings(candles, high, n);
      NoSwings(candles, high, AtMost(n, i - 2));
      hide SwingsBelow, AtMost;
      assert PriorSwings(SwingsBelow(candles, high, n), i, candles[i].closeTime)
        == SwingsBelow(candles, high, AtMost(n, i - 2));
    }
  }

  lemma ConfirmedEarlier(candles: seq<Candle>, i: nat, j: nat)
    requires Ascending(candles) && i < |candles| && j < |candles|
    ensures candles[i].closeTime < candles[j].closeTime <==> i < j
  {
  }

  /** The event of candle `i`, by position: it looks at candles up to `i` only. */
  function EventAt(candles: seq<Candle>, i: nat): seq<BreakEvent>
    requires i < |candles|
  {
    BreakOf(candles[i], SwingsBelow(candles, true, i - 2), SwingsBelow(candles, false, i - 2))
  }

  /** The events of the first `n` candles. */
  function EventList(candles: seq<Candle>, n: nat): seq<BreakEvent>
    requires n <= |candles|
  {
    if n == 0 then [] else EventList(candles, n - 1) + EventAt(candles, n - 1)
  }

  /** For every candle, the swings it may use are those of position at most `i - 3`. */
  ghost predicate PriorsByPosition(candles: seq<Candle>, high: bool, points: seq<SwingPoint>)
  {
    forall i :: 0 <= i < |candles| ==>
      PriorSwings(points, i, candles[i].closeTime) == SwingsBelow(candles, high, i - 2)
  }

  lemma ConfirmedPriors(candles: seq<Candle>, high: bool)
    requires Ascending(candles)
    ensures PriorsByPosition(candles, high, ConfirmedSwings(candles, high))
  {
    var points := ConfirmedSwings(candles, high);
    forall i | 0 <= i < |candles|
      ensures PriorSwings(points, i, candles[i].closeTime) == SwingsBelow(candles, high, i - 2)
    {
      PriorByPosition(candles, high, i, |candles| - 2);
    }
  }

  lemma EventsStep(candles: seq<Candle>, referenceTime: Instant, n: nat, highs: seq<SwingPoint>, lows: seq<SwingPoint>)
    requires 0 < n <= |candles|
    requires PriorsByPosition(candles, true, highs) && PriorsByPosition(candles, false, lows)
    ensures EventsBelow(candles, referenceTime, highs, lows, n)
            == EventsBelow(candles, referenceTime, highs, lows, n - 1)
               + if candles[n - 1].closeTime >= referenceTime then [] else EventAt(candles, n - 1)
  {
    hide SwingsBelow, PriorSwings, BreakOf;
    var i := n - 1;
    var t := candles[i].closeTime;
    assert PriorSwings(highs, i, t) == SwingsBelow(candles, true, i - 2);
    assert PriorSwings(lows, i, t) == SwingsBelow(candles, false, i - 2);
  }

  lemma {:induction false} EventsByPosition(candles: seq<Candle>, referenceTime: Instant, k: nat, n: nat,
                                            highs: seq<SwingPoint>, lows: seq<SwingPoint>)
    requires n <= |candles| && ClosedUpTo(candles, referenceTime, k)
    requires PriorsByPosition(candles, true, highs) && PriorsByPosition(candles, false, lows)
    ensures EventsBelow(candles, referenceTime, highs, lows, n) == EventList(candles, AtMost(n, k))
    decreases n
  {
    hide EventAt, PriorsByPosition, SwingsBelow, PriorSwings, BreakOf;
    if n > 0 {
      EventsByPosition(candles, referenceTime, k, n - 1, highs, lows);
      EventsStep(candles, referenceTime, n, highs, lows);
      if n <= k {
        assert AtMost(n, k) == n && AtMost(n - 1, k) == n - 1;
      } else {
        assert AtMost(n, k) == k && AtMost(n - 1, k) == k;
      }
    }
  }

  /** Trend and break events of an ascending series, in terms of its closed candles alone. */
  lemma TrendByPosition(candles: seq<Candle>, referenceTime: Instant)
    requires Ascending(candles)
    ensures var k := ClosedBefore(candles, referenceTime);
            Trend(candles, referenceTime)
              == TrendOf(SwingsBelow(candles, true, k - 2), SwingsBelow(candles, false, k - 2))
  {
    hide SwingsBelow, PitSwings, TrendOf, SelectClosed;
    var k := ClosedBefore(candles, referenceTime);
    ClosedAreFirst(candles, referenceTime);
    PitByPosition(candles, true, referenceTime, k, |candles| - 2);
    PitByPosition(candles, false, referenceTime, k, |candles| - 2);
  }

  lemma BreaksByPosition(candles: seq<Candle>, referenceTime: Instant)
    requires Ascending(candles)
    ensures BreakEvents(candles, referenceTime) == EventList(candles, ClosedBefore(candles, referenceTime))
  {
    ClosedAreFirst(candles, referenceTime);
    ConfirmedPriors(candles, true);
    ConfirmedPriors(candles, false);
    EventsByPosition(candles, referenceTime, ClosedBefore(candles, referenceTime), |candles|,
                     ConfirmedSwings(candles, true), ConfirmedSwings(candles, false));
  }

  // ---------------------------------------------------------------- meaning

  /** The last swing among the candles below `n`. */
  ghost predicate IsLastSwing(candles: seq<Candle>, high: bool, n: int, j: nat)
    requires n <= 2 || n <= |candles| - 2
  {
    2 <= j < n && IsSwing(candles, high, j) && forall m :: j < m < n ==> !IsSwing(candles, high, m)
  }

  lemma LastPointIsLastSwing(candles: seq<Candle>, high: bool, n: int)
    requires n <= 2 || n <= |candles| - 2
    ensures var points := SwingsBelow(candles, high, n);
            && (points == [] <==> forall m :: 2 <= m < n ==> !IsSwing(candles, high, m))
            && (points != [] ==> IsLastSwing(candles, high, n, points[|points| - 1].index)
                                 && points[|points| - 1].price == Price(candles[points[|points| - 1].index], high))
            && forall j :: IsLastSwing(candles, high, n, j) ==> points != [] && points[|points| - 1].index == j
  {
    hide SwingsBelow, IsSwing;
    SwingsExactly(candles, high, n);
    var points := SwingsBelow(candles, high, n);
    if points != [] {
      var last := points[|points| - 1];
      assert last in points;
      assert forall p :: p in points ==> p.index <= last.index;
      forall m | last.index < m < n ensures !IsSwing(candles, high, m) { PointFields(candles, high, m); }
    }
  }

  /** The close of candle `i` is beyond the last swing that a candle before it confirmed. */
  ghost predicate Breaks(candles: seq<Candle>, high: bool, i: nat)
    requires i < |candles|
  {
    exists j: nat :: IsLastSwing(candles, high, i - 2, j) && Beyond(candles[i].close, Price(candles[j], high), high)
  }

  lemma BreaksMeans(candles: seq<Candle>, high: bool, i: nat)
    requires i < |candles|
    ensures var points := SwingsBelow(candles, high, i - 2);
            Breaks(candles, high, i) <==> |points| > 0 && Beyond(candles[i].close, points[|points| - 1].price, high)
  {
    hide SwingsBelow, Beyond;
    LastPointIsLastSwing(candles, high, i - 2);
    var points := SwingsBelow(candles, high, i - 2);
    if |points| > 0 { assert IsLastSwing(candles, high, i - 2, points[|points| - 1].index); }
  }

  /** Which event a candle produces, without the list of swings: LONG when it closes above the
      last swing high confirmed before it, else SHORT when it closes below the last low. */
  lemma EventMeans(candles: seq<Candle>, i: nat)
    requires i < |candles|
    ensures EventAt(candles, i) == if Breaks(candles, true, i) then [BreakEvent(candles[i].closeTime, LONG)]
                                   else if Breaks(candles, false, i) then [BreakEvent(candles[i].closeTime, SHORT)]
                                   else []
  {
    hide SwingsBelow, Breaks;
    BreaksMeans(candles, true, i);
    BreaksMeans(candles, false, i);
  }

  /** `i` and `j` are the last two swings below `n`, in this order. */
  ghost predicate AreLastTwo(candles: seq<Candle>, high: bool, n: int, i: nat, j: nat)
    requires n <= 2 || n <= |candles| - 2
  {
    IsLastSwing(candles, high, n, j) && IsLastSwing(candles, high, j, i)
  }

  /** The last two swings of a kind exist and move in the direction of `d`. */
  ghost predicate Moves(candles: seq<Candle>, high: bool, n: int, d: Direction)
    requires n <= 2 || n <= |candles| - 2
  {
    exists i: nat, j: nat :: AreLastTwo(candles, high, n, i, j)
      && Beyond(Price(candles[j], high), Price(candles[i], high), d == LONG)
  }

  lemma {:induction false} PointsBelowLast(candles: seq<Candle>, high: bool, n: int)
    requires n <= 2 || n <= |candles| - 2
    ensures var points := SwingsBelow(candles, high, n);
            |points| > 0 ==> var j := points[|points| - 1].index;
                             2 <= j < n && SwingsBelow(candles, high, j) == points[..|points| - 1]
    decreases if n < 0 then 0 else n
  {
    if n > 2 {
      hide IsSwing;
      PointsBelowLast(candles, high, n - 1);
      SwingsStep(candles, high, n);
      PointFields(candles, high, n - 1);
    }
  }

  /** Whether the last two points of the list move that way, given the list. */
  predicate PointsMove(points: seq<SwingPoint>, d: Direction)
  {
    |points| >= 2 && Beyond(points[|points| - 1].price, points[|points| - 2].price, d == LONG)
  }

  lemma PointsMoveMeans(candles: seq<Candle>, high: bool, n: int, d: Direction)
    requires n <= 2 || n <= |candles| - 2
    ensures PointsMove(SwingsBelow(candles, high, n), d) <==> Moves(candles, high, n, d)
  {
    hide SwingsBelow, IsLastSwing, Beyond;
    var points := SwingsBelow(candles, high, n);
    LastPointIsLastSwing(candles, high, n);
    PointsBelowLast(candles, high, n);
    if |points| > 0 {
      var j := points[|points| - 1].index;
      LastPointIsLastSwing(candles, high, j);
      if |points| >= 2 {
        assert AreLastTwo(candles, high, n, points[|points| - 2].index, j);
      }
    }
  }

  /** The trend of a series in time order, without the lists: both the last two swing highs and
      the last two swing lows, of those confirmed by a closed candle, move the same way. */
  lemma TrendMeans(candles: seq<Candle>, referenceTime: Instant, d: Direction)
    requires Ascending(candles)
    ensures var n := ClosedBefore(candles, referenceTime) - 2;
            Trend(candles, referenceTime) == Some(d) <==> Moves(candles, true, n, d) && Moves(candles, false, n, d)
  {
    hide SwingsBelow, Trend, Moves;
    var n := ClosedBefore(candles, referenceTime) - 2;
    TrendByPosition(candles, referenceTime);
    PointsMoveMeans(candles, true, n, d);
    PointsMoveMeans(candles, false, n, d);
  }

  // ---------------------------------------------------------------- causality

  lemma {:induction false} SwingsOfPrefix(candles: seq<Candle>, high: bool, k: nat, n: int)
    requires k <= |candles| && (n <= 2 || n <= k - 2)
    ensures SwingsBelow(candles[..k], high, n) == SwingsBelow(candles, high, n)
    decreases if n < 0 then 0 else n
  {
    if n > 2 { SwingsOfPrefix(candles, high, k, n - 1); }
  }

  lemma {:induction false} EventsOfPrefix(candles: seq<Candle>, k: nat, n: nat)
    requires n <= k <= |candles|
    ensures EventList(candles[..k], n) == EventList(candles, n)
    decreases n
  {
    if n > 0 {
      EventsOfPrefix(candles, k, n - 1);
      SwingsOfPrefix(candles, true, k, n - 3);
      SwingsOfPrefix(candles, false, k, n - 3);
    }
  }

  lemma AscendingPrefix(candles: seq<Candle>, later: seq<Candle>)
    requires Ascending(candles + later)
    ensures Ascending(candles)
  {
    var all := candles + later;
    assert forall i :: 0 <= i < |candles| ==> all[i] == candles[i];
  }

  /** The closed candles of an ascending series, and of themselves. */
  lemma ClosedOfClosed(candles: seq<Candle>, referenceTime: Instant)
    requires Ascending(candles)
    ensures var k := ClosedBefore(candles, referenceTime);
            var closed := candles[..k];
            SelectClosed(candles, referenceTime) == closed && Ascending(closed)
              && ClosedBefore(closed, referenceTime) == k
  {
    ClosedAreFirst(candles, referenceTime);
    var k := ClosedBefore(candles, referenceTime);
    SelectClosedPrefix(candles[..k], referenceTime, k);
  }

  /** No look-ahead: trend and break events are those of the sub-series that closed strictly
      before the reference time. */
  lemma NoLookAhead(candles: seq<Candle>, referenceTime: Instant)
    requires Ascending(candles)
    ensures Trend(candles, referenceTime) == Trend(SelectClosed(candles, referenceTime), referenceTime)
    ensures BreakEvents(candles, referenceTime) == BreakEvents(SelectClosed(candles, referenceTime), referenceTime)
  {
    hide SwingsBelow, EventList, Trend, TrendOf, BreakEvents, EventsBelow;
    var k: int := ClosedBefore(candles, referenceTime);
    ClosedOfClosed(candles, referenceTime);
    TrendByPosition(candles, referenceTime);
    TrendByPosition(candles[..k], referenceTime);
    BreaksByPosition(candles, referenceTime);
    BreaksByPosition(candles[..k], referenceTime);
    SwingsOfPrefix(candles, true, k, k - 2);
    SwingsOfPrefix(candles, false, k, k - 2);
    EventsOfPrefix(candles, k, k);
  }

  lemma SelectClosedAppend(candles: seq<Candle>, later: seq<Candle>, referenceTime: Instant)
    requires Ascending(candles + later)
    requires forall i :: 0 <= i < |later| ==> later[i].closeTime >= referenceTime
    ensures SelectClosed(candles + later, referenceTime) == SelectClosed(candles, referenceTime)
  {
    AscendingPrefix(candles, later);
    ClosedAreFirst(candles, referenceTime);
    var all, k := candles + later, ClosedBefore(candles, referenceTime);
    SelectClosedPrefix(all, referenceTime, k);
    assert all[..k] == candles[..k];
  }

  /** Appending candles that close at or after the reference time changes nothing. */
  lemma LaterCandlesChangeNothing(candles: seq<Candle>, later: seq<Candle>, referenceTime: Instant)
    requires Ascending(candles + later)
    requires forall i :: 0 <= i < |later| ==> later[i].closeTime >= referenceTime
    ensures Trend(candles + later, referenceTime) == Trend(candles, referenceTime)
    ensures BreakEvents(candles + later, referenceTime) == BreakEvents(candles, referenceTime)
  {
    AscendingPrefix(candles, later);
    SelectClosedAppend(candles, later, referenceTime);
    NoLookAhead(candles + later, referenceTime);
    NoLookAhead(candles, referenceTime);
  }

  lemma {:induction false} ClosedBeforeMonotone(candles: seq<Candle>, earlier: Instant, later: Instant)
    requires earlier <= later
    ensures ClosedBefore(candles, earlier) <= ClosedBefore(candles, later)
    decreases |candles|
  {
    if |candles| > 0 { ClosedBeforeMonotone(candles[..|candles| - 1], earlier, later); }
  }

  lemma {:induction false} EventListGrows(candles: seq<Candle>, m: nat, n: nat)
    requires m <= n <= |candles|
    ensures EventList(candles, m) <= EventList(candles, n)
    decreases n - m
  {
    if m < n { EventListGrows(candles, m, n - 1); }
  }

  /** History is never rewritten: an earlier reference time sees a prefix of the events. */
  lemma EarlierReferenceSeesPrefix(candles: seq<Candle>, earlier: Instant, later: Instant)
    requires Ascending(candles) && earlier <= later
    ensures BreakEvents(candles, earlier) <= BreakEvents(candles, later)
  {
    BreaksByPosition(candles, earlier);
    BreaksByPosition(candles, later);
    ClosedBeforeMonotone(candles, earlier, later);
    EventListGrows(candles, ClosedBefore(candles, earlier), ClosedBefore(candles, later));
  }

  // ---------------------------------------------------------------- order of events

  predicate EventsAscend(events: seq<BreakEvent>)
  {
    forall i, j :: 0 <= i < j < |events| ==> events[i].at < events[j].at
  }

  /** Some candle below position `n` closes at that time. */
  ghost predicate ClosesBelow(candles: seq<Candle>, n: nat, at: Instant)
    requires n <= |candles|
  {
    exists k :: 0 <= k < n && at == candles[k].closeTime
  }

  lemma EventAtCloses(candles: seq<Candle>, i: nat)
    requires i < |candles|
    ensures |EventAt(candles, i)| <= 1
    ensures forall e :: e in EventAt(candles, i) ==> e.at == candles[i].closeTime
  {
  }

  lemma {:induction false} EventListAscends(candles: seq<Candle>, n: nat)
    requires Ascending(candles) && n <= |candles|
    ensures EventsAscend(EventList(candles, n))
    ensures forall e :: e in EventList(candles, n) ==> ClosesBelow(candles, n, e.at)
    decreases n
  {
    hide EventAt;
    if n > 0 {
      EventListAscends(candles, n - 1);
      EventAtCloses(candles, n - 1);
      var before := EventList(candles, n - 1);
      forall e | e in before ensures e.at < candles[n - 1].closeTime && ClosesBelow(candles, n, e.at) {
        var k :| 0 <= k < n - 1 && e.at == candles[k].closeTime;
      }
    }
  }

  lemma {:induction false} EventsExactly(candles: seq<Candle>, n: nat, e: BreakEvent)
    requires n <= |candles|
    ensures e in EventList(candles, n) <==> exists i :: 0 <= i < n && EventAt(candles, i) == [e]
    decreases n
  {
    if n > 0 {
      EventsExactly(candles, n - 1, e);
      assert e in EventAt(candles, n - 1) <==> EventAt(candles, n - 1) == [e];
    }
  }

  /** The direction in which candle `i` breaks; a break upwards goes first. */
  ghost predicate BreaksTowards(candles: seq<Candle>, i: nat, d: Direction)
    requires i < |candles|
  {
    if d == LONG then Breaks(candles, true, i) else !Breaks(candles, true, i) && Breaks(candles, false, i)
  }

  /** The break events of a series in time order, exactly: one for each candle that closed
      before the reference time beyond the last swing confirmed before it. */
  lemma BreakEventsMean(candles: seq<Candle>, referenceTime: Instant, e: BreakEvent)
    requires Ascending(candles)
    ensures e in BreakEvents(candles, referenceTime) <==>
              exists i :: && 0 <= i < |candles| && candles[i].closeTime == e.at < referenceTime
                          && BreaksTowards(candles, i, e.direction)
  {
    hide BreakEvents, EventList, EventAt, Breaks;
    var k := ClosedBefore(candles, referenceTime);
    ClosedAreFirst(candles, referenceTime);
    BreaksByPosition(candles, referenceTime);
    EventsExactly(candles, k, e);
    forall i | 0 <= i < |candles|
      ensures EventAt(candles, i) == [e] <==> candles[i].closeTime == e.at && BreaksTowards(candles, i, e.direction)
    {
      EventMeans(candles, i);
    }
  }

  /** Each break event has its own time, and the list is in time order. */
  lemma BreakEventsAscend(candles: seq<Candle>, referenceTime: Instant)
    requires Ascending(candles)
    ensures EventsAscend(BreakEvents(candles, referenceTime))
    ensures forall i :: 0 <= i < |BreakEvents(candles, referenceTime)| ==>
              BreakEvents(candles, referenceTime)[i].at < referenceTime
  {
    BreaksByPosition(candles, referenceTime);
    ClosedAreFirst(candles, referenceTime);
    EventListAscends(candles, ClosedBefore(candles, referenceTime));
  }
}
