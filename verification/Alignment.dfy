/** Explicit candle alignment: the selected candle in closed form. */
module Alignment {
  import opened Text
  import opened IsoTime
  import opened Arithmetic
  import opened MarketData
  import opened Reasons
  import opened Series

  datatype AlignmentPolicy = AlignmentPolicy(timeframe: TimeframeSpec, anchorTime: Instant)

  /** `AlignmentPolicy.contains`. */
  predicate Contains(p: AlignmentPolicy, c: Candle)
    requires p.timeframe.duration > 0
  {
    && c.timeframe == p.timeframe.code
    && c.openTime - p.anchorTime >= 0
    && (c.openTime - p.anchorTime) % p.timeframe.duration == 0
  }

  /** The time is `n` durations after the anchor. */
  predicate OpensAt(openTime: int, anchorTime: int, duration: int, n: nat)
  {
    openTime == anchorTime + n * duration
  }

  ghost predicate NeverOpensAt(openTime: int, anchorTime: int, duration: int)
  {
    forall n: nat :: !OpensAt(openTime, anchorTime, duration, n)
  }

  /** The anchor grid: a candle is on it when it has the policy's timeframe and opens a whole
      number of durations after the anchor. */
  lemma ContainsMeans(p: AlignmentPolicy, c: Candle)
    requires p.timeframe.duration > 0
    ensures Contains(p, c) <==>
              c.timeframe == p.timeframe.code
              && exists n: nat :: OpensAt(c.openTime, p.anchorTime, p.timeframe.duration, n)
  {
    var elapsed, d := c.openTime - p.anchorTime, p.timeframe.duration;
    if elapsed >= 0 && elapsed % d == 0 {
      assert elapsed / d >= 0 && elapsed == (elapsed / d) * d;
      assert OpensAt(c.openTime, p.anchorTime, d, elapsed / d);
    }
    forall n: nat | OpensAt(c.openTime, p.anchorTime, d, n) ensures elapsed >= 0 && elapsed % d == 0 {
      assert elapsed == d * n + 0;
      MulMonotone(0, n, d);
      DivisionIsUnique(elapsed, d, n, 0);
    }
  }

  predicate AllContained(p: AlignmentPolicy, candles: seq<Candle>)
    requires p.timeframe.duration > 0
  {
    forall i :: 0 <= i < |candles| ==> Contains(p, candles[i])
  }

  function AlignmentReasons(candles: seq<Candle>, p: AlignmentPolicy): seq<Reason>
    requires p.timeframe.duration > 0
  {
    if |candles| == 0 then [EMPTY_SERIES]
    else When(!AllContained(p, candles), CANDLE_BOUNDARY_MISMATCH)
  }

  /** `validate_alignment`; UTC holds by the type of the times. */
  method ValidateAlignment(candles: seq<Candle>, p: AlignmentPolicy) returns (reasons: seq<Reason>)
    requires p.timeframe.duration > 0
    ensures reasons == AlignmentReasons(candles, p)
    ensures reasons == [EMPTY_SERIES] <==> |candles| == 0
    ensures reasons == [CANDLE_BOUNDARY_MISMATCH] <==>
              exists i :: && 0 <= i < |candles|
                          && (candles[i].timeframe != p.timeframe.code
                              || NeverOpensAt(candles[i].openTime, p.anchorTime, p.timeframe.duration))
    ensures reasons == [] || reasons == [EMPTY_SERIES] || reasons == [CANDLE_BOUNDARY_MISMATCH]
  {
    if |candles| == 0 {
      return [EMPTY_SERIES];
    }
    var hasBoundaryMismatch := false;
    for i := 0 to |candles|
      invariant hasBoundaryMismatch <==> exists k :: 0 <= k < i && !Contains(p, candles[k])
    {
      if !Contains(p, candles[i]) {
        hasBoundaryMismatch := true;
      }
    }
    reasons := [];
    if hasBoundaryMismatch {
      reasons := reasons + [CANDLE_BOUNDARY_MISMATCH];
    }
    forall i | 0 <= i < |candles| { ContainsMeans(p, candles[i]); }
  }

  function LatestClose(candles: seq<Candle>): (t: Instant)
    requires |candles| > 0
    ensures exists i :: 0 <= i < |candles| && candles[i].closeTime == t
    ensures forall i :: 0 <= i < |candles| ==> candles[i].closeTime <= t
  {
    var n := |candles| - 1;
    if n == 0 then candles[0].closeTime
    else
      var t := LatestClose(candles[..n]);
      assert forall i :: 0 <= i < n ==> candles[i] == candles[..n][i];
      if candles[n].closeTime > t then candles[n].closeTime else t
  }

  function ClosingAt(candles: seq<Candle>, t: Instant): (r: seq<Candle>)
  {
    if |candles| == 0 then []
    else
      var n := |candles| - 1;
      var r := ClosingAt(candles[..n], t);
      if candles[n].closeTime == t then r + [candles[n]] else r
  }

  datatype AlignmentResult = Selected(candle: Candle) | Blocked(reasons: seq<Reason>)

  /** What follows the integrity check of `align_latest_closed_candle`. */
  function AlignValid(candles: seq<Candle>, p: AlignmentPolicy, referenceTime: Instant): AlignmentResult
    requires p.timeframe.duration > 0
  {
    var alignment := AlignmentReasons(candles, p);
    if alignment != [] then Blocked(alignment)
    else
      var eligible := SelectClosed(candles, referenceTime);
      if eligible == [] then Blocked([NO_CLOSED_CANDLE])
      else
        var latest := ClosingAt(eligible, LatestClose(eligible));
        if |latest| != 1 then Blocked([AMBIGUOUS_CANDLE_ALIGNMENT]) else Selected(latest[0])
  }

  /** `align_latest_closed_candle`. */
  function AlignLatest(candles: seq<Candle>, timeframe: string, referenceTime: Instant,
                       anchorTime: Instant): AlignmentResult
  {
    match ParseTimeframe(timeframe)
    case None => Blocked([INVALID_TIMEFRAME])
    case Some(spec) =>
      ParsedTimeframe(timeframe);
      var integrity := SeriesReasons(candles, timeframe);
      if integrity != [] then Blocked(integrity)
      else AlignValid(candles, AlignmentPolicy(spec, anchorTime), referenceTime)
  }

  // ---------------------------------------------------------------- closed form

  /** How many candles of a contiguous series closed strictly before the reference. */
  function ClosedCount(candles: seq<Candle>, duration: int, referenceTime: Instant): (k: int)
    requires |candles| > 0 && duration > 0
    ensures k <= |candles|
  {
    var k := (referenceTime - candles[0].openTime - 1) / duration;
    if k < |candles| then k else |candles|
  }

  lemma ClosedIffCounted(candles: seq<Candle>, timeframe: string, duration: int, referenceTime: Instant, i: nat)
    requires AllLast(candles, timeframe, duration) && Contiguous(candles) && duration > 0 && i < |candles|
    ensures candles[i].closeTime < referenceTime <==> i < ClosedCount(candles, duration, referenceTime)
  {
    OpensOnGrid(candles, timeframe, duration, i);
    MultiplesBelow(referenceTime - candles[0].openTime, duration, i + 1);
  }

  /** On a contiguous series the closed candles are its first `ClosedCount`. */
  lemma ClosedArePrefix(candles: seq<Candle>, timeframe: string, duration: int, referenceTime: Instant)
    requires AllLast(candles, timeframe, duration) && Contiguous(candles) && duration > 0 && |candles| > 0
    ensures var k := ClosedCount(candles, duration, referenceTime);
            SelectClosed(candles, referenceTime) == if k >= 0 then candles[..k] else []
  {
    var k := ClosedCount(candles, duration, referenceTime);
    forall i | 0 <= i < |candles| ensures candles[i].closeTime < referenceTime <==> i < k {
      ClosedIffCounted(candles, timeframe, duration, referenceTime, i);
    }
    SelectClosedPrefix(candles, referenceTime, if k >= 0 then k else 0);
  }

  /** In an ascending series the latest close is the last one, and only the last one. */
  lemma LatestIsLast(candles: seq<Candle>)
    requires |candles| > 0 && Ascending(candles)
    ensures ClosingAt(candles, LatestClose(candles)) == [candles[|candles| - 1]]
  {
    var n := |candles| - 1;
    var t := LatestClose(candles);
    assert t == candles[n].closeTime by {
      var i :| 0 <= i < |candles| && candles[i].closeTime == t;
      assert candles[n].closeTime <= t;
    }
    NoneClosingAt(candles[..n], t);
  }

  lemma {:induction false} NoneClosingAt(candles: seq<Candle>, t: Instant)
    requires forall i :: 0 <= i < |candles| ==> candles[i].closeTime != t
    ensures ClosingAt(candles, t) == []
    decreases |candles|
  {
    if |candles| > 0 {
      NoneClosingAt(candles[..|candles| - 1], t);
    }
  }

  /** All candles of a valid series are on the anchor grid exactly when the timeframe text
      has no surrounding blanks and the first candle is on it. */
  lemma GridFollowsFirst(candles: seq<Candle>, timeframe: string, anchorTime: Instant)
    requires Integral(candles, timeframe)
    ensures ParseTimeframe(timeframe).value.duration > 0
    ensures var p := AlignmentPolicy(ParseTimeframe(timeframe).value, anchorTime);
            && (AllContained(p, candles) <==> Contains(p, candles[0]))
            && (Contains(p, candles[0]) ==> Strip(timeframe) == timeframe)
  {
    ParsedTimeframe(timeframe);
    var spec := ParseTimeframe(timeframe).value;
    var p := AlignmentPolicy(spec, anchorTime);
    if Contains(p, candles[0]) {
      forall i | 0 <= i < |candles| ensures Contains(p, candles[i]) {
        OpensOnGrid(candles, timeframe, spec.duration, i);
        DivisibleShift(candles[0].openTime - anchorTime, spec.duration, i);
        MulMonotone(0, i, spec.duration);
      }
    }
  }

  /** The aligned candle of a contiguous series on the grid, in closed form: candle number
      min(n, (reference - open_0 - 1) div duration) - 1 when that count is positive, and no
      closed candle otherwise. */
  lemma AlignedCandle(candles: seq<Candle>, p: AlignmentPolicy, referenceTime: Instant)
    requires p.timeframe.duration > 0 && |candles| > 0 && AllContained(p, candles)
    requires AllLast(candles, p.timeframe.code, p.timeframe.duration) && Contiguous(candles) && Ascending(candles)
    ensures var count := ClosedCount(candles, p.timeframe.duration, referenceTime);
            AlignValid(candles, p, referenceTime)
            == if count >= 1 then Selected(candles[count - 1]) else Blocked([NO_CLOSED_CANDLE])
  {
    hide SelectClosed, ClosingAt, LatestClose, AllLast, Contiguous, Contains;
    ClosedArePrefix(candles, p.timeframe.code, p.timeframe.duration, referenceTime);
    var count := ClosedCount(candles, p.timeframe.duration, referenceTime);
    if count >= 1 {
      LatestIsLast(candles[..count]);
    }
  }

  /** The whole function, on every input: the series reasons when the series is invalid, a
      boundary mismatch when its first candle is off the grid, and the closed form
      otherwise. Ambiguity is unreachable. */
  lemma AlignmentOutcome(candles: seq<Candle>, timeframe: string, referenceTime: Instant, anchorTime: Instant)
    ensures var r := AlignLatest(candles, timeframe, referenceTime, anchorTime);
            if ParseTimeframe(timeframe).None? then r == Blocked([INVALID_TIMEFRAME])
            else if !Integral(candles, timeframe) then r == Blocked(SeriesReasons(candles, timeframe))
            else
              var p := AlignmentPolicy(ParseTimeframe(timeframe).value, anchorTime);
              && p.timeframe.duration > 0
              && r == if !Contains(p, candles[0]) then Blocked([CANDLE_BOUNDARY_MISMATCH])
                      else if ClosedCount(candles, p.timeframe.duration, referenceTime) >= 1
                      then Selected(candles[ClosedCount(candles, p.timeframe.duration, referenceTime) - 1])
                      else Blocked([NO_CLOSED_CANDLE])
  {
    hide SeriesReasons, Contains, ClosedCount, ParseTimeframe, SelectClosed, Contiguous, AllLast, Ascending;
    ValidIffIntegral(candles, timeframe);
    if Integral(candles, timeframe) {
      var p := AlignmentPolicy(ParseTimeframe(timeframe).value, anchorTime);
      ParsedTimeframe(timeframe);
      GridFollowsFirst(candles, timeframe, anchorTime);
      if Contains(p, candles[0]) {
        AlignedCandle(candles, p, referenceTime);
      }
    }
  }

  /** The answer in times, on an integral series: a boundary mismatch exactly when the text of
      the timeframe has blanks around it or the series does not open on the grid of the
      anchor; a selected candle always opens on that grid. */
  lemma AlignmentInTimes(candles: seq<Candle>, timeframe: string, referenceTime: Instant, anchorTime: Instant)
    requires Integral(candles, timeframe)
    ensures var d := ParseTimeframe(timeframe).value.duration;
            var r := AlignLatest(candles, timeframe, referenceTime, anchorTime);
            && (r == Blocked([CANDLE_BOUNDARY_MISMATCH]) <==>
                  Strip(timeframe) != timeframe || NeverOpensAt(candles[0].openTime, anchorTime, d))
            && (r.Selected? ==>
                  && r.candle in candles && r.candle.closeTime < referenceTime
                  && (exists n: nat :: OpensAt(r.candle.openTime, anchorTime, d, n))
                  && forall i :: 0 <= i < |candles| && candles[i].closeTime < referenceTime
                       ==> candles[i].closeTime <= r.candle.closeTime)
            && (r == Blocked([NO_CLOSED_CANDLE]) ==>
                  forall i :: 0 <= i < |candles| ==> candles[i].closeTime >= referenceTime)
            && (r.Selected? || r == Blocked([NO_CLOSED_CANDLE]) || r == Blocked([CANDLE_BOUNDARY_MISMATCH]))
  {
    hide Contains, ClosedCount, ParseTimeframe, Contiguous, AlignLatest;
    var spec := ParseTimeframe(timeframe).value;
    var p := AlignmentPolicy(spec, anchorTime);
    ParsedTimeframe(timeframe);
    AlignmentOutcome(candles, timeframe, referenceTime, anchorTime);
    ContainsMeans(p, candles[0]);
    GridFollowsFirst(candles, timeframe, anchorTime);
    forall i: nat | i < |candles|
      ensures candles[i].closeTime < referenceTime <==> i < ClosedCount(candles, spec.duration, referenceTime)
    {
      ClosedIffCounted(candles, timeframe, spec.duration, referenceTime, i);
    }
    IntegralImpliesOrder(candles, timeframe);
    var count := ClosedCount(candles, spec.duration, referenceTime);
    if Contains(p, candles[0]) && count >= 1 {
      ContainsMeans(p, candles[count - 1]);
    }
  }
}
