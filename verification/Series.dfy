/** Time-series integrity: the loop validators of `data/series.py` beside the one condition
    they decide. */
module Series {
  import opened Wrappers
  import opened Text
  import opened Arithmetic
  import opened MarketData
  import opened Reasons
  import opened StableSort

  // ---------------------------------------------------------------- timeframes

  datatype TimeframeSpec = TimeframeSpec(code: string, duration: int)

  /** Microseconds of one unit. */
  function UnitDuration(unit: char): (d: int)
    requires unit in {'m', 'h', 'd', 'w'}
    ensures d > 0
  {
    if unit == 'm' then 60_000_000
    else if unit == 'h' then 3_600_000_000
    else if unit == 'd' then 86_400_000_000
    else 604_800_000_000
  }

  /** `[1-9][0-9]*[mhdw]`, the whole text. */
  predicate MatchesTimeframe(s: string)
  {
    && |s| >= 2 && s[|s| - 1] in {'m', 'h', 'd', 'w'}
    && AllDigits(s[..|s| - 1]) && s[0] != '0'
  }

  /** `TimeframeSpec.parse`; None is its ValueError. */
  function ParseTimeframe(code: string): Option<TimeframeSpec>
  {
    var s := Strip(code);
    if !MatchesTimeframe(s) then None
    else
      var value, unit := ParseDecimal(s[..|s| - 1]), s[|s| - 1];
      Some(TimeframeSpec(Decimal(value) + [unit], UnitDuration(unit) * value))
  }

  /** A parsed timeframe spells the stripped text again and lasts a positive time. */
  lemma ParsedTimeframe(code: string)
    requires ParseTimeframe(code).Some?
    ensures ParseTimeframe(code).value.code == Strip(code)
    ensures ParseTimeframe(code).value.duration > 0
  {
    var s := Strip(code);
    assert s[..|s| - 1][0] == s[0];
    DecimalOfParse(s[..|s| - 1]);
    assert s == s[..|s| - 1] + [s[|s| - 1]];
    var value, d := ParseDecimal(s[..|s| - 1]), UnitDuration(s[|s| - 1]);
    assert d * value >= 1;
  }

  /** The text is a positive count of minutes, hours, days or weeks, and the spec spells it
      and lasts as long. */
  predicate Spells(text: string, spec: TimeframeSpec, n: nat, unit: char)
  {
    && n >= 1 && text == Decimal(n) + [unit] && spec.code == text
    && match unit
       case 'm' => spec.duration == n * 60 * 1_000_000
       case 'h' => spec.duration == n * 60 * 60 * 1_000_000
       case 'd' => spec.duration == n * 24 * 60 * 60 * 1_000_000
       case 'w' => spec.duration == n * 7 * 24 * 60 * 60 * 1_000_000
       case _ => false
  }

  lemma ParsedSpells(code: string)
    requires ParseTimeframe(code).Some?
    ensures exists n: nat, unit :: Spells(Strip(code), ParseTimeframe(code).value, n, unit)
  {
    ParsedTimeframe(code);
    var s := Strip(code);
    hide Strip;
    assert s[..|s| - 1][0] == s[0];
    DecimalOfParse(s[..|s| - 1]);
    hide Decimal, ParseDecimal;
    assert Spells(s, ParseTimeframe(code).value, ParseDecimal(s[..|s| - 1]), s[|s| - 1]);
  }

  lemma SpelledParses(code: string, spec: TimeframeSpec, n: nat, unit: char)
    requires Spells(Strip(code), spec, n, unit)
    ensures ParseTimeframe(code) == Some(spec)
  {
    var s := Strip(code);
    ParseOfDecimal(n);
    hide Strip, Decimal, ParseDecimal;
    assert s[..|s| - 1] == Decimal(n) && s[|s| - 1] == unit && s[0] == Decimal(n)[0];
  }

  /** A timeframe parses exactly when its stripped text is such a count, and then to its length. */
  lemma TimeframeIff(code: string, spec: TimeframeSpec)
    ensures ParseTimeframe(code) == Some(spec) <==> exists n: nat, unit :: Spells(Strip(code), spec, n, unit)
  {
    hide ParseTimeframe, Spells, Strip;
    if ParseTimeframe(code) == Some(spec) { ParsedSpells(code); }
    forall n: nat, unit | Spells(Strip(code), spec, n, unit) ensures ParseTimeframe(code) == Some(spec) {
      SpelledParses(code, spec, n, unit);
    }
  }

  // ---------------------------------------------------------------- sorting

  predicate OpensAscend(candles: seq<Candle>)
  {
    forall i :: 0 <= i < |candles| - 1 ==> candles[i].openTime <= candles[i + 1].openTime
  }

  function OpenTimeOf(c: Candle): int
  {
    c.openTime
  }

  /** `sorted(candles, key=open_time)`. */
  function SortByOpen(candles: seq<Candle>): (r: seq<Candle>)
    ensures |r| == |candles|
  {
    SortBy(OpenTimeOf, candles)
  }

  /** The order check `candles == sorted(candles)` decides whether open times ascend. */
  lemma OrderCheck(candles: seq<Candle>)
    ensures SortByOpen(candles) == candles <==> OpensAscend(candles)
  {
    SortOrders(OpenTimeOf, candles);
    assert AscendsBy(OpenTimeOf, candles) <==> OpensAscend(candles);
    if OpensAscend(candles) { SortedIsFixed(OpenTimeOf, candles); }
  }

  // ---------------------------------------------------------------- the validator

  predicate HasMismatch(candles: seq<Candle>, timeframe: string)
  {
    exists i :: 0 <= i < |candles| && candles[i].timeframe != timeframe
  }

  predicate SameKey(a: Candle, b: Candle)
  {
    a.symbol == b.symbol && a.timeframe == b.timeframe && a.openTime == b.openTime
  }

  predicate HasDuplicate(candles: seq<Candle>)
  {
    exists i, j :: 0 <= i < j < |candles| && SameKey(candles[i], candles[j])
  }

  predicate WrongDuration(c: Candle, timeframe: string, duration: int)
  {
    c.timeframe == timeframe && c.closeTime - c.openTime != duration
  }

  predicate HasWrongDuration(candles: seq<Candle>, timeframe: string, duration: int)
  {
    exists i :: 0 <= i < |candles| && WrongDuration(candles[i], timeframe, duration)
  }

  predicate Adjacent(a: Candle, b: Candle)
  {
    b.openTime == a.closeTime
  }

  /** The reason at the first neighbours, from `i` on, that do not touch exactly. */
  function AdjacencyReasons(ordered: seq<Candle>, i: nat): seq<Reason>
    decreases |ordered| - i
  {
    if i + 1 >= |ordered| then []
    else if ordered[i + 1].openTime < ordered[i].closeTime then [OVERLAPPING_CANDLES]
    else if !Adjacent(ordered[i], ordered[i + 1]) then [CANDLE_GAP]
    else AdjacencyReasons(ordered, i + 1)
  }

  function SeriesReasons(candles: seq<Candle>, timeframe: string): seq<Reason>
  {
    if |candles| == 0 then [EMPTY_SERIES]
    else if ParseTimeframe(timeframe).None? then [INVALID_TIMEFRAME]
    else
      When(HasMismatch(candles, timeframe), TIMEFRAME_MISMATCH)
      + When(SortByOpen(candles) != candles, NON_DETERMINISTIC_ORDER)
      + When(HasDuplicate(candles), DUPLICATE_CANDLE)
      + When(HasWrongDuration(candles, timeframe, ParseTimeframe(timeframe).value.duration), INVALID_CANDLE_DURATION)
      + AdjacencyReasons(SortByOpen(candles), 0)
  }

  /** `validate_candle_series`: an empty list of reasons is a valid report. */
  method ValidateCandleSeries(candles: seq<Candle>, timeframe: string) returns (reasons: seq<Reason>)
    ensures reasons == SeriesReasons(candles, timeframe)
  {
    if |candles| == 0 {
      return [EMPTY_SERIES];
    }
    var spec := ParseTimeframe(timeframe);
    if spec.None? {
      return [INVALID_TIMEFRAME];
    }
    reasons := When(HasMismatch(candles, timeframe), TIMEFRAME_MISMATCH);
    reasons := reasons + When(SortByOpen(candles) != candles, NON_DETERMINISTIC_ORDER);
    reasons := reasons + When(HasDuplicate(candles), DUPLICATE_CANDLE);
    var wrong := FindWrongDuration(candles, timeframe, spec.value.duration);
    reasons := reasons + When(wrong, INVALID_CANDLE_DURATION);
    var adjacency := FindBreak(SortByOpen(candles));
    reasons := reasons + adjacency;
  }

  /** The duration loop; it stops at the first wrong candle. */
  method FindWrongDuration(candles: seq<Candle>, timeframe: string, duration: int) returns (wrong: bool)
    ensures wrong <==> HasWrongDuration(candles, timeframe, duration)
  {
    var i := 0;
    while i < |candles|
      invariant 0 <= i <= |candles|
      invariant forall k :: 0 <= k < i ==> !WrongDuration(candles[k], timeframe, duration)
    {
      if WrongDuration(candles[i], timeframe, duration) {
        return true;
      }
      i := i + 1;
    }
    wrong := false;
  }

  /** The neighbour loop; it stops at the first overlap or gap. */
  method FindBreak(ordered: seq<Candle>) returns (reasons: seq<Reason>)
    ensures reasons == AdjacencyReasons(ordered, 0)
  {
    var i := 0;
    while i + 1 < |ordered|
      invariant 0 <= i && AdjacencyReasons(ordered, 0) == AdjacencyReasons(ordered, i)
    {
      if ordered[i + 1].openTime < ordered[i].closeTime {
        return [OVERLAPPING_CANDLES];
      }
      if ordered[i + 1].openTime != ordered[i].closeTime {
        return [CANDLE_GAP];
      }
      i := i + 1;
    }
    reasons := [];
  }

  // ---------------------------------------------------------------- its meaning

  predicate Contiguous(candles: seq<Candle>)
  {
    forall i :: 0 <= i < |candles| - 1 ==> Adjacent(candles[i], candles[i + 1])
  }

  predicate AllLast(candles: seq<Candle>, timeframe: string, duration: int)
  {
    forall i :: 0 <= i < |candles| ==>
      candles[i].timeframe == timeframe && candles[i].closeTime - candles[i].openTime == duration
  }

  /** A valid series, declaratively: not empty, a timeframe that parses, every candle of that
      timeframe and exact duration, each opening when the one before it closes. */
  predicate Integral(candles: seq<Candle>, timeframe: string)
  {
    && |candles| > 0 && ParseTimeframe(timeframe).Some?
    && AllLast(candles, timeframe, ParseTimeframe(timeframe).value.duration)
    && Contiguous(candles)
  }

  lemma {:induction false} NoAdjacencyReason(ordered: seq<Candle>, i: nat)
    ensures AdjacencyReasons(ordered, i) == [] <==>
              forall k :: i <= k < |ordered| - 1 ==> Adjacent(ordered[k], ordered[k + 1])
    decreases |ordered| - i
  {
    if i + 1 < |ordered| {
      NoAdjacencyReason(ordered, i + 1);
    }
  }

  /** On a contiguous series of one duration, candle `i` opens on the grid of the first. */
  lemma {:induction false} OpensOnGrid(candles: seq<Candle>, timeframe: string, duration: int, i: nat)
    requires AllLast(candles, timeframe, duration) && Contiguous(candles) && i < |candles|
    ensures candles[i].openTime == candles[0].openTime + i * duration
    ensures candles[i].closeTime == candles[0].openTime + (i + 1) * duration
    decreases i
  {
    if i > 0 {
      OpensOnGrid(candles, timeframe, duration, i - 1);
      assert Adjacent(candles[i - 1], candles[i]);
    }
    MulStep(i, duration);
    if i > 0 { MulStep(i - 1, duration); }
  }

  lemma GridAscends(candles: seq<Candle>, timeframe: string, duration: int, i: nat, j: nat)
    requires AllLast(candles, timeframe, duration) && Contiguous(candles) && duration > 0 && i < j < |candles|
    ensures candles[i].openTime < candles[i].closeTime <= candles[j].openTime < candles[j].closeTime
  {
    OpensOnGrid(candles, timeframe, duration, i);
    OpensOnGrid(candles, timeframe, duration, j);
    MulMonotone(i + 1, j, duration);
  }

  lemma IntegralImpliesOrder(candles: seq<Candle>, timeframe: string)
    requires Integral(candles, timeframe)
    ensures OpensAscend(candles) && !HasDuplicate(candles) && Ascending(candles)
  {
    ParsedTimeframe(timeframe);
    var d := ParseTimeframe(timeframe).value.duration;
    forall i, j | 0 <= i < j < |candles|
      ensures candles[i].openTime < candles[j].openTime && candles[i].closeTime < candles[j].closeTime
    {
      GridAscends(candles, timeframe, d, i, j);
    }
  }

  /** The report is valid exactly on integral series; the order and duplicate checks are
      then implied by the others. */
  lemma ValidIffIntegral(candles: seq<Candle>, timeframe: string)
    ensures SeriesReasons(candles, timeframe) == [] <==> Integral(candles, timeframe)
    ensures Integral(candles, timeframe) ==> OpensAscend(candles) && !HasDuplicate(candles) && Ascending(candles)
  {
    if |candles| > 0 && ParseTimeframe(timeframe).Some? {
      OrderCheck(candles);
      NoAdjacencyReason(SortByOpen(candles), 0);
      if Integral(candles, timeframe) { IntegralImpliesOrder(candles, timeframe); }
      if SeriesReasons(candles, timeframe) == [] { NoReasonsMeans(candles, timeframe); }
    }
  }

  lemma NoReasonsMeans(candles: seq<Candle>, timeframe: string)
    requires |candles| > 0 && ParseTimeframe(timeframe).Some? && SeriesReasons(candles, timeframe) == []
    ensures !HasMismatch(candles, timeframe) && SortByOpen(candles) == candles && !HasDuplicate(candles)
    ensures !HasWrongDuration(candles, timeframe, ParseTimeframe(timeframe).value.duration)
    ensures AdjacencyReasons(SortByOpen(candles), 0) == []
  {
  }

  /** Neighbours number `k` are the first, from `i` on, that do not touch. */
  ghost predicate FirstBreak(ordered: seq<Candle>, i: nat, k: nat)
  {
    && i <= k < |ordered| - 1 && !Adjacent(ordered[k], ordered[k + 1])
    && forall j :: i <= j < k ==> Adjacent(ordered[j], ordered[j + 1])
  }

  lemma {:induction false} AdjacencyMeans(ordered: seq<Candle>, i: nat, k: nat)
    requires FirstBreak(ordered, i, k)
    ensures AdjacencyReasons(ordered, i)
            == [if ordered[k + 1].openTime < ordered[k].closeTime then OVERLAPPING_CANDLES else CANDLE_GAP]
    decreases k - i
  {
    if i < k { AdjacencyMeans(ordered, i + 1, k); }
  }

  lemma {:induction false} AtMostOneBreak(ordered: seq<Candle>, i: nat)
    ensures var r := AdjacencyReasons(ordered, i);
            r == [] || r == [OVERLAPPING_CANDLES] || r == [CANDLE_GAP]
    decreases |ordered| - i
  {
    if i + 1 < |ordered| { AtMostOneBreak(ordered, i + 1); }
  }

  lemma ReasonsByPart(candles: seq<Candle>, timeframe: string)
    requires |candles| > 0 && ParseTimeframe(timeframe).Some?
    ensures forall r :: r in SeriesReasons(candles, timeframe) <==>
              || (r == TIMEFRAME_MISMATCH && HasMismatch(candles, timeframe))
              || (r == NON_DETERMINISTIC_ORDER && SortByOpen(candles) != candles)
              || (r == DUPLICATE_CANDLE && HasDuplicate(candles))
              || (r == INVALID_CANDLE_DURATION
                && HasWrongDuration(candles, timeframe, ParseTimeframe(timeframe).value.duration))
              || r in AdjacencyReasons(SortByOpen(candles), 0)
  {
    hide SortByOpen, HasMismatch, HasDuplicate, HasWrongDuration, AdjacencyReasons, ParseTimeframe;
  }

  /** When each reason of a report is given, for a series that is not empty and a timeframe
      that parses; only the first pair of neighbours that do not touch is reported. */
  lemma ReasonsMean(candles: seq<Candle>, timeframe: string, k: nat)
    requires |candles| > 0 && ParseTimeframe(timeframe).Some?
    ensures var reasons := SeriesReasons(candles, timeframe);
            var ordered := SortByOpen(candles);
            && (TIMEFRAME_MISMATCH in reasons <==> HasMismatch(candles, timeframe))
            && (NON_DETERMINISTIC_ORDER in reasons <==> !OpensAscend(candles))
            && (DUPLICATE_CANDLE in reasons <==> HasDuplicate(candles))
            && (INVALID_CANDLE_DURATION in reasons
                <==> HasWrongDuration(candles, timeframe, ParseTimeframe(timeframe).value.duration))
            && (FirstBreak(ordered, 0, k) ==>
                  && (OVERLAPPING_CANDLES in reasons <==> ordered[k + 1].openTime < ordered[k].closeTime)
                  && (CANDLE_GAP in reasons <==> ordered[k + 1].openTime > ordered[k].closeTime))
            && (Contiguous(ordered) ==> OVERLAPPING_CANDLES !in reasons && CANDLE_GAP !in reasons)
  {
    hide SeriesReasons, SortByOpen, HasMismatch, HasDuplicate, HasWrongDuration, OpensAscend, AdjacencyReasons,
      ParseTimeframe;
    var ordered := SortByOpen(candles);
    ReasonsByPart(candles, timeframe);
    OrderCheck(candles);
    AtMostOneBreak(ordered, 0);
    NoAdjacencyReason(ordered, 0);
    if FirstBreak(ordered, 0, k) { AdjacencyMeans(ordered, 0, k); }
  }

  // ---------------------------------------------------------------- snapshots

  function SymbolsOf(candles: seq<Candle>, timeframe: string): set<string>
  {
    set i | 0 <= i < |candles| && candles[i].timeframe == timeframe :: candles[i].symbol
  }

  /** `dict.fromkeys(...)`: the first occurrence of each reason. */
  function Distinct(reasons: seq<Reason>): (r: seq<Reason>)
    ensures forall s :: s in r <==> s in reasons
    ensures r == [] <==> reasons == []
    ensures reasons != [] ==> r[0] == reasons[0]
  {
    if |reasons| == 0 then []
    else
      var n := |reasons| - 1;
      var r := Distinct(reasons[..n]);
      assert reasons == reasons[..n] + [reasons[n]];
      if reasons[n] in r then r else r + [reasons[n]]
  }

  function ReasonsOfSymbols(candles: seq<Candle>, symbols: seq<string>, timeframe: string): seq<Reason>
  {
    if |symbols| == 0 then []
    else SeriesReasons(CandlesFor(candles, symbols[0], timeframe), timeframe)
         + ReasonsOfSymbols(candles, symbols[1..], timeframe)
  }

  /** `validate_snapshot_series`. */
  function SnapshotReasons(candles: seq<Candle>, timeframe: string): seq<Reason>
  {
    if ParseTimeframe(timeframe).None? then [INVALID_TIMEFRAME]
    else if SymbolsOf(candles, timeframe) == {} then [EMPTY_SERIES]
    else Distinct(ReasonsOfSymbols(candles, SortedStrings(SymbolsOf(candles, timeframe)), timeframe))
  }

  lemma {:induction false} NoReasonOfSymbols(candles: seq<Candle>, symbols: seq<string>, timeframe: string)
    ensures ReasonsOfSymbols(candles, symbols, timeframe) == []
            <==> forall s :: s in symbols ==> Integral(CandlesFor(candles, s, timeframe), timeframe)
    decreases |symbols|
  {
    if |symbols| > 0 {
      ValidIffIntegral(CandlesFor(candles, symbols[0], timeframe), timeframe);
      NoReasonOfSymbols(candles, symbols[1..], timeframe);
      assert ReasonsOfSymbols(candles, symbols, timeframe) == [] <==>
        SeriesReasons(CandlesFor(candles, symbols[0], timeframe), timeframe) == []
        && ReasonsOfSymbols(candles, symbols[1..], timeframe) == [];
      assert forall s :: s in symbols <==> s == symbols[0] || s in symbols[1..];
    }
  }

  /** A snapshot's timeframe is valid exactly when it parses, some candle has it, and the
      series of every symbol in it is integral on its own. */
  lemma SnapshotValidIff(candles: seq<Candle>, timeframe: string)
    ensures SnapshotReasons(candles, timeframe) == [] <==>
              && ParseTimeframe(timeframe).Some?
              && SymbolsOf(candles, timeframe) != {}
              && forall s :: s in SymbolsOf(candles, timeframe)
                   ==> Integral(CandlesFor(candles, s, timeframe), timeframe)
  {
    var symbols := SortedStrings(SymbolsOf(candles, timeframe));
    NoReasonOfSymbols(candles, symbols, timeframe);
  }

  // ---------------------------------------------------------------- reports in candle fields

  /** A valid report, in the fields of the candles. */
  lemma ValidInFields(candles: seq<Candle>, timeframe: string)
    ensures SeriesReasons(candles, timeframe) == [] <==>
              && |candles| > 0 && ParseTimeframe(timeframe).Some?
              && forall i :: 0 <= i < |candles| ==>
                   && candles[i].timeframe == timeframe
                   && candles[i].closeTime == candles[i].openTime + ParseTimeframe(timeframe).value.duration
                   && (i + 1 < |candles| ==> candles[i + 1].openTime == candles[i].closeTime)
  {
    hide SeriesReasons, ParseTimeframe;
    ValidIffIntegral(candles, timeframe);
    if Integral(candles, timeframe) {
      forall i | 0 <= i < |candles| && i + 1 < |candles| ensures candles[i + 1].openTime == candles[i].closeTime {
        assert Adjacent(candles[i], candles[i + 1]);
      }
    }
  }

  /** Two candles of one symbol, timeframe and open time. */
  lemma DuplicateInFields(candles: seq<Candle>)
    ensures HasDuplicate(candles) <==>
              exists i, j :: && 0 <= i < j < |candles| && candles[i].symbol == candles[j].symbol
                             && candles[i].timeframe == candles[j].timeframe
                             && candles[i].openTime == candles[j].openTime
  {
  }

  lemma OneReasonReports(candles: seq<Candle>, timeframe: string)
    ensures SeriesReasons(candles, timeframe) == [EMPTY_SERIES] <==> |candles| == 0
    ensures SeriesReasons(candles, timeframe) == [INVALID_TIMEFRAME] <==>
              |candles| > 0 && ParseTimeframe(timeframe).None?
  {
    if |candles| > 0 && ParseTimeframe(timeframe).Some? {
      ReasonsByPart(candles, timeframe);
      AtMostOneBreak(SortByOpen(candles), 0);
      hide SeriesReasons, SortByOpen, HasMismatch, HasDuplicate, HasWrongDuration, AdjacencyReasons, ParseTimeframe;
      assert EMPTY_SERIES !in SeriesReasons(candles, timeframe);
      assert INVALID_TIMEFRAME !in SeriesReasons(candles, timeframe);
    }
  }

  /** Each reason of a report on candles of a timeframe that parses, in the fields of the candles. */
  lemma ReasonsInFields(candles: seq<Candle>, timeframe: string)
    requires |candles| > 0 && ParseTimeframe(timeframe).Some?
    ensures var reasons := SeriesReasons(candles, timeframe);
            var duration := ParseTimeframe(timeframe).value.duration;
            && (TIMEFRAME_MISMATCH in reasons <==>
                  exists i :: 0 <= i < |candles| && candles[i].timeframe != timeframe)
            && (NON_DETERMINISTIC_ORDER in reasons <==>
                  exists i, j :: 0 <= i < j < |candles| && candles[i].openTime > candles[j].openTime)
            && (DUPLICATE_CANDLE in reasons <==>
                  exists i, j :: && 0 <= i < j < |candles| && candles[i].symbol == candles[j].symbol
                                 && candles[i].timeframe == candles[j].timeframe
                                 && candles[i].openTime == candles[j].openTime)
            && (INVALID_CANDLE_DURATION in reasons <==>
                  exists i :: && 0 <= i < |candles| && candles[i].timeframe == timeframe
                              && candles[i].closeTime - candles[i].openTime != duration)
  {
    hide SeriesReasons, ParseTimeframe, OpensAscend, HasDuplicate, SortByOpen, FirstBreak, Contiguous;
    ReasonsMean(candles, timeframe, 0);
    OpensOutOfOrder(candles);
    DuplicateInFields(candles);
  }

  lemma OpensOutOfOrder(candles: seq<Candle>)
    ensures !OpensAscend(candles) <==>
              exists i, j :: 0 <= i < j < |candles| && candles[i].openTime > candles[j].openTime
  {
    if OpensAscend(candles) {
      forall i: nat, j: nat | i < j < |candles| ensures candles[i].openTime <= candles[j].openTime {
        OpensInOrder(candles, i, j);
      }
    } else {
      var i :| 0 <= i < |candles| - 1 && candles[i].openTime > candles[i + 1].openTime;
    }
  }

  lemma {:induction false} OpensInOrder(candles: seq<Candle>, i: nat, j: nat)
    requires OpensAscend(candles) && i <= j < |candles|
    ensures candles[i].openTime <= candles[j].openTime
    decreases j - i
  {
    if i < j { OpensInOrder(candles, i, j - 1); }
  }

  /** Reports list their reasons in the order of the checks. */
  function CheckNumber(r: Reason): nat
  {
    match r
    case TIMEFRAME_MISMATCH => 1
    case NON_DETERMINISTIC_ORDER => 2
    case DUPLICATE_CANDLE => 3
    case INVALID_CANDLE_DURATION => 4
    case OVERLAPPING_CANDLES => 5
    case CANDLE_GAP => 5
    case _ => 0
  }

  lemma ReasonsInOrder(candles: seq<Candle>, timeframe: string)
    ensures var reasons := SeriesReasons(candles, timeframe);
            forall i, j :: 0 <= i < j < |reasons| ==> CheckNumber(reasons[i]) < CheckNumber(reasons[j])
  {
    if |candles| > 0 && ParseTimeframe(timeframe).Some? {
      AtMostOneBreak(SortByOpen(candles), 0);
      hide ParseTimeframe, SortByOpen, HasMismatch, HasDuplicate, HasWrongDuration, AdjacencyReasons, When, CheckNumber;
      ReportInOrder(HasMismatch(candles, timeframe), SortByOpen(candles) != candles, HasDuplicate(candles),
                    HasWrongDuration(candles, timeframe, ParseTimeframe(timeframe).value.duration),
                    AdjacencyReasons(SortByOpen(candles), 0));
    }
  }

  lemma ReportInOrder(mismatch: bool, order: bool, duplicate: bool, duration: bool, neighbours: seq<Reason>)
    requires neighbours == [] || neighbours == [OVERLAPPING_CANDLES] || neighbours == [CANDLE_GAP]
    ensures var reasons := When(mismatch, TIMEFRAME_MISMATCH) + When(order, NON_DETERMINISTIC_ORDER)
                             + When(duplicate, DUPLICATE_CANDLE) + When(duration, INVALID_CANDLE_DURATION) + neighbours;
            forall i, j :: 0 <= i < j < |reasons| ==> CheckNumber(reasons[i]) < CheckNumber(reasons[j])
  {
  }

  predicate ReportsReason(candles: seq<Candle>, symbol: string, timeframe: string, r: Reason)
  {
    r in SeriesReasons(CandlesFor(candles, symbol, timeframe), timeframe)
  }

  lemma {:induction false} ReasonOfSymbols(candles: seq<Candle>, symbols: seq<string>, timeframe: string, r: Reason)
    ensures r in ReasonsOfSymbols(candles, symbols, timeframe) <==>
              exists s :: s in symbols && ReportsReason(candles, s, timeframe, r)
    decreases |symbols|
  {
    if |symbols| > 0 {
      hide SeriesReasons, CandlesFor;
      ReasonOfSymbols(candles, symbols[1..], timeframe, r);
      assert r in ReasonsOfSymbols(candles, symbols, timeframe) <==>
        ReportsReason(candles, symbols[0], timeframe, r) || r in ReasonsOfSymbols(candles, symbols[1..], timeframe);
      hide ReportsReason, ReasonsOfSymbols;
      assert forall s :: s in symbols <==> s == symbols[0] || s in symbols[1..];
    }
  }

  /** A snapshot report gathers the reasons of the symbols that have the timeframe. */
  lemma SnapshotReasonsMean(candles: seq<Candle>, timeframe: string, r: Reason)
    requires ParseTimeframe(timeframe).Some?
    requires exists i :: 0 <= i < |candles| && candles[i].timeframe == timeframe
    ensures r in SnapshotReasons(candles, timeframe) <==>
              exists i :: && 0 <= i < |candles| && candles[i].timeframe == timeframe
                          && ReportsReason(candles, candles[i].symbol, timeframe, r)
  {
    hide ReportsReason, ParseTimeframe, ReasonsOfSymbols;
    var i :| 0 <= i < |candles| && candles[i].timeframe == timeframe;
    assert candles[i].symbol in SymbolsOf(candles, timeframe);
    ReasonOfSymbols(candles, SortedStrings(SymbolsOf(candles, timeframe)), timeframe, r);
  }

  predicate RepeatsNone(reasons: seq<Reason>)
  {
    forall i, j :: 0 <= i < j < |reasons| ==> reasons[i] != reasons[j]
  }

  lemma {:induction false} DistinctRepeatsNone(reasons: seq<Reason>)
    ensures RepeatsNone(Distinct(reasons))
    decreases |reasons|
  {
    if |reasons| > 0 {
      var n := |reasons| - 1;
      DistinctRepeatsNone(reasons[..n]);
      var r := Distinct(reasons[..n]);
      assert Distinct(reasons) == if reasons[n] in r then r else r + [reasons[n]];
    }
  }

  /** The first symbol, in text order, whose series is not valid gives the first reason. */
  lemma {:induction false} FirstSymbolReports(candles: seq<Candle>, symbols: seq<string>, timeframe: string)
    requires ReasonsOfSymbols(candles, symbols, timeframe) != []
    ensures exists k :: && 0 <= k < |symbols| && FirstOf(candles, symbols[k], timeframe).Some?
                        && FirstOf(candles, symbols[k], timeframe).value
                           == ReasonsOfSymbols(candles, symbols, timeframe)[0]
                        && forall j :: 0 <= j < k ==> FirstOf(candles, symbols[j], timeframe).None?
    decreases |symbols|
  {
    hide SeriesReasons, CandlesFor;
    if FirstOf(candles, symbols[0], timeframe).None? {
      FirstSymbolReports(candles, symbols[1..], timeframe);
      var k :| && 0 <= k < |symbols[1..]| && FirstOf(candles, symbols[1..][k], timeframe).Some?
               && FirstOf(candles, symbols[1..][k], timeframe).value
                  == ReasonsOfSymbols(candles, symbols[1..], timeframe)[0]
               && forall j :: 0 <= j < k ==> FirstOf(candles, symbols[1..][j], timeframe).None?;
      forall j | 0 <= j < k + 1 ensures FirstOf(candles, symbols[j], timeframe).None? {
        if j > 0 { assert symbols[1..][j - 1] == symbols[j]; }
      }
      assert symbols[1..][k] == symbols[k + 1];
    }
  }

  function FirstOf(candles: seq<Candle>, symbol: string, timeframe: string): Option<Reason>
  {
    var reasons := SeriesReasons(CandlesFor(candles, symbol, timeframe), timeframe);
    if reasons == [] then None else Some(reasons[0])
  }

  /** A snapshot report repeats no reason, and starts with the first reason of the first symbol
      in text order whose series is not valid. */
  lemma SnapshotReportStarts(candles: seq<Candle>, timeframe: string)
    requires ParseTimeframe(timeframe).Some?
    requires exists i :: 0 <= i < |candles| && candles[i].timeframe == timeframe
    ensures var r := SnapshotReasons(candles, timeframe);
            && RepeatsNone(r)
            && (r != [] ==>
                  exists s :: && FirstOf(candles, s, timeframe) == Some(r[0])
                              && forall u :: u in SymbolsOf(candles, timeframe) && Less(u, s) ==>
                                   FirstOf(candles, u, timeframe).None?)
  {
    hide SeriesReasons, CandlesFor, ParseTimeframe, ReasonsOfSymbols, FirstOf, RepeatsNone;
    var i :| 0 <= i < |candles| && candles[i].timeframe == timeframe;
    assert candles[i].symbol in SymbolsOf(candles, timeframe);
    var symbols := SortedStrings(SymbolsOf(candles, timeframe));
    var all := ReasonsOfSymbols(candles, symbols, timeframe);
    DistinctRepeatsNone(all);
    if all != [] {
      FirstSymbolReports(candles, symbols, timeframe);
      var k :| && 0 <= k < |symbols| && FirstOf(candles, symbols[k], timeframe) == Some(all[0])
               && forall j :: 0 <= j < k ==> FirstOf(candles, symbols[j], timeframe).None?;
      forall u | u in SymbolsOf(candles, timeframe) && Less(u, symbols[k])
        ensures FirstOf(candles, u, timeframe).None?
      {
        var j :| 0 <= j < |symbols| && symbols[j] == u;
        LessTrichotomy(u, symbols[k]);
        assert j < k;
      }
    }
  }
}
