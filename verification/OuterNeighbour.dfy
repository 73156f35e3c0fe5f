/** A swing needs all four neighbours: two series that differ in the high of one outer neighbour,
    with different trends. */
module OuterNeighbour {
  import opened Wrappers
  import opened Domain
  import opened MarketData
  import opened Strategy
  import opened StrategySymmetry
  import opened SwingPrices
  import opened GapMarket

  /** The rising series with the high of candle 8 raised to that of candle 6. */
  function RaisedSeries(): seq<Candle>
  {
    var s := RisingSeries();
    s[8 := s[8].(high := s[6].high)]
  }

  lemma RaisedHighs(j: int)
    ensures HighSwing(RaisedSeries(), j) <==> j == 2
  {
    var t := RaisedSeries();
    assert t[0].high == 11.0 && t[1].high == 12.0 && t[2].high == 21.0 && t[3].high == 13.0 && t[4].high == 12.0
      && t[5].high == 14.0 && t[6].high == 31.0 && t[7].high == 23.0 && t[8].high == 31.0 && t[9].high == 24.0;
    if HighSwing(t, j) {
      assert t[j].high > t[j - 1].high && t[j].high > t[j + 1].high && t[j].high > t[j + 2].high;
    }
  }

  lemma RaisedIsValid()
    ensures Ascending(RaisedSeries()) && |RaisedSeries()| == 11
    ensures forall i :: 0 <= i < 11 ==> ValidCandle(RaisedSeries()[i]) && RaisedSeries()[i].closeTime < NOW
  {
    SeriesValid();
    RisingAscends();
    var s, t := RisingSeries(), RaisedSeries();
    assert s[8].high == 22.0 && s[6].high == 31.0;
    assert ValidCandle(s[8]) ==> ValidCandle(t[8]);
    hide RisingSeries, ValidCandle;
    forall i | 0 <= i < 11 ensures ValidCandle(t[i]) && t[i].closeTime < NOW {
      assert ValidCandle(s[i]);
    }
  }

  lemma ThreeTrends(trend: Option<Direction>)
    ensures trend == None || trend == Some(LONG) || trend == Some(SHORT)
  {
    if trend.Some? { assert trend.value == LONG || trend.value == SHORT; }
  }

  /** Candle 6 is above both candles next to it either way, and a swing only while candle 8,
      two places on, is lower: with it the trend is LONG, without it there is none. */
  lemma OuterNeighbourDecides()
    ensures var s, t := RisingSeries(), RaisedSeries();
            && |s| == |t| == 11 && (forall i :: 0 <= i < 11 && i != 8 ==> t[i] == s[i])
            && t[8].(high := s[8].high) == s[8]
            && (forall i :: 0 <= i < 11 ==> ValidCandle(t[i])) && Ascending(t)
            && t[6].high > t[5].high && t[6].high > t[7].high
            && Trend(s, NOW) == Some(LONG) && Trend(t, NOW) == None
  {
    var t := RaisedSeries();
    RisingTrend();
    RaisedIsValid();
    hide Trend, HighSwing, ValidCandle;
    TrendInPrices(t, NOW, 11);
    forall j ensures HighSwing(t, j) <==> j == 2 { RaisedHighs(j); }
    assert !HighsMove(t, 9, true) && !HighsMove(t, 9, false);
    ThreeTrends(Trend(t, NOW));
  }
}
