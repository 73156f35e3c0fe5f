/** Reason codes, by the names they have in the source. */
module Reasons {
  datatype Reason =
    // series integrity and alignment
    | EMPTY_SERIES | INVALID_TIMEFRAME | TIMEFRAME_MISMATCH | NON_DETERMINISTIC_ORDER | DUPLICATE_CANDLE
    | INVALID_CANDLE_DURATION | OVERLAPPING_CANDLES | CANDLE_GAP
    | CANDLE_BOUNDARY_MISMATCH | NO_CLOSED_CANDLE | AMBIGUOUS_CANDLE_ALIGNMENT
    // strategy
    | INSUFFICIENT_SWING_CONTEXT | TREND_NEUTRAL | TREND_LONG_CONFIRMED | TREND_SHORT_CONFIRMED
    | ENTRY_NOT_CONFIRMED | STRUCTURE_CHOCH_LONG_INVALIDATED | STRUCTURE_CHOCH_SHORT_INVALIDATED
    | ENTRY_BREAKOUT_LONG | ENTRY_BREAKOUT_SHORT
    // a code chosen by an injected policy
    | Custom(code: string)

  function When(condition: bool, reason: Reason): seq<Reason>
  {
    if condition then [reason] else []
  }

  /** The text of a reason. */
  function Code(r: Reason): string
  {
    match r
    case EMPTY_SERIES => "EMPTY_SERIES"
    case INVALID_TIMEFRAME => "INVALID_TIMEFRAME"
    case TIMEFRAME_MISMATCH => "TIMEFRAME_MISMATCH"
    case NON_DETERMINISTIC_ORDER => "NON_DETERMINISTIC_ORDER"
    case DUPLICATE_CANDLE => "DUPLICATE_CANDLE"
    case INVALID_CANDLE_DURATION => "INVALID_CANDLE_DURATION"
    case OVERLAPPING_CANDLES => "OVERLAPPING_CANDLES"
    case CANDLE_GAP => "CANDLE_GAP"
    case CANDLE_BOUNDARY_MISMATCH => "CANDLE_BOUNDARY_MISMATCH"
    case NO_CLOSED_CANDLE => "NO_CLOSED_CANDLE"
    case AMBIGUOUS_CANDLE_ALIGNMENT => "AMBIGUOUS_CANDLE_ALIGNMENT"
    case INSUFFICIENT_SWING_CONTEXT => "INSUFFICIENT_SWING_CONTEXT"
    case TREND_NEUTRAL => "TREND_NEUTRAL"
    case TREND_LONG_CONFIRMED => "TREND_LONG_CONFIRMED"
    case TREND_SHORT_CONFIRMED => "TREND_SHORT_CONFIRMED"
    case ENTRY_NOT_CONFIRMED => "ENTRY_NOT_CONFIRMED"
    case STRUCTURE_CHOCH_LONG_INVALIDATED => "STRUCTURE_CHOCH_LONG_INVALIDATED"
    case STRUCTURE_CHOCH_SHORT_INVALIDATED => "STRUCTURE_CHOCH_SHORT_INVALIDATED"
    case ENTRY_BREAKOUT_LONG => "ENTRY_BREAKOUT_LONG"
    case ENTRY_BREAKOUT_SHORT => "ENTRY_BREAKOUT_SHORT"
    case Custom(code) => code
  }
}
