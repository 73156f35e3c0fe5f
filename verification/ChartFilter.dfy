/** The point-in-time filter on a provider's column-oriented candle chart. */
module ChartFilter {
  import opened Wrappers

  datatype Column = OPEN | HIGH | LOW | CLOSE | VOLUME | COST

  /** A JSON cell: the filter only asks whether a tick is an integer. */
  datatype Cell = Whole(n: int) | Other(text: string)

  /** A member of the result object: null, a list, or something else. */
  datatype Entry = Null | List(cells: seq<Cell>) | NotAList

  /** The provider's result, by the members the filter looks at; times in milliseconds. */
  datatype Chart = NotAnObject | Chart(status: Option<string>, ticks: Entry, columns: map<Column, Entry>)

  datatype FilterError =
    | RESULT_NOT_OBJECT | TICKS_MISSING_OR_INVALID | UNSUPPORTED_RESOLUTION | INVALID_TICK
    | NO_COMPLETED_CANDLE | LENGTH_MISMATCH(column: Column)

  const RESOLUTIONS: set<int> := {1, 3, 5, 10, 15, 30, 60, 120, 180, 360, 720}
  const NO_DATA: string := "no_data"

  /** The columns in the order in which they are checked. */
  const ORDER: seq<Column> := [OPEN, HIGH, LOW, CLOSE, VOLUME, COST]

  // ---------------------------------------------------------------- completed candles

  predicate ValidTick(tick: Cell)
  {
    tick.Whole? && tick.n >= 0
  }

  predicate AllValid(ticks: seq<Cell>)
  {
    forall i :: 0 <= i < |ticks| ==> ValidTick(ticks[i])
  }

  /** The candle of this tick closed strictly before the cutoff. */
  predicate Completed(tick: Cell, resolution: int, cutoff: int)
  {
    tick.Whole? && tick.n + resolution * 60_000 < cutoff
  }

  /** The indices of the completed candles, ascending. */
  function CompletedIndices(ticks: seq<Cell>, resolution: int, cutoff: int): (r: seq<nat>)
    ensures forall k :: 0 <= k < |r| ==> r[k] < |ticks|
  {
    if |ticks| == 0 then []
    else
      var n := |ticks| - 1;
      CompletedIndices(ticks[..n], resolution, cutoff) + if Completed(ticks[n], resolution, cutoff) then [n] else []
  }

  /** The tick loop; None is the invalid tick. */
  method CollectCompleted(ticks: seq<Cell>, resolution: int, cutoff: int) returns (r: Option<seq<nat>>)
    ensures r == if AllValid(ticks) then Some(CompletedIndices(ticks, resolution, cutoff)) else None
  {
    var indices: seq<nat> := [];
    for i := 0 to |ticks|
      invariant AllValid(ticks[..i]) && indices == CompletedIndices(ticks[..i], resolution, cutoff)
    {
      if !ValidTick(ticks[i]) {
        return None;
      }
      assert ticks[..i + 1][..i] == ticks[..i];
      if Completed(ticks[i], resolution, cutoff) {
        indices := indices + [i];
      }
    }
    assert ticks[..|ticks|] == ticks;
    r := Some(indices);
  }

  function Pick<T>(values: seq<T>, indices: seq<nat>): seq<T>
    requires forall k :: 0 <= k < |indices| ==> indices[k] < |values|
  {
    seq(|indices|, k requires 0 <= k < |indices| => values[indices[k]])
  }

  // ---------------------------------------------------------------- the filter

  predicate LengthFits(chart: Chart, column: Column, n: nat)
    requires chart.Chart?
  {
    column !in chart.columns || chart.columns[column].Null?
    || (chart.columns[column].List? && |chart.columns[column].cells| == n)
  }

  /** The first column, from number `k` on, whose length is not that of the ticks. */
  function FirstMismatch(chart: Chart, n: nat, k: nat): Option<Column>
    requires chart.Chart?
    decreases |ORDER| - k
  {
    if k >= |ORDER| then None
    else if !LengthFits(chart, ORDER[k], n) then Some(ORDER[k])
    else FirstMismatch(chart, n, k + 1)
  }

  function PickEntry(e: Entry, indices: seq<nat>): Entry
  {
    if e.List? && (forall k :: 0 <= k < |indices| ==> indices[k] < |e.cells|) then List(Pick(e.cells, indices)) else e
  }

  /** The columns after the first `k` of them have been restricted. */
  function PickedColumns(columns: map<Column, Entry>, indices: seq<nat>, k: nat): map<Column, Entry>
    requires k <= |ORDER|
  {
    map column | column in columns :: if column in ORDER[..k] then PickEntry(columns[column], indices)
      else columns[column]
  }

  /** `_pit_filter_chart_result`; `resolution` is what `int(...)` makes of the parameter. */
  function Filtered(chart: Chart, resolution: Option<int>, cutoff: int): Result<Chart, FilterError>
  {
    if chart.NotAnObject? then Err(RESULT_NOT_OBJECT)
    else if chart.status == Some(NO_DATA) then Ok(chart)
    else if !chart.ticks.List? then Err(TICKS_MISSING_OR_INVALID)
    else if resolution.None? || resolution.value !in RESOLUTIONS then Err(UNSUPPORTED_RESOLUTION)
    else
      var ticks := chart.ticks.cells;
      if !AllValid(ticks) then Err(INVALID_TICK)
      else
        var indices := CompletedIndices(ticks, resolution.value, cutoff);
        if indices == [] then Err(NO_COMPLETED_CANDLE)
        else
          match FirstMismatch(chart, |ticks|, 0)
          case Some(column) => Err(LENGTH_MISMATCH(column))
          case None => Ok(chart.(ticks := List(Pick(ticks, indices)),
            columns := PickedColumns(chart.columns, indices, |ORDER|)))
  }

  method FilterChart(chart: Chart, resolution: Option<int>, cutoff: int) returns (r: Result<Chart, FilterError>)
    ensures r == Filtered(chart, resolution, cutoff)
  {
    if chart.NotAnObject? {
      return Err(RESULT_NOT_OBJECT);
    }
    if chart.status == Some(NO_DATA) {
      return Ok(chart);
    }
    if !chart.ticks.List? {
      return Err(TICKS_MISSING_OR_INVALID);
    }
    if resolution.None? || resolution.value !in RESOLUTIONS {
      return Err(UNSUPPORTED_RESOLUTION);
    }
    var ticks := chart.ticks.cells;
    var completed := CollectCompleted(ticks, resolution.value, cutoff);
    if completed.None? {
      return Err(INVALID_TICK);
    }
    if completed.value == [] {
      return Err(NO_COMPLETED_CANDLE);
    }
    var columns := FilterColumns(chart, ticks, completed.value);
    match columns {
      case Err(column) => r := Err(LENGTH_MISMATCH(column));
      case Ok(picked) => r := Ok(chart.(ticks := List(Pick(ticks, completed.value)), columns := picked));
    }
  }

  /** The column loop: it overwrites one member after the other. */
  method FilterColumns(chart: Chart, ticks: seq<Cell>, indices: seq<nat>)
    returns (r: Result<map<Column, Entry>, Column>)
    requires chart.Chart? && forall k :: 0 <= k < |indices| ==> indices[k] < |ticks|
    ensures r == match FirstMismatch(chart, |ticks|, 0)
                 case Some(column) => Err(column)
                 case None => Ok(PickedColumns(chart.columns, indices, |ORDER|))
  {
    var columns := chart.columns;
    var k := 0;
    while k < |ORDER|
      invariant 0 <= k <= |ORDER|
      invariant FirstMismatch(chart, |ticks|, 0) == FirstMismatch(chart, |ticks|, k)
      invariant columns == PickedColumns(chart.columns, indices, k)
    {
      var column := ORDER[k];
      assert ORDER[..k + 1] == ORDER[..k] + [column];
      assert column !in ORDER[..k];
      if column in columns && !columns[column].Null? {
        var values := columns[column];
        if !values.List? || |values.cells| != |ticks| {
          return Err(column);
        }
        columns := columns[column := List(Pick(values.cells, indices))];
      }
      k := k + 1;
    }
    r := Ok(columns);
  }

  // ---------------------------------------------------------------- rows

  /** One candle of the chart: its tick and its cell in every listed column. */
  datatype Row = Row(tick: Cell, cells: map<Column, Cell>)

  /** Every listed column is as long as the ticks. */
  predicate Aligned(chart: Chart)
  {
    && chart.Chart? && chart.ticks.List?
    && forall column :: column in chart.columns && chart.columns[column].List? ==>
         |chart.columns[column].cells| == |chart.ticks.cells|
  }

  function RowAt(chart: Chart, i: nat): Row
    requires Aligned(chart) && i < |chart.ticks.cells|
  {
    Row(chart.ticks.cells[i],
        map column | column in chart.columns && chart.columns[column].List? :: chart.columns[column].cells[i])
  }

  function Rows(chart: Chart): seq<Row>
    requires Aligned(chart)
  {
    seq(|chart.ticks.cells|, i requires 0 <= i < |chart.ticks.cells| => RowAt(chart, i))
  }

  /** The simple form: whole rows, one decision each. */
  function CompletedRows(rows: seq<Row>, resolution: int, cutoff: int): seq<Row>
  {
    if |rows| == 0 then []
    else
      var n := |rows| - 1;
      CompletedRows(rows[..n], resolution, cutoff) + if Completed(rows[n].tick, resolution, cutoff) then [rows[n]]
        else []
  }

  lemma {:induction false} NoMismatchMeans(chart: Chart, n: nat, k: nat)
    requires chart.Chart? && k <= |ORDER| && FirstMismatch(chart, n, k).None?
    ensures forall j :: k <= j < |ORDER| ==> LengthFits(chart, ORDER[j], n)
    decreases |ORDER| - k
  {
    if k < |ORDER| { NoMismatchMeans(chart, n, k + 1); }
  }

  lemma InOrder(column: Column)
    ensures column in ORDER
  {
    assert ORDER[0] == OPEN && ORDER[1] == HIGH && ORDER[2] == LOW && ORDER[3] == CLOSE && ORDER[4] == VOLUME
      && ORDER[5] == COST;
  }

  /** A chart that the filter accepts has aligned columns, and nothing but nulls and lists. */
  lemma AcceptedIsAligned(chart: Chart, n: nat)
    requires chart.Chart? && chart.ticks.List? && n == |chart.ticks.cells|
    ensures FirstMismatch(chart, n, 0).None? <==>
              Aligned(chart) && forall column :: column in chart.columns ==> !chart.columns[column].NotAList?
  {
    if FirstMismatch(chart, n, 0).None? {
      NoMismatchMeans(chart, n, 0);
      forall column | column in chart.columns ensures LengthFits(chart, column, n) { InOrder(column); }
    } else if Aligned(chart) && forall column :: column in chart.columns ==> !chart.columns[column].NotAList? {
      MismatchMeans(chart, n, 0);
    }
  }

  lemma {:induction false} MismatchMeans(chart: Chart, n: nat, k: nat)
    requires chart.Chart? && FirstMismatch(chart, n, k).Some?
    ensures !LengthFits(chart, FirstMismatch(chart, n, k).value, n)
    decreases |ORDER| - k
  {
    if k < |ORDER| && LengthFits(chart, ORDER[k], n) { MismatchMeans(chart, n, k + 1); }
  }

  function Ticks(rows: seq<Row>): seq<Cell>
  {
    seq(|rows|, i requires 0 <= i < |rows| => rows[i].tick)
  }

  lemma PickAppend<T>(values: seq<T>, indices: seq<nat>, last: nat)
    requires forall k :: 0 <= k < |indices| ==> indices[k] < |values|
    requires last < |values|
    ensures Pick(values, indices + [last]) == Pick(values, indices) + [values[last]]
  {
  }

  lemma PickPrefix<T>(values: seq<T>, n: nat, indices: seq<nat>)
    requires n <= |values| && forall k :: 0 <= k < |indices| ==> indices[k] < n
    ensures Pick(values[..n], indices) == Pick(values, indices)
  {
  }

  lemma {:induction false} RowsByIndex(rows: seq<Row>, resolution: int, cutoff: int)
    ensures CompletedRows(rows, resolution, cutoff) == Pick(rows, CompletedIndices(Ticks(rows), resolution, cutoff))
    decreases |rows|
  {
    if |rows| > 0 {
      var n := |rows| - 1;
      RowsByIndex(rows[..n], resolution, cutoff);
      assert Ticks(rows)[..n] == Ticks(rows[..n]);
      var indices := CompletedIndices(Ticks(rows[..n]), resolution, cutoff);
      PickPrefix(rows, n, indices);
      if Completed(rows[n].tick, resolution, cutoff) {
        PickAppend(rows, indices, n);
      }
    }
  }

  lemma PickedColumnsMeans(columns: map<Column, Entry>, indices: seq<nat>)
    ensures var picked := PickedColumns(columns, indices, |ORDER|);
            && picked.Keys == columns.Keys
            && forall column :: column in columns ==> picked[column] == PickEntry(columns[column], indices)
  {
    forall column | column in columns
      ensures PickedColumns(columns, indices, |ORDER|)[column] == PickEntry(columns[column], indices)
    {
      InOrder(column);
      assert ORDER[..|ORDER|] == ORDER;
    }
  }

  predicate Filters(chart: Chart, resolution: Option<int>, cutoff: int)
  {
    chart.Chart? && chart.status != Some(NO_DATA) && Filtered(chart, resolution, cutoff).Ok?
  }

  lemma PickedRow(chart: Chart, out: Chart, indices: seq<nat>, k: nat)
    requires Aligned(chart) && Aligned(out) && k < |indices| == |out.ticks.cells|
    requires forall j :: 0 <= j < |indices| ==> indices[j] < |chart.ticks.cells|
    requires out.ticks.cells == Pick(chart.ticks.cells, indices)
    requires out.columns.Keys == chart.columns.Keys
    requires forall column :: column in chart.columns ==>
               out.columns[column] == PickEntry(chart.columns[column], indices)
    ensures RowAt(out, k) == RowAt(chart, indices[k])
  {
    var a, b := RowAt(out, k).cells, RowAt(chart, indices[k]).cells;
    assert a.Keys == b.Keys;
    forall column | column in a ensures a[column] == b[column] {
      assert out.columns[column] == PickEntry(chart.columns[column], indices);
    }
  }

  /** Filtering the columns is filtering whole rows: the columns stay aligned, no row is torn,
      exactly the completed candles remain, in their order, and nothing else is touched. */
  lemma ColumnFilterIsRowFilter(chart: Chart, resolution: Option<int>, cutoff: int)
    requires Filters(chart, resolution, cutoff)
    ensures resolution.Some? && Aligned(chart)
    ensures var out := Filtered(chart, resolution, cutoff).value;
            && Aligned(out) && out.status == chart.status && out.columns.Keys == chart.columns.Keys
            && (forall column :: column in chart.columns ==>
                  (out.columns[column].List? <==> chart.columns[column].List?))
            && Rows(out) == CompletedRows(Rows(chart), resolution.value, cutoff)
            && |Rows(out)| > 0
  {
    var out := Filtered(chart, resolution, cutoff).value;
    var ticks := chart.ticks.cells;
    var indices := CompletedIndices(ticks, resolution.value, cutoff);
    AcceptedIsAligned(chart, |ticks|);
    PickedColumnsMeans(chart.columns, indices);
    RowsByIndex(Rows(chart), resolution.value, cutoff);
    assert Ticks(Rows(chart)) == ticks;
    forall k: nat | k < |indices| ensures Rows(out)[k] == Pick(Rows(chart), indices)[k] {
      PickedRow(chart, out, indices, k);
    }
    assert Rows(out) == Pick(Rows(chart), indices);
  }

  // ---------------------------------------------------------------- filtering twice

  lemma {:induction false} IndicesCompose(ticks: seq<Cell>, resolution: int, earlier: int, later: int)
    requires earlier <= later
    ensures var outer := CompletedIndices(ticks, resolution, later);
            Pick(outer, CompletedIndices(Pick(ticks, outer), resolution, earlier))
              == CompletedIndices(ticks, resolution, earlier)
    decreases |ticks|
  {
    if |ticks| > 0 {
      var n := |ticks| - 1;
      IndicesCompose(ticks[..n], resolution, earlier, later);
      var outer := CompletedIndices(ticks[..n], resolution, later);
      PickPrefix(ticks, n, outer);
      if Completed(ticks[n], resolution, later) {
        assert CompletedIndices(ticks, resolution, later) == outer + [n];
        IndicesComposeStep(ticks, outer, resolution, earlier, n);
      } else {
        assert CompletedIndices(ticks, resolution, later) == outer;
        assert CompletedIndices(ticks, resolution, earlier) == CompletedIndices(ticks[..n], resolution, earlier);
      }
    }
  }

  lemma IndicesComposeStep(ticks: seq<Cell>, outer: seq<nat>, resolution: int, earlier: int, n: nat)
    requires n == |ticks| - 1 && forall k :: 0 <= k < |outer| ==> outer[k] < n
    ensures var inner := CompletedIndices(Pick(ticks, outer), resolution, earlier);
            Pick(outer + [n], CompletedIndices(Pick(ticks, outer + [n]), resolution, earlier))
            == Pick(outer, inner) + if Completed(ticks[n], resolution, earlier) then [n] else []
  {
    PickAppend(ticks, outer, n);
    var kept := Pick(ticks, outer);
    assert (kept + [ticks[n]])[..|kept|] == kept;
    var inner := CompletedIndices(kept, resolution, earlier);
    PickPrefix(outer + [n], |outer|, inner);
    assert (outer + [n])[..|outer|] == outer;
    if Completed(ticks[n], resolution, earlier) {
      PickAppend(outer + [n], inner, |outer|);
    }
  }

  lemma PickPick<T>(values: seq<T>, outer: seq<nat>, inner: seq<nat>)
    requires forall k :: 0 <= k < |outer| ==> outer[k] < |values|
    requires forall k :: 0 <= k < |inner| ==> inner[k] < |outer|
    ensures Pick(Pick(values, outer), inner) == Pick(values, Pick(outer, inner))
  {
  }

  lemma PickEntryTwice(e: Entry, outer: seq<nat>, inner: seq<nat>)
    requires e.List? ==> forall k :: 0 <= k < |outer| ==> outer[k] < |e.cells|
    requires forall k :: 0 <= k < |inner| ==> inner[k] < |outer|
    ensures PickEntry(PickEntry(e, outer), inner) == PickEntry(e, Pick(outer, inner))
  {
    if e.List? { PickPick(e.cells, outer, inner); }
  }

  lemma PickedColumnsTwice(columns: map<Column, Entry>, n: nat, outer: seq<nat>, inner: seq<nat>)
    requires forall column :: column in columns && columns[column].List? ==> |columns[column].cells| == n
    requires forall k :: 0 <= k < |outer| ==> outer[k] < n
    requires forall k :: 0 <= k < |inner| ==> inner[k] < |outer|
    ensures PickedColumns(PickedColumns(columns, outer, |ORDER|), inner, |ORDER|)
            == PickedColumns(columns, Pick(outer, inner), |ORDER|)
  {
    hide PickedColumns, PickEntry, Pick;
    var once := PickedColumns(columns, outer, |ORDER|);
    PickedColumnsMeans(columns, outer);
    PickedColumnsMeans(once, inner);
    PickedColumnsMeans(columns, Pick(outer, inner));
    forall column | column in columns
      ensures PickEntry(once[column], inner) == PickEntry(columns[column], Pick(outer, inner)) {
      PickEntryTwice(columns[column], outer, inner);
    }
  }

  lemma ValidPicked(ticks: seq<Cell>, indices: seq<nat>)
    requires AllValid(ticks) && forall k :: 0 <= k < |indices| ==> indices[k] < |ticks|
    ensures AllValid(Pick(ticks, indices))
  {
  }

  /** Filtering at a later time and then at an earlier one is filtering at the earlier one:
      a stored chart can be replayed at any time before it was fetched. */
  lemma FilterTwice(chart: Chart, resolution: Option<int>, earlier: int, later: int)
    requires earlier <= later && Filtered(chart, resolution, later).Ok?
    ensures Filtered(Filtered(chart, resolution, later).value, resolution, earlier)
            == Filtered(chart, resolution, earlier)
  {
    if Filters(chart, resolution, later) {
      var ticks := chart.ticks.cells;
      var out := Filtered(chart, resolution, later).value;
      var outer := CompletedIndices(ticks, resolution.value, later);
      var inner := CompletedIndices(out.ticks.cells, resolution.value, earlier);
      ColumnFilterIsRowFilter(chart, resolution, later);
      AcceptedIsAligned(chart, |ticks|);
      ValidPicked(ticks, outer);
      IndicesCompose(ticks, resolution.value, earlier, later);
      PickPick(ticks, outer, inner);
      PickedColumnsMeans(chart.columns, outer);
      PickedColumnsTwice(chart.columns, |ticks|, outer, inner);
      AcceptedIsAligned(out, |out.ticks.cells|);
    }
  }

  /** What is refused at a later time is refused at an earlier one. */
  lemma RefusedEarlier(chart: Chart, resolution: Option<int>, earlier: int, later: int)
    requires earlier <= later && Filtered(chart, resolution, later).Err?
    ensures var e := Filtered(chart, resolution, earlier);
            e == Filtered(chart, resolution, later) || e == Err(NO_COMPLETED_CANDLE)
  {
    if chart.Chart? && chart.ticks.List? && resolution.Some? {
      IndicesCompose(chart.ticks.cells, resolution.value, earlier, later);
    }
  }

  // ---------------------------------------------------------------- answers in fields

  /** Every tick is a whole number of milliseconds and not negative. */
  predicate WholeTicks(ticks: seq<Cell>)
  {
    forall i :: 0 <= i < |ticks| ==> ticks[i].Whole? && ticks[i].n >= 0
  }

  /** The candle of the tick, that many minutes long, ends before the cutoff. */
  predicate EndsBefore(tick: Cell, minutes: int, cutoff: int)
  {
    tick.Whole? && tick.n + minutes * 60_000 < cutoff
  }

  lemma {:induction false} NoneCompleted(ticks: seq<Cell>, minutes: int, cutoff: int)
    ensures CompletedIndices(ticks, minutes, cutoff) == [] <==>
              forall i :: 0 <= i < |ticks| ==> !EndsBefore(ticks[i], minutes, cutoff)
    decreases |ticks|
  {
    if |ticks| > 0 {
      var n := |ticks| - 1;
      NoneCompleted(ticks[..n], minutes, cutoff);
      assert forall i :: 0 <= i < n ==> ticks[..n][i] == ticks[i];
    }
  }

  /** Keeping the completed rows acts row by row. */
  lemma {:induction false} CompletedRowsAct(a: seq<Row>, b: seq<Row>, row: Row, minutes: int, cutoff: int)
    ensures CompletedRows([row], minutes, cutoff) == if EndsBefore(row.tick, minutes, cutoff) then [row] else []
    ensures CompletedRows(a + b, minutes, cutoff)
            == CompletedRows(a, minutes, cutoff) + CompletedRows(b, minutes, cutoff)
    decreases |b|
  {
    if |b| > 0 {
      CompletedRowsAct(a, b[..|b| - 1], row, minutes, cutoff);
      assert (a + b)[..|a + b| - 1] == a + b[..|b| - 1];
    } else {
      assert a + b == a;
    }
    assert [row][..0] == [];
  }

  /** The answer of the filter to a chart, check by check. */
  lemma FilterAnswers(chart: Chart, resolution: Option<int>, cutoff: int)
    ensures var r := Filtered(chart, resolution, cutoff);
            && (r == Err(RESULT_NOT_OBJECT) <==> chart.NotAnObject?)
            && (chart.Chart? && chart.status == Some("no_data") ==> r == Ok(chart))
            && (chart.Chart? && chart.status != Some("no_data") ==>
                  var minutes := if resolution.Some? then resolution.value else 0;
                  var known := minutes in {1, 3, 5, 10, 15, 30, 60, 120, 180, 360, 720};
                  && (r == Err(TICKS_MISSING_OR_INVALID) <==> !chart.ticks.List?)
                  && (r == Err(UNSUPPORTED_RESOLUTION) <==> chart.ticks.List? && !known)
                  && (chart.ticks.List? && known ==>
                        var ticks := chart.ticks.cells;
                        && (r.Ok? ==>
                              r.value.Chart? && r.value.status == chart.status && r.value.ticks.List?
                              && r.value.columns.Keys == chart.columns.Keys
                              && forall c :: c in chart.columns && chart.columns[c].Null? ==> r.value.columns[c].Null?)
                        && (r == Err(INVALID_TICK) <==> !WholeTicks(ticks))
                        && (r == Err(NO_COMPLETED_CANDLE) <==>
                              WholeTicks(ticks)
                              && forall i :: 0 <= i < |ticks| ==> !EndsBefore(ticks[i], minutes, cutoff))))
  {
    hide FirstMismatch, CompletedIndices;
    if chart.Chart? && chart.ticks.List? && resolution.Some? {
      NoneCompleted(chart.ticks.cells, resolution.value, cutoff);
      assert AllValid(chart.ticks.cells) <==> WholeTicks(chart.ticks.cells);
    }
  }

  /** The column whose length does not fit: the first one, in the order of the checks. */
  lemma MismatchAnswers(chart: Chart, resolution: Option<int>, cutoff: int, column: Column)
    requires Filtered(chart, resolution, cutoff) == Err(LENGTH_MISMATCH(column))
    ensures chart.Chart? && chart.ticks.List? && column in chart.columns
    ensures var e := chart.columns[column]; e.NotAList? || (e.List? && |e.cells| != |chart.ticks.cells|)
    ensures exists k :: 0 <= k < 6 && [OPEN, HIGH, LOW, CLOSE, VOLUME, COST][k] == column
              && forall j :: 0 <= j < k ==> LengthFits(chart, [OPEN, HIGH, LOW, CLOSE, VOLUME, COST][j],
                |chart.ticks.cells|)
  {
    hide CompletedIndices, PickedColumns;
    var n := |chart.ticks.cells|;
    MismatchMeans(chart, n, 0);
    FirstMismatchAt(chart, n, 0);
  }

  lemma {:induction false} FirstMismatchAt(chart: Chart, n: nat, k: nat)
    requires chart.Chart? && FirstMismatch(chart, n, k).Some?
    ensures exists i :: && k <= i < |ORDER| && ORDER[i] == FirstMismatch(chart, n, k).value
                        && forall j :: k <= j < i ==> LengthFits(chart, ORDER[j], n)
    decreases |ORDER| - k
  {
    if k < |ORDER| && LengthFits(chart, ORDER[k], n) {
      FirstMismatchAt(chart, n, k + 1);
    }
  }
}
