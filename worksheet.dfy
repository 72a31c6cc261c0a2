/** The gspread worksheet as far as the core uses it, and
    `_resize_to_minimum`. */
module Sheet {
  import opened Common
  import opened CellLiteral

  /** One planned write: 1-based row and column and the literal to send. */
  datatype Update = Update(row: int, col: int, literal: Literal)

  /** How Sheets reads the sent literals; the core always asks for
      USER_ENTERED. */
  datatype ValueInputOption = Raw | UserEntered

  datatype UpdateCall = UpdateCall(cells: seq<Update>, option: ValueInputOption)

  /** The arguments of one `resize` call; `None` leaves a dimension alone. */
  datatype ResizeCall = ResizeCall(rows: Option<nat>, cols: Option<nat>)

  /** A worksheet: its current size, and a record of the two mutating
      calls the core makes on it. */
  class Worksheet {
    var rowCount: nat
    var colCount: nat
    ghost var resizeCalls: seq<ResizeCall>
    ghost var updateCalls: seq<UpdateCall>

    constructor (rows: nat, cols: nat)
      ensures rowCount == rows && colCount == cols
      ensures resizeCalls == [] && updateCalls == []
    {
      rowCount, colCount := rows, cols;
      resizeCalls, updateCalls := [], [];
    }

    /** gspread's `resize`: each given dimension becomes the new size. */
    method Resize(rows: Option<nat>, cols: Option<nat>)
      modifies this`rowCount, this`colCount, this`resizeCalls
      ensures resizeCalls == old(resizeCalls) + [ResizeCall(rows, cols)]
      ensures rowCount == (if rows.Some? then rows.value else old(rowCount))
      ensures colCount == (if cols.Some? then cols.value else old(colCount))
    {
      resizeCalls := resizeCalls + [ResizeCall(rows, cols)];
      if rows.Some? {
        rowCount := rows.value;
      }
      if cols.Some? {
        colCount := cols.value;
      }
    }

    /** gspread's `update_cells`: one batch request with the given cells. */
    method UpdateCells(cells: seq<Update>, option: ValueInputOption)
      modifies this`updateCalls
      ensures updateCalls == old(updateCalls) + [UpdateCall(cells, option)]
    {
      updateCalls := updateCalls + [UpdateCall(cells, option)];
    }
  }

  /** A requested dimension survives only when it is larger than the
      current one. */
  function Growth(current: nat, requested: Option<int>): (g: Option<nat>)
  {
    if requested.Some? && requested.value > current then Some(requested.value) else None
  }

  /** The `resize` call `_resize_to_minimum` makes for a sheet of the given
      size, or `None` when it makes none. */
  function MinimumResize(currentRows: nat, currentCols: nat, rows: Option<int>, cols: Option<int>): Option<ResizeCall>
  {
    var r, c := Growth(currentRows, rows), Growth(currentCols, cols);
    if r.None? && c.None? then None else Some(ResizeCall(r, c))
  }

  /** The size a dimension has after a resize that passes `given`. */
  function Resized(current: nat, given: Option<nat>): nat {
    if given.Some? then given.value else current
  }

  /** `_resize_to_minimum`: drop each requested dimension that does not
      exceed the current one, and call `resize` only if one is left. */
  method ResizeToMinimum(ws: Worksheet, rows: Option<int>, cols: Option<int>)
    modifies ws`rowCount, ws`colCount, ws`resizeCalls
    ensures ws.resizeCalls == old(ws.resizeCalls) +
      match MinimumResize(old(ws.rowCount), old(ws.colCount), rows, cols)
      case None => []
      case Some(call) => [call]
    ensures ws.rowCount == Max(old(ws.rowCount), if rows.Some? then rows.value else 0)
    ensures ws.colCount == Max(old(ws.colCount), if cols.Some? then cols.value else 0)
  {
    var currentCols, currentRows := ws.colCount, ws.rowCount;
    var rows, cols := rows, cols;
    if rows.Some? && rows.value <= currentRows {
      rows := None;
    }
    if cols.Some? && cols.value <= currentCols {
      cols := None;
    }
    if cols.Some? || rows.Some? {
      var r: Option<nat> := if rows.Some? then Some(rows.value) else None;
      var c: Option<nat> := if cols.Some? then Some(cols.value) else None;
      ws.Resize(r, c);
    }
  }

  /** The sheet never shrinks: a resize happens exactly when some requested
      dimension exceeds the current one; a dimension it passes is exactly
      the requested one and larger than the current; and a dimension that
      does not exceed the current one is passed as `None`. */
  lemma MinimumResizeOnlyGrows(currentRows: nat, currentCols: nat, rows: Option<int>, cols: Option<int>)
    ensures var call := MinimumResize(currentRows, currentCols, rows, cols);
      && (call.Some? <==> (rows.Some? && rows.value > currentRows) || (cols.Some? && cols.value > currentCols))
      && (call.Some? ==> (call.value.rows.Some? <==> rows.Some? && rows.value > currentRows))
      && (call.Some? ==> (call.value.cols.Some? <==> cols.Some? && cols.value > currentCols))
      && (call.Some? && call.value.rows.Some? ==> call.value.rows.value == rows.value > currentRows)
      && (call.Some? && call.value.cols.Some? ==> call.value.cols.value == cols.value > currentCols)
  {
  }

  /** After the resize it asks for, the sheet holds the request, so asking
      again makes no call. */
  lemma MinimumResizeSettles(currentRows: nat, currentCols: nat, rows: Option<int>, cols: Option<int>)
    ensures var call := MinimumResize(currentRows, currentCols, rows, cols);
      var newRows := if call.Some? then Resized(currentRows, call.value.rows) else currentRows;
      var newCols := if call.Some? then Resized(currentCols, call.value.cols) else currentCols;
      && newRows >= currentRows && newCols >= currentCols
      && (rows.Some? ==> newRows >= rows.value)
      && (cols.Some? ==> newCols >= cols.value)
      && MinimumResize(newRows, newCols, rows, cols) == None
  {
  }
}
