/** The write path: `set_with_dataframe` and `set_with_dataframes` lay a
    table out as (row, col, value) cells relative to an anchor, render each
    value with `_cellrepr`, and send everything in one `update_cells` call. */
module UpdatePlan {
  import opened Common
  import opened CellLiteral
  import opened Sheet

  /** The parts of a DataFrame the writers read: the column labels, the
      index level names, the index value of every row (a scalar index value
      is one element), and the rows of data. */
  datatype Frame = Frame(labels: seq<Value>, indexNames: seq<Value>, index: seq<seq<Value>>, rows: seq<seq<Value>>)
  {
    /** A DataFrame has one index value per row, so the `zip_longest` of
        rows and index pairs them exactly. */
    predicate Valid() {
      |index| == |rows|
    }
  }

  predicate AllValid(frames: seq<Frame>) {
    forall i :: 0 <= i < |frames| ==> frames[i].Valid()
  }

  /** A value placed at a 1-based sheet position, before rendering. */
  datatype Placed = Placed(row: int, col: int, value: Value)

  // ---------------------------------------------------------------------
  // Layout: where every value goes.
  // ---------------------------------------------------------------------

  /** The header row: the index names when the index is included, then the
      column labels. */
  function HeaderValues(f: Frame, includeIndex: bool): seq<Value> {
    (if includeIndex then f.indexNames else []) + f.labels
  }

  /** The data rows, each with its index value in front when the index is
      included. */
  function DataRows(f: Frame, includeIndex: bool): (rows: seq<seq<Value>>)
    requires f.Valid()
    ensures |rows| == |f.rows|
  {
    seq(|f.rows|, y requires 0 <= y < |f.rows| =>
      (if includeIndex then f.index[y] else []) + f.rows[y])
  }

  /** One sheet row of values starting at column `c`. */
  function PlaceRow(r: int, c: int, vals: seq<Value>): (cells: seq<Placed>)
    ensures |cells| == |vals|
  {
    seq(|vals|, x requires 0 <= x < |vals| => Placed(r, c + x, vals[x]))
  }

  /** Consecutive sheet rows from row `r` on. */
  function PlaceRows(r: int, c: int, rows: seq<seq<Value>>): seq<Placed>
    decreases |rows|
  {
    if |rows| == 0 then []
    else PlaceRows(r, c, rows[..|rows| - 1]) + PlaceRow(r + |rows| - 1, c, rows[|rows| - 1])
  }

  function HeaderCells(f: Frame, row: int, col: int, includeIndex: bool, includeHeader: bool): seq<Placed> {
    if includeHeader then PlaceRow(row, col, HeaderValues(f, includeIndex)) else []
  }

  /** The first data row: one below the anchor when a header is written. */
  function DataStart(row: int, includeHeader: bool): int {
    if includeHeader then row + 1 else row
  }

  /** Every value `set_with_dataframe` writes, in the order it appends them. */
  function Layout(f: Frame, row: int, col: int, includeIndex: bool, includeHeader: bool): seq<Placed>
    requires f.Valid()
  {
    HeaderCells(f, row, col, includeIndex, includeHeader)
      + PlaceRows(DataStart(row, includeHeader), col, DataRows(f, includeIndex))
  }

  /** The values `set_with_dataframes` writes: the layouts of the
      (frame, row) pairs of the shorter list, each with a header, in order. */
  function Layouts(frames: seq<Frame>, rowList: seq<int>, col: int, includeIndex: bool): seq<Placed>
    requires AllValid(frames)
    decreases |frames|
  {
    var n := Min(|frames|, |rowList|);
    if n == 0 then []
    else
      Layouts(frames[..n - 1], rowList[..n - 1], col, includeIndex)
        + Layout(frames[n - 1], rowList[n - 1], col, includeIndex, true)
  }

  /** Total number of values in a list of rows. */
  function TotalWidth(rows: seq<seq<Value>>): nat
    decreases |rows|
  {
    if |rows| == 0 then 0 else TotalWidth(rows[..|rows| - 1]) + |rows[|rows| - 1]|
  }

  // ---------------------------------------------------------------------
  // Rendering: `_cellrepr` on every placed value.
  // ---------------------------------------------------------------------

  /** The updates for the placed values, or the error the first failing
      `_cellrepr` raises. */
  function Render(cells: seq<Placed>, allowFormulas: bool, policy: Policy): Result<seq<Update>>
    decreases |cells|
  {
    if |cells| == 0 then Ok([])
    else
      var last := cells[|cells| - 1];
      match Render(cells[..|cells| - 1], allowFormulas, policy)
      case Err(e) => Err(e)
      case Ok(done) =>
        match CellRepr(last.value, allowFormulas, policy)
        case Err(e) => Err(e)
        case Ok(lit) => Ok(done + [Update(last.row, last.col, lit)])
  }

  /** Two plans sent together: both sets of updates, or the error. */
  function Join(a: Result<seq<Update>>, b: Result<seq<Update>>): Result<seq<Update>> {
    if a.Err? then a else if b.Err? then b else Ok(a.value + b.value)
  }

  // ---------------------------------------------------------------------
  // The imperative writers.
  // ---------------------------------------------------------------------

  /** The inner loop of both writers: append the updates for one sheet row
      of values starting at column `c`, rendering each value as it goes;
      `placed` is what the updates so far were rendered from. */
  method AppendRow(updates: seq<Update>, ghost placed: seq<Placed>, r: int, c: int, vals: seq<Value>,
                   allowFormulas: bool, policy: Policy)
    returns (res: Result<seq<Update>>)
    requires Render(placed, allowFormulas, policy) == Ok(updates)
    ensures res == Render(placed + PlaceRow(r, c, vals), allowFormulas, policy)
  {
    var acc := updates;
    ghost var done := placed;
    var x := 0;
    while x < |vals|
      invariant 0 <= x <= |vals|
      invariant done == placed + PlaceRow(r, c, vals[..x])
      invariant Render(done, allowFormulas, policy) == Ok(acc)
    {
      var lit := CellRepr(vals[x], allowFormulas, policy);
      if lit.Err? {
        ghost var all := placed + PlaceRow(r, c, vals);
        assert all[|placed| + x].value == vals[x];
        RenderCellwise(all, allowFormulas, policy);
        return Err(lit.error);
      }
      PlaceRowSnoc(r, c, vals, x);
      RenderSnoc(done, Placed(r, x + c, vals[x]), allowFormulas, policy);
      acc := acc + [Update(r, x + c, lit.value)];
      done := done + [Placed(r, x + c, vals[x])];
      x := x + 1;
    }
    assert vals[..x] == vals;
    res := Ok(acc);
  }

  /** Lines 251-257 of `set_with_dataframe` and 342-348 of
      `set_with_dataframes`: pair every data row with its index
      value and, when the index is included, put the index value in front. */
  method CollectRows(f: Frame, includeIndex: bool) returns (values: seq<seq<Value>>)
    requires f.Valid()
    ensures values == DataRows(f, includeIndex)
  {
    values := [];
    var y := 0;
    while y < |f.rows|
      invariant 0 <= y <= |f.rows|
      invariant values == DataRows(f, includeIndex)[..y]
    {
      var valueRow := f.rows[y];
      if includeIndex {
        valueRow := f.index[y] + valueRow;
      }
      ghost var all := DataRows(f, includeIndex);
      assert all[y] == valueRow;
      assert all[..y + 1] == all[..y] + [all[y]];
      values := values + [valueRow];
      y := y + 1;
    }
  }

  /** Lines 258-264 of `set_with_dataframe` and 349-355 of
      `set_with_dataframes`: append the updates for every data
      row, row `y` on sheet row `r + y`. */
  method AppendRows(updates: seq<Update>, ghost placed: seq<Placed>, r: int, c: int, values: seq<seq<Value>>,
                    allowFormulas: bool, policy: Policy)
    returns (res: Result<seq<Update>>)
    requires Render(placed, allowFormulas, policy) == Ok(updates)
    ensures res == Render(placed + PlaceRows(r, c, values), allowFormulas, policy)
  {
    var acc := updates;
    var y := 0;
    assert placed + PlaceRows(r, c, values[..0]) == placed;
    while y < |values|
      invariant 0 <= y <= |values|
      invariant Render(placed + PlaceRows(r, c, values[..y]), allowFormulas, policy) == Ok(acc)
    {
      PlaceRowsSnoc(r, c, values, y);
      assert placed + PlaceRows(r, c, values[..y + 1])
          == (placed + PlaceRows(r, c, values[..y])) + PlaceRow(r + y, c, values[y]);
      res := AppendRow(acc, placed + PlaceRows(r, c, values[..y]), y + r, c, values[y],
                       allowFormulas, policy);
      if res.Err? {
        PlaceRowsPrefix(r, c, values, y + 1);
        RenderErrExtends(placed + PlaceRows(r, c, values[..y + 1]),
                         placed + PlaceRows(r, c, values), allowFormulas, policy);
        return;
      }
      acc := res.value;
      y := y + 1;
    }
    assert values[..y] == values;
    res := Ok(acc);
  }

  /** Lines 230-264 of `set_with_dataframe`: append the header cells, move
      the row past the header, collect the data rows with their index
      values, and append every data cell, rendering each as it goes. */
  method PlanFrame(f: Frame, row: int, col: int, includeIndex: bool, includeHeader: bool,
                   allowFormulas: bool, policy: Policy)
    returns (res: Result<seq<Update>>)
    requires f.Valid()
    ensures res == Render(Layout(f, row, col, includeIndex, includeHeader), allowFormulas, policy)
  {
    var updates: seq<Update> := [];
    var r := row;
    if includeHeader {
      var elts := HeaderValues(f, includeIndex);
      res := AppendRow([], [], row, col, elts, allowFormulas, policy);
      assert [] + PlaceRow(row, col, elts) == PlaceRow(row, col, elts);
      if res.Err? {
        RenderErrExtends(PlaceRow(row, col, elts), Layout(f, row, col, includeIndex, includeHeader),
                         allowFormulas, policy);
        return;
      }
      updates := res.value;
      r := r + 1;
    }
    ghost var header := HeaderCells(f, row, col, includeIndex, includeHeader);
    assert Render(header, allowFormulas, policy) == Ok(updates);
    var values := CollectRows(f, includeIndex);
    res := AppendRows(updates, header, r, col, values, allowFormulas, policy);
  }

  /** `set_with_dataframe`: plan the updates and, when there are any, send
      them in one USER_ENTERED `update_cells` call. A failing `_cellrepr`
      raises before anything is sent. `resize` is accepted and never used. */
  method SetWithDataFrame(ws: Worksheet, f: Frame, row: int, col: int, includeIndex: bool,
                          includeColumnHeader: bool, resize: bool, allowFormulas: bool, policy: Policy)
    returns (outcome: Completion)
    requires f.Valid()
    modifies ws`updateCalls
    ensures var plan := Render(Layout(f, row, col, includeIndex, includeColumnHeader), allowFormulas, policy);
      && (plan.Err? ==> outcome == Raised(plan.error) && ws.updateCalls == old(ws.updateCalls))
      && (plan.Ok? ==>
            && outcome == Completed
            && ws.updateCalls == old(ws.updateCalls) +
                 (if plan.value == [] then [] else [UpdateCall(plan.value, UserEntered)]))
  {
    var updates := PlanFrame(f, row, col, includeIndex, includeColumnHeader, allowFormulas, policy);
    if updates.Err? {
      return Raised(updates.error);
    }
    outcome := Completed;
    if updates.value == [] {
      return;
    }
    ws.UpdateCells(updates.value, UserEntered);
  }

  /** Lines 322-356 of `set_with_dataframes`: the same plan for every
      (frame, row) pair of `zip(dataframe_list, row_list)`, sharing `col`,
      appended together. The header is written whatever
      `includeColumnHeader` says, as the source never reads that flag. */
  method PlanFrames(frames: seq<Frame>, rowList: seq<int>, col: int, includeIndex: bool,
                    includeColumnHeader: bool, allowFormulas: bool, policy: Policy)
    returns (res: Result<seq<Update>>)
    requires AllValid(frames)
    ensures res == Render(Layouts(frames, rowList, col, includeIndex), allowFormulas, policy)
  {
    var n := Min(|frames|, |rowList|);
    var updates: seq<Update> := [];
    var i := 0;
    while i < n
      invariant 0 <= i <= n
      invariant Render(Layouts(frames[..i], rowList[..i], col, includeIndex), allowFormulas, policy) == Ok(updates)
    {
      var part := PlanFrame(frames[i], rowList[i], col, includeIndex, true, allowFormulas, policy);
      LayoutsSnoc(frames, rowList, col, includeIndex, i);
      RenderConcat(Layouts(frames[..i], rowList[..i], col, includeIndex),
                   Layout(frames[i], rowList[i], col, includeIndex, true), allowFormulas, policy);
      if part.Err? {
        RenderPrefixErr(frames, rowList, col, includeIndex, i + 1, allowFormulas, policy);
        return Err(part.error);
      }
      updates := updates + part.value;
      i := i + 1;
    }
    LayoutsTruncate(frames, rowList, col, includeIndex);
    res := Ok(updates);
  }

  /** `set_with_dataframes`: at most one USER_ENTERED `update_cells` call,
      none when nothing is planned or a `_cellrepr` raises. */
  method SetWithDataFrames(ws: Worksheet, frames: seq<Frame>, rowList: seq<int>, col: int,
                           includeIndex: bool, includeColumnHeader: bool, resize: bool,
                           allowFormulas: bool, policy: Policy)
    returns (outcome: Completion)
    requires AllValid(frames)
    modifies ws`updateCalls
    ensures var plan := Render(Layouts(frames, rowList, col, includeIndex), allowFormulas, policy);
      && (plan.Err? ==> outcome == Raised(plan.error) && ws.updateCalls == old(ws.updateCalls))
      && (plan.Ok? ==>
            && outcome == Completed
            && ws.updateCalls == old(ws.updateCalls) +
                 (if plan.value == [] then [] else [UpdateCall(plan.value, UserEntered)]))
  {
    var updates := PlanFrames(frames, rowList, col, includeIndex, includeColumnHeader, allowFormulas, policy);
    if updates.Err? {
      return Raised(updates.error);
    }
    outcome := Completed;
    if updates.value == [] {
      return;
    }
    ws.UpdateCells(updates.value, UserEntered);
  }

  // ---------------------------------------------------------------------
  // Lemmas.
  // ---------------------------------------------------------------------

  lemma PlaceRowSnoc(r: int, c: int, vals: seq<Value>, x: nat)
    requires x < |vals|
    ensures PlaceRow(r, c, vals[..x + 1]) == PlaceRow(r, c, vals[..x]) + [Placed(r, c + x, vals[x])]
  {
  }

  lemma PlaceRowsSnoc(r: int, c: int, rows: seq<seq<Value>>, y: nat)
    requires y < |rows|
    ensures PlaceRows(r, c, rows[..y + 1]) == PlaceRows(r, c, rows[..y]) + PlaceRow(r + y, c, rows[y])
  {
    assert rows[..y + 1][..y] == rows[..y];
  }

  lemma RenderSnoc(cells: seq<Placed>, p: Placed, allowFormulas: bool, policy: Policy)
    ensures Render(cells + [p], allowFormulas, policy) ==
      match Render(cells, allowFormulas, policy)
      case Err(e) => Err(e)
      case Ok(done) =>
        match CellRepr(p.value, allowFormulas, policy)
        case Err(e) => Err(e)
        case Ok(lit) => Ok(done + [Update(p.row, p.col, lit)])
  {
    assert (cells + [p])[..|cells|] == cells;
  }

  /** Rendering succeeds exactly when every value renders, and then keeps
      every position and puts `_cellrepr` of each value in its place. */
  lemma {:induction false} RenderCellwise(cells: seq<Placed>, allowFormulas: bool, policy: Policy)
    ensures Render(cells, allowFormulas, policy).Ok? <==>
      forall i :: 0 <= i < |cells| ==> CellRepr(cells[i].value, allowFormulas, policy).Ok?
    ensures Render(cells, allowFormulas, policy).Ok? ==>
      var u := Render(cells, allowFormulas, policy).value;
      && |u| == |cells|
      && forall i :: 0 <= i < |cells| ==>
           u[i] == Update(cells[i].row, cells[i].col, CellRepr(cells[i].value, allowFormulas, policy).value)
    decreases |cells|
  {
    if |cells| > 0 {
      RenderCellwise(cells[..|cells| - 1], allowFormulas, policy);
    }
  }

  /** Rendering two runs of cells one after the other is rendering each and
      joining the results. */
  lemma {:induction false} RenderConcat(a: seq<Placed>, b: seq<Placed>, allowFormulas: bool, policy: Policy)
    ensures Render(a + b, allowFormulas, policy) ==
      Join(Render(a, allowFormulas, policy), Render(b, allowFormulas, policy))
    decreases |b|
  {
    if |b| == 0 {
      assert a + b == a;
      if Render(a, allowFormulas, policy).Ok? {
        assert Render(a, allowFormulas, policy).value + [] == Render(a, allowFormulas, policy).value;
      }
    } else {
      var front := b[..|b| - 1];
      assert (a + b)[..|a + b| - 1] == a + front;
      RenderConcat(a, front, allowFormulas, policy);
      var ra, rf := Render(a, allowFormulas, policy), Render(front, allowFormulas, policy);
      if ra.Ok? && rf.Ok? {
        var lit := CellRepr(b[|b| - 1].value, allowFormulas, policy);
        if lit.Ok? {
          var last := Update(b[|b| - 1].row, b[|b| - 1].col, lit.value);
          assert ra.value + rf.value + [last] == ra.value + (rf.value + [last]);
        }
      }
    }
  }

  lemma {:induction false} PlaceRowsSize(r: int, c: int, rows: seq<seq<Value>>)
    ensures |PlaceRows(r, c, rows)| == TotalWidth(rows)
    decreases |rows|
  {
    if |rows| > 0 {
      PlaceRowsSize(r, c, rows[..|rows| - 1]);
    }
  }

  /** Value `x` of row `y` sits at sheet row `r + y`, column `c + x`,
      after all values of the earlier rows. */
  lemma {:induction false} PlaceRowsAt(r: int, c: int, rows: seq<seq<Value>>, y: nat, x: nat)
    requires y < |rows| && x < |rows[y]|
    ensures TotalWidth(rows[..y]) + x < |PlaceRows(r, c, rows)|
    ensures PlaceRows(r, c, rows)[TotalWidth(rows[..y]) + x] == Placed(r + y, c + x, rows[y][x])
    decreases |rows|
  {
    var n := |rows|;
    var front := rows[..n - 1];
    PlaceRowsSize(r, c, front);
    if y == n - 1 {
      assert rows[..y] == front;
    } else {
      assert front[..y] == rows[..y];
      PlaceRowsAt(r, c, front, y, x);
    }
  }

  /** Every cell of the rows lies in sheet rows `r` to `r + |rows| - 1`,
      and the cells come in row-major order. */
  lemma {:induction false} PlaceRowsOrdered(r: int, c: int, rows: seq<seq<Value>>)
    ensures forall i :: 0 <= i < |PlaceRows(r, c, rows)| ==>
      r <= PlaceRows(r, c, rows)[i].row < r + |rows|
    ensures RowMajor(PlaceRows(r, c, rows))
    decreases |rows|
  {
    var n := |rows|;
    if n > 0 {
      var front := rows[..n - 1];
      PlaceRowsOrdered(r, c, front);
      var a, b := PlaceRows(r, c, front), PlaceRow(r + n - 1, c, rows[n - 1]);
      assert PlaceRows(r, c, rows) == a + b;
      forall i, j | 0 <= i < j < |a + b|
        ensures Before((a + b)[i], (a + b)[j])
      {
        if j < |a| {
          assert Before(a[i], a[j]);
        }
      }
    }
  }

  /** Strictly before in row-major order. */
  predicate Before(p: Placed, q: Placed) {
    p.row < q.row || (p.row == q.row && p.col < q.col)
  }

  predicate RowMajor(cells: seq<Placed>) {
    forall i, j :: 0 <= i < j < |cells| ==> Before(cells[i], cells[j])
  }

  /** The plan has one update per header value (when a header is written)
      and one per data value, and lists them in row-major order, so no two
      updates hit the same cell. */
  lemma LayoutSizeAndOrder(f: Frame, row: int, col: int, includeIndex: bool, includeHeader: bool)
    requires f.Valid()
    ensures |Layout(f, row, col, includeIndex, includeHeader)| ==
      (if includeHeader then |HeaderValues(f, includeIndex)| else 0) + TotalWidth(DataRows(f, includeIndex))
    ensures RowMajor(Layout(f, row, col, includeIndex, includeHeader))
  {
    var h := HeaderCells(f, row, col, includeIndex, includeHeader);
    var d := PlaceRows(DataStart(row, includeHeader), col, DataRows(f, includeIndex));
    PlaceRowsSize(DataStart(row, includeHeader), col, DataRows(f, includeIndex));
    PlaceRowsOrdered(DataStart(row, includeHeader), col, DataRows(f, includeIndex));
    forall i, j | 0 <= i < j < |h + d|
      ensures Before((h + d)[i], (h + d)[j])
    {
      if j < |h| {
        assert h[i].row == row && h[j].row == row;
      } else if i >= |h| {
        assert Before(d[i - |h|], d[j - |h|]);
      } else {
        assert d[j - |h|].row >= row + 1;
      }
    }
  }

  /** With a header, the anchor row holds the index names (when the index
      is included) and then the column labels, from the anchor column on. */
  lemma LayoutHeaderAt(f: Frame, row: int, col: int, includeIndex: bool, i: nat)
    requires f.Valid()
    requires i < |HeaderValues(f, includeIndex)|
    ensures i < |Layout(f, row, col, includeIndex, true)|
    ensures Layout(f, row, col, includeIndex, true)[i] == Placed(row, col + i, HeaderValues(f, includeIndex)[i])
    ensures includeIndex && i < |f.indexNames| ==> HeaderValues(f, includeIndex)[i] == f.indexNames[i]
    ensures includeIndex && i >= |f.indexNames| ==> HeaderValues(f, includeIndex)[i] == f.labels[i - |f.indexNames|]
    ensures !includeIndex ==> HeaderValues(f, includeIndex)[i] == f.labels[i]
  {
  }

  /** Data row `y` is written on the anchor row plus `y`, one lower with a
      header, from the anchor column on, with its index values in front
      when the index is included. */
  lemma LayoutDataAt(f: Frame, row: int, col: int, includeIndex: bool, includeHeader: bool, y: nat, x: nat)
    requires f.Valid()
    requires y < |f.rows| && x < |DataRows(f, includeIndex)[y]|
    ensures var k := (if includeHeader then |HeaderValues(f, includeIndex)| else 0)
                     + TotalWidth(DataRows(f, includeIndex)[..y]) + x;
      && k < |Layout(f, row, col, includeIndex, includeHeader)|
      && Layout(f, row, col, includeIndex, includeHeader)[k] ==
           Placed(row + y + (if includeHeader then 1 else 0), col + x, DataRows(f, includeIndex)[y][x])
    ensures DataRows(f, includeIndex)[y] == (if includeIndex then f.index[y] else []) + f.rows[y]
  {
    PlaceRowsAt(DataStart(row, includeHeader), col, DataRows(f, includeIndex), y, x);
  }

  /** A plan is empty, so no request is sent, exactly when the header is
      omitted or empty and every data row, with its index values, is
      empty; in particular a table with no rows and an empty or omitted
      header plans nothing. */
  lemma EmptyPlanExactly(f: Frame, row: int, col: int, includeIndex: bool, includeHeader: bool,
                         allowFormulas: bool, policy: Policy)
    requires f.Valid()
    ensures Layout(f, row, col, includeIndex, includeHeader) == [] <==>
      (includeHeader ==> HeaderValues(f, includeIndex) == []) && TotalWidth(DataRows(f, includeIndex)) == 0
    ensures Render(Layout(f, row, col, includeIndex, includeHeader), allowFormulas, policy) == Ok([]) <==>
      (includeHeader ==> HeaderValues(f, includeIndex) == []) && TotalWidth(DataRows(f, includeIndex)) == 0
    ensures f.rows == [] ==> TotalWidth(DataRows(f, includeIndex)) == 0
  {
    var cells := Layout(f, row, col, includeIndex, includeHeader);
    LayoutSizeAndOrder(f, row, col, includeIndex, includeHeader);
    RenderCellwise(cells, allowFormulas, policy);
  }

  lemma LayoutsSnoc(frames: seq<Frame>, rowList: seq<int>, col: int, includeIndex: bool, i: nat)
    requires AllValid(frames)
    requires i < |frames| && i < |rowList|
    ensures Layouts(frames[..i + 1], rowList[..i + 1], col, includeIndex) ==
      Layouts(frames[..i], rowList[..i], col, includeIndex) + Layout(frames[i], rowList[i], col, includeIndex, true)
  {
    assert frames[..i + 1][..i] == frames[..i];
    assert rowList[..i + 1][..i] == rowList[..i];
  }

  /** `zip` drops the pairs beyond the shorter list. */
  lemma LayoutsTruncate(frames: seq<Frame>, rowList: seq<int>, col: int, includeIndex: bool)
    requires AllValid(frames)
    ensures var n := Min(|frames|, |rowList|);
      Layouts(frames, rowList, col, includeIndex) == Layouts(frames[..n], rowList[..n], col, includeIndex)
  {
    var n := Min(|frames|, |rowList|);
    if n > 0 {
      assert frames[..n][..n - 1] == frames[..n - 1];
      assert rowList[..n][..n - 1] == rowList[..n - 1];
    }
  }

  /** The layout of the first `k` pairs begins the layout of all of them. */
  lemma {:induction false} LayoutsPrefix(frames: seq<Frame>, rowList: seq<int>, col: int, includeIndex: bool, k: nat)
    requires AllValid(frames)
    requires k <= Min(|frames|, |rowList|)
    ensures Layouts(frames[..k], rowList[..k], col, includeIndex) <= Layouts(frames, rowList, col, includeIndex)
    decreases |frames|
  {
    var n := Min(|frames|, |rowList|);
    if k == n {
      LayoutsTruncate(frames, rowList, col, includeIndex);
    } else {
      var fs, rs := frames[..n - 1], rowList[..n - 1];
      var front := Layouts(fs, rs, col, includeIndex);
      var whole := Layouts(frames, rowList, col, includeIndex);
      assert whole == front + Layout(frames[n - 1], rowList[n - 1], col, includeIndex, true);
      LayoutsPrefix(fs, rs, col, includeIndex, k);
      assert fs[..k] == frames[..k] && rs[..k] == rowList[..k];
    }
  }

  /** A failure in a prefix of the cells fails the whole rendering. */
  lemma RenderErrExtends(a: seq<Placed>, b: seq<Placed>, allowFormulas: bool, policy: Policy)
    requires a <= b && Render(a, allowFormulas, policy).Err?
    ensures Render(b, allowFormulas, policy).Err?
  {
    assert b == a + b[|a|..];
    RenderConcat(a, b[|a|..], allowFormulas, policy);
  }

  /** The cells of the first `k` rows begin the cells of all rows. */
  lemma {:induction false} PlaceRowsPrefix(r: int, c: int, rows: seq<seq<Value>>, k: nat)
    requires k <= |rows|
    ensures PlaceRows(r, c, rows[..k]) <= PlaceRows(r, c, rows)
    decreases |rows|
  {
    if k < |rows| {
      var front := rows[..|rows| - 1];
      assert front[..k] == rows[..k];
      PlaceRowsPrefix(r, c, front, k);
    } else {
      assert rows[..k] == rows;
    }
  }

  lemma RenderPrefixErr(frames: seq<Frame>, rowList: seq<int>, col: int, includeIndex: bool, k: nat,
                        allowFormulas: bool, policy: Policy)
    requires AllValid(frames)
    requires k <= Min(|frames|, |rowList|)
    requires Render(Layouts(frames[..k], rowList[..k], col, includeIndex), allowFormulas, policy).Err?
    ensures Render(Layouts(frames, rowList, col, includeIndex), allowFormulas, policy).Err?
  {
    var pre := Layouts(frames[..k], rowList[..k], col, includeIndex);
    var all := Layouts(frames, rowList, col, includeIndex);
    LayoutsPrefix(frames, rowList, col, includeIndex, k);
    RenderErrExtends(pre, all, allowFormulas, policy);
  }

  /** The multi-table plan is the single-table plans of the pairs, each
      with a header, joined in list order. */
  lemma FramesPlanIsJoin(frames: seq<Frame>, rowList: seq<int>, col: int, includeIndex: bool,
                         allowFormulas: bool, policy: Policy)
    requires AllValid(frames) && Min(|frames|, |rowList|) > 0
    ensures var n := Min(|frames|, |rowList|);
      Render(Layouts(frames, rowList, col, includeIndex), allowFormulas, policy) ==
      Join(Render(Layouts(frames[..n - 1], rowList[..n - 1], col, includeIndex), allowFormulas, policy),
           Render(Layout(frames[n - 1], rowList[n - 1], col, includeIndex, true), allowFormulas, policy))
  {
    var n := Min(|frames|, |rowList|);
    RenderConcat(Layouts(frames[..n - 1], rowList[..n - 1], col, includeIndex),
                 Layout(frames[n - 1], rowList[n - 1], col, includeIndex, true), allowFormulas, policy);
  }
}
