/** The read path's grid step (`_get_all_values`): the cells of the
    gap-filled values are listed with 1-based coordinates, collected into a
    row-to-column dictionary, and read back as a dense row-major rectangle
    whose missing cells are empty strings. */
module GridFill {
  import opened Common

  /** gspread's `Cell`: 1-based row and column and the cell's value. */
  datatype Cell = Cell(row: nat, col: nat, value: string)

  /** The rows-of-columns dictionary that `_get_all_values` fills. */
  type RowMap = map<nat, map<nat, string>>

  // ---------------------------------------------------------------------
  // Specification of the dense grid, by recursion over the cell list.
  // ---------------------------------------------------------------------

  /** The value the last cell at (r, c) carries; later cells overwrite
      earlier ones, as dictionary assignment does. */
  function Lookup(cells: seq<Cell>, r: nat, c: nat): Option<string>
    decreases |cells|
  {
    if |cells| == 0 then None
    else
      var last := cells[|cells| - 1];
      if last.row == r && last.col == c then Some(last.value)
      else Lookup(cells[..|cells| - 1], r, c)
  }

  predicate RowPresent(cells: seq<Cell>, r: nat)
    decreases |cells|
  {
    |cells| > 0 && (cells[|cells| - 1].row == r || RowPresent(cells[..|cells| - 1], r))
  }

  function MaxRow(cells: seq<Cell>): nat
    decreases |cells|
  {
    if |cells| == 0 then 0 else Max(MaxRow(cells[..|cells| - 1]), cells[|cells| - 1].row)
  }

  function MaxCol(cells: seq<Cell>): nat
    decreases |cells|
  {
    if |cells| == 0 then 0 else Max(MaxCol(cells[..|cells| - 1]), cells[|cells| - 1].col)
  }

  /** A cell's value, or the empty string for a cell nobody listed. */
  function ValueAt(cells: seq<Cell>, r: nat, c: nat): string {
    match Lookup(cells, r, c)
    case Some(v) => v
    case None => ""
  }

  /** The dense grid: no rows for no cells, otherwise `MaxRow` rows of
      `MaxCol` columns, cell (r, c) at index [r - 1][c - 1]. */
  function Dense(cells: seq<Cell>): seq<seq<string>> {
    if |cells| == 0 then []
    else
      var rows, cols := MaxRow(cells), MaxCol(cells);
      seq(rows, i requires 0 <= i < rows =>
        seq(cols, j requires 0 <= j < cols => ValueAt(cells, i + 1, j + 1)))
  }

  /** The comprehension that lists the cells of the gap-filled values,
      row by row, with 1-based coordinates. */
  function Enumerate(rect: seq<seq<string>>): seq<Cell>
    decreases |rect|
  {
    if |rect| == 0 then []
    else Enumerate(rect[..|rect| - 1]) + RowCells(|rect|, rect[|rect| - 1])
  }

  function RowCells(r: nat, row: seq<string>): seq<Cell> {
    seq(|row|, j requires 0 <= j < |row| => Cell(r, j + 1, row[j]))
  }

  /** What gspread's `fill_gaps` returns: every row as long as the first. */
  predicate Rectangular(rect: seq<seq<string>>) {
    forall i :: 0 <= i < |rect| ==> |rect[i]| == |rect[0]|
  }

  // ---------------------------------------------------------------------
  // The imperative algorithm.
  // ---------------------------------------------------------------------

  /** `rows[r][c]` read through the defaultdicts: missing is "". */
  function Get(rows: RowMap, r: nat, c: nat): string {
    if r in rows && c in rows[r] then rows[r][c] else ""
  }

  /** The dictionary holds exactly the rows and cells the list names, each
      with the value of the last cell at that place. */
  ghost predicate Indexed(rows: RowMap, cells: seq<Cell>) {
    && (forall r :: r in rows <==> RowPresent(cells, r))
    && (forall r, c :: r in rows ==> (c in rows[r] <==> Lookup(cells, r, c).Some?))
    && (forall r, c :: r in rows && c in rows[r] ==> rows[r][c] == Lookup(cells, r, c).value)
  }

  /** Lines 137-150 of `_get_all_values`: fill the nested dictionary in a
      loop, take the largest row and column keys, and read the rectangle
      out through the defaultdicts. */
  method Densify(cells: seq<Cell>) returns (grid: seq<seq<string>>)
    ensures grid == Dense(cells)
  {
    var rows: RowMap := map[];
    var k := 0;
    while k < |cells|
      invariant 0 <= k <= |cells|
      invariant Indexed(rows, cells[..k])
    {
      var cell := cells[k];
      if cell.row !in rows {
        forall c | Lookup(cells[..k], cell.row, c).Some?
          ensures false
        {
          LookupBounded(cells[..k], cell.row, c);
        }
      }
      var row := if cell.row in rows then rows[cell.row] else map[];
      rows := rows[cell.row := row[cell.col := cell.value]];
      assert cells[..k + 1][..k] == cells[..k];
      k := k + 1;
    }
    assert cells[..k] == cells;
    assert |cells| > 0 ==> cells[|cells| - 1].row in rows;
    if rows == map[] {
      return [];
    }

    // The largest keys: rows over `rows.keys()`, columns over the chain of
    // every row's keys.
    var maxRow, maxCol := 0, 0;
    var pending := rows.Keys;
    while pending != {}
      invariant pending <= rows.Keys
      invariant maxRow <= MaxRow(cells) && maxCol <= MaxCol(cells)
      invariant forall r :: r in rows && r !in pending ==> r <= maxRow
      invariant forall r, c :: r in rows && r !in pending && c in rows[r] ==> c <= maxCol
      decreases pending
    {
      var r :| r in pending;
      RowPresentBounded(cells, r);
      if r > maxRow {
        maxRow := r;
      }
      var colsLeft := rows[r].Keys;
      while colsLeft != {}
        invariant colsLeft <= rows[r].Keys
        invariant maxRow <= MaxRow(cells) && maxCol <= MaxCol(cells)
        invariant forall c :: c in rows[r] && c !in colsLeft ==> c <= maxCol
        invariant forall r', c :: r' in rows && r' !in pending && c in rows[r'] ==> c <= maxCol
        decreases colsLeft
      {
        var c :| c in colsLeft;
        LookupBounded(cells, r, c);
        if c > maxCol {
          maxCol := c;
        }
        colsLeft := colsLeft - {c};
      }
      pending := pending - {r};
    }
    MaxRowAttained(cells);
    var top := MaxColAttained(cells);
    LookupBounded(cells, top, MaxCol(cells));
    assert maxRow == MaxRow(cells) && maxCol == MaxCol(cells);

    grid := seq(maxRow, i requires 0 <= i < maxRow =>
      seq(maxCol, j requires 0 <= j < maxCol => Get(rows, i + 1, j + 1)));
    forall r, c | 1 <= r <= maxRow && 1 <= c <= maxCol
      ensures Get(rows, r, c) == ValueAt(cells, r, c)
    {
      if Lookup(cells, r, c).Some? {
        LookupBounded(cells, r, c);
      }
    }
    forall i | 0 <= i < maxRow
      ensures grid[i] == Dense(cells)[i]
    {
    }
  }

  /** `_get_all_values` from the gap-filled values on: list the cells
      (lines 131-135), then densify them. On the rectangle that `fill_gaps`
      returns, the whole step gives that rectangle back, or no rows when it
      has no cells. */
  method GetAllValues(rectValues: seq<seq<string>>) returns (grid: seq<seq<string>>)
    ensures grid == Dense(Enumerate(rectValues))
    ensures Rectangular(rectValues) ==>
      grid == (if |rectValues| == 0 || |rectValues[0]| == 0 then [] else rectValues)
  {
    var cells := Enumerate(rectValues);
    grid := Densify(cells);
    if Rectangular(rectValues) && |rectValues| > 0 {
      EnumerateBounds(rectValues, |rectValues[0]|);
      if |rectValues[0]| > 0 {
        DenseOfEnumerate(rectValues);
      }
    }
  }

  // ---------------------------------------------------------------------
  // Lemmas about the specification.
  // ---------------------------------------------------------------------

  lemma {:induction false} RowPresentBounded(cells: seq<Cell>, r: nat)
    requires RowPresent(cells, r)
    ensures r <= MaxRow(cells)
    decreases |cells|
  {
    var n := |cells|;
    if cells[n - 1].row != r {
      RowPresentBounded(cells[..n - 1], r);
    }
  }

  /** A listed cell lies inside the bounds and its row is present. */
  lemma {:induction false} LookupBounded(cells: seq<Cell>, r: nat, c: nat)
    requires Lookup(cells, r, c).Some?
    ensures RowPresent(cells, r) && r <= MaxRow(cells) && c <= MaxCol(cells)
    decreases |cells|
  {
    var n := |cells|;
    if !(cells[n - 1].row == r && cells[n - 1].col == c) {
      LookupBounded(cells[..n - 1], r, c);
    }
  }

  lemma {:induction false} MaxRowAttained(cells: seq<Cell>)
    requires |cells| > 0
    ensures RowPresent(cells, MaxRow(cells))
    decreases |cells|
  {
    var n := |cells|;
    if n > 1 && MaxRow(cells[..n - 1]) > cells[n - 1].row {
      MaxRowAttained(cells[..n - 1]);
    }
  }

  /** Some listed cell sits in the rightmost column; `r` is its row. */
  lemma {:induction false} MaxColAttained(cells: seq<Cell>) returns (r: nat)
    requires |cells| > 0
    ensures Lookup(cells, r, MaxCol(cells)).Some?
    decreases |cells|
  {
    var n := |cells|;
    if n > 1 && MaxCol(cells[..n - 1]) > cells[n - 1].col {
      r := MaxColAttained(cells[..n - 1]);
    } else {
      r := cells[n - 1].row;
    }
  }

  /** The last cell listed at a place is the one the grid shows there. */
  lemma {:induction false} LookupLast(cells: seq<Cell>, k: nat)
    requires k < |cells|
    requires forall j :: k < j < |cells| ==> cells[j].row != cells[k].row || cells[j].col != cells[k].col
    ensures Lookup(cells, cells[k].row, cells[k].col) == Some(cells[k].value)
    decreases |cells|
  {
    var n := |cells|;
    if k < n - 1 {
      LookupLast(cells[..n - 1], k);
    }
  }

  lemma {:induction false} LookupAbsent(cells: seq<Cell>, r: nat, c: nat)
    requires forall k :: 0 <= k < |cells| ==> cells[k].row != r || cells[k].col != c
    ensures Lookup(cells, r, c) == None
    decreases |cells|
  {
    if |cells| > 0 {
      LookupAbsent(cells[..|cells| - 1], r, c);
    }
  }

  /** The grid is exactly as tall and as wide as the cells need: every
      listed cell with positive coordinates fits, some cell sits in the
      last row, and the cell at `row` sits in the last column. */
  lemma DenseShape(cells: seq<Cell>) returns (row: nat)
    requires |cells| > 0
    ensures |Dense(cells)| == MaxRow(cells)
    ensures forall i :: 0 <= i < |Dense(cells)| ==> |Dense(cells)[i]| == MaxCol(cells)
    ensures forall k :: 0 <= k < |cells| ==> cells[k].row <= MaxRow(cells) && cells[k].col <= MaxCol(cells)
    ensures RowPresent(cells, MaxRow(cells))
    ensures Lookup(cells, row, MaxCol(cells)).Some?
  {
    forall k | 0 <= k < |cells|
      ensures cells[k].row <= MaxRow(cells) && cells[k].col <= MaxCol(cells)
    {
      LookupSome(cells, k);
      LookupBounded(cells, cells[k].row, cells[k].col);
    }
    MaxRowAttained(cells);
    row := MaxColAttained(cells);
  }

  lemma {:induction false} LookupSome(cells: seq<Cell>, k: nat)
    requires k < |cells|
    ensures Lookup(cells, cells[k].row, cells[k].col).Some?
    decreases |cells|
  {
    var n := |cells|;
    if k < n - 1 && !(cells[n - 1].row == cells[k].row && cells[n - 1].col == cells[k].col) {
      LookupSome(cells[..n - 1], k);
    }
  }

  /** A present cell (r, c, v) with no later cell at its place appears at
      [r - 1][c - 1]. */
  lemma DensePlacement(cells: seq<Cell>, k: nat)
    requires k < |cells| && cells[k].row >= 1 && cells[k].col >= 1
    requires forall j :: k < j < |cells| ==> cells[j].row != cells[k].row || cells[j].col != cells[k].col
    ensures cells[k].row <= |Dense(cells)| && cells[k].col <= |Dense(cells)[cells[k].row - 1]|
    ensures Dense(cells)[cells[k].row - 1][cells[k].col - 1] == cells[k].value
  {
    LookupLast(cells, k);
    LookupBounded(cells, cells[k].row, cells[k].col);
  }

  /** A place inside the rectangle that no cell names is the empty string. */
  lemma DenseBlank(cells: seq<Cell>, r: nat, c: nat)
    requires 1 <= r <= MaxRow(cells) && 1 <= c <= MaxCol(cells)
    requires forall k :: 0 <= k < |cells| ==> cells[k].row != r || cells[k].col != c
    ensures r <= |Dense(cells)| && c <= |Dense(cells)[r - 1]|
    ensures Dense(cells)[r - 1][c - 1] == ""
  {
    LookupAbsent(cells, r, c);
    assert |cells| > 0;
    assert Dense(cells)[r - 1][c - 1] == ValueAt(cells, r, c);
  }

  lemma {:induction false} LookupConcat(a: seq<Cell>, b: seq<Cell>, r: nat, c: nat)
    ensures Lookup(a + b, r, c) == if Lookup(b, r, c).Some? then Lookup(b, r, c) else Lookup(a, r, c)
    decreases |b|
  {
    if |b| == 0 {
      assert a + b == a;
    } else {
      assert (a + b)[..|a + b| - 1] == a + b[..|b| - 1];
      LookupConcat(a, b[..|b| - 1], r, c);
    }
  }

  lemma {:induction false} MaxConcat(a: seq<Cell>, b: seq<Cell>)
    ensures MaxRow(a + b) == Max(MaxRow(a), MaxRow(b))
    ensures MaxCol(a + b) == Max(MaxCol(a), MaxCol(b))
    decreases |b|
  {
    if |b| == 0 {
      assert a + b == a;
    } else {
      assert (a + b)[..|a + b| - 1] == a + b[..|b| - 1];
      MaxConcat(a, b[..|b| - 1]);
    }
  }

  lemma {:induction false} RowCellsFacts(r: nat, row: seq<string>, i: nat, c: nat)
    ensures Lookup(RowCells(r, row), i, c) == if i == r && 1 <= c <= |row| then Some(row[c - 1]) else None
    ensures MaxRow(RowCells(r, row)) == (if |row| == 0 then 0 else r)
    ensures MaxCol(RowCells(r, row)) == |row|
    decreases |row|
  {
    var n := |row|;
    if n > 0 {
      assert RowCells(r, row)[..n - 1] == RowCells(r, row[..n - 1]);
      RowCellsFacts(r, row[..n - 1], i, c);
    }
  }

  /** The listed cells of a grid name exactly its places. */
  lemma {:induction false} EnumerateLookup(rect: seq<seq<string>>, i: nat, j: nat)
    ensures Lookup(Enumerate(rect), i, j) ==
      if 1 <= i <= |rect| && 1 <= j <= |rect[i - 1]| then Some(rect[i - 1][j - 1]) else None
    decreases |rect|
  {
    var n := |rect|;
    if n > 0 {
      var front := rect[..n - 1];
      LookupConcat(Enumerate(front), RowCells(n, rect[n - 1]), i, j);
      RowCellsFacts(n, rect[n - 1], i, j);
      EnumerateLookup(front, i, j);
    }
  }

  lemma {:induction false} EnumerateBounds(rect: seq<seq<string>>, w: nat)
    requires forall k :: 0 <= k < |rect| ==> |rect[k]| == w
    ensures MaxRow(Enumerate(rect)) == (if w == 0 then 0 else |rect|)
    ensures MaxCol(Enumerate(rect)) == (if |rect| == 0 then 0 else w)
    ensures w == 0 ==> Enumerate(rect) == []
    decreases |rect|
  {
    var n := |rect|;
    if n > 0 {
      var front := rect[..n - 1];
      EnumerateBounds(front, w);
      MaxConcat(Enumerate(front), RowCells(n, rect[n - 1]));
      RowCellsFacts(n, rect[n - 1], 0, 0);
    }
  }

  /** Round trip: listing the cells of a rectangle with at least one row
      and one column and densifying them gives the rectangle back. */
  lemma DenseOfEnumerate(rect: seq<seq<string>>)
    requires Rectangular(rect) && |rect| > 0 && |rect[0]| > 0
    ensures Dense(Enumerate(rect)) == rect
  {
    var cells := Enumerate(rect);
    var w := |rect[0]|;
    EnumerateBounds(rect, w);
    DenseSize(cells);
    var grid := Dense(cells);
    forall i | 0 <= i < |rect|
      ensures grid[i] == rect[i]
    {
      forall j | 0 <= j < w
        ensures grid[i][j] == rect[i][j]
      {
        DenseAt(cells, i, j);
        EnumerateLookup(rect, i + 1, j + 1);
      }
    }
  }

  lemma DenseSize(cells: seq<Cell>)
    requires MaxRow(cells) > 0
    ensures |Dense(cells)| == MaxRow(cells)
    ensures forall i :: 0 <= i < MaxRow(cells) ==> |Dense(cells)[i]| == MaxCol(cells)
  {
  }

  lemma DenseAt(cells: seq<Cell>, i: nat, j: nat)
    requires i < MaxRow(cells) && j < MaxCol(cells)
    ensures i < |Dense(cells)| && j < |Dense(cells)[i]|
    ensures Dense(cells)[i][j] == ValueAt(cells, i + 1, j + 1)
  {
  }
}
