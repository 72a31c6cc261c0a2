# gspread-dataframe core, modelled in Dafny

`gspread_dataframe` moves pandas DataFrames in and out of Google Sheets
worksheets through gspread. This project models the parts of it that make
decisions:

- **Cell literals** (`CellLiteral`, `cell_literal.dfy`). `_escaped_string` and
  `_cellrepr` turn one table value into the literal sent to Sheets. Nulls become
  `""`. Real numbers, Python `bool` included, pass through. With formulas disallowed,
  text starting with `=` gets an apostrophe in front. Other text goes through the
  `string_escaping` policy: `default`, `off`, `full`, a callable, or anything else,
  which raises. A table value is `Null | Real(Number) | Text | Other(repr)`. The
  policy is `Default | Off | Full | Predicate(string -> bool) | Unrecognized`. The
  `ValueError` is the `Err` branch of a `Result`.
- **Grid densification** (`GridFill`, `grid_fill.dfy`). `_get_all_values` lists
  the gap-filled values as 1-based cells and fills a nested defaultdict in a loop.
  It then reads out a `max row × max col` rectangle whose missing cells are `""`.
  `Densify` is that loop, proved equal to `Dense`. `Dense` is a sequence
  comprehension over the recursive `Lookup`, `MaxRow` and `MaxCol`.
- **Minimum resize** (`Sheet`, `worksheet.dfy`). The `Worksheet` class has its row
  and column counts and ghost logs of its `resize` and `update_cells` calls.
  `ResizeToMinimum` calls `resize` only when a dimension would grow, and passes
  `None` for each dimension that would not.
- **Update planning** (`UpdatePlan`, `update_plan.dfy`). `set_with_dataframe` and
  `set_with_dataframes` build the ordered `(row, col, literal)` list and make at
  most one USER_ENTERED `update_cells` call. A DataFrame is abstracted as `Frame`:
  column labels, index names, one index value per row (a scalar index value is one
  element), and the data rows. `Layout` says where each value goes. `Render`
  applies `_cellrepr` to each. The writers' nested loops are proved equal to them.

Behaviour of the code worth noting:

- Neither writer ever resizes the sheet. Both accept `resize` (lines 189, 282) and never read it.
- An unrecognised `string_escaping` raises `ValueError` (line 62), and only for
  non-empty text that the formula rule does not catch.
- Python `bool` is a `numbers.Real`, so `_cellrepr` passes it through unchanged
  (line 80). numpy's `bool_`, which a boolean column's `dataframe.values`
  yields, is not, so it is stringified (lines 82-83). The model gives such a
  value as `Other("True")` or `Other("False")`.
- An empty DataFrame written with `include_index=True` and a header still sends
  its index-name header cell(s). pandas gives a plain index the names `[None]`,
  which `_cellrepr` turns into `""` (lines 235-248). Nothing is sent (lines
  266-268) exactly when the header is omitted or empty and every data row, with
  its index values, is empty (`EmptyPlanExactly`). A frame with rows but no
  columns, written without the index, therefore sends nothing.
- `_get_all_values` reads the declared worksheet size only to pass it to
  `fill_gaps` (lines 122-129). The densification uses only the cells it is given.
- `set_with_dataframes` always writes a header row (lines 324-340). It never reads
  `include_column_header`.

## Model

| member | source | states |
|---|---|---|
| CellLiteral.EscapedString | gspread_dataframe.py:48-66 | `None` and `""` give `""` under every policy, even an unrecognised one. It raises exactly when the text is non-empty and the policy is unrecognised. Otherwise the result is the text or the text with one apostrophe in front. |
| CellLiteral.PolicyDecisions | gspread_dataframe.py:51-65 | For non-empty text: `default` adds the apostrophe exactly when the text starts with one. `off` never adds it and `full` always does. A callable adds it exactly when it returns true. Any other policy raises. |
| CellLiteral.EscapingPreservesText | gspread_dataframe.py:210-216 | For a recognised policy, the text Sheets keeps after removing a leading apostrophe equals the input exactly when the apostrophe was added or the input does not start with one. So `default` and `full` always keep the text. |
| CellLiteral.CellRepr | gspread_dataframe.py:69-90 | A null value gives `""` and a non-null real number is passed through unchanged. A number literal only comes from a number. |
| CellLiteral.FormulaEscapeFirst | gspread_dataframe.py:87-88 | With formulas disallowed, text starting with `=` gets the apostrophe whatever the policy, so even an unrecognised one raises nothing. |
| CellLiteral.EscapingAfterFormulaRule | gspread_dataframe.py:87-90 | The policy decides all text when formulas are allowed. With formulas disallowed, it decides all text not starting with `=`. Either way the literal is `_escaped_string` of the stringified value, or its error. |
| CellLiteral.NoFormulaWhenDisallowed | gspread_dataframe.py:207-209 | With formulas disallowed, no text literal that is produced starts with `=`. |
| CellLiteral.CellReprRaises | gspread_dataframe.py:78-90 | `_cellrepr` raises iff the policy is unrecognised and the value is non-null, non-numeric, non-empty text not caught by the formula rule. |
| GridFill.Densify | gspread_dataframe.py:137-150 | The dictionary-filling loop and the max-key loops produce exactly `Dense(cells)`. |
| GridFill.GetAllValues | gspread_dataframe.py:131-150 | The result is `Dense` of the enumerated cells. For a rectangular `fill_gaps` result it is that rectangle, or `[]` when there are no cells. |
| GridFill.DenseShape | gspread_dataframe.py:143-150 | For cells present, the grid has `max row` rows each of `max col` columns. Every cell fits, some cell lies in the last row, and the cell at the returned row lies in the last column. |
| GridFill.DensePlacement | gspread_dataframe.py:138-141 | A present cell `(r, c, v)` with no later cell at the same place appears at `[r-1][c-1]`. |
| GridFill.DenseBlank | gspread_dataframe.py:138 | A place inside the rectangle that no cell names holds `""`. |
| GridFill.EnumerateLookup | gspread_dataframe.py:131-135 | The enumerated cells name exactly the places of the values, with 1-based coordinates and their values. |
| GridFill.DenseOfEnumerate | gspread_dataframe.py:131-150 | Densifying the enumeration of a rectangle with at least one row and one column gives the rectangle back. |
| Sheet.Worksheet.constructor | gspread_dataframe.py:101 | A sheet starts with the given counts and empty call logs. |
| Sheet.Worksheet.Resize | gspread_dataframe.py:108 | `resize` logs its arguments. Each given dimension becomes the sheet's new size. |
| Sheet.Worksheet.UpdateCells | gspread_dataframe.py:273 | `update_cells` logs one batch request with its cells and input option. |
| Sheet.ResizeToMinimum | gspread_dataframe.py:93-108 | Logs exactly the call `MinimumResize` gives, or none. Afterwards each count is the larger of the old count and the request. |
| Sheet.MinimumResizeOnlyGrows | gspread_dataframe.py:101-108 | A resize happens iff requested rows or cols exceed the current ones. A dimension that does not exceed is passed as `None`. A larger one is passed unchanged. |
| Sheet.MinimumResizeSettles | gspread_dataframe.py:93-108 | After the resize, the sheet is at least as large as before and as requested. Asking again makes no call. |
| UpdatePlan.AppendRow | gspread_dataframe.py:243-248 | Appending one sheet row of values gives the rendering of the placed cells so far followed by that row. |
| UpdatePlan.CollectRows | gspread_dataframe.py:251-257 | The collected rows are the data rows, with each index value in front when the index is included. |
| UpdatePlan.AppendRows | gspread_dataframe.py:258-264 | Appending every data row gives the rendering of the placed cells so far followed by all rows from the given start row. |
| UpdatePlan.PlanFrame | gspread_dataframe.py:230-264 | The update list is `Render(Layout(...))`: `_cellrepr` of every header and data value at its position, or the error. |
| UpdatePlan.SetWithDataFrame | gspread_dataframe.py:230-273 | A raising `_cellrepr` means no call. Otherwise exactly one USER_ENTERED `update_cells` with the plan when it is non-empty, and none when it is empty. `resize` is never used. |
| UpdatePlan.PlanFrames | gspread_dataframe.py:322-356 | The update list is the rendering of the concatenated single-table layouts, each with a header, for the pairs of `zip`, sharing `col`. |
| UpdatePlan.SetWithDataFrames | gspread_dataframe.py:322-364 | At most one USER_ENTERED `update_cells` call, with the whole plan. None when the plan is empty or raises. |
| UpdatePlan.RenderCellwise | gspread_dataframe.py:243-264 | Rendering succeeds iff every value renders. It then keeps every position and puts `_cellrepr` of each value in its place. |
| UpdatePlan.RenderConcat | gspread_dataframe.py:323-356 | Rendering two runs of cells in sequence is rendering each and joining the updates, or failing if either fails. |
| UpdatePlan.LayoutSizeAndOrder | gspread_dataframe.py:232-264 | There are exactly (header length when written) + (sum of row widths) updates, in strict row-major order, so no cell is written twice. |
| UpdatePlan.LayoutHeaderAt | gspread_dataframe.py:232-248 | With a header, the anchor row holds the index names (when the index is included), then the labels, at columns `col, col+1, …`. |
| UpdatePlan.LayoutDataAt | gspread_dataframe.py:249-264 | Value `x` of data row `y` goes to row anchor+`y` (+1 after a header), column `col+x`, right after all earlier values. The row has its index values in front when the index is included. |
| UpdatePlan.EmptyPlanExactly | gspread_dataframe.py:232-268 | The plan is empty, and so no request is sent, iff the header is omitted or empty and every data row with its index values is empty. In particular a frame with no rows and an empty or omitted header sends nothing. |
| UpdatePlan.LayoutsTruncate | gspread_dataframe.py:323 | `zip` drops the pairs beyond the shorter of the frame list and the row list. |
| UpdatePlan.LayoutsPrefix | gspread_dataframe.py:322-356 | The plan for the first `k` pairs is a prefix of the whole plan. |
| UpdatePlan.FramesPlanIsJoin | gspread_dataframe.py:322-356 | The multi-table plan is the plan of all pairs but the last, joined with that last pair's single-table plan (which has a header). |

## Left out

- The pandas version check at import (gspread_dataframe.py:34-43) is a module-load side effect on a foreign version string.
- `values_get` and its render options (lines 112-120) are a network call. The model starts from the returned values. They are modelled as strings, although `UNFORMATTED_VALUE` can also return numbers.
- gspread's `fill_gaps` (lines 125-129) is library code that is not part of this model. Its result appears only as the `Rectangular` hypothesis of `GetAllValues`.
- `get_as_dataframe` and pandas' `TextParser` (lines 153-168) are a thin wrapper over an external parser.
- `_determine_index_column_size` and `_determine_column_header_size` (lines 171-180) depend on pandas `levshape` and are never called.
- SetWithDataFrames: takes `row_list` only as a list of rows. An integer `row_list`, including the default `1` (line 278), makes `zip` at line 323 raise `TypeError` before anything is planned. That error path is not modelled.
- The writers' `resize` flag (lines 189, 282) is accepted and never acted on. They never call `_resize_to_minimum`.
- `pd.isnull`, `str()`, `ensure_text` and DataFrame attribute access are replaced by the `Value` datatype and its fields. `Other(repr)` carries the result of `str()`.
- Floating-point values are opaque bit patterns with no arithmetic. NaN counts as null, as `pd.isnull` reports it.
- A `string_escaping` callable is a total, side-effect-free function. A callable that raises or has effects is not modelled.
- The effect of gspread's own `resize` and `update_cells` is outside this model. `Worksheet.Resize` assumes each given dimension becomes the new size. Both methods record their arguments in ghost logs, and the Sheets request itself is not modelled.
- Logging calls are left out; they decide nothing.
