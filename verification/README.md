# texttable in Dafny

A model of `texttable.py`, a small module that prints a table whose cells may span
several rows and columns as ASCII art. A table is a list of rows, and each row is a list of
`Cell(colspan, rowspan, contents)`. `pprint_table` works in three stages:

1. `determine_layout` places the cells in a growing two-dimensional grid (an `xlist`), in
   row-major order. The k-th cell gets id `k`, and its id is written over the rectangle that
   `find_next_box` picks for it.
2. `calculate_colsize` turns the grid into column widths. First it takes the widest
   one-column cell of each column. Then, in id order, it widens the spans of cells that
   cover several columns.
3. `print_table_cols` writes a `+---+` border, one `|`-framed line per grid row, and the
   border again.

The model makes each stage a pure function over immutable values:

| Dafny module | Models |
|---|---|
| `Cells` | cells, ids, grids |
| `Text` | `pad`, string repetition, sums |
| `XList` | reads and writes that grow the grid |
| `Layout` | `find_next_col`, `find_next_box`, `determine_layout` |
| `LayoutFacts` | what the final grid shows |
| `ColSize` | `find_cell`, `calculate_colsize` |
| `Render` | `print_table_cols` |
| `TextTable` | `pprint_table` |

Reads of the `xlist` grow it too (`l[i]`, `l[i][j]`), so every read that can grow the grid
on an accepted input returns the grown grid along with the value. The reads of step 1 of
`calculate_colsize`, of `find_cell` and of `print_table_cols` index the grid directly: their
preconditions ensure that those reads stay inside the grid, so they never grow it.

Where the code and what its comments suggest part ways, the model follows the code:

- **`find_next_box` never retries.** On a collision the `break` leaves only the inner
  `for` loop. The `for ... else` then breaks out of the `while`, so the loop body runs
  exactly once. The column returned is the largest first free column over the rows of the
  span, whether or not the box is free. A later cell can therefore overwrite part of an
  earlier one; `Overlap.Overwritten` exhibits such a table.
- **Step 2 of `calculate_colsize` gives the whole shortfall to the first spanned column.**
  `x` is never incremented, so `cs[x % len(cols)]` is always `cs[0]`.
- **The shortfall ignores separators.** It is computed without the `|` separators that a
  span also covers. Each span's column widths alone therefore reach the contents' length,
  which is stronger than the padded width the renderer needs.
- **The code raises no error of its own.** The empty table prints `"++\n|\n++\n"`,
  because the `l[0]` read in `calculate_colsize` grows the empty grid by an empty row. The
  failures that remain are Python's own (`KeyError`, `IndexError`, `max` of an empty
  list, and the `ZeroDivisionError` of `x % len(cols)` when there are no columns but a
  zero-column cell has contents, as in `[[Cell(0, 1, "x")]]`). The model states them as
  preconditions.
- **`l[i][j] not in cmap` is also true for an empty position.** An empty position prints
  as a blank, like a position whose cell has already been printed.

## Model

| member | source | states |
|---|---|---|
| Text.Repeat | texttable.py:103 | `' ' * n` has `max(n, 0)` characters, all equal to the repeated one |
| Text.Pad | texttable.py:98-103 | `pad(s, k)` starts with `s`, has length `max(len(s), k)`, continues with spaces only, and is `s` itself when `len(s) >= k` |
| XList.Expand | texttable.py:84-87 | `_expand(i)` keeps the old entries, appends defaults until index `i` exists, and nothing more |
| XList.GetRow | texttable.py:89-91 | `l[i]` returns row `i` and grows the grid by empty rows up to `i`, leaving every existing row as it was |
| XList.Get | texttable.py:89-91 | `l[i][j]` returns the value at (i, j), or `None` when that position does not exist; it grows only row `i`, up to column `j` |
| XList.Set | texttable.py:93-95 | `l[i][j] = v` changes position (i, j) to `v`, and no other position; row `i` grows to `j + 1` if shorter |
| Layout.ScanRow | texttable.py:113-116 | the scan of a row returns the first `None` at or after `x`, or the row's length when there is none |
| Layout.NextCol | texttable.py:105-116 | the next free column: at least `b`, holds `None`, and every column from `b` up to it is occupied |
| Layout.FindNextCol | texttable.py:105-116 | `find_next_col` returns `NextCol` and only grows the grid by empty rows up to `i` |
| Layout.NextColAgrees | texttable.py:111-116 | the growth caused by reads never changes the answer of `find_next_col` |
| Layout.MaxFirstGap | texttable.py:125 | the `max` is a first free column of some row of the span and at least that of every row |
| Layout.CheckCols | texttable.py:127-130 | the inner check loop reads row `x` up to the box's end, growing it no further than that |
| Layout.CheckRect | texttable.py:126-130 | the check loops grow only the rows of the span, and those only up to the box's right edge |
| Layout.FindNextBox | texttable.py:118-133 | `find_next_box` returns the maximum over the span's rows of the first free column (the loop runs once), and the grid grows only within the span's rows and box |
| Layout.FillRow | texttable.py:160-161 | writing the id along one row sets exactly the columns `[y, stop)` of row `x`, and nothing else |
| Layout.Fill | texttable.py:159-161 | writing the id over the rectangle sets exactly the positions in it, and nothing else |
| Layout.RowEntries | texttable.py:157 | the cells of row `i` are visited in order, each tagged with its row |
| Layout.Schedule | texttable.py:156-157 | the row-major visit order: the cell at position `c` of row `i` is visited `CellId(i, c)`-th, and every visited entry is a cell of its row |
| Layout.ScheduleAppendRow | texttable.py:156-157 | appending the next row's cells extends the visit order and keeps the id of every earlier cell |
| Layout.Place | texttable.py:158-161 | placing a cell overwrites exactly its `rowspan x colspan` rectangle at the column `find_next_box` picked; nothing else changes |
| Layout.CellsOf | texttable.py:162 | `cmap` maps id `k` to the k-th visited cell |
| Layout.Run | texttable.py:156-163 | after `m` cells, `cmap` holds them in id order and the grid holds only ids below `m` |
| Layout.DetermineLayout | texttable.py:146-164 | the cell at position `c` of row `i` gets id `CellId(i, c)`, `cmap` maps that id to it, and every id in the grid names a cell |
| LayoutFacts.TopmostSpec | texttable.py:159-161 | the topmost cover of a position is the last rectangle covering it, and there is none exactly when no rectangle covers it |
| LayoutFacts.RunStep | texttable.py:158-161 | each step of the layout paints the next cell's rectangle at its origin over the previous grid |
| LayoutFacts.PaintTop | texttable.py:159-161 | painting one more rectangle keeps every position equal to its topmost cover |
| LayoutFacts.Cover | texttable.py:156-163 | after any number of cells, every position holds the id of the last placed rectangle covering it, or `None` |
| LayoutFacts.LayoutCover | texttable.py:146-164 | the final grid of `determine_layout` shows, at every position, the last cell whose rectangle covers it |
| ColSize.FindInRow | texttable.py:141-143 | the inner scan of `find_cell` returns the first column holding the id, or none when no later column does |
| ColSize.FindFrom | texttable.py:140-144 | the scan finds the first (row-major) position holding the id, or reports that no later row holds it |
| ColSize.FindCell | texttable.py:135-144 | `find_cell` returns `(-1, -1)` exactly when the id is nowhere in the grid, and otherwise its first row-major position |
| ColSize.ColumnMin | texttable.py:176-180 | step 1 for one column is the length of its widest one-column cell, or 0 |
| ColSize.MinWidths | texttable.py:174-180 | step 1 yields one width per column of row 0, each at least every one-column cell in it and equal to one of them or 0 |
| ColSize.Increment | texttable.py:187-189 | the `while s > 0` loop adds `s` to one column and leaves the others alone; it does nothing when `s <= 0` |
| ColSize.Widen | texttable.py:184-189 | one round of step 2 raises only the first spanned column, by the shortfall, after which the span's widths reach the contents' length |
| ColSize.SpanRaised | texttable.py:188 | raising a span's first column raises the span's sum by the same amount |
| ColSize.Spread | texttable.py:182-189 | step 2 keeps the number of columns and never narrows a column |
| ColSize.SufficeWidens | texttable.py:182-189 | once every span is wide enough, widening columns keeps it so |
| ColSize.SpreadSuffices | texttable.py:182-189 | after step 2, every cell's span, at the position `find_cell` reports, is at least as wide as its contents |
| ColSize.MinWidthsFit | texttable.py:175-180 | after step 1, every one-column cell fits the column where it is found |
| ColSize.OneColumnFits | texttable.py:185-189 | step 2 leaves the widths unchanged for a one-column cell that already fits |
| ColSize.GrowthStep | texttable.py:184-189 | a widening that changes only a span's first column keeps "only span starts grew" |
| ColSize.OnlySpanStartsGrow | texttable.py:174-189 | step 2 widens only columns where some multi-column cell begins |
| ColSize.CalculateColsize | texttable.py:166-190 | `len(l[0])` widths, each at least every one-column cell of its column; every span suffices; growth over step 1 only at span starts; the grid is grown by the `l[0]` read |
| Render.RowPlanWalks | texttable.py:202-219 | the walk over a row moves from piece to piece by one column or the cell's colspan, and stops at the row's end |
| Render.RowPlanHonest | texttable.py:204-219 | each step emits a not-yet-printed id where it stands, or prints a blank on a position without one, with `' '` exactly when the next position holds the same value |
| Render.PlanRows | texttable.py:200-219 | each row is walked with the ids printed by all rows above it removed from `cmap` |
| Render.PlanHonest | texttable.py:200-219 | every piece of the whole rendering is honest with respect to the ids printed before it |
| Render.FirstEncounter | texttable.py:204-214 | no earlier piece of the walk (row-major) stands on a position holding an emitted id, so each id is emitted at most once |
| Render.EmittedPrefix | texttable.py:214 | ids popped from `cmap` stay popped for every later row |
| Render.RowCovers | texttable.py:203-219 | when the cells' spans tile the row, every id in the row has been printed by the end of the row's walk |
| Render.PlanComplete | texttable.py:200-219 | when the spans tile every row, every id in the grid is emitted by some row |
| Render.PieceShape | texttable.py:205-217 | a cell prints its contents padded to span sum + colspan - 1, then `'|'`; a blank prints `pad(' ', cols[j])`, then `'|'` or `' '` |
| Render.Border | texttable.py:199 | the border is `'+'`, `sum(cols) + len(cols) - 1` dashes, `'+'`, newline |
| Render.RowLine | texttable.py:201-220 | each row line starts with `'|'` and ends with a newline |
| Render.TableLines | texttable.py:199-221 | the output is the border, one line per grid row, and the border again |
| Render.PrintTableCols | texttable.py:193-221 | the printed text starts and ends with the border, and the two do not overlap |
| Render.PiecesTextAppend | texttable.py:203-219 | a row's text is the concatenation of its pieces' texts, in walk order |
| Render.WalkWidth | texttable.py:203-219 | with aligned pieces, a walk over all columns prints `sum(cols) + len(cols)` characters |
| Render.LineWidth | texttable.py:201-220 | with aligned pieces, each row line is exactly as wide as the border |
| Render.TableSize | texttable.py:199-221 | with aligned pieces, the output is `len(l) + 2` lines, all of the border's width |
| TextTable.ColsOf | texttable.py:232 | the widths of a layout: one per column of row 0, wide enough for every span |
| TextTable.PrintLayout | texttable.py:232-234 | sizing then printing a layout yields text framed by the border of its widths |
| TextTable.PprintTable | texttable.py:224-234 | `pprint_table` output is framed by the border of the table's column widths |
| TextTable.EmptyTable | texttable.py:224-234 | the empty table prints `"++\n|\n++\n"` |
| DocstringLayout.LayoutEx | texttable.py:15-20 | the documented table lays out as `[[0,0,1],[0,0,2],[3,4,2],[5,5,6]]` |
| DocstringWidths.SpreadSettled | texttable.py:182-189 | cells whose spans already suffice leave the widths unchanged |
| DocstringWidths.ColsEx | texttable.py:32-37 | the documented table gets column widths `[11, 3, 6]` |
| DocstringRender.PrintEx | texttable.py:32-37 | printing the documented layout with widths `[11, 3, 6]` gives the border, the four documented lines and the border |
| Docstring.PprintDocstring | texttable.py:13-37 | `pprint_table` on the documented table prints exactly the documented six lines |
| Overlap.Overwritten | texttable.py:118-133 | a cell placed at the single-pass column overwrites part of the rectangle of an earlier two-row cell |

`Render.RowPlan` (the `while j < len(l[i])` walk over one row, texttable.py:202-219) and
`Render.Plan` (the `for i` loop over the rows, texttable.py:200-220) carry no contract of their
own. They are specified by `Render.RowPlanWalks`, `Render.RowPlanHonest`, `Render.PlanRows`,
`Render.PlanHonest`, `Render.FirstEncounter` and `Render.PlanComplete`.

## Left out

- Streams: `pprint_table` and `print_table_cols` return the text that they would write to `stream`.
- `Cell.__init__` with `contents=None`: the random contents of that path (testing only) are not modelled. Every cell carries its contents.
- The `__main__` test code, which draws random spans.
- `xlist` in N dimensions, `dim` and `default_dim`: only the two-dimensional grid `pprint_table` uses is modelled.
- Negative indices: `find_cell`'s `(-1, -1)` is modelled, but step 2 of `calculate_colsize` on it (Python indexing from the end) is not. `ColSize.Spreadable` requires every id to be found inside row 0's width.
- Python's own exceptions are preconditions, not error results. The `max` of an empty list (a cell with `rowspan < 1`) is excluded by `TextTable.RowSpans`. The `KeyError` of step 1 on an empty position is excluded by `ColSize.Scannable`, and an `IndexError` in `cols` by `Render.PlanFits`. The `ZeroDivisionError` of `x % len(cols)` in step 2 is excluded because zero-column cells are refused (see the `TextTable.PprintTable` line below).
- TextTable.PprintTable: refuses outright every table with a cell spanning no columns. Nothing is written for such a cell (texttable.py:159-161), so `find_cell` never finds it, and `ColSize.Spreadable` requires every id to be found. The source prints such a table when the contents are empty: `[[Cell(0, 1, ""), Cell(1, 1, "x")]]` gives `+-+`, `|x|`, `+-+`, because `find_cell` returns `(-1, -1)`, the span `range(-1, -1)` is empty and the shortfall is 0. The `colspan == 0` branch of `ColSize.SpanFits` is therefore never reached from `TextTable.PprintTable`.
- Character width: a cell's contents are the sequence of elements that Python's `len` counts (the bytes of a Python 2 `str`), and every width and pad is counted in them. Non-ASCII text and its display width (multi-byte or wide characters) are not modelled.
- Dictionary order: `cmap.items()` is taken in ascending id order, as a dictionary with small integer keys iterates.
- Render.FirstEncounter: states that an id is emitted at most once: no earlier piece of the walk stands on a position holding it. A position the walk jumps over (inside an emitted cell's span) may hold the id earlier, so "at its first row-major encounter" is not promised for every grid. That every id is emitted (`Render.PlanComplete`) is proved only when the cells' spans tile every row. This premise (`Render.RunsFit`) fails on layouts where a later cell overwrites part of an earlier cell's lower row. For example, `[[Cell(1, 1, "a"), Cell(2, 2, "b")], [Cell(2, 1, "c")]]` lays out as `[[0, 1, 1], [2, 2, 1]]`, where the run of id 1 in row 1 starts at column 2 with colspan 2 in a three-column row. Every id is still printed there. Completeness for every `determine_layout` grid would need a different invariant, that each cell's segment in its top row stays whole, and that invariant is not proved.
- Render.TableSize: proved only when every piece is aligned. With a zero-width column, `pad(' ', 0)` still prints one space, and a row line can be wider than the border.
- TextTable.PprintTable: its contract states only the border frame for every table. The exact output is proved for the empty table (`TextTable.EmptyTable`) and for the documented one (`Docstring.PprintDocstring`).
