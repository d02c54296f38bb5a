/** `pprint_table`: lay the table out, size its columns, print it. */
module TextTable {
  import opened Cells
  import opened XList
  import opened Layout
  import opened ColSize
  import opened Render
  import opened Text

  /** Every cell spans at least one row (`determine_layout` takes `max` over the rows of a
      span, and fails on an empty one). */
  predicate RowSpans(table: Table)
  {
    forall i: nat, c: nat :: 0 <= i < |table| && 0 <= c < |table[i]| ==> table[i][c].rowspan >= 1
  }

  /** The grid as the `l[0]` read at the start of `calculate_colsize` leaves it: an empty
      grid gains one empty row; any other grid is unchanged. */
  function Grown(lay: Layout): Grid
  {
    GetRow(lay.grid, 0).1
  }

  /** What `pprint_table` needs of a layout to run to the end: column widths
      (`calculate_colsize` reads every position of the first row's width in every row,
      and `find_cell` must locate every id inside that width), and a rendering whose
      pieces lie within the widths. */
  predicate Sizable(lay: Layout)
  {
    && Scannable(lay.cells, Grown(lay))
    && Spreadable(lay.cells, Grown(lay), Len(lay.grid, 0))
    && PlanFits(lay.cells, ColsOf(lay), Plan(lay.cells, Grown(lay), |Grown(lay)|))
  }

  /** The column widths `calculate_colsize` computes for a layout. */
  function ColsOf(lay: Layout): (r: seq<nat>)
    requires Scannable(lay.cells, Grown(lay)) && Spreadable(lay.cells, Grown(lay), Len(lay.grid, 0))
    ensures |r| == Len(lay.grid, 0) && SpansSuffice(lay.cells, Grown(lay), r, |lay.cells|)
  {
    CalculateColsize(lay.cells, lay.grid).0
  }

  /** What `pprint_table(table)` needs to run to the end. */
  predicate Printable(table: Table)
  {
    RowSpans(table) && Sizable(DetermineLayout(table))
  }

  /** The column widths `pprint_table` computes. */
  function Widths(table: Table): seq<nat>
    requires Printable(table)
  {
    ColsOf(DetermineLayout(table))
  }

  /** `print_table_cols(cmap, l, cols)` on a layout and the widths computed for it. */
  function PrintLayout(lay: Layout): (r: string)
    requires Sizable(lay)
    ensures Boxed(r, Border(ColsOf(lay)))
  {
    PrintTableCols(lay.cells, Grown(lay), ColsOf(lay))
  }

  /** `pprint_table(table, stream)`: everything it writes to `stream`. The output is
      framed by the border of the computed widths, above and below. */
  function PprintTable(table: Table): (r: string)
    requires Printable(table)
    ensures Boxed(r, Border(Widths(table)))
  {
    PrintLayout(DetermineLayout(table))
  }

  /** The empty table: no error, the `l[0]` read in `calculate_colsize` makes one empty
      row, so the output is two empty borders around one empty line. */
  lemma EmptyTable()
    ensures Printable([]) && PprintTable([]) == "++\n|\n++\n"
  {
    var lay := DetermineLayout([]);
    assert lay == Layout([], []);
    assert Grown(lay) == [[]];
    var cols := ColsOf(lay);
    assert cols == [];
    assert Plan([], [[]], 1) == [[]];
    assert Sizable(lay);
    var lines := TableLines([], [[]], cols);
    assert Border(cols) == "++\n";
    assert PiecesText([], cols, []) == "";
    assert RowLine([], cols, []) == "|\n";
    assert RowLines([], cols, [[]], 1) == ["|\n"];
    assert lines == ["++\n", "|\n", "++\n"];
    assert Concat(lines) == "++\n|\n++\n" by {
      assert Concat(lines[2..]) == "++\n" by {
        assert lines[2..][1..] == [];
      }
      assert lines[1..][1..] == lines[2..];
    }
  }
}
