/** `determine_layout` on the table of the module documentation of texttable.py, traced one
    placed cell at a time. */
module DocstringLayout {
  import opened Cells
  import opened XList
  import opened Layout

  /** `want` is `g` with rows `y0 .. y0+rs-1`, columns `j .. j+cs-1` set to `Some(id)`. */
  ghost predicate Written(g: Grid, y0: nat, rs: nat, j: nat, cs: nat, id: Id, want: Grid)
  {
    && |want| == (if y0 + rs <= |g| then |g| else y0 + rs)
    && (forall a :: 0 <= a < |want| ==>
          |want[a]| == (if y0 <= a < y0 + rs && cs >= 1 && Len(g, a) < j + cs then j + cs else Len(g, a)))
    && (forall a, b :: 0 <= a < |want| && 0 <= b < |want[a]| ==>
          want[a][b] == (if y0 <= a < y0 + rs && j <= b < j + cs then Some(id) else At(g, a, b)))
  }

  /** Placing `e` at column `j` writes the rectangle that `Written` describes. */
  lemma PlaceStep(g: Grid, e: Entry, id: Id, j: nat, want: Grid)
    requires e.cell.rowspan >= 1 && BoxCol(g, e) == j
    requires Written(g, e.row, e.cell.rowspan, j, e.cell.colspan, id, want)
    ensures Place(g, e, id) == want
  {
    GridFromReads(Place(g, e, id), want);
  }

  /** Two grids with the same lengths and the same values are equal. */
  lemma GridFromReads(r: Grid, want: Grid)
    requires |r| == |want|
    requires forall a :: 0 <= a < |want| ==> Len(r, a) == |want[a]|
    requires forall a, b :: 0 <= a < |want| && 0 <= b < |want[a]| ==> At(r, a, b) == want[a][b]
    ensures r == want
  {
    forall a | 0 <= a < |want| ensures r[a] == want[a] {
      assert |r[a]| == Len(r, a);
      forall b | 0 <= b < |want[a]| ensures r[a][b] == want[a][b] {
        assert r[a][b] == At(r, a, b);
      }
    }
  }

  /** For a two-row cell, the box column is the larger first free column of its two rows. */
  lemma BoxCol2(g: Grid, e: Entry, j: nat)
    requires e.cell.rowspan == 2
    requires NextCol(g, e.row, 0) <= j && NextCol(g, e.row + 1, 0) <= j
    requires NextCol(g, e.row, 0) == j || NextCol(g, e.row + 1, 0) == j
    ensures BoxCol(g, e) == j
  {
    var r := FindNextBox(g, e.row, e.cell.colspan, 2);
    var y: nat :| e.row <= y < e.row + 2 && NextCol(g, y, 0) == r.0;
    assert y == e.row || y == e.row + 1;
  }

  /** The cells of the documented table, in row-major order. */
  const C := [Cell(2, 2, "the lazy brown"), Cell(1, 1, "jumped"), Cell(1, 2, "over"), Cell(1, 1, "fox"), Cell(1, 1, "cow"), Cell(2, 1, "quick dumb"), Cell(1, 1, "red")]

  /** The documented table: rows of cells, with their spans and contents. */
  const T: Table := [[C[0], C[1]], [C[2]], [C[3], C[4]], [C[5], C[6]]]

  /** The order in which `determine_layout` visits its cells. */
  const S := [Entry(0, C[0]), Entry(0, C[1]), Entry(1, C[2]), Entry(2, C[3]), Entry(2, C[4]), Entry(3, C[5]), Entry(3, C[6])]

  /** The grid before any cell is placed. */
  const G0: Grid := []

  /** The grid after cell 0 (two by two, "the lazy brown"). */
  const G1: Grid := [[Some(0), Some(0)], [Some(0), Some(0)]]

  /** The grid after cell 1 ("jumped"). */
  const G2: Grid := [[Some(0), Some(0), Some(1)], [Some(0), Some(0)]]

  /** The grid after cell 2 (two rows, "over"). */
  const G3: Grid := [[Some(0), Some(0), Some(1)], [Some(0), Some(0), Some(2)], [None, None, Some(2)]]

  /** The grid after cell 3 ("fox"). */
  const G4: Grid := [[Some(0), Some(0), Some(1)], [Some(0), Some(0), Some(2)], [Some(3), None, Some(2)]]

  /** The grid after cell 4 ("cow"). */
  const G5: Grid := [[Some(0), Some(0), Some(1)], [Some(0), Some(0), Some(2)], [Some(3), Some(4), Some(2)]]

  /** The grid after cell 5 (two columns, "quick dumb"). */
  const G6: Grid := [[Some(0), Some(0), Some(1)], [Some(0), Some(0), Some(2)], [Some(3), Some(4), Some(2)], [Some(5), Some(5)]]

  /** The grid after cell 6 ("red"): the final layout. */
  const G: Grid := [[Some(0), Some(0), Some(1)], [Some(0), Some(0), Some(2)], [Some(3), Some(4), Some(2)], [Some(5), Some(5), Some(6)]]

  /** Placing cell 0 into the empty grid gives `G1`. */
  lemma Place1()
    ensures S[0].cell.rowspan >= 1 && Place(G0, S[0], 0) == G1
  {
    assert NextCol(G0, 0, 0) == 0;
    assert NextCol(G0, 1, 0) == 0;
    BoxCol2(G0, S[0], 0);
    Written1();
    PlaceStep(G0, S[0], 0, 0, G1);
  }

  /** Cell 0 at column 0 of rows 0-1 turns `G0` into `G1`. */
  lemma Written1()
    ensures Written(G0, 0, 2, 0, 2, 0, G1)
  {
    forall a: nat | a < |G1| ensures |G1[a]| == (if 0 <= a < 2 && Len(G0, a) < 2 then 2 else Len(G0, a)) {
      assert a == 0 || a == 1;
    }
    forall a: nat, b: nat | a < |G1| && b < |G1[a]| ensures G1[a][b] == (if 0 <= a < 2 && 0 <= b < 2 then Some(0) else At(G0, a, b)) {
      assert a == 0 || a == 1;
    }
  }

  /** Cell 1 at column 2 of row 0 turns `G1` into `G2`. */
  lemma Written2()
    ensures Written(G1, 0, 1, 2, 1, 1, G2)
  {
    forall a: nat | a < |G2| ensures |G2[a]| == (if 0 <= a < 1 && Len(G1, a) < 3 then 3 else Len(G1, a)) {
      assert a == 0 || a == 1;
    }
    forall a: nat, b: nat | a < |G2| && b < |G2[a]| ensures G2[a][b] == (if 0 <= a < 1 && 2 <= b < 3 then Some(1) else At(G1, a, b)) {
      assert a == 0 || a == 1;
    }
  }

  /** Cell 2 at column 2 of rows 1-2 turns `G2` into `G3`. */
  lemma Written3()
    ensures Written(G2, 1, 2, 2, 1, 2, G3)
  {
    forall a: nat | a < |G3| ensures |G3[a]| == (if 1 <= a < 3 && Len(G2, a) < 3 then 3 else Len(G2, a)) {
      assert a == 0 || a == 1 || a == 2;
    }
    forall a: nat, b: nat | a < |G3| && b < |G3[a]| ensures G3[a][b] == (if 1 <= a < 3 && 2 <= b < 3 then Some(2) else At(G2, a, b)) {
      assert a == 0 || a == 1 || a == 2;
    }
  }

  /** Cell 3 at column 0 of row 2 turns `G3` into `G4`. */
  lemma Written4()
    ensures Written(G3, 2, 1, 0, 1, 3, G4)
  {
    forall a: nat | a < |G4| ensures |G4[a]| == (if 2 <= a < 3 && Len(G3, a) < 1 then 1 else Len(G3, a)) {
      assert a == 0 || a == 1 || a == 2;
    }
    forall a: nat, b: nat | a < |G4| && b < |G4[a]| ensures G4[a][b] == (if 2 <= a < 3 && 0 <= b < 1 then Some(3) else At(G3, a, b)) {
      assert a == 0 || a == 1 || a == 2;
    }
  }

  /** Cell 4 at column 1 of row 2 turns `G4` into `G5`. */
  lemma Written5()
    ensures Written(G4, 2, 1, 1, 1, 4, G5)
  {
    forall a: nat | a < |G5| ensures |G5[a]| == (if 2 <= a < 3 && Len(G4, a) < 2 then 2 else Len(G4, a)) {
      assert a == 0 || a == 1 || a == 2;
    }
    forall a: nat, b: nat | a < |G5| && b < |G5[a]| ensures G5[a][b] == (if 2 <= a < 3 && 1 <= b < 2 then Some(4) else At(G4, a, b)) {
      assert a == 0 || a == 1 || a == 2;
    }
  }

  /** Cell 5 at columns 0-1 of row 3 turns `G5` into `G6`. */
  lemma Written6()
    ensures Written(G5, 3, 1, 0, 2, 5, G6)
  {
    forall a: nat | a < |G6| ensures |G6[a]| == (if 3 <= a < 4 && Len(G5, a) < 2 then 2 else Len(G5, a)) {
      assert a == 0 || a == 1 || a == 2 || a == 3;
    }
    forall a: nat, b: nat | a < |G6| && b < |G6[a]| ensures G6[a][b] == (if 3 <= a < 4 && 0 <= b < 2 then Some(5) else At(G5, a, b)) {
      assert a == 0 || a == 1 || a == 2 || a == 3;
    }
  }

  /** Cell 6 at column 2 of row 3 turns `G6` into `G`. */
  lemma Written7()
    ensures Written(G6, 3, 1, 2, 1, 6, G)
  {
    forall a: nat | a < |G| ensures |G[a]| == (if 3 <= a < 4 && Len(G6, a) < 3 then 3 else Len(G6, a)) {
      assert a == 0 || a == 1 || a == 2 || a == 3;
    }
    forall a: nat, b: nat | a < |G| && b < |G[a]| ensures G[a][b] == (if 3 <= a < 4 && 2 <= b < 3 then Some(6) else At(G6, a, b)) {
      assert a == 0 || a == 1 || a == 2 || a == 3;
    }
  }

  /** Placing cell 1 into `G1` gives `G2`. */
  lemma Place2()
    ensures S[1].cell.rowspan >= 1 && Place(G1, S[1], 1) == G2
  {
    assert NextCol(G1, 0, 0) == 2;
    assert BoxCol(G1, S[1]) == 2;
    Written2();
    PlaceStep(G1, S[1], 1, 2, G2);
  }

  /** Placing cell 2 into `G2` gives `G3`. */
  lemma Place3()
    ensures S[2].cell.rowspan >= 1 && Place(G2, S[2], 2) == G3
  {
    assert NextCol(G2, 1, 0) == 2;
    assert NextCol(G2, 2, 0) == 0;
    BoxCol2(G2, S[2], 2);
    Written3();
    PlaceStep(G2, S[2], 2, 2, G3);
  }

  /** Placing cell 3 into `G3` gives `G4`. */
  lemma Place4()
    ensures S[3].cell.rowspan >= 1 && Place(G3, S[3], 3) == G4
  {
    assert NextCol(G3, 2, 0) == 0;
    assert BoxCol(G3, S[3]) == 0;
    Written4();
    PlaceStep(G3, S[3], 3, 0, G4);
  }

  /** Placing cell 4 into `G4` gives `G5`. */
  lemma Place5()
    ensures S[4].cell.rowspan >= 1 && Place(G4, S[4], 4) == G5
  {
    assert NextCol(G4, 2, 0) == 1;
    assert BoxCol(G4, S[4]) == 1;
    Written5();
    PlaceStep(G4, S[4], 4, 1, G5);
  }

  /** Placing cell 5 into `G5` gives `G6`. */
  lemma Place6()
    ensures S[5].cell.rowspan >= 1 && Place(G5, S[5], 5) == G6
  {
    assert NextCol(G5, 3, 0) == 0;
    assert BoxCol(G5, S[5]) == 0;
    Written6();
    PlaceStep(G5, S[5], 5, 0, G6);
  }

  /** Placing cell 6 into `G6` gives `G`. */
  lemma Place7()
    ensures S[6].cell.rowspan >= 1 && Place(G6, S[6], 6) == G
  {
    assert NextCol(G6, 3, 0) == 2;
    assert BoxCol(G6, S[6]) == 2;
    Written7();
    PlaceStep(G6, S[6], 6, 2, G);
  }

  /** The visit order of a one-cell row. */
  lemma RowEntries1(i: nat, cells: seq<Cell>)
    requires |cells| == 1
    ensures RowEntries(i, cells) == [Entry(i, cells[0])]
  {
  }

  /** The visit order of a two-cell row. */
  lemma RowEntries2(i: nat, cells: seq<Cell>)
    requires |cells| == 2
    ensures RowEntries(i, cells) == [Entry(i, cells[0]), Entry(i, cells[1])]
  {
  }

  /** One more input row appends its cells to the schedule. */
  lemma ScheduleStep(table: Table, n: nat, prev: seq<Entry>, row: seq<Entry>, k: nat, want: seq<Entry>)
    requires 1 <= n <= |table| && k <= |want|
    requires Schedule(table, n - 1) == prev && prev == want[..k]
    requires RowEntries(n - 1, table[n - 1]) == row && row == want[k..]
    ensures Schedule(table, n) == want
  {
    assert Schedule(table, n) == prev + row;
    Split(want, k);
  }

  /** A sequence is its prefix followed by its suffix. */
  lemma Split(want: seq<Entry>, k: nat)
    requires k <= |want|
    ensures want[..k] + want[k..] == want
  {
  }

  /** The visit order after input row 0. */
  lemma Schedule1()
    ensures Schedule(T, 1) == S[..2]
  {
    RowEntries2(0, T[0]);
    ScheduleStep(T, 1, [], [S[0], S[1]], 0, S[..2]);
  }

  /** The visit order after input row 1. */
  lemma Schedule2()
    ensures Schedule(T, 2) == S[..3]
  {
    Schedule1();
    RowEntries1(1, T[1]);
    ScheduleStep(T, 2, S[..2], [S[2]], 2, S[..3]);
  }

  /** The visit order after input row 2. */
  lemma Schedule3()
    ensures Schedule(T, 3) == S[..5]
  {
    Schedule2();
    RowEntries2(2, T[2]);
    ScheduleStep(T, 3, S[..3], [S[3], S[4]], 3, S[..5]);
  }

  /** The visit order of the whole table is `S`. */
  lemma ScheduleEx()
    ensures Schedule(T, 4) == S
  {
    Schedule3();
    RowEntries2(3, T[3]);
    ScheduleStep(T, 4, S[..5], [S[5], S[6]], 5, S);
  }

  /** Every cell of the table spans at least one row. */
  lemma TableSpans()
    ensures forall i: nat, c: nat :: 0 <= i < |T| && 0 <= c < |T[i]| ==> T[i][c].rowspan >= 1
  {
    forall i: nat, c: nat | i < |T| && c < |T[i]| ensures T[i][c].rowspan >= 1 {
      assert i == 0 || i == 1 || i == 2 || i == 3;
    }
  }

  /** Every visited cell spans at least one row. */
  lemma SpannableEx()
    ensures Spannable(S)
  {
    forall k | 0 <= k < |S| ensures S[k].cell.rowspan >= 1 {
      assert k == 0 || k == 1 || k == 2 || k == 3 || k == 4 || k == 5 || k == 6;
    }
  }

  /** The layout after cell 0. */
  lemma Run1()
    ensures Spannable(S) && Run(S, 1).grid == G1
  {
    SpannableEx();
    assert Run(S, 0).grid == G0;
    Place1();
  }

  /** The layout after cells 0-1. */
  lemma Run2()
    ensures Spannable(S) && Run(S, 2).grid == G2
  {
    Run1();
    Place2();
  }

  /** The layout after cells 0-2. */
  lemma Run3()
    ensures Spannable(S) && Run(S, 3).grid == G3
  {
    Run2();
    Place3();
  }

  /** The layout after cells 0-3. */
  lemma Run4()
    ensures Spannable(S) && Run(S, 4).grid == G4
  {
    Run3();
    Place4();
  }

  /** The layout after cells 0-4. */
  lemma Run5()
    ensures Spannable(S) && Run(S, 5).grid == G5
  {
    Run4();
    Place5();
  }

  /** The layout after cells 0-5. */
  lemma Run6()
    ensures Spannable(S) && Run(S, 6).grid == G6
  {
    Run5();
    Place6();
  }

  /** The layout after all seven cells. */
  lemma Run7()
    ensures Spannable(S) && Run(S, 7).grid == G
  {
    Run6();
    Place7();
  }

  /** `cmap` of the whole table maps each id to its cell in `C`. */
  lemma CellsEx()
    ensures CellsOf(S, 7) == C
  {
  }

  /** Folding all seven cells gives `cmap` `C` and grid `G`. */
  lemma RunEx()
    ensures Spannable(S) && Run(S, 7) == Layout(C, G)
  {
    Run7();
    CellsEx();
  }

  /** `determine_layout` of the table is the fold over `S`. */
  lemma DetermineEx()
    ensures forall i: nat, c: nat :: 0 <= i < |T| && 0 <= c < |T[i]| ==> T[i][c].rowspan >= 1
    ensures Spannable(S) && DetermineLayout(T) == Run(S, 7)
  {
    TableSpans();
    SpannableEx();
    ScheduleEx();
  }

  /** `determine_layout` of the documented table gives `C` and `G`. */
  lemma LayoutEx()
    ensures forall i: nat, c: nat :: 0 <= i < |T| && 0 <= c < |T[i]| ==> T[i][c].rowspan >= 1
    ensures DetermineLayout(T) == Layout(C, G)
  {
    DetermineEx();
    RunEx();
  }
}
