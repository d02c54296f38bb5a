/** A table on which `determine_layout` places a cell over part of an earlier one: the
    check in `find_next_box` never sends it round again, so the box it returns is the
    largest first-free column over the rows of the span, occupied or not. */
module Overlap {
  import opened Cells
  import opened XList
  import opened Layout
  import D = DocstringLayout

  /** A one-cell row over a cell two rows tall, then a two-column cell below. */
  const C := [Cell(1, 1, "a"), Cell(1, 2, "b"), Cell(2, 1, "c")]

  /** The table, row by row. */
  const T: Table := [[C[0], C[1]], [C[2]]]

  /** The order in which `determine_layout` visits its cells. */
  const S := [Entry(0, C[0]), Entry(0, C[1]), Entry(1, C[2])]

  /** The grid before any cell is placed. */
  const G0: Grid := []

  /** The grid after cell 0. */
  const G1: Grid := [[Some(0)]]

  /** The grid after cell 1: column 1 of rows 0 and 1. */
  const G2: Grid := [[Some(0), Some(1)], [None, Some(1)]]

  /** The final grid: cell 2 covers row 1, including cell 1's second position. */
  const G: Grid := [[Some(0), Some(1)], [Some(2), Some(2)]]

  /** Placing cell 0 into the empty grid gives `G1`. */
  lemma Place1()
    ensures S[0].cell.rowspan >= 1 && Place(G0, S[0], 0) == G1
  {
    assert NextCol(G0, 0, 0) == 0;
    assert BoxCol(G0, S[0]) == 0;
    assert D.Written(G0, 0, 1, 0, 1, 0, G1) by {
      forall a: nat, b: nat | a < |G1| && b < |G1[a]|
        ensures G1[a][b] == (if 0 <= a < 1 && 0 <= b < 1 then Some(0) else At(G0, a, b))
      {
        assert a == 0 && b == 0;
      }
    }
    D.PlaceStep(G0, S[0], 0, 0, G1);
  }

  /** Placing cell 1 (two rows) into `G1` gives `G2`. */
  lemma Place2()
    ensures S[1].cell.rowspan >= 1 && Place(G1, S[1], 1) == G2
  {
    assert NextCol(G1, 0, 0) == 1;
    assert NextCol(G1, 1, 0) == 0;
    D.BoxCol2(G1, S[1], 1);
    assert D.Written(G1, 0, 2, 1, 1, 1, G2) by {
      forall a: nat | a < |G2| ensures |G2[a]| == (if 0 <= a < 2 && Len(G1, a) < 2 then 2 else Len(G1, a)) {
        assert a == 0 || a == 1;
      }
      forall a: nat, b: nat | a < |G2| && b < |G2[a]|
        ensures G2[a][b] == (if 0 <= a < 2 && 1 <= b < 2 then Some(1) else At(G1, a, b))
      {
        assert a == 0 || a == 1;
      }
    }
    D.PlaceStep(G1, S[1], 1, 1, G2);
  }

  /** Placing cell 2 (two columns) at column 0 of row 1 gives `G`. */
  lemma Place3()
    ensures S[2].cell.rowspan >= 1 && Place(G2, S[2], 2) == G
  {
    assert NextCol(G2, 1, 0) == 0;
    assert BoxCol(G2, S[2]) == 0;
    assert D.Written(G2, 1, 1, 0, 2, 2, G) by {
      forall a: nat | a < |G| ensures |G[a]| == (if 1 <= a < 2 && Len(G2, a) < 2 then 2 else Len(G2, a)) {
        assert a == 0 || a == 1;
      }
      forall a: nat, b: nat | a < |G| && b < |G[a]|
        ensures G[a][b] == (if 1 <= a < 2 && 0 <= b < 2 then Some(2) else At(G2, a, b))
      {
        assert a == 0 || a == 1;
      }
    }
    D.PlaceStep(G2, S[2], 2, 0, G);
  }

  /** The visit order of the table is `S`. */
  lemma ScheduleT()
    ensures Schedule(T, 2) == S
  {
    D.RowEntries2(0, T[0]);
    D.ScheduleStep(T, 1, [], [S[0], S[1]], 0, S[..2]);
    D.RowEntries1(1, T[1]);
    D.ScheduleStep(T, 2, S[..2], [S[2]], 2, S);
  }

  /** Every visited cell spans at least one row. */
  lemma SpannableS()
    ensures Spannable(S)
  {
    forall k | 0 <= k < |S| ensures S[k].cell.rowspan >= 1 {
      assert k == 0 || k == 1 || k == 2;
    }
  }

  /** The layout after cell 0. */
  lemma Run1()
    ensures Spannable(S) && Run(S, 1).grid == G1
  {
    SpannableS();
    assert Run(S, 0).grid == G0;
    Place1();
  }

  /** The layout after cells 0-1. */
  lemma Run2()
    ensures Spannable(S) && Run(S, 2).grid == G2
  {
    Run1();
    Place2();
  }

  /** The layout after all three cells. */
  lemma Run3()
    ensures Spannable(S) && Run(S, 3).grid == G
  {
    Run2();
    Place3();
  }

  /** `cmap` maps each id to its cell in `C`. */
  lemma CellsS()
    ensures CellsOf(S, 3) == C
  {
  }

  /** Folding all three cells gives `cmap` `C` and grid `G`. */
  lemma RunS()
    ensures Spannable(S) && Run(S, 3) == Layout(C, G)
  {
    Run3();
    CellsS();
  }

  /** Every cell of the table spans at least one row. */
  lemma RowSpansT()
    ensures forall i: nat, c: nat :: 0 <= i < |T| && 0 <= c < |T[i]| ==> T[i][c].rowspan >= 1
  {
    forall i: nat, c: nat | i < |T| && c < |T[i]| ensures T[i][c].rowspan >= 1 {
      assert i == 0 || i == 1;
    }
  }

  /** `determine_layout` of the table is the fold over `S`. */
  lemma DetermineT()
    ensures forall i: nat, c: nat :: 0 <= i < |T| && 0 <= c < |T[i]| ==> T[i][c].rowspan >= 1
    ensures Spannable(S) && DetermineLayout(T) == Run(S, 3)
  {
    RowSpansT();
    SpannableS();
    ScheduleT();
  }

  /** `determine_layout` on `T`: cell 1 spans rows 0 and 1 of column 1, yet cell 2, placed
      at the first free column of row 1, covers column 1 of row 1 too and overwrites it. */
  lemma Overwritten()
    ensures forall i: nat, c: nat :: 0 <= i < |T| && 0 <= c < |T[i]| ==> T[i][c].rowspan >= 1
    ensures DetermineLayout(T) == Layout(C, G)
    ensures S[1].cell.rowspan >= 1 && Place(G1, S[1], 1) == G2
    ensures G2[1][1] == Some(1) && G[1][1] == Some(2)
  {
    DetermineT();
    RunS();
    Place2();
  }
}
