/** `calculate_colsize` on the layout of the documented table, one step at a time. */
module DocstringWidths {
  import opened Cells
  import opened XList
  import opened ColSize
  import opened DocstringLayout

  /** The column widths the documented output shows. */
  const W: seq<nat> := [11, 3, 6]

  /** Step 1 can read every position of the layout. */
  lemma ScanEx()
    ensures Scannable(C, G)
  {
  }

  /** Step 1 for column 0: "fox" is its widest one-column cell. */
  lemma Col0()
    ensures Readable(C, G, 0, 4) && ColumnMin(C, G, 0, 4) == 3
  {
  }

  /** Step 1 for column 1: "cow" is its widest one-column cell. */
  lemma Col1()
    ensures Readable(C, G, 1, 4) && ColumnMin(C, G, 1, 4) == 3
  {
  }

  /** Step 1 for column 2: "jumped" is its widest one-column cell. */
  lemma Col2()
    ensures Readable(C, G, 2, 4) && ColumnMin(C, G, 2, 4) == 6
  {
  }

  /** Step 1 over the first column. */
  lemma Min1()
    ensures Scannable(C, G) && MinWidths(C, G, 1) == [3]
  {
    ScanEx(); Col0();
  }

  /** Step 1 over the first two columns. */
  lemma Min2()
    ensures Scannable(C, G) && MinWidths(C, G, 2) == [3, 3]
  {
    Min1(); Col1();
  }

  /** Step 1 over all three columns. */
  lemma MinEx()
    ensures Scannable(C, G) && MinWidths(C, G, 3) == [3, 3, 6]
  {
    Min2(); Col2();
  }

  /** `find_cell` of cell 0. */
  lemma Find0()
    ensures FindFrom(G, 0, 0) == Some((0, 0))
  {
  }

  /** `find_cell` of cell 1. */
  lemma Find1()
    ensures FindFrom(G, 1, 0) == Some((0, 2))
  {
  }

  /** `find_cell` of cell 2. */
  lemma Find2()
    ensures FindFrom(G, 2, 0) == Some((1, 2))
  {
  }

  /** `find_cell` of cell 3. */
  lemma Find3()
    ensures FindFrom(G, 3, 0) == Some((2, 0))
  {
  }

  /** `find_cell` of cell 4. */
  lemma Find4()
    ensures FindFrom(G, 4, 0) == Some((2, 1))
  {
  }

  /** `find_cell` of cell 5. */
  lemma Find5()
    ensures FindFrom(G, 5, 0) == Some((3, 0))
  {
  }

  /** `find_cell` of cell 6. */
  lemma Find6()
    ensures FindFrom(G, 6, 0) == Some((3, 2))
  {
  }

  /** Step 2 finds every cell, and every span fits the three columns. */
  lemma SpreadableEx()
    ensures Spreadable(C, G, 3)
  {
    forall k | 0 <= k < |C|
      ensures FindFrom(G, k, 0).Some? && SpanFits(3, FindFrom(G, k, 0).value.1, C[k])
    {
      if k == 0 { Find0(); } else if k == 1 { Find1(); } else if k == 2 { Find2(); }
      else if k == 3 { Find3(); } else if k == 4 { Find4(); } else if k == 5 { Find5(); }
      else { Find6(); }
    }
  }

  /** Step 2 for cell 0: "the lazy brown" is 8 short of columns 0-1, and column 0 takes it all. */
  lemma Spread1()
    ensures Spreadable(C, G, 3) && Spread(C, G, [3, 3, 6], 1) == [11, 3, 6]
  {
    SpreadableEx(); Find0();
    assert SpanSum([3, 3, 6], 0, 2) == 6;
    var r := Spread(C, G, [3, 3, 6], 1);
    assert r == Widen([3, 3, 6], C[0], 0);
    assert r[0] == 11 && r[1] == 3 && r[2] == 6;
  }

  /** Cell `k` already fits the widths `w` from where `find_cell` puts it. */
  ghost predicate Settled(cells: seq<Cell>, g: Grid, w: seq<nat>, k: nat)
  {
    && k < |cells| && FindFrom(g, k, 0).Some? && cells[k].colspan >= 1
    && SpanFits(|w|, StartCol(g, k), cells[k])
    && SpanSum(w, StartCol(g, k), cells[k].colspan) >= |cells[k].contents|
  }

  /** A cell that already fits its columns widens nothing. */
  lemma Unwidened(cols: seq<nat>, c: Cell, j: nat)
    requires c.colspan >= 1 && SpanFits(|cols|, j, c) && SpanSum(cols, j, c.colspan) >= |c.contents|
    ensures Widen(cols, c, j) == cols
  {
    var r := Widen(cols, c, j);
    assert forall x :: 0 <= x < |cols| ==> r[x] == cols[x];
  }

  /** Once every later cell fits, step 2 changes nothing more. */
  lemma {:induction false} SpreadSettled(cells: seq<Cell>, g: Grid, cols: seq<nat>, m0: nat, m: nat, w: seq<nat>)
    requires m0 <= m <= |cells| && Spreadable(cells, g, |cols|)
    requires Spread(cells, g, cols, m0) == w
    requires forall k :: m0 <= k < m ==> Settled(cells, g, w, k)
    ensures Spread(cells, g, cols, m) == w
    decreases m
  {
    if m > m0 {
      SpreadSettled(cells, g, cols, m0, m - 1, w);
      var j := StartCol(g, m - 1);
      assert Settled(cells, g, w, m - 1);
      assert Spread(cells, g, cols, m) == Widen(w, cells[m - 1], j);
      Unwidened(w, cells[m - 1], j);
    }
  }

  /** Cells 1-6 already fit `[11, 3, 6]`. */
  lemma SettledEx(k: nat)
    requires 1 <= k < 7
    ensures Settled(C, G, [11, 3, 6], k)
  {
    if k == 1 {
      Find1();
    } else if k == 2 {
      Find2();
    } else if k == 3 {
      Find3();
    } else if k == 4 {
      Find4();
    } else if k == 5 {
      Find5();
      assert SpanSum([11, 3, 6], 0, 2) == 14;
    } else {
      Find6();
    }
  }

  /** Step 2 over all seven cells. */
  lemma Spread7()
    ensures Spreadable(C, G, 3) && Spread(C, G, [3, 3, 6], 7) == [11, 3, 6]
  {
    Spread1();
    forall k | 1 <= k < 7 ensures Settled(C, G, [11, 3, 6], k) {
      SettledEx(k);
    }
    SpreadSettled(C, G, [3, 3, 6], 1, 7, [11, 3, 6]);
  }

  /** Reading `l[0]` of the layout leaves it unchanged. */
  lemma RowEx()
    ensures GetRow(G, 0) == (G[0], G)
  {
    var (row, h) := GetRow(G, 0);
    assert h == G;
  }

  /** `calculate_colsize` of the documented layout gives `[11, 3, 6]`. */
  lemma ColsEx()
    ensures Scannable(C, GetRow(G, 0).1) && Spreadable(C, GetRow(G, 0).1, |GetRow(G, 0).0|)
    ensures CalculateColsize(C, G) == (W, G)
  {
    RowEx(); MinEx(); Spread7();
  }
}
