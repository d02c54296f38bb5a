/** `print_table_cols` on the documented layout and widths, one row at a time. */
module DocstringRender {
  import opened Cells
  import opened Render
  import opened Text
  import opened XList
  import opened DocstringLayout
  import opened DocstringWidths

  /** The walks of the four rows: which cell is emitted where, which positions print blank. */
  const P := [[Emit(0, 0), Emit(1, 2)], [Blank(0, false), Blank(1, true), Emit(2, 2)], [Emit(3, 0), Emit(4, 1), Blank(2, true)], [Emit(5, 0), Emit(6, 2)]]

  /** The walk of row 0, with nothing emitted yet. */
  lemma R0()
    ensures RowPlan(C, G[0], 0, {}) == P[0]
  {
  }

  /** The walk of row 1, after row 0 emitted cells 0 and 1. */
  lemma R1()
    ensures RowPlan(C, G[1], 0, {0, 1}) == P[1]
  {
  }

  /** The walk of row 2, after rows 0-1 emitted cells 0-2. */
  lemma R2()
    ensures RowPlan(C, G[2], 0, {0, 1, 2}) == P[2]
  {
    assert {0, 1, 2} + {3} == {0, 1, 2, 3};
    assert {0, 1, 2, 3} + {4} == {0, 1, 2, 3, 4};
    assert RowPlan(C, G[2], 2, {0, 1, 2, 3, 4}) == [Blank(2, true)];
    assert RowPlan(C, G[2], 1, {0, 1, 2, 3}) == [Emit(4, 1), Blank(2, true)];
  }

  /** The ids of two pieces. */
  lemma Ids2(a: Piece, b: Piece)
    ensures Ids([a, b]) == Ids([a]) + Ids([b])
  {
    IdsAppend([a], [b]);
    assert [a] + [b] == [a, b];
  }

  /** The ids of three pieces. */
  lemma Ids3(a: Piece, b: Piece, c: Piece)
    ensures Ids([a, b, c]) == Ids([a]) + Ids([b]) + Ids([c])
  {
    Ids2(a, b);
    IdsAppend([a, b], [c]);
    assert [a, b] + [c] == [a, b, c];
  }

  /** The walk of row 3, after rows 0-2 emitted cells 0-4. */
  lemma R3()
    ensures RowPlan(C, G[3], 0, {0, 1, 2, 3, 4}) == P[3]
  {
  }

  /** The ids emitted by the first one, two and three rows. */
  lemma EmittedEx()
    ensures Emitted(P, 1) == {0, 1} && Emitted(P, 2) == {0, 1, 2} && Emitted(P, 3) == {0, 1, 2, 3, 4}
  {
    IdsSingle(Emit(0, 0)); IdsSingle(Emit(1, 2)); Ids2(Emit(0, 0), Emit(1, 2));
    IdsSingle(Blank(0, false)); IdsSingle(Blank(1, true)); IdsSingle(Emit(2, 2)); Ids3(Blank(0, false), Blank(1, true), Emit(2, 2));
    IdsSingle(Emit(3, 0)); IdsSingle(Emit(4, 1)); IdsSingle(Blank(2, true)); Ids3(Emit(3, 0), Emit(4, 1), Blank(2, true));
  }

  /** The walks of rows 0-1. */
  lemma Plan2()
    ensures Plan(C, G, 2) == P[..2]
  {
    R0(); R1();
    EmittedEx();
    assert Plan(C, G, 1) == P[..1];
    EmittedAgree(P[..1], P, 1);
  }

  /** The walks of rows 0-2. */
  lemma Plan3()
    ensures Plan(C, G, 3) == P[..3]
  {
    Plan2(); R2();
    EmittedEx();
    EmittedAgree(P[..2], P, 2);
  }

  /** The walks of all four rows are `P`. */
  lemma PlanEx()
    ensures Plan(C, G, 4) == P
  {
    Plan3(); R3();
    EmittedEx();
    EmittedAgree(P[..3], P, 3);
  }

  /** The text of row 0. */
  lemma Line0()
    ensures RowFits(C, W, P[0]) && RowLine(C, W, P[0]) == "|" + ("the lazy brown |" + "jumped|") + "\n"
  {
    assert PieceFits(C, W, Emit(0, 0)) && PieceText(C, W, Emit(0, 0)) == "the lazy brown |";
    assert PieceFits(C, W, Emit(1, 2)) && PieceText(C, W, Emit(1, 2)) == "jumped|";
    Text2(Emit(0, 0), Emit(1, 2));
  }

  /** The text of row 1. */
  lemma Line1()
    ensures RowFits(C, W, P[1]) && RowLine(C, W, P[1]) == "|" + ("            " + "   |" + "over  |") + "\n"
  {
    assert PieceFits(C, W, Blank(0, false)) && PieceText(C, W, Blank(0, false)) == "            ";
    assert PieceFits(C, W, Blank(1, true)) && PieceText(C, W, Blank(1, true)) == "   |";
    assert PieceFits(C, W, Emit(2, 2)) && PieceText(C, W, Emit(2, 2)) == "over  |";
    Text3(Blank(0, false), Blank(1, true), Emit(2, 2));
  }

  /** The text of row 2. */
  lemma Line2()
    ensures RowFits(C, W, P[2]) && RowLine(C, W, P[2]) == "|" + ("fox        |" + "cow|" + "      |") + "\n"
  {
    assert PieceFits(C, W, Emit(3, 0)) && PieceText(C, W, Emit(3, 0)) == "fox        |";
    assert PieceFits(C, W, Emit(4, 1)) && PieceText(C, W, Emit(4, 1)) == "cow|";
    assert PieceFits(C, W, Blank(2, true)) && PieceText(C, W, Blank(2, true)) == "      |";
    Text3(Emit(3, 0), Emit(4, 1), Blank(2, true));
  }

  /** The text of row 3. */
  lemma Line3()
    ensures RowFits(C, W, P[3]) && RowLine(C, W, P[3]) == "|" + ("quick dumb     |" + "red   |") + "\n"
  {
    assert PieceFits(C, W, Emit(5, 0)) && PieceText(C, W, Emit(5, 0)) == "quick dumb     |";
    assert PieceFits(C, W, Emit(6, 2)) && PieceText(C, W, Emit(6, 2)) == "red   |";
    Text2(Emit(5, 0), Emit(6, 2));
  }

  /** The text of a two-piece row is its pieces' texts in order. */
  lemma Text2(a: Piece, b: Piece)
    requires PieceFits(C, W, a) && PieceFits(C, W, b)
    ensures RowFits(C, W, [a, b]) && PiecesText(C, W, [a, b]) == PieceText(C, W, a) + PieceText(C, W, b)
  {
    PiecesTextSingle(C, W, a);
    PiecesTextSingle(C, W, b);
    PiecesTextAppend(C, W, [a], [b]);
    assert [a] + [b] == [a, b];
  }

  /** The text of a three-piece row is its pieces' texts in order. */
  lemma Text3(a: Piece, b: Piece, c: Piece)
    requires PieceFits(C, W, a) && PieceFits(C, W, b) && PieceFits(C, W, c)
    ensures RowFits(C, W, [a, b, c]) && PiecesText(C, W, [a, b, c]) == PieceText(C, W, a) + PieceText(C, W, b) + PieceText(C, W, c)
  {
    Text2(a, b);
    PiecesTextSingle(C, W, c);
    PiecesTextAppend(C, W, [a, b], [c]);
    assert [a, b] + [c] == [a, b, c];
  }

  /** The four row lines, piece by piece. */
  const L0 := "|" + ("the lazy brown |" + "jumped|") + "\n"
  const L1 := "|" + ("            " + "   |" + "over  |") + "\n"
  const L2 := "|" + ("fox        |" + "cow|" + "      |") + "\n"
  const L3 := "|" + ("quick dumb     |" + "red   |") + "\n"

  /** The border for widths `[11, 3, 6]`. */
  lemma BorderEx()
    ensures Border(W) == "+----------------------+\n"
  {
    assert Sum(W) == 20;
  }

  /** The concatenation of six strings. */
  lemma Concat6(a: string, b: string, c: string, d: string, e: string, f: string)
    ensures Concat([a, b, c, d, e, f]) == a + b + c + d + e + f
  {
    var t5 := [f];
    assert Concat(t5) == f by { assert t5[1..] == []; }
    var t4 := [e, f];
    assert Concat(t4) == e + f by { assert t4[1..] == t5; }
    var t3 := [d, e, f];
    assert Concat(t3) == d + e + f by { assert t3[1..] == t4; }
    var t2 := [c, d, e, f];
    assert Concat(t2) == c + d + e + f by { assert t2[1..] == t3; }
    var t1 := [b, c, d, e, f];
    assert Concat(t1) == b + c + d + e + f by { assert t1[1..] == t2; }
    var t0 := [a, b, c, d, e, f];
    assert t0[1..] == t1;
  }

  /** Every piece of `P` lies within `W`. */
  lemma PlanFitsEx()
    ensures PlanFits(C, W, P)
  {
    Line0(); Line1(); Line2(); Line3();
    forall i | 0 <= i < |P| ensures RowFits(C, W, P[i]) {
      assert i == 0 || i == 1 || i == 2 || i == 3;
    }
  }

  /** Every piece of the documented rendering lies within `W`. */
  lemma PlanFitsDoc()
    ensures PlanFits(C, W, Plan(C, G, |G|))
  {
    PlanEx();
    PlanFitsEx();
  }

  /** The four row lines are `L0` to `L3`. */
  lemma RowLinesEx()
    ensures PlanFits(C, W, P) && RowLines(C, W, P, 4) == [L0, L1, L2, L3]
  {
    PlanFitsEx();
    Line0(); Line1(); Line2(); Line3();
    var rs := RowLines(C, W, P, 4);
    assert rs[0] == L0 && rs[1] == L1 && rs[2] == L2 && rs[3] == L3;
  }

  /** The lines of a table whose plan and row lines are known. */
  lemma LinesFrom(cells: seq<Cell>, g: Grid, cols: seq<nat>, rows: seq<seq<Piece>>, ls: seq<string>)
    requires Plan(cells, g, |g|) == rows && PlanFits(cells, cols, rows)
    requires RowLines(cells, cols, rows, |g|) == ls
    ensures PlanFits(cells, cols, Plan(cells, g, |g|))
    ensures TableLines(cells, g, cols) == [Border(cols)] + ls + [Border(cols)]
  {
  }

  /** Framing four lines with two borders gives six lines. */
  lemma Six(a: string, b: string, c: string, d: string, e: string, f: string)
    ensures [a] + [b, c, d, e] + [f] == [a, b, c, d, e, f]
  {
  }

  /** The lines of the documented output: border, four rows, border. */
  lemma LinesEx()
    ensures PlanFits(C, W, Plan(C, G, |G|))
    ensures TableLines(C, G, W) == [Border(W), L0, L1, L2, L3, Border(W)]
  {
    PlanEx();
    RowLinesEx();
    assert |G| == 4;
    LinesFrom(C, G, W, P, [L0, L1, L2, L3]);
    Six(Border(W), L0, L1, L2, L3, Border(W));
  }

  /** `print_table_cols` of the documented layout and widths. */
  lemma PrintEx()
    ensures PlanFits(C, W, Plan(C, G, |G|))
    ensures PrintTableCols(C, G, W) == "+----------------------+\n" + L0 + L1 + L2 + L3 + "+----------------------+\n"
  {
    LinesEx();
    BorderEx();
    Concat6(Border(W), L0, L1, L2, L3, Border(W));
  }
}
