/** The table of the module documentation of texttable.py, printed end to end. */
module Docstring {
  import opened Cells
  import opened XList
  import opened Layout
  import opened ColSize
  import opened Render
  import opened TextTable
  import opened DocstringLayout
  import opened DocstringWidths
  import opened DocstringRender

  /** The documented table can be printed: it lays out to `G`, gets widths `W`, and every
      piece of its rendering lies within `W`. */
  lemma PrintableDocstring()
    ensures Printable(T)
  {
    LayoutEx();
    assert Sizable(Layout(C, G)) by {
      ColsEx();
      PlanFitsDoc();
    }
  }

  /** The documented table goes through the three stages as `DocstringLayout`,
      `DocstringWidths` and `DocstringRender` show. */
  lemma Stages()
    ensures Printable(T)
    ensures PlanFits(C, W, Plan(C, G, |G|)) && PprintTable(T) == PrintTableCols(C, G, W)
  {
    PrintableDocstring();
    LayoutEx();
    ColsEx();
    PrintEx();
  }

  /** The rendered rows, as the documentation spells them. */
  lemma Row0()
    ensures L0 == "|the lazy brown |jumped|\n"
  {
  }

  lemma Row1()
    ensures L1 == "|               |over  |\n"
  {
  }

  lemma Row2()
    ensures L2 == "|fox        |cow|      |\n"
  {
  }

  lemma Row3()
    ensures L3 == "|quick dumb     |red   |\n"
  {
  }

  /** `pprint_table` on the documented table writes the documented output. */
  lemma PprintDocstring()
    ensures Printable(T)
    ensures PprintTable(T) ==
      "+----------------------+\n" +
      "|the lazy brown |jumped|\n" +
      "|               |over  |\n" +
      "|fox        |cow|      |\n" +
      "|quick dumb     |red   |\n" +
      "+----------------------+\n"
  {
    Stages();
    PrintEx();
    Row0(); Row1(); Row2(); Row3();
  }
}
