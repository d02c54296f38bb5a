/** What the whole of `determine_layout` does to the grid: later cells overwrite earlier
    ones, so a position holds the id of the LAST cell whose rectangle covers it. */
module LayoutFacts {
  import opened Cells
  import opened XList
  import opened Layout

  /** Position (a, b) lies in the rectangle of entry `e` placed at column `col`. */
  predicate InRect(e: Entry, col: nat, a: nat, b: nat)
  {
    e.row <= a < e.row + e.cell.rowspan && col <= b < col + e.cell.colspan
  }

  /** Of the rectangles of `es` placed at the columns `o`, the last one covering (a, b):
      its index, or `None` when none covers it. */
  function Topmost(es: seq<Entry>, o: seq<nat>, a: nat, b: nat): Option<nat>
    requires |o| == |es|
    decreases |es|
  {
    var m := |es|;
    if m == 0 then None
    else if InRect(es[m - 1], o[m - 1], a, b) then Some(m - 1)
    else Topmost(es[..m - 1], o[..m - 1], a, b)
  }

  /** `Topmost` names a covering rectangle with no later one covering the position, and it
      is `None` exactly when no rectangle covers the position. */
  lemma {:induction false} TopmostSpec(es: seq<Entry>, o: seq<nat>, a: nat, b: nat)
    requires |o| == |es|
    ensures var r := Topmost(es, o, a, b);
      && (r.Some? ==> r.value < |es| && InRect(es[r.value], o[r.value], a, b))
      && (r.Some? ==> forall k :: r.value < k < |es| ==> !InRect(es[k], o[k], a, b))
      && (r.None? <==> forall k :: 0 <= k < |es| ==> !InRect(es[k], o[k], a, b))
    decreases |es|
  {
    var m := |es|;
    if m > 0 && !InRect(es[m - 1], o[m - 1], a, b) {
      TopmostSpec(es[..m - 1], o[..m - 1], a, b);
      assert forall k :: 0 <= k < m - 1 ==> es[..m - 1][k] == es[k] && o[..m - 1][k] == o[k];
    }
  }

  /** The column of the top-left corner of scheduled cell `k`: where the fold puts it,
      given the grid the cells before it left behind. */
  function Origin(sched: seq<Entry>, k: nat): nat
    requires k < |sched| && Spannable(sched)
  {
    BoxCol(Run(sched, k).grid, sched[k])
  }

  /** The origins of the first `m` cells. */
  function Origins(sched: seq<Entry>, m: nat): (r: seq<nat>)
    requires m <= |sched| && Spannable(sched)
    ensures |r| == m
  {
    if m == 0 then [] else Origins(sched, m - 1) + [Origin(sched, m - 1)]
  }

  /** `h` is `g` with the rectangle of `e` at column `col` overwritten by `id`. */
  ghost predicate Painted(g: Grid, h: Grid, e: Entry, col: nat, id: Id)
  {
    forall a: nat, b: nat {:trigger At(h, a, b)} :: At(h, a, b) == if InRect(e, col, a, b) then Some(id) else At(g, a, b)
  }

  /** The `m`-th step of the fold paints the `m`-th rectangle at its origin. */
  lemma RunStep(sched: seq<Entry>, m: nat)
    requires 0 < m <= |sched| && Spannable(sched)
    ensures Painted(Run(sched, m - 1).grid, Run(sched, m).grid, sched[m - 1], Origin(sched, m - 1), m - 1)
  {
  }

  /** Every position of `g` holds the topmost of the rectangles `es` placed at `o`. */
  ghost predicate Shows(g: Grid, es: seq<Entry>, o: seq<nat>)
    requires |o| == |es|
  {
    forall a: nat, b: nat :: At(g, a, b) == Topmost(es, o, a, b)
  }

  /** Painting one more rectangle keeps every position equal to its topmost cover. */
  lemma PaintTop(g: Grid, h: Grid, es: seq<Entry>, o: seq<nat>, e: Entry, col: nat, id: Id,
                 es': seq<Entry>, o': seq<nat>)
    requires |o| == |es| && Shows(g, es, o)
    requires Painted(g, h, e, col, id) && id == |es|
    requires es' == es + [e] && o' == o + [col]
    ensures Shows(h, es', o')
  {
    assert es'[..|es|] == es && o'[..|o|] == o;
  }

  /** A prefix of length `m` is the prefix of length `m - 1` plus element `m - 1`. */
  lemma PrefixStep(s: seq<Entry>, m: nat)
    requires 0 < m <= |s|
    ensures s[..m] == s[..m - 1] + [s[m - 1]]
  {
  }

  /** `determine_layout` after the first `m` scheduled cells: every position holds the id
      of the last placed cell whose rectangle covers it, and is empty when none does. */
  lemma {:induction false} Cover(sched: seq<Entry>, m: nat)
    requires m <= |sched| && Spannable(sched)
    ensures Shows(Run(sched, m).grid, sched[..m], Origins(sched, m))
  {
    if m > 0 {
      Cover(sched, m - 1);
      RunStep(sched, m);
      PrefixStep(sched, m);
      PaintTop(Run(sched, m - 1).grid, Run(sched, m).grid, sched[..m - 1], Origins(sched, m - 1),
               sched[m - 1], Origin(sched, m - 1), m - 1, sched[..m], Origins(sched, m));
    }
  }

  /** `determine_layout(table)`: every position of the final grid holds the id of the last
      cell (in input order) whose rectangle covers it, and is empty when no cell covers it. */
  lemma LayoutCover(table: Table)
    requires forall i: nat, c: nat :: 0 <= i < |table| && 0 <= c < |table[i]| ==> table[i][c].rowspan >= 1
    ensures var sched := Schedule(table, |table|);
      Spannable(sched) && Shows(DetermineLayout(table).grid, sched, Origins(sched, |sched|))
  {
    var sched := Schedule(table, |table|);
    Cover(sched, |sched|);
    assert sched[..|sched|] == sched;
  }
}
