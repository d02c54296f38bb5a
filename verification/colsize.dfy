/** `find_cell` and `calculate_colsize` of texttable.py: the width of every column, from
    the cells the layout placed. Step 1 makes each column as wide as its longest one-column
    cell; step 2 visits the cells by id and gives every spanning cell's shortfall to the
    first column it spans. */
module ColSize {
  import opened Cells
  import opened XList
  import opened Text

  /** Position (a, b) exists in `g` and holds `id`. */
  predicate Holds(g: Grid, a: nat, b: nat, id: Id)
  {
    a < |g| && b < |g[a]| && g[a][b] == Some(id)
  }

  /** The scan of one row in `find_cell`: the first column at or after `j` holding `id`. */
  function FindInRow(row: Row, id: Id, j: nat): (r: Option<nat>)
    requires j <= |row|
    ensures r.Some? ==> j <= r.value < |row| && row[r.value] == Some(id)
    ensures r.Some? ==> forall b :: j <= b < r.value ==> row[b] != Some(id)
    ensures r.None? ==> forall b :: j <= b < |row| ==> row[b] != Some(id)
    decreases |row| - j
  {
    if j == |row| then None
    else if row[j] == Some(id) then Some(j)
    else FindInRow(row, id, j + 1)
  }

  /** The row-major scan of `find_cell` from row `i` on. */
  function FindFrom(g: Grid, id: Id, i: nat): (r: Option<(nat, nat)>)
    requires i <= |g|
    ensures r.Some? ==> i <= r.value.0 && Holds(g, r.value.0, r.value.1, id)
    ensures r.Some? ==> forall a: nat, b: nat :: i <= a < r.value.0 ==> !Holds(g, a, b, id)
    ensures r.Some? ==> forall b: nat :: b < r.value.1 ==> !Holds(g, r.value.0, b, id)
    ensures r.None? ==> forall a: nat, b: nat :: i <= a ==> !Holds(g, a, b, id)
    decreases |g| - i
  {
    if i == |g| then None
    else
      match FindInRow(g[i], id, 0)
      case Some(j) => Some((i, j))
      case None => FindFrom(g, id, i + 1)
  }

  /** `find_cell(l, cid)`: the first position holding `cid` in row-major order, or
      `(-1, -1)` when no position holds it. */
  function FindCell(g: Grid, id: Id): (r: (int, int))
    ensures r == (-1, -1) <==> forall a: nat, b: nat :: !Holds(g, a, b, id)
    ensures r != (-1, -1) ==>
              && 0 <= r.0 && 0 <= r.1 && Holds(g, r.0, r.1, id)
              && (forall a: nat, b: nat :: a < r.0 ==> !Holds(g, a, b, id))
              && (forall b: nat :: b < r.1 ==> !Holds(g, r.0, b, id))
  {
    match FindFrom(g, id, 0)
    case Some((i, j)) => (i as int, j as int)
    case None => (-1, -1)
  }

  /** The first column holding `id`, for an id known to be in the grid. */
  function StartCol(g: Grid, id: Id): nat
    requires FindFrom(g, id, 0).Some?
  {
    FindFrom(g, id, 0).value.1
  }

  /** What step 1 counts for a cell: its length when it spans one column, else nothing. */
  function Width1(c: Cell): nat
  {
    if c.colspan == 1 then |c.contents| else 0
  }

  /** Step 1 can read column `j` of the first `n` rows: every such position exists and
      holds the id of a cell (`cmap[l[i][j]]` raises `KeyError` otherwise). */
  predicate Readable(cells: seq<Cell>, g: Grid, j: nat, n: nat)
  {
    n <= |g| && forall i :: 0 <= i < n ==> Occupied(cells, g, i, j)
  }

  /** Position (i, j) exists and holds the id of a cell. */
  predicate Occupied(cells: seq<Cell>, g: Grid, i: nat, j: nat)
  {
    i < |g| && j < |g[i]| && g[i][j].Some? && g[i][j].value < |cells|
  }

  /** The cell whose id is at (i, j). */
  function CellAt(cells: seq<Cell>, g: Grid, i: nat, j: nat): Cell
    requires Occupied(cells, g, i, j)
  {
    cells[g[i][j].value]
  }

  /** Step 1 for column `j` over the first `n` rows: the running maximum, from 0, of the
      lengths of the one-column cells met. */
  function ColumnMin(cells: seq<Cell>, g: Grid, j: nat, n: nat): (r: nat)
    requires Readable(cells, g, j, n)
    ensures forall i :: 0 <= i < n ==> Width1(CellAt(cells, g, i, j)) <= r
    ensures r == 0 || exists i :: 0 <= i < n && Width1(CellAt(cells, g, i, j)) == r
  {
    if n == 0 then 0
    else
      var m := ColumnMin(cells, g, j, n - 1);
      var w := Width1(CellAt(cells, g, n - 1, j));
      if w > m then w else m
  }

  /** The grid after the read of `l[0]` that fixes the column count: an empty grid gains an
      empty first row. Step 1 needs every position of the first `|l[0]|` columns occupied. */
  predicate Scannable(cells: seq<Cell>, g: Grid)
  {
    |g| >= 1 && forall i, j :: 0 <= i < |g| && 0 <= j < |g[0]| ==> Occupied(cells, g, i, j)
  }

  /** Step 1 for the first `w` columns: every one-column cell fits its column, and every
      column is as narrow as that allows. */
  function MinWidths(cells: seq<Cell>, g: Grid, w: nat): (r: seq<nat>)
    requires Scannable(cells, g) && w <= |g[0]|
    ensures |r| == w
    ensures forall i, j :: 0 <= i < |g| && 0 <= j < w ==> Width1(CellAt(cells, g, i, j)) <= r[j]
    ensures forall j :: 0 <= j < w ==> r[j] == 0 || exists i :: 0 <= i < |g| && Width1(CellAt(cells, g, i, j)) == r[j]
  {
    if w == 0 then [] else MinWidths(cells, g, w - 1) + [ColumnMin(cells, g, w - 1, |g|)]
  }

  /** The inner `while` of step 2: `s` times, `cols[k] += 1`. */
  function Increment(cols: seq<nat>, k: nat, s: int): (r: seq<nat>)
    requires s > 0 ==> k < |cols|
    ensures |r| == |cols|
    ensures forall x :: 0 <= x < |cols| && x != k ==> r[x] == cols[x]
    ensures s > 0 ==> r[k] == cols[k] + s
    ensures s <= 0 ==> r == cols
    decreases s
  {
    if s <= 0 then cols else Increment(cols[k := cols[k] + 1], k, s - 1)
  }

  /** Cell `c`, first found at column `j`, can be widened without an `IndexError`: its
      spanned columns exist, and a cell spanning no column has nothing to add. */
  predicate SpanFits(w: nat, j: nat, c: Cell)
  {
    if c.colspan == 0 then |c.contents| == 0 else j + c.colspan <= w
  }

  /** The sum of the widths of the `cs` columns from `j`. */
  function SpanSum(cols: seq<nat>, j: nat, cs: nat): nat
    requires j + cs <= |cols|
  {
    SumRange(cols, j, j + cs)
  }

  /** One round of step 2: cell `c`, first found at column `j`, is short by its length
      minus the widths it spans (separators not counted). The whole shortfall goes to
      column `j`, no other column changes, and afterwards the span is wide enough. */
  function Widen(cols: seq<nat>, c: Cell, j: nat): (r: seq<nat>)
    requires SpanFits(|cols|, j, c)
    ensures |r| == |cols|
    ensures forall x :: 0 <= x < |cols| && x != j ==> r[x] == cols[x]
    ensures c.colspan >= 1 ==>
              var s := |c.contents| - SpanSum(cols, j, c.colspan);
              r[j] == cols[j] + (if s > 0 then s else 0)
    ensures c.colspan >= 1 ==> SpanSum(r, j, c.colspan) >= |c.contents|
  {
    if c.colspan == 0 then cols
    else
      var s := |c.contents| - SpanSum(cols, j, c.colspan);
      var x := 0;
      // `x` is never incremented, so the column is always `cs[0]`
      var r := Increment(cols, j + x % |cols|, s);
      var d := if s > 0 then s else 0;
      SpanRaised(cols, j, c.colspan, d);
      assert r == cols[j := cols[j] + d];
      r
  }

  /** Raising the first column of a span by `d` raises the span's sum by `d`. */
  lemma SpanRaised(cols: seq<nat>, j: nat, cs: nat, d: nat)
    requires 1 <= cs && j + cs <= |cols|
    ensures SpanSum(cols[j := cols[j] + d], j, cs) == SpanSum(cols, j, cs) + d
  {
    SumBump(cols, j, j + cs, j, d);
  }

  /** Widening columns never narrows a span. */
  lemma SpanGrows(a: seq<nat>, b: seq<nat>, j: nat, cs: nat)
    requires |a| == |b| && j + cs <= |a|
    requires forall x :: 0 <= x < |a| ==> a[x] <= b[x]
    ensures SpanSum(a, j, cs) <= SpanSum(b, j, cs)
  {
    SumMonotone(a, b, j, j + cs);
  }

  /** Step 2 can run: every id is somewhere in the grid and fits where it is first found. */
  predicate Spreadable(cells: seq<Cell>, g: Grid, w: nat)
  {
    forall k :: 0 <= k < |cells| ==>
      FindFrom(g, k, 0).Some? && SpanFits(w, FindFrom(g, k, 0).value.1, cells[k])
  }

  /** Step 2 over the ids `0 .. m-1`, in that order: no column narrows. */
  function Spread(cells: seq<Cell>, g: Grid, cols: seq<nat>, m: nat): (r: seq<nat>)
    requires m <= |cells| && Spreadable(cells, g, |cols|)
    ensures |r| == |cols|
    ensures forall x :: 0 <= x < |cols| ==> cols[x] <= r[x]
  {
    if m == 0 then cols
    else
      var prev := Spread(cells, g, cols, m - 1);
      Widen(prev, cells[m - 1], StartCol(g, m - 1))
  }

  /** Each cell before `m` that spans a column fits the columns it spans, the separators
      between them not counted. */
  ghost predicate SpansSuffice(cells: seq<Cell>, g: Grid, cols: seq<nat>, m: nat)
    requires m <= |cells| && Spreadable(cells, g, |cols|)
  {
    forall k :: 0 <= k < m && cells[k].colspan >= 1 ==>
      SpanSum(cols, StartCol(g, k), cells[k].colspan) >= |cells[k].contents|
  }

  /** Widening keeps the cells that already fit fitting. */
  lemma SufficeWidens(cells: seq<Cell>, g: Grid, a: seq<nat>, b: seq<nat>, m: nat)
    requires m <= |cells| && |a| == |b| && Spreadable(cells, g, |a|)
    requires forall x :: 0 <= x < |a| ==> a[x] <= b[x]
    requires SpansSuffice(cells, g, a, m)
    ensures SpansSuffice(cells, g, b, m)
  {
    forall k | 0 <= k < m && cells[k].colspan >= 1
      ensures SpanSum(b, StartCol(g, k), cells[k].colspan) >= |cells[k].contents|
    {
      SpanGrows(a, b, StartCol(g, k), cells[k].colspan);
    }
  }

  /** After step 2 over the ids before `m`, each of those cells fits the columns it spans
      (the separators between them not counted). */
  lemma {:induction false} SpreadSuffices(cells: seq<Cell>, g: Grid, cols: seq<nat>, m: nat)
    requires m <= |cells| && Spreadable(cells, g, |cols|)
    ensures SpansSuffice(cells, g, Spread(cells, g, cols, m), m)
  {
    if m > 0 {
      SpreadSuffices(cells, g, cols, m - 1);
      var prev := Spread(cells, g, cols, m - 1);
      SufficeWidens(cells, g, prev, Spread(cells, g, cols, m), m - 1);
    }
  }

  /** Column `x` is where one of the cells before `m` that spans two or more columns is
      first found. */
  predicate SpanStart(cells: seq<Cell>, g: Grid, m: nat, x: nat)
  {
    exists k :: 0 <= k < m && k < |cells| && cells[k].colspan >= 2 &&
      FindFrom(g, k, 0).Some? && FindFrom(g, k, 0).value.1 == x
  }

  /** Every one-column cell fits the column where it is first found. */
  ghost predicate OneColumnCellsFit(cells: seq<Cell>, g: Grid, cols: seq<nat>)
  {
    forall k :: 0 <= k < |cells| && cells[k].colspan == 1 && FindFrom(g, k, 0).Some? ==>
      FindFrom(g, k, 0).value.1 < |cols| && |cells[k].contents| <= cols[FindFrom(g, k, 0).value.1]
  }

  /** Step 1's widths fit every one-column cell. */
  lemma MinWidthsFit(cells: seq<Cell>, g: Grid)
    requires Scannable(cells, g) && Spreadable(cells, g, |g[0]|)
    ensures OneColumnCellsFit(cells, g, MinWidths(cells, g, |g[0]|))
  {
    var base := MinWidths(cells, g, |g[0]|);
    forall k | 0 <= k < |cells| && cells[k].colspan == 1 && FindFrom(g, k, 0).Some?
      ensures FindFrom(g, k, 0).value.1 < |base| && |cells[k].contents| <= base[FindFrom(g, k, 0).value.1]
    {
      var (i, j) := FindFrom(g, k, 0).value;
      assert Width1(CellAt(cells, g, i, j)) <= base[j];
    }
  }

  /** Widening columns keeps every one-column cell fitting. */
  lemma FitWidens(cells: seq<Cell>, g: Grid, a: seq<nat>, b: seq<nat>)
    requires OneColumnCellsFit(cells, g, a)
    requires |a| == |b| && forall x :: 0 <= x < |a| ==> a[x] <= b[x]
    ensures OneColumnCellsFit(cells, g, b)
  {
  }

  /** A cell that spans one column and fits is not short: widening by it changes nothing. */
  lemma OneColumnFits(cols: seq<nat>, c: Cell, j: nat)
    requires c.colspan == 1 && j < |cols| && |c.contents| <= cols[j]
    ensures Widen(cols, c, j) == cols
  {
    assert cols[j..j + 1] == [cols[j]];
  }

  /** Every column of `cols` wider than in `base` is a span start of a cell before `m`. */
  ghost predicate GrownAtStarts(cells: seq<Cell>, g: Grid, base: seq<nat>, cols: seq<nat>, m: nat)
  {
    forall x :: 0 <= x < |cols| && x < |base| && cols[x] > base[x] ==> SpanStart(cells, g, m, x)
  }

  /** One widening by cell `m - 1`, first found at column `j`, that touches only column `j`
      and only when the cell spans two or more columns, keeps `GrownAtStarts`. */
  lemma GrowthStep(cells: seq<Cell>, g: Grid, base: seq<nat>, prev: seq<nat>, r: seq<nat>, m: nat, j: nat)
    requires 1 <= m <= |cells| && |prev| == |base| && |r| == |base|
    requires GrownAtStarts(cells, g, base, prev, m - 1)
    requires forall x :: 0 <= x < |r| && x != j ==> r[x] == prev[x]
    requires cells[m - 1].colspan < 2 ==> r == prev
    requires FindFrom(g, m - 1, 0).Some? && FindFrom(g, m - 1, 0).value.1 == j
    ensures GrownAtStarts(cells, g, base, r, m)
  {
    forall x | 0 <= x < |r| && r[x] > base[x]
      ensures SpanStart(cells, g, m, x)
    {
      if prev[x] <= base[x] {
        assert cells[m - 1].colspan >= 2 && FindFrom(g, m - 1, 0).value.1 == x;
      } else {
        var k :| 0 <= k < m - 1 && k < |cells| && cells[k].colspan >= 2 &&
          FindFrom(g, k, 0).Some? && FindFrom(g, k, 0).value.1 == x;
      }
    }
  }

  /** Step 2 from widths that fit every one-column cell only ever widens the first column
      of a cell that spans two or more columns: a one-column cell is never short. */
  lemma {:induction false} OnlySpanStartsGrow(cells: seq<Cell>, g: Grid, base: seq<nat>, m: nat)
    requires m <= |cells| && Spreadable(cells, g, |base|) && OneColumnCellsFit(cells, g, base)
    ensures GrownAtStarts(cells, g, base, Spread(cells, g, base, m), m)
  {
    if m > 0 {
      OnlySpanStartsGrow(cells, g, base, m - 1);
      var prev := Spread(cells, g, base, m - 1);
      var c, j := cells[m - 1], StartCol(g, m - 1);
      if c.colspan == 1 {
        FitWidens(cells, g, base, prev);
        OneColumnFits(prev, c, j);
      }
      GrowthStep(cells, g, base, prev, Widen(prev, c, j), m, j);
    }
  }

  /** `calculate_colsize(cmap, l)`: the column widths, one per position of the first row,
      and the grid as the `l[0]` read leaves it. Every one-column cell fits its column,
      every cell fits the columns it spans (separators not counted), and a column is wider
      than its widest one-column cell only where a cell spanning two or more starts. */
  function CalculateColsize(cells: seq<Cell>, g0: Grid): (r: (seq<nat>, Grid))
    requires Scannable(cells, GetRow(g0, 0).1)
    requires Spreadable(cells, GetRow(g0, 0).1, |GetRow(g0, 0).0|)
    ensures r.1 == GetRow(g0, 0).1 && |r.0| == Len(r.1, 0) && Scannable(cells, r.1)
    ensures forall i, j :: 0 <= i < |r.1| && 0 <= j < |r.0| ==> Width1(CellAt(cells, r.1, i, j)) <= r.0[j]
    ensures SpansSuffice(cells, r.1, r.0, |cells|)
    ensures GrownAtStarts(cells, r.1, MinWidths(cells, r.1, |r.0|), r.0, |cells|)
  {
    var (row0, g) := GetRow(g0, 0);
    var base := MinWidths(cells, g, |row0|);
    MinWidthsFit(cells, g);
    SpreadSuffices(cells, g, base, |cells|);
    OnlySpanStartsGrow(cells, g, base, |cells|);
    (Spread(cells, g, base, |cells|), g)
  }
}
