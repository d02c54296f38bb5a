/** The greedy layout of texttable.py: `find_next_col`, `find_next_box` and
    `determine_layout`. Cells are placed one by one in row-major input order; a cell's
    top row is its input row and its left column is chosen by `FindNextBox`. */
module Layout {
  import opened Cells
  import opened XList

  /** The scan of `find_next_col`: the first empty position of `row` at or after `x`, or
      the row's length when there is none. */
  function ScanRow(row: Row, x: nat): (r: nat)
    requires x <= |row|
    ensures x <= r <= |row|
    ensures r < |row| ==> row[r] == None
    ensures forall y: nat :: x <= y < r ==> row[y] != None
    decreases |row| - x
  {
    if x == |row| || row[x] == None then x else ScanRow(row, x + 1)
  }

  /** The column `find_next_col(l, i, b)` returns: the least column `x >= b` at which row
      `i` reads empty (when `b` is at or past the row's end that is `b` itself). */
  function NextCol(g: Grid, i: nat, b: nat): (r: nat)
    ensures b <= r
    ensures At(g, i, r) == None
    ensures forall x: nat :: b <= x < r ==> At(g, i, x) != None
  {
    if b >= Len(g, i) then b else ScanRow(g[i], b)
  }

  /** `find_next_col(l, i, b)` with its effect on the grid: reading `l[i]` grows the outer
      list to cover row `i`. */
  function FindNextCol(g: Grid, i: nat, b: nat): (r: (nat, Grid))
    ensures r.0 == NextCol(g, i, b)
    ensures Extends(g, r.1)
    ensures |r.1| == if i < |g| then |g| else i + 1
    ensures forall a: nat {:trigger Len(r.1, a)} :: Len(r.1, a) == Len(g, a)
  {
    var (row, h) := GetRow(g, i);
    if b >= |row| then (b, h) else (ScanRow(row, b), h)
  }

  /** The column `NextCol` returns is fixed by what the row reads, so growth that leaves
      every read unchanged leaves it unchanged. */
  lemma NextColAgrees(g: Grid, h: Grid, i: nat, b: nat)
    requires Extends(g, h)
    ensures NextCol(h, i, b) == NextCol(g, i, b)
  {
    var rg, rh := NextCol(g, i, b), NextCol(h, i, b);
    assert At(h, i, rg) == At(g, i, rg) && At(h, i, rh) == At(g, i, rh);
  }

  /** Growth leaves the first free column of every row unchanged. */
  lemma GapsAgree(g: Grid, h: Grid)
    requires Extends(g, h)
    ensures forall y: nat :: NextCol(h, y, 0) == NextCol(g, y, 0)
  {
    forall y: nat { NextColAgrees(g, h, y, 0); }
  }

  /** `max([find_next_col(l, x, 0) for x in range(x, end)])`, reading the rows in order. */
  function MaxFirstGap(g: Grid, x: nat, end: nat): (r: (nat, Grid))
    requires x < end
    ensures forall y: nat :: x <= y < end ==> NextCol(g, y, 0) <= r.0
    ensures exists y: nat :: x <= y < end && NextCol(g, y, 0) == r.0
    ensures Extends(g, r.1)
    ensures |r.1| == if end <= |g| then |g| else end
    ensures forall a: nat {:trigger Len(r.1, a)} :: Len(r.1, a) == Len(g, a)
    decreases end - x
  {
    var (c, h) := FindNextCol(g, x, 0);
    if x + 1 == end then (c, h)
    else
      var (m, h') := MaxFirstGap(h, x + 1, end);
      GapsAgree(g, h);
      ExtendsTransitive(g, h, h');
      (if c < m then m else c, h')
  }

  /** The inner loop of the check in `find_next_box`: reads row `x` from column `y` on,
      stopping before `stop` or at the first filled position. Only its growth of the
      grid is observable. */
  function CheckCols(g: Grid, x: nat, y: nat, stop: nat): (r: Grid)
    ensures Extends(g, r)
    ensures |r| == if y < stop && |g| <= x then x + 1 else |g|
    ensures forall a: nat {:trigger Len(r, a)} :: a != x ==> Len(r, a) == Len(g, a)
    ensures Len(r, x) <= if Len(g, x) < stop then stop else Len(g, x)
    decreases stop - y
  {
    if y >= stop then g
    else
      var (v, h) := Get(g, x, y);
      if v.Some? then h
      else
        ExtendsTransitive(g, h, CheckCols(h, x, y + 1, stop));
        CheckCols(h, x, y + 1, stop)
  }

  /** The outer loop of that check, over rows `x .. end-1` of the rectangle at column `j`. */
  function CheckRect(g: Grid, x: nat, end: nat, j: nat, cs: nat): (r: Grid)
    ensures Extends(g, r)
    ensures cs == 0 ==> r == g
    ensures end <= |g| ==> |r| == |g|
    ensures forall a: nat {:trigger Len(r, a)} :: !(x <= a < end) ==> Len(r, a) == Len(g, a)
    ensures forall a: nat {:trigger Len(r, a)} :: x <= a < end ==> Len(r, a) <= if Len(g, a) < j + cs then j + cs else Len(g, a)
    decreases end - x
  {
    if x >= end then g
    else
      var h := CheckCols(g, x, j, j + cs);
      ExtendsTransitive(g, h, CheckRect(h, x + 1, end, j, cs));
      CheckRect(h, x + 1, end, j, cs)
  }

  /** `find_next_box(l, i, cs, rs)`. The `break` in its check leaves only the inner `for y`
      loop, so the outer loop always ends normally and its `else: break` always leaves the
      `while`: the loop body runs once and the column returned is the largest first-free
      column over rows `i .. i+rs-1`, whether or not the rectangle there is free. */
  function FindNextBox(g: Grid, i: nat, cs: nat, rs: nat): (r: (nat, Grid))
    requires rs >= 1
    ensures forall y: nat :: i <= y < i + rs ==> NextCol(g, y, 0) <= r.0
    ensures exists y: nat :: i <= y < i + rs && NextCol(g, y, 0) == r.0
    ensures Extends(g, r.1)
    ensures |r.1| == if i + rs <= |g| then |g| else i + rs
    ensures forall a: nat {:trigger Len(r.1, a)} :: !(i <= a < i + rs) ==> Len(r.1, a) == Len(g, a)
    ensures forall a: nat {:trigger Len(r.1, a)} :: i <= a < i + rs ==> Len(r.1, a) <= if Len(g, a) < r.0 + cs then r.0 + cs else Len(g, a)
    ensures cs == 0 ==> forall a: nat {:trigger Len(r.1, a)} :: Len(r.1, a) == Len(g, a)
  {
    var (j, h) := MaxFirstGap(g, i, i + rs);
    var h' := CheckRect(h, i, i + rs, j, cs);
    ExtendsTransitive(g, h, h');
    (j, h')
  }

  /** The inner write loop of `determine_layout`: `l[x][y] = v` for `y` in `y .. stop-1`. */
  function FillRow(g: Grid, x: nat, y: nat, stop: nat, v: Id): (r: Grid)
    ensures forall a: nat, b: nat {:trigger At(r, a, b)} :: At(r, a, b) == if a == x && y <= b < stop then Some(v) else At(g, a, b)
    ensures |r| == if y < stop && |g| <= x then x + 1 else |g|
    ensures forall a: nat {:trigger Len(r, a)} :: Len(r, a) == if a == x && y < stop && Len(g, x) < stop then stop else Len(g, a)
    decreases stop - y
  {
    if y >= stop then g else FillRow(Set(g, x, y, Some(v)), x, y + 1, stop, v)
  }

  /** The write loops of `determine_layout`: `v` into every position of rows `x .. end-1`
      and columns `y .. stop-1`; every other position keeps its value. */
  function Fill(g: Grid, x: nat, end: nat, y: nat, stop: nat, v: Id): (r: Grid)
    ensures forall a: nat, b: nat {:trigger At(r, a, b)} :: At(r, a, b) == if x <= a < end && y <= b < stop then Some(v) else At(g, a, b)
    ensures |r| == if x < end && y < stop && |g| < end then end else |g|
    ensures forall a: nat {:trigger Len(r, a)} :: Len(r, a) == if x <= a < end && y < stop && Len(g, a) < stop then stop else Len(g, a)
    decreases end - x
  {
    if x >= end then g else Fill(FillRow(g, x, y, stop, v), x + 1, end, y, stop, v)
  }

  /** A cell together with the input row it was given in. */
  datatype Entry = Entry(row: nat, cell: Cell)

  /** The number of cells in the input rows before row `i`. */
  function Offset(table: Table, i: nat): nat
    requires i <= |table|
  {
    if i == 0 then 0 else Offset(table, i - 1) + |table[i - 1]|
  }

  /** The id `determine_layout` gives the cell at position `c` of input row `i`. */
  function CellId(table: Table, i: nat, c: nat): nat
    requires i < |table|
  {
    Offset(table, i) + c
  }

  /** The cells of one input row, each tagged with that row. */
  function RowEntries(i: nat, cells: seq<Cell>): (r: seq<Entry>)
    ensures |r| == |cells|
    ensures forall c :: 0 <= c < |cells| ==> r[c] == Entry(i, cells[c])
  {
    if |cells| == 0 then [] else [Entry(i, cells[0])] + RowEntries(i, cells[1..])
  }

  /** The iteration order of `determine_layout`, `for i, r in enumerate(table): for c in r`,
      over the first `n` input rows: the cell at position `c` of row `i` comes
      `CellId(table, i, c)`-th. */
  function Schedule(table: Table, n: nat): (r: seq<Entry>)
    requires n <= |table|
    ensures |r| == Offset(table, n)
    ensures forall i: nat, c: nat :: 0 <= i < n && 0 <= c < |table[i]| ==>
      CellId(table, i, c) < |r| && r[CellId(table, i, c)] == Entry(i, table[i][c])
    ensures forall k :: 0 <= k < |r| ==> r[k].row < n && r[k].cell in table[r[k].row]
  {
    if n == 0 then []
    else
      var prev := Schedule(table, n - 1);
      ScheduleAppendRow(table, n, prev);
      prev + RowEntries(n - 1, table[n - 1])
  }

  /** Appending the entries of row `n-1` to the schedule of the rows before it puts each of
      them at its row's offset. */
  lemma ScheduleAppendRow(table: Table, n: nat, prev: seq<Entry>)
    requires 1 <= n <= |table|
    requires |prev| == Offset(table, n - 1)
    requires forall i: nat, c: nat :: 0 <= i < n - 1 && 0 <= c < |table[i]| ==>
      CellId(table, i, c) < |prev| && prev[CellId(table, i, c)] == Entry(i, table[i][c])
    requires forall k :: 0 <= k < |prev| ==> prev[k].row < n - 1 && prev[k].cell in table[prev[k].row]
    ensures var r := prev + RowEntries(n - 1, table[n - 1]);
      forall i: nat, c: nat :: 0 <= i < n && 0 <= c < |table[i]| ==>
        CellId(table, i, c) < |r| && r[CellId(table, i, c)] == Entry(i, table[i][c])
    ensures var r := prev + RowEntries(n - 1, table[n - 1]);
      forall k :: 0 <= k < |r| ==> r[k].row < n && r[k].cell in table[r[k].row]
  {
    var r := prev + RowEntries(n - 1, table[n - 1]);
    forall k | 0 <= k < |r| ensures r[k].row < n && r[k].cell in table[r[k].row] {
      if k >= |prev| {
        assert r[k] == Entry(n - 1, table[n - 1][k - |prev|]);
      }
    }
    forall i: nat, c: nat | 0 <= i < n && 0 <= c < |table[i]|
      ensures CellId(table, i, c) < |r| && r[CellId(table, i, c)] == Entry(i, table[i][c])
    {
      var cell := table[i][c];
      if i < n - 1 {
        assert r[CellId(table, i, c)] == prev[CellId(table, i, c)];
      } else {
        assert r[CellId(table, i, c)] == RowEntries(n - 1, table[n - 1])[c];
      }
    }
  }

  /** `(cmap, l)`: the cell of each id, indexed by id, and the grid of ids. */
  datatype Layout = Layout(cells: seq<Cell>, grid: Grid)

  /** Every scheduled cell spans at least one row (`max([])` fails otherwise). */
  predicate Spannable(sched: seq<Entry>)
  {
    forall k :: 0 <= k < |sched| ==> sched[k].cell.rowspan >= 1
  }

  /** The column at which the top-left corner of `e` goes in grid `g`. */
  function BoxCol(g: Grid, e: Entry): nat
    requires e.cell.rowspan >= 1
  {
    FindNextBox(g, e.row, e.cell.colspan, e.cell.rowspan).0
  }

  /** The grid part of the inner loop body of `determine_layout`: cell `e` gets id `id`,
      written to exactly the rectangle of its span whose top row is its input row and whose
      left column is `BoxCol`, overwriting whatever was there; no other position changes,
      and only the rows of the rectangle grow, to reach its right edge. */
  function Place(g: Grid, e: Entry, id: Id): (r: Grid)
    requires e.cell.rowspan >= 1
    ensures forall a: nat, b: nat {:trigger At(r, a, b)} :: At(r, a, b) ==
              if e.row <= a < e.row + e.cell.rowspan && BoxCol(g, e) <= b < BoxCol(g, e) + e.cell.colspan
              then Some(id) else At(g, a, b)
    ensures |r| == if e.row + e.cell.rowspan <= |g| then |g| else e.row + e.cell.rowspan
    ensures forall a: nat {:trigger Len(r, a)} :: Len(r, a) ==
              if e.row <= a < e.row + e.cell.rowspan && e.cell.colspan >= 1 && Len(g, a) < BoxCol(g, e) + e.cell.colspan
              then BoxCol(g, e) + e.cell.colspan else Len(g, a)
  {
    var cs, rs := e.cell.colspan, e.cell.rowspan;
    var (dy, h) := FindNextBox(g, e.row, cs, rs);
    Fill(h, e.row, e.row + rs, dy, dy + cs, id)
  }

  /** The cells of the first `m` scheduled entries, in schedule order. */
  function CellsOf(sched: seq<Entry>, m: nat): (r: seq<Cell>)
    requires m <= |sched|
    ensures |r| == m
    ensures forall k :: 0 <= k < m ==> r[k] == sched[k].cell
  {
    if m == 0 then [] else CellsOf(sched, m - 1) + [sched[m - 1].cell]
  }

  /** The layout after the first `m` scheduled cells: `cmap` holds them in id order. */
  function Run(sched: seq<Entry>, m: nat): (r: Layout)
    requires m <= |sched| && Spannable(sched)
    ensures r.cells == CellsOf(sched, m)
    ensures forall a: nat, b: nat :: At(r.grid, a, b).Some? ==> At(r.grid, a, b).value < m
  {
    if m == 0 then Layout([], [])
    else
      var s := Run(sched, m - 1);
      Layout(s.cells + [sched[m - 1].cell], Place(s.grid, sched[m - 1], m - 1))
  }

  /** `determine_layout(table)`: the cell at position `c` of input row `i` gets id
      `CellId(table, i, c)`, and every id in the grid names a cell. */
  function DetermineLayout(table: Table): (r: Layout)
    requires forall i: nat, c: nat :: 0 <= i < |table| && 0 <= c < |table[i]| ==> table[i][c].rowspan >= 1
    ensures |r.cells| == Offset(table, |table|)
    ensures forall i: nat, c: nat :: 0 <= i < |table| && 0 <= c < |table[i]| ==>
      CellId(table, i, c) < |r.cells| && r.cells[CellId(table, i, c)] == table[i][c]
    ensures forall a: nat, b: nat :: At(r.grid, a, b).Some? ==> At(r.grid, a, b).value < |r.cells|
  {
    var sched := Schedule(table, |table|);
    Run(sched, |sched|)
  }
}
