/** `print_table_cols` of texttable.py, as a pure function returning the text. The walk
    over each row is planned first — which cell is emitted where, and which positions print
    blank — and the plan is then turned into characters. `cmap.pop` becomes the set of ids
    emitted so far, threaded through the walk. */
module Render {
  import opened Cells
  import opened XList
  import opened Text
  import opened ColSize

  /** One step of the walk along a row: the contents of cell `id` starting at column `col`,
      or a blank column `col` followed by `'|'` when `bar` holds and by `' '` otherwise. */
  datatype Piece = Emit(id: Id, col: nat) | Blank(col: nat, bar: bool)

  /** `v in cmap`: `v` is the id of a cell that has not been emitted yet. `None` and the
      ids already popped are not in `cmap`. */
  predicate Fresh(n: nat, v: Option<Id>, done: set<Id>)
  {
    v.Some? && v.value < n && v.value !in done
  }

  /** The ids emitted by a sequence of pieces. */
  function Ids(ps: seq<Piece>): set<Id>
  {
    set p | 0 <= p < |ps| && ps[p].Emit? :: ps[p].id
  }

  /** The column the walk moves to after piece `x`. */
  function After(cells: seq<Cell>, x: Piece): nat
  {
    match x
    case Emit(id, col) => col + (if id < |cells| then cells[id].colspan else 0)
    case Blank(col, _) => col + 1
  }

  /** `ps` is a walk from column `j` that stops at the first column at or past `w`. */
  predicate Walks(cells: seq<Cell>, ps: seq<Piece>, j: nat, w: nat)
    decreases |ps|
  {
    if |ps| == 0 then j >= w else ps[0].col == j && j < w && Walks(cells, ps[1..], After(cells, ps[0]), w)
  }

  /** Piece `x` as the walk over `row` takes it when `seen` is emitted already: an emit
      of a fresh id where that id is, or a blank on a position holding no fresh id,
      separated by `' '` exactly when the next position holds the same value. */
  predicate Honest(cells: seq<Cell>, row: Row, seen: set<Id>, x: Piece)
  {
    x.col < |row| &&
    match x
    case Emit(id, col) => row[col] == Some(id) && Fresh(|cells|, row[col], seen)
    case Blank(col, bar) =>
      !Fresh(|cells|, row[col], seen) && bar == (col + 1 == |row| || row[col] != row[col + 1])
  }

  /** Every piece of `ps` is honest, given `done` and the ids emitted before it. */
  ghost predicate HonestPlan(cells: seq<Cell>, row: Row, done: set<Id>, ps: seq<Piece>)
  {
    forall p :: 0 <= p < |ps| ==> Honest(cells, row, done + Ids(ps[..p]), ps[p])
  }

  /** The walk of the inner `while` over `row` from column `j`, with `done` emitted already. */
  function RowPlan(cells: seq<Cell>, row: Row, j: nat, done: set<Id>): seq<Piece>
    decreases if j < |row| then |row| - j else 0, if j < |row| && Fresh(|cells|, row[j], done) then 1 else 0
  {
    if j >= |row| then []
    else if Fresh(|cells|, row[j], done) then
      var id := row[j].value;
      [Emit(id, j)] + RowPlan(cells, row, j + cells[id].colspan, done + {id})
    else
      [Blank(j, j + 1 == |row| || row[j] != row[j + 1])] + RowPlan(cells, row, j + 1, done)
  }

  /** The plan walks the row from column `j`: each piece starts where the previous one
      ended, and the walk stops at the first column at or past the end of the row. */
  lemma {:induction false} RowPlanWalks(cells: seq<Cell>, row: Row, j: nat, done: set<Id>)
    ensures Walks(cells, RowPlan(cells, row, j, done), j, |row|)
    decreases if j < |row| then |row| - j else 0, if j < |row| && Fresh(|cells|, row[j], done) then 1 else 0
  {
    if j < |row| {
      if Fresh(|cells|, row[j], done) {
        var id := row[j].value;
        RowPlanWalks(cells, row, j + cells[id].colspan, done + {id});
        var r := RowPlan(cells, row, j, done);
        assert r[1..] == RowPlan(cells, row, j + cells[id].colspan, done + {id});
      } else {
        RowPlanWalks(cells, row, j + 1, done);
        var r := RowPlan(cells, row, j, done);
        assert r[1..] == RowPlan(cells, row, j + 1, done);
      }
    }
  }

  /** Prepending an honest piece to a plan that is honest once that piece's id is emitted
      gives an honest plan. */
  lemma HonestCons(cells: seq<Cell>, row: Row, done: set<Id>, x: Piece, rest: seq<Piece>)
    requires Honest(cells, row, done, x)
    requires HonestPlan(cells, row, done + Ids([x]), rest)
    ensures HonestPlan(cells, row, done, [x] + rest)
  {
    var ps := [x] + rest;
    PrefixIds(x, rest);
    forall p | 0 <= p < |ps|
      ensures Honest(cells, row, done + Ids(ps[..p]), ps[p])
    {
      if p == 0 {
        assert ps[..0] == [];
      } else {
        assert done + Ids(ps[..p]) == done + Ids([x]) + Ids(rest[..p - 1]);
        assert ps[p] == rest[p - 1];
      }
    }
  }

  /** Every cell `RowPlan` emits is emitted where its id is, and only while not yet emitted;
      every blank is on a position holding no fresh id, with the separator rule of the
      source. */
  lemma {:induction false} RowPlanHonest(cells: seq<Cell>, row: Row, j: nat, done: set<Id>)
    ensures HonestPlan(cells, row, done, RowPlan(cells, row, j, done))
    decreases if j < |row| then |row| - j else 0, if j < |row| && Fresh(|cells|, row[j], done) then 1 else 0
  {
    if j < |row| {
      if Fresh(|cells|, row[j], done) {
        var id := row[j].value;
        RowPlanHonest(cells, row, j + cells[id].colspan, done + {id});
        HonestStep(cells, row, done, Emit(id, j), done + {id},
          RowPlan(cells, row, j + cells[id].colspan, done + {id}), RowPlan(cells, row, j, done));
      } else {
        var x := Blank(j, j + 1 == |row| || row[j] != row[j + 1]);
        RowPlanHonest(cells, row, j + 1, done);
        HonestStep(cells, row, done, x, done, RowPlan(cells, row, j + 1, done), RowPlan(cells, row, j, done));
      }
    }
  }

  /** `HonestCons` with the ids of `x` spelled out as `seen`. */
  lemma HonestStep(cells: seq<Cell>, row: Row, done: set<Id>, x: Piece, seen: set<Id>, rest: seq<Piece>, r: seq<Piece>)
    requires Honest(cells, row, done, x) && seen == done + (if x.Emit? then {x.id} else {})
    requires HonestPlan(cells, row, seen, rest) && r == [x] + rest
    ensures HonestPlan(cells, row, done, r)
  {
    IdsSingle(x);
    HonestCons(cells, row, done, x, rest);
  }

  /** The ids of one piece: its id when it emits, none when it is blank. */
  lemma IdsSingle(x: Piece)
    ensures Ids([x]) == if x.Emit? then {x.id} else {}
  {
    if x.Emit? {
      assert [x][0] == Emit(x.id, [x][0].col);
    }
  }

  /** The ids of two walks put together are the ids of each. */
  lemma IdsAppend(xs: seq<Piece>, ys: seq<Piece>)
    ensures Ids(xs + ys) == Ids(xs) + Ids(ys)
  {
    var zs := xs + ys;
    forall id | id in Ids(zs)
      ensures id in Ids(xs) + Ids(ys)
    {
      var p :| 0 <= p < |zs| && zs[p] == Emit(id, zs[p].col);
      if p < |xs| {
        assert xs[p] == zs[p];
      } else {
        assert ys[p - |xs|] == zs[p];
      }
    }
    forall id | id in Ids(xs) + Ids(ys)
      ensures id in Ids(zs)
    {
      if id in Ids(xs) {
        var p :| 0 <= p < |xs| && xs[p] == Emit(id, xs[p].col);
        assert zs[p] == xs[p];
      } else {
        var p :| 0 <= p < |ys| && ys[p] == Emit(id, ys[p].col);
        assert zs[p + |xs|] == ys[p];
      }
    }
  }

  /** The ids emitted before position `p + 1` of `[x] + rest` are those of `x` and those
      emitted before position `p` of `rest`. */
  lemma PrefixIds(x: Piece, rest: seq<Piece>)
    ensures forall p :: 0 <= p <= |rest| ==>
              Ids(([x] + rest)[..p + 1]) == Ids([x]) + Ids(rest[..p])
  {
    forall p | 0 <= p <= |rest|
      ensures Ids(([x] + rest)[..p + 1]) == Ids([x]) + Ids(rest[..p])
    {
      assert ([x] + rest)[..p + 1] == [x] + rest[..p];
      IdsAppend([x], rest[..p]);
    }
  }

  /* ---- The whole table: rows walked top to bottom, threading the emitted ids ---- */

  /** The ids emitted by the rows before `n`. */
  function Emitted(rows: seq<seq<Piece>>, n: nat): set<Id>
    requires n <= |rows|
  {
    if n == 0 then {} else Emitted(rows, n - 1) + Ids(rows[n - 1])
  }

  /** Rows that agree before `n` emit the same ids there. */
  lemma {:induction false} EmittedAgree(a: seq<seq<Piece>>, b: seq<seq<Piece>>, n: nat)
    requires n <= |a| && n <= |b| && forall k :: 0 <= k < n ==> a[k] == b[k]
    ensures Emitted(a, n) == Emitted(b, n)
  {
    if n > 0 {
      EmittedAgree(a, b, n - 1);
    }
  }

  /** The walks of the first `n` rows of `g`, each starting at column 0 with the ids of the
      rows above it emitted. */
  function Plan(cells: seq<Cell>, g: Grid, n: nat): (r: seq<seq<Piece>>)
    requires n <= |g|
    ensures |r| == n
  {
    if n == 0 then []
    else
      var prev := Plan(cells, g, n - 1);
      prev + [RowPlan(cells, g[n - 1], 0, Emitted(prev, n - 1))]
  }

  /** The ids emitted before piece `p` of row `i`. */
  function Seen(rows: seq<seq<Piece>>, i: nat, p: nat): set<Id>
    requires i < |rows| && p <= |rows[i]|
  {
    Emitted(rows, i) + Ids(rows[i][..p])
  }

  /** Each row of `rows` is the walk of that grid row with the rows above emitted. */
  ghost predicate RowsFollow(cells: seq<Cell>, g: Grid, rows: seq<seq<Piece>>)
  {
    |rows| <= |g| && forall i :: 0 <= i < |rows| ==> RowFollows(cells, g, rows, i)
  }

  /** Row `i` of `rows` is the walk of grid row `i` with the rows above it emitted. */
  ghost predicate RowFollows(cells: seq<Cell>, g: Grid, rows: seq<seq<Piece>>, i: nat)
    requires i < |rows| <= |g|
  {
    rows[i] == RowPlan(cells, g[i], 0, Emitted(rows, i))
  }

  /** Appending the walk of the next row, with the rows above emitted, keeps every row following. */
  lemma FollowStep(cells: seq<Cell>, g: Grid, prev: seq<seq<Piece>>, x: seq<Piece>)
    requires RowsFollow(cells, g, prev) && |prev| < |g|
    requires x == RowPlan(cells, g[|prev|], 0, Emitted(prev, |prev|))
    ensures RowsFollow(cells, g, prev + [x])
  {
    var rows := prev + [x];
    forall i | 0 <= i < |rows|
      ensures RowFollows(cells, g, rows, i)
    {
      EmittedAgree(rows, prev, i);
      if i < |prev| {
        assert RowFollows(cells, g, prev, i);
      }
    }
  }

  /** Each row of the plan is the walk of that grid row with the rows above emitted. */
  lemma {:induction false} PlanRows(cells: seq<Cell>, g: Grid, n: nat)
    requires n <= |g|
    ensures RowsFollow(cells, g, Plan(cells, g, n))
  {
    if n > 0 {
      PlanRows(cells, g, n - 1);
      var prev := Plan(cells, g, n - 1);
      FollowStep(cells, g, prev, RowPlan(cells, g[n - 1], 0, Emitted(prev, n - 1)));
    }
  }

  /** Every piece of the plan is honest given what was emitted before it. */
  lemma PlanHonest(cells: seq<Cell>, g: Grid, i: nat, p: nat)
    requires i < |g| && p < |Plan(cells, g, |g|)[i]|
    ensures var rows := Plan(cells, g, |g|);
      Honest(cells, g[i], Seen(rows, i, p), rows[i][p])
  {
    var rows := Plan(cells, g, |g|);
    PlanRows(cells, g, |g|);
    assert RowFollows(cells, g, rows, i);
    RowPlanHonest(cells, g[i], 0, Emitted(rows, i));
  }

  /** The ids emitted before a piece include those emitted before, and by, any piece
      earlier in row-major order. */
  lemma {:induction false} SeenGrows(rows: seq<seq<Piece>>, i0: nat, p0: nat, i: nat, p: nat)
    requires i0 < |rows| && p0 < |rows[i0]| && i < |rows| && p <= |rows[i]|
    requires i0 < i || (i0 == i && p0 < p)
    ensures Seen(rows, i0, p0) + Ids([rows[i0][p0]]) <= Seen(rows, i, p)
  {
    var x := rows[i0][p0];
    IdsAppend(rows[i0][..p0], [x]);
    assert rows[i0][..p0 + 1] == rows[i0][..p0] + [x];
    if i0 == i {
      IdsAppend(rows[i][..p0 + 1], rows[i][p0 + 1..p]);
      assert rows[i][..p] == rows[i][..p0 + 1] + rows[i][p0 + 1..p];
    } else {
      IdsAppend(rows[i0][..p0 + 1], rows[i0][p0 + 1..]);
      assert rows[i0] == rows[i0][..p0 + 1] + rows[i0][p0 + 1..];
      EmittedPrefix(rows, i0, i);
    }
  }

  /** The rows before `k` emit everything the rows before `i0 < k` did, and row `i0`'s ids. */
  lemma {:induction false} EmittedPrefix(rows: seq<seq<Piece>>, i0: nat, k: nat)
    requires i0 < k <= |rows|
    ensures Emitted(rows, i0) + Ids(rows[i0]) <= Emitted(rows, k)
  {
    if i0 < k - 1 {
      EmittedPrefix(rows, i0, k - 1);
    }
  }

  /** Each cell is emitted at the first position the walk visits that holds its id: no piece
      earlier in row-major order sits on a position holding that id. In particular no id is
      emitted twice. */
  lemma FirstEncounter(cells: seq<Cell>, g: Grid, i0: nat, p0: nat, i: nat, p: nat)
    requires i0 < |g| && i < |g|
    requires p0 < |Plan(cells, g, |g|)[i0]| && p < |Plan(cells, g, |g|)[i]|
    requires i0 < i || (i0 == i && p0 < p)
    requires Plan(cells, g, |g|)[i][p].Emit?
    ensures var rows := Plan(cells, g, |g|);
      rows[i0][p0].col < |g[i0]| && g[i0][rows[i0][p0].col] != Some(rows[i][p].id)
  {
    var rows := Plan(cells, g, |g|);
    PlanHonest(cells, g, i0, p0);
    PlanHonest(cells, g, i, p);
    SeenGrows(rows, i0, p0, i, p);
    IdsSingle(rows[i0][p0]);
  }

  /** `v` is the id of a cell. */
  predicate Valid(n: nat, v: Option<Id>)
  {
    v.Some? && v.value < n
  }

  /** The run of `row` starting at `x` fills the span of its cell: the span fits in the
      row and every position it covers holds the same id. */
  predicate SpanFilled(row: Row, x: nat, cs: nat)
    requires x < |row|
  {
    x + cs <= |row| && forall y :: x <= y < x + cs ==> row[y] == row[x]
  }

  /** Wherever a run of equal ids starts in `row`, the cell's span fits in the row and every
      position it spans holds the same id: the row is tiled the way the cells ask for. */
  predicate RunsFit(cells: seq<Cell>, row: Row)
  {
    forall x :: 0 <= x < |row| && RunStart(cells, row, x) ==> SpanFilled(row, x, cells[row[x].value].colspan)
  }

  /** A run of one cell's id starts at column `x` of `row`. */
  predicate RunStart(cells: seq<Cell>, row: Row, x: nat)
  {
    x < |row| && Valid(|cells|, row[x]) && (x == 0 || row[x - 1] != row[x])
  }

  /** Every cell id in `row` before column `j` is in `done`. */
  predicate CoveredTo(cells: seq<Cell>, row: Row, j: nat, done: set<Id>)
  {
    forall x :: 0 <= x < j && x < |row| && Valid(|cells|, row[x]) ==> row[x].value in done
  }

  /** The piece the walk takes at column `j < |row|` with `done` emitted already. */
  function NextPiece(cells: seq<Cell>, row: Row, j: nat, done: set<Id>): Piece
    requires j < |row|
  {
    if Fresh(|cells|, row[j], done) then Emit(row[j].value, j)
    else Blank(j, j + 1 == |row| || row[j] != row[j + 1])
  }

  /** One step of the walk: its first piece, then the walk from where that piece ends with
      that piece's id emitted. */
  lemma RowPlanStep(cells: seq<Cell>, row: Row, j: nat, done: set<Id>)
    requires j < |row|
    ensures var x := NextPiece(cells, row, j, done);
      RowPlan(cells, row, j, done) == [x] + RowPlan(cells, row, After(cells, x), done + Ids([x]))
  {
    var x := NextPiece(cells, row, j, done);
    IdsSingle(x);
    if x.Emit? {
      assert done + Ids([x]) == done + {row[j].value};
    } else {
      assert done + Ids([x]) == done;
    }
  }

  /** After one step from a covered prefix, the columns the step passes over are covered:
      a blank holds no fresh id, and an emit at a run start covers its whole span. */
  lemma CoverStep(cells: seq<Cell>, row: Row, j: nat, done: set<Id>)
    requires RunsFit(cells, row) && CoveredTo(cells, row, j, done) && j < |row|
    ensures var x := NextPiece(cells, row, j, done);
      CoveredTo(cells, row, After(cells, x), done + Ids([x]))
  {
    var x := NextPiece(cells, row, j, done);
    IdsSingle(x);
    if x.Emit? {
      assert RunStart(cells, row, j);
    }
  }

  /** Covering is kept when more ids are emitted. */
  lemma CoverMore(cells: seq<Cell>, row: Row, j: nat, a: set<Id>, b: set<Id>)
    requires CoveredTo(cells, row, j, a) && a <= b
    ensures CoveredTo(cells, row, j, b)
  {
  }

  /** On a row tiled the way its cells ask for, the walk emits every cell id of the row
      that was not emitted before it. */
  lemma {:induction false} RowCovers(cells: seq<Cell>, row: Row, j: nat, done: set<Id>)
    requires RunsFit(cells, row) && CoveredTo(cells, row, j, done)
    ensures CoveredTo(cells, row, |row|, done + Ids(RowPlan(cells, row, j, done)))
    decreases if j < |row| then |row| - j else 0, if j < |row| && Fresh(|cells|, row[j], done) then 1 else 0
  {
    if j < |row| {
      var x := NextPiece(cells, row, j, done);
      var next, done' := After(cells, x), done + Ids([x]);
      CoverStep(cells, row, j, done);
      IdsSingle(x);
      RowCovers(cells, row, next, done');
      var rest := RowPlan(cells, row, next, done');
      RowPlanStep(cells, row, j, done);
      IdsAppend([x], rest);
      CoverMore(cells, row, |row|, done' + Ids(rest), done + Ids([x] + rest));
    }
  }

  /** On a grid whose rows are all tiled the way their cells ask for, every cell whose id
      appears in the grid is emitted; with `FirstEncounter`, exactly once. */
  lemma {:induction false} PlanComplete(cells: seq<Cell>, g: Grid, n: nat)
    requires n <= |g|
    requires forall i :: 0 <= i < n ==> RunsFit(cells, g[i])
    ensures forall i, j :: 0 <= i < n && 0 <= j < |g[i]| && Valid(|cells|, g[i][j]) ==>
              g[i][j].value in Emitted(Plan(cells, g, n), n)
  {
    if n > 0 {
      PlanComplete(cells, g, n - 1);
      var prev, rows := Plan(cells, g, n - 1), Plan(cells, g, n);
      EmittedAgree(rows, prev, n - 1);
      RowCovers(cells, g[n - 1], 0, Emitted(prev, n - 1));
    }
  }

  /* ---- Text ---- */

  /** The columns piece `x` prints exist in `cols`: indexing `cols` past its end is the
      renderer's only failure. */
  predicate PieceFits(cells: seq<Cell>, cols: seq<nat>, x: Piece)
  {
    match x
    case Emit(id, col) => id < |cells| && col + cells[id].colspan <= |cols|
    case Blank(col, _) => col < |cols|
  }

  /** The width a cell is padded to: its spanned columns plus the separators between them. */
  function SpanWidth(cols: seq<nat>, j: nat, cs: nat): int
    requires j + cs <= |cols|
  {
    SpanSum(cols, j, cs) + cs - 1
  }

  /** The text of one piece: a cell's contents padded to its span width, then `'|'`; a
      blank column's `pad(' ', width)`, then its separator. */
  function PieceText(cells: seq<Cell>, cols: seq<nat>, x: Piece): string
    requires PieceFits(cells, cols, x)
  {
    match x
    case Emit(id, col) =>
      var c := cells[id];
      Pad(c.contents, SpanWidth(cols, col, c.colspan)) + "|"
    case Blank(col, bar) =>
      Pad(" ", cols[col]) + (if bar then "|" else " ")
  }

  /** An emitted cell prints its contents left-justified to its span width and then
      `'|'`; a blank column prints `pad(' ', width)` spaces (at least one) and then its
      separator. */
  lemma PieceShape(cells: seq<Cell>, cols: seq<nat>, x: Piece)
    requires PieceFits(cells, cols, x)
    ensures var r := PieceText(cells, cols, x);
      x.Emit? ==>
              var c := cells[x.id];
              var w := SpanWidth(cols, x.col, c.colspan);
              && |r| == (if |c.contents| >= w then |c.contents| else w) + 1
              && r[..|c.contents|] == c.contents
              && (forall k :: |c.contents| <= k < |r| - 1 ==> r[k] == ' ')
              && r[|r| - 1] == '|'
    ensures var r := PieceText(cells, cols, x);
      x.Blank? ==>
              && |r| == (if cols[x.col] >= 1 then cols[x.col] else 1) + 1
              && (forall k :: 0 <= k < |r| - 1 ==> r[k] == ' ')
              && r[|r| - 1] == (if x.bar then '|' else ' ')
  {
  }

  /** The text of a sequence of pieces. */
  function PiecesText(cells: seq<Cell>, cols: seq<nat>, ps: seq<Piece>): string
    requires RowFits(cells, cols, ps)
  {
    if |ps| == 0 then "" else PieceText(cells, cols, ps[0]) + PiecesText(cells, cols, ps[1..])
  }

  /** The top and bottom border: `'+'`, a dash for every column character and every inner
      separator, `'+'`. */
  function Border(cols: seq<nat>): (r: string)
    ensures |r| == 3 + (if |cols| == 0 then 0 else Sum(cols) + |cols| - 1)
    ensures r[0] == '+' && r[|r| - 2] == '+' && r[|r| - 1] == '\n'
    ensures forall k :: 1 <= k < |r| - 2 ==> r[k] == '-'
  {
    "+" + Repeat('-', Sum(cols) + |cols| - 1) + "+\n"
  }

  /** Every piece of a row fits in `cols`. */
  predicate RowFits(cells: seq<Cell>, cols: seq<nat>, ps: seq<Piece>)
  {
    forall p :: 0 <= p < |ps| ==> PieceFits(cells, cols, ps[p])
  }

  /** Every piece of every row fits in `cols`. */
  predicate PlanFits(cells: seq<Cell>, cols: seq<nat>, rows: seq<seq<Piece>>)
  {
    forall i :: 0 <= i < |rows| ==> RowFits(cells, cols, rows[i])
  }

  /** The line of one row: `'|'`, its pieces, a newline. */
  function RowLine(cells: seq<Cell>, cols: seq<nat>, ps: seq<Piece>): (r: string)
    requires RowFits(cells, cols, ps)
    ensures |r| >= 2 && r[0] == '|' && r[|r| - 1] == '\n'
  {
    "|" + PiecesText(cells, cols, ps) + "\n"
  }

  /** The lines of the rows before `n`. */
  function RowLines(cells: seq<Cell>, cols: seq<nat>, rows: seq<seq<Piece>>, n: nat): (r: seq<string>)
    requires n <= |rows| && PlanFits(cells, cols, rows)
    ensures |r| == n
    ensures forall i :: 0 <= i < n ==> r[i] == RowLine(cells, cols, rows[i])
  {
    if n == 0 then [] else RowLines(cells, cols, rows, n - 1) + [RowLine(cells, cols, rows[n - 1])]
  }

  /** `print_table_cols(cmap, l, cols)` as its lines: the border, one line per row of `l`,
      the border again. */
  function TableLines(cells: seq<Cell>, g: Grid, cols: seq<nat>): (r: seq<string>)
    requires PlanFits(cells, cols, Plan(cells, g, |g|))
    ensures |r| == |g| + 2
    ensures r[0] == Border(cols) && r[|r| - 1] == Border(cols)
    ensures forall i :: 1 <= i <= |g| ==> |r[i]| >= 2 && r[i][0] == '|' && r[i][|r[i]| - 1] == '\n'
  {
    var rows := Plan(cells, g, |g|);
    [Border(cols)] + RowLines(cells, cols, rows, |g|) + [Border(cols)]
  }

  /** `r` starts and ends with `b`, and the two do not overlap. */
  predicate Boxed(r: string, b: string)
  {
    |r| >= 2 * |b| && r[..|b|] == b && r[|r| - |b|..] == b
  }

  /** `print_table_cols(cmap, l, cols)`: everything the function writes, in order. */
  function PrintTableCols(cells: seq<Cell>, g: Grid, cols: seq<nat>): (r: string)
    requires PlanFits(cells, cols, Plan(cells, g, |g|))
    ensures Boxed(r, Border(cols))
  {
    var lines := TableLines(cells, g, cols);
    var b, body := Border(cols), lines[1..|lines| - 1];
    assert lines == [b] + (body + [b]);
    ConcatAppend([b], body + [b]);
    ConcatAppend(body, [b]);
    assert Concat([b]) == b && Concat([b][1..]) == "";
    Concat(lines)
  }

  /* ---- Alignment ---- */

  /** Piece `x` prints exactly its columns' width plus one separator each: a cell spans at
      least one column and its contents fit its span width, and a blank column is at
      least one wide (`pad(' ', 0)` is still one space). */
  predicate Aligned(cells: seq<Cell>, cols: seq<nat>, x: Piece)
    requires PieceFits(cells, cols, x)
  {
    match x
    case Emit(id, col) =>
      cells[id].colspan >= 1 && |cells[id].contents| <= SpanWidth(cols, col, cells[id].colspan)
    case Blank(col, _) => cols[col] >= 1
  }

  /** Every piece of `ps` fits in `cols` and is aligned. */
  predicate AllAligned(cells: seq<Cell>, cols: seq<nat>, ps: seq<Piece>)
  {
    forall p :: 0 <= p < |ps| ==> PieceFits(cells, cols, ps[p]) && Aligned(cells, cols, ps[p])
  }

  /** The number of columns piece `x` covers. */
  function Columns(cells: seq<Cell>, x: Piece): nat
  {
    match x
    case Emit(id, _) => if id < |cells| then cells[id].colspan else 0
    case Blank(_, _) => 1
  }

  /** A span splits into two adjacent spans whose sums add up. */
  lemma SpanSplit(cols: seq<nat>, j: nat, a: nat, b: nat)
    requires j + a + b <= |cols|
    ensures SpanSum(cols, j, a + b) == SpanSum(cols, j, a) + SpanSum(cols, j + a, b)
  {
    SumSplit(cols, j, j + a, j + a + b);
  }

  /** The length of a row's text is its first piece's length plus the rest's. */
  lemma TextCons(cells: seq<Cell>, cols: seq<nat>, ps: seq<Piece>)
    requires |ps| > 0 && RowFits(cells, cols, ps)
    ensures |PiecesText(cells, cols, ps)| == |PieceText(cells, cols, ps[0])| + |PiecesText(cells, cols, ps[1..])|
  {
  }

  /** The text of a walk is the text of its parts, in order. */
  lemma {:induction false} PiecesTextAppend(cells: seq<Cell>, cols: seq<nat>, xs: seq<Piece>, ys: seq<Piece>)
    requires RowFits(cells, cols, xs) && RowFits(cells, cols, ys)
    ensures RowFits(cells, cols, xs + ys)
    ensures PiecesText(cells, cols, xs + ys) == PiecesText(cells, cols, xs) + PiecesText(cells, cols, ys)
  {
    if |xs| == 0 {
      assert xs + ys == ys;
    } else {
      assert (xs + ys)[1..] == xs[1..] + ys;
      PiecesTextAppend(cells, cols, xs[1..], ys);
    }
  }

  /** The text of a one-piece walk is that piece's text. */
  lemma PiecesTextSingle(cells: seq<Cell>, cols: seq<nat>, x: Piece)
    requires PieceFits(cells, cols, x)
    ensures RowFits(cells, cols, [x]) && PiecesText(cells, cols, [x]) == PieceText(cells, cols, x)
  {
    assert [x][1..] == [];
  }

  /** A piece's width and the width of the walk after it add up to the walk's width. */
  lemma WidthAdd(cols: seq<nat>, j: nat, cs: nat, a: int, b: int)
    requires j + cs <= |cols|
    requires a == SpanSum(cols, j, cs) + cs
    requires b == SpanSum(cols, j + cs, |cols| - (j + cs)) + (|cols| - (j + cs))
    ensures a + b == SpanSum(cols, j, |cols| - j) + (|cols| - j)
  {
    SpanSplit(cols, j, cs, |cols| - (j + cs));
  }

  /** An aligned piece prints the widths of the columns it covers plus one separator each. */
  lemma PieceWidth(cells: seq<Cell>, cols: seq<nat>, x: Piece)
    requires PieceFits(cells, cols, x) && Aligned(cells, cols, x)
    ensures x.col + Columns(cells, x) <= |cols|
    ensures |PieceText(cells, cols, x)| == SpanSum(cols, x.col, Columns(cells, x)) + Columns(cells, x)
  {
    PieceShape(cells, cols, x);
    if x.Blank? {
      assert SumRange(cols, x.col, x.col + 1) == cols[x.col] + SumRange(cols, x.col + 1, x.col + 1);
    }
  }

  /** The first piece of an aligned walk is aligned, and so is the rest. */
  lemma AlignedTail(cells: seq<Cell>, cols: seq<nat>, ps: seq<Piece>)
    requires |ps| > 0 && AllAligned(cells, cols, ps)
    ensures PieceFits(cells, cols, ps[0]) && Aligned(cells, cols, ps[0])
    ensures AllAligned(cells, cols, ps[1..])
  {
    assert forall p :: 0 <= p < |ps| - 1 ==> ps[1..][p] == ps[p + 1];
  }

  /** An aligned walk from column `j` to the end of `cols` prints the widths of those
      columns plus one separator per column. */
  lemma {:induction false} WalkWidth(cells: seq<Cell>, cols: seq<nat>, ps: seq<Piece>, j: nat)
    requires j <= |cols| && Walks(cells, ps, j, |cols|) && AllAligned(cells, cols, ps)
    ensures |PiecesText(cells, cols, ps)| == SpanSum(cols, j, |cols| - j) + (|cols| - j)
    decreases |ps|
  {
    if |ps| > 0 {
      var x, rest := ps[0], ps[1..];
      var cs := Columns(cells, x);
      AlignedTail(cells, cols, ps);
      PieceWidth(cells, cols, x);
      assert After(cells, x) == j + cs;
      WalkWidth(cells, cols, rest, j + cs);
      TextCons(cells, cols, ps);
      WidthAdd(cols, j, cs, |PieceText(cells, cols, x)|, |PiecesText(cells, cols, rest)|);
    }
  }

  /** A row as long as `cols` whose walk is aligned prints a line exactly as long as the
      border, when there is at least one column. */
  lemma LineWidth(cells: seq<Cell>, cols: seq<nat>, row: Row, done: set<Id>)
    requires |row| == |cols| >= 1 && AllAligned(cells, cols, RowPlan(cells, row, 0, done))
    ensures |RowLine(cells, cols, RowPlan(cells, row, 0, done))| == Sum(cols) + |cols| + 2 == |Border(cols)|
  {
    RowPlanWalks(cells, row, 0, done);
    WalkWidth(cells, cols, RowPlan(cells, row, 0, done), 0);
  }

  /** Each row line of an aligned plan over rows as long as `cols` is as long as the border. */
  lemma RowsAligned(cells: seq<Cell>, g: Grid, cols: seq<nat>)
    requires |cols| >= 1 && forall i :: 0 <= i < |g| ==> |g[i]| == |cols|
    requires forall i :: 0 <= i < |g| ==> AllAligned(cells, cols, Plan(cells, g, |g|)[i])
    ensures PlanFits(cells, cols, Plan(cells, g, |g|))
    ensures forall i :: 0 <= i < |g| ==> |RowLine(cells, cols, Plan(cells, g, |g|)[i])| == |Border(cols)|
  {
    var rows := Plan(cells, g, |g|);
    PlanRows(cells, g, |g|);
    forall i | 0 <= i < |g|
      ensures |RowLine(cells, cols, rows[i])| == |Border(cols)|
    {
      assert RowFollows(cells, g, rows, i);
      LineWidth(cells, cols, g[i], Emitted(rows, i));
    }
  }

  /** Lines framed by a border all have the border's length when the inner ones do. */
  lemma Framed(b: string, body: seq<string>)
    requires forall i :: 0 <= i < |body| ==> |body[i]| == |b|
    ensures forall k :: 0 <= k < |body| + 2 ==> |([b] + body + [b])[k]| == |b|
  {
  }

  /** The output is the concatenation of the table's lines. */
  lemma PrintLines(cells: seq<Cell>, g: Grid, cols: seq<nat>)
    requires PlanFits(cells, cols, Plan(cells, g, |g|))
    ensures PrintTableCols(cells, g, cols) == Concat(TableLines(cells, g, cols))
  {
  }

  /** When every row is as long as `cols` and every planned piece is aligned, all lines of
      the table, borders included, have the same length. */
  lemma TableAligned(cells: seq<Cell>, g: Grid, cols: seq<nat>)
    requires |cols| >= 1 && forall i :: 0 <= i < |g| ==> |g[i]| == |cols|
    requires forall i :: 0 <= i < |g| ==> AllAligned(cells, cols, Plan(cells, g, |g|)[i])
    ensures PlanFits(cells, cols, Plan(cells, g, |g|))
    ensures var lines := TableLines(cells, g, cols);
      forall i :: 0 <= i < |lines| ==> |lines[i]| == |Border(cols)|
  {
    RowsAligned(cells, g, cols);
    var body := RowLines(cells, cols, Plan(cells, g, |g|), |g|);
    assert forall i :: 0 <= i < |body| ==> |body[i]| == |Border(cols)|;
    Framed(Border(cols), body);
  }

  /** Strings all `w` long concatenate to `w` per string. */
  lemma {:induction false} ConcatUniform(parts: seq<string>, w: nat)
    requires forall i :: 0 <= i < |parts| ==> |parts[i]| == w
    ensures |Concat(parts)| == |parts| * w
  {
    if |parts| > 0 {
      ConcatUniform(parts[1..], w);
      assert |Concat(parts)| == w + (|parts| - 1) * w;
    }
  }

  /** An aligned table prints `|g| + 2` lines all as long as the border, whose length is
      `sum(cols) + len(cols) + 2` counting its newline. */
  lemma TableSize(cells: seq<Cell>, g: Grid, cols: seq<nat>)
    requires |cols| >= 1 && forall i :: 0 <= i < |g| ==> |g[i]| == |cols|
    requires forall i :: 0 <= i < |g| ==> AllAligned(cells, cols, Plan(cells, g, |g|)[i])
    ensures PlanFits(cells, cols, Plan(cells, g, |g|))
    ensures |PrintTableCols(cells, g, cols)| == (|g| + 2) * |Border(cols)|
  {
    TableAligned(cells, g, cols);
    PrintLines(cells, g, cols);
    var lines, w := TableLines(cells, g, cols), |Border(cols)|;
    ConcatUniform(lines, w);
    assert |lines| == |g| + 2;
  }
}
