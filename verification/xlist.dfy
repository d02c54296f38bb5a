/** The two-dimensional auto-expanding list of texttable.py (`xlist` with `dim` fixed at 2):
    rows of optional cell ids. Reading or writing past the end of either level first grows
    that level with its default — an empty row for the outer list, `None` inside a row. */
module XList {
  import opened Cells

  type Row = seq<Option<Id>>
  type Grid = seq<Row>

  /** `_expand(i)`: append copies of the default `d` until index `i` exists. */
  function Expand<T>(s: seq<T>, i: nat, d: T): (r: seq<T>)
    ensures |r| == if i < |s| then |s| else i + 1
    ensures |s| <= |r| && r[..|s|] == s
    ensures forall k :: |s| <= k < |r| ==> r[k] == d
    decreases i + 1 - |s|
  {
    if i < |s| then s else Expand(s + [d], i, d)
  }

  /** What a read of position (i, j) yields: the stored value, or `None` outside the
      realised part of the grid. Growth never changes it (see `Extends`). */
  function At(g: Grid, i: nat, j: nat): Option<Id>
  {
    if i < |g| && j < |g[i]| then g[i][j] else None
  }

  /** The realised length of row `i`: 0 for a row the outer list does not hold yet. */
  function Len(g: Grid, i: nat): nat
  {
    if i < |g| then |g[i]| else 0
  }

  /** `h` is `g` after growth only: no level got shorter and every position reads the same. */
  ghost predicate Extends(g: Grid, h: Grid)
  {
    && |g| <= |h|
    && (forall a {:trigger Len(h, a)} :: Len(g, a) <= Len(h, a))
    && (forall a, b {:trigger At(h, a, b)} :: At(h, a, b) == At(g, a, b))
  }

  /** Growth composes: a grid grown twice is a growth of the original. */
  lemma ExtendsTransitive(g: Grid, h: Grid, k: Grid)
    requires Extends(g, h) && Extends(h, k)
    ensures Extends(g, k)
  {
  }

  /** `l[i]`: row `i` (after growing the outer list) together with the grown grid. */
  function GetRow(g: Grid, i: nat): (r: (Row, Grid))
    ensures Extends(g, r.1)
    ensures |r.1| == if i < |g| then |g| else i + 1
    ensures forall a {:trigger Len(r.1, a)} :: Len(r.1, a) == Len(g, a)
    ensures i < |r.1| && r.0 == r.1[i]
    ensures |r.0| == Len(g, i) && forall j :: 0 <= j < |r.0| ==> r.0[j] == At(g, i, j)
  {
    var h := Expand(g, i, []);
    assert forall a :: 0 <= a < |g| ==> h[a] == g[a] by {
      forall a | 0 <= a < |g| ensures h[a] == g[a] {
        assert h[..|g|][a] == g[a];
      }
    }
    (h[i], h)
  }

  /** `l[i][j]` as an expression: the value read, which is `None` for every position that
      did not hold an id, and the grid with row `i` grown to cover column `j`. */
  function Get(g: Grid, i: nat, j: nat): (r: (Option<Id>, Grid))
    ensures r.0 == At(g, i, j)
    ensures Extends(g, r.1)
    ensures |r.1| == if i < |g| then |g| else i + 1
    ensures forall a {:trigger Len(r.1, a)} :: Len(r.1, a) == if a == i && Len(g, i) <= j then j + 1 else Len(g, a)
  {
    var (row, h) := GetRow(g, i);
    var row' := Expand(row, j, None);
    assert forall b :: 0 <= b < |row| ==> row'[b] == row[b] by {
      forall b | 0 <= b < |row| ensures row'[b] == row[b] {
        assert row'[..|row|][b] == row[b];
      }
    }
    (row'[j], h[i := row'])
  }

  /** `l[i][j] = v`: position (i, j) now holds `v`; the grid grows to cover it and every
      other position keeps its value. */
  function Set(g: Grid, i: nat, j: nat, v: Option<Id>): (r: Grid)
    ensures |r| == if i < |g| then |g| else i + 1
    ensures forall a {:trigger Len(r, a)} :: Len(r, a) == if a == i && Len(g, i) <= j then j + 1 else Len(g, a)
    ensures forall a, b {:trigger At(r, a, b)} :: At(r, a, b) == if a == i && b == j then v else At(g, a, b)
  {
    var (_, h) := Get(g, i, j);
    h[i := h[i][j := v]]
  }
}
