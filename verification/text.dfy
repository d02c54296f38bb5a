/** Character-level helpers: repetition, padding and sums of widths. */
module Text {

  /** Python's `c * n`: `n` copies of `c`, and the empty string when `n` is not positive. */
  function Repeat(c: char, n: int): (r: string)
    ensures |r| == if n < 0 then 0 else n
    ensures forall i :: 0 <= i < |r| ==> r[i] == c
  {
    if n <= 0 then "" else [c] + Repeat(c, n - 1)
  }

  /** `pad(s, k)`: `s` right-filled with spaces up to length `k`; a string of length
      `k` or more comes back unchanged, never truncated. */
  function Pad(s: string, k: int): (r: string)
    ensures |r| == if |s| >= k then |s| else k
    ensures |s| <= |r| && r[..|s|] == s
    ensures forall i :: |s| <= i < |r| ==> r[i] == ' '
    ensures |s| >= k ==> r == s
  {
    s + Repeat(' ', k - |s|)
  }

  /** `sum(xs[x] for x in range(i, k))`. */
  function SumRange(xs: seq<nat>, i: nat, k: nat): nat
    requires i <= k <= |xs|
    decreases k - i
  {
    if i == k then 0 else xs[i] + SumRange(xs, i + 1, k)
  }

  /** Python's `sum(xs)`. */
  function Sum(xs: seq<nat>): nat
  {
    SumRange(xs, 0, |xs|)
  }

  /** A range sum splits at any point in between. */
  lemma {:induction false} SumSplit(xs: seq<nat>, i: nat, j: nat, k: nat)
    requires i <= j <= k <= |xs|
    ensures SumRange(xs, i, k) == SumRange(xs, i, j) + SumRange(xs, j, k)
    decreases j - i
  {
    if i < j {
      SumSplit(xs, i + 1, j, k);
    }
  }

  /** Raising one entry inside the range by `d` raises the sum by exactly `d`. */
  lemma {:induction false} SumBump(xs: seq<nat>, i: nat, k: nat, p: nat, d: nat)
    requires i <= p < k <= |xs|
    ensures SumRange(xs[p := xs[p] + d], i, k) == SumRange(xs, i, k) + d
    decreases k - i
  {
    if i < p {
      SumBump(xs, i + 1, k, p, d);
    } else {
      SumSame(xs, xs[p := xs[p] + d], i + 1, k);
    }
  }

  /** Sums over a range where two sequences agree are equal. */
  lemma {:induction false} SumSame(xs: seq<nat>, ys: seq<nat>, i: nat, k: nat)
    requires i <= k <= |xs| && k <= |ys|
    requires forall x :: i <= x < k ==> xs[x] == ys[x]
    ensures SumRange(xs, i, k) == SumRange(ys, i, k)
    decreases k - i
  {
    if i < k {
      SumSame(xs, ys, i + 1, k);
    }
  }

  /** Widening any entries never narrows a range sum. */
  lemma {:induction false} SumMonotone(xs: seq<nat>, ys: seq<nat>, i: nat, k: nat)
    requires i <= k <= |xs| && k <= |ys|
    requires forall x :: i <= x < k ==> xs[x] <= ys[x]
    ensures SumRange(xs, i, k) <= SumRange(ys, i, k)
    decreases k - i
  {
    if i < k {
      SumMonotone(xs, ys, i + 1, k);
    }
  }

  /** Concatenation of a sequence of strings. */
  function Concat(parts: seq<string>): (r: string)
  {
    if |parts| == 0 then "" else parts[0] + Concat(parts[1..])
  }

  /** Concatenating two lists of strings concatenates their texts. */
  lemma {:induction false} ConcatAppend(xs: seq<string>, ys: seq<string>)
    ensures Concat(xs + ys) == Concat(xs) + Concat(ys)
  {
    if |xs| == 0 {
      assert xs + ys == ys;
    } else {
      assert (xs + ys)[1..] == xs[1..] + ys;
      ConcatAppend(xs[1..], ys);
    }
  }
}
