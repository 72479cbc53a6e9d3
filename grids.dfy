/** Two-dimensional arrays as the program handles them (numpy arrays of shape
    (height, width)), and the whole-array operations its core uses: element-wise
    maps, flattening, minimum, maximum, mean and clipping. */
module Grids {

  /** A row-major grid: `g[i][j]` is the entry in row `i`, column `j`. */
  type Grid<T> = seq<seq<T>>

  /** The grid has `h` rows of `w` entries each, i.e. numpy shape (h, w). */
  predicate HasShape<T>(g: Grid<T>, h: nat, w: nat) {
    |g| == h && forall i | 0 <= i < |g| :: |g[i]| == w
  }

  /** Number of columns, read off the first row. */
  function Cols<T>(g: Grid<T>): nat {
    if |g| == 0 then 0 else |g[0]|
  }

  /** `x` has the same (rectangular) shape as `a`. */
  predicate ShapedLike<T, U>(x: Grid<T>, a: Grid<U>) {
    HasShape(x, |a|, Cols(a))
  }

  /** Every row has as many entries as the first one. */
  predicate Rectangular<T>(g: Grid<T>) {
    ShapedLike(g, g)
  }

  /** Element-wise application of `f`, as a numpy ufunc applies to an array. */
  function MapGrid<A, B>(f: A -> B, g: Grid<A>): (r: Grid<B>)
    ensures |r| == |g|
    ensures forall i | 0 <= i < |g| :: |r[i]| == |g[i]|
    ensures forall i, j | 0 <= i < |g| && 0 <= j < |g[i]| :: r[i][j] == f(g[i][j])
  {
    seq(|g|, i requires 0 <= i < |g| => seq(|g[i]|, j requires 0 <= j < |g[i]| => f(g[i][j])))
  }

  /** Element-wise combination of two grids of the same shape (numpy broadcasting
      between equal shapes). */
  function ZipGrid<A, B, R>(f: (A, B) -> R, a: Grid<A>, b: Grid<B>): (r: Grid<R>)
    requires |a| == |b|
    requires forall i | 0 <= i < |a| :: |a[i]| == |b[i]|
    ensures |r| == |a|
    ensures forall i | 0 <= i < |a| :: |r[i]| == |a[i]|
    ensures forall i, j | 0 <= i < |a| && 0 <= j < |a[i]| :: r[i][j] == f(a[i][j], b[i][j])
  {
    seq(|a|, i requires 0 <= i < |a| => seq(|a[i]|, j requires 0 <= j < |a[i]| => f(a[i][j], b[i][j])))
  }

  /** The entries in row-major order, as numpy's boolean indexing and reductions see them. */
  function Flatten<T>(g: Grid<T>): seq<T> {
    if |g| == 0 then [] else g[0] + Flatten(g[1..])
  }

  lemma {:induction false} FlattenLength<T>(g: Grid<T>, h: nat, w: nat)
    requires HasShape(g, h, w)
    ensures |Flatten(g)| == h * w
  {
    if |g| > 0 {
      FlattenLength(g[1..], h - 1, w);
      assert |Flatten(g)| == w + (h - 1) * w;
    }
  }

  /** Every entry of the grid occurs in its flattening. */
  lemma {:induction false} InFlatten<T>(g: Grid<T>, i: nat, j: nat)
    requires i < |g| && j < |g[i]|
    ensures g[i][j] in Flatten(g)
  {
    if i > 0 {
      InFlatten(g[1..], i - 1, j);
      assert g[1..][i - 1] == g[i];
    }
  }

  /** Every element of the flattening is some entry of the grid. */
  lemma {:induction false} FromFlatten<T>(g: Grid<T>, x: T) returns (i: nat, j: nat)
    requires x in Flatten(g)
    ensures i < |g| && j < |g[i]| && g[i][j] == x
  {
    if x in g[0] {
      i := 0;
      j :| 0 <= j < |g[0]| && g[0][j] == x;
    } else {
      var i', j' := FromFlatten(g[1..], x);
      i, j := i' + 1, j';
    }
  }

  /** np.min over a non-empty array: an element no greater than any other. */
  function MinOf(s: seq<real>): (m: real)
    requires |s| > 0
    ensures m in s
    ensures forall x | x in s :: m <= x
  {
    if |s| == 1 then s[0]
    else
      var rest := MinOf(s[1..]);
      assert s == [s[0]] + s[1..];
      if s[0] <= rest then s[0] else rest
  }

  /** np.max over a non-empty array: an element no smaller than any other. */
  function MaxOf(s: seq<real>): (m: real)
    requires |s| > 0
    ensures m in s
    ensures forall x | x in s :: x <= m
  {
    if |s| == 1 then s[0]
    else
      var rest := MaxOf(s[1..]);
      assert s == [s[0]] + s[1..];
      if s[0] >= rest then s[0] else rest
  }

  /** `a[a > 0]`: the strictly positive elements, in order. */
  function Positives(s: seq<real>): (r: seq<real>)
    ensures forall x :: x in r <==> x in s && x > 0.0
  {
    if |s| == 0 then []
    else
      assert s == [s[0]] + s[1..];
      (if s[0] > 0.0 then [s[0]] else []) + Positives(s[1..])
  }

  function Sum(s: seq<real>): real {
    if |s| == 0 then 0.0 else s[0] + Sum(s[1..])
  }

  lemma {:induction false} SumNonNegative(s: seq<real>)
    requires forall k | 0 <= k < |s| :: s[k] >= 0.0
    ensures Sum(s) >= 0.0
  {
    if |s| > 0 {
      SumNonNegative(s[1..]);
    }
  }

  /** np.mean over a non-empty array. */
  function Mean(s: seq<real>): real
    requires |s| > 0
  {
    Sum(s) / (|s| as real)
  }

  lemma MeanNonNegative(s: seq<real>)
    requires |s| > 0
    requires forall k | 0 <= k < |s| :: s[k] >= 0.0
    ensures Mean(s) >= 0.0
  {
    SumNonNegative(s);
  }

  /** np.clip(x, lo, hi) on one value. */
  function Clip(x: real, lo: real, hi: real): (r: real)
    requires lo <= hi
    ensures lo <= r <= hi
    ensures lo <= x <= hi ==> r == x
    ensures x < lo ==> r == lo
    ensures x > hi ==> r == hi
  {
    if x < lo then lo else if x > hi then hi else x
  }

  lemma ClipMonotone(x: real, y: real, lo: real, hi: real)
    requires lo <= hi && x <= y
    ensures Clip(x, lo, hi) <= Clip(y, lo, hi)
  {
  }
}
