/**
 * The pixel-buffer values shared by every filter: 8-bit samples, rectangular
 * grids of them, and the row-major listing of a rectangular block of a grid.
 * The listing is the one order the source ever walks a window in: row by row,
 * left to right (the nested `m`/`n` loops of the filters and of find_median).
 */
module Grid {

  /** C's `unsigned char`, the type of every sample. */
  type byte = x: int | 0 <= x < 256

  /** C's `short`, the element type of the gradient matrices. */
  type int16 = x: int | -0x8000 <= x < 0x8000

  /** `g` has `rows` rows of `cols` samples each. */
  predicate IsRect<T>(g: seq<seq<T>>, rows: int, cols: int)
  {
    |g| == rows && forall r :: 0 <= r < |g| ==> |g[r]| == cols
  }

  /** The h×w block whose top-left cell is (i, j) lies inside `g`. */
  predicate Fits<T>(g: seq<seq<T>>, i: nat, j: nat, h: nat, w: nat)
  {
    i + h <= |g| && forall r :: i <= r < i + h ==> j + w <= |g[r]|
  }

  /** The value currently held by a 2-D array. */
  function Snapshot<T>(a: array2<T>): (g: seq<seq<T>>)
    reads a
    ensures IsRect(g, a.Length0, a.Length1)
    ensures forall r, c :: 0 <= r < a.Length0 && 0 <= c < a.Length1 ==> g[r][c] == a[r, c]
  {
    seq(a.Length0, r requires 0 <= r < a.Length0 reads a =>
      seq(a.Length1, c requires 0 <= c < a.Length1 reads a => a[r, c]))
  }

  /** Row-major listing of the h×w block of `g` whose top-left cell is (i, j). */
  function Block<T>(g: seq<seq<T>>, i: nat, j: nat, h: nat, w: nat): (s: seq<T>)
    requires Fits(g, i, j, h, w)
    ensures |s| == h * w
    decreases h
  {
    if h == 0 then [] else Block(g, i, j, h - 1, w) + g[i + h - 1][j .. j + w]
  }

  /** The size×size window anchored (top-left) at (i, j), in row-major order. */
  function Window<T>(g: seq<seq<T>>, i: nat, j: nat, size: nat): (s: seq<T>)
    requires Fits(g, i, j, size, size)
    ensures |s| == size * size
  {
    Block(g, i, j, size, size)
  }

  lemma MulBelow(p: nat, q: nat, h: nat, w: nat)
    requires p < h && q < w
    ensures p * w + q < h * w
  {
    assert p * w + q < p * w + w == (p + 1) * w;
    assert (p + 1) * w <= h * w;
  }

  /** Row k of an h-row block of width w ends at (k + 1) * w = k * w + w, inside the block. */
  lemma RowEnd(k: nat, h: nat, w: nat)
    requires k < h
    ensures (k + 1) * w == k * w + w <= h * w
  {
    assert (k + 1) * w <= h * w;
  }

  /** A property of every cell of a block is a property of every element of its listing. */
  lemma {:induction false} BlockAll<T>(g: seq<seq<T>>, i: nat, j: nat, h: nat, w: nat, p: T -> bool)
    requires Fits(g, i, j, h, w)
    requires forall r, c :: i <= r < i + h && j <= c < j + w ==> p(g[r][c])
    ensures forall t :: 0 <= t < |Block(g, i, j, h, w)| ==> p(Block(g, i, j, h, w)[t])
  {
    if h > 0 {
      BlockAll(g, i, j, h - 1, w, p);
      var row := g[i + h - 1][j .. j + w];
      assert forall t :: 0 <= t < |row| ==> p(row[t]);
    }
  }

  /** Cell (p, q) of the block sits at flat index p*w + q of its listing. */
  lemma {:induction false} BlockAt<T>(g: seq<seq<T>>, i: nat, j: nat, h: nat, w: nat, p: nat, q: nat)
    requires Fits(g, i, j, h, w) && p < h && q < w
    ensures p * w + q < h * w
    ensures Block(g, i, j, h, w)[p * w + q] == g[i + p][j + q]
  {
    MulBelow(p, q, h, w);
    var s := Block(g, i, j, h, w);
    assert s == Block(g, i, j, h - 1, w) + g[i + h - 1][j .. j + w];
    if p < h - 1 {
      MulBelow(p, q, h - 1, w);
      BlockAt(g, i, j, h - 1, w, p, q);
    } else {
      assert p * w == (h - 1) * w;
    }
  }

  /** A sequence that equals `b` except on [lo, hi), where it reads `c`, is that splice. */
  lemma Splice<T>(a: seq<T>, b: seq<T>, c: seq<T>, lo: int, hi: int)
    requires |a| == |b| && 0 <= lo <= hi <= |b| && |c| == hi - lo
    requires forall t :: lo <= t < hi ==> a[t] == c[t - lo]
    requires forall t :: 0 <= t < |a| && !(lo <= t < hi) ==> a[t] == b[t]
    ensures a == b[..lo] + c + b[hi..]
  {
  }

  /** The converse of `Splice`: what a splice holds at each index. */
  lemma SpliceIndex<T>(a: seq<T>, b: seq<T>, c: seq<T>, lo: int, hi: int)
    requires 0 <= lo <= hi <= |b| && |c| == hi - lo && a == b[..lo] + c + b[hi..]
    ensures |a| == |b|
    ensures forall t :: lo <= t < hi ==> a[t] == c[t - lo]
    ensures forall t :: 0 <= t < |a| && !(lo <= t < hi) ==> a[t] == b[t]
  {
  }

  /** Writing the next value of `c` just past a spliced prefix of it extends the splice by one. */
  lemma SpliceGrow<T>(b: seq<T>, c: seq<T>, lo: int, hi: int)
    requires 0 <= lo <= hi < |b| && hi - lo < |c|
    ensures (b[..lo] + c[..hi - lo] + b[hi..])[hi := c[hi - lo]] == b[..lo] + c[..hi - lo + 1] + b[hi + 1 ..]
  {
    var u := (b[..lo] + c[..hi - lo] + b[hi..])[hi := c[hi - lo]];
    var v := b[..lo] + c[..hi - lo + 1] + b[hi + 1 ..];
    assert |u| == |v|;
    forall t | 0 <= t < |u| ensures u[t] == v[t] {
    }
  }

  /** A 1×1 window is its one cell. */
  lemma WindowOfOne<T>(g: seq<seq<T>>, i: nat, j: nat)
    requires Fits(g, i, j, 1, 1)
    ensures Window(g, i, j, 1) == [g[i][j]]
  {
    assert Block(g, i, j, 1, 1) == Block(g, i, j, 0, 1) + g[i][j .. j + 1];
  }

  /** Two grids of the same shape that agree cell by cell are equal. */
  lemma RectEqual<T>(a: seq<seq<T>>, b: seq<seq<T>>, rows: int, cols: int)
    requires IsRect(a, rows, cols) && IsRect(b, rows, cols)
    requires forall r, c :: 0 <= r < rows && 0 <= c < cols ==> a[r][c] == b[r][c]
    ensures a == b
  {
    forall r | 0 <= r < rows
      ensures a[r] == b[r]
    {
    }
  }

  /** Every position of a block listing is a cell of the block: position p * w + q holds cell (i + p, j + q). */
  lemma BlockIndex<T>(g: seq<seq<T>>, i: nat, j: nat, h: nat, w: nat, t: int) returns (p: nat, q: nat)
    requires Fits(g, i, j, h, w) && 0 <= t < h * w
    ensures p < h && q < w && p * w + q == t
    ensures Block(g, i, j, h, w)[t] == g[i + p][j + q]
  {
    assert w > 0;
    p, q := t / w, t % w;
    BlockAt(g, i, j, h, w, p, q);
  }

  /** A sequence is its prefix before i, its element at i and its suffix after i. */
  lemma SplitAt<T>(b: seq<T>, i: int)
    requires 0 <= i < |b|
    ensures b == b[..i] + [b[i]] + b[i + 1 ..]
  {
    assert b[..i] + [b[i]] + b[i + 1 ..] == b[..i] + b[i..];
  }
}
