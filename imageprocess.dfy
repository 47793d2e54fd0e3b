/**
 * The integer steps of the Sobel program of ImageProcess.c: zeroed buffer
 * allocation, the hand-expanded gradients stored in `short` matrices with
 * their running maxima/minima, the writes of rescaled values one cell inside
 * a zeroed buffer, and the final midpoint threshold over the whole buffer.
 */
module ImageProcess {
  import opened Grid
  import opened Extremes
  import opened Sobel

  /** `allocateMemoryUC(row, column)`: a row×column buffer of zeros (calloc). */
  method AllocateMemoryUC(row: int, column: int) returns (m: array2<byte>)
    requires 0 <= row && 0 <= column
    ensures fresh(m) && m.Length0 == row && m.Length1 == column
    ensures forall r, c :: 0 <= r < row && 0 <= c < column ==> m[r, c] == 0
  {
    m := new byte[row, column]((r, c) => 0);
  }

  /** `allocateMemoryS(row, column)`: a row×column `short` matrix whose contents are unspecified (malloc). */
  method AllocateMemoryS(row: int, column: int) returns (m: array2<int16>)
    requires 0 <= row && 0 <= column
    ensures fresh(m) && m.Length0 == row && m.Length1 == column
  {
    m := new int16[row, column]((r, c) => 0);
  }

  /**
   * The body of the gradient loop of ImageProcess.c for anchor (i, j): the
   * closed-form gradients go to x_matrix[i][j] and y_matrix[i][j] (they fit
   * a `short`) and are fed to the trackers.
   */
  method ClosedFormCell(p: array2<byte>, xm: array2<int16>, ym: array2<int16>, i: int, j: int, ex0: Tracker, ey0: Tracker,
                        ghost g: seq<seq<int>>, ghost vx: int, ghost vy: int) returns (ex: Tracker, ey: Tracker)
    requires xm != ym && p as object != xm && p as object != ym && g == Snapshot(p)
    requires 0 <= i < xm.Length0 && i < ym.Length0 && 0 <= j < xm.Length1 && j < ym.Length1
    requires i + 3 <= p.Length0 && j + 3 <= p.Length1
    requires Fits(g, i, j, 3, 3) && vx == Gradient(g, i, j, XKernel) && vy == Gradient(g, i, j, YKernel)
    modifies xm, ym
    ensures ex == Step(ex0, vx) && ey == Step(ey0, vy)
    ensures xm[i, j] == vx && ym[i, j] == vy
    ensures forall a, b :: 0 <= a < xm.Length0 && 0 <= b < xm.Length1 && (a != i || b != j) ==> xm[a, b] == old(xm[a, b])
    ensures forall a, b :: 0 <= a < ym.Length0 && 0 <= b < ym.Length1 && (a != i || b != j) ==> ym[a, b] == old(ym[a, b])
  {
    ClosedFormsAreKernelSums(g, i, j);
    GradientBounds(g, i, j);
    xm[i, j] := p[i, j + 2] + p[i + 2, j + 2] - p[i, j] - p[i + 2, j] + 2 * (p[i + 1, j + 2] - p[i + 1, j]);
    ym[i, j] := p[i + 2, j] + p[i + 2, j + 2] - p[i, j] - p[i, j + 2] + 2 * (p[i + 2, j + 1] - p[i, j + 1]);
    ex := Track(ex0, xm[i, j]);
    ey := Track(ey0, ym[i, j]);
  }

  /** The inner loop of the gradient pass for row i: anchors (i, j), j < cols. */
  method ClosedFormRow(p: array2<byte>, xm: array2<int16>, ym: array2<int16>, i: int, cols: int, ex0: Tracker, ey0: Tracker,
                       ghost g: seq<seq<int>>, ghost gx: seq<int>, ghost gy: seq<int>) returns (ex: Tracker, ey: Tracker)
    requires xm != ym && p as object != xm && p as object != ym && g == Snapshot(p)
    requires 0 <= i < xm.Length0 && i < ym.Length0 && 0 <= cols <= xm.Length1 && cols <= ym.Length1
    requires i + 3 <= p.Length0 && (cols == 0 || cols + 2 <= p.Length1) && |gx| == cols && |gy| == cols
    requires forall b :: 0 <= b < cols ==>
               Fits(g, i, b, 3, 3) && gx[b] == Gradient(g, i, b, XKernel) && gy[b] == Gradient(g, i, b, YKernel)
    modifies xm, ym
    ensures ex == Scan(gx, ex0) && ey == Scan(gy, ey0)
    ensures forall b :: 0 <= b < cols ==> xm[i, b] == gx[b] && ym[i, b] == gy[b]
    ensures forall a, b :: 0 <= a < xm.Length0 && 0 <= b < xm.Length1 && (a != i || b >= cols) ==> xm[a, b] == old(xm[a, b])
    ensures forall a, b :: 0 <= a < ym.Length0 && 0 <= b < ym.Length1 && (a != i || b >= cols) ==> ym[a, b] == old(ym[a, b])
  {
    ex, ey := ex0, ey0;
    for j := 0 to cols
      invariant g == Snapshot(p)
      invariant ex == Scan(gx[..j], ex0) && ey == Scan(gy[..j], ey0)
      invariant forall b :: 0 <= b < j ==> xm[i, b] == gx[b] && ym[i, b] == gy[b]
      invariant forall a, b :: 0 <= a < xm.Length0 && 0 <= b < xm.Length1 && (a != i || b >= j) ==> xm[a, b] == old(xm[a, b])
      invariant forall a, b :: 0 <= a < ym.Length0 && 0 <= b < ym.Length1 && (a != i || b >= j) ==> ym[a, b] == old(ym[a, b])
    {
      ScanPrefix(gx, j, ex0);
      ScanPrefix(gy, j, ey0);
      ex, ey := ClosedFormCell(p, xm, ym, i, j, ex, ey, g, gx[j], gy[j]);
    }
    assert gx[..cols] == gx && gy[..cols] == gy;
  }

  /** One iteration of the outer gradient loop: row i of both gradient grids is stored and fed to the trackers. */
  method ClosedFormPassRow(p: array2<byte>, xm: array2<int16>, ym: array2<int16>, i: int, ex0: Tracker, ey0: Tracker,
                           ex1: Tracker, ey1: Tracker, ghost g: seq<seq<int>>, ghost gridX: seq<seq<int>>, ghost gridY: seq<seq<int>>)
    returns (ex: Tracker, ey: Tracker)
    requires xm != ym && p as object != xm && p as object != ym && g == Snapshot(p)
    requires 1 <= p.Length0 && 1 <= p.Length1
    requires xm.Length0 == ym.Length0 == p.Length0 - 1 && xm.Length1 == ym.Length1 == p.Length1 - 1
    requires IsRect(XKernel, 3, 3) && IsRect(YKernel, 3, 3)
    requires IsGradientGrid(gridX, g, Inner(p.Length0), Inner(p.Length1), XKernel)
    requires IsGradientGrid(gridY, g, Inner(p.Length0), Inner(p.Length1), YKernel)
    requires 0 <= i < Inner(p.Length0)
    requires ex1 == Scan(Block(gridX, 0, 0, i, Inner(p.Length1)), ex0) && ey1 == Scan(Block(gridY, 0, 0, i, Inner(p.Length1)), ey0)
    requires forall a, b :: 0 <= a < i && 0 <= b < Inner(p.Length1) ==> xm[a, b] == gridX[a][b] && ym[a, b] == gridY[a][b]
    modifies xm, ym
    ensures ex == Scan(Block(gridX, 0, 0, i + 1, Inner(p.Length1)), ex0)
    ensures ey == Scan(Block(gridY, 0, 0, i + 1, Inner(p.Length1)), ey0)
    ensures forall a, b :: 0 <= a < i + 1 && 0 <= b < Inner(p.Length1) ==> xm[a, b] == gridX[a][b] && ym[a, b] == gridY[a][b]
    ensures forall a, b :: 0 <= a < xm.Length0 && 0 <= b < xm.Length1 && (a != i || b >= Inner(p.Length1)) ==>
              xm[a, b] == old(xm[a, b]) && ym[a, b] == old(ym[a, b])
  {
    ex, ey := ClosedFormRow(p, xm, ym, i, Inner(p.Length1), ex1, ey1, g, gridX[i], gridY[i]);
    ScanNextRow(gridX, i, Inner(p.Length0), Inner(p.Length1), ex0);
    ScanNextRow(gridY, i, Inner(p.Length0), Inner(p.Length1), ey0);
  }

  /**
   * The loops of the gradient pass over grids `gridX`/`gridY` of the
   * gradients of `g`: they end up in x_matrix/y_matrix and have been fed to
   * the trackers in row-major order.
   */
  method ClosedFormPass(p: array2<byte>, xm: array2<int16>, ym: array2<int16>, start: Tracker,
                        ghost g: seq<seq<int>>, ghost gridX: seq<seq<int>>, ghost gridY: seq<seq<int>>) returns (ex: Tracker, ey: Tracker)
    requires xm != ym && p as object != xm && p as object != ym && g == Snapshot(p)
    requires 1 <= p.Length0 && 1 <= p.Length1
    requires xm.Length0 == ym.Length0 == p.Length0 - 1 && xm.Length1 == ym.Length1 == p.Length1 - 1
    requires IsRect(XKernel, 3, 3) && IsRect(YKernel, 3, 3)
    requires IsGradientGrid(gridX, g, Inner(p.Length0), Inner(p.Length1), XKernel)
    requires IsGradientGrid(gridY, g, Inner(p.Length0), Inner(p.Length1), YKernel)
    modifies xm, ym
    ensures forall a, b :: 0 <= a < Inner(p.Length0) && 0 <= b < Inner(p.Length1) ==> xm[a, b] == gridX[a][b] && ym[a, b] == gridY[a][b]
    ensures forall a, b :: 0 <= a < xm.Length0 && 0 <= b < xm.Length1 && (a >= Inner(p.Length0) || b >= Inner(p.Length1)) ==>
              xm[a, b] == old(xm[a, b]) && ym[a, b] == old(ym[a, b])
    ensures ex == Scan(Block(gridX, 0, 0, Inner(p.Length0), Inner(p.Length1)), start)
    ensures ey == Scan(Block(gridY, 0, 0, Inner(p.Length0), Inner(p.Length1)), start)
  {
    var rows, cols := Inner(p.Length0), Inner(p.Length1);
    ex, ey := start, start;
    for i := 0 to rows
      invariant g == Snapshot(p)
      invariant ex == Scan(Block(gridX, 0, 0, i, cols), start) && ey == Scan(Block(gridY, 0, 0, i, cols), start)
      invariant forall a, b :: 0 <= a < i && 0 <= b < cols ==> xm[a, b] == gridX[a][b] && ym[a, b] == gridY[a][b]
      invariant forall a, b :: 0 <= a < xm.Length0 && 0 <= b < xm.Length1 && (a >= i || b >= cols) ==>
                  xm[a, b] == old(xm[a, b]) && ym[a, b] == old(ym[a, b])
    {
      ex, ey := ClosedFormPassRow(p, xm, ym, i, start, start, ex, ey, g, gridX, gridY);
    }
  }

  /**
   * The gradient loop of ImageProcess.c (rows and columns `row - 2` and
   * `column - 2`): x_matrix/y_matrix receive the closed-form gradients of
   * every anchor, which are the kernel sums of filter_sobel, and the
   * trackers, started at -DBL_MAX and DBL_MAX, have been fed every gradient
   * in row-major order. The last row and column of the matrices, which no
   * anchor reaches, are not touched.
   */
  method ClosedFormGradients(p: array2<byte>, xm: array2<int16>, ym: array2<int16>) returns (ex: Tracker, ey: Tracker)
    requires xm != ym && p as object != xm && p as object != ym
    requires 1 <= p.Length0 && 1 <= p.Length1
    requires xm.Length0 == ym.Length0 == p.Length0 - 1 && xm.Length1 == ym.Length1 == p.Length1 - 1
    modifies xm, ym
    ensures forall a, b :: 0 <= a < Inner(p.Length0) && 0 <= b < Inner(p.Length1) ==>
              xm[a, b] == GradientGrid(Snapshot(p), p.Length0, p.Length1, XKernel)[a][b] &&
              ym[a, b] == GradientGrid(Snapshot(p), p.Length0, p.Length1, YKernel)[a][b]
    ensures forall a, b :: 0 <= a < xm.Length0 && 0 <= b < xm.Length1 && (a >= Inner(p.Length0) || b >= Inner(p.Length1)) ==>
              xm[a, b] == old(xm[a, b]) && ym[a, b] == old(ym[a, b])
    ensures ex == Scan(Gradients(Snapshot(p), p.Length0, p.Length1, XKernel), Tracker(-DblMax, DblMax))
    ensures ey == Scan(Gradients(Snapshot(p), p.Length0, p.Length1, YKernel), Tracker(-DblMax, DblMax))
  {
    KernelsAreSquare();
    ghost var g: seq<seq<int>> := Snapshot(p);
    ghost var gridX := GradientGrid(g, p.Length0, p.Length1, XKernel);
    ghost var gridY := GradientGrid(g, p.Length0, p.Length1, YKernel);
    assert IsGradientGrid(gridX, g, Inner(p.Length0), Inner(p.Length1), XKernel);
    assert IsGradientGrid(gridY, g, Inner(p.Length0), Inner(p.Length1), YKernel);
    ex, ey := ClosedFormPass(p, xm, ym, Tracker(-DblMax, DblMax), g, gridX, gridY);
  }

  /**
   * The trackers of the gradient pass, started at (-DBL_MAX, DBL_MAX), over
   * values that fit in [-1020, 1020]: the first value always raises the
   * maximum, so the maximum is the largest value and the minimum is DBL_MAX
   * or one of the later values that did not raise the maximum.
   */
  lemma ClosedFormTrackers(s: seq<int>)
    requires |s| > 0 && forall t :: 0 <= t < |s| ==> -1020 <= s[t] <= 1020
    ensures forall t :: 0 <= t < |s| ==> s[t] as real <= Scan(s, Tracker(-DblMax, DblMax)).max
    ensures exists t :: 0 <= t < |s| && Scan(s, Tracker(-DblMax, DblMax)).max == s[t] as real
    ensures Scan(s, Tracker(-DblMax, DblMax)).min == DblMax ||
            exists t :: 1 <= t < |s| && Scan(s, Tracker(-DblMax, DblMax)).min == s[t] as real
  {
    var e := Tracker(-DblMax, DblMax);
    ScanMaxIsLargest(s, e);
    assert Scan([s[0]], e) == Tracker(s[0] as real, DblMax) by {
      assert [s[0]][..0] == [];
    }
    assert s == [s[0]] + s[1..];
    ScanConcat([s[0]], s[1..], e);
    ScanMin(s[1..], Tracker(s[0] as real, DblMax));
    if Scan(s, e).min != DblMax {
      var u :| 0 <= u < |s[1..]| && Scan(s, e).min == s[1..][u] as real;
      assert Scan(s, e).min == s[u + 1] as real;
    }
  }

  /** One row of the rescale loop: row r of the buffer receives scale(x_matrix[r - 1][j]) at columns j + 1. */
  method WriteInteriorRow(dst: array2<byte>, src: array2<int16>, scale: int -> byte, r: int)
    requires dst as object != src
    requires dst.Length0 == src.Length0 + 1 && dst.Length1 == src.Length1 + 1
    requires 1 <= r <= Inner(dst.Length0)
    modifies dst
    ensures forall b :: 1 <= b <= Inner(dst.Length1) ==> dst[r, b] == scale(src[r - 1, b - 1])
    ensures forall a, b :: 0 <= a < dst.Length0 && 0 <= b < dst.Length1 && (a != r || b == 0 || b > Inner(dst.Length1)) ==>
              dst[a, b] == old(dst[a, b])
  {
    for j := 0 to Inner(dst.Length1)
      invariant forall b :: 1 <= b <= j ==> dst[r, b] == scale(src[r - 1, b - 1])
      invariant forall a, b :: 0 <= a < dst.Length0 && 0 <= b < dst.Length1 && (a != r || b == 0 || b > j) ==>
                  dst[a, b] == old(dst[a, b])
    {
      dst[r, j + 1] := scale(src[r - 1, j]);
    }
  }

  /**
   * The rescale loops of ImageProcess.c (mtrX, mtrY and mtrXY): for every
   * anchor (i, j) the buffer receives at (i + 1, j + 1) the rescaled value of
   * cell (i, j) of the `short` matrix. The floating-point rescale is the
   * parameter `scale`. Row 0, column 0, and the last row and column are not
   * written.
   */
  method WriteInterior(dst: array2<byte>, src: array2<int16>, scale: int -> byte)
    requires dst as object != src
    requires dst.Length0 == src.Length0 + 1 && dst.Length1 == src.Length1 + 1
    modifies dst
    ensures forall a, b :: 1 <= a <= Inner(dst.Length0) && 1 <= b <= Inner(dst.Length1) ==> dst[a, b] == scale(src[a - 1, b - 1])
    ensures forall a, b :: 0 <= a < dst.Length0 && 0 <= b < dst.Length1 &&
                           (a == 0 || b == 0 || a > Inner(dst.Length0) || b > Inner(dst.Length1)) ==>
              dst[a, b] == old(dst[a, b])
  {
    for i := 0 to Inner(dst.Length0)
      invariant forall a, b :: 1 <= a <= i && 1 <= b <= Inner(dst.Length1) ==> dst[a, b] == scale(src[a - 1, b - 1])
      invariant forall a, b :: 0 <= a < dst.Length0 && 0 <= b < dst.Length1 &&
                               (a == 0 || b == 0 || a > i || b > Inner(dst.Length1)) ==>
                  dst[a, b] == old(dst[a, b])
    {
      WriteInteriorRow(dst, src, scale, i + 1);
    }
  }

  /**
   * allocateMemoryUC followed by the rescale loop: the buffer holds the
   * rescaled gradients inside a one-pixel border of zeros.
   */
  method RescaledBuffer(src: array2<int16>, row: int, column: int, scale: int -> byte) returns (m: array2<byte>)
    requires 1 <= row && 1 <= column && src.Length0 == row - 1 && src.Length1 == column - 1
    ensures fresh(m) && m.Length0 == row && m.Length1 == column
    ensures forall a, b :: 1 <= a <= Inner(row) && 1 <= b <= Inner(column) ==> m[a, b] == scale(src[a - 1, b - 1])
    ensures forall a, b :: 0 <= a < row && 0 <= b < column && (a == 0 || b == 0 || a == row - 1 || b == column - 1) ==> m[a, b] == 0
  {
    m := AllocateMemoryUC(row, column);
    WriteInterior(m, src, scale);
  }

  /** One row of the threshold scan: the trackers are fed row i in column order. */
  method ScanRow(m: array2<byte>, i: int, e0: Tracker, ghost row: seq<int>) returns (e: Tracker)
    requires 0 <= i < m.Length0 && |row| == m.Length1
    requires forall c :: 0 <= c < m.Length1 ==> row[c] == m[i, c]
    ensures e == Scan(row, e0)
  {
    e := e0;
    for j := 0 to m.Length1
      invariant e == Scan(row[..j], e0)
    {
      ScanPrefix(row, j, e0);
      e := Track(e, m[i, j]);
    }
    assert row[..m.Length1] == row;
  }

  /**
   * The scan before the threshold: the trackers, reset to (-DBL_MAX,
   * DBL_MAX), are fed the whole buffer, border included, in row-major order.
   */
  method ScanExtremes(m: array2<byte>) returns (e: Tracker)
    ensures e == Scan(Block<int>(Snapshot(m), 0, 0, m.Length0, m.Length1), Tracker(-DblMax, DblMax))
  {
    ghost var g: seq<seq<int>> := Snapshot(m);
    var start := Tracker(-DblMax, DblMax);
    e := start;
    for i := 0 to m.Length0
      invariant e == Scan(Block(g, 0, 0, i, m.Length1), start)
    {
      e := ScanRow(m, i, e, g[i]);
      ScanNextRow(g, i, m.Length0, m.Length1, start);
    }
  }

  /** The threshold of one sample: 0 below the midpoint of the trackers, 255 otherwise. */
  function BinaryLevel(v: int, e: Tracker): (r: byte)
    ensures r == 0 || r == 255
  {
    if (v as real) < (e.max + e.min) / 2.0 then 0 else 255
  }

  /**
   * With whole-number trackers the midpoint comparison of doubles is the
   * exact integer comparison 2 * v < max + min.
   */
  lemma BinaryLevelExact(v: int, hi: int, lo: int)
    ensures BinaryLevel(v, Tracker(hi as real, lo as real)) == 0 <==> 2 * v < hi + lo
  {
    assert (v as real) < (hi as real + lo as real) / 2.0 <==> 2.0 * (v as real) < (hi + lo) as real;
  }

  /** One row of the binarising loop, each sample compared against the same midpoint. */
  method BinarizeRow(m: array2<byte>, i: int, e: Tracker)
    requires 0 <= i < m.Length0
    modifies m
    ensures forall c :: 0 <= c < m.Length1 ==> m[i, c] == BinaryLevel(old(m[i, c]), e)
    ensures forall a, c :: 0 <= a < m.Length0 && 0 <= c < m.Length1 && a != i ==> m[a, c] == old(m[a, c])
  {
    for j := 0 to m.Length1
      invariant forall c :: 0 <= c < j ==> m[i, c] == BinaryLevel(old(m[i, c]), e)
      invariant forall a, c :: 0 <= a < m.Length0 && 0 <= c < m.Length1 && (a != i || c >= j) ==> m[a, c] == old(m[a, c])
    {
      if (m[i, j] as real) < (e.max + e.min) / 2.0 {
        m[i, j] := 0;
      } else {
        m[i, j] := 255;
      }
    }
  }

  /** The binarising loop: every sample of the buffer becomes 0 or 255 by the midpoint of `e`. */
  method Binarize(m: array2<byte>, e: Tracker)
    modifies m
    ensures forall a, c :: 0 <= a < m.Length0 && 0 <= c < m.Length1 ==> m[a, c] == BinaryLevel(old(m[a, c]), e)
  {
    for i := 0 to m.Length0
      invariant forall a, c :: 0 <= a < i && 0 <= c < m.Length1 ==> m[a, c] == BinaryLevel(old(m[a, c]), e)
      invariant forall a, c :: i <= a < m.Length0 && 0 <= c < m.Length1 ==> m[a, c] == old(m[a, c])
    {
      BinarizeRow(m, i, e);
    }
  }

  /**
   * The threshold step of ImageProcess.c: scan the whole buffer for its
   * extremes, then binarise it against their midpoint. Every sample ends as
   * 0 or 255, whatever the image's maximum gray value.
   */
  method Threshold(m: array2<byte>) returns (e: Tracker)
    modifies m
    ensures e == Scan(Block<int>(old(Snapshot(m)), 0, 0, m.Length0, m.Length1), Tracker(-DblMax, DblMax))
    ensures forall a, c :: 0 <= a < m.Length0 && 0 <= c < m.Length1 ==>
              m[a, c] == BinaryLevel(old(m[a, c]), e) && (m[a, c] == 0 || m[a, c] == 255)
  {
    e := ScanExtremes(m);
    Binarize(m, e);
  }

  /**
   * The threshold of a buffer built by RescaledBuffer (row 0 is zero border,
   * every sample a byte): the scan ends with minimum 0 and maximum the
   * largest sample, so a sample becomes 0 exactly when it is below half the
   * largest sample.
   */
  lemma BorderedThreshold(g: seq<seq<int>>, rows: int, cols: int)
    requires IsRect(g, rows, cols) && 1 <= rows && 2 <= cols
    requires g[0][0] == 0 && g[0][1] == 0
    requires forall r, c :: 0 <= r < rows && 0 <= c < cols ==> 0 <= g[r][c] <= 255
    ensures Scan(Block(g, 0, 0, rows, cols), Tracker(-DblMax, DblMax)).min == 0.0
    ensures forall r, c :: 0 <= r < rows && 0 <= c < cols ==> g[r][c] as real <= Scan(Block(g, 0, 0, rows, cols), Tracker(-DblMax, DblMax)).max
    ensures exists r, c :: 0 <= r < rows && 0 <= c < cols && Scan(Block(g, 0, 0, rows, cols), Tracker(-DblMax, DblMax)).max == g[r][c] as real
    ensures forall r, c :: 0 <= r < rows && 0 <= c < cols ==>
              (BinaryLevel(g[r][c], Scan(Block(g, 0, 0, rows, cols), Tracker(-DblMax, DblMax))) == 0 <==>
               2.0 * g[r][c] as real < Scan(Block(g, 0, 0, rows, cols), Tracker(-DblMax, DblMax)).max)
  {
    var s := Block(g, 0, 0, rows, cols);
    var e := Scan(s, Tracker(-DblMax, DblMax));
    BlockAt(g, 0, 0, rows, cols, 0, 0);
    BlockAt(g, 0, 0, rows, cols, 0, 1);
    BlockAll(g, 0, 0, rows, cols, x => 0 <= x);
    ThresholdScanFromZeroBorder(s);
    forall r, c | 0 <= r < rows && 0 <= c < cols
      ensures g[r][c] as real <= e.max
    {
      BlockAt(g, 0, 0, rows, cols, r, c);
    }
    var t :| 0 <= t < |s| && e.max == s[t] as real;
    var r, c := BlockIndex(g, 0, 0, rows, cols, t);
  }
}
