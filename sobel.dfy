/**
 * The integer stage of the Sobel edge filter: the two fixed 3×3 kernel sums
 * of `filter_sobel` (pgm.c), the hand-expanded form of the same sums used by
 * ImageProcess.c, and the running maximum/minimum pass of `filter_sobel`.
 * The gradients are whole numbers; the C code keeps them in `double`s.
 */
module Sobel {
  import opened Grid
  import opened Pgm
  import opened Extremes

  /** `x_sobel`: the kernel of the horizontal gradient. */
  const XKernel: seq<seq<int>> := [[-1, 0, 1], [-2, 0, 2], [-1, 0, 1]]

  /** `y_sobel`: the kernel of the vertical gradient. */
  const YKernel: seq<seq<int>> := [[-1, -2, -1], [0, 0, 0], [1, 2, 1]]

  /** Sum of the pointwise products of two sequences of the same length. */
  function Dot(a: seq<int>, b: seq<int>): int
    requires |a| == |b|
  {
    if a == [] then 0 else Dot(a[..|a| - 1], b[..|b| - 1]) + a[|a| - 1] * b[|b| - 1]
  }

  /** `Dot` distributes over concatenation. */
  lemma {:induction false} DotConcat(a: seq<int>, b: seq<int>, c: seq<int>, d: seq<int>)
    requires |a| == |c| && |b| == |d|
    ensures Dot(a + b, c + d) == Dot(a, c) + Dot(b, d)
    decreases |b|
  {
    if b == [] {
      assert a + b == a && c + d == c;
    } else {
      assert (a + b)[..|a + b| - 1] == a + b[..|b| - 1];
      assert (c + d)[..|c + d| - 1] == c + d[..|d| - 1];
      DotConcat(a, b[..|b| - 1], c, d[..|d| - 1]);
    }
  }

  /** `Dot` of two three-element sequences, written out. */
  lemma Dot3(a: seq<int>, b: seq<int>)
    requires |a| == 3 && |b| == 3
    ensures Dot(a, b) == a[0] * b[0] + a[1] * b[1] + a[2] * b[2]
  {
    assert a[..1][..0] == [] && b[..1][..0] == [];
    assert Dot(a[..1], b[..1]) == a[0] * b[0];
    assert a[..2][..1] == a[..1] && b[..2][..1] == b[..1];
    assert Dot(a[..2], b[..2]) == a[0] * b[0] + a[1] * b[1];
  }

  /**
   * The kernel sum `filter_sobel` accumulates for the 3×3 window anchored at
   * (i, j): window cell (m, n) times kernel entry (m, n), summed.
   */
  function Gradient(g: seq<seq<int>>, i: nat, j: nat, k: seq<seq<int>>): int
    requires Fits(g, i, j, 3, 3) && IsRect(k, 3, 3)
  {
    Dot(Window(g, i, j, 3), Window(k, 0, 0, 3))
  }

  /** The kernel sum as its nine products. */
  lemma GradientExpanded(g: seq<seq<int>>, i: nat, j: nat, k: seq<seq<int>>)
    requires Fits(g, i, j, 3, 3) && IsRect(k, 3, 3)
    ensures Gradient(g, i, j, k) ==
              g[i][j] * k[0][0] + g[i][j + 1] * k[0][1] + g[i][j + 2] * k[0][2] +
              g[i + 1][j] * k[1][0] + g[i + 1][j + 1] * k[1][1] + g[i + 1][j + 2] * k[1][2] +
              g[i + 2][j] * k[2][0] + g[i + 2][j + 1] * k[2][1] + g[i + 2][j + 2] * k[2][2]
  {
    var r0, r1, r2 := g[i][j .. j + 3], g[i + 1][j .. j + 3], g[i + 2][j .. j + 3];
    var k0, k1, k2 := k[0][0 .. 3], k[1][0 .. 3], k[2][0 .. 3];
    assert Block(g, i, j, 1, 3) == [] + r0 == r0;
    assert Block(k, 0, 0, 1, 3) == [] + k0 == k0;
    assert Window(g, i, j, 3) == r0 + r1 + r2;
    assert Window(k, 0, 0, 3) == k0 + k1 + k2;
    DotConcat(r0 + r1, r2, k0 + k1, k2);
    DotConcat(r0, r1, k0, k1);
    Dot3(r0, k0);
    Dot3(r1, k1);
    Dot3(r2, k2);
  }

  /** The hand-expanded x gradient of ImageProcess.c. */
  function ClosedX(g: seq<seq<int>>, i: nat, j: nat): int
    requires Fits(g, i, j, 3, 3)
  {
    g[i][j + 2] + g[i + 2][j + 2] - g[i][j] - g[i + 2][j] + 2 * (g[i + 1][j + 2] - g[i + 1][j])
  }

  /** The hand-expanded y gradient of ImageProcess.c. */
  function ClosedY(g: seq<seq<int>>, i: nat, j: nat): int
    requires Fits(g, i, j, 3, 3)
  {
    g[i + 2][j] + g[i + 2][j + 2] - g[i][j] - g[i][j + 2] + 2 * (g[i + 2][j + 1] - g[i][j + 1])
  }

  /** The two files compute the same gradients: the closed forms are the kernel sums. */
  lemma ClosedFormsAreKernelSums(g: seq<seq<int>>, i: nat, j: nat)
    requires Fits(g, i, j, 3, 3)
    ensures ClosedX(g, i, j) == Gradient(g, i, j, XKernel)
    ensures ClosedY(g, i, j) == Gradient(g, i, j, YKernel)
  {
    GradientExpanded(g, i, j, XKernel);
    GradientExpanded(g, i, j, YKernel);
  }

  /** Each kernel's weights add up to 0, so a window whose samples are all v has gradient 0. */
  lemma FlatWindowGradient(g: seq<seq<int>>, i: nat, j: nat, v: int)
    requires Fits(g, i, j, 3, 3)
    requires forall r, c :: i <= r < i + 3 && j <= c < j + 3 ==> g[r][c] == v
    ensures Gradient(g, i, j, XKernel) == 0 && Gradient(g, i, j, YKernel) == 0
  {
    ClosedFormsAreKernelSums(g, i, j);
  }

  /**
   * The gradients of 8-bit samples lie in [-1020, 1020] (4 * 255), so they
   * fit the `short` matrices of ImageProcess.c.
   */
  lemma GradientBounds(g: seq<seq<int>>, i: nat, j: nat)
    requires Fits(g, i, j, 3, 3)
    requires forall r, c :: i <= r < i + 3 && j <= c < j + 3 ==> 0 <= g[r][c] <= 255
    ensures -1020 <= Gradient(g, i, j, XKernel) <= 1020
    ensures -1020 <= Gradient(g, i, j, YKernel) <= 1020
  {
    ClosedFormsAreKernelSums(g, i, j);
  }

  /** Number of 3×3 anchors along a side of n samples: the loops run `n - 2` times, none when that is negative. */
  function Inner(n: int): nat
  {
    if n >= 2 then n - 2 else 0
  }

  /** The gradient of every anchor of a height×width grid. */
  function GradientGrid(g: seq<seq<int>>, height: int, width: int, k: seq<seq<int>>): (G: seq<seq<int>>)
    requires IsRect(g, height, width) && IsRect(k, 3, 3)
    ensures IsRect(G, Inner(height), Inner(width))
    ensures forall a, b :: 0 <= a < Inner(height) && 0 <= b < Inner(width) ==>
              Fits(g, a, b, 3, 3) && G[a][b] == Gradient(g, a, b, k)
  {
    seq(Inner(height), a requires 0 <= a < Inner(height) =>
      seq(Inner(width), b requires 0 <= b < Inner(width) => Gradient(g, a, b, k)))
  }

  /**
   * `G` is the rows×cols grid of k-gradients of `g`. The relation is only
   * instantiated for a gradient term already in sight, which keeps the frame
   * reasoning of the loops over `G` cheap.
   */
  predicate IsGradientGrid(G: seq<seq<int>>, g: seq<seq<int>>, rows: int, cols: int, k: seq<seq<int>>)
    requires IsRect(k, 3, 3)
  {
    IsRect(G, rows, cols) &&
    forall a, b {:trigger Gradient(g, a, b, k)} :: 0 <= a < rows && 0 <= b < cols ==>
      Fits(g, a, b, 3, 3) && G[a][b] == Gradient(g, a, b, k)
  }

  /** The gradients in the order the loops produce them (row by row). */
  function Gradients(g: seq<seq<int>>, height: int, width: int, k: seq<seq<int>>): seq<int>
    requires IsRect(g, height, width) && IsRect(k, 3, 3)
  {
    Block(GradientGrid(g, height, width, k), 0, 0, Inner(height), Inner(width))
  }

  /**
   * The inner `n` loop of filter_sobel for one window row: adds the products
   * of the samples data[r][j .. j + 2] (listed in `row`) with the kernel rows
   * `kx` and `ky`.
   */
  method KernelRow(data: array2<byte>, r: int, j: int, kx: seq<int>, ky: seq<int>, x0: int, y0: int, ghost row: seq<int>)
    returns (x: int, y: int)
    requires |row| == 3 && |kx| == 3 && |ky| == 3 && 0 <= r < data.Length0 && 0 <= j && j + 3 <= data.Length1
    requires forall n :: 0 <= n < 3 ==> row[n] == data[r, j + n]
    ensures x == x0 + Dot(row, kx) && y == y0 + Dot(row, ky)
  {
    x, y := x0, y0;
    for n := 0 to 3
      invariant x == x0 + Dot(row[..n], kx[..n]) && y == y0 + Dot(row[..n], ky[..n])
    {
      assert row[..n + 1][..n] == row[..n] && kx[..n + 1][..n] == kx[..n] && ky[..n + 1][..n] == ky[..n];
      x := x + data[r, j + n] * kx[n];
      y := y + data[r, j + n] * ky[n];
    }
    assert row[..3] == row && kx[..3] == kx && ky[..3] == ky;
  }

  /**
   * The `m`/`n` loops of filter_sobel: the sums of the window anchored at
   * (i, j) weighted by the two 3×3 kernels `kx` and `ky`.
   */
  method KernelSums(data: array2<byte>, i: int, j: int, kx: seq<seq<int>>, ky: seq<seq<int>>) returns (x: int, y: int)
    requires 0 <= i && 0 <= j && i + 3 <= data.Length0 && j + 3 <= data.Length1 && IsRect(kx, 3, 3) && IsRect(ky, 3, 3)
    ensures Fits(Snapshot(data), i, j, 3, 3)
    ensures x == Gradient(Snapshot(data), i, j, kx) && y == Gradient(Snapshot(data), i, j, ky)
  {
    ghost var g: seq<seq<int>> := Snapshot(data);
    x, y := 0, 0;
    for m := 0 to 3
      invariant Fits(g, i, j, m, 3)
      invariant x == Dot(Block(g, i, j, m, 3), Block(kx, 0, 0, m, 3))
      invariant y == Dot(Block(g, i, j, m, 3), Block(ky, 0, 0, m, 3))
    {
      ghost var row := g[i + m][j .. j + 3];
      assert kx[m][0 .. 3] == kx[m] && ky[m][0 .. 3] == ky[m];
      x, y := KernelRow(data, i + m, j, kx[m], ky[m], x, y, row);
      DotConcat(Block(g, i, j, m, 3), row, Block(kx, 0, 0, m, 3), kx[m]);
      DotConcat(Block(g, i, j, m, 3), row, Block(ky, 0, 0, m, 3), ky[m]);
    }
  }

  /** The `if … else if …` update of one pair of trackers by the value v. */
  method Track(e: Tracker, v: int) returns (e': Tracker)
    ensures e' == Step(e, v)
  {
    e' := e;
    if v as real > e'.max {
      e' := e'.(max := v as real);
    } else if (v as real) < e'.min {
      e' := e'.(min := v as real);
    }
  }

  /**
   * The body of filter_sobel's inner anchor loop: the kernel sums vx, vy of
   * the window anchored at (i, j) go to temp_x[i][j] and temp_y[i][j] and are
   * fed to the trackers.
   */
  method SobelCell(data: array2<byte>, tx: array2<int>, ty: array2<int>, i: int, j: int, ex0: Tracker, ey0: Tracker,
                   ghost g: seq<seq<int>>, ghost vx: int, ghost vy: int) returns (ex: Tracker, ey: Tracker)
    requires tx != ty && data as object != tx && data as object != ty && g == Snapshot(data)
    requires 0 <= i < tx.Length0 && i < ty.Length0 && 0 <= j < tx.Length1 && j < ty.Length1
    requires i + 3 <= data.Length0 && j + 3 <= data.Length1
    requires Fits(g, i, j, 3, 3) && vx == Gradient(g, i, j, XKernel) && vy == Gradient(g, i, j, YKernel)
    modifies tx, ty
    ensures ex == Step(ex0, vx) && ey == Step(ey0, vy)
    ensures tx[i, j] == vx && ty[i, j] == vy
    ensures forall a, b :: 0 <= a < tx.Length0 && 0 <= b < tx.Length1 && (a != i || b != j) ==> tx[a, b] == old(tx[a, b])
    ensures forall a, b :: 0 <= a < ty.Length0 && 0 <= b < ty.Length1 && (a != i || b != j) ==> ty[a, b] == old(ty[a, b])
  {
    var x, y := KernelSums(data, i, j, XKernel, YKernel);
    tx[i, j] := x;
    ty[i, j] := y;
    ex := Track(ex0, x);
    ey := Track(ey0, y);
  }

  /**
   * One pass of filter_sobel's outer loop: for the anchors (i, j), j < cols,
   * stores both kernel sums in row i of temp_x/temp_y and feeds them, in
   * order, to the running trackers.
   */
  method SobelRow(data: array2<byte>, tx: array2<int>, ty: array2<int>, i: int, cols: int, ex0: Tracker, ey0: Tracker,
                  ghost g: seq<seq<int>>, ghost gx: seq<int>, ghost gy: seq<int>) returns (ex: Tracker, ey: Tracker)
    requires tx != ty && data as object != tx && data as object != ty && g == Snapshot(data)
    requires 0 <= i < tx.Length0 && i < ty.Length0 && 0 <= cols <= tx.Length1 && cols <= ty.Length1
    requires i + 3 <= data.Length0 && (cols == 0 || cols + 2 <= data.Length1) && |gx| == cols && |gy| == cols
    requires forall b :: 0 <= b < cols ==>
               Fits(g, i, b, 3, 3) && gx[b] == Gradient(g, i, b, XKernel) && gy[b] == Gradient(g, i, b, YKernel)
    modifies tx, ty
    ensures ex == Scan(gx, ex0) && ey == Scan(gy, ey0)
    ensures forall b :: 0 <= b < cols ==> tx[i, b] == gx[b] && ty[i, b] == gy[b]
    ensures forall a, b :: 0 <= a < tx.Length0 && 0 <= b < tx.Length1 && a != i ==> tx[a, b] == old(tx[a, b])
    ensures forall a, b :: 0 <= a < ty.Length0 && 0 <= b < ty.Length1 && a != i ==> ty[a, b] == old(ty[a, b])
  {
    ex, ey := ex0, ey0;
    for j := 0 to cols
      invariant g == Snapshot(data)
      invariant ex == Scan(gx[..j], ex0) && ey == Scan(gy[..j], ey0)
      invariant forall b :: 0 <= b < j ==> tx[i, b] == gx[b] && ty[i, b] == gy[b]
      invariant forall a, b :: 0 <= a < tx.Length0 && 0 <= b < tx.Length1 && a != i ==> tx[a, b] == old(tx[a, b])
      invariant forall a, b :: 0 <= a < ty.Length0 && 0 <= b < ty.Length1 && a != i ==> ty[a, b] == old(ty[a, b])
    {
      ScanPrefix(gx, j, ex0);
      ScanPrefix(gy, j, ey0);
      ex, ey := SobelCell(data, tx, ty, i, j, ex, ey, g, gx[j], gy[j]);
    }
    assert gx[..cols] == gx && gy[..cols] == gy;
  }

  /** Both kernels are 3×3. */
  lemma KernelsAreSquare()
    ensures IsRect(XKernel, 3, 3) && IsRect(YKernel, 3, 3)
  {
  }

  /**
   * The anchor loops of filter_sobel over a rows×cols block of anchors:
   * temp_x/temp_y end up holding the two gradient grids, and the trackers
   * have been fed every gradient in row-major order.
   */
  method SobelPass(data: array2<byte>, tx: array2<int>, ty: array2<int>, ex0: Tracker, ey0: Tracker,
                   ghost g: seq<seq<int>>, ghost gridX: seq<seq<int>>, ghost gridY: seq<seq<int>>) returns (ex: Tracker, ey: Tracker)
    requires tx != ty && data as object != tx && data as object != ty && g == Snapshot(data)
    requires tx.Length0 == ty.Length0 == Inner(data.Length0) && tx.Length1 == ty.Length1 == Inner(data.Length1)
    requires IsRect(XKernel, 3, 3) && IsRect(YKernel, 3, 3)
    requires IsGradientGrid(gridX, g, tx.Length0, tx.Length1, XKernel)
    requires IsGradientGrid(gridY, g, tx.Length0, tx.Length1, YKernel)
    modifies tx, ty
    ensures Snapshot(tx) == gridX && Snapshot(ty) == gridY
    ensures ex == Scan(Block(gridX, 0, 0, tx.Length0, tx.Length1), ex0)
    ensures ey == Scan(Block(gridY, 0, 0, tx.Length0, tx.Length1), ey0)
  {
    var rows, cols := tx.Length0, tx.Length1;
    ex, ey := ex0, ey0;
    for i := 0 to rows
      invariant g == Snapshot(data)
      invariant ex == Scan(Block(gridX, 0, 0, i, cols), ex0) && ey == Scan(Block(gridY, 0, 0, i, cols), ey0)
      invariant forall a, b :: 0 <= a < i && 0 <= b < cols ==> tx[a, b] == gridX[a][b] && ty[a, b] == gridY[a][b]
    {
      ex, ey := SobelPassRow(data, tx, ty, i, ex0, ey0, ex, ey, g, gridX, gridY);
    }
    RectEqual(Snapshot(tx), gridX, rows, cols);
    RectEqual(Snapshot(ty), gridY, rows, cols);
  }

  /** One iteration of SobelPass's loop: row i of both grids is stored and fed to the trackers. */
  method SobelPassRow(data: array2<byte>, tx: array2<int>, ty: array2<int>, i: int, ex0: Tracker, ey0: Tracker,
                      ex1: Tracker, ey1: Tracker, ghost g: seq<seq<int>>, ghost gridX: seq<seq<int>>, ghost gridY: seq<seq<int>>)
    returns (ex: Tracker, ey: Tracker)
    requires tx != ty && data as object != tx && data as object != ty && g == Snapshot(data)
    requires tx.Length0 == ty.Length0 == Inner(data.Length0) && tx.Length1 == ty.Length1 == Inner(data.Length1)
    requires IsRect(XKernel, 3, 3) && IsRect(YKernel, 3, 3)
    requires IsGradientGrid(gridX, g, tx.Length0, tx.Length1, XKernel)
    requires IsGradientGrid(gridY, g, tx.Length0, tx.Length1, YKernel)
    requires 0 <= i < tx.Length0
    requires ex1 == Scan(Block(gridX, 0, 0, i, tx.Length1), ex0) && ey1 == Scan(Block(gridY, 0, 0, i, tx.Length1), ey0)
    requires forall a, b :: 0 <= a < i && 0 <= b < tx.Length1 ==> tx[a, b] == gridX[a][b] && ty[a, b] == gridY[a][b]
    modifies tx, ty
    ensures ex == Scan(Block(gridX, 0, 0, i + 1, tx.Length1), ex0) && ey == Scan(Block(gridY, 0, 0, i + 1, tx.Length1), ey0)
    ensures forall a, b :: 0 <= a < i + 1 && 0 <= b < tx.Length1 ==> tx[a, b] == gridX[a][b] && ty[a, b] == gridY[a][b]
  {
    ex, ey := SobelRow(data, tx, ty, i, tx.Length1, ex1, ey1, g, gridX[i], gridY[i]);
    ScanNextRow(gridX, i, tx.Length0, tx.Length1, ex0);
    ScanNextRow(gridY, i, tx.Length0, tx.Length1, ey0);
  }

  /** Feeding the first i + 1 rows of a grid is feeding the first i rows, then row i. */
  lemma ScanNextRow(G: seq<seq<int>>, i: int, rows: int, cols: nat, e: Tracker)
    requires IsRect(G, rows, cols) && 0 <= i < rows
    ensures Scan(Block(G, 0, 0, i + 1, cols), e) == Scan(G[i], Scan(Block(G, 0, 0, i, cols), e))
  {
    assert G[i][0 .. cols] == G[i];
    ScanConcat(Block(G, 0, 0, i, cols), G[i], e);
  }

  /**
   * The integer stage of `filter_sobel(img, padding)`: the output geometry
   * (same size with the results one cell in, or two cells smaller in each
   * direction), temp_x/temp_y holding the kernel sums of every anchor, and
   * the trackers x_max/x_min, y_max/y_min after feeding every sum in row-major
   * order, starting from DBL_MIN and DBL_MAX.
   */
  method FilterSobel(img: Image, pad: bool) returns (geo: Geometry, tx: array2<int>, ty: array2<int>, ex: Tracker, ey: Tracker)
    requires img.Valid() && (!pad ==> 2 <= img.width && 2 <= img.height)
    ensures pad ==> geo == Geometry(img.width, img.height, 1)
    ensures !pad ==> geo == Geometry(img.width - 2, img.height - 2, 0)
    ensures fresh(tx) && fresh(ty)
    ensures Snapshot(tx) == GradientGrid(Snapshot(img.data), img.height, img.width, XKernel)
    ensures Snapshot(ty) == GradientGrid(Snapshot(img.data), img.height, img.width, YKernel)
    ensures ex == Scan(Gradients(Snapshot(img.data), img.height, img.width, XKernel), Tracker(DblMin, DblMax))
    ensures ey == Scan(Gradients(Snapshot(img.data), img.height, img.width, YKernel), Tracker(DblMin, DblMax))
  {
    geo := FilterGeometry(img.width, img.height, 3, pad);
    var rows, cols := Inner(img.height), Inner(img.width);
    tx := new int[rows, cols]((a, b) => 0);
    ty := new int[rows, cols]((a, b) => 0);
    KernelsAreSquare();
    ghost var g: seq<seq<int>> := Snapshot(img.data);
    ghost var gridX := GradientGrid(g, img.height, img.width, XKernel);
    ghost var gridY := GradientGrid(g, img.height, img.width, YKernel);
    assert IsGradientGrid(gridX, g, rows, cols, XKernel) && IsGradientGrid(gridY, g, rows, cols, YKernel);
    ex, ey := SobelPass(img.data, tx, ty, Tracker(DblMin, DblMax), Tracker(DblMin, DblMax), g, gridX, gridY);
  }
}
