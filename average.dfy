/**
 * `filter_average` of pgm.c: each written output cell is the sum of its
 * window divided by the number of window cells, truncated. The source sums
 * into a `double`, but every partial sum is a whole number far below 2^53,
 * and truncating the rounded quotient of two such numbers gives the integer
 * quotient, so the model computes with `int` and `/`.
 */
module Average {
  import opened Grid
  import opened Pgm

  /** Sum of a sequence of samples. */
  function Sum(s: seq<int>): int
  {
    if s == [] then 0 else Sum(s[..|s| - 1]) + s[|s| - 1]
  }

  /** Summing distributes over concatenation. */
  lemma {:induction false} SumConcat(a: seq<int>, b: seq<int>)
    ensures Sum(a + b) == Sum(a) + Sum(b)
    decreases |b|
  {
    if b == [] {
      assert a + b == a;
    } else {
      assert (a + b)[..|a + b| - 1] == a + b[..|b| - 1];
      SumConcat(a, b[..|b| - 1]);
    }
  }

  /** n values between lo and hi sum to between n*lo and n*hi. */
  lemma {:induction false} SumBounds(s: seq<int>, lo: int, hi: int)
    requires forall t :: 0 <= t < |s| ==> lo <= s[t] <= hi
    ensures lo * |s| <= Sum(s) <= hi * |s|
  {
    if s != [] {
      var init := s[..|s| - 1];
      assert forall t :: 0 <= t < |init| ==> init[t] == s[t];
      SumBounds(init, lo, hi);
      assert lo * |s| == lo * |init| + lo && hi * |s| == hi * |init| + hi;
    }
  }

  /**
   * The value `filter_average` stores for a window: the window sum divided by
   * the window size, rounded toward zero (the sum is never negative).
   */
  function Mean(s: seq<byte>): int
  {
    if |s| == 0 then 0 else Sum(s) / |s|
  }

  /** `Mean` is the truncated quotient: the largest r with r * |s| <= Sum(s). */
  lemma MeanTruncates(s: seq<byte>)
    requires |s| > 0
    ensures Mean(s) * |s| <= Sum(s) < (Mean(s) + 1) * |s|
  {
  }

  /** The mean of values between lo and hi is between lo and hi; in particular it fits a byte. */
  lemma MeanBetween(s: seq<byte>, lo: int, hi: int)
    requires |s| > 0 && forall t :: 0 <= t < |s| ==> lo <= s[t] <= hi
    ensures lo <= Mean(s) <= hi
  {
    SumBounds(s, lo, hi);
    MeanTruncates(s);
  }

  /** `v` is what `filter_average` writes for the fs×fs window anchored at (a, b). */
  predicate AverageAt(g: seq<seq<byte>>, fs: int, a: int, b: int, v: int)
  {
    0 <= a && 0 <= b && 1 <= fs && Fits(g, a, b, fs, fs) && v == Mean(Window(g, a, b, fs))
  }

  /**
   * `o` is what filter_average produces from the height×width grid `g`: every
   * written cell holds the truncated mean of its window, every other cell is 0.
   */
  predicate AverageFiltered(g: seq<seq<byte>>, height: int, width: int, fs: int, geo: Geometry, o: seq<seq<int>>)
  {
    IsRect(o, geo.height, geo.width) &&
    forall r, c :: 0 <= r < geo.height && 0 <= c < geo.width ==>
      if InRegion(geo, height, width, fs, r, c) then AverageAt(g, fs, r - geo.offset, c - geo.offset, o[r][c])
      else o[r][c] == 0
  }

  /** The inner `n` loop of `filter_average`: adds data[r][j .. j + w - 1] to `sum`. */
  method AddRow(data: array2<byte>, r: int, j: int, w: int, sum0: int, ghost row: seq<int>) returns (sum: int)
    requires |row| == w && 0 <= r < data.Length0 && 0 <= j && j + w <= data.Length1
    requires forall n :: 0 <= n < w ==> row[n] == data[r, j + n]
    ensures sum == sum0 + Sum(row)
  {
    sum := sum0;
    for n := 0 to w
      invariant sum == sum0 + Sum(row[..n])
    {
      assert row[..n + 1][..n] == row[..n];
      sum := sum + data[r, j + n];
    }
    assert row[..w] == row;
  }

  /** The `m`/`n` loops of `filter_average`: the sum of the fs×fs window anchored at (i, j). */
  method WindowSum(data: array2<byte>, i: int, j: int, fs: int) returns (sum: int)
    requires 0 <= i && 0 <= j && 0 <= fs && i + fs <= data.Length0 && j + fs <= data.Length1
    ensures Fits(Snapshot(data), i, j, fs, fs) && sum == Sum(Window(Snapshot(data), i, j, fs))
  {
    ghost var g := Snapshot(data);
    sum := 0;
    for m := 0 to fs
      invariant Fits(g, i, j, m, fs) && sum == Sum(Block(g, i, j, m, fs))
    {
      ghost var row := g[i + m][j .. j + fs];
      sum := AddRow(data, i + m, j, fs, sum, row);
      SumConcat(Block(g, i, j, m, fs), row);
    }
  }

  /** One cell of `filter_average`: the truncated mean of the window anchored at (i, j). */
  method AverageCell(data: array2<byte>, i: int, j: int, fs: int) returns (v: byte)
    requires 0 <= i && 0 <= j && 1 <= fs && i + fs <= data.Length0 && j + fs <= data.Length1
    ensures AverageAt(Snapshot(data), fs, i, j, v)
  {
    var sum := WindowSum(data, i, j, fs);
    ghost var w := Window(Snapshot(data), i, j, fs);
    MeanBetween(w, 0, 255);
    v := sum / (fs * fs);
  }

  /** Progress of filter_average's loops: anchors before (i, j) in row-major order are written, the rest is 0. */
  predicate AverageWritten(o: array2<byte>, g: seq<seq<byte>>, fs: int, k: int, na: int, nb: int, i: int, j: int)
    reads o
  {
    forall r, c :: 0 <= r < o.Length0 && 0 <= c < o.Length1 ==> AverageCellWritten(g, fs, k, na, nb, i, j, r, c, o[r, c])
  }

  /** Cell (r, c) holds `x` as AverageWritten demands: the mean of its window once its anchor is done, 0 before. */
  predicate AverageCellWritten(g: seq<seq<byte>>, fs: int, k: int, na: int, nb: int, i: int, j: int, r: int, c: int, x: int)
  {
    if k <= r < k + na && k <= c < k + nb && (r - k < i || (r - k == i && c - k < j))
    then AverageAt(g, fs, r - k, c - k, x)
    else x == 0
  }

  /** One pass of filter_average's outer loop: the anchors (i, j), j < nb, of row i. */
  method AverageRow(o: array2<byte>, data: array2<byte>, i: int, fs: int, k: int, nb: int, ghost na: int)
    requires o != data && 1 <= fs && 0 <= k && 0 <= i < na
    requires i + fs <= data.Length0 && nb - 1 + fs <= data.Length1
    requires k + na <= o.Length0 && k + nb <= o.Length1
    requires AverageWritten(o, Snapshot(data), fs, k, na, nb, i, 0)
    modifies o
    ensures AverageWritten(o, Snapshot(data), fs, k, na, nb, i + 1, 0)
  {
    ghost var g := Snapshot(data);
    var j := 0;
    while j < nb
      invariant 0 <= j && (0 <= nb ==> j <= nb)
      invariant AverageWritten(o, g, fs, k, na, nb, i, j)
    {
      var v := AverageCell(data, i, j, fs);
      label before:
      o[i + k, j + k] := v;
      forall r, c | 0 <= r < o.Length0 && 0 <= c < o.Length1
        ensures AverageCellWritten(g, fs, k, na, nb, i, j + 1, r, c, o[r, c])
      {
        if r != i + k || c != j + k {
          assert o[r, c] == old@before(o[r, c]);
          assert AverageCellWritten(g, fs, k, na, nb, i, j, r, c, o[r, c]);
        }
      }
      j := j + 1;
    }
  }

  /** The loops of filter_average over a zeroed output, anchors i < na, j < nb written at (i + k, j + k). */
  method AverageFill(o: array2<byte>, data: array2<byte>, fs: int, k: int, na: int, nb: int)
    requires o != data && 1 <= fs && 0 <= k
    requires na + fs - 1 <= data.Length0 && nb + fs - 1 <= data.Length1
    requires k + na <= o.Length0 && k + nb <= o.Length1
    requires forall r, c :: 0 <= r < o.Length0 && 0 <= c < o.Length1 ==> o[r, c] == 0
    modifies o
    ensures AverageWritten(o, Snapshot(data), fs, k, na, nb, na, 0)
  {
    var i := 0;
    while i < na
      invariant 0 <= i && (0 <= na ==> i <= na)
      invariant AverageWritten(o, Snapshot(data), fs, k, na, nb, i, 0)
    {
      AverageRow(o, data, i, fs, k, nb, na);
      i := i + 1;
    }
  }

  /** The written cells of `AverageWritten` once every anchor is done are those of `AverageFiltered`. */
  lemma AverageWrittenAll(o: array2<byte>, g: seq<seq<byte>>, height: int, width: int, fs: int, geo: Geometry)
    requires fs >= 1 && o.Length0 == geo.height && o.Length1 == geo.width
    requires AverageWritten(o, g, fs, geo.offset, height - (fs - 1), width - (fs - 1), height - (fs - 1), 0)
    ensures AverageFiltered(g, height, width, fs, geo, Snapshot(o))
  {
  }

  /**
   * `filter_average(img, filter_size, padding)`: refuses an even filter size
   * greater than 1; otherwise creates the output image of `FilterGeometry` and
   * writes the truncated window mean of every anchor, leaving the rest 0.
   */
  method FilterAverage(img: Image, filterSize: int, pad: bool) returns (r: Result<Image>)
    requires img.Valid() && filterSize >= 1
    requires !pad && !(filterSize % 2 == 0 && filterSize > 1) ==>
               filterSize - 1 <= img.width && filterSize - 1 <= img.height
    ensures r.Failure? <==> filterSize % 2 == 0 && filterSize > 1
    ensures r.Success? ==>
              var geo := FilterGeometry(img.width, img.height, filterSize, pad);
              fresh(r.value) && fresh(r.value.data) && r.value.Valid() &&
              r.value.width == geo.width && r.value.height == geo.height && r.value.maxVal == img.maxVal &&
              AverageFiltered(Snapshot(img.data), img.height, img.width, filterSize, geo, Snapshot(r.value.data))
  {
    if filterSize % 2 == 0 && filterSize > 1 {
      return Failure(EvenFilterSize);
    }
    var size := filterSize - 1;
    var geo := FilterGeometry(img.width, img.height, filterSize, pad);
    var out := new Image.Create(geo.width, geo.height, img.maxVal, img.format);
    AverageFill(out.data, img.data, filterSize, geo.offset, img.height - size, img.width - size);
    AverageWrittenAll(out.data, Snapshot(img.data), img.height, img.width, filterSize, geo);
    r := Success(out);
  }

  /** With filter size 1 the average filter copies the image, with or without padding. */
  lemma AverageFilterOfOne(g: seq<seq<byte>>, height: int, width: int, pad: bool, o: seq<seq<int>>)
    requires 0 <= height && 0 <= width && IsRect(g, height, width)
    requires AverageFiltered(g, height, width, 1, FilterGeometry(width, height, 1, pad), o)
    ensures o == g
  {
    forall r, c | 0 <= r < height && 0 <= c < width
      ensures o[r][c] == g[r][c]
    {
      WindowOfOne(g, r, c);
      assert Sum([g[r][c]]) == g[r][c] by {
        assert [g[r][c]][..0] == [];
      }
    }
    forall r | 0 <= r < height
      ensures o[r] == g[r]
    {
    }
  }

  /**
   * Every written cell of the average filter lies between the smallest and
   * the largest sample of its window; on an image whose samples all equal v,
   * every written cell is v.
   */
  lemma AverageFilterBetween(g: seq<seq<byte>>, height: int, width: int, fs: int, geo: Geometry, o: seq<seq<int>>,
                             lo: int, hi: int)
    requires IsRect(g, height, width) && forall r, c :: 0 <= r < height && 0 <= c < width ==> lo <= g[r][c] <= hi
    requires AverageFiltered(g, height, width, fs, geo, o)
    ensures forall r, c :: 0 <= r < geo.height && 0 <= c < geo.width && InRegion(geo, height, width, fs, r, c) ==>
              lo <= o[r][c] <= hi
  {
    forall r, c | 0 <= r < geo.height && 0 <= c < geo.width && InRegion(geo, height, width, fs, r, c)
      ensures lo <= o[r][c] <= hi
    {
      var a, b := r - geo.offset, c - geo.offset;
      var inRange := (x: byte) => lo <= x <= hi;
      BlockAll(g, a, b, fs, fs, inRange);
      MeanBetween(Window(g, a, b, fs), lo, hi);
    }
  }
}
