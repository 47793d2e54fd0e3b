/**
 * `find_median` and `filter_median` of pgm.c: each written output cell is the
 * middle element of the merge-sorted copy of its window, that is, an order
 * statistic of the window.
 */
module Median {
  import opened Grid
  import opened Sorting
  import opened OrderStatistics
  import opened Pgm

  /** `v` is a correct `find_median` result for the fs×fs window anchored at (a, b). */
  predicate MedianAt(g: seq<seq<byte>>, fs: int, a: int, b: int, v: int)
  {
    0 <= a && 0 <= b && 0 <= fs && Fits(g, a, b, fs, fs) && IsOrderStatistic(Window(g, a, b, fs), fs * fs / 2, v)
  }

  /**
   * `o` is what filter_median produces from the height×width grid `g`: every
   * written cell holds the median of its window, every other cell is 0.
   */
  predicate MedianFiltered(g: seq<seq<byte>>, height: int, width: int, fs: int, geo: Geometry, o: seq<seq<int>>)
  {
    IsRect(o, geo.height, geo.width) &&
    forall r, c :: 0 <= r < geo.height && 0 <= c < geo.width ==>
      if InRegion(geo, height, width, fs, r, c) then MedianAt(g, fs, r - geo.offset, c - geo.offset, o[r][c])
      else o[r][c] == 0
  }

  /**
   * The inner copy loop of `find_median`: arr[off .. off + w - 1] receives
   * data[r][j .. j + w - 1], whose values `row` lists.
   */
  method CopyRow(arr: array<byte>, data: array2<byte>, r: int, j: int, w: int, off: int, ghost row: seq<int>)
    requires |row| == w && 0 <= r < data.Length0 && 0 <= j && j + w <= data.Length1
    requires forall m :: 0 <= m < |row| ==> row[m] == data[r, j + m]
    requires 0 <= off && off + |row| <= arr.Length
    modifies arr
    ensures arr[..] == old(arr[..])[..off] + row + old(arr[..])[off + |row| ..]
  {
    ghost var a0 := arr[..];
    for m := 0 to w
      invariant arr[..] == a0[..off] + row[..m] + a0[off + m ..]
    {
      SpliceGrow(a0, row, off, off + m);
      arr[off + m] := data[r, j + m];
    }
    assert row[..w] == row;
  }

  /** Cutting a splice just after its middle part. */
  lemma SplicePrefix<T>(a: seq<T>, b: seq<T>, c: seq<T>, lo: int)
    requires 0 <= lo && lo + |c| <= |b| && a == b[..lo] + c + b[lo + |c| ..]
    ensures a[..lo + |c|] == b[..lo] + c
  {
    assert a[..lo + |c|] == (b[..lo] + c + b[lo + |c| ..])[..lo + |c|];
  }

  /** One pass of `find_median`'s outer copy loop: row k of the window follows rows 0 .. k - 1. */
  method CopyWindowRow(arr: array<byte>, data: array2<byte>, i: int, j: int, k: int, size: int)
    requires 0 <= i && 0 <= j && 0 <= k < size && i + size <= data.Length0 && j + size <= data.Length1
    requires arr.Length == size * size && Fits(Snapshot(data), i, j, k, size) && k * size <= arr.Length
    requires arr[..k * size] == Block(Snapshot(data), i, j, k, size)
    modifies arr
    ensures Fits(Snapshot(data), i, j, k + 1, size)
    ensures (k + 1) * size <= arr.Length && arr[..(k + 1) * size] == Block(Snapshot(data), i, j, k + 1, size)
  {
    RowEnd(k, size, size);
    ghost var before := arr[..];
    ghost var row := Snapshot(data)[i + k][j .. j + size];
    CopyRow(arr, data, i + k, j, size, k * size, row);
    SplicePrefix(arr[..], before, row, k * size);
  }

  /** The copy loops of `find_median`: a fresh array holding the window in row-major order. */
  method CopyWindow(data: array2<byte>, i: int, j: int, size: int) returns (arr: array<byte>)
    requires 0 <= i && 0 <= j && 0 <= size && i + size <= data.Length0 && j + size <= data.Length1
    ensures fresh(arr) && Fits(Snapshot(data), i, j, size, size)
    ensures arr[..] == Window(Snapshot(data), i, j, size)
  {
    arr := new byte[size * size];
    for k := 0 to size
      invariant Fits(Snapshot(data), i, j, k, size)
      invariant k * size <= arr.Length && arr[..k * size] == Block(Snapshot(data), i, j, k, size)
    {
      CopyWindowRow(arr, data, i, j, k, size);
    }
    assert arr[..] == arr[..size * size];
  }

  /**
   * `find_median(array, i, j, size)`: copies the size×size window anchored at
   * (i, j), merge-sorts the copy and returns its element at size*size/2, a
   * value of the window with at most size*size/2 window values below it and
   * at most size*size - 1 - size*size/2 above it.
   */
  method FindMedian(data: array2<byte>, i: int, j: int, size: int) returns (median: byte)
    requires 0 <= i && 0 <= j && 1 <= size && i + size <= data.Length0 && j + size <= data.Length1
    ensures MedianAt(Snapshot(data), size, i, j, median)
  {
    var arr := CopyWindow(data, i, j, size);
    ghost var w := arr[..];
    MergeSort(arr, 0, size * size - 1);
    assert arr[0 .. size * size] == arr[..];
    assert w[0 .. size * size] == w;
    median := arr[size * size / 2];
    SortedSelects(w, arr[..], size * size / 2);
  }

  /** Progress of filter_median's loops: anchors before (i, j) in row-major order are written, the rest is 0. */
  predicate MedianWritten(o: array2<byte>, g: seq<seq<byte>>, fs: int, k: int, na: int, nb: int, i: int, j: int)
    reads o
  {
    forall r, c :: 0 <= r < o.Length0 && 0 <= c < o.Length1 ==>
      if k <= r < k + na && k <= c < k + nb && (r - k < i || (r - k == i && c - k < j))
      then MedianAt(g, fs, r - k, c - k, o[r, c])
      else o[r, c] == 0
  }

  /** One pass of filter_median's outer loop: the anchors (i, j), j < nb, of row i. */
  method MedianRow(o: array2<byte>, data: array2<byte>, i: int, fs: int, k: int, nb: int, ghost na: int)
    requires o != data && 1 <= fs && 0 <= k && 0 <= i < na
    requires i + fs <= data.Length0 && nb - 1 + fs <= data.Length1
    requires k + na <= o.Length0 && k + nb <= o.Length1
    requires MedianWritten(o, Snapshot(data), fs, k, na, nb, i, 0)
    modifies o
    ensures MedianWritten(o, Snapshot(data), fs, k, na, nb, i + 1, 0)
  {
    ghost var g := Snapshot(data);
    var j := 0;
    while j < nb
      invariant 0 <= j && (0 <= nb ==> j <= nb)
      invariant MedianWritten(o, g, fs, k, na, nb, i, j)
    {
      var m := FindMedian(data, i, j, fs);
      o[i + k, j + k] := m;
      j := j + 1;
    }
  }

  /**
   * The loops of filter_median over a zeroed output: anchor (i, j), for
   * i < na and j < nb, gets the median of its fs×fs window, written at
   * (i + k, j + k).
   */
  method MedianFill(o: array2<byte>, data: array2<byte>, fs: int, k: int, na: int, nb: int)
    requires o != data && 1 <= fs && 0 <= k
    requires na + fs - 1 <= data.Length0 && nb + fs - 1 <= data.Length1
    requires k + na <= o.Length0 && k + nb <= o.Length1
    requires forall r, c :: 0 <= r < o.Length0 && 0 <= c < o.Length1 ==> o[r, c] == 0
    modifies o
    ensures MedianWritten(o, Snapshot(data), fs, k, na, nb, na, 0)
  {
    var i := 0;
    while i < na
      invariant 0 <= i && (0 <= na ==> i <= na)
      invariant MedianWritten(o, Snapshot(data), fs, k, na, nb, i, 0)
    {
      MedianRow(o, data, i, fs, k, nb, na);
      i := i + 1;
    }
  }

  /** The written cells of `MedianWritten` once every anchor is done are those of `MedianFiltered`. */
  lemma MedianWrittenAll(o: array2<byte>, g: seq<seq<byte>>, height: int, width: int, fs: int, geo: Geometry)
    requires fs >= 1 && o.Length0 == geo.height && o.Length1 == geo.width
    requires MedianWritten(o, g, fs, geo.offset, height - (fs - 1), width - (fs - 1), height - (fs - 1), 0)
    ensures MedianFiltered(g, height, width, fs, geo, Snapshot(o))
  {
  }

  /**
   * `filter_median(img, filter_size, padding)`: refuses an even filter size
   * greater than 1; otherwise creates the output image of `FilterGeometry` and
   * writes the window median of every anchor, leaving the rest 0.
   */
  method FilterMedian(img: Image, filterSize: int, pad: bool) returns (r: Result<Image>)
    requires img.Valid() && filterSize >= 1
    requires !pad && !(filterSize % 2 == 0 && filterSize > 1) ==>
               filterSize - 1 <= img.width && filterSize - 1 <= img.height
    ensures r.Failure? <==> filterSize % 2 == 0 && filterSize > 1
    ensures r.Success? ==>
              var geo := FilterGeometry(img.width, img.height, filterSize, pad);
              fresh(r.value) && fresh(r.value.data) && r.value.Valid() &&
              r.value.width == geo.width && r.value.height == geo.height && r.value.maxVal == img.maxVal &&
              MedianFiltered(Snapshot(img.data), img.height, img.width, filterSize, geo, Snapshot(r.value.data))
  {
    if filterSize % 2 == 0 && filterSize > 1 {
      return Failure(EvenFilterSize);
    }
    var size := filterSize - 1;
    var geo := FilterGeometry(img.width, img.height, filterSize, pad);
    var out := new Image.Create(geo.width, geo.height, img.maxVal, img.format);
    MedianFill(out.data, img.data, filterSize, geo.offset, img.height - size, img.width - size);
    MedianWrittenAll(out.data, Snapshot(img.data), img.height, img.width, filterSize, geo);
    r := Success(out);
  }

  /** Medians are unique, so `MedianFiltered` determines the output image completely. */
  lemma MedianFilteredUnique(g: seq<seq<byte>>, height: int, width: int, fs: int, geo: Geometry,
                             o1: seq<seq<int>>, o2: seq<seq<int>>)
    requires MedianFiltered(g, height, width, fs, geo, o1) && MedianFiltered(g, height, width, fs, geo, o2)
    ensures o1 == o2
  {
    forall r, c | 0 <= r < geo.height && 0 <= c < geo.width
      ensures o1[r][c] == o2[r][c]
    {
      if InRegion(geo, height, width, fs, r, c) {
        var a, b := r - geo.offset, c - geo.offset;
        OrderStatisticUnique(Window(g, a, b, fs), fs * fs / 2, o1[r][c], o2[r][c]);
      }
    }
    forall r | 0 <= r < geo.height
      ensures o1[r] == o2[r]
    {
    }
  }

  /** With filter size 1 the median filter copies the image, with or without padding. */
  lemma MedianFilterOfOne(g: seq<seq<byte>>, height: int, width: int, pad: bool, o: seq<seq<int>>)
    requires 0 <= height && 0 <= width && IsRect(g, height, width)
    requires MedianFiltered(g, height, width, 1, FilterGeometry(width, height, 1, pad), o)
    ensures o == g
  {
    forall r, c | 0 <= r < height && 0 <= c < width
      ensures o[r][c] == g[r][c]
    {
      WindowOfOne(g, r, c);
    }
    forall r | 0 <= r < height
      ensures o[r] == g[r]
    {
    }
  }

  /** On an image whose samples all equal v, every written cell of the median filter is v. */
  lemma MedianFilterFlat(g: seq<seq<byte>>, height: int, width: int, fs: int, geo: Geometry, o: seq<seq<int>>, v: byte)
    requires IsRect(g, height, width) && forall r, c :: 0 <= r < height && 0 <= c < width ==> g[r][c] == v
    requires MedianFiltered(g, height, width, fs, geo, o)
    ensures forall r, c :: 0 <= r < geo.height && 0 <= c < geo.width && InRegion(geo, height, width, fs, r, c) ==>
              o[r][c] == v
  {
    forall r, c | 0 <= r < geo.height && 0 <= c < geo.width && InRegion(geo, height, width, fs, r, c)
      ensures o[r][c] == v
    {
      var a, b := r - geo.offset, c - geo.offset;
      var isV := (x: byte) => x == v;
      BlockAll(g, a, b, fs, fs, isV);
      OrderStatisticBounds(Window(g, a, b, fs), fs * fs / 2, o[r][c], v, v);
    }
  }
}
