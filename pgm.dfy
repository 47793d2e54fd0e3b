/**
 * The image type of pgm.h and what the filters of pgm.c share: image creation
 * (`pgm_create`), the refusal of even filter sizes, and the output geometry.
 */
module Pgm {
  import opened Grid

  /** The `PGM` struct: a height×width grid of 8-bit samples and its header fields. */
  class Image {
    const width: int
    const height: int
    const maxVal: int
    const format: string
    const data: array2<byte>

    /** `data` has `height` rows of `width` samples. */
    predicate Valid()
    {
      0 <= width && 0 <= height && data.Length0 == height && data.Length1 == width
    }

    /** `pgm_create`: a new image of the given size whose samples are all 0 (calloc). */
    constructor Create(width: int, height: int, maxVal: int, format: string)
      requires 0 <= width && 0 <= height
      ensures Valid() && fresh(data)
      ensures this.width == width && this.height == height && this.maxVal == maxVal && this.format == format
      ensures forall r, c :: 0 <= r < height && 0 <= c < width ==> data[r, c] == 0
    {
      this.width := width;
      this.height := height;
      this.maxVal := maxVal;
      this.format := format;
      data := new byte[height, width]((r, c) => 0);
    }
  }

  /** Why a filter refuses to run. */
  datatype FilterError = EvenFilterSize

  datatype Result<T> = Success(value: T) | Failure(error: FilterError)

  /** Size of the output image and the offset k at which anchor (i, j) is written, as (i + k, j + k). */
  datatype Geometry = Geometry(width: int, height: int, offset: int)

  /**
   * The output geometry shared by filter_median, filter_average and (with
   * filter size 3) filter_sobel: with padding the output keeps the input size
   * and results are written k = (filter_size - 1) / 2 cells in; without it the
   * output shrinks by filter_size - 1 in each direction and k = 0.
   */
  function FilterGeometry(width: int, height: int, filterSize: int, pad: bool): (geo: Geometry)
    requires filterSize >= 1
    ensures pad ==> geo.width == width && geo.height == height
    ensures !pad ==> geo.width == width - (filterSize - 1) && geo.height == height - (filterSize - 1) && geo.offset == 0
    ensures 0 <= geo.offset && 2 * geo.offset <= filterSize - 1
    ensures pad && filterSize % 2 == 1 ==> 2 * geo.offset == filterSize - 1
  {
    var size := filterSize - 1;
    if pad then Geometry(width, height, size / 2) else Geometry(width - size, height - size, 0)
  }

  /**
   * Output cell (r, c) is one the filter loops write: it is (i + k, j + k) for
   * an anchor with i < height - (filterSize - 1) and j < width - (filterSize - 1).
   */
  predicate InRegion(geo: Geometry, height: int, width: int, filterSize: int, r: int, c: int)
  {
    geo.offset <= r < geo.offset + height - (filterSize - 1) && geo.offset <= c < geo.offset + width - (filterSize - 1)
  }
}
