/**
 * What the image descriptors share: image sizes, the pixel scale derived from a field
 * of view, and the rectangle of "validated" pixels that remains once the border
 * around a sub-image has been cut off.
 *
 * Two border formulas exist.  The io.github descriptors (JHipsMetadata and
 * metadata/MetadataFile) round the x border up with Math.ceil, halve the y border
 * after rounding it, and bound the rows with the sub-image WIDTH.  The fr.malapert
 * metadata/MetadataFile truncates each bound and also bounds the rows with the width.
 * Both are kept as written.
 */
module PixelFrame {
  import opened Wrappers
  import opened JavaNumerics

  /** Projection.ProjectionType, the same enumeration in both generations. */
  datatype ProjectionType = CAR | TAN

  /**
   * A WCS map's wcs2pix: from (longitude, latitude) in degrees to a pixel position;
   * None stands for its ProjectionException.
   */
  type Wcs = (real, real) -> Option<Vec2>

  /** An `int[]` of length two: (width, height) of an image request or sub-image, or a (column, row) pair. */
  datatype Dims = Dims(width: int, height: int)

  /** `validatedPixelRange`: columns [xmin, xmax) and rows [ymin, ymax). */
  datatype PixelRange = PixelRange(xmin: int, xmax: int, ymin: int, ymax: int) {
    predicate Contains(x: int, y: int) {
      xmin <= x < xmax && ymin <= y < ymax
    }
  }

  /**
   * computeScale: radians per pixel, the field of view divided by the image request
   * side by side.  A zero side makes the Java quotient infinite or NaN: None.
   */
  function ComputeScale(request: Dims, fov: Vec2): (r: Option<Vec2>)
    ensures r.Some? <==> request.width != 0 && request.height != 0
    ensures r.Some? ==> r.value.x * request.width as real == fov.x && r.value.y * request.height as real == fov.y
  {
    if request.width == 0 || request.height == 0 then None
    else Some(Vec2(fov.x / request.width as real, fov.y / request.height as real))
  }

  /** The range of computeValidatedRangePixel (io.github) for an image of W × H pixels and a sub-image `sub`. */
  function GhRange(imageWidth: int, imageHeight: int, sub: Dims): PixelRange {
    var dx := IntSub(imageWidth, sub.width);
    var dy := IntSub(imageHeight, sub.height);
    PixelRange(
      ToInt(if imageWidth > sub.width then Ceil(dx as real * 0.5) as real else 0.0),
      ToInt(if imageWidth > sub.width then Floor(sub.width as real - dx as real * 0.5) as real else imageWidth as real),
      ToInt(if imageHeight > sub.height then Ceil(dy as real) as real * 0.5 else 0.0),
      ToInt(if imageHeight > sub.height then Floor(sub.width as real - dy as real * 0.5) as real else imageHeight as real))
  }

  /** The range fr.malapert metadata/MetadataFile.getRGB computes for an image of W × H pixels and a request. */
  function FrRange(imageWidth: int, imageHeight: int, request: Dims): PixelRange {
    var dx := IntSub(imageWidth, request.width);
    var dy := IntSub(imageHeight, request.height);
    PixelRange(
      ToInt(if imageWidth > request.width then dx as real * 0.5 else 0.0),
      ToInt(if imageWidth > request.width then request.width as real - dx as real * 0.5 else request.width as real),
      ToInt(if imageHeight > request.height then dy as real * 0.5 else 0.0),
      ToInt(if imageHeight > request.height then request.width as real - dy as real * 0.5 else request.height as real))
  }

  predicate IntRange(n: int) {
    INT_MIN <= n <= INT_MAX
  }

  /** An image no larger than its sub-image keeps every pixel. */
  lemma GhRangeNoBorder(imageWidth: int, imageHeight: int, sub: Dims)
    requires IntRange(imageWidth) && IntRange(imageHeight)
    requires imageWidth <= sub.width && imageHeight <= sub.height
    ensures GhRange(imageWidth, imageHeight, sub) == PixelRange(0, imageWidth, 0, imageHeight)
  {
    TruncOfInt(imageWidth);
    TruncOfInt(imageHeight);
  }

  /**
   * With a border of d = W − w columns the first kept column is ⌈d/2⌉, and the
   * last bound is the sub-image width less that same amount, so w − 2⌈d/2⌉ columns
   * remain (not w); all of them lie inside the image.
   */
  lemma GhRangeColumns(imageWidth: int, imageHeight: int, sub: Dims)
    requires 0 <= sub.width < imageWidth <= INT_MAX
    ensures var r := GhRange(imageWidth, imageHeight, sub);
            r.xmin == (imageWidth - sub.width + 1) / 2 && r.xmax == sub.width - r.xmin
            && 0 < r.xmin && r.xmax < imageWidth
  {
    var d := imageWidth - sub.width;
    CeilHalf(d);
    FloorLessHalf(sub.width, d);
    IntOfInt(Ceil(d as real * 0.5));
    IntOfInt(Floor(sub.width as real - d as real * 0.5));
  }

  /**
   * With a border of d = H − h rows the first kept row is ⌊d/2⌋ (Math.ceil comes
   * before the halving), and the last bound is the sub-image WIDTH less ⌈d/2⌉.
   */
  lemma GhRangeRows(imageWidth: int, imageHeight: int, sub: Dims)
    requires 0 <= sub.height < imageHeight <= INT_MAX && 0 <= sub.width <= INT_MAX
    ensures var r := GhRange(imageWidth, imageHeight, sub);
            r.ymin == (imageHeight - sub.height) / 2 && r.ymax == sub.width - (imageHeight - sub.height + 1) / 2
  {
    var d := imageHeight - sub.height;
    assert Ceil(d as real) == d;
    HalfOf(d);
    FloorLessHalf(sub.width, d);
    IntOfInt(Floor(sub.width as real - d as real * 0.5));
  }

  /**
   * Because the row bound comes from the width, a wide, short image can let rows
   * past the bottom of the image through the range test: with a 100 × 10 image and
   * a 90 × 5 sub-image, row 10 is validated although the image has rows 0..9 only.
   */
  lemma GhRangeRowsCanLeaveImage()
    ensures var r := GhRange(100, 10, Dims(90, 5));
            r == PixelRange(5, 85, 2, 87) && r.Contains(5, 10)
  {
    GhRangeColumns(100, 10, Dims(90, 5));
    GhRangeRows(100, 10, Dims(90, 5));
  }

  /** An image no larger than its request keeps the request's rectangle. */
  lemma FrRangeNoBorder(imageWidth: int, imageHeight: int, request: Dims)
    requires IntRange(request.width) && IntRange(request.height)
    requires imageWidth <= request.width && imageHeight <= request.height
    ensures FrRange(imageWidth, imageHeight, request) == PixelRange(0, request.width, 0, request.height)
  {
    TruncOfInt(request.width);
    TruncOfInt(request.height);
  }

  /**
   * fr.malapert: with a border of d = W − w columns, no wider than twice the request,
   * the kept columns are [⌊d/2⌋, w − ⌈d/2⌉); rows likewise, but bounded by the width.
   */
  lemma FrRangeBorder(imageWidth: int, imageHeight: int, request: Dims)
    requires 0 <= request.width < imageWidth <= INT_MAX && imageWidth - request.width <= 2 * request.width
    requires 0 <= request.height < imageHeight <= INT_MAX && imageHeight - request.height <= 2 * request.width
    ensures var r := FrRange(imageWidth, imageHeight, request);
            var dx, dy := imageWidth - request.width, imageHeight - request.height;
            r == PixelRange(dx / 2, request.width - (dx + 1) / 2, dy / 2, request.width - (dy + 1) / 2)
  {
    var dx, dy := imageWidth - request.width, imageHeight - request.height;
    HalfOf(dx);
    HalfOf(dy);
    TruncLessHalf(request.width, dx);
    TruncLessHalf(request.width, dy);
  }

  lemma IntOfInt(n: int)
    requires IntRange(n)
    ensures ToInt(n as real) == n
  {
    TruncOfInt(n);
  }

  /** ⌈d/2⌉ for a natural d. */
  lemma CeilHalf(d: nat)
    ensures Ceil(d as real * 0.5) == (d + 1) / 2
  {
    var q := (d + 1) / 2;
    assert d as real * 0.5 <= q as real < d as real * 0.5 + 1.0;
  }

  /** Java `(int) (d * 0.5)` for a natural int d: ⌊d/2⌋. */
  lemma HalfOf(d: nat)
    requires d <= INT_MAX
    ensures ToInt(d as real * 0.5) == d / 2
  {
    var q := d / 2;
    assert q as real <= d as real * 0.5 < q as real + 1.0;
  }

  /** ⌊w − d/2⌋ = w − ⌈d/2⌉ for a natural d. */
  lemma FloorLessHalf(w: int, d: nat)
    ensures Floor(w as real - d as real * 0.5) == w - (d + 1) / 2
  {
    var q := w - (d + 1) / 2;
    assert q as real <= w as real - d as real * 0.5 < q as real + 1.0;
  }

  /** Java `(int) (w - d * 0.5)` when that is not negative: w − ⌈d/2⌉. */
  lemma TruncLessHalf(w: int, d: nat)
    requires d <= 2 * w && w <= INT_MAX
    ensures ToInt(w as real - d as real * 0.5) == w - (d + 1) / 2
  {
    var q := w - (d + 1) / 2;
    assert 0 <= q;
    assert q as real <= w as real - d as real * 0.5 < q as real + 1.0;
  }
}
