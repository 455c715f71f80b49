/**
 * The io.github generation's image descriptor base class, JHipsMetadata: after
 * init it holds the decoded image, the pixel scale, the WCS map, the spatial index
 * and the validated pixel range, and answers colour queries for sky directions.
 *
 * The label values a concrete descriptor supplies (sub-image size, first sample,
 * field of view) are fields.  Building the WCS map and the spatial index from them
 * is passed in as functions of the scale; the map is then used through its wcs2pix,
 * the index through its isIntersecting.
 */
module GhJHipsMetadata {
  import opened Wrappers
  import opened JavaNumerics
  import opened Imaging
  import opened HealpixLibrary
  import opened PixelFrame

  /**
   * The position in the decoded image of the detector position `xy`: truncated,
   * moved from the detector frame to the sub-image frame by the first sample, moved
   * by half the border, and flipped vertically.
   */
  function FramePosition(xy: Vec2, firstSample: Dims, image: Image, sub: Dims): Dims {
    var x := IntSub(ToInt(xy.x), firstSample.width);
    var y := IntSub(ToInt(xy.y), firstSample.height);
    Dims(ToInt(x as real + 0.5 * IntSub(image.width, sub.width) as real),
         ToInt((image.height - 1) as real - (y as real + 0.5 * IntSub(image.height, sub.height) as real)))
  }

  class JHipsMetadata {
    /** getSubImageSize(): (LINE_SAMPLES, LINES), or (0, 0) when the label has none. */
    var subImageSize: Dims
    /** getFirstSample(): the 0-based detector position of the sub-image's first pixel. */
    const firstSample: Dims
    /** getFOV(): the camera's field of view in radians. */
    const fov: Vec2
    var projection: ProjectionType
    var image: Option<Image>
    var scale: Option<Vec2>
    var wcs: Wcs
    /** The spatial index's isIntersecting(order, pixel). */
    var index: (int, int) -> bool
    /** [xmin, xmax, ymin, ymax]. */
    const validatedPixelRange: array<int>

    ghost predicate Valid()
      reads this
    {
      validatedPixelRange.Length == 4
    }

    /** A descriptor before init: no image yet, an all-zero range. */
    constructor (subImageSize: Dims, firstSample: Dims, fov: Vec2)
      ensures Valid() && fresh(validatedPixelRange)
      ensures this.subImageSize == subImageSize && this.firstSample == firstSample && this.fov == fov
      ensures image == None && validatedPixelRange[..] == [0, 0, 0, 0]
    {
      this.subImageSize := subImageSize;
      this.firstSample := firstSample;
      this.fov := fov;
      projection := TAN;
      image := None;
      scale := None;
      wcs := (lon: real, lat: real) => None;
      index := (order: int, pixel: int) => false;
      validatedPixelRange := new int[4](_ => 0);
    }

    function Range(): PixelRange
      requires Valid()
      reads this, validatedPixelRange
    {
      PixelRange(validatedPixelRange[0], validatedPixelRange[1], validatedPixelRange[2], validatedPixelRange[3])
    }

    /**
     * init: reads the image, gives the sub-image the image's size when the label
     * has none, and derives the scale, the index, the WCS map and the range from it.
     */
    method Init(projection: ProjectionType, img: Image,
                createIndex: Option<Vec2> -> ((int, int) -> bool), createWcs: Option<Vec2> -> Wcs)
      requires Valid()
      modifies this, validatedPixelRange
      ensures Valid()
      ensures old(subImageSize) == Dims(0, 0) ==> subImageSize == Dims(img.width, img.height)
      ensures old(subImageSize) != Dims(0, 0) ==> subImageSize == old(subImageSize)
      ensures this.projection == projection && image == Some(img)
      ensures scale == ComputeScale(subImageSize, fov)
      ensures index == createIndex(scale) && wcs == createWcs(scale)
      ensures Range() == GhRange(img.width, img.height, subImageSize)
    {
      this.projection := projection;
      image := Some(img);
      if subImageSize.width == 0 && subImageSize.height == 0 {
        subImageSize := Dims(img.width, img.height);
      }
      scale := ComputeScale(subImageSize, fov);
      index := createIndex(scale);
      wcs := createWcs(scale);
      ComputeValidatedRangePixel();
    }

    /** computeValidatedRangePixel: stores the range in place. */
    method ComputeValidatedRangePixel()
      requires Valid() && image.Some?
      modifies validatedPixelRange
      ensures Range() == GhRange(image.value.width, image.value.height, subImageSize)
    {
      var r := GhRange(image.value.width, image.value.height, subImageSize);
      validatedPixelRange[0] := r.xmin;
      validatedPixelRange[1] := r.xmax;
      validatedPixelRange[2] := r.ymin;
      validatedPixelRange[3] := r.ymax;
    }

    /**
     * getRGB(longitude, latitude): the colour of the image pixel the direction falls
     * on, or None when wcs2pix fails, when the pixel is outside the validated range,
     * or when it is outside the image.
     */
    function GetRgb(longitude: real, latitude: real): (r: Option<Color>)
      requires Valid() && image.Some?
      reads this, validatedPixelRange
      ensures r.Some? <==> wcs(ToDegrees(longitude), ToDegrees(latitude)).Some?
                           && var p := FramePosition(wcs(ToDegrees(longitude), ToDegrees(latitude)).value,
                                                     firstSample, image.value, subImageSize);
                              Range().Contains(p.width, p.height)
                              && 0 <= p.width < image.value.width && 0 <= p.height < image.value.height
      ensures r.Some? ==> var p := FramePosition(wcs(ToDegrees(longitude), ToDegrees(latitude)).value,
                                                 firstSample, image.value, subImageSize);
                          r == image.value.ColorAt(p.width, p.height)
    {
      var xy := wcs(ToDegrees(longitude), ToDegrees(latitude));
      if xy.None? then None
      else
        var p := FramePosition(xy.value, firstSample, image.value, subImageSize);
        var rng := Range();
        if p.width >= rng.xmax || p.height >= rng.ymax || p.width < rng.xmin || p.height < rng.ymin then None
        else image.value.ColorAt(p.width, p.height)
    }

    /** getRGB(hpx, pixel): the pixel's centre as longitude φ and latitude π/2 − θ; a failing pix2ang gives None. */
    function GetRgbInPixel(pix2ang: int -> Option<Pointing>, pixel: int): (r: Option<Color>)
      requires Valid() && image.Some?
      reads this, validatedPixelRange
      ensures pix2ang(pixel).None? ==> r.None?
      ensures pix2ang(pixel).Some? ==> r == GetRgb(pix2ang(pixel).value.phi, 0.5 * PI - pix2ang(pixel).value.theta)
    {
      var pt := pix2ang(pixel);
      if pt.None? then None else GetRgb(pt.value.phi, 0.5 * PI - pt.value.theta)
    }
  }

  /**
   * An image no larger than its sub-image has no border to cut: after init, a
   * direction has a colour exactly when wcs2pix succeeds and its position lies in
   * the image.
   */
  lemma NoBorderColourIffInImage(m: JHipsMetadata, longitude: real, latitude: real)
    requires m.Valid() && m.image.Some?
    requires m.Range() == GhRange(m.image.value.width, m.image.value.height, m.subImageSize)
    requires m.image.value.width <= m.subImageSize.width && m.image.value.height <= m.subImageSize.height
    requires m.image.value.width <= INT_MAX && m.image.value.height <= INT_MAX
    ensures var xy := m.wcs(ToDegrees(longitude), ToDegrees(latitude));
            m.GetRgb(longitude, latitude).Some?
            <==> xy.Some? && var p := FramePosition(xy.value, m.firstSample, m.image.value, m.subImageSize);
                             0 <= p.width < m.image.value.width && 0 <= p.height < m.image.value.height
  {
    GhRangeNoBorder(m.image.value.width, m.image.value.height, m.subImageSize);
  }

  /**
   * For a whole-pixel detector position and even borders, the frame position is the
   * detector position less the first sample, shifted by half the border, with the
   * row counted from the bottom of the image.
   */
  lemma FramePositionOfWholePixel(xy: Vec2, firstSample: Dims, image: Image, sub: Dims, i: int, j: int)
    requires xy == Vec2(i as real, j as real)
    requires IntRange(i) && IntRange(j) && IntRange(i - firstSample.width) && IntRange(j - firstSample.height)
    requires IntRange(image.width) && IntRange(image.height)
    requires 0 <= sub.width <= image.width && 0 <= sub.height <= image.height
    requires (image.width - sub.width) % 2 == 0 && (image.height - sub.height) % 2 == 0
    requires IntRange(i - firstSample.width + (image.width - sub.width) / 2)
    requires IntRange(image.height - 1 - (j - firstSample.height + (image.height - sub.height) / 2))
    ensures FramePosition(xy, firstSample, image, sub)
            == Dims(i - firstSample.width + (image.width - sub.width) / 2,
                    image.height - 1 - (j - firstSample.height + (image.height - sub.height) / 2))
  {
    var x := i - firstSample.width;
    var y := j - firstSample.height;
    var borderX := (image.width - sub.width) / 2;
    var borderY := (image.height - sub.height) / 2;
    IntOfInt(i);
    IntOfInt(j);
    assert IntSub(ToInt(xy.x), firstSample.width) == x;
    assert IntSub(ToInt(xy.y), firstSample.height) == y;
    HalfOfEven(image.width - sub.width);
    HalfOfEven(image.height - sub.height);
    assert x as real + 0.5 * IntSub(image.width, sub.width) as real == (x + borderX) as real;
    assert (image.height - 1) as real - (y as real + 0.5 * IntSub(image.height, sub.height) as real)
           == (image.height - 1 - (y + borderY)) as real;
    IntOfInt(x + borderX);
    IntOfInt(image.height - 1 - (y + borderY));
  }

  /** Half of an even int is exact. */
  lemma HalfOfEven(d: int)
    requires d % 2 == 0
    ensures 0.5 * d as real == (d / 2) as real
  {
    assert d == 2 * (d / 2);
  }
}
