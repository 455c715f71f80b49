/**
 * The first fr.malapert image descriptor, jhips/MetadataFile: a decoded image, the
 * camera direction and field of view, and an image request that starts at (0, 0).
 *
 * Instead of a validated range it derives "pixels to remove" from the request, resets
 * a count that is negative or larger than the image side to 0, and keeps the pixels
 * at least half that count away from each edge.  Its getRGB does not catch the
 * projection's exception: the outcome says whether it was thrown.
 */
module FrLegacyMetadataFile {
  import opened Wrappers
  import opened JavaNumerics
  import opened Imaging
  import opened HealpixLibrary
  import opened PixelFrame
  import opened FrProjection
  import opened FrMetadataFile

  /** What getRGB gives back: a colour or null, or the projection's exception. */
  datatype RgbOutcome = Returned(color: Option<Color>) | ProjectionFailed

  /**
   * computePixelsToRemove: the magnitude of the width difference, but the height
   * difference with its sign (Math.abs is applied to the image height only).
   */
  function PixelsToRemove(image: Image, request: Dims): Dims {
    Dims(IntAbs(IntSub(image.width, request.width)), IntSub(Abs(image.height), request.height))
  }

  /** computeScale: the field of view over the image side less the pixels removed; a zero side gives None. */
  function ScaleFor(image: Image, fov: Vec2, remove: Dims): Option<Vec2> {
    ComputeScale(Dims(IntSub(image.width, remove.width), IntSub(image.height, remove.height)), fov)
  }

  /** The reset in getRGB: a count that is negative or larger than the side becomes 0. */
  function ClampRemoval(count: int, side: int): (c: int)
    requires 0 <= side
    ensures 0 <= c <= side
    ensures c == count || c == 0
    ensures 0 <= count <= side <==> c == count
  {
    if count < 0 || count > side then 0 else count
  }

  /** The bounds test of getRGB: a pixel is kept unless it is within half a removal count of an edge. */
  predicate Kept(x: int, y: int, remove: Dims, width: int, height: int) {
    !(x >= ToInt(width as real - 0.5 * remove.width as real)
      || y >= ToInt(height as real - 0.5 * remove.height as real)
      || x as real < 0.5 * remove.width as real
      || y as real < 0.5 * remove.height as real)
  }

  class MetadataFile {
    const image: Image
    const cameraLongitude: real
    const cameraLatitude: real
    const cameraFov: Vec2
    const projection: ProjectionType
    /** The trigonometric half of the TAN projection. */
    const tan: TanGeometry
    var imageRequest: Dims
    var scale: Option<Vec2>

    /** The full constructor: the request is (0, 0) and the scale is taken over the whole image. */
    constructor (image: Image, longitude: real, latitude: real, cameraFov: Vec2, projection: ProjectionType,
                 tan: TanGeometry)
      ensures this.image == image && cameraLongitude == longitude && cameraLatitude == latitude
      ensures this.cameraFov == cameraFov && this.projection == projection && this.tan == tan
      ensures imageRequest == Dims(0, 0)
      ensures scale == ScaleFor(image, cameraFov, Dims(0, 0))
    {
      this.image := image;
      cameraLongitude := longitude;
      cameraLatitude := latitude;
      this.cameraFov := cameraFov;
      this.projection := projection;
      this.tan := tan;
      imageRequest := Dims(0, 0);
      scale := ScaleFor(image, cameraFov, Dims(0, 0));
    }

    /** The four-argument constructor: a TAN projection. */
    constructor Tan(image: Image, longitude: real, latitude: real, cameraFov: Vec2, tan: TanGeometry)
      ensures this.image == image && cameraLongitude == longitude && cameraLatitude == latitude
      ensures this.cameraFov == cameraFov && projection == TAN && this.tan == tan
      ensures imageRequest == Dims(0, 0)
      ensures scale == ScaleFor(image, cameraFov, Dims(0, 0))
    {
      this.image := image;
      cameraLongitude := longitude;
      cameraLatitude := latitude;
      this.cameraFov := cameraFov;
      projection := TAN;
      this.tan := tan;
      imageRequest := Dims(0, 0);
      scale := ScaleFor(image, cameraFov, Dims(0, 0));
    }

    /** setImageRequest: the new request, and the scale over what is left once its pixels are removed. */
    method SetImageRequest(request: Dims)
      modifies this
      ensures imageRequest == request
      ensures scale == ScaleFor(image, cameraFov, PixelsToRemove(image, request))
    {
      imageRequest := request;
      scale := ScaleFor(image, cameraFov, PixelsToRemove(image, request));
    }

    /** getWidth(): the image's width, whatever the request. */
    function GetWidth(): int {
      image.width
    }

    /** getHeight(): the image's height, whatever the request. */
    function GetHeight(): int {
      image.height
    }

    /** The removal counts getRGB uses, after the reset. */
    function Removal(): (d: Dims)
      reads this
      ensures 0 <= d.width <= image.width && 0 <= d.height <= image.height
      ensures d.width == ClampRemoval(PixelsToRemove(image, imageRequest).width, image.width)
      ensures d.height == ClampRemoval(PixelsToRemove(image, imageRequest).height, image.height)
    {
      var p := PixelsToRemove(image, imageRequest);
      Dims(ClampRemoval(p.width, GetWidth()), ClampRemoval(p.height, GetHeight()))
    }

    /** unProject, centred on the middle of the IMAGE; None stands for its ProjectionException. */
    function Position(longitude: real, latitude: real): (r: Option<Vec2>)
      requires UsableScale(scale, projection)
      reads this
      ensures projection == TAN ==>
                (r.None? <==> tan.separation(Vec2(cameraLongitude, cameraLatitude), longitude, latitude) > 0.5 * PI)
      ensures projection == CAR ==>
                r == Some(UnProjectCar(Vec2(CentrePixel(image.width), CentrePixel(image.height)),
                                       Vec2(cameraLongitude, cameraLatitude), scale.value, longitude, latitude))
    {
      UnProject(Vec2(CentrePixel(GetWidth()), CentrePixel(GetHeight())), Vec2(cameraLongitude, cameraLatitude),
                scale.value, Vec2(0.0, 0.0), longitude, latitude, projection, tan)
    }

    /**
     * getRGB(longitude, latitude): the exception when unProject throws; otherwise the
     * colour of the pixel the direction falls on when it is kept and lies in the image,
     * else null.
     */
    function GetRgb(longitude: real, latitude: real): (r: RgbOutcome)
      requires UsableScale(scale, projection)
      reads this
      ensures r.ProjectionFailed? <==> Position(longitude, latitude).None?
      ensures r.Returned? ==>
                var p := RequestPosition(Position(longitude, latitude).value, Dims(image.width, image.height));
                (r.color.Some? <==> Kept(p.width, p.height, Removal(), image.width, image.height)
                                    && 0 <= p.width < image.width && 0 <= p.height < image.height)
                && (r.color.Some? ==> r.color == image.ColorAt(p.width, p.height))
    {
      var xy := Position(longitude, latitude);
      if xy.None? then ProjectionFailed
      else
        var p := RequestPosition(xy.value, Dims(GetWidth(), GetHeight()));
        if !Kept(p.width, p.height, Removal(), GetWidth(), GetHeight()) then Returned(None)
        else Returned(image.ColorAt(p.width, p.height))
    }
  }

  /**
   * The kept pixels form a rectangle centred in the image: ⌈r/2⌉ columns are dropped
   * on each side for a removal count r, and the same for rows.
   */
  lemma KeptIsCentredRange(x: int, y: int, remove: Dims, width: int, height: int)
    requires 0 <= remove.width <= width <= INT_MAX && 0 <= remove.height <= height <= INT_MAX
    ensures var cx, cy := (remove.width + 1) / 2, (remove.height + 1) / 2;
            Kept(x, y, remove, width, height) <==> PixelRange(cx, width - cx, cy, height - cy).Contains(x, y)
  {
    TruncLessHalf(width, remove.width);
    TruncLessHalf(height, remove.height);
    BelowHalf(x, remove.width);
    BelowHalf(y, remove.height);
  }

  /** For an int x and a natural d: x < d/2 exactly when x < ⌈d/2⌉. */
  lemma BelowHalf(x: int, d: nat)
    ensures x as real < 0.5 * d as real <==> x < (d + 1) / 2
  {
    var q := (d + 1) / 2;
    if d % 2 == 0 {
      assert d == 2 * q;
      assert 0.5 * d as real == q as real;
    } else {
      assert d == 2 * q - 1;
      assert d as real == 2.0 * q as real - 1.0;
      assert 0.5 * d as real == q as real - 0.5;
    }
  }

  /**
   * After the reset every kept pixel lies in the image, so the bounds test alone
   * decides: a colour is returned exactly for the kept pixels.
   */
  lemma KeptPixelsLieInImage(m: MetadataFile, longitude: real, latitude: real)
    requires UsableScale(m.scale, m.projection)
    requires m.image.width <= INT_MAX && m.image.height <= INT_MAX
    ensures var r := m.GetRgb(longitude, latitude);
            r.Returned? ==>
              var p := RequestPosition(m.Position(longitude, latitude).value, Dims(m.image.width, m.image.height));
              (r.color.Some? <==> Kept(p.width, p.height, m.Removal(), m.image.width, m.image.height))
  {
    var xy := m.Position(longitude, latitude);
    if xy.Some? {
      var p := RequestPosition(xy.value, Dims(m.image.width, m.image.height));
      KeptIsCentredRange(p.width, p.height, m.Removal(), m.image.width, m.image.height);
    }
  }

  /**
   * Before setImageRequest the request is (0, 0), the whole image is "to remove",
   * and no direction gets a colour.
   */
  lemma InitialRequestKeepsNothing(m: MetadataFile, longitude: real, latitude: real)
    requires UsableScale(m.scale, m.projection) && m.imageRequest == Dims(0, 0)
    requires m.image.width <= INT_MAX && m.image.height <= INT_MAX
    ensures m.GetRgb(longitude, latitude) != Returned(None) ==> m.GetRgb(longitude, latitude) == ProjectionFailed
  {
    var w, h := m.image.width, m.image.height;
    assert m.Removal() == Dims(w, h);
    var xy := m.Position(longitude, latitude);
    if xy.Some? {
      var p := RequestPosition(xy.value, Dims(w, h));
      KeptIsCentredRange(p.width, p.height, m.Removal(), w, h);
    }
  }

  /**
   * A request wider than the image removes the extra columns as a positive count;
   * a request taller than the image gives a negative row count, which getRGB resets
   * to 0.  A request that fits removes the difference on both axes.
   */
  lemma PixelsToRemoveAsymmetric(image: Image, request: Dims)
    requires image.width <= INT_MAX && image.height <= INT_MAX
    requires 0 <= request.width <= INT_MAX && 0 <= request.height <= INT_MAX
    ensures request.width > image.width ==> PixelsToRemove(image, request).width == request.width - image.width > 0
    ensures request.height > image.height ==>
              PixelsToRemove(image, request).height == image.height - request.height < 0
              && ClampRemoval(PixelsToRemove(image, request).height, image.height) == 0
    ensures request.width <= image.width && request.height <= image.height ==>
              PixelsToRemove(image, request) == Dims(image.width - request.width, image.height - request.height)
  {
  }

  /**
   * The constructor's scale is the field of view over the image's size, and after a
   * request that fits in the image the scale is the field of view over the request:
   * the same scale as the other descriptors compute.
   */
  lemma ScaleOverRequest(image: Image, fov: Vec2, request: Dims)
    requires image.width <= INT_MAX && image.height <= INT_MAX
    requires 0 < request.width <= image.width && 0 < request.height <= image.height
    ensures ScaleFor(image, fov, Dims(0, 0)) == ComputeScale(Dims(image.width, image.height), fov)
    ensures ScaleFor(image, fov, PixelsToRemove(image, request)) == ComputeScale(request, fov)
    ensures ScaleFor(image, fov, PixelsToRemove(image, request)).Some?
  {
    PixelsToRemoveAsymmetric(image, request);
  }
}
