/**
 * The io.github generation's stand-alone image descriptor, metadata/MetadataFile:
 * a decoded image taken with a camera pointed at a known direction, with an image
 * request that defaults to the image's own size.
 *
 * The WCS map is rebuilt from the request and the scale by a function passed to
 * the constructor; the spatial index, built once from the camera direction and field
 * of view, is its isIntersecting.
 */
module GhMetadataFile {
  import opened Wrappers
  import opened JavaNumerics
  import opened Imaging
  import opened HealpixLibrary
  import opened PixelFrame

  /**
   * The position in the decoded image of the detector position `xy`: moved by half
   * the horizontal border and flipped vertically, where the vertical move is also
   * half the HORIZONTAL border.
   */
  function FilePosition(xy: Vec2, image: Image, request: Dims): Dims {
    var border := 0.5 * IntSub(image.width, request.width) as real;
    Dims(ToInt(xy.x + border), ToInt((image.height - 1) as real - (xy.y + border)))
  }

  class MetadataFile {
    const image: Image
    const cameraLongitude: real
    const cameraLatitude: real
    const cameraFov: Vec2
    const projection: ProjectionType
    var imageRequest: Dims
    var scale: Option<Vec2>
    var wcs: Wcs
    /** createWcs: the map for an image request and a scale (the camera direction and type fixed). */
    const createWcs: (Dims, Option<Vec2>) -> Wcs
    /** The spatial index's isIntersecting(order, pixel). */
    const index: (int, int) -> bool

    /** The full constructor: the request is the image's size. */
    constructor (image: Image, longitude: real, latitude: real, cameraFov: Vec2, projection: ProjectionType,
                 createWcs: (Dims, Option<Vec2>) -> Wcs, index: (int, int) -> bool)
      ensures this.image == image && cameraLongitude == longitude && cameraLatitude == latitude
      ensures this.cameraFov == cameraFov && this.projection == projection
      ensures this.createWcs == createWcs && this.index == index
      ensures imageRequest == Dims(image.width, image.height)
      ensures scale == ComputeScale(imageRequest, cameraFov) && scale.Some?
      ensures wcs == createWcs(imageRequest, scale)
      ensures GetWidth() == image.width && GetHeight() == image.height
    {
      this.image := image;
      cameraLongitude := longitude;
      cameraLatitude := latitude;
      this.cameraFov := cameraFov;
      this.projection := projection;
      this.createWcs := createWcs;
      this.index := index;
      imageRequest := Dims(image.width, image.height);
      scale := ComputeScale(Dims(image.width, image.height), cameraFov);
      wcs := createWcs(Dims(image.width, image.height), ComputeScale(Dims(image.width, image.height), cameraFov));
    }

    /** The four-argument constructor: a TAN projection. */
    constructor Tan(image: Image, longitude: real, latitude: real, cameraFov: Vec2,
                    createWcs: (Dims, Option<Vec2>) -> Wcs, index: (int, int) -> bool)
      ensures this.image == image && cameraLongitude == longitude && cameraLatitude == latitude
      ensures this.cameraFov == cameraFov && projection == TAN
      ensures this.createWcs == createWcs && this.index == index
      ensures imageRequest == Dims(image.width, image.height)
      ensures scale == ComputeScale(imageRequest, cameraFov)
      ensures wcs == createWcs(imageRequest, scale)
      ensures GetWidth() == image.width && GetHeight() == image.height
    {
      this.image := image;
      cameraLongitude := longitude;
      cameraLatitude := latitude;
      this.cameraFov := cameraFov;
      projection := TAN;
      this.createWcs := createWcs;
      this.index := index;
      imageRequest := Dims(image.width, image.height);
      scale := ComputeScale(Dims(image.width, image.height), cameraFov);
      wcs := createWcs(Dims(image.width, image.height), ComputeScale(Dims(image.width, image.height), cameraFov));
    }

    /** setImageRequest: a new request, the scale recomputed from the unchanged field of view, a new WCS map. */
    method SetImageRequest(request: Dims)
      modifies this
      ensures imageRequest == request
      ensures scale == ComputeScale(request, cameraFov)
      ensures wcs == createWcs(request, scale)
      ensures GetWidth() == request.width && GetHeight() == request.height
    {
      imageRequest := request;
      scale := ComputeScale(request, cameraFov);
      wcs := createWcs(request, scale);
    }

    /** getWidth(): the request's width, not the image's. */
    function GetWidth(): int
      reads this
    {
      imageRequest.width
    }

    /** getHeight(): the request's height, not the image's. */
    function GetHeight(): int
      reads this
    {
      imageRequest.height
    }

    /**
     * getRGB(longitude, latitude): the colour of the image pixel the direction falls
     * on, or None when wcs2pix fails, when the pixel is outside the validated range of
     * the image and the request, or when it is outside the image.
     */
    function GetRgb(longitude: real, latitude: real): (r: Option<Color>)
      reads this
      ensures r.Some? <==> wcs(ToDegrees(longitude), ToDegrees(latitude)).Some?
                           && var p := FilePosition(wcs(ToDegrees(longitude), ToDegrees(latitude)).value, image, imageRequest);
                              GhRange(image.width, image.height, imageRequest).Contains(p.width, p.height)
                              && 0 <= p.width < image.width && 0 <= p.height < image.height
      ensures r.Some? ==> var p := FilePosition(wcs(ToDegrees(longitude), ToDegrees(latitude)).value, image, imageRequest);
                          r == image.ColorAt(p.width, p.height)
    {
      var xy := wcs(ToDegrees(longitude), ToDegrees(latitude));
      if xy.None? then None
      else
        var p := FilePosition(xy.value, image, imageRequest);
        var rng := GhRange(image.width, image.height, Dims(GetWidth(), GetHeight()));
        if p.width >= rng.xmax || p.height >= rng.ymax || p.width < rng.xmin || p.height < rng.ymin then None
        else image.ColorAt(p.width, p.height)
    }

    /** getRGB(hpx, pixel): the pixel's centre as longitude φ and latitude π/2 − θ; a failing pix2ang gives None. */
    function GetRgbInPixel(pix2ang: int -> Option<Pointing>, pixel: int): (r: Option<Color>)
      reads this
      ensures pix2ang(pixel).None? ==> r.None?
      ensures pix2ang(pixel).Some? ==> r == GetRgb(pix2ang(pixel).value.phi, 0.5 * PI - pix2ang(pixel).value.theta)
    {
      var pt := pix2ang(pixel);
      if pt.None? then None else GetRgb(pt.value.phi, 0.5 * PI - pt.value.theta)
    }
  }

  /**
   * The vertical offset follows the horizontal border: two requests with the same
   * width put a detector position on the same row, whatever their heights.
   */
  lemma RowIgnoresRequestHeight(xy: Vec2, image: Image, r1: Dims, r2: Dims)
    requires r1.width == r2.width
    ensures FilePosition(xy, image, r1) == FilePosition(xy, image, r2)
  {
  }

  /**
   * A request as wide as the image leaves no horizontal border: the position is the
   * detector position truncated, the row counted from the bottom of the image.
   */
  lemma FilePositionNoBorder(xy: Vec2, image: Image, request: Dims)
    requires request.width == image.width
    ensures FilePosition(xy, image, request) == Dims(ToInt(xy.x), ToInt((image.height - 1) as real - xy.y))
  {
    LongToIntSmall(0);
  }

  /**
   * With the request the constructor sets (the image's own size) nothing is cut:
   * a direction has a colour exactly when wcs2pix succeeds and its truncated
   * position, the row counted from the bottom, lies in the image.
   */
  lemma DefaultRequestColourIffInImage(m: MetadataFile, longitude: real, latitude: real)
    requires m.imageRequest == Dims(m.image.width, m.image.height)
    requires m.image.width <= INT_MAX && m.image.height <= INT_MAX
    ensures var xy := m.wcs(ToDegrees(longitude), ToDegrees(latitude));
            m.GetRgb(longitude, latitude).Some?
            <==> xy.Some? && 0 <= ToInt(xy.value.x) < m.image.width
                 && 0 <= ToInt((m.image.height - 1) as real - xy.value.y) < m.image.height
  {
    GhRangeNoBorder(m.image.width, m.image.height, m.imageRequest);
    var xy := m.wcs(ToDegrees(longitude), ToDegrees(latitude));
    if xy.Some? {
      FilePositionNoBorder(xy.value, m.image, m.imageRequest);
    }
  }
}
