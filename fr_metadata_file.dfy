/**
 * The fr.malapert generation's image descriptor, metadata/MetadataFile: a decoded
 * image, the camera direction and field of view, and an image request that defaults
 * to the image's size.  Sky directions are turned into pixels by the projection
 * module's unProject, centred on the middle of the request.
 */
module FrMetadataFile {
  import opened Wrappers
  import opened JavaNumerics
  import opened Imaging
  import opened HealpixLibrary
  import opened PixelFrame
  import opened FrProjection

  /** The camera centre in the pixel frame of a request: half of each side plus half a pixel. */
  function CentreOf(request: Dims): Vec2 {
    Vec2(CentrePixel(request.width), CentrePixel(request.height))
  }

  /** The pixel of an un-projected position: x truncated, y counted down from the request's height. */
  function RequestPosition(xy: Vec2, request: Dims): Dims {
    Dims(ToInt(xy.x), ToInt(request.height as real - xy.y))
  }

  /** A scale unProject can divide by: finite, and not zero along either axis for CAR. */
  predicate UsableScale(scale: Option<Vec2>, projection: ProjectionType) {
    scale.Some? && (projection == CAR ==> scale.value.x != 0.0 && scale.value.y != 0.0)
  }

  class MetadataFile {
    const image: Image
    const cameraLongitude: real
    const cameraLatitude: real
    const cameraFov: Vec2
    const projection: ProjectionType
    /** The trigonometric half of the TAN projection. */
    const tan: TanGeometry
    /** The spatial index's isIntersecting(order, pixel). */
    const index: (int, int) -> bool
    var imageRequest: Dims
    var scale: Option<Vec2>

    /** The full constructor: the request is the image's size. */
    constructor (image: Image, longitude: real, latitude: real, cameraFov: Vec2, projection: ProjectionType,
                 tan: TanGeometry, index: (int, int) -> bool)
      ensures this.image == image && cameraLongitude == longitude && cameraLatitude == latitude
      ensures this.cameraFov == cameraFov && this.projection == projection && this.tan == tan && this.index == index
      ensures imageRequest == Dims(image.width, image.height)
      ensures scale == ComputeScale(imageRequest, cameraFov) && scale.Some?
    {
      this.image := image;
      cameraLongitude := longitude;
      cameraLatitude := latitude;
      this.cameraFov := cameraFov;
      this.projection := projection;
      this.tan := tan;
      this.index := index;
      imageRequest := Dims(image.width, image.height);
      scale := ComputeScale(Dims(image.width, image.height), cameraFov);
    }

    /** The four-argument constructor: a TAN projection. */
    constructor Tan(image: Image, longitude: real, latitude: real, cameraFov: Vec2,
                    tan: TanGeometry, index: (int, int) -> bool)
      ensures this.image == image && cameraLongitude == longitude && cameraLatitude == latitude
      ensures this.cameraFov == cameraFov && projection == TAN && this.tan == tan && this.index == index
      ensures imageRequest == Dims(image.width, image.height)
      ensures scale == ComputeScale(imageRequest, cameraFov) && scale.Some?
    {
      this.image := image;
      cameraLongitude := longitude;
      cameraLatitude := latitude;
      this.cameraFov := cameraFov;
      projection := TAN;
      this.tan := tan;
      this.index := index;
      imageRequest := Dims(image.width, image.height);
      scale := ComputeScale(Dims(image.width, image.height), cameraFov);
    }

    /** setImageRequest: the request and the scale, nothing else. */
    method SetImageRequest(request: Dims)
      modifies this
      ensures imageRequest == request && scale == ComputeScale(request, cameraFov)
    {
      imageRequest := request;
      scale := ComputeScale(request, cameraFov);
    }

    /** unProject for this camera: None stands for its ProjectionException. */
    function Position(longitude: real, latitude: real): (r: Option<Vec2>)
      requires UsableScale(scale, projection)
      reads this
      ensures projection == TAN ==>
                (r.None? <==> tan.separation(Vec2(cameraLongitude, cameraLatitude), longitude, latitude) > 0.5 * PI)
      ensures projection == CAR ==>
                r == Some(UnProjectCar(CentreOf(imageRequest), Vec2(cameraLongitude, cameraLatitude), scale.value, longitude, latitude))
    {
      UnProject(CentreOf(imageRequest), Vec2(cameraLongitude, cameraLatitude), scale.value, Vec2(0.0, 0.0),
                longitude, latitude, projection, tan)
    }

    /**
     * getRGB(longitude, latitude): the colour of the image pixel the direction falls
     * on, or None when unProject fails, when the pixel is outside the range of the
     * image and the request, or when it is outside the image.
     */
    function GetRgb(longitude: real, latitude: real): (r: Option<Color>)
      requires UsableScale(scale, projection)
      reads this
      ensures r.Some? <==> Position(longitude, latitude).Some?
                           && var p := RequestPosition(Position(longitude, latitude).value, imageRequest);
                              FrRange(image.width, image.height, imageRequest).Contains(p.width, p.height)
                              && 0 <= p.width < image.width && 0 <= p.height < image.height
      ensures r.Some? ==> var p := RequestPosition(Position(longitude, latitude).value, imageRequest);
                          r == image.ColorAt(p.width, p.height)
    {
      var xy := Position(longitude, latitude);
      if xy.None? then None
      else
        var p := RequestPosition(xy.value, imageRequest);
        var rng := FrRange(image.width, image.height, imageRequest);
        if p.width >= rng.xmax || p.height >= rng.ymax || p.width < rng.xmin || p.height < rng.ymin then None
        else image.ColorAt(p.width, p.height)
    }

    /** getRGB(hpx, pixel): the pixel's centre as longitude φ and latitude π/2 − θ; a failing pix2ang gives None. */
    function GetRgbInPixel(pix2ang: int -> Option<Pointing>, pixel: int): (r: Option<Color>)
      requires UsableScale(scale, projection)
      reads this
      ensures pix2ang(pixel).None? ==> r.None?
      ensures pix2ang(pixel).Some? ==> r == GetRgb(pix2ang(pixel).value.phi, 0.5 * PI - pix2ang(pixel).value.theta)
    {
      var pt := pix2ang(pixel);
      if pt.None? then None else GetRgb(pt.value.phi, 0.5 * PI - pt.value.theta)
    }
  }

  /** TAN: a direction more than 90° from the camera centre has no colour. */
  lemma TanBeyondRightAngleHasNoColour(m: MetadataFile, longitude: real, latitude: real)
    requires UsableScale(m.scale, m.projection) && m.projection == TAN
    requires m.tan.separation(Vec2(m.cameraLongitude, m.cameraLatitude), longitude, latitude) > 0.5 * PI
    ensures m.GetRgb(longitude, latitude).None?
  {
  }

  /**
   * CAR with the request the constructor sets (the image's size): nothing is cut,
   * and a direction has a colour exactly when its CAR pixel, the row counted down
   * from the height, lies in the image.
   */
  lemma CarDefaultRequestColourIffInImage(m: MetadataFile, longitude: real, latitude: real)
    requires UsableScale(m.scale, m.projection) && m.projection == CAR
    requires m.imageRequest == Dims(m.image.width, m.image.height)
    requires m.image.width <= INT_MAX && m.image.height <= INT_MAX
    ensures var car := UnProjectCar(CentreOf(m.imageRequest), Vec2(m.cameraLongitude, m.cameraLatitude),
                                    m.scale.value, longitude, latitude);
            var p := RequestPosition(car, m.imageRequest);
            m.GetRgb(longitude, latitude).Some? <==> 0 <= p.width < m.image.width && 0 <= p.height < m.image.height
  {
    FrRangeNoBorder(m.image.width, m.image.height, m.imageRequest);
  }

  /** The camera centre falls on the request's centre pixel: column ⌊(w + 1) / 2⌋, row h − ⌊(h + 1) / 2⌋. */
  lemma CarCameraCentre(m: MetadataFile)
    requires UsableScale(m.scale, m.projection) && m.projection == CAR
    requires 0 < m.imageRequest.width <= INT_MAX && 0 < m.imageRequest.height <= INT_MAX
    ensures m.Position(m.cameraLongitude, m.cameraLatitude).Some?
    ensures RequestPosition(m.Position(m.cameraLongitude, m.cameraLatitude).value, m.imageRequest)
            == Dims((m.imageRequest.width + 1) / 2, m.imageRequest.height - (m.imageRequest.height + 1) / 2)
  {
    var w, h := m.imageRequest.width, m.imageRequest.height;
    var camera := Vec2(m.cameraLongitude, m.cameraLatitude);
    CarCentre(CentreOf(m.imageRequest), camera, m.scale.value);
    HalfUp(w);
    HalfUp(h);
    var cy := (h + 1) / 2;
    TruncOfInt(cy);
    TruncOfInt(h - cy);
  }
}
