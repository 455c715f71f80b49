/**
 * The fr.malapert MarsHips variant: a camera of fixed 15° × 15° field of view pointed
 * at a horizontal direction, and the pixel of its image that a HEALPix direction
 * falls on.  Both image axes run against the angles (x falls as the azimuth grows,
 * y falls as the elevation grows); a direction outside the image is an error.
 */
module FrMarsHips {
  import opened Wrappers
  import opened JavaNumerics
  import opened Imaging
  import opened HealpixLibrary
  import opened FrProjection
  import opened FrJhips

  /** FOV_CAMERA_ALONG_AZIMUTH and FOV_CAMERA_ALONG_ELEVATION: 15° in radians. */
  const FOV_CAMERA: real := 15.0 * PI / 180.0

  /** Radians per pixel along an image side of `n` pixels. */
  function ScalePerPixel(n: int): (s: real)
    requires n > 0
    ensures s > 0.0
  {
    FOV_CAMERA / n as real
  }

  /** The elevation of a direction given by its colatitude. */
  function Elevation(pt: Pointing): real {
    PI * 0.5 - pt.theta
  }

  /** The column before the cast: the azimuth offset in pixels, taken from the centre. */
  function CameraX(camera: Vec2, width: int, azimuth: real): real
    requires width > 0
  {
    -(WrapLongitude(azimuth - camera.x) / ScalePerPixel(width)) + CentrePixel(width)
  }

  /** The row before the cast: the elevation offset in pixels, also taken from the centre. */
  function CameraY(camera: Vec2, height: int, elevation: real): real
    requires height > 0
  {
    -((elevation - camera.y) / ScalePerPixel(height)) + CentrePixel(height)
  }

  /** The pixel a direction falls on, before the bounds test. */
  function CameraPixel(camera: Vec2, pt: Pointing, width: int, height: int): PixelXy
    requires width > 0 && height > 0
  {
    PixelXy(ToInt(CameraX(camera, width, pt.phi)), ToInt(CameraY(camera, height, Elevation(pt))))
  }

  predicate InImage(xy: PixelXy, width: int, height: int) {
    0 <= xy.x < width && 0 <= xy.y < height
  }

  class MarsHips {
    /** The camera centre (azimuth, elevation) in radians. */
    var cameraCoordInAz: Vec2

    constructor ()
      ensures cameraCoordInAz == Vec2(0.0, 0.0)
    {
      cameraCoordInAz := Vec2(0.0, 0.0);
    }

    method SetCameraCoordInAz(c: Vec2)
      modifies this
      ensures cameraCoordInAz == c
    {
      cameraCoordInAz := c;
    }

    /**
     * getPixelValueFromSphericalCoordinates: the pixel of the camera image that the
     * direction falls on; None stands for the JHIPSOutputImageException thrown when
     * that pixel is outside the image.
     */
    function GetPixelValueFromSphericalCoordinates(pt: Pointing, img: Image): (r: Option<PixelXy>)
      reads this
      ensures r.Some? ==> 0 <= r.value.x < img.width && 0 <= r.value.y < img.height
      ensures r.Some? <==> InImage(CameraPixel(cameraCoordInAz, pt, img.width, img.height), img.width, img.height)
      ensures r.Some? ==> r.value == CameraPixel(cameraCoordInAz, pt, img.width, img.height)
    {
      var xy := CameraPixel(cameraCoordInAz, pt, img.width, img.height);
      if xy.x >= img.width || xy.y >= img.height || xy.x < 0 || xy.y < 0 then None else Some(xy)
    }
  }

  /**
   * The camera's mapping is the CAR un-projection of the mirrored direction: negating
   * the elevation and the camera's elevation turns CAR's rising y into a falling one.
   */
  lemma CameraIsMirroredCar(camera: Vec2, pt: Pointing, width: int, height: int)
    requires width > 0 && height > 0
    ensures var car := UnProjectCar(Vec2(CentrePixel(width), CentrePixel(height)), Vec2(camera.x, -camera.y),
                                    Vec2(ScalePerPixel(width), ScalePerPixel(height)), pt.phi, -Elevation(pt));
            CameraPixel(camera, pt, width, height) == PixelXy(car.x.Floor, car.y.Floor)
  {
    var centre := Vec2(CentrePixel(width), CentrePixel(height));
    var scale := Vec2(ScalePerPixel(width), ScalePerPixel(height));
    var mirrored := Vec2(camera.x, -camera.y);
    var el := Elevation(pt);
    assert CameraX(camera, width, pt.phi) == CarX(centre, mirrored, scale, pt.phi);
    MirroredRow(el - camera.y, ScalePerPixel(height));
    assert CameraY(camera, height, el) == CarY(centre, mirrored, scale, -el);
  }

  lemma MirroredRow(d: real, s: real)
    requires s > 0.0
    ensures -(d / s) == (-d) / s
  {
  }

  /**
   * The column does not grow with the azimuth (on one side of the wrap) and the row
   * does not shrink with the colatitude.
   */
  lemma CameraMonotone(camera: Vec2, p1: Pointing, p2: Pointing, width: int, height: int)
    requires width > 0 && height > 0
    requires p1.phi <= p2.phi && p1.theta <= p2.theta
    requires (p1.phi - camera.x > PI) == (p2.phi - camera.x > PI)
    ensures CameraPixel(camera, p2, width, height).x <= CameraPixel(camera, p1, width, height).x
    ensures CameraPixel(camera, p1, width, height).y <= CameraPixel(camera, p2, width, height).y
  {
    var centre := Vec2(CentrePixel(width), CentrePixel(height));
    var scale := Vec2(ScalePerPixel(width), ScalePerPixel(height));
    var mirrored := Vec2(camera.x, -camera.y);
    CameraIsMirroredCar(camera, p1, width, height);
    CameraIsMirroredCar(camera, p2, width, height);
    CameraIsMirroredCar(camera, Pointing(p1.theta, p2.phi), width, height);
    CarMonotone(centre, mirrored, scale, p1.phi, p2.phi, -Elevation(p1), -Elevation(p2));
    CameraIsMirroredCar(camera, Pointing(p2.theta, p1.phi), width, height);
  }

  /**
   * The camera centre falls on the pixel ((W + 1) / 2, (H + 1) / 2); that pixel is in
   * the image exactly when both sides are at least two pixels long.
   */
  lemma CameraCentre(m: MarsHips, img: Image)
    requires img.width <= INT_MAX && img.height <= INT_MAX
    ensures var r := m.GetPixelValueFromSphericalCoordinates(
                       Pointing(PI * 0.5 - m.cameraCoordInAz.y, m.cameraCoordInAz.x), img);
            (r.Some? <==> img.width >= 2 && img.height >= 2)
            && (r.Some? ==> r.value == PixelXy((img.width + 1) / 2, (img.height + 1) / 2))
  {
    var camera := m.cameraCoordInAz;
    CameraPointsAtCentre(camera, img.width, img.height);
    HalfUp(img.width);
    HalfUp(img.height);
  }

  /** The camera's own direction falls on the centre pixel, before the cast. */
  lemma CameraPointsAtCentre(camera: Vec2, width: int, height: int)
    requires width > 0 && height > 0
    ensures CameraPixel(camera, Pointing(PI * 0.5 - camera.y, camera.x), width, height)
            == PixelXy(ToInt(CentrePixel(width)), ToInt(CentrePixel(height)))
  {
    var pt := Pointing(PI * 0.5 - camera.y, camera.x);
    assert Elevation(pt) == camera.y;
    assert WrapLongitude(camera.x - camera.x) == 0.0;
    assert CameraX(camera, width, pt.phi) == CentrePixel(width);
    assert CameraY(camera, height, Elevation(pt)) == CentrePixel(height);
  }
}
