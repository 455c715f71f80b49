/**
 * The fr.malapert generation's un-projection from horizontal coordinates
 * (azimuth, elevation, in radians) to pixel coordinates of a camera image.
 *
 * CAR is written out. Of TAN only the out-of-range guard is modelled: the angular
 * separation from the camera centre and the gnomonic formula itself (trigonometric
 * floating-point work) are passed in as a `TanGeometry` value.
 */
module FrProjection {
  import opened Wrappers
  import opened JavaNumerics
  import opened PixelFrame

  /** The trigonometric half of unProjectTan. */
  datatype TanGeometry = TanGeometry(
    /** the angle between (azimuth, elevation) and the camera centre */
    separation: (Vec2, real, real) -> real,
    /** the pixel the gnomonic formula gives: centre pixel, camera centre, scale, rotation, azimuth, elevation */
    formula: (Vec2, Vec2, Vec2, Vec2, real, real) -> Vec2)

  /**
   * The longitude difference CAR uses: reduced by 2π when it exceeds π, and left
   * as it is otherwise — also when it is below −π.
   */
  function WrapLongitude(d: real): (r: real)
    ensures r <= d && (r < d <==> d > PI)
    ensures r < d ==> r == d - 2.0 * PI
  {
    if d > PI then -2.0 * PI + d else d
  }

  /** A double holding an integer value, as `new double[]{x, y}` stores the two int casts. */
  predicate Integral(r: real) {
    r == r.Floor as real
  }

  /**
   * unProjectCAR: the pixel offset from the centre pixel is the angular offset
   * divided by the scale, negated along x; each coordinate is cast to int.
   */
  function UnProjectCar(centre: Vec2, cameraHori: Vec2, scale: Vec2, azimuth: real, elevation: real): (r: Vec2)
    requires scale.x != 0.0 && scale.y != 0.0
    ensures Integral(r.x) && Integral(r.y)
    ensures INT_MIN as real <= r.x <= INT_MAX as real && INT_MIN as real <= r.y <= INT_MAX as real
  {
    Vec2(ToInt(CarX(centre, cameraHori, scale, azimuth)) as real, ToInt(CarY(centre, cameraHori, scale, elevation)) as real)
  }

  /** The column before the cast: the centre column less the longitude offset in pixels. */
  function CarX(centre: Vec2, cameraHori: Vec2, scale: Vec2, azimuth: real): real
    requires scale.x != 0.0
  {
    -(WrapLongitude(azimuth - cameraHori.x) / scale.x) + centre.x
  }

  /** The row before the cast: the centre row plus the latitude offset in pixels. */
  function CarY(centre: Vec2, cameraHori: Vec2, scale: Vec2, elevation: real): real
    requires scale.y != 0.0
  {
    (elevation - cameraHori.y) / scale.y + centre.y
  }

  /** unProject: CAR never fails; TAN fails with a ProjectionException (None) beyond 90° from the camera centre. */
  function UnProject(centre: Vec2, cameraHori: Vec2, scale: Vec2, rotation: Vec2, azimuth: real, elevation: real,
                     projection: ProjectionType, tan: TanGeometry): (r: Option<Vec2>)
    requires projection == CAR ==> scale.x != 0.0 && scale.y != 0.0
    ensures projection == CAR ==> r == Some(UnProjectCar(centre, cameraHori, scale, azimuth, elevation))
    ensures projection == TAN ==> (r.None? <==> tan.separation(cameraHori, azimuth, elevation) > 0.5 * PI)
    ensures projection == TAN && r.Some? ==> r.value == tan.formula(centre, cameraHori, scale, rotation, azimuth, elevation)
  {
    match projection
    case TAN =>
      if tan.separation(cameraHori, azimuth, elevation) > 0.5 * PI then None
      else Some(tan.formula(centre, cameraHori, scale, rotation, azimuth, elevation))
    case CAR => Some(UnProjectCar(centre, cameraHori, scale, azimuth, elevation))
  }

  /** The camera centre lands on the centre pixel, cast to int. */
  lemma CarCentre(centre: Vec2, cameraHori: Vec2, scale: Vec2)
    requires scale.x != 0.0 && scale.y != 0.0
    ensures UnProjectCar(centre, cameraHori, scale, cameraHori.x, cameraHori.y)
            == Vec2(ToInt(centre.x) as real, ToInt(centre.y) as real)
  {
    assert WrapLongitude(cameraHori.x - cameraHori.x) == 0.0;
  }

  /**
   * The wrap is one-sided: a point just past the camera's azimuth by 2π − ε is
   * brought back to −ε, while the mirror difference −(2π − ε) is kept.
   */
  lemma WrapOneSided(e: real)
    requires 0.0 < e < PI
    ensures WrapLongitude(2.0 * PI - e) == -e
    ensures WrapLongitude(-(2.0 * PI - e)) == -(2.0 * PI - e) < -PI
  {
  }

  lemma DivMonotone(a: real, b: real, s: real)
    requires a <= b && s > 0.0
    ensures a / s <= b / s
  {
    assert b / s - a / s == (b - a) / s;
  }

  /**
   * With positive scales and the same side of the wrap, the pixel column does not
   * increase with the azimuth and the pixel row does not decrease with the elevation.
   */
  lemma CarMonotone(centre: Vec2, cameraHori: Vec2, scale: Vec2, az1: real, az2: real, el1: real, el2: real)
    requires scale.x > 0.0 && scale.y > 0.0
    requires az1 <= az2 && el1 <= el2
    requires (az1 - cameraHori.x > PI) == (az2 - cameraHori.x > PI)
    ensures UnProjectCar(centre, cameraHori, scale, az2, el1).x <= UnProjectCar(centre, cameraHori, scale, az1, el1).x
    ensures UnProjectCar(centre, cameraHori, scale, az1, el1).y <= UnProjectCar(centre, cameraHori, scale, az1, el2).y
  {
    CarXAntitone(centre, cameraHori, scale, az1, az2);
    ToIntMonotone(CarX(centre, cameraHori, scale, az2), CarX(centre, cameraHori, scale, az1));
    CarYMonotone(centre, cameraHori, scale, el1, el2);
    ToIntMonotone(CarY(centre, cameraHori, scale, el1), CarY(centre, cameraHori, scale, el2));
  }

  lemma CarXAntitone(centre: Vec2, cameraHori: Vec2, scale: Vec2, az1: real, az2: real)
    requires scale.x > 0.0 && az1 <= az2
    requires (az1 - cameraHori.x > PI) == (az2 - cameraHori.x > PI)
    ensures CarX(centre, cameraHori, scale, az2) <= CarX(centre, cameraHori, scale, az1)
  {
    DivMonotone(WrapLongitude(az1 - cameraHori.x), WrapLongitude(az2 - cameraHori.x), scale.x);
  }

  lemma CarYMonotone(centre: Vec2, cameraHori: Vec2, scale: Vec2, el1: real, el2: real)
    requires scale.y > 0.0 && el1 <= el2
    ensures CarY(centre, cameraHori, scale, el1) <= CarY(centre, cameraHori, scale, el2)
  {
    DivMonotone(el1 - cameraHori.y, el2 - cameraHori.y, scale.y);
  }

  /** The centre of a side of `n` pixels in the pixel frame: half the side plus half a pixel. */
  function CentrePixel(n: int): real {
    0.5 * n as real + 0.5
  }

  /** Java `(int) (0.5 * n + 0.5)` for a positive int `n`. */
  lemma HalfUp(n: int)
    requires 0 < n <= INT_MAX
    ensures ToInt(CentrePixel(n)) == (n + 1) / 2
  {
    var q := (n + 1) / 2;
    assert CentrePixel(n) == (n + 1) as real / 2.0;
    assert q as real <= CentrePixel(n) < q as real + 1.0;
  }
}
