/**
 * The fr.malapert generation's JHIPS driver: it picks the HEALPix resolution from
 * the height of a plate-carrée (CAR) image, then fills three byte maps (red, green,
 * blue) by looking up, for every HEALPix pixel, the image pixel under its centre.
 *
 * The library's pix2ang is passed in as a function. The byte maps of this
 * generation (its own HealpixMapByte class is not part of this model) are arrays
 * whose setPixel is an element write. Writing the FITS files and running HipsGen
 * are left out.
 */
module FrJhips {
  import opened Wrappers
  import opened JavaNumerics
  import opened Imaging
  import opened HealpixLibrary

  const DEFAULT_ORDER: nat := 10
  const ORDER_MAX: nat := 29
  /** π / (180·60·60): one arc second in radians. */
  const ARCSEC2RAD: real := PI / 648000.0
  /** Math.sqrt(4π/12), the side of a base pixel in radians, as the double it evaluates to. */
  const BASE_PIXEL_SIDE: real := 1.0233267079464885

  function Max(a: int, b: int): int { if a < b then b else a }
  function Min(a: int, b: int): int { if a < b then a else b }

  /**
   * `(long) nsd` with nsd = sqrt(4π/12) / (arcsec2rad · pixsize). A zero pixel size
   * makes nsd +Infinity, which the cast saturates to Long.MAX_VALUE.
   */
  function NsdAsLong(pixsize: real): int {
    if pixsize == 0.0 then LONG_MAX else ToLong(Nsd(pixsize))
  }

  /** nsd: how many pixels of the given size fit along the side of a base pixel. */
  function Nsd(pixsize: real): real
    requires pixsize != 0.0
  {
    BASE_PIXEL_SIDE / (ARCSEC2RAD * pixsize)
  }

  lemma NsdAntitone(p1: real, p2: real)
    requires 0.0 < p1 <= p2
    ensures Nsd(p2) <= Nsd(p1)
  {
    RealDivAntitone(BASE_PIXEL_SIDE, ARCSEC2RAD * p1, ARCSEC2RAD * p2);
  }

  /** The order calculateNSide asks for: 1 + ilog2 of the integral nsd, clamped to [0, 29]. */
  function RequiredOrder(pixsize: real): (k: nat)
    ensures k <= ORDER_MAX
  {
    Max(0, Min(ORDER_MAX, 1 + Ilog2(NsdAsLong(pixsize))))
  }

  lemma SmallShift(k: nat)
    requires k < 32
    ensures k % 32 == k
  {
  }

  /** `1 << k` for a shift distance in [0, 29]: no bit is lost. */
  lemma ShiftFits(k: nat)
    requires k <= ORDER_MAX
    ensures LongToInt(Pow2(k)) == Pow2(k) <= NSIDE_MAX
  {
    Pow2Monotone(k, ORDER_MAX);
    Pow2Of29And30();
    LongToIntSmall(Pow2(k));
  }

  /**
   * calculateNSide: the nside for a pixel size in arc seconds, `1 << order_req`.
   * It is a power of two in [1, 2^29] whose order is the required order.
   */
  function CalculateNSide(pixsize: real): (n: int)
    ensures n == Pow2(RequiredOrder(pixsize)) <= NSIDE_MAX
  {
    var k := RequiredOrder(pixsize);
    ShiftFits(k);
    SmallShift(k);
    LongToInt(Pow2(k % 32))
  }

  /** The nside calculateNSide returns is a power of two whose order is the required order. */
  lemma CalculateNSideOrder(pixsize: real)
    ensures IsPow2(CalculateNSide(pixsize)) && Order(CalculateNSide(pixsize)) == RequiredOrder(pixsize)
  {
    OrderOfPow2(RequiredOrder(pixsize));
  }

  lemma RealDivAntitone(c: real, a: real, b: real)
    requires c >= 0.0 && 0.0 < a <= b
    ensures c / b <= c / a
  {
    assert c / a - c / b == c * (b - a) / (a * b);
    assert c * (b - a) >= 0.0;
  }

  lemma ToLongMonotone(a: real, b: real)
    requires a <= b
    ensures ToLong(a) <= ToLong(b)
  {
    TruncMonotone(a, b);
  }

  /** A finer pixel size never gives a coarser map: calculateNSide is non-increasing in the pixel size. */
  lemma CalculateNSideMonotone(p1: real, p2: real)
    requires 0.0 <= p1 <= p2
    ensures CalculateNSide(p2) <= CalculateNSide(p1)
  {
    if p1 == 0.0 {
      assert NsdAsLong(p2) <= NsdAsLong(p1);
    } else {
      NsdAntitone(p1, p2);
      ToLongMonotone(Nsd(p2), Nsd(p1));
    }
    Ilog2Monotone(NsdAsLong(p2), NsdAsLong(p1));
    Pow2Monotone(RequiredOrder(p2), RequiredOrder(p1));
  }

  /**
   * computeNside: the pixel size is 648000 / height in arc seconds, divided as ints
   * (truncated) before it becomes a double; a zero height is an ArithmeticException (None).
   */
  function ComputeNside(height: int): (r: Option<int>)
    ensures r.Some? <==> height != 0
    ensures r.Some? ==> r.value == CalculateNSide(TruncDiv(648000, height) as real)
  {
    if height == 0 then None else Some(CalculateNSide(TruncDiv(648000, height) as real))
  }

  /** Because the division is on ints, every image taller than 648000 rows gets the finest order, 29. */
  lemma ComputeNsideTallImage(height: int)
    requires height > 648000
    ensures ComputeNside(height) == Some(NSIDE_MAX)
  {
    var pixsize := TruncDiv(648000, height) as real;
    assert pixsize == 0.0;
    Pow2Of29And30();
    Ilog2AtLeast(NsdAsLong(pixsize), ORDER_MAX);
    assert RequiredOrder(pixsize) == ORDER_MAX;
  }

  /** A taller image never gets a coarser map. */
  lemma ComputeNsideMonotone(h1: int, h2: int)
    requires 0 < h1 <= h2
    ensures ComputeNside(h1).value <= ComputeNside(h2).value
  {
    DivAntitone(648000, h1, h2);
    CalculateNSideMonotone(TruncDiv(648000, h2) as real, TruncDiv(648000, h1) as real);
  }

  /** Pixel coordinates (column, row) in an image. */
  datatype PixelXy = PixelXy(x: int, y: int)

  /** Where longitude φ falls across a W-wide image, before the cast: (φ + π)·W / 2π. */
  function ColumnPosition(phi: real, width: int): real {
    (phi + PI) * width as real / (2.0 * PI)
  }

  /** The image column under longitude φ: the position cast to int, less W once when it reaches W. */
  function Column(phi: real, width: int): int {
    var x := ToInt(ColumnPosition(phi, width));
    if x >= width then x - width else x
  }

  /** The image row under colatitude θ: θ·H / π cast to int. */
  function Row(theta: real, height: int): int {
    ToInt(theta * height as real / PI)
  }

  /** getPixelValueFromSphericalCoordinates. */
  function PixelOf(pt: Pointing, width: int, height: int): PixelXy {
    PixelXy(Column(pt.phi, width), Row(pt.theta, height))
  }

  lemma ColumnPositionBelow(phi: real, width: int)
    requires 1 <= width && 0.0 <= phi < 2.0 * PI
    ensures 0.0 <= ColumnPosition(phi, width) < 1.5 * width as real
  {
    FractionBelow(phi + PI, 1.5, width as real, 2.0 * PI);
  }

  /** For φ in [0, 2π) the column lies inside a W-wide image. */
  lemma ColumnInImage(phi: real, width: int)
    requires 1 <= width <= INT_MAX && 0.0 <= phi < 2.0 * PI
    ensures 0 <= Column(phi, width) < width
  {
    var u := ColumnPosition(phi, width);
    ColumnPositionBelow(phi, width);
    var t := Trunc(u);
    assert (2 * t) as real < (3 * width) as real;
    assert 2 * t < 3 * width;
    assert 0 <= ToInt(u) <= t;
  }

  /** For θ in [0, π) the row lies inside an H-high image. */
  lemma RowInImage(theta: real, height: int)
    requires 1 <= height <= INT_MAX && 0.0 <= theta < PI
    ensures 0 <= Row(theta, height) < height
  {
    var v := theta * height as real / PI;
    FractionBelow(theta, 1.0, height as real, PI);
    assert 0.0 <= v < height as real;
    var t := Trunc(v);
    assert 0 <= t < height by {
      assert t as real <= v;
    }
    assert Row(theta, height) == t;
  }

  /** For φ in [0, 2π) and θ in [0, π) the pixel lies inside a W×H image. */
  lemma PixelOfInImage(pt: Pointing, width: int, height: int)
    requires 1 <= width <= INT_MAX && 1 <= height <= INT_MAX
    requires 0.0 <= pt.phi < 2.0 * PI && 0.0 <= pt.theta < PI
    ensures 0 <= PixelOf(pt, width, height).x < width && 0 <= PixelOf(pt, width, height).y < height
  {
    ColumnInImage(pt.phi, width);
    RowInImage(pt.theta, height);
  }

  /** 0 <= a < c·d scales to 0 <= a·w/d < c·w for positive w and d. */
  lemma FractionBelow(a: real, c: real, w: real, d: real)
    requires 0.0 <= a < c * d && w > 0.0 && d > 0.0
    ensures 0.0 <= a * w / d < c * w
  {
    assert a * w < c * d * w;
    assert c * d * w / d == c * w;
  }

  /** The colour createHealpixVector reads for HEALPix pixel p; None when the lookup falls outside the image. */
  function PixelColor(pix2ang: (int, int) -> Pointing, img: Image, nside: int, p: int): Option<Color> {
    var xy := PixelOf(pix2ang(nside, p), img.width, img.height);
    img.ColorAt(xy.x, xy.y)
  }

  /** The three byte maps hold, at every pixel, the red, green and blue of its colour cast to byte. */
  ghost predicate ChannelMaps(pix2ang: (int, int) -> Pointing, img: Image, nside: int, n: int,
                              red: seq<JByte>, green: seq<JByte>, blue: seq<JByte>)
  {
    n <= |red| && n <= |green| && n <= |blue|
    && forall p :: 0 <= p < n ==>
         PixelColor(pix2ang, img, nside, p).Some?
         && red[p] == ToByte(PixelColor(pix2ang, img, nside, p).value.red)
         && green[p] == ToByte(PixelColor(pix2ang, img, nside, p).value.green)
         && blue[p] == ToByte(PixelColor(pix2ang, img, nside, p).value.blue)
  }

  /** Storing the next pixel's channels extends the maps by one pixel. */
  lemma ChannelMapsStep(pix2ang: (int, int) -> Pointing, img: Image, nside: int, n: int,
                        red: seq<JByte>, green: seq<JByte>, blue: seq<JByte>, c: Color)
    requires 0 <= n < |red| && n < |green| && n < |blue|
    requires ChannelMaps(pix2ang, img, nside, n, red, green, blue)
    requires PixelColor(pix2ang, img, nside, n) == Some(c)
    ensures ChannelMaps(pix2ang, img, nside, n + 1, red[n := ToByte(c.red)], green[n := ToByte(c.green)],
                        blue[n := ToByte(c.blue)])
  {
  }

  /**
   * The fill loop of createHealpixVector: pixel by pixel, the channels of the image
   * pixel under its centre go to the three maps; the first lookup outside the image
   * stops the loop.
   */
  method FillChannels(pix2ang: (int, int) -> Pointing, img: Image, nside: int,
                      red: array<JByte>, green: array<JByte>, blue: array<JByte>)
    returns (ok: bool)
    requires red.Length == Npix(nside) && green.Length == Npix(nside) && blue.Length == Npix(nside)
    requires red != green && green != blue && red != blue
    modifies red, green, blue
    ensures ok <==> forall p :: 0 <= p < Npix(nside) ==> PixelColor(pix2ang, img, nside, p).Some?
    ensures ok ==> ChannelMaps(pix2ang, img, nside, Npix(nside), red[..], green[..], blue[..])
  {
    for pixel := 0 to red.Length
      invariant ChannelMaps(pix2ang, img, nside, pixel, red[..], green[..], blue[..])
    {
      var xy := PixelOf(pix2ang(nside, pixel), img.width, img.height);
      var c := img.ColorAt(xy.x, xy.y);
      if c.None? {
        assert PixelColor(pix2ang, img, nside, pixel).None?;
        return false;
      }
      ghost var r, g, b := red[..], green[..], blue[..];
      ChannelMapsStep(pix2ang, img, nside, pixel, r, g, b, c.value);
      red[pixel] := ToByte(c.value.red);
      green[pixel] := ToByte(c.value.green);
      blue[pixel] := ToByte(c.value.blue);
      assert red[..] == r[pixel := ToByte(c.value.red)];
      assert green[..] == g[pixel := ToByte(c.value.green)];
      assert blue[..] == b[pixel := ToByte(c.value.blue)];
    }
    ok := true;
  }

  /** The HEALPix driver: the resolution it will use and the directory the maps go to. */
  class Jhips {
    var nside: int
    var outputDirectory: string

    /** `new JHIPS()`: nside (long) 2^10 and the output directory /tmp/data. */
    constructor ()
      ensures nside == Pow2(DEFAULT_ORDER) && outputDirectory == "/tmp/data"
      ensures Order(nside) == DEFAULT_ORDER
    {
      nside := 1024;
      outputDirectory := "/tmp/data";
      new;
      assert Pow2(DEFAULT_ORDER) == 1024;
      OrderOfPow2(DEFAULT_ORDER);
    }

    /**
     * setOrder: nside = (long) Math.pow(2, order). A negative order gives 0.5 or
     * less, cast to 0; from 63 on the power exceeds Long.MAX_VALUE, the cast saturates.
     */
    method SetOrder(order: int)
      modifies this
      ensures outputDirectory == old(outputDirectory)
      ensures order < 0 ==> nside == 0
      ensures 0 <= order < 63 ==> nside == Pow2(order) && NsideToOrder(nside) == Some(order)
      ensures order >= 63 ==> nside == LONG_MAX && NsideToOrder(nside) == Some(-1)
    {
      if order < 0 {
        nside := 0;
      } else if order < 63 {
        nside := Pow2(order);
        OrderOfPow2(order);
      } else {
        nside := LONG_MAX;
        assert !IsPow2(LONG_MAX) by {
          assert LONG_MAX % 2 == 1;
        }
      }
    }

    /** getOrder: HealpixBase.nside2order, which throws (None) for a non-positive nside. */
    method GetOrder() returns (r: Option<int>)
      ensures r == NsideToOrder(nside)
      ensures r.Some? && r.value >= 0 ==> Pow2(r.value) == nside
    {
      if nside <= 0 {
        return None;
      }
      r := Some(Order(nside));
      if IsPow2(nside) {
        Pow2OfOrder(nside);
      }
    }

    /**
     * createHealpixVector: for every pixel of the NESTED map the caller built at
     * `mapNside` (computeNside's result, not this object's nside), the image pixel
     * under its centre gives the three channels. An image read outside the image
     * ends the loop with an exception (ok false). On success the three file paths
     * are returned in the order r, g, b.
     */
    method CreateHealpixVector(pix2ang: (int, int) -> Pointing, img: Image, mapNside: int)
      returns (ok: bool, red: array<JByte>, green: array<JByte>, blue: array<JByte>, paths: seq<string>)
      requires mapNside >= 0
      ensures fresh(red) && fresh(green) && fresh(blue)
      ensures red.Length == Npix(mapNside) && green.Length == Npix(mapNside) && blue.Length == Npix(mapNside)
      ensures ok <==> forall p :: 0 <= p < Npix(mapNside) ==> PixelColor(pix2ang, img, mapNside, p).Some?
      ensures ok ==> ChannelMaps(pix2ang, img, mapNside, Npix(mapNside), red[..], green[..], blue[..])
      ensures ok ==> paths == [outputDirectory + "/r.fits", outputDirectory + "/g.fits", outputDirectory + "/b.fits"]
      ensures !ok ==> paths == []
    {
      var npix := Npix(mapNside);
      red := new JByte[npix](_ => 0);
      green := new JByte[npix](_ => 0);
      blue := new JByte[npix](_ => 0);
      paths := [];
      ok := FillChannels(pix2ang, img, mapNside, red, green, blue);
      if !ok {
        return;
      }
      paths := [outputDirectory + "/r.fits", outputDirectory + "/g.fits", outputDirectory + "/b.fits"];
    }

    /**
     * process, once the image is decoded: the map's nside comes from the image
     * height, and the three channel maps are filled at that nside.
     */
    method Process(pix2ang: (int, int) -> Pointing, img: Image)
      returns (ok: bool, mapNside: int, red: array<JByte>, green: array<JByte>, blue: array<JByte>, paths: seq<string>)
      ensures Some(mapNside) == ComputeNside(img.height) && 1 <= mapNside <= NSIDE_MAX
      ensures red.Length == Npix(mapNside)
      ensures ok <==> forall p :: 0 <= p < Npix(mapNside) ==> PixelColor(pix2ang, img, mapNside, p).Some?
      ensures ok ==> ChannelMaps(pix2ang, img, mapNside, Npix(mapNside), red[..], green[..], blue[..])
    {
      var computed := ComputeNside(img.height);
      mapNside := computed.value;
      ok, red, green, blue, paths := CreateHealpixVector(pix2ang, img, mapNside);
    }
  }

  /** HealpixBase.nside2order: None (an exception) for a non-positive nside, -1 for one that is not a power of two. */
  function NsideToOrder(nside: int): (r: Option<int>)
    ensures r.Some? <==> nside > 0
  {
    if nside <= 0 then None else Some(Order(nside))
  }

  lemma {:induction false} Pow2OfOrder(n: int)
    requires IsPow2(n)
    ensures Order(n) >= 0 && Pow2(Order(n)) == n
  {
    if n > 1 {
      Pow2OfOrder(n / 2);
    }
  }
}
