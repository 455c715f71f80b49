/**
 * java.awt.Color and a decoded java.awt.image.BufferedImage, as values.  A pixel
 * is a packed ARGB Java int: alpha in bits 24-31, red 16-23, green 8-15, blue 0-7.
 */
module Imaging {
  import opened Wrappers
  import opened JavaNumerics

  type Channel = c: int | 0 <= c < 256

  datatype Color = Color(red: Channel, green: Channel, blue: Channel, alpha: Channel)

  function AlphaOf(p: int): Channel { (p / 0x100_0000) % 0x100 }
  function RedOf(p: int): Channel { (p / 0x1_0000) % 0x100 }
  function GreenOf(p: int): Channel { (p / 0x100) % 0x100 }
  function BlueOf(p: int): Channel { p % 0x100 }

  /** `new Color(rgb)`: the low 24 bits give the channels; the colour is opaque. */
  function OpaqueColor(rgb: int): (c: Color)
    ensures c.alpha == 255
    ensures c.red == RedOf(rgb) && c.green == GreenOf(rgb) && c.blue == BlueOf(rgb)
  {
    Color(RedOf(rgb), GreenOf(rgb), BlueOf(rgb), 255)
  }

  /** Color.getRGB(): the channels packed into one signed 32-bit int. */
  function Packed(c: Color): (p: int)
    ensures INT_MIN <= p <= INT_MAX
  {
    LongToInt(c.alpha * 0x100_0000 + c.red * 0x1_0000 + c.green * 0x100 + c.blue)
  }

  /** Unpacking a packed colour gives its four channels back. */
  lemma UnpackPacked(c: Color)
    ensures AlphaOf(Packed(c)) == c.alpha && RedOf(Packed(c)) == c.red
    ensures GreenOf(Packed(c)) == c.green && BlueOf(Packed(c)) == c.blue
  {
    var u := c.alpha * 0x100_0000 + c.red * 0x1_0000 + c.green * 0x100 + c.blue;
    assert 0 <= u < 0x1_0000_0000;
    var p := Packed(c);
    assert p == u || p == u - 0x1_0000_0000;
    if p == u {
      assert p / 0x100_0000 == c.alpha;
      assert p / 0x1_0000 == c.alpha * 0x100 + c.red;
      assert p / 0x100 == (c.alpha * 0x100 + c.red) * 0x100 + c.green;
    } else {
      assert p / 0x100_0000 == c.alpha - 0x100;
      assert p / 0x1_0000 == (c.alpha - 0x100) * 0x100 + c.red;
      assert p / 0x100 == ((c.alpha - 0x100) * 0x100 + c.red) * 0x100 + c.green;
    }
  }

  /** A raster of packed pixels, `pixels[y][x]`. */
  datatype Raster = Raster(width: int, height: int, pixels: seq<seq<int>>) {
    predicate Decoded() {
      1 <= width && 1 <= height && |pixels| == height
      && forall y :: 0 <= y < |pixels| ==> |pixels[y]| == width
    }

    /** BufferedImage.getRGB(x, y); None stands for the out-of-bounds exception. */
    function RgbAt(x: int, y: int): (r: Option<int>)
      requires Decoded()
      ensures r.Some? <==> 0 <= x < width && 0 <= y < height
    {
      if 0 <= x < width && 0 <= y < height then Some(pixels[y][x]) else None
    }

    /** `new Color(image.getRGB(x, y))`, or None when (x, y) is outside the raster. */
    function ColorAt(x: int, y: int): (r: Option<Color>)
      requires Decoded()
      ensures r.Some? <==> 0 <= x < width && 0 <= y < height
      ensures r.Some? ==> r.value.alpha == 255
    {
      match RgbAt(x, y)
      case None => None
      case Some(p) => Some(OpaqueColor(p))
    }
  }

  /** A decoded image: never empty, every row as wide as the image. */
  type Image = r: Raster | r.Decoded() witness Raster(1, 1, [[0]])
}
