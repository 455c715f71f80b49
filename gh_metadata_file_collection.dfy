/**
 * The io.github generation of the image collection: a list of image descriptors and
 * the finest pixel scale among them, kept up to date in a two-element array.  A
 * colour query answers with the first image, in list order, that has a colour.
 *
 * The descriptors are abstract: `scaleOf` is their getScale(), and the colour and
 * coverage queries are passed to the query methods.
 */
module GhMetadataFileCollection {
  import opened Wrappers
  import opened JavaNumerics
  import opened Imaging
  import opened Blending

  class MetadataFileCollection<F> {
    var files: seq<F>
    /** getPixelScale(): radians per pixel along the width and the height. */
    var scale: array<real>
    const scaleOf: F -> Scale

    ghost predicate Valid()
      reads this, scale
    {
      scale.Length == 2 && (scale[0], scale[1]) == LowestScale(ScalesOf(scaleOf, files))
    }

    /** `new MetadataFileCollection()`: no images, scale (Double.MAX_VALUE, Double.MAX_VALUE). */
    constructor Empty(scaleOf: F -> Scale)
      ensures Valid() && fresh(scale) && this.scaleOf == scaleOf
      ensures files == [] && scale[..] == [DOUBLE_MAX, DOUBLE_MAX]
    {
      this.scaleOf := scaleOf;
      files := [];
      scale := new real[2];
      new;
      SetMetadataFiles([]);
    }

    /** `new MetadataFileCollection(files)`. */
    constructor (fs: seq<F>, scaleOf: F -> Scale)
      ensures Valid() && fresh(scale) && this.scaleOf == scaleOf && files == fs
    {
      this.scaleOf := scaleOf;
      files := fs;
      scale := new real[2];
      new;
      SetMetadataFiles(fs);
    }

    function Size(): nat
      reads this
    {
      |files|
    }

    /** Replaces the list and recomputes the scale over it into a new array. */
    method SetMetadataFiles(fs: seq<F>)
      modifies this
      ensures Valid() && files == fs && fresh(scale)
    {
      files := fs;
      scale := ComputeHighestResolution(fs);
    }

    /** Appends an image and lowers the scale array in place by the image's scale. */
    method AddMetadataFile(file: F)
      requires Valid()
      modifies this, scale
      ensures Valid() && scale == old(scale)
      ensures files == old(files) + [file] && Size() == old(Size()) + 1
      ensures (scale[0], scale[1]) == Lower(old((scale[0], scale[1])), scaleOf(file))
    {
      files := files + [file];
      LowerTo(scale, file);
      assert ScalesOf(scaleOf, files) == ScalesOf(scaleOf, old(files)) + [scaleOf(file)];
      LowestScaleAppend(ScalesOf(scaleOf, old(files)), scaleOf(file));
    }

    /** The rescan: starts from (Double.MAX_VALUE, Double.MAX_VALUE) and lowers it by every image. */
    method ComputeHighestResolution(fs: seq<F>) returns (highest: array<real>)
      ensures fresh(highest) && highest.Length == 2
      ensures (highest[0], highest[1]) == LowestScale(ScalesOf(scaleOf, fs))
    {
      highest := new real[2][DOUBLE_MAX, DOUBLE_MAX];
      for i := 0 to |fs|
        invariant (highest[0], highest[1]) == LowestScale(ScalesOf(scaleOf, fs[..i]))
      {
        LowerTo(highest, fs[i]);
        assert ScalesOf(scaleOf, fs[..i + 1]) == ScalesOf(scaleOf, fs[..i]) + [scaleOf(fs[i])];
        LowestScaleAppend(ScalesOf(scaleOf, fs[..i]), scaleOf(fs[i]));
      }
      assert fs[..|fs|] == fs;
    }

    /** Each component of `s` becomes the image's component when that one is smaller. */
    method LowerTo(s: array<real>, file: F)
      requires s.Length == 2
      modifies s
      ensures (s[0], s[1]) == Lower((old(s[0]), old(s[1])), scaleOf(file))
    {
      var scaleX := scaleOf(file).0;
      var scaleY := scaleOf(file).1;
      s[0] := if scaleX < s[0] then scaleX else s[0];
      s[1] := if scaleY < s[1] then scaleY else s[1];
    }

    /** getRGB(longitude, latitude): the colour of the first image that has one at that direction. */
    method GetRgb(colorAt: (F, real, real) -> Option<Color>, longitude: real, latitude: real)
      returns (c: Option<Color>)
      ensures IsFirstHit(AskedAt(files, colorAt, longitude, latitude), c)
    {
      ghost var answers := AskedAt(files, colorAt, longitude, latitude);
      var alpha, red, green, blue, matches := 0, 0, 0, 0, 0;
      var i := 0;
      while i < |files|
        invariant 0 <= i <= |files|
        invariant matches == 0 && alpha == 0 && red == 0 && green == 0 && blue == 0
        invariant forall j :: 0 <= j < i ==> answers[j].None?
      {
        var found := colorAt(files[i], longitude, latitude);
        if found.Some? {
          alpha, red := alpha + found.value.alpha, red + found.value.red;
          green, blue := green + found.value.green, blue + found.value.blue;
          matches := matches + 1;
          assert answers[i] == found;
          break;
        }
        i := i + 1;
      }
      c := if matches == 0 then None else Some(Color(red / matches, green / matches, blue / matches, alpha / matches));
    }

    /**
     * getRGB(hpx, pixel): the colour of the first image that covers the pixel at the
     * map's order and has a colour for it.
     */
    method GetRgbInPixel(isInside: (F, int, int) -> bool, colorAtPixel: (F, int) -> Option<Color>,
                         order: int, pixel: int)
      returns (c: Option<Color>)
      ensures IsFirstHit(AskedInPixel(files, isInside, colorAtPixel, order, pixel), c)
    {
      ghost var answers := AskedInPixel(files, isInside, colorAtPixel, order, pixel);
      var alpha, red, green, blue, matches := 0, 0, 0, 0, 0;
      var i := 0;
      while i < |files|
        invariant 0 <= i <= |files|
        invariant matches == 0 && alpha == 0 && red == 0 && green == 0 && blue == 0
        invariant forall j :: 0 <= j < i ==> answers[j].None?
      {
        if isInside(files[i], order, pixel) {
          var found := colorAtPixel(files[i], pixel);
          if found.Some? {
            alpha, red := alpha + found.value.alpha, red + found.value.red;
            green, blue := green + found.value.green, blue + found.value.blue;
            matches := matches + 1;
            assert answers[i] == found;
            break;
          }
        }
        i := i + 1;
      }
      c := if matches == 0 then None else Some(Color(red / matches, green / matches, blue / matches, alpha / matches));
    }
  }
}
