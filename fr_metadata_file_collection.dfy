/**
 * The fr generation of the image collection: a list of image descriptors and the
 * finest pixel scale among them, kept up to date in a two-element array.  A colour
 * query averages, channel by channel, the colours of every image that has one.
 *
 * The descriptors are abstract: `scaleOf` is their getScale(), and the colour and
 * coverage queries are passed to the query methods.
 */
module FrMetadataFileCollection {
  import opened Wrappers
  import opened JavaNumerics
  import opened Imaging
  import opened Blending

  class MetadataFileCollection<F> {
    var files: seq<F>
    /** getPixelScale(): radians per pixel along the width and the height. */
    var scale: array<real>
    const scaleOf: F -> Scale

    ghost predicate Valid()
      reads this, scale
    {
      scale.Length == 2 && (scale[0], scale[1]) == LowestScale(ScalesOf(scaleOf, files))
    }

    /** `new MetadataFileCollection()`: no images, scale (Double.MAX_VALUE, Double.MAX_VALUE). */
    constructor Empty(scaleOf: F -> Scale)
      ensures Valid() && fresh(scale) && this.scaleOf == scaleOf
      ensures files == [] && scale[..] == [DOUBLE_MAX, DOUBLE_MAX]
    {
      this.scaleOf := scaleOf;
      files := [];
      scale := new real[2];
      new;
      SetMetadataFiles([]);
    }

    /** `new MetadataFileCollection(files)`. */
    constructor (fs: seq<F>, scaleOf: F -> Scale)
      ensures Valid() && fresh(scale) && this.scaleOf == scaleOf && files == fs
    {
      this.scaleOf := scaleOf;
      files := fs;
      scale := new real[2];
      new;
      SetMetadataFiles(fs);
    }

    function Size(): nat
      reads this
    {
      |files|
    }

    /** Replaces the list and recomputes the scale over it into a new array. */
    method SetMetadataFiles(fs: seq<F>)
      modifies this
      ensures Valid() && files == fs && fresh(scale)
    {
      files := fs;
      scale := ComputeHighestResolution(fs);
    }

    /** Appends an image and lowers the scale array in place by the image's scale. */
    method AddMetadataFile(file: F)
      requires Valid()
      modifies this, scale
      ensures Valid() && scale == old(scale)
      ensures files == old(files) + [file] && Size() == old(Size()) + 1
      ensures (scale[0], scale[1]) == Lower(old((scale[0], scale[1])), scaleOf(file))
    {
      files := files + [file];
      LowerTo(scale, file);
      assert ScalesOf(scaleOf, files) == ScalesOf(scaleOf, old(files)) + [scaleOf(file)];
      LowestScaleAppend(ScalesOf(scaleOf, old(files)), scaleOf(file));
    }

    /** The rescan: starts from (Double.MAX_VALUE, Double.MAX_VALUE) and lowers it by every image. */
    method ComputeHighestResolution(fs: seq<F>) returns (highest: array<real>)
      ensures fresh(highest) && highest.Length == 2
      ensures (highest[0], highest[1]) == LowestScale(ScalesOf(scaleOf, fs))
    {
      highest := new real[2][DOUBLE_MAX, DOUBLE_MAX];
      for i := 0 to |fs|
        invariant (highest[0], highest[1]) == LowestScale(ScalesOf(scaleOf, fs[..i]))
      {
        LowerTo(highest, fs[i]);
        assert ScalesOf(scaleOf, fs[..i + 1]) == ScalesOf(scaleOf, fs[..i]) + [scaleOf(fs[i])];
        LowestScaleAppend(ScalesOf(scaleOf, fs[..i]), scaleOf(fs[i]));
      }
      assert fs[..|fs|] == fs;
    }

    /** Each component of `s` becomes the image's component when that one is smaller. */
    method LowerTo(s: array<real>, file: F)
      requires s.Length == 2
      modifies s
      ensures (s[0], s[1]) == Lower((old(s[0]), old(s[1])), scaleOf(file))
    {
      var scaleX := scaleOf(file).0;
      var scaleY := scaleOf(file).1;
      s[0] := if scaleX < s[0] then scaleX else s[0];
      s[1] := if scaleY < s[1] then scaleY else s[1];
    }

    /** getRGB(longitude, latitude): the per-channel integer mean of the colours of every image that has one. */
    method GetRgb(colorAt: (F, real, real) -> Option<Color>, longitude: real, latitude: real)
      returns (c: Option<Color>)
      ensures c == Average(AskedAt(files, colorAt, longitude, latitude))
    {
      ghost var answers := AskedAt(files, colorAt, longitude, latitude);
      var alpha, red, green, blue, matches := 0, 0, 0, 0, 0;
      for i := 0 to |files|
        invariant matches == |Hits(answers[..i])|
        invariant alpha == Sum(Hits(answers[..i]), Alpha) && red == Sum(Hits(answers[..i]), Red)
        invariant green == Sum(Hits(answers[..i]), Green) && blue == Sum(Hits(answers[..i]), Blue)
      {
        var found := colorAt(files[i], longitude, latitude);
        assert found == answers[i];
        HitsStep(answers, i);
        if found.Some? {
          AccumulateOne(Hits(answers[..i]), found.value);
          alpha, red := alpha + found.value.alpha, red + found.value.red;
          green, blue := green + found.value.green, blue + found.value.blue;
          matches := matches + 1;
        }
      }
      assert answers[..|files|] == answers;
      if matches == 0 {
        c := None;
      } else {
        MeanChannels(Hits(answers));
        c := Some(Color(red / matches, green / matches, blue / matches, alpha / matches));
      }
    }

    /**
     * getRGB(hpx, pixel): the per-channel integer mean of the colours of every image
     * that covers the pixel at the map's order and has a colour for it.
     */
    method GetRgbInPixel(isInside: (F, int, int) -> bool, colorAtPixel: (F, int) -> Option<Color>,
                         order: int, pixel: int)
      returns (c: Option<Color>)
      ensures c == Average(AskedInPixel(files, isInside, colorAtPixel, order, pixel))
    {
      ghost var answers := AskedInPixel(files, isInside, colorAtPixel, order, pixel);
      var alpha, red, green, blue, matches := 0, 0, 0, 0, 0;
      for i := 0 to |files|
        invariant matches == |Hits(answers[..i])|
        invariant alpha == Sum(Hits(answers[..i]), Alpha) && red == Sum(Hits(answers[..i]), Red)
        invariant green == Sum(Hits(answers[..i]), Green) && blue == Sum(Hits(answers[..i]), Blue)
      {
        HitsStep(answers, i);
        if isInside(files[i], order, pixel) {
          var found := colorAtPixel(files[i], pixel);
          if found.Some? {
            AccumulateOne(Hits(answers[..i]), found.value);
            alpha, red := alpha + found.value.alpha, red + found.value.red;
            green, blue := green + found.value.green, blue + found.value.blue;
            matches := matches + 1;
          }
        }
      }
      assert answers[..|files|] == answers;
      if matches == 0 {
        c := None;
      } else {
        MeanChannels(Hits(answers));
        c := Some(Color(red / matches, green / matches, blue / matches, alpha / matches));
      }
    }
  }

  lemma AccumulateOne(cs: seq<Color>, c: Color)
    ensures Sum(cs + [c], Alpha) == Sum(cs, Alpha) + c.alpha && Sum(cs + [c], Red) == Sum(cs, Red) + c.red
    ensures Sum(cs + [c], Green) == Sum(cs, Green) + c.green && Sum(cs + [c], Blue) == Sum(cs, Blue) + c.blue
  {
    SumAppend(cs, c, Alpha);
    SumAppend(cs, c, Red);
    SumAppend(cs, c, Green);
    SumAppend(cs, c, Blue);
  }

  /** Each channel of the mean is the channel sum divided by the number of colours, and fits a channel. */
  lemma MeanChannels(cs: seq<Color>)
    requires |cs| > 0
    ensures 0 <= Sum(cs, Red) / |cs| < 256 && 0 <= Sum(cs, Green) / |cs| < 256
    ensures 0 <= Sum(cs, Blue) / |cs| < 256 && 0 <= Sum(cs, Alpha) / |cs| < 256
    ensures Mean(cs) == Color(Sum(cs, Red) / |cs|, Sum(cs, Green) / |cs|, Sum(cs, Blue) / |cs|, Sum(cs, Alpha) / |cs|)
  {
    var n := |cs|;
    SumBounds(cs, Alpha, 0, 255);
    SumBounds(cs, Red, 0, 255);
    SumBounds(cs, Green, 0, 255);
    SumBounds(cs, Blue, 0, 255);
    DivBetween(Sum(cs, Alpha), n, 0, 255);
    DivBetween(Sum(cs, Red), n, 0, 255);
    DivBetween(Sum(cs, Green), n, 0, 255);
    DivBetween(Sum(cs, Blue), n, 0, 255);
  }
}
