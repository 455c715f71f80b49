/**
 * RGBGeneration, in both generations (io.github and fr.malapert, whose tile code is
 * the same): the colour tiles of a HiPS are made from three single-filter HiPS
 * trees.  Every PNG tile of the R tree is visited; the tiles at the same place in
 * the G and B trees are found by substituting the directory name; the colour tile
 * takes its red channel from R, its green from G and its blue from B; the property
 * file of the R tree is copied with the format set to PNG.
 *
 * Files are maps from paths: the decoded tiles, the loaded property files, the
 * tiles written.  The file-tree walk is the caller of VisitFile.
 */
module RgbGeneration {
  import opened Wrappers
  import opened JavaNumerics
  import opened JavaStrings
  import opened Imaging
  import opened HealpixLibrary

  const R_DIRECTORY: string := "r.fitsHiPS"
  const G_DIRECTORY: string := "g.fitsHiPS"
  const B_DIRECTORY: string := "b.fitsHiPS"
  const COLOR_DIRECTORY: string := "color"

  /* ---------------------------------------------------------------- paths */

  /** The G tile of an R tile: R_DIRECTORY replaced by G_DIRECTORY wherever it occurs. */
  function GreenTile(path: string): string { Replace(path, R_DIRECTORY, G_DIRECTORY) }

  /** The B tile of an R tile. */
  function BlueTile(path: string): string { Replace(path, R_DIRECTORY, B_DIRECTORY) }

  /** The colour tile of an R tile: the literal "r.fitsHiPS" replaced by "color". */
  function ColorTile(path: string): string { Replace(path, "r.fitsHiPS", COLOR_DIRECTORY) }

  /** Replacing a directory name that occurs exactly once, between two separators. */
  lemma ReplaceDirectory(root: string, rest: string, target: string)
    requires !Contains(root, R_DIRECTORY) && !Contains(rest, R_DIRECTORY)
    ensures Replace(root + "/" + R_DIRECTORY + "/" + rest, R_DIRECTORY, target) == root + "/" + target + "/" + rest
  {
    assert root + "/" + R_DIRECTORY + "/" + rest == root + ['/'] + (R_DIRECTORY + ['/'] + rest);
    ReplaceAround(root, '/', R_DIRECTORY + ['/'] + rest, R_DIRECTORY, target);
    ReplaceAround(R_DIRECTORY, '/', rest, R_DIRECTORY, target);
    ReplaceAbsent(root, R_DIRECTORY, target);
    ReplaceAbsent(rest, R_DIRECTORY, target);
    assert Replace(R_DIRECTORY, R_DIRECTORY, target) == target by {
      assert StartsWith(R_DIRECTORY, R_DIRECTORY);
      assert R_DIRECTORY[|R_DIRECTORY|..] == "";
    }
  }

  /**
   * For a tile `root/r.fitsHiPS/rest` of the R tree, the G, B and colour tiles are the
   * same place in the g.fitsHiPS, b.fitsHiPS and color trees: four different files,
   * so the colour tile never overwrites an input.
   */
  lemma TilePaths(root: string, rest: string)
    requires !Contains(root, R_DIRECTORY) && !Contains(rest, R_DIRECTORY)
    ensures var r := root + "/" + R_DIRECTORY + "/" + rest;
            GreenTile(r) == root + "/" + G_DIRECTORY + "/" + rest
            && BlueTile(r) == root + "/" + B_DIRECTORY + "/" + rest
            && ColorTile(r) == root + "/" + COLOR_DIRECTORY + "/" + rest
            && r != GreenTile(r) && r != BlueTile(r) && GreenTile(r) != BlueTile(r)
            && ColorTile(r) != r && ColorTile(r) != GreenTile(r) && ColorTile(r) != BlueTile(r)
  {
    var r := root + "/" + R_DIRECTORY + "/" + rest;
    ReplaceDirectory(root, rest, G_DIRECTORY);
    ReplaceDirectory(root, rest, B_DIRECTORY);
    ReplaceDirectory(root, rest, COLOR_DIRECTORY);
    var k := |root| + 1;
    assert r[k] == 'r';
    assert GreenTile(r)[k] == 'g';
    assert BlueTile(r)[k] == 'b';
    assert |ColorTile(r)| < |r| && |ColorTile(r)| < |GreenTile(r)| && |ColorTile(r)| < |BlueTile(r)|;
  }

  /* ----------------------------------------------------------- pixel count */

  /** Math.pow(2, order), exact: a power of two, or its inverse for a negative order. */
  function PowTwo(order: int): (p: real)
    ensures p > 0.0
  {
    if order >= 0 then Pow2(order) as real else 1.0 / Pow2(-order) as real
  }

  /** `(long) (Math.pow(2, order) * Math.pow(2, order) * 12)`. */
  function NbPixels(order: int): (n: int)
    ensures 0 <= n <= LONG_MAX
  {
    var n := ToLong(PowTwo(order) * PowTwo(order) * 12.0);
    assert 0.0 <= PowTwo(order) * PowTwo(order) * 12.0;
    n
  }

  /** Up to order 29 the count is exact: the 12·nside² pixels of the HEALPix grid with nside = 2^order. */
  lemma NbPixelsIsHealpixCount(order: int)
    requires 0 <= order <= 29
    ensures NbPixels(order) == Npix(Pow2(order))
  {
    var p := Pow2(order);
    Pow2Monotone(order, 29);
    Pow2Of29And30();
    SquareMonotone(p, 0x2000_0000);
    CountAsReal(order);
    ToLongOfInt(12 * (p * p));
    NpixOfSquare(p);
  }

  /** The two powers of two the bounds of the count turn on. */
  /** For a non-negative order the double product is the integer 12·(2^order)². */
  lemma CountAsReal(order: int)
    requires order >= 0
    ensures PowTwo(order) * PowTwo(order) * 12.0 == (12 * (Pow2(order) * Pow2(order))) as real
  {
  }

  /** `(long)` of a double holding an integer: the integer itself when it fits, LONG_MAX above. */
  lemma ToLongOfInt(n: int)
    requires n >= 0
    ensures ToLong(n as real) == if n <= LONG_MAX then n else LONG_MAX
  {
    TruncOfInt(n);
  }

  lemma NpixOfSquare(nside: int)
    ensures Npix(nside) == 12 * (nside * nside)
  {
  }

  lemma SquareMonotone(a: int, b: int)
    requires 0 <= a <= b
    ensures 0 <= a * a <= b * b
  {
    assert a * a <= a * b <= b * b;
  }

  /** From order 30 the product is beyond the long range and the cast saturates. */
  lemma NbPixelsSaturates(order: int)
    requires order >= 30
    ensures NbPixels(order) == LONG_MAX
  {
    var p := Pow2(order);
    Pow2Monotone(30, order);
    Pow2Of29And30();
    SquareMonotone(0x4000_0000, p);
    CountAsReal(order);
    ToLongOfInt(12 * (p * p));
  }

  /** A negative order gives a fraction: 3 pixels for order −1, none below. */
  lemma NbPixelsNegativeOrder(order: int)
    requires order < 0
    ensures NbPixels(order) == if order == -1 then 3 else 0
  {
    var p := Pow2(-order);
    if order == -1 {
      assert PowTwo(order) * PowTwo(order) * 12.0 == 3.0;
    } else {
      Pow2Monotone(2, -order);
      assert p >= 4;
      assert PowTwo(order) * PowTwo(order) * 12.0 == 12.0 / (p * p) as real;
      assert (p * p) as real >= 16.0;
      assert 12.0 / (p * p) as real < 1.0;
    }
  }

  /** getOrder: Integer.parseInt of hips_order; None when the key is missing (null) or not an int. */
  function OrderOf(properties: map<string, string>): (r: Option<int>)
    ensures "hips_order" !in properties ==> r.None?
    ensures "hips_order" in properties ==> r == ParseInt(properties["hips_order"])
  {
    if "hips_order" in properties then ParseInt(properties["hips_order"]) else None
  }

  /* ------------------------------------------------------------ the tiles */

  /** The colour pixel: `new Color(red of r, green of g, blue of b).getRGB()`, opaque. */
  function MergedPixel(r: int, g: int, b: int): int {
    Packed(Color(RedOf(r), GreenOf(g), BlueOf(b), 255))
  }

  /** The merged pixel carries R's red, G's green and B's blue, at full opacity. */
  lemma MergedChannels(r: int, g: int, b: int)
    ensures RedOf(MergedPixel(r, g, b)) == RedOf(r)
    ensures GreenOf(MergedPixel(r, g, b)) == GreenOf(g)
    ensures BlueOf(MergedPixel(r, g, b)) == BlueOf(b)
    ensures AlphaOf(MergedPixel(r, g, b)) == 255
  {
    UnpackPacked(Color(RedOf(r), GreenOf(g), BlueOf(b), 255));
  }

  /** getRGB(j, i) of G and B succeeds at every pixel of R: they are at least as large. */
  predicate Composable(r: Image, g: Image, b: Image) {
    r.width <= g.width && r.height <= g.height && r.width <= b.width && r.height <= b.height
  }

  /**
   * createRGB's loops: a buffer of R's dimensions, row i and column j holding the
   * merge of the three tiles' pixels at (j, i).
   */
  method MergeTiles(r: Image, g: Image, b: Image) returns (imageColor: array2<int>)
    requires Composable(r, g, b)
    ensures fresh(imageColor)
    ensures imageColor.Length0 == r.height && imageColor.Length1 == r.width
    ensures forall i, j :: 0 <= i < r.height && 0 <= j < r.width ==>
              imageColor[i, j] == MergedPixel(r.pixels[i][j], g.pixels[i][j], b.pixels[i][j])
  {
    imageColor := new int[r.height, r.width];
    for i := 0 to r.height
      invariant forall i', j :: 0 <= i' < i && 0 <= j < r.width ==>
                  imageColor[i', j] == MergedPixel(r.pixels[i'][j], g.pixels[i'][j], b.pixels[i'][j])
    {
      for j := 0 to r.width
        invariant forall i', j' :: 0 <= i' < i && 0 <= j' < r.width ==>
                    imageColor[i', j'] == MergedPixel(r.pixels[i'][j'], g.pixels[i'][j'], b.pixels[i'][j'])
        invariant forall j' :: 0 <= j' < j ==>
                    imageColor[i, j'] == MergedPixel(r.pixels[i][j'], g.pixels[i][j'], b.pixels[i][j'])
      {
        imageColor[i, j] := MergedPixel(r.pixels[i][j], g.pixels[i][j], b.pixels[i][j]);
      }
    }
  }

  /** The rows of a buffer, as the raster written to the PNG file. */
  function Rows(a: array2<int>): (rows: seq<seq<int>>)
    reads a
    ensures |rows| == a.Length0 && forall i :: 0 <= i < a.Length0 ==> |rows[i]| == a.Length1
    ensures forall i, j :: 0 <= i < a.Length0 && 0 <= j < a.Length1 ==> rows[i][j] == a[i, j]
  {
    seq(a.Length0, i requires 0 <= i < a.Length0 reads a => seq(a.Length1, j requires 0 <= j < a.Length1 reads a => a[i, j]))
  }

  /** The colour tile of three composable tiles, as a value. */
  function ColorImage(r: Image, g: Image, b: Image): (c: Image)
    requires Composable(r, g, b)
    ensures c.width == r.width && c.height == r.height
    ensures forall y, x :: 0 <= y < c.height && 0 <= x < c.width ==>
              c.pixels[y][x] == MergedPixel(r.pixels[y][x], g.pixels[y][x], b.pixels[y][x])
  {
    Raster(r.width, r.height,
           seq(r.height, y requires 0 <= y < r.height =>
             seq(r.width, x requires 0 <= x < r.width => MergedPixel(r.pixels[y][x], g.pixels[y][x], b.pixels[y][x]))))
  }

  /** The colour of every pixel of a colour tile: red from R, green from G, blue from B. */
  lemma ColorImageChannels(r: Image, g: Image, b: Image, x: int, y: int)
    requires Composable(r, g, b) && 0 <= x < r.width && 0 <= y < r.height
    ensures var c := ColorImage(r, g, b).ColorAt(x, y).value;
            c.red == r.ColorAt(x, y).value.red && c.green == g.ColorAt(x, y).value.green
            && c.blue == b.ColorAt(x, y).value.blue && c.alpha == 255
  {
    MergedChannels(r.pixels[y][x], g.pixels[y][x], b.pixels[y][x]);
  }

  /** The number of names ending in "png". */
  function PngCount(names: seq<string>): (n: nat)
    ensures n <= |names|
  {
    if names == [] then 0
    else PngCount(names[..|names| - 1]) + (if EndsWith(names[|names| - 1], "png") then 1 else 0)
  }

  /** What visitFile does with the walk: it always continues, unless createRGB throws. */
  datatype Visit = Continue | Thrown

  /** Whether createRGB can read the three tiles of `path` and compose them. */
  predicate Readable(path: string, tiles: map<string, Image>) {
    path in tiles && GreenTile(path) in tiles && BlueTile(path) in tiles
    && Composable(tiles[path], tiles[GreenTile(path)], tiles[BlueTile(path)])
  }

  /** The file visitor: the number of PNG tiles seen, and the colour tiles it has written. */
  class ProcessFile {
    const nbPixels: int
    var counter: int
    var written: map<string, Image>
    /** The names visited so far, in order. */
    ghost var visited: seq<string>

    /** The counter is the number of PNG names visited. */
    ghost predicate Valid()
      reads this
    {
      counter == PngCount(visited)
    }

    constructor (nbPixels: int)
      ensures Valid()
      ensures this.nbPixels == nbPixels && counter == 0 && written == map[] && visited == []
    {
      this.nbPixels := nbPixels;
      counter := 0;
      written := map[];
      visited := [];
    }

    /**
     * visitFile: a name ending in "png" is counted and its colour tile written; any
     * other file is passed over.  The walk continues unless the tiles cannot be read.
     */
    method VisitFile(aFile: string, tiles: map<string, Image>) returns (result: Visit)
      requires Valid()
      modifies this
      ensures Valid() && visited == old(visited) + [aFile]
      ensures !EndsWith(aFile, "png") ==> result == Continue && counter == old(counter) && written == old(written)
      ensures EndsWith(aFile, "png") ==> counter == old(counter) + 1
      ensures EndsWith(aFile, "png") && Readable(aFile, tiles) ==>
                result == Continue
                && written == old(written)[ColorTile(aFile) :=
                                ColorImage(tiles[aFile], tiles[GreenTile(aFile)], tiles[BlueTile(aFile)])]
      ensures EndsWith(aFile, "png") && !Readable(aFile, tiles) ==> result == Thrown && written == old(written)
    {
      visited := visited + [aFile];
      assert visited[..|visited| - 1] == old(visited);
      result := Continue;
      if EndsWith(aFile, "png") {
        counter := counter + 1;
        result := CreateRgb(aFile, tiles);
      }
    }

    /** createRGB: read the three tiles, merge them, write the colour tile. */
    method CreateRgb(aFile: string, tiles: map<string, Image>) returns (result: Visit)
      modifies this`written
      ensures Readable(aFile, tiles) ==>
                result == Continue
                && written == old(written)[ColorTile(aFile) :=
                                ColorImage(tiles[aFile], tiles[GreenTile(aFile)], tiles[BlueTile(aFile)])]
      ensures !Readable(aFile, tiles) ==> result == Thrown && written == old(written)
    {
      if !Readable(aFile, tiles) {
        return Thrown;
      }
      var imageR := tiles[aFile];
      var imageG := tiles[GreenTile(aFile)];
      var imageB := tiles[BlueTile(aFile)];
      var imageColor := MergeTiles(imageR, imageG, imageB);
      var raster := Raster(imageR.width, imageR.height, Rows(imageColor));
      forall y | 0 <= y < imageR.height
        ensures raster.pixels[y] == ColorImage(imageR, imageG, imageB).pixels[y]
      {
      }
      assert raster == ColorImage(imageR, imageG, imageB);
      written := written[ColorTile(aFile) := raster];
      result := Continue;
    }
  }

  /* ------------------------------------------------------- property files */

  /** The two properties both generations set to "png". */
  const PNG: map<string, string> := map["hips_tile_format" := "png", "format" := "png"]

  /** The properties createMetadata copies from a provider whose getter is not null, in its order. */
  const PROVIDER_ORDER: seq<string> := [
    "bib_reference", "bib_reference_url", "creator_did", "data_ucd", "dataproduct_subtype",
    "dataproduct_type", "hips_copyright", "hips_creator", "hips_frame", "hips_pixel_cut",
    "hips_progenitor_url", "hips_release_date", "hips_status", "obs_ack", "obs_collection",
    "obs_copyright", "obs_copyright_url", "obs_description", "obs_regime", "obs_title",
    "prov_progenitor", "publisher_id", "version", "hips_builder"]

  const PROVIDER_KEYS: set<string> := set k | k in PROVIDER_ORDER

  /** The first n keys of PROVIDER_ORDER. */
  ghost function FirstKeys(n: nat): set<string>
    requires n <= |PROVIDER_ORDER|
  {
    set j | 0 <= j < n :: PROVIDER_ORDER[j]
  }

  const CREATION_DATE: string := "hips_creation_date"
  const RELEASE_DATE: string := "hips_release_date"

  /** The format keys and the creation date are none of the provider's other keys. */
  lemma KeysDistinct()
    ensures "format" !in PROVIDER_KEYS && "hips_tile_format" !in PROVIDER_KEYS && CREATION_DATE !in PROVIDER_KEYS
  {
    FormatNotProvided();
    TileFormatNotProvided();
    CreationDateNotProvided();
  }

  lemma FormatNotProvided()
    ensures "format" !in PROVIDER_ORDER
  {
  }

  lemma TileFormatNotProvided()
    ensures "hips_tile_format" !in PROVIDER_ORDER
  {
  }

  lemma CreationDateNotProvided()
    ensures CREATION_DATE !in PROVIDER_ORDER
  {
  }

  /** `if (getter != null) properties.setProperty(key, getter)`. */
  function SetIfPresent(properties: map<string, string>, provider: map<string, string>, key: string): map<string, string> {
    if key in provider then properties[key := provider[key]] else properties
  }

  /** The part of a provider a set of keys selects. */
  function Restrict(provider: map<string, string>, keys: set<string>): (m: map<string, string>)
    ensures forall k :: k in m <==> k in provider && k in keys
    ensures forall k :: k in m ==> m[k] == provider[k]
  {
    map k | k in provider.Keys && k in keys :: provider[k]
  }

  /** One more setProperty of a provider value extends the keys copied so far. */
  lemma SetIfPresentGrows(base: map<string, string>, provider: map<string, string>, done: set<string>, key: string)
    ensures SetIfPresent(base + Restrict(provider, done), provider, key) == base + Restrict(provider, done + {key})
  {
  }

  /** Copying the next key of PROVIDER_ORDER extends the keys copied so far by one. */
  lemma CopyNext(base: map<string, string>, provider: map<string, string>, n: nat, extra: set<string>)
    requires n < |PROVIDER_ORDER|
    ensures SetIfPresent(base + Restrict(provider, FirstKeys(n) + extra), provider, PROVIDER_ORDER[n])
            == base + Restrict(provider, FirstKeys(n + 1) + extra)
  {
    SetIfPresentGrows(base, provider, FirstKeys(n) + extra, PROVIDER_ORDER[n]);
    assert FirstKeys(n) + extra + {PROVIDER_ORDER[n]} == FirstKeys(n + 1) + extra;
  }

  /** Copying the creation date, when the provider has one, adds it to the keys copied so far. */
  lemma CopyCreationDate(base: map<string, string>, provider: map<string, string>, n: nat)
    requires n <= |PROVIDER_ORDER| && CREATION_DATE in provider
    ensures (base + Restrict(provider, FirstKeys(n) + {}))[CREATION_DATE := provider[CREATION_DATE]]
            == base + Restrict(provider, FirstKeys(n) + {CREATION_DATE})
  {
    SetIfPresentGrows(base, provider, FirstKeys(n) + {}, CREATION_DATE);
    assert FirstKeys(n) + {} + {CREATION_DATE} == FirstKeys(n) + {CREATION_DATE};
  }

  /** The keys copied on the path with and the path without a release date. */
  lemma CopiedKeysOnEitherPath(provider: map<string, string>, extra: set<string>)
    requires extra == if RELEASE_DATE in provider then {CREATION_DATE} else {}
    ensures FirstKeys(24) + extra == CopiedKeys(provider)
  {
    AllKeys();
  }

  /** Once every key of PROVIDER_ORDER is copied, the keys copied are PROVIDER_KEYS. */
  lemma AllKeys()
    ensures |PROVIDER_ORDER| == 24 && FirstKeys(24) == PROVIDER_KEYS
  {
  }

  /** A key the provider does not hold selects nothing more. */
  lemma RestrictAbsent(provider: map<string, string>, keys: set<string>, key: string)
    requires key !in provider
    ensures Restrict(provider, keys + {key}) == Restrict(provider, keys)
  {
  }

  /** The two format writes of createMetadata. */
  lemma WithPng(src: map<string, string>)
    ensures src["hips_tile_format" := "png"]["format" := "png"] == src + PNG
  {
  }

  /**
   * Whether createMetadata throws: hips_creation_date is set, from its own getter,
   * when the RELEASE date is not null; a null creation date then reaches
   * setProperty, which refuses null values.
   */
  predicate CreationDateThrows(provider: map<string, string>) {
    RELEASE_DATE in provider && CREATION_DATE !in provider
  }

  /** The keys createMetadata takes from the provider: the creation date only with a release date. */
  function CopiedKeys(provider: map<string, string>): set<string> {
    PROVIDER_KEYS + (if RELEASE_DATE in provider then {CREATION_DATE} else {})
  }

  /**
   * The properties createMetadata stores: those of the R tree, the PNG format, and the
   * provider's non-null values for the keys it copies.
   */
  function ExpectedMetadata(src: map<string, string>, provider: map<string, string>): map<string, string> {
    src + PNG + Restrict(provider, CopiedKeys(provider))
  }

  /**
   * One `if (getter != null) setProperty(key, getter)` of createMetadata, for the
   * n-th key of PROVIDER_ORDER: one more provider key is copied.
   */
  method CopyProperty(properties: map<string, string>, provider: map<string, string>, n: nat,
                      ghost base: map<string, string>, ghost extra: set<string>)
    returns (copied: map<string, string>)
    requires n < |PROVIDER_ORDER|
    requires properties == base + Restrict(provider, FirstKeys(n) + extra)
    ensures copied == base + Restrict(provider, FirstKeys(n + 1) + extra)
  {
    copied := SetIfPresent(properties, provider, PROVIDER_ORDER[n]);
    CopyNext(base, provider, n, extra);
  }

  /** The setProperty calls of createMetadata before the creation date: the first 11 keys of PROVIDER_ORDER. */
  method CopyBeforeCreationDate(properties: map<string, string>, provider: map<string, string>,
                                ghost base: map<string, string>)
    returns (copied: map<string, string>)
    requires properties == base + Restrict(provider, FirstKeys(0) + {})
    ensures copied == base + Restrict(provider, FirstKeys(11) + {})
  {
    copied := properties;
    copied := CopyProperty(copied, provider, 0, base, {}); // "bib_reference"
    copied := CopyProperty(copied, provider, 1, base, {}); // "bib_reference_url"
    copied := CopyProperty(copied, provider, 2, base, {}); // "creator_did"
    copied := CopyProperty(copied, provider, 3, base, {}); // "data_ucd"
    copied := CopyProperty(copied, provider, 4, base, {}); // "dataproduct_subtype"
    copied := CopyProperty(copied, provider, 5, base, {}); // "dataproduct_type"
    copied := CopyProperty(copied, provider, 6, base, {}); // "hips_copyright"
    copied := CopyProperty(copied, provider, 7, base, {}); // "hips_creator"
    copied := CopyProperty(copied, provider, 8, base, {}); // "hips_frame"
    copied := CopyProperty(copied, provider, 9, base, {}); // "hips_pixel_cut"
    copied := CopyProperty(copied, provider, 10, base, {}); // "hips_progenitor_url"
  }

  /** The setProperty calls of createMetadata from the release date on: the last 13 keys of PROVIDER_ORDER. */
  method CopyFromReleaseDate(properties: map<string, string>, provider: map<string, string>,
                             ghost base: map<string, string>, ghost extra: set<string>)
    returns (copied: map<string, string>)
    requires properties == base + Restrict(provider, FirstKeys(11) + extra)
    ensures copied == base + Restrict(provider, FirstKeys(24) + extra)
  {
    copied := properties;
    copied := CopyProperty(copied, provider, 11, base, extra); // "hips_release_date"
    copied := CopyProperty(copied, provider, 12, base, extra); // "hips_status"
    copied := CopyProperty(copied, provider, 13, base, extra); // "obs_ack"
    copied := CopyProperty(copied, provider, 14, base, extra); // "obs_collection"
    copied := CopyProperty(copied, provider, 15, base, extra); // "obs_copyright"
    copied := CopyProperty(copied, provider, 16, base, extra); // "obs_copyright_url"
    copied := CopyProperty(copied, provider, 17, base, extra); // "obs_description"
    copied := CopyProperty(copied, provider, 18, base, extra); // "obs_regime"
    copied := CopyProperty(copied, provider, 19, base, extra); // "obs_title"
    copied := CopyProperty(copied, provider, 20, base, extra); // "prov_progenitor"
    copied := CopyProperty(copied, provider, 21, base, extra); // "publisher_id"
    copied := CopyProperty(copied, provider, 22, base, extra); // "version"
    copied := CopyProperty(copied, provider, 23, base, extra); // "hips_builder"
  }

  /**
   * createMetadata (io.github): the R tree's properties, the format set to PNG, and
   * each provider value that is not null; None stands for the NullPointerException
   * of a null creation date with a known release date.
   */
  method CreateMetadata(src: map<string, string>, provider: map<string, string>) returns (r: Option<map<string, string>>)
    ensures r.None? <==> CreationDateThrows(provider)
    ensures r.Some? ==> r.value == ExpectedMetadata(src, provider)
  {
    var properties := src;
    properties := properties["hips_tile_format" := "png"];
    properties := properties["format" := "png"];
    ghost var base := properties;
    WithPng(src);
    ghost var extra: set<string> := {};
    assert properties == base + Restrict(provider, FirstKeys(0) + {});
    properties := CopyBeforeCreationDate(properties, provider, base);
    if RELEASE_DATE in provider {
      if CREATION_DATE !in provider {
        return None;
      }
      properties := properties[CREATION_DATE := provider[CREATION_DATE]];
      CopyCreationDate(base, provider, 11);
      extra := {CREATION_DATE};
    }
    properties := CopyFromReleaseDate(properties, provider, base, extra);
    CopiedKeysOnEitherPath(provider, extra);
    r := Some(properties);
  }

  /**
   * What the stored properties hold: PNG for both format keys; the provider's value
   * for every key it sets; every other property of the R tree unchanged; nothing else.
   */
  lemma ExpectedMetadataContents(src: map<string, string>, provider: map<string, string>)
    ensures var m := ExpectedMetadata(src, provider);
            m["hips_tile_format"] == "png" && m["format"] == "png"
            && (forall k :: k in PROVIDER_KEYS && k in provider ==> k in m && m[k] == provider[k])
            && (forall k :: k in src && k !in PNG && k !in provider ==> k in m && m[k] == src[k])
            && (forall k :: k in m ==> k in src || k in PNG || k in provider)
  {
    KeysDistinct();
  }

  /** A creation date without a release date is not copied: the R tree's one, if any, stays. */
  lemma CreationDateIgnoredWithoutReleaseDate(src: map<string, string>, provider: map<string, string>)
    requires RELEASE_DATE !in provider
    ensures (CREATION_DATE in ExpectedMetadata(src, provider)) == (CREATION_DATE in src)
    ensures CREATION_DATE in src ==> ExpectedMetadata(src, provider)[CREATION_DATE] == src[CREATION_DATE]
  {
    KeysDistinct();
  }

  /** The smallest inputs that show the slip: a release date alone throws; a creation date alone is dropped. */
  lemma CreationDateCounterexamples()
    ensures CreationDateThrows(map[RELEASE_DATE := "2015-12-01"])
    ensures CREATION_DATE !in ExpectedMetadata(map[], map[CREATION_DATE := "2015-12-01"])
  {
    CreationDateIgnoredWithoutReleaseDate(map[], map[CREATION_DATE := "2015-12-01"]);
  }

  /**
   * The evident intent of the guard: the creation date copied exactly when its own
   * getter is not null, so that no provider makes the copy throw.  It agrees with
   * createMetadata whenever the two dates are both known or both null.
   */
  function IntendedMetadata(src: map<string, string>, provider: map<string, string>): (m: map<string, string>)
    ensures forall k :: (k in PROVIDER_KEYS || k == CREATION_DATE) && k in provider ==> k in m && m[k] == provider[k]
    ensures forall k :: k in m ==> k in src || k in PNG || k in provider
  {
    src + PNG + Restrict(provider, PROVIDER_KEYS + {CREATION_DATE})
  }

  /** The intended copy keeps the format and the R tree's other properties as createMetadata does. */
  lemma IntendedMetadataContents(src: map<string, string>, provider: map<string, string>)
    ensures var m := IntendedMetadata(src, provider);
            "hips_tile_format" in m && m["hips_tile_format"] == "png" && "format" in m && m["format"] == "png"
            && (forall k :: k in src && k !in PNG && k !in provider ==> k in m && m[k] == src[k])
  {
    KeysDistinct();
  }

  /** The intended copy agrees with createMetadata whenever the two dates are both known or both null. */
  lemma IntendedMetadataAgrees(src: map<string, string>, provider: map<string, string>)
    requires CREATION_DATE in provider <==> RELEASE_DATE in provider
    ensures IntendedMetadata(src, provider) == ExpectedMetadata(src, provider)
  {
    if CREATION_DATE !in provider {
      RestrictAbsent(provider, PROVIDER_KEYS, CREATION_DATE);
    }
  }

  /** copyMetadata (fr.malapert): the R tree's properties with the PNG format and the current date as creation date. */
  method CopyMetadata(src: map<string, string>, now: string) returns (properties: map<string, string>)
    ensures properties.Keys == src.Keys + PNG.Keys + {CREATION_DATE}
    ensures properties["hips_tile_format"] == "png" && properties["format"] == "png"
    ensures properties[CREATION_DATE] == now
    ensures forall k :: k in src && k !in PNG && k != CREATION_DATE ==> properties[k] == src[k]
  {
    properties := src;
    properties := properties["hips_tile_format" := "png"];
    properties := properties["format" := "png"];
    properties := properties[CREATION_DATE := now];
  }
}
