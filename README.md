# JHIPS core, modelled in Dafny

JHIPS mosaics calibrated camera images — Mars rover frames, planispheres — onto a
HEALPix sphere, and turns the resulting maps into HiPS (Hierarchical Progressive
Survey) tiles. The repository holds two generations of the code, `fr.malapert.jhips`
and `io.github.malapert.jhips`. They differ in observable ways, so each is modelled
on its own. The model covers the integer-heavy code the repository owns:

- **Image collections** (`blending.dfy`, `gh_metadata_file_collection.dfy`,
  `fr_metadata_file_collection.dfy`). A list of image descriptors keeps the finest
  pixel scale among them, updated in place on every append. It answers "which colour
  at this direction or HEALPix pixel": the io.github generation takes the first
  image in list order that has a colour; the fr generation averages, channel by
  channel, every image that has one.
- **The HEALPix byte map** (`healpix_map_byte.dfy`, `healpix_library.dfy`). A byte
  array of 12·nside² pixels with fill, get/set, reallocation, the RING/NESTED
  renumbering along permutation cycles, and import from a map at the same, a
  coarser or a finer resolution (block replication; mean of the non-zero
  sub-pixels with a hit threshold).
- **Image descriptors** (`pixel_frame.dfy`, `gh_jhips_metadata.dfy`,
  `gh_metadata_file.dfy`, `fr_metadata_file.dfy`, `fr_legacy_metadata_file.dfy`,
  `fr_projection.dfy`). Each turns a sky direction into a pixel of a decoded image:
  the projection's result is truncated, shifted by the first sample and the
  padding, flipped vertically, then compared with a validated pixel range. Their
  quirks are kept as written: the row bound uses the sub-image width, the first
  row is halved after the ceiling, one variant offsets rows by widths, the oldest
  variant removes a signed count of rows.
- **Resolution choice and the HEALPix fill loop** of the fr generation
  (`fr_jhips.dfy`, `fr_mars_hips.dfy`): the nside from the image height, the
  plate-carrée pixel lookup, and the loop that writes three byte maps.
- **Label parsing** (`mast_pds.dfy`, `gh_mars_hips.dfy`): the PDS3 label parser
  of MastPDSMetadata, with comments, END/GROUP/OBJECT dispatch and multi-line
  values read with mark/reset look-ahead, and the flag-and-counter scanner of
  MarsHips.readMetadata.
- **RGB recombination** (`rgb_generation.dfy`): the per-pixel merge of the R, G
  and B tiles, the tile paths derived by substitution, the tile count of an order,
  and the property-file rewrite of both generations.

Shared pieces: `wrappers.dfy` (Option), `java_numerics.dfy` (Java casts, integer
division and overflow written out over unbounded integers and exact reals),
`java_strings.dfy` (the java.lang.String operations used), `imaging.dfy` (packed
ARGB pixels, java.awt.Color, decoded images).

Java `double` values are exact `real`s; `(int)` and `(long)` casts truncate toward
zero and saturate; int arithmetic that can overflow wraps explicitly. Calls into
libraries whose code is not part of this model (JWcs `wcs2pix`, HEALPix
`pix2ang`/`nest2ring`/`ring2nest`/`xyf2pix`/`pix2xyf`/`swap_cycle`, the MOC
`isIntersecting`, `Double.valueOf`) are function parameters, with the laws a
method relies on stated as its preconditions. Files are maps from paths to
their contents (lines, decoded images, property maps).

## Model

| member | source | states |
|---|---|---|
| Blending.LowestScaleIsMinimum | src/io/github/malapert/jhips/metadata/MetadataFileCollection.java:131-153 | lowering (Double.MAX_VALUE, Double.MAX_VALUE) by every image's scale in turn gives, per axis, the smallest scale of all images, or Double.MAX_VALUE when none is smaller |
| Blending.LowestScaleOrderFree | src/io/github/malapert/jhips/metadata/MetadataFileCollection.java:131-137 | the finest scale depends only on which images are in the list, not on their order |
| Blending.LowestScaleAppend | src/io/github/malapert/jhips/metadata/MetadataFileCollection.java:92-95 | lowering the stored scale by one appended image gives the same scale as a rescan of the longer list |
| Blending.AverageNullIff | src/fr/malapert/jhips/MetadataFileCollection.java:154-173 | the averaged colour is null exactly when every image answers null |
| Blending.AverageBetween | src/fr/malapert/jhips/MetadataFileCollection.java:154-173 | each channel of the averaged colour lies between the smallest and the largest value of that channel among the answers |
| Blending.AverageOrderFree | src/fr/malapert/jhips/MetadataFileCollection.java:154-173 | the averaged colour depends only on the multiset of answers, not on the order of the images |
| Blending.MeanOfOne | src/io/github/malapert/jhips/metadata/MetadataFileCollection.java:163-182 | with the single match the first-match loop stops at, dividing each channel by one gives back the image's colour |
| Blending.HitsEmpty | src/fr/malapert/jhips/MetadataFileCollection.java:159-172 | no colour is accumulated exactly when every answer is null |
| Blending.HitsCount | src/fr/malapert/jhips/MetadataFileCollection.java:161-171 | the accumulated colours are exactly the non-null answers, each counted as often as it occurs |
| GhMetadataFileCollection.MetadataFileCollection.Empty | src/io/github/malapert/jhips/metadata/MetadataFileCollection.java:55-57 | an empty collection whose scale array is (Double.MAX_VALUE, Double.MAX_VALUE) |
| GhMetadataFileCollection.MetadataFileCollection.constructor | src/io/github/malapert/jhips/metadata/MetadataFileCollection.java:64-66 | the collection holds the given list and its scale is the finest scale over that list |
| GhMetadataFileCollection.MetadataFileCollection.SetMetadataFiles | src/io/github/malapert/jhips/metadata/MetadataFileCollection.java:82-85 | the list is replaced and a new scale array holds the finest scale over the new list |
| GhMetadataFileCollection.MetadataFileCollection.AddMetadataFile | src/io/github/malapert/jhips/metadata/MetadataFileCollection.java:92-95 | the image is appended, the same array is lowered in place, and the stored scale stays the finest scale over the whole list |
| GhMetadataFileCollection.MetadataFileCollection.ComputeHighestResolution | src/io/github/malapert/jhips/metadata/MetadataFileCollection.java:131-137 | a fresh two-element array holding the finest scale over the given list |
| GhMetadataFileCollection.MetadataFileCollection.LowerTo | src/io/github/malapert/jhips/metadata/MetadataFileCollection.java:147-153 | each component of the array becomes the image's component when that one is smaller |
| GhMetadataFileCollection.MetadataFileCollection.GetRgb | src/io/github/malapert/jhips/metadata/MetadataFileCollection.java:163-182 | the result is the first non-null answer in list order, and null exactly when every image answers null |
| GhMetadataFileCollection.MetadataFileCollection.GetRgbInPixel | src/io/github/malapert/jhips/metadata/MetadataFileCollection.java:190-211 | the first non-null answer among the images covering the pixel, in list order; null when there is none |
| FrMetadataFileCollection.MetadataFileCollection.Empty | src/fr/malapert/jhips/MetadataFileCollection.java:46-48 | an empty collection whose scale array is (Double.MAX_VALUE, Double.MAX_VALUE) |
| FrMetadataFileCollection.MetadataFileCollection.constructor | src/fr/malapert/jhips/MetadataFileCollection.java:55-57 | the collection holds the given list and its scale is the finest scale over that list |
| FrMetadataFileCollection.MetadataFileCollection.SetMetadataFiles | src/fr/malapert/jhips/MetadataFileCollection.java:73-76 | the list is replaced and a new scale array holds the finest scale over the new list |
| FrMetadataFileCollection.MetadataFileCollection.AddMetadataFile | src/fr/malapert/jhips/MetadataFileCollection.java:83-86 | the image is appended, the same array is lowered in place, and the stored scale stays the finest scale over the whole list |
| FrMetadataFileCollection.MetadataFileCollection.ComputeHighestResolution | src/fr/malapert/jhips/MetadataFileCollection.java:122-128 | a fresh two-element array holding the finest scale over the given list |
| FrMetadataFileCollection.MetadataFileCollection.LowerTo | src/fr/malapert/jhips/MetadataFileCollection.java:138-144 | each component of the array becomes the image's component when that one is smaller |
| FrMetadataFileCollection.MetadataFileCollection.GetRgb | src/fr/malapert/jhips/MetadataFileCollection.java:154-173 | the per-channel integer mean of every non-null answer (the `break` is commented out), null when there is none |
| FrMetadataFileCollection.MetadataFileCollection.GetRgbInPixel | src/fr/malapert/jhips/MetadataFileCollection.java:175-196 | the per-channel integer mean of the non-null answers of the images covering the pixel, null when there is none |
| FrMetadataFileCollection.MeanChannels | src/fr/malapert/jhips/MetadataFileCollection.java:172 | each channel sum divided by the number of matches fits a colour channel (0..255), so `new Color(...)` never rejects it |
| PixelFrame.ComputeScale | src/io/github/malapert/jhips/provider/JHipsMetadata.java:162-166 | the scale times the request side gives back the field of view on each axis; a zero side, where the Java quotient is infinite or NaN, gives no scale |
| PixelFrame.GhRangeNoBorder | src/io/github/malapert/jhips/provider/JHipsMetadata.java:94-111 | an image no larger than its sub-image keeps every pixel: the range is [0, W) × [0, H) |
| PixelFrame.GhRangeColumns | src/io/github/malapert/jhips/provider/JHipsMetadata.java:95-100 | with a border of d columns the first kept column is ⌈d/2⌉ and the column bound is the sub-image width less that, so fewer than w columns remain, all inside the image |
| PixelFrame.GhRangeRows | src/io/github/malapert/jhips/provider/JHipsMetadata.java:101-106 | with a border of d rows the first kept row is ⌊d/2⌋ (the ceiling is taken before the halving) and the row bound is the sub-image WIDTH less ⌈d/2⌉ |
| PixelFrame.GhRangeRowsCanLeaveImage | src/io/github/malapert/jhips/provider/JHipsMetadata.java:104-106 | for a 100 × 10 image with a 90 × 5 sub-image the range is [5, 85) × [2, 87), so row 10, below the image, passes the range test |
| GhJHipsMetadata.JHipsMetadata.constructor | src/io/github/malapert/jhips/provider/JHipsMetadata.java:87 | before init there is no image and the four-element range array holds zeros |
| GhJHipsMetadata.JHipsMetadata.Init | src/io/github/malapert/jhips/provider/JHipsMetadata.java:61-80 | a (0, 0) sub-image size becomes the image's size and any other is kept; the scale is the field of view over the sub-image size; index and WCS map are built from that scale; the range is the validated range of the image and sub-image |
| GhJHipsMetadata.JHipsMetadata.ComputeValidatedRangePixel | src/io/github/malapert/jhips/provider/JHipsMetadata.java:94-111 | the range array holds xmin, xmax, ymin, ymax of the validated range for the current image and sub-image |
| GhJHipsMetadata.JHipsMetadata.GetRgb | src/io/github/malapert/jhips/provider/JHipsMetadata.java:303-336 | a colour exactly when wcs2pix succeeds and the frame position lies both in the validated range and in the image; the colour is that pixel's |
| GhJHipsMetadata.JHipsMetadata.GetRgbInPixel | src/io/github/malapert/jhips/provider/JHipsMetadata.java:345-355 | null when pix2ang throws; otherwise the colour at longitude φ and latitude π/2 − θ of the pixel's centre |
| GhJHipsMetadata.NoBorderColourIffInImage | src/io/github/malapert/jhips/provider/JHipsMetadata.java:303-336 | with no border to cut, a direction has a colour exactly when wcs2pix succeeds and its frame position lies in the image |
| GhJHipsMetadata.FramePositionOfWholePixel | src/io/github/malapert/jhips/provider/JHipsMetadata.java:313-318 | a whole-pixel detector position (i, j) lands at column i − first sample + half the border, and at the row counted from the bottom of the image |
| GhMetadataFile.MetadataFile.constructor | src/io/github/malapert/jhips/metadata/MetadataFile.java:142-158 | the request is the image's size, the scale is the field of view over it (always defined) and the WCS map is built from request and scale; getWidth and getHeight report the image's size |
| GhMetadataFile.MetadataFile.Tan | src/io/github/malapert/jhips/metadata/MetadataFile.java:126-128 | the same as the full constructor with a TAN projection |
| GhMetadataFile.MetadataFile.SetImageRequest | src/io/github/malapert/jhips/metadata/MetadataFile.java:217-226 | the new request, the scale recomputed from the unchanged field of view, and a WCS map rebuilt from both; getWidth and getHeight then report the request, whatever the decoded image's size |
| GhMetadataFile.MetadataFile.GetRgb | src/io/github/malapert/jhips/metadata/MetadataFile.java:378-416 | a colour exactly when wcs2pix succeeds and the file position lies in the validated range and in the image; the colour is that pixel's |
| GhMetadataFile.MetadataFile.GetRgbInPixel | src/io/github/malapert/jhips/metadata/MetadataFile.java:425-435 | null when pix2ang throws; otherwise the colour at longitude φ and latitude π/2 − θ of the pixel's centre |
| GhMetadataFile.RowIgnoresRequestHeight | src/io/github/malapert/jhips/metadata/MetadataFile.java:384-385 | the vertical shift uses the horizontal border, so two requests of the same width put a detector position on the same row whatever their heights |
| GhMetadataFile.FilePositionNoBorder | src/io/github/malapert/jhips/metadata/MetadataFile.java:384-385 | a request as wide as the image leaves no shift: the position is the truncated detector position with the row counted from the bottom |
| GhMetadataFile.DefaultRequestColourIffInImage | src/io/github/malapert/jhips/metadata/MetadataFile.java:378-416 | with the constructor's request nothing is cut: a colour exactly when wcs2pix succeeds and the truncated position lies in the image |
| PixelFrame.FrRangeNoBorder | src/fr/malapert/jhips/metadata/MetadataFile.java:288-295 | an image no larger than its request keeps the request's whole rectangle [0, w) × [0, h) |
| PixelFrame.FrRangeBorder | src/fr/malapert/jhips/metadata/MetadataFile.java:288-295 | with a border of d columns the kept columns are [⌊d/2⌋, w − ⌈d/2⌉); the row bound is taken from the request WIDTH, not its height |
| FrProjection.WrapLongitude | src/fr/malapert/jhips/algorithm/Projection.java:93-96 | the longitude difference is reduced by exactly 2π when it exceeds π and is otherwise unchanged |
| FrProjection.UnProjectCar | src/fr/malapert/jhips/algorithm/Projection.java:91-107 | both pixel coordinates are whole numbers in the int range, as the two int casts store them |
| FrProjection.UnProject | src/fr/malapert/jhips/algorithm/Projection.java:121-134 | CAR never fails and gives the CAR pixel; TAN fails exactly when the direction is more than π/2 from the camera centre (lines 49-58) and otherwise gives the gnomonic formula's pixel |
| FrProjection.CarCentre | src/fr/malapert/jhips/algorithm/Projection.java:91-107 | the camera's own direction lands on the centre pixel, each coordinate cast to int |
| FrProjection.WrapOneSided | src/fr/malapert/jhips/algorithm/Projection.java:93-96 | the wrap is one-sided: a difference of 2π − ε becomes −ε, but −(2π − ε) is kept below −π |
| FrProjection.CarMonotone | src/fr/malapert/jhips/algorithm/Projection.java:93-105 | with positive scales and both azimuths on the same side of the wrap, the column never increases with the azimuth and the row never decreases with the elevation |
| FrProjection.HalfUp | src/fr/malapert/jhips/metadata/MetadataFile.java:278 | the int cast of the centre pixel 0.5·n + 0.5 of a positive side n is ⌊(n + 1)/2⌋ |
| FrMetadataFile.MetadataFile.constructor | src/fr/malapert/jhips/metadata/MetadataFile.java:115-125 | the request is the image's size and the scale is the field of view over it, always defined |
| FrMetadataFile.MetadataFile.Tan | src/fr/malapert/jhips/metadata/MetadataFile.java:99-101 | the same as the full constructor with a TAN projection |
| FrMetadataFile.MetadataFile.SetImageRequest | src/fr/malapert/jhips/metadata/MetadataFile.java:180-183 | the new request and the scale recomputed over it from the unchanged field of view, nothing else |
| FrMetadataFile.MetadataFile.Position | src/fr/malapert/jhips/metadata/MetadataFile.java:278-283 | unProject centred on the middle of the request: under TAN it fails exactly beyond π/2 from the camera centre; under CAR it is the CAR pixel |
| FrMetadataFile.MetadataFile.GetRgb | src/fr/malapert/jhips/metadata/MetadataFile.java:273-314 | a colour exactly when unProject succeeds and the truncated pixel, its row counted down from the request height, lies in the validated range and in the image; the colour is the image's colour there |
| FrMetadataFile.MetadataFile.GetRgbInPixel | src/fr/malapert/jhips/metadata/MetadataFile.java:322-332 | null when pix2ang throws; otherwise the colour at longitude φ and latitude π/2 − θ of the pixel's centre |
| FrMetadataFile.TanBeyondRightAngleHasNoColour | src/fr/malapert/jhips/algorithm/Projection.java:56-58 | under TAN a direction more than 90° from the camera centre never gets a colour |
| FrMetadataFile.CarDefaultRequestColourIffInImage | src/fr/malapert/jhips/metadata/MetadataFile.java:273-314 | under CAR with the constructor's request nothing is cut: a colour exactly when the CAR pixel lies in the image |
| FrMetadataFile.CarCameraCentre | src/fr/malapert/jhips/metadata/MetadataFile.java:278-286 | under CAR the camera centre falls on column ⌊(w + 1)/2⌋ and row h − ⌊(h + 1)/2⌋ of a w × h request |
| FrLegacyMetadataFile.ClampRemoval | src/fr/malapert/jhips/MetadataFile.java:244-245 | a removal count is kept exactly when it lies in [0, side] and is reset to 0 otherwise |
| FrLegacyMetadataFile.MetadataFile.constructor | src/fr/malapert/jhips/MetadataFile.java:102-110 | the request starts at (0, 0) and the scale is taken over the whole image |
| FrLegacyMetadataFile.MetadataFile.Tan | src/fr/malapert/jhips/MetadataFile.java:86-88 | the same as the full constructor with a TAN projection |
| FrLegacyMetadataFile.MetadataFile.SetImageRequest | src/fr/malapert/jhips/MetadataFile.java:136-140 | the new request, and the scale over the image side less the pixels to remove (lines 117-129) |
| FrLegacyMetadataFile.MetadataFile.Removal | src/fr/malapert/jhips/MetadataFile.java:243-245 | both removal counts lie within the image's sides, each the reset pixels-to-remove count |
| FrLegacyMetadataFile.MetadataFile.Position | src/fr/malapert/jhips/MetadataFile.java:232-238 | unProject centred on the middle of the IMAGE (not the request): TAN fails exactly beyond π/2; CAR gives the CAR pixel |
| FrLegacyMetadataFile.MetadataFile.GetRgb | src/fr/malapert/jhips/MetadataFile.java:230-264 | the projection's exception exactly when unProject throws; otherwise a colour exactly when the pixel is kept and lies in the image (the out-of-bounds catch gives null), and that colour is the image's |
| FrLegacyMetadataFile.KeptIsCentredRange | src/fr/malapert/jhips/MetadataFile.java:248 | the bounds test keeps exactly the rectangle [⌈r/2⌉, w − ⌈r/2⌉) × [⌈s/2⌉, h − ⌈s/2⌉) for removal counts r and s |
| FrLegacyMetadataFile.BelowHalf | src/fr/malapert/jhips/MetadataFile.java:248 | the comparison x < 0.5·d of an int with a double is x < ⌈d/2⌉ |
| FrLegacyMetadataFile.KeptPixelsLieInImage | src/fr/malapert/jhips/MetadataFile.java:243-262 | after the reset every kept pixel lies in the image, so the out-of-bounds catch never fires: a colour exactly for the kept pixels |
| FrLegacyMetadataFile.InitialRequestKeepsNothing | src/fr/malapert/jhips/MetadataFile.java:71 | with the initial (0, 0) request the whole image is "to remove" and no direction gets a colour |
| FrLegacyMetadataFile.PixelsToRemoveAsymmetric | src/fr/malapert/jhips/MetadataFile.java:117-119 | a request wider than the image gives a positive column count, a request taller than it a negative row count that getRGB resets to 0, and a request that fits the plain differences |
| FrLegacyMetadataFile.ScaleOverRequest | src/fr/malapert/jhips/MetadataFile.java:121-139 | the initial scale is the field of view over the image, and after a fitting request it is the field of view over the request, always defined |
| FrJhips.RequiredOrder | src/fr/malapert/jhips/JHIPS.java:194-197 | the requested order is 1 + ilog2 of the long-cast nsd, clamped to [0, 29] |
| FrJhips.CalculateNSide | src/fr/malapert/jhips/JHIPS.java:194-199 | the nside `1 << order_req` is 2 to the required order and never exceeds 2^29: the shift loses no bit |
| FrJhips.CalculateNSideOrder | src/fr/malapert/jhips/JHIPS.java:194-199 | the nside is a power of two whose order is the required order |
| FrJhips.CalculateNSideMonotone | src/fr/malapert/jhips/JHIPS.java:194-199 | a larger pixel size never gives a larger nside; a zero size, where nsd is +Infinity, gives the largest |
| FrJhips.ComputeNside | src/fr/malapert/jhips/JHIPS.java:133-136 | a result exactly when the height is not zero (else the int division throws), and then the nside for 648000 / height divided as ints |
| FrJhips.ComputeNsideTallImage | src/fr/malapert/jhips/JHIPS.java:133-136 | every image taller than 648000 rows gets nside 2^29, because the int division gives a pixel size of 0 |
| FrJhips.ComputeNsideMonotone | src/fr/malapert/jhips/JHIPS.java:133-136 | a taller image never gets a smaller nside |
| FrJhips.ColumnInImage | src/fr/malapert/jhips/JHIPS.java:208-212 | for a longitude in [0, 2π) the column, less the width once when it reaches the width, lies in the image |
| FrJhips.RowInImage | src/fr/malapert/jhips/JHIPS.java:213 | for a colatitude in [0, π) the row lies in the image |
| FrJhips.PixelOfInImage | src/fr/malapert/jhips/JHIPS.java:208-215 | for φ in [0, 2π) and θ in [0, π) the pixel getPixelValueFromSphericalCoordinates returns lies in the image |
| FrJhips.ChannelMapsStep | src/fr/malapert/jhips/JHIPS.java:164-168 | storing the byte-cast channels of the next pixel's colour extends all three maps by that pixel |
| FrJhips.FillChannels | src/fr/malapert/jhips/JHIPS.java:157-169 | the fill loop succeeds exactly when every pixel centre falls in the image, and then each map entry is the byte-cast channel of that pixel's colour |
| FrJhips.Jhips.constructor | src/fr/malapert/jhips/JHIPS.java:43-65 | nside is 2^10, whose order is 10, and the output directory is /tmp/data |
| FrJhips.Jhips.SetOrder | src/fr/malapert/jhips/JHIPS.java:71-73 | a negative order gives nside 0, an order in [0, 63) gives 2^order whose order it is again, and 63 or more saturates to Long.MAX_VALUE, which is no power of two |
| FrJhips.Jhips.GetOrder | src/fr/malapert/jhips/JHIPS.java:80-82 | nside2order: an exception for a non-positive nside, otherwise an order that, when not −1, gives back the nside as a power of two |
| FrJhips.Jhips.CreateHealpixVector | src/fr/malapert/jhips/JHIPS.java:155-177 | the three maps have npix entries; the loop completes exactly when every pixel centre falls in the image, and then every entry holds the byte-cast channel of that colour and the three paths are r, g, b under the output directory |
| FrJhips.Jhips.Process | src/fr/malapert/jhips/JHIPS.java:106-112 | the map's nside is computeNside of the image height, in [1, 2^29], and the maps are filled at that nside |
| FrJhips.NsideToOrder | src/fr/malapert/jhips/JHIPS.java:80-82 | a result exactly for a positive nside |
| FrJhips.Pow2OfOrder | src/fr/malapert/jhips/JHIPS.java:80-82 | the order of a power of two gives that power back |
| FrMarsHips.ScalePerPixel | src/fr/malapert/jhips/MarsHips.java:86 | the radians per pixel along a positive side are positive |
| FrMarsHips.MarsHips.constructor | src/fr/malapert/jhips/MarsHips.java:42-45 | the camera starts pointed at azimuth 0, elevation 0 |
| FrMarsHips.MarsHips.SetCameraCoordInAz | src/fr/malapert/jhips/MarsHips.java:64-66 | the camera direction is the one given |
| FrMarsHips.MarsHips.GetPixelValueFromSphericalCoordinates | src/fr/malapert/jhips/MarsHips.java:69-100 | a pixel exactly when the camera pixel lies in the image (else the output-image exception), and then it is that pixel |
| FrMarsHips.CameraIsMirroredCar | src/fr/malapert/jhips/MarsHips.java:71-93 | the camera's mapping is the CAR un-projection of the direction with both elevations negated |
| FrMarsHips.CameraMonotone | src/fr/malapert/jhips/MarsHips.java:78-93 | on one side of the wrap the column never grows with the azimuth and the row never shrinks with the colatitude |
| FrMarsHips.CameraPointsAtCentre | src/fr/malapert/jhips/MarsHips.java:75-93 | the camera's own direction falls on the centre pixel, each coordinate cast to int |
| FrMarsHips.CameraCentre | src/fr/malapert/jhips/MarsHips.java:69-100 | the camera's direction falls on ((W + 1)/2, (H + 1)/2), which is in the image exactly when both sides are at least 2 |
| HealpixLibrary.Npix2Nside | src/io/github/malapert/jhips/algorithm/HealpixMapByte.java:61 | npix2Nside: the nside r with 12·r² ≤ npix whose successor has more pixels than npix rounded down to a multiple of 12; the constructors ask that npix be exactly 12·r² |
| HealpixLibrary.OrderOfPow2 | src/io/github/malapert/jhips/algorithm/HealpixMapByte.java:124 | the order of 2^k is k, so the swap is allowed exactly for the orders up to the maximum |
| HealpixMapByte.AdmissibleAllocatesNpix | src/io/github/malapert/jhips/algorithm/HealpixMapByte.java:49 | once the pixel count fits an int the array has exactly one byte per pixel |
| HealpixMapByte.AllocationWrapsAsWritten | src/io/github/malapert/jhips/algorithm/HealpixMapByte.java:46-50 | with the written check and a maximum order from 15 on, nside 2^15 passes the check but `(int) getNpix()` is 0, and nside 2^14 gives a negative length |
| HealpixMapByte.OnCycle | src/io/github/malapert/jhips/algorithm/HealpixMapByte.java:126-137 | every index on a swap cycle is a pixel of the map, and one renumbering step moves it to the next index of its cycle, the last one back to the start |
| HealpixMapByte.CycleStepInRange | src/io/github/malapert/jhips/algorithm/HealpixMapByte.java:131-135 | the renumbering sends every pixel of the map to a pixel of the map, so no array index is out of range |
| HealpixMapByte.StartCycle | src/io/github/malapert/jhips/algorithm/HealpixMapByte.java:127-131 | saving the first value of a cycle starts the walk along it with every earlier cycle already rotated |
| HealpixMapByte.RotateStep | src/io/github/malapert/jhips/algorithm/HealpixMapByte.java:132-136 | while the walk has not returned to the start, copying the next value back keeps the walk's invariant one step further |
| HealpixMapByte.CloseCycle | src/io/github/malapert/jhips/algorithm/HealpixMapByte.java:137 | writing the saved value at the end of the cycle completes it and keeps the map a permutation of the original |
| HealpixMapByte.AllSwapped | src/io/github/malapert/jhips/algorithm/HealpixMapByte.java:126-139 | after every cycle each pixel holds the value the original map had at its renumbered index |
| HealpixMapByte.SwapStepInverse | src/io/github/malapert/jhips/algorithm/HealpixMapByte.java:131 | the renumbering of one scheme undoes that of the other |
| HealpixMapByte.SwapTwiceRestores | src/io/github/malapert/jhips/algorithm/HealpixMapByte.java:123-140 | swapping the scheme twice gives back the original map |
| HealpixMapByte.ParentBlock | src/io/github/malapert/jhips/algorithm/HealpixMapByte.java:223-229 | every fine pixel has a coarse parent on the same face whose fact × fact block contains it |
| HealpixMapByte.BlockIffParent | src/io/github/malapert/jhips/algorithm/HealpixMapByte.java:223-229 | a fine pixel lies in the block of coarse pixel m exactly when m is its parent |
| HealpixMapByte.RowStatsBounds | src/io/github/malapert/jhips/algorithm/HealpixMapByte.java:258-265 | one row of subpixels gives at most its width in hits and a sum between −128 and 127 times the hits |
| HealpixMapByte.BlockStatsBounds | src/io/github/malapert/jhips/algorithm/HealpixMapByte.java:258-266 | a block gives at most its area in hits and a sum between −128 and 127 times the hits |
| HealpixMapByte.DegradedIsTruncatedMean | src/io/github/malapert/jhips/algorithm/HealpixMapByte.java:267 | with enough hits the degraded value is the mean of the counted subpixels truncated toward zero, which is a byte already, so the byte cast changes nothing |
| HealpixMapByte.RowStatsFull | src/io/github/malapert/jhips/algorithm/HealpixMapByte.java:259-264 | a row with as many hits as subpixels has no subpixel that approx calls zero |
| HealpixMapByte.BlockStatsFull | src/io/github/malapert/jhips/algorithm/HealpixMapByte.java:252-267 | a pessimistic pixel (fact² hits needed) gets a value only when no subpixel of its block is zero |
| HealpixMapByte.Allocate | src/io/github/malapert/jhips/algorithm/HealpixMapByte.java:49 | a new zero-filled array of one byte per pixel |
| HealpixMapByte.SumRow | src/io/github/malapert/jhips/algorithm/HealpixMapByte.java:259-265 | the hits and sum of one row of subpixels that approx does not call zero |
| HealpixMapByte.SumBlock | src/io/github/malapert/jhips/algorithm/HealpixMapByte.java:258-266 | the hits and sum over the whole block, row by row |
| HealpixMapByte.DegradePixel | src/io/github/malapert/jhips/algorithm/HealpixMapByte.java:254-267 | the degraded value of coarse pixel m from its block's tally and the minimum hits |
| HealpixMapByte.UpgradeStep | src/io/github/malapert/jhips/algorithm/HealpixMapByte.java:223-231 | filling the block of one more coarse pixel extends the upgraded part of the map by that pixel |
| HealpixMapByte.DegradeStep | src/io/github/malapert/jhips/algorithm/HealpixMapByte.java:253-268 | storing one more degraded value extends the degraded prefix |
| HealpixMapByte.UpgradedAll | src/io/github/malapert/jhips/algorithm/HealpixMapByte.java:223-232 | once every coarse pixel is done, every fine pixel holds its parent's value |
| HealpixMapByte.FillRow | src/io/github/malapert/jhips/algorithm/HealpixMapByte.java:227-230 | the pixels of one row of the block get the value and every other pixel keeps its own |
| HealpixMapByte.FillRect | src/io/github/malapert/jhips/algorithm/HealpixMapByte.java:226-231 | the pixels of the block get the value and every other pixel keeps its own |
| HealpixMapByte.UpgradeInto | src/io/github/malapert/jhips/algorithm/HealpixMapByte.java:223-232 | every fine pixel holds the value of its coarse parent |
| HealpixMapByte.HealpixMapByte.Default | src/io/github/malapert/jhips/algorithm/HealpixMapByte.java:36-38 | a NESTED map at nside 1, zero-filled |
| HealpixMapByte.HealpixMapByte.constructor | src/io/github/malapert/jhips/algorithm/HealpixMapByte.java:46-50 | the given nside and scheme and a fresh zero-filled array, one byte per pixel |
| HealpixMapByte.HealpixMapByte.FromData | src/io/github/malapert/jhips/algorithm/HealpixMapByte.java:60-64 | the given array is the map, at the nside npix2Nside gives for its length |
| HealpixMapByte.HealpixMapByte.SetNside | src/io/github/malapert/jhips/algorithm/HealpixMapByte.java:73-79 | the same nside keeps the data; a new one that passes the corrected resolution check `Admissible` reallocates a zero-filled array; one that fails it throws (ok false) with the library's nside already set and the old data kept |
| HealpixMapByte.HealpixMapByte.SetNsideAndScheme | src/io/github/malapert/jhips/algorithm/HealpixMapByte.java:89-94 | the nside and scheme are set and the data is reallocated zero-filled, unless the corrected resolution check `Admissible` throws |
| HealpixMapByte.HealpixMapByte.SetDataAndScheme | src/io/github/malapert/jhips/algorithm/HealpixMapByte.java:103-107 | the given array is the map, at the nside its length gives, with no resolution check |
| HealpixMapByte.HealpixMapByte.Fill | src/io/github/malapert/jhips/algorithm/HealpixMapByte.java:114-116 | every pixel holds the value |
| HealpixMapByte.HealpixMapByte.GetPixel | src/io/github/malapert/jhips/algorithm/HealpixMapByte.java:148-160 | the stored byte widened to a float |
| HealpixMapByte.HealpixMapByte.SetPixel | src/io/github/malapert/jhips/algorithm/HealpixMapByte.java:168-180 | that pixel holds the value and every other pixel keeps its own |
| HealpixMapByte.HealpixMapByte.SwapScheme | src/io/github/malapert/jhips/algorithm/HealpixMapByte.java:123-140 | allowed exactly for orders 0 to the maximum; then the scheme flips and each pixel holds the original value at its renumbered index, the contents staying a permutation of the original |
| HealpixMapByte.HealpixMapByte.RotateCycle | src/io/github/malapert/jhips/algorithm/HealpixMapByte.java:127-137 | one cycle is rotated in place and the contents stay a permutation of the original |
| HealpixMapByte.HealpixMapByte.ImportNograde | src/io/github/malapert/jhips/algorithm/HealpixMapByte.java:197-208 | allowed exactly for equal nsides; the same scheme copies the data (the identity when the map imports itself), the other scheme renumbers it |
| HealpixMapByte.HealpixMapByte.ImportUpgrade | src/io/github/malapert/jhips/algorithm/HealpixMapByte.java:217-233 | allowed exactly for a larger nside that is a multiple of the original's; then every pixel holds its coarse parent's value |
| HealpixMapByte.HealpixMapByte.ImportDegrade | src/io/github/malapert/jhips/algorithm/HealpixMapByte.java:245-269 | allowed exactly for a smaller nside that divides the original's; then every pixel holds the degraded value of its block |
| HealpixMapByte.HealpixMapByte.ImportGeneral | src/io/github/malapert/jhips/algorithm/HealpixMapByte.java:282-292 | picks nograde, upgrade or degrade by comparing the nsides, with each one's result |
| MastPds.LabelPathOfPng | src/io/github/malapert/jhips/metadata/MastPDSMetadata.java:128 | the label of "u.png" is "u.LBL" with every earlier "png" in u also replaced, and exactly "u.LBL" when u holds no "png" |
| MastPds.SkipComment | src/io/github/malapert/jhips/metadata/MastPDSMetadata.java:198-200 | a line opening with "/*" becomes empty and any other line is kept |
| MastPds.ParseValue | src/io/github/malapert/jhips/metadata/MastPDSMetadata.java:174-189 | a quoted value keeps no quote; a parenthesised list becomes items holding no parenthesis, quote or comma; anything else is kept as it is |
| MastPds.SplitAssignOfKeyValue | src/io/github/malapert/jhips/metadata/MastPDSMetadata.java:279 | splitting "key = value" on blanks around "=" gives exactly the key and the value |
| MastPds.Continue | src/io/github/malapert/jhips/metadata/MastPDSMetadata.java:281-289 | the continuation stops at the first line holding "=", which it does not consume, and every line before it has none |
| MastPds.ContinueFailsIffNoAssignment | src/io/github/malapert/jhips/metadata/MastPDSMetadata.java:281-289 | the continuation fails (the NullPointerException at end of file) exactly when no later line holds "=" |
| MastPds.KeywordAt | src/io/github/malapert/jhips/metadata/MastPDSMetadata.java:278-292 | a parsed keyword leaves the reader at a line that exists, the one holding the next "=" |
| MastPds.KeywordOfPlainLine | src/io/github/malapert/jhips/metadata/MastPDSMetadata.java:278-292 | "key = value" followed at once by an assignment line gives that key and value and consumes nothing more |
| MastPds.BlockAt | src/io/github/malapert/jhips/metadata/MastPDSMetadata.java:246-250 | a block that parses ends strictly after where it began and within the label |
| MastPds.BlockEntriesUnderNode | src/io/github/malapert/jhips/metadata/MastPDSMetadata.java:245-249 | every entry of a GROUP or OBJECT block is filed under that block's node |
| MastPds.BlockEndsAtTag | src/io/github/malapert/jhips/metadata/MastPDSMetadata.java:246 | a parsed block ends just after a line opening with its end tag |
| MastPds.GroupAt | src/io/github/malapert/jhips/metadata/MastPDSMetadata.java:243-268 | a GROUP or OBJECT that parses ends strictly after where it began and within the label |
| MastPds.LabelSkip | src/io/github/malapert/jhips/metadata/MastPDSMetadata.java:143-148 | an empty line, a comment or a line opening with END is passed over |
| MastPds.LabelBlock | src/io/github/malapert/jhips/metadata/MastPDSMetadata.java:149-152 | a GROUP or OBJECT line files its block's entries and parsing goes on after its end tag; a failing block fails the label |
| MastPds.LabelKeyword | src/io/github/malapert/jhips/metadata/MastPDSMetadata.java:153-156 | any other line files one keyword under the root, its value parsed, and parsing goes on at the continuation's end |
| MastPds.KeywordLineFiledAtRoot | src/io/github/malapert/jhips/metadata/MastPDSMetadata.java:153-156 | a plain "key = value" line followed by an assignment files exactly (key, parsed value) under the root |
| MastPds.KeywordWithoutFollowingAssignmentThrows | src/io/github/malapert/jhips/metadata/MastPDSMetadata.java:153-156 | a keyword line with no "=" on any later line makes the whole label fail |
| MastPds.LabelReader.constructor | src/io/github/malapert/jhips/metadata/MastPDSMetadata.java:140 | the reader starts at the first line with the mark there |
| MastPds.LabelReader.ReadLine | src/io/github/malapert/jhips/metadata/MastPDSMetadata.java:142 | the next line and one step further, or null at the end without moving |
| MastPds.LabelReader.Mark | src/io/github/malapert/jhips/metadata/MastPDSMetadata.java:280 | the mark is the current position |
| MastPds.LabelReader.Reset | src/io/github/malapert/jhips/metadata/MastPDSMetadata.java:290 | the position goes back to the mark |
| MastPds.ParseKeyword | src/io/github/malapert/jhips/metadata/MastPDSMetadata.java:278-292 | succeeds exactly when the keyword parses from the reader's position, and leaves the reader where the parse ends |
| MastPds.ReadBlockLine | src/io/github/malapert/jhips/metadata/MastPDSMetadata.java:246-249 | one turn of the block loop: the end tag closes the block, a keyword adds one entry, a failure fails the whole block |
| MastPds.LastIndex | src/io/github/malapert/jhips/metadata/MastPDSMetadata.java:299 | the last entry filed as the key under the node, or −1 when there is none |
| MastPds.Lookup | src/io/github/malapert/jhips/metadata/MastPDSMetadata.java:299-390 | getLastLeaf: no value exactly when nothing is filed as the key under the node, and otherwise the value of the LAST such entry |
| MastPds.LookupAfterAdd | src/io/github/malapert/jhips/metadata/MastPDSMetadata.java:155-249 | filing an entry makes it the answer for its key and node and changes no other answer |
| MastPds.AsText | src/io/github/malapert/jhips/metadata/MastPDSMetadata.java:315-390 | the (String) cast: a missing value is null, a text is itself, and a list fails (ClassCastException) |
| MastPds.RequiredInt | src/io/github/malapert/jhips/metadata/MastPDSMetadata.java:356 | Integer.parseInt of a value that must be present: fails on null or on a malformed number |
| MastPds.OptionalInt | src/io/github/malapert/jhips/metadata/MastPDSMetadata.java:334-335 | an absent value gives 0; a present one is parsed, less the offset, and fails when malformed |
| MastPds.RequiredReal | src/io/github/malapert/jhips/metadata/MastPDSMetadata.java:317-318 | Double.valueOf of a value that must be present: fails on null or a malformed number |
| MastPds.DetectorSize | src/io/github/malapert/jhips/metadata/MastPDSMetadata.java:352-357 | (MSL:DETECTOR_SAMPLES, DETECTOR_LINES) of INSTRUMENT_STATE_PARMS, both required |
| MastPds.Fov | src/io/github/malapert/jhips/metadata/MastPDSMetadata.java:313-320 | the horizontal and vertical field of view of INSTRUMENT_STATE_PARMS, in radians, both required |
| MastPds.FirstSample | src/io/github/malapert/jhips/metadata/MastPDSMetadata.java:367-374 | FIRST_LINE_SAMPLE and FIRST_LINE of IMAGE_REQUEST_PARMS less one, each 0 when absent |
| MastPds.FirstSampleIsZeroBased | src/io/github/malapert/jhips/metadata/MastPDSMetadata.java:367-374 | the first sample is the one-based value less one, and (0, 0) for a label without them |
| MastPds.SubImage | src/io/github/malapert/jhips/metadata/MastPDSMetadata.java:330-337 | LINE_SAMPLES and LINES of IMAGE_REQUEST_PARMS, each 0 when absent |
| MastPds.HorizontalCoordinates | src/io/github/malapert/jhips/metadata/MastPDSMetadata.java:297-303 | the first two ARTICULATION_DEVICE_ANGLE items without " <rad>", the elevation less π/2; fails when the value is missing, not a list, shorter than two, or not a number |
| MastPds.InstrumentId | src/io/github/malapert/jhips/metadata/MastPDSMetadata.java:389-391 | null exactly when no INSTRUMENT_ID is filed under the root; a failure (the cast exception) exactly when the last one filed is a list; otherwise the text of the last one filed |
| MastPds.MastPdsMetadata.constructor | src/io/github/malapert/jhips/metadata/MastPDSMetadata.java:125-130 | the label lines and the number parser are kept and nothing is filed yet |
| MastPds.MastPdsMetadata.Init | src/io/github/malapert/jhips/metadata/MastPDSMetadata.java:139-164 | succeeds exactly when the whole label parses and the six values can be computed from its entries; the entries are the label's, and the fields are their description |
| MastPds.MastPdsMetadata.ReadLabel | src/io/github/malapert/jhips/metadata/MastPDSMetadata.java:140-157 | the reading loop succeeds exactly when the label parses, and files its entries in order |
| MastPds.MastPdsMetadata.ReadLabelLine | src/io/github/malapert/jhips/metadata/MastPDSMetadata.java:142-156 | one turn of the reading loop: end of file, an exception exactly when the rest of the label fails, or the entries of one line or block |
| MastPds.MastPdsMetadata.ParseBlock | src/io/github/malapert/jhips/metadata/MastPDSMetadata.java:243-268 | parseGroup and parseObject: succeed exactly when the block parses, file its entries and leave the reader after its end tag |
| MastPds.MastPdsMetadata.Compute | src/io/github/malapert/jhips/metadata/MastPDSMetadata.java:158-163 | the six computations succeed exactly when the entries describe an image, and then the fields hold that description |
| MastPds.MastPdsMetadata.ComputeDetectorSize | src/io/github/malapert/jhips/metadata/MastPDSMetadata.java:352-357 | sets the detector size when the entries give one, and changes no other field |
| MastPds.MastPdsMetadata.ComputeFov | src/io/github/malapert/jhips/metadata/MastPDSMetadata.java:313-320 | sets the field of view when the entries give one, and changes no other field |
| MastPds.MastPdsMetadata.ComputeFirstSample | src/io/github/malapert/jhips/metadata/MastPDSMetadata.java:367-374 | sets the first sample when the entries give one, and changes no other field |
| MastPds.MastPdsMetadata.ComputeHorizontalCoordinates | src/io/github/malapert/jhips/metadata/MastPDSMetadata.java:297-303 | sets the camera direction when the entries give one, and changes no other field |
| MastPds.MastPdsMetadata.ComputeInstrumentId | src/io/github/malapert/jhips/metadata/MastPDSMetadata.java:389-391 | sets the instrument id when the entries give one, and changes no other field |
| MastPds.MastPdsMetadata.ComputeSubImage | src/io/github/malapert/jhips/metadata/MastPDSMetadata.java:330-337 | sets the sub-image size when the entries give one, and changes no other field |
| MastPds.MastPdsMetadata.SetSubImageSize | src/io/github/malapert/jhips/metadata/MastPDSMetadata.java:340-342 | the sub-image size is the one given and nothing else changes |
| Imaging.OpaqueColor | src/io/github/malapert/jhips/algorithm/RGBGeneration.java:261-263 | `new Color(rgb)` takes red, green and blue from bits 16-23, 8-15 and 0-7 of the packed int and is always opaque |
| Imaging.Packed | src/io/github/malapert/jhips/algorithm/RGBGeneration.java:265 | `getRGB()` of a colour is a signed 32-bit int |
| Imaging.UnpackPacked | src/io/github/malapert/jhips/algorithm/RGBGeneration.java:264-265 | unpacking a packed colour gives back its alpha, red, green and blue |
| Imaging.Raster.RgbAt | src/io/github/malapert/jhips/algorithm/RGBGeneration.java:261 | `getRGB(x, y)` returns a pixel exactly when (x, y) lies in the raster, and throws otherwise |
| Imaging.Raster.ColorAt | src/io/github/malapert/jhips/algorithm/RGBGeneration.java:261 | the colour of a pixel exists exactly inside the raster and is opaque |
| GhMarsHips.ValueText | src/io/github/malapert/jhips/MarsHips.java:116 | `split("= ")[1]` exists exactly when the split gives at least two parts |
| GhMarsHips.AngleValue | src/io/github/malapert/jhips/MarsHips.java:116-133 | an angle is read exactly when there is a value and it parses as a double; converting the stored radians back to degrees gives the label's value |
| GhMarsHips.CountValue | src/io/github/malapert/jhips/MarsHips.java:124-127 | a count is read exactly when there is a value and it parses as an int, and it lies in the int range |
| GhMarsHips.RadiansRoundTrip | src/io/github/malapert/jhips/MarsHips.java:116 | toDegrees undoes toRadians |
| GhMarsHips.TrimLines | src/io/github/malapert/jhips/MarsHips.java:114 | every label line is trimmed before the if/else chain looks at it, one for one |
| GhMarsHips.ScanAsWritten | src/io/github/malapert/jhips/MarsHips.java:113-139 | the loop as written (its two tests joined by a logical or) never ends by the JHIPSException; it returns only with all six values counted, and it crashes on the end-of-file null whenever fewer have been counted |
| GhMarsHips.ScanIntended | src/io/github/malapert/jhips/MarsHips.java:113-139 | the loop that stops at the end of the file or at six values: it returns exactly when six values are counted and otherwise rejects the label |
| GhMarsHips.EmptyLabelCrashes | src/io/github/malapert/jhips/MarsHips.java:113-114 | on an empty label the loop as written dereferences the null line, where the intended loop raises the incomplete-label exception |
| GhMarsHips.NothingCountedAfterSix | src/io/github/malapert/jhips/MarsHips.java:113 | once six values are counted, a read that still returns normally has not changed any of them |
| GhMarsHips.AsWrittenReadAgreesWithIntended | src/io/github/malapert/jhips/MarsHips.java:113-139 | whenever the loop as written returns, the intended loop returns too, with the same six values |
| GhMarsHips.UnmentionedElevationKept | src/io/github/malapert/jhips/MarsHips.java:118-120 | a label that never names the elevation leaves the previous image's elevation in place |
| GhMarsHips.RequestSizeOnlyInRequestGroup | src/io/github/malapert/jhips/MarsHips.java:123-128 | outside an IMAGE_REQUEST_PARMS group the image request is never changed; inside it a LINES line records the height and counts one value |
| GhMarsHips.GroupLineSetsFlag | src/io/github/malapert/jhips/MarsHips.java:121-122 | a GROUP line sets the group flag to whether it names IMAGE_REQUEST_PARMS; no other line changes the flag, so it outlives END_GROUP |
| GhMarsHips.MarsHips.constructor | src/io/github/malapert/jhips/MarsHips.java:45-62 | the three arrays start fresh, the angles unknown (NaN) and the request (0, 0) |
| GhMarsHips.MarsHips.ReadLine | src/io/github/malapert/jhips/MarsHips.java:114-135 | one loop body: the arrays then hold exactly the state of the if/else chain's step, and a malformed line changes none of them |
| GhMarsHips.MarsHips.ReadMetadata | src/io/github/malapert/jhips/MarsHips.java:104-140 | without a label file nothing changes; otherwise the outcome is the loop as written run over the trimmed label from the values already held, and the arrays hold the outcome's values |
| RgbGeneration.ReplaceDirectory | src/io/github/malapert/jhips/algorithm/RGBGeneration.java:246-251 | replacing a directory name that occurs once in a path replaces just that path component |
| RgbGeneration.TilePaths | src/io/github/malapert/jhips/algorithm/RGBGeneration.java:246-270 | for a tile under r.fitsHiPS the G, B and colour tiles are the same path under g.fitsHiPS, b.fitsHiPS and color, and the four paths are distinct |
| RgbGeneration.PowTwo | src/io/github/malapert/jhips/algorithm/RGBGeneration.java:86 | Math.pow(2, order) is positive, also for a negative order |
| RgbGeneration.NbPixels | src/io/github/malapert/jhips/algorithm/RGBGeneration.java:86 | the tile count, cast to long, lies in the long range |
| RgbGeneration.NbPixelsIsHealpixCount | src/io/github/malapert/jhips/algorithm/RGBGeneration.java:86 | for orders 0 to 29 the count is the HEALPix pixel count 12·nside² of nside 2^order |
| RgbGeneration.CountAsReal | src/io/github/malapert/jhips/algorithm/RGBGeneration.java:86 | the double product 2^order · 2^order · 12 equals the integer count |
| RgbGeneration.NbPixelsSaturates | src/io/github/malapert/jhips/algorithm/RGBGeneration.java:86 | from order 30 on, the cast to long saturates at Long.MAX_VALUE |
| RgbGeneration.NbPixelsNegativeOrder | src/io/github/malapert/jhips/algorithm/RGBGeneration.java:86 | a negative order gives 3 for order -1 and 0 below it |
| RgbGeneration.OrderOf | src/io/github/malapert/jhips/algorithm/RGBGeneration.java:101-106 | the order is hips_order parsed as an int; a missing key or a malformed value is the exception |
| RgbGeneration.MergedChannels | src/io/github/malapert/jhips/algorithm/RGBGeneration.java:261-265 | the merged pixel has the red of the R tile, the green of the G tile, the blue of the B tile and full opacity |
| RgbGeneration.MergeTiles | src/io/github/malapert/jhips/algorithm/RGBGeneration.java:256-267 | a new buffer of the R tile's size, each pixel (j, i) holding the merge of the three tiles' pixels there |
| RgbGeneration.Rows | src/io/github/malapert/jhips/algorithm/RGBGeneration.java:256-267 | the buffer read back row by row holds the same pixels |
| RgbGeneration.ColorImage | src/io/github/malapert/jhips/algorithm/RGBGeneration.java:241-272 | the colour tile has the R tile's size and the merged pixel at every position |
| RgbGeneration.ColorImageChannels | src/io/github/malapert/jhips/algorithm/RGBGeneration.java:261-265 | reading the colour tile back gives R's red, G's green and B's blue, opaque |
| RgbGeneration.PngCount | src/io/github/malapert/jhips/algorithm/RGBGeneration.java:218-219 | the number of PNG names is at most the number of names visited |
| RgbGeneration.ProcessFile.constructor | src/io/github/malapert/jhips/algorithm/RGBGeneration.java:204-214 | the visitor starts with a zero counter and nothing written |
| RgbGeneration.ProcessFile.VisitFile | src/io/github/malapert/jhips/algorithm/RGBGeneration.java:217-224 | a name ending in "png" increments the counter and writes its colour tile (or throws when a tile is missing or too small); any other name changes nothing; the counter stays the number of PNG names visited |
| RgbGeneration.ProcessFile.CreateRgb | src/io/github/malapert/jhips/algorithm/RGBGeneration.java:241-272 | the colour tile of the three readable tiles is written at the colour path; otherwise the exception, with nothing written |
| RgbGeneration.KeysDistinct | src/io/github/malapert/jhips/algorithm/RGBGeneration.java:119-195 | neither format key nor the creation date is among the provider keys copied unconditionally |
| RgbGeneration.Restrict | src/io/github/malapert/jhips/algorithm/RGBGeneration.java:121-195 | the provider's entries whose key is selected, with their values |
| RgbGeneration.SetIfPresentGrows | src/io/github/malapert/jhips/algorithm/RGBGeneration.java:121-123 | one `if (getter != null) setProperty` adds one key to the set of provider keys copied |
| RgbGeneration.CopyNext | src/io/github/malapert/jhips/algorithm/RGBGeneration.java:121-195 | the copy of the n-th provider key extends the copied prefix by one key |
| RgbGeneration.CopyCreationDate | src/io/github/malapert/jhips/algorithm/RGBGeneration.java:154-156 | storing a known creation date adds it to the copied keys |
| RgbGeneration.CopiedKeysOnEitherPath | src/io/github/malapert/jhips/algorithm/RGBGeneration.java:121-195 | after the last copy the keys copied are the provider keys, plus the creation date exactly when there is a release date |
| RgbGeneration.AllKeys | src/io/github/malapert/jhips/algorithm/RGBGeneration.java:121-195 | the 24 copies of createMetadata name exactly the provider keys |
| RgbGeneration.RestrictAbsent | src/io/github/malapert/jhips/algorithm/RGBGeneration.java:121-123 | a key the provider does not have adds nothing |
| RgbGeneration.WithPng | src/io/github/malapert/jhips/algorithm/RGBGeneration.java:119-120 | the two format settings amount to overriding the source with the PNG entries |
| RgbGeneration.CopyProperty | src/io/github/malapert/jhips/algorithm/RGBGeneration.java:121-195 | one guarded copy: the properties gain the n-th provider key when the provider has it |
| RgbGeneration.CopyBeforeCreationDate | src/io/github/malapert/jhips/algorithm/RGBGeneration.java:121-153 | the first eleven guarded copies copy exactly the first eleven provider keys present |
| RgbGeneration.CopyFromReleaseDate | src/io/github/malapert/jhips/algorithm/RGBGeneration.java:157-195 | the remaining guarded copies copy the rest of the provider keys present |
| RgbGeneration.CreateMetadata | src/io/github/malapert/jhips/algorithm/RGBGeneration.java:116-197 | the copy throws exactly when a release date is known and the creation date is null; otherwise the properties are the R tree's, the PNG format, and the provider's non-null values for the keys copied |
| RgbGeneration.ExpectedMetadataContents | src/io/github/malapert/jhips/algorithm/RGBGeneration.java:116-197 | the result names PNG for both format keys, carries every non-null provider value, keeps the source's other entries, and holds no other key |
| RgbGeneration.CreationDateIgnoredWithoutReleaseDate | src/io/github/malapert/jhips/algorithm/RGBGeneration.java:154-156 | without a release date the source's creation date is kept and the provider's is ignored |
| RgbGeneration.CreationDateCounterexamples | src/io/github/malapert/jhips/algorithm/RGBGeneration.java:154-156 | a provider with a release date but no creation date makes the copy throw; one with a creation date but no release date loses it |
| RgbGeneration.IntendedMetadata | src/io/github/malapert/jhips/algorithm/RGBGeneration.java:154-156 | the copy guarded by the creation date itself: every non-null provider value for the provider keys and the creation date is stored, and nothing outside the source, PNG and the provider |
| RgbGeneration.IntendedMetadataContents | src/io/github/malapert/jhips/algorithm/RGBGeneration.java:116-197 | the intended properties name PNG for both format keys and keep the source's other entries |
| RgbGeneration.IntendedMetadataAgrees | src/io/github/malapert/jhips/algorithm/RGBGeneration.java:154-159 | when both dates are known or both null, the intended copy and createMetadata agree |
| RgbGeneration.CopyMetadata | src/fr/malapert/jhips/algorithm/RGBGeneration.java:71-78 | the colour tree's properties are the R tree's keys plus the format keys and the creation date; both formats are PNG, the creation date is the current time, and every other entry is the source's |

## Left out

- File and stream I/O (ImageIO, `Properties` load/store, `Files.walkFileTree`, directory creation, `FileReader` with mark/reset): a file is an entry of a map from paths to its lines, its decoded image or its properties; a missing entry is the FileNotFoundException.
- Writing FITS files (FITSUtil is not part of this model), running HipsGen (the HIPSGeneration classes are not part of this model), logging and the `Utils.monitoringFile` progress output: they return nothing the model uses.
- Drivers and command-line mains: `main`, `processDirectory`, `addFile`, `readJpgImage`, `generateHips` and MastPanorama.
- Library numerics: JWcs `wcs2pix` and the WCS construction `createWcs`, the spatial-index builders `createIndex` and their `isIntersecting`, HEALPix `pix2ang`, `nest2ring`, `ring2nest`, `xyf2pix`, `pix2xyf`, `swap_cycle`, `HealpixUtils.approx`, and `Double.valueOf` are function parameters. The model states what it assumes of them (bijections, face laws) as preconditions, not their definitions.
- The TAN gnomonic formula and its angular separation: trigonometric floating-point work, passed in as a `TanGeometry` value; only the out-of-range guard of unProjectTan is modelled.
- `correctedLensDistortion`: floating-point polynomials, and disabled in getRGB.
- `getScale()` of the collections and descriptors: the diagonal via `Math.sqrt` is floating-point work; the model keeps the two-component scale it is computed from.
- `isInside` of the three descriptors: it only forwards to the spatial index's `isIntersecting`, which is a parameter; the collections call that parameter directly.
- The getters `getData`, `getImage`, `getFov`, `getWidth`/`getHeight` of the gh MetadataFile and `getWidth`/`getHeight` of the fr legacy MetadataFile: each returns a field (in the gh MetadataFile the image request's sides, as its constructor and SetImageRequest state; in the legacy one the image's own sides, which Position, Removal and GetRgb use).
- Integer.parseInt is modelled on the ASCII digits 0-9 only (`ParseInt`); the other Unicode decimal digits that `Character.digit` accepts are not.
- GhMetadataFileCollection.MetadataFileCollection.AddMetadataFile: each descriptor's scale is a fixed function `scaleOf` of the descriptor, assumed defined and unchanged once the descriptor is in the collection. In Java a later `setImageRequest` or `init` reassigns it, leaving `getPixelScale` stale, and a descriptor whose scale is still null (before `init`) makes the lowering throw a NullPointerException.
- GhMetadataFileCollection.MetadataFileCollection.SetMetadataFiles: the list is a value owned by the collection; Java stores and hands out the caller's own List, so an outside edit of it is not reflected in the model and leaves Java's scale stale. The fixed-scale assumption of AddMetadataFile applies too.
- GhMetadataFileCollection.MetadataFileCollection.ComputeHighestResolution: rests on the fixed, defined descriptor scale of AddMetadataFile; a null scale, where Java throws, is not modelled.
- FrMetadataFileCollection.MetadataFileCollection.AddMetadataFile: each descriptor's scale is a fixed function `scaleOf` of the descriptor, assumed defined and unchanged once the descriptor is in the collection. In Java a later `setImageRequest` reassigns it, leaving `getPixelScale` stale.
- FrMetadataFileCollection.MetadataFileCollection.SetMetadataFiles: the list is a value owned by the collection; Java stores and hands out the caller's own List, so an outside edit of it is not reflected in the model and leaves Java's scale stale. The fixed-scale assumption of AddMetadataFile applies too.
- FrMetadataFileCollection.MetadataFileCollection.ComputeHighestResolution: rests on the fixed, defined descriptor scale of AddMetadataFile; an infinite or NaN descriptor scale (a zero request side) is not modelled.
- IEEE doubles: rounding, NaN and infinities are not modelled (exact reals). A division by a zero image or request side, where Java yields an infinite or NaN scale, gives no scale (None) and the queries that would use it require a usable scale.
- Overflow of the collection counters, of `ProcessFile.counter` and of index arithmetic inside HealpixMapByte's loops: the counts are unbounded integers.
- The `Calendar` date of the fr copyMetadata is a parameter (`now`).
- The PDS label tree of MastPDSMetadata (a `Tree` class not part of this model) is a sequence of (group, key, value) entries; the 2048-character read-ahead limit of `mark` is not modelled.
- The constant metadata providers (PlanisphereMetadataProvider, Mars_Sol_1463) and the provider interfaces: the provider is a map from property keys to non-null values.
- HealpixMapByte.HealpixMapByte.constructor: the "resolution too high" exception is a precondition, and that precondition is the corrected check `Admissible` (see Findings), which also excludes a resolution whose pixel count does not fit an int, where Java allocates a wrapped-length array or throws NegativeArraySizeException. The library's own nside validation (`LibraryNside`) is a precondition of every member that sets a resolution.
- HealpixMapByte.HealpixMapByte.Default: the "resolution too high" exception is the precondition `Admissible(1, maxOrder)`; twelve pixels always fit an int, so at nside 1 this is the written check.
- HealpixMapByte.HealpixMapByte.FromData: the "resolution too high" exception is the precondition `Admissible`; for an array the library accepts, its pixel count is an int, so this is the written check.
- HealpixMapByte.HealpixMapByte.SetNside: `ok` follows the corrected check `Admissible`, not only the written `nside <= 1 << ORDER`: a new resolution whose pixel count does not fit an int, which Java accepts and then allocates wrongly (see Findings), is refused here with the old data kept.
- HealpixMapByte.HealpixMapByte.SetNsideAndScheme: `ok` follows the corrected check `Admissible` in the same way as SetNside.
- HealpixMapByte.HealpixMapByte.ImportNograde: a map sharing its array with orig but numbered in the other scheme is excluded; Java's renumbering loop then reads pixels it has already overwritten.
- HealpixMapByte.HealpixMapByte.ImportGeneral: the same exclusion as ImportNograde, since it delegates to it for equal nsides.
- MastPds.FirstSample: a label without an IMAGE_REQUEST_PARMS group reads as a group without those keys, giving (0, 0); what the `Tree` class's getTree returns for a missing group is not part of this model.
- MastPds.SubImage: a missing IMAGE_REQUEST_PARMS group is read as for FirstSample, giving (0, 0).
- MastPds.FirstSampleIsZeroBased: its (0, 0) for a label with no entries rests on the same reading of a missing group.
- MastPds.MastPdsMetadata.Init: inherits that reading through FirstSample and SubImage; for the other groups a missing group fails as a missing key does.
- HealpixMapByte.HealpixMapByte.GetPixel: an index outside the map (the ArrayIndexOutOfBoundsException) is excluded by a precondition, and the int/long overloads are one member.
- HealpixMapByte.HealpixMapByte.SetPixel: an index outside the map is excluded by a precondition, and the int/long overloads are one member.
- FrMetadataFile.MetadataFile.GetRgb: requires `UsableScale`, under both projections a defined scale (no zero request side) and, under CAR, both scale components non-zero. The first excludes the infinite or NaN Java scale of a zero request side (see the IEEE line above); the second excludes a zero field of view under CAR, where Java's unProject divides the longitude and latitude differences by a zero scale and casts the resulting infinity or NaN to int.
- FrMetadataFile.MetadataFile.Position: the same `UsableScale` precondition as GetRgb, with the same two exclusions.
- FrMetadataFile.MetadataFile.GetRgbInPixel: the same `UsableScale` precondition as GetRgb, with the same two exclusions.
- FrLegacyMetadataFile.MetadataFile.GetRgb: requires `UsableScale`, under both projections a defined scale (no zero side once the request's pixels are removed) and, under CAR, both scale components non-zero, which excludes a zero field of view under CAR as for FrMetadataFile.MetadataFile.GetRgb.
- FrLegacyMetadataFile.MetadataFile.Position: the same `UsableScale` precondition as its GetRgb, with the same two exclusions.
- FrJhips.Jhips.CreateHealpixVector: the byte maps of the fr generation are plain arrays (its own HealpixMapByte class is not part of this model), and the three FITS files are named, not written.
- FrMarsHips: the superclass constructor chain of the fr MarsHips (its JHIPS(int, double, double) constructor) is not part of this model; only the camera centre and the pixel lookup are.
- MastPds.MastPdsMetadata.constructor: the constructor's call to init is modelled as the constructor followed by Init.

## Findings

| source | as written | input that shows it | evidently intended | confidence | as-written member | corrected member |
|---|---|---|---|---|---|---|
| src/io/github/malapert/jhips/algorithm/HealpixMapByte.java:48-49 | the only check is `nside <= 1 << JHIPS.ORDER`, then `new byte[(int) getNpix()]` narrows a long pixel count to int | nside 2^15 with a maximum order of 15: the check passes and the array has length 0; nside 2^14 gives a negative length | also refuse a resolution whose 12·nside² pixels do not fit an int, so the array has one byte per pixel | not executed | HealpixMapByte.AllocationWrapsAsWritten | HealpixMapByte.Allocate |
| src/io/github/malapert/jhips/MarsHips.java:113-139 | the loop continues while a line was read OR fewer than six values are counted | an empty label, or one with fewer than six values: the body runs on the null end-of-file line and throws NullPointerException; the JHIPSException at 137-139 is unreachable | stop at the end of the file or after six values, then report an incomplete label | not executed | GhMarsHips.EmptyLabelCrashes | GhMarsHips.ScanIntended |
| src/io/github/malapert/jhips/algorithm/RGBGeneration.java:154-156 | the creation date is stored when the RELEASE date is non-null | a provider with a release date and no creation date: `setProperty` of null throws; a provider with only a creation date loses it | store the creation date when the creation date itself is non-null | not executed | RgbGeneration.CreationDateCounterexamples | RgbGeneration.IntendedMetadata |
