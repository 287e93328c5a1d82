# ChromiQ colour engine in Dafny

This project models the colour-analysis and palette engine of ChromiQ, a Java application that finds the dominant colours of a picture and lets a user curate a palette of at most ten colours. Each Java class of the engine becomes one Dafny module:

- `ColorModel` (`color_entry.dfy`): the colour value `ColorEntry`.
  - The class keeps the source's mutable fields and lazy caches; its setters and getters are methods.
  - Around it are the pure pieces: range validation, the `#RRGGBB` formatter and the hex parser with its `#RGB` shorthand, HSL, and the CIE76 Delta E distance.
- `ColorExtractor` (`color_extractor.dfy`): the histogram pass over the ARGB pixels.
  - Pixels with alpha below 128 are transparent; the rest are counted per 24-bit RGB key.
  - Each entry gets its share of the visible pixels, and the list is ranked by count.
  - `ExtractColors` keeps the source's loop over the pixels and its map. It is proved equal to the specification function `Histogram`, and the lemmas about `Histogram` carry the properties.
- `ColorQuantizer` (`color_quantizer.dfy`): the greedy quantiser.
  - Each entry joins the first group whose representative is within the threshold, or founds a new group.
  - Work stops at 500 groups, and the groups are ranked by total count.
  - `ColorGroup` is a class, and `QuantizeColors` mutates the groups in place. It is proved equal to the value-level function `Quantize`.
- `ColorClusterer` (`color_clusterer.dfy`): k-means with k-means++ seeding.
  - `ColorCluster` is a class. Every loop of `clusterColors`, `initializeClusters`, `findFarthestColor`, `runKMeansIterations` and `findNearestCluster` is a method over the cluster objects.
  - Those methods are proved against value-level functions (`Seeds`, `Iterate`, `Clustered`), about which the seeding, conservation and iteration-bound lemmas are stated.
- `DominantColorExtractor` (`dominant_color_extractor.dfy`): the orchestrator. It validates `maxColors`, then either passes the histogram through or clusters it, and ranks the result by percentage.
- `RegionalColorExtractor` (`regional_color_extractor.dfy`): the click-point picker. It covers the input checks, the clamped window around the click, the exact-pixel read and the representative-colour rule.
- `PaletteManager` (`palette_manager.dfy`): the palette, a class whose list is changed in place by add, remove and replace. Each method is proved equal to a function on values, and those functions are proved to keep a palette "curated": at most ten entries, no two similar.
- Helpers:
  - `Wrappers`: `Option`, `Result` and `Outcome`.
  - `Sorting`: the stable descending sort `Collections.sort` performs, with sums and multisets over lists.
  - `Raster`: a decoded picture as rows of 32-bit ARGB words.
  - `Weighting`: the count-weighted LAB mean used by both the quantiser and the clusterer.

Java exceptions become error values (`Result`, `Outcome`, and the error datatypes of each module). Doubles are modelled as exact reals.

The floating-point colour conversions are parameters bundled in a `ColorSpace` value:
- `toLab` stands for `ColorEntry.getLAB`;
- `fromLab` stands for `ColorEntry.fromLAB`, which the engine calls but which is not part of this model;
- `sqrt` stands for `Math.sqrt`.

Everything proved holds for every choice of these functions. The `Random(42)` draws of the k-means++ seeding are a parameter `draws: nat -> real`: draw `i - 1` is used when seed `i` is chosen.

The regional picker calls `quantizeColors(regionColors, 1)` (RegionalColorExtractor.java:268). The `1` reads like a group count, but the parameter of `quantizeColors(List, double)` is a Delta E threshold, so the call quantizes with threshold `1.0`. The model does the same and then takes the heaviest group (`RegionalColorExtractor.RepresentativeColor`).

The class comment of `PaletteManager` (PaletteManager.java:22) says the palette prevents duplicate colours. The code enforces that only in `addPickedColor` and `replaceColor`. The constructor copies the dominant colours unchecked, and `PaletteManager.ConstructorSkipsChecks` exhibits a palette that holds two similar entries.

## Model

| member | source | states |
|---|---|---|
| Sorting.SortDesc | src/main/java/io/github/saniamb/chromiq/core/color/ColorExtractor.java:136 | Collections.sort as a stable insertion sort: the result is a permutation of the list (same length, same multiset), ranked by the key, largest first |
| Sorting.InsertKeepsSorted | src/main/java/io/github/saniamb/chromiq/core/color/ColorExtractor.java:136 | inserting one element into a ranked list keeps it ranked |
| Sorting.InsertPosition | src/main/java/io/github/saniamb/chromiq/core/color/ColorExtractor.java:136 | stability: the element goes after every element whose key is at least its own, and before the first one with a smaller key |
| Sorting.SortSortedIsIdentity | src/main/java/io/github/saniamb/chromiq/core/color/DominantColorExtractor.java:141 | sorting a list that is already ranked returns it unchanged |
| Sorting.SumSort | src/main/java/io/github/saniamb/chromiq/core/color/ColorExtractor.java:136 | sorting changes no sum over the list (total counts and percentages survive the sort) |
| Sorting.UnionSort | src/main/java/io/github/saniamb/chromiq/core/color/ColorClusterer.java:173 | sorting keeps the combined multiset of members of all list elements |
| Raster.Pixels | src/main/java/io/github/saniamb/chromiq/core/color/ColorExtractor.java:94-98 | the bulk getRGB read with scansize width: the buffer holds RowStart(height, width) pixels and row y of the picture occupies the width words from RowStart(y, width) on |
| Raster.PixelsRowMajor | src/main/java/io/github/saniamb/chromiq/core/color/ColorExtractor.java:94-98 | the buffer holds width * height pixels and the pixel at (x, y) is at offset y * width + x |
| Raster.SubImage | src/main/java/io/github/saniamb/chromiq/core/color/RegionalColorExtractor.java:235-242 | getSubimage: the sub-picture has the requested size and its pixel (i, j) is the picture's pixel (x + i, y + j) |
| Raster.AlphaOf | src/main/java/io/github/saniamb/chromiq/core/color/ColorExtractor.java:107 | the alpha channel by unsigned shift and mask lies in 0..255 |
| Raster.RedOf | src/main/java/io/github/saniamb/chromiq/core/color/ColorExtractor.java:114 | the red channel lies in 0..255 |
| Raster.GreenOf | src/main/java/io/github/saniamb/chromiq/core/color/ColorExtractor.java:115 | the green channel lies in 0..255 |
| Raster.BlueOf | src/main/java/io/github/saniamb/chromiq/core/color/ColorExtractor.java:116 | the blue channel lies in 0..255 |
| ColorModel.ValidateRgb | src/main/java/io/github/saniamb/chromiq/core/color/models/ColorEntry.java:109-112 | passes exactly when all three components are in 0..255; otherwise it names the first bad component in red, green, blue order, with its value |
| ColorModel.ValidateAlpha | src/main/java/io/github/saniamb/chromiq/core/color/models/ColorEntry.java:126-130 | passes exactly when alpha is in [0.0, 1.0]; otherwise it reports the alpha |
| ColorModel.NewColor | src/main/java/io/github/saniamb/chromiq/core/color/models/ColorEntry.java:66-70 | the five-argument constructor succeeds exactly when RGB and alpha are valid, and then holds the arguments; an RGB error is reported before an alpha error |
| ColorModel.ColorEntry.Init | src/main/java/io/github/saniamb/chromiq/core/color/models/ColorEntry.java:66-70 | a new entry holds the given valid colour and has empty hex, HSL and LAB caches |
| ColorModel.ColorEntry.Of | src/main/java/io/github/saniamb/chromiq/core/color/models/ColorEntry.java:37-70 | the RGB constructors (the three- and four-argument forms pass alpha 1.0): a fresh entry holding the arguments exactly when they are valid, else the validation error |
| ColorModel.ColorEntry.FromHex | src/main/java/io/github/saniamb/chromiq/core/color/models/ColorEntry.java:78-93 | the hex constructors: a fresh entry exactly when the code parses to valid RGB; alpha stays at its 1.0 default; otherwise the parse or range error |
| ColorModel.ColorEntry.SetRgb | src/main/java/io/github/saniamb/chromiq/core/color/models/ColorEntry.java:109-121 | invalid components leave the object untouched; valid ones replace RGB, keep alpha and name, and clear all three caches |
| ColorModel.ColorEntry.SetAlpha | src/main/java/io/github/saniamb/chromiq/core/color/models/ColorEntry.java:126-130 | an alpha outside [0, 1] leaves the object untouched; otherwise only alpha changes |
| ColorModel.ColorEntry.SetHex | src/main/java/io/github/saniamb/chromiq/core/color/models/ColorEntry.java:151-154 | succeeds exactly when the code parses to valid RGB, then behaves as setRGB with those components; on failure nothing changes |
| ColorModel.ColorEntry.GetHex | src/main/java/io/github/saniamb/chromiq/core/color/models/ColorEntry.java:139-143 | returns the formatted code of the current RGB and leaves it in the cache |
| ColorModel.ColorEntry.GetHsl | src/main/java/io/github/saniamb/chromiq/core/color/models/ColorEntry.java:192-216 | returns the HSL of the current RGB and leaves it in the cache |
| ColorModel.ColorEntry.Equals | src/main/java/io/github/saniamb/chromiq/core/color/models/ColorEntry.java:265-270 | true exactly when RGB, alpha and name are all equal |
| ColorModel.SetRgbThenHex | src/main/java/io/github/saniamb/chromiq/core/color/models/ColorEntry.java:118-120 | a successful setRGB clears the hex cache, so a later getHex returns the code of the new RGB, never a stale one |
| ColorModel.DigitValue | src/main/java/io/github/saniamb/chromiq/core/color/models/ColorEntry.java:177-180 | a character is a hexadecimal digit exactly when it is 0-9, A-F or a-f, with value in 0..15 |
| ColorModel.ParseHexPair | src/main/java/io/github/saniamb/chromiq/core/color/models/ColorEntry.java:177-180 | Integer.parseInt of two characters in base 16: two digits, or a sign followed by one digit; the value lies in -15..255 |
| ColorModel.HexByte | src/main/java/io/github/saniamb/chromiq/core/color/models/ColorEntry.java:141 | a byte becomes two uppercase hex digits that parse back to it |
| ColorModel.FormatHex | src/main/java/io/github/saniamb/chromiq/core/color/models/ColorEntry.java:139-143 | '#' followed by six uppercase hex digits whose pairs parse back to red, green and blue |
| ColorModel.FormatParts | src/main/java/io/github/saniamb/chromiq/core/color/models/ColorEntry.java:141 | the code is '#' followed by the two-digit forms of red, green and blue, in that order |
| ColorModel.FormatIs | src/main/java/io/github/saniamb/chromiq/core/color/models/ColorEntry.java:139-143 | uniqueness: a canonical code whose three pairs parse to the colour's components is the colour's code |
| ColorModel.Trim | src/main/java/io/github/saniamb/chromiq/core/color/models/ColorEntry.java:162-165 | String.trim: the result is a slice of the input preceded and followed only by characters up to U+0020, it neither starts nor ends with one, and it is empty exactly when every character is one |
| ColorModel.ExpandShort | src/main/java/io/github/saniamb/chromiq/core/color/models/ColorEntry.java:169-172 | the three-character form with every character doubled |
| ColorModel.ParseDigits | src/main/java/io/github/saniamb/chromiq/core/color/models/ColorEntry.java:177-184 | six digits parse exactly when all three pairs parse, to the three pair values |
| ColorModel.ParseHexToRgb | src/main/java/io/github/saniamb/chromiq/core/color/models/ColorEntry.java:161-185 | null or blank gives the empty error; after trimming, dropping one '#' and expanding the short form, a length other than 6 gives the format error; bad digits give the value error; otherwise the three pair values |
| ColorModel.RgbFromHex | src/main/java/io/github/saniamb/chromiq/core/color/models/ColorEntry.java:151-153 | parsing followed by setRGB's range check: succeeds exactly when parsing does and every component is in 0..255 |
| ColorModel.HexRoundTrip | src/main/java/io/github/saniamb/chromiq/core/color/models/ColorEntry.java:139-154 | for every valid colour, parsing its formatted code gives the colour back |
| ColorModel.CanonicalHexRoundTrip | src/main/java/io/github/saniamb/chromiq/core/color/models/ColorEntry.java:139-154 | the other direction: every '#' plus six uppercase digits parses, and formatting the result gives the same string |
| ColorModel.HexPairCanonical | src/main/java/io/github/saniamb/chromiq/core/color/models/ColorEntry.java:177-180 | two uppercase digits parse to a byte whose two-digit form is the same pair |
| ColorModel.SameDigitsSameColor | src/main/java/io/github/saniamb/chromiq/core/color/models/ColorEntry.java:165-184 | the parse depends only on the digits left after trimming, dropping '#' and expanding the short form |
| ColorModel.ShortCodeDigits | src/main/java/io/github/saniamb/chromiq/core/color/models/ColorEntry.java:166-172 | '#' plus three non-blank characters leaves their doubled six-character form |
| ColorModel.LongCodeDigits | src/main/java/io/github/saniamb/chromiq/core/color/models/ColorEntry.java:166-174 | '#' plus six non-blank characters leaves exactly those six |
| ColorModel.ShorthandMeansDoubled | src/main/java/io/github/saniamb/chromiq/core/color/models/ColorEntry.java:169-172 | '#RGB' is accepted exactly when '#RRGGBB' is, and gives the same colour |
| ColorModel.FormatExampleLong | src/main/java/io/github/saniamb/chromiq/core/color/models/ColorEntry.java:141 | (171, 205, 239) formats as #ABCDEF |
| ColorModel.FormatExampleBlue | src/main/java/io/github/saniamb/chromiq/core/color/models/ColorEntry.java:141 | (0, 0, 255) formats as #0000FF |
| ColorModel.FormatExampleGreen | src/main/java/io/github/saniamb/chromiq/core/color/models/ColorEntry.java:141 | (0, 255, 0) formats as #00FF00 |
| ColorModel.HexExampleLong | src/main/java/io/github/saniamb/chromiq/core/color/models/ColorEntry.java:151-154 | setHex("#ABCDEF") gives 171, 205, 239 |
| ColorModel.HexExampleShort | src/main/java/io/github/saniamb/chromiq/core/color/models/ColorEntry.java:169-172 | "#00F" gives (0, 0, 255) |
| ColorModel.HexExampleBare | src/main/java/io/github/saniamb/chromiq/core/color/models/ColorEntry.java:162-166 | surrounding whitespace is trimmed and the '#' is optional |
| ColorModel.HexRejectsNull | src/main/java/io/github/saniamb/chromiq/core/color/models/ColorEntry.java:162-163 | a null code is rejected as null or empty |
| ColorModel.HexRejectsBlank | src/main/java/io/github/saniamb/chromiq/core/color/models/ColorEntry.java:162-163 | an all-blank code is rejected as null or empty |
| ColorModel.HexRejectsFourDigits | src/main/java/io/github/saniamb/chromiq/core/color/models/ColorEntry.java:174-175 | "#1234" is rejected for its length |
| ColorModel.HexRejectsDoubleHash | src/main/java/io/github/saniamb/chromiq/core/color/models/ColorEntry.java:166-175 | only one '#' is dropped, so "##FFF" is rejected for its length |
| ColorModel.HexRejectsDigits | src/main/java/io/github/saniamb/chromiq/core/color/models/ColorEntry.java:177-184 | "#GG0000" is rejected for its digits |
| ColorModel.HexAcceptsPlusSign | src/main/java/io/github/saniamb/chromiq/core/color/models/ColorEntry.java:177-181 | parseInt accepts a sign, so "+F+F+F" is the colour (15, 15, 15) |
| ColorModel.HexMinusSignCaughtByRange | src/main/java/io/github/saniamb/chromiq/core/color/models/ColorEntry.java:177-181 | "-F0000" parses to red -15, which setRGB then rejects as out of range |
| ColorModel.HslAchromatic | src/main/java/io/github/saniamb/chromiq/core/color/models/ColorEntry.java:203-214 | for r = g = b, hue and saturation are 0 and lightness is r / 255 * 100 |
| ColorModel.HslBounds | src/main/java/io/github/saniamb/chromiq/core/color/models/ColorEntry.java:195-214 | hue lies in [0, 360), saturation and lightness in [0, 100] |
| ColorModel.HueSectorRange | src/main/java/io/github/saniamb/chromiq/core/color/models/ColorEntry.java:208-211 | the hue sector before division by 6 lies in [0, 6) |
| ColorModel.SaturationRange | src/main/java/io/github/saniamb/chromiq/core/color/models/ColorEntry.java:207 | both saturation formulas stay in [0, 1] |
| ColorModel.SquaredLabDistance | src/main/java/io/github/saniamb/chromiq/core/color/ColorQuantizer.java:337-349 | the sum of squared LAB differences is never negative and is 0 for equal points |
| ColorModel.LabDistanceSymmetric | src/main/java/io/github/saniamb/chromiq/core/color/ColorClusterer.java:311-317 | the LAB distance does not depend on argument order |
| ColorModel.DeltaESymmetric | src/main/java/io/github/saniamb/chromiq/core/color/ColorQuantizer.java:337-349 | Delta E does not depend on argument order |
| ColorExtractor.PercentageScales | src/main/java/io/github/saniamb/chromiq/core/color/ColorExtractor.java:38-44 | setPercentage: 0 when the total is not positive; otherwise percentage times total equals count times 100, and the share lies in [0, 100] when 0 <= count <= total |
| ColorExtractor.SameCountAndColorIgnoresPercentage | src/main/java/io/github/saniamb/chromiq/core/color/ColorExtractor.java:63-67 | equals compares count and colour only: setting the percentage keeps an entry equal to itself even when the stored value changes |
| ColorExtractor.PixelRgb | src/main/java/io/github/saniamb/chromiq/core/color/ColorExtractor.java:114-116 | every pixel's RGB is a valid colour |
| ColorExtractor.RgbKeyInjective | src/main/java/io/github/saniamb/chromiq/core/color/ColorExtractor.java:119 | two valid colours get the same 24-bit key exactly when they have the same RGB |
| ColorExtractor.PixelColor | src/main/java/io/github/saniamb/chromiq/core/color/ColorExtractor.java:122-125 | the colour built for a pixel is valid, has the pixel's RGB and alpha / 255.0, and no name |
| ColorExtractor.Scan | src/main/java/io/github/saniamb/chromiq/core/color/ColorExtractor.java:104-126 | the loop's state after all pixels: processed is the pixel count, 0 <= transparent <= processed, keys are distinct and every key's entry has that RGB |
| ColorExtractor.TransparentCount | src/main/java/io/github/saniamb/chromiq/core/color/ColorExtractor.java:107-112 | no more transparent pixels than pixels |
| ColorExtractor.FirstWithKey | src/main/java/io/github/saniamb/chromiq/core/color/ColorExtractor.java:122-125 | the index of a visible pixel with the given key |
| ColorExtractor.FirstWithKeyIsFirst | src/main/java/io/github/saniamb/chromiq/core/color/ColorExtractor.java:122-125 | computeIfAbsent: no earlier pixel has that key, so the entry keeps the alpha of the first pixel of its colour |
| ColorExtractor.Listing | src/main/java/io/github/saniamb/chromiq/core/color/ColorExtractor.java:130 | the map's values, one per key, in key order |
| ColorExtractor.Percentages | src/main/java/io/github/saniamb/chromiq/core/color/ColorExtractor.java:132-134 | every entry gets its share of the visible total; nothing else about it changes |
| ColorExtractor.Unranked | src/main/java/io/github/saniamb/chromiq/core/color/ColorExtractor.java:129-134 | one entry per distinct key, before the sort |
| ColorExtractor.Entries | src/main/java/io/github/saniamb/chromiq/core/color/ColorExtractor.java:129-134 | one entry per key of a tally |
| ColorExtractor.ExtractColors | src/main/java/io/github/saniamb/chromiq/core/color/ColorExtractor.java:86-137 | a null picture is an error; otherwise the loop with its counters and map produces exactly the histogram of the picture's pixels |
| ColorExtractor.ExtractTopColors | src/main/java/io/github/saniamb/chromiq/core/color/ColorExtractor.java:160-167 | a limit of 0 or less is rejected first; otherwise the first min(limit, n) entries of the full histogram |
| ColorExtractor.ScanEntries | src/main/java/io/github/saniamb/chromiq/core/color/ColorExtractor.java:119-125 | a key is in the map exactly when a visible pixel has it; its count is the number of such pixels and its colour comes from the first of them |
| ColorExtractor.ScanTransparent | src/main/java/io/github/saniamb/chromiq/core/color/ColorExtractor.java:107-112 | the transparent counter is the number of pixels with alpha below 128 |
| ColorExtractor.ScanTotal | src/main/java/io/github/saniamb/chromiq/core/color/ColorExtractor.java:122-129 | the counts add up to processed minus transparent |
| ColorExtractor.PercentagesScaled | src/main/java/io/github/saniamb/chromiq/core/color/ColorExtractor.java:38-44 | after setPercentage with a positive total, each share times the total is the count times 100 |
| ColorExtractor.UnrankedEntry | src/main/java/io/github/saniamb/chromiq/core/color/ColorExtractor.java:119-134 | each unranked entry has its key's RGB, the number of visible pixels with that key (at least 1), the first such pixel's colour and its share |
| ColorExtractor.UnrankedShare | src/main/java/io/github/saniamb/chromiq/core/color/ColorExtractor.java:132-134 | each unranked entry's percentage is its count against the visible total |
| ColorExtractor.HistogramRanked | src/main/java/io/github/saniamb/chromiq/core/color/ColorExtractor.java:119-136 | the histogram is ranked by count, largest first, and no two entries share RGB |
| ColorExtractor.HistogramEntries | src/main/java/io/github/saniamb/chromiq/core/color/ColorExtractor.java:119-134 | every histogram entry counts exactly the visible pixels of its RGB, at least one, and carries its share |
| ColorExtractor.HistogramShares | src/main/java/io/github/saniamb/chromiq/core/color/ColorExtractor.java:129-134 | every histogram entry's percentage is its share of the visible pixels |
| ColorExtractor.HistogramTotals | src/main/java/io/github/saniamb/chromiq/core/color/ColorExtractor.java:122-134 | the counts add up to the visible pixels, and the percentages to exactly 100 when any pixel is visible |
| ColorExtractor.UnrankedTotals | src/main/java/io/github/saniamb/chromiq/core/color/ColorExtractor.java:122-134 | the same totals before the sort |
| ColorExtractor.HistogramCovers | src/main/java/io/github/saniamb/chromiq/core/color/ColorExtractor.java:104-125 | every visible pixel's RGB has an entry |
| ColorExtractor.AllTransparent | src/main/java/io/github/saniamb/chromiq/core/color/ColorExtractor.java:107-112 | a picture with no visible pixel has an empty histogram |
| ColorExtractor.TransparentCountAll | src/main/java/io/github/saniamb/chromiq/core/color/ColorExtractor.java:107-112 | every pixel is transparent exactly when the transparent count is the pixel count |
| ColorExtractor.VisibleWhenListed | src/main/java/io/github/saniamb/chromiq/core/color/ColorExtractor.java:129 | a non-empty histogram means at least one visible pixel |
| ColorExtractor.Solid | src/test/java/io/github/saniamb/chromiq/color/ColorExtractorTest.java:48-67 | n identical visible pixels give one entry with count n at 100 percent |
| ColorExtractor.SolidRedExample | src/test/java/io/github/saniamb/chromiq/color/ColorExtractorTest.java:48-67 | a 10 by 10 solid red picture gives one entry, red, count 100, 100 percent |
| Weighting.AccumulateWeights | src/main/java/io/github/saniamb/chromiq/core/color/ColorQuantizer.java:111-124 | the accumulation loop computes the count-weighted LAB sum and the total weight of its list |
| Weighting.WeightedLabUniform | src/main/java/io/github/saniamb/chromiq/core/color/ColorQuantizer.java:115-124 | when every member has the same LAB point, the weighted sum is that point scaled by the total weight |
| Weighting.UniformMean | src/main/java/io/github/saniamb/chromiq/core/color/ColorQuantizer.java:126-130 | the weighted mean of members with one common LAB point is that point |
| Weighting.SingleMean | src/main/java/io/github/saniamb/chromiq/core/color/ColorClusterer.java:82-99 | the mean of a single member with a non-zero count is its own LAB point |
| ColorQuantizer.NewGroup | src/main/java/io/github/saniamb/chromiq/core/color/ColorQuantizer.java:47-53 | a new group has the entry as its only member, its colour as the representative, and totals equal to its members' sums |
| ColorQuantizer.AddTo | src/main/java/io/github/saniamb/chromiq/core/color/ColorQuantizer.java:59-66 | addColor appends the entry and keeps the totals equal to the members' sums |
| ColorQuantizer.AddToUniform | src/main/java/io/github/saniamb/chromiq/core/color/ColorQuantizer.java:108-135 | when all members share one LAB point, the recomputed representative is fromLAB of that point |
| ColorQuantizer.ColorGroup.Init | src/main/java/io/github/saniamb/chromiq/core/color/ColorQuantizer.java:47-53 | the constructor builds the new group's state |
| ColorQuantizer.ColorGroup.AddColor | src/main/java/io/github/saniamb/chromiq/core/color/ColorQuantizer.java:59-66 | the object moves to the value-level addColor result and stays consistent |
| ColorQuantizer.ColorGroup.UpdateRepresentativeColor | src/main/java/io/github/saniamb/chromiq/core/color/ColorQuantizer.java:108-135 | only the representative changes, to the weighted LAB mean when the weights add up to more than 0, else it stays |
| ColorQuantizer.FirstNear | src/main/java/io/github/saniamb/chromiq/core/color/ColorQuantizer.java:263-272 | the index of the first group in creation order within the threshold, or the group count when there is none |
| ColorQuantizer.PlaceJoinsFirst | src/main/java/io/github/saniamb/chromiq/core/color/ColorQuantizer.java:263-277 | an entry joins the first group within the threshold, changing only that group, or founds a new group at the end |
| ColorQuantizer.PlaceKeepsFounders | src/main/java/io/github/saniamb/chromiq/core/color/ColorQuantizer.java:263-277 | offering an entry adds at most one group, leaves the first member of every existing group alone, and a new group holds just that entry, as the ColorGroup constructor builds it |
| ColorQuantizer.Grouped | src/main/java/io/github/saniamb/chromiq/core/color/ColorQuantizer.java:260-299 | at most 500 groups, no more groups than entries, and each group's totals equal its members' sums |
| ColorQuantizer.GroupedKeepsFounders | src/main/java/io/github/saniamb/chromiq/core/color/ColorQuantizer.java:259-298 | one more iteration of the grouping loop keeps the first member of every earlier group, and a group it creates holds just the offered entry |
| ColorQuantizer.Founder | src/main/java/io/github/saniamb/chromiq/core/color/ColorQuantizer.java:259-298 | for every group i of the grouping, the entry whose iteration created it: the group count was i before that entry and i + 1 after it, and the entry is still the group's first member at the end |
| ColorQuantizer.QuantizeFounders | src/main/java/io/github/saniamb/chromiq/core/color/ColorQuantizer.java:243-299 | the first member of every group quantizeColors returns is an entry of its input |
| ColorQuantizer.Consumed | src/main/java/io/github/saniamb/chromiq/core/color/ColorQuantizer.java:279-298 | the processed count lies between the group count and the input length, and is the whole input while the cap is not reached |
| ColorQuantizer.Quantize | src/main/java/io/github/saniamb/chromiq/core/color/ColorQuantizer.java:244-303 | null input gives no groups; otherwise the grouping pass's groups, ranked by total count |
| ColorQuantizer.QuantizeColors | src/main/java/io/github/saniamb/chromiq/core/color/ColorQuantizer.java:244-318 | the nested loops over the group objects produce exactly Quantize, as distinct fresh groups |
| ColorQuantizer.QuantizeColorsDefault | src/main/java/io/github/saniamb/chromiq/core/color/ColorQuantizer.java:323-325 | quantizeColors with the default threshold |
| ColorQuantizer.GroupColors | src/main/java/io/github/saniamb/chromiq/core/color/ColorQuantizer.java:256-299 | the outer loop builds exactly the value-level groups, stopping at the cap |
| ColorQuantizer.GroupTurn | src/main/java/io/github/saniamb/chromiq/core/color/ColorQuantizer.java:260-279 | one outer step moves the groups from the prefix's grouping to the next prefix's |
| ColorQuantizer.OfferColor | src/main/java/io/github/saniamb/chromiq/core/color/ColorQuantizer.java:261-277 | the inner loop leaves the groups equal to placing the entry into the first near group or a new one |
| ColorQuantizer.JoinGroup | src/main/java/io/github/saniamb/chromiq/core/color/ColorQuantizer.java:268 | adding to one group object changes no other group |
| ColorQuantizer.SortGroups | src/main/java/io/github/saniamb/chromiq/core/color/ColorQuantizer.java:302 | the group objects are reordered as the stable sort by total count orders their values |
| ColorQuantizer.InsertGroup | src/main/java/io/github/saniamb/chromiq/core/color/ColorQuantizer.java:302 | one insertion step of that sort on objects |
| ColorQuantizer.RepresentativeColors | src/main/java/io/github/saniamb/chromiq/core/color/ColorQuantizer.java:355-359 | one representative per group, in group order |
| ColorQuantizer.GroupedStops | src/main/java/io/github/saniamb/chromiq/core/color/ColorQuantizer.java:282-298 | once 500 groups exist, the remaining entries change nothing |
| ColorQuantizer.ConsumedStops | src/main/java/io/github/saniamb/chromiq/core/color/ColorQuantizer.java:282-298 | once 500 groups exist, no further entry is processed |
| ColorQuantizer.PlaceTotals | src/main/java/io/github/saniamb/chromiq/core/color/ColorQuantizer.java:59-62 | placing an entry adds its count and percentage to the group totals |
| ColorQuantizer.GroupedTotals | src/main/java/io/github/saniamb/chromiq/core/color/ColorQuantizer.java:260-299 | the group totals add up to the counts and percentages of the processed prefix |
| ColorQuantizer.QuantizeTotals | src/main/java/io/github/saniamb/chromiq/core/color/ColorQuantizer.java:244-302 | the same after ranking, and the whole input's count when the cap is not reached |
| ColorQuantizer.PlaceMembers | src/main/java/io/github/saniamb/chromiq/core/color/ColorQuantizer.java:263-277 | placing adds the entry to exactly one group |
| ColorQuantizer.GroupedMembers | src/main/java/io/github/saniamb/chromiq/core/color/ColorQuantizer.java:260-299 | the groups' members are exactly the processed prefix, each entry once |
| ColorQuantizer.QuantizeMembers | src/main/java/io/github/saniamb/chromiq/core/color/ColorQuantizer.java:244-302 | the same after ranking, and every entry when the cap is not reached |
| ColorQuantizer.SameColorOneGroup | src/main/java/io/github/saniamb/chromiq/core/color/ColorQuantizer.java:264-272 | two entries of the same RGB share a group, if Delta E of a point with itself is 0 |
| ColorQuantizer.FarColorsTwoGroups | src/main/java/io/github/saniamb/chromiq/core/color/ColorQuantizer.java:274-277 | two entries farther apart than the threshold found two groups, in input order |
| ColorQuantizer.QuantizeNothing | src/main/java/io/github/saniamb/chromiq/core/color/ColorQuantizer.java:247-250 | null or empty input gives no groups |
| ColorQuantizer.GroupedNonEmpty | src/main/java/io/github/saniamb/chromiq/core/color/ColorQuantizer.java:275-277 | a non-empty input gives at least one group |
| ColorQuantizer.QuantizeSomething | src/main/java/io/github/saniamb/chromiq/core/color/ColorQuantizer.java:244-302 | a non-empty input gives at least one group after ranking |
| ColorClusterer.NewCluster | src/main/java/io/github/saniamb/chromiq/core/color/ColorClusterer.java:45-51 | a new cluster has no members, zero totals, the given centre and its LAB point |
| ColorClusterer.WithMember | src/main/java/io/github/saniamb/chromiq/core/color/ColorClusterer.java:56-60 | addMember appends the entry, keeps the totals equal to the members' sums and leaves the centre alone |
| ColorClusterer.Cleared | src/main/java/io/github/saniamb/chromiq/core/color/ColorClusterer.java:66-70 | clearMembers empties the members and zeroes the totals, keeping the centre |
| ColorClusterer.Recentered | src/main/java/io/github/saniamb/chromiq/core/color/ColorClusterer.java:76-109 | updateCenter moves the centre to the weighted LAB mean when there are members of non-zero weight, else changes nothing; members and totals stay |
| ColorClusterer.NearestScan | src/main/java/io/github/saniamb/chromiq/core/color/ColorClusterer.java:291-305 | the strict-less-than scan: the chosen cluster is strictly closer than every earlier one and no farther than every later one; none when every distance is at least Double.MAX_VALUE |
| ColorClusterer.NearestUnique | src/main/java/io/github/saniamb/chromiq/core/color/ColorClusterer.java:291-305 | ties go to the earliest cluster: a cluster strictly closer than those before it and no farther than those after it is the one chosen |
| ColorClusterer.ClearAll | src/main/java/io/github/saniamb/chromiq/core/color/ColorClusterer.java:263-265 | every cluster cleared, in place |
| ColorClusterer.UpdateAll | src/main/java/io/github/saniamb/chromiq/core/color/ColorClusterer.java:274-279 | every cluster recentred, in place |
| ColorClusterer.Weights | src/main/java/io/github/saniamb/chromiq/core/color/ColorClusterer.java:220-234 | each candidate's weight is the square of its distance to the nearest existing centre |
| ColorClusterer.PickFrom | src/main/java/io/github/saniamb/chromiq/core/color/ColorClusterer.java:240-248 | the scan returns the first index from i whose running total reaches the target, or the last index |
| ColorClusterer.Pick | src/main/java/io/github/saniamb/chromiq/core/color/ColorClusterer.java:236-248 | the weighted draw always returns a valid candidate index |
| ColorClusterer.PickUnique | src/main/java/io/github/saniamb/chromiq/core/color/ColorClusterer.java:240-248 | that index is the first one whose cumulative weight reaches the target, falling back to the last |
| ColorClusterer.Farthest | src/main/java/io/github/saniamb/chromiq/core/color/ColorClusterer.java:213-249 | findFarthestColor picks a valid candidate index |
| ColorClusterer.FirstEqual | src/main/java/io/github/saniamb/chromiq/core/color/ColorClusterer.java:202 | List.remove finds the first entry equal by count and colour |
| ColorClusterer.RemoveFirst | src/main/java/io/github/saniamb/chromiq/core/color/ColorClusterer.java:202 | List.remove drops exactly that entry, keeping the others in order, or nothing when none is equal |
| ColorClusterer.FarthestChooserValid | src/main/java/io/github/saniamb/chromiq/core/color/ColorClusterer.java:236-248 | every draw, whatever the random value, chooses a candidate of the remaining list |
| ColorClusterer.Clustered | src/main/java/io/github/saniamb/chromiq/core/color/ColorClusterer.java:151-181 | null or empty input gives no clusters; k outside 1..n is an error; otherwise the clusters are ranked by pixel count |
| ColorClusterer.TakenFromCount | src/main/java/io/github/saniamb/chromiq/core/color/ColorClusterer.java:199-203 | seeding takes k - i candidates while enough remain, each from the remaining pool, none twice |
| ColorClusterer.SeedsFromTaken | src/main/java/io/github/saniamb/chromiq/core/color/ColorClusterer.java:199-203 | each later seed is a new cluster centred on the colour of the candidate drawn at that turn |
| ColorClusterer.SeedsCount | src/main/java/io/github/saniamb/chromiq/core/color/ColorClusterer.java:187-207 | for 1 <= k <= n: exactly k seeds, the first on colors[0], each on a distinct drawn entry of the input |
| ColorClusterer.SeedsDistinct | src/main/java/io/github/saniamb/chromiq/core/color/ColorClusterer.java:187-207 | when the input colours are distinct, so are the k seed centres |
| ColorClusterer.ClearAllEmpty | src/main/java/io/github/saniamb/chromiq/core/color/ColorClusterer.java:263-265 | after clearing, no cluster has a member and all totals are 0 |
| ColorClusterer.UpdateAllKeeps | src/main/java/io/github/saniamb/chromiq/core/color/ColorClusterer.java:274-279 | recentring changes no member and no total |
| ColorClusterer.AssignOneAdds | src/main/java/io/github/saniamb/chromiq/core/color/ColorClusterer.java:268-271 | assigning an entry adds it to exactly one cluster and adds its count and percentage to the totals |
| ColorClusterer.AssignAllAdds | src/main/java/io/github/saniamb/chromiq/core/color/ColorClusterer.java:268-271 | assigning all entries adds each to exactly one cluster, with the totals to match |
| ColorClusterer.PassConserves | src/main/java/io/github/saniamb/chromiq/core/color/ColorClusterer.java:258-283 | after a pass every input entry is a member of exactly one cluster, and the clusters' totals add up to the input's counts and percentages |
| ColorClusterer.UpdateAllTallied | src/main/java/io/github/saniamb/chromiq/core/color/ColorClusterer.java:274-279 | recentring keeps every cluster's totals equal to its members' sums |
| ColorClusterer.IterateBounds | src/main/java/io/github/saniamb/chromiq/core/color/ColorClusterer.java:254-286 | the loop runs at least once and at most 50 times, keeps k clusters and conserves the input |
| ColorClusterer.SortConserves | src/main/java/io/github/saniamb/chromiq/core/color/ColorClusterer.java:173 | ranking the clusters conserves the input |
| ColorClusterer.ClusteredShape | src/main/java/io/github/saniamb/chromiq/core/color/ColorClusterer.java:151-181 | for 1 <= k <= n a successful run returns exactly k clusters that together hold every input entry once, with matching totals |
| ColorClusterer.ColorCluster.constructor | src/main/java/io/github/saniamb/chromiq/core/color/ColorClusterer.java:45-51 | a new cluster object holds the new cluster value |
| ColorClusterer.ColorCluster.AddMember | src/main/java/io/github/saniamb/chromiq/core/color/ColorClusterer.java:56-60 | the object moves to the value-level addMember result |
| ColorClusterer.ColorCluster.ClearMembers | src/main/java/io/github/saniamb/chromiq/core/color/ColorClusterer.java:66-70 | the object moves to the value-level clearMembers result |
| ColorClusterer.ColorCluster.UpdateCenter | src/main/java/io/github/saniamb/chromiq/core/color/ColorClusterer.java:76-109 | the object moves to the recentred value, and reports a move exactly when the new centre is more than 0.1 from the old one |
| ColorClusterer.FindNearestCluster | src/main/java/io/github/saniamb/chromiq/core/color/ColorClusterer.java:291-305 | the loop returns the cluster the value-level scan chooses, or null when it chooses none |
| ColorClusterer.ClearAllMembers | src/main/java/io/github/saniamb/chromiq/core/color/ColorClusterer.java:263-265 | clearing all cluster objects |
| ColorClusterer.AssignColors | src/main/java/io/github/saniamb/chromiq/core/color/ColorClusterer.java:268-271 | assigning every entry to its nearest cluster object; fails when some entry has no nearest cluster |
| ColorClusterer.AssignColor | src/main/java/io/github/saniamb/chromiq/core/color/ColorClusterer.java:269-270 | one entry joins the nearest cluster object and no other changes |
| ColorClusterer.UpdateCenters | src/main/java/io/github/saniamb/chromiq/core/color/ColorClusterer.java:274-279 | every cluster object recentred, and the flag tells whether any moved |
| ColorClusterer.RunKMeansIterations | src/main/java/io/github/saniamb/chromiq/core/color/ColorClusterer.java:254-286 | the while loop over the objects computes exactly the value-level iteration and its count, or the missing-nearest-cluster failure |
| ColorClusterer.NearestCenterDistance | src/main/java/io/github/saniamb/chromiq/core/color/ColorClusterer.java:222-228 | the inner loop computes the minimum distance to the existing centres, starting from Double.MAX_VALUE |
| ColorClusterer.CandidateWeights | src/main/java/io/github/saniamb/chromiq/core/color/ColorClusterer.java:217-234 | the weights loop computes every candidate's weight and their total |
| ColorClusterer.WeightedDraw | src/main/java/io/github/saniamb/chromiq/core/color/ColorClusterer.java:237-248 | the cumulative loop returns the index Pick specifies |
| ColorClusterer.FindFarthestColor | src/main/java/io/github/saniamb/chromiq/core/color/ColorClusterer.java:213-249 | returns the candidate Farthest chooses |
| ColorClusterer.InitializeClusters | src/main/java/io/github/saniamb/chromiq/core/color/ColorClusterer.java:187-207 | the seeding loop builds distinct fresh cluster objects holding exactly the value-level seeds |
| ColorClusterer.FirstSeed | src/main/java/io/github/saniamb/chromiq/core/color/ColorClusterer.java:188-194 | the first seed is colors[0], removed from the pool |
| ColorClusterer.AddSeed | src/main/java/io/github/saniamb/chromiq/core/color/ColorClusterer.java:199-203 | one seeding turn: draw, remove from the pool, add a new cluster |
| ColorClusterer.SortClusters | src/main/java/io/github/saniamb/chromiq/core/color/ColorClusterer.java:173 | the cluster objects are reordered as the stable sort by pixel count orders their values |
| ColorClusterer.InsertCluster | src/main/java/io/github/saniamb/chromiq/core/color/ColorClusterer.java:173 | one insertion step of that sort on objects |
| ColorClusterer.ClusterColors | src/main/java/io/github/saniamb/chromiq/core/color/ColorClusterer.java:151-181 | the method over objects returns exactly the value-level result, as distinct fresh clusters |
| DominantColorExtractor.ClusteringPrecondition | src/main/java/io/github/saniamb/chromiq/core/color/DominantColorExtractor.java:128-135 | when clustering is chosen, 1 <= maxColors < n and n >= 15, so the clusterer's check on k cannot fail |
| DominantColorExtractor.NaturalPalette | src/main/java/io/github/saniamb/chromiq/core/color/DominantColorExtractor.java:178-190 | the pass-through list: the first min(maxColors, n) entries, each copying colour, percentage and count |
| DominantColorExtractor.ConvertToNaturalPalette | src/main/java/io/github/saniamb/chromiq/core/color/DominantColorExtractor.java:178-190 | the copying loop builds exactly that list |
| DominantColorExtractor.FromClusters | src/main/java/io/github/saniamb/chromiq/core/color/DominantColorExtractor.java:195-212 | one dominant colour per cluster, in order: centre, total percentage, total pixel count |
| DominantColorExtractor.ReadClusters | src/main/java/io/github/saniamb/chromiq/core/color/DominantColorExtractor.java:201-209 | the loop over cluster objects builds exactly that list |
| DominantColorExtractor.ClusterAndExtract | src/main/java/io/github/saniamb/chromiq/core/color/DominantColorExtractor.java:195-212 | succeeds exactly when clustering does, with the clusters' dominant colours, and passes on the clusterer's error |
| DominantColorExtractor.Dominant | src/main/java/io/github/saniamb/chromiq/core/color/DominantColorExtractor.java:100-153 | a null picture and a maxColors outside 1..10 are errors, in that order; every result is ranked by percentage |
| DominantColorExtractor.ExtractDominantColors | src/main/java/io/github/saniamb/chromiq/core/color/DominantColorExtractor.java:100-153 | the method computes exactly Dominant |
| DominantColorExtractor.ExtractDominantColorsDefault | src/main/java/io/github/saniamb/chromiq/core/color/DominantColorExtractor.java:88-90 | extractDominantColors with 10 colours |
| DominantColorExtractor.NoVisibleColors | src/main/java/io/github/saniamb/chromiq/core/color/DominantColorExtractor.java:118-121 | a picture with no visible pixel gives an empty list, not an error |
| DominantColorExtractor.DominantCount | src/main/java/io/github/saniamb/chromiq/core/color/DominantColorExtractor.java:125-138 | a success means 1 <= maxColors <= 10, and gives min(maxColors, n) colours on pass-through, exactly maxColors when clustered |
| DominantColorExtractor.PercentageMonotone | src/main/java/io/github/saniamb/chromiq/core/color/DominantColorExtractor.java:61-64 | a larger count never has a smaller share of the same total, so count order is percentage order |
| DominantColorExtractor.PaletteRanked | src/main/java/io/github/saniamb/chromiq/core/color/DominantColorExtractor.java:141 | the pass-through list of a count-ranked histogram is already ranked by percentage, so the final sort keeps it |
| DominantColorExtractor.PassThrough | src/main/java/io/github/saniamb/chromiq/core/color/DominantColorExtractor.java:128-132 | when pass-through applies, the result is the first min(maxColors, n) histogram entries |
| DominantColorExtractor.PaletteOfHistogram | src/main/java/io/github/saniamb/chromiq/core/color/DominantColorExtractor.java:141 | the sort leaves any picture's pass-through list unchanged |
| DominantColorExtractor.ShareOrder | src/main/java/io/github/saniamb/chromiq/core/color/DominantColorExtractor.java:61-64 | a cluster with at least as many pixels has at least as large a percentage |
| DominantColorExtractor.ClustersRanked | src/main/java/io/github/saniamb/chromiq/core/color/DominantColorExtractor.java:141 | clusters ranked by pixel count give dominant colours ranked by percentage |
| DominantColorExtractor.SplitKeptInOrder | src/main/java/io/github/saniamb/chromiq/core/color/DominantColorExtractor.java:141 | the final sort leaves the clustered list unchanged, and its percentages add up to those of the histogram |
| DominantColorExtractor.ClusteredRanked | src/main/java/io/github/saniamb/chromiq/core/color/DominantColorExtractor.java:133-141 | on the clustering path the result is the clusters' dominant colours in the clusterer's order, with percentages adding up to exactly 100 |
| RegionalColorExtractor.CheckClick | src/main/java/io/github/saniamb/chromiq/core/color/RegionalColorExtractor.java:77-89 | accepts exactly a present picture with the click on it; otherwise null picture, then clickX, then clickY, in that order |
| RegionalColorExtractor.ValidateInputs | src/main/java/io/github/saniamb/chromiq/core/color/RegionalColorExtractor.java:167-187 | the click checks, then regionSize in 5..50; passes exactly when all hold |
| RegionalColorExtractor.Half | src/main/java/io/github/saniamb/chromiq/core/color/RegionalColorExtractor.java:211 | Java integer halving agrees with Dafny's for the non-negative sizes used |
| RegionalColorExtractor.AxisBounds | src/main/java/io/github/saniamb/chromiq/core/color/RegionalColorExtractor.java:213-227 | clamping one axis: never empty; inside [0, dim) and containing the click; at most 2 * half wide; exactly [click - half, click + half) when unclamped; starting at 0 when the ideal start is not positive |
| RegionalColorExtractor.CalculateRegionBounds | src/main/java/io/github/saniamb/chromiq/core/color/RegionalColorExtractor.java:210-230 | both axes of the window are clamped independently by the same rule |
| RegionalColorExtractor.BoundsInside | src/main/java/io/github/saniamb/chromiq/core/color/RegionalColorExtractor.java:210-229 | for validated inputs the window lies inside the picture, contains the click, is at least 1 by 1 and at most 2 * (regionSize / 2) on a side, exactly that when unclamped, and starts at 0 for a click at 0 |
| RegionalColorExtractor.RegionImage | src/main/java/io/github/saniamb/chromiq/core/color/RegionalColorExtractor.java:235-242 | the region picture has the window's size and its pixels are the window's pixels |
| RegionalColorExtractor.RepresentativeColor | src/main/java/io/github/saniamb/chromiq/core/color/RegionalColorExtractor.java:248-279 | no entries give white; 1 to 3 entries give the most frequent; more give the representative of the heaviest group of quantizing with threshold 1.0 |
| RegionalColorExtractor.FromRegion | src/main/java/io/github/saniamb/chromiq/core/color/RegionalColorExtractor.java:128-162 | fails exactly when the input checks fail, with their error |
| RegionalColorExtractor.FromRegionDefault | src/main/java/io/github/saniamb/chromiq/core/color/RegionalColorExtractor.java:61-63 | the region pick with size 20 fails exactly when the click checks fail |
| RegionalColorExtractor.ExactPixel | src/main/java/io/github/saniamb/chromiq/core/color/RegionalColorExtractor.java:75-116 | fails exactly when the click checks fail; otherwise the pixel's channels with alpha / 255.0, named "Exact Pixel" |
| RegionalColorExtractor.ComplexRegionPicksHeaviestGroup | src/main/java/io/github/saniamb/chromiq/core/color/RegionalColorExtractor.java:267-275 | with more than 3 entries quantizing always gives a group, so the last fallback is never taken |
| RegionalColorExtractor.SimpleRegionPicksPixel | src/main/java/io/github/saniamb/chromiq/core/color/RegionalColorExtractor.java:259-265 | with 1 to 3 entries the pick is the colour of a visible pixel of the region, and no entry is more frequent |
| PaletteManager.DominantEntry | src/main/java/io/github/saniamb/chromiq/core/palette/PaletteManager.java:50-56 | a dominant colour's entry has source DOMINANT_EXTRACTION and is not user-picked |
| PaletteManager.PickedEntry | src/main/java/io/github/saniamb/chromiq/core/palette/PaletteManager.java:59-65 | a picked entry is user-picked, with percentage 0, count 0 and the exact or region source |
| PaletteManager.SimilarSymmetric | src/main/java/io/github/saniamb/chromiq/core/palette/PaletteManager.java:249-260 | similarity does not depend on argument order |
| PaletteManager.FromDominants | src/main/java/io/github/saniamb/chromiq/core/palette/PaletteManager.java:99-114 | the constructor's list: one dominant entry per dominant colour, in order |
| PaletteManager.FirstSimilarFrom | src/main/java/io/github/saniamb/chromiq/core/palette/PaletteManager.java:234-244 | the index loop: the first index from i, skipping exclude, whose colour is similar, or none |
| PaletteManager.SimilarEntry | src/main/java/io/github/saniamb/chromiq/core/palette/PaletteManager.java:222-244 | none exactly when no entry other than the excluded index is similar; otherwise the first similar entry in palette order |
| PaletteManager.Add | src/main/java/io/github/saniamb/chromiq/core/palette/PaletteManager.java:134-163 | succeeds exactly for a present colour, a palette under 10 and no similar entry, appending one picked entry; failures are checked null, full, similar in that order, report the first similar entry, and leave the list alone |
| PaletteManager.Remove | src/main/java/io/github/saniamb/chromiq/core/palette/PaletteManager.java:171-184 | succeeds exactly for an index in range, returning that entry and keeping the others in order; otherwise nothing changes |
| PaletteManager.Replace | src/main/java/io/github/saniamb/chromiq/core/palette/PaletteManager.java:190-214 | succeeds exactly for an index in range with no similar entry at another index, changing only that position; otherwise nothing changes |
| PaletteManager.AddKeepsCurated | src/main/java/io/github/saniamb/chromiq/core/palette/PaletteManager.java:134-163 | add keeps a palette of at most 10 pairwise dissimilar entries so |
| PaletteManager.RemoveKeepsCurated | src/main/java/io/github/saniamb/chromiq/core/palette/PaletteManager.java:171-184 | remove keeps a curated palette curated |
| PaletteManager.ReplaceKeepsCurated | src/main/java/io/github/saniamb/chromiq/core/palette/PaletteManager.java:190-214 | replace keeps a curated palette curated |
| PaletteManager.FullRefusesAdd | src/main/java/io/github/saniamb/chromiq/core/palette/PaletteManager.java:140-143 | a curated palette that is full has exactly 10 entries and refuses every add, unchanged |
| PaletteManager.RemoveThenAdd | src/main/java/io/github/saniamb/chromiq/core/palette/PaletteManager.java:171-184 | removing the only entry that blocks a pick lets the same add succeed |
| PaletteManager.ConstructorSkipsChecks | src/main/java/io/github/saniamb/chromiq/core/palette/PaletteManager.java:99-114 | the constructor can build a palette with two similar entries |
| PaletteManager.PaletteManager.constructor | src/main/java/io/github/saniamb/chromiq/core/palette/PaletteManager.java:99-114 | the list is the converted dominant colours and the name "Unnamed Image" |
| PaletteManager.PaletteManager.Empty | src/main/java/io/github/saniamb/chromiq/core/palette/PaletteManager.java:119-123 | an empty list named "Custom Palette" |
| PaletteManager.PaletteManager.FindSimilarColor | src/main/java/io/github/saniamb/chromiq/core/palette/PaletteManager.java:222-229 | the loop returns the first similar entry, or none |
| PaletteManager.PaletteManager.FindSimilarColorExcluding | src/main/java/io/github/saniamb/chromiq/core/palette/PaletteManager.java:234-244 | the loop returns the first similar entry at another index, or none |
| PaletteManager.PaletteManager.AddPickedColor | src/main/java/io/github/saniamb/chromiq/core/palette/PaletteManager.java:134-163 | the list and the outcome are exactly those of Add |
| PaletteManager.PaletteManager.RemoveColor | src/main/java/io/github/saniamb/chromiq/core/palette/PaletteManager.java:171-184 | the list and the outcome are exactly those of Remove |
| PaletteManager.PaletteManager.ReplaceColor | src/main/java/io/github/saniamb/chromiq/core/palette/PaletteManager.java:190-214 | the list and the outcome are exactly those of Replace |
| PaletteManager.PaletteManager.GetColorEntries | src/main/java/io/github/saniamb/chromiq/core/palette/PaletteManager.java:274-278 | the entries' colours, one per entry, in order |
| PaletteManager.PaletteManager.SetImageName | src/main/java/io/github/saniamb/chromiq/core/palette/PaletteManager.java:286 | only the name changes |

## Left out

- Floating-point colour maths: `getLAB` (sRGB companding and CIE 1976 L\*a\*b\*), `ColorEntry.fromLAB` and `Math.sqrt` are the abstract functions of `ColorSpace`. Nothing is assumed about them, so no property depends on their values. `ColorEntry.fromLAB` is not part of this model.
- Double rounding: doubles are exact reals. Percentages therefore sum to exactly 100, where Java only comes close, and `Double.compare` in `equals` is real equality (NaN and -0.0 are not modelled).
- `Random(42)`: the generator's sequence is the parameter `draws`. Nothing is assumed about its values, so the properties hold for any sequence, in [0, 1) or not.
- HashMap iteration order: `ColorExtractor.Listing` lists the keys in the order the pixels first show them. `HashMap.values()` has an unspecified order, which only decides the order of entries with equal counts after the stable sort.
- Integer width: counts, the RGB key and the `long` weight totals are unbounded integers. Wrap-around needs more than 2^31 pixels and is not modelled.
- Logging, timing (`System.currentTimeMillis`), `toString`, and the report methods: `getExtractionReport`, `getQuantizationReport`, `getColorStatistics`, `getTopColorsSummary` and `getPaletteSummary`. They produce text only.
- The quantizer's `remainingCoverage` sum and its warning when it exceeds 10 percent: they only feed the log.
- Getters that only return a field carry no lemma of their own. `getRed`, `getName` and the like, and `getImageName`, are reads of the modelled fields. `PaletteManager.PaletteManager.GetPaletteColors`, `GetPaletteSize`, `IsPaletteFull` and `IsPaletteEmpty` are modelled as plain accessors of the palette sequence (PaletteManager.java:267-283); the capacity rule they report on is stated by `PaletteManager.FullRefusesAdd` and the curated-palette lemmas.
- `ColorEntry.hashCode`, `ColorCount.hashCode` and `getSourceDescription`: they do not affect any modelled result.
- The commented-out code of `ColorQuantizer` and `ColorEntry`.
- The static worker fields of `DominantColorExtractor`, which its constructor reassigns: extraction is modelled as a stateless function. The regional picker's worker fields are stateless too.
- The `RuntimeException` wrapping in `extractDominantColors`, `extractFromRegion` and `extractExactPixel`.
  - Once the inputs are validated, the only failure left is the clusterer's null nearest cluster. It is `ColorClusterer.ClusterError.NoNearestCluster`, wrapped as `ExtractionFailed`.
  - The other wrapped paths cannot fail in the model: the constructor in `extractExactPixel` always receives valid values. The error values exist but are never produced there.
- `findNearestCluster` returning null: it does so only when every distance is at least `Double.MAX_VALUE`. The `NullPointerException` that follows is the `NoNearestCluster` error.
- `PaletteManager.Replace`: a null `newColor` is not modelled (the colour parameter is always present). In Java it throws a `NullPointerException` as soon as it is compared with another entry, or when it is printed.
- The add, remove and replace result messages: only the success flag and the entries they carry are modelled, as `AddResult`, `RemoveResult` and `ReplaceResult`.
- `ColorModel.DigitValue`, `ColorModel.ParseHexPair` and `ColorModel.ParseHexToRgb`: only the ASCII digits 0-9, A-F and a-f are hexadecimal digits. `Integer.parseInt` uses `Character.digit`, which also accepts other Unicode decimal digits and the fullwidth letters, so Java reads "#٠٠٠٠٠٠" as black and "ＦＦ0000" as red where the model reports bad digits.
- `ColorModel.ParseHexToRgb`: a string is a sequence of Unicode scalar values, while `String.length` counts UTF-16 code units. A code holding a character outside the Basic Multilingual Plane, such as "#😀A", has a different length in the two, so the model can report a length error where Java reports a value error.
- `PaletteManager.Curated`, `PaletteManager.AddKeepsCurated` and `PaletteManager.ReplaceKeepsCurated`: palette entries are values. In Java a `PaletteColor` keeps the caller's `ColorEntry` object, and `getColorEntries` hands those same objects out. A later `setRGB` or `setHex` on a shared object changes the palette behind its back and can make two entries similar. The model does not capture this aliasing, and the invariant holds only as long as nobody mutates a shared entry.
- `ImageInputHandler` (decoding and resizing), the Spring controller and the session manager are not part of this model. A picture is its width, height and rows of ARGB words.
