/** RegionalColorExtractor: the colour picker. A click either reads one pixel exactly (the
    eyedropper) or looks at a small window around the click, clamped to the picture, and
    picks the window's most representative colour. */
module RegionalColorExtractor {
  import opened Wrappers
  import opened ColorModel
  import opened Sorting
  import opened ColorExtractor
  import Raster
  import ColorQuantizer

  const DefaultRegionSize: int := 20
  const MinRegionSize: int := 5
  const MaxRegionSize: int := 50

  /** The Delta-E threshold findRepresentativeColor passes to quantizeColors (the int 1,
      widened to a double). */
  const RegionThreshold: real := 1.0

  /** The IllegalArgumentExceptions of the input checks, and the RuntimeException that wraps
      any failure after them. */
  datatype RegionError = NullImage | ClickXOutOfRange | ClickYOutOfRange | RegionSizeOutOfRange | ExtractionFailed

  /** The click lies on the picture. */
  predicate OnImage(image: Raster.Image, clickX: int, clickY: int)
  {
    0 <= clickX < image.width && 0 <= clickY < image.height
  }

  /** The two click checks extractExactPixel shares with validateInputs: null picture, then
      clickX, then clickY. */
  function CheckClick(image: Option<Raster.Image>, clickX: int, clickY: int): (o: Outcome<RegionError>)
    ensures o.Pass? <==> image.Some? && OnImage(image.value, clickX, clickY)
    ensures image.None? ==> o == Fail(RegionError.NullImage)
    ensures image.Some? && !(0 <= clickX < image.value.width) ==> o == Fail(ClickXOutOfRange)
    ensures image.Some? && 0 <= clickX < image.value.width && !(0 <= clickY < image.value.height) ==>
      o == Fail(ClickYOutOfRange)
  {
    if image.None? then Fail(RegionError.NullImage)
    else if clickX < 0 || clickX >= image.value.width then Fail(ClickXOutOfRange)
    else if clickY < 0 || clickY >= image.value.height then Fail(ClickYOutOfRange)
    else Pass
  }

  /** validateInputs: the click checks, then regionSize within 5..50. */
  function ValidateInputs(image: Option<Raster.Image>, clickX: int, clickY: int, regionSize: int): (o: Outcome<RegionError>)
    ensures o.Pass? <==>
      image.Some? && OnImage(image.value, clickX, clickY) && MinRegionSize <= regionSize <= MaxRegionSize
    ensures CheckClick(image, clickX, clickY).Fail? ==> o == CheckClick(image, clickX, clickY)
    ensures CheckClick(image, clickX, clickY).Pass? && !(MinRegionSize <= regionSize <= MaxRegionSize) ==>
      o == Fail(RegionSizeOutOfRange)
  {
    match CheckClick(image, clickX, clickY)
    case Fail(e) => Fail(e)
    case Pass =>
      if regionSize < MinRegionSize || regionSize > MaxRegionSize then Fail(RegionSizeOutOfRange) else Pass
  }

  /** The window: [startX, endX) by [startY, endY). */
  datatype RegionBounds = RegionBounds(startX: int, endX: int, startY: int, endY: int)

  function ActualWidth(b: RegionBounds): int
  {
    b.endX - b.startX
  }

  function ActualHeight(b: RegionBounds): int
  {
    b.endY - b.startY
  }

  /** Java's int division by 2, which truncates toward zero. */
  function Half(n: int): (h: int)
    ensures n >= 0 ==> h == n / 2
  {
    if n >= 0 then n / 2 else -((-n) / 2)
  }

  function Max(a: int, b: int): int
  {
    if a >= b then a else b
  }

  function Min(a: int, b: int): int
  {
    if a <= b then a else b
  }

  /** One axis of calculateRegionBounds: centred on the click, clamped to [0, dim), and
      widened to one pixel when the clamping leaves nothing. The window is never empty; for
      a click on the axis it lies on the axis and holds the click, is at most 2 * halfSize
      wide, is exactly [click - halfSize, click + halfSize) when that fits, and starts at 0
      when the ideal start is not positive. */
  function AxisBounds(click: int, halfSize: int, dim: int): (r: (int, int))
    ensures r.0 < r.1
    ensures 0 <= click < dim && halfSize >= 0 ==> 0 <= r.0 <= click < r.1 <= dim
    ensures 0 <= click < dim && halfSize >= 1 ==> r.1 - r.0 <= 2 * halfSize
    ensures halfSize >= 1 && click - halfSize >= 0 && click + halfSize <= dim ==>
      r == (click - halfSize, click + halfSize)
    ensures click - halfSize <= 0 ==> r.0 == 0
  {
    var start := Max(0, click - halfSize);
    var end := Min(dim, click + halfSize);
    if end <= start then (start, start + 1) else (start, end)
  }

  /** calculateRegionBounds. */
  function CalculateRegionBounds(width: int, height: int, clickX: int, clickY: int, regionSize: int): (b: RegionBounds)
    ensures (b.startX, b.endX) == AxisBounds(clickX, Half(regionSize), width)
    ensures (b.startY, b.endY) == AxisBounds(clickY, Half(regionSize), height)
  {
    var halfSize := Half(regionSize);
    var x := AxisBounds(clickX, halfSize, width);
    var y := AxisBounds(clickY, halfSize, height);
    RegionBounds(x.0, x.1, y.0, y.1)
  }

  /** For validated inputs: 0 <= start <= click < end <= dimension on both axes, each side
      at most 2 * (regionSize / 2) and exactly that when the window is not clamped, and a
      click on the first row or column starts the window there. */
  lemma BoundsInside(image: Raster.Image, clickX: int, clickY: int, regionSize: int)
    requires OnImage(image, clickX, clickY) && MinRegionSize <= regionSize <= MaxRegionSize
    ensures var b := CalculateRegionBounds(image.width, image.height, clickX, clickY, regionSize);
      0 <= b.startX <= clickX < b.endX <= image.width && 0 <= b.startY <= clickY < b.endY <= image.height
    ensures var b := CalculateRegionBounds(image.width, image.height, clickX, clickY, regionSize);
      1 <= ActualWidth(b) <= 2 * (regionSize / 2) && 1 <= ActualHeight(b) <= 2 * (regionSize / 2)
    ensures var b := CalculateRegionBounds(image.width, image.height, clickX, clickY, regionSize);
      var h := regionSize / 2;
      (clickX - h >= 0 && clickX + h <= image.width ==> ActualWidth(b) == 2 * h)
      && (clickY - h >= 0 && clickY + h <= image.height ==> ActualHeight(b) == 2 * h)
    ensures var b := CalculateRegionBounds(image.width, image.height, clickX, clickY, regionSize);
      (clickX == 0 ==> b.startX == 0) && (clickY == 0 ==> b.startY == 0)
  {
  }

  /** extractRegionImage: getSubimage over the window. */
  function RegionImage(image: Raster.Image, b: RegionBounds): (region: Raster.Image)
    requires Raster.Valid(image)
    requires 0 <= b.startX <= b.endX <= image.width && 0 <= b.startY <= b.endY <= image.height
    ensures Raster.Valid(region) && region.width == ActualWidth(b) && region.height == ActualHeight(b)
    ensures forall i, j :: 0 <= i < region.width && 0 <= j < region.height ==>
      Raster.PixelAt(region, i, j) == Raster.PixelAt(image, b.startX + i, b.startY + j)
  {
    Raster.SubImage(image, b.startX, b.startY, ActualWidth(b), ActualHeight(b))
  }

  /** The ColorEntry(255, 255, 255, "Fallback White") of an empty region. */
  const FallbackWhite: Color := Color(Rgb(255, 255, 255), DefaultAlpha, Some("Fallback White"))

  /** findRepresentativeColor over the region's histogram: white when it is empty, its most
      frequent colour when it has at most 3 entries, otherwise the representative of the
      heaviest group that quantizing with threshold 1.0 gives (the most frequent colour
      again if there were no group, which ComplexRegionPicksHeaviestGroup rules out). */
  function RepresentativeColor(cs: ColorSpace, regionColors: seq<ColorCount>): (c: Color)
    ensures regionColors == [] ==> c == FallbackWhite
    ensures 1 <= |regionColors| <= 3 ==> c == regionColors[0].color
    ensures |regionColors| > 3 ==>
      var gs := ColorQuantizer.Quantize(cs, Some(regionColors), RegionThreshold);
      gs != [] ==>
        c == gs[0].representative
        && forall i :: 0 <= i < |gs| ==> ColorQuantizer.GroupCount(gs[i]) <= ColorQuantizer.GroupCount(gs[0])
  {
    if regionColors == [] then FallbackWhite
    else if |regionColors| <= 3 then regionColors[0].color
    else
      var gs := ColorQuantizer.Quantize(cs, Some(regionColors), RegionThreshold);
      if gs != [] then gs[0].representative else regionColors[0].color
  }

  /** extractFromRegion(image, clickX, clickY, regionSize): the input checks, then the
      representative colour of the window's histogram. */
  function FromRegion(cs: ColorSpace, image: Option<Raster.Image>, clickX: int, clickY: int, regionSize: int)
    : (r: Result<Color, RegionError>)
    requires image.Some? ==> Raster.Valid(image.value)
    ensures r.Failure? <==> ValidateInputs(image, clickX, clickY, regionSize).Fail?
    ensures r.Failure? ==> r.error == ValidateInputs(image, clickX, clickY, regionSize).error
  {
    match ValidateInputs(image, clickX, clickY, regionSize)
    case Fail(e) => Failure(e)
    case Pass =>
      var img := image.value;
      var b := CalculateRegionBounds(img.width, img.height, clickX, clickY, regionSize);
      BoundsInside(img, clickX, clickY, regionSize);
      var region := RegionImage(img, b);
      Success(RepresentativeColor(cs, Histogram(Raster.Pixels(region))))
  }

  /** extractFromRegion(image, clickX, clickY): the default 20 by 20 window. */
  function FromRegionDefault(cs: ColorSpace, image: Option<Raster.Image>, clickX: int, clickY: int)
    : (r: Result<Color, RegionError>)
    requires image.Some? ==> Raster.Valid(image.value)
    ensures r.Failure? <==> CheckClick(image, clickX, clickY).Fail?
  {
    FromRegion(cs, image, clickX, clickY, DefaultRegionSize)
  }

  /** The ColorEntry extractExactPixel builds, named "Exact Pixel". */
  const ExactPixelName: string := "Exact Pixel"

  /** extractExactPixel: the click checks, then the pixel's channels by unsigned shifts and
      masks, alpha over 255.0. The constructor's validation cannot fail on those values, so
      the wrapping RuntimeException never happens, and the colour read is the one the
      histogram gives the pixel, named "Exact Pixel". */
  function ExactPixel(image: Option<Raster.Image>, clickX: int, clickY: int): (r: Result<Color, RegionError>)
    requires image.Some? ==> Raster.Valid(image.value)
    ensures r.Failure? <==> CheckClick(image, clickX, clickY).Fail?
    ensures r.Failure? ==> r.error == CheckClick(image, clickX, clickY).error
    ensures r.Success? ==>
      ValidColor(r.value) && r.value == PixelColor(Raster.PixelAt(image.value, clickX, clickY)).(name := Some(ExactPixelName))
  {
    match CheckClick(image, clickX, clickY)
    case Fail(e) => Failure(e)
    case Pass =>
      var argb := Raster.PixelAt(image.value, clickX, clickY);
      var alpha := Raster.AlphaOf(argb);
      var red := Raster.RedOf(argb);
      var green := Raster.GreenOf(argb);
      var blue := Raster.BlueOf(argb);
      var normalizedAlpha := alpha as real / 255.0;
      match NewColor(red, green, blue, Some(ExactPixelName), normalizedAlpha)
      case Failure(_) => Failure(ExtractionFailed)
      case Success(c) => Success(c)
  }

  // ---------------------------------------------------------------------------------------
  // Properties
  // ---------------------------------------------------------------------------------------

  /** The last fallback of findRepresentativeColor is dead: a region of more than three
      colours always quantizes to at least one group, and the pick is the heaviest one's
      representative. */
  lemma ComplexRegionPicksHeaviestGroup(cs: ColorSpace, regionColors: seq<ColorCount>)
    requires |regionColors| > 3
    ensures var gs := ColorQuantizer.Quantize(cs, Some(regionColors), RegionThreshold);
      gs != [] && RepresentativeColor(cs, regionColors) == gs[0].representative
  {
    ColorQuantizer.QuantizeSomething(cs, regionColors, RegionThreshold);
  }

  /** In a region of at most three colours the pick is the colour of a visible pixel of the
      window, and no colour of the window is more frequent. */
  lemma SimpleRegionPicksPixel(ps: seq<bv32>, cs: ColorSpace)
    requires 1 <= |Histogram(ps)| <= 3
    ensures exists i :: 0 <= i < |ps| && IsVisible(ps[i]) && RepresentativeColor(cs, Histogram(ps)) == PixelColor(ps[i])
    ensures forall e :: e in Histogram(ps) ==> e.count <= Histogram(ps)[0].count
  {
    var all := Histogram(ps);
    HistogramEntries(ps, all[0]);
    var i := FirstWithKey(ps, RgbKey(all[0].color.rgb));
    assert RepresentativeColor(cs, all) == PixelColor(ps[i]);
    HistogramRanked(ps);
    forall e | e in all ensures e.count <= all[0].count {
      var j :| 0 <= j < |all| && all[j] == e;
      if j > 0 {
        assert CountValue(all[0]) >= CountValue(all[j]);
      }
    }
  }
}
