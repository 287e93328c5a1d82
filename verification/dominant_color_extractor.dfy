/** DominantColorExtractor: the pipeline from a picture to at most maxColors dominant
    colours. The histogram is taken as it is when it is small (no more entries than asked
    for, or fewer than MinColorsForClustering); otherwise it is clustered with k = maxColors.
    Either way the answer is ranked by percentage. */
module DominantColorExtractor {
  import opened Wrappers
  import opened ColorModel
  import opened Sorting
  import opened ColorExtractor
  import Raster
  import ColorClusterer

  const DefaultMaxColors: int := 10

  /** Below this many distinct colours clustering is not worthwhile. */
  const MinColorsForClustering: int := 15

  /** A colour of the answer with its share of the visible pixels. */
  datatype DominantColor = DominantColor(color: Color, percentage: real, pixelCount: int)

  /** IllegalArgumentException for a null picture or a bad maxColors, and the
      RuntimeException that wraps any failure once the work has started. */
  datatype DominantError = NullImage | InvalidMaxColors | ExtractionFailed

  /** The ranking key of compareTo: larger percentages first. */
  function Percentage(d: DominantColor): real
  {
    d.percentage
  }

  /** shouldUseAllColors: no more colours than asked for, or too few to cluster. */
  predicate ShouldUseAllColors(allColors: seq<ColorCount>, maxColors: int)
  {
    if |allColors| <= maxColors then true
    else if |allColors| < MinColorsForClustering then true
    else false
  }

  /** When the histogram is clustered, k = maxColors is a valid k for clusterColors: a
      valid maxColors is at most 10, and clustering happens only from 15 colours on. */
  lemma ClusteringPrecondition(allColors: seq<ColorCount>, maxColors: int)
    requires 1 <= maxColors <= DefaultMaxColors && !ShouldUseAllColors(allColors, maxColors)
    ensures 1 <= maxColors < |allColors| && |allColors| >= MinColorsForClustering
  {
  }

  function FromColorCount(cc: ColorCount): DominantColor
  {
    DominantColor(cc.color, cc.percentage, cc.count)
  }

  function Min(a: int, b: int): int
  {
    if a <= b then a else b
  }

  /** convertToNaturalPalette on values: the first min(maxColors, n) entries, each with its
      colour, percentage and count. */
  function NaturalPalette(colorCounts: seq<ColorCount>, maxColors: int): (ds: seq<DominantColor>)
    ensures |ds| <= |colorCounts| && (maxColors >= 0 ==> |ds| == Min(maxColors, |colorCounts|))
    ensures forall i :: 0 <= i < |ds| ==>
      ds[i].color == colorCounts[i].color && ds[i].percentage == colorCounts[i].percentage
      && ds[i].pixelCount == colorCounts[i].count
  {
    var colorsToTake := if Min(maxColors, |colorCounts|) < 0 then 0 else Min(maxColors, |colorCounts|);
    seq(colorsToTake, i requires 0 <= i < colorsToTake => FromColorCount(colorCounts[i]))
  }

  /** convertToNaturalPalette: the loop appends one colour per entry taken. */
  method ConvertToNaturalPalette(colorCounts: seq<ColorCount>, maxColors: int) returns (result: seq<DominantColor>)
    ensures result == NaturalPalette(colorCounts, maxColors)
  {
    ghost var spec := NaturalPalette(colorCounts, maxColors);
    result := [];
    var colorsToTake := Min(maxColors, |colorCounts|);
    var i := 0;
    while i < colorsToTake
      invariant 0 <= i && i <= |spec| && result == spec[..i]
    {
      var cc := colorCounts[i];
      PrefixStep(spec, i);
      result := result + [DominantColor(cc.color, cc.percentage, cc.count)];
      i := i + 1;
    }
    Whole(spec);
  }

  function FromCluster(c: ColorClusterer.Cluster): DominantColor
  {
    DominantColor(c.center, c.totalPercentage, c.totalPixelCount)
  }

  /** The loop of clusterAndExtract on values: one colour per cluster, in order, with the
      cluster's centre colour and totals. */
  function FromClusters(vs: seq<ColorClusterer.Cluster>): (ds: seq<DominantColor>)
    ensures |ds| == |vs|
    ensures forall i :: 0 <= i < |vs| ==>
      ds[i].color == vs[i].center && ds[i].percentage == vs[i].totalPercentage
      && ds[i].pixelCount == vs[i].totalPixelCount
  {
    seq(|vs|, i requires 0 <= i < |vs| => FromCluster(vs[i]))
  }

  /** The loop of clusterAndExtract: a DominantColor per cluster, read off its fields. */
  method ReadClusters(clusters: seq<ColorClusterer.ColorCluster>) returns (result: seq<DominantColor>)
    ensures result == FromClusters(ColorClusterer.Values(clusters))
  {
    ghost var spec := FromClusters(ColorClusterer.Values(clusters));
    result := [];
    for i := 0 to |clusters|
      invariant result == spec[..i]
    {
      var cluster := clusters[i];
      PrefixStep(spec, i);
      result := result + [DominantColor(cluster.centerColor, cluster.totalPercentage, cluster.totalPixelCount)];
    }
    Whole(spec);
  }

  /** clusterAndExtract: cluster with k = maxColors, then one colour per cluster. */
  method ClusterAndExtract(cs: ColorSpace, allColors: seq<ColorCount>, maxColors: int, draws: nat -> real)
    returns (r: Result<seq<DominantColor>, ColorClusterer.ClusterError>)
    ensures r.Success? <==> ColorClusterer.Clustered(cs, Some(allColors), maxColors, draws).Success?
    ensures r.Success? ==> r.value == FromClusters(ColorClusterer.Clustered(cs, Some(allColors), maxColors, draws).value)
    ensures r.Failure? ==> r.error == ColorClusterer.Clustered(cs, Some(allColors), maxColors, draws).error
  {
    var clustered := ColorClusterer.ClusterColors(cs, Some(allColors), maxColors, draws);
    if clustered.Failure? {
      return Failure(clustered.error);
    }
    var result := ReadClusters(clustered.value);
    return Success(result);
  }

  /** The colours of the histogram, before the final ranking: none without a visible pixel,
      the histogram itself when it is small, the clusters otherwise. */
  function Unsorted(cs: ColorSpace, allColors: seq<ColorCount>, maxColors: int, draws: nat -> real)
    : Result<seq<DominantColor>, DominantError>
  {
    if allColors == [] then Success([])
    else if ShouldUseAllColors(allColors, maxColors) then Success(NaturalPalette(allColors, maxColors))
    else match ColorClusterer.Clustered(cs, Some(allColors), maxColors, draws)
         case Failure(_) => Failure(ExtractionFailed)
         case Success(vs) => Success(FromClusters(vs))
  }

  /** extractDominantColors(image, maxColors) on values: the null check, then the maxColors
      check, then the pipeline, ranked by percentage (a stable sort). */
  function Dominant(cs: ColorSpace, image: Option<Raster.Image>, maxColors: int, draws: nat -> real)
    : (r: Result<seq<DominantColor>, DominantError>)
    requires image.Some? ==> Raster.Valid(image.value)
    ensures image.None? ==> r == Failure(DominantError.NullImage)
    ensures image.Some? && (maxColors < 1 || maxColors > DefaultMaxColors) ==> r == Failure(InvalidMaxColors)
    ensures r.Success? ==> SortedDesc(r.value, Percentage)
  {
    if image.None? then Failure(DominantError.NullImage)
    else if maxColors < 1 || maxColors > DefaultMaxColors then Failure(InvalidMaxColors)
    else
      match Unsorted(cs, Histogram(Raster.Pixels(image.value)), maxColors, draws)
      case Failure(e) => Failure(e)
      case Success(ds) => Success(SortDesc(ds, Percentage))
  }

  /** extractDominantColors(image, maxColors); draws are the values of the clusterer's
      generator. */
  method ExtractDominantColors(cs: ColorSpace, image: Option<Raster.Image>, maxColors: int, draws: nat -> real)
    returns (r: Result<seq<DominantColor>, DominantError>)
    requires image.Some? ==> Raster.Valid(image.value)
    ensures r == Dominant(cs, image, maxColors, draws)
  {
    if image.None? {
      return Failure(DominantError.NullImage);
    }
    if maxColors < 1 || maxColors > DefaultMaxColors {
      return Failure(InvalidMaxColors);
    }
    var extracted := ExtractColors(image);
    var allColors := extracted.value;
    if |allColors| == 0 {
      return Success([]);
    }
    var dominantColors: seq<DominantColor>;
    if ShouldUseAllColors(allColors, maxColors) {
      dominantColors := ConvertToNaturalPalette(allColors, maxColors);
    } else {
      var clustered := ClusterAndExtract(cs, allColors, maxColors, draws);
      if clustered.Failure? {
        return Failure(ExtractionFailed);
      }
      dominantColors := clustered.value;
    }
    dominantColors := SortDesc(dominantColors, Percentage);
    return Success(dominantColors);
  }

  /** extractDominantColors(image): up to DefaultMaxColors colours. */
  method ExtractDominantColorsDefault(cs: ColorSpace, image: Option<Raster.Image>, draws: nat -> real)
    returns (r: Result<seq<DominantColor>, DominantError>)
    requires image.Some? ==> Raster.Valid(image.value)
    ensures r == Dominant(cs, image, DefaultMaxColors, draws)
  {
    r := ExtractDominantColors(cs, image, DefaultMaxColors, draws);
  }

  // ---------------------------------------------------------------------------------------
  // Properties
  // ---------------------------------------------------------------------------------------

  /** A picture without a visible pixel has no dominant colour. */
  lemma NoVisibleColors(cs: ColorSpace, image: Raster.Image, maxColors: int, draws: nat -> real)
    requires Raster.Valid(image) && 1 <= maxColors <= DefaultMaxColors
    requires forall i :: 0 <= i < |Raster.Pixels(image)| ==> !IsVisible(Raster.Pixels(image)[i])
    ensures Dominant(cs, Some(image), maxColors, draws) == Success([])
  {
    AllTransparent(Raster.Pixels(image));
  }

  /** A successful extraction returns at most maxColors colours; exactly maxColors when the
      histogram was clustered, and all min(maxColors, n) first entries otherwise. */
  lemma DominantCount(cs: ColorSpace, image: Raster.Image, maxColors: int, draws: nat -> real)
    requires Raster.Valid(image)
    requires Dominant(cs, Some(image), maxColors, draws).Success?
    ensures 1 <= maxColors <= DefaultMaxColors
    ensures var all := Histogram(Raster.Pixels(image));
      |Dominant(cs, Some(image), maxColors, draws).value| == if ShouldUseAllColors(all, maxColors) then Min(maxColors, |all|) else maxColors
  {
    var all := Histogram(Raster.Pixels(image));
    if all != [] && !ShouldUseAllColors(all, maxColors) {
      ClusteringPrecondition(all, maxColors);
      ColorClusterer.ClusteredShape(cs, all, maxColors, draws);
    }
  }

  /** A larger count never gets a smaller share of the same total. */
  lemma PercentageMonotone(a: int, b: int, total: int)
    requires a <= b
    ensures PercentageOf(a, total) <= PercentageOf(b, total)
  {
    if total > 0 {
      assert (b - a) as real * 100.0 >= 0.0;
      assert PercentageOf(b, total) - PercentageOf(a, total) == (b - a) as real * 100.0 / total as real;
    }
  }

  /** The first entries of a list ranked by count, with shares of one total, are ranked by
      share too, so the final sort leaves them as they are. */
  lemma PaletteRanked(all: seq<ColorCount>, maxColors: int, total: int)
    requires SortedDesc(all, CountValue) && Shares(all, total)
    ensures SortDesc(NaturalPalette(all, maxColors), Percentage) == NaturalPalette(all, maxColors)
  {
    var palette := NaturalPalette(all, maxColors);
    forall i, j | 0 <= i < j < |palette| ensures Percentage(palette[i]) >= Percentage(palette[j]) {
      assert CountValue(all[i]) >= CountValue(all[j]);
      PercentageMonotone(all[j].count, all[i].count, total);
    }
    SortSortedIsIdentity(palette, Percentage);
  }

  /** When the histogram is small the final sort changes nothing: the answer is exactly the
      first min(maxColors, n) entries of the histogram, in its order, because the histogram
      is ranked by count and a share grows with the count. */
  lemma PassThrough(cs: ColorSpace, image: Raster.Image, maxColors: int, draws: nat -> real)
    requires Raster.Valid(image) && 1 <= maxColors <= DefaultMaxColors
    requires ShouldUseAllColors(Histogram(Raster.Pixels(image)), maxColors)
    ensures Dominant(cs, Some(image), maxColors, draws) == Success(NaturalPalette(Histogram(Raster.Pixels(image)), maxColors))
  {
    PaletteOfHistogram(Raster.Pixels(image), maxColors);
  }

  lemma PaletteOfHistogram(ps: seq<bv32>, maxColors: int)
    ensures SortDesc(NaturalPalette(Histogram(ps), maxColors), Percentage) == NaturalPalette(Histogram(ps), maxColors)
  {
    HistogramRanked(ps);
    HistogramShares(ps);
    PaletteRanked(Histogram(ps), maxColors, VisibleCount(ps));
  }

  /** Entries drawn from a list of shares of total are shares of total, scaled back. */
  lemma DrawnScaled(all: seq<ColorCount>, total: int, members: seq<ColorCount>)
    requires Shares(all, total) && total > 0
    requires multiset(members) <= multiset(all)
    ensures Scaled(members, total as real)
  {
    forall i | 0 <= i < |members|
      ensures members[i].percentage * total as real == members[i].count as real * 100.0
    {
      assert members[i] in multiset(members);
      var j :| 0 <= j < |all| && all[j] == members[i];
      PercentageScales(members[i].count, total);
    }
  }

  /** The cluster's percentage is its pixel count's share of total. */
  predicate HasShare(c: ColorClusterer.Cluster, total: int)
  {
    c.totalPercentage * total as real == c.totalPixelCount as real * 100.0
  }

  /** A cluster made of entries whose percentages are shares of total has the share of total
      its count gives it. */
  lemma ClusterShare(all: seq<ColorCount>, total: int, c: ColorClusterer.Cluster)
    requires Shares(all, total) && total > 0
    requires ColorClusterer.Tallied(c) && multiset(c.members) <= multiset(all)
    ensures HasShare(c, total)
  {
    DrawnScaled(all, total, c.members);
    SumScaled(c.members, total as real);
  }

  /** Of two clusters with shares of one total, the one with more pixels has the larger
      share. */
  lemma ShareOrder(c: ColorClusterer.Cluster, d: ColorClusterer.Cluster, total: int)
    requires total > 0 && HasShare(c, total) && HasShare(d, total)
    requires c.totalPixelCount >= d.totalPixelCount
    ensures c.totalPercentage >= d.totalPercentage
  {
    assert (c.totalPercentage - d.totalPercentage) * total as real >= 0.0;
  }

  lemma {:induction false} SumFromClusters(vs: seq<ColorClusterer.Cluster>)
    ensures Sum(FromClusters(vs), Percentage) == Sum(vs, ColorClusterer.ClusterPercentage)
  {
    if vs != [] {
      var n := |vs| - 1;
      assert FromClusters(vs)[..n] == FromClusters(vs[..n]);
      SumFromClusters(vs[..n]);
    }
  }

  /** Every cluster of a split of a list of shares of total has its own share of total. */
  lemma ClustersScaled(all: seq<ColorCount>, total: int, vs: seq<ColorClusterer.Cluster>, i: int)
    requires Shares(all, total) && total > 0 && 0 <= i < |vs|
    requires Union(vs, ColorClusterer.MembersOf) == multiset(all) && ColorClusterer.Tallied(vs[i])
    ensures HasShare(vs[i], total)
  {
    assert multiset(vs[i].members) <= multiset(all) by {
      UnionContains(vs, i, ColorClusterer.MembersOf);
    }
    ClusterShare(all, total, vs[i]);
  }

  /** Clusters that split a list of shares of one total, ranked by pixel count, are ranked
      by share too. */
  lemma ClustersRanked(all: seq<ColorCount>, total: int, vs: seq<ColorClusterer.Cluster>)
    requires Shares(all, total) && total > 0
    requires ColorClusterer.Conserves(all, vs) && SortedDesc(vs, ColorClusterer.PixelCount)
    ensures SortedDesc(FromClusters(vs), Percentage)
  {
    var ds := FromClusters(vs);
    forall i, j | 0 <= i < j < |ds| ensures Percentage(ds[i]) >= Percentage(ds[j]) {
      assert ColorClusterer.PixelCount(vs[i]) >= ColorClusterer.PixelCount(vs[j]);
      ClustersScaled(all, total, vs, i);
      ClustersScaled(all, total, vs, j);
      ShareOrder(vs[i], vs[j], total);
    }
  }

  /** The final sort leaves a split of a list of shares, ranked by pixel count, as it is,
      and the clusters' shares add up to the list's. */
  lemma SplitKeptInOrder(all: seq<ColorCount>, total: int, vs: seq<ColorClusterer.Cluster>)
    requires Shares(all, total) && total > 0
    requires ColorClusterer.Conserves(all, vs) && SortedDesc(vs, ColorClusterer.PixelCount)
    ensures SortDesc(FromClusters(vs), Percentage) == FromClusters(vs)
    ensures Sum(FromClusters(vs), Percentage) == Sum(all, PercentageValue)
  {
    ClustersRanked(all, total, vs);
    SortSortedIsIdentity(FromClusters(vs), Percentage);
    SumFromClusters(vs);
  }

  /** When the histogram is clustered, the clusters come ranked by pixel count, and so by
      share: the final sort changes nothing, and the shares add up to 100 percent. */
  lemma ClusteredRanked(cs: ColorSpace, image: Raster.Image, maxColors: int, draws: nat -> real)
    requires Raster.Valid(image) && 1 <= maxColors <= DefaultMaxColors
    requires Histogram(Raster.Pixels(image)) != [] && !ShouldUseAllColors(Histogram(Raster.Pixels(image)), maxColors)
    requires ColorClusterer.Clustered(cs, Some(Histogram(Raster.Pixels(image))), maxColors, draws).Success?
    ensures Dominant(cs, Some(image), maxColors, draws)
      == Success(FromClusters(ColorClusterer.Clustered(cs, Some(Histogram(Raster.Pixels(image))), maxColors, draws).value))
    ensures Sum(Dominant(cs, Some(image), maxColors, draws).value, Percentage) == 100.0
  {
    var ps := Raster.Pixels(image);
    var vs := ColorClusterer.Clustered(cs, Some(Histogram(ps)), maxColors, draws).value;
    assert Unsorted(cs, Histogram(ps), maxColors, draws) == Success(FromClusters(vs));
    ClusteringPrecondition(Histogram(ps), maxColors);
    ColorClusterer.ClusteredShape(cs, Histogram(ps), maxColors, draws);
    HistogramKeptInOrder(ps, vs);
  }

  /** A split of a histogram ranked by pixel count stays as it is under the final sort, and
      its shares add up to 100 percent. */
  lemma HistogramKeptInOrder(ps: seq<bv32>, vs: seq<ColorClusterer.Cluster>)
    requires Histogram(ps) != []
    requires ColorClusterer.Conserves(Histogram(ps), vs) && SortedDesc(vs, ColorClusterer.PixelCount)
    ensures SortDesc(FromClusters(vs), Percentage) == FromClusters(vs)
    ensures Sum(FromClusters(vs), Percentage) == 100.0
  {
    var total := HistogramShape(ps);
    SplitKeptInOrder(Histogram(ps), total, vs);
  }

  /** A non-empty histogram lists shares of a positive number of visible pixels, which add
      up to 100 percent. */
  lemma HistogramShape(ps: seq<bv32>) returns (total: int)
    requires Histogram(ps) != []
    ensures total == VisibleCount(ps) && total > 0
    ensures Shares(Histogram(ps), total) && Sum(Histogram(ps), PercentageValue) == 100.0
  {
    total := VisibleCount(ps);
    HistogramShares(ps);
    VisibleWhenListed(ps);
    HistogramTotals(ps);
  }
}
