/** ColorExtractor: the exact colour histogram of an image. Every opaque enough pixel is
    counted under its RGB value (alpha ignored in the key); each distinct colour gets its
    share of the visible pixels, and the list is ranked most frequent first. */
module ColorExtractor {
  import opened Wrappers
  import opened ColorModel
  import opened Sorting
  import Raster

  /** Pixels whose alpha is below this are transparent and are not counted. */
  const AlphaThreshold: int := 128

  /** One colour of the histogram: the colour, how many visible pixels have it, and its
      share of all visible pixels in percent. */
  datatype ColorCount = ColorCount(color: Color, count: int, percentage: real)

  datatype ExtractError = NullImage | NonPositiveLimit

  /** A fresh entry: count and percentage start at zero. */
  function NewColorCount(c: Color): ColorCount
  {
    ColorCount(c, 0, 0.0)
  }

  /** increment() */
  function Increment(cc: ColorCount): ColorCount
  {
    cc.(count := cc.count + 1)
  }

  /** The share computed by setPercentage: zero when there is no visible pixel. */
  function PercentageOf(count: int, total: int): real
  {
    if total <= 0 then 0.0 else count as real * 100.0 / total as real
  }

  /** A share scaled back by the total gives the count in hundredths; a part of the total is
      between 0 and 100 percent. */
  lemma PercentageScales(count: int, total: int)
    ensures total <= 0 ==> PercentageOf(count, total) == 0.0
    ensures total > 0 ==> PercentageOf(count, total) * total as real == count as real * 100.0
    ensures total > 0 && 0 <= count <= total ==> 0.0 <= PercentageOf(count, total) <= 100.0
  {
    if total > 0 && 0 <= count <= total {
      assert count as real * 100.0 <= total as real * 100.0;
    }
  }

  /** setPercentage(totalPixels) */
  function WithPercentage(cc: ColorCount, total: int): ColorCount
  {
    cc.(percentage := PercentageOf(cc.count, total))
  }

  /** The ranking key of compareTo (larger counts first), also the value summed by totals. */
  function CountValue(cc: ColorCount): real
  {
    cc.count as real
  }

  function PercentageValue(cc: ColorCount): real
  {
    cc.percentage
  }

  function RgbOfCount(cc: ColorCount): Rgb
  {
    cc.color.rgb
  }

  /** equals(): two entries are equal when their counts and colours are. The percentage
      takes no part. */
  predicate SameCountAndColor(a: ColorCount, b: ColorCount)
  {
    a.count == b.count && a.color == b.color
  }

  lemma SameCountAndColorIgnoresPercentage(a: ColorCount, total: int)
    ensures SameCountAndColor(a, WithPercentage(a, total))
    ensures total > 0 && a.count != 0 && PercentageOf(a.count, total) != a.percentage ==>
      a != WithPercentage(a, total)
  {
  }

  predicate IsVisible(p: bv32)
  {
    Raster.AlphaOf(p) >= AlphaThreshold
  }

  function PixelRgb(p: bv32): (c: Rgb)
    ensures ValidRgb(c)
  {
    Rgb(Raster.RedOf(p), Raster.GreenOf(p), Raster.BlueOf(p))
  }

  /** (red << 16) | (green << 8) | blue, which for components in 0..255 is this sum. */
  function RgbKey(c: Rgb): int
  {
    c.red * 65536 + c.green * 256 + c.blue
  }

  /** The key loses nothing: different colours never share a map slot. */
  lemma RgbKeyInjective(c1: Rgb, c2: Rgb)
    requires ValidRgb(c1) && ValidRgb(c2)
    ensures RgbKey(c1) == RgbKey(c2) <==> c1 == c2
  {
  }

  function Key(p: bv32): int
  {
    RgbKey(PixelRgb(p))
  }

  /** The ColorEntry made for the first pixel of a colour: its RGB, its alpha over 255. */
  function PixelColor(p: bv32): (c: Color)
    ensures ValidColor(c) && c.rgb == PixelRgb(p) && c.name == None
  {
    Color(PixelRgb(p), Raster.AlphaOf(p) as real / 255.0, None)
  }

  /** What the loop has built after a prefix of the pixels: the keys in the order they were
      first met (the model's iteration order for the map), the map, and both counters. */
  datatype Tally = Tally(keys: seq<int>, counts: map<int, ColorCount>, processed: int, transparent: int)

  predicate DistinctKeys(keys: seq<int>)
  {
    forall i, j :: 0 <= i < j < |keys| ==> keys[i] != keys[j]
  }

  /** The keys are distinct and each has its map entry. */
  predicate WellFormed(t: Tally)
  {
    DistinctKeys(t.keys) && forall i :: 0 <= i < |t.keys| ==> t.keys[i] in t.counts
  }

  /** One turn of the loop. */
  function Step(t: Tally, p: bv32): Tally
  {
    if !IsVisible(p) then t.(processed := t.processed + 1, transparent := t.transparent + 1)
    else if Key(p) in t.counts then
      t.(processed := t.processed + 1, counts := t.counts[Key(p) := Increment(t.counts[Key(p)])])
    else
      t.(processed := t.processed + 1, keys := t.keys + [Key(p)],
         counts := t.counts[Key(p) := Increment(NewColorCount(PixelColor(p)))])
  }

  /** The loop over a list of pixels. */
  function Scan(ps: seq<bv32>): (t: Tally)
    ensures t.processed == |ps| && 0 <= t.transparent <= t.processed
    ensures WellFormed(t)
  {
    if ps == [] then Tally([], map[], 0, 0)
    else
      var t := Scan(ps[..|ps| - 1]);
      Step(t, ps[|ps| - 1])
  }

  /** How many transparent pixels a list holds. */
  function TransparentCount(ps: seq<bv32>): (n: nat)
    ensures n <= |ps|
  {
    if ps == [] then 0
    else TransparentCount(ps[..|ps| - 1]) + (if IsVisible(ps[|ps| - 1]) then 0 else 1)
  }

  /** How many pixels of a list are visible: the total every share is taken of. */
  function VisibleCount(ps: seq<bv32>): int
  {
    |ps| - TransparentCount(ps)
  }

  /** How many visible pixels of a list have colour key k. */
  function CountKey(ps: seq<bv32>, k: int): nat
  {
    if ps == [] then 0
    else CountKey(ps[..|ps| - 1], k) + (if IsVisible(ps[|ps| - 1]) && Key(ps[|ps| - 1]) == k then 1 else 0)
  }

  /** Where the first visible pixel with colour key k is. */
  function FirstWithKey(ps: seq<bv32>, k: int): (i: nat)
    requires CountKey(ps, k) > 0
    ensures i < |ps| && IsVisible(ps[i]) && Key(ps[i]) == k
  {
    var n := |ps| - 1;
    if CountKey(ps[..n], k) > 0 then FirstWithKey(ps[..n], k) else n
  }

  /** No visible pixel before it has that colour. */
  lemma {:induction false} FirstWithKeyIsFirst(ps: seq<bv32>, k: int)
    requires CountKey(ps, k) > 0
    ensures CountKey(ps[..FirstWithKey(ps, k)], k) == 0
  {
    var n := |ps| - 1;
    if CountKey(ps[..n], k) > 0 {
      FirstWithKeyIsFirst(ps[..n], k);
      assert ps[..n][..FirstWithKey(ps[..n], k)] == ps[..FirstWithKey(ps, k)];
    }
  }

  /** new ArrayList<>(colorMap.values()), in key order. */
  function Listing(keys: seq<int>, m: map<int, ColorCount>): (l: seq<ColorCount>)
    requires forall i :: 0 <= i < |keys| ==> keys[i] in m
    ensures |l| == |keys| && forall i :: 0 <= i < |keys| ==> l[i] == m[keys[i]]
  {
    if keys == [] then [] else Listing(keys[..|keys| - 1], m) + [m[keys[|keys| - 1]]]
  }

  /** The loop calling setPercentage(total) on every entry. */
  function Percentages(l: seq<ColorCount>, total: int): (r: seq<ColorCount>)
    ensures |r| == |l| && forall i :: 0 <= i < |l| ==> r[i] == WithPercentage(l[i], total)
  {
    if l == [] then [] else Percentages(l[..|l| - 1], total) + [WithPercentage(l[|l| - 1], total)]
  }

  /** The entries with their percentages, before ranking: one per colour, in key order. */
  function Unranked(ps: seq<bv32>): (l: seq<ColorCount>)
    ensures |l| == |Scan(ps).keys|
  {
    Entries(Scan(ps))
  }

  /** The entries of a tally, in key order, with their shares of its visible pixels. */
  function Entries(t: Tally): (l: seq<ColorCount>)
    requires WellFormed(t)
    ensures |l| == |t.keys|
  {
    Percentages(Listing(t.keys, t.counts), t.processed - t.transparent)
  }

  /** The result of extractColors for a list of pixels. */
  function Histogram(ps: seq<bv32>): seq<ColorCount>
  {
    SortDesc(Unranked(ps), CountValue)
  }

  /** extractColors: null is refused; otherwise every pixel is read in bulk, counted, given
      its percentage and ranked. */
  method ExtractColors(image: Option<Raster.Image>) returns (r: Result<seq<ColorCount>, ExtractError>)
    requires image.Some? ==> Raster.Valid(image.value)
    ensures image.None? ==> r == Failure(NullImage)
    ensures image.Some? ==> r == Success(Histogram(Raster.Pixels(image.value)))
  {
    if image.None? {
      return Failure(NullImage);
    }
    var pixels := Raster.Pixels(image.value);
    var keys: seq<int> := [];
    var colorMap: map<int, ColorCount> := map[];
    var processed := 0;
    var transparent := 0;
    for i := 0 to |pixels|
      invariant Tally(keys, colorMap, processed, transparent) == Scan(pixels[..i])
    {
      assert pixels[..i + 1][..i] == pixels[..i];
      assert Scan(pixels[..i + 1]) == Step(Scan(pixels[..i]), pixels[i]);
      ghost var before := Tally(keys, colorMap, processed, transparent);
      var argb := pixels[i];
      processed := processed + 1;
      var alpha := Raster.AlphaOf(argb);
      if alpha < AlphaThreshold {
        transparent := transparent + 1;
        assert Tally(keys, colorMap, processed, transparent) == Step(before, argb);
        continue;
      }
      var red, green, blue := Raster.RedOf(argb), Raster.GreenOf(argb), Raster.BlueOf(argb);
      var rgbKey := red * 65536 + green * 256 + blue;
      assert IsVisible(argb) && rgbKey == Key(argb);
      var entry: ColorCount;
      if rgbKey in colorMap {
        entry := colorMap[rgbKey];
      } else {
        entry := NewColorCount(Color(Rgb(red, green, blue), alpha as real / 255.0, None));
        assert entry == NewColorCount(PixelColor(argb));
        keys := keys + [rgbKey];
      }
      colorMap := colorMap[rgbKey := Increment(entry)];
    }
    assert pixels[..|pixels|] == pixels;
    var visible := processed - transparent;
    var colorCounts := Listing(keys, colorMap);
    ghost var listed := colorCounts;
    for j := 0 to |colorCounts|
      invariant |colorCounts| == |listed|
      invariant forall q :: 0 <= q < j ==> colorCounts[q] == WithPercentage(listed[q], visible)
      invariant forall q :: j <= q < |listed| ==> colorCounts[q] == listed[q]
    {
      colorCounts := colorCounts[j := WithPercentage(colorCounts[j], visible)];
    }
    assert colorCounts == Percentages(listed, visible);
    colorCounts := SortDesc(colorCounts, CountValue);
    return Success(colorCounts);
  }

  function Min(a: int, b: int): int { if a <= b then a else b }

  /** extractTopColors: the limit is checked first, then the image; the result is the head
      of the full ranking. */
  method ExtractTopColors(image: Option<Raster.Image>, limit: int) returns (r: Result<seq<ColorCount>, ExtractError>)
    requires image.Some? ==> Raster.Valid(image.value)
    ensures limit <= 0 ==> r == Failure(NonPositiveLimit)
    ensures limit > 0 && image.None? ==> r == Failure(NullImage)
    ensures limit > 0 && image.Some? ==>
      r.Success? && |r.value| == Min(limit, |Histogram(Raster.Pixels(image.value))|)
      && r.value == Histogram(Raster.Pixels(image.value))[..|r.value|]
  {
    if limit <= 0 {
      return Failure(NonPositiveLimit);
    }
    var all := ExtractColors(image);
    if all.Failure? {
      return all;
    }
    var n := Min(limit, |all.value|);
    return Success(all.value[..n]);
  }

  /* ---------------------------------------------------------------------------------- */

  /** After the loop, each map entry is exactly the tally of its colour: its count is the
      number of visible pixels with that key, its colour is that of the first such pixel
      (alpha included), and its percentage is still zero. Colours never seen are absent. */
  lemma ScanEntries(ps: seq<bv32>, k: int)
    ensures k in Scan(ps).counts <==> CountKey(ps, k) > 0
    ensures k in Scan(ps).counts ==>
      var cc := Scan(ps).counts[k];
      cc.count == CountKey(ps, k) && cc.color == PixelColor(ps[FirstWithKey(ps, k)]) && cc.percentage == 0.0
  {
    ScanHas(ps, k);
    if k in Scan(ps).counts {
      ScanEntry(ps, k);
    }
  }

  /** What one pixel does to the entry of colour k. */
  lemma StepEntry(t: Tally, p: bv32, k: int)
    ensures k in Step(t, p).counts <==> k in t.counts || (IsVisible(p) && Key(p) == k)
    ensures k in Step(t, p).counts ==>
      Step(t, p).counts[k]
        == if !(IsVisible(p) && Key(p) == k) then t.counts[k]
           else if k in t.counts then Increment(t.counts[k])
           else Increment(NewColorCount(PixelColor(p)))
  {
  }

  lemma {:induction false} ScanHas(ps: seq<bv32>, k: int)
    ensures k in Scan(ps).counts <==> CountKey(ps, k) > 0
  {
    if ps != [] {
      var n := |ps| - 1;
      var q := ps[..n];
      ScanHas(q, k);
      assert Scan(ps) == Step(Scan(q), ps[n]);
    }
  }

  lemma {:induction false} ScanEntry(ps: seq<bv32>, k: int)
    requires k in Scan(ps).counts
    ensures CountKey(ps, k) > 0
    ensures var cc := Scan(ps).counts[k];
      cc.count == CountKey(ps, k) && cc.color == PixelColor(ps[FirstWithKey(ps, k)]) && cc.percentage == 0.0
  {
    ScanHas(ps, k);
    var n := |ps| - 1;
    var q := ps[..n];
    assert Scan(ps) == Step(Scan(q), ps[n]);
    StepEntry(Scan(q), ps[n], k);
    assert CountKey(ps, k) == CountKey(q, k) + (if IsVisible(ps[n]) && Key(ps[n]) == k then 1 else 0);
    ScanHas(q, k);
    if k in Scan(q).counts {
      ScanEntry(q, k);
      var f := FirstWithKey(q, k);
      assert FirstWithKey(ps, k) == f && ps[f] == q[f];
    } else {
      assert IsVisible(ps[n]) && Key(ps[n]) == k;
      assert FirstWithKey(ps, k) == n;
    }
  }

  /** Every colour in the map is in the key list. */
  lemma {:induction false} ScanKeysComplete(ps: seq<bv32>, k: int)
    ensures k in Scan(ps).counts ==> k in Scan(ps).keys
  {
    if ps != [] {
      var n := |ps| - 1;
      ScanKeysComplete(ps[..n], k);
      assert Scan(ps) == Step(Scan(ps[..n]), ps[n]);
    }
  }

  /** The transparent counter counts exactly the transparent pixels. */
  lemma {:induction false} ScanTransparent(ps: seq<bv32>)
    ensures Scan(ps).transparent == TransparentCount(ps)
  {
    if ps != [] {
      ScanTransparent(ps[..|ps| - 1]);
    }
  }

  lemma {:induction false} ListingOutside(keys: seq<int>, m: map<int, ColorCount>, k: int, v: ColorCount)
    requires forall i :: 0 <= i < |keys| ==> keys[i] in m
    requires k !in keys
    ensures Listing(keys, m[k := v]) == Listing(keys, m)
  {
  }

  lemma {:induction false} SumListingUpdate(keys: seq<int>, m: map<int, ColorCount>, k: int)
    requires forall i :: 0 <= i < |keys| ==> keys[i] in m
    requires DistinctKeys(keys) && k in keys
    ensures Sum(Listing(keys, m[k := Increment(m[k])]), CountValue) == Sum(Listing(keys, m), CountValue) + 1.0
  {
    var n := |keys| - 1;
    var m' := m[k := Increment(m[k])];
    var front := keys[..n];
    assert Listing(keys, m') == Listing(front, m') + [m'[keys[n]]];
    assert Listing(keys, m) == Listing(front, m) + [m[keys[n]]];
    if keys[n] == k {
      assert k !in front;
      ListingOutside(front, m, k, Increment(m[k]));
    } else {
      assert k in front;
      SumListingUpdate(front, m, k);
    }
  }

  /** One turn of the loop adds one to the total of the counts exactly when it counts a pixel. */
  lemma StepTotal(t: Tally, p: bv32)
    requires WellFormed(t) && WellFormed(Step(t, p))
    requires Key(p) in t.counts ==> Key(p) in t.keys
    ensures Sum(Listing(Step(t, p).keys, Step(t, p).counts), CountValue)
         == Sum(Listing(t.keys, t.counts), CountValue) + (if IsVisible(p) then 1.0 else 0.0)
  {
    if IsVisible(p) {
      var k := Key(p);
      if k in t.counts {
        SumListingUpdate(t.keys, t.counts, k);
      } else {
        var v := Increment(NewColorCount(PixelColor(p)));
        ListingOutside(t.keys, t.counts, k, v);
        assert Listing(t.keys + [k], t.counts[k := v]) == Listing(t.keys, t.counts[k := v]) + [v];
      }
    }
  }

  /** The counts of all listed colours add up to the visible pixels. */
  lemma {:induction false} ScanTotal(ps: seq<bv32>)
    ensures var t := Scan(ps); Sum(Listing(t.keys, t.counts), CountValue) == (t.processed - t.transparent) as real
  {
    if ps != [] {
      var n := |ps| - 1;
      var t := Scan(ps[..n]);
      ScanTotal(ps[..n]);
      ScanKeysComplete(ps[..n], Key(ps[n]));
      assert Scan(ps) == Step(t, ps[n]);
      StepTotal(t, ps[n]);
    }
  }

  /** Percentages add up like the counts they come from, scaled to 100 over the total. */
  /** Every entry's percentage, scaled back by t, is its count in hundredths. */
  predicate Scaled(l: seq<ColorCount>, t: real)
  {
    forall i :: 0 <= i < |l| ==> l[i].percentage * t == l[i].count as real * 100.0
  }

  /** Scaled entries add up to scaled totals. */
  lemma {:induction false} SumScaled(l: seq<ColorCount>, t: real)
    requires Scaled(l, t)
    ensures Sum(l, PercentageValue) * t == Sum(l, CountValue) * 100.0
  {
    if l != [] {
      var n := |l| - 1;
      assert Scaled(l[..n], t);
      SumScaled(l[..n], t);
    }
  }

  lemma PercentagesScaled(l: seq<ColorCount>, total: int)
    requires total > 0
    ensures Scaled(Percentages(l, total), total as real)
  {
    var r := Percentages(l, total);
    forall i | 0 <= i < |r| ensures r[i].percentage * total as real == r[i].count as real * 100.0 {
      PercentageScales(l[i].count, total);
    }
  }

  /** Setting percentages leaves the counts, hence their total, alone. */
  lemma {:induction false} SumKeepsCounts(l: seq<ColorCount>, total: int)
    ensures Sum(Percentages(l, total), CountValue) == Sum(l, CountValue)
  {
    if l != [] {
      var n := |l| - 1;
      SumKeepsCounts(l[..n], total);
      assert Percentages(l, total)[..n] == Percentages(l[..n], total);
    }
  }

  /** The i-th unranked entry is the tally of the i-th key. */
  lemma UnrankedEntry(ps: seq<bv32>, i: int)
    requires 0 <= i < |Unranked(ps)|
    ensures var e := Unranked(ps)[i]; var k := Scan(ps).keys[i];
      RgbKey(e.color.rgb) == k && e.count == CountKey(ps, k) && e.count >= 1
      && e.color == PixelColor(ps[FirstWithKey(ps, k)])
      && e.percentage == PercentageOf(e.count, VisibleCount(ps))
  {
    EntryAt(Scan(ps), i);
    ScanEntries(ps, Scan(ps).keys[i]);
    UnrankedShare(ps, i);
  }

  /** The i-th unranked entry's percentage is its count's share of the visible pixels. */
  lemma UnrankedShare(ps: seq<bv32>, i: int)
    requires 0 <= i < |Unranked(ps)|
    ensures Unranked(ps)[i].percentage == PercentageOf(Unranked(ps)[i].count, VisibleCount(ps))
  {
    var t := Scan(ps);
    EntryAt(t, i);
    ScanTransparent(ps);
    assert t.processed - t.transparent == VisibleCount(ps);
  }

  lemma EntryAt(t: Tally, i: int)
    requires WellFormed(t) && 0 <= i < |t.keys|
    ensures Entries(t)[i] == WithPercentage(t.counts[t.keys[i]], t.processed - t.transparent)
  {
  }

  /** Ranked most frequent first, and no RGB value twice. */
  lemma HistogramRanked(ps: seq<bv32>)
    ensures SortedDesc(Histogram(ps), CountValue) && InjectiveOn(Histogram(ps), RgbOfCount)
  {
    var l := Unranked(ps);
    forall i, j | 0 <= i < j < |l| ensures RgbOfCount(l[i]) != RgbOfCount(l[j]) {
      UnrankedEntry(ps, i);
      UnrankedEntry(ps, j);
      RgbKeyInjective(RgbOfCount(l[i]), RgbOfCount(l[j]));
    }
    PermutationKeepsInjective(l, Histogram(ps), RgbOfCount);
  }

  /** Each entry's count is the number of visible pixels of its colour (so at least one), its
      colour that of the first such pixel, and its percentage that count over all visible
      pixels. */
  lemma HistogramEntries(ps: seq<bv32>, e: ColorCount)
    requires e in Histogram(ps)
    ensures e.count == CountKey(ps, RgbKey(e.color.rgb)) && e.count >= 1
    ensures e.color == PixelColor(ps[FirstWithKey(ps, RgbKey(e.color.rgb))])
    ensures e.percentage == PercentageOf(e.count, VisibleCount(ps))
  {
    var l := Unranked(ps);
    assert multiset(Histogram(ps)) == multiset(l);
    assert e in multiset(l);
    var i :| 0 <= i < |l| && l[i] == e;
    UnrankedEntry(ps, i);
  }

  /** The counts add up to the visible pixels, and the percentages to 100 when there is any. */
  /** Every entry's percentage is its count's share of total. */
  predicate Shares(l: seq<ColorCount>, total: int)
  {
    forall i :: 0 <= i < |l| ==> l[i].percentage == PercentageOf(l[i].count, total)
  }

  /** The histogram's percentages are shares of the visible pixels. */
  lemma HistogramShares(ps: seq<bv32>)
    ensures Shares(Histogram(ps), VisibleCount(ps))
  {
    var l := Histogram(ps);
    forall i | 0 <= i < |l| ensures l[i].percentage == PercentageOf(l[i].count, VisibleCount(ps)) {
      HistogramEntries(ps, l[i]);
    }
  }

  lemma HistogramTotals(ps: seq<bv32>)
    ensures Sum(Histogram(ps), CountValue) == VisibleCount(ps) as real
    ensures VisibleCount(ps) > 0 ==> Sum(Histogram(ps), PercentageValue) == 100.0
  {
    UnrankedTotals(ps);
    SumSort(Unranked(ps), CountValue, CountValue);
    SumSort(Unranked(ps), CountValue, PercentageValue);
  }

  /** Setting the percentages keeps the total of the counts of a tally. */
  lemma EntriesCountTotal(t: Tally)
    requires WellFormed(t)
    ensures Sum(Entries(t), CountValue) == Sum(Listing(t.keys, t.counts), CountValue)
  {
    SumKeepsCounts(Listing(t.keys, t.counts), t.processed - t.transparent);
  }

  /** With visible pixels all counted, the percentages of a tally add up to 100. */
  lemma EntriesShareTotal(t: Tally)
    requires WellFormed(t) && t.processed > t.transparent
    requires Sum(Listing(t.keys, t.counts), CountValue) == (t.processed - t.transparent) as real
    ensures Sum(Entries(t), PercentageValue) == 100.0
  {
    PercentagesScaled(Listing(t.keys, t.counts), t.processed - t.transparent);
    SumScaled(Entries(t), (t.processed - t.transparent) as real);
    EntriesCountTotal(t);
    WholeIsHundred(Sum(Entries(t), PercentageValue), Sum(Entries(t), CountValue), (t.processed - t.transparent) as real);
  }

  lemma WholeIsHundred(x: real, s: real, v: real)
    requires v > 0.0 && x * v == s * 100.0 && s == v
    ensures x == 100.0
  {
    assert (x - 100.0) * v == 0.0;
  }

  lemma UnrankedTotals(ps: seq<bv32>)
    ensures Sum(Unranked(ps), CountValue) == VisibleCount(ps) as real
    ensures VisibleCount(ps) > 0 ==> Sum(Unranked(ps), PercentageValue) == 100.0
  {
    ScanTransparent(ps);
    ScanTotal(ps);
    EntriesCountTotal(Scan(ps));
    if VisibleCount(ps) > 0 {
      EntriesShareTotal(Scan(ps));
    }
  }

  lemma {:induction false} CountKeyPositive(ps: seq<bv32>, i: int)
    requires 0 <= i < |ps| && IsVisible(ps[i])
    ensures CountKey(ps, Key(ps[i])) > 0
  {
    var n := |ps| - 1;
    if i < n {
      assert ps[..n][i] == ps[i];
      CountKeyPositive(ps[..n], i);
    }
  }

  /** Every visible pixel's colour is in the histogram. */
  lemma HistogramCovers(ps: seq<bv32>, i: int)
    requires 0 <= i < |ps| && IsVisible(ps[i])
    ensures exists e :: e in Histogram(ps) && e.color.rgb == PixelRgb(ps[i])
  {
    var keys := Scan(ps).keys;
    var k := Key(ps[i]);
    CountKeyPositive(ps, i);
    ScanEntries(ps, k);
    ScanKeysComplete(ps, k);
    var j :| 0 <= j < |keys| && keys[j] == k;
    var e := Unranked(ps)[j];
    UnrankedEntry(ps, j);
    RgbKeyInjective(e.color.rgb, PixelRgb(ps[i]));
    assert e in multiset(Histogram(ps));
  }

  lemma {:induction false} ScanAllTransparent(ps: seq<bv32>)
    requires forall i :: 0 <= i < |ps| ==> !IsVisible(ps[i])
    ensures Scan(ps).keys == []
  {
    if ps != [] {
      var n := |ps| - 1;
      assert forall i :: 0 <= i < n ==> ps[..n][i] == ps[i];
      ScanAllTransparent(ps[..n]);
      assert Scan(ps) == Step(Scan(ps[..n]), ps[n]);
    }
  }

  /** A picture without a single visible pixel has an empty histogram. */
  lemma AllTransparent(ps: seq<bv32>)
    requires forall i :: 0 <= i < |ps| ==> !IsVisible(ps[i])
    ensures Histogram(ps) == []
  {
    ScanAllTransparent(ps);
  }

  /** A list whose every pixel is transparent counts them all as transparent, and back. */
  lemma {:induction false} TransparentCountAll(ps: seq<bv32>)
    ensures TransparentCount(ps) == |ps| <==> forall i :: 0 <= i < |ps| ==> !IsVisible(ps[i])
  {
    if ps != [] {
      var n := |ps| - 1;
      assert forall i :: 0 <= i < n ==> ps[..n][i] == ps[i];
      TransparentCountAll(ps[..n]);
    }
  }

  /** A non-empty histogram comes from a picture with at least one visible pixel. */
  lemma VisibleWhenListed(ps: seq<bv32>)
    requires Histogram(ps) != []
    ensures VisibleCount(ps) > 0
  {
    TransparentCountAll(ps);
    if TransparentCount(ps) == |ps| {
      AllTransparent(ps);
    }
  }

  lemma {:induction false} ScanSolid(p: bv32, n: nat)
    requires IsVisible(p) && n > 0
    ensures Scan(seq(n, _ => p)) == Tally([Key(p)], map[Key(p) := ColorCount(PixelColor(p), n, 0.0)], n, 0)
  {
    var ps := seq(n, _ => p);
    if n > 1 {
      assert ps[..n - 1] == seq(n - 1, _ => p);
      ScanSolid(p, n - 1);
      assert Scan(ps) == Step(Scan(ps[..n - 1]), p);
    } else {
      assert ps[..0] == [];
      assert Scan(ps) == Step(Scan([]), p);
    }
  }

  /** A picture of n visible pixels of one colour: one entry, n pixels, 100 percent. */
  lemma Solid(p: bv32, n: nat)
    requires IsVisible(p) && n > 0
    ensures Histogram(seq(n, _ => p)) == [ColorCount(PixelColor(p), n, 100.0)]
  {
    ScanSolid(p, n);
    SingleEntry(PixelColor(p), Key(p), n);
    SortSortedIsIdentity([ColorCount(PixelColor(p), n, 100.0)], CountValue);
  }

  /** A tally of n pixels all of one colour and none transparent: one entry at 100 percent. */
  lemma SingleEntry(c: Color, k: int, n: nat)
    requires n > 0
    ensures Entries(Tally([k], map[k := ColorCount(c, n, 0.0)], n, 0)) == [ColorCount(c, n, 100.0)]
  {
    var cc := ColorCount(c, n, 0.0);
    assert Listing([k], map[k := cc]) == [cc];
    HundredPercent(n);
    assert Percentages([cc], n) == [WithPercentage(cc, n)];
  }

  lemma HundredPercent(n: int)
    requires n > 0
    ensures PercentageOf(n, n) == 100.0
  {
    PercentageScales(n, n);
    WholeIsHundred(PercentageOf(n, n), n as real, n as real);
  }

  lemma {:induction false} FlattenSolid(rows: seq<seq<bv32>>, w: nat, p: bv32)
    requires forall y :: 0 <= y < |rows| ==> rows[y] == seq(w, _ => p)
    ensures Raster.Flatten(rows) == seq(|rows| * w, _ => p)
  {
    if rows != [] {
      var n := |rows| - 1;
      FlattenSolid(rows[..n], w, p);
      assert |rows| * w == n * w + w;
      assert seq(n * w, _ => p) + seq(w, _ => p) == seq(|rows| * w, _ => p);
    }
  }

  /** A 10 by 10 opaque red picture: one entry, pure red at full alpha, 100 pixels, 100%. */
  lemma SolidRedExample(img: Raster.Image)
    requires img.width == 10 && img.height == 10 && |img.rows| == 10
    requires forall y :: 0 <= y < 10 ==> img.rows[y] == seq(10, _ => 0xFFFF0000 as bv32)
    ensures Histogram(Raster.Pixels(img)) == [ColorCount(Color(Rgb(255, 0, 0), 1.0, None), 100, 100.0)]
  {
    var p: bv32 := 0xFFFF0000;
    FlattenSolid(img.rows, 10, p);
    assert Raster.AlphaOf(p) == 255 && Raster.RedOf(p) == 255 && Raster.GreenOf(p) == 0 && Raster.BlueOf(p) == 0;
    Solid(p, 100);
  }
}
