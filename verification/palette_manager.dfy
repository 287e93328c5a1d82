/** PaletteManager: the user's editable palette. It starts from the dominant colours of a
    picture (or empty) and is edited by adding picked colours, removing entries and
    replacing them. Adds and replaces are refused for a colour within Delta E 10 of another
    entry, and adds are refused once the palette holds 10 colours. */
module PaletteManager {
  import opened Wrappers
  import opened ColorModel
  import DominantColorExtractor

  const MaxPaletteSize: int := 10

  /** COLOR_SIMILARITY_THRESHOLD, in Delta E units. */
  const ColorSimilarityThreshold: real := 10.0

  datatype ColorSource = DominantExtraction | UserExactPick | UserRegionPick

  /** An entry of the palette with where it came from; immutable once built. */
  datatype PaletteColor = PaletteColor(color: Color, source: ColorSource, originalPercentage: real,
                                       originalPixelCount: int, isUserPicked: bool)

  /** new PaletteColor(color, percentage, pixelCount): a dominant colour. */
  function DominantEntry(color: Color, percentage: real, pixelCount: int): (p: PaletteColor)
    ensures p.source == DominantExtraction && !p.isUserPicked
  {
    PaletteColor(color, DominantExtraction, percentage, pixelCount, false)
  }

  /** new PaletteColor(color, isExactPick): a user pick, with no share of the picture. */
  function PickedEntry(color: Color, isExactPick: bool): (p: PaletteColor)
    ensures p.isUserPicked && p.originalPercentage == 0.0 && p.originalPixelCount == 0
    ensures p.source == if isExactPick then UserExactPick else UserRegionPick
  {
    PaletteColor(color, if isExactPick then UserExactPick else UserRegionPick, 0.0, 0, true)
  }

  /** areColorsSimilar: Delta E at most the threshold. */
  predicate Similar(cs: ColorSpace, c1: Color, c2: Color)
  {
    DeltaE(cs, c1, c2) <= ColorSimilarityThreshold
  }

  lemma SimilarSymmetric(cs: ColorSpace, c1: Color, c2: Color)
    ensures Similar(cs, c1, c2) <==> Similar(cs, c2, c1)
  {
    DeltaESymmetric(cs, c1, c2);
  }

  /** The palette the first constructor builds: every dominant colour, in order, with its
      percentage and pixel count. */
  function FromDominants(ds: seq<DominantColorExtractor.DominantColor>): (pcs: seq<PaletteColor>)
    ensures |pcs| == |ds|
    ensures forall i :: 0 <= i < |ds| ==>
      pcs[i] == DominantEntry(ds[i].color, ds[i].percentage, ds[i].pixelCount)
  {
    seq(|ds|, i requires 0 <= i < |ds| => DominantEntry(ds[i].color, ds[i].percentage, ds[i].pixelCount))
  }

  /** The loop of findSimilarColorExcluding from position i on: the first position that is
      not excluded and holds a colour similar to c. findSimilarColor excludes nothing (-1). */
  function FirstSimilarFrom(cs: ColorSpace, pcs: seq<PaletteColor>, c: Color, exclude: int, i: nat): (r: Option<nat>)
    requires i <= |pcs|
    ensures r.Some? ==> i <= r.value < |pcs| && r.value != exclude && Similar(cs, c, pcs[r.value].color)
    ensures r.Some? ==> forall j :: i <= j < r.value && j != exclude ==> !Similar(cs, c, pcs[j].color)
    ensures r.None? ==> forall j :: i <= j < |pcs| && j != exclude ==> !Similar(cs, c, pcs[j].color)
    decreases |pcs| - i
  {
    if i == |pcs| then None
    else if i != exclude && Similar(cs, c, pcs[i].color) then Some(i)
    else FirstSimilarFrom(cs, pcs, c, exclude, i + 1)
  }

  /** The entry findSimilarColorExcluding returns: the first similar one, in palette order,
      other than the excluded position; none when there is none. */
  function SimilarEntry(cs: ColorSpace, pcs: seq<PaletteColor>, c: Color, exclude: int): (r: Option<PaletteColor>)
    ensures r.None? <==> forall j :: 0 <= j < |pcs| && j != exclude ==> !Similar(cs, c, pcs[j].color)
    ensures r.Some? ==> exists k :: (0 <= k < |pcs| && k != exclude && r.value == pcs[k]
                                     && Similar(cs, c, pcs[k].color)
                                     && forall j :: 0 <= j < k && j != exclude ==> !Similar(cs, c, pcs[j].color))
  {
    match FirstSimilarFrom(cs, pcs, c, exclude, 0)
    case None => None
    case Some(k) => Some(pcs[k])
  }

  /** What addPickedColor reports. */
  datatype AddResult = Added | NullColor | PaletteFull | SimilarExists(similar: PaletteColor)

  /** addPickedColor on values: a null colour, then a full palette, then a similar entry
      refuse the add and leave the palette alone; otherwise the pick goes at the end. */
  function Add(cs: ColorSpace, pcs: seq<PaletteColor>, picked: Option<Color>, isExactPick: bool)
    : (r: (AddResult, seq<PaletteColor>))
    ensures r.0 == Added <==>
      picked.Some? && |pcs| < MaxPaletteSize && forall j :: 0 <= j < |pcs| ==> !Similar(cs, picked.value, pcs[j].color)
    ensures r.0 == Added ==> r.1 == pcs + [PickedEntry(picked.value, isExactPick)]
    ensures r.0 != Added ==> r.1 == pcs
    ensures picked.None? ==> r.0 == NullColor
    ensures picked.Some? && |pcs| >= MaxPaletteSize ==> r.0 == PaletteFull
    ensures r.0.SimilarExists? ==>
      picked.Some? && |pcs| < MaxPaletteSize && r.0 == SimilarExists(SimilarEntry(cs, pcs, picked.value, -1).value)
  {
    if picked.None? then (NullColor, pcs)
    else if |pcs| >= MaxPaletteSize then (PaletteFull, pcs)
    else match SimilarEntry(cs, pcs, picked.value, -1)
      case Some(similar) => (SimilarExists(similar), pcs)
      case None => (Added, pcs + [PickedEntry(picked.value, isExactPick)])
  }

  /** What removeColor reports. */
  datatype RemoveResult = Removed(removedColor: PaletteColor) | InvalidIndex

  /** removeColor on values. */
  function Remove(pcs: seq<PaletteColor>, index: int): (r: (RemoveResult, seq<PaletteColor>))
    ensures r.0.Removed? <==> 0 <= index < |pcs|
    ensures r.0.Removed? ==>
      r.0.removedColor == pcs[index] && |r.1| == |pcs| - 1
      && (forall j :: 0 <= j < index ==> r.1[j] == pcs[j])
      && (forall j :: index <= j < |r.1| ==> r.1[j] == pcs[j + 1])
    ensures r.0 == InvalidIndex ==> r.1 == pcs
  {
    if index < 0 || index >= |pcs| then (InvalidIndex, pcs)
    else (Removed(pcs[index]), pcs[..index] + pcs[index + 1..])
  }

  /** What replaceColor reports. */
  datatype ReplaceResult = Replaced(oldColor: PaletteColor, newColor: PaletteColor)
                         | NotReplaced(similar: Option<PaletteColor>)

  /** replaceColor on values: an index out of range, or a colour similar to an entry at any
      other position, refuses the replacement; otherwise only position index changes. */
  function Replace(cs: ColorSpace, pcs: seq<PaletteColor>, index: int, newColor: Color, isExactPick: bool)
    : (r: (ReplaceResult, seq<PaletteColor>))
    ensures r.0.Replaced? <==>
      0 <= index < |pcs| && forall j :: 0 <= j < |pcs| && j != index ==> !Similar(cs, newColor, pcs[j].color)
    ensures r.0.Replaced? ==>
      r.0 == Replaced(pcs[index], PickedEntry(newColor, isExactPick))
      && r.1 == pcs[index := PickedEntry(newColor, isExactPick)]
    ensures r.0.NotReplaced? ==> r.1 == pcs
    ensures !(0 <= index < |pcs|) ==> r.0 == NotReplaced(None)
  {
    if index < 0 || index >= |pcs| then (NotReplaced(None), pcs)
    else match SimilarEntry(cs, pcs, newColor, index)
      case Some(similar) => (NotReplaced(Some(similar)), pcs)
      case None =>
        var entry := PickedEntry(newColor, isExactPick);
        (Replaced(pcs[index], entry), pcs[index := entry])
  }

  // ---------------------------------------------------------------------------------------
  // The invariant that editing keeps
  // ---------------------------------------------------------------------------------------

  /** A palette as the editing operations keep it: at most 10 entries, no two similar. */
  predicate Curated(cs: ColorSpace, pcs: seq<PaletteColor>)
  {
    |pcs| <= MaxPaletteSize
    && forall i, j :: 0 <= i < |pcs| && 0 <= j < |pcs| && i != j ==> !Similar(cs, pcs[i].color, pcs[j].color)
  }

  /** An add keeps a curated palette curated. */
  lemma AddKeepsCurated(cs: ColorSpace, pcs: seq<PaletteColor>, picked: Option<Color>, isExactPick: bool)
    requires Curated(cs, pcs)
    ensures Curated(cs, Add(cs, pcs, picked, isExactPick).1)
  {
    var r := Add(cs, pcs, picked, isExactPick);
    if r.0 == Added {
      var n := |pcs|;
      var s := r.1;
      forall i, j | 0 <= i < |s| && 0 <= j < |s| && i != j ensures !Similar(cs, s[i].color, s[j].color) {
        if j == n {
          SimilarSymmetric(cs, s[i].color, picked.value);
        } else if i == n {
          assert !Similar(cs, picked.value, pcs[j].color);
        } else {
          assert s[i] == pcs[i] && s[j] == pcs[j];
        }
      }
    }
  }

  /** A removal keeps a curated palette curated. */
  lemma RemoveKeepsCurated(cs: ColorSpace, pcs: seq<PaletteColor>, index: int)
    requires Curated(cs, pcs)
    ensures Curated(cs, Remove(pcs, index).1)
  {
    var s := Remove(pcs, index).1;
    if 0 <= index < |pcs| {
      forall i, j | 0 <= i < |s| && 0 <= j < |s| && i != j ensures !Similar(cs, s[i].color, s[j].color) {
        var i' := if i < index then i else i + 1;
        var j' := if j < index then j else j + 1;
        assert s[i] == pcs[i'] && s[j] == pcs[j'];
      }
    }
  }

  /** A replacement keeps a curated palette curated. */
  lemma ReplaceKeepsCurated(cs: ColorSpace, pcs: seq<PaletteColor>, index: int, newColor: Color, isExactPick: bool)
    requires Curated(cs, pcs)
    ensures Curated(cs, Replace(cs, pcs, index, newColor, isExactPick).1)
  {
    var r := Replace(cs, pcs, index, newColor, isExactPick);
    if r.0.Replaced? {
      var s := r.1;
      forall i, j | 0 <= i < |s| && 0 <= j < |s| && i != j ensures !Similar(cs, s[i].color, s[j].color) {
        if j == index {
          SimilarSymmetric(cs, s[i].color, newColor);
        } else if i == index {
          assert !Similar(cs, newColor, pcs[j].color);
        } else {
          assert s[i] == pcs[i] && s[j] == pcs[j];
        }
      }
    }
  }

  /** A curated palette is full exactly when it holds 10 colours, and then every add of a
      colour is refused as full and changes nothing. */
  lemma FullRefusesAdd(cs: ColorSpace, pcs: seq<PaletteColor>, picked: Color, isExactPick: bool)
    requires Curated(cs, pcs) && |pcs| >= MaxPaletteSize
    ensures |pcs| == MaxPaletteSize
    ensures Add(cs, pcs, Some(picked), isExactPick) == (PaletteFull, pcs)
  {
  }

  /** Removing the only entry that blocks a pick makes room for it: the add that was refused
      for similarity succeeds once that entry is gone. */
  lemma RemoveThenAdd(cs: ColorSpace, pcs: seq<PaletteColor>, index: int, picked: Color, isExactPick: bool)
    requires Curated(cs, pcs) && 0 <= index < |pcs|
    requires forall j :: 0 <= j < |pcs| && j != index ==> !Similar(cs, picked, pcs[j].color)
    ensures Add(cs, Remove(pcs, index).1, Some(picked), isExactPick).0 == Added
  {
    var rest := Remove(pcs, index).1;
    forall j | 0 <= j < |rest|
      ensures !Similar(cs, picked, rest[j].color)
    {
      if j < index {
        assert rest[j] == pcs[j];
      } else {
        assert rest[j] == pcs[j + 1];
      }
    }
  }

  /** The dominant-colour constructor checks neither capacity nor similarity: two dominant
      colours with the same RGB give a palette that is not curated, whenever Delta E of a
      colour with itself is within the threshold. */
  lemma ConstructorSkipsChecks(cs: ColorSpace, d: DominantColorExtractor.DominantColor)
    requires cs.sqrt(0.0) <= ColorSimilarityThreshold
    ensures !Curated(cs, FromDominants([d, d]))
  {
    var pcs := FromDominants([d, d]);
    var p := cs.toLab(d.color.rgb);
    assert SquaredLabDistance(p, p) == 0.0;
    assert Similar(cs, pcs[0].color, pcs[1].color);
  }

  // ---------------------------------------------------------------------------------------
  // The class
  // ---------------------------------------------------------------------------------------

  class PaletteManager {
    var paletteColors: seq<PaletteColor>
    var imageName: string

    /** new PaletteManager(dominantColors): the loop converts each dominant colour in turn. */
    constructor (dominantColors: seq<DominantColorExtractor.DominantColor>)
      ensures paletteColors == FromDominants(dominantColors) && imageName == "Unnamed Image"
    {
      ghost var spec := FromDominants(dominantColors);
      var converted: seq<PaletteColor> := [];
      for i := 0 to |dominantColors|
        invariant converted == spec[..i]
      {
        var dc := dominantColors[i];
        assert spec[..i + 1] == spec[..i] + [spec[i]];
        converted := converted + [PaletteColor(dc.color, DominantExtraction, dc.percentage, dc.pixelCount, false)];
      }
      assert spec[..|dominantColors|] == spec;
      paletteColors := converted;
      imageName := "Unnamed Image";
    }

    /** new PaletteManager(): an empty custom palette. */
    constructor Empty()
      ensures paletteColors == [] && imageName == "Custom Palette"
    {
      paletteColors := [];
      imageName := "Custom Palette";
    }

    /** findSimilarColor: the first entry, in palette order, similar to the candidate. */
    method FindSimilarColor(cs: ColorSpace, candidateColor: Color) returns (found: Option<PaletteColor>)
      ensures found == SimilarEntry(cs, paletteColors, candidateColor, -1)
    {
      var i := 0;
      while i < |paletteColors|
        invariant 0 <= i <= |paletteColors|
        invariant FirstSimilarFrom(cs, paletteColors, candidateColor, -1, i)
          == FirstSimilarFrom(cs, paletteColors, candidateColor, -1, 0)
      {
        var paletteColor := paletteColors[i];
        if DeltaE(cs, candidateColor, paletteColor.color) <= ColorSimilarityThreshold {
          return Some(paletteColor);
        }
        i := i + 1;
      }
      return None;
    }

    /** findSimilarColorExcluding: the same scan, skipping position excludeIndex. */
    method FindSimilarColorExcluding(cs: ColorSpace, candidateColor: Color, excludeIndex: int)
      returns (found: Option<PaletteColor>)
      ensures found == SimilarEntry(cs, paletteColors, candidateColor, excludeIndex)
    {
      var i := 0;
      while i < |paletteColors|
        invariant 0 <= i <= |paletteColors|
        invariant FirstSimilarFrom(cs, paletteColors, candidateColor, excludeIndex, i)
          == FirstSimilarFrom(cs, paletteColors, candidateColor, excludeIndex, 0)
      {
        if i != excludeIndex {
          var paletteColor := paletteColors[i];
          if DeltaE(cs, candidateColor, paletteColor.color) <= ColorSimilarityThreshold {
            return Some(paletteColor);
          }
        }
        i := i + 1;
      }
      return None;
    }

    /** addPickedColor. */
    method AddPickedColor(cs: ColorSpace, pickedColor: Option<Color>, isExactPick: bool) returns (r: AddResult)
      modifies this`paletteColors
      ensures (r, paletteColors) == Add(cs, old(paletteColors), pickedColor, isExactPick)
    {
      if pickedColor.None? {
        return NullColor;
      }
      if |paletteColors| >= MaxPaletteSize {
        return PaletteFull;
      }
      var similarColor := FindSimilarColor(cs, pickedColor.value);
      if similarColor.Some? {
        return SimilarExists(similarColor.value);
      }
      paletteColors := paletteColors + [PaletteColor(pickedColor.value, if isExactPick then UserExactPick else UserRegionPick, 0.0, 0, true)];
      return Added;
    }

    /** removeColor. */
    method RemoveColor(index: int) returns (r: RemoveResult)
      modifies this`paletteColors
      ensures (r, paletteColors) == Remove(old(paletteColors), index)
    {
      if index < 0 || index >= |paletteColors| {
        return InvalidIndex;
      }
      var removedColor := paletteColors[index];
      paletteColors := paletteColors[..index] + paletteColors[index + 1..];
      return Removed(removedColor);
    }

    /** replaceColor. */
    method ReplaceColor(cs: ColorSpace, index: int, newColor: Color, isExactPick: bool) returns (r: ReplaceResult)
      modifies this`paletteColors
      ensures (r, paletteColors) == Replace(cs, old(paletteColors), index, newColor, isExactPick)
    {
      if index < 0 || index >= |paletteColors| {
        return NotReplaced(None);
      }
      var similarColor := FindSimilarColorExcluding(cs, newColor, index);
      if similarColor.Some? {
        return NotReplaced(similarColor);
      }
      var oldColor := paletteColors[index];
      var newPaletteColor := PaletteColor(newColor, if isExactPick then UserExactPick else UserRegionPick, 0.0, 0, true);
      paletteColors := paletteColors[index := newPaletteColor];
      return Replaced(oldColor, newPaletteColor);
    }

    /** getPaletteColors: a copy, which for a sequence value is the sequence itself. */
    function GetPaletteColors(): seq<PaletteColor>
      reads this
    {
      paletteColors
    }

    /** getColorEntries: the colours alone, in palette order. */
    function GetColorEntries(): (colors: seq<Color>)
      reads this
      ensures |colors| == |paletteColors| && forall i :: 0 <= i < |colors| ==> colors[i] == paletteColors[i].color
    {
      seq(|paletteColors|, i reads this requires 0 <= i < |paletteColors| => paletteColors[i].color)
    }

    function GetPaletteSize(): int
      reads this
    {
      |paletteColors|
    }

    predicate IsPaletteFull()
      reads this
    {
      |paletteColors| >= MaxPaletteSize
    }

    predicate IsPaletteEmpty()
      reads this
    {
      |paletteColors| == 0
    }

    method SetImageName(name: string)
      modifies this`imageName
      ensures imageName == name
    {
      imageName := name;
    }
  }
}
