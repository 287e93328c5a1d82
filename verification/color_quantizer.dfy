/** ColorQuantizer: greedy grouping of a histogram by Delta E. The entries are visited in
    the order given (most frequent first); each one joins the first group, in creation
    order, whose representative lies within the threshold, or else founds a new group.
    Processing stops as soon as there are MaxColorGroups groups, and the groups are ranked
    by pixel count. */
module ColorQuantizer {
  import opened Wrappers
  import opened ColorModel
  import opened Sorting
  import opened ColorExtractor
  import opened Weighting

  const DefaultDeltaEThreshold: real := 3.0

  /** The safety cap on the number of groups. */
  const MaxColorGroups: int := 500

  /** What a ColorGroup holds: its members in joining order, the representative colour, and
      the running totals of the members' counts and percentages. */
  datatype Group = Group(members: seq<ColorCount>, representative: Color, totalCount: int, totalPercentage: real)

  /** The compareTo key: larger totals rank first. */
  function GroupCount(g: Group): real
  {
    g.totalCount as real
  }

  function GroupPercentage(g: Group): real
  {
    g.totalPercentage
  }

  /** A group is never empty and its totals are the sums over its members. */
  predicate Consistent(g: Group)
  {
    |g.members| > 0
    && g.totalCount as real == Sum(g.members, CountValue)
    && g.totalPercentage == Sum(g.members, PercentageValue)
  }

  /** updateRepresentativeColor: the LAB mean of the members weighted by count, converted
      back by fromLAB; the old representative stays when the counts add up to zero or less. */
  function Recenter(cs: ColorSpace, ms: seq<ColorCount>, rep: Color): Color
  {
    if |ms| == 0 then rep
    else if TotalWeight(ms) > 0 then cs.fromLab(MeanLab(cs, ms))
    else rep
  }

  /** new ColorGroup(initialColor): one member, whose colour is the representative as is. */
  function NewGroup(cc: ColorCount): (g: Group)
    ensures Consistent(g)
    ensures g.members == [cc] && g.representative == cc.color
  {
    assert [cc][..0] == [];
    Group([cc], cc.color, cc.count, cc.percentage)
  }

  /** addColor: the member is appended, the totals grow by its count and percentage, and
      the representative is recomputed over all members. */
  function AddTo(cs: ColorSpace, g: Group, cc: ColorCount): (h: Group)
    ensures h.members == g.members + [cc]
    ensures Consistent(g) ==> Consistent(h)
  {
    SumAppend(g.members, cc, CountValue);
    SumAppend(g.members, cc, PercentageValue);
    var ms := g.members + [cc];
    Group(ms, Recenter(cs, ms, g.representative), g.totalCount + cc.count, g.totalPercentage + cc.percentage)
  }

  /** When all members of the grown group sit at one LAB point and have a positive total
      count, the new representative is the colour fromLAB gives for that point. */
  lemma AddToUniform(cs: ColorSpace, g: Group, cc: ColorCount, p: Lab)
    requires forall i :: 0 <= i < |g.members| ==> cs.toLab(g.members[i].color.rgb) == p
    requires cs.toLab(cc.color.rgb) == p
    requires TotalWeight(g.members + [cc]) > 0
    ensures AddTo(cs, g, cc).representative == cs.fromLab(p)
  {
    var ms := g.members + [cc];
    assert forall i :: 0 <= i < |ms| ==> cs.toLab(ms[i].color.rgb) == p by {
      forall i | 0 <= i < |ms| ensures cs.toLab(ms[i].color.rgb) == p {
        if i < |g.members| {
          assert ms[i] == g.members[i];
        }
      }
    }
    UniformMean(cs, ms, p);
  }

  /** A ColorGroup object. */
  class ColorGroup {
    var members: seq<ColorCount>
    var representative: Color
    var totalCount: int
    var totalPercentage: real

    function Value(): Group
      reads this
    {
      Group(members, representative, totalCount, totalPercentage)
    }

    predicate Valid()
      reads this
    {
      Consistent(Value())
    }

    constructor Init(initialColor: ColorCount)
      ensures Valid() && Value() == NewGroup(initialColor)
    {
      members := [initialColor];
      representative := initialColor.color;
      totalCount := initialColor.count;
      totalPercentage := initialColor.percentage;
    }

    method AddColor(cs: ColorSpace, colorCount: ColorCount)
      requires Valid()
      modifies this
      ensures Valid() && Value() == AddTo(cs, old(Value()), colorCount)
    {
      members := members + [colorCount];
      totalCount := totalCount + colorCount.count;
      totalPercentage := totalPercentage + colorCount.percentage;
      UpdateRepresentativeColor(cs);
    }

    /** The weighted sums of the members, divided by the total weight. */
    method UpdateRepresentativeColor(cs: ColorSpace)
      modifies this`representative
      ensures representative == Recenter(cs, members, old(representative))
    {
      if |members| == 0 {
        return;
      }
      var weighted, totalWeight := AccumulateWeights(cs, members);
      if totalWeight > 0 {
        var mean := Lab(weighted.l / totalWeight as real, weighted.a / totalWeight as real, weighted.b / totalWeight as real);
        representative := cs.fromLab(mean);
      }
    }
  }

  /** The abstract values of a list of group objects. */
  function Snapshot(gs: seq<ColorGroup>): (vs: seq<Group>)
    reads gs
    ensures |vs| == |gs| && forall i :: 0 <= i < |gs| ==> vs[i] == gs[i].Value()
  {
    seq(|gs|, i reads gs requires 0 <= i < |gs| => gs[i].Value())
  }

  predicate Distinct(gs: seq<ColorGroup>)
  {
    forall i, j :: 0 <= i < j < |gs| ==> gs[i] != gs[j]
  }

  // ---------------------------------------------------------------------------------------
  // The grouping, on values
  // ---------------------------------------------------------------------------------------

  predicate Near(cs: ColorSpace, c: Color, g: Group, threshold: real)
  {
    DeltaE(cs, c, g.representative) <= threshold
  }

  /** The inner loop: the first group, in creation order, near enough to c, or |gs|. */
  function FirstNear(cs: ColorSpace, gs: seq<Group>, c: Color, threshold: real): (i: nat)
    ensures i <= |gs|
    ensures forall q :: 0 <= q < i ==> !Near(cs, c, gs[q], threshold)
    ensures i < |gs| ==> Near(cs, c, gs[i], threshold)
  {
    if gs == [] then 0
    else if Near(cs, c, gs[0], threshold) then 0
    else 1 + FirstNear(cs, gs[1..], c, threshold)
  }

  /** One entry placed: it joins the first near group, or founds a new one at the end. */
  function Place(cs: ColorSpace, gs: seq<Group>, cc: ColorCount, threshold: real): seq<Group>
  {
    var i := FirstNear(cs, gs, cc.color, threshold);
    if i < |gs| then gs[i := AddTo(cs, gs[i], cc)] else gs + [NewGroup(cc)]
  }

  /** An entry far from every group founds a new group at the end; otherwise it joins the
      near group that comes first, and no other group changes. */
  lemma PlaceJoinsFirst(cs: ColorSpace, gs: seq<Group>, cc: ColorCount, threshold: real, q: int)
    requires 0 <= q <= |gs|
    requires forall p :: 0 <= p < q ==> !Near(cs, cc.color, gs[p], threshold)
    requires q < |gs| ==> Near(cs, cc.color, gs[q], threshold)
    ensures q == |gs| ==> Place(cs, gs, cc, threshold) == gs + [NewGroup(cc)]
    ensures q < |gs| ==> Place(cs, gs, cc, threshold) == gs[q := AddTo(cs, gs[q], cc)]
  {
    var i := FirstNear(cs, gs, cc.color, threshold);
    assert i == q;
  }

  /** Placing an entry keeps the first member of every existing group; when it founds a
      new group, that group holds just the entry. */
  lemma PlaceKeepsFounders(cs: ColorSpace, gs: seq<Group>, cc: ColorCount, threshold: real)
    requires forall i :: 0 <= i < |gs| ==> |gs[i].members| > 0
    ensures |Place(cs, gs, cc, threshold)| == |gs| || |Place(cs, gs, cc, threshold)| == |gs| + 1
    ensures forall i :: 0 <= i < |gs| ==> Place(cs, gs, cc, threshold)[i].members[0] == gs[i].members[0]
    ensures |Place(cs, gs, cc, threshold)| == |gs| + 1 ==> Place(cs, gs, cc, threshold)[|gs|].members == [cc]
  {
    var q := FirstNear(cs, gs, cc.color, threshold);
    if q < |gs| {
      var h := AddTo(cs, gs[q], cc);
      assert h.members[0] == gs[q].members[0];
    }
  }

  /** The groups after the entries of s have been offered in order; once there are
      MaxColorGroups groups the loop has stopped and later entries change nothing. */
  function Grouped(cs: ColorSpace, s: seq<ColorCount>, threshold: real): (gs: seq<Group>)
    ensures |gs| <= MaxColorGroups && |gs| <= |s|
    ensures forall i :: 0 <= i < |gs| ==> Consistent(gs[i])
  {
    if s == [] then []
    else
      var prev := Grouped(cs, s[..|s| - 1], threshold);
      if |prev| >= MaxColorGroups then prev else Place(cs, prev, s[|s| - 1], threshold)
  }

  /** Offering the last entry of s keeps the first member of every earlier group, and a
      group it founds holds just that entry. */
  lemma GroupedKeepsFounders(cs: ColorSpace, s: seq<ColorCount>, threshold: real)
    requires s != []
    ensures var prev := Grouped(cs, s[..|s| - 1], threshold);
      && (|Grouped(cs, s, threshold)| == |prev| || |Grouped(cs, s, threshold)| == |prev| + 1)
      && (forall i :: 0 <= i < |prev| ==> Grouped(cs, s, threshold)[i].members[0] == prev[i].members[0])
      && (|Grouped(cs, s, threshold)| == |prev| + 1 ==> Grouped(cs, s, threshold)[|prev|].members == [s[|s| - 1]])
  {
    var prev := Grouped(cs, s[..|s| - 1], threshold);
    if |prev| < MaxColorGroups {
      PlaceKeepsFounders(cs, prev, s[|s| - 1], threshold);
    }
  }

  /** The same for one group i that existed before the last entry of s was offered. */
  lemma GroupedKeepsFounder(cs: ColorSpace, s: seq<ColorCount>, threshold: real, i: nat)
    requires s != [] && i < |Grouped(cs, s[..|s| - 1], threshold)|
    ensures i < |Grouped(cs, s, threshold)|
    ensures Grouped(cs, s, threshold)[i].members[0] == Grouped(cs, s[..|s| - 1], threshold)[i].members[0]
  {
    GroupedKeepsFounders(cs, s, threshold);
  }

  /** The entry of s that founded group i: the group count was i just before it was offered
      and i + 1 just after, and it is still the group's first member at the end. */
  function Founder(cs: ColorSpace, s: seq<ColorCount>, threshold: real, i: nat): (j: nat)
    requires i < |Grouped(cs, s, threshold)|
    ensures j < |s|
    ensures |Grouped(cs, s[..j], threshold)| == i && |Grouped(cs, s[..j + 1], threshold)| == i + 1
    ensures Grouped(cs, s, threshold)[i].members[0] == s[j]
    decreases |s|
  {
    var front := s[..|s| - 1];
    if i < |Grouped(cs, front, threshold)| then
      var j := Founder(cs, front, threshold, i);
      FounderEarlier(cs, s, threshold, i, j);
      j
    else
      FounderLast(cs, s, threshold, i);
      |s| - 1
  }

  /** A group founded before the last entry of s keeps its founder. */
  lemma FounderEarlier(cs: ColorSpace, s: seq<ColorCount>, threshold: real, i: nat, j: nat)
    requires s != [] && j < |s| - 1
    requires var front := s[..|s| - 1];
      && i < |Grouped(cs, front, threshold)|
      && |Grouped(cs, front[..j], threshold)| == i && |Grouped(cs, front[..j + 1], threshold)| == i + 1
      && Grouped(cs, front, threshold)[i].members[0] == front[j]
    ensures i < |Grouped(cs, s, threshold)|
    ensures |Grouped(cs, s[..j], threshold)| == i && |Grouped(cs, s[..j + 1], threshold)| == i + 1
    ensures Grouped(cs, s, threshold)[i].members[0] == s[j]
  {
    DropLastPrefix(s, j);
    GroupedKeepsFounder(cs, s, threshold, i);
  }

  /** Cutting the last entry first does not change a shorter prefix. */
  lemma DropLastPrefix(s: seq<ColorCount>, j: nat)
    requires j < |s| - 1
    ensures s[..|s| - 1][..j] == s[..j] && s[..|s| - 1][..j + 1] == s[..j + 1] && s[..|s| - 1][j] == s[j]
  {
  }

  /** A group not there before the last entry of s was founded by it. */
  lemma FounderLast(cs: ColorSpace, s: seq<ColorCount>, threshold: real, i: nat)
    requires s != [] && |Grouped(cs, s[..|s| - 1], threshold)| <= i < |Grouped(cs, s, threshold)|
    ensures |Grouped(cs, s[..|s| - 1], threshold)| == i && |Grouped(cs, s[..|s|], threshold)| == i + 1
    ensures Grouped(cs, s, threshold)[i].members[0] == s[|s| - 1]
  {
    GroupedKeepsFounders(cs, s, threshold);
    assert s[..|s|] == s;
  }

  /** processedColors at the end: how many entries of s were offered before the loop
      stopped. */
  function Consumed(cs: ColorSpace, s: seq<ColorCount>, threshold: real): (m: nat)
    ensures |Grouped(cs, s, threshold)| <= m <= |s|
    ensures |Grouped(cs, s, threshold)| < MaxColorGroups ==> m == |s|
  {
    if s == [] then 0
    else if |Grouped(cs, s[..|s| - 1], threshold)| >= MaxColorGroups then Consumed(cs, s[..|s| - 1], threshold)
    else |s|
  }

  /** quantizeColors on values: nothing for a null or empty list, otherwise the groups
      ranked by total count (stable, so equal totals keep creation order). */
  function Quantize(cs: ColorSpace, extractedColors: Option<seq<ColorCount>>, threshold: real): (gs: seq<Group>)
    ensures extractedColors.None? ==> gs == []
    ensures extractedColors.Some? ==>
      multiset(gs) == multiset(Grouped(cs, extractedColors.value, threshold))
    ensures SortedDesc(gs, GroupCount)
    ensures forall i :: 0 <= i < |gs| ==> Consistent(gs[i])
  {
    match extractedColors
    case None => []
    case Some(s) =>
      var grouped := Grouped(cs, s, threshold);
      var sorted := SortDesc(grouped, GroupCount);
      assert forall i :: 0 <= i < |sorted| ==> sorted[i] in multiset(grouped);
      sorted
  }

  /** Every group quantizeColors returns was founded by an entry of the input, which is
      still its first member. */
  lemma QuantizeFounders(cs: ColorSpace, s: seq<ColorCount>, threshold: real, i: nat)
    requires i < |Quantize(cs, Some(s), threshold)|
    ensures Quantize(cs, Some(s), threshold)[i].members[0] in s
  {
    var g := Quantize(cs, Some(s), threshold)[i];
    var grouped := Grouped(cs, s, threshold);
    assert g in multiset(grouped);
    var k :| 0 <= k < |grouped| && grouped[k] == g;
    var j := Founder(cs, s, threshold, k);
    assert g.members[0] == s[j];
  }

  // ---------------------------------------------------------------------------------------
  // The methods
  // ---------------------------------------------------------------------------------------

  /** quantizeColors(extractedColors, deltaEThreshold). */
  method QuantizeColors(cs: ColorSpace, extractedColors: Option<seq<ColorCount>>, deltaEThreshold: real)
    returns (groups: seq<ColorGroup>)
    ensures Snapshot(groups) == Quantize(cs, extractedColors, deltaEThreshold)
    ensures Distinct(groups)
    ensures forall g :: g in groups ==> fresh(g) && g.Valid()
  {
    if extractedColors.None? || |extractedColors.value| == 0 {
      return [];
    }
    var unsorted := GroupColors(cs, extractedColors.value, deltaEThreshold);
    groups := SortGroups(unsorted);
    Rearranged(unsorted, groups);
    forall g | g in groups ensures g.Valid() {
      var i :| 0 <= i < |groups| && groups[i] == g;
      assert Snapshot(groups)[i] == g.Value();
    }
  }

  /** The loop of quantizeColors: every entry is offered in turn, until the list ends or
      the groups reach MaxColorGroups. */
  method GroupColors(cs: ColorSpace, entries: seq<ColorCount>, deltaEThreshold: real)
    returns (groups: seq<ColorGroup>)
    ensures Snapshot(groups) == Grouped(cs, entries, deltaEThreshold)
    ensures Distinct(groups)
    ensures forall g :: g in groups ==> fresh(g)
  {
    groups := [];
    var processedColors := 0;
    while processedColors < |entries|
      invariant 0 <= processedColors <= |entries|
      invariant forall g :: g in groups ==> fresh(g)
      invariant Distinct(groups)
      invariant Snapshot(groups) == Grouped(cs, entries[..processedColors], deltaEThreshold)
      invariant |groups| < MaxColorGroups
    {
      groups := GroupTurn(cs, entries, deltaEThreshold, processedColors, groups);
      processedColors := processedColors + 1;
      if |groups| >= MaxColorGroups {
        break;
      }
    }
    LoopExit(cs, entries, deltaEThreshold, processedColors);
  }

  /** One turn of the outer loop, proved against the groups of the longer prefix. */
  method GroupTurn(cs: ColorSpace, entries: seq<ColorCount>, deltaEThreshold: real, processedColors: int,
                   groups: seq<ColorGroup>)
    returns (updated: seq<ColorGroup>)
    requires 0 <= processedColors < |entries| && Distinct(groups) && |groups| < MaxColorGroups
    requires Snapshot(groups) == Grouped(cs, entries[..processedColors], deltaEThreshold)
    modifies set g | g in groups
    ensures Snapshot(updated) == Grouped(cs, entries[..processedColors + 1], deltaEThreshold)
    ensures Distinct(updated)
    ensures forall g :: g in updated ==> g in groups || fresh(g)
  {
    ghost var prior := Snapshot(groups);
    AllValid(groups, prior);
    updated := OfferColor(cs, groups, entries[processedColors], deltaEThreshold);
    GroupedStep(cs, entries, deltaEThreshold, processedColors, prior, Snapshot(updated));
  }

  lemma AllValid(groups: seq<ColorGroup>, vs: seq<Group>)
    requires Snapshot(groups) == vs && forall i :: 0 <= i < |vs| ==> Consistent(vs[i])
    ensures forall k :: 0 <= k < |groups| ==> groups[k].Valid()
  {
    forall k | 0 <= k < |groups| ensures groups[k].Valid() {
      assert vs[k] == groups[k].Value();
    }
  }

  /** One turn of the outer loop of quantizeColors: the inner loop looks for the first
      group near enough and adds the colour to it, or else a new group is appended. */
  method OfferColor(cs: ColorSpace, groups: seq<ColorGroup>, colorCount: ColorCount, deltaEThreshold: real)
    returns (updated: seq<ColorGroup>)
    requires Distinct(groups)
    requires forall k :: 0 <= k < |groups| ==> groups[k].Valid()
    modifies set g | g in groups
    ensures Snapshot(updated) == Place(cs, old(Snapshot(groups)), colorCount, deltaEThreshold)
    ensures Distinct(updated)
    ensures forall g :: g in updated ==> g in groups || fresh(g)
  {
    ghost var before := Snapshot(groups);
    var addedToExistingGroup := false;
    var j := 0;
    while j < |groups|
      invariant 0 <= j <= |groups|
      invariant Snapshot(groups) == before
      invariant forall q :: 0 <= q < j ==> !Near(cs, colorCount.color, before[q], deltaEThreshold)
    {
      var distance := DeltaE(cs, colorCount.color, groups[j].representative);
      if distance <= deltaEThreshold {
        JoinGroup(cs, groups, j, colorCount);
        addedToExistingGroup := true;
        break;
      }
      assert groups[j].Value() == before[j];
      j := j + 1;
    }
    PlaceJoinsFirst(cs, before, colorCount, deltaEThreshold, j);
    updated := groups;
    if addedToExistingGroup {
      assert Snapshot(updated) == before[j := AddTo(cs, before[j], colorCount)];
    } else {
      var group := new ColorGroup.Init(colorCount);
      updated := groups + [group];
      assert Snapshot(updated) == before + [NewGroup(colorCount)];
    }
  }

  /** group.addColor(colorCount) on the j-th group of the list: only that group changes. */
  method JoinGroup(cs: ColorSpace, groups: seq<ColorGroup>, j: int, colorCount: ColorCount)
    requires 0 <= j < |groups| && Distinct(groups)
    requires forall k :: 0 <= k < |groups| ==> groups[k].Valid()
    modifies groups[j]
    ensures Snapshot(groups) == old(Snapshot(groups))[j := AddTo(cs, old(groups[j].Value()), colorCount)]
    ensures forall k :: 0 <= k < |groups| ==> groups[k].Valid()
  {
    ghost var before := Snapshot(groups);
    groups[j].AddColor(cs, colorCount);
    assert forall k :: 0 <= k < |groups| && k != j ==> groups[k].Value() == before[k];
  }

  /** quantizeColors(extractedColors): the default threshold. */
  method QuantizeColorsDefault(cs: ColorSpace, extractedColors: Option<seq<ColorCount>>)
    returns (groups: seq<ColorGroup>)
    ensures Snapshot(groups) == Quantize(cs, extractedColors, DefaultDeltaEThreshold)
    ensures Distinct(groups)
    ensures forall g :: g in groups ==> fresh(g) && g.Valid()
  {
    groups := QuantizeColors(cs, extractedColors, DefaultDeltaEThreshold);
  }

  /** Collections.sort(colorGroups): a stable sort of the objects by total count. */
  /** One turn of the insertion sort, proved against sorting the longer prefix. */
  method SortGroupsTurn(all: seq<ColorGroup>, ghost values: seq<Group>, i: int, sorted: seq<ColorGroup>)
    returns (next: seq<ColorGroup>)
    requires 0 <= i < |all| && values == Snapshot(all)
    requires Snapshot(sorted) == SortDesc(values[..i], GroupCount) && multiset(sorted) == multiset(all[..i])
    ensures Snapshot(next) == SortDesc(values[..i + 1], GroupCount) && multiset(next) == multiset(all[..i + 1])
  {
    PrefixStep(all, i);
    SortStep(values, i, GroupCount);
    next := InsertGroup(sorted, all[i]);
  }

  method SortGroups(gs: seq<ColorGroup>) returns (sorted: seq<ColorGroup>)
    ensures Snapshot(sorted) == SortDesc(Snapshot(gs), GroupCount)
    ensures multiset(sorted) == multiset(gs)
  {
    ghost var values := Snapshot(gs);
    sorted := [];
    for i := 0 to |gs|
      invariant Snapshot(sorted) == SortDesc(values[..i], GroupCount)
      invariant multiset(sorted) == multiset(gs[..i])
    {
      sorted := SortGroupsTurn(gs, values, i, sorted);
    }
    Whole(gs);
    Whole(values);
  }

  /** A rearrangement of group objects draws on the same objects and keeps them apart. */
  lemma Rearranged(gs: seq<ColorGroup>, sorted: seq<ColorGroup>)
    requires multiset(sorted) == multiset(gs)
    ensures forall g :: g in sorted ==> g in gs
    ensures Distinct(gs) ==> Distinct(sorted)
  {
    forall g | g in sorted ensures g in gs {
      assert g in multiset(gs);
    }
    if Distinct(gs) {
      DistinctIsInjective(gs);
      PermutationKeepsInjective(gs, sorted, Identity);
      DistinctIsInjective(sorted);
    }
  }

  function Identity(g: ColorGroup): ColorGroup
  {
    g
  }

  lemma DistinctIsInjective(gs: seq<ColorGroup>)
    ensures Distinct(gs) <==> InjectiveOn(gs, Identity)
  {
  }

  /** One insertion step: x goes after every group whose total is at least its own. */
  method InsertGroup(sorted: seq<ColorGroup>, x: ColorGroup) returns (r: seq<ColorGroup>)
    ensures Snapshot(r) == Insert(x.Value(), Snapshot(sorted), GroupCount)
    ensures multiset(r) == multiset(sorted) + multiset{x}
  {
    var p := 0;
    while p < |sorted| && x.totalCount <= sorted[p].totalCount
      invariant 0 <= p <= |sorted|
      invariant forall q :: 0 <= q < p ==> x.totalCount <= sorted[q].totalCount
    {
      p := p + 1;
    }
    InsertPosition(x.Value(), Snapshot(sorted), GroupCount, p);
    SnapshotSplice(sorted, p, x);
    assert sorted == sorted[..p] + sorted[p..];
    r := sorted[..p] + [x] + sorted[p..];
  }

  lemma SnapshotSplice(s: seq<ColorGroup>, p: int, x: ColorGroup)
    requires 0 <= p <= |s|
    ensures Snapshot(s[..p] + [x] + s[p..]) == Snapshot(s)[..p] + [x.Value()] + Snapshot(s)[p..]
  {
    var t := s[..p] + [x] + s[p..];
    var v := Snapshot(s);
    var w := v[..p] + [x.Value()] + v[p..];
    assert |Snapshot(t)| == |w|;
    forall i | 0 <= i < |t| ensures Snapshot(t)[i] == w[i] {
      if i < p {
        assert t[i] == s[i] && w[i] == v[i];
      } else if i == p {
        assert t[i] == x;
      } else {
        assert t[i] == s[i - 1] && w[i] == v[i - 1];
      }
    }
  }

  /** getRepresentativeColors: one colour per group, in group order. */
  function RepresentativeColors(groups: seq<ColorGroup>): (colors: seq<Color>)
    reads groups
    ensures |colors| == |groups|
    ensures forall i :: 0 <= i < |groups| ==> colors[i] == Snapshot(groups)[i].representative
  {
    if groups == [] then []
    else RepresentativeColors(groups[..|groups| - 1]) + [groups[|groups| - 1].representative]
  }

  // ---------------------------------------------------------------------------------------
  // Properties
  // ---------------------------------------------------------------------------------------

  /** One more entry offered while below the cap. */
  lemma GroupedStep(cs: ColorSpace, s: seq<ColorCount>, threshold: real, i: int, prior: seq<Group>, next: seq<Group>)
    requires 0 <= i < |s| && prior == Grouped(cs, s[..i], threshold) && |prior| < MaxColorGroups
    requires next == Place(cs, prior, s[i], threshold)
    ensures next == Grouped(cs, s[..i + 1], threshold)
  {
    assert s[..i + 1][..i] == s[..i];
  }

  /** The outer loop ends with the list or at the cap; either way its groups are those of
      the whole list. */
  lemma LoopExit(cs: ColorSpace, s: seq<ColorCount>, threshold: real, m: int)
    requires 0 <= m <= |s|
    requires m < |s| ==> |Grouped(cs, s[..m], threshold)| >= MaxColorGroups
    ensures Grouped(cs, s, threshold) == Grouped(cs, s[..m], threshold)
  {
    if m < |s| {
      GroupedStops(cs, s, threshold, m);
    } else {
      assert s[..m] == s;
    }
  }

  /** Once the cap is reached the rest of the list is never looked at. */
  lemma {:induction false} GroupedStops(cs: ColorSpace, s: seq<ColorCount>, threshold: real, m: int)
    requires 0 <= m <= |s| && |Grouped(cs, s[..m], threshold)| >= MaxColorGroups
    ensures Grouped(cs, s, threshold) == Grouped(cs, s[..m], threshold)
    decreases |s|
  {
    if m < |s| {
      var front := s[..|s| - 1];
      assert front[..m] == s[..m];
      GroupedStops(cs, front, threshold, m);
    } else {
      assert s[..m] == s;
    }
  }

  /** ... and processedColors stays where the cap was reached. */
  lemma {:induction false} ConsumedStops(cs: ColorSpace, s: seq<ColorCount>, threshold: real, m: int)
    requires 0 <= m <= |s| && |Grouped(cs, s[..m], threshold)| >= MaxColorGroups
    ensures Consumed(cs, s, threshold) == Consumed(cs, s[..m], threshold)
    decreases |s|
  {
    if m < |s| {
      var front := s[..|s| - 1];
      assert front[..m] == s[..m];
      GroupedStops(cs, front, threshold, m);
      ConsumedStops(cs, front, threshold, m);
    } else {
      assert s[..m] == s;
    }
  }

  /** Offering an entry adds its count to the grand total of the groups and its percentage
      to their summed percentages, whether it joins a group or founds one. */
  lemma PlaceTotals(cs: ColorSpace, gs: seq<Group>, cc: ColorCount, threshold: real)
    ensures Sum(Place(cs, gs, cc, threshold), GroupCount) == Sum(gs, GroupCount) + CountValue(cc)
    ensures Sum(Place(cs, gs, cc, threshold), GroupPercentage) == Sum(gs, GroupPercentage) + PercentageValue(cc)
  {
    var i := FirstNear(cs, gs, cc.color, threshold);
    if i < |gs| {
      SumUpdate(gs, i, AddTo(cs, gs[i], cc), GroupCount);
      SumUpdate(gs, i, AddTo(cs, gs[i], cc), GroupPercentage);
    } else {
      SumAppend(gs, NewGroup(cc), GroupCount);
      SumAppend(gs, NewGroup(cc), GroupPercentage);
    }
  }

  /** One unfolding of the outer loop: the last entry is either skipped, because the cap
      was reached before it, or placed. */
  lemma GroupedLast(cs: ColorSpace, s: seq<ColorCount>, threshold: real)
    requires s != []
    ensures var front := s[..|s| - 1];
      |Grouped(cs, front, threshold)| >= MaxColorGroups ==>
        Grouped(cs, s, threshold) == Grouped(cs, front, threshold)
        && Consumed(cs, s, threshold) == Consumed(cs, front, threshold)
    ensures var front := s[..|s| - 1];
      |Grouped(cs, front, threshold)| < MaxColorGroups ==>
        Grouped(cs, s, threshold) == Place(cs, Grouped(cs, front, threshold), s[|s| - 1], threshold)
        && Consumed(cs, s, threshold) == |s| && Consumed(cs, front, threshold) == |s| - 1
  {
  }

  /** No pixel is lost or counted twice: the groups' totals add up to the counts (and the
      percentages) of exactly the entries the loop processed. */
  lemma {:induction false} GroupedTotals(cs: ColorSpace, s: seq<ColorCount>, threshold: real)
    ensures Sum(Grouped(cs, s, threshold), GroupCount) == Sum(s[..Consumed(cs, s, threshold)], CountValue)
    ensures Sum(Grouped(cs, s, threshold), GroupPercentage) == Sum(s[..Consumed(cs, s, threshold)], PercentageValue)
  {
    if s == [] {
      assert s[..0] == [];
    } else {
      var n := |s| - 1;
      var front := s[..n];
      var prev := Grouped(cs, front, threshold);
      var m := Consumed(cs, front, threshold);
      GroupedTotals(cs, front, threshold);
      GroupedLast(cs, s, threshold);
      if |prev| >= MaxColorGroups {
        PrefixOfPrefix(s, n, m);
      } else {
        PrefixStep(s, n);
        Whole(front);
        PlaceTotals(cs, prev, s[n], threshold);
        SumAppend(front, s[n], CountValue);
        SumAppend(front, s[n], PercentageValue);
      }
    }
  }

  /** The same totals survive the ranking; below the cap they are those of the whole list. */
  lemma QuantizeTotals(cs: ColorSpace, s: seq<ColorCount>, threshold: real)
    ensures Sum(Quantize(cs, Some(s), threshold), GroupCount) == Sum(s[..Consumed(cs, s, threshold)], CountValue)
    ensures Sum(Quantize(cs, Some(s), threshold), GroupPercentage) == Sum(s[..Consumed(cs, s, threshold)], PercentageValue)
    ensures |Grouped(cs, s, threshold)| < MaxColorGroups ==>
              Sum(Quantize(cs, Some(s), threshold), GroupCount) == Sum(s, CountValue)
  {
    GroupedTotals(cs, s, threshold);
    SumSort(Grouped(cs, s, threshold), GroupCount, GroupCount);
    SumSort(Grouped(cs, s, threshold), GroupCount, GroupPercentage);
    assert s[..|s|] == s;
  }

  /** The members of a group, as a bag. */
  function MembersOf(g: Group): multiset<ColorCount>
  {
    multiset(g.members)
  }

  /** Offering an entry puts it into exactly one group and moves no other member. */
  lemma PlaceMembers(cs: ColorSpace, gs: seq<Group>, cc: ColorCount, threshold: real)
    ensures Union(Place(cs, gs, cc, threshold), MembersOf) == Union(gs, MembersOf) + multiset{cc}
  {
    var i := FirstNear(cs, gs, cc.color, threshold);
    if i < |gs| {
      var h := AddTo(cs, gs[i], cc);
      assert MembersOf(h) == MembersOf(gs[i]) + multiset{cc};
      UnionGrow(gs, i, h, multiset{cc}, MembersOf);
    } else {
      UnionAppend(gs, NewGroup(cc), MembersOf);
      assert MembersOf(NewGroup(cc)) == multiset{cc};
    }
  }

  /** Every processed entry is a member of exactly one group, and nothing else is. */
  lemma {:induction false} GroupedMembers(cs: ColorSpace, s: seq<ColorCount>, threshold: real)
    ensures Union(Grouped(cs, s, threshold), MembersOf) == multiset(s[..Consumed(cs, s, threshold)])
  {
    if s == [] {
      assert s[..0] == [];
    } else {
      var n := |s| - 1;
      var front := s[..n];
      var prev := Grouped(cs, front, threshold);
      var m := Consumed(cs, front, threshold);
      GroupedMembers(cs, front, threshold);
      GroupedLast(cs, s, threshold);
      if |prev| >= MaxColorGroups {
        PrefixOfPrefix(s, n, m);
      } else {
        PrefixStep(s, n);
        Whole(front);
        PlaceMembers(cs, prev, s[n], threshold);
      }
    }
  }

  /** After the ranking, the members of all groups are still exactly the processed entries;
      below the cap, that is the whole list. */
  lemma QuantizeMembers(cs: ColorSpace, s: seq<ColorCount>, threshold: real)
    ensures Union(Quantize(cs, Some(s), threshold), MembersOf) == multiset(s[..Consumed(cs, s, threshold)])
    ensures |Grouped(cs, s, threshold)| < MaxColorGroups ==>
              Union(Quantize(cs, Some(s), threshold), MembersOf) == multiset(s)
  {
    GroupedMembers(cs, s, threshold);
    UnionSort(Grouped(cs, s, threshold), GroupCount, MembersOf);
    assert s[..|s|] == s;
  }

  /** Two entries of the same colour end up in one group, whatever the threshold, as long
      as it is not negative and the square root of zero is zero. */
  lemma SameColorOneGroup(cs: ColorSpace, a: ColorCount, b: ColorCount, threshold: real)
    requires a.color.rgb == b.color.rgb && cs.sqrt(0.0) == 0.0 && threshold >= 0.0
    ensures Grouped(cs, [a, b], threshold) == [AddTo(cs, NewGroup(a), b)]
  {
    assert [a, b][..1] == [a] && [a][..0] == [];
    assert Near(cs, b.color, NewGroup(a), threshold);
  }

  /** Two entries farther apart than the threshold found two groups, in input order. */
  lemma FarColorsTwoGroups(cs: ColorSpace, a: ColorCount, b: ColorCount, threshold: real)
    requires DeltaE(cs, b.color, a.color) > threshold
    ensures Grouped(cs, [a, b], threshold) == [NewGroup(a), NewGroup(b)]
  {
    assert [a, b][..1] == [a] && [a][..0] == [];
    assert !Near(cs, b.color, NewGroup(a), threshold);
  }

  /** A null list and an empty list both give no groups. */
  lemma QuantizeNothing(cs: ColorSpace, threshold: real)
    ensures Quantize(cs, None, threshold) == [] && Quantize(cs, Some([]), threshold) == []
  {
  }

  /** The first entry always founds a group, and groups are never removed: a non-empty
      list gives at least one group. */
  lemma {:induction false} GroupedNonEmpty(cs: ColorSpace, s: seq<ColorCount>, threshold: real)
    requires s != []
    ensures Grouped(cs, s, threshold) != []
  {
    var n := |s| - 1;
    if n > 0 {
      GroupedNonEmpty(cs, s[..n], threshold);
    } else {
      assert s[..n] == [];
    }
  }

  lemma QuantizeSomething(cs: ColorSpace, s: seq<ColorCount>, threshold: real)
    requires s != []
    ensures Quantize(cs, Some(s), threshold) != []
  {
    GroupedNonEmpty(cs, s, threshold);
    var g := Grouped(cs, s, threshold)[0];
    assert g in multiset(Grouped(cs, s, threshold));
  }
}
