/** ColorClusterer: weighted k-means in LAB space. Seeds are chosen k-means++ style (the
    most frequent colour first, then colours drawn with probability growing with their
    squared distance from the seeds so far); then every entry is assigned to its nearest
    centre and every centre moves to the count-weighted mean of its members, until no centre
    moves by more than ConvergenceThreshold or MaxIterations passes have run. The clusters
    come back ranked by pixel count. */
module ColorClusterer {
  import opened Wrappers
  import opened ColorModel
  import opened Sorting
  import opened ColorExtractor
  import opened Weighting

  const MaxIterations: int := 50

  /** A centre that moves less than this (in LAB units) has converged. */
  const ConvergenceThreshold: real := 0.1

  /** Double.MAX_VALUE, (2 - 2^-52) * 2^1023, written out exactly. */
  const MaxDouble: real := 179769313486231570814527423731704356798070567525844996598917476803157260780028538760589558632766878171540458953514382464234321326889464182768467546703537516986049910576551282076245490090389328944075868508455133942304583236903222948165808559332123348274797826204144723168738177180919299881250404026184124858368.0

  /** IllegalArgumentException for a bad k, and the NullPointerException raised when an
      entry finds no nearest cluster (every distance is at least Double.MAX_VALUE). */
  datatype ClusterError = InvalidK | NoNearestCluster

  /** What a ColorCluster holds: the centre colour, the members of the current pass, their
      pixel-count and percentage totals, and the centre's LAB coordinates. */
  datatype Cluster = Cluster(center: Color, members: seq<ColorCount>, totalPixelCount: int,
                             totalPercentage: real, labCenter: Lab)

  /** The ranking key of the final sort: larger pixel counts first. */
  function PixelCount(c: Cluster): real
  {
    c.totalPixelCount as real
  }

  function ClusterPercentage(c: Cluster): real
  {
    c.totalPercentage
  }

  function MembersOf(c: Cluster): multiset<ColorCount>
  {
    multiset(c.members)
  }

  /** The totals are the sums over the members. */
  predicate Tallied(c: Cluster)
  {
    c.totalPixelCount as real == Sum(c.members, CountValue)
    && c.totalPercentage == Sum(c.members, PercentageValue)
  }

  /** new ColorCluster(initialCenter): no members, the centre's LAB point from getLAB. */
  function NewCluster(cs: ColorSpace, initialCenter: Color): (c: Cluster)
    ensures Tallied(c) && c.members == [] && c.center == initialCenter
    ensures c.labCenter == cs.toLab(initialCenter.rgb)
  {
    Cluster(initialCenter, [], 0, 0.0, cs.toLab(initialCenter.rgb))
  }

  /** addMember: the entry is appended and the totals grow; the centre does not move. */
  function WithMember(c: Cluster, cc: ColorCount): (d: Cluster)
    ensures d.members == c.members + [cc]
    ensures d.center == c.center && d.labCenter == c.labCenter
    ensures Tallied(c) ==> Tallied(d)
  {
    SumAppend(c.members, cc, CountValue);
    SumAppend(c.members, cc, PercentageValue);
    c.(members := c.members + [cc], totalPixelCount := c.totalPixelCount + cc.count,
       totalPercentage := c.totalPercentage + cc.percentage)
  }

  /** clearMembers: no members and zero totals; the centre stays. */
  function Cleared(c: Cluster): (d: Cluster)
    ensures Tallied(d) && d.members == []
    ensures d.center == c.center && d.labCenter == c.labCenter
  {
    c.(members := [], totalPixelCount := 0, totalPercentage := 0.0)
  }

  /** Whether updateCenter finds a new centre: some members, with a non-zero total weight. */
  predicate HasMean(c: Cluster)
  {
    |c.members| > 0 && TotalWeight(c.members) != 0
  }

  /** updateCenter, the new state: the centre moves to the weighted mean of the members, or
      stays where it is when there is none. Members and totals are untouched. */
  function Recentered(cs: ColorSpace, c: Cluster): (d: Cluster)
    ensures d.members == c.members && d.totalPixelCount == c.totalPixelCount
    ensures d.totalPercentage == c.totalPercentage
    ensures HasMean(c) ==> d.labCenter == MeanLab(cs, c.members) && d.center == cs.fromLab(d.labCenter)
    ensures !HasMean(c) ==> d == c
  {
    if HasMean(c) then
      var mean := MeanLab(cs, c.members);
      c.(labCenter := mean, center := cs.fromLab(mean))
    else c
  }

  /** updateCenter, the answer: whether the centre moved by more than the threshold. A
      cluster without a mean reports no move. */
  predicate Moved(cs: ColorSpace, c: Cluster)
  {
    HasMean(c) && LabDistance(cs, c.labCenter, MeanLab(cs, c.members)) > ConvergenceThreshold
  }

  /** The LAB centres of a list of clusters, in order. */
  function Centers(vs: seq<Cluster>): (ls: seq<Lab>)
    ensures |ls| == |vs| && forall i :: 0 <= i < |vs| ==> ls[i] == vs[i].labCenter
  {
    seq(|vs|, i requires 0 <= i < |vs| => vs[i].labCenter)
  }

  // ---------------------------------------------------------------------------------------
  // findNearestCluster
  // ---------------------------------------------------------------------------------------

  /** The scan of findNearestCluster over the first centres: the cluster chosen so far (none
      at first) and minDistance (Double.MAX_VALUE at first). A centre replaces the choice
      only when strictly nearer, so the choice is the earliest of the nearest centres. */
  function NearestScan(cs: ColorSpace, p: Lab, ls: seq<Lab>): (r: (Option<nat>, real))
    ensures r.0.None? ==> r.1 == MaxDouble && forall j :: 0 <= j < |ls| ==> LabDistance(cs, p, ls[j]) >= MaxDouble
    ensures r.0.Some? ==> r.0.value < |ls| && r.1 == LabDistance(cs, p, ls[r.0.value]) && r.1 < MaxDouble
    ensures r.0.Some? ==> forall j :: 0 <= j < r.0.value ==> LabDistance(cs, p, ls[j]) > r.1
    ensures r.0.Some? ==> forall j :: r.0.value < j < |ls| ==> LabDistance(cs, p, ls[j]) >= r.1
  {
    if ls == [] then (None, MaxDouble)
    else
      var n := |ls| - 1;
      var prev := NearestScan(cs, p, ls[..n]);
      assert forall j :: 0 <= j < n ==> ls[..n][j] == ls[j];
      var d := LabDistance(cs, p, ls[n]);
      if d < prev.1 then (Some(n), d) else prev
  }

  function Nearest(cs: ColorSpace, p: Lab, ls: seq<Lab>): Option<nat>
  {
    NearestScan(cs, p, ls).0
  }

  /** Nearest has one answer: the earliest centre strictly nearer than Double.MAX_VALUE
      and than every centre before it, and no farther than any after it; or none when
      every centre is at Double.MAX_VALUE or beyond. */
  lemma NearestUnique(cs: ColorSpace, p: Lab, ls: seq<Lab>, i: int)
    requires 0 <= i < |ls| && LabDistance(cs, p, ls[i]) < MaxDouble
    requires forall j :: 0 <= j < i ==> LabDistance(cs, p, ls[j]) > LabDistance(cs, p, ls[i])
    requires forall j :: i < j < |ls| ==> LabDistance(cs, p, ls[j]) >= LabDistance(cs, p, ls[i])
    ensures Nearest(cs, p, ls) == Some(i)
  {
    var r := NearestScan(cs, p, ls);
    var chosen := LabDistance(cs, p, ls[i]);
    if r.0.Some? {
      var found := LabDistance(cs, p, ls[r.0.value]);
    }
  }

  // ---------------------------------------------------------------------------------------
  // One pass of k-means, on values
  // ---------------------------------------------------------------------------------------

  function ClearAll(vs: seq<Cluster>): (ws: seq<Cluster>)
    ensures |ws| == |vs| && forall i :: 0 <= i < |vs| ==> ws[i] == Cleared(vs[i])
  {
    seq(|vs|, i requires 0 <= i < |vs| => Cleared(vs[i]))
  }

  function UpdateAll(cs: ColorSpace, vs: seq<Cluster>): (ws: seq<Cluster>)
    ensures |ws| == |vs| && forall i :: 0 <= i < |vs| ==> ws[i] == Recentered(cs, vs[i])
  {
    seq(|vs|, i requires 0 <= i < |vs| => Recentered(cs, vs[i]))
  }

  /** centersChanged after the update loop: some cluster reported a move. Every cluster is
      updated; there is no early exit. */
  predicate AnyMoved(cs: ColorSpace, vs: seq<Cluster>)
  {
    exists i :: 0 <= i < |vs| && Moved(cs, vs[i])
  }

  /** One entry assigned: it joins its nearest cluster; none when there is no nearest. */
  function AssignOne(cs: ColorSpace, vs: seq<Cluster>, cc: ColorCount): Option<seq<Cluster>>
  {
    match Nearest(cs, cs.toLab(cc.color.rgb), Centers(vs))
    case None => None
    case Some(i) => Some(vs[i := WithMember(vs[i], cc)])
  }

  /** The assignment loop over the entries, in order; it fails at the first entry without a
      nearest cluster. */
  function AssignAll(cs: ColorSpace, colors: seq<ColorCount>, vs: seq<Cluster>): Option<seq<Cluster>>
  {
    if colors == [] then Some(vs)
    else
      match AssignAll(cs, colors[..|colors| - 1], vs)
      case None => None
      case Some(ws) => AssignOne(cs, ws, colors[|colors| - 1])
  }

  /** One iteration: clear, assign, update; with whether any centre moved. */
  function Pass(cs: ColorSpace, colors: seq<ColorCount>, vs: seq<Cluster>): Option<(seq<Cluster>, bool)>
  {
    match AssignAll(cs, colors, ClearAll(vs))
    case None => None
    case Some(ws) => Some((UpdateAll(cs, ws), AnyMoved(cs, ws)))
  }

  /** runKMeansIterations from the given state: the clusters and the iteration count at
      the end. */
  function Iterate(cs: ColorSpace, colors: seq<ColorCount>, vs: seq<Cluster>, iteration: int, changed: bool)
    : Result<(seq<Cluster>, int), ClusterError>
    requires 0 <= iteration <= MaxIterations
    decreases MaxIterations - iteration
  {
    if !changed || iteration >= MaxIterations then Success((vs, iteration))
    else
      match Pass(cs, colors, vs)
      case None => Failure(NoNearestCluster)
      case Some((ws, moved)) => Iterate(cs, colors, ws, iteration + 1, moved)
  }

  // ---------------------------------------------------------------------------------------
  // k-means++ seeding, on values
  // ---------------------------------------------------------------------------------------

  function Min(a: real, b: real): real
  {
    if a <= b then a else b
  }

  /** The inner loop of findFarthestColor: the smallest distance from p to a centre,
      starting from Double.MAX_VALUE. */
  function MinDistance(cs: ColorSpace, p: Lab, ls: seq<Lab>): real
  {
    if ls == [] then MaxDouble
    else Min(MinDistance(cs, p, ls[..|ls| - 1]), LabDistance(cs, p, ls[|ls| - 1]))
  }

  /** A candidate's selection weight: its squared distance to the nearest seed. */
  function CandidateWeight(cs: ColorSpace, cc: ColorCount, ls: seq<Lab>): real
  {
    var m := MinDistance(cs, cs.toLab(cc.color.rgb), ls);
    m * m
  }

  function Weights(cs: ColorSpace, candidates: seq<ColorCount>, ls: seq<Lab>): (ws: seq<real>)
    ensures |ws| == |candidates|
    ensures forall i :: 0 <= i < |candidates| ==> ws[i] == CandidateWeight(cs, candidates[i], ls)
  {
    seq(|candidates|, i requires 0 <= i < |candidates| => CandidateWeight(cs, candidates[i], ls))
  }

  function RealValue(x: real): real
  {
    x
  }

  /** The running total of the first weights. */
  function Cumulative(ws: seq<real>, i: int): real
    requires 0 <= i <= |ws|
  {
    Sum(ws[..i], RealValue)
  }

  /** The selection loop from position i on, with the weights before i already added up:
      the first position whose running total reaches the target, the last one otherwise. */
  function PickFrom(ws: seq<real>, target: real, i: int, cumulative: real): (r: int)
    requires 0 <= i < |ws| && cumulative == Cumulative(ws, i)
    ensures i <= r < |ws|
    ensures forall j :: i < j <= r ==> target > Cumulative(ws, j)
    ensures target <= Cumulative(ws, r + 1) || r == |ws| - 1
    decreases |ws| - i
  {
    CumulativeStep(ws, i);
    var c := cumulative + ws[i];
    if target <= c || i == |ws| - 1 then i else PickFrom(ws, target, i + 1, c)
  }

  lemma CumulativeStep(ws: seq<real>, i: int)
    requires 0 <= i < |ws|
    ensures Cumulative(ws, i + 1) == Cumulative(ws, i) + ws[i]
  {
    PrefixStep(ws, i);
    SumAppend(ws[..i], ws[i], RealValue);
  }

  function Pick(ws: seq<real>, target: real): (r: int)
    requires |ws| > 0
    ensures 0 <= r < |ws|
  {
    assert ws[..0] == [];
    PickFrom(ws, target, 0, 0.0)
  }

  /** The weighted selection has one answer: the first position whose running total
      reaches the target, or the last position when none does. It is always a candidate. */
  lemma PickUnique(ws: seq<real>, target: real, i: int)
    requires 0 <= i < |ws|
    requires forall j :: 0 < j <= i ==> target > Cumulative(ws, j)
    requires target <= Cumulative(ws, i + 1) || i == |ws| - 1
    ensures Pick(ws, target) == i
  {
    assert ws[..0] == [];
    var r := Pick(ws, target);
    var reached := Cumulative(ws, r + 1);
    var chosen := Cumulative(ws, i + 1);
  }

  /** randomValue: the drawn fraction of the total weight. */
  function DrawTarget(totalWeight: real, draw: real): real
  {
    draw * totalWeight
  }

  /** findFarthestColor on values: the index of the candidate drawn when nextDouble()
      gives draw. */
  function Farthest(cs: ColorSpace, candidates: seq<ColorCount>, ls: seq<Lab>, draw: real): (i: int)
    requires |candidates| > 0
    ensures 0 <= i < |candidates|
  {
    var ws := Weights(cs, candidates, ls);
    Pick(ws, DrawTarget(Sum(ws, RealValue), draw))
  }

  /** The first position of an entry equal to x (count and colour), or |s|. */
  function FirstEqual(s: seq<ColorCount>, x: ColorCount): (j: nat)
    ensures j <= |s|
    ensures forall q :: 0 <= q < j ==> !SameCountAndColor(s[q], x)
    ensures j < |s| ==> SameCountAndColor(s[j], x)
  {
    if s == [] then 0
    else if SameCountAndColor(s[0], x) then 0
    else 1 + FirstEqual(s[1..], x)
  }

  /** List.remove(Object): the first equal entry goes, the others keep their order. */
  function RemoveFirst(s: seq<ColorCount>, x: ColorCount): (r: seq<ColorCount>)
    ensures FirstEqual(s, x) < |s| ==>
      r == s[..FirstEqual(s, x)] + s[FirstEqual(s, x) + 1..] && |r| == |s| - 1
    ensures FirstEqual(s, x) == |s| ==> r == s
  {
    var j := FirstEqual(s, x);
    if j < |s| then s[..j] + s[j + 1..] else s
  }

  /** The entry RemoveFirst takes out, when there is one. */
  function Removed(s: seq<ColorCount>, x: ColorCount): ColorCount
    requires FirstEqual(s, x) < |s|
  {
    s[FirstEqual(s, x)]
  }

  /** A way of drawing the next seed: given the pool, the seeds so far and the turn, the
      position of a candidate in the pool. */
  ghost predicate Chooser(choose: (seq<ColorCount>, seq<Cluster>, int) -> int)
  {
    forall r, v, i :: |r| > 0 ==> 0 <= choose(r, v, i) < |r|
  }

  /** findFarthestColor with the random stream: turn i uses the i-th value, draws(i - 1). */
  function FarthestChooser(cs: ColorSpace, draws: nat -> real): (seq<ColorCount>, seq<Cluster>, int) -> int
  {
    (r: seq<ColorCount>, v: seq<Cluster>, i: int) =>
      if |r| > 0 && i >= 1 then Farthest(cs, r, Centers(v), draws(i - 1)) else 0
  }

  /** The weighted selection always returns a candidate. */
  lemma FarthestChooserValid(cs: ColorSpace, draws: nat -> real)
    ensures Chooser(FarthestChooser(cs, draws))
  {
    var choose := FarthestChooser(cs, draws);
    forall r, v, i | |r| > 0 ensures 0 <= choose(r, v, i) < |r| {
      if i >= 1 {
        assert choose(r, v, i) == Farthest(cs, r, Centers(v), draws(i - 1));
      }
    }
  }

  /** The seeding loop from turn i on: while fewer than k seeds and candidates remain, the
      drawn candidate's colour becomes a seed and the candidate leaves the pool. */
  function SeedsFrom(cs: ColorSpace, remaining: seq<ColorCount>, vs: seq<Cluster>, i: int, k: int,
                     choose: (seq<ColorCount>, seq<Cluster>, int) -> int): seq<Cluster>
    requires Chooser(choose)
    decreases |remaining|
  {
    if i < k && |remaining| > 0 then
      var x := remaining[choose(remaining, vs, i)];
      SeedsFrom(cs, RemoveFirst(remaining, x), vs + [NewCluster(cs, x.color)], i + 1, k, choose)
    else vs
  }

  /** The candidates the seeding loop takes out of the pool, in order. */
  function TakenFrom(cs: ColorSpace, remaining: seq<ColorCount>, vs: seq<Cluster>, i: int, k: int,
                     choose: (seq<ColorCount>, seq<Cluster>, int) -> int): seq<ColorCount>
    requires Chooser(choose)
    decreases |remaining|
  {
    if i < k && |remaining| > 0 then
      var x := remaining[choose(remaining, vs, i)];
      [Removed(remaining, x)]
        + TakenFrom(cs, RemoveFirst(remaining, x), vs + [NewCluster(cs, x.color)], i + 1, k, choose)
    else []
  }

  /** initializeClusters on values: the first entry is the first seed. */
  function Seeds(cs: ColorSpace, colors: seq<ColorCount>, k: int, draws: nat -> real): seq<Cluster>
    requires |colors| > 0
  {
    FarthestChooserValid(cs, draws);
    SeedsFrom(cs, RemoveFirst(colors, colors[0]), [NewCluster(cs, colors[0].color)], 1, k,
              FarthestChooser(cs, draws))
  }

  /** clusterColors on values: nothing for a null or empty list, InvalidK for k outside
      1..n, otherwise the clusters after the iterations, ranked by pixel count (the sort
      is stable). */
  function Clustered(cs: ColorSpace, extractedColors: Option<seq<ColorCount>>, k: int, draws: nat -> real)
    : (r: Result<seq<Cluster>, ClusterError>)
    ensures extractedColors.None? || extractedColors.value == [] ==> r == Success([])
    ensures extractedColors.Some? && extractedColors.value != [] && (k <= 0 || k > |extractedColors.value|) ==>
              r == Failure(InvalidK)
    ensures r.Success? ==> SortedDesc(r.value, PixelCount)
  {
    if extractedColors.None? || |extractedColors.value| == 0 then Success([])
    else
      var colors := extractedColors.value;
      if k <= 0 || k > |colors| then Failure(InvalidK)
      else
        match Iterate(cs, colors, Seeds(cs, colors, k, draws), 0, true)
        case Failure(e) => Failure(e)
        case Success((vs, _)) => Success(SortDesc(vs, PixelCount))
  }

  // ---------------------------------------------------------------------------------------
  // Properties of the seeding
  // ---------------------------------------------------------------------------------------

  /** The entries the seeding takes, the first one included. */
  function Taken(cs: ColorSpace, colors: seq<ColorCount>, k: int, draws: nat -> real): seq<ColorCount>
    requires |colors| > 0
  {
    FarthestChooserValid(cs, draws);
    [colors[0]] + TakenFrom(cs, RemoveFirst(colors, colors[0]), [NewCluster(cs, colors[0].color)], 1, k,
                            FarthestChooser(cs, draws))
  }

  /** Removing an entry that is in the list removes exactly one entry equal to it. */
  lemma RemoveFirstPresent(s: seq<ColorCount>, f: int)
    requires 0 <= f < |s|
    ensures FirstEqual(s, s[f]) <= f
    ensures |RemoveFirst(s, s[f])| == |s| - 1
    ensures multiset(RemoveFirst(s, s[f])) + multiset{Removed(s, s[f])} == multiset(s)
    ensures SameCountAndColor(Removed(s, s[f]), s[f])
  {
    var j := FirstEqual(s, s[f]);
    assert SameCountAndColor(s[f], s[f]);
    assert s == s[..j] + [s[j]] + s[j + 1..];
  }

  /** The seeding loop takes one candidate per turn until k seeds, each out of the pool:
      with enough candidates it takes exactly k - i of them, drawn without replacement. */
  lemma {:induction false} TakenFromCount(cs: ColorSpace, remaining: seq<ColorCount>, vs: seq<Cluster>,
                                         i: int, k: int, choose: (seq<ColorCount>, seq<Cluster>, int) -> int)
    requires Chooser(choose) && k - i <= |remaining|
    ensures |TakenFrom(cs, remaining, vs, i, k, choose)| == if i < k then k - i else 0
    ensures multiset(TakenFrom(cs, remaining, vs, i, k, choose)) <= multiset(remaining)
    decreases |remaining|
  {
    if i < k && |remaining| > 0 {
      var f := choose(remaining, vs, i);
      var x := remaining[f];
      RemoveFirstPresent(remaining, f);
      var rest := RemoveFirst(remaining, x);
      var ws := vs + [NewCluster(cs, x.color)];
      var later := TakenFrom(cs, rest, ws, i + 1, k, choose);
      var y := Removed(remaining, x);
      assert TakenFrom(cs, remaining, vs, i, k, choose) == [y] + later;
      assert multiset([y] + later) == multiset{y} + multiset(later);
      TakenFromCount(cs, rest, ws, i + 1, k, choose);
      SubBagGrow(multiset(later), multiset(rest), y);
    } else {
      assert TakenFrom(cs, remaining, vs, i, k, choose) == [];
    }
  }

  lemma SubBagGrow(a: multiset<ColorCount>, b: multiset<ColorCount>, y: ColorCount)
    requires a <= b
    ensures a + multiset{y} <= b + multiset{y}
  {
  }

  /** Each seed the loop adds is a new cluster on the colour of the candidate it takes. */
  lemma {:induction false} SeedsFromTaken(cs: ColorSpace, remaining: seq<ColorCount>, vs: seq<Cluster>,
                                         i: int, k: int, choose: (seq<ColorCount>, seq<Cluster>, int) -> int)
    requires Chooser(choose)
    ensures |SeedsFrom(cs, remaining, vs, i, k, choose)| == |vs| + |TakenFrom(cs, remaining, vs, i, k, choose)|
    ensures SeedsFrom(cs, remaining, vs, i, k, choose)[..|vs|] == vs
    ensures forall t :: 0 <= t < |TakenFrom(cs, remaining, vs, i, k, choose)| ==>
      SeedsFrom(cs, remaining, vs, i, k, choose)[|vs| + t]
        == NewCluster(cs, TakenFrom(cs, remaining, vs, i, k, choose)[t].color)
    decreases |remaining|
  {
    if i < k && |remaining| > 0 {
      var f := choose(remaining, vs, i);
      var x := remaining[f];
      var rest := RemoveFirst(remaining, x);
      var ws := vs + [NewCluster(cs, x.color)];
      SeedsFromTaken(cs, rest, ws, i + 1, k, choose);
      var seeds := SeedsFrom(cs, rest, ws, i + 1, k, choose);
      var later := TakenFrom(cs, rest, ws, i + 1, k, choose);
      var taken := [Removed(remaining, x)] + later;
      assert FirstEqual(remaining, x) <= f by {
        assert SameCountAndColor(remaining[f], x);
      }
      assert SeedsFrom(cs, remaining, vs, i, k, choose) == seeds;
      assert TakenFrom(cs, remaining, vs, i, k, choose) == taken;
      assert seeds[..|vs|] == vs by {
        assert seeds[..|vs|] == seeds[..|ws|][..|vs|];
      }
      var y := Removed(remaining, x);
      assert seeds[|vs|] == NewCluster(cs, y.color) by {
        assert seeds[|vs|] == seeds[..|ws|][|vs|];
        assert SameCountAndColor(y, x);
      }
      SeedsShift(cs, vs, ws, seeds, y, later);
    } else {
      assert SeedsFrom(cs, remaining, vs, i, k, choose) == vs;
      assert TakenFrom(cs, remaining, vs, i, k, choose) == [];
    }
  }

  lemma SeedsShift(cs: ColorSpace, vs: seq<Cluster>, ws: seq<Cluster>, seeds: seq<Cluster>, y: ColorCount,
                   later: seq<ColorCount>)
    requires |ws| == |vs| + 1 && |seeds| >= |ws| + |later|
    requires seeds[|vs|] == NewCluster(cs, y.color)
    requires forall u :: 0 <= u < |later| ==> seeds[|ws| + u] == NewCluster(cs, later[u].color)
    ensures forall t :: 0 <= t < 1 + |later| ==> seeds[|vs| + t] == NewCluster(cs, ([y] + later)[t].color)
  {
    forall t | 0 < t < 1 + |later| ensures seeds[|vs| + t] == NewCluster(cs, ([y] + later)[t].color) {
      var u := t - 1;
      assert seeds[|ws| + u] == NewCluster(cs, later[u].color);
    }
  }

  /** initializeClusters with 1 <= k <= n yields exactly k seeds; the first is the first
      entry's colour and each seed is the colour of a different entry (drawn without
      replacement). */
  lemma SeedsCount(cs: ColorSpace, colors: seq<ColorCount>, k: int, draws: nat -> real)
    requires 1 <= k <= |colors|
    ensures |Seeds(cs, colors, k, draws)| == k && |Taken(cs, colors, k, draws)| == k
    ensures Seeds(cs, colors, k, draws)[0] == NewCluster(cs, colors[0].color)
    ensures multiset(Taken(cs, colors, k, draws)) <= multiset(colors)
    ensures forall t :: 0 <= t < k ==>
      Seeds(cs, colors, k, draws)[t] == NewCluster(cs, Taken(cs, colors, k, draws)[t].color)
  {
    var first := [NewCluster(cs, colors[0].color)];
    RemoveFirstPresent(colors, 0);
    var rest := RemoveFirst(colors, colors[0]);
    assert Removed(colors, colors[0]) == colors[0];
    FarthestChooserValid(cs, draws);
    var choose := FarthestChooser(cs, draws);
    TakenFromCount(cs, rest, first, 1, k, choose);
    SeedsFromTaken(cs, rest, first, 1, k, choose);
    var later := TakenFrom(cs, rest, first, 1, k, choose);
    var seeds := SeedsFrom(cs, rest, first, 1, k, choose);
    var taken := [colors[0]] + later;
    assert Seeds(cs, colors, k, draws) == seeds && Taken(cs, colors, k, draws) == taken;
    assert multiset(taken) == multiset{colors[0]} + multiset(later);
    SubBagGrow(multiset(later), multiset(rest), colors[0]);
    assert seeds[0] == first[0] by {
      assert seeds[..1] == first;
    }
    SeedsShift(cs, [], first, seeds, colors[0], later);
  }

  function ColorOf(cc: ColorCount): Color
  {
    cc.color
  }

  /** On a histogram, where no two entries share a colour, the k seeds are k different
      colours. */
  lemma SeedsDistinct(cs: ColorSpace, colors: seq<ColorCount>, k: int, draws: nat -> real)
    requires 1 <= k <= |colors| && InjectiveOn(colors, ColorOf)
    ensures forall a, b :: 0 <= a < b < |Seeds(cs, colors, k, draws)| ==>
      Seeds(cs, colors, k, draws)[a].center != Seeds(cs, colors, k, draws)[b].center
  {
    SeedsCount(cs, colors, k, draws);
    var taken := Taken(cs, colors, k, draws);
    SubBagKeepsInjective(colors, taken, ColorOf);
    forall a, b | 0 <= a < b < |Seeds(cs, colors, k, draws)|
      ensures Seeds(cs, colors, k, draws)[a].center != Seeds(cs, colors, k, draws)[b].center
    {
      assert ColorOf(taken[a]) != ColorOf(taken[b]);
    }
  }

  // ---------------------------------------------------------------------------------------
  // Properties of the iterations
  // ---------------------------------------------------------------------------------------

  /** Every entry is a member of exactly one cluster, every cluster's totals are the sums
      over its members, and the clusters' totals add up to the entries' counts and
      percentages. */
  predicate Conserves(colors: seq<ColorCount>, vs: seq<Cluster>)
  {
    Union(vs, MembersOf) == multiset(colors)
    && Sum(vs, PixelCount) == Sum(colors, CountValue)
    && Sum(vs, ClusterPercentage) == Sum(colors, PercentageValue)
    && forall i :: 0 <= i < |vs| ==> Tallied(vs[i])
  }

  /** Cleared clusters hold nothing. */
  lemma {:induction false} ClearAllEmpty(vs: seq<Cluster>)
    ensures Union(ClearAll(vs), MembersOf) == multiset{}
    ensures Sum(ClearAll(vs), PixelCount) == 0.0 && Sum(ClearAll(vs), ClusterPercentage) == 0.0
  {
    if vs != [] {
      var n := |vs| - 1;
      assert ClearAll(vs)[..n] == ClearAll(vs[..n]);
      ClearAllEmpty(vs[..n]);
    }
  }

  /** Moving the centres keeps every member where it is. */
  lemma {:induction false} UpdateAllKeeps(cs: ColorSpace, vs: seq<Cluster>)
    ensures Union(UpdateAll(cs, vs), MembersOf) == Union(vs, MembersOf)
    ensures Sum(UpdateAll(cs, vs), PixelCount) == Sum(vs, PixelCount)
    ensures Sum(UpdateAll(cs, vs), ClusterPercentage) == Sum(vs, ClusterPercentage)
  {
    if vs != [] {
      var n := |vs| - 1;
      assert UpdateAll(cs, vs)[..n] == UpdateAll(cs, vs[..n]);
      UpdateAllKeeps(cs, vs[..n]);
    }
  }

  /** Assigning one entry adds it to exactly one cluster. */
  lemma AssignOneAdds(cs: ColorSpace, vs: seq<Cluster>, cc: ColorCount)
    requires AssignOne(cs, vs, cc).Some?
    ensures var ws := AssignOne(cs, vs, cc).value;
      |ws| == |vs|
      && Union(ws, MembersOf) == Union(vs, MembersOf) + multiset{cc}
      && Sum(ws, PixelCount) == Sum(vs, PixelCount) + CountValue(cc)
      && Sum(ws, ClusterPercentage) == Sum(vs, ClusterPercentage) + PercentageValue(cc)
      && ((forall i :: 0 <= i < |vs| ==> Tallied(vs[i])) ==> forall i :: 0 <= i < |ws| ==> Tallied(ws[i]))
  {
    var i := Nearest(cs, cs.toLab(cc.color.rgb), Centers(vs)).value;
    var d := WithMember(vs[i], cc);
    assert MembersOf(d) == MembersOf(vs[i]) + multiset{cc};
    UnionGrow(vs, i, d, multiset{cc}, MembersOf);
    SumUpdate(vs, i, d, PixelCount);
    SumUpdate(vs, i, d, ClusterPercentage);
  }

  /** The assignment loop adds every entry to exactly one cluster. */
  lemma {:induction false} AssignAllAdds(cs: ColorSpace, colors: seq<ColorCount>, vs: seq<Cluster>)
    requires AssignAll(cs, colors, vs).Some?
    ensures var ws := AssignAll(cs, colors, vs).value;
      |ws| == |vs|
      && Union(ws, MembersOf) == Union(vs, MembersOf) + multiset(colors)
      && Sum(ws, PixelCount) == Sum(vs, PixelCount) + Sum(colors, CountValue)
      && Sum(ws, ClusterPercentage) == Sum(vs, ClusterPercentage) + Sum(colors, PercentageValue)
      && ((forall i :: 0 <= i < |vs| ==> Tallied(vs[i])) ==> forall i :: 0 <= i < |ws| ==> Tallied(ws[i]))
  {
    if colors != [] {
      var n := |colors| - 1;
      var front := colors[..n];
      AssignAllAdds(cs, front, vs);
      var us := AssignAll(cs, front, vs).value;
      AssignOneAdds(cs, us, colors[n]);
      PrefixStep(colors, n);
      Whole(colors);
    }
  }

  /** A pass that completes leaves every entry in exactly one cluster, and the same number
      of clusters. */
  lemma PassConserves(cs: ColorSpace, colors: seq<ColorCount>, vs: seq<Cluster>)
    requires Pass(cs, colors, vs).Some?
    ensures |Pass(cs, colors, vs).value.0| == |vs|
    ensures Conserves(colors, Pass(cs, colors, vs).value.0)
  {
    var cleared := ClearAll(vs);
    ClearAllEmpty(vs);
    assert forall i :: 0 <= i < |cleared| ==> Tallied(cleared[i]);
    AssignAllAdds(cs, colors, cleared);
    var ws := AssignAll(cs, colors, cleared).value;
    UpdateAllKeeps(cs, ws);
    UpdateAllTallied(cs, ws);
  }

  /** Recentring every cluster keeps each one's totals in step with its members. */
  lemma UpdateAllTallied(cs: ColorSpace, vs: seq<Cluster>)
    requires forall i :: 0 <= i < |vs| ==> Tallied(vs[i])
    ensures forall i :: 0 <= i < |vs| ==> Tallied(UpdateAll(cs, vs)[i])
  {
    forall i | 0 <= i < |vs|
      ensures Tallied(UpdateAll(cs, vs)[i])
    {
      assert UpdateAll(cs, vs)[i] == Recentered(cs, vs[i]);
    }
  }

  /** runKMeansIterations runs at least one pass when it starts with changed set, at most
      MaxIterations in all, and keeps the number of clusters; after a pass, every entry is
      in exactly one cluster. */
  lemma {:induction false} IterateBounds(cs: ColorSpace, colors: seq<ColorCount>, vs: seq<Cluster>,
                                        iteration: int, changed: bool)
    requires 0 <= iteration <= MaxIterations
    requires Iterate(cs, colors, vs, iteration, changed).Success?
    ensures iteration <= Iterate(cs, colors, vs, iteration, changed).value.1 <= MaxIterations
    ensures |Iterate(cs, colors, vs, iteration, changed).value.0| == |vs|
    ensures changed && iteration < MaxIterations ==>
      Iterate(cs, colors, vs, iteration, changed).value.1 > iteration
      && Conserves(colors, Iterate(cs, colors, vs, iteration, changed).value.0)
    ensures Conserves(colors, vs) ==> Conserves(colors, Iterate(cs, colors, vs, iteration, changed).value.0)
    decreases MaxIterations - iteration
  {
    if changed && iteration < MaxIterations {
      IterateStep(cs, colors, vs, iteration);
      PassConserves(cs, colors, vs);
      var next := Pass(cs, colors, vs).value;
      IterateBounds(cs, colors, next.0, iteration + 1, next.1);
    }
  }

  /** A pass that is still needed succeeds when the whole run does, and the run goes on
      from its result. */
  lemma IterateStep(cs: ColorSpace, colors: seq<ColorCount>, vs: seq<Cluster>, iteration: int)
    requires 0 <= iteration < MaxIterations
    requires Iterate(cs, colors, vs, iteration, true).Success?
    ensures Pass(cs, colors, vs).Some?
    ensures Iterate(cs, colors, vs, iteration, true)
         == Iterate(cs, colors, Pass(cs, colors, vs).value.0, iteration + 1, Pass(cs, colors, vs).value.1)
  {
  }

  /** Ranking the clusters keeps every member where it is. */
  lemma SortConserves(colors: seq<ColorCount>, vs: seq<Cluster>)
    requires Conserves(colors, vs)
    ensures Conserves(colors, SortDesc(vs, PixelCount))
  {
    var sorted := SortDesc(vs, PixelCount);
    UnionSort(vs, PixelCount, MembersOf);
    SumSort(vs, PixelCount, PixelCount);
    SumSort(vs, PixelCount, ClusterPercentage);
    forall i | 0 <= i < |sorted| ensures Tallied(sorted[i]) {
      assert sorted[i] in multiset(vs);
    }
  }

  /** clusterColors with a valid k returns, unless some entry found no nearest cluster,
      exactly k clusters that share out all the entries, ranked by pixel count. */
  lemma ClusteredShape(cs: ColorSpace, colors: seq<ColorCount>, k: int, draws: nat -> real)
    requires 1 <= k <= |colors|
    requires Clustered(cs, Some(colors), k, draws).Success?
    ensures |Clustered(cs, Some(colors), k, draws).value| == k
    ensures Conserves(colors, Clustered(cs, Some(colors), k, draws).value)
  {
    var seeds := Seeds(cs, colors, k, draws);
    SeedsCount(cs, colors, k, draws);
    IterateBounds(cs, colors, seeds, 0, true);
    SortConserves(colors, Iterate(cs, colors, seeds, 0, true).value.0);
  }

  // ---------------------------------------------------------------------------------------
  // The ColorCluster object
  // ---------------------------------------------------------------------------------------

  class ColorCluster {
    var centerColor: Color
    var members: seq<ColorCount>
    var totalPixelCount: int
    var totalPercentage: real
    var labCenter: Lab

    function Value(): Cluster
      reads this
    {
      Cluster(centerColor, members, totalPixelCount, totalPercentage, labCenter)
    }

    constructor(cs: ColorSpace, initialCenter: Color)
      ensures Value() == NewCluster(cs, initialCenter)
    {
      centerColor := initialCenter;
      members := [];
      totalPercentage := 0.0;
      totalPixelCount := 0;
      labCenter := cs.toLab(initialCenter.rgb);
    }

    method AddMember(colorCount: ColorCount)
      modifies this
      ensures Value() == WithMember(old(Value()), colorCount)
    {
      members := members + [colorCount];
      totalPixelCount := totalPixelCount + colorCount.count;
      totalPercentage := totalPercentage + colorCount.percentage;
    }

    method ClearMembers()
      modifies this
      ensures Value() == Cleared(old(Value()))
    {
      members := [];
      totalPixelCount := 0;
      totalPercentage := 0.0;
    }

    /** The weighted sums are accumulated member by member; the centre moves only when
        there are members with a non-zero total weight. */
    method UpdateCenter(cs: ColorSpace) returns (moved: bool)
      modifies this`labCenter, this`centerColor
      ensures Value() == Recentered(cs, old(Value()))
      ensures moved == Moved(cs, old(Value()))
    {
      if |members| == 0 {
        return false;
      }
      var weighted, totalWeight := AccumulateWeights(cs, members);
      if totalWeight == 0 {
        return false;
      }
      var newLabCenter := Lab(weighted.l / totalWeight as real, weighted.a / totalWeight as real,
                              weighted.b / totalWeight as real);
      var centerMovement := LabDistance(cs, labCenter, newLabCenter);
      labCenter := newLabCenter;
      centerColor := cs.fromLab(labCenter);
      moved := centerMovement > ConvergenceThreshold;
    }
  }

  /** The values of a list of cluster objects. */
  function Values(clusters: seq<ColorCluster>): (vs: seq<Cluster>)
    reads clusters
    ensures |vs| == |clusters| && forall i :: 0 <= i < |clusters| ==> vs[i] == clusters[i].Value()
  {
    seq(|clusters|, i reads clusters requires 0 <= i < |clusters| => clusters[i].Value())
  }

  predicate Distinct(clusters: seq<ColorCluster>)
  {
    forall i, j :: 0 <= i < j < |clusters| ==> clusters[i] != clusters[j]
  }

  // ---------------------------------------------------------------------------------------
  // The methods
  // ---------------------------------------------------------------------------------------

  lemma NearestScanStep(cs: ColorSpace, p: Lab, ls: seq<Lab>, i: int)
    requires 0 <= i < |ls|
    ensures NearestScan(cs, p, ls[..i + 1])
      == (var prev := NearestScan(cs, p, ls[..i]);
          if LabDistance(cs, p, ls[i]) < prev.1 then (Some(i), LabDistance(cs, p, ls[i])) else prev)
  {
    assert ls[..i + 1][..i] == ls[..i];
  }

  /** findNearestCluster: null when no centre is nearer than Double.MAX_VALUE, otherwise
      the cluster Nearest picks. */
  method FindNearestCluster(cs: ColorSpace, color: Color, clusters: seq<ColorCluster>)
    returns (nearestCluster: ColorCluster?)
    ensures Nearest(cs, cs.toLab(color.rgb), Centers(Values(clusters))).None? ==> nearestCluster == null
    ensures Nearest(cs, cs.toLab(color.rgb), Centers(Values(clusters))).Some? ==>
      nearestCluster == clusters[Nearest(cs, cs.toLab(color.rgb), Centers(Values(clusters))).value]
  {
    var colorLab := cs.toLab(color.rgb);
    ghost var ls := Centers(Values(clusters));
    ghost var chosen: Option<nat> := None;
    nearestCluster := null;
    var minDistance := MaxDouble;
    assert ls[..0] == [];
    for i := 0 to |clusters|
      invariant (chosen, minDistance) == NearestScan(cs, colorLab, ls[..i])
      invariant chosen.None? ==> nearestCluster == null
      invariant chosen.Some? ==> chosen.value < i && nearestCluster == clusters[chosen.value]
    {
      NearestScanStep(cs, colorLab, ls, i);
      var distance := LabDistance(cs, colorLab, clusters[i].labCenter);
      if distance < minDistance {
        minDistance := distance;
        nearestCluster := clusters[i];
        chosen := Some(i);
      }
    }
    Whole(ls);
  }

  /** The first loop of an iteration: every cluster is cleared. */
  method ClearAllMembers(clusters: seq<ColorCluster>)
    requires Distinct(clusters)
    modifies set c | c in clusters
    ensures Values(clusters) == ClearAll(old(Values(clusters)))
  {
    ghost var before := Values(clusters);
    for i := 0 to |clusters|
      invariant forall j :: 0 <= j < i ==> clusters[j].Value() == Cleared(before[j])
      invariant forall j :: i <= j < |clusters| ==> clusters[j].Value() == before[j]
    {
      clusters[i].ClearMembers();
    }
  }

  lemma AssignAllStep(cs: ColorSpace, colors: seq<ColorCount>, vs: seq<Cluster>, i: int)
    requires 0 <= i < |colors|
    ensures AssignAll(cs, colors[..i + 1], vs)
      == match AssignAll(cs, colors[..i], vs)
         case None => None
         case Some(ws) => AssignOne(cs, ws, colors[i])
  {
    assert colors[..i + 1][..i] == colors[..i];
  }

  /** Once an entry finds no nearest cluster, the assignment has failed for good. */
  lemma {:induction false} AssignAllStaysFailed(cs: ColorSpace, colors: seq<ColorCount>, vs: seq<Cluster>, i: int, j: int)
    requires 0 <= i <= j <= |colors| && AssignAll(cs, colors[..i], vs).None?
    ensures AssignAll(cs, colors[..j], vs).None?
    decreases j - i
  {
    if i < j {
      AssignAllStep(cs, colors, vs, i);
      AssignAllStaysFailed(cs, colors, vs, i + 1, j);
    }
  }

  /** The second loop of an iteration: every entry joins its nearest cluster; false where
      the source throws (an entry without a nearest cluster). */
  method AssignColors(cs: ColorSpace, colors: seq<ColorCount>, clusters: seq<ColorCluster>) returns (ok: bool)
    requires Distinct(clusters)
    modifies set c | c in clusters
    ensures ok <==> AssignAll(cs, colors, old(Values(clusters))).Some?
    ensures ok ==> Values(clusters) == AssignAll(cs, colors, old(Values(clusters))).value
  {
    ghost var before := Values(clusters);
    assert colors[..0] == [];
    for i := 0 to |colors|
      invariant AssignAll(cs, colors[..i], before) == Some(Values(clusters))
    {
      AssignAllStep(cs, colors, before, i);
      var joined := AssignColor(cs, colors[i], clusters);
      if !joined {
        AssignAllStaysFailed(cs, colors, before, i + 1, |colors|);
        Whole(colors);
        return false;
      }
    }
    Whole(colors);
    return true;
  }

  /** One turn of the assignment loop: the entry joins the cluster findNearestCluster
      returns; false where the source dereferences null. */
  method AssignColor(cs: ColorSpace, colorCount: ColorCount, clusters: seq<ColorCluster>) returns (joined: bool)
    requires Distinct(clusters)
    modifies set c | c in clusters
    ensures joined <==> AssignOne(cs, old(Values(clusters)), colorCount).Some?
    ensures joined ==> Values(clusters) == AssignOne(cs, old(Values(clusters)), colorCount).value
  {
    ghost var prior := Values(clusters);
    var nearestCluster := FindNearestCluster(cs, colorCount.color, clusters);
    if nearestCluster == null {
      return false;
    }
    ghost var n := Nearest(cs, cs.toLab(colorCount.color.rgb), Centers(prior)).value;
    nearestCluster.AddMember(colorCount);
    assert Values(clusters) == prior[n := WithMember(prior[n], colorCount)] by {
      forall j | 0 <= j < |clusters| ensures clusters[j].Value() == prior[n := WithMember(prior[n], colorCount)][j] {
        if j != n {
          assert clusters[j] != nearestCluster;
        }
      }
    }
    return true;
  }

  /** The third loop of an iteration: every cluster updates its centre (no early exit),
      and centersChanged records whether any of them moved. */
  method UpdateCenters(cs: ColorSpace, clusters: seq<ColorCluster>) returns (centersChanged: bool)
    requires Distinct(clusters)
    modifies set c | c in clusters
    ensures Values(clusters) == UpdateAll(cs, old(Values(clusters)))
    ensures centersChanged == AnyMoved(cs, old(Values(clusters)))
  {
    ghost var before := Values(clusters);
    centersChanged := false;
    for i := 0 to |clusters|
      invariant forall j :: 0 <= j < i ==> clusters[j].Value() == Recentered(cs, before[j])
      invariant forall j :: i <= j < |clusters| ==> clusters[j].Value() == before[j]
      invariant centersChanged <==> exists j :: 0 <= j < i && Moved(cs, before[j])
    {
      var centerMoved := clusters[i].UpdateCenter(cs);
      if centerMoved {
        centersChanged := true;
      }
    }
  }

  /** runKMeansIterations: passes run while some centre moved, at most MaxIterations of
      them; the answer is the number of passes, or NoNearestCluster where the source
      throws. */
  method RunKMeansIterations(cs: ColorSpace, colors: seq<ColorCount>, clusters: seq<ColorCluster>)
    returns (r: Result<int, ClusterError>)
    requires Distinct(clusters)
    modifies set c | c in clusters
    ensures r.Success? <==> Iterate(cs, colors, old(Values(clusters)), 0, true).Success?
    ensures r.Success? ==> Iterate(cs, colors, old(Values(clusters)), 0, true).value == (Values(clusters), r.value)
    ensures r.Failure? ==> r.error == NoNearestCluster
                           && Iterate(cs, colors, old(Values(clusters)), 0, true) == Failure(NoNearestCluster)
  {
    ghost var start := Values(clusters);
    var iteration := 0;
    var centersChanged := true;
    while centersChanged && iteration < MaxIterations
      invariant 0 <= iteration <= MaxIterations
      invariant Iterate(cs, colors, Values(clusters), iteration, centersChanged) == Iterate(cs, colors, start, 0, true)
      decreases MaxIterations - iteration
    {
      ghost var before := Values(clusters);
      iteration := iteration + 1;
      ClearAllMembers(clusters);
      var ok := AssignColors(cs, colors, clusters);
      if !ok {
        assert Pass(cs, colors, before) == None;
        return Failure(NoNearestCluster);
      }
      centersChanged := UpdateCenters(cs, clusters);
      assert Pass(cs, colors, before) == Some((Values(clusters), centersChanged));
    }
    return Success(iteration);
  }

  lemma MinDistanceStep(cs: ColorSpace, p: Lab, ls: seq<Lab>, j: int)
    requires 0 <= j < |ls|
    ensures MinDistance(cs, p, ls[..j + 1]) == Min(MinDistance(cs, p, ls[..j]), LabDistance(cs, p, ls[j]))
  {
    assert ls[..j + 1][..j] == ls[..j];
  }

  /** The inner loop of findFarthestColor: minDistance over the existing centres. */
  method NearestCenterDistance(cs: ColorSpace, candidateLab: Lab, existingClusters: seq<ColorCluster>)
    returns (minDistance: real)
    ensures minDistance == MinDistance(cs, candidateLab, Centers(Values(existingClusters)))
  {
    ghost var ls := Centers(Values(existingClusters));
    minDistance := MaxDouble;
    assert ls[..0] == [];
    for j := 0 to |existingClusters|
      invariant minDistance == MinDistance(cs, candidateLab, ls[..j])
    {
      MinDistanceStep(cs, candidateLab, ls, j);
      var distance := LabDistance(cs, candidateLab, existingClusters[j].labCenter);
      minDistance := Min(minDistance, distance);
    }
    Whole(ls);
  }

  lemma WeightIs(cs: ColorSpace, candidates: seq<ColorCount>, ls: seq<Lab>, c: int, m: real)
    requires 0 <= c < |candidates| && m == MinDistance(cs, cs.toLab(candidates[c].color.rgb), ls)
    ensures Weights(cs, candidates, ls)[c] == m * m
  {
  }

  /** The first loop of findFarthestColor: each candidate's weight, and their total. */
  method CandidateWeights(cs: ColorSpace, candidates: seq<ColorCount>, existingClusters: seq<ColorCluster>)
    returns (weights: seq<real>, totalWeight: real)
    ensures weights == Weights(cs, candidates, Centers(Values(existingClusters)))
    ensures totalWeight == Sum(weights, RealValue)
  {
    ghost var all := Weights(cs, candidates, Centers(Values(existingClusters)));
    weights := [];
    totalWeight := 0.0;
    for c := 0 to |candidates|
      invariant weights == all[..c]
      invariant totalWeight == Sum(weights, RealValue)
    {
      var candidateLab := cs.toLab(candidates[c].color.rgb);
      var minDistance := NearestCenterDistance(cs, candidateLab, existingClusters);
      var weight := minDistance * minDistance;
      assert weight == all[c] by {
        WeightIs(cs, candidates, Centers(Values(existingClusters)), c, minDistance);
      }
      SumAppend(weights, weight, RealValue);
      PrefixStep(all, c);
      weights := weights + [weight];
      totalWeight := totalWeight + weight;
    }
    Whole(all);
  }

  /** The selection loop of findFarthestColor: the first position whose running total
      reaches randomValue, or the last position. */
  method WeightedDraw(weights: seq<real>, randomValue: real) returns (i: int)
    requires |weights| > 0
    ensures i == Pick(weights, randomValue)
  {
    var cumulativeWeight := 0.0;
    assert weights[..0] == [];
    i := 0;
    while i < |weights|
      invariant 0 <= i <= |weights|
      invariant cumulativeWeight == Cumulative(weights, i)
      invariant forall j :: 0 < j <= i ==> randomValue > Cumulative(weights, j)
    {
      CumulativeStep(weights, i);
      cumulativeWeight := cumulativeWeight + weights[i];
      if randomValue <= cumulativeWeight {
        PickUnique(weights, randomValue, i);
        return;
      }
      i := i + 1;
    }
    i := |weights| - 1;
    PickUnique(weights, randomValue, i);
  }

  lemma FarthestIs(cs: ColorSpace, candidates: seq<ColorCount>, ls: seq<Lab>, draw: real, ws: seq<real>)
    requires |candidates| > 0 && ws == Weights(cs, candidates, ls)
    ensures Farthest(cs, candidates, ls, draw) == Pick(ws, DrawTarget(Sum(ws, RealValue), draw))
  {
  }

  /** findFarthestColor: every candidate weighed by its squared distance to the nearest
      existing centre, then the weighted draw; draw is the value nextDouble() returns. */
  method FindFarthestColor(cs: ColorSpace, candidates: seq<ColorCount>, existingClusters: seq<ColorCluster>,
                           draw: real)
    returns (farthest: ColorCount)
    requires |candidates| > 0
    ensures farthest == candidates[Farthest(cs, candidates, Centers(Values(existingClusters)), draw)]
  {
    var weights, totalWeight := CandidateWeights(cs, candidates, existingClusters);
    var randomValue := DrawTarget(totalWeight, draw);
    var i := WeightedDraw(weights, randomValue);
    FarthestIs(cs, candidates, Centers(Values(existingClusters)), draw, weights);
    return candidates[i];
  }

  /** One turn of the seeding loop, on values. */
  lemma SeedsFromStep(cs: ColorSpace, remaining: seq<ColorCount>, vs: seq<Cluster>, i: int, k: int,
                      draws: nat -> real, f: int)
    requires Chooser(FarthestChooser(cs, draws))
    requires 1 <= i < k && 0 <= f < |remaining|
    requires f == Farthest(cs, remaining, Centers(vs), draws(i - 1))
    ensures SeedsFrom(cs, remaining, vs, i, k, FarthestChooser(cs, draws))
      == SeedsFrom(cs, RemoveFirst(remaining, remaining[f]), vs + [NewCluster(cs, remaining[f].color)], i + 1, k,
                   FarthestChooser(cs, draws))
  {
    ChooserAt(cs, draws, remaining, vs, i);
  }

  /** Turn i of the seeding draws with draws(i - 1). */
  lemma ChooserAt(cs: ColorSpace, draws: nat -> real, r: seq<ColorCount>, v: seq<Cluster>, i: int)
    requires |r| > 0 && i >= 1
    ensures FarthestChooser(cs, draws)(r, v, i) == Farthest(cs, r, Centers(v), draws(i - 1))
  {
  }

  /** initializeClusters: the first entry seeds the first cluster, then each turn draws the
      next seed from the remaining entries and takes it out of them. Turn i uses draws(i - 1),
      the i-th value of the generator. */
  method InitializeClusters(cs: ColorSpace, colors: seq<ColorCount>, k: int, draws: nat -> real)
    returns (clusters: seq<ColorCluster>)
    requires |colors| > 0
    ensures Values(clusters) == Seeds(cs, colors, k, draws)
    ensures Distinct(clusters)
    ensures forall c :: c in clusters ==> fresh(c)
  {
    FarthestChooserValid(cs, draws);
    var remainingColors;
    remainingColors, clusters := FirstSeed(cs, colors, k, draws);
    var i := 1;
    while i < k && |remainingColors| > 0
      invariant i >= 1
      invariant SeedsFrom(cs, remainingColors, Values(clusters), i, k, FarthestChooser(cs, draws))
                == Seeds(cs, colors, k, draws)
      invariant Distinct(clusters)
      invariant forall c :: c in clusters ==> fresh(c)
      decreases |remainingColors|
    {
      remainingColors, clusters := AddSeed(cs, remainingColors, clusters, i, k, draws);
      i := i + 1;
    }
  }

  /** The start of initializeClusters: the first colour founds the first cluster and
      leaves the pool. */
  method FirstSeed(cs: ColorSpace, colors: seq<ColorCount>, k: int, draws: nat -> real)
    returns (remainingColors: seq<ColorCount>, clusters: seq<ColorCluster>)
    requires |colors| > 0 && Chooser(FarthestChooser(cs, draws))
    ensures SeedsFrom(cs, remainingColors, Values(clusters), 1, k, FarthestChooser(cs, draws))
            == Seeds(cs, colors, k, draws)
    ensures Distinct(clusters)
    ensures forall c :: c in clusters ==> fresh(c)
  {
    var firstColor := colors[0];
    var first := new ColorCluster(cs, firstColor.color);
    clusters := [first];
    remainingColors := RemoveFirst(colors, firstColor);
    assert Values(clusters) == [NewCluster(cs, colors[0].color)];
  }

  lemma ValuesAppend(clusters: seq<ColorCluster>, c: ColorCluster)
    ensures Values(clusters + [c]) == Values(clusters) + [c.Value()]
  {
    assert forall j :: 0 <= j < |clusters| ==> (clusters + [c])[j] == clusters[j];
  }

  /** One turn of the seeding loop: the drawn candidate's colour founds a new cluster and
      the candidate leaves the pool. */
  method AddSeed(cs: ColorSpace, remainingColors: seq<ColorCount>, clusters: seq<ColorCluster>, i: int, k: int,
                 draws: nat -> real)
    returns (remaining: seq<ColorCount>, seeds: seq<ColorCluster>)
    requires Chooser(FarthestChooser(cs, draws))
    requires 1 <= i < k && |remainingColors| > 0 && Distinct(clusters)
    ensures SeedsFrom(cs, remaining, Values(seeds), i + 1, k, FarthestChooser(cs, draws))
            == SeedsFrom(cs, remainingColors, Values(clusters), i, k, FarthestChooser(cs, draws))
    ensures |remaining| < |remainingColors|
    ensures Distinct(seeds) && forall c :: c in seeds ==> c in clusters || fresh(c)
  {
    ghost var vs := Values(clusters);
    var farthestColor := FindFarthestColor(cs, remainingColors, clusters, draws(i - 1));
    remaining := RemoveFirst(remainingColors, farthestColor);
    SeedTurn(cs, remainingColors, vs, i, k, draws);
    var cluster := new ColorCluster(cs, farthestColor.color);
    assert Values(clusters) == vs;
    seeds := clusters + [cluster];
    ValuesAppend(clusters, cluster);
    DistinctAppend(clusters, cluster);
  }

  /** The seeding turn on values: the drawn candidate founds a seed and leaves the pool. */
  lemma SeedTurn(cs: ColorSpace, remaining: seq<ColorCount>, vs: seq<Cluster>, i: int, k: int, draws: nat -> real)
    requires Chooser(FarthestChooser(cs, draws))
    requires 1 <= i < k && |remaining| > 0
    ensures var x := remaining[Farthest(cs, remaining, Centers(vs), draws(i - 1))];
      SeedsFrom(cs, RemoveFirst(remaining, x), vs + [NewCluster(cs, x.color)], i + 1, k, FarthestChooser(cs, draws))
        == SeedsFrom(cs, remaining, vs, i, k, FarthestChooser(cs, draws))
      && |RemoveFirst(remaining, x)| < |remaining|
  {
    var f := Farthest(cs, remaining, Centers(vs), draws(i - 1));
    SeedsFromStep(cs, remaining, vs, i, k, draws, f);
    RemoveFirstPresent(remaining, f);
  }

  lemma DistinctAppend(clusters: seq<ColorCluster>, c: ColorCluster)
    requires Distinct(clusters) && c !in clusters
    ensures Distinct(clusters + [c])
    ensures forall x :: x in clusters + [c] ==> x in clusters || x == c
  {
    var s := clusters + [c];
    forall i, j | 0 <= i < j < |s| ensures s[i] != s[j] {
      assert s[i] == clusters[i];
    }
  }

  /** One turn of the insertion sort, proved against sorting the longer prefix. */
  method SortClustersTurn(all: seq<ColorCluster>, ghost values: seq<Cluster>, i: int, sorted: seq<ColorCluster>)
    returns (next: seq<ColorCluster>)
    requires 0 <= i < |all| && values == Values(all)
    requires Values(sorted) == SortDesc(values[..i], PixelCount) && multiset(sorted) == multiset(all[..i])
    ensures Values(next) == SortDesc(values[..i + 1], PixelCount) && multiset(next) == multiset(all[..i + 1])
  {
    PrefixStep(all, i);
    SortStep(values, i, PixelCount);
    next := InsertCluster(sorted, all[i]);
  }

  /** clusters.sort by descending total pixel count: a stable sort of the objects. */
  method SortClusters(clusters: seq<ColorCluster>) returns (sorted: seq<ColorCluster>)
    ensures Values(sorted) == SortDesc(Values(clusters), PixelCount)
    ensures multiset(sorted) == multiset(clusters)
  {
    ghost var values := Values(clusters);
    sorted := [];
    for i := 0 to |clusters|
      invariant Values(sorted) == SortDesc(values[..i], PixelCount)
      invariant multiset(sorted) == multiset(clusters[..i])
    {
      sorted := SortClustersTurn(clusters, values, i, sorted);
    }
    Whole(clusters);
    Whole(values);
  }

  /** One insertion step: x goes after every cluster whose pixel count is at least its own. */
  method InsertCluster(sorted: seq<ColorCluster>, x: ColorCluster) returns (r: seq<ColorCluster>)
    ensures Values(r) == Insert(x.Value(), Values(sorted), PixelCount)
    ensures multiset(r) == multiset(sorted) + multiset{x}
  {
    var p := 0;
    while p < |sorted| && x.totalPixelCount <= sorted[p].totalPixelCount
      invariant 0 <= p <= |sorted|
      invariant forall q :: 0 <= q < p ==> x.totalPixelCount <= sorted[q].totalPixelCount
    {
      p := p + 1;
    }
    InsertPosition(x.Value(), Values(sorted), PixelCount, p);
    ValuesSplice(sorted, p, x);
    assert sorted == sorted[..p] + sorted[p..];
    r := sorted[..p] + [x] + sorted[p..];
  }

  lemma ValuesSplice(s: seq<ColorCluster>, p: int, x: ColorCluster)
    requires 0 <= p <= |s|
    ensures Values(s[..p] + [x] + s[p..]) == Values(s)[..p] + [x.Value()] + Values(s)[p..]
  {
    var t := s[..p] + [x] + s[p..];
    var v := Values(s);
    var w := v[..p] + [x.Value()] + v[p..];
    assert |Values(t)| == |w|;
    forall i | 0 <= i < |t| ensures Values(t)[i] == w[i] {
      if i < p {
        assert t[i] == s[i] && w[i] == v[i];
      } else if i == p {
        assert t[i] == x;
      } else {
        assert t[i] == s[i - 1] && w[i] == v[i - 1];
      }
    }
  }

  function ClusterIdentity(c: ColorCluster): ColorCluster
  {
    c
  }

  /** A rearrangement of cluster objects keeps them apart. */
  lemma RearrangedClusters(clusters: seq<ColorCluster>, sorted: seq<ColorCluster>)
    requires multiset(sorted) == multiset(clusters) && Distinct(clusters)
    ensures forall c :: c in sorted ==> c in clusters
    ensures Distinct(sorted)
  {
    forall c | c in sorted ensures c in clusters {
      assert c in multiset(clusters);
    }
    assert InjectiveOn(clusters, ClusterIdentity);
    PermutationKeepsInjective(clusters, sorted, ClusterIdentity);
    assert Distinct(sorted) by {
      forall a, b | 0 <= a < b < |sorted| ensures sorted[a] != sorted[b] {
        assert ClusterIdentity(sorted[a]) != ClusterIdentity(sorted[b]);
      }
    }
  }

  lemma ClusteredRuns(cs: ColorSpace, colors: seq<ColorCount>, k: int, draws: nat -> real)
    requires 1 <= k <= |colors|
    ensures Clustered(cs, Some(colors), k, draws)
      == match Iterate(cs, colors, Seeds(cs, colors, k, draws), 0, true)
         case Failure(e) => Failure(e)
         case Success((vs, _)) => Success(SortDesc(vs, PixelCount))
  {
  }

  /** clusterColors(extractedColors, k), with the generator's values as draws. */
  method ClusterColors(cs: ColorSpace, extractedColors: Option<seq<ColorCount>>, k: int, draws: nat -> real)
    returns (r: Result<seq<ColorCluster>, ClusterError>)
    ensures r.Success? <==> Clustered(cs, extractedColors, k, draws).Success?
    ensures r.Success? ==> Values(r.value) == Clustered(cs, extractedColors, k, draws).value
    ensures r.Failure? ==> r.error == Clustered(cs, extractedColors, k, draws).error
    ensures r.Success? ==> Distinct(r.value) && forall c :: c in r.value ==> fresh(c)
  {
    if extractedColors.None? || |extractedColors.value| == 0 {
      return Success([]);
    }
    var colors := extractedColors.value;
    if k <= 0 || k > |colors| {
      return Failure(InvalidK);
    }
    ClusteredRuns(cs, colors, k, draws);
    var clusters := InitializeClusters(cs, colors, k, draws);
    ghost var seeds := Values(clusters);
    var iterations := RunKMeansIterations(cs, colors, clusters);
    ghost var outcome := Iterate(cs, colors, seeds, 0, true);
    if iterations.Failure? {
      return Failure(iterations.error);
    }
    var sorted := SortClusters(clusters);
    RearrangedClusters(clusters, sorted);
    assert Values(sorted) == SortDesc(outcome.value.0, PixelCount);
    return Success(sorted);
  }
}
