/** The count-weighted LAB average that both the greedy quantiser (the representative of a
    group) and the k-means clusterer (the centre of a cluster) compute: every member's LAB
    point weighted by its pixel count, summed, and divided by the summed counts. */
module Weighting {
  import opened ColorModel
  import opened ColorExtractor

  /** One step of the weighted sums: p counted weight times on top of acc. */
  function AddScaled(acc: Lab, p: Lab, weight: real): Lab
  {
    Lab(acc.l + p.l * weight, acc.a + p.a * weight, acc.b + p.b * weight)
  }

  function Scale(p: Lab, w: real): Lab
  {
    Lab(p.l * w, p.a * w, p.b * w)
  }

  /** The running sums weightedL, weightedA and weightedB, built from the back like a loop. */
  function WeightedLab(cs: ColorSpace, ms: seq<ColorCount>): Lab
  {
    if ms == [] then Lab(0.0, 0.0, 0.0)
    else
      var last := ms[|ms| - 1];
      AddScaled(WeightedLab(cs, ms[..|ms| - 1]), cs.toLab(last.color.rgb), last.count as real)
  }

  /** totalWeight: the summed pixel counts. */
  function TotalWeight(ms: seq<ColorCount>): int
  {
    if ms == [] then 0 else TotalWeight(ms[..|ms| - 1]) + ms[|ms| - 1].count
  }

  /** The weighted average point; undefined when the counts add up to zero. */
  function MeanLab(cs: ColorSpace, ms: seq<ColorCount>): Lab
    requires TotalWeight(ms) != 0
  {
    var w := WeightedLab(cs, ms);
    var total := TotalWeight(ms) as real;
    Lab(w.l / total, w.a / total, w.b / total)
  }

  lemma ScaleAdd(p: Lab, w: real, c: real)
    ensures AddScaled(Scale(p, w), p, c) == Scale(p, w + c)
  {
    assert p.l * w + p.l * c == p.l * (w + c);
    assert p.a * w + p.a * c == p.a * (w + c);
    assert p.b * w + p.b * c == p.b * (w + c);
  }

  /** Every member at the same LAB point: the weighted sums are that point scaled by the
      total weight. */
  lemma {:induction false} WeightedLabUniform(cs: ColorSpace, ms: seq<ColorCount>, p: Lab)
    requires forall i :: 0 <= i < |ms| ==> cs.toLab(ms[i].color.rgb) == p
    ensures WeightedLab(cs, ms) == Scale(p, TotalWeight(ms) as real)
  {
    if ms == [] {
      assert Scale(p, 0.0) == Lab(0.0, 0.0, 0.0);
    } else {
      var n := |ms| - 1;
      assert forall i :: 0 <= i < n ==> ms[..n][i] == ms[i];
      WeightedLabUniform(cs, ms[..n], p);
      ScaleAdd(p, TotalWeight(ms[..n]) as real, ms[n].count as real);
    }
  }

  lemma Unscale(x: real, t: real)
    requires t != 0.0
    ensures x * t / t == x
  {
  }

  /** Dividing a scaled point by the scale gives the point back. */
  lemma UnscaleLab(p: Lab, t: real)
    requires t != 0.0
    ensures var q := Scale(p, t); Lab(q.l / t, q.a / t, q.b / t) == p
  {
    Unscale(p.l, t);
    Unscale(p.a, t);
    Unscale(p.b, t);
  }

  /** Averaging members that all sit at one LAB point gives that point back, whatever
      their counts (as long as they do not add up to zero). */
  lemma UniformMean(cs: ColorSpace, ms: seq<ColorCount>, p: Lab)
    requires forall i :: 0 <= i < |ms| ==> cs.toLab(ms[i].color.rgb) == p
    requires TotalWeight(ms) != 0
    ensures MeanLab(cs, ms) == p
  {
    WeightedLabUniform(cs, ms, p);
    UnscaleLab(p, TotalWeight(ms) as real);
  }

  /** A lone member with a non-zero count is its own average. */
  lemma SingleMean(cs: ColorSpace, cc: ColorCount)
    requires cc.count != 0
    ensures TotalWeight([cc]) == cc.count
    ensures MeanLab(cs, [cc]) == cs.toLab(cc.color.rgb)
  {
    assert [cc][..0] == [];
    UniformMean(cs, [cc], cs.toLab(cc.color.rgb));
  }

  /** One turn of an accumulation loop over ms: the running sums after i + 1 members are
      those after i members plus member i, weighted by its count. */
  lemma WeightedStep(cs: ColorSpace, ms: seq<ColorCount>, i: int)
    requires 0 <= i < |ms|
    ensures WeightedLab(cs, ms[..i + 1]) == AddScaled(WeightedLab(cs, ms[..i]), cs.toLab(ms[i].color.rgb), ms[i].count as real)
    ensures TotalWeight(ms[..i + 1]) == TotalWeight(ms[..i]) + ms[i].count
  {
    assert ms[..i + 1][..i] == ms[..i];
  }

  /** Appending a member adds its count to the total weight. */
  lemma TotalWeightAppend(ms: seq<ColorCount>, cc: ColorCount)
    ensures TotalWeight(ms + [cc]) == TotalWeight(ms) + cc.count
  {
    assert (ms + [cc])[..|ms|] == ms;
  }

  /** The accumulation loop both updates run: weightedL, weightedA, weightedB and
      totalWeight after every member has been visited. */
  method AccumulateWeights(cs: ColorSpace, ms: seq<ColorCount>) returns (weighted: Lab, totalWeight: int)
    ensures weighted == WeightedLab(cs, ms) && totalWeight == TotalWeight(ms)
  {
    var weightedL, weightedA, weightedB := 0.0, 0.0, 0.0;
    totalWeight := 0;
    assert ms[..0] == [];
    for i := 0 to |ms|
      invariant Lab(weightedL, weightedA, weightedB) == WeightedLab(cs, ms[..i])
      invariant totalWeight == TotalWeight(ms[..i])
    {
      ghost var sums := Lab(weightedL, weightedA, weightedB);
      var lab := cs.toLab(ms[i].color.rgb);
      var weight := ms[i].count;
      weightedL := weightedL + lab.l * weight as real;
      weightedA := weightedA + lab.a * weight as real;
      weightedB := weightedB + lab.b * weight as real;
      totalWeight := totalWeight + weight;
      assert Lab(weightedL, weightedA, weightedB) == AddScaled(sums, lab, weight as real);
      WeightedStep(cs, ms, i);
    }
    assert ms[..|ms|] == ms;
    weighted := Lab(weightedL, weightedA, weightedB);
  }
}
