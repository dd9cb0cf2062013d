/** `performEnhancedMMCQ`: outliers first (at most half the target), then the
    average colours of median-cut boxes that are far from everything chosen,
    scoring, merging of near colours, ranking by visual importance with the
    target as cap, and a backfill from the most frequent histogram colours. */
module EnhancedPipeline {
  import opened Colors
  import opened Sampling
  import opened Sorting
  import opened Greedy
  import opened MedianCut
  import opened Enhanced
  import opened Merge

  /** The colour a median-cut box contributes: its pixel-weighted mean key
      (integer division) with its pixel count, or none when it holds no pixel. */
  function BoxColor(box: ColorBox): Option<EnhancedColor> {
    var h := box.histogram;
    if h == [] then None
    else
      var t := Total(h);
      if t <= 0 then None
      else Some(NewColor(Rgb(DivT(ChannelSum(h, Red), t), DivT(ChannelSum(h, Green), t), DivT(ChannelSum(h, Blue), t)), t))
  }

  /** `dominantBoxes.compactMap { ... }` */
  function DominantOf(boxes: seq<ColorBox>): seq<EnhancedColor> {
    if boxes == [] then []
    else
      DominantOf(boxes[..|boxes| - 1]) +
      match BoxColor(boxes[|boxes| - 1]) case None => [] case Some(c) => [c]
  }

  method DominantColors(boxes: seq<ColorBox>) returns (dominant: seq<EnhancedColor>)
    ensures dominant == DominantOf(boxes)
  {
    dominant := [];
    for i := 0 to |boxes|
      invariant dominant == DominantOf(boxes[..i])
    {
      assert boxes[..i + 1][..i] == boxes[..i];
      var box := boxes[i];
      if box.histogram == [] {
        continue;
      }
      var totalR, totalG, totalB, totalCount := BoxTotals(box.histogram);
      if totalCount <= 0 {
        continue;
      }
      dominant := dominant + [NewColor(Rgb(DivT(totalR, totalCount), DivT(totalG, totalCount), DivT(totalB, totalCount)), totalCount)];
    }
    assert boxes[..|boxes|] == boxes;
  }

  /** Every box that median cut returns holds pixels, so each yields exactly
      one colour: the box's average colour, weighted by its population. */
  lemma {:induction false} DominantAreAverages(boxes: seq<ColorBox>)
    requires forall i :: 0 <= i < |boxes| ==> WellFormed(boxes[i]) && boxes[i].population > 0
    ensures |DominantOf(boxes)| == |boxes|
    ensures forall i :: 0 <= i < |boxes| ==>
      DominantOf(boxes)[i] == NewColor(AverageColorOf(boxes[i]), boxes[i].population)
    decreases |boxes|
  {
    if boxes != [] {
      var init := boxes[..|boxes| - 1];
      var last := boxes[|boxes| - 1];
      assert forall i :: 0 <= i < |init| ==> init[i] == boxes[i];
      DominantAreAverages(init);
      var c := NewColor(AverageColorOf(last), last.population);
      assert last.histogram != [];
      assert BoxColor(last) == Some(c);
      assert DominantOf(boxes) == DominantOf(init) + [c];
    }
  }

  /** `map { dist(c, $0) }.min()`, None for an empty list. */
  function MinDistance(c: Rgb, s: seq<Rgb>, dist: (Rgb, Rgb) -> real): (m: Option<real>)
    ensures m.None? <==> s == []
    ensures m.Some? ==> forall k :: 0 <= k < |s| ==> m.value <= dist(c, s[k])
    ensures m.Some? ==> exists k :: 0 <= k < |s| && m.value == dist(c, s[k])
  {
    if s == [] then None
    else
      var rest := MinDistance(c, s[..|s| - 1], dist);
      var d := dist(c, s[|s| - 1]);
      if rest.None? || d < rest.value then Some(d) else rest
  }

  /** Smallest distance a dominant colour keeps from every colour chosen before it. */
  const DominantSeparation: real := 10.0

  /** `x` is more than `limit` away from `y`. */
  function Apart(dist: (Rgb, Rgb) -> real, limit: real): (EnhancedColor, EnhancedColor) -> bool {
    (x: EnhancedColor, y: EnhancedColor) => dist(x.rgb, y.rgb) > limit
  }

  /** `(min ?? infinity) > limit` is "more than `limit` from every chosen colour". */
  lemma MinDistanceAbove(c: EnhancedColor, chosen: seq<EnhancedColor>, dist: (Rgb, Rgb) -> real, limit: real)
    ensures var m := MinDistance(c.rgb, Rgbs(chosen), dist);
      (m.None? || m.value > limit) <==> FarFromAll(c, chosen, Apart(dist, limit))
  {
    var s := Rgbs(chosen);
    var m := MinDistance(c.rgb, s, dist);
    if m.Some? && m.value <= limit {
      var k :| 0 <= k < |s| && m.value == dist(c.rgb, s[k]);
      assert !Apart(dist, limit)(c, chosen[k]);
    }
  }

  /** The loop that adds dominant colours: a candidate more than the separation
      away from every colour chosen so far is appended, and the loop stops as
      soon as the target is reached. When the target is not yet reached on
      entry, this is the greedy selection with the target as cap. */
  method AddDominant(chosen: seq<EnhancedColor>, dominant: seq<EnhancedColor>, dist: (Rgb, Rgb) -> real,
                     targetColors: int) returns (r: seq<EnhancedColor>)
    ensures |chosen| <= |r| && r[..|chosen|] == chosen
    ensures |chosen| < targetColors ==> r == Select(chosen, dominant, Apart(dist, DominantSeparation), targetColors)
  {
    ghost var far := Apart(dist, DominantSeparation);
    r := chosen;
    var i := 0;
    while i < |dominant|
      invariant 0 <= i <= |dominant|
      invariant |chosen| <= |r| && r[..|chosen|] == chosen
      invariant |chosen| < targetColors ==>
        |r| < targetColors && Select(r, dominant[i..], far, targetColors) == Select(chosen, dominant, far, targetColors)
    {
      assert dominant[i..][0] == dominant[i] && dominant[i..][1..] == dominant[i + 1..];
      var minDistance := MinDistance(dominant[i].rgb, Rgbs(r), dist);
      MinDistanceAbove(dominant[i], r, dist, DominantSeparation);
      if minDistance.None? || minDistance.value > DominantSeparation {
        r := r + [dominant[i]];
        assert r[..|chosen|] == chosen;
        if |r| >= targetColors {
          assert Select(r, dominant[i + 1..], far, targetColors) == r;
          break;
        }
      }
      i := i + 1;
    }
    if i == |dominant| {
      assert dominant[i..] == [];
    }
  }

  /** Phase 5: the merged colours by visual importance, best first, at most
      `targetColors` of them. */
  function Ranked(merged: seq<EnhancedColor>, targetColors: int): (r: seq<Rgb>)
    ensures |r| <= |merged| && (targetColors >= 0 ==> |r| <= targetColors)
  {
    Rgbs(Prefix(SortDesc(merged, (e: EnhancedColor) => e.importance), targetColors))
  }

  /** The ranking keeps the best colours: none left out has a higher importance
      than one kept. */
  lemma RankedKeepsBest(merged: seq<EnhancedColor>, targetColors: int)
    ensures var s := SortDesc(merged, (e: EnhancedColor) => e.importance);
      var n := |Ranked(merged, targetColors)|;
      multiset(s) == multiset(merged) &&
      (forall i :: 0 <= i < n ==> Ranked(merged, targetColors)[i] == s[i].rgb) &&
      (forall i, j :: 0 <= i < n <= j < |s| ==> s[i].importance >= s[j].importance)
  {
  }

  /** Smallest distance a backfilled colour keeps from every ranked colour. */
  const BackfillSeparation: real := 8.0

  /** `Int(components?[0] ?? 0 * 255)`: `*` binds tighter than `??`, so the
      component (a fraction of 255) is truncated, not scaled back. A channel
      reads back as 1 when it is 255 and as 0 below that. */
  function ReadBackAsWritten(c: Rgb): Rgb {
    Rgb(DivT(c.r, 255), DivT(c.g, 255), DivT(c.b, 255))
  }

  /** The read-back the comparison intends: the colour itself. */
  function ReadBack(c: Rgb): Rgb {
    c
  }

  /** `finalColors.allSatisfy { deltaE(candidate, readBack($0)) > 8 }` */
  predicate FarFromRanked(c: EnhancedColor, finals: seq<Rgb>, readBack: Rgb -> Rgb, dist: (Rgb, Rgb) -> real) {
    forall k :: 0 <= k < |finals| ==> dist(c.rgb, readBack(finals[k])) > BackfillSeparation
  }

  /** `compactMap { isUnique ? $0.uiColor : nil }` */
  function FarCandidates(cands: seq<EnhancedColor>, finals: seq<Rgb>, readBack: Rgb -> Rgb,
                         dist: (Rgb, Rgb) -> real): (r: seq<Rgb>)
    ensures |r| <= |cands|
    ensures forall i :: 0 <= i < |r| ==> exists k :: 0 <= k < |cands| && cands[k].rgb == r[i] && FarFromRanked(cands[k], finals, readBack, dist)
  {
    if cands == [] then []
    else
      var rest := FarCandidates(cands[1..], finals, readBack, dist);
      assert forall k :: 0 <= k < |cands[1..]| ==> cands[1..][k] == cands[k + 1];
      if FarFromRanked(cands[0], finals, readBack, dist) then [cands[0].rgb] + rest else rest
  }

  /** The backfill: when fewer than `targetColors` colours are ranked, the
      histogram colours by descending frequency that are far from every ranked
      one, as many as are missing. */
  function BackfillWith(finals: seq<Rgb>, all: seq<EnhancedColor>, targetColors: int, dist: (Rgb, Rgb) -> real,
                        readBack: Rgb -> Rgb): seq<Rgb>
  {
    if |finals| < targetColors then
      finals + Prefix(FarCandidates(SortDesc(all, (e: EnhancedColor) => e.frequency as real), finals, readBack, dist),
                      targetColors - |finals|)
    else finals
  }

  /** The backfill as the source writes it. */
  function BackfillAsWritten(finals: seq<Rgb>, all: seq<EnhancedColor>, targetColors: int, dist: (Rgb, Rgb) -> real): seq<Rgb> {
    BackfillWith(finals, all, targetColors, dist, ReadBackAsWritten)
  }

  /** The backfill as intended, which the pipeline uses. */
  function Backfill(finals: seq<Rgb>, all: seq<EnhancedColor>, targetColors: int, dist: (Rgb, Rgb) -> real): seq<Rgb> {
    BackfillWith(finals, all, targetColors, dist, ReadBack)
  }

  /** The backfill keeps the ranked colours in front and never goes past the
      target (nor shortens what was ranked). */
  lemma BackfillBound(finals: seq<Rgb>, all: seq<EnhancedColor>, targetColors: int, dist: (Rgb, Rgb) -> real,
                      readBack: Rgb -> Rgb)
    ensures var r := BackfillWith(finals, all, targetColors, dist, readBack);
      |finals| <= |r| <= Max(targetColors, |finals|) && r[..|finals|] == finals
  {
    var r := BackfillWith(finals, all, targetColors, dist, readBack);
    assert r[..|finals|] == finals;
  }

  /** With the intended read-back, every added colour is an input colour more
      than the backfill separation away from each ranked colour; for a distance
      that is zero on equal colours, none repeats a ranked colour. */
  lemma BackfillSeparated(finals: seq<Rgb>, all: seq<EnhancedColor>, targetColors: int, dist: (Rgb, Rgb) -> real)
    requires IsDistance(dist)
    ensures var r := Backfill(finals, all, targetColors, dist);
      forall i, k :: |finals| <= i < |r| && 0 <= k < |finals| ==>
        dist(r[i], finals[k]) > BackfillSeparation && r[i] != finals[k]
  {
    var r := Backfill(finals, all, targetColors, dist);
    if |finals| < targetColors {
      var sorted := SortDesc(all, (e: EnhancedColor) => e.frequency as real);
      var cands := FarCandidates(sorted, finals, ReadBack, dist);
      var added := Prefix(cands, targetColors - |finals|);
      forall i, k | |finals| <= i < |r| && 0 <= k < |finals|
        ensures dist(r[i], finals[k]) > BackfillSeparation && r[i] != finals[k]
      {
        assert r[i] == added[i - |finals|] == cands[i - |finals|];
        var j :| 0 <= j < |sorted| && sorted[j].rgb == r[i] && FarFromRanked(sorted[j], finals, ReadBack, dist);
        assert dist(r[i], finals[k]) > BackfillSeparation;
      }
    }
  }

  /** An input for the backfill finding: one ranked colour, and the same
      colour as the only histogram entry. */
  const Crimson: Rgb := Rgb(200, 0, 0)

  /** As written, the backfill compares against black instead of the ranked
      colour, so it adds the ranked colour a second time. */
  lemma BackfillRepeatsAsWritten(dist: (Rgb, Rgb) -> real)
    requires IsDistance(dist)
    requires dist(Crimson, Rgb(0, 0, 0)) > BackfillSeparation
    ensures BackfillAsWritten([Crimson], [NewColor(Crimson, 1)], 2, dist) == [Crimson, Crimson]
  {
    var all := [NewColor(Crimson, 1)];
    var sorted := SortDesc(all, (e: EnhancedColor) => e.frequency as real);
    assert multiset(sorted) == multiset(all);
    assert sorted[0] in multiset(all);
    assert sorted == all;
    assert ReadBackAsWritten(Crimson) == Rgb(0, 0, 0);
    assert FarFromRanked(all[0], [Crimson], ReadBackAsWritten, dist);
    assert FarCandidates(all[1..], [Crimson], ReadBackAsWritten, dist) == [];
  }

  /** The intended backfill adds nothing that repeats the ranked colour. */
  lemma BackfillRepeatsNothing(dist: (Rgb, Rgb) -> real)
    requires IsDistance(dist)
    ensures Backfill([Crimson], [NewColor(Crimson, 1)], 2, dist) == [Crimson]
  {
    var all := [NewColor(Crimson, 1)];
    var sorted := SortDesc(all, (e: EnhancedColor) => e.frequency as real);
    assert multiset(sorted) == multiset(all);
    assert sorted[0] in multiset(all);
    assert sorted == all;
    assert dist(all[0].rgb, ReadBack([Crimson][0])) == 0.0;
    assert !FarFromRanked(all[0], [Crimson], ReadBack, dist);
    assert FarCandidates(all[1..], [Crimson], ReadBack, dist) == [];
  }

  /** Phase 1: the leading outliers, as many as there are but at most half the
      target (rounded down). */
  function OutlierQuota(outliers: seq<EnhancedColor>, targetColors: int): (r: seq<EnhancedColor>)
    requires targetColors >= 0
    ensures |r| == Min(|outliers|, targetColors / 2) && 2 * |r| <= targetColors
    ensures r == outliers[..|r|]
  {
    Prefix(outliers, Min(|outliers|, DivT(targetColors, 2)))
  }

  /** The `mergeColors` threshold the pipeline passes. */
  const MergeThreshold: real := 8.0

  /** The whole pipeline on a histogram (in the order its entries are listed). */
  method PerformEnhancedMMCQ(h: Histogram, targetColors: int, dist: (Rgb, Rgb) -> real,
                             weigh: (Rgb, int, real) -> real, blend: seq<EnhancedColor> -> Rgb)
    returns (colors: seq<Rgb>)
    requires targetColors >= 0
    ensures |colors| <= targetColors
    ensures h == [] ==> colors == []
  {
    var allColors := AllColors(h);
    var outliers := DetectOutlierColors(allColors, dist);
    var finalColorSet := OutlierQuota(outliers, targetColors);
    var remainingTarget := targetColors - |finalColorSet|;
    if remainingTarget > 0 {
      var dominantBoxes := PerformMMCQ(h, remainingTarget + 2);
      var dominantColors := DominantColors(dominantBoxes);
      finalColorSet := AddDominant(finalColorSet, dominantColors, dist, targetColors);
    }
    var enhancedColors := ScoreColors(finalColorSet, dist, weigh);
    var mergedColors := MergeColors(enhancedColors, MergeThreshold, dist, blend);
    MergeShrinks(enhancedColors, MergeThreshold, dist, blend);
    var finalColors := Ranked(mergedColors, targetColors);
    BackfillBound(finalColors, allColors, targetColors, dist, ReadBack);
    colors := Backfill(finalColors, allColors, targetColors, dist);
    if h == [] {
      EmptyPipeline(finalColorSet, targetColors, dist, weigh, blend);
    }
  }

  /** An empty histogram leaves nothing to rank and nothing to backfill. */
  lemma EmptyPipeline(finalColorSet: seq<EnhancedColor>, targetColors: int, dist: (Rgb, Rgb) -> real,
                      weigh: (Rgb, int, real) -> real, blend: seq<EnhancedColor> -> Rgb)
    requires finalColorSet == []
    ensures Backfill(Ranked(MergeOf(ScoredAll(finalColorSet, dist, weigh), MergeThreshold, dist, blend), targetColors),
                     [], targetColors, dist) == []
  {
  }
}
