/** The candidate colours of the enhanced median-cut extractor
    (`EnhancedColor`), outlier pre-selection (`detectOutlierColors`) and the
    per-colour scores (`calculateUniqueness`, `calculateVisualImportance`).
    The Delta-E distance and the importance weighting are parameters. */
module Enhanced {
  import opened Colors
  import opened Sampling
  import opened Sorting

  /** A palette candidate: its RGB, its pixel count, and the two scores the
      pipeline attaches to it, both 0 until computed. */
  datatype EnhancedColor = EnhancedColor(rgb: Rgb, frequency: int, uniqueness: real, importance: real)

  /** `EnhancedColor(r:g:b:frequency:)` */
  function NewColor(c: Rgb, frequency: int): EnhancedColor {
    EnhancedColor(c, frequency, 0.0, 0.0)
  }

  /** `histogram.map { EnhancedColor(key, frequency) }` */
  function AllColors(h: Histogram): (r: seq<EnhancedColor>)
    ensures |r| == |h|
    ensures forall i :: 0 <= i < |h| ==> r[i] == NewColor(h[i].key, h[i].count)
  {
    seq(|h|, i requires 0 <= i < |h| => NewColor(h[i].key, h[i].count))
  }

  function Rgbs(s: seq<EnhancedColor>): (r: seq<Rgb>)
    ensures |r| == |s|
    ensures forall i :: 0 <= i < |s| ==> r[i] == s[i].rgb
  {
    seq(|s|, i requires 0 <= i < |s| => s[i].rgb)
  }

  /** Smallest distance required of an outlier to every differently coloured candidate. */
  const OutlierDistance: real := 10.0

  /** `distances.min() > 10`, where `distances` skips the candidates of the same RGB. */
  predicate IsOutlier(c: Rgb, all: seq<Rgb>, dist: (Rgb, Rgb) -> real) {
    var m := MinDistanceToOthers(c, all, dist);
    m.Some? && m.value > OutlierDistance
  }

  /** A colour is an outlier iff some candidate has a different RGB and every
      such candidate is more than the outlier distance away. */
  lemma OutlierMeaning(c: Rgb, all: seq<Rgb>, dist: (Rgb, Rgb) -> real)
    ensures IsOutlier(c, all, dist) <==>
      (exists k :: 0 <= k < |all| && all[k] != c) &&
      (forall k :: 0 <= k < |all| && all[k] != c ==> dist(c, all[k]) > OutlierDistance)
  {
    var m := MinDistanceToOthers(c, all, dist);
    if m.Some? && !IsOutlier(c, all, dist) {
      var k :| 0 <= k < |all| && all[k] != c && dist(c, all[k]) == m.value;
    }
  }

  /** The candidates, in order, that are outliers of the population `all`. */
  function Outliers(cands: seq<EnhancedColor>, all: seq<Rgb>, dist: (Rgb, Rgb) -> real): (r: seq<EnhancedColor>)
    ensures |r| <= |cands|
    ensures forall i :: 0 <= i < |r| ==> r[i] in cands && IsOutlier(r[i].rgb, all, dist)
    ensures forall i :: 0 <= i < |cands| && IsOutlier(cands[i].rgb, all, dist) ==> cands[i] in r
  {
    if cands == [] then []
    else
      var init := cands[..|cands| - 1];
      var last := cands[|cands| - 1];
      assert forall i :: 0 <= i < |init| ==> init[i] == cands[i];
      Outliers(init, all, dist) + (if IsOutlier(last.rgb, all, dist) then [last] else [])
  }

  /** Sort key of the outliers: the minimum distance to a differently coloured
      candidate, 0 when there is none. */
  function UniquenessKey(all: seq<Rgb>, dist: (Rgb, Rgb) -> real): EnhancedColor -> real {
    (e: EnhancedColor) => Uniqueness(e.rgb, all, dist, 0.0)
  }

  /** What `detectOutlierColors` returns: three candidates or fewer come back
      as they are; otherwise the outliers, most distinct first. */
  function DetectedOutliers(colors: seq<EnhancedColor>, dist: (Rgb, Rgb) -> real): seq<EnhancedColor> {
    if |colors| <= 3 then colors
    else SortDesc(Outliers(colors, Rgbs(colors), dist), UniquenessKey(Rgbs(colors), dist))
  }

  method DetectOutlierColors(colors: seq<EnhancedColor>, dist: (Rgb, Rgb) -> real) returns (outliers: seq<EnhancedColor>)
    ensures outliers == DetectedOutliers(colors, dist)
  {
    if |colors| <= 3 {
      return colors;
    }
    var all := Rgbs(colors);
    outliers := [];
    for i := 0 to |colors|
      invariant outliers == Outliers(colors[..i], all, dist)
    {
      assert colors[..i + 1][..i] == colors[..i];
      var minDistance := MinDistanceToOthers(colors[i].rgb, all, dist);
      if minDistance.None? {
        continue;
      }
      if minDistance.value > OutlierDistance {
        outliers := outliers + [colors[i]];
      }
    }
    assert colors[..|colors|] == colors;
    outliers := SortDesc(outliers, UniquenessKey(all, dist));
  }

  /** With more than three candidates, the result holds exactly the outliers,
      most distinct first. */
  lemma DetectedOutliersAreOutliers(colors: seq<EnhancedColor>, dist: (Rgb, Rgb) -> real)
    requires |colors| > 3
    ensures var r := DetectedOutliers(colors, dist);
      (forall i :: 0 <= i < |r| ==> r[i] in colors && IsOutlier(r[i].rgb, Rgbs(colors), dist)) &&
      (forall i :: 0 <= i < |colors| && IsOutlier(colors[i].rgb, Rgbs(colors), dist) ==> colors[i] in r) &&
      SortedDesc(r, UniquenessKey(Rgbs(colors), dist))
  {
    var all := Rgbs(colors);
    var o := Outliers(colors, all, dist);
    var r := SortDesc(o, UniquenessKey(all, dist));
    forall i | 0 <= i < |r| ensures r[i] in colors && IsOutlier(r[i].rgb, all, dist) {
      var k := Rearranged(r, o, i);
    }
    forall i | 0 <= i < |colors| && IsOutlier(colors[i].rgb, all, dist) ensures colors[i] in r {
      StillThere(r, o, colors[i]);
    }
  }

  /** Phase 3 of `performEnhancedMMCQ`: the colour with its uniqueness among
      `population` (0 when every colour there has its RGB) and its visual
      importance, which `weigh` computes from RGB, frequency and uniqueness. */
  function Scored(c: EnhancedColor, population: seq<Rgb>, dist: (Rgb, Rgb) -> real,
                  weigh: (Rgb, int, real) -> real): EnhancedColor
  {
    var u := Uniqueness(c.rgb, population, dist, 0.0);
    EnhancedColor(c.rgb, c.frequency, u, weigh(c.rgb, c.frequency, u))
  }

  function ScoredAll(colors: seq<EnhancedColor>, dist: (Rgb, Rgb) -> real,
                     weigh: (Rgb, int, real) -> real): (r: seq<EnhancedColor>)
  {
    seq(|colors|, i requires 0 <= i < |colors| => Scored(colors[i], Rgbs(colors), dist, weigh))
  }

  /** The scoring loop updates the array in place, each colour measured against
      the array as it stands; since scoring never changes an RGB, the result is
      every colour scored against the original colours. */
  method ScoreColors(colors: seq<EnhancedColor>, dist: (Rgb, Rgb) -> real,
                     weigh: (Rgb, int, real) -> real) returns (enhanced: seq<EnhancedColor>)
    ensures enhanced == ScoredAll(colors, dist, weigh)
  {
    enhanced := colors;
    for i := 0 to |enhanced|
      invariant |enhanced| == |colors|
      invariant Rgbs(enhanced) == Rgbs(colors)
      invariant forall k :: 0 <= k < i ==> enhanced[k] == Scored(colors[k], Rgbs(colors), dist, weigh)
      invariant forall k :: i <= k < |colors| ==> enhanced[k] == colors[k]
    {
      var u := Uniqueness(enhanced[i].rgb, Rgbs(enhanced), dist, 0.0);
      enhanced := enhanced[i := EnhancedColor(enhanced[i].rgb, enhanced[i].frequency, u, enhanced[i].importance)];
      assert Rgbs(enhanced) == Rgbs(colors);
      var c := enhanced[i];
      enhanced := enhanced[i := EnhancedColor(c.rgb, c.frequency, c.uniqueness, weigh(c.rgb, c.frequency, c.uniqueness))];
      assert Rgbs(enhanced) == Rgbs(colors);
    }
  }

  /** Scoring keeps every colour's RGB and frequency, and each uniqueness is the
      distance to the nearest differently coloured member of the set. */
  lemma ScoredKeepsColors(colors: seq<EnhancedColor>, dist: (Rgb, Rgb) -> real, weigh: (Rgb, int, real) -> real)
    ensures var r := ScoredAll(colors, dist, weigh);
      |r| == |colors| && Rgbs(r) == Rgbs(colors) &&
      (forall i :: 0 <= i < |r| ==> r[i].frequency == colors[i].frequency) &&
      (forall i :: 0 <= i < |r| && (exists k :: 0 <= k < |colors| && colors[k].rgb != colors[i].rgb) ==>
         forall k :: 0 <= k < |colors| && colors[k].rgb != colors[i].rgb ==> r[i].uniqueness <= dist(colors[i].rgb, colors[k].rgb))
  {
    var r := ScoredAll(colors, dist, weigh);
    assert Rgbs(r) == Rgbs(colors);
    forall i | 0 <= i < |r| && (exists k :: 0 <= k < |colors| && colors[k].rgb != colors[i].rgb)
      ensures forall k :: 0 <= k < |colors| && colors[k].rgb != colors[i].rgb ==> r[i].uniqueness <= dist(colors[i].rgb, colors[k].rgb)
    {
      var all := Rgbs(colors);
      var k0 :| 0 <= k0 < |colors| && colors[k0].rgb != colors[i].rgb;
      assert all[k0] != colors[i].rgb;
      forall k | 0 <= k < |colors| && colors[k].rgb != colors[i].rgb
        ensures r[i].uniqueness <= dist(colors[i].rgb, colors[k].rgb)
      {
        assert all[k] == colors[k].rgb;
      }
    }
  }
}
