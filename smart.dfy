/** The weighted-score extractor (`extractColorsSimpleSmart`): every 2-bit
    quantized colour of the drawn bitmap becomes a point, each point is scored
    by its distance to the nearest differently coloured point, the points are
    visited best score first and a colour is kept only if it is at least 12
    away from every colour kept so far, up to the target count; a last pass
    drops any colour closer than 10 to one kept before it. The Delta-E
    distance and the final-score formula are parameters. */
module Smart {
  import opened Colors
  import opened Sampling
  import opened Sorting
  import opened Greedy

  /** `SmartColorPoint`: colour, bucket count, and the two scores, both 0 until
      `calculateScores` runs. */
  datatype SmartColorPoint = SmartColorPoint(rgb: Rgb, frequency: int, uniquenessScore: real, finalScore: real)

  /** Low bits cleared from each channel: `(v >> 2) << 2`, multiples of 4. */
  const PointShift: nat := 2

  /** The uniqueness of a point when every point has its RGB. */
  const LoneUniqueness: real := 100.0

  /** A candidate closer than this to a selected colour is too similar. */
  const SelectionDistance: real := 12.0

  /** A colour closer than this to a colour kept before it is dropped at the end. */
  const FinalDistance: real := 10.0

  // ------------------------------------------------------------------
  // extractColorPoints

  /** `SmartColorPoint(r:g:b:frequency:)` for every bucket, rare ones included. */
  function Unscored(h: Histogram): (r: seq<SmartColorPoint>)
    ensures |r| == |h|
    ensures forall i :: 0 <= i < |h| ==> r[i] == SmartColorPoint(h[i].key, h[i].count, 0.0, 0.0)
  {
    seq(|h|, i requires 0 <= i < |h| => SmartColorPoint(h[i].key, h[i].count, 0.0, 0.0))
  }

  function PointRgbs(s: seq<SmartColorPoint>): (r: seq<Rgb>)
    ensures |r| == |s|
    ensures forall i :: 0 <= i < |s| ==> r[i] == s[i].rgb
  {
    seq(|s|, i requires 0 <= i < |s| => s[i].rgb)
  }

  /** Sum of the frequencies of the points. */
  function TotalFrequency(points: seq<SmartColorPoint>): int {
    if points == [] then 0 else TotalFrequency(points[..|points| - 1]) + points[|points| - 1].frequency
  }

  /** The points of the bitmap `buf`: one per quantized colour of its opaque
      pixels. */
  function ColorPoints(buf: seq<Byte>, width: nat, height: nat): seq<SmartColorPoint>
    requires |buf| == width * height * 4
  {
    Unscored(HistogramOf(Samples(buf, width * height, PointShift)))
  }

  /** `extractColorPoints` over the drawn 4-byte pixel buffer: the row/column
      scan counts the opaque pixels per quantized colour, and every bucket
      becomes a point. */
  method ExtractColorPoints(buf: seq<Byte>, width: nat, height: nat) returns (points: seq<SmartColorPoint>)
    requires |buf| == width * height * 4
    ensures points == ColorPoints(buf, width, height)
  {
    var colorHistogram := BuildHistogram(buf, width, height, PointShift);
    points := Unscored(colorHistogram);
  }

  /** Keeping every bucket keeps every opaque pixel: the frequencies add up to
      the number of pixels with alpha above 125, the colours are distinct
      multiples of 4 in 0..255, and every frequency is at least 1. */
  lemma ColorPointsCountPixels(buf: seq<Byte>, width: nat, height: nat)
    requires |buf| == width * height * 4
    ensures var r := ColorPoints(buf, width, height);
      TotalFrequency(r) == OpaqueCount(buf, width * height) &&
      (forall i, j :: 0 <= i < j < |r| ==> r[i].rgb != r[j].rgb) &&
      forall i :: 0 <= i < |r| ==>
        r[i].frequency >= 1 &&
        r[i].rgb.r % 4 == 0 && r[i].rgb.g % 4 == 0 && r[i].rgb.b % 4 == 0 &&
        0 <= r[i].rgb.r < 256 && 0 <= r[i].rgb.g < 256 && 0 <= r[i].rgb.b < 256
  {
    var h := HistogramOf(Samples(buf, width * height, PointShift));
    HistogramOfBuffer(buf, width, height, PointShift);
    assert Pow2(PointShift) == 4;
    UnscoredTotal(h);
  }

  lemma {:induction false} UnscoredTotal(h: Histogram)
    ensures TotalFrequency(Unscored(h)) == Total(h)
  {
    if h != [] {
      var init := h[..|h| - 1];
      assert Unscored(h)[..|h| - 1] == Unscored(init);
      UnscoredTotal(init);
    }
  }

  // ------------------------------------------------------------------
  // calculateScores

  /** `calculateScores(among:)`: the uniqueness is the distance to the nearest
      point of a different RGB, 100 when there is none, and `score` turns the
      colour, frequency and uniqueness into the final score. */
  function Scored(p: SmartColorPoint, population: seq<Rgb>, dist: (Rgb, Rgb) -> real,
                  score: (Rgb, int, real) -> real): SmartColorPoint
  {
    var u := Uniqueness(p.rgb, population, dist, LoneUniqueness);
    SmartColorPoint(p.rgb, p.frequency, u, score(p.rgb, p.frequency, u))
  }

  function ScoredAll(points: seq<SmartColorPoint>, dist: (Rgb, Rgb) -> real,
                     score: (Rgb, int, real) -> real): (r: seq<SmartColorPoint>)
    ensures |r| == |points|
  {
    seq(|points|, i requires 0 <= i < |points| => Scored(points[i], PointRgbs(points), dist, score))
  }

  /** The scoring loop of the pipeline updates the points in place, each one
      scored against the array as it stands; scoring never changes an RGB, so
      every point is scored against the original colours. */
  method ScoreColors(colorPoints: seq<SmartColorPoint>, dist: (Rgb, Rgb) -> real,
                     score: (Rgb, int, real) -> real) returns (scoredColors: seq<SmartColorPoint>)
    ensures scoredColors == ScoredAll(colorPoints, dist, score)
  {
    scoredColors := colorPoints;
    for i := 0 to |scoredColors|
      invariant |scoredColors| == |colorPoints|
      invariant PointRgbs(scoredColors) == PointRgbs(colorPoints)
      invariant forall k :: 0 <= k < i ==> scoredColors[k] == Scored(colorPoints[k], PointRgbs(colorPoints), dist, score)
      invariant forall k :: i <= k < |colorPoints| ==> scoredColors[k] == colorPoints[k]
    {
      var p := scoredColors[i];
      var u := Uniqueness(p.rgb, PointRgbs(scoredColors), dist, LoneUniqueness);
      scoredColors := scoredColors[i := SmartColorPoint(p.rgb, p.frequency, u, score(p.rgb, p.frequency, u))];
      assert PointRgbs(scoredColors) == PointRgbs(colorPoints);
    }
  }

  /** Scoring keeps each point's colour and frequency; a point whose RGB every
      point shares scores uniqueness 100, any other point the smallest distance
      to a differently coloured point. */
  lemma ScoredUniqueness(points: seq<SmartColorPoint>, dist: (Rgb, Rgb) -> real,
                         score: (Rgb, int, real) -> real)
    ensures var r := ScoredAll(points, dist, score);
      PointRgbs(r) == PointRgbs(points) &&
      (forall i :: 0 <= i < |r| ==> r[i].frequency == points[i].frequency) &&
      (forall i :: 0 <= i < |r| && (forall k :: 0 <= k < |points| ==> points[k].rgb == points[i].rgb) ==>
         r[i].uniquenessScore == LoneUniqueness) &&
      (forall i :: 0 <= i < |r| && (exists k :: 0 <= k < |points| && points[k].rgb != points[i].rgb) ==>
         (exists k :: 0 <= k < |points| && points[k].rgb != points[i].rgb &&
            r[i].uniquenessScore == dist(points[i].rgb, points[k].rgb)) &&
         (forall k :: 0 <= k < |points| && points[k].rgb != points[i].rgb ==>
            r[i].uniquenessScore <= dist(points[i].rgb, points[k].rgb)))
  {
    var r := ScoredAll(points, dist, score);
    assert PointRgbs(r) == PointRgbs(points);
    forall i | 0 <= i < |r| {
      ScoredAt(points, dist, score, i);
    }
  }

  lemma ScoredAt(points: seq<SmartColorPoint>, dist: (Rgb, Rgb) -> real,
                 score: (Rgb, int, real) -> real, i: nat)
    requires i < |points|
    ensures var u := ScoredAll(points, dist, score)[i].uniquenessScore;
      ((forall k :: 0 <= k < |points| ==> points[k].rgb == points[i].rgb) ==> u == LoneUniqueness) &&
      ((exists k :: 0 <= k < |points| && points[k].rgb != points[i].rgb) ==>
         (exists k :: 0 <= k < |points| && points[k].rgb != points[i].rgb && u == dist(points[i].rgb, points[k].rgb)) &&
         (forall k :: 0 <= k < |points| && points[k].rgb != points[i].rgb ==> u <= dist(points[i].rgb, points[k].rgb)))
  {
    var all := PointRgbs(points);
    var c := points[i].rgb;
    var u := Uniqueness(c, all, dist, LoneUniqueness);
    assert ScoredAll(points, dist, score)[i].uniquenessScore == u;
    if exists k :: 0 <= k < |points| && points[k].rgb != c {
      var k0 :| 0 <= k0 < |points| && points[k0].rgb != c;
      assert all[k0] != c;
      var k1 :| 0 <= k1 < |all| && all[k1] != c && dist(c, all[k1]) == u;
      assert points[k1].rgb != c && u == dist(c, points[k1].rgb);
    } else {
      assert forall k :: 0 <= k < |all| ==> all[k] == c;
    }
  }

  // ------------------------------------------------------------------
  // smartSelectColors

  function FinalScore(p: SmartColorPoint): real {
    p.finalScore
  }

  /** A candidate is distinct from a selected colour at 12 or more. */
  function Distinct(dist: (Rgb, Rgb) -> real, threshold: real): (Rgb, Rgb) -> bool {
    (c: Rgb, kept: Rgb) => dist(c, kept) >= threshold
  }

  /** The points best score first. */
  function ByScore(colors: seq<SmartColorPoint>): seq<SmartColorPoint> {
    SortDesc(colors, FinalScore)
  }

  /** What `smartSelectColors` returns: the greedy scan of the colours best
      score first, keeping those distinct from all kept so far, stopping at the
      target count. */
  function SmartSelected(colors: seq<SmartColorPoint>, targetCount: int, dist: (Rgb, Rgb) -> real): seq<Rgb> {
    Select([], PointRgbs(ByScore(colors)), Distinct(dist, SelectionDistance), targetCount)
  }

  method SmartSelectColors(colors: seq<SmartColorPoint>, targetCount: int, dist: (Rgb, Rgb) -> real)
    returns (selectedColors: seq<Rgb>)
    ensures selectedColors == SmartSelected(colors, targetCount, dist)
  {
    var sortedColors := SortDesc(colors, FinalScore);
    ghost var far := Distinct(dist, SelectionDistance);
    ghost var candidates := PointRgbs(sortedColors);
    selectedColors := [];
    var i := 0;
    while i < |sortedColors|
      invariant 0 <= i <= |sortedColors|
      invariant Select(selectedColors, candidates[i..], far, targetCount) == SmartSelected(colors, targetCount, dist)
    {
      if |selectedColors| >= targetCount {
        break;
      }
      var color := sortedColors[i];
      assert candidates[i..][0] == color.rgb && candidates[i..][1..] == candidates[i + 1..];
      var isTooSimilar := exists k :: 0 <= k < |selectedColors| && dist(color.rgb, selectedColors[k]) < SelectionDistance;
      if !isTooSimilar {
        selectedColors := selectedColors + [color.rgb];
      }
      i := i + 1;
    }
    assert i == |candidates| ==> candidates[i..] == [];
  }

  /** The selection visits the points best score first (the sorted order is a
      rearrangement of the points), returns at most `targetCount` colours, each
      at least 12 from every colour selected before it, in sorted order; a
      candidate is left out only when it is within 12 of a selected colour or
      the target count has been reached. */
  lemma SmartSelection(colors: seq<SmartColorPoint>, targetCount: int, dist: (Rgb, Rgb) -> real)
    ensures var sorted := ByScore(colors);
      multiset(sorted) == multiset(colors) && SortedDesc(sorted, FinalScore)
    ensures var r := SmartSelected(colors, targetCount, dist);
      var candidates := PointRgbs(ByScore(colors));
      |r| <= Max(targetCount, 0) &&
      (forall i, j :: 0 <= i < j < |r| ==> dist(r[j], r[i]) >= SelectionDistance) &&
      IsSubseq(r, candidates) &&
      forall k :: 0 <= k < |candidates| ==>
        candidates[k] in r || |r| >= targetCount ||
        exists j :: 0 <= j < |r| && dist(candidates[k], r[j]) < SelectionDistance
  {
    var far := Distinct(dist, SelectionDistance);
    var candidates := PointRgbs(ByScore(colors));
    var r := Select([], candidates, far, targetCount);
    assert r[0..] == r;
    assert PairwiseFar(r, far);
    SelectDropsOnlyNearOrFull([], candidates, far, targetCount);
  }

  /** Every selected colour is the colour of one of the points. */
  lemma SmartSelectedFromPoints(colors: seq<SmartColorPoint>, targetCount: int, dist: (Rgb, Rgb) -> real)
    ensures forall c :: c in SmartSelected(colors, targetCount, dist) ==>
      exists k :: 0 <= k < |colors| && colors[k].rgb == c
  {
    var sorted := ByScore(colors);
    var candidates := PointRgbs(sorted);
    SelectElements([], candidates, Distinct(dist, SelectionDistance), targetCount);
    forall c | c in SmartSelected(colors, targetCount, dist)
      ensures exists k :: 0 <= k < |colors| && colors[k].rgb == c
    {
      var i :| 0 <= i < |candidates| && candidates[i] == c;
      var k := Rearranged(sorted, colors, i);
    }
  }

  // ------------------------------------------------------------------
  // finalDeduplication

  /** What `finalDeduplication` returns: one colour or none come back as they
      are; otherwise each colour is kept iff it is at least 10 from every colour
      kept before it. */
  function FinalDeduplicated(colors: seq<Rgb>, dist: (Rgb, Rgb) -> real): seq<Rgb> {
    if |colors| <= 1 then colors else Dedup(colors, Distinct(dist, FinalDistance))
  }

  method FinalDeduplication(colors: seq<Rgb>, dist: (Rgb, Rgb) -> real) returns (finalColors: seq<Rgb>)
    ensures finalColors == FinalDeduplicated(colors, dist)
  {
    if |colors| <= 1 {
      return colors;
    }
    ghost var far := Distinct(dist, FinalDistance);
    finalColors := [];
    for i := 0 to |colors|
      invariant |finalColors| <= i
      invariant Select(finalColors, colors[i..], far, |colors|) == Dedup(colors, far)
    {
      assert colors[i..][0] == colors[i] && colors[i..][1..] == colors[i + 1..];
      var isUnique := forall k :: 0 <= k < |finalColors| ==> dist(colors[i], finalColors[k]) >= FinalDistance;
      if isUnique {
        finalColors := finalColors + [colors[i]];
      }
    }
    assert colors[|colors|..] == [];
  }

  /** The last pass keeps the order and never lengthens the list; the colours
      kept are each at least 10 from every one kept before them, the first colour
      always stays, and a colour is dropped only when it is within 10 of a kept
      one. */
  lemma FinalDeduplicationKeeps(colors: seq<Rgb>, dist: (Rgb, Rgb) -> real)
    ensures var r := FinalDeduplicated(colors, dist);
      |r| <= |colors| && IsSubseq(r, colors) &&
      (|colors| <= 1 ==> r == colors) &&
      (forall i, j :: 0 <= i < j < |r| ==> dist(r[j], r[i]) >= FinalDistance) &&
      (colors != [] ==> r != [] && r[0] == colors[0]) &&
      forall k :: 0 <= k < |colors| ==>
        colors[k] in r || exists j :: 0 <= j < |r| && dist(colors[k], r[j]) < FinalDistance
  {
    var far := Distinct(dist, FinalDistance);
    var r := FinalDeduplicated(colors, dist);
    if |colors| <= 1 {
      SubseqRefl(colors);
    } else {
      assert PairwiseFar(r, far);
      DedupKeepsFirst(colors, far);
      SelectDropsOnlyNearOrFull([], colors, far, |colors|);
      forall k | 0 <= k < |colors|
        ensures colors[k] in r || exists j :: 0 <= j < |r| && dist(colors[k], r[j]) < FinalDistance
      {
        if |r| >= |colors| {
          SubseqFull(r, colors);
        }
      }
    }
  }

  /** De-duplicating twice is de-duplicating once. */
  lemma FinalDeduplicationIdempotent(colors: seq<Rgb>, dist: (Rgb, Rgb) -> real)
    ensures FinalDeduplicated(FinalDeduplicated(colors, dist), dist) == FinalDeduplicated(colors, dist)
  {
    if |colors| > 1 {
      DedupIdempotent(colors, Distinct(dist, FinalDistance));
    }
  }

  /** Colours already pairwise at least 10 apart pass the last step unchanged. */
  lemma SeparatedSurvive(colors: seq<Rgb>, dist: (Rgb, Rgb) -> real)
    requires forall i, j :: 0 <= i < j < |colors| ==> dist(colors[j], colors[i]) >= FinalDistance
    ensures FinalDeduplicated(colors, dist) == colors
  {
    var far := Distinct(dist, FinalDistance);
    assert PairwiseFar([] + colors, far);
    SelectKeepsSeparated([], colors, far, |colors|);
  }

  // ------------------------------------------------------------------
  // extractColorsSimpleSmart

  /** `extractColorsSimpleSmart` on a drawn (already downsized) buffer, without
      its progress reports: points, scores, selection, de-duplication. Since the
      selection already keeps its colours 12 apart, the last pass removes
      nothing. */
  method ExtractColorsSimpleSmart(buf: seq<Byte>, width: nat, height: nat, targetColors: int,
                                  dist: (Rgb, Rgb) -> real, score: (Rgb, int, real) -> real)
    returns (finalColors: seq<Rgb>)
    requires |buf| == width * height * 4
    ensures var scored := ScoredAll(ColorPoints(buf, width, height), dist, score);
      finalColors == SmartSelected(scored, targetColors, dist)
    ensures |finalColors| <= Max(targetColors, 0)
    ensures forall i, j :: 0 <= i < j < |finalColors| ==> dist(finalColors[j], finalColors[i]) >= SelectionDistance
    ensures forall c :: c in finalColors ==> exists k :: 0 <= k < |ColorPoints(buf, width, height)| && ColorPoints(buf, width, height)[k].rgb == c
    ensures OpaqueCount(buf, width * height) == 0 ==> finalColors == []
  {
    var colorPoints := ExtractColorPoints(buf, width, height);
    var scoredColors := ScoreColors(colorPoints, dist, score);
    var selectedColors := SmartSelectColors(scoredColors, targetColors, dist);
    SmartSelection(scoredColors, targetColors, dist);
    SmartSelectedFromPoints(scoredColors, targetColors, dist);
    ScoredUniqueness(colorPoints, dist, score);
    finalColors := FinalDeduplication(selectedColors, dist);
    SeparatedSurvive(selectedColors, dist);
    forall c | c in finalColors
      ensures exists k :: 0 <= k < |colorPoints| && colorPoints[k].rgb == c
    {
      var k :| 0 <= k < |scoredColors| && scoredColors[k].rgb == c;
      assert PointRgbs(scoredColors)[k] == c;
    }
    if OpaqueCount(buf, width * height) == 0 {
      ColorPointsCountPixels(buf, width, height);
      NoPixelsNoPoints(colorPoints);
    }
  }

  /** Points whose frequencies are all positive and sum to 0 are no points. */
  lemma NoPixelsNoPoints(points: seq<SmartColorPoint>)
    requires forall i :: 0 <= i < |points| ==> points[i].frequency >= 1
    requires TotalFrequency(points) == 0
    ensures points == []
  {
    if points != [] {
      PositiveTotal(points);
    }
  }

  lemma {:induction false} PositiveTotal(points: seq<SmartColorPoint>)
    requires forall i :: 0 <= i < |points| ==> points[i].frequency >= 1
    ensures TotalFrequency(points) >= |points|
  {
    if points != [] {
      PositiveTotal(points[..|points| - 1]);
    }
  }
}
