/** The DBSCAN extractor: 3-bit quantized colour points with rare buckets
    dropped, density clustering over a visited / cluster-id state kept per point,
    and the quota-based final selection followed by de-duplication. The two
    mutable fields of each point (`isVisited`, `clusterId`) are kept as two
    parallel arrays indexed like the points; the immutable part of a point is
    a value. */
module Dbscan {
  import opened Colors
  import opened Sampling
  import opened Sorting
  import opened Greedy

  /** The immutable part of a `ColorPoint`: colour, bucket count and the
      visual importance computed once the points are built. */
  datatype ColorPoint = ColorPoint(rgb: Rgb, frequency: nat, importance: real)

  /** `DBSCANCluster(id:points:)` */
  datatype Cluster = Cluster(id: nat, points: seq<ColorPoint>)

  /** The two label values that are not cluster ids. */
  const Unclassified: int := -1
  const Noise: int := -2

  // ------------------------------------------------------------------
  // buildColorPoints

  /** Low bits cleared from each channel: 3 kept bits, multiples of 32. */
  const PointShift: nat := 5

  /** A bucket is rare when its count is below the largest count over this. */
  const RareDivisor: int := 200

  /** The largest bucket count (`values.map { $0.count }.max()`). */
  function MaxCount(h: Histogram): (m: nat)
    requires h != []
    ensures forall i :: 0 <= i < |h| ==> h[i].count <= m
    ensures exists i :: 0 <= i < |h| && h[i].count == m
  {
    if |h| == 1 then h[0].count
    else
      var init := h[..|h| - 1];
      var m := MaxCount(init);
      assert forall i :: 0 <= i < |init| ==> init[i] == h[i];
      if h[|h| - 1].count > m then h[|h| - 1].count else m
  }

  /** `max(1, maxCount / 200)` */
  function MinFrequency(h: Histogram): int
    requires h != []
  {
    Max(1, MaxCount(h) / RareDivisor)
  }

  /** The buckets whose count reaches `minFrequency`, in order. */
  function Frequent(h: Histogram, minFrequency: int): (r: Histogram)
    ensures |r| <= |h|
    ensures forall i :: 0 <= i < |r| ==> r[i] in h && r[i].count >= minFrequency
    ensures forall i :: 0 <= i < |h| && h[i].count >= minFrequency ==> h[i] in r
  {
    if h == [] then []
    else
      var init := h[..|h| - 1];
      var last := h[|h| - 1];
      assert forall i :: 0 <= i < |init| ==> init[i] == h[i];
      Frequent(init, minFrequency) + (if last.count >= minFrequency then [last] else [])
  }

  function PointRgbs(s: seq<ColorPoint>): (r: seq<Rgb>)
    ensures |r| == |s|
    ensures forall i :: 0 <= i < |s| ==> r[i] == s[i].rgb
  {
    seq(|s|, i requires 0 <= i < |s| => s[i].rgb)
  }

  /** `ColorPoint(r:g:b:frequency:)` for every kept bucket, importance 0. */
  function Unscored(h: Histogram): (r: seq<ColorPoint>)
    ensures |r| == |h|
    ensures forall i :: 0 <= i < |h| ==> r[i] == ColorPoint(h[i].key, h[i].count, 0.0)
  {
    seq(|h|, i requires 0 <= i < |h| => ColorPoint(h[i].key, h[i].count, 0.0))
  }

  /** `calculateVisualImportance(among:)`: the uniqueness is the distance to the
      nearest point of different RGB (0 when there is none), and `weigh`
      turns colour, frequency and uniqueness into the importance. */
  function ScoredPoint(p: ColorPoint, population: seq<Rgb>, dist: (Rgb, Rgb) -> real,
                       weigh: (Rgb, int, real) -> real): ColorPoint
  {
    ColorPoint(p.rgb, p.frequency, weigh(p.rgb, p.frequency, Uniqueness(p.rgb, population, dist, 0.0)))
  }

  function ScoredPoints(points: seq<ColorPoint>, dist: (Rgb, Rgb) -> real,
                        weigh: (Rgb, int, real) -> real): (r: seq<ColorPoint>)
    ensures |r| == |points|
    ensures forall i :: 0 <= i < |r| ==> r[i].rgb == points[i].rgb && r[i].frequency == points[i].frequency
  {
    seq(|points|, i requires 0 <= i < |points| => ScoredPoint(points[i], PointRgbs(points), dist, weigh))
  }

  /** The importance loop updates the points in place, each measured against
      the array as it stands; a score never changes an RGB, so every point is
      scored against the original colours. */
  method ScorePoints(points: seq<ColorPoint>, dist: (Rgb, Rgb) -> real,
                     weigh: (Rgb, int, real) -> real) returns (scored: seq<ColorPoint>)
    ensures scored == ScoredPoints(points, dist, weigh)
  {
    scored := points;
    for i := 0 to |scored|
      invariant |scored| == |points|
      invariant PointRgbs(scored) == PointRgbs(points)
      invariant forall k :: 0 <= k < i ==> scored[k] == ScoredPoint(points[k], PointRgbs(points), dist, weigh)
      invariant forall k :: i <= k < |points| ==> scored[k] == points[k]
    {
      var p := scored[i];
      var u := Uniqueness(p.rgb, PointRgbs(scored), dist, 0.0);
      scored := scored[i := ColorPoint(p.rgb, p.frequency, weigh(p.rgb, p.frequency, u))];
      assert PointRgbs(scored) == PointRgbs(points);
    }
  }

  /** The points built from a non-empty histogram: the buckets that are not
      rare, scored among themselves. */
  function PointsOf(h: Histogram, dist: (Rgb, Rgb) -> real, weigh: (Rgb, int, real) -> real): seq<ColorPoint>
    requires h != []
  {
    ScoredPoints(Unscored(Frequent(h, MinFrequency(h))), dist, weigh)
  }

  /** `buildColorPoints` as written: the force-unwrapped `max()` of an empty
      list of counts stops the program, which is None here. */
  function ColorPointsAsWritten(h: Histogram, dist: (Rgb, Rgb) -> real,
                                weigh: (Rgb, int, real) -> real): (r: Option<seq<ColorPoint>>)
    ensures r.None? <==> h == []
  {
    if h == [] then None else Some(PointsOf(h, dist, weigh))
  }

  /** A buffer whose only pixel is transparent leaves the histogram empty, and
      the code as written traps on it. */
  lemma TransparentImageTraps(dist: (Rgb, Rgb) -> real, weigh: (Rgb, int, real) -> real)
    ensures var buf: seq<Byte> := [0, 0, 0, 0];
      HistogramOf(Samples(buf, 1, PointShift)) == [] &&
      ColorPointsAsWritten(HistogramOf(Samples(buf, 1, PointShift)), dist, weigh) == None
  {
    var buf: seq<Byte> := [0, 0, 0, 0];
    assert !IsOpaque(buf[3] as int);
    assert Samples(buf, 1, PointShift) == Samples(buf, 0, PointShift);
  }

  /** `buildColorPoints` with the empty histogram giving no points, as every
      other failure of the function does. */
  function ColorPoints(h: Histogram, dist: (Rgb, Rgb) -> real, weigh: (Rgb, int, real) -> real): seq<ColorPoint> {
    if h == [] then [] else PointsOf(h, dist, weigh)
  }

  /** Points made one per kept bucket, in order, come from the histogram and
      cover every bucket that is kept. */
  lemma PointsFromBuckets(h: Histogram, f: Histogram, r: seq<ColorPoint>, minFrequency: int)
    requires forall i :: 0 <= i < |f| ==> f[i] in h && f[i].count >= minFrequency
    requires forall i :: 0 <= i < |h| && h[i].count >= minFrequency ==> h[i] in f
    requires |r| == |f| && forall k :: 0 <= k < |f| ==> r[k].rgb == f[k].key && r[k].frequency == f[k].count
    ensures forall i :: 0 <= i < |r| ==> Entry(r[i].rgb, r[i].frequency) in h && r[i].frequency >= minFrequency
    ensures forall i :: 0 <= i < |h| && h[i].count >= minFrequency ==> h[i].key in PointRgbs(r)
  {
    forall i | 0 <= i < |r| ensures Entry(r[i].rgb, r[i].frequency) in h && r[i].frequency >= minFrequency {
      assert Entry(r[i].rgb, r[i].frequency) == f[i];
    }
    forall i | 0 <= i < |h| && h[i].count >= minFrequency ensures h[i].key in PointRgbs(r) {
      var k :| 0 <= k < |f| && f[k] == h[i];
      assert PointRgbs(r)[k] == h[i].key;
    }
  }

  /** What the points of a histogram of positive counts are: exactly the
      buckets reaching the rarity threshold, with their colours and counts.
      The largest bucket is never rare, so there is at least one point. */
  lemma ColorPointsKept(h: Histogram, dist: (Rgb, Rgb) -> real, weigh: (Rgb, int, real) -> real)
    requires h != [] && forall i :: 0 <= i < |h| ==> h[i].count >= 1
    ensures var r := ColorPoints(h, dist, weigh);
      r != [] &&
      (forall i :: 0 <= i < |r| ==> Entry(r[i].rgb, r[i].frequency) in h &&
                                    r[i].frequency >= MinFrequency(h)) &&
      (forall i :: 0 <= i < |h| && h[i].count >= MinFrequency(h) ==> h[i].key in PointRgbs(r))
  {
    var f := Frequent(h, MinFrequency(h));
    FrequentNotEmpty(h);
    ScoredBuckets(f, dist, weigh);
    PointsFromBuckets(h, f, PointsOf(h, dist, weigh), MinFrequency(h));
  }

  /** The largest bucket reaches the threshold. */
  lemma FrequentNotEmpty(h: Histogram)
    requires h != [] && forall i :: 0 <= i < |h| ==> h[i].count >= 1
    ensures Frequent(h, MinFrequency(h)) != []
  {
    MaxAtLeastMin(h);
    var top :| 0 <= top < |h| && h[top].count == MaxCount(h);
    assert h[top] in Frequent(h, MinFrequency(h));
  }

  /** Scoring the buckets gives one point per bucket, with its colour and count. */
  lemma ScoredBuckets(f: Histogram, dist: (Rgb, Rgb) -> real, weigh: (Rgb, int, real) -> real)
    ensures var r := ScoredPoints(Unscored(f), dist, weigh);
      |r| == |f| && forall k :: 0 <= k < |f| ==> r[k].rgb == f[k].key && r[k].frequency == f[k].count
  {
  }

  lemma MaxAtLeastMin(h: Histogram)
    requires h != [] && forall i :: 0 <= i < |h| ==> h[i].count >= 1
    ensures MaxCount(h) >= MinFrequency(h)
  {
    var top :| 0 <= top < |h| && h[top].count == MaxCount(h);
    DivBetween(MaxCount(h), RareDivisor, 0, MaxCount(h));
  }

  /** `buildColorPoints` over the drawn 4-byte pixel buffer. */
  method BuildColorPoints(buf: seq<Byte>, width: nat, height: nat, dist: (Rgb, Rgb) -> real,
                          weigh: (Rgb, int, real) -> real) returns (points: seq<ColorPoint>)
    requires |buf| == width * height * 4
    ensures points == ColorPoints(HistogramOf(Samples(buf, width * height, PointShift)), dist, weigh)
  {
    var h := BuildHistogram(buf, width, height, PointShift);
    if h == [] {
      return [];
    }
    var minFrequency := MinFrequency(h);
    var kept := Frequent(h, minFrequency);
    points := ScorePoints(Unscored(kept), dist, weigh);
  }

  /** A buffer has DBSCAN points iff some pixel is opaque. */
  lemma BufferHasPoints(buf: seq<Byte>, width: nat, height: nat, dist: (Rgb, Rgb) -> real,
                        weigh: (Rgb, int, real) -> real)
    requires |buf| == width * height * 4
    ensures ColorPoints(HistogramOf(Samples(buf, width * height, PointShift)), dist, weigh) == [] <==>
      OpaqueCount(buf, width * height) == 0
  {
    var h := HistogramOf(Samples(buf, width * height, PointShift));
    HistogramOfBuffer(buf, width, height, PointShift);
    if h != [] {
      ColorPointsKept(h, dist, weigh);
      EntryBelowTotal(h, |h| - 1);
    }
  }

  /** The points of a buffer are quantized opaque colours: every channel a
      multiple of 32 in 0..255, and every count between 1 and the number of
      opaque pixels. */
  lemma BufferPointsQuantized(buf: seq<Byte>, width: nat, height: nat, dist: (Rgb, Rgb) -> real,
                              weigh: (Rgb, int, real) -> real)
    requires |buf| == width * height * 4
    ensures var r := ColorPoints(HistogramOf(Samples(buf, width * height, PointShift)), dist, weigh);
      forall i :: 0 <= i < |r| ==>
        r[i].rgb.r % 32 == 0 && r[i].rgb.g % 32 == 0 && r[i].rgb.b % 32 == 0 &&
        0 <= r[i].rgb.r < 256 && 0 <= r[i].rgb.g < 256 && 0 <= r[i].rgb.b < 256 &&
        1 <= r[i].frequency <= OpaqueCount(buf, width * height)
  {
    var h := HistogramOf(Samples(buf, width * height, PointShift));
    if h != [] {
      HistogramOfBuffer(buf, width, height, PointShift);
      ColorPointsKept(h, dist, weigh);
      assert Pow2(PointShift) == 32;
      var r := ColorPoints(h, dist, weigh);
      forall i | 0 <= i < |r|
        ensures r[i].rgb.r % 32 == 0 && r[i].rgb.g % 32 == 0 && r[i].rgb.b % 32 == 0 &&
          0 <= r[i].rgb.r < 256 && 0 <= r[i].rgb.g < 256 && 0 <= r[i].rgb.b < 256 &&
          1 <= r[i].frequency <= OpaqueCount(buf, width * height)
      {
        var k :| 0 <= k < |h| && h[k] == Entry(r[i].rgb, r[i].frequency);
        EntryBelowTotal(h, k);
      }
    }
  }

  lemma {:induction false} EntryBelowTotal(h: Histogram, k: nat)
    requires k < |h|
    ensures h[k].count <= Total(h)
    decreases |h|
  {
    if k < |h| - 1 {
      EntryBelowTotal(h[..|h| - 1], k);
    }
  }

  // ------------------------------------------------------------------
  // regionQuery

  /** Indices below `m` of the points within `eps` of `c`, ascending. */
  function Neighbors(points: seq<ColorPoint>, c: Rgb, m: nat, eps: real, dist: (Rgb, Rgb) -> real): (r: seq<nat>)
    requires m <= |points|
    ensures forall k :: 0 <= k < |r| ==> r[k] < m
    ensures forall a, b :: 0 <= a < b < |r| ==> r[a] < r[b]
  {
    if m == 0 then []
    else
      var r := Neighbors(points, c, m - 1, eps, dist);
      if dist(c, points[m - 1].rgb) <= eps then r + [m - 1] else r
  }

  /** The neighbourhood holds exactly the points within `eps`. */
  lemma {:induction false} NeighborsExactly(points: seq<ColorPoint>, c: Rgb, m: nat, eps: real, dist: (Rgb, Rgb) -> real)
    requires m <= |points|
    ensures forall j :: j in Neighbors(points, c, m, eps, dist) <==> 0 <= j < m && dist(c, points[j].rgb) <= eps
  {
    if m > 0 {
      NeighborsExactly(points, c, m - 1, eps, dist);
    }
  }

  /** `regionQuery`: one pass over the points in index order. */
  method RegionQuery(points: seq<ColorPoint>, pointIndex: nat, eps: real, dist: (Rgb, Rgb) -> real)
    returns (neighbors: seq<nat>)
    requires pointIndex < |points|
    ensures neighbors == Neighbors(points, points[pointIndex].rgb, |points|, eps, dist)
  {
    neighbors := [];
    var queryPoint := points[pointIndex];
    for index := 0 to |points|
      invariant neighbors == Neighbors(points, queryPoint.rgb, index, eps, dist)
    {
      if dist(queryPoint.rgb, points[index].rgb) <= eps {
        neighbors := neighbors + [index];
      }
    }
  }

  /** A point is always its own neighbour. */
  lemma RegionHasQuery(points: seq<ColorPoint>, q: nat, eps: real, dist: (Rgb, Rgb) -> real)
    requires IsDistance(dist) && eps >= 0.0 && q < |points|
    ensures q in Neighbors(points, points[q].rgb, |points|, eps, dist)
  {
    NeighborsExactly(points, points[q].rgb, |points|, eps, dist);
  }

  /** A core point has at least `minPoints` points (itself included) within `eps`. */
  predicate Core(points: seq<ColorPoint>, c: Rgb, eps: real, minPoints: int, dist: (Rgb, Rgb) -> real) {
    |Neighbors(points, c, |points|, eps, dist)| >= minPoints
  }

  // ------------------------------------------------------------------
  // The labelling state: `isVisited` and `clusterId` of every point

  /** Exactly the visited points carry a label other than unclassified, and
      every label is a cluster id, noise or unclassified. */
  predicate Consistent(visited: seq<bool>, clusterIds: seq<int>) {
    |visited| == |clusterIds| &&
    forall k :: 0 <= k < |visited| ==> (visited[k] <==> clusterIds[k] != Unclassified) && clusterIds[k] >= Noise
  }

  /** The same, except at the point `p`, just marked visited and not yet labelled. */
  predicate ConsistentBut(visited: seq<bool>, clusterIds: seq<int>, p: nat) {
    |visited| == |clusterIds| && p < |visited| && visited[p] && clusterIds[p] == Unclassified &&
    forall k :: 0 <= k < |visited| && k != p ==> (visited[k] <==> clusterIds[k] != Unclassified) && clusterIds[k] >= Noise
  }

  function Unvisited(visited: seq<bool>): nat {
    if visited == [] then 0
    else Unvisited(visited[..|visited| - 1]) + (if visited[|visited| - 1] then 0 else 1)
  }

  /** Visiting a point leaves one unvisited point fewer. */
  lemma {:induction false} VisitOne(visited: seq<bool>, k: nat)
    requires k < |visited| && !visited[k]
    ensures Unvisited(visited[k := true]) == Unvisited(visited) - 1
    decreases |visited|
  {
    var v := visited[k := true];
    if k < |visited| - 1 {
      assert v[..|v| - 1] == visited[..|visited| - 1][k := true];
      VisitOne(visited[..|visited| - 1], k);
    } else {
      assert v[..|v| - 1] == visited[..|visited| - 1];
    }
  }

  /** Between two states, labels change only to `clusterId`, and never away
      from a cluster id; visited flags are never cleared. */
  predicate Grows(v0: seq<bool>, l0: seq<int>, v: seq<bool>, l: seq<int>, clusterId: nat) {
    |v0| == |l0| == |v| == |l| &&
    (forall k :: 0 <= k < |l| ==> l[k] == l0[k] || l[k] == clusterId) &&
    (forall k :: 0 <= k < |l| && l0[k] >= 0 ==> l[k] == l0[k]) &&
    (forall k :: 0 <= k < |v| && v0[k] ==> v[k])
  }

  /** Every point within `eps` of a core point `k` that the expansion
      visited is on the work-list. */
  predicate ListCovers(points: seq<ColorPoint>, v0: seq<bool>, v: seq<bool>, list: seq<nat>,
                       eps: real, minPoints: int, dist: (Rgb, Rgb) -> real)
    requires |v0| == |v| == |points|
  {
    forall k, j :: 0 <= k < |points| && 0 <= j < |points| && v[k] && !v0[k] &&
      Core(points, points[k].rgb, eps, minPoints, dist) && dist(points[k].rgb, points[j].rgb) <= eps
      ==> j in list
  }

  /** The state of the `expandCluster` loop after `i` work-list entries. */
  predicate ExpandInv(points: seq<ColorPoint>, v0: seq<bool>, l0: seq<int>, seed: nat, clusterId: nat,
                      eps: real, minPoints: int, dist: (Rgb, Rgb) -> real,
                      v: seq<bool>, l: seq<int>, list: seq<nat>, i: nat)
  {
    |points| == |v0| && Grows(v0, l0, v, l, clusterId) && Consistent(v, l) &&
    seed < |points| && l[seed] == clusterId &&
    i <= |list| && (forall p :: 0 <= p < |list| ==> list[p] < |points|) &&
    (forall p :: 0 <= p < i ==> l[list[p]] >= 0) &&
    (forall j :: 0 <= j < |points| && dist(points[seed].rgb, points[j].rgb) <= eps ==> j in list) &&
    ListCovers(points, v0, v, list, eps, minPoints, dist)
  }

  /** One turn of the `expandCluster` loop keeps its state. */
  lemma ExpandStep(points: seq<ColorPoint>, v0: seq<bool>, l0: seq<int>, seed: nat, clusterId: nat,
                   eps: real, minPoints: int, dist: (Rgb, Rgb) -> real,
                   v: seq<bool>, l: seq<int>, list: seq<nat>, i: nat,
                   v': seq<bool>, l': seq<int>, list': seq<nat>)
    requires ExpandInv(points, v0, l0, seed, clusterId, eps, minPoints, dist, v, l, list, i) && i < |list|
    requires v' == v[list[i] := true]
    requires l' == if l[list[i]] == Unclassified || l[list[i]] == Noise then l[list[i] := clusterId] else l
    requires var grown := Neighbors(points, points[list[i]].rgb, |points|, eps, dist);
      list' == if !v[list[i]] && |grown| >= minPoints then list + grown else list
    ensures ExpandInv(points, v0, l0, seed, clusterId, eps, minPoints, dist, v', l', list', i + 1)
  {
    var n := list[i];
    var grown := Neighbors(points, points[n].rgb, |points|, eps, dist);
    StepLabels(v0, l0, clusterId, v, l, n);
    StepList(points, list, list', grown, n, eps, dist);
    StepDone(l, l', list, list', i, clusterId);
    StepCovers(points, v0, v, list, list', n, grown, eps, minPoints, dist);
  }

  lemma StepLabels(v0: seq<bool>, l0: seq<int>, clusterId: nat, v: seq<bool>, l: seq<int>, n: nat)
    requires Grows(v0, l0, v, l, clusterId) && Consistent(v, l) && n < |v|
    ensures var l' := if l[n] == Unclassified || l[n] == Noise then l[n := clusterId] else l;
      Grows(v0, l0, v[n := true], l', clusterId) && Consistent(v[n := true], l') &&
      l'[n] >= 0 && forall k :: 0 <= k < |l| && l[k] >= 0 ==> l'[k] == l[k]
  {
  }

  lemma StepList(points: seq<ColorPoint>, list: seq<nat>, list': seq<nat>, grown: seq<nat>, n: nat,
                 eps: real, dist: (Rgb, Rgb) -> real)
    requires n < |points| && (forall p :: 0 <= p < |list| ==> list[p] < |points|)
    requires grown == Neighbors(points, points[n].rgb, |points|, eps, dist)
    requires list' == list || list' == list + grown
    ensures |list| <= |list'| && forall p :: 0 <= p < |list| ==> list'[p] == list[p]
    ensures forall p :: 0 <= p < |list'| ==> list'[p] < |points|
    ensures forall x :: x in list ==> x in list'
  {
  }

  lemma StepDone(l: seq<int>, l': seq<int>, list: seq<nat>, list': seq<nat>, i: nat, clusterId: nat)
    requires i < |list| <= |list'| && |l| == |l'| && (forall p :: 0 <= p < |list'| ==> list'[p] < |l|)
    requires forall p :: 0 <= p < |list| ==> list'[p] == list[p]
    requires forall p :: 0 <= p < i ==> l[list[p]] >= 0
    requires l'[list[i]] >= 0 && forall k :: 0 <= k < |l| && l[k] >= 0 ==> l'[k] == l[k]
    ensures forall p :: 0 <= p < i + 1 ==> l'[list'[p]] >= 0
  {
  }

  lemma StepCovers(points: seq<ColorPoint>, v0: seq<bool>, v: seq<bool>, list: seq<nat>, list': seq<nat>,
                   n: nat, grown: seq<nat>, eps: real, minPoints: int, dist: (Rgb, Rgb) -> real)
    requires |v0| == |v| == |points| && n < |points|
    requires ListCovers(points, v0, v, list, eps, minPoints, dist)
    requires grown == Neighbors(points, points[n].rgb, |points|, eps, dist)
    requires list' == if !v[n] && |grown| >= minPoints then list + grown else list
    ensures ListCovers(points, v0, v[n := true], list', eps, minPoints, dist)
  {
    NeighborsExactly(points, points[n].rgb, |points|, eps, dist);
    var v' := v[n := true];
    forall k, j | 0 <= k < |points| && 0 <= j < |points| && v'[k] && !v0[k] &&
        Core(points, points[k].rgb, eps, minPoints, dist) && dist(points[k].rgb, points[j].rgb) <= eps
      ensures j in list'
    {
      if k != n || v[n] {
        assert v[k];
        assert j in list;
      } else {
        assert j in grown;
      }
    }
  }

  /** Some core point labelled `c` lies within `eps` of point `m`. */
  predicate Reaches(points: seq<ColorPoint>, l: seq<int>, c: int, m: nat,
                    eps: real, minPoints: int, dist: (Rgb, Rgb) -> real)
    requires |l| == |points| && m < |points|
  {
    exists k :: 0 <= k < |points| && l[k] == c && Core(points, points[k].rgb, eps, minPoints, dist) &&
      dist(points[k].rgb, points[m].rgb) <= eps
  }

  /** Every point whose label changed between `l0` and `l` is core, or lies
      within `eps` of a core point labelled `c`. */
  predicate Anchors(points: seq<ColorPoint>, l0: seq<int>, l: seq<int>, c: int,
                    eps: real, minPoints: int, dist: (Rgb, Rgb) -> real)
    requires |l0| == |l| == |points|
  {
    forall m :: 0 <= m < |points| && l[m] != l0[m] ==>
      Core(points, points[m].rgb, eps, minPoints, dist) || Reaches(points, l, c, m, eps, minPoints, dist)
  }

  /** Every entry of the work-list lies within `eps` of a core point of the
      cluster being expanded. */
  predicate ListAnchored(points: seq<ColorPoint>, l: seq<int>, list: seq<nat>, c: int,
                         eps: real, minPoints: int, dist: (Rgb, Rgb) -> real)
    requires |l| == |points| && forall p :: 0 <= p < |list| ==> list[p] < |points|
  {
    forall p :: 0 <= p < |list| ==> Reaches(points, l, c, list[p], eps, minPoints, dist)
  }

  /** A core seed anchors its own neighbourhood. */
  lemma AnchorStart(points: seq<ColorPoint>, l0: seq<int>, l: seq<int>, seed: nat, clusterId: nat,
                    eps: real, minPoints: int, dist: (Rgb, Rgb) -> real, list: seq<nat>)
    requires |l0| == |points| && seed < |points| && l == l0[seed := clusterId]
    requires Core(points, points[seed].rgb, eps, minPoints, dist)
    requires list == Neighbors(points, points[seed].rgb, |points|, eps, dist)
    ensures forall p :: 0 <= p < |list| ==> list[p] < |points|
    ensures ListAnchored(points, l, list, clusterId, eps, minPoints, dist)
    ensures Anchors(points, l0, l, clusterId, eps, minPoints, dist)
  {
    NeighborsExactly(points, points[seed].rgb, |points|, eps, dist);
    forall p | 0 <= p < |list| ensures Reaches(points, l, clusterId, list[p], eps, minPoints, dist) {
      assert list[p] in list;
    }
  }

  /** One turn of the `expandCluster` loop keeps the work-list and the
      relabelled points anchored: a label at or above 0 never changes, so an
      anchor stays one, and a newly visited core point anchors the
      neighbourhood it appends. */
  lemma AnchorStep(points: seq<ColorPoint>, v0: seq<bool>, l0: seq<int>, seed: nat, clusterId: nat,
                   eps: real, minPoints: int, dist: (Rgb, Rgb) -> real,
                   v: seq<bool>, l: seq<int>, list: seq<nat>, i: nat,
                   v': seq<bool>, l': seq<int>, list': seq<nat>)
    requires ExpandInv(points, v0, l0, seed, clusterId, eps, minPoints, dist, v, l, list, i) && i < |list|
    requires ExpandInv(points, v0, l0, seed, clusterId, eps, minPoints, dist, v', l', list', i + 1)
    requires ListAnchored(points, l, list, clusterId, eps, minPoints, dist)
    requires Anchors(points, l0, l, clusterId, eps, minPoints, dist)
    requires l' == if l[list[i]] == Unclassified || l[list[i]] == Noise then l[list[i] := clusterId] else l
    requires var grown := Neighbors(points, points[list[i]].rgb, |points|, eps, dist);
      list' == if !v[list[i]] && |grown| >= minPoints then list + grown else list
    ensures ListAnchored(points, l', list', clusterId, eps, minPoints, dist)
    ensures Anchors(points, l0, l', clusterId, eps, minPoints, dist)
  {
    var n := list[i];
    var grown := Neighbors(points, points[n].rgb, |points|, eps, dist);
    forall m | 0 <= m < |points| && Reaches(points, l, clusterId, m, eps, minPoints, dist)
      ensures Reaches(points, l', clusterId, m, eps, minPoints, dist)
    {
      var k :| 0 <= k < |points| && l[k] == clusterId && Core(points, points[k].rgb, eps, minPoints, dist) &&
        dist(points[k].rgb, points[m].rgb) <= eps;
      assert l'[k] == clusterId;
    }
    forall p | 0 <= p < |list'| ensures Reaches(points, l', clusterId, list'[p], eps, minPoints, dist) {
      if p < |list| {
        assert list'[p] == list[p];
        assert Reaches(points, l, clusterId, list[p], eps, minPoints, dist);
      } else {
        NeighborsExactly(points, points[n].rgb, |points|, eps, dist);
        assert list'[p] == grown[p - |list|] && list'[p] in grown;
        assert l'[n] == clusterId;
      }
    }
    forall m | 0 <= m < |points| && l'[m] != l0[m]
      ensures Core(points, points[m].rgb, eps, minPoints, dist) || Reaches(points, l', clusterId, m, eps, minPoints, dist)
    {
      if l[m] == l0[m] {
        assert m == n && Reaches(points, l, clusterId, list[i], eps, minPoints, dist);
      }
    }
  }

  /** `expandCluster`: the seed (visited, core, its neighbourhood in
      `neighbors`) and every point density-reachable from it get the cluster
      id, except points already in another cluster; the work-list grows by the
      neighbourhood of each newly visited core point. */
  method ExpandCluster(points: seq<ColorPoint>, visited: array<bool>, clusterIds: array<int>, pointIndex: nat,
                       neighbors: seq<nat>, clusterId: nat, eps: real, minPoints: int, dist: (Rgb, Rgb) -> real)
    requires visited.Length == |points| && clusterIds.Length == |points|
    requires ConsistentBut(visited[..], clusterIds[..], pointIndex)
    requires neighbors == Neighbors(points, points[pointIndex].rgb, |points|, eps, dist)
    modifies visited, clusterIds
    ensures Consistent(visited[..], clusterIds[..])
    ensures clusterIds[pointIndex] == clusterId
    ensures Grows(old(visited[..]), old(clusterIds[..]), visited[..], clusterIds[..], clusterId)
    ensures forall j :: 0 <= j < |points| && dist(points[pointIndex].rgb, points[j].rgb) <= eps ==> clusterIds[j] >= 0
    ensures ListCoversAll(points, old(visited[..]), visited[..], clusterIds[..], eps, minPoints, dist)
    ensures Core(points, points[pointIndex].rgb, eps, minPoints, dist) ==>
      Anchors(points, old(clusterIds[..]), clusterIds[..], clusterId, eps, minPoints, dist)
  {
    ghost var v0 := visited[..];
    ghost var l0 := clusterIds[..];
    ghost var core := Core(points, points[pointIndex].rgb, eps, minPoints, dist);
    clusterIds[pointIndex] := clusterId;
    var neighborsList: seq<nat> := neighbors;
    var i := 0;
    NeighborsExactly(points, points[pointIndex].rgb, |points|, eps, dist);
    assert ExpandInv(points, v0, l0, pointIndex, clusterId, eps, minPoints, dist,
                     visited[..], clusterIds[..], neighborsList, i);
    if core {
      AnchorStart(points, l0, clusterIds[..], pointIndex, clusterId, eps, minPoints, dist, neighborsList);
    }
    while i < |neighborsList|
      invariant ExpandInv(points, v0, l0, pointIndex, clusterId, eps, minPoints, dist,
                          visited[..], clusterIds[..], neighborsList, i)
      invariant core ==> ListAnchored(points, clusterIds[..], neighborsList, clusterId, eps, minPoints, dist)
      invariant core ==> Anchors(points, l0, clusterIds[..], clusterId, eps, minPoints, dist)
      decreases Unvisited(visited[..]), |neighborsList| - i
    {
      ghost var v, l, list := visited[..], clusterIds[..], neighborsList;
      var neighborIndex := neighborsList[i];
      if !visited[neighborIndex] {
        VisitOne(v, neighborIndex);
        visited[neighborIndex] := true;
        var newNeighbors := RegionQuery(points, neighborIndex, eps, dist);
        if |newNeighbors| >= minPoints {
          neighborsList := neighborsList + newNeighbors;
        }
      } else {
        assert v[neighborIndex := true] == v;
      }
      assert visited[..] == v[neighborIndex := true];
      if clusterIds[neighborIndex] == Unclassified || clusterIds[neighborIndex] == Noise {
        clusterIds[neighborIndex] := clusterId;
      }
      assert clusterIds[..] == if l[neighborIndex] == Unclassified || l[neighborIndex] == Noise
                               then l[neighborIndex := clusterId] else l;
      ExpandStep(points, v0, l0, pointIndex, clusterId, eps, minPoints, dist, v, l, list, i,
                 visited[..], clusterIds[..], neighborsList);
      if core {
        AnchorStep(points, v0, l0, pointIndex, clusterId, eps, minPoints, dist, v, l, list, i,
                   visited[..], clusterIds[..], neighborsList);
      }
      i := i + 1;
    }
    ExpandDone(points, v0, l0, pointIndex, clusterId, eps, minPoints, dist,
               visited[..], clusterIds[..], neighborsList, i);
  }

  /** Every point within `eps` of a core point the expansion visited has a
      cluster id. */
  predicate ListCoversAll(points: seq<ColorPoint>, v0: seq<bool>, v: seq<bool>, l: seq<int>,
                          eps: real, minPoints: int, dist: (Rgb, Rgb) -> real)
    requires |v0| == |v| == |l| == |points|
  {
    forall k, j :: 0 <= k < |points| && 0 <= j < |points| && v[k] && !v0[k] &&
      Core(points, points[k].rgb, eps, minPoints, dist) && dist(points[k].rgb, points[j].rgb) <= eps
      ==> l[j] >= 0
  }

  /** With the work-list exhausted, everything on it has a cluster id. */
  lemma ExpandDone(points: seq<ColorPoint>, v0: seq<bool>, l0: seq<int>, seed: nat, clusterId: nat,
                   eps: real, minPoints: int, dist: (Rgb, Rgb) -> real,
                   v: seq<bool>, l: seq<int>, list: seq<nat>, i: nat)
    requires ExpandInv(points, v0, l0, seed, clusterId, eps, minPoints, dist, v, l, list, i) && i == |list|
    ensures forall j :: 0 <= j < |points| && dist(points[seed].rgb, points[j].rgb) <= eps ==> l[j] >= 0
    ensures ListCoversAll(points, v0, v, l, eps, minPoints, dist)
  {
    forall j | j in list ensures 0 <= j < |l| && l[j] >= 0 {
      var p :| 0 <= p < |list| && list[p] == j;
    }
  }

  // ------------------------------------------------------------------
  // performDBSCAN

  /** The state of the `performDBSCAN` scan after the first `i` points, with
      `count` clusters opened: the first `i` points are visited, every
      labelled point is noise or in one of the opened clusters, noise points
      are not core, and everything within `eps` of a visited core point is in
      a cluster. */
  predicate ScanInv(points: seq<ColorPoint>, v: seq<bool>, l: seq<int>, i: nat, count: nat,
                    eps: real, minPoints: int, dist: (Rgb, Rgb) -> real)
  {
    |v| == |points| && Consistent(v, l) && i <= |points| &&
    (forall k :: 0 <= k < i ==> v[k]) &&
    (forall k :: 0 <= k < |l| ==> l[k] == Unclassified || l[k] == Noise || 0 <= l[k] < count) &&
    (forall k :: 0 <= k < |l| && l[k] == Noise ==> !Core(points, points[k].rgb, eps, minPoints, dist)) &&
    (forall k, j :: 0 <= k < |points| && 0 <= j < |points| && v[k] &&
       Core(points, points[k].rgb, eps, minPoints, dist) && dist(points[k].rgb, points[j].rgb) <= eps
       ==> l[j] >= 0)
  }

  /** Nothing is visited or labelled before the scan. */
  lemma ScanStart(points: seq<ColorPoint>, v: seq<bool>, l: seq<int>, eps: real, minPoints: int,
                  dist: (Rgb, Rgb) -> real)
    requires |v| == |l| == |points|
    requires forall k :: 0 <= k < |points| ==> !v[k] && l[k] == Unclassified
    ensures ScanInv(points, v, l, 0, 0, eps, minPoints, dist)
  {
  }

  /** A point visited by an earlier expansion is passed over. */
  lemma ScanSkip(points: seq<ColorPoint>, v: seq<bool>, l: seq<int>, i: nat, count: nat,
                 eps: real, minPoints: int, dist: (Rgb, Rgb) -> real)
    requires ScanInv(points, v, l, i, count, eps, minPoints, dist) && i < |points| && v[i]
    ensures ScanInv(points, v, l, i + 1, count, eps, minPoints, dist)
  {
  }

  lemma ScanNoise(points: seq<ColorPoint>, v: seq<bool>, l: seq<int>, i: nat, count: nat,
                  eps: real, minPoints: int, dist: (Rgb, Rgb) -> real, v': seq<bool>, l': seq<int>)
    requires ScanInv(points, v, l, i, count, eps, minPoints, dist) && i < |points| && !v[i]
    requires !Core(points, points[i].rgb, eps, minPoints, dist)
    requires v' == v[i := true] && l' == l[i := Noise]
    ensures ScanInv(points, v', l', i + 1, count, eps, minPoints, dist)
  {
    forall k, j | 0 <= k < |points| && 0 <= j < |points| && v'[k] &&
        Core(points, points[k].rgb, eps, minPoints, dist) && dist(points[k].rgb, points[j].rgb) <= eps
      ensures l'[j] >= 0
    {
      assert k != i && v[k];
      assert l[j] >= 0;
    }
  }

  /** Opening a cluster at the unvisited core point `i` and expanding it. */
  lemma ScanCluster(points: seq<ColorPoint>, v: seq<bool>, l: seq<int>, i: nat, count: nat,
                    eps: real, minPoints: int, dist: (Rgb, Rgb) -> real, v': seq<bool>, l': seq<int>)
    requires ScanInv(points, v, l, i, count, eps, minPoints, dist) && i < |points| && !v[i]
    requires |v'| == |l'| == |points|
    requires Consistent(v', l') && Grows(v[i := true], l, v', l', count)
    requires forall j :: 0 <= j < |points| && dist(points[i].rgb, points[j].rgb) <= eps ==> l'[j] >= 0
    requires ListCoversAll(points, v[i := true], v', l', eps, minPoints, dist)
    ensures ScanInv(points, v', l', i + 1, count + 1, eps, minPoints, dist)
  {
    var vm := v[i := true];
    forall k | 0 <= k < |l'| && l'[k] == Noise ensures !Core(points, points[k].rgb, eps, minPoints, dist) {
      assert l[k] == Noise;
    }
    forall k | 0 <= k < i + 1 ensures v'[k] {
      assert vm[k];
    }
    forall k, j | 0 <= k < |points| && 0 <= j < |points| && v'[k] &&
        Core(points, points[k].rgb, eps, minPoints, dist) && dist(points[k].rgb, points[j].rgb) <= eps
      ensures l'[j] >= 0
    {
      if k != i && v[k] {
        assert l[j] >= 0;
      } else if k != i {
        assert !vm[k];
      }
    }
  }

  /** The clusters a scan has built so far: two visited core points each
      within `eps` of the other carry the same label, and every point with a
      cluster id is core or within `eps` of a core point with that id. */
  predicate ScanShape(points: seq<ColorPoint>, v: seq<bool>, l: seq<int>,
                      eps: real, minPoints: int, dist: (Rgb, Rgb) -> real)
    requires |v| == |l| == |points|
  {
    (forall k, j :: 0 <= k < |points| && 0 <= j < |points| && v[k] && v[j] &&
       Core(points, points[k].rgb, eps, minPoints, dist) && Core(points, points[j].rgb, eps, minPoints, dist) &&
       dist(points[k].rgb, points[j].rgb) <= eps && dist(points[j].rgb, points[k].rgb) <= eps
       ==> l[k] == l[j]) &&
    (forall m :: 0 <= m < |points| && l[m] >= 0 ==>
       Core(points, points[m].rgb, eps, minPoints, dist) || Reaches(points, l, l[m], m, eps, minPoints, dist))
  }

  /** Labelling an unvisited non-core point as noise keeps the shape. */
  lemma ShapeNoise(points: seq<ColorPoint>, v: seq<bool>, l: seq<int>, i: nat, count: nat,
                   eps: real, minPoints: int, dist: (Rgb, Rgb) -> real, v': seq<bool>, l': seq<int>)
    requires ScanInv(points, v, l, i, count, eps, minPoints, dist) && ScanShape(points, v, l, eps, minPoints, dist)
    requires i < |points| && !v[i] && !Core(points, points[i].rgb, eps, minPoints, dist)
    requires v' == v[i := true] && l' == l[i := Noise]
    ensures ScanShape(points, v', l', eps, minPoints, dist)
  {
    forall m | 0 <= m < |points| && l'[m] >= 0 && !Core(points, points[m].rgb, eps, minPoints, dist)
      ensures Reaches(points, l', l'[m], m, eps, minPoints, dist)
    {
      var k :| 0 <= k < |points| && l[k] == l[m] && Core(points, points[k].rgb, eps, minPoints, dist) &&
        dist(points[k].rgb, points[m].rgb) <= eps;
      assert k != i && l'[k] == l'[m];
    }
  }

  /** Opening and expanding a cluster at the core point `i` keeps the shape:
      the points it visits all get the new id, and a point within `eps` of
      a core point visited before was already visited then, so no core pair
      is split between the new cluster and an older one. */
  lemma ShapeCluster(points: seq<ColorPoint>, v: seq<bool>, l: seq<int>, i: nat, count: nat,
                     eps: real, minPoints: int, dist: (Rgb, Rgb) -> real, v': seq<bool>, l': seq<int>)
    requires ScanInv(points, v, l, i, count, eps, minPoints, dist) && ScanShape(points, v, l, eps, minPoints, dist)
    requires i < |points| && !v[i]
    requires |v'| == |l'| == |points|
    requires Consistent(v', l') && Grows(v[i := true], l, v', l', count)
    requires Anchors(points, l, l', count, eps, minPoints, dist)
    ensures ScanShape(points, v', l', eps, minPoints, dist)
  {
    forall k | 0 <= k < |points| && v'[k] && !v[k] ensures l'[k] == count {
      assert l[k] == Unclassified;
    }
    forall k | 0 <= k < |points| && v[k] && Core(points, points[k].rgb, eps, minPoints, dist)
      ensures l'[k] == l[k] && l[k] >= 0
    {
    }
    forall k, j | 0 <= k < |points| && 0 <= j < |points| && v'[k] && v'[j] &&
        Core(points, points[k].rgb, eps, minPoints, dist) && Core(points, points[j].rgb, eps, minPoints, dist) &&
        dist(points[k].rgb, points[j].rgb) <= eps && dist(points[j].rgb, points[k].rgb) <= eps
      ensures l'[k] == l'[j]
    {
    }
    forall m | 0 <= m < |points| && l'[m] >= 0 && !Core(points, points[m].rgb, eps, minPoints, dist)
      ensures Reaches(points, l', l'[m], m, eps, minPoints, dist)
    {
      if l'[m] != l[m] {
        assert l'[m] == count;
      } else {
        var k :| 0 <= k < |points| && l[k] == l[m] && Core(points, points[k].rgb, eps, minPoints, dist) &&
          dist(points[k].rgb, points[m].rgb) <= eps;
        assert l'[k] == l'[m];
      }
    }
  }

  /** The points labelled `id`, in order (`filter { $0.clusterId == id }`). */
  function Having(points: seq<ColorPoint>, ids: seq<int>, id: int): (r: seq<ColorPoint>)
    requires |ids| == |points|
    ensures |r| <= |points|
  {
    if points == [] then []
    else
      var n := |points| - 1;
      Having(points[..n], ids[..n], id) + (if ids[n] == id then [points[n]] else [])
  }

  /** Every point of `Having(points, ids, id)` is a point labelled `id`. */
  lemma {:induction false} HavingFrom(points: seq<ColorPoint>, ids: seq<int>, id: int)
    requires |ids| == |points|
    ensures forall x :: x in Having(points, ids, id) ==>
      exists j :: 0 <= j < |points| && ids[j] == id && points[j] == x
    decreases |points|
  {
    if points != [] {
      var n := |points| - 1;
      HavingFrom(points[..n], ids[..n], id);
      forall x | x in Having(points, ids, id)
        ensures exists j :: 0 <= j < |points| && ids[j] == id && points[j] == x
      {
        if x in Having(points[..n], ids[..n], id) {
          var j :| 0 <= j < n && ids[..n][j] == id && points[..n][j] == x;
          assert ids[j] == id && points[j] == x;
        } else {
          assert ids[n] == id && points[n] == x;
        }
      }
    }
  }

  /** A point labelled `id` is one of `Having(points, ids, id)`. */
  lemma {:induction false} HavingHas(points: seq<ColorPoint>, ids: seq<int>, id: int, k: nat)
    requires |ids| == |points| && k < |points| && ids[k] == id
    ensures points[k] in Having(points, ids, id)
    decreases |points|
  {
    var n := |points| - 1;
    if k < n {
      HavingHas(points[..n], ids[..n], id, k);
    }
  }

  /** The non-empty clusters with ids below `n`, ascending by id, each
      holding exactly the points with its id. */
  function ClustersOf(points: seq<ColorPoint>, ids: seq<int>, n: nat): (r: seq<Cluster>)
    requires |ids| == |points|
    ensures forall c :: 0 <= c < |r| ==> r[c].points != [] && r[c].id < n
    ensures forall c :: 0 <= c < |r| ==> r[c].points == Having(points, ids, r[c].id)
    ensures forall a, b :: 0 <= a < b < |r| ==> r[a].id < r[b].id
  {
    if n == 0 then []
    else
      var r := ClustersOf(points, ids, n - 1);
      var h := Having(points, ids, n - 1);
      if h != [] then r + [Cluster(n - 1, h)] else r
  }

  /** The "group points into clusters" loop and the noise filter. */
  method GroupClusters(points: seq<ColorPoint>, ids: seq<int>, count: nat)
    returns (clusters: seq<Cluster>, noisePoints: seq<ColorPoint>)
    requires |ids| == |points|
    ensures clusters == ClustersOf(points, ids, count)
    ensures multiset(Members(clusters)) == multiset(InClusters(points, ids, count))
    ensures noisePoints == Having(points, ids, Noise)
  {
    clusters := [];
    InClustersNone(points, ids);
    for clusterId := 0 to count
      invariant clusters == ClustersOf(points, ids, clusterId)
      invariant multiset(Members(clusters)) == multiset(InClusters(points, ids, clusterId))
    {
      var clusterPoints := Having(points, ids, clusterId);
      InClustersStep(points, ids, clusterId + 1);
      if clusterPoints != [] {
        MembersSnoc(clusters, Cluster(clusterId, clusterPoints));
        clusters := clusters + [Cluster(clusterId, clusterPoints)];
      }
    }
    noisePoints := Having(points, ids, Noise);
  }

  /** All cluster members, cluster after cluster. */
  function Members(cs: seq<Cluster>): seq<ColorPoint> {
    if cs == [] then [] else Members(cs[..|cs| - 1]) + cs[|cs| - 1].points
  }

  /** The points labelled with a cluster id below `n`, in order. */
  function InClusters(points: seq<ColorPoint>, ids: seq<int>, n: nat): seq<ColorPoint>
    requires |ids| == |points|
  {
    if points == [] then []
    else
      var m := |points| - 1;
      InClusters(points[..m], ids[..m], n) + (if 0 <= ids[m] < n then [points[m]] else [])
  }

  /** Raising the bound by one adds the points of cluster `n - 1`. */
  lemma {:induction false} InClustersStep(points: seq<ColorPoint>, ids: seq<int>, n: nat)
    requires |ids| == |points| && n > 0
    ensures multiset(InClusters(points, ids, n)) ==
      multiset(InClusters(points, ids, n - 1)) + multiset(Having(points, ids, n - 1))
    decreases |points|
  {
    if points != [] {
      var m := |points| - 1;
      var p0, i0 := points[..m], ids[..m];
      InClustersStep(p0, i0, n);
      var x, y := points[m], ids[m];
      var e: seq<ColorPoint> := if 0 <= y < n then [x] else [];
      var e1: seq<ColorPoint> := if 0 <= y < n - 1 then [x] else [];
      var h: seq<ColorPoint> := if y == n - 1 then [x] else [];
      var a, b := InClusters(p0, i0, n - 1), Having(p0, i0, n - 1);
      MultisetAppend(InClusters(p0, i0, n), e, multiset(a) + multiset(b));
      MultisetAppend(a, e1, multiset(a));
      MultisetAppend(b, h, multiset(b));
      UnionShuffle(multiset(a), multiset(e1), multiset(b), multiset(h));
      assert multiset(e) == multiset(e1) + multiset(h);
    }
  }

  lemma {:induction false} InClustersNone(points: seq<ColorPoint>, ids: seq<int>)
    requires |ids| == |points|
    ensures InClusters(points, ids, 0) == []
    decreases |points|
  {
    if points != [] {
      InClustersNone(points[..|points| - 1], ids[..|ids| - 1]);
    }
  }

  lemma MembersSnoc(cs: seq<Cluster>, c: Cluster)
    ensures Members(cs + [c]) == Members(cs) + c.points
  {
    assert (cs + [c])[..|cs|] == cs;
  }

  lemma SplitLast<T>(s: seq<T>)
    requires s != []
    ensures s == s[..|s| - 1] + [s[|s| - 1]]
  {
  }

  lemma MultisetAppend(a: seq<ColorPoint>, h: seq<ColorPoint>, m: multiset<ColorPoint>)
    requires multiset(a) == m
    ensures multiset(a + h) == m + multiset(h)
  {
  }

  lemma UnionShuffle(a: multiset<ColorPoint>, b: multiset<ColorPoint>, c: multiset<ColorPoint>, d: multiset<ColorPoint>)
    ensures (a + b) + (c + d) == (a + c) + (b + d)
  {
  }

  /** When every label is noise or an id below `n`, the noise and the points
      in clusters together are all the points. */
  lemma {:induction false} LabelsPartition(points: seq<ColorPoint>, ids: seq<int>, n: nat)
    requires |ids| == |points|
    requires forall k :: 0 <= k < |ids| ==> ids[k] == Noise || 0 <= ids[k] < n
    ensures multiset(Having(points, ids, Noise)) + multiset(InClusters(points, ids, n)) == multiset(points)
    decreases |points|
  {
    if points != [] {
      var m := |points| - 1;
      var p0, i0 := points[..m], ids[..m];
      var x, y := points[m], ids[m];
      LabelsPartition(p0, i0, n);
      var h, c := Having(p0, i0, Noise), InClusters(p0, i0, n);
      var eh: seq<ColorPoint> := if y == Noise then [x] else [];
      var ec: seq<ColorPoint> := if 0 <= y < n then [x] else [];
      MultisetAppend(h, eh, multiset(h));
      MultisetAppend(c, ec, multiset(c));
      SplitLast(points);
      MultisetAppend(p0, [x], multiset(p0));
      UnionShuffle(multiset(h), multiset(eh), multiset(c), multiset(ec));
      assert multiset(eh) + multiset(ec) == multiset([x]);
    }
  }

  /** A cluster member that is not core lies within `eps` of a core member
      of the same cluster (a border point of that cluster). */
  predicate BordersAnchored(points: seq<ColorPoint>, clusters: seq<Cluster>,
                            eps: real, minPoints: int, dist: (Rgb, Rgb) -> real)
  {
    forall c, x :: 0 <= c < |clusters| && x in clusters[c].points && !Core(points, x.rgb, eps, minPoints, dist) ==>
      (exists y :: y in clusters[c].points && Core(points, y.rgb, eps, minPoints, dist) && dist(y.rgb, x.rgb) <= eps)
  }

  /** Two core points, each within `eps` of the other, are never in two
      different clusters. */
  predicate CoresJoined(points: seq<ColorPoint>, clusters: seq<Cluster>,
                        eps: real, minPoints: int, dist: (Rgb, Rgb) -> real)
  {
    forall c, d, x, y ::
      (0 <= c < |clusters| && 0 <= d < |clusters| && x in clusters[c].points && y in clusters[d].points &&
       Core(points, x.rgb, eps, minPoints, dist) && Core(points, y.rgb, eps, minPoints, dist) &&
       dist(x.rgb, y.rgb) <= eps && dist(y.rgb, x.rgb) <= eps) ==> c == d
  }

  /** A finished scan of the right shape gives clusters whose border points
      are anchored in their own cluster. */
  lemma ShapeBorders(points: seq<ColorPoint>, ids: seq<int>, count: nat, eps: real, minPoints: int,
                     dist: (Rgb, Rgb) -> real, v: seq<bool>, clusters: seq<Cluster>)
    requires |v| == |ids| == |points| && ScanShape(points, v, ids, eps, minPoints, dist)
    requires clusters == ClustersOf(points, ids, count)
    ensures BordersAnchored(points, clusters, eps, minPoints, dist)
  {
    forall c, x | 0 <= c < |clusters| && x in clusters[c].points && !Core(points, x.rgb, eps, minPoints, dist)
      ensures exists y :: y in clusters[c].points && Core(points, y.rgb, eps, minPoints, dist) && dist(y.rgb, x.rgb) <= eps
    {
      var id := clusters[c].id;
      HavingFrom(points, ids, id);
      var j :| 0 <= j < |points| && ids[j] == id && points[j] == x;
      var k :| 0 <= k < |points| && ids[k] == ids[j] && Core(points, points[k].rgb, eps, minPoints, dist) &&
        dist(points[k].rgb, points[j].rgb) <= eps;
      HavingHas(points, ids, id, k);
      assert points[k] in clusters[c].points;
    }
  }

  /** After a full scan of the right shape, mutually close core points are
      in one cluster. */
  lemma ShapeCores(points: seq<ColorPoint>, ids: seq<int>, count: nat, eps: real, minPoints: int,
                   dist: (Rgb, Rgb) -> real, v: seq<bool>, clusters: seq<Cluster>)
    requires |v| == |ids| == |points| && (forall k :: 0 <= k < |points| ==> v[k])
    requires ScanShape(points, v, ids, eps, minPoints, dist)
    requires clusters == ClustersOf(points, ids, count)
    ensures CoresJoined(points, clusters, eps, minPoints, dist)
  {
    forall c, d, x, y |
      0 <= c < |clusters| && 0 <= d < |clusters| && x in clusters[c].points && y in clusters[d].points &&
      Core(points, x.rgb, eps, minPoints, dist) && Core(points, y.rgb, eps, minPoints, dist) &&
      dist(x.rgb, y.rgb) <= eps && dist(y.rgb, x.rgb) <= eps
      ensures c == d
    {
      CorePair(points, ids, eps, minPoints, dist, v, clusters[c], clusters[d], x, y);
      assert clusters[c].id == clusters[d].id;
    }
  }

  /** Two mutually close core points, one in each of two groups filtered from
      a finished scan of the right shape, were filtered for the same id. */
  lemma CorePair(points: seq<ColorPoint>, ids: seq<int>, eps: real, minPoints: int,
                 dist: (Rgb, Rgb) -> real, v: seq<bool>, a: Cluster, b: Cluster, x: ColorPoint, y: ColorPoint)
    requires |v| == |ids| == |points| && (forall k :: 0 <= k < |points| ==> v[k])
    requires ScanShape(points, v, ids, eps, minPoints, dist)
    requires a.points == Having(points, ids, a.id) && b.points == Having(points, ids, b.id)
    requires x in a.points && y in b.points
    requires Core(points, x.rgb, eps, minPoints, dist) && Core(points, y.rgb, eps, minPoints, dist)
    requires dist(x.rgb, y.rgb) <= eps && dist(y.rgb, x.rgb) <= eps
    ensures a.id == b.id
  {
    HavingFrom(points, ids, a.id);
    HavingFrom(points, ids, b.id);
    var j :| 0 <= j < |points| && ids[j] == a.id && points[j] == x;
    var k :| 0 <= k < |points| && ids[k] == b.id && points[k] == y;
    assert v[j] && v[k];
  }

  /** `performDBSCAN`: every point ends up in exactly one returned cluster or
      in the noise; clusters are non-empty and ordered by id; a noise point is
      not core and lies farther than `eps` from every core point; a cluster
      member that is not core lies within `eps` of a core member of the same
      cluster, and core points each within `eps` of the other share a
      cluster. */
  method PerformDBSCAN(points: seq<ColorPoint>, eps: real, minPoints: int, dist: (Rgb, Rgb) -> real)
    returns (clusters: seq<Cluster>, noisePoints: seq<ColorPoint>)
    ensures forall c :: 0 <= c < |clusters| ==> clusters[c].points != []
    ensures forall a, b :: 0 <= a < b < |clusters| ==> clusters[a].id < clusters[b].id
    ensures multiset(noisePoints) + multiset(Members(clusters)) == multiset(points)
    ensures forall x :: x in noisePoints ==> !Core(points, x.rgb, eps, minPoints, dist)
    ensures forall x, k ::
      x in noisePoints && 0 <= k < |points| && Core(points, points[k].rgb, eps, minPoints, dist) ==>
        dist(points[k].rgb, x.rgb) > eps
    ensures BordersAnchored(points, clusters, eps, minPoints, dist)
    ensures CoresJoined(points, clusters, eps, minPoints, dist)
  {
    var visited := new bool[|points|](_ => false);
    var clusterIds := new int[|points|](_ => Unclassified);
    var currentClusterId: nat := 0;
    ScanStart(points, visited[..], clusterIds[..], eps, minPoints, dist);
    for i := 0 to |points|
      invariant Scanned(points, visited[..], clusterIds[..], i, currentClusterId, eps, minPoints, dist)
    {
      currentClusterId := ScanPoint(points, visited, clusterIds, i, currentClusterId, eps, minPoints, dist);
    }
    ghost var ids := clusterIds[..];
    clusters, noisePoints := GroupClusters(points, clusterIds[..], currentClusterId);
    ScanResult(points, ids, currentClusterId, eps, minPoints, dist, visited[..]);
    ShapeBorders(points, ids, currentClusterId, eps, minPoints, dist, visited[..], clusters);
    ShapeCores(points, ids, currentClusterId, eps, minPoints, dist, visited[..], clusters);
  }

  /** The state of the scan after the first `i` points: its invariant and
      the shape of the clusters built so far. */
  predicate Scanned(points: seq<ColorPoint>, v: seq<bool>, l: seq<int>, i: nat, count: nat,
                    eps: real, minPoints: int, dist: (Rgb, Rgb) -> real)
  {
    ScanInv(points, v, l, i, count, eps, minPoints, dist) && |l| == |points| &&
    ScanShape(points, v, l, eps, minPoints, dist)
  }

  /** One turn of the `performDBSCAN` scan, at point `i`: a visited point is
      passed over; otherwise it is visited and labelled noise when fewer than
      `minPoints` points lie within `eps`, or opens cluster
      `currentClusterId`, which is expanded. A cluster is opened exactly at
      an unvisited core point. */
  method ScanPoint(points: seq<ColorPoint>, visited: array<bool>, clusterIds: array<int>, i: nat,
                   currentClusterId: nat, eps: real, minPoints: int, dist: (Rgb, Rgb) -> real)
    returns (nextClusterId: nat)
    requires visited.Length == |points| && clusterIds.Length == |points| && i < |points|
    requires Scanned(points, visited[..], clusterIds[..], i, currentClusterId, eps, minPoints, dist)
    modifies visited, clusterIds
    ensures Scanned(points, visited[..], clusterIds[..], i + 1, nextClusterId, eps, minPoints, dist)
    ensures nextClusterId == if !old(visited[i]) && Core(points, points[i].rgb, eps, minPoints, dist)
                             then currentClusterId + 1 else currentClusterId
  {
    if visited[i] {
      ScanSkip(points, visited[..], clusterIds[..], i, currentClusterId, eps, minPoints, dist);
      return currentClusterId;
    }
    ghost var v, l := visited[..], clusterIds[..];
    visited[i] := true;
    var neighbors := RegionQuery(points, i, eps, dist);
    if |neighbors| < minPoints {
      clusterIds[i] := Noise;
      ScanNoise(points, v, l, i, currentClusterId, eps, minPoints, dist, visited[..], clusterIds[..]);
      ShapeNoise(points, v, l, i, currentClusterId, eps, minPoints, dist, visited[..], clusterIds[..]);
      nextClusterId := currentClusterId;
    } else {
      ExpandCluster(points, visited, clusterIds, i, neighbors, currentClusterId, eps, minPoints, dist);
      ScanCluster(points, v, l, i, currentClusterId, eps, minPoints, dist, visited[..], clusterIds[..]);
      ShapeCluster(points, v, l, i, currentClusterId, eps, minPoints, dist, visited[..], clusterIds[..]);
      nextClusterId := currentClusterId + 1;
    }
  }

  /** What a finished scan gives the grouping. */
  lemma ScanResult(points: seq<ColorPoint>, ids: seq<int>, count: nat, eps: real, minPoints: int,
                   dist: (Rgb, Rgb) -> real, v: seq<bool>)
    requires ScanInv(points, v, ids, |points|, count, eps, minPoints, dist)
    ensures var noise := Having(points, ids, Noise);
      multiset(noise) + multiset(InClusters(points, ids, count)) == multiset(points) &&
      (forall x :: x in noise ==> !Core(points, x.rgb, eps, minPoints, dist)) &&
      (forall x, k :: x in noise && 0 <= k < |points| &&
         Core(points, points[k].rgb, eps, minPoints, dist)
         ==> dist(points[k].rgb, x.rgb) > eps)
  {
    assert forall k :: 0 <= k < |ids| ==> ids[k] == Noise || 0 <= ids[k] < count;
    LabelsPartition(points, ids, count);
    HavingFrom(points, ids, Noise);
    var noise := Having(points, ids, Noise);
    forall x, k | x in noise && 0 <= k < |points| && Core(points, points[k].rgb, eps, minPoints, dist)
      ensures dist(points[k].rgb, x.rgb) > eps
    {
      var j :| 0 <= j < |points| && ids[j] == Noise && points[j] == x;
      assert v[k];
    }
  }

  // ------------------------------------------------------------------
  // selectFinalColors

  function Importance(p: ColorPoint): real {
    p.importance
  }

  /** Index of `max(by: visualImportance <)`: a point of maximal importance,
      the last of them, since `max(by:)` replaces its result by every later
      element that is not smaller. */
  function BestIndex(points: seq<ColorPoint>): (i: nat)
    requires points != []
    ensures i < |points|
    ensures forall k :: 0 <= k < |points| ==> points[k].importance <= points[i].importance
    ensures forall k :: i < k < |points| ==> points[k].importance < points[i].importance
  {
    if |points| == 1 then 0
    else
      var init := points[..|points| - 1];
      var b := BestIndex(init);
      assert init[b] == points[b];
      assert forall k :: 0 <= k < |init| ==> init[k] == points[k];
      if points[b].importance <= points[|points| - 1].importance then |points| - 1 else b
  }

  /** Sort key of the clusters: the importance of their best point, 0 when empty. */
  function BestImportance(c: Cluster): real {
    if c.points == [] then 0.0 else c.points[BestIndex(c.points)].importance
  }

  /** `representativeColor`: the colour of the last point of greatest
      importance, black for none. */
  function Representative(c: Cluster): (r: Rgb)
    ensures c.points == [] ==> r == Rgb(0, 0, 0)
    ensures c.points != [] ==>
      exists k :: 0 <= k < |c.points| && c.points[k].rgb == r &&
        (forall j :: 0 <= j < |c.points| ==> c.points[j].importance <= c.points[k].importance) &&
        (forall j :: k < j < |c.points| ==> c.points[j].importance < c.points[k].importance)
  {
    if c.points == [] then Rgb(0, 0, 0) else c.points[BestIndex(c.points)].rgb
  }

  function Representatives(cs: seq<Cluster>): (r: seq<Rgb>)
    ensures |r| == |cs|
    ensures forall i :: 0 <= i < |cs| ==> r[i] == Representative(cs[i])
  {
    seq(|cs|, i requires 0 <= i < |cs| => Representative(cs[i]))
  }

  /** `max(1, Int(Double(targetColors) * 0.35))`, with the product taken exactly
      and `Int` truncating toward zero. */
  function OutlierTarget(targetColors: int): int {
    Max(1, DivT(targetColors * 35, 100))
  }

  /** The noise points taken first: the best `OutlierTarget` of them by importance. */
  function TopNoise(noisePoints: seq<ColorPoint>, targetColors: int): seq<Rgb> {
    PointRgbs(Prefix(SortDesc(noisePoints, Importance), OutlierTarget(targetColors)))
  }

  /** What `selectFinalColors` returns: the top noise colours, then one
      representative per cluster, best cluster first, until `targetColors`. */
  function FinalColors(clusters: seq<Cluster>, noisePoints: seq<ColorPoint>, targetColors: int): seq<Rgb> {
    var outliers := TopNoise(noisePoints, targetColors);
    if targetColors - |outliers| > 0 && clusters != [] then
      outliers + Prefix(Representatives(SortDesc(clusters, BestImportance)), targetColors - |outliers|)
    else outliers
  }

  method SelectFinalColors(clusters: seq<Cluster>, noisePoints: seq<ColorPoint>, targetColors: int)
    returns (selectedColors: seq<Rgb>)
    ensures selectedColors == FinalColors(clusters, noisePoints, targetColors)
  {
    var outlierTarget := OutlierTarget(targetColors);
    var sortedOutliers := Prefix(SortDesc(noisePoints, Importance), outlierTarget);
    selectedColors := AppendOutliers(sortedOutliers);
    FinalColorsOf(clusters, noisePoints, targetColors, sortedOutliers);
    var remainingTarget := targetColors - |selectedColors|;
    if remainingTarget > 0 && clusters != [] {
      var sortedClusters := SortDesc(clusters, BestImportance);
      selectedColors := AppendRepresentatives(selectedColors, sortedClusters, targetColors);
    }
  }

  lemma FinalColorsOf(clusters: seq<Cluster>, noisePoints: seq<ColorPoint>, targetColors: int,
                      sortedOutliers: seq<ColorPoint>)
    requires sortedOutliers == Prefix(SortDesc(noisePoints, Importance), OutlierTarget(targetColors))
    ensures var outliers := PointRgbs(sortedOutliers);
      FinalColors(clusters, noisePoints, targetColors) ==
        if targetColors - |outliers| > 0 && clusters != [] then
          outliers + Prefix(Representatives(SortDesc(clusters, BestImportance)), targetColors - |outliers|)
        else outliers
  {
  }

  /** The outlier loop of `selectFinalColors`. */
  method AppendOutliers(outliers: seq<ColorPoint>) returns (selectedColors: seq<Rgb>)
    ensures selectedColors == PointRgbs(outliers)
  {
    selectedColors := [];
    for k := 0 to |outliers|
      invariant selectedColors == PointRgbs(outliers[..k])
    {
      assert PointRgbs(outliers[..k + 1]) == PointRgbs(outliers[..k]) + [outliers[k].rgb];
      selectedColors := selectedColors + [outliers[k].rgb];
    }
    assert outliers[..|outliers|] == outliers;
  }

  /** The cluster loop of `selectFinalColors`: representatives, in order,
      until `targetColors` colours are selected. */
  method AppendRepresentatives(selected: seq<Rgb>, sortedClusters: seq<Cluster>, targetColors: int)
    returns (selectedColors: seq<Rgb>)
    requires |selected| < targetColors
    ensures selectedColors == selected + Prefix(Representatives(sortedClusters), targetColors - |selected|)
  {
    selectedColors := selected;
    ghost var reps := Representatives(sortedClusters);
    var index := 0;
    while index < |sortedClusters|
      invariant 0 <= index <= |sortedClusters|
      invariant |selected| + index <= targetColors
      invariant selectedColors == selected + reps[..index]
    {
      if |selectedColors| >= targetColors {
        break;
      }
      selectedColors := selectedColors + [Representative(sortedClusters[index])];
      assert reps[..index + 1] == reps[..index] + [reps[index]];
      index := index + 1;
    }
    assert reps[..index] == Prefix(reps, targetColors - |selected|);
  }

  /** For a positive target, at most `targetColors` colours; for any target,
      at most `max(targetColors, 1)`: one outlier is always asked for. */
  lemma FinalColorsBound(clusters: seq<Cluster>, noisePoints: seq<ColorPoint>, targetColors: int)
    ensures |FinalColors(clusters, noisePoints, targetColors)| <= Max(targetColors, 1)
    ensures targetColors >= 1 ==> |FinalColors(clusters, noisePoints, targetColors)| <= targetColors
  {
    if targetColors >= 1 {
      DivBetween(targetColors * 35, 100, 0, targetColors);
    } else {
      assert DivT(targetColors * 35, 100) <= 0;
    }
  }

  /** The number of noise colours the selection starts with. */
  function OutlierCount(noisePoints: seq<ColorPoint>, targetColors: int): nat {
    Min(|noisePoints|, OutlierTarget(targetColors))
  }

  /** The selection starts with the `min(|noise|, OutlierTarget)` most
      important noise colours: none of the noise left out is more important. */
  lemma FinalColorsOutliers(clusters: seq<Cluster>, noisePoints: seq<ColorPoint>, targetColors: int)
    ensures var r := FinalColors(clusters, noisePoints, targetColors);
      var n := OutlierCount(noisePoints, targetColors);
      var sorted := SortDesc(noisePoints, Importance);
      n <= |r| && r[..n] == PointRgbs(sorted[..n]) &&
      forall i, j :: 0 <= i < n <= j < |sorted| ==> sorted[i].importance >= sorted[j].importance
  {
    var n := OutlierCount(noisePoints, targetColors);
    var sorted := SortDesc(noisePoints, Importance);
    PrefixIsTop(sorted, Importance, OutlierTarget(targetColors));
    assert Prefix(sorted, OutlierTarget(targetColors)) == sorted[..n];
  }

  /** After the noise colours, the selection fills the quota with cluster
      representatives as far as there are clusters, and holds nothing else. */
  lemma FinalColorsClusters(clusters: seq<Cluster>, noisePoints: seq<ColorPoint>, targetColors: int)
    ensures var r := FinalColors(clusters, noisePoints, targetColors);
      var n := OutlierCount(noisePoints, targetColors);
      (targetColors - n > 0 ==> |r| == n + Min(targetColors - n, |clusters|)) &&
      (targetColors - n <= 0 ==> |r| == n) &&
      (forall i :: n <= i < |r| ==> r[i] in Representatives(clusters))
  {
    var r := FinalColors(clusters, noisePoints, targetColors);
    var n := OutlierCount(noisePoints, targetColors);
    var outliers := TopNoise(noisePoints, targetColors);
    assert |outliers| == n;
    if targetColors - n > 0 && clusters != [] {
      var sc := SortDesc(clusters, BestImportance);
      var reps := Prefix(Representatives(sc), targetColors - n);
      assert r == outliers + reps;
      SortedRepresentatives(clusters, sc, targetColors - n);
      TailElements(outliers, reps, Representatives(clusters));
    }
  }

  /** Every representative of the clusters, in any order, is one of theirs. */
  lemma SortedRepresentatives(clusters: seq<Cluster>, sc: seq<Cluster>, m: int)
    requires multiset(sc) == multiset(clusters)
    ensures forall x :: x in Prefix(Representatives(sc), m) ==> x in Representatives(clusters)
  {
    forall x | x in Prefix(Representatives(sc), m) ensures x in Representatives(clusters) {
      var k :| 0 <= k < |Prefix(Representatives(sc), m)| && Prefix(Representatives(sc), m)[k] == x;
      assert x == Representative(sc[k]);
      assert sc[k] in multiset(clusters);
      var j :| 0 <= j < |clusters| && clusters[j] == sc[k];
      assert Representatives(clusters)[j] == x;
    }
  }

  lemma TailElements<T>(a: seq<T>, b: seq<T>, c: seq<T>)
    requires forall x :: x in b ==> x in c
    ensures forall i :: |a| <= i < |a + b| ==> (a + b)[i] in c
  {
    forall i | |a| <= i < |a + b| ensures (a + b)[i] in c {
      assert (a + b)[i] == b[i - |a|];
    }
  }

  // ------------------------------------------------------------------
  // deduplicateColors

  /** Colours closer than this are similar. */
  const SimilarDistance: real := 8.0

  function NotSimilar(dist: (Rgb, Rgb) -> real): (Rgb, Rgb) -> bool {
    (c: Rgb, e: Rgb) => dist(c, e) >= SimilarDistance
  }

  /** `deduplicateColors`: keeps a colour iff it is at least 8 away from every
      colour kept before it. */
  method DeduplicateColors(colors: seq<Rgb>, dist: (Rgb, Rgb) -> real) returns (deduplicatedColors: seq<Rgb>)
    ensures deduplicatedColors == Dedup(colors, NotSimilar(dist))
  {
    ghost var far := NotSimilar(dist);
    deduplicatedColors := [];
    for i := 0 to |colors|
      invariant |deduplicatedColors| <= i
      invariant Select(deduplicatedColors, colors[i..], far, |colors|) == Dedup(colors, far)
    {
      assert colors[i..][0] == colors[i] && colors[i..][1..] == colors[i + 1..];
      var isSimilar := exists k :: 0 <= k < |deduplicatedColors| && dist(colors[i], deduplicatedColors[k]) < SimilarDistance;
      if !isSimilar {
        deduplicatedColors := deduplicatedColors + [colors[i]];
      }
    }
    assert colors[|colors|..] == [];
  }

  /** The de-duplicated colours are an order-preserving subsequence, pairwise at
      least 8 apart, starting with the first colour; every colour dropped is
      within 8 of one kept. */
  lemma DeduplicatedColors(colors: seq<Rgb>, dist: (Rgb, Rgb) -> real)
    ensures var r := Dedup(colors, NotSimilar(dist));
      IsSubseq(r, colors) &&
      (forall i, j :: 0 <= i < j < |r| ==> dist(r[j], r[i]) >= SimilarDistance) &&
      (colors != [] ==> r != [] && r[0] == colors[0]) &&
      (forall k :: 0 <= k < |colors| ==>
         colors[k] in r || exists j :: 0 <= j < |r| && dist(colors[k], r[j]) < SimilarDistance)
  {
    var far := NotSimilar(dist);
    var r := Dedup(colors, far);
    assert PairwiseFar(r, far);
    if colors != [] {
      DedupKeepsFirst(colors, far);
    }
    SelectDropsOnlyNearOrFull([], colors, far, |colors|);
    forall k | 0 <= k < |colors|
      ensures colors[k] in r || exists j :: 0 <= j < |r| && dist(colors[k], r[j]) < SimilarDistance
    {
      if |r| >= |colors| {
        SubseqFull(r, colors);
      } else if colors[k] !in r {
        var j :| 0 <= j < |r| && !far(colors[k], r[j]);
      }
    }
  }

  // ------------------------------------------------------------------
  // extractColorsDBSCAN

  /** The DBSCAN extractor's defaults. */
  const DefaultTargetColors: int := 5
  const DefaultEps: real := 15.0
  const DefaultMinPoints: int := 2

  /** `extractColorsDBSCAN` on a drawn (already downsized) buffer, without its
      progress reports: points, clustering, selection, de-duplication. */
  method ExtractColorsDBSCAN(buf: seq<Byte>, width: nat, height: nat, targetColors: int, eps: real,
                             minPoints: int, dist: (Rgb, Rgb) -> real, weigh: (Rgb, int, real) -> real)
    returns (colors: seq<Rgb>)
    requires |buf| == width * height * 4
    ensures |colors| <= Max(targetColors, 1)
    ensures forall i, j :: 0 <= i < j < |colors| ==> dist(colors[j], colors[i]) >= SimilarDistance
    ensures OpaqueCount(buf, width * height) == 0 ==> colors == []
  {
    var colorPoints := BuildColorPoints(buf, width, height, dist, weigh);
    BufferHasPoints(buf, width, height, dist, weigh);
    var clusters, noisePoints := PerformDBSCAN(colorPoints, eps, minPoints, dist);
    var finalColors := SelectFinalColors(clusters, noisePoints, targetColors);
    FinalColorsBound(clusters, noisePoints, targetColors);
    if colorPoints == [] {
      assert multiset(noisePoints) + multiset(Members(clusters)) == multiset{};
      NoPointsNoColors(clusters, noisePoints, targetColors);
    }
    colors := DeduplicateColors(finalColors, dist);
    DeduplicatedColors(finalColors, dist);
  }

  /** Without points there is nothing to select. */
  lemma NoPointsNoColors(clusters: seq<Cluster>, noisePoints: seq<ColorPoint>, targetColors: int)
    requires forall c :: 0 <= c < |clusters| ==> clusters[c].points != []
    requires multiset(noisePoints) + multiset(Members(clusters)) == multiset{}
    ensures FinalColors(clusters, noisePoints, targetColors) == []
  {
    assert noisePoints == [];
    if clusters != [] {
      MembersHasLast(clusters);
    }
  }

  lemma MembersHasLast(cs: seq<Cluster>)
    requires cs != [] && cs[|cs| - 1].points != []
    ensures Members(cs) != []
  {
  }
}
