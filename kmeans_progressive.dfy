/** The improved k-means extractor (`UIImage+ColorExtract_Improved`): array
    chunking, k-means++ seeding, a round whose assignment step runs over
    batches of pixels, the convergence test, and the progressive loop that
    reports after every round and stops early once no centre moved by more than
    1. The random choices (the first centre, the drawn values) and the
    processor count are parameters; the batches are taken one after the other. */
module ProgressiveKMeans {
  import opened Colors
  import opened KMeans

  // ------------------------------------------------------------------
  // Array.chunked(into:)

  /** The number of `stride(from: 0, to: n, by: size)` positions. */
  function ChunkCount(n: nat, size: int): nat
    requires size > 0
  {
    (n + size - 1) / size
  }

  /** The chunk count is the least k with k * size >= n. */
  lemma ChunkCountBounds(n: nat, size: int)
    requires size > 0
    ensures ChunkCount(n, size) * size >= n
    ensures ChunkCount(n, size) > 0 ==> (ChunkCount(n, size) - 1) * size < n
  {
    var m := ChunkCount(n, size);
    var r := (n + size - 1) % size;
    assert n + size - 1 == m * size + r;
    assert (m - 1) * size == m * size - size;
  }

  lemma ChunkStartInside(n: nat, size: int, i: nat)
    requires size > 0 && i < ChunkCount(n, size)
    ensures i * size < n
  {
    ChunkCountBounds(n, size);
    MulLe(i, ChunkCount(n, size) - 1, size);
  }

  /** `Array(self[start..<min(start + size, count)])` at `start = i * size`. */
  function Chunk<T>(s: seq<T>, size: int, i: nat): seq<T>
    requires size > 0 && i < ChunkCount(|s|, size)
  {
    ChunkStartInside(|s|, size, i);
    s[i * size .. Min(i * size + size, |s|)]
  }

  function Chunked<T>(s: seq<T>, size: int): seq<seq<T>> {
    if size <= 0 then []
    else seq(ChunkCount(|s|, size), i requires 0 <= i < ChunkCount(|s|, size) => Chunk(s, size, i))
  }

  lemma {:induction false} FlattenChunks<T>(s: seq<T>, size: int, k: nat)
    requires size > 0 && k <= ChunkCount(|s|, size)
    ensures Flatten(Chunked(s, size)[..k]) == s[..Min(k * size, |s|)]
  {
    var r := Chunked(s, size);
    if k == 0 {
      assert r[..0] == [];
    } else {
      FlattenChunks(s, size, k - 1);
      ChunkStartInside(|s|, size, k - 1);
      assert r[..k] == r[..k - 1] + [r[k - 1]];
      FlattenSnoc(r[..k - 1], r[k - 1]);
      assert (k - 1) * size + size == k * size;
      assert s[..(k - 1) * size] + s[(k - 1) * size .. Min(k * size, |s|)] == s[..Min(k * size, |s|)];
    }
  }

  /** `chunked(into:)` with a size of 0 or less is empty; otherwise it is the
      least number of chunks of `size` that cover the array, each of length
      `size` but the last, which is non-empty and at most `size` long, and the
      chunks put together give the array back. */
  lemma ChunkedMeaning<T>(s: seq<T>, size: int)
    ensures size <= 0 ==> Chunked(s, size) == []
    ensures size > 0 ==> var r := Chunked(s, size);
      |r| * size >= |s| && (|r| > 0 ==> (|r| - 1) * size < |s|) &&
      Flatten(r) == s &&
      (forall i :: 0 <= i < |r| - 1 ==> |r[i]| == size) &&
      (r != [] ==> 0 < |r[|r| - 1]| <= size)
  {
    if size > 0 {
      var r := Chunked(s, size);
      var m := ChunkCount(|s|, size);
      ChunkCountBounds(|s|, size);
      FlattenChunks(s, size, m);
      assert r[..m] == r;
      forall i | 0 <= i < |r| - 1 ensures |r[i]| == size {
        FullChunk(s, size, i);
      }
      if r != [] {
        ChunkStartInside(|s|, size, m - 1);
      }
    }
  }

  /** Every chunk before the last is `size` long. */
  lemma FullChunk<T>(s: seq<T>, size: int, i: nat)
    requires size > 0 && i + 1 < ChunkCount(|s|, size)
    ensures |Chunk(s, size, i)| == size
  {
    ChunkStartInside(|s|, size, i + 1);
    assert (i + 1) * size == i * size + size;
  }

  // ------------------------------------------------------------------
  // performKMeansIteration

  /** `assignments[c, default: []]` */
  function Lookup(assignments: map<nat, seq<Pixel>>, c: nat): seq<Pixel> {
    if c in assignments then assignments[c] else []
  }

  lemma MembersSnoc(pixels: seq<Pixel>, j: nat, centers: seq<Pixel>, c: nat)
    requires j < |pixels|
    ensures Members(pixels[..j + 1], centers, c) ==
      Members(pixels[..j], centers, c) + (if Closest(pixels[j], centers) == c then [pixels[j]] else [])
  {
    assert pixels[..j + 1][..j] == pixels[..j];
  }

  lemma AssignStep(before: map<nat, seq<Pixel>>, batch: seq<Pixel>, j: nat, centers: seq<Pixel>, k: nat)
    requires j < |batch| && k == Closest(batch[j], centers)
    requires forall c :: Lookup(before, c) == Members(batch[..j], centers, c)
    ensures var after := before[k := Lookup(before, k) + [batch[j]]];
      forall c :: Lookup(after, c) == Members(batch[..j + 1], centers, c)
  {
    var after := before[k := Lookup(before, k) + [batch[j]]];
    forall c ensures Lookup(after, c) == Members(batch[..j + 1], centers, c) {
      MembersSnoc(batch, j, centers, c);
    }
  }

  /** What one child of the task group computes for its batch: each pixel of
      the batch goes to the list of its nearest centre. */
  method AssignBatch(batch: seq<Pixel>, clusters: seq<Cluster>) returns (assignments: map<nat, seq<Pixel>>)
    requires batch == [] || clusters != []
    ensures forall c :: c in assignments ==> c < |clusters|
    ensures forall c :: Lookup(assignments, c) == Members(batch, Centers(clusters), c)
  {
    ghost var centers := Centers(clusters);
    assignments := map[];
    for j := 0 to |batch|
      invariant forall c :: c in assignments ==> c < |clusters|
      invariant forall c :: Lookup(assignments, c) == Members(batch[..j], centers, c)
    {
      var pixel := batch[j];
      var closestIndex := FindClosestCluster(pixel, clusters);
      AssignStep(assignments, batch, j, centers, closestIndex);
      assignments := assignments[closestIndex := Lookup(assignments, closestIndex) + [pixel]];
    }
    assert batch[..|batch|] == batch;
  }

  /** Collecting one batch's lists: `newClusters[index].points.append(contentsOf:)`
      for the entries of the batch's dictionary, in whatever order it yields
      them. */
  method MergeBatch(newClusters: seq<Cluster>, assignments: map<nat, seq<Pixel>>) returns (merged: seq<Cluster>)
    requires forall c :: c in assignments ==> c < |newClusters|
    ensures |merged| == |newClusters|
    ensures forall c :: 0 <= c < |newClusters| ==>
      merged[c] == Cluster(newClusters[c].center, newClusters[c].points + Lookup(assignments, c))
  {
    merged := newClusters;
    var keys := assignments.Keys;
    while keys != {}
      invariant keys <= assignments.Keys
      invariant |merged| == |newClusters|
      invariant forall c :: 0 <= c < |newClusters| ==>
        merged[c] == Cluster(newClusters[c].center,
                             newClusters[c].points + (if c in keys then [] else Lookup(assignments, c)))
      decreases keys
    {
      var index :| index in keys;
      merged := merged[index := Cluster(merged[index].center, merged[index].points + assignments[index])];
      keys := keys - {index};
    }
  }

  /** `performKMeansIteration`: split the pixels into batches of
      `max(pixels.count / processors, 100)`, assign each batch, collect the
      lists, then move every non-empty cluster's centre to its mean. A round
      over pixels needs a cluster, since the nearest index is then 0. */
  method PerformKMeansIteration(pixels: seq<Pixel>, clusters: seq<Cluster>, activeProcessorCount: int)
    returns (newClusters: seq<Cluster>)
    requires activeProcessorCount >= 1
    requires pixels == [] || clusters != []
    ensures newClusters == Iteration(pixels, clusters)
  {
    ghost var centers := Centers(clusters);
    newClusters := seq(|clusters|, i requires 0 <= i < |clusters| => Cluster(clusters[i].center, []));
    var batchSize := Max(|pixels| / activeProcessorCount, 100);
    var batches := Chunked(pixels, batchSize);
    ChunkedMeaning(pixels, batchSize);
    for b := 0 to |batches|
      invariant |newClusters| == |clusters| && Centers(newClusters) == centers
      invariant forall c :: 0 <= c < |clusters| ==> newClusters[c].points == Members(Flatten(batches[..b]), centers, c)
    {
      var batch := batches[b];
      assert batch == [] || clusters != [] by {
        if batch != [] {
          FlattenHas(batches, b);
        }
      }
      var assignments := AssignBatch(batch, clusters);
      ghost var before := newClusters;
      newClusters := MergeBatch(newClusters, assignments);
      MergeStep(batches, b, centers, before, newClusters, assignments);
    }
    assert batches[..|batches|] == batches;
    newClusters := UpdateCenters(newClusters);
  }

  /** After batch `b` is merged, every list holds the members among the
      batches `0..b`. */
  lemma MergeStep(batches: seq<seq<Pixel>>, b: nat, centers: seq<Pixel>, before: seq<Cluster>,
                  after: seq<Cluster>, assignments: map<nat, seq<Pixel>>)
    requires b < |batches| && |after| == |before|
    requires forall c :: 0 <= c < |before| ==> before[c].points == Members(Flatten(batches[..b]), centers, c)
    requires forall c :: 0 <= c < |before| ==>
      after[c] == Cluster(before[c].center, before[c].points + Lookup(assignments, c))
    requires forall c :: Lookup(assignments, c) == Members(batches[b], centers, c)
    ensures Centers(after) == Centers(before)
    ensures forall c :: 0 <= c < |after| ==> after[c].points == Members(Flatten(batches[..b + 1]), centers, c)
  {
    assert batches[..b + 1] == batches[..b] + [batches[b]];
    FlattenSnoc(batches[..b], batches[b]);
    forall c | 0 <= c < |after|
      ensures after[c].points == Members(Flatten(batches[..b + 1]), centers, c)
    {
      MembersAppend(Flatten(batches[..b]), batches[b], centers, c);
    }
  }

  /** A non-empty chunk makes the whole non-empty. */
  lemma FlattenHas<T>(chunks: seq<seq<T>>, b: nat)
    requires b < |chunks| && chunks[b] != []
    ensures Flatten(chunks) != []
    decreases b
  {
    if b > 0 {
      FlattenHas(chunks[1..], b - 1);
    }
  }

  // ------------------------------------------------------------------
  // findClosestCluster is KMeans.FindClosestCluster; checkConvergence

  /** `checkConvergence`: the lists have the same length and no paired centre
      moved by more than `threshold`. */
  predicate Converged(previousCenters: seq<Pixel>, currentCenters: seq<Pixel>, threshold: real) {
    |previousCenters| == |currentCenters| &&
    forall i :: 0 <= i < |previousCenters| ==> !FartherThan(previousCenters[i], currentCenters[i], threshold)
  }

  method CheckConvergence(previousCenters: seq<Pixel>, currentCenters: seq<Pixel>, threshold: real) returns (converged: bool)
    ensures converged == Converged(previousCenters, currentCenters, threshold)
  {
    if |previousCenters| != |currentCenters| {
      return false;
    }
    for i := 0 to |previousCenters|
      invariant forall k :: 0 <= k < i ==> !FartherThan(previousCenters[k], currentCenters[k], threshold)
    {
      if FartherThan(previousCenters[i], currentCenters[i], threshold) {
        return false;
      }
    }
    return true;
  }

  // ------------------------------------------------------------------
  // initializeClusters (k-means++)

  /** `centers.map { euclideanDistance(pixel, $0) }.min() ?? 0`, squared: the
      squared distance to the nearest centre (squaring the least root is taking
      the least square), 0 without centres. */
  function NearestSquared(p: Pixel, centers: seq<Pixel>): (d: real)
    ensures d >= 0.0
    ensures forall k {:trigger SquaredDistance(p, centers[k])} :: 0 <= k < |centers| ==> d <= SquaredDistance(p, centers[k])
  {
    if centers == [] then 0.0
    else if |centers| == 1 then SquaredDistance(p, centers[0])
    else
      var init := centers[..|centers| - 1];
      var m := NearestSquared(p, init);
      var last := SquaredDistance(p, centers[|centers| - 1]);
      assert forall k :: 0 <= k < |init| ==> init[k] == centers[k];
      if last < m then last else m
  }

  /** The `distances` list: one weight per pixel. */
  function Weights(pixels: seq<Pixel>, centers: seq<Pixel>): (w: seq<real>)
    ensures |w| == |pixels|
    ensures forall i {:trigger w[i]} :: 0 <= i < |pixels| ==> w[i] == NearestSquared(pixels[i], centers)
  {
    seq(|pixels|, i requires 0 <= i < |pixels| => NearestSquared(pixels[i], centers))
  }

  function SumReals(w: seq<real>): real {
    if w == [] then 0.0 else SumReals(w[..|w| - 1]) + w[|w| - 1]
  }

  /** The cumulative weight up to and including index `j`. */
  function Cumulative(w: seq<real>, j: nat): real
    requires j < |w|
  {
    SumReals(w[..j + 1])
  }

  /** The scan for the next centre from index `i` on, with `acc` the
      cumulative weight before `i`: the first index at which the cumulative
      weight reaches `value`, if any. */
  function PickFrom(w: seq<real>, i: nat, acc: real, value: real): (r: Option<nat>)
    requires i <= |w| && acc == SumReals(w[..i])
    ensures r.Some? ==> i <= r.value < |w| && Cumulative(w, r.value) >= value &&
                        forall j :: i <= j < r.value ==> Cumulative(w, j) < value
    ensures r.None? ==> forall j :: i <= j < |w| ==> Cumulative(w, j) < value
    decreases |w| - i
  {
    if i == |w| then None
    else
      assert w[..i + 1][..i] == w[..i];
      if acc + w[i] >= value then Some(i) else PickFrom(w, i + 1, acc + w[i], value)
  }

  function Pick(w: seq<real>, value: real): Option<nat> {
    assert w[..0] == [];
    PickFrom(w, 0, 0.0, value)
  }

  /** The centres after `k` rounds of the k-means++ loop: the first centre is
      the pixel `firstIndex` (`randomElement()`); round `k` weighs every pixel
      by its squared distance to the nearest centre and adds the first pixel at
      which the cumulative weight reaches `draw(k, total)`, the value drawn in
      that round from `0...total`. */
  function Seeded(pixels: seq<Pixel>, firstIndex: nat, draw: (nat, real) -> real, k: nat): (r: seq<Pixel>)
    requires firstIndex < |pixels|
    ensures r != [] && r[0] == pixels[firstIndex]
  {
    if k == 0 then [pixels[firstIndex]]
    else NextCenters(pixels, Seeded(pixels, firstIndex, draw, k - 1), draw, k)
  }

  /** Round `round` of k-means++. */
  function NextCenters(pixels: seq<Pixel>, centers: seq<Pixel>, draw: (nat, real) -> real, round: nat): seq<Pixel> {
    var w := Weights(pixels, centers);
    var pick := Pick(w, draw(round, SumReals(w)));
    if pick.Some? then centers + [pixels[pick.value]] else centers
  }

  lemma NextCentersPick(pixels: seq<Pixel>, centers: seq<Pixel>, draw: (nat, real) -> real, round: nat, next: Option<nat>)
    requires next == Pick(Weights(pixels, centers), draw(round, SumReals(Weights(pixels, centers))))
    ensures next.Some? ==> next.value < |pixels| && NextCenters(pixels, centers, draw, round) == centers + [pixels[next.value]]
    ensures next.None? ==> NextCenters(pixels, centers, draw, round) == centers
  {
  }

  function Unassigned(centers: seq<Pixel>): (r: seq<Cluster>)
    ensures |r| == |centers| && Centers(r) == centers
    ensures forall c :: 0 <= c < |r| ==> r[c].points == []
  {
    seq(|centers|, c requires 0 <= c < |centers| => Cluster(centers[c], []))
  }

  /** What `initializeClusters` returns: nothing without pixels or for a
      count of 0 or less; otherwise the seeded centres, with no points. */
  function InitialClusters(pixels: seq<Pixel>, count: int, firstIndex: nat, draw: (nat, real) -> real): seq<Cluster>
    requires pixels != [] && count > 0 ==> firstIndex < |pixels|
  {
    if pixels == [] || count <= 0 then [] else Unassigned(Seeded(pixels, firstIndex, draw, count - 1))
  }

  /** The first loop of a k-means++ round: each pixel's squared distance to
      its nearest centre, and their total. */
  method NearestDistances(pixels: seq<Pixel>, centers: seq<Pixel>) returns (distances: seq<real>, totalDistance: real)
    ensures distances == Weights(pixels, centers)
    ensures totalDistance == SumReals(distances)
  {
    distances := [];
    totalDistance := 0.0;
    for j := 0 to |pixels|
      invariant distances == Weights(pixels, centers)[..j]
      invariant totalDistance == SumReals(distances)
    {
      var squaredDistance := NearestSquared(pixels[j], centers);
      assert (distances + [squaredDistance])[..j] == distances;
      distances := distances + [squaredDistance];
      totalDistance := totalDistance + squaredDistance;
    }
  }

  /** The second loop: add up the distances until the sum reaches
      `randomValue`, and take that index (none when it is never reached). */
  method FirstReaching(distances: seq<real>, randomValue: real) returns (next: Option<nat>)
    ensures next == Pick(distances, randomValue)
  {
    assert distances[..0] == [];
    var cumulativeDistance := 0.0;
    for index := 0 to |distances|
      invariant cumulativeDistance == SumReals(distances[..index])
      invariant PickFrom(distances, index, cumulativeDistance, randomValue) == Pick(distances, randomValue)
    {
      assert distances[..index + 1][..index] == distances[..index];
      cumulativeDistance := cumulativeDistance + distances[index];
      if cumulativeDistance >= randomValue {
        return Some(index);
      }
    }
    return None;
  }

  method InitializeClusters(pixels: seq<Pixel>, count: int, firstIndex: nat, draw: (nat, real) -> real)
    returns (clusters: seq<Cluster>)
    requires pixels != [] && count > 0 ==> firstIndex < |pixels|
    ensures clusters == InitialClusters(pixels, count, firstIndex, draw)
  {
    if pixels == [] || count <= 0 {
      return [];
    }
    var centers := [pixels[firstIndex]];
    for round := 1 to count
      invariant centers == Seeded(pixels, firstIndex, draw, round - 1)
    {
      var distances, totalDistance := NearestDistances(pixels, centers);
      var randomValue := draw(round, totalDistance);
      var next := FirstReaching(distances, randomValue);
      NextCentersPick(pixels, centers, draw, round, next);
      if next.Some? {
        centers := centers + [pixels[next.value]];
      }
    }
    clusters := Unassigned(centers);
  }

  lemma {:induction false} SumRealsNonNegative(w: seq<real>)
    requires forall i :: 0 <= i < |w| ==> w[i] >= 0.0
    ensures SumReals(w) >= 0.0
  {
    if w != [] {
      SumRealsNonNegative(w[..|w| - 1]);
    }
  }

  /** A draw that stays in `0...total`, as `CGFloat.random(in:)` does. */
  ghost predicate DrawsWithin(draw: (nat, real) -> real) {
    forall k: nat, total: real :: 0.0 <= total ==> 0.0 <= draw(k, total) <= total
  }

  /** With draws in `0...total`, every round adds a centre: the seeding ends
      with `k + 1` centres, all of them pixels, the first one the first pick. */
  lemma {:induction false} SeededCount(pixels: seq<Pixel>, firstIndex: nat, draw: (nat, real) -> real, k: nat)
    requires firstIndex < |pixels| && DrawsWithin(draw)
    ensures var centers := Seeded(pixels, firstIndex, draw, k);
      |centers| == k + 1 && centers[0] == pixels[firstIndex] && DrawnFrom(centers, pixels)
  {
    if k > 0 {
      SeededCount(pixels, firstIndex, draw, k - 1);
      var centers := Seeded(pixels, firstIndex, draw, k - 1);
      var i := NextCentersGrows(pixels, centers, draw, k);
      DrawnFromSnoc(centers, pixels, i);
    }
  }

  /** Every centre is one of the pixels. */
  ghost predicate DrawnFrom(centers: seq<Pixel>, pixels: seq<Pixel>) {
    forall c :: 0 <= c < |centers| ==> centers[c] in pixels
  }

  lemma DrawnFromSnoc(centers: seq<Pixel>, pixels: seq<Pixel>, i: nat)
    requires DrawnFrom(centers, pixels) && i < |pixels|
    ensures DrawnFrom(centers + [pixels[i]], pixels)
  {
    var r := centers + [pixels[i]];
    assert forall c :: 0 <= c < |centers| ==> r[c] == centers[c];
  }

  /** With a draw in `0...total`, a round over pixels always adds a pixel. */
  lemma NextCentersGrows(pixels: seq<Pixel>, centers: seq<Pixel>, draw: (nat, real) -> real, round: nat) returns (i: nat)
    requires pixels != [] && DrawsWithin(draw)
    ensures i < |pixels| && NextCenters(pixels, centers, draw, round) == centers + [pixels[i]]
  {
    var w := Weights(pixels, centers);
    SumRealsNonNegative(w);
    var value := draw(round, SumReals(w));
    assert w[..|w|] == w;
    assert Cumulative(w, |w| - 1) >= value;
    var next := Pick(w, value);
    NextCentersPick(pixels, centers, draw, round, next);
    i := next.value;
  }

  /** Each round adds the first pixel at which the cumulative weight reaches
      the drawn value; when that value is positive, the new centre is none of
      the centres chosen before, since chosen centres weigh nothing. */
  lemma SeededStep(pixels: seq<Pixel>, firstIndex: nat, draw: (nat, real) -> real, k: nat)
    requires firstIndex < |pixels| && 0 < k && DrawsWithin(draw)
    ensures var before := Seeded(pixels, firstIndex, draw, k - 1);
      var w := Weights(pixels, before);
      var value := draw(k, SumReals(w));
      exists i :: 0 <= i < |pixels| &&
        Seeded(pixels, firstIndex, draw, k) == before + [pixels[i]] &&
        Cumulative(w, i) >= value &&
        (forall j :: 0 <= j < i ==> Cumulative(w, j) < value) &&
        (value > 0.0 ==> pixels[i] !in before)
  {
    var before := Seeded(pixels, firstIndex, draw, k - 1);
    var w := Weights(pixels, before);
    var value := draw(k, SumReals(w));
    SumRealsNonNegative(w);
    assert w[..|w|] == w;
    assert Cumulative(w, |w| - 1) >= value;
    var next := Pick(w, value);
    NextCentersPick(pixels, before, draw, k, next);
    var i := next.value;
    if value > 0.0 {
      assert w[..i + 1][..i] == w[..i];
      if i > 0 {
        assert Cumulative(w, i - 1) < value;
        assert w[..i] == w[..i - 1 + 1];
      } else {
        assert w[..0] == [];
      }
      assert w[i] > 0.0;
      forall c | 0 <= c < |before| ensures before[c] != pixels[i] {
        assert SquaredDistance(pixels[i], before[c]) > 0.0;
      }
    }
  }

  // ------------------------------------------------------------------
  // kMeansClustering (improved)

  /** `kMeansClustering`: seed, then `maxIterations` rounds with no early exit. */
  method KMeansClustering(pixels: seq<Pixel>, colorCount: int, maxIterations: int, activeProcessorCount: int,
                          firstIndex: nat, draw: (nat, real) -> real) returns (clusters: seq<Cluster>)
    requires maxIterations >= 0 && activeProcessorCount >= 1
    requires pixels == [] || colorCount > 0 || maxIterations == 0
    requires pixels != [] && colorCount > 0 ==> firstIndex < |pixels|
    ensures clusters == Iterate(pixels, InitialClusters(pixels, colorCount, firstIndex, draw), maxIterations)
  {
    clusters := InitializeClusters(pixels, colorCount, firstIndex, draw);
    ghost var initial := clusters;
    for iteration := 0 to maxIterations
      invariant |clusters| == |initial|
      invariant pixels == [] || clusters != [] || maxIterations == 0
      invariant Iterate(pixels, clusters, maxIterations - iteration) == Iterate(pixels, initial, maxIterations)
    {
      clusters := PerformKMeansIteration(pixels, clusters, activeProcessorCount);
    }
  }

  /** With draws in `0...total`, the first clusters are `count` pixels (none
      without pixels or for a count of 0 or less). */
  lemma InitialClustersMeaning(pixels: seq<Pixel>, count: int, firstIndex: nat, draw: (nat, real) -> real)
    requires pixels != [] && count > 0 ==> firstIndex < |pixels|
    requires DrawsWithin(draw)
    ensures var initial := InitialClusters(pixels, count, firstIndex, draw);
      |initial| == (if pixels == [] || count <= 0 then 0 else count) &&
      (forall c :: 0 <= c < |initial| ==> initial[c].center in pixels && initial[c].points == []) &&
      (initial != [] ==> initial[0].center == pixels[firstIndex])
  {
    if pixels != [] && count > 0 {
      SeededCount(pixels, firstIndex, draw, count - 1);
      var centers := Seeded(pixels, firstIndex, draw, count - 1);
      var initial := Unassigned(centers);
      assert forall c :: 0 <= c < |initial| ==> initial[c].center == centers[c];
    }
  }

  lemma InitialClustersValid(pixels: seq<Pixel>, count: int, firstIndex: nat, draw: (nat, real) -> real)
    requires pixels != [] && count > 0 ==> firstIndex < |pixels|
    requires DrawsWithin(draw)
    requires forall i :: 0 <= i < |pixels| ==> ValidPixel(pixels[i])
    ensures var initial := InitialClusters(pixels, count, firstIndex, draw);
      |initial| == (if pixels == [] || count <= 0 then 0 else count) &&
      forall c :: 0 <= c < |initial| ==> ValidPixel(initial[c].center)
  {
    InitialClustersMeaning(pixels, count, firstIndex, draw);
    var initial := InitialClusters(pixels, count, firstIndex, draw);
    forall c | 0 <= c < |initial| ensures ValidPixel(initial[c].center) {
      var i :| 0 <= i < |pixels| && pixels[i] == initial[c].center;
    }
  }

  /** With draws in `0...total`, k-means ends with `colorCount` clusters (none
      without pixels or for a count of 0 or less), each centre with channels in
      0..255. */
  lemma KMeansClusteringResult(pixels: seq<Pixel>, colorCount: int, maxIterations: nat,
                               firstIndex: nat, draw: (nat, real) -> real)
    requires pixels != [] && colorCount > 0 ==> firstIndex < |pixels|
    requires DrawsWithin(draw)
    requires forall i :: 0 <= i < |pixels| ==> ValidPixel(pixels[i])
    ensures var r := Iterate(pixels, InitialClusters(pixels, colorCount, firstIndex, draw), maxIterations);
      |r| == (if pixels == [] || colorCount <= 0 then 0 else colorCount) &&
      forall c :: 0 <= c < |r| ==> ValidPixel(r[c].center)
  {
    InitialClustersValid(pixels, colorCount, firstIndex, draw);
    IterateValid(pixels, InitialClusters(pixels, colorCount, firstIndex, draw), maxIterations);
  }

  // ------------------------------------------------------------------
  // The loop of extractColorsProgressive

  const MaxIterations: nat := 10

  /** Largest centre movement that still counts as converged. */
  const ConvergenceThreshold: real := 1.0

  /** `zip(previousCenters, currentCenters).map(distance).allSatisfy { $0 <= 1 }`;
      `zip` stops at the shorter list. */
  predicate Settled(previousCenters: seq<Pixel>, currentCenters: seq<Pixel>) {
    SettledUpTo(previousCenters, currentCenters, Min(|previousCenters|, |currentCenters|))
  }

  /** The first `n` pairs moved at most the threshold, checked left to right. */
  predicate SettledUpTo(previousCenters: seq<Pixel>, currentCenters: seq<Pixel>, n: nat)
    requires n <= |previousCenters| && n <= |currentCenters|
  {
    n == 0 ||
    (SettledUpTo(previousCenters, currentCenters, n - 1) &&
     !FartherThan(previousCenters[n - 1], currentCenters[n - 1], ConvergenceThreshold))
  }

  lemma {:induction false} SettledUpToMeaning(previousCenters: seq<Pixel>, currentCenters: seq<Pixel>, n: nat)
    requires n <= |previousCenters| && n <= |currentCenters|
    ensures SettledUpTo(previousCenters, currentCenters, n) <==>
      forall i :: 0 <= i < n ==> !FartherThan(previousCenters[i], currentCenters[i], ConvergenceThreshold)
    decreases n
  {
    if n > 0 {
      SettledUpToMeaning(previousCenters, currentCenters, n - 1);
    }
  }

  /** The centres have settled exactly when every pair of `zip` moved at most
      the threshold. */
  lemma SettledMeaning(previousCenters: seq<Pixel>, currentCenters: seq<Pixel>)
    ensures Settled(previousCenters, currentCenters) <==>
      forall i :: 0 <= i < |previousCenters| && i < |currentCenters| ==>
        !FartherThan(previousCenters[i], currentCenters[i], ConvergenceThreshold)
  {
    SettledUpToMeaning(previousCenters, currentCenters, Min(|previousCenters|, |currentCenters|));
  }

  /** A `ColorExtractionResult` of a k-means round: its 1-based number, the
      centres it shows, whether it converged, and `isComplete`. */
  datatype Report = Report(iteration: nat, centers: seq<Pixel>, converged: bool, isComplete: bool)

  datatype Run = Run(clusters: seq<Cluster>, reports: seq<Report>)

  /** A k-means round over `pixels`, as a step from clusters to clusters. */
  function RoundOf(pixels: seq<Pixel>): seq<Cluster> -> seq<Cluster> {
    clusters => Iteration(pixels, clusters)
  }

  /** The rounds from round `iteration` (0-based) on, starting from
      `clusters`, with `round` the step of one round. */
  function Progress(round: seq<Cluster> -> seq<Cluster>, clusters: seq<Cluster>, iteration: nat): Run
    requires iteration < MaxIterations
    decreases MaxIterations - iteration
  {
    var next := round(clusters);
    var converged := Settled(Centers(clusters), Centers(next));
    var last := iteration == MaxIterations - 1;
    var report := Report(iteration + 1, Centers(next), converged, converged || last);
    if converged || last then Run(next, [report])
    else
      var rest := Progress(round, next, iteration + 1);
      Run(rest.clusters, [report] + rest.reports)
  }

  /** `n` steps of `round`. */
  function Repeat(round: seq<Cluster> -> seq<Cluster>, clusters: seq<Cluster>, n: nat): seq<Cluster>
    decreases n
  {
    if n == 0 then clusters else Repeat(round, round(clusters), n - 1)
  }

  /** Repeating the k-means round is `Iterate`. */
  lemma {:induction false} RepeatIsIterate(pixels: seq<Pixel>, clusters: seq<Cluster>, n: nat)
    ensures Repeat(RoundOf(pixels), clusters, n) == Iterate(pixels, clusters, n)
    decreases n
  {
    if n > 0 {
      RepeatIsIterate(pixels, Iteration(pixels, clusters), n - 1);
    }
  }

  /** The k-means loop of `extractColorsProgressive`, after seeding: run a
      round, compare the centres with the previous ones, report, and stop once
      converged. */
  method ExtractColorsProgressive(pixels: seq<Pixel>, colorCount: int, activeProcessorCount: int,
                                  firstIndex: nat, draw: (nat, real) -> real) returns (clusters: seq<Cluster>, reports: seq<Report>)
    requires activeProcessorCount >= 1
    requires pixels == [] || colorCount > 0
    requires pixels != [] && colorCount > 0 ==> firstIndex < |pixels|
    ensures Run(clusters, reports) == Progress(RoundOf(pixels), InitialClusters(pixels, colorCount, firstIndex, draw), 0)
  {
    clusters := InitializeClusters(pixels, colorCount, firstIndex, draw);
    clusters, reports := ProgressiveRounds(pixels, clusters, activeProcessorCount, RoundOf(pixels));
  }

  /** The rounds of `extractColorsProgressive` from the seeded clusters on. */
  method ProgressiveRounds(pixels: seq<Pixel>, initial: seq<Cluster>, activeProcessorCount: int,
                           ghost round: seq<Cluster> -> seq<Cluster>)
    returns (clusters: seq<Cluster>, reports: seq<Report>)
    requires activeProcessorCount >= 1
    requires pixels == [] || initial != []
    requires forall c {:trigger Iteration(pixels, c)} :: round(c) == Iteration(pixels, c)
    ensures Run(clusters, reports) == Progress(round, initial, 0)
  {
    clusters := initial;
    ghost var result := Progress(round, clusters, 0);
    var previousCenters := Centers(clusters);
    reports := [];
    for iteration := 0 to MaxIterations
      invariant pixels == [] || clusters != []
      invariant previousCenters == Centers(clusters)
      invariant iteration < MaxIterations ==>
        result.clusters == Progress(round, clusters, iteration).clusters &&
        result.reports == reports + Progress(round, clusters, iteration).reports
      invariant iteration == MaxIterations ==> result == Run(clusters, reports)
    {
      ghost var before := clusters;
      clusters := PerformKMeansIteration(pixels, clusters, activeProcessorCount);
      var currentCenters := Centers(clusters);
      var hasConverged := Settled(previousCenters, currentCenters);
      var report := Report(iteration + 1, currentCenters, hasConverged, hasConverged || iteration == MaxIterations - 1);
      ProgressAdvance(round, result, before, reports, iteration, clusters, report);
      reports := reports + [report];
      if hasConverged {
        break;
      }
      previousCenters := currentCenters;
    }
  }

  /** The loop invariant of `ProgressiveRounds` carried over one round. */
  lemma ProgressAdvance(round: seq<Cluster> -> seq<Cluster>, result: Run, clusters: seq<Cluster>, reports: seq<Report>,
                        iteration: nat, next: seq<Cluster>, report: Report)
    requires iteration < MaxIterations && next == round(clusters)
    requires report == Report(iteration + 1, Centers(next), Settled(Centers(clusters), Centers(next)),
                              Settled(Centers(clusters), Centers(next)) || iteration == MaxIterations - 1)
    requires result.clusters == Progress(round, clusters, iteration).clusters
    requires result.reports == reports + Progress(round, clusters, iteration).reports
    ensures report.isComplete ==> result == Run(next, reports + [report])
    ensures !report.isComplete ==>
      (iteration + 1 < MaxIterations &&
       result.clusters == Progress(round, next, iteration + 1).clusters &&
       result.reports == (reports + [report]) + Progress(round, next, iteration + 1).reports)
  {
    ProgressStep(round, clusters, iteration, next, report);
    if !report.isComplete {
      assert reports + ([report] + Progress(round, next, iteration + 1).reports) ==
        (reports + [report]) + Progress(round, next, iteration + 1).reports;
    }
  }

  /** One round of the progressive loop: its report, then either the end or
      the rounds after it. */
  lemma ProgressStep(round: seq<Cluster> -> seq<Cluster>, clusters: seq<Cluster>, iteration: nat,
                     next: seq<Cluster>, report: Report)
    requires iteration < MaxIterations && next == round(clusters)
    requires report == Report(iteration + 1, Centers(next), Settled(Centers(clusters), Centers(next)),
                              Settled(Centers(clusters), Centers(next)) || iteration == MaxIterations - 1)
    ensures report.isComplete ==> Progress(round, clusters, iteration) == Run(next, [report])
    ensures !report.isComplete ==>
      (iteration + 1 < MaxIterations &&
       Progress(round, clusters, iteration).clusters == Progress(round, next, iteration + 1).clusters &&
       Progress(round, clusters, iteration).reports == [report] + Progress(round, next, iteration + 1).reports)
  {
  }

  /** The progressive loop reports once per round, at most 10 times, numbering
      the rounds from 1; a round is complete exactly when it converged or was
      the tenth; only the last round can have converged, and every round but the
      last is incomplete, while the last round is complete. */
  lemma {:induction false} ProgressReports(round: seq<Cluster> -> seq<Cluster>, clusters: seq<Cluster>, iteration: nat)
    requires iteration < MaxIterations
    ensures ReportsFrom(Progress(round, clusters, iteration).reports, iteration)
    decreases MaxIterations - iteration
  {
    var next := round(clusters);
    var converged := Settled(Centers(clusters), Centers(next));
    var report := Report(iteration + 1, Centers(next), converged, converged || iteration == MaxIterations - 1);
    ProgressStep(round, clusters, iteration, next, report);
    if !report.isComplete {
      ProgressReports(round, next, iteration + 1);
      ReportsCons(report, Progress(round, next, iteration + 1).reports, iteration);
    }
  }

  /** The reports of the rounds after round `iteration`: at least one and at
      most the rounds left, numbered on from `iteration + 1`, each complete
      exactly when it converged or is the tenth, all but the last neither
      converged nor complete, and the last complete. */
  ghost predicate ReportsFrom(reports: seq<Report>, iteration: nat) {
    1 <= |reports| <= MaxIterations - iteration &&
    (forall k :: 0 <= k < |reports| ==> reports[k].iteration == iteration + k + 1) &&
    (forall k :: 0 <= k < |reports| ==>
       reports[k].isComplete == (reports[k].converged || reports[k].iteration == MaxIterations)) &&
    (forall k :: 0 <= k < |reports| - 1 ==> !reports[k].converged && !reports[k].isComplete) &&
    reports[|reports| - 1].isComplete
  }

  lemma ReportsCons(report: Report, rest: seq<Report>, iteration: nat)
    requires ReportsFrom(rest, iteration + 1)
    requires report.iteration == iteration + 1 && !report.converged && !report.isComplete
    ensures ReportsFrom([report] + rest, iteration)
  {
    var reports := [report] + rest;
    assert forall k :: 1 <= k < |reports| ==> reports[k] == rest[k - 1];
  }

  /** The progressive loop ends with the clusters of as many plain k-means
      rounds as it reported, and its last report shows their centres. */
  lemma ProgressClusters(pixels: seq<Pixel>, clusters: seq<Cluster>)
    ensures var run := Progress(RoundOf(pixels), clusters, 0);
      run.reports != [] &&
      run.reports[|run.reports| - 1].centers == Centers(run.clusters) &&
      run.clusters == Iterate(pixels, clusters, |run.reports|)
  {
    ProgressRepeats(RoundOf(pixels), clusters, 0);
    RepeatIsIterate(pixels, clusters, |Progress(RoundOf(pixels), clusters, 0).reports|);
  }

  lemma {:induction false} ProgressRepeats(round: seq<Cluster> -> seq<Cluster>, clusters: seq<Cluster>, iteration: nat)
    requires iteration < MaxIterations
    ensures var run := Progress(round, clusters, iteration);
      run.reports != [] &&
      run.reports[|run.reports| - 1].centers == Centers(run.clusters) &&
      run.clusters == Repeat(round, clusters, |run.reports|)
    decreases MaxIterations - iteration
  {
    var next := round(clusters);
    var converged := Settled(Centers(clusters), Centers(next));
    if !(converged || iteration == MaxIterations - 1) {
      ProgressRepeats(round, next, iteration + 1);
      var rest := Progress(round, next, iteration + 1);
      var run := Progress(round, clusters, iteration);
      assert run.reports[|run.reports| - 1] == rest.reports[|rest.reports| - 1];
      assert |run.reports| == |rest.reports| + 1;
      assert Repeat(round, clusters, |rest.reports| + 1) == Repeat(round, next, |rest.reports|);
    }
  }
}
