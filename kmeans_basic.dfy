/** The original k-means extractor (`kMeansClustering` of
    `UIImage+ColorExtract`): `colorCount` randomly picked pixels as centres,
    then a fixed number of rounds that empty every cluster, append each pixel
    to its nearest centre's cluster and move each non-empty cluster's centre to
    its mean, all in place. The random picks are a parameter. */
module BasicKMeans {
  import opened KMeans

  /** The initial clusters: for each of the `colorCount` rounds the pixel
      `picks[k]`, with no points; none when there are no pixels. */
  function InitialClusters(pixels: seq<Pixel>, colorCount: nat, picks: seq<nat>): (r: seq<Cluster>)
    requires |picks| >= colorCount
    requires pixels != [] ==> forall k :: 0 <= k < colorCount ==> picks[k] < |pixels|
    ensures |r| == (if pixels == [] then 0 else colorCount)
    ensures forall c :: 0 <= c < |r| ==> r[c].center in pixels && r[c].points == []
  {
    if pixels == [] then []
    else seq(colorCount, k requires 0 <= k < colorCount => Cluster(pixels[picks[k]], []))
  }

  /** One round in place: clear, assign, update. */
  method Round(clusters: seq<Cluster>, pixels: seq<Pixel>) returns (next: seq<Cluster>)
    requires pixels == [] || clusters != []
    ensures next == Iteration(pixels, clusters)
  {
    ghost var centers := Centers(clusters);
    next := clusters;
    for clusterIndex := 0 to |next|
      invariant |next| == |clusters|
      invariant forall c :: 0 <= c < clusterIndex ==> next[c] == Cluster(clusters[c].center, [])
      invariant forall c :: clusterIndex <= c < |next| ==> next[c] == clusters[c]
    {
      next := next[clusterIndex := Cluster(next[clusterIndex].center, [])];
    }
    for j := 0 to |pixels|
      invariant |next| == |clusters| && Centers(next) == centers
      invariant forall c :: 0 <= c < |next| ==> next[c] == Cluster(centers[c], Members(pixels[..j], centers, c))
    {
      var pixel := pixels[j];
      var closestClusterIndex := FindClosestCluster(pixel, next);
      AppendStep(next, pixels, j, centers, closestClusterIndex);
      next := next[closestClusterIndex := Cluster(next[closestClusterIndex].center, next[closestClusterIndex].points + [pixel])];
    }
    assert pixels[..|pixels|] == pixels;
    next := UpdateCenters(next);
  }

  /** Appending pixel `j` to the cluster of its nearest centre keeps every
      cluster the members of the pixels seen so far. */
  lemma AppendStep(clusters: seq<Cluster>, pixels: seq<Pixel>, j: nat, centers: seq<Pixel>, k: nat)
    requires j < |pixels| && clusters != [] && |clusters| == |centers| && Centers(clusters) == centers
    requires k == Closest(pixels[j], Centers(clusters))
    requires forall c :: 0 <= c < |clusters| ==> clusters[c] == Cluster(centers[c], Members(pixels[..j], centers, c))
    ensures var next := clusters[k := Cluster(clusters[k].center, clusters[k].points + [pixels[j]])];
      |next| == |centers| && Centers(next) == centers &&
      forall c :: 0 <= c < |next| ==> next[c] == Cluster(centers[c], Members(pixels[..j + 1], centers, c))
  {
    var seen := pixels[..j + 1];
    assert seen[..j] == pixels[..j] && seen[j] == pixels[j];
    var next := clusters[k := Cluster(clusters[k].center, clusters[k].points + [pixels[j]])];
    forall c | 0 <= c < |next| ensures next[c] == Cluster(centers[c], Members(seen, centers, c)) {
      assert Members(seen, centers, c) ==
        Members(pixels[..j], centers, c) + (if Closest(pixels[j], centers) == c then [pixels[j]] else []);
    }
    assert Centers(next) == centers;
  }

  /** `kMeansClustering(pixels:colorCount:maxIterations:)`. The ranges
      `0..<colorCount` and `0..<maxIterations` need non-negative bounds, and a
      round over pixels needs a cluster (the nearest index is then 0, which an
      empty list does not have). */
  method KMeansClustering(pixels: seq<Pixel>, colorCount: int, maxIterations: int, picks: seq<nat>)
    returns (clusters: seq<Cluster>)
    requires colorCount >= 0 && maxIterations >= 0
    requires pixels == [] || colorCount > 0 || maxIterations == 0
    requires |picks| >= colorCount
    requires pixels != [] ==> forall k :: 0 <= k < colorCount ==> picks[k] < |pixels|
    ensures clusters == Iterate(pixels, InitialClusters(pixels, colorCount, picks), maxIterations)
  {
    clusters := [];
    for k := 0 to colorCount
      invariant clusters == if pixels == [] then [] else InitialClusters(pixels, colorCount, picks)[..k]
    {
      if pixels != [] {
        var randomPixel := pixels[picks[k]];
        assert InitialClusters(pixels, colorCount, picks)[..k + 1] ==
          InitialClusters(pixels, colorCount, picks)[..k] + [Cluster(randomPixel, [])];
        clusters := clusters + [Cluster(randomPixel, [])];
      }
    }
    ghost var initial := InitialClusters(pixels, colorCount, picks);
    assert pixels != [] ==> initial[..colorCount] == initial;
    for iteration := 0 to maxIterations
      invariant |clusters| == |initial|
      invariant Iterate(pixels, clusters, maxIterations - iteration) == Iterate(pixels, initial, maxIterations)
    {
      clusters := Round(clusters, pixels);
    }
  }

  /** The result has `colorCount` clusters (none without pixels), and since the
      first centres are pixels, every final centre has its channels in 0..255. */
  lemma KMeansClusteringResult(pixels: seq<Pixel>, colorCount: nat, maxIterations: nat, picks: seq<nat>)
    requires |picks| >= colorCount
    requires pixels != [] ==> forall k :: 0 <= k < colorCount ==> picks[k] < |pixels|
    requires forall i :: 0 <= i < |pixels| ==> ValidPixel(pixels[i])
    ensures var r := Iterate(pixels, InitialClusters(pixels, colorCount, picks), maxIterations);
      |r| == (if pixels == [] then 0 else colorCount) &&
      forall c :: 0 <= c < |r| ==> ValidPixel(r[c].center)
  {
    var initial := InitialClusters(pixels, colorCount, picks);
    forall c | 0 <= c < |initial| ensures ValidPixel(initial[c].center) {
      var i :| 0 <= i < |pixels| && pixels[i] == initial[c].center;
    }
    IterateValid(pixels, initial, maxIterations);
  }
}
