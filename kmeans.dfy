/** What the two k-means extractors share: the pixel list read from the drawn
    bitmap, the nearest-centre search, and the meaning of one k-means round
    (every pixel joins its nearest centre, every centre with members moves to
    their mean). Pixels and centres are real triples; the Euclidean distance is
    compared through its square, which orders pixels the same way. */
module KMeans {
  import opened Colors
  import opened Sampling

  /** `PixelData`: a colour whose channels are `CGFloat`s. */
  datatype Pixel = Pixel(red: real, green: real, blue: real)

  /** `Cluster`: a centre and the pixels assigned to it. */
  datatype Cluster = Cluster(center: Pixel, points: seq<Pixel>)

  /** The square of `euclideanDistance`. */
  function SquaredDistance(p: Pixel, q: Pixel): (d: real)
    ensures d >= 0.0
    ensures p == q ==> d == 0.0
  {
    (p.red - q.red) * (p.red - q.red) + (p.green - q.green) * (p.green - q.green) +
    (p.blue - q.blue) * (p.blue - q.blue)
  }

  /** `euclideanDistance(p, q) > threshold`, decided on the squares. */
  predicate FartherThan(p: Pixel, q: Pixel, threshold: real) {
    threshold < 0.0 || SquaredDistance(p, q) > threshold * threshold
  }

  /** For the distance `s` (the non-negative root of the squared distance),
      `FartherThan` is exactly `s > threshold`. */
  lemma FartherThanMeansDistance(p: Pixel, q: Pixel, threshold: real, s: real)
    requires s >= 0.0 && s * s == SquaredDistance(p, q)
    ensures FartherThan(p, q, threshold) <==> s > threshold
  {
    if threshold >= 0.0 {
      if s > threshold {
        SquareAbove(s, threshold);
      } else if s < threshold {
        SquareAbove(threshold, s);
      }
    }
  }

  /** Squaring keeps the strict order of non-negative reals. */
  lemma SquareAbove(x: real, y: real)
    requires x > y >= 0.0
    ensures x * x > y * y
  {
    assert x * (x - y) > 0.0;
    assert y * (x - y) >= 0.0;
  }

  /** A pixel read from 8-bit channels: every channel in 0..255. */
  predicate ValidPixel(p: Pixel) {
    0.0 <= p.red <= 255.0 && 0.0 <= p.green <= 255.0 && 0.0 <= p.blue <= 255.0
  }

  function Centers(clusters: seq<Cluster>): (r: seq<Pixel>)
    ensures |r| == |clusters|
    ensures forall c :: 0 <= c < |clusters| ==> r[c] == clusters[c].center
  {
    seq(|clusters|, c requires 0 <= c < |clusters| => clusters[c].center)
  }

  // ------------------------------------------------------------------
  // getPixelData

  /** Pixel number `n` of the 4-byte buffer; the fourth (alpha) byte is not read. */
  function PixelAt(buf: seq<Byte>, n: nat): Pixel
    requires 4 * n + 3 < |buf|
  {
    Pixel(buf[4 * n] as int as real, buf[4 * n + 1] as int as real, buf[4 * n + 2] as int as real)
  }

  /** The first `n` pixels of the buffer, in buffer order. */
  function Pixels(buf: seq<Byte>, n: nat): (r: seq<Pixel>)
    requires 4 * n <= |buf|
    ensures |r| == n
  {
    seq(n, i requires 0 <= i < n => PixelAt(buf, i))
  }

  /** The position in row-major order of the pixel at column `x` of row `y`. */
  function PixelIndex(width: nat, y: nat, x: nat): nat {
    width * y + x
  }

  /** `getPixelData`: the row/column walk appends one pixel per position,
      reading red, green and blue at `offset`, `offset + 1` and `offset + 2`
      with no alpha test. */
  method GetPixelData(buf: seq<Byte>, width: nat, height: nat) returns (pixelData: seq<Pixel>)
    requires |buf| == width * height * 4
    ensures pixelData == Pixels(buf, width * height)
  {
    pixelData := [];
    for y := 0 to height
      invariant |pixelData| == width * y && 4 * |pixelData| <= |buf|
      invariant pixelData == Pixels(buf, width * y)
    {
      NextRow(width, y);
      for x := 0 to width
        invariant |pixelData| == width * y + x && 4 * |pixelData| <= |buf|
        invariant pixelData == Pixels(buf, width * y + x)
      {
        RowMajorBound(buf, width, height, y, x, width * y + x);
        var offset := PixelOffset(width, y, x);
        var r := buf[offset];
        var g := buf[offset + 1];
        var b := buf[offset + 2];
        pixelData := pixelData + [Pixel(r as int as real, g as int as real, b as int as real)];
        assert pixelData == Pixels(buf, width * y + x + 1);
      }
    }
  }

  /** The walk yields exactly `width * height` pixels, one per position: the
      pixel at column `x` of row `y` is at index `width * y + x` and holds the
      bytes at that position's offset; every channel is in 0..255. */
  lemma PixelDataRowMajor(buf: seq<Byte>, width: nat, height: nat)
    requires |buf| == width * height * 4
    ensures var r := Pixels(buf, width * height);
      |r| == width * height &&
      (forall i :: 0 <= i < |r| ==> ValidPixel(r[i])) &&
      forall y, x :: 0 <= y < height && 0 <= x < width ==>
        PixelIndex(width, y, x) < |r| &&
        r[PixelIndex(width, y, x)] ==
          Pixel(buf[PixelOffset(width, y, x)] as int as real, buf[PixelOffset(width, y, x) + 1] as int as real,
                buf[PixelOffset(width, y, x) + 2] as int as real)
  {
    var r := Pixels(buf, width * height);
    forall y, x | 0 <= y < height && 0 <= x < width
      ensures PixelIndex(width, y, x) < |r| &&
        r[PixelIndex(width, y, x)] ==
          Pixel(buf[PixelOffset(width, y, x)] as int as real, buf[PixelOffset(width, y, x) + 1] as int as real,
                buf[PixelOffset(width, y, x) + 2] as int as real)
    {
      RowMajorBound(buf, width, height, y, x, width * y + x);
    }
  }

  // ------------------------------------------------------------------
  // findClosestCluster

  /** The index of the first centre nearest to `p` (a later centre wins only
      when it is strictly nearer), 0 when there are no centres. */
  function Closest(p: Pixel, centers: seq<Pixel>): (k: nat)
    ensures centers == [] ==> k == 0
    ensures centers != [] ==> k < |centers|
    ensures forall j {:trigger SquaredDistance(p, centers[j])} :: 0 <= j < |centers| ==>
      SquaredDistance(p, centers[k]) <= SquaredDistance(p, centers[j])
    ensures forall j {:trigger SquaredDistance(p, centers[j])} :: 0 <= j < k ==>
      SquaredDistance(p, centers[j]) > SquaredDistance(p, centers[k])
  {
    if |centers| <= 1 then 0
    else
      var init := centers[..|centers| - 1];
      var k := Closest(p, init);
      assert forall j :: 0 <= j < |init| ==> init[j] == centers[j];
      if SquaredDistance(p, centers[|centers| - 1]) < SquaredDistance(p, centers[k]) then |centers| - 1 else k
  }

  /** `findClosestCluster`: scan the centres keeping the first strictly
      smallest distance. The start value `greatestFiniteMagnitude` exceeds any
      distance, so the first centre is always taken; that start is the state
      "no distance yet" here. */
  method FindClosestCluster(pixel: Pixel, clusters: seq<Cluster>) returns (closestIndex: nat)
    ensures closestIndex == Closest(pixel, Centers(clusters))
  {
    var centers := Centers(clusters);
    var minDistance: Option<real> := None;
    closestIndex := 0;
    for index := 0 to |clusters|
      invariant closestIndex == Closest(pixel, centers[..index])
      invariant minDistance == if index == 0 then None else Some(SquaredDistance(pixel, centers[closestIndex]))
    {
      ClosestSnoc(pixel, centers, index);
      var distance := SquaredDistance(pixel, clusters[index].center);
      if minDistance.None? || distance < minDistance.value {
        minDistance := Some(distance);
        closestIndex := index;
      }
    }
    assert centers[..|clusters|] == centers;
  }

  /** Scanning one more centre: the first one is taken, and a later one
      replaces the nearest so far only when it is strictly nearer. */
  lemma ClosestSnoc(p: Pixel, centers: seq<Pixel>, index: nat)
    requires index < |centers|
    ensures var k := Closest(p, centers[..index]);
      Closest(p, centers[..index + 1]) ==
        if index == 0 || SquaredDistance(p, centers[index]) < SquaredDistance(p, centers[k]) then index else k
  {
    var prefix := centers[..index + 1];
    assert prefix[..index] == centers[..index];
    assert prefix[index] == centers[index];
    if index > 0 {
      assert prefix[Closest(p, centers[..index])] == centers[Closest(p, centers[..index])];
    }
  }

  // ------------------------------------------------------------------
  // The assignment step

  /** The pixels, in order, whose nearest centre is number `c`. */
  function Members(pixels: seq<Pixel>, centers: seq<Pixel>, c: nat): (r: seq<Pixel>)
    ensures |r| <= |pixels|
  {
    if pixels == [] then []
    else
      var last := pixels[|pixels| - 1];
      Members(pixels[..|pixels| - 1], centers, c) + (if Closest(last, centers) == c then [last] else [])
  }

  lemma {:induction false} MembersAppend(a: seq<Pixel>, b: seq<Pixel>, centers: seq<Pixel>, c: nat)
    ensures Members(a + b, centers, c) == Members(a, centers, c) + Members(b, centers, c)
    decreases |b|
  {
    if b != [] {
      var b0 := b[..|b| - 1];
      assert (a + b)[..|a + b| - 1] == a + b0;
      var x := b[|b| - 1];
      assert (a + b)[|a + b| - 1] == x;
      var tail := if Closest(x, centers) == c then [x] else [];
      assert Members(a + b, centers, c) == Members(a + b0, centers, c) + tail;
      assert Members(b, centers, c) == Members(b0, centers, c) + tail;
      MembersAppend(a, b0, centers, c);
    } else {
      assert a + b == a;
    }
  }

  /** Each pixel belongs to exactly the member list of its nearest centre:
      every member of list `c` is a pixel whose nearest centre is `c`, and
      every pixel is in the list of its nearest centre. */
  lemma {:induction false} MembersExact(pixels: seq<Pixel>, centers: seq<Pixel>, c: nat)
    ensures forall q :: q in Members(pixels, centers, c) ==> q in pixels && Closest(q, centers) == c
    ensures forall k :: 0 <= k < |pixels| && Closest(pixels[k], centers) == c ==> pixels[k] in Members(pixels, centers, c)
  {
    if pixels != [] {
      var init := pixels[..|pixels| - 1];
      MembersExact(init, centers, c);
      forall k | 0 <= k < |pixels| - 1 ensures pixels[k] == init[k] {
      }
    }
  }

  /** The sizes of the member lists of centres 0..n-1. */
  function CountUpTo(pixels: seq<Pixel>, centers: seq<Pixel>, n: nat): nat {
    if n == 0 then 0 else CountUpTo(pixels, centers, n - 1) + |Members(pixels, centers, n - 1)|
  }

  lemma {:induction false} CountUpToSnoc(pixels: seq<Pixel>, p: Pixel, centers: seq<Pixel>, n: nat)
    ensures CountUpTo(pixels + [p], centers, n) ==
            CountUpTo(pixels, centers, n) + (if Closest(p, centers) < n then 1 else 0)
  {
    if n > 0 {
      CountUpToSnoc(pixels, p, centers, n - 1);
      assert (pixels + [p])[..|pixels|] == pixels;
      assert Members(pixels + [p], centers, n - 1) ==
        Members(pixels, centers, n - 1) + (if Closest(p, centers) == n - 1 then [p] else []);
    }
  }

  /** With at least one centre, the member lists together hold every pixel once. */
  lemma {:induction false} CountAll(pixels: seq<Pixel>, centers: seq<Pixel>)
    requires centers != []
    ensures CountUpTo(pixels, centers, |centers|) == |pixels|
  {
    if pixels != [] {
      var init := pixels[..|pixels| - 1];
      var p := pixels[|pixels| - 1];
      CountAll(init, centers);
      assert init + [p] == pixels;
      CountUpToSnoc(init, p, centers, |centers|);
      assert Closest(p, centers) < |centers|;
    } else {
      NoPixelsNoCount(centers, |centers|);
    }
  }

  lemma {:induction false} NoPixelsNoCount(centers: seq<Pixel>, n: nat)
    ensures CountUpTo([], centers, n) == 0
  {
    if n > 0 {
      NoPixelsNoCount(centers, n - 1);
    }
  }

  // ------------------------------------------------------------------
  // The update step

  /** `points.reduce(PixelData(0, 0, 0)) { channel-wise + }` */
  function Sum(points: seq<Pixel>): Pixel {
    if points == [] then Pixel(0.0, 0.0, 0.0)
    else
      var s := Sum(points[..|points| - 1]);
      var p := points[|points| - 1];
      Pixel(s.red + p.red, s.green + p.green, s.blue + p.blue)
  }

  /** The channel-wise mean `sum / count`. */
  function Mean(points: seq<Pixel>): Pixel
    requires points != []
  {
    var s := Sum(points);
    var n := |points| as real;
    Pixel(s.red / n, s.green / n, s.blue / n)
  }

  lemma {:induction false} SumWithin(points: seq<Pixel>)
    requires forall i :: 0 <= i < |points| ==> ValidPixel(points[i])
    ensures var s := Sum(points); var n := |points| as real;
      0.0 <= s.red <= 255.0 * n && 0.0 <= s.green <= 255.0 * n && 0.0 <= s.blue <= 255.0 * n
  {
    if points != [] {
      SumWithin(points[..|points| - 1]);
    }
  }

  lemma DivWithin(s: real, n: real)
    requires n > 0.0 && 0.0 <= s <= 255.0 * n
    ensures 0.0 <= s / n <= 255.0
  {
    var q := s / n;
    assert q * n == s;
    assert (255.0 - q) * n == 255.0 * n - s;
  }

  /** The mean of valid pixels is a valid pixel. */
  lemma MeanWithin(points: seq<Pixel>)
    requires points != []
    requires forall i :: 0 <= i < |points| ==> ValidPixel(points[i])
    ensures ValidPixel(Mean(points))
  {
    SumWithin(points);
    var s := Sum(points);
    var n := |points| as real;
    DivWithin(s.red, n);
    DivWithin(s.green, n);
    DivWithin(s.blue, n);
  }

  /** The update step for one cluster: a cluster with points moves its centre
      to their mean, an empty one keeps its centre. */
  function Recentered(cluster: Cluster): Cluster {
    if cluster.points == [] then cluster else Cluster(Mean(cluster.points), cluster.points)
  }

  /** The cluster `c` before the update step: its old centre and the pixels
      nearest to it. */
  function Assigned(pixels: seq<Pixel>, clusters: seq<Cluster>, c: nat): Cluster
    requires c < |clusters|
  {
    Cluster(clusters[c].center, Members(pixels, Centers(clusters), c))
  }

  /** The cluster `c` after one round. */
  function Regrouped(pixels: seq<Pixel>, clusters: seq<Cluster>, c: nat): Cluster
    requires c < |clusters|
  {
    Recentered(Assigned(pixels, clusters, c))
  }

  /** The update loop: `reduce` the points of each non-empty cluster to their
      channel sums and divide by the count. */
  method UpdateCenters(grouped: seq<Cluster>) returns (updated: seq<Cluster>)
    ensures |updated| == |grouped|
    ensures forall c :: 0 <= c < |grouped| ==> updated[c] == Recentered(grouped[c])
  {
    updated := grouped;
    for i := 0 to |updated|
      invariant |updated| == |grouped|
      invariant forall c :: 0 <= c < i ==> updated[c] == Recentered(grouped[c])
      invariant forall c :: i <= c < |grouped| ==> updated[c] == grouped[c]
    {
      if updated[i].points != [] {
        var sum := Sum(updated[i].points);
        var count := |updated[i].points| as real;
        updated := updated[i := Cluster(Pixel(sum.red / count, sum.green / count, sum.blue / count), updated[i].points)];
      }
    }
  }

  /** One k-means round. */
  function Iteration(pixels: seq<Pixel>, clusters: seq<Cluster>): (r: seq<Cluster>)
    ensures |r| == |clusters|
  {
    seq(|clusters|, c requires 0 <= c < |clusters| => Regrouped(pixels, clusters, c))
  }

  /** The number of points held by the clusters. */
  function MemberTotal(clusters: seq<Cluster>): nat {
    if clusters == [] then 0 else MemberTotal(clusters[..|clusters| - 1]) + |clusters[|clusters| - 1].points|
  }

  lemma {:induction false} MemberTotalIsCount(pixels: seq<Pixel>, clusters: seq<Cluster>, n: nat)
    requires n <= |clusters|
    ensures MemberTotal(Iteration(pixels, clusters)[..n]) == CountUpTo(pixels, Centers(clusters), n)
  {
    if n > 0 {
      var r := Iteration(pixels, clusters);
      assert r[..n][..n - 1] == r[..n - 1];
      MemberTotalIsCount(pixels, clusters, n - 1);
    }
  }

  /** One round keeps the number of clusters and puts every pixel in exactly
      one of them, the one whose old centre is nearest; a cluster left without
      pixels keeps its centre, any other moves to the mean of its pixels, and
      with pixels and old centres in 0..255 the new centres are too. */
  lemma IterationMeaning(pixels: seq<Pixel>, clusters: seq<Cluster>)
    ensures var r := Iteration(pixels, clusters);
      |r| == |clusters| &&
      (clusters != [] ==> MemberTotal(r) == |pixels|) &&
      (forall c :: 0 <= c < |r| ==> r[c].points == Members(pixels, Centers(clusters), c)) &&
      (forall c :: 0 <= c < |r| && r[c].points == [] ==> r[c].center == clusters[c].center) &&
      (forall c :: 0 <= c < |r| && r[c].points != [] ==> r[c].center == Mean(r[c].points))
    ensures (forall i :: 0 <= i < |pixels| ==> ValidPixel(pixels[i])) &&
            (forall c :: 0 <= c < |clusters| ==> ValidPixel(clusters[c].center)) ==>
            forall c :: 0 <= c < |clusters| ==> ValidPixel(Iteration(pixels, clusters)[c].center)
  {
    var r := Iteration(pixels, clusters);
    if clusters != [] {
      MemberTotalIsCount(pixels, clusters, |clusters|);
      assert r[..|clusters|] == r;
      CountAll(pixels, Centers(clusters));
    }
    if (forall i :: 0 <= i < |pixels| ==> ValidPixel(pixels[i])) &&
       (forall c :: 0 <= c < |clusters| ==> ValidPixel(clusters[c].center)) {
      forall c | 0 <= c < |clusters| ensures ValidPixel(r[c].center) {
        var m := Members(pixels, Centers(clusters), c);
        if m != [] {
          MembersExact(pixels, Centers(clusters), c);
          forall i | 0 <= i < |m| ensures ValidPixel(m[i]) {
            assert m[i] in m;
          }
          MeanWithin(m);
        }
      }
    }
  }

  /** `rounds` k-means rounds. */
  function Iterate(pixels: seq<Pixel>, clusters: seq<Cluster>, rounds: nat): (r: seq<Cluster>)
    ensures |r| == |clusters|
    decreases rounds
  {
    if rounds == 0 then clusters else Iterate(pixels, Iteration(pixels, clusters), rounds - 1)
  }

  /** Centres that start in 0..255 stay there through any number of rounds. */
  lemma {:induction false} IterateValid(pixels: seq<Pixel>, clusters: seq<Cluster>, rounds: nat)
    requires forall i :: 0 <= i < |pixels| ==> ValidPixel(pixels[i])
    requires forall c :: 0 <= c < |clusters| ==> ValidPixel(clusters[c].center)
    ensures forall c :: 0 <= c < |clusters| ==> ValidPixel(Iterate(pixels, clusters, rounds)[c].center)
    decreases rounds
  {
    if rounds > 0 {
      IterationMeaning(pixels, clusters);
      IterateValid(pixels, Iteration(pixels, clusters), rounds - 1);
    }
  }
}
