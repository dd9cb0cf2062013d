/** Reading a drawn RGBA bitmap (4 bytes per pixel, row-major, alpha last) and
    counting its quantized colours. The median-cut, DBSCAN and weighted-score
    extractors each run this same nested row/column loop, differing only in
    how many low bits they clear. A Swift dictionary becomes a sequence of
    entries with distinct keys; its order is the order in which keys were
    first met, one of the orders a dictionary may iterate in. */
module Sampling {
  import opened Colors

  datatype Entry = Entry(key: Rgb, count: nat)

  type Histogram = seq<Entry>

  predicate DistinctKeys(h: Histogram) {
    forall i, j :: 0 <= i < j < |h| ==> h[i].key != h[j].key
  }

  /** Sum of all counts. */
  function Total(h: Histogram): nat {
    if h == [] then 0 else Total(h[..|h| - 1]) + h[|h| - 1].count
  }

  function Occurrences(s: seq<Rgb>, c: Rgb): nat {
    if s == [] then 0 else Occurrences(s[..|s| - 1], c) + (if s[|s| - 1] == c then 1 else 0)
  }

  /** Index of the entry for key `c`, or -1. */
  function Find(h: Histogram, c: Rgb): (i: int)
    ensures -1 <= i < |h|
    ensures i >= 0 ==> h[i].key == c
    ensures i == -1 ==> forall j :: 0 <= j < |h| ==> h[j].key != c
  {
    if h == [] then -1
    else if h[0].key == c then 0
    else
      var k := Find(h[1..], c);
      if k < 0 then -1 else k + 1
  }

  /** `histogram[key, default: 0] += 1` */
  function Add(h: Histogram, c: Rgb): Histogram {
    var i := Find(h, c);
    if i < 0 then h + [Entry(c, 1)] else h[i := Entry(c, h[i].count + 1)]
  }

  lemma {:induction false} TotalAppend(h: Histogram, e: Entry)
    ensures Total(h + [e]) == Total(h) + e.count
  {
    assert (h + [e])[..|h|] == h;
  }

  lemma {:induction false} TotalCons(e: Entry, h: Histogram)
    ensures Total([e] + h) == e.count + Total(h)
    decreases |h|
  {
    if h != [] {
      var h0 := h[..|h| - 1];
      assert ([e] + h)[..|h|] == [e] + h0;
      TotalCons(e, h0);
    }
  }

  lemma {:induction false} TotalBump(h: Histogram, i: nat)
    requires i < |h|
    ensures Total(h[i := Entry(h[i].key, h[i].count + 1)]) == Total(h) + 1
    decreases |h|
  {
    var h' := h[i := Entry(h[i].key, h[i].count + 1)];
    if i < |h| - 1 {
      assert h'[..|h'| - 1] == h[..|h| - 1][i := Entry(h[i].key, h[i].count + 1)];
      TotalBump(h[..|h| - 1], i);
    } else {
      assert h'[..|h'| - 1] == h[..|h| - 1];
    }
  }

  /** `h` is the histogram of `s`: one entry per distinct colour of `s`, holding
      the number of times it occurs. */
  ghost predicate Counts(h: Histogram, s: seq<Rgb>) {
    DistinctKeys(h) &&
    Total(h) == |s| &&
    (forall i :: 0 <= i < |h| ==> h[i].count == Occurrences(s, h[i].key) && h[i].count >= 1) &&
    (forall c :: c in s <==> exists i :: 0 <= i < |h| && h[i].key == c)
  }

  lemma AddCounts(h: Histogram, s: seq<Rgb>, c: Rgb)
    requires Counts(h, s)
    ensures Counts(Add(h, c), s + [c])
  {
    if Find(h, c) < 0 {
      AddNewCounts(h, s, c);
    } else {
      AddBumpCounts(h, s, c, Find(h, c));
    }
  }

  /** A colour not yet counted is appended with count 1. */
  lemma AddNewCounts(h: Histogram, s: seq<Rgb>, c: Rgb)
    requires Counts(h, s) && Find(h, c) < 0
    ensures Counts(h + [Entry(c, 1)], s + [c])
  {
    var s' := s + [c];
    assert s'[..|s|] == s;
    TotalAppend(h, Entry(c, 1));
    var h' := h + [Entry(c, 1)];
    assert c !in s;
    OccursIn(s, c);
    forall j | 0 <= j < |h'| ensures h'[j].count == Occurrences(s', h'[j].key) {
      if j < |h| {
        assert h'[j] == h[j];
      }
    }
    forall x ensures x in s' <==> exists j :: 0 <= j < |h'| && h'[j].key == x {
      if x in s' && x != c {
        assert x in s;
        var j :| 0 <= j < |h| && h[j].key == x;
        assert h'[j].key == x;
      }
      if x == c {
        assert h'[|h|].key == x;
      }
    }
  }

  /** A colour already counted at index `i` has its count raised by one. */
  lemma AddBumpCounts(h: Histogram, s: seq<Rgb>, c: Rgb, i: int)
    requires Counts(h, s) && 0 <= i < |h| && h[i].key == c
    ensures Counts(h[i := Entry(c, h[i].count + 1)], s + [c])
  {
    var s' := s + [c];
    assert s'[..|s|] == s;
    TotalBump(h, i);
    var h' := h[i := Entry(c, h[i].count + 1)];
    forall x ensures x in s' <==> exists j :: 0 <= j < |h'| && h'[j].key == x {
      if x in s' && x != c {
        assert x in s;
        var j :| 0 <= j < |h| && h[j].key == x;
        assert h'[j].key == x;
      }
      if x == c {
        assert h'[i].key == x;
      }
    }
  }


  /** The histogram of a sequence of colours, built one colour at a time. */
  function HistogramOf(s: seq<Rgb>): Histogram {
    if s == [] then [] else Add(HistogramOf(s[..|s| - 1]), s[|s| - 1])
  }

  /** The histogram has one bucket per distinct colour, holding the number of
      times that colour occurs; the buckets add up to the number of colours. */
  lemma {:induction false} HistogramOfCounts(s: seq<Rgb>)
    ensures Counts(HistogramOf(s), s)
  {
    if s != [] {
      var s0 := s[..|s| - 1];
      assert s == s0 + [s[|s| - 1]];
      HistogramOfCounts(s0);
      AddCounts(HistogramOf(s0), s0, s[|s| - 1]);
    }
  }

  lemma HistogramOfStep(s: seq<Rgb>, c: Rgb)
    ensures HistogramOf(s + [c]) == Add(HistogramOf(s), c)
  {
    assert (s + [c])[..|s|] == s;
  }

  /** A colour absent from the image gets no bucket; a present one has a bucket
      holding the number of times it occurs. */
  lemma HistogramCounts(s: seq<Rgb>, c: Rgb)
    ensures Occurrences(s, c) == 0 <==> Find(HistogramOf(s), c) == -1
    ensures Find(HistogramOf(s), c) >= 0 ==> HistogramOf(s)[Find(HistogramOf(s), c)].count == Occurrences(s, c)
  {
    var h := HistogramOf(s);
    HistogramOfCounts(s);
    OccursIn(s, c);
    if c in s {
      var i :| 0 <= i < |h| && h[i].key == c;
    }
  }

  lemma {:induction false} OccursIn(s: seq<Rgb>, c: Rgb)
    ensures Occurrences(s, c) > 0 <==> c in s
  {
    if s != [] {
      OccursIn(s[..|s| - 1], c);
      assert s == s[..|s| - 1] + [s[|s| - 1]];
    }
  }

  /** Byte offset of pixel (x, y): `((width * y) + x) * bytesPerPixel`. */
  function PixelOffset(width: nat, y: nat, x: nat): nat {
    (width * y + x) * 4
  }

  /** Row-major order visits pixel number `width * y + x` at (x, y). */
  lemma RowMajorBound(buf: seq<Byte>, width: nat, height: nat, y: nat, x: nat, n: nat)
    requires |buf| == width * height * 4
    requires y < height && x < width && n == width * y + x
    ensures PixelOffset(width, y, x) == 4 * n
    ensures 4 * (n + 1) <= |buf|
  {
    assert width * y + x < width * (y + 1);
    assert width * (y + 1) <= width * height;
  }

  /** The row after row `y` starts `width` pixels later. */
  lemma NextRow(width: nat, y: nat)
    ensures width * (y + 1) == width * y + width
  {
  }

  /** The quantized colours of the opaque pixels among the first `n` pixels, in
      buffer order. */
  function Samples(buf: seq<Byte>, n: nat, shift: nat): seq<Rgb>
    requires 4 * n <= |buf|
  {
    if n == 0 then []
    else
      var rest := Samples(buf, n - 1, shift);
      var o := 4 * (n - 1);
      if IsOpaque(buf[o + 3] as int) then
        rest + [QuantizeRgb(Rgb(buf[o] as int, buf[o + 1] as int, buf[o + 2] as int), shift)]
      else rest
  }

  /** One pixel of the scan: an opaque pixel bumps its bucket, any other pixel
      leaves the histogram as it was. */
  lemma ScanStep(buf: seq<Byte>, n: nat, shift: nat, h: Histogram, r: int, g: int, b: int, alpha: int)
    requires 4 * (n + 1) <= |buf|
    requires h == HistogramOf(Samples(buf, n, shift))
    requires r == buf[4 * n] as int && g == buf[4 * n + 1] as int && b == buf[4 * n + 2] as int
    requires alpha == buf[4 * n + 3] as int
    ensures (if IsOpaque(alpha) then Add(h, QuantizeRgb(Rgb(r, g, b), shift)) else h) ==
            HistogramOf(Samples(buf, n + 1, shift))
  {
    if IsOpaque(alpha) {
      HistogramOfStep(Samples(buf, n, shift), QuantizeRgb(Rgb(r, g, b), shift));
    }
  }

  /** Every sample is a quantized colour of bytes. */
  lemma {:induction false} SamplesQuantized(buf: seq<Byte>, n: nat, shift: nat)
    requires 4 * n <= |buf|
    ensures forall c :: c in Samples(buf, n, shift) ==>
      c.r % Pow2(shift) == 0 && c.g % Pow2(shift) == 0 && c.b % Pow2(shift) == 0 &&
      0 <= c.r < 256 && 0 <= c.g < 256 && 0 <= c.b < 256
  {
    if n > 0 {
      SamplesQuantized(buf, n - 1, shift);
    }
  }

  /** The number of the first `n` pixels whose alpha is above the cut-off. */
  function OpaqueCount(buf: seq<Byte>, n: nat): nat
    requires 4 * n <= |buf|
  {
    if n == 0 then 0
    else OpaqueCount(buf, n - 1) + (if IsOpaque(buf[4 * (n - 1) + 3] as int) then 1 else 0)
  }

  lemma {:induction false} SamplesLength(buf: seq<Byte>, n: nat, shift: nat)
    requires 4 * n <= |buf|
    ensures |Samples(buf, n, shift)| == OpaqueCount(buf, n)
  {
    if n > 0 {
      SamplesLength(buf, n - 1, shift);
    }
  }

  /** The row/column scan: every opaque pixel adds one to the bucket of its
      quantized colour, every other pixel is skipped. */
  method BuildHistogram(buf: seq<Byte>, width: nat, height: nat, shift: nat) returns (h: Histogram)
    requires |buf| == width * height * 4
    ensures h == HistogramOf(Samples(buf, width * height, shift))
  {
    h := [];
    ghost var n: nat := 0;
    for y := 0 to height
      invariant n == width * y && 4 * n <= |buf|
      invariant h == HistogramOf(Samples(buf, n, shift))
    {
      ghost var rowStart := n;
      for x := 0 to width
        invariant n == rowStart + x && 4 * n <= |buf|
        invariant h == HistogramOf(Samples(buf, n, shift))
      {
        RowMajorBound(buf, width, height, y, x, n);
        var offset := PixelOffset(width, y, x);
        var r := buf[offset] as int;
        var g := buf[offset + 1] as int;
        var b := buf[offset + 2] as int;
        var alpha := buf[offset + 3] as int;
        ScanStep(buf, n, shift, h, r, g, b, alpha);
        if IsOpaque(alpha) {
          var key := QuantizeRgb(Rgb(r, g, b), shift);
          h := Add(h, key);
        }
        n := n + 1;
      }
      NextRow(width, y);
    }
  }

  /** What a histogram built from a drawn buffer holds: distinct quantized byte
      keys whose counts add up to the number of opaque pixels. */
  lemma HistogramOfBuffer(buf: seq<Byte>, width: nat, height: nat, shift: nat)
    requires |buf| == width * height * 4
    ensures var h := HistogramOf(Samples(buf, width * height, shift));
      DistinctKeys(h) &&
      Total(h) == OpaqueCount(buf, width * height) &&
      forall i :: 0 <= i < |h| ==>
        h[i].count >= 1 &&
        h[i].key.r % Pow2(shift) == 0 && h[i].key.g % Pow2(shift) == 0 && h[i].key.b % Pow2(shift) == 0 &&
        0 <= h[i].key.r < 256 && 0 <= h[i].key.g < 256 && 0 <= h[i].key.b < 256
  {
    var s := Samples(buf, width * height, shift);
    SamplesLength(buf, width * height, shift);
    SamplesQuantized(buf, width * height, shift);
    var h := HistogramOf(s);
    HistogramOfCounts(s);
    forall i | 0 <= i < |h| ensures h[i].key in s {
    }
  }
}
