/** Modified median-cut quantization: colour keys with 5 bits per channel,
    colour boxes (a closed range per channel plus the histogram entries inside
    it), the population-median split along the longest axis and the loop that
    splits boxes until the target count is reached. */
module MedianCut {
  import opened Colors
  import opened Sorting
  import opened Sampling

  /** A `ColorKey` keeps the top 5 bits of every channel. */
  const KeyShift: nat := 3

  /** `ColorKey.init`: each channel rounded down to a multiple of 8. */
  function ColorKey(r: int, g: int, b: int): (k: Rgb)
    ensures k.r % 8 == 0 && k.g % 8 == 0 && k.b % 8 == 0
    ensures k.r <= r < k.r + 8 && k.g <= g < k.g + 8 && k.b <= b < k.b + 8
  {
    assert Pow2(KeyShift) == 8;
    QuantizeRgb(Rgb(r, g, b), KeyShift)
  }

  /** Building a key from a key changes nothing. */
  lemma ColorKeyIdempotent(r: int, g: int, b: int)
    ensures var k := ColorKey(r, g, b); ColorKey(k.r, k.g, k.b) == k
  {
    QuantizeIdempotent(r, KeyShift);
    QuantizeIdempotent(g, KeyShift);
    QuantizeIdempotent(b, KeyShift);
  }

  /** `buildColorHistogram`: the shared scan with 5-bit keys. The counts add up
      to the number of pixels whose alpha is above the cut-off. */
  method BuildColorHistogram(buf: seq<Byte>, width: nat, height: nat) returns (h: Histogram)
    requires |buf| == width * height * 4
    ensures h == HistogramOf(Samples(buf, width * height, KeyShift))
    ensures DistinctKeys(h) && Total(h) == OpaqueCount(buf, width * height)
    ensures forall i :: 0 <= i < |h| ==>
      h[i].count >= 1 && h[i].key == ColorKey(h[i].key.r, h[i].key.g, h[i].key.b) &&
      0 <= h[i].key.r < 256 && 0 <= h[i].key.g < 256 && 0 <= h[i].key.b < 256
  {
    h := BuildHistogram(buf, width, height, KeyShift);
    HistogramOfBuffer(buf, width, height, KeyShift);
    forall i | 0 <= i < |h|
      ensures h[i].key == ColorKey(h[i].key.r, h[i].key.g, h[i].key.b)
    {
      var k := h[i].key;
      DivModUnique(k.r, Pow2(KeyShift), k.r / Pow2(KeyShift), 0);
      DivModUnique(k.g, Pow2(KeyShift), k.g / Pow2(KeyShift), 0);
      DivModUnique(k.b, Pow2(KeyShift), k.b / Pow2(KeyShift), 0);
    }
  }

  datatype Axis = Red | Green | Blue

  function Channel(c: Rgb, a: Axis): int {
    match a
    case Red => c.r
    case Green => c.g
    case Blue => c.b
  }

  /** The six inclusive range fields of a box. */
  datatype Bounds = Bounds(rMin: int, rMax: int, gMin: int, gMax: int, bMin: int, bMax: int)

  function Lo(b: Bounds, a: Axis): int {
    match a
    case Red => b.rMin
    case Green => b.gMin
    case Blue => b.bMin
  }

  function Hi(b: Bounds, a: Axis): int {
    match a
    case Red => b.rMax
    case Green => b.gMax
    case Blue => b.bMax
  }

  function Range(b: Bounds, a: Axis): int {
    Hi(b, a) - Lo(b, a)
  }

  predicate Inside(b: Bounds, c: Rgb) {
    b.rMin <= c.r <= b.rMax && b.gMin <= c.g <= b.gMax && b.bMin <= c.b <= b.bMax
  }

  predicate AllInside(h: Histogram, b: Bounds) {
    forall i :: 0 <= i < |h| ==> Inside(b, h[i].key)
  }

  /** `histogram.filter { key inside all three ranges }` */
  function FilterInside(h: Histogram, b: Bounds): (f: Histogram)
    ensures forall i :: 0 <= i < |f| ==> f[i] in h
    ensures forall i :: 0 <= i < |h| && Inside(b, h[i].key) ==> h[i] in f
    ensures AllInside(f, b)
  {
    if h == [] then []
    else
      var f0 := FilterInside(h[1..], b);
      assert forall i :: 1 <= i < |h| ==> h[i] == h[1..][i - 1];
      if Inside(b, h[0].key) then [h[0]] + f0 else f0
  }

  /** Filtering keeps the keys distinct. */
  lemma {:induction false} FilterInsideDistinct(h: Histogram, b: Bounds)
    requires DistinctKeys(h)
    ensures DistinctKeys(FilterInside(h, b))
    decreases |h|
  {
    if h != [] {
      var f0 := FilterInside(h[1..], b);
      assert DistinctKeys(h[1..]);
      FilterInsideDistinct(h[1..], b);
      if Inside(b, h[0].key) {
        forall k | 0 <= k < |f0| ensures f0[k].key != h[0].key {
          assert f0[k] in h[1..];
          var m :| 0 <= m < |h[1..]| && h[1..][m] == f0[k];
          assert h[m + 1] == f0[k];
        }
        var f := [h[0]] + f0;
        forall i, j | 0 <= i < j < |f| ensures f[i].key != f[j].key {
          if i == 0 {
            assert f[j] == f0[j - 1];
          } else {
            assert f[i] == f0[i - 1] && f[j] == f0[j - 1];
          }
        }
      }
    }
  }

  function Volume(b: Bounds): int {
    (b.rMax - b.rMin + 1) * (b.gMax - b.gMin + 1) * (b.bMax - b.bMin + 1)
  }

  /** A colour box: its ranges, the histogram entries inside them, the number of
      representable colours and the number of pixels. */
  datatype ColorBox = ColorBox(bounds: Bounds, histogram: Histogram, volume: int, population: nat)

  predicate WellFormed(box: ColorBox) {
    AllInside(box.histogram, box.bounds) &&
    box.population == Total(box.histogram) &&
    box.volume == Volume(box.bounds)
  }

  /** `ColorBox.init`: keeps exactly the entries whose key lies in all three
      ranges, counts their pixels and measures the box. */
  function MakeBox(b: Bounds, h: Histogram): (box: ColorBox)
    ensures box.bounds == b
    ensures forall i :: 0 <= i < |box.histogram| ==> box.histogram[i] in h
    ensures forall i :: 0 <= i < |h| && Inside(b, h[i].key) ==> h[i] in box.histogram
    ensures box.population == Total(box.histogram)
    ensures WellFormed(box)
  {
    var f := FilterInside(h, b);
    ColorBox(b, f, Volume(b), Total(f))
  }

  /** A box over a histogram with distinct keys has distinct keys. */
  lemma MakeBoxDistinct(b: Bounds, h: Histogram)
    requires DistinctKeys(h)
    ensures DistinctKeys(MakeBox(b, h).histogram)
  {
    FilterInsideDistinct(h, b);
  }

  /** Filtering a histogram that already lies in the box keeps all of it. */
  lemma {:induction false} FilterInsideAll(h: Histogram, b: Bounds)
    requires AllInside(h, b)
    ensures FilterInside(h, b) == h
  {
    if h != [] {
      FilterInsideAll(h[1..], b);
      assert [h[0]] + h[1..] == h;
    }
  }

  /** `longestDimension`: an axis of largest range; ties go to red, then green. */
  function LongestDimension(b: Bounds): (a: Axis)
    ensures forall x :: Range(b, x) <= Range(b, a)
    ensures a == Green ==> Range(b, Red) < Range(b, Green)
    ensures a == Blue ==> Range(b, Red) < Range(b, Blue) && Range(b, Green) < Range(b, Blue)
  {
    var rRange := b.rMax - b.rMin;
    var gRange := b.gMax - b.gMin;
    var bRange := b.bMax - b.bMin;
    if rRange >= gRange && rRange >= bRange then Red
    else if gRange >= bRange then Green
    else Blue
  }

  /** `canSplit`: more than one pixel, and some range wider than one value. */
  predicate CanSplit(box: ColorBox) {
    box.population > 1 &&
    (box.bounds.rMax > box.bounds.rMin || box.bounds.gMax > box.bounds.gMin || box.bounds.bMax > box.bounds.bMin)
  }

  /** A box whose ranges are all a single value cannot be split. */
  lemma PointBoxCannotSplit(box: ColorBox)
    requires forall a :: Lo(box.bounds, a) == Hi(box.bounds, a)
    ensures !CanSplit(box)
  {
    assert Lo(box.bounds, Red) == Hi(box.bounds, Red);
    assert Lo(box.bounds, Green) == Hi(box.bounds, Green);
    assert Lo(box.bounds, Blue) == Hi(box.bounds, Blue);
  }

  /** The left child: the split axis ends at the split value. */
  function Lower(b: Bounds, a: Axis, v: int): Bounds {
    match a
    case Red => b.(rMax := v)
    case Green => b.(gMax := v)
    case Blue => b.(bMax := v)
  }

  /** The right child: the split axis starts just after the split value. */
  function Upper(b: Bounds, a: Axis, v: int): Bounds {
    match a
    case Red => b.(rMin := v + 1)
    case Green => b.(gMin := v + 1)
    case Blue => b.(bMin := v + 1)
  }

  /** The right child as the green branch of `split` builds it: the green range
      starts at `gMin + 1` whatever the split value. */
  function UpperAsWritten(b: Bounds, a: Axis, v: int): Bounds {
    match a
    case Red => b.(rMin := v + 1)
    case Green => b.(gMin := b.gMin + 1)
    case Blue => b.(bMin := v + 1)
  }

  /** Ascending order along an axis, as a descending order on the negated value. */
  function AxisOrder(a: Axis): Entry -> real {
    (e: Entry) => -(Channel(e.key, a) as real)
  }

  predicate Ascending(s: seq<Entry>, a: Axis) {
    forall i, j :: 0 <= i < j < |s| ==> Channel(s[i].key, a) <= Channel(s[j].key, a)
  }

  /** The box's entries sorted by their value on the axis. */
  function SortedByAxis(h: Histogram, a: Axis): (s: seq<Entry>)
    ensures multiset(s) == multiset(h) && |s| == |h|
    ensures Ascending(s, a)
  {
    var s := SortDesc(h, AxisOrder(a));
    assert forall i, j :: 0 <= i < j < |s| ==> AxisOrder(a)(s[i]) >= AxisOrder(a)(s[j]);
    s
  }

  /** The value the median scan settles on: walking the sorted entries with a
      running count that starts at `acc`, the axis value of the first entry at
      which the count reaches `target` (0 if it never does). */
  function ScanSplit(s: seq<Entry>, a: Axis, target: int, acc: int): int
    decreases |s|
  {
    if s == [] then 0
    else if acc + s[0].count >= target then Channel(s[0].key, a)
    else ScanSplit(s[1..], a, target, acc + s[0].count)
  }

  /** Pixels whose value on the axis is at most `v`. */
  function CountAtMost(h: Histogram, a: Axis, v: int): nat {
    if h == [] then 0
    else (if Channel(h[0].key, a) <= v then h[0].count else 0) + CountAtMost(h[1..], a, v)
  }

  lemma {:induction false} CountAtMostConcat(x: Histogram, y: Histogram, a: Axis, v: int)
    ensures CountAtMost(x + y, a, v) == CountAtMost(x, a, v) + CountAtMost(y, a, v)
    decreases |x|
  {
    if x == [] {
      assert x + y == y;
    } else {
      assert (x + y)[0] == x[0];
      assert (x + y)[1..] == x[1..] + y;
      CountAtMostConcat(x[1..], y, a, v);
    }
  }

  lemma RemoveAtMultiset(t: Histogram, k: nat)
    requires k < |t|
    ensures multiset(t[..k] + t[k + 1..]) == multiset(t) - multiset{t[k]}
  {
    assert t == t[..k] + [t[k]] + t[k + 1..];
  }

  lemma RemoveAtCount(t: Histogram, k: nat, a: Axis, v: int)
    requires k < |t|
    ensures CountAtMost(t, a, v) ==
            CountAtMost(t[..k] + t[k + 1..], a, v) + (if Channel(t[k].key, a) <= v then t[k].count else 0)
  {
    assert t == t[..k] + [t[k]] + t[k + 1..];
    CountAtMostConcat(t[..k] + [t[k]], t[k + 1..], a, v);
    CountAtMostConcat(t[..k], [t[k]], a, v);
    CountAtMostConcat(t[..k], t[k + 1..], a, v);
  }

  lemma TailMultiset<T>(s: seq<T>)
    requires s != []
    ensures multiset(s[1..]) == multiset(s) - multiset{s[0]}
  {
    assert s == [s[0]] + s[1..];
  }

  /** The count does not depend on the order of the entries. */
  lemma {:induction false} CountAtMostPermutation(s: Histogram, t: Histogram, a: Axis, v: int)
    requires multiset(s) == multiset(t)
    ensures CountAtMost(s, a, v) == CountAtMost(t, a, v)
    decreases |s|
  {
    if s == [] {
      assert |t| == |multiset(t)| == 0;
    } else {
      var e := s[0];
      assert e in multiset(t);
      var k :| 0 <= k < |t| && t[k] == e;
      var rest := t[..k] + t[k + 1..];
      TailMultiset(s);
      RemoveAtMultiset(t, k);
      RemoveAtCount(t, k, a, v);
      CountAtMostPermutation(s[1..], rest, a, v);
      assert CountAtMost(s, a, v) == (if Channel(e.key, a) <= v then e.count else 0) + CountAtMost(s[1..], a, v);
    }
  }

  /** With every value at most `v`, the count is the whole population. */
  lemma {:induction false} CountAtMostAll(h: Histogram, a: Axis, v: int)
    requires forall i :: 0 <= i < |h| ==> Channel(h[i].key, a) <= v
    ensures CountAtMost(h, a, v) == Total(h)
    decreases |h|
  {
    if h != [] {
      CountAtMostAll(h[1..], a, v);
      TotalCons(h[0], h[1..]);
      assert [h[0]] + h[1..] == h;
    }
  }

  lemma {:induction false} CountAtMostNone(h: Histogram, a: Axis, v: int)
    requires forall i :: 0 <= i < |h| ==> Channel(h[i].key, a) > v
    ensures CountAtMost(h, a, v) == 0
    decreases |h|
  {
    if h != [] {
      CountAtMostNone(h[1..], a, v);
    }
  }

  lemma AscendingTail(s: seq<Entry>, a: Axis)
    requires Ascending(s, a) && s != []
    ensures Ascending(s[1..], a)
  {
  }

  /** The scan lands on an axis value of some entry; the pixels at or below it
      reach the target, those strictly below it do not. This characterisation
      does not depend on the order of entries that share an axis value. */
  lemma {:induction false} ScanSplitMedian(s: seq<Entry>, a: Axis, target: int, acc: int)
    requires Ascending(s, a)
    requires acc < target <= acc + Total(s)
    ensures var v := ScanSplit(s, a, target, acc);
      (exists k :: 0 <= k < |s| && Channel(s[k].key, a) == v) &&
      acc + CountAtMost(s, a, v) >= target &&
      acc + CountAtMost(s, a, v - 1) < target
    decreases |s|
  {
    TotalCons(s[0], s[1..]);
    assert [s[0]] + s[1..] == s;
    if acc + s[0].count >= target {
      MedianAtHead(s, a, target, acc);
    } else {
      AscendingTail(s, a);
      ScanSplitMedian(s[1..], a, target, acc + s[0].count);
      MedianPastHead(s, a, target, acc);
    }
  }

  /** The scan stops at the first key: it is the median. */
  lemma MedianAtHead(s: seq<Entry>, a: Axis, target: int, acc: int)
    requires Ascending(s, a) && s != []
    requires acc < target <= acc + s[0].count
    ensures var v := ScanSplit(s, a, target, acc);
      v == Channel(s[0].key, a) &&
      acc + CountAtMost(s, a, v) >= target &&
      acc + CountAtMost(s, a, v - 1) < target
  {
    var c0 := Channel(s[0].key, a);
    assert CountAtMost(s, a, c0) == s[0].count + CountAtMost(s[1..], a, c0);
    assert CountAtMost(s, a, c0 - 1) == CountAtMost(s[1..], a, c0 - 1);
    forall i | 0 <= i < |s[1..]| ensures Channel(s[1..][i].key, a) > c0 - 1 {
      assert s[1..][i] == s[i + 1];
    }
    CountAtMostNone(s[1..], a, c0 - 1);
  }

  /** The scan passes the first key: the median of the rest is the median. */
  lemma MedianPastHead(s: seq<Entry>, a: Axis, target: int, acc: int)
    requires Ascending(s, a) && s != []
    requires acc + s[0].count < target
    requires var v := ScanSplit(s[1..], a, target, acc + s[0].count);
      (exists k :: 0 <= k < |s[1..]| && Channel(s[1..][k].key, a) == v) &&
      acc + s[0].count + CountAtMost(s[1..], a, v) >= target &&
      acc + s[0].count + CountAtMost(s[1..], a, v - 1) < target
    ensures var v := ScanSplit(s, a, target, acc);
      (exists k :: 0 <= k < |s| && Channel(s[k].key, a) == v) &&
      acc + CountAtMost(s, a, v) >= target &&
      acc + CountAtMost(s, a, v - 1) < target
  {
    var v := ScanSplit(s[1..], a, target, acc + s[0].count);
    assert ScanSplit(s, a, target, acc) == v;
    var k :| 0 <= k < |s[1..]| && Channel(s[1..][k].key, a) == v;
    assert s[k + 1] == s[1..][k];
    var c0 := Channel(s[0].key, a);
    assert c0 <= v;
    assert CountAtMost(s, a, v) == s[0].count + CountAtMost(s[1..], a, v);
    assert CountAtMost(s, a, v - 1) <= s[0].count + CountAtMost(s[1..], a, v - 1);
  }


  lemma InsideLower(b: Bounds, a: Axis, v: int, c: Rgb)
    requires Inside(b, c)
    ensures Inside(Lower(b, a, v), c) <==> Channel(c, a) <= v
    ensures Inside(Upper(b, a, v), c) <==> Channel(c, a) > v
  {
  }

  /** Lower child population: the box's pixels at or below the split value;
      upper child population: the rest. */
  lemma ChildCounts(h: Histogram, b: Bounds, a: Axis, v: int)
    requires AllInside(h, b)
    ensures Total(FilterInside(h, Lower(b, a, v))) == CountAtMost(h, a, v)
    ensures Total(FilterInside(h, Upper(b, a, v))) == Total(h) - CountAtMost(h, a, v)
  {
    LowerChildCount(h, b, a, v);
    UpperChildCount(h, b, a, v);
  }

  lemma {:induction false} LowerChildCount(h: Histogram, b: Bounds, a: Axis, v: int)
    requires AllInside(h, b)
    ensures Total(FilterInside(h, Lower(b, a, v))) == CountAtMost(h, a, v)
    decreases |h|
  {
    if h != [] {
      var t := h[1..];
      assert AllInside(t, b) by {
        forall i | 0 <= i < |t| ensures Inside(b, t[i].key) {
          assert t[i] == h[i + 1];
        }
      }
      LowerChildCount(t, b, a, v);
      InsideLower(b, a, v, h[0].key);
      TotalCons(h[0], FilterInside(t, Lower(b, a, v)));
    }
  }

  lemma {:induction false} UpperChildCount(h: Histogram, b: Bounds, a: Axis, v: int)
    requires AllInside(h, b)
    ensures Total(FilterInside(h, Upper(b, a, v))) == Total(h) - CountAtMost(h, a, v)
    decreases |h|
  {
    if h != [] {
      var t := h[1..];
      assert AllInside(t, b) by {
        forall i | 0 <= i < |t| ensures Inside(b, t[i].key) {
          assert t[i] == h[i + 1];
        }
      }
      UpperChildCount(t, b, a, v);
      InsideLower(b, a, v, h[0].key);
      TotalCons(h[0], t);
      assert [h[0]] + t == h;
      TotalCons(h[0], FilterInside(t, Upper(b, a, v)));
    }
  }


  /** Cutting at `v` divides the pixels of a box between the two children. */
  lemma SplitPopulations(box: ColorBox, a: Axis, v: int)
    requires WellFormed(box)
    ensures MakeBox(Lower(box.bounds, a, v), box.histogram).population +
            MakeBox(Upper(box.bounds, a, v), box.histogram).population == box.population
    ensures MakeBox(Lower(box.bounds, a, v), box.histogram).population == CountAtMost(box.histogram, a, v)
  {
    ChildCounts(box.histogram, box.bounds, a, v);
  }

  /** `split` returns nil unless the box can be split and both children hold
      pixels. */
  function SplitOf(box: ColorBox): Option<(ColorBox, ColorBox)> {
    if !CanSplit(box) then None
    else
      var a := LongestDimension(box.bounds);
      var v := ScanSplit(SortedByAxis(box.histogram, a), a, box.population / 2, 0);
      var left := MakeBox(Lower(box.bounds, a, v), box.histogram);
      var right := MakeBox(Upper(box.bounds, a, v), box.histogram);
      if left.population > 0 && right.population > 0 then Some((left, right)) else None
  }

  /** The split value is a median of the box along the axis: some key has that
      value, the pixels at or below it are at least half (rounded down) of the
      box, and the pixels strictly below it are fewer. */
  lemma SplitValueIsMedian(box: ColorBox)
    requires WellFormed(box) && CanSplit(box)
    ensures var a := LongestDimension(box.bounds);
      var v := ScanSplit(SortedByAxis(box.histogram, a), a, box.population / 2, 0);
      (exists i :: 0 <= i < |box.histogram| && Channel(box.histogram[i].key, a) == v) &&
      CountAtMost(box.histogram, a, v) >= box.population / 2 &&
      CountAtMost(box.histogram, a, v - 1) < box.population / 2
  {
    MedianOf(box.histogram, box.bounds, LongestDimension(box.bounds), box.population / 2);
  }

  lemma MedianOf(h: Histogram, b: Bounds, a: Axis, t: int)
    requires AllInside(h, b) && 0 < t <= Total(h)
    ensures var v := ScanSplit(SortedByAxis(h, a), a, t, 0);
      (exists i :: 0 <= i < |h| && Channel(h[i].key, a) == v) &&
      CountAtMost(h, a, v) >= t && CountAtMost(h, a, v - 1) < t
  {
    var s := SortedByAxis(h, a);
    SameTotal(s, h, b, a);
    MedianOfArrangement(s, h, a, t);
  }

  /** The scan over any ascending arrangement of `h` stops at the median of `h`. */
  lemma MedianOfArrangement(s: Histogram, h: Histogram, a: Axis, t: int)
    requires multiset(s) == multiset(h) && Ascending(s, a) && 0 < t <= Total(s)
    ensures var v := ScanSplit(s, a, t, 0);
      (exists i :: 0 <= i < |h| && Channel(h[i].key, a) == v) &&
      CountAtMost(h, a, v) >= t && CountAtMost(h, a, v - 1) < t
  {
    var v := ScanSplit(s, a, t, 0);
    ScanSplitMedian(s, a, t, 0);
    CountAtMostPermutation(s, h, a, v);
    CountAtMostPermutation(s, h, a, v - 1);
    var k :| 0 <= k < |s| && Channel(s[k].key, a) == v;
    assert s[k] in multiset(h);
    var i :| 0 <= i < |h| && h[i] == s[k];
  }

  /** A rearrangement of a histogram inside a box has the same pixel total. */
  lemma SameTotal(s: Histogram, h: Histogram, b: Bounds, a: Axis)
    requires multiset(s) == multiset(h) && AllInside(h, b)
    ensures Total(s) == Total(h)
  {
    forall i | 0 <= i < |s| ensures Channel(s[i].key, a) <= Hi(b, a) {
      assert s[i] in multiset(h);
      var j :| 0 <= j < |h| && h[j] == s[i];
      assert Inside(b, h[j].key);
    }
    forall i | 0 <= i < |h| ensures Channel(h[i].key, a) <= Hi(b, a) {
      assert Inside(b, h[i].key);
    }
    CountAtMostAll(s, a, Hi(b, a));
    CountAtMostAll(h, a, Hi(b, a));
    CountAtMostPermutation(s, h, a, Hi(b, a));
  }

  /** `split`: sorts the keys along the longest axis, scans for the median and
      cuts the box there; nil when the box cannot be split or a child would be
      empty. */
  method Split(box: ColorBox) returns (r: Option<(ColorBox, ColorBox)>)
    requires WellFormed(box)
    ensures r == SplitOf(box)
    ensures r.Some? ==> (CanSplit(box) && WellFormed(r.value.0) && WellFormed(r.value.1) &&
                         r.value.0.population > 0 && r.value.1.population > 0 &&
                         r.value.0.population + r.value.1.population == box.population)
  {
    if !CanSplit(box) {
      return None;
    }
    var dimension := LongestDimension(box.bounds);
    var colors := SortedByAxis(box.histogram, dimension);
    var totalCount := 0;
    var targetCount := box.population / 2;
    var splitValue := 0;
    var i := 0;
    while i < |colors|
      invariant 0 <= i <= |colors|
      invariant ScanSplit(colors[i..], dimension, targetCount, totalCount) ==
                ScanSplit(colors, dimension, targetCount, 0)
    {
      assert colors[i..][1..] == colors[i + 1..];
      totalCount := totalCount + colors[i].count;
      if totalCount >= targetCount {
        splitValue := Channel(colors[i].key, dimension);
        break;
      }
      i := i + 1;
    }
    var leftBox := MakeBox(Lower(box.bounds, dimension, splitValue), box.histogram);
    var rightBox := MakeBox(Upper(box.bounds, dimension, splitValue), box.histogram);
    SplitPopulations(box, dimension, splitValue);
    if leftBox.population > 0 && rightBox.population > 0 {
      r := Some((leftBox, rightBox));
    } else {
      r := None;
    }
  }

  /** `split` as written, with the green right child starting at `gMin + 1`. */
  function SplitOfAsWritten(box: ColorBox): Option<(ColorBox, ColorBox)> {
    if !CanSplit(box) then None
    else
      var a := LongestDimension(box.bounds);
      var v := ScanSplit(SortedByAxis(box.histogram, a), a, box.population / 2, 0);
      var left := MakeBox(Lower(box.bounds, a, v), box.histogram);
      var right := MakeBox(UpperAsWritten(box.bounds, a, v), box.histogram);
      if left.population > 0 && right.population > 0 then Some((left, right)) else None
  }

  /** The histogram of the example below: three keys along green holding 1, 1
      and 2 pixels. */
  predicate IsExample(h: Histogram) {
    |h| == 3 && h[0] == Entry(Rgb(0, 0, 0), 1) && h[1] == Entry(Rgb(0, 8, 0), 1) && h[2] == Entry(Rgb(0, 16, 0), 2)
  }

  /** On the example the median is 8, and the
      written right child (green 1..16) counts the pixels at green 8 a second
      time, so the children hold 5 pixels between them where the box holds 4. */
  lemma GreenSplitCountsTwice(h: Histogram, b: Bounds)
    requires IsExample(h)
    requires b == Bounds(0, 0, 0, 16, 0, 0)
    ensures var box := MakeBox(b, h);
      box.population == 4 &&
      SplitOfAsWritten(box).Some? &&
      SplitOfAsWritten(box).value.0.population + SplitOfAsWritten(box).value.1.population == 5
  {
    ExampleBox(h, b);
    ExampleMedian(MakeBox(b, h));
    ExampleAsWrittenChildren(h, b);
  }

  /** Cut at green 8 as written, the example's children hold 2 and 3 pixels. */
  lemma ExampleAsWrittenChildren(h: Histogram, b: Bounds)
    requires IsExample(h)
    requires b == Bounds(0, 0, 0, 16, 0, 0)
    ensures MakeBox(Lower(b, Green, 8), h).population == 2
    ensures MakeBox(UpperAsWritten(b, Green, 8), h).population == 3
  {
    ExampleBox(h, b);
    ExampleLowerChild(MakeBox(b, h));
    assert UpperAsWritten(b, Green, 8) == Upper(b, Green, 0);
    ExampleUpperFromZero(MakeBox(b, h));
  }

  lemma ExampleLowerChild(box: ColorBox)
    requires IsExample(box.histogram) && WellFormed(box) && box.population == 4
    ensures MakeBox(Lower(box.bounds, Green, 8), box.histogram).population == 2
  {
    SplitPopulations(box, Green, 8);
    ExampleCounts(box.histogram, 8);
  }

  lemma ExampleUpperFromZero(box: ColorBox)
    requires IsExample(box.histogram) && WellFormed(box) && box.population == 4
    ensures MakeBox(Upper(box.bounds, Green, 0), box.histogram).population == 3
  {
    SplitPopulations(box, Green, 0);
    ExampleCounts(box.histogram, 0);
  }


  /** The corrected cut of the same box gives children of 2 and 2 pixels. */
  lemma GreenSplitCorrected(h: Histogram, b: Bounds)
    requires IsExample(h)
    requires b == Bounds(0, 0, 0, 16, 0, 0)
    ensures var box := MakeBox(b, h);
      SplitOf(box).Some? &&
      SplitOf(box).value.0.population == 2 && SplitOf(box).value.1.population == 2
  {
    ExampleBox(h, b);
    var box := MakeBox(b, h);
    ExampleMedian(box);
    SplitPopulations(box, Green, 8);
    ExampleCounts(h, 8);
  }

  /** The example box holds 4 pixels and is longest along green. */
  lemma ExampleBox(h: Histogram, b: Bounds)
    requires IsExample(h)
    requires b == Bounds(0, 0, 0, 16, 0, 0)
    ensures var box := MakeBox(b, h);
      box.histogram == h && box.population == 4 && CanSplit(box) && LongestDimension(b) == Green
  {
    var e0, e1, e2 := h[0], h[1], h[2];
    assert h[1..] == [e1, e2] && h[1..][1..] == [e2] && [e2][1..] == [];
    TotalCons(e2, []);
    TotalCons(e1, [e2]);
    TotalCons(e0, [e1, e2]);
    assert AllInside(h, b);
    FilterInsideAll(h, b);
  }

  /** The median of the example sits at green 8. */
  lemma ExampleMedian(box: ColorBox)
    requires IsExample(box.histogram)
    requires box.population == 4 && WellFormed(box) && CanSplit(box) && LongestDimension(box.bounds) == Green
    ensures ScanSplit(SortedByAxis(box.histogram, Green), Green, 2, 0) == 8
  {
    var v := ScanSplit(SortedByAxis(box.histogram, Green), Green, 2, 0);
    SplitValueIsMedian(box);
    ExampleCounts(box.histogram, v);
    ExampleCounts(box.histogram, v - 1);
  }

  lemma ExampleCounts(h: Histogram, v: int)
    requires IsExample(h)
    ensures CountAtMost(h, Green, v) ==
            (if 0 <= v then 1 else 0) + (if 8 <= v then 1 else 0) + (if 16 <= v then 2 else 0)
  {
    assert h[1..][1..][1..] == [];
    assert CountAtMost(h[1..][1..], Green, v) == (if 16 <= v then 2 else 0) + CountAtMost(h[1..][1..][1..], Green, v);
  }

  /** `population * volume`, the priority of a box for splitting. */
  function Score(box: ColorBox): int {
    box.population * box.volume
  }

  /** The last splittable box of largest score (`max(by:)` replaces its result
      by every later element that is not smaller), or None when no box can be
      split. */
  function BestSplittable(boxes: seq<ColorBox>): (i: Option<nat>)
    ensures i.None? <==> forall j :: 0 <= j < |boxes| ==> !CanSplit(boxes[j])
    ensures i.Some? ==> i.value < |boxes| && CanSplit(boxes[i.value])
    ensures i.Some? ==> forall j :: 0 <= j < |boxes| && CanSplit(boxes[j]) ==> Score(boxes[j]) <= Score(boxes[i.value])
    ensures i.Some? ==> forall j :: i.value < j < |boxes| && CanSplit(boxes[j]) ==> Score(boxes[j]) < Score(boxes[i.value])
  {
    if boxes == [] then None
    else
      var n := |boxes| - 1;
      var best := BestSplittable(boxes[..n]);
      assert forall j :: 0 <= j < n ==> boxes[..n][j] == boxes[j];
      if !CanSplit(boxes[n]) then best
      else if best.None? || Score(boxes[best.value]) <= Score(boxes[n]) then Some(n)
      else best
  }

  /** Total number of pixels over a list of boxes. */
  function Populations(boxes: seq<ColorBox>): nat {
    if boxes == [] then 0 else boxes[0].population + Populations(boxes[1..])
  }

  lemma {:induction false} PopulationsConcat(x: seq<ColorBox>, y: seq<ColorBox>)
    ensures Populations(x + y) == Populations(x) + Populations(y)
    decreases |x|
  {
    if x == [] {
      assert x + y == y;
    } else {
      assert (x + y)[0] == x[0];
      assert (x + y)[1..] == x[1..] + y;
      PopulationsConcat(x[1..], y);
    }
  }

  /** Replacing a box by its two children keeps the pixel total when the
      children split the parent's pixels. */
  lemma ReplaceBox(boxes: seq<ColorBox>, i: nat, left: ColorBox, right: ColorBox)
    requires i < |boxes|
    requires forall k :: 0 <= k < |boxes| ==> WellFormed(boxes[k])
    requires WellFormed(left) && WellFormed(right)
    ensures var next := boxes[..i] + boxes[i + 1..] + [left, right];
      |next| == |boxes| + 1 &&
      (forall k :: 0 <= k < |next| ==> WellFormed(next[k])) &&
      Populations(next) == Populations(boxes) - boxes[i].population + left.population + right.population
  {
    var next := boxes[..i] + boxes[i + 1..] + [left, right];
    forall k | 0 <= k < |next| ensures WellFormed(next[k]) {
      if k < i {
        assert next[k] == boxes[k];
      } else if k < |boxes| - 1 {
        assert next[k] == boxes[k + 1];
      }
    }
    var pre, post := boxes[..i], boxes[i + 1..];
    assert boxes == pre + ([boxes[i]] + post);
    PopulationsConcat(pre, [boxes[i]] + post);
    PopulationsConcat([boxes[i]], post);
    PopulationsConcat(pre, post);
    PopulationsConcat(pre + post, [left, right]);
    assert [boxes[i]][1..] == [] && [left, right][1..] == [right] && [right][1..] == [];
    assert Populations([boxes[i]]) == boxes[i].population;
    assert Populations([left, right]) == left.population + right.population;
  }

  /** `filter { $0.population > 0 }` */
  function Populated(boxes: seq<ColorBox>): (r: seq<ColorBox>)
    ensures |r| <= |boxes|
    ensures forall i :: 0 <= i < |r| ==> r[i].population > 0 && r[i] in boxes
    ensures Populations(r) == Populations(boxes)
  {
    if boxes == [] then []
    else if boxes[0].population > 0 then [boxes[0]] + Populated(boxes[1..])
    else Populated(boxes[1..])
  }

  /** Smallest and largest value of the keys on an axis (`map(\.r).min()!`). */
  function MinChannel(h: Histogram, a: Axis): int
    requires h != []
  {
    if |h| == 1 then Channel(h[0].key, a)
    else
      var m := MinChannel(h[1..], a);
      if Channel(h[0].key, a) <= m then Channel(h[0].key, a) else m
  }

  function MaxChannel(h: Histogram, a: Axis): int
    requires h != []
  {
    if |h| == 1 then Channel(h[0].key, a)
    else
      var m := MaxChannel(h[1..], a);
      if Channel(h[0].key, a) >= m then Channel(h[0].key, a) else m
  }

  /** `min()!` and `max()!` over the keys' channel: both are attained and bound
      every key. */
  lemma {:induction false} ChannelExtremes(h: Histogram, a: Axis)
    requires h != []
    ensures exists i :: 0 <= i < |h| && Channel(h[i].key, a) == MinChannel(h, a)
    ensures exists i :: 0 <= i < |h| && Channel(h[i].key, a) == MaxChannel(h, a)
    ensures forall i :: 0 <= i < |h| ==> MinChannel(h, a) <= Channel(h[i].key, a) <= MaxChannel(h, a)
    decreases |h|
  {
    if |h| == 1 {
      assert Channel(h[0].key, a) == MinChannel(h, a) == MaxChannel(h, a);
    } else {
      ChannelExtremes(h[1..], a);
      assert forall i :: 1 <= i < |h| ==> h[i] == h[1..][i - 1];
      var j :| 0 <= j < |h[1..]| && Channel(h[1..][j].key, a) == MinChannel(h[1..], a);
      var k :| 0 <= k < |h[1..]| && Channel(h[1..][k].key, a) == MaxChannel(h[1..], a);
      assert h[j + 1] == h[1..][j] && h[k + 1] == h[1..][k];
      if Channel(h[0].key, a) <= MinChannel(h[1..], a) {
        assert Channel(h[0].key, a) == MinChannel(h, a);
      } else {
        assert Channel(h[j + 1].key, a) == MinChannel(h, a);
      }
      if Channel(h[0].key, a) >= MaxChannel(h[1..], a) {
        assert Channel(h[0].key, a) == MaxChannel(h, a);
      } else {
        assert Channel(h[k + 1].key, a) == MaxChannel(h, a);
      }
    }
  }

  function InitialBounds(h: Histogram): Bounds
    requires h != []
  {
    Bounds(MinChannel(h, Red), MaxChannel(h, Red),
           MinChannel(h, Green), MaxChannel(h, Green),
           MinChannel(h, Blue), MaxChannel(h, Blue))
  }

  /** The initial box holds the whole histogram; with a single key it is a
      point and cannot be split. */
  lemma InitialBox(h: Histogram)
    requires h != []
    ensures MakeBox(InitialBounds(h), h).histogram == h
    ensures MakeBox(InitialBounds(h), h).population == Total(h)
    ensures |h| == 1 ==> !CanSplit(MakeBox(InitialBounds(h), h))
  {
    var b := InitialBounds(h);
    assert AllInside(h, b) by {
      ChannelExtremes(h, Red);
      ChannelExtremes(h, Green);
      ChannelExtremes(h, Blue);
      forall i | 0 <= i < |h| ensures Inside(b, h[i].key) {
        assert Channel(h[i].key, Red) == h[i].key.r;
        assert Channel(h[i].key, Green) == h[i].key.g;
        assert Channel(h[i].key, Blue) == h[i].key.b;
      }
    }
    FilterInsideAll(h, b);
    if |h| == 1 {
      PointBoxCannotSplit(MakeBox(b, h));
    }
  }

  /** The box list with box `i` removed and its two halves appended
      (`remove(at:)`, then `append` twice). */
  function Replaced(boxes: seq<ColorBox>, i: nat, left: ColorBox, right: ColorBox): (r: seq<ColorBox>)
    requires i < |boxes|
    ensures |r| == |boxes| + 1
  {
    boxes[..i] + boxes[i + 1..] + [left, right]
  }

  /** The rounds of `performMMCQ`'s loop from `boxes`: while there are fewer
      than `targetColors` boxes, the best splittable box is replaced by its
      halves; the rounds stop when no box can be split or the chosen one
      will not split. */
  function Rounds(boxes: seq<ColorBox>, targetColors: int): seq<ColorBox>
    decreases targetColors - |boxes|
  {
    if |boxes| >= targetColors then boxes
    else
      var best := BestSplittable(boxes);
      if best.None? then boxes
      else
        var halves := SplitOf(boxes[best.value]);
        if halves.None? then boxes
        else Rounds(Replaced(boxes, best.value, halves.value.0, halves.value.1), targetColors)
  }

  /** The rounds only add boxes, never go past the target unless they start
      past it, and stop short of the target only when no box can be split or
      the best one will not split. */
  lemma {:induction false} RoundsStop(boxes: seq<ColorBox>, targetColors: int)
    ensures |boxes| <= |Rounds(boxes, targetColors)| <= Max(|boxes|, targetColors)
    ensures var r := Rounds(boxes, targetColors);
      |r| < targetColors ==>
        BestSplittable(r).None? || SplitOf(r[BestSplittable(r).value]).None?
    decreases targetColors - |boxes|
  {
    if |boxes| < targetColors {
      var best := BestSplittable(boxes);
      if best.Some? {
        var halves := SplitOf(boxes[best.value]);
        if halves.Some? {
          RoundsStop(Replaced(boxes, best.value, halves.value.0, halves.value.1), targetColors);
        }
      }
    }
  }

  /** `performMMCQ`: start from the box around all keys and, while there are
      fewer boxes than wanted, replace the last splittable box of largest
      population times volume by its two halves; stop early when no box can be
      split or the chosen one will not split. Boxes without pixels are dropped
      at the end. */
  method PerformMMCQ(h: Histogram, targetColors: int) returns (boxes: seq<ColorBox>)
    ensures h == [] ==> boxes == []
    ensures h != [] ==> boxes == Populated(Rounds([MakeBox(InitialBounds(h), h)], targetColors))
    ensures |boxes| <= Max(1, targetColors)
    ensures forall i :: 0 <= i < |boxes| ==> WellFormed(boxes[i]) && boxes[i].population > 0
    ensures Populations(boxes) == Total(h)
    ensures |h| == 1 && h[0].count > 0 ==> |boxes| == 1
  {
    if h == [] {
      return [];
    }
    var initialBox := MakeBox(InitialBounds(h), h);
    InitialState(h);
    var colorBoxes := [initialBox];
    while |colorBoxes| < targetColors
      invariant 1 <= |colorBoxes| <= Max(1, targetColors)
      invariant forall i :: 0 <= i < |colorBoxes| ==> WellFormed(colorBoxes[i])
      invariant Populations(colorBoxes) == Total(h)
      invariant |h| == 1 ==> |colorBoxes| == 1 && BestSplittable(colorBoxes).None?
      invariant Rounds(colorBoxes, targetColors) == Rounds([initialBox], targetColors)
      decreases targetColors - |colorBoxes|
    {
      var boxToSplit := BestSplittable(colorBoxes);
      if boxToSplit.None? {
        break;
      }
      var boxIndex := boxToSplit.value;
      var halves := Split(colorBoxes[boxIndex]);
      if halves.None? {
        break;
      }
      var (leftBox, rightBox) := halves.value;
      ReplaceBox(colorBoxes, boxIndex, leftBox, rightBox);
      colorBoxes := Replaced(colorBoxes, boxIndex, leftBox, rightBox);
    }
    boxes := Populated(colorBoxes);
    FinalState(h, colorBoxes);
  }

  /** The one-box state the rounds start from. */
  lemma InitialState(h: Histogram)
    requires h != []
    ensures var box := MakeBox(InitialBounds(h), h);
      WellFormed(box) && Populations([box]) == Total(h) &&
      (|h| == 1 ==> BestSplittable([box]).None?)
  {
    InitialBox(h);
    var box := MakeBox(InitialBounds(h), h);
    assert [box][1..] == [];
    if |h| == 1 {
      SingleKeyCannotSplit(h);
    }
  }

  /** Dropping the empty boxes at the end keeps the pixel total, and a single
      key with pixels leaves one box. */
  lemma FinalState(h: Histogram, boxes: seq<ColorBox>)
    requires forall i :: 0 <= i < |boxes| ==> WellFormed(boxes[i])
    requires Populations(boxes) == Total(h)
    requires |h| == 1 ==> |boxes| == 1
    ensures |Populated(boxes)| <= |boxes|
    ensures forall i :: 0 <= i < |Populated(boxes)| ==> WellFormed(Populated(boxes)[i]) && Populated(boxes)[i].population > 0
    ensures Populations(Populated(boxes)) == Populations(boxes)
    ensures |h| == 1 && h[0].count > 0 ==> |Populated(boxes)| == 1
  {
    PopulatedWellFormed(boxes);
    if |h| == 1 {
      SingleBoxKept(h, boxes);
    }
  }

  lemma SingleBoxKept(h: Histogram, boxes: seq<ColorBox>)
    requires |h| == 1 && |boxes| == 1 && Populations(boxes) == Total(h)
    ensures h[0].count > 0 ==> |Populated(boxes)| == 1
  {
    assert h[..0] == [];
    assert boxes[1..] == [];
  }


  /** A single-key histogram gives a box that no round can split. */
  lemma SingleKeyCannotSplit(h: Histogram)
    requires |h| == 1
    ensures BestSplittable([MakeBox(InitialBounds(h), h)]).None?
  {
    InitialBox(h);
  }

  /** Dropping the empty boxes keeps the remaining ones well formed. */
  lemma PopulatedWellFormed(boxes: seq<ColorBox>)
    requires forall i :: 0 <= i < |boxes| ==> WellFormed(boxes[i])
    ensures forall i :: 0 <= i < |Populated(boxes)| ==> WellFormed(Populated(boxes)[i]) && Populated(boxes)[i].population > 0
  {
    var r := Populated(boxes);
    forall i | 0 <= i < |r| ensures WellFormed(r[i]) {
      var j :| 0 <= j < |boxes| && boxes[j] == r[i];
    }
  }

  /** Sum over the entries of count times the channel value. */
  function ChannelSum(h: Histogram, a: Axis): int {
    if h == [] then 0
    else ChannelSum(h[..|h| - 1], a) + Channel(h[|h| - 1].key, a) * h[|h| - 1].count
  }

  /** The accumulator loop shared by `averageColor` and the dominant-colour
      conversion: weighted channel totals and the pixel count. */
  method BoxTotals(h: Histogram) returns (totalR: int, totalG: int, totalB: int, totalCount: int)
    ensures totalR == ChannelSum(h, Red) && totalG == ChannelSum(h, Green) && totalB == ChannelSum(h, Blue)
    ensures totalCount == Total(h)
  {
    totalR, totalG, totalB, totalCount := 0, 0, 0, 0;
    for i := 0 to |h|
      invariant totalR == ChannelSum(h[..i], Red) && totalG == ChannelSum(h[..i], Green)
      invariant totalB == ChannelSum(h[..i], Blue) && totalCount == Total(h[..i])
    {
      assert h[..i + 1][..i] == h[..i];
      var colorKey, count := h[i].key, h[i].count;
      totalR := totalR + colorKey.r * count;
      totalG := totalG + colorKey.g * count;
      totalB := totalB + colorKey.b * count;
      totalCount := totalCount + count;
    }
    assert h[..|h|] == h;
  }

  /** `averageColor`: the pixel-weighted mean key (integer division), the centre
      of the ranges when the box holds no key, black when it holds no pixel. */
  function AverageColorOf(box: ColorBox): Rgb {
    var b := box.bounds;
    if box.histogram == [] then Rgb(DivT(b.rMin + b.rMax, 2), DivT(b.gMin + b.gMax, 2), DivT(b.bMin + b.bMax, 2))
    else
      var t := Total(box.histogram);
      if t == 0 then Rgb(0, 0, 0)
      else Rgb(DivT(ChannelSum(box.histogram, Red), t),
               DivT(ChannelSum(box.histogram, Green), t),
               DivT(ChannelSum(box.histogram, Blue), t))
  }

  method AverageColor(box: ColorBox) returns (c: Rgb)
    ensures c == AverageColorOf(box)
  {
    var b := box.bounds;
    if box.histogram == [] {
      var midR := DivT(b.rMin + b.rMax, 2);
      var midG := DivT(b.gMin + b.gMax, 2);
      var midB := DivT(b.bMin + b.bMax, 2);
      return Rgb(midR, midG, midB);
    }
    var totalR, totalG, totalB, totalCount := BoxTotals(box.histogram);
    if totalCount <= 0 {
      return Rgb(0, 0, 0);
    }
    c := Rgb(DivT(totalR, totalCount), DivT(totalG, totalCount), DivT(totalB, totalCount));
  }

  /** The weighted sum lies between the smallest and largest value times the
      pixel count. */
  lemma {:induction false} ChannelSumBounds(h: Histogram, a: Axis, lo: int, hi: int)
    requires forall i :: 0 <= i < |h| ==> lo <= Channel(h[i].key, a) <= hi
    ensures lo * Total(h) <= ChannelSum(h, a) <= hi * Total(h)
    decreases |h|
  {
    if h != [] {
      var h0 := h[..|h| - 1];
      var e := h[|h| - 1];
      assert forall i :: 0 <= i < |h0| ==> h0[i] == h[i];
      ChannelSumBounds(h0, a, lo, hi);
      MulLe(lo, Channel(e.key, a), e.count);
      MulLe(Channel(e.key, a), hi, e.count);
      assert Total(h) == Total(h0) + e.count;
      Distribute(lo, Total(h0), e.count);
      Distribute(hi, Total(h0), e.count);
    }
  }

  /** The average colour of a box of byte values lies inside the box. */
  lemma AverageColorInside(box: ColorBox)
    requires WellFormed(box)
    requires forall a :: 0 <= Lo(box.bounds, a) <= Hi(box.bounds, a)
    requires forall i :: 0 <= i < |box.histogram| ==> box.histogram[i].count >= 1
    ensures Inside(box.bounds, AverageColorOf(box))
  {
    var b := box.bounds;
    var h := box.histogram;
    assert 0 <= Lo(b, Red) <= Hi(b, Red) && 0 <= Lo(b, Green) <= Hi(b, Green) && 0 <= Lo(b, Blue) <= Hi(b, Blue);
    if h != [] {
      var t := Total(h);
      assert t >= 1 by {
        TotalCons(h[0], h[1..]);
        assert [h[0]] + h[1..] == h;
      }
      forall a ensures Lo(b, a) <= DivT(ChannelSum(h, a), t) <= Hi(b, a) {
        ChannelSumBounds(h, a, Lo(b, a), Hi(b, a));
        MulLe(0, Lo(b, a), t);
        DivBetween(ChannelSum(h, a), t, Lo(b, a), Hi(b, a));
      }
      assert Lo(b, Red) <= DivT(ChannelSum(h, Red), t) <= Hi(b, Red);
      assert Lo(b, Green) <= DivT(ChannelSum(h, Green), t) <= Hi(b, Green);
      assert Lo(b, Blue) <= DivT(ChannelSum(h, Blue), t) <= Hi(b, Blue);
    }
  }
}
