/** Shared colour vocabulary of the extractors: 8-bit channels, RGB triples,
    channel quantization by clearing low bits, the alpha cut-off, and the
    perceptual distance, which the model takes as a parameter; with the few
    sequence helpers every module uses (`Option`, `Flatten`, `Min`, `Max`). */
module Colors {

  /** One byte of a pixel buffer. */
  newtype Byte = x: int | 0 <= x < 256

  /** An integer RGB colour (the extractors' `originalRGB` / `ColorKey` / `UIColor` channels). */
  datatype Rgb = Rgb(r: int, g: int, b: int)

  datatype Option<T> = None | Some(value: T)

  /** The elements of a sequence of sequences, one after the other
      (`flatMap { $0 }`). */
  function Flatten<T>(parts: seq<seq<T>>): seq<T> {
    if parts == [] then [] else parts[0] + Flatten(parts[1..])
  }

  lemma {:induction false} FlattenSnoc<T>(parts: seq<seq<T>>, last: seq<T>)
    ensures Flatten(parts + [last]) == Flatten(parts) + last
  {
    if parts != [] {
      assert (parts + [last])[1..] == parts[1..] + [last];
      FlattenSnoc(parts[1..], last);
    } else {
      assert [last][1..] == [];
    }
  }

  /** A pixel takes part in a histogram only if its alpha byte is strictly above this. */
  const AlphaCutoff: int := 125

  predicate IsOpaque(alpha: int) {
    alpha > AlphaCutoff
  }

  function Pow2(n: nat): (p: nat)
    ensures p >= 1
  {
    if n == 0 then 1 else 2 * Pow2(n - 1)
  }

  lemma {:induction false} MulAtLeast(d: int, p: int)
    requires d >= 1 && p > 0
    ensures d * p >= p
    decreases d
  {
    if d > 1 {
      MulAtLeast(d - 1, p);
      assert d * p == (d - 1) * p + p;
    }
  }

  /** Euclidean division is determined by its quotient and remainder. */
  lemma DivModUnique(a: int, p: int, q: int, r: int)
    requires p > 0 && 0 <= r < p && a == q * p + r
    ensures a / p == q && a % p == r
  {
    var q0, r0 := a / p, a % p;
    assert a == q0 * p + r0;
    assert (q0 - q) * p == q0 * p - q * p;
    if q0 > q {
      MulAtLeast(q0 - q, p);
    } else if q0 < q {
      MulAtLeast(q - q0, p);
    }
  }

  /** `(v >> shift) << shift`: Swift's `>>` on Int is an arithmetic shift, i.e.
      floor division by 2^shift, which is Dafny's `/` for a positive divisor. */
  function Quantize(v: int, shift: nat): (q: int)
    ensures q % Pow2(shift) == 0
    ensures q <= v < q + Pow2(shift)
    ensures v >= 0 ==> q >= 0
  {
    var p := Pow2(shift);
    DivModUnique((v / p) * p, p, v / p, 0);
    assert v >= 0 ==> (v / p) * p >= 0 by {
      if v >= 0 {
        DivNonNegative(v, p);
      }
    }
    (v / p) * p
  }

  lemma DivNonNegative(v: int, p: int)
    requires v >= 0 && p > 0
    ensures (v / p) * p >= 0
  {
    var q := v / p;
    assert v == q * p + v % p;
    if q < 0 {
      MulLe(q, -1, p);
      assert false;
    }
    MulLe(0, q, p);
  }

  /** Quantizing an already quantized value changes nothing. */
  lemma QuantizeIdempotent(v: int, shift: nat)
    ensures Quantize(Quantize(v, shift), shift) == Quantize(v, shift)
  {
    var p := Pow2(shift);
    DivModUnique((v / p) * p, p, v / p, 0);
  }

  function QuantizeRgb(c: Rgb, shift: nat): (q: Rgb)
    ensures q.r <= c.r < q.r + Pow2(shift)
    ensures q.g <= c.g < q.g + Pow2(shift)
    ensures q.b <= c.b < q.b + Pow2(shift)
  {
    Rgb(Quantize(c.r, shift), Quantize(c.g, shift), Quantize(c.b, shift))
  }

  /** The properties the source relies on of the Delta-E distance: it is zero on
      equal colours, symmetric and never negative. */
  ghost predicate IsDistance(dist: (Rgb, Rgb) -> real) {
    (forall c :: dist(c, c) == 0.0) &&
    (forall c, d :: dist(c, d) == dist(d, c)) &&
    (forall c, d :: dist(c, d) >= 0.0)
  }

  /** Minimum distance from `c` to the entries of `others` whose RGB differs from
      `c` (the `compactMap { other != self ? deltaE : nil }.min()` pattern), or
      None when every entry has the same RGB as `c`. */
  function MinDistanceToOthers(c: Rgb, others: seq<Rgb>, dist: (Rgb, Rgb) -> real): (m: Option<real>)
    ensures m.None? <==> (forall k :: 0 <= k < |others| ==> others[k] == c)
    ensures m.Some? ==> exists k :: 0 <= k < |others| && others[k] != c && dist(c, others[k]) == m.value
    ensures m.Some? ==> forall k :: 0 <= k < |others| && others[k] != c ==> m.value <= dist(c, others[k])
  {
    if others == [] then None
    else
      var rest := MinDistanceToOthers(c, others[..|others| - 1], dist);
      var last := others[|others| - 1];
      if last == c then rest
      else if rest.None? || dist(c, last) < rest.value then Some(dist(c, last))
      else rest
  }

  /** Uniqueness score of a colour among a population: the minimum distance to a
      colour with different RGB, or `fallback` when there is none. */
  function Uniqueness(c: Rgb, population: seq<Rgb>, dist: (Rgb, Rgb) -> real, fallback: real): (u: real)
    ensures (forall k :: 0 <= k < |population| ==> population[k] == c) ==> u == fallback
    ensures (exists k :: 0 <= k < |population| && population[k] != c) ==>
              (exists k :: 0 <= k < |population| && population[k] != c && dist(c, population[k]) == u) &&
              (forall k :: 0 <= k < |population| && population[k] != c ==> u <= dist(c, population[k]))
  {
    match MinDistanceToOthers(c, population, dist)
    case None => fallback
    case Some(m) => m
  }

  /** Swift's `Int` division, which truncates toward zero. */
  function DivT(a: int, b: int): (q: int)
    requires b != 0
    ensures a >= 0 && b > 0 ==> q == a / b
  {
    if a >= 0 && b > 0 then a / b
    else if a < 0 && b > 0 then -((-a) / b)
    else if a >= 0 then -(a / (-b))
    else (-a) / (-b)
  }

  /** Integer division by a positive divisor stays between bounds it is
      sandwiched by. */
  lemma DivBetween(s: int, t: int, lo: int, hi: int)
    requires t > 0 && lo * t <= s <= hi * t
    ensures lo <= s / t <= hi
  {
    var q := s / t;
    assert s == q * t + s % t;
    if q < lo {
      MulLe(q + 1, lo, t);
    }
    if q > hi {
      MulLe(hi + 1, q, t);
    }
  }

  lemma MulLe(a: int, b: int, c: int)
    requires a <= b && c >= 0
    ensures a * c <= b * c
  {
    assert b * c - a * c == (b - a) * c;
  }

  lemma Distribute(x: int, y: int, z: int)
    ensures x * (y + z) == x * y + x * z
  {
  }

  function Min(a: int, b: int): int { if a <= b then a else b }
  function Max(a: int, b: int): int { if a >= b then a else b }
}
