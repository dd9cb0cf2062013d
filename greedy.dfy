/** The greedy "keep a candidate only if it is far enough from every colour kept
    so far" filter that each extractor uses, in several variants: DBSCAN's
    `deduplicateColors` (keep iff distance >= 8 to every kept colour), the
    weighted-score selection (>= 12, stopping at the target count) and its
    `finalDeduplication` (>= 10), and the median-cut box-colour merge (> 10,
    starting from the chosen outliers). The acceptance test `far(candidate,
    kept)` is a parameter. */
module Greedy {
  import opened Colors

  /** `a` is `b` with some elements removed, order kept. */
  predicate IsSubseq<T(==)>(a: seq<T>, b: seq<T>)
    decreases |b|
  {
    |a| <= |b| &&
    (a == [] || (a[0] == b[0] && IsSubseq(a[1..], b[1..])) || IsSubseq(a, b[1..]))
  }

  lemma {:induction false} SubseqElements<T>(a: seq<T>, b: seq<T>)
    requires IsSubseq(a, b)
    ensures forall x :: x in a ==> x in b
    decreases |b|
  {
    if a != [] {
      if a[0] == b[0] && IsSubseq(a[1..], b[1..]) {
        SubseqElements(a[1..], b[1..]);
        forall x | x in a ensures x in b {
          if x != a[0] {
            assert x in a[1..];
          }
        }
      } else {
        SubseqElements(a, b[1..]);
      }
    }
  }

  /** A subsequence as long as the sequence is the sequence. */
  lemma {:induction false} SubseqFull<T>(a: seq<T>, b: seq<T>)
    requires IsSubseq(a, b) && |a| >= |b|
    ensures a == b
    decreases |b|
  {
    if b != [] {
      assert !IsSubseq(a, b[1..]);
      SubseqFull(a[1..], b[1..]);
    }
  }

  lemma {:induction false} SubseqRefl<T>(a: seq<T>)
    ensures IsSubseq(a, a)
    decreases |a|
  {
    if a != [] {
      SubseqRefl(a[1..]);
    }
  }

  predicate FarFromAll<T>(c: T, kept: seq<T>, far: (T, T) -> bool) {
    forall k :: 0 <= k < |kept| ==> far(c, kept[k])
  }

  /** Every element is far from every element before it. */
  predicate PairwiseFar<T>(s: seq<T>, far: (T, T) -> bool) {
    forall i, j :: 0 <= i < j < |s| ==> far(s[j], s[i])
  }

  /** Scan `rest` in order, appending a candidate to `kept` iff it is far from
      every colour kept so far; stop as soon as `kept` holds `cap` colours. */
  function Select<T(==)>(kept: seq<T>, rest: seq<T>, far: (T, T) -> bool, cap: int): (r: seq<T>)
    ensures |kept| <= |r| && r[..|kept|] == kept
    ensures |r| <= Max(cap, |kept|)
    ensures IsSubseq(r[|kept|..], rest)
    ensures PairwiseFar(kept, far) ==> PairwiseFar(r, far)
    decreases |rest|
  {
    if rest == [] || |kept| >= cap then
      SubseqEmpty(rest);
      kept
    else if FarFromAll(rest[0], kept, far) then
      var r := Select(kept + [rest[0]], rest[1..], far, cap);
      assert r[..|kept|] == (r[..|kept| + 1])[..|kept|];
      assert r[|kept|..] == [rest[0]] + r[|kept| + 1..];
      assert PairwiseFar(kept, far) ==> PairwiseFar(kept + [rest[0]], far);
      r
    else
      var r := Select(kept, rest[1..], far, cap);
      r
  }

  lemma SubseqEmpty<T>(b: seq<T>)
    ensures IsSubseq([], b)
  {
  }

  /** Nothing is dropped without a reason: a candidate missing from the result
      was too close to a kept colour, or the cap had been reached. */
  lemma {:induction false} SelectDropsOnlyNearOrFull<T>(kept: seq<T>, rest: seq<T>, far: (T, T) -> bool, cap: int)
    ensures var r := Select(kept, rest, far, cap);
      forall k :: 0 <= k < |rest| ==>
        rest[k] in r || |r| >= cap || exists j :: 0 <= j < |r| && !far(rest[k], r[j])
    decreases |rest|
  {
    var r := Select(kept, rest, far, cap);
    if rest == [] || |kept| >= cap {
    } else if FarFromAll(rest[0], kept, far) {
      SelectDropsOnlyNearOrFull(kept + [rest[0]], rest[1..], far, cap);
      forall k | 0 <= k < |rest|
        ensures rest[k] in r || |r| >= cap || exists j :: 0 <= j < |r| && !far(rest[k], r[j])
      {
        if k == 0 {
          assert r[|kept|] == rest[0];
        } else {
          assert rest[k] == rest[1..][k - 1];
        }
      }
    } else {
      SelectDropsOnlyNearOrFull(kept, rest[1..], far, cap);
      forall k | 0 <= k < |rest|
        ensures rest[k] in r || |r| >= cap || exists j :: 0 <= j < |r| && !far(rest[k], r[j])
      {
        if k == 0 {
          var j :| 0 <= j < |kept| && !far(rest[0], kept[j]);
          assert r[j] == kept[j];
        } else {
          assert rest[k] == rest[1..][k - 1];
        }
      }
    }
  }

  /** Input already pairwise far and the cap out of reach: the scan keeps all. */
  lemma {:induction false} SelectKeepsSeparated<T>(kept: seq<T>, rest: seq<T>, far: (T, T) -> bool, cap: int)
    requires PairwiseFar(kept + rest, far)
    requires |kept| + |rest| <= cap
    ensures Select(kept, rest, far, cap) == kept + rest
    decreases |rest|
  {
    if rest != [] {
      var s := kept + rest;
      forall k | 0 <= k < |kept| ensures far(rest[0], kept[k]) {
        assert s[|kept|] == rest[0] && s[k] == kept[k];
      }
      assert kept + [rest[0]] + rest[1..] == s;
      SelectKeepsSeparated(kept + [rest[0]], rest[1..], far, cap);
    }
  }

  /** The plain de-duplication: no cap. */
  function Dedup<T(==)>(s: seq<T>, far: (T, T) -> bool): (r: seq<T>)
    ensures |r| <= |s|
    ensures IsSubseq(r, s)
    ensures PairwiseFar(r, far)
  {
    Select([], s, far, |s|)
  }

  /** The first colour always survives de-duplication. */
  lemma DedupKeepsFirst<T>(s: seq<T>, far: (T, T) -> bool)
    requires s != []
    ensures Dedup(s, far) != [] && Dedup(s, far)[0] == s[0]
  {
    var r := Select([s[0]], s[1..], far, |s|);
    assert r[..1] == [s[0]];
  }

  /** De-duplicating twice is de-duplicating once. */
  lemma DedupIdempotent<T>(s: seq<T>, far: (T, T) -> bool)
    ensures Dedup(Dedup(s, far), far) == Dedup(s, far)
  {
    var r := Dedup(s, far);
    assert [] + r == r;
    SelectKeepsSeparated([], r, far, |r|);
  }

  /** Every element of a selection is one of the kept colours or a candidate. */
  lemma SelectElements<T>(kept: seq<T>, rest: seq<T>, far: (T, T) -> bool, cap: int)
    ensures forall x :: x in Select(kept, rest, far, cap) ==> x in kept || x in rest
  {
    var r := Select(kept, rest, far, cap);
    SubseqElements(r[|kept|..], rest);
    forall x | x in r ensures x in kept || x in rest {
      var i :| 0 <= i < |r| && r[i] == x;
      if i < |kept| {
        assert r[..|kept|][i] == x;
      } else {
        assert r[|kept|..][i - |kept|] == x;
      }
    }
  }
}
