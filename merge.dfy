/** `mergeColors` and the frequency part of `createMergedColor`: each colour
    not yet taken opens a group, collects every later or earlier colour not yet
    taken that is closer than the threshold, and the group becomes one colour
    whose frequency is the group's total. The Lab-space blend of a group is a
    parameter. */
module Merge {
  import opened Colors
  import opened Enhanced

  predicate NoDup(s: seq<nat>) {
    forall a, b :: 0 <= a < b < |s| ==> s[a] != s[b]
  }

  function Elems(s: seq<nat>): set<nat> {
    set x | x in s
  }

  /** The inner scan of `mergeColors` for the group opened by colour `i`, up to
      (not including) index `m`: the indices other than `i`, not yet processed,
      whose colour is closer than `threshold` to colour `i`, in ascending order. */
  function Near(colors: seq<EnhancedColor>, i: nat, m: nat, processed: set<nat>, threshold: real,
                dist: (Rgb, Rgb) -> real): (g: seq<nat>)
    requires i < |colors| && m <= |colors|
    ensures forall k :: 0 <= k < |g| ==> g[k] < m && g[k] != i && g[k] !in processed
    ensures forall a, b :: 0 <= a < b < |g| ==> g[a] < g[b]
  {
    if m == 0 then []
    else
      var g := Near(colors, i, m - 1, processed, threshold, dist);
      var j := m - 1;
      if j != i && j !in processed && dist(colors[i].rgb, colors[j].rgb) < threshold then g + [j] else g
  }

  /** The scan collects exactly the unprocessed indices other than `i` that are
      closer than the threshold to colour `i`. */
  lemma {:induction false} NearExactly(colors: seq<EnhancedColor>, i: nat, m: nat, processed: set<nat>, threshold: real,
                                       dist: (Rgb, Rgb) -> real)
    requires i < |colors| && m <= |colors|
    ensures forall j :: j in Near(colors, i, m, processed, threshold, dist) <==>
      0 <= j < m && j != i && j !in processed && dist(colors[i].rgb, colors[j].rgb) < threshold
    decreases m
  {
    if m > 0 {
      NearExactly(colors, i, m - 1, processed, threshold, dist);
    }
  }


  predicate InRange(groups: seq<seq<nat>>, n: nat) {
    forall a, b :: 0 <= a < |groups| && 0 <= b < |groups[a]| ==> groups[a][b] < n
  }

  /** The state of the outer loop of `mergeColors`: the groups opened so far,
      one per merged colour, and `processedIndices`. */
  datatype Pass = Pass(groups: seq<seq<nat>>, processed: set<nat>)

  /** The outer loop's visit of index `i`: an unprocessed index opens a group
      of itself and the scan's indices, all of which become processed. */
  function Visit(colors: seq<EnhancedColor>, p: Pass, i: nat, threshold: real, dist: (Rgb, Rgb) -> real): Pass
    requires i < |colors|
  {
    if i in p.processed then p
    else
      var g := [i] + Near(colors, i, |colors|, p.processed, threshold, dist);
      Pass(p.groups + [g], p.processed + Elems(g))
  }

  /** The state after the outer loop has visited indices 0 .. k-1. */
  function PassUpTo(colors: seq<EnhancedColor>, k: nat, threshold: real, dist: (Rgb, Rgb) -> real): (p: Pass)
    requires k <= |colors|
    ensures |p.groups| <= k
    ensures InRange(p.groups, |colors|)
    ensures forall a :: 0 <= a < |p.groups| ==> p.groups[a] != []
  {
    if k == 0 then Pass([], {})
    else
      var p := PassUpTo(colors, k - 1, threshold, dist);
      var q := Visit(colors, p, k - 1, threshold, dist);
      assert q != p ==> q.groups[|q.groups| - 1][0] == k - 1;
      q
  }

  /** The colours a group of indices names, in order. */
  predicate IndicesBelow(g: seq<nat>, n: nat) {
    forall k :: 0 <= k < |g| ==> g[k] < n
  }

  function Pick(colors: seq<EnhancedColor>, g: seq<nat>): (r: seq<EnhancedColor>)
    requires IndicesBelow(g, |colors|)
    ensures |r| == |g|
    ensures forall k :: 0 <= k < |g| ==> r[k] == colors[g[k]]
  {
    seq(|g|, k requires 0 <= k < |g| => colors[g[k]])
  }

  /** `reduce(0) { $0 + $1.frequency }` */
  function FreqSum(s: seq<EnhancedColor>): int {
    if s == [] then 0 else s[0].frequency + FreqSum(s[1..])
  }

  /** `createMergedColor`: the blended colour, whose frequency is the group's
      total; its scores start again at 0. */
  function CreateMerged(group: seq<EnhancedColor>, blend: seq<EnhancedColor> -> Rgb): (c: EnhancedColor)
  {
    NewColor(blend(group), FreqSum(group))
  }

  /** A group of one is kept as it is, a larger group is merged. */
  function MergedOf(group: seq<EnhancedColor>, blend: seq<EnhancedColor> -> Rgb): (c: EnhancedColor)
    requires group != []
    ensures c.frequency == FreqSum(group)
  {
    if |group| == 1 then
      assert group[1..] == [];
      group[0]
    else CreateMerged(group, blend)
  }

  function MergedAll(colors: seq<EnhancedColor>, groups: seq<seq<nat>>, blend: seq<EnhancedColor> -> Rgb): (r: seq<EnhancedColor>)
    requires InRange(groups, |colors|)
    requires forall a :: 0 <= a < |groups| ==> groups[a] != []
    ensures |r| == |groups|
  {
    if groups == [] then []
    else
      var init := groups[..|groups| - 1];
      assert forall a :: 0 <= a < |init| ==> init[a] == groups[a];
      MergedAll(colors, init, blend) + [MergedOf(Pick(colors, groups[|groups| - 1]), blend)]
  }

  /** What `mergeColors(colors, threshold)` returns. */
  function MergeOf(colors: seq<EnhancedColor>, threshold: real, dist: (Rgb, Rgb) -> real,
                   blend: seq<EnhancedColor> -> Rgb): seq<EnhancedColor>
  {
    MergedAll(colors, PassUpTo(colors, |colors|, threshold, dist).groups, blend)
  }

  method MergeColors(colors: seq<EnhancedColor>, threshold: real, dist: (Rgb, Rgb) -> real,
                     blend: seq<EnhancedColor> -> Rgb) returns (mergedColors: seq<EnhancedColor>)
    ensures mergedColors == MergeOf(colors, threshold, dist, blend)
  {
    mergedColors := [];
    var processedIndices: set<nat> := {};
    for i := 0 to |colors|
      invariant processedIndices == PassUpTo(colors, i, threshold, dist).processed
      invariant mergedColors == MergedAll(colors, PassUpTo(colors, i, threshold, dist).groups, blend)
    {
      if i in processedIndices {
        continue;
      }
      OpenStep(colors, i, threshold, dist, blend);
      var mergeGroup;
      mergeGroup, processedIndices := CollectGroup(colors, i, processedIndices, threshold, dist);
      var merged := if |mergeGroup| == 1 then mergeGroup[0] else CreateMerged(mergeGroup, blend);
      mergedColors := mergedColors + [merged];
    }
  }

  /** A visit that opens a group appends one merged colour. */
  lemma OpenStep(colors: seq<EnhancedColor>, i: nat, threshold: real, dist: (Rgb, Rgb) -> real,
                 blend: seq<EnhancedColor> -> Rgb)
    requires i < |colors| && i !in PassUpTo(colors, i, threshold, dist).processed
    ensures var p := PassUpTo(colors, i, threshold, dist);
      var g := [i] + Near(colors, i, |colors|, p.processed, threshold, dist);
      PassUpTo(colors, i + 1, threshold, dist) == Pass(p.groups + [g], p.processed + Elems(g)) &&
      MergedAll(colors, p.groups + [g], blend) == MergedAll(colors, p.groups, blend) + [MergedOf(Pick(colors, g), blend)]
  {
    var p := PassUpTo(colors, i, threshold, dist);
    var g := [i] + Near(colors, i, |colors|, p.processed, threshold, dist);
    MergedStep(colors, p.groups, g, blend);
  }

  /** The inner loop of `mergeColors` for the group opened by colour `i`: the
      group's colours, and the processed indices with the group's added. */
  method CollectGroup(colors: seq<EnhancedColor>, i: nat, processed: set<nat>, threshold: real,
                      dist: (Rgb, Rgb) -> real) returns (mergeGroup: seq<EnhancedColor>, processedIndices: set<nat>)
    requires i < |colors|
    ensures var members := [i] + Near(colors, i, |colors|, processed, threshold, dist);
      mergeGroup == Pick(colors, members) && processedIndices == processed + Elems(members)
  {
    mergeGroup := [colors[i]];
    ghost var members: seq<nat> := [i];
    processedIndices := processed + {i};
    for j := 0 to |colors|
      invariant members == [i] + Near(colors, i, j, processed, threshold, dist)
      invariant mergeGroup == Pick(colors, members)
      invariant processedIndices == processed + {i} + Elems(Near(colors, i, j, processed, threshold, dist))
    {
      ghost var members0, processed0 := members, processedIndices;
      if i != j && j !in processedIndices {
        if dist(colors[i].rgb, colors[j].rgb) < threshold {
          PickSnoc(colors, members, j);
          mergeGroup := mergeGroup + [colors[j]];
          members := members + [j];
          processedIndices := processedIndices + {j};
        }
      }
      CollectStep(colors, i, j, processed, threshold, dist, members0, processed0, members, processedIndices);
    }
    assert Elems(members) == {i} + Elems(Near(colors, i, |colors|, processed, threshold, dist));
  }

  /** One turn of the inner loop of `mergeColors` keeps its state. */
  lemma CollectStep(colors: seq<EnhancedColor>, i: nat, j: nat, processed: set<nat>, threshold: real,
                    dist: (Rgb, Rgb) -> real, members: seq<nat>, indices: set<nat>,
                    members': seq<nat>, indices': set<nat>)
    requires i < |colors| && j < |colors|
    requires members == [i] + Near(colors, i, j, processed, threshold, dist)
    requires indices == processed + {i} + Elems(Near(colors, i, j, processed, threshold, dist))
    requires var joins := i != j && j !in indices && dist(colors[i].rgb, colors[j].rgb) < threshold;
      members' == (if joins then members + [j] else members) &&
      indices' == (if joins then indices + {j} else indices)
    ensures members' == [i] + Near(colors, i, j + 1, processed, threshold, dist)
    ensures indices' == processed + {i} + Elems(Near(colors, i, j + 1, processed, threshold, dist))
  {
    var near := Near(colors, i, j, processed, threshold, dist);
    ScanStep(colors, i, j, processed, threshold, dist);
    if i != j && j !in indices && dist(colors[i].rgb, colors[j].rgb) < threshold {
      assert members' == [i] + (near + [j]);
    }
  }

  lemma PickSnoc(colors: seq<EnhancedColor>, g: seq<nat>, j: nat)
    requires IndicesBelow(g, |colors|) && j < |colors|
    ensures IndicesBelow(g + [j], |colors|)
    ensures Pick(colors, g + [j]) == Pick(colors, g) + [colors[j]]
  {
    assert IndicesBelow(g + [j], |colors|) by {
      forall k | 0 <= k < |g| + 1 ensures (g + [j])[k] < |colors| {
        if k < |g| {
          assert (g + [j])[k] == g[k];
        }
      }
    }
  }

  /** One step of the inner scan: index `j` joins the group iff it is not the
      opening index, is unprocessed and is close enough; the processed set as
      the loop holds it tells the same. */
  lemma ScanStep(colors: seq<EnhancedColor>, i: nat, j: nat, before: set<nat>, threshold: real, dist: (Rgb, Rgb) -> real)
    requires i < |colors| && j < |colors|
    ensures Near(colors, i, j + 1, before, threshold, dist) ==
      Near(colors, i, j, before, threshold, dist) +
      (if j != i && j !in before && dist(colors[i].rgb, colors[j].rgb) < threshold then [j] else [])
    ensures j != i ==> (j in before + {i} + Elems(Near(colors, i, j, before, threshold, dist)) <==> j in before)
    ensures Elems(Near(colors, i, j + 1, before, threshold, dist)) ==
      Elems(Near(colors, i, j, before, threshold, dist)) +
      (if j != i && j !in before && dist(colors[i].rgb, colors[j].rgb) < threshold then {j} else {})
  {
    var n := Near(colors, i, j, before, threshold, dist);
    if j != i && j !in before && dist(colors[i].rgb, colors[j].rgb) < threshold {
      assert Elems(n + [j]) == Elems(n) + {j};
    }
  }

  lemma MergedStep(colors: seq<EnhancedColor>, G: seq<seq<nat>>, g: seq<nat>, blend: seq<EnhancedColor> -> Rgb)
    requires InRange(G, |colors|) && g != [] && forall b :: 0 <= b < |g| ==> g[b] < |colors|
    requires forall a :: 0 <= a < |G| ==> G[a] != []
    ensures InRange(G + [g], |colors|)
    ensures MergedAll(colors, G + [g], blend) == MergedAll(colors, G, blend) + [MergedOf(Pick(colors, g), blend)]
  {
    assert (G + [g])[..|G|] == G;
  }

  /** The output has at most as many colours as the input. */
  lemma MergeShrinks(colors: seq<EnhancedColor>, threshold: real, dist: (Rgb, Rgb) -> real,
                     blend: seq<EnhancedColor> -> Rgb)
    ensures |MergeOf(colors, threshold, dist, blend)| <= |colors|
  {
  }

  /** What the outer loop keeps: the groups list every processed index exactly
      once, and nothing else. */
  predicate Consistent(p: Pass) {
    NoDup(Flatten<nat>(p.groups)) && Elems(Flatten<nat>(p.groups)) == p.processed
  }

  lemma {:induction false} PassConsistent(colors: seq<EnhancedColor>, k: nat, threshold: real, dist: (Rgb, Rgb) -> real)
    requires k <= |colors|
    ensures Consistent(PassUpTo(colors, k, threshold, dist))
  {
    if k > 0 {
      PassConsistent(colors, k - 1, threshold, dist);
      VisitConsistent(colors, k, threshold, dist);
    }
  }

  /** The visit of index `k - 1` keeps the state consistent. */
  lemma VisitConsistent(colors: seq<EnhancedColor>, k: nat, threshold: real, dist: (Rgb, Rgb) -> real)
    requires 0 < k <= |colors| && Consistent(PassUpTo(colors, k - 1, threshold, dist))
    ensures Consistent(PassUpTo(colors, k, threshold, dist))
  {
    VisitKeeps(colors, PassUpTo(colors, k - 1, threshold, dist), k - 1, threshold, dist,
               PassUpTo(colors, k, threshold, dist));
  }

  lemma VisitKeeps(colors: seq<EnhancedColor>, p: Pass, i: nat, threshold: real, dist: (Rgb, Rgb) -> real, q: Pass)
    requires i < |colors| && Consistent(p) && q == Visit(colors, p, i, threshold, dist)
    ensures Consistent(q)
  {
    if i !in p.processed {
      OpenConsistent(p, i, Near(colors, i, |colors|, p.processed, threshold, dist));
    }
  }

  /** Opening a group of an unprocessed index and unprocessed, increasing
      indices keeps the state consistent. */
  lemma OpenConsistent(p: Pass, i: nat, N: seq<nat>)
    requires Consistent(p) && i !in p.processed
    requires forall k :: 0 <= k < |N| ==> N[k] != i && N[k] !in p.processed
    requires forall a, b :: 0 <= a < b < |N| ==> N[a] < N[b]
    ensures Consistent(Pass(p.groups + [[i] + N], p.processed + Elems([i] + N)))
  {
    var G, g := p.groups, [i] + N;
    assert (G + [g])[..|G|] == G;
    FlattenSnoc<nat>(G, g);
    OpenedGroupNoDup(Flatten<nat>(G), i, N);
    assert Elems(Flatten<nat>(G) + g) == Elems(Flatten<nat>(G)) + Elems(g);
  }

  lemma NoDupAppend(a: seq<nat>, b: seq<nat>)
    requires NoDup(a) && NoDup(b)
    requires forall k :: 0 <= k < |b| ==> b[k] !in a
    ensures NoDup(a + b)
  {
    var c := a + b;
    forall x, y | 0 <= x < y < |c| ensures c[x] != c[y] {
      if x < |a| && y >= |a| {
        assert c[y] == b[y - |a|];
        assert c[x] in a;
      }
    }
  }

  /** Opening a group with an unprocessed index and unprocessed, increasing
      members keeps the processed indices free of repetitions. */
  lemma OpenedGroupNoDup(F: seq<nat>, i: nat, N: seq<nat>)
    requires NoDup(F) && i !in Elems(F)
    requires forall k :: 0 <= k < |N| ==> N[k] != i && N[k] !in Elems(F)
    requires forall a, b :: 0 <= a < b < |N| ==> N[a] < N[b]
    ensures NoDup(F + ([i] + N))
  {
    var g := [i] + N;
    forall x, y | 0 <= x < y < |g| ensures g[x] != g[y] {
      if x > 0 {
        assert g[x] == N[x - 1] && g[y] == N[y - 1];
      } else {
        assert g[y] == N[y - 1];
      }
    }
    forall k | 0 <= k < |g| ensures g[k] !in F {
      if k > 0 {
        assert g[k] == N[k - 1];
      }
      assert g[k] !in Elems(F);
    }
    NoDupAppend(F, g);
  }

  /** Every index the outer loop has visited is processed. */
  lemma {:induction false} PassCovers(colors: seq<EnhancedColor>, k: nat, threshold: real, dist: (Rgb, Rgb) -> real)
    requires k <= |colors|
    ensures forall x :: 0 <= x < k ==> x in PassUpTo(colors, k, threshold, dist).processed
  {
    if k > 0 {
      PassCovers(colors, k - 1, threshold, dist);
      var p := PassUpTo(colors, k - 1, threshold, dist);
      assert p.processed + {k - 1} <= Visit(colors, p, k - 1, threshold, dist).processed;
    }
  }

  /** The groups partition the indices: every index of the input lies in
      exactly one group, exactly once. */
  lemma GroupsPartition(colors: seq<EnhancedColor>, threshold: real, dist: (Rgb, Rgb) -> real)
    ensures var F := Flatten<nat>(PassUpTo(colors, |colors|, threshold, dist).groups);
      NoDup(F) && forall x: nat :: x in F <==> x < |colors|
  {
    var p := PassUpTo(colors, |colors|, threshold, dist);
    PassConsistent(colors, |colors|, threshold, dist);
    PassCovers(colors, |colors|, threshold, dist);
    FlattenInRange(p.groups, |colors|);
    var F := Flatten<nat>(p.groups);
    forall x: nat ensures x in F <==> x < |colors| {
      assert x in F <==> x in Elems(F);
    }
  }

  lemma {:induction false} FlattenInRange(G: seq<seq<nat>>, n: nat)
    requires InRange(G, n)
    ensures IndicesBelow(Flatten<nat>(G), n)
    decreases |G|
  {
    if G != [] {
      var init := G[..|G| - 1];
      assert InRange(init, n) by {
        forall a, b | 0 <= a < |init| && 0 <= b < |init[a]| ensures init[a][b] < n {
          assert init[a] == G[a];
        }
      }
      FlattenInRange(init, n);
      var last := G[|G| - 1];
      assert G == init + [last];
      FlattenSnoc<nat>(init, last);
      assert IndicesBelow(last, n) by {
        forall b | 0 <= b < |last| ensures last[b] < n {
          assert last[b] == G[|G| - 1][b];
        }
      }
      var F := Flatten<nat>(init) + last;
      forall k | 0 <= k < |F| ensures F[k] < n {
        if k >= |Flatten<nat>(init)| {
          assert F[k] == last[k - |Flatten<nat>(init)|];
        }
      }
    }
  }

  /** Merging keeps the total pixel count: each merged colour carries its
      group's total, and the groups partition the input. */
  lemma MergeKeepsFrequency(colors: seq<EnhancedColor>, threshold: real, dist: (Rgb, Rgb) -> real,
                            blend: seq<EnhancedColor> -> Rgb)
    ensures FreqSum(MergeOf(colors, threshold, dist, blend)) == FreqSum(colors)
  {
    var G := PassUpTo(colors, |colors|, threshold, dist).groups;
    var F := Flatten<nat>(G);
    FlattenInRange(G, |colors|);
    MergedFrequencies(colors, G, blend);
    GroupsPartition(colors, threshold, dist);
    var I := Iota(|colors|);
    IotaProperties(|colors|);
    NoDupMultiset(F, I);
    PickPermutation(colors, F, I);
    assert Pick(colors, I) == colors;
  }

  function Iota(n: nat): (r: seq<nat>)
    ensures |r| == n && forall k :: 0 <= k < n ==> r[k] == k
  {
    seq(n, k requires 0 <= k < n => k)
  }

  lemma IotaProperties(n: nat)
    ensures NoDup(Iota(n))
    ensures forall x: nat :: x in Iota(n) <==> x < n
  {
    var I := Iota(n);
    forall x: nat | x < n ensures x in I {
      assert I[x] == x;
    }
  }

  lemma {:induction false} FreqSumAppend(a: seq<EnhancedColor>, b: seq<EnhancedColor>)
    ensures FreqSum(a + b) == FreqSum(a) + FreqSum(b)
    decreases |a|
  {
    if a != [] {
      assert (a + b)[0] == a[0];
      assert (a + b)[1..] == a[1..] + b;
      FreqSumAppend(a[1..], b);
    } else {
      assert a + b == b;
    }
  }

  lemma {:induction false} MergedFrequencies(colors: seq<EnhancedColor>, G: seq<seq<nat>>, blend: seq<EnhancedColor> -> Rgb)
    requires InRange(G, |colors|)
    requires forall a :: 0 <= a < |G| ==> G[a] != []
    ensures IndicesBelow(Flatten<nat>(G), |colors|)
    ensures FreqSum(MergedAll(colors, G, blend)) == FreqSum(Pick(colors, Flatten<nat>(G)))
    decreases |G|
  {
    FlattenInRange(G, |colors|);
    if G != [] {
      var init := G[..|G| - 1];
      var last := G[|G| - 1];
      assert forall a :: 0 <= a < |init| ==> init[a] == G[a];
      assert Flatten<nat>(G) == Flatten<nat>(init) + last by {
        assert G == init + [last];
        FlattenSnoc<nat>(init, last);
      }
      MergedFrequencies(colors, init, blend);
      var m := MergedOf(Pick(colors, last), blend);
      FreqSumAppend(MergedAll(colors, init, blend), [m]);
      assert FreqSum([m]) == m.frequency;
      assert Pick(colors, Flatten<nat>(init) + last) == Pick(colors, Flatten<nat>(init)) + Pick(colors, last);
      FreqSumAppend(Pick(colors, Flatten<nat>(init)), Pick(colors, last));
    }
  }

  /** Without repetitions, the multiset of a sequence is its set. */
  lemma {:induction false} NoDupCount(a: seq<nat>, x: nat)
    requires NoDup(a)
    ensures multiset(a)[x] == if x in a then 1 else 0
    decreases |a|
  {
    if a != [] {
      assert a == [a[0]] + a[1..];
      assert NoDup(a[1..]) by {
        forall p, q | 0 <= p < q < |a[1..]| ensures a[1..][p] != a[1..][q] {
          assert a[1..][p] == a[p + 1] && a[1..][q] == a[q + 1];
        }
      }
      NoDupCount(a[1..], x);
      if x == a[0] {
        assert x !in a[1..] by {
          forall q | 0 <= q < |a[1..]| ensures a[1..][q] != x {
            assert a[1..][q] == a[q + 1];
          }
        }
      }
    }
  }

  lemma NoDupMultiset(a: seq<nat>, b: seq<nat>)
    requires NoDup(a) && NoDup(b)
    requires forall x: nat :: x in a <==> x in b
    ensures multiset(a) == multiset(b)
  {
    forall x: nat ensures multiset(a)[x] == multiset(b)[x] {
      NoDupCount(a, x);
      NoDupCount(b, x);
    }
  }

  /** Rearranging the indices does not change the frequency total. */
  lemma {:induction false} PickPermutation(colors: seq<EnhancedColor>, a: seq<nat>, b: seq<nat>)
    requires IndicesBelow(a, |colors|)
    requires multiset(a) == multiset(b)
    ensures IndicesBelow(b, |colors|)
    ensures FreqSum(Pick(colors, a)) == FreqSum(Pick(colors, b))
    decreases |a|
  {
    PermutationBelow(a, b, |colors|);
    if a != [] {
      var x := a[0];
      assert x in multiset(b);
      var k :| 0 <= k < |b| && b[k] == x;
      var b' := b[..k] + b[k + 1..];
      RemovePermutation(a, b, k);
      assert IndicesBelow(a[1..], |colors|) by {
        forall j | 0 <= j < |a[1..]| ensures a[1..][j] < |colors| {
          assert a[1..][j] == a[j + 1];
        }
      }
      PickPermutation(colors, a[1..], b');
      PickRemove(colors, b, k);
      assert Pick(colors, a)[0] == colors[x];
      assert Pick(colors, a)[1..] == Pick(colors, a[1..]);
    }
  }

  lemma RemovePermutation(a: seq<nat>, b: seq<nat>, k: nat)
    requires multiset(a) == multiset(b) && a != [] && k < |b| && b[k] == a[0]
    ensures multiset(a[1..]) == multiset(b[..k] + b[k + 1..])
  {
    assert b == b[..k] + [b[k]] + b[k + 1..];
    assert multiset(b) == multiset(b[..k]) + multiset{b[k]} + multiset(b[k + 1..]);
    assert multiset(b[..k] + b[k + 1..]) == multiset(b[..k]) + multiset(b[k + 1..]);
    assert a == [a[0]] + a[1..];
    assert multiset(a) == multiset{a[0]} + multiset(a[1..]);
    forall x ensures multiset(a[1..])[x] == multiset(b[..k] + b[k + 1..])[x] {
      assert multiset(a)[x] == multiset(b)[x];
    }
  }

  lemma PermutationBelow(a: seq<nat>, b: seq<nat>, n: nat)
    requires IndicesBelow(a, n) && multiset(a) == multiset(b)
    ensures IndicesBelow(b, n)
  {
    forall k | 0 <= k < |b| ensures b[k] < n {
      assert b[k] in multiset(a);
      var j :| 0 <= j < |a| && a[j] == b[k];
    }
  }

  lemma PickAppend(colors: seq<EnhancedColor>, a: seq<nat>, b: seq<nat>)
    requires IndicesBelow(a, |colors|) && IndicesBelow(b, |colors|)
    ensures IndicesBelow(a + b, |colors|)
    ensures Pick(colors, a + b) == Pick(colors, a) + Pick(colors, b)
  {
    assert IndicesBelow(a + b, |colors|) by {
      forall j | 0 <= j < |a + b| ensures (a + b)[j] < |colors| {
        if j >= |a| {
          assert (a + b)[j] == b[j - |a|];
        }
      }
    }
  }

  /** Taking one index out of a group takes its colour's frequency out of the total. */
  lemma PickRemove(colors: seq<EnhancedColor>, b: seq<nat>, k: nat)
    requires IndicesBelow(b, |colors|) && k < |b|
    ensures IndicesBelow(b[..k] + b[k + 1..], |colors|)
    ensures FreqSum(Pick(colors, b)) == FreqSum(Pick(colors, b[..k] + b[k + 1..])) + colors[b[k]].frequency
  {
    var l, m, r := b[..k], [b[k]], b[k + 1..];
    assert b == l + (m + r);
    assert IndicesBelow(l, |colors|) by {
      forall j | 0 <= j < |l| ensures l[j] < |colors| {
        assert l[j] == b[j];
      }
    }
    assert IndicesBelow(r, |colors|) by {
      forall j | 0 <= j < |r| ensures r[j] < |colors| {
        assert r[j] == b[k + 1 + j];
      }
    }
    PickAppend(colors, m, r);
    PickAppend(colors, l, m + r);
    PickAppend(colors, l, r);
    FreqSumAppend(Pick(colors, l), Pick(colors, m + r));
    FreqSumAppend(Pick(colors, m), Pick(colors, r));
    FreqSumAppend(Pick(colors, l), Pick(colors, r));
    assert FreqSum(Pick(colors, m)) == colors[b[k]].frequency;
  }
}
