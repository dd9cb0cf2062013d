/** `sorted { key($0) > key($1) }`: every extractor ranks candidates by a score
    in descending order. The model fixes one order among equal keys (input
    order, i.e. a stable insertion sort); the source's library sort does not
    promise one, and nothing proved here depends on it. */
module Sorting {

  predicate SortedDesc<T>(s: seq<T>, key: T -> real) {
    forall i, j :: 0 <= i < j < |s| ==> key(s[i]) >= key(s[j])
  }

  function Insert<T>(x: T, s: seq<T>, key: T -> real): (r: seq<T>)
    requires SortedDesc(s, key)
    ensures |r| == |s| + 1
    ensures multiset(r) == multiset(s) + multiset{x}
    ensures SortedDesc(r, key)
  {
    if s == [] || key(x) >= key(s[0]) then
      LeadSorted(x, s, key);
      [x] + s
    else
      var t := Insert(x, s[1..], key);
      InsertLead(x, s, t, key);
      [s[0]] + t
  }

  lemma InsertLead<T>(x: T, s: seq<T>, t: seq<T>, key: T -> real)
    requires SortedDesc(s, key) && s != [] && key(x) < key(s[0])
    requires multiset(t) == multiset(s[1..]) + multiset{x} && SortedDesc(t, key)
    ensures multiset([s[0]] + t) == multiset(s) + multiset{x}
    ensures SortedDesc([s[0]] + t, key)
  {
    assert s == [s[0]] + s[1..];
    forall k | 0 <= k < |t| ensures key(s[0]) >= key(t[k]) {
      assert t[k] in multiset(t);
      if t[k] != x {
        assert t[k] in multiset(s[1..]);
        var m :| 0 <= m < |s[1..]| && s[1..][m] == t[k];
        assert s[m + 1] == t[k];
      }
    }
    LeadSorted(s[0], t, key);
  }

  lemma LeadSorted<T>(y: T, t: seq<T>, key: T -> real)
    requires SortedDesc(t, key)
    requires forall k :: 0 <= k < |t| ==> key(y) >= key(t[k])
    ensures SortedDesc([y] + t, key)
  {
    var u := [y] + t;
    forall i, j | 0 <= i < j < |u| ensures key(u[i]) >= key(u[j]) {
      if i == 0 {
        assert u[j] == t[j - 1];
      } else {
        assert u[i] == t[i - 1] && u[j] == t[j - 1];
      }
    }
  }

  /** The input rearranged (same multiset of elements) into descending key order. */
  function SortDesc<T>(s: seq<T>, key: T -> real): (r: seq<T>)
    ensures |r| == |s|
    ensures multiset(r) == multiset(s)
    ensures SortedDesc(r, key)
  {
    if s == [] then []
    else
      assert s == [s[0]] + s[1..];
      Insert(s[0], SortDesc(s[1..], key), key)
  }

  /** `prefix(n)`: the first min(n, |s|) elements (none for n <= 0). */
  function Prefix<T>(s: seq<T>, n: int): (r: seq<T>)
    ensures |r| == if n <= 0 then 0 else if n < |s| then n else |s|
    ensures r <= s
  {
    if n <= 0 then [] else if n < |s| then s[..n] else s
  }

  /** The first n elements of a sorted sequence are its n best: none of the rest
      has a larger key. */
  lemma PrefixIsTop<T>(s: seq<T>, key: T -> real, n: int)
    requires SortedDesc(s, key)
    ensures forall i, j :: 0 <= i < |Prefix(s, n)| <= j < |s| ==> key(s[i]) >= key(s[j])
  {
  }

  /** Where an element of a rearrangement sits in the original. */
  lemma Rearranged<T>(r: seq<T>, o: seq<T>, i: nat) returns (k: nat)
    requires multiset(r) == multiset(o) && i < |r|
    ensures k < |o| && o[k] == r[i]
  {
    assert r[i] in multiset(o);
    k :| k < |o| && o[k] == r[i];
  }

  lemma StillThere<T>(r: seq<T>, o: seq<T>, x: T)
    requires multiset(r) == multiset(o) && x in o
    ensures x in r
  {
    assert x in multiset(r);
  }
}
