/** Sequence operations the journal is built from: `filter`, grouping records
    by a key, and the distinct keys of a sequence in first-seen order. */
module Grouping {

  /** The elements of `s` that satisfy `p`, in their original order
      (`Array.prototype.filter`). */
  function Filter<T(!new)>(s: seq<T>, p: T -> bool): (r: seq<T>)
    ensures |r| <= |s|
    ensures forall x :: x in r <==> x in s && p(x)
  {
    if s == [] then []
    else
      var init := Filter(s[..|s| - 1], p);
      assert s == s[..|s| - 1] + [s[|s| - 1]];
      if p(s[|s| - 1]) then init + [s[|s| - 1]] else init
  }

  lemma FilterSnoc<T(!new)>(s: seq<T>, x: T, p: T -> bool)
    ensures Filter(s + [x], p) == Filter(s, p) + (if p(x) then [x] else [])
  {
    assert (s + [x])[..|s|] == s;
  }

  /** Filtering a concatenation filters each part and keeps their order. */
  lemma {:induction false} FilterAppend<T(!new)>(a: seq<T>, b: seq<T>, p: T -> bool)
    ensures Filter(a + b, p) == Filter(a, p) + Filter(b, p)
  {
    if b == [] {
      assert a + b == a;
    } else {
      var b' := b[..|b| - 1];
      var x := b[|b| - 1];
      assert b == b' + [x];
      assert a + b == (a + b') + [x];
      FilterAppend(a, b', p);
      FilterSnoc(a + b', x, p);
      FilterSnoc(b', x, p);
    }
  }

  /** A sequence whose elements all pass is left as it is. */
  lemma {:induction false} FilterAll<T(!new)>(s: seq<T>, p: T -> bool)
    requires forall x :: x in s ==> p(x)
    ensures Filter(s, p) == s
  {
    if s != [] {
      var s' := s[..|s| - 1];
      assert s == s' + [s[|s| - 1]];
      FilterAll(s', p);
      FilterSnoc(s', s[|s| - 1], p);
    }
  }

  /** A sequence in which nothing passes filters to the empty sequence. */
  lemma FilterNone<T(!new)>(s: seq<T>, p: T -> bool)
    requires forall x :: x in s ==> !p(x)
    ensures Filter(s, p) == []
  {
  }

  /** The keys of `s` that are distinct at every pair of positions. */
  predicate DistinctBy<T(!new), K(!new, ==)>(s: seq<T>, key: T -> K) {
    forall i, j :: 0 <= i < j < |s| ==> key(s[i]) != key(s[j])
  }

  /** Filtering keeps keys that were distinct distinct. */
  lemma {:induction false} FilterKeepsDistinct<T(!new), K(!new)>(s: seq<T>, p: T -> bool, key: T -> K)
    requires DistinctBy(s, key)
    ensures DistinctBy(Filter(s, p), key)
  {
    if s != [] {
      var s' := s[..|s| - 1];
      var x := s[|s| - 1];
      assert s == s' + [x];
      FilterKeepsDistinct(s', p, key);
      FilterSnoc(s', x, p);
      var init := Filter(s', p);
      forall e | e in init
        ensures key(e) != key(x)
      {
        var k :| 0 <= k < |s'| && s'[k] == e;
        assert s[k] == e;
      }
    }
  }

  /** No element repeats. */
  predicate Distinct<K(!new, ==)>(ks: seq<K>) {
    forall i, j :: 0 <= i < j < |ks| ==> ks[i] != ks[j]
  }

  /** The key of every element, position by position. */
  function Keys<T, K>(s: seq<T>, key: T -> K): (r: seq<K>)
    ensures |r| == |s|
    ensures forall i :: 0 <= i < |s| ==> r[i] == key(s[i])
  {
    if s == [] then [] else Keys(s[..|s| - 1], key) + [key(s[|s| - 1])]
  }

  lemma KeysSnoc<T(!new), K(!new)>(s: seq<T>, x: T, key: T -> K)
    ensures Keys(s + [x], key) == Keys(s, key) + [key(x)]
  {
  }

  /** The elements whose key is `k`, in order (`filter(g => g.key === k)`). */
  function Group<T(!new), K(!new, ==)>(s: seq<T>, key: T -> K, k: K): (r: seq<T>)
    ensures |r| <= |s|
    ensures forall x :: x in r <==> x in s && key(x) == k
  {
    Filter(s, x => key(x) == k)
  }

  lemma GroupSnoc<T(!new), K(!new)>(s: seq<T>, x: T, key: T -> K, k: K)
    ensures Group(s + [x], key, k) == Group(s, key, k) + (if key(x) == k then [x] else [])
  {
    FilterSnoc(s, x, y => key(y) == k);
  }

  /** A group no element belongs to is empty. */
  lemma GroupNone<T(!new), K(!new)>(s: seq<T>, key: T -> K, k: K)
    requires forall x :: x in s ==> key(x) != k
    ensures Group(s, key, k) == []
  {
    FilterNone(s, y => key(y) == k);
  }

  /** A key that no element carries has an empty group. */
  lemma GroupAbsent<T(!new), K(!new)>(s: seq<T>, key: T -> K, k: K)
    requires k !in Keys(s, key)
    ensures Group(s, key, k) == []
  {
    forall x | x in s
      ensures key(x) != k
    {
      var i :| 0 <= i < |s| && s[i] == x;
      assert Keys(s, key)[i] == key(x);
    }
    GroupNone(s, key, k);
  }

  /** The elements whose key is none of `ks`. */
  function Outside<T(!new), K(!new, ==)>(s: seq<T>, key: T -> K, ks: seq<K>): (r: seq<T>)
    ensures forall x :: x in r <==> x in s && key(x) !in ks
  {
    Filter(s, x => key(x) !in ks)
  }

  /** The distinct elements of `s`, each where it is first seen. */
  function Dedup<K(!new, ==)>(s: seq<K>): (r: seq<K>)
    ensures Distinct(r)
    ensures forall x :: x in r <==> x in s
    ensures |r| <= |s|
  {
    if s == [] then []
    else
      var init := Dedup(s[..|s| - 1]);
      assert s == s[..|s| - 1] + [s[|s| - 1]];
      if s[|s| - 1] in init then init else init + [s[|s| - 1]]
  }

  lemma DedupSnoc<K(!new)>(s: seq<K>, x: K)
    ensures Dedup(s + [x]) == if x in s then Dedup(s) else Dedup(s) + [x]
  {
    assert (s + [x])[..|s|] == s;
  }

  /** The position where `x` first occurs in `s`. */
  function FirstIndex<K(!new, ==)>(s: seq<K>, x: K): (i: nat)
    requires x in s
    ensures i < |s| && s[i] == x
    ensures forall j :: 0 <= j < i ==> s[j] != x
  {
    if s[0] == x then 0 else 1 + FirstIndex(s[1..], x)
  }

  lemma {:induction false} FirstIndexSnoc<K(!new)>(s: seq<K>, y: K, x: K)
    requires x in s
    ensures FirstIndex(s + [y], x) == FirstIndex(s, x)
  {
    var i := FirstIndex(s, x);
    var j := FirstIndex(s + [y], x);
    assert (s + [y])[i] == x;
  }

  /** `Dedup` lists the keys in the order of their first occurrences. */
  lemma {:induction false} DedupFirstSeen<K(!new)>(s: seq<K>)
    ensures forall i, j :: 0 <= i < j < |Dedup(s)| ==>
      FirstIndex(s, Dedup(s)[i]) < FirstIndex(s, Dedup(s)[j])
  {
    if s != [] {
      var s' := s[..|s| - 1];
      var x := s[|s| - 1];
      assert s == s' + [x];
      DedupFirstSeen(s');
      DedupSnoc(s', x);
      var d', d := Dedup(s'), Dedup(s);
      forall i, j | 0 <= i < j < |d|
        ensures FirstIndex(s, d[i]) < FirstIndex(s, d[j])
      {
        FirstIndexSnoc(s', x, d[i]);
        if j < |d'| {
          FirstIndexSnoc(s', x, d[j]);
        } else {
          assert d[j] == x && x !in s';
        }
      }
    }
  }

  /** The number of elements whose key is one of `ks`, group by group. */
  function GroupSizes<T(!new), K(!new, ==)>(ks: seq<K>, s: seq<T>, key: T -> K): nat {
    if ks == [] then 0
    else GroupSizes(ks[..|ks| - 1], s, key) + |Group(s, key, ks[|ks| - 1])|
  }

  lemma {:induction false} GroupSizesEmpty<T(!new), K(!new)>(ks: seq<K>, key: T -> K)
    ensures GroupSizes(ks, [], key) == 0
  {
    if ks != [] {
      GroupSizesEmpty(ks[..|ks| - 1], key);
    }
  }

  /** One more element adds one to the sizes exactly when its key is listed. */
  lemma {:induction false} GroupSizesSnoc<T(!new), K(!new)>(ks: seq<K>, s: seq<T>, x: T, key: T -> K)
    requires Distinct(ks)
    ensures GroupSizes(ks, s + [x], key) == GroupSizes(ks, s, key) + (if key(x) in ks then 1 else 0)
  {
    if ks != [] {
      var ks' := ks[..|ks| - 1];
      var k := ks[|ks| - 1];
      assert ks == ks' + [k];
      GroupSizesSnoc(ks', s, x, key);
      GroupSnoc(s, x, key, k);
      assert k !in ks';
    }
  }

  /** With distinct keys, the groups of `ks` and the elements outside them
      account for every element exactly once. */
  lemma {:induction false} GroupSizesCover<T(!new), K(!new)>(ks: seq<K>, s: seq<T>, key: T -> K)
    requires Distinct(ks)
    ensures GroupSizes(ks, s, key) + |Outside(s, key, ks)| == |s|
  {
    if s == [] {
      GroupSizesEmpty(ks, key);
    } else {
      var s' := s[..|s| - 1];
      var x := s[|s| - 1];
      assert s == s' + [x];
      GroupSizesCover(ks, s', key);
      GroupSizesSnoc(ks, s', x, key);
      FilterSnoc(s', x, y => key(y) !in ks);
    }
  }

  /** The groups of all distinct keys of `s` together hold every element of `s`. */
  lemma GroupSizesOfAllKeys<T(!new), K(!new)>(s: seq<T>, key: T -> K)
    ensures GroupSizes(Dedup(Keys(s, key)), s, key) == |s|
  {
    var ks := Dedup(Keys(s, key));
    GroupSizesCover(ks, s, key);
    forall x | x in s
      ensures key(x) in ks
    {
      var i :| 0 <= i < |s| && s[i] == x;
      assert Keys(s, key)[i] == key(x);
    }
    FilterNone(s, y => key(y) !in ks);
  }
}
