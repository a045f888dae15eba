/** Small helpers shared by the models: optional values, the sum of a finite map
    and the stable sort that `Array.prototype.sort` guarantees. */
module Collections {

  datatype Option<+T> = None | Some(value: T)

  function Max(a: int, b: int): int { if a < b then b else a }

  function Min(a: int, b: int): int { if a < b then a else b }

  /** The sum of the values of a finite map. */
  ghost function MapSum<K(!new)>(m: map<K, nat>): nat
    decreases |m|
  {
    if |m| == 0 then 0
    else
      var k :| k in m;
      m[k] + MapSum(m - {k})
  }

  /** The key whose value the sum adds first. */
  lemma MapSumHead<K(!new)>(m: map<K, nat>) returns (k: K)
    requires |m| > 0
    ensures k in m && MapSum(m) == m[k] + MapSum(m - {k})
  {
    k :| k in m && MapSum(m) == m[k] + MapSum(m - {k});
  }

  lemma {:induction false} MapSumPick<K(!new)>(m: map<K, nat>, k: K)
    requires k in m
    ensures MapSum(m) == m[k] + MapSum(m - {k})
    decreases |m|
  {
    assert |m| > 0;
    var j := MapSumHead(m);
    if j != k {
      var mj, mk := m - {j}, m - {k};
      assert mj.Keys == m.Keys - {j} && mk.Keys == m.Keys - {k};
      assert |mj| == |mj.Keys| < |m.Keys| == |m|;
      assert |mk| == |mk.Keys| < |m.Keys| == |m|;
      MapSumPick(mj, k);
      MapSumPick(mk, j);
      assert mj - {k} == mk - {j};
    }
  }

  lemma MapSumUpdate<K(!new)>(m: map<K, nat>, k: K, n: nat)
    ensures MapSum(m[k := n]) == MapSum(m) - (if k in m then m[k] else 0) + n
  {
    MapSumPick(m[k := n], k);
    assert m[k := n] - {k} == m - {k};
    if k in m {
      MapSumPick(m, k);
    } else {
      assert m - {k} == m;
    }
  }

  lemma MapCount<K, V>(m: map<K, V>, k: K, x: V)
    ensures |m[k := x]| == |m| + (if k in m then 0 else 1)
  {
    assert m[k := x].Keys == m.Keys + {k};
    assert |m[k := x]| == |m[k := x].Keys| && |m| == |m.Keys|;
    if k in m {
      assert m.Keys + {k} == m.Keys;
    }
  }

  ghost predicate SortedBy<T>(s: seq<T>, key: T -> int) {
    forall i, j :: 0 <= i < j < |s| ==> key(s[i]) <= key(s[j])
  }

  /** Inserts after every element that is not larger, so equal keys keep their order. */
  function InsertBy<T>(s: seq<T>, x: T, key: T -> int): seq<T> {
    if s == [] || key(s[|s| - 1]) <= key(x) then s + [x]
    else InsertBy(s[..|s| - 1], x, key) + [s[|s| - 1]]
  }

  function StableSort<T>(s: seq<T>, key: T -> int): seq<T> {
    if s == [] then [] else InsertBy(StableSort(s[..|s| - 1], key), s[|s| - 1], key)
  }

  lemma {:induction false} InsertByContents<T>(s: seq<T>, x: T, key: T -> int)
    ensures multiset(InsertBy(s, x, key)) == multiset(s) + multiset{x}
  {
    if !(s == [] || key(s[|s| - 1]) <= key(x)) {
      var front, last := s[..|s| - 1], s[|s| - 1];
      assert s == front + [last];
      InsertByContents(front, x, key);
      assert InsertBy(s, x, key) == InsertBy(front, x, key) + [last];
    }
  }

  lemma {:induction false} InsertBySorted<T>(s: seq<T>, x: T, key: T -> int)
    requires SortedBy(s, key)
    ensures SortedBy(InsertBy(s, x, key), key)
  {
    if !(s == [] || key(s[|s| - 1]) <= key(x)) {
      var front, last := s[..|s| - 1], s[|s| - 1];
      InsertBySorted(front, x, key);
      InsertByContents(front, x, key);
      var r := InsertBy(front, x, key);
      forall i | 0 <= i < |r| ensures key(r[i]) <= key(last) {
        assert r[i] in multiset(r);
        if r[i] != x {
          assert r[i] in multiset(front);
          var j :| 0 <= j < |front| && front[j] == r[i];
          assert s[j] == r[i];
        }
      }
    }
  }

  lemma {:induction false} StableSortSorted<T>(s: seq<T>, key: T -> int)
    ensures SortedBy(StableSort(s, key), key)
    ensures multiset(StableSort(s, key)) == multiset(s)
    ensures |StableSort(s, key)| == |s|
  {
    if s != [] {
      var front, last := s[..|s| - 1], s[|s| - 1];
      StableSortSorted(front, key);
      InsertBySorted(StableSort(front, key), last, key);
      InsertByContents(StableSort(front, key), last, key);
      assert s == front + [last];
      assert |multiset(StableSort(s, key))| == |StableSort(s, key)|;
      assert |multiset(s)| == |s|;
    }
  }

  /** The elements with the given key, in their order. */
  function WithKeyOf<T>(s: seq<T>, key: T -> int, k: int): seq<T> {
    if s == [] then []
    else WithKeyOf(s[..|s| - 1], key, k) + if key(s[|s| - 1]) == k then [s[|s| - 1]] else []
  }

  lemma {:induction false} InsertByStable<T>(s: seq<T>, x: T, key: T -> int, k: int)
    requires SortedBy(s, key)
    ensures WithKeyOf(InsertBy(s, x, key), key, k) == WithKeyOf(s, key, k) + if key(x) == k then [x] else []
  {
    if s == [] || key(s[|s| - 1]) <= key(x) {
      assert (s + [x])[..|s|] == s;
    } else {
      var front, last := s[..|s| - 1], s[|s| - 1];
      InsertByStable(front, x, key, k);
      var r := InsertBy(front, x, key);
      assert (r + [last])[..|r|] == r;
      if key(x) == k { assert key(last) != k; }
    }
  }

  /** Equal keys keep their order: the sort is stable. */
  lemma {:induction false} StableSortStable<T>(s: seq<T>, key: T -> int, k: int)
    ensures WithKeyOf(StableSort(s, key), key, k) == WithKeyOf(s, key, k)
  {
    if s != [] {
      StableSortStable(s[..|s| - 1], key, k);
      StableSortSorted(s[..|s| - 1], key);
      InsertByStable(StableSort(s[..|s| - 1], key), s[|s| - 1], key, k);
    }
  }

  predicate Distinct(s: seq<nat>) { forall i, j :: 0 <= i < j < |s| ==> s[i] != s[j] }

  /** A permutation of a sequence without repetitions has none either. */
  lemma PermutationDistinct<T>(s: seq<T>, p: seq<T>)
    requires multiset(s) == multiset(p)
    requires forall i, j :: 0 <= i < j < |s| ==> s[i] != s[j]
    ensures forall i, j :: 0 <= i < j < |p| ==> p[i] != p[j]
  {
    forall i, j | 0 <= i < j < |p| ensures p[i] != p[j] {
      if p[i] == p[j] {
        CountTwice(p, i, j);
        CountOnce(s, p[i]);
        assert false;
      }
    }
  }

  lemma CountTwice<T>(p: seq<T>, i: nat, j: nat)
    requires i < j < |p| && p[i] == p[j]
    ensures multiset(p)[p[i]] >= 2
  {
    assert p == p[..i] + [p[i]] + p[i + 1..j] + [p[j]] + p[j + 1..];
  }

  lemma CountOnce<T>(s: seq<T>, x: T)
    requires forall i, j :: 0 <= i < j < |s| ==> s[i] != s[j]
    ensures multiset(s)[x] <= 1
  {
    if x in s {
      var k :| 0 <= k < |s| && s[k] == x;
      assert s == s[..k] + [x] + s[k + 1..];
      assert x !in s[..k] && x !in s[k + 1..];
    }
  }

  function SeqSum<T>(s: seq<T>, weight: T -> nat): nat {
    if s == [] then 0 else SeqSum(s[..|s| - 1], weight) + weight(s[|s| - 1])
  }

  lemma {:induction false} SeqSumUpdate<T>(s: seq<T>, weight: T -> nat, i: nat, x: T)
    requires i < |s|
    ensures SeqSum(s[i := x], weight) == SeqSum(s, weight) - weight(s[i]) + weight(x)
  {
    var front := s[..|s| - 1];
    var updated := s[i := x];
    if i == |s| - 1 {
      assert updated[..|updated| - 1] == front;
    } else {
      SeqSumUpdate(front, weight, i, x);
      assert updated[..|updated| - 1] == front[i := x];
    }
  }

  lemma SeqSumAppend<T>(s: seq<T>, weight: T -> nat, x: T)
    ensures SeqSum(s + [x], weight) == SeqSum(s, weight) + weight(x)
  {
    assert (s + [x])[..|s|] == s;
  }

  lemma SubsetSize<T>(small: set<T>, large: set<T>)
    requires small <= large
    ensures |small| <= |large|
  {
    assert large == small + (large - small);
  }

  // ------------------------------------- keys in the order of their insertion

  /** The remaining keys of a `Map` or `Set`, in their order, once some are deleted. */
  function Without(order: seq<string>, dropped: set<string>): seq<string> {
    if order == [] then []
    else
      var front, last := Without(order[..|order| - 1], dropped), order[|order| - 1];
      if last in dropped then front else front + [last]
  }

  lemma {:induction false} WithoutMembers(order: seq<string>, dropped: set<string>)
    requires forall i, j :: 0 <= i < j < |order| ==> order[i] != order[j]
    ensures var r := Without(order, dropped);
            && (forall i, j :: 0 <= i < j < |r| ==> r[i] != r[j])
            && (forall key :: key in r <==> key in order && key !in dropped)
  {
    if order != [] {
      var front, last := order[..|order| - 1], order[|order| - 1];
      WithoutMembers(front, dropped);
      assert order == front + [last];
      assert last !in front;
    }
  }

  lemma {:induction false} WithoutNothing(order: seq<string>)
    ensures Without(order, {}) == order
  {
    if order != [] { WithoutNothing(order[..|order| - 1]); }
  }

  lemma {:induction false} WithoutMore(order: seq<string>, dropped: set<string>, key: string)
    ensures Without(Without(order, dropped), {key}) == Without(order, dropped + {key})
  {
    if order != [] {
      var front, last := order[..|order| - 1], order[|order| - 1];
      WithoutMore(front, dropped, key);
      if last !in dropped {
        var r := Without(front, dropped);
        assert (r + [last])[..|r|] == r;
      }
    }
  }

  function KeySet(keys: seq<string>): set<string> { set key | key in keys }

  lemma KeySetMore(keys: seq<string>, key: string)
    ensures KeySet(keys + [key]) == KeySet(keys) + {key}
  {
  }

  lemma KeySetNext(keys: seq<string>, i: nat)
    requires i < |keys|
    ensures KeySet(keys[..i + 1]) == KeySet(keys[..i]) + {keys[i]}
  {
    assert keys[..i + 1] == keys[..i] + [keys[i]];
  }
}
