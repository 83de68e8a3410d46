/** Python's insertion-ordered `dict`, and the grouping loop built on it.

    A dict is an association list whose keys keep the order in which they
    were first inserted. `GroupFold` is the loop

        for x in s:
            if key(x) not in d: d[key(x)] = init(key(x))
            d[key(x)] = add(d[key(x)], x)

    which every version of the analysed code uses to group log records.
    `GroupFoldSpec` states its meaning independently of the loop: the keys
    are the distinct keys of `s` in order of first appearance, and each
    key's value is `add` folded over exactly the elements with that key,
    in input order. */
module ODict {
  import opened Wrappers
  import opened Seqs

  type Dict<K, V> = seq<(K, V)>

  function Keys<K, V>(d: Dict<K, V>): (r: seq<K>)
    ensures |r| == |d|
    ensures forall i :: 0 <= i < |d| ==> r[i] == d[i].0
  {
    if |d| == 0 then [] else Keys(d[..|d| - 1]) + [d[|d| - 1].0]
  }

  function Values<K, V>(d: Dict<K, V>): (r: seq<V>)
    ensures |r| == |d|
    ensures forall i :: 0 <= i < |d| ==> r[i] == d[i].1
  {
    if |d| == 0 then [] else Values(d[..|d| - 1]) + [d[|d| - 1].1]
  }

  /** `d.get(k)`. */
  function Get<K(==), V>(d: Dict<K, V>, k: K): (r: Option<V>)
    ensures r.None? <==> k !in Keys(d)
    ensures r.Some? ==> r.value == d[IndexOf(Keys(d), k)].1
  {
    if |d| == 0 then None
    else if d[0].0 == k then Some(d[0].1)
    else
      assert Keys(d) == [d[0].0] + Keys(d[1..]);
      Get(d[1..], k)
  }

  /** In a dict with distinct keys, the entry at `i` is what its key
      looks up. */
  lemma GetAt<K, V>(d: Dict<K, V>, i: nat)
    requires NoDup(Keys(d)) && i < |d|
    ensures Get(d, d[i].0) == Some(d[i].1)
  {
    var ks := Keys(d);
    NoDupNotBefore(ks, i);
    IndexOfAt(ks, i, d[i].0);
  }

  lemma KeysSnoc<K, V>(d: Dict<K, V>)
    requires 0 < |d|
    ensures Keys(d) == Keys(d[..|d| - 1]) + [d[|d| - 1].0]
  {
  }

  /** A key already among the earlier entries is looked up there. */
  lemma GetSnocOther<K, V>(d: Dict<K, V>, k: K)
    requires 0 < |d| && k in Keys(d[..|d| - 1])
    ensures Get(d, k) == Get(d[..|d| - 1], k)
  {
    var n := |d| - 1;
    KeysSnoc(d);
    assert Keys(d)[..n] == Keys(d[..n]);
    IndexOfPrefix(Keys(d), n, k);
  }

  /** `d[k] = v`: replaces the value in place when `k` is present, otherwise
      appends a new entry. */
  function Put<K(==), V>(d: Dict<K, V>, k: K, v: V): (r: Dict<K, V>)
    ensures k in Keys(d) ==> r == d[IndexOf(Keys(d), k) := (k, v)]
    ensures k !in Keys(d) ==> r == d + [(k, v)]
  {
    if k in Keys(d) then d[IndexOf(Keys(d), k) := (k, v)] else d + [(k, v)]
  }

  /** `d[k] = v` keeps the keys when `k` is present and appends it
      otherwise, so distinct keys stay distinct. */
  lemma PutKeys<K, V>(d: Dict<K, V>, k: K, v: V)
    requires NoDup(Keys(d))
    ensures Keys(Put(d, k, v)) == if k in Keys(d) then Keys(d) else Keys(d) + [k]
    ensures NoDup(Keys(Put(d, k, v)))
  {
    var r := Put(d, k, v);
    if k in Keys(d) {
      var i := IndexOf(Keys(d), k);
      assert forall j :: 0 <= j < |r| ==> Keys(r)[j] == Keys(d)[j];
      assert Keys(r) == Keys(d);
    } else {
      assert forall j :: 0 <= j < |d| ==> Keys(r)[j] == Keys(d)[j];
      assert Keys(r) == Keys(d) + [k];
    }
  }

  lemma PutGet<K, V>(d: Dict<K, V>, k: K, v: V, k': K)
    requires NoDup(Keys(d))
    ensures Keys(Put(d, k, v)) == if k in Keys(d) then Keys(d) else Keys(d) + [k]
    ensures NoDup(Keys(Put(d, k, v)))
    ensures Get(Put(d, k, v), k') == if k' == k then Some(v) else Get(d, k')
  {
    PutKeys(d, k, v);
    var r := Put(d, k, v);
    if k' in Keys(d) {
      var j := IndexOf(Keys(d), k');
      assert Keys(r)[j] == k';
      assert Keys(r)[..j] == Keys(d)[..j];
      IndexOfAt(Keys(r), j, k');
    } else if k' == k {
      assert Keys(r)[..|d|] == Keys(d);
      IndexOfAt(Keys(r), |d|, k);
    }
  }

  /** The lookup half of `PutGet`. */
  lemma PutLookup<K, V>(d: Dict<K, V>, k: K, v: V, k': K)
    requires NoDup(Keys(d))
    ensures Get(Put(d, k, v), k') == if k' == k then Some(v) else Get(d, k')
  {
    PutGet(d, k, v, k');
  }

  /** With distinct keys the last key occurs nowhere before. */
  lemma LastKeyFresh<K, V>(d: Dict<K, V>)
    requires 0 < |d| && NoDup(Keys(d))
    ensures d[|d| - 1].0 !in Keys(d[..|d| - 1])
  {
    KeysSnoc(d);
  }

  /** `add` folded over `xs` from `v`, left to right. */
  function Fold<T, V>(v: V, xs: seq<T>, add: (V, T) -> V): V
  {
    if |xs| == 0 then v else add(Fold(v, xs[..|xs| - 1], add), xs[|xs| - 1])
  }

  function GroupFold<T, K(==), V>(s: seq<T>, key: T -> K, init: K -> V, add: (V, T) -> V): Dict<K, V>
  {
    if |s| == 0 then []
    else
      var d := GroupFold(s[..|s| - 1], key, init, add);
      var x := s[|s| - 1];
      Put(d, key(x), add(Get(d, key(x)).GetOr(init(key(x))), x))
  }

  /** The value a key's group has after folding `add` over its elements. */
  function GroupValue<T, K(==), V>(s: seq<T>, key: T -> K, init: K -> V, add: (V, T) -> V, k: K): Option<V>
  {
    if k in Project(s, key) then Some(Fold(init(k), FilterKey(s, key, k), add)) else None
  }

  lemma FilterKeyAbsent<T, K>(s: seq<T>, key: T -> K, k: K)
    requires k !in Project(s, key)
    ensures FilterKey(s, key, k) == []
  {
  }

  lemma FilterKeySnoc<T, K>(s: seq<T>, key: T -> K, k: K)
    requires 0 < |s|
    ensures FilterKey(s, key, k) ==
      FilterKey(s[..|s| - 1], key, k) + (if key(s[|s| - 1]) == k then [s[|s| - 1]] else [])
  {
  }

  /** The value stored for `k` after one more step of the grouping loop. */
  lemma GroupFoldUnfold<T, K, V>(s: seq<T>, key: T -> K, init: K -> V, add: (V, T) -> V, k: K)
    requires 0 < |s|
    requires NoDup(Keys(GroupFold(s[..|s| - 1], key, init, add)))
    ensures Get(GroupFold(s, key, init, add), k) ==
      if k == key(s[|s| - 1])
      then Some(add(Get(GroupFold(s[..|s| - 1], key, init, add), k).GetOr(init(k)), s[|s| - 1]))
      else Get(GroupFold(s[..|s| - 1], key, init, add), k)
  {
    var n := |s| - 1;
    var x := s[n];
    var d := GroupFold(s[..n], key, init, add);
    PutGet(d, key(x), add(Get(d, key(x)).GetOr(init(key(x))), x), k);
  }

  lemma GroupValueOther<T, K, V>(s: seq<T>, key: T -> K, init: K -> V, add: (V, T) -> V, k: K)
    requires 0 < |s| && k != key(s[|s| - 1])
    ensures GroupValue(s, key, init, add, k) == GroupValue(s[..|s| - 1], key, init, add, k)
  {
    var p := s[..|s| - 1];
    assert Project(s, key) == Project(p, key) + [key(s[|s| - 1])];
    assert (k in Project(s, key)) == (k in Project(p, key));
    FilterKeySnoc(s, key, k);
    assert FilterKey(s, key, k) == FilterKey(p, key, k);
  }

  lemma GroupValueSame<T, K, V>(s: seq<T>, key: T -> K, init: K -> V, add: (V, T) -> V)
    requires 0 < |s|
    ensures GroupValue(s, key, init, add, key(s[|s| - 1])) ==
      Some(add(GroupValue(s[..|s| - 1], key, init, add, key(s[|s| - 1])).GetOr(init(key(s[|s| - 1]))), s[|s| - 1]))
  {
    var p := s[..|s| - 1];
    var x := s[|s| - 1];
    var k := key(x);
    assert Project(s, key) == Project(p, key) + [k];
    FilterKeySnoc(s, key, k);
    var f := FilterKey(s, key, k);
    assert f[..|f| - 1] == FilterKey(p, key, k);
    assert k in Project(s, key);
    if k !in Project(p, key) {
      FilterKeyAbsent(p, key, k);
      assert f == [x];
      assert Fold(init(k), f, add) == add(Fold(init(k), [], add), x);
    } else {
      assert Fold(init(k), f, add) == add(Fold(init(k), FilterKey(p, key, k), add), x);
    }
  }

  lemma {:induction false} GroupFoldSpec<T, K, V>(s: seq<T>, key: T -> K, init: K -> V, add: (V, T) -> V)
    ensures Keys(GroupFold(s, key, init, add)) == Dedup(Project(s, key))
    ensures forall k :: Get(GroupFold(s, key, init, add), k) == GroupValue(s, key, init, add, k)
    decreases |s|
  {
    if |s| > 0 {
      var n := |s| - 1;
      var x := s[n];
      var d := GroupFold(s[..n], key, init, add);
      GroupFoldSpec(s[..n], key, init, add);
      assert Project(s, key)[..n] == Project(s[..n], key);
      var v := add(Get(d, key(x)).GetOr(init(key(x))), x);
      PutGet(d, key(x), v, key(x));
      forall k ensures Get(GroupFold(s, key, init, add), k) == GroupValue(s, key, init, add, k) {
        assert Get(d, k) == GroupValue(s[..n], key, init, add, k);
        GroupFoldUnfold(s, key, init, add, k);
        if k == key(x) {
          GroupValueSame(s, key, init, add);
        } else {
          GroupValueOther(s, key, init, add, k);
        }
      }
    }
  }

  /** The grouping loop `if k not in d: d[k] = [x] else: d[k].append(x)`. */
  function GroupBy<T, K(==)>(s: seq<T>, key: T -> K): Dict<K, seq<T>>
  {
    GroupFold(s, key, EmptyGroup, Append1)
  }

  function EmptyGroup<T, K>(k: K): seq<T> { [] }

  /** `g.append(x)`. */
  function Append1<T>(g: seq<T>, x: T): seq<T> { g + [x] }

  lemma {:induction false} FoldAppend<T>(xs: seq<T>)
    ensures Fold([], xs, Append1) == xs
    decreases |xs|
  {
    if |xs| > 0 {
      FoldAppend(xs[..|xs| - 1]);
      assert xs == xs[..|xs| - 1] + [xs[|xs| - 1]];
    }
  }

  /** Group keys are the distinct keys in order of first appearance, and each
      group is exactly the elements with that key, in input order. */
  lemma GroupBySpec<T, K>(s: seq<T>, key: T -> K)
    ensures Keys(GroupBy(s, key)) == Dedup(Project(s, key))
    ensures forall k :: Get(GroupBy(s, key), k) ==
                        (if k in Project(s, key) then Some(FilterKey(s, key, k)) else None)
  {
    GroupFoldSpec(s, key, EmptyGroup, Append1);
    forall k | k in Project(s, key) ensures Get(GroupBy(s, key), k) == Some(FilterKey(s, key, k)) {
      FoldAppend(FilterKey(s, key, k));
    }
  }

  /** The group at position `j` is non-empty and holds exactly the
      elements with its key, in input order. */
  /** Two elements with one key make one group. */
  lemma GroupByTwo<T, K>(a: T, b: T, key: T -> K)
    requires key(a) == key(b)
    ensures GroupBy([a, b], key) == [(key(a), [a, b])]
  {
    var s := [a, b];
    var g := GroupBy(s, key);
    assert |g| == 1 && g[0].0 == key(a) by {
      GroupByKeys(s, key);
      DedupProjectTwo(a, b, key);
      assert Keys(g)[0] == g[0].0;
    }
    GroupAt(s, key, 0);
    FilterKeyAll(s, key, key(a));
    assert g[0] == (key(a), s);
  }

  lemma GroupByKeys<T, K>(s: seq<T>, key: T -> K)
    ensures Keys(GroupBy(s, key)) == Dedup(Project(s, key))
  {
    GroupBySpec(s, key);
  }

  lemma GroupAt<T, K>(s: seq<T>, key: T -> K, j: nat)
    requires j < |GroupBy(s, key)|
    ensures var g := GroupBy(s, key);
      g[j].0 in Project(s, key) && g[j].1 == FilterKey(s, key, g[j].0) && 0 < |g[j].1|
  {
    var g := GroupBy(s, key);
    var k := g[j].0;
    assert k in Project(s, key) && Get(g, k) == Some(FilterKey(s, key, k)) by {
      GroupBySpec(s, key);
      assert Keys(g)[j] == k;
    }
    assert Get(g, k) == Some(g[j].1) by {
      GroupBySpec(s, key);
      GetAt(g, j);
    }
    FilterKeyNonEmpty(s, key, k);
  }

  /** Adding `x` to the group of `k` adds exactly `x` to the groups'
      elements. */
  lemma GroupStep<T, K>(d: Dict<K, seq<T>>, k: K, x: T)
    ensures multiset(Flatten(Values(Put(d, k, Get(d, k).GetOr([]) + [x])))) ==
            multiset(Flatten(Values(d))) + multiset{x}
  {
    var v := Get(d, k).GetOr([]) + [x];
    if k in Keys(d) {
      var j := IndexOf(Keys(d), k);
      assert Values(Put(d, k, v)) == Values(d)[j := Values(d)[j] + [x]];
      FlattenUpdateSnoc(Values(d), j, x);
    } else {
      assert Get(d, k).None? && v == [x];
      assert Put(d, k, v) == d + [(k, v)];
      assert Values(Put(d, k, v)) == Values(d) + [[x]];
      FlattenAppend(Values(d), [[x]]);
      assert Flatten([[x]]) == [x] by {
        assert [[x]][..0] == [];
      }
    }
  }

  /** Regrouping loses and duplicates nothing: the groups, one after the
      other, are a permutation of the input. */
  lemma {:induction false} GroupByPermutation<T, K>(s: seq<T>, key: T -> K)
    ensures multiset(Flatten(Values(GroupBy(s, key)))) == multiset(s)
    decreases |s|
  {
    if 0 < |s| {
      var n := |s| - 1;
      var x := s[n];
      assert multiset(s) == multiset(s[..n]) + multiset{x} by {
        assert s == s[..n] + [x];
      }
      var d := GroupBy(s[..n], key);
      GroupByPermutation(s[..n], key);
      assert GroupBy(s, key) == Put(d, key(x), Get(d, key(x)).GetOr([]) + [x]);
      GroupStep(d, key(x), x);
    }
  }
}
