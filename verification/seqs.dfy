/** Sequence helpers that stand for Python list idioms used throughout the
    analysed code: `sum`, `sum(xs) / len(xs)`, nested-loop concatenation,
    filtering comprehensions, the "append if not already in the list"
    de-duplication loop, and `xs[::-1].index(max(xs))`. */
module Seqs {

  /** `sum(xs)`. */
  function Sum(xs: seq<int>): int
  {
    if |xs| == 0 then 0 else Sum(xs[..|xs| - 1]) + xs[|xs| - 1]
  }

  lemma {:induction false} SumAppend(xs: seq<int>, ys: seq<int>)
    ensures Sum(xs + ys) == Sum(xs) + Sum(ys)
    decreases |ys|
  {
    if |ys| == 0 {
      assert xs + ys == xs;
    } else {
      var n := |ys| - 1;
      assert (xs + ys)[..|xs + ys| - 1] == xs + ys[..n];
      SumAppend(xs, ys[..n]);
    }
  }

  lemma {:induction false} SumNonNegative(xs: seq<int>)
    requires forall i :: 0 <= i < |xs| ==> 0 <= xs[i]
    ensures 0 <= Sum(xs)
    decreases |xs|
  {
    if |xs| > 0 {
      SumNonNegative(xs[..|xs| - 1]);
    }
  }

  lemma {:induction false} SumPositive(xs: seq<int>)
    requires forall i :: 0 <= i < |xs| ==> 0 < xs[i]
    requires 0 < |xs|
    ensures |xs| <= Sum(xs)
    decreases |xs|
  {
    if |xs| > 1 {
      SumPositive(xs[..|xs| - 1]);
    }
  }

  lemma {:induction false} SumAllZero(xs: seq<int>)
    requires forall i :: 0 <= i < |xs| ==> xs[i] == 0
    ensures Sum(xs) == 0
    decreases |xs|
  {
    if |xs| > 0 {
      SumAllZero(xs[..|xs| - 1]);
    }
  }

  /** `sum(xs) / len(xs)` over exact reals; Python raises
      ZeroDivisionError on an empty list, which callers model. */
  function Mean(xs: seq<int>): real
    requires 0 < |xs|
  {
    Sum(xs) as real / |xs| as real
  }

  /** The mean times the count is the sum. */
  lemma MeanTimesCount(xs: seq<int>)
    requires 0 < |xs|
    ensures Mean(xs) * |xs| as real == Sum(xs) as real
  {
  }

  lemma MeanNonNegative(xs: seq<int>)
    requires 0 < |xs|
    requires forall i :: 0 <= i < |xs| ==> 0 <= xs[i]
    ensures 0.0 <= Mean(xs)
  {
    SumNonNegative(xs);
  }

  lemma MeanPositive(xs: seq<int>)
    requires 0 < |xs|
    requires forall i :: 0 <= i < |xs| ==> 0 < xs[i]
    ensures 0.0 < Mean(xs)
  {
    SumPositive(xs);
  }

  /** `sum(xs)` over reals. */
  function RealSum(xs: seq<real>): real
  {
    if |xs| == 0 then 0.0 else RealSum(xs[..|xs| - 1]) + xs[|xs| - 1]
  }

  lemma {:induction false} RealSumNonNegative(xs: seq<real>)
    ensures (forall i :: 0 <= i < |xs| ==> 0.0 <= xs[i]) ==> 0.0 <= RealSum(xs)
    decreases |xs|
  {
    if 0 < |xs| {
      RealSumNonNegative(xs[..|xs| - 1]);
    }
  }

  /** numpy's `mean` of a non-empty list of reals. */
  function RealMean(xs: seq<real>): real
    requires 0 < |xs|
  {
    RealSum(xs) / |xs| as real
  }

  /** The mean times the count is the sum, and the mean of non-negative
      values is non-negative. */
  lemma RealMeanSpec(xs: seq<real>)
    requires 0 < |xs|
    ensures RealMean(xs) * |xs| as real == RealSum(xs)
    ensures (forall i :: 0 <= i < |xs| ==> 0.0 <= xs[i]) ==> 0.0 <= RealMean(xs)
  {
    RealSumNonNegative(xs);
  }

  /** Concatenation of a list of lists, outer order first. */
  function Flatten<T>(ss: seq<seq<T>>): seq<T>
  {
    if |ss| == 0 then [] else Flatten(ss[..|ss| - 1]) + ss[|ss| - 1]
  }

  lemma {:induction false} FlattenAppend<T>(ss: seq<seq<T>>, ts: seq<seq<T>>)
    ensures Flatten(ss + ts) == Flatten(ss) + Flatten(ts)
    decreases |ts|
  {
    if |ts| == 0 {
      assert ss + ts == ss;
    } else {
      var n := |ts| - 1;
      assert (ss + ts)[..|ss + ts| - 1] == ss + ts[..n];
      FlattenAppend(ss, ts[..n]);
    }
  }

  /** Appending `x` to one inner list adds exactly `x` to the flattened
      list's elements. */
  lemma FlattenUpdateSnoc<T>(ss: seq<seq<T>>, j: nat, x: T)
    requires j < |ss|
    ensures multiset(Flatten(ss[j := ss[j] + [x]])) == multiset(Flatten(ss)) + multiset{x}
  {
    var t := ss[j := ss[j] + [x]];
    assert ss == (ss[..j] + [ss[j]]) + ss[j + 1..];
    assert t == (ss[..j] + [ss[j] + [x]]) + ss[j + 1..];
    FlattenAppend(ss[..j] + [ss[j]], ss[j + 1..]);
    FlattenAppend(ss[..j], [ss[j]]);
    FlattenAppend(ss[..j] + [ss[j] + [x]], ss[j + 1..]);
    FlattenAppend(ss[..j], [ss[j] + [x]]);
    assert [ss[j]][..0] == [] && [ss[j] + [x]][..0] == [];
  }

  /** Rearranging each inner list rearranges the flattened list. */
  lemma {:induction false} FlattenPermuteInner<T>(a: seq<seq<T>>, b: seq<seq<T>>)
    requires |a| == |b|
    requires forall i :: 0 <= i < |a| ==> multiset(a[i]) == multiset(b[i])
    ensures multiset(Flatten(a)) == multiset(Flatten(b))
    decreases |a|
  {
    if 0 < |a| {
      FlattenPermuteInner(a[..|a| - 1], b[..|b| - 1]);
    }
  }

  /** Total length of a list of lists. */
  function SumLengths<T>(ss: seq<seq<T>>): nat
  {
    if |ss| == 0 then 0 else SumLengths(ss[..|ss| - 1]) + |ss[|ss| - 1]|
  }

  lemma {:induction false} FlattenLength<T>(ss: seq<seq<T>>)
    ensures |Flatten(ss)| == SumLengths(ss)
    decreases |ss|
  {
    if |ss| > 0 {
      FlattenLength(ss[..|ss| - 1]);
    }
  }

  /** Every element of the flattened list comes from one of the inner lists
      and every element of an inner list is in the flattened list. */
  lemma {:induction false} FlattenMembership<T>(ss: seq<seq<T>>, x: T)
    ensures x in Flatten(ss) <==> exists i :: 0 <= i < |ss| && x in ss[i]
    decreases |ss|
  {
    if |ss| > 0 {
      var n := |ss| - 1;
      FlattenMembership(ss[..n], x);
      if x in Flatten(ss) && x !in ss[n] {
        var i :| 0 <= i < n && x in ss[..n][i];
        assert x in ss[i];
      }
      if exists i :: 0 <= i < |ss| && x in ss[i] {
        var i :| 0 <= i < |ss| && x in ss[i];
        if i < n {
          assert x in ss[..n][i];
        }
      }
    }
  }

  /** The elements of `s` that satisfy `p`, in order. */
  function Filter<T>(s: seq<T>, p: T -> bool): (r: seq<T>)
    ensures |r| <= |s|
    ensures forall x | x in r :: x in s && p(x)
    ensures forall x | x in s && p(x) :: x in r
  {
    if |s| == 0 then []
    else Filter(s[..|s| - 1], p) + (if p(s[|s| - 1]) then [s[|s| - 1]] else [])
  }

  /** Extending a filtered list and a list of results in step keeps every
      result related to its element: the step that `Filter` and a loop
      emitting one result per kept element take together. */
  lemma ZipStep<T, R>(f: seq<T>, a: seq<R>, x: T, keep: bool, e: R, q: (T, R) -> bool)
    requires |a| == |f| && forall k :: 0 <= k < |a| ==> q(f[k], a[k])
    requires keep ==> q(x, e)
    ensures var f2, a2 := f + (if keep then [x] else []), a + (if keep then [e] else []);
      |a2| == |f2| && forall k :: 0 <= k < |a2| ==> q(f2[k], a2[k])
  {
    var f2, a2 := f + (if keep then [x] else []), a + (if keep then [e] else []);
    forall k | 0 <= k < |a2| ensures q(f2[k], a2[k]) {
      if k < |a| {
        assert f2[k] == f[k] && a2[k] == a[k];
      }
    }
  }

  lemma {:induction false} FilterAppend<T>(s: seq<T>, t: seq<T>, p: T -> bool)
    ensures Filter(s + t, p) == Filter(s, p) + Filter(t, p)
    decreases |t|
  {
    if |t| == 0 {
      assert s + t == s;
    } else {
      var n := |t| - 1;
      var last := if p(t[n]) then [t[n]] else [];
      assert Filter(s + t, p) == Filter(s + t[..n], p) + last by {
        assert (s + t)[..|s + t| - 1] == s + t[..n];
      }
      FilterAppend(s, t[..n], p);
      assert Filter(t, p) == Filter(t[..n], p) + last;
    }
  }

  /** Rearranging a list does not change how many of its elements pass a
      filter. */
  lemma FilterPermutationLength<T>(a: seq<T>, b: seq<T>, p: T -> bool)
    requires multiset(a) == multiset(b)
    ensures |Filter(a, p)| == |Filter(b, p)|
  {
    FilterPermutation(a, b, p);
    assert |Filter(a, p)| == |multiset(Filter(a, p))|;
    assert |Filter(b, p)| == |multiset(Filter(b, p))|;
  }

  /** Dropping an element that fails the filter changes nothing that
      passes it. */
  lemma FilterRemoveAt<T>(s: seq<T>, i: nat, p: T -> bool)
    requires i < |s| && !p(s[i])
    ensures Filter(s[..i] + s[i + 1..], p) == Filter(s, p)
  {
    var a, x, b := s[..i], s[i], s[i + 1..];
    assert Filter(a + [x], p) == Filter(a, p) by {
      assert (a + [x])[..|a|] == a;
    }
    assert Filter(s, p) == Filter(a + [x], p) + Filter(b, p) by {
      SplitAt(s, i);
      FilterAppend(a + [x], b, p);
    }
    FilterAppend(a, b, p);
  }

  lemma SplitAt<T>(s: seq<T>, i: nat)
    requires i < |s|
    ensures s == (s[..i] + [s[i]]) + s[i + 1..]
  {
  }

  /** A filter keeps every copy of a passing element and none of a failing
      one. */
  /** Filtering keeps every kept value as often as it occurs, and drops
      the rest. */
  lemma FilterCounts<T>(s: seq<T>, p: T -> bool)
    ensures forall y :: multiset(Filter(s, p))[y] == if p(y) then multiset(s)[y] else 0
  {
    forall y ensures multiset(Filter(s, p))[y] == if p(y) then multiset(s)[y] else 0 {
      FilterCount(s, p, y);
    }
  }

  lemma {:induction false} FilterCount<T>(s: seq<T>, p: T -> bool, y: T)
    ensures multiset(Filter(s, p))[y] == if p(y) then multiset(s)[y] else 0
    decreases |s|
  {
    if 0 < |s| {
      var n := |s| - 1;
      FilterCount(s[..n], p, y);
      assert s == s[..n] + [s[n]];
    }
  }

  /** Rearranging a list rearranges the elements that pass a filter. */
  lemma FilterPermutation<T>(a: seq<T>, b: seq<T>, p: T -> bool)
    requires multiset(a) == multiset(b)
    ensures multiset(Filter(a, p)) == multiset(Filter(b, p))
  {
    var fa, fb := multiset(Filter(a, p)), multiset(Filter(b, p));
    forall y ensures fa[y] == fb[y] {
      FilterCount(a, p, y);
      FilterCount(b, p, y);
    }
    SameCounts(fa, fb);
  }

  lemma SameCounts<T>(a: multiset<T>, b: multiset<T>)
    requires forall y :: a[y] == b[y]
    ensures a == b
  {
  }

  /** A filter that every element passes keeps the list as it is. */
  lemma {:induction false} FilterAll<T>(s: seq<T>, p: T -> bool)
    requires forall i :: 0 <= i < |s| ==> p(s[i])
    ensures Filter(s, p) == s
    decreases |s|
  {
    if 0 < |s| {
      var n := |s| - 1;
      FilterAll(s[..n], p);
      assert s[..n] + [s[n]] == s;
    }
  }

  /** The elements of `s` whose key is `k`, in order. */
  function FilterKey<T, K(==)>(s: seq<T>, key: T -> K, k: K): seq<T>
  {
    Filter(s, x => key(x) == k)
  }

  /** When every element has key `k`, all of them are kept. */
  lemma FilterKeyAll<T, K>(s: seq<T>, key: T -> K, k: K)
    requires forall i :: 0 <= i < |s| ==> key(s[i]) == k
    ensures FilterKey(s, key, k) == s
  {
    FilterAll(s, x => key(x) == k);
  }

  lemma FilterKeyAppend<T, K>(s: seq<T>, t: seq<T>, key: T -> K, k: K)
    ensures FilterKey(s + t, key, k) == FilterKey(s, key, k) + FilterKey(t, key, k)
  {
    FilterAppend(s, t, x => key(x) == k);
  }

  lemma FilterKeyPermutation<T, K>(a: seq<T>, b: seq<T>, key: T -> K, k: K)
    requires multiset(a) == multiset(b)
    ensures multiset(FilterKey(a, key, k)) == multiset(FilterKey(b, key, k))
  {
    FilterPermutation(a, b, x => key(x) == k);
  }

  lemma FilterKeyMembers<T, K>(s: seq<T>, key: T -> K, k: K)
    ensures forall i :: 0 <= i < |FilterKey(s, key, k)| ==> key(FilterKey(s, key, k)[i]) == k
    ensures forall x :: x in FilterKey(s, key, k) <==> x in s && key(x) == k
  {
    var f := FilterKey(s, key, k);
    forall i | 0 <= i < |f| ensures key(f[i]) == k {
      assert f[i] in f;
    }
  }

  /** A key that occurs has at least one element. */
  lemma FilterKeyNonEmpty<T, K>(s: seq<T>, key: T -> K, k: K)
    requires k in Project(s, key)
    ensures 0 < |FilterKey(s, key, k)|
  {
    var i :| 0 <= i < |s| && Project(s, key)[i] == k;
    FilterKeyMembers(s, key, k);
    assert s[i] in FilterKey(s, key, k);
  }

  /** `[key(x) for x in s]`. */
  function Project<T, K>(s: seq<T>, key: T -> K): (r: seq<K>)
    ensures |r| == |s|
    ensures forall i :: 0 <= i < |s| ==> r[i] == key(s[i])
  {
    if |s| == 0 then [] else Project(s[..|s| - 1], key) + [key(s[|s| - 1])]
  }

  predicate NoDup<T(==)>(s: seq<T>)
  {
    forall i, j :: 0 <= i < j < |s| ==> s[i] != s[j]
  }

  lemma NoDupNotBefore<T>(s: seq<T>, i: nat)
    requires NoDup(s) && i < |s|
    ensures s[i] !in s[..i]
  {
  }

  /** A list without duplicates holds each value at most once. */
  lemma {:induction false} NoDupCount<T>(s: seq<T>, x: T)
    requires NoDup(s)
    ensures multiset(s)[x] <= 1
    decreases |s|
  {
    if 0 < |s| {
      var n := |s| - 1;
      assert s == s[..n] + [s[n]];
      NoDupCount(s[..n], x);
      if s[n] == x {
        assert x !in s[..n];
      }
    }
  }

  /** Filtering a list without duplicates leaves none. */
  lemma {:induction false} FilterNoDup<T>(s: seq<T>, p: T -> bool)
    requires NoDup(s)
    ensures NoDup(Filter(s, p))
    decreases |s|
  {
    if 0 < |s| {
      var n := |s| - 1;
      assert NoDup(s[..n]);
      FilterNoDup(s[..n], p);
      assert s[n] !in s[..n];
    }
  }

  /** Rearranging a list without duplicates leaves none. */
  lemma NoDupPermutation<T>(a: seq<T>, b: seq<T>)
    requires multiset(a) == multiset(b)
    requires NoDup(a)
    ensures NoDup(b)
  {
    forall i, j | 0 <= i < j < |b| ensures b[i] != b[j] {
      NoDupCount(a, b[i]);
      assert b == b[..j] + [b[j]] + b[j + 1..];
      assert b[i] in b[..j];
    }
  }

  /** Position of the first occurrence of `x` (`list.index`). */
  function IndexOf<T(==)>(s: seq<T>, x: T): (k: nat)
    requires x in s
    ensures k < |s| && s[k] == x && x !in s[..k]
  {
    if s[0] == x then 0 else 1 + IndexOf(s[1..], x)
  }

  /** The first occurrence of `x` is at `j` when `x` sits at `j` and not
      before it. */
  lemma IndexOfAt<T>(s: seq<T>, j: nat, x: T)
    requires j < |s| && s[j] == x && x !in s[..j]
    ensures x in s && IndexOf(s, x) == j
  {
    assert x in s;
    var k := IndexOf(s, x);
  }

  lemma IndexOfPrefix<T>(s: seq<T>, n: nat, x: T)
    requires n <= |s|
    requires x in s[..n]
    ensures IndexOf(s, x) == IndexOf(s[..n], x)
  {
    var k := IndexOf(s[..n], x);
    assert s[..n][..k] == s[..k];
  }

  /** `r` lists elements of `s` in the order of their first appearance in `s`. */
  predicate FirstAppearanceOrder<T(==)>(r: seq<T>, s: seq<T>)
  {
    forall i, j :: 0 <= i < j < |r| ==> r[i] in s && r[j] in s && IndexOf(s, r[i]) < IndexOf(s, r[j])
  }

  /** The loop `for x in s: if x not in acc: acc.append(x)` starting from an
      empty `acc`: keeps the first appearance of every element. */
  function Dedup<T(==)>(s: seq<T>): (r: seq<T>)
    ensures NoDup(r)
    ensures |r| <= |s|
    ensures forall x | x in r :: x in s
    ensures forall x | x in s :: x in r
    ensures FirstAppearanceOrder(r, s)
  {
    if |s| == 0 then []
    else
      var n := |s| - 1;
      var prev := Dedup(s[..n]);
      DedupOrderStep(s, prev);
      if s[n] in prev then prev else prev + [s[n]]
  }

  /** A value listed twice is listed once. */
  lemma DedupTwice<T>(x: T)
    ensures Dedup([x, x]) == [x]
  {
    assert [x, x][..1] == [x];
    assert [x][..0] == [];
  }

  /** Two elements with one key give that key once. */
  lemma DedupProjectTwo<T, K>(a: T, b: T, key: T -> K)
    requires key(a) == key(b)
    ensures Dedup(Project([a, b], key)) == [key(a)]
  {
    assert Project([a, b], key) == [key(a), key(a)];
    DedupTwice(key(a));
  }

  lemma DedupOrderStep<T>(s: seq<T>, prev: seq<T>)
    requires 0 < |s|
    requires forall x | x in prev :: x in s[..|s| - 1]
    requires forall x | x in s[..|s| - 1] :: x in prev
    requires FirstAppearanceOrder(prev, s[..|s| - 1])
    ensures FirstAppearanceOrder(prev, s)
    ensures s[|s| - 1] !in prev ==> FirstAppearanceOrder(prev + [s[|s| - 1]], s)
  {
    var n := |s| - 1;
    forall i | 0 <= i < |prev|
      ensures prev[i] in s[..n] && IndexOf(s, prev[i]) == IndexOf(s[..n], prev[i]) < n
    {
      assert prev[i] in prev;
      IndexOfPrefix(s, n, prev[i]);
    }
    if s[n] !in prev {
      assert s[n] !in s[..n];
      assert s[..n + 1] == s;
      assert IndexOf(s, s[n]) == n;
      var r := prev + [s[n]];
      forall i, j | 0 <= i < j < |r|
        ensures r[i] in s && r[j] in s && IndexOf(s, r[i]) < IndexOf(s, r[j])
      {
        if j < |prev| {
          assert r[i] == prev[i] && r[j] == prev[j];
        } else {
          assert r[i] == prev[i];
        }
      }
    }
  }

  /** `max(xs)`. */
  function Max(xs: seq<int>): (m: int)
    requires 0 < |xs|
    ensures m in xs
    ensures forall k :: 0 <= k < |xs| ==> xs[k] <= m
  {
    if |xs| == 1 then xs[0]
    else
      var m := Max(xs[..|xs| - 1]);
      assert forall k :: 0 <= k < |xs| - 1 ==> xs[..|xs| - 1][k] == xs[k];
      if xs[|xs| - 1] > m then xs[|xs| - 1] else m
  }

  /** `min(xs)`. */
  function Min(xs: seq<int>): (m: int)
    requires 0 < |xs|
    ensures m in xs
    ensures forall k :: 0 <= k < |xs| ==> m <= xs[k]
  {
    if |xs| == 1 then xs[0]
    else
      var m := Min(xs[..|xs| - 1]);
      assert forall k :: 0 <= k < |xs| - 1 ==> xs[..|xs| - 1][k] == xs[k];
      if xs[|xs| - 1] < m then xs[|xs| - 1] else m
  }

  /** `xs[::-1]`. */
  function Reverse<T>(xs: seq<T>): (r: seq<T>)
    ensures |r| == |xs|
    ensures forall k :: 0 <= k < |xs| ==> r[k] == xs[|xs| - 1 - k]
  {
    if |xs| == 0 then [] else [xs[|xs| - 1]] + Reverse(xs[..|xs| - 1])
  }

  /** `len(xs) - xs[::-1].index(max(xs)) - 1`: the index of the LAST
      occurrence of the greatest value. */
  function LastIndexOfMax(xs: seq<int>): (i: nat)
    requires 0 < |xs|
    ensures i < |xs|
    ensures forall k :: 0 <= k < |xs| ==> xs[k] <= xs[i]
    ensures forall k :: i < k < |xs| ==> xs[k] < xs[i]
  {
    var m := Max(xs);
    var rev := Reverse(xs);
    assert rev[|xs| - 1 - IndexOf(xs, m)] == m;
    var p := IndexOf(rev, m);
    assert forall k :: |xs| - p - 1 < k < |xs| ==> rev[|xs| - 1 - k] == xs[k] && rev[|xs| - 1 - k] in rev[..p];
    |xs| - p - 1
  }
}
