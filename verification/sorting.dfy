/** Python's `sorted(xs, key=...)`: a stable sort by a tuple key.

    `SortByKey` is an insertion sort that places each element after every
    element whose key is not greater, so equal keys keep their input order.
    Its contract states the three promises of `sorted`: the result is a
    permutation of the input, it is ordered by key, and elements with equal
    keys appear in their original relative order. `SortedPermutationIsSort`
    shows these three promises determine the result completely. */
module Sorting {
  import opened Order
  import opened Seqs

  predicate SortedByKey<T>(s: seq<T>, key: T -> seq<Atom>)
  {
    forall i, j :: 0 <= i < j < |s| ==> KeyLe(key(s[i]), key(s[j]))
  }

  /** The elements of `s` whose key is `k`, in order. */
  function KeyClass<T>(s: seq<T>, key: T -> seq<Atom>, k: seq<Atom>): seq<T>
  {
    FilterKey(s, key, k)
  }

  lemma KeyClassAppend<T>(s: seq<T>, t: seq<T>, key: T -> seq<Atom>, k: seq<Atom>)
    ensures KeyClass(s + t, key, k) == KeyClass(s, key, k) + KeyClass(t, key, k)
  {
    FilterKeyAppend(s, t, key, k);
  }

  lemma KeyClassSingle<T>(x: T, key: T -> seq<Atom>, k: seq<Atom>)
    ensures KeyClass([x], key, k) == if key(x) == k then [x] else []
  {
    assert [x][..0] == [];
  }

  lemma {:induction false} KeyClassNone<T>(s: seq<T>, key: T -> seq<Atom>, k: seq<Atom>)
    requires forall i :: 0 <= i < |s| ==> key(s[i]) != k
    ensures KeyClass(s, key, k) == []
    decreases |s|
  {
    if |s| > 0 {
      KeyClassNone(s[..|s| - 1], key, k);
    }
  }

  function InsertByKey<T>(x: T, r: seq<T>, key: T -> seq<Atom>): seq<T>
  {
    if |r| == 0 then [x]
    else if KeyLt(key(x), key(r[0])) then [x] + r
    else [r[0]] + InsertByKey(x, r[1..], key)
  }

  lemma {:induction false} InsertByKeyMultiset<T>(x: T, r: seq<T>, key: T -> seq<Atom>)
    ensures multiset(InsertByKey(x, r, key)) == multiset(r) + multiset{x}
    decreases |r|
  {
    if |r| > 0 && !KeyLt(key(x), key(r[0])) {
      assert r == [r[0]] + r[1..];
      InsertByKeyMultiset(x, r[1..], key);
    }
  }

  lemma {:induction false} InsertByKeySorted<T>(x: T, r: seq<T>, key: T -> seq<Atom>)
    requires SortedByKey(r, key)
    ensures SortedByKey(InsertByKey(x, r, key), key)
    decreases |r|
  {
    var ins := InsertByKey(x, r, key);
    if |r| == 0 {
    } else if KeyLt(key(x), key(r[0])) {
      forall i, j | 0 <= i < j < |ins| ensures KeyLe(key(ins[i]), key(ins[j])) {
        if i == 0 && j > 1 {
          KeyLeTransitive(key(x), key(r[0]), key(r[j - 1]));
        }
      }
    } else {
      var rest := r[1..];
      var tail := InsertByKey(x, rest, key);
      InsertByKeySorted(x, rest, key);
      forall y | y in tail ensures KeyLe(key(r[0]), key(y)) {
        HeadBelowInserted(x, r, key, y);
      }
      SortedCons(r[0], tail, key);
    }
  }

  /** Past the head of a sorted list, every element of the insertion into
      its tail is at least the head. */
  lemma HeadBelowInserted<T>(x: T, r: seq<T>, key: T -> seq<Atom>, y: T)
    requires SortedByKey(r, key) && 0 < |r| && !KeyLt(key(x), key(r[0]))
    requires y in InsertByKey(x, r[1..], key)
    ensures KeyLe(key(r[0]), key(y))
  {
    var rest := r[1..];
    InsertByKeyMultiset(x, rest, key);
    KeyNotLe(key(r[0]), key(x));
    assert y in multiset(InsertByKey(x, rest, key));
    if y != x {
      assert y in multiset(rest);
      var m :| 0 <= m < |rest| && rest[m] == y;
      assert r[m + 1] == y;
    }
  }

  lemma SortedCons<T>(h: T, t: seq<T>, key: T -> seq<Atom>)
    requires SortedByKey(t, key)
    requires forall y :: y in t ==> KeyLe(key(h), key(y))
    ensures SortedByKey([h] + t, key)
  {
    var s := [h] + t;
    forall i, j | 0 <= i < j < |s| ensures KeyLe(key(s[i]), key(s[j])) {
      if i == 0 {
        assert s[j] in t;
      } else {
        assert s[i] == t[i - 1] && s[j] == t[j - 1];
      }
    }
  }

  lemma {:induction false} InsertByKeyClasses<T>(x: T, r: seq<T>, key: T -> seq<Atom>, k: seq<Atom>)
    requires SortedByKey(r, key)
    ensures KeyClass(InsertByKey(x, r, key), key, k) == KeyClass(r, key, k) + KeyClass([x], key, k)
    decreases |r|
  {
    var ins := InsertByKey(x, r, key);
    if |r| == 0 {
      assert r + [x] == [x];
    } else if KeyLt(key(x), key(r[0])) {
      KeyClassAppend([x], r, key, k);
      KeyClassSingle(x, key, k);
      if key(x) == k {
        forall i | 0 <= i < |r| ensures key(r[i]) != k {
          if key(r[i]) == k {
            KeyLeTransitive(key(r[0]), key(r[i]), key(x));
            KeyNotLe(key(r[0]), key(x));
          }
        }
        KeyClassNone(r, key, k);
      }
    } else {
      var rest := r[1..];
      assert r == [r[0]] + rest;
      InsertByKeyClasses(x, rest, key, k);
      var tail := InsertByKey(x, rest, key);
      KeyClassAppend([r[0]], tail, key, k);
      KeyClassAppend([r[0]], rest, key, k);
    }
  }

  /** `sorted(s, key=key)`. */
  function SortByKey<T>(s: seq<T>, key: T -> seq<Atom>): (r: seq<T>)
    ensures |r| == |s|
    ensures multiset(r) == multiset(s)
    ensures SortedByKey(r, key)
    ensures forall k :: KeyClass(r, key, k) == KeyClass(s, key, k)
  {
    if |s| == 0 then []
    else
      var n := |s| - 1;
      var prev := SortByKey(s[..n], key);
      InsertByKeyMultiset(s[n], prev, key);
      InsertByKeySorted(s[n], prev, key);
      var r := InsertByKey(s[n], prev, key);
      assert s == s[..n] + [s[n]];
      assert forall k :: KeyClass(r, key, k) == KeyClass(s, key, k) by {
        forall k ensures KeyClass(r, key, k) == KeyClass(s, key, k) {
          InsertByKeyClasses(s[n], prev, key, k);
          KeyClassAppend(s[..n], [s[n]], key, k);
        }
      }
      assert |r| == |multiset(r)|;
      r
  }

  lemma KeyClassCons<T>(x: T, s: seq<T>, key: T -> seq<Atom>, k: seq<Atom>)
    ensures KeyClass([x] + s, key, k) == (if key(x) == k then [x] else []) + KeyClass(s, key, k)
  {
    KeyClassAppend([x], s, key, k);
    KeyClassSingle(x, key, k);
  }

  lemma KeyClassHead<T>(s: seq<T>, key: T -> seq<Atom>, k: seq<Atom>)
    requires 0 < |s|
    ensures KeyClass(s, key, k) == (if key(s[0]) == k then [s[0]] else []) + KeyClass(s[1..], key, k)
  {
    assert s == [s[0]] + s[1..];
    KeyClassCons(s[0], s[1..], key, k);
  }

  /** The head of a key-sorted sequence has the least key. */
  lemma HeadHasLeastKey<T>(a: seq<T>, key: T -> seq<Atom>, y: T)
    requires SortedByKey(a, key)
    requires y in KeyClass(a, key, key(y))
    ensures KeyLe(key(a[0]), key(y))
  {
    assert y in a;
    var i :| 0 <= i < |a| && a[i] == y;
    if i > 0 {
      assert KeyLe(key(a[0]), key(a[i]));
    }
  }

  /** Two key-sorted sequences with the same elements per key are equal:
      the stable sort is the only sorted rearrangement that keeps the
      relative order of equal keys. */
  lemma {:induction false} SortedSameClassesEqual<T>(a: seq<T>, b: seq<T>, key: T -> seq<Atom>)
    requires SortedByKey(a, key) && SortedByKey(b, key)
    requires forall k :: KeyClass(a, key, k) == KeyClass(b, key, k)
    ensures a == b
    decreases |a| + |b|
  {
    if |a| == 0 && |b| == 0 {
      return;
    }
    if |a| == 0 {
      KeyClassHead(b, key, key(b[0]));
      assert false;
    }
    if |b| == 0 {
      KeyClassHead(a, key, key(a[0]));
      assert false;
    }
    var a0, b0 := a[0], b[0];
    assert a == [a0] + a[1..] && b == [b0] + b[1..];
    KeyClassCons(a0, a[1..], key, key(a0));
    KeyClassCons(b0, b[1..], key, key(b0));
    assert a0 in KeyClass(b, key, key(a0));
    assert b0 in KeyClass(a, key, key(b0));
    HeadHasLeastKey(a, key, b0);
    HeadHasLeastKey(b, key, a0);
    KeyLeAntisymmetric(key(a0), key(b0));
    assert a0 == b0 by {
      assert KeyClass(a, key, key(a0))[0] == a0;
      assert KeyClass(b, key, key(b0))[0] == b0;
    }
    forall k ensures KeyClass(a[1..], key, k) == KeyClass(b[1..], key, k) {
      KeyClassCons(a0, a[1..], key, k);
      KeyClassCons(a0, b[1..], key, k);
      var h := if key(a0) == k then [a0] else [];
      var ca, cb := KeyClass(a[1..], key, k), KeyClass(b[1..], key, k);
      assert h + ca == h + cb;
      assert ca == (h + ca)[|h|..];
    }
    SortedSameClassesEqual(a[1..], b[1..], key);
  }

  /** Any key-sorted sequence that keeps every key's elements in their input
      order is exactly `sorted(s, key=key)`. */
  lemma SortedPermutationIsSort<T>(s: seq<T>, r: seq<T>, key: T -> seq<Atom>)
    requires SortedByKey(r, key)
    requires forall k :: KeyClass(r, key, k) == KeyClass(s, key, k)
    ensures r == SortByKey(s, key)
  {
    SortedSameClassesEqual(r, SortByKey(s, key), key);
  }

  /** Sorting by a key that is constant on `s` changes nothing. */
  lemma SortConstantKey<T>(s: seq<T>, key: T -> seq<Atom>, k: seq<Atom>)
    requires forall i :: 0 <= i < |s| ==> key(s[i]) == k
    ensures SortByKey(s, key) == s
  {
    forall i, j | 0 <= i < j < |s| ensures KeyLe(key(s[i]), key(s[j])) {
    }
    SortedPermutationIsSort(s, s, key);
  }
}
