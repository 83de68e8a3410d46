/** Python's ordering of sort keys.

    Every `sorted(..., key=lambda v: (...))` in the analysed code sorts by a
    tuple of ints and strings. A key is modelled as a sequence of `Atom`s
    compared lexicographically, exactly as Python compares tuples; strings
    compare lexicographically by code point, a proper prefix first. */
module Order {

  datatype Atom = Int(i: int) | Str(s: string)

  /** Python's `<` on `str`. */
  predicate StrLt(a: string, b: string)
    decreases |a|
  {
    if |a| == 0 then 0 < |b|
    else if |b| == 0 then false
    else a[0] < b[0] || (a[0] == b[0] && StrLt(a[1..], b[1..]))
  }

  lemma {:induction false} StrLtIrreflexive(a: string)
    ensures !StrLt(a, a)
    decreases |a|
  {
    if |a| > 0 {
      StrLtIrreflexive(a[1..]);
    }
  }

  lemma {:induction false} StrLtTransitive(a: string, b: string, c: string)
    requires StrLt(a, b) && StrLt(b, c)
    ensures StrLt(a, c)
    decreases |a|
  {
    if |a| > 0 && a[0] == b[0] && b[0] == c[0] {
      StrLtTransitive(a[1..], b[1..], c[1..]);
    }
  }

  lemma {:induction false} StrLtTotal(a: string, b: string)
    ensures a == b || StrLt(a, b) || StrLt(b, a)
    decreases |a|
  {
    if |a| > 0 && |b| > 0 && a[0] == b[0] {
      StrLtTotal(a[1..], b[1..]);
      if a[1..] == b[1..] {
        assert a == [a[0]] + a[1..] && b == [b[0]] + b[1..];
      }
    }
  }

  /** The order of two tuple components of the same position; the mixed
      cases never arise because every key puts the same kind in the same
      position. */
  predicate AtomLt(x: Atom, y: Atom)
  {
    match (x, y)
    case (Int(a), Int(b)) => a < b
    case (Str(a), Str(b)) => StrLt(a, b)
    case (Int(_), Str(_)) => true
    case (Str(_), Int(_)) => false
  }

  lemma AtomLtIrreflexive(x: Atom)
    ensures !AtomLt(x, x)
  {
    if x.Str? {
      StrLtIrreflexive(x.s);
    }
  }

  lemma AtomLtTransitive(x: Atom, y: Atom, z: Atom)
    requires AtomLt(x, y) && AtomLt(y, z)
    ensures AtomLt(x, z)
  {
    if x.Str? && y.Str? && z.Str? {
      StrLtTransitive(x.s, y.s, z.s);
    }
  }

  lemma AtomLtTotal(x: Atom, y: Atom)
    ensures x == y || AtomLt(x, y) || AtomLt(y, x)
  {
    if x.Str? && y.Str? {
      StrLtTotal(x.s, y.s);
    }
  }

  /** Python's `<` on tuples. */
  predicate KeyLt(a: seq<Atom>, b: seq<Atom>)
    decreases |a|
  {
    if |a| == 0 then 0 < |b|
    else if |b| == 0 then false
    else AtomLt(a[0], b[0]) || (a[0] == b[0] && KeyLt(a[1..], b[1..]))
  }

  /** Python's `<=` on tuples. */
  predicate KeyLe(a: seq<Atom>, b: seq<Atom>)
  {
    a == b || KeyLt(a, b)
  }

  lemma {:induction false} KeyLtIrreflexive(a: seq<Atom>)
    ensures !KeyLt(a, a)
    decreases |a|
  {
    if |a| > 0 {
      AtomLtIrreflexive(a[0]);
      KeyLtIrreflexive(a[1..]);
    }
  }

  lemma {:induction false} KeyLtTransitive(a: seq<Atom>, b: seq<Atom>, c: seq<Atom>)
    requires KeyLt(a, b) && KeyLt(b, c)
    ensures KeyLt(a, c)
    decreases |a|
  {
    if |a| > 0 {
      if AtomLt(a[0], b[0]) && AtomLt(b[0], c[0]) {
        AtomLtTransitive(a[0], b[0], c[0]);
      } else if a[0] == b[0] && b[0] == c[0] {
        KeyLtTransitive(a[1..], b[1..], c[1..]);
      }
    }
  }

  lemma {:induction false} KeyLtTotal(a: seq<Atom>, b: seq<Atom>)
    ensures a == b || KeyLt(a, b) || KeyLt(b, a)
    decreases |a|
  {
    if |a| > 0 && |b| > 0 {
      AtomLtTotal(a[0], b[0]);
      if a[0] == b[0] {
        KeyLtTotal(a[1..], b[1..]);
        if a[1..] == b[1..] {
          assert a == [a[0]] + a[1..] && b == [b[0]] + b[1..];
        }
      }
    }
  }

  lemma KeyLeTransitive(a: seq<Atom>, b: seq<Atom>, c: seq<Atom>)
    requires KeyLe(a, b) && KeyLe(b, c)
    ensures KeyLe(a, c)
  {
    if KeyLt(a, b) && KeyLt(b, c) {
      KeyLtTransitive(a, b, c);
    }
  }

  lemma KeyLeAntisymmetric(a: seq<Atom>, b: seq<Atom>)
    requires KeyLe(a, b) && KeyLe(b, a)
    ensures a == b
  {
    if a != b {
      KeyLtTransitive(a, b, a);
      KeyLtIrreflexive(a);
    }
  }

  /** Not `a <= b` means `b < a`. */
  lemma KeyNotLe(a: seq<Atom>, b: seq<Atom>)
    ensures !KeyLe(a, b) <==> KeyLt(b, a)
  {
    KeyLtTotal(a, b);
    if KeyLt(b, a) && KeyLe(a, b) {
      if a == b {
        KeyLtIrreflexive(a);
      } else {
        KeyLtTransitive(a, b, a);
        KeyLtIrreflexive(a);
      }
    }
  }

  /** Keys made of ints only compare component-wise as Python compares
      `(x,)` and `(x, y)`. */
  lemma IntKey1Le(a: int, b: int)
    ensures KeyLe([Int(a)], [Int(b)]) <==> a <= b
  {
    assert [Int(a)][1..] == [] && [Int(b)][1..] == [];
  }

  lemma IntKey2Le(a1: int, a2: int, b1: int, b2: int)
    ensures KeyLe([Int(a1), Int(a2)], [Int(b1), Int(b2)]) <==> a1 < b1 || (a1 == b1 && a2 <= b2)
  {
    assert [Int(a1), Int(a2)][1..] == [Int(a2)];
    assert [Int(b1), Int(b2)][1..] == [Int(b2)];
    IntKey1Le(a2, b2);
  }

  /** Two keys with the same prefix compare as their suffixes. */
  lemma {:induction false} KeyLeCommonPrefix(p: seq<Atom>, a: seq<Atom>, b: seq<Atom>)
    ensures KeyLe(p + a, p + b) <==> KeyLe(a, b)
    decreases |p|
  {
    if |p| == 0 {
      assert p + a == a && p + b == b;
    } else {
      AtomLtIrreflexive(p[0]);
      assert (p + a)[1..] == p[1..] + a;
      assert (p + b)[1..] == p[1..] + b;
      assert p + a == [p[0]] + (p[1..] + a);
      assert p + b == [p[0]] + (p[1..] + b);
      KeyLeCommonPrefix(p[1..], a, b);
    }
  }
}
