/**
 * Insertion-ordered collections, as JavaScript's `Map` and `Set` iterate.
 * A `Set<string>` is a sequence without repetitions; a `Map<string, V>` is
 * an `OMap`: its keys in insertion order beside a Dafny map.
 */
module Ordered {

  /** No element occurs twice. */
  predicate Distinct<T(==)>(s: seq<T>) {
    forall i, j :: 0 <= i < j < |s| ==> s[i] != s[j]
  }

  /** The elements of a sequence, as a set. */
  function Elems<T>(s: seq<T>): set<T> {
    set x | x in s
  }

  /** `Set.prototype.add`: append `x` unless it is already there. */
  function Add<T(==,!new)>(s: seq<T>, x: T): (r: seq<T>)
    ensures forall y :: y in r <==> y in s || y == x
    ensures s <= r
    ensures Distinct(s) ==> Distinct(r)
  {
    if x in s then s else s + [x]
  }

  /** `[...a].filter((u) => !b.has(u))`: the elements of `a` not in `b`, in `a`'s order. */
  function Minus<T(==,!new)>(a: seq<T>, b: seq<T>): seq<T> {
    if a == [] then []
    else Minus(a[..|a| - 1], b) + (if a[|a| - 1] in b then [] else [a[|a| - 1]])
  }

  /** The filter keeps exactly the elements of `a` outside `b`, in `a`'s order, so without repetitions if `a` has none. */
  lemma {:induction false} MinusFacts<T(!new)>(a: seq<T>, b: seq<T>)
    ensures forall x :: x in Minus(a, b) <==> x in a && x !in b
    ensures Distinct(a) ==> Distinct(Minus(a, b))
  {
    if a != [] {
      var init, last := a[..|a| - 1], a[|a| - 1];
      assert a == init + [last];
      MinusFacts(init, b);
      if Distinct(a) {
        DistinctSplit(init, [last]);
        DistinctConcat(Minus(init, b), if last in b then [] else [last]);
      }
    }
  }

  /** Filtering `a + [x]` filters `a`, then keeps `x` unless `b` holds it. */
  lemma MinusSnoc<T(!new)>(a: seq<T>, x: T, b: seq<T>)
    ensures Minus(a + [x], b) == Minus(a, b) + (if x in b then [] else [x])
  {
    assert (a + [x])[..|a|] == a;
  }

  /** `[...keys].filter((k) => !o.has(k))`: the keys of `ks` that `o` does not bind, in order. */
  function Missing<V>(ks: seq<string>, o: OMap<V>): (r: seq<string>)
    ensures forall k :: k in r <==> k in ks && k !in o.m
    ensures Distinct(ks) ==> Distinct(r)
  {
    if ks == [] then []
    else Missing(ks[..|ks| - 1], o) + (if ks[|ks| - 1] in o.m then [] else [ks[|ks| - 1]])
  }

  /** Nothing is missing exactly when every key of `ks` is bound. */
  lemma MissingNone<V>(ks: seq<string>, o: OMap<V>)
    ensures Missing(ks, o) == [] <==> forall k :: k in ks ==> k in o.m
  {
    if Missing(ks, o) != [] {
      assert Missing(ks, o)[0] in Missing(ks, o);
    }
  }

  /** The keys of a valid map `a` that `b` lacks: listed once each, exactly the difference of the key sets. */
  lemma MissingKeys<V, W>(a: OMap<V>, b: OMap<W>)
    requires a.Valid()
    ensures Distinct(Missing(a.keys, b))
    ensures Elems(Missing(a.keys, b)) == a.m.Keys - b.m.Keys
    ensures Missing(a.keys, b) == [] <==> a.m.Keys <= b.m.Keys
  {
    MissingNone(a.keys, b);
  }

  /** Two sequences without repetitions and without common elements concatenate to one without repetitions. */
  lemma DistinctConcat<T>(a: seq<T>, b: seq<T>)
    requires Distinct(a) && Distinct(b)
    requires forall x :: x in a ==> x !in b
    ensures Distinct(a + b)
  {
    forall i, j | 0 <= i < j < |a + b|
      ensures (a + b)[i] != (a + b)[j]
    {
      if i < |a| <= j {
        assert (a + b)[i] in a && (a + b)[j] == b[j - |a|];
      }
    }
  }

  /** The two parts of a sequence without repetitions have none and share nothing. */
  lemma DistinctSplit<T>(a: seq<T>, b: seq<T>)
    requires Distinct(a + b)
    ensures Distinct(a) && Distinct(b)
    ensures forall x :: x in a ==> x !in b
  {
    forall x | x in a ensures x !in b {
      var i :| 0 <= i < |a| && a[i] == x;
      assert (a + b)[i] == x;
      forall j | 0 <= j < |b| ensures b[j] != x {
        assert (a + b)[|a| + j] == b[j];
      }
    }
    forall i, j | 0 <= i < j < |b| ensures b[i] != b[j] {
      assert (a + b)[|a| + i] == b[i] && (a + b)[|a| + j] == b[j];
    }
    forall i, j | 0 <= i < j < |a| ensures a[i] != a[j] {
      assert (a + b)[i] == a[i] && (a + b)[j] == a[j];
    }
  }

  /** A block inside a block inside a sequence is a block of the sequence. */
  lemma Nested<T>(a: seq<T>, b: seq<T>, c: seq<T>, d: seq<T>, e: seq<T>)
    ensures a + (b + c + d) + e == (a + b) + c + (d + e)
  {
  }

  /** Appending two pieces one after another appends their concatenation. */
  lemma AppendTwo<T>(a: seq<T>, b: seq<T>, c: seq<T>)
    ensures a + b + c == a + (b + c)
  {
  }

  /** Appending three pieces one after another appends their concatenation. */
  lemma AppendThree<T>(a: seq<T>, b: seq<T>, c: seq<T>, d: seq<T>)
    ensures a + b + c + d == a + (b + c + d)
  {
  }

  /** Appending five pieces one after another appends their concatenation. */
  lemma AppendFive<T>(o: seq<T>, a: seq<T>, b: seq<T>, c: seq<T>, d: seq<T>, e: seq<T>)
    ensures o + a + b + c + d + e == o + (a + b + c + d + e)
  {
  }

  /** In a sequence without repetitions every element occurs once. */
  lemma {:induction false} DistinctCount<T>(s: seq<T>, x: T)
    requires Distinct(s)
    ensures multiset(s)[x] == if x in s then 1 else 0
  {
    if s != [] {
      var init, last := s[..|s| - 1], s[|s| - 1];
      assert s == init + [last];
      DistinctSplit(init, [last]);
      DistinctCount(init, x);
    }
  }

  /** Two sequences with different elements: one holds an element the other lacks. */
  lemma ElemsDiffer<T>(a: seq<T>, b: seq<T>) returns (x: T)
    requires Elems(a) != Elems(b)
    ensures (x in a && x !in b) || (x in b && x !in a)
  {
    if y :| y in Elems(a) && y !in Elems(b) {
      x := y;
    } else {
      x :| x in Elems(b) && x !in Elems(a);
    }
  }

  /** A repetition-free sequence has as many elements as its set. */
  lemma {:induction false} DistinctCard<T>(s: seq<T>)
    requires Distinct(s)
    ensures |Elems(s)| == |s|
  {
    if s != [] {
      DistinctCard(s[1..]);
      assert Elems(s) == Elems(s[1..]) + {s[0]};
      assert s[0] !in Elems(s[1..]);
    }
  }

  /** A JavaScript `Map` keyed by strings: `keys` in insertion order, `m` the bindings. */
  datatype OMap<V> = OMap(keys: seq<string>, m: map<string, V>) {

    /** The keys are listed once each, and are exactly the bound ones. */
    ghost predicate Valid() {
      Distinct(keys) && forall k :: k in m <==> k in keys
    }

    /** `Map.prototype.set`: a new key goes last, an existing key keeps its place. */
    function Put(k: string, v: V): (r: OMap<V>)
      ensures Valid() ==> r.Valid()
      ensures r.m == m[k := v]
      ensures keys <= r.keys
      ensures k in m ==> r.keys == keys
    {
      if k in m then OMap(keys, m[k := v]) else OMap(keys + [k], m[k := v])
    }
  }

  /** A valid map lists as many keys as it binds (`Map.prototype.size`). */
  lemma KeysCount<V>(o: OMap<V>)
    requires o.Valid()
    ensures |o.keys| == |o.m|
  {
    DistinctCard(o.keys);
    assert Elems(o.keys) == o.m.Keys;
  }

  /** The empty `new Map()`. */
  function EmptyMap<V>(): (r: OMap<V>)
    ensures r.Valid() && r.keys == [] && r.m == map[]
  {
    OMap([], map[])
  }
}
