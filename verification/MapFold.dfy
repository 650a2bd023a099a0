/** Accumulating pairs into a map under an operation, as the coverage merger
    does on every level: hits per line, hits and lines per function, records
    per file. For an associative and commutative operation the accumulated
    maps form a commutative monoid. */
module MapFold {
  import opened Mapping
  import opened Sorting

  ghost predicate Associative<V(!new)>(f: (V, V) -> V) {
    forall x, y, z :: f(f(x, y), z) == f(x, f(y, z))
  }

  ghost predicate Commutative<V(!new)>(f: (V, V) -> V) {
    forall x, y :: f(x, y) == f(y, x)
  }

  ghost predicate Monoidal<V(!new)>(f: (V, V) -> V) {
    Associative(f) && Commutative(f)
  }

  /** Combine `v` into the entry of `k`. */
  function Bump<K, V>(m: map<K, V>, k: K, v: V, f: (V, V) -> V): map<K, V> {
    m[k := if k in m then f(m[k], v) else v]
  }

  /** Combine the pairs into `m`, first to last. */
  function BumpAll<K, V>(m: map<K, V>, pairs: seq<(K, V)>, f: (V, V) -> V): map<K, V> {
    if pairs == [] then m else
      var last := |pairs| - 1;
      Bump(BumpAll(m, pairs[..last], f), pairs[last].0, pairs[last].1, f)
  }

  /** Both maps at once, combining where they share a key. */
  function Union<K, V>(a: map<K, V>, b: map<K, V>, f: (V, V) -> V): map<K, V> {
    map k | k in a.Keys + b.Keys ::
      if k in a && k in b then f(a[k], b[k]) else if k in a then a[k] else b[k]
  }

  lemma UnionUnit<K, V>(a: map<K, V>, f: (V, V) -> V)
    ensures Union(a, map[], f) == a && Union(map[], a, f) == a
  {
  }

  lemma UnionCommutes<K, V(!new)>(a: map<K, V>, b: map<K, V>, f: (V, V) -> V)
    requires Commutative(f)
    ensures Union(a, b, f) == Union(b, a, f)
  {
    assert a.Keys + b.Keys == b.Keys + a.Keys;
  }

  lemma UnionAssociates<K, V(!new)>(a: map<K, V>, b: map<K, V>, c: map<K, V>, f: (V, V) -> V)
    requires Associative(f)
    ensures Union(Union(a, b, f), c, f) == Union(a, Union(b, c, f), f)
  {
    var l, r := Union(Union(a, b, f), c, f), Union(a, Union(b, c, f), f);
    assert l.Keys == r.Keys;
  }

  lemma BumpIsUnion<K, V>(m: map<K, V>, k: K, v: V, f: (V, V) -> V)
    ensures Bump(m, k, v, f) == Union(m, map[k := v], f)
  {
  }

  /** Accumulating into `m` adds the pairs' own accumulation to `m`. */
  lemma {:induction false} BumpAllIsUnion<K, V(!new)>(m: map<K, V>, pairs: seq<(K, V)>, f: (V, V) -> V)
    requires Associative(f)
    ensures BumpAll(m, pairs, f) == Union(m, BumpAll(map[], pairs, f), f)
  {
    if pairs == [] {
      UnionUnit(m, f);
    } else {
      var last := |pairs| - 1;
      var (k, v) := pairs[last];
      var own := BumpAll(map[], pairs[..last], f);
      BumpAllIsUnion(m, pairs[..last], f);
      BumpIsUnion(BumpAll(m, pairs[..last], f), k, v, f);
      BumpIsUnion(own, k, v, f);
      UnionAssociates(m, own, map[k := v], f);
    }
  }

  lemma {:induction false} BumpAllConcat<K, V>(m: map<K, V>, a: seq<(K, V)>, b: seq<(K, V)>, f: (V, V) -> V)
    ensures BumpAll(m, a + b, f) == BumpAll(BumpAll(m, a, f), b, f)
  {
    if b == [] {
      assert a + b == a;
    } else {
      var last := |b| - 1;
      BumpAllConcat(m, a, b[..last], f);
      assert (a + b)[..|a + b| - 1] == a + b[..last];
    }
  }

  /** Two pair lists one after the other accumulate to the union. */
  lemma ConcatIsUnion<K, V(!new)>(a: seq<(K, V)>, b: seq<(K, V)>, f: (V, V) -> V)
    requires Associative(f)
    ensures BumpAll(map[], a + b, f) == Union(BumpAll(map[], a, f), BumpAll(map[], b, f), f)
  {
    BumpAllConcat(map[], a, b, f);
    BumpAllIsUnion(BumpAll(map[], a, f), b, f);
  }

  lemma SinglePair<K, V>(p: (K, V), f: (V, V) -> V)
    ensures BumpAll(map[], [p], f) == map[p.0 := p.1]
  {
    assert [p][..0] == [];
  }

  lemma Rotate<K, V(!new)>(before: seq<(K, V)>, one: seq<(K, V)>, after: seq<(K, V)>, f: (V, V) -> V)
    requires Monoidal(f)
    ensures BumpAll(map[], before + (one + after), f) ==
            Union(BumpAll(map[], before + after, f), BumpAll(map[], one, f), f)
  {
    var b, o, a := BumpAll(map[], before, f), BumpAll(map[], one, f), BumpAll(map[], after, f);
    ConcatIsUnion(before, one + after, f);
    ConcatIsUnion(one, after, f);
    ConcatIsUnion(before, after, f);
    UnionCommutes(o, a, f);
    UnionAssociates(b, a, o, f);
  }

  /** Taking one pair out of the list takes its contribution out. */
  lemma PairOut<K, V(!new)>(pairs: seq<(K, V)>, j: nat, f: (V, V) -> V)
    requires Monoidal(f) && j < |pairs|
    ensures BumpAll(map[], pairs, f) ==
            Union(BumpAll(map[], Without(pairs, j), f), map[pairs[j].0 := pairs[j].1], f)
  {
    hide BumpAll;
    hide Union;
    var before, one, after := pairs[..j], [pairs[j]], pairs[j + 1..];
    assert pairs == before + (one + after);
    assert Without(pairs, j) == before + after;
    Rotate(before, one, after, f);
    SinglePair(pairs[j], f);
  }

  /** The order of the pairs does not matter. */
  lemma {:induction false} BumpOrderIrrelevant<K, V(!new)>(a: seq<(K, V)>, b: seq<(K, V)>, f: (V, V) -> V)
    requires Monoidal(f) && multiset(a) == multiset(b)
    ensures BumpAll(map[], a, f) == BumpAll(map[], b, f)
  {
    assert |a| == |multiset(a)| == |multiset(b)| == |b|;
    if a != [] {
      assert a[0] in multiset(b);
      var j :| 0 <= j < |b| && b[j] == a[0];
      WithoutElements(a, 0);
      WithoutElements(b, j);
      BumpOrderIrrelevant(Without(a, 0), Without(b, j), f);
      PairOut(a, 0, f);
      PairOut(b, j, f);
    }
  }

  /** Pairs with distinct keys are simply tabulated. */
  lemma {:induction false} DistinctPairs<K, V>(pairs: seq<(K, V)>, m: map<K, V>, f: (V, V) -> V)
    requires forall i, j :: 0 <= i < j < |pairs| ==> pairs[i].0 != pairs[j].0
    requires m.Keys == set i | 0 <= i < |pairs| :: pairs[i].0
    requires forall i :: 0 <= i < |pairs| ==> pairs[i].0 in m && m[pairs[i].0] == pairs[i].1
    ensures BumpAll(map[], pairs, f) == m
  {
    if pairs == [] {
      assert m.Keys == {};
    } else {
      var last := |pairs| - 1;
      var (k, v) := pairs[last];
      DistinctPairs(pairs[..last], m - {k}, f);
      assert (m - {k})[k := v] == m;
    }
  }

  /** A listing of a map's keys, each with its value, tabulates the map. */
  lemma Tabulated<K, V>(keys: seq<K>, pairs: seq<(K, V)>, m: map<K, V>, f: (V, V) -> V)
    requires multiset(keys) == multiset(m.Keys) && |pairs| == |keys|
    requires forall i :: 0 <= i < |keys| ==> keys[i] in m ==> pairs[i] == (keys[i], m[keys[i]])
    ensures BumpAll(map[], pairs, f) == m
  {
    NoDuplicates(keys, m.Keys);
    forall i | 0 <= i < |keys| ensures keys[i] in m && pairs[i] == (keys[i], m[keys[i]]) {
      assert keys[i] in keys;
    }
    forall k | k in m ensures k in set i | 0 <= i < |pairs| :: pairs[i].0 {
      assert k in keys;
      var i :| 0 <= i < |keys| && keys[i] == k;
      assert pairs[i].0 == k;
    }
    DistinctPairs(pairs, m, f);
  }

  /** So does a listing of its entries. */
  lemma TabulatedItems<K, V>(entries: seq<(K, V)>, m: map<K, V>, f: (V, V) -> V)
    requires multiset(entries) == multiset(m.Items)
    ensures BumpAll(map[], entries, f) == m
  {
    NoDuplicates(entries, m.Items);
    forall i | 0 <= i < |entries| ensures entries[i].0 in m && m[entries[i].0] == entries[i].1 {
      assert entries[i] in entries;
    }
    forall k | k in m ensures k in set i | 0 <= i < |entries| :: entries[i].0 {
      assert (k, m[k]) in entries;
      var i :| 0 <= i < |entries| && entries[i] == (k, m[k]);
      assert entries[i].0 == k;
    }
    DistinctPairs(entries, m, f);
  }

  lemma {:induction false} BumpKeys<K, V>(pairs: seq<(K, V)>, f: (V, V) -> V)
    ensures BumpAll(map[], pairs, f).Keys == set i | 0 <= i < |pairs| :: pairs[i].0
  {
    if pairs != [] {
      BumpKeys(pairs[..|pairs| - 1], f);
    }
  }
}
