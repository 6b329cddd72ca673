/** Accumulating weighted items into a map by key: what any such map holds, and
    what summing over part of it gives. */
module Grouping {
  import opened Prelude

  datatype Sum = Sum(count: int, tokens: int, quota: int)

  const ZERO := Sum(0, 0, 0)

  function Plus(a: Sum, b: Sum): Sum {
    Sum(a.count + b.count, a.tokens + b.tokens, a.quota + b.quota)
  }

  /** The map a grouping loop builds; items without a key are passed over. */
  function Grouped<E, K(==)>(items: seq<E>, key: E -> Option<K>, weight: E -> Sum): map<K, Sum> {
    if items == [] then map[]
    else Added(Grouped(items[..|items| - 1], key, weight), key(items[|items| - 1]), weight(items[|items| - 1]))
  }

  function Added<K(==)>(m: map<K, Sum>, k: Option<K>, w: Sum): map<K, Sum> {
    match k
    case None => m
    case Some(x) => m[x := Plus(if x in m then m[x] else ZERO, w)]
  }

  /** The plain total of the items whose key is among `keys`. */
  function TotalIn<E, K(==)>(items: seq<E>, key: E -> Option<K>, weight: E -> Sum, keys: set<K>): Sum {
    if items == [] then ZERO
    else
      var e := items[|items| - 1];
      var before := TotalIn(items[..|items| - 1], key, weight, keys);
      if key(e).Some? && key(e).value in keys then Plus(before, weight(e)) else before
  }

  /** The total of the map's entries under `keys`, in any order. */
  ghost function SumOver<K>(m: map<K, Sum>, keys: set<K>): Sum
    requires keys <= m.Keys
  {
    if keys == {} then ZERO
    else var k :| k in keys; Plus(m[k], SumOver(m, keys - {k}))
  }

  /** Each entry is the total of the items with its key. */
  lemma {:induction false} GroupedAt<E, K>(items: seq<E>, key: E -> Option<K>, weight: E -> Sum, k: K)
    ensures k in Grouped(items, key, weight) ==> Grouped(items, key, weight)[k] == TotalIn(items, key, weight, {k})
    ensures k !in Grouped(items, key, weight) ==> TotalIn(items, key, weight, {k}) == ZERO
  {
    if items != [] {
      GroupedAt(items[..|items| - 1], key, weight, k);
    }
  }

  /** The map has a key for every item that has one, and no other. */
  lemma {:induction false} ItemHasGroup<E, K>(items: seq<E>, key: E -> Option<K>, weight: E -> Sum, i: nat)
    requires i < |items| && key(items[i]).Some?
    ensures key(items[i]).value in Grouped(items, key, weight)
  {
    if i < |items| - 1 {
      assert items[..|items| - 1][i] == items[i];
      ItemHasGroup(items[..|items| - 1], key, weight, i);
    }
  }

  lemma {:induction false} GroupHasItem<E, K>(items: seq<E>, key: E -> Option<K>, weight: E -> Sum, k: K)
    returns (i: nat)
    requires k in Grouped(items, key, weight)
    ensures i < |items| && key(items[i]) == Some(k)
  {
    var n := |items| - 1;
    if k in Grouped(items[..n], key, weight) {
      i := GroupHasItem(items[..n], key, weight, k);
    } else {
      i := n;
    }
  }

  lemma {:induction false} TotalSplits<E, K>(items: seq<E>, key: E -> Option<K>, weight: E -> Sum, a: set<K>, b: set<K>)
    requires a !! b
    ensures TotalIn(items, key, weight, a + b) == Plus(TotalIn(items, key, weight, a), TotalIn(items, key, weight, b))
  {
    if items != [] { TotalSplits(items[..|items| - 1], key, weight, a, b); }
  }

  lemma {:induction false} TotalOfNone<E, K>(items: seq<E>, key: E -> Option<K>, weight: E -> Sum)
    ensures TotalIn(items, key, weight, {}) == ZERO
  {
    if items != [] { TotalOfNone(items[..|items| - 1], key, weight); }
  }

  /** Summing any part of the map gives the total of the items in that part. */
  lemma {:induction false} SumOverIsTotal<E, K>(items: seq<E>, key: E -> Option<K>, weight: E -> Sum, keys: set<K>)
    requires keys <= Grouped(items, key, weight).Keys
    ensures SumOver(Grouped(items, key, weight), keys) == TotalIn(items, key, weight, keys)
    decreases keys
  {
    var m := Grouped(items, key, weight);
    if keys == {} {
      TotalOfNone(items, key, weight);
    } else {
      var k :| k in keys && SumOver(m, keys) == Plus(m[k], SumOver(m, keys - {k}));
      SumOverIsTotal(items, key, weight, keys - {k});
      GroupedAt(items, key, weight, k);
      TotalSplits(items, key, weight, {k}, keys - {k});
      assert {k} + (keys - {k}) == keys;
    }
  }

  /** Two keyings that agree on the items that weigh anything give the same total. */
  lemma {:induction false} SameTotal<E, J, K>(items: seq<E>, weight: E -> Sum, j: E -> Option<J>, js: set<J>,
                                              k: E -> Option<K>, ks: set<K>)
    requires forall i :: 0 <= i < |items| ==>
               || weight(items[i]) == ZERO
               || ((j(items[i]).Some? && j(items[i]).value in js) <==> (k(items[i]).Some? && k(items[i]).value in ks))
    ensures TotalIn(items, j, weight, js) == TotalIn(items, k, weight, ks)
  {
    if items != [] { SameTotal(items[..|items| - 1], weight, j, js, k, ks); }
  }

  /** The order in which entries are added up does not matter. */
  lemma {:induction false} SumOverTakes<K>(m: map<K, Sum>, keys: set<K>, x: K)
    requires keys <= m.Keys && x in keys
    ensures SumOver(m, keys) == Plus(m[x], SumOver(m, keys - {x}))
    decreases keys
  {
    var k :| k in keys && SumOver(m, keys) == Plus(m[k], SumOver(m, keys - {k}));
    if k != x {
      var rest := keys - {k} - {x};
      assert keys - {x} - {k} == rest;
      SumOverTakes(m, keys - {k}, x);
      SumOverTakes(m, keys - {x}, k);
      assert Plus(m[k], Plus(m[x], SumOver(m, rest))) == Plus(m[x], Plus(m[k], SumOver(m, rest)));
    }
  }

  // ------------------------------------------------------------- 64-bit words

  /** Tokens as a 64-bit word keeps them. */
  function Wrapped(s: Sum): Sum {
    s.(tokens := s.tokens % TWO64)
  }

  function WrappedAll<K>(m: map<K, Sum>): map<K, Sum> {
    map k | k in m :: Wrapped(m[k])
  }

  function At<K>(m: map<K, Sum>, k: K): Sum {
    if k in m then m[k] else ZERO
  }

  lemma WrappedAt<K>(m: map<K, Sum>, k: K)
    ensures At(WrappedAll(m), k) == Wrapped(At(m, k))
  {
  }

  lemma WrapOnce(a: Sum, b: Sum)
    ensures Wrapped(Plus(Wrapped(a), b)) == Wrapped(Plus(a, b))
  {
    var q := a.tokens / TWO64;
    assert a.tokens + b.tokens == q * TWO64 + (a.tokens % TWO64 + b.tokens);
  }

  lemma WrapBoth(a: Sum, b: Sum)
    ensures Wrapped(Plus(Wrapped(a), Wrapped(b))) == Wrapped(Plus(a, b))
  {
    WrapOnce(a, Wrapped(b));
    WrapOnce(b, a);
    assert Plus(a, Wrapped(b)) == Plus(Wrapped(b), a) && Plus(b, a) == Plus(a, b);
  }

  /** Wrapping at every addition is wrapping at the end. */
  lemma AddedWraps<K>(m: map<K, Sum>, k: K, w: Sum)
    ensures WrappedAll(Added(m, Some(k), w)) == WrappedAll(m)[k := Wrapped(Plus(At(WrappedAll(m), k), w))]
  {
    WrapOnce(At(m, k), w);
  }

  /** Adding up wrapped entries and wrapping is adding up the entries and wrapping. */
  lemma {:induction false} WrapSum<K>(m: map<K, Sum>, keys: set<K>)
    requires keys <= m.Keys
    ensures Wrapped(SumOver(WrappedAll(m), keys)) == Wrapped(SumOver(m, keys))
    decreases keys
  {
    if keys != {} {
      var k :| k in keys;
      SumOverTakes(m, keys, k);
      SumOverTakes(WrappedAll(m), keys, k);
      WrapSum(m, keys - {k});
      WrapBoth(m[k], SumOver(m, keys - {k}));
      WrapOnce(SumOver(WrappedAll(m), keys - {k}), Wrapped(m[k]));
      var rest, wrapped := SumOver(m, keys - {k}), SumOver(WrappedAll(m), keys - {k});
      assert Plus(Wrapped(m[k]), wrapped) == Plus(wrapped, Wrapped(m[k]));
      assert Plus(Wrapped(wrapped), Wrapped(m[k])) == Plus(Wrapped(m[k]), Wrapped(rest));
    }
  }

  // ------------------------------------------------------------ coarser groups

  /** The keys of the map that a coarser key puts under `c`. */
  function Under<J(==), K(==)>(m: map<K, Sum>, coarse: K -> J, c: J): set<K> {
    Part(m.Keys, coarse, c)
  }

  function Part<J(==), K(==)>(keys: set<K>, coarse: K -> J, c: J): set<K> {
    set k | k in keys && coarse(k) == c
  }

  lemma WrapUnder<J, K>(m: map<K, Sum>, coarse: K -> J, c: J)
    ensures Under(WrappedAll(m), coarse, c) == Under(m, coarse, c)
    ensures Wrapped(SumOver(WrappedAll(m), Under(m, coarse, c))) == Wrapped(SumOver(m, Under(m, coarse, c)))
  {
    assert WrappedAll(m).Keys == m.Keys;
    WrapSum(m, Under(m, coarse, c));
  }

  /** Grouping by a coarser key is summing the finer groups under each. */
  lemma CoarserGroup<E, J, K>(items: seq<E>, weight: E -> Sum, fine: E -> Option<K>, coarse: K -> J,
                                      key: E -> Option<J>, c: J)
    requires forall i :: 0 <= i < |items| ==>
               key(items[i]) == match fine(items[i]) case Some(k) => Some(coarse(k)) case None => None
    ensures c in Grouped(items, key, weight) ==>
              Grouped(items, key, weight)[c]
              == SumOver(Grouped(items, fine, weight), Under(Grouped(items, fine, weight), coarse, c))
    ensures c !in Grouped(items, key, weight) ==> Under(Grouped(items, fine, weight), coarse, c) == {}
  {
    var m := Grouped(items, fine, weight);
    GroupedAt(items, key, weight, c);
    SumOverIsTotal(items, fine, weight, Under(m, coarse, c));
    forall i | 0 <= i < |items|
      ensures (key(items[i]).Some? && key(items[i]).value in {c})
         <==> (fine(items[i]).Some? && fine(items[i]).value in Under(m, coarse, c))
    {
      if fine(items[i]).Some? { ItemHasGroup(items, fine, weight, i); }
    }
    SameTotal(items, weight, key, {c}, fine, Under(m, coarse, c));
    forall k | k in Under(m, coarse, c) ensures c in Grouped(items, key, weight) {
      var i := GroupHasItem(items, fine, weight, k);
      ItemHasGroup(items, key, weight, i);
    }
  }

  /** `out` sums the entries under `done`, each under its coarser key, in words. */
  ghost predicate Sums<J(!new), K>(m: map<K, Sum>, done: set<K>, coarse: K -> J, out: map<J, Sum>)
    requires done <= m.Keys
  {
    forall c :: && (c in out <==> Part(done, coarse, c) != {})
                && (c in out ==> out[c] == Wrapped(SumOver(m, Part(done, coarse, c))))
  }

  function AddedWord<K(==)>(m: map<K, Sum>, k: K, w: Sum): map<K, Sum> {
    m[k := Wrapped(Plus(At(m, k), w))]
  }

  lemma SumsNext<J(!new), K>(m: map<K, Sum>, done: set<K>, coarse: K -> J, out: map<J, Sum>, k: K)
    requires done <= m.Keys && k in m && k !in done && Sums(m, done, coarse, out)
    ensures Sums(m, done + {k}, coarse, AddedWord(out, coarse(k), m[k]))
  {
    var next := AddedWord(out, coarse(k), m[k]);
    forall c
      ensures c in next <==> Part(done + {k}, coarse, c) != {}
      ensures c in next ==> next[c] == Wrapped(SumOver(m, Part(done + {k}, coarse, c)))
    {
      var was, now := Part(done, coarse, c), Part(done + {k}, coarse, c);
      if c == coarse(k) {
        assert k in now && now - {k} == was;
        SumOverTakes(m, now, k);
        SumsAt(m, was, At(out, c), m[k]);
      } else {
        assert now == was;
      }
    }
  }

  lemma SumsAt<K>(m: map<K, Sum>, was: set<K>, before: Sum, w: Sum)
    requires was <= m.Keys && before == Wrapped(SumOver(m, was))
    ensures Wrapped(Plus(before, w)) == Wrapped(Plus(w, SumOver(m, was)))
  {
    WrapOnce(SumOver(m, was), w);
    assert Plus(SumOver(m, was), w) == Plus(w, SumOver(m, was));
  }

  /** The second-level loops: entries of a map added up under a coarser key. */
  method Rollup<J(==, !new), K(==)>(m: map<K, Sum>, coarse: K -> J) returns (out: map<J, Sum>)
    ensures Sums(m, m.Keys, coarse, out)
  {
    out := map[];
    var done := {};
    while done != m.Keys
      invariant done <= m.Keys && Sums(m, done, coarse, out)
      decreases m.Keys - done
    {
      var k :| k in m.Keys && k !in done;
      SumsNext(m, done, coarse, out, k);
      out := AddedWord(out, coarse(k), m[k]);
      done := done + {k};
    }
  }
}
