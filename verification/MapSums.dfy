/** Maps of counts, lists and sets, with nothing at an absent key, and sums over their entries. */
module MapSums {
  function At<K>(m: map<K, nat>, k: K): nat {
    if k in m then m[k] else 0
  }

  function Add<K>(m: map<K, nat>, k: K, more: nat): map<K, nat> {
    m[k := At(m, k) + more]
  }

  function List<K, V>(m: map<K, seq<V>>, k: K): seq<V> {
    if k in m then m[k] else []
  }

  function Members<K, V>(m: map<K, set<V>>, k: K): set<V> {
    if k in m then m[k] else {}
  }

  ghost function SumBy<K, V>(m: map<K, V>, f: V -> int): int {
    if m == map[] then 0
    else
      var k :| k in m;
      f(m[k]) + SumBy(m - {k}, f)
  }

  lemma {:induction false} SumTake<K, V>(m: map<K, V>, f: V -> int, k: K)
    requires k in m
    ensures SumBy(m, f) == f(m[k]) + SumBy(m - {k}, f)
    decreases |m|
  {
    var p :| p in m && SumBy(m, f) == f(m[p]) + SumBy(m - {p}, f);
    if p != k {
      SumTake(m - {p}, f, k);
      SumTake(m - {k}, f, p);
      assert m - {p} - {k} == m - {k} - {p};
    }
  }

  /** Entering v at k changes the sum by what v adds and what it replaces. */
  lemma SumPut<K, V>(m: map<K, V>, f: V -> int, k: K, v: V)
    ensures SumBy(m[k := v], f) == SumBy(m, f) + f(v) - if k in m then f(m[k]) else 0
  {
    SumTake(m[k := v], f, k);
    if k in m {
      SumTake(m, f, k);
      assert m[k := v] - {k} == m - {k};
    } else {
      assert m[k := v] - {k} == m;
    }
  }

  lemma SizePut<K, V>(m: map<K, V>, k: K, v: V)
    ensures |m[k := v]| == |m| + if k in m then 0 else 1
  {
    var n := m[k := v];
    assert n.Keys == m.Keys + {k} && |n.Keys| == |n| && |m.Keys| == |m|;
  }

  lemma {:induction false} SumNonNegative<K, V>(m: map<K, V>, f: V -> int)
    requires forall k :: k in m ==> f(m[k]) >= 0
    ensures SumBy(m, f) >= 0
    decreases |m|
  {
    if m != map[] {
      var k :| k in m && SumBy(m, f) == f(m[k]) + SumBy(m - {k}, f);
      SumNonNegative(m - {k}, f);
    }
  }

  function Each(): nat -> int {
    (n: nat) => n as int
  }

  ghost function Length<V>(): seq<V> -> int {
    (s: seq<V>) => |s|
  }

  ghost function Size<V>(): set<V> -> int {
    (s: set<V>) => |s|
  }

  lemma SumAdd<K>(m: map<K, nat>, k: K, more: nat)
    ensures SumBy(Add(m, k, more), Each()) == SumBy(m, Each()) + more
  {
    SumPut<K, nat>(m, Each(), k, At(m, k) + more);
  }

  lemma SumPush<K, V>(m: map<K, seq<V>>, k: K, v: V)
    ensures SumBy(m[k := List(m, k) + [v]], Length()) == SumBy(m, Length()) + 1
  {
    SumPut(m, Length(), k, List(m, k) + [v]);
  }
}
