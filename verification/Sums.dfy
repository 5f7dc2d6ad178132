/** Sums of a finite map's values. */
module Sums {
  import opened Orders

  /** The sum of the values at the given keys. */
  ghost function SumKeys<K>(m: map<K, real>, s: set<K>): real
    requires s <= m.Keys
    decreases |s|
  {
    if s == {} then 0.0 else
    var k := AnyOf(s);
    m[k] + SumKeys(m, s - {k})
  }

  ghost function MapSum<K>(m: map<K, real>): real
  {
    SumKeys(m, m.Keys)
  }

  /** The sum does not depend on the order of summation. */
  lemma {:induction false} SumRemove<K>(m: map<K, real>, s: set<K>, k: K)
    requires k in s && s <= m.Keys
    ensures SumKeys(m, s) == m[k] + SumKeys(m, s - {k})
    decreases |s|
  {
    var j := AnyOf(s);
    if j != k {
      SumRemove(m, s - {j}, k);
      SumRemove(m, s - {k}, j);
      assert s - {j} - {k} == s - {k} - {j};
    }
  }

  lemma {:induction false} SumAgree<K>(m: map<K, real>, n: map<K, real>, s: set<K>)
    requires s <= m.Keys && s <= n.Keys && forall k :: k in s ==> m[k] == n[k]
    ensures SumKeys(m, s) == SumKeys(n, s)
    decreases |s|
  {
    if s != {} { SumAgree(m, n, s - {AnyOf(s)}); }
  }

  lemma MapSumUpdate<K>(m: map<K, real>, k: K, v: real)
    ensures MapSum(m[k := v]) == MapSum(m) + v - (if k in m then m[k] else 0.0)
  {
    var n := m[k := v];
    SumRemove(n, n.Keys, k);
    assert n.Keys - {k} == m.Keys - {k};
    SumAgree(m, n, m.Keys - {k});
    if k in m {
      SumRemove(m, m.Keys, k);
    } else {
      assert m.Keys - {k} == m.Keys;
    }
  }

  /** Names the two terms at which additivity is used. */
  ghost predicate Terms(x: real, y: real)
  {
    true
  }

  ghost predicate Additive(g: real -> real)
  {
    g(0.0) == 0.0 && forall x, y {:trigger Terms(x, y)} :: Terms(x, y) ==> g(x + y) == g(x) + g(y)
  }

  lemma {:induction false} SumMapped<K>(m: map<K, real>, n: map<K, real>, s: set<K>, g: real -> real)
    requires s <= m.Keys && s <= n.Keys && Additive(g) && forall k :: k in s ==> n[k] == g(m[k])
    ensures SumKeys(n, s) == g(SumKeys(m, s))
    decreases |s|
  {
    if s != {} {
      var k := AnyOf(s);
      SumMapped(m, n, s - {k}, g);
      assert Terms(m[k], SumKeys(m, s - {k}));
    }
  }

  lemma Distribute(f: real, g: real -> real)
    requires forall x :: g(x) == f * x
    ensures Additive(g)
  {
  }

  lemma MapSumScale<K>(m: map<K, real>, n: map<K, real>, f: real, g: real -> real)
    requires m.Keys == n.Keys && forall k :: k in m ==> n[k] == g(m[k])
    requires forall x :: g(x) == f * x
    ensures MapSum(n) == f * MapSum(m)
  {
    Distribute(f, g);
    SumMapped(m, n, m.Keys, g);
  }

  lemma {:induction false} SumPositive<K>(m: map<K, real>, s: set<K>)
    requires s <= m.Keys && forall k :: k in s ==> m[k] > 0.0
    ensures SumKeys(m, s) >= 0.0 && (s != {} ==> SumKeys(m, s) > 0.0)
    decreases |s|
  {
    if s != {} { SumPositive(m, s - {AnyOf(s)}); }
  }

  /** Splitting the keys splits the sum. */
  lemma {:induction false} SumSplit<K>(m: map<K, real>, a: set<K>, b: set<K>)
    requires a + b <= m.Keys && a !! b
    ensures SumKeys(m, a + b) == SumKeys(m, a) + SumKeys(m, b)
    decreases |a|
  {
    if a == {} {
      assert a + b == b;
    } else {
      var k := AnyOf(a);
      SumSplit(m, a - {k}, b);
      SumRemove(m, a + b, k);
      assert a + b - {k} == (a - {k}) + b;
    }
  }

  lemma SignOfProduct(a: real, d: real)
    requires d > 0.0
    ensures (a < 0.0 <==> a * d < 0.0) && (a > 0.0 <==> a * d > 0.0)
  {
  }

  lemma SumVisited<K>(m: map<K, real>, order: Order<K>)
    requires order.Then? && Once(order) && Visited(order) <= m.Keys
    ensures SumKeys(m, Visited(order)) == SumKeys(m, Visited(order.before)) + m[order.key]
  {
    SumRemove(m, Visited(order), order.key);
    assert Visited(order) - {order.key} == Visited(order.before);
  }
}
