/** Integer sums over a finite map, and keys in ascending order. */
module Tallies {
  import opened Orders
  import Sorting

  ghost function Tally<K>(m: map<K, int>, s: set<K>): int
    requires s <= m.Keys
    decreases |s|
  {
    if s == {} then 0 else
    var k := AnyOf(s);
    m[k] + Tally(m, s - {k})
  }

  ghost function TallyAll<K>(m: map<K, int>): int
  {
    Tally(m, m.Keys)
  }

  lemma {:induction false} TallyRemove<K>(m: map<K, int>, s: set<K>, k: K)
    requires k in s && s <= m.Keys
    ensures Tally(m, s) == m[k] + Tally(m, s - {k})
    decreases |s|
  {
    var j := AnyOf(s);
    if j != k {
      TallyRemove(m, s - {j}, k);
      TallyRemove(m, s - {k}, j);
      assert s - {j} - {k} == s - {k} - {j};
    }
  }

  lemma {:induction false} TallyAgree<K>(m: map<K, int>, n: map<K, int>, s: set<K>)
    requires s <= m.Keys && s <= n.Keys && forall k :: k in s ==> m[k] == n[k]
    ensures Tally(m, s) == Tally(n, s)
    decreases |s|
  {
    if s != {} { TallyAgree(m, n, s - {AnyOf(s)}); }
  }

  lemma TallyUpdate<K>(m: map<K, int>, k: K, v: int)
    ensures TallyAll(m[k := v]) == TallyAll(m) + v - (if k in m then m[k] else 0)
  {
    var n := m[k := v];
    TallyRemove(n, n.Keys, k);
    assert n.Keys - {k} == m.Keys - {k};
    TallyAgree(m, n, m.Keys - {k});
    if k in m {
      TallyRemove(m, m.Keys, k);
    } else {
      assert m.Keys - {k} == m.Keys;
    }
  }

  lemma {:induction false} TallyBounds<K>(m: map<K, int>, s: set<K>, k: K)
    requires s <= m.Keys && forall j :: j in s ==> m[j] >= 0
    ensures Tally(m, s) >= 0 && (k in s ==> m[k] <= Tally(m, s))
    decreases |s|
  {
    if s != {} {
      var j := AnyOf(s);
      TallyBounds(m, s - {j}, k);
    }
  }

  lemma TallyVisited<K>(m: map<K, int>, order: Order<K>)
    requires order.Then? && Once(order) && Visited(order) <= m.Keys
    ensures Tally(m, Visited(order)) == Tally(m, Visited(order.before)) + m[order.key]
  {
    TallyRemove(m, Visited(order), order.key);
    assert Visited(order) - {order.key} == Visited(order.before);
  }

  lemma {:induction false} TallySplit<K>(m: map<K, int>, a: set<K>, b: set<K>)
    requires a + b <= m.Keys && a !! b
    ensures Tally(m, a + b) == Tally(m, a) + Tally(m, b)
    decreases |a|
  {
    if a == {} {
      assert a + b == b;
    } else {
      var k := AnyOf(a);
      TallySplit(m, a - {k}, b);
      TallyRemove(m, a + b, k);
      assert a + b - {k} == (a - {k}) + b;
    }
  }

  /** Whole units by account, group or address. */
  type Amounts = map<string, int>

  /** Zero where a map has no entry. */
  function Get<K(==)>(m: map<K, int>, k: K): int
  {
    if k in m then m[k] else 0
  }

  method SumOf<K(==)>(m: map<K, int>) returns (total: int)
    ensures total == TallyAll(m)
  {
    total := 0;
    var left := m.Keys;
    while left != {}
      invariant left <= m.Keys
      invariant total + Tally(m, left) == TallyAll(m)
      decreases |left|
    {
      var k := Pick(left);
      TallyRemove(m, left, k);
      total := total + m[k];
      left := left - {k};
    }
  }

  // ---- Keys in ascending order ----

  predicate Less(a: string, b: string)
  {
    b != [] && (a == [] || a[0] < b[0] || (a[0] == b[0] && Less(a[1..], b[1..])))
  }

  lemma {:induction false} LessTotal(a: string, b: string)
    ensures a == b || Less(a, b) || Less(b, a)
    ensures !(Less(a, b) && Less(b, a)) && !Less(a, a)
    decreases |a|
  {
    if a != [] {
      if b != [] && a[0] == b[0] {
        LessTotal(a[1..], b[1..]);
        assert a == [a[0]] + a[1..] && b == [b[0]] + b[1..];
      }
      LessTotal(a[1..], a[1..]);
    }
  }

  lemma {:induction false} LessTransitive(a: string, b: string, c: string)
    requires Less(a, b) && Less(b, c)
    ensures Less(a, c)
    decreases |a|
  {
    if a != [] && a[0] == b[0] && b[0] == c[0] { LessTransitive(a[1..], b[1..], c[1..]); }
  }

  ghost predicate Ascending(keys: seq<string>)
  {
    forall i, j :: 0 <= i < j < |keys| ==> Less(keys[i], keys[j])
  }

  function InsertKey(k: string, keys: seq<string>): seq<string>
  {
    Sorting.Insert(k, keys, Less)
  }

  lemma {:induction false} InsertKeyAscends(k: string, keys: seq<string>)
    requires Ascending(keys) && k !in keys
    ensures Ascending(InsertKey(k, keys)) && forall j :: j in InsertKey(k, keys) <==> j == k || j in keys
  {
    if keys != [] {
      if Less(k, keys[0]) {
        forall i | 0 < i < |keys| ensures Less(k, keys[i]) { LessTransitive(k, keys[0], keys[i]); }
      } else {
        InsertKeyAscends(k, keys[1..]);
        LessTotal(k, keys[0]);
        assert keys == [keys[0]] + keys[1..];
        var tail := InsertKey(k, keys[1..]);
        forall i | 0 <= i < |tail| ensures Less(keys[0], tail[i]) { assert tail[i] in tail; }
      }
    }
  }

  /** Sorted keys are determined by the set of keys. */
  lemma {:induction false} AscendingUnique(a: seq<string>, b: seq<string>)
    requires Ascending(a) && Ascending(b) && forall k :: k in a <==> k in b
    ensures a == b
    decreases |a|
  {
    assert a != [] ==> a[0] in b;
    assert b != [] ==> b[0] in a;
    if a != [] {
      FirstIsLeast(a, b);
      assert a == [a[0]] + a[1..] && b == [b[0]] + b[1..];
      forall k ensures k in a[1..] <==> k in b[1..] {
        InTail(a, k);
        InTail(b, k);
      }
      AscendingUnique(a[1..], b[1..]);
    }
  }

  lemma InTail(keys: seq<string>, k: string)
    requires keys != [] && Ascending(keys)
    ensures k in keys[1..] <==> k in keys && k != keys[0]
  {
    LessTotal(keys[0], keys[0]);
    assert keys == [keys[0]] + keys[1..];
  }

  lemma FirstIsLeast(a: seq<string>, b: seq<string>)
    requires a != [] && b != [] && Ascending(a) && Ascending(b) && forall k :: k in a <==> k in b
    ensures a[0] == b[0]
  {
    assert a[0] in b && b[0] in a;
    LessTotal(a[0], b[0]);
  }

  ghost function Sorted(keys: set<string>): seq<string>
    decreases |keys|
  {
    if keys == {} then [] else InsertKey(AnyOf(keys), Sorted(keys - {AnyOf(keys)}))
  }

  lemma {:induction false} SortedAscends(keys: set<string>)
    ensures Ascending(Sorted(keys)) && forall k :: k in Sorted(keys) <==> k in keys
    decreases |keys|
  {
    if keys != {} {
      SortedAscends(keys - {AnyOf(keys)});
      InsertKeyAscends(AnyOf(keys), Sorted(keys - {AnyOf(keys)}));
    }
  }

  /** The keys of a map in ascending order, however the map yields them. */
  method SortKeys(keys: set<string>) returns (sorted: seq<string>)
    ensures sorted == Sorted(keys) && Ascending(sorted) && forall k :: k in sorted <==> k in keys
  {
    sorted := [];
    var left := keys;
    while left != {}
      invariant left <= keys
      invariant Ascending(sorted) && forall k :: k in sorted <==> k in keys && k !in left
      decreases |left|
    {
      var k := Pick(left);
      InsertKeyAscends(k, sorted);
      sorted := InsertKey(k, sorted);
      left := left - {k};
    }
    SortedAscends(keys);
    AscendingUnique(sorted, Sorted(keys));
  }

  lemma {:induction false} TallyUnion<K>(m: map<K, int>, n: map<K, int>)
    requires m.Keys !! n.Keys
    ensures TallyAll(m + n) == TallyAll(m) + TallyAll(n)
  {
    var u := m + n;
    assert u.Keys == m.Keys + n.Keys;
    TallySplit(u, m.Keys, n.Keys);
    TallyAgree(u, m, m.Keys);
    TallyAgree(u, n, n.Keys);
  }

  // ---- Adding up a measure of records ----

  ghost function Measure<V>(records: map<string, V>, f: V -> int): map<string, int>
  {
    map id | id in records :: f(records[id])
  }

  ghost function Over<V>(records: map<string, V>, f: V -> int): int
  {
    TallyAll(Measure(records, f))
  }

  /** Writing one record changes the total by what that record measures. */
  lemma OverUpdate<V>(records: map<string, V>, id: string, v: V, f: V -> int)
    ensures Over(records[id := v], f) == Over(records, f) + f(v) - (if id in records then f(records[id]) else 0)
  {
    TallyUpdate(Measure(records, f), id, f(v));
    assert Measure(records[id := v], f) == Measure(records, f)[id := f(v)];
  }

  lemma OverGrows<V>(before: map<string, V>, after: map<string, V>, f: V -> int)
    requires before.Keys <= after.Keys && forall id :: id in before ==> f(before[id]) == f(after[id])
    requires forall id :: id in after ==> f(after[id]) >= 0
    ensures Over(before, f) <= Over(after, f)
  {
    var m, n := Measure(before, f), Measure(after, f);
    TallyAgree(m, n, m.Keys);
    var more := n.Keys - m.Keys;
    assert m.Keys + more == n.Keys;
    TallySplit(n, m.Keys, more);
    TallyBounds(n, more, "");
  }

  lemma {:induction false} AllZero<K>(m: map<K, int>, s: set<K>)
    requires s <= m.Keys && forall k :: k in s ==> m[k] == 0
    ensures Tally(m, s) == 0
    decreases |s|
  {
    if s != {} { AllZero(m, s - {AnyOf(s)}); }
  }
}
