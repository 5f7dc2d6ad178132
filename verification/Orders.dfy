/** Visiting the keys of a set or map one by one in any order, and logs of what happened. */
module Orders {
  ghost function AnyOf<K>(s: set<K>): (k: K)
    requires s != {}
    ensures k in s
  {
    var k :| k in s; k
  }

  lemma SameSize<T>(a: set<T>, b: set<T>)
    requires a <= b && |a| == |b|
    ensures a == b
  {
    assert b == a + (b - a);
    assert |b - a| == 0;
  }

  /** What was visited, or recorded, one after the other; the latest is outermost. */
  datatype Order<K> = Start | Then(before: Order<K>, key: K)

  ghost function Visited<K>(order: Order<K>): set<K>
  {
    match order
    case Start => {}
    case Then(before, key) => Visited(before) + {key}
  }

  ghost predicate Once<K>(order: Order<K>)
  {
    order.Then? ==> order.key !in Visited(order.before) && Once(order.before)
  }

  /** Visits that go on from earlier ones. */
  ghost predicate Extends<K>(order: Order<K>, earlier: Order<K>)
  {
    order == earlier || (order.Then? && Extends(order.before, earlier))
  }

  lemma {:induction false} ExtendsThrough<K>(a: Order<K>, b: Order<K>, c: Order<K>)
    requires Extends(c, b) && Extends(b, a)
    ensures Extends(c, a)
    decreases c
  {
    if c != b { ExtendsThrough(a, b, c.before); }
  }

  /** The next key, whichever it is. */
  method Pick<K(==)>(left: set<K>) returns (k: K)
    requires left != {}
    ensures k in left
  {
    k :| k in left;
  }

  lemma Visit<K>(order: Order<K>, k: K, left: set<K>)
    requires k in left && Visited(order) !! left
    ensures Visited(Then(order, k)) + (left - {k}) == Visited(order) + left
    ensures Visited(Then(order, k)) !! left - {k} && k !in Visited(order)
  {
  }

  /** The first n keys of a list, as an order of visits. */
  ghost function First<K>(keys: seq<K>, n: nat): Order<K>
    requires n <= |keys|
  {
    if n == 0 then Start else Then(First(keys, n - 1), keys[n - 1])
  }

  ghost predicate Distinct<K>(keys: seq<K>)
  {
    forall i, j :: 0 <= i < j < |keys| ==> keys[i] != keys[j]
  }

  lemma {:induction false} FirstMember<K>(keys: seq<K>, n: nat, k: K)
    requires n <= |keys|
    ensures k in Visited(First(keys, n)) <==> exists i :: 0 <= i < n && keys[i] == k
  {
    if n > 0 { FirstMember(keys, n - 1, k); }
  }

  lemma {:induction false} FirstVisits<K>(keys: seq<K>, n: nat)
    requires n <= |keys| && Distinct(keys)
    ensures Once(First(keys, n)) && |Visited(First(keys, n))| == n
  {
    if n > 0 {
      FirstVisits(keys, n - 1);
      FirstMember(keys, n - 1, keys[n - 1]);
    }
  }

  /** A list of all keys of a set, each once. */
  ghost predicate Enumerates<K>(keys: seq<K>, s: set<K>)
  {
    && Visited(First(keys, |keys|)) == s
    && (forall i :: 0 <= i < |keys| ==> keys[i] in s)
    && (forall i :: 0 <= i <= |keys| ==> Once(First(keys, i)) && Visited(First(keys, i)) <= s)
  }

  /** The keys of a map in the order the map yields them, whichever that is. */
  method Enumerate<K(==)>(s: set<K>) returns (keys: seq<K>)
    ensures Enumerates(keys, s)
  {
    keys := [];
    var left := s;
    while left != {}
      invariant left <= s && Distinct(keys) && forall k :: k in keys <==> k in s && k !in left
      decreases |left|
    {
      var k :| k in left;
      keys := keys + [k];
      left := left - {k};
    }
    EnumerateAll(keys, s);
  }

  lemma EnumerateAll<K>(keys: seq<K>, s: set<K>)
    requires Distinct(keys) && forall k :: k in keys <==> k in s
    ensures Enumerates(keys, s)
  {
    forall i | 0 <= i <= |keys| ensures Once(First(keys, i)) && Visited(First(keys, i)) <= s {
      FirstVisits(keys, i);
      forall k | k in Visited(First(keys, i)) ensures k in s { FirstMember(keys, i, k); }
    }
    forall k | k in s ensures k in Visited(First(keys, |keys|)) { FirstMember(keys, |keys|, k); }
  }
}
