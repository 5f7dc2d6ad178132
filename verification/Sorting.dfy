/** A stable sort by any total preorder. */
module Sorting {
  function Insert<T>(x: T, xs: seq<T>, atMost: (T, T) -> bool): seq<T>
  {
    if xs == [] || atMost(x, xs[0]) then [x] + xs else [xs[0]] + Insert(x, xs[1..], atMost)
  }

  function Sort<T>(xs: seq<T>, atMost: (T, T) -> bool): seq<T>
  {
    if xs == [] then [] else Insert(xs[0], Sort(xs[1..], atMost), atMost)
  }

  ghost predicate Sorted<T>(xs: seq<T>, atMost: (T, T) -> bool)
  {
    forall i, j :: 0 <= i < j < |xs| ==> atMost(xs[i], xs[j])
  }

  ghost predicate Preorder<T(!new)>(atMost: (T, T) -> bool)
  {
    && (forall x, y :: atMost(x, y) || atMost(y, x))
    && (forall x, y, z :: atMost(x, y) && atMost(y, z) ==> atMost(x, z))
  }

  lemma {:induction false} InsertSorts<T(!new)>(x: T, xs: seq<T>, atMost: (T, T) -> bool)
    requires Preorder(atMost) && Sorted(xs, atMost)
    ensures Sorted(Insert(x, xs, atMost), atMost) && multiset(Insert(x, xs, atMost)) == multiset(xs) + multiset{x}
  {
    if xs != [] {
      assert xs == [xs[0]] + xs[1..];
      if atMost(x, xs[0]) {
        Behind(x, xs, atMost);
      } else {
        InsertSorts(x, xs[1..], atMost);
        AllBehind(xs[0], Insert(x, xs[1..], atMost), xs[1..], x, atMost);
      }
    }
  }

  lemma Behind<T(!new)>(x: T, xs: seq<T>, atMost: (T, T) -> bool)
    requires Preorder(atMost) && Sorted(xs, atMost) && xs != [] && atMost(x, xs[0])
    ensures Sorted([x] + xs, atMost)
  {
    forall i | 0 <= i < |xs| ensures atMost(x, xs[i]) {
      if i > 0 { assert atMost(xs[0], xs[i]); }
    }
  }

  lemma AllBehind<T(!new)>(first: T, tail: seq<T>, rest: seq<T>, x: T, atMost: (T, T) -> bool)
    requires Sorted(tail, atMost) && multiset(tail) == multiset(rest) + multiset{x} && atMost(first, x)
    requires forall i :: 0 <= i < |rest| ==> atMost(first, rest[i])
    ensures Sorted([first] + tail, atMost)
  {
    forall i | 0 <= i < |tail| ensures atMost(first, tail[i]) {
      assert tail[i] in multiset(tail);
      if tail[i] != x { assert tail[i] in rest; }
    }
  }

  /** The result is in order and holds exactly the given elements. */
  lemma {:induction false} SortSorts<T(!new)>(xs: seq<T>, atMost: (T, T) -> bool)
    requires Preorder(atMost)
    ensures Sorted(Sort(xs, atMost), atMost) && multiset(Sort(xs, atMost)) == multiset(xs)
  {
    if xs != [] {
      SortSorts(xs[1..], atMost);
      InsertSorts(xs[0], Sort(xs[1..], atMost), atMost);
      assert xs == [xs[0]] + xs[1..];
    }
  }
}
