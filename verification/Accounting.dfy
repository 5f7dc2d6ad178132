/** Exact pool allocation: expected work, the PPLNS window, contribution windows, and the split of
    an amount among weighted beneficiaries. Credits are exact rationals, modelled as reals. */
module Accounting {
  import opened Outcomes
  import opened Shares
  import opened Orders
  import opened Sums
  import Sorting

  const SPACE: nat := 0x1_0000000000000000000000000000000000000000000000000000000000000000
  const MILLION: nat := 1_000_000
  /** The PPLNS window spans the expected work of this many network blocks. */
  const LOOKBACK: nat := 2

  /** Weights are kept per account and fee rate; without a fee policy every rate reads as zero. */
  datatype Key = Key(account: string, ppm: nat)

  /** What a receipt means to an accounting pass: not selected, selected but malformed, or work for a key. */
  datatype Entry = Skipped | Malformed | Work(key: Key, work: real)

  predicate TargetInRange(target: nat)
  {
    0 < target < SPACE
  }

  /** Expected hashes for a target: the canonical proof rule is hash < target. */
  function ExpectedWork(target: nat): (w: real)
    requires TargetInRange(target)
    ensures w > 1.0 && w * target as real == SPACE as real
  {
    Quotient(SPACE as real, target as real);
    SPACE as real / target as real
  }

  lemma Quotient(a: real, b: real)
    requires a > b > 0.0
    ensures a / b > 1.0 && (a / b) * b == a
  {
  }

  function Classify(r: Receipt, selected: bool, feePolicy: bool): Entry
  {
    if !selected || r.status != Verified then Skipped
    else if !TargetInRange(r.target) || (feePolicy && r.feePpm > MILLION) then Malformed
    else Work(Key(r.account, if feePolicy then r.feePpm else 0), ExpectedWork(r.target))
  }

  function Min(a: real, b: real): real
  {
    if a <= b then a else b
  }

  // ---- Weights of a stream of entries, capped at a window ----

  predicate Positive(es: seq<Entry>)
  {
    forall i :: 0 <= i < |es| && es[i].Work? ==> es[i].work > 0.0
  }

  /** Total work of the first n entries. */
  function WorkTo(es: seq<Entry>, n: nat): real
    requires n <= |es|
  {
    if n == 0 then 0.0 else WorkTo(es, n - 1) + if es[n - 1].Work? then es[n - 1].work else 0.0
  }

  /** The part of the n-th entry's work that lies before the window's end when all work is laid end to end. */
  function Share(es: seq<Entry>, n: nat, window: real): real
    requires n < |es|
  {
    Min(window, WorkTo(es, n + 1)) - Min(window, WorkTo(es, n))
  }

  /** What a key receives from the first n entries. */
  function CreditTo(es: seq<Entry>, n: nat, window: real, key: Key): real
    requires n <= |es|
  {
    if n == 0 then 0.0
    else CreditTo(es, n - 1, window, key) +
         if es[n - 1].Work? && es[n - 1].key == key then Share(es, n - 1, window) else 0.0
  }

  /** A malformed entry is reached before the window is full. */
  predicate Blocked(es: seq<Entry>, n: nat, window: real)
    requires n <= |es|
  {
    n > 0 && (Blocked(es, n - 1, window) || (es[n - 1].Malformed? && WorkTo(es, n - 1) < window))
  }

  function At(weights: map<Key, real>, key: Key): real
  {
    if key in weights then weights[key] else 0.0
  }

  /** The weights give every key its credit, name only keys with a credit, and add up to the smaller
      of the window and all work. */
  ghost predicate WeightsOf(weights: map<Key, real>, es: seq<Entry>, n: nat, window: real)
    requires n <= |es|
  {
    && (forall key :: At(weights, key) == CreditTo(es, n, window, key))
    && (forall key :: key in weights ==> weights[key] > 0.0)
    && MapSum(weights) == Min(window, WorkTo(es, n))
  }

  /** The credits determine the weights. */
  lemma WeightsUnique(a: map<Key, real>, b: map<Key, real>, es: seq<Entry>, n: nat, window: real)
    requires n <= |es| && WeightsOf(a, es, n, window) && WeightsOf(b, es, n, window)
    ensures a == b
  {
    forall key ensures (key in a <==> key in b) && (key in a ==> a[key] == b[key]) {
      assert At(a, key) == At(b, key);
    }
  }

  lemma WeightsEmpty(es: seq<Entry>, window: real)
    requires window > 0.0
    ensures WeightsOf(map[], es, 0, window)
  {
  }

  lemma WeightsAdd(weights: map<Key, real>, es: seq<Entry>, n: nat, window: real)
    requires n < |es| && es[n].Work? && es[n].work > 0.0 && WorkTo(es, n) < window && WeightsOf(weights, es, n, window)
    ensures var e := es[n];
            WeightsOf(weights[e.key := At(weights, e.key) + Min(e.work, window - WorkTo(es, n))], es, n + 1, window)
  {
    var e, share := es[n], Min(es[n].work, window - WorkTo(es, n));
    var more := weights[e.key := At(weights, e.key) + share];
    MapSumUpdate(weights, e.key, At(weights, e.key) + share);
    assert share == Share(es, n, window);
    forall key ensures At(more, key) == CreditTo(es, n + 1, window, key) {
      assert At(weights, key) == CreditTo(es, n, window, key);
    }
    forall key | key in more ensures more[key] > 0.0 {
      assert key == e.key || key in weights;
    }
  }

  lemma WeightsPass(weights: map<Key, real>, es: seq<Entry>, n: nat, window: real)
    requires n < |es| && !es[n].Work? && WeightsOf(weights, es, n, window)
    ensures WeightsOf(weights, es, n + 1, window)
  {
  }

  /** Once the window is full nothing more is added or refused. */
  lemma {:induction false} WindowFull(weights: map<Key, real>, es: seq<Entry>, n: nat, m: nat, window: real)
    requires n <= m <= |es| && Positive(es) && WorkTo(es, n) >= window && WeightsOf(weights, es, n, window)
    ensures WorkTo(es, m) >= window && WeightsOf(weights, es, m, window)
    ensures Blocked(es, m, window) == Blocked(es, n, window)
    decreases m
  {
    if n < m { WindowFull(weights, es, n, m - 1, window); }
  }

  lemma {:induction false} BlockedStays(es: seq<Entry>, n: nat, m: nat, window: real)
    requires n <= m <= |es| && Blocked(es, n, window)
    ensures Blocked(es, m, window)
    decreases m
  {
    if n < m { BlockedStays(es, n, m - 1, window); }
  }

  // ---- The PPLNS window ----

  ghost function Entries(rs: seq<Receipt>, cutoff: nat, feePolicy: bool): (es: seq<Entry>)
    ensures |es| == |rs| && Positive(es)
    ensures forall i :: 0 <= i < |es| ==> es[i] == Classify(rs[i], rs[i].number <= cutoff, feePolicy)
  {
    seq(|rs|, i requires 0 <= i < |rs| => Classify(rs[i], rs[i].number <= cutoff, feePolicy))
  }

  /** The window over receipts already in descending arrival order, stopping when it is full. */
  method FillWindow(rs: seq<Receipt>, cutoff: nat, window: real, feePolicy: bool) returns (r: Result<map<Key, real>>)
    requires window > 0.0
    ensures r.Ok? <==> !Blocked(Entries(rs, cutoff, feePolicy), |rs|, window)
    ensures r.Ok? ==> WeightsOf(r.value, Entries(rs, cutoff, feePolicy), |rs|, window)
  {
    ghost var es := Entries(rs, cutoff, feePolicy);
    var remaining := window;
    var weights: map<Key, real> := map[];
    WeightsEmpty(es, window);
    var i := 0;
    while i < |rs|
      invariant 0 <= i <= |rs|
      invariant WeightsOf(weights, es, i, window)
      invariant WorkTo(es, i) < window && remaining == window - WorkTo(es, i)
      invariant !Blocked(es, i, window)
    {
      var e := Classify(rs[i], rs[i].number <= cutoff, feePolicy);
      if e.Malformed? {
        BlockedStays(es, i + 1, |rs|, window);
        return Refused;
      }
      if e.Work? {
        var work := Min(e.work, remaining);
        WeightsAdd(weights, es, i, window);
        weights := weights[e.key := At(weights, e.key) + work];
        remaining := remaining - work;
        if remaining == 0.0 {
          WindowFull(weights, es, i + 1, |rs|, window);
          return Ok(weights);
        }
      } else {
        WeightsPass(weights, es, i, window);
      }
      i := i + 1;
    }
    r := Ok(weights);
  }

  /** Receipts ordered from the latest arrival to the earliest. */
  ghost predicate Descending(rs: seq<Receipt>)
  {
    forall i, j :: 0 <= i < j < |rs| ==> rs[i].number >= rs[j].number
  }

  ghost predicate StrictlyDescending(rs: seq<Receipt>)
  {
    forall i, j :: 0 <= i < j < |rs| ==> rs[i].number > rs[j].number
  }

  predicate NotEarlier(a: Receipt, b: Receipt)
  {
    a.number >= b.number
  }

  function SortDescending(rs: seq<Receipt>): seq<Receipt>
  {
    Sorting.Sort(rs, NotEarlier)
  }

  lemma SortOrders(rs: seq<Receipt>)
    ensures Descending(SortDescending(rs)) && multiset(SortDescending(rs)) == multiset(rs)
  {
    Sorting.SortSorts(rs, NotEarlier);
    var sorted := SortDescending(rs);
    forall i, j | 0 <= i < j < |sorted| ensures sorted[i].number >= sorted[j].number {
      assert NotEarlier(sorted[i], sorted[j]);
    }
  }

  /** Only one descending arrangement of receipts with distinct arrival numbers exists. */
  lemma {:induction false} OrderUnique(a: seq<Receipt>, b: seq<Receipt>)
    requires StrictlyDescending(a) && Descending(b) && multiset(a) == multiset(b)
    ensures a == b
    decreases |a|
  {
    assert |multiset(a)| == |a| && |multiset(b)| == |b|;
    if a != [] {
      OrderHeads(a, b);
      assert a == [a[0]] + a[1..] && b == [b[0]] + b[1..];
      OrderUnique(a[1..], b[1..]);
    }
  }

  lemma OrderHeads(a: seq<Receipt>, b: seq<Receipt>)
    requires StrictlyDescending(a) && Descending(b) && multiset(a) == multiset(b) && |a| == |b| > 0
    ensures a[0] == b[0] && multiset(a[1..]) == multiset(b[1..])
  {
    Latest(a, b[0]);
    Latest(b, a[0]);
    Elsewhere(a, b[0]);
    Tail(a);
    Tail(b);
  }

  lemma Elsewhere(a: seq<Receipt>, r: Receipt)
    requires StrictlyDescending(a) && r in multiset(a)
    ensures a != [] && (r == a[0] || r.number < a[0].number)
  {
    var i :| 0 <= i < |a| && a[i] == r;
  }

  lemma Tail(a: seq<Receipt>)
    requires a != []
    ensures multiset(a[1..]) == multiset(a) - multiset{a[0]}
  {
    assert a == [a[0]] + a[1..];
  }

  lemma Latest(rs: seq<Receipt>, r: Receipt)
    requires Descending(rs) && r in multiset(rs)
    ensures rs != [] && rs[0].number >= r.number
  {
    var i :| 0 <= i < |rs| && rs[i] == r;
  }

  /** A stream that already arrives in order needs no sort: both settings of `ordered` see the same receipts. */
  lemma StreamNeedsNoSort(rs: seq<Receipt>, stream: seq<Receipt>)
    requires StrictlyDescending(stream) && multiset(stream) == multiset(rs)
    ensures SortDescending(rs) == stream
  {
    SortOrders(rs);
    OrderUnique(stream, SortDescending(rs));
  }

  function Stream(rs: seq<Receipt>, ordered: bool): seq<Receipt>
  {
    if ordered then rs else SortDescending(rs)
  }

  /** PPLNS weights for a block: the last LOOKBACK blocks' worth of verified work, latest arrivals first. */
  method Pplns(rs: seq<Receipt>, cutoff: nat, networkTarget: nat, ordered: bool, feePolicy: bool)
    returns (r: Result<map<Key, real>>)
    ensures !TargetInRange(networkTarget) ==> r == Refused
    ensures TargetInRange(networkTarget) ==>
              var es, window := Entries(Stream(rs, ordered), cutoff, feePolicy), LOOKBACK as real * ExpectedWork(networkTarget);
              (r.Ok? <==> !Blocked(es, |es|, window)) && (r.Ok? ==> WeightsOf(r.value, es, |es|, window))
  {
    if !TargetInRange(networkTarget) { return Refused; }
    r := FillWindow(Stream(rs, ordered), cutoff, LOOKBACK as real * ExpectedWork(networkTarget), feePolicy);
  }

  // ---- Contribution windows ----

  ghost function HeightEntries(rs: seq<Receipt>, first: int, last: int, cutoff: nat, feePolicy: bool): (es: seq<Entry>)
    ensures |es| == |rs| && Positive(es)
    ensures forall i :: 0 <= i < |es| ==> es[i] == Classify(rs[i], InHeights(rs[i], first, last, cutoff), feePolicy)
  {
    seq(|rs|, i requires 0 <= i < |rs| => Classify(rs[i], InHeights(rs[i], first, last, cutoff), feePolicy))
  }

  predicate InHeights(r: Receipt, first: int, last: int, cutoff: nat)
  {
    r.number <= cutoff && first <= r.height <= last
  }

  lemma {:induction false} WorkGrows(es: seq<Entry>, n: nat, m: nat)
    requires n <= m <= |es| && Positive(es)
    ensures 0.0 <= WorkTo(es, n) <= WorkTo(es, m)
    decreases m
  {
    if n < m { WorkGrows(es, n, m - 1); } else if n > 0 { WorkGrows(es, n - 1, n - 1); }
  }

  /** A window wider than all the work there is, so that nothing is cut off. */
  ghost function Wide(es: seq<Entry>): real
  {
    WorkTo(es, |es|) + 1.0
  }

  lemma WideRoom(es: seq<Entry>, n: nat)
    requires n < |es| && Positive(es)
    ensures WorkTo(es, n) < Wide(es)
    ensures es[n].Work? ==> es[n].work > 0.0 && Min(es[n].work, Wide(es) - WorkTo(es, n)) == es[n].work
  {
    WorkGrows(es, n, n + 1);
    WorkGrows(es, n + 1, |es|);
  }

  lemma WeightsAddWide(weights: map<Key, real>, es: seq<Entry>, n: nat)
    requires n < |es| && Positive(es) && es[n].Work? && WeightsOf(weights, es, n, Wide(es))
    ensures WeightsOf(weights[es[n].key := At(weights, es[n].key) + es[n].work], es, n + 1, Wide(es))
  {
    WideRoom(es, n);
    WeightsAdd(weights, es, n, Wide(es));
  }

  /** All verified work in a range of heights, by beneficiary. */
  method WindowWeights(rs: seq<Receipt>, first: int, last: int, cutoff: nat, feePolicy: bool)
    returns (r: Result<map<Key, real>>)
    ensures var es := HeightEntries(rs, first, last, cutoff, feePolicy);
            (r.Ok? <==> !Blocked(es, |es|, Wide(es))) && (r.Ok? ==> WeightsOf(r.value, es, |es|, Wide(es)))
  {
    ghost var es := HeightEntries(rs, first, last, cutoff, feePolicy);
    ghost var window := Wide(es);
    var weights: map<Key, real> := map[];
    WorkGrows(es, 0, |rs|);
    WeightsEmpty(es, window);
    var i := 0;
    while i < |rs|
      invariant 0 <= i <= |rs|
      invariant WeightsOf(weights, es, i, window) && !Blocked(es, i, window)
    {
      var e := Classify(rs[i], InHeights(rs[i], first, last, cutoff), feePolicy);
      WideRoom(es, i);
      if e.Malformed? {
        BlockedStays(es, i + 1, |rs|, window);
        return Refused;
      }
      if e.Work? {
        WeightsAddWide(weights, es, i);
        weights := weights[e.key := At(weights, e.key) + e.work];
      } else {
        WeightsPass(weights, es, i, window);
      }
      i := i + 1;
    }
    r := Ok(weights);
  }
}
