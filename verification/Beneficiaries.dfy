/** Who an income is shared among: fixed as soon as every share up to its cutoff is settled, whatever
    happens afterwards. */
module Beneficiaries {
  import opened Outcomes
  import opened Orders
  import opened Sums
  import opened Tallies
  import opened Shares
  import opened Accounting
  import opened ReceiptProtocol

  /** Some share up to the cutoff is still pending or deferred. */
  ghost predicate Unresolved(receipts: map<string, Record>, cutoff: nat)
  {
    exists id :: id in receipts && receipts[id].share.number <= cutoff && Waiting(receipts[id].share.status)
  }

  /** The verified shares up to a cutoff. */
  ghost function Chosen(receipts: map<string, Record>, cutoff: nat): map<string, Record>
  {
    map id | id in receipts && receipts[id].share.number <= cutoff && receipts[id].share.status == Verified :: receipts[id]
  }

  /** Once nothing up to a cutoff is unresolved, the verified shares up to it never change again. */
  lemma Frozen(c: Config, run: Order<Action>, earlier: Order<Action>, cutoff: nat)
    requires Extends(run, earlier) && cutoff <= After(c, earlier).number
    requires !Unresolved(After(c, earlier).receipts, cutoff)
    ensures Chosen(After(c, run).receipts, cutoff) == Chosen(After(c, earlier).receipts, cutoff)
    ensures !Unresolved(After(c, run).receipts, cutoff)
  {
    RunLater(c, run, earlier);
    FrozenMap(After(c, earlier).receipts, After(c, run).receipts, After(c, earlier).number, cutoff);
  }

  lemma FrozenMap(before: map<string, Record>, after: map<string, Record>, number: nat, cutoff: nat)
    requires SharesKept(before, after, number) && cutoff <= number && !Unresolved(before, cutoff)
    ensures Chosen(after, cutoff) == Chosen(before, cutoff) && !Unresolved(after, cutoff)
  {
    forall id | id in after && after[id].share.number <= cutoff ensures id in before && after[id] == before[id] {
      assert id in before && SameShare(before[id], after[id]);
    }
    forall id | id in before && before[id].share.number <= cutoff ensures id in after && after[id] == before[id] {
      assert SameShare(before[id], after[id]);
    }
  }

  // ---- From records to weights ----

  /** Records listed by key. */
  ghost function ByKey(m: map<string, Record>): seq<Receipt>
  {
    SortedAscends(m.Keys);
    var keys := Sorted(m.Keys);
    assert forall i :: 0 <= i < |keys| ==> keys[i] in keys;
    seq(|keys|, i requires 0 <= i < |keys| => m[keys[i]].share)
  }

  lemma Listed(m: map<string, Record>, id: string)
    requires id in m
    ensures m[id].share in ByKey(m)
  {
    SortedAscends(m.Keys);
    var keys := Sorted(m.Keys);
    var i :| 0 <= i < |keys| && keys[i] == id;
    assert ByKey(m)[i] == m[id].share;
  }

  /** Records listed from the latest arrival back. */
  ghost function ByArrival(m: map<string, Record>): seq<Receipt>
  {
    SortDescending(ByKey(m))
  }

  ghost function SolutionEntries(s: State, cutoff: nat): seq<Entry>
  {
    Entries(ByArrival(Chosen(s.receipts, cutoff)), cutoff, true)
  }

  ghost function SealEntries(s: State, first: int, last: int, cutoff: nat): seq<Entry>
  {
    HeightEntries(ByKey(Chosen(s.receipts, cutoff)), first, last, cutoff, true)
  }

  /** A solution's weights are the same whenever they are computed once its shares are settled. */
  lemma SolutionWeightsFrozen(c: Config, run: Order<Action>, earlier: Order<Action>, cutoff: nat, window: real,
                              at: map<Key, real>, now: map<Key, real>)
    requires Extends(run, earlier) && cutoff <= After(c, earlier).number
    requires !Unresolved(After(c, earlier).receipts, cutoff)
    requires var es := SolutionEntries(After(c, earlier), cutoff); WeightsOf(at, es, |es|, window)
    requires var es := SolutionEntries(After(c, run), cutoff); WeightsOf(now, es, |es|, window)
    ensures now == at
  {
    Frozen(c, run, earlier, cutoff);
    var es := SolutionEntries(After(c, run), cutoff);
    WeightsUnique(now, at, es, |es|, window);
  }

  /** A sealed contribution window's weights are the same whenever they are computed once its shares are settled. */
  lemma SealWeightsFrozen(c: Config, run: Order<Action>, earlier: Order<Action>, first: int, last: int, cutoff: nat,
                          at: map<Key, real>, now: map<Key, real>)
    requires Extends(run, earlier) && cutoff <= After(c, earlier).number
    requires !Unresolved(After(c, earlier).receipts, cutoff)
    requires var es := SealEntries(After(c, earlier), first, last, cutoff); WeightsOf(at, es, |es|, Wide(es))
    requires var es := SealEntries(After(c, run), first, last, cutoff); WeightsOf(now, es, |es|, Wide(es))
    ensures now == at
  {
    Frozen(c, run, earlier, cutoff);
    var es := SealEntries(After(c, run), first, last, cutoff);
    WeightsUnique(now, at, es, |es|, Wide(es));
  }

  // ---- A solved block always has a beneficiary ----

  lemma {:induction false} NoneMalformed(es: seq<Entry>, n: nat, window: real)
    requires n <= |es| && forall i :: 0 <= i < |es| ==> !es[i].Malformed?
    ensures !Blocked(es, n, window)
  {
    if n > 0 { NoneMalformed(es, n - 1, window); }
  }

  lemma {:induction false} SomeWork(es: seq<Entry>, n: nat, i: nat)
    requires i < n <= |es| && Positive(es) && es[i].Work?
    ensures WorkTo(es, n) > 0.0
  {
    WorkGrows(es, 0, i);
    WorkGrows(es, i + 1, n);
  }

  /** A window with some work and nothing malformed is neither refused nor empty. */
  lemma WindowHasWeight(es: seq<Entry>, i: nat, window: real)
    requires i < |es| && Positive(es) && window > 0.0 && forall k :: 0 <= k < |es| ==> es[k].Work?
    ensures !Blocked(es, |es|, window) && forall weights :: WeightsOf(weights, es, |es|, window) ==> weights != map[]
  {
    NoneMalformed(es, |es|, window);
    SomeWork(es, |es|, i);
    forall weights | WeightsOf(weights, es, |es|, window) ensures weights != map[] {
      assert MapSum(weights) > 0.0;
    }
  }

  lemma InStream(m: map<string, Record>, id: string) returns (i: nat)
    requires id in m
    ensures i < |ByArrival(m)| && ByArrival(m)[i] == m[id].share
  {
    SortOrders(ByKey(m));
    Listed(m, id);
    assert m[id].share in multiset(ByArrival(m));
    i :| 0 <= i < |ByArrival(m)| && ByArrival(m)[i] == m[id].share;
  }

  /** The solving share is itself verified at the cutoff, so the window is never refused and never empty. */
  lemma SolutionHasBeneficiary(c: Config, run: Order<Action>, block: string, window: real)
    requires block in After(c, run).solutions && window > 0.0
    ensures var s := After(c, run);
            var es := SolutionEntries(s, s.solutions[block].cutoff);
            && s.solutions[block].cutoff <= s.number && !Blocked(es, |es|, window)
            && forall weights :: WeightsOf(weights, es, |es|, window) ==> weights != map[]
  {
    RunSafe(c, run);
    var s := After(c, run);
    var cutoff, id := s.solutions[block].cutoff, s.solutions[block].identity;
    assert Owned(c.name, s.leases, s.number, id, s.receipts[id]);
    var i := InStream(Chosen(s.receipts, cutoff), id);
    EntriesWork(s, c, cutoff);
    WindowHasWeight(SolutionEntries(s, cutoff), i, window);
  }

  lemma EntriesWork(s: State, c: Config, cutoff: nat)
    requires Inv(s, c)
    ensures forall k :: 0 <= k < |SolutionEntries(s, cutoff)| ==> SolutionEntries(s, cutoff)[k].Work?
  {
    var es, m := SolutionEntries(s, cutoff), Chosen(s.receipts, cutoff);
    forall k | 0 <= k < |es| ensures es[k].Work? { StreamGood(s, c, cutoff, ByArrival(m)[k]); }
  }

  lemma StreamGood(s: State, c: Config, cutoff: nat, r: Receipt)
    requires Inv(s, c) && r in ByArrival(Chosen(s.receipts, cutoff))
    ensures Classify(r, r.number <= cutoff, true).Work?
  {
    var m := Chosen(s.receipts, cutoff);
    SortOrders(ByKey(m));
    assert r in multiset(ByArrival(m));
    assert r in ByKey(m);
    SortedAscends(m.Keys);
    var i :| 0 <= i < |ByKey(m)| && ByKey(m)[i] == r;
    var id := Sorted(m.Keys)[i];
    assert id in Sorted(m.Keys);
    assert Owned(c.name, s.leases, s.number, id, s.receipts[id]);
  }
}
