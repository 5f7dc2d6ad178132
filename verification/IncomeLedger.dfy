/** Incomes following the chain: pending, available once mature and unspent, orphaned when their block is
    no longer on it. A pass over part of the ledger against a pass over all of it. */
module IncomeLedger {
  import opened Outcomes
  import opened Funding

  const MATURITY: int := 120

  datatype State = Pending | Available | Orphaned

  datatype Category = Mining | CominePayout | StakingDistribution | Unlisted

  datatype Income = Income(
    height: int, block: string, category: Category, amount: int, outputs: seq<Coin>, state: State, availableOnce: bool)

  /** The chain as one reconciliation sees it: its height and the hash at every height up to it. */
  datatype View = View(height: int, hashAt: int -> string)

  datatype Tip = Tip(height: int, hash: string)

  predicate Canonical(i: Income, v: View)
  {
    v.height >= i.height && v.hashAt(i.height) == i.block
  }

  predicate Unspent(i: Income, coins: map<Outpoint, int>)
  {
    forall k :: 0 <= k < |i.outputs| ==> i.outputs[k].point in coins && coins[i.outputs[k].point] == i.outputs[k].value
  }

  predicate Mature(i: Income, v: View)
  {
    v.height - i.height + 1 >= MATURITY
  }

  /** What a pass does with one income, once it is decided whether its block is on the chain. */
  function Process(i: Income, canonical: bool, v: View, coins: map<Outpoint, int>): Income
  {
    if !canonical then i.(state := Orphaned) else
    var j := if i.state == Orphaned then i.(state := Pending) else i;
    if j.state == Pending && Mature(j, v) && (j.availableOnce || Unspent(j, coins))
    then j.(state := Available, availableOnce := true) else j
  }

  // ---- The two passes ----

  function FullStep(i: Income, v: View, coins: map<Outpoint, int>): Income
  {
    Process(i, Canonical(i, v), v, coins)
  }

  /** Mature pending incomes; at or below the cached tip they are taken to be on the chain. */
  function PendingStep(i: Income, last: int, v: View, coins: map<Outpoint, int>): Income
  {
    if i.state == Pending && i.height <= v.height - (MATURITY - 1) then Process(i, i.height <= last || Canonical(i, v), v, coins) else i
  }

  function OrphanStep(i: Income, v: View, coins: map<Outpoint, int>): Income
  {
    if i.state == Orphaned then Process(i, Canonical(i, v), v, coins) else i
  }

  function PartialStep(i: Income, last: int, v: View, coins: map<Outpoint, int>): Income
  {
    OrphanStep(PendingStep(i, last, v, coins), v, coins)
  }

  /** What a caller can check of an income to know the partial pass treats it as the full one would: its
      block is on the chain, or it is orphaned, or it is mature, pending and above the cached tip. */
  predicate Covered(i: Income, last: int, v: View)
  {
    Canonical(i, v) || i.state == Orphaned || (i.state == Pending && last < i.height <= v.height - (MATURITY - 1))
  }

  lemma StepsAgreeIff(i: Income, last: int, v: View, coins: map<Outpoint, int>)
    ensures PartialStep(i, last, v, coins) == FullStep(i, v, coins) <==> Covered(i, last, v)
  {
  }

  function FullPass(incomes: map<string, Income>, v: View, coins: map<Outpoint, int>): map<string, Income>
  {
    map id | id in incomes :: FullStep(incomes[id], v, coins)
  }

  function PartialPass(incomes: map<string, Income>, last: int, v: View, coins: map<Outpoint, int>): map<string, Income>
  {
    map id | id in incomes :: PartialStep(incomes[id], last, v, coins)
  }

  /** The partial pass does exactly what the full one would if and only if every income is covered. */
  lemma PassesAgreeIff(incomes: map<string, Income>, last: int, v: View, coins: map<Outpoint, int>)
    ensures PartialPass(incomes, last, v, coins) == FullPass(incomes, v, coins) <==>
            forall id :: id in incomes ==> Covered(incomes[id], last, v)
  {
    var p, f := PartialPass(incomes, last, v, coins), FullPass(incomes, v, coins);
    forall id | id in incomes ensures p[id] == f[id] <==> Covered(incomes[id], last, v) {
      StepsAgreeIff(incomes[id], last, v, coins);
    }
    if p == f {
      forall id | id in incomes ensures Covered(incomes[id], last, v) { assert p[id] == f[id]; }
    }
  }

  // ---- Why incomes at or below the cached tip are covered ----

  /** Blocks name their parents. */
  ghost predicate Linked(parent: string -> string, v: View)
  {
    forall h :: 0 < h <= v.height ==> parent(v.hashAt(h)) == v.hashAt(h - 1)
  }

  /** Two chains that share a block share everything below it. */
  lemma {:induction false} SharedPrefix(parent: string -> string, v: View, w: View, h: int, k: int)
    requires Linked(parent, v) && Linked(parent, w) && 0 <= k <= h <= v.height
    requires h <= w.height && v.hashAt(h) == w.hashAt(h)
    ensures v.hashAt(k) == w.hashAt(k)
    decreases h - k
  {
    if k < h {
      SharedPrefix(parent, v, w, h, k + 1);
      assert parent(v.hashAt(k + 1)) == v.hashAt(k) && parent(w.hashAt(k + 1)) == w.hashAt(k);
    }
  }

  predicate Continues(last: Tip, v: View)
  {
    v.height >= last.height && v.hashAt(last.height) == last.hash
  }

  /** Up to its height, a view finds every income on its chain unless it is marked orphaned. */
  ghost predicate Agrees(incomes: map<string, Income>, v: View, upTo: int)
  {
    forall id :: id in incomes && 0 <= incomes[id].height <= upTo && incomes[id].state != Orphaned ==> Canonical(incomes[id], v)
  }

  /** On a view that extends the cached tip, every income at or below that tip which agreed with it when it
      was cached is covered: the partial pass makes the transitions the full pass would. */
  lemma BelowTipCovered(incomes: map<string, Income>, parent: string -> string, cached: View, v: View, id: string)
    requires Linked(parent, cached) && Linked(parent, v) && cached.height >= 0
    requires Continues(Tip(cached.height, cached.hashAt(cached.height)), v) && Agrees(incomes, cached, cached.height)
    requires id in incomes && 0 <= incomes[id].height <= cached.height
    ensures Covered(incomes[id], cached.height, v)
  {
    if incomes[id].state != Orphaned {
      SharedPrefix(parent, v, cached, cached.height, incomes[id].height);
    }
  }

  /** With every income at or below the cached tip, the two passes are one. */
  lemma IncrementalReconciliation(incomes: map<string, Income>, parent: string -> string, cached: View, v: View,
                                  coins: map<Outpoint, int>)
    requires Linked(parent, cached) && Linked(parent, v) && cached.height >= 0
    requires Continues(Tip(cached.height, cached.hashAt(cached.height)), v) && Agrees(incomes, cached, cached.height)
    requires forall id :: id in incomes ==> 0 <= incomes[id].height <= cached.height
    ensures PartialPass(incomes, cached.height, v, coins) == FullPass(incomes, v, coins)
  {
    forall id | id in incomes ensures Covered(incomes[id], cached.height, v) { BelowTipCovered(incomes, parent, cached, v, id); }
    PassesAgreeIff(incomes, cached.height, v, coins);
  }

  // ---- The agreement the next partial pass relies on ----

  /** A full pass leaves every income agreeing with the view, and no income on the chain orphaned. */
  lemma FullPassAgrees(incomes: map<string, Income>, v: View, coins: map<Outpoint, int>)
    ensures Agrees(FullPass(incomes, v, coins), v, v.height)
    ensures forall id :: id in incomes ==> (FullPass(incomes, v, coins)[id].state == Orphaned <==> !Canonical(incomes[id], v))
  {
  }

  /** A partial pass leaves the whole ledger agreeing with its view if and only if every income above the
      cached tip is covered. */
  lemma PartialPassAgreesIff(incomes: map<string, Income>, parent: string -> string, cached: View, v: View,
                             coins: map<Outpoint, int>)
    requires Linked(parent, cached) && Linked(parent, v) && cached.height >= 0
    requires Continues(Tip(cached.height, cached.hashAt(cached.height)), v) && Agrees(incomes, cached, cached.height)
    ensures Agrees(PartialPass(incomes, cached.height, v, coins), v, v.height) <==>
            forall id :: id in incomes && cached.height < incomes[id].height <= v.height ==> Covered(incomes[id], cached.height, v)
  {
    var after := PartialPass(incomes, cached.height, v, coins);
    forall id | id in incomes && 0 <= incomes[id].height <= v.height
      ensures (after[id].state != Orphaned ==> Canonical(after[id], v)) <==> Covered(incomes[id], cached.height, v)
    {
      AgreementIff(incomes[id], cached.height, v, coins);
    }
    forall id | id in incomes && 0 <= incomes[id].height <= cached.height ensures Covered(incomes[id], cached.height, v) {
      BelowTipCovered(incomes, parent, cached, v, id);
    }
    if Agrees(after, v, v.height) {
      forall id | id in incomes && cached.height < incomes[id].height <= v.height ensures Covered(incomes[id], cached.height, v) {
        assert id in after && after[id].height == incomes[id].height;
      }
    }
  }

  lemma AgreementIff(i: Income, last: int, v: View, coins: map<Outpoint, int>)
    ensures PartialStep(i, last, v, coins).height == i.height
    ensures (PartialStep(i, last, v, coins).state != Orphaned ==> Canonical(PartialStep(i, last, v, coins), v)) <==> Covered(i, last, v)
  {
  }

  /** Above the cached tip the passes can differ: a recent pending income whose block has been replaced is
      left pending by the partial pass and orphaned by the full one. */
  lemma AboveTipDiffers()
    ensures exists incomes: map<string, Income>, last: int, v: View, coins: map<Outpoint, int> ::
              PartialPass(incomes, last, v, coins) != FullPass(incomes, v, coins) && Continues(Tip(last, v.hashAt(last)), v)
  {
    var v := View(5, (h: int) => if h == 5 then "new" else "shared");
    var incomes := map["x" := Income(5, "old", Mining, 1, [], Pending, false)];
    var coins: map<Outpoint, int> := map[];
    PassesAgreeIff(incomes, 4, v, coins);
    assert !Covered(incomes["x"], 4, v);
    assert Continues(Tip(4, v.hashAt(4)), v);
  }
}
