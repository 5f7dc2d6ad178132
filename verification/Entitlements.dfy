/** What each account may be paid: the whole units of its exact credits, less everything deducted so far. */
module Entitlements {
  import opened Outcomes
  import opened Orders
  import opened Sums
  import opened Tallies
  import opened FloorTotals
  import opened Funding
  import opened PaymentBooks

  /** A receipt of the pool: whether it may be spent, what it credits, and the coins that carry it. */
  datatype Income = Income(available: bool, credits: map<string, Fraction>, outputs: seq<Outpoint>)

  ghost predicate ProperIncomes(incomes: map<string, Income>)
  {
    forall id, a :: id in incomes && a in incomes[id].credits ==> Proper(incomes[id].credits[a])
  }

  ghost function CreditIn(income: Income, a: string): real
    requires a in income.credits ==> Proper(income.credits[a])
  {
    if income.available && a in income.credits then Value(income.credits[a]) else 0.0
  }

  ghost function CreditMap(incomes: map<string, Income>, a: string): map<string, real>
    requires ProperIncomes(incomes)
  {
    map id | id in incomes :: CreditIn(incomes[id], a)
  }

  /** An account's exact credit over all available incomes. */
  ghost function Credit(incomes: map<string, Income>, a: string): real
    requires ProperIncomes(incomes)
  {
    MapSum(CreditMap(incomes, a))
  }

  // ---- Listing credits by account ----

  function ListFor(lists: map<string, seq<Fraction>>, a: string): seq<Fraction>
  {
    if a in lists then lists[a] else []
  }

  function AddCredits(lists: map<string, seq<Fraction>>, income: Income): map<string, seq<Fraction>>
  {
    if !income.available then lists else
    map a | a in lists.Keys + income.credits.Keys ::
      ListFor(lists, a) + if a in income.credits then [income.credits[a]] else []
  }

  ghost function ListsAll(incomes: map<string, Income>, order: Order<string>): map<string, seq<Fraction>>
    requires Visited(order) <= incomes.Keys
  {
    match order
    case Start => map[]
    case Then(before, id) => AddCredits(ListsAll(incomes, before), incomes[id])
  }

  lemma {:induction false} TotalToAppend(fs: seq<Fraction>, f: Fraction, n: nat)
    requires AllProper(fs) && Proper(f) && n <= |fs|
    ensures AllProper(fs + [f]) && TotalTo(fs + [f], n) == TotalTo(fs, n)
  {
    if n > 0 { TotalToAppend(fs, f, n - 1); }
  }

  lemma TotalAppend(fs: seq<Fraction>, f: Fraction)
    requires AllProper(fs) && Proper(f)
    ensures AllProper(fs + [f]) && Total(fs + [f]) == Total(fs) + Value(f)
  {
    TotalToAppend(fs, f, |fs|);
  }

  /** An account's list holds its available credits: proper, and adding up to its exact credit. */
  lemma {:induction false} ListsTotal(incomes: map<string, Income>, order: Order<string>, a: string)
    requires ProperIncomes(incomes) && Once(order) && Visited(order) <= incomes.Keys
    ensures var fs := ListFor(ListsAll(incomes, order), a);
            AllProper(fs) && Total(fs) == SumKeys(CreditMap(incomes, a), Visited(order))
  {
    if order.Then? {
      var id, before := order.key, ListsAll(incomes, order.before);
      ListsTotal(incomes, order.before, a);
      SumVisited(CreditMap(incomes, a), order);
      if incomes[id].available && a in incomes[id].credits {
        TotalAppend(ListFor(before, a), incomes[id].credits[a]);
      } else {
        assert ListFor(ListsAll(incomes, order), a) == ListFor(before, a);
      }
    }
  }

  predicate BelowZero(income: Income, a: string)
  {
    income.available && a in income.credits && income.credits[a].numerator < 0
  }

  lemma AppendSign(fs: seq<Fraction>, f: Fraction)
    ensures AllNonnegative(fs + [f]) <==> AllNonnegative(fs) && f.numerator >= 0
  {
    assert (fs + [f])[|fs|] == f;
    assert forall i :: 0 <= i < |fs| ==> (fs + [f])[i] == fs[i];
  }

  lemma {:induction false} ListsSign(incomes: map<string, Income>, order: Order<string>, a: string)
    requires Visited(order) <= incomes.Keys
    ensures AllNonnegative(ListFor(ListsAll(incomes, order), a)) <==> forall id :: id in Visited(order) ==> !BelowZero(incomes[id], a)
  {
    if order.Then? {
      var income, before := incomes[order.key], ListFor(ListsAll(incomes, order.before), a);
      ListsSign(incomes, order.before, a);
      if income.available && a in income.credits {
        AppendSign(before, income.credits[a]);
      } else {
        assert ListFor(ListsAll(incomes, order), a) == before;
      }
    }
  }

  method ListCredits(incomes: map<string, Income>)
    returns (lists: map<string, seq<Fraction>>, ghost order: Order<string>)
    ensures Once(order) && Visited(order) == incomes.Keys && lists == ListsAll(incomes, order)
  {
    lists := map[];
    var keys := Enumerate(incomes.Keys);
    var i := 0;
    while i < |keys|
      invariant 0 <= i <= |keys| && lists == ListsAll(incomes, First(keys, i))
    {
      lists := AddCredits(lists, incomes[keys[i]]);
      i := i + 1;
    }
    order := First(keys, |keys|);
  }

  /** The integer part of every account's credit. */
  method FloorCredits(lists: map<string, seq<Fraction>>) returns (r: Result<Amounts>)
    requires forall a :: a in lists ==> AllProper(lists[a])
    ensures r.Ok? <==> forall a :: a in lists ==> AllNonnegative(lists[a])
    ensures r.Ok? ==> r.value.Keys == lists.Keys && forall a :: a in lists ==> r.value[a] == Total(lists[a]).Floor
  {
    var floors: Amounts := map[];
    var left := lists.Keys;
    while left != {}
      invariant left <= lists.Keys && floors.Keys == lists.Keys - left
      invariant forall a :: a in floors ==> AllNonnegative(lists[a]) && floors[a] == Total(lists[a]).Floor
      decreases |left|
    {
      var a := Pick(left);
      var f := FloorTotal(lists[a]);
      if f.Refused? { return Refused; }
      floors := floors[a := f.value];
      left := left - {a};
    }
    r := Ok(floors);
  }

  // ---- Adding up deductions ----

  function AddAmounts(m: Amounts, d: Amounts): Amounts
  {
    map a | a in m.Keys + d.Keys :: Get(m, a) + Get(d, a)
  }

  /** Whether a payment belongs to the batch asked about; with none, every payment counts. */
  predicate Selected(i: Intent, batch: Option<string>)
  {
    batch.Some? ==> i.body.batch == batch.value
  }

  ghost function Selecting(batch: Option<string>, a: string): Intent -> int
  {
    (i: Intent) => if Selected(i, batch) then Get(i.body.deductions, a) else 0
  }

  function AddIntent(m: Amounts, i: Intent, batch: Option<string>): Amounts
  {
    if Selected(i, batch) then AddAmounts(m, i.body.deductions) else m
  }

  ghost function AmountsAll(intents: Intents, batch: Option<string>, order: Order<string>): Amounts
    requires Visited(order) <= intents.Keys
  {
    match order
    case Start => map[]
    case Then(before, id) => AddIntent(AmountsAll(intents, batch, before), intents[id], batch)
  }

  lemma {:induction false} AmountsExact(intents: Intents, batch: Option<string>, order: Order<string>, a: string)
    requires Once(order) && Visited(order) <= intents.Keys
    ensures Get(AmountsAll(intents, batch, order), a) == Tally(Measure(intents, Selecting(batch, a)), Visited(order))
  {
    if order.Then? {
      AmountsExact(intents, batch, order.before, a);
      TallyVisited(Measure(intents, Selecting(batch, a)), order);
    }
  }

  method DeductionsOf(intents: Intents, batch: Option<string>) returns (totals: Amounts)
    ensures forall a :: Get(totals, a) == Over(intents, Selecting(batch, a))
  {
    ghost var order;
    totals, order := AddDeductions(intents, batch);
    forall a ensures Get(totals, a) == Over(intents, Selecting(batch, a)) {
      AmountsExact(intents, batch, order, a);
      assert Measure(intents, Selecting(batch, a)).Keys == intents.Keys;
    }
  }

  method AddDeductions(intents: Intents, batch: Option<string>) returns (totals: Amounts, ghost order: Order<string>)
    ensures Once(order) && Visited(order) == intents.Keys && totals == AmountsAll(intents, batch, order)
  {
    totals := map[];
    var keys := Enumerate(intents.Keys);
    var i := 0;
    while i < |keys|
      invariant 0 <= i <= |keys| && totals == AmountsAll(intents, batch, First(keys, i))
    {
      totals := AddIntent(totals, intents[keys[i]], batch);
      i := i + 1;
    }
    order := First(keys, |keys|);
  }

  lemma SelectingAll(intents: Intents, a: string)
    ensures Over(intents, Selecting(None, a)) == Deducted(intents, a)
  {
    assert Measure(intents, Selecting(None, a)) == Measure(intents, ForAccount(a));
  }

  lemma SelectingBatch(intents: Intents, batch: string, a: string)
    ensures Over(intents, Selecting(Some(batch), a)) == Spent(intents, batch, a)
  {
    assert Measure(intents, Selecting(Some(batch), a)) == Measure(intents, ForBatch(batch, a));
  }

  /** No available income credits less than nothing. */
  ghost predicate CreditsNonnegative(incomes: map<string, Income>)
  {
    forall id, a :: id in incomes ==> !BelowZero(incomes[id], a)
  }

  /** Every account's whole units, from all available incomes. */
  method CreditFloors(incomes: map<string, Income>) returns (r: Result<Amounts>)
    requires ProperIncomes(incomes)
    ensures r.Ok? <==> CreditsNonnegative(incomes)
    ensures r.Ok? ==> forall a :: Get(r.value, a) == Credit(incomes, a).Floor
  {
    var lists;
    ghost var order;
    lists, order := ListCredits(incomes);
    forall a
      ensures AllProper(ListFor(lists, a)) && Total(ListFor(lists, a)) == Credit(incomes, a)
      ensures AllNonnegative(ListFor(lists, a)) <==> forall id :: id in incomes ==> !BelowZero(incomes[id], a)
    {
      assert CreditMap(incomes, a).Keys == incomes.Keys;
      ListsTotal(incomes, order, a);
      ListsSign(incomes, order, a);
    }
    forall a | a in lists ensures AllProper(lists[a]) { assert ListFor(lists, a) == lists[a]; }
    r := FloorCredits(lists);
    FloorsMeanCredits(incomes, lists, r);
  }

  lemma FloorsMeanCredits(incomes: map<string, Income>, lists: map<string, seq<Fraction>>, r: Result<Amounts>)
    requires ProperIncomes(incomes)
    requires forall a :: AllProper(ListFor(lists, a)) && Total(ListFor(lists, a)) == Credit(incomes, a)
    requires forall a :: AllNonnegative(ListFor(lists, a)) <==> forall id :: id in incomes ==> !BelowZero(incomes[id], a)
    requires forall a :: a in lists ==> AllProper(lists[a])
    requires r.Ok? <==> forall a :: a in lists ==> AllNonnegative(lists[a])
    requires r.Ok? ==> r.value.Keys == lists.Keys && forall a :: a in lists ==> r.value[a] == Total(lists[a]).Floor
    ensures r.Ok? <==> CreditsNonnegative(incomes)
    ensures r.Ok? ==> forall a :: Get(r.value, a) == Credit(incomes, a).Floor
  {
    forall a | a in lists ensures ListFor(lists, a) == lists[a] {
    }
    if r.Ok? {
      forall id, a | id in incomes ensures !BelowZero(incomes[id], a) { assert AllNonnegative(ListFor(lists, a)); }
      forall a ensures Get(r.value, a) == Credit(incomes, a).Floor { assert Total(ListFor(lists, a)) == Credit(incomes, a); }
    } else {
      var a :| a in lists && !AllNonnegative(lists[a]);
      assert !AllNonnegative(ListFor(lists, a));
    }
  }

  method AnyNegative(m: Amounts) returns (found: bool)
    ensures found <==> exists a :: a in m && m[a] < 0
  {
    var left := m.Keys;
    while left != {}
      invariant left <= m.Keys && forall a :: a in m && a !in left ==> m[a] >= 0
      decreases |left|
    {
      var a := Pick(left);
      if m[a] < 0 { return true; }
      left := left - {a};
    }
    found := false;
  }

  /** What is payable now. Refused when a credit is negative, or when deductions exceed what is still
      available: income that backed them has been reorganised away. */
  method Available(incomes: map<string, Income>, intents: Intents) returns (r: Result<Amounts>)
    requires ProperIncomes(incomes)
    ensures r.Ok? <==> CreditsNonnegative(incomes) && forall a :: Deducted(intents, a) <= Credit(incomes, a).Floor
    ensures r.Ok? ==> forall a :: Get(r.value, a) == Credit(incomes, a).Floor - Deducted(intents, a)
  {
    var floors := CreditFloors(incomes);
    if floors.Refused? { return Refused; }
    var deducted := DeductionsOf(intents, None);
    forall a ensures Get(deducted, a) == Deducted(intents, a) { SelectingAll(intents, a); }
    var result := map a | a in floors.value.Keys + deducted.Keys :: Get(floors.value, a) - Get(deducted, a);
    assert forall a :: Get(result, a) == Get(floors.value, a) - Get(deducted, a);
    var deficit := AnyNegative(result);
    if deficit {
      ghost var a :| a in result && result[a] < 0;
      assert Get(result, a) < 0;
      return Refused;
    }
    r := Ok(result);
  }
}
