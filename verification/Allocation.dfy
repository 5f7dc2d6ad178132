/** Splitting an amount among weighted beneficiaries, with one fee for all or each share's own fee. */
module Allocation {
  import opened Outcomes
  import opened Orders
  import opened Sums
  import opened Accounting

  datatype Split<K> = Split(credits: map<K, real>, fee: real)

  ghost predicate AllPositive<K>(weights: map<K, real>)
  {
    forall k :: k in weights ==> weights[k] > 0.0
  }

  /** The inputs an allocation accepts: an amount with nobody to receive it is refused. */
  ghost predicate Accepted<K>(amount: int, weights: map<K, real>, feePpm: int)
  {
    0 <= amount && 0 <= feePpm <= MILLION && AllPositive(weights) && (weights.Keys != {} || amount == 0)
  }

  method AllPositiveValues<K(==)>(weights: map<K, real>) returns (ok: bool)
    ensures ok <==> AllPositive(weights)
  {
    var left := weights.Keys;
    while left != {}
      invariant left <= weights.Keys
      invariant forall k :: k in weights.Keys - left ==> weights[k] > 0.0
      decreases |left|
    {
      var k :| k in left;
      if weights[k] <= 0.0 { return false; }
      left := left - {k};
    }
    ok := true;
  }

  /** Summation in whatever order the map yields its values. */
  method SumValues<K(==)>(weights: map<K, real>) returns (total: real)
    ensures total == MapSum(weights)
  {
    total := 0.0;
    var left := weights.Keys;
    while left != {}
      invariant left <= weights.Keys
      invariant total + SumKeys(weights, left) == MapSum(weights)
      decreases |left|
    {
      var k :| k in left;
      SumRemove(weights, left, k);
      total := total + weights[k];
      left := left - {k};
    }
  }

  /** The fee is its rate's part of the amount, every credit is proportional to its weight, and
      credits and fee add up to the amount exactly. */
  ghost predicate Allocates<K>(s: Split<K>, amount: int, weights: map<K, real>, feePpm: int)
  {
    && s.fee * MILLION as real == (amount * feePpm) as real
    && s.credits.Keys == weights.Keys
    && (forall k :: k in weights ==> s.credits[k] * MapSum(weights) == (amount as real - s.fee) * weights[k])
    && MapSum(s.credits) + s.fee == amount as real
  }

  method Allocate<K(==)>(amount: int, weights: map<K, real>, feePpm: int) returns (r: Result<Split<K>>)
    ensures r.Ok? <==> Accepted(amount, weights, feePpm)
    ensures r.Ok? ==> Allocates(r.value, amount, weights, feePpm)
  {
    if amount < 0 || !(0 <= feePpm <= MILLION) { return Refused; }
    var positive := AllPositiveValues(weights);
    if !positive { return Refused; }
    var total := SumValues(weights);
    SumPositive(weights, weights.Keys);
    if !(total > 0.0 || amount == 0) { return Refused; }
    var fee := (amount * feePpm) as real / MILLION as real;
    var net := amount as real - fee;
    if weights.Keys == {} {
      r := Ok(Split(map[], fee));
    } else {
      var credits := map k | k in weights :: net * weights[k] / total;
      Proportional(net, weights, credits, total);
      r := Ok(Split(credits, fee));
    }
  }

  lemma Proportional<K>(net: real, weights: map<K, real>, credits: map<K, real>, total: real)
    requires total == MapSum(weights) > 0.0 && credits.Keys == weights.Keys
    requires forall k :: k in weights ==> credits[k] == net * weights[k] / total
    ensures forall k :: k in weights ==> credits[k] * total == net * weights[k]
    ensures MapSum(credits) == net
  {
    forall k | k in weights ensures credits[k] == (net / total) * weights[k] && credits[k] * total == net * weights[k] {
      Ratio(net, weights[k], total);
    }
    MapSumScale(weights, credits, net / total, x => (net / total) * x);
    Ratio(net, total, total);
  }

  lemma Ratio(a: real, b: real, c: real)
    requires c != 0.0
    ensures a * b / c == (a / c) * b && (a * b / c) * c == a * b && (a / c) * c == a
  {
  }

  // ---- Each share charged at its own rate ----

  function Charge(value: real, ppm: nat): real
  {
    value * (ppm as real / MILLION as real)
  }

  /** The charge on every share at its own rate. */
  ghost predicate Charges(charges: map<Key, real>, gross: map<Key, real>)
  {
    charges.Keys == gross.Keys && forall k :: k in gross ==> charges[k] == Charge(gross[k], k.ppm)
  }

  ghost function Of(keys: set<Key>, account: string): set<Key>
  {
    set k | k in keys && k.account == account
  }

  /** What an account keeps of its shares among the given keys. */
  ghost function Kept(gross: map<Key, real>, charges: map<Key, real>, keys: set<Key>, account: string): real
    requires keys <= gross.Keys && keys <= charges.Keys
  {
    SumKeys(gross, Of(keys, account)) - SumKeys(charges, Of(keys, account))
  }

  /** The gross split charged share by share, for the given part of its keys. */
  ghost predicate Charged(s: Split<string>, gross: map<Key, real>, charges: map<Key, real>, done: set<Key>)
    requires done <= gross.Keys && done <= charges.Keys
  {
    && s.fee == SumKeys(charges, done)
    && (forall a :: a in s.credits <==> Of(done, a) != {})
    && (forall a :: a in s.credits ==> s.credits[a] == Kept(gross, charges, done, a))
    && MapSum(s.credits) + s.fee == SumKeys(gross, done)
  }

  lemma KeptGrows(gross: map<Key, real>, charges: map<Key, real>, done: set<Key>, k: Key, a: string)
    requires done <= gross.Keys == charges.Keys && k in gross && k !in done
    ensures Kept(gross, charges, done + {k}, a) ==
            Kept(gross, charges, done, a) + if k.account == a then gross[k] - charges[k] else 0.0
    ensures (Of(done + {k}, a) != {}) == (k.account == a || Of(done, a) != {})
  {
    if k.account == a {
      assert Of(done + {k}, a) - {k} == Of(done, a);
      assert k in Of(done + {k}, a);
      SumRemove(gross, Of(done + {k}, a), k);
      SumRemove(charges, Of(done + {k}, a), k);
    } else {
      assert Of(done + {k}, a) == Of(done, a);
    }
  }

  function Add(credits: map<string, real>, account: string, value: real): map<string, real>
  {
    credits[account := value + if account in credits then credits[account] else 0.0]
  }

  /** A share adds its charge to the fee and the rest to its account. */
  function ChargeShare(s: Split<string>, k: Key, value: real): Split<string>
  {
    Split(Add(s.credits, k.account, value - Charge(value, k.ppm)), s.fee + Charge(value, k.ppm))
  }

  ghost function ChargeAll(gross: map<Key, real>, order: Order<Key>): Split<string>
    requires Visited(order) <= gross.Keys
  {
    match order
    case Start => Split(map[], 0.0)
    case Then(before, key) => ChargeShare(ChargeAll(gross, before), key, gross[key])
  }

  /** Whatever the order, the shares visited are charged exactly. */
  lemma {:induction false} AnyOrderCharges(gross: map<Key, real>, charges: map<Key, real>, order: Order<Key>)
    requires Once(order) && Visited(order) <= gross.Keys && Charges(charges, gross)
    ensures Charged(ChargeAll(gross, order), gross, charges, Visited(order))
  {
    if order.Then? {
      AnyOrderCharges(gross, charges, order.before);
      ChargedMore(ChargeAll(gross, order.before), ChargeAll(gross, order), gross, charges, Visited(order.before), order.key);
    }
  }

  lemma ChargedMore(s: Split<string>, next: Split<string>, gross: map<Key, real>, charges: map<Key, real>,
                    done: set<Key>, k: Key)
    requires done <= gross.Keys == charges.Keys && k in gross && k !in done && Charged(s, gross, charges, done)
    requires next.credits == Add(s.credits, k.account, gross[k] - charges[k]) && next.fee == s.fee + charges[k]
    ensures Charged(next, gross, charges, done + {k})
  {
    var more := done + {k};
    assert more - {k} == done;
    SumRemove(charges, more, k);
    SumRemove(gross, more, k);
    MapSumUpdate(s.credits, k.account, next.credits[k.account]);
    forall a
      ensures a in next.credits <==> Of(more, a) != {}
      ensures a in next.credits ==> next.credits[a] == Kept(gross, charges, more, a)
    {
      KeptGrows(gross, charges, done, k, a);
    }
  }

  ghost predicate RatesInRange(weights: map<Key, real>)
  {
    forall k :: k in weights ==> k.ppm <= MILLION
  }

  method ChargeEach(gross: map<Key, real>) returns (r: Result<Split<string>>, ghost order: Order<Key>)
    ensures r.Ok? <==> RatesInRange(gross)
    ensures r.Ok? ==> Once(order) && Visited(order) == gross.Keys && r.value == ChargeAll(gross, order)
  {
    var out: Split<string> := Split(map[], 0.0);
    var left := gross.Keys;
    order := Start;
    while left != {}
      invariant Visited(order) + left == gross.Keys && Visited(order) !! left && Once(order)
      invariant out == ChargeAll(gross, order)
      invariant forall k :: k in Visited(order) ==> k.ppm <= MILLION
      decreases |left|
    {
      var k :| k in left;
      if k.ppm > MILLION { return Refused, order; }
      out := ChargeShare(out, k, gross[k]);
      Visit(order, k, left);
      order := Then(order, k);
      left := left - {k};
    }
    assert Visited(order) == gross.Keys;
    r := Ok(out);
  }

  /** Each share of the gross split pays its own rate. Whatever the mix of rates, the accounts' credits
      and the fee add up to the amount. */
  method AllocatePolicy(amount: int, weights: map<Key, real>) returns (r: Result<Split<string>>)
    ensures r.Ok? <==> Accepted(amount, weights, 0) && RatesInRange(weights)
    ensures r.Ok? ==> PolicySplit(r.value, amount, weights)
    ensures r.Ok? ==> MapSum(r.value.credits) + r.value.fee == amount as real
  {
    var g := Allocate(amount, weights, 0);
    if g.Refused? { return Refused; }
    var gross := g.value.credits;
    ghost var order;
    r, order := ChargeEach(gross);
    if r.Ok? {
      ghost var charges := map k | k in gross :: Charge(gross[k], k.ppm);
      AnyOrderCharges(gross, charges, order);
      assert Allocates(Split(gross, 0.0), amount, weights, 0);
    }
  }

  ghost predicate PolicySplit(s: Split<string>, amount: int, weights: map<Key, real>)
  {
    exists gross: map<Key, real>, charges: map<Key, real> ::
      && Allocates(Split(gross, 0.0), amount, weights, 0)
      && Charges(charges, gross)
      && Charged(s, gross, charges, gross.Keys)
  }

  lemma {:induction false} SumAtMost<K>(m: map<K, real>, n: map<K, real>, s: set<K>)
    requires s <= m.Keys && s <= n.Keys && forall k :: k in s ==> 0.0 <= m[k] <= n[k]
    ensures 0.0 <= SumKeys(m, s) <= SumKeys(n, s)
    decreases |s|
  {
    if s != {} { SumAtMost(m, n, s - {AnyOf(s)}); }
  }

  /** No account is charged more than it earned. */
  lemma PolicyNonnegative(s: Split<string>, amount: int, weights: map<Key, real>)
    requires Accepted(amount, weights, 0) && RatesInRange(weights) && PolicySplit(s, amount, weights)
    ensures s.fee >= 0.0 && forall a :: a in s.credits ==> s.credits[a] >= 0.0
  {
    var gross, charges :|
      Allocates(Split(gross, 0.0), amount, weights, 0) && Charges(charges, gross) && Charged(s, gross, charges, gross.Keys);
    forall k | k in gross ensures 0.0 <= charges[k] <= gross[k] {
      GrossFits(gross, charges, amount, weights, k);
    }
    ChargedNonnegative(s, gross, charges);
  }

  lemma GrossFits(gross: map<Key, real>, charges: map<Key, real>, amount: int, weights: map<Key, real>, k: Key)
    requires Accepted(amount, weights, 0) && RatesInRange(weights)
    requires Allocates(Split(gross, 0.0), amount, weights, 0) && Charges(charges, gross) && k in gross
    ensures 0.0 <= charges[k] <= gross[k]
  {
    SumPositive(weights, weights.Keys);
    ChargeFits(gross[k], MapSum(weights), amount as real, weights[k], k.ppm);
  }

  lemma ChargedNonnegative(s: Split<string>, gross: map<Key, real>, charges: map<Key, real>)
    requires gross.Keys == charges.Keys && Charged(s, gross, charges, gross.Keys)
    requires forall k :: k in gross ==> 0.0 <= charges[k] <= gross[k]
    ensures s.fee >= 0.0 && forall a :: a in s.credits ==> s.credits[a] >= 0.0
  {
    SumAtMost(charges, gross, gross.Keys);
    forall a | a in s.credits ensures s.credits[a] >= 0.0 {
      SumAtMost(charges, gross, Of(gross.Keys, a));
    }
  }

  lemma ChargeFits(gross: real, total: real, amount: real, weight: real, ppm: nat)
    requires total > 0.0 && amount >= 0.0 && weight > 0.0 && ppm <= MILLION && gross * total == amount * weight
    ensures 0.0 <= Charge(gross, ppm) <= gross
  {
    Fits(gross, total, amount, weight, ppm as real / MILLION as real);
  }

  lemma Fits(gross: real, total: real, amount: real, weight: real, rate: real)
    requires total > 0.0 && amount >= 0.0 && weight > 0.0 && 0.0 <= rate <= 1.0 && gross * total == amount * weight
    ensures 0.0 <= gross * rate <= gross
  {
    SignOfProduct(gross, total);
    assert gross - gross * rate == gross * (1.0 - rate);
  }
}
