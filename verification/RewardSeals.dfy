/** Contribution windows, sealed before the work that decides a draw is issued. */
module RewardSeals {
  import opened Outcomes
  import opened Sums
  import opened Accounting
  import opened Allocation
  import opened Shares
  import Integers

  datatype Category = CominePayout | StakingDistribution

  datatype Seal = Seal(category: Category, draw: int, parent: string, first: int, last: int, cutoff: nat)

  datatype Draw = Draw(category: Category, draw: int, parent: string)

  function Opening(draw: int, interval: int): int
  {
    if draw - interval + 1 > 1 then draw - interval + 1 else 1
  }

  /** A seal covers its draw's window up to two blocks before the draw, and every share journalled by then. */
  ghost predicate SealHolds(key: Draw, s: Seal, intervals: map<Category, int>, number: nat)
  {
    && key == Draw(s.category, s.draw, s.parent) && s.category in intervals && intervals[s.category] >= 3
    && s.draw % intervals[s.category] == 0
    && s.first == Opening(s.draw, intervals[s.category]) && s.last == s.draw - 2 && s.cutoff <= number
  }

  /** Windows of different draws of one category never overlap. */
  lemma WindowsApart(k1: Draw, s1: Seal, k2: Draw, s2: Seal, intervals: map<Category, int>, number: nat, height: int)
    requires SealHolds(k1, s1, intervals, number) && SealHolds(k2, s2, intervals, number)
    requires s1.category == s2.category && s1.first <= height <= s1.last && s2.first <= height <= s2.last
    ensures s1.draw == s2.draw
  {
    var n := intervals[s1.category];
    Multiples(s1.draw, s2.draw, n);
    Multiples(s2.draw, s1.draw, n);
  }

  lemma Multiples(a: int, b: int, n: int)
    requires n >= 3 && a % n == 0 && b % n == 0
    ensures a < b ==> a + n <= b
  {
    var k := b / n - a / n;
    assert b - a == n * k;
    if k >= 1 { Integers.MultipleAtLeast(k, n); } else { Integers.AtMostZero(k, n); }
  }

  /** What becomes of a receipt: shared out; kept aside for want of a seal or of contributors; or waiting for
      shares to be settled. */
  datatype Outcome = Credited(split: Split<string>) | Quarantined | Waiting | Failed

  /** The seals made so far, and the journal's position. */
  datatype Book = Book(seals: map<Draw, Seal>, number: nat)

  /** One category at a height: nothing if no draw follows or its seal exists, else a seal whose cutoff is
      where the journal stands. */
  function SealNext(b: Book, c: Category, interval: int, height: int, parent: string): Book
    requires interval > 0
  {
    var key := Draw(c, height + 1, parent);
    if (height + 1) % interval != 0 || key in b.seals then b
    else Book(b.seals[key := Seal(c, height + 1, parent, Opening(height + 1, interval), height - 1, b.number)], b.number + 1)
  }

  /** A share that a seal's cutoff admits is not settled yet. */
  predicate Unresolved(receipts: seq<Receipt>, cutoff: nat)
  {
    exists i :: 0 <= i < |receipts| && receipts[i].number <= cutoff && Shares.Waiting(receipts[i].status)
  }

  class Rewards {
    const intervals: map<Category, int>
    var seals: map<Draw, Seal>
    var quarantined: set<string>
    var number: nat

    ghost predicate Valid()
      reads this
    {
      && intervals.Keys == {CominePayout, StakingDistribution}
      && (forall c :: c in intervals ==> intervals[c] >= 3)
      && forall k :: k in seals ==> SealHolds(k, seals[k], intervals, number)
    }

    constructor (window: int, staking: int)
      requires window >= 3 && staking >= 3
      ensures Valid() && seals == map[]
    {
      intervals := map[CominePayout := window, StakingDistribution := staking];
      seals, quarantined, number := map[], {}, 0;
    }

    /** Before work at a height is issued, seal the windows of the draws one block later, first the lottery's
        and then the staking distribution's. A seal is made once and kept. */
    method SealDue(height: int, parent: string)
      requires Valid()
      modifies this`seals, this`number
      ensures Valid()
      ensures Book(seals, number) ==
              SealNext(SealNext(Book(old(seals), old(number)), CominePayout, intervals[CominePayout], height, parent),
                       StakingDistribution, intervals[StakingDistribution], height, parent)
      ensures forall k :: k in old(seals) ==> k in seals && seals[k] == old(seals)[k]
      ensures forall c :: c in intervals && (height + 1) % intervals[c] == 0 ==> Draw(c, height + 1, parent) in seals
      ensures forall k :: k in seals && k !in old(seals) ==>
                old(number) <= seals[k].cutoff < number && k.draw == height + 1 && k.parent == parent
    {
      SealOne(CominePayout, height, parent);
      SealOne(StakingDistribution, height, parent);
    }

    method SealOne(c: Category, height: int, parent: string)
      requires Valid() && c in intervals
      modifies this`seals, this`number
      ensures Valid() && Book(seals, number) == SealNext(Book(old(seals), old(number)), c, intervals[c], height, parent)
    {
      var key := Draw(c, height + 1, parent);
      if (height + 1) % intervals[c] == 0 && key !in seals {
        seals := seals[key := Seal(c, height + 1, parent, Opening(height + 1, intervals[c]), height - 1, number)];
        number := number + 1;
      }
    }

    /** Share a receipt among the contributors of its sealed window, once every share the cutoff admits is
        settled: all of it, or none. */
    method Distribute(key: Draw, identity: string, amount: nat, receipts: seq<Receipt>) returns (r: Outcome)
      requires Valid()
      modifies this`quarantined, this`number
      ensures Valid() && seals == old(seals)
      ensures r == Waiting <==> key in seals && Unresolved(receipts, seals[key].cutoff)
      ensures r == Failed <==> key in seals && !Unresolved(receipts, seals[key].cutoff) && MalformedIn(receipts, seals[key])
      ensures r == Quarantined <==>
                key in seals ==> !Unresolved(receipts, seals[key].cutoff) && !MalformedIn(receipts, seals[key]) &&
                                 WindowShare(map[], receipts, seals[key])
      ensures quarantined == if r == Quarantined then old(quarantined) + {identity} else old(quarantined)
      ensures r.Credited? ==>
                && key in seals && MapSum(r.split.credits) + r.split.fee == amount as real
                && exists weights :: WindowShare(weights, receipts, seals[key]) && PolicySplit(r.split, amount, weights)
    {
      if key !in seals {
        Quarantine(identity);
        return Quarantined;
      }
      var seal := seals[key];
      if Unresolved(receipts, seal.cutoff) { return Waiting; }
      var weights := WindowWeights(receipts, seal.first, seal.last, seal.cutoff, true);
      if weights.Refused? { return Failed; }
      EmptyIsOnly(weights.value, receipts, seal);
      if weights.value == map[] {
        Quarantine(identity);
        return Quarantined;
      }
      WindowRates(weights.value, receipts, seal);
      var split := AllocatePolicy(amount, weights.value);
      assert WindowShare(weights.value, receipts, seal) && PolicySplit(split.value, amount, weights.value);
      r := Credited(split.value);
    }

    method Quarantine(identity: string)
      requires Valid()
      modifies this`quarantined, this`number
      ensures Valid() && quarantined == old(quarantined) + {identity}
    {
      if identity !in quarantined {
        quarantined := quarantined + {identity};
        number := number + 1;
      }
    }
  }

  /** The weights of a sealed window: all verified work in it, by beneficiary. */
  ghost predicate WindowShare(weights: map<Key, real>, receipts: seq<Receipt>, s: Seal)
  {
    var es := HeightEntries(receipts, s.first, s.last, s.cutoff, true);
    WeightsOf(weights, es, |es|, Wide(es))
  }

  /** A verified share of the window has a target or fee rate out of range. */
  ghost predicate MalformedIn(receipts: seq<Receipt>, s: Seal)
  {
    var es := HeightEntries(receipts, s.first, s.last, s.cutoff, true);
    Blocked(es, |es|, Wide(es))
  }

  /** A key with a credit has work, and work keeps its rate in range. */
  lemma {:induction false} CreditedKey(es: seq<Entry>, n: nat, window: real, key: Key)
    requires n <= |es| && CreditTo(es, n, window, key) != 0.0
    ensures exists i :: 0 <= i < |es| && es[i].Work? && es[i].key == key
  {
    if !(es[n - 1].Work? && es[n - 1].key == key) { CreditedKey(es, n - 1, window, key); }
  }

  lemma WindowRates(weights: map<Key, real>, receipts: seq<Receipt>, s: Seal)
    requires WindowShare(weights, receipts, s)
    ensures RatesInRange(weights)
  {
    var es := HeightEntries(receipts, s.first, s.last, s.cutoff, true);
    forall k | k in weights ensures k.ppm <= MILLION {
      assert At(weights, k) == CreditTo(es, |es|, Wide(es), k);
      CreditedKey(es, |es|, Wide(es), k);
    }
  }

  /** If nobody contributed, no other weights fit. */
  lemma EmptyIsOnly(weights: map<Key, real>, receipts: seq<Receipt>, s: Seal)
    requires WindowShare(weights, receipts, s)
    ensures WindowShare(map[], receipts, s) ==> weights == map[]
  {
    var es := HeightEntries(receipts, s.first, s.last, s.cutoff, true);
    if WindowShare(map[], receipts, s) { WeightsUnique(weights, map[], es, |es|, Wide(es)); }
  }
}
