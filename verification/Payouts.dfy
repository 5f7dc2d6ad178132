/** Dividing gathered pool funding among payout groups and their accounts. */
module Payouts {
  import opened Outcomes
  import opened Orders
  import opened Tallies

  const MAX_GROUPS: nat := 128

  /** Amounts due by account, grouped by destination. */
  type Groups = map<string, Amounts>

  // ---- Groups worth paying ----

  /** The accounts with something due whose payouts go to the given destination. */
  ghost function Members(quotas: Amounts, destination: map<string, string>, key: string): Amounts
  {
    map a | a in quotas && a in destination && destination[a] == key && quotas[a] > 0 :: quotas[a]
  }

  /** Exactly the destinations whose accounts together reach the minimum, with all those accounts. */
  ghost predicate Eligible(groups: Groups, quotas: Amounts, minimum: int,
                           destination: map<string, string>)
  {
    && (forall key :: key in groups ==> groups[key] == Members(quotas, destination, key) && groups[key] != map[]
                                        && TallyAll(groups[key]) >= minimum)
    && (forall key :: key !in groups ==> var m := Members(quotas, destination, key); m == map[] || TallyAll(m) < minimum)
  }

  function AddMember(groups: Groups, key: string, account: string, amount: int): Groups
  {
    groups[key := (if key in groups then groups[key] else map[])[account := amount]]
  }

  predicate Listed(groups: Groups, key: string, account: string)
  {
    key in groups && account in groups[key]
  }

  /** Of the given accounts, those with something due are listed under their destination, with their quota. */
  ghost predicate Grouped(groups: Groups, quotas: Amounts, destination: map<string, string>,
                          done: set<string>)
    requires done <= quotas.Keys
  {
    && (forall key, a :: Listed(groups, key, a) <==> a in done && quotas[a] > 0 && a in destination && destination[a] == key)
    && (forall key, a :: Listed(groups, key, a) ==> groups[key][a] == quotas[a])
    && (forall key :: key in groups ==> groups[key] != map[])
  }

  ghost predicate AllPlaced(quotas: Amounts, destination: map<string, string>, accounts: set<string>)
  {
    forall a :: a in accounts && a in quotas && quotas[a] > 0 ==> a in destination
  }

  /** The groups after visiting some accounts in some order. */
  ghost function GroupAll(quotas: Amounts, destination: map<string, string>, order: Order<string>): Groups
    requires Visited(order) <= quotas.Keys && AllPlaced(quotas, destination, Visited(order))
  {
    match order
    case Start => map[]
    case Then(before, a) =>
      if quotas[a] > 0 then AddMember(GroupAll(quotas, destination, before), destination[a], a, quotas[a])
      else GroupAll(quotas, destination, before)
  }

  lemma {:induction false} GroupAllGroups(quotas: Amounts, destination: map<string, string>, order: Order<string>)
    requires Visited(order) <= quotas.Keys && AllPlaced(quotas, destination, Visited(order))
    ensures Grouped(GroupAll(quotas, destination, order), quotas, destination, Visited(order))
  {
    if order.Then? {
      GroupAllGroups(quotas, destination, order.before);
      var groups, next := GroupAll(quotas, destination, order.before), GroupAll(quotas, destination, order);
      var account := order.key;
      if quotas[account] > 0 {
        forall key, a ensures Listed(next, key, a) <==> Listed(groups, key, a) || (key == destination[account] && a == account) {
        }
      }
    }
  }

  /** Grouping by destination; an account without one is refused. */
  method GroupByDestination(quotas: Amounts, destination: map<string, string>)
    returns (r: Result<Groups>)
    ensures r.Ok? <==> AllPlaced(quotas, destination, quotas.Keys)
    ensures r.Ok? ==> Grouped(r.value, quotas, destination, quotas.Keys)
  {
    var groups: Groups := map[];
    var left := quotas.Keys;
    ghost var order: Order<string> := Start;
    while left != {}
      invariant Visited(order) + left == quotas.Keys && Visited(order) !! left
      invariant AllPlaced(quotas, destination, Visited(order))
      invariant groups == GroupAll(quotas, destination, order)
      decreases |left|
    {
      var account := Pick(left);
      if quotas[account] > 0 {
        if account !in destination { return Refused; }
        groups := AddMember(groups, destination[account], account, quotas[account]);
      }
      Visit(order, account, left);
      order := Then(order, account);
      left := left - {account};
    }
    assert Visited(order) == quotas.Keys;
    GroupAllGroups(quotas, destination, order);
    r := Ok(groups);
  }

  lemma GroupIsMembers(groups: Groups, quotas: Amounts, destination: map<string, string>, key: string)
    requires Grouped(groups, quotas, destination, quotas.Keys)
    ensures key in groups ==> groups[key] == Members(quotas, destination, key)
    ensures key !in groups ==> Members(quotas, destination, key) == map[]
  {
    var m := Members(quotas, destination, key);
    forall a ensures a in m <==> Listed(groups, key, a) {
    }
  }

  /** The destinations to pay: those reaching the minimum. */
  method EligibleGroups(quotas: Amounts, minimum: int, destination: map<string, string>)
    returns (r: Result<Groups>)
    ensures r.Ok? <==> AllPlaced(quotas, destination, quotas.Keys)
    ensures r.Ok? ==> Eligible(r.value, quotas, minimum, destination)
  {
    var g := GroupByDestination(quotas, destination);
    if g.Refused? { return Refused; }
    var kept := ReachingMinimum(g.value, minimum);
    forall key { GroupIsMembers(g.value, quotas, destination, key); }
    r := Ok(kept);
  }

  method ReachingMinimum(groups: Groups, minimum: int) returns (kept: Groups)
    ensures forall key :: key in kept <==> key in groups && TallyAll(groups[key]) >= minimum
    ensures forall key :: key in kept ==> kept[key] == groups[key]
  {
    kept := map[];
    var left := groups.Keys;
    while left != {}
      invariant left <= groups.Keys
      invariant forall key :: key in kept <==> key in groups && key !in left && TallyAll(groups[key]) >= minimum
      invariant forall key :: key in kept ==> kept[key] == groups[key]
      decreases |left|
    {
      var key := Pick(left);
      var total := SumOf(groups[key]);
      if total >= minimum { kept := kept[key := groups[key]]; }
      left := left - {key};
    }
  }

  // ---- Serving claimants in order until the funding runs out ----

  ghost function OwedTo(order: Order<string>, owed: Amounts): int
    requires Visited(order) <= owed.Keys
  {
    match order
    case Start => 0
    case Then(before, k) => OwedTo(before, owed) + owed[k]
  }

  /** What is left once these claimants have been served as far as the funding goes. */
  ghost function Left(order: Order<string>, owed: Amounts, funding: int): int
    requires Visited(order) <= owed.Keys
  {
    var rest := funding - OwedTo(order, owed);
    if rest < 0 then 0 else rest
  }

  /** These claimants, each with what the funding still covers at its turn. */
  ghost function Serve(order: Order<string>, owed: Amounts, funding: int): Amounts
    requires Visited(order) <= owed.Keys
  {
    match order
    case Start => map[]
    case Then(before, k) => Serve(before, owed, funding)[k := Left(before, owed, funding) - Left(order, owed, funding)]
  }

  ghost predicate NoDebt(owed: Amounts)
  {
    forall k :: k in owed ==> owed[k] >= 0
  }

  lemma LeftFalls(order: Order<string>, owed: Amounts, funding: int, k: string)
    requires Visited(order) <= owed.Keys && NoDebt(owed) && k in owed
    ensures var left := Left(order, owed, funding);
            Left(Then(order, k), owed, funding) == left - if owed[k] <= left then owed[k] else left
  {
  }

  /** Serving distinct claimants hands out all that is not left. */
  lemma {:induction false} ServeTotal(order: Order<string>, owed: Amounts, funding: nat)
    requires Once(order) && Visited(order) <= owed.Keys
    ensures var chosen := Serve(order, owed, funding);
            chosen.Keys == Visited(order) && TallyAll(chosen) == funding - Left(order, owed, funding)
  {
    if order.Then? {
      ServeTotal(order.before, owed, funding);
      TallyUpdate(Serve(order.before, owed, funding), order.key, Left(order.before, owed, funding) - Left(order, owed, funding));
    }
  }

  /** At every turn at least this much was left. */
  ghost predicate LeftAtLeast(order: Order<string>, owed: Amounts, funding: int, least: int)
    requires Visited(order) <= owed.Keys
  {
    order.Then? ==> Left(order.before, owed, funding) >= least && LeftAtLeast(order.before, owed, funding, least)
  }

  /** Each claimant served receives at most what it is owed, and at least the minimum if it is owed that
      much and that much was left at its turn. */
  lemma {:induction false} ServeEach(order: Order<string>, owed: Amounts, funding: nat, minimum: int, k: string)
    requires Once(order) && Visited(order) <= owed.Keys && NoDebt(owed) && k in Visited(order)
    requires LeftAtLeast(order, owed, funding, minimum) && owed[k] >= minimum
    ensures k in Serve(order, owed, funding) && minimum <= Serve(order, owed, funding)[k] <= owed[k]
  {
    if k == order.key {
      LeftFalls(order.before, owed, funding, k);
    } else {
      ServeEach(order.before, owed, funding, minimum, k);
    }
  }

  lemma AscendingDistinct(keys: seq<string>)
    requires Ascending(keys)
    ensures Distinct(keys)
  {
    forall i, j | 0 <= i < j < |keys| ensures keys[i] != keys[j] { LessTotal(keys[i], keys[j]); }
  }

  /** How many are served: all, or as many as allowed, or until less than the minimum is left. */
  ghost predicate Stops(keys: seq<string>, owed: Amounts, funding: int, minimum: int, n: nat)
    requires n <= |keys| && Visited(First(keys, n)) <= owed.Keys
  {
    && n <= MAX_GROUPS
    && (n == |keys| || n == MAX_GROUPS || Left(First(keys, n), owed, funding) < minimum)
    && LeftAtLeast(First(keys, n), owed, funding, minimum)
  }

  /** The claimants served so far, what they were given, and what is left. */
  ghost predicate Serving(chosen: Amounts, remaining: int, keys: seq<string>, owed: Amounts, funding: int,
                          minimum: int, n: nat)
  {
    && n <= |keys| && Visited(First(keys, n)) <= owed.Keys
    && chosen == Serve(First(keys, n), owed, funding)
    && remaining == Left(First(keys, n), owed, funding)
    && LeftAtLeast(First(keys, n), owed, funding, minimum)
  }

  method ServeOne(chosen: Amounts, remaining: int, keys: seq<string>, owed: Amounts, ghost funding: nat,
                  ghost minimum: int, n: nat) returns (more: Amounts, left: int)
    requires NoDebt(owed) && n < |keys| && keys[n] in owed && minimum <= remaining
    requires Serving(chosen, remaining, keys, owed, funding, minimum, n)
    ensures Serving(more, left, keys, owed, funding, minimum, n + 1)
  {
    var k := keys[n];
    var amount := if owed[k] <= remaining then owed[k] else remaining;
    LeftFalls(First(keys, n), owed, funding, k);
    more, left := chosen[k := amount], remaining - amount;
  }

  lemma ServedCount(keys: seq<string>, owed: Amounts, funding: nat, n: nat)
    requires n <= |keys| && Distinct(keys) && Visited(First(keys, n)) <= owed.Keys
    ensures |Serve(First(keys, n), owed, funding)| == n
  {
    FirstVisits(keys, n);
    ServeTotal(First(keys, n), owed, funding);
    var chosen := Serve(First(keys, n), owed, funding);
    assert |chosen| == |chosen.Keys|;
  }

  /** Groups are paid in ascending order, each in full while the funding lasts. */
  method SelectGroups(keys: seq<string>, owed: Amounts, funding: nat, minimum: int)
    returns (chosen: Amounts, remaining: int)
    requires Distinct(keys) && NoDebt(owed) && forall k :: k in keys ==> k in owed
    ensures Selected(chosen, remaining, keys, owed, funding, minimum)
  {
    chosen, remaining := map[], funding;
    var i := 0;
    while i < |keys| && |chosen| < MAX_GROUPS && remaining >= minimum
      invariant 0 <= i <= |keys| && i <= MAX_GROUPS
      invariant Serving(chosen, remaining, keys, owed, funding, minimum, i) && |chosen| == i
    {
      chosen, remaining := ServeOne(chosen, remaining, keys, owed, funding, minimum, i);
      i := i + 1;
      ServedCount(keys, owed, funding, i);
    }
  }

  /** As many claimants as the funding, the minimum and the bound allow are served, and no more. */
  ghost predicate Selected(chosen: Amounts, remaining: int, keys: seq<string>, owed: Amounts, funding: int,
                           minimum: int)
  {
    && Serving(chosen, remaining, keys, owed, funding, minimum, |chosen|)
    && Stops(keys, owed, funding, minimum, |chosen|)
  }

  lemma {:induction false} LeftEarlier(keys: seq<string>, owed: Amounts, funding: int, least: int, n: nat, m: nat)
    requires n < m <= |keys| && Visited(First(keys, m)) <= owed.Keys && Visited(First(keys, n)) <= owed.Keys
    requires LeftAtLeast(First(keys, m), owed, funding, least)
    ensures Left(First(keys, n), owed, funding) >= least
    decreases m
  {
    if n < m - 1 { LeftEarlier(keys, owed, funding, least, n, m - 1); }
  }

  /** The claimants, their bound and the funding determine who is served and with how much. */
  lemma SelectedUnique(a: Amounts, rest: int, b: Amounts, left: int, keys: seq<string>, owed: Amounts, funding: int,
                       minimum: int)
    requires Selected(a, rest, keys, owed, funding, minimum) && Selected(b, left, keys, owed, funding, minimum)
    ensures a == b && rest == left
  {
    if |a| < |b| {
      LeftEarlier(keys, owed, funding, minimum, |a|, |b|);
    } else if |b| < |a| {
      LeftEarlier(keys, owed, funding, minimum, |b|, |a|);
    }
  }

  // ---- Change below the dust limit ----

  /** The largest payment; among equals, the last by name. */
  ghost predicate Largest(chosen: Amounts, g: string)
  {
    g in chosen && forall h :: h in chosen ==> chosen[h] < chosen[g] || (chosen[h] == chosen[g] && (h == g || Less(h, g)))
  }

  method FindLargest(chosen: Amounts) returns (g: string)
    requires chosen != map[]
    ensures Largest(chosen, g)
  {
    var left := chosen.Keys;
    g := Pick(left);
    left := left - {g};
    while left != {}
      invariant left <= chosen.Keys && g in chosen
      invariant forall h :: h in chosen && h !in left ==>
                  chosen[h] < chosen[g] || (chosen[h] == chosen[g] && (h == g || Less(h, g)))
      decreases |left|
    {
      var h := Pick(left);
      if chosen[h] > chosen[g] || (chosen[h] == chosen[g] && Less(g, h)) {
        if chosen[h] == chosen[g] { LessThrough(g, h); }
        g := h;
      } else {
        LessTotal(g, h);
      }
      left := left - {h};
    }
  }

  lemma LessThrough(g: string, h: string)
    requires Less(g, h)
    ensures forall k :: Less(k, g) ==> Less(k, h)
  {
    forall k | Less(k, g) ensures Less(k, h) { LessTransitive(k, g, h); }
  }

  /** What remains after the given payments is either nothing or a change output worth relaying. */
  predicate Relayable(change: int, dust: int)
  {
    change == 0 || change >= dust
  }

  /** Only the largest payment is lowered, by just enough to lift the change to the dust limit, and it is
      dropped if that takes it below the minimum. */
  ghost predicate Adjusted(adjusted: Amounts, chosen: Amounts, remaining: int, dust: int, minimum: int)
  {
    if 0 < remaining < dust then
      exists g ::
        && Largest(chosen, g)
        && var lowered := chosen[g] - (dust - remaining);
           adjusted == if lowered < minimum then chosen - {g} else chosen[g := lowered]
    else adjusted == chosen
  }

  lemma AdjustedUnique(a: Amounts, b: Amounts, chosen: Amounts, remaining: int, dust: int, minimum: int)
    requires Adjusted(a, chosen, remaining, dust, minimum) && Adjusted(b, chosen, remaining, dust, minimum)
    ensures a == b
  {
    forall g, h | Largest(chosen, g) && Largest(chosen, h) ensures g == h { LessTotal(g, h); }
  }

  /** Fails only when there is change to lift and no payment to take it from. */
  method LiftChange(chosen: Amounts, remaining: int, dust: int, minimum: int) returns (r: Result<Amounts>)
    ensures r.Ok? <==> (0 < remaining < dust ==> chosen != map[])
    ensures r.Ok? ==> Adjusted(r.value, chosen, remaining, dust, minimum)
  {
    if 0 < remaining < dust {
      if chosen == map[] { return Refused; }
      var g := FindLargest(chosen);
      var lowered := chosen[g] - (dust - remaining);
      r := Ok(if lowered < minimum then chosen - {g} else chosen[g := lowered]);
    } else {
      r := Ok(chosen);
    }
  }

  /** With a dust limit no greater than the minimum, the adjustment leaves relayable change and every
      remaining payment between the minimum and what was chosen. */
  lemma AdjustedRelays(adjusted: Amounts, chosen: Amounts, remaining: int, dust: int, minimum: int)
    requires Adjusted(adjusted, chosen, remaining, dust, minimum) && remaining >= 0 && 0 < dust <= minimum
    requires forall k :: k in chosen ==> chosen[k] >= minimum
    ensures Relayable(TallyAll(chosen) + remaining - TallyAll(adjusted), dust)
    ensures forall k :: k in adjusted ==> k in chosen && minimum <= adjusted[k] <= chosen[k]
    ensures adjusted.Keys <= chosen.Keys
  {
    if 0 < remaining < dust {
      var g :| Largest(chosen, g) && var lowered := chosen[g] - (dust - remaining);
                adjusted == if lowered < minimum then chosen - {g} else chosen[g := lowered];
      if chosen[g] - (dust - remaining) < minimum {
        TallyUpdate(adjusted, g, chosen[g]);
        assert adjusted[g := chosen[g]] == chosen;
      } else {
        TallyUpdate(chosen, g, adjusted[g]);
      }
    }
  }

  // ---- Debiting accounts ----

  ghost function Positives(m: Amounts): Amounts
  {
    map k | k in m && m[k] > 0 :: m[k]
  }

  /** What a payment of the given amount takes from each account of a group: accounts in ascending order,
      each in full until the amount is used up. */
  ghost function Takes(owed: Amounts, amount: int): Amounts
  {
    SortedAscends(owed.Keys);
    VisitsAll(owed);
    Positives(Serve(First(Sorted(owed.Keys), |Sorted(owed.Keys)|), owed, amount))
  }

  lemma VisitsAll(owed: Amounts)
    ensures var keys := Sorted(owed.Keys); Visited(First(keys, |keys|)) == owed.Keys && Once(First(keys, |keys|))
  {
    var keys := Sorted(owed.Keys);
    SortedAscends(owed.Keys);
    AscendingDistinct(keys);
    FirstVisits(keys, |keys|);
    forall k ensures k in Visited(First(keys, |keys|)) <==> k in owed { FirstMember(keys, |keys|, k); }
  }

  lemma {:induction false} OwedToTally(order: Order<string>, owed: Amounts)
    requires Once(order) && Visited(order) <= owed.Keys
    ensures OwedTo(order, owed) == Tally(owed, Visited(order))
  {
    if order.Then? {
      OwedToTally(order.before, owed);
      TallyVisited(owed, order);
    }
  }

  lemma {:induction false} PositivesTotal(m: Amounts, order: Order<string>, owed: Amounts, funding: nat)
    requires Once(order) && Visited(order) <= owed.Keys && NoDebt(owed) && m == Serve(order, owed, funding)
    ensures TallyAll(Positives(m)) == TallyAll(m)
    ensures forall k :: k in Positives(m) ==> k in owed && 0 < Positives(m)[k] <= owed[k]
  {
    if order.Then? {
      var was := Serve(order.before, owed, funding);
      PositivesTotal(was, order.before, owed, funding);
      LeftFalls(order.before, owed, funding, order.key);
      ServeTotal(order.before, owed, funding);
      TallyUpdate(was, order.key, m[order.key]);
      if m[order.key] > 0 {
        TallyUpdate(Positives(was), order.key, m[order.key]);
        assert Positives(m) == Positives(was)[order.key := m[order.key]];
      } else {
        assert Positives(m) == Positives(was);
      }
    }
  }

  /** An amount the group is owed is taken exactly, and from no account more than it is owed. */
  lemma TakesExactly(owed: Amounts, amount: nat)
    requires NoDebt(owed) && amount <= TallyAll(owed)
    ensures TallyAll(Takes(owed, amount)) == amount
    ensures forall a :: a in Takes(owed, amount) ==> a in owed && 0 < Takes(owed, amount)[a] <= owed[a]
    ensures LeftOver(owed, amount) == 0
  {
    VisitsAll(owed);
    var order := First(Sorted(owed.Keys), |Sorted(owed.Keys)|);
    OwedToTally(order, owed);
    ServeTotal(order, owed, amount);
    PositivesTotal(Serve(order, owed, amount), order, owed, amount);
  }

  ghost function LeftOver(owed: Amounts, amount: int): int
  {
    VisitsAll(owed);
    Left(First(Sorted(owed.Keys), |Sorted(owed.Keys)|), owed, amount)
  }

  /** Once the amount is used up, no later account is touched. */
  lemma {:induction false} NothingLeft(keys: seq<string>, owed: Amounts, amount: nat, n: nat, m: nat)
    requires n <= m <= |keys| && Distinct(keys) && NoDebt(owed) && Visited(First(keys, m)) <= owed.Keys
    requires Visited(First(keys, n)) <= owed.Keys && Left(First(keys, n), owed, amount) == 0
    ensures Left(First(keys, m), owed, amount) == 0
    ensures Positives(Serve(First(keys, m), owed, amount)) == Positives(Serve(First(keys, n), owed, amount))
    decreases m
  {
    if n < m {
      NothingLeft(keys, owed, amount, n, m - 1);
      LeftFalls(First(keys, m - 1), owed, amount, keys[m - 1]);
      FirstVisits(keys, m);
      ServeTotal(First(keys, m - 1), owed, amount);
    }
  }

  lemma TakeNext(order: Order<string>, owed: Amounts, amount: nat, k: string)
    requires Once(order) && Visited(order) <= owed.Keys && NoDebt(owed) && k in owed && k !in Visited(order)
    ensures var left := Left(order, owed, amount);
            var take := if owed[k] <= left then owed[k] else left;
            var takes := Positives(Serve(order, owed, amount));
            && Positives(Serve(Then(order, k), owed, amount)) == (if take != 0 then takes[k := take] else takes)
            && Left(Then(order, k), owed, amount) == left - take
  {
    LeftFalls(order, owed, amount, k);
    ServeTotal(order, owed, amount);
  }

  /** What the first n accounts have been debited, and what is left to debit. */
  ghost predicate Taking(takes: Amounts, rest: int, keys: seq<string>, owed: Amounts, amount: int, n: nat)
  {
    && n <= |keys| && Visited(First(keys, n)) <= owed.Keys
    && takes == Positives(Serve(First(keys, n), owed, amount))
    && rest == Left(First(keys, n), owed, amount)
  }

  method TakeOne(keys: seq<string>, owed: Amounts, ghost amount: nat, n: nat, takes: Amounts, rest: int)
    returns (more: Amounts, left: int)
    requires Distinct(keys) && NoDebt(owed) && n < |keys| && keys[n] in owed
    requires Taking(takes, rest, keys, owed, amount, n)
    ensures Taking(more, left, keys, owed, amount, n + 1)
  {
    var k := keys[n];
    var take := if owed[k] <= rest then owed[k] else rest;
    FirstVisits(keys, n + 1);
    TakeNext(First(keys, n), owed, amount, k);
    more := if take != 0 then takes[k := take] else takes;
    left := rest - take;
  }

  /** Debiting accounts in the given order, stopping when nothing is left to debit. */
  method TakeInOrder(keys: seq<string>, owed: Amounts, amount: nat) returns (takes: Amounts, rest: int)
    requires Distinct(keys) && NoDebt(owed) && Visited(First(keys, |keys|)) == owed.Keys
    ensures Taking(takes, rest, keys, owed, amount, |keys|)
  {
    takes, rest := map[], amount;
    var i := 0;
    while i < |keys|
      invariant 0 <= i <= |keys| && Taking(takes, rest, keys, owed, amount, i)
    {
      FirstMember(keys, |keys|, keys[i]);
      takes, rest := TakeOne(keys, owed, amount, i, takes, rest);
      i := i + 1;
      if rest == 0 {
        NothingLeft(keys, owed, amount, i, |keys|);
        return;
      }
    }
  }

  /** Debiting one group's accounts in ascending order. */
  method TakeFrom(owed: Amounts, amount: nat) returns (takes: Amounts, rest: int)
    requires NoDebt(owed)
    ensures takes == Takes(owed, amount) && rest == LeftOver(owed, amount)
  {
    var keys := SortKeys(owed.Keys);
    AscendingDistinct(keys);
    VisitsAll(owed);
    takes, rest := TakeInOrder(keys, owed, amount);
  }

  // ---- All groups together ----

  ghost predicate Separate(groups: Groups)
  {
    forall g, h :: g in groups && h in groups && g != h ==> groups[g].Keys !! groups[h].Keys
  }

  ghost predicate Payable(chosen: Amounts, groups: Groups)
  {
    forall g :: g in chosen ==> g in groups && NoDebt(groups[g]) && 0 <= chosen[g] <= TallyAll(groups[g])
  }

  /** Each group's debits stay within the group, take at most what is owed, and add up to its payment. */
  ghost predicate Fit(takes: Groups, chosen: Amounts, groups: Groups)
  {
    takes.Keys == chosen.Keys && FitAll(takes, chosen, groups)
  }

  ghost predicate FitAll(takes: Groups, chosen: Amounts, groups: Groups)
  {
    forall g :: g in takes ==> g in chosen && g in groups && FitOne(takes[g], groups[g], chosen[g])
  }

  /** The debits of the visited groups. */
  ghost function Debits(takes: Groups, order: Order<string>): Amounts
    requires Visited(order) <= takes.Keys
  {
    match order
    case Start => map[]
    case Then(before, g) => Debits(takes, before) + takes[g]
  }

  lemma {:induction false} DebitsFrom(takes: Groups, order: Order<string>, a: string)
    requires Visited(order) <= takes.Keys && a in Debits(takes, order)
    ensures exists g :: g in Visited(order) && a in takes[g] && Debits(takes, order)[a] == takes[g][a]
  {
    if a !in takes[order.key] { DebitsFrom(takes, order.before, a); }
  }

  /** The debits add up to the payments. */
  lemma {:induction false} DebitsTotal(takes: Groups, chosen: Amounts,
                                       groups: Groups, order: Order<string>)
    requires Once(order) && Visited(order) <= chosen.Keys && Fit(takes, chosen, groups) && Separate(groups)
    ensures TallyAll(Debits(takes, order)) == Tally(chosen, Visited(order))
  {
    if order.Then? {
      var was := Debits(takes, order.before);
      DebitsTotal(takes, chosen, groups, order.before);
      TallyVisited(chosen, order);
      forall a | a in was ensures a !in takes[order.key] { DebitsFrom(takes, order.before, a); }
      TallyUnion(was, takes[order.key]);
    }
  }

  /** Every entry of one map is in the other. */
  ghost predicate Part(a: Amounts, b: Amounts)
  {
    forall k :: k in a ==> k in b && a[k] == b[k]
  }

  lemma PartsEqual(a: Amounts, b: Amounts)
    requires Part(a, b) && Part(b, a)
    ensures a == b
  {
  }

  /** The part of the debits that falls on one group's accounts. */
  ghost function Within(amounts: Amounts, group: Amounts): Amounts
  {
    map a | a in amounts && a in group :: amounts[a]
  }

  lemma {:induction false} DebitsKeep(takes: Groups, chosen: Amounts,
                                      groups: Groups, order: Order<string>, g: string, a: string)
    requires Once(order) && Visited(order) <= chosen.Keys && Fit(takes, chosen, groups) && Separate(groups)
    requires g in Visited(order) && a in takes[g]
    ensures a in Debits(takes, order) && Debits(takes, order)[a] == takes[g][a]
  {
    if g != order.key { DebitsKeep(takes, chosen, groups, order.before, g, a); }
  }

  lemma DebitsOfGroup(takes: Groups, chosen: Amounts, groups: Groups,
                      order: Order<string>, g: string)
    requires Once(order) && Visited(order) <= chosen.Keys && Fit(takes, chosen, groups) && Separate(groups)
    requires g in Visited(order)
    ensures Within(Debits(takes, order), groups[g]) == takes[g]
  {
    TakesKept(takes, chosen, groups, order, g);
    OnlyTakes(takes, chosen, groups, order, g);
    PartsEqual(takes[g], Within(Debits(takes, order), groups[g]));
  }

  lemma OnlyTakes(takes: Groups, chosen: Amounts, groups: Groups, order: Order<string>, g: string)
    requires Once(order) && Visited(order) <= chosen.Keys && Fit(takes, chosen, groups) && Separate(groups)
    requires g in Visited(order)
    ensures Part(Within(Debits(takes, order), groups[g]), takes[g])
  {
    forall a | a in Debits(takes, order) && a in groups[g] ensures a in takes[g] && takes[g][a] == Debits(takes, order)[a] {
      DebitOfGroup(takes, chosen, groups, order, g, a);
      DebitsKeep(takes, chosen, groups, order, g, a);
    }
  }

  lemma TakesKept(takes: Groups, chosen: Amounts, groups: Groups, order: Order<string>, g: string)
    requires Once(order) && Visited(order) <= chosen.Keys && Fit(takes, chosen, groups) && Separate(groups)
    requires g in Visited(order)
    ensures Part(takes[g], Within(Debits(takes, order), groups[g]))
  {
    forall a | a in takes[g] ensures a in Debits(takes, order) && Debits(takes, order)[a] == takes[g][a] && a in groups[g] {
      DebitsKeep(takes, chosen, groups, order, g, a);
    }
  }

  /** A debit on a group's account was taken for that group. */
  lemma DebitOfGroup(takes: Groups, chosen: Amounts, groups: Groups, order: Order<string>, g: string, a: string)
    requires Visited(order) <= chosen.Keys && Fit(takes, chosen, groups) && Separate(groups)
    requires g in Visited(order) && a in Debits(takes, order) && a in groups[g]
    ensures a in takes[g]
  {
    DebitsFrom(takes, order, a);
    var h :| h in Visited(order) && a in takes[h] && Debits(takes, order)[a] == takes[h][a];
    assert FitOne(takes[h], groups[h], chosen[h]);
  }

  lemma {:induction false} DebitsSame(takes: Groups, more: Groups, order: Order<string>)
    requires Visited(order) <= takes.Keys && Visited(order) <= more.Keys
    requires forall g :: g in Visited(order) ==> takes[g] == more[g]
    ensures Debits(takes, order) == Debits(more, order)
  {
    if order.Then? { DebitsSame(takes, more, order.before); }
  }

  lemma DebitsMore(takes: Groups, order: Order<string>, g: string, debits: Amounts)
    requires Visited(order) == takes.Keys && g !in takes
    ensures var more := takes[g := debits];
            more.Keys == Visited(Then(order, g)) && Debits(more, Then(order, g)) == Debits(takes, order) + debits
  {
    DebitsSame(takes, takes[g := debits], order);
  }

  /** Every payment debits its group's accounts; the amounts are all the debits together. */
  method DebitGroups(chosen: Amounts, groups: Groups)
    returns (amounts: Amounts, ghost takes: Groups, ghost order: Order<string>)
    requires chosen.Keys <= groups.Keys && Payable(chosen, groups)
    ensures Once(order) && Visited(order) == chosen.Keys == takes.Keys && amounts == Debits(takes, order)
    ensures Fit(takes, chosen, groups)
  {
    amounts, takes, order := map[], map[], Start;
    var left := chosen.Keys;
    while left != {}
      invariant Visited(order) + left == chosen.Keys && Visited(order) !! left && Once(order)
      invariant takes.Keys == Visited(order) && amounts == Debits(takes, order)
      invariant FitAll(takes, chosen, groups)
      decreases |left|
    {
      var g := Pick(left);
      var debits := TakeAll(groups[g], chosen[g]);
      Visit(order, g, left);
      DebitsMore(takes, order, g, debits);
      amounts := amounts + debits;
      FitMore(takes, chosen, groups, g, debits);
      takes := takes[g := debits];
      order := Then(order, g);
      left := left - {g};
    }
    assert Visited(order) == chosen.Keys;
  }

  lemma FitMore(takes: Groups, chosen: Amounts, groups: Groups,
                g: string, debits: Amounts)
    requires FitAll(takes, chosen, groups) && g in chosen && g in groups && FitOne(debits, groups[g], chosen[g])
    ensures FitAll(takes[g := debits], chosen, groups)
  {
  }

  ghost predicate FitOne(debits: Amounts, group: Amounts, amount: int)
  {
    debits == Takes(group, amount) && TallyAll(debits) == amount && forall a :: a in debits ==> a in group && 0 < debits[a] <= group[a]
  }

  /** An amount the group is owed leaves nothing over. */
  method TakeAll(owed: Amounts, amount: nat) returns (debits: Amounts)
    requires NoDebt(owed) && amount <= TallyAll(owed)
    ensures FitOne(debits, owed, amount)
  {
    var rest;
    debits, rest := TakeFrom(owed, amount);
    TakesExactly(owed, amount);
    assert rest == 0;
  }

  /** What each group is owed. */
  ghost function Totals(groups: Groups): Amounts
  {
    map g | g in groups :: TallyAll(groups[g])
  }

  method GroupTotals(groups: Groups) returns (owed: Amounts)
    ensures owed == Totals(groups)
  {
    owed := map[];
    var left := groups.Keys;
    while left != {}
      invariant owed.Keys == groups.Keys - left && left <= groups.Keys
      invariant forall g :: g in owed ==> owed[g] == TallyAll(groups[g])
      decreases |left|
    {
      var g := Pick(left);
      var total := SumOf(groups[g]);
      owed := owed[g := total];
      left := left - {g};
    }
  }

  /** Groups in ascending order were served from the funding, and then change was lifted to the dust limit. */
  ghost predicate PaidInTurn(paid: Amounts, groups: Groups, funding: int, minimum: int, dust: int)
  {
    exists chosen: Amounts, remaining: int ::
      && Selected(chosen, remaining, Sorted(groups.Keys), Totals(groups), funding, minimum)
      && Adjusted(paid, chosen, remaining, dust, minimum)
  }

  lemma PaidUnique(p: Amounts, q: Amounts, groups: Groups, funding: int, minimum: int, dust: int)
    requires PaidInTurn(p, groups, funding, minimum, dust) && PaidInTurn(q, groups, funding, minimum, dust)
    ensures p == q
  {
    var keys, owed := Sorted(groups.Keys), Totals(groups);
    var a, rest :| Selected(a, rest, keys, owed, funding, minimum) && Adjusted(p, a, rest, dust, minimum);
    var b, left :| Selected(b, left, keys, owed, funding, minimum) && Adjusted(q, b, left, dust, minimum);
    SelectedUnique(a, rest, b, left, keys, owed, funding, minimum);
    AdjustedUnique(p, q, a, rest, dust, minimum);
  }

  /** One group's part of the debits. */
  ghost predicate DebitedBy(amounts: Amounts, group: Amounts, payment: int)
  {
    Within(amounts, group) == Takes(group, payment) && TallyAll(Within(amounts, group)) == payment
  }

  /** The debits fall on the accounts of paid groups only, and pay each group. */
  ghost predicate DebitsPay(amounts: Amounts, paid: Amounts, groups: Groups)
  {
    && paid.Keys <= groups.Keys
    && (forall g :: g in paid ==> DebitedBy(amounts, groups[g], paid[g]))
    && (forall a :: a in amounts ==> exists g :: g in paid && a in groups[g] && 0 < amounts[a] <= groups[g][a])
  }

  /** A payment run's division of its funding: at most 128 groups, each paid in its turn between the minimum
      and what it is owed; the debits within a group fall on its accounts in ascending order, add up to its
      payment and take no account below zero; and what is not paid out is nothing or a relayable change. */
  ghost predicate Division(amounts: Amounts, paid: Amounts, groups: Groups,
                           funding: int, minimum: int, dust: int)
  {
    && |paid| <= MAX_GROUPS && PaidInTurn(paid, groups, funding, minimum, dust)
    && DebitsPay(amounts, paid, groups)
    && (forall g :: g in paid ==> minimum <= paid[g] <= TallyAll(groups[g]))
    && TallyAll(amounts) == TallyAll(paid)
    && Relayable(funding - TallyAll(amounts), dust)
  }

  /** The funding can be divided in one way only, whatever the order in which the groups are debited. */
  lemma DivisionUnique(a: Amounts, p: Amounts, b: Amounts, q: Amounts, groups: Groups, funding: int, minimum: int,
                       dust: int)
    requires Division(a, p, groups, funding, minimum, dust) && Division(b, q, groups, funding, minimum, dust)
    ensures a == b && p == q
  {
    PaidUnique(p, q, groups, funding, minimum, dust);
    DebitsUnique(a, b, p, groups);
  }

  lemma DebitsUnique(a: Amounts, b: Amounts, paid: Amounts, groups: Groups)
    requires DebitsPay(a, paid, groups) && DebitsPay(b, paid, groups)
    ensures a == b
  {
    DebitsAgree(a, b, paid, groups);
    DebitsAgree(b, a, paid, groups);
    PartsEqual(a, b);
  }

  lemma DebitsAgree(a: Amounts, b: Amounts, paid: Amounts, groups: Groups)
    requires DebitsPay(a, paid, groups) && DebitsPay(b, paid, groups)
    ensures Part(a, b)
  {
    forall k | k in a ensures k in b && a[k] == b[k] {
      var g :| g in paid && k in groups[g] && 0 < a[k] <= groups[g][k];
      assert k in Within(a, groups[g]) && Within(a, groups[g]) == Within(b, groups[g]);
    }
  }

  ghost predicate Worthwhile(groups: Groups, minimum: int)
  {
    forall g :: g in groups ==> NoDebt(groups[g]) && TallyAll(groups[g]) >= minimum
  }

  method ChooseGroups(groups: Groups, funding: nat, minimum: int, dust: int) returns (paid: Amounts)
    requires Worthwhile(groups, minimum) && groups != map[] && 0 < dust <= minimum <= funding
    ensures |paid| <= MAX_GROUPS && paid.Keys <= groups.Keys
    ensures PaidInTurn(paid, groups, funding, minimum, dust)
    ensures forall g :: g in paid ==> minimum <= paid[g] <= TallyAll(groups[g])
    ensures Relayable(funding - TallyAll(paid), dust)
  {
    var owed := GroupTotals(groups);
    var keys := SortKeys(groups.Keys);
    AscendingDistinct(keys);
    var chosen, remaining := SelectGroups(keys, owed, funding, minimum);
    ChosenFit(chosen, remaining, keys, owed, funding, minimum);
    var adjusted := LiftChange(chosen, remaining, dust, minimum);
    AdjustedRelays(adjusted.value, chosen, remaining, dust, minimum);
    paid := adjusted.value;
  }

  lemma ChosenFit(chosen: Amounts, remaining: int, keys: seq<string>, owed: Amounts, funding: nat, minimum: int)
    requires Distinct(keys) && NoDebt(owed) && keys != [] && 0 < minimum <= funding
    requires Selected(chosen, remaining, keys, owed, funding, minimum)
    requires forall k :: k in owed ==> owed[k] >= minimum
    ensures chosen.Keys <= owed.Keys && 0 < |chosen| <= MAX_GROUPS && remaining >= 0
    ensures TallyAll(chosen) + remaining == funding
    ensures forall k :: k in chosen ==> minimum <= chosen[k] <= owed[k]
  {
    FirstVisits(keys, |chosen|);
    ServeTotal(First(keys, |chosen|), owed, funding);
    forall k | k in chosen ensures minimum <= chosen[k] <= owed[k] {
      ServeEach(First(keys, |chosen|), owed, funding, minimum, k);
    }
  }

  /** From funding to debits. */
  method DivideFunding(groups: Groups, funding: nat, minimum: int, dust: int)
    returns (amounts: Amounts, paid: Amounts)
    requires Worthwhile(groups, minimum) && Separate(groups) && groups != map[] && 0 < dust <= minimum <= funding
    ensures Division(amounts, paid, groups, funding, minimum, dust)
  {
    paid := ChooseGroups(groups, funding, minimum, dust);
    ghost var order, takes;
    amounts, takes, order := DebitGroups(paid, groups);
    DebitsDivide(takes, paid, groups, order);
  }

  /** The debits of all groups together. */
  lemma DebitsDivide(takes: Groups, chosen: Amounts, groups: Groups, order: Order<string>)
    requires Once(order) && Visited(order) == chosen.Keys && Fit(takes, chosen, groups) && Separate(groups)
    ensures var amounts := Debits(takes, order);
            TallyAll(amounts) == TallyAll(chosen) && DebitsPay(amounts, chosen, groups)
  {
    var amounts := Debits(takes, order);
    DebitsTotal(takes, chosen, groups, order);
    forall g | g in chosen ensures DebitedBy(amounts, groups[g], chosen[g]) {
      DebitsOfGroup(takes, chosen, groups, order, g);
    }
    forall a | a in amounts ensures exists g :: g in chosen && a in groups[g] && 0 < amounts[a] <= groups[g][a] {
      DebitsFrom(takes, order, a);
    }
  }
}
