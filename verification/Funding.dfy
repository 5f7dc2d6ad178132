/** Choosing the coins a payment spends: largest first, never a reserved one, within the input bound. */
module Funding {
  import opened Outcomes
  import opened Tallies
  import Sorting

  const MATURE: int := 120
  const POOL_INPUTS: nat := 63
  const ALL_INPUTS: nat := 64

  datatype Outpoint = Outpoint(txid: string, vout: nat)

  datatype Coin = Coin(point: Outpoint, value: int, confirmations: int)

  datatype Role = Pool | Fees

  /** What a selection looks for and what it may touch. `ours` are the transactions of earlier payments. */
  datatype Want = Want(role: Role, needed: int, dust: int, reserved: set<Outpoint>, allowed: set<Outpoint>, ours: set<string>)

  // ---- Largest coins first ----

  predicate Earlier(a: Coin, b: Coin)
  {
    a.value > b.value ||
    (a.value == b.value && (Less(a.point.txid, b.point.txid) || (a.point.txid == b.point.txid && a.point.vout <= b.point.vout)))
  }

  ghost predicate Ordered(coins: seq<Coin>)
  {
    forall i, j :: 0 <= i < j < |coins| ==> Earlier(coins[i], coins[j])
  }

  lemma EarlierTotal(a: Coin, b: Coin)
    ensures Earlier(a, b) || Earlier(b, a)
  {
    LessTotal(a.point.txid, b.point.txid);
  }

  lemma EarlierTransitive(a: Coin, b: Coin, c: Coin)
    requires Earlier(a, b) && Earlier(b, c)
    ensures Earlier(a, c)
  {
    if Less(a.point.txid, b.point.txid) && Less(b.point.txid, c.point.txid) {
      LessTransitive(a.point.txid, b.point.txid, c.point.txid);
    }
  }

  function SortCoins(coins: seq<Coin>): seq<Coin>
  {
    Sorting.Sort(coins, Earlier)
  }

  /** The order coins are tried in is the node's list, sorted. */
  lemma SortCoinsOrders(coins: seq<Coin>)
    ensures Ordered(SortCoins(coins)) && multiset(SortCoins(coins)) == multiset(coins)
  {
    forall a, b ensures Earlier(a, b) || Earlier(b, a) { EarlierTotal(a, b); }
    forall a, b, c | Earlier(a, b) && Earlier(b, c) ensures Earlier(a, c) { EarlierTransitive(a, b, c); }
    Sorting.SortSorts(coins, Earlier);
  }

  // ---- Gathering ----

  /** Not reserved by any earlier payment; for miners' funds, also an output known to be theirs. */
  predicate Considered(c: Coin, want: Want)
  {
    c.point !in want.reserved && (want.role == Pool ==> c.point in want.allowed)
  }

  predicate Mature(c: Coin, want: Want)
  {
    want.role == Fees || c.confirmations >= MATURE || c.point.txid in want.ours
  }

  predicate Enough(gathered: int, want: Want)
  {
    gathered >= want.needed && (want.role == Pool || gathered == want.needed || gathered - want.needed >= want.dust)
  }

  /** The coins that may be spent, in order. */
  function Usable(coins: seq<Coin>, want: Want): seq<Coin>
  {
    if coins == [] then []
    else if Considered(coins[0], want) && Mature(coins[0], want) then [coins[0]] + Usable(coins[1..], want)
    else Usable(coins[1..], want)
  }

  function Worth(coins: seq<Coin>): int
  {
    if coins == [] then 0 else coins[0].value + Worth(coins[1..])
  }

  lemma {:induction false} WorthAppend(coins: seq<Coin>, c: Coin)
    ensures Worth(coins + [c]) == Worth(coins) + c.value
  {
    if coins == [] {
      assert coins + [c] == [c];
    } else {
      WorthAppend(coins[1..], c);
      assert (coins + [c])[1..] == coins[1..] + [c];
    }
  }

  /** No shorter nonempty selection would have been enough. */
  ghost predicate Shortest(picked: seq<Coin>, want: Want)
  {
    forall m :: 0 < m < |picked| ==> !Enough(Worth(picked[..m]), want)
  }

  lemma ShortestMore(picked: seq<Coin>, c: Coin, want: Want)
    requires Shortest(picked, want) && (picked == [] || !Enough(Worth(picked), want))
    ensures Shortest(picked + [c], want)
  {
    forall m | 0 < m < |picked + [c]| ensures !Enough(Worth((picked + [c])[..m]), want) {
      assert (picked + [c])[..m] == picked[..m];
      if m == |picked| { assert picked[..m] == picked; }
    }
  }

  ghost predicate AllPositive(coins: seq<Coin>)
  {
    forall i :: 0 <= i < |coins| ==> coins[i].value > 0
  }

  /** The selection is the shortest run of usable coins that is enough, or, when none is, as many as
      there are or as there is room for. */
  ghost predicate Gathered(picked: seq<Coin>, coins: seq<Coin>, want: Want, room: nat)
  {
    && picked <= Usable(coins, want)
    && |picked| <= room
    && AllPositive(picked)
    && Shortest(picked, want)
    && (picked == Usable(coins, want) || |picked| == room || (picked != [] && Enough(Worth(picked), want)))
  }

  /** The selection so far is what the first i coins give, and is not enough yet. */
  ghost predicate Gathering(picked: seq<Coin>, coins: seq<Coin>, i: nat, want: Want, room: nat)
  {
    && i <= |coins| && Usable(coins, want) == picked + Usable(coins[i..], want)
    && AllPositive(picked) && |picked| <= room && Shortest(picked, want)
    && (picked == [] || !Enough(Worth(picked), want))
  }

  lemma GatherStart(coins: seq<Coin>, want: Want, room: nat)
    ensures Gathering([], coins, 0, want, room)
  {
    assert coins[0..] == coins;
  }

  lemma GatherSkip(picked: seq<Coin>, coins: seq<Coin>, i: nat, want: Want, room: nat)
    requires Gathering(picked, coins, i, want, room) && i < |coins| && !(Considered(coins[i], want) && Mature(coins[i], want))
    ensures Gathering(picked, coins, i + 1, want, room)
  {
    assert coins[i..][1..] == coins[i + 1..];
  }

  lemma GatherTake(picked: seq<Coin>, coins: seq<Coin>, i: nat, want: Want, room: nat)
    requires Gathering(picked, coins, i, want, room) && i < |coins| && Considered(coins[i], want) && Mature(coins[i], want)
    requires coins[i].value > 0 && |picked| < room
    ensures Worth(picked + [coins[i]]) == Worth(picked) + coins[i].value
    ensures if Enough(Worth(picked + [coins[i]]), want) then Gathered(picked + [coins[i]], coins, want, room)
            else Gathering(picked + [coins[i]], coins, i + 1, want, room)
  {
    WorthAppend(picked, coins[i]);
    ShortestMore(picked, coins[i], want);
    UsableNext(picked, coins, i, want);
  }

  lemma UsableNext(picked: seq<Coin>, coins: seq<Coin>, i: nat, want: Want)
    requires i < |coins| && Considered(coins[i], want) && Mature(coins[i], want)
    requires Usable(coins, want) == picked + Usable(coins[i..], want)
    ensures Usable(coins, want) == picked + [coins[i]] + Usable(coins[i + 1..], want)
  {
    assert coins[i..][1..] == coins[i + 1..];
  }

  lemma GatherEnd(picked: seq<Coin>, coins: seq<Coin>, i: nat, want: Want, room: nat)
    requires Gathering(picked, coins, i, want, room) && (i == |coins| || |picked| == room)
    ensures Gathered(picked, coins, want, room)
  {
  }

  /** Selection over coins in order. It fails only on a coin whose amount is not positive. */
  method Gather(coins: seq<Coin>, want: Want, room: nat) returns (r: Result<seq<Coin>>)
    ensures AllPositive(coins) ==> r.Ok?
    ensures r.Ok? ==> Gathered(r.value, coins, want, room)
  {
    var picked: seq<Coin> := [];
    var gathered := 0;
    GatherStart(coins, want, room);
    var i := 0;
    while i < |coins|
      invariant 0 <= i <= |coins| && gathered == Worth(picked) && Gathering(picked, coins, i, want, room)
    {
      if Considered(coins[i], want) && coins[i].value <= 0 { return Refused; }
      var done;
      picked, gathered, done := TryCoin(picked, gathered, coins, i, want, room);
      if done { return Ok(picked); }
      i := i + 1;
    }
    GatherEnd(picked, coins, i, want, room);
    r := Ok(picked);
  }

  /** The next coin is taken if it may be and there is room; the selection is done once it is enough, or full. */
  method TryCoin(picked: seq<Coin>, gathered: int, coins: seq<Coin>, i: nat, want: Want, room: nat)
    returns (more: seq<Coin>, total: int, done: bool)
    requires i < |coins| && gathered == Worth(picked) && Gathering(picked, coins, i, want, room)
    requires Considered(coins[i], want) ==> coins[i].value > 0
    ensures total == Worth(more)
    ensures if done then Gathered(more, coins, want, room) else Gathering(more, coins, i + 1, want, room)
  {
    if !(Considered(coins[i], want) && Mature(coins[i], want)) {
      GatherSkip(picked, coins, i, want, room);
      return picked, gathered, false;
    }
    if |picked| >= room {
      GatherEnd(picked, coins, i, want, room);
      return picked, gathered, true;
    }
    GatherTake(picked, coins, i, want, room);
    more, total := picked + [coins[i]], gathered + coins[i].value;
    done := Enough(total, want);
  }

  // ---- What a selection guarantees ----

  lemma {:induction false} UsableOnly(coins: seq<Coin>, want: Want, c: Coin)
    requires c in Usable(coins, want)
    ensures c in coins && Considered(c, want) && Mature(c, want)
  {
    if coins != [] && c in Usable(coins[1..], want) { UsableOnly(coins[1..], want, c); }
  }

  /** Every selected coin came from the list, is unreserved, allowed and mature, and has a positive amount. */
  lemma GatheredOnly(picked: seq<Coin>, coins: seq<Coin>, want: Want, room: nat, c: Coin)
    requires Gathered(picked, coins, want, room) && c in picked
    ensures c in coins && Considered(c, want) && Mature(c, want) && c.value > 0
  {
    UsableOnly(coins, want, c);
  }

  /** The selection is determined by the coins in order, what is wanted and the room. */
  lemma GatheredUnique(a: seq<Coin>, b: seq<Coin>, coins: seq<Coin>, want: Want, room: nat)
    requires Gathered(a, coins, want, room) && Gathered(b, coins, want, room)
    ensures a == b
  {
    assert |a| <= |b| ==> a == b[..|a|];
    assert |b| <= |a| ==> b == a[..|b|];
  }

  lemma PositiveSorted(coins: seq<Coin>)
    ensures AllPositive(coins) ==> AllPositive(SortCoins(coins))
  {
    SortCoinsOrders(coins);
    var sorted := SortCoins(coins);
    forall i | AllPositive(coins) && 0 <= i < |sorted| ensures sorted[i].value > 0 {
      assert sorted[i] in multiset(sorted);
    }
  }
}
