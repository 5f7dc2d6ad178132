/** Maintaining the operator's stake and near-miss entries: choosing coins, signing once, following the chain. */
module IdentityEngine {
  import opened Outcomes
  import opened Orders
  import opened Funding
  import opened IdentityBooks

  const MOST_INPUTS: nat := 64

  datatype Output = Output(n: nat, script: string, units: int)

  datatype Inclusion = Inclusion(block: string, outputs: seq<Output>)

  /** The node's view: the identity's state, its unspent coins, confirmed transactions by identity, and the
      coins that carry miners' incomes. `header` is a near-miss proof for the next height, if there is one. */
  datatype World = World(
    height: int, parent: string, fee: int, dust: int, required: int, staked: int, stakingActive: bool, eligible: bool,
    needsEntry: bool, pendingEntry: bool, header: Option<string>, unspent: seq<Coin>, transactions: map<string, Inclusion>,
    liabilities: set<Outpoint>)

  /** Change of a confirmed transaction, as the node reports it: to the operator's own script, with its amount. */
  function ChangeOf(i: Intent, inclusion: Inclusion, script: string): map<Outpoint, int>
    requires i.signature.Some?
  {
    ChangeUpTo(i, inclusion, script, |inclusion.outputs|)
  }

  function ChangeUpTo(i: Intent, inclusion: Inclusion, script: string, n: nat): map<Outpoint, int>
    requires i.signature.Some? && n <= |inclusion.outputs|
  {
    if n == 0 then map[] else
    var rest, o := ChangeUpTo(i, inclusion, script, n - 1), inclusion.outputs[n - 1];
    if (i.body.kind == Stake && o.n == 0) || o.script != script || o.units <= 0 then rest
    else rest[Outpoint(i.signature.value.txid, o.n) := o.units]
  }

  lemma {:induction false} ChangeHolds(i: Intent, inclusion: Inclusion, script: string, n: nat)
    requires i.signature.Some? && n <= |inclusion.outputs|
    ensures forall p :: p in ChangeUpTo(i, inclusion, script, n) ==> Change(i, p) && ChangeUpTo(i, inclusion, script, n)[p] > 0
  {
    if n > 0 { ChangeHolds(i, inclusion, script, n - 1); }
  }

  /** A confirmed transaction that the node does not give in its recorded block. */
  predicate Astray(i: Intent, w: World)
  {
    i.state == Confirmed &&
    (i.signature.None? || i.signature.value.txid !in w.transactions || i.block != Some(w.transactions[i.signature.value.txid].block))
  }

  /** The change a confirmed transaction returned, with amounts. */
  function Returns(i: Intent, w: World, script: string): map<Outpoint, int>
  {
    if i.state != Confirmed || Astray(i, w) then map[] else ChangeOf(i, w.transactions[i.signature.value.txid], script)
  }

  /** Exactly the manifest's coins and the change of the given confirmed transactions, at the amounts
      recorded for them; an amount the node reports takes precedence. */
  ghost predicate Authorizes(allowed: map<Outpoint, int>, b: Books, ids: set<string>, t: Terms, w: World, script: string)
    requires ids <= b.Keys
  {
    && (forall p :: p in t.funding ==> p in allowed)
    && (forall id, p :: id in ids && p in Returns(b[id], w, script) ==> p in allowed)
    && (forall p :: p in allowed ==> Sourced(p, allowed[p], b, ids, t, w, script))
  }

  ghost predicate Sourced(p: Outpoint, units: int, b: Books, ids: set<string>, t: Terms, w: World, script: string)
    requires ids <= b.Keys
  {
    || (exists id :: id in ids && p in Returns(b[id], w, script) && Returns(b[id], w, script)[p] == units)
    || (p in t.funding && t.funding[p] == units && forall id :: id in ids ==> p !in Returns(b[id], w, script))
  }

  lemma AuthorizesMore(allowed: map<Outpoint, int>, b: Books, ids: set<string>, id: string, t: Terms, w: World, script: string)
    requires id in b && ids <= b.Keys && Authorizes(allowed, b, ids, t, w, script)
    ensures Authorizes(allowed + Returns(b[id], w, script), b, ids + {id}, t, w, script)
  {
    var more := allowed + Returns(b[id], w, script);
    forall p | p in more ensures Sourced(p, more[p], b, ids + {id}, t, w, script) {
      if p in Returns(b[id], w, script) {
        assert id in ids + {id};
      } else {
        assert Sourced(p, allowed[p], b, ids, t, w, script);
      }
    }
  }

  /** The manifest's coins and the change of every confirmed transaction; refused if the node lacks one. */
  method CollectAuthorized(b: Books, t: Terms, w: World, script: string) returns (r: Result<map<Outpoint, int>>)
    ensures r.Refused? <==> exists id :: id in b && Astray(b[id], w)
    ensures r.Ok? ==> Authorizes(r.value, b, b.Keys, t, w, script)
  {
    var allowed := t.funding;
    var keys := Enumerate(b.Keys);
    var n := 0;
    while n < |keys|
      invariant 0 <= n <= |keys|
      invariant Authorizes(allowed, b, Visited(First(keys, n)), t, w, script)
      invariant forall id :: id in Visited(First(keys, n)) ==> !Astray(b[id], w)
    {
      if Astray(b[keys[n]], w) { return Refused; }
      AuthorizesMore(allowed, b, Visited(First(keys, n)), keys[n], t, w, script);
      allowed := allowed + Returns(b[keys[n]], w, script);
      n := n + 1;
    }
    r := Ok(allowed);
  }

  /** Every amount is positive, and every coin is the manifest's or change of a confirmed transaction. */
  lemma AuthorizedOnly(allowed: map<Outpoint, int>, b: Books, t: Terms, w: World, script: string, p: Outpoint)
    requires Authorizes(allowed, b, b.Keys, t, w, script) && p in allowed
    requires forall q :: q in t.funding ==> t.funding[q] > 0
    ensures allowed[p] > 0 && (p in t.funding || exists id :: id in b && b[id].state == Confirmed && Change(b[id], p))
  {
    assert Sourced(p, allowed[p], b, b.Keys, t, w, script);
    if id :| id in b && p in Returns(b[id], w, script) && Returns(b[id], w, script)[p] == allowed[p] {
      var inclusion := w.transactions[b[id].signature.value.txid];
      ChangeHolds(b[id], inclusion, script, |inclusion.outputs|);
    }
  }

  /** The node's coins that are authorized and not held, in the node's order. */
  function Unheld(coins: seq<Coin>, allowed: map<Outpoint, int>, held: set<Outpoint>): (u: seq<Coin>)
    ensures forall c :: c in u <==> c in coins && c.point in allowed && c.point !in held
  {
    if coins == [] then []
    else if coins[0].point in allowed && coins[0].point !in held then [coins[0]] + Unheld(coins[1..], allowed, held)
    else Unheld(coins[1..], allowed, held)
  }

  lemma {:induction false} UnheldMore(coins: seq<Coin>, n: nat, allowed: map<Outpoint, int>, held: set<Outpoint>)
    requires n < |coins|
    ensures Unheld(coins[..n + 1], allowed, held) == Unheld(coins[..n], allowed, held) + Unheld([coins[n]], allowed, held)
    decreases n
  {
    if n > 0 {
      UnheldMore(coins[1..], n - 1, allowed, held);
      assert coins[..n + 1][1..] == coins[1..][..n] && coins[..n][1..] == coins[1..][..n - 1];
    } else {
      assert coins[..1] == [coins[0]] && coins[..0] == [];
    }
  }

  /** Every one of these coins has the amount recorded for it. */
  ghost predicate Valued(coins: seq<Coin>, allowed: map<Outpoint, int>)
  {
    forall k :: 0 <= k < |coins| ==> coins[k].point in allowed && coins[k].value == allowed[coins[k].point]
  }

  function Held(b: Books): set<Outpoint>
  {
    set id, c | id in b && b[id].state != Expired && c in b[id].body.inputs :: c.point
  }

  lemma HeldCovers(b: Books, p: Outpoint)
    requires p !in Held(b)
    ensures forall id :: id in b && b[id].state != Expired ==> !Spends(b[id], p)
  {
    forall id, k | id in b && b[id].state != Expired && 0 <= k < |b[id].body.inputs| ensures b[id].body.inputs[k].point in Held(b) {
      assert b[id].body.inputs[k] in b[id].body.inputs;
    }
  }

  method ListUnheld(coins: seq<Coin>, allowed: map<Outpoint, int>, held: set<Outpoint>) returns (r: Result<seq<Coin>>)
    ensures r.Ok? <==> Valued(Unheld(coins, allowed, held), allowed)
    ensures r.Ok? ==> r.value == Unheld(coins, allowed, held)
  {
    var unheld: seq<Coin> := [];
    var n := 0;
    while n < |coins|
      invariant 0 <= n <= |coins|
      invariant unheld == Unheld(coins[..n], allowed, held) && Valued(unheld, allowed)
    {
      var c := coins[n];
      UnheldMore(coins, n, allowed, held);
      if c.point in allowed && c.point !in held {
        if c.value != allowed[c.point] {
          assert c in Unheld(coins, allowed, held);
          return Refused;
        }
        unheld := unheld + [c];
      }
      n := n + 1;
    }
    assert coins[..n] == coins;
    r := Ok(unheld);
  }

  /** These are the coins that may be spent now: authorized, not held, and of the recorded amount. */
  ghost predicate Offered(coins: seq<Coin>, b: Books, t: Terms, w: World, script: string)
  {
    exists allowed ::
      && Authorizes(allowed, b, b.Keys, t, w, script) && allowed.Keys !! w.liabilities
      && coins == SortCoins(Unheld(w.unspent, allowed, Held(b))) && Valued(Unheld(w.unspent, allowed, Held(b)), allowed)
  }

  /** Why there is no list of coins: a confirmed transaction is missing, a miner's coin is authorized, or an
      authorized coin has another amount. */
  ghost predicate Unaccounted(b: Books, t: Terms, w: World, script: string)
  {
    || (exists id :: id in b && Astray(b[id], w))
    || (exists allowed :: Authorizes(allowed, b, b.Keys, t, w, script) &&
                          !(allowed.Keys !! w.liabilities && Valued(Unheld(w.unspent, allowed, Held(b)), allowed)))
  }

  class Identity {
    const terms: Terms
    const script: string
    var books: Books
    ghost var log: Order<Event>

    /** The books are what the journal's lawful events have built. */
    ghost predicate Valid()
      reads this
    {
      LawfulLog(log, terms) && books == Replay(log) && forall p :: p in terms.funding ==> terms.funding[p] > 0
    }

    constructor (terms: Terms, script: string)
      requires forall p :: p in terms.funding ==> terms.funding[p] > 0
      ensures Valid() && books == map[]
    {
      this.terms, this.script, books, log := terms, script, map[], Start;
    }

    /** Every recorded transaction's inputs lead back to the funding manifest. */
    lemma Holds()
      requires Valid()
      ensures Sound(books, terms)
    {
      RunSound(log, terms);
    }

    method Record(e: Event)
      requires Valid() && Lawful(books, e, terms)
      modifies this
      ensures Valid() && log == Then(old(log), e) && books == Apply(old(books), e)
    {
      books := Apply(books, e);
      log := Then(log, e);
    }

    /** Where operator coins may come from. */
    method Authorized(w: World) returns (r: Result<map<Outpoint, int>>)
      ensures r.Ok? ==> Authorizes(r.value, books, books.Keys, terms, w, script) && r.value.Keys !! w.liabilities
      ensures r.Refused? ==>
                || (exists id :: id in books && Astray(books[id], w))
                || (exists allowed :: Authorizes(allowed, books, books.Keys, terms, w, script) && !(allowed.Keys !! w.liabilities))
      ensures (exists id :: id in books && Astray(books[id], w)) ==> r.Refused?
    {
      var collected := CollectAuthorized(books, terms, w, script);
      if collected.Refused? { return Refused; }
      if !(collected.value.Keys !! w.liabilities) { return Refused; }
      r := collected;
    }

    /** The coins that may be spent now, largest first. */
    method Allowed(w: World) returns (r: Result<seq<Coin>>)
      ensures r.Ok? ==> Offered(r.value, books, terms, w, script)
      ensures r.Refused? ==> Unaccounted(books, terms, w, script)
    {
      var allowed := Authorized(w);
      if allowed.Refused? { return Refused; }
      var coins := ListUnheld(w.unspent, allowed.value, Held(books));
      if coins.Refused? { return Refused; }
      r := Ok(SortCoins(coins.value));
    }

    /** Offered coins are in order, free to spend, and positive. */
    lemma OfferedFree(coins: seq<Coin>, w: World)
      requires Valid() && Offered(coins, books, terms, w, script)
      ensures Ordered(coins) && AllPositive(coins) && forall k :: 0 <= k < |coins| ==> Free(books, terms, coins[k].point)
    {
      var allowed :| Authorizes(allowed, books, books.Keys, terms, w, script) && allowed.Keys !! w.liabilities
                     && coins == SortCoins(Unheld(w.unspent, allowed, Held(books)))
                     && Valued(Unheld(w.unspent, allowed, Held(books)), allowed);
      var unheld := Unheld(w.unspent, allowed, Held(books));
      SortCoinsOrders(unheld);
      forall k | 0 <= k < |coins| ensures Free(books, terms, coins[k].point) && coins[k].value > 0 {
        assert coins[k] in multiset(coins);
        assert coins[k] in unheld;
        AuthorizedOnly(allowed, books, terms, w, script, coins[k].point);
        HeldCovers(books, coins[k].point);
      }
    }

    /** The next transaction to make from the coins on offer, if any. */
    method Choose(w: World) returns (r: Result<Option<Body>>)
      requires Valid()
      ensures r.Ok? ==> exists coins :: Offered(coins, books, terms, w, script) && Choice(r.value, coins, w)
      ensures r.Refused? ==> Unaccounted(books, terms, w, script) || 0 != w.staked < w.required
    {
      var coins := Allowed(w);
      if coins.Refused? { return Refused; }
      OfferedFree(coins.value, w);
      if w.staked < w.required {
        if w.staked != 0 { return Refused; }
        var stake := ChooseStake(coins.value, w);
        return Ok(stake);
      }
      var entry := ChooseEntry(coins.value, w);
      r := Ok(entry);
    }

    /** A chosen transaction spends at most 64 coins, all of them free. */
    lemma ChoiceFree(body: Body, coins: seq<Coin>, w: World)
      requires Valid() && Offered(coins, books, terms, w, script) && Choice(Some(body), coins, w)
      ensures |body.inputs| <= MOST_INPUTS
      ensures forall k :: 0 <= k < |body.inputs| ==> Free(books, terms, body.inputs[k].point)
    {
      OfferedFree(coins, w);
      forall k | 0 <= k < |body.inputs| ensures body.inputs[k] in coins {
        if body.kind != NearMiss { GatheredOnly(body.inputs, coins, StakeWant(w), MOST_INPUTS, body.inputs[k]); }
      }
    }

    /** Reserve what is chosen, unless it is already recorded. */
    method Reserve(w: World) returns (r: Result<Option<string>>)
      requires Valid()
      modifies this
      ensures Valid() && Extends(log, old(log))
      ensures r.Refused? || r.value.None? ==> books == old(books)
      ensures r.Refused? ==> Unaccounted(books, terms, w, script) || 0 != w.staked < w.required
      ensures r.Ok? ==> exists coins, chosen ::
                && Offered(coins, old(books), terms, w, script) && Choice(chosen, coins, w)
                && (chosen.None? <==> r.value.None?)
                && (chosen.Some? ==> r.value.value == terms.digest(chosen.value) &&
                                     books == Added(old(books), r.value.value, chosen.value))
    {
      var chosen := Choose(w);
      if chosen.Refused? { return Refused; }
      if chosen.value.None? { return Ok(None); }
      var body := chosen.value.value;
      var id := terms.digest(body);
      ghost var coins :| Offered(coins, books, terms, w, script) && Choice(Some(body), coins, w);
      ChoiceFree(body, coins, w);
      if id !in books { Record(IntentReserved(id, body)); }
      r := Ok(Some(id));
    }

    /** One round: follow the chain; sign a reserved transaction if there is one; wait while a signed one is
        not confirmed; otherwise choose, reserve and sign, and follow the chain again. `first` and `second`
        are the blocks the node finds recorded transactions in at either time. */
    method Maintain(w: World, response: Option<Signature>, first: map<string, string>, second: map<string, string>)
      returns (ok: bool)
      requires Valid()
      modifies this
      ensures Valid() && Extends(log, old(log))
      ensures var b := Followed(old(books), first, w);
              && (InState(b, Reserved) ==>
                    exists id :: id in b && b[id].state == Reserved && books == (if ok then SignedOnce(b, id, response) else b))
              && (!InState(b, Reserved) && InState(b, Signed) ==> ok && books == b)
              && (!InState(b, Reserved) && !InState(b, Signed) ==> Rounds(books, b, response, second, terms, w, script))
    {
      Follow(first, w);
      ghost var followed := log;
      if id :| id in books && books[id].state == Reserved {
        ok := Sign(id, response);
        ExtendsThrough(old(log), followed, log);
        return;
      }
      if exists id :: id in books && books[id].state == Signed { return true; }
      ok := Round(w, response, second);
      ExtendsThrough(old(log), followed, log);
    }

    /** Choose, reserve, sign and follow the chain. */
    method Round(w: World, response: Option<Signature>, found: map<string, string>) returns (ok: bool)
      requires Valid()
      modifies this
      ensures Valid() && Extends(log, old(log))
      ensures Rounds(books, old(books), response, found, terms, w, script)
    {
      var id := Reserve(w);
      if id.Refused? { return false; }
      if id.value.None? { return true; }
      ghost var reserved := log;
      ok := Sign(id.value.value, response);
      if ok {
        ghost var signed := log;
        Follow(found, w);
        ExtendsThrough(reserved, signed, log);
      }
      ExtendsThrough(old(log), reserved, log);
    }

    /** Sign once: a transaction that has a signature keeps it. */
    method Sign(id: string, response: Option<Signature>) returns (ok: bool)
      requires Valid() && id in books
      modifies this
      ensures Valid() && Extends(log, old(log))
      ensures ok <==> old(books)[id].signature.Some? || Signs(response, terms)
      ensures books == if ok then SignedOnce(old(books), id, response) else old(books)
    {
      if books[id].signature.Some? { return true; }
      if !Signs(response, terms) { return false; }
      Record(IntentSigned(id, response.value));
      ok := true;
    }

    /** Follow one signed transaction: confirmed, expired once its parent or height has passed, or back to
        signed. Its body and signature stay as they are. */
    method Reconcile(id: string, found: Option<string>, w: World)
      requires Valid() && id in books
      modifies this
      ensures Valid() && Extends(log, old(log))
      ensures books == old(books)[id := Reconciled(old(books)[id], found, w)]
    {
      var i := books[id];
      if i.signature.None? {
        assert books == books[id := i];
        return;
      }
      if found.Some? {
        if i.state != Confirmed { Record(StateMoved(id, Confirmed, found)); }
      } else if Outdated(i.body, w) {
        if i.state != Expired { Record(StateMoved(id, Expired, None)); }
      } else if i.state == Confirmed {
        Record(StateMoved(id, Signed, None));
      }
    }

    method FollowNext(keys: seq<string>, n: nat, found: map<string, string>, w: World, ghost b: Books, ghost earlier: Order<Event>)
      requires Valid() && Extends(log, earlier) && n < |keys| && keys[n] in b && Visited(First(keys, n)) <= b.Keys
      requires books == FollowedIn(b, First(keys, n), found, w)
      modifies this
      ensures Valid() && Extends(log, earlier) && Visited(First(keys, n + 1)) <= b.Keys
      ensures books == FollowedIn(b, First(keys, n + 1), found, w)
    {
      ghost var before := log;
      Reconcile(keys[n], FoundAt(found, keys[n]), w);
      ExtendsThrough(earlier, before, log);
    }

    /** Every recorded transaction is followed once. */
    method Follow(found: map<string, string>, w: World)
      requires Valid()
      modifies this
      ensures Valid() && Extends(log, old(log)) && books == Followed(old(books), found, w)
    {
      var keys := Enumerate(books.Keys);
      ghost var b := books;
      var n := 0;
      while n < |keys|
        invariant 0 <= n <= |keys| && Valid() && Extends(log, old(log))
        invariant books == FollowedIn(b, First(keys, n), found, w)
      {
        FollowNext(keys, n, found, w, b, old(log));
        n := n + 1;
      }
      FollowedWhole(b, First(keys, |keys|), found, w);
    }
  }

  function FoundAt(found: map<string, string>, id: string): Option<string>
  {
    if id in found then Some(found[id]) else None
  }

  function Moved(i: Intent, state: State, block: Option<string>): Intent
  {
    i.(state := state, block := block, confirmedOnce := i.confirmedOnce || state == Confirmed,
       expiredOnce := i.expiredOnce || state == Expired)
  }

  /** A transaction found in a block is confirmed; one that is not is expired once outdated, and otherwise no
      longer confirmed. */
  function Reconciled(i: Intent, found: Option<string>, w: World): Intent
  {
    if i.signature.None? then i
    else if found.Some? then if i.state == Confirmed then i else Moved(i, Confirmed, found)
    else if Outdated(i.body, w) then if i.state == Expired then i else Moved(i, Expired, None)
    else if i.state == Confirmed then Moved(i, Signed, None) else i
  }

  /** Following one transaction keeps live transactions apart exactly unless it comes back from expiry, found
      in a block, while another holds its coin. */
  lemma ReconciledApartIff(b: Books, id: string, found: Option<string>, w: World, t: Terms)
    requires Sound(b, t) && LiveApart(b) && id in b
    ensures LiveApart(b[id := Reconciled(b[id], found, w)]) <==> !(found.Some? && b[id].state == Expired && Contested(b, id))
  {
    var i := b[id];
    assert GoodIntent(id, i, t);
    var state := if found.Some? then Confirmed else if Outdated(i.body, w) then Expired else Signed;
    if Reconciled(i, found, w) == i {
      assert b[id := i] == b;
    } else {
      ApplyApartIff(b, StateMoved(id, state, found), t);
      assert Apply(b, StateMoved(id, state, found)) == b[id := Reconciled(i, found, w)];
    }
  }

  function Followed(b: Books, found: map<string, string>, w: World): Books
  {
    map id | id in b :: Reconciled(b[id], FoundAt(found, id), w)
  }

  /** The books after following the visited transactions one by one. */
  ghost function FollowedIn(b: Books, order: Order<string>, found: map<string, string>, w: World): (after: Books)
    requires Visited(order) <= b.Keys
    ensures after.Keys == b.Keys
  {
    match order
    case Start => b
    case Then(before, id) =>
      var prior := FollowedIn(b, before, found, w);
      prior[id := Reconciled(prior[id], FoundAt(found, id), w)]
  }

  lemma {:induction false} FollowedAll(b: Books, order: Order<string>, found: map<string, string>, w: World)
    requires Once(order) && Visited(order) <= b.Keys
    ensures forall id :: id in b ==>
              FollowedIn(b, order, found, w)[id] == if id in Visited(order) then Reconciled(b[id], FoundAt(found, id), w) else b[id]
  {
    if order.Then? { FollowedAll(b, order.before, found, w); }
  }

  lemma FollowedWhole(b: Books, order: Order<string>, found: map<string, string>, w: World)
    requires Once(order) && Visited(order) == b.Keys
    ensures FollowedIn(b, order, found, w) == Followed(b, found, w)
  {
    FollowedAll(b, order, found, w);
  }

  predicate Signs(response: Option<Signature>, t: Terms)
  {
    response.Some? && 0 < |response.value.raw| <= 1048576 && t.hash(response.value.raw) == response.value.txid
  }

  function SignedOnce(b: Books, id: string, response: Option<Signature>): Books
    requires id in b
  {
    if b[id].signature.Some? || response.None? then b else b[id := b[id].(signature := response, state := Signed)]
  }

  predicate InState(b: Books, state: State)
  {
    exists id :: id in b && b[id].state == state
  }

  function Added(b: Books, id: string, body: Body): (added: Books)
    ensures id in added
  {
    if id in b then b else b[id := Intent(body, Reserved, None, None, false, false)]
  }

  /** A near-miss entry is bound to one height and parent. */
  predicate Outdated(body: Body, w: World)
  {
    body.kind == NearMiss && (body.height != w.height + 1 || body.parent != w.parent)
  }

  /** What a round leaves of the books: nothing new, because no coins can be listed, the stake is partial or no
      transaction is due; or the chosen transaction, signed and followed if the signer answers. */
  ghost predicate Rounds(after: Books, b: Books, response: Option<Signature>, found: map<string, string>, t: Terms, w: World,
                         script: string)
  {
    || (after == b && (Unaccounted(b, t, w, script) || 0 != w.staked < w.required))
    || (exists coins, chosen :: Offered(coins, b, t, w, script) && Choice(chosen, coins, w) &&
                                after == if chosen.None? then b else Made(b, chosen.value, response, found, t, w))
  }

  function Made(b: Books, body: Body, response: Option<Signature>, found: map<string, string>, t: Terms, w: World): Books
  {
    var id := t.digest(body);
    var added := Added(b, id, body);
    if added[id].signature.Some? || Signs(response, t) then Followed(SignedOnce(added, id, response), found, w) else added
  }

  function StakeWant(w: World): Want
  {
    Want(Fees, w.required + w.fee, w.dust, {}, {}, {})
  }

  predicate EntryDue(w: World)
  {
    w.eligible && w.needsEntry && !w.pendingEntry && w.header.Some?
  }

  /** The largest coins, as few as cover stake and fee, or as many as there are or as fit. */
  ghost predicate StakeFrom(selected: seq<Coin>, coins: seq<Coin>, w: World)
  {
    Gathered(selected, coins, StakeWant(w), MOST_INPUTS)
  }

  /** Without a stake, once staking is active: a stake when the coins cover it and the fee, a consolidation when
      two or more do not. With one: an entry when it is due and a proof exists, over the smallest coin that
      pays twice the fee without leaving dust. Otherwise nothing. */
  ghost predicate Choice(chosen: Option<Body>, coins: seq<Coin>, w: World)
  {
    if w.staked < w.required then
      && w.staked == 0
      && if !w.stakingActive then chosen == None
         else exists selected :: StakeFrom(selected, coins, w) && chosen == StakeBody(selected, w)
    else if !EntryDue(w) then chosen == None
    else if chosen.None? then forall k :: 0 <= k < |coins| ==> !Pays(coins[k], 2 * w.fee, w.dust)
    else exists c :: SmallestPaying(c, coins, 2 * w.fee, w.dust)
                     && chosen.value == Body(NearMiss, w.height + 1, w.parent, w.header.value, [c])
  }

  function StakeBody(selected: seq<Coin>, w: World): Option<Body>
  {
    if Worth(selected) >= w.required + w.fee then Some(Body(Stake, w.height + 1, w.parent, "", selected))
    else if |selected| >= 2 then Some(Body(Consolidate, w.height + 1, w.parent, "", selected))
    else None
  }

  ghost predicate SmallestPaying(c: Coin, coins: seq<Coin>, cost: int, dust: int)
  {
    c in coins && Pays(c, cost, dust) && forall k :: 0 <= k < |coins| && Pays(coins[k], cost, dust) ==> Earlier(coins[k], c)
  }

  predicate Pays(c: Coin, cost: int, dust: int)
  {
    c.value >= cost && (c.value == cost || c.value - cost >= dust)
  }

  method ChooseStake(coins: seq<Coin>, w: World) returns (r: Option<Body>)
    requires w.staked == 0 < w.required && AllPositive(coins)
    ensures Choice(r, coins, w)
  {
    if !w.stakingActive { return None; }
    var selected := Gather(coins, StakeWant(w), MOST_INPUTS);
    assert StakeFrom(selected.value, coins, w);
    if Worth(selected.value) >= w.required + w.fee { return Some(Body(Stake, w.height + 1, w.parent, "", selected.value)); }
    if |selected.value| >= 2 { return Some(Body(Consolidate, w.height + 1, w.parent, "", selected.value)); }
    r := None;
  }

  method ChooseEntry(coins: seq<Coin>, w: World) returns (r: Option<Body>)
    requires w.staked >= w.required && Ordered(coins)
    ensures Choice(r, coins, w)
  {
    if !EntryDue(w) { return None; }
    var coin := SmallestFor(coins, 2 * w.fee, w.dust);
    if coin.None? { return None; }
    r := Some(Body(NearMiss, w.height + 1, w.parent, w.header.value, [coin.value]));
  }

  /** The last coin, so the smallest, that pays a cost without leaving dust. */
  method SmallestFor(coins: seq<Coin>, cost: int, dust: int) returns (found: Option<Coin>)
    requires Ordered(coins)
    ensures found.Some? ==> SmallestPaying(found.value, coins, cost, dust)
    ensures found.None? ==> forall k :: 0 <= k < |coins| ==> !Pays(coins[k], cost, dust)
  {
    var n := |coins|;
    while n > 0
      invariant 0 <= n <= |coins| && forall k :: n <= k < |coins| ==> !Pays(coins[k], cost, dust)
    {
      n := n - 1;
      if Pays(coins[n], cost, dust) {
        EarlierTotal(coins[n], coins[n]);
        return Some(coins[n]);
      }
    }
    found := None;
  }
}
