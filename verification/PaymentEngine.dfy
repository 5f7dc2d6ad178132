/** The payment engine: planning, signing and reconciling payments over a journal. */
module PaymentEngine {
  import opened Outcomes
  import opened Orders
  import opened Tallies
  import opened FloorTotals
  import opened Funding
  import opened Payouts
  import opened PaymentBooks
  import opened Entitlements

  datatype Output = Output(n: nat, script: string)

  /** What a planning pass sees: the pool's incomes and accounts, the operator's policy, the clock, and
      the node's answers. `appends` is how many journal appends succeed before one fails. */
  datatype World = World(
    incomes: map<string, Income>, addresses: map<string, string>, faulted: bool, paused: bool, minimum: int, batchSeconds: int,
    now: int, poolCoins: seq<Coin>, feeCoins: seq<Coin>, transactions: map<string, seq<Output>>, appends: nat)

  datatype Planned = Created(id: string) | Waiting | Stopped

  /** The groups a batch still owes. */
  datatype Due = Due(batch: string, minimum: int, groups: Groups)

  datatype Selection = Selection(pool: seq<Coin>, fees: seq<Coin>)

  ghost predicate PolicyInRange(w: World)
  {
    w.minimum >= LEAST_MINIMUM && w.batchSeconds >= 3600
  }

  /** The groups are payable, belong to different accounts, and fit what is left of the batch's quotas. */
  ghost predicate DueFrom(due: Due, batch: Batch, intents: Intents)
  {
    && due.minimum >= LEAST_MINIMUM
    && due.groups != map[] && Worthwhile(due.groups, due.minimum) && Separate(due.groups)
    && forall g, a :: Listed(due.groups, g, a) ==>
         Spent(intents, due.batch, a) + due.groups[g][a] <= Get(batch.quotas, a)
  }

  lemma EligibleIsDue(groups: Groups, quotas: Amounts, minimum: int, destination: map<string, string>)
    requires Eligible(groups, quotas, minimum, destination)
    ensures Worthwhile(groups, minimum) && Separate(groups)
    ensures forall g, a :: Listed(groups, g, a) ==> a in quotas && groups[g][a] == quotas[a] && quotas[a] > 0
  {
    forall g, h | g in groups && h in groups && g != h ensures groups[g].Keys !! groups[h].Keys {
      assert groups[g] == Members(quotas, destination, g) && groups[h] == Members(quotas, destination, h);
    }
    forall g, a | Listed(groups, g, a) ensures a in quotas && groups[g][a] == quotas[a] && quotas[a] > 0 {
      assert groups[g] == Members(quotas, destination, g);
    }
    forall g | g in groups ensures NoDebt(groups[g]) {
      assert groups[g] == Members(quotas, destination, g);
    }
  }

  // ---- Coins that may be spent for miners ----

  ghost predicate IncomeOutput(incomes: map<string, Income>, p: Outpoint)
  {
    exists id :: id in incomes && incomes[id].available && p in incomes[id].outputs
  }

  /** Change this payment returned to the pool's own script, once confirmed. */
  ghost predicate ChangeFrom(intent: Intent, transactions: map<string, seq<Output>>, script: string, p: Outpoint)
  {
    && intent.state == Confirmed && intent.signature.Some? && intent.signature.value.txid == p.txid
    && p.txid in transactions && Output(p.vout, script) in transactions[p.txid]
  }

  ghost predicate ConfirmedChange(intents: Intents, transactions: map<string, seq<Output>>, script: string, p: Outpoint)
  {
    exists id :: id in intents && ChangeFrom(intents[id], transactions, script, p)
  }

  /** A confirmed payment whose transaction the node no longer gives. */
  predicate Unexplained(intent: Intent, transactions: map<string, seq<Output>>)
  {
    intent.state == Confirmed && (intent.signature.None? || intent.signature.value.txid !in transactions)
  }

  /** Exactly the outputs of available income and the confirmed change. */
  ghost predicate Allowed(allowed: set<Outpoint>, w: World, intents: Intents, script: string)
  {
    forall p :: p in allowed <==> IncomeOutput(w.incomes, p) || ConfirmedChange(intents, w.transactions, script, p)
  }

  method AllowedPoints(w: World, intents: Intents, script: string) returns (r: Result<set<Outpoint>>)
    ensures r.Refused? <==> exists id :: id in intents && Unexplained(intents[id], w.transactions)
    ensures r.Ok? ==> Allowed(r.value, w, intents, script)
  {
    var allowed := set id, p | id in w.incomes && w.incomes[id].available && p in w.incomes[id].outputs :: p;
    var keys := Enumerate(intents.Keys);
    var i := 0;
    while i < |keys|
      invariant 0 <= i <= |keys|
      invariant forall j :: 0 <= j < i ==> !Unexplained(intents[keys[j]], w.transactions)
      invariant forall p :: p in allowed ==> IncomeOutput(w.incomes, p) || ConfirmedChange(intents, w.transactions, script, p)
      invariant forall p :: IncomeOutput(w.incomes, p) ==> p in allowed
      invariant forall j, p :: 0 <= j < i && ChangeFrom(intents[keys[j]], w.transactions, script, p) ==> p in allowed
    {
      var intent := intents[keys[i]];
      if intent.state == Confirmed {
        if Unexplained(intent, w.transactions) { return Refused; }
        var txid := intent.signature.value.txid;
        allowed := allowed + set out | out in w.transactions[txid] && out.script == script :: Outpoint(txid, out.n);
      }
      i := i + 1;
    }
    forall id | id in intents ensures id in keys { FirstMember(keys, |keys|, id); }
    r := Ok(allowed);
  }

  method Backing(coins: seq<Coin>, allowed: set<Outpoint>, reserved: set<Outpoint>) returns (total: int)
    ensures total == Worth(Backed(coins, allowed, reserved))
  {
    total := 0;
    var i := |coins|;
    while i > 0
      invariant 0 <= i <= |coins| && total == Worth(Backed(coins[i..], allowed, reserved))
    {
      i := i - 1;
      assert coins[i..] == [coins[i]] + coins[i + 1..];
      if coins[i].point in allowed && coins[i].point !in reserved {
        total := total + coins[i].value;
        assert Backed(coins[i..], allowed, reserved)[1..] == Backed(coins[i + 1..], allowed, reserved);
      }
    }
    assert coins[0..] == coins;
  }

  /** The pool's unreserved coins that carry available income or confirmed change. */
  function Backed(coins: seq<Coin>, allowed: set<Outpoint>, reserved: set<Outpoint>): seq<Coin>
  {
    if coins == [] then []
    else if coins[0].point in allowed && coins[0].point !in reserved then [coins[0]] + Backed(coins[1..], allowed, reserved)
    else Backed(coins[1..], allowed, reserved)
  }

  function Inputs(coins: seq<Coin>, role: Role): seq<Input>
  {
    if coins == [] then [] else [Input(coins[0].point, coins[0].value, role)] + Inputs(coins[1..], role)
  }

  lemma {:induction false} InputUnits(coins: seq<Coin>, role: Role, other: Role)
    ensures |Inputs(coins, role)| == |coins|
    ensures Units(Inputs(coins, role), other) == if other == role then Worth(coins) else 0
    ensures forall k :: 0 <= k < |coins| ==> Inputs(coins, role)[k] == Input(coins[k].point, coins[k].value, role)
  {
    if coins != [] {
      InputUnits(coins[1..], role, other);
      assert Inputs(coins, role)[1..] == Inputs(coins[1..], role);
    }
  }

  lemma {:induction false} UnitsJoin(a: seq<Input>, b: seq<Input>, role: Role)
    ensures Units(a + b, role) == Units(a, role) + Units(b, role)
  {
    if a == [] {
      assert a + b == b;
    } else {
      UnitsJoin(a[1..], b, role);
      assert (a + b)[1..] == a[1..] + b;
    }
  }

  // ---- Recipients ----

  function AddTo(recipients: Amounts, address: string, amount: int): Amounts
  {
    recipients[address := Get(recipients, address) + amount]
  }

  ghost function PayAll(amounts: Amounts, addresses: map<string, string>, order: Order<string>): Amounts
    requires Visited(order) <= amounts.Keys && Visited(order) <= addresses.Keys
  {
    match order
    case Start => map[]
    case Then(before, a) => AddTo(PayAll(amounts, addresses, before), addresses[a], amounts[a])
  }

  ghost function AtAddress(accounts: set<string>, addresses: map<string, string>, address: string): set<string>
  {
    set a | a in accounts && a in addresses && addresses[a] == address
  }

  /** Each address is paid what its accounts are debited. */
  lemma {:induction false} PayAllExact(amounts: Amounts, addresses: map<string, string>, order: Order<string>,
                                       address: string)
    requires Once(order) && Visited(order) <= amounts.Keys && Visited(order) <= addresses.Keys
    ensures Get(PayAll(amounts, addresses, order), address) == Tally(amounts, AtAddress(Visited(order), addresses, address))
    ensures TallyAll(PayAll(amounts, addresses, order)) == Tally(amounts, Visited(order))
  {
    if order.Then? {
      var a, was := order.key, PayAll(amounts, addresses, order.before);
      PayAllExact(amounts, addresses, order.before, address);
      TallyVisited(amounts, order);
      TallyUpdate(was, addresses[a], Get(was, addresses[a]) + amounts[a]);
      var mine := AtAddress(Visited(order), addresses, address);
      if addresses[a] == address {
        TallyRemove(amounts, mine, a);
        assert mine - {a} == AtAddress(Visited(order.before), addresses, address);
      } else {
        assert mine == AtAddress(Visited(order.before), addresses, address);
      }
    }
  }

  /** Payments by address; a payout to the pool itself or to its fee wallet is refused. */
  method PayAddresses(amounts: Amounts, addresses: map<string, string>, own: set<string>) returns (r: Result<Amounts>)
    ensures r.Ok? <==> forall a :: a in amounts ==> a in addresses && addresses[a] !in own
    ensures r.Ok? ==> TallyAll(r.value) == TallyAll(amounts)
    ensures r.Ok? ==> forall address :: Get(r.value, address) == Tally(amounts, AtAddress(amounts.Keys, addresses, address))
  {
    if !(forall a :: a in amounts ==> a in addresses && addresses[a] !in own) { return Refused; }
    var recipients: Amounts := map[];
    var keys := Enumerate(amounts.Keys);
    var i := 0;
    while i < |keys|
      invariant 0 <= i <= |keys| && Visited(First(keys, i)) <= addresses.Keys
      invariant recipients == PayAll(amounts, addresses, First(keys, i))
    {
      recipients := AddTo(recipients, addresses[keys[i]], amounts[keys[i]]);
      i := i + 1;
    }
    forall address ensures Get(recipients, address) == Tally(amounts, AtAddress(amounts.Keys, addresses, address)) {
      PayAllExact(amounts, addresses, First(keys, |keys|), address);
    }
    PayAllExact(amounts, addresses, First(keys, |keys|), "");
    r := Ok(recipients);
  }

  // ---- The engine ----

  /** No account is deducted more than the whole units of its exact available credit. */
  ghost predicate Covered(intents: Intents, incomes: map<string, Income>)
    requires ProperIncomes(incomes)
  {
    forall a :: Deducted(intents, a) <= Credit(incomes, a).Floor
  }

  /** Pool inputs carry available income or confirmed change. */
  ghost predicate FromPool(body: Body, intents: Intents, w: World, script: string)
  {
    forall k :: 0 <= k < |body.inputs| && body.inputs[k].role == Pool ==>
      IncomeOutput(w.incomes, body.inputs[k].point) || ConfirmedChange(intents, w.transactions, script, body.inputs[k].point)
  }

  function ReservedPoints(intents: Intents): set<Outpoint>
  {
    set id, input | id in intents && input in intents[id].body.inputs :: input.point
  }

  function SignedIds(intents: Intents): set<string>
  {
    set id | id in intents && intents[id].signature.Some? :: intents[id].signature.value.txid
  }

  lemma ReservedCovers(intents: Intents, points: set<Outpoint>)
    requires points !! ReservedPoints(intents)
    ensures Unreserved(intents, points)
  {
    forall id, p | id in intents && p in Points(intents[id].body) ensures p !in points {
      assert p in ReservedPoints(intents);
    }
  }

  class Payments {
    const terms: Terms
    const poolScript: string
    const own: set<string>
    var intents: Intents
    var batches: map<string, Batch>
    var paid: int
    var count: int
    var log: Order<Event>

    ghost function Current(): Books
      reads this
    {
      Books(intents, batches, paid, count)
    }

    /** The fields are what replaying the journal gives, and every journalled event was lawful. */
    ghost predicate Valid()
      reads this
    {
      && CollisionFree(terms.digests) && 0 < terms.dust < LEAST_MINIMUM && 0 <= terms.fee
      && LawfulLog(log, terms) && Replay(log) == Some(Current())
    }

    lemma Holds()
      requires Valid()
      ensures Sound(Current(), terms)
    {
      RunSound(log, terms);
    }

    method Write(id: string, intent: Intent)
      modifies this`intents, this`paid, this`count
      ensures Current() == Put(old(Current()), id, intent)
    {
      if id in intents && intents[id].state == Confirmed {
        var was := SumOf(intents[id].body.deductions);
        paid, count := paid - was, count - 1;
      }
      if intent.state == Confirmed {
        var now := SumOf(intent.body.deductions);
        paid, count := paid + now, count + 1;
      }
      intents := intents[id := intent];
    }

    /** One event's effect on the fields. */
    method ApplyEvent(e: Event, number: nat)
      requires Applicable(Current(), e)
      modifies this`intents, this`batches, this`paid, this`count
      ensures Current() == Apply(old(Current()), e, number)
    {
      match e
      case BatchFrozen(id, batch) => batches := batches[id := batch];
      case IntentReserved(id, body) => Write(id, Intent(body, Reserved, None, None, 0, "", number));
      case IntentSigned(id, signature) => Write(id, intents[id].(signature := Some(signature), state := Signed));
      case StateChanged(id, state, hash, height) =>
        var i := intents[id].(state := state, blockHash := hash);
        Write(id, if height.Some? then i.(blockHeight := height.value) else i);
      case Noticed(id, notice) => Write(id, intents[id].(notice := notice));
    }

    /** Start from a journal: apply its events in order. */
    constructor (terms: Terms, poolScript: string, own: set<string>, log: Order<Event>)
      requires CollisionFree(terms.digests) && 0 < terms.dust < LEAST_MINIMUM && 0 <= terms.fee && LawfulLog(log, terms)
      ensures Valid() && this.log == log && this.terms == terms
    {
      this.terms, this.poolScript, this.own := terms, poolScript, own;
      intents, batches, paid, count := map[], map[], 0, 0;
      this.log := log;
      new;
      RunSound(log, terms);
      Load(log);
    }

    method Load(journal: Order<Event>)
      requires Current() == EMPTY && CollisionFree(terms.digests) && LawfulLog(journal, terms)
      modifies this`intents, this`batches, this`paid, this`count
      ensures Replay(journal) == Some(Current())
      decreases journal
    {
      if journal.Then? {
        Load(journal.before);
        ApplyEvent(journal.key, Length(journal));
      }
    }

    /** Append to the journal, then apply. */
    method Record(e: Event)
      requires Valid() && Lawful(Current(), e, terms)
      modifies this
      ensures Valid() && log == Then(old(log), e) && Current() == Apply(old(Current()), e, Length(log))
    {
      log := Then(log, e);
      ApplyEvent(e, Length(log));
    }

    // ---- Planning ----

    ghost predicate Newest(id: string)
      reads this
    {
      id in batches && forall j :: j in batches ==> batches[j].created <= batches[id].created
    }

    /** These are exactly the groups that a batch still owes at least its minimum. */
    ghost predicate Owing(groups: Groups, id: string, w: World)
      requires id in batches
      reads this
    {
      Eligible(groups, Unpaid(id, batches[id], intents), batches[id].minimum, Destinations(batches[id], w.addresses))
    }

    /** The latest batch, if it still owes some group the minimum. */
    method OpenBatch(w: World) returns (r: Result<Option<Due>>)
      requires Valid()
      ensures r.Ok? && r.value.Some? ==>
                r.value.value.batch in batches && DueFrom(r.value.value, batches[r.value.value.batch], intents)
      ensures r.Ok? && r.value.Some? ==> Newest(r.value.value.batch) && Owing(r.value.value.groups, r.value.value.batch, w)
      ensures r.Ok? && r.value.None? ==> batches == map[] || exists id :: id in batches && Newest(id) && Owing(map[], id, w)
      ensures r.Refused? ==> exists id :: id in batches && Newest(id) && !Continues(id, batches[id], intents, w.addresses)
    {
      if batches == map[] { return Ok(None); }
      var id := Latest(batches);
      MinimumHolds(id);
      r := StillOwed(id, batches[id], intents, w.addresses);
    }

    lemma MinimumHolds(id: string)
      requires Valid() && id in batches
      ensures batches[id].minimum >= LEAST_MINIMUM
    {
      Holds();
      assert GoodBatch(id, batches[id], terms);
    }

    /** The interval between batches has passed since every batch and payment. */
    ghost predicate Rested(w: World, earlier: map<string, Batch>)
      reads this
    {
      && (forall j :: j in earlier ==> w.now - earlier[j].created >= w.batchSeconds)
      && (forall i :: i in intents ==> w.now - intents[i].body.created >= w.batchSeconds)
    }

    /** Freeze a new batch of everything payable to destinations that reach the minimum, unless the last
        batch or payment is too recent. */
    method FreezeBatch(w: World, available: Amounts) returns (r: Result<Option<Due>>)
      requires Valid() && PolicyInRange(w)
      modifies this
      ensures Valid() && intents == old(intents) && Extends(log, old(log))
      ensures r.Ok? && r.value.Some? ==>
                r.value.value.batch in batches && DueFrom(r.value.value, batches[r.value.value.batch], intents)
      ensures r.Ok? && r.value.Some? ==>
                && r.value.value.batch !in old(batches) && batches[r.value.value.batch].created == w.now
                && Rested(w, old(batches)) && Eligible(r.value.value.groups, available, w.minimum, w.addresses)
      ensures r.Ok? && r.value.None? ==> !Rested(w, batches) || Eligible(map[], available, w.minimum, w.addresses)
      ensures r.Refused? || r.value.None? ==> log == old(log)
    {
      if exists id :: id in intents && w.now - intents[id].body.created < w.batchSeconds { return Ok(None); }
      if exists id :: id in batches && w.now - batches[id].created < w.batchSeconds { return Ok(None); }
      var composed := ComposeBatch(w, available);
      if composed.Refused? { return Refused; }
      if composed.value.None? { return Ok(None); }
      var draft := composed.value.value;
      if w.appends == 0 { return Refused; }
      var id := terms.digests.batch(draft.batch);
      NewBatchFresh(draft.batch, w.batchSeconds);
      forall a ensures Spent(intents, id, a) == 0 { NewBatchUnspent(id, a); }
      Record(BatchFrozen(id, draft.batch));
      r := Ok(Some(Due(id, w.minimum, draft.groups)));
    }

    lemma NewBatchFresh(batch: Batch, seconds: int)
      requires Valid() && seconds > 0 && forall id :: id in batches ==> batch.created - batches[id].created >= seconds
      ensures terms.digests.batch(batch) !in batches
    {
      Holds();
    }

    lemma NewBatchUnspent(id: string, a: string)
      requires Valid() && id !in batches
      ensures Spent(intents, id, a) == 0
    {
      Holds();
      forall i | i in intents ensures intents[i].body.batch != id { assert GoodIntent(i, intents[i], Current(), terms); }
      NoneSpent(intents, id, a);
    }

    /** The payment spends the coins chosen for a batch's dues and divides them among the accounts due. */
    ghost predicate PlannedFrom(body: Body, w: World, before: Intents, frozen: map<string, Batch>)
    {
      exists due: Due, available: Amounts ::
        && body.created == w.now && body.batch == due.batch && due.batch in frozen && DueFrom(due, frozen[due.batch], before)
        && Composed(body, w, before, due, available, poolScript, terms)
    }

    /** Exactly one payment was added. It leaves every account's deductions within its exact available credit,
        spends income and confirmed change, and pays the accounts' own addresses. */
    ghost predicate Plans(id: string, w: World, before: Intents)
      requires ProperIncomes(w.incomes)
      reads this
    {
      && id !in before && id in intents && intents == before[id := intents[id]] && intents[id].state == Reserved
      && Covered(intents, w.incomes) && FromPool(intents[id].body, before, w, poolScript)
      && Delivers(intents[id].body, w.addresses, own) && PlannedFrom(intents[id].body, w, before, batches)
    }

    /** Plan at most one payment. A created payment leaves every account's deductions within its exact
        available credit, spends only available income, confirmed change and fee coins that no other
        payment holds, and is recorded; nothing else ever changes an earlier payment. */
    method Plan(w: World) returns (r: Planned)
      requires Valid() && PolicyInRange(w) && ProperIncomes(w.incomes)
      modifies this
      ensures Valid() && Extends(log, old(log))
      ensures !r.Created? ==> intents == old(intents)
      ensures r.Created? ==> Plans(r.id, w, old(intents))
      ensures w.faulted || (!w.paused && !Covered(old(intents), w.incomes)) ==> r == Stopped && log == old(log)
      ensures !w.faulted && w.paused ==> r == Waiting && log == old(log)
    {
      if w.faulted { return Stopped; }
      if w.paused { return Waiting; }
      var available := Available(w.incomes, intents);
      if available.Refused? { return Stopped; }
      var due := OpenBatch(w);
      if due.Refused? { return Stopped; }
      var left := w.appends;
      if due.value.None? {
        due := FreezeBatch(w, available.value);
        if due.Refused? { return Stopped; }
        if due.value.None? { return Waiting; }
        left := if left > 0 then left - 1 else 0;
      }
      ghost var frozen := log;
      r := PlanDue(w, available.value, due.value.value, left);
      ExtendsThrough(old(log), frozen, log);
    }

    /** Fund and divide what a batch owes, and reserve the payment. */
    method PlanDue(w: World, available: Amounts, due: Due, appends: nat) returns (r: Planned)
      requires Valid() && ProperIncomes(w.incomes) && due.batch in batches && DueFrom(due, batches[due.batch], intents)
      requires forall a :: Get(available, a) == Credit(w.incomes, a).Floor - Deducted(intents, a) >= 0
      modifies this
      ensures Valid() && Extends(log, old(log))
      ensures !r.Created? ==> intents == old(intents)
      ensures r.Created? ==> Plans(r.id, w, old(intents))
      ensures !r.Created? ==> log == old(log)
      ensures r == Waiting ==> Premature(w, intents, due, available, poolScript, terms)
      ensures r == Stopped && appends > 0 && Legible(w, intents) && Reachable(due.groups, w.addresses, own) ==>
                || !Afforded(due.groups, available) || Unbacked(w, intents, available, poolScript)
                || FeesShort(w, intents, due, poolScript, terms)
    {
      if !Afforded(due.groups, available) { return Stopped; }
      var composed := ComposeBody(w, available, due, intents, poolScript, own, terms);
      if composed.Refused? { return Stopped; }
      if composed.value.None? { return Waiting; }
      if appends == 0 { return Stopped; }
      var id := Reserve(composed.value.value, due, available, w);
      r := Created(id);
    }

    method Reserve(body: Body, due: Due, ghost available: Amounts, ghost w: World) returns (id: string)
      requires Valid() && ProperIncomes(w.incomes) && due.batch in batches && DueFrom(due, batches[due.batch], intents)
      requires PaysDue(body, w, intents, due, available, poolScript, own, terms) && Afforded(due.groups, available)
      requires forall a :: Get(available, a) == Credit(w.incomes, a).Floor - Deducted(intents, a) >= 0
      modifies this
      ensures Valid() && Extends(log, old(log)) && Plans(id, w, old(intents))
    {
      id := terms.digests.intent(body);
      RecordReservation(id, body, due);
      CreditsCover(old(intents), id, intents[id], available, due, w.incomes);
    }

    method RecordReservation(id: string, body: Body, due: Due)
      requires Valid() && due.batch in batches && DueFrom(due, batches[due.batch], intents)
      requires id == terms.digests.intent(body) && body.batch == due.batch
      requires Balanced(body, terms.fee, terms.dust) && WithinGroups(body.deductions, due.groups)
      requires Unreserved(intents, Points(body))
      modifies this
      ensures Valid() && Extends(log, old(log)) && id !in old(intents) && batches == old(batches)
      ensures intents == old(intents)[id := Intent(body, Reserved, None, None, 0, "", Length(log))]
    {
      Holds();
      forall a ensures Spent(intents, due.batch, a) >= 0 { SpentNonnegative(Current(), terms, due.batch, a); }
      QuotasAllow(body, due, batches[due.batch], intents);
      ReserveFresh(Current(), IntentReserved(id, body), terms);
      Record(IntentReserved(id, body));
    }

    // ---- Signing ----

    /** Sign once. A payment that has a signature keeps it; a new one is recorded only when the operator
        allows it, deductions are still covered, every input is still unspent at the same amount, and the
        identity is the hash of the bytes. */
    method Sign(id: string, w: SigningWorld) returns (r: Result<string>)
      requires Valid() && ProperIncomes(w.incomes)
      modifies this
      ensures Valid() && Extends(log, old(log))
      ensures r.Refused? ==> intents == old(intents)
      ensures r.Ok? ==>
                && id in old(intents) && id in intents && intents[id].signature.Some? && intents[id].signature.value.txid == r.value
                && intents == old(intents)[id := intents[id]] && SameObligation(old(intents)[id], intents[id])
      ensures r.Ok? && old(intents)[id].signature.None? ==>
                && intents[id].state == Signed && terms.digests.transaction(intents[id].signature.value.raw) == r.value
                && Covered(old(intents), w.incomes) && Spendable(intents[id].body, w) && !w.faulted && !w.paused
      ensures id in old(intents) && old(intents)[id].signature.Some? ==>
                r.Ok? && intents == old(intents) && log == old(log)
    {
      if id !in intents { return Refused; }
      var intent := intents[id];
      if intent.signature.Some? {
        assert intents == intents[id := intents[id]];
        return Ok(intent.signature.value.txid);
      }
      if w.faulted || w.paused { return Refused; }
      var available := Available(w.incomes, intents);
      if available.Refused? { return Refused; }
      if exists a :: a in intent.body.recipients && |a| > 50 && a !in w.active { return Refused; }
      if !Spendable(intent.body, w) { return Refused; }
      if w.response.None? || w.appends == 0 { return Refused; }
      var signature := w.response.value;
      if !(0 < |signature.raw| <= 1048576) || terms.digests.transaction(signature.raw) != signature.txid { return Refused; }
      Record(IntentSigned(id, signature));
      r := Ok(signature.txid);
    }

    // ---- Reconciling ----

    /** A recorded confirmation whose block is still on the chain. */
    predicate Settled(intent: Intent, v: NodeView)
    {
      intent.state == Confirmed && intent.blockHash.Some? && v.height >= intent.blockHeight
      && v.hashAt == intent.blockHash.value
    }

    /** Compare a signed payment with the node. Only its state, block and notice can change. */
    method Reconcile(id: string, v: NodeView) returns (r: Reconciled)
      requires Valid() && id in intents
      modifies this
      ensures Valid() && Extends(log, old(log))
      ensures id in intents && SameObligation(old(intents)[id], intents[id])
      ensures intents[id].signature == old(intents)[id].signature
      ensures forall j :: j != id ==> (j in intents <==> j in old(intents)) && (j in intents ==> intents[j] == old(intents)[j])
      ensures r == StillReserved <==> old(intents)[id].signature.None?
      ensures r == StillReserved ==> intents == old(intents)
      ensures r == IsConfirmed ==> intents[id].state == Confirmed && (Settled(old(intents)[id], v) || Found(v))
      ensures old(intents)[id].signature.Some? && (Settled(old(intents)[id], v) || Found(v)) ==>
                r == IsConfirmed || r == Failed
      ensures r != IsConfirmed && r != StillReserved && r != Failed ==> intents[id].state == Signed
    {
      StateHolds(id);
      if intents[id].signature.None? { return StillReserved; }
      var left := v.appends;
      if intents[id].state == Confirmed && intents[id].blockHash.Some? {
        if Settled(intents[id], v) { return IsConfirmed; }
        if left == 0 { return Failed; }
        Record(StateChanged(id, Signed, None, None));
        left := left - 1;
      }
      r := Check(id, v, left, old(log));
    }

    lemma StateHolds(id: string)
      requires Valid() && id in intents
      ensures intents[id].state == Reserved <==> intents[id].signature.None?
    {
      Holds();
      assert GoodIntent(id, intents[id], Current(), terms);
    }

    /** Ask the node for the transaction; confirm it, or fall back to signed and rebroadcast the same bytes. */
    method Check(id: string, v: NodeView, appends: nat, ghost earlier: Order<Event>) returns (r: Reconciled)
      requires Valid() && id in intents && intents[id].signature.Some? && Extends(log, earlier)
      modifies this
      ensures Valid() && Extends(log, earlier)
      ensures id in intents && intents[id].body == old(intents)[id].body
      ensures intents[id].signature == old(intents)[id].signature
      ensures forall j :: j != id ==> (j in intents <==> j in old(intents)) && (j in intents ==> intents[j] == old(intents)[j])
      ensures r != StillReserved
      ensures r == IsConfirmed ==> intents[id].state == Confirmed && Found(v)
      ensures Found(v) ==> r == IsConfirmed || r == Failed
      ensures r != IsConfirmed && r != Failed ==> intents[id].state == Signed
    {
      StateHolds(id);
      var left := appends;
      if Found(v) {
        if intents[id].state != Confirmed {
          if left == 0 { return Failed; }
          Record(StateChanged(id, Confirmed, v.found.value.blockHash, Some(v.found.value.blockHeight)));
        }
        return IsConfirmed;
      }
      if intents[id].state == Confirmed {
        if left == 0 { return Failed; }
        Record(StateChanged(id, Signed, None, None));
        left := left - 1;
      }
      r := Rebroadcast(id, v, left, earlier);
    }

    method Rebroadcast(id: string, v: NodeView, appends: nat, ghost earlier: Order<Event>) returns (r: Reconciled)
      requires Valid() && id in intents && intents[id].signature.Some?
      requires intents[id].state == Signed && Extends(log, earlier)
      modifies this
      ensures Valid() && Extends(log, earlier)
      ensures id in intents && intents[id].body == old(intents)[id].body
      ensures intents[id].signature == old(intents)[id].signature
      ensures forall j :: j != id ==> (j in intents <==> j in old(intents)) && (j in intents ==> intents[j] == old(intents)[j])
      ensures intents[id].state == Signed && r != StillReserved && r != IsConfirmed
    {
      if !v.broadcast || v.held { return StillSigned; }
      if v.sent == Some(intents[id].signature.value.txid) { return Broadcast; }
      if intents[id].notice != v.error {
        if appends == 0 { return Failed; }
        Record(Noticed(id, v.error));
      }
      r := Unconfirmed;
    }
  }

  /** What signing sees: the operator's state, the incomes, the addresses active for the next block, the
      node's unspent coins by role, and the private helper's answer. */
  datatype SigningWorld = SigningWorld(
    faulted: bool, paused: bool, incomes: map<string, Income>, active: set<string>, unspent: map<(Role, Outpoint), int>,
    response: Option<Signature>, appends: nat)

  /** Every input is still unspent, at the amount the payment counts on. */
  predicate Spendable(body: Body, w: SigningWorld)
  {
    forall k :: 0 <= k < |body.inputs| ==>
      var input := body.inputs[k];
      (input.role, input.point) in w.unspent && w.unspent[(input.role, input.point)] == input.units
  }

  datatype Located = Located(confirmations: int, blockHash: Option<string>, blockHeight: int)

  /** What reconciling sees: the tip height and the block hash at the recorded height, the node's record
      of the transaction if the lookup succeeds, the chain's hash at that record's height, and the answer
      to a rebroadcast. */
  datatype NodeView = NodeView(
    height: int, hashAt: string, found: Option<Located>, canonical: Option<string>, broadcast: bool, held: bool,
    sent: Option<string>, error: string, appends: nat)

  /** The node reports the transaction in a block of its own chain. */
  predicate Found(v: NodeView)
  {
    v.found.Some? && v.found.value.confirmations > 0 && v.found.value.blockHash.Some? && v.canonical == v.found.value.blockHash
  }

  datatype Reconciled = StillReserved | IsConfirmed | StillSigned | Broadcast | Unconfirmed | Failed

  /** Every account still has what the batch owes it. */
  predicate Afforded(groups: Groups, available: Amounts)
  {
    forall g :: g in groups ==> forall a :: a in groups[g] ==> groups[g][a] <= Get(available, a)
  }

  /** Debits stay within the groups, hence within what the batch still owes. */
  ghost predicate WithinGroups(amounts: Amounts, groups: Groups)
  {
    forall a :: a in amounts ==> exists g :: Listed(groups, g, a) && amounts[a] <= groups[g][a]
  }

  lemma QuotasAllow(body: Body, due: Due, batch: Batch, intents: Intents)
    requires DueFrom(due, batch, intents) && WithinGroups(body.deductions, due.groups)
    requires forall a :: a in body.deductions ==> body.deductions[a] > 0
    requires forall a :: Spent(intents, due.batch, a) >= 0
    ensures forall a :: a in body.deductions ==>
              a in batch.quotas && Spent(intents, due.batch, a) + body.deductions[a] <= batch.quotas[a]
  {
    forall a | a in body.deductions
      ensures a in batch.quotas && Spent(intents, due.batch, a) + body.deductions[a] <= batch.quotas[a]
    {
      var g :| Listed(due.groups, g, a) && body.deductions[a] <= due.groups[g][a];
    }
  }

  lemma CreditsCover(intents: Intents, id: string, i: Intent, available: Amounts, due: Due,
                     incomes: map<string, Income>)
    requires ProperIncomes(incomes) && id !in intents && WithinGroups(i.body.deductions, due.groups)
    requires forall a :: Get(available, a) == Credit(incomes, a).Floor - Deducted(intents, a) >= 0
    requires Afforded(due.groups, available)
    ensures Covered(intents[id := i], incomes)
  {
    forall a ensures Deducted(intents[id := i], a) <= Credit(incomes, a).Floor {
      OverUpdate(intents, id, i, ForAccount(a));
      if a in i.body.deductions {
        var g :| Listed(due.groups, g, a) && i.body.deductions[a] <= due.groups[g][a];
      }
    }
  }

  /** Coins for the payment and for its fee, none of them reserved; the pool's liabilities must stay backed. */
  method SelectCoins(w: World, intents: Intents, due: Due, available: Amounts, script: string, terms: Terms)
    returns (r: Result<Option<Selection>>)
    ensures r.Ok? && r.value.Some? ==> Chosen(r.value.value, w, intents, due, available, script, terms)
    ensures r.Ok? && r.value.None? ==> TooLittle(w, intents, due, script, terms)
    ensures r.Refused? && Legible(w, intents) ==>
              Unbacked(w, intents, available, script) || FeesShort(w, intents, due, script, terms)
  {
    var allowed := AllowedPoints(w, intents, script);
    if allowed.Refused? { return Refused; }
    var backed := Backing(w.poolCoins, allowed.value, ReservedPoints(intents));
    var liabilities := SumOf(available);
    if backed < liabilities { return Refused; }
    BackedEnough(allowed.value, w, intents, available, script);
    var owed := GroupTotals(due.groups);
    var needed := SumOf(owed);
    PositiveSorted(w.poolCoins);
    PositiveSorted(w.feeCoins);
    var pool := Gather(SortCoins(w.poolCoins), PoolWant(needed, intents, terms, allowed.value), POOL_INPUTS);
    if pool.Refused? { return Refused; }
    assert PoolGathered(pool.value, w, intents, due, script, terms);
    if Worth(pool.value) < due.minimum { return Ok(None); }
    var fees := Gather(SortCoins(w.feeCoins), FeeWant(intents, terms), ALL_INPUTS - |pool.value|);
    if fees.Refused? { return Refused; }
    assert FeesGathered(fees.value, pool.value, w, intents, terms);
    if !FeesSuffice(fees.value, terms) { return Refused; }
    r := Ok(Some(Selection(pool.value, fees.value)));
  }

  /** The node knows every confirmed payment and lists coins with positive amounts only. */
  ghost predicate Legible(w: World, intents: Intents)
  {
    AllPositive(w.poolCoins) && AllPositive(w.feeCoins) && forall id :: id in intents ==> !Unexplained(intents[id], w.transactions)
  }

  function PoolWant(needed: int, intents: Intents, terms: Terms, allowed: set<Outpoint>): Want
  {
    Want(Pool, needed, terms.dust, ReservedPoints(intents), allowed, SignedIds(intents))
  }

  function FeeWant(intents: Intents, terms: Terms): Want
  {
    Want(Fees, terms.fee, terms.dust, ReservedPoints(intents), {}, {})
  }

  predicate FeesSuffice(fees: seq<Coin>, terms: Terms)
  {
    Worth(fees) >= terms.fee && Relayable(Worth(fees) - terms.fee, terms.dust)
  }

  /** Pool coins gathered for all that is due. */
  ghost predicate PoolGathered(pool: seq<Coin>, w: World, intents: Intents, due: Due, script: string, terms: Terms)
  {
    exists allowed :: Allowed(allowed, w, intents, script)
      && Gathered(pool, SortCoins(w.poolCoins), PoolWant(TallyAll(Totals(due.groups)), intents, terms, allowed), POOL_INPUTS)
  }

  /** Fee coins gathered for the fee, in the room the pool coins leave. */
  ghost predicate FeesGathered(fees: seq<Coin>, pool: seq<Coin>, w: World, intents: Intents, terms: Terms)
  {
    |pool| <= POOL_INPUTS && Gathered(fees, SortCoins(w.feeCoins), FeeWant(intents, terms), ALL_INPUTS - |pool|)
  }

  /** The pool's unreserved coins do not cover what its accounts are owed. */
  ghost predicate Unbacked(w: World, intents: Intents, available: Amounts, script: string)
  {
    exists allowed ::
      Allowed(allowed, w, intents, script) && Worth(Backed(w.poolCoins, allowed, ReservedPoints(intents))) < TallyAll(available)
  }

  ghost predicate TooLittle(w: World, intents: Intents, due: Due, script: string, terms: Terms)
  {
    exists pool :: PoolGathered(pool, w, intents, due, script, terms) && Worth(pool) < due.minimum
  }

  ghost predicate FeesShort(w: World, intents: Intents, due: Due, script: string, terms: Terms)
  {
    exists pool, fees :: PoolGathered(pool, w, intents, due, script, terms) && FeesGathered(fees, pool, w, intents, terms)
                         && !FeesSuffice(fees, terms)
  }

  /** Pool coins gathered for all that is due, fee coins for the fee, with the pool's liabilities backed by
      its unreserved coins. */
  ghost predicate Chosen(s: Selection, w: World, intents: Intents, due: Due, available: Amounts, script: string,
                         terms: Terms)
  {
    && PoolGathered(s.pool, w, intents, due, script, terms) && Worth(s.pool) >= due.minimum
    && FeesGathered(s.fees, s.pool, w, intents, terms) && FeesSuffice(s.fees, terms)
    && !Unbacked(w, intents, available, script)
  }

  lemma BackedEnough(allowed: set<Outpoint>, w: World, intents: Intents, available: Amounts, script: string)
    requires Allowed(allowed, w, intents, script)
    requires Worth(Backed(w.poolCoins, allowed, ReservedPoints(intents))) >= TallyAll(available)
    ensures !Unbacked(w, intents, available, script)
  {
    forall other | Allowed(other, w, intents, script) ensures other == allowed {
      forall p ensures p in other <==> p in allowed { }
    }
  }

  /** The books and the node's answers determine the coins. */
  lemma ChosenUnique(s: Selection, t: Selection, w: World, intents: Intents, due: Due, available: Amounts, script: string,
                     terms: Terms)
    requires Chosen(s, w, intents, due, available, script, terms) && Chosen(t, w, intents, due, available, script, terms)
    ensures s == t
  {
    PoolUnique(s.pool, t.pool, w, intents, due, script, terms);
    GatheredUnique(s.fees, t.fees, SortCoins(w.feeCoins), FeeWant(intents, terms), ALL_INPUTS - |s.pool|);
  }

  lemma PoolUnique(a: seq<Coin>, b: seq<Coin>, w: World, intents: Intents, due: Due, script: string, terms: Terms)
    requires PoolGathered(a, w, intents, due, script, terms) && PoolGathered(b, w, intents, due, script, terms)
    ensures a == b
  {
    var coins, needed := SortCoins(w.poolCoins), TallyAll(Totals(due.groups));
    var x :| Allowed(x, w, intents, script) && Gathered(a, coins, PoolWant(needed, intents, terms, x), POOL_INPUTS);
    var y :| Allowed(y, w, intents, script) && Gathered(b, coins, PoolWant(needed, intents, terms, y), POOL_INPUTS);
    assert x == y;
    GatheredUnique(a, b, coins, PoolWant(needed, intents, terms, x), POOL_INPUTS);
  }

  /** Every chosen coin is unreserved, and every pool coin carries income or confirmed change. */
  lemma ChosenOnly(s: Selection, w: World, intents: Intents, due: Due, available: Amounts, script: string, terms: Terms)
    requires Chosen(s, w, intents, due, available, script, terms)
    ensures forall k :: 0 <= k < |s.pool| ==>
              s.pool[k].point !in ReservedPoints(intents) &&
              (IncomeOutput(w.incomes, s.pool[k].point) || ConfirmedChange(intents, w.transactions, script, s.pool[k].point))
    ensures forall k :: 0 <= k < |s.fees| ==> s.fees[k].point !in ReservedPoints(intents)
  {
    var coins, needed := SortCoins(w.poolCoins), TallyAll(Totals(due.groups));
    var allowed :| Allowed(allowed, w, intents, script)
                   && Gathered(s.pool, coins, PoolWant(needed, intents, terms, allowed), POOL_INPUTS);
    forall k | 0 <= k < |s.pool| ensures s.pool[k].point !in ReservedPoints(intents) && s.pool[k].point in allowed {
      GatheredOnly(s.pool, coins, PoolWant(needed, intents, terms, allowed), POOL_INPUTS, s.pool[k]);
    }
    forall k | 0 <= k < |s.fees| ensures s.fees[k].point !in ReservedPoints(intents) {
      GatheredOnly(s.fees, SortCoins(w.feeCoins), FeeWant(intents, terms), ALL_INPUTS - |s.pool|, s.fees[k]);
    }
  }

  /** What planning makes of a batch's dues. */
  ghost predicate PaysDue(body: Body, w: World, intents: Intents, due: Due, available: Amounts, script: string,
                          own: set<string>, terms: Terms)
  {
    && Balanced(body, terms.fee, terms.dust) && WithinGroups(body.deductions, due.groups)
    && body.batch == due.batch && body.created == w.now
    && Unreserved(intents, Points(body)) && FromPool(body, intents, w, script)
    && Delivers(body, w.addresses, own) && Composed(body, w, intents, due, available, script, terms)
  }

  /** A balanced payment of what is due, or none if too little is confirmed yet. */
  method ComposeBody(w: World, available: Amounts, due: Due, intents: Intents, script: string, own: set<string>,
                     terms: Terms) returns (r: Result<Option<Body>>)
    requires due.minimum >= LEAST_MINIMUM && due.groups != map[]
    requires Worthwhile(due.groups, due.minimum) && Separate(due.groups)
    requires 0 < terms.dust < LEAST_MINIMUM
    ensures r.Ok? && r.value.Some? ==> PaysDue(r.value.value, w, intents, due, available, script, own, terms)
    ensures r.Ok? && r.value.None? ==> Premature(w, intents, due, available, script, terms)
    ensures r.Refused? && Legible(w, intents) && Reachable(due.groups, w.addresses, own) ==>
              Unbacked(w, intents, available, script) || FeesShort(w, intents, due, script, terms)
  {
    var selected := SelectCoins(w, intents, due, available, script, terms);
    if selected.Refused? { return Refused; }
    if selected.value.None? { return Ok(None); }
    var s := selected.value.value;
    var amounts, payments := DivideFunding(due.groups, Worth(s.pool), due.minimum, terms.dust);
    if amounts == map[] { return Ok(None); }
    var body := FillBody(s, amounts, payments, w, available, due, intents, script, own, terms);
    if body.Refused? { return Refused; }
    r := Ok(Some(body.value));
  }

  method FillBody(s: Selection, amounts: Amounts, ghost payments: Amounts, w: World, ghost available: Amounts, due: Due,
                  ghost intents: Intents, ghost script: string, own: set<string>, ghost terms: Terms)
    returns (r: Result<Body>)
    requires due.minimum >= LEAST_MINIMUM && amounts != map[] && Chosen(s, w, intents, due, available, script, terms)
    requires Division(amounts, payments, due.groups, Worth(s.pool), due.minimum, terms.dust)
    ensures r.Ok? ==> PaysDue(r.value, w, intents, due, available, script, own, terms)
    ensures r.Refused? ==> !Reachable(due.groups, w.addresses, own)
  {
    DivisionWithin(amounts, payments, due, Worth(s.pool), terms.dust);
    var recipients := PayAddresses(amounts, w.addresses, own);
    if recipients.Refused? { return Refused; }
    var body := Body(w.now, due.batch, amounts, Inputs(s.pool, Pool) + Inputs(s.fees, Fees), recipients.value);
    ComposedBalances(body, s, terms);
    ComposedFrom(body, s, w, intents, due, available, script, terms);
    r := Ok(body);
  }

  /** Too little is gathered to pay anyone, or all of it would be needed as change. */
  ghost predicate Premature(w: World, intents: Intents, due: Due, available: Amounts, script: string, terms: Terms)
  {
    || TooLittle(w, intents, due, script, terms)
    || (exists s: Selection, payments: Amounts ::
          && Chosen(s, w, intents, due, available, script, terms)
          && Division(map[], payments, due.groups, Worth(s.pool), due.minimum, terms.dust))
  }

  /** Every account has an address, and none of them is the pool's own. */
  ghost predicate Reachable(groups: Groups, addresses: map<string, string>, own: set<string>)
  {
    forall g, a :: Listed(groups, g, a) ==> a in addresses && addresses[a] !in own
  }

  /** The inputs are the coins chosen for what is due, and the deductions are the division of the pool coins. */
  ghost predicate Composed(body: Body, w: World, intents: Intents, due: Due, available: Amounts, script: string,
                           terms: Terms)
  {
    exists s: Selection, payments: Amounts ::
      && Chosen(s, w, intents, due, available, script, terms)
      && body.inputs == Inputs(s.pool, Pool) + Inputs(s.fees, Fees)
      && Division(body.deductions, payments, due.groups, Worth(s.pool), due.minimum, terms.dust)
  }

  /** The books and the node's answers determine what a payment spends and whom it debits. */
  lemma ComposedUnique(a: Body, b: Body, w: World, intents: Intents, due: Due, available: Amounts, script: string,
                       terms: Terms)
    requires Composed(a, w, intents, due, available, script, terms) && Composed(b, w, intents, due, available, script, terms)
    ensures a.inputs == b.inputs && a.deductions == b.deductions
  {
    var s, p :| Chosen(s, w, intents, due, available, script, terms) && a.inputs == Inputs(s.pool, Pool) + Inputs(s.fees, Fees)
                && Division(a.deductions, p, due.groups, Worth(s.pool), due.minimum, terms.dust);
    var t, q :| Chosen(t, w, intents, due, available, script, terms) && b.inputs == Inputs(t.pool, Pool) + Inputs(t.fees, Fees)
                && Division(b.deductions, q, due.groups, Worth(t.pool), due.minimum, terms.dust);
    ChosenUnique(s, t, w, intents, due, available, script, terms);
    DivisionUnique(a.deductions, p, b.deductions, q, due.groups, Worth(s.pool), due.minimum, terms.dust);
  }

  /** Every account's own address, never the pool's, is paid what its accounts are debited. */
  ghost predicate Delivers(body: Body, addresses: map<string, string>, own: set<string>)
  {
    && (forall a :: a in body.deductions ==> a in addresses && addresses[a] !in own)
    && (forall address :: Get(body.recipients, address) == Tally(body.deductions, AtAddress(body.deductions.Keys, addresses, address)))
  }

  lemma DivisionWithin(amounts: Amounts, payments: Amounts, due: Due, funding: int, dust: int)
    requires Division(amounts, payments, due.groups, funding, due.minimum, dust)
    ensures WithinGroups(amounts, due.groups) && Relayable(funding - TallyAll(amounts), dust)
    ensures forall a :: a in amounts ==> amounts[a] > 0
  {
    forall a | a in amounts ensures amounts[a] > 0 && exists g :: Listed(due.groups, g, a) && amounts[a] <= due.groups[g][a] {
      var g :| g in payments && a in due.groups[g] && 0 < amounts[a] <= due.groups[g][a];
      assert Listed(due.groups, g, a);
    }
  }

  lemma ComposedBalances(body: Body, s: Selection, terms: Terms)
    requires body.inputs == Inputs(s.pool, Pool) + Inputs(s.fees, Fees) && |s.pool| + |s.fees| <= ALL_INPUTS
    requires Relayable(Worth(s.fees) - terms.fee, terms.dust) && body.deductions != map[]
    requires Relayable(Worth(s.pool) - TallyAll(body.deductions), terms.dust)
    requires forall a :: a in body.deductions ==> body.deductions[a] > 0
    requires TallyAll(body.recipients) == TallyAll(body.deductions) && Worth(s.pool) > 0
    ensures Balanced(body, terms.fee, terms.dust)
  {
    InputUnits(s.pool, Pool, Pool);
    InputUnits(s.pool, Pool, Fees);
    InputUnits(s.fees, Fees, Pool);
    InputUnits(s.fees, Fees, Fees);
    UnitsJoin(Inputs(s.pool, Pool), Inputs(s.fees, Fees), Pool);
    UnitsJoin(Inputs(s.pool, Pool), Inputs(s.fees, Fees), Fees);
  }

  lemma ComposedFrom(body: Body, s: Selection, w: World, intents: Intents, due: Due, available: Amounts,
                     script: string, terms: Terms)
    requires body.inputs == Inputs(s.pool, Pool) + Inputs(s.fees, Fees)
    requires Chosen(s, w, intents, due, available, script, terms)
    ensures Unreserved(intents, Points(body)) && FromPool(body, intents, w, script)
  {
    ChosenOnly(s, w, intents, due, available, script, terms);
    InputUnits(s.pool, Pool, Pool);
    InputUnits(s.fees, Fees, Fees);
    ReservedCovers(intents, Points(body));
  }

  datatype Draft = Draft(batch: Batch, groups: Groups)

  /** A batch of everything payable to destinations that reach the minimum. */
  method ComposeBatch(w: World, available: Amounts) returns (r: Result<Option<Draft>>)
    ensures r.Ok? <==> AllPlaced(available, w.addresses, available.Keys)
    ensures r.Ok? ==> Eligible(if r.value.Some? then r.value.value.groups else map[], available, w.minimum, w.addresses)
    ensures r.Ok? && r.value.Some? ==>
              var groups, batch := r.value.value.groups, r.value.value.batch;
              && groups != map[] && Worthwhile(groups, w.minimum) && Separate(groups)
              && batch.created == w.now && batch.minimum == w.minimum && batch.scope == PerAddress
              && (forall a :: a in batch.quotas ==> batch.quotas[a] > 0 && exists g :: Listed(groups, g, a))
              && (forall g, a :: Listed(groups, g, a) ==> Get(batch.quotas, a) == groups[g][a])
  {
    var groups := EligibleGroups(available, w.minimum, w.addresses);
    if groups.Refused? { return Refused; }
    if groups.value == map[] { return Ok(None); }
    EligibleIsDue(groups.value, available, w.minimum, w.addresses);
    var quotas := Flatten(groups.value);
    var destinations := map a | a in quotas && a in w.addresses :: w.addresses[a];
    r := Ok(Some(Draft(Batch(w.now, quotas, PerAddress, destinations, w.minimum), groups.value)));
  }

  /** All groups' accounts and amounts in one map. */
  method Flatten(groups: Groups) returns (quotas: Amounts)
    requires Separate(groups)
    ensures forall g, a :: Listed(groups, g, a) ==> a in quotas && quotas[a] == groups[g][a]
    ensures forall a :: a in quotas ==> exists g :: Listed(groups, g, a)
  {
    quotas := map g, a | g in groups && a in groups[g] :: a := groups[g][a];
    forall a | a in quotas ensures exists g :: Listed(groups, g, a) {
      var g :| g in groups && a in groups[g];
      assert Listed(groups, g, a);
    }
  }

  /** What is left of a batch's quotas. */
  ghost function Unpaid(id: string, batch: Batch, intents: Intents): Amounts
  {
    map a | a in batch.quotas :: batch.quotas[a] - Spent(intents, id, a)
  }

  /** Where an account's payouts go: batches frozen before payout addresses were grouped pay each account alone. */
  function Destinations(batch: Batch, addresses: map<string, string>): map<string, string>
  {
    if batch.scope == PerAddress then addresses else map a | a in batch.quotas :: a
  }

  /** The batch can be continued: its destinations stand, nothing is overdrawn, and all of it has a destination. */
  ghost predicate Continues(id: string, batch: Batch, intents: Intents, addresses: map<string, string>)
  {
    && (batch.scope == PerAddress ==> DestinationsStand(batch, addresses))
    && NoDebt(Unpaid(id, batch, intents))
    && AllPlaced(Unpaid(id, batch, intents), Destinations(batch, addresses), batch.quotas.Keys)
  }

  /** What is left of a batch's quotas, for the groups it still reaches the minimum for. */
  method StillOwed(id: string, batch: Batch, intents: Intents, addresses: map<string, string>)
    returns (r: Result<Option<Due>>)
    requires batch.minimum >= LEAST_MINIMUM
    ensures r.Ok? <==> Continues(id, batch, intents, addresses)
    ensures r.Ok? ==> Eligible(if r.value.Some? then r.value.value.groups else map[], Unpaid(id, batch, intents), batch.minimum,
                               Destinations(batch, addresses))
    ensures r.Ok? && r.value.Some? ==> r.value.value.batch == id && r.value.value.minimum == batch.minimum
    ensures r.Ok? && r.value.Some? ==> DueFrom(r.value.value, batch, intents)
  {
    if batch.scope == PerAddress && !DestinationsStand(batch, addresses) { return Refused; }
    var quotas := Unspent(id, batch, intents);
    if exists a :: a in quotas && quotas[a] < 0 { return Refused; }
    var destination := Destinations(batch, addresses);
    var groups := EligibleGroups(quotas, batch.minimum, destination);
    if groups.Refused? { return Refused; }
    if groups.value == map[] { return Ok(None); }
    EligibleIsDue(groups.value, quotas, batch.minimum, destination);
    r := Ok(Some(Due(id, batch.minimum, groups.value)));
  }

  method Unspent(id: string, batch: Batch, intents: Intents) returns (quotas: Amounts)
    ensures quotas == Unpaid(id, batch, intents)
  {
    var spent := DeductionsOf(intents, Some(id));
    forall a ensures Get(spent, a) == Spent(intents, id, a) { SelectingBatch(intents, id, a); }
    quotas := map a | a in batch.quotas :: batch.quotas[a] - Get(spent, a);
    LessSpent(batch.quotas, spent, a => Spent(intents, id, a), quotas, Unpaid(id, batch, intents));
  }

  lemma LessSpent(quotas: Amounts, spent: Amounts, f: string -> int, a: Amounts, b: Amounts)
    requires a.Keys == b.Keys == quotas.Keys && forall k :: Get(spent, k) == f(k)
    requires forall k :: k in quotas ==> a[k] == quotas[k] - Get(spent, k) && b[k] == quotas[k] - f(k)
    ensures a == b
  {
  }

  /** Frozen destinations cover exactly the frozen accounts and are still their addresses. */
  predicate DestinationsStand(batch: Batch, addresses: map<string, string>)
  {
    batch.destinations.Keys == batch.quotas.Keys &&
    forall a :: a in batch.destinations ==> a in addresses && addresses[a] == batch.destinations[a]
  }

  method Latest(batches: map<string, Batch>) returns (id: string)
    requires batches != map[]
    ensures id in batches && forall j :: j in batches ==> batches[j].created <= batches[id].created
  {
    var left := batches.Keys;
    id := Pick(left);
    left := left - {id};
    while left != {}
      invariant left <= batches.Keys && id in batches
      invariant forall j :: j in batches && j !in left ==> batches[j].created <= batches[id].created
      decreases |left|
    {
      var j := Pick(left);
      if batches[j].created > batches[id].created { id := j; }
      left := left - {j};
    }
  }
}
