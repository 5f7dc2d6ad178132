/** The payment journal: events, the books they build, and what every lawful run of events keeps. */
module PaymentBooks {
  import opened Outcomes
  import opened Orders
  import opened Tallies
  import opened Funding
  import Payouts

  /** The least payout any policy may set, in base units. */
  const LEAST_MINIMUM: int := 100_000_000

  datatype State = Reserved | Signed | Confirmed

  datatype Input = Input(point: Outpoint, units: int, role: Role)

  /** What a payment commits to when it is reserved; nothing in it changes afterwards. */
  datatype Body = Body(created: int, batch: string, deductions: Amounts, inputs: seq<Input>, recipients: Amounts)

  datatype Signature = Signature(txid: string, raw: string)

  datatype Intent = Intent(body: Body, state: State, signature: Option<Signature>, blockHash: Option<string>,
                           blockHeight: int, notice: string, history: nat)

  type Intents = map<string, Intent>

  datatype Scope = PerAccount | PerAddress

  /** Frozen quotas, and the rules they were frozen under. */
  datatype Batch = Batch(created: int, quotas: Amounts, scope: Scope, destinations: map<string, string>, minimum: int)

  /** `paid` and `count` are kept incrementally for display. */
  datatype Books = Books(intents: Intents, batches: map<string, Batch>, paid: int, count: int)

  datatype Event =
    | BatchFrozen(id: string, batch: Batch)
    | IntentReserved(id: string, body: Body)
    | IntentSigned(id: string, signature: Signature)
    | StateChanged(id: string, state: State, blockHash: Option<string>, blockHeight: Option<int>)
    | Noticed(id: string, notice: string)

  /** Identities are digests; the signature check is the double hash of the signed bytes. */
  datatype Digests = Digests(batch: Batch -> string, intent: Body -> string, transaction: string -> string)

  ghost predicate CollisionFree(d: Digests)
  {
    && (forall x, y :: d.batch(x) == d.batch(y) ==> x == y)
    && (forall x, y :: d.intent(x) == d.intent(y) ==> x == y)
  }

  const EMPTY: Books := Books(map[], map[], 0, 0)

  // ---- Applying events ----

  ghost function Weight(i: Intent): int
  {
    if i.state == Confirmed then TallyAll(i.body.deductions) else 0
  }

  /** A record changes; the display totals drop what it counted for before and add what it counts for now. */
  ghost function Put(b: Books, id: string, i: Intent): Books
  {
    var was := id in b.intents;
    b.(intents := b.intents[id := i],
       paid := b.paid + Weight(i) - (if was then Weight(b.intents[id]) else 0),
       count := b.count + (if i.state == Confirmed then 1 else 0) - (if was && b.intents[id].state == Confirmed then 1 else 0))
  }

  ghost predicate Applicable(b: Books, e: Event)
  {
    e.BatchFrozen? || e.IntentReserved? || e.id in b.intents
  }

  ghost function Apply(b: Books, e: Event, number: nat): Books
    requires Applicable(b, e)
  {
    match e
    case BatchFrozen(id, batch) => b.(batches := b.batches[id := batch])
    case IntentReserved(id, body) => Put(b, id, Intent(body, Reserved, None, None, 0, "", number))
    case IntentSigned(id, signature) => Put(b, id, b.intents[id].(signature := Some(signature), state := Signed))
    case StateChanged(id, state, hash, height) =>
      var i := b.intents[id].(state := state, blockHash := hash);
      Put(b, id, if height.Some? then i.(blockHeight := height.value) else i)
    case Noticed(id, notice) => Put(b, id, b.intents[id].(notice := notice))
  }

  // ---- Sums over the books ----

  ghost function ForAccount(a: string): Intent -> int
  {
    (i: Intent) => Get(i.body.deductions, a)
  }

  ghost function ForBatch(batch: string, a: string): Intent -> int
  {
    (i: Intent) => if i.body.batch == batch then Get(i.body.deductions, a) else 0
  }

  /** Everything ever deducted from an account. */
  ghost function Deducted(intents: Intents, a: string): int
  {
    Over(intents, ForAccount(a))
  }

  /** What a batch's payments have deducted from an account. */
  ghost function Spent(intents: Intents, batch: string, a: string): int
  {
    Over(intents, ForBatch(batch, a))
  }

  ghost function WeightOf(): Intent -> int
  {
    (i: Intent) => Weight(i)
  }

  ghost function MarkOf(): Intent -> int
  {
    (i: Intent) => if i.state == Confirmed then 1 else 0
  }

  /** The display totals are those of the current records. */
  ghost predicate DisplayExact(b: Books)
  {
    b.paid == Over(b.intents, WeightOf()) && b.count == Over(b.intents, MarkOf())
  }

  lemma PutDisplays(b: Books, id: string, i: Intent)
    requires DisplayExact(b)
    ensures DisplayExact(Put(b, id, i))
  {
    OverUpdate(b.intents, id, i, WeightOf());
    OverUpdate(b.intents, id, i, MarkOf());
  }

  // ---- What a lawful event must respect ----

  /** The coins a payment spends. */
  ghost function Points(body: Body): set<Outpoint>
  {
    set k | 0 <= k < |body.inputs| :: body.inputs[k].point
  }

  /** No earlier payment holds any of these coins. */
  ghost predicate Unreserved(intents: Intents, points: set<Outpoint>)
  {
    forall id :: id in intents ==> Points(intents[id].body) !! points
  }

  function Units(inputs: seq<Input>, role: Role): int
  {
    if inputs == [] then 0 else (if inputs[0].role == role then inputs[0].units else 0) + Units(inputs[1..], role)
  }

  /** A payment balances: every account deducted pays something, recipients receive exactly what is
      deducted, pool inputs are deductions plus nothing or relayable change, and so for the fee. */
  ghost predicate Balanced(body: Body, fee: int, dust: int)
  {
    && 0 < |body.inputs| <= ALL_INPUTS
    && (forall a :: a in body.deductions ==> body.deductions[a] > 0)
    && body.deductions != map[]
    && TallyAll(body.recipients) == TallyAll(body.deductions)
    && Payouts.Relayable(Units(body.inputs, Pool) - TallyAll(body.deductions), dust)
    && Payouts.Relayable(Units(body.inputs, Fees) - fee, dust)
  }

  /** The fixed terms of the engine. */
  datatype Terms = Terms(digests: Digests, fee: int, dust: int)

  ghost predicate Lawful(b: Books, e: Event, t: Terms)
  {
    match e
    case BatchFrozen(id, batch) =>
      && id == t.digests.batch(batch) && id !in b.batches
      && batch.minimum >= LEAST_MINIMUM && (forall a :: a in batch.quotas ==> batch.quotas[a] > 0)
    case IntentReserved(id, body) =>
      && id == t.digests.intent(body) && Balanced(body, t.fee, t.dust)
      && body.batch in b.batches
      && (forall a :: a in body.deductions ==>
            a in b.batches[body.batch].quotas && Spent(b.intents, body.batch, a) + body.deductions[a] <= b.batches[body.batch].quotas[a])
      && Unreserved(b.intents, Points(body))
    case IntentSigned(id, signature) =>
      id in b.intents && b.intents[id].signature.None? && t.digests.transaction(signature.raw) == signature.txid
    case StateChanged(id, state, hash, height) =>
      id in b.intents && b.intents[id].signature.Some? && state != Reserved && (state == Confirmed ==> hash.Some? && height.Some?)
    case Noticed(id, _) =>
      id in b.intents
  }

  // ---- What the books always satisfy ----

  ghost predicate GoodIntent(id: string, i: Intent, b: Books, t: Terms)
  {
    && id == t.digests.intent(i.body) && Balanced(i.body, t.fee, t.dust)
    && i.body.batch in b.batches
    && (i.state == Reserved <==> i.signature.None?)
    && (i.signature.Some? ==> t.digests.transaction(i.signature.value.raw) == i.signature.value.txid)
  }

  ghost predicate GoodBatch(id: string, batch: Batch, t: Terms)
  {
    id == t.digests.batch(batch) && batch.minimum >= LEAST_MINIMUM && forall a :: a in batch.quotas ==> batch.quotas[a] > 0
  }

  ghost predicate GoodIntents(b: Books, t: Terms)
  {
    forall id :: id in b.intents ==> GoodIntent(id, b.intents[id], b, t)
  }

  ghost predicate GoodBatches(b: Books, t: Terms)
  {
    forall id :: id in b.batches ==> GoodBatch(id, b.batches[id], t)
  }

  /** No coin is promised to two payments. */
  ghost predicate InputsDisjoint(intents: Intents)
  {
    forall i, j :: i in intents && j in intents && i != j ==> Points(intents[i].body) !! Points(intents[j].body)
  }

  /** No batch pays an account more than the quota frozen for it. */
  ghost predicate WithinQuotas(b: Books)
  {
    forall batch, a :: batch in b.batches ==> Spent(b.intents, batch, a) <= Get(b.batches[batch].quotas, a)
  }

  ghost predicate Sound(b: Books, t: Terms)
  {
    && GoodIntents(b, t)
    && GoodBatches(b, t)
    && InputsDisjoint(b.intents)
    && WithinQuotas(b)
    && DisplayExact(b)
  }

  /** Nothing recorded is forgotten: every payment keeps its body, and its signature once it has one;
      every batch stays as frozen. */
  ghost predicate Kept(before: Books, after: Books)
  {
    && (forall id :: id in before.intents ==> id in after.intents && SameObligation(before.intents[id], after.intents[id]))
    && (forall id :: id in before.batches ==> id in after.batches && after.batches[id] == before.batches[id])
  }

  ghost predicate SameObligation(before: Intent, after: Intent)
  {
    after.body == before.body && (before.signature.Some? ==> after.signature == before.signature)
  }

  /** Changing a record's state, signature or notice, never its body. */
  lemma PutKeeps(b: Books, id: string, i: Intent, t: Terms)
    requires Sound(b, t) && id in b.intents && SameObligation(b.intents[id], i) && GoodIntent(id, i, b, t)
    ensures Sound(Put(b, id, i), t) && Kept(b, Put(b, id, i))
  {
    PutDisplays(b, id, i);
    PutGood(b, id, i, t);
    SpendsNoMore(b, id, i);
  }

  lemma PutGood(b: Books, id: string, i: Intent, t: Terms)
    requires GoodIntents(b, t) && GoodIntent(id, i, b, t)
    ensures GoodIntents(Put(b, id, i), t)
  {
    var after := Put(b, id, i);
    forall j | j in after.intents ensures GoodIntent(j, after.intents[j], after, t) {
      if j != id { assert GoodIntent(j, b.intents[j], b, t); }
    }
  }

  lemma SpendsNoMore(b: Books, id: string, i: Intent)
    requires WithinQuotas(b) && id in b.intents && b.intents[id].body == i.body
    ensures WithinQuotas(Put(b, id, i))
  {
    forall batch, a | batch in b.batches ensures Spent(b.intents[id := i], batch, a) <= Get(b.batches[batch].quotas, a) {
      OverUpdate(b.intents, id, i, ForBatch(batch, a));
    }
  }

  lemma FreezeKeeps(b: Books, e: Event, number: nat, t: Terms)
    requires Sound(b, t) && e.BatchFrozen? && Lawful(b, e, t)
    ensures Sound(Apply(b, e, number), t) && Kept(b, Apply(b, e, number))
  {
    FreezeGood(b, e.id, e.batch, t);
    FreezeQuotas(b, e.id, e.batch, t);
  }

  lemma FreezeGood(b: Books, id: string, batch: Batch, t: Terms)
    requires GoodIntents(b, t)
    ensures GoodIntents(b.(batches := b.batches[id := batch]), t)
  {
    forall j | j in b.intents ensures GoodIntent(j, b.intents[j], b.(batches := b.batches[id := batch]), t) {
      assert GoodIntent(j, b.intents[j], b, t);
    }
  }

  lemma FreezeQuotas(b: Books, id: string, batch: Batch, t: Terms)
    requires GoodIntents(b, t) && WithinQuotas(b) && id !in b.batches && forall a :: a in batch.quotas ==> batch.quotas[a] > 0
    ensures WithinQuotas(b.(batches := b.batches[id := batch]))
  {
    forall j | j in b.intents ensures b.intents[j].body.batch != id { assert GoodIntent(j, b.intents[j], b, t); }
    forall a ensures Spent(b.intents, id, a) <= Get(batch.quotas, a) { NoneSpent(b.intents, id, a); }
  }

  /** A batch no payment belongs to has spent nothing. */
  lemma NoneSpent(intents: Intents, batch: string, a: string)
    requires forall id :: id in intents ==> intents[id].body.batch != batch
    ensures Spent(intents, batch, a) == 0
  {
    var m := Measure(intents, ForBatch(batch, a));
    AllZero(m, m.Keys);
  }

  /** A payment with unreserved inputs is not yet recorded: its digest would name the same inputs. */
  lemma ReserveFresh(b: Books, e: Event, t: Terms)
    requires CollisionFree(t.digests) && Sound(b, t) && e.IntentReserved? && Lawful(b, e, t)
    ensures e.id !in b.intents
  {
    forall id | id in b.intents ensures id == t.digests.intent(b.intents[id].body) { assert GoodIntent(id, b.intents[id], b, t); }
    NotRecorded(b.intents, t.digests.intent, e.body);
  }

  lemma NotRecorded(intents: Intents, digest: Body -> string, body: Body)
    requires forall id :: id in intents ==> id == digest(intents[id].body)
    requires forall x, y :: digest(x) == digest(y) ==> x == y
    requires Unreserved(intents, Points(body)) && body.inputs != []
    ensures digest(body) !in intents
  {
    assert body.inputs[0].point in Points(body);
  }

  lemma ReserveQuotas(b: Books, id: string, i: Intent)
    requires WithinQuotas(b) && id !in b.intents && i.body.batch in b.batches
    requires forall a :: a in i.body.deductions ==>
               a in b.batches[i.body.batch].quotas &&
               Spent(b.intents, i.body.batch, a) + i.body.deductions[a] <= b.batches[i.body.batch].quotas[a]
    ensures WithinQuotas(Put(b, id, i))
  {
    forall batch, a | batch in b.batches ensures Spent(b.intents[id := i], batch, a) <= Get(b.batches[batch].quotas, a) {
      OverUpdate(b.intents, id, i, ForBatch(batch, a));
    }
  }

  lemma ReserveKeeps(b: Books, e: Event, number: nat, t: Terms)
    requires CollisionFree(t.digests) && Sound(b, t) && e.IntentReserved? && Lawful(b, e, t)
    ensures Sound(Apply(b, e, number), t) && Kept(b, Apply(b, e, number))
  {
    var i := Intent(e.body, Reserved, None, None, 0, "", number);
    ReserveFresh(b, e, t);
    PutDisplays(b, e.id, i);
    PutGood(b, e.id, i, t);
    ReserveQuotas(b, e.id, i);
    ReserveDisjoint(b.intents, e.id, i);
    AddKeeps(b, e.id, i);
  }

  lemma ReserveDisjoint(intents: Intents, id: string, i: Intent)
    requires InputsDisjoint(intents) && Unreserved(intents, Points(i.body))
    ensures InputsDisjoint(intents[id := i])
  {
  }

  lemma AddKeeps(b: Books, id: string, i: Intent)
    requires id !in b.intents
    ensures Kept(b, Put(b, id, i))
  {
  }

  /** Every lawful event keeps the books sound and forgets nothing. */
  lemma LawfulKeeps(b: Books, e: Event, number: nat, t: Terms)
    requires CollisionFree(t.digests) && Sound(b, t) && Lawful(b, e, t)
    ensures Sound(Apply(b, e, number), t) && Kept(b, Apply(b, e, number))
  {
    match e
    case BatchFrozen(_, _) => FreezeKeeps(b, e, number, t);
    case IntentReserved(_, _) => ReserveKeeps(b, e, number, t);
    case IntentSigned(id, _) => PutKeeps(b, id, Apply(b, e, number).intents[id], t);
    case StateChanged(id, _, _, _) => PutKeeps(b, id, Apply(b, e, number).intents[id], t);
    case Noticed(id, _) => PutKeeps(b, id, Apply(b, e, number).intents[id], t);
  }

  // ---- Whole runs ----

  function Length(log: Order<Event>): nat
  {
    match log
    case Start => 0
    case Then(before, _) => Length(before) + 1
  }

  /** The books a journal builds, from the first event on; none if an event names no record. */
  ghost function Replay(log: Order<Event>): Option<Books>
  {
    match log
    case Start => Some(EMPTY)
    case Then(before, e) =>
      var b := Replay(before);
      if b.Some? && Applicable(b.value, e) then Some(Apply(b.value, e, Length(log))) else None
  }

  /** Every event was lawful when it was recorded. */
  ghost predicate LawfulLog(log: Order<Event>, t: Terms)
  {
    log.Then? ==> LawfulLog(log.before, t) && Replay(log.before).Some? && Lawful(Replay(log.before).value, log.key, t)
  }

  /** Replaying any lawful journal gives sound books. */
  lemma {:induction false} RunSound(log: Order<Event>, t: Terms)
    requires CollisionFree(t.digests) && LawfulLog(log, t)
    ensures Replay(log).Some? && Sound(Replay(log).value, t)
  {
    match log
    case Start => assert Measure(EMPTY.intents, WeightOf()) == map[] && Measure(EMPTY.intents, MarkOf()) == map[];
    case Then(before, e) =>
      RunSound(before, t);
      LawfulKeeps(Replay(before).value, e, Length(log), t);
  }

  /** Whatever a run has recorded at some point stays recorded for the rest of it. */
  lemma {:induction false} RunKeeps(log: Order<Event>, earlier: Order<Event>, t: Terms)
    requires CollisionFree(t.digests) && LawfulLog(log, t) && Extends(log, earlier)
    ensures Replay(earlier).Some? && Replay(log).Some? && Kept(Replay(earlier).value, Replay(log).value)
    decreases log
  {
    if log == earlier {
      RunSound(log, t);
    } else {
      RunKeeps(log.before, earlier, t);
      LastKeeps(log, t);
      KeptThrough(Replay(earlier).value, Replay(log.before).value, Replay(log).value);
    }
  }

  lemma LastKeeps(log: Order<Event>, t: Terms)
    requires CollisionFree(t.digests) && LawfulLog(log, t) && log.Then?
    ensures Replay(log.before).Some? && Replay(log).Some? && Kept(Replay(log.before).value, Replay(log).value)
  {
    RunSound(log.before, t);
    LawfulKeeps(Replay(log.before).value, log.key, Length(log), t);
  }

  lemma KeptThrough(a: Books, b: Books, c: Books)
    requires Kept(a, b) && Kept(b, c)
    ensures Kept(a, c)
  {
    forall id | id in a.intents ensures id in c.intents && SameObligation(a.intents[id], c.intents[id]) {
      assert SameObligation(a.intents[id], b.intents[id]);
    }
  }

  /** No deduction is ever released: an account's total never falls. */
  lemma DeductedNeverFalls(before: Books, after: Books, t: Terms, a: string)
    requires GoodIntents(after, t) && Kept(before, after)
    ensures Deducted(before.intents, a) <= Deducted(after.intents, a)
  {
    forall id | id in after.intents ensures ForAccount(a)(after.intents[id]) >= 0 {
      assert GoodIntent(id, after.intents[id], after, t);
    }
    OverGrows(before.intents, after.intents, ForAccount(a));
  }

  lemma SpentNonnegative(b: Books, t: Terms, batch: string, a: string)
    requires GoodIntents(b, t)
    ensures Spent(b.intents, batch, a) >= 0
  {
    var m := Measure(b.intents, ForBatch(batch, a));
    forall id | id in m ensures m[id] >= 0 { assert GoodIntent(id, b.intents[id], b, t); }
    TallyBounds(m, m.Keys, "");
  }
}
