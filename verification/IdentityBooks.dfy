/** The operator's identity transactions: where their coins come from, and what stays fixed once recorded. */
module IdentityBooks {
  import opened Outcomes
  import opened Orders
  import opened Funding

  datatype Kind = Stake | Consolidate | NearMiss

  datatype State = Reserved | Signed | Confirmed | Expired

  datatype Body = Body(kind: Kind, height: int, parent: string, header: string, inputs: seq<Coin>)

  datatype Signature = Signature(txid: string, raw: string)

  /** `confirmedOnce` and `expiredOnce` remember whether the state was ever reached. */
  datatype Intent = Intent(body: Body, state: State, signature: Option<Signature>, block: Option<string>,
                           confirmedOnce: bool, expiredOnce: bool)

  type Books = map<string, Intent>

  datatype Event =
    | IntentReserved(id: string, body: Body)
    | IntentSigned(id: string, signature: Signature)
    | StateMoved(id: string, state: State, block: Option<string>)

  datatype Terms = Terms(funding: map<Outpoint, int>, digest: Body -> string, hash: string -> string)

  function Apply(b: Books, e: Event): Books
  {
    match e
    case IntentReserved(id, body) => b[id := Intent(body, Reserved, None, None, false, false)]
    case IntentSigned(id, signature) => if id in b then b[id := b[id].(signature := Some(signature), state := Signed)] else b
    case StateMoved(id, state, block) =>
      if id !in b then b
      else b[id := b[id].(state := state, block := block, confirmedOnce := b[id].confirmedOnce || state == Confirmed,
                          expiredOnce := b[id].expiredOnce || state == Expired)]
  }

  // ---- Where coins come from ----

  predicate Spends(i: Intent, p: Outpoint)
  {
    exists k :: 0 <= k < |i.body.inputs| && i.body.inputs[k].point == p
  }

  /** A payment's own outputs, except the backing of a stake. */
  predicate Change(i: Intent, p: Outpoint)
  {
    i.signature.Some? && i.signature.value.txid == p.txid && !(i.body.kind == Stake && p.vout == 0)
  }

  /** A coin of the funding manifest, or change of a confirmed transaction, that no live transaction holds. */
  ghost predicate Free(b: Books, t: Terms, p: Outpoint)
  {
    && (p in t.funding || exists id :: id in b && b[id].state == Confirmed && Change(b[id], p))
    && (forall id :: id in b && b[id].state != Expired ==> !Spends(b[id], p))
  }

  /** A coin leads back to the manifest through change of transactions that were once confirmed. */
  ghost predicate Descends(b: Books, t: Terms, p: Outpoint, depth: nat)
    decreases depth, 0
  {
    p in t.funding ||
    (depth > 0 && exists id :: id in b && b[id].confirmedOnce && Change(b[id], p) && AllDescend(b, t, b[id].body, depth - 1))
  }

  ghost predicate AllDescend(b: Books, t: Terms, body: Body, depth: nat)
    decreases depth, 1
  {
    forall k :: 0 <= k < |body.inputs| ==> Descends(b, t, body.inputs[k].point, depth)
  }

  lemma {:induction false} Deeper(b: Books, t: Terms, p: Outpoint, depth: nat, more: nat)
    requires Descends(b, t, p, depth) && depth <= more
    ensures Descends(b, t, p, more)
    decreases depth
  {
    if p !in t.funding {
      var id :| id in b && b[id].confirmedOnce && Change(b[id], p) && AllDescend(b, t, b[id].body, depth - 1);
      forall k | 0 <= k < |b[id].body.inputs| ensures Descends(b, t, b[id].body.inputs[k].point, more - 1) {
        Deeper(b, t, b[id].body.inputs[k].point, depth - 1, more - 1);
      }
      assert AllDescend(b, t, b[id].body, more - 1);
    }
  }

  /** Nothing recorded is forgotten. */
  ghost predicate Kept(b: Books, after: Books)
  {
    forall id :: id in b ==> id in after && SameTransaction(b[id], after[id])
  }

  ghost predicate SameTransaction(i: Intent, after: Intent)
  {
    && after.body == i.body && (i.signature.Some? ==> after.signature == i.signature)
    && (i.confirmedOnce ==> after.confirmedOnce) && (i.expiredOnce ==> after.expiredOnce)
  }

  lemma {:induction false} StillDescends(b: Books, after: Books, t: Terms, p: Outpoint, depth: nat)
    requires Kept(b, after) && Descends(b, t, p, depth)
    ensures Descends(after, t, p, depth)
    decreases depth
  {
    if p !in t.funding {
      var id :| id in b && b[id].confirmedOnce && Change(b[id], p) && AllDescend(b, t, b[id].body, depth - 1);
      assert SameTransaction(b[id], after[id]);
      forall k | 0 <= k < |b[id].body.inputs| ensures Descends(after, t, b[id].body.inputs[k].point, depth - 1) {
        StillDescends(b, after, t, b[id].body.inputs[k].point, depth - 1);
      }
      assert AllDescend(after, t, after[id].body, depth - 1);
    }
  }

  // ---- What the books always satisfy ----

  ghost predicate Lawful(b: Books, e: Event, t: Terms)
  {
    match e
    case IntentReserved(id, body) =>
      id == t.digest(body) && id !in b && forall k :: 0 <= k < |body.inputs| ==> Free(b, t, body.inputs[k].point)
    case IntentSigned(id, signature) => id in b && b[id].signature.None? && t.hash(signature.raw) == signature.txid
    case StateMoved(id, state, _) => id in b && b[id].signature.Some? && state != Reserved
  }

  ghost predicate GoodIntent(id: string, i: Intent, t: Terms)
  {
    && id == t.digest(i.body) && (i.state == Reserved <==> i.signature.None?)
    && (i.signature.Some? ==> t.hash(i.signature.value.raw) == i.signature.value.txid)
    && (i.state == Confirmed ==> i.confirmedOnce) && (i.state == Expired ==> i.expiredOnce)
  }

  /** Two transactions share a coin only if one of them has expired at some time. */
  ghost predicate SharedOnlyAfterExpiry(b: Books)
  {
    forall i, j, p :: i in b && j in b && i != j && Spends(b[i], p) && Spends(b[j], p) ==> b[i].expiredOnce || b[j].expiredOnce
  }

  ghost predicate Rooted(b: Books, t: Terms)
  {
    forall id :: id in b ==> exists depth: nat :: AllDescend(b, t, b[id].body, depth)
  }

  ghost predicate Sound(b: Books, t: Terms)
  {
    (forall id :: id in b ==> GoodIntent(id, b[id], t)) && SharedOnlyAfterExpiry(b) && Rooted(b, t)
  }

  lemma ApplyKeeps(b: Books, e: Event, t: Terms)
    requires Lawful(b, e, t)
    ensures Kept(b, Apply(b, e))
  {
  }

  /** A coin that is free leads back to the manifest. */
  lemma FreeDescends(b: Books, t: Terms, p: Outpoint) returns (depth: nat)
    requires Sound(b, t) && Free(b, t, p)
    ensures Descends(b, t, p, depth)
  {
    depth := 0;
    if p !in t.funding {
      var id :| id in b && b[id].state == Confirmed && Change(b[id], p);
      assert GoodIntent(id, b[id], t);
      var below: nat :| AllDescend(b, t, b[id].body, below);
      depth := below + 1;
      assert AllDescend(b, t, b[id].body, depth - 1);
    }
  }

  lemma {:induction false} InputsDescend(b: Books, t: Terms, body: Body, n: nat) returns (depth: nat)
    requires Sound(b, t) && n <= |body.inputs| && forall k :: 0 <= k < |body.inputs| ==> Free(b, t, body.inputs[k].point)
    ensures forall k :: 0 <= k < n ==> Descends(b, t, body.inputs[k].point, depth)
  {
    depth := 0;
    if n > 0 {
      var before := InputsDescend(b, t, body, n - 1);
      var last := FreeDescends(b, t, body.inputs[n - 1].point);
      depth := if before >= last then before else last;
      Deeper(b, t, body.inputs[n - 1].point, last, depth);
      forall k | 0 <= k < n - 1 ensures Descends(b, t, body.inputs[k].point, depth) {
        Deeper(b, t, body.inputs[k].point, before, depth);
      }
    }
  }

  lemma RootedKeeps(b: Books, after: Books, t: Terms, id: string)
    requires Rooted(b, t) && Kept(b, after) && id in b
    ensures exists depth: nat :: AllDescend(after, t, after[id].body, depth)
  {
    var depth: nat :| AllDescend(b, t, b[id].body, depth);
    assert SameTransaction(b[id], after[id]);
    forall k | 0 <= k < |b[id].body.inputs| ensures Descends(after, t, b[id].body.inputs[k].point, depth) {
      StillDescends(b, after, t, b[id].body.inputs[k].point, depth);
    }
    assert AllDescend(after, t, after[id].body, depth);
  }

  lemma ApplyRooted(b: Books, e: Event, t: Terms)
    requires Sound(b, t) && Lawful(b, e, t)
    ensures Rooted(Apply(b, e), t)
  {
    var after := Apply(b, e);
    ApplyKeeps(b, e, t);
    forall id | id in after ensures exists depth: nat :: AllDescend(after, t, after[id].body, depth) {
      if id in b {
        RootedKeeps(b, after, t, id);
      } else {
        var depth := InputsDescend(b, t, e.body, |e.body.inputs|);
        forall k | 0 <= k < |e.body.inputs| ensures Descends(after, t, e.body.inputs[k].point, depth) {
          StillDescends(b, after, t, e.body.inputs[k].point, depth);
        }
        assert AllDescend(after, t, after[id].body, depth);
      }
    }
  }

  lemma ApplyShares(b: Books, e: Event, t: Terms)
    requires Sound(b, t) && Lawful(b, e, t)
    ensures SharedOnlyAfterExpiry(Apply(b, e))
  {
    var after := Apply(b, e);
    forall i, j, p | i in after && j in after && i != j && Spends(after[i], p) && Spends(after[j], p)
      ensures after[i].expiredOnce || after[j].expiredOnce
    {
      if i in b && j in b {
        assert Spends(b[i], p) && Spends(b[j], p);
      } else {
        var held := if i in b then i else j;
        var k :| 0 <= k < |e.body.inputs| && e.body.inputs[k].point == p;
        assert Free(b, t, p) && Spends(b[held], p);
        assert GoodIntent(held, b[held], t);
      }
    }
  }

  lemma ApplySound(b: Books, e: Event, t: Terms)
    requires Sound(b, t) && Lawful(b, e, t)
    ensures Sound(Apply(b, e), t) && Kept(b, Apply(b, e))
  {
    ApplyKeeps(b, e, t);
    ApplyRooted(b, e, t);
    ApplyShares(b, e, t);
    var after := Apply(b, e);
    forall id | id in after ensures GoodIntent(id, after[id], t) {
      if id in b { assert GoodIntent(id, b[id], t); }
    }
  }

  // ---- Whole runs ----

  function Replay(log: Order<Event>): Books
  {
    match log
    case Start => map[]
    case Then(before, e) => Apply(Replay(before), e)
  }

  ghost predicate LawfulLog(log: Order<Event>, t: Terms)
  {
    log.Then? ==> LawfulLog(log.before, t) && Lawful(Replay(log.before), log.key, t)
  }

  /** In every run, every input leads back to the funding manifest and never to a stake's backing. */
  lemma {:induction false} RunSound(log: Order<Event>, t: Terms)
    requires LawfulLog(log, t)
    ensures Sound(Replay(log), t)
  {
    if log.Then? {
      RunSound(log.before, t);
      ApplySound(Replay(log.before), log.key, t);
    }
  }

  /** A recorded transaction, and its signature once it has one, never changes for the rest of a run. */
  lemma {:induction false} RunKeeps(log: Order<Event>, earlier: Order<Event>, t: Terms)
    requires LawfulLog(log, t) && Extends(log, earlier)
    ensures Kept(Replay(earlier), Replay(log))
    decreases log
  {
    if log != earlier {
      RunSound(log.before, t);
      RunKeeps(log.before, earlier, t);
      ApplySound(Replay(log.before), log.key, t);
      forall id | id in Replay(earlier) ensures id in Replay(log) && SameTransaction(Replay(earlier)[id], Replay(log)[id]) {
        assert SameTransaction(Replay(earlier)[id], Replay(log.before)[id]);
        assert SameTransaction(Replay(log.before)[id], Replay(log)[id]);
      }
    }
  }

  // ---- When live transactions share a coin ----

  /** Another transaction that has not expired spends one of its coins. */
  ghost predicate Contested(b: Books, id: string)
  {
    id in b && exists j, p :: j in b && j != id && b[j].state != Expired && Spends(b[id], p) && Spends(b[j], p)
  }

  /** No two transactions that have not expired spend one coin. */
  ghost predicate LiveApart(b: Books)
  {
    forall id :: id in b && b[id].state != Expired ==> !Contested(b, id)
  }

  /** The event brings an expired transaction back while another one holds a coin of it. */
  ghost predicate Revives(b: Books, e: Event)
  {
    e.StateMoved? && e.id in b && b[e.id].state == Expired && e.state != Expired && Contested(b, e.id)
  }

  lemma SameSpends(b: Books, e: Event, t: Terms, id: string)
    requires Lawful(b, e, t) && id in b
    ensures id in Apply(b, e) && forall p :: Spends(Apply(b, e)[id], p) <==> Spends(b[id], p)
    ensures !(e.StateMoved? && e.id == id) ==> (Apply(b, e)[id].state == Expired ==> b[id].state == Expired)
    ensures !(e.StateMoved? && e.id == id) && b[id].signature.Some? ==> Apply(b, e)[id] == b[id]
  {
    ApplyKeeps(b, e, t);
    assert Apply(b, e)[id].body == b[id].body;
  }

  /** Two transactions recorded before the event that have not expired after it share no coin, unless the
      event revives one of them. */
  lemma OldApart(b: Books, e: Event, t: Terms, i: string, j: string, p: Outpoint)
    requires Sound(b, t) && Lawful(b, e, t) && LiveApart(b) && !Revives(b, e) && i in b && j in b && i != j
    requires Apply(b, e)[i].state != Expired && Apply(b, e)[j].state != Expired
    ensures !(Spends(b[i], p) && Spends(b[j], p))
  {
    assert b[j].state != Expired && Spends(b[i], p) && Spends(b[j], p) ==> Contested(b, i);
    assert b[i].state != Expired && Spends(b[i], p) && Spends(b[j], p) ==> Contested(b, j);
  }

  /** A new transaction shares no coin with one that has not expired. */
  lemma NewApart(b: Books, e: Event, t: Terms, j: string, p: Outpoint)
    requires Lawful(b, e, t) && e.IntentReserved? && j in b && b[j].state != Expired
    ensures !(Spends(Apply(b, e)[e.id], p) && Spends(b[j], p))
  {
    if k :| 0 <= k < |e.body.inputs| && e.body.inputs[k].point == p { assert Free(b, t, p); }
  }

  lemma StillApart(b: Books, e: Event, t: Terms, i: string, j: string, p: Outpoint)
    requires Sound(b, t) && Lawful(b, e, t) && LiveApart(b) && !Revives(b, e)
    requires i in Apply(b, e) && j in Apply(b, e) && i != j
    requires Apply(b, e)[i].state != Expired && Apply(b, e)[j].state != Expired
    ensures !(Spends(Apply(b, e)[i], p) && Spends(Apply(b, e)[j], p))
  {
    if i in b { SameSpends(b, e, t, i); }
    if j in b { SameSpends(b, e, t, j); }
    if i in b && j in b {
      OldApart(b, e, t, i, j, p);
    } else {
      NewApart(b, e, t, if i in b then i else j, p);
    }
  }

  /** Live transactions stay apart exactly when the event does not revive an expired one whose coin was taken. */
  lemma ApplyApartIff(b: Books, e: Event, t: Terms)
    requires Sound(b, t) && Lawful(b, e, t) && LiveApart(b)
    ensures LiveApart(Apply(b, e)) <==> !Revives(b, e)
  {
    var after := Apply(b, e);
    if Revives(b, e) {
      var j, p :| j in b && j != e.id && b[j].state != Expired && Spends(b[e.id], p) && Spends(b[j], p);
      SameSpends(b, e, t, e.id);
      assert after[j] == b[j] && Spends(after[j], p) && Spends(after[e.id], p);
      assert Contested(after, e.id);
    } else {
      forall i, j, p | i in after && j in after && i != j && after[i].state != Expired && after[j].state != Expired
        ensures !(Spends(after[i], p) && Spends(after[j], p))
      {
        StillApart(b, e, t, i, j, p);
      }
    }
  }

  /** Live transactions were apart after every event of the run. */
  ghost predicate AlwaysApart(log: Order<Event>)
  {
    LiveApart(Replay(log)) && (log.Then? ==> AlwaysApart(log.before))
  }

  ghost predicate NeverRevives(log: Order<Event>)
  {
    log.Then? ==> NeverRevives(log.before) && !Revives(Replay(log.before), log.key)
  }

  /** In a run, no two live transactions ever hold one coin exactly when no expired transaction is brought
      back while another holds its coin. */
  lemma {:induction false} RunApartIff(log: Order<Event>, t: Terms)
    requires LawfulLog(log, t)
    ensures AlwaysApart(log) <==> NeverRevives(log)
  {
    if log.Then? {
      RunApartIff(log.before, t);
      RunSound(log.before, t);
      if AlwaysApart(log.before) { ApplyApartIff(Replay(log.before), log.key, t); }
    }
  }

  lemma OneMore(log: Order<Event>, b: Books, e: Event, after: Books, t: Terms) returns (more: Order<Event>)
    requires LawfulLog(log, t) && Replay(log) == b && Lawful(b, e, t) && Apply(b, e) == after
    ensures LawfulLog(more, t) && Replay(more) == after
  {
    more := Then(log, e);
  }

  function Entry(height: int, x: Outpoint): Body
  {
    Body(NearMiss, height, "", "", [Coin(x, 1, 0)])
  }

  function Ended(body: Body, state: State, block: Option<string>): Intent
  {
    Intent(body, state, Some(Signature("txid", "raw")), block, state == Confirmed, true)
  }

  /** A near-miss entry that was signed and has expired. */
  lemma ExpiredRun(t: Terms, x: Outpoint) returns (log: Order<Event>)
    requires x in t.funding && t.hash("raw") == "txid"
    ensures LawfulLog(log, t) && Replay(log) == map[t.digest(Entry(1, x)) := Ended(Entry(1, x), Expired, None)]
  {
    var a := Entry(1, x);
    var i := t.digest(a);
    var reserved := Intent(a, Reserved, None, None, false, false);
    var signed := reserved.(signature := Some(Signature("txid", "raw")), state := Signed);
    log := OneMore(Start, map[], IntentReserved(i, a), map[i := reserved], t);
    log := OneMore(log, map[i := reserved], IntentSigned(i, Signature("txid", "raw")), map[i := signed], t);
    log := OneMore(log, map[i := signed], StateMoved(i, Expired, None), map[i := Ended(a, Expired, None)], t);
  }

  /** An expired transaction can still confirm, so two live transactions can hold one coin: expiry released
      it, another took it, and the first then confirmed. */
  lemma LiveTransactionsCanShare(t: Terms, x: Outpoint, block: string) returns (log: Order<Event>)
    requires x in t.funding && t.hash("raw") == "txid" && t.digest(Entry(1, x)) != t.digest(Entry(2, x))
    ensures LawfulLog(log, t)
    ensures var i, j := t.digest(Entry(1, x)), t.digest(Entry(2, x));
            && i in Replay(log) && j in Replay(log)
            && Replay(log)[i].state == Confirmed && Replay(log)[j].state == Reserved
            && Spends(Replay(log)[i], x) && Spends(Replay(log)[j], x) && !LiveApart(Replay(log))
  {
    var a, b := Entry(1, x), Entry(2, x);
    var i, j := t.digest(a), t.digest(b);
    log := ExpiredRun(t, x);
    var other := Intent(b, Reserved, None, None, false, false);
    var before, both := map[i := Ended(a, Expired, None)], map[i := Ended(a, Expired, None), j := other];
    assert Free(before, t, x);
    log := OneMore(log, before, IntentReserved(j, b), both, t);
    log := OneMore(log, both, StateMoved(i, Confirmed, Some(block)), map[i := Ended(a, Confirmed, Some(block)), j := other], t);
    assert a.inputs[0].point == x && b.inputs[0].point == x;
  }
}
