/** The coordinator's lock-held sections over shares: submission, the stages of a verification, the retry
    of a deferred share, and restart. Each is one step of the receipt protocol. */
module Coordination {
  import opened Outcomes
  import opened Orders
  import opened Tallies
  import opened Shares
  import opened WorkLeases
  import opened ReceiptProtocol

  /** What a checked proof means for a share. */
  function Verdict(proof: nat, nearMiss: bool, job: Job, admitted: string, parentNow: string): (v: Status)
    ensures !Waiting(v)
    ensures v == Verified <==> proof < job.target && admitted == job.parent == parentNow
  {
    if proof >= job.target && !nearMiss then Invalid
    else if admitted != job.parent || parentNow != job.parent then Stale
    else if proof < job.target then Verified else NearMiss
  }

  class Coordinator {
    const c: Config
    var number: nat
    var jobs: map<string, Job>
    var leases: map<string, Lease>
    var receipts: map<string, Record>
    var solutions: map<string, Solution>
    var waiting: int
    var verified: map<string, int>
    var inflight: set<string>
    var threads: map<nat, Thread>
    ghost var run: Order<Action>

    ghost function Current(): State
      reads this
    {
      State(number, jobs, leases, receipts, solutions, waiting, verified, inflight, threads)
    }

    /** The fields are where some run of the protocol has led. */
    ghost predicate Valid()
      reads this
    {
      Current() == After(c, run)
    }

    constructor (c: Config)
      ensures Valid() && this.c == c && run == Start
    {
      this.c, run := c, Start;
      number, jobs, leases, receipts, solutions, waiting, verified, inflight, threads :=
        0, map[], map[], map[], map[], 0, map[], {}, map[];
    }

    /** What every state of the coordinator satisfies. */
    lemma Holds()
      requires Valid()
      ensures Inv(Current(), c) && Counted(Current(), c)
    {
      RunSafe(c, run);
    }

    lemma ShareKnown(t: nat)
      requires Valid() && t in threads
      ensures threads[t].identity in receipts
      ensures var r := receipts[threads[t].identity]; r.lease in leases && leases[r.lease].job in jobs
    {
      RunSafe(c, run);
      assert Owned(c.name, leases, number, threads[t].identity, receipts[threads[t].identity]);
    }

    /** Record a status, keeping the count of unsettled shares and of the account's verified ones. */
    method RecordStatus(identity: string, status: Status)
      requires identity in receipts
      modifies this`number, this`receipts, this`waiting, this`verified
      ensures Current() == SetStatus(old(Current()), identity, status)
    {
      var r := receipts[identity];
      number := number + 1;
      if Waiting(status) { waiting := waiting + 1; }
      if Waiting(r.share.status) { waiting := waiting - 1; }
      var change := (if status == Verified then 1 else 0) - (if r.share.status == Verified then 1 else 0);
      verified := verified[r.share.account := Get(verified, r.share.account) + change];
      receipts := receipts[identity := r.(share := r.share.(status := status))];
    }

    /** Admit a worker's share: cheap checks first, then a permit, then the durable record. When the journal
        refuses the record, nothing has changed. */
    method Submit(t: nat, account: string, lease: string, nonce: nat, best: string, durable: bool)
      returns (answer: Answer)
      requires Valid() && t !in threads
      modifies this`number, this`receipts, this`waiting, this`inflight, this`threads, this`run
      ensures Valid() && answer == Decide(old(Current()), c, account, lease, nonce, best)
      ensures run == if answer == Admitted(true) && !durable then old(run)
                     else Then(old(run), Action.Admit(t, Admission.Submit(account, lease, nonce, best)))
    {
      answer := AdmitShare(t, account, lease, nonce, best, durable);
      if answer != Admitted(true) || durable {
        run := Then(run, Action.Admit(t, Admission.Submit(account, lease, nonce, best)));
      }
    }

    method AdmitShare(t: nat, account: string, lease: string, nonce: nat, best: string, durable: bool)
      returns (answer: Answer)
      requires t !in threads
      modifies this`number, this`receipts, this`waiting, this`inflight, this`threads
      ensures answer == Decide(old(Current()), c, account, lease, nonce, best)
      ensures Current() == (if answer == Admitted(true) && !durable then old(Current())
                            else SubmitNext(old(Current()), c, t, account, lease, nonce, best))
    {
      answer := Judge(account, lease, nonce, best);
      if !answer.Admitted? || (answer.isNew && !durable) { return; }
      var job := jobs[leases[lease].job];
      var identity := c.name(job.template, nonce);
      if answer.isNew {
        number := number + 1;
        receipts := receipts[identity := Record(Receipt(number, account, job.height, job.target, job.feePpm, Pending), lease, nonce, best)];
        waiting := waiting + 1;
      }
      inflight := inflight + {identity};
      threads := threads[t := Thread(identity, Checking)];
    }

    /** The checks on a submission, in their order. */
    method Judge(account: string, lease: string, nonce: nat, best: string) returns (answer: Answer)
      ensures answer == Decide(Current(), c, account, lease, nonce, best)
    {
      if lease !in leases || leases[lease].account != account { return Unauthorized; }
      if !(leases[lease].start <= nonce < leases[lease].end) || leases[lease].job !in jobs { return Unauthorized; }
      var job := jobs[leases[lease].job];
      var identity := c.name(job.template, nonce);
      if identity in inflight { return InFlight; }
      if identity in receipts && receipts[identity].share.status != Deferred { return Duplicate(receipts[identity].share.status); }
      var isNew := identity !in receipts;
      if isNew && waiting >= c.capacity { return Busy; }
      if isNew && best != job.parent { return StaleWork; }
      if |threads| >= c.capacity { return Busy; }
      answer := Admitted(isNew);
    }

    /** The deferred share to retry: the earliest one not in flight. */
    ghost predicate Earliest(identity: string)
      reads this
    {
      && identity in receipts && receipts[identity].share.status == Deferred && identity !in inflight
      && forall j :: j in receipts && receipts[j].share.status == Deferred && j !in inflight ==>
           receipts[identity].share.number <= receipts[j].share.number
    }

    method FindDeferred() returns (found: Option<string>)
      ensures found.Some? ==> Earliest(found.value)
      ensures found.None? ==> forall j :: j in receipts && receipts[j].share.status == Deferred ==> j in inflight
    {
      found := None;
      var left := receipts.Keys;
      while left != {}
        invariant left <= receipts.Keys
        invariant found.Some? ==>
                  found.value in receipts && receipts[found.value].share.status == Deferred && found.value !in inflight
        invariant forall j :: j in receipts && j !in left && receipts[j].share.status == Deferred && j !in inflight ==>
                    found.Some? && receipts[found.value].share.number <= receipts[j].share.number
        decreases |left|
      {
        var j := Pick(left);
        if receipts[j].share.status == Deferred && j !in inflight
           && (found.None? || receipts[j].share.number < receipts[found.value].share.number) {
          found := Some(j);
        }
        left := left - {j};
      }
    }

    /** Retry one deferred share within the same bounds. */
    method RetryDeferred(t: nat) returns (found: Option<string>)
      requires Valid() && t !in threads
      modifies this`inflight, this`threads, this`run
      ensures Valid()
      ensures found.Some? ==>
                old(Earliest(found.value)) && run == Then(old(run), Action.Admit(t, Admission.Retry(found.value)))
      ensures found.Some? ==> found.value in inflight && threads == old(threads)[t := Thread(found.value, Checking)]
      ensures found.None? ==> Current() == old(Current()) && run == old(run)
    {
      found := FindDeferred();
      if found.None? || |threads| >= c.capacity { return None; }
      inflight := inflight + {found.value};
      threads := threads[t := Thread(found.value, Checking)];
      run := Then(run, Action.Admit(t, Admission.Retry(found.value)));
    }

    // ---- The stages of a verification ----

    /** One stage of a verification, from where that stage can follow. */
    method Proceed(t: nat, p: Progress)
      requires Valid() && t in threads && threads[t].phase in From(p) && !(p.Settle? && Waiting(p.status))
      modifies this`number, this`receipts, this`waiting, this`verified, this`threads, this`run
      ensures Valid() && run == Then(old(run), Action.Verify(t, p))
    {
      ShareKnown(t);
      Advance(t, p);
      run := Then(run, Action.Verify(t, p));
    }

    method Advance(t: nat, p: Progress)
      requires t in threads && threads[t].identity in receipts
      requires threads[t].phase in From(p) && !(p.Settle? && Waiting(p.status))
      modifies this`number, this`receipts, this`waiting, this`verified, this`threads
      ensures Current() == VerifyNext(old(Current()), t, p)
    {
      var identity := threads[t].identity;
      var status := NewStatus(p, receipts[identity].share.status);
      if status.Some? { RecordStatus(identity, status.value); }
      threads := threads[t := threads[t].(phase := To(p))];
    }

    /** Record the verdict on a checked proof. */
    method SettleShare(t: nat, proof: nat, nearMiss: bool, parentNow: string) returns (status: Status)
      requires Valid() && t in threads && threads[t].phase == Checking
      modifies this`number, this`receipts, this`waiting, this`verified, this`threads, this`run
      ensures Valid() && run == Then(old(run), Action.Verify(t, Progress.Settle(status)))
      ensures exists r, job :: old(threads[t].identity in receipts && receipts[threads[t].identity] == r
                                   && r.lease in leases && leases[r.lease].job in jobs && jobs[leases[r.lease].job] == job)
                               && status == Verdict(proof, nearMiss, job, r.parent, parentNow)
    {
      ShareKnown(t);
      var r := receipts[threads[t].identity];
      var job := jobs[leases[r.lease].job];
      status := Verdict(proof, nearMiss, job, r.parent, parentNow);
      Proceed(t, Progress.Settle(status));
    }

    /** A verified share that also meets the network target fixes its block's cutoff. */
    method RecordSolution(t: nat, block: string)
      requires Valid() && t in threads && threads[t].phase == Settled
      modifies this`number, this`solutions, this`run
      ensures Valid() && run == Then(old(run), Action.Solve(t, block))
    {
      ShareKnown(t);
      var identity := threads[t].identity;
      if receipts[identity].share.status == Verified && block !in solutions {
        number := number + 1;
        solutions := solutions[block := Solution(identity, receipts[identity].share.number)];
      }
      run := Then(run, Action.Solve(t, block));
    }

    /** No longer in flight; the permit is still held. */
    method DiscardShare(t: nat)
      requires Valid() && t in threads && threads[t].phase in {Settled, Finishing}
      modifies this`inflight, this`threads, this`run
      ensures Valid() && run == Then(old(run), Action.Discard(t))
    {
      ShareKnown(t);
      inflight := inflight - {threads[t].identity};
      threads := threads[t := threads[t].(phase := Leaving)];
      run := Then(run, Action.Discard(t));
    }

    method ReleasePermit(t: nat)
      requires Valid() && t in threads && threads[t].phase == Leaving
      modifies this`threads, this`run
      ensures Valid() && run == Then(old(run), Action.Release(t))
    {
      ShareKnown(t);
      threads := threads - {t};
      run := Then(run, Action.Release(t));
    }

    // ---- Restart ----

    /** Start over: nothing is in flight, and every share left pending is deferred. */
    method Restart()
      requires Valid()
      modifies this`number, this`receipts, this`waiting, this`verified, this`inflight, this`threads, this`run
      ensures Valid() && Extends(run, old(run)) && inflight == {} && threads == map[]
      ensures receipts.Keys == old(receipts).Keys && forall id :: id in receipts ==> receipts[id].share.status != Pending
    {
      inflight, threads := {}, map[];
      run := Then(run, Action.Restart);
      RequeueAll(old(run));
    }

    method RequeueAll(ghost earlier: Order<Action>)
      requires Valid() && inflight == {} && Extends(run, earlier)
      modifies this`number, this`receipts, this`waiting, this`verified, this`run
      ensures Valid() && Extends(run, earlier)
      ensures receipts.Keys == old(receipts).Keys && forall id :: id in receipts ==> receipts[id].share.status != Pending
    {
      var left := receipts.Keys;
      while left != {}
        invariant Valid() && Extends(run, earlier)
        invariant receipts.Keys == old(receipts).Keys && left <= receipts.Keys
        invariant forall id :: id in receipts && id !in left ==> receipts[id].share.status != Pending
        decreases |left|
      {
        var id := Pick(left);
        Requeue(id, earlier);
        left := left - {id};
      }
    }

    method Requeue(id: string, ghost earlier: Order<Action>)
      requires Valid() && inflight == {} && id in receipts && Extends(run, earlier)
      modifies this`number, this`receipts, this`waiting, this`verified, this`run
      ensures Valid() && Extends(run, earlier)
      ensures receipts.Keys == old(receipts).Keys && receipts[id].share.status != Pending
      ensures forall j :: j in receipts && j != id ==> receipts[j] == old(receipts)[j]
    {
      if receipts[id].share.status == Pending { RecordStatus(id, Deferred); }
      run := Then(run, Action.Requeue(id));
    }
  }
}
