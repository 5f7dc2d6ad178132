/** Admitting and settling shares: the atomic steps of submission, verification, retry and restart, under
    any interleaving, with the verification queue bounded by a fixed capacity. */
module ReceiptProtocol {
  import opened Outcomes
  import opened Orders
  import opened Tallies
  import opened Shares
  import opened WorkLeases
  import Accounting

  /** What was frozen when work was issued. */
  datatype Job = Job(template: string, height: int, target: nat, networkTarget: nat, parent: string, feePpm: nat)

  datatype Record = Record(share: Receipt, lease: string, nonce: nat, parent: string)

  /** Where a verification stands: proof being checked; status recorded; an exception raised; the handler
      done; no longer in flight but still holding its permit. */
  datatype Phase = Checking | Settled | Raised | Finishing | Leaving

  datatype Thread = Thread(identity: string, phase: Phase)

  datatype Solution = Solution(identity: string, cutoff: nat)

  datatype State = State(
    number: nat, jobs: map<string, Job>, leases: map<string, Lease>, receipts: map<string, Record>,
    solutions: map<string, Solution>, waiting: int, verified: map<string, int>, inflight: set<string>, threads: map<nat, Thread>)

  /** A job, a lease, or some other event enters the journal. */
  datatype Item = AddJob(job: string, frozen: Job) | AddLease(lease: string, range: Lease) | OtherEvent

  /** How a verification starts: a worker's submission, or a retry of a deferred share. */
  datatype Admission = Submit(account: string, lease: string, nonce: nat, best: string) | Retry(identity: string)

  /** What a verification does: the verifier is busy; a status is recorded; an exception; its handler,
      whose own record may fail. */
  datatype Progress = Defer | Settle(status: Status) | Throw | Handle(recorded: bool)

  datatype Action =
    | Enter(item: Item)
    | Admit(thread: nat, how: Admission)
    | Verify(thread: nat, progress: Progress)
    | Solve(thread: nat, block: string)
    | Discard(thread: nat)
    | Release(thread: nat)
    | Restart
    | Requeue(identity: string)

  const INITIAL: State := State(0, map[], map[], map[], map[], 0, map[], {}, map[])

  // ---- Identities ----

  function HexDigit(d: nat): char
    requires d < 16
  {
    "0123456789abcdef"[d]
  }

  function Hex(n: nat, width: nat): string
  {
    if width == 0 then "" else Hex(n / 16, width - 1) + [HexDigit(n % 16)]
  }

  /** A share's identity: its template and its nonce in sixteen hexadecimal digits. */
  function Identity(template: string, nonce: nat): string
  {
    template + ":" + Hex(nonce, 16)
  }

  ghost function Power16(k: nat): nat
  {
    if k == 0 then 1 else 16 * Power16(k - 1)
  }

  lemma {:induction false} HexInjective(m: nat, n: nat, width: nat)
    requires m < Power16(width) && n < Power16(width) && Hex(m, width) == Hex(n, width)
    ensures m == n
  {
    if width > 0 {
      LastDigit(Hex(m / 16, width - 1), HexDigit(m % 16), Hex(n / 16, width - 1), HexDigit(n % 16));
      HexInjective(m / 16, n / 16, width - 1);
      DigitInjective(m % 16, n % 16);
    }
  }

  lemma LastDigit(a: string, x: char, b: string, y: char)
    requires a + [x] == b + [y]
    ensures a == b && x == y
  {
    assert |a + [x]| == |a| + 1 && |b + [y]| == |b| + 1;
    assert (a + [x])[..|a|] == a && (b + [y])[..|b|] == b;
    assert (a + [x])[|a|] == x && (b + [y])[|b|] == y;
  }

  lemma DigitInjective(c: nat, d: nat)
    requires c < 16 && d < 16 && HexDigit(c) == HexDigit(d)
    ensures c == d
  {
  }

  lemma {:induction false} HexLength(n: nat, width: nat)
    ensures |Hex(n, width)| == width
  {
    if width > 0 { HexLength(n / 16, width - 1); }
  }

  lemma Power16Is64Bits()
    ensures Power16(16) == NONCES
  {
    assert Power16(4) == 65536;
    assert Power16(8) == 65536 * 65536;
    assert Power16(12) == 65536 * 65536 * 65536;
  }

  /** Different shares have different identities. */
  lemma IdentityInjective(t: string, m: nat, u: string, n: nat)
    requires m < NONCES && n < NONCES && Identity(t, m) == Identity(u, n)
    ensures t == u && m == n
  {
    HexLength(m, 16);
    HexLength(n, 16);
    var a, b := Identity(t, m), Identity(u, n);
    assert a[..|a| - 17] == t && b[..|b| - 17] == u;
    assert a[|a| - 16..] == Hex(m, 16) && b[|b| - 16..] == Hex(n, 16);
    Power16Is64Bits();
    HexInjective(m, n, 16);
  }

  /** The queue's capacity, and the text that names a share of a template. */
  datatype Config = Config(capacity: nat, name: (string, nat) -> string)

  // ---- Steps ----

  predicate Active(t: Thread)
  {
    t.phase != Leaving
  }

  /** Record a status for a share, keeping the two counts. */
  function SetStatus(s: State, identity: string, status: Status): State
    requires identity in s.receipts
  {
    var r := s.receipts[identity];
    var was := r.share.status;
    s.(number := s.number + 1,
       receipts := s.receipts[identity := Restamp(r, status)],
       waiting := s.waiting + (if Waiting(status) then 1 else 0) - (if Waiting(was) then 1 else 0),
       verified := s.verified[r.share.account := Get(s.verified, r.share.account)
                                + (if status == Verified then 1 else 0) - (if was == Verified then 1 else 0)])
  }

  function Begin(s: State, thread: nat, identity: string): State
  {
    s.(inflight := s.inflight + {identity}, threads := s.threads[thread := Thread(identity, Checking)])
  }

  function Move(s: State, thread: nat, phase: Phase): State
    requires thread in s.threads
  {
    s.(threads := s.threads[thread := s.threads[thread].(phase := phase)])
  }

  /** The lease is the account's own and covers the nonce, and its job is known. */
  predicate Authorized(s: State, account: string, lease: string, nonce: nat)
  {
    && lease in s.leases && s.leases[lease].account == account
    && s.leases[lease].start <= nonce < s.leases[lease].end && s.leases[lease].job in s.jobs
  }

  datatype Answer = Unauthorized | InFlight | Duplicate(status: Status) | Busy | StaleWork | Admitted(isNew: bool)

  function Decide(s: State, c: Config, account: string, lease: string, nonce: nat, best: string): Answer
  {
    if !Authorized(s, account, lease, nonce) then Unauthorized else
    var job := s.jobs[s.leases[lease].job];
    var identity := c.name(job.template, nonce);
    if identity in s.inflight then InFlight
    else if identity in s.receipts && s.receipts[identity].share.status != Deferred then Duplicate(s.receipts[identity].share.status)
    else if identity !in s.receipts && s.waiting >= c.capacity then Busy
    else if identity !in s.receipts && best != job.parent then StaleWork
    else if |s.threads| >= c.capacity then Busy
    else Admitted(identity !in s.receipts)
  }

  function NewRecord(s: State, account: string, lease: string, nonce: nat, best: string): Record
    requires Authorized(s, account, lease, nonce)
  {
    var job := s.jobs[s.leases[lease].job];
    Record(Receipt(s.number + 1, account, job.height, job.target, job.feePpm, Pending), lease, nonce, best)
  }

  function AddReceipt(s: State, identity: string, r: Record): State
  {
    s.(number := s.number + 1, receipts := s.receipts[identity := r], waiting := s.waiting + 1)
  }

  function SubmitNext(s: State, c: Config, thread: nat, account: string, lease: string, nonce: nat, best: string): State
  {
    var answer := Decide(s, c, account, lease, nonce, best);
    if !answer.Admitted? || thread in s.threads then s else
    var identity := c.name(s.jobs[s.leases[lease].job].template, nonce);
    if answer.isNew then Begin(AddReceipt(s, identity, NewRecord(s, account, lease, nonce, best)), thread, identity)
    else Begin(s, thread, identity)
  }

  function RetryNext(s: State, c: Config, thread: nat, identity: string): State
  {
    if identity in s.receipts && s.receipts[identity].share.status == Deferred && identity !in s.inflight
       && |s.threads| < c.capacity && thread !in s.threads
    then Begin(s, thread, identity) else s
  }

  predicate InPhase(s: State, thread: nat, phases: set<Phase>)
  {
    thread in s.threads && s.threads[thread].phase in phases && s.threads[thread].identity in s.receipts
  }

  /** A job's share target and fee rate are within range. */
  predicate GoodJob(job: Job)
  {
    Accounting.TargetInRange(job.target) && job.feePpm <= Accounting.MILLION
  }

  /** The job new work is issued under: its target is the easier of the pool's and the network's. */
  function NewJob(template: string, height: int, poolTarget: nat, networkTarget: nat, parent: string, feePpm: nat): Job
  {
    Job(template, height, if networkTarget > poolTarget then networkTarget else poolTarget, networkTarget, parent, feePpm)
  }

  /** Every job the coordinator issues is in range: the pool's target is positive, targets are 256-bit numbers,
      and the operator's fee never exceeds a tenth. */
  lemma NewJobGood(template: string, height: int, poolTarget: nat, networkTarget: nat, parent: string, feePpm: nat)
    requires Accounting.TargetInRange(poolTarget) && networkTarget < Accounting.SPACE && feePpm <= 100_000
    ensures GoodJob(NewJob(template, height, poolTarget, networkTarget, parent, feePpm))
  {
  }

  predicate Disjoint(x: Lease, y: Lease)
  {
    x.end <= y.start || y.end <= x.start
  }

  /** No lease of the same template overlaps this one. */
  predicate ApartFrom(l: Lease, leases: map<string, Lease>)
  {
    forall id :: id in leases && leases[id].template == l.template ==> Disjoint(leases[id], l)
  }

  /** Every lease the desk records is apart from those recorded before it. */
  lemma IssuedApart(history: Order<Lease>, l: Lease, leases: map<string, Lease>)
    requires Apart(Then(history, l)) && forall id :: id in leases ==> leases[id] in Visited(history)
    ensures ApartFrom(l, leases) && l.end <= NONCES
  {
    forall id | id in leases && leases[id].template == l.template ensures Disjoint(leases[id], l) {
      EndCovers(history, leases[id]);
    }
  }

  /** Jobs enter with their targets in range, and leases for known jobs apart from each other. */
  function EntryNext(s: State, e: Item): State
  {
    match e
    case AddJob(id, job) => if id in s.jobs || !GoodJob(job) then s else s.(number := s.number + 1, jobs := s.jobs[id := job])
    case AddLease(id, l) =>
      if id in s.leases || l.job !in s.jobs || l.template != s.jobs[l.job].template || l.end > NONCES || !ApartFrom(l, s.leases) then s
      else s.(number := s.number + 1, leases := s.leases[id := l])
    case OtherEvent => s.(number := s.number + 1)
  }

  /** The phases a step of verification can be taken in. */
  function From(p: Progress): set<Phase>
  {
    match p
    case Defer => {Checking}
    case Settle(_) => {Checking}
    case Throw => {Checking, Settled}
    case Handle(_) => {Raised}
  }

  function To(p: Progress): Phase
  {
    match p
    case Defer => Raised
    case Settle(_) => Settled
    case Throw => Raised
    case Handle(_) => Finishing
  }

  /** The status a step records, if any, for a share with the given one. */
  function NewStatus(p: Progress, status: Status): Option<Status>
  {
    match p
    case Defer => Some(Deferred)
    case Settle(verdict) => Some(verdict)
    case Throw => None
    case Handle(recorded) => if recorded && status == Pending then Some(Deferred) else None
  }

  function VerifyNext(s: State, t: nat, p: Progress): State
  {
    if !InPhase(s, t, From(p)) || (p.Settle? && Waiting(p.status)) then s else
    var recorded := NewStatus(p, s.receipts[s.threads[t].identity].share.status);
    if recorded.Some? then Move(SetStatus(s, s.threads[t].identity, recorded.value), t, To(p)) else Move(s, t, To(p))
  }

  /** A verified share that solves a block fixes the block's cutoff at its own place in the journal. */
  function SolveNext(s: State, t: nat, block: string): State
  {
    if InPhase(s, t, {Settled}) && s.receipts[s.threads[t].identity].share.status == Verified && block !in s.solutions
    then s.(number := s.number + 1, solutions := s.solutions[block :=
              Solution(s.threads[t].identity, s.receipts[s.threads[t].identity].share.number)])
    else s
  }

  function DiscardNext(s: State, t: nat): State
  {
    if InPhase(s, t, {Settled, Finishing}) then Move(s, t, Leaving).(inflight := s.inflight - {s.threads[t].identity}) else s
  }

  function ReleaseNext(s: State, t: nat): State
  {
    if InPhase(s, t, {Leaving}) then s.(threads := s.threads - {t}) else s
  }

  /** The process starts over from its journal: nothing is in flight and every permit is free. */
  function RestartNext(s: State): State
  {
    s.(inflight := {}, threads := map[])
  }

  /** A share left pending by a process that stopped is deferred. */
  function RequeueNext(s: State, identity: string): State
  {
    if identity in s.receipts && s.receipts[identity].share.status == Pending && identity !in s.inflight
    then SetStatus(s, identity, Deferred) else s
  }

  function Next(s: State, c: Config, a: Action): State
  {
    match a
    case Enter(e) => EntryNext(s, e)
    case Admit(t, Submit(account, lease, nonce, best)) => SubmitNext(s, c, t, account, lease, nonce, best)
    case Admit(t, Retry(identity)) => RetryNext(s, c, t, identity)
    case Verify(t, p) => VerifyNext(s, t, p)
    case Solve(t, block) => SolveNext(s, t, block)
    case Discard(t) => DiscardNext(s, t)
    case Release(t) => ReleaseNext(s, t)
    case Restart => RestartNext(s)
    case Requeue(identity) => RequeueNext(s, identity)
  }

  // ---- Invariants ----

  ghost function WaitingOf(): Record -> int
  {
    (r: Record) => if Waiting(r.share.status) then 1 else 0
  }

  ghost function VerifiedOf(account: string): Record -> int
  {
    (r: Record) => if r.share.account == account && r.share.status == Verified then 1 else 0
  }

  /** The two counts are those of the current records. */
  ghost predicate CountsExact(receipts: map<string, Record>, waiting: int, verified: map<string, int>)
  {
    waiting == Over(receipts, WaitingOf()) && forall a :: Get(verified, a) == Over(receipts, VerifiedOf(a))
  }

  /** A record belongs to the owner of the lease that covers its nonce. */
  ghost predicate Owned(name: (string, nat) -> string, leases: map<string, Lease>, number: nat, identity: string,
                        r: Record)
  {
    && r.lease in leases
    && var l := leases[r.lease];
       && r.share.account == l.account && l.start <= r.nonce < l.end <= NONCES
       && identity == name(l.template, r.nonce) && r.share.number <= number
       && Accounting.TargetInRange(r.share.target) && r.share.feePpm <= Accounting.MILLION
  }

  ghost predicate RecordsOwned(name: (string, nat) -> string, leases: map<string, Lease>, number: nat,
                               receipts: map<string, Record>)
  {
    forall id :: id in receipts ==> Owned(name, leases, number, id, receipts[id])
  }

  ghost predicate LeasesKnown(leases: map<string, Lease>, jobs: map<string, Job>)
  {
    && (forall id :: id in leases ==>
          leases[id].end <= NONCES && leases[id].job in jobs && leases[id].template == jobs[leases[id].job].template)
    && (forall id :: id in jobs ==> GoodJob(jobs[id]))
  }

  /** Leases of one template do not overlap. */
  ghost predicate LeasesApart(leases: map<string, Lease>)
  {
    forall i, j :: i in leases && j in leases && i != j && leases[i].template == leases[j].template ==>
      Disjoint(leases[i], leases[j])
  }

  /** The shares verifications are working on. */
  ghost function InWork(threads: map<nat, Thread>): set<string>
  {
    set t | t in threads && Active(threads[t]) :: threads[t].identity
  }

  ghost predicate OneEach(threads: map<nat, Thread>)
  {
    forall t, u :: t in threads && u in threads && Active(threads[t]) && Active(threads[u]) && threads[t].identity == threads[u].identity ==>
      t == u
  }

  /** Verifications in flight work on different shares, and those are the shares in flight. */
  ghost predicate ThreadsApart(threads: map<nat, Thread>, inflight: set<string>)
  {
    inflight == InWork(threads) && OneEach(threads)
  }

  /** A verification's share is recorded, and unsettled while its proof is being checked. */
  ghost predicate ThreadsOwn(threads: map<nat, Thread>, receipts: map<string, Record>)
  {
    forall t :: t in threads ==>
      threads[t].identity in receipts && (threads[t].phase == Checking ==> Waiting(receipts[threads[t].identity].share.status))
  }

  /** A solution's share is verified, and is itself the last share its cutoff admits. */
  ghost predicate SolutionsHold(solutions: map<string, Solution>, receipts: map<string, Record>)
  {
    forall b :: b in solutions ==>
      solutions[b].identity in receipts &&
      var share := receipts[solutions[b].identity].share;
      share.status == Verified && share.number == solutions[b].cutoff
  }

  ghost predicate Inv(s: State, c: Config)
  {
    && RecordsOwned(c.name, s.leases, s.number, s.receipts)
    && LeasesKnown(s.leases, s.jobs) && LeasesApart(s.leases) && ThreadsApart(s.threads, s.inflight) && ThreadsOwn(s.threads, s.receipts)
    && SolutionsHold(s.solutions, s.receipts)
    && |s.threads| <= c.capacity
  }

  /** What a later state may differ in: shares keep all but an unsettled status, new shares come later in
      the journal, and leases stay. */
  ghost predicate Later(s: State, after: State)
  {
    && s.number <= after.number
    && (forall id :: id in s.leases ==> id in after.leases && after.leases[id] == s.leases[id])
    && SharesKept(s.receipts, after.receipts, s.number)
  }

  ghost predicate SharesKept(before: map<string, Record>, after: map<string, Record>, number: nat)
  {
    && (forall id :: id in before ==> id in after && SameShare(before[id], after[id]))
    && (forall id :: id in after && id !in before ==> after[id].share.number > number)
  }

  ghost predicate SameShare(r: Record, after: Record)
  {
    && after == r.(share := r.share.(status := after.share.status))
    && (!Waiting(r.share.status) ==> after == r)
  }

  lemma LaterThrough(a: State, b: State, c: State)
    requires Later(a, b) && Later(b, c)
    ensures Later(a, c)
  {
    forall id | id in a.receipts ensures id in c.receipts && SameShare(a.receipts[id], c.receipts[id]) {
      assert SameShare(a.receipts[id], b.receipts[id]) && SameShare(b.receipts[id], c.receipts[id]);
    }
  }

  ghost predicate Keeps(s: State, after: State, c: Config)
  {
    Inv(after, c) && Later(s, after)
  }

  // ---- Writing one record ----

  function Restamp(r: Record, status: Status): Record
  {
    r.(share := r.share.(status := status))
  }

  lemma RestampCounts(receipts: map<string, Record>, waiting: int, verified: map<string, int>, id: string,
                      status: Status)
    requires id in receipts && CountsExact(receipts, waiting, verified)
    ensures var r := receipts[id];
            CountsExact(receipts[id := Restamp(r, status)],
                        waiting + (if Waiting(status) then 1 else 0) - (if Waiting(r.share.status) then 1 else 0),
                        verified[r.share.account := Get(verified, r.share.account)
                                   + (if status == Verified then 1 else 0) - (if r.share.status == Verified then 1 else 0)])
  {
    var next := Restamp(receipts[id], status);
    OverUpdate(receipts, id, next, WaitingOf());
    forall a ensures Over(receipts[id := next], VerifiedOf(a)) ==
                     Over(receipts, VerifiedOf(a)) + VerifiedOf(a)(next) - VerifiedOf(a)(receipts[id])
    {
      OverUpdate(receipts, id, next, VerifiedOf(a));
    }
  }

  lemma AddCounts(receipts: map<string, Record>, waiting: int, verified: map<string, int>, id: string, r: Record)
    requires id !in receipts && CountsExact(receipts, waiting, verified) && r.share.status == Pending
    ensures CountsExact(receipts[id := r], waiting + 1, verified)
  {
    OverUpdate(receipts, id, r, WaitingOf());
    forall a ensures Get(verified, a) == Over(receipts[id := r], VerifiedOf(a)) {
      OverUpdate(receipts, id, r, VerifiedOf(a));
    }
  }

  /** An unsettled share may take any status. */
  lemma RestampKeeps(s: State, c: Config, id: string, status: Status)
    requires id in s.receipts && Waiting(s.receipts[id].share.status)
    requires RecordsOwned(c.name, s.leases, s.number, s.receipts) && SolutionsHold(s.solutions, s.receipts)
    ensures var after := s.receipts[id := Restamp(s.receipts[id], status)];
            && RecordsOwned(c.name, s.leases, s.number + 1, after) && SolutionsHold(s.solutions, after)
            && SharesKept(s.receipts, after, s.number)
  {
    var after := s.receipts[id := Restamp(s.receipts[id], status)];
    forall j | j in after ensures Owned(c.name, s.leases, s.number + 1, j, after[j]) {
      assert Owned(c.name, s.leases, s.number, j, s.receipts[j]);
    }
  }

  // ---- Threads ----

  lemma MoveApart(threads: map<nat, Thread>, inflight: set<string>, t: nat, phase: Phase)
    requires ThreadsApart(threads, inflight) && t in threads && Active(threads[t]) && phase != Leaving
    ensures ThreadsApart(threads[t := threads[t].(phase := phase)], inflight)
  {
    var after := threads[t := threads[t].(phase := phase)];
    forall id | id in inflight ensures id in InWork(after) {
      var u :| u in threads && Active(threads[u]) && threads[u].identity == id;
      assert u in after && Active(after[u]) && after[u].identity == id;
    }
  }

  lemma EnterApart(threads: map<nat, Thread>, inflight: set<string>, t: nat, id: string)
    requires ThreadsApart(threads, inflight) && t !in threads && id !in inflight
    ensures ThreadsApart(threads[t := Thread(id, Checking)], inflight + {id})
  {
    var after := threads[t := Thread(id, Checking)];
    assert t in after && Active(after[t]);
    forall j | j in inflight ensures j in InWork(after) {
      var u :| u in threads && Active(threads[u]) && threads[u].identity == j;
      assert u in after && Active(after[u]) && after[u].identity == j;
    }
  }

  lemma LeaveApart(threads: map<nat, Thread>, inflight: set<string>, t: nat)
    requires ThreadsApart(threads, inflight) && t in threads && Active(threads[t])
    ensures ThreadsApart(threads[t := threads[t].(phase := Leaving)], inflight - {threads[t].identity})
  {
    var after := threads[t := threads[t].(phase := Leaving)];
    forall j | j in inflight - {threads[t].identity} ensures j in InWork(after) {
      var u :| u in threads && Active(threads[u]) && threads[u].identity == j;
      assert u in after && Active(after[u]) && after[u].identity == j;
    }
  }

  lemma ReleaseApart(threads: map<nat, Thread>, inflight: set<string>, t: nat)
    requires ThreadsApart(threads, inflight) && t in threads && !Active(threads[t])
    ensures ThreadsApart(threads - {t}, inflight)
  {
    var after := threads - {t};
    forall j | j in inflight ensures j in InWork(after) {
      var u :| u in threads && Active(threads[u]) && threads[u].identity == j;
      assert u in after && after[u].identity == j;
    }
  }

  /** Recording a status on a share leaves other verifications undisturbed. */
  lemma RestampOwn(threads: map<nat, Thread>, inflight: set<string>, receipts: map<string, Record>, t: nat,
                   status: Status, phase: Phase)
    requires ThreadsApart(threads, inflight) && ThreadsOwn(threads, receipts) && t in threads && Active(threads[t])
    requires phase != Checking
    ensures ThreadsOwn(threads[t := threads[t].(phase := phase)],
                       receipts[threads[t].identity := Restamp(receipts[threads[t].identity], status)])
  {
    var after, shares := threads[t := threads[t].(phase := phase)],
      receipts[threads[t].identity := Restamp(receipts[threads[t].identity], status)];
    forall u | u in after
      ensures after[u].identity in shares
      ensures (after[u].phase == Checking ==> Waiting(shares[after[u].identity].share.status))
    {
      if u != t && after[u].phase == Checking { assert Active(threads[u]); }
    }
  }

  lemma ThreadCount(threads: map<nat, Thread>, t: nat, v: Thread)
    ensures |threads[t := v]| == |threads| + if t in threads then 0 else 1
  {
    var after := threads[t := v];
    assert after.Keys == threads.Keys + {t};
    assert |after| == |after.Keys| && |threads| == |threads.Keys|;
  }

  // ---- Each step keeps the invariant ----

  /** A verification records a status for its unsettled share and moves on. */
  lemma StatusStep(s: State, c: Config, t: nat, status: Status, phase: Phase)
    requires Inv(s, c) && t in s.threads && Active(s.threads[t])
    requires Waiting(s.receipts[s.threads[t].identity].share.status)
    requires phase != Checking && phase != Leaving
    ensures Keeps(s, Move(SetStatus(s, s.threads[t].identity, status), t, phase), c)
  {
    var id := s.threads[t].identity;
    RestampKeeps(s, c, id, status);
    RestampOwn(s.threads, s.inflight, s.receipts, t, status, phase);
    MoveApart(s.threads, s.inflight, t, phase);
    ThreadCount(s.threads, t, s.threads[t].(phase := phase));
  }

  /** A change of verifications only. */
  lemma ThreadsStep(s: State, c: Config, threads: map<nat, Thread>, inflight: set<string>)
    requires Inv(s, c) && ThreadsApart(threads, inflight) && ThreadsOwn(threads, s.receipts) && |threads| <= c.capacity
    ensures Keeps(s, s.(threads := threads, inflight := inflight), c)
  {
  }

  lemma MoveStep(s: State, c: Config, t: nat, phase: Phase)
    requires Inv(s, c) && t in s.threads && Active(s.threads[t]) && phase != Checking && phase != Leaving
    ensures Keeps(s, Move(s, t, phase), c)
  {
    MoveApart(s.threads, s.inflight, t, phase);
    ThreadCount(s.threads, t, s.threads[t].(phase := phase));
    ThreadsStep(s, c, Move(s, t, phase).threads, s.inflight);
  }

  lemma BeginStep(s: State, c: Config, t: nat, id: string)
    requires Inv(s, c) && t !in s.threads && id !in s.inflight && id in s.receipts
    requires Waiting(s.receipts[id].share.status) && |s.threads| < c.capacity
    ensures Keeps(s, Begin(s, t, id), c)
  {
    EnterApart(s.threads, s.inflight, t, id);
    ThreadCount(s.threads, t, Thread(id, Checking));
    ThreadsStep(s, c, Begin(s, t, id).threads, s.inflight + {id});
  }

  /** A new share is recorded for the lease that covers it. */
  lemma ReceiptStep(s: State, c: Config, id: string, r: Record)
    requires Inv(s, c) && id !in s.receipts
    requires r.share.number == s.number + 1 && Owned(c.name, s.leases, s.number + 1, id, r)
    ensures Keeps(s, AddReceipt(s, id, r), c)
  {
    ReceiptOwned(s, c, id, r);
    RecordsStep(s, c, s.receipts[id := r], s.waiting + 1, s.verified);
  }

  lemma ReceiptOwned(s: State, c: Config, id: string, r: Record)
    requires RecordsOwned(c.name, s.leases, s.number, s.receipts) && id !in s.receipts
    requires Owned(c.name, s.leases, s.number + 1, id, r)
    ensures RecordsOwned(c.name, s.leases, s.number + 1, s.receipts[id := r])
  {
    OwnedLater(c.name, s.leases, s.number, s.receipts, s.leases, s.number + 1);
  }

  /** A change of records only, with one event written. */
  lemma RecordsStep(s: State, c: Config, receipts: map<string, Record>, waiting: int, verified: map<string, int>)
    requires Inv(s, c) && RecordsOwned(c.name, s.leases, s.number + 1, receipts) && ThreadsOwn(s.threads, receipts)
    requires SolutionsHold(s.solutions, receipts) && SharesKept(s.receipts, receipts, s.number)
    ensures Keeps(s, s.(number := s.number + 1, receipts := receipts, waiting := waiting, verified := verified), c)
  {
  }

  lemma SubmitKeeps(s: State, c: Config, t: nat, account: string, lease: string, nonce: nat, best: string)
    requires Inv(s, c)
    ensures Keeps(s, SubmitNext(s, c, t, account, lease, nonce, best), c)
  {
    var answer := Decide(s, c, account, lease, nonce, best);
    if answer.Admitted? && t !in s.threads {
      var id := c.name(s.jobs[s.leases[lease].job].template, nonce);
      if answer.isNew {
        var r := NewRecord(s, account, lease, nonce, best);
        ReceiptStep(s, c, id, r);
        BeginStep(AddReceipt(s, id, r), c, t, id);
        LaterThrough(s, AddReceipt(s, id, r), Begin(AddReceipt(s, id, r), t, id));
      } else {
        BeginStep(s, c, t, id);
      }
    }
  }

  lemma RestartKeeps(s: State, c: Config)
    requires Inv(s, c)
    ensures Keeps(s, RestartNext(s), c)
  {
  }

  lemma RequeueOwn(threads: map<nat, Thread>, inflight: set<string>, receipts: map<string, Record>, id: string, status: Status)
    requires ThreadsApart(threads, inflight) && ThreadsOwn(threads, receipts) && id in receipts && id !in inflight
    ensures ThreadsOwn(threads, receipts[id := Restamp(receipts[id], status)])
  {
    forall t | t in threads && threads[t].phase == Checking ensures threads[t].identity != id {
      assert threads[t].identity in InWork(threads);
    }
  }

  lemma RequeueKeeps(s: State, c: Config, id: string)
    requires Inv(s, c)
    ensures Keeps(s, RequeueNext(s, id), c)
  {
    if RequeueNext(s, id) != s {
      RestampKeeps(s, c, id, Deferred);
      RequeueOwn(s.threads, s.inflight, s.receipts, id, Deferred);
      var after := SetStatus(s, id, Deferred);
      RecordsStep(s, c, after.receipts, after.waiting, after.verified);
    }
  }

  /** Owners are unaffected by new leases and later numbers. */
  lemma OwnedLater(name: (string, nat) -> string, leases: map<string, Lease>, number: nat,
                   receipts: map<string, Record>,
                   more: map<string, Lease>, later: nat)
    requires RecordsOwned(name, leases, number, receipts) && number <= later
    requires forall id :: id in leases ==> id in more && more[id] == leases[id]
    ensures RecordsOwned(name, more, later, receipts)
  {
    forall id | id in receipts ensures Owned(name, more, later, id, receipts[id]) {
      assert Owned(name, leases, number, id, receipts[id]);
    }
  }

  lemma JobStep(s: State, c: Config, id: string, job: Job)
    requires Inv(s, c) && id !in s.jobs && GoodJob(job)
    ensures Keeps(s, s.(number := s.number + 1, jobs := s.jobs[id := job]), c)
  {
    OwnedLater(c.name, s.leases, s.number, s.receipts, s.leases, s.number + 1);
  }

  lemma LeaseStep(s: State, c: Config, id: string, l: Lease)
    requires Inv(s, c) && id !in s.leases && l.job in s.jobs && l.template == s.jobs[l.job].template && l.end <= NONCES
    requires ApartFrom(l, s.leases)
    ensures Keeps(s, s.(number := s.number + 1, leases := s.leases[id := l]), c)
  {
    OwnedLater(c.name, s.leases, s.number, s.receipts, s.leases[id := l], s.number + 1);
  }

  lemma NumberStep(s: State, c: Config)
    requires Inv(s, c)
    ensures Keeps(s, s.(number := s.number + 1), c)
  {
    OwnedLater(c.name, s.leases, s.number, s.receipts, s.leases, s.number + 1);
  }

  lemma EntryKeeps(s: State, c: Config, e: Item)
    requires Inv(s, c)
    ensures Keeps(s, EntryNext(s, e), c)
  {
    match e
    case AddJob(id, job) => JobKeeps(s, c, id, job);
    case AddLease(id, l) => LeaseKeeps(s, c, id, l);
    case OtherEvent => NumberStep(s, c);
  }

  lemma JobKeeps(s: State, c: Config, id: string, job: Job)
    requires Inv(s, c)
    ensures Keeps(s, EntryNext(s, AddJob(id, job)), c)
  {
    if EntryNext(s, AddJob(id, job)) != s { JobStep(s, c, id, job); }
  }

  lemma LeaseKeeps(s: State, c: Config, id: string, l: Lease)
    requires Inv(s, c)
    ensures Keeps(s, EntryNext(s, AddLease(id, l)), c)
  {
    if EntryNext(s, AddLease(id, l)) != s { LeaseStep(s, c, id, l); }
  }

  lemma SolveStep(s: State, c: Config, id: string, block: string)
    requires Inv(s, c) && id in s.receipts && s.receipts[id].share.status == Verified
    ensures Keeps(s, s.(number := s.number + 1, solutions := s.solutions[block := Solution(id, s.receipts[id].share.number)]), c)
  {
    OwnedLater(c.name, s.leases, s.number, s.receipts, s.leases, s.number + 1);
  }

  lemma SolveKeeps(s: State, c: Config, t: nat, block: string)
    requires Inv(s, c)
    ensures Keeps(s, SolveNext(s, t, block), c)
  {
    if SolveNext(s, t, block) != s { SolveStep(s, c, s.threads[t].identity, block); }
  }

  lemma VerifyKeeps(s: State, c: Config, t: nat, p: Progress)
    requires Inv(s, c)
    ensures Keeps(s, VerifyNext(s, t, p), c)
  {
    if InPhase(s, t, From(p)) && !(p.Settle? && Waiting(p.status)) {
      var recorded := NewStatus(p, s.receipts[s.threads[t].identity].share.status);
      if recorded.Some? {
        StatusStep(s, c, t, recorded.value, To(p));
      } else {
        MoveStep(s, c, t, To(p));
      }
    }
  }

  lemma DiscardKeeps(s: State, c: Config, t: nat)
    requires Inv(s, c)
    ensures Keeps(s, DiscardNext(s, t), c)
  {
    if InPhase(s, t, {Settled, Finishing}) {
      LeaveApart(s.threads, s.inflight, t);
      ThreadCount(s.threads, t, s.threads[t].(phase := Leaving));
      ThreadsStep(s, c, Move(s, t, Leaving).threads, s.inflight - {s.threads[t].identity});
    }
  }

  lemma ReleaseKeeps(s: State, c: Config, t: nat)
    requires Inv(s, c)
    ensures Keeps(s, ReleaseNext(s, t), c)
  {
    if InPhase(s, t, {Leaving}) {
      ReleaseApart(s.threads, s.inflight, t);
      assert (s.threads - {t}).Keys == s.threads.Keys - {t};
      assert |s.threads - {t}| == |(s.threads - {t}).Keys|;
      ThreadsStep(s, c, s.threads - {t}, s.inflight);
    }
  }

  lemma RetryKeeps(s: State, c: Config, t: nat, identity: string)
    requires Inv(s, c)
    ensures Keeps(s, RetryNext(s, c, t, identity), c)
  {
    if RetryNext(s, c, t, identity) != s { BeginStep(s, c, t, identity); }
  }

  lemma AdmitKeeps(s: State, c: Config, t: nat, how: Admission)
    requires Inv(s, c)
    ensures Keeps(s, Next(s, c, Admit(t, how)), c)
  {
    match how
    case Submit(account, lease, nonce, best) => SubmitKeeps(s, c, t, account, lease, nonce, best);
    case Retry(identity) => RetryKeeps(s, c, t, identity);
  }

  /** The steps of a verification in flight. */
  predicate InVerification(a: Action)
  {
    a.Verify? || a.Solve? || a.Discard? || a.Release?
  }

  lemma VerificationKeeps(s: State, c: Config, a: Action)
    requires Inv(s, c) && InVerification(a)
    ensures Keeps(s, Next(s, c, a), c)
  {
    if a.Verify? {
      VerifyKeeps(s, c, a.thread, a.progress);
    } else if a.Solve? {
      SolveKeeps(s, c, a.thread, a.block);
    } else if a.Discard? {
      DiscardKeeps(s, c, a.thread);
    } else {
      ReleaseKeeps(s, c, a.thread);
    }
  }

  /** Every atomic step, in any order, keeps the protocol's invariant and changes no settled share. */
  lemma StepKeeps(s: State, c: Config, a: Action)
    requires Inv(s, c)
    ensures Keeps(s, Next(s, c, a), c)
  {
    if InVerification(a) {
      VerificationKeeps(s, c, a);
    } else if a.Enter? {
      EntryKeeps(s, c, a.item);
    } else if a.Admit? {
      AdmitKeeps(s, c, a.thread, a.how);
    } else if a.Restart? {
      RestartKeeps(s, c);
    } else {
      RequeueKeeps(s, c, a.identity);
    }
  }

  // ---- The counts, and the bound they enforce ----

  ghost predicate Counted(s: State, c: Config)
  {
    CountsExact(s.receipts, s.waiting, s.verified) && s.waiting <= c.capacity
  }

  lemma StatusCounted(s: State, c: Config, id: string, status: Status)
    requires Counted(s, c) && id in s.receipts && (Waiting(status) ==> Waiting(s.receipts[id].share.status))
    ensures Counted(SetStatus(s, id, status), c)
  {
    RestampCounts(s.receipts, s.waiting, s.verified, id, status);
  }

  lemma VerifyCounted(s: State, c: Config, t: nat, p: Progress)
    requires Inv(s, c) && Counted(s, c)
    ensures Counted(VerifyNext(s, t, p), c)
  {
    if InPhase(s, t, From(p)) && !(p.Settle? && Waiting(p.status)) {
      var id := s.threads[t].identity;
      var recorded := NewStatus(p, s.receipts[id].share.status);
      if recorded.Some? { StatusCounted(s, c, id, recorded.value); }
    }
  }

  lemma SubmitCounted(s: State, c: Config, t: nat, account: string, lease: string, nonce: nat, best: string)
    requires Counted(s, c)
    ensures Counted(SubmitNext(s, c, t, account, lease, nonce, best), c)
  {
    var answer := Decide(s, c, account, lease, nonce, best);
    if answer.Admitted? && t !in s.threads && answer.isNew {
      var id := c.name(s.jobs[s.leases[lease].job].template, nonce);
      AddCounts(s.receipts, s.waiting, s.verified, id, NewRecord(s, account, lease, nonce, best));
    }
  }

  /** Every step keeps the counts exact and unsettled shares within the capacity. */
  lemma StepCounted(s: State, c: Config, a: Action)
    requires Inv(s, c) && Counted(s, c)
    ensures Counted(Next(s, c, a), c)
  {
    if Quiet(a) {
      QuietStep(s, c, a);
      SameCounts(s, Next(s, c, a), c);
    } else if a.Verify? {
      VerifyCounted(s, c, a.thread, a.progress);
    } else if a.Requeue? {
      if RequeueNext(s, a.identity) != s { StatusCounted(s, c, a.identity, Deferred); }
    } else {
      SubmitCounted(s, c, a.thread, a.how.account, a.how.lease, a.how.nonce, a.how.best);
    }
  }

  /** Steps that record no share and no status. */
  predicate Quiet(a: Action)
  {
    !a.Verify? && !a.Requeue? && !(a.Admit? && a.how.Submit?)
  }

  lemma EntryQuiet(s: State, e: Item)
    ensures var after := EntryNext(s, e); after.receipts == s.receipts && after.waiting == s.waiting && after.verified == s.verified
  {
  }

  lemma QuietStep(s: State, c: Config, a: Action)
    requires Quiet(a)
    ensures var after := Next(s, c, a); after.receipts == s.receipts && after.waiting == s.waiting && after.verified == s.verified
  {
    match a
    case Enter(e) => EntryQuiet(s, e);
    case Admit(_, _) =>
    case Solve(_, _) =>
    case Discard(_) =>
    case Release(_) =>
    case Restart =>
  }

  lemma SameCounts(s: State, after: State, c: Config)
    requires Counted(s, c) && after.receipts == s.receipts && after.waiting == s.waiting && after.verified == s.verified
    ensures Counted(after, c)
  {
  }

  // ---- Whole runs ----

  /** The state after any sequence of steps, restarts among them. */
  function After(c: Config, run: Order<Action>): State
  {
    match run
    case Start => INITIAL
    case Then(before, a) => Next(After(c, before), c, a)
  }

  /** Every run keeps the invariant and the counts. */
  lemma {:induction false} RunSafe(c: Config, run: Order<Action>)
    ensures Inv(After(c, run), c) && Counted(After(c, run), c)
  {
    match run
    case Start =>
      assert Measure(INITIAL.receipts, WaitingOf()) == map[];
      forall a ensures Over(INITIAL.receipts, VerifiedOf(a)) == 0 { assert Measure(INITIAL.receipts, VerifiedOf(a)) == map[]; }
    case Then(before, a) =>
      RunSafe(c, before);
      StepKeeps(After(c, before), c, a);
      StepCounted(After(c, before), c, a);
  }

  /** A settled share keeps its status, and every share its owner, for the rest of the run. */
  lemma {:induction false} RunLater(c: Config, run: Order<Action>, earlier: Order<Action>)
    requires Extends(run, earlier)
    ensures Later(After(c, earlier), After(c, run))
    decreases run
  {
    if run != earlier {
      RunSafe(c, run.before);
      RunLater(c, run.before, earlier);
      StepKeeps(After(c, run.before), c, run.key);
      LaterThrough(After(c, earlier), After(c, run.before), After(c, run));
    }
  }

  lemma {:induction false} ImageSize(threads: map<nat, Thread>, some: set<nat>)
    requires some <= threads.Keys
    ensures |set t | t in some && Active(threads[t]) :: threads[t].identity| <= |some|
    decreases |some|
  {
    if some != {} {
      var t :| t in some;
      ImageSize(threads, some - {t});
      var rest := set u | u in some - {t} && Active(threads[u]) :: threads[u].identity;
      var all := set u | u in some && Active(threads[u]) :: threads[u].identity;
      assert all <= rest + {threads[t].identity};
      SubsetSize(all, rest + {threads[t].identity});
    }
  }

  lemma {:induction false} SubsetSize(a: set<string>, b: set<string>)
    requires a <= b
    ensures |a| <= |b|
    decreases |a|
  {
    if a != {} {
      var x :| x in a;
      SubsetSize(a - {x}, b - {x});
    }
  }

  /** In every run, verifications in flight and unsettled shares each stay within the capacity. */
  lemma QueueBounded(c: Config, run: Order<Action>)
    ensures |After(c, run).inflight| <= |After(c, run).threads| <= c.capacity
    ensures Over(After(c, run).receipts, WaitingOf()) <= c.capacity
  {
    RunSafe(c, run);
    var s := After(c, run);
    ImageSize(s.threads, s.threads.Keys);
    assert s.inflight == set t | t in s.threads.Keys && Active(s.threads[t]) :: s.threads[t].identity;
    assert |s.threads| == |s.threads.Keys|;
  }

  /** A template and nonce name at most one record, and that record is for them: it belongs to the owner of
      the one lease that covers the nonce, whoever else may ask. */
  lemma OneOwner(capacity: nat, run: Order<Action>, template: string, nonce: nat)
    requires nonce < NONCES && Identity(template, nonce) in After(Config(capacity, Identity), run).receipts
    ensures var s := After(Config(capacity, Identity), run);
            var r := s.receipts[Identity(template, nonce)];
            && r.lease in s.leases && r.nonce == nonce && s.leases[r.lease].template == template
            && r.share.account == s.leases[r.lease].account && s.leases[r.lease].start <= nonce < s.leases[r.lease].end
            && (forall id :: id in s.leases && s.leases[id].template == template && s.leases[id].start <= nonce < s.leases[id].end ==>
                  id == r.lease)
  {
    var c := Config(capacity, Identity);
    RunSafe(c, run);
    var s := After(c, run);
    var r := s.receipts[Identity(template, nonce)];
    assert Owned(c.name, s.leases, s.number, Identity(template, nonce), r);
    IdentityInjective(template, nonce, s.leases[r.lease].template, r.nonce);
  }

  // ---- The journal behind a run ----

  datatype Event =
    | Entered(item: Item)
    | Received(identity: string, record: Record)
    | Stamped(identity: string, status: Status)
    | Solved(block: string, solution: Solution)

  function Apply(s: State, e: Event): State
  {
    match e
    case Entered(item) => EntryNext(s, item)
    case Received(identity, r) => AddReceipt(s, identity, r)
    case Stamped(identity, status) => if identity in s.receipts then SetStatus(s, identity, status) else s
    case Solved(block, solution) => s.(number := s.number + 1, solutions := s.solutions[block := solution])
  }

  function SubmitEvent(s: State, c: Config, t: nat, account: string, lease: string, nonce: nat,
                       best: string): Option<Event>
  {
    if Decide(s, c, account, lease, nonce, best) == Admitted(true) && t !in s.threads
    then Some(Received(c.name(s.jobs[s.leases[lease].job].template, nonce), NewRecord(s, account, lease, nonce, best)))
    else None
  }

  function VerifyEvent(s: State, t: nat, p: Progress): Option<Event>
  {
    if !InPhase(s, t, From(p)) || (p.Settle? && Waiting(p.status)) then None else
    var recorded := NewStatus(p, s.receipts[s.threads[t].identity].share.status);
    if recorded.Some? then Some(Stamped(s.threads[t].identity, recorded.value)) else None
  }

  /** The event a step writes to the journal, if any. */
  function EventOf(s: State, c: Config, a: Action): Option<Event>
  {
    match a
    case Enter(item) => Some(Entered(item))
    case Admit(t, Submit(account, lease, nonce, best)) => SubmitEvent(s, c, t, account, lease, nonce, best)
    case Admit(_, Retry(_)) => None
    case Verify(t, p) => VerifyEvent(s, t, p)
    case Solve(t, block) =>
      if SolveNext(s, t, block) == s then None
      else Some(Solved(block, Solution(s.threads[t].identity, s.receipts[s.threads[t].identity].share.number)))
    case Discard(_) => None
    case Release(_) => None
    case Restart => None
    case Requeue(identity) => if RequeueNext(s, identity) == s then None else Some(Stamped(identity, Deferred))
  }

  /** The part of the state a restart rebuilds. */
  function Durable(s: State): State
  {
    s.(inflight := {}, threads := map[])
  }

  function Journal(c: Config, run: Order<Action>): Order<Event>
  {
    match run
    case Start => Start
    case Then(before, a) =>
      var e := EventOf(After(c, before), c, a);
      if e.Some? then Then(Journal(c, before), e.value) else Journal(c, before)
  }

  function Replay(log: Order<Event>): State
  {
    match log
    case Start => INITIAL
    case Then(before, e) => Apply(Replay(before), e)
  }

  ghost predicate Replays(s: State, after: State, e: Option<Event>)
  {
    Durable(after) == if e.Some? then Apply(Durable(s), e.value) else Durable(s)
  }

  lemma SubmitReplays(s: State, c: Config, t: nat, account: string, lease: string, nonce: nat, best: string)
    ensures Replays(s, SubmitNext(s, c, t, account, lease, nonce, best), SubmitEvent(s, c, t, account, lease, nonce, best))
  {
  }

  lemma VerifyReplays(s: State, t: nat, p: Progress)
    ensures Replays(s, VerifyNext(s, t, p), VerifyEvent(s, t, p))
  {
    if InPhase(s, t, From(p)) && !(p.Settle? && Waiting(p.status)) {
      var id := s.threads[t].identity;
      var recorded := NewStatus(p, s.receipts[id].share.status);
      if recorded.Some? { StampReplays(s, t, id, recorded.value, To(p)); }
    }
  }

  lemma StampReplays(s: State, t: nat, id: string, status: Status, phase: Phase)
    requires id in s.receipts && t in s.threads
    ensures Replays(s, Move(SetStatus(s, id, status), t, phase), Some(Stamped(id, status)))
  {
  }

  lemma EntryReplays(s: State, e: Item)
    ensures Replays(s, EntryNext(s, e), Some(Entered(e)))
  {
  }

  lemma StepReplays(s: State, c: Config, a: Action)
    ensures Replays(s, Next(s, c, a), EventOf(s, c, a))
  {
    match a
    case Enter(e) => EntryReplays(s, e);
    case Admit(t, Submit(account, lease, nonce, best)) => SubmitReplays(s, c, t, account, lease, nonce, best);
    case Admit(_, Retry(_)) =>
    case Verify(t, p) => VerifyReplays(s, t, p);
    case Solve(_, _) =>
    case Discard(_) =>
    case Release(_) =>
    case Restart =>
    case Requeue(_) =>
  }

  /** Replaying the journal rebuilds every record, count and number the live process holds. */
  lemma {:induction false} RunReplays(c: Config, run: Order<Action>)
    ensures Durable(After(c, run)) == Replay(Journal(c, run))
  {
    match run
    case Start =>
    case Then(before, a) =>
      RunReplays(c, before);
      StepReplays(After(c, before), c, a);
  }
}
