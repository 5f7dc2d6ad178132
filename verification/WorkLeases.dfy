/** Handing out nonce ranges: reserved in durable groups, served one at a time, never reused. */
module WorkLeases {
  import opened Outcomes
  import opened Orders

  const NONCES: nat := 0x1_0000_0000_0000_0000
  const GROUP: nat := 8
  const CACHED: nat := 64

  datatype Lease = Lease(id: string, account: string, job: string, template: string, start: nat, end: nat)

  /** Durable leases not yet served, kept per job, account and size; the next one to serve is the last visited. */
  datatype Slot = Slot(job: string, account: string, count: nat, leases: Order<Lease>)

  // ---- The durable record of leases, oldest first ----

  ghost function End(history: Order<Lease>, template: string): nat
  {
    match history
    case Start => 0
    case Then(before, l) => if l.template == template && l.end > End(before, template) then l.end else End(before, template)
  }

  /** Every lease is a nonempty range of nonces that starts where its template's earlier leases have ended. */
  ghost predicate Apart(history: Order<Lease>)
  {
    history.Then? ==>
      && Apart(history.before)
      && history.key.start < history.key.end <= NONCES
      && End(history.before, history.key.template) <= history.key.start
  }

  lemma {:induction false} EndCovers(history: Order<Lease>, l: Lease)
    requires Apart(history) && l in Visited(history)
    ensures l.start < l.end <= End(history, l.template) && l.end <= NONCES
  {
    if l != history.key { EndCovers(history.before, l); }
  }

  /** Leases of one template never overlap, whichever jobs they were issued under. */
  lemma {:induction false} LeasesDisjoint(history: Order<Lease>, x: Lease, y: Lease)
    requires Apart(history) && x in Visited(history) && y in Visited(history) && x != y && x.template == y.template
    ensures x.end <= y.start || y.end <= x.start
  {
    if x == history.key {
      EndCovers(history.before, y);
    } else if y == history.key {
      EndCovers(history.before, x);
    } else {
      LeasesDisjoint(history.before, x, y);
    }
  }

  lemma {:induction false} ApartOnce(history: Order<Lease>)
    requires Apart(history)
    ensures Once(history)
  {
    if history.Then? {
      ApartOnce(history.before);
      if history.key in Visited(history.before) { EndCovers(history.before, history.key); }
    }
  }

  // ---- Groups of leases ----

  function Mark(highwater: map<string, nat>, template: string): nat
  {
    if template in highwater then highwater[template] else 0
  }

  /** Consecutive ranges from a start. */
  ghost predicate Consecutive(leases: seq<Lease>, account: string, job: string, template: string, start: nat,
                              count: nat)
  {
    forall i :: 0 <= i < |leases| ==>
      && leases[i].account == account && leases[i].job == job && leases[i].template == template
      && leases[i].start == start + i * count && leases[i].end == start + (i + 1) * count
  }

  lemma ConsecutiveMore(leases: seq<Lease>, l: Lease, account: string, job: string, template: string, start: nat, count: nat)
    requires Consecutive(leases, account, job, template, start, count)
    requires l.account == account && l.job == job && l.template == template
    requires l.start == start + |leases| * count && l.end == start + (|leases| + 1) * count
    ensures Consecutive(leases + [l], account, job, template, start, count)
  {
  }

  lemma RoomForGroup(start: nat, count: nat, i: nat)
    requires 0 < count && start + count <= NONCES
    ensures (NONCES - start) / count >= 1
    ensures i <= (NONCES - start) / count ==> start + i * count <= NONCES
  {
    var room := NONCES - start;
    assert room / count * count <= room;
    if i <= room / count { Multiply(i, room / count, count); }
    if room / count == 0 { Quotient(room, count); }
  }

  lemma Multiply(a: nat, b: nat, c: nat)
    requires a <= b
    ensures a * c <= b * c
  {
  }

  lemma Quotient(a: nat, b: nat)
    requires 0 < b <= a
    ensures a / b >= 1
  {
  }

  method MakeGroup(account: string, job: string, template: string, start: nat, count: nat, ids: seq<string>)
    returns (leases: seq<Lease>)
    requires 0 < count && start + count <= NONCES && |ids| == GROUP
    ensures 1 <= |leases| <= GROUP && Consecutive(leases, account, job, template, start, count)
    ensures start + |leases| * count <= NONCES
  {
    RoomForGroup(start, count, 0);
    var batch := if (NONCES - start) / count < GROUP then (NONCES - start) / count else GROUP;
    leases := [];
    var i := 0;
    while i < batch
      invariant 0 <= i == |leases| <= batch
      invariant Consecutive(leases, account, job, template, start, count)
    {
      var next := Lease(ids[i], account, job, template, start + i * count, start + (i + 1) * count);
      ConsecutiveMore(leases, next, account, job, template, start, count);
      leases := leases + [next];
      i := i + 1;
    }
    RoomForGroup(start, count, batch);
  }

  /** The record after the first n leases of a group. */
  ghost function Recorded(history: Order<Lease>, leases: seq<Lease>, n: nat): Order<Lease>
    requires n <= |leases|
  {
    if n == 0 then history else Then(Recorded(history, leases, n - 1), leases[n - 1])
  }

  /** A group starting at its template's high-water mark keeps all leases apart, however much of it is recorded. */
  lemma {:induction false} GroupApart(history: Order<Lease>, leases: seq<Lease>, n: nat, account: string, job: string,
                                      template: string, start: nat, count: nat)
    requires n <= |leases| && 0 < count && Apart(history) && start == End(history, template)
    requires Consecutive(leases, account, job, template, start, count) && start + |leases| * count <= NONCES
    ensures Apart(Recorded(history, leases, n)) && Extends(Recorded(history, leases, n), history)
    ensures End(Recorded(history, leases, n), template) == start + n * count
    ensures forall t :: t != template ==> End(Recorded(history, leases, n), t) == End(history, t)
  {
    if n > 0 {
      GroupApart(history, leases, n - 1, account, job, template, start, count);
      Multiply(n, |leases|, count);
      assert start + (n - 1) * count + count == start + n * count;
    }
  }

  lemma {:induction false} GroupVisits(history: Order<Lease>, leases: seq<Lease>, n: nat)
    requires n <= |leases|
    ensures Visited(Recorded(history, leases, n)) == Visited(history) + set i | 0 <= i < n :: leases[i]
  {
    if n > 0 { GroupVisits(history, leases, n - 1); }
  }

  // ---- The cache of durable leases ----

  /** The same leases with the first of the group on top. */
  function Stack(leases: seq<Lease>, n: nat): Order<Lease>
    requires n <= |leases|
    decreases |leases| - n
  {
    if n == |leases| then Start else Then(Stack(leases, n + 1), leases[n])
  }

  lemma {:induction false} StackVisits(history: Order<Lease>, leases: seq<Lease>, n: nat, account: string, job: string,
                                       template: string, start: nat, count: nat)
    requires n <= |leases| && 0 < count && Apart(history) && start == End(history, template)
    requires Consecutive(leases, account, job, template, start, count)
    ensures Once(Stack(leases, n)) && Visited(Stack(leases, n)) == (set i | n <= i < |leases| :: leases[i])
    ensures Visited(Stack(leases, n)) !! Visited(history)
    ensures StackFor(Stack(leases, n), account, job, template, count)
    decreases |leases| - n
  {
    if n < |leases| {
      StackVisits(history, leases, n + 1, account, job, template, start, count);
      forall i | n < i < |leases| ensures leases[i] != leases[n] { Multiply(n + 1, i, count); }
      if leases[n] in Visited(history) { EndCovers(history, leases[n]); }
      assert (n + 1) * count == n * count + count;
    }
  }

  predicate LeaseFor(l: Lease, account: string, job: string, template: string, count: nat)
  {
    l.account == account && l.job == job && l.template == template && l.end == l.start + count
  }

  predicate StackFor(leases: Order<Lease>, account: string, job: string, template: string, count: nat)
  {
    leases.Then? ==> LeaseFor(leases.key, account, job, template, count) && StackFor(leases.before, account, job, template, count)
  }

  ghost function Cached(slots: Order<Slot>): set<Lease>
  {
    match slots
    case Start => {}
    case Then(before, s) => Cached(before) + Visited(s.leases)
  }

  /** Slots hold different leases, each for its own job's template, account and size. */
  ghost predicate SlotsHold(slots: Order<Slot>, jobs: map<string, string>)
  {
    slots.Then? ==>
      && SlotsHold(slots.before, jobs) && SlotHolds(slots.key, jobs)
      && Visited(slots.key.leases) !! Cached(slots.before)
  }

  ghost predicate SlotHolds(s: Slot, jobs: map<string, string>)
  {
    s.job in jobs && Once(s.leases) && StackFor(s.leases, s.account, s.job, jobs[s.job], s.count)
  }

  predicate For(s: Slot, job: string, account: string, count: nat)
  {
    s.job == job && s.account == account && s.count == count
  }

  /** The cached leases of a key. */
  function Find(slots: Order<Slot>, job: string, account: string, count: nat): Order<Lease>
  {
    match slots
    case Start => Start
    case Then(before, s) => if For(s, job, account, count) then s.leases else Find(before, job, account, count)
  }

  /** The cache without that key. */
  function Without(slots: Order<Slot>, job: string, account: string, count: nat): Order<Slot>
  {
    match slots
    case Start => Start
    case Then(before, s) => if For(s, job, account, count) then before else Then(Without(before, job, account, count), s)
  }

  function Size(slots: Order<Slot>): nat
  {
    if slots.Start? then 0 else Size(slots.before) + 1
  }

  function DropOldest(slots: Order<Slot>): Order<Slot>
  {
    if slots.Start? || slots.before.Start? then Start else Then(DropOldest(slots.before), slots.key)
  }

  /** A slot joins the cache, and the oldest one leaves a full cache. */
  function Keep(slots: Order<Slot>, slot: Slot): Order<Slot>
  {
    if Size(Then(slots, slot)) > CACHED then DropOldest(Then(slots, slot)) else Then(slots, slot)
  }

  lemma {:induction false} TakeSlot(slots: Order<Slot>, jobs: map<string, string>, job: string, account: string,
                                    count: nat)
    requires SlotsHold(slots, jobs) && job in jobs
    ensures var found, rest := Find(slots, job, account, count), Without(slots, job, account, count);
            && Cached(slots) == Cached(rest) + Visited(found) && Visited(found) !! Cached(rest)
            && SlotsHold(rest, jobs) && SlotHolds(Slot(job, account, count, found), jobs)
  {
    if slots.Then? && !For(slots.key, job, account, count) { TakeSlot(slots.before, jobs, job, account, count); }
  }

  lemma {:induction false} DropSlot(slots: Order<Slot>, jobs: map<string, string>)
    requires SlotsHold(slots, jobs)
    ensures Cached(DropOldest(slots)) <= Cached(slots) && SlotsHold(DropOldest(slots), jobs)
  {
    if slots.Then? && slots.before.Then? { DropSlot(slots.before, jobs); }
  }

  /** Whether the journal took the whole group, or failed with only some of it on disk. */
  datatype Append = Appended | Failed(kept: nat)

  class LeaseDesk {
    var history: Order<Lease>
    var highwater: map<string, nat>
    var jobs: map<string, string>
    var active: Option<string>
    var slots: Order<Slot>
    var dead: bool
    ghost var served: set<Lease>

    /** Durable leases never overlap, a lease waits in one slot or has been served and never both, and the
        high-water marks are the ends of the durable leases. */
    ghost predicate Valid()
      reads this
    {
      && Apart(history)
      && SlotsHold(slots, jobs) && Cached(slots) !! served && Cached(slots) + served <= Visited(history)
      && (active.Some? ==> active.value in jobs)
      && (!dead ==> forall t :: Mark(highwater, t) == End(history, t))
    }

    constructor ()
      ensures Valid() && history == Start && served == {}
    {
      history, highwater, jobs, active, slots, dead, served := Start, map[], map[], None, Start, false, {};
    }

    /** Served leases of one template do not overlap. */
    lemma ServedApart(x: Lease, y: Lease)
      requires Valid() && x in served && y in served
      ensures x.start < x.end <= NONCES
      ensures x != y && x.template == y.template ==> x.end <= y.start || y.end <= x.start
    {
      EndCovers(history, x);
      if x != y && x.template == y.template { LeasesDisjoint(history, x, y); }
    }

    /** New work: the cache of the old job is abandoned. */
    method Renew(job: string, template: string)
      requires Valid() && job !in jobs
      modifies this`jobs, this`active, this`slots
      ensures Valid() && active == Some(job) && jobs == old(jobs)[job := template]
    {
      slots := Start;
      jobs := jobs[job := template];
      active := Some(job);
    }

    /** A range for a worker, from the cache or from a fresh durable group, never one served before. A
        failed append leaves some of the group on disk and stops the desk until it is restarted. */
    method Work(account: string, count: nat, ids: seq<string>, append: Append, expired: bool) returns (r: Result<Lease>)
      requires Valid() && |ids| == GROUP
      modifies this`history, this`highwater, this`slots, this`dead, this`served
      ensures Valid() && Extends(history, old(history))
      ensures r.Refused? ==> served == old(served)
      ensures r.Ok? ==> active.Some? && LeaseFor(r.value, account, active.value, jobs[active.value], count)
      ensures r.Ok? ==> r.value !in old(served) && served == old(served) + {r.value}
      ensures !old(dead) && !expired && append.Appended? && CanServe(count, old(highwater)) ==> r.Ok?
    {
      if dead || active.None? || !(1 <= count <= 4096) { return Refused; }
      var job := active.value;
      var leases := Withdraw(job, account, count);
      if leases.Start? {
        var group := NewGroup(account, job, count, ids, append);
        if group.Refused? { return Refused; }
        leases := group.value;
      }
      r := Serve(leases, account, job, count, expired);
    }

    /** There is active work, the size is allowed, and the template has that many nonces left. */
    ghost predicate CanServe(count: nat, marks: map<string, nat>)
      reads this
    {
      active.Some? && active.value in jobs && 1 <= count <= 4096 && Mark(marks, jobs[active.value]) + count <= NONCES
    }

    /** Leases in hand: durable, and neither cached nor served. */
    ghost predicate InHand(leases: Order<Lease>, account: string, job: string, count: nat)
      reads this
    {
      && SlotHolds(Slot(job, account, count, leases), jobs)
      && Visited(leases) <= Visited(history) && Visited(leases) !! Cached(slots) && Visited(leases) !! served
    }

    /** Take a key's leases out of the cache. */
    method Withdraw(job: string, account: string, count: nat) returns (leases: Order<Lease>)
      requires Valid() && job in jobs
      modifies this`slots
      ensures Valid() && InHand(leases, account, job, count)
    {
      TakeSlot(slots, jobs, job, account, count);
      leases := Find(slots, job, account, count);
      slots := Without(slots, job, account, count);
    }

    /** The record has grown by up to eight consecutive ranges from the given start, the first of them on top. */
    ghost predicate GroupMade(made: Order<Lease>, before: Order<Lease>, account: string, job: string, start: nat, count: nat)
      requires job in jobs
      reads this
    {
      exists leases: seq<Lease> ::
        && 1 <= |leases| <= GROUP && Consecutive(leases, account, job, jobs[job], start, count)
        && made == Stack(leases, 0) && history == Recorded(before, leases, |leases|)
    }

    /** Reserve and store a group at the template's high-water mark. */
    method NewGroup(account: string, job: string, count: nat, ids: seq<string>, append: Append)
      returns (r: Result<Order<Lease>>)
      requires Valid() && !dead && job in jobs && 1 <= count && |ids| == GROUP
      modifies this`history, this`highwater, this`dead
      ensures Valid() && Extends(history, old(history))
      ensures r.Ok? ==> r.value.Then? && InHand(r.value, account, job, count)
      ensures r.Ok? <==> append.Appended? && Mark(old(highwater), jobs[job]) + count <= NONCES
      ensures r.Ok? ==> GroupMade(r.value, old(history), account, job, Mark(old(highwater), jobs[job]), count)
      ensures Mark(old(highwater), jobs[job]) + count > NONCES ==> history == old(history) && highwater == old(highwater)
    {
      var start := Mark(highwater, jobs[job]);
      if start + count > NONCES { return Refused; }
      var leases := MakeGroup(account, job, jobs[job], start, count, ids);
      Store(leases, account, job, start, count, append);
      if dead { return Refused; }
      r := Ok(Stack(leases, 0));
    }

    /** One durable group: all of it, or what a failed append left behind. */
    method Store(leases: seq<Lease>, account: string, job: string, start: nat, count: nat, append: Append)
      requires Valid() && !dead && job in jobs && 1 <= count && start == Mark(highwater, jobs[job])
      requires Consecutive(leases, account, job, jobs[job], start, count) && start + |leases| * count <= NONCES
      modifies this`history, this`highwater, this`dead
      ensures Valid() && Extends(history, old(history))
      ensures dead == append.Failed? && (!dead ==> InHand(Stack(leases, 0), account, job, count))
      ensures !dead ==> history == Recorded(old(history), leases, |leases|)
    {
      var n := if append.Failed? && append.kept < |leases| then append.kept else |leases|;
      GroupApart(history, leases, n, account, job, jobs[job], start, count);
      GroupVisits(history, leases, n);
      StackVisits(history, leases, 0, account, job, jobs[job], start, count);
      history := RecordGroup(history, leases, n);
      if append.Failed? {
        dead := true;
      } else {
        highwater := Raise(highwater, leases, account, job, jobs[job], start, count);
      }
    }

    /** Hand out the first lease and keep the rest, dropping the oldest slot of a full cache. */
    method Serve(leases: Order<Lease>, account: string, job: string, count: nat, expired: bool)
      returns (r: Result<Lease>)
      requires Valid() && leases.Then? && InHand(leases, account, job, count)
      modifies this`slots, this`served
      ensures Valid()
      ensures r.Refused? ==> served == old(served)
      ensures r.Ok? ==> LeaseFor(r.value, account, job, jobs[job], count)
      ensures r.Ok? ==> r.value !in old(served) && served == old(served) + {r.value}
      ensures r == if expired then Refused else Ok(leases.key)
      ensures slots == if leases.before.Then? then Keep(old(slots), Slot(job, account, count, leases.before)) else old(slots)
    {
      var lease, rest := leases.key, leases.before;
      if rest.Then? {
        slots := Then(slots, Slot(job, account, count, rest));
        DropSlot(slots, jobs);
        if Size(slots) > CACHED { slots := DropOldest(slots); }
      }
      if expired { return Refused; }
      served := served + {lease};
      r := Ok(lease);
    }

    /** Start over from what is on disk: the cache is abandoned and the marks are rebuilt. */
    method Restart()
      requires Valid()
      modifies this`highwater, this`active, this`slots, this`dead
      ensures Valid() && !dead && active.None? && slots == Start
    {
      highwater := Rebuild(history);
      active, slots, dead := None, Start, false;
    }
  }

  method RecordGroup(history: Order<Lease>, leases: seq<Lease>, n: nat) returns (after: Order<Lease>)
    requires n <= |leases|
    ensures after == Recorded(history, leases, n)
  {
    after := history;
    var i := 0;
    while i < n
      invariant 0 <= i <= n && after == Recorded(history, leases, i)
    {
      after := Then(after, leases[i]);
      i := i + 1;
    }
  }

  function RaiseOne(highwater: map<string, nat>, l: Lease): map<string, nat>
  {
    highwater[l.template := if l.end > Mark(highwater, l.template) then l.end else Mark(highwater, l.template)]
  }

  /** Applying the leases of a group raises their template's mark to the end of the last. */
  method Raise(highwater: map<string, nat>, leases: seq<Lease>, ghost account: string, ghost job: string,
               template: string, start: nat,
               count: nat) returns (raised: map<string, nat>)
    requires Consecutive(leases, account, job, template, start, count) && Mark(highwater, template) == start
    ensures forall t :: Mark(raised, t) == if t == template then start + |leases| * count else Mark(highwater, t)
  {
    raised := highwater;
    var i := 0;
    while i < |leases|
      invariant 0 <= i <= |leases|
      invariant forall t :: Mark(raised, t) == if t == template then start + i * count else Mark(highwater, t)
    {
      assert leases[i].end == start + i * count + count;
      raised := RaiseOne(raised, leases[i]);
      i := i + 1;
    }
  }

  /** The marks rebuilt from the record. */
  method Rebuild(history: Order<Lease>) returns (highwater: map<string, nat>)
    ensures forall t :: Mark(highwater, t) == End(history, t)
    decreases history
  {
    if history.Start? { return map[]; }
    highwater := Rebuild(history.before);
    highwater := RaiseOne(highwater, history.key);
  }
}
