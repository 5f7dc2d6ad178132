/** The pool's incomes, with the totals and the short list of won blocks that are kept as states change. */
module IncomeBooks {
  import opened Outcomes
  import opened Orders
  import opened Tallies
  import opened Funding
  import opened IncomeLedger
  import RecentBlocks

  /** States that count towards the totals shown. */
  predicate Earned(s: State)
  {
    s == Pending || s == Available
  }

  ghost function AmountIn(category: Category): Income -> int
  {
    (i: Income) => if Earned(i.state) && i.category == category then i.amount else 0
  }

  ghost function Won(): Income -> int
  {
    (i: Income) => if Earned(i.state) && i.category == Mining then 1 else 0
  }

  function Label(s: State): string
  {
    match s
    case Pending => "pending"
    case Available => "available"
    case Orphaned => "orphaned"
  }

  function RowOf(id: string, i: Income): RecentBlocks.Row
  {
    RecentBlocks.Row(id, i.height, i.amount, Label(i.state))
  }

  /** Blocks the pool mined are listed; an identity of sixty-four digits is a block hash. */
  predicate Listed(id: string, i: Income)
  {
    i.category == Mining && |id| == 64
  }

  function Value(i: Income, c: Category): int
  {
    if Earned(i.state) && i.category == c then i.amount else 0
  }

  function Block(i: Income): int
  {
    if Earned(i.state) && i.category == Mining then 1 else 0
  }

  /** The incomes, what is shown of them, and, for the record, the height of every block ever listed. */
  datatype Book = Book(incomes: map<string, Income>, totals: map<Category, int>, blocks: int, recent: seq<RecentBlocks.Row>,
                       seen: map<string, int>)

  datatype Entry = Entry(id: string, income: Income)

  ghost const EMPTY: Book := Book(map[], map[Mining := 0, CominePayout := 0, StakingDistribution := 0], 0, [], map[])

  function Subtract(totals: map<Category, int>, i: Income): map<Category, int>
  {
    map c | c in totals :: totals[c] - Value(i, c)
  }

  function Add(totals: map<Category, int>, i: Income): map<Category, int>
  {
    map c | c in totals :: totals[c] + Value(i, c)
  }

  /** An income keeps its height and category. */
  ghost predicate Lawful(incomes: map<string, Income>, e: Entry)
  {
    e.id in incomes ==> incomes[e.id].height == e.income.height && incomes[e.id].category == e.income.category
  }

  /** Write an income: what the old record counted for is taken away, what the new one counts for is added,
      and a mined block is put on the list. */
  ghost function Put(b: Book, e: Entry): Book
  {
    var id, i := e.id, e.income;
    var totals := if id in b.incomes then Subtract(b.totals, b.incomes[id]) else b.totals;
    var blocks := if id in b.incomes then b.blocks - Block(b.incomes[id]) else b.blocks;
    Book(b.incomes[id := i], Add(totals, i), blocks + Block(i),
         if Listed(id, i) then RecentBlocks.Update(b.recent, RowOf(id, i)) else b.recent,
         if Listed(id, i) then b.seen[id := i.height] else b.seen)
  }

  ghost function After(entries: Order<Entry>): Book
  {
    match entries
    case Start => EMPTY
    case Then(before, e) => Put(After(before), e)
  }

  ghost predicate LawfulEntries(entries: Order<Entry>)
  {
    entries.Then? ==> LawfulEntries(entries.before) && Lawful(After(entries.before).incomes, entries.key)
  }

  // ---- What is shown equals what the records say ----

  ghost predicate TotalsExact(totals: map<Category, int>, incomes: map<string, Income>)
  {
    forall c :: c in totals ==> totals[c] == Over(incomes, AmountIn(c))
  }

  lemma TotalsFollow(totals: map<Category, int>, incomes: map<string, Income>, id: string, i: Income)
    requires TotalsExact(totals, incomes)
    ensures TotalsExact(Add(if id in incomes then Subtract(totals, incomes[id]) else totals, i), incomes[id := i])
  {
    forall c | c in totals
      ensures Over(incomes[id := i], AmountIn(c)) == totals[c] + Value(i, c) - if id in incomes then Value(incomes[id], c) else 0
    {
      OverUpdate(incomes, id, i, AmountIn(c));
    }
  }

  ghost predicate SeenKnown(seen: map<string, int>, incomes: map<string, Income>)
  {
    forall id :: id in seen ==> id in incomes && incomes[id].height == seen[id] && Listed(id, incomes[id])
  }

  ghost predicate RowsCurrent(recent: seq<RecentBlocks.Row>, incomes: map<string, Income>)
  {
    forall r :: r in recent ==> r.id in incomes && r == RowOf(r.id, incomes[r.id])
  }

  /** The totals by category and the number of blocks won are sums over the current records, and the list
      shows the greatest heights seen, each block in its current state. */
  ghost predicate Exact(b: Book)
  {
    && TotalsExact(b.totals, b.incomes) && b.blocks == Over(b.incomes, Won())
    && RecentBlocks.Greatest(b.recent, b.seen) && SeenKnown(b.seen, b.incomes) && RowsCurrent(b.recent, b.incomes)
  }

  /** An update shows the new row and otherwise only rows of other blocks shown before. */
  lemma RowsFollow(rows: seq<RecentBlocks.Row>, r: RecentBlocks.Row)
    requires RecentBlocks.Different(rows)
    ensures forall x :: x in RecentBlocks.Update(rows, r) ==> x == r || (x in rows && x.id != r.id)
  {
    RecentBlocks.PlaceHolds(rows, r);
    RecentBlocks.SortSorts(RecentBlocks.Place(rows, r));
    var all := RecentBlocks.Sort(RecentBlocks.Place(rows, r));
    forall x | x in RecentBlocks.Update(rows, r) ensures x in RecentBlocks.Place(rows, r) {
      assert x in all;
      assert x in multiset(all);
    }
  }

  lemma UnlistedKeeps(recent: seq<RecentBlocks.Row>, seen: map<string, int>, incomes: map<string, Income>, e: Entry)
    requires RecentBlocks.Greatest(recent, seen) && SeenKnown(seen, incomes) && RowsCurrent(recent, incomes)
    requires Lawful(incomes, e) && !Listed(e.id, e.income)
    ensures SeenKnown(seen, incomes[e.id := e.income]) && RowsCurrent(recent, incomes[e.id := e.income])
  {
    assert e.id !in seen;
    forall r | r in recent ensures r.id != e.id { assert r.id in seen; }
  }

  lemma PutExact(b: Book, e: Entry)
    requires Exact(b) && Lawful(b.incomes, e)
    ensures Exact(Put(b, e))
  {
    TotalsFollow(b.totals, b.incomes, e.id, e.income);
    OverUpdate(b.incomes, e.id, e.income, Won());
    if Listed(e.id, e.income) {
      ListedKeeps(b.recent, b.seen, b.incomes, e);
    } else {
      UnlistedKeeps(b.recent, b.seen, b.incomes, e);
    }
  }

  lemma ListedKeeps(recent: seq<RecentBlocks.Row>, seen: map<string, int>, incomes: map<string, Income>, e: Entry)
    requires RecentBlocks.Greatest(recent, seen) && SeenKnown(seen, incomes) && RowsCurrent(recent, incomes)
    requires Lawful(incomes, e) && Listed(e.id, e.income)
    ensures var rows, heights := RecentBlocks.Update(recent, RowOf(e.id, e.income)), seen[e.id := e.income.height];
            RecentBlocks.Greatest(rows, heights) && SeenKnown(heights, incomes[e.id := e.income]) && RowsCurrent(rows, incomes[e.id := e.income])
  {
    RecentBlocks.UpdateKeeps(recent, seen, RowOf(e.id, e.income));
    RowsFollow(recent, RowOf(e.id, e.income));
  }

  /** After any sequence of writes, live or replayed, everything shown is exact. */
  lemma {:induction false} BooksExact(entries: Order<Entry>)
    requires LawfulEntries(entries)
    ensures Exact(After(entries))
  {
    match entries
    case Start =>
      assert Measure(EMPTY.incomes, Won()) == map[];
      forall c ensures Over(EMPTY.incomes, AmountIn(c)) == 0 { assert Measure(EMPTY.incomes, AmountIn(c)) == map[]; }
    case Then(before, e) =>
      BooksExact(before);
      PutExact(After(before), e);
  }

  class IncomeBook {
    var incomes: map<string, Income>
    var totals: map<Category, int>
    var blocks: int
    var recent: seq<RecentBlocks.Row>
    var tip: Option<Tip>
    ghost var entries: Order<Entry>

    /** The fields are what some sequence of writes has led to. */
    ghost predicate Valid()
      reads this
    {
      LawfulEntries(entries) && Book(incomes, totals, blocks, recent, After(entries).seen) == After(entries)
    }

    constructor ()
      ensures Valid() && incomes == map[] && tip.None?
    {
      incomes, totals, blocks, recent, tip, entries :=
        map[], map[Mining := 0, CominePayout := 0, StakingDistribution := 0], 0, [], None, Start;
    }

    /** Write an income and bring what is shown up to date. */
    method Write(id: string, i: Income)
      requires Valid() && Lawful(incomes, Entry(id, i))
      modifies this`incomes, this`totals, this`blocks, this`recent, this`entries
      ensures Valid() && incomes == old(incomes)[id := i] && entries == Then(old(entries), Entry(id, i))
    {
      if id in incomes {
        totals, blocks := Subtract(totals, incomes[id]), blocks - Block(incomes[id]);
      }
      totals, blocks := Add(totals, i), blocks + Block(i);
      if Listed(id, i) { recent := RecentBlocks.Update(recent, RowOf(id, i)); }
      incomes := incomes[id := i];
      entries := Then(entries, Entry(id, i));
    }

    // ---- Following the chain ----

    /** Only one income may differ. */
    twostate predicate Only(id: string)
      reads this
    {
      incomes.Keys == old(incomes).Keys && forall j :: j in incomes && j != id ==> incomes[j] == old(incomes)[j]
    }

    /** Record a change of state; an income that becomes available stays marked as having been so. */
    method Move(id: string, state: State)
      requires Valid() && id in incomes && incomes[id].state != state
      modifies this`incomes, this`totals, this`blocks, this`recent, this`entries
      ensures Valid() && Only(id)
      ensures var was := old(incomes)[id]; incomes[id] == was.(state := state, availableOnce := was.availableOnce || state == Available)
    {
      var income := incomes[id];
      Write(id, income.(state := state, availableOnce := income.availableOnce || state == Available));
    }

    /** The recorded transitions of one income. */
    method Track(id: string, canonical: bool, v: View, coins: map<Outpoint, int>)
      requires Valid() && id in incomes
      modifies this`incomes, this`totals, this`blocks, this`recent, this`entries
      ensures Valid() && Only(id) && incomes[id] == Process(old(incomes)[id], canonical, v, coins)
    {
      if !canonical {
        if incomes[id].state != Orphaned { Move(id, Orphaned); }
        return;
      }
      if incomes[id].state == Orphaned { Move(id, Pending); }
      if incomes[id].state != Pending || v.height - incomes[id].height + 1 < MATURITY { return; }
      if incomes[id].availableOnce || Unspent(incomes[id], coins) { Move(id, Available); }
    }

    /** The incomes chosen for a pass, each against the node or the cached tip. `step` names what that makes of
        an income. */
    method Scan(ids: set<string>, last: Option<int>, v: View, coins: map<Outpoint, int>, ghost step: Income -> Income)
      requires Valid() && ids <= incomes.Keys
      requires forall id :: id in ids ==> step(incomes[id]) == Process(incomes[id], OnChain(incomes[id], last, v), v, coins)
      modifies this`incomes, this`totals, this`blocks, this`recent, this`entries
      ensures Valid() && incomes.Keys == old(incomes).Keys
      ensures forall id :: id in incomes ==> incomes[id] == if id in ids then step(old(incomes)[id]) else old(incomes)[id]
    {
      var left := ids;
      while left != {}
        invariant Valid() && incomes.Keys == old(incomes).Keys && left <= ids
        invariant forall id :: id in incomes ==>
                    incomes[id] == if id in ids && id !in left then step(old(incomes)[id]) else old(incomes)[id]
        decreases |left|
      {
        var id := Pick(left);
        ScanOne(id, last, v, coins, step);
        left := left - {id};
      }
    }

    method ScanOne(id: string, last: Option<int>, v: View, coins: map<Outpoint, int>, ghost step: Income -> Income)
      requires Valid() && id in incomes
      requires step(incomes[id]) == Process(incomes[id], OnChain(incomes[id], last, v), v, coins)
      modifies this`incomes, this`totals, this`blocks, this`recent, this`entries
      ensures Valid() && incomes == old(incomes)[id := step(old(incomes)[id])]
    {
      Track(id, OnChain(incomes[id], last, v), v, coins);
    }

    /** Mature pending incomes. */
    method ScanPending(last: int, v: View, coins: map<Outpoint, int>)
      requires Valid()
      modifies this`incomes, this`totals, this`blocks, this`recent, this`entries
      ensures Valid() && incomes.Keys == old(incomes).Keys
      ensures forall id :: id in incomes ==> incomes[id] == PendingStep(old(incomes)[id], last, v, coins)
    {
      var ids := set id | id in incomes && incomes[id].state == Pending && incomes[id].height <= v.height - (MATURITY - 1);
      Scan(ids, Some(last), v, coins, (i: Income) => PendingStep(i, last, v, coins));
    }

    /** Orphaned incomes, whose block may be back. */
    method ScanOrphaned(last: int, v: View, coins: map<Outpoint, int>)
      requires Valid()
      modifies this`incomes, this`totals, this`blocks, this`recent, this`entries
      ensures Valid() && incomes.Keys == old(incomes).Keys
      ensures forall id :: id in incomes ==> incomes[id] == OrphanStep(old(incomes)[id], v, coins)
    {
      var ids := set id | id in incomes && incomes[id].state == Orphaned;
      Scan(ids, Some(last), v, coins, (i: Income) => OrphanStep(i, v, coins));
    }

    /** One reconciliation: the whole ledger, or only part of it when the chain extends the cached tip. The
        tip is cached only if the chain did not change meanwhile. */
    method Reconcile(v: View, coins: map<Outpoint, int>, stable: bool) returns (ok: bool)
      requires Valid()
      modifies this
      ensures Valid() && ok == stable
      ensures old(tip).None? || !Continues(old(tip).value, v) ==> incomes == FullPass(old(incomes), v, coins)
      ensures old(tip).Some? && Continues(old(tip).value, v) ==>
                incomes == PartialPass(old(incomes), old(tip).value.height, v, coins)
      ensures tip == if stable then Some(Tip(v.height, v.hashAt(v.height))) else old(tip)
    {
      if tip.Some? && Continues(tip.value, v) {
        ScanPending(tip.value.height, v, coins);
        ScanOrphaned(tip.value.height, v, coins);
        PassIs(old(incomes), incomes, tip.value.height, v, coins);
      } else {
        Scan(incomes.Keys, None, v, coins, (i: Income) => FullStep(i, v, coins));
      }
      if !stable { return false; }
      tip := Some(Tip(v.height, v.hashAt(v.height)));
      ok := true;
    }
  }

  lemma PassIs(before: map<string, Income>, after: map<string, Income>, last: int, v: View, coins: map<Outpoint, int>)
    requires after.Keys == before.Keys && forall id :: id in after ==> after[id] == PartialStep(before[id], last, v, coins)
    ensures after == PartialPass(before, last, v, coins)
  {
  }

  /** Whether a pass takes an income to be on the chain: at or below the cached tip, if it is not orphaned,
      without asking the node. */
  predicate OnChain(i: Income, last: Option<int>, v: View)
  {
    (last.Some? && i.height <= last.value && i.state != Orphaned) || Canonical(i, v)
  }
}
