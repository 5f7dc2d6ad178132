/** Assembling a page of blocks from a backend that may refuse large reads: split, read singly, reuse cached
    blocks, within a fixed number of reads. */
module BlockPages {
  import opened Outcomes
  import opened Orders

  const READS: nat := 100
  const PAGE: nat := 50
  const CACHED: nat := 512
  const HIGHEST: int := 1_000_000_000

  /** A block summary. */
  datatype Block = Block(height: int, hash: string, prev: string, time: int, size: int, txCount: int)

  datatype Tip = Tip(height: int, hash: string)

  datatype Answer<T> = Served(value: T) | TooBig | Failed

  /** What the backend answers to its n-th read, and whether the deadline has passed by then. */
  datatype Backend = Backend(page: (nat, int, nat) -> Answer<seq<Block>>, single: (nat, int) -> Answer<Block>, late: nat -> bool)

  // ---- What a page must be ----

  /** Sixty-four lower-case hexadecimal digits. */
  predicate HashText(text: string)
  {
    |text| == 64 && forall i :: 0 <= i < |text| ==> 'a' <= text[i] <= 'f' || '0' <= text[i] <= '9'
  }

  /** Hash texts have their form, and time, size and transaction count are in range. */
  predicate WellFormed(b: Block)
  {
    && HashText(b.hash) && HashText(b.prev) && 0 <= b.time <= 0xFFFF_FFFF && 0 < b.size <= 8_000_000
    && 0 <= b.txCount <= 100_000
  }

  ghost predicate ValidPage(blocks: seq<Block>, start: int, count: nat)
  {
    && |blocks| == count
    && (forall i :: 0 <= i < count ==> blocks[i].height == start - i && WellFormed(blocks[i]))
    && (forall i :: 0 < i < count ==> blocks[i - 1].prev == blocks[i].hash)
  }

  method Validate(blocks: seq<Block>, start: int, count: nat) returns (ok: bool)
    ensures ok <==> ValidPage(blocks, start, count)
  {
    if |blocks| != count { return false; }
    var index := 0;
    while index < |blocks|
      invariant 0 <= index <= |blocks|
      invariant forall i :: 0 <= i < index ==> blocks[i].height == start - i && WellFormed(blocks[i])
      invariant forall i :: 0 < i < index ==> blocks[i - 1].prev == blocks[i].hash
    {
      if blocks[index].height != start - index || !WellFormed(blocks[index]) { return false; }
      if index > 0 && blocks[index - 1].prev != blocks[index].hash { return false; }
      index := index + 1;
    }
    ok := true;
  }

  /** The blocks one unsplit read of a chain gives. */
  ghost function Slice(chain: int -> Block, height: int, length: nat): seq<Block>
  {
    seq(length, i => chain(height - i))
  }

  lemma SliceJoins(chain: int -> Block, height: int, half: nat, length: nat)
    requires half <= length
    ensures Slice(chain, height, half) + Slice(chain, height - half, length - half) == Slice(chain, height, length)
  {
  }

  /** Whatever the backend serves belongs to the chain of the tip. */
  ghost predicate Consistent(b: Backend, chain: int -> Block)
  {
    && (forall h :: chain(h).height == h)
    && (forall n, h, l :: b.page(n, h, l).Served? ==> b.page(n, h, l).value == Slice(chain, h, l))
    && (forall n, h :: b.single(n, h).Served? ==> b.single(n, h).value == chain(h))
  }

  // ---- The cache ----

  datatype Entry = Entry(tip: Tip, block: Block)

  predicate At(e: Entry, tip: Tip, height: int)
  {
    e.tip == tip && e.block.height == height
  }

  function Lookup(entries: Order<Entry>, tip: Tip, height: int): Option<Block>
  {
    match entries
    case Start => None
    case Then(before, e) => if At(e, tip, height) then Some(e.block) else Lookup(before, tip, height)
  }

  function Without(entries: Order<Entry>, tip: Tip, height: int): Order<Entry>
  {
    match entries
    case Start => Start
    case Then(before, e) => if At(e, tip, height) then before else Then(Without(before, tip, height), e)
  }

  function Size(entries: Order<Entry>): nat
  {
    if entries.Start? then 0 else Size(entries.before) + 1
  }

  function DropOldest(entries: Order<Entry>): Order<Entry>
  {
    if entries.Start? || entries.before.Start? then Start else Then(DropOldest(entries.before), entries.key)
  }

  /** Blocks cached for this tip are blocks of its chain. */
  ghost predicate Faithful(entries: Order<Entry>, tip: Tip, chain: int -> Block)
  {
    entries.Then? ==>
      Faithful(entries.before, tip, chain) && (entries.key.tip == tip ==> entries.key.block == chain(entries.key.block.height))
  }

  lemma {:induction false} LookupFaithful(entries: Order<Entry>, tip: Tip, height: int, chain: int -> Block)
    ensures Lookup(entries, tip, height).Some? ==> Lookup(entries, tip, height).value.height == height
    ensures Lookup(entries, tip, height).Some? && Faithful(entries, tip, chain) ==>
              Lookup(entries, tip, height).value == chain(height)
  {
    if entries.Then? && !At(entries.key, tip, height) { LookupFaithful(entries.before, tip, height, chain); }
  }

  lemma {:induction false} WithoutFaithful(entries: Order<Entry>, tip: Tip, height: int, chain: int -> Block)
    requires Faithful(entries, tip, chain)
    ensures Faithful(Without(entries, tip, height), tip, chain)
  {
    if entries.Then? && !At(entries.key, tip, height) { WithoutFaithful(entries.before, tip, height, chain); }
  }

  lemma {:induction false} DropFaithful(entries: Order<Entry>, tip: Tip, chain: int -> Block)
    requires Faithful(entries, tip, chain)
    ensures Faithful(DropOldest(entries), tip, chain)
    ensures entries.Then? ==> Size(DropOldest(entries)) == Size(entries) - 1
  {
    if entries.Then? && entries.before.Then? { DropFaithful(entries.before, tip, chain); }
  }

  /** The cache with the first n blocks entered as most recently used. */
  function Remembered(entries: Order<Entry>, tip: Tip, blocks: seq<Block>, n: nat): Order<Entry>
    requires n <= |blocks|
  {
    if n == 0 then entries
    else Then(Without(Remembered(entries, tip, blocks, n - 1), tip, blocks[n - 1].height), Entry(tip, blocks[n - 1]))
  }

  /** The oldest entries beyond the limit are dropped. */
  function Trim(entries: Order<Entry>): Order<Entry>
    decreases Size(entries)
  {
    if Size(entries) <= CACHED then entries
    else
      DropSize(entries);
      Trim(DropOldest(entries))
  }

  /** The block is found for the tip among the n most recent entries. */
  ghost predicate Among(entries: Order<Entry>, tip: Tip, block: Block, n: nat)
  {
    n > 0 && entries.Then? &&
    if At(entries.key, tip, block.height) then entries.key.block == block else Among(entries.before, tip, block, n - 1)
  }

  lemma {:induction false} AmongFound(entries: Order<Entry>, tip: Tip, block: Block, n: nat)
    requires Among(entries, tip, block, n)
    ensures Lookup(entries, tip, block.height) == Some(block)
  {
    if !At(entries.key, tip, block.height) { AmongFound(entries.before, tip, block, n - 1); }
  }

  lemma {:induction false} AmongWithout(entries: Order<Entry>, tip: Tip, block: Block, n: nat, height: int)
    requires Among(entries, tip, block, n) && height != block.height
    ensures Among(Without(entries, tip, height), tip, block, n)
  {
    if At(entries.key, tip, height) {
      AmongMore(entries.before, tip, block, n - 1);
    } else if !At(entries.key, tip, block.height) {
      AmongWithout(entries.before, tip, block, n - 1, height);
    }
  }

  lemma {:induction false} AmongMore(entries: Order<Entry>, tip: Tip, block: Block, n: nat)
    requires Among(entries, tip, block, n)
    ensures Among(entries, tip, block, n + 1)
  {
    if !At(entries.key, tip, block.height) { AmongMore(entries.before, tip, block, n - 1); }
  }

  lemma {:induction false} AmongDrop(entries: Order<Entry>, tip: Tip, block: Block, n: nat)
    requires Among(entries, tip, block, n) && Size(entries) > n
    ensures Among(DropOldest(entries), tip, block, n)
  {
    if !At(entries.key, tip, block.height) { AmongDrop(entries.before, tip, block, n - 1); }
  }

  lemma {:induction false} AmongTrim(entries: Order<Entry>, tip: Tip, block: Block, n: nat)
    requires Among(entries, tip, block, n) && n <= CACHED
    ensures Among(Trim(entries), tip, block, n)
    decreases Size(entries)
  {
    if Size(entries) > CACHED {
      DropSize(entries);
      AmongDrop(entries, tip, block, n);
      AmongTrim(DropOldest(entries), tip, block, n);
    }
  }

  lemma {:induction false} RememberedAmong(entries: Order<Entry>, tip: Tip, blocks: seq<Block>, n: nat, i: nat)
    requires i < n <= |blocks| && forall j, k :: 0 <= j < k < |blocks| ==> blocks[j].height != blocks[k].height
    ensures Among(Remembered(entries, tip, blocks, n), tip, blocks[i], n)
  {
    if i < n - 1 {
      RememberedAmong(entries, tip, blocks, n - 1, i);
      AmongWithout(Remembered(entries, tip, blocks, n - 1), tip, blocks[i], n - 1, blocks[n - 1].height);
    }
  }

  /** Every block of a run that fits the cache is found afterwards. */
  lemma RememberedFound(entries: Order<Entry>, tip: Tip, blocks: seq<Block>, i: nat)
    requires i < |blocks| <= CACHED && forall j, k :: 0 <= j < k < |blocks| ==> blocks[j].height != blocks[k].height
    ensures Lookup(Trim(Remembered(entries, tip, blocks, |blocks|)), tip, blocks[i].height) == Some(blocks[i])
  {
    RememberedAmong(entries, tip, blocks, |blocks|, i);
    AmongTrim(Remembered(entries, tip, blocks, |blocks|), tip, blocks[i], |blocks|);
    AmongFound(Trim(Remembered(entries, tip, blocks, |blocks|)), tip, blocks[i], |blocks|);
  }

  lemma {:induction false} RememberedFaithful(entries: Order<Entry>, tip: Tip, blocks: seq<Block>, n: nat, chain: int -> Block)
    requires n <= |blocks| && Faithful(entries, tip, chain)
    requires forall i :: 0 <= i < |blocks| ==> blocks[i] == chain(blocks[i].height)
    ensures Faithful(Remembered(entries, tip, blocks, n), tip, chain)
  {
    if n > 0 {
      RememberedFaithful(entries, tip, blocks, n - 1, chain);
      WithoutFaithful(Remembered(entries, tip, blocks, n - 1), tip, blocks[n - 1].height, chain);
    }
  }

  lemma {:induction false} TrimFaithful(entries: Order<Entry>, tip: Tip, chain: int -> Block)
    ensures Size(Trim(entries)) <= CACHED && (Faithful(entries, tip, chain) ==> Faithful(Trim(entries), tip, chain))
    decreases Size(entries)
  {
    if Size(entries) > CACHED {
      DropSize(entries);
      if Faithful(entries, tip, chain) { DropFaithful(entries, tip, chain); }
      TrimFaithful(DropOldest(entries), tip, chain);
    }
  }

  /** Keep blocks as most recently used, dropping the oldest beyond the limit. */
  method RememberAll(entries: Order<Entry>, tip: Tip, blocks: seq<Block>, ghost chain: int -> Block)
    returns (after: Order<Entry>)
    ensures after == Trim(Remembered(entries, tip, blocks, |blocks|)) && Size(after) <= CACHED
    ensures Faithful(entries, tip, chain) && (forall i :: 0 <= i < |blocks| ==> blocks[i] == chain(blocks[i].height)) ==>
              Faithful(after, tip, chain)
  {
    after := entries;
    var i := 0;
    while i < |blocks|
      invariant 0 <= i <= |blocks| && after == Remembered(entries, tip, blocks, i)
    {
      after := Then(Without(after, tip, blocks[i].height), Entry(tip, blocks[i]));
      i := i + 1;
    }
    ghost var all := after;
    while Size(after) > CACHED
      invariant Trim(after) == Trim(all)
      decreases Size(after)
    {
      DropSize(after);
      after := DropOldest(after);
    }
    TrimFaithful(all, tip, chain);
    if Faithful(entries, tip, chain) && (forall i :: 0 <= i < |blocks| ==> blocks[i] == chain(blocks[i].height)) {
      RememberedFaithful(entries, tip, blocks, |blocks|, chain);
    }
  }

  lemma {:induction false} DropSize(entries: Order<Entry>)
    requires entries.Then?
    ensures Size(DropOldest(entries)) == Size(entries) - 1
  {
    if entries.before.Then? { DropSize(entries.before); }
  }

  // ---- Reading a page ----

  ghost predicate Heights(blocks: seq<Block>, height: int, length: nat)
  {
    |blocks| == length && forall i :: 0 <= i < length ==> blocks[i].height == height - i
  }

  /** The chain's own blocks are well formed and linked. */
  ghost predicate SoundChain(chain: int -> Block)
  {
    forall h :: chain(h).height == h && WellFormed(chain(h)) && chain(h).prev == chain(h - 1).hash
  }

  lemma SliceValid(chain: int -> Block, height: int, length: nat)
    requires SoundChain(chain)
    ensures ValidPage(Slice(chain, height, length), height, length)
  {
    forall i | 0 < i < length ensures Slice(chain, height, length)[i - 1].prev == Slice(chain, height, length)[i].hash {
      assert chain(height - (i - 1)).prev == chain(height - (i - 1) - 1).hash;
    }
  }

  /** A backend that refuses nothing but reads that are too big, and is never too slow. */
  ghost predicate Willing(b: Backend)
  {
    && (forall n, h, l :: !b.page(n, h, l).Failed?)
    && (forall n, h :: b.single(n, h).Served?)
    && (forall n :: !b.late(n))
  }

  ghost predicate RefusesPages(b: Backend)
  {
    forall n, h, l :: b.page(n, h, l) == TooBig
  }

  class Pager {
    const backend: Backend
    const tip: Tip
    const caching: bool
    ghost const honest: bool
    ghost const chain: int -> Block
    var entries: Order<Entry>
    var calls: nat
    ghost var done: nat

    constructor (backend: Backend, tip: Tip, caching: bool, entries: Order<Entry>, ghost honest: bool,
                 ghost chain: int -> Block)
      requires honest ==> Consistent(backend, chain) && Faithful(entries, tip, chain) && SoundChain(chain)
      ensures Valid() && calls == 0
      ensures this.backend == backend && this.tip == tip && this.caching == caching
      ensures this.honest == honest && this.chain == chain
    {
      this.backend, this.tip, this.caching, this.entries, this.honest, this.chain := backend, tip, caching, entries, honest, chain;
      calls, done := 0, 0;
    }

    /** At most a hundred reads have reached the backend; with an honest backend the cache is part of the chain. */
    ghost predicate Valid()
      reads this
    {
      done <= READS && done <= calls
      && (honest ==> Consistent(backend, chain) && Faithful(entries, tip, chain) && SoundChain(chain))
    }

    method FetchPage(height: int, length: nat) returns (a: Answer<seq<Block>>)
      requires Valid()
      modifies this`calls, this`done
      ensures Valid() && calls == old(calls) + 1
      ensures honest && a.Served? ==> a.value == Slice(chain, height, length)
      ensures Willing(backend) && calls <= READS ==> !a.Failed?
      ensures RefusesPages(backend) ==> !a.Served?
      ensures !a.Failed? ==> calls <= READS
    {
      calls := calls + 1;
      if calls > READS || backend.late(calls) { return Failed; }
      done := done + 1;
      a := backend.page(calls, height, length);
    }

    method FetchSingle(height: int) returns (a: Answer<Block>)
      requires Valid()
      modifies this`calls, this`done
      ensures Valid() && calls == old(calls) + 1
      ensures honest && a.Served? ==> a.value == chain(height)
      ensures Willing(backend) && calls <= READS ==> a.Served?
      ensures a.Served? ==> calls <= READS
    {
      calls := calls + 1;
      if calls > READS || backend.late(calls) { return Failed; }
      done := done + 1;
      a := backend.single(calls, height);
    }

    method Accept(blocks: seq<Block>, height: int, length: nat) returns (r: Result<seq<Block>>)
      requires Valid() && (honest ==> blocks == Slice(chain, height, length))
      modifies this`entries
      ensures Valid()
      ensures r.Ok? ==> r.value == blocks && Heights(blocks, height, length)
      ensures honest ==> r.Ok?
    {
      if honest { SliceValid(chain, height, length); }
      var ok := Validate(blocks, height, length);
      if !ok { return Refused; }
      if caching { entries := RememberAll(entries, tip, blocks, chain); }
      r := Ok(blocks);
    }

    /** What collecting a run of blocks promises, whatever is refused and whatever is cached. */
    twostate predicate Collected(new r: Result<seq<Block>>, height: int, length: nat)
      reads this
    {
      && old(calls) <= calls <= old(calls) + 3 * length - 1
      && (r.Ok? ==> Heights(r.value, height, length))
      && (r.Ok? && honest ==> r.value == Slice(chain, height, length))
      && (Willing(backend) && honest && old(calls) + 3 * length - 1 <= READS ==> r.Ok?)
      && (!caching && RefusesPages(backend) && r.Ok? ==> calls == old(calls) + 3 * length - 1 && calls <= READS)
    }

    /** Read a run of blocks at once; if that is too big, in halves, and a single block on its own. */
    method Collect(height: int, length: nat) returns (r: Result<seq<Block>>)
      requires Valid() && length >= 1
      modifies this`entries, this`calls, this`done
      ensures Valid() && Collected(r, height, length)
      decreases length, 2
    {
      if caching {
        var cache, at := entries, tip;
        var known := seq(length, i requires 0 <= i < length => Lookup(cache, at, height - i));
        if exists i :: 0 <= i < length && known[i].Some? {
          KnownHolds(known, height, length);
          r := FillGaps(known, height, length);
          return;
        }
      }
      var page := FetchPage(height, length);
      match page
      case Failed => r := Refused;
      case Served(blocks) => r := Accept(blocks, height, length);
      case TooBig =>
        if length == 1 {
          r := Single(height);
        } else {
          r := Halves(height, length);
        }
    }

    lemma KnownHolds(known: seq<Option<Block>>, height: int, length: nat)
      requires Valid() && |known| == length && forall i :: 0 <= i < length ==> known[i] == Lookup(entries, tip, height - i)
      ensures Known(known, height, length)
    {
      forall i | 0 <= i < length && known[i].Some? ensures known[i].value.height == height - i && (honest ==> known[i].value == chain(height - i)) {
        LookupFaithful(entries, tip, height - i, chain);
      }
    }

    ghost predicate Known(known: seq<Option<Block>>, height: int, length: nat)
    {
      && |known| == length
      && forall i :: 0 <= i < length && known[i].Some? ==> known[i].value.height == height - i && (honest ==> known[i].value == chain(height - i))
    }

    method Single(height: int) returns (r: Result<seq<Block>>)
      requires Valid()
      modifies this`entries, this`calls, this`done
      ensures Valid() && calls == old(calls) + 1
      ensures r.Ok? ==> Heights(r.value, height, 1) && calls <= READS
      ensures r.Ok? && honest ==> r.value == Slice(chain, height, 1)
      ensures Willing(backend) && honest && calls <= READS ==> r.Ok?
    {
      var block := FetchSingle(height);
      if !block.Served? { return Refused; }
      assert honest ==> [block.value] == Slice(chain, height, 1);
      r := Accept([block.value], height, 1);
    }

    method Halves(height: int, length: nat) returns (r: Result<seq<Block>>)
      requires Valid() && length >= 2
      modifies this`entries, this`calls, this`done
      ensures Valid()
      ensures old(calls) <= calls <= old(calls) + 3 * length - 2
      ensures r.Ok? ==> Heights(r.value, height, length)
      ensures r.Ok? && honest ==> r.value == Slice(chain, height, length)
      ensures Willing(backend) && honest && old(calls) + 3 * length - 2 <= READS ==> r.Ok?
      ensures !caching && RefusesPages(backend) && r.Ok? ==> calls == old(calls) + 3 * length - 2 && calls <= READS
      decreases length, 0
    {
      var half := length / 2;
      var upper := Collect(height, half);
      if upper.Refused? { return Refused; }
      var lower := Collect(height - half, length - half);
      if lower.Refused? { return Refused; }
      SliceJoins(chain, height, half, length);
      r := Ok(upper.value + lower.value);
    }

    /** Cached blocks as they are, and the runs between them collected. */
    method FillGaps(known: seq<Option<Block>>, height: int, length: nat) returns (r: Result<seq<Block>>)
      requires Valid() && caching && length >= 1 && Known(known, height, length) && exists i :: 0 <= i < length && known[i].Some?
      modifies this`entries, this`calls, this`done
      ensures Valid() && Collected(r, height, length)
      decreases length, 1
    {
      var result: seq<Block> := [];
      var index := 0;
      while index < length
        invariant Valid() && 0 <= index <= length
        invariant old(calls) <= calls <= old(calls) + 3 * index - (if index > 0 then 1 else 0)
        invariant Heights(result, height, index) && (honest ==> result == Slice(chain, height, index))
      {
        var piece, end := Piece(known, height, length, index);
        if piece.Refused? { return Refused; }
        SliceJoins(chain, height, index, end);
        result := result + piece.value;
        index := end;
      }
      if honest { SliceValid(chain, height, length); }
      var ok := Validate(result, height, length);
      r := if ok then Ok(result) else Refused;
    }

    /** The next cached block, or the next run without any. */
    method Piece(known: seq<Option<Block>>, height: int, length: nat, index: nat)
      returns (r: Result<seq<Block>>, end: nat)
      requires Valid() && index < length && Known(known, height, length) && exists i :: 0 <= i < length && known[i].Some?
      modifies this`entries, this`calls, this`done
      ensures Valid() && index < end <= length
      ensures old(calls) <= calls <= old(calls) + 3 * (end - index) - 1
      ensures r.Ok? ==> Heights(r.value, height - index, end - index)
      ensures r.Ok? && honest ==> r.value == Slice(chain, height - index, end - index)
      ensures Willing(backend) && honest && old(calls) + 3 * (end - index) - 1 <= READS ==> r.Ok?
      decreases length, 0
    {
      if known[index].Some? {
        assert honest ==> [known[index].value] == Slice(chain, height - index, 1);
        return Ok([known[index].value]), index + 1;
      }
      end := index + 1;
      while end < length && known[end].None?
        invariant index < end <= length && forall i :: index <= i < end ==> known[i].None?
      {
        end := end + 1;
      }
      r := Collect(height - index, end - index);
    }

    /** A page within bounds. Whatever was refused and whatever was cached, a page that is returned has the
        requested heights and is linked; from an honest backend it is the page one unsplit read would give.
        At most a hundred reads are made. A page of up to thirty-three blocks is returned for every pattern
        of refusals; when every page is refused, only such a page is. */
    method Page(start: int, count: int) returns (r: Result<seq<Block>>)
      requires Valid() && calls == 0
      modifies this`entries, this`calls, this`done
      ensures Valid() && done <= READS
      ensures r.Ok? ==> 1 <= count <= PAGE && count <= start + 1 && ValidPage(r.value, start, count)
      ensures r.Ok? && honest ==> r.value == Slice(chain, start, count)
      ensures Willing(backend) && honest && 0 <= start <= HIGHEST && 1 <= count <= 33 && count <= start + 1 ==> r.Ok?
      ensures !caching && RefusesPages(backend) && r.Ok? ==> count <= 33
    {
      if !(0 <= start <= HIGHEST) || !(1 <= count <= PAGE && count <= start + 1) { return Refused; }
      var blocks := Collect(start, count);
      if blocks.Refused? { return Refused; }
      if honest { SliceValid(chain, start, count); }
      var ok := Validate(blocks.value, start, count);
      r := if ok then blocks else Refused;
    }
  }
}
