/** The `txoutproof` verifier over raw bytes: what it accepts, why an accepted proof shows a
    transaction of the block, and that the standard proof of any transaction is accepted exactly
    when no two siblings on its path hash alike. */
module TxOutProofs {
  import opened Bytes
  import opened Integers
  import opened MerkleTree
  import opened Outcomes
  import opened PartialMerkle
  import opened Readers
  import opened Transactions

  const MAX_LEAVES: nat := 10_000_000

  /** Bit i of the flag bytes, least significant bit first. */
  function FlagBit(flags: Bytes, i: nat): bool
    requires i < 8 * |flags|
  {
    flags[i / 8] / Pow2(i % 8) % 2 == 1
  }

  function Unpack(flags: Bytes): (bits: seq<bool>)
    ensures |bits| == 8 * |flags|
  {
    seq(8 * |flags|, i requires 0 <= i < 8 * |flags| => FlagBit(flags, i))
  }

  function ReadDigest(s: Bytes): Read<Bytes>
  {
    ReadTake(s, 32)
  }

  datatype Envelope = Envelope(header: Bytes, total: nat, hashes: seq<Bytes>, flags: Bytes)

  function ReadHashes(s: Bytes, total: nat): Read<seq<Bytes>>
  {
    var n := ReadVarint(s);
    if n.Bad? || !(1 <= n.value <= total) then Bad else ReadMany(ReadDigest, n.rest, n.value)
  }

  function ReadFlags(s: Bytes, total: nat): Read<Bytes>
  {
    var n := ReadVarint(s);
    if n.Bad? || !(1 <= n.value <= (total * 2 + 7) / 8) then Bad else ReadTake(n.rest, n.value)
  }

  function ReadEnvelope(raw: Bytes): Option<Envelope>
  {
    var header := ReadTake(raw, 80);
    if header.Bad? then None else
    var total := ReadDigits(header.rest, 4);
    if total.Bad? || !(1 <= total.value <= MAX_LEAVES) then None else
    var hashes := ReadHashes(total.rest, total.value);
    if hashes.Bad? then None else
    var flags := ReadFlags(hashes.rest, total.value);
    if flags.Bad? || flags.rest != [] then None else
    Some(Envelope(header.value, total.value, hashes.value, flags.value))
  }

  /** The walk's outcome: every hash used, at most seven unused flag bits and all of them clear,
      the header's root rebuilt, and exactly the wanted transaction matched. */
  predicate Proves(w: Walked, root: Bytes, txid: Bytes)
  {
    && w.Walked? && w.hashes == [] && |w.flags| < 8
    && (forall i :: 0 <= i < |w.flags| ==> !w.flags[i])
    && w.value == root
    && |w.matches| == 1 && Reversed(w.matches[0]) == txid
  }

  function Rebuild(e: Envelope, hash: Bytes -> Bytes): Walked
  {
    Walk(ShapeAt(e.total, Height(e.total), 0), Unpack(e.flags), e.hashes, hash)
  }

  predicate Accepts(raw: Bytes, txid: Bytes, blockHash: Bytes, hash: Bytes -> Bytes)
  {
    var e := ReadEnvelope(raw);
    e.Some? && |e.value.header| == 80 && Reversed(hash(e.value.header)) == blockHash &&
    Proves(Rebuild(e.value, hash), e.value.header[36..68], txid)
  }

  // ---- Soundness ----

  lemma {:induction false} ReadDigestsSized(s: Bytes, n: nat)
    requires ReadMany(ReadDigest, s, n).Good?
    ensures Digests(ReadMany(ReadDigest, s, n).value)
    decreases n
  {
    if n > 0 {
      ReadDigestsSized(ReadDigest(s).rest, n - 1);
    }
  }

  lemma EnvelopeDigests(raw: Bytes)
    requires ReadEnvelope(raw).Some?
    ensures Digests(ReadEnvelope(raw).value.hashes) && |ReadEnvelope(raw).value.header| == 80
  {
    var s := ReadDigits(ReadTake(raw, 80).rest, 4).rest;
    ReadDigestsSized(ReadVarint(s).rest, ReadVarint(s).value);
  }

  /** Everything hashed while checking this proof against this block. */
  ghost function Hashed(e: Envelope, header: Bytes, ids: seq<Bytes>, hash: Bytes -> Bytes): set<Bytes>
    requires ids != []
  {
    {e.header, header} + TreePreimages(BlockTree(ids), hash) +
    WalkPreimages(ShapeAt(e.total, Height(e.total), 0), Unpack(e.flags), e.hashes, hash)
  }

  /** An accepted proof shows a transaction of the block: for a block whose header carries the
      Merkle root of its ids, a proof over that many leaves that is accepted for the block's hash
      names one of those ids. */
  lemma AcceptedIsIncluded(raw: Bytes, txid: Bytes, header: Bytes, ids: seq<Bytes>, hash: Bytes -> Bytes)
    requires |header| == 80 && ids != [] && Digests(ids) && DigestSized(hash)
    requires header[36..68] == MerkleRoot(ids, hash)
    requires ReadEnvelope(raw).Some? && ReadEnvelope(raw).value.total == |ids|
    requires CollisionFree(hash, Hashed(ReadEnvelope(raw).value, header, ids, hash))
    requires Accepts(raw, txid, Reversed(hash(header)), hash)
    ensures exists i :: 0 <= i < |ids| && Reversed(ids[i]) == txid
  {
    var e := ReadEnvelope(raw).value;
    var t := BlockTree(ids);
    var w := Rebuild(e, hash);
    EnvelopeDigests(raw);
    ReversedInjective(hash(e.header), hash(header));
    assert e.header == header;
    BlockTreeProperties(ids, hash);
    WalkSound(t, Unpack(e.flags), e.hashes, hash, Hashed(e, header, ids, hash));
    assert w.matches[0] in ids;
  }

  // ---- Packing flag bits ----

  function Bit(b: bool): nat
  {
    if b then 1 else 0
  }

  function ByteOf(bits: seq<bool>): (r: nat)
    ensures r < Pow2(|bits|)
  {
    if bits == [] then 0 else Bit(bits[0]) + 2 * ByteOf(bits[1..])
  }

  lemma {:induction false} ByteOfBit(bits: seq<bool>, k: nat)
    ensures ByteOf(bits) / Pow2(k) % 2 == if k < |bits| then Bit(bits[k]) else 0
    decreases k
  {
    if bits == [] {
      ZeroDivided(Pow2(k));
    } else if k > 0 {
      ByteOfBit(bits[1..], k - 1);
      HalveFirst(Bit(bits[0]), ByteOf(bits[1..]), Pow2(k - 1));
    }
  }

  lemma ZeroDivided(b: nat)
    requires b >= 1
    ensures 0 / b == 0
  {
    DivUnique(0, 0, 0, b);
  }

  lemma HalveFirst(b: nat, r: nat, m: nat)
    requires b <= 1 && m >= 1
    ensures (b + 2 * r) / (2 * m) == r / m
  {
    var q, k := r / m, r % m;
    assert r == m * q + k;
    assert b + 2 * r == (2 * m) * q + (b + 2 * k);
    DivUnique(b + 2 * r, q, b + 2 * k, 2 * m);
  }

  /** The flags a byte holds: eight, or what is left at the end. */
  function Octet(bits: seq<bool>, j: nat): (s: seq<bool>)
    requires 8 * j <= |bits|
    ensures |s| <= 8
  {
    bits[8 * j..if 8 * j + 8 <= |bits| then 8 * j + 8 else |bits|]
  }

  lemma OctetByte(bits: seq<bool>)
    requires |bits| <= 8
    ensures 0 <= ByteOf(bits) < 256
  {
    Pow2Monotone(|bits|, 8);
  }

  lemma {:induction false} Pow2Monotone(a: nat, b: nat)
    requires a <= b
    ensures Pow2(a) <= Pow2(b)
    decreases b - a
  {
    if a < b { Pow2Monotone(a + 1, b); }
  }

  function PackByte(bits: seq<bool>, j: nat): byte
    requires 8 * j < |bits|
  {
    OctetByte(Octet(bits, j));
    ByteOf(Octet(bits, j))
  }

  function Pack(bits: seq<bool>): (s: Bytes)
    ensures |s| == (|bits| + 7) / 8
  {
    seq((|bits| + 7) / 8, j requires 0 <= j < (|bits| + 7) / 8 => PackByte(bits, j))
  }

  function Padding(n: nat): (s: seq<bool>)
    ensures |s| == n && forall i :: 0 <= i < n ==> !s[i]
  {
    seq(n, i => false)
  }

  function PaddingOf(bits: seq<bool>): seq<bool>
  {
    Padding(8 * ((|bits| + 7) / 8) - |bits|)
  }

  lemma PackedBit(bits: seq<bool>, i: nat)
    requires i < 8 * |Pack(bits)|
    ensures FlagBit(Pack(bits), i) == (i < |bits| && bits[i])
  {
    var j, k := i / 8, i % 8;
    ByteOfBit(Octet(bits, j), k);
    assert Pack(bits)[j] == ByteOf(Octet(bits, j));
    assert i == 8 * j + k;
    assert k < |Octet(bits, j)| <==> i < |bits|;
  }

  /** Unpacking restores the flags, followed by fewer than eight clear bits. */
  lemma UnpackPack(bits: seq<bool>)
    ensures Unpack(Pack(bits)) == bits + PaddingOf(bits) && |PaddingOf(bits)| < 8
  {
    var u, v := Unpack(Pack(bits)), bits + PaddingOf(bits);
    forall i | 0 <= i < |u| ensures u[i] == v[i] {
      PackedBit(bits, i);
    }
  }

  // ---- The standard proof ----

  function Append(x: Bytes, tail: Bytes): Bytes
  {
    x + tail
  }

  function Is32(x: Bytes): bool
  {
    |x| == 32
  }

  lemma DigestsInverse()
    ensures Inverse(ReadDigest, Append, Is32)
  {
    forall x, tail | Is32(x) ensures ReadDigest(Append(x, tail)) == Good(x, tail) { TakeBack(x, tail); }
    forall s | ReadDigest(s).Good?
      ensures Is32(ReadDigest(s).value) && s == Append(ReadDigest(s).value, ReadDigest(s).rest)
    { TakeForth(s, 32); }
  }

  function EncodeEnvelope(e: Envelope): Bytes
  {
    e.header + DigitsTo(e.total, 4, VarintTo(|e.hashes|, ManyTo(Append, e.hashes, VectorTo(e.flags, []))))
  }

  lemma ReadHashesBack(hashes: seq<Bytes>, total: nat, tail: Bytes)
    requires Digests(hashes) && 1 <= |hashes| <= total <= MAX_LEAVES
    ensures ReadHashes(VarintTo(|hashes|, ManyTo(Append, hashes, tail)), total) == Good(hashes, tail)
  {
    VarintBack(|hashes|, ManyTo(Append, hashes, tail));
    DigestsInverse();
    ManyBack(ReadDigest, Append, Is32, hashes, tail);
  }

  lemma ReadFlagsBack(flags: Bytes, total: nat)
    requires 1 <= |flags| <= (total * 2 + 7) / 8 && total <= MAX_LEAVES
    ensures ReadFlags(VectorTo(flags, []), total) == Good(flags, [])
  {
    VarintBack(|flags|, flags + []);
    TakeBack(flags, []);
  }

  lemma EnvelopeBack(e: Envelope)
    requires |e.header| == 80 && 1 <= e.total <= MAX_LEAVES && Digests(e.hashes)
    requires 1 <= |e.hashes| <= e.total && 1 <= |e.flags| <= (e.total * 2 + 7) / 8
    ensures ReadEnvelope(EncodeEnvelope(e)) == Some(e)
  {
    var flags := VectorTo(e.flags, []);
    var hashes := VarintTo(|e.hashes|, ManyTo(Append, e.hashes, flags));
    TakeBack(e.header, DigitsTo(e.total, 4, hashes));
    Widths();
    DigitsBack(e.total, 4, hashes);
    ReadHashesBack(e.hashes, e.total, flags);
    ReadFlagsBack(e.flags, e.total);
  }

  /** The proof of the i-th transaction, as BIP 37 builds it. */
  function StandardProof(header: Bytes, ids: seq<Bytes>, i: nat, hash: Bytes -> Bytes): Envelope
    requires i < |ids|
  {
    BlockTreeIds(ids);
    var t := BlockTree(ids);
    var path := PathTo(t, i);
    Envelope(header, |ids|, HashesTo(t, path, hash, []), Pack(FlagsTo(t, path, [])))
  }

  lemma {:induction false} FlagsAppend(t: Tree, path: Path, tail: seq<bool>)
    requires ValidPath(t, path)
    ensures FlagsTo(t, path, tail) == FlagsTo(t, path, []) + tail
    decreases t
  {
    match path
    case Off =>
    case Here =>
    case Down(rest) => FlagsAppend(t.only, rest, tail);
    case GoLeft(rest) =>
      FlagsAppend(t.right, Off, tail);
      FlagsAppend(t.left, rest, FlagsTo(t.right, Off, tail));
      FlagsAppend(t.left, rest, FlagsTo(t.right, Off, []));
    case GoRight(rest) =>
      FlagsAppend(t.right, rest, tail);
      FlagsAppend(t.left, Off, FlagsTo(t.right, rest, tail));
      FlagsAppend(t.left, Off, FlagsTo(t.right, rest, []));
  }

  /** The standard proof fits the bounds the reader puts on it. */
  lemma StandardProofReads(header: Bytes, ids: seq<Bytes>, i: nat, hash: Bytes -> Bytes)
    requires |header| == 80 && i < |ids| <= MAX_LEAVES && Digests(ids) && DigestSized(hash)
    ensures ReadEnvelope(EncodeEnvelope(StandardProof(header, ids, i, hash))) == Some(StandardProof(header, ids, i, hash))
  {
    var t := BlockTree(ids);
    BlockTreeIds(ids);
    TopWidth(|ids|);
    TreeDepth(ids, Height(|ids|), 0);
    HeightBound(|ids|);
    ProofSize(t, PathTo(t, i), [], [], hash);
    HashesToDigests(t, PathTo(t, i), hash, []);
    EnvelopeBack(StandardProof(header, ids, i, hash));
  }

  lemma StandardProofWalk(header: Bytes, ids: seq<Bytes>, i: nat, hash: Bytes -> Bytes)
    requires i < |ids|
    ensures Ids(BlockTree(ids)) == ids
    ensures var t := BlockTree(ids);
            var flags := FlagsTo(t, PathTo(t, i), []);
            Rebuild(StandardProof(header, ids, i, hash), hash) ==
            Built(t, PathTo(t, i), PaddingOf(flags), [], hash)
  {
    var t := BlockTree(ids);
    BlockTreeIds(ids);
    var path := PathTo(t, i);
    var flags := FlagsTo(t, path, []);
    BlockTreeProperties(ids, hash);
    UnpackPack(flags);
    FlagsAppend(t, path, PaddingOf(flags));
    WalkBuilt(t, path, PaddingOf(flags), [], hash);
  }

  /** The standard proof of any transaction of a block is accepted exactly when no two siblings on
      the path to it hash alike. */
  lemma StandardProofAcceptedIff(header: Bytes, ids: seq<Bytes>, i: nat, hash: Bytes -> Bytes)
    requires |header| == 80 && i < |ids| <= MAX_LEAVES && Digests(ids) && DigestSized(hash)
    requires header[36..68] == MerkleRoot(ids, hash)
    ensures Ids(BlockTree(ids)) == ids
    ensures Accepts(EncodeEnvelope(StandardProof(header, ids, i, hash)), Reversed(ids[i]), Reversed(hash(header)), hash)
            <==> PathDistinct(BlockTree(ids), PathTo(BlockTree(ids), i), hash)
  {
    StandardProofReads(header, ids, i, hash);
    StandardProofWalk(header, ids, i, hash);
    BlockTreeProperties(ids, hash);
    UnpackPack(FlagsTo(BlockTree(ids), PathTo(BlockTree(ids), i), []));
  }

  // ---- The verifier as it runs ----

  /** The cursors and matches the recursive walk shares. */
  class Walker {
    const total: nat
    const hashes: seq<Bytes>
    const flags: Bytes
    const hash: Bytes -> Bytes
    var bitIndex: nat
    var hashIndex: nat
    var matches: seq<Bytes>

    constructor (total: nat, hashes: seq<Bytes>, flags: Bytes, hash: Bytes -> Bytes)
      ensures this.total == total && this.hashes == hashes && this.flags == flags && this.hash == hash
      ensures bitIndex == 0 && hashIndex == 0 && matches == []
      ensures Valid() && FlagsLeft() == Unpack(flags) && HashesLeft() == hashes
    {
      this.total, this.hashes, this.flags, this.hash := total, hashes, flags, hash;
      bitIndex, hashIndex, matches := 0, 0, [];
    }

    ghost predicate Valid()
      reads this
    {
      bitIndex <= 8 * |flags| && hashIndex <= |hashes|
    }

    ghost function FlagsLeft(): seq<bool>
      reads this
      requires Valid()
    {
      Unpack(flags)[bitIndex..]
    }

    ghost function HashesLeft(): seq<Bytes>
      reads this
      requires Valid()
    {
      hashes[hashIndex..]
    }

    /** The next flag bit. */
    method NextBit() returns (r: Result<bool>)
      requires Valid()
      modifies this`bitIndex
      ensures Valid()
      ensures if old(FlagsLeft()) == [] then r.Refused?
              else r == Ok(old(FlagsLeft())[0]) && FlagsLeft() == old(FlagsLeft())[1..]
    {
      if bitIndex >= 8 * |flags| { return Refused; }
      r := Ok(FlagBit(flags, bitIndex));
      bitIndex := bitIndex + 1;
    }

    /** What a finished walk of a subtree means for the cursors and the matches. */
    ghost predicate Followed(spec: Walked, r: Result<Bytes>, before: seq<Bytes>)
      reads this
    {
      match spec
      case Fail => r.Refused?
      case Walked(value, f, h, m) =>
        r == Ok(value) && Valid() && FlagsLeft() == f && HashesLeft() == h && matches == before + m
    }

    /** `position * 2 + 1 < width(level - 1)`: whether the second child exists. */
    method HasSibling(level: nat, position: nat) returns (r: bool)
      requires level > 0
      ensures r <==> ShapeAt(total, level, position).Fork?
    {
      var width := LevelWidth(total, level - 1);
      r := 2 * position + 1 < width;
    }

    /** A node whose hash the proof supplies. */
    method TakeHash(isMatch: bool) returns (r: Result<Bytes>)
      requires Valid()
      modifies this`hashIndex, this`matches
      ensures Valid()
      ensures if old(HashesLeft()) == [] then r.Refused?
              else r == Ok(old(HashesLeft())[0]) && HashesLeft() == old(HashesLeft())[1..] &&
                   matches == old(matches) + (if isMatch then [r.value] else [])
    {
      if hashIndex >= |hashes| { return Refused; }
      r := Ok(hashes[hashIndex]);
      hashIndex := hashIndex + 1;
      if isMatch {
        matches := matches + [r.value];
      }
    }

    /** Both children, left first. */
    method DescendBoth(level: nat, position: nat, ghost shape: Shape)
      returns (left: Result<Bytes>, right: Result<Bytes>)
      requires Valid() && level > 0 && shape == ShapeAt(total, level, position) && shape.Fork?
      modifies this
      ensures var w := Walk(shape.first, old(FlagsLeft()), old(HashesLeft()), hash);
              if w.Fail? then left.Refused?
              else left == Ok(w.value) && Followed(Walk(shape.second, w.flags, w.hashes, hash), right, old(matches) + w.matches)
      decreases level, 0
    {
      right := Refused;
      left := Descend(level - 1, 2 * position, shape.first);
      if left.Ok? {
        right := Descend(level - 1, 2 * position + 1, shape.second);
      }
    }

    method Descend(level: nat, position: nat, ghost shape: Shape) returns (r: Result<Bytes>)
      requires Valid() && shape == ShapeAt(total, level, position)
      modifies this
      ensures Followed(Walk(shape, old(FlagsLeft()), old(HashesLeft()), hash), r, old(matches))
      decreases level, 1
    {
      var parent := NextBit();
      if parent.Refused? { return Refused; }
      if level == 0 || !parent.value {
        r := TakeHash(level == 0 && parent.value);
        return;
      }
      ghost var f, h := FlagsLeft(), HashesLeft();
      var fork := HasSibling(level, position);
      if fork {
        var left, right := DescendBoth(level, position, shape);
        if left.Refused? || right.Refused? || right.value == left.value { return Refused; }
        JoinMatches(old(matches), shape, f, h, hash);
        r := Ok(hash(left.value + right.value));
      } else {
        var left := Descend(level - 1, 2 * position, shape.below);
        if left.Refused? { return Refused; }
        r := Ok(hash(left.value + left.value));
      }
    }
  }

  lemma JoinMatches(before: seq<Bytes>, shape: Shape, f: seq<bool>, h: seq<Bytes>, hash: Bytes -> Bytes)
    requires shape.Fork? && Walk(shape.first, f, h, hash).Walked?
    requires var w := Walk(shape.first, f, h, hash); Walk(shape.second, w.flags, w.hashes, hash).Walked?
    ensures var w := Walk(shape.first, f, h, hash);
            var v := Walk(shape.second, w.flags, w.hashes, hash);
            before + w.matches + v.matches == before + (w.matches + v.matches)
  {
  }

  lemma {:induction false} HeightFrom(total: nat, level: nat)
    ensures Width(total, level) > 1 ==> Height(Width(total, level)) == 1 + Height(Width(total, level + 1))
    ensures total >= 1 ==> Width(total, level) >= 1
  {
    if level > 0 { HeightFrom(total, level - 1); }
  }

  /** `(total + (1 << level) - 1) >> level`. */
  method LevelWidth(total: nat, level: nat) returns (width: nat)
    ensures width == Width(total, level)
  {
    WidthFormula(total, level);
    width := (total + Pow2(level) - 1) / Pow2(level);
  }

  /** The loop that finds the level with a single node. */
  method TreeHeight(total: nat) returns (height: nat)
    requires total >= 1
    ensures height == Height(total)
  {
    height := 0;
    var width := LevelWidth(total, height);
    while width > 1
      invariant width == Width(total, height)
      invariant Height(total) == height + Height(width)
      decreases width
    {
      HeightFrom(total, height);
      height := height + 1;
      width := LevelWidth(total, height);
    }
    HeightFrom(total, height);
  }

  /** The hashes of the proof, read one after another. */
  method TakeDigests(reader: Reader, count: nat) returns (r: Result<seq<Bytes>>)
    requires reader.Valid()
    modifies reader
    ensures reader.Reads(ReadMany(ReadDigest, old(reader.Rest()), count), r)
  {
    ghost var first := reader.Rest();
    var hashes: seq<Bytes> := [];
    var k := 0;
    while k < count
      invariant reader.Valid() && 0 <= k <= count
      invariant ReadMany(ReadDigest, first, k) == Good(hashes, reader.Rest())
    {
      ReadOneMore(ReadDigest, first, count, k, hashes, reader.Rest());
      var item := reader.Take(32);
      if item.Refused? { return Refused; }
      hashes := hashes + [item.value];
      k := k + 1;
    }
    r := Ok(hashes);
  }

  method TakeEnvelope(raw: Bytes) returns (r: Result<Envelope>)
    ensures match ReadEnvelope(raw)
            case None => r.Refused?
            case Some(e) => r == Ok(e)
  {
    var reader := new Reader(raw);
    var header := reader.Take(80);
    if header.Refused? { return Refused; }
    var total := reader.Digits(4);
    if total.Refused? || !(1 <= total.value <= MAX_LEAVES) { return Refused; }
    var hashCount := reader.Count();
    if hashCount.Refused? || !(1 <= hashCount.value <= total.value) { return Refused; }
    var hashes := TakeDigests(reader, hashCount.value);
    if hashes.Refused? { return Refused; }
    var flagCount := reader.Count();
    if flagCount.Refused? || !(1 <= flagCount.value <= (total.value * 2 + 7) / 8) { return Refused; }
    var flags := reader.Take(flagCount.value);
    if flags.Refused? || reader.offset != |raw| { return Refused; }
    r := Ok(Envelope(header.value, total.value, hashes.value, flags.value));
  }

  /** No flag bit from `from` on is set. */
  method PaddingClear(flags: Bytes, from: nat) returns (clear: bool)
    requires from <= 8 * |flags|
    ensures clear <==> forall i :: 0 <= i < |Unpack(flags)[from..]| ==> !Unpack(flags)[from..][i]
  {
    ghost var rest := Unpack(flags)[from..];
    var index := from;
    while index < 8 * |flags|
      invariant from <= index <= 8 * |flags|
      invariant forall i :: 0 <= i < index - from ==> !rest[i]
    {
      assert rest[index - from] == FlagBit(flags, index);
      if FlagBit(flags, index) { return false; }
      index := index + 1;
    }
    clear := true;
  }

  /** Accepts exactly the proofs `Accepts` describes. */
  method VerifyPartialMerkleProof(raw: Bytes, txid: Bytes, blockHash: Bytes, hash: Bytes -> Bytes) returns (ok: bool)
    ensures ok <==> Accepts(raw, txid, blockHash, hash)
  {
    var envelope := TakeEnvelope(raw);
    if envelope.Refused? { return false; }
    EnvelopeDigests(raw);
    var e := envelope.value;
    if Reversed(hash(e.header)) != blockHash { return false; }
    var height := TreeHeight(e.total);
    var walker := new Walker(e.total, e.hashes, e.flags, hash);
    var root := walker.Descend(height, 0, ShapeAt(e.total, height, 0));
    if root.Refused? { return false; }
    assert [] + Rebuild(e, hash).matches == Rebuild(e, hash).matches;
    if walker.hashIndex != |e.hashes| || (walker.bitIndex + 7) / 8 != |e.flags| { return false; }
    var clear := PaddingClear(e.flags, walker.bitIndex);
    if !clear { return false; }
    if root.value != e.header[36..68] { return false; }
    ok := |walker.matches| == 1 && Reversed(walker.matches[0]) == txid;
  }
}
