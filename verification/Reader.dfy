/** The cursor the Bitcoin parsers share. Every read is a function of the remaining bytes, and
    is proved to invert the encoder written in front of an arbitrary tail. */
module Readers {
  import opened Bytes
  import opened Outcomes

  const MAX_TX_BYTES: nat := 4_000_000

  /** What a read leaves: nothing when it refuses, else the value and the bytes after it. */
  datatype Read<+T> = Bad | Good(value: T, rest: Bytes)

  function ReadTake(s: Bytes, count: nat): Read<Bytes>
  {
    if count > |s| then Bad else Good(s[..count], s[count..])
  }

  function ReadDigits(s: Bytes, size: nat): Read<nat>
  {
    var t := ReadTake(s, size);
    if t.Bad? then Bad else Good(FromLittle(t.value), t.rest)
  }

  /** Bytes that follow a prefix byte, and the least value they may hold. */
  function DigitCount(first: byte): nat
  {
    if first == 0xFD then 2 else if first == 0xFE then 4 else 8
  }

  function LeastValue(first: byte): nat
  {
    if first == 0xFD then 0xFD else if first == 0xFE then 0x1_0000 else 0x1_0000_0000
  }

  function ReadVarint(s: Bytes): Read<nat>
  {
    if s == [] then Bad
    else if s[0] < 0xFD then Good(s[0], s[1..])
    else
      var d := ReadDigits(s[1..], DigitCount(s[0]));
      if d.Bad? || d.value < LeastValue(s[0]) then Bad else d
  }

  function ReadVector(s: Bytes, maximum: nat): Read<Bytes>
  {
    var count := ReadVarint(s);
    if count.Bad? || count.value > maximum then Bad else ReadTake(count.rest, count.value)
  }

  // ---- Encoders in front of a tail ----

  function DigitsTo(value: nat, size: nat, tail: Bytes): Bytes
  {
    LittleEndian(value, size) + tail
  }

  function VarintTo(value: nat, tail: Bytes): Bytes
  {
    CompactSize(value) + tail
  }

  /** A length-prefixed byte string. */
  function VectorTo(body: Bytes, tail: Bytes): Bytes
  {
    VarintTo(|body|, body + tail)
  }

  lemma TakeBack(x: Bytes, tail: Bytes)
    ensures ReadTake(x + tail, |x|) == Good(x, tail)
  {
  }

  lemma TakeForth(s: Bytes, count: nat)
    requires ReadTake(s, count).Good?
    ensures var r := ReadTake(s, count); |r.value| == count && s == r.value + r.rest
  {
  }

  lemma DigitsBack(value: nat, size: nat, tail: Bytes)
    requires value < Pow256(size)
    ensures ReadDigits(DigitsTo(value, size, tail), size) == Good(value, tail)
  {
    TakeBack(LittleEndian(value, size), tail);
    FromLittleEndian(value, size);
  }

  lemma DigitsForth(s: Bytes, size: nat)
    requires ReadDigits(s, size).Good?
    ensures var r := ReadDigits(s, size); r.value < Pow256(size) && s == DigitsTo(r.value, size, r.rest)
  {
    TakeForth(s, size);
    FromLittleBound(s[..size]);
    LittleEndianFrom(s[..size]);
  }

  lemma LongEncoding(first: byte, value: nat, tail: Bytes)
    requires first >= 0xFD && LeastValue(first) <= value < Pow256(DigitCount(first))
    ensures value < 0x1_0000_0000_0000_0000
    ensures VarintTo(value, tail) == [first] + DigitsTo(value, DigitCount(first), tail)
  {
    Widths();
    assert CompactSize(value) == [first] + LittleEndian(value, DigitCount(first));
  }

  function PrefixByte(value: nat): byte
    requires value >= 0xFD
  {
    if value <= 0xFFFF then 0xFD else if value <= 0xFFFF_FFFF then 0xFE else 0xFF
  }

  /** Decoding inverts encoding on every 64-bit value, whatever follows. */
  lemma VarintBack(value: nat, tail: Bytes)
    requires value < 0x1_0000_0000_0000_0000
    ensures ReadVarint(VarintTo(value, tail)) == Good(value, tail)
  {
    if value < 0xFD {
      assert VarintTo(value, tail)[1..] == tail;
    } else {
      var first := PrefixByte(value);
      Widths();
      LongEncoding(first, value, tail);
      var s := VarintTo(value, tail);
      assert s[0] == first && s[1..] == DigitsTo(value, DigitCount(first), tail);
      DigitsBack(value, DigitCount(first), tail);
    }
  }

  /** Encoding inverts decoding: only minimal encodings are accepted. */
  lemma VarintForth(s: Bytes)
    requires ReadVarint(s).Good?
    ensures var r := ReadVarint(s); r.value < 0x1_0000_0000_0000_0000 && s == VarintTo(r.value, r.rest)
  {
    var r := ReadVarint(s);
    assert s == [s[0]] + s[1..];
    if s[0] >= 0xFD {
      DigitsForth(s[1..], DigitCount(s[0]));
      LongEncoding(s[0], r.value, r.rest);
    }
  }

  lemma VectorBack(body: Bytes, maximum: nat, tail: Bytes)
    requires |body| <= maximum <= MAX_TX_BYTES
    ensures ReadVector(VectorTo(body, tail), maximum) == Good(body, tail)
  {
    VarintBack(|body|, body + tail);
    TakeBack(body, tail);
  }

  lemma VectorForth(s: Bytes, maximum: nat)
    requires ReadVector(s, maximum).Good?
    ensures var r := ReadVector(s, maximum); |r.value| <= maximum && s == VectorTo(r.value, r.rest)
  {
    VarintForth(s);
    var count := ReadVarint(s);
    TakeForth(count.rest, count.value);
  }

  // ---- Lists of one kind of record ----

  function ReadMany<T>(read: Bytes -> Read<T>, s: Bytes, n: nat): Read<seq<T>>
    decreases n
  {
    if n == 0 then Good([], s) else
    var x := read(s);
    if x.Bad? then Bad else
    var xs := ReadMany(read, x.rest, n - 1);
    if xs.Bad? then Bad else Good([x.value] + xs.value, xs.rest)
  }

  function ManyTo<T>(write: (T, Bytes) -> Bytes, xs: seq<T>, tail: Bytes): Bytes
  {
    if xs == [] then tail else write(xs[0], ManyTo(write, xs[1..], tail))
  }

  /** `read` and `write` invert each other on the records that satisfy `ok`. */
  ghost predicate Inverse<T(!new)>(read: Bytes -> Read<T>, write: (T, Bytes) -> Bytes, ok: T -> bool)
  {
    && (forall x, tail {:trigger write(x, tail)} :: ok(x) ==> read(write(x, tail)) == Good(x, tail))
    && (forall s {:trigger read(s)} :: read(s).Good? ==> ok(read(s).value) && s == write(read(s).value, read(s).rest))
  }

  lemma {:induction false} ManyBack<T(!new)>(read: Bytes -> Read<T>, write: (T, Bytes) -> Bytes, ok: T -> bool,
                                             xs: seq<T>, tail: Bytes)
    requires Inverse(read, write, ok) && forall i :: 0 <= i < |xs| ==> ok(xs[i])
    ensures ReadMany(read, ManyTo(write, xs, tail), |xs|) == Good(xs, tail)
  {
    if xs != [] {
      ManyBack(read, write, ok, xs[1..], tail);
      assert xs == [xs[0]] + xs[1..];
    }
  }

  lemma {:induction false} ManyForth<T(!new)>(read: Bytes -> Read<T>, write: (T, Bytes) -> Bytes, ok: T -> bool,
                                              s: Bytes, n: nat)
    requires Inverse(read, write, ok) && ReadMany(read, s, n).Good?
    ensures var r := ReadMany(read, s, n);
            |r.value| == n && s == ManyTo(write, r.value, r.rest) && forall i :: 0 <= i < n ==> ok(r.value[i])
    decreases n
  {
    if n > 0 {
      var x := read(s);
      ManyForth(read, write, ok, x.rest, n - 1);
      assert ReadMany(read, s, n).value[1..] == ReadMany(read, x.rest, n - 1).value;
    }
  }

  /** Reading record by record into an accumulator computes `ReadMany`. */
  lemma {:induction false} ReadManyExtend<T>(read: Bytes -> Read<T>, s: Bytes, n: nat, k: nat)
    requires k <= n
    ensures var r := ReadMany(read, s, k);
            match r
            case Bad => ReadMany(read, s, n) == Bad
            case Good(xs, rest) =>
              match ReadMany(read, rest, n - k)
              case Bad => ReadMany(read, s, n) == Bad
              case Good(ys, end) => ReadMany(read, s, n) == Good(xs + ys, end)
    decreases n
  {
    if k > 0 && read(s).Good? {
      ReadManyExtend(read, read(s).rest, n - 1, k - 1);
      var tail := ReadMany(read, read(s).rest, k - 1);
      if tail.Good? && ReadMany(read, tail.rest, n - k).Good? {
        var ys := ReadMany(read, tail.rest, n - k).value;
        assert [read(s).value] + (tail.value + ys) == ([read(s).value] + tail.value) + ys;
      }
    } else if k == 0 && ReadMany(read, s, n).Good? {
      assert [] + ReadMany(read, s, n).value == ReadMany(read, s, n).value;
    }
  }

  class Reader {
    const raw: Bytes
    var offset: nat

    constructor (raw: Bytes)
      ensures this.raw == raw && offset == 0 && Valid() && Rest() == raw
    {
      this.raw := raw;
      offset := 0;
    }

    ghost predicate Valid()
      reads this
    {
      offset <= |raw|
    }

    ghost function Rest(): Bytes
      reads this
      requires Valid()
    {
      raw[offset..]
    }

    /** The outcome and the cursor agree with the specification of the read. */
    ghost predicate Reads<T>(spec: Read<T>, r: Result<T>)
      reads this
    {
      Valid() && match spec
                 case Bad => r.Refused?
                 case Good(v, rest) => r == Ok(v) && Rest() == rest
    }

    method Take(count: nat) returns (r: Result<Bytes>)
      requires Valid()
      modifies this
      ensures Reads(ReadTake(old(Rest()), count), r) && offset >= old(offset)
    {
      if offset + count > |raw| {
        return Refused;
      }
      assert raw[offset..][..count] == raw[offset..offset + count];
      r := Ok(raw[offset..offset + count]);
      offset := offset + count;
    }

    method Digits(size: nat) returns (r: Result<nat>)
      requires Valid()
      modifies this
      ensures Reads(ReadDigits(old(Rest()), size), r) && offset >= old(offset)
    {
      var t := Take(size);
      r := if t.Refused? then Refused else Ok(FromLittle(t.value));
    }

    /** The value, and the bytes that encoded it, which are its one minimal encoding. */
    method Varint() returns (r: Result<nat>, encoded: Bytes)
      requires Valid()
      modifies this
      ensures Reads(ReadVarint(old(Rest())), r) && offset >= old(offset)
      ensures r.Ok? ==> encoded == CompactSize(r.value) == raw[old(offset)..offset]
    {
      ghost var from := offset;
      encoded := [];
      var head := Take(1);
      if head.Refused? { return Refused, []; }
      var first := head.value[0];
      if first < 0xFD { return Ok(first), [first]; }
      ghost var rest := old(Rest());
      var digits := Take(DigitCount(first));
      if digits.Refused? || FromLittle(digits.value) < LeastValue(first) { return Refused, []; }
      r, encoded := Ok(FromLittle(digits.value)), [first] + digits.value;
      assert encoded == raw[from..offset];
      VarintBytes(rest);
    }

    /** The body, and the bytes of its length and itself. */
    method Vector(maximum: nat) returns (r: Result<Bytes>, encoded: Bytes)
      requires Valid()
      modifies this
      ensures Reads(ReadVector(old(Rest()), maximum), r) && offset >= old(offset)
      ensures r.Ok? ==> encoded == CompactSize(|r.value|) + r.value == raw[old(offset)..offset]
    {
      ghost var from := offset;
      var count, prefix := Varint();
      if count.Refused? || count.value > maximum { return Refused, []; }
      ghost var middle := offset;
      r := Take(count.value);
      if r.Refused? { return r, []; }
      SliceJoins(raw, from, middle, offset);
      encoded := prefix + r.value;
    }

    /** The value alone. */
    method Count() returns (r: Result<nat>)
      requires Valid()
      modifies this
      ensures Reads(ReadVarint(old(Rest())), r) && offset >= old(offset)
    {
      var value, _ := Varint();
      r := value;
    }

    /** The body alone. */
    method Body(maximum: nat) returns (r: Result<Bytes>)
      requires Valid()
      modifies this
      ensures Reads(ReadVector(old(Rest()), maximum), r) && offset >= old(offset)
    {
      var value, _ := Vector(maximum);
      r := value;
    }
  }

  lemma SliceJoins(raw: Bytes, from: nat, middle: nat, to: nat)
    requires from <= middle <= to <= |raw|
    ensures raw[from..middle] + raw[middle..to] == raw[from..to]
    ensures raw[middle..][..to - middle] == raw[middle..to]
  {
  }

  /** The bytes an accepted integer took are its minimal encoding. */
  lemma VarintBytes(s: Bytes)
    requires ReadVarint(s).Good?
    ensures var r := ReadVarint(s); |r.rest| <= |s| && s[..|s| - |r.rest|] == CompactSize(r.value)
  {
    VarintForth(s);
    var r := ReadVarint(s);
    assert s == CompactSize(r.value) + r.rest;
  }
}
