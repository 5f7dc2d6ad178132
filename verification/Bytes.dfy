/** Byte strings, little-endian integers and Bitcoin's CompactSize integers. */
module Bytes {
  import opened Integers

  type byte = b: int | 0 <= b < 256
  type Bytes = seq<byte>

  function Pow256(k: nat): (r: nat)
    ensures r >= 1
  {
    if k == 0 then 1 else 256 * Pow256(k - 1)
  }

  /** `value.to_bytes(size, "little")` for a value that fits: byte i is digit i in base 256. */
  function LittleEndian(value: nat, size: nat): (s: Bytes)
    ensures |s| == size
  {
    seq(size, i requires 0 <= i < size => value / Pow256(i) % 256)
  }

  lemma NestedDivision(value: nat, b: nat)
    requires b >= 1
    ensures value / 256 / b == value / (256 * b)
  {
    var q, r := value / (256 * b), value % (256 * b);
    assert value == (256 * b) * q + r;
    var m, n := value / 256, value % 256;
    var k := m - b * q;
    assert 256 * k + n == r by { assert 256 * (b * q) == (256 * b) * q; }
    assert 0 <= k < b;
    assert m == b * q + k;
    DivUnique(m, q, k, b);
  }

  /** No two of the given inputs share a digest. */
  ghost predicate CollisionFree<T, D>(hash: T -> D, inputs: set<T>)
  {
    forall a, b :: a in inputs && b in inputs && hash(a) == hash(b) ==> a == b
  }

  lemma LittleEndianStep(value: nat, size: nat)
    requires size > 0
    ensures LittleEndian(value, size) == [value % 256] + LittleEndian(value / 256, size - 1)
  {
    var a, b := LittleEndian(value, size), [value % 256] + LittleEndian(value / 256, size - 1);
    forall i | 0 <= i < size ensures a[i] == b[i] {
      if i > 0 {
        NestedDivision(value, Pow256(i - 1));
      }
    }
  }

  /** `int.from_bytes(s, "little")`. */
  function FromLittle(s: Bytes): nat
  {
    if s == [] then 0 else s[0] + 256 * FromLittle(s[1..])
  }

  lemma {:induction false} FromLittleBound(s: Bytes)
    ensures FromLittle(s) < Pow256(|s|)
  {
    if s != [] {
      FromLittleBound(s[1..]);
    }
  }

  lemma {:induction false} FromLittleEndian(value: nat, size: nat)
    requires value < Pow256(size)
    ensures FromLittle(LittleEndian(value, size)) == value
    decreases size
  {
    if size > 0 {
      FromLittleEndian(value / 256, size - 1);
      LittleEndianStep(value, size);
      assert LittleEndian(value, size)[1..] == LittleEndian(value / 256, size - 1);
    }
  }

  lemma LowDigit(low: byte, high: nat)
    ensures (low + 256 * high) % 256 == low && (low + 256 * high) / 256 == high
  {
  }

  lemma {:induction false} LittleEndianFrom(s: Bytes)
    ensures LittleEndian(FromLittle(s), |s|) == s
  {
    if s != [] {
      var high := FromLittle(s[1..]);
      LittleEndianFrom(s[1..]);
      LittleEndianStep(FromLittle(s), |s|);
      LowDigit(s[0], high);
      assert s == [s[0]] + s[1..];
    }
  }

  lemma Widths()
    ensures Pow256(2) == 0x1_0000 && Pow256(4) == 0x1_0000_0000 && Pow256(8) == 0x1_0000_0000_0000_0000
  {
    assert Pow256(4) == 0x1_0000_0000;
    assert Pow256(5) == 256 * Pow256(4);
    assert Pow256(6) == 256 * Pow256(5);
    assert Pow256(7) == 256 * Pow256(6);
  }

  /** The shortest CompactSize encoding of a 64-bit value. */
  function CompactSize(value: nat): (s: Bytes)
    ensures 1 <= |s| <= 9
  {
    if value < 0xFD then [value]
    else if value <= 0xFFFF then [0xFD] + LittleEndian(value, 2)
    else if value <= 0xFFFF_FFFF then [0xFE] + LittleEndian(value, 4)
    else [0xFF] + LittleEndian(value, 8)
  }

  lemma AppendCancel<T>(a: seq<T>, s: seq<T>, b: seq<T>, t: seq<T>)
    requires a + s == b + t && |a| == |b|
    ensures a == b && s == t
  {
    assert a == (a + s)[..|a|] && b == (b + t)[..|b|];
    assert s == (a + s)[|a|..] && t == (b + t)[|b|..];
  }
}
