/** Bitcoin's compact proof-of-work targets (nBits): which encodings a header may carry, and that
    encoding a target rounds it down to the nearest representable one. */
module CompactTargets {
  import opened Bytes
  import opened Integers
  import opened Outcomes

  const SIGN: nat := 0x80_0000

  /** `target.bit_length()`. */
  function BitLength(target: nat): nat
  {
    if target == 0 then 0 else 1 + BitLength(target / 2)
  }

  /** The shortest number of bytes that hold the target. */
  function ByteLength(target: nat): nat
  {
    (BitLength(target) + 7) / 8
  }

  lemma NonNegative(a: nat, b: nat)
    requires b >= 1
    ensures a * b >= 0 && a / b >= 0
  {
    var q := a / b;
    assert a == b * q + a % b;
    if q <= -1 { MultipleAtLeast(-q, b); }
  }

  /** Shifts by whole bytes. */
  function ShiftLeft(x: nat, k: nat): nat
  {
    NonNegative(x, Pow256(k));
    x * Pow256(k)
  }

  function ShiftRight(x: nat, k: nat): nat
  {
    NonNegative(x, Pow256(k));
    x / Pow256(k)
  }

  /** The three leading bytes of a target of `size` bytes. */
  function Lead(target: nat, size: nat): nat
  {
    if size <= 3 then ShiftLeft(target, 3 - size) else ShiftRight(target, size - 3)
  }

  /** The leading bytes and the size, shortened by one byte when the top bit is set. */
  function Pack(lead: nat, size: nat): nat
  {
    if lead / SIGN % 2 == 1 then lead / 256 + (size + 1) * 0x100_0000 else lead + size * 0x100_0000
  }

  /** `target_to_compact`. */
  function TargetToCompact(target: int): nat
  {
    if target <= 0 then 0
    else Pack(Lead(target, ByteLength(target)) % 0x100_0000, ByteLength(target))
  }

  /** The value a size byte and a 23-bit word stand for. */
  function Decode(size: nat, word: nat): nat
  {
    if size <= 3 then ShiftRight(word, 3 - size) else ShiftLeft(word, size - 3)
  }

  /** `compact_target`: the target of a header's nBits, or a refusal. */
  function CompactTarget(bits: int, powLimit: int): Result<nat>
  {
    if !(0 <= bits <= 0xFFFF_FFFF) then Refused
    else
      var size, word := bits / 0x100_0000, bits % SIGN;
      if bits / SIGN % 2 == 1 || word == 0 then Refused
      else
        var target := Decode(size, word);
        if target <= 0 || target > powLimit || TargetToCompact(target) != bits then Refused else Ok(target)
  }

  // ---- The rounding, defined without byte lengths ----

  /** How many low bytes a target loses: the fewest that leave a 23-bit word. */
  function Dropped(t: nat): nat
  {
    if t < SIGN then 0 else 1 + Dropped(t / 256)
  }

  /** The 23-bit word that is left. */
  function Word(t: nat): nat
  {
    if t < SIGN then t else Word(t / 256)
  }

  /** The target an encoding of `t` stands for: the word with its lost bytes zeroed. */
  function Rounded(t: nat): nat
  {
    if t < SIGN then t else 256 * Rounded(t / 256)
  }

  /** At most 23 significant bits followed by zero bytes. */
  predicate Representable(v: nat)
  {
    v > 0 && (v < SIGN || (v % 256 == 0 && Representable(v / 256)))
  }

  lemma {:induction false} WordRange(t: nat)
    requires t >= SIGN
    ensures 0x8000 <= Word(t) < SIGN && Rounded(t) >= SIGN
  {
    if t / 256 >= SIGN { WordRange(t / 256); }
  }

  lemma {:induction false} RoundedRepresentable(t: nat)
    requires t > 0
    ensures Representable(Rounded(t)) && Rounded(t) <= t
  {
    if t >= SIGN { RoundedRepresentable(t / 256); }
  }

  lemma {:induction false} RoundedAbove(t: nat, v: nat)
    requires Representable(v) && v <= t
    ensures v <= Rounded(t)
  {
    if t >= SIGN {
      if v < SIGN { WordRange(t); } else { RoundedAbove(t / 256, v / 256); }
    }
  }

  /** Rounding gives the greatest representable value that does not exceed the target. */
  lemma RoundedGreatest(t: nat)
    requires t > 0
    ensures Representable(Rounded(t)) && Rounded(t) <= t
    ensures forall v: nat :: Representable(v) && v <= t ==> v <= Rounded(t)
  {
    RoundedRepresentable(t);
    forall v: nat | Representable(v) && v <= t ensures v <= Rounded(t) { RoundedAbove(t, v); }
  }

  /** The value of the last bit kept. */
  function Unit(t: nat): nat
  {
    if t < SIGN then 1 else 256 * Unit(t / 256)
  }

  lemma {:induction false} RoundedError(t: nat)
    requires t > 0
    ensures t - Rounded(t) < Unit(t)
    ensures t >= SIGN ==> Unit(t) * 0x8000 <= t
  {
    if t >= SIGN { RoundedError(t / 256); }
  }

  /** Rounding is monotone, idempotent, and loses less than one part in 2^15. */
  lemma RoundedLaws(t: nat, t': nat)
    requires 0 < t <= t'
    ensures Rounded(t) <= Rounded(t')
    ensures Rounded(Rounded(t)) == Rounded(t)
    ensures (t - Rounded(t)) * 0x8000 < t
  {
    RoundedRepresentable(t);
    RoundedAbove(t', Rounded(t));
    RoundedRepresentable(Rounded(t));
    RoundedAbove(Rounded(t), Rounded(t));
    RoundedError(t);
  }

  // ---- What the encoder computes ----

  lemma ByteLengthStep(t: nat)
    requires t >= 256
    ensures ByteLength(t) == 1 + ByteLength(t / 256)
  {
    assert t / 2 / 2 == t / 4 && t / 4 / 2 == t / 8 && t / 8 / 2 == t / 16 && t / 16 / 2 == t / 32;
    assert t / 32 / 2 == t / 64 && t / 64 / 2 == t / 128 && t / 128 / 2 == t / 256;
    assert BitLength(t) == 1 + BitLength(t / 2) && BitLength(t / 2) == 1 + BitLength(t / 4);
    assert BitLength(t / 4) == 1 + BitLength(t / 8) && BitLength(t / 8) == 1 + BitLength(t / 16);
    assert BitLength(t / 16) == 1 + BitLength(t / 32) && BitLength(t / 32) == 1 + BitLength(t / 64);
    assert BitLength(t / 64) == 1 + BitLength(t / 128) && BitLength(t / 128) == 1 + BitLength(t / 256);
  }

  lemma {:induction false} BitLengthUnder(t: nat, k: nat)
    requires t < Pow2(k)
    ensures BitLength(t) <= k
  {
    if t > 0 { BitLengthUnder(t / 2, k - 1); }
  }

  lemma SmallByteLength(t: nat)
    requires 0 < t < 0x100_0000
    ensures ByteLength(t) == if t < 0x100 then 1 else if t < 0x1_0000 then 2 else 3
  {
    assert Pow2(8) == 256;
    if t < 0x100 {
      BitLengthUnder(t, 8);
    } else if t < 0x1_0000 {
      ByteLengthStep(t);
      BitLengthUnder(t / 256, 8);
    } else {
      ByteLengthStep(t);
      ByteLengthStep(t / 256);
      BitLengthUnder(t / 256 / 256, 8);
    }
  }

  /** The size byte of a target below 2^23, whose encoding is exact. */
  function SmallSize(t: nat): nat
  {
    if t < 0x80 then 1 else if t < 0x8000 then 2 else 3
  }

  lemma SmallLead(t: nat)
    requires 0 < t < 0x100_0000
    ensures Lead(t, ByteLength(t)) == if t < 0x100 then t * 0x1_0000 else if t < 0x1_0000 then t * 0x100 else t
  {
    SmallByteLength(t);
    assert Pow256(0) == 1 && Pow256(1) == 256 && Pow256(2) == 0x1_0000;
  }

  /** A small target shifted to the top of its word. */
  function SmallWord(t: nat): nat
  {
    if t < 0x80 then t * 0x1_0000 else if t < 0x8000 then t * 0x100 else t
  }

  lemma SmallScale(t: nat)
    ensures SmallWord(t) == t * Pow256(3 - SmallSize(t))
  {
    assert Pow256(0) == 1 && Pow256(1) == 256 && Pow256(2) == 0x1_0000;
  }

  lemma EncodeSmall(t: nat)
    requires 0 < t < SIGN
    ensures TargetToCompact(t) == SmallWord(t) + SmallSize(t) * 0x100_0000
    ensures 0x8000 <= SmallWord(t) < SIGN
  {
    SmallLead(t);
    SmallByteLength(t);
  }

  lemma EncodeMiddle(t: nat)
    requires SIGN <= t < 0x100_0000
    ensures TargetToCompact(t) == t / 256 + 4 * 0x100_0000
  {
    SmallLead(t);
    SmallByteLength(t);
  }

  lemma {:induction false} ByteLengthAtLeast(t: nat)
    requires t >= 0x100_0000
    ensures ByteLength(t) >= 4
  {
    ByteLengthStep(t);
    if t / 256 >= 0x100_0000 {
      ByteLengthAtLeast(t / 256);
    } else {
      SmallByteLength(t / 256);
    }
  }

  lemma EncodeStep(t: nat)
    requires t >= 0x100_0000
    ensures TargetToCompact(t) == TargetToCompact(t / 256) + 0x100_0000
  {
    var n := ByteLength(t);
    ByteLengthAtLeast(t);
    ByteLengthStep(t);
    NestedDivision(t, Pow256(n - 4));
    assert n - 1 == 3 ==> (t / 256) * Pow256(0) == t / 256 / Pow256(0);
  }

  /** Above 2^23 the encoder writes the word and the number of dropped bytes. */
  lemma {:induction false} EncodeLarge(t: nat)
    requires t >= SIGN
    ensures TargetToCompact(t) == Word(t) + (Dropped(t) + 3) * 0x100_0000
  {
    if t < 0x100_0000 {
      EncodeMiddle(t);
      assert Dropped(t / 256) == 0;
    } else {
      EncodeStep(t);
      if t / 256 >= SIGN { EncodeLarge(t / 256); } else { EncodeSmall(t / 256); }
    }
  }

  lemma {:induction false} RoundedForm(t: nat)
    ensures Rounded(t) == Word(t) * Pow256(Dropped(t))
  {
    if t >= SIGN {
      RoundedForm(t / 256);
      var w, u := Word(t / 256), Pow256(Dropped(t / 256));
      assert 256 * (w * u) == w * (256 * u);
    }
  }

  lemma Fields(size: nat, word: nat)
    requires word < SIGN
    ensures var bits := word + size * 0x100_0000;
            bits / 0x100_0000 == size && bits % SIGN == word && bits / SIGN % 2 == 0
  {
  }

  lemma ScaleBack(t: nat, u: nat)
    requires u >= 1
    ensures t * u / u == t
  {
    DivUnique(t * u, t, 0, u);
  }

  /** Encoding a positive target writes a clear sign bit and fields that decode to the rounded
      target. */
  lemma EncodeDecodes(t: nat)
    requires t > 0
    ensures var bits := TargetToCompact(t);
            && bits / SIGN % 2 == 0 && 0x8000 <= bits % SIGN
            && Decode(bits / 0x100_0000, bits % SIGN) == Rounded(t)
  {
    if t < SIGN { EncodeDecodesSmall(t); } else { EncodeDecodesLarge(t); }
  }

  lemma EncodeDecodesSmall(t: nat)
    requires 0 < t < SIGN
    ensures var bits := TargetToCompact(t);
            && bits / SIGN % 2 == 0 && 0x8000 <= bits % SIGN
            && Decode(bits / 0x100_0000, bits % SIGN) == t
  {
    EncodeSmall(t);
    Fields(SmallSize(t), SmallWord(t));
    SmallScale(t);
    ScaleBack(t, Pow256(3 - SmallSize(t)));
  }

  lemma EncodeDecodesLarge(t: nat)
    requires t >= SIGN
    ensures var bits := TargetToCompact(t);
            && bits / SIGN % 2 == 0 && 0x8000 <= bits % SIGN
            && Decode(bits / 0x100_0000, bits % SIGN) == Rounded(t)
  {
    EncodeLarge(t);
    WordRange(t);
    Fields(Dropped(t) + 3, Word(t));
    RoundedForm(t);
  }

  // ---- Which headers are accepted ----

  /** The normal form of nBits: a clear sign bit, a word that needs all its bytes, and no bits below
      the target's own bytes. */
  predicate Canonical(bits: int)
  {
    && 0 <= bits <= 0xFFFF_FFFF
    && bits / SIGN % 2 == 0
    && bits / 0x100_0000 >= 1
    && bits % SIGN >= 0x8000
    && (bits / 0x100_0000 < 3 ==> bits % SIGN % Pow256(3 - bits / 0x100_0000) == 0)
  }

  lemma {:induction false} WordOfScaled(word: nat, k: nat)
    requires 0x8000 <= word < SIGN
    ensures var v := word * Pow256(k);
            v > 0 && (k > 0 ==> v >= SIGN && Word(v) == word && Dropped(v) == k)
  {
    if k > 0 {
      var u := Pow256(k - 1);
      assert word * (256 * u) == 256 * (word * u);
      WordOfScaled(word, k - 1);
      if k == 1 { assert Dropped(word) == 0; }
    }
  }

  lemma SmallDecode(size: nat, word: nat)
    requires 1 <= size <= 3 && 0x8000 <= word < SIGN && (size < 3 ==> word % Pow256(3 - size) == 0)
    ensures var t := Decode(size, word); 0 < t < SIGN && SmallSize(t) == size && SmallWord(t) == word
  {
    assert Pow256(0) == 1 && Pow256(1) == 256 && Pow256(2) == 0x1_0000;
  }

  /** Decoding a canonical value and encoding it again restores it. */
  lemma CanonicalRoundTrip(bits: nat)
    requires Canonical(bits)
    ensures var target := Decode(bits / 0x100_0000, bits % SIGN);
            target > 0 && TargetToCompact(target) == bits
  {
    var size, word := bits / 0x100_0000, bits % SIGN;
    assert bits == word + size * 0x100_0000;
    var target := Decode(size, word);
    if size > 3 {
      WordOfScaled(word, size - 3);
      EncodeLarge(target);
    } else {
      SmallDecode(size, word);
      EncodeSmall(target);
    }
  }

  lemma EncodedCanonical(t: nat)
    requires t > 0 && TargetToCompact(t) <= 0xFFFF_FFFF
    ensures Canonical(TargetToCompact(t))
  {
    if t < SIGN {
      EncodeSmall(t);
      Fields(SmallSize(t), SmallWord(t));
      SmallAligned(t);
    } else {
      EncodeLarge(t);
      WordRange(t);
      Fields(Dropped(t) + 3, Word(t));
    }
  }

  lemma SmallAligned(t: nat)
    requires 0 < t < SIGN
    ensures SmallSize(t) < 3 ==> SmallWord(t) % Pow256(3 - SmallSize(t)) == 0
  {
    assert Pow256(1) == 256 && Pow256(2) == 0x1_0000;
  }

  /** A header's nBits is accepted exactly when it is canonical and its target is within the limit. */
  lemma AcceptedIff(bits: int, powLimit: int, target: nat)
    ensures CompactTarget(bits, powLimit) == Ok(target) <==>
            Canonical(bits) && target == Decode(bits / 0x100_0000, bits % SIGN) && target <= powLimit
  {
    if Canonical(bits) { CanonicalRoundTrip(bits); }
    if CompactTarget(bits, powLimit) == Ok(target) { EncodedCanonical(target); }
  }

  /** Every target of at most 254 bytes survives an encode-decode trip as its rounding, and encoding
      that again changes nothing. */
  lemma EncodeRoundTrip(t: nat)
    requires t > 0 && ByteLength(t) < 255
    ensures CompactTarget(TargetToCompact(t), Rounded(t)) == Ok(Rounded(t))
    ensures TargetToCompact(Rounded(t)) == TargetToCompact(t)
  {
    EncodeDecodes(t);
    EncodedFits(t);
    EncodedCanonical(t);
    CanonicalRoundTrip(TargetToCompact(t));
  }

  lemma EncodedFits(t: nat)
    requires t > 0 && ByteLength(t) < 255
    ensures TargetToCompact(t) <= 0xFFFF_FFFF
  {
  }

  // ---- The statistics script's copy ----

  /** The encoder of the statistics script, which does not mask the leading bytes. */
  function StatsToCompact(target: nat): nat
  {
    Pack(Lead(target, ByteLength(target)), ByteLength(target))
  }

  lemma {:induction false} LeadFits(t: nat)
    requires t >= 0x100_0000
    ensures Lead(t, ByteLength(t)) < 0x100_0000
  {
    var n := ByteLength(t);
    ByteLengthAtLeast(t);
    ByteLengthStep(t);
    NestedDivision(t, Pow256(n - 4));
    if t / 256 >= 0x100_0000 {
      LeadFits(t / 256);
    } else {
      SmallByteLength(t / 256);
      assert n == 4 && Pow256(0) == 1;
    }
  }

  /** Both encoders agree on every positive target. */
  lemma StatsAgrees(t: nat)
    requires t > 0
    ensures StatsToCompact(t) == TargetToCompact(t)
  {
    if t >= 0x100_0000 {
      LeadFits(t);
    } else {
      SmallLead(t);
    }
    SmallRemainder(Lead(t, ByteLength(t)));
  }

  lemma SmallRemainder(x: nat)
    requires x < 0x100_0000
    ensures x % 0x100_0000 == x
  {
  }
}
