/** Bitcoin transactions: the canonical serialization (BIP 144, "Serialization"), and a parser
    proved to accept exactly the serializations of transactions within the limits. */
module Transactions {
  import opened Bytes
  import opened Outcomes
  import opened Readers

  const MAX_COUNT: nat := 100_000
  const MAX_SCRIPT: nat := 10_000
  const MAX_ITEMS: nat := 10_000
  const MAX_MONEY: nat := 21_000_000 * 100_000_000

  datatype TxInput = TxInput(prevHash: Bytes, vout: nat, script: Bytes, sequence: nat)
  datatype TxOutput = TxOutput(value: nat, script: Bytes)

  /** `witnesses[i]` is the witness stack of `inputs[i]`. */
  datatype Transaction = Transaction(
    version: int, inputs: seq<TxInput>, outputs: seq<TxOutput>, witnesses: seq<seq<Bytes>>,
    locktime: nat, hasWitness: bool)

  predicate ValidInput(x: TxInput)
  {
    |x.prevHash| == 32 && x.vout < Pow256(4) && |x.script| <= MAX_SCRIPT && x.sequence < Pow256(4)
  }

  predicate ValidOutput(x: TxOutput)
  {
    x.value <= MAX_MONEY && |x.script| <= MAX_SCRIPT
  }

  predicate ValidStack(xs: seq<Bytes>)
  {
    |xs| <= MAX_ITEMS && forall i :: 0 <= i < |xs| ==> |xs[i]| <= MAX_TX_BYTES
  }

  /** Some witness item is nonempty; otherwise the witness form is superfluous. */
  predicate SomeWitness(stacks: seq<seq<Bytes>>)
  {
    exists i :: 0 <= i < |stacks| && SomeItem(stacks[i])
  }

  predicate SomeItem(stack: seq<Bytes>)
  {
    exists j :: 0 <= j < |stack| && stack[j] != []
  }

  ghost predicate Valid(t: Transaction)
  {
    && -0x8000_0000 <= t.version < 0x8000_0000
    && ValidContents(t)
    && 10 <= |Serialize(t)| <= MAX_TX_BYTES
  }

  function Empty(n: nat): (stacks: seq<seq<Bytes>>)
    ensures |stacks| == n && forall i :: 0 <= i < n ==> stacks[i] == []
  {
    seq(n, i => [])
  }

  // ---- Serialization ----

  /** Two's-complement 32-bit writing and reading of the version. */
  function Unsigned32(v: int): nat
    requires -0x8000_0000 <= v < 0x8000_0000
  {
    if v >= 0 then v else v + 0x1_0000_0000
  }

  function Signed32(n: nat): int
  {
    if n < 0x8000_0000 then n else n - 0x1_0000_0000
  }

  function InputTo(x: TxInput, tail: Bytes): Bytes
  {
    x.prevHash + DigitsTo(x.vout, 4, VectorTo(x.script, DigitsTo(x.sequence, 4, tail)))
  }

  function OutputTo(x: TxOutput, tail: Bytes): Bytes
  {
    DigitsTo(x.value, 8, VectorTo(x.script, tail))
  }

  function StackTo(xs: seq<Bytes>, tail: Bytes): Bytes
  {
    VarintTo(|xs|, ManyTo(VectorTo, xs, tail))
  }

  /** A counted list of inputs or outputs. */
  function ListTo<T>(write: (T, Bytes) -> Bytes, xs: seq<T>, tail: Bytes): Bytes
  {
    VarintTo(|xs|, ManyTo(write, xs, tail))
  }

  function BodyTo(t: Transaction, tail: Bytes): Bytes
  {
    ListTo(InputTo, t.inputs, ListTo(OutputTo, t.outputs, tail))
  }

  function StacksTo(stacks: seq<seq<Bytes>>, hasWitness: bool, tail: Bytes): Bytes
  {
    if hasWitness then ManyTo(StackTo, stacks, tail) else tail
  }

  /** Everything after the version and the optional marker and flag. */
  function Contents(t: Transaction): Bytes
  {
    BodyTo(t, StacksTo(t.witnesses, t.hasWitness, DigitsTo(t.locktime, 4, [])))
  }

  function Serialize(t: Transaction): Bytes
    requires -0x8000_0000 <= t.version < 0x8000_0000
  {
    Envelope(Unsigned32(t.version), t.hasWitness, Contents(t))
  }

  /** The serialization without marker, flag and witness data: what the txid commits to. */
  function Base(t: Transaction): Bytes
    requires -0x8000_0000 <= t.version < 0x8000_0000
  {
    DigitsTo(Unsigned32(t.version), 4, BodyTo(t, DigitsTo(t.locktime, 4, [])))
  }

  // ---- Reading, as functions of the remaining bytes ----

  function ReadInput(s: Bytes): Read<TxInput>
  {
    var h := ReadTake(s, 32);
    if h.Bad? then Bad else
    var v := ReadDigits(h.rest, 4);
    if v.Bad? then Bad else
    var c := ReadVector(v.rest, MAX_SCRIPT);
    if c.Bad? then Bad else
    var q := ReadDigits(c.rest, 4);
    if q.Bad? then Bad else Good(TxInput(h.value, v.value, c.value, q.value), q.rest)
  }

  function ReadOutput(s: Bytes): Read<TxOutput>
  {
    var v := ReadDigits(s, 8);
    if v.Bad? || v.value > MAX_MONEY then Bad else
    var c := ReadVector(v.rest, MAX_SCRIPT);
    if c.Bad? then Bad else Good(TxOutput(v.value, c.value), c.rest)
  }

  function ReadItem(s: Bytes): Read<Bytes>
  {
    ReadVector(s, MAX_TX_BYTES)
  }

  function ReadStack(s: Bytes): Read<seq<Bytes>>
  {
    var n := ReadVarint(s);
    if n.Bad? || n.value > MAX_ITEMS then Bad else ReadMany(ReadItem, n.rest, n.value)
  }

  /** Between 1 and MAX_COUNT records. */
  function ReadList<T>(read: Bytes -> Read<T>, s: Bytes): Read<seq<T>>
  {
    var n := ReadVarint(s);
    if n.Bad? || !(1 <= n.value <= MAX_COUNT) then Bad else ReadMany(read, n.rest, n.value)
  }

  datatype Body = Body(inputs: seq<TxInput>, outputs: seq<TxOutput>)

  function ReadBody(s: Bytes): Read<Body>
  {
    var ins := ReadList(ReadInput, s);
    if ins.Bad? then Bad else
    var outs := ReadList(ReadOutput, ins.rest);
    if outs.Bad? then Bad else Good(Body(ins.value, outs.value), outs.rest)
  }

  function ReadWitness(s: Bytes, hasWitness: bool, n: nat): Read<seq<seq<Bytes>>>
  {
    if !hasWitness then Good(Empty(n), s) else
    var w := ReadMany(ReadStack, s, n);
    if w.Bad? || !SomeWitness(w.value) then Bad else w
  }

  datatype Trailer = Trailer(stacks: seq<seq<Bytes>>, locktime: nat)

  /** The witness stacks and the locktime, which must end the input. */
  function ReadTrailer(s: Bytes, hasWitness: bool, n: nat): Option<Trailer>
  {
    var stacks := ReadWitness(s, hasWitness, n);
    if stacks.Bad? then None else
    var locktime := ReadDigits(stacks.rest, 4);
    if locktime.Bad? || locktime.rest != [] then None else Some(Trailer(stacks.value, locktime.value))
  }

  function ReadContents(s: Bytes, version: int, hasWitness: bool): Option<Transaction>
  {
    var body := ReadBody(s);
    if body.Bad? then None else
    var end := ReadTrailer(body.rest, hasWitness, |body.value.inputs|);
    if end.None? then None else
    Some(Transaction(version, body.value.inputs, body.value.outputs, end.value.stacks, end.value.locktime, hasWitness))
  }

  /** The whole transaction, or nothing. */
  function Parse(raw: Bytes): Option<Transaction>
  {
    if !(10 <= |raw| <= MAX_TX_BYTES) then None else
    var v := ReadDigits(raw, 4);
    if v.Bad? || (Flagged(v.rest) && v.rest[1] != 1) then None else
    ReadContents(if Flagged(v.rest) then v.rest[2..] else v.rest, Signed32(v.value), Flagged(v.rest))
  }

  // ---- Each reader inverts its encoder ----

  lemma InputBack(x: TxInput, tail: Bytes)
    requires ValidInput(x)
    ensures ReadInput(InputTo(x, tail)) == Good(x, tail)
  {
    var q := DigitsTo(x.sequence, 4, tail);
    var c := VectorTo(x.script, q);
    var v := DigitsTo(x.vout, 4, c);
    TakeBack(x.prevHash, v);
    DigitsBack(x.vout, 4, c);
    VectorBack(x.script, MAX_SCRIPT, q);
    DigitsBack(x.sequence, 4, tail);
  }

  lemma InputForth(s: Bytes)
    requires ReadInput(s).Good?
    ensures var r := ReadInput(s); ValidInput(r.value) && s == InputTo(r.value, r.rest)
  {
    TakeForth(s, 32);
    var h := ReadTake(s, 32);
    DigitsForth(h.rest, 4);
    var v := ReadDigits(h.rest, 4);
    VectorForth(v.rest, MAX_SCRIPT);
    var c := ReadVector(v.rest, MAX_SCRIPT);
    DigitsForth(c.rest, 4);
  }

  lemma OutputBack(x: TxOutput, tail: Bytes)
    requires ValidOutput(x)
    ensures ReadOutput(OutputTo(x, tail)) == Good(x, tail)
  {
    Widths();
    DigitsBack(x.value, 8, VectorTo(x.script, tail));
    VectorBack(x.script, MAX_SCRIPT, tail);
  }

  lemma OutputForth(s: Bytes)
    requires ReadOutput(s).Good?
    ensures var r := ReadOutput(s); ValidOutput(r.value) && s == OutputTo(r.value, r.rest)
  {
    DigitsForth(s, 8);
    VectorForth(ReadDigits(s, 8).rest, MAX_SCRIPT);
  }

  lemma InputsInverse()
    ensures Inverse(ReadInput, InputTo, ValidInput)
  {
    forall x, tail | ValidInput(x) ensures ReadInput(InputTo(x, tail)) == Good(x, tail) { InputBack(x, tail); }
    forall s | ReadInput(s).Good?
      ensures ValidInput(ReadInput(s).value) && s == InputTo(ReadInput(s).value, ReadInput(s).rest)
    { InputForth(s); }
  }

  lemma OutputsInverse()
    ensures Inverse(ReadOutput, OutputTo, ValidOutput)
  {
    forall x, tail | ValidOutput(x) ensures ReadOutput(OutputTo(x, tail)) == Good(x, tail) { OutputBack(x, tail); }
    forall s | ReadOutput(s).Good?
      ensures ValidOutput(ReadOutput(s).value) && s == OutputTo(ReadOutput(s).value, ReadOutput(s).rest)
    { OutputForth(s); }
  }

  predicate ValidItem(x: Bytes)
  {
    |x| <= MAX_TX_BYTES
  }

  lemma ItemsInverse()
    ensures Inverse(ReadItem, VectorTo, ValidItem)
  {
    forall x, tail | ValidItem(x) ensures ReadItem(VectorTo(x, tail)) == Good(x, tail) {
      VectorBack(x, MAX_TX_BYTES, tail);
    }
    forall s | ReadItem(s).Good?
      ensures ValidItem(ReadItem(s).value) && s == VectorTo(ReadItem(s).value, ReadItem(s).rest)
    { VectorForth(s, MAX_TX_BYTES); }
  }

  lemma StackBack(xs: seq<Bytes>, tail: Bytes)
    requires ValidStack(xs)
    ensures ReadStack(StackTo(xs, tail)) == Good(xs, tail)
  {
    VarintBack(|xs|, ManyTo(VectorTo, xs, tail));
    ItemsInverse();
    ManyBack(ReadItem, VectorTo, ValidItem, xs, tail);
  }

  lemma StackForth(s: Bytes)
    requires ReadStack(s).Good?
    ensures var r := ReadStack(s); ValidStack(r.value) && s == StackTo(r.value, r.rest)
  {
    VarintForth(s);
    var n := ReadVarint(s);
    ItemsInverse();
    ManyForth(ReadItem, VectorTo, ValidItem, n.rest, n.value);
  }

  lemma StacksInverse()
    ensures Inverse(ReadStack, StackTo, ValidStack)
  {
    forall x, tail | ValidStack(x) ensures ReadStack(StackTo(x, tail)) == Good(x, tail) { StackBack(x, tail); }
    forall s | ReadStack(s).Good?
      ensures ValidStack(ReadStack(s).value) && s == StackTo(ReadStack(s).value, ReadStack(s).rest)
    { StackForth(s); }
  }

  lemma ListBack<T(!new)>(read: Bytes -> Read<T>, write: (T, Bytes) -> Bytes, ok: T -> bool, xs: seq<T>, tail: Bytes)
    requires Inverse(read, write, ok) && 1 <= |xs| <= MAX_COUNT && forall i :: 0 <= i < |xs| ==> ok(xs[i])
    ensures ReadList(read, ListTo(write, xs, tail)) == Good(xs, tail)
    ensures ListTo(write, xs, tail)[0] != 0
  {
    VarintBack(|xs|, ManyTo(write, xs, tail));
    ManyBack(read, write, ok, xs, tail);
  }

  lemma ListForth<T(!new)>(read: Bytes -> Read<T>, write: (T, Bytes) -> Bytes, ok: T -> bool, s: Bytes)
    requires Inverse(read, write, ok) && ReadList(read, s).Good?
    ensures var r := ReadList(read, s);
            1 <= |r.value| <= MAX_COUNT && s == ListTo(write, r.value, r.rest) &&
            forall i :: 0 <= i < |r.value| ==> ok(r.value[i])
  {
    VarintForth(s);
    var n := ReadVarint(s);
    ManyForth(read, write, ok, n.rest, n.value);
  }

  lemma BodyBack(t: Transaction, tail: Bytes)
    requires 1 <= |t.inputs| <= MAX_COUNT && 1 <= |t.outputs| <= MAX_COUNT
    requires forall i :: 0 <= i < |t.inputs| ==> ValidInput(t.inputs[i])
    requires forall i :: 0 <= i < |t.outputs| ==> ValidOutput(t.outputs[i])
    ensures ReadBody(BodyTo(t, tail)) == Good(Body(t.inputs, t.outputs), tail)
    ensures BodyTo(t, tail)[0] != 0
  {
    InputsInverse();
    OutputsInverse();
    ListBack(ReadInput, InputTo, ValidInput, t.inputs, ListTo(OutputTo, t.outputs, tail));
    ListBack(ReadOutput, OutputTo, ValidOutput, t.outputs, tail);
  }

  lemma BodyForth(s: Bytes)
    requires ReadBody(s).Good?
    ensures var r := ReadBody(s);
            && 1 <= |r.value.inputs| <= MAX_COUNT && 1 <= |r.value.outputs| <= MAX_COUNT
            && (forall i :: 0 <= i < |r.value.inputs| ==> ValidInput(r.value.inputs[i]))
            && (forall i :: 0 <= i < |r.value.outputs| ==> ValidOutput(r.value.outputs[i]))
            && s == ListTo(InputTo, r.value.inputs, ListTo(OutputTo, r.value.outputs, r.rest))
  {
    InputsInverse();
    OutputsInverse();
    ListForth(ReadInput, InputTo, ValidInput, s);
    ListForth(ReadOutput, OutputTo, ValidOutput, ReadList(ReadInput, s).rest);
  }

  lemma WitnessForth(s: Bytes, hasWitness: bool, n: nat)
    requires ReadWitness(s, hasWitness, n).Good?
    ensures var r := ReadWitness(s, hasWitness, n);
            && |r.value| == n && (forall i :: 0 <= i < n ==> ValidStack(r.value[i]))
            && s == StacksTo(r.value, hasWitness, r.rest)
            && (if hasWitness then SomeWitness(r.value) else r.value == Empty(n))
  {
    if hasWitness {
      StacksInverse();
      ManyForth(ReadStack, StackTo, ValidStack, s, n);
    }
  }

  lemma WitnessBack(stacks: seq<seq<Bytes>>, hasWitness: bool, tail: Bytes)
    requires forall i :: 0 <= i < |stacks| ==> ValidStack(stacks[i])
    requires if hasWitness then SomeWitness(stacks) else stacks == Empty(|stacks|)
    ensures ReadWitness(StacksTo(stacks, hasWitness, tail), hasWitness, |stacks|) == Good(stacks, tail)
  {
    if hasWitness {
      StacksInverse();
      ManyBack(ReadStack, StackTo, ValidStack, stacks, tail);
    }
  }

  lemma SignedRoundTrip(v: int, n: nat)
    ensures -0x8000_0000 <= v < 0x8000_0000 ==> Unsigned32(v) < Pow256(4) && Signed32(Unsigned32(v)) == v
    ensures n < Pow256(4) ==> -0x8000_0000 <= Signed32(n) < 0x8000_0000 && Unsigned32(Signed32(n)) == n
  {
    Widths();
  }

  /** `Valid` without the bounds on the version and on the total length. */
  ghost predicate ValidContents(t: Transaction)
  {
    && 1 <= |t.inputs| <= MAX_COUNT && 1 <= |t.outputs| <= MAX_COUNT
    && (forall i :: 0 <= i < |t.inputs| ==> ValidInput(t.inputs[i]))
    && (forall i :: 0 <= i < |t.outputs| ==> ValidOutput(t.outputs[i]))
    && |t.witnesses| == |t.inputs|
    && (forall i :: 0 <= i < |t.witnesses| ==> ValidStack(t.witnesses[i]))
    && t.locktime < Pow256(4)
    && (if t.hasWitness then SomeWitness(t.witnesses) else t.witnesses == Empty(|t.inputs|))
  }

  lemma TrailerBack(stacks: seq<seq<Bytes>>, hasWitness: bool, locktime: nat)
    requires forall i :: 0 <= i < |stacks| ==> ValidStack(stacks[i])
    requires if hasWitness then SomeWitness(stacks) else stacks == Empty(|stacks|)
    requires locktime < Pow256(4)
    ensures ReadTrailer(StacksTo(stacks, hasWitness, DigitsTo(locktime, 4, [])), hasWitness, |stacks|) ==
            Some(Trailer(stacks, locktime))
  {
    WitnessBack(stacks, hasWitness, DigitsTo(locktime, 4, []));
    DigitsBack(locktime, 4, []);
  }

  lemma TrailerForth(s: Bytes, hasWitness: bool, n: nat)
    requires ReadTrailer(s, hasWitness, n).Some?
    ensures var t := ReadTrailer(s, hasWitness, n).value;
            && |t.stacks| == n && (forall i :: 0 <= i < n ==> ValidStack(t.stacks[i]))
            && t.locktime < Pow256(4)
            && s == StacksTo(t.stacks, hasWitness, DigitsTo(t.locktime, 4, []))
            && (if hasWitness then SomeWitness(t.stacks) else t.stacks == Empty(n))
  {
    WitnessForth(s, hasWitness, n);
    DigitsForth(ReadWitness(s, hasWitness, n).rest, 4);
  }

  lemma ContentsBack(t: Transaction)
    requires ValidContents(t)
    ensures ReadContents(Contents(t), t.version, t.hasWitness) == Some(t)
    ensures Contents(t) != [] && Contents(t)[0] != 0
  {
    BodyBack(t, StacksTo(t.witnesses, t.hasWitness, DigitsTo(t.locktime, 4, [])));
    TrailerBack(t.witnesses, t.hasWitness, t.locktime);
  }

  lemma ContentsForth(s: Bytes, version: int, hasWitness: bool)
    requires ReadContents(s, version, hasWitness).Some?
    ensures var t := ReadContents(s, version, hasWitness).value;
            ValidContents(t) && Contents(t) == s && t.version == version && t.hasWitness == hasWitness
  {
    BodyForth(s);
    var body := ReadBody(s);
    TrailerForth(body.rest, hasWitness, |body.value.inputs|);
  }

  /** The version, the optional marker and flag, and then the contents. */
  function Envelope(version: nat, flagged: bool, c: Bytes): Bytes
  {
    DigitsTo(version, 4, if flagged then [0, 1] + c else c)
  }

  function Flagged(s: Bytes): bool
  {
    |s| >= 2 && s[0] == 0
  }

  lemma EnvelopeBack(version: nat, flagged: bool, c: Bytes)
    requires version < Pow256(4) && c != [] && c[0] != 0
    ensures var v := ReadDigits(Envelope(version, flagged, c), 4);
            v.Good? && v.value == version && Flagged(v.rest) == flagged &&
            (if flagged then v.rest[1] == 1 && v.rest[2..] == c else v.rest == c)
  {
    DigitsBack(version, 4, if flagged then [0, 1] + c else c);
    assert ([0, 1] + c)[2..] == c;
  }

  lemma EnvelopeForth(raw: Bytes)
    requires ReadDigits(raw, 4).Good?
    ensures var v := ReadDigits(raw, 4);
            v.value < Pow256(4) &&
            (Flagged(v.rest) && v.rest[1] == 1 ==> raw == Envelope(v.value, true, v.rest[2..])) &&
            raw == Envelope(v.value, false, v.rest)
  {
    DigitsForth(raw, 4);
    var s := ReadDigits(raw, 4).rest;
    assert Flagged(s) && s[1] == 1 ==> s == [0, 1] + s[2..];
  }

  /** Parsing inverts serialization for every transaction within the limits. */
  lemma ParseSerialize(t: Transaction)
    requires Valid(t)
    ensures Parse(Serialize(t)) == Some(t)
  {
    ContentsBack(t);
    SignedRoundTrip(t.version, 0);
    EnvelopeBack(Unsigned32(t.version), t.hasWitness, Contents(t));
  }

  /** Every accepted byte string re-serializes to itself, and what it decodes to is in the limits. */
  lemma SerializeParse(raw: Bytes)
    requires Parse(raw).Some?
    ensures Valid(Parse(raw).value) && Serialize(Parse(raw).value) == raw
  {
    var v := ReadDigits(raw, 4);
    EnvelopeForth(raw);
    SignedRoundTrip(0, v.value);
    ContentsForth(if Flagged(v.rest) then v.rest[2..] else v.rest, Signed32(v.value), Flagged(v.rest));
  }

  /** Acceptance is exactly being some valid transaction's serialization, and that transaction
      is unique. */
  lemma ParseIff(raw: Bytes, t: Transaction)
    ensures Parse(raw) == Some(t) <==> Valid(t) && Serialize(t) == raw
  {
    if Valid(t) && Serialize(t) == raw { ParseSerialize(t); }
    if Parse(raw) == Some(t) { SerializeParse(raw); }
  }

  // ---- Transaction identities ----

  lemma EnvelopeSplit(v1: nat, f1: bool, c1: Bytes, v2: nat, f2: bool, c2: Bytes)
    requires v1 < Pow256(4) && v2 < Pow256(4) && c1 != [] && c1[0] != 0 && c2 != [] && c2[0] != 0
    requires Envelope(v1, f1, c1) == Envelope(v2, f2, c2)
    ensures v1 == v2 && f1 == f2 && c1 == c2
  {
    EnvelopeBack(v1, f1, c1);
    EnvelopeBack(v2, f2, c2);
  }

  /** The bytes behind the txid determine, and are determined by, everything but the witness. */
  lemma BaseIff(t: Transaction, u: Transaction)
    requires Valid(t) && Valid(u)
    ensures Base(t) == Base(u) <==>
            t.version == u.version && t.inputs == u.inputs && t.outputs == u.outputs && t.locktime == u.locktime
  {
    if Base(t) == Base(u) {
      var lt, lu := DigitsTo(t.locktime, 4, []), DigitsTo(u.locktime, 4, []);
      BodyBack(t, lt);
      BodyBack(u, lu);
      SignedRoundTrip(t.version, 0);
      SignedRoundTrip(u.version, 0);
      EnvelopeSplit(Unsigned32(t.version), false, BodyTo(t, lt), Unsigned32(u.version), false, BodyTo(u, lu));
      DigitsBack(t.locktime, 4, []);
      DigitsBack(u.locktime, 4, []);
    }
  }

  /** The txid and wtxid preimages coincide exactly for transactions without witness data. */
  lemma BaseIsWholeIff(t: Transaction)
    requires Valid(t)
    ensures Base(t) == Serialize(t) <==> !t.hasWitness
  {
    if t.hasWitness {
      var locktime := DigitsTo(t.locktime, 4, []);
      BodyBack(t, locktime);
      ContentsBack(t);
      SignedRoundTrip(t.version, 0);
      if Base(t) == Serialize(t) {
        EnvelopeSplit(Unsigned32(t.version), false, BodyTo(t, locktime),
                      Unsigned32(t.version), true, Contents(t));
      }
    }
  }

  function Reversed(s: Bytes): (r: Bytes)
    ensures |r| == |s| && forall i :: 0 <= i < |s| ==> r[i] == s[|s| - 1 - i]
  {
    seq(|s|, i requires 0 <= i < |s| => s[|s| - 1 - i])
  }

  lemma ReversedInjective(s: Bytes, t: Bytes)
    requires Reversed(s) == Reversed(t)
    ensures s == t
  {
    assert |s| == |t|;
    forall i | 0 <= i < |s| ensures s[i] == t[i] {
      assert Reversed(s)[|s| - 1 - i] == Reversed(t)[|s| - 1 - i];
    }
  }

  function Txid(t: Transaction, hash: Bytes -> Bytes): Bytes
    requires -0x8000_0000 <= t.version < 0x8000_0000
  {
    Reversed(hash(Base(t)))
  }

  function Wtxid(t: Transaction, hash: Bytes -> Bytes): Bytes
    requires -0x8000_0000 <= t.version < 0x8000_0000
  {
    Reversed(hash(Serialize(t)))
  }

  /** Equal txids mean equal transactions up to the witness, and equal wtxids mean equal
      transactions. A txid is its own wtxid exactly when there is no witness. */
  lemma IdentitiesIff(t: Transaction, u: Transaction, hash: Bytes -> Bytes)
    requires Valid(t) && Valid(u)
    requires CollisionFree(hash, {Base(t), Base(u), Serialize(t), Serialize(u)})
    ensures Txid(t, hash) == Txid(u, hash) <==>
            t.version == u.version && t.inputs == u.inputs && t.outputs == u.outputs && t.locktime == u.locktime
    ensures Wtxid(t, hash) == Wtxid(u, hash) <==> t == u
    ensures Txid(t, hash) == Wtxid(t, hash) <==> !t.hasWitness
  {
    BaseIff(t, u);
    BaseIsWholeIff(t);
    if Txid(t, hash) == Txid(u, hash) {
      ReversedInjective(hash(Base(t)), hash(Base(u)));
    }
    if Wtxid(t, hash) == Wtxid(u, hash) {
      ReversedInjective(hash(Serialize(t)), hash(Serialize(u)));
      ParseSerialize(t);
      ParseSerialize(u);
    }
    if Txid(t, hash) == Wtxid(t, hash) {
      ReversedInjective(hash(Base(t)), hash(Serialize(t)));
    }
  }

  // ---- The parser as it runs ----

  datatype Parsed = Parsed(tx: Transaction, txid: Bytes, wtxid: Bytes)

  method TakeInput(reader: Reader) returns (r: Result<TxInput>)
    requires reader.Valid()
    modifies reader
    ensures reader.Reads(ReadInput(old(reader.Rest())), r) && reader.offset >= old(reader.offset)
  {
    var prevHash := reader.Take(32);
    if prevHash.Refused? { return Refused; }
    var vout := reader.Digits(4);
    if vout.Refused? { return Refused; }
    var script := reader.Body(MAX_SCRIPT);
    if script.Refused? { return Refused; }
    var sequence := reader.Digits(4);
    if sequence.Refused? { return Refused; }
    r := Ok(TxInput(prevHash.value, vout.value, script.value, sequence.value));
  }

  method TakeOutput(reader: Reader) returns (r: Result<TxOutput>)
    requires reader.Valid()
    modifies reader
    ensures reader.Reads(ReadOutput(old(reader.Rest())), r) && reader.offset >= old(reader.offset)
  {
    var value := reader.Digits(8);
    if value.Refused? || value.value > MAX_MONEY { return Refused; }
    var script := reader.Body(MAX_SCRIPT);
    if script.Refused? { return Refused; }
    r := Ok(TxOutput(value.value, script.value));
  }

  /** `ReadMany` one record further. */
  lemma ReadOneMore<T>(read: Bytes -> Read<T>, s: Bytes, n: nat, k: nat, xs: seq<T>, rest: Bytes)
    requires k < n && ReadMany(read, s, k) == Good(xs, rest)
    ensures match read(rest)
            case Bad => ReadMany(read, s, n) == Bad
            case Good(x, after) => ReadMany(read, s, k + 1) == Good(xs + [x], after)
  {
    ReadManyExtend(read, s, n, k);
    ReadManyExtend(read, s, k + 1, k);
    if read(rest).Good? {
      var x, after := read(rest).value, read(rest).rest;
      assert ReadMany(read, after, 0) == Good([], after);
      assert [x] + [] == [x];
      assert ReadMany(read, rest, 1) == Good([x], after);
      assert k + 1 - k == 1;
    }
  }

  /** Appends the bytes of the record just read to those of the records before it. */
  method AppendSlice(sofar: Bytes, all: Bytes, origin: nat, from: nat, to: nat) returns (joined: Bytes)
    requires origin <= from <= to <= |all| && sofar == all[origin..from]
    ensures joined == all[origin..to]
  {
    joined := sofar + all[from..to];
  }

  /** Reads `count` inputs and keeps their raw bytes for the txid. */
  method TakeInputs(reader: Reader, count: nat) returns (r: Result<seq<TxInput>>, raw: Bytes)
    requires reader.Valid()
    modifies reader
    ensures reader.Reads(ReadMany(ReadInput, old(reader.Rest()), count), r) && reader.offset >= old(reader.offset)
    ensures r.Ok? ==> raw == reader.raw[old(reader.offset)..reader.offset]
  {
    ghost var first := reader.Rest();
    var origin := reader.offset;
    raw := [];
    var inputs: seq<TxInput> := [];
    var k := 0;
    while k < count
      invariant reader.Valid() && 0 <= k <= count && reader.offset >= origin
      invariant raw == reader.raw[origin..reader.offset]
      invariant ReadMany(ReadInput, first, k) == Good(inputs, reader.Rest())
    {
      var from := reader.offset;
      ReadOneMore(ReadInput, first, count, k, inputs, reader.Rest());
      var item := TakeInput(reader);
      if item.Refused? { return Refused, raw; }
      raw := AppendSlice(raw, reader.raw, origin, from, reader.offset);
      inputs := inputs + [item.value];
      k := k + 1;
    }
    r := Ok(inputs);
  }

  method TakeOutputs(reader: Reader, count: nat) returns (r: Result<seq<TxOutput>>, raw: Bytes)
    requires reader.Valid()
    modifies reader
    ensures reader.Reads(ReadMany(ReadOutput, old(reader.Rest()), count), r) && reader.offset >= old(reader.offset)
    ensures r.Ok? ==> raw == reader.raw[old(reader.offset)..reader.offset]
  {
    ghost var first := reader.Rest();
    var origin := reader.offset;
    raw := [];
    var outputs: seq<TxOutput> := [];
    var k := 0;
    while k < count
      invariant reader.Valid() && 0 <= k <= count && reader.offset >= origin
      invariant raw == reader.raw[origin..reader.offset]
      invariant ReadMany(ReadOutput, first, k) == Good(outputs, reader.Rest())
    {
      var from := reader.offset;
      ReadOneMore(ReadOutput, first, count, k, outputs, reader.Rest());
      var item := TakeOutput(reader);
      if item.Refused? { return Refused, raw; }
      raw := AppendSlice(raw, reader.raw, origin, from, reader.offset);
      outputs := outputs + [item.value];
      k := k + 1;
    }
    r := Ok(outputs);
  }

  method TakeItem(reader: Reader) returns (r: Result<Bytes>)
    requires reader.Valid()
    modifies reader
    ensures reader.Reads(ReadItem(old(reader.Rest())), r) && reader.offset >= old(reader.offset)
  {
    r := reader.Body(MAX_TX_BYTES);
  }

  method AppendItem(items: seq<Bytes>, x: Bytes, nonempty: bool) returns (more: seq<Bytes>, some: bool)
    requires nonempty == SomeItem(items)
    ensures more == items + [x] && some == SomeItem(more)
  {
    SomeItemExtend(items, x);
    more, some := items + [x], nonempty || x != [];
  }

  /** The items of one witness stack, and whether some item is nonempty. */
  method TakeItems(reader: Reader, count: nat) returns (r: Result<seq<Bytes>>, nonempty: bool)
    requires reader.Valid()
    modifies reader
    ensures reader.Reads(ReadMany(ReadItem, old(reader.Rest()), count), r) && reader.offset >= old(reader.offset)
    ensures r.Ok? ==> nonempty == SomeItem(r.value)
  {
    nonempty := false;
    ghost var first := reader.Rest();
    var items: seq<Bytes> := [];
    var k := 0;
    while k < count
      invariant reader.Valid() && 0 <= k <= count && reader.offset >= old(reader.offset)
      invariant ReadMany(ReadItem, first, k) == Good(items, reader.Rest())
      invariant nonempty == SomeItem(items)
    {
      ReadOneMore(ReadItem, first, count, k, items, reader.Rest());
      var item := TakeItem(reader);
      if item.Refused? { return Refused, nonempty; }
      items, nonempty := AppendItem(items, item.value, nonempty);
      k := k + 1;
    }
    r := Ok(items);
  }

  method TakeStack(reader: Reader) returns (r: Result<seq<Bytes>>, nonempty: bool)
    requires reader.Valid()
    modifies reader
    ensures reader.Reads(ReadStack(old(reader.Rest())), r) && reader.offset >= old(reader.offset)
    ensures r.Ok? ==> nonempty == SomeItem(r.value)
  {
    var count := reader.Count();
    if count.Refused? || count.value > MAX_ITEMS { return Refused, false; }
    r, nonempty := TakeItems(reader, count.value);
  }

  lemma SomeItemExtend(items: seq<Bytes>, x: Bytes)
    ensures SomeItem(items + [x]) <==> SomeItem(items) || x != []
  {
    var all := items + [x];
    if SomeItem(items) {
      var j :| 0 <= j < |items| && items[j] != [];
      assert all[j] != [];
    }
    assert all[|items|] == x;
    if SomeItem(all) {
      var j :| 0 <= j < |all| && all[j] != [];
      assert j < |items| ==> items[j] != [];
    }
  }

  lemma SomeWitnessExtend(stacks: seq<seq<Bytes>>, x: seq<Bytes>)
    ensures SomeWitness(stacks + [x]) <==> SomeWitness(stacks) || SomeItem(x)
  {
    var all := stacks + [x];
    if SomeWitness(stacks) {
      var j :| 0 <= j < |stacks| && SomeItem(stacks[j]);
      assert SomeItem(all[j]);
    }
    assert all[|stacks|] == x;
    if SomeWitness(all) {
      var j :| 0 <= j < |all| && SomeItem(all[j]);
      assert j < |stacks| ==> SomeItem(stacks[j]);
    }
  }

  method TakeWitness(reader: Reader, hasWitness: bool, count: nat) returns (r: Result<seq<seq<Bytes>>>)
    requires reader.Valid()
    modifies reader
    ensures reader.Reads(ReadWitness(old(reader.Rest()), hasWitness, count), r) && reader.offset >= old(reader.offset)
  {
    if !hasWitness { return Ok(Empty(count)); }
    ghost var first := reader.Rest();
    var stacks: seq<seq<Bytes>> := [];
    var any := false;
    var k := 0;
    while k < count
      invariant reader.Valid() && 0 <= k <= count && reader.offset >= old(reader.offset)
      invariant ReadMany(ReadStack, first, k) == Good(stacks, reader.Rest())
      invariant any == SomeWitness(stacks)
    {
      ReadOneMore(ReadStack, first, count, k, stacks, reader.Rest());
      var stack, nonempty := TakeStack(reader);
      if stack.Refused? { return Refused; }
      SomeWitnessExtend(stacks, stack.value);
      stacks := stacks + [stack.value];
      any := any || nonempty;
      k := k + 1;
    }
    if !any { return Refused; }
    r := Ok(stacks);
  }

  /** A counted list of inputs, with the bytes it occupies. */
  method TakeInputList(reader: Reader) returns (r: Result<seq<TxInput>>, raw: Bytes)
    requires reader.Valid()
    modifies reader
    ensures reader.Reads(ReadList(ReadInput, old(reader.Rest())), r) && reader.offset >= old(reader.offset)
    ensures r.Ok? ==> raw == reader.raw[old(reader.offset)..reader.offset]
  {
    var origin := reader.offset;
    raw := [];
    var count := reader.Count();
    if count.Refused? || !(1 <= count.value <= MAX_COUNT) { return Refused, raw; }
    var start := reader.offset;
    r, raw := TakeInputs(reader, count.value);
    if r.Ok? {
      raw := AppendSlice(reader.raw[origin..start], reader.raw, origin, start, reader.offset);
    }
  }

  method TakeOutputList(reader: Reader) returns (r: Result<seq<TxOutput>>, raw: Bytes)
    requires reader.Valid()
    modifies reader
    ensures reader.Reads(ReadList(ReadOutput, old(reader.Rest())), r) && reader.offset >= old(reader.offset)
    ensures r.Ok? ==> raw == reader.raw[old(reader.offset)..reader.offset]
  {
    var origin := reader.offset;
    raw := [];
    var count := reader.Count();
    if count.Refused? || !(1 <= count.value <= MAX_COUNT) { return Refused, raw; }
    var start := reader.offset;
    r, raw := TakeOutputs(reader, count.value);
    if r.Ok? {
      raw := AppendSlice(reader.raw[origin..start], reader.raw, origin, start, reader.offset);
    }
  }

  // ---- The bytes kept for the txid are `Base` ----

  ghost predicate Appends<T(!new)>(write: (T, Bytes) -> Bytes)
  {
    forall x, tail {:trigger write(x, tail)} :: write(x, tail) == write(x, []) + tail
  }

  lemma {:induction false} ManyAppends<T(!new)>(write: (T, Bytes) -> Bytes, xs: seq<T>, tail: Bytes)
    requires Appends(write)
    ensures ManyTo(write, xs, tail) == ManyTo(write, xs, []) + tail
  {
    if xs != [] {
      ManyAppends(write, xs[1..], tail);
      var a, b := write(xs[0], []), ManyTo(write, xs[1..], []);
      assert a + (b + tail) == (a + b) + tail;
    } else {
      assert [] + tail == tail;
    }
  }

  lemma ListAppends<T(!new)>(write: (T, Bytes) -> Bytes, xs: seq<T>, tail: Bytes)
    requires Appends(write)
    ensures ListTo(write, xs, tail) == ListTo(write, xs, []) + tail
  {
    ManyAppends(write, xs, tail);
    var a, b := CompactSize(|xs|), ManyTo(write, xs, []);
    assert a + (b + tail) == (a + b) + tail;
  }

  lemma VectorAppends(body: Bytes, tail: Bytes)
    ensures VectorTo(body, tail) == VectorTo(body, []) + tail
  {
    assert CompactSize(|body|) + (body + tail) == CompactSize(|body|) + (body + []) + tail;
  }

  lemma InputAppends(x: TxInput, tail: Bytes)
    ensures InputTo(x, tail) == InputTo(x, []) + tail
  {
    var h, v, q := x.prevHash, LittleEndian(x.vout, 4), LittleEndian(x.sequence, 4);
    VectorAppends(x.script, q + tail);
    VectorAppends(x.script, q + []);
    var c := VectorTo(x.script, []);
    Regroup4(h, v, c, q, tail);
  }

  lemma Regroup4(h: Bytes, v: Bytes, c: Bytes, q: Bytes, tail: Bytes)
    ensures h + (v + (c + (q + tail))) == (h + (v + (c + (q + [])))) + tail
  {
  }

  lemma OutputAppends(x: TxOutput, tail: Bytes)
    ensures OutputTo(x, tail) == OutputTo(x, []) + tail
  {
    VectorAppends(x.script, tail);
    var v, c := LittleEndian(x.value, 8), VectorTo(x.script, []);
    assert v + (c + tail) == (v + c) + tail;
  }

  lemma BodyAppends(t: Transaction, tail: Bytes)
    ensures BodyTo(t, tail) == BodyTo(t, []) + tail
  {
    forall x, t ensures InputTo(x, t) == InputTo(x, []) + t { InputAppends(x, t); }
    forall x, t ensures OutputTo(x, t) == OutputTo(x, []) + t { OutputAppends(x, t); }
    var a := ListTo(InputTo, t.inputs, []);
    var b := ListTo(OutputTo, t.outputs, []);
    ListAppends(OutputTo, t.outputs, tail);
    ListAppends(InputTo, t.inputs, b + tail);
    ListAppends(InputTo, t.inputs, b);
    assert a + (b + tail) == (a + b) + tail;
  }

  lemma AppendCancelRight(a: Bytes, b: Bytes, t: Bytes)
    requires a + t == b + t
    ensures a == b
  {
    assert |a| == |b|;
    assert a == (a + t)[..|a|] && b == (b + t)[..|b|];
  }

  /** The bytes of the two lists between the two fixed fields are the base. */
  lemma SliceIsBase(t: Transaction, bytes: Bytes, end: Bytes)
    requires -0x8000_0000 <= t.version < 0x8000_0000
    requires BodyTo(t, end) == bytes + end
    ensures LittleEndian(Unsigned32(t.version), 4) + bytes + LittleEndian(t.locktime, 4) == Base(t)
  {
    var v, l := LittleEndian(Unsigned32(t.version), 4), LittleEndian(t.locktime, 4);
    BodyAppends(t, end);
    AppendCancelRight(bytes, BodyTo(t, []), end);
    BodyAppends(t, l);
    assert l + [] == l;
    assert v + bytes + l == v + (bytes + l);
  }

  /** Both lists, and the bytes they occupy. */
  method TakeBody(reader: Reader) returns (r: Result<Body>, raw: Bytes)
    requires reader.Valid()
    modifies reader
    ensures reader.Reads(ReadBody(old(reader.Rest())), r) && reader.offset >= old(reader.offset)
    ensures r.Ok? ==> raw == reader.raw[old(reader.offset)..reader.offset]
  {
    var origin := reader.offset;
    var inputs, inputBytes := TakeInputList(reader);
    if inputs.Refused? { return Refused, []; }
    var middle := reader.offset;
    var outputs, outputBytes := TakeOutputList(reader);
    if outputs.Refused? { return Refused, []; }
    raw := AppendSlice(inputBytes, reader.raw, origin, middle, reader.offset);
    r := Ok(Body(inputs.value, outputs.value));
  }

  lemma PartsAreBase(t: Transaction, s: Bytes, bytes: Bytes, end: Bytes)
    requires -0x8000_0000 <= t.version < 0x8000_0000
    requires ReadBody(s) == Good(Body(t.inputs, t.outputs), end) && s == bytes + end
    ensures LittleEndian(Unsigned32(t.version), 4) + bytes + LittleEndian(t.locktime, 4) == Base(t)
  {
    BodyForth(s);
    SliceIsBase(t, bytes, end);
  }

  method TakeTrailer(reader: Reader, hasWitness: bool, count: nat)
    returns (stacks: seq<seq<Bytes>>, r: Result<Bytes>)
    requires reader.Valid()
    modifies reader
    ensures match ReadTrailer(old(reader.Rest()), hasWitness, count)
            case None => r.Refused?
            case Some(t) => t.stacks == stacks && r == Ok(LittleEndian(t.locktime, 4))
  {
    stacks := [];
    var w := TakeWitness(reader, hasWitness, count);
    if w.Refused? { return stacks, Refused; }
    stacks := w.value;
    r := reader.Take(4);
    if r.Ok? {
      LittleEndianFrom(r.value);
      if reader.offset != |reader.raw| { r := Refused; }
    }
  }

  /** The rest of the transaction, and the bytes its txid commits to. */
  method TakeContents(reader: Reader, versionRaw: Bytes, version: int, hasWitness: bool)
    returns (r: Result<Transaction>, base: Bytes)
    requires reader.Valid() && -0x8000_0000 <= version < 0x8000_0000
    requires versionRaw == LittleEndian(Unsigned32(version), 4)
    modifies reader
    ensures match ReadContents(old(reader.Rest()), version, hasWitness)
            case None => r.Refused?
            case Some(t) => r == Ok(t) && base == Base(t)
  {
    base := [];
    ghost var s := reader.Rest();
    var body, bodyBytes := TakeBody(reader);
    if body.Refused? { return Refused, base; }
    ghost var end := reader.Rest();
    assert s == bodyBytes + end;
    var stacks, locktimeRaw := TakeTrailer(reader, hasWitness, |body.value.inputs|);
    if locktimeRaw.Refused? { return Refused, base; }
    ghost var spec := ReadTrailer(end, hasWitness, |body.value.inputs|).value;
    TrailerForth(end, hasWitness, |body.value.inputs|);
    var t := Transaction(version, body.value.inputs, body.value.outputs, stacks,
                         FromLittle(locktimeRaw.value), hasWitness);
    FromLittleEndian(spec.locktime, 4);
    PartsAreBase(t, s, bodyBytes, end);
    base := versionRaw + bodyBytes + locktimeRaw.value;
    r := Ok(t);
  }

  /** Accepts exactly the serializations of valid transactions, and returns the transaction with
      the identities its fields determine. */
  method ParseTransaction(raw: Bytes, hash256: Bytes -> Bytes) returns (r: Result<Parsed>)
    ensures r.Ok? <==> exists t :: Valid(t) && Serialize(t) == raw
    ensures r.Ok? ==> Valid(r.value.tx) && Serialize(r.value.tx) == raw
    ensures r.Ok? ==> r.value.txid == Txid(r.value.tx, hash256) && r.value.wtxid == Wtxid(r.value.tx, hash256)
  {
    var t, base := ParseRaw(raw);
    if t.Refused? {
      forall t | Valid(t) ensures Serialize(t) != raw { ParseIff(raw, t); }
      return Refused;
    }
    SerializeParse(raw);
    r := Ok(Parsed(t.value, Reversed(hash256(base)), Reversed(hash256(raw))));
  }

  /** The version bytes, and whether the marker and flag follow them. */
  method TakeVersion(reader: Reader) returns (r: Result<Bytes>, hasWitness: bool)
    requires reader.Valid()
    modifies reader
    ensures var v := ReadDigits(old(reader.Rest()), 4);
            if v.Bad? || (Flagged(v.rest) && v.rest[1] != 1) then r.Refused?
            else r == Ok(LittleEndian(v.value, 4)) && v.value < Pow256(4) && hasWitness == Flagged(v.rest) &&
                 reader.Valid() && reader.Rest() == if hasWitness then v.rest[2..] else v.rest
  {
    hasWitness := false;
    r := reader.Take(4);
    if r.Refused? { return; }
    LittleEndianFrom(r.value);
    FromLittleBound(r.value);
    ghost var rest := reader.Rest();
    if reader.offset + 2 <= |reader.raw| && reader.raw[reader.offset] == 0 {
      var flags := reader.Take(2);
      if flags.Refused? || flags.value != [0, 1] { return Refused, false; }
      hasWitness := true;
      assert rest[1] == flags.value[1];
    }
  }

  method ParseRaw(raw: Bytes) returns (r: Result<Transaction>, base: Bytes)
    ensures match Parse(raw)
            case None => r.Refused?
            case Some(t) => r == Ok(t) && -0x8000_0000 <= t.version < 0x8000_0000 && base == Base(t)
  {
    if !(10 <= |raw| <= MAX_TX_BYTES) { return Refused, []; }
    var reader := new Reader(raw);
    var versionRaw, hasWitness := TakeVersion(reader);
    if versionRaw.Refused? { return Refused, []; }
    ghost var v := ReadDigits(raw, 4).value;
    FromLittleEndian(v, 4);
    SignedRoundTrip(0, v);
    r, base := TakeContents(reader, versionRaw.value, Signed32(FromLittle(versionRaw.value)), hasWitness);
  }
}
