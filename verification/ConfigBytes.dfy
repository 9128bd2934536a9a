/** The pool-config account as bytes: the cursor writer, the parameter reader, and the proof
    that reading gives back what was written. */
module ConfigBytes {
  import opened Numbers
  import opened ReferenceQuote
  import opened ConfigCompiler

  const ACCOUNT_LEN: int := 448
  const PARAMS_OFFSET: int := 16
  const SAME_SLOT_ORDER_OFFSET: int := 90
  const PREIMAGE_LEN: int := 156
  const RESERVED_LEN: int := 64
  const SCHEMA_VERSION: u16 := 1
  const REFERENCE_QUOTE_MODE: u8 := 1

  type Bytes = seq<u8>

  // ---- Little-endian words ----

  function Le(value: nat, width: nat): (b: Bytes)
    ensures |b| == width
  {
    if width == 0 then [] else [value % TWO_8] + Le(value / TWO_8, width - 1)
  }

  function FromLe(b: Bytes): nat {
    if b == [] then 0 else b[0] + TWO_8 * FromLe(b[1..])
  }

  function Pow256(width: nat): (p: int)
    ensures p >= 1
  {
    if width == 0 then 1 else TWO_8 * Pow256(width - 1)
  }

  lemma {:induction false} LeRoundTrip(value: nat, width: nat)
    requires value < Pow256(width)
    ensures FromLe(Le(value, width)) == value
  {
    if width > 0 {
      LeRoundTrip(value / TWO_8, width - 1);
      assert Le(value, width)[1..] == Le(value / TWO_8, width - 1);
    }
  }

  /** Least significant byte first: byte `k` is the digit of weight 256 to the `k`. */
  lemma {:induction false} LeByte(value: nat, width: nat, k: nat)
    requires k < width
    ensures Le(value, width)[k] == value / Pow256(k) % TWO_8
  {
    if k > 0 {
      LeByte(value / TWO_8, width - 1, k - 1);
      DivTwice(value, TWO_8, Pow256(k - 1));
    }
  }

  lemma DivTwice(n: nat, a: nat, b: nat)
    requires a > 0 && b > 0
    ensures a * b > 0 && n / a / b == n / (a * b)
  {
    MulLt(0, a, b);
    var q := n / a / b;
    DivBounds(n, a);
    DivBounds(n / a, b);
    assert q * (a * b) == (q * b) * a;
    MulLe(q * b, n / a, a);
    MulLe(n / a + 1, q * b + b, a);
    assert (q * b + b) * a == q * (a * b) + a * b;
    DivUnique(n, a * b, q);
  }

  lemma {:induction false} FromLeBound(b: Bytes)
    ensures FromLe(b) < Pow256(|b|)
  {
    if b != [] {
      FromLeBound(b[1..]);
    }
  }

  lemma WordSizes()
    ensures Pow256(2) == TWO_16 && Pow256(8) == TWO_64
  {
    assert Pow256(4) == 0x1_0000_0000;
  }

  // ---- The account ----

  datatype Account = Account(config: ConfigInput, bump: u8, paused: bool)

  function OrderByte(order: SameSlotOrder): u8 {
    match order
    case UpdateBeforeSwap => 0
    case SwapBeforeUpdate => 1
  }

  function Zeros(n: nat): (b: Bytes)
    ensures |b| == n
  {
    seq(n, _ => 0)
  }

  /** "meta-amm:decimal-scale:v1" */
  const SCALE_DOMAIN: Bytes :=
    [109, 101, 116, 97, 45, 97, 109, 109, 58, 100, 101, 99, 105, 109, 97, 108, 45, 115, 99, 97, 108, 101, 58, 118, 49]

  function ScalePreimage(pair: TokenPair): (b: Bytes)
    ensures |b| == PREIMAGE_LEN
  {
    SCALE_DOMAIN + pair.baseMint + pair.quoteMint + pair.baseProgram + pair.quoteProgram
    + [pair.baseDecimals, pair.quoteDecimals, 0]
  }

  /** "MAMMCFG1" */
  const DISCRIMINATOR: Bytes := [77, 65, 77, 77, 67, 70, 71, 49]

  /** Every field in the order the writer emits it. */
  function HeaderFields(a: Account): seq<Bytes> {
    [DISCRIMINATOR, Le(SCHEMA_VERSION, 2), [REFERENCE_QUOTE_MODE], [if a.paused then 1 else 0], [a.bump], Zeros(3)]
  }

  function WindowFields(p: Params): seq<Bytes> {
    [Le(p.agingStart, 8), Le(p.protectedStart, 8), Le(p.expire, 8), Le(p.maxTrade, 8), Le(p.protectedMaxTrade, 8)]
  }

  function RateFields(p: Params): seq<Bytes> {
    [Le(p.feeBps, 2), Le(p.baseHalfSpreadBps, 2), Le(p.surchargePerSlot, 2), Le(p.maxSurcharge, 2), Le(p.skewPer10k, 2),
     Le(p.maxSkew, 2), Le(p.hardBandBps, 2), Zeros(2)]
  }

  function EnvelopeFields(e: Envelope): seq<Bytes> {
    [Le(e.maxPeriod, 8), Le(e.maxLatency, 8), Le(e.minSuccessBps, 2), [OrderByte(e.order)], Zeros(5)]
  }

  function TailFields(c: ConfigInput): seq<Bytes> {
    [[c.budget.required], [c.budget.max], c.pair.baseMint, c.pair.quoteMint, c.pair.baseProgram, c.pair.quoteProgram,
     ScalePreimage(c.pair), Zeros(RESERVED_LEN), Zeros(2)]
  }

  function Fields(a: Account): seq<Bytes> {
    HeaderFields(a) + WindowFields(a.config.strategy.params) + RateFields(a.config.strategy.params)
    + EnvelopeFields(a.config.strategy.envelope) + TailFields(a.config)
  }

  function Flatten(fields: seq<Bytes>): Bytes {
    if fields == [] then [] else Flatten(fields[..|fields| - 1]) + fields[|fields| - 1]
  }

  lemma FlattenAppend(fields: seq<Bytes>, field: Bytes)
    ensures Flatten(fields + [field]) == Flatten(fields) + field
  {
    assert (fields + [field])[..|fields|] == fields;
  }

  lemma {:induction false} FlattenConcat(a: seq<Bytes>, b: seq<Bytes>)
    ensures Flatten(a + b) == Flatten(a) + Flatten(b)
  {
    if b == [] {
      assert a + b == a;
    } else {
      var init, last := b[..|b| - 1], b[|b| - 1];
      FlattenConcat(a, init);
      assert a + b == (a + init) + [last] && b == init + [last];
      FlattenAppend(a + init, last);
      FlattenAppend(init, last);
    }
  }

  function Layout(a: Account): Bytes {
    Flatten(Fields(a))
  }

  // ---- Writing ----

  method PutBytes(out: array<u8>, offset: nat, value: Bytes, ghost done: seq<Bytes>) returns (next: nat)
    requires offset + |value| <= out.Length && out[..offset] == Flatten(done)
    modifies out
    ensures next == offset + |value| && out[..next] == Flatten(done + [value])
  {
    forall i | 0 <= i < |value| {
      out[offset + i] := value[i];
    }
    next := offset + |value|;
    FlattenAppend(done, value);
    assert out[..next] == out[..offset] + value;
  }

  method PutU8(out: array<u8>, offset: nat, value: u8, ghost done: seq<Bytes>) returns (next: nat)
    requires offset + 1 <= out.Length && out[..offset] == Flatten(done)
    modifies out
    ensures next == offset + 1 && out[..next] == Flatten(done + [[value]])
  {
    next := PutBytes(out, offset, [value], done);
  }

  method PutU16(out: array<u8>, offset: nat, value: u16, ghost done: seq<Bytes>) returns (next: nat)
    requires offset + 2 <= out.Length && out[..offset] == Flatten(done)
    modifies out
    ensures next == offset + 2 && out[..next] == Flatten(done + [Le(value, 2)])
  {
    next := PutBytes(out, offset, Le(value, 2), done);
  }

  method PutU64(out: array<u8>, offset: nat, value: u64, ghost done: seq<Bytes>) returns (next: nat)
    requires offset + 8 <= out.Length && out[..offset] == Flatten(done)
    modifies out
    ensures next == offset + 8 && out[..next] == Flatten(done + [Le(value, 8)])
  {
    next := PutBytes(out, offset, Le(value, 8), done);
  }

  method PutHeader(out: array<u8>, start: nat, a: Account, ghost done: seq<Bytes>) returns (offset: nat)
    requires start + 16 <= out.Length && out[..start] == Flatten(done)
    modifies out
    ensures offset == start + 16 && out[..offset] == Flatten(done + HeaderFields(a))
  {
    hide Flatten, Le, Zeros;
    ghost var d := done;
    offset := PutBytes(out, start, DISCRIMINATOR, d); d := d + [DISCRIMINATOR];
    offset := PutU16(out, offset, SCHEMA_VERSION, d); d := d + [Le(SCHEMA_VERSION, 2)];
    offset := PutU8(out, offset, REFERENCE_QUOTE_MODE, d); d := d + [[REFERENCE_QUOTE_MODE]];
    offset := PutU8(out, offset, if a.paused then 1 else 0, d); d := d + [[if a.paused then 1 else 0]];
    offset := PutU8(out, offset, a.bump, d); d := d + [[a.bump]];
    offset := PutBytes(out, offset, Zeros(3), d); d := d + [Zeros(3)];
    assert d == done + HeaderFields(a);
  }

  method PutWindows(out: array<u8>, start: nat, p: Params, ghost done: seq<Bytes>) returns (offset: nat)
    requires start + 40 <= out.Length && out[..start] == Flatten(done)
    modifies out
    ensures offset == start + 40 && out[..offset] == Flatten(done + WindowFields(p))
  {
    hide Flatten, Le;
    ghost var d := done;
    offset := PutU64(out, start, p.agingStart, d); d := d + [Le(p.agingStart, 8)];
    offset := PutU64(out, offset, p.protectedStart, d); d := d + [Le(p.protectedStart, 8)];
    offset := PutU64(out, offset, p.expire, d); d := d + [Le(p.expire, 8)];
    offset := PutU64(out, offset, p.maxTrade, d); d := d + [Le(p.maxTrade, 8)];
    offset := PutU64(out, offset, p.protectedMaxTrade, d); d := d + [Le(p.protectedMaxTrade, 8)];
    assert d == done + WindowFields(p);
  }

  method PutRates(out: array<u8>, start: nat, p: Params, ghost done: seq<Bytes>) returns (offset: nat)
    requires start + 16 <= out.Length && out[..start] == Flatten(done)
    modifies out
    ensures offset == start + 16 && out[..offset] == Flatten(done + RateFields(p))
  {
    hide Flatten, Le, Zeros;
    ghost var d := done;
    offset := PutU16(out, start, p.feeBps, d); d := d + [Le(p.feeBps, 2)];
    offset := PutU16(out, offset, p.baseHalfSpreadBps, d); d := d + [Le(p.baseHalfSpreadBps, 2)];
    offset := PutU16(out, offset, p.surchargePerSlot, d); d := d + [Le(p.surchargePerSlot, 2)];
    offset := PutU16(out, offset, p.maxSurcharge, d); d := d + [Le(p.maxSurcharge, 2)];
    offset := PutU16(out, offset, p.skewPer10k, d); d := d + [Le(p.skewPer10k, 2)];
    offset := PutU16(out, offset, p.maxSkew, d); d := d + [Le(p.maxSkew, 2)];
    offset := PutU16(out, offset, p.hardBandBps, d); d := d + [Le(p.hardBandBps, 2)];
    offset := PutBytes(out, offset, Zeros(2), d); d := d + [Zeros(2)];
    assert d == done + RateFields(p);
  }

  method PutEnvelope(out: array<u8>, start: nat, e: Envelope, ghost done: seq<Bytes>) returns (offset: nat)
    requires start + 24 <= out.Length && out[..start] == Flatten(done)
    modifies out
    ensures offset == start + 24 && out[..offset] == Flatten(done + EnvelopeFields(e))
  {
    hide Flatten, Le, Zeros, OrderByte;
    ghost var d := done;
    offset := PutU64(out, start, e.maxPeriod, d); d := d + [Le(e.maxPeriod, 8)];
    offset := PutU64(out, offset, e.maxLatency, d); d := d + [Le(e.maxLatency, 8)];
    offset := PutU16(out, offset, e.minSuccessBps, d); d := d + [Le(e.minSuccessBps, 2)];
    offset := PutU8(out, offset, OrderByte(e.order), d); d := d + [[OrderByte(e.order)]];
    offset := PutBytes(out, offset, Zeros(5), d); d := d + [Zeros(5)];
    assert d == done + EnvelopeFields(e);
  }

  method PutTail(out: array<u8>, start: nat, c: ConfigInput, ghost done: seq<Bytes>) returns (offset: nat)
    requires start + 352 <= out.Length && out[..start] == Flatten(done)
    modifies out
    ensures offset == start + 352 && out[..offset] == Flatten(done + TailFields(c))
  {
    hide Flatten, Zeros, ScalePreimage;
    ghost var d := done;
    offset := PutU8(out, start, c.budget.required, d); d := d + [[c.budget.required]];
    offset := PutU8(out, offset, c.budget.max, d); d := d + [[c.budget.max]];
    offset := PutBytes(out, offset, c.pair.baseMint, d); d := d + [c.pair.baseMint];
    offset := PutBytes(out, offset, c.pair.quoteMint, d); d := d + [c.pair.quoteMint];
    offset := PutBytes(out, offset, c.pair.baseProgram, d); d := d + [c.pair.baseProgram];
    offset := PutBytes(out, offset, c.pair.quoteProgram, d); d := d + [c.pair.quoteProgram];
    offset := PutBytes(out, offset, ScalePreimage(c.pair), d); d := d + [ScalePreimage(c.pair)];
    offset := PutBytes(out, offset, Zeros(RESERVED_LEN), d); d := d + [Zeros(RESERVED_LEN)];
    offset := PutBytes(out, offset, Zeros(2), d); d := d + [Zeros(2)];
    assert d == done + TailFields(c);
  }

  /** The writer fills its fixed-size buffer exactly, field after field. */
  method ToBytes(a: Account) returns (out: array<u8>)
    ensures fresh(out) && out.Length == ACCOUNT_LEN && out[..] == Layout(a)
  {
    hide HeaderFields, WindowFields, RateFields, EnvelopeFields, TailFields;
    var p, e := a.config.strategy.params, a.config.strategy.envelope;
    out := new u8[ACCOUNT_LEN](_ => 0);
    ghost var d: seq<Bytes> := [];
    var offset := PutHeader(out, 0, a, d);
    d := d + HeaderFields(a);
    offset := PutWindows(out, offset, p, d);
    d := d + WindowFields(p);
    offset := PutRates(out, offset, p, d);
    d := d + RateFields(p);
    offset := PutEnvelope(out, offset, e, d);
    d := d + EnvelopeFields(e);
    offset := PutTail(out, offset, a.config, d);
    d := d + TailFields(a.config);
    assert d == Fields(a);
    assert offset == ACCOUNT_LEN && out[..] == out[..offset];
  }

  // ---- Reading ----

  function WordAt(source: Bytes, offset: nat, width: nat): nat
    requires offset + width <= |source|
  {
    FromLe(source[offset..offset + width])
  }

  function U16At(source: Bytes, offset: nat): (r: u16)
    requires offset + 2 <= |source|
  {
    FromLeBound(source[offset..offset + 2]);
    WordSizes();
    WordAt(source, offset, 2)
  }

  function U64At(source: Bytes, offset: nat): (r: u64)
    requires offset + 8 <= |source|
  {
    FromLeBound(source[offset..offset + 8]);
    WordSizes();
    WordAt(source, offset, 8)
  }

  function ParamsAt(source: Bytes): Params
    requires |source| == ACCOUNT_LEN
  {
    Params(U16At(source, 56), U16At(source, 58), U64At(source, 16), U64At(source, 24), U64At(source, 32),
           U16At(source, 60), U16At(source, 62), U64At(source, 40), U64At(source, 48), U16At(source, 64),
           U16At(source, 66), U16At(source, 68))
  }

  method ReadU64(source: Bytes, offset: nat) returns (value: u64, next: nat)
    requires offset + 8 <= |source|
    ensures value == U64At(source, offset) && next == offset + 8
  {
    value, next := U64At(source, offset), offset + 8;
  }

  method ReadU16(source: Bytes, offset: nat) returns (value: u16, next: nat)
    requires offset + 2 <= |source|
    ensures value == U16At(source, offset) && next == offset + 2
  {
    value, next := U16At(source, offset), offset + 2;
  }

  /** The cursor reader: twelve words from the parameter block, in layout order. */
  method ReadParams(source: Bytes) returns (p: Params)
    requires |source| == ACCOUNT_LEN
    ensures p == ParamsAt(source)
  {
    var offset := PARAMS_OFFSET;
    var agingStart, protectedStart, expire, maxTrade, protectedMaxTrade;
    agingStart, offset := ReadU64(source, offset);
    protectedStart, offset := ReadU64(source, offset);
    expire, offset := ReadU64(source, offset);
    maxTrade, offset := ReadU64(source, offset);
    protectedMaxTrade, offset := ReadU64(source, offset);
    var fee, baseHalfSpread, surchargePerSlot, maxSurcharge, skewPer10k, maxSkew, hardBand;
    fee, offset := ReadU16(source, offset);
    baseHalfSpread, offset := ReadU16(source, offset);
    surchargePerSlot, offset := ReadU16(source, offset);
    maxSurcharge, offset := ReadU16(source, offset);
    skewPer10k, offset := ReadU16(source, offset);
    maxSkew, offset := ReadU16(source, offset);
    hardBand, offset := ReadU16(source, offset);
    p := Params(fee, baseHalfSpread, agingStart, protectedStart, expire, surchargePerSlot, maxSurcharge, maxTrade,
                protectedMaxTrade, skewPer10k, maxSkew, hardBand);
  }

  // ---- Round trip ----

  /** A field of a flattened list is found at the total length of the fields before it. */
  lemma FieldAt(fields: seq<Bytes>, k: nat, offset: nat)
    requires k < |fields| && |Flatten(fields[..k])| == offset
    ensures |Flatten(fields[..k + 1])| == offset + |fields[k]|
    ensures offset + |fields[k]| <= |Flatten(fields)|
    ensures Flatten(fields)[offset..offset + |fields[k]|] == fields[k]
  {
    assert fields[..k + 1] == fields[..k] + [fields[k]];
    FlattenAppend(fields[..k], fields[k]);
    assert fields == fields[..k + 1] + fields[k + 1..];
    FlattenConcat(fields[..k + 1], fields[k + 1..]);
  }

  /** A 64-bit or 16-bit field reads back as the word that was written. */
  lemma WordAtField(fields: seq<Bytes>, k: nat, offset: nat, value: nat, width: nat)
    requires k < |fields| && |Flatten(fields[..k])| == offset && fields[k] == Le(value, width) && value < Pow256(width)
    ensures |Flatten(fields[..k + 1])| == offset + width
    ensures offset + width <= |Flatten(fields)| && WordAt(Flatten(fields), offset, width) == value
  {
    FieldAt(fields, k, offset);
    LeRoundTrip(value, width);
  }

  lemma HeaderLength(a: Account)
    ensures |Flatten(Fields(a)[..6])| == PARAMS_OFFSET
  {
    var f := Fields(a);
    assert f[..6] == HeaderFields(a);
    hide Flatten, Le, Zeros, Fields;
    EmptyFlatten(HeaderFields(a));
    FieldAt(HeaderFields(a), 0, 0);
    FieldAt(HeaderFields(a), 1, 8);
    FieldAt(HeaderFields(a), 2, 10);
    FieldAt(HeaderFields(a), 3, 11);
    FieldAt(HeaderFields(a), 4, 12);
    FieldAt(HeaderFields(a), 5, 13);
    assert HeaderFields(a)[..6] == HeaderFields(a);
  }

  lemma EmptyFlatten(fields: seq<Bytes>)
    ensures |Flatten(fields[..0])| == 0
  {
  }

  lemma WindowsReadBack(f: seq<Bytes>, p: Params)
    requires 11 <= |f| && f[6..11] == WindowFields(p) && |Flatten(f[..6])| == 16
    ensures var b := Flatten(f);
            && 56 <= |b| && |Flatten(f[..11])| == 56
            && WordAt(b, 16, 8) == p.agingStart && WordAt(b, 24, 8) == p.protectedStart && WordAt(b, 32, 8) == p.expire
            && WordAt(b, 40, 8) == p.maxTrade && WordAt(b, 48, 8) == p.protectedMaxTrade
  {
    WordSizes();
    var w := WindowFields(p);
    assert f[6] == w[0] && f[7] == w[1] && f[8] == w[2] && f[9] == w[3] && f[10] == w[4];
    hide Flatten, Le, WordAt, Pow256;
    WordAtField(f, 6, 16, p.agingStart, 8);
    WordAtField(f, 7, 24, p.protectedStart, 8);
    WordAtField(f, 8, 32, p.expire, 8);
    WordAtField(f, 9, 40, p.maxTrade, 8);
    WordAtField(f, 10, 48, p.protectedMaxTrade, 8);
  }

  lemma RatesReadBack(f: seq<Bytes>, p: Params)
    requires 19 <= |f| && f[11..19] == RateFields(p) && |Flatten(f[..11])| == 56
    ensures var b := Flatten(f);
            && 72 <= |b| && |Flatten(f[..19])| == 72
            && WordAt(b, 56, 2) == p.feeBps && WordAt(b, 58, 2) == p.baseHalfSpreadBps
            && WordAt(b, 60, 2) == p.surchargePerSlot
            && WordAt(b, 62, 2) == p.maxSurcharge && WordAt(b, 64, 2) == p.skewPer10k && WordAt(b, 66, 2) == p.maxSkew
            && WordAt(b, 68, 2) == p.hardBandBps
  {
    WordSizes();
    var w := RateFields(p);
    assert f[11] == w[0] && f[12] == w[1] && f[13] == w[2] && f[14] == w[3] && f[15] == w[4] && f[16] == w[5]
        && f[17] == w[6] && f[18] == w[7];
    hide Flatten, Le, WordAt, Pow256;
    WordAtField(f, 11, 56, p.feeBps, 2);
    WordAtField(f, 12, 58, p.baseHalfSpreadBps, 2);
    WordAtField(f, 13, 60, p.surchargePerSlot, 2);
    WordAtField(f, 14, 62, p.maxSurcharge, 2);
    WordAtField(f, 15, 64, p.skewPer10k, 2);
    WordAtField(f, 16, 66, p.maxSkew, 2);
    WordAtField(f, 17, 68, p.hardBandBps, 2);
    FieldAt(f, 18, 70);
  }

  lemma EnvelopeReadsBack(f: seq<Bytes>, e: Envelope)
    requires 24 <= |f| && f[19..24] == EnvelopeFields(e) && |Flatten(f[..19])| == 72
    ensures SAME_SLOT_ORDER_OFFSET < |Flatten(f)| && Flatten(f)[SAME_SLOT_ORDER_OFFSET] == OrderByte(e.order)
    ensures |Flatten(f[..24])| == 96
  {
    var w := EnvelopeFields(e);
    assert f[19] == w[0] && f[20] == w[1] && f[21] == w[2] && f[22] == w[3] && f[23] == w[4];
    hide Flatten, Le, OrderByte;
    FieldAt(f, 19, 72);
    FieldAt(f, 20, 80);
    FieldAt(f, 21, 88);
    FieldAt(f, 22, 90);
    FieldAt(f, 23, 91);
    assert Flatten(f)[90..91][0] == OrderByte(e.order);
  }

  /** Whatever was compiled, with any bump and pause flag, the written account gives back its
      parameters and its same-slot order, and is exactly as long as its buffer. */
  lemma AccountReadsBack(a: Account)
    ensures |Layout(a)| == ACCOUNT_LEN
    ensures ParamsAt(Layout(a)) == a.config.strategy.params
    ensures Layout(a)[SAME_SLOT_ORDER_OFFSET] == OrderByte(a.config.strategy.envelope.order)
  {
    var f, p, e := Fields(a), a.config.strategy.params, a.config.strategy.envelope;
    HeaderLength(a);
    assert f[6..11] == WindowFields(p) && f[11..19] == RateFields(p) && f[19..24] == EnvelopeFields(e);
    assert f == f[..24] + TailFields(a.config);
    hide Flatten, WindowFields, RateFields, EnvelopeFields, TailFields, Fields, WordAt;
    WindowsReadBack(f, p);
    RatesReadBack(f, p);
    EnvelopeReadsBack(f, e);
    TailLength(a.config);
    FlattenConcat(f[..24], TailFields(a.config));
  }

  lemma TailLength(c: ConfigInput)
    ensures |Flatten(TailFields(c))| == 352
  {
    var f := TailFields(c);
    hide Flatten, Zeros, ScalePreimage;
    EmptyFlatten(f);
    FieldAt(f, 0, 0);
    FieldAt(f, 1, 1);
    FieldAt(f, 2, 2);
    FieldAt(f, 3, 34);
    FieldAt(f, 4, 66);
    FieldAt(f, 5, 98);
    FieldAt(f, 6, 130);
    FieldAt(f, 7, 286);
    FieldAt(f, 8, 350);
    assert f[..9] == f;
  }

  // ---- Every other field ----

  /** The header: what kind of account it is, whether it is paused, and its bump. */
  predicate HeaderAt(b: Bytes, a: Account)
    requires |b| == ACCOUNT_LEN
  {
    && b[0..8] == DISCRIMINATOR && WordAt(b, 8, 2) == SCHEMA_VERSION && b[10] == REFERENCE_QUOTE_MODE
    && b[11] == (if a.paused then 1 else 0) && b[12] == a.bump && b[13..16] == Zeros(3)
  }

  predicate EnvelopeAt(b: Bytes, e: Envelope)
    requires |b| == ACCOUNT_LEN
  {
    && WordAt(b, 72, 8) == e.maxPeriod && WordAt(b, 80, 8) == e.maxLatency && WordAt(b, 88, 2) == e.minSuccessBps
    && b[SAME_SLOT_ORDER_OFFSET] == OrderByte(e.order) && b[91..96] == Zeros(5)
  }

  /** The account budget, the two mints and the two token programs, then the same identities and
      the decimals under the domain of the price scale, and nothing but zeros to the end. */
  predicate TailAt(b: Bytes, c: ConfigInput)
    requires |b| == ACCOUNT_LEN
  {
    && b[96] == c.budget.required && b[97] == c.budget.max
    && b[98..130] == c.pair.baseMint && b[130..162] == c.pair.quoteMint
    && b[162..194] == c.pair.baseProgram && b[194..226] == c.pair.quoteProgram
    && b[226..251] == SCALE_DOMAIN
    && b[251..283] == c.pair.baseMint && b[283..315] == c.pair.quoteMint
    && b[315..347] == c.pair.baseProgram && b[347..379] == c.pair.quoteProgram
    && b[379] == c.pair.baseDecimals && b[380] == c.pair.quoteDecimals && b[381] == 0
    && b[382..446] == Zeros(RESERVED_LEN) && b[446..448] == Zeros(2)
  }

  lemma ByteAtField(fields: seq<Bytes>, k: nat, offset: nat, value: u8)
    requires k < |fields| && |Flatten(fields[..k])| == offset && fields[k] == [value]
    ensures |Flatten(fields[..k + 1])| == offset + 1
    ensures offset < |Flatten(fields)| && Flatten(fields)[offset] == value
  {
    FieldAt(fields, k, offset);
    hide Flatten;
    assert Flatten(fields)[offset..offset + 1][0] == value;
  }

  lemma HeaderReadsBack(f: seq<Bytes>, a: Account)
    requires 6 <= |f| && f[..6] == HeaderFields(a) && |Flatten(f)| == ACCOUNT_LEN
    ensures HeaderAt(Flatten(f), a)
  {
    WordSizes();
    var w := HeaderFields(a);
    assert f[0] == w[0] && f[1] == w[1] && f[2] == w[2] && f[3] == w[3] && f[4] == w[4] && f[5] == w[5];
    EmptyFlatten(f);
    hide Flatten, Le, WordAt, Pow256, Zeros;
    FieldAt(f, 0, 0);
    WordAtField(f, 1, 8, SCHEMA_VERSION, 2);
    ByteAtField(f, 2, 10, REFERENCE_QUOTE_MODE);
    ByteAtField(f, 3, 11, if a.paused then 1 else 0);
    ByteAtField(f, 4, 12, a.bump);
    FieldAt(f, 5, 13);
  }

  lemma EnvelopeWordsReadBack(f: seq<Bytes>, e: Envelope)
    requires 24 <= |f| && f[19..24] == EnvelopeFields(e) && |Flatten(f[..19])| == 72 && |Flatten(f)| == ACCOUNT_LEN
    ensures EnvelopeAt(Flatten(f), e)
  {
    WordSizes();
    var w := EnvelopeFields(e);
    assert f[19] == w[0] && f[20] == w[1] && f[21] == w[2] && f[22] == w[3] && f[23] == w[4];
    hide Flatten, Le, WordAt, Pow256, OrderByte, Zeros;
    WordAtField(f, 19, 72, e.maxPeriod, 8);
    WordAtField(f, 20, 80, e.maxLatency, 8);
    WordAtField(f, 21, 88, e.minSuccessBps, 2);
    ByteAtField(f, 22, 90, OrderByte(e.order));
    FieldAt(f, 23, 91);
  }

  lemma TailReadsBack(f: seq<Bytes>, c: ConfigInput)
    requires |f| == 33 && f[24..] == TailFields(c) && |Flatten(f[..24])| == 96 && |Flatten(f)| == ACCOUNT_LEN
    ensures TailAt(Flatten(f), c)
  {
    var w := TailFields(c);
    assert f[24] == w[0] && f[25] == w[1] && f[26] == w[2] && f[27] == w[3] && f[28] == w[4] && f[29] == w[5]
        && f[30] == w[6] && f[31] == w[7] && f[32] == w[8];
    hide Flatten, ScalePreimage, Zeros;
    ByteAtField(f, 24, 96, c.budget.required);
    ByteAtField(f, 25, 97, c.budget.max);
    FieldAt(f, 26, 98);
    FieldAt(f, 27, 130);
    FieldAt(f, 28, 162);
    FieldAt(f, 29, 194);
    FieldAt(f, 30, 226);
    FieldAt(f, 31, 382);
    FieldAt(f, 32, 446);
    PreimageAt(Flatten(f), c.pair);
  }

  lemma SliceOfSlice(b: Bytes, start: nat, end: nat, low: nat, high: nat)
    requires low <= high && start + high <= end <= |b|
    ensures b[start..end][low..high] == b[start + low..start + high]
  {
    var inner, outer := b[start..end][low..high], b[start + low..start + high];
    assert |inner| == |outer| && forall i :: 0 <= i < |inner| ==> inner[i] == b[start..end][low + i] == outer[i];
  }

  lemma PreimageAt(b: Bytes, pair: TokenPair)
    requires 382 <= |b| && b[226..382] == ScalePreimage(pair)
    ensures b[226..251] == SCALE_DOMAIN && b[251..283] == pair.baseMint && b[283..315] == pair.quoteMint
            && b[315..347] == pair.baseProgram && b[347..379] == pair.quoteProgram
            && b[379] == pair.baseDecimals && b[380] == pair.quoteDecimals && b[381] == 0
  {
    PreimageReadsBack(b[226..382], pair);
    hide ScalePreimage, SCALE_DOMAIN;
    SliceOfSlice(b, 226, 382, 0, 25);
    SliceOfSlice(b, 226, 382, 25, 57);
    SliceOfSlice(b, 226, 382, 57, 89);
    SliceOfSlice(b, 226, 382, 89, 121);
    SliceOfSlice(b, 226, 382, 121, 153);
  }

  lemma PreimageReadsBack(b: Bytes, pair: TokenPair)
    requires b == ScalePreimage(pair)
    ensures b[0..25] == SCALE_DOMAIN && b[25..57] == pair.baseMint && b[57..89] == pair.quoteMint
            && b[89..121] == pair.baseProgram && b[121..153] == pair.quoteProgram
            && b[153] == pair.baseDecimals && b[154] == pair.quoteDecimals && b[155] == 0
  {
    assert |SCALE_DOMAIN| == 25;
    hide SCALE_DOMAIN;
  }

  /** Every field of the account is where the layout puts it. */
  lemma EveryFieldReadsBack(a: Account)
    ensures |Layout(a)| == ACCOUNT_LEN && ParamsAt(Layout(a)) == a.config.strategy.params
    ensures HeaderAt(Layout(a), a) && EnvelopeAt(Layout(a), a.config.strategy.envelope) && TailAt(Layout(a), a.config)
  {
    AccountReadsBack(a);
    var f, p, e := Fields(a), a.config.strategy.params, a.config.strategy.envelope;
    HeaderLength(a);
    assert f[..6] == HeaderFields(a) && f[6..11] == WindowFields(p) && f[11..19] == RateFields(p)
        && f[19..24] == EnvelopeFields(e) && f[24..] == TailFields(a.config);
    hide Flatten, HeaderFields, WindowFields, RateFields, EnvelopeFields, TailFields, Fields, WordAt, HeaderAt,
         EnvelopeAt, TailAt, ParamsAt;
    WindowsReadBack(f, p);
    RatesReadBack(f, p);
    EnvelopeReadsBack(f, e);
    HeaderReadsBack(f, a);
    EnvelopeWordsReadBack(f, e);
    TailReadsBack(f, a.config);
  }

  /** So the bytes determine the account: two that differ anywhere are written differently. */
  lemma LayoutIsInjective(a: Account, b: Account)
    requires Layout(a) == Layout(b)
    ensures a == b
  {
    EveryFieldReadsBack(a);
    EveryFieldReadsBack(b);
    hide Layout, ParamsAt, WordAt, Zeros, DISCRIMINATOR, SCALE_DOMAIN;
  }
}
