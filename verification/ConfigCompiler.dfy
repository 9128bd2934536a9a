/** The bounded strategy compiler: which strategies, envelopes and budgets it accepts. */
module ConfigCompiler {
  import opened Numbers
  import opened FixedPoint
  import opened ReferenceQuote
  import ReferenceLaws

  const REQUIRED_SWAP_ACCOUNT_METAS: int := 13
  const MAX_DECIMALS: int := 12

  datatype SameSlotOrder = UpdateBeforeSwap | SwapBeforeUpdate

  datatype Envelope = Envelope(maxPeriod: u64, maxLatency: u64, minSuccessBps: u16, order: SameSlotOrder)

  datatype Strategy = Strategy(params: Params, envelope: Envelope)

  datatype AccountBudget = AccountBudget(required: u8, max: u8)

  type Key = k: seq<u8> | |k| == 32 witness seq(32, _ => 0)

  datatype TokenPair = TokenPair(baseMint: Key, quoteMint: Key, baseProgram: Key, quoteProgram: Key,
                                 baseDecimals: u8, quoteDecimals: u8)

  datatype ConfigInput = ConfigInput(strategy: Strategy, pair: TokenPair, budget: AccountBudget)

  datatype BpsField =
    | Fee | BaseHalfSpread | AgingSurchargePerSlot | MaxAgingSurcharge | InventorySkewPer10k | MaxInventorySkew

  datatype ConfigError =
    | BpsOutOfRange(field: BpsField)
    | SlotWindowInvalid
    | TradeLimitInvalid
    | WorstCaseSpreadInvalid
    | InventoryBandInvalid
    | QuoteUpdateEnvelopeInvalid
    | AccountBudgetInvalid
    | DecimalScaleInvalid(error: MathError)

  function ValidateBps(field: BpsField, value: u16): Result<(), ConfigError> {
    if value >= BASIS_POINTS then Err(BpsOutOfRange(field)) else Ok(())
  }

  function ValidateParams(p: Params): Result<(), ConfigError> {
    var _ :- ValidateBps(Fee, p.feeBps);
    var _ :- ValidateBps(BaseHalfSpread, p.baseHalfSpreadBps);
    var _ :- ValidateBps(AgingSurchargePerSlot, p.surchargePerSlot);
    var _ :- ValidateBps(MaxAgingSurcharge, p.maxSurcharge);
    var _ :- ValidateBps(InventorySkewPer10k, p.skewPer10k);
    var _ :- ValidateBps(MaxInventorySkew, p.maxSkew);
    if p.expire == 0 || p.agingStart > p.protectedStart || p.protectedStart >= p.expire then Err(SlotWindowInvalid)
    else if p.maxTrade == 0 || p.protectedMaxTrade == 0 || p.protectedMaxTrade > p.maxTrade then Err(TradeLimitInvalid)
    else if p.hardBandBps == 0 || p.hardBandBps > BASIS_POINTS then Err(InventoryBandInvalid)
    else if p.baseHalfSpreadBps + p.maxSurcharge + p.maxSkew >= BASIS_POINTS then Err(WorstCaseSpreadInvalid)
    else Ok(())
  }

  /** With no drop a quote refreshes within one period plus the landing latency, which must
      come before it expires. */
  function ValidateEnvelope(e: Envelope, expire: u64): Result<(), ConfigError> {
    if e.maxPeriod == 0 || e.minSuccessBps == 0 || e.minSuccessBps > BASIS_POINTS || e.maxLatency >= expire then
      Err(QuoteUpdateEnvelopeInvalid)
    else if e.maxPeriod + e.maxLatency >= TWO_64 || e.maxPeriod + e.maxLatency >= expire then
      Err(QuoteUpdateEnvelopeInvalid)
    else Ok(())
  }

  function ValidateBudget(b: AccountBudget): Result<(), ConfigError> {
    if b.required == 0 || b.max == 0 || b.required < REQUIRED_SWAP_ACCOUNT_METAS || b.required > b.max then
      Err(AccountBudgetInvalid)
    else Ok(())
  }

  function Pow10(n: nat): (r: nat)
    ensures r >= 1
  {
    if n == 0 then 1 else 10 * Pow10(n - 1)
  }

  datatype DecimalScale = DecimalScale(factor: u128, quoteGeBase: bool)

  function NewDecimalScale(baseDecimals: u8, quoteDecimals: u8): Result<DecimalScale, MathError> {
    if baseDecimals > MAX_DECIMALS || quoteDecimals > MAX_DECIMALS then Err(DecimalsOutOfRange)
    else
      var factor :- MulDiv(Pow10(Abs(quoteDecimals - baseDecimals)), Q64, 1);
      Ok(DecimalScale(factor, quoteDecimals >= baseDecimals))
  }

  /** The compiler's checks; the compiled configuration is the input itself. */
  function Compile(input: ConfigInput): Result<ConfigInput, ConfigError> {
    var _ :- ValidateParams(input.strategy.params);
    var _ :- ValidateEnvelope(input.strategy.envelope, input.strategy.params.expire);
    var _ :- ValidateBudget(input.budget);
    match NewDecimalScale(input.pair.baseDecimals, input.pair.quoteDecimals)
    case Err(error) => Err(DecimalScaleInvalid(error))
    case Ok(_) => Ok(input)
  }

  /** Compiled parameters meet everything the quote demands of its parameters, and their
      worst spread stays inside the envelope in which no quote can fail as misconfigured. */
  lemma CompiledParamsAreSafe(p: Params)
    requires ValidateParams(p).Ok?
    ensures ReferenceQuote.ValidParams(p) && ReferenceLaws.SpreadEnvelope(p) && 0 < p.hardBandBps <= BASIS_POINTS
  {
  }

  lemma {:induction false} Pow10Bound(n: nat)
    requires n <= MAX_DECIMALS
    ensures Pow10(n) <= 1_000_000_000_000
    decreases MAX_DECIMALS - n
  {
    if n == MAX_DECIMALS {
      assert Pow10(4) == 10_000;
      assert Pow10(8) == 100_000_000;
    } else {
      Pow10Bound(n + 1);
    }
  }

  /** Exactly which inputs compile. */
  lemma CompilesWhen(input: ConfigInput)
    ensures Compile(input).Ok?
       <==> var p, e, b := input.strategy.params, input.strategy.envelope, input.budget;
            && ReferenceQuote.ValidParams(p) && p.surchargePerSlot < BASIS_POINTS && ReferenceLaws.SpreadEnvelope(p)
            && 0 < p.hardBandBps <= BASIS_POINTS
            && 0 < e.maxPeriod && 0 < e.minSuccessBps <= BASIS_POINTS && e.maxPeriod + e.maxLatency < p.expire
            && REQUIRED_SWAP_ACCOUNT_METAS <= b.required <= b.max
            && input.pair.baseDecimals <= MAX_DECIMALS && input.pair.quoteDecimals <= MAX_DECIMALS
    ensures Compile(input).Ok? ==> Compile(input).value == input
  {
    if input.pair.baseDecimals <= MAX_DECIMALS && input.pair.quoteDecimals <= MAX_DECIMALS {
      Pow10Bound(Abs(input.pair.quoteDecimals - input.pair.baseDecimals));
    }
  }

  function RateOf(p: Params, field: BpsField): u16 {
    match field
    case Fee => p.feeBps
    case BaseHalfSpread => p.baseHalfSpreadBps
    case AgingSurchargePerSlot => p.surchargePerSlot
    case MaxAgingSurcharge => p.maxSurcharge
    case InventorySkewPer10k => p.skewPer10k
    case MaxInventorySkew => p.maxSkew
  }

  /** Every rejection names a fault that the parameters have; a rate is named before anything
      else is looked at. */
  lemma ParamErrorsAreTrue(p: Params)
    requires ValidateParams(p).Err?
    ensures match ValidateParams(p).error
            case BpsOutOfRange(field) => RateOf(p, field) >= BASIS_POINTS
            case SlotWindowInvalid => !(p.agingStart <= p.protectedStart < p.expire)
            case TradeLimitInvalid => !(0 < p.protectedMaxTrade <= p.maxTrade)
            case InventoryBandInvalid => !(0 < p.hardBandBps <= BASIS_POINTS)
            case WorstCaseSpreadInvalid => !ReferenceLaws.SpreadEnvelope(p)
            case _ => false
    ensures ValidateParams(p).error.BpsOutOfRange? <==> exists field :: RateOf(p, field) >= BASIS_POINTS
  {
    assert RateOf(p, Fee) == p.feeBps && RateOf(p, BaseHalfSpread) == p.baseHalfSpreadBps
        && RateOf(p, AgingSurchargePerSlot) == p.surchargePerSlot && RateOf(p, MaxAgingSurcharge) == p.maxSurcharge
        && RateOf(p, InventorySkewPer10k) == p.skewPer10k && RateOf(p, MaxInventorySkew) == p.maxSkew;
  }

  // ---- Price scales ----

  /** Human price to atom price and back. */
  function HumanToAtom(scale: DecimalScale, price: u128): Result<u128, MathError> {
    if scale.quoteGeBase then MulDiv(price, scale.factor, Q64) else MulDiv(price, Q64, scale.factor)
  }

  function AtomToHuman(scale: DecimalScale, price: u128): Result<u128, MathError> {
    if scale.quoteGeBase then MulDiv(price, Q64, scale.factor) else MulDiv(price, scale.factor, Q64)
  }

  /** A price survives the trip to atoms and back unchanged exactly when the quote token has at
      least as many decimals or the scale factor divides the price; what it loses otherwise
      is its remainder by the factor. */
  lemma PriceRoundTrip(baseDecimals: u8, quoteDecimals: u8, price: u128)
    requires NewDecimalScale(baseDecimals, quoteDecimals).Ok?
    requires HumanToAtom(NewDecimalScale(baseDecimals, quoteDecimals).value, price).Ok?
    ensures var scale := NewDecimalScale(baseDecimals, quoteDecimals).value;
            var back := AtomToHuman(scale, HumanToAtom(scale, price).value);
            var ten := Pow10(Abs(quoteDecimals - baseDecimals));
            && back.Ok?
            && (back.value == price <==> scale.quoteGeBase || price % ten == 0)
            && back.value == if scale.quoteGeBase then price else price - price % ten
  {
    var ten := Pow10(Abs(quoteDecimals - baseDecimals));
    var scale := NewDecimalScale(baseDecimals, quoteDecimals).value;
    assert scale.factor == ten * Q64;
    var atom := HumanToAtom(scale, price).value;
    hide Pow10, NewDecimalScale;
    if scale.quoteGeBase {
      ScaleUp(price, ten);
    } else {
      ScaleDown(price, ten);
    }
  }

  /** A human price in atoms: multiplied by the power of ten between the decimals when the quote
      token has more of them, divided by it, rounded down, when it has fewer. */
  lemma HumanToAtomMeaning(baseDecimals: u8, quoteDecimals: u8, price: u128)
    requires NewDecimalScale(baseDecimals, quoteDecimals).Ok?
    requires HumanToAtom(NewDecimalScale(baseDecimals, quoteDecimals).value, price).Ok?
    ensures var atom := HumanToAtom(NewDecimalScale(baseDecimals, quoteDecimals).value, price).value;
            if quoteDecimals >= baseDecimals then atom == price * Pow10(quoteDecimals - baseDecimals)
            else
              var ten := Pow10(baseDecimals - quoteDecimals);
              atom * ten <= price < atom * ten + ten
  {
    var ten := Pow10(Abs(quoteDecimals - baseDecimals));
    var scale := NewDecimalScale(baseDecimals, quoteDecimals).value;
    assert scale.factor == ten * Q64;
    hide Pow10, NewDecimalScale;
    if scale.quoteGeBase {
      ScaleUp(price, ten);
    } else {
      ScaleDown(price, ten);
      assert 0 <= price % ten < ten;
    }
  }

  lemma ScaleUp(price: nat, ten: nat)
    requires ten > 0
    ensures price * (ten * Q64) / Q64 == price * ten
    ensures price * ten * Q64 / (ten * Q64) == price
  {
    DivUnique(price * (ten * Q64), Q64, price * ten);
    assert price * (ten * Q64) == price * ten * Q64;
    DivUnique(price * ten * Q64, ten * Q64, price);
  }

  lemma ScaleDown(price: nat, ten: nat)
    requires ten > 0
    ensures var atom := price * Q64 / (ten * Q64);
            && atom * (ten * Q64) / Q64 == atom * ten
            && atom * ten == price - price % ten
  {
    var atom := price * Q64 / (ten * Q64);
    DivBounds(price * Q64, ten * Q64);
    assert atom * (ten * Q64) == (atom * ten) * Q64;
    DivUnique(atom * (ten * Q64), Q64, atom * ten);
    MulLeCancel(atom * ten, price, Q64);
    RemainderIs(price, ten, atom);
  }

  lemma RemainderIs(price: nat, ten: nat, atom: nat)
    requires ten > 0 && atom * ten <= price < atom * ten + ten
    ensures atom * ten == price - price % ten
  {
    DivUnique(price, ten, atom);
  }
}
