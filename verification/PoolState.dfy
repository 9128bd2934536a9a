/** The on-chain pool as a transition system: its accounts as values, and what every
    instruction makes of them. A failed instruction leaves no trace. */
module PoolState {
  import opened Numbers
  import opened ReferenceQuote
  import opened ConfigCompiler
  import opened ConfigBytes

  const MAX_CURVE_SLOTS: int := 16
  const PADDING_LEN: int := 5
  const NO_KEY: Key := Zeros(32)

  type Padding = b: Bytes | |b| == PADDING_LEN witness Zeros(5)

  type Record = b: Bytes | |b| == ACCOUNT_LEN witness Zeros(448)

  datatype ProgramError =
    | AccountInUse
    | AccountNotInitialized
    | InvalidReferenceQuoteConfig
    | InvalidSameSlotUpdateOrder
    | UnauthorizedPoolAuthority
    | InvalidQuoteAuthority
    | UnauthorizedQuoteUpdate
    | InvalidReferenceQuotePrice
    | NonMonotonicQuoteSequence
    | StaleQuotePublishSlot
    | FutureQuotePublishSlot
    | QuoteStateOrderMismatch
    | VaultPaused
    | EmptyFundingAmount
    | PoolConfigPaused
    | QuoteStatePaused
    | QuoteNotInitialized
    | QuoteSequenceMismatch
    | InvalidSwapAmount
    | EmptyLiquidityError
    | InvalidMinimumAmountOut
    | SlippageExceeded
    | UninitializedInventoryTarget
    | VaultInventoryOverflow
    | StaleReferenceQuote
    | ProtectedQuoteTradeLimit
    | InventoryBandExceeded
    | SwapMathFailed
    | InvalidReferenceQuoteSpread
    | InvalidCurveSlot
    | InvalidCurveHash
    | NonMonotonicCurveSequence
    | CurveHashMismatch
    | TransferOverflow

  type Outcome<T> = Result<T, ProgramError>

  // ---- Accounts ----

  datatype ConfigView = ConfigView(live: bool, authority: Key, paused: bool, layout: Record)

  datatype QuoteView = QuoteView(live: bool, authority: Key, paused: bool, order: u8, padding: Padding, midPrice: u128,
                                 publishSlot: u64, sequence: u64, lastUpdateSlot: u64)

  datatype CurveView = CurveView(live: bool, authority: Key, activeSlot: u8, pendingSlot: u8, pendingHash: Key,
                                 sequence: u64)

  datatype VaultView = VaultView(live: bool, authority: Key, paused: bool, target: u64)

  datatype Pool = Pool(config: ConfigView, quote: QuoteView, curve: CurveView, vault: VaultView, base: u64,
                       quoteVault: u64)

  const NEW_POOL := Pool(ConfigView(false, NO_KEY, false, Zeros(ACCOUNT_LEN)),
                         QuoteView(false, NO_KEY, false, 0, Zeros(5), 0, 0, 0, 0),
                         CurveView(false, NO_KEY, 0, 0, NO_KEY, 0),
                         VaultView(false, NO_KEY, false, 0), 0, 0)

  // ---- Instructions ----

  datatype EnvelopeArgs = EnvelopeArgs(maxPeriod: u64, maxLatency: u64, minSuccessBps: u16, order: u8)

  datatype UpdateArgs = UpdateArgs(midPrice: u128, publishSlot: u64, sequence: u64)

  datatype SwapArgs = SwapArgs(amountIn: u64, minimumOut: u64, expectedSequence: u64, baseToQuote: bool)

  datatype Instruction =
    | InitializePool(params: Params, envelope: EnvelopeArgs, budget: AccountBudget, pair: TokenPair, bump: u8)
    | InitializeQuoteState(quoteAuthority: Key)
    | UpdateQuote(args: UpdateArgs)
    | UpdateQuoteV2(args: UpdateArgs, spreadBps: u16)
    | PausePool(paused: bool)
    | InitializeCurveSlots
    | StageCurve(slot: u8, hash: Key, sequence: u64)
    | ActivateCurve(slot: u8, hash: Key, sequence: u64)
    | InitializeVaults
    | FundPool(baseAmount: u64, quoteAmount: u64)
    | SwapExactIn(swap: SwapArgs)
    /** Tokens sent straight to the vaults, around the program. */
    | Donate(baseAmount: u64, quoteAmount: u64)

  datatype Transaction = Transaction(signer: Key, slot: u64, instruction: Instruction)

  // ---- The config account ----

  function ToEnvelope(args: EnvelopeArgs): Outcome<Envelope> {
    if args.order == 0 then Ok(Envelope(args.maxPeriod, args.maxLatency, args.minSuccessBps, UpdateBeforeSwap))
    else if args.order == 1 then Ok(Envelope(args.maxPeriod, args.maxLatency, args.minSuccessBps, SwapBeforeUpdate))
    else Err(InvalidSameSlotUpdateOrder)
  }

  function OrderOf(layout: Record): Outcome<u8> {
    if layout[SAME_SLOT_ORDER_OFFSET] <= 1 then Ok(layout[SAME_SLOT_ORDER_OFFSET])
    else Err(InvalidSameSlotUpdateOrder)
  }

  function AfterInitializePool(c: ConfigView, signer: Key, params: Params, args: EnvelopeArgs, budget: AccountBudget,
                               pair: TokenPair, bump: u8): Outcome<ConfigView> {
    if c.live then Err(AccountInUse)
    else
      var envelope :- ToEnvelope(args);
      match Compile(ConfigInput(Strategy(params, envelope), pair, budget))
      case Err(_) => Err(InvalidReferenceQuoteConfig)
      case Ok(config) =>
        AccountReadsBack(Account(config, bump, false));
        Ok(ConfigView(true, signer, false, Layout(Account(config, bump, false))))
  }

  /** Instructions reserved to the authority of a live pool. */
  function CheckAuthority(c: ConfigView, signer: Key): Outcome<()> {
    if !c.live then Err(AccountNotInitialized)
    else if c.authority != signer then Err(UnauthorizedPoolAuthority)
    else Ok(())
  }

  // ---- The quote account ----

  /** The stored half spread: two little-endian bytes and a marker, inside the padding. */
  function StoreSpread(padding: Padding, spreadBps: u16): Padding {
    Le(spreadBps, 2) + [1] + padding[3..]
  }

  function StoredSpread(padding: Padding, fallback: u16): u16 {
    if padding[2] == 1 then U16At(padding, 0) else fallback
  }

  function AfterInitializeQuote(q: QuoteView, c: ConfigView, quoteAuthority: Key): Outcome<QuoteView> {
    if q.live then Err(AccountInUse)
    else if quoteAuthority == NO_KEY then Err(InvalidQuoteAuthority)
    else
      var order :- OrderOf(c.layout);
      var padding := StoreSpread(Zeros(5), ParamsAt(c.layout).baseHalfSpreadBps);
      Ok(QuoteView(true, quoteAuthority, false, order, padding, 0, 0, 0, 0))
  }

  function AfterUpdate(q: QuoteView, poolAuthority: Key, signer: Key, args: UpdateArgs, slot: u64): Outcome<QuoteView> {
    if signer != poolAuthority && signer != q.authority then Err(UnauthorizedQuoteUpdate)
    else if args.midPrice == 0 then Err(InvalidReferenceQuotePrice)
    else if args.sequence <= q.sequence then Err(NonMonotonicQuoteSequence)
    else if args.publishSlot < q.publishSlot then Err(StaleQuotePublishSlot)
    else if args.publishSlot > slot then Err(FutureQuotePublishSlot)
    else Ok(q.(midPrice := args.midPrice, publishSlot := args.publishSlot, sequence := args.sequence,
               lastUpdateSlot := slot))
  }

  function CheckOrder(q: QuoteView, c: ConfigView): Outcome<()> {
    var order :- OrderOf(c.layout);
    if q.order != order then Err(QuoteStateOrderMismatch) else Ok(())
  }

  function CheckSpread(spreadBps: u16, p: Params): Outcome<()> {
    if spreadBps + p.maxSurcharge + p.maxSkew < BASIS_POINTS then Ok(()) else Err(InvalidReferenceQuoteSpread)
  }

  function CheckUsable(q: QuoteView, order: u8, expectedSequence: u64, slot: u64): Outcome<()> {
    if q.paused then Err(QuoteStatePaused)
    else if q.order != order then Err(QuoteStateOrderMismatch)
    else if q.midPrice == 0 || q.sequence == 0 then Err(QuoteNotInitialized)
    else if q.sequence != expectedSequence then Err(QuoteSequenceMismatch)
    else if q.publishSlot > slot then Err(FutureQuotePublishSlot)
    else Ok(())
  }

  // ---- The curve-slot account ----

  function AfterStage(c: CurveView, slot: u8, hash: Key, sequence: u64): Outcome<CurveView> {
    if slot >= MAX_CURVE_SLOTS then Err(InvalidCurveSlot)
    else if hash == NO_KEY then Err(InvalidCurveHash)
    else if sequence <= c.sequence then Err(NonMonotonicCurveSequence)
    else Ok(c.(pendingSlot := slot, pendingHash := hash, sequence := sequence))
  }

  function AfterActivate(c: CurveView, slot: u8, hash: Key, sequence: u64): Outcome<CurveView> {
    if slot >= MAX_CURVE_SLOTS then Err(InvalidCurveSlot)
    else if sequence <= c.sequence then Err(NonMonotonicCurveSequence)
    else if c.pendingSlot != slot || c.pendingHash != hash then Err(CurveHashMismatch)
    else Ok(c.(activeSlot := slot, pendingHash := NO_KEY, sequence := sequence))
  }

  function CheckCurve(p: Pool, signer: Key): Outcome<()> {
    var _ :- CheckAuthority(p.config, signer);
    if !p.curve.live then Err(AccountNotInitialized)
    else if p.curve.authority != signer then Err(UnauthorizedPoolAuthority)
    else Ok(())
  }

  // ---- Vaults ----

  /** The target grows with base funding; the first funding adopts what the vault already held. */
  function AfterFunding(v: VaultView, vaultBefore: u64, baseAmount: u64): Outcome<VaultView> {
    var start := if v.target == 0 then vaultBefore else v.target;
    if baseAmount == 0 then Ok(v)
    else if start + baseAmount >= TWO_64 then Err(VaultInventoryOverflow)
    else Ok(v.(target := start + baseAmount))
  }

  function Credit(balance: u64, amount: u64): Outcome<u64> {
    if balance + amount < TWO_64 then Ok(balance + amount) else Err(TransferOverflow)
  }

  function AfterFund(p: Pool, signer: Key, baseAmount: u64, quoteAmount: u64): Outcome<Pool> {
    var _ :- CheckAuthority(p.config, signer);
    if !p.vault.live then Err(AccountNotInitialized)
    else if p.vault.paused then Err(VaultPaused)
    else if baseAmount == 0 && quoteAmount == 0 then Err(EmptyFundingAmount)
    else
      var base :- Credit(p.base, baseAmount);
      var quote :- Credit(p.quoteVault, quoteAmount);
      var vault :- AfterFunding(p.vault, p.base, baseAmount);
      Ok(p.(base := base, quoteVault := quote, vault := vault))
  }

  // ---- Swaps ----

  function MapSwapError(error: MathError): ProgramError {
    match error
    case InvalidAmount => InvalidSwapAmount
    case EmptyLiquidity => EmptyLiquidityError
    case PoolPaused => PoolConfigPaused
    case StaleQuote => StaleReferenceQuote
    case QuoteProtected => ProtectedQuoteTradeLimit
    case InventoryBand => InventoryBandExceeded
    case InvalidConfig => InvalidReferenceQuoteConfig
    case _ => SwapMathFailed
  }

  function QuoteInputs(p: Pool, slot: u64): State {
    State(p.base, p.quoteVault, p.vault.target, p.quote.midPrice, p.quote.publishSlot, slot,
          p.config.paused || p.quote.paused || p.vault.paused)
  }

  /** The configured parameters with the half spread the quote account carries. */
  function SwapParams(p: Pool): Params {
    var params := ParamsAt(p.config.layout);
    params.(baseHalfSpreadBps := StoredSpread(p.quote.padding, params.baseHalfSpreadBps))
  }

  function CheckSwapArgs(args: SwapArgs): Outcome<()> {
    if args.amountIn == 0 then Err(InvalidSwapAmount)
    else if args.minimumOut == 0 then Err(InvalidMinimumAmountOut)
    else if args.expectedSequence == 0 then Err(QuoteNotInitialized)
    else Ok(())
  }

  /** Everything a swap checks before it asks for a price. */
  function CheckSwap(p: Pool, slot: u64, args: SwapArgs): Outcome<()> {
    if !p.config.live || !p.quote.live || !p.vault.live then Err(AccountNotInitialized)
    else if p.vault.paused then Err(VaultPaused)
    else
      var _ :- CheckSwapArgs(args);
      var order :- OrderOf(p.config.layout);
      var _ :- CheckUsable(p.quote, order, args.expectedSequence, slot);
      if p.config.paused then Err(PoolConfigPaused)
      else if p.vault.target == 0 then Err(UninitializedInventoryTarget)
      else Ok(())
  }

  function AfterSwap(p: Pool, slot: u64, args: SwapArgs): Outcome<Pool> {
    var _ :- CheckSwap(p, slot, args);
    match ReferenceQuote.QuoteExactIn(QuoteInputs(p, slot), SwapParams(p), args.amountIn, args.baseToQuote)
    case Err(error) => Err(MapSwapError(error))
    case Ok(quote) =>
      if quote.amountOut < args.minimumOut then Err(SlippageExceeded)
      else if args.baseToQuote then Moved(p, args.amountIn, 0, 0, quote.amountOut)
      else Moved(p, 0, quote.amountOut, args.amountIn, 0)
  }

  /** Token transfers into and out of the two vaults. */
  function Moved(p: Pool, baseIn: u64, baseOut: u64, quoteIn: u64, quoteOut: u64): Outcome<Pool> {
    var base :- Credit(p.base, baseIn);
    var quote :- Credit(p.quoteVault, quoteIn);
    if base < baseOut || quote < quoteOut then Err(TransferOverflow)
    else Ok(p.(base := base - baseOut, quoteVault := quote - quoteOut))
  }

  // ---- Steps and runs ----

  function Step(p: Pool, tx: Transaction): Outcome<Pool> {
    match tx.instruction
    case InitializePool(params, envelope, budget, pair, bump) =>
      var config :- AfterInitializePool(p.config, tx.signer, params, envelope, budget, pair, bump);
      Ok(p.(config := config))
    case InitializeQuoteState(quoteAuthority) =>
      var _ :- CheckAuthority(p.config, tx.signer);
      var quote :- AfterInitializeQuote(p.quote, p.config, quoteAuthority);
      Ok(p.(quote := quote))
    case UpdateQuote(args) => AfterUpdateQuote(p, tx.signer, args, tx.slot)
    case UpdateQuoteV2(args, spreadBps) => AfterUpdateQuoteV2(p, tx.signer, args, spreadBps, tx.slot)
    case PausePool(paused) =>
      var _ :- CheckAuthority(p.config, tx.signer);
      Ok(p.(config := p.config.(paused := paused)))
    case InitializeCurveSlots =>
      var _ :- CheckAuthority(p.config, tx.signer);
      if p.curve.live then Err(AccountInUse) else Ok(p.(curve := CurveView(true, tx.signer, 0, 0, NO_KEY, 0)))
    case StageCurve(slot, hash, sequence) =>
      var _ :- CheckCurve(p, tx.signer);
      var curve :- AfterStage(p.curve, slot, hash, sequence);
      Ok(p.(curve := curve))
    case ActivateCurve(slot, hash, sequence) =>
      var _ :- CheckCurve(p, tx.signer);
      var curve :- AfterActivate(p.curve, slot, hash, sequence);
      Ok(p.(curve := curve))
    case InitializeVaults =>
      var _ :- CheckAuthority(p.config, tx.signer);
      if p.vault.live then Err(AccountInUse)
      else Ok(p.(vault := VaultView(true, tx.signer, false, 0), base := 0, quoteVault := 0))
    case FundPool(baseAmount, quoteAmount) => AfterFund(p, tx.signer, baseAmount, quoteAmount)
    case SwapExactIn(args) => AfterSwap(p, tx.slot, args)
    case Donate(baseAmount, quoteAmount) =>
      if !p.vault.live then Err(AccountNotInitialized) else Moved(p, baseAmount, 0, quoteAmount, 0)
  }

  function AfterUpdateQuote(p: Pool, signer: Key, args: UpdateArgs, slot: u64): Outcome<Pool> {
    if !p.config.live || !p.quote.live then Err(AccountNotInitialized)
    else
      var _ :- CheckOrder(p.quote, p.config);
      var quote :- AfterUpdate(p.quote, p.config.authority, signer, args, slot);
      Ok(p.(quote := quote))
  }

  function AfterUpdateQuoteV2(p: Pool, signer: Key, args: UpdateArgs, spreadBps: u16, slot: u64): Outcome<Pool> {
    if !p.config.live || !p.quote.live then Err(AccountNotInitialized)
    else
      var _ :- CheckOrder(p.quote, p.config);
      var _ :- CheckSpread(spreadBps, ParamsAt(p.config.layout));
      var quote :- AfterUpdate(p.quote, p.config.authority, signer, args, slot);
      Ok(p.(quote := quote.(padding := StoreSpread(quote.padding, spreadBps))))
  }
}
