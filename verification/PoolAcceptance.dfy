/** Exactly which instructions a reachable pool accepts, and what a refused swap was refused for. */
module PoolAcceptance {
  import opened Numbers
  import opened FixedPoint
  import opened ReferenceQuote
  import opened ReferenceLaws
  import opened ConfigCompiler
  import opened ConfigBytes
  import opened PoolState
  import opened PoolLaws

  // ---- Setting up ----

  /** A pool can be founded once, by anyone, with whatever the compiler accepts. */
  lemma FoundingAcceptedExactly(p: Pool, tx: Transaction)
    requires tx.instruction.InitializePool?
    ensures var i := tx.instruction;
            Step(p, tx).Ok?
            <==> && !p.config.live && i.envelope.order <= 1
                 && var order := if i.envelope.order == 0 then UpdateBeforeSwap else SwapBeforeUpdate;
                    var e := Envelope(i.envelope.maxPeriod, i.envelope.maxLatency, i.envelope.minSuccessBps, order);
                    Compile(ConfigInput(Strategy(i.params, e), i.pair, i.budget)).Ok?
  {
    hide Compile, Layout;
  }

  /** The three accounts of a pool open once each, for its authority. */
  lemma OpeningAcceptedExactly(p: Pool, tx: Transaction)
    requires Safe(p)
    ensures tx.instruction.InitializeQuoteState? ==>
              (Step(p, tx).Ok? <==> p.config.live && tx.signer == p.config.authority && !p.quote.live
                                    && tx.instruction.quoteAuthority != NO_KEY)
    ensures tx.instruction.InitializeCurveSlots? ==>
              (Step(p, tx).Ok? <==> p.config.live && tx.signer == p.config.authority && !p.curve.live)
    ensures tx.instruction.InitializeVaults? ==>
              (Step(p, tx).Ok? <==> p.config.live && tx.signer == p.config.authority && !p.vault.live)
    ensures tx.instruction.PausePool? ==> (Step(p, tx).Ok? <==> p.config.live && tx.signer == p.config.authority)
  {
    hide ParamsAt, StoreSpread, ValidateParams, SafeQuote;
  }

  // ---- Quotes ----

  /** In a safe pool an update is accepted if and only if one of the two authorities signed it, its
      price is positive, its sequence is new, it was published no earlier than the one in use
      and no later than now, and a spread it brings leaves room for surcharge and skew. */
  lemma UpdateAcceptedExactly(p: Pool, tx: Transaction)
    requires Safe(p) && (tx.instruction.UpdateQuote? || tx.instruction.UpdateQuoteV2?)
    ensures var args, params := tx.instruction.args, ParamsAt(p.config.layout);
            Step(p, tx).Ok?
            <==> && p.quote.live && tx.signer in {p.config.authority, p.quote.authority}
                 && 0 < args.midPrice && p.quote.sequence < args.sequence
                 && p.quote.publishSlot <= args.publishSlot <= tx.slot
                 && (tx.instruction.UpdateQuoteV2? ==>
                       tx.instruction.spreadBps + params.maxSurcharge + params.maxSkew < BASIS_POINTS)
  {
    hide ParamsAt, StoreSpread, U16At, ValidateParams;
  }

  // ---- Curves ----

  /** Staging takes a known slot and a non-zero hash, activation the slot and the hash that are
      pending; both take a new sequence and the authority of the pool. */
  lemma CurveAcceptedExactly(p: Pool, tx: Transaction)
    ensures tx.instruction.StageCurve? ==>
              (Step(p, tx).Ok?
               <==> && CurveIsOpen(p, tx.signer) && p.curve.sequence < tx.instruction.sequence
                    && tx.instruction.slot < MAX_CURVE_SLOTS && tx.instruction.hash != NO_KEY)
    ensures tx.instruction.ActivateCurve? ==>
              (Step(p, tx).Ok?
               <==> && CurveIsOpen(p, tx.signer) && p.curve.sequence < tx.instruction.sequence
                    && tx.instruction.slot < MAX_CURVE_SLOTS
                    && tx.instruction.slot == p.curve.pendingSlot && tx.instruction.hash == p.curve.pendingHash)
  {
  }

  predicate CurveIsOpen(p: Pool, signer: Key) {
    p.config.live && p.curve.live && signer == p.config.authority == p.curve.authority
  }

  // ---- Funds ----

  /** Funding takes the authority, some amount, and room for it in both vaults and in the target. */
  lemma FundingAcceptedExactly(p: Pool, tx: Transaction)
    requires Safe(p) && tx.instruction.FundPool?
    ensures var baseAmount, quoteAmount := tx.instruction.baseAmount, tx.instruction.quoteAmount;
            Step(p, tx).Ok?
            <==> && p.config.live && p.vault.live && tx.signer == p.config.authority
                 && (baseAmount > 0 || quoteAmount > 0)
                 && p.base + baseAmount < TWO_64 && p.quoteVault + quoteAmount < TWO_64
                 && (baseAmount > 0 ==> p.vault.target + baseAmount < TWO_64)
  {
    hide ParamsAt, ValidateParams, SafeQuote;
  }

  // ---- Swaps ----

  /** What a swap in a safe pool needs before a price is asked for. */
  predicate SwapIsDue(p: Pool, slot: u64, args: SwapArgs) {
    && p.config.live && p.quote.live && p.vault.live && !p.config.paused && 0 < p.vault.target
    && 0 < args.amountIn && 0 < args.minimumOut
    && args.expectedSequence == p.quote.sequence > 0 && p.quote.publishSlot <= slot
  }

  lemma DueExactly(p: Pool, slot: u64, args: SwapArgs)
    requires Safe(p)
    ensures CheckSwap(p, slot, args).Ok? <==> SwapIsDue(p, slot, args)
  {
    hide ParamsAt, U16At, ValidateParams;
  }

  /** A swap is accepted if and only if it is due, the price can be quoted and the output is at
      least the minimum: the transfers behind the quote never fail. */
  lemma SwapAcceptedExactly(p: Pool, slot: u64, args: SwapArgs)
    requires Safe(p)
    ensures var quoted := ReferenceQuote.QuoteExactIn(QuoteInputs(p, slot), SwapParams(p), args.amountIn,
                                                      args.baseToQuote);
            AfterSwap(p, slot, args).Ok?
            <==> SwapIsDue(p, slot, args) && quoted.Ok? && args.minimumOut <= quoted.value.amountOut
  {
    DueExactly(p, slot, args);
    InputsOfSwap(p, slot);
    var s, params := QuoteInputs(p, slot), SwapParams(p);
    hide CheckSwap, QuoteInputs, SwapParams, ReferenceQuote.QuoteExactIn, Safe, SwapIsDue;
    if ReferenceQuote.QuoteExactIn(s, params, args.amountIn, args.baseToQuote).Ok? {
      QuoteSettles(s, params, args.amountIn, args.baseToQuote);
    }
  }

  /** Why a due swap is refused. In this order: a vault is empty, the quote has expired, the order
      is too small or too large for the age of the quote, the quote has some other fault, or the
      output is below the minimum. */
  lemma SwapRefusedFor(p: Pool, slot: u64, args: SwapArgs)
    requires Safe(p) && SwapIsDue(p, slot, args)
    ensures var r, params, s := AfterSwap(p, slot, args), SwapParams(p), QuoteInputs(p, slot);
            var quoted := ReferenceQuote.QuoteExactIn(s, params, args.amountIn, args.baseToQuote);
            && (r == Err(EmptyLiquidityError) <==> p.base == 0 || p.quoteVault == 0)
            && (r == Err(StaleReferenceQuote)
                <==> p.base > 0 && p.quoteVault > 0 && p.quote.publishSlot + params.expire <= slot)
            && (r == Err(ProtectedQuoteTradeLimit)
                <==> && p.base > 0 && p.quoteVault > 0
                     && params.protectedStart <= slot - p.quote.publishSlot < params.expire
                     && var size := BaseEquivalent(p.quote.midPrice, args.amountIn, args.baseToQuote);
                        size.Ok? && !(0 < size.value <= params.protectedMaxTrade))
            && (r == Err(InventoryBandExceeded) <==> quoted == Err(InventoryBand))
            && (r == Err(SwapMathFailed) <==> quoted.Err? && quoted.error in {Overflow, DivByZero})
            && (r == Err(SlippageExceeded) <==> quoted.Ok? && quoted.value.amountOut < args.minimumOut)
  {
    DueExactly(p, slot, args);
    InputsOfSwap(p, slot);
    SwapParamsAreSafe(p);
    SwapAcceptedExactly(p, slot, args);
    var s, params := QuoteInputs(p, slot), SwapParams(p);
    SwapIsLive(p, slot, args);
    EnvelopeNeverInvalid(s, params, args.amountIn, args.baseToQuote);
    QuoteRefusedFor(s, params, args.amountIn, args.baseToQuote);
    hide CheckSwap, QuoteInputs, SwapParams, ReferenceQuote.QuoteExactIn, Safe, SwapIsDue, BaseEquivalent, ValidParams;
  }

  lemma SwapIsLive(p: Pool, slot: u64, args: SwapArgs)
    requires Safe(p) && SwapIsDue(p, slot, args)
    ensures !QuoteInputs(p, slot).paused && 0 < args.amountIn && 0 < p.vault.target && p.quote.publishSlot <= slot
  {
  }

  lemma QuoteRefusedFor(s: State, p: Params, amountIn: u64, baseToQuote: bool)
    requires ValidParams(p) && 0 < amountIn && 0 < s.targetBase && !s.paused
    ensures var r, size := ReferenceQuote.QuoteExactIn(s, p, amountIn, baseToQuote),
                           BaseEquivalent(s.midPrice, amountIn, baseToQuote);
            && (r == Err(EmptyLiquidity) <==> s.baseInventory == 0 || s.quoteInventory == 0)
            && (r == Err(StaleQuote) <==> s.baseInventory > 0 && s.quoteInventory > 0 && p.expire <= Elapsed(s))
            && (r == Err(QuoteProtected)
                <==> && s.baseInventory > 0 && s.quoteInventory > 0 && p.protectedStart <= Elapsed(s) < p.expire
                     && size.Ok? && !(0 < size.value <= p.protectedMaxTrade))
  {
    AgeStateIs(s, p);
    if Elapsed(s) < p.expire {
      CapMeaning(s, p);
    }
    hide AgeStateOf, BaseEquivalent, MaxTradeFor, AmountLessFee, EffectivePrice, MulAmountFloor, DivAmountFloor,
         ImbalanceBps, SkewBps, SpreadBps, ValidParams;
  }
}
