/** What holds in every state a pool can reach, under any interleaving of instructions, and
    what a swap can and cannot do there. */
module PoolLaws {
  import opened Numbers
  import opened FixedPoint
  import opened ReferenceQuote
  import opened ReferenceLaws
  import opened RoundTrips
  import opened ConfigCompiler
  import opened ConfigBytes
  import opened PoolState

  // ---- Runs ----

  /** A failed transaction leaves the pool as it was. */
  function Apply(p: Pool, tx: Transaction): Pool {
    match Step(p, tx)
    case Ok(next) => next
    case Err(_) => p
  }

  function Run(p: Pool, txs: seq<Transaction>): Pool {
    if txs == [] then p else Apply(Run(p, txs[..|txs| - 1]), txs[|txs| - 1])
  }

  // ---- The reachable states ----

  /** The stored layout holds parameters the compiler accepts and a known same-slot order. */
  predicate SafeLayout(layout: Record) {
    ValidateParams(ParamsAt(layout)).Ok? && layout[SAME_SLOT_ORDER_OFFSET] <= 1
  }

  predicate SafeConfig(p: Pool) {
    if p.config.live then SafeLayout(p.config.layout) else !p.quote.live && !p.curve.live && !p.vault.live
  }

  /** A live quote carries a spread inside the envelope, the pool's own order, and a price
      exactly when it carries a sequence; it was never published after it landed. */
  predicate SafeQuote(q: QuoteView, layout: Record) {
    && !q.paused
    && q.publishSlot <= q.lastUpdateSlot
    && (q.sequence == 0 <==> q.midPrice == 0)
    && (q.live ==> q.order == layout[SAME_SLOT_ORDER_OFFSET]
                   && q.padding[2] == 1 && CheckSpread(U16At(q.padding, 0), ParamsAt(layout)).Ok?)
  }

  /** With nothing staged, the pending slot is the active one. */
  predicate SafeCurve(c: CurveView) {
    && c.activeSlot < MAX_CURVE_SLOTS && c.pendingSlot < MAX_CURVE_SLOTS
    && (c.pendingHash == NO_KEY ==> c.pendingSlot == c.activeSlot)
  }

  predicate SafeVault(p: Pool) {
    !p.vault.paused && (!p.vault.live ==> p.vault.target == 0)
  }

  predicate Safe(p: Pool) {
    SafeConfig(p) && SafeQuote(p.quote, p.config.layout) && SafeCurve(p.curve) && SafeVault(p)
  }

  /** Before the first base funding there is no target; after it the base vault stays inside
      the hard band around the target. */
  predicate Banded(p: Pool) {
    p.vault.target == 0 || InsideBand(p.base, p.vault.target, ParamsAt(p.config.layout).hardBandBps)
  }

  // ---- Each instruction ----

  lemma CompiledLayoutIsSafe(c: ConfigView, signer: Key, params: Params, args: EnvelopeArgs, budget: AccountBudget,
                             pair: TokenPair, bump: u8)
    requires AfterInitializePool(c, signer, params, args, budget, pair, bump).Ok?
    ensures var next := AfterInitializePool(c, signer, params, args, budget, pair, bump).value;
            && next.live && SafeLayout(next.layout)
            && ParamsAt(next.layout) == params && OrderOf(next.layout) == Ok(args.order)
  {
    var input := ConfigInput(Strategy(params, ToEnvelope(args).value), pair, budget);
    CompilesWhen(input);
    hide ValidateParams, Layout, ParamsAt;
    AccountReadsBack(Account(input, bump, false));
  }

  /** The spread written into the padding reads back, whatever it overwrote. */
  lemma SpreadReadsBack(padding: Padding, spreadBps: u16, fallback: u16)
    ensures var stored := StoreSpread(padding, spreadBps);
            stored[2] == 1 && U16At(stored, 0) == spreadBps && StoredSpread(stored, fallback) == spreadBps
            && stored[3..] == padding[3..]
  {
    WordSizes();
    LeRoundTrip(spreadBps, 2);
    var stored := StoreSpread(padding, spreadBps);
    assert stored[0..2] == Le(spreadBps, 2);
  }

  lemma InitializeQuoteKeeps(q: QuoteView, c: ConfigView, quoteAuthority: Key)
    requires SafeLayout(c.layout) && AfterInitializeQuote(q, c, quoteAuthority).Ok?
    ensures SafeQuote(AfterInitializeQuote(q, c, quoteAuthority).value, c.layout)
  {
    var params := ParamsAt(c.layout);
    hide ParamsAt;
    CompiledParamsAreSafe(params);
    SpreadReadsBack(Zeros(5), params.baseHalfSpreadBps, 0);
  }

  lemma UpdateKeeps(q: QuoteView, layout: Record, poolAuthority: Key, signer: Key, args: UpdateArgs, slot: u64)
    requires SafeQuote(q, layout) && AfterUpdate(q, poolAuthority, signer, args, slot).Ok?
    ensures SafeQuote(AfterUpdate(q, poolAuthority, signer, args, slot).value, layout)
  {
  }

  lemma UpdateV2Keeps(p: Pool, signer: Key, args: UpdateArgs, spreadBps: u16, slot: u64)
    requires Safe(p) && AfterUpdateQuoteV2(p, signer, args, spreadBps, slot).Ok?
    ensures Safe(AfterUpdateQuoteV2(p, signer, args, spreadBps, slot).value)
  {
    SpreadReadsBack(p.quote.padding, spreadBps, 0);
    hide StoreSpread, U16At, StoredSpread, ParamsAt;
  }

  lemma SwapTouchesOnlyBalances(p: Pool, slot: u64, args: SwapArgs)
    requires AfterSwap(p, slot, args).Ok?
    ensures var next := AfterSwap(p, slot, args).value;
            next == p.(base := next.base, quoteVault := next.quoteVault)
  {
    hide SwapParams, QuoteInputs, ReferenceQuote.QuoteExactIn;
  }

  /** Every instruction, by anyone, keeps a safe pool safe. */
  lemma StepKeepsSafe(p: Pool, tx: Transaction)
    requires Safe(p) && Step(p, tx).Ok?
    ensures Safe(Step(p, tx).value)
  {
    hide AfterSwap, AfterInitializePool, AfterInitializeQuote, AfterUpdate, AfterUpdateQuoteV2, ParamsAt, U16At,
         ValidateParams;
    match tx.instruction
    case InitializePool(params, envelope, budget, pair, bump) =>
      CompiledLayoutIsSafe(p.config, tx.signer, params, envelope, budget, pair, bump);
      InitializeNeedsNew(p.config, tx.signer, params, envelope, budget, pair, bump);
    case InitializeQuoteState(quoteAuthority) => InitializeQuoteKeeps(p.quote, p.config, quoteAuthority);
    case UpdateQuote(args) => UpdateKeeps(p.quote, p.config.layout, p.config.authority, tx.signer, args, tx.slot);
    case UpdateQuoteV2(args, spreadBps) => UpdateV2Keeps(p, tx.signer, args, spreadBps, tx.slot);
    case SwapExactIn(args) => SwapTouchesOnlyBalances(p, tx.slot, args);
    case _ =>
  }

  lemma InitializeNeedsNew(c: ConfigView, signer: Key, params: Params, args: EnvelopeArgs, budget: AccountBudget,
                           pair: TokenPair, bump: u8)
    requires AfterInitializePool(c, signer, params, args, budget, pair, bump).Ok?
    ensures !c.live
  {
  }

  lemma {:induction false} RunsStaySafe(p: Pool, txs: seq<Transaction>)
    requires Safe(p)
    ensures Safe(Run(p, txs))
  {
    hide Step, Safe;
    if txs != [] {
      var before, tx := Run(p, txs[..|txs| - 1]), txs[|txs| - 1];
      RunsStaySafe(p, txs[..|txs| - 1]);
      if Step(before, tx).Ok? {
        StepKeepsSafe(before, tx);
      }
    }
  }

  lemma NewPoolIsSafe()
    ensures Safe(NEW_POOL) && Banded(NEW_POOL)
  {
  }

  /** Whatever anyone sends, in whatever order, every pool stays safe. */
  lemma EveryPoolIsSafe(txs: seq<Transaction>)
    ensures Safe(Run(NEW_POOL, txs))
  {
    NewPoolIsSafe();
    hide Safe, Run, Step;
    RunsStaySafe(NEW_POOL, txs);
  }

  // ---- Settings that outlive their instruction ----

  /** A live pool keeps its authority and its stored parameters and order for ever. */
  lemma ConfigIsPermanent(p: Pool, tx: Transaction)
    requires p.config.live
    ensures Apply(p, tx).config == p.config.(paused := Apply(p, tx).config.paused)
    ensures Apply(p, tx).config.paused != p.config.paused ==>
              tx.signer == p.config.authority && tx.instruction.PausePool?
  {
    hide AfterSwap, AfterInitializeQuote, AfterUpdate, AfterUpdateQuoteV2;
    match tx.instruction
    case InitializePool(params, envelope, budget, pair, bump) =>
    case UpdateQuoteV2(args, spreadBps) => UpdateV2TouchesOnlyQuote(p, tx.signer, args, spreadBps, tx.slot);
    case SwapExactIn(args) =>
      if AfterSwap(p, tx.slot, args).Ok? {
        SwapTouchesOnlyBalances(p, tx.slot, args);
      }
    case _ =>
  }

  lemma UpdateV2TouchesOnlyQuote(p: Pool, signer: Key, args: UpdateArgs, spreadBps: u16, slot: u64)
    ensures var r := AfterUpdateQuoteV2(p, signer, args, spreadBps, slot);
            r.Ok? ==> r.value == p.(quote := r.value.quote)
                      && AfterUpdate(p.quote, p.config.authority, signer, args, slot).Ok?
                      && r.value.quote == AfterUpdate(p.quote, p.config.authority, signer, args, slot).value
                                          .(padding := StoreSpread(p.quote.padding, spreadBps))
  {
    hide StoreSpread, ParamsAt;
  }

  // ---- The inventory band ----

  /** Funding moves vault and target by the same amount, or adopts the vault as target, so it
      keeps the band. */
  lemma FundingKeepsBand(p: Pool, signer: Key, baseAmount: u64, quoteAmount: u64)
    requires AfterFund(p, signer, baseAmount, quoteAmount).Ok?
    ensures var next := AfterFund(p, signer, baseAmount, quoteAmount).value;
            && next == p.(base := next.base, quoteVault := next.quoteVault, vault := next.vault)
            && next.base == p.base + baseAmount && next.quoteVault == p.quoteVault + quoteAmount
            && next.vault == p.vault.(target := next.vault.target)
            && (p.vault.target > 0 ==> next.base - next.vault.target == p.base - p.vault.target)
            && (p.vault.target == 0 ==> next.vault.target == if baseAmount == 0 then 0 else next.base)
            && (Banded(p) ==> Banded(next))
  {
    var band: int := ParamsAt(p.config.layout).hardBandBps;
    hide ParamsAt;
    MulLe(p.vault.target, p.vault.target + baseAmount, band + 1);
    if p.vault.target == 0 {
      MulLt(0, p.base + baseAmount + 1, band + 1);
    }
  }

  /** Every accepted swap was priced by the quote: the balances it leaves are the quoted ones. */
  lemma SwapFollowsQuote(p: Pool, slot: u64, args: SwapArgs)
    requires AfterSwap(p, slot, args).Ok?
    ensures CheckSwap(p, slot, args).Ok?
    ensures var quoted := ReferenceQuote.QuoteExactIn(QuoteInputs(p, slot), SwapParams(p), args.amountIn,
                                                      args.baseToQuote);
            && quoted.Ok? && quoted.value.amountOut >= args.minimumOut
            && AfterSwap(p, slot, args).value == p.(base := quoted.value.newBase, quoteVault := quoted.value.newQuote)
  {
    hide SwapParams, QuoteInputs, ReferenceQuote.QuoteExactIn, CheckSwap;
    var s, params := QuoteInputs(p, slot), SwapParams(p);
    InputsOfSwap(p, slot);
    QuoteSettles(s, params, args.amountIn, args.baseToQuote);
  }

  lemma InputsOfSwap(p: Pool, slot: u64)
    ensures var s, params := QuoteInputs(p, slot), SwapParams(p);
            && s.baseInventory == p.base && s.quoteInventory == p.quoteVault && s.targetBase == p.vault.target
            && s.publishSlot == p.quote.publishSlot && s.nowSlot == slot && s.midPrice == p.quote.midPrice
            && params == ParamsAt(p.config.layout).(baseHalfSpreadBps := params.baseHalfSpreadBps)
  {
  }

  /** An accepted swap binds to the quote its taker named and uses it before it expires. The
      in-amount enters one vault and the quoted amount, at least the minimum, leaves the other,
      neither vault runs dry, nothing else moves, and the base vault ends inside the band even if an
      outside transfer had pushed it out before. */
  lemma SwapSettles(p: Pool, slot: u64, args: SwapArgs)
    requires AfterSwap(p, slot, args).Ok?
    ensures var next := AfterSwap(p, slot, args).value;
            && args.expectedSequence == p.quote.sequence > 0 && p.quote.midPrice > 0
            && p.quote.publishSlot <= slot < p.quote.publishSlot + ParamsAt(p.config.layout).expire
            && !p.config.paused && !p.quote.paused && !p.vault.paused
            && 0 < next.base && 0 < next.quoteVault
            && (var quoted := ReferenceQuote.QuoteExactIn(QuoteInputs(p, slot), SwapParams(p), args.amountIn,
                                                          args.baseToQuote);
                && quoted.Ok? && args.minimumOut <= quoted.value.amountOut
                && (if args.baseToQuote then
                      next.base == p.base + args.amountIn && next.quoteVault == p.quoteVault - quoted.value.amountOut
                    else
                      next.base == p.base - quoted.value.amountOut && next.quoteVault == p.quoteVault + args.amountIn))
            && next == p.(base := next.base, quoteVault := next.quoteVault)
            && next.vault.target > 0 && Banded(next)
  {
    SwapFollowsQuote(p, slot, args);
    InputsOfSwap(p, slot);
    CheckedSwap(p, slot, args);
    hide AfterSwap, SwapParams, QuoteInputs, ReferenceQuote.QuoteExactIn, CheckSwap, InsideBand, ParamsAt;
    QuoteSettles(QuoteInputs(p, slot), SwapParams(p), args.amountIn, args.baseToQuote);
  }

  lemma CheckedSwap(p: Pool, slot: u64, args: SwapArgs)
    requires CheckSwap(p, slot, args).Ok?
    ensures args.amountIn > 0 && args.minimumOut > 0
    ensures args.expectedSequence == p.quote.sequence > 0 && p.quote.midPrice > 0 && p.quote.publishSlot <= slot
    ensures !p.config.paused && !p.quote.paused && !p.vault.paused && p.vault.target > 0
    ensures p.config.live && p.quote.live && p.vault.live
  {
  }

  /** Once base is funded, only a transfer from outside the program can leave the band. */
  lemma StepKeepsBand(p: Pool, tx: Transaction)
    requires Safe(p) && Banded(p) && Step(p, tx).Ok?
    requires tx.instruction.Donate? ==> p.vault.target == 0 || tx.instruction.baseAmount == 0
    ensures Banded(Step(p, tx).value)
  {
    hide AfterSwap, AfterInitializePool, AfterInitializeQuote, AfterUpdate, AfterUpdateQuoteV2, AfterFund, ParamsAt,
         InsideBand;
    match tx.instruction
    case InitializePool(params, envelope, budget, pair, bump) =>
      InitializeNeedsNew(p.config, tx.signer, params, envelope, budget, pair, bump);
    case UpdateQuoteV2(args, spreadBps) => UpdateV2TouchesOnlyQuote(p, tx.signer, args, spreadBps, tx.slot);
    case FundPool(baseAmount, quoteAmount) => FundingKeepsBand(p, tx.signer, baseAmount, quoteAmount);
    case SwapExactIn(args) => SwapSettles(p, tx.slot, args);
    case _ =>
  }

  /** No base reaches the vault from outside once a target is set. */
  predicate NoLateDonation(p: Pool, txs: seq<Transaction>) {
    txs == []
    || (NoLateDonation(p, txs[..|txs| - 1])
        && var tx := txs[|txs| - 1];
           tx.instruction.Donate? ==> Run(p, txs[..|txs| - 1]).vault.target == 0 || tx.instruction.baseAmount == 0)
  }

  lemma {:induction false} BandHolds(txs: seq<Transaction>)
    requires NoLateDonation(NEW_POOL, txs)
    ensures Banded(Run(NEW_POOL, txs))
  {
    hide Step, Safe, Banded;
    NewPoolIsSafe();
    if txs != [] {
      var before, tx := Run(NEW_POOL, txs[..|txs| - 1]), txs[|txs| - 1];
      BandHolds(txs[..|txs| - 1]);
      EveryPoolIsSafe(txs[..|txs| - 1]);
      if Step(before, tx).Ok? {
        StepKeepsBand(before, tx);
      }
    }
  }

  // ---- Swaps never find a broken pool ----

  lemma SwapParamsAreSafe(p: Pool)
    requires Safe(p) && p.config.live && p.quote.live
    ensures ReferenceQuote.ValidParams(SwapParams(p)) && SpreadEnvelope(SwapParams(p))
  {
    var params := ParamsAt(p.config.layout);
    hide ParamsAt, U16At;
    CompiledParamsAreSafe(params);
  }

  /** In a safe pool, at a slot no earlier than the last update, a swap can only be refused for
      what the taker asked, for the age of the quote, for the inventory, for a pause, or
      because the pool is not set up yet: never for its configuration, its order byte, or a
      quote from the future. */
  lemma SwapErrors(p: Pool, slot: u64, args: SwapArgs)
    requires Safe(p) && p.quote.lastUpdateSlot <= slot
    ensures var r := AfterSwap(p, slot, args);
            r.Err? ==> r.error in {AccountNotInitialized, InvalidSwapAmount, InvalidMinimumAmountOut,
                                   QuoteNotInitialized, QuoteSequenceMismatch, PoolConfigPaused,
                                   UninitializedInventoryTarget, EmptyLiquidityError, StaleReferenceQuote,
                                   ProtectedQuoteTradeLimit, InventoryBandExceeded, SwapMathFailed,
                                   SlippageExceeded}
  {
    CheckSwapErrors(p, slot, args);
    if CheckSwap(p, slot, args).Ok? {
      CheckedSwap(p, slot, args);
      SwapParamsAreSafe(p);
      InputsOfSwap(p, slot);
      var s, params := QuoteInputs(p, slot), SwapParams(p);
      var quoted := ReferenceQuote.QuoteExactIn(s, params, args.amountIn, args.baseToQuote);
      hide ReferenceQuote.QuoteExactIn, QuoteInputs, SwapParams, CheckSwap, Safe, ParamsAt;
      if quoted.Ok? {
        QuoteSettles(s, params, args.amountIn, args.baseToQuote);
      } else {
        EnvelopeNeverInvalid(s, params, args.amountIn, args.baseToQuote);
      }
    }
  }

  lemma CheckSwapErrors(p: Pool, slot: u64, args: SwapArgs)
    requires Safe(p) && p.quote.lastUpdateSlot <= slot
    ensures var r := CheckSwap(p, slot, args);
            r.Err? ==> r.error in {AccountNotInitialized, InvalidSwapAmount, InvalidMinimumAmountOut,
                                   QuoteNotInitialized, QuoteSequenceMismatch, PoolConfigPaused,
                                   UninitializedInventoryTarget}
  {
    hide ParamsAt, U16At, ValidateParams;
  }

  /** Over every history: no swap fails as misconfigured, whatever updates came before. */
  lemma NoSwapIsMisconfigured(txs: seq<Transaction>, slot: u64, args: SwapArgs)
    ensures AfterSwap(Run(NEW_POOL, txs), slot, args) != Err(InvalidReferenceQuoteConfig)
  {
    var p := Run(NEW_POOL, txs);
    EveryPoolIsSafe(txs);
    hide Run, Step, NEW_POOL;
    if slot >= p.quote.lastUpdateSlot {
      SwapErrors(p, slot, args);
    } else if CheckSwap(p, slot, args).Ok? {
      CheckedSwap(p, slot, args);
      SwapParamsAreSafe(p);
      hide Safe, CheckSwap, SwapParams, ParamsAt;
      EnvelopeNeverInvalid(QuoteInputs(p, slot), SwapParams(p), args.amountIn, args.baseToQuote);
    } else {
      hide Safe, SwapParams, ParamsAt;
    }
  }

  /** Selling base and swapping the proceeds back on the same quote, in the same slot, never
      takes base out of the pool, when the skew cap is no wider than the carried spread. */
  lemma RoundTripLeavesBase(p: Pool, slot: u64, sell: SwapArgs, buy: SwapArgs)
    requires sell.baseToQuote && !buy.baseToQuote && SwapParams(p).maxSkew <= SwapParams(p).baseHalfSpreadBps
    requires AfterSwap(p, slot, sell).Ok?
    requires var middle := AfterSwap(p, slot, sell).value;
             buy.amountIn == p.quoteVault - middle.quoteVault && AfterSwap(middle, slot, buy).Ok?
    ensures var end := AfterSwap(AfterSwap(p, slot, sell).value, slot, buy).value;
            end.base >= p.base && end.quoteVault == p.quoteVault
  {
    var middle := AfterSwap(p, slot, sell).value;
    SwapFollowsQuote(p, slot, sell);
    SwapFollowsQuote(middle, slot, buy);
    var s, params := QuoteInputs(p, slot), SwapParams(p);
    var first := ReferenceQuote.QuoteExactIn(s, params, sell.amountIn, true).value;
    assert QuoteInputs(middle, slot) == RoundTrips.After(s, first) && SwapParams(middle) == params;
    InputsOfSwap(p, slot);
    hide AfterSwap, QuoteInputs, SwapParams, ReferenceQuote.QuoteExactIn;
    QuoteSettles(s, params, sell.amountIn, true);
    QuoteSettles(RoundTrips.After(s, first), params, buy.amountIn, false);
    NarrowSkewNeverProfits(s, params, sell.amountIn, true);
  }

  // ---- What a quote can be traded out of ----

  /** The two vaults at the mid price the quote carries, in quote atoms times 2^64. */
  function ValueAtMid(p: Pool, midPrice: u128): int {
    p.base * midPrice + p.quoteVault * Q64
  }

  /** A price on the maker's side of mid never gives value away, whatever the floors. */
  lemma SaleKeepsValue(mid: nat, price: nat, amountIn: nat, net: nat, out: nat)
    requires price <= mid && net <= amountIn && out * Q64 <= net * price
    ensures out * Q64 <= amountIn * mid
  {
    MulLe(net, amountIn, price);
    MulLe(price, mid, amountIn);
  }

  lemma PurchaseKeepsValue(mid: nat, price: nat, amountIn: nat, net: nat, out: nat)
    requires mid <= price && net <= amountIn && out * price <= net * Q64
    ensures out * mid <= amountIn * Q64
  {
    MulLe(mid, price, out);
    MulLe(net, amountIn, Q64);
  }

  /** Outside of mid by spread and skew: below it for a sale, above it for a purchase, when the
      skew is no wider than the spread. */
  lemma PriceIsOutsideMid(midPrice: u128, spreadBps: int, skewBps: int, baseToQuote: bool)
    requires Abs(skewBps) <= spreadBps && EffectivePrice(midPrice, spreadBps, skewBps, baseToQuote).Ok?
    ensures var price := EffectivePrice(midPrice, spreadBps, skewBps, baseToQuote).value;
            if baseToQuote then price <= midPrice else midPrice <= price
  {
    var factor := FactorBps(spreadBps, skewBps, baseToQuote);
    DivUnique(midPrice * BASIS_POINTS, BASIS_POINTS, midPrice);
    if baseToQuote {
      MulLe(factor, BASIS_POINTS, midPrice);
      DivMono(midPrice * factor, midPrice * BASIS_POINTS, BASIS_POINTS);
    } else {
      MulLe(BASIS_POINTS, factor, midPrice);
      DivMono(midPrice * BASIS_POINTS, midPrice * factor, BASIS_POINTS);
    }
  }

  /** A single swap never lowers the value of the pool at the mid price of its quote. */
  lemma SwapKeepsValue(p: Pool, slot: u64, args: SwapArgs)
    requires AfterSwap(p, slot, args).Ok? && SwapParams(p).maxSkew <= SwapParams(p).baseHalfSpreadBps
    ensures ValueAtMid(AfterSwap(p, slot, args).value, p.quote.midPrice) >= ValueAtMid(p, p.quote.midPrice)
  {
    var s, params := QuoteInputs(p, slot), SwapParams(p);
    SwapFollowsQuote(p, slot, args);
    InputsOfSwap(p, slot);
    hide AfterSwap, QuoteInputs, SwapParams, ReferenceQuote.QuoteExactIn, ParamsAt;
    QuoteSettles(s, params, args.amountIn, args.baseToQuote);
    QuoteParts(s, params, args.amountIn, args.baseToQuote);
    var q := ReferenceQuote.QuoteExactIn(s, params, args.amountIn, args.baseToQuote).value;
    hide EffectivePrice, Payout, ImbalanceBps, InsideBand, AgeStateOf, MaxTradeFor, BaseEquivalent;
    var skew := SkewBps(q.imbalanceBps, params);
    assert Abs(skew) <= q.spreadBps;
    hide SkewBps, SpreadBps;
    PriceIsOutsideMid(s.midPrice, q.spreadBps, skew, args.baseToQuote);
    PayoutMeaning(q.effectivePrice, q.amountInLessFee, args.baseToQuote, q.amountOut);
    ValueMoves(p, args, q);
    if args.baseToQuote {
      SaleKeepsValue(s.midPrice, q.effectivePrice, args.amountIn, q.amountInLessFee, q.amountOut);
    } else {
      PurchaseKeepsValue(s.midPrice, q.effectivePrice, args.amountIn, q.amountInLessFee, q.amountOut);
    }
  }

  lemma ValueMoves(p: Pool, args: SwapArgs, q: Quote)
    requires if args.baseToQuote then q.newBase == p.base + args.amountIn && q.newQuote == p.quoteVault - q.amountOut
             else q.newBase == p.base - q.amountOut && q.newQuote == p.quoteVault + args.amountIn
    ensures var mid := p.quote.midPrice;
            ValueAtMid(p.(base := q.newBase, quoteVault := q.newQuote), mid)
            == ValueAtMid(p, mid) + if args.baseToQuote then args.amountIn * mid - q.amountOut * Q64
                                    else args.amountIn * Q64 - q.amountOut * mid
  {
  }

  /** No transaction of any kind lowers that value while the quote stays. */
  lemma StepKeepsValue(p: Pool, tx: Transaction)
    requires p.config.live && p.vault.live && SwapParams(p).maxSkew <= SwapParams(p).baseHalfSpreadBps
    ensures Apply(p, tx).vault.live
    ensures ValueAtMid(Apply(p, tx), p.quote.midPrice) >= ValueAtMid(p, p.quote.midPrice)
  {
    var mid := p.quote.midPrice;
    hide AfterSwap, AfterInitializePool, AfterInitializeQuote, AfterUpdate, AfterUpdateQuoteV2, AfterFund, SwapParams,
         ValueAtMid;
    match tx.instruction
    case InitializePool(params, envelope, budget, pair, bump) => SameValue(p, Apply(p, tx), mid);
    case UpdateQuoteV2(args, spreadBps) =>
      UpdateV2TouchesOnlyQuote(p, tx.signer, args, spreadBps, tx.slot);
      SameValue(p, Apply(p, tx), mid);
    case FundPool(baseAmount, quoteAmount) =>
      if AfterFund(p, tx.signer, baseAmount, quoteAmount).Ok? {
        FundingKeepsBand(p, tx.signer, baseAmount, quoteAmount);
      }
      MoreIsWorthMore(p, Apply(p, tx), mid);
    case SwapExactIn(args) =>
      if AfterSwap(p, tx.slot, args).Ok? {
        SwapKeepsValue(p, tx.slot, args);
        SwapTouchesOnlyBalances(p, tx.slot, args);
      }
    case _ => MoreIsWorthMore(p, Apply(p, tx), mid);
  }

  lemma SameValue(p: Pool, q: Pool, mid: u128)
    ensures p.base == q.base && p.quoteVault == q.quoteVault ==> ValueAtMid(p, mid) == ValueAtMid(q, mid)
  {
  }

  lemma MoreIsWorthMore(p: Pool, q: Pool, mid: u128)
    ensures p.base <= q.base && p.quoteVault <= q.quoteVault ==> ValueAtMid(p, mid) <= ValueAtMid(q, mid)
  {
    if p.base <= q.base {
      MulLe(p.base, q.base, mid);
    }
  }

  /** So no sequence of swaps on one quote, however interleaved with anything but an accepted
      update, extracts value at its mid price. */
  lemma {:induction false} RunsKeepValue(p: Pool, txs: seq<Transaction>)
    requires p.config.live && p.quote.live && p.vault.live
    requires SwapParams(p).maxSkew <= SwapParams(p).baseHalfSpreadBps && Updates(p, txs) == 0
    ensures var end := Run(p, txs);
            && end.config.live && end.vault.live && end.config.layout == p.config.layout && end.quote == p.quote
            && ValueAtMid(end, p.quote.midPrice) >= ValueAtMid(p, p.quote.midPrice)
  {
    hide Apply, AcceptedUpdate, ValueAtMid;
    SequenceCountsUpdates(p, txs);
    if txs != [] {
      var init, tx := txs[..|txs| - 1], txs[|txs| - 1];
      RunsKeepValue(p, init);
      var before := Run(p, init);
      SameSwapParams(p, before);
      hide SwapParams;
      StepKeepsValue(before, tx);
      ConfigIsPermanent(before, tx);
    }
  }

  lemma SameSwapParams(p: Pool, q: Pool)
    requires q.config.layout == p.config.layout && q.quote == p.quote
    ensures SwapParams(q) == SwapParams(p)
  {
  }

  // ---- Quote history ----

  predicate AcceptedUpdate(p: Pool, tx: Transaction) {
    (tx.instruction.UpdateQuote? || tx.instruction.UpdateQuoteV2?) && Step(p, tx).Ok?
  }

  /** A quote moves only by an accepted update, signed by one of the two authorities, which
      raises the sequence, never moves the publish slot back, and cannot publish ahead of the
      slot it lands in. */
  lemma QuoteMovesForward(p: Pool, tx: Transaction)
    requires p.quote.live
    ensures var next := Apply(p, tx);
            if AcceptedUpdate(p, tx) then
              && tx.signer in {p.config.authority, p.quote.authority}
              && p.quote.sequence < next.quote.sequence == tx.instruction.args.sequence
              && p.quote.publishSlot <= next.quote.publishSlot == tx.instruction.args.publishSlot
              && next.quote.publishSlot <= next.quote.lastUpdateSlot == tx.slot
              && 0 < next.quote.midPrice == tx.instruction.args.midPrice
              && next.quote.authority == p.quote.authority && next.quote.live
            else next.quote == p.quote
  {
    hide AfterSwap, AfterInitializePool, AfterInitializeQuote, AfterUpdateQuoteV2, ParamsAt, StoreSpread;
    match tx.instruction
    case InitializeQuoteState(quoteAuthority) => InitializeQuoteNeedsNew(p.quote, p.config, quoteAuthority);
    case UpdateQuoteV2(args, spreadBps) => UpdateV2TouchesOnlyQuote(p, tx.signer, args, spreadBps, tx.slot);
    case SwapExactIn(args) =>
      if AfterSwap(p, tx.slot, args).Ok? {
        SwapTouchesOnlyBalances(p, tx.slot, args);
      }
    case _ =>
  }

  lemma InitializeQuoteNeedsNew(q: QuoteView, c: ConfigView, quoteAuthority: Key)
    ensures AfterInitializeQuote(q, c, quoteAuthority).Ok? ==> !q.live
  {
    hide ParamsAt, StoreSpread;
  }

  function Updates(p: Pool, txs: seq<Transaction>): nat {
    if txs == [] then 0
    else Updates(p, txs[..|txs| - 1]) + if AcceptedUpdate(Run(p, txs[..|txs| - 1]), txs[|txs| - 1]) then 1 else 0
  }

  /** Over a whole run the sequence grows by at least one per accepted update and not at all
      without one, and the publish slot never moves back. */
  lemma {:induction false} SequenceCountsUpdates(p: Pool, txs: seq<Transaction>)
    requires p.quote.live
    ensures var q := Run(p, txs).quote;
            && q.live && p.quote.sequence + Updates(p, txs) <= q.sequence && p.quote.publishSlot <= q.publishSlot
            && (Updates(p, txs) == 0 ==> q == p.quote)
  {
    hide AcceptedUpdate, Apply;
    if txs != [] {
      SequenceCountsUpdates(p, txs[..|txs| - 1]);
      QuoteMovesForward(Run(p, txs[..|txs| - 1]), txs[|txs| - 1]);
    }
  }

  // ---- Curve history ----

  datatype Staged = Staged(slot: u8, hash: Key)

  /** The curve most recently staged, or the zero slot before any. */
  function LatestStaged(p: Pool, txs: seq<Transaction>): Staged {
    if txs == [] then Staged(0, NO_KEY)
    else
      var before, tx := Run(p, txs[..|txs| - 1]), txs[|txs| - 1];
      if tx.instruction.StageCurve? && Step(before, tx).Ok? then Staged(tx.instruction.slot, tx.instruction.hash)
      else LatestStaged(p, txs[..|txs| - 1])
  }

  /** One instruction on the curve slots: staging replaces the pending curve, activation
      promotes it and clears it, and nothing else touches them. */
  lemma CurveMoves(p: Pool, tx: Transaction)
    requires Safe(p)
    ensures var c, next := p.curve, Apply(p, tx).curve;
            && (tx.instruction.StageCurve? && Step(p, tx).Ok? ==>
                  && c.live && tx.signer == p.config.authority
                  && tx.instruction.hash != NO_KEY && c.sequence < next.sequence
                  && next == c.(pendingSlot := tx.instruction.slot, pendingHash := tx.instruction.hash,
                                sequence := next.sequence))
            && (tx.instruction.ActivateCurve? && Step(p, tx).Ok? ==>
                  && c.live && tx.signer == p.config.authority
                  && tx.instruction.hash == c.pendingHash && c.sequence < next.sequence
                  && next == c.(activeSlot := c.pendingSlot, pendingHash := NO_KEY, sequence := next.sequence))
            && (!((tx.instruction.StageCurve? || tx.instruction.ActivateCurve?) && Step(p, tx).Ok?) ==>
                  next == c || (!c.live && next.activeSlot == next.pendingSlot == 0 && next.pendingHash == NO_KEY))
  {
    hide AfterSwap, AfterInitializePool, AfterInitializeQuote, AfterUpdate, AfterUpdateQuoteV2, ParamsAt;
    match tx.instruction
    case UpdateQuoteV2(args, spreadBps) => UpdateV2TouchesOnlyQuote(p, tx.signer, args, spreadBps, tx.slot);
    case SwapExactIn(args) =>
      if AfterSwap(p, tx.slot, args).Ok? {
        SwapTouchesOnlyBalances(p, tx.slot, args);
      }
    case _ =>
  }

  lemma {:induction false} PendingIsLatest(txs: seq<Transaction>)
    ensures var c, latest := Run(NEW_POOL, txs).curve, LatestStaged(NEW_POOL, txs);
            && (c.pendingHash != NO_KEY ==> latest == Staged(c.pendingSlot, c.pendingHash))
            && c.pendingSlot == latest.slot
            && (!c.live ==> c.activeSlot == 0 && c.pendingSlot == 0 && c.pendingHash == NO_KEY)
  {
    if txs != [] {
      var init, tx := txs[..|txs| - 1], txs[|txs| - 1];
      PendingIsLatest(init);
      EveryPoolIsSafe(init);
      CurveMoves(Run(NEW_POOL, init), tx);
      hide Step, Safe, Apply;
    }
  }

  /** The active slot changes only to the slot most recently staged, and only when the signer
      repeats the non-zero hash it was staged with. */
  lemma ActiveSlotWasStaged(txs: seq<Transaction>, tx: Transaction)
    requires var before := Run(NEW_POOL, txs); Apply(before, tx).curve.activeSlot != before.curve.activeSlot
    ensures var before := Run(NEW_POOL, txs);
            && tx.signer == before.config.authority
            && tx.instruction.ActivateCurve? && tx.instruction.hash != NO_KEY
            && Staged(Apply(before, tx).curve.activeSlot, tx.instruction.hash) == LatestStaged(NEW_POOL, txs)
  {
    var before := Run(NEW_POOL, txs);
    PendingIsLatest(txs);
    EveryPoolIsSafe(txs);
    CurveMoves(before, tx);
    hide Step, Apply, Run, LatestStaged, SafeConfig, SafeQuote, SafeVault;
  }
}
