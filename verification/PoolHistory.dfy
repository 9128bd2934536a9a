/** What a pool remembers of its history: every stored setting is the one the last accepted
    instruction of its kind asked for, and every swap is priced from those instructions. */
module PoolHistory {
  import opened Numbers
  import opened ReferenceQuote
  import opened ReferenceLaws
  import opened ConfigCompiler
  import opened ConfigBytes
  import opened PoolState
  import opened PoolLaws

  // ---- The last accepted instruction of a kind ----

  datatype Kind = Founding | Pausing | Opening | Pricing | Spreading

  predicate OfKind(kind: Kind, instruction: Instruction) {
    match kind
    case Founding => instruction.InitializePool?
    case Pausing => instruction.PausePool?
    case Opening => instruction.InitializeQuoteState?
    case Pricing => instruction.UpdateQuote? || instruction.UpdateQuoteV2?
    case Spreading => instruction.UpdateQuoteV2?
  }

  function Last(txs: seq<Transaction>, kind: Kind): (r: Option<Transaction>)
    ensures r.Some? ==> OfKind(kind, r.value.instruction)
  {
    if txs == [] then None
    else
      var init, tx := txs[..|txs| - 1], txs[|txs| - 1];
      if OfKind(kind, tx.instruction) && Step(Run(NEW_POOL, init), tx).Ok? then Some(tx) else Last(init, kind)
  }

  /** The half spread the last accepted update asked for, or else the compiled one. */
  function LatestSpread(txs: seq<Transaction>): u16 {
    match Last(txs, Spreading)
    case Some(tx) => tx.instruction.spreadBps
    case None => if Last(txs, Founding).Some? then Last(txs, Founding).value.instruction.params.baseHalfSpreadBps else 0
  }

  // ---- What each account remembers ----

  /** The configuration is that of the founding transaction, paused as last asked for. */
  predicate ConfigRemembers(c: ConfigView, founding: Option<Transaction>, pausing: Option<Transaction>)
    requires founding.Some? ==> founding.value.instruction.InitializePool?
    requires pausing.Some? ==> pausing.value.instruction.PausePool?
  {
    match founding
    case None => c == NEW_POOL.config && pausing.None?
    case Some(tx) =>
      && c.live && c.authority == tx.signer
      && ParamsAt(c.layout) == tx.instruction.params && OrderOf(c.layout) == Ok(tx.instruction.envelope.order)
      && (c.paused <==> pausing.Some? && pausing.value.instruction.paused)
  }

  /** The quote account opens empty for the authority named, and then holds the last update. */
  predicate QuoteRemembers(q: QuoteView, opening: Option<Transaction>, pricing: Option<Transaction>)
    requires opening.Some? ==> opening.value.instruction.InitializeQuoteState?
    requires pricing.Some? ==> pricing.value.instruction.UpdateQuote? || pricing.value.instruction.UpdateQuoteV2?
  {
    && (match opening
        case None => q == NEW_POOL.quote && pricing.None?
        case Some(tx) => q.live && q.authority == tx.instruction.quoteAuthority)
    && (match pricing
        case None => q.midPrice == 0 && q.publishSlot == 0 && q.sequence == 0 && q.lastUpdateSlot == 0
        case Some(tx) =>
          && UpdateArgs(q.midPrice, q.publishSlot, q.sequence) == tx.instruction.args
          && q.lastUpdateSlot == tx.slot)
  }

  predicate SpreadRemembers(q: QuoteView, spreadBps: u16, fallback: u16) {
    q.live ==> StoredSpread(q.padding, fallback) == spreadBps
  }

  // ---- One transaction ----

  lemma FoundingSets(c: ConfigView, tx: Transaction)
    requires tx.instruction.InitializePool?
    requires var i := tx.instruction;
             AfterInitializePool(c, tx.signer, i.params, i.envelope, i.budget, i.pair, i.bump).Ok?
    ensures var i := tx.instruction;
            var next := AfterInitializePool(c, tx.signer, i.params, i.envelope, i.budget, i.pair, i.bump).value;
            && !c.live && ConfigRemembers(next, Some(tx), None)
  {
    var i := tx.instruction;
    InitializeNeedsNew(c, tx.signer, i.params, i.envelope, i.budget, i.pair, i.bump);
    CompiledLayoutIsSafe(c, tx.signer, i.params, i.envelope, i.budget, i.pair, i.bump);
    FoundingSigns(c, tx);
    hide AfterInitializePool, ParamsAt, OrderOf, SafeLayout;
  }

  lemma FoundingSigns(c: ConfigView, tx: Transaction)
    requires tx.instruction.InitializePool?
    requires var i := tx.instruction;
             AfterInitializePool(c, tx.signer, i.params, i.envelope, i.budget, i.pair, i.bump).Ok?
    ensures var i := tx.instruction;
            var next := AfterInitializePool(c, tx.signer, i.params, i.envelope, i.budget, i.pair, i.bump).value;
            next.live && next.authority == tx.signer && !next.paused
  {
    hide Layout;
  }

  lemma OpeningSets(q: QuoteView, c: ConfigView, quoteAuthority: Key)
    requires AfterInitializeQuote(q, c, quoteAuthority).Ok?
    ensures var next := AfterInitializeQuote(q, c, quoteAuthority).value;
            var compiled := ParamsAt(c.layout).baseHalfSpreadBps;
            && !q.live && next.live && next.authority == quoteAuthority
            && next.midPrice == 0 && next.publishSlot == 0 && next.sequence == 0 && next.lastUpdateSlot == 0
            && SpreadRemembers(next, compiled, compiled)
  {
    var compiled := ParamsAt(c.layout).baseHalfSpreadBps;
    SpreadReadsBack(Zeros(5), compiled, compiled);
    hide ParamsAt, StoreSpread, StoredSpread;
  }

  lemma UpdateSets(p: Pool, tx: Transaction, fallback: u16)
    requires tx.instruction.UpdateQuote? || tx.instruction.UpdateQuoteV2?
    requires Step(p, tx).Ok?
    ensures var next, args := Step(p, tx).value, tx.instruction.args;
            && p.quote.live && next == p.(quote := next.quote)
            && next.quote.live && next.quote.authority == p.quote.authority
            && UpdateArgs(next.quote.midPrice, next.quote.publishSlot, next.quote.sequence) == args
            && next.quote.lastUpdateSlot == tx.slot
            && (if tx.instruction.UpdateQuoteV2? then SpreadRemembers(next.quote, tx.instruction.spreadBps, fallback)
                else next.quote.padding == p.quote.padding)
  {
    hide ParamsAt, StoreSpread, StoredSpread, OrderOf;
    if tx.instruction.UpdateQuoteV2? {
      SpreadReadsBack(p.quote.padding, tx.instruction.spreadBps, fallback);
      UpdateV2TouchesOnlyQuote(p, tx.signer, tx.instruction.args, tx.instruction.spreadBps, tx.slot);
    }
  }

  /** Instructions of no such kind leave configuration and quote alone. */
  lemma OthersSetNothing(p: Pool, tx: Transaction)
    requires forall kind :: !OfKind(kind, tx.instruction)
    ensures Apply(p, tx).config == p.config && Apply(p, tx).quote == p.quote
  {
    hide AfterSwap, AfterInitializePool, AfterInitializeQuote, AfterUpdateQuote, AfterUpdateQuoteV2;
    assert !OfKind(Founding, tx.instruction) && !OfKind(Pausing, tx.instruction) && !OfKind(Opening, tx.instruction)
        && !OfKind(Pricing, tx.instruction);
    if tx.instruction.SwapExactIn? && AfterSwap(p, tx.slot, tx.instruction.swap).Ok? {
      SwapTouchesOnlyBalances(p, tx.slot, tx.instruction.swap);
    }
  }

  // ---- Over whole histories ----

  predicate Remembers(p: Pool, txs: seq<Transaction>) {
    && ConfigRemembers(p.config, Last(txs, Founding), Last(txs, Pausing))
    && QuoteRemembers(p.quote, Last(txs, Opening), Last(txs, Pricing))
    && (Last(txs, Spreading).Some? ==> p.quote.live)
    && SpreadRemembers(p.quote, LatestSpread(txs), ParamsAt(p.config.layout).baseHalfSpreadBps)
    && (p.quote.live ==> p.config.live)
    && AuthoritiesAgree(p)
  }

  /** Curve slots and vaults belong to the authority of the pool. */
  predicate AuthoritiesAgree(p: Pool) {
    && (p.curve.live ==> p.config.live && p.curve.authority == p.config.authority)
    && (p.vault.live ==> p.config.live && p.vault.authority == p.config.authority)
  }

  /** Whatever was sent, in whatever order: authority, parameters and same-slot order are those of
      the founding transaction, the pause flag, the price, the publish slot and the sequence
      those of the last accepted instruction that sets them, and the half spread that of the
      last accepted update with a spread, or else the compiled one. */
  lemma {:induction false} EveryPoolRemembers(txs: seq<Transaction>)
    ensures Remembers(Run(NEW_POOL, txs), txs)
  {
    if txs == [] {
    } else {
      var init, tx := txs[..|txs| - 1], txs[|txs| - 1];
      var before := Run(NEW_POOL, init);
      EveryPoolRemembers(init);
      LastUnfolds(txs);
      hide Last, Run, Step, Remembers;
      StepRemembers(before, init, txs, tx);
    }
  }

  lemma StepKeepsAuthorities(p: Pool, tx: Transaction)
    requires AuthoritiesAgree(p)
    ensures AuthoritiesAgree(Apply(p, tx))
  {
    hide AfterInitializePool, AfterInitializeQuote, AfterUpdate, AfterUpdateQuoteV2, AfterSwap, ParamsAt;
    match tx.instruction
    case InitializePool(_, _, _, _, _) => FoundingOnce(p.config, tx);
    case UpdateQuoteV2(args, spreadBps) => UpdateV2TouchesOnlyQuote(p, tx.signer, args, spreadBps, tx.slot);
    case SwapExactIn(args) =>
      if AfterSwap(p, tx.slot, args).Ok? {
        SwapTouchesOnlyBalances(p, tx.slot, args);
      }
    case _ =>
  }

  lemma FoundingOnce(c: ConfigView, tx: Transaction)
    requires tx.instruction.InitializePool?
    ensures var i := tx.instruction;
            AfterInitializePool(c, tx.signer, i.params, i.envelope, i.budget, i.pair, i.bump).Ok? ==> !c.live
  {
    hide Compile, Layout;
  }

  predicate Extends(p: Pool, init: seq<Transaction>, txs: seq<Transaction>, tx: Transaction) {
    forall kind :: Last(txs, kind) == if OfKind(kind, tx.instruction) && Step(p, tx).Ok? then Some(tx)
                                      else Last(init, kind)
  }

  lemma LastUnfolds(txs: seq<Transaction>)
    requires txs != []
    ensures Extends(Run(NEW_POOL, txs[..|txs| - 1]), txs[..|txs| - 1], txs, txs[|txs| - 1])
    ensures Run(NEW_POOL, txs) == Apply(Run(NEW_POOL, txs[..|txs| - 1]), txs[|txs| - 1])
  {
    hide Step;
  }

  lemma StepRemembers(p: Pool, init: seq<Transaction>, txs: seq<Transaction>, tx: Transaction)
    requires Remembers(p, init) && Extends(p, init, txs, tx)
    ensures Remembers(Apply(p, tx), txs)
  {
    hide Last, AfterInitializePool, AfterInitializeQuote, AfterUpdateQuote, AfterUpdateQuoteV2, AfterSwap, AfterFund,
         ParamsAt, StoredSpread, OrderOf;
    assert Extends(p, init, txs, tx);
    StepKeepsAuthorities(p, tx);
    hide AuthoritiesAgree;
    match tx.instruction
    case InitializePool(_, _, _, _, _) =>
      if Step(p, tx).Ok? {
        FoundingSets(p.config, tx);
      }
    case InitializeQuoteState(quoteAuthority) =>
      if Step(p, tx).Ok? {
        OpeningSets(p.quote, p.config, quoteAuthority);
      }
    case UpdateQuote(_) =>
      if Step(p, tx).Ok? {
        UpdateSets(p, tx, ParamsAt(p.config.layout).baseHalfSpreadBps);
      }
    case UpdateQuoteV2(_, _) =>
      if Step(p, tx).Ok? {
        UpdateSets(p, tx, ParamsAt(p.config.layout).baseHalfSpreadBps);
      }
    case PausePool(_) =>
    case _ =>
      OthersSetNothing(p, tx);
  }

  // ---- What prices a swap ----

  /** The parameters of the founding transaction with the spread last asked for. */
  function HistoricParams(txs: seq<Transaction>): Params
    requires Last(txs, Founding).Some?
  {
    Last(txs, Founding).value.instruction.params.(baseHalfSpreadBps := LatestSpread(txs))
  }

  /** What a swap in some slot sees: the balances, and the price last published. */
  function HistoricState(txs: seq<Transaction>, slot: u64): State
    requires Last(txs, Pricing).Some?
  {
    var p, args := Run(NEW_POOL, txs), Last(txs, Pricing).value.instruction.args;
    State(p.base, p.quoteVault, p.vault.target, args.midPrice, args.publishSlot, slot, false)
  }

  lemma SwapSees(p: Pool, txs: seq<Transaction>, slot: u64, args: SwapArgs)
    requires p == Run(NEW_POOL, txs) && Remembers(p, txs) && AfterSwap(p, slot, args).Ok?
    ensures Last(txs, Founding).Some? && Last(txs, Pricing).Some?
    ensures QuoteInputs(p, slot) == HistoricState(txs, slot) && SwapParams(p) == HistoricParams(txs)
    ensures args.expectedSequence == Last(txs, Pricing).value.instruction.args.sequence
  {
    SwapFollowsQuote(p, slot, args);
    CheckedSwap(p, slot, args);
    InputsOfSwap(p, slot);
    hide AfterSwap, CheckSwap, Last, ParamsAt, StoredSpread, Run, OrderOf, ReferenceQuote.QuoteExactIn;
  }

  /** Every swap accepted after any history is priced by it: by the parameters of the founding
      transaction, by the price and publish slot of the last accepted update, which is the one
      its taker named, and by the spread last asked for, plus what the age of the price adds.
      The price, the fee and the output follow in plain arithmetic, and the vaults move by the
      input and the output. */
  lemma SwapIsPricedByHistory(txs: seq<Transaction>, slot: u64, args: SwapArgs) returns (q: Quote, skew: int)
    requires AfterSwap(Run(NEW_POOL, txs), slot, args).Ok?
    ensures Last(txs, Founding).Some? && Last(txs, Pricing).Some?
    ensures var founded, published := Last(txs, Founding).value.instruction.params,
                                      Last(txs, Pricing).value.instruction.args;
            var p, next := Run(NEW_POOL, txs), AfterSwap(Run(NEW_POOL, txs), slot, args).value;
            && args.expectedSequence == published.sequence
            && published.publishSlot <= slot < published.publishSlot + founded.expire
            && q.spreadBps == LatestSpread(txs)
               + Min(Max(slot - published.publishSlot - founded.agingStart, 0) * founded.surchargePerSlot,
                     founded.maxSurcharge)
            && PricedFrom(HistoricState(txs, slot), HistoricParams(txs), args.baseToQuote, q, skew)
            && PaidFrom(founded.feeBps, args.amountIn, args.baseToQuote, q)
            && args.minimumOut <= q.amountOut
            && next == p.(base := next.base, quoteVault := next.quoteVault)
            && (if args.baseToQuote then
                  next.base == p.base + args.amountIn && next.quoteVault == p.quoteVault - q.amountOut
                else
                  next.base == p.base - q.amountOut && next.quoteVault == p.quoteVault + args.amountIn)
  {
    var p := Run(NEW_POOL, txs);
    EveryPoolRemembers(txs);
    SwapSees(p, txs, slot, args);
    SwapSettles(p, slot, args);
    var s, params := HistoricState(txs, slot), HistoricParams(txs);
    q := ReferenceQuote.QuoteExactIn(s, params, args.amountIn, args.baseToQuote).value;
    skew := ReferenceLaws.QuotePays(s, params, args.amountIn, args.baseToQuote);
    QuoteSettles(s, params, args.amountIn, args.baseToQuote);
    hide ReferenceQuote.QuoteExactIn, AfterSwap, Run, Last, ParamsAt, ImbalanceIs, SkewIs, PaidFrom, Remembers, Banded,
         QuoteInputs, SwapParams, LatestSpread, AgeStateOf, InsideBand, MaxTradeFor, BaseEquivalent;
  }

  // ---- The ledger ----

  /** Tokens that have entered and left the two vaults. */
  datatype Ledger = Ledger(baseIn: int, baseOut: int, quoteIn: int, quoteOut: int)

  function Entry(p: Pool, tx: Transaction): Ledger
    requires Step(p, tx).Ok?
  {
    match tx.instruction
    case FundPool(baseAmount, quoteAmount) => Ledger(baseAmount, 0, quoteAmount, 0)
    case Donate(baseAmount, quoteAmount) => Ledger(baseAmount, 0, quoteAmount, 0)
    case SwapExactIn(args) =>
      SwapFollowsQuote(p, tx.slot, args);
      var quoted := ReferenceQuote.QuoteExactIn(QuoteInputs(p, tx.slot), SwapParams(p), args.amountIn,
                                                args.baseToQuote).value;
      if args.baseToQuote then Ledger(args.amountIn, 0, 0, quoted.amountOut)
      else Ledger(0, quoted.amountOut, args.amountIn, 0)
    case _ => Ledger(0, 0, 0, 0)
  }

  function Totals(txs: seq<Transaction>): Ledger {
    if txs == [] then Ledger(0, 0, 0, 0)
    else
      var init, tx := txs[..|txs| - 1], txs[|txs| - 1];
      var sum, before := Totals(init), Run(NEW_POOL, init);
      if Step(before, tx).Err? then sum
      else
        var e := Entry(before, tx);
        Ledger(sum.baseIn + e.baseIn, sum.baseOut + e.baseOut, sum.quoteIn + e.quoteIn, sum.quoteOut + e.quoteOut)
  }

  lemma StepBooks(p: Pool, tx: Transaction)
    requires Step(p, tx).Ok? && (!p.vault.live ==> p.base == 0 && p.quoteVault == 0)
    ensures var next, e := Step(p, tx).value, Entry(p, tx);
            && next.base == p.base + e.baseIn - e.baseOut && next.quoteVault == p.quoteVault + e.quoteIn - e.quoteOut
            && (!next.vault.live ==> next.base == 0 && next.quoteVault == 0)
  {
    hide AfterSwap, AfterInitializePool, AfterInitializeQuote, AfterUpdateQuote, AfterUpdateQuoteV2, AfterFund,
         ReferenceQuote.QuoteExactIn, SwapParams, QuoteInputs;
    match tx.instruction
    case InitializePool(_, _, _, _, _) =>
    case UpdateQuote(_) => UpdateKeepsVaults(p, tx);
    case UpdateQuoteV2(_, _) => UpdateKeepsVaults(p, tx);
    case FundPool(baseAmount, quoteAmount) =>
      FundingKeepsBand(p, tx.signer, baseAmount, quoteAmount);
      FundingNeedsVault(p, tx.signer, baseAmount, quoteAmount);
    case SwapExactIn(args) =>
      SwapSettles(p, tx.slot, args);
      SwapFollowsQuote(p, tx.slot, args);
      CheckedSwap(p, tx.slot, args);
    case _ =>
  }

  lemma UpdateKeepsVaults(p: Pool, tx: Transaction)
    requires (tx.instruction.UpdateQuote? || tx.instruction.UpdateQuoteV2?) && Step(p, tx).Ok?
    ensures Step(p, tx).value == p.(quote := Step(p, tx).value.quote)
  {
    UpdateSets(p, tx, 0);
    hide Step;
  }

  lemma FundingNeedsVault(p: Pool, signer: Key, baseAmount: u64, quoteAmount: u64)
    requires AfterFund(p, signer, baseAmount, quoteAmount).Ok?
    ensures p.vault.live
  {
  }

  /** Tokens are conserved over every history: each vault holds what was funded, sent in and paid in
      by takers, less what takers were paid. */
  lemma {:induction false} VaultsBalance(txs: seq<Transaction>)
    ensures var p, sum := Run(NEW_POOL, txs), Totals(txs);
            && p.base == sum.baseIn - sum.baseOut && p.quoteVault == sum.quoteIn - sum.quoteOut
            && (!p.vault.live ==> p.base == 0 && p.quoteVault == 0)
  {
    hide Step, Entry;
    if txs != [] {
      var init, tx := txs[..|txs| - 1], txs[|txs| - 1];
      VaultsBalance(init);
      if Step(Run(NEW_POOL, init), tx).Ok? {
        StepBooks(Run(NEW_POOL, init), tx);
      }
    }
  }
}
