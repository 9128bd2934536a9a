/** The on-chain program: account objects whose methods assign their fields, instruction
    handlers over them, and the runtime that undoes a failed instruction. Each is proved
    against the transition it should make. */
module PoolProgram {
  import opened Numbers
  import opened ReferenceQuote
  import opened ConfigCompiler
  import opened ConfigBytes
  import opened PoolState

  /** A handler's result and effect agree with a transition: the same error, or the new value. */
  predicate Agrees<T(==)>(r: Outcome<()>, after: T, spec: Outcome<T>) {
    match spec
    case Err(error) => r == Err(error)
    case Ok(next) => r.Ok? && after == next
  }

  class QuoteStateAccount {
    var live: bool
    var authority: Key
    var paused: bool
    var order: u8
    const padding: array<u8>
    var midPrice: u128
    var publishSlot: u64
    var sequence: u64
    var lastUpdateSlot: u64

    constructor ()
      ensures fresh(padding) && padding.Length == PADDING_LEN && View() == NEW_POOL.quote
    {
      live, authority, paused, order := false, NO_KEY, false, 0;
      padding := new u8[PADDING_LEN](_ => 0);
      midPrice, publishSlot, sequence, lastUpdateSlot := 0, 0, 0, 0;
      new;
      assert padding[..] == Zeros(5);
    }

    function View(): QuoteView
      reads this, padding
      requires padding.Length == PADDING_LEN
    {
      QuoteView(live, authority, paused, order, padding[..], midPrice, publishSlot, sequence, lastUpdateSlot)
    }

    /** Overwrites every field, as the runtime does to undo a failed instruction. */
    method Store(v: QuoteView)
      requires padding.Length == PADDING_LEN
      modifies this, padding
      ensures View() == v
    {
      live, authority, paused, order := v.live, v.authority, v.paused, v.order;
      midPrice, publishSlot, sequence, lastUpdateSlot := v.midPrice, v.publishSlot, v.sequence, v.lastUpdateSlot;
      forall i | 0 <= i < PADDING_LEN {
        padding[i] := v.padding[i];
      }
      assert padding[..] == v.padding;
    }

    method SetBaseHalfSpread(spreadBps: u16)
      requires padding.Length == PADDING_LEN
      modifies padding
      ensures View() == old(View()).(padding := StoreSpread(old(padding[..]), spreadBps))
    {
      var bytes := Le(spreadBps, 2);
      padding[0] := bytes[0];
      padding[1] := bytes[1];
      padding[2] := 1;
      assert padding[..] == StoreSpread(old(padding[..]), spreadBps);
    }

    method BaseHalfSpread(fallback: u16) returns (r: u16)
      requires padding.Length == PADDING_LEN
      ensures r == StoredSpread(padding[..], fallback)
    {
      if padding[2] == 1 {
        r := U16At(padding[..], 0);
      } else {
        r := fallback;
      }
    }

    method Initialize(c: ConfigView, quoteAuthority: Key) returns (r: Outcome<()>)
      requires padding.Length == PADDING_LEN
      modifies this, padding
      ensures Agrees(r, View(), AfterInitializeQuote(old(View()), c, quoteAuthority))
    {
      if live {
        return Err(AccountInUse);
      }
      if quoteAuthority == NO_KEY {
        return Err(InvalidQuoteAuthority);
      }
      var sameSlotOrder := OrderOf(c.layout);
      if sameSlotOrder.Err? {
        return Err(sameSlotOrder.error);
      }
      live, authority, paused, order := true, quoteAuthority, false, sameSlotOrder.value;
      forall i | 0 <= i < PADDING_LEN {
        padding[i] := 0;
      }
      assert padding[..] == Zeros(5);
      var params := ReadParams(c.layout);
      SetBaseHalfSpread(params.baseHalfSpreadBps);
      midPrice, publishSlot, sequence, lastUpdateSlot := 0, 0, 0, 0;
      return Ok(());
    }

    method ApplyUpdate(poolAuthority: Key, signer: Key, args: UpdateArgs, slot: u64) returns (r: Outcome<()>)
      requires padding.Length == PADDING_LEN
      modifies this
      ensures Agrees(r, View(), AfterUpdate(old(View()), poolAuthority, signer, args, slot))
    {
      if signer != poolAuthority && signer != authority {
        return Err(UnauthorizedQuoteUpdate);
      }
      if args.midPrice == 0 {
        return Err(InvalidReferenceQuotePrice);
      }
      if args.sequence <= sequence {
        return Err(NonMonotonicQuoteSequence);
      }
      if args.publishSlot < publishSlot {
        return Err(StaleQuotePublishSlot);
      }
      if args.publishSlot > slot {
        return Err(FutureQuotePublishSlot);
      }
      midPrice, publishSlot, sequence, lastUpdateSlot := args.midPrice, args.publishSlot, args.sequence, slot;
      return Ok(());
    }

    method AssertUsableForSwap(expectedOrder: u8, expectedSequence: u64, slot: u64) returns (r: Outcome<()>)
      requires padding.Length == PADDING_LEN
      ensures r == CheckUsable(View(), expectedOrder, expectedSequence, slot)
    {
      if paused {
        return Err(QuoteStatePaused);
      }
      if order != expectedOrder {
        return Err(QuoteStateOrderMismatch);
      }
      if !(midPrice > 0 && sequence > 0) {
        return Err(QuoteNotInitialized);
      }
      if sequence != expectedSequence {
        return Err(QuoteSequenceMismatch);
      }
      if publishSlot > slot {
        return Err(FutureQuotePublishSlot);
      }
      return Ok(());
    }
  }

  class CurveSlotAccount {
    var live: bool
    var authority: Key
    var activeSlot: u8
    var pendingSlot: u8
    var pendingHash: Key
    var sequence: u64

    constructor ()
      ensures View() == NEW_POOL.curve
    {
      live, authority, activeSlot, pendingSlot, pendingHash, sequence := false, NO_KEY, 0, 0, NO_KEY, 0;
    }

    function View(): CurveView
      reads this
    {
      CurveView(live, authority, activeSlot, pendingSlot, pendingHash, sequence)
    }

    method Store(v: CurveView)
      modifies this
      ensures View() == v
    {
      live, authority, activeSlot, pendingSlot, pendingHash, sequence :=
        v.live, v.authority, v.activeSlot, v.pendingSlot, v.pendingHash, v.sequence;
    }

    method Stage(slot: u8, hash: Key, newSequence: u64) returns (r: Outcome<()>)
      modifies this
      ensures Agrees(r, View(), AfterStage(old(View()), slot, hash, newSequence))
    {
      if slot >= MAX_CURVE_SLOTS {
        return Err(InvalidCurveSlot);
      }
      if hash == NO_KEY {
        return Err(InvalidCurveHash);
      }
      if newSequence <= sequence {
        return Err(NonMonotonicCurveSequence);
      }
      pendingSlot, pendingHash, sequence := slot, hash, newSequence;
      return Ok(());
    }

    method Activate(slot: u8, expectedHash: Key, newSequence: u64) returns (r: Outcome<()>)
      modifies this
      ensures Agrees(r, View(), AfterActivate(old(View()), slot, expectedHash, newSequence))
    {
      if slot >= MAX_CURVE_SLOTS {
        return Err(InvalidCurveSlot);
      }
      if newSequence <= sequence {
        return Err(NonMonotonicCurveSequence);
      }
      if pendingSlot != slot || pendingHash != expectedHash {
        return Err(CurveHashMismatch);
      }
      activeSlot, pendingHash, sequence := slot, NO_KEY, newSequence;
      return Ok(());
    }
  }

  class VaultStateAccount {
    var live: bool
    var authority: Key
    var paused: bool
    var target: u64

    constructor ()
      ensures View() == NEW_POOL.vault
    {
      live, authority, paused, target := false, NO_KEY, false, 0;
    }

    function View(): VaultView
      reads this
    {
      VaultView(live, authority, paused, target)
    }

    method Store(v: VaultView)
      modifies this
      ensures View() == v
    {
      live, authority, paused, target := v.live, v.authority, v.paused, v.target;
    }

    method ApplyBaseFundingToTarget(vaultBefore: u64, baseAmount: u64) returns (r: Outcome<()>)
      modifies this
      ensures Agrees(r, View(), AfterFunding(old(View()), vaultBefore, baseAmount))
    {
      if baseAmount == 0 {
        return Ok(());
      }
      if target == 0 {
        if vaultBefore + baseAmount >= TWO_64 {
          return Err(VaultInventoryOverflow);
        }
        target := vaultBefore + baseAmount;
      } else {
        if target + baseAmount >= TWO_64 {
          return Err(VaultInventoryOverflow);
        }
        target := target + baseAmount;
      }
      return Ok(());
    }
  }

  class PoolAccounts {
    var live: bool
    var authority: Key
    var paused: bool
    var layout: Record
    const quote: QuoteStateAccount
    const curve: CurveSlotAccount
    const vault: VaultStateAccount
    /** The token balances of the two vaults. */
    var base: u64
    var quoteVault: u64

    constructor ()
      ensures Valid() && View() == NEW_POOL
      ensures fresh(quote) && fresh(quote.padding) && fresh(curve) && fresh(vault)
    {
      live, authority, paused, layout := false, NO_KEY, false, Zeros(ACCOUNT_LEN);
      quote := new QuoteStateAccount();
      curve := new CurveSlotAccount();
      vault := new VaultStateAccount();
      base, quoteVault := 0, 0;
    }

    predicate Valid() {
      quote.padding.Length == PADDING_LEN
    }

    function Config(): ConfigView
      reads this
    {
      ConfigView(live, authority, paused, layout)
    }

    function View(): Pool
      reads this, quote, quote.padding, curve, vault
      requires Valid()
    {
      Pool(Config(), quote.View(), curve.View(), vault.View(), base, quoteVault)
    }

    method InitializeReferenceQuotePool(signer: Key, params: Params, args: EnvelopeArgs, budget: AccountBudget,
                                        pair: TokenPair, bump: u8)
      returns (r: Outcome<()>)
      requires Valid()
      modifies this`live, this`authority, this`paused, this`layout
      ensures Agrees(r, Config(), AfterInitializePool(old(Config()), signer, params, args, budget, pair, bump))
    {
      hide Compile, Layout;
      if live {
        return Err(AccountInUse);
      }
      var envelope := ToEnvelope(args);
      if envelope.Err? {
        return Err(envelope.error);
      }
      var compiled := Compile(ConfigInput(Strategy(params, envelope.value), pair, budget));
      if compiled.Err? {
        return Err(InvalidReferenceQuoteConfig);
      }
      var bytes := ToBytes(Account(compiled.value, bump, false));
      live, authority, paused, layout := true, signer, false, bytes[..];
      return Ok(());
    }

    method UpdateReferenceQuote(signer: Key, args: UpdateArgs, slot: u64) returns (r: Outcome<()>)
      requires Valid()
      modifies quote
      ensures Agrees(r, View(), AfterUpdateQuote(old(View()), signer, args, slot))
    {
      if !live || !quote.live {
        return Err(AccountNotInitialized);
      }
      var order := CheckOrder(quote.View(), Config());
      if order.Err? {
        return order;
      }
      r := quote.ApplyUpdate(authority, signer, args, slot);
    }

    method UpdateReferenceQuoteV2(signer: Key, args: UpdateArgs, spreadBps: u16, slot: u64) returns (r: Outcome<()>)
      requires Valid()
      modifies quote, quote.padding
      ensures Agrees(r, View(), AfterUpdateQuoteV2(old(View()), signer, args, spreadBps, slot))
    {
      hide StoreSpread, ParamsAt, OrderOf;
      if !live || !quote.live {
        return Err(AccountNotInitialized);
      }
      var order := CheckOrder(quote.View(), Config());
      if order.Err? {
        return order;
      }
      var params := ReadParams(layout);
      var spread := CheckSpread(spreadBps, params);
      if spread.Err? {
        return spread;
      }
      r := quote.ApplyUpdate(authority, signer, args, slot);
      if r.Ok? {
        quote.SetBaseHalfSpread(spreadBps);
      }
    }

    /** Transfers come first and the target last, so a failed target leaves a half-done funding
        for the runtime to undo. */
    method FundPool(signer: Key, baseAmount: u64, quoteAmount: u64) returns (r: Outcome<()>)
      requires Valid()
      modifies this`base, this`quoteVault, vault
      ensures Agrees(r, View(), AfterFund(old(View()), signer, baseAmount, quoteAmount))
    {
      var allowed := CheckAuthority(Config(), signer);
      if allowed.Err? {
        return allowed;
      }
      if !vault.live {
        return Err(AccountNotInitialized);
      }
      if vault.paused {
        return Err(VaultPaused);
      }
      if baseAmount == 0 && quoteAmount == 0 {
        return Err(EmptyFundingAmount);
      }
      var vaultBefore := base;
      if baseAmount > 0 {
        var credited := Credit(base, baseAmount);
        if credited.Err? {
          return Err(credited.error);
        }
        base := credited.value;
      }
      if quoteAmount > 0 {
        var credited := Credit(quoteVault, quoteAmount);
        if credited.Err? {
          return Err(credited.error);
        }
        quoteVault := credited.value;
      }
      r := vault.ApplyBaseFundingToTarget(vaultBefore, baseAmount);
    }

    method Transfer(baseIn: u64, baseOut: u64, quoteIn: u64, quoteOut: u64) returns (r: Outcome<()>)
      requires Valid()
      modifies this`base, this`quoteVault
      ensures Agrees(r, View(), Moved(old(View()), baseIn, baseOut, quoteIn, quoteOut))
    {
      if base + baseIn >= TWO_64 || quoteVault + quoteIn >= TWO_64 {
        return Err(TransferOverflow);
      }
      base, quoteVault := base + baseIn, quoteVault + quoteIn;
      if base < baseOut || quoteVault < quoteOut {
        return Err(TransferOverflow);
      }
      base, quoteVault := base - baseOut, quoteVault - quoteOut;
      return Ok(());
    }

    method SwapExactIn(args: SwapArgs, slot: u64) returns (r: Outcome<()>)
      requires Valid()
      modifies this`base, this`quoteVault
      ensures Agrees(r, View(), AfterSwap(old(View()), slot, args))
    {
      hide ReferenceQuote.QuoteExactIn, ParamsAt, StoredSpread, Moved;
      var checked := AssertSwappable(args, slot);
      if checked.Err? {
        return checked;
      }
      var params := ReadParams(layout);
      var spread := quote.BaseHalfSpread(params.baseHalfSpreadBps);
      var inputs := State(base, quoteVault, vault.target, quote.midPrice, quote.publishSlot, slot,
                          paused || quote.paused || vault.paused);
      var quoted := ReferenceQuote.QuoteExactIn(inputs, params.(baseHalfSpreadBps := spread), args.amountIn,
                                                args.baseToQuote);
      if quoted.Err? {
        return Err(MapSwapError(quoted.error));
      }
      if quoted.value.amountOut < args.minimumOut {
        return Err(SlippageExceeded);
      }
      if args.baseToQuote {
        r := Transfer(args.amountIn, 0, 0, quoted.value.amountOut);
      } else {
        r := Transfer(0, quoted.value.amountOut, args.amountIn, 0);
      }
    }

    method AssertSwappable(args: SwapArgs, slot: u64) returns (r: Outcome<()>)
      requires Valid()
      ensures r == CheckSwap(View(), slot, args)
    {
      if !live || !quote.live || !vault.live {
        return Err(AccountNotInitialized);
      }
      if vault.paused {
        return Err(VaultPaused);
      }
      var valid := CheckSwapArgs(args);
      if valid.Err? {
        return valid;
      }
      var order := OrderOf(layout);
      if order.Err? {
        return Err(order.error);
      }
      var usable := quote.AssertUsableForSwap(order.value, args.expectedSequence, slot);
      if usable.Err? {
        return usable;
      }
      if paused {
        return Err(PoolConfigPaused);
      }
      if !(vault.target > 0) {
        return Err(UninitializedInventoryTarget);
      }
      return Ok(());
    }

    method InitializeReferenceQuoteState(signer: Key, quoteAuthority: Key) returns (r: Outcome<()>)
      requires Valid()
      modifies quote, quote.padding
      ensures Agrees(r, View(), Step(old(View()), Transaction(signer, 0, InitializeQuoteState(quoteAuthority))))
    {
      hide AfterInitializeQuote;
      r := CheckAuthority(Config(), signer);
      if r.Ok? {
        r := quote.Initialize(Config(), quoteAuthority);
      }
    }

    method UpdateCurveSlots(signer: Key, instruction: Instruction) returns (r: Outcome<()>)
      requires Valid() && (instruction.InitializeCurveSlots? || instruction.StageCurve? || instruction.ActivateCurve?)
      modifies curve
      ensures Agrees(r, View(), Step(old(View()), Transaction(signer, 0, instruction)))
    {
      hide AfterStage, AfterActivate;
      if instruction.InitializeCurveSlots? {
        r := CheckAuthority(Config(), signer);
        if r.Err? {
          return;
        }
        if curve.live {
          return Err(AccountInUse);
        }
        curve.Store(CurveView(true, authority, 0, 0, NO_KEY, 0));
        return Ok(());
      }
      r := CheckCurve(View(), signer);
      if r.Err? {
        return;
      }
      if instruction.StageCurve? {
        r := curve.Stage(instruction.slot, instruction.hash, instruction.sequence);
      } else {
        r := curve.Activate(instruction.slot, instruction.hash, instruction.sequence);
      }
    }

    method InitializeMakerVaults(signer: Key) returns (r: Outcome<()>)
      requires Valid()
      modifies this`base, this`quoteVault, vault
      ensures Agrees(r, View(), Step(old(View()), Transaction(signer, 0, InitializeVaults)))
    {
      r := CheckAuthority(Config(), signer);
      if r.Err? {
        return;
      }
      if vault.live {
        return Err(AccountInUse);
      }
      vault.Store(VaultView(true, authority, false, 0));
      base, quoteVault := 0, 0;
      return Ok(());
    }

    method Handle(tx: Transaction) returns (r: Outcome<()>)
      requires Valid()
      modifies this, quote, quote.padding, curve, vault
      ensures Agrees(r, View(), Step(old(View()), tx))
    {
      hide AfterInitializePool, AfterUpdateQuote, AfterUpdateQuoteV2, AfterFund, AfterSwap, AfterInitializeQuote,
           AfterStage, AfterActivate, CheckCurve, Moved;
      match tx.instruction
      case InitializePool(params, envelope, budget, pair, bump) =>
        r := InitializeReferenceQuotePool(tx.signer, params, envelope, budget, pair, bump);
      case InitializeQuoteState(quoteAuthority) => r := InitializeReferenceQuoteState(tx.signer, quoteAuthority);
      case UpdateQuote(args) => r := UpdateReferenceQuote(tx.signer, args, tx.slot);
      case UpdateQuoteV2(args, spreadBps) => r := UpdateReferenceQuoteV2(tx.signer, args, spreadBps, tx.slot);
      case PausePool(value) =>
        r := CheckAuthority(Config(), tx.signer);
        if r.Ok? {
          paused := value;
        }
      case InitializeVaults => r := InitializeMakerVaults(tx.signer);
      case FundPool(baseAmount, quoteAmount) => r := FundPool(tx.signer, baseAmount, quoteAmount);
      case SwapExactIn(args) => r := SwapExactIn(args, tx.slot);
      case Donate(baseAmount, quoteAmount) =>
        if !vault.live {
          r := Err(AccountNotInitialized);
        } else {
          r := Transfer(baseAmount, 0, quoteAmount, 0);
        }
      case _ => r := UpdateCurveSlots(tx.signer, tx.instruction);
    }

    /** The runtime around a handler: a failed transaction leaves every account as it was. */
    method Execute(tx: Transaction) returns (r: Outcome<()>)
      requires Valid()
      modifies this, quote, quote.padding, curve, vault
      ensures match Step(old(View()), tx)
              case Ok(next) => r.Ok? && View() == next
              case Err(error) => r == Err(error) && View() == old(View())
    {
      hide Step;
      var before := View();
      r := Handle(tx);
      if r.Err? {
        Rollback(before);
      }
    }

    method Rollback(before: Pool)
      requires Valid()
      modifies this, quote, quote.padding, curve, vault
      ensures View() == before
    {
      var config := before.config;
      live, authority, paused, layout := config.live, config.authority, config.paused, config.layout;
      quote.Store(before.quote);
      curve.Store(before.curve);
      vault.Store(before.vault);
      base, quoteVault := before.base, before.quoteVault;
    }
  }
}
