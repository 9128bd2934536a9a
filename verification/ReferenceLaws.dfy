/** Laws of reference quoting: what ageing does, why a round trip cannot profit, and which
    configurations can never produce a configuration error. */
module ReferenceLaws {
  import opened Numbers
  import opened FixedPoint
  import opened ReferenceQuote

  // ---- What a quote settles ----

  /** Everything an accepted quote guarantees: a live age, a trade inside the age's cap, the
      in-amount added and the out-amount removed with both inventories left positive, and
      the new base inventory inside the hard band. */
  lemma QuoteSettles(s: State, p: Params, amountIn: u64, baseToQuote: bool)
    requires QuoteExactIn(s, p, amountIn, baseToQuote).Ok?
    ensures var q := QuoteExactIn(s, p, amountIn, baseToQuote).value;
            && !s.paused && Age(s) < p.expire
            && AgeStateOf(s, p) == Ok(q.ageState) && q.ageState in {Fresh, Aging, Protected}
            && BaseEquivalent(s.midPrice, amountIn, baseToQuote).Ok?
            && 0 < BaseEquivalent(s.midPrice, amountIn, baseToQuote).value <= MaxTradeFor(s, p, q.ageState)
            && 0 < q.amountOut && 0 < q.newBase && 0 < q.newQuote
            && (if baseToQuote then
                  q.newBase == s.baseInventory + amountIn && q.newQuote == s.quoteInventory - q.amountOut
                else
                  q.newBase == s.baseInventory - q.amountOut && q.newQuote == s.quoteInventory + amountIn)
            && InsideBand(q.newBase, s.targetBase, p.hardBandBps)
  {
    hide MulAmountFloor, DivAmountFloor, EffectivePrice, AmountLessFee, MaxTradeFor, SpreadBps, SkewBps;
    var q := QuoteExactIn(s, p, amountIn, baseToQuote).value;
    BandMeaning(q.newBase, s.targetBase, p.hardBandBps);
  }

  /** The inventory is off target by at most `bandBps` basis points, rounded toward zero. */
  predicate InsideBand(base: int, target: int, bandBps: int)
    requires 0 < target
  {
    Abs(base - target) * BASIS_POINTS < (bandBps + 1) * target
  }

  /** The clamped, truncating 32-bit comparison is the plain rational one. */
  lemma BandMeaning(base: u64, target: u64, bandBps: u16)
    requires 0 < target
    ensures AbsI32(ImbalanceBps(base, target)) <= bandBps <==> InsideBand(base, target, bandBps)
  {
    var off := Abs(base - target) * BASIS_POINTS;
    DivAtLeast(off, target, bandBps + 1);
    DivNonNeg(off, target);
  }

  // ---- The terms of a quote ----

  /** How many slots ago the quote was published. */
  function Elapsed(s: State): int {
    Max(s.nowSlot - s.publishSlot, 0)
  }

  /** The age states are the intervals between the three thresholds. */
  lemma AgeStateIs(s: State, p: Params)
    requires ValidParams(p) && !s.paused
    ensures AgeStateOf(s, p) == Ok(Fresh) <==> Elapsed(s) < p.agingStart
    ensures AgeStateOf(s, p) == Ok(Aging) <==> p.agingStart <= Elapsed(s) < p.protectedStart
    ensures AgeStateOf(s, p) == Ok(Protected) <==> p.protectedStart <= Elapsed(s) < p.expire
    ensures AgeStateOf(s, p) == Ok(Expired) <==> p.expire <= Elapsed(s)
  {
  }

  /** The size cap of a live quote: full, sliding, small. While it slides, what it has lost is the
      elapsed part of the window, rounded down, of all it will lose. */
  predicate CapIs(s: State, p: Params, cap: int) {
    if Elapsed(s) < p.agingStart then cap == p.maxTrade
    else if Elapsed(s) < p.protectedStart then
      var span, lost := p.protectedStart - p.agingStart, p.maxTrade - cap;
      lost * span <= (p.maxTrade - p.protectedMaxTrade) * (Elapsed(s) - p.agingStart) < lost * span + span
    else cap == p.protectedMaxTrade
  }

  lemma CapMeaning(s: State, p: Params)
    requires ValidParams(p) && !s.paused && Elapsed(s) < p.expire
    ensures AgeStateOf(s, p).Ok? && CapIs(s, p, MaxTradeFor(s, p, AgeStateOf(s, p).value))
  {
    if p.agingStart <= Elapsed(s) < p.protectedStart {
      CapWhileAging(s, p);
      var decay, span := p.maxTrade - p.protectedMaxTrade, p.protectedStart - p.agingStart;
      DivBounds(decay * (Elapsed(s) - p.agingStart), span);
    }
  }

  /** The spread: the half spread, and for every slot past the ageing threshold a surcharge up to
      its maximum. */
  lemma SpreadMeaning(s: State, p: Params)
    requires ValidParams(p)
    ensures SpreadBps(s, p)
         == p.baseHalfSpreadBps + Min(Max(Elapsed(s) - p.agingStart, 0) * p.surchargePerSlot, p.maxSurcharge)
  {
  }

  /** The imbalance has the sign of the excess over the target and its size in basis points,
      rounded toward zero, as far as 32 bits go. */
  predicate ImbalanceIs(base: u64, target: u64, bps: int) {
    && (base >= target ==> 0 <= bps <= I32_MAX) && (base <= target ==> -BASIS_POINTS <= bps <= 0)
    && Abs(bps) * target <= Abs(base - target) * BASIS_POINTS
    && (bps == I32_MAX || Abs(base - target) * BASIS_POINTS < Abs(bps) * target + target)
  }

  lemma ImbalanceMeaning(base: u64, target: u64)
    requires 0 < target
    ensures ImbalanceIs(base, target, ImbalanceBps(base, target))
  {
    var off := Abs(base - target) * BASIS_POINTS;
    DivBounds(off, target);
    DivNonNeg(off, target);
    if base < target {
      DivMono(off, BASIS_POINTS * target, target);
      DivUnique(BASIS_POINTS * target, target, BASIS_POINTS);
    } else if off / target > I32_MAX {
      MulLe(I32_MAX, off / target, target);
    }
  }

  /** The skew has the sign of the imbalance and its size in proportion, rounded toward zero, up to
      the skew cap. */
  predicate SkewIs(imbalanceBps: int, p: Params, skew: int) {
    && (imbalanceBps >= 0 ==> 0 <= skew <= p.maxSkew) && (imbalanceBps <= 0 ==> 0 - p.maxSkew <= skew <= 0)
    && Abs(skew) * BASIS_POINTS <= Abs(imbalanceBps) * p.skewPer10k
    && (Abs(skew) == p.maxSkew || Abs(imbalanceBps) * p.skewPer10k < Abs(skew) * BASIS_POINTS + BASIS_POINTS)
  }

  lemma SkewMeaning(imbalanceBps: int, p: Params)
    ensures SkewIs(imbalanceBps, p, SkewBps(imbalanceBps, p))
  {
    var size := Abs(imbalanceBps) * p.skewPer10k;
    MulNonNeg(Abs(imbalanceBps), p.skewPer10k);
    DivBounds(size, BASIS_POINTS);
    DivNonNeg(size, BASIS_POINTS);
    assert imbalanceBps * p.skewPer10k == if imbalanceBps >= 0 then size else -size;
  }

  /** The effective price: the mid price less the spread for a seller and plus the spread for a
      buyer, less the skew for both, rounded down; without a positive factor a bad
      configuration, and beyond 128 bits an overflow. */
  lemma PriceMeaning(midPrice: u128, spreadBps: int, skewBps: int, baseToQuote: bool)
    ensures var kept := if baseToQuote then BASIS_POINTS - spreadBps - skewBps else BASIS_POINTS + spreadBps - skewBps;
            match EffectivePrice(midPrice, spreadBps, skewBps, baseToQuote)
            case Ok(price) => kept > 0 && price * BASIS_POINTS <= midPrice * kept < price * BASIS_POINTS + BASIS_POINTS
            case Err(error) =>
              if kept <= 0 then error == InvalidConfig
              else error == Overflow && TWO_128 * BASIS_POINTS <= midPrice * kept
  {
    var kept := if baseToQuote then BASIS_POINTS - spreadBps - skewBps else BASIS_POINTS + spreadBps - skewBps;
    DivBounds(midPrice * kept, BASIS_POINTS);
    DivAtLeast(midPrice * kept, BASIS_POINTS, TWO_128);
  }

  /** What the fee leaves of an amount, rounded down; nothing left is no amount. */
  lemma NetMeaning(amount: u64, feeBps: u16)
    requires feeBps < BASIS_POINTS
    ensures match AmountLessFee(amount, feeBps)
            case Ok(net) =>
              0 < net && net * BASIS_POINTS <= amount * (BASIS_POINTS - feeBps) < net * BASIS_POINTS + BASIS_POINTS
            case Err(error) => error == InvalidAmount && amount * (BASIS_POINTS - feeBps) < BASIS_POINTS
  {
    DivBounds(amount * (BASIS_POINTS - feeBps), BASIS_POINTS);
  }

  // ---- Ageing ----

  function Rank(a: AgeState): int {
    match a
    case Fresh => 0
    case Aging => 1
    case Protected => 2
    case Expired => 3
    case Paused => 4
  }

  /** The same pool looked at in a later slot. */
  predicate Later(s: State, t: State) {
    t == s.(nowSlot := t.nowSlot) && s.nowSlot <= t.nowSlot
  }

  lemma CapWhileAging(s: State, p: Params)
    requires ValidParams(p) && p.agingStart < p.protectedStart
    ensures p.protectedMaxTrade <= MaxTradeFor(s, p, Aging) <= p.maxTrade
    ensures MaxTradeFor(s, p, Aging)
         == p.maxTrade - (p.maxTrade - p.protectedMaxTrade)
                         * Min(SaturatingSub(Age(s), p.agingStart), p.protectedStart - p.agingStart)
                         / (p.protectedStart - p.agingStart)
  {
    var decay, span := p.maxTrade - p.protectedMaxTrade, p.protectedStart - p.agingStart;
    var into := Min(SaturatingSub(Age(s), p.agingStart), span);
    MulNonNeg(decay, into);
    DivNonNeg(decay * into, span);
    MulLe(into, span, decay);
    DivMono(decay * into, decay * span, span);
    DivUnique(decay * span, span, decay);
  }

  /** Waiting moves the state only forward through Fresh, Aging, Protected and Expired, never
      raises the size cap, which stays between the two configured caps until expiry, and
      never narrows the spread. */
  lemma AgeingOnlyTightens(s: State, t: State, p: Params)
    requires ValidParams(p) && Later(s, t) && !s.paused
    ensures AgeStateOf(s, p).Ok? && AgeStateOf(t, p).Ok?
    ensures var before, after := AgeStateOf(s, p).value, AgeStateOf(t, p).value;
            && Rank(before) <= Rank(after) <= 3
            && MaxTradeFor(t, p, after) <= MaxTradeFor(s, p, before)
            && (after != Expired ==> p.protectedMaxTrade <= MaxTradeFor(t, p, after) <= p.maxTrade)
            && Surcharge(s, p) <= Surcharge(t, p) && SpreadBps(s, p) <= SpreadBps(t, p)
  {
    MulLe(SaturatingSub(Age(s), p.agingStart), SaturatingSub(Age(t), p.agingStart), p.surchargePerSlot);
    if p.agingStart < p.protectedStart {
      CapWhileAging(s, p);
      CapWhileAging(t, p);
      var decay, span := p.maxTrade - p.protectedMaxTrade, p.protectedStart - p.agingStart;
      var intoS := Min(SaturatingSub(Age(s), p.agingStart), span);
      var intoT := Min(SaturatingSub(Age(t), p.agingStart), span);
      MulLe(intoS, intoT, decay);
      DivMono(decay * intoS, decay * intoT, span);
    }
  }

  // ---- Prices and payouts ----

  /** The part of an order that reaches the price, and what the price makes of it. */
  function Payout(price: u128, net: u64, baseToQuote: bool): Result<u64, MathError> {
    if baseToQuote then MulAmountFloor(price, net) else DivAmountFloor(price, net)
  }

  /** The pieces an accepted quote was put together from. */
  lemma QuoteParts(s: State, p: Params, amountIn: u64, baseToQuote: bool)
    requires QuoteExactIn(s, p, amountIn, baseToQuote).Ok?
    ensures var q := QuoteExactIn(s, p, amountIn, baseToQuote).value;
            && AmountLessFee(amountIn, p.feeBps) == Ok(q.amountInLessFee)
            && q.amountInLessFee <= amountIn
            && q.spreadBps == SpreadBps(s, p) && q.imbalanceBps == ImbalanceBps(s.baseInventory, s.targetBase)
            && EffectivePrice(s.midPrice, q.spreadBps, SkewBps(q.imbalanceBps, p), baseToQuote) == Ok(q.effectivePrice)
            && Payout(q.effectivePrice, q.amountInLessFee, baseToQuote) == Ok(q.amountOut)
  {
    hide MulAmountFloor, DivAmountFloor, EffectivePrice, MaxTradeFor, SpreadBps, SkewBps, ImbalanceBps;
    MulLe(BASIS_POINTS - p.feeBps, BASIS_POINTS, amountIn);
  }

  /** A payout in the multiplicative terms the proofs below need. */
  lemma PayoutMeaning(price: u128, net: u64, baseToQuote: bool, out: u64)
    requires Payout(price, net, baseToQuote) == Ok(out)
    ensures if baseToQuote then out * Q64 <= net * price < (out + 1) * Q64
            else price > 0 && out * price <= net * Q64 < (out + 1) * price
  {
    if baseToQuote {
      DivBounds(net * price, Q64);
    } else {
      DivBounds(net * Q64, price);
      assert (out + 1) * price == out * price + price;
    }
  }

  /** The price of a quote, from the inputs alone. */
  predicate PricedFrom(s: State, p: Params, baseToQuote: bool, q: Quote, skew: int) {
    var spread := p.baseHalfSpreadBps + Min(Max(Elapsed(s) - p.agingStart, 0) * p.surchargePerSlot, p.maxSurcharge);
    var kept := if baseToQuote then BASIS_POINTS - spread - skew else BASIS_POINTS + spread - skew;
    && q.spreadBps == spread
    && ImbalanceIs(s.baseInventory, s.targetBase, q.imbalanceBps) && SkewIs(q.imbalanceBps, p, skew)
    && q.effectivePrice * BASIS_POINTS <= s.midPrice * kept < q.effectivePrice * BASIS_POINTS + BASIS_POINTS
  }

  /** The amounts of a quote, from the order, the fee and the price. */
  predicate PaidFrom(feeBps: u16, amountIn: u64, baseToQuote: bool, q: Quote) {
    var price, net, out := q.effectivePrice, q.amountInLessFee, q.amountOut;
    && net * BASIS_POINTS <= amountIn * (BASIS_POINTS - feeBps) < net * BASIS_POINTS + BASIS_POINTS
    && (if baseToQuote then out * Q64 <= net * price < out * Q64 + Q64
        else out * price <= net * Q64 < out * price + price)
  }

  /** What an accepted quote pays, from the order, the state and the parameters, with every floor
      as the bracket it rounds into: the spread of the age, the skew of the inventory, the price
      they make of the mid price on the side of the order, the net amount, and the output at
      that price. */
  lemma QuotePays(s: State, p: Params, amountIn: u64, baseToQuote: bool) returns (skew: int)
    requires QuoteExactIn(s, p, amountIn, baseToQuote).Ok?
    ensures var q := QuoteExactIn(s, p, amountIn, baseToQuote).value;
            PricedFrom(s, p, baseToQuote, q, skew) && PaidFrom(p.feeBps, amountIn, baseToQuote, q)
  {
    var q := QuoteExactIn(s, p, amountIn, baseToQuote).value;
    AcceptedInputs(s, p, amountIn, baseToQuote);
    QuoteParts(s, p, amountIn, baseToQuote);
    skew := SkewBps(q.imbalanceBps, p);
    hide QuoteExactIn, AmountLessFee, EffectivePrice, ImbalanceBps, SkewBps, SpreadBps, Payout, PricedFrom, PaidFrom;
    PriceFromParts(s, p, baseToQuote, q);
    PayoutMeaning(q.effectivePrice, q.amountInLessFee, baseToQuote, q.amountOut);
    AmountsFromParts(p.feeBps, amountIn, baseToQuote, q);
  }

  lemma PriceFromParts(s: State, p: Params, baseToQuote: bool, q: Quote)
    requires ValidParams(p) && 0 < s.targetBase
    requires q.spreadBps == SpreadBps(s, p) && q.imbalanceBps == ImbalanceBps(s.baseInventory, s.targetBase)
    requires EffectivePrice(s.midPrice, q.spreadBps, SkewBps(q.imbalanceBps, p), baseToQuote) == Ok(q.effectivePrice)
    ensures PricedFrom(s, p, baseToQuote, q, SkewBps(q.imbalanceBps, p))
  {
    SpreadMeaning(s, p);
    ImbalanceMeaning(s.baseInventory, s.targetBase);
    SkewMeaning(q.imbalanceBps, p);
    PriceMeaning(s.midPrice, q.spreadBps, SkewBps(q.imbalanceBps, p), baseToQuote);
    hide EffectivePrice, ImbalanceBps, SkewBps, SpreadBps, ImbalanceIs, SkewIs;
  }

  lemma AmountsFromParts(feeBps: u16, amountIn: u64, baseToQuote: bool, q: Quote)
    requires feeBps < BASIS_POINTS && AmountLessFee(amountIn, feeBps) == Ok(q.amountInLessFee)
    requires if baseToQuote then q.amountOut * Q64 <= q.amountInLessFee * q.effectivePrice < (q.amountOut + 1) * Q64
             else
               && q.effectivePrice > 0
               && q.amountOut * q.effectivePrice <= q.amountInLessFee * Q64 < (q.amountOut + 1) * q.effectivePrice
    ensures PaidFrom(feeBps, amountIn, baseToQuote, q)
  {
    NetMeaning(amountIn, feeBps);
    hide AmountLessFee;
    assert (q.amountOut + 1) * q.effectivePrice == q.amountOut * q.effectivePrice + q.effectivePrice;
  }

  lemma AcceptedInputs(s: State, p: Params, amountIn: u64, baseToQuote: bool)
    requires QuoteExactIn(s, p, amountIn, baseToQuote).Ok?
    ensures ValidParams(p) && 0 < amountIn && 0 < s.baseInventory && 0 < s.quoteInventory && 0 < s.targetBase
  {
    hide MulAmountFloor, DivAmountFloor, EffectivePrice, AmountLessFee, MaxTradeFor, SpreadBps, SkewBps, ImbalanceBps;
  }

  lemma PriceFollowsFactor(midPrice: u128, spreadA: int, skewA: int, sideA: bool, spreadB: int, skewB: int, sideB: bool)
    requires EffectivePrice(midPrice, spreadA, skewA, sideA).Ok? && EffectivePrice(midPrice, spreadB, skewB, sideB).Ok?
    requires FactorBps(spreadA, skewA, sideA) <= FactorBps(spreadB, skewB, sideB)
    ensures EffectivePrice(midPrice, spreadA, skewA, sideA).value
         <= EffectivePrice(midPrice, spreadB, skewB, sideB).value
  {
    var a, b := FactorBps(spreadA, skewA, sideA), FactorBps(spreadB, skewB, sideB);
    MulLe(a, b, midPrice);
    DivMono(midPrice * a, midPrice * b, BASIS_POINTS);
  }

  /** Of two accepted quotes for one order on one inventory, the older never pays more. */
  lemma OlderNeverPaysMore(s: State, t: State, p: Params, amountIn: u64, baseToQuote: bool)
    requires Later(s, t)
    requires QuoteExactIn(s, p, amountIn, baseToQuote).Ok? && QuoteExactIn(t, p, amountIn, baseToQuote).Ok?
    ensures QuoteExactIn(t, p, amountIn, baseToQuote).value.amountOut
         <= QuoteExactIn(s, p, amountIn, baseToQuote).value.amountOut
  {
    QuoteSettles(s, p, amountIn, baseToQuote);
    AgeingOnlyTightens(s, t, p);
    QuoteParts(s, p, amountIn, baseToQuote);
    QuoteParts(t, p, amountIn, baseToQuote);
    var young := QuoteExactIn(s, p, amountIn, baseToQuote).value;
    var elder := QuoteExactIn(t, p, amountIn, baseToQuote).value;
    hide QuoteExactIn, SkewBps, ImbalanceBps, EffectivePrice, Payout;
    var skew, net := SkewBps(young.imbalanceBps, p), young.amountInLessFee;
    PayoutMeaning(young.effectivePrice, net, baseToQuote, young.amountOut);
    PayoutMeaning(elder.effectivePrice, net, baseToQuote, elder.amountOut);
    if baseToQuote {
      PriceFollowsFactor(s.midPrice, elder.spreadBps, skew, true, young.spreadBps, skew, true);
      MulLe(elder.effectivePrice, young.effectivePrice, net);
      BelowNext(elder.amountOut, young.amountOut, Q64);
    } else {
      PriceFollowsFactor(s.midPrice, young.spreadBps, skew, false, elder.spreadBps, skew, false);
      MulLe(young.effectivePrice, elder.effectivePrice, elder.amountOut);
      BelowNext(elder.amountOut, young.amountOut, young.effectivePrice);
    }
  }

  lemma BelowNext(a: int, b: int, unit: int)
    requires 0 < unit && a * unit < (b + 1) * unit
    ensures a <= b
  {
    if a >= b + 1 {
      MulLe(b + 1, a, unit);
    }
  }

  // ---- Configurations that cannot fail ----

  /** The worst spread, surcharge and skew together stay below one. */
  predicate SpreadEnvelope(p: Params) {
    p.baseHalfSpreadBps + p.maxSurcharge + p.maxSkew < BASIS_POINTS
  }

  /** Inside the envelope the price factor stays positive on both sides, at every age and
      inventory, so the only errors left are those of the order, the age, the inventory and
      the number range. */
  lemma EnvelopeNeverInvalid(s: State, p: Params, amountIn: u64, baseToQuote: bool)
    requires ValidParams(p) && SpreadEnvelope(p) && s.targetBase > 0
    ensures var r := QuoteExactIn(s, p, amountIn, baseToQuote);
            r.Err? ==> r.error in {DivByZero, Overflow, InvalidAmount, EmptyLiquidity, StaleQuote, QuoteProtected,
                                   InventoryBand, PoolPaused}
    ensures forall imbalance: int ::
              Abs(SkewBps(imbalance, p)) + SpreadBps(s, p) < BASIS_POINTS
  {
  }
}
