/** Reference-price quoting with explicit quote-age states. */
module ReferenceQuote {
  import opened Numbers
  import opened FixedPoint

  const I32_MIN: int := -0x8000_0000
  const I32_MAX: int := 0x7fff_ffff

  datatype AgeState = Fresh | Aging | Protected | Expired | Paused

  datatype State = State(baseInventory: u64, quoteInventory: u64, targetBase: u64, midPrice: u128,
                         publishSlot: u64, nowSlot: u64, paused: bool)

  datatype Params = Params(feeBps: u16, baseHalfSpreadBps: u16, agingStart: u64, protectedStart: u64, expire: u64,
                           surchargePerSlot: u16, maxSurcharge: u16, maxTrade: u64, protectedMaxTrade: u64,
                           skewPer10k: u16, maxSkew: u16, hardBandBps: u16)

  datatype Quote = Quote(ageState: AgeState, amountInLessFee: u64, amountOut: u64, newBase: u64, newQuote: u64,
                         effectivePrice: u128, spreadBps: u16, imbalanceBps: int)

  predicate ValidParams(p: Params) {
    && p.feeBps < BASIS_POINTS && p.baseHalfSpreadBps < BASIS_POINTS && p.maxSurcharge < BASIS_POINTS
    && p.skewPer10k < BASIS_POINTS && p.maxSkew < BASIS_POINTS
    && p.agingStart <= p.protectedStart < p.expire
    && 0 < p.protectedMaxTrade <= p.maxTrade
  }

  function Age(s: State): u64 {
    SaturatingSub(s.nowSlot, s.publishSlot)
  }

  function AgeStateOf(s: State, p: Params): Result<AgeState, MathError> {
    if !ValidParams(p) then Err(InvalidConfig)
    else if s.paused then Ok(Paused)
    else if Age(s) >= p.expire then Ok(Expired)
    else if Age(s) >= p.protectedStart then Ok(Protected)
    else if Age(s) >= p.agingStart then Ok(Aging)
    else Ok(Fresh)
  }

  function AmountLessFee(amount: u64, feeBps: u16): Result<u64, MathError> {
    if feeBps >= BASIS_POINTS then Err(InvalidFee)
    else
      MulNonNeg(amount, BASIS_POINTS - feeBps);
      MulLe(BASIS_POINTS - feeBps, BASIS_POINTS, amount);
      var r := amount * (BASIS_POINTS - feeBps) / BASIS_POINTS;
      if r == 0 then Err(InvalidAmount) else Ok(r)
  }

  function BaseEquivalent(midPrice: u128, amountIn: u64, baseToQuote: bool): Result<u64, MathError> {
    if baseToQuote then Ok(amountIn) else DivAmountFloor(midPrice, amountIn)
  }

  /** The largest trade for an age: full while fresh, sliding down while aging, small when protected. */
  function MaxTradeFor(s: State, p: Params, ageState: AgeState): (r: int) {
    match ageState
    case Fresh => p.maxTrade
    case Protected => p.protectedMaxTrade
    case Aging =>
      var span := Max(SaturatingSub(p.protectedStart, p.agingStart), 1);
      var into := Min(SaturatingSub(Age(s), p.agingStart), span);
      var decay := SaturatingSub(p.maxTrade, p.protectedMaxTrade);
      SaturatingSub(p.maxTrade, decay * into / span)
    case _ => 0
  }

  function Surcharge(s: State, p: Params): (r: u16)
    ensures r <= p.maxSurcharge
  {
    MulNonNeg(SaturatingSub(Age(s), p.agingStart), p.surchargePerSlot);
    Min(SaturatingSub(Age(s), p.agingStart) * p.surchargePerSlot, p.maxSurcharge)
  }

  function ImbalanceBps(base: u64, target: u64): (r: int)
    ensures I32_MIN <= r <= I32_MAX
  {
    if target == 0 then 0 else Clamp(TruncDiv((base - target) * BASIS_POINTS, target), I32_MIN, I32_MAX)
  }

  /** 32-bit absolute value; the smallest value has no counterpart and saturates. */
  function AbsI32(x: int): int {
    if x < 0 then Min(-x, I32_MAX) else x
  }

  function SkewBps(imbalanceBps: int, p: Params): (r: int)
    ensures 0 - p.maxSkew <= r <= p.maxSkew
  {
    Clamp(TruncDiv(imbalanceBps * p.skewPer10k, BASIS_POINTS), 0 - p.maxSkew, p.maxSkew)
  }

  function FactorBps(spreadBps: int, skewBps: int, baseToQuote: bool): int {
    if baseToQuote then BASIS_POINTS - spreadBps - skewBps else BASIS_POINTS + spreadBps - skewBps
  }

  function EffectivePrice(midPrice: u128, spreadBps: int, skewBps: int, baseToQuote: bool): Result<u128, MathError> {
    var factor := FactorBps(spreadBps, skewBps, baseToQuote);
    if factor <= 0 then Err(InvalidConfig) else MulDiv(midPrice, factor, BASIS_POINTS)
  }

  /** The 16-bit spread of a quote: half spread plus age surcharge, saturating. */
  function SpreadBps(s: State, p: Params): (r: u16) {
    Min(p.baseHalfSpreadBps + Surcharge(s, p), TWO_16 - 1)
  }

  function QuoteExactIn(s: State, p: Params, amountIn: u64, baseToQuote: bool): Result<Quote, MathError> {
    if !ValidParams(p) then Err(InvalidConfig)
    else if amountIn == 0 then Err(InvalidAmount)
    else if s.baseInventory == 0 || s.quoteInventory == 0 then Err(EmptyLiquidity)
    else if s.targetBase == 0 then Err(InvalidConfig)
    else
      var ageState :- AgeStateOf(s, p);
      if ageState == Paused then Err(PoolPaused)
      else if ageState == Expired then Err(StaleQuote)
      else
        var baseEquivalent :- BaseEquivalent(s.midPrice, amountIn, baseToQuote);
        if baseEquivalent == 0 || baseEquivalent > MaxTradeFor(s, p, ageState) then
          Err(if ageState == Protected then QuoteProtected else InvalidAmount)
        else
          var net :- AmountLessFee(amountIn, p.feeBps);
          var imbalance := ImbalanceBps(s.baseInventory, s.targetBase);
          var price :- EffectivePrice(s.midPrice, SpreadBps(s, p), SkewBps(imbalance, p), baseToQuote);
          var amountOut :- if baseToQuote then MulAmountFloor(price, net) else DivAmountFloor(price, net);
          if amountOut == 0 || amountOut >= (if baseToQuote then s.quoteInventory else s.baseInventory) then
            Err(InvalidAmount)
          else if (if baseToQuote then s.baseInventory else s.quoteInventory) + amountIn >= TWO_64 then Err(Overflow)
          else
            var newBase := if baseToQuote then s.baseInventory + amountIn else s.baseInventory - amountOut;
            var newQuote := if baseToQuote then s.quoteInventory - amountOut else s.quoteInventory + amountIn;
            if AbsI32(ImbalanceBps(newBase, s.targetBase)) > p.hardBandBps then Err(InventoryBand)
            else Ok(Quote(ageState, net, amountOut, newBase, newQuote, price, SpreadBps(s, p), imbalance))
  }
}
