/** The SDK's cached-state quote, written over unbounded integers, and its agreement with
    the fixed-width quote. */
module SdkQuote {
  import opened Numbers
  import opened FixedPoint
  import opened ReferenceQuote
  import opened ReferenceLaws

  /** The SDK's answer; its fields have no width. */
  datatype Answer = Answer(ageState: AgeState, amountInLessFee: int, amountOut: int, newBase: int, newQuote: int,
                           effectivePrice: int, spreadBps: int, imbalanceBps: int)

  function MulAmount(price: nat, amount: nat): (r: int) {
    amount * price / Q64
  }

  function DivAmount(price: nat, amount: nat): Result<int, MathError> {
    if price == 0 then Err(DivByZero) else Ok(amount * Q64 / price)
  }

  /** The five rates one after the other, then the windows and the limits. */
  predicate ParamsAreValid(p: Params) {
    && (forall rate :: rate in [p.feeBps, p.baseHalfSpreadBps, p.maxSurcharge, p.skewPer10k, p.maxSkew] ==>
          0 <= rate < BASIS_POINTS)
    && !(p.agingStart > p.protectedStart || p.protectedStart >= p.expire || p.expire == 0 || p.maxTrade == 0
         || p.protectedMaxTrade == 0 || p.protectedMaxTrade > p.maxTrade)
  }

  function QuoteAge(s: State): int {
    if s.nowSlot > s.publishSlot then s.nowSlot - s.publishSlot else 0
  }

  function QuoteAgeState(s: State, p: Params): Result<AgeState, MathError> {
    if !ParamsAreValid(p) then Err(InvalidConfig)
    else if s.paused then Ok(Paused)
    else if QuoteAge(s) >= p.expire then Ok(Expired)
    else if QuoteAge(s) >= p.protectedStart then Ok(Protected)
    else if QuoteAge(s) >= p.agingStart then Ok(Aging)
    else Ok(Fresh)
  }

  function CapFor(s: State, p: Params, ageState: AgeState): int {
    match ageState
    case Fresh => p.maxTrade
    case Protected => p.protectedMaxTrade
    case Aging =>
      var span := if p.protectedStart - p.agingStart > 0 then p.protectedStart - p.agingStart else 1;
      var into := Min(if QuoteAge(s) > p.agingStart then QuoteAge(s) - p.agingStart else 0, span);
      p.maxTrade - (p.maxTrade - p.protectedMaxTrade) * into / span
    case _ => 0
  }

  function AgeSurcharge(s: State, p: Params): (r: int)
    ensures 0 <= r <= p.maxSurcharge
  {
    var slots: int := if QuoteAge(s) > p.agingStart then QuoteAge(s) - p.agingStart else 0;
    MulNonNeg(slots, p.surchargePerSlot);
    Min(slots * p.surchargePerSlot, p.maxSurcharge)
  }

  function Imbalance(base: int, target: nat): int {
    if target == 0 then 0
    else
      var bps := TruncDiv((base - target) * BASIS_POINTS, target);
      if bps < I32_MIN then I32_MIN else if bps > I32_MAX then I32_MAX else bps
  }

  function Skew(imbalanceBps: int, p: Params): int {
    Min(Max(TruncDiv(imbalanceBps * p.skewPer10k, BASIS_POINTS), 0 - p.maxSkew), p.maxSkew)
  }

  function Price(midPrice: nat, spreadBps: int, skewBps: int, baseToQuote: bool): (r: Result<int, MathError>)
    ensures r.Ok? ==> r.value >= 0
  {
    var factor := if baseToQuote then BASIS_POINTS - spreadBps - skewBps else BASIS_POINTS + spreadBps - skewBps;
    if factor <= 0 then Err(InvalidConfig)
    else
      MulNonNeg(midPrice, factor);
      Ok(midPrice * factor / BASIS_POINTS)
  }

  function NetAmount(amount: nat, feeBps: u16): (r: Result<int, MathError>)
    ensures r.Ok? ==> r.value > 0
  {
    if feeBps >= BASIS_POINTS then Err(InvalidFee)
    else
      MulNonNeg(amount, BASIS_POINTS - feeBps);
      var r := amount * (BASIS_POINTS - feeBps) / BASIS_POINTS;
      if r == 0 then Err(InvalidAmount) else Ok(r)
  }

  function QuoteReferenceExactIn(s: State, p: Params, amountIn: nat, baseToQuote: bool): Result<Answer, MathError> {
    if !ParamsAreValid(p) then Err(InvalidConfig)
    else if amountIn <= 0 then Err(InvalidAmount)
    else if s.baseInventory == 0 || s.quoteInventory == 0 then Err(EmptyLiquidity)
    else if s.targetBase == 0 || s.midPrice == 0 then Err(InvalidConfig)
    else
      var ageState :- QuoteAgeState(s, p);
      if ageState == Paused then Err(PoolPaused)
      else if ageState == Expired then Err(StaleQuote)
      else
        var baseEquivalent :- if baseToQuote then Ok(amountIn) else DivAmount(s.midPrice, amountIn);
        if baseEquivalent == 0 || baseEquivalent > CapFor(s, p, ageState) then
          Err(if ageState == Protected then QuoteProtected else InvalidAmount)
        else
          var net :- NetAmount(amountIn, p.feeBps);
          var imbalance := Imbalance(s.baseInventory, s.targetBase);
          var spread := p.baseHalfSpreadBps + AgeSurcharge(s, p);
          var price :- Price(s.midPrice, spread, Skew(imbalance, p), baseToQuote);
          var amountOut :- if baseToQuote then Ok(MulAmount(price, net)) else DivAmount(price, net);
          if amountOut == 0 || amountOut >= (if baseToQuote then s.quoteInventory else s.baseInventory) then
            Err(InvalidAmount)
          else
            var newBase := if baseToQuote then s.baseInventory + amountIn else s.baseInventory - amountOut;
            var newQuote := if baseToQuote then s.quoteInventory - amountOut else s.quoteInventory + amountIn;
            if Abs(Imbalance(newBase, s.targetBase)) > p.hardBandBps then Err(InventoryBand)
            else Ok(Answer(ageState, net, amountOut, newBase, newQuote, price, spread, imbalance))
  }

  // ---- Agreement ----

  function Widen(q: Quote): Answer {
    Answer(q.ageState, q.amountInLessFee, q.amountOut, q.newBase, q.newQuote, q.effectivePrice, q.spreadBps,
           q.imbalanceBps)
  }

  /** Both accept the same parameters and see the same age. */
  lemma DoorsAgree(s: State, p: Params)
    ensures ParamsAreValid(p) <==> ValidParams(p)
    ensures QuoteAgeState(s, p) == AgeStateOf(s, p) && QuoteAge(s) == Age(s)
  {
    var rates: seq<int> := [p.feeBps, p.baseHalfSpreadBps, p.maxSurcharge, p.skewPer10k, p.maxSkew];
    assert rates[0] in rates && rates[1] in rates && rates[2] in rates && rates[3] in rates && rates[4] in rates;
  }

  /** The helper formulas agree wherever the parameters are valid. */
  lemma HelpersAgree(s: State, p: Params, ageState: AgeState)
    requires ValidParams(p)
    ensures CapFor(s, p, ageState) == MaxTradeFor(s, p, ageState) < TWO_64
    ensures p.baseHalfSpreadBps + AgeSurcharge(s, p) == SpreadBps(s, p)
    ensures Imbalance(s.baseInventory, s.targetBase) == ImbalanceBps(s.baseInventory, s.targetBase)
    ensures forall imbalance: int :: Skew(imbalance, p) == SkewBps(imbalance, p)
  {
    if ageState == Aging && p.agingStart < p.protectedStart {
      CapWhileAging(s, p);
    }
  }

  /** The fixed-width pieces are the unbounded ones, or Overflow when the value does not fit. */
  lemma PiecesAgree(price: u128, amount: u64)
    ensures MulAmountFloor(price, amount)
         == if MulAmount(price, amount) >= TWO_64 then Err(Overflow) else Ok(MulAmount(price, amount))
    ensures DivAmountFloor(price, amount)
         == if DivAmount(price, amount).Err? then Err(DivByZero)
            else if DivAmount(price, amount).value >= TWO_64 then Err(Overflow) else Ok(DivAmount(price, amount).value)
    ensures MulAmount(price, amount) >= 0 && (DivAmount(price, amount).Ok? ==> DivAmount(price, amount).value >= 0)
  {
    MulNonNeg(price, amount);
    MulNonNeg(amount, Q64);
    DivNonNeg(amount * price, Q64);
    if price > 0 {
      DivNonNeg(amount * Q64, price);
    }
  }

  lemma PricesAgree(midPrice: u128, spreadBps: int, skewBps: int, baseToQuote: bool)
    ensures EffectivePrice(midPrice, spreadBps, skewBps, baseToQuote)
         == match Price(midPrice, spreadBps, skewBps, baseToQuote)
            case Err(error) => Err(error)
            case Ok(price) => if price >= TWO_128 then Err(Overflow) else Ok(price)
  {
  }

  lemma NetAmountsAgree(amount: u64, feeBps: u16)
    ensures match AmountLessFee(amount, feeBps)
            case Ok(net) => NetAmount(amount, feeBps) == Ok(net)
            case Err(error) => NetAmount(amount, feeBps) == Err(error)
  {
  }

  /** A zero mid price is never quoted. */
  lemma ZeroMidNeverQuotes(s: State, p: Params, amountIn: u64, baseToQuote: bool)
    requires s.midPrice == 0
    ensures QuoteExactIn(s, p, amountIn, baseToQuote).Err? && QuoteReferenceExactIn(s, p, amountIn, baseToQuote).Err?
  {
    if QuoteExactIn(s, p, amountIn, baseToQuote).Ok? {
      QuoteParts(s, p, amountIn, baseToQuote);
      QuoteSettles(s, p, amountIn, baseToQuote);
      var q := QuoteExactIn(s, p, amountIn, baseToQuote).value;
      hide QuoteExactIn, QuoteReferenceExactIn;
      PayoutMeaning(q.effectivePrice, q.amountInLessFee, baseToQuote, q.amountOut);
      assert false;
    }
  }

  /** What both quotes check first: parameters, amount, inventories and target. */
  predicate AtTheDoor(s: State, p: Params, amountIn: u64) {
    ValidParams(p) && amountIn > 0 && s.baseInventory > 0 && s.quoteInventory > 0 && s.targetBase > 0
  }

  lemma SameAnswerAtMid(s: State, p: Params, amountIn: u64, baseToQuote: bool)
    requires s.midPrice > 0
    ensures match QuoteExactIn(s, p, amountIn, baseToQuote)
            case Ok(q) => QuoteReferenceExactIn(s, p, amountIn, baseToQuote) == Ok(Widen(q))
            case Err(error) => error != Overflow ==> QuoteReferenceExactIn(s, p, amountIn, baseToQuote) == Err(error)
  {
    DoorsAgree(s, p);
    hide ParamsAreValid, QuoteAgeState;
    if ValidParams(p) && AgeStateOf(s, p).Ok? {
      HelpersAgree(s, p, AgeStateOf(s, p).value);
      PiecesAgree(s.midPrice, amountIn);
      NetAmountsAgree(amountIn, p.feeBps);
      var skew := SkewBps(ImbalanceBps(s.baseInventory, s.targetBase), p);
      PricesAgree(s.midPrice, SpreadBps(s, p), skew, baseToQuote);
      var net := AmountLessFee(amountIn, p.feeBps);
      var price := EffectivePrice(s.midPrice, SpreadBps(s, p), skew, baseToQuote);
      if net.Ok? && price.Ok? {
        PiecesAgree(price.value, net.value);
      }
      hide MulAmountFloor, DivAmountFloor, MulAmount, DivAmount, EffectivePrice, Price, AmountLessFee, NetAmount,
        CapFor, MaxTradeFor, AgeSurcharge, SpreadBps, Skew, SkewBps, AgeStateOf;
    }
  }

  lemma SameAtTheDoor(s: State, p: Params, amountIn: u64, baseToQuote: bool)
    requires !AtTheDoor(s, p, amountIn)
    ensures QuoteExactIn(s, p, amountIn, baseToQuote).Err?
    ensures QuoteReferenceExactIn(s, p, amountIn, baseToQuote) == Err(QuoteExactIn(s, p, amountIn, baseToQuote).error)
  {
    DoorsAgree(s, p);
    hide ParamsAreValid, ValidParams, QuoteAgeState;
  }

  /** The two quotes give the same answer, field by field and error by error, unless the
      fixed-width one reports Overflow or a zero mid price got past the first checks. */
  lemma SameAnswer(s: State, p: Params, amountIn: u64, baseToQuote: bool)
    ensures var r := QuoteReferenceExactIn(s, p, amountIn, baseToQuote);
            match QuoteExactIn(s, p, amountIn, baseToQuote)
            case Ok(q) => r == Ok(Widen(q))
            case Err(error) => error != Overflow && (s.midPrice > 0 || !AtTheDoor(s, p, amountIn)) ==> r == Err(error)
  {
    hide QuoteExactIn, QuoteReferenceExactIn, AtTheDoor;
    if s.midPrice > 0 {
      SameAnswerAtMid(s, p, amountIn, baseToQuote);
    } else {
      ZeroMidNeverQuotes(s, p, amountIn, baseToQuote);
      if !AtTheDoor(s, p, amountIn) {
        SameAtTheDoor(s, p, amountIn, baseToQuote);
      }
    }
  }

  /** When every field of the SDK's answer is in range the fixed-width quote does not overflow. */
  lemma InRangeMeansNoOverflow(s: State, p: Params, amountIn: u64, baseToQuote: bool)
    requires s.midPrice > 0 && QuoteReferenceExactIn(s, p, amountIn, baseToQuote).Ok?
    requires var r := QuoteReferenceExactIn(s, p, amountIn, baseToQuote).value;
             r.effectivePrice < TWO_128 && r.newBase < TWO_64 && r.newQuote < TWO_64
    ensures QuoteExactIn(s, p, amountIn, baseToQuote).Ok?
  {
    SameAnswer(s, p, amountIn, baseToQuote);
    HelpersAgree(s, p, AgeStateOf(s, p).value);
    PiecesAgree(s.midPrice, amountIn);
    NetAmountsAgree(amountIn, p.feeBps);
    var skew := SkewBps(ImbalanceBps(s.baseInventory, s.targetBase), p);
    PricesAgree(s.midPrice, SpreadBps(s, p), skew, baseToQuote);
    var net := AmountLessFee(amountIn, p.feeBps);
    var price := EffectivePrice(s.midPrice, SpreadBps(s, p), skew, baseToQuote);
    if net.Ok? && price.Ok? {
      PiecesAgree(price.value, net.value);
    }
    hide MulAmountFloor, DivAmountFloor, MulAmount, DivAmount, EffectivePrice, Price, AmountLessFee, NetAmount,
      CapFor, MaxTradeFor, AgeSurcharge, SpreadBps, Skew, SkewBps, AgeStateOf, ImbalanceBps, Imbalance;
  }

  /** At a zero mid price, past the first checks, the SDK reports a bad configuration. The
      fixed-width quote reports the pause, the age, the size or the division instead, and says
      the same only for a sale of a fresh enough quote, within the cap and its fee, whose price
      factor is not positive. */
  lemma ZeroMidErrors(s: State, p: Params, amountIn: u64, baseToQuote: bool)
    requires s.midPrice == 0 && AtTheDoor(s, p, amountIn)
    ensures QuoteReferenceExactIn(s, p, amountIn, baseToQuote) == Err(InvalidConfig)
    ensures QuoteExactIn(s, p, amountIn, baseToQuote).Err?
    ensures QuoteExactIn(s, p, amountIn, baseToQuote) == Err(InvalidConfig)
       <==> && AgeStateOf(s, p).value !in {Paused, Expired} && baseToQuote
            && amountIn <= MaxTradeFor(s, p, AgeStateOf(s, p).value) && AmountLessFee(amountIn, p.feeBps).Ok?
            && BASIS_POINTS <= SpreadBps(s, p) + SkewBps(ImbalanceBps(s.baseInventory, s.targetBase), p)
  {
  }

  /** Such a difference is reachable: one error per implementation for a plain sale at mid zero. */
  lemma ZeroMidErrorsDiffer()
    ensures var s := State(1_000, 1_000, 1_000, 0, 0, 0, false);
            var p := Params(0, 0, 5, 10, 15, 0, 0, 1_000, 500, 0, 0, 10_000);
            && QuoteExactIn(s, p, 100, true) == Err(InvalidAmount)
            && QuoteReferenceExactIn(s, p, 100, true) == Err(InvalidConfig)
            && QuoteExactIn(s, p, 100, false) == Err(DivByZero)
            && QuoteReferenceExactIn(s, p, 100, false) == Err(InvalidConfig)
  {
    ZeroMidSale();
  }

  lemma ZeroMidSale()
    ensures MulDiv(0, 10_000, 10_000) == Ok(0) && MulDiv(100, 0, Q64) == Ok(0)
  {
  }

  /** The fixed-width quote succeeds exactly when the SDK's does with every field in range. */
  lemma SucceedTogether(s: State, p: Params, amountIn: u64, baseToQuote: bool)
    ensures QuoteExactIn(s, p, amountIn, baseToQuote).Ok?
       <==> var r := QuoteReferenceExactIn(s, p, amountIn, baseToQuote);
            r.Ok? && r.value.effectivePrice < TWO_128 && r.value.newBase < TWO_64 && r.value.newQuote < TWO_64
  {
    hide QuoteExactIn, QuoteReferenceExactIn;
    if s.midPrice == 0 {
      ZeroMidNeverQuotes(s, p, amountIn, baseToQuote);
    } else {
      SameAnswer(s, p, amountIn, baseToQuote);
      var r := QuoteReferenceExactIn(s, p, amountIn, baseToQuote);
      if r.Ok? && r.value.effectivePrice < TWO_128 && r.value.newBase < TWO_64 && r.value.newQuote < TWO_64 {
        InRangeMeansNoOverflow(s, p, amountIn, baseToQuote);
      }
    }
  }
}
