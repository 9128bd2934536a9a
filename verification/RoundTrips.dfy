/** Round trips through a reference quote: trading one way and feeding the proceeds straight
    back, in the same slot at the same mid price. When that can profit, when it must, and
    which skew rules it out. */
module RoundTrips {
  import opened Numbers
  import opened FixedPoint
  import opened ReferenceQuote
  import opened ReferenceLaws
  import ConfigCompiler

  /** The state after an accepted quote, in the same slot. */
  function After(s: State, q: Quote): State {
    s.(baseInventory := q.newBase, quoteInventory := q.newQuote)
  }

  /** Both legs are accepted. */
  predicate BothLegs(s: State, p: Params, amountIn: u64, baseToQuote: bool) {
    && QuoteExactIn(s, p, amountIn, baseToQuote).Ok?
    && var first := QuoteExactIn(s, p, amountIn, baseToQuote).value;
       QuoteExactIn(After(s, first), p, first.amountOut, !baseToQuote).Ok?
  }

  /** What the whole trip returns. */
  function Returned(s: State, p: Params, amountIn: u64, baseToQuote: bool): u64
    requires BothLegs(s, p, amountIn, baseToQuote)
  {
    var first := QuoteExactIn(s, p, amountIn, baseToQuote).value;
    QuoteExactIn(After(s, first), p, first.amountOut, !baseToQuote).value.amountOut
  }

  // ---- The two prices, from the inputs of the first leg ----

  /** The effective price of a direction at a base inventory. */
  function PriceAt(s: State, p: Params, base: u64, baseToQuote: bool): Result<u128, MathError> {
    EffectivePrice(s.midPrice, SpreadBps(s, p), SkewBps(ImbalanceBps(base, s.targetBase), p), baseToQuote)
  }

  /** The share of an amount that a fee lets through, in basis points. */
  function Keep(p: Params): int {
    BASIS_POINTS - p.feeBps
  }

  /** The base inventory between the legs. */
  function BaseBetween(s: State, p: Params, amountIn: u64, baseToQuote: bool): int {
    if baseToQuote then s.baseInventory + amountIn
    else
      match PriceAt(s, p, s.baseInventory, false)
      case Err(_) => s.baseInventory
      case Ok(price) =>
        if price == 0 then s.baseInventory else s.baseInventory - amountIn * Keep(p) / BASIS_POINTS * Q64 / price
  }

  /** The price at which the trip sells base, and the price at which it buys base. */
  function TripPrices(s: State, p: Params, amountIn: u64, baseToQuote: bool): Option<(u128, u128)> {
    var base := BaseBetween(s, p, amountIn, baseToQuote);
    if !(0 <= base < TWO_64) then None
    else
      var sell := PriceAt(s, p, if baseToQuote then s.baseInventory else base, true);
      var buy := PriceAt(s, p, if baseToQuote then base else s.baseInventory, false);
      if sell.Ok? && buy.Ok? then Some((sell.value, buy.value)) else None
  }

  /** What the fees leave of the two amounts that are traded. */
  predicate Legs(a: nat, keep: int, net1: nat, out1: nat, net2: nat) {
    net1 == a * keep / BASIS_POINTS && net2 == out1 * keep / BASIS_POINTS
  }

  lemma LegsOfTrip(s: State, p: Params, amountIn: u64, baseToQuote: bool)
    requires BothLegs(s, p, amountIn, baseToQuote)
    ensures TripPrices(s, p, amountIn, baseToQuote).Some? && 0 < Keep(p) <= BASIS_POINTS
    ensures var (sell, buy) := TripPrices(s, p, amountIn, baseToQuote).value;
            var first := QuoteExactIn(s, p, amountIn, baseToQuote).value;
            var back := QuoteExactIn(After(s, first), p, first.amountOut, !baseToQuote).value;
            && Legs(amountIn, Keep(p), first.amountInLessFee, first.amountOut, back.amountInLessFee)
            && Payout(if baseToQuote then sell else buy, first.amountInLessFee, baseToQuote) == Ok(first.amountOut)
            && Payout(if baseToQuote then buy else sell, back.amountInLessFee, !baseToQuote) == Ok(back.amountOut)
            && first.newBase == BaseBetween(s, p, amountIn, baseToQuote)
  {
    var first := QuoteExactIn(s, p, amountIn, baseToQuote).value;
    var back := QuoteExactIn(After(s, first), p, first.amountOut, !baseToQuote).value;
    QuoteParts(s, p, amountIn, baseToQuote);
    QuoteSettles(s, p, amountIn, baseToQuote);
    QuoteParts(After(s, first), p, first.amountOut, !baseToQuote);
    SameSpread(s, After(s, first), p);
    hide QuoteExactIn, SkewBps, ImbalanceBps, EffectivePrice, SpreadBps;
    if !baseToQuote {
      PayoutIsQuotient(first.effectivePrice, first.amountInLessFee, first.amountOut);
    }
    hide Payout;
  }

  lemma SameSpread(s: State, t: State, p: Params)
    requires t.nowSlot == s.nowSlot && t.publishSlot == s.publishSlot
    ensures SpreadBps(s, p) == SpreadBps(t, p)
  {
  }

  lemma PayoutIsQuotient(price: u128, net: u64, out: u64)
    requires Payout(price, net, false) == Ok(out)
    ensures 0 < price && out == net * Q64 / price
  {
  }

  lemma PayoutIsProduct(price: u128, net: u64, out: u64)
    requires Payout(price, net, true) == Ok(out)
    ensures out == net * price / Q64
  {
  }

  // ---- When a trip profits ----

  /** The condition both halves meet at: the kept share of the sold amount, at the two prices,
      covers one atom more than was put in. */
  predicate CanProfit(a: nat, keep: int, sell: nat, buy: nat) {
    (a + 1) * buy * BASIS_POINTS * BASIS_POINTS <= a * sell * keep * keep
  }

  /** What a fee can lose by rounding: nothing without a fee. */
  function FeeRounding(keep: int): int {
    if keep == BASIS_POINTS then 0 else BASIS_POINTS - 1
  }

  /** The same with a margin for the floors: of the two fees, and of the amount in between, which
      is a quote atom for a trip that starts with base and a base atom for one that starts
      with quote. */
  predicate MustProfit(a: nat, keep: int, sell: nat, buy: nat, baseToQuote: bool) {
    var between := if baseToQuote then Q64 * Q64 else sell * buy;
    (a + 1) * buy * BASIS_POINTS * BASIS_POINTS * Q64
      + FeeRounding(keep) * keep * sell * Q64 + BASIS_POINTS * (keep + FeeRounding(keep)) * between
    <= a * sell * keep * keep * Q64
  }

  lemma NetBounds(amount: nat, keep: int, net: int)
    requires 0 < keep <= BASIS_POINTS && net == amount * keep / BASIS_POINTS
    ensures 0 <= net && amount * keep - FeeRounding(keep) <= net * BASIS_POINTS <= amount * keep
  {
    MulNonNeg(amount, keep);
    DivBounds(amount * keep, BASIS_POINTS);
    DivNonNeg(amount * keep, BASIS_POINTS);
  }

  /** Two proportional legs, `up / down` each, the kept share taken before each: what comes out
      is at most the exact product. */
  lemma ChainDown(a: nat, keep: nat, net1: nat, out1: nat, net2: nat, out2: nat, up1: nat, down1: nat, up2: nat,
                  down2: nat)
    requires net1 * BASIS_POINTS <= a * keep && net2 * BASIS_POINTS <= out1 * keep
    requires out1 * down1 <= net1 * up1 && out2 * down2 <= net2 * up2
    ensures out2 * (down1 * down2) * (BASIS_POINTS * BASIS_POINTS) <= a * (up1 * up2) * (keep * keep)
  {
    var b := BASIS_POINTS;
    var moved := out1 * down1 * b;
    MulLe(net1 * b, a * keep, up1);
    assert net1 * up1 * b == (net1 * b) * up1;
    MulLe(net2 * b, out1 * keep, up2);
    assert net2 * up2 * b == (net2 * b) * up2;
    MulLe(out2 * down2 * b, out1 * keep * up2, down1 * b);
    assert out1 * keep * up2 * (down1 * b) == moved * (keep * up2);
    MulLe(moved, a * keep * up1, keep * up2);
    assert a * keep * up1 * (keep * up2) == a * (up1 * up2) * (keep * keep);
    assert out2 * down2 * b * (down1 * b) == out2 * (down1 * down2) * (b * b);
  }

  /** And at least the exact product less what the two fees and the first floor can lose. */
  lemma ChainUp(a: nat, keep: nat, lost: nat, net1: nat, out1: nat, net2: nat, up1: nat, down1: nat, up2: nat)
    requires a * keep - lost <= net1 * BASIS_POINTS && out1 * keep - lost <= net2 * BASIS_POINTS
    requires net1 * up1 <= (out1 + 1) * down1
    ensures a * (up1 * up2) * (keep * keep) - lost * keep * (up1 * up2) - BASIS_POINTS * (keep + lost) * (down1 * up2)
         <= net2 * up2 * down1 * (BASIS_POINTS * BASIS_POINTS)
  {
    var b := BASIS_POINTS;
    var moved := out1 * down1 * b;
    MulLe(a * keep - lost, net1 * b, up1);
    assert net1 * up1 * b == (net1 * b) * up1;
    assert (out1 + 1) * down1 == out1 * down1 + down1;
    assert moved >= (a * keep - lost) * up1 - down1 * b;
    MulLe(out1 * keep - lost, net2 * b, up2 * (down1 * b));
    assert (out1 * keep - lost) * (up2 * (down1 * b)) == moved * (keep * up2) - lost * b * (down1 * up2);
    MulLe((a * keep - lost) * up1 - down1 * b, moved, keep * up2);
    UpProducts(a, keep, lost, up1, up2, down1);
    assert (net2 * b) * (up2 * (down1 * b)) == net2 * up2 * down1 * (b * b);
  }

  lemma UpProducts(a: int, keep: int, lost: int, up1: int, up2: int, down1: int)
    ensures ((a * keep - lost) * up1 - down1 * BASIS_POINTS) * (keep * up2)
         == a * (up1 * up2) * (keep * keep) - lost * keep * (up1 * up2) - BASIS_POINTS * keep * (down1 * up2)
    ensures BASIS_POINTS * (keep + lost) * (down1 * up2)
         == BASIS_POINTS * keep * (down1 * up2) + lost * BASIS_POINTS * (down1 * up2)
  {
    assert (a * keep - lost) * up1 == a * keep * up1 - lost * up1;
    assert (a * keep * up1) * (keep * up2) == a * (up1 * up2) * (keep * keep);
    assert (lost * up1) * (keep * up2) == lost * keep * (up1 * up2);
    assert (down1 * BASIS_POINTS) * (keep * up2) == BASIS_POINTS * keep * (down1 * up2);
  }

  /** Both halves over the amounts of a trip alone. */
  lemma ChainProfit(a: nat, keep: int, net1: nat, out1: nat, net2: nat, out2: nat, sell: nat, buy: nat,
                    baseToQuote: bool)
    requires 0 < keep <= BASIS_POINTS && Legs(a, keep, net1, out1, net2) && 0 < buy
    requires if baseToQuote then
               out1 * Q64 <= net1 * sell < (out1 + 1) * Q64 && out2 * buy <= net2 * Q64 < (out2 + 1) * buy
             else
               out1 * buy <= net1 * Q64 < (out1 + 1) * buy && out2 * Q64 <= net2 * sell < (out2 + 1) * Q64
    ensures out2 > a ==> CanProfit(a, keep, sell, buy)
    ensures MustProfit(a, keep, sell, buy, baseToQuote) ==> out2 > a
  {
    NetBounds(a, keep, net1);
    NetBounds(out1, keep, net2);
    var lost := FeeRounding(keep);
    var up1, down1 := if baseToQuote then sell else Q64, if baseToQuote then Q64 else buy;
    var up2, down2 := if baseToQuote then Q64 else sell, if baseToQuote then buy else Q64;
    ChainDown(a, keep, net1, out1, net2, out2, up1, down1, up2, down2);
    ChainUp(a, keep, lost, net1, out1, net2, up1, down1, up2);
    assert up1 * up2 == sell * Q64 && down1 * down2 == buy * Q64;
    if out2 > a {
      GainNeeds(a, out2, keep, sell, buy);
    }
    if MustProfit(a, keep, sell, buy, baseToQuote) {
      FloorForces(a, keep, lost, net2, out2, sell, buy, up2, down1, down2);
    }
  }

  lemma GainNeeds(a: nat, out2: nat, keep: int, sell: nat, buy: nat)
    requires out2 > a && out2 * (buy * Q64) * (BASIS_POINTS * BASIS_POINTS) <= a * (sell * Q64) * (keep * keep)
    ensures CanProfit(a, keep, sell, buy)
  {
    var b := BASIS_POINTS * BASIS_POINTS;
    MulLe(a + 1, out2, buy * Q64 * b);
    assert out2 * (buy * Q64) * b == out2 * (buy * Q64 * b);
    assert (a + 1) * (buy * Q64 * b) == (a + 1) * buy * b * Q64;
    assert a * (sell * Q64) * (keep * keep) == a * sell * (keep * keep) * Q64;
    MulLeCancel((a + 1) * buy * b, a * sell * (keep * keep), Q64);
    assert (a + 1) * buy * b == (a + 1) * buy * BASIS_POINTS * BASIS_POINTS;
    assert a * sell * (keep * keep) == a * sell * keep * keep;
  }

  lemma FloorForces(a: nat, keep: int, lost: nat, net2: nat, out2: nat, sell: nat, buy: nat, up2: nat, down1: nat,
                    down2: nat)
    requires 0 < down1 && 0 < down2 && down1 * down2 == buy * Q64 && net2 * up2 < (out2 + 1) * down2
    requires a * (sell * Q64) * (keep * keep) - lost * keep * (sell * Q64)
               - BASIS_POINTS * (keep + lost) * (down1 * up2)
          <= net2 * up2 * down1 * (BASIS_POINTS * BASIS_POINTS)
    requires (a + 1) * buy * BASIS_POINTS * BASIS_POINTS * Q64 + lost * keep * sell * Q64
               + BASIS_POINTS * (keep + lost) * (down1 * up2)
          <= a * sell * keep * keep * Q64
    ensures out2 > a
  {
    MarginTerms(a, keep, lost, sell, buy);
    assert (a + 1) * (down1 * down2) * (BASIS_POINTS * BASIS_POINTS)
        <= net2 * up2 * down1 * (BASIS_POINTS * BASIS_POINTS);
    CancelScale(a, net2, out2, up2, down1, down2, BASIS_POINTS * BASIS_POINTS);
  }

  lemma CancelScale(a: nat, net2: nat, out2: nat, up2: nat, down1: nat, down2: nat, b: nat)
    requires 0 < down1 && 0 < down2 && 0 < b && net2 * up2 < (out2 + 1) * down2
    requires (a + 1) * (down1 * down2) * b <= net2 * up2 * down1 * b
    ensures out2 > a
  {
    assert net2 * up2 * (down1 * b) == net2 * up2 * down1 * b;
    assert (a + 1) * down2 * (down1 * b) == (a + 1) * (down1 * down2) * b;
    MulLt(0, down1, b);
    MulLeCancel((a + 1) * down2, net2 * up2, down1 * b);
    BelowNext(a + 1, out2, down2);
  }

  lemma MarginTerms(a: nat, keep: int, lost: nat, sell: nat, buy: nat)
    ensures a * (sell * Q64) * (keep * keep) == a * sell * keep * keep * Q64
    ensures lost * keep * (sell * Q64) == lost * keep * sell * Q64
    ensures (a + 1) * (buy * Q64) * (BASIS_POINTS * BASIS_POINTS) == (a + 1) * buy * BASIS_POINTS * BASIS_POINTS * Q64
  {
    assert a * sell * (keep * keep) == a * sell * keep * keep;
    assert a * (sell * Q64) * (keep * keep) == a * sell * (keep * keep) * Q64;
  }

  /** A round trip, in either direction and at any fee. The condition is on the order, the state
      and the parameters alone: it takes the two effective prices and the kept share. The
      trip profits only if it holds, and surely if it holds with the margin of the floors. */
  lemma RoundTripProfits(s: State, p: Params, amountIn: u64, baseToQuote: bool)
    requires BothLegs(s, p, amountIn, baseToQuote)
    ensures TripPrices(s, p, amountIn, baseToQuote).Some?
    ensures var (sell, buy) := TripPrices(s, p, amountIn, baseToQuote).value;
            && (Returned(s, p, amountIn, baseToQuote) > amountIn ==> CanProfit(amountIn, Keep(p), sell, buy))
            && (MustProfit(amountIn, Keep(p), sell, buy, baseToQuote) ==>
                  Returned(s, p, amountIn, baseToQuote) > amountIn)
  {
    LegsOfTrip(s, p, amountIn, baseToQuote);
    var first := QuoteExactIn(s, p, amountIn, baseToQuote).value;
    var back := QuoteExactIn(After(s, first), p, first.amountOut, !baseToQuote).value;
    var (sell, buy) := TripPrices(s, p, amountIn, baseToQuote).value;
    hide QuoteExactIn, TripPrices, BaseBetween, Payout, CanProfit, MustProfit, Legs;
    PayoutMeaning(if baseToQuote then sell else buy, first.amountInLessFee, baseToQuote, first.amountOut);
    PayoutMeaning(if baseToQuote then buy else sell, back.amountInLessFee, !baseToQuote, back.amountOut);
    ChainProfit(amountIn, Keep(p), first.amountInLessFee, first.amountOut, back.amountInLessFee, back.amountOut,
                sell, buy, baseToQuote);
  }

  /** Both legs with all their floors, from the prices and the kept share: what reaches the
      second price covers one atom more than was put in. */
  predicate ProfitsThroughFloors(a: nat, keep: int, sell: nat, buy: nat, baseToQuote: bool) {
    && 0 < buy
    && var got := if baseToQuote then a * keep / BASIS_POINTS * sell / Q64 else a * keep / BASIS_POINTS * Q64 / buy;
       var handed := got * keep / BASIS_POINTS;
       if baseToQuote then (a + 1) * buy <= handed * Q64 else (a + 1) * Q64 <= handed * sell
  }

  /** The exact condition, floors included, on the order, the state and the parameters. */
  lemma RoundTripProfitsExactly(s: State, p: Params, amountIn: u64, baseToQuote: bool)
    requires BothLegs(s, p, amountIn, baseToQuote)
    ensures TripPrices(s, p, amountIn, baseToQuote).Some?
    ensures var (sell, buy) := TripPrices(s, p, amountIn, baseToQuote).value;
            (Returned(s, p, amountIn, baseToQuote) > amountIn
             <==> ProfitsThroughFloors(amountIn, Keep(p), sell, buy, baseToQuote))
  {
    LegsOfTrip(s, p, amountIn, baseToQuote);
    var first := QuoteExactIn(s, p, amountIn, baseToQuote).value;
    var back := QuoteExactIn(After(s, first), p, first.amountOut, !baseToQuote).value;
    var (sell, buy) := TripPrices(s, p, amountIn, baseToQuote).value;
    hide QuoteExactIn, TripPrices, BaseBetween, Payout;
    if baseToQuote {
      PayoutIsProduct(sell, first.amountInLessFee, first.amountOut);
      PayoutIsQuotient(buy, back.amountInLessFee, back.amountOut);
      DivAtLeast(back.amountInLessFee * Q64, buy, amountIn + 1);
    } else {
      PayoutIsQuotient(buy, first.amountInLessFee, first.amountOut);
      PayoutIsProduct(sell, back.amountInLessFee, back.amountOut);
      DivAtLeast(back.amountInLessFee * sell, Q64, amountIn + 1);
    }
  }

  /** Without a fee the margin is one quote atom for a trip that starts with base, and one base
      atom at the selling price for one that starts with quote. */
  lemma NoFeeMargin(a: nat, sell: nat, buy: nat)
    ensures MustProfit(a, BASIS_POINTS, sell, buy, true) <==> a * (sell - buy) >= Q64 + buy
    ensures MustProfit(a, BASIS_POINTS, sell, buy, false) <==> a * (sell - buy) * Q64 >= buy * Q64 + sell * buy
    ensures CanProfit(a, BASIS_POINTS, sell, buy) <==> a * (sell - buy) >= buy
  {
    var b := BASIS_POINTS;
    assert (a + 1) * buy * b * b == ((a + 1) * buy) * (b * b);
    assert a * sell * b * b == (a * sell) * (b * b);
    assert a * (sell - buy) == a * sell - a * buy && (a + 1) * buy == a * buy + buy;
  }

  // ---- Skews that rule a profit out ----

  /** No profit, at any fee, as long as the first leg moves the inventory skew by at most twice
      the applied spread. */
  lemma RoundTripNeverProfits(s: State, p: Params, amountIn: u64, baseToQuote: bool)
    requires BothLegs(s, p, amountIn, baseToQuote)
    requires var between := BaseBetween(s, p, amountIn, baseToQuote);
             && 0 <= between < TWO_64
             && Abs(SkewBps(ImbalanceBps(between, s.targetBase), p)
                    - SkewBps(ImbalanceBps(s.baseInventory, s.targetBase), p))
                <= 2 * SpreadBps(s, p)
    ensures Returned(s, p, amountIn, baseToQuote) <= amountIn
  {
    RoundTripProfits(s, p, amountIn, baseToQuote);
    LegsOfTrip(s, p, amountIn, baseToQuote);
    var (sell, buy) := TripPrices(s, p, amountIn, baseToQuote).value;
    var first := QuoteExactIn(s, p, amountIn, baseToQuote).value;
    var back := QuoteExactIn(After(s, first), p, first.amountOut, !baseToQuote).value;
    var between, spread := BaseBetween(s, p, amountIn, baseToQuote), SpreadBps(s, p);
    var before := SkewBps(ImbalanceBps(s.baseInventory, s.targetBase), p);
    var after := SkewBps(ImbalanceBps(between, s.targetBase), p);
    hide QuoteExactIn, SkewBps, ImbalanceBps, EffectivePrice, Payout, SpreadBps, BaseBetween, CanProfit, MustProfit;
    if baseToQuote {
      PriceFollowsFactor(s.midPrice, spread, before, true, spread, after, false);
      PayoutMeaning(buy, back.amountInLessFee, false, back.amountOut);
    } else {
      PriceFollowsFactor(s.midPrice, spread, after, true, spread, before, false);
      PayoutMeaning(buy, first.amountInLessFee, false, first.amountOut);
    }
    CheapSaleNeverProfits(amountIn, Keep(p), sell, buy);
  }

  lemma CheapSaleNeverProfits(a: nat, keep: int, sell: nat, buy: nat)
    requires 0 < keep <= BASIS_POINTS && sell <= buy && 0 < buy
    ensures !CanProfit(a, keep, sell, buy)
  {
    var b := BASIS_POINTS;
    MulLe(sell, buy, a);
    MulLe(keep, b, keep);
    MulLe(keep, b, b);
    MulLe(keep * keep, b * b, a * sell);
    MulLe(a * sell, a * buy, b * b);
    assert a * sell * keep * keep == (keep * keep) * (a * sell);
    assert (a + 1) * buy * b * b == (a * buy) * (b * b) + buy * (b * b);
  }

  /** A skew cap no wider than the half spread is enough, whatever the inventory and the order. */
  lemma NarrowSkewNeverProfits(s: State, p: Params, amountIn: u64, baseToQuote: bool)
    requires p.maxSkew <= p.baseHalfSpreadBps && BothLegs(s, p, amountIn, baseToQuote)
    ensures Returned(s, p, amountIn, baseToQuote) <= amountIn
  {
    LegsOfTrip(s, p, amountIn, baseToQuote);
    hide QuoteExactIn, BaseBetween, ImbalanceBps;
    RoundTripNeverProfits(s, p, amountIn, baseToQuote);
  }

  // ---- A trip that profits ----

  const STEEP := Params(0, 0, 5, 10, 15, 0, 0, 1_000, 500, 9_999, 5_000, 10_000)
  const BALANCED := State(1_000, 10_000, 1_000, Q64, 1, 1, false)
  const MARKED_DOWN: u128 := Q64 * 9_001 / 10_000

  lemma SteepSkewFirstLeg()
    ensures QuoteExactIn(BALANCED, STEEP, 100, true) == Ok(Quote(Fresh, 100, 100, 1_100, 9_900, Q64, 0, 0))
  {
    assert ImbalanceBps(1_000, 1_000) == 0 && ImbalanceBps(1_100, 1_000) == 1_000 && SkewBps(0, STEEP) == 0;
    MulDivMeaning(Q64, BASIS_POINTS, BASIS_POINTS, Q64);
    MulDivMeaning(100, Q64, Q64, 100);
    hide MulDiv;
    assert EffectivePrice(Q64, 0, 0, true) == Ok(Q64) && MulAmountFloor(Q64, 100) == Ok(100);
    hide ImbalanceBps, SkewBps, EffectivePrice, MulAmountFloor;
  }

  lemma SteepSkewSecondLeg()
    ensures QuoteExactIn(BALANCED.(baseInventory := 1_100, quoteInventory := 9_900), STEEP, 100, false)
         == Ok(Quote(Fresh, 100, 111, 989, 10_000, MARKED_DOWN, 0, 1_000))
  {
    assert ImbalanceBps(1_100, 1_000) == 1_000 && ImbalanceBps(989, 1_000) == -110 && SkewBps(1_000, STEEP) == 999;
    assert EffectivePrice(Q64, 0, 999, false) == Ok(MARKED_DOWN);
    MulDivMeaning(100, Q64, Q64, 100);
    MulDivMeaning(100, Q64, MARKED_DOWN, 111);
    hide MulDiv;
    assert DivAmountFloor(Q64, 100) == Ok(100) && DivAmountFloor(MARKED_DOWN, 100) == Ok(111);
    hide ImbalanceBps, SkewBps, EffectivePrice, DivAmountFloor;
  }

  /** Without the condition a round trip can profit, under parameters the compiler accepts: no
      fee, no spread and a steep skew give back 111 base for 100, as the margin foretells. */
  lemma SteepSkewProfits()
    ensures ConfigCompiler.ValidateParams(STEEP).Ok?
    ensures BothLegs(BALANCED, STEEP, 100, true) && Returned(BALANCED, STEEP, 100, true) == 111
    ensures TripPrices(BALANCED, STEEP, 100, true) == Some((Q64, MARKED_DOWN))
            && MustProfit(100, Keep(STEEP), Q64, MARKED_DOWN, true)
  {
    SteepSkewFirstLeg();
    SteepSkewSecondLeg();
    SteepPrices();
    NoFeeMargin(100, Q64, MARKED_DOWN);
    hide QuoteExactIn, TripPrices, MustProfit;
  }

  lemma SteepPrices()
    ensures TripPrices(BALANCED, STEEP, 100, true) == Some((Q64, MARKED_DOWN))
  {
    assert ImbalanceBps(1_000, 1_000) == 0 && ImbalanceBps(1_100, 1_000) == 1_000;
    assert SkewBps(0, STEEP) == 0 && SkewBps(1_000, STEEP) == 999 && SpreadBps(BALANCED, STEEP) == 0;
    MulDivMeaning(Q64, BASIS_POINTS, BASIS_POINTS, Q64);
    hide MulDiv;
    assert EffectivePrice(Q64, 0, 0, true) == Ok(Q64);
    hide EffectivePrice, SkewBps, ImbalanceBps, SpreadBps;
    MarkedDown();
  }

  lemma MarkedDown()
    ensures EffectivePrice(Q64, 0, 999, false) == Ok(MARKED_DOWN)
  {
  }
}
