/** The book side as an object whose depth the fills and refills update in place. Each
    method is tied to the function of `Piecewise` that says what it must do, on the
    success path and on every error path. */
module PiecewiseBook {
  import opened Numbers
  import opened FixedPoint
  import opened Piecewise
  import BuyLaws = PiecewiseBuyLaws
  import Rejections = PiecewiseRejections

  class BookSide {
    const prices: PriceLadder
    var totalQuantity: u64
    var consumedQuantity: u64

    constructor (side: Side)
      ensures View() == side
    {
      prices, totalQuantity, consumedQuantity := side.prices, side.total, side.consumed;
    }

    function View(): Side
      reads this
    {
      Side(prices, totalQuantity, consumedQuantity)
    }

    /** Spends quote on the cheapest base, slice by slice from the lowest price. */
    method BuyBaseWithQuote(quoteAmountIn: u64) returns (r: Result<Quote, MathError>)
      modifies this
      ensures Fill(View(), r) == Buy(old(View()), quoteAmountIn)
    {
      if View().Validate().Err? {
        return Err(InvalidConfig);
      }
      if quoteAmountIn == 0 || View().Remaining() == 0 {
        return Err(InvalidAmount);
      }

      var totals := BuyTotals(quoteAmountIn, 0, 0, 0);
      var stopped := false;
      while !stopped && totals.quoteRemaining > 0 && View().Remaining() > 0
        invariant View().Valid()
        invariant !stopped ==> BuyLoop(View(), totals) == old(BuyLoop(View(), BuyTotals(quoteAmountIn, 0, 0, 0)))
        invariant stopped ==> (View(), Ok(totals)) == old(BuyLoop(View(), BuyTotals(quoteAmountIn, 0, 0, 0)))
        decreases !stopped, totalQuantity - consumedQuantity
      {
        var round := BuyRound(totals);
        match round
        case Err(error) =>
          return Err(error);
        case Ok(None) =>
          stopped := true;
        case Ok(Some(next)) =>
          totals := next;
      }
      if totals.baseOut == 0 || totals.quoteRemaining > 0 {
        return Err(InvalidAmount);
      }
      return Ok(Quote(totals.quoteUsed, totals.baseOut, consumedQuantity, totals.crossed));
    }

    /** The body of the buy loop; no next totals when the loop must stop. The base is consumed
        before the sums are checked. */
    method BuyRound(totals: BuyTotals) returns (r: Result<Option<BuyTotals>, MathError>)
      requires View().Valid() && totals.quoteRemaining > 0 && consumedQuantity < totalQuantity
      modifies this
      ensures View().Valid() && totalQuantity == old(totalQuantity)
      ensures r.Err? ==> (View(), Err(r.error)) == old(BuyLoop(View(), totals))
      ensures r == Ok(None) ==> (View(), Ok(totals)) == old(BuyLoop(View(), totals))
      ensures r.Ok? && r.value.Some? ==>
                consumedQuantity > old(consumedQuantity)
                && BuyLoop(View(), r.value.value) == old(BuyLoop(View(), totals))
    {
      hide BuyLaws.Priceable, BuyLaws.Cost, Rejections.Blocked, Rejections.Largest, NextBuy, SpotOf;
      var move := PlanBuy(totals.quoteRemaining);
      match move
      case Err(error) =>
        return Err(error);
      case Ok(Stop) =>
        return Ok(None);
      case Ok(Take(base, cost)) =>
        consumedQuantity := consumedQuantity + base;
        assert View() == old(View()).(consumed := old(consumedQuantity) + base);
        var next := totals.Add(base, cost);
        return if next.Err? then Err(next.error) else Ok(Some(next.value));
    }

    /** What the current slice gives for the quote left: all of it, or what the bisection finds.
        Told without the search: an unpriced slice is an overflow, a blocked one stops the buy,
        and any other gives the most the quote can pay, at its cost. */
    method PlanBuy(quoteRemaining: u64) returns (r: Result<BuyMove, MathError>)
      requires View().Valid() && consumedQuantity < totalQuantity
      ensures r == NextBuy(View(), quoteRemaining)
      ensures
        var side := View();
        if !BuyLaws.Priceable(side) then r == Err(Overflow)
        else if Rejections.Blocked(side, quoteRemaining) then r == Ok(Stop)
        else
          var base := Rejections.Largest(side, SpotOf(side).left, quoteRemaining);
          r == Ok(Take(base, BuyLaws.Cost(side, base)))
    {
      hide BuyLaws.Priceable, BuyLaws.Cost, Rejections.Blocked, Rejections.Largest;
      var segment := SegmentOf(totalQuantity, consumedQuantity);
      var segmentStart, segmentEnd := SegmentStart(totalQuantity, segment), SegmentEnd(totalQuantity, segment);
      var offset := SaturatingSub(consumedQuantity, segmentStart);
      var remainingInSegment := SaturatingSub(segmentEnd, consumedQuantity);
      var spot := Spot(segment, offset, remainingInSegment);
      assert SpotOf(View()) == spot;
      if remainingInSegment == 0 {
        return Err(InvalidConfig);
      }
      var fullCost := AskPiece(View(), spot, remainingInSegment);
      if fullCost.Err? {
        r := Err(fullCost.error);
      } else if 0 < fullCost.value <= quoteRemaining {
        r := Ok(Take(remainingInSegment, fullCost.value));
      } else {
        var baseTake := MaxBaseForQuote(View(), spot, remainingInSegment, quoteRemaining);
        if baseTake.Err? {
          r := Err(baseTake.error);
        } else if baseTake.value == 0 {
          r := Ok(Stop);
        } else {
          var cost := AskPiece(View(), spot, baseTake.value);
          if cost.Err? {
            r := Err(cost.error);
          } else {
            r := if cost.value == 0 then Ok(Stop) else Ok(Take(baseTake.value, cost.value));
          }
        }
      }
      Rejections.NextBuyIs(View(), quoteRemaining);
    }

    /** Takes base from the seller, slice by slice from the highest price. */
    method SellBaseForQuote(baseAmountIn: u64) returns (r: Result<Quote, MathError>)
      modifies this
      ensures Fill(View(), r) == Sell(old(View()), baseAmountIn)
    {
      if View().Validate().Err? {
        return Err(InvalidConfig);
      }
      if baseAmountIn == 0 || View().Remaining() == 0 || baseAmountIn > View().Remaining() {
        return Err(InvalidAmount);
      }

      var totals := SellTotals(baseAmountIn, 0, 0);
      while totals.baseRemaining > 0
        invariant View().Valid() && totals.baseRemaining <= View().Remaining()
        invariant SellLoop(View(), totals) == old(SellLoop(View(), SellTotals(baseAmountIn, 0, 0)))
        decreases totals.baseRemaining
      {
        var round := SellRound(totals);
        if round.Err? {
          return Err(round.error);
        }
        totals := round.value;
      }
      return Ok(Quote(baseAmountIn, totals.quoteOut, consumedQuantity, totals.crossed));
    }

    /** The body of the sell loop. The slice is consumed before the payout sum is checked. */
    method SellRound(totals: SellTotals) returns (r: Result<SellTotals, MathError>)
      requires View().Valid() && 0 < totals.baseRemaining <= View().Remaining()
      modifies this
      ensures r.Ok? ==>
                && View().Valid() && r.value.baseRemaining < totals.baseRemaining
                && r.value.baseRemaining <= View().Remaining()
                && SellLoop(View(), r.value) == old(SellLoop(View(), totals))
      ensures r.Err? ==> (View(), Err(r.error)) == old(SellLoop(View(), totals))
    {
      var sale := PlanSale(totals.baseRemaining);
      if sale.Err? {
        return Err(sale.error);
      }
      consumedQuantity := consumedQuantity + sale.value.base;
      assert View() == old(View()).(consumed := old(consumedQuantity) + sale.value.base);
      if totals.quoteOut + sale.value.amount >= TWO_64 {
        return Err(Overflow);
      }
      return Ok(totals.Add(sale.value));
    }

    /** What the current slice takes and pays; a slice that would pay nothing rejects the fill. */
    method PlanSale(baseRemaining: u64) returns (r: Result<Sale, MathError>)
      requires View().Valid() && 0 < baseRemaining <= View().Remaining()
      ensures r == NextSale(View(), baseRemaining)
    {
      var segment := SegmentOf(totalQuantity, consumedQuantity);
      var segmentStart, segmentEnd := SegmentStart(totalQuantity, segment), SegmentEnd(totalQuantity, segment);
      var offset := SaturatingSub(consumedQuantity, segmentStart);
      var remainingInSegment := SaturatingSub(segmentEnd, consumedQuantity);
      var spot := Spot(segment, offset, remainingInSegment);
      assert SpotOf(View()) == spot;
      if remainingInSegment == 0 {
        return Err(InvalidConfig);
      }
      var baseTake := Min(baseRemaining, remainingInSegment);
      var segmentQuoteOut := BidPiece(View(), spot, baseTake);
      if segmentQuoteOut.Err? {
        return Err(segmentQuoteOut.error);
      }
      return if segmentQuoteOut.value == 0 then Err(InvalidAmount) else Ok(Sale(baseTake, segmentQuoteOut.value));
    }

    /** Replenishes this side after a fill on the opposite one. */
    method ApplyPostFill(replenishment: u64, policy: PostFillPolicy, segmentsCrossed: u8)
      returns (r: Result<(), MathError>)
      modifies this
      ensures Refill(View(), r) == PostFill(old(View()), replenishment, policy, segmentsCrossed)
    {
      if View().Validate().Err? {
        return Err(InvalidConfig);
      }
      if replenishment == 0 || policy == NoRefill {
        return Ok(());
      }
      match policy
      case NoRefill =>
        return Ok(());
      case HealThenAdd =>
        r := HealThenAddQuantity(replenishment);
      case ProportionalScale =>
        var oldTotal, newTotal := totalQuantity, totalQuantity + replenishment;
        if newTotal >= TWO_64 {
          return Err(Overflow);
        }
        var newConsumed := MulDivFloor(consumedQuantity, newTotal, oldTotal);
        if newConsumed.Err? {
          return Err(newConsumed.error);
        }
        totalQuantity := newTotal;
        if newConsumed.value >= TWO_64 {
          return Err(Overflow);
        }
        consumedQuantity := newConsumed.value;
        r := View().Validate();
      case DepthProportional =>
        var addQuantity := DepthShare(replenishment, segmentsCrossed);
        r := HealThenAddQuantity(replenishment - addQuantity);
        if r.Err? {
          return;
        }
        if totalQuantity + addQuantity >= TWO_64 {
          return Err(Overflow);
        }
        totalQuantity := totalQuantity + addQuantity;
        r := View().Validate();
    }

    /** Gives consumed depth back first; only what is left of the quantity makes the side deeper. */
    method HealThenAddQuantity(quantity: u64) returns (r: Result<(), MathError>)
      modifies this
      ensures Refill(View(), r) == HealThenAddTo(old(View()), quantity)
      ensures consumedQuantity == Max(old(consumedQuantity) - quantity, 0)
      ensures var add := Max(quantity - old(consumedQuantity), 0);
              && totalQuantity == old(totalQuantity) + (if old(totalQuantity) + add < TWO_64 then add else 0)
              && (old(View()).Valid() ==> (r.Ok? <==> old(totalQuantity) + add < TWO_64))
    {
      if quantity <= consumedQuantity {
        consumedQuantity := consumedQuantity - quantity;
      } else {
        var addQuantity := quantity - consumedQuantity;
        consumedQuantity := 0;
        if totalQuantity + addQuantity >= TWO_64 {
          return Err(Overflow);
        }
        totalQuantity := totalQuantity + addQuantity;
      }
      r := View().Validate();
    }
  }

  /** Upper-middle bisection over the quantity left in one slice. */
  method MaxBaseForQuote(side: Side, spot: Spot, capacity: u64, quoteAvailable: u64)
    returns (r: Result<u64, MathError>)
    requires side.Valid() && spot.segment < SEGMENT_COUNT && SegmentWidth(side.total, spot.segment) > 0
    ensures r == SearchBase(side, spot, 0, capacity, quoteAvailable)
  {
    hide AskPiece;
    var low, high := 0, capacity;
    while low < high
      invariant 0 <= low <= high <= capacity
      invariant SearchBase(side, spot, low, high, quoteAvailable) == SearchBase(side, spot, 0, capacity, quoteAvailable)
    {
      var mid := low + (high - low + 1) / 2;
      var cost := AskPiece(side, spot, mid);
      if cost.Err? {
        return Err(cost.error);
      }
      if 0 < cost.value <= quoteAvailable {
        low := mid;
      } else {
        high := mid - 1;
      }
    }
    return Ok(low);
  }
}
