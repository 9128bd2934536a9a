/** The buying side: what the bisection finds and when it gives up, which errors a buy can
    return, and what it keeps. */
module PiecewiseBuyLaws {
  import opened Numbers
  import opened FixedPoint
  import opened Piecewise
  import opened PiecewiseLaws

  // ---- Cost of base inside the current slice ----

  /** What the next `base` atoms of the current slice cost, before the range checks. */
  function Cost(side: Side, base: nat): (cost: nat)
    requires side.Valid() && side.consumed < side.total && base <= SpotOf(side).left
  {
    var spot := SpotOf(side);
    Amount(AskLine(side, spot.segment, spot.offset), AskLine(side, spot.segment, spot.offset + base), base)
  }

  /** The whole slice can be priced: the first computation of every buy round succeeded. */
  predicate Priceable(side: Side)
    requires side.Valid() && side.consumed < side.total
  {
    AskPiece(side, SpotOf(side), SpotOf(side).left).Ok?
  }

  lemma AskLineRises(side: Side, segment: nat, near: nat, far: nat)
    requires side.Valid() && segment < SEGMENT_COUNT && near <= far <= SegmentWidth(side.total, segment)
    ensures 0 < SegmentWidth(side.total, segment)
    ensures AskLine(side, segment, near) <= AskLine(side, segment, far)
  {
    SegmentFacts(side, segment);
    PriceStepMono(side.prices[segment + 1] - side.prices[segment], near, far, SegmentWidth(side.total, segment));
  }

  lemma AmountMono(start: nat, near: nat, far: nat, less: nat, more: nat)
    requires near <= far && less <= more
    ensures Amount(start, near, less) <= Amount(start, far, more)
  {
    MulLe((start + near) / 2, (start + far) / 2, less);
    MulLe(less, more, (start + far) / 2);
    DivMono((start + near) / 2 * less, (start + far) / 2 * more, Q64);
  }

  /** More base never costs less. */
  lemma CostMono(side: Side, less: nat, more: nat)
    requires side.Valid() && side.consumed < side.total && less <= more <= SpotOf(side).left
    ensures Cost(side, less) <= Cost(side, more) && Cost(side, 0) == 0
  {
    var spot := SpotOf(side);
    hide AskLine, Amount;
    AskLineRises(side, spot.segment, spot.offset + less, spot.offset + more);
    AmountMono(AskLine(side, spot.segment, spot.offset), AskLine(side, spot.segment, spot.offset + less),
               AskLine(side, spot.segment, spot.offset + more), less, more);
    AmountOfNothing(AskLine(side, spot.segment, spot.offset));
  }

  lemma AmountOfNothing(price: nat)
    ensures Amount(price, price, 0) == 0
  {
  }

  /** Once the whole slice can be priced, every part of it can. */
  lemma PartsArePriceable(side: Side, base: u64)
    requires side.Valid() && side.consumed < side.total && base <= SpotOf(side).left && Priceable(side)
    ensures AskPiece(side, SpotOf(side), base) == Ok(Cost(side, base))
  {
    var spot := SpotOf(side);
    SegmentFacts(side, spot.segment);
    AskPieceOnLine(side, spot, base);
    AskPieceOnLine(side, spot, spot.left);
    hide AskLine, AskPiece, LinearQuoteAmount;
    AskLineRises(side, spot.segment, spot.offset + base, spot.offset + spot.left);
    LinearAmountIs(AskLine(side, spot.segment, spot.offset), AskLine(side, spot.segment, spot.offset + base), base);
    LinearAmountIs(AskLine(side, spot.segment, spot.offset), AskLine(side, spot.segment, spot.offset + spot.left),
                   spot.left);
    CostMono(side, base, spot.left);
  }

  /** The only error of a buy round is a slice too expensive to price. */
  lemma PricingFails(side: Side)
    requires side.Valid() && side.consumed < side.total && !Priceable(side)
    ensures AskPiece(side, SpotOf(side), SpotOf(side).left) == Err(Overflow)
  {
    var spot := SpotOf(side);
    SegmentFacts(side, spot.segment);
    AskPieceOnLine(side, spot, spot.left);
    LinearAmountIs(AskLine(side, spot.segment, spot.offset), AskLine(side, spot.segment, spot.offset + spot.left),
                   spot.left);
  }

  // ---- The bisection ----

  predicate Affordable(side: Side, base: nat, budget: u64)
    requires side.Valid() && side.consumed < side.total && base <= SpotOf(side).left
  {
    0 < Cost(side, base) <= budget
  }

  /** No larger quantity in the slice fits the budget. */
  ghost predicate NothingAbove(side: Side, base: nat, budget: u64)
    requires side.Valid() && side.consumed < side.total && base <= SpotOf(side).left
  {
    forall q: nat :: base < q <= SpotOf(side).left ==> Cost(side, q) > budget
  }

  lemma TooExpensive(side: Side, base: nat, budget: u64)
    requires side.Valid() && side.consumed < side.total && 0 < base <= SpotOf(side).left && Cost(side, base) > budget
    ensures NothingAbove(side, base - 1, budget)
  {
    hide Cost;
    forall q: nat | base - 1 < q <= SpotOf(side).left
      ensures Cost(side, q) > budget
    {
      CostMono(side, base, q);
    }
  }

  /** After an affordable probe the bisection ends at the largest affordable quantity. */
  lemma {:induction false} SearchFindsLargest(side: Side, low: u64, high: u64, budget: u64)
    requires side.Valid() && side.consumed < side.total && Priceable(side)
    requires low <= high <= SpotOf(side).left && Affordable(side, low, budget) && NothingAbove(side, high, budget)
    ensures var r := SearchBase(side, SpotOf(side), low, high, budget);
            && r.Ok? && r.value <= SpotOf(side).left
            && Affordable(side, r.value, budget) && NothingAbove(side, r.value, budget)
    decreases high - low
  {
    hide Cost, AskPiece, NothingAbove;
    if low < high {
      var mid := low + (high - low + 1) / 2;
      PartsArePriceable(side, mid);
      CostMono(side, low, mid);
      if Cost(side, mid) <= budget {
        SearchFindsLargest(side, mid, high, budget);
      } else {
        TooExpensive(side, mid, budget);
        SearchFindsLargest(side, low, mid - 1, budget);
      }
    }
  }

  /** After a probe that costs nothing the bisection only goes down, to zero. */
  lemma {:induction false} SearchGivesUp(side: Side, high: u64, budget: u64)
    requires side.Valid() && side.consumed < side.total && Priceable(side)
    requires high <= SpotOf(side).left && Cost(side, high) == 0
    ensures SearchBase(side, SpotOf(side), 0, high, budget) == Ok(0)
    decreases high
  {
    hide Cost, AskPiece;
    if 0 < high {
      var mid := (high + 1) / 2;
      PartsArePriceable(side, mid);
      CostMono(side, mid, high);
      CostMono(side, mid - 1, high);
      SearchGivesUp(side, mid - 1, budget);
    }
  }

  /** The first probe within the budget: halve the range as long as its middle is too expensive. */
  function FirstProbe(side: Side, high: nat, budget: u64): (probe: nat)
    requires side.Valid() && side.consumed < side.total && high <= SpotOf(side).left
    ensures probe <= high
    decreases high
  {
    if high == 0 then 0
    else if Cost(side, (high + 1) / 2) > budget then FirstProbe(side, (high + 1) / 2 - 1, budget)
    else (high + 1) / 2
  }

  lemma {:induction false} SearchOutcome(side: Side, high: u64, budget: u64)
    requires side.Valid() && side.consumed < side.total && Priceable(side)
    requires high <= SpotOf(side).left && NothingAbove(side, high, budget)
    ensures var r := SearchBase(side, SpotOf(side), 0, high, budget);
            && r.Ok? && r.value <= SpotOf(side).left
            && (if Cost(side, FirstProbe(side, high, budget)) == 0 then r.value == 0
                else Affordable(side, r.value, budget) && NothingAbove(side, r.value, budget))
    decreases high
  {
    hide Cost, AskPiece, NothingAbove;
    CostMono(side, 0, high);
    if 0 < high {
      var mid := (high + 1) / 2;
      PartsArePriceable(side, mid);
      if Cost(side, mid) > budget {
        TooExpensive(side, mid, budget);
        SearchOutcome(side, mid - 1, budget);
      } else if Cost(side, mid) == 0 {
        CostMono(side, mid - 1, mid);
        SearchGivesUp(side, mid - 1, budget);
      } else {
        SearchFindsLargest(side, mid, high, budget);
      }
    }
  }

  /** The search never fails once the whole slice has a price. A positive answer is the
      largest quantity that fits the budget, and the answer is zero exactly when the first
      probe within the budget costs nothing. */
  lemma SearchIsLargest(side: Side, budget: u64)
    requires side.Valid() && side.consumed < side.total && Priceable(side)
    ensures var r := SearchBase(side, SpotOf(side), 0, SpotOf(side).left, budget);
            && r.Ok? && r.value <= SpotOf(side).left
            && (r.value > 0 ==> Affordable(side, r.value, budget) && NothingAbove(side, r.value, budget))
            && (r.value == 0 <==> Cost(side, FirstProbe(side, SpotOf(side).left, budget)) == 0)
  {
    hide Cost, SearchBase, FirstProbe;
    SearchOutcome(side, SpotOf(side).left, budget);
    CostMono(side, 0, 0);
  }

  /** When one atom of base costs at least one atom of quote the search is exact: zero means
      that not even one unit is affordable. */
  lemma SearchIsExactAboveOneAtom(side: Side, budget: u64)
    requires side.Valid() && side.consumed < side.total && Priceable(side)
    requires AskLine(side, SpotOf(side).segment, SpotOf(side).offset) >= Q64
    ensures var r := SearchBase(side, SpotOf(side), 0, SpotOf(side).left, budget);
            && r.Ok? && r.value <= SpotOf(side).left
            && Cost(side, r.value) <= budget && NothingAbove(side, r.value, budget)
            && (r.value == 0 <==> Cost(side, 1) > budget)
  {
    hide Cost, SearchBase;
    SearchIsLargest(side, budget);
    CostMono(side, 0, 0);
    CostAtLeastBase(side, 1);
    FirstProbeWithin(side, SpotOf(side).left, budget);
    var probe := FirstProbe(side, SpotOf(side).left, budget);
    if probe > 0 {
      CostAtLeastBase(side, probe);
      CostMono(side, 1, probe);
    } else {
      TooExpensive(side, 1, budget);
    }
  }

  lemma CostAtLeastBase(side: Side, base: nat)
    requires side.Valid() && side.consumed < side.total && base <= SpotOf(side).left
    requires AskLine(side, SpotOf(side).segment, SpotOf(side).offset) >= Q64
    ensures Cost(side, base) >= base
  {
    var spot := SpotOf(side);
    hide AskLine, Amount;
    AskLineRises(side, spot.segment, spot.offset, spot.offset + base);
    AmountAtLeast(AskLine(side, spot.segment, spot.offset), AskLine(side, spot.segment, spot.offset + base), base);
  }

  lemma AmountAtLeast(p: nat, q: nat, base: nat)
    requires Q64 <= p && Q64 <= q
    ensures Amount(p, q, base) >= base
  {
    var average := (p + q) / 2;
    MulLe(Q64, average, base);
    DivAtLeast(average * base, Q64, base);
  }

  lemma {:induction false} FirstProbeWithin(side: Side, high: nat, budget: u64)
    requires side.Valid() && side.consumed < side.total && high <= SpotOf(side).left
    ensures var probe := FirstProbe(side, high, budget);
            if probe == 0 then high == 0 || Cost(side, 1) > budget else Cost(side, probe) <= budget
    decreases high
  {
    hide Cost;
    if 0 < high && Cost(side, (high + 1) / 2) > budget {
      FirstProbeWithin(side, (high + 1) / 2 - 1, budget);
    }
  }

  /** Below one atom a unit the search can miss: here 75 units cost one atom, which is the
      budget, yet the first probe at 50 units costs nothing and the search answers zero. */
  lemma SearchMissesBelowOneAtom()
    ensures var side := Side([1, Q64 / 20, Q64, 2 * Q64, 3 * Q64, 4 * Q64, 5 * Q64], 600, 0);
            && side.Valid() && Priceable(side) && SpotOf(side).left == 100
            && Affordable(side, 75, 1) && SearchBase(side, SpotOf(side), 0, 100, 1) == Ok(0)
  {
    var side := Side([1, Q64 / 20, Q64, 2 * Q64, 3 * Q64, 4 * Q64, 5 * Q64], 600, 0);
    assert SpotOf(side) == Spot(0, 0, 100);
    AskPieceOnLine(side, SpotOf(side), 100);
    LinearAmountIs(AskLine(side, 0, 0), AskLine(side, 0, 100), 100);
    assert Cost(side, 50) == 0 && Cost(side, 75) == 1 && Cost(side, 100) == 2;
    SearchIsLargest(side, 1);
  }

  // ---- Whole buys ----

  /** One round either fails with Overflow, stops, or takes base at exactly its cost within
      the quote left; short of the whole slice it takes the most that quote can pay. */
  lemma NextBuyFacts(side: Side, quote: u64)
    requires side.Valid() && side.consumed < side.total && quote > 0
    ensures var move := NextBuy(side, quote);
            if move.Err? then move.error == Overflow
            else if move.value.Stop? then Priceable(side) && Cost(side, FirstProbe(side, SpotOf(side).left, quote)) == 0
            else
              && move.value.base <= SpotOf(side).left
              && move.value.cost == Cost(side, move.value.base) && move.value.cost <= quote
              && NothingAbove(side, move.value.base, quote)
  {
    var left := SpotOf(side).left;
    SegmentFacts(side, SpotOf(side).segment);
    hide Cost, AskPiece, SearchBase, FirstProbe;
    if Priceable(side) {
      PartsArePriceable(side, left);
      SearchIsLargest(side, quote);
      PartsArePriceable(side, SearchBase(side, SpotOf(side), 0, left, quote).value);
      CostMono(side, 0, 0);
    } else {
      PricingFails(side);
    }
  }

  lemma {:induction false} BuyLoopKeeps(side: Side, t: BuyTotals)
    requires side.Valid()
    ensures var (after, outcome) := BuyLoop(side, t);
            && after.Valid() && SameLadder(side, after) && side.consumed <= after.consumed
            && (outcome.Err? ==> outcome.error == Overflow)
            && (outcome.Ok? ==>
                  && outcome.value.baseOut - t.baseOut == after.consumed - side.consumed
                  && outcome.value.quoteUsed + outcome.value.quoteRemaining == t.quoteUsed + t.quoteRemaining)
    decreases side.Remaining()
  {
    hide NextBuy;
    if t.quoteRemaining > 0 && side.Remaining() > 0 {
      NextBuyFacts(side, t.quoteRemaining);
      var move := NextBuy(side, t.quoteRemaining);
      if move.Ok? && move.value.Take? && t.Add(move.value.base, move.value.cost).Ok? {
        BuyLoopKeeps(side.(consumed := side.consumed + move.value.base), t.Add(move.value.base, move.value.cost).value);
      }
    }
  }

  /** A buy, accepted or rejected, leaves a valid side with the same prices and depth and
      never gives depth back. It is accepted only when it used exactly the quote paid in, for
      exactly the base taken off the side; a valid side is never answered InvalidConfig or
      Underflow, so the empty-slice and over-cost checks are unreachable. */
  lemma BuyKeepsSide(side: Side, quoteIn: u64)
    requires side.Valid()
    ensures var fill := Buy(side, quoteIn);
            && fill.side.Valid() && SameLadder(side, fill.side) && side.consumed <= fill.side.consumed
            && (fill.outcome.Ok? ==>
                  var q := fill.outcome.value;
                  && q.amountInUsed == quoteIn && 0 < q.amountOut == fill.side.consumed - side.consumed
                  && q.newConsumed == fill.side.consumed)
            && (fill.outcome.Err? ==> fill.outcome.error in {InvalidAmount, Overflow})
  {
    hide BuyLoop;
    BuyLoopKeeps(side, BuyTotals(quoteIn, 0, 0, 0));
  }

  // ---- Cost against the ladder ----

  lemma CostWithinLadder(side: Side, base: nat)
    requires side.Valid() && side.consumed < side.total && base <= SpotOf(side).left
    ensures PaysWithin(side.prices, base, Cost(side, base), 1)
  {
    var spot := SpotOf(side);
    SegmentFacts(side, spot.segment);
    LadderEnds(side, spot.segment);
    LadderEnds(side, spot.segment + 1);
    var p, q := AskLine(side, spot.segment, spot.offset), AskLine(side, spot.segment, spot.offset + base);
    hide AskLine, Amount, PaysWithin;
    AmountWithin(side.prices, p, q, base);
  }

  /** How many rounds of a buy take base. */
  function Rounds(side: Side, t: BuyTotals): nat
    requires side.Valid()
    decreases side.Remaining()
  {
    if t.quoteRemaining == 0 || side.Remaining() == 0 then 0
    else
      match NextBuy(side, t.quoteRemaining)
      case Ok(Take(base, cost)) =>
        (match t.Add(base, cost)
         case Ok(added) => 1 + Rounds(side.(consumed := side.consumed + base), added)
         case Err(_) => 0)
      case _ => 0
  }

  lemma BuyLoopStep(side: Side, t: BuyTotals, base: u64, cost: u64)
    requires side.Valid() && t.quoteRemaining > 0 && side.Remaining() > 0
    requires NextBuy(side, t.quoteRemaining) == Ok(Take(base, cost)) && t.Add(base, cost).Ok?
    ensures var after := side.(consumed := side.consumed + base);
            && BuyLoop(side, t) == BuyLoop(after, t.Add(base, cost).value)
            && Rounds(side, t) == 1 + Rounds(after, t.Add(base, cost).value)
  {
    hide NextBuy;
  }

  lemma {:induction false} BuyLoopWithinLadder(side: Side, t: BuyTotals)
    requires side.Valid() && BuyLoop(side, t).1.Ok?
    ensures var end := BuyLoop(side, t).1.value;
            && PaysWithin(side.prices, end.baseOut - t.baseOut, end.quoteUsed - t.quoteUsed, Rounds(side, t))
            && end.crossed == Min(t.crossed + Rounds(side, t), TWO_8 - 1)
    decreases side.Remaining()
  {
    hide NextBuy, PaysWithin, Cost;
    if t.quoteRemaining > 0 && side.Remaining() > 0 && NextBuy(side, t.quoteRemaining).Ok?
       && NextBuy(side, t.quoteRemaining).value.Take? {
      var move := NextBuy(side, t.quoteRemaining).value;
      NextBuyFacts(side, t.quoteRemaining);
      assert t.Add(move.base, move.cost).Ok?;
      BuyLoopStep(side, t, move.base, move.cost);
      CostWithinLadder(side, move.base);
      hide BuyLoop, Rounds;
      var after, added := side.(consumed := side.consumed + move.base), t.Add(move.base, move.cost).value;
      BuyLoopWithinLadder(after, added);
      var end := BuyLoop(after, added).1.value;
      LadderAdds(side.prices, move.base, end.baseOut - added.baseOut, move.cost, end.quoteUsed - added.quoteUsed,
                 Rounds(after, added));
    } else {
      NothingPaysNothing(side.prices);
    }
  }

  /** An accepted buy pays between the ladder's lowest and highest price for its base, less one
      atom a round; it reports its rounds, not its slices, up to the largest 8-bit value. */
  lemma BuyPaysWithinLadder(side: Side, quoteIn: u64)
    requires side.Valid() && Buy(side, quoteIn).outcome.Ok?
    ensures var q, rounds := Buy(side, quoteIn).outcome.value, Rounds(side, BuyTotals(quoteIn, 0, 0, 0));
            PaysWithin(side.prices, q.amountOut, quoteIn, rounds) && q.segmentsCrossed == Min(rounds, TWO_8 - 1)
  {
    BuyKeepsSide(side, quoteIn);
    hide BuyLoop, Rounds, PaysWithin;
    BuyLoopWithinLadder(side, BuyTotals(quoteIn, 0, 0, 0));
  }
}
