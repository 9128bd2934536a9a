/** One side of a piecewise book: seven ascending prices over six slices of a base
    quantity. Pure pricing helpers, and the outcome of every fill as a function. */
module Piecewise {
  import opened Numbers
  import opened FixedPoint

  const SEGMENT_COUNT: int := 6

  type PriceLadder = p: seq<u128> | |p| == SEGMENT_COUNT + 1 witness [1, 2, 3, 4, 5, 6, 7]

  datatype PostFillPolicy = NoRefill | HealThenAdd | ProportionalScale | DepthProportional

  datatype Side = Side(prices: PriceLadder, total: u64, consumed: u64) {
    predicate Valid() {
      && SEGMENT_COUNT <= total
      && consumed <= total
      && 0 < prices[0] < prices[1] < prices[2] < prices[3] < prices[4] < prices[5] < prices[6]
    }

    function Validate(): Result<(), MathError> {
      if Valid() then Ok(()) else Err(InvalidConfig)
    }

    function Remaining(): u64 {
      SaturatingSub(total, consumed)
    }
  }

  datatype Quote = Quote(amountInUsed: u64, amountOut: u64, newConsumed: u64, segmentsCrossed: u8)

  /** What a fill leaves behind: the side, also after an error, and the answer. */
  datatype Fill = Fill(side: Side, outcome: Result<Quote, MathError>)

  // ---- Segments ----

  function SegmentStart(total: u64, segment: nat): (r: nat) {
    MulNonNeg(total, segment);
    total * segment / SEGMENT_COUNT
  }

  function SegmentEnd(total: u64, segment: nat): (r: nat) {
    if segment == SEGMENT_COUNT - 1 then total else SegmentStart(total, segment + 1)
  }

  function SegmentWidth(total: u64, segment: nat): int {
    SegmentEnd(total, segment) - SegmentStart(total, segment)
  }

  function SegmentFrom(total: u64, consumed: u64, segment: nat): (r: nat)
    requires segment <= SEGMENT_COUNT
    ensures r < SEGMENT_COUNT
    decreases SEGMENT_COUNT - segment
  {
    if segment == SEGMENT_COUNT then SEGMENT_COUNT - 1
    else if consumed < SegmentEnd(total, segment) then segment
    else SegmentFrom(total, consumed, segment + 1)
  }

  /** The slice, counted from the best price, that the next atom comes from. */
  function SegmentOf(total: u64, consumed: u64): (r: nat)
    ensures r < SEGMENT_COUNT
  {
    if consumed >= total then SEGMENT_COUNT - 1 else SegmentFrom(total, consumed, 0)
  }

  /** No slice is empty, and consecutive slices share their border. */
  lemma SegmentsPartition(total: u64, segment: nat)
    requires SEGMENT_COUNT <= total && segment < SEGMENT_COUNT
    ensures SegmentStart(total, 0) == 0 && SegmentEnd(total, SEGMENT_COUNT - 1) == total
    ensures SegmentEnd(total, segment) == SegmentStart(total, segment + 1)
    ensures SegmentStart(total, segment) < SegmentEnd(total, segment) <= total
  {
  }

  /** The base priced before a slice is that many sixths of the depth, rounded down. */
  lemma SlicesAreSixths(total: u64, segment: nat)
    requires segment <= SEGMENT_COUNT
    ensures SEGMENT_COUNT * SegmentStart(total, segment) <= total * segment
            < SEGMENT_COUNT * SegmentStart(total, segment) + SEGMENT_COUNT
  {
    DivBounds(total * segment, SEGMENT_COUNT);
  }

  /** So any two slices differ by at most one atom. */
  lemma SlicesAreEven(total: u64, i: nat, j: nat)
    requires SEGMENT_COUNT <= total && i < SEGMENT_COUNT && j < SEGMENT_COUNT
    ensures -1 <= SegmentWidth(total, i) - SegmentWidth(total, j) <= 1
  {
    WidthIsSixth(total, i);
    WidthIsSixth(total, j);
  }

  lemma WidthIsSixth(total: u64, segment: nat)
    requires SEGMENT_COUNT <= total && segment < SEGMENT_COUNT
    ensures total / SEGMENT_COUNT <= SegmentWidth(total, segment) <= (total + SEGMENT_COUNT - 1) / SEGMENT_COUNT
  {
    SegmentsPartition(total, segment);
    SlicesAreSixths(total, segment);
    SlicesAreSixths(total, segment + 1);
    hide SegmentStart, SegmentEnd;
    assert total * (segment + 1) == total * segment + total;
  }

  lemma {:induction false} SegmentFromFinds(total: u64, consumed: u64, segment: nat)
    requires SEGMENT_COUNT <= total && consumed < total
    requires segment <= SEGMENT_COUNT && SegmentStart(total, segment) <= consumed
    ensures var s := SegmentFrom(total, consumed, segment);
            segment <= s && SegmentStart(total, s) <= consumed < SegmentEnd(total, s)
    decreases SEGMENT_COUNT - segment
  {
    if segment < SEGMENT_COUNT {
      SegmentsPartition(total, segment);
      if consumed >= SegmentEnd(total, segment) {
        SegmentFromFinds(total, consumed, segment + 1);
      }
    }
  }

  lemma SegmentStartMono(total: u64, i: nat, j: nat)
    requires i <= j
    ensures SegmentStart(total, i) <= SegmentStart(total, j)
  {
    MulLe(i, j, total);
    DivMono(total * i, total * j, SEGMENT_COUNT);
  }

  /** The chosen slice is the one and only slice holding the next atom. */
  lemma SegmentOfIsUnique(total: u64, consumed: u64, segment: nat)
    requires SEGMENT_COUNT <= total && consumed < total && segment < SEGMENT_COUNT
    ensures SegmentOf(total, consumed) == segment
       <==> SegmentStart(total, segment) <= consumed < SegmentEnd(total, segment)
  {
    SegmentsPartition(total, 0);
    SegmentFromFinds(total, consumed, 0);
    var found := SegmentOf(total, consumed);
    if found < segment {
      SegmentsPartition(total, found);
      SegmentStartMono(total, found + 1, segment);
    } else if segment < found {
      SegmentsPartition(total, segment);
      SegmentStartMono(total, segment + 1, found);
    }
  }

  // ---- Prices and amounts ----

  function InterpolatePrice(start: u128, end: u128, offset: u64, width: nat): Result<u128, MathError> {
    if width == 0 then Err(InvalidConfig)
    else if offset == 0 then Ok(start)
    else if start <= end then
      var step :- MulDiv(end - start, offset, width);
      if start + step < TWO_128 then Ok(start + step) else Err(Overflow)
    else
      var step :- MulDiv(start - end, offset, width);
      if step <= start then Ok(start - step) else Err(Underflow)
  }

  function AskPriceAt(side: Side, segment: nat, offset: u64): Result<u128, MathError>
    requires segment < SEGMENT_COUNT && SegmentWidth(side.total, segment) >= 0
  {
    InterpolatePrice(side.prices[segment], side.prices[segment + 1], offset, SegmentWidth(side.total, segment))
  }

  /** `actual` counts the slices by price; the best bid slice is the last one. */
  function BidPriceAt(side: Side, actual: nat, offset: u64): Result<u128, MathError>
    requires actual < SEGMENT_COUNT && SegmentWidth(side.total, SEGMENT_COUNT - 1 - actual) >= 0
  {
    InterpolatePrice(side.prices[actual + 1], side.prices[actual], offset,
                     SegmentWidth(side.total, SEGMENT_COUNT - 1 - actual))
  }

  /** Trapezoid area under the price line, floored twice. */
  function LinearQuoteAmount(startPrice: u128, endPrice: u128, baseQuantity: u64): Result<u64, MathError> {
    if baseQuantity == 0 then Ok(0)
    else if startPrice + endPrice >= TWO_128 then Err(Overflow)
    else MulAmountFloor((startPrice + endPrice) / 2, baseQuantity)
  }

  // ---- Selling base into the bid side ----

  /** Where the next piece of a fill lies: its slice, the offset inside it, and what is left of it. */
  datatype Spot = Spot(segment: nat, offset: u64, left: u64)

  function SpotOf(side: Side): (spot: Spot)
    requires side.Valid()
    ensures spot.segment < SEGMENT_COUNT && SegmentWidth(side.total, spot.segment) > 0
    ensures side.consumed < side.total ==>
              spot.left > 0 && spot.offset + spot.left == SegmentWidth(side.total, spot.segment)
              && SegmentStart(side.total, spot.segment) + spot.offset == side.consumed
  {
    var segment := SegmentOf(side.total, side.consumed);
    SegmentsPartition(side.total, segment);
    if side.consumed < side.total then
      SegmentOfIsUnique(side.total, side.consumed, segment);
      Spot(segment, SaturatingSub(side.consumed, SegmentStart(side.total, segment)),
           SaturatingSub(SegmentEnd(side.total, segment), side.consumed))
    else
      Spot(segment, SaturatingSub(side.consumed, SegmentStart(side.total, segment)),
           SaturatingSub(SegmentEnd(side.total, segment), side.consumed))
  }

  /** The spot told without the borders: the next atom, counted from the best price, lies in the
      sixth of the depth that its slice is, `offset` atoms behind its start rounded down and
      `left` atoms before its end rounded down. */
  lemma SpotIs(side: Side)
    requires side.Valid() && side.consumed < side.total
    ensures var spot := SpotOf(side);
            && spot.segment * side.total < SEGMENT_COUNT * (side.consumed + 1) <= (spot.segment + 1) * side.total
            && SEGMENT_COUNT * (side.consumed - spot.offset) <= spot.segment * side.total
               < SEGMENT_COUNT * (side.consumed - spot.offset) + SEGMENT_COUNT
            && SEGMENT_COUNT * (side.consumed + spot.left) <= (spot.segment + 1) * side.total
               < SEGMENT_COUNT * (side.consumed + spot.left) + SEGMENT_COUNT
  {
    var segment := SpotOf(side).segment;
    SegmentsPartition(side.total, segment);
    SegmentOfIsUnique(side.total, side.consumed, segment);
    SlicesAreSixths(side.total, segment);
    SlicesAreSixths(side.total, segment + 1);
    hide SegmentStart, SegmentOf;
  }

  function BidPiece(side: Side, spot: Spot, take: u64): Result<u64, MathError>
    requires side.Valid() && spot.segment < SEGMENT_COUNT && SegmentWidth(side.total, spot.segment) > 0
  {
    var actual := SEGMENT_COUNT - 1 - spot.segment;
    var startPrice :- BidPriceAt(side, actual, spot.offset);
    var endPrice :- BidPriceAt(side, actual, SaturatingAdd64(spot.offset, take));
    LinearQuoteAmount(startPrice, endPrice, take)
  }

  /** One round of the sell loop: how much base the current slice takes, and what it pays. */
  datatype Sale = Sale(base: u64, amount: u64)

  function NextSale(side: Side, baseRemaining: u64): (r: Result<Sale, MathError>)
    requires side.Valid() && 0 < baseRemaining <= side.Remaining()
    ensures r.Ok? ==> 0 < r.value.base <= baseRemaining
  {
    var spot := SpotOf(side);
    var take := Min(baseRemaining, spot.left);
    var amount :- BidPiece(side, spot, take);
    if amount == 0 then Err(InvalidAmount) else Ok(Sale(take, amount))
  }

  datatype SellTotals = SellTotals(baseRemaining: u64, quoteOut: u64, crossed: u8) {
    function Add(sale: Sale): SellTotals
      requires sale.base <= baseRemaining && quoteOut + sale.amount < TWO_64
    {
      SellTotals(baseRemaining - sale.base, quoteOut + sale.amount, Min(crossed + 1, TWO_8 - 1))
    }
  }

  function SellLoop(side: Side, t: SellTotals): (r: (Side, Result<SellTotals, MathError>))
    requires side.Valid() && t.baseRemaining <= side.Remaining()
    decreases t.baseRemaining
  {
    if t.baseRemaining == 0 then (side, Ok(t))
    else
      match NextSale(side, t.baseRemaining)
      case Err(error) => (side, Err(error))
      case Ok(sale) =>
        var after := side.(consumed := side.consumed + sale.base);
        if t.quoteOut + sale.amount >= TWO_64 then (after, Err(Overflow)) else SellLoop(after, t.Add(sale))
  }

  lemma SellLoopStep(side: Side, t: SellTotals)
    requires side.Valid() && t.baseRemaining <= side.Remaining()
    ensures t.baseRemaining == 0 ==> SellLoop(side, t) == (side, Ok(t))
    ensures t.baseRemaining > 0 ==>
              match NextSale(side, t.baseRemaining)
              case Err(error) => SellLoop(side, t) == (side, Err(error))
              case Ok(sale) =>
                var after := side.(consumed := side.consumed + sale.base);
                && after.Valid() && t.baseRemaining - sale.base <= after.Remaining()
                && SellLoop(side, t) == if t.quoteOut + sale.amount >= TWO_64 then (after, Err(Overflow))
                                        else SellLoop(after, t.Add(sale))
  {
  }

  function Sell(side: Side, baseIn: u64): Fill {
    if !side.Valid() then Fill(side, Err(InvalidConfig))
    else if baseIn == 0 || side.Remaining() == 0 || baseIn > side.Remaining() then Fill(side, Err(InvalidAmount))
    else
      var run := SellLoop(side, SellTotals(baseIn, 0, 0));
      Fill(run.0, if run.1.Err? then Err(run.1.error)
                  else Ok(Quote(baseIn, run.1.value.quoteOut, run.0.consumed, run.1.value.crossed)))
  }

  // ---- Buying base from the ask side ----

  function AskPiece(side: Side, spot: Spot, take: u64): Result<u64, MathError>
    requires side.Valid() && spot.segment < SEGMENT_COUNT && SegmentWidth(side.total, spot.segment) > 0
  {
    var startPrice :- AskPriceAt(side, spot.segment, spot.offset);
    var endPrice :- AskPriceAt(side, spot.segment, SaturatingAdd64(spot.offset, take));
    LinearQuoteAmount(startPrice, endPrice, take)
  }

  /** Bisection for a quantity whose cost is positive and within the budget. */
  function SearchBase(side: Side, spot: Spot, low: u64, high: u64, budget: u64): (r: Result<u64, MathError>)
    requires side.Valid() && spot.segment < SEGMENT_COUNT && SegmentWidth(side.total, spot.segment) > 0
    requires low <= high
    ensures r.Ok? ==> low <= r.value <= high
    decreases high - low
  {
    if low == high then Ok(low)
    else
      var mid := low + (high - low + 1) / 2;
      var cost :- AskPiece(side, spot, mid);
      if 0 < cost <= budget then SearchBase(side, spot, mid, high, budget)
      else SearchBase(side, spot, low, mid - 1, budget)
  }

  /** One round of the buy loop: stop, or take some base at some cost. */
  datatype BuyMove = Stop | Take(base: u64, cost: u64)

  function NextBuy(side: Side, quoteRemaining: u64): (r: Result<BuyMove, MathError>)
    requires side.Valid() && side.consumed < side.total
    ensures r.Ok? && r.value.Take? ==>
              0 < r.value.base <= side.Remaining() && 0 < r.value.cost
  {
    var spot := SpotOf(side);
    var fullCost :- AskPiece(side, spot, spot.left);
    SegmentsPartition(side.total, spot.segment);
    if 0 < fullCost <= quoteRemaining then Ok(Take(spot.left, fullCost))
    else
      var base :- SearchBase(side, spot, 0, spot.left, quoteRemaining);
      if base == 0 then Ok(Stop)
      else
        var cost :- AskPiece(side, spot, base);
        if cost == 0 then Ok(Stop) else Ok(Take(base, cost))
  }

  datatype BuyTotals = BuyTotals(quoteRemaining: u64, quoteUsed: u64, baseOut: u64, crossed: u8) {
    function Add(base: u64, cost: u64): Result<BuyTotals, MathError> {
      if cost > quoteRemaining then Err(Underflow)
      else if quoteUsed + cost >= TWO_64 || baseOut + base >= TWO_64 then Err(Overflow)
      else Ok(BuyTotals(quoteRemaining - cost, quoteUsed + cost, baseOut + base, Min(crossed + 1, TWO_8 - 1)))
    }
  }

  function BuyLoop(side: Side, t: BuyTotals): (r: (Side, Result<BuyTotals, MathError>))
    requires side.Valid()
    decreases side.Remaining()
  {
    if t.quoteRemaining == 0 || side.Remaining() == 0 then (side, Ok(t))
    else
      match NextBuy(side, t.quoteRemaining)
      case Err(error) => (side, Err(error))
      case Ok(Stop) => (side, Ok(t))
      case Ok(Take(base, cost)) =>
        var after := side.(consumed := side.consumed + base);
        match t.Add(base, cost)
        case Err(error) => (after, Err(error))
        case Ok(added) => BuyLoop(after, added)
  }

  function Buy(side: Side, quoteIn: u64): Fill {
    if !side.Valid() then Fill(side, Err(InvalidConfig))
    else if quoteIn == 0 || side.Remaining() == 0 then Fill(side, Err(InvalidAmount))
    else
      var run := BuyLoop(side, BuyTotals(quoteIn, 0, 0, 0));
      Fill(run.0,
           match run.1
           case Err(error) => Err(error)
           case Ok(t) =>
             if t.baseOut == 0 || t.quoteRemaining > 0 then Err(InvalidAmount)
             else Ok(Quote(t.quoteUsed, t.baseOut, run.0.consumed, t.crossed)))
  }

  // ---- Replenishing a side after a fill on the other ----

  /** The refilled side, also after an error, and whether the refill was accepted. */
  datatype Refill = Refill(side: Side, outcome: Result<(), MathError>)

  function HealThenAddTo(side: Side, quantity: u64): Refill {
    if quantity <= side.consumed then
      var healed := side.(consumed := side.consumed - quantity);
      Refill(healed, healed.Validate())
    else
      var add := quantity - side.consumed;
      var healed := side.(consumed := 0);
      if side.total + add >= TWO_64 then Refill(healed, Err(Overflow))
      else
        var grown := healed.(total := side.total + add);
        Refill(grown, grown.Validate())
  }

  function PostFill(side: Side, replenishment: u64, policy: PostFillPolicy, crossed: u8): Refill {
    if !side.Valid() then Refill(side, Err(InvalidConfig))
    else if replenishment == 0 then Refill(side, Ok(()))
    else
      match policy
      case NoRefill => Refill(side, Ok(()))
      case HealThenAdd => HealThenAddTo(side, replenishment)
      case ProportionalScale =>
        var newTotal := side.total + replenishment;
        if newTotal >= TWO_64 then Refill(side, Err(Overflow))
        else
          (match MulDiv(side.consumed, newTotal, side.total)
           case Err(error) => Refill(side, Err(error))
           case Ok(newConsumed) =>
             if newConsumed >= TWO_64 then Refill(side.(total := newTotal), Err(Overflow))
             else
               var scaled := side.(total := newTotal, consumed := newConsumed);
               Refill(scaled, scaled.Validate()))
      case DepthProportional =>
        var add := DepthShare(replenishment, crossed);
        var healed := HealThenAddTo(side, replenishment - add);
        if healed.outcome.Err? then healed
        else if healed.side.total + add >= TWO_64 then Refill(healed.side, Err(Overflow))
        else
          var grown := healed.side.(total := healed.side.total + add);
          Refill(grown, grown.Validate())
  }

  /** The part of a replenishment that is appended as new depth. */
  function DepthShare(replenishment: u64, crossed: u8): (add: u64)
    ensures add <= replenishment
  {
    var depth := Min(crossed, SEGMENT_COUNT);
    MulLe(depth, SEGMENT_COUNT, replenishment);
    MulNonNeg(replenishment, depth);
    replenishment * depth / SEGMENT_COUNT
  }
}
