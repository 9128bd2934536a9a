/** What the fill functions guarantee: which errors are possible, what every outcome keeps,
    how many slices a sale touches, and that splitting a sale changes its proceeds by at
    most rounding. */
module PiecewiseLaws {
  import opened Numbers
  import opened FixedPoint
  import opened Piecewise

  // ---- Interpolated prices ----

  /** How far an interpolated price has moved from the start of its slice. */
  function PriceStep(delta: nat, offset: nat, width: nat): (step: nat)
    requires 0 < width
  {
    MulNonNeg(delta, offset);
    DivNonNeg(delta * offset, width);
    delta * offset / width
  }

  lemma PriceStepBounds(delta: nat, offset: nat, width: nat)
    requires 0 < width && offset <= width
    ensures PriceStep(delta, offset, width) <= delta
    ensures PriceStep(delta, 0, width) == 0
  {
    MulLe(offset, width, delta);
    DivMono(delta * offset, delta * width, width);
    DivUnique(delta * width, width, delta);
  }

  lemma PriceStepMono(delta: nat, near: nat, far: nat, width: nat)
    requires 0 < width && near <= far
    ensures PriceStep(delta, near, width) <= PriceStep(delta, far, width)
  {
    MulLe(near, far, delta);
    DivMono(delta * near, delta * far, width);
  }

  /** Inside a slice interpolation never fails and stays between the slice's two prices. */
  lemma InterpolateInside(start: u128, end: u128, offset: u64, width: nat)
    requires 0 < width && offset <= width
    ensures InterpolatePrice(start, end, offset, width)
         == Ok(if start <= end then start + PriceStep(end - start, offset, width)
               else start - PriceStep(start - end, offset, width))
    ensures start <= end ==> PriceStep(end - start, offset, width) <= end - start
    ensures start >= end ==> PriceStep(start - end, offset, width) <= start - end
  {
    PriceStepBounds(Abs(end - start), offset, width);
  }

  /** Each slice is non-empty, lies inside the side, and rises in price. */
  lemma SegmentFacts(side: Side, segment: nat)
    requires side.Valid() && segment < SEGMENT_COUNT
    ensures 0 < SegmentWidth(side.total, segment) < TWO_64
    ensures side.prices[segment] < side.prices[segment + 1]
    ensures side.prices[5 - segment] < side.prices[6 - segment]
  {
    SegmentsPartition(side.total, segment);
    if segment == 0 {
    } else if segment == 1 {
    } else if segment == 2 {
    } else if segment == 3 {
    } else if segment == 4 {
    } else {
      assert segment == 5;
    }
  }

  /** The bid price `offset` atoms into a slice counted from the best one. */
  function BidLine(side: Side, segment: nat, offset: nat): (price: int)
    requires side.Valid() && segment < SEGMENT_COUNT
    requires 0 < SegmentWidth(side.total, segment) && offset <= SegmentWidth(side.total, segment)
    ensures side.prices[5 - segment] <= price <= side.prices[6 - segment]
  {
    SegmentFacts(side, segment);
    var delta := side.prices[6 - segment] - side.prices[5 - segment];
    PriceStepBounds(delta, offset, SegmentWidth(side.total, segment));
    side.prices[6 - segment] - PriceStep(delta, offset, SegmentWidth(side.total, segment))
  }

  function AskLine(side: Side, segment: nat, offset: nat): (price: int)
    requires side.Valid() && segment < SEGMENT_COUNT
    requires 0 < SegmentWidth(side.total, segment) && offset <= SegmentWidth(side.total, segment)
    ensures side.prices[segment] <= price <= side.prices[segment + 1]
  {
    SegmentFacts(side, segment);
    var delta := side.prices[segment + 1] - side.prices[segment];
    PriceStepBounds(delta, offset, SegmentWidth(side.total, segment));
    side.prices[segment] + PriceStep(delta, offset, SegmentWidth(side.total, segment))
  }

  /** Where the two lines run: from one price of the ladder exactly to the next, and in between
      by the proportional part of the step, moving by no more than the exact line. */
  lemma LinesFollowLadder(side: Side, segment: nat, offset: nat)
    requires side.Valid() && segment < SEGMENT_COUNT && offset <= SegmentWidth(side.total, segment)
    ensures 0 < SegmentWidth(side.total, segment)
    ensures var width, bid, ask := SegmentWidth(side.total, segment), BidLine(side, segment, offset),
                                   AskLine(side, segment, offset);
            var low, high := side.prices[5 - segment], side.prices[6 - segment];
            && (high - bid) * width <= (high - low) * offset < (high - bid) * width + width
            && (offset == width ==> bid == low && ask == side.prices[segment + 1])
            && (ask - side.prices[segment]) * width <= (side.prices[segment + 1] - side.prices[segment]) * offset
               < (ask - side.prices[segment]) * width + width
  {
    SegmentFacts(side, segment);
    var width := SegmentWidth(side.total, segment);
    StepIsProportional(side.prices[6 - segment] - side.prices[5 - segment], offset, width);
    StepIsProportional(side.prices[segment + 1] - side.prices[segment], offset, width);
    hide PriceStep, SegmentWidth, SegmentStart, SegmentEnd;
  }

  lemma StepIsProportional(delta: nat, offset: nat, width: nat)
    requires 0 < width
    ensures var step := PriceStep(delta, offset, width);
            step * width <= delta * offset < step * width + width && (offset == width ==> step == delta)
  {
    DivBounds(delta * offset, width);
    if offset == width {
      DivUnique(delta * width, width, delta);
    }
  }

  lemma BidPriceOnLine(side: Side, segment: nat, offset: u64)
    requires side.Valid() && segment < SEGMENT_COUNT && offset <= SegmentWidth(side.total, segment)
    ensures 0 < SegmentWidth(side.total, segment)
    ensures BidPriceAt(side, 5 - segment, offset) == Ok(BidLine(side, segment, offset))
  {
    hide InterpolatePrice, PriceStep, SegmentStart, SegmentEnd;
    SegmentFacts(side, segment);
    InterpolateInside(side.prices[6 - segment], side.prices[5 - segment], offset, SegmentWidth(side.total, segment));
  }

  lemma AskPriceOnLine(side: Side, segment: nat, offset: u64)
    requires side.Valid() && segment < SEGMENT_COUNT && offset <= SegmentWidth(side.total, segment)
    ensures 0 < SegmentWidth(side.total, segment)
    ensures AskPriceAt(side, segment, offset) == Ok(AskLine(side, segment, offset))
  {
    hide InterpolatePrice, PriceStep, SegmentStart, SegmentEnd;
    SegmentFacts(side, segment);
    InterpolateInside(side.prices[segment], side.prices[segment + 1], offset, SegmentWidth(side.total, segment));
  }

  /** A piece inside its slice is priced by the trapezoid between two points of the line. */
  lemma BidPieceOnLine(side: Side, spot: Spot, take: u64)
    requires side.Valid() && spot.segment < SEGMENT_COUNT && SegmentWidth(side.total, spot.segment) > 0
    requires spot.offset + take <= SegmentWidth(side.total, spot.segment)
    ensures BidPiece(side, spot, take)
         == LinearQuoteAmount(BidLine(side, spot.segment, spot.offset),
                              BidLine(side, spot.segment, spot.offset + take), take)
  {
    hide BidPriceAt, BidLine, LinearQuoteAmount;
    SegmentFacts(side, spot.segment);
    BidPriceOnLine(side, spot.segment, spot.offset);
    BidPriceOnLine(side, spot.segment, spot.offset + take);
  }

  lemma AskPieceOnLine(side: Side, spot: Spot, take: u64)
    requires side.Valid() && spot.segment < SEGMENT_COUNT && SegmentWidth(side.total, spot.segment) > 0
    requires spot.offset + take <= SegmentWidth(side.total, spot.segment)
    ensures AskPiece(side, spot, take)
         == LinearQuoteAmount(AskLine(side, spot.segment, spot.offset),
                              AskLine(side, spot.segment, spot.offset + take), take)
  {
    hide AskPriceAt, AskLine, LinearQuoteAmount;
    SegmentFacts(side, spot.segment);
    AskPriceOnLine(side, spot.segment, spot.offset);
    AskPriceOnLine(side, spot.segment, spot.offset + take);
  }

  // ---- Amounts ----

  /** Proceeds or cost of a piece before the range checks. */
  function Amount(startPrice: nat, endPrice: nat, quantity: nat): (amount: nat) {
    MulNonNeg((startPrice + endPrice) / 2, quantity);
    DivNonNeg((startPrice + endPrice) / 2 * quantity, Q64);
    (startPrice + endPrice) / 2 * quantity / Q64
  }

  /** A piece's amount is its floored trapezoid, and the only possible error is Overflow. */
  lemma LinearAmountIs(startPrice: u128, endPrice: u128, quantity: u64)
    ensures LinearQuoteAmount(startPrice, endPrice, quantity)
         == if quantity == 0 then Ok(0)
            else if startPrice + endPrice >= TWO_128 || Amount(startPrice, endPrice, quantity) >= TWO_64 then
              Err(Overflow)
            else Ok(Amount(startPrice, endPrice, quantity))
  {
    var average := (startPrice + endPrice) / 2;
    assert average * quantity == quantity * average;
  }

  /** The trapezoid without its floors: the amount is at most half the two prices times the quantity
      and misses that by less than one atom and half a price unit for each unit of quantity. */
  lemma AmountMeaning(startPrice: nat, endPrice: nat, quantity: nat)
    ensures var amount := Amount(startPrice, endPrice, quantity);
            2 * amount * Q64 <= (startPrice + endPrice) * quantity < 2 * (amount + 1) * Q64 + quantity
  {
    var average := (startPrice + endPrice) / 2;
    DivBounds(average * quantity, Q64);
    HalfSum(startPrice, endPrice, quantity);
    hide Amount;
    assert Amount(startPrice, endPrice, quantity) == average * quantity / Q64;
  }

  // ---- What every outcome keeps ----

  predicate SameLadder(before: Side, after: Side) {
    after.prices == before.prices && after.total == before.total
  }

  lemma NextSaleFacts(side: Side, baseRemaining: u64)
    requires side.Valid() && 0 < baseRemaining <= side.Remaining()
    ensures NextSale(side, baseRemaining).Err? ==> NextSale(side, baseRemaining).error in {InvalidAmount, Overflow}
    ensures NextSale(side, baseRemaining).Ok? ==>
              var sale := NextSale(side, baseRemaining).value;
              sale.base == Min(baseRemaining, SpotOf(side).left) && sale.amount > 0
  {
    var spot := SpotOf(side);
    var take := Min(baseRemaining, spot.left);
    BidPieceOnLine(side, spot, take);
    LinearAmountIs(BidLine(side, spot.segment, spot.offset), BidLine(side, spot.segment, spot.offset + take), take);
  }

  lemma {:induction false} SellLoopKeeps(side: Side, t: SellTotals)
    requires side.Valid() && t.baseRemaining <= side.Remaining()
    ensures var (after, outcome) := SellLoop(side, t);
            && after.Valid() && SameLadder(side, after)
            && side.consumed <= after.consumed <= side.consumed + t.baseRemaining
            && (outcome.Ok? ==> after.consumed == side.consumed + t.baseRemaining)
            && (outcome.Err? ==> outcome.error in {InvalidAmount, Overflow})
    decreases t.baseRemaining
  {
    hide NextSale;
    SellLoopStep(side, t);
    if t.baseRemaining > 0 {
      NextSaleFacts(side, t.baseRemaining);
      var sale := NextSale(side, t.baseRemaining);
      if sale.Ok? && t.quoteOut + sale.value.amount < TWO_64 {
        SellLoopKeeps(side.(consumed := side.consumed + sale.value.base), t.Add(sale.value));
      }
    }
  }

  /** A sale, accepted or rejected, leaves a valid side with the same prices and depth and
      never gives depth back; it is accepted exactly when all of it was consumed. A valid
      side never answers InvalidConfig, so the empty-slice check is unreachable. */
  lemma SellKeepsSide(side: Side, baseIn: u64)
    requires side.Valid()
    ensures var fill := Sell(side, baseIn);
            && fill.side.Valid() && SameLadder(side, fill.side) && side.consumed <= fill.side.consumed
            && (fill.outcome.Ok? ==>
                  var q := fill.outcome.value;
                  && q.amountInUsed == baseIn && q.newConsumed == fill.side.consumed == side.consumed + baseIn)
            && (fill.outcome.Err? ==>
                  && fill.outcome.error in {InvalidAmount, Overflow}
                  && (baseIn <= side.Remaining() ==> fill.side.consumed <= side.consumed + baseIn))
  {
    if 0 < baseIn <= side.Remaining() {
      SellLoopKeeps(side, SellTotals(baseIn, 0, 0));
    }
  }

  // ---- Proceeds of a sale, without running sums ----

  /** What the first `take` atoms of the current slice pay, before the 64-bit check; none when
      the two prices cannot be added or the piece pays nothing. */
  function FirstPiece(side: Side, take: u64): (r: Option<nat>)
    requires side.Valid() && 0 < take <= SpotOf(side).left && side.consumed < side.total
    ensures r.Some? ==> r.value > 0
  {
    PieceAt(side, SpotOf(side).segment, SpotOf(side).offset, take)
  }

  function PieceAt(side: Side, segment: nat, offset: nat, take: nat): (r: Option<nat>)
    requires side.Valid() && segment < SEGMENT_COUNT
    requires 0 < SegmentWidth(side.total, segment) && offset + take <= SegmentWidth(side.total, segment)
    ensures r.Some? ==> r.value > 0
  {
    var startPrice, endPrice := BidLine(side, segment, offset), BidLine(side, segment, offset + take);
    if startPrice + endPrice >= TWO_128 || Amount(startPrice, endPrice, take) == 0 then None
    else Some(Amount(startPrice, endPrice, take))
  }

  function AddPiece(piece: Option<nat>, rest: Option<nat>): Option<nat> {
    if piece.Some? && rest.Some? then Some(piece.value + rest.value) else None
  }

  /** The unbounded sum of the pieces of a sale. */
  function Proceeds(side: Side, base: u64): (r: Option<nat>)
    requires side.Valid() && base <= side.Remaining()
    decreases base
  {
    if base == 0 then Some(0)
    else
      var take := Min(base, SpotOf(side).left);
      AddPiece(FirstPiece(side, take), Proceeds(side.(consumed := side.consumed + take), base - take))
  }

  lemma ProceedsStep(side: Side, base: u64, take: u64)
    requires side.Valid() && 0 < base <= side.Remaining() && take == Min(base, SpotOf(side).left)
    ensures Proceeds(side, base)
         == AddPiece(FirstPiece(side, take), Proceeds(side.(consumed := side.consumed + take), base - take))
  {
    hide SpotOf, FirstPiece;
  }

  lemma ProceedsEmpty(side: Side)
    requires side.Valid()
    ensures Proceeds(side, 0) == Some(0)
  {
  }

  /** The loop succeeds exactly when every piece can be paid and the sum fits 64 bits. */
  lemma {:induction false} SellLoopPays(side: Side, t: SellTotals)
    requires side.Valid() && t.baseRemaining <= side.Remaining()
    ensures var outcome := SellLoop(side, t).1;
            match Proceeds(side, t.baseRemaining)
            case None => outcome.Err?
            case Some(paid) =>
              if t.quoteOut + paid >= TWO_64 then outcome == Err(Overflow)
              else outcome.Ok? && outcome.value.quoteOut == t.quoteOut + paid
    decreases t.baseRemaining
  {
    hide NextSale, FirstPiece, SpotOf, Proceeds, SellLoop;
    ProceedsEmpty(side);
    SellLoopStep(side, t);
    if t.baseRemaining > 0 {
      NextSaleIs(side, t.baseRemaining);
      ProceedsStep(side, t.baseRemaining, Min(t.baseRemaining, SpotOf(side).left));
      var sale := NextSale(side, t.baseRemaining);
      if sale.Ok? && t.quoteOut + sale.value.amount < TWO_64 {
        SellLoopPays(side.(consumed := side.consumed + sale.value.base), t.Add(sale.value));
      }
    }
  }

  lemma NextSaleIs(side: Side, base: u64)
    requires side.Valid() && 0 < base <= side.Remaining()
    ensures var take := Min(base, SpotOf(side).left);
            match FirstPiece(side, take)
            case None => NextSale(side, base).Err?
            case Some(amount) =>
              NextSale(side, base) == if amount >= TWO_64 then Err(Overflow) else Ok(Sale(take, amount))
  {
    var spot := SpotOf(side);
    var take := Min(base, spot.left);
    BidPieceOnLine(side, spot, take);
    LinearAmountIs(BidLine(side, spot.segment, spot.offset), BidLine(side, spot.segment, spot.offset + take), take);
  }

  // ---- Splitting a sale ----

  /** Weighted price steps of a line through three points cancel up to their rounding. */
  lemma StepsCancel(delta: nat, width: int, o: nat, x: nat, y: nat)
    requires 0 < width && 0 < x && 0 < y
    ensures var error := PriceStep(delta, o + x, width) * (x + y) - PriceStep(delta, o, width) * y
                         - PriceStep(delta, o + x + y, width) * x;
            -(x + y) < error < x + y
  {
    var q0, q1, q2 := PriceStep(delta, o, width), PriceStep(delta, o + x, width), PriceStep(delta, o + x + y, width);
    var r0, r1, r2 := delta * o - q0 * width, delta * (o + x) - q1 * width, delta * (o + x + y) - q2 * width;
    PriceStepRemainder(delta, o, width);
    PriceStepRemainder(delta, o + x, width);
    PriceStepRemainder(delta, o + x + y, width);
    hide PriceStep;
    LineCancels(delta, width, o, x, y, q0, q1, q2, r0, r1, r2);
    WeightedRemainders(r0, r1, r2, width, x, y);
    CancelWidth(q1 * (x + y) - q0 * y - q2 * x, x + y, width, r0 * y + r2 * x - r1 * (x + y));
  }

  lemma CancelWidth(error: int, bound: int, width: int, scaled: int)
    requires 0 < width && error * width == scaled && -(bound * width) < scaled < bound * width
    ensures -bound < error < bound
  {
    if error >= bound {
      MulLe(bound, error, width);
    } else if error <= -bound {
      MulLe(error, -bound, width);
    }
  }

  lemma PriceStepRemainder(delta: nat, offset: nat, width: nat)
    requires 0 < width
    ensures 0 <= delta * offset - PriceStep(delta, offset, width) * width < width
  {
    DivBounds(delta * offset, width);
  }

  lemma WeightedRemainders(r0: int, r1: int, r2: int, width: int, x: nat, y: nat)
    requires 0 <= r0 < width && 0 <= r1 < width && 0 <= r2 < width && 0 < x && 0 < y
    ensures -((x + y) * width) < r0 * y + r2 * x - r1 * (x + y) < (x + y) * width
  {
    MulLe(0, r0, y); MulLe(r0, width - 1, y);
    MulLe(0, r2, x); MulLe(r2, width - 1, x);
    MulLe(0, r1, x + y); MulLe(r1, width - 1, x + y);
    assert (width - 1) * y + (width - 1) * x == (x + y) * width - (x + y);
    assert (width - 1) * (x + y) == (x + y) * width - (x + y);
  }

  lemma LineCancels(delta: int, width: int, o: int, x: int, y: int, q0: int, q1: int, q2: int, r0: int, r1: int,
                    r2: int)
    requires r0 == delta * o - q0 * width && r1 == delta * (o + x) - q1 * width
             && r2 == delta * (o + x + y) - q2 * width
    ensures (q1 * (x + y) - q0 * y - q2 * x) * width == r0 * y + r2 * x - r1 * (x + y)
  {
    var line := o * y + (o + x + y) * x - (o + x) * (x + y);
    assert line == 0;
    assert delta * o * y + delta * (o + x + y) * x - delta * (o + x) * (x + y) == delta * line;
  }

  /** Splitting a trapezoid whose line nearly passes through the middle point. */
  lemma SplitAmounts(top: int, q0: int, q1: int, q2: int, x: nat, y: nat)
    requires q0 <= top && q1 <= top && q2 <= top && x + y < Q64
    requires -(x + y) < q1 * (x + y) - q0 * y - q2 * x < x + y
    ensures var whole := Amount(top - q0, top - q2, x + y);
            var first, second := Amount(top - q0, top - q1, x), Amount(top - q1, top - q2, y);
            first + second - 1 <= whole <= first + second + 2
  {
    var p0, p1, p2 := top - q0, top - q1, top - q2;
    LinePoints(top, q0, q1, q2, x, y);
    AveragesCancel(p0, p1, p2, x, y);
    var whole, first, second := (p0 + p2) / 2 * (x + y), (p0 + p1) / 2 * x, (p1 + p2) / 2 * y;
    DivBounds(whole, Q64);
    DivBounds(first, Q64);
    DivBounds(second, Q64);
  }

  /** Selling a stretch of one slice in two pieces gains at most one atom and loses at most two. */
  lemma SplitFirstPiece(side: Side, middle: Side, x: u64, y: u64)
    requires side.Valid() && middle.Valid() && side.consumed < side.total && middle.consumed < middle.total
    requires SameLadder(side, middle) && 0 < x && 0 < y && x + y <= SpotOf(side).left
    requires SpotOf(middle) == Spot(SpotOf(side).segment, SpotOf(side).offset + x, SpotOf(side).left - x)
    requires FirstPiece(side, x).Some? && FirstPiece(middle, y).Some?
    ensures var parts := FirstPiece(side, x).value + FirstPiece(middle, y).value;
            FirstPiece(side, x + y).Some? && parts - 1 <= FirstPiece(side, x + y).value <= parts + 2
  {
    hide SegmentOf, SegmentStart, PieceAt;
    var segment, o := SpotOf(side).segment, SpotOf(side).offset;
    PieceAtLadder(side, middle, segment, o + x, y);
    SplitPieceAt(side, segment, o, x, y);
  }

  lemma PieceAtLadder(side: Side, other: Side, segment: nat, offset: nat, take: nat)
    requires side.Valid() && other.Valid() && SameLadder(side, other) && segment < SEGMENT_COUNT
    requires 0 < SegmentWidth(side.total, segment) && offset + take <= SegmentWidth(side.total, segment)
    ensures PieceAt(side, segment, offset, take) == PieceAt(other, segment, offset, take)
  {
    hide PriceStep, Amount, SegmentStart, SegmentEnd;
  }

  lemma SplitPieceAt(side: Side, segment: nat, o: nat, x: nat, y: nat)
    requires side.Valid() && segment < SEGMENT_COUNT && 0 < x && 0 < y
    requires 0 < SegmentWidth(side.total, segment) && o + x + y <= SegmentWidth(side.total, segment)
    requires PieceAt(side, segment, o, x).Some? && PieceAt(side, segment, o + x, y).Some?
    ensures var parts := PieceAt(side, segment, o, x).value + PieceAt(side, segment, o + x, y).value;
            PieceAt(side, segment, o, x + y).Some? && parts - 1 <= PieceAt(side, segment, o, x + y).value <= parts + 2
  {
    hide PriceStep, Amount, SegmentStart, SegmentEnd, SegmentWidth;
    SegmentFacts(side, segment);
    var width, top := SegmentWidth(side.total, segment), side.prices[6 - segment];
    var delta := top - side.prices[5 - segment];
    StepsCancel(delta, width, o, x, y);
    PriceStepBounds(delta, o, width);
    PriceStepBounds(delta, o + x, width);
    PriceStepBounds(delta, o + x + y, width);
    PriceStepMono(delta, o + x, o + x + y, width);
    SplitAmounts(top, PriceStep(delta, o, width), PriceStep(delta, o + x, width), PriceStep(delta, o + x + y, width),
                 x, y);
  }

  lemma LinePoints(top: int, q0: int, q1: int, q2: int, x: int, y: int)
    ensures (top - q0) * y + (top - q2) * x - (top - q1) * (x + y) == q1 * (x + y) - q0 * y - q2 * x
  {
  }

  lemma AveragesCancel(p0: nat, p1: nat, p2: nat, x: nat, y: nat)
    requires -(x + y) < p0 * y + p2 * x - p1 * (x + y) < x + y
    ensures -(x + y) < (p0 + p2) / 2 * (x + y) - (p0 + p1) / 2 * x - (p1 + p2) / 2 * y < x + y
  {
    HalfSum(p0, p2, x + y);
    HalfSum(p0, p1, x);
    HalfSum(p1, p2, y);
    PairProducts(p0, p1, p2, x, y);
    HalvesCombine((p0 + p2) / 2 * (x + y), (p0 + p1) / 2 * x, (p1 + p2) / 2 * y,
                  (p0 + p2) * (x + y), (p0 + p1) * x, (p1 + p2) * y, x, y);
  }

  lemma PairProducts(p0: int, p1: int, p2: int, x: int, y: int)
    ensures (p0 + p2) * (x + y) - (p0 + p1) * x - (p1 + p2) * y == p0 * y + p2 * x - p1 * (x + y)
  {
  }

  /** Three halves that each round down by less than their weight. */
  lemma HalvesCombine(a: int, b: int, c: int, twiceA: int, twiceB: int, twiceC: int, x: nat, y: nat)
    requires twiceA - (x + y) <= 2 * a <= twiceA && twiceB - x <= 2 * b <= twiceB && twiceC - y <= 2 * c <= twiceC
    requires -(x + y) < twiceA - twiceB - twiceC < x + y
    ensures -(x + y) < a - b - c < x + y
  {
  }

  lemma HalfSum(p: nat, q: nat, s: nat)
    ensures (p + q) * s - s <= 2 * ((p + q) / 2 * s) <= (p + q) * s
  {
    var half := (p + q) / 2;
    MulLe(2 * half, p + q, s);
    MulLe(p + q - 1, 2 * half, s);
    assert (2 * half) * s == 2 * (half * s);
  }

  lemma {:induction false} SplitProceeds(side: Side, a: u64, b: u64)
    requires side.Valid() && a + b <= side.Remaining() && 0 < b
    requires Proceeds(side, a).Some? && Proceeds(side.(consumed := side.consumed + a), b).Some?
    ensures Proceeds(side, a + b).Some?
    ensures var parts := Proceeds(side, a).value + Proceeds(side.(consumed := side.consumed + a), b).value;
            parts - 1 <= Proceeds(side, a + b).value <= parts + 2
    decreases a
  {
    hide FirstPiece, SpotOf, Proceeds;
    ProceedsEmpty(side.(consumed := side.consumed + a));
    if a == 0 {
      ProceedsEmpty(side);
    } else {
      var left := SpotOf(side).left;
      var middle := side.(consumed := side.consumed + a);
      ProceedsStep(side, a, Min(a, left));
      ProceedsStep(side, a + b, Min(a + b, left));
      if a >= left {
        var next := side.(consumed := side.consumed + left);
        assert next.(consumed := next.consumed + (a - left)) == middle;
        SplitProceeds(next, a - left, b);
      } else {
        SplitInSlice(side, a, b);
      }
    }
  }

  /** The slice in which the first sale ends is the only one that is split. */
  lemma SplitInSlice(side: Side, a: u64, b: u64)
    requires side.Valid() && a + b <= side.Remaining() && 0 < a < SpotOf(side).left && 0 < b
    requires Proceeds(side, a).Some? && Proceeds(side.(consumed := side.consumed + a), b).Some?
    ensures Proceeds(side, a + b).Some?
    ensures var parts := Proceeds(side, a).value + Proceeds(side.(consumed := side.consumed + a), b).value;
            parts - 1 <= Proceeds(side, a + b).value <= parts + 2
  {
    hide FirstPiece, SpotOf, Proceeds;
    var left, middle := SpotOf(side).left, side.(consumed := side.consumed + a);
    var take := Min(b, left - a);
    ProceedsEmpty(middle);
    ProceedsStep(side, a, a);
    ProceedsStep(side, a + b, Min(a + b, left));
    SpotMoves(side, a);
    ProceedsStep(middle, b, take);
    SplitFirstPiece(side, middle, a, take);
    assert middle.(consumed := middle.consumed + take) == side.(consumed := side.consumed + (a + take));
  }

  /** Consuming less than what is left of a slice stays in that slice. */
  lemma SpotMoves(side: Side, taken: u64)
    requires side.Valid() && side.consumed < side.total && taken < SpotOf(side).left
    ensures side.consumed + taken < side.total
    ensures SpotOf(side.(consumed := side.consumed + taken))
         == Spot(SpotOf(side).segment, SpotOf(side).offset + taken, SpotOf(side).left - taken)
  {
    hide SegmentOf, SegmentStart;
    var segment := SpotOf(side).segment;
    SegmentsPartition(side.total, segment);
    SegmentOfIsUnique(side.total, side.consumed, segment);
    SegmentOfIsUnique(side.total, side.consumed + taken, segment);
  }

  /** Two consecutive sales against one: the same base is consumed, and the proceeds of the
      single sale lie between one atom less and two atoms more. The single sale can fail
      only because its proceeds do not fit 64 bits. */
  lemma SplitSale(side: Side, a: u64, b: u64)
    requires side.Valid() && a + b < TWO_64
    requires Sell(side, a).outcome.Ok? && Sell(Sell(side, a).side, b).outcome.Ok?
    ensures var first, second, whole := Sell(side, a), Sell(Sell(side, a).side, b), Sell(side, a + b);
            var parts := first.outcome.value.amountOut + second.outcome.value.amountOut;
            if whole.outcome.Ok? then
              && whole.side == second.side && whole.outcome.value.amountInUsed == a + b
              && parts - 1 <= whole.outcome.value.amountOut <= parts + 2
            else whole.outcome == Err(Overflow) && parts + 2 >= TWO_64
  {
    hide SellLoop, Proceeds;
    SellKeepsSide(side, a);
    var middle := Sell(side, a).side;
    SellKeepsSide(middle, b);
    SellKeepsSide(side, a + b);
    SellLoopPays(side, SellTotals(a, 0, 0));
    SellLoopPays(middle, SellTotals(b, 0, 0));
    SellLoopPays(side, SellTotals(a + b, 0, 0));
    assert middle == side.(consumed := side.consumed + a);
    SplitProceeds(side, a, b);
  }

  // ---- Slices touched by a sale ----

  /** Finishing a slice lands at the start of the next one. */
  lemma SliceFinished(side: Side)
    requires side.Valid() && side.consumed < side.total && side.consumed + SpotOf(side).left < side.total
    ensures SegmentOf(side.total, side.consumed + SpotOf(side).left) == SpotOf(side).segment + 1
  {
    hide SegmentOf, SegmentStart;
    var segment := SpotOf(side).segment;
    SegmentsPartition(side.total, segment);
    if segment == SEGMENT_COUNT - 1 {
      assert false;
    } else {
      SegmentsPartition(side.total, segment + 1);
      SegmentOfIsUnique(side.total, side.consumed + SpotOf(side).left, segment + 1);
    }
  }

  lemma {:induction false} SellLoopCrosses(side: Side, t: SellTotals)
    requires side.Valid() && 0 < t.baseRemaining <= side.Remaining() && SellLoop(side, t).1.Ok?
    requires t.crossed + SEGMENT_COUNT - SegmentOf(side.total, side.consumed) < TWO_8
    ensures SegmentOf(side.total, side.consumed) <= SegmentOf(side.total, side.consumed + t.baseRemaining - 1)
    ensures SellLoop(side, t).1.value.crossed
         == t.crossed + 1 + SegmentOf(side.total, side.consumed + t.baseRemaining - 1)
            - SegmentOf(side.total, side.consumed)
    decreases SEGMENT_COUNT - SegmentOf(side.total, side.consumed)
  {
    hide NextSale, SellLoop, SegmentOf;
    SellLoopStep(side, t);
    NextSaleFacts(side, t.baseRemaining);
    var sale, left := NextSale(side, t.baseRemaining).value, SpotOf(side).left;
    var after, rest := side.(consumed := side.consumed + sale.base), t.Add(sale);
    SellLoopStep(after, rest);
    if t.baseRemaining <= left {
      SpotMoves(side, t.baseRemaining - 1);
    } else {
      SliceFinished(side);
      SellLoopCrosses(after, rest);
    }
  }

  // ---- Proceeds against the ladder ----

  lemma FirstPieceWithinLadder(side: Side, take: u64)
    requires side.Valid() && side.consumed < side.total && 0 < take <= SpotOf(side).left
    requires FirstPiece(side, take).Some?
    ensures PaysWithin(side.prices, take, FirstPiece(side, take).value, 1)
  {
    var spot := SpotOf(side);
    SegmentFacts(side, spot.segment);
    LadderEnds(side, 5 - spot.segment);
    LadderEnds(side, 6 - spot.segment);
    var p, q := BidLine(side, spot.segment, spot.offset), BidLine(side, spot.segment, spot.offset + take);
    hide BidLine, Amount, PaysWithin;
    AmountWithin(side.prices, p, q, take);
  }

  lemma AmountWithin(prices: PriceLadder, p: nat, q: nat, base: nat)
    requires prices[0] <= p <= prices[6] && prices[0] <= q <= prices[6]
    ensures PaysWithin(prices, base, Amount(p, q, base), 1)
  {
    var average := (p + q) / 2;
    MulLe(average, prices[6], base);
    MulLe(prices[0], average, base);
    DivBounds(average * base, Q64);
  }

  lemma LadderEnds(side: Side, i: nat)
    requires side.Valid() && i <= SEGMENT_COUNT
    ensures side.prices[0] <= side.prices[i] <= side.prices[6]
  {
    if i == 0 {
    } else if i == 1 {
    } else if i == 2 {
    } else if i == 3 {
    } else if i == 4 {
    } else {
      assert i == 5 || i == 6;
    }
  }

  /** Between the lowest and the highest price, less one atom a slice. */
  predicate PaysWithin(prices: PriceLadder, base: int, paid: int, slices: int) {
    paid * Q64 <= base * prices[6] && base * prices[0] <= (paid + slices) * Q64
  }

  lemma {:induction false} SellLoopWithinLadder(side: Side, t: SellTotals)
    requires side.Valid() && t.baseRemaining <= side.Remaining() && SellLoop(side, t).1.Ok?
    requires t.baseRemaining > 0 ==> t.crossed + SEGMENT_COUNT - SegmentOf(side.total, side.consumed) < TWO_8
    ensures var end := SellLoop(side, t).1.value;
            PaysWithin(side.prices, t.baseRemaining, end.quoteOut - t.quoteOut, end.crossed - t.crossed)
    decreases t.baseRemaining
  {
    hide NextSale, SellLoop, FirstPiece, SegmentOf, SpotOf, PaysWithin;
    SellLoopStep(side, t);
    if t.baseRemaining == 0 {
      NothingPaysNothing(side.prices);
    } else {
      NextSaleIs(side, t.baseRemaining);
      var sale := NextSale(side, t.baseRemaining).value;
      FirstPieceWithinLadder(side, sale.base);
      var after, rest := side.(consumed := side.consumed + sale.base), t.Add(sale);
      assert after.Valid() && after.prices == side.prices && rest.baseRemaining <= after.Remaining();
      if rest.baseRemaining > 0 {
        SegmentAfterSlice(side);
      }
      SellLoopWithinLadder(after, rest);
      var end := SellLoop(after, rest).1.value;
      LadderAdds(side.prices, sale.base, rest.baseRemaining, sale.amount, end.quoteOut - rest.quoteOut,
                 end.crossed - rest.crossed);
    }
  }

  lemma NothingPaysNothing(prices: PriceLadder)
    ensures PaysWithin(prices, 0, 0, 0)
  {
  }

  lemma LadderAdds(prices: PriceLadder, base: int, moreBase: int, paid: int, morePaid: int, slices: int)
    requires PaysWithin(prices, base, paid, 1) && PaysWithin(prices, moreBase, morePaid, slices)
    ensures PaysWithin(prices, base + moreBase, paid + morePaid, slices + 1)
  {
    assert (base + moreBase) * prices[6] == base * prices[6] + moreBase * prices[6];
    assert (base + moreBase) * prices[0] == base * prices[0] + moreBase * prices[0];
  }

  lemma SegmentAfterSlice(side: Side)
    requires side.Valid() && side.consumed + SpotOf(side).left < side.total
    ensures side.consumed < side.total ==>
              SegmentOf(side.total, side.consumed + SpotOf(side).left) == SegmentOf(side.total, side.consumed) + 1
  {
    if side.consumed < side.total {
      SliceFinished(side);
    }
  }

  /** An accepted sale touches as many slices as its first and last atom are apart, at most
      six, and pays between the ladder's lowest and highest price less one atom a slice. */
  lemma SellTouchesAndPays(side: Side, baseIn: u64)
    requires side.Valid() && Sell(side, baseIn).outcome.Ok?
    ensures var q := Sell(side, baseIn).outcome.value;
            && q.segmentsCrossed
               == 1 + SegmentOf(side.total, side.consumed + baseIn - 1) - SegmentOf(side.total, side.consumed)
            && 1 <= q.segmentsCrossed <= SEGMENT_COUNT
            && PaysWithin(side.prices, baseIn, q.amountOut, q.segmentsCrossed)
  {
    hide SellLoop, SegmentOf;
    SellLoopCrosses(side, SellTotals(baseIn, 0, 0));
    SellLoopWithinLadder(side, SellTotals(baseIn, 0, 0));
  }
}
