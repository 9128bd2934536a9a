/** The piecewise simulator: one bid and one ask side carried through a whole flow of
    orders, each accepted order replenishing the opposite side. */
module PiecewiseRun {
  import opened Numbers
  import opened FixedPoint
  import opened Piecewise
  import opened PiecewiseBook
  import opened PiecewiseLaws
  import opened PiecewiseBuyLaws
  import opened Market

  datatype Tally = Tally(bid: Side, ask: Side, filled: nat, rejected: nat, postFills: nat, edge: int, maxCrossed: u8) {
    predicate Valid() {
      bid.Valid() && ask.Valid()
    }

    function Depth(): int {
      bid.Remaining() + ask.Remaining()
    }
  }

  /** One order: fill it on its side, then replenish the other with the base that moved. */
  function Step(policy: PostFillPolicy, t: Tally, event: FlowEvent): Result<Tally, MathError> {
    match event.side
    case BaseToQuote =>
      var fill := Sell(t.bid, event.amountIn);
      var after := t.(bid := fill.side);
      (match fill.outcome
       case Err(error) => if error == InvalidAmount then Ok(after.(rejected := t.rejected + 1)) else Err(error)
       case Ok(quote) =>
         var edge :- TakerEdge(event, quote.amountOut);
         var refill := PostFill(t.ask, event.amountIn, policy, quote.segmentsCrossed);
         if refill.outcome.Err? then Err(refill.outcome.error)
         else Ok(Book(after.(ask := refill.side), edge, quote.segmentsCrossed)))
    case QuoteToBase =>
      var fill := Buy(t.ask, event.amountIn);
      var after := t.(ask := fill.side);
      (match fill.outcome
       case Err(error) => if error == InvalidAmount then Ok(after.(rejected := t.rejected + 1)) else Err(error)
       case Ok(quote) =>
         var edge :- TakerEdge(event, quote.amountOut);
         var refill := PostFill(t.bid, quote.amountOut, policy, quote.segmentsCrossed);
         if refill.outcome.Err? then Err(refill.outcome.error)
         else Ok(Book(after.(bid := refill.side), edge, quote.segmentsCrossed)))
  }

  function Book(t: Tally, edge: int, crossed: u8): Tally {
    t.(filled := t.filled + 1, postFills := t.postFills + 1,
       edge := SaturatingAddI128(t.edge, edge), maxCrossed := Max(t.maxCrossed, crossed))
  }

  function Run(policy: PostFillPolicy, t: Tally, events: seq<FlowEvent>): Result<Tally, MathError>
    decreases |events|
  {
    if events == [] then Ok(t)
    else
      var next :- Step(policy, t, events[0]);
      Run(policy, next, events[1..])
  }

  function Start(bid: Side, ask: Side): Tally {
    Tally(bid, ask, 0, 0, 0, 0, 0)
  }

  /** The simulator itself, on two book objects. */
  method SimulatePiecewiseProp(bid: Side, ask: Side, policy: PostFillPolicy, events: seq<FlowEvent>)
    returns (r: Result<Tally, MathError>)
    ensures r == if bid.Valid() && ask.Valid() then Run(policy, Start(bid, ask), events) else Err(InvalidConfig)
  {
    if bid.Validate().Err? || ask.Validate().Err? {
      return Err(InvalidConfig);
    }
    var bidSide := new BookSide(bid);
    var askSide := new BookSide(ask);
    var t := Start(bid, ask);
    for i := 0 to |events|
      invariant t.bid == bidSide.View() && t.ask == askSide.View()
      invariant Run(policy, t, events[i..]) == Run(policy, Start(bid, ask), events)
    {
      var event := events[i];
      assert events[i..][0] == event && events[i..][1..] == events[i + 1..];
      RunStep(policy, t, events[i..]);
      var next := ProcessEvent(bidSide, askSide, policy, t, event);
      if next.Err? {
        return Err(next.error);
      }
      t := next.value;
    }
    return Ok(t);
  }

  lemma RunStep(policy: PostFillPolicy, t: Tally, events: seq<FlowEvent>)
    requires events != []
    ensures Run(policy, t, events)
         == match Step(policy, t, events[0])
            case Err(error) => Err(error)
            case Ok(next) => Run(policy, next, events[1..])
  {
  }

  method ProcessEvent(bidSide: BookSide, askSide: BookSide, policy: PostFillPolicy, t: Tally, event: FlowEvent)
    returns (r: Result<Tally, MathError>)
    requires bidSide != askSide && t.bid == bidSide.View() && t.ask == askSide.View()
    modifies bidSide, askSide
    ensures r == Step(policy, t, event)
    ensures r.Ok? ==> r.value.bid == bidSide.View() && r.value.ask == askSide.View()
  {
    var fill;
    if event.side == BaseToQuote {
      fill := bidSide.SellBaseForQuote(event.amountIn);
    } else {
      fill := askSide.BuyBaseWithQuote(event.amountIn);
    }
    match fill
    case Err(InvalidAmount) =>
      return Ok(t.(bid := bidSide.View(), ask := askSide.View(), rejected := t.rejected + 1));
    case Err(error) =>
      return Err(error);
    case Ok(quote) =>
      var edge := TakerEdge(event, quote.amountOut);
      if edge.Err? {
        return Err(edge.error);
      }
      var refill;
      if event.side == BaseToQuote {
        refill := askSide.ApplyPostFill(event.amountIn, policy, quote.segmentsCrossed);
      } else {
        refill := bidSide.ApplyPostFill(quote.amountOut, policy, quote.segmentsCrossed);
      }
      if refill.Err? {
        return Err(refill.error);
      }
      return Ok(Book(t.(bid := bidSide.View(), ask := askSide.View()), edge.value, quote.segmentsCrossed));
  }

  // ---- Refills ----

  predicate Conserving(policy: PostFillPolicy) {
    policy == HealThenAdd || policy == DepthProportional
  }

  /** Scaling keeps the consumed fraction, rounded down to an atom, and never overshoots the depth. */
  lemma ScaledConsumption(consumed: u64, total: u64, newTotal: u64)
    requires 0 < total <= newTotal && consumed <= total
    ensures var scaled := MulDiv(consumed, newTotal, total);
            && scaled.Ok? && scaled.value <= newTotal
            && scaled.value * total <= consumed * newTotal < (scaled.value + 1) * total
  {
    MulNonNeg(consumed, newTotal);
    MulLe(consumed, total, newTotal);
    DivBounds(consumed * newTotal, total);
    DivAtLeast(consumed * newTotal, total, newTotal + 1);
    assert consumed * newTotal / total <= newTotal;
  }

  lemma ProportionalScaleEffect(side: Side, quantity: u64, crossed: u8)
    requires side.Valid()
    ensures var refill := PostFill(side, quantity, ProportionalScale, crossed);
            if side.total + quantity >= TWO_64 then refill == Refill(side, Err(Overflow))
            else
              && refill.outcome.Ok? && refill.side.Valid() && refill.side.prices == side.prices
              && refill.side.total == side.total + quantity
              && refill.side.consumed * side.total <= side.consumed * refill.side.total
                 < (refill.side.consumed + 1) * side.total
  {
    hide MulDiv;
    if quantity == 0 {
      assert (side.consumed + 1) * side.total == side.consumed * side.total + side.total;
    } else if side.total + quantity < TWO_64 {
      ScaledConsumption(side.consumed, side.total, side.total + quantity);
    }
  }

  /** Healing and appending raise the remaining depth by exactly the replenishment; they are
      refused only when the depth would not fit 64 bits. */
  lemma ConservingRefillEffect(side: Side, quantity: u64, policy: PostFillPolicy, crossed: u8)
    requires side.Valid() && Conserving(policy)
    ensures var refill := PostFill(side, quantity, policy, crossed);
            if refill.outcome.Err? then refill.outcome == Err(Overflow) && side.total + quantity >= TWO_64
            else
              && refill.side.Valid() && refill.side.prices == side.prices
              && refill.side.Remaining() == side.Remaining() + quantity
  {
  }

  /** What healing first and appending the rest makes of consumed depth and total depth. */
  predicate HealedFirst(before: Side, after: Side, quantity: u64, appended: int) {
    && after.prices == before.prices
    && after.consumed == Max(before.consumed - quantity, 0)
    && after.total == before.total + Max(quantity - before.consumed, 0) + appended
  }

  /** A heal-then-add refill gives back consumed depth first and appends only what no consumed
      depth is left for. It fails exactly when the depth would not fit, with everything healed. */
  lemma HealingComesFirst(side: Side, quantity: u64, crossed: u8)
    requires side.Valid()
    ensures var refill := PostFill(side, quantity, HealThenAdd, crossed);
            && (refill.outcome.Ok? <==> side.total + Max(quantity - side.consumed, 0) < TWO_64)
            && (if refill.outcome.Ok? then
                  && HealedFirst(side, refill.side, quantity, 0)
                  && (refill.side.total > side.total ==> refill.side.consumed == 0)
                  && (quantity <= side.consumed ==>
                        refill.side.total == side.total && refill.side.consumed == side.consumed - quantity)
                else refill == Refill(side.(consumed := 0), Err(Overflow)))
  {
  }

  /** A depth-proportional refill always appends one sixth of itself, rounded down, per slice the
      fill crossed, and heals first with the rest. It fails exactly when the depth would not
      fit, with the healing already done. */
  lemma DepthProportionalEffect(side: Side, quantity: u64, crossed: u8) returns (add: u64)
    requires side.Valid()
    ensures SEGMENT_COUNT * add <= quantity * Min(crossed, SEGMENT_COUNT) < SEGMENT_COUNT * add + SEGMENT_COUNT
    ensures add <= quantity
    ensures var refill, grown := PostFill(side, quantity, DepthProportional, crossed),
                                 side.total + Max(quantity - add - side.consumed, 0);
            && (refill.outcome.Ok? <==> grown + add < TWO_64)
            && (if refill.outcome.Ok? then HealedFirst(side, refill.side, quantity - add, add)
                else
                  && refill.outcome == Err(Overflow)
                  && (if grown < TWO_64 then HealedFirst(side, refill.side, quantity - add, 0)
                      else refill.side == side.(consumed := 0)))
  {
    add := DepthShare(quantity, crossed);
    DivBounds(quantity * Min(crossed, SEGMENT_COUNT), SEGMENT_COUNT);
    hide DepthShare;
  }

  /** Without a policy, or with nothing to replenish, a side is left alone. */
  lemma NoRefillEffect(side: Side, quantity: u64, policy: PostFillPolicy, crossed: u8)
    requires policy == NoRefill || quantity == 0 || !side.Valid()
    ensures PostFill(side, quantity, policy, crossed)
         == Refill(side, if side.Valid() then Ok(()) else Err(InvalidConfig))
  {
  }

  // ---- Whole runs ----

  /** Base that rejected orders took off the book before they were turned down. */
  function Leaked(policy: PostFillPolicy, t: Tally, events: seq<FlowEvent>): int
    decreases |events|
  {
    if events == [] then 0
    else
      match Step(policy, t, events[0])
      case Err(_) => 0
      case Ok(next) =>
        (if next.rejected > t.rejected then next.bid.consumed - t.bid.consumed + next.ask.consumed - t.ask.consumed
         else 0)
        + Leaked(policy, next, events[1..])
  }

  lemma RefillKeeps(side: Side, quantity: u64, policy: PostFillPolicy, crossed: u8)
    requires side.Valid() && PostFill(side, quantity, policy, crossed).outcome.Ok?
    ensures var after := PostFill(side, quantity, policy, crossed).side;
            && after.Valid() && after.prices == side.prices
            && (Conserving(policy) ==> after.Remaining() == side.Remaining() + quantity)
  {
    if Conserving(policy) {
      ConservingRefillEffect(side, quantity, policy, crossed);
    } else if policy == ProportionalScale {
      ProportionalScaleEffect(side, quantity, crossed);
    }
  }

  lemma StepKeeps(policy: PostFillPolicy, t: Tally, event: FlowEvent)
    requires t.Valid() && Step(policy, t, event).Ok?
    ensures var next := Step(policy, t, event).value;
            && next.Valid() && next.bid.prices == t.bid.prices && next.ask.prices == t.ask.prices
            && next.filled + next.rejected == t.filled + t.rejected + 1
            && next.postFills - next.filled == t.postFills - t.filled
            && t.rejected <= next.rejected
            && (next.rejected > t.rejected ==>
                  && next.filled == t.filled
                  && next.bid.consumed >= t.bid.consumed && next.ask.consumed >= t.ask.consumed
                  && next.Depth() + (next.bid.consumed - t.bid.consumed) + (next.ask.consumed - t.ask.consumed)
                     == t.Depth())
            && (next.rejected == t.rejected && Conserving(policy) ==> next.Depth() == t.Depth())
  {
    hide Sell, Buy, PostFill;
    if event.side == BaseToQuote {
      SellKeepsSide(t.bid, event.amountIn);
      var fill := Sell(t.bid, event.amountIn);
      if fill.outcome.Ok? {
        RefillKeeps(t.ask, event.amountIn, policy, fill.outcome.value.segmentsCrossed);
      }
    } else {
      BuyKeepsSide(t.ask, event.amountIn);
      var fill := Buy(t.ask, event.amountIn);
      if fill.outcome.Ok? {
        RefillKeeps(t.bid, fill.outcome.value.amountOut, policy, fill.outcome.value.segmentsCrossed);
      }
    }
  }

  /** Over any flow of orders both sides stay valid with their prices, every order is either
      filled or rejected, each fill is followed by one refill, and under a conserving policy
      the depth of the two sides together shrinks by exactly what rejected orders took. */
  lemma {:induction false} RunConserves(policy: PostFillPolicy, t: Tally, events: seq<FlowEvent>)
    requires t.Valid() && Run(policy, t, events).Ok?
    ensures var end := Run(policy, t, events).value;
            && end.Valid() && end.bid.prices == t.bid.prices && end.ask.prices == t.ask.prices
            && end.filled + end.rejected == t.filled + t.rejected + |events|
            && end.postFills - end.filled == t.postFills - t.filled
            && 0 <= Leaked(policy, t, events)
            && (Conserving(policy) ==> end.Depth() + Leaked(policy, t, events) == t.Depth())
    decreases |events|
  {
    hide Step;
    if events != [] {
      StepKeeps(policy, t, events[0]);
      RunConserves(policy, Step(policy, t, events[0]).value, events[1..]);
    }
  }

  // ---- What one fill reports and replenishes ----

  /** The slices a sale touches: those between the slice of its first and of its last atom. */
  function SlicesTouched(side: Side, baseIn: u64): int
    requires baseIn > 0 && side.consumed + baseIn <= side.total
  {
    1 + SegmentOf(side.total, side.consumed + baseIn - 1) - SegmentOf(side.total, side.consumed)
  }

  /** An accepted sale replenishes the asks with the base sold, a depth-proportional refill
      weighing it by the slices the sale touched; its edge is added to the running one, and
      the largest number of slices is kept. */
  lemma SaleReplenishes(policy: PostFillPolicy, t: Tally, event: FlowEvent)
    requires t.Valid() && event.side == BaseToQuote && Sell(t.bid, event.amountIn).outcome.Ok?
    requires Step(policy, t, event).Ok?
    ensures var next, out := Step(policy, t, event).value, Sell(t.bid, event.amountIn).outcome.value.amountOut;
            && 0 < event.amountIn && t.bid.consumed + event.amountIn <= t.bid.total
            && next.bid == t.bid.(consumed := t.bid.consumed + event.amountIn)
            && next.ask == PostFill(t.ask, event.amountIn, policy, SlicesTouched(t.bid, event.amountIn)).side
            && next.maxCrossed == Max(t.maxCrossed, SlicesTouched(t.bid, event.amountIn))
            && TakerEdge(event, out).Ok?
            && next.edge == Clamp(t.edge + TakerEdge(event, out).value, -TWO_127, TWO_127 - 1)
            && next.filled == t.filled + 1 && next.rejected == t.rejected
  {
    SaleTouches(t.bid, event.amountIn);
    hide Sell, PostFill, TakerEdge, SlicesTouched;
  }

  lemma SaleTouches(side: Side, baseIn: u64)
    requires side.Valid() && Sell(side, baseIn).outcome.Ok?
    ensures var fill := Sell(side, baseIn);
            && 0 < baseIn && side.consumed + baseIn <= side.total
            && fill.side == side.(consumed := side.consumed + baseIn)
            && fill.outcome.value.segmentsCrossed == SlicesTouched(side, baseIn)
  {
    SellKeepsSide(side, baseIn);
    SellTouchesAndPays(side, baseIn);
    hide SellLoop, SegmentOf, PaysWithin;
  }

  /** An accepted buy replenishes the bids with the base bought, weighed by the rounds it took. */
  lemma BuyReplenishes(policy: PostFillPolicy, t: Tally, event: FlowEvent)
    requires t.Valid() && event.side == QuoteToBase && Buy(t.ask, event.amountIn).outcome.Ok?
    requires Step(policy, t, event).Ok?
    ensures var next, taken := Step(policy, t, event).value,
                               Buy(t.ask, event.amountIn).side.consumed - t.ask.consumed;
            var rounds := Min(Rounds(t.ask, BuyTotals(event.amountIn, 0, 0, 0)), TWO_8 - 1);
            && 0 < taken < TWO_64 && 0 <= rounds
            && next.ask == t.ask.(consumed := t.ask.consumed + taken)
            && next.bid == PostFill(t.bid, taken, policy, rounds).side
            && next.maxCrossed == Max(t.maxCrossed, rounds)
            && TakerEdge(event, taken).Ok?
            && next.edge == Clamp(t.edge + TakerEdge(event, taken).value, -TWO_127, TWO_127 - 1)
            && next.filled == t.filled + 1 && next.rejected == t.rejected
  {
    BuyKeepsSide(t.ask, event.amountIn);
    BuyPaysWithinLadder(t.ask, event.amountIn);
    hide Buy, PostFill, TakerEdge, Rounds, PaysWithin;
  }

  function FillOf(t: Tally, event: FlowEvent): Fill {
    if event.side == BaseToQuote then Sell(t.bid, event.amountIn) else Buy(t.ask, event.amountIn)
  }

  /** An order that cannot be filled counts as rejected, and nothing but the depth it took moves;
      only a fill beyond the number range ends the run. */
  lemma UnfilledOrder(policy: PostFillPolicy, t: Tally, event: FlowEvent)
    requires t.Valid()
    requires FillOf(t, event).outcome.Err?
    ensures var fill := FillOf(t, event);
            match Step(policy, t, event)
            case Err(error) => fill.outcome == Err(Overflow) && error == Overflow
            case Ok(next) =>
              && fill.outcome == Err(InvalidAmount)
              && next == t.(rejected := t.rejected + 1, bid := next.bid, ask := next.ask)
              && (if event.side == BaseToQuote then next.bid == fill.side && next.ask == t.ask
                  else next.bid == t.bid && next.ask == fill.side)
  {
    SellKeepsSide(t.bid, event.amountIn);
    BuyKeepsSide(t.ask, event.amountIn);
    hide Sell, Buy, PostFill, TakerEdge;
  }
}
