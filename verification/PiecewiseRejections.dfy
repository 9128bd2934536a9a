/** Which orders a book side accepts, and what a rejected order has already done to it. */
module PiecewiseRejections {
  import opened Numbers
  import opened FixedPoint
  import opened Piecewise
  import opened PiecewiseLaws
  import opened PiecewiseBuyLaws

  // ---- Sales ----

  /** A sale is accepted if and only if the side holds its base, every slice it touches pays
      something, and the payouts together fit 64 bits. */
  lemma SaleAcceptedExactly(side: Side, baseIn: u64)
    ensures Sell(side, baseIn).outcome.Ok?
       <==> && side.Valid() && 0 < baseIn <= side.Remaining()
            && Proceeds(side, baseIn).Some? && Proceeds(side, baseIn).value < TWO_64
    ensures Sell(side, baseIn).outcome.Ok? ==>
              Sell(side, baseIn).outcome.value.amountOut == Proceeds(side, baseIn).value
  {
    hide SellLoop, Proceeds;
    if side.Valid() && 0 < baseIn <= side.Remaining() {
      SellLoopPays(side, SellTotals(baseIn, 0, 0));
    }
  }

  /** The part of a sale in the current slice can be paid on its own. */
  predicate FirstSlicePays(side: Side, baseIn: u64)
    requires side.Valid() && 0 < baseIn <= side.Remaining()
  {
    var piece := FirstPiece(side, Min(baseIn, SpotOf(side).left));
    piece.Some? && piece.value < TWO_64
  }

  /** Exactly which sales leave the side alone: those turned away at the door and those whose
      very first slice cannot be paid. Every other rejected sale has taken depth. */
  lemma SaleLeavesSideExactly(side: Side, baseIn: u64)
    ensures Sell(side, baseIn).side == side
       <==> !side.Valid() || baseIn == 0 || baseIn > side.Remaining() || !FirstSlicePays(side, baseIn)
  {
    hide FirstPiece, SpotOf, NextSale, SellLoop;
    if side.Valid() && 0 < baseIn <= side.Remaining() {
      var t := SellTotals(baseIn, 0, 0);
      SellLoopStep(side, t);
      NextSaleIs(side, baseIn);
      var sale := NextSale(side, baseIn);
      if sale.Ok? {
        SellLoopKeeps(side.(consumed := side.consumed + sale.value.base), t.Add(sale.value));
      }
    }
  }

  const STEEP_BOOK := Side([1, 2, 3, 4, 5, 6, 100 * Q64], 600, 0)

  lemma FirstSliceOfSteepBook()
    ensures STEEP_BOOK.Valid() && SpotOf(STEEP_BOOK) == Spot(0, 0, 100) && FirstPiece(STEEP_BOOK, 100) == Some(5_000)
  {
    assert SpotOf(STEEP_BOOK) == Spot(0, 0, 100);
    assert BidLine(STEEP_BOOK, 0, 0) == 100 * Q64 && BidLine(STEEP_BOOK, 0, 100) == 6;
    hide BidLine;
    DivUnique((100 * Q64 + 6) / 2 * 100, Q64, 5_000);
  }

  lemma SecondSliceOfSteepBook()
    ensures var after := STEEP_BOOK.(consumed := 100);
            after.Valid() && SpotOf(after) == Spot(1, 0, 100) && NextSale(after, 100) == Err(InvalidAmount)
  {
    var after := STEEP_BOOK.(consumed := 100);
    assert SpotOf(after) == Spot(1, 0, 100);
    assert BidLine(after, 1, 0) == 6 && BidLine(after, 1, 100) == 5;
    BidPieceOnLine(after, SpotOf(after), 100);
    FlooredToZero(6, 5, 100);
    LinearAmountIs(6, 5, 100);
    hide BidPiece, BidLine;
  }

  /** A sale over two slices whose second slice pays nothing: it is rejected, and the 100 atoms
      of the first slice are gone. */
  lemma RejectedSaleTakesDepth()
    ensures STEEP_BOOK.Valid() && Sell(STEEP_BOOK, 200) == Fill(STEEP_BOOK.(consumed := 100), Err(InvalidAmount))
  {
    var after := STEEP_BOOK.(consumed := 100);
    FirstSliceOfSteepBook();
    SecondSliceOfSteepBook();
    hide FirstPiece, SpotOf, NextSale, SellLoop;
    NextSaleIs(STEEP_BOOK, 200);
    SellLoopStep(STEEP_BOOK, SellTotals(200, 0, 0));
    SellLoopStep(after, SellTotals(100, 5_000, 1));
  }

  lemma FlooredToZero(p: nat, q: nat, base: nat)
    requires (p + q) / 2 * base < Q64
    ensures Amount(p, q, base) == 0
  {
  }

  // ---- Buys ----

  /** The largest quantity up to `high` whose cost fits the budget. */
  function Largest(side: Side, high: nat, budget: nat): (base: nat)
    requires side.Valid() && side.consumed < side.total && high <= SpotOf(side).left
    ensures base <= high && Cost(side, base) <= budget
    ensures forall q: nat :: base < q <= high ==> Cost(side, q) > budget
    decreases high
  {
    CostMono(side, 0, high);
    if Cost(side, high) <= budget then high else Largest(side, high - 1, budget)
  }

  /** The slice has a price, yet a round takes nothing from it: the whole of it is free or too
      dear, and the first probe within the budget is free. */
  predicate Blocked(side: Side, budget: u64)
    requires side.Valid() && side.consumed < side.total
  {
    && !(0 < Cost(side, SpotOf(side).left) <= budget)
    && Cost(side, FirstProbe(side, SpotOf(side).left, budget)) == 0
  }

  lemma {:induction false} ProbeFits(side: Side, high: nat, budget: u64)
    requires side.Valid() && side.consumed < side.total && high <= SpotOf(side).left
    ensures Cost(side, FirstProbe(side, high, budget)) <= budget
    decreases high
  {
    hide Cost;
    CostMono(side, 0, high);
    if 0 < high && Cost(side, (high + 1) / 2) > budget {
      ProbeFits(side, (high + 1) / 2 - 1, budget);
    }
  }

  /** What is not blocked buys something. */
  lemma UnblockedBuys(side: Side, budget: u64)
    requires side.Valid() && side.consumed < side.total && !Blocked(side, budget)
    ensures var base := Largest(side, SpotOf(side).left, budget);
            0 < base && 0 < Cost(side, base)
  {
    hide Cost, Largest, FirstProbe;
    var left := SpotOf(side).left;
    var probe, base := FirstProbe(side, left, budget), Largest(side, left, budget);
    ProbeFits(side, left, budget);
    CostMono(side, 0, left);
    if Cost(side, left) <= budget {
      assert base == left;
      CostMono(side, probe, left);
    } else {
      assert probe <= base;
      CostMono(side, probe, base);
    }
  }

  /** One round of a buy, from costs alone. */
  lemma NextBuyIs(side: Side, budget: u64)
    requires side.Valid() && side.consumed < side.total
    ensures NextBuy(side, budget)
         == if !Priceable(side) then Err(Overflow)
            else if Blocked(side, budget) then Ok(Stop)
            else
              var base := Largest(side, SpotOf(side).left, budget);
              Ok(Take(base, Cost(side, base)))
  {
    hide Cost, AskPiece, SearchBase, FirstProbe, Largest;
    var left := SpotOf(side).left;
    SegmentFacts(side, SpotOf(side).segment);
    if Priceable(side) {
      PartsArePriceable(side, left);
      var found := SearchBase(side, SpotOf(side), 0, left, budget);
      SearchIsLargest(side, budget);
      PartsArePriceable(side, found.value);
      if !Blocked(side, budget) {
        UnblockedBuys(side, budget);
        LargestIsUnique(side, if 0 < Cost(side, left) <= budget then left else found.value, budget);
      }
    } else {
      PricingFails(side);
    }
  }

  lemma LargestIsUnique(side: Side, base: nat, budget: u64)
    requires side.Valid() && side.consumed < side.total && base <= SpotOf(side).left
    requires Cost(side, base) <= budget && NothingAbove(side, base, budget)
    ensures Largest(side, SpotOf(side).left, budget) == base
  {
    hide Cost, Largest;
  }

  /** Where greedy buying ends: the side it leaves, the quote it could not spend, and whether it
      ended for lack of a price. */
  datatype GreedyEnd = GreedyEnd(side: Side, unspent: u64, priced: bool)

  /** Buy the most the quote can pay from the cheapest slice, again and again. */
  function Greedy(side: Side, quote: u64): (end: GreedyEnd)
    requires side.Valid()
    ensures end.side.Valid() && end.unspent <= quote
    decreases side.Remaining()
  {
    if quote == 0 || side.Remaining() == 0 then GreedyEnd(side, quote, true)
    else if !Priceable(side) then GreedyEnd(side, quote, false)
    else if Blocked(side, quote) then GreedyEnd(side, quote, true)
    else
      UnblockedBuys(side, quote);
      SegmentFacts(side, SpotOf(side).segment);
      var base := Largest(side, SpotOf(side).left, quote);
      Greedy(side.(consumed := side.consumed + base), quote - Cost(side, base))
  }

  lemma GreedyStep(side: Side, quote: u64)
    requires side.Valid() && 0 < quote && 0 < side.Remaining() && Priceable(side) && !Blocked(side, quote)
    ensures var base := Largest(side, SpotOf(side).left, quote);
            && 0 < base <= side.Remaining() && 0 < Cost(side, base) <= quote
            && Greedy(side, quote) == Greedy(side.(consumed := side.consumed + base), quote - Cost(side, base))
  {
    hide Cost, Largest, Blocked, Priceable, SpotOf;
    UnblockedBuys(side, quote);
    SpotInside(side);
  }

  lemma SpotInside(side: Side)
    requires side.Valid() && side.consumed < side.total
    ensures 0 < SpotOf(side).left <= side.Remaining()
  {
    SegmentFacts(side, SpotOf(side).segment);
  }

  lemma GreedyStops(side: Side, quote: u64)
    requires side.Valid()
    requires quote == 0 || side.Remaining() == 0 || !Priceable(side) || Blocked(side, quote)
    ensures Greedy(side, quote) == GreedyEnd(side, quote, quote == 0 || side.Remaining() == 0 || Priceable(side))
  {
    hide Blocked, Priceable;
  }

  /** The buy loop is greedy buying: its sums never overflow, so a slice without a price is the
      only error. */
  lemma {:induction false} BuyLoopIsGreedy(side: Side, t: BuyTotals)
    requires side.Valid() && t.quoteUsed + t.quoteRemaining < TWO_64 && t.baseOut + side.Remaining() < TWO_64
    ensures var run, end := BuyLoop(side, t), Greedy(side, t.quoteRemaining);
            && run.0 == end.side
            && run.1.Ok? == end.priced
            && (if end.priced then run.1.value.quoteRemaining == end.unspent else run.1 == Err(Overflow))
    decreases side.Remaining()
  {
    hide NextBuy, Cost, Largest, Blocked, Priceable, Greedy;
    if t.quoteRemaining == 0 || side.Remaining() == 0 {
      GreedyStops(side, t.quoteRemaining);
    } else {
      NextBuyIs(side, t.quoteRemaining);
      if !Priceable(side) || Blocked(side, t.quoteRemaining) {
        GreedyStops(side, t.quoteRemaining);
      } else {
        GreedyStep(side, t.quoteRemaining);
        var base := Largest(side, SpotOf(side).left, t.quoteRemaining);
        var cost := Cost(side, base);
        hide SpotOf;
        BuyLoopIsGreedy(side.(consumed := side.consumed + base), t.Add(base, cost).value);
      }
    }
  }

  /** What a buy does, told without its loop. It is accepted if and only if greedy buying spends
      the quote to the last atom; accepted or rejected, the side ends where greedy buying does. */
  lemma BuyIsGreedy(side: Side, quoteIn: u64)
    requires side.Valid() && 0 < quoteIn && 0 < side.Remaining()
    ensures var fill, end := Buy(side, quoteIn), Greedy(side, quoteIn);
            && fill.side == end.side
            && (fill.outcome.Ok? <==> end.priced && end.unspent == 0)
            && (!end.priced ==> fill.outcome == Err(Overflow))
            && (end.priced && end.unspent > 0 ==> fill.outcome == Err(InvalidAmount))
  {
    hide BuyLoop, Greedy, Priceable, Blocked, SpotOf, Cost, Largest;
    BuyLoopIsGreedy(side, BuyTotals(quoteIn, 0, 0, 0));
    BuyLoopCounts(side, BuyTotals(quoteIn, 0, 0, 0));
  }

  /** Quote is only spent on base. */
  lemma {:induction false} BuyLoopCounts(side: Side, t: BuyTotals)
    requires side.Valid()
    ensures BuyLoop(side, t).1.Ok? ==>
              var end := BuyLoop(side, t).1.value;
              end.baseOut >= t.baseOut && (end.quoteRemaining < t.quoteRemaining ==> end.baseOut > t.baseOut)
    decreases side.Remaining()
  {
    hide NextBuy;
    if t.quoteRemaining > 0 && side.Remaining() > 0 && NextBuy(side, t.quoteRemaining).Ok?
       && NextBuy(side, t.quoteRemaining).value.Take?
       && t.Add(NextBuy(side, t.quoteRemaining).value.base, NextBuy(side, t.quoteRemaining).value.cost).Ok? {
      var move := NextBuy(side, t.quoteRemaining).value;
      BuyLoopCounts(side.(consumed := side.consumed + move.base), t.Add(move.base, move.cost).value);
    }
  }

  lemma BuyAcceptedExactly(side: Side, quoteIn: u64)
    ensures Buy(side, quoteIn).outcome.Ok?
       <==> && side.Valid() && 0 < quoteIn && 0 < side.Remaining()
            && Greedy(side, quoteIn).priced && Greedy(side, quoteIn).unspent == 0
  {
    hide BuyLoop, Greedy;
    if side.Valid() && 0 < quoteIn && 0 < side.Remaining() {
      BuyIsGreedy(side, quoteIn);
    }
  }

  /** Exactly which buys leave the side alone: those turned away at the door and those whose
      first round takes nothing. Every other rejected buy has taken depth. */
  lemma BuyLeavesSideExactly(side: Side, quoteIn: u64)
    ensures Buy(side, quoteIn).side == side
       <==> !side.Valid() || quoteIn == 0 || side.Remaining() == 0 || !Priceable(side) || Blocked(side, quoteIn)
  {
    hide BuyLoop, Greedy, Priceable, Blocked, Largest, Cost;
    if side.Valid() && 0 < quoteIn && 0 < side.Remaining() {
      BuyIsGreedy(side, quoteIn);
      if !Priceable(side) || Blocked(side, quoteIn) {
        GreedyStops(side, quoteIn);
      } else {
        GreedyStep(side, quoteIn);
        var base := Largest(side, SpotOf(side).left, quoteIn);
        GreedyOnlyTakes(side.(consumed := side.consumed + base), quoteIn - Cost(side, base));
      }
    }
  }

  lemma {:induction false} GreedyOnlyTakes(side: Side, quote: u64)
    requires side.Valid()
    ensures Greedy(side, quote).side.consumed >= side.consumed
    ensures var end := Greedy(side, quote);
            if end.priced then
              end.unspent == 0 || end.side.Remaining() == 0 || (Priceable(end.side) && Blocked(end.side, end.unspent))
            else end.unspent > 0 && end.side.Remaining() > 0 && !Priceable(end.side)
    decreases side.Remaining()
  {
    hide Greedy, Priceable, Blocked, Largest, Cost;
    if quote == 0 || side.Remaining() == 0 || !Priceable(side) || Blocked(side, quote) {
      GreedyStops(side, quote);
    } else {
      GreedyStep(side, quote);
      var base := Largest(side, SpotOf(side).left, quote);
      GreedyOnlyTakes(side.(consumed := side.consumed + base), quote - Cost(side, base));
    }
  }

  /** A rejected buy has taken everything its quote could buy: the side is sold out, has no
      price, or blocks the quote that is left, which from one atom a unit upwards means that
      not one more unit is affordable. */
  lemma RejectedBuyTookAll(side: Side, quoteIn: u64)
    requires side.Valid() && 0 < quoteIn && 0 < side.Remaining() && Buy(side, quoteIn).outcome.Err?
    ensures var after, unspent := Buy(side, quoteIn).side, Greedy(side, quoteIn).unspent;
            && after.Valid() && 0 < unspent
            && (if after.Remaining() == 0 then Buy(side, quoteIn).outcome == Err(InvalidAmount)
                else if !Priceable(after) then Buy(side, quoteIn).outcome == Err(Overflow)
                else
                  && Buy(side, quoteIn).outcome == Err(InvalidAmount) && Blocked(after, unspent)
                  && (AskLine(after, SpotOf(after).segment, SpotOf(after).offset) >= Q64 ==> Cost(after, 1) > unspent))
  {
    BuyIsGreedy(side, quoteIn);
    GreedyOnlyTakes(side, quoteIn);
    hide Buy, Greedy, Priceable, Blocked, AskLine, Cost;
    var after, unspent := Greedy(side, quoteIn).side, Greedy(side, quoteIn).unspent;
    if after.Remaining() > 0 && Priceable(after) {
      SegmentFacts(after, SpotOf(after).segment);
      if AskLine(after, SpotOf(after).segment, SpotOf(after).offset) >= Q64 {
        BlockedMeansTooDear(after, unspent);
      }
    }
  }

  lemma BlockedMeansTooDear(side: Side, budget: u64)
    requires side.Valid() && side.consumed < side.total && Priceable(side) && Blocked(side, budget)
    requires AskLine(side, SpotOf(side).segment, SpotOf(side).offset) >= Q64
    ensures 1 <= SpotOf(side).left && Cost(side, 1) > budget
  {
    hide Cost, SearchBase, FirstProbe;
    SegmentFacts(side, SpotOf(side).segment);
    SearchIsLargest(side, budget);
    SearchIsExactAboveOneAtom(side, budget);
  }

  const BOOK := Side([98 * Q64, 99 * Q64, 100 * Q64, 101 * Q64, 102 * Q64, 103 * Q64, 104 * Q64], 600, 0)

  lemma FirstSliceOfBook()
    ensures BOOK.Valid() && SpotOf(BOOK) == Spot(0, 0, 100) && Priceable(BOOK) && Cost(BOOK, 100) == 9_850
  {
    assert SpotOf(BOOK) == Spot(0, 0, 100);
    AskPieceOnLine(BOOK, SpotOf(BOOK), 100);
    assert AskLine(BOOK, 0, 0) == 98 * Q64 && AskLine(BOOK, 0, 100) == 99 * Q64;
    LinearAmountIs(98 * Q64, 99 * Q64, 100);
    hide AskPiece, AskLine;
  }

  lemma SecondSliceOfBook()
    ensures var after := BOOK.(consumed := 100);
            after.Valid() && SpotOf(after) == Spot(1, 0, 100) && Priceable(after) && Blocked(after, 1)
  {
    var after := BOOK.(consumed := 100);
    assert SpotOf(after) == Spot(1, 0, 100);
    AskPieceOnLine(after, SpotOf(after), 100);
    assert AskLine(after, 1, 0) == 99 * Q64 && AskLine(after, 1, 1) == 99 * Q64 + Q64 / 100;
    assert AskLine(after, 1, 100) == 100 * Q64;
    LinearAmountIs(99 * Q64, 100 * Q64, 100);
    assert Cost(after, 1) == 99 && Cost(after, 100) == 9_950;
    hide AskPiece, AskLine, Cost, FirstProbe;
    FirstProbeWithin(after, 100, 1);
    var probe := FirstProbe(after, 100, 1);
    if probe > 0 {
      CostMono(after, 1, probe);
    }
    CostMono(after, 0, 0);
  }

  /** A quote of 9,851 atoms against prices from 98 to 104: the first slice is taken for 9,850,
      one atom is left over, the buy is rejected, and 100 base are gone. */
  lemma RejectedBuyTakesDepth()
    ensures BOOK.Valid() && Buy(BOOK, 9_851) == Fill(BOOK.(consumed := 100), Err(InvalidAmount))
  {
    FirstSliceOfBook();
    SecondSliceOfBook();
    var after := BOOK.(consumed := 100);
    assert !Blocked(BOOK, 9_851);
    hide Cost, FirstProbe, Largest, Priceable, Blocked, SpotOf, Greedy, Buy;
    LargestIsUnique(BOOK, 100, 9_851);
    GreedyStep(BOOK, 9_851);
    GreedyStops(after, 1);
    BuyIsGreedy(BOOK, 9_851);
  }

  // ---- The search for base ----

  /** The search answers zero although some quantity fits the budget. */
  ghost predicate SearchMisses(side: Side, budget: u64)
    requires side.Valid() && side.consumed < side.total
  {
    && SearchBase(side, SpotOf(side), 0, SpotOf(side).left, budget) == Ok(0)
    && exists q: nat :: q <= SpotOf(side).left && Affordable(side, q, budget)
  }

  /** That happens if and only if the first probe within the budget is free while some quantity
      costs between one atom and the budget. */
  lemma SearchMissesExactly(side: Side, budget: u64)
    requires side.Valid() && side.consumed < side.total && Priceable(side)
    ensures SearchMisses(side, budget)
       <==> && Cost(side, FirstProbe(side, SpotOf(side).left, budget)) == 0
            && exists q: nat :: q <= SpotOf(side).left && 1 <= Cost(side, q) <= budget
  {
    hide Cost, SearchBase, FirstProbe;
    SearchIsLargest(side, budget);
    if q: nat :| q <= SpotOf(side).left && 1 <= Cost(side, q) <= budget {
      assert Affordable(side, q, budget);
    }
  }

  /** The probes in closed form: halves, quarters, eighths of one more than the slice, until
      one fits the budget. */
  lemma {:induction false} ProbesAreHalvings(side: Side, high: nat, budget: u64)
    requires side.Valid() && side.consumed < side.total && high <= SpotOf(side).left
    ensures exists k: nat :: k >= 1 && IsFirstProbe(side, high, budget, k, FirstProbe(side, high, budget))
    decreases high
  {
    hide Cost;
    CostMono(side, 0, high);
    Halves(high);
    if high == 0 {
      assert FirstProbe(side, high, budget) == 0 && IsFirstProbe(side, high, budget, 1, 0);
    } else if Cost(side, (high + 1) / 2) > budget {
      var next := (high + 1) / 2 - 1;
      ProbesAreHalvings(side, next, budget);
      var probe := FirstProbe(side, next, budget);
      assert probe == FirstProbe(side, high, budget);
      var k: nat :| k >= 1 && IsFirstProbe(side, next, budget, k, probe);
      hide FirstProbe, IsFirstProbe;
      LaterProbe(side, high, budget, k, probe);
    } else {
      assert FirstProbe(side, high, budget) == (high + 1) / 2 && IsFirstProbe(side, high, budget, 1, (high + 1) / 2);
    }
  }

  lemma LaterProbe(side: Side, high: nat, budget: u64, k: nat, probe: nat)
    requires side.Valid() && side.consumed < side.total && 0 < high <= SpotOf(side).left && k >= 1
    requires Cost(side, (high + 1) / 2) > budget && IsFirstProbe(side, (high + 1) / 2 - 1, budget, k, probe)
    ensures IsFirstProbe(side, high, budget, k + 1, probe)
  {
    hide Cost, Halving;
    var next := (high + 1) / 2 - 1;
    Halves(high);
    HalvingStep(high, k);
    forall m: nat | 1 <= m < k + 1
      ensures Halving(high, m) <= high && Cost(side, Halving(high, m)) > budget
    {
      if m > 1 {
        HalvingStep(high, m - 1);
        assert Cost(side, Halving(next, m - 1)) > budget;
      }
    }
  }

  function Halving(high: nat, k: nat): (probe: nat) {
    DivNonNeg(high + 1, Pow2(k));
    (high + 1) / Pow2(k)
  }

  /** `probe` is the k-th halving, it fits the budget, and none before it does. */
  ghost predicate IsFirstProbe(side: Side, high: nat, budget: u64, k: nat, probe: nat)
    requires side.Valid() && side.consumed < side.total && high <= SpotOf(side).left
  {
    && probe == Halving(high, k) && probe <= high && Cost(side, probe) <= budget
    && forall m: nat :: 1 <= m < k ==> Halving(high, m) <= high && Cost(side, Halving(high, m)) > budget
  }

  lemma Halves(high: nat)
    ensures Halving(high, 1) == (high + 1) / 2
  {
    assert Pow2(1) == 2;
  }

  lemma HalvingStep(high: nat, m: nat)
    requires high > 0
    ensures Halving(high, m + 1) == Halving((high + 1) / 2 - 1, m)
  {
    var p := Pow2(m);
    assert Pow2(m + 1) == 2 * p;
    hide Pow2;
    var half := (high + 1) / 2;
    DivBounds(half, p);
    MulLe(half / p + 1, half / p + 1, p);
    DivUnique(high + 1, 2 * p, half / p);
  }
}
