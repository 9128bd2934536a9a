/** What the quote-landing simulators report: exactly which update prices each swap, how old a
    quote can get, when no swap can be stale, and ledgers that balance. */
module LandingLaws {
  import opened Numbers
  import opened ReferenceQuote
  import opened ReferenceLaws
  import opened Market
  import opened ConfigCompiler
  import opened QuoteLanding

  // ---- Ledgers ----

  predicate Balanced(sim: Sim) {
    var r := sim.report;
    && r.attempted == r.filled + r.stale + r.shielded + r.inventory + r.other
    && r.filled == r.freshFills + r.agingFills + r.protectedFills
    && r.sent == r.landed + r.dropped + |sim.pending|
  }

  lemma {:induction false} LandingSplits(pending: seq<Update>, through: u64)
    ensures |Landed(pending, through)| + |Waiting(pending, through)| == |pending|
    ensures forall u :: u in Waiting(pending, through) ==> u.landingSlot > through && u in pending
  {
    if pending != [] {
      LandingSplits(pending[..|pending| - 1], through);
    }
  }

  lemma LandBalances(sim: Sim, through: u64)
    requires Balanced(sim)
    ensures Balanced(Land(sim, through))
  {
    LandingSplits(sim.pending, through);
  }

  /** A trade leaves the queue and the update counters alone, balances its own counters, and
      counts a stale rejection only when the quote had expired. */
  lemma TradeBalances(sim: Sim, params: Params, slot: MarketSlot)
    requires Balanced(sim) && Trade(sim, params, slot).Ok?
    ensures var next := Trade(sim, params, slot).value;
            && Balanced(next) && next.pending == sim.pending
            && next.state == sim.state.(baseInventory := next.state.baseInventory,
                                        quoteInventory := next.state.quoteInventory)
            && next.report.sent == sim.report.sent && next.report.landed == sim.report.landed
            && next.report.dropped == sim.report.dropped && next.report.maxAge == sim.report.maxAge
            && (next.report.stale != sim.report.stale ==> Age(sim.state) >= params.expire)
            && next.report.maxImbalanceBps <= Max(sim.report.maxImbalanceBps, params.hardBandBps)
  {
    hide ReferenceQuote.QuoteExactIn, FeeInQuote, TakerEdge, AbsImbalanceBps, SaturatingAddI128, InsideBand, AgeStateOf,
         MaxTradeFor, BaseEquivalent;
    if slot.flow.Some? {
      var flow := slot.flow.value;
      var toQuote := flow.side == BaseToQuote;
      StaleMeansExpired(sim.state, params, flow.amountIn, toQuote);
      var quoted := ReferenceQuote.QuoteExactIn(sim.state, params, flow.amountIn, toQuote);
      if quoted.Ok? {
        QuoteSettles(sim.state, params, flow.amountIn, toQuote);
        TargetIsSet(sim.state, params, flow.amountIn, toQuote);
        BandIsImbalance(quoted.value.newBase, sim.state.targetBase, params.hardBandBps);
      }
    }
  }

  /** Which counters a trade moves, and by what. A fill counts under the age the quote had, adds its
      fee and its edge, and raises the largest imbalance to the one it leaves; a rejection
      counts under its reason and leaves the pool alone. */
  lemma TradeReports(sim: Sim, params: Params, slot: MarketSlot)
    requires Trade(sim, params, slot).Ok?
    ensures var next := Trade(sim, params, slot).value;
            if slot.flow.None? then next == sim
            else
              var flow := slot.flow.value;
              match ReferenceQuote.QuoteExactIn(sim.state, params, flow.amountIn, flow.side == BaseToQuote)
              case Ok(q) =>
                && next == sim.(state := sim.state.(baseInventory := q.newBase, quoteInventory := q.newQuote),
                                report := next.report)
                && CountsFill(sim.report, next.report, Elapsed(sim.state), params)
                && EarnsFill(sim.report, next.report, FlowEvent(slot.slot, flow.side, flow.amountIn, slot.fairPrice), q)
                && ImbalanceRises(sim.report, next.report, q.newBase, sim.state.targetBase)
              case Err(error) => next == sim.(report := next.report) && CountsRejection(sim.report, next.report, error)
  {
    if slot.flow.Some? {
      var flow := slot.flow.value;
      var toQuote := flow.side == BaseToQuote;
      var quoted := ReferenceQuote.QuoteExactIn(sim.state, params, flow.amountIn, toQuote);
      if quoted.Ok? {
        QuoteSettles(sim.state, params, flow.amountIn, toQuote);
        AcceptedInputs(sim.state, params, flow.amountIn, toQuote);
        AgeStateIs(sim.state, params);
        hide ReferenceQuote.QuoteExactIn, FeeInQuote, TakerEdge, InsideBand, AgeStateOf, MaxTradeFor, BaseEquivalent,
             ValidParams, AbsImbalanceBps, ImbalanceRises;
        FillReports(sim, params, slot);
      } else {
        hide ReferenceQuote.QuoteExactIn, AbsImbalanceBps;
      }
    }
  }

  lemma FillReports(sim: Sim, params: Params, slot: MarketSlot)
    requires Trade(sim, params, slot).Ok? && slot.flow.Some?
    requires var flow := slot.flow.value;
             ReferenceQuote.QuoteExactIn(sim.state, params, flow.amountIn, flow.side == BaseToQuote).Ok?
    ensures var flow, next := slot.flow.value, Trade(sim, params, slot).value;
            var q := ReferenceQuote.QuoteExactIn(sim.state, params, flow.amountIn, flow.side == BaseToQuote).value;
            ImbalanceRises(sim.report, next.report, q.newBase, sim.state.targetBase)
  {
    hide ReferenceQuote.QuoteExactIn, FeeInQuote, TakerEdge, AbsImbalanceBps;
    var flow := slot.flow.value;
    var q := ReferenceQuote.QuoteExactIn(sim.state, params, flow.amountIn, flow.side == BaseToQuote).value;
    AbsImbalanceMeaning(q.newBase, sim.state.targetBase);
  }

  /** One attempt and one fill, under the age of the quote. */
  predicate CountsFill(before: Report, after: Report, elapsed: int, params: Params) {
    && after.attempted == before.attempted + 1 && after.filled == before.filled + 1
    && after.freshFills == before.freshFills + (if elapsed < params.agingStart then 1 else 0)
    && after.agingFills == before.agingFills + (if params.agingStart <= elapsed < params.protectedStart then 1 else 0)
    && after.protectedFills == before.protectedFills + (if params.protectedStart <= elapsed then 1 else 0)
    && after == before.(attempted := after.attempted, filled := after.filled, freshFills := after.freshFills,
                        agingFills := after.agingFills, protectedFills := after.protectedFills, fees := after.fees,
                        edge := after.edge, maxImbalanceBps := after.maxImbalanceBps)
  }

  predicate EarnsFill(before: Report, after: Report, event: FlowEvent, q: Quote) {
    && FeeInQuote(event, q.amountInLessFee).Ok? && TakerEdge(event, q.amountOut).Ok?
    && after.fees == Min(before.fees + FeeInQuote(event, q.amountInLessFee).value, TWO_128 - 1)
    && after.edge == Clamp(before.edge + TakerEdge(event, q.amountOut).value, -TWO_127, TWO_127 - 1)
  }

  /** The largest imbalance so far: the distance from the target in basis points, rounded down, as
      far as 16 bits go. */
  predicate ImbalanceRises(before: Report, after: Report, base: u64, target: u64) {
    && before.maxImbalanceBps <= after.maxImbalanceBps
    && (after.maxImbalanceBps == TWO_16 - 1
        || Abs(base - target) * BASIS_POINTS < after.maxImbalanceBps * target + target)
    && (after.maxImbalanceBps > before.maxImbalanceBps ==>
          after.maxImbalanceBps * target <= Abs(base - target) * BASIS_POINTS)
  }

  /** One attempt and one rejection, under its reason. */
  predicate CountsRejection(before: Report, after: Report, error: MathError) {
    && error in {StaleQuote, QuoteProtected, InventoryBand, InvalidAmount, EmptyLiquidity}
    && after == before.(attempted := before.attempted + 1,
                        stale := before.stale + (if error == StaleQuote then 1 else 0),
                        shielded := before.shielded + (if error == QuoteProtected then 1 else 0),
                        inventory := before.inventory + (if error == InventoryBand then 1 else 0),
                        other := before.other + (if error in {InvalidAmount, EmptyLiquidity} then 1 else 0))
  }

  lemma AbsImbalanceMeaning(base: u64, target: u64)
    ensures var bps := AbsImbalanceBps(base, target);
            if target == 0 then bps == TWO_16 - 1
            else
              && bps * target <= Abs(base - target) * BASIS_POINTS
              && (bps == TWO_16 - 1 || Abs(base - target) * BASIS_POINTS < bps * target + target)
  {
    if target > 0 {
      var off := Abs(base - target) * BASIS_POINTS;
      DivBounds(off, target);
      if off / target > TWO_16 - 1 {
        MulLe(TWO_16 - 1, off / target, target);
      }
    }
  }

  /** A run ends at an order only when its quote fails for another reason than the five that count as
      rejections, or its fee or its edge cannot be told. */
  lemma TradeEndsExactly(sim: Sim, params: Params, slot: MarketSlot)
    ensures Trade(sim, params, slot).Err?
            <==> && slot.flow.Some?
                 && var flow := slot.flow.value;
                    var event := FlowEvent(slot.slot, flow.side, flow.amountIn, slot.fairPrice);
                    match ReferenceQuote.QuoteExactIn(sim.state, params, flow.amountIn, flow.side == BaseToQuote)
                    case Ok(q) => FeeInQuote(event, q.amountInLessFee).Err? || TakerEdge(event, q.amountOut).Err?
                    case Err(error) =>
                      error !in {StaleQuote, QuoteProtected, InventoryBand, InvalidAmount, EmptyLiquidity}
  {
    hide ReferenceQuote.QuoteExactIn, FeeInQuote, TakerEdge, AbsImbalanceBps;
  }

  lemma StaleMeansExpired(s: State, p: Params, amountIn: u64, baseToQuote: bool)
    ensures ReferenceQuote.QuoteExactIn(s, p, amountIn, baseToQuote) == Err(StaleQuote) ==> Age(s) >= p.expire
  {
    hide SpreadBps, SkewBps, ImbalanceBps, MaxTradeFor;
  }

  lemma TargetIsSet(s: State, p: Params, amountIn: u64, baseToQuote: bool)
    requires ReferenceQuote.QuoteExactIn(s, p, amountIn, baseToQuote).Ok?
    ensures s.targetBase > 0
  {
    hide SpreadBps, SkewBps, ImbalanceBps, MaxTradeFor;
  }

  lemma BandIsImbalance(base: u64, target: u64, band: u16)
    requires target > 0 && InsideBand(base, target, band)
    ensures AbsImbalanceBps(base, target) <= band
  {
    DivAtLeast(Abs(base - target) * BASIS_POINTS, target, band + 1);
  }

  lemma PlayBalances(sim: Sim, order: SameSlotOrder, params: Params, slot: MarketSlot)
    requires Balanced(sim) && PlaySlot(sim, order, params, slot).Ok?
    ensures var next := PlaySlot(sim, order, params, slot).value;
            && Balanced(next)
            && next.report.maxImbalanceBps <= Max(sim.report.maxImbalanceBps, params.hardBandBps)
            && next.report.sent == sim.report.sent && next.report.dropped == sim.report.dropped
  {
    LandBalances(sim, LandThrough(order, slot.slot));
    var landed := Land(sim, LandThrough(order, slot.slot));
    var arrived := Arrive(landed, slot.slot);
    assert Balanced(arrived);
    TradeBalances(arrived, params, slot);
    hide Trade;
    LandBalances(Trade(arrived, params, slot).value, slot.slot);
  }

  // ---- Market path: which update is current ----

  predicate Lands(policy: Policy, draw: u64 -> bool, k: nat) {
    MulNonNeg(k, policy.period);
    k * policy.period < TWO_64 && ShouldLand(policy, draw, k * policy.period)
  }

  /** The newest of the first `k` updates that lands; 0 stands for the initial price. */
  function Latest(policy: Policy, draw: u64 -> bool, k: nat): (r: nat)
    ensures r <= k
  {
    if k == 0 || Lands(policy, draw, k) then k else Latest(policy, draw, k - 1)
  }

  /** How many of the first `k` updates land. */
  function Count(policy: Policy, draw: u64 -> bool, k: nat): (r: nat)
    ensures r <= k
  {
    if k == 0 then 0 else Count(policy, draw, k - 1) + if Lands(policy, draw, k) then 1 else 0
  }

  /** How many updates have had time to land by a slot. */
  function Due(policy: Policy, through: nat): (r: nat)
    requires policy.period > 0
  {
    if through < policy.latency then 0
    else
      DivNonNeg(through - policy.latency, policy.period);
      (through - policy.latency) / policy.period
  }

  /** How many updates are published by a slot: one per whole period. */
  function PublishedBy(policy: Policy, slot: nat): (r: nat)
    requires policy.period > 0
  {
    DivNonNeg(slot, policy.period);
    slot / policy.period
  }

  function LastSlot(slots: seq<MarketSlot>): u64 {
    if slots == [] then 0 else slots[|slots| - 1].slot
  }

  /** The price update `k` was published with: the fair price of the slot of the path in which it
      became due. */
  function Fair(policy: Policy, slots: seq<MarketSlot>, k: nat): u128 {
    if slots == [] then 0
    else
      var init, last := slots[..|slots| - 1], slots[|slots| - 1];
      if init != [] && k * policy.period <= LastSlot(init) then Fair(policy, init, k) else last.fairPrice
  }

  predicate Sorted(slots: seq<MarketSlot>) {
    forall i, j :: 0 <= i < j < |slots| ==> slots[i].slot <= slots[j].slot
  }

  /** On a sorted path that is the first slot which reaches the publish slot. */
  lemma {:induction false} FairIsFirst(policy: Policy, slots: seq<MarketSlot>, k: nat) returns (i: nat)
    requires Sorted(slots) && slots != [] && k * policy.period <= LastSlot(slots)
    ensures i < |slots| && k * policy.period <= slots[i].slot && Fair(policy, slots, k) == slots[i].fairPrice
    ensures forall e :: 0 <= e < i ==> slots[e].slot < k * policy.period
  {
    var init := slots[..|slots| - 1];
    if init != [] && k * policy.period <= LastSlot(init) {
      i := FairIsFirst(policy, init, k);
    } else {
      i := |slots| - 1;
    }
  }

  /** A slot more on the path leaves the prices of the updates published before it alone, and
      prices those that become due in it. */
  lemma FairGrows(policy: Policy, slots: seq<MarketSlot>, k: nat)
    requires policy.period > 0 && slots != [] && 0 < k
    ensures var init, last := slots[..|slots| - 1], slots[|slots| - 1];
            Fair(policy, slots, k)
            == if k <= PublishedBy(policy, LastSlot(init)) then Fair(policy, init, k) else last.fairPrice
  {
    var init := slots[..|slots| - 1];
    DivAtLeast(LastSlot(init), policy.period, k);
    MulLe(1, k, policy.period);
  }

  /** The queue holds exactly the landing updates numbered from `i + 1` to `j`, at their prices. */
  predicate Queue(pending: seq<Update>, policy: Policy, draw: u64 -> bool, slots: seq<MarketSlot>, i: nat, j: nat)
    decreases j
  {
    if j <= i then pending == []
    else if !Lands(policy, draw, j) then Queue(pending, policy, draw, slots, i, j - 1)
    else
      && pending != []
      && var last := pending[|pending| - 1];
         && last.publishSlot == j * policy.period
         && last.landingSlot == SaturatingAdd64(last.publishSlot, policy.latency)
         && last.midPrice == Fair(policy, slots, j)
         && Queue(pending[..|pending| - 1], policy, draw, slots, i, j - 1)
  }

  lemma {:induction false} QueueLength(pending: seq<Update>, policy: Policy, draw: u64 -> bool, slots: seq<MarketSlot>,
                                       i: nat, j: nat)
    requires i <= j && Queue(pending, policy, draw, slots, i, j)
    ensures |pending| == Count(policy, draw, j) - Count(policy, draw, i)
  {
    if i < j {
      QueueLength(if Lands(policy, draw, j) then pending[..|pending| - 1] else pending, policy, draw, slots, i, j - 1);
    }
  }

  /** What was queued before a slot keeps its prices in it. */
  lemma {:induction false} QueueKeepsPrices(pending: seq<Update>, policy: Policy, draw: u64 -> bool,
                                            slots: seq<MarketSlot>, i: nat, j: nat)
    requires policy.period > 0 && slots != [] && j <= PublishedBy(policy, LastSlot(slots[..|slots| - 1]))
    requires Queue(pending, policy, draw, slots[..|slots| - 1], i, j)
    ensures Queue(pending, policy, draw, slots, i, j)
    decreases j
  {
    hide Fair, Lands, PublishedBy;
    if i < j {
      FairGrows(policy, slots, j);
      QueueKeepsPrices(if Lands(policy, draw, j) then pending[..|pending| - 1] else pending, policy, draw, slots, i,
                       j - 1);
    }
  }

  /** Due updates are exactly the first `Due` ones. */
  lemma DueMeaning(policy: Policy, through: u64, k: nat)
    requires policy.period > 0 && 0 < k
    ensures k <= Due(policy, through) <==> k * policy.period + policy.latency <= through
  {
    MulNonNeg(k, policy.period);
    MulLe(1, k, policy.period);
    DivAtLeast(through - policy.latency, policy.period, k);
  }

  lemma PublishedMono(policy: Policy, early: nat, late: nat)
    requires policy.period > 0 && early <= late
    ensures PublishedBy(policy, early) <= PublishedBy(policy, late)
  {
    DivMono(early, late, policy.period);
  }

  lemma DueMono(policy: Policy, early: nat, late: nat)
    requires policy.period > 0 && early <= late
    ensures Due(policy, early) <= Due(policy, late) <= PublishedBy(policy, late)
  {
    if early >= policy.latency {
      DivMono(early - policy.latency, late - policy.latency, policy.period);
    }
    if late >= policy.latency {
      DivMono(late - policy.latency, late, policy.period);
    } else {
      DivNonNeg(late, policy.period);
    }
  }

  /** Landing cuts the queue at the last due update. */
  lemma {:induction false} LandingCutsQueue(pending: seq<Update>, policy: Policy, draw: u64 -> bool,
                                            slots: seq<MarketSlot>, i: nat, j: nat, c: nat, through: u64)
    requires policy.period > 0 && through < U64_MAX && i <= c <= j && Queue(pending, policy, draw, slots, i, j)
    requires c == i || c <= Due(policy, through)
    requires c == j || Due(policy, through) <= c
    ensures Queue(Landed(pending, through), policy, draw, slots, i, c)
    ensures Queue(Waiting(pending, through), policy, draw, slots, c, j)
    decreases j
  {
    hide Due, Lands, Fair;
    if i < j {
      var landing := Lands(policy, draw, j);
      var init := if landing then pending[..|pending| - 1] else pending;
      LandingCutsQueue(init, policy, draw, slots, i, j - 1, if c < j then c else j - 1, through);
      if landing {
        LastIsDue(pending, policy, j, through);
        LandedUnfolds(pending, through);
        hide Landed, Waiting;
        var landed, waiting := Landed(pending, through), Waiting(pending, through);
        if c < j {
          assert waiting[..|waiting| - 1] == Waiting(init, through);
        } else {
          assert landed[..|landed| - 1] == Landed(init, through);
        }
      }
    }
  }

  lemma LastIsDue(pending: seq<Update>, policy: Policy, j: nat, through: u64)
    requires policy.period > 0 && through < U64_MAX && 0 < j && pending != []
    requires var last := pending[|pending| - 1];
             && last.publishSlot == j * policy.period
             && last.landingSlot == SaturatingAdd64(last.publishSlot, policy.latency)
    ensures pending[|pending| - 1].landingSlot <= through <==> j <= Due(policy, through)
  {
    DueMeaning(policy, through, j);
  }

  lemma LandedUnfolds(pending: seq<Update>, through: u64)
    requires pending != []
    ensures var init, last := pending[..|pending| - 1], pending[|pending| - 1];
            if last.landingSlot <= through then
              && Landed(pending, through) == Landed(init, through) + [last]
              && Waiting(pending, through) == Waiting(init, through)
            else
              && Landed(pending, through) == Landed(init, through)
              && Waiting(pending, through) == Waiting(init, through) + [last]
  {
  }

  /** The last of the landed updates is the latest, and with none landed the latest is the old one. */
  lemma {:induction false} LandedIsLatest(landed: seq<Update>, policy: Policy, draw: u64 -> bool,
                                          slots: seq<MarketSlot>, i: nat, c: nat)
    requires i <= c && Queue(landed, policy, draw, slots, i, c)
    ensures landed == [] ==> Latest(policy, draw, c) == Latest(policy, draw, i)
    ensures landed != [] ==>
              var last, latest := landed[|landed| - 1], Latest(policy, draw, c);
              && i < latest && last.publishSlot == latest * policy.period
              && last.midPrice == Fair(policy, slots, latest)
  {
    hide Fair;
    if i < c && !Lands(policy, draw, c) {
      LandedIsLatest(landed, policy, draw, slots, i, c - 1);
    }
  }

  lemma {:induction false} LatestMono(policy: Policy, draw: u64 -> bool, i: nat, j: nat)
    requires i <= j
    ensures Latest(policy, draw, i) <= Latest(policy, draw, j)
  {
    if i < j {
      LatestMono(policy, draw, i, j - 1);
    }
  }

  function NextAfter(policy: Policy, j: nat): int {
    Min((j + 1) * policy.period, U64_MAX)
  }

  lemma NextStep(policy: Policy, j: nat)
    ensures 0 <= NextAfter(policy, j) < TWO_64
    ensures SaturatingAdd64(NextAfter(policy, j), policy.period) == NextAfter(policy, j + 1)
  {
    MulNonNeg(j + 1, policy.period);
    assert (j + 2) * policy.period == (j + 1) * policy.period + policy.period;
  }

  /** The publish loop sends every update up to the slot, dropping those that do not land. */
  lemma {:induction false} PublishSendsAll(m: MarketSim, policy: Policy, draw: u64 -> bool, slots: seq<MarketSlot>,
                                           i: nat, j: nat)
    requires policy.period > 0 && slots != [] && LastSlot(slots) < U64_MAX
    requires i <= j && PublishedBy(policy, LastSlot(slots[..|slots| - 1])) <= j <= PublishedBy(policy, LastSlot(slots))
    requires m.nextUpdate == NextAfter(policy, j) && Queue(m.sim.pending, policy, draw, slots, i, j)
    ensures var next, n := Publish(m, policy, draw, slots[|slots| - 1]), PublishedBy(policy, LastSlot(slots));
            && next.nextUpdate == NextAfter(policy, n) && Queue(next.sim.pending, policy, draw, slots, i, n)
            && next.sim.state == m.sim.state
            && next.sim.report == m.sim.report.(sent := next.sim.report.sent, dropped := next.sim.report.dropped)
            && next.sim.report.sent - n == m.sim.report.sent - j
            && next.sim.report.dropped - (n - Count(policy, draw, n))
               == m.sim.report.dropped - (j - Count(policy, draw, j))
            && (Balanced(m.sim) ==> Balanced(next.sim))
    decreases U64_MAX - m.nextUpdate
  {
    hide NextAfter, Queue, Count, PublishOne, Balanced, Lands, PublishedBy, Publish, Fair;
    var slot := slots[|slots| - 1];
    NextIsDue(policy, slot.slot, j);
    PublishUnfolds(m, policy, draw, slot);
    if m.nextUpdate <= slot.slot {
      FairGrows(policy, slots, j + 1);
      PublishOneKeeps(m, policy, draw, slots, i, j);
      var next := PublishOne(m, policy, draw, slot);
      NextStep(policy, j);
      PublishSendsAll(next, policy, draw, slots, i, j + 1);
    }
  }

  lemma PublishOneKeeps(m: MarketSim, policy: Policy, draw: u64 -> bool, slots: seq<MarketSlot>, i: nat, j: nat)
    requires i <= j && m.nextUpdate == (j + 1) * policy.period && Queue(m.sim.pending, policy, draw, slots, i, j)
    requires slots != [] && Fair(policy, slots, j + 1) == slots[|slots| - 1].fairPrice
    ensures var next := PublishOne(m, policy, draw, slots[|slots| - 1]);
            && next.nextUpdate == SaturatingAdd64(m.nextUpdate, policy.period)
            && Queue(next.sim.pending, policy, draw, slots, i, j + 1)
            && next.sim.state == m.sim.state
            && next.sim.report == m.sim.report.(sent := next.sim.report.sent, dropped := next.sim.report.dropped)
            && next.sim.report.sent == m.sim.report.sent + 1
            && next.sim.report.dropped - (j + 1 - Count(policy, draw, j + 1))
               == m.sim.report.dropped - (j - Count(policy, draw, j))
            && (Balanced(m.sim) ==> Balanced(next.sim))
  {
    var next := PublishOne(m, policy, draw, slots[|slots| - 1]);
    QueueGrows(m.sim.pending, policy, draw, slots, i, j);
    hide ShouldLand, Fair, Queue;
  }

  /** The next update joins the queue when it lands and is left out when it does not. */
  lemma QueueGrows(pending: seq<Update>, policy: Policy, draw: u64 -> bool, slots: seq<MarketSlot>, i: nat, j: nat)
    requires i <= j && Queue(pending, policy, draw, slots, i, j) && 0 <= (j + 1) * policy.period < TWO_64
    ensures !Lands(policy, draw, j + 1) ==> Queue(pending, policy, draw, slots, i, j + 1)
    ensures var publish: u64 := (j + 1) * policy.period;
            var update := Update(publish, SaturatingAdd64(publish, policy.latency), Fair(policy, slots, j + 1));
            Lands(policy, draw, j + 1) ==> Queue(pending + [update], policy, draw, slots, i, j + 1)
  {
    hide Lands, Fair;
    var publish: u64 := (j + 1) * policy.period;
    var update := Update(publish, SaturatingAdd64(publish, policy.latency), Fair(policy, slots, j + 1));
    assert (pending + [update])[..|pending|] == pending;
  }

  lemma NextIsDue(policy: Policy, slot: u64, j: nat)
    requires policy.period > 0 && slot < U64_MAX
    ensures NextAfter(policy, j) <= slot <==> j + 1 <= PublishedBy(policy, slot)
    ensures NextAfter(policy, j) <= slot ==> NextAfter(policy, j) == (j + 1) * policy.period
  {
    DivAtLeast(slot, policy.period, j + 1);
  }

  lemma PublishUnfolds(m: MarketSim, policy: Policy, draw: u64 -> bool, slot: MarketSlot)
    requires policy.period > 0 && slot.slot < U64_MAX
    ensures Publish(m, policy, draw, slot)
         == if m.nextUpdate > slot.slot then m else Publish(PublishOne(m, policy, draw, slot), policy, draw, slot)
  {
  }

  /** The publish clock after `n` rounds of the publish loop. */
  function Clock(start: u64, period: u64, n: nat): u64 {
    if n == 0 then start else SaturatingAdd64(Clock(start, period, n - 1), period)
  }

  lemma {:induction false} ClockValue(start: u64, period: u64, n: nat)
    ensures Clock(start, period, n) == Min(start + n * period, U64_MAX)
  {
    if n > 0 {
      ClockValue(start, period, n - 1);
      assert n * period == (n - 1) * period + period;
    }
  }

  /** The publish loop runs while its clock has not passed the slot. Wherever the clock starts,
      it passes the slot after some number of rounds if and only if the slot is not the
      largest 64-bit value; at that one slot the loop never ends. */
  lemma PublishLoopEndsExactly(start: u64, period: u64, slot: u64)
    requires period > 0
    ensures (exists n: nat :: Clock(start, period, n) > slot) <==> slot < U64_MAX
  {
    if slot < U64_MAX {
      var n: nat := slot + 1;
      ClockValue(start, period, n);
      MulLe(1, period, n);
      assert Clock(start, period, n) > slot;
    }
  }

  /** The price in use is that of update `k`: its publish slot and the fair price it was published
      with, or the initial price of the scenario before any. */
  predicate Shows(state: State, s: Scenario, slots: seq<MarketSlot>, k: nat) {
    && state.publishSlot == k * s.policy.period
    && state.midPrice == (if k == 0 then s.midPrice else Fair(s.policy, slots, k))
    && state.targetBase == s.target && !state.paused
  }

  lemma ShowsStays(state: State, s: Scenario, slots: seq<MarketSlot>, k: nat)
    requires s.policy.period > 0 && slots != [] && k <= PublishedBy(s.policy, LastSlot(slots[..|slots| - 1]))
    requires Shows(state, s, slots[..|slots| - 1], k)
    ensures Shows(state, s, slots, k)
  {
    if k > 0 {
      FairGrows(s.policy, slots, k);
      hide Fair;
    }
  }

  /** Landing moves the current price to the latest due update. */
  lemma LandMoves(sim: Sim, s: Scenario, draw: u64 -> bool, slots: seq<MarketSlot>, i: nat, j: nat, through: u64)
    requires s.policy.period > 0 && through < U64_MAX && i <= j && Due(s.policy, through) <= j
    requires Queue(sim.pending, s.policy, draw, slots, i, j) && Shows(sim.state, s, slots, Latest(s.policy, draw, i))
    ensures var next, c := Land(sim, through), Max(i, Due(s.policy, through));
            && i <= c <= j && Queue(next.pending, s.policy, draw, slots, c, j)
            && Shows(next.state, s, slots, Latest(s.policy, draw, c))
  {
    var c := Max(i, Due(s.policy, through));
    LandingCutsQueue(sim.pending, s.policy, draw, slots, i, j, c, through);
    LandedIsLatest(Landed(sim.pending, through), s.policy, draw, slots, i, c);
    hide Queue, Latest, Landed, Waiting, Due, Fair;
  }

  /** The update a swap is priced from: the latest of those due before the swap, or already
      landed when an earlier visit to the slot finished. */
  function PricingUpdate(policy: Policy, draw: u64 -> bool, previous: nat, slot: u64): nat
    requires policy.period > 0
  {
    Latest(policy, draw, Max(Due(policy, previous), Due(policy, LandThrough(policy.order, slot))))
  }

  /** A market simulation after a path: the counters, the queue and the price are what the publish
      times and the fair prices of the path alone say they should be. */
  predicate InStep(m: MarketSim, s: Scenario, draw: u64 -> bool, slots: seq<MarketSlot>)
    requires s.policy.period > 0
  {
    var i, j := Due(s.policy, LastSlot(slots)), PublishedBy(s.policy, LastSlot(slots));
    && i <= j && Queue(m.sim.pending, s.policy, draw, slots, i, j)
    && m.nextUpdate == NextAfter(s.policy, j)
    && Shows(m.sim.state, s, slots, Latest(s.policy, draw, i))
    && m.sim.report.sent == j && m.sim.report.dropped == j - Count(s.policy, draw, j)
    && Balanced(m.sim)
  }

  /** The pool a swap in some slot finds: the inventories as they are, at the price of update `k`. */
  predicate Finds(state: State, before: State, s: Scenario, slots: seq<MarketSlot>, k: nat) {
    && Shows(state, s, slots, k)
    && state == before.(midPrice := state.midPrice, publishSlot := state.publishSlot, nowSlot := LastSlot(slots))
  }

  /** One slot: land what is due before the swap, trade at the price of the latest of that, note its
      age, and leave the price at the latest due by the end of the slot. */
  lemma PlayMoves(sim: Sim, s: Scenario, draw: u64 -> bool, slots: seq<MarketSlot>) returns (arrived: Sim)
    requires s.policy.period > 0 && slots != [] && LastSlot(slots) < U64_MAX
    requires LastSlot(slots[..|slots| - 1]) <= LastSlot(slots)
    requires var i, j := Due(s.policy, LastSlot(slots[..|slots| - 1])), PublishedBy(s.policy, LastSlot(slots));
             && i <= j && Queue(sim.pending, s.policy, draw, slots, i, j)
             && Shows(sim.state, s, slots, Latest(s.policy, draw, i))
    requires Balanced(sim) && PlaySlot(sim, s.policy.order, s.params, slots[|slots| - 1]).Ok?
    ensures var next, slot := PlaySlot(sim, s.policy.order, s.params, slots[|slots| - 1]).value, slots[|slots| - 1];
            var i, j := Due(s.policy, slot.slot), PublishedBy(s.policy, slot.slot);
            var k := PricingUpdate(s.policy, draw, LastSlot(slots[..|slots| - 1]), slot.slot);
            var age := SaturatingSub(slot.slot, k * s.policy.period);
            && i <= j && Queue(next.pending, s.policy, draw, slots, i, j)
            && Shows(next.state, s, slots, Latest(s.policy, draw, i))
            && Finds(arrived.state, sim.state, s, slots, k)
            && arrived.report.maxAge == Max(sim.report.maxAge, age)
            && arrived.report == sim.report.(landed := arrived.report.landed, maxAge := arrived.report.maxAge)
            && Trade(arrived, s.params, slot).Ok?
            && TradedFrom(next, Trade(arrived, s.params, slot).value)
            && next.report.maxAge == arrived.report.maxAge
            && (next.report.stale != sim.report.stale ==> age >= s.params.expire)
  {
    var slot, previous := slots[|slots| - 1], LastSlot(slots[..|slots| - 1]);
    var through, j := LandThrough(s.policy.order, slot.slot), PublishedBy(s.policy, slot.slot);
    DueMono(s.policy, previous, slot.slot);
    DueMono(s.policy, through, slot.slot);
    LandMoves(sim, s, draw, slots, Due(s.policy, previous), j, through);
    LandBalances(sim, through);
    var c := Max(Due(s.policy, previous), Due(s.policy, through));
    var landed := Land(sim, through);
    arrived := Arrive(landed, slot.slot);
    assert Balanced(arrived);
    LandKeepsReport(sim, through);
    TradeBalances(arrived, s.params, slot);
    var traded := Trade(arrived, s.params, slot).value;
    hide Trade, Queue, Latest, Due, Balanced, Fair;
    if s.policy.order == SwapBeforeUpdate {
      LandMoves(traded, s, draw, slots, c, j, slot.slot);
      LandKeepsReport(traded, slot.slot);
    }
  }

  /** The end of a slot, up to the price that landed last: the inventories and the counters are
      those after the trade. */
  predicate TradedFrom(next: Sim, traded: Sim) {
    && next.state == traded.state.(midPrice := next.state.midPrice, publishSlot := next.state.publishSlot)
    && next.report == traded.report.(landed := next.report.landed)
  }

  lemma LandKeepsReport(sim: Sim, through: u64)
    ensures TradedFrom(Land(sim, through), sim)
  {
  }

  lemma InStepFromStart(s: Scenario, draw: u64 -> bool)
    requires s.policy.period > 0
    ensures InStep(MarketSim(Start(s), s.policy.period), s, draw, [])
  {
    hide AbsImbalanceBps;
  }

  lemma SlotKeepsInStep(m: MarketSim, s: Scenario, draw: u64 -> bool, slots: seq<MarketSlot>) returns (arrived: Sim)
    requires s.policy.period > 0 && slots != [] && LastSlot(slots) < U64_MAX
    requires LastSlot(slots[..|slots| - 1]) <= LastSlot(slots) && InStep(m, s, draw, slots[..|slots| - 1])
    requires MarketSlotStep(m, s, draw, slots[|slots| - 1]).Ok?
    ensures var next, slot := MarketSlotStep(m, s, draw, slots[|slots| - 1]).value, slots[|slots| - 1];
            var k := PricingUpdate(s.policy, draw, LastSlot(slots[..|slots| - 1]), slot.slot);
            var age := SaturatingSub(slot.slot, k * s.policy.period);
            && InStep(next, s, draw, slots)
            && Finds(arrived.state, m.sim.state, s, slots, k)
            && Trade(arrived, s.params, slot).Ok?
            && TradedFrom(next.sim, Trade(arrived, s.params, slot).value)
            && SentOnly(arrived.report, m.sim.report)
            && next.sim.report.maxAge == Max(m.sim.report.maxAge, age)
            && (next.sim.report.stale != m.sim.report.stale ==> age >= s.params.expire)
            && next.sim.report.maxImbalanceBps <= Max(m.sim.report.maxImbalanceBps, s.params.hardBandBps)
  {
    var slot, init := slots[|slots| - 1], slots[..|slots| - 1];
    PublishedMono(s.policy, LastSlot(init), slot.slot);
    DueMono(s.policy, LastSlot(init), LastSlot(init));
    var i, j := Due(s.policy, LastSlot(init)), PublishedBy(s.policy, LastSlot(init));
    hide Due, Queue, Latest, Count, NextAfter, PlaySlot, PricingUpdate, Publish, PublishedBy, Fair, Trade;
    QueueKeepsPrices(m.sim.pending, s.policy, draw, slots, i, j);
    ShowsStays(m.sim.state, s, slots, Latest(s.policy, draw, i));
    PublishSendsAll(m, s.policy, draw, slots, i, j);
    var published := Publish(m, s.policy, draw, slot);
    arrived := PlayMoves(published.sim, s, draw, slots);
    PlayBalances(published.sim, s.policy.order, s.params, slot);
    hide Balanced;
  }

  /** Counters that move without an order: updates, and the age. */
  predicate SentOnly(after: Report, before: Report) {
    after == before.(sent := after.sent, landed := after.landed, dropped := after.dropped, maxAge := after.maxAge)
  }

  /** Over every sorted market path, with repeated and skipped slots: every update up to the
      last slot was sent, the counters, the queue and the price follow from the publish times
      alone, and the largest imbalance never passes the hard band or the initial one. */
  lemma {:induction false} MarketInStep(s: Scenario, draw: u64 -> bool, slots: seq<MarketSlot>)
    requires s.policy.period > 0 && BeforeEnd(slots) && MarketPath(s, draw, slots).Ok?
    ensures var m := MarketPath(s, draw, slots).value;
            && InStep(m, s, draw, slots)
            && m.sim.report.maxImbalanceBps <= Max(AbsImbalanceBps(s.base, s.target), s.params.hardBandBps)
  {
    if slots == [] {
      InStepFromStart(s, draw);
    } else {
      var init := slots[..|slots| - 1];
      MarketInStep(s, draw, init);
      hide InStep, MarketSlotStep;
      var _ := SlotKeepsInStep(MarketPath(s, draw, init).value, s, draw, slots);
    }
  }

  /** The update ledger in closed form: sent counts the periods in the last slot, landed the
      landing updates that were due, dropped the others that were sent and fail. */
  lemma MarketLedger(s: Scenario, draw: u64 -> bool, slots: seq<MarketSlot>)
    requires s.policy.period > 0 && BeforeEnd(slots) && MarketPath(s, draw, slots).Ok?
    ensures var m, last := MarketPath(s, draw, slots).value, LastSlot(slots);
            var r := m.sim.report;
            && Balanced(m.sim)
            && r.sent == PublishedBy(s.policy, last)
            && r.landed == Count(s.policy, draw, Due(s.policy, last))
            && r.dropped == r.sent - Count(s.policy, draw, r.sent)
            && Shows(m.sim.state, s, slots, Latest(s.policy, draw, Due(s.policy, last)))
  {
    MarketInStep(s, draw, slots);
    var m, last := MarketPath(s, draw, slots).value, LastSlot(slots);
    QueueLength(m.sim.pending, s.policy, draw, slots, Due(s.policy, last), PublishedBy(s.policy, last));
    hide MarketPath, Queue, Due, Latest, Count, Fair;
  }

  lemma {:induction false} PathIsSorted(s: Scenario, draw: u64 -> bool, slots: seq<MarketSlot>)
    requires s.policy.period > 0 && BeforeEnd(slots) && MarketPath(s, draw, slots).Ok?
    ensures Sorted(slots)
  {
    if slots != [] {
      var init := slots[..|slots| - 1];
      PathIsSorted(s, draw, init);
      SortedUnfolds(slots);
      hide MarketSlotStep, Sorted;
    }
  }

  /** The price in use after a path, from the path alone. With `k` the latest landing update that is
      due, it is the initial price when there is none, and otherwise the fair price of the first
      slot of the path that reaches the publish slot of `k`. */
  lemma MarketPriceIsFair(s: Scenario, draw: u64 -> bool, slots: seq<MarketSlot>) returns (first: nat)
    requires s.policy.period > 0 && BeforeEnd(slots) && slots != [] && MarketPath(s, draw, slots).Ok?
    ensures var state := MarketPath(s, draw, slots).value.sim.state;
            var k := Latest(s.policy, draw, Due(s.policy, LastSlot(slots)));
            state.publishSlot == k * s.policy.period && PricedOnPath(state.midPrice, s, slots, k, first)
  {
    MarketLedger(s, draw, slots);
    PathIsSorted(s, draw, slots);
    var last := LastSlot(slots);
    var k := Latest(s.policy, draw, Due(s.policy, last));
    DueMono(s.policy, last, last);
    hide MarketPath, Fair, Latest, Due, Sorted;
    first := FairOnPath(s.policy, slots, k);
  }

  /** The initial price for update 0; for any other the fair price of the first slot to reach it. */
  predicate PricedOnPath(midPrice: u128, s: Scenario, slots: seq<MarketSlot>, k: nat, first: nat) {
    if k == 0 then midPrice == s.midPrice
    else
      && first < |slots| && k * s.policy.period <= slots[first].slot && midPrice == slots[first].fairPrice
      && forall e :: 0 <= e < first ==> slots[e].slot < k * s.policy.period
  }

  lemma FairOnPath(policy: Policy, slots: seq<MarketSlot>, k: nat) returns (first: nat)
    requires policy.period > 0 && slots != [] && Sorted(slots) && k <= PublishedBy(policy, LastSlot(slots))
    ensures first < |slots| && k * policy.period <= slots[first].slot
    ensures Fair(policy, slots, k) == slots[first].fairPrice
    ensures forall e :: 0 <= e < first ==> slots[e].slot < k * policy.period
  {
    DivAtLeast(LastSlot(slots), policy.period, k);
    first := FairIsFirst(policy, slots, k);
  }

  /** Every swap of a path, from the path alone: it trades the inventories the path so far has left
      at the age and at the price of the update that prices its slot. */
  lemma MarketSwapIsPriced(s: Scenario, draw: u64 -> bool, slots: seq<MarketSlot>) returns (arrived: Sim, first: nat)
    requires s.policy.period > 0 && BeforeEnd(slots) && slots != [] && MarketPath(s, draw, slots).Ok?
    ensures MarketPath(s, draw, slots[..|slots| - 1]).Ok? && Trade(arrived, s.params, slots[|slots| - 1]).Ok?
    ensures var before := MarketPath(s, draw, slots[..|slots| - 1]).value.sim;
            var after := MarketPath(s, draw, slots).value.sim;
            var k := PricingUpdate(s.policy, draw, LastSlot(slots[..|slots| - 1]), LastSlot(slots));
            && PricedOnPath(arrived.state.midPrice, s, slots, k, first)
            && arrived.state.publishSlot == k * s.policy.period
            && arrived.state == State(before.state.baseInventory, before.state.quoteInventory, s.target,
                                      arrived.state.midPrice, arrived.state.publishSlot, LastSlot(slots), false)
            && SentOnly(arrived.report, before.report)
            && TradedFrom(after, Trade(arrived, s.params, slots[|slots| - 1]).value)
  {
    var init, last := slots[..|slots| - 1], LastSlot(slots);
    assert LastSlot(init) <= last;
    MarketInStep(s, draw, init);
    PathIsSorted(s, draw, slots);
    DueMono(s.policy, LastSlot(init), last);
    DueMono(s.policy, LandThrough(s.policy.order, last), last);
    hide InStep, MarketSlotStep, Trade, Fair, Latest, Due, Sorted, PublishedBy;
    arrived := SlotKeepsInStep(MarketPath(s, draw, init).value, s, draw, slots);
    first := FairOnPath(s.policy, slots, PricingUpdate(s.policy, draw, LastSlot(init), last));
  }

  /** The publish slot in use never moves back along a market path. */
  lemma MarketPublishMovesForward(s: Scenario, draw: u64 -> bool, slots: seq<MarketSlot>)
    requires s.policy.period > 0 && BeforeEnd(slots) && slots != [] && MarketPath(s, draw, slots).Ok?
    ensures MarketPath(s, draw, slots[..|slots| - 1]).Ok?
    ensures MarketPath(s, draw, slots[..|slots| - 1]).value.sim.state.publishSlot
         <= MarketPath(s, draw, slots).value.sim.state.publishSlot
  {
    var init := slots[..|slots| - 1];
    assert LastSlot(init) <= LastSlot(slots);
    MarketLedger(s, draw, slots);
    MarketLedger(s, draw, init);
    hide MarketPath, Due, Latest, Balanced;
    DueMono(s.policy, LastSlot(init), LastSlot(slots));
    var i, j := Due(s.policy, LastSlot(init)), Due(s.policy, LastSlot(slots));
    LatestMono(s.policy, draw, i, j);
    MulLe(Latest(s.policy, draw, i), Latest(s.policy, draw, j), s.policy.period);
  }

  // ---- How old a quote gets ----

  /** No more than `d` of the first `n` updates drop in a row. */
  predicate AtMostDrops(policy: Policy, draw: u64 -> bool, d: nat, n: nat) {
    forall k :: 0 <= k <= n ==> k - Latest(policy, draw, k) <= d
  }

  function AgeBound(policy: Policy, d: nat): int {
    (d + 1) * policy.period + policy.latency - if policy.order == UpdateBeforeSwap then 1 else 0
  }

  lemma PricingAge(policy: Policy, draw: u64 -> bool, d: nat, previous: nat, slot: u64)
    requires policy.period > 0 && previous <= slot && AtMostDrops(policy, draw, d, PublishedBy(policy, slot))
    ensures SaturatingSub(slot, PricingUpdate(policy, draw, previous, slot) * policy.period) <= AgeBound(policy, d)
  {
    var through := LandThrough(policy.order, slot);
    DueMono(policy, previous, slot);
    DueMono(policy, through, slot);
    var c := Max(Due(policy, previous), Due(policy, through));
    var latest := Latest(policy, draw, c);
    assert c - latest <= d;
    hide Latest, AtMostDrops, Due;
    MulNonNeg(latest, policy.period);
    DueBound(policy, through);
    AgeArithmetic(policy.period, policy.latency, Due(policy, through), c, latest, d, through);
  }

  lemma DueBound(policy: Policy, through: nat)
    requires policy.period > 0
    ensures through < (Due(policy, through) + 1) * policy.period + policy.latency
  {
    if through >= policy.latency {
      DivBounds(through - policy.latency, policy.period);
    }
  }

  lemma AgeArithmetic(period: nat, latency: nat, due: nat, c: nat, latest: nat, d: nat, through: nat)
    requires period > 0 && due <= c <= latest + d && through < (due + 1) * period + latency
    ensures through - latest * period < (d + 1) * period + latency
  {
    MulLe(due + 1, latest + (d + 1), period);
  }

  predicate AgeKept(r: Report, s: Scenario, d: nat) {
    r.maxAge <= Max(AgeBound(s.policy, d), 0) && (AgeBound(s.policy, d) < s.params.expire ==> r.stale == 0)
  }

  /** If at most `d` updates drop in a row, a quote is never older than `d + 1` periods plus
      the latency, one less when updates land before the swap; and if that is short of
      expiry no trade is ever rejected as stale. */
  lemma {:induction false} QuoteAgeIsBounded(s: Scenario, draw: u64 -> bool, slots: seq<MarketSlot>, d: nat)
    requires s.policy.period > 0 && BeforeEnd(slots) && MarketPath(s, draw, slots).Ok?
    requires AtMostDrops(s.policy, draw, d, PublishedBy(s.policy, LastSlot(slots)))
    ensures AgeKept(MarketPath(s, draw, slots).value.sim.report, s, d)
  {
    if slots != [] {
      var init, slot := slots[..|slots| - 1], slots[|slots| - 1];
      var previous := LastSlot(init);
      PublishedMono(s.policy, previous, slot.slot);
      QuoteAgeIsBounded(s, draw, init, d);
      MarketInStep(s, draw, init);
      hide InStep, MarketSlotStep, AgeBound, Latest, PricingUpdate, Trade;
      var _ := SlotKeepsInStep(MarketPath(s, draw, init).value, s, draw, slots);
      PricingAge(s.policy, draw, d, previous, slot.slot);
    }
  }

  /** After `d` drops in a row, the swap one slot short of the next landing is priced by a quote
      of just the bounding age. */
  lemma PricingAgeIsReached(policy: Policy, draw: u64 -> bool, k: nat, d: nat, previous: nat, slot: u64)
    requires policy.period > 0 && Latest(policy, draw, k + d) == k && previous <= LandThrough(policy.order, slot)
    requires slot == k * policy.period + AgeBound(policy, d)
    ensures SaturatingSub(slot, PricingUpdate(policy, draw, previous, slot) * policy.period) == AgeBound(policy, d)
  {
    var through := LandThrough(policy.order, slot);
    MulLe(1, d + 1, policy.period);
    MulNonNeg(k, policy.period);
    assert (k + d + 1) * policy.period == k * policy.period + (d + 1) * policy.period;
    assert (k + d) * policy.period == (k + d + 1) * policy.period - policy.period;
    DivUnique(through - policy.latency, policy.period, k + d);
    DueMono(policy, previous, through);
    hide Latest;
  }

  lemma AgeBoundIsPositive(policy: Policy, d: nat)
    requires policy.period > 0
    ensures 0 <= AgeBound(policy, d)
  {
    MulLe(1, d + 1, policy.period);
  }

  /** The bound is met exactly by a run: whenever some update `k` is followed by `d` drops, the
      path of the one slot short of the next landing reports a quote of just that age. */
  lemma AgeBoundIsReached(s: Scenario, draw: u64 -> bool, k: nat, d: nat, slot: MarketSlot)
    requires s.policy.period > 0 && Latest(s.policy, draw, k + d) == k && slot.slot < U64_MAX && slot.flow.None?
    requires slot.slot == k * s.policy.period + AgeBound(s.policy, d)
    ensures MarketPath(s, draw, [slot]).Ok?
    ensures MarketPath(s, draw, [slot]).value.sim.report.maxAge == AgeBound(s.policy, d)
  {
    var start := MarketSim(Start(s), s.policy.period);
    OneSlotPath(s, draw, slot);
    InStepFromStart(s, draw);
    QuietMarketSlotPlays(start, s, draw, slot);
    AgeBoundIsPositive(s.policy, d);
    assert [slot][..0] == [];
    hide InStep, MarketSlotStep, PricingUpdate, AgeBound, MarketPath, Trade;
    var _ := SlotKeepsInStep(start, s, draw, [slot]);
    PricingAgeIsReached(s.policy, draw, k, d, 0, slot.slot);
  }

  lemma OneSlotPath(s: Scenario, draw: u64 -> bool, slot: MarketSlot)
    requires s.policy.period > 0 && slot.slot < U64_MAX
    ensures BeforeEnd([slot])
    ensures MarketPath(s, draw, [slot]) == MarketSlotStep(MarketSim(Start(s), s.policy.period), s, draw, slot)
  {
    hide MarketSlotStep, Start;
    assert [slot][..0] == [];
    MarketPrefix(s, draw, [slot], 0);
    assert [slot][..1] == [slot];
  }

  lemma QuietMarketSlotPlays(m: MarketSim, s: Scenario, draw: u64 -> bool, slot: MarketSlot)
    requires s.policy.period > 0 && slot.slot < U64_MAX && slot.flow.None?
    ensures MarketSlotStep(m, s, draw, slot).Ok?
  {
  }

  /** And past expiry such a quote does turn an order away: with parameters the quote accepts
      and a stocked pool, a bound that reaches expiry has a path with a stale rejection. */
  lemma BeyondBoundGoesStale(s: Scenario, draw: u64 -> bool, k: nat, d: nat, slot: MarketSlot)
    requires s.policy.period > 0 && Latest(s.policy, draw, k + d) == k && slot.slot < U64_MAX
    requires slot.slot == k * s.policy.period + AgeBound(s.policy, d) && AgeBound(s.policy, d) >= s.params.expire
    requires slot.flow.Some? && slot.flow.value.amountIn > 0
    requires ValidParams(s.params) && s.base > 0 && s.quote > 0 && s.target > 0
    ensures MarketPath(s, draw, [slot]).Ok? && MarketPath(s, draw, [slot]).value.sim.report.stale == 1
  {
    var start := MarketSim(Start(s), s.policy.period);
    var through, n := LandThrough(s.policy.order, slot.slot), PublishedBy(s.policy, slot.slot);
    OneSlotPath(s, draw, slot);
    InStepFromStart(s, draw);
    DueMono(s.policy, 0, slot.slot);
    DueMono(s.policy, through, slot.slot);
    PublishedMono(s.policy, 0, slot.slot);
    assert [slot][..0] == [];
    PublishSendsAll(start, s.policy, draw, [slot], Due(s.policy, 0), PublishedBy(s.policy, 0));
    var published := Publish(start, s.policy, draw, slot);
    LandMoves(published.sim, s, draw, [slot], Due(s.policy, 0), n, through);
    PricingAgeIsReached(s.policy, draw, k, d, 0, slot.slot);
    hide Publish, Queue, Latest, Due, AgeBound, PublishedBy, InStep, Landed, Waiting;
    var arrived := Arrive(Land(published.sim, through), slot.slot);
    StartIsStocked(s);
    ExpiredIsStale(arrived.state, s.params, slot.flow.value.amountIn, slot.flow.value.side == BaseToQuote);
    hide ReferenceQuote.QuoteExactIn, ValidParams, Start;
  }

  /** A simulation starts from the scenario at slot zero, with nothing counted but the imbalance the
      pool starts with. */
  lemma StartIsStocked(s: Scenario)
    ensures var start := Start(s);
            && start.state == State(s.base, s.quote, s.target, s.midPrice, 0, 0, false) && start.pending == []
            && start.report.maxImbalanceBps == AbsImbalanceBps(s.base, s.target)
            && start.report == Report(0, 0, 0, 0, 0, 0, 0, 0, 0, 0, 0, 0, 0, 0, 0, start.report.maxImbalanceBps)
  {
    hide AbsImbalanceBps;
  }

  /** How many slots of a path bring an order. */
  function Orders(slots: seq<MarketSlot>): nat {
    if slots == [] then 0 else Orders(slots[..|slots| - 1]) + if slots[|slots| - 1].flow.Some? then 1 else 0
  }

  /** Every order of a path is attempted once and ends as one fill or one rejection. */
  lemma {:induction false} MarketAttemptsOrders(s: Scenario, draw: u64 -> bool, slots: seq<MarketSlot>)
    requires s.policy.period > 0 && BeforeEnd(slots) && MarketPath(s, draw, slots).Ok?
    ensures var r := MarketPath(s, draw, slots).value.sim.report;
            r.attempted == Orders(slots) == r.filled + Rejections(r)
  {
    MarketInStep(s, draw, slots);
    hide InStep, MarketSlotStep, Trade;
    if slots == [] {
      StartIsStocked(s);
      hide Start;
    } else {
      var init, last := slots[..|slots| - 1], slots[|slots| - 1];
      MarketAttemptsOrders(s, draw, init);
      var before := MarketPath(s, draw, init).value;
      MarketInStep(s, draw, init);
      var arrived := SlotKeepsInStep(before, s, draw, slots);
      hide Finds, MarketPath, ReferenceQuote.QuoteExactIn, CountsFill, CountsRejection, EarnsFill, ImbalanceRises;
      AttemptsOne(arrived, s.params, last);
    }
  }

  lemma AttemptsOne(sim: Sim, params: Params, slot: MarketSlot)
    requires Trade(sim, params, slot).Ok?
    ensures OneAttempt(sim.report, Trade(sim, params, slot).value.report, slot.flow.Some?)
  {
    TradeReports(sim, params, slot);
    hide Trade, ReferenceQuote.QuoteExactIn, EarnsFill, ImbalanceRises;
  }

  lemma ExpiredIsStale(s: State, p: Params, amountIn: u64, baseToQuote: bool)
    requires ValidParams(p) && amountIn > 0 && s.baseInventory > 0 && s.quoteInventory > 0 && s.targetBase > 0
    requires !s.paused && Age(s) >= p.expire
    ensures ReferenceQuote.QuoteExactIn(s, p, amountIn, baseToQuote) == Err(StaleQuote)
  {
  }

  lemma {:induction false} CertainSuccessNeverDrops(policy: Policy, draw: u64 -> bool, slot: u64)
    requires policy.period > 0 && policy.successBps == BASIS_POINTS
    ensures AtMostDrops(policy, draw, 0, PublishedBy(policy, slot))
  {
    forall k | 0 <= k <= PublishedBy(policy, slot)
      ensures k - Latest(policy, draw, k) <= 0
    {
      DivAtLeast(slot, policy.period, k);
    }
  }

  /** Certain failure never lands anything, whatever the generator draws: every update is dropped and
      the initial price stays in use. */
  lemma CertainFailureDropsAll(s: Scenario, draw: u64 -> bool, slots: seq<MarketSlot>)
    requires s.policy.period > 0 && s.policy.successBps == 0
    requires BeforeEnd(slots) && MarketPath(s, draw, slots).Ok?
    ensures var sim := MarketPath(s, draw, slots).value.sim;
            && sim.report.dropped == sim.report.sent == PublishedBy(s.policy, LastSlot(slots))
            && sim.report.landed == 0 && sim.state.midPrice == s.midPrice && sim.state.publishSlot == 0
  {
    MarketLedger(s, draw, slots);
    var last := LastSlot(slots);
    NothingLands(s.policy, draw, PublishedBy(s.policy, last));
    NothingLands(s.policy, draw, Due(s.policy, last));
    hide MarketPath, Due, Count, Latest, PublishedBy, Balanced, Shows;
    ShowsInitial(MarketPath(s, draw, slots).value.sim.state, s, slots);
  }

  lemma ShowsInitial(state: State, s: Scenario, slots: seq<MarketSlot>)
    requires Shows(state, s, slots, 0)
    ensures state.midPrice == s.midPrice && state.publishSlot == 0
  {
  }

  lemma {:induction false} NothingLands(policy: Policy, draw: u64 -> bool, k: nat)
    requires policy.successBps == 0
    ensures Count(policy, draw, k) == 0 && Latest(policy, draw, k) == 0
  {
    if k > 0 {
      NothingLands(policy, draw, k - 1);
    }
  }

  /** With a probability in between, it is the draw at its publish slot that decides on an update. */
  lemma DrawDecides(policy: Policy, draw: u64 -> bool, k: nat)
    requires 0 < policy.successBps < BASIS_POINTS && 0 <= k * policy.period < TWO_64
    ensures Lands(policy, draw, k) <==> draw(k * policy.period)
  {
  }

  predicate Quiet(slots: seq<MarketSlot>) {
    forall i :: 0 <= i < |slots| ==> slots[i].flow.None?
  }

  /** Without orders a path is simulated to its end if and only if the policy is valid and no slot
      goes back; slots may repeat and may be skipped. */
  lemma QuietPathRunsExactly(s: Scenario, draw: u64 -> bool, slots: seq<MarketSlot>)
    requires BeforeEnd(slots) && Quiet(slots)
    ensures MarketOutcome(s, draw, slots).Ok?
            <==> 0 < s.policy.period && s.policy.successBps <= BASIS_POINTS && Sorted(slots)
    ensures MarketOutcome(s, draw, slots).Err? ==> MarketOutcome(s, draw, slots) == Err(InvalidConfig)
  {
    if 0 < s.policy.period {
      QuietPathRuns(s, draw, slots);
      hide MarketPath, Sorted;
    }
  }

  lemma {:induction false} QuietPathRuns(s: Scenario, draw: u64 -> bool, slots: seq<MarketSlot>)
    requires 0 < s.policy.period && BeforeEnd(slots) && Quiet(slots)
    ensures MarketPath(s, draw, slots).Ok? <==> Sorted(slots)
    ensures MarketPath(s, draw, slots).Err? ==> MarketPath(s, draw, slots) == Err(InvalidConfig)
  {
    if slots != [] {
      var init, slot := slots[..|slots| - 1], slots[|slots| - 1];
      QuietPathRuns(s, draw, init);
      SortedUnfolds(slots);
      hide MarketSlotStep, Sorted;
      if MarketPath(s, draw, init).Ok? {
        QuietMarketSlotPlays(MarketPath(s, draw, init).value, s, draw, slot);
      }
    }
  }

  lemma SortedUnfolds(slots: seq<MarketSlot>)
    requires slots != []
    ensures Sorted(slots) <==> Sorted(slots[..|slots| - 1]) && !GoesBack(slots)
  {
    var init := slots[..|slots| - 1];
    assert forall i :: 0 <= i < |init| ==> init[i] == slots[i];
    if Sorted(init) && !GoesBack(slots) {
      forall i, j | 0 <= i < j < |slots|
        ensures slots[i].slot <= slots[j].slot
      {
        if j == |slots| - 1 {
          assert init[i].slot <= init[|init| - 1].slot || i == |init| - 1;
        } else {
          assert init[i].slot <= init[j].slot;
        }
      }
    }
  }

  /** The same for a replay, whose recording must be well formed as well. */
  lemma QuietReplayRunsExactly(s: Scenario, updates: seq<Recorded>, slots: seq<MarketSlot>)
    requires Quiet(slots)
    ensures ReplayOutcome(s, updates, slots).Ok?
            <==> && 0 < s.policy.period && s.policy.successBps <= BASIS_POINTS && WellRecorded(updates)
                 && Sorted(slots)
    ensures ReplayOutcome(s, updates, slots).Err? ==> ReplayOutcome(s, updates, slots) == Err(InvalidConfig)
  {
    QuietReplayRuns(s, updates, slots);
    hide ReplayPath, Sorted, WellRecorded;
  }

  lemma {:induction false} QuietReplayRuns(s: Scenario, updates: seq<Recorded>, slots: seq<MarketSlot>)
    requires Quiet(slots)
    ensures ReplayPath(s, updates, slots).Ok? <==> Sorted(slots)
    ensures ReplayPath(s, updates, slots).Err? ==> ReplayPath(s, updates, slots) == Err(InvalidConfig)
  {
    if slots != [] {
      var init, slot := slots[..|slots| - 1], slots[|slots| - 1];
      QuietReplayRuns(s, updates, init);
      SortedUnfolds(slots);
      hide Sorted, PublishRecorded;
    }
  }

  /** A policy inside an envelope ages no more than the envelope allows. */
  lemma EnvelopeBoundsAge(policy: Policy, e: Envelope, d: nat)
    requires policy.period <= e.maxPeriod && policy.latency <= e.maxLatency
    ensures AgeBound(policy, d) <= (d + 1) * e.maxPeriod + e.maxLatency
  {
    MulLe(policy.period, e.maxPeriod, d + 1);
  }

  /** An envelope with room for `d` drops in a row: under every policy inside it whose updates
      drop no more often than that, no trade is rejected as stale on any sorted market path,
      under either same-slot order. */
  lemma RoomForDropsKeepsQuotesAlive(s: Scenario, draw: u64 -> bool, slots: seq<MarketSlot>, e: Envelope, d: nat)
    requires (d + 1) * e.maxPeriod + e.maxLatency < s.params.expire
    requires 0 < s.policy.period <= e.maxPeriod && s.policy.latency <= e.maxLatency
    requires AtMostDrops(s.policy, draw, d, PublishedBy(s.policy, LastSlot(slots)))
    requires BeforeEnd(slots) && MarketPath(s, draw, slots).Ok?
    ensures MarketPath(s, draw, slots).value.sim.report.stale == 0
    ensures MarketPath(s, draw, slots).value.sim.report.maxAge < s.params.expire
  {
    hide MarketPath, AtMostDrops, AgeBound;
    EnvelopeBoundsAge(s.policy, e, d);
    QuoteAgeIsBounded(s, draw, slots, d);
  }

  /** What the compiler's envelope check is for: it is the case without drops. */
  lemma EnvelopeKeepsQuotesAlive(s: Scenario, draw: u64 -> bool, slots: seq<MarketSlot>, e: Envelope)
    requires ValidateEnvelope(e, s.params.expire).Ok?
    requires 0 < s.policy.period <= e.maxPeriod && s.policy.latency <= e.maxLatency
    requires AtMostDrops(s.policy, draw, 0, PublishedBy(s.policy, LastSlot(slots)))
    requires BeforeEnd(slots) && MarketPath(s, draw, slots).Ok?
    ensures MarketPath(s, draw, slots).value.sim.report.stale == 0
    ensures MarketPath(s, draw, slots).value.sim.report.maxAge < s.params.expire
  {
    hide MarketPath, AtMostDrops;
    RoomForDropsKeepsQuotesAlive(s, draw, slots, e, 0);
  }

  // ---- Replays ----

  lemma {:induction false} PublishRecordedBalances(p: ReplaySim, updates: seq<Recorded>, slot: u64)
    requires Balanced(p.sim) && p.index <= |updates|
    requires p.sim.report.sent == p.index && p.sim.report.dropped == Dropped(updates[..p.index])
    ensures var next := PublishRecorded(p, updates, slot);
            && Balanced(next.sim) && p.index <= next.index <= |updates| && next.sim.state == p.sim.state
            && next.sim.report.sent == next.index && next.sim.report.dropped == Dropped(updates[..next.index])
            && (next.index < |updates| ==> updates[next.index].publishSlot > slot)
            && (forall u :: u in next.sim.pending ==>
                  u in p.sim.pending || exists k :: 0 <= k < |updates| && updates[k].landingSlot == Some(u.landingSlot))
    decreases |updates| - p.index
  {
    if p.index < |updates| && updates[p.index].publishSlot <= slot {
      var next := ReplaySim(Enqueue(p.sim, updates[p.index]), p.index + 1);
      assert updates[..p.index + 1][..p.index] == updates[..p.index];
      PublishRecordedBalances(next, updates, slot);
    }
  }

  function Dropped(updates: seq<Recorded>): (n: nat)
    ensures n <= |updates|
  {
    if updates == [] then 0
    else Dropped(updates[..|updates| - 1]) + if updates[|updates| - 1].landingSlot.None? then 1 else 0
  }

  predicate AllLandAmong(pending: seq<Update>, updates: seq<Recorded>) {
    forall u :: u in pending ==> exists k :: 0 <= k < |updates| && updates[k].landingSlot == Some(u.landingSlot)
  }

  /** After a slot nothing is left in flight that was due by it. */
  lemma PlayLandsDue(sim: Sim, order: SameSlotOrder, params: Params, slot: MarketSlot)
    requires Balanced(sim) && PlaySlot(sim, order, params, slot).Ok?
    ensures forall u :: u in PlaySlot(sim, order, params, slot).value.pending ==>
              u in sim.pending && u.landingSlot > slot.slot
  {
    var through := LandThrough(order, slot.slot);
    LandingSplits(sim.pending, through);
    LandBalances(sim, through);
    var arrived := Arrive(Land(sim, through), slot.slot);
    assert Balanced(arrived);
    TradeBalances(arrived, params, slot);
    hide Trade, Balanced, Landed, Waiting;
    LandingSplits(Trade(arrived, params, slot).value.pending, slot.slot);
  }

  /** Over every replay the ledger balances, and everything sent so far was recorded. */
  lemma {:induction false} ReplayLedger(s: Scenario, updates: seq<Recorded>, slots: seq<MarketSlot>)
    requires ReplayPath(s, updates, slots).Ok?
    ensures var p := ReplayPath(s, updates, slots).value;
            && Balanced(p.sim) && p.index <= |updates|
            && p.sim.report.sent == p.index && p.sim.report.dropped == Dropped(updates[..p.index])
            && AllLandAmong(p.sim.pending, updates)
            && (forall u :: u in p.sim.pending && slots != [] ==> u.landingSlot > LastSlot(slots))
            && (slots != [] && p.index < |updates| ==> updates[p.index].publishSlot > LastSlot(slots))
  {
    if slots != [] {
      ReplayLedger(s, updates, slots[..|slots| - 1]);
      var before := ReplayPath(s, updates, slots[..|slots| - 1]).value;
      var slot := slots[|slots| - 1];
      PublishRecordedBalances(before, updates, slot.slot);
      var published := PublishRecorded(before, updates, slot.slot);
      hide PlaySlot, Dropped, Balanced, PublishRecorded;
      PlayBalances(published.sim, s.policy.order, s.params, slot);
      PlayLandsDue(published.sim, s.policy.order, s.params, slot);
    }
  }

  lemma EmptyOrOccupied(pending: seq<Update>)
    ensures pending == [] || exists u :: u in pending
  {
    assert pending == [] || pending[0] in pending;
  }

  /** A replay that runs past every publish and landing slot reports exactly the recorded
      landing distribution, with nothing left in flight. */
  lemma ReplayMatchesDistribution(s: Scenario, updates: seq<Recorded>, slots: seq<MarketSlot>)
    requires ReplayPath(s, updates, slots).Ok? && slots != []
    requires forall k :: 0 <= k < |updates| ==>
               updates[k].publishSlot <= LastSlot(slots)
               && (updates[k].landingSlot.Some? ==> updates[k].landingSlot.value <= LastSlot(slots))
    ensures var sim := ReplayPath(s, updates, slots).value.sim;
            && sim.pending == []
            && sim.report.sent == |updates| && sim.report.dropped == Dropped(updates)
            && sim.report.landed == |updates| - Dropped(updates)
  {
    ReplayLedger(s, updates, slots);
    var p := ReplayPath(s, updates, slots).value;
    hide ReplayPath, Dropped;
    assert p.index == |updates| && updates[..p.index] == updates;
    EmptyOrOccupied(p.sim.pending);
  }

  /** How long each landing update took, in recorded order. */
  function Latencies(updates: seq<Recorded>): seq<u64> {
    if updates == [] then []
    else
      var last := updates[|updates| - 1];
      Latencies(updates[..|updates| - 1])
      + match last.landingSlot
        case Some(landing) => [SaturatingSub(landing, last.publishSlot)]
        case None => []
  }

  /** The list holds, for every landing update in recorded order, the slots from publication to
      landing. */
  lemma {:induction false} LatencyAt(updates: seq<Recorded>, i: nat)
    requires i < |updates| && updates[i].landingSlot.Some?
    ensures var t := i - Dropped(updates[..i]);
            && 0 <= t < |Latencies(updates)|
            && Latencies(updates)[t] == Max(updates[i].landingSlot.value - updates[i].publishSlot, 0)
    ensures |Latencies(updates)| == |updates| - Dropped(updates)
  {
    var init := updates[..|updates| - 1];
    LatenciesCount(init);
    LatenciesCount(updates);
    if i < |init| {
      LatencyAt(init, i);
      assert init[..i] == updates[..i];
    } else {
      assert init == updates[..i];
    }
  }

  lemma {:induction false} LatenciesCount(updates: seq<Recorded>)
    ensures |Latencies(updates)| == |updates| - Dropped(updates)
  {
    if updates != [] {
      LatenciesCount(updates[..|updates| - 1]);
    }
  }

  /** The recorded landing distribution, counted in one pass. */
  method LandingDistribution(updates: seq<Recorded>) returns (sent: nat, landed: nat, dropped: nat, latencies: seq<u64>)
    ensures sent == |updates| && dropped == Dropped(updates) && landed == |updates| - Dropped(updates)
    ensures |latencies| == landed
    ensures forall i :: 0 <= i < |updates| && updates[i].landingSlot.Some? ==>
              var t := i - Dropped(updates[..i]);
              0 <= t < |latencies| && latencies[t] == Max(updates[i].landingSlot.value - updates[i].publishSlot, 0)
  {
    sent, landed, dropped, latencies := |updates|, 0, 0, [];
    for i := 0 to |updates|
      invariant dropped == Dropped(updates[..i]) && landed + dropped == i
      invariant latencies == Latencies(updates[..i]) && |latencies| == landed
    {
      assert updates[..i + 1][..i] == updates[..i];
      match updates[i].landingSlot {
        case Some(landing) =>
          landed := landed + 1;
          latencies := latencies + [SaturatingSub(landing, updates[i].publishSlot)];
        case None =>
          dropped := dropped + 1;
      }
    }
    assert updates[..|updates|] == updates;
    forall i | 0 <= i < |updates| && updates[i].landingSlot.Some?
      ensures var t := i - Dropped(updates[..i]);
              0 <= t < |latencies| && latencies[t] == Max(updates[i].landingSlot.value - updates[i].publishSlot, 0)
    {
      LatencyAt(updates, i);
    }
  }
}
