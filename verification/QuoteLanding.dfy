/** The reference-quote simulators: quote updates that are published, delayed or dropped, and
    landed around the swaps of a market path. The first half says what each loop makes of
    its state, the second half is the loops themselves. */
module QuoteLanding {
  import opened Numbers
  import opened ReferenceQuote
  import opened Market
  import opened ConfigCompiler

  datatype Policy = Policy(period: u64, latency: u64, successBps: u16, order: SameSlotOrder)

  datatype Flow = Flow(side: FlowSide, amountIn: u64)

  datatype MarketSlot = MarketSlot(slot: u64, fairPrice: u128, flow: Option<Flow>)

  datatype Scenario = Scenario(base: u64, quote: u64, target: u64, midPrice: u128, policy: Policy, params: Params)

  datatype Update = Update(publishSlot: u64, landingSlot: u64, midPrice: u128)

  /** A recorded update of a replay; a dropped one never lands. */
  datatype Recorded = Recorded(publishSlot: u64, landingSlot: Option<u64>, midPrice: u128)

  datatype Report = Report(attempted: nat, filled: nat, stale: nat, shielded: nat, inventory: nat, other: nat,
                           sent: nat, landed: nat, dropped: nat, maxAge: u64,
                           freshFills: nat, agingFills: nat, protectedFills: nat,
                           fees: u128, edge: int, maxImbalanceBps: u16)

  /** A simulation between two slots: the pool, the ledger and the updates still in flight. */
  datatype Sim = Sim(state: State, report: Report, pending: seq<Update>)

  /** A market-path simulation also knows the next publish slot. */
  datatype MarketSim = MarketSim(sim: Sim, nextUpdate: u64)

  function ValidatePolicy(policy: Policy): Result<(), MathError> {
    if policy.period == 0 || policy.successBps > BASIS_POINTS then Err(InvalidConfig) else Ok(())
  }

  /** Certain success and certain failure need no draw; `draw` stands for the generator. */
  predicate ShouldLand(policy: Policy, draw: u64 -> bool, publishSlot: u64) {
    policy.successBps == BASIS_POINTS || (policy.successBps != 0 && draw(publishSlot))
  }

  function AbsImbalanceBps(base: u64, target: u64): (r: u16) {
    if target == 0 then TWO_16 - 1
    else
      DivNonNeg(Abs(base - target) * BASIS_POINTS, target);
      Min(Abs(base - target) * BASIS_POINTS / target, TWO_16 - 1)
  }

  function Start(s: Scenario): Sim {
    Sim(State(s.base, s.quote, s.target, s.midPrice, 0, 0, false),
        Report(0, 0, 0, 0, 0, 0, 0, 0, 0, 0, 0, 0, 0, 0, 0, AbsImbalanceBps(s.base, s.target)), [])
  }

  // ---- Landing ----

  function Landed(pending: seq<Update>, through: u64): seq<Update> {
    if pending == [] then []
    else
      var last := pending[|pending| - 1];
      Landed(pending[..|pending| - 1], through) + if last.landingSlot <= through then [last] else []
  }

  function Waiting(pending: seq<Update>, through: u64): seq<Update> {
    if pending == [] then []
    else
      var last := pending[|pending| - 1];
      Waiting(pending[..|pending| - 1], through) + if last.landingSlot <= through then [] else [last]
  }

  /** The last update to land in queue order sets the price, even over a newer one. */
  function Priced(state: State, landed: seq<Update>): State {
    if landed == [] then state
    else state.(midPrice := landed[|landed| - 1].midPrice, publishSlot := landed[|landed| - 1].publishSlot)
  }

  function Land(sim: Sim, through: u64): Sim {
    var landed := Landed(sim.pending, through);
    Sim(Priced(sim.state, landed), sim.report.(landed := sim.report.landed + |landed|), Waiting(sim.pending, through))
  }

  /** How far updates may land before the swap of a slot. */
  function LandThrough(order: SameSlotOrder, slot: u64): u64 {
    match order
    case UpdateBeforeSwap => slot
    case SwapBeforeUpdate => SaturatingSub(slot, 1)
  }

  // ---- Trading ----

  function CountFill(r: Report, ageState: AgeState): Report {
    match ageState
    case Fresh => r.(filled := r.filled + 1, freshFills := r.freshFills + 1)
    case Aging => r.(filled := r.filled + 1, agingFills := r.agingFills + 1)
    case Protected => r.(filled := r.filled + 1, protectedFills := r.protectedFills + 1)
    case _ => r.(filled := r.filled + 1)
  }

  function CountRejection(r: Report, error: MathError): Result<Report, MathError> {
    match error
    case StaleQuote => Ok(r.(stale := r.stale + 1))
    case QuoteProtected => Ok(r.(shielded := r.shielded + 1))
    case InventoryBand => Ok(r.(inventory := r.inventory + 1))
    case InvalidAmount => Ok(r.(other := r.other + 1))
    case EmptyLiquidity => Ok(r.(other := r.other + 1))
    case _ => Err(error)
  }

  function Trade(sim: Sim, params: Params, slot: MarketSlot): Result<Sim, MathError> {
    match slot.flow
    case None => Ok(sim)
    case Some(flow) =>
      var event := FlowEvent(slot.slot, flow.side, flow.amountIn, slot.fairPrice);
      var r := sim.report.(attempted := sim.report.attempted + 1);
      match ReferenceQuote.QuoteExactIn(sim.state, params, flow.amountIn, flow.side == BaseToQuote)
      case Err(error) =>
        var counted :- CountRejection(r, error);
        Ok(sim.(report := counted))
      case Ok(quote) =>
        var fee :- FeeInQuote(event, quote.amountInLessFee);
        var edge :- TakerEdge(event, quote.amountOut);
        Ok(Filled(sim, r, quote, fee, edge))
  }

  function Filled(sim: Sim, r: Report, quote: Quote, fee: u64, edge: int): Sim {
    var counted := CountFill(r, quote.ageState);
    sim.(state := sim.state.(baseInventory := quote.newBase, quoteInventory := quote.newQuote),
         report := counted.(fees := Min(r.fees + fee, TWO_128 - 1), edge := SaturatingAddI128(r.edge, edge),
                            maxImbalanceBps := Max(r.maxImbalanceBps,
                                                   AbsImbalanceBps(quote.newBase, sim.state.targetBase))))
  }

  /** Reaching a slot: the clock moves and the age of the quote is noted. */
  function Arrive(sim: Sim, slot: u64): Sim {
    sim.(state := sim.state.(nowSlot := slot),
         report := sim.report.(maxAge := Max(sim.report.maxAge, SaturatingSub(slot, sim.state.publishSlot))))
  }

  /** One slot once its updates are published: land, swap, and land again if swaps go first. */
  function PlaySlot(sim: Sim, order: SameSlotOrder, params: Params, slot: MarketSlot): Result<Sim, MathError> {
    var traded :- Trade(Arrive(Land(sim, LandThrough(order, slot.slot)), slot.slot), params, slot);
    Ok(if order == SwapBeforeUpdate then Land(traded, slot.slot) else traded)
  }

  // ---- The market path ----

  function PublishOne(m: MarketSim, policy: Policy, draw: u64 -> bool, slot: MarketSlot): MarketSim {
    var r := m.sim.report.(sent := m.sim.report.sent + 1);
    var sim := if ShouldLand(policy, draw, m.nextUpdate) then
      m.sim.(report := r, pending := m.sim.pending
             + [Update(m.nextUpdate, SaturatingAdd64(m.nextUpdate, policy.latency), slot.fairPrice)])
    else m.sim.(report := r.(dropped := r.dropped + 1));
    MarketSim(sim, SaturatingAdd64(m.nextUpdate, policy.period))
  }

  /** Every update due by a slot. At the last slot number the publish clock cannot pass the
      slot, so the loop would not end. */
  function Publish(m: MarketSim, policy: Policy, draw: u64 -> bool, slot: MarketSlot): MarketSim
    requires policy.period > 0 && slot.slot < U64_MAX
    decreases U64_MAX - m.nextUpdate
  {
    if m.nextUpdate > slot.slot then m else Publish(PublishOne(m, policy, draw, slot), policy, draw, slot)
  }

  function MarketSlotStep(m: MarketSim, s: Scenario, draw: u64 -> bool, slot: MarketSlot): Result<MarketSim, MathError>
    requires s.policy.period > 0 && slot.slot < U64_MAX
  {
    var published := Publish(m, s.policy, draw, slot);
    var played :- PlaySlot(published.sim, s.policy.order, s.params, slot);
    Ok(MarketSim(played, published.nextUpdate))
  }

  predicate BeforeEnd(slots: seq<MarketSlot>) {
    forall i :: 0 <= i < |slots| ==> slots[i].slot < U64_MAX
  }

  predicate GoesBack(slots: seq<MarketSlot>) {
    |slots| >= 2 && slots[|slots| - 1].slot < slots[|slots| - 2].slot
  }

  /** The whole market path, slot after slot; a slot that goes back ends it. */
  function MarketPath(s: Scenario, draw: u64 -> bool, slots: seq<MarketSlot>): Result<MarketSim, MathError>
    requires s.policy.period > 0 && BeforeEnd(slots)
  {
    if slots == [] then Ok(MarketSim(Start(s), s.policy.period))
    else
      var m :- MarketPath(s, draw, slots[..|slots| - 1]);
      if GoesBack(slots) then Err(InvalidConfig) else MarketSlotStep(m, s, draw, slots[|slots| - 1])
  }

  function MarketOutcome(s: Scenario, draw: u64 -> bool, slots: seq<MarketSlot>): Result<Sim, MathError>
    requires BeforeEnd(slots)
  {
    var _ :- ValidatePolicy(s.policy);
    var m :- MarketPath(s, draw, slots);
    Ok(m.sim)
  }

  // ---- The replay ----

  datatype ReplaySim = ReplaySim(sim: Sim, index: nat)

  /** Recorded updates go forward, and none lands before it is published. */
  predicate WellRecorded(updates: seq<Recorded>) {
    && (forall i :: 0 < i < |updates| ==> updates[i - 1].publishSlot <= updates[i].publishSlot)
    && (forall i :: 0 <= i < |updates| && updates[i].landingSlot.Some? ==>
          updates[i].publishSlot <= updates[i].landingSlot.value)
  }

  function Enqueue(sim: Sim, update: Recorded): Sim {
    var r := sim.report.(sent := sim.report.sent + 1);
    match update.landingSlot
    case Some(landing) =>
      sim.(report := r, pending := sim.pending + [Update(update.publishSlot, landing, update.midPrice)])
    case None => sim.(report := r.(dropped := r.dropped + 1))
  }

  function PublishRecorded(p: ReplaySim, updates: seq<Recorded>, slot: u64): ReplaySim
    decreases |updates| - p.index
  {
    if p.index >= |updates| || updates[p.index].publishSlot > slot then p
    else PublishRecorded(ReplaySim(Enqueue(p.sim, updates[p.index]), p.index + 1), updates, slot)
  }

  function ReplaySlotStep(p: ReplaySim, s: Scenario, updates: seq<Recorded>, slot: MarketSlot)
    : Result<ReplaySim, MathError>
  {
    var published := PublishRecorded(p, updates, slot.slot);
    var played :- PlaySlot(published.sim, s.policy.order, s.params, slot);
    Ok(ReplaySim(played, published.index))
  }

  function ReplayPath(s: Scenario, updates: seq<Recorded>, slots: seq<MarketSlot>): Result<ReplaySim, MathError> {
    if slots == [] then Ok(ReplaySim(Start(s), 0))
    else
      var p :- ReplayPath(s, updates, slots[..|slots| - 1]);
      if GoesBack(slots) then Err(InvalidConfig) else ReplaySlotStep(p, s, updates, slots[|slots| - 1])
  }

  function ReplayOutcome(s: Scenario, updates: seq<Recorded>, slots: seq<MarketSlot>): Result<Sim, MathError> {
    var _ :- ValidatePolicy(s.policy);
    if !WellRecorded(updates) then Err(InvalidConfig)
    else
      var p :- ReplayPath(s, updates, slots);
      Ok(p.sim)
  }

  // ---- The loops ----

  /** Keeps the updates still in flight, in order, and lets the last landed one set the price. */
  method ApplyLandedUpdates(sim: Sim, through: u64) returns (r: Sim)
    ensures r == Land(sim, through)
  {
    var landed := 0;
    var latest: Option<Update> := None;
    var kept: seq<Update> := [];
    for i := 0 to |sim.pending|
      invariant kept == Waiting(sim.pending[..i], through)
      invariant landed == |Landed(sim.pending[..i], through)|
      invariant latest == if landed == 0 then None else Some(Landed(sim.pending[..i], through)[landed - 1])
    {
      assert sim.pending[..i + 1][..i] == sim.pending[..i];
      if sim.pending[i].landingSlot <= through {
        landed := landed + 1;
        latest := Some(sim.pending[i]);
      } else {
        kept := kept + [sim.pending[i]];
      }
    }
    assert sim.pending[..|sim.pending|] == sim.pending;
    r := sim.(pending := kept, report := sim.report.(landed := sim.report.landed + landed));
    if latest.Some? {
      r := r.(state := r.state.(midPrice := latest.value.midPrice, publishSlot := latest.value.publishSlot));
    }
  }

  function Rejections(r: Report): nat {
    r.stale + r.shielded + r.inventory + r.other
  }

  /** An order is one attempt that ends as one fill or as one rejection; without an order
      nothing is counted. */
  predicate OneAttempt(before: Report, after: Report, ordered: bool) {
    && after.attempted == before.attempted + (if ordered then 1 else 0)
    && after.filled + Rejections(after) == before.filled + Rejections(before) + (if ordered then 1 else 0)
    && before.filled <= after.filled && Rejections(before) <= Rejections(after)
    && after.sent == before.sent && after.landed == before.landed && after.dropped == before.dropped
  }

  method ExecuteSlot(sim: Sim, params: Params, slot: MarketSlot) returns (r: Result<Sim, MathError>)
    ensures r == Trade(sim, params, slot)
    ensures r.Ok? ==> r.value.pending == sim.pending && OneAttempt(sim.report, r.value.report, slot.flow.Some?)
  {
    hide ReferenceQuote.QuoteExactIn, FeeInQuote, TakerEdge, AbsImbalanceBps, SaturatingAddI128;
    if slot.flow.None? {
      return Ok(sim);
    }
    var flow := slot.flow.value;
    var report := sim.report.(attempted := sim.report.attempted + 1);
    var event := FlowEvent(slot.slot, flow.side, flow.amountIn, slot.fairPrice);
    var quoted := ReferenceQuote.QuoteExactIn(sim.state, params, flow.amountIn, flow.side == BaseToQuote);
    match quoted
    case Ok(quote) =>
      report := CountFill(report, quote.ageState);
      var fee := FeeInQuote(event, quote.amountInLessFee);
      if fee.Err? {
        return Err(fee.error);
      }
      var edge := TakerEdge(event, quote.amountOut);
      if edge.Err? {
        return Err(edge.error);
      }
      report := report.(fees := Min(report.fees + fee.value, TWO_128 - 1),
                        edge := SaturatingAddI128(report.edge, edge.value));
      var state := sim.state.(baseInventory := quote.newBase, quoteInventory := quote.newQuote);
      report := report.(maxImbalanceBps := Max(report.maxImbalanceBps,
                                               AbsImbalanceBps(state.baseInventory, state.targetBase)));
      return Ok(sim.(state := state, report := report));
    case Err(error) =>
      var counted := CountRejection(report, error);
      if counted.Err? {
        return Err(counted.error);
      }
      return Ok(sim.(report := counted.value));
  }

  method FinishSlot(sim: Sim, order: SameSlotOrder, params: Params, slot: MarketSlot)
    returns (r: Result<Sim, MathError>)
    ensures r == PlaySlot(sim, order, params, slot)
  {
    hide Land, Trade;
    var current := ApplyLandedUpdates(sim, LandThrough(order, slot.slot));
    current := current.(state := current.state.(nowSlot := slot.slot));
    var age := SaturatingSub(current.state.nowSlot, current.state.publishSlot);
    current := current.(report := current.report.(maxAge := Max(current.report.maxAge, age)));
    r := ExecuteSlot(current, params, slot);
    if r.Ok? && order == SwapBeforeUpdate {
      current := ApplyLandedUpdates(r.value, slot.slot);
      r := Ok(current);
    }
  }

  method SimulateMarketPath(s: Scenario, draw: u64 -> bool, slots: seq<MarketSlot>) returns (r: Result<Sim, MathError>)
    requires BeforeEnd(slots)
    ensures r == MarketOutcome(s, draw, slots)
  {
    hide PlaySlot, ShouldLand, Start;
    if ValidatePolicy(s.policy).Err? {
      return Err(InvalidConfig);
    }
    var sim, nextUpdate := Start(s), s.policy.period;
    var previous: Option<u64> := None;
    for i := 0 to |slots|
      invariant previous == if i == 0 then None else Some(slots[i - 1].slot)
      invariant MarketPath(s, draw, slots[..i]) == Ok(MarketSim(sim, nextUpdate))
    {
      var slot := slots[i];
      MarketPrefix(s, draw, slots, i);
      if previous.Some? && slot.slot < previous.value {
        MarketErrorSticks(s, draw, slots, i + 1);
        return Err(InvalidConfig);
      }
      previous := Some(slot.slot);
      sim, nextUpdate := PublishDue(sim, nextUpdate, s.policy, draw, slot);
      var played := FinishSlot(sim, s.policy.order, s.params, slot);
      if played.Err? {
        MarketErrorSticks(s, draw, slots, i + 1);
        return Err(played.error);
      }
      sim := played.value;
    }
    assert slots[..|slots|] == slots;
    return Ok(sim);
  }

  method PublishDue(before: Sim, nextBefore: u64, policy: Policy, draw: u64 -> bool, slot: MarketSlot)
    returns (sim: Sim, nextUpdate: u64)
    requires policy.period > 0 && slot.slot < U64_MAX
    ensures MarketSim(sim, nextUpdate) == Publish(MarketSim(before, nextBefore), policy, draw, slot)
  {
    sim, nextUpdate := before, nextBefore;
    while nextUpdate <= slot.slot
      invariant Publish(MarketSim(sim, nextUpdate), policy, draw, slot)
             == Publish(MarketSim(before, nextBefore), policy, draw, slot)
      decreases U64_MAX - nextUpdate
    {
      var report := sim.report.(sent := sim.report.sent + 1);
      if ShouldLand(policy, draw, nextUpdate) {
        var update := Update(nextUpdate, SaturatingAdd64(nextUpdate, policy.latency), slot.fairPrice);
        sim := sim.(report := report, pending := sim.pending + [update]);
      } else {
        sim := sim.(report := report.(dropped := report.dropped + 1));
      }
      nextUpdate := SaturatingAdd64(nextUpdate, policy.period);
    }
  }

  lemma MarketPrefix(s: Scenario, draw: u64 -> bool, slots: seq<MarketSlot>, i: nat)
    requires s.policy.period > 0 && BeforeEnd(slots) && i < |slots|
    ensures GoesBack(slots[..i + 1]) <==> i > 0 && slots[i].slot < slots[i - 1].slot
    ensures var before, after := MarketPath(s, draw, slots[..i]), MarketPath(s, draw, slots[..i + 1]);
            if before.Err? then after == before
            else if GoesBack(slots[..i + 1]) then after == Err(InvalidConfig)
            else after == MarketSlotStep(before.value, s, draw, slots[i])
  {
    assert slots[..i + 1][..i] == slots[..i];
  }

  lemma {:induction false} MarketErrorSticks(s: Scenario, draw: u64 -> bool, slots: seq<MarketSlot>, i: nat)
    requires s.policy.period > 0 && BeforeEnd(slots) && i <= |slots| && MarketPath(s, draw, slots[..i]).Err?
    ensures MarketPath(s, draw, slots) == MarketPath(s, draw, slots[..i])
    decreases |slots| - i
  {
    if i < |slots| {
      MarketPrefix(s, draw, slots, i);
      MarketErrorSticks(s, draw, slots, i + 1);
    } else {
      assert slots[..i] == slots;
    }
  }

  method ValidateRecorded(updates: seq<Recorded>) returns (r: Result<(), MathError>)
    ensures r == if WellRecorded(updates) then Ok(()) else Err(InvalidConfig)
  {
    var previous: Option<u64> := None;
    for i := 0 to |updates|
      invariant previous == if i == 0 then None else Some(updates[i - 1].publishSlot)
      invariant forall k :: 0 < k < i ==> updates[k - 1].publishSlot <= updates[k].publishSlot
      invariant forall k :: 0 <= k < i && updates[k].landingSlot.Some? ==>
                  updates[k].publishSlot <= updates[k].landingSlot.value
    {
      var update := updates[i];
      if previous.Some? && update.publishSlot < previous.value {
        return Err(InvalidConfig);
      }
      if update.landingSlot.Some? && update.landingSlot.value < update.publishSlot {
        return Err(InvalidConfig);
      }
      previous := Some(update.publishSlot);
    }
    return Ok(());
  }

  method SimulateReplay(s: Scenario, updates: seq<Recorded>, slots: seq<MarketSlot>) returns (r: Result<Sim, MathError>)
    ensures r == ReplayOutcome(s, updates, slots)
  {
    hide PlaySlot, Start, WellRecorded;
    if ValidatePolicy(s.policy).Err? {
      return Err(InvalidConfig);
    }
    var recorded := ValidateRecorded(updates);
    if recorded.Err? {
      return Err(recorded.error);
    }
    var sim, index: nat := Start(s), 0;
    var previous: Option<u64> := None;
    for i := 0 to |slots|
      invariant previous == if i == 0 then None else Some(slots[i - 1].slot)
      invariant ReplayPath(s, updates, slots[..i]) == Ok(ReplaySim(sim, index))
    {
      var slot := slots[i];
      ReplayPrefix(s, updates, slots, i);
      if previous.Some? && slot.slot < previous.value {
        ReplayErrorSticks(s, updates, slots, i + 1);
        return Err(InvalidConfig);
      }
      previous := Some(slot.slot);
      sim, index := PublishRecordedDue(sim, index, updates, slot.slot);
      var played := FinishSlot(sim, s.policy.order, s.params, slot);
      if played.Err? {
        ReplayErrorSticks(s, updates, slots, i + 1);
        return Err(played.error);
      }
      sim := played.value;
    }
    assert slots[..|slots|] == slots;
    return Ok(sim);
  }

  method PublishRecordedDue(before: Sim, indexBefore: nat, updates: seq<Recorded>, slot: u64)
    returns (sim: Sim, index: nat)
    ensures ReplaySim(sim, index) == PublishRecorded(ReplaySim(before, indexBefore), updates, slot)
  {
    sim, index := before, indexBefore;
    while index < |updates| && updates[index].publishSlot <= slot
      invariant PublishRecorded(ReplaySim(sim, index), updates, slot)
             == PublishRecorded(ReplaySim(before, indexBefore), updates, slot)
    {
      var update := updates[index];
      var report := sim.report.(sent := sim.report.sent + 1);
      match update.landingSlot {
        case Some(landing) =>
          var queued := Update(update.publishSlot, landing, update.midPrice);
          sim := sim.(report := report, pending := sim.pending + [queued]);
        case None =>
          sim := sim.(report := report.(dropped := report.dropped + 1));
      }
      index := index + 1;
    }
  }

  lemma ReplayPrefix(s: Scenario, updates: seq<Recorded>, slots: seq<MarketSlot>, i: nat)
    requires i < |slots|
    ensures GoesBack(slots[..i + 1]) <==> i > 0 && slots[i].slot < slots[i - 1].slot
    ensures var before, after := ReplayPath(s, updates, slots[..i]), ReplayPath(s, updates, slots[..i + 1]);
            if before.Err? then after == before
            else if GoesBack(slots[..i + 1]) then after == Err(InvalidConfig)
            else after == ReplaySlotStep(before.value, s, updates, slots[i])
  {
    assert slots[..i + 1][..i] == slots[..i];
  }

  lemma {:induction false} ReplayErrorSticks(s: Scenario, updates: seq<Recorded>, slots: seq<MarketSlot>, i: nat)
    requires i <= |slots| && ReplayPath(s, updates, slots[..i]).Err?
    ensures ReplayPath(s, updates, slots) == ReplayPath(s, updates, slots[..i])
    decreases |slots| - i
  {
    if i < |slots| {
      ReplayPrefix(s, updates, slots, i);
      ReplayErrorSticks(s, updates, slots, i + 1);
    } else {
      assert slots[..i] == slots;
    }
  }
}
