/** When a replay can take the price back: an older update that lands after a newer one. The
    exact condition on the recording under which no sorted slot path ever moves the publish
    slot in use back. */
module ReplayOrder {
  import opened Numbers
  import opened ReferenceQuote
  import opened ConfigCompiler
  import opened QuoteLanding
  import opened LandingLaws

  // ---- The queue of a replay ----

  predicate LandsWithin(update: Recorded, after: int, through: int) {
    update.landingSlot.Some? && after < update.landingSlot.value <= through
  }

  function Queued(update: Recorded): Update
    requires update.landingSlot.Some?
  {
    Update(update.publishSlot, update.landingSlot.value, update.midPrice)
  }

  /** Of the first `n` updates, those still in flight when everything due by `through` has landed. */
  function InFlight(updates: seq<Recorded>, n: nat, through: int): seq<Update>
    requires n <= |updates|
  {
    if n == 0 then []
    else if updates[n - 1].landingSlot.Some? && updates[n - 1].landingSlot.value > through then
      InFlight(updates, n - 1, through) + [Queued(updates[n - 1])]
    else InFlight(updates, n - 1, through)
  }

  /** Of the first `n` updates, those that land after one slot and by another. */
  function Batch(updates: seq<Recorded>, n: nat, after: int, through: int): seq<Update>
    requires n <= |updates|
  {
    if n == 0 then []
    else if LandsWithin(updates[n - 1], after, through) then
      Batch(updates, n - 1, after, through) + [Queued(updates[n - 1])]
    else Batch(updates, n - 1, after, through)
  }

  lemma {:induction false} LandInFlight(updates: seq<Recorded>, n: nat, before: int, through: u64)
    requires n <= |updates|
    ensures var pending := InFlight(updates, n, before);
            && Landed(pending, through) == Batch(updates, n, before, through)
            && Waiting(pending, through) == InFlight(updates, n, Max(before, through))
  {
    if n > 0 {
      LandInFlight(updates, n - 1, before, through);
      var pending := InFlight(updates, n, before);
      var last := updates[n - 1];
      if last.landingSlot.Some? && last.landingSlot.value > before {
        assert pending[..|pending| - 1] == InFlight(updates, n - 1, before);
        LandedUnfolds(pending, through);
      }
    }
  }

  lemma {:induction false} EmptyBatch(updates: seq<Recorded>, n: nat, after: int, through: int)
    requires n <= |updates| && through <= after
    ensures Batch(updates, n, after, through) == []
  {
    if n > 0 {
      EmptyBatch(updates, n - 1, after, through);
    }
  }

  /** The last update of a batch is the last recorded one that lands in its slots. */
  lemma {:induction false} BatchLast(updates: seq<Recorded>, n: nat, after: int, through: int) returns (j: nat)
    requires n <= |updates|
    ensures var batch := Batch(updates, n, after, through);
            if batch == [] then forall k :: 0 <= k < n ==> !LandsWithin(updates[k], after, through)
            else
              && j < n && LandsWithin(updates[j], after, through)
              && batch[|batch| - 1] == Queued(updates[j])
              && forall k :: j < k < n ==> !LandsWithin(updates[k], after, through)
  {
    j := 0;
    if n > 0 {
      if LandsWithin(updates[n - 1], after, through) {
        j := n - 1;
      } else {
        j := BatchLast(updates, n - 1, after, through);
      }
    }
  }

  // ---- One slot ----

  lemma {:induction false} PublishedInOrder(updates: seq<Recorded>, i: nat, j: nat)
    requires WellRecorded(updates) && i <= j < |updates|
    ensures updates[i].publishSlot <= updates[j].publishSlot
  {
    if i < j {
      PublishedInOrder(updates, i, j - 1);
    }
  }

  /** The replay has queued exactly what was published by a slot and has not landed by it. */
  predicate Tracks(p: ReplaySim, updates: seq<Recorded>, last: int) {
    && p.index <= |updates|
    && p.sim.pending == InFlight(updates, p.index, last)
    && (p.index < |updates| ==> updates[p.index].publishSlot > last)
    && Balanced(p.sim)
  }

  lemma {:induction false} PublishTracks(p: ReplaySim, updates: seq<Recorded>, slot: u64, last: int)
    requires WellRecorded(updates) && Tracks(p, updates, last) && last <= slot
    ensures var next := PublishRecorded(p, updates, slot);
            && p.index <= next.index <= |updates| && next.sim.state == p.sim.state && Balanced(next.sim)
            && next.sim.pending == InFlight(updates, next.index, last)
            && (next.index < |updates| ==> updates[next.index].publishSlot > slot)
    decreases |updates| - p.index
  {
    hide WellRecorded;
    if p.index < |updates| && updates[p.index].publishSlot <= slot {
      var update := updates[p.index];
      LandsAfterPublish(updates, p.index);
      if p.index + 1 < |updates| {
        PublishedInOrder(updates, p.index, p.index + 1);
      }
      PublishTracks(ReplaySim(Enqueue(p.sim, update), p.index + 1), updates, slot, last);
    }
  }

  lemma LandsAfterPublish(updates: seq<Recorded>, i: nat)
    requires WellRecorded(updates) && i < |updates|
    ensures updates[i].landingSlot.Some? ==> updates[i].publishSlot <= updates[i].landingSlot.value
  {
  }

  /** The price in use and the slot it was published in. */
  datatype Price = Price(publishSlot: u64, midPrice: u128)

  function PriceOf(state: State): Price {
    Price(state.publishSlot, state.midPrice)
  }

  /** The price in use after a batch has landed. */
  function PricedBy(price: Price, batch: seq<Update>): Price {
    if batch == [] then price else Price(batch[|batch| - 1].publishSlot, batch[|batch| - 1].midPrice)
  }

  /** A slot lands its queue in one batch or, when swaps go first, in two. */
  lemma PlayPublishes(sim: Sim, order: SameSlotOrder, params: Params, slot: MarketSlot, updates: seq<Recorded>,
                      n: nat, last: int)
    requires n <= |updates| && last <= slot.slot && sim.pending == InFlight(updates, n, last) && Balanced(sim)
    requires PlaySlot(sim, order, params, slot).Ok?
    ensures var next, swap := PlaySlot(sim, order, params, slot).value, Max(last, LandThrough(order, slot.slot));
            && next.pending == InFlight(updates, n, slot.slot) && Balanced(next)
            && PriceOf(next.state)
               == PricedBy(PricedBy(PriceOf(sim.state), Batch(updates, n, last, swap)),
                           Batch(updates, n, swap, slot.slot))
  {
    var through := LandThrough(order, slot.slot);
    var swap := Max(last, through);
    LandInFlight(updates, n, last, through);
    LandBalances(sim, through);
    BatchCapped(updates, n, last, through);
    var arrived := Arrive(Land(sim, through), slot.slot);
    assert Balanced(arrived);
    TradeBalances(arrived, params, slot);
    var traded := Trade(arrived, params, slot).value;
    hide Trade, Balanced, Landed, Waiting, Batch, InFlight;
    if order == SwapBeforeUpdate {
      LandInFlight(updates, n, swap, slot.slot);
      LandBalances(traded, slot.slot);
    } else {
      EmptyBatch(updates, n, swap, slot.slot);
    }
  }

  lemma BatchCapped(updates: seq<Recorded>, n: nat, last: int, through: int)
    requires n <= |updates|
    ensures Batch(updates, n, last, through) == Batch(updates, n, last, Max(last, through))
  {
    if through < last {
      EmptyBatch(updates, n, last, through);
      EmptyBatch(updates, n, last, last);
    }
  }

  function LastOf(slots: seq<MarketSlot>): int {
    if slots == [] then -1 else slots[|slots| - 1].slot
  }

  /** Over every replay path the queue is what the recording says it should be. */
  lemma {:induction false} ReplayTracks(s: Scenario, updates: seq<Recorded>, slots: seq<MarketSlot>)
    requires WellRecorded(updates) && ReplayPath(s, updates, slots).Ok?
    ensures Tracks(ReplayPath(s, updates, slots).value, updates, LastOf(slots))
  {
    if slots == [] {
      NothingQueued(s, updates);
    } else {
      var init, slot := slots[..|slots| - 1], slots[|slots| - 1];
      ReplayTracks(s, updates, init);
      hide WellRecorded, PlaySlot;
      StepTracks(ReplayPath(s, updates, init).value, s, updates, slot, LastOf(init));
    }
  }

  lemma NothingQueued(s: Scenario, updates: seq<Recorded>)
    ensures Tracks(ReplaySim(Start(s), 0), updates, -1)
  {
    hide AbsImbalanceBps;
  }

  lemma StepTracks(p: ReplaySim, s: Scenario, updates: seq<Recorded>, slot: MarketSlot, last: int)
    requires WellRecorded(updates) && Tracks(p, updates, last) && last <= slot.slot
    requires ReplaySlotStep(p, s, updates, slot).Ok?
    ensures var next := ReplaySlotStep(p, s, updates, slot).value;
            var swap := Max(last, LandThrough(s.policy.order, slot.slot));
            && Tracks(next, updates, slot.slot)
            && PriceOf(next.sim.state)
               == PricedBy(PricedBy(PriceOf(p.sim.state), Batch(updates, next.index, last, swap)),
                           Batch(updates, next.index, swap, slot.slot))
  {
    hide WellRecorded, PlaySlot, PublishRecorded, InFlight, Batch, Balanced;
    PublishTracks(p, updates, slot.slot, last);
    var published := PublishRecorded(p, updates, slot.slot);
    PlayPublishes(published.sim, s.policy.order, s.params, slot, updates, published.index, last);
  }

  // ---- Recordings that keep their order ----

  predicate LandedBy(updates: seq<Recorded>, i: int, slot: int) {
    0 <= i < |updates| && updates[i].landingSlot.Some? && updates[i].landingSlot.value <= slot
  }

  /** No later recorded update lands in the same slot. */
  predicate LastAtItsSlot(updates: seq<Recorded>, j: int)
    requires 0 <= j < |updates|
  {
    forall k :: j < k < |updates| ==> updates[k].landingSlot != updates[j].landingSlot
  }

  /** Up to a slot, the last recorded update of each landing slot was published no earlier than
      every update that landed before it. */
  ghost predicate InOrderBy(updates: seq<Recorded>, slot: int) {
    forall i, j :: LandedBy(updates, i, slot) && LandedBy(updates, j, slot)
                   && updates[i].landingSlot.value < updates[j].landingSlot.value && LastAtItsSlot(updates, j) ==>
      updates[i].publishSlot <= updates[j].publishSlot
  }

  ghost predicate InOrder(updates: seq<Recorded>) {
    InOrderBy(updates, U64_MAX)
  }

  /** The publish slot in use is the newest of all that have landed, or still the initial one. */
  ghost predicate Newest(updates: seq<Recorded>, slot: int, publishSlot: u64) {
    && (forall i :: LandedBy(updates, i, slot) ==> updates[i].publishSlot <= publishSlot)
    && (publishSlot == 0 || exists i :: LandedBy(updates, i, slot) && updates[i].publishSlot == publishSlot)
  }

  /** In an ordered recording a batch brings the newest price. */
  lemma BatchIsNewest(updates: seq<Recorded>, n: nat, after: int, through: int, price: Price)
    requires WellRecorded(updates) && n <= |updates| && after <= through
    requires forall i :: LandedBy(updates, i, through) ==> i < n
    requires InOrderBy(updates, through) && Newest(updates, after, price.publishSlot)
    ensures var now := PricedBy(price, Batch(updates, n, after, through)).publishSlot;
            price.publishSlot <= now && Newest(updates, through, now)
  {
    var publishSlot := price.publishSlot;
    var batch := Batch(updates, n, after, through);
    var j := BatchLast(updates, n, after, through);
    hide Batch, WellRecorded;
    if batch == [] {
      NewestStays(updates, after, through, publishSlot);
    } else {
      assert LastAtItsSlot(updates, j) by {
        forall k | j < k < |updates|
          ensures updates[k].landingSlot != updates[j].landingSlot
        {
          assert LandedBy(updates, k, through) ==> k < n;
        }
      }
      assert LandedBy(updates, j, through);
      forall i | LandedBy(updates, i, through)
        ensures updates[i].publishSlot <= updates[j].publishSlot
      {
        if LandedBy(updates, i, after) {
          assert updates[i].landingSlot.value < updates[j].landingSlot.value;
        } else {
          assert LandsWithin(updates[i], after, through);
          PublishedInOrder(updates, i, j);
        }
      }
      if publishSlot != 0 {
        var i :| LandedBy(updates, i, after) && updates[i].publishSlot == publishSlot;
        assert LandedBy(updates, i, through);
      }
    }
  }

  lemma NewestStays(updates: seq<Recorded>, after: int, through: int, publishSlot: u64)
    requires after <= through && Newest(updates, after, publishSlot)
    requires forall k :: 0 <= k < |updates| && LandedBy(updates, k, through) ==> LandedBy(updates, k, after)
    ensures Newest(updates, through, publishSlot)
  {
    if publishSlot != 0 {
      var i :| LandedBy(updates, i, after) && updates[i].publishSlot == publishSlot;
      assert LandedBy(updates, i, through);
    }
  }

  lemma OrderedEarlier(updates: seq<Recorded>, early: int, late: int)
    requires early <= late && InOrderBy(updates, late)
    ensures InOrderBy(updates, early)
  {
    forall i, j | LandedBy(updates, i, early) && LandedBy(updates, j, early)
                  && updates[i].landingSlot.value < updates[j].landingSlot.value && LastAtItsSlot(updates, j)
      ensures updates[i].publishSlot <= updates[j].publishSlot
    {
      assert LandedBy(updates, i, late) && LandedBy(updates, j, late);
    }
  }

  /** Everything that lands by a slot has been published by it. */
  lemma LandedIsPublished(updates: seq<Recorded>, n: nat, slot: int)
    requires WellRecorded(updates) && n <= |updates| && (n < |updates| ==> updates[n].publishSlot > slot)
    ensures forall i :: LandedBy(updates, i, slot) ==> i < n
  {
    forall i | LandedBy(updates, i, slot)
      ensures i < n
    {
      LandsAfterPublish(updates, i);
      if n <= i {
        PublishedInOrder(updates, n, i);
      }
    }
  }

  lemma StepIsNewest(p: ReplaySim, s: Scenario, updates: seq<Recorded>, slot: MarketSlot, last: int)
    requires WellRecorded(updates) && Tracks(p, updates, last) && last <= slot.slot
    requires InOrderBy(updates, slot.slot) && Newest(updates, last, p.sim.state.publishSlot)
    requires ReplaySlotStep(p, s, updates, slot).Ok?
    ensures var next := ReplaySlotStep(p, s, updates, slot).value;
            && p.sim.state.publishSlot <= next.sim.state.publishSlot
            && Newest(updates, slot.slot, next.sim.state.publishSlot)
  {
    hide WellRecorded, InOrderBy, Newest, ReplaySlotStep, Batch;
    StepTracks(p, s, updates, slot, last);
    var next := ReplaySlotStep(p, s, updates, slot).value;
    var swap := Max(last, LandThrough(s.policy.order, slot.slot));
    LandedIsPublished(updates, next.index, slot.slot);
    OrderedEarlier(updates, swap, slot.slot);
    BatchIsNewest(updates, next.index, last, swap, PriceOf(p.sim.state));
    BatchIsNewest(updates, next.index, swap, slot.slot,
                  PricedBy(PriceOf(p.sim.state), Batch(updates, next.index, last, swap)));
  }

  lemma {:induction false} ReplayIsNewest(s: Scenario, updates: seq<Recorded>, slots: seq<MarketSlot>)
    requires WellRecorded(updates) && ReplayPath(s, updates, slots).Ok? && InOrderBy(updates, LastOf(slots))
    ensures Newest(updates, LastOf(slots), ReplayPath(s, updates, slots).value.sim.state.publishSlot)
  {
    if slots == [] {
      hide AbsImbalanceBps;
    } else {
      var init, slot := slots[..|slots| - 1], slots[|slots| - 1];
      hide WellRecorded, InOrderBy, Newest, ReplaySlotStep;
      OrderedEarlier(updates, LastOf(init), LastOf(slots));
      ReplayIsNewest(s, updates, init);
      ReplayTracks(s, updates, init);
      StepIsNewest(ReplayPath(s, updates, init).value, s, updates, slot, LastOf(init));
    }
  }

  // ---- Which price is in use ----

  /** The price in use after everything due by a slot has landed: the initial one when nothing has,
      and otherwise that of one landed update, the last one recorded for its landing slot. */
  ghost predicate InUse(price: Price, s: Scenario, updates: seq<Recorded>, slot: int, j: Option<nat>) {
    match j
    case None => price == Price(0, s.midPrice) && forall i :: !LandedBy(updates, i, slot)
    case Some(i) =>
      && LandedBy(updates, i, slot) && LastAtItsSlot(updates, i)
      && price == Price(updates[i].publishSlot, updates[i].midPrice)
  }

  lemma BatchInUse(s: Scenario, updates: seq<Recorded>, n: nat, after: int, through: int, price: Price, j: Option<nat>)
    returns (now: Option<nat>)
    requires WellRecorded(updates) && n <= |updates| && after <= through
    requires forall i :: LandedBy(updates, i, through) ==> i < n
    requires InUse(price, s, updates, after, j)
    ensures InUse(PricedBy(price, Batch(updates, n, after, through)), s, updates, through, now)
  {
    var batch := Batch(updates, n, after, through);
    var last := BatchLast(updates, n, after, through);
    hide Batch, WellRecorded;
    if batch == [] {
      now := j;
      forall i | j.None?
        ensures !LandedBy(updates, i, through)
      {
        assert !LandedBy(updates, i, after);
        assert 0 <= i < n ==> !LandsWithin(updates[i], after, through);
      }
    } else {
      now := Some(last);
      forall k | last < k < |updates|
        ensures updates[k].landingSlot != updates[last].landingSlot
      {
        assert LandedBy(updates, k, through) ==> k < n;
      }
    }
  }

  lemma NothingInUse(s: Scenario, updates: seq<Recorded>)
    ensures InUse(PriceOf(Start(s).state), s, updates, -1, None)
  {
    hide AbsImbalanceBps;
  }

  /** Over every replay, publish slot and price in use belong together: they are the two of one
      recorded update that has landed, the last one recorded for its landing slot, or the
      initial ones as long as nothing has. */
  lemma {:induction false} ReplayPriceIsRecorded(s: Scenario, updates: seq<Recorded>, slots: seq<MarketSlot>)
    returns (j: Option<nat>)
    requires WellRecorded(updates) && ReplayPath(s, updates, slots).Ok?
    ensures InUse(PriceOf(ReplayPath(s, updates, slots).value.sim.state), s, updates, LastOf(slots), j)
  {
    if slots == [] {
      NothingInUse(s, updates);
      j := None;
    } else {
      var init, slot := slots[..|slots| - 1], slots[|slots| - 1];
      j := ReplayPriceIsRecorded(s, updates, init);
      ReplayTracks(s, updates, init);
      hide WellRecorded, ReplaySlotStep, InUse, Batch, Tracks;
      j := StepInUse(ReplayPath(s, updates, init).value, s, updates, slot, LastOf(init), j);
    }
  }

  lemma StepInUse(p: ReplaySim, s: Scenario, updates: seq<Recorded>, slot: MarketSlot, last: int, before: Option<nat>)
    returns (j: Option<nat>)
    requires WellRecorded(updates) && Tracks(p, updates, last) && last <= slot.slot
    requires ReplaySlotStep(p, s, updates, slot).Ok? && InUse(PriceOf(p.sim.state), s, updates, last, before)
    ensures InUse(PriceOf(ReplaySlotStep(p, s, updates, slot).value.sim.state), s, updates, slot.slot, j)
  {
    hide WellRecorded, ReplaySlotStep, InUse, Batch;
    StepTracks(p, s, updates, slot, last);
    var next := ReplaySlotStep(p, s, updates, slot).value;
    var swap := Max(last, LandThrough(s.policy.order, slot.slot));
    LandedIsPublished(updates, next.index, slot.slot);
    assert forall i :: LandedBy(updates, i, swap) ==> LandedBy(updates, i, slot.slot);
    j := BatchInUse(s, updates, next.index, last, swap, PriceOf(p.sim.state), before);
    j := BatchInUse(s, updates, next.index, swap, slot.slot,
                    PricedBy(PriceOf(p.sim.state), Batch(updates, next.index, last, swap)), j);
  }

  // ---- The exact condition ----

  /** The publish slot in use after a path, when the path can be replayed. */
  function PublishAfter(s: Scenario, updates: seq<Recorded>, slots: seq<MarketSlot>): Option<u64> {
    match ReplayPath(s, updates, slots)
    case Err(_) => None
    case Ok(p) => Some(p.sim.state.publishSlot)
  }

  /** On no slot path does the last slot take the publish slot back. */
  ghost predicate NeverMovesBack(s: Scenario, updates: seq<Recorded>) {
    forall slots: seq<MarketSlot> :: slots != [] && PublishAfter(s, updates, slots).Some? ==>
      var before := PublishAfter(s, updates, slots[..|slots| - 1]);
      before.Some? && before.value <= PublishAfter(s, updates, slots).value
  }

  lemma OrderedNeverMovesBack(s: Scenario, updates: seq<Recorded>, slots: seq<MarketSlot>)
    requires WellRecorded(updates) && InOrder(updates) && slots != [] && PublishAfter(s, updates, slots).Some?
    ensures var before := PublishAfter(s, updates, slots[..|slots| - 1]);
            before.Some? && before.value <= PublishAfter(s, updates, slots).value
  {
    var init, slot := slots[..|slots| - 1], slots[|slots| - 1];
    hide WellRecorded, InOrderBy, Newest, ReplaySlotStep;
    OrderedEarlier(updates, LastOf(init), U64_MAX);
    OrderedEarlier(updates, slot.slot, U64_MAX);
    ReplayIsNewest(s, updates, init);
    ReplayTracks(s, updates, init);
    StepIsNewest(ReplayPath(s, updates, init).value, s, updates, slot, LastOf(init));
  }

  /** The first slot at which the order breaks, with a pair that breaks it. */
  lemma {:induction false} FirstDisorder(updates: seq<Recorded>, slot: nat) returns (first: nat, i: int, j: int)
    requires !InOrderBy(updates, slot)
    ensures 0 < first <= slot && InOrderBy(updates, first - 1)
    ensures LandedBy(updates, i, first - 1) && LandedBy(updates, j, first)
            && updates[j].landingSlot == Some(first as u64)
    ensures LastAtItsSlot(updates, j) && updates[i].publishSlot > updates[j].publishSlot
  {
    if slot > 0 && !InOrderBy(updates, slot - 1) {
      first, i, j := FirstDisorder(updates, slot - 1);
    } else {
      first := slot;
      i, j :| LandedBy(updates, i, slot) && LandedBy(updates, j, slot)
              && updates[i].landingSlot.value < updates[j].landingSlot.value && LastAtItsSlot(updates, j)
              && updates[i].publishSlot > updates[j].publishSlot;
      if updates[j].landingSlot.value < slot {
        assert LandedBy(updates, i, slot - 1) && LandedBy(updates, j, slot - 1);
      }
    }
  }

  /** A slot without an order is always played. */
  lemma QuietSlotPlays(p: ReplaySim, s: Scenario, updates: seq<Recorded>, slot: MarketSlot)
    requires slot.flow.None?
    ensures ReplaySlotStep(p, s, updates, slot).Ok?
  {
  }

  lemma QuietPathPlays(s: Scenario, updates: seq<Recorded>, first: MarketSlot, second: MarketSlot)
    requires first.flow.None? && second.flow.None? && first.slot <= second.slot
    ensures ReplayPath(s, updates, [first]).Ok? && ReplayPath(s, updates, [first, second]).Ok?
    ensures ReplayPath(s, updates, [first, second])
         == ReplaySlotStep(ReplayPath(s, updates, [first]).value, s, updates, second)
    ensures ReplayPath(s, updates, []).Ok?
         && ReplayPath(s, updates, [first]) == ReplaySlotStep(ReplayPath(s, updates, []).value, s, updates, first)
  {
    hide ReplaySlotStep;
    var one, two := [first], [first, second];
    assert one[..0] == [] && two[..1] == one;
    QuietSlotPlays(ReplayPath(s, updates, []).value, s, updates, first);
    ReplayPrefix(s, updates, one, 0);
    assert one[..0 + 1] == one;
    QuietSlotPlays(ReplayPath(s, updates, one).value, s, updates, second);
    ReplayPrefix(s, updates, two, 1);
    assert two[..1 + 1] == two;
  }

  /** Where the order breaks, two slots around it show the price going back. */
  lemma DisorderMovesBack(s: Scenario, updates: seq<Recorded>)
    requires WellRecorded(updates) && !InOrder(updates)
    ensures !NeverMovesBack(s, updates)
  {
    var t, i, j := FirstDisorder(updates, U64_MAX);
    hide InOrderBy, LastAtItsSlot, LandedBy, NeverMovesBack;
    DisorderedPath(s, updates, t, i, j);
  }

  lemma DisorderedPath(s: Scenario, updates: seq<Recorded>, t: u64, i: nat, j: nat)
    requires WellRecorded(updates) && 0 < t && InOrderBy(updates, t - 1)
    requires LandedBy(updates, i, t - 1) && j < |updates| && updates[j].landingSlot == Some(t)
    requires LastAtItsSlot(updates, j) && updates[i].publishSlot > updates[j].publishSlot
    ensures !NeverMovesBack(s, updates)
  {
    var before, at := MarketSlot(t - 1, 0, None), MarketSlot(t, 0, None);
    hide WellRecorded, InOrderBy, ReplaySlotStep, ReplayPath, Newest, Tracks, LandedBy, LastAtItsSlot, NeverMovesBack;
    FirstQuietSlot(s, updates, before);
    SecondQuietSlot(s, updates, before, at);
    DisorderedStep(ReplayPath(s, updates, [before]).value, s, updates, at, i, j);
    PathMovesBack(s, updates, before, at);
  }

  /** Where an ordered stretch of the recording has taken a replay. */
  lemma FirstQuietSlot(s: Scenario, updates: seq<Recorded>, slot: MarketSlot)
    requires WellRecorded(updates) && slot.flow.None? && InOrderBy(updates, slot.slot)
    ensures ReplayPath(s, updates, [slot]).Ok?
    ensures var p := ReplayPath(s, updates, [slot]).value;
            Tracks(p, updates, slot.slot) && Newest(updates, slot.slot, p.sim.state.publishSlot)
  {
    hide WellRecorded, InOrderBy, ReplaySlotStep, ReplayPath, Newest, Tracks;
    QuietPathPlays(s, updates, slot, slot);
    ReplayIsNewest(s, updates, [slot]);
    ReplayTracks(s, updates, [slot]);
  }

  lemma SecondQuietSlot(s: Scenario, updates: seq<Recorded>, first: MarketSlot, second: MarketSlot)
    requires first.flow.None? && second.flow.None? && first.slot <= second.slot
    ensures ReplayPath(s, updates, [first]).Ok? && ReplayPath(s, updates, [first, second]).Ok?
    ensures ReplayPath(s, updates, [first, second])
         == ReplaySlotStep(ReplayPath(s, updates, [first]).value, s, updates, second)
  {
    hide ReplaySlotStep, ReplayPath;
    QuietPathPlays(s, updates, first, second);
  }

  lemma PathMovesBack(s: Scenario, updates: seq<Recorded>, first: MarketSlot, second: MarketSlot)
    requires ReplayPath(s, updates, [first]).Ok? && ReplayPath(s, updates, [first, second]).Ok?
    requires ReplayPath(s, updates, [first, second]).value.sim.state.publishSlot
           < ReplayPath(s, updates, [first]).value.sim.state.publishSlot
    ensures !NeverMovesBack(s, updates)
  {
    hide ReplayPath;
    var slots := [first, second];
    assert slots[..|slots| - 1] == [first];
    assert PublishAfter(s, updates, slots).Some?;
  }

  /** At the slot where the order breaks, the price of an older update takes over. */
  lemma DisorderedStep(p: ReplaySim, s: Scenario, updates: seq<Recorded>, slot: MarketSlot, i: nat, j: nat)
    requires WellRecorded(updates) && 0 < slot.slot && Tracks(p, updates, slot.slot - 1)
    requires Newest(updates, slot.slot - 1, p.sim.state.publishSlot) && ReplaySlotStep(p, s, updates, slot).Ok?
    requires LandedBy(updates, i, slot.slot - 1) && j < |updates| && updates[j].landingSlot == Some(slot.slot)
    requires LastAtItsSlot(updates, j) && updates[i].publishSlot > updates[j].publishSlot
    ensures ReplaySlotStep(p, s, updates, slot).value.sim.state.publishSlot < p.sim.state.publishSlot
  {
    hide WellRecorded, ReplaySlotStep, Batch, Tracks;
    StepTracks(p, s, updates, slot, slot.slot - 1);
    var next := ReplaySlotStep(p, s, updates, slot).value;
    StepPublished(next, updates, slot.slot);
    DisorderedBatch(updates, next.index, slot.slot, j);
    EmptyBatch(updates, next.index, slot.slot - 1, slot.slot - 1);
    EmptyBatch(updates, next.index, slot.slot, slot.slot);
  }

  lemma StepPublished(p: ReplaySim, updates: seq<Recorded>, slot: int)
    requires WellRecorded(updates) && Tracks(p, updates, slot)
    ensures p.index <= |updates| && forall i :: LandedBy(updates, i, slot) ==> i < p.index
  {
    LandedIsPublished(updates, p.index, slot);
  }

  lemma DisorderedBatch(updates: seq<Recorded>, n: nat, t: u64, j: nat)
    requires n <= |updates| && (forall k :: LandedBy(updates, k, t) ==> k < n)
    requires j < |updates| && updates[j].landingSlot == Some(t) && LastAtItsSlot(updates, j)
    ensures var batch := Batch(updates, n, t - 1, t);
            batch != [] && batch[|batch| - 1].publishSlot == updates[j].publishSlot
  {
    assert LandedBy(updates, j, t) && LandsWithin(updates[j], t - 1, t);
    var k := BatchLast(updates, n, t - 1, t);
    hide Batch;
    assert updates[k].landingSlot == updates[j].landingSlot;
  }

  /** Exactly when a replay can be trusted not to take the price back, from the recording alone,
      whatever the scenario and whichever the same-slot order: for every landing slot, the
      last recorded update that lands there was published no earlier than every update that
      landed before. */
  lemma ReplayMovesForwardExactly(s: Scenario, updates: seq<Recorded>)
    requires WellRecorded(updates)
    ensures NeverMovesBack(s, updates) <==> InOrder(updates)
  {
    if InOrder(updates) {
      forall slots: seq<MarketSlot> | slots != [] && PublishAfter(s, updates, slots).Some?
        ensures var before := PublishAfter(s, updates, slots[..|slots| - 1]);
                before.Some? && before.value <= PublishAfter(s, updates, slots).value
      {
        OrderedNeverMovesBack(s, updates, slots);
      }
    } else {
      DisorderMovesBack(s, updates);
    }
  }

  /** The smallest case, as a run: an update published in slot 1 that lands in slot 5, after one
      published in slot 2 that landed in slot 3. After slot 3 the price is that of slot 2,
      after slot 5 that of slot 1. */
  lemma ReplayCanMoveBack(s: Scenario, price: u128)
    ensures var updates := [Recorded(1, Some(5), price), Recorded(2, Some(3), price)];
            var slots := [MarketSlot(3, price, None), MarketSlot(5, price, None)];
            && WellRecorded(updates) && !InOrder(updates)
            && PublishAfter(s, updates, slots[..1]) == Some(2) && PublishAfter(s, updates, slots) == Some(1)
  {
    var updates := [Recorded(1, Some(5), price), Recorded(2, Some(3), price)];
    var first, second := MarketSlot(3, price, None), MarketSlot(5, price, None);
    assert [first, second][..1] == [first];
    assert LandedBy(updates, 1, U64_MAX) && LandedBy(updates, 0, U64_MAX) && LastAtItsSlot(updates, 0);
    hide ReplaySlotStep, ReplayPath;
    QuietPathPlays(s, updates, first, second);
    ReplayTracks(s, updates, []);
    ReplayTracks(s, updates, [first]);
    var start := ReplayPath(s, updates, []).value;
    StepTracks(start, s, updates, first, -1);
    StepTracks(ReplayPath(s, updates, [first]).value, s, updates, second, 3);
    hide Tracks;
    TwoUpdateBatches(price);
  }

  lemma TwoUpdateBatches(price: u128)
    ensures var updates := [Recorded(1, Some(5), price), Recorded(2, Some(3), price)];
            && Batch(updates, 2, -1, 3) == [Queued(updates[1])] && Batch(updates, 2, 2, 3) == [Queued(updates[1])]
            && Batch(updates, 2, -1, 2) == [] && Batch(updates, 2, 3, 3) == [] && Batch(updates, 2, 3, 4) == []
            && Batch(updates, 2, 3, 5) == [Queued(updates[0])] && Batch(updates, 2, 4, 5) == [Queued(updates[0])]
            && Batch(updates, 2, 5, 5) == []
  {
    var older, newer := Recorded(1, Some(5), price), Recorded(2, Some(3), price);
    hide Batch;
    BatchOfTwo(older, newer, -1, 3);
    BatchOfTwo(older, newer, 2, 3);
    BatchOfTwo(older, newer, -1, 2);
    BatchOfTwo(older, newer, 3, 3);
    BatchOfTwo(older, newer, 3, 4);
    BatchOfTwo(older, newer, 3, 5);
    BatchOfTwo(older, newer, 4, 5);
    BatchOfTwo(older, newer, 5, 5);
  }

  lemma BatchOfTwo(first: Recorded, second: Recorded, after: int, through: int)
    ensures Batch([first, second], 2, after, through)
         == (if LandsWithin(first, after, through) then [Queued(first)] else [])
            + (if LandsWithin(second, after, through) then [Queued(second)] else [])
  {
    var updates := [first, second];
    assert Batch(updates, 0, after, through) == [];
    assert Batch(updates, 1, after, through) == if LandsWithin(first, after, through) then [Queued(first)] else [];
  }
}
