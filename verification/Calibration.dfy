/** From calibration scenarios to a running pool: the strategy that covers the scenarios, and
    what survives the way through export, parser, compiler and account bytes. */
module Calibration {
  import opened Numbers
  import opened ConfigCompiler
  import ConfigBytes
  import ExportText
  import ExportParse
  import ExportLaws
  import opened QuoteLanding
  import LandingLaws

  /** One strategy for all scenarios: they must agree on parameters and order; the envelope
      takes the slowest period, the longest latency and the lowest success rate. */
  method StrategyFromScenarios(scenarios: seq<Scenario>) returns (r: Result<Strategy, MathError>)
    requires |scenarios| == 3
    ensures r.Ok? <==> forall s :: s in scenarios ==>
                         s.params == scenarios[0].params && s.policy.order == scenarios[0].policy.order
    ensures r.Err? ==> r.error == InvalidConfig
    ensures r.Ok? ==> Covers(r.value, scenarios) && Tight(r.value.envelope, scenarios)
  {
    var params, order := scenarios[0].params, scenarios[0].policy.order;
    var maxPeriod, maxLatency, minSuccess := 0, 0, TWO_16 - 1;
    ghost var seen: seq<Scenario> := [];
    for i := 0 to |scenarios|
      invariant seen == scenarios[..i]
      invariant 0 <= maxPeriod < TWO_64 && 0 <= maxLatency < TWO_64 && 0 <= minSuccess < TWO_16
      invariant Covers(Strategy(params, Envelope(maxPeriod, maxLatency, minSuccess, order)), seen)
      invariant i == 0 ==> maxPeriod == 0 && maxLatency == 0 && minSuccess == TWO_16 - 1
      invariant i > 0 ==> Tight(Envelope(maxPeriod, maxLatency, minSuccess, order), seen)
    {
      var scenario := scenarios[i];
      if scenario.params != params || scenario.policy.order != order {
        assert scenario in scenarios;
        return Err(InvalidConfig);
      }
      ghost var before := Envelope(maxPeriod, maxLatency, minSuccess, order);
      maxPeriod := Max(maxPeriod, scenario.policy.period);
      maxLatency := Max(maxLatency, scenario.policy.latency);
      minSuccess := Min(minSuccess, scenario.policy.successBps);
      TightStep(before, Envelope(maxPeriod, maxLatency, minSuccess, order), seen, scenario);
      seen := seen + [scenario];
    }
    assert scenarios[..|scenarios|] == scenarios;
    r := Ok(Strategy(params, Envelope(maxPeriod, maxLatency, minSuccess, order)));
  }

  /** Every scenario runs the strategy's parameters under a policy inside its envelope. */
  predicate Covers(strategy: Strategy, scenarios: seq<Scenario>) {
    forall s :: s in scenarios ==>
      && s.params == strategy.params && s.policy.order == strategy.envelope.order
      && s.policy.period <= strategy.envelope.maxPeriod && s.policy.latency <= strategy.envelope.maxLatency
      && s.policy.successBps >= strategy.envelope.minSuccessBps
  }

  /** The envelope is no wider than the scenarios make it. */
  predicate Tight(e: Envelope, scenarios: seq<Scenario>) {
    && (exists s :: s in scenarios && s.policy.period == e.maxPeriod)
    && (exists s :: s in scenarios && s.policy.latency == e.maxLatency)
    && (exists s :: s in scenarios && s.policy.successBps == e.minSuccessBps)
  }

  lemma TightStep(before: Envelope, after: Envelope, seen: seq<Scenario>, next: Scenario)
    requires seen != [] ==> Tight(before, seen)
    requires after.maxPeriod == Max(before.maxPeriod, next.policy.period)
    requires after.maxLatency == Max(before.maxLatency, next.policy.latency)
    requires after.minSuccessBps == Min(before.minSuccessBps, next.policy.successBps)
    requires seen == [] ==> before.maxPeriod == 0 && before.maxLatency == 0 && before.minSuccessBps == TWO_16 - 1
    ensures Tight(after, seen + [next])
  {
    var all := seen + [next];
    assert next in all && forall s :: s in seen ==> s in all;
    if seen != [] {
      var p :| p in seen && p.policy.period == before.maxPeriod;
      var l :| l in seen && l.policy.latency == before.maxLatency;
      var m :| m in seen && m.policy.successBps == before.minSuccessBps;
      assert p in all && l in all && m in all;
    }
  }

  /** A calibrated strategy keeps quotes alive in each of its own scenarios, on every sorted
      market path: with room for `d` drops in a row wherever no more than `d` drop, and by the
      compiler's check alone wherever none does. */
  lemma CalibratedQuotesStayAlive(strategy: Strategy, scenarios: seq<Scenario>, s: Scenario, draw: u64 -> bool,
                                  slots: seq<MarketSlot>, d: nat)
    requires Covers(strategy, scenarios) && s in scenarios && 0 < s.policy.period
    requires
      || (d == 0 && ValidateEnvelope(strategy.envelope, strategy.params.expire).Ok?)
      || (d + 1) * strategy.envelope.maxPeriod + strategy.envelope.maxLatency < strategy.params.expire
    requires LandingLaws.AtMostDrops(s.policy, draw, d, LandingLaws.PublishedBy(s.policy, LandingLaws.LastSlot(slots)))
    requires BeforeEnd(slots) && MarketPath(s, draw, slots).Ok?
    ensures MarketPath(s, draw, slots).value.sim.report.stale == 0
  {
    hide MarketPath, LandingLaws.AtMostDrops;
    LandingLaws.RoomForDropsKeepsQuotesAlive(s, draw, slots, strategy.envelope, d);
  }

  /** What the pool reads from the account of a compiled configuration. */
  predicate PoolReads(config: ConfigInput, bump: u8, paused: bool, strategy: Strategy) {
    var bytes := ConfigBytes.Layout(ConfigBytes.Account(config, bump, paused));
    && |bytes| == ConfigBytes.ACCOUNT_LEN
    && ConfigBytes.ParamsAt(bytes) == strategy.params
    && bytes[ConfigBytes.SAME_SLOT_ORDER_OFFSET] == ConfigBytes.OrderByte(strategy.envelope.order)
  }

  /** A compilable strategy travels unchanged from its export through the parser, the compiler
      and the pool account: the parameters and the order byte the pool reads are the
      calibrated ones, whenever the candidate name hides no field. */
  lemma ExportReachesPool(strategy: Strategy, name: string, tail: string, pair: TokenPair, budget: AccountBudget,
                          bump: u8, paused: bool)
    requires Compile(ConfigInput(strategy, pair, budget)).Ok?
    requires forall field :: ExportLaws.Searched(field) ==> ExportLaws.LastPart(name) != ExportText.KeyText(field)
    ensures var parsed := ExportParse.ParseExport(ExportText.Export(strategy, name, tail));
            && parsed.Ok? && Compile(ConfigInput(parsed.value, pair, budget)).Ok?
            && PoolReads(Compile(ConfigInput(parsed.value, pair, budget)).value, bump, paused, strategy)
  {
    hide ExportParse.ParseExport, ExportText.Export, ExportText.KeyText, ExportLaws.LastPart, ConfigBytes.ParamsAt,
         ConfigBytes.Layout, ConfigBytes.OrderByte, ValidateParams, ValidateEnvelope, Compile;
    var input := ConfigInput(strategy, pair, budget);
    CompilesWhen(input);
    CompiledIsValid(input);
    ConfigBytes.AccountReadsBack(ConfigBytes.Account(input, bump, paused));
    ExportLaws.RoundTripsExactly(strategy, name, tail);
  }

  lemma CompiledIsValid(input: ConfigInput)
    requires Compile(input).Ok?
    ensures ValidateParams(input.strategy.params).Ok?
    ensures ValidateEnvelope(input.strategy.envelope, input.strategy.params.expire).Ok?
  {
  }
}
