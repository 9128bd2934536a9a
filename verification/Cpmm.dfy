/** Constant-product quoting and the flow simulator on top of it. */
module Cpmm {
  import opened Numbers
  import opened FixedPoint
  import opened Market

  datatype Reserves = Reserves(base: u64, quote: u64)

  datatype CpmmQuote = CpmmQuote(amountInLessFee: u64, amountOut: u64, reserves: Reserves, effectivePrice: u128)

  function AmountLessFee(amountIn: u64, feeBps: u16): (r: u64)
    requires feeBps < BASIS_POINTS
    ensures r <= amountIn
  {
    MulNonNeg(amountIn, BASIS_POINTS - feeBps);
    MulLe(BASIS_POINTS - feeBps, BASIS_POINTS, amountIn);
    amountIn * (BASIS_POINTS - feeBps) / BASIS_POINTS
  }

  /** The constant-product output for a net input, rounded down. */
  function Payout(inReserve: u64, outReserve: u64, net: u64): (r: u64)
    requires inReserve > 0
    ensures r <= outReserve
  {
    MulNonNeg(outReserve, net);
    MulLe(net, inReserve + net, outReserve);
    DivBounds(outReserve * net, inReserve + net);
    DivAtLeast(outReserve * net, inReserve + net, outReserve + 1);
    DivNonNeg(outReserve * net, inReserve + net);
    outReserve * net / (inReserve + net)
  }

  function QuoteExactIn(reserves: Reserves, amountIn: u64, baseToQuote: bool, feeBps: u16)
    : Result<CpmmQuote, MathError>
  {
    if reserves.base == 0 || reserves.quote == 0 then Err(EmptyLiquidity)
    else if amountIn == 0 then Err(InvalidAmount)
    else if feeBps >= BASIS_POINTS then Err(InvalidFee)
    else
      var net := AmountLessFee(amountIn, feeBps);
      if net == 0 then Err(InvalidAmount)
      else
        var inReserve, outReserve := if baseToQuote then reserves.base else reserves.quote,
                                     if baseToQuote then reserves.quote else reserves.base;
        var amountOut := Payout(inReserve, outReserve, net);
        if amountOut == 0 || amountOut >= outReserve then Err(InvalidAmount)
        else if inReserve + amountIn >= TWO_64 then Err(Overflow)
        else if baseToQuote then
          var price :- FromRatio(amountOut, amountIn);
          Ok(CpmmQuote(net, amountOut, Reserves(reserves.base + amountIn, reserves.quote - amountOut), price))
        else
          var price :- FromRatio(amountIn, amountOut);
          Ok(CpmmQuote(net, amountOut, Reserves(reserves.base - amountOut, reserves.quote + amountIn), price))
  }

  // ---- One quote ----

  function In(reserves: Reserves, baseToQuote: bool): u64 {
    if baseToQuote then reserves.base else reserves.quote
  }

  function Out(reserves: Reserves, baseToQuote: bool): u64 {
    if baseToQuote then reserves.quote else reserves.base
  }

  /** What stays in the output reserve keeps the product, counting only the net input. */
  lemma PayoutKeepsProduct(inReserve: u64, outReserve: u64, net: u64)
    requires inReserve > 0
    ensures (outReserve - Payout(inReserve, outReserve, net)) * (inReserve + net) >= outReserve * inReserve
    ensures outReserve > 0 ==> Payout(inReserve, outReserve, net) < outReserve
  {
    var paid := Payout(inReserve, outReserve, net);
    DivBounds(outReserve * net, inReserve + net);
    assert (outReserve - paid) * (inReserve + net)
        == outReserve * inReserve + outReserve * net - paid * (inReserve + net);
    MulNonNeg(inReserve, outReserve);
    if outReserve > 0 && paid == outReserve {
      MulLt(0, inReserve, outReserve);
      assert false;
    }
  }

  /** The output stays below the reserve, and the price always fits its word. */
  lemma PriceFits(numerator: u64, denominator: u64)
    requires denominator > 0
    ensures FromRatio(numerator, denominator).Ok?
  {
    MulLt(numerator, TWO_64, Q64);
    DivNonNeg(numerator * Q64, denominator);
  }

  /** The two floors of a quote without division: what the fee leaves of the input, and the output
      that the constant product leaves for it. */
  lemma TermsMeaning(inReserve: u64, outReserve: u64, amountIn: u64, feeBps: u16)
    requires inReserve > 0 && feeBps < BASIS_POINTS
    ensures var net := AmountLessFee(amountIn, feeBps);
            var out := Payout(inReserve, outReserve, net);
            && net * BASIS_POINTS <= amountIn * (BASIS_POINTS - feeBps) < net * BASIS_POINTS + BASIS_POINTS
            && out * (inReserve + net) <= outReserve * net < out * (inReserve + net) + inReserve + net
            && (out == 0 <==> outReserve * net < inReserve + net)
  {
    var net := AmountLessFee(amountIn, feeBps);
    DivBounds(amountIn * (BASIS_POINTS - feeBps), BASIS_POINTS);
    DivBounds(outReserve * net, inReserve + net);
    DivAtLeast(outReserve * net, inReserve + net, 1);
  }

  /** Every input: which are turned away with which error, and what a quote makes of the others.
      With `net` what the fee leaves of the input, rounded down, the output is the most the
      constant product leaves for `net`, the whole input goes into one reserve, the output
      leaves the other, and the price is quote per base, rounded down. The checks for a
      drained reserve and for the price range never fire. */
  lemma QuoteMeaning(reserves: Reserves, amountIn: u64, baseToQuote: bool, feeBps: u16)
    ensures var r := QuoteExactIn(reserves, amountIn, baseToQuote, feeBps);
            if reserves.base == 0 || reserves.quote == 0 then r == Err(EmptyLiquidity)
            else if amountIn == 0 then r == Err(InvalidAmount)
            else if feeBps >= BASIS_POINTS then r == Err(InvalidFee)
            else
              var net := AmountLessFee(amountIn, feeBps);
              var inReserve, outReserve := In(reserves, baseToQuote), Out(reserves, baseToQuote);
              && net * BASIS_POINTS <= amountIn * (BASIS_POINTS - feeBps) < net * BASIS_POINTS + BASIS_POINTS
              && (if outReserve * net < inReserve + net then r == Err(InvalidAmount)
                  else if inReserve + amountIn >= TWO_64 then r == Err(Overflow)
                  else
                    && r.Ok? && r.value.amountInLessFee == net
                    && QuotesAt(r.value, amountIn, inReserve, outReserve, baseToQuote))
  {
    if reserves.base > 0 && reserves.quote > 0 && amountIn > 0 && feeBps < BASIS_POINTS {
      var net := AmountLessFee(amountIn, feeBps);
      var inReserve, outReserve := In(reserves, baseToQuote), Out(reserves, baseToQuote);
      QuoteFollowsPayout(reserves, amountIn, baseToQuote, feeBps);
      TermsMeaning(inReserve, outReserve, amountIn, feeBps);
      if QuoteExactIn(reserves, amountIn, baseToQuote, feeBps).Ok? {
        QuoteIsAt(reserves, amountIn, baseToQuote, feeBps);
      }
      hide AmountLessFee, Payout, FromRatio, QuoteExactIn, QuotesAt;
    }
  }

  lemma QuoteIsAt(reserves: Reserves, amountIn: u64, baseToQuote: bool, feeBps: u16)
    requires reserves.base > 0 && reserves.quote > 0 && amountIn > 0 && feeBps < BASIS_POINTS
    requires QuoteExactIn(reserves, amountIn, baseToQuote, feeBps).Ok?
    ensures QuotesAt(QuoteExactIn(reserves, amountIn, baseToQuote, feeBps).value, amountIn, In(reserves, baseToQuote),
                     Out(reserves, baseToQuote), baseToQuote)
  {
    QuoteFollowsPayout(reserves, amountIn, baseToQuote, feeBps);
    TermsMeaning(In(reserves, baseToQuote), Out(reserves, baseToQuote), amountIn, feeBps);
    var paid := QuoteExactIn(reserves, amountIn, baseToQuote, feeBps).value.amountOut;
    hide AmountLessFee, Payout, FromRatio, QuoteExactIn;
    RatioMeaning(if baseToQuote then paid else amountIn, if baseToQuote then amountIn else paid);
  }

  /** The output, the reserves and the price of a quote. */
  predicate QuotesAt(q: CpmmQuote, amountIn: u64, inReserve: u64, outReserve: u64, baseToQuote: bool) {
    var grown := inReserve + q.amountInLessFee;
    && 0 < q.amountOut < outReserve
    && q.amountOut * grown <= outReserve * q.amountInLessFee < q.amountOut * grown + grown
    && In(q.reserves, baseToQuote) == inReserve + amountIn
    && Out(q.reserves, baseToQuote) == outReserve - q.amountOut
    && (if baseToQuote then
          q.effectivePrice * amountIn <= q.amountOut * Q64 < q.effectivePrice * amountIn + amountIn
        else
          q.effectivePrice * q.amountOut <= amountIn * Q64 < q.effectivePrice * q.amountOut + q.amountOut)
  }

  lemma QuoteFollowsPayout(reserves: Reserves, amountIn: u64, baseToQuote: bool, feeBps: u16)
    requires reserves.base > 0 && reserves.quote > 0 && amountIn > 0 && feeBps < BASIS_POINTS
    ensures var r := QuoteExactIn(reserves, amountIn, baseToQuote, feeBps);
            var net := AmountLessFee(amountIn, feeBps);
            var inReserve, outReserve := In(reserves, baseToQuote), Out(reserves, baseToQuote);
            var paid := Payout(inReserve, outReserve, net);
            if paid == 0 then r == Err(InvalidAmount)
            else if inReserve + amountIn >= TWO_64 then r == Err(Overflow)
            else
              && r.Ok? && r.value.amountInLessFee == net
              && r.value.amountOut == paid < outReserve
              && In(r.value.reserves, baseToQuote) == inReserve + amountIn
              && Out(r.value.reserves, baseToQuote) == outReserve - paid
              && (if baseToQuote then FromRatio(paid, amountIn) else FromRatio(amountIn, paid))
                 == Ok(r.value.effectivePrice)
  {
    var net := AmountLessFee(amountIn, feeBps);
    var inReserve, outReserve := In(reserves, baseToQuote), Out(reserves, baseToQuote);
    PayoutKeepsProduct(inReserve, outReserve, net);
    var paid := Payout(inReserve, outReserve, net);
    NothingForNothing(inReserve, outReserve);
    hide AmountLessFee, Payout, FromRatio;
    if paid > 0 {
      PriceFits(paid, amountIn);
      PriceFits(amountIn, paid);
    }
  }

  lemma NothingForNothing(inReserve: u64, outReserve: u64)
    requires inReserve > 0
    ensures Payout(inReserve, outReserve, 0) == 0
  {
    DivUnique(0, inReserve, 0);
  }

  /** A fill never lowers the product of the reserves and never empties one of them. */
  lemma QuoteKeepsProduct(reserves: Reserves, amountIn: u64, baseToQuote: bool, feeBps: u16)
    requires QuoteExactIn(reserves, amountIn, baseToQuote, feeBps).Ok?
    ensures var after := QuoteExactIn(reserves, amountIn, baseToQuote, feeBps).value.reserves;
            after.base > 0 && after.quote > 0 && after.base * after.quote >= reserves.base * reserves.quote
  {
    QuoteFollowsPayout(reserves, amountIn, baseToQuote, feeBps);
    var net := AmountLessFee(amountIn, feeBps);
    var inReserve, outReserve := In(reserves, baseToQuote), Out(reserves, baseToQuote);
    PayoutKeepsProduct(inReserve, outReserve, net);
    var left := outReserve - Payout(inReserve, outReserve, net);
    MulLe(inReserve + net, inReserve + amountIn, left);
    var after := QuoteExactIn(reserves, amountIn, baseToQuote, feeBps).value.reserves;
    assert after.base * after.quote == left * (inReserve + amountIn);
  }

  // ---- Splitting an order ----

  lemma FeesAreSuperadditive(a: u64, b: u64, feeBps: u16)
    requires feeBps < BASIS_POINTS && a + b < TWO_64
    ensures AmountLessFee(a, feeBps) + AmountLessFee(b, feeBps) <= AmountLessFee(a + b, feeBps)
  {
    var keep := BASIS_POINTS - feeBps;
    assert (a + b) * keep == a * keep + b * keep;
  }

  /** The second leg sees the whole first input in the reserve, fee included, which only
      lowers what it pays. */
  lemma SecondLegKeeps(before: int, after: int, x: int, y: int, net: int)
    requires 0 <= after <= before && 0 <= y <= x && 0 <= net
    requires after * (x + net) >= before * x
    ensures after * (y + net) >= before * y
  {
    MulLe(y, x, before - after);
    assert after * (x + net) - before * x == after * net - (before - after) * x;
    assert after * (y + net) - before * y == after * net - (before - after) * y;
  }

  /** Two consecutive orders in one direction never pay more than a single order of their sum,
      and the single order is always quotable when both legs are. */
  lemma SplitNeverPaysMore(reserves: Reserves, a: u64, b: u64, baseToQuote: bool, feeBps: u16)
    requires a + b < TWO_64
    requires QuoteExactIn(reserves, a, baseToQuote, feeBps).Ok?
    requires QuoteExactIn(QuoteExactIn(reserves, a, baseToQuote, feeBps).value.reserves, b, baseToQuote, feeBps).Ok?
    ensures var first := QuoteExactIn(reserves, a, baseToQuote, feeBps).value;
            var second := QuoteExactIn(first.reserves, b, baseToQuote, feeBps).value;
            var whole := QuoteExactIn(reserves, a + b, baseToQuote, feeBps);
            whole.Ok? && first.amountOut + second.amountOut <= whole.value.amountOut
  {
    var middle := QuoteExactIn(reserves, a, baseToQuote, feeBps).value.reserves;
    QuoteKeepsProduct(reserves, a, baseToQuote, feeBps);
    QuoteFollowsPayout(reserves, a, baseToQuote, feeBps);
    QuoteFollowsPayout(middle, b, baseToQuote, feeBps);
    QuoteFollowsPayout(reserves, a + b, baseToQuote, feeBps);
    hide QuoteExactIn, AmountLessFee, Payout;
    FeesAreSuperadditive(a, b, feeBps);
    SplitPayouts(In(reserves, baseToQuote), Out(reserves, baseToQuote), a, AmountLessFee(a, feeBps),
                 AmountLessFee(b, feeBps), AmountLessFee(a + b, feeBps));
  }

  lemma SplitPayouts(r: u64, s: u64, a: u64, netA: u64, netB: u64, netBoth: u64)
    requires 0 < r && r + a < TWO_64 && netA <= a && netA + netB <= netBoth
    ensures Payout(r, s, netA) + Payout(r + a, s - Payout(r, s, netA), netB) <= Payout(r, s, netBoth)
  {
    var s1 := s - Payout(r, s, netA);
    var s2 := s1 - Payout(r + a, s1, netB);
    PayoutKeepsProduct(r, s, netA);
    PayoutKeepsProduct(r + a, s1, netB);
    hide Payout;
    SecondLegKeeps(s1, s2, r + a, r + netA, netB);
    MulLe(r + netA + netB, r + netBoth, s2);
    assert s2 * (r + netBoth) >= s * r;
    PayoutAtLeast(r, s, netBoth, s - s2);
  }

  lemma PayoutAtLeast(r: u64, s: u64, net: u64, k: int)
    requires 0 < r && (s - k) * (r + net) >= s * r
    ensures Payout(r, s, net) >= k
  {
    assert (s - k) * (r + net) == s * r + s * net - k * (r + net);
    DivAtLeast(s * net, r + net, k);
  }

  // ---- The simulator ----

  datatype Report = Report(reserves: Reserves, filled: nat, rejected: nat, fees: u128, edge: int)

  function SaturatingAdd128(x: u128, y: u128): u128 {
    if x + y < TWO_128 then x + y else TWO_128 - 1
  }

  function Step(feeBps: u16, report: Report, event: FlowEvent): Result<Report, MathError> {
    match QuoteExactIn(report.reserves, event.amountIn, event.side == BaseToQuote, feeBps)
    case Err(error) =>
      if error == InvalidAmount || error == EmptyLiquidity then Ok(report.(rejected := report.rejected + 1))
      else Err(error)
    case Ok(quote) =>
      var fee :- FeeInQuote(event, quote.amountInLessFee);
      var edge :- TakerEdge(event, quote.amountOut);
      Ok(Report(quote.reserves, report.filled + 1, report.rejected, SaturatingAdd128(report.fees, fee),
                SaturatingAddI128(report.edge, edge)))
  }

  function Run(feeBps: u16, report: Report, events: seq<FlowEvent>): Result<Report, MathError>
    decreases |events|
  {
    if events == [] then Ok(report)
    else
      var next :- Step(feeBps, report, events[0]);
      Run(feeBps, next, events[1..])
  }

  method SimulateCpmm(initial: Reserves, feeBps: u16, events: seq<FlowEvent>) returns (r: Result<Report, MathError>)
    ensures r == Run(feeBps, Report(initial, 0, 0, 0, 0), events)
  {
    var report := Report(initial, 0, 0, 0, 0);
    for i := 0 to |events|
      invariant Run(feeBps, report, events[i..]) == Run(feeBps, Report(initial, 0, 0, 0, 0), events)
    {
      var event := events[i];
      RunStep(feeBps, report, events[i..]);
      assert events[i..][0] == event && events[i..][1..] == events[i + 1..];
      var quote := QuoteExactIn(report.reserves, event.amountIn, event.side == BaseToQuote, feeBps);
      match quote
      case Ok(q) =>
        var fee := FeeInQuote(event, q.amountInLessFee);
        if fee.Err? {
          return Err(fee.error);
        }
        var edge := TakerEdge(event, q.amountOut);
        if edge.Err? {
          return Err(edge.error);
        }
        report := Report(q.reserves, report.filled + 1, report.rejected, SaturatingAdd128(report.fees, fee.value),
                         SaturatingAddI128(report.edge, edge.value));
      case Err(error) =>
        if error != InvalidAmount && error != EmptyLiquidity {
          return Err(error);
        }
        report := report.(rejected := report.rejected + 1);
    }
    return Ok(report);
  }

  lemma RunStep(feeBps: u16, report: Report, events: seq<FlowEvent>)
    requires events != []
    ensures Run(feeBps, report, events)
         == match Step(feeBps, report, events[0])
            case Err(error) => Err(error)
            case Ok(next) => Run(feeBps, next, events[1..])
  {
  }

  /** Over any flow every order is filled or rejected, and the product of positive reserves
      never falls. */
  lemma {:induction false} RunKeepsProduct(feeBps: u16, report: Report, events: seq<FlowEvent>)
    requires Run(feeBps, report, events).Ok?
    ensures var end := Run(feeBps, report, events).value;
            && end.filled + end.rejected == report.filled + report.rejected + |events|
            && (report.reserves.base > 0 && report.reserves.quote > 0 ==>
                  end.reserves.base > 0 && end.reserves.quote > 0)
            && end.reserves.base * end.reserves.quote >= report.reserves.base * report.reserves.quote
    decreases |events|
  {
    if events != [] {
      var quote := QuoteExactIn(report.reserves, events[0].amountIn, events[0].side == BaseToQuote, feeBps);
      if quote.Ok? {
        QuoteKeepsProduct(report.reserves, events[0].amountIn, events[0].side == BaseToQuote, feeBps);
      }
      RunStep(feeBps, report, events);
      hide QuoteExactIn, Run, FeeInQuote, TakerEdge;
      RunKeepsProduct(feeBps, Step(feeBps, report, events[0]).value, events[1..]);
    }
  }

  /** A run that brings one reserve back to where it was, or below, cannot have lowered the other. */
  lemma RunNeverDrains(feeBps: u16, initial: Reserves, events: seq<FlowEvent>)
    requires initial.base > 0 && initial.quote > 0 && Run(feeBps, Report(initial, 0, 0, 0, 0), events).Ok?
    ensures var end := Run(feeBps, Report(initial, 0, 0, 0, 0), events).value.reserves;
            && (end.base <= initial.base ==> end.quote >= initial.quote)
            && (end.quote <= initial.quote ==> end.base >= initial.base)
  {
    RunKeepsProduct(feeBps, Report(initial, 0, 0, 0, 0), events);
    var end := Run(feeBps, Report(initial, 0, 0, 0, 0), events).value.reserves;
    if end.base <= initial.base {
      MulLe(end.base, initial.base, end.quote);
      MulLeCancel(initial.quote, end.quote, initial.base);
    }
    if end.quote <= initial.quote {
      MulLe(end.quote, initial.quote, end.base);
      MulLeCancel(initial.base, end.base, initial.quote);
    }
  }

  /** What the fills of a flow earn, told from the reserves alone and in numbers of any size. */
  datatype Earned = Earned(fees: nat, edge: int)

  function Earnings(feeBps: u16, reserves: Reserves, events: seq<FlowEvent>): Earned
    decreases |events|
  {
    if events == [] then Earned(0, 0)
    else
      var event, rest := events[0], events[1..];
      match QuoteExactIn(reserves, event.amountIn, event.side == BaseToQuote, feeBps)
      case Err(_) => Earnings(feeBps, reserves, rest)
      case Ok(quote) =>
        var later := Earnings(feeBps, quote.reserves, rest);
        match (FeeInQuote(event, quote.amountInLessFee), TakerEdge(event, quote.amountOut))
        case (Ok(fee), Ok(edge)) => Earned(fee + later.fees, edge + later.edge)
        case _ => later
  }

  /** Only an overflow of a reserve, of the fee or of the edge, a fair price of zero, or a fee that
      is none ends a run; any other order is filled or turned away. */
  lemma StepEndsExactly(feeBps: u16, report: Report, event: FlowEvent)
    ensures var r := report.reserves;
            var quote := QuoteExactIn(r, event.amountIn, event.side == BaseToQuote, feeBps);
            var inReserve := In(r, event.side == BaseToQuote);
            Step(feeBps, report, event).Err?
            <==> if quote.Err? then
                   r.base > 0 && r.quote > 0 && event.amountIn > 0 && (feeBps >= BASIS_POINTS || quote == Err(Overflow))
                 else
                   || FeeInQuote(event, quote.value.amountInLessFee).Err?
                   || TakerEdge(event, quote.value.amountOut).Err?
  {
    QuoteMeaning(report.reserves, event.amountIn, event.side == BaseToQuote, feeBps);
    hide QuoteExactIn, FeeInQuote, TakerEdge, QuotesAt, AmountLessFee;
  }

  /** One order: filled at its quote, or turned away without a trace. */
  lemma StepSettles(feeBps: u16, report: Report, event: FlowEvent)
    requires Step(feeBps, report, event).Ok?
    ensures var next := Step(feeBps, report, event).value;
            match QuoteExactIn(report.reserves, event.amountIn, event.side == BaseToQuote, feeBps)
            case Err(error) =>
              && error in {InvalidAmount, EmptyLiquidity}
              && next == report.(rejected := report.rejected + 1)
            case Ok(quote) =>
              && FeeInQuote(event, quote.amountInLessFee).Ok? && TakerEdge(event, quote.amountOut).Ok?
              && next.reserves == quote.reserves
              && next.fees == Min(report.fees + FeeInQuote(event, quote.amountInLessFee).value, TWO_128 - 1)
              && next.edge == Clamp(report.edge + TakerEdge(event, quote.amountOut).value, -TWO_127, TWO_127 - 1)
              && next.filled == report.filled + 1 && next.rejected == report.rejected
  {
    hide QuoteExactIn, FeeInQuote, TakerEdge;
  }

  /** The saturating sums of a run are the exact sums of what its fills earned: the fees up to the
      largest 128-bit value, and the signed edge in every run too short to reach its bounds. */
  lemma {:induction false} RunEarns(feeBps: u16, report: Report, events: seq<FlowEvent>)
    requires Run(feeBps, report, events).Ok?
    ensures var end, earned := Run(feeBps, report, events).value, Earnings(feeBps, report.reserves, events);
            && end.fees == Min(report.fees + earned.fees, TWO_128 - 1)
            && (Abs(report.edge) + |events| * TWO_64 < TWO_127 ==> end.edge == report.edge + earned.edge)
    decreases |events|
  {
    if events != [] {
      RunStep(feeBps, report, events);
      StepEarns(feeBps, report, events[0]);
      EarningsStep(feeBps, report, events);
      hide Run, Step, Earnings, FirstEarned;
      RunEarns(feeBps, Step(feeBps, report, events[0]).value, events[1..]);
    }
  }

  /** What the first order of a flow earns. */
  function FirstEarned(feeBps: u16, report: Report, event: FlowEvent): Earned
    requires Step(feeBps, report, event).Ok?
  {
    StepSettles(feeBps, report, event);
    match QuoteExactIn(report.reserves, event.amountIn, event.side == BaseToQuote, feeBps)
    case Err(_) => Earned(0, 0)
    case Ok(quote) => Earned(FeeInQuote(event, quote.amountInLessFee).value, TakerEdge(event, quote.amountOut).value)
  }

  lemma StepEarns(feeBps: u16, report: Report, event: FlowEvent)
    requires Step(feeBps, report, event).Ok?
    ensures var next, earned := Step(feeBps, report, event).value, FirstEarned(feeBps, report, event);
            && -TWO_64 < earned.edge < TWO_64
            && next.fees == Min(report.fees + earned.fees, TWO_128 - 1)
            && (Abs(report.edge) + TWO_64 < TWO_127 ==> next.edge == report.edge + earned.edge)
  {
    StepSettles(feeBps, report, event);
    var quote := QuoteExactIn(report.reserves, event.amountIn, event.side == BaseToQuote, feeBps);
    hide QuoteExactIn, FeeInQuote, TakerEdge;
    if quote.Ok? {
      var _ := EdgeMeaning(event, quote.value.amountOut);
    }
  }

  lemma EarningsStep(feeBps: u16, report: Report, events: seq<FlowEvent>)
    requires events != [] && Step(feeBps, report, events[0]).Ok?
    ensures var all, first := Earnings(feeBps, report.reserves, events), FirstEarned(feeBps, report, events[0]);
            var later := Earnings(feeBps, Step(feeBps, report, events[0]).value.reserves, events[1..]);
            all.fees == first.fees + later.fees && all.edge == first.edge + later.edge
  {
    StepSettles(feeBps, report, events[0]);
    hide QuoteExactIn, FeeInQuote, TakerEdge;
  }
}
