# Meta-AMM maker kernel: a Dafny model

Meta-AMM prices swaps for a maker with integer arithmetic, runs the pricing on chain as a
bounded state machine, and ships a simulator and a configuration compiler that are meant to
agree with it. This project models those parts and proves what holds for every input, every
run and every interleaving of instructions.

The project reads from the arithmetic upwards:

- `Numbers`, `FixedPoint`: word sizes, floor division, and the 256-bit multiply-then-divide that
  every price rests on.
- `Piecewise`, `PiecewiseBook`, `PiecewiseLaws`, `PiecewiseBuyLaws`, `PiecewiseRejections`,
  `PiecewiseRun`: one side of a piecewise book, its fill loops as methods of a mutable object,
  which orders it accepts, and the two-sided simulator.
- `Market`, `Cpmm`: order flow with its fee and edge, and constant-product quoting with its
  simulator.
- `ReferenceQuote`, `ReferenceLaws`, `RoundTrips`, `SdkQuote`: reference-price quoting by quote
  age, trading back and forth, and the unbounded-integer SDK counterpart.
- `ConfigCompiler`, `ConfigBytes`: the strategy compiler and the account byte layout.
- `ExportText`, `ExportParse`, `ExportGrammar`, `ExportLaws`, `ExportEscapes`: the exported text,
  its parser, what that accepts, the round trip and the escaped candidate name.
- `QuoteLanding`, `LandingLaws`, `ReplayOrder`, `Calibration`: published, delayed and dropped
  quote updates, the ages they lead to, the order in which recorded ones take effect, and the
  strategy derived from calibration scenarios.
- `PoolState`, `PoolProgram`, `PoolLaws`, `PoolHistory`, `PoolAcceptance`: the on-chain pool as a
  transition system, its accounts as objects with instruction handlers, the invariants of every
  reachable pool, what a pool remembers of its history, and which instructions it accepts.

Code that changes things in place is modelled by methods with loops and by classes. Each such
method is proved equal to a specification function, and the lemmas say what those functions
compute in terms of inputs, runs and histories: every floor as the bracket it rounds into, every
counter, price and stored setting traced back to the order, the path or the transaction it
comes from.

## What the code does where its promises are not exact

- A rejected fill may have consumed depth (`piecewise.rs:129-143`, `185-191`).
  `RejectedBuyTakesDepth` and `RejectedSaleTakesDepth` give cases, `BuyLeavesSideExactly` and
  `SaleLeavesSideExactly` say exactly which fills leave the side alone, and `RunConserves`
  accounts for the base that rejected orders took.
- The base-for-quote search also demands a positive cost, so below one atom a unit it can return
  zero although something is affordable. `SearchMissesExactly` says when, with the probes in
  closed form (`ProbesAreHalvings`), `SearchMissesBelowOneAtom` gives a case, and
  `SearchIsExactAboveOneAtom` the range without one.
- The export parser searches the first occurrence of a key in the whole text, so a candidate name
  can hide a field. `RoundTripsExactly` gives the exact condition on the name, which also covers
  names with double quotes in them.
- A round trip through a reference quote can profit when the skew is steeper than the spread.
  `SteepSkewProfits` gives a case the compiler lets through, and `RoundTripProfitsExactly` the
  exact condition on order, state and parameters.
- In a replay an older update can land after a newer one and take the price back.
  `ReplayCanMoveBack` gives a run, and `ReplayMovesForwardExactly` the exact condition on the
  recording.
- The reference quote uses 64-bit words; the SDK does not. `SucceedTogether` gives the exact
  condition under which both succeed. At a zero mid price neither quotes, and `ZeroMidErrors`
  says when they report the same error.
- In the market-path simulator the publish clock saturates, so at a slot equal to the largest
  64-bit value its loop never ends, and at every other slot it does (`PublishLoopEndsExactly`).

## Parameters standing for the outside

Update landing is an arbitrary predicate of the publish slot, consulted only when the success
probability is neither 0 nor 10,000. Signers are identities, the clock is the slot of a
transaction, token transfers are exact balance moves, and transfers around the program are an
instruction of their own (`Donate`). An account that does not exist yet is one whose `live` flag
is off.

## Model

| member | source | states |
|---|---|---|
| `FixedPoint.MulDivFloor` | crates/meta_amm_math/src/fixed.rs:63-74 | the entry point returns the floor of `a*b/denominator`, `DivByZero` for a zero denominator and `Overflow` exactly when the quotient needs more than 128 bits; the narrow and the wide path agree with that |
| `FixedPoint.MulDivMeaning` | crates/meta_amm_math/src/fixed.rs:63-74 | a result `q` is returned if and only if `q*d <= a*b < (q+1)*d` |
| `FixedPoint.Mul128To256` | crates/meta_amm_math/src/fixed.rs:76-103 | the four limb products with their carries are the 256-bit product, and none of the checked additions can fail |
| `FixedPoint.LimbsCombine` | crates/meta_amm_math/src/fixed.rs:88-102 | the two carries out of the middle and low words land in the high word without overflowing it |
| `FixedPoint.Div256By128` | crates/meta_amm_math/src/fixed.rs:105-134 | 128 rounds of restoring division give the exact floor quotient, and `Overflow` exactly when it does not fit |
| `FixedPoint.DivisionRound` | crates/meta_amm_math/src/fixed.rs:112-131 | one round takes the next dividend bit and keeps quotient times divisor plus remainder equal to the bits read so far |
| `FixedPoint.RestoringStep` | crates/meta_amm_math/src/fixed.rs:113-130 | when doubling drops the top bit of the remainder, the wrapping subtraction still yields the true difference |
| `FixedPoint.MulAmountMeaning` | crates/meta_amm_math/src/fixed.rs:51-54 | an amount at a price is the largest one within the product, and overflows exactly beyond 64 bits |
| `FixedPoint.DivAmountMeaning` | crates/meta_amm_math/src/fixed.rs:56-59 | an amount divided by a price is the largest one whose product with the price fits, division by zero or overflow otherwise |
| `FixedPoint.RatioMeaning` | crates/meta_amm_math/src/fixed.rs:21-23 | a ratio is the largest price that does not overstate it |
| `Piecewise.SegmentsPartition` | crates/meta_amm_math/src/piecewise.rs:282-293 | for every depth from six atoms up, divisible by six or not, the six slices are non-empty and share their borders |
| `Piecewise.SlicesAreSixths` | crates/meta_amm_math/src/piecewise.rs:282-293 | the base priced before slice `k` is `k` sixths of the depth, rounded down |
| `Piecewise.SlicesAreEven` | crates/meta_amm_math/src/piecewise.rs:282-293 | any two slices differ by at most one atom |
| `Piecewise.SegmentOfIsUnique` | crates/meta_amm_math/src/piecewise.rs:270-280 | the slice chosen for the next atom is the one and only slice that holds it |
| `Piecewise.SpotIs` | crates/meta_amm_math/src/piecewise.rs:270-293 | slice, offset and rest of the slice for the next atom, told from depth and consumption alone |
| `PiecewiseLaws.InterpolateInside` | crates/meta_amm_math/src/piecewise.rs:327-364 | inside a slice interpolation never fails and stays between the two prices of the slice |
| `PiecewiseLaws.LinesFollowLadder` | crates/meta_amm_math/src/piecewise.rs:295-364 | both price lines run from one price of the ladder exactly to the next, in between by the proportional part of the step, rounded toward the start |
| `PiecewiseLaws.BidPieceOnLine` | crates/meta_amm_math/src/piecewise.rs:172-184 | every piece a sell takes is priced between two points of one straight line per slice, and pricing those points never fails |
| `PiecewiseLaws.LinearAmountIs` | crates/meta_amm_math/src/piecewise.rs:366-382 | a piece pays its floored trapezoid, and `Overflow` is the only possible error |
| `PiecewiseLaws.AmountMeaning` | crates/meta_amm_math/src/piecewise.rs:366-382 | the amount is at most the exact trapezoid and misses it by less than one atom and half a price unit for each unit |
| `PiecewiseBook.BookSide.SellBaseForQuote` | crates/meta_amm_math/src/piecewise.rs:153-208 | the sell loop on the mutable side leaves exactly the side, also after an error, and gives exactly the answer of the specification `Sell` |
| `PiecewiseBook.BookSide.SellRound` | crates/meta_amm_math/src/piecewise.rs:168-195 | one round consumes the slice part before it checks the sum of payouts |
| `PiecewiseBook.BookSide.BuyBaseWithQuote` | crates/meta_amm_math/src/piecewise.rs:71-151 | the buy loop on the mutable side leaves exactly the side, also after an error, and gives exactly the answer of the specification `Buy` |
| `PiecewiseBook.BookSide.BuyRound` | crates/meta_amm_math/src/piecewise.rs:84-143 | one round consumes base before it checks the running sums |
| `PiecewiseBook.BookSide.PlanBuy` | crates/meta_amm_math/src/piecewise.rs:84-127 | told without the search: an unpriced slice overflows, a slice that is free or too dear with a free first probe stops the buy, and any other gives the largest quantity whose cost fits, at that cost |
| `PiecewiseBook.MaxBaseForQuote` | crates/meta_amm_math/src/piecewise.rs:384-414 | the low/high bisection loop returns the result of the recursive search it is specified by |
| `PiecewiseBook.BookSide.ApplyPostFill` | crates/meta_amm_math/src/piecewise.rs:210-254 | each of the four policies leaves exactly the specified side, also after an error |
| `PiecewiseBook.BookSide.HealThenAddQuantity` | crates/meta_amm_math/src/piecewise.rs:256-268 | consumed depth falls by the quantity as far as it goes, only what is left over makes the side deeper, and it fails exactly when that does not fit |
| `PiecewiseLaws.SellKeepsSide` | crates/meta_amm_math/src/piecewise.rs:153-208 | on every outcome the side stays valid with its prices and depth and gives nothing back; an accepted sale consumes exactly its input; the only errors of a valid side are `InvalidAmount` and `Overflow` |
| `PiecewiseRejections.SaleAcceptedExactly` | crates/meta_amm_math/src/piecewise.rs:153-208 | a sale is accepted if and only if the side holds its base, every slice it touches pays something and the payouts together fit 64 bits |
| `PiecewiseRejections.SaleLeavesSideExactly` | crates/meta_amm_math/src/piecewise.rs:153-208 | a sale leaves the side as it was if and only if it is turned away at the door or its very first slice cannot be paid |
| `PiecewiseRejections.RejectedSaleTakesDepth` | crates/meta_amm_math/src/piecewise.rs:182-191 | a concrete sale whose second slice pays nothing is rejected after the first slice is gone |
| `PiecewiseLaws.SellLoopPays` | crates/meta_amm_math/src/piecewise.rs:164-200 | the sell loop succeeds if and only if every piece pays something and the sum of the pieces fits 64 bits, and then pays that sum |
| `PiecewiseLaws.SplitSale` | crates/meta_amm_math/src/piecewise.rs:153-208 | selling `a` then `b` consumes what selling `a+b` consumes; the single sale pays at least the two together less one atom and at most two atoms more, and can fail only because its payout does not fit |
| `PiecewiseLaws.SplitPieceAt` | crates/meta_amm_math/src/piecewise.rs:308-382 | splitting one trapezoid of a slice changes its payout by less than the price and amount floors |
| `PiecewiseLaws.SellTouchesAndPays` | crates/meta_amm_math/src/piecewise.rs:164-207 | `segments_crossed` of a sale is the number of slices between its first and last atom, at most six, and the payout lies between lowest and highest price less one atom a slice |
| `PiecewiseBuyLaws.CostMono` | crates/meta_amm_math/src/piecewise.rs:295-306 | more base of a slice never costs less |
| `PiecewiseBuyLaws.PartsArePriceable` | crates/meta_amm_math/src/piecewise.rs:95-116 | once the whole rest of the slice has a price, no probe of the search can fail |
| `PiecewiseBuyLaws.SearchIsLargest` | crates/meta_amm_math/src/piecewise.rs:384-414 | a positive answer is the largest quantity within the slice that fits the budget; the answer is zero exactly when the first probe within the budget is free |
| `PiecewiseBuyLaws.SearchIsExactAboveOneAtom` | crates/meta_amm_math/src/piecewise.rs:384-414 | from one atom a unit upwards the search is exact: zero if and only if one unit is unaffordable |
| `PiecewiseBuyLaws.SearchMissesBelowOneAtom` | crates/meta_amm_math/src/piecewise.rs:400-408 | below one atom a unit the search can return zero although a larger quantity is affordable: a concrete side and budget |
| `PiecewiseRejections.SearchMissesExactly` | crates/meta_amm_math/src/piecewise.rs:384-414 | the search answers zero while something is affordable if and only if its first probe within the budget is free and some quantity costs between one atom and the budget |
| `PiecewiseRejections.ProbesAreHalvings` | crates/meta_amm_math/src/piecewise.rs:396-409 | the probes in closed form: halves, quarters, eighths of one more than the slice, until one fits the budget |
| `PiecewiseBuyLaws.NextBuyFacts` | crates/meta_amm_math/src/piecewise.rs:84-143 | a round overflows, stops, or takes base at exactly its cost within the quote left |
| `PiecewiseBuyLaws.BuyKeepsSide` | crates/meta_amm_math/src/piecewise.rs:71-151 | on every outcome the side stays valid with its prices and depth and gives nothing back; an accepted buy spends exactly its input for exactly the base taken; the empty-slice and over-cost checks are unreachable |
| `PiecewiseRejections.NextBuyIs` | crates/meta_amm_math/src/piecewise.rs:84-127 | one round of a buy from costs alone: the largest affordable quantity of the slice, or the exact reason for none |
| `PiecewiseRejections.BuyIsGreedy` | crates/meta_amm_math/src/piecewise.rs:71-151 | accepted or rejected, the side ends where greedy buying ends; the buy is accepted if and only if greedy buying spends the quote to the last atom |
| `PiecewiseRejections.BuyAcceptedExactly` | crates/meta_amm_math/src/piecewise.rs:71-151 | the acceptance condition over every side and every quote |
| `PiecewiseRejections.BuyLeavesSideExactly` | crates/meta_amm_math/src/piecewise.rs:71-151 | a buy leaves the side as it was if and only if it is turned away at the door or its first round takes nothing |
| `PiecewiseRejections.RejectedBuyTookAll` | crates/meta_amm_math/src/piecewise.rs:129-143 | a rejected buy has taken everything its quote could buy: the side is sold out, has no price, or blocks the quote left, which from one atom a unit upwards means that one more unit is unaffordable |
| `PiecewiseRejections.RejectedBuyTakesDepth` | crates/meta_amm_math/src/piecewise.rs:129-143 | a concrete buy of 9,851 atoms is rejected with one atom left over and 100 base gone |
| `PiecewiseBuyLaws.BuyPaysWithinLadder` | crates/meta_amm_math/src/piecewise.rs:79-151 | an accepted buy pays between lowest and highest price for its base, less one atom a round, and reports its rounds, not its slices |
| `PiecewiseRun.ProportionalScaleEffect` | crates/meta_amm_math/src/piecewise.rs:226-243 | proportional scaling keeps the consumed fraction up to one atom and never overshoots the new depth |
| `PiecewiseRun.ConservingRefillEffect` | crates/meta_amm_math/src/piecewise.rs:244-268 | healing and depth-proportional refills raise the remaining depth by exactly the replenishment, and fail only when the depth does not fit |
| `PiecewiseRun.HealingComesFirst` | crates/meta_amm_math/src/piecewise.rs:256-268 | a heal-then-add refill gives back consumed depth first and appends only what no consumed depth is left for; when it fails, and what it leaves then |
| `PiecewiseRun.DepthProportionalEffect` | crates/meta_amm_math/src/piecewise.rs:244-254 | a depth-proportional refill always appends one sixth of itself, rounded down, for each slice crossed and heals first with the rest; when it fails, and what it leaves then |
| `PiecewiseRun.SimulatePiecewiseProp` | crates/meta_amm_sim/src/lib.rs:481-548 | the two-sided simulator on mutable book sides reports what folding the one-order step over the flow gives |
| `PiecewiseRun.ProcessEvent` | crates/meta_amm_sim/src/lib.rs:499-537 | one order fills its side, replenishes the other with the base that moved, or counts as rejected with whatever depth it took |
| `PiecewiseRun.SaleReplenishes` | crates/meta_amm_sim/src/lib.rs:500-517 | an accepted sale replenishes the asks with the base sold, weighed by the slices it touched, adds its edge and keeps the largest number of slices |
| `PiecewiseRun.BuyReplenishes` | crates/meta_amm_sim/src/lib.rs:518-535 | an accepted buy replenishes the bids with the base bought, weighed by the rounds it took, and adds its edge |
| `PiecewiseRun.UnfilledOrder` | crates/meta_amm_sim/src/lib.rs:515-535 | an order that cannot be filled counts as rejected and moves nothing but the depth it took; only an overflow ends the run |
| `PiecewiseRun.RunConserves` | crates/meta_amm_sim/src/lib.rs:481-548 | over any flow both sides stay valid with their prices, filled plus rejected is attempted, every fill has one refill, and under a conserving policy bid depth plus ask depth plus base taken by rejected orders is constant |
| `Cpmm.QuoteMeaning` | crates/meta_amm_math/src/cpmm.rs:21-87 | over every input: which are turned away with which error, and for the others the net input, the output, the reserves and the price, each floor as the bracket it rounds into |
| `Cpmm.QuoteKeepsProduct` | crates/meta_amm_math/src/cpmm.rs:21-87 | a fill keeps both reserves positive and never lowers their product |
| `Cpmm.SplitNeverPaysMore` | crates/meta_amm_math/src/cpmm.rs:21-87 | two consecutive orders in one direction never pay more than the single order, despite every floor, and the single order is quoted whenever both legs are |
| `Cpmm.SimulateCpmm` | crates/meta_amm_sim/src/lib.rs:405-442 | the simulator loop reports what folding the one-order step over the flow gives |
| `Cpmm.StepEndsExactly` | crates/meta_amm_sim/src/lib.rs:417-438 | exactly which orders end a run instead of being filled or turned away |
| `Cpmm.RunEarns` | crates/meta_amm_sim/src/lib.rs:417-438 | the saturating fee and edge counters of a run are the exact sums of what its fills earned, the edge in every run too short to reach its bounds |
| `Market.FeeMeaning` | crates/meta_amm_sim/src/lib.rs:1482-1488 | the fee is the part of the input that is not traded, in quote at the fair price |
| `Market.EdgeMeaning` | crates/meta_amm_sim/src/lib.rs:1490-1509 | the edge of a taker against the fair output, in quote, with its sign and its rounding |
| `Cpmm.RunKeepsProduct` | crates/meta_amm_sim/src/lib.rs:405-442 | over any flow filled plus rejected is attempted, reserves stay positive and their product never decreases |
| `Cpmm.RunNeverDrains` | crates/meta_amm_sim/src/lib.rs:405-442 | a run that brings one reserve back to where it was, or below, cannot have lowered the other |
| `ReferenceLaws.QuoteSettles` | crates/meta_amm_math/src/reference.rs:75-174 | what every accepted quote guarantees: a live age, a trade within the cap of that age, exact inventory moves, positive inventories, and the new base inside the hard band |
| `ReferenceLaws.BandMeaning` | crates/meta_amm_math/src/reference.rs:159-162 | the clamped, truncated 32-bit band test is the plain rational one |
| `ReferenceLaws.QuotePays` | crates/meta_amm_math/src/reference.rs:110-150 | what an accepted quote pays, from the inputs alone: spread of the age, skew of the inventory, the price they make of the mid price on each side, net input and output, each floor as the bracket it rounds into |
| `ReferenceLaws.AgeStateIs` | crates/meta_amm_math/src/reference.rs:54-73 | each age state is its interval of slots since publication |
| `ReferenceLaws.CapMeaning` | crates/meta_amm_math/src/reference.rs:220-244 | the size cap of a live quote: full, sliding by the elapsed part of the window, small |
| `ReferenceLaws.SpreadMeaning` | crates/meta_amm_math/src/reference.rs:246-251 | half spread plus the surcharge for every slot past the ageing threshold, up to its maximum |
| `ReferenceLaws.ImbalanceMeaning` | crates/meta_amm_math/src/reference.rs:253-260 | the imbalance has the sign of the excess over the target and its size rounded toward zero, up to the 32-bit limit |
| `ReferenceLaws.SkewMeaning` | crates/meta_amm_math/src/reference.rs:262-268 | the skew has the sign of the imbalance and its size in proportion, rounded toward zero, up to the cap |
| `ReferenceLaws.PriceMeaning` | crates/meta_amm_math/src/reference.rs:270-289 | the effective price brackets the mid price less spread and skew for a sale, plus spread less skew for a buy, with the exact condition for each error |
| `ReferenceLaws.NetMeaning` | crates/meta_amm_math/src/reference.rs:197-206 | what a fee leaves of an amount, rounded down, and when it leaves nothing |
| `ReferenceLaws.AgeingOnlyTightens` | crates/meta_amm_math/src/reference.rs:54-73 | waiting moves the age state only forward, never raises the cap, which stays between the two configured caps until expiry, and never narrows the spread |
| `ReferenceLaws.CapWhileAging` | crates/meta_amm_math/src/reference.rs:220-244 | while aging the cap slides linearly from full to protected and stays between them |
| `ReferenceLaws.OlderNeverPaysMore` | crates/meta_amm_math/src/reference.rs:75-174 | of two accepted quotes for one order on one inventory the older never pays more |
| `RoundTrips.RoundTripProfitsExactly` | crates/meta_amm_math/src/reference.rs:75-174 | a round trip in either direction and at any fee returns more than was put in if and only if a condition on order, state and parameters holds: the two effective prices and the kept share, with all their floors |
| `RoundTrips.RoundTripProfits` | crates/meta_amm_math/src/reference.rs:75-174 | the same without floors: the trip profits only if the kept share at the two prices covers one atom more than was put in, and surely if it does so by the margin of the floors |
| `RoundTrips.NoFeeMargin` | crates/meta_amm_math/src/reference.rs:75-174 | without a fee that margin is one quote atom for a trip that starts with base and one base atom for one that starts with quote |
| `RoundTrips.RoundTripNeverProfits` | crates/meta_amm_math/src/reference.rs:253-289 | no profit at any fee when the first leg moves the inventory skew, computed from the order, by at most twice the spread |
| `RoundTrips.NarrowSkewNeverProfits` | crates/meta_amm_math/src/reference.rs:253-289 | a skew cap no wider than the half spread rules a profitable round trip out for every inventory and order |
| `RoundTrips.SteepSkewProfits` | crates/meta_amm_math/src/reference.rs:253-289 | a concrete pool, with parameters the compiler accepts, gives back 111 for 100, as the margin foretells |
| `ReferenceLaws.EnvelopeNeverInvalid` | crates/meta_amm_math/src/reference.rs:270-289 | when spread, surcharge and skew caps stay below one together the price factor is positive on both sides at every age and inventory, so no quote fails as misconfigured |
| `SdkQuote.SameAnswer` | sdk/ts/src/index.ts:93-178 | the bigint quote and the fixed-width quote agree field by field and error by error, unless the fixed-width one overflows or a zero mid price got past the first checks |
| `SdkQuote.DoorsAgree` | sdk/ts/src/index.ts:180-227 | both implementations accept the same parameters and see the same age and age state |
| `SdkQuote.PricesAgree` | sdk/ts/src/index.ts:316-329 | the 128-bit effective price is the unbounded one whenever it fits |
| `SdkQuote.InRangeMeansNoOverflow` | sdk/ts/src/index.ts:93-178 | when every field of the SDK answer fits its width the fixed-width quote does not overflow |
| `SdkQuote.SucceedTogether` | sdk/ts/src/index.ts:93-178 | the fixed-width quote succeeds if and only if the SDK quote does with every field in range |
| `SdkQuote.ZeroMidNeverQuotes` | crates/meta_amm_math/src/reference.rs:208-218 | a zero mid price is never quoted, in either implementation |
| `SdkQuote.ZeroMidErrors` | sdk/ts/src/index.ts:106-110 | at a zero mid price past the first checks the SDK reports a bad configuration, and the exact condition under which the fixed-width quote does too |
| `SdkQuote.ZeroMidErrorsDiffer` | sdk/ts/src/index.ts:106-110 | a concrete pool at mid zero with a different error in each implementation, for both directions |
| `ConfigCompiler.CompilesWhen` | crates/meta_amm_config/src/lib.rs:492-516 | exactly which strategies, envelopes, budgets and decimals compile, and that the compiled configuration is the input |
| `ConfigCompiler.CompiledParamsAreSafe` | crates/meta_amm_config/src/lib.rs:639-677 | compiled parameters meet every demand of the quote function and the spread envelope |
| `ConfigCompiler.ParamErrorsAreTrue` | crates/meta_amm_config/src/lib.rs:639-677 | every rejection names a fault the parameters have, and a rate out of range is named before anything else |
| `ConfigCompiler.HumanToAtomMeaning` | crates/meta_amm_math/src/decimal.rs:92-98 | a human price in atoms is multiplied or divided, rounding down, by the power of ten between the decimals |
| `ConfigCompiler.PriceRoundTrip` | crates/meta_amm_math/src/decimal.rs:92-106 | a price survives the trip to atoms and back if and only if the quote token has at least as many decimals or the scale factor divides the price; otherwise it loses exactly its remainder by the factor |
| `ConfigBytes.ToBytes` | crates/meta_amm_config/src/lib.rs:331-412 | the cursor writer fills its 448-byte buffer exactly, field after field |
| `ConfigBytes.PutBytes` | crates/meta_amm_config/src/lib.rs:733-740 | appending a field leaves what was written before untouched |
| `ConfigBytes.ReadParams` | crates/meta_amm_config/src/lib.rs:415-435 | the cursor reader takes its twelve words from the offsets of the layout |
| `ConfigBytes.LeRoundTrip` | crates/meta_amm_config/src/lib.rs:725-754 | a word written in little-endian order reads back |
| `ConfigBytes.LeByte` | crates/meta_amm_config/src/lib.rs:725-731 | byte `k` of a written word is its digit of weight 256 to the `k` |
| `ConfigBytes.AccountReadsBack` | crates/meta_amm_config/src/lib.rs:331-435 | for every configuration, bump and pause flag the written account gives back its parameters and its same-slot order byte |
| `ConfigBytes.EveryFieldReadsBack` | crates/meta_amm_config/src/lib.rs:331-412 | every field, from the discriminator over budget, mints and programs to the price-scale preimage and the padding, is where the layout puts it |
| `ConfigBytes.LayoutIsInjective` | crates/meta_amm_config/src/lib.rs:331-412 | the bytes determine the account: two that differ anywhere are written differently |
| `ExportText.WriteJsonString` | crates/meta_amm_sim/src/calibration.rs:485-499 | the escaping loop appends the quoted, character-wise escaped string |
| `ExportEscapes.EscapeReadsBack` | crates/meta_amm_sim/src/calibration.rs:485-499 | every name reads back from its escaped form by the rules of JSON strings (section 7 of RFC 8259) |
| `ExportEscapes.EscapesExactly` | crates/meta_amm_sim/src/calibration.rs:485-499 | only quotes, backslashes and control characters are escaped, and what is written is printable |
| `ExportText.ExportConfig` | crates/meta_amm_sim/src/calibration.rs:77-185 | the line writer produces the export text, up to the score section |
| `ExportParse.ParseU64Digits` | crates/meta_amm_config/src/lib.rs:837-847 | the digit loop with its overflow check at every step succeeds exactly on digit strings whose whole value fits 64 bits, and gives that value |
| `ExportParse.FindClosingQuote` | crates/meta_amm_config/src/lib.rs:801-819 | the scan stops at the first quote that is not escaped |
| `ExportGrammar.AfterIsFirst` | crates/meta_amm_config/src/lib.rs:821-831 | the search finds the first place where the needle stands, and fails when it stands nowhere |
| `ExportGrammar.NumberAtExactly` | crates/meta_amm_config/src/lib.rs:778-799 | over every text: a number is blanks, at least one digit, then the end or a terminator, with the value of all the digits within 64 bits |
| `ExportGrammar.StringAtExactly` | crates/meta_amm_config/src/lib.rs:801-819 | over every text: a string is blanks, a quote, and everything up to the next quote with an even number of backslashes before it |
| `ExportGrammar.ParsesExactly` | crates/meta_amm_config/src/lib.rs:518-578 | exactly which texts parse, and to which strategy: version, mode, every field in place, and values the compiler accepts |
| `ExportLaws.NumberReadsBack` | crates/meta_amm_config/src/lib.rs:778-799 | a 64-bit number printed in decimal and followed by a terminator parses to itself, whatever comes after |
| `ExportLaws.StringReadsBack` | crates/meta_amm_config/src/lib.rs:801-819 | a written word parses to itself as a string and is never a number |
| `ExportLaws.SearchName` | crates/meta_amm_sim/src/calibration.rs:485-499 | searching a key past an escaped candidate name stops there if and only if what follows the last double quote of the name is the key |
| `ExportLaws.FindItem` | crates/meta_amm_config/src/lib.rs:821-831 | the first-occurrence search finds the first line that carries the key |
| `ExportLaws.FieldFound` | crates/meta_amm_config/src/lib.rs:821-831 | where the search for each field stops in an exported text, for any candidate name and any tail |
| `ExportLaws.HidingNameIsRejected` | crates/meta_amm_config/src/lib.rs:518-578 | a name that hides a field makes the parser fail at exactly that field |
| `ExportLaws.RoundTripsExactly` | crates/meta_amm_config/src/lib.rs:518-578 | for every valid strategy, name and tail, parsing the export gives the strategy back if and only if no searched key is the part of the name after its last double quote |
| `ExportLaws.QuoteFreeNameReadsBack` | crates/meta_amm_config/src/lib.rs:518-578 | so every name without a double quote that is not itself such a key round-trips |
| `QuoteLanding.ApplyLandedUpdates` | crates/meta_amm_sim/src/lib.rs:1073-1096 | the retain loop keeps the updates still in flight in order and lets the last landed one set the price |
| `QuoteLanding.ExecuteSlot` | crates/meta_amm_sim/src/lib.rs:1098-1151 | an order counts one attempt and exactly one fill or rejection, no order counts nothing, and the update counters and the queue are left alone; some errors end the run |
| `QuoteLanding.PublishDue` | crates/meta_amm_sim/src/lib.rs:600-614 | the publish loop sends every update due by a slot |
| `QuoteLanding.SimulateMarketPath` | crates/meta_amm_sim/src/lib.rs:550-638 | the market-path simulator reports what its slot-by-slot specification gives, and rejects a path that goes back |
| `QuoteLanding.SimulateReplay` | crates/meta_amm_sim/src/lib.rs:640-728 | the replay simulator reports what its slot-by-slot specification gives |
| `QuoteLanding.ValidateRecorded` | crates/meta_amm_sim/src/lib.rs:1153-1170 | the check accepts exactly the updates in publish order none of which lands before it is published |
| `LandingLaws.TradeBalances` | crates/meta_amm_sim/src/lib.rs:1098-1151 | a swap attempt keeps attempted equal to fills plus rejections and fills equal to the three age classes, and a stale rejection means the quote had expired |
| `LandingLaws.TradeReports` | crates/meta_amm_sim/src/lib.rs:1098-1151 | which counters an order moves: a fill under the age of its quote, with fee, edge and largest imbalance, a rejection under its reason, which leaves the pool alone |
| `LandingLaws.TradeEndsExactly` | crates/meta_amm_sim/src/lib.rs:1098-1151 | exactly which orders end a run |
| `LandingLaws.AbsImbalanceMeaning` | crates/meta_amm_sim/src/lib.rs:1439-1451 | the reported imbalance is the distance from the target in basis points, rounded down, up to the 16-bit limit |
| `LandingLaws.PublishSendsAll` | crates/meta_amm_sim/src/lib.rs:600-614 | after the publish loop exactly one update per whole period has been sent |
| `LandingLaws.LandingCutsQueue` | crates/meta_amm_sim/src/lib.rs:1073-1096 | landing cuts the queue of published updates exactly at the last due one |
| `LandingLaws.PublishLoopEndsExactly` | crates/meta_amm_sim/src/lib.rs:600-614 | wherever the publish clock starts, it passes a slot after some number of rounds if and only if the slot is not the largest 64-bit value |
| `LandingLaws.MarketInStep` | crates/meta_amm_sim/src/lib.rs:550-638 | over every sorted path, with repeated and skipped slots, counters, queue, publish slot and mid price follow from the publish times and the fair prices of the path, and the largest imbalance never passes the hard band or the initial one |
| `LandingLaws.MarketPriceIsFair` | crates/meta_amm_sim/src/lib.rs:600-636 | the mid price in use is that of the latest landing update that is due: the fair price of the first slot of the path that reaches its publish slot, or the initial price before any |
| `LandingLaws.MarketSwapIsPriced` | crates/meta_amm_sim/src/lib.rs:550-638 | every swap trades the inventories the path has left at the price and the age of the update that prices its slot |
| `LandingLaws.QuietPathRunsExactly` | crates/meta_amm_sim/src/lib.rs:550-638 | without orders a path is simulated if and only if the policy is valid and no slot goes back; slots may repeat and be skipped |
| `LandingLaws.QuietReplayRunsExactly` | crates/meta_amm_sim/src/lib.rs:640-728 | the same for a replay, whose recording must be well formed as well |
| `LandingLaws.MarketLedger` | crates/meta_amm_sim/src/lib.rs:550-638 | sent is the last slot divided by the period, landed the landing updates that were due, dropped the others sent; sent equals landed plus dropped plus in flight |
| `LandingLaws.StartIsStocked` | crates/meta_amm_sim/src/lib.rs:554-596 | a simulation starts from the scenario at slot zero, with nothing counted but the initial imbalance |
| `LandingLaws.MarketAttemptsOrders` | crates/meta_amm_sim/src/lib.rs:550-638 | every order of a path is attempted once and ends as one fill or one rejection |
| `LandingLaws.MarketPublishMovesForward` | crates/meta_amm_sim/src/lib.rs:615-636 | the publish slot in use never moves back along a market path |
| `LandingLaws.QuoteAgeIsBounded` | crates/meta_amm_sim/src/lib.rs:550-638 | with at most `d` drops in a row a quote is never older than `(d+1)*period + latency`, one less when updates land first, and no trade is stale when that is short of expiry |
| `LandingLaws.AgeBoundIsReached` | crates/meta_amm_sim/src/lib.rs:550-638 | the bound is met exactly by a run: a path reports just that age whenever an update is followed by `d` drops |
| `LandingLaws.BeyondBoundGoesStale` | crates/meta_amm_sim/src/lib.rs:550-638 | a bound that reaches expiry has a path on which an order is rejected as stale |
| `LandingLaws.RoomForDropsKeepsQuotesAlive` | crates/meta_amm_config/src/lib.rs:679-700 | an envelope with room for `d` drops in a row: no stale rejection on any sorted path under a policy inside it that drops no more often, under either same-slot order |
| `LandingLaws.EnvelopeKeepsQuotesAlive` | crates/meta_amm_config/src/lib.rs:679-700 | the envelope check of the compiler is the case without drops |
| `LandingLaws.CertainSuccessNeverDrops` | crates/meta_amm_sim/src/lib.rs:1058-1062 | a policy of certain success never drops, whatever the generator draws |
| `LandingLaws.CertainFailureDropsAll` | crates/meta_amm_sim/src/lib.rs:1058-1064 | with success probability zero every update is dropped and the initial price stays in use, whatever the generator draws |
| `LandingLaws.DrawDecides` | crates/meta_amm_sim/src/lib.rs:1058-1071 | with a probability in between it is the draw at its publish slot that decides on an update |
| `LandingLaws.ReplayLedger` | crates/meta_amm_sim/src/lib.rs:640-728 | over every replay the ledger balances and nothing due is left in flight after a slot |
| `LandingLaws.ReplayMatchesDistribution` | crates/meta_amm_sim/src/replay.rs:165-188 | a replay whose last slot reaches every publish and landing slot reports exactly the recorded landing counts |
| `LandingLaws.LandingDistribution` | crates/meta_amm_sim/src/replay.rs:165-188 | the one-pass distribution counts sent, landed and dropped updates and lists the latency of each landed one in recorded order |
| `LandingLaws.LatencyAt` | crates/meta_amm_sim/src/replay.rs:172-181 | the listed latencies, one by one: slots from publication to landing of each landing update |
| `ReplayOrder.ReplayMovesForwardExactly` | crates/meta_amm_sim/src/lib.rs:640-728 | on every slot path the publish slot in use never moves back if and only if, for every landing slot, the last recorded update that lands there was published no earlier than every update that landed before |
| `ReplayOrder.StepTracks` | crates/meta_amm_sim/src/lib.rs:669-722 | after each slot the queue holds exactly the published updates still in flight, and publish slot and mid price are those of the last recorded update of the last batch |
| `ReplayOrder.ReplayPriceIsRecorded` | crates/meta_amm_sim/src/lib.rs:640-728 | over every replay publish slot and mid price in use are those of one recorded update that has landed, the last recorded for its landing slot, or the initial ones before any |
| `ReplayOrder.ReplayIsNewest` | crates/meta_amm_sim/src/lib.rs:640-728 | in an ordered recording the publish slot in use is the newest of all that have landed |
| `ReplayOrder.ReplayCanMoveBack` | crates/meta_amm_sim/src/lib.rs:640-728 | a run over two slots in which an older update lands after a newer one: publish slot 2, then 1 |
| `Calibration.StrategyFromScenarios` | crates/meta_amm_sim/src/calibration.rs:444-476 | the running max/min loop succeeds exactly when all scenarios agree on parameters and order, and gives the tightest envelope that covers them |
| `Calibration.CalibratedQuotesStayAlive` | crates/meta_amm_sim/src/calibration.rs:444-476 | a calibrated strategy keeps quotes alive in each of its scenarios: with room for `d` drops wherever no more drop, and by the envelope check alone wherever none does |
| `Calibration.ExportReachesPool` | crates/meta_amm_config/src/lib.rs:598-637 | a compilable strategy travels unchanged from export through parser, compiler and account bytes to what the pool reads |
| `PoolProgram.QuoteStateAccount.ApplyUpdate` | programs/meta_amm/src/lib.rs:890-924 | an update checks signer, price, sequence and publish slot in that order and then assigns all four fields |
| `PoolProgram.QuoteStateAccount.SetBaseHalfSpread` | programs/meta_amm/src/lib.rs:877-880 | the spread goes into the first two padding bytes with a marker, leaving the rest |
| `PoolProgram.QuoteStateAccount.Initialize` | programs/meta_amm/src/lib.rs:76-105 | a new quote account copies the order byte and the compiled half spread and starts without a price |
| `PoolProgram.CurveSlotAccount.Stage` | programs/meta_amm/src/lib.rs:977-990 | staging replaces the pending slot and hash |
| `PoolProgram.CurveSlotAccount.Activate` | programs/meta_amm/src/lib.rs:992-1009 | activation promotes the pending slot when slot and hash match, and clears the hash |
| `PoolProgram.VaultStateAccount.ApplyBaseFundingToTarget` | programs/meta_amm/src/lib.rs:1067-1087 | funding raises the target, or adopts the vault as first target |
| `PoolProgram.PoolAccounts.InitializeReferenceQuotePool` | programs/meta_amm/src/lib.rs:38-74 | a pool stores the bytes of a compiled configuration |
| `PoolProgram.PoolAccounts.UpdateReferenceQuoteV2` | programs/meta_amm/src/lib.rs:126-153 | price and spread change together or not at all |
| `PoolProgram.PoolAccounts.FundPool` | programs/meta_amm/src/lib.rs:211-259 | transfers come first and the target last |
| `PoolProgram.PoolAccounts.SwapExactIn` | programs/meta_amm/src/lib.rs:261-402 | a swap checks, prices with the carried spread, compares with the minimum and moves exactly the quoted amounts |
| `PoolProgram.PoolAccounts.Execute` | programs/meta_amm/src/lib.rs:33-402 | every transaction makes exactly the specified transition, and a failed one leaves every account as it was |
| `PoolLaws.CompiledLayoutIsSafe` | programs/meta_amm/src/lib.rs:38-74 | the layout of a new pool reads back to accepted parameters and the requested order |
| `PoolLaws.SpreadReadsBack` | programs/meta_amm/src/lib.rs:877-888 | the spread stored in the padding reads back, whatever it overwrote |
| `PoolLaws.StepKeepsSafe` | programs/meta_amm/src/lib.rs:33-402 | every instruction by anyone keeps the invariant: compiled layout, envelope spread, price exactly with a sequence, publish slot not after landing slot, pending slot active when nothing is staged |
| `PoolLaws.EveryPoolIsSafe` | programs/meta_amm/src/lib.rs:33-402 | that invariant holds after every sequence of transactions from a new pool |
| `PoolLaws.ConfigIsPermanent` | programs/meta_amm/src/lib.rs:155-158 | authority, parameters and order of a live pool never change, and only its authority pauses it |
| `PoolLaws.FundingKeepsBand` | programs/meta_amm/src/lib.rs:1067-1087 | funding moves vault and target equally, or adopts the vault as target, so it keeps the band |
| `PoolLaws.SwapSettles` | programs/meta_amm/src/lib.rs:261-402 | an accepted swap binds to the named sequence, uses a quote younger than expiry, moves exactly the input and the quoted output, at least the minimum, and ends inside the band even if an outside transfer had left it |
| `PoolLaws.StepKeepsBand` | programs/meta_amm/src/lib.rs:211-402 | once base is funded only a base transfer from outside the program can leave the band |
| `PoolLaws.BandHolds` | programs/meta_amm/src/lib.rs:211-402 | over every interleaving without such a transfer the base vault stays inside the hard band of its target |
| `PoolLaws.SwapErrors` | programs/meta_amm/src/lib.rs:261-402 | in a reachable pool a swap is refused only for the order, the age, the inventory, a pause or a missing setup, never for configuration, order byte or a quote from the future |
| `PoolLaws.NoSwapIsMisconfigured` | programs/meta_amm/src/lib.rs:278-308 | after any sequence of transactions no swap fails as misconfigured |
| `PoolHistory.EveryPoolRemembers` | programs/meta_amm/src/lib.rs:33-402 | over every history: authority, parameters and order are those of the founding transaction; pause flag, price, publish slot, sequence and half spread those of the last accepted instruction that sets them |
| `PoolHistory.SwapIsPricedByHistory` | programs/meta_amm/src/lib.rs:261-308 | every accepted swap is priced from its history: founding parameters, last accepted price, and the spread last asked for plus the age surcharge, with price, fee and output in plain arithmetic |
| `PoolHistory.VaultsBalance` | programs/meta_amm/src/lib.rs:211-402 | tokens are conserved over every history: each vault holds what was funded, sent and paid in, less what takers were paid |
| `PoolAcceptance.FoundingAcceptedExactly` | programs/meta_amm/src/lib.rs:38-74 | exactly which transactions found a pool |
| `PoolAcceptance.OpeningAcceptedExactly` | programs/meta_amm/src/lib.rs:76-209 | exactly when quote account, curve slots and vaults open, and who may pause |
| `PoolAcceptance.UpdateAcceptedExactly` | programs/meta_amm/src/lib.rs:107-153 | exactly which quote updates a reachable pool accepts |
| `PoolAcceptance.CurveAcceptedExactly` | programs/meta_amm/src/lib.rs:976-1009 | exactly which stagings and activations are accepted |
| `PoolAcceptance.FundingAcceptedExactly` | programs/meta_amm/src/lib.rs:211-259 | exactly which fundings are accepted |
| `PoolAcceptance.SwapAcceptedExactly` | programs/meta_amm/src/lib.rs:261-402 | a swap is accepted if and only if it is due, its price can be quoted and the output reaches the minimum; the transfers never fail |
| `PoolAcceptance.SwapRefusedFor` | programs/meta_amm/src/lib.rs:1268-1283 | which error a due swap gets: exactly when for an empty vault, an expired quote, the size limit of an ageing quote and the minimum, and which quote faults for the others |
| `PoolLaws.RoundTripLeavesBase` | programs/meta_amm/src/lib.rs:261-402 | selling base and swapping the proceeds back in one slot never takes base out of the pool when the skew cap is within the carried spread |
| `PoolLaws.SwapKeepsValue` | programs/meta_amm/src/lib.rs:261-402 | a swap never lowers the value of the two vaults at the mid price, when the skew cap is within the carried spread |
| `PoolLaws.RunsKeepValue` | programs/meta_amm/src/lib.rs:33-402 | over every run without an accepted update, swaps interleaved with anything else never extract value at the mid price of the quote |
| `PoolLaws.QuoteMovesForward` | programs/meta_amm/src/lib.rs:890-924 | a quote changes only by an authorised update, which raises the sequence, never moves the publish slot back and never publishes ahead of its slot |
| `PoolLaws.SequenceCountsUpdates` | programs/meta_amm/src/lib.rs:890-924 | over a run the sequence grows by at least one per accepted update and the quote is unchanged without one |
| `PoolLaws.CurveMoves` | programs/meta_amm/src/lib.rs:976-1009 | staging and activation are the only changes to the curve slots, both by the authority with a rising sequence |
| `PoolLaws.PendingIsLatest` | programs/meta_amm/src/lib.rs:976-1009 | the pending slot and hash are those most recently staged |
| `PoolLaws.ActiveSlotWasStaged` | programs/meta_amm/src/lib.rs:976-1009 | the active slot changes only to the slot most recently staged, and only by repeating its non-zero hash |

## Left out

- PublishDue: requires a slot below the largest 64-bit value, because at that slot the publish loop of `crates/meta_amm_sim/src/lib.rs:600-614` never ends (`PublishLoopEndsExactly`).
- SimulateMarketPath: requires the same of every slot of its path.
- ExportConfig: everything behind the envelope (score, evaluation, scenarios) is an arbitrary tail; the parser never needs to look that far.
- RoundTripNeverProfits: its condition on the skew is sufficient only; the exact condition is the one of `RoundTripProfitsExactly`.
- LandingDistribution: latencies are listed, but their percentile summary and the success rate are not modelled.
- Report and tally counters are unbounded natural numbers; the program counts in 64-bit words that a run cannot exhaust.
- Anchor account constraints, program-derived addresses, cross-program calls, events and token-extension probing. The checks that tie accounts to one pool hold by construction, since a modelled pool owns its accounts.
- Failing token transfers for lack of user funds or frozen accounts: they only add rejected transactions, which change nothing.
- The bid-side use of the base-for-quote search: the program only searches the ask side.
- The pseudo-random generator, generated market paths, and their aggregation into percentiles.
- Replay CSV parsing and column lookup, flow distribution summaries and the policy derived from a replay.
- Gate thresholds, scenario packs, calibration scoring and sorting, aggregator manifests.
- Floating-point steps of the SDK skew: their values stay far below 2^53, so they are modelled as truncating integer division.
- Text is a sequence of characters; UTF-8 encoding and byte offsets inside it are not modelled.
- Q64.64 helpers that no modelled code calls: `from_int`, `to_int_floor`, `checked_add`, `checked_sub`, `checked_mul`, `checked_div`.
