# Verified model of the loan manager and the paged migration

This project models two parts of the ChainSettle contracts in Dafny and proves what they guarantee.

**The loan manager** (`contracts/loan_manager`) is a lending pool for one collateral asset and one debt asset.
Depositors supply debt tokens, borrowers post collateral and borrow, and anyone may liquidate a position whose health
factor falls below one. Debt that a liquidation writes off is a loss spread over the depositors. Prices come from two
oracles with a time-weighted average as the last resort.

**The paged migration** (`contracts/chainsetttle/src/paged_migration.rs`) processes a long list of items in chunks, with a
cursor per migration that survives between calls.

## How the project is laid out

| file | holds |
|---|---|
| `Constants.dfy`, `Arith.dfy` | the contract's constants; machine widths, rounding, floor-division facts |
| `Results.dfy`, `Sums.dfy` | options, reverts; totals of maps and lists |
| `Liquidation.dfy` | the liquidation arithmetic, parametric in the width its operations run at |
| `LiquidationBounds.dfy`, `LiquidationTarget.dfy`, `LiquidationLimits.dfy`, `LiquidationProgress.dfy`, `Bonus.dfy` | what a plan guarantees through its rounding steps |
| `LiquidationWidth.dfy` | where the contract's saturating arithmetic is exact |
| `LiquidationCalls.dfy` | the plan and the outcome in numbers, for every amount a caller can ask to repay |
| `Socialization.dfy`, `ProRata.dfy` | proportional shares, the two passes of a write-off, and when they are pro rata |
| `Oracle.dfy` | one price feed: validation, accumulator, snapshot buffer, average, failover; the class `PriceFeed` |
| `Failover.dfy` | which source a price comes from |
| `TwapHistory.dfy`, `TwapMean.dfy`, `TwapWindow.dfy`, `TwapSaturation.dfy`, `TwapRobustness.dfy` | the feed against its full history of observations |
| `Pool.dfy` | every call of the pool as a function from a state to a new state or a revert; runs of calls |
| `PoolInvariants.dfy`, `PoolHealth.dfy`, `PoolFeeds.dfy` | what every run keeps |
| `PoolFairness.dfy` | what each call does to each account, when it goes through, and what undoes it |
| `PoolGuards.dfy`, `PoolEffects.dfy` | exactly when each call goes through, why it is refused otherwise, what it records, and what it changes for whom |
| `LoanManager.dfy` | the contract as a class whose methods update its fields and do exactly what `Pool` says |
| `Migration.dfy` | the migration class and its runs |

`dafny verify dfyconfig.toml` checks everything. Every lemma carries `{:induction false}`: the inductions are the ones
written out in the bodies.

## Main results

- **The books balance in every reachable state.** For any sequence of calls by anyone, with any oracle answers and any
  administrator settings, cash plus outstanding debt equals deposits plus tokens given to the pool from outside; every
  total is the sum of its parts; deposits cover debt; both token supplies are unchanged
  (`PoolInvariants.BooksAlwaysBalance`). So no permitted payout finds the pool short (`PayoutsAreFunded`) and a
  liquidation's bad debt is absorbed exactly (`BadDebtIsAbsorbed`).
- **Lending calls leave every account's worth unchanged**, where worth is holdings plus claims less debt, and deposits and
  loans can be undone at once (`PoolFairness.DepositThenWithdraw`, `BorrowThenRepay`). A write-off does move value, from
  depositors to the borrower and by exactly the socialized amount: `PoolFairness.LiquidationByAccount` settles a
  liquidation account by account.
- **Losses are absorbed exactly, and when they are spread pro rata is settled.** Both passes together take exactly the loss and
  overdraw nobody, for every pool (`Socialization.LossIsAbsorbed`). Each of n depositors is charged its floored share plus at
  most n - 1 units if and only if the residual that saturated shares leave reaches everyone they fall short for
  (`ProRata.LossIsProRataIff`, `PoolFairness.SocializeIsProRataIff`, `LiquidationLossesAreProRataIff`), as it does whenever no
  balance's product with the loss saturates.
- **When a liquidation reaches the target health factor is settled exactly**, in every mode and through every rounding: the
  comparison with 11/10 equals a margin computed from the quote (`LiquidationTarget.TargetIsMetIff`,
  `LiquidationWidth.ContractMeetsTargetIff`). A partial liquidation misses by at most one value unit and what the debt's
  rounding carries (`PartialRestoresTarget`, `DebtCarryBound`), and when a further
  liquidation finds anything to do is settled exactly as well (`SecondLiquidationIff`, `PoolHealth.SecondLiquidationReverts`).
- **Every successful liquidation is given in numbers**, for positions worth up to 10^29 value units a side: repayment, seizure,
  bonus and write-off equal a closed form of the position, the prices, the settings and the amount asked for, with 0 asking
  for the target and the largest amount for everything
  (`LiquidationCalls.OutcomeInNumbers`, `PlanInNumbers`).
- **When debt is cleared for nothing is settled exactly**, for every call the contract accepts: a liquidation repays nothing,
  seizes nothing and charges the whole debt to the depositors if and only if what is asked, capped by the debt and its
  backing, is worth less than a debt token (`PoolFairness.ClearsForNothingIff`, `OneUnitClearsForNothingIff`).
- **When a liquidation improves a position is settled too**: short of draining it, its health factor does not fall if and only if
  the debt relieved outweighs the collateral seized, each less what its rounding carries
  (`LiquidationProgress.HealthDoesNotFallIff`). Collateral that covers debt and bonus is enough when the debt's rounding
  carries nothing (`CoveredDoesNotWorsen`), and needed when nothing is rounded (`EvenRepaymentHelpsIff`).
- **The 34-slot snapshot buffer loses nothing**, and a buffer loses nothing exactly when its slots span more than the window
  (`TwapRobustness.BufferSizeIff`).
- **When the fallback price exists, and when it is the mean, is settled for every history** of observations: there is an average if
  and only if there are two snapshots, the window is long enough and the accumulator was not full when it started
  (`TwapMean.AverageExistsIff`). It never exceeds the mean of the price in force over every second of its window, and is
  that mean if and only if what clamping and saturation cut off is within the remainder of the division
  (`TwapMean.TwapIsMean`, `WindowIsExactIff`). A full accumulator stays full (`TwapSaturation.FullIsForever`). Over exact
  windows a price in force for d seconds moves the average by at most its change times d / 300, rounded up
  (`TwapRobustness.SpikeIsDamped`, `SpikeOverFiveMinutes`).
- **A well observed feed has an average over about half an hour**: observations at most G seconds apart give a window longer than
  1740 - G seconds (`TwapWindow.WindowIsLong`), and guarantee an average while the accumulator is not full if and only if
  G is at most 870 (`SafeGapIff`).
- **The failover order is fixed**: a usable primary answer serves whatever the secondary says, then a usable secondary one, then the
  average (`Failover.FailoverOrder`).
- **Each call goes through exactly when it should**, with an if-and-only-if per call and a reason per refusal (`PoolGuards`),
  and changes what it should for its caller and nothing for anyone else (`PoolEffects`).
- **In every reachable state each feed replays a history** of valid answers the run was given, each at its time, as
  long as the clock never runs back, so all of this holds of the pool, and no price it uses exceeds the highest valid answer
  it was ever given (`PoolFeeds.FeedsReplayHistories`, `PricesNeverExceedAnswers`).
- **In a market whose oracles answer one pair of prices, or nothing, no run makes anyone liquidatable**, whatever falls back to
  the average (`PoolHealth.CalmMarketsNeverLiquidate`), as long as no feed goes 2^32 seconds without an observation and each
  price times the time passed is a 128-bit number.
- **Migrations process each item exactly once**, in any interleaving, and a complete one has processed exactly the total it was
  started with (`Migration.EveryItemExactlyOnce`, `TotalsAreAsStarted`, `CompletePassIsWhole`, `OnlyTheTotalMatters`).

## Modelling choices

- `Env` gathers what a call finds outside the pool: the clock, the answers of both oracles for both assets (`None` when an
  oracle is unset or its call fails), the liquidation threshold, the incentive settings and the pause flag. Runs may change
  any of these between calls. The two tokens are fixed.
- A call that panics reverts: the class methods put the stored state back, and the error tells which check failed.
- The pool's own account cannot authorise a call, so calls made in its name are refused as `Unauthorized`.
- Amounts are 128-bit. Saturating operations saturate (`Width.I128`), plain additions that would overflow revert, and clock
  arithmetic saturates at zero and at the 64-bit maximum. Results named for all widths hold of the contract on every input;
  results on plans in exact arithmetic carry over wherever `LiquidationWidth.NoSaturation` applies, that is for positions whose
  collateral and debt are each worth at most 10^29 value units. Socialization has a condition of its own (`ProRata.CutsAgreeIff`).
- Direct token transfers by others, including gifts to the pool, are calls of a run.

## Where the code and its documentation differ

- The plan's documentation (liquidation.rs:132-133) promises that a seizure that does not drain the position leaves a health factor
  of at least 1.1. The target repayment is rounded down and both sides are rounded to tokens, so this is false:
  `SlackIsNeeded` gives a position, and `EvenTargetCanMiss` one where even the target itself is not rounded. `TargetIsMetIff`
  says for every mode exactly when it holds: the repayment's cover of the shortfall, plus what rounding the seizure down
  returns, must outweigh what the debt's remainders carry. For a partial liquidation that repays its target this is a comparison of
  remainders alone (`PartialTargetIff`), met whenever the division and the debt's conversion come out even
  (`EvenDivisionsMeetTarget`).
- A comment (liquidation.rs:204-206) says a drained position keeps no sliver of collateral. It can keep less than one value unit
  plus one token (`DrainedLeavesDust`, `DrainedCanLeaveDust`); it keeps nothing if and only if what the rounded-up cap seizes
  covers the collateral exactly (`DrainedEmptiesIff`).
- The same documentation (liquidation.rs:134-135) ties bad debt to a drained position. A request worth less than one debt token
  also writes off the whole debt and leaves the collateral where it is, and `UndrainedWriteOffIff` and `RequestWritesOffIff` say
  exactly when. A request for one unit does so against every liquidatable debt whose token's price is not a whole number
  of value units, and otherwise only when the debt or its backing is worth less than a token (`OneUnitWritesOffIff`).
- The scenario test (fuzz_tests.rs:254-257) takes it that a borrower without collateral has no debt. That holds of all runs whose debt
  prices stay at or above a floor if and only if the floor is at least one value unit (`NoPhantomDebtIff`): below it a two-call run ends
  with a debt and no collateral (`OrphanRunEnds`).
- The average's documentation (oracle.rs:155-158) has it fail only for lack of recorded history. It also fails once the accumulator is
  full, and then for good: `SpikedFeedHasNone` gives three valid answers after which it does, `FullIff` says when the
  accumulator is full and `AverageExistsIff` when there is an average. When a gap outgrows 32 bits the average falls short of
  the prices it averages (`IdleFeedFallsShort`); `WindowIsExactIff` says when nothing is lost.
- Socialization is documented as proportional (lib.rs:90-93). The product of a balance and the loss saturates, and what the shares
  then miss is charged to the first depositors: `ProRata.LopsidedLoss` and `PoolFairness.LargeLossIsLopsided` give a pool of two equal
  depositors of 10^20 in which the first bears more than nineteen twentieths of a loss. `LossIsProRataIff` says exactly when the
  documentation holds, and `CutsAgreeIff` when saturation changes nothing.
- A comment (oracle.rs:172-174) says the newest snapshot inside the window is picked; the loop picks the oldest one inside the
  window, which is what the trailing-window description asks for. The model follows the loop.

## Model

| member | source | states |
|---|---|---|
| `LiquidationBounds.ConversionRoundTrip` | contracts/loan_manager/src/liquidation.rs:81-94 | converting units to value and back never creates units and loses less than one value unit plus one token |
| `LiquidationBounds.NoPriceNoWorth` | contracts/loan_manager/src/liquidation.rs:81-94 | without a positive price both conversions give zero |
| `LiquidationBounds.PlanIsContained` | contracts/loan_manager/src/liquidation.rs:126-248 | at either width a plan repays at most the debt, seizes at most the collateral, keeps the bonus under the penalty cap, writes off nothing or the whole rest, touches no healthy position, and does something to every liquidatable one |
| `LiquidationBounds.NoDebtWithoutCollateral` | contracts/loan_manager/src/liquidation.rs:228-247 | at either width no plan leaves a borrower with debt and no collateral |
| `LiquidationBounds.AffordableIsCeiling` | contracts/loan_manager/src/liquidation.rs:204-211 | the affordability cap is the collateral value over the gross factor, rounded up |
| `LiquidationBounds.SeizesAllIff` | contracts/loan_manager/src/liquidation.rs:204-238 | a repayment seizes all the collateral value if and only if it reaches the cap |
| `LiquidationBounds.DrainedIffAtCap` | contracts/loan_manager/src/liquidation.rs:204-240 | a plan drains the position if and only if its repayment equals the rounded-up cap |
| `LiquidationBounds.DrainedOnlyUnderwater` | contracts/loan_manager/src/liquidation.rs:185-240 | only a position whose collateral does not cover debt plus bonus is drained in any mode; a full liquidation drains exactly those |
| `LiquidationBounds.UnreachableTargetDrains` | contracts/loan_manager/src/liquidation.rs:175-197 | when the target equation has no positive denominator, a partial liquidation repays up to the cap and drains |
| `LiquidationTarget.MeetsTargetIff` | contracts/loan_manager/src/liquidation.rs:165-183 | a repayment meets the target equation if and only if it covers the shortfall at the denominator's rate |
| `LiquidationTarget.TargetUnreachable` | contracts/loan_manager/src/liquidation.rs:175-197 | with a non-positive denominator no repayment at all meets the target |
| `LiquidationTarget.TargetValueIsFloor` | contracts/loan_manager/src/liquidation.rs:185-192 | the computed target is the exact solution rounded down: one unit less misses, one more meets, and it meets itself if and only if nothing was rounded |
| `LiquidationTarget.HealthAfter` | contracts/loan_manager/src/liquidation.rs:126-248 | the health comparison an undrained plan leaves, recomputed from the units left, equals the margin of the quote |
| `LiquidationTarget.TargetIsMetIff` | contracts/loan_manager/src/liquidation.rs:132-133 | in every mode an undrained plan leaves a health factor of at least 11/10 if and only if that margin is not negative |
| `LiquidationTarget.PartialTargetIff` | contracts/loan_manager/src/liquidation.rs:165-240 | for a partial liquidation that repays its target, if and only if what rounding the seizure returns covers the remainders of the target and the debt |
| `LiquidationTarget.EvenDivisionsMeetTarget` | contracts/loan_manager/src/liquidation.rs:185-240 | so it does when the target division leaves no remainder and the debt's conversions carry nothing |
| `LiquidationTarget.DebtCarryBound` | contracts/loan_manager/src/liquidation.rs:81-94 | per price, how much the debt's conversions can carry: at most one value unit below a price of one, nothing at exactly one, less than the price where it is whole |
| `LiquidationTarget.PartialRestoresTarget` | contracts/loan_manager/src/liquidation.rs:132-240 | an undrained partial liquidation misses 11/10 by at most one value unit and what the debt's conversions carry |
| `LiquidationTarget.EvenTargetCanMiss` | contracts/loan_manager/src/liquidation.rs:132-133 | a position whose target comes out even in value and whose tokens still miss 11/10 |
| `LiquidationTarget.SlackIsNeeded` | contracts/loan_manager/src/liquidation.rs:132-133 | a position on which the documented guarantee fails, by all but 30 of a slack of 220000 |
| `LiquidationTarget.LiquidatableAgainIff` | contracts/loan_manager/src/liquidation.rs:126-248 | in every mode an undrained plan leaves a position that can be liquidated again if and only if debt of value is left and the margin falls short of the target by more than the target's distance from one |
| `LiquidationTarget.SecondLiquidationIff` | contracts/loan_manager/src/liquidation.rs:9-10 | so every further plan is empty if and only if the first left the position healthy |
| `LiquidationTarget.SecondLiquidationFindsNothing` | contracts/loan_manager/src/liquidation.rs:9-10 | as it does when an undrained partial liquidation leaves more debt than the slack |
| `LiquidationLimits.LiquidatorTakeIsBounded` | contracts/loan_manager/src/liquidation.rs:208-233 | at either width and in every mode the seized worth stays below the gross of one token more than was repaid, with the bonus under the penalty cap |
| `LiquidationLimits.LiquidatorTakeIsSubstantial` | contracts/loan_manager/src/liquidation.rs:228-233 | and it is worth at least the gross of the repayment less one collateral token and one value unit, unless it is all of the collateral |
| `LiquidationLimits.DrainedLeavesDust` | contracts/loan_manager/src/liquidation.rs:204-247 | a drained position keeps no debt and less collateral than one value unit plus one token |
| `LiquidationLimits.DrainedEmptiesIff` | contracts/loan_manager/src/liquidation.rs:204-240 | it keeps no collateral if and only if what the rounded-up cap seizes covers its units exactly, as when these are worth a whole number of value units |
| `LiquidationLimits.DrainedCanLeaveDust` | contracts/loan_manager/src/liquidation.rs:204-206 | a drained position that keeps one unit |
| `LiquidationLimits.FullLeavesDust` | contracts/loan_manager/src/liquidation.rs:197-240 | an undrained full liquidation leaves less debt than one value unit plus one token |
| `LiquidationLimits.UndrainedWriteOffIff` | contracts/loan_manager/src/liquidation.rs:196-240 | at either width and in every mode the whole debt is written off for nothing if and only if what the mode asks, capped by debt and backing, is worth less than a debt token; no other bad debt arises without draining |
| `LiquidationLimits.RequestWritesOffIff` | contracts/loan_manager/src/liquidation.rs:198-226 | the same in terms of the requested units |
| `LiquidationLimits.OneUnitWritesOffIff` | contracts/loan_manager/src/liquidation.rs:198-226 | a request for one unit does so if and only if the price is not a whole number of value units or debt or backing are worth less than a token |
| `LiquidationLimits.FullWritesOffIff` | contracts/loan_manager/src/liquidation.rs:197-226 | a full liquidation does so if and only if debt or backing are worth less than a token |
| `LiquidationLimits.RepaymentIsSubstantial` | contracts/loan_manager/src/liquidation.rs:185-212 | full and partial liquidations repay at least an eleventh of the debt value or the whole affordable amount |
| `LiquidationLimits.WriteOffOnlyWhenDrained` | contracts/loan_manager/src/liquidation.rs:134-240 | when a debt token is worth no more than that, nor than what is requested, bad debt arises only from a drained position |
| `LiquidationLimits.DustRequestWritesOffEverything` | contracts/loan_manager/src/liquidation.rs:198-226 | a position whose whole debt is written off by a request worth less than a token while its collateral stays |
| `LiquidationLimits.RequestIsRespected` | contracts/loan_manager/src/liquidation.rs:198-216 | a requested repayment is never exceeded and, unless debt or collateral caps it, met up to one value unit and one token |
| `LiquidationLimits.RequestIsNeverExceeded` | contracts/loan_manager/src/liquidation.rs:198-216 | at either width no more than the requested units is repaid |
| `LiquidationTarget.ScenarioPlans` | contracts/loan_manager/src/test_liquidation.rs:53-98 | the exact plans of a shallow and a deep price fall: a partial repayment at bonus 580, and a drained position with 1413 tokens written off |
| `LiquidationProgress.ValueHealthIff` | contracts/loan_manager/src/liquidation.rs:31-38 | before rounding, a repayment does not lower the health factor if and only if the collateral covers debt and bonus |
| `LiquidationProgress.HealthDoesNotFallIff` | contracts/loan_manager/src/liquidation.rs:214-247 | through every rounding, an undrained plan does not lower it if and only if the debt relieved outweighs the collateral seized, each less its carry |
| `LiquidationProgress.CoveredDoesNotWorsen` | contracts/loan_manager/src/liquidation.rs:214-247 | with cover and no debt carry it never does |
| `LiquidationProgress.EvenRepaymentHelpsIff` | contracts/loan_manager/src/liquidation.rs:214-247 | when nothing is rounded, cover is also needed |
| `LiquidationProgress.ContractHealthDoesNotFallIff` | contracts/loan_manager/src/liquidation.rs:214-247 | the exact condition for the saturating contract itself |
| `LiquidationProgress.RequestCanWorsen` | contracts/loan_manager/src/liquidation.rs:198-247 | a requested repayment that lowers a position's health factor from 0.8 to 0.792 |
| `Bonus.BonusIsInterpolation` | contracts/loan_manager/src/liquidation.rs:52-74 | the bonus is the floored linear interpolation in depth below health one, clamped to the configured range and capped |
| `Bonus.AntitoneInHealth` | contracts/loan_manager/src/liquidation.rs:46-74 | worse health never lowers the bonus |
| `Bonus.ScaleInvariant` | contracts/loan_manager/src/liquidation.rs:46-74 | the bonus depends only on the health factor, not on the fraction expressing it |
| `Bonus.BonusAtTheEnds` | contracts/loan_manager/src/liquidation.rs:46-74 | the capped base bonus at health one and above, the capped maximum at one half and below |
| `Bonus.BonusRange` | contracts/loan_manager/src/liquidation.rs:46-74 | the bonus always lies between those two |
| `Bonus.PlanBonusIsInterpolation` | contracts/loan_manager/src/liquidation.rs:158-248 | every plan, in every mode and whether or not it does anything, reports the interpolation at collateral value times threshold over debt value times 10000 |
| `Bonus.ContractBonusIsInterpolation` | contracts/loan_manager/src/liquidation.rs:158-248 | so does the saturating contract |
| `Bonus.BonusIgnoresMode` | contracts/loan_manager/src/liquidation.rs:158-248 | at either width the bonus of a plan does not depend on the mode |
| `LiquidationWidth.NoSaturation` | contracts/loan_manager/src/liquidation.rs:31-248 | for collateral and debt each worth at most 10^29 value units and validated settings, no saturating operation changes any value of a plan |
| `LiquidationWidth.AcceptedPricesOperate` | contracts/loan_manager/src/oracle.rs:198-206 | units below 2^63 at any price within the ceiling of price checks are worth less than a tenth of that |
| `LiquidationWidth.ExactRequest` | contracts/loan_manager/src/liquidation.rs:198-202 | an oversized requested amount may saturate, and the cap at the debt value hides it |
| `LiquidationWidth.ContractMeetsTargetIff` | contracts/loan_manager/src/liquidation.rs:132-133 | the exact condition for the target, for the saturating contract itself |
| `LiquidationWidth.ContractLiquidatableAgainIff` | contracts/loan_manager/src/liquidation.rs:126-248 | the exact condition for a further liquidation, for the saturating contract itself |
| `LiquidationWidth.ContractRestoresTarget` | contracts/loan_manager/src/liquidation.rs:132-240 | the bound on the miss, for the saturating contract itself |
| `LiquidationCalls.PlanInNumbers` | contracts/loan_manager/src/liquidation.rs:140-248 | every plan of a liquidatable position, in every mode, in closed form: the value asked for, capped by the debt and by collateral over one plus bonus rounded up; the units and the seizure it buys; what is written off |
| `LiquidationCalls.OutcomeInNumbers` | contracts/loan_manager/src/lib.rs:475-581 | every successful liquidation reports that closed form for its amount, 0 asking for the target and 2^127 - 1 for everything |
| `LiquidationCalls.ReportedBonus` | contracts/loan_manager/src/lib.rs:564-580 | the reported bonus is the interpolation, whatever was asked |
| `LiquidationCalls.ZeroRestoresTarget` | contracts/loan_manager/src/lib.rs:461-507 | asking for 0 repays at most the solution of the target equation and, if nothing is written off, leaves 11/10 up to the slack |
| `LiquidationCalls.LargestRepaysAll` | contracts/loan_manager/src/lib.rs:461-507 | asking for 2^127 - 1 leaves debt worth less than one value unit plus one token |
| `LiquidationCalls.AmountIsRespected` | contracts/loan_manager/src/lib.rs:461-507 | any amount in between is never exceeded and is met up to one value unit and one token unless debt or backing cap it |
| `LiquidationCalls.NegativeIsRefused` | contracts/loan_manager/src/lib.rs:498-507 | a negative amount is refused |
| `Socialization.ProportionalShares` | contracts/loan_manager/src/liquidation.rs:258-270 | the loop computes the floored share of every balance in order, all zero for an empty pool or loss |
| `Socialization.NothingToShare` | contracts/loan_manager/src/liquidation.rs:254-262 | an empty pool or no loss gives everyone a share of zero |
| `Socialization.SharesCoverLoss` | contracts/loan_manager/src/liquidation.rs:254-270 | the shares add up to at most the loss and miss it by less than one unit per depositor, so pass 1 takes every share in full |
| `Socialization.LossIsAbsorbed` | contracts/loan_manager/src/lib.rs:110-143 | at either width the two passes take exactly the loss and overdraw no depositor |
| `ProRata.CutsUpTo` | contracts/loan_manager/src/lib.rs:110-143 | at either width the first k depositors together lose all they hold, or the loss less the others' shares if that is less |
| `ProRata.LossIsProRataIff` | contracts/loan_manager/src/lib.rs:90-143 | at either width every depositor loses its floored pro-rata share plus at most n - 1 units if and only if each share is complete or the residual reaches its depositor |
| `ProRata.LossIsProRata` | contracts/loan_manager/src/lib.rs:110-143 | in exact arithmetic it always does |
| `ProRata.SharesDoNotSaturate` | contracts/loan_manager/src/liquidation.rs:266-268 | while no balance's product with the loss saturates, the contract's cuts are the exact ones and pro rata |
| `ProRata.CutsAgreeIff` | contracts/loan_manager/src/lib.rs:110-143 | the contract's cuts are the exact ones if and only if whatever saturation takes off a share is charged to that same depositor |
| `ProRata.LopsidedLoss` | contracts/loan_manager/src/liquidation.rs:266-268 | two equal balances of which the first bears more than nineteen twentieths of a loss |
| `Oracle.StartIndex` | contracts/loan_manager/src/oracle.rs:172-183 | the start is the oldest snapshot not before the cutoff, or the newest one when all are before it |
| `Oracle.PriceFeed.RecordObservation` | contracts/loan_manager/src/oracle.rs:114-153 | updating the feed in place gives the specified accumulator: seeded, accumulated, snapshotted on cadence, oldest evicted |
| `Oracle.PriceFeed.TwapPrice` | contracts/loan_manager/src/oracle.rs:159-196 | the scan finds the specified window start and average, or none for each of the failing checks |
| `Oracle.PriceFeed.ResolvePrice` | contracts/loan_manager/src/oracle.rs:75-106 | the primary answer, else the secondary, each feeding the accumulator, else the average |
| `Failover.FailoverOrder` | contracts/loan_manager/src/oracle.rs:37-106 | an answer that is positive, at most 60 seconds ahead and at most 300 seconds old serves and is recorded, the primary's first whatever the secondary says; the average serves if and only if neither qualifies |
| `Failover.AnswerIsRecorded` | contracts/loan_manager/src/oracle.rs:75-106 | the feed becomes the replay of the history extended by exactly that answer at the time of the call |
| `Failover.FailoverByExample` | contracts/loan_manager/src/oracle.rs:37-106 | two usable answers that differ, one too old by a second, one too far ahead by a second, and a price of zero |
| `TwapHistory.SnapshotsAreSpaced` | contracts/loan_manager/src/oracle.rs:136-150 | under any history snapshots are at least one interval apart, but for a last one where the clock saturates |
| `TwapHistory.BufferIsSuffix` | contracts/loan_manager/src/oracle.rs:142-149 | under any history the bounded buffer is the newest part of the full snapshot list and all else agrees |
| `TwapHistory.WideBufferLosesNothing` | contracts/loan_manager/src/oracle.rs:136-195 | a buffer whose slots span more than the window gives every average the unbounded one gives |
| `TwapHistory.BufferRefinesHistory` | contracts/loan_manager/src/oracle.rs:136-195 | the contract's 34 slots do |
| `TwapHistory.BufferInNumbers` | contracts/loan_manager/src/oracle.rs:136-150 | the buffer is the newest 34 snapshots, taken at least 60 seconds apart, the newest less than 60 seconds before the last observation |
| `TwapRobustness.BufferSizeIff` | contracts/loan_manager/src/constants.rs:24-35 | a buffer agrees with unbounded history everywhere if and only if slots times interval exceeds the window |
| `TwapMean.CumulativeIsArea` | contracts/loan_manager/src/oracle.rs:128-134 | the accumulator is the area of the observed prices with every gap cut at the clamp, up to the largest amount; it equals the whole area if and only if no gap outgrew the clamp and the area is representable |
| `TwapMean.AverageExistsIff` | contracts/loan_manager/src/oracle.rs:159-196 | under every history the average exists if and only if there are two snapshots, 300 seconds of window and an accumulator that was not full at its start; it is then what the accumulator took up over the length of the window |
| `TwapMean.NothingToAverage` | contracts/loan_manager/src/oracle.rs:159-166 | there is no average before an observation or with fewer than two snapshots |
| `TwapMean.WindowIsExactIff` | contracts/loan_manager/src/oracle.rs:128-191 | what the accumulator took up over the window is the area under the price in force if and only if the last observation is within 32 bits of now and the window's area still fits |
| `TwapMean.TwapIsMean` | contracts/loan_manager/src/oracle.rs:159-196 | under every history an average never exceeds the mean of the price in force over every second of its window, and is that mean, floored, if and only if what was cut off is within the division's remainder |
| `TwapSaturation.FullIff` | contracts/loan_manager/src/oracle.rs:128-134 | the accumulator is full if and only if the clamped area of its history reaches the largest amount |
| `TwapSaturation.FullIsForever` | contracts/loan_manager/src/oracle.rs:128-191 | once it is full there is no average after the next snapshot and one window, whatever is observed |
| `TwapSaturation.SpikedFeedHasNone` | contracts/loan_manager/src/oracle.rs:37-191 | three valid answers that fill the accumulator, with two snapshots and a window of 440 seconds and no average |
| `TwapSaturation.IdleFeedFallsShort` | contracts/loan_manager/src/oracle.rs:128-167 | a constant price that averages to nothing when the last gap outgrows 32 bits |
| `TwapWindow.WindowIsLong` | contracts/loan_manager/src/constants.rs:24-32 | observed at least every G seconds for a whole window, a feed averages over more than the window less an interval and G, and over no more than the window unless an interval and G exceed it |
| `TwapWindow.DenseFeedAveragesIff` | contracts/loan_manager/src/oracle.rs:155-196 | observed at least every 870 seconds for a whole window, a feed has an average if and only if its accumulator was not full |
| `TwapWindow.SafeGapIff` | contracts/loan_manager/src/oracle.rs:155-196 | while the accumulator is not full, being observed at least every G seconds for a whole window guarantees an average if and only if G is at most 870 |
| `TwapMean.TwapWithinBounds` | contracts/loan_manager/src/oracle.rs:155-196 | an average never exceeds an upper bound on the prices in force in its window, and over an exact window respects a lower one |
| `TwapMean.ConstantPrice` | contracts/loan_manager/src/oracle.rs:155-196 | a constant price averages to itself if and only if the window is exact, and to less otherwise |
| `TwapMean.BoundedHistoryIsExact` | contracts/loan_manager/src/oracle.rs:128-132 | a bounded price keeps the window exact while its product with the age of the history is representable and the last observation is within 32 bits of now |
| `TwapMean.ResolvedPrice` | contracts/loan_manager/src/oracle.rs:37-106 | under every history a direct answer wins and is positive, a fallback is not negative and is positive if and only if a unit a second was taken up, and the feed becomes the replay of the history extended by the answer |
| `TwapRobustness.TwapFollowsDeviation` | contracts/loan_manager/src/oracle.rs:159-196 | over exact windows two histories on one clock have averages together, apart by no more than the deviation of their prices over the window, rounded up |
| `TwapRobustness.SpikeIsDamped` | contracts/loan_manager/src/oracle.rs:159-196 | changing one observation moves the average by at most that change weighted by its time in force in the window |
| `TwapRobustness.SpikeOverFiveMinutes` | contracts/loan_manager/src/constants.rs:27-29 | a price in force for d seconds moves an average over an exact window by at most its change times d / 300, rounded up |
| `TwapRobustness.FiveMinutesAreEnough` | contracts/loan_manager/src/constants.rs:27-29 | a history with no average over 299 seconds and one over 300 |
| `PoolInvariants.DepositKeeps` | contracts/loan_manager/src/lib.rs:286-309 | a deposit keeps the books balanced and the token supplies unchanged |
| `PoolInvariants.WithdrawKeeps` | contracts/loan_manager/src/lib.rs:313-342 | so does a withdrawal |
| `PoolInvariants.DepositCollateralKeeps` | contracts/loan_manager/src/lib.rs:349-364 | so does posting collateral |
| `PoolInvariants.BorrowKeeps` | contracts/loan_manager/src/lib.rs:368-401 | borrowing keeps the books |
| `PoolInvariants.RepayKeeps` | contracts/loan_manager/src/lib.rs:404-424 | repaying, capped at the debt, keeps the books |
| `PoolInvariants.WithdrawCollateralKeeps` | contracts/loan_manager/src/lib.rs:427-457 | withdrawing collateral keeps the books |
| `PoolInvariants.SocializeAbsorbs` | contracts/loan_manager/src/lib.rs:94-158 | a loss that deposits cover is applied exactly, no balance goes negative, and the branch that wipes the totals is not taken |
| `PoolInvariants.SettleEffect` | contracts/loan_manager/src/lib.rs:542-562 | settling a plan lowers deposits by its bad debt, borrowed by repayment and bad debt, stores or removes the position, and changes nothing else |
| `PoolInvariants.LiquidateKeeps` | contracts/loan_manager/src/lib.rs:475-581 | a liquidation keeps the books |
| `PoolInvariants.StepKeeps` | contracts/loan_manager/src/lib.rs:286-581 | every call, successful or reverted, keeps the books and the token supplies |
| `PoolInvariants.BooksAlwaysBalance` | contracts/loan_manager/src/lib.rs:286-581 | in every state any run reaches, cash plus borrowed equals deposits plus gifts, all totals are the sums of their parts, deposits cover debt, supplies are unchanged |
| `PoolInvariants.FreeLiquidityIsCash` | contracts/loan_manager/src/lib.rs:324-327 | free liquidity is exactly the pool's cash less gifts |
| `PoolInvariants.PayoutsAreFunded` | contracts/loan_manager/src/lib.rs:286-581 | no call whose own checks pass finds the pool short of tokens |
| `PoolInvariants.BadDebtIsAbsorbed` | contracts/loan_manager/src/lib.rs:542-580 | in every reachable state the debt a liquidation clears is what was repaid plus what depositors lost, and the pool's balances move by exactly the repayment and the seizure |
| `PoolFairness.DepositIsFair` | contracts/loan_manager/src/lib.rs:286-309 | a deposit moves exactly the amount into the pool and leaves every account's holdings plus claims less debt unchanged |
| `PoolFairness.WithdrawIsFair` | contracts/loan_manager/src/lib.rs:313-342 | so does a withdrawal, outward |
| `PoolFairness.DepositCollateralIsFair` | contracts/loan_manager/src/lib.rs:349-364 | so does posting collateral |
| `PoolFairness.BorrowIsFair` | contracts/loan_manager/src/lib.rs:368-401 | a loan pays out exactly the amount and is matched by the borrower's debt, for every account |
| `PoolFairness.RepayIsFair` | contracts/loan_manager/src/lib.rs:404-424 | a repayment takes exactly the capped amount and lowers the debt by it, for every account |
| `PoolFairness.WithdrawCollateralIsFair` | contracts/loan_manager/src/lib.rs:427-457 | a collateral withdrawal pays exactly the amount, for every account |
| `PoolEffects.DepositChanges` | contracts/loan_manager/src/lib.rs:286-309 | a deposit changes the caller's deposit and tokens by the amount, the total by as much, and nothing else of anyone |
| `PoolEffects.WithdrawChanges` | contracts/loan_manager/src/lib.rs:313-342 | so does a withdrawal, the other way |
| `PoolEffects.DepositCollateralChanges` | contracts/loan_manager/src/lib.rs:349-364 | posting collateral changes the caller's collateral and collateral tokens only |
| `PoolEffects.BorrowChanges` | contracts/loan_manager/src/lib.rs:368-401 | a loan changes the caller's debt and tokens and the borrowed total only |
| `PoolEffects.RepayChanges` | contracts/loan_manager/src/lib.rs:404-424 | a repayment lowers the same by the capped amount |
| `PoolEffects.WithdrawCollateralChanges` | contracts/loan_manager/src/lib.rs:427-457 | taking collateral back undoes a posting only |
| `PoolEffects.LiquidationChanges` | contracts/loan_manager/src/lib.rs:525-562 | in a liquidation each account's deposit, debt, collateral and tokens change by exactly its part |
| `PoolFairness.LiquidationByAccount` | contracts/loan_manager/src/lib.rs:525-562 | account by account, what liquidator, borrower and depositors gain and lose in a liquidation, and that nothing else changes hands |
| `PoolFairness.SocializeIsProRataIff` | contracts/loan_manager/src/lib.rs:90-143 | in any pool a loss is borne pro rata, each depositor losing its floored share plus at most one unit per other depositor, if and only if the residual reaches everyone |
| `PoolFairness.RepresentableProductsReach` | contracts/loan_manager/src/lib.rs:90-143 | it does while no balance's product with the loss saturates |
| `PoolFairness.LargeLossIsLopsided` | contracts/loan_manager/src/lib.rs:90-143 | a pool in which one of two equal depositors bears more than nineteen twentieths of a loss |
| `PoolFairness.LiquidationLossesAreProRataIff` | contracts/loan_manager/src/lib.rs:551-556 | the same condition for the losses a whole liquidation causes, none when nothing is socialized |
| `PoolFairness.ClearsForNothingIff` | contracts/loan_manager/src/lib.rs:475-581 | a liquidation with no repayment and no seizure that charges the whole debt to the depositors and leaves the collateral happens if and only if what is asked, capped by debt and backing, is worth less than a debt token |
| `PoolFairness.OneUnitClearsForNothingIff` | contracts/loan_manager/src/lib.rs:475-581 | asking for one unit does that if and only if the price is not a whole number of value units or debt or backing are worth less than a token |
| `PoolFairness.WithdrawIff` | contracts/loan_manager/src/lib.rs:313-328 | with a representable supply, a withdrawal goes through if and only if it is within the balance and the free liquidity |
| `PoolFairness.BorrowIff` | contracts/loan_manager/src/lib.rs:368-397 | a loan goes through if and only if it is within the free liquidity and leaves the position healthy at resolvable prices |
| `PoolFairness.RepayIff` | contracts/loan_manager/src/lib.rs:404-420 | a repayment goes through if and only if something is owed and the capped amount is held |
| `PoolFairness.DepositThenWithdraw` | contracts/loan_manager/src/lib.rs:284-342 | a deposit can be withdrawn at once, restoring everyone's balances and the totals |
| `PoolFairness.BorrowThenRepay` | contracts/loan_manager/src/lib.rs:366-424 | a loan can be repaid at once, restoring everyone's balances and the totals |
| `PoolFairness.PledgeThenRelease` | contracts/loan_manager/src/lib.rs:348-457 | collateral posted without debt can be taken back at once, restoring everyone's balances |
| `PoolGuards.PriceAcceptedIff` | contracts/loan_manager/src/oracle.rs:198-206 | a price is accepted if and only if it resolves to something positive up to 10^17, and the refusal says which |
| `PoolGuards.HealthyInNumbers` | contracts/loan_manager/src/liquidation.rs:20-42 | health is collateral value times threshold at least debt value times 10000 |
| `PoolGuards.DepositAcceptedIff` | contracts/loan_manager/src/lib.rs:286-309 | a deposit goes through if and only if the pool is not paused, the amount positive and held, and the total representable |
| `PoolGuards.WithdrawAcceptedIff` | contracts/loan_manager/src/lib.rs:313-342 | a withdrawal if and only if within the balance and the free liquidity |
| `PoolGuards.DepositCollateralAcceptedIff` | contracts/loan_manager/src/lib.rs:349-364 | posting collateral if and only if it is held |
| `PoolGuards.BorrowAcceptedIff` | contracts/loan_manager/src/lib.rs:368-401 | a loan if and only if within the free liquidity and backed at accepted prices |
| `PoolGuards.RepayAcceptedIff` | contracts/loan_manager/src/lib.rs:404-424 | a repayment if and only if something is owed and the capped amount held |
| `PoolGuards.WithdrawCollateralAcceptedIff` | contracts/loan_manager/src/lib.rs:427-457 | taking collateral back if and only if it is posted and, with debt, the rest is backed at accepted prices |
| `PoolGuards.LiquidateAcceptedIff` | contracts/loan_manager/src/lib.rs:475-541 | a liquidation if and only if it is of another account's liquidatable position, not for a negative amount, and the liquidator holds the repayment |
| `PoolGuards.RecordPriceAcceptedIff` | contracts/loan_manager/src/lib.rs:589-592 | a refresh if and only if the feed resolves |
| `PoolGuards.PausedRefusesAll` | contracts/loan_manager/src/lib.rs:286-592 | a paused pool refuses every call, and none is made in the pool's name |
| `PoolGuards.TransferRefusals` | contracts/loan_manager/src/lib.rs:286-562 | why a token transfer fails |
| `PoolGuards.DepositRefusals` | contracts/loan_manager/src/lib.rs:286-364 | why deposits and postings are refused |
| `PoolGuards.WithdrawRefusals` | contracts/loan_manager/src/lib.rs:313-440 | why withdrawals are |
| `PoolGuards.BorrowRefusals` | contracts/loan_manager/src/lib.rs:368-391 | why loans are |
| `PoolGuards.ReleaseRefusals` | contracts/loan_manager/src/lib.rs:436-450 | why a borrower's collateral is not released |
| `PoolGuards.RepayRefusals` | contracts/loan_manager/src/lib.rs:404-420 | why repayments are refused |
| `PoolGuards.LiquidateRefusals` | contracts/loan_manager/src/lib.rs:475-523 | why liquidations are |
| `PoolGuards.RecordPriceRefusals` | contracts/loan_manager/src/lib.rs:589-592 | why a refresh is |
| `PoolGuards.FreshIsEmpty` | contracts/loan_manager/src/storage.rs:206-240 | a fresh pool has no deposits, positions or observations |
| `PoolGuards.AskingRecords` | contracts/loan_manager/src/oracle.rs:75-106 | every call that asks for prices leaves the feeds resolved and no other call touches them |
| `PoolGuards.DepositorsKeepOrder` | contracts/loan_manager/src/storage.rs:222-228 | only a depositor's first deposit adds to the list, at its end |
| `PoolGuards.EmptiedPositionIsRemoved` | contracts/loan_manager/src/lib.rs:542-550 | a position is removed if and only if a liquidation leaves neither collateral nor debt |
| `PoolGuards.NobodyToCharge` | contracts/loan_manager/src/lib.rs:94-108 | without deposits or depositors the total is cleared and nothing applied |
| `PoolFeeds.FeedsReplayHistories` | contracts/loan_manager/src/oracle.rs:75-153 | after any run on a non-decreasing 64-bit clock each feed replays a history that ended by then and consists of valid direct answers of the run, each at the time of its call |
| `PoolFeeds.PricesNeverExceedAnswers` | contracts/loan_manager/src/oracle.rs:75-196 | in every reachable state no price a feed resolves to, fallbacks included, exceeds the highest valid answer ever given |
| `PoolHealth.GuardsAgree` | contracts/loan_manager/src/lib.rs:387-449 | the health check of borrowing and withdrawing is exactly the negation of being liquidatable |
| `PoolHealth.HealthyMono` | contracts/loan_manager/src/lib.rs:384-391 | more collateral and less debt never make a position unhealthy, saturation included |
| `PoolHealth.ResolvesToItsPrice` | contracts/loan_manager/src/oracle.rs:75-106 | a feed that only ever saw one price resolves to it or to nothing, through answers, averages and outages of up to 2^32 seconds |
| `PoolHealth.CalmRunStaysCalm` | contracts/loan_manager/src/lib.rs:349-523 | while oracles answer one pair of prices or nothing, no outage outgrows 32 bits and the prices times the time passed are representable, every position of every run stays healthy |
| `PoolHealth.CalmMarketsNeverLiquidate` | contracts/loan_manager/src/lib.rs:349-523 | in such a run every liquidation attempt reverts |
| `PoolHealth.SecondLiquidationReverts` | contracts/loan_manager/src/lib.rs:475-523 | after any liquidation that neither drains the position nor leaves it liquidatable, any liquidation of that borrower at the same prices reverts |
| `PoolHealth.NoPhantomDebt` | contracts/loan_manager/src/fuzz_tests.rs:254-257 | in any run whose debt token stays at or above one value unit, a borrower without collateral has no debt |
| `PoolHealth.UncollateralizedUnitIff` | contracts/loan_manager/src/lib.rs:384-391 | a user without a position can borrow one unit if and only if it is worth less than one value unit |
| `PoolHealth.OrphanRunEnds` | contracts/loan_manager/src/lib.rs:368-401 | at any debt price below one value unit, depositing one unit and having someone else borrow it ends with a debt and no collateral |
| `PoolHealth.NoPhantomDebtIff` | contracts/loan_manager/src/fuzz_tests.rs:254-257 | all runs whose debt prices stay at or above a floor keep debt with collateral if and only if the floor is at least one value unit |
| `LoanManager.LoanManager.constructor` | contracts/loan_manager/src/storage.rs:206-240 | a fresh pool has the default-zero state |
| `LoanManager.LoanManager.RegisterDepositor` | contracts/loan_manager/src/storage.rs:222-228 | appends a new depositor, leaves a known one where it is, and never lists anyone twice |
| `LoanManager.LoanManager.Deposit` | contracts/loan_manager/src/lib.rs:286-309 | does the deposit step in place, or reverts for its reason leaving no trace |
| `LoanManager.LoanManager.Withdraw` | contracts/loan_manager/src/lib.rs:313-342 | does the withdrawal step in place, or reverts |
| `LoanManager.LoanManager.DepositCollateral` | contracts/loan_manager/src/lib.rs:349-364 | does the collateral step in place, or reverts |
| `LoanManager.LoanManager.RequireFeedPrice` | contracts/loan_manager/src/oracle.rs:200-206 | a resolved price in the accepted range, or the reason there is none |
| `LoanManager.LoanManager.Borrow` | contracts/loan_manager/src/lib.rs:368-401 | does the borrow step in place, or reverts with the feeds restored |
| `LoanManager.LoanManager.Repay` | contracts/loan_manager/src/lib.rs:404-424 | does the repayment step in place, or reverts |
| `LoanManager.LoanManager.WithdrawCollateral` | contracts/loan_manager/src/lib.rs:427-457 | does the collateral withdrawal in place, or reverts with the feeds restored |
| `LoanManager.LoanManager.DeductShares` | contracts/loan_manager/src/lib.rs:116-128 | the first loop deducts exactly the capped shares and reports what is left |
| `LoanManager.LoanManager.DeductResidual` | contracts/loan_manager/src/lib.rs:129-143 | the second loop takes the residual from the first depositors with balances, stopping when it is gone |
| `LoanManager.LoanManager.SocializeBadDebt` | contracts/loan_manager/src/lib.rs:94-158 | both loops in place have exactly the specified effect on balances and totals, and return what was applied |
| `LoanManager.LoanManager.SettlePlan` | contracts/loan_manager/src/lib.rs:542-562 | updates the position and the totals and socializes the bad debt as specified |
| `LoanManager.LoanManager.Liquidate` | contracts/loan_manager/src/lib.rs:475-581 | does the liquidation step in place and reports it, or reverts leaving no trace |
| `LoanManager.LoanManager.RecordPrice` | contracts/loan_manager/src/lib.rs:589-592 | refreshes one feed through the failover chain |
| `Migration.Migrator.StartMigration` | contracts/chainsetttle/src/paged_migration.rs:90-115 | creates a record once, does nothing for a known one, refuses a different total while in progress |
| `Migration.Migrator.MigrateChunk` | contracts/chainsetttle/src/paged_migration.rs:143-178 | processes exactly the indices from the old cursor to the new one in order, and moves the cursor |
| `Migration.Migrator.AbortMigration` | contracts/chainsetttle/src/paged_migration.rs:188-196 | removes an existing record |
| `Migration.Migrator.CleanupMigration` | contracts/chainsetttle/src/paged_migration.rs:206-217 | removes a complete record and refuses any other |
| `Migration.EveryItemExactlyOnce` | contracts/chainsetttle/src/paged_migration.rs:90-217 | in any run over any migrations, each record's items were processed exactly once, in order, up to its cursor |
| `Migration.RangeIsEachOnce` | contracts/chainsetttle/src/paged_migration.rs:159-168 | the indices recorded for a record are 0, 1, 2 and so on, each once |
| `Migration.ChunksEqualOnePass` | contracts/chainsetttle/src/paged_migration.rs:90-178 | however it is chunked and restarted, a migration leaves the data one pass leaves |
| `Migration.TotalsAreAsStarted` | contracts/chainsetttle/src/paged_migration.rs:90-115 | in any run over any migrations every record has the total and the ledger of the start that created it |
| `Migration.CompletePassIsWhole` | contracts/chainsetttle/src/paged_migration.rs:90-178 | a migration started with a total, however chunked and restarted, has when complete processed each index below that total once, in order, and leaves the data of one pass over them |
| `Migration.StartNeverOverwrites` | contracts/chainsetttle/src/paged_migration.rs:90-101 | a later start changes no record, and one with another total is refused while in progress |
| `Migration.ChunkAcceptedIff` | contracts/chainsetttle/src/paged_migration.rs:143-178 | a chunk is accepted if and only if the record is in progress and no index overflows, processes the chunk or what is left, notes the ledger and touches no other record |
| `Migration.RemovalAcceptedIff` | contracts/chainsetttle/src/paged_migration.rs:188-217 | an abort is accepted if and only if there is a record, a cleanup if and only if it is complete, and each removes that record only |
| `Migration.RefusalReasons` | contracts/chainsetttle/src/paged_migration.rs:143-217 | why calls are refused |
| `Migration.OnlyTheTotalMatters` | contracts/chainsetttle/src/paged_migration.rs:143-170 | after any sequence of requested chunks the cursor and completion depend only on the total of the accepted sizes |
| `Migration.WithoutOverflowAllCount` | contracts/chainsetttle/src/paged_migration.rs:159-170 | while no index overflows that is the total of all the sizes |
| `Migration.ChunksProgress` | contracts/chainsetttle/src/paged_migration.rs:159-170 | an accepted chunk of positive size moves the cursor or finishes, and completion means the cursor is at the end |

## Left out

- LiquidationTarget.PartialRestoresTarget: states the documented guarantee up to a slack, because without slack it is false; TargetIsMetIff says exactly when it holds.
- LiquidationTarget.TargetIsMetIff: stated in exact arithmetic, as are the other results with that width; ContractMeetsTargetIff and OutcomeInNumbers carry them to the contract for positions worth up to 10^29 value units a side, and beyond that range, where the target equation itself saturates, nothing is said.
- The ChainSettle escrow (create, confirm, dispute, payout): its contract entry points are not part of this model.
- Administrator calls (init, set_oracles, set_market, set_liq_params, pause, unpause): their settings enter as Env; replacing the market's tokens while positions are open is not modelled.
- Authorisation beyond the pool's own account, events, storage lifetimes, the count of fallbacks to the average, and the view functions.
- Cross-contract calls: oracle answers are parameters, and the token contracts are reduced to balances and transfers.
- The assertion that the base bonus does not exceed the maximum (liquidation.rs:59), which release builds do not check; the arithmetic is modelled for both orders.
