# Elysium: accounting, routing and price arithmetic

Elysium is a concentrated-liquidity exchange on Solana with a TypeScript SDK. This project models
four parts of it and proves what they are for.

**Accounting of a pool.** Liquidity earns five streams of growth: swap fees in two tokens and up to
three rewards. The program keeps them with a constant amount of work per instruction: a global
accumulator per stream, one number per tick and one checkpoint per position, all wrapping at 2^128.
`Machine` models the program as a state machine whose instructions open positions, initialize
rewards, add and remove liquidity, settle, collect fees and rewards, change emissions and swap. Beside
the accounts it keeps a naive ledger (`Ledger`): every growth increment with the tick it was earned
at, every payment and everything settlements ever credited. The account code never reads the ledger.
The main results hold for every reachable state and every run:

* nothing is ever credited that was not emitted or taken as a fee, and nothing paid or owed that was not
  credited (`Solvency`);
* the wrapping accumulators say what the ledger says (`Refinement`);
* gross, net and active liquidity are sums over the positions (`Books`, `Progress`);
* deposits, withdrawals and crossings succeed exactly under stated limits (`Progress`);
* a withdrawal undoes a deposit, and the vaults can pay it back (`Undo`);
* a build with overflow checks reaches no other states, and swaps in it are stopped by one thing more
  (`Builds`);
* settling or accruing often costs less than one unit each time (`Frequency`).

**Prices and vaults.** `Vaults` puts the machine together with the pool's price and the tokens in its two
vaults. Deposits and withdrawals pay the program's rounded amounts at that price, and a swap runs the
program's loop (`SwapLoop`) over its price arithmetic (`SwapMath`). `TokenWorth` says what positions are
worth exactly. `Backing` proves that every instruction keeps the vaults at least as full as what all
positions are worth and all unpaid fees, and `Payouts` what that means in every run:

* each vault covers what all positions are worth, the fees they are owed and the protocol's fees;
* a withdrawal is never stopped by accounts, arithmetic or vaults, only by the clock and the owner's own
  minima; fees can always be collected; a deposit that can be paid for always fits; one after the other,
  everyone can leave;
* a swap is never stopped by the accounts or by the vault its proceeds come from;
* there are never 2^127 units of liquidity, so no liquidity amount ever meets the limits of its word.

`Accounts` holds the pool, position and tick accounts as classes, with the handlers that update them
in place; each is proved to do what the corresponding step of the machine, or the swap loop, does.

**Route search.** `QuoteMap` fills the quote map hop by hop, forwards for exact inputs and backwards
for exact outputs; `Quotes` says what that amounts to path by path; `Sanitized` cleans and prunes it;
`Routes` enumerates split routes and `Enumeration` proves that each valid split is found exactly once;
`Selection` picks the best of them in place, and `BestRoutes` and `Router` put everything together, from a
trade to its routes: the first route returned is as good as any valid split there is.

**Prices of the SDK.** `Prices` models the next-price formulas and the amount formulas on unbounded integers
with their rounding, and proves each the best possible integer answer. `TokenMath` and `SwapMath` show that
the program's own token amounts and next prices are the same numbers.

How to read the machine: `Inv` in `Invariant` is what every instruction keeps. For each stream the
growth attributed below a tick is compared with the ledger; the growth inside a range is the wrapping
difference of the attributions at its two ends (`TickManager.InsideIsDifference`), and a crossing or
the initialization of a tick leaves the attribution alone. Solvency is carried as two inequalities: what
was credited and what positions may still be credited is within the budget (`Funded`), and what was paid
and is owed is within what was credited (`Covered`). With prices, a third joins them: what positions are
worth and the unpaid fees are within the vaults (`Backed`).

## Assumptions

* The workspace sets no overflow checks for its release profile, so plain arithmetic wraps. That matters in
  three places. The subtraction of fee growths at the end of `swap_manager.rs` feeds a log line and has no
  effect. The absolute value of -2^127 in `liquidity_math.rs` wraps to itself and reads as 2^127. The
  negation of a net amount of -2^127 in `swap_manager.rs` wraps to itself; such a crossing goes through
  exactly when the pool has 2^127 units of liquidity, and then the liquidity in range comes out wrong by 2^128
  (`Progress.LeastNetBreaksBooks`). A possible run of the machine does not leave such a tick to the left
  (`NegatesNet`). With prices and vaults this is no assumption: there never is such a tick
  (`Payouts.MachineIsReachable`). A build with overflow checks refuses in those cases and needs no such
  assumption either. What is proved of all reachable states holds of its states; its swaps, though, are
  also refused when the fee growth wraps (`Builds.CheckedSwapSucceedsIff`), which can happen
  (`Builds.FeeGrowthCanWrap`).
* An index out of bounds or a division by zero panics in any build: the error `ArithmeticOverflow`.
* An instruction that fails changes nothing, as the runtime guarantees.
* Timestamps and what owners hold are parameters of each instruction, and so is what reward vaults hold.
  In `Machine` the prices of a liquidity change, and fees and ticks of a swap (a list of legs), are
  parameters too; `Vaults` computes them from the price of the pool.
* The prices of ticks and the tick of a price (`tick_math.rs`) are given functions. `TokenWorth.Monotone`
  says that prices grow with ticks between the two bounds and that the tick of a price is the last one not
  above it; `TokenWorth.Spread` that adjacent ticks are some way apart, by far less than the factor of
  1.00005 that the program aims for. `TokenWorth.GridsExist` shows that such functions exist.
* A swap gets the answers of its tick search as a list. A searched run requires that each is the first stop
  in its direction; `TickSearch.NextInitializedTickIndex` proves that of the search itself. That the price
  does not pass it is proved (`Backing.LegFollowsSearch`).
* The 256-bit products and quotients of `u256_math.rs` are exact.
* A transfer fails if the payer does not hold the amount, or if a vault would hold 2^64 units or more.
* The quote of a single swap is a function of pool, token, amount and direction (`SwapOracle`), which
  succeeds with an amount or fails with an error code. It may differ in every run. Which batches of quote
  requests can be fetched at all is a function of the hop.
* The size and the shift of the sample in `k-smallest-partition.ts`, computed with logarithms and roots, are
  given functions: the sample is smaller than the range by more than two, and is shifted by at most half its
  size (`Selection.Moderate`).
* Pool addresses are compared for equality.

Code and documentation differ in three places. The documentation of `collect_reward.rs` (lines 45-48)
announces errors for a reward that is not initialized and for a bad index; the code returns neither, so
the model pays nothing in the first case and panics in the second. The comment in `quote-map.ts` (line
286) that a failed route has exactly one failure holds for every path with at least one edge
(`Quotes.OneFailurePerFailedPath`), and fails for a path without edges, for which the code reads a
missing entry (`Sanitized.GetQuoteMap`). The comment in `k-smallest-partition.ts` (lines 7-9) says that the
items from index k on are larger than those before; they are not smaller.

## Model

| member | source | states |
|---|---|---|
| `Solvency.RewardsAreSolvent` | programs/elysium/src/manager/pool_manager.rs:21-43 | over every run, 2^64 times all that was ever credited of a reward is at most the sum over elapsed intervals of rate times seconds, and what was paid and is owed is at most what was credited, whatever wraps or overflows on the way |
| `Solvency.FeesAreSolvent` | programs/elysium/src/manager/swap_manager.rs:209-230 | over every run, all fees ever credited are at most the fees swaps took after the protocol's share, and what was paid and is owed is at most what was credited, fee growths that wrap included |
| `Solvency.FundedVaultPaysInFull` | programs/elysium/src/instructions/collect_reward.rs:57-83 | after any run, a vault given what was emitted in whole tokens, less what it paid, pays any position all it is owed |
| `Solvency.FeeVaultsPayInFull` | programs/elysium/src/instructions/collect_fees.rs:45-65 | after any run, vaults holding the fees taken and not yet paid never make collecting fees fail |
| `Solvency.InstructionBudget` | programs/elysium/src/instructions/set_reward_emissions.rs:38-47 | an instruction funds a reward by at most the old rate times the time since the last update, including one that changes the rate |
| `Solvency.InstructionFees` | programs/elysium/src/manager/swap_manager.rs:111-119 | an instruction funds fee growth by exactly the fees of its legs, in the token coming in |
| `Solvency.ClockAdvances` | programs/elysium/src/manager/pool_manager.rs:11-19 | the time of the last update never goes back, and moves only to the time of the instruction |
| `Refinement.GrowthInsideFollowsLedger` | programs/elysium/src/manager/tick_manager.rs:94-189 | from any reachable state, while both ticks stay initialized, growth inside moves modulo 2^128 by the sum of exactly the increments made while lower <= current < upper |
| `Refinement.SettlementIsExact` | programs/elysium/src/manager/position_manager.rs:16-53 | settling credits the floor of liquidity times what the ledger says was earned since the last settlement, or less when that product overflows 128 bits, and the credit is what the amount owed and the total of credits grow by |
| `Refinement.MoveIsInvisible` | programs/elysium/src/manager/swap_manager.rs:121-177 | moving the current tick, over an initialized tick or between ticks, changes growth inside of no range |
| `Refinement.ChangesAreInvisible` | programs/elysium/src/manager/tick_manager.rs:45-70 | in every reachable state a liquidity change alters growth inside of no range whose ticks it does not clear, and of no position that has liquidity afterwards |
| `Refinement.ChangeIsInvisible` | programs/elysium/src/manager/tick_manager.rs:52-70 | initializing a tick is invisible: a change alters growth inside of a range only by clearing one of its ticks |
| `Refinement.ClearingSparesEarners` | programs/elysium/src/manager/tick_manager.rs:47-50 | clearing a tick alters growth inside of no range in which a position still has liquidity |
| `Refinement.RunTracks` | programs/elysium/src/manager/tick_manager.rs:7-28 | the same agreement for any run from any state that satisfies the invariant |
| `Refinement.SettlementOfChange` | programs/elysium/src/manager/position_manager.rs:19-49 | one settlement against the ledger, for fees and rewards alike |
| `TickManager.InsideIsDifference` | programs/elysium/src/manager/tick_manager.rs:103-140 | growth inside is the wrapping difference of the growth attributed below its two ends, initialized or not |
| `TickManager.InsideIsAdditive` | programs/elysium/src/manager/tick_manager.rs:94-189 | growth inside of adjacent ranges adds up modulo 2^128 for any mix of initialized ticks |
| `TickManager.CrossKeepsAttribution` | programs/elysium/src/manager/tick_manager.rs:7-28 | the cross update keeps the growth attributed below the crossed tick when the current tick changes sides |
| `TickManager.ModifyKeepsAttribution` | programs/elysium/src/manager/tick_manager.rs:45-89 | a liquidity change that does not clear the tick keeps the growth attributed below it, initializing included |
| `TickManager.ComputeTickCrossUpdate` | programs/elysium/src/manager/tick_manager.rs:7-28 | the loop over rewards computes the cross update the attribution lemmas are about |
| `TickManager.ComputeRewardGrowthsInside` | programs/elysium/src/manager/tick_manager.rs:145-189 | the loop over rewards computes the growths inside the additivity lemmas are about |
| `PoolManager.ComputePoolRewardInfos` | programs/elysium/src/manager/pool_manager.rs:7-46 | the loop over rewards computes the accrual the solvency proof is about, with its error and both no-ops |
| `PoolManager.RewardGrowthIsFunded` | programs/elysium/src/manager/pool_manager.rs:30-42 | liquidity times accrued growth never exceeds rate times seconds, overflow included |
| `PositionManager.ComputePositionUpdate` | programs/elysium/src/manager/position_manager.rs:7-54 | the field-by-field update computes the settlement the exactness lemmas are about |
| `PositionManager.CreditIsFloor` | programs/elysium/src/manager/position_manager.rs:19-23 | for growth congruent to what was truly earned, the credit is at most the fair share and is its floor when the product fits |
| `SwapManager.LiquidityFee` | programs/elysium/src/manager/swap_manager.rs:216-236 | providers get exactly their share of a fee, rounded up |
| `FixedPoint.MulDivIsExact` | programs/elysium/src/math/bit_math.rs:16-30 | when a checked quotient is returned, and that it is the floor or the ceiling |
| `FixedPoint.MulShiftIsExact` | programs/elysium/src/math/bit_math.rs:40-61 | when a checked shifted product is returned, and that it is the floor or the ceiling |
| `FixedPoint.DeltaIsSigned` | programs/elysium/src/math/liquidity_math.rs:5-18 | a change, the least one included, succeeds exactly when the signed sum is a word, gives that sum, and can be taken back if it has an opposite |
| `Instructions.CollectionConserves` | programs/elysium/src/instructions/collect_reward.rs:57-83 | what is paid and what stays owed add up; something stays owed only once the vault is empty; nothing else changes |
| `Instructions.EmissionsChangeIff` | programs/elysium/src/instructions/set_reward_emissions.rs:33-47 | a new rate is accepted exactly for a valid reward, a clock that did not run back and a vault that covers a day |
| `Instructions.OldRateUntilNow` | programs/elysium/src/instructions/set_reward_emissions.rs:38-47 | time before the change accrues at the old rate, time after it at the new one |
| `Machine.LogGrows` | programs/elysium/src/manager/liquidity_manager.rs:198-227 | a successful instruction extends the ledger by exactly its own entries; a failed one changes nothing |
| `Books.BalancedBooks` | programs/elysium/src/manager/tick_manager.rs:72-89 | nets up to the current tick sum to the pool's liquidity, all nets sum to zero, and no net exceeds its gross in size |
| `Books.NetsAddUpToActive` | programs/elysium/src/manager/swap_manager.rs:254-260 | at every price, the nets at or below it sum to the liquidity of the positions in range |
| `Books.ActiveAcrossTick` | programs/elysium/src/manager/swap_manager.rs:238-261 | moving up over one initialized tick adds exactly its net to the liquidity in range |
| `Books.ActiveBetweenTicks` | programs/elysium/src/manager/swap_manager.rs:175-177 | moving between initialized ticks changes no position's being in range |
| `Books.LiquidityKeepsTicks` | programs/elysium/src/manager/tick_manager.rs:45-50 | a position with liquidity keeps both its ticks initialized |
| `Progress.ReachableBooksBalance` | programs/elysium/src/manager/tick_manager.rs:45-89 | in every reachable state gross and net of each tick are sums over positions, the pool's liquidity is that in range, all nets sum to zero |
| `Progress.LiquidTickInitialized` | programs/elysium/src/manager/tick_manager.rs:47-50 | in every reachable state a tick is initialized exactly when liquidity ends at it |
| `Progress.WithdrawalSucceedsIff` | programs/elysium/src/instructions/decrease_liquidity.rs:26-79 | in every reachable state, exactly when a withdrawal succeeds: the clock, the position's liquidity, room in both net amounts, and exact token amounts that fit their words, reach the owner's minima and are in the vaults |
| `Progress.RemovalSucceedsIff` | programs/elysium/src/manager/liquidity_manager.rs:82-162 | the part of that the accounts decide |
| `Progress.WithdrawalCannotGetStuck` | programs/elysium/src/manager/tick_manager.rs:45-80 | with both ticks' gross below 2^127, removing at most the position's liquidity succeeds in position, ticks and pool |
| `Progress.DepositSucceedsIff` | programs/elysium/src/instructions/increase_liquidity.rs:57-110 | in every reachable state, exactly when a deposit succeeds: what the ticks and the pool can take, and exact token amounts that fit their words and the owner's maxima and means |
| `Progress.CrossingSucceedsIff` | programs/elysium/src/manager/swap_manager.rs:238-261 | in every reachable state, an initialized tick whose net can be negated can be crossed exactly when the liquidity beyond it fits 128 bits, which is then the pool's; it never underflows |
| `Progress.LeastNetBreaksBooks` | programs/elysium/src/manager/swap_manager.rs:248-252 | leaving a tick with a net of -2^127 to the left goes through exactly when the pool has 2^127 units of liquidity, and then gets the liquidity in range wrong by 2^128 |
| `Progress.SwapCannotGetStuck` | programs/elysium/src/manager/swap_manager.rs:65-180 | in every reachable state with less than 2^127 units of liquidity in all, the accounts let any swap through, however many ticks it crosses, unless the clock ran back |
| `Progress.LiquidityCanBeRemoved` | programs/elysium/src/manager/liquidity_manager.rs:82-162 | and let every position remove any part of its liquidity |
| `Frequency.FrequentSettlementCosts` | programs/elysium/src/manager/position_manager.rs:7-54 | k successive settlements of a position gain at most k - 1 units less than one at the end, and never more, in every stream whose whole product fits 128 bits |
| `Frequency.FrequentAccrualCosts` | programs/elysium/src/manager/pool_manager.rs:7-46 | bringing a reward up to date k times gains at most k - 1 units of growth less than once, and never more, at a fixed rate and liquidity |
| `Undo.DepositIsUndone` | programs/elysium/src/manager/liquidity_manager.rs:82-227 | the accounts always let a deposit be withdrawn at the same time, which restores pool, every tick and all positions, save for the settlement the deposit made |
| `Undo.DepositIsReturned` | programs/elysium/src/instructions/decrease_liquidity.rs:52-79 | at the same prices, with minima below its cost and that cost in the vaults, the withdrawal of a deposit goes through |
| `Undo.UndoneDepositIsSettlement` | programs/elysium/src/instructions/update_fees_and_rewards.rs:27-36 | for a position with liquidity, depositing and withdrawing at one time is the same as settling |
| `Undo.UnusedTicksAreBlank` | programs/elysium/src/manager/tick_manager.rs:47-50 | in every reachable state a tick without liquidity is all zero: clearing leaves no trace |
| `Undo.SettlingAgainChangesNothing` | programs/elysium/src/instructions/update_fees_and_rewards.rs:27-36 | in every reachable state, settling again right after any change that leaves liquidity changes nothing, whichever ticks it initialized or cleared |
| `Undo.SecondSettlement` | programs/elysium/src/manager/position_manager.rs:25-48 | after a deposit, a second settlement credits nothing, even when the first initialized the ticks |
| `Builds.CheckedStatesAreReachable` | programs/elysium/src/manager/swap_manager.rs:188-192 | every state a build with overflow checks reaches, a release build reaches, so statements about all reachable states hold of it |
| `Builds.CheckedSwapSucceedsIff` | programs/elysium/src/manager/swap_manager.rs:188-192 | with less than 2^127 units of liquidity, the accounts of such a build stop a swap exactly if the clock ran back or the fee growth wraps |
| `Builds.FeeGrowthCanWrap` | programs/elysium/src/manager/swap_manager.rs:188-192 | a reachable state, with one unit of liquidity, and a swap that a release build accepts and such a build refuses |
| `Builds.ChecksOnlyRefuse` | programs/elysium/src/manager/swap_manager.rs:248-252 | such a build refuses nothing but swaps, does the same otherwise, and what it lets pass negates no net of -2^127 |
| `TokenMath.AmountAIsQuoted` | programs/elysium/src/math/token_math.rs:41-70 | the program's amount of A exists exactly when it and its product fit, and is the SDK's amount |
| `TokenMath.AmountBIsQuoted` | programs/elysium/src/math/token_math.rs:81-92 | the program's amount of B exists exactly when it fits 64 bits, and is the SDK's amount |
| `LiquidityManager.DeltasAreQuoted` | programs/elysium/src/manager/liquidity_manager.rs:164-196 | the tokens of a liquidity change are the SDK's amounts on either side of the price, and exist exactly when those fit |
| `LiquidityManager.TokensReturned` | programs/elysium/src/manager/liquidity_manager.rs:164-196 | what a deposit takes in can be paid out at the same prices, less at most one unit of each token |
| `Runs.ReachableHasInv` | programs/elysium/src/manager/liquidity_manager.rs:82-162 | every reachable state satisfies the whole invariant: books, dormant rewards, agreement with the ledger, solvency |
| `Runs.InstructionKeepsInv` | programs/elysium/src/manager/liquidity_manager.rs:82-227 | every instruction keeps the invariant |
| `Runs.InitializeRewardKeepsInv` | programs/elysium/src/state/pool.rs:173-191 | a reward comes to life with no growth anywhere, so its accumulators start in agreement |
| `Runs.OpenKeepsInv` | programs/elysium/src/state/position.rs:58-78 | a fresh position with zero checkpoints disturbs nothing |
| `Runs.CollectRewardKeepsInv` | programs/elysium/src/instructions/collect_reward.rs:55-63 | collecting moves a claim into the payments, never more than was owed |
| `Runs.CollectFeesKeepsInv` | programs/elysium/src/instructions/collect_fees.rs:43-65 | paying both fees in full and resetting them keeps the invariant |
| `Runs.SetEmissionsKeepsInv` | programs/elysium/src/instructions/set_reward_emissions.rs:25-48 | changing a rate after settling at the old one keeps the invariant |
| `Steps.AdvanceKeepsInv` | programs/elysium/src/manager/pool_manager.rs:7-46 | bringing rewards up to date keeps agreement and solvency for every stream |
| `Steps.CrossKeepsInv` | programs/elysium/src/manager/swap_manager.rs:126-149 | crossing an initialized tick, in either direction, keeps the invariant |
| `Steps.FeeKeepsInv` | programs/elysium/src/manager/swap_manager.rs:209-230 | adding the fee of a leg to the growth keeps the invariant |
| `Steps.SwapKeepsInv` | programs/elysium/src/manager/swap_manager.rs:65-180 | a swap of any number of legs keeps the invariant |
| `Liquidity.ChangeKeepsInv` | programs/elysium/src/manager/liquidity_manager.rs:82-227 | a liquidity change computed from the state before it and committed at once keeps the invariant |
| `Liquidity.ChangeKeepsBooks` | programs/elysium/src/manager/tick_manager.rs:45-80 | and keeps the books, although clearing a tick drops its net without computing it |
| `Liquidity.ChangeKeepsFunded` | programs/elysium/src/manager/position_manager.rs:19-45 | a settlement's credit comes out of what the position could still claim |
| `Liquidity.ChangeKeepsCovered` | programs/elysium/src/manager/position_manager.rs:28-48 | the amount owed grows by no more than the credit, even when it wraps |
| `Liquidity.ModifyFactors` | programs/elysium/src/manager/liquidity_manager.rs:97-104 | changing liquidity is bringing rewards up to date and then changing it |
| `SwapMath.NextPriceIsQuoted` | programs/elysium/src/math/token_math.rs:119-264 | the program's next prices, where they exist, are the SDK's |
| `SwapMath.StepIsFair` | programs/elysium/src/math/swap_math.rs:14-104 | every step stays between price and target, takes in the rounded-up cost of the way and gives out at most its rounded-down yield, never more than what remains, fee included, and uses all of it up if it stops short |
| `SwapLoop.LoopOnlySpends` | programs/elysium/src/manager/swap_manager.rs:70-180 | the loop only ends with nothing left or at the limit, and neither amount ever runs backwards |
| `TokenWorth.WorthAfterMove` | programs/elysium/src/math/token_math.rs:41-92 | where no position ends on the way, moving the price changes what all positions are worth by exactly what the liquidity in range exchanges |
| `Backing.LegFollowsSearch` | programs/elysium/src/manager/swap_manager.rs:121-180 | a step that does not reach the next tick rests before it, at a tick the price belongs to |
| `Backing.StepTakesIn` | programs/elysium/src/math/swap_math.rs:71-100 | what a step takes in is at least what positions gain of that token |
| `Backing.StepGivesOut` | programs/elysium/src/math/swap_math.rs:71-100 | what a step gives out is at most what positions lose of that token |
| `Backing.SwapIsBacked` | programs/elysium/src/manager/swap_manager.rs:70-180 | for a whole swap over any number of ticks: what comes in covers what positions gain, the providers' and the protocol's fees, what goes out is covered by what they lose, and its legs are a possible swap of the machine that succeeds |
| `Backing.QuotedAgainstWorth` | programs/elysium/src/manager/liquidity_manager.rs:164-196 | a deposit takes in at least, a withdrawal pays out at most, what the liquidity is worth |
| `Backing.LiquidityIsBounded` | programs/elysium/src/math/token_math.rs:41-92 | vaults of 64 bits bound the liquidity of all positions below 2^127 |
| `Backing.ActionKeeps` | programs/elysium/src/instructions/swap.rs:45-99 | every instruction, with its payments, keeps the vaults backed |
| `Payouts.VaultsCoverEverything` | programs/elysium/src/util/swap_utils.rs:45-102 | in every run each vault covers what all positions are worth, all fees they are owed and the protocol's fees |
| `Payouts.MachineIsReachable` | programs/elysium/src/manager/swap_manager.rs:248-252 | every run with prices and vaults is a possible run of the machine, and there are never 2^127 units of liquidity |
| `Payouts.WithdrawalAlwaysPays` | programs/elysium/src/instructions/decrease_liquidity.rs:26-79 | in every run, withdrawing any part of a position's liquidity succeeds exactly if the clock has not run back and the owner's minima are met |
| `Payouts.DepositSucceedsIff` | programs/elysium/src/instructions/increase_liquidity.rs:57-110 | in every run, a deposit succeeds exactly if the clock has not run back and its tokens fit the owner's maxima and means and the vaults; ticks and pool never refuse it |
| `Payouts.FeesAlwaysPay` | programs/elysium/src/instructions/collect_fees.rs:43-65 | in every run, collecting the fees of any position succeeds |
| `Payouts.ProtocolFeesAlwaysPay` | programs/elysium/src/instructions/collect_protocol_fees.rs:31-51 | in every run, collecting the protocol's fees succeeds |
| `Payouts.LegSucceedsIff` | programs/elysium/src/manager/swap_manager.rs:70-180 | an iteration of a swap fails only in its own price arithmetic, never in crossing a tick |
| `Payouts.SwapSucceedsIff` | programs/elysium/src/instructions/swap.rs:45-99 | in every run, a swap succeeds exactly if order and clock are valid, its loop can be computed and the trader's threshold and means allow it; accounts and vaults never stop it |
| `Payouts.SwapEndsWithLoop` | programs/elysium/src/util/swap_utils.rs:8-43 | a successful swap leaves pool, ticks and price where the loop ends and moves exactly its amounts |
| `Payouts.EveryoneCanLeave` | programs/elysium/src/instructions/decrease_liquidity.rs:26-79 | from every state of every run, all owners can take out all liquidity and collect all fees, one after the other, each payment going through |
| `Accounts.ModifyLiquidity` | programs/elysium/src/manager/liquidity_manager.rs:198-227 | the in-place update of the three kinds of account is the machine's change; any error leaves all as they were |
| `Accounts.UpdateFeesAndRewards` | programs/elysium/src/instructions/update_fees_and_rewards.rs:21-39 | settling touches pool and position as the machine's change by zero does, and no tick |
| `Accounts.SetRewardEmissions` | programs/elysium/src/instructions/set_reward_emissions.rs:25-48 | the handler does the machine's step or leaves the pool alone |
| `Accounts.CollectReward` | programs/elysium/src/instructions/collect_reward.rs:55-63 | the handler leaves owed what the machine's step does and never transfers more than the vault holds |
| `Accounts.CollectFees` | programs/elysium/src/instructions/collect_fees.rs:43-65 | the handler transfers what was owed and resets it, or leaves it owed if a transfer fails |
| `Accounts.SwapOrNothing` | programs/elysium/src/manager/swap_manager.rs:25-207 | with a failed swap's writes to the ticks discarded, as the runtime does, a swap has the outcome of the loop or leaves all accounts alone |
| `Accounts.Swap` | programs/elysium/src/manager/swap_manager.rs:25-207 | the loop over local copies of price, liquidity, tick, amounts and fees, followed by one commit, has the outcome of the loop on values, and leaves exactly its ticks written also when it fails |
| `Accounts.Iterate` | programs/elysium/src/manager/swap_manager.rs:70-180 | one iteration, in the program's order, is one leg of the loop, with the same errors |
| `Accounts.ReachTick` | programs/elysium/src/manager/swap_manager.rs:121-177 | crosses the tick that was reached, updating it in place, or comes to rest |
| `Accounts.PoolAccount.UpdateEmissions` | programs/elysium/src/state/pool.rs:157-171 | stores the settled rewards, then the new rate at one index; an index out of bounds changes nothing |
| `Accounts.PoolAccount.InitializeRewardAt` | programs/elysium/src/state/pool.rs:173-191 | searching the lowest uninitialized reward accepts exactly the next index in order |
| `Accounts.PoolAccount.UpdateAfterSwap` | programs/elysium/src/state/pool.rs:193-218 | stores the outcome of a swap, fee growth on the side of the token that came in |
| `TickSearch.NextInitTickIndex` | programs/elysium/src/state/tick.rs:176-213 | the scan of one array returns the first initialized tick in its direction, or none exists there; both error cases |
| `TickSearch.NextInitializedTickIndex` | programs/elysium/src/util/swap_tick_sequence.rs:106-162 | whatever arrays are supplied, in any order, a successful search returns a tick with no initialized tick before it |
| `TickSearch.InitializedTicksAreUsable` | programs/elysium/src/state/position.rs:65-70 | in every reachable state only multiples of the spacing within bounds are initialized |
| `Enumeration.RoutesAreExact` | sdk/src/router/convert-quote-map.ts:104-165 | for every set of quotes, the enumeration emits exactly one route made of it if it carries 100 percent over disjoint pools within the split limit, and none otherwise |
| `Enumeration.BuildRoutesIsPickAll` | sdk/src/router/convert-quote-map.ts:112-163 | decreasing percentages and dropping tried quotes amount to picking from one flat list in order |
| `Enumeration.EmittedRoute` | sdk/src/router/convert-quote-map.ts:138-150 | every route is a split of distinct quotes, largest percentage first, with totals that are sums over its quotes |
| `Enumeration.DirectRoutesAppearTwice` | sdk/src/router/convert-quote-map.ts:50-67 | every direct quote for the whole trade is listed once by the enumeration and once more separately |
| `Routes.BuildRoutesInto` | sdk/src/router/convert-quote-map.ts:104-165 | the outer loop appends to the shared list exactly the routes of the enumeration, in its order |
| `Routes.OverQuotesInto` | sdk/src/router/convert-quote-map.ts:124-163 | the inner loop appends the routes that start with the quotes of one percentage |
| `Routes.GenerateRoutes` | sdk/src/router/convert-quote-map.ts:88-102 | the result, starting from an empty route, is the enumeration the exactness result is about |
| `Routes.DropThroughShrinks` | sdk/src/router/convert-quote-map.ts:145-160 | each recursive call sees fewer quotes, so the recursion ends for any split limit |
| `Quotes.HopsChainExactly` | sdk/src/router/quote-map.ts:212-224 | on a successful path each hop's output is the next hop's input, and the end where quoting started carries the split amount |
| `Quotes.OneFailurePerFailedPath` | sdk/src/router/quote-map.ts:133-140 | a path with an edge is successful on all edges or holds exactly one failure with nothing quoted behind it |
| `Quotes.QuotedShape` | sdk/src/router/quote-map.ts:189-224 | after any number of hops in either order: successes, then at most one failure, then nothing |
| `Quotes.SplitPercentageAmounts` | sdk/src/router/quote-map.ts:306-316 | the loop lists all multiples of the increment up to 100 in order, with the floor of that percentage of the amount |
| `QuoteMap.QuoteBoard.AskPath` | sdk/src/router/quote-map.ts:184-237 | for one path and hop: sets the entry up on its first hop and asks for the token and amount the previous hop hands on, or for nothing |
| `QuoteMap.QuoteBoard.AskRow` | sdk/src/router/quote-map.ts:174-238 | all requests of one percentage, each once, in order of paths and numbered by position |
| `QuoteMap.QuoteBoard.BuildQuoteUpdateRequests` | sdk/src/router/quote-map.ts:162-241 | the requests of a hop are exactly those of the paths that still need one, and all entries are set up for it |
| `QuoteMap.QuoteBoard.AnswerRequest` | sdk/src/router/quote-map.ts:102-141 | an answer, success or failure, lands in its own entry and edge and nowhere else |
| `QuoteMap.QuoteBoard.PopulateQuoteMap` | sdk/src/router/quote-map.ts:97-142 | answering in order completes exactly the paths that asked |
| `QuoteMap.QuoteBoard.RunHops` | sdk/src/router/quote-map.ts:42-70 | the interleaved hop loop gives every percentage and path what quoting that path alone, edge after edge, gives, or stops at a batch that cannot be fetched |
| `QuoteMap.AnswerCompletesStep` | sdk/src/router/quote-map.ts:189-224 | a path that asks is completed by its answer; one that does not ask has nothing to complete |
| `Sanitized.GetQuoteMap` | sdk/src/router/quote-map.ts:36-75 | the whole request yields the best quotes of every percentage and all errors, and throws exactly when a batch of requests cannot be fetched or a path without edges is among others |
| `Sanitized.SanitizeQuoteMap` | sdk/src/router/quote-map.ts:249-304 | cleaning and pruning in loops yields one bucket per percentage and the set of all failures |
| `Sanitized.SanitizeRow` | sdk/src/router/quote-map.ts:261-289 | the loop over one percentage's entries keeps the successful ones and collects the failures |
| `Sanitized.RowCleans` | sdk/src/router/quote-map.ts:265-288 | taking the first failure is always defined; what is kept is exactly the successful paths, faithfully |
| `Sanitized.RowErrorsMatch` | sdk/src/router/quote-map.ts:286-288 | reporting only the first failure of each path loses none |
| `Sanitized.PruneKeepsBest` | sdk/src/router/quote-map.ts:292-301 | nothing dropped ranks before anything kept, and as many are kept as asked for |
| `Ranking.RankSorts` | sdk/src/router/quote-map.ts:294-298 | sorting orders the items and keeps each of them |
| `Ranking.RankIsStable` | sdk/src/router/convert-quote-map.ts:17-20 | items of equal cost stay in their order |
| `Sanitized.SanitizedIsWellFormed` | sdk/src/router/quote-map.ts:275-301 | the sanitized map meets what the route search needs, and every quote in it chains and carries its split amount |
| `Sanitized.RoutesCarryTheTrade` | sdk/src/router/convert-quote-map.ts:138-150 | every route takes in, for an exact input, or delivers, for an exact output, at most the trade amount and more than that less one unit per quote |
| `Selection.KSmallestPartition` | sdk/src/utils/math/k-smallest-partition.ts:17-74 | the in-place selection, recursive samples included, rearranges the range so that nothing before index k costs more than anything from there on |
| `Selection.PartitionAround` | sdk/src/utils/math/k-smallest-partition.ts:37-64 | partitions a range around one item, whichever it is and whatever ties there are |
| `Selection.ExchangeInwards` | sdk/src/utils/math/k-smallest-partition.ts:47-57 | the scans from both ends stay within the range and leave nothing on the wrong side |
| `Selection.SampleContains` | sdk/src/utils/math/k-smallest-partition.ts:26-35 | the sample contains index k and is smaller than the range, so the recursion ends |
| `BestRoutes.RankedRoutes` | sdk/src/router/convert-quote-map.ts:69-86 | the routes kept are sorted, as many as asked for, and none of the others is better |
| `BestRoutes.GetBestRoutes` | sdk/src/router/convert-quote-map.ts:6-20 | the result is the best routes together with the direct ones, sorted |
| `BestRoutes.DirectRoutesAreRoutes` | sdk/src/router/convert-quote-map.ts:50-67 | every route listed separately is one of the enumeration |
| `BestRoutes.SelectedAreRoutes` | sdk/src/router/convert-quote-map.ts:6-20 | every route returned is a route of the enumeration, and they are sorted |
| `BestRoutes.FirstIsBest` | sdk/src/router/convert-quote-map.ts:6-20 | the first route returned costs no more than any valid split of the quotes |
| `Router.FindAllRoutes` | sdk/src/router/router-impl.ts:29-99 | from a trade amount and an increment: the routes are the best splits of the best quotes, and which of four errors is raised when |
| `Router.FoundRoutesCarryTheTrade` | sdk/src/router/router-impl.ts:55-88 | every route returned is a valid split and carries the trade to within one unit per quote |
| `Router.FirstRouteIsBest` | sdk/src/router/router-impl.ts:66-88 | if any valid split of the best quotes exists, a route is returned, and the first is as good as any split |
| `Prices.NextPriceIsBest` | sdk/src/utils/position-util.ts:149-165 | all four formulas: the prices an input pays for, or that yield an output, are exactly those bounded by the next price |
| `Prices.InputAIsBest` | sdk/src/utils/swap-utils.ts:4-10 | exact input of A gives the least price whose rounded-up cost is affordable |
| `Prices.OutputAIsBest` | sdk/src/utils/swap-utils.ts:12-18 | exact output of A gives the least price whose rounded-down yield suffices |
| `Prices.OutputBIsBest` | sdk/src/utils/swap-utils.ts:20-23 | exact output of B gives the greatest price whose rounded-down yield suffices |
| `Prices.InputBIsBest` | sdk/src/utils/swap-utils.ts:25-28 | exact input of B gives the greatest price whose rounded-up cost is affordable |
| `Prices.UndefinedMeansImpossible` | sdk/src/utils/swap-utils.ts:14-14 | without a positive denominator no price yields the wanted output of A |
| `Prices.NoGainFromRoundTrip` | sdk/src/utils/position-util.ts:125-165 | swapping there and back at constant liquidity returns at most the original amount, and the price does not pass its start |
| `Prices.QuotesAreDual` | sdk/src/utils/position-util.ts:125-165 | asking for the proceeds of a move goes no further than the move; paying its cost goes at least as far |
| `Prices.SplittingMoveOfA` | sdk/src/utils/position-util.ts:167-182 | splitting a move costs at most one unit of A, rounded up or down |
| `Prices.SplittingMoveOfB` | sdk/src/utils/position-util.ts:184-198 | splitting a move costs at most one unit of B, rounded up or down |
| `Prices.AmountsAreSymmetric` | sdk/src/utils/position-util.ts:202-208 | the order of the two prices does not matter |
| `Prices.DepositOfAIsBest` | sdk/src/utils/position-util.ts:69-84 | the liquidity bought by an amount of A is the largest whose rounded-up cost is affordable, through two nested floors |
| `Prices.DepositOfBIsBest` | sdk/src/utils/position-util.ts:86-99 | the same for B, and rounding up gives the least liquidity whose rounded-down worth suffices |

## Left out

- `tick_math.rs` and `u256_math.rs`: the prices of ticks are given functions with the properties named above, and 256-bit products and quotients are taken to be exact.
- The array index a swap carries from leg to leg, and ticks it meets outside the arrays supplied: the model keeps one map of ticks.
- Account validation, signers, mints and vault addresses. Closing positions, two-hop swaps, and the setters of fee rates and authorities are not modelled; both fee rates are fixed for a run.
- Mint and vault of a reward: a reward is initialized once `initialize_reward` accepted its index.
- Enumeration.RoutesAreExact: assumes integer percentages in ascending order of keys and identifies a quote by its percentage and path; the substring test on addresses is modelled as equality.
- Routes.OverQuotesInto: the inner loop of `buildRoutes` is a method of its own.
- Selection.KSmallestPartition: compares by an integer cost, which is what both comparators of routes do; a comparator without one is not covered.
- Router.FindAllRoutes: the fetching of accounts before quoting, defaults of the options and the conversion to public route objects are not modelled; quotes pruned to and routes kept are natural numbers.
- Sanitized.GetQuoteMap: the prune limit is a natural number.
- The fields of a hop quote beyond amounts, pool and mints (vaults, fee rate, snapshot), and prices of routes in other tokens.
- Prices.LiquidityFromTokenA: with rounding up it floors the division before the shift and so is not an exact ceiling; it is defined and nothing is stated about it.
- The clients, instruction builders and fetchers of the SDK.
