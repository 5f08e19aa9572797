# Tremor: a verified model

Tremor is a market in capped realized variance. A writer's vault backs any number of series; each series sells
claims at a premium priced as an integral, buys them back at a bid, accumulates squared returns in bounded
checkpoints, and after expiry redeems every claim at one fixed payout. This project models the integer logic of the
repository's replicas and tools in Dafny and proves what they are meant to guarantee.

| file | what it models |
|---|---|
| `Arith.dfy`, `Outcomes.dfy`, `Sequences.dfy`, `Text.dfy` | rounded division, exact integer roots, result shapes, sequences, trimming |
| `Pricing.dfy` | the pricing library: quotes, slopes, premiums, the square-root inverse, clamps, liabilities |
| `Market.dfy`, `Solvency.dfy`, `Book.dfy` | the vault and series state machine on values, its invariant, and runs of many series on one vault |
| `Objects.dfy` | the same machine as mutable, shared objects, held to the values operation by operation |
| `RoundTrip.dfy`, `Trading.dfy`, `Splitting.dfy`, `SplitSales.dfy` | theorems over trades at one time: a round trip, any list of trades, split purchases, split sales |
| `Funding.dfy`, `Checkpoints.dfy`, `Redemption.dfy` | theorems over runs: full funding, checkpoint schedules, holders redeeming in turn |
| `Witnesses.dfy` | whole runs that end where a documented claim fails |
| `Replay.dfy` | the backend's reconstruction of the market from its event log |
| `FastLz.dfy`, `CallData.dfy`, `Hex.dfy` | the two calldata codecs and their hex strings |
| `Intervals.dfy`, `Rounds.dfy`, `Chainlink.dfy` | the phase-aware oracle round search with its cache |
| `Portfolio.dfy` | the shared reserve of two complementary claims |
| `Format.dfy`, `Derive.dfy` | the fixed-point printer and parser, and the derivation of a series from a writer's inputs |

Where the code updates objects or loops over variables, the model does too, and each method is proved equal to a
specification function whose properties the lemmas state. `dafny verify dfyconfig.toml` checks everything.

## Findings

Where the code and its documentation disagree, the model follows the code. Each of these is a lemma below, with the
exact condition under which the documented statement holds.

- "Splitting a fill cannot beat one fill" (`README.md:74-75`) holds after a purchase for every second one, to the last
  place, if and only if nothing is short before it: the ask it will leave is not below the marginal ask it reaches. It
  holds up to roundings while the forward variance has room: it starts at or above zero and the whole lift fits under the cap. Even there the
  roundings of the lift, the projection, the ask and the slope usually leave a second fill slightly below the margin,
  by at most the units bought first plus four last places for a half-spread of at most 50%; a run saves 24 base units
  that way. Where a clamp swallows part of the lift, that part is missing from the next quote, to within the same
  roundings, while the slope still charges for it inside a fill: two fills can be far cheaper than one. Runs to both
  clamps, at the cap and at zero, show it. Sales are the mirror image: up to roundings while the whole drop has room,
  and a run above the cap where two sales are paid a third more than one.
- A round trip at one time, or any list of trades, can gain from the market, but only by roundings: without a spread a
  run gains 50 base units on 12.5e18. At the notional of a derived series those are worth nothing.
- `saleEnd <= expiry` (`web/src/lib/derive.ts:23-24`) fails when the sale would already be over and the window has
  less than an hour to run: the one-hour hold passes expiry.
- `askAtSellOut <= capVariance` (`web/src/lib/derive.ts:27-30`) holds for the derived impact, not for an overridden one.
- `maxSeriesLiability(params) <= collateral typed` (`web/src/lib/derive.ts:31-32`) holds for the derived inventory, and
  for an overridden one exactly when it is at most what the collateral typed backs at the cap.
- "Every claim was extinguished" (`sim/src/scenarios.ts:298`) holds if and only if the own payout of every holder with
  units is at least one base unit, or a unit pays nothing at all and the receipts are burned. It is each holding that counts, not the
  position: two holders of 0.6 units at a payout of one base unit leave all 1.2 units behind.
- `parseDecimal` is documented as exact (`web/src/lib/format.ts:18`); digits past its places are dropped.
- `missing_ranges` reports a covered `u64::MAX` as missing when the range asked for reaches it.

## Model

| member | source | states |
|---|---|---|
| `Arith.Isqrt` | sim/src/pricing.ts:31-41 | Newton's loop from above ends at exactly `floor(sqrt(n))` for every `n` |
| `Arith.IsqrtFromSeed` | web/src/lib/format.ts:58-74 | the same root from any seed whatever, so the floating-point start cannot matter |
| `Arith.NewtonStaysAbove` | sim/src/pricing.ts:36-39 | a Newton step from any positive point never lands below the root |
| `Pricing.DecayShrinks` | sim/src/pricing.ts:54-61 | decay keeps the sign of the skew and never enlarges it, for any factor in [0, 1e18] |
| `Pricing.BidNeverAboveAsk` | sim/src/pricing.ts:91-103 | the bid never exceeds the ask, and both stay inside the cap |
| `Pricing.IssueUnitsFor` | sim/src/pricing.ts:148-161 | the branches, the root loop and the ceiling correction compute the size the specification `UnitsFor` names |
| `Pricing.NeverCostsMoreThanOffered` | sim/src/pricing.ts:136-161 | pricing the size sold for an amount never costs more than that amount, for every ask, slope, notional and amount |
| `Pricing.FlatBookBuysTheMost` | sim/src/pricing.ts:154-156 | without price impact a size is affordable if and only if it is at most the size sold |
| `Pricing.BuysNearlyTheMost` | sim/src/pricing.ts:148-161 | with impact, no affordable size exceeds the size sold by more than one and the size over twice the ask |
| `Pricing.PremiumMono` | sim/src/pricing.ts:136-145 | a larger size never costs less |
| `Pricing.SliceCoversIffAtMargin` | sim/src/pricing.ts:135-145 | a later slice covers its share of the unrounded integral exactly when it starts at or above the marginal ask reached |
| `Pricing.SplittingSavesAtMost` | sim/src/pricing.ts:136-145 | any list of slices saves over the single fill of their total at most what their largest distance below the margin is worth |
| `Pricing.SplittingNeverBeatsOneFill` | sim/src/pricing.ts:136-145 | any list of slices, each starting at or above the margin, costs at least the single fill of their total |
| `Pricing.ShortfallSaves` | sim/src/pricing.ts:136-145 | a second slice below the margin leaves exactly its distance on every unit uncovered, and past the roundings of three premiums the two are strictly cheaper |
| `Pricing.PremiumWithinReservation` | sim/src/pricing.ts:163-167 | a size inside the cap clamp costs at most the maximum liability of that size |
| `Pricing.CollateralClampFits` | sim/src/pricing.ts:169-181 | a size passes the collateral clamp if and only if the whole position's liability fits the reservation plus what is free |
| `Pricing.MaxLiabilityIsSubadditive` | sim/src/pricing.ts:212-213 | reserving the aggregate position never takes more than reserving its parts |
| `Pricing.FinalWithinMax` | sim/src/pricing.ts:204-217 | what a position reserves after finalization never exceeds what it reserved before, for any final variance |
| `Pricing.ReleaseCoversPayout` | sim/src/pricing.ts:207-217 | a payout rounded down plus the rest's reservation rounded up fits the reservation before it |
| `Pricing.ZeroBidClampFits` | sim/src/pricing.ts:186-200 | a size inside the zero-bid clamp never reaches the throw in the exit pricing |
| `Pricing.RoundTripGainsAtMost` | sim/src/pricing.ts:64-200 | on raw quotes and at any spread: selling back at the lifted bid returns at most the premium and the worth of what the spread does not pay of the sold quadratic and of two bid roundings a unit |
| `Pricing.RoundTripNeverProfits` | sim/src/pricing.ts:64-200 | on raw quotes: no more than the premium where the spread is wide enough for the size sold, through projection, spread, slope and premium rounding |
| `Solvency.IssueFillFits` | sim/src/market.ts:272-289 | what the purchase clamps guarantee: inside the inventory, no dearer than the offer or the reservation it causes, and covered by free collateral |
| `Solvency.IssueKeeps` | sim/src/market.ts:269-309 | a purchase is refused only for stale checkpoints and otherwise keeps the series invariant and moves the vault by exactly the money and reservation recorded |
| `Solvency.ExitFillFits` | sim/src/market.ts:315-326 | a sale never reaches the zero-bid throw, and its payment plus the remaining reservation fits the reservation before |
| `Solvency.ExitKeeps` | sim/src/market.ts:312-348 | a sale is refused only for stale checkpoints and otherwise keeps the series invariant and the vault's accounts |
| `Solvency.SettleFillIs` | sim/src/market.ts:354-360 | on a redemption neither the released-liability clamp nor the balance clamp ever binds |
| `Solvency.RedemptionPaysInFull` | sim/src/market.ts:351-378 | after finalization every redemption that pays anything pays exactly `floor(units·ppu/1e18)`, whatever came before it; one that would pay nothing changes nothing |
| `Solvency.RedemptionExtinguishesIff` | sim/src/market.ts:356-360 | one redemption asking for the whole position extinguishes it if and only if the position's payout does not floor to zero |
| `Solvency.SettleKeeps` | sim/src/market.ts:351-378 | a redemption is refused only before finalization and keeps the invariant |
| `Solvency.FinalizeKeeps` | sim/src/market.ts:210-224 | finalization succeeds exactly after expiry, with the window complete, once; it never needs more than was locked |
| `Solvency.BurnKeeps` | sim/src/market.ts:381-389 | burning worthless claims is refused unless the series is finalized and pays nothing, and keeps the invariant |
| `Solvency.CloseKeeps` | sim/src/market.ts:397-404 | a series closes exactly when no claim is outstanding, and then nothing is left to release |
| `Solvency.CheckpointKeeps` | sim/src/market.ts:182-197 | a checkpoint keeps the invariant and does nothing to a finalized series |
| `MarketRuns.StepKeeps` | sim/src/market.ts:40-94 | any operation on any series of a shared vault either is refused for a stated reason or keeps the whole book's invariant; no accounting check fires |
| `MarketRuns.EveryRunIsSolvent` | sim/src/market.ts:72-93 | in every run from an empty vault, with deposits and free withdrawals between, no operation ever raises Undercollateralized, ExceedsLocked, the debit error or the zero-bid error |
| `MarketRuns.EveryRunConservesMoney` | sim/src/market.ts:291-300 | the balance is deposits less withdrawals plus premiums less payouts over all series, and the writer's loss is bounded by the cap liabilities of the sizes sold |
| `MarketRuns.LossIsBounded` | sim/src/market.ts:321-332 | summed over any series: payouts plus what is still reserved never exceed the sum of the maximum liabilities sold |
| `MarketRuns.AllExtinguishedFreesEverything` | sim/src/scenarios.ts:300-308 | once no claim is outstanding anywhere, nothing stays locked |
| `CheckpointBatching.AnyScheduleAccumulates` | sim/src/market.ts:182-197 | after any sequence of checkpoint calls with any budgets, the sum is that of exactly the samples stored and the cursor matches their count |
| `CheckpointBatching.CallsNeededIsExact` | sim/src/market.ts:200-202 | `n` calls at one time bring the window current if and only if `n` is at least the number the series asks for |
| `CheckpointBatching.OnlyCheckpointsMoveTheOracle` | sim/src/market.ts:182-404 | no other operation moves the accumulator or its cursor |
| `CheckpointBatching.FinalVarianceIsScheduleFree` | sim/src/market.ts:210-218 | in any run, whatever the checkpoint schedule and the trading around it, the final variance and payout are those of the whole window's samples |
| `RoundTrip.ImmediateRoundTripGainsAtMost` | sim/src/market.ts:228-348 | buying and selling back at once, through every clamp of both legs and at any spread, returns at most the premium and the worth of the excess of the size over the spread, itself at most four last places on every unit and the size squared |
| `RoundTrip.ImmediateRoundTripNeverProfits` | sim/src/market.ts:228-348 | buying and selling back at once, through every clamp of both legs, never returns more than was paid, whenever the size sold back is at most `2·(ask − bid − 2)·1e18` |
| `LiveSplitting.NothingLostIffRoom` | sim/src/pricing.ts:64-68 | the clamps swallow none of a purchase's lift exactly when the forward variance starts at or above zero and the whole lift fits under the cap |
| `LiveSplitting.QuoteAfter` | sim/src/market.ts:302-304 | the quote a purchase leaves is the one told before it: the ask of the lifted skew, the same slope |
| `LiveSplitting.ShortfallBracket` | sim/src/market.ts:228-253 | told before the purchase, a second fill starts below the margin by the lift the clamps swallow spread over the window, to within a stated number of roundings both ways |
| `LiveSplitting.SplitCoversIffNothingShort` | sim/src/market.ts:228-309 | before any rounding of the premiums: two fills cover the area under the single fill if and only if that shortfall is not positive |
| `LiveSplitting.NothingShortNeverSaves` | sim/src/market.ts:228-309 | where that shortfall is not positive, the two premiums are never less than the single one, to the last place and for any second size |
| `LiveSplitting.SplittingCanSaveIffShort` | sim/src/market.ts:228-309 | some second fill makes the two premiums together less than the single one if and only if that shortfall is positive |
| `LiveSplitting.SpreeNeverSaves` | sim/src/market.ts:269-309 | any number of live purchases with nothing short before any that another follows are never cheaper than one fill of what they bought, to the last place and at either clamp |
| `LiveSplitting.TwoFillsSaveOnlyRoundings` | sim/src/market.ts:269-309 | with room for the first lift and both fills inside the cap clamp, two fills save at most a stated rounding bound over one |
| `LiveSplitting.TwoFillsFourPlaces` | sim/src/market.ts:269-309 | that bound's distance is the units bought first plus four last places for a half-spread of at most 50% |
| `LiveSplitting.SpreeSavesOnlyRoundings` | sim/src/market.ts:269-309 | any number of live purchases at one time, however sized, saves at most a stated rounding bound over one fill of what they bought, where the forward variance has room for all of it |
| `LiveSplitting.ShortFillsAreCheaper` | sim/src/market.ts:228-309 | where something is short, two fills cover less by exactly that, and are strictly cheaper once it outweighs the roundings |
| `LiveSplitting.HeldForwardCoversLess` | sim/src/pricing.ts:64-68 | with the forward variance held at the cap or at zero and any slope, two fills always cover strictly less than one, and past the roundings cost strictly less |
| `Witnesses.SplittingBeatsOneFillAtTheCap` | README.md:74-75 | a run from an empty vault to a forward variance held at the cap, where one offer pays 56.56 for what two offers buy for 48.48 |
| `Witnesses.SplittingBeatsOneFillAtZero` | README.md:74-75 | a run of a purchase, a year and a sale that leaves the forward variance held at zero, where one offer pays 14.14 for what two buy for 12.12 |
| `Witnesses.SplittingSavesRoundingsInside` | README.md:74-75 | a run well between both clamps where two offers save 24 base units on a premium of 25e18: the roundings |
| `LiveTrading.TradingGainsOnlyRoundings` | sim/src/market.ts:228-348 | any list of purchases and sales at one time, by anyone and in any order, through every clamp: if no fewer units are outstanding after it, the money paid out exceeds the money taken in by at most a stated worth of roundings |
| `LiveTrading.SixDecimalsGainNothing` | web/src/lib/derive.ts:105 | at the notional every derived series has, a hundred trades of up to a thousand units in all gain nothing |
| `LiveSales.SplittingSalesGainsAtMost` | sim/src/pricing.ts:183-197 | any list of sales is paid over the price of one of their total at most what their largest distance above the margin and their roundings are worth |
| `LiveSales.SplitSalesCoveredIffNoSurplus` | sim/src/market.ts:228-348 | two sales get no more of the area than one if and only if the bid told before the first is not above the margin after it |
| `LiveSales.SurplusBracket` | sim/src/market.ts:228-253 | told before the sale, a second sale starts above the margin by the drop the clamps swallow spread over the window, to within a stated number of roundings both ways |
| `LiveSales.NoSurplusGainsOnlyRoundings` | sim/src/market.ts:312-348 | without a surplus two sales are paid at most their own price roundings more than one |
| `LiveSales.SurplusPaysMore` | sim/src/market.ts:312-348 | with one, two sales get exactly that more of the area on every later unit, and are paid strictly more once it outweighs the roundings |
| `LiveSales.HeldForwardPaysMore` | sim/src/pricing.ts:64-68 | with the forward variance held at the cap or at zero and any slope, two sales always get strictly more of the area than one |
| `LiveSales.SellOffGainsOnlyRoundings` | sim/src/market.ts:312-348 | any number of live sales at one time are paid at most a stated worth of roundings more than one live sale of it all, where the forward variance has room for the whole drop, the bid is inside the cap and the one sale stays before the zero-bid point |
| `Redemption.RedemptionLeaves` | sim/src/scenarios.ts:275-297 | holders redeeming in turn, any list of them: every one is paid exactly their own payout rounded down, and what stays of theirs are exactly the holdings whose own payout rounds to nothing |
| `Redemption.EveryClaimExtinguishedIff` | sim/src/scenarios.ts:276-308 | when their units add up to the position: every claim is extinguished, no liability remains and the series closes, each if and only if no non-zero holding is worth less than a base unit at a positive payout |
| `Redemption.RedemptionKeepsRecords` | sim/src/scenarios.ts:280-295 | the holders' own records of units, money paid and money received still agree with the series after the redemption |
| `Redemption.Buy` | sim/src/scenarios.ts:202-210 | a purchase by any holder keeps those records in agreement |
| `Redemption.SellBack` | sim/src/scenarios.ts:211-221 | a sale of at most what the holder has keeps them in agreement |
| `Redemption.RedeemHolders` | sim/src/scenarios.ts:276-300 | the loops over the holders, in place on the objects, end where the redemption on values does; every claim is extinguished exactly under the condition above |
| `Witnesses.DustClaimSurvives` | sim/src/scenarios.ts:298 | a run that ends finalized with half a unit outstanding that no redemption of any size changes, and that therefore never closes |
| `Witnesses.TwoSharesSurvive` | sim/src/scenarios.ts:287-298 | a run of two holders of 0.6 units at a payout of one base unit each: the position is worth a base unit, both redemptions pay nothing and all 1.2 units stay |
| `Witnesses.SplittingASaleBeatsOne` | README.md:74-75 | a run to a forward variance above the cap where one sale is paid 23.76 for what two sales are paid 31.68 for |
| `Witnesses.TightRoundTripGains` | sim/src/market.ts:228-348 | a run without a spread where a unit bought and sold back at once gains 50 base units on a premium of 12.5e18: the roundings |
| `Funding.InventoryOnSaleIff` | sim/src/pricing.ts:169-181 | the collateral clamp leaves a series' whole inventory on sale exactly when its full reserve is covered |
| `Funding.ExitPaysWithinCap` | sim/src/pricing.ts:186-197 | a sale back is never paid more than the cap on its size, rounded down |
| `Funding.MarginNeverFalls` | sim/src/market.ts:210-404 | whatever is done to a series, the money it brought in less what its whole inventory may cost never falls |
| `Funding.RunKeepsSpare` | sim/src/market.ts:40-94 | over any run, what is left after every series' full reserve falls by no more than what was withdrawn and opened, less what was deposited |
| `Funding.FundedVaultSellsFreely` | sim/src/market.ts:277-286 | with that spare not negative, no purchase in any series on the vault is cut short by collateral |
| `Funding.FundedRunsSellFreely` | sim/src/market.ts:269-309 | the same for every run whose deposits cover its withdrawals and the full inventories opened |
| `Funding.ShippedTermsOpenFunded` | web/src/lib/derive.ts:590-598 | opening derived terms draws no more than the collateral typed pays in |
| `MarketObjects.Vault.Deposit` | sim/src/market.ts:51-55 | credits balance and deposits by the amount and then runs the solvency check |
| `MarketObjects.Vault.WithdrawFree` | sim/src/market.ts:58-65 | refuses more than is free, leaving the vault as it was; otherwise the new state is the specified one |
| `MarketObjects.Vault.Debit` | sim/src/market.ts:72-76 | refuses more than the balance, leaving the vault as it was; otherwise the new state is the specified one |
| `MarketObjects.Vault.DecreaseLocked` | sim/src/market.ts:83-87 | refuses more than is locked, leaving the vault as it was; otherwise the new state is the specified one |
| `MarketObjects.Series.constructor` | sim/src/market.ts:150-158 | a series opens with its whole inventory, one sample and no lock |
| `MarketObjects.Series.Checkpoint` | sim/src/market.ts:182-197 | the loop stores exactly the due samples within the budget and sums their squares |
| `MarketObjects.Series.Finalize` | sim/src/market.ts:210-224 | in place, on the series and its vault, exactly the specified finalization or its refusal |
| `MarketObjects.Series.Issue` | sim/src/market.ts:269-309 | in place, exactly the specified purchase, and neither vault check on the way can fail |
| `MarketObjects.Series.Exit` | sim/src/market.ts:312-348 | in place, exactly the specified sale, and neither vault check on the way can fail |
| `MarketObjects.Series.Settle` | sim/src/market.ts:351-378 | in place, exactly the specified redemption, and neither vault check on the way can fail |
| `MarketObjects.Series.BurnWorthless` | sim/src/market.ts:381-389 | in place, exactly the specified burn |
| `MarketObjects.Series.StopIssuance` | sim/src/market.ts:391-394 | withdraws the inventory and nothing else |
| `MarketObjects.Series.Close` | sim/src/market.ts:397-404 | in place, exactly the specified close; its release branch is never needed |
| `MarketObjects.Perform` | sim/src/market.ts:40-158 | one operation on series objects sharing one vault object moves all of them as one step of the book on values, and raises only stated refusals |
| `MarketObjects.PerformAll` | sim/src/market.ts:40-158 | a whole run over shared, mutable objects ends where the run on values does |
| `Replay.SkewAt` | backend/src/market.rs:110-126 | the filtered loop over flows computes the specified replay, decaying the running total between them |
| `Replay.CheckpointAt` | backend/src/market.rs:201-209 | the loop keeps the last checkpoint at or before the time asked |
| `Replay.MarketAt` | backend/src/market.rs:212-246 | the reconstructed point is the specified one, and is the quote of every live series whose log it was given |
| `Replay.FreshIffCurrent` | backend/src/market.rs:222-244 | the replica calls the window fresh exactly when the live series is current |
| `Replay.ReplayIsTheLiveQuote` | backend/src/market.rs:212-246 | for every run, however it continues after `t`, replaying the indexed log at `t` gives the forward, projected, bid and ask values the live series quoted at `t` |
| `FastLz.Decompress` | contracts/lib/solady/js/solady.js:136-150 | the loop computes the decoder's specification on every input, truncated and out-of-range ones included |
| `FastLz.DecodeTokens` | contracts/lib/solady/js/solady.js:138-148 | decoding any encoded token list expands exactly those tokens, overlapping copies included |
| `FastLz.WriteCopy` | contracts/lib/solady/js/solady.js:122-124 | the bytes written for one copy, short or long, overlapping or not, extend what decodes by exactly the bytes it stands for |
| `FastLz.WriteMatch` | contracts/lib/solady/js/solady.js:122-124 | cut into 262-byte chunks, a match of any length still decodes to the bytes matched, and takes no more bytes than it stands for |
| `FastLz.FindMatch` | contracts/lib/solady/js/solady.js:114-118 | for any hash function, a match found lies strictly behind the cursor, inside the window, and agrees on three bytes |
| `FastLz.MatchLength` | contracts/lib/solady/js/solady.js:120-121 | the extension loop counts bytes that all agree, and stays inside the input |
| `FastLz.Compress` | contracts/lib/solady/js/solady.js:96-129 | for every byte string and any hash function the output decodes to the input, and is longer by at most one byte for every 32 begun |
| `FastLz.FlzRoundTrip` | contracts/lib/solady/js/solady.js:96-150 | decompressing a compressed hex string gives back its bytes, and the compressor refuses exactly the malformed strings |
| `CallData.Decompress` | contracts/lib/solady/js/solady.js:196-213 | the loop computes the decoder's specification on every input, cut-off runs included |
| `CallData.DecodeItems` | contracts/lib/solady/js/solady.js:200-211 | decoding the masked form of any item list gives the bytes of those items, wherever the first four bytes fall |
| `CallData.Compress` | contracts/lib/solady/js/solady.js:157-189 | for every byte string the output decodes to the input and is at most twice as long, through runs over 128 zeros or 32 0xff bytes and pairs straddling the inverted prefix |
| `CallData.CdRoundTrip` | contracts/lib/solady/js/solady.js:157-213 | the same on hex strings, with exactly the malformed ones refused |
| `Hex.PrintedBytesReadBack` | contracts/lib/solady/js/solady.js:59-89 | printed bytes read back as themselves |
| `Intervals.Coalesce` | backend/src/chainlink.rs:660-671 | the result covers exactly the same values and is sorted and separated by gaps |
| `Intervals.AddInterval` | backend/src/chainlink.rs:673-676 | the result covers the old values and the new interval, in the same form |
| `Intervals.SeparatedIsCanonical` | backend/src/chainlink.rs:659-671 | that form is unique: two such lists covering the same values are equal |
| `Intervals.MissingRanges` | backend/src/chainlink.rs:679-701 | the sub-ranges returned are `lo..=hi` minus the coverage, the largest 64-bit value aside |
| `Intervals.MissingIsExactIff` | backend/src/chainlink.rs:679-701 | they are exact if and only if the range does not reach a covered largest 64-bit value |
| `Intervals.TopIsReportedMissing` | backend/src/chainlink.rs:679-701 | a range and a coverage where they are not |
| `Rounds.ServingPhaseUnique` | contracts/tools/reference/rv_reference.py:41-44 | the serving phase is the only one whose first round is in time and above which none is |
| `Rounds.CountByUnique` | contracts/tools/reference/rv_reference.py:45-53 | in a phase with ordered times, the price round is the only one in time with none later in time |
| `ChainlinkSearch.TruthSurvivesAppends` | backend/src/chainlink.rs:388-431 | what is remembered of a phase stays true while the feed only appends |
| `ChainlinkSearch.Chainlink.StaysValid` | backend/src/chainlink.rs:346-431 | so the whole cache stays right whatever the feed appends between calls |
| `ChainlinkSearch.Chainlink.GetRound` | backend/src/chainlink.rs:346-372 | the cached lookup answers what the feed holds, treats an empty answer as no round, and keeps the cache truthful |
| `ChainlinkSearch.Chainlink.Last` | backend/src/chainlink.rs:390-432 | probing and halving find the true last round, and give up if and only if the phase is closed and has at least 2^40 rounds |
| `ChainlinkSearch.Chainlink.Search` | backend/src/chainlink.rs:435-451 | the binary search returns the latest round in time, or none exactly when there is none |
| `ChainlinkSearch.Chainlink.PhaseFor` | backend/src/chainlink.rs:455-469 | the downward scan finds the highest phase whose first round is in time |
| `ChainlinkSearch.Chainlink.PriceAtTime` | backend/src/chainlink.rs:472-486 | the price is the reference definition's, refused exactly when the definition has none or the probe gives up |
| `ChainlinkSearch.Chainlink.FetchChunk` | backend/src/chainlink.rs:507-526 | whatever answers are dropped, what is kept is the feed's, and the prefix reported unbroken is present and the longest there is |
| `ChainlinkSearch.Chainlink.Remember` | backend/src/chainlink.rs:528-539 | the coverage gains exactly the unbroken prefix, and every covered index is in memory even when the fetch had holes |
| `ChainlinkSearch.Chainlink.EnsureLoaded` | backend/src/chainlink.rs:489-545 | coverage is never lost, and without drops the whole range is in memory and covered afterwards; with any drops the cache stays truthful |
| `ChainlinkSearch.Chainlink.SampleEach` | backend/src/chainlink.rs:606-617 | the sparse path gives the reference price at every time |
| `ChainlinkSearch.Chainlink.SampleDense` | backend/src/chainlink.rs:636-643 | the dense path gives the reference price at every time |
| `ChainlinkSearch.Chainlink.SampleLoaded` | backend/src/chainlink.rs:619-653 | dense or, when the loaded range has holes, per-sample search: the reference price either way |
| `ChainlinkSearch.Chainlink.MakeGroups` | backend/src/chainlink.rs:569-580 | the groups list all times in order, each under the phase that serves it, and are refused exactly when some time predates the feed |
| `ChainlinkSearch.Chainlink.SampleWindow` | backend/src/chainlink.rs:549-656 | the samples come exactly when every time has a price in a phase whose end can be found, each at its time and at the reference price on all three paths; each refusal comes for its stated reason |
| `Portfolio.CompleteSet` | web/src/lib/portfolio.ts:115-128 | the two payouts make up the whole scale with no dust, and neither is negative |
| `Portfolio.SharedReserveCovers` | web/src/lib/portfolio.ts:131-147 | for every outstanding pair, scale and final variance one shared reserve covers both sides' final claims, and never exceeds two separate ones |
| `Portfolio.ReleaseIsExact` | web/src/lib/portfolio.ts:150-157 | a burn never grows the reserve, so what it releases is exactly the difference |
| `Portfolio.BurnCoversPayout` | web/src/lib/portfolio.ts:150-169 | after finalization a burn releases at least what it pays |
| `Portfolio.OneReservePaysEveryone` | web/src/lib/portfolio.ts:131-169 | redemptions on both sides, in any order and any split, are all paid out of the one reserve |
| `Format.FormatFixed` | web/src/lib/format.ts:105-120 | the text printed is the specified one, and parses back to the value its style shows |
| `Format.PrintedReadsBack` | web/src/lib/format.ts:19-29 | every printed number parses, to the value its style shows, for any sign, grouping, filling and number of places |
| `Format.FullPrecisionReadsBack` | web/src/lib/format.ts:105-120 | at full precision parsing gives back the number printed |
| `Format.RoundingIsToNearest` | web/src/lib/format.ts:110-113 | with fewer places and rounding on, what reads back is the nearest multiple of the last place, ties away from zero |
| `Format.TruncationDropsTheTail` | web/src/lib/format.ts:110-115 | with rounding off, what reads back is the number cut towards zero |
| `Format.ParsesTheDecimalCut` | web/src/lib/format.ts:19-29 | every input parses to the exact decimal it spells, scaled to its places and cut towards zero under its sign, and is refused exactly when it spells none |
| `Format.ParsingIsExactIff` | web/src/lib/format.ts:18-29 | the documented exactness holds if and only if every digit past the places kept is a zero |
| `Format.HalfAUnitReadsAsNothing` | web/src/lib/format.ts:18-29 | an input where it does not: "0.5" in whole units reads as zero |
| `Derivation.CapVarianceFor` | web/src/lib/derive.ts:325-329 | from any floating-point seeds the cap is the one the exact roots give |
| `Derivation.StanceKeepsCap` | web/src/lib/derive.ts:319-333 | for trailing variance at or above the floor, a stance of at most 1.35 times trailing volatility never moves the cap, through two rounded roots |
| `Derivation.StanceNeverMovesTheSize` | web/src/lib/derive.ts:319-333 | whichever named stance is taken, the cap, the inventory and the collateral committed are the same |
| `Derivation.FinestFits` | web/src/lib/derive.ts:311-314 | the derived grid stays inside the sample ceiling unless it is the coarsest, and no finer one would |
| `Derivation.WindowTilesWholeDays` | web/src/lib/derive.ts:16-22 | the window is a whole number of samples over exactly the whole days asked for |
| `Derivation.SaleEndsInsideIff` | web/src/lib/derive.ts:528-544 | the sale ends inside the window if and only if it has not already ended when written or the window has an hour left |
| `Derivation.FutureWindowsKeepTheirSale` | web/src/lib/derive.ts:528-544 | so a window that starts after it is written always keeps its sale inside |
| `Derivation.BackDatedTermsShip` | web/src/lib/derive.ts:23-24 | a back-dated day whose terms ship without an error and whose sale ends months after expiry, against the documented `saleEnd <= expiry` |
| `Derivation.DeriveSeries` | web/src/lib/derive.ts:337-757 | section by section, with errors collected in order, the derivation equals its specification; what ships is valid, inside the collateral typed and, with a derived impact, under the cap to the last unit |
| `Derivation.ShippedTermsAreValid` | web/src/lib/derive.ts:728-729 | terms that ship are a valid series: 2 to 256 samples tiling the window, an anchor and opening ask inside the cap, bounds the contract accepts |
| `Derivation.InventoryIsLargest` | web/src/lib/derive.ts:593-595 | the inventory is the largest number of hundredths of a unit whose liability fits the budget |
| `Derivation.ShippedInventoryFitsTheBudget` | web/src/lib/derive.ts:570-598 | without an inventory override the full liability fits the collateral typed, and no larger inventory would |
| `Derivation.ShippedLiabilityFitsIff` | web/src/lib/derive.ts:577-598 | derived or typed, the shipped inventory's liability fits the collateral typed if and only if it is at most what that collateral backs at the cap; a typed inventory ships as typed |
| `Derivation.MaxFillsTheSameInventory` | web/src/lib/derive.ts:769-774 | what MAX fills in is the least collateral that backs as much inventory as the whole balance |
| `Derivation.AskInsideCapIff` | web/src/lib/derive.ts:645-666 | the ask at sell-out stays inside the cap exactly when the variance stays under the room the spread leaves |
| `Derivation.ShippedSellOutIff` | web/src/lib/derive.ts:639-674 | on shipped terms the same equivalence, and without an impact override it always holds |
| `Derivation.OverriddenImpactShips` | web/src/lib/derive.ts:27-30 | an input whose impact override of 1 ships without an error with the ask at sell-out past the cap, against the documented invariant |
| `Derivation.OverriddenInventoryShips` | web/src/lib/derive.ts:31-32 | an input whose inventory override of 51 units ships without an error with a liability of 5100 USDC on 5000 typed, against the documented invariant |

## Left out

- HTTP, RPC, SQLite, async locks and retries: the oracle feed is a value that may append between calls, each call is atomic, and the source's batch answers may drop any subset of rounds.
- Exponential and power of the decay factor: an arbitrary function into [0, 1e18]; the early returns for zero time, zero skew and zero half-life are exact.
- Logarithm of the price path: an arbitrary squared return for each sample index, the same at every checkpoint of a series.
- Pricing.BidVariance: does not model the throw for a half-spread of 100% or more; valid terms keep it below.
- MarketRuns.EveryRunIsSolvent: does not model an operation on terms with a zero notional, a zero cap, or an interval that does not divide the window.
- Fixed-width overflow in the Rust replica: integers are unbounded, only its saturating subtractions are kept.
- `path` in the Rust replica: the choice of chart times, each of which is one `market_at`.
- FastLz.Compress: does not model which of several matches is taken or the compression ratio beyond the worst case, because the round trip holds for any of them.
- FastLz.FindMatch: does not model the particular 32-bit hash, because the property holds for every hash function.
- Numbers typed as plain integers: read exactly, where the client rounds those above 2^53.
- Error messages, warnings, notes and display-only fields of the derivation: only the errors and the terms are kept.
- Format.FormatFixed: does not model negative digit counts, which its callers never pass.
- Snapshots, counts of partial fills and price-path statistics of the simulation: bookkeeping around the machine. Its holders are a fixed list, not a map that grows on first use.
- Group trading, quotes and statuses in the portfolio: only the payout and reserve arithmetic is modelled.
- The indexer, subgraph handlers and transaction builders: they fold or send events of contracts that are not part of this model.
- Fractional days in the derivation's tenor: only whole days are modelled, as its inputs are documented.
- React components, charts and the generated ERC-1967 factory data.
