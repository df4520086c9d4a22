# Verification of the Jet vault and the Zeta margin engine

Dafny 4.11 models of two Rust programs of this repository, and proofs about them.
`dafny verify dfyconfig.toml` checks everything.

**The vault** takes users' USDC, issues redeemable tokens, posts 90% of each deposit to
Jet as collateral and borrows half of it back; a withdrawal burns tokens, pays out at a
floored rate and unwinds part of the loan. `VaultProgram.dfy` is the program as it runs: a
class whose fields are the accounts, methods that move one balance after another, and the
runtime's rollback of an instruction that fails part of the way. `VaultState.dfy` states
each instruction's acceptance and net effect in closed form; every method is proved against
it. The remaining vault files prove theorems about arbitrary runs of instructions: what is
conserved (`VaultConservation`), how far the vault borrows and exactly when its instructions
succeed (`VaultLeverage`), what a token costs and pays (`VaultPrice`), what redeemers can take
out together (`VaultFairness`), and when anything can move at all (`VaultLifecycle`, with
`Epochs` and `Names`). `VaultEffects` states in plain amounts what each instruction does. `VaultScenarios` holds short runs from genesis.

**The margin engine** computes fixed-point margins per lot, per position and per account,
profit and loss, and a pass/fail check. `MarginPerLot.dfy` and `MarginAccounts.dfy` hold the
checked machine computation beside the same quantities over unbounded integers;
`MarginCheck.dfy` proves that the first refines the second, and `MarginMeaning.dfy` reads the
results off the program's own parameters, market by market. `MarginBounds`, `ShortPuts`,
`MarginOrdering` and `MarginLaws` prove rounding bounds, monotonicity and where it ends, the
exact ordering of percentages that makes initial margin cover maintenance margin, and zero-sum
profit. `MarginWrap.dfy` is an account whose totals wrap. `MarketLayout.dfy` is the array layout
of markets and the lookups by key.

## Conventions

- No Cargo profile turns overflow checks on, so plain `+ - *`, `abs`, `.sum()` and casts wrap
  in the release build, and they wrap here (`Wrap64`, `WrapI64`). A failed `checked_*` or
  conversion followed by `unwrap` is `Panic`. Rust's division truncates toward zero
  (`Quotient`).
- Jet's calls move notes one to one with USDC and fail when a source is short or a
  destination would overflow. Whether Jet's own rules (prices, collateral ratio) allow a call
  is given with each instruction (`Jet`), so any Jet call may fail.
- Other users of the Jet reserve are not in the model: the pool changes only through the vault.
- An address derived from a name is modelled by the name's bytes, that is, distinct seeds have
  distinct addresses.
- One USDC account and at most one redeemable account per user; one vault.

## Where code and documentation differ

The code is followed.

- The vault's README gives the depositor `n_u / P_z` tokens for `n_u` USDC. The code mints the
  amount itself and transfers the converted amount. `VaultPrice.DocumentedPriceIff` states
  exactly when the price paid is the documented one, and `VaultScenarios.SecondDepositOverpays`
  is a run in which it is not.
- The end-to-end test redeems a whole deposit at once.
  `VaultLeverage.FullExitAfterFirstDepositIff` shows that this succeeds only for one unit.
- `usdc_amount*90` wraps for amounts from 2^64/90 on.
  `VaultLeverage.DepositLeverageIff` shows that exactly the non-wrapping deposits are covered
  by their collateral; run theorems assume that accepted deposits do not wrap, which
  `VaultLeverage.SmallCirculationNeverWraps` derives from a bound on all USDC.
  `VaultScenarios.WrappedDepositIsUncovered` is a run that wraps.
- The unchecked sums over markets wrap too: `MarginWrap.WrappedSumPasses` is an account that
  is short and passes. `MarginCheck.CheckRefines` states exactly when the check is right, and
  `MarginCheck.BoundedExposureChecks` a bound on the inputs under which it always is.
- The shipped margin percentages are not ordered
  (`MarginOrdering.ShippedParametersAreNotOrdered`), so an order's margin need not cover the
  position it opens.
- Pro rata redemption bounds what all redeemers get together, not each of them
  (`VaultScenarios.LaterRedeemerBeatsTheStart`); `VaultFairness.BeatsTheStartIff` states when
  one of them gets more, and `VaultFairness.GainIsOthersShortfall` at whose cost.
- A withdrawal is documented to pay vault balance over supply. The code pays the floored share
  of the equity. `VaultPrice.WithdrawalPriceIff` states exactly when the two agree and which way
  they differ otherwise; `VaultScenarios.PartialExitRun` is a run that is first above the
  documented price and then at zero, as `VaultPrice.PartialExitCollapsesThePrice` proves for
  first deposits in general.
- So a deposit and its withdrawal need not cancel out: `VaultPrice.RoundTripGainsIff` states when
  they gain, `VaultScenarios.RoundTripRun` at whose cost.

## Model

| member | source | states |
|---|---|---|
| VaultProgram.Ledger.DepositVault | vault/programs/vault/src/lib.rs:169-271 | a deposit's transfer, mint and three Jet moves either all happen, with the stated net effect and exactly when every step is possible, or nothing changes; phase and balance errors come first |
| VaultProgram.Ledger.MoveDeposit | vault/programs/vault/src/lib.rs:190-270 | the individual checks of the moves, in order, amount to the single acceptance condition |
| VaultProgram.Ledger.WithdrawVault | vault/programs/vault/src/lib.rs:273-401 | the same for a withdrawal: repay, free collateral, burn, pay out, close an emptied account |
| VaultProgram.Ledger.MoveWithdrawal | vault/programs/vault/src/lib.rs:299-399 | the individual checks of the moves, in order, amount to the single acceptance condition |
| VaultProgram.Ledger.InitializeVault | vault/programs/vault/src/lib.rs:33-159 | a vault is created once, for an accepted schedule and a name of at most 20 bytes, and records the padded name |
| VaultProgram.Ledger.InitializeUserRedeemableTokenAccount | vault/programs/vault/src/lib.rs:161-167 | an empty token account is opened only in the deposit window and under matching addresses |
| VaultEffects.DepositEffect | vault/programs/vault/src/lib.rs:182-270 | what an accepted deposit that does not wrap adds to and takes from each account |
| VaultEffects.WithdrawalEffect | vault/programs/vault/src/lib.rs:294-396 | what an accepted withdrawal adds to and takes from each account; the repayment is the lesser of loan and payout |
| VaultEffects.JetDecides | vault/programs/vault/src/lib.rs:222-359 | a refused Jet call refuses the deposit, withdrawal or creation that makes it, and nothing changes |
| VaultEffects.InitializeIff | vault/programs/vault/src/lib.rs:33-159 | when a vault is created, and that its record holds the name as given, the schedule and the padded name |
| VaultEffects.UntrimmedNameIsDead | vault/programs/vault/src/lib.rs:33-159 | creating a vault under an untrimmed name is accepted and no run after it moves anything |
| VaultEffects.OpensIff | vault/programs/vault/src/lib.rs:161-167 | exactly when a token account is opened, in terms of clock, name and user, and that it is empty |
| VaultProgram.Ledger.PayIn | vault/programs/vault/src/context.rs:328-336 | user to vault: debit and credit checked, both or neither |
| VaultProgram.Ledger.MintTo | vault/programs/vault/src/context.rs:338-349 | tokens to the user and to the supply alike |
| VaultProgram.Ledger.Burn | vault/programs/vault/src/context.rs:353-364 | tokens off the user and off the supply alike |
| VaultProgram.Ledger.PayOut | vault/programs/vault/src/context.rs:366-377 | vault to user: debit and credit checked, both or neither |
| VaultProgram.Ledger.CloseIfEmpty | vault/programs/vault/src/lib.rs:394-398 | an emptied token account is gone |
| VaultProgram.Ledger.JetDeposit | vault/programs/vault/src/lib.rs:222-238 | vault USDC into the reserve for deposit notes |
| VaultProgram.Ledger.JetDepositCollateral | vault/programs/vault/src/lib.rs:240-253 | deposit notes into collateral |
| VaultProgram.Ledger.JetBorrow | vault/programs/vault/src/lib.rs:255-270 | reserve USDC into the vault for loan notes |
| VaultProgram.Ledger.JetRepay | vault/programs/vault/src/lib.rs:324-341 | vault USDC into the reserve against loan notes |
| VaultProgram.Ledger.JetWithdrawCollateral | vault/programs/vault/src/lib.rs:343-359 | collateral back into deposit notes |
| VaultProgram.Ledger.Convert | vault/programs/vault/src/lib.rs:182-193 | the u128 product of the conversion never overflows; the quotient is rounded down, is the charge before the cast, and is the amount itself where there is no supply |
| VaultProgram.Ledger.Price | vault/programs/vault/src/lib.rs:294-297 | equity, rate and payout in the program's order of wrapping operations |
| VaultConservation.RunConserves | vault/programs/vault/src/lib.rs:182-270 | over every run, all USDC, the pool less the notes it owes, and supply less balances are constant |
| VaultConservation.GenesisConservation | vault/programs/vault/src/lib.rs:182-392 | from genesis: supply is the sum of balances, the pool's gain is collateral plus deposit notes less loan, net worth is what users paid in net |
| VaultConservation.NetWorthFollowsTransfers | vault/programs/vault/src/lib.rs:182-392 | a deposit raises net worth by exactly what the user pays, a withdrawal lowers it by exactly what the user is sent, nothing else moves it |
| VaultConservation.DepositNotesNeverLeave | vault/programs/vault/src/lib.rs:343-381 | notes freed by withdrawals stay in the deposit account in every run, as the call that would redeem them is commented out |
| VaultLeverage.DepositLeverageIff | vault/programs/vault/src/lib.rs:237-270 | a deposit's loan is covered by its collateral, and within 9:5 up to 4 units, iff amount times 90 does not wrap |
| VaultLeverage.DepositLeverageBothWays | vault/programs/vault/src/lib.rs:237-270 | a non-wrapping deposit is within the allowance of 9:5 on both sides |
| VaultLeverage.LeverageBound | vault/programs/vault/src/lib.rs:237-359 | in every run whose accepted deposits do not wrap, 9 times the loan plus 4 times the freed deposit notes is 5 times the collateral, give or take 4 per accepted deposit |
| VaultLeverage.WrappedRunIsStretched | vault/programs/vault/src/lib.rs:237-359 | in every run from genesis with a wrapped deposit, that excess over 5 times the collateral is above 9*10^17 less 4 per accepted deposit |
| VaultLeverage.LeverageBoundIff | vault/programs/vault/src/lib.rs:237-359 | over fewer than 10^17 accepted deposits the upper bound holds iff none of them wraps |
| VaultLeverage.AllowanceIsTight | vault/programs/vault/src/lib.rs:237-270 | the allowance of 4 is met by a deposit of 2 units |
| VaultLeverage.RunKeepsSolvent | vault/programs/vault/src/lib.rs:169-401 | loan within collateral, tokens all held, notes backed, in every state that a run without wrapping deposits reaches |
| VaultLeverage.SmallCirculationNeverWraps | vault/programs/vault/src/lib.rs:173-253 | where all USDC times 90 fits 64 bits no run wraps the collateral product |
| VaultLeverage.SmallWorldIsSafe | vault/programs/vault/src/lib.rs:169-401 | in such a world every run from genesis is solvent and within the leverage bound, and users together never get out more than they put in |
| VaultLeverage.PayoutIsExact | vault/programs/vault/src/lib.rs:294-297 | the wrapping equity and payout are the exact ones; the payout is within the equity and within pro rata, and less than one unit per token below it |
| VaultLeverage.FlooredShare | vault/programs/vault/src/lib.rs:295-297 | tokens at the floored rate are worth at most pro rata and less than one unit a token below it |
| VaultLeverage.WithdrawSucceedsIff | vault/programs/vault/src/lib.rs:280-399 | a withdrawal succeeds iff the vault holds the payout plus min(loan, payout); the clamp to the vault balance then never binds and collateral suffices |
| VaultLeverage.DepositSucceedsIff | vault/programs/vault/src/lib.rs:173-270 | the five remaining conditions under which a deposit succeeds in a solvent state |
| VaultLeverage.FirstDepositPricesAtOne | vault/programs/vault/src/lib.rs:181-203 | the first depositor pays the amount, and equity equals supply |
| VaultLeverage.FullExitAfterFirstDepositIff | vault/programs/vault/src/lib.rs:294-392 | redeeming all of a first deposit at once, wrapped or not, succeeds iff it was one unit |
| VaultScenarios.WrappedDepositIsUncovered | vault/programs/vault/src/lib.rs:173-270 | a run from genesis whose first deposit of 2^58 is accepted, wraps, and borrows more than it posts |
| VaultPrice.DocumentedPriceIff | vault/programs/vault/src/lib.rs:178-203 | for every amount, when the price paid is vault balance over supply, in which direction it is off otherwise, how the conversion is rounded, and what the cast to 64 bits makes of it |
| VaultEffects.ChargeIsFloored | vault/programs/vault/src/lib.rs:182-193 | the charge is amount times supply over vault balance rounded down, less a multiple of 2^64 that is zero if it fits |
| VaultScenarios.SecondDepositOverpays | vault/programs/vault/src/lib.rs:182-203 | a run from genesis after which a second deposit of 3, documented at 1.8, costs 5 |
| VaultPrice.WithdrawalPriceIff | vault/programs/vault/src/lib.rs:284-297 | the payout is at vault balance over supply iff the balance is whole units per token and the collateral beyond the loan is less than one; and when it is above or below |
| VaultPrice.EquityPriceIff | vault/programs/vault/src/lib.rs:294-297 | the share of the equity is paid in full iff the equity is whole units per token |
| VaultPrice.RoundTripGainsIff | vault/programs/vault/src/lib.rs:182-203 | tokens bought can be redeemed at once for more than they cost iff the floored price after the deposit exceeds the floored price paid; and only if they were sold below their equity |
| VaultScenarios.RoundTripRun | vault/programs/vault/src/lib.rs:169-401 | a run from genesis in which a user buys 2 tokens for 1, redeems them for 2, and leaves another's last token worthless |
| VaultPrice.PayoutIsZeroIff | vault/programs/vault/src/lib.rs:295-297 | tokens are redeemed for nothing iff the equity is below the supply |
| VaultPrice.PartialExitCollapsesThePrice | vault/programs/vault/src/lib.rs:294-392 | after any first deposit that does not wrap, any withdrawal of a part of it leaves equity below supply, so every later token is redeemed for nothing |
| VaultScenarios.PartialExitRun | vault/programs/vault/src/lib.rs:294-392 | a run from genesis in which redeeming 1 of 10 tokens is accepted and pays 1 where 0.6 is documented, and the other 9 are then worth nothing |
| VaultPrice.PartialExitAtOne | vault/programs/vault/src/lib.rs:294-392 | the same from any state with a loan and a price of one |
| VaultPrice.NothingPaidWhileCollapsed | vault/programs/vault/src/lib.rs:294-392 | over any run without deposits that ends with more tokens than equity nobody is paid and the equity stays |
| VaultPrice.PriceReturnsIff | vault/programs/vault/src/lib.rs:294-392 | without deposits the price comes back iff the excess of supply over equity has been burned for nothing |
| VaultPrice.DepositRestoresThePriceIff | vault/programs/vault/src/lib.rs:182-203 | a deposit brings the price back iff what it pays covers what is missing |
| VaultFairness.ShareOfRemainder | vault/programs/vault/src/lib.rs:294-297 | another floored share of what is left keeps the total within the starting pro rata |
| VaultFairness.WithdrawalLowersEquity | vault/programs/vault/src/lib.rs:294-392 | a withdrawal takes payout and freed collateral out of the equity |
| VaultFairness.RedeemersShareProRata | vault/programs/vault/src/lib.rs:273-401 | over any run without deposits, total paid times starting supply is at most starting equity times total burned |
| VaultFairness.GainIsOthersShortfall | vault/programs/vault/src/lib.rs:294-297 | what a later redeemer gains over the starting price is at most what the redeemers before fell short of pro rata, so none gains while that is nothing |
| VaultFairness.BeatsTheStartIff | vault/programs/vault/src/lib.rs:295-297 | a later redeemer beats the starting price iff the floored rate has risen above the starting floored rate |
| VaultScenarios.LaterRedeemerBeatsTheStart | vault/programs/vault/src/lib.rs:294-297 | a run from genesis after which the second of two redeemers gets 2 for a token worth 3/2 at the start |
| VaultLifecycle.RunKeepsRecord | vault/programs/vault/src/context.rs:268-280 | the vault's record, once made, is sound and never changes, and the clock never runs back |
| VaultLifecycle.AddressableIff | vault/programs/vault/src/context.rs:124-153 | later instructions derive the vault's own addresses iff its name is trimmed |
| VaultLifecycle.UntrimmedVaultIsDead | vault/programs/vault/src/context.rs:11-42 | nothing ever moves in a vault created under an untrimmed name |
| VaultLifecycle.HoldingsMoveInWindowOnly | vault/programs/vault/src/lib.rs:494-505 | a step that changes any balance runs after start_epoch and not after end_deposits |
| VaultLifecycle.FrozenAfterDeposits | vault/programs/vault/src/lib.rs:494-505 | after end_deposits every balance is frozen for the rest of the run |
| VaultLifecycle.UntouchedBeforeStart | vault/programs/vault/src/lib.rs:494-505 | no balance moves up to and including start_epoch |
| VaultLifecycle.VaultStartsInTheFuture | vault/programs/vault/src/lib.rs:472-476 | a vault is created before its epoch starts, with a sound record |
| Epochs.AcceptedSchedules | vault/programs/vault/src/lib.rs:472-492 | the accepted schedules over unbounded integers, which error refuses each of the others, and that the subtraction cannot trip for a nonnegative clock |
| Epochs.PhaseIs | vault/programs/vault/src/lib.rs:494-505 | the deposit and withdrawal window, and the error on either side of it |
| Names.AsciiWhitespaceIs | vault/programs/vault/src/lib.rs:514-523 | the five bytes that strip cuts |
| Names.Pad | vault/programs/vault/src/lib.rs:44-49 | twenty bytes: the name, then blanks |
| Names.PadName | vault/programs/vault/src/lib.rs:44-49 | the buffer holds the name followed by blanks |
| Names.StripCuts | vault/programs/vault/src/lib.rs:514-523 | strip cuts whitespace only, and all of it |
| Names.StripIsTheTrimmedCore | vault/programs/vault/src/lib.rs:507-523 | any trimmed slice with only whitespace around it is the result of strip |
| Names.StripIdempotent | vault/programs/vault/src/lib.rs:514-523 | stripping twice is stripping once |
| Names.StripPadRoundTrip | vault/programs/vault/src/lib.rs:45-49 | the stored name strips back to the name iff the name was trimmed |
| Names.TrimmedNamesStoreApart | vault/programs/vault/src/lib.rs:45-49 | distinct trimmed names are stored as distinct bytes |
| MarginPerLot.LotMarginRefines | zeta-cpi/programs/zeta-cpi/src/zeta_utils.rs:50-195 | for every input, whether the checked per-lot computation ends in a value, an error or a panic, and that the value is the unbounded one |
| MarginPerLot.ShortMarginIsExact | zeta-cpi/programs/zeta-cpi/src/zeta_utils.rs:77-100 | the chain of checked operations of a short option fails only at spot zero |
| MarginMeaning.FuturePerLot | zeta-cpi/programs/zeta-cpi/src/zeta_utils.rs:50-195 | a future costs its initial or maintenance percentage of spot on either side |
| MarginMeaning.LongOptionPerLot | zeta-cpi/programs/zeta-cpi/src/zeta_utils.rs:50-195 | a long option costs the lesser of its spot percentage of spot and its mark percentage of mark, initial and maintenance |
| MarginMeaning.ShortCallPerLot | zeta-cpi/programs/zeta-cpi/src/zeta_utils.rs:31-195 | a short call costs its dynamic percentage less what strike is above spot, or its spot percentage if greater, initial and maintenance |
| MarginMeaning.ShortPutPerLot | zeta-cpi/programs/zeta-cpi/src/zeta_utils.rs:31-195 | the same for a short put by what spot is above strike, capped by a percentage of strike |
| MarginMeaning.RefusedPerLot | zeta-cpi/programs/zeta-cpi/src/zeta_utils.rs:50-195 | which kinds and sides have no margin, and whether that is an error or a panic |
| MarginMeaning.ShippedLots | zeta-cpi/programs/zeta-cpi/src/zeta_constants.rs:66-80 | five margins under the shipped percentages, in numbers |
| MarginBounds.ShortMarginRounding | zeta-cpi/programs/zeta-cpi/src/zeta_utils.rs:77-100 | two divisions against one: never less, and more by at most the allowance |
| MarginBounds.LotMarginRounding | zeta-cpi/programs/zeta-cpi/src/zeta_utils.rs:156-191 | the same for calls, and for puts after the cap |
| MarginBounds.RoundingAllowanceIsMet | zeta-cpi/programs/zeta-cpi/src/zeta_utils.rs:77-100 | at every spot one above a multiple of 10^8 the allowance is met exactly |
| MarginBounds.LotMarginBelowPrices | zeta-cpi/programs/zeta-cpi/src/zeta_utils.rs:58-116 | no per-lot margin exceeds spot; long options stay within mark, short puts within strike |
| MarginBounds.LotMarginGrowsWithSpot | zeta-cpi/programs/zeta-cpi/src/zeta_utils.rs:128-195 | everything but short puts costs more at a higher spot, through both nested divisions |
| ShortPuts.NeverFallsIff | zeta-cpi/programs/zeta-cpi/src/zeta_utils.rs:156-191 | with a cap of at most 100%, the margin of a short put never falls as spot rises iff its percentages are flat in the stated sense |
| ShortPuts.FlatNeverFalls | zeta-cpi/programs/zeta-cpi/src/zeta_utils.rs:156-191 | with such a cap and flat percentages it never falls at prices of any size |
| ShortPuts.SteepFalls | zeta-cpi/programs/zeta-cpi/src/zeta_utils.rs:156-191 | with such a cap and any other percentages, a strike and a higher spot at which it costs less |
| MarginBounds.LotMarginAgainstStrike | zeta-cpi/programs/zeta-cpi/src/zeta_utils.rs:31-47 | a higher strike makes short calls cheaper and capped short puts dearer |
| MarginOrdering.CoversIff | zeta-cpi/programs/zeta-cpi/src/zeta_utils.rs:50-195 | initial margin covers maintenance margin at all prices iff the percentages, whatever they are, are ordered as stated; up to 100% the u64 prices decide it |
| MarginOrdering.OrderedRatesCoverAt | zeta-cpi/programs/zeta-cpi/src/zeta_utils.rs:50-195 | ordered percentages cover at every price, of any magnitude |
| MarginOrdering.FieldwiseIsOrdered | zeta-cpi/programs/zeta-cpi/src/zeta_account.rs:146-163 | each initial percentage at least its maintenance counterpart is enough |
| MarginOrdering.UncoveredPrices | zeta-cpi/programs/zeta-cpi/src/zeta_utils.rs:50-195 | prices, kind and side that show a missing order |
| MarginOrdering.ShippedParametersAreNotOrdered | zeta-cpi/programs/zeta-cpi/src/zeta_constants.rs:66-80 | the shipped percentages are not ordered, with the margins of a call that shows it |
| MarginCheck.InitialMarginRefines | zeta-cpi/programs/zeta-cpi/src/zeta_account.rs:347-402 | a line's initial margin comes out iff it can be computed, and then exact |
| MarginCheck.MaintenanceMarginRefines | zeta-cpi/programs/zeta-cpi/src/zeta_account.rs:404-438 | the same for maintenance margin, including the position whose absolute value wraps |
| MarginCheck.PnlRefines | zeta-cpi/programs/zeta-cpi/src/zeta_account.rs:440-464 | profit comes out iff it fits i64, and then exact |
| MarginMeaning.InitialMarginIs | zeta-cpi/programs/zeta-cpi/src/zeta_account.rs:347-402 | bids at the margin of a bid and asks at the margin of an ask, together, in thousandths; a side without orders is not priced |
| MarginMeaning.SidesAddUp | zeta-cpi/programs/zeta-cpi/src/zeta_account.rs:347-402 | the two sides are charged in full side by side, up to one unit of rounding |
| MarginMeaning.MaintenanceMarginIs | zeta-cpi/programs/zeta-cpi/src/zeta_account.rs:404-438 | a position at the margin of its side, in thousandths, and when it panics instead |
| MarginMeaning.UnrealizedPnlIs | zeta-cpi/programs/zeta-cpi/src/zeta_account.rs:440-464 | value less cost for a long position, value plus proceeds for a short one, truncated toward zero |
| MarginCheck.SumU64Is | zeta-cpi/programs/zeta-cpi/src/zeta_account.rs:489-536 | the sum over markets is the exact sum, wrapped, iff every term comes out |
| MarginCheck.SumI64Is | zeta-cpi/programs/zeta-cpi/src/zeta_account.rs:549-557 | the same for the signed sum of profits |
| MarginCheck.InitialTotalIs | zeta-cpi/programs/zeta-cpi/src/zeta_account.rs:489-509 | an account's initial margin is the exact total, wrapped, iff every line comes out |
| MarginCheck.MaintenanceTotalIs | zeta-cpi/programs/zeta-cpi/src/zeta_account.rs:511-536 | the same for its maintenance margin |
| MarginCheck.PnlTotalIs | zeta-cpi/programs/zeta-cpi/src/zeta_account.rs:549-557 | the same for its profit |
| MarginCheck.CheckIs | zeta-cpi/programs/zeta-cpi/src/zeta_account.rs:538-584 | for every account, when the margin check answers and what, wrapped sums included |
| MarginCheck.CheckRefines | zeta-cpi/programs/zeta-cpi/src/zeta_account.rs:559-584 | for every account, the check says whether the account is funded iff it answers and the buffer's sign survives in 64 bits; every answer is the sign of the buffer's word, and right if the buffer fits i64 |
| MarginCheck.AnsweredWord | zeta-cpi/programs/zeta-cpi/src/zeta_account.rs:559-584 | whichever sums wrapped, what an answered check compares with zero is the exact buffer as a word |
| MarginCheck.CheckWithoutWrap | zeta-cpi/programs/zeta-cpi/src/zeta_account.rs:559-584 | where no sum wraps, the check answers iff all terms and the funds fit, and then correctly |
| MarginCheck.BoundedExposureChecks | zeta-cpi/programs/zeta-cpi/src/zeta_account.rs:347-584 | under a bound on exposure and balance nothing fails or wraps, and the account passes iff balance plus profit exceeds both margins |
| MarginMeaning.EmptyAccount | zeta-cpi/programs/zeta-cpi/src/zeta_account.rs:538-584 | without positions and orders the buffer is the balance |
| MarginMeaning.MarketsAreSeparate | zeta-cpi/programs/zeta-cpi/src/zeta_account.rs:489-557 | a change of position, mark or product in one market moves the buffer by what that market contributes and nothing else |
| MarginMeaning.OnlyMarket | zeta-cpi/programs/zeta-cpi/src/zeta_account.rs:489-584 | an account active in one market has that position at that mark under that product |
| MarginWrap.WrappedSumPasses | zeta-cpi/programs/zeta-cpi/src/zeta_account.rs:489-509 | an account over the program's 46 markets whose margin total wraps to nothing, so that it passes although short |
| MarginLaws.AggregationLoss | zeta-cpi/programs/zeta-cpi/src/zeta_account.rs:489-536 | rounding per market loses less than one unit a market against rounding once |
| MarginLaws.InitialBelowOpeningAtSpot | zeta-cpi/programs/zeta-cpi/src/zeta_account.rs:489-509 | an account's initial margin is at most its opening orders at spot |
| MarginLaws.MoreOrdersMoreMargin | zeta-cpi/programs/zeta-cpi/src/zeta_account.rs:354-401 | initial margin is monotone in opening orders, market by market |
| MarginLaws.MaintenanceGrowsWithSpot | zeta-cpi/programs/zeta-cpi/src/zeta_account.rs:511-536 | with marks fixed, maintenance margin without short puts grows with spot |
| MarginLaws.OrdersCoverPositions | zeta-cpi/programs/zeta-cpi/src/zeta_account.rs:347-438 | with ordered percentages, the margin of an account's orders covers any positions they open |
| MarginLaws.OrdersCoverIff | zeta-cpi/programs/zeta-cpi/src/zeta_account.rs:347-438 | with percentages up to 100%, orders cover whatever positions they open, in every account and at every spot, iff the percentages are ordered |
| MarginLaws.UncoveredOrder | zeta-cpi/programs/zeta-cpi/src/zeta_account.rs:347-438 | with percentages up to 100% in any other order, one lot ordered that does not cover the position it opens |
| MarginLaws.PnlIsZeroSum | zeta-cpi/programs/zeta-cpi/src/zeta_account.rs:549-557 | opposite accounts have exactly opposite profit |
| MarginLaws.CheckedPnlIsZeroSum | zeta-cpi/programs/zeta-cpi/src/zeta_account.rs:549-557 | the wrapped machine totals cancel too |
| MarginLaws.MarketPnl | zeta-cpi/programs/zeta-cpi/src/zeta_account.rs:440-464 | profits in one market add up to net position at mark less net cost, up to 999 thousandths an account |
| MarginLaws.ClosedMarketPnl | zeta-cpi/programs/zeta-cpi/src/zeta_account.rs:440-464 | in a market that nets out, n accounts' profits miss zero by less than n units |
| MarketLayout.LayoutIsBijective | zeta-cpi/programs/zeta-cpi/src/zeta_utils.rs:230-236 | series and product correspond one to one to market indices, inverted by the expiry lookup |
| MarketLayout.LayoutNumbers | zeta-cpi/programs/zeta-cpi/src/zeta_utils.rs:230-236 | two series of 23 products, 46 markets, in numbers |
| MarketLayout.SlicesPartition | zeta-cpi/programs/zeta-cpi/src/zeta_account.rs:173-176 | the slices partition the product array and agree with the index formula |
| MarketLayout.SearchFinds | zeta-cpi/programs/zeta-cpi/src/zeta_account.rs:190-199 | on sorted keys the search finds each key at its place |
| MarketLayout.LookupsAgree | zeta-cpi/programs/zeta-cpi/src/zeta_account.rs:178-209 | all three lookups find every product and agree, and find nothing else |

## Left out

- Jet's internals: interest, note exchange rates, prices and collateral ratio; the reserve's other users.
- Account validation, signer seeds, rent, lamport transfers, logging; only the direction of each token move is kept.
- Account data that no modelled function reads: bumps, mints, closing orders, greeks, halt state, series status.
- `get_native_oracle_price`, which scales an oracle price by a power of ten to six decimals: spot is a parameter here.
- `vault/programs/vault/src/utils.rs` is unused, and no instruction rolls an epoch over.
- The binary search of Rust's standard library is modelled as a recursion that halves the range; its own code is not part of this model.
- ShortPuts.NeverFallsIff: assumes a cap of at most 100%; above that the cap no longer hides the rounding of the margin under it.
- MarginLaws.PnlIsZeroSum: the least i64 position has no opposite and is not covered.
