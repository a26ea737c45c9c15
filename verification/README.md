# The marginfi lending core in Dafny

A model of the lending protocol under `marginfi-v2`, with proofs about every run of it.

| module | what it models |
|---|---|
| `FixedPoint` | I80F48 numbers as their integer bits: floored products, truncated quotients, overflow as None |
| `InterestCurve`, `InterestRate` | the seven-point rate curve, its validation, the split into rates and fees, one accrual |
| `BankLedger`, `BankProperties`, `InterestExample` | a bank's shares, share values, fees and limits |
| `BankAccount` | a user's balance in a bank and the operations on both |
| `LendingLedger` | a bank with all its users and vaults, moved by the instructions |
| `Conservation`, `FuzzerTolerance` | what every run keeps between the vault and the books |
| `Positions`, `Guards` | what each instruction does to whom, and when it refuses |
| `ShareValues`, `DepositLimits`, `CapacityExample` | who moves the share values; deposits up to the limit |
| `Emode`, `EmodeProperties`, `EmodeValidation` | merging e-mode configurations, twice implemented, and the leverage validation |
| `DailyWindow`, `PanicPause`, `Group` | counters with a daily reset: emergency pauses, the cached pause, the deleverage withdrawal limit |
| `Drift`, `Price` | share conversions of integrated venues |
| `TransactionShape` | the checks on the instructions around a liquidation |

What the source updates in place is a class whose methods are proved equal to functions on
values (`State()`, `Window()`); loops in the source are loops here. The theorems are about
those functions. An instruction that returns an error reverts, so in runs it leaves the state
unchanged; the methods show what a rejected call leaves behind before that.

## The main results

- **Vault and books.** The fuzz harness asserts that the vault less outstanding fees equals
  deposits less debts within one token. `VaultMatchesBooks` proves what the difference is for
  every run of the instructions, liquidations and bankruptcies included, in units of 2^-96
  tokens: the sum of the steps' excesses, known before each call, up to explicit rounding.
  An excess is nonzero only for an amount put into a bank whose shares are worthless, an
  origination fee cut off by saturation (`FeeIsLostExactly`), and a bankruptcy, where
  insurance pays whole tokens and a loss beyond all deposits is paid by nobody. The rounding
  is at most one share ulp on each side for an operation on a balance, and for an accrual one ulp per token of debt, one per
  liability share, and the lending rate of the period in ulps of ulps against the vault. The
  one-token tolerance holds while the sum is below a token (`WithinOneToken`) and fails once
  the excesses pass it (`BeyondOneToken`), as two bankruptcies can make them
  (`BankruptciesExceedTolerance`); the harness follows liquidations with bankruptcies
  (`marginfi-v2/programs/marginfi/fuzz/src/lib.rs:905`).
- **Users.** Every instruction leaves the balances it does not name alone, and moves those it
  names by what the vaults move; the bank's totals are the sums of the balances and the dust
  of closed ones (`StepSettles`, `TotalsAreSums`).
- **Interest.** Validated curves are total, monotone, exact at their points and within 11
  ulps of the exact polyline; one accrual conserves value between borrowers, lenders and fees.
- **E-mode.** Reconciliation is the meet: order, multiplicity and grouping do not matter, both
  implementations agree, and what validation guaranteed of the inputs holds of the result.
- **Pauses and windows.** A daily limit means at most twice that in any 24 hours. For pauses it
  means five, since each day's count is opened by a pause, and the protocol is never paused
  for more than two and a half hours without a break, not even through caches that outlive an
  unpause; both are met on any day. In the first days of the epoch, where the initial reset
  timestamp of zero still counts, the bounds are six and three hours.

## Where the code, its comments and its promises differ

- `lerp` returns None for a target outside the segment
  (`marginfi-v2/programs/marginfi/src/state/interest_rate.rs:304-339`); its comment promises
  an end value. The model follows the code (`LerpFailsExactly`).
- `marginfi-v2/README.md:380` allows two pauses a day, the code three
  (`marginfi-v2/type-crate/src/types/panic_state_cache.rs:82`), and five in 24 hours around a reset.
- A curve point at u32::MAX with a lower rate shadows the hundred rate (`ValidCurveAtOne`,
  `HundredRateCanBeShadowed`).
- The deposit capacity is an error, not zero, when the gap is under a token (`CapacityIsExact`).
  It can exceed what the share count can hold (`CapacityIsAccepted`), and is read before the
  accrual that takes up part of it (`UpToLimitFailsExactly`, `UpToLimitIsRejected`).
- A Drift withdrawal below one scaled unit burns nothing (`DecrementCoversAmount`,
  `TinyWithdrawalIsFree`); with nine decimals any accrued interest makes such withdrawals
  possible (`NoRunCreatesValueExactly`).
- A daily limit of u32::MAX limits nothing, as zero does (`EnforcedExactlyInBetween`), and
  amounts of 2^32 dollars or more wrap and escape every limit (`WrappedAmountEscapes`).
- A tag repeated within one configuration breaks the meet (`RepeatedTagsBreakTheMeet`, `MeetHoldsExactly`);
  validation of sorted entries excludes such configurations (`SortedNeighboursMeanNoRepeats`).

## Model

| member | source | states |
|---|---|---|
| `InterestCurve.ValidateSevenPoint` | marginfi-v2/programs/marginfi/src/state/interest_rate.rs:84-140 | accepts exactly the curves with some number of points in use, strictly ascending in utilization and non-decreasing in rate between the end rates, then zero padding; every other curve is InvalidConfig |
| `InterestCurve.InterestRateMultipointCurve` | marginfi-v2/programs/marginfi/src/state/interest_rate.rs:270-302 | the loop over the points computes the recursive curve below, for any utilization and any points |
| `InterestCurve.LerpOnSegment` | marginfi-v2/programs/marginfi/src/state/interest_rate.rs:304-339 | inside a rising segment the interpolation answers, lies between the two rates, meets both ends exactly, and is within a stated distance of the line |
| `InterestCurve.ValidCurveIsTotal` | marginfi-v2/programs/marginfi/src/state/interest_rate.rs:270-302 | a validated curve answers at every utilization, between its zero and hundred rates |
| `InterestCurve.ValidCurveIsMonotone` | marginfi-v2/programs/marginfi/src/state/interest_rate.rs:270-302 | on a validated curve more utilization never means a lower rate, across all segments and outside the unit interval |
| `InterestCurve.ValidCurveAtZero` | marginfi-v2/programs/marginfi/src/state/interest_rate.rs:270-290 | at or below zero utilization the rate is the zero rate |
| `InterestCurve.ValidCurveAtPoint` | marginfi-v2/programs/marginfi/src/state/interest_rate.rs:270-302 | at the utilization of any point in use the rate is exactly that point's |
| `InterestCurve.ValidCurveAtOne` | marginfi-v2/programs/marginfi/src/state/interest_rate.rs:270-302 | at full utilization the rate is the hundred rate if and only if no point sits at u32::MAX with a lower rate |
| `InterestCurve.ValidCurveIsAccurate` | marginfi-v2/programs/marginfi/src/state/interest_rate.rs:270-349 | every utilization lies on a segment of the exact rational polyline through the converted points, and on each such segment the computed rate is never above the line and less than 11 ulps below it |
| `InterestCurve.HundredRateCanBeShadowed` | marginfi-v2/programs/marginfi/src/state/interest_rate.rs:270-302 | a curve that validates, with a hundred rate of 1000%, whose rate at full utilization is zero |
| `InterestCurve.LerpFailsExactly` | marginfi-v2/programs/marginfi/src/state/interest_rate.rs:304-339 | between two points the interpolation answers None if and only if the target is outside them or the rate falls |
| `InterestRate.BorrowersPayBaseAndFees` | marginfi-v2/programs/marginfi/src/state/interest_rate.rs:196-245 | the borrowing rate is the base rate plus the three fee rates and at most 2 ulps; the lending rate is the base rate scaled by utilization; none is negative |
| `InterestRate.EachFeeIsItsOwn` | marginfi-v2/programs/marginfi/src/state/interest_rate.rs:196-245 | each of the three fee rates is its own floored share of the base rate and its own fixed rate; the program's only where it is enabled |
| `InterestRate.LendersNeverOutpaceBorrowers` | marginfi-v2/programs/marginfi/src/state/interest_rate.rs:196-245 | up to full utilization, lenders' growth over any period is at most borrowers' |
| `InterestRate.AccruedValue` | marginfi-v2/programs/marginfi/src/state/interest_rate.rs:393-405 | a period's growth of a share value through the chain of checked operations is one floored rate for the period and one floored product |
| `InterestRate.InterestPayment` | marginfi-v2/programs/marginfi/src/state/interest_rate.rs:409-420 | a fee payment through the chain of checked operations is the floored yearly fee times the time, floored over the year |
| `InterestRate.AccrualConservesValue` | marginfi-v2/programs/marginfi/src/state/interest_rate.rs:393-503 | one accrual: growth of all debt equals growth of all deposits plus the three fees collected, up to the bounds AccrualShortfall and AccrualSurplus, linear in shares and amounts plus an elapsed-years factor |
| `BankLedger.Bank.ChangeAssetShares` | marginfi-v2/programs/marginfi/src/state/bank.rs:248-279 | the whole new state and every error of the share change with its deposit limit, plain or scaled for Drift |
| `BankLedger.Bank.ChangeLiabilityShares` | marginfi-v2/programs/marginfi/src/state/bank.rs:322-347 | the whole new state and every error of the debt change with its borrow limit |
| `Guards.DebtRejectedExactly` | marginfi-v2/programs/marginfi/src/state/bank.rs:322-347 | debt shares added without bypass fail on an active borrow limit if and only if they can be counted and all debt would reach it |
| `Guards.LimitsDoNotApply` | marginfi-v2/programs/marginfi/src/state/bank.rs:248-347 | with bypass, without an active limit, or when shares are burnt, a change fails only on overflow |
| `Guards.IncreaseWithinLimit` | marginfi-v2/programs/marginfi/src/state/marginfi_account.rs:1162-1246 | an increase of any kind but the bypassing one leaves deposits below an active limit where it adds shares |
| `Guards.UtilizationRefused` | marginfi-v2/programs/marginfi/src/state/bank.rs:349-361 | utilization is refused if and only if debts exceed deposits, and never where the borrow limit is bypassed |
| `BankLedger.Bank.AccrueInterest` | marginfi-v2/programs/marginfi/src/state/bank.rs:447-566 | the in-place accrual equals the accrual function: same timestamp handling, early exits, share values, fee totals and errors |
| `BankLedger.Bank.SocializeLoss` | marginfi-v2/programs/marginfi/src/state/bank.rs:727-755 | the in-place loss equals the loss function, including the flag that the bank is dead |
| `BankProperties.CapacityIsExact` | marginfi-v2/programs/marginfi/src/state/bank.rs:218-246 | with an active limit the capacity is the whole part of the gap less one, and the source errs if and only if the gap is under one token or the answer is not a 64-bit number |
| `BankProperties.CapacityOtherwise` | marginfi-v2/programs/marginfi/src/state/bank.rs:218-246 | without an active limit the capacity is u64::MAX, and from the limit on it is zero |
| `BankProperties.CapacityIsSafe` | marginfi-v2/programs/marginfi/src/state/bank.rs:201-279 | depositing the reported capacity leaves deposits strictly below the limit, or fails on overflow, never on the limit |
| `BankProperties.CapacityIsAccepted` | marginfi-v2/programs/marginfi/src/state/bank.rs:201-279 | for any share value: that deposit is accepted if and only if the share value is zero or the new share count fits in 128 bits |
| `BankProperties.CapacityFitsAboveOne` | marginfi-v2/programs/marginfi/src/state/bank.rs:201-279 | while a share is worth at least a token, it fits |
| `BankProperties.CapacityCanOverflow` | marginfi-v2/programs/marginfi/src/state/bank.rs:201-279 | with shares worth one ulp the deposit of the reported capacity is a MathError, even in an empty bank |
| `BankProperties.CapacityIsTight` | marginfi-v2/programs/marginfi/src/state/bank.rs:201-279 | three tokens more than the capacity are always rejected while a share is worth something and less than 2^47 tokens |
| `BankProperties.SocializeLossEffect` | marginfi-v2/programs/marginfi/src/state/bank.rs:727-755 | a loss never raises the share value; the flag is true exactly when the value becomes zero, which happens exactly when the rest is below one ulp a share; a surviving bank loses at least the loss and at most shares/2^48 + 1 ulps more |
| `BankProperties.SocializeLossFailsExactly` | marginfi-v2/programs/marginfi/src/state/bank.rs:727-755 | taking a loss fails if and only if the worth of the deposits does not fit; an empty bank takes it |
| `BankProperties.LossesAreTaken` | marginfi-v2/programs/marginfi/src/state/bank.rs:727-755 | the same over any sequence of losses: all of them taken while the bank survives, zero for good otherwise |
| `BankProperties.AccrualNeverDecreases` | marginfi-v2/programs/marginfi/src/state/bank.rs:447-566 | a successful accrual lowers no share value, fee total or timestamp, changes no shares, and leaves a zero share value at zero |
| `BankProperties.AccrualPaysInterest` | marginfi-v2/programs/marginfi/src/state/bank.rs:484-560 | a successful accrual over some time, with deposits and debts, raises each share value by its rate over the time and each fee total by its own rate on all debt |
| `BankProperties.AccrualWithoutInterest` | marginfi-v2/programs/marginfi/src/state/bank.rs:455-491 | without time, deposits or debts an accrual only moves the clock, and before the last update it fails |
| `BankProperties.RatesOfConfig` | marginfi-v2/programs/marginfi/src/state/interest_rate.rs:29-51 | the rates of an accrual come from the bank's curve at its utilization, and each fee from its own two settings of the bank or the group |
| `InterestExample.HalfLentYear` | marginfi-v2/programs/marginfi/src/state/bank.rs:447-566 | a thousand tokens deposited and half of them lent at a flat 1000%: a year later a deposited share is worth six tokens and a borrowed one eleven |
| `BankProperties.AccrualsNeverDecrease` | marginfi-v2/programs/marginfi/src/state/bank.rs:447-566 | the same over any run of accruals under any group fees |
| `BankAccount.BankAccountWrapper.IncreaseBalance` | marginfi-v2/programs/marginfi/src/state/marginfi_account.rs:1162-1246 | the in-place increase of bank and balance equals the function on both: repay first, deposit the rest, the type checks in order |
| `BankAccount.BankAccountWrapper.DecreaseBalance` | marginfi-v2/programs/marginfi/src/state/marginfi_account.rs:1248-1332 | the in-place decrease equals its function: withdraw first, borrow the rest, then the utilization check |
| `BankAccount.BankAccountWrapper.WithdrawAll` | marginfi-v2/programs/marginfi/src/state/marginfi_account.rs:1041-1086 | the in-place full withdrawal equals its function, dust going to insurance fees |
| `BankAccount.BankAccountWrapper.RepayAll` | marginfi-v2/programs/marginfi/src/state/marginfi_account.rs:1088-1130 | the in-place full repayment equals its function, the rounding up going to insurance fees |
| `BankAccount.IncreaseEffect` | marginfi-v2/programs/marginfi/src/state/marginfi_account.rs:1162-1246 | an increase moves bank totals and balance by the same shares, keeps the balance non-negative, and adds its amount to the books, less what a bank with worthless shares swallows and at most one share ulp on each side |
| `BankAccount.DecreaseEffect` | marginfi-v2/programs/marginfi/src/state/marginfi_account.rs:1248-1332 | a decrease burns only shares the balance holds, takes its amount off the books less at most one share ulp on each side, and leaves debts covered by deposits |
| `BankAccount.WithdrawAllEffect` | marginfi-v2/programs/marginfi/src/state/marginfi_account.rs:1041-1086 | a full withdrawal takes exactly the paid tokens off the books, up to one ulp |
| `BankAccount.RepayAllEffect` | marginfi-v2/programs/marginfi/src/state/marginfi_account.rs:1088-1130 | a full repayment adds exactly the paid tokens to the books, up to one ulp |
| `Guards.WithdrawRefusedExactly` | marginfi-v2/programs/marginfi/src/state/marginfi_account.rs:1248-1332 | a withdrawal is refused if and only if it would borrow the threshold or more |
| `Guards.BorrowRefusedExactly` | marginfi-v2/programs/marginfi/src/state/marginfi_account.rs:1248-1332 | a borrow is refused if and only if it would withdraw the threshold or more |
| `Guards.RepayRefusedExactly` | marginfi-v2/programs/marginfi/src/state/marginfi_account.rs:1162-1246 | a repayment is refused if and only if it would deposit the threshold or more |
| `Guards.DepositRefusedExactly` | marginfi-v2/programs/marginfi/src/state/marginfi_account.rs:1162-1246 | a deposit is refused if and only if it would repay the threshold or more |
| `Guards.FullOperationsRefusedExactly` | marginfi-v2/programs/marginfi/src/state/marginfi_account.rs:1041-1160 | when a full withdrawal, a full repayment and the closing of a balance are refused, in terms of what it holds and owes |
| `Positions.StepSettles` | marginfi-v2/programs/marginfi/src/state/marginfi_account.rs:1041-1332 | every successful instruction leaves all balances it does not name alone, gives and takes from those it names exactly what the vaults move up to a share ulp on each side, and keeps the shares that no balance holds but for the dust of closed balances |
| `Positions.RunHolds` | marginfi-v2/programs/marginfi/src/state/marginfi_account.rs:890-906 | over every run the shares that no balance holds grow by the forgotten dust and nothing else |
| `Positions.TotalsAreSums` | marginfi-v2/programs/marginfi/src/state/bank.rs:248-347 | from a new bank the totals are the sums of the balances and that dust, and the sums exactly in runs that close no balance |
| `Positions.CollectFeesSettles` | marginfi-v2/programs/marginfi/src/instructions/marginfi_group/collect_bank_fees.rs:21-179 | each outstanding fee goes to its own vault in whole tokens, insurance before group before program, and none is left whole while the vault has more |
| `Conservation.DepositConserves` | marginfi-v2/programs/marginfi/src/instructions/marginfi_account/deposit.rs:69-117 | a deposit, capped when asked at the capacity before its accrual, moves vault and books together up to the accrual's rounding and one share ulp on each side; a bank with worthless shares keeps all of it |
| `Guards.DepositTakes` | marginfi-v2/programs/marginfi/src/instructions/marginfi_account/deposit.rs:69-79 | a deposit takes all of the amount, or up to the limit the lesser of it and the capacity before the accrual |
| `DepositLimits.RejectedExactly` | marginfi-v2/programs/marginfi/src/state/bank.rs:201-279 | a deposit fails on an active limit if and only if its shares are some and can be counted, and deposits with its amount, less what flooring loses, reach the limit |
| `DepositLimits.LostIsSmall` | marginfi-v2/programs/marginfi/src/state/bank.rs:195-208 | what flooring loses of a deposit is not negative and at most the worth of a share ulp and one ulp |
| `DepositLimits.CapacityBeforeAccrual` | marginfi-v2/programs/marginfi/src/state/bank.rs:218-279 | a whole capacity measured before an accrual fails on the limit after it if and only if deposits grew, apart from that loss, by at least one token and the fraction of the gap to the limit |
| `DepositLimits.UpToLimitFailsExactly` | marginfi-v2/programs/marginfi/src/instructions/marginfi_account/deposit.rs:69-94 | for a user without debt, the up-to-limit instruction fails on the limit if and only if its own accrual adds that much; for any number of tokens it settles on, what they leave of the gap |
| `DepositLimits.UpToLimitIsWithinLimit` | marginfi-v2/programs/marginfi/src/instructions/marginfi_account/deposit.rs:69-94 | for any user it never fails on the limit while the accrual adds less than one token and the fraction of the gap |
| `DepositLimits.UpToLimitCanFail` | marginfi-v2/programs/marginfi/src/instructions/marginfi_account/deposit.rs:69-94 | and for a user without debt depositing the whole capacity always fails once the accrual adds that and a share ulp's worth and an ulp more, with no assumption on overflow |
| `DepositLimits.DepositStaysWithinLimit` | marginfi-v2/programs/marginfi/src/instructions/marginfi_account/deposit.rs:69-117 | a deposit that adds shares leaves deposits below an active limit, interest of its own accrual included |
| `CapacityExample.UpToLimitIsRejected` | marginfi-v2/programs/marginfi/src/instructions/marginfi_account/deposit.rs:69-94 | a reachable bank with a thousand tokens lent at 1000% and a limit of 1500: an up-to-limit deposit of 499 a year later is rejected for the limit |
| `Conservation.BorrowConserves` | marginfi-v2/programs/marginfi/src/instructions/marginfi_account/borrow.rs:39-214 | a borrow moves the gap between vault and books by exactly what saturation cuts off the origination fee, a function of the fee and the totals before it, up to one share ulp on each side |
| `Guards.BorrowStaysWithinLimit` | marginfi-v2/programs/marginfi/src/instructions/marginfi_account/borrow.rs:39-214 | a borrow that adds debt leaves all debt below an active borrow limit |
| `Guards.OriginationFeeIsExact` | marginfi-v2/programs/marginfi/src/instructions/marginfi_account/borrow.rs:106-118 | the origination fee is exactly the amount times the rate, and fails if and only if that is no 128-bit number or its tokens no 64-bit one |
| `Guards.FeeIsShared` | marginfi-v2/programs/marginfi/src/instructions/marginfi_account/borrow.rs:157-185 | while both totals have room, the program gets its share of the fee and the group the rest |
| `Conservation.CollectFeesConserves` | marginfi-v2/programs/marginfi/src/instructions/marginfi_group/collect_bank_fees.rs:21-179 | collecting fees moves vault and outstanding fees by exactly the same tokens, whatever the vault holds |
| `Conservation.BankruptcyConserves` | marginfi-v2/programs/marginfi/src/instructions/marginfi_group/handle_bankruptcy.rs:72-208 | settling a bankruptcy moves the gap by exactly the rounding up of what insurance covers, less the loss beyond all deposits, up to the rounding of one share ulp per share and one debt share |
| `Conservation.BankruptcyExcess` | marginfi-v2/programs/marginfi/src/instructions/marginfi_group/handle_bankruptcy.rs:103-140 | that excess is zero if and only if insurance covers a whole number of tokens and the depositors can bear the rest; it is always below a token, and minus the unpaid loss when there is one |
| `Conservation.FeeIsLostExactly` | marginfi-v2/programs/marginfi/src/instructions/marginfi_account/borrow.rs:157-185 | no origination fee is invented, and none is lost if and only if both fee totals have room for their shares of it |
| `Conservation.LiquidateAssetConserves` | marginfi-v2/programs/marginfi/src/instructions/marginfi_account/liquidate.rs:186-330 | a liquidation moves a seized asset between two balances, the books unchanged up to one share ulp on each side |
| `Conservation.LiquidateDebtConserves` | marginfi-v2/programs/marginfi/src/instructions/marginfi_account/liquidate.rs:186-392 | a liquidation moves a debt between two balances and its insurance fee out of the vault, whole tokens and fraction together, up to one share ulp on each side |
| `Guards.OverliquidationRefusedExactly` | marginfi-v2/programs/marginfi/src/instructions/marginfi_account/liquidate.rs:283-300 | a seizure is refused if and only if it asks for more than the liquidatee holds |
| `Guards.SeizureBypassesLimit` | marginfi-v2/programs/marginfi/src/instructions/marginfi_account/liquidate.rs:303-330 | a liquidator receives assets whatever the deposit limit |
| `Guards.TakenDebtBypassesLimit` | marginfi-v2/programs/marginfi/src/instructions/marginfi_account/liquidate.rs:250-280 | a liquidator takes on debt whatever the borrow limit |
| `Guards.BankruptcyRefusedExactly` | marginfi-v2/programs/marginfi/src/state/marginfi_account.rs:807-836 | an account is not found bankrupt if and only if its assets reach its debts or a tenth of a dollar, or its debts are next to none |
| `Guards.BadDebtRefusedExactly` | marginfi-v2/programs/marginfi/src/instructions/marginfi_group/handle_bankruptcy.rs:103-111 | the debt of a bankrupt account is refused if and only if it is at or below the threshold |
| `Guards.LiquidationPanicsExactly` | marginfi-v2/programs/marginfi/src/instructions/marginfi_account/liquidate.rs:240-246 | with a native deposit limit, a liquidation panics if and only if the liquidatee would be relieved of more than the liquidator takes on |
| `Conservation.AccrueConserves` | marginfi-v2/programs/marginfi/src/state/bank.rs:447-566 | an accrual at any time keeps vault and books together up to the bounds of its rates and elapsed time |
| `Conservation.StepConserves` | marginfi-v2/programs/marginfi/fuzz/fuzz_targets/lend.rs:197-229 | every successful instruction keeps the totals covering the balances and moves vault against books by an excess known before the call, up to its explicit rounding |
| `Conservation.RunConserves` | marginfi-v2/programs/marginfi/fuzz/fuzz_targets/lend.rs:128-189 | over every run from any state in the invariant, failed instructions reverting, the gap moves by the sum of the excesses, up to the sum of the rounding allowances |
| `Conservation.VaultMatchesBooks` | marginfi-v2/programs/marginfi/fuzz/fuzz_targets/lend.rs:166-189 | from a new bank, after every run, vault less outstanding fees against the rounded value of deposits less debts: the summed excesses, up to the summed rounding and one ulp |
| `FuzzerTolerance.WithinOneToken` | marginfi-v2/programs/marginfi/fuzz/fuzz_targets/lend.rs:166-189 | whenever excesses and rounding sum to less than a token either way, the one-token assertion holds at the end of the run, bankruptcies and liquidations included |
| `FuzzerTolerance.BeyondOneToken` | marginfi-v2/programs/marginfi/fuzz/fuzz_targets/lend.rs:166-189 | and whenever the excesses pass a token by more than the rounding, it fails |
| `FuzzerTolerance.BankruptciesExceedTolerance` | marginfi-v2/programs/marginfi/src/instructions/marginfi_group/handle_bankruptcy.rs:72-208 | a run to a difference of 126/64 tokens: two borrowers with nothing but debt, whose fractional bad debts insurance pays in whole tokens |
| `ShareValues.StepKeepsShareValue` | marginfi-v2/programs/marginfi/src/state/bank.rs:447-755 | only accruals, alone or in a deposit, raise the asset share value, only bankruptcies lower it, nothing lowers the liability share value, and zero stays zero |
| `ShareValues.DeadBankStaysDead` | marginfi-v2/programs/marginfi/src/state/bank.rs:201-208 | once deposits are worth nothing, no run of instructions brings the share value back |
| `Emode.ReconcileEmodeConfigs` | marginfi-v2/type-crate/src/types/emode.rs:185-250 | the streaming pass over an ordered map into a buffer of ten computes Reconciled and never overflows the buffer, for any configurations |
| `Emode.ReconcileEmodeConfigsClassic` | marginfi-v2/type-crate/src/types/emode.rs:254-310 | the vector-based implementation computes the same, except that a lone configuration is returned as it is |
| `Emode.CommonFits` | marginfi-v2/type-crate/src/types/emode.rs:228-247 | entries kept from n configurations of ten number at most ten, repeated tags included |
| `EmodeProperties.FindReconciled` | marginfi-v2/type-crate/src/types/emode.rs:185-250 | for any input, a tag is found if and only if it occurs as many times as there are configurations, with its occurrences merged |
| `EmodeProperties.ReconciledIsMeet` | marginfi-v2/type-crate/src/types/emode.rs:185-250 | without repeated tags, a tag is found exactly when every configuration has it, with the least flags, init and maint weights, each taken from one of them |
| `EmodeProperties.RepeatedTagsBreakTheMeet` | marginfi-v2/type-crate/src/types/emode.rs:193-226 | a tag repeated in one configuration survives although the other configuration lacks it |
| `EmodeProperties.MeetHoldsExactly` | marginfi-v2/type-crate/src/types/emode.rs:185-250 | a configuration has no repeated tag if and only if beside any number of empty ones every tag is found exactly when all have it |
| `EmodeProperties.ReconciledIsPacked` | marginfi-v2/type-crate/src/types/emode.rs:67-83 | every result is strictly ascending non-empty entries, then empty ones |
| `EmodeProperties.NothingReconciled` | marginfi-v2/type-crate/src/types/emode.rs:185-192 | no configurations reconcile to no tags |
| `EmodeProperties.SameLookupsSameResult` | marginfi-v2/type-crate/src/types/emode.rs:185-250 | two reconciliations with the same answers to all lookups are the same configuration |
| `EmodeProperties.OrderDoesNotMatter` | marginfi-v2/type-crate/src/types/emode.rs:185-250 | the result depends only on which configurations are given: not on order or multiplicity (idempotence included) |
| `EmodeProperties.Associative` | marginfi-v2/type-crate/src/types/emode.rs:185-250 | reconciling two non-empty groups and then their results equals reconciling everything at once |
| `EmodeProperties.ReconcilingAgain` | marginfi-v2/type-crate/src/types/emode.rs:185-250 | reconciling a result changes nothing |
| `EmodeProperties.ImplementationsAgree` | marginfi-v2/type-crate/src/types/emode.rs:185-310 | streaming and classic answer every lookup alike on lists without repeated tags, a lone unsorted configuration included |
| `EmodeValidation.LeverageIsAccurate` | marginfi-v2/programs/marginfi/src/state/emode.rs:48-80 | the leverage is LW / (LW - CW), never above it, and below it by at most the stated rounding |
| `EmodeValidation.LeverageIsMonotone` | marginfi-v2/programs/marginfi/src/state/emode.rs:48-80 | it is defined exactly below the liability weight, is at least one, and does not fall when the collateral weight grows, under both floors |
| `EmodeValidation.WithinLeverageExactly` | marginfi-v2/programs/marginfi/src/state/emode.rs:48-80 | a leverage is within a cap if and only if CW / LW is below 1 - floor(2^96 / (cap + 1)) / 2^48 |
| `EmodeValidation.WholeCap` | marginfi-v2/programs/marginfi/src/state/emode.rs:111-125 | for a whole cap k that threshold is 1 - 1/k or at most an ulp above it |
| `EmodeValidation.BasisIsAccurate` | marginfi-v2/type-crate/src/types/interest_rate.rs:143-146 | a cap is its 32-bit fraction of 100, below the exact value by less than a hundred ulps, and exactly 100 at the top |
| `EmodeValidation.EntryPassesExactly` | marginfi-v2/programs/marginfi/src/state/emode.rs:97-126 | an entry passes if and only if its weights are ordered and each is below that share of its own liability weight at its own cap |
| `EmodeValidation.CheckDupes` | marginfi-v2/programs/marginfi/src/state/emode.rs:132-147 | the neighbour scan succeeds exactly when neighbouring used entries differ |
| `EmodeValidation.SortedNeighboursMeanNoRepeats` | marginfi-v2/programs/marginfi/src/state/emode.rs:132-147 | on sorted entries that check means no tag occurs twice |
| `EmodeValidation.ValidateEntriesWithLiabilityWeights` | marginfi-v2/programs/marginfi/src/state/emode.rs:83-130 | the validation loop accepts exactly the configurations all of whose used entries pass the weight order and both leverage caps, without duplicate neighbours |
| `EmodeValidation.ConfigureBankEmode` | marginfi-v2/programs/marginfi/src/instructions/marginfi_group/config_bank_emode.rs:7-50 | configuring stores a sorted permutation of the given entries if and only if that passes validation |
| `EmodeValidation.ValidationSurvivesMerging` | marginfi-v2/programs/marginfi/src/state/emode.rs:48-146 | when each bank's configuration passed its own limits, the reconciliation passes the limits of every one of those banks |
| `PanicPause.PanicSwitch.Pause` | marginfi-v2/programs/marginfi/src/state/panic_state.rs:12-43 | the in-place pause equals the function: expiry, daily reset, both limits, extension or fresh start; a rejection leaves only the preparation behind |
| `PanicPause.PanicSwitch.UnpauseIfExpired` | marginfi-v2/programs/marginfi/src/state/panic_state.rs:52-56 | clears the pause exactly when it is set and expired |
| `PanicPause.LimitsHold` | marginfi-v2/programs/marginfi/src/state/panic_state.rs:12-56 | in every reachable state at most 2 consecutive and 3 daily pauses, and no trace of a pause when unpaused |
| `PanicPause.PauseAcceptedExactly` | marginfi-v2/programs/marginfi/src/state/panic_state.rs:12-43 | after any run a pause is accepted if and only if fewer than three were accepted since the last reset, or a day has passed since, and the pause in force was not yet extended |
| `PanicPause.EpisodeWithinAnHour` | marginfi-v2/programs/marginfi/src/state/panic_state.rs:12-56 | one uninterrupted episode lasts at most 3600 seconds from its first pause |
| `PanicPause.SixPausesInAnyDay` | marginfi-v2/programs/marginfi/src/state/panic_state.rs:12-43 | any half-open 24 hours of any run from the default state hold at most six successful pauses |
| `PanicPause.FivePausesInAnyDay` | marginfi-v2/programs/marginfi/src/state/panic_state.rs:12-43 | with no call on the first day of the epoch, at most five: every daily reset is then the time of a pause |
| `PanicPause.NeverReportedForLonger` | marginfi-v2/type-crate/src/types/panic_state_cache.rs:25-55 | if at every moment of an interval some copy of the state taken by then, however old, reports a pause, the interval is at most three hours, and two and a half with no call on the first day of the epoch; an unpause does not help the copies |
| `PanicPause.NeverDownForLonger` | marginfi-v2/programs/marginfi/src/state/panic_state.rs:12-56 | the same for the panic state itself, under the calls made by then |
| `PanicPause.NotDownAfterDowntime` | marginfi-v2/type-crate/src/types/panic_state_cache.rs:111-122 | at the end of such a stretch neither the protocol nor any copy is paused until the next call |
| `PanicPause.TwoAndAHalfHoursAreReachable` | marginfi-v2/programs/marginfi/src/state/panic_state.rs:12-56 | from any later day on, six pauses put five into one 24 hours and keep the protocol paused for all of two and a half hours |
| `PanicPause.ThreeHoursAreReachable` | marginfi-v2/programs/marginfi/src/state/panic_state.rs:12-56 | six pauses and three hours are reached in the first two days of the epoch, before any pause has set the daily reset |
| `Group.StaleCacheExpires` | marginfi-v2/programs/marginfi/src/state/marginfi_group.rs:168-174 | a group whose cache was copied from any reachable state answers is_protocol_paused like the original at every time, and no later than an hour after the copy answers no |
| `Group.CacheNeverReportsForLonger` | marginfi-v2/programs/marginfi/src/state/marginfi_group.rs:168-174 | however a group's cache is updated, it reports the protocol paused for at most three hours without a break, and two and a half with no call on the first day of the epoch |
| `Group.MarginfiGroup.UpdateFromPanicState` | marginfi-v2/type-crate/src/types/panic_state_cache.rs:49-53 | the cache becomes the copy of the panic state at that time, and nothing else changes |
| `DailyWindow.WindowWithinTwoLimits` | marginfi-v2/programs/marginfi/src/state/marginfi_group.rs:176-208 | any counter that resets no sooner than a day after the last reset counts at most twice its limit in any half-open 24 hours |
| `Group.MarginfiGroup.UpdateWithdrawnEquity` | marginfi-v2/programs/marginfi/src/state/marginfi_group.rs:176-208 | the in-place update equals the function, on rejection too |
| `Group.LimitIsEnforced` | marginfi-v2/programs/marginfi/src/state/marginfi_group.rs:176-208 | for a limit strictly between 0 and u32::MAX and amounts below 2^32 dollars, the whole dollars accepted between two resets sum to at most the limit, and to twice the limit in any half-open 24 hours |
| `Group.AcceptedExactly` | marginfi-v2/programs/marginfi/src/state/marginfi_group.rs:176-208 | after any run of amounts below 2^32 dollars from a new window, a withdrawal is accepted if and only if it fits beside what was accepted since the last reset, or beside nothing once a day has passed |
| `Group.EnforcedExactlyWithoutWrapping` | marginfi-v2/programs/marginfi/src/state/marginfi_group.rs:190-193 | 2^32 dollars is the exact cap on amounts: such a limit is respected by all runs under a cap if and only if the cap is at most that |
| `Group.WrappedAmountEscapes` | marginfi-v2/programs/marginfi/src/state/marginfi_group.rs:190-208 | a withdrawal of 2^32 dollars is accepted under every limit |
| `Group.EnforcedExactlyInBetween` | marginfi-v2/programs/marginfi/src/state/marginfi_group.rs:190-208 | runs of amounts below 2^32 dollars from a new window respect the limit if and only if it is strictly between 0 and u32::MAX |
| `Group.CountedInFull` | marginfi-v2/programs/marginfi/src/state/marginfi_group.rs:190-193 | an amount counts with all its whole dollars if and only if it is below 2^32 of them |
| `Drift.IncrementNeverCreatesValue` | marginfi-v2/programs/drift-mocks/src/state.rs:179-232 | the increment for a deposit redeems for at most the deposit |
| `Drift.DecrementCoversAmount` | marginfi-v2/programs/drift-mocks/src/state.rs:179-232 | the decrement for a withdrawal redeems for at least its amount if and only if the amount is zero or worth at least one scaled unit; below that nothing is burnt |
| `Drift.DecrementIsIncrementOrOneMore` | marginfi-v2/programs/drift-mocks/src/state.rs:179-208 | the decrement is the increment, plus one exactly when the increment is not zero |
| `Drift.NewMarketHasNineDecimals` | marginfi-v2/programs/drift-mocks/src/state.rs:156-208 | at the index of a new market a scaled balance is the amount in nine decimals, floored, and valuations are unchanged |
| `Drift.ConversionsFailExactly` | marginfi-v2/programs/drift-mocks/src/state.rs:179-275 | the three conversions fail if and only if the decimals exceed 19, there is no index, or a result does not fit its integer |
| `Drift.ScaledLimitHasNineDecimals` | marginfi-v2/programs/marginfi/src/state/bank.rs:222-236 | a Drift bank's deposit limit is its native limit in nine decimals, floored to an ulp, and fails if and only if that does not fit or the table of powers ends |
| `Drift.RunIsBacked` | marginfi-v2/programs/drift-mocks/src/state.rs:179-232 | over every run at a fixed index whose withdrawals are each worth a scaled unit, the exact worth of the balance is at most paid in less paid out |
| `Drift.RunNeverCreatesValue` | marginfi-v2/programs/drift-mocks/src/state.rs:179-232 | in such runs paid out plus what the balance redeems for is at most what was paid in |
| `Drift.NoRunCreatesValueExactly` | marginfi-v2/programs/drift-mocks/src/state.rs:179-232 | no run at all pays out more than was paid in if and only if the index is at most 10^(19 - decimals) |
| `Drift.TinyWithdrawalIsFree` | marginfi-v2/programs/drift-mocks/src/state.rs:179-199 | without that restriction every positive amount below one scaled unit is paid out of an empty position |
| `Drift.ValuationsAgree` | marginfi-v2/programs/drift-mocks/src/state.rs:217-287 | adjusted price times scaled balance and price times redeemable tokens differ by less than the larger of the two rounding units |
| `Price.ConversionIsExact` | marginfi-v2/type-crate/src/types/price.rs:43-77 | a conversion answers if and only if there is a denominator and nothing overflows, and then with a single floor of the exact ratio |
| `Price.RoundTripLosesLittle` | marginfi-v2/type-crate/src/types/price.rs:43-77 | collateral to liquidity and back never gains, and all but one token of the loss is worth under one token of the other kind |
| `Price.ReverseRoundTripLosesLittle` | marginfi-v2/type-crate/src/types/price.rs:43-77 | the same for liquidity to collateral and back |
| `Price.SplittingGainsNothing` | marginfi-v2/type-crate/src/types/price.rs:43-77 | converting in any parts yields at most the conversion of the sum, and less by under one token a part |
| `Price.ScaleSuppliesFloors` | marginfi-v2/type-crate/src/types/price.rs:99-110 | scaling fails if and only if the decimals exceed the table, and floors both supplies divided by that power of ten |
| `Price.ScaledConversionIsClose` | marginfi-v2/type-crate/src/types/price.rs:43-110 | scaling both supplies by a power of ten first changes the answer only by the dropped ulps, in both directions |
| `TransactionShape.ValidateIxFirst` | marginfi-v2/programs/marginfi/src/ix_utils.rs:35-88 | the scan loop returns the verdict of the three-state scan, errors included |
| `TransactionShape.ScanFindsShape` | marginfi-v2/programs/marginfi/src/ix_utils.rs:35-88 | the scan accepts if and only if, compute-budget instructions aside, allowed instructions precede one start and no start follows |
| `TransactionShape.RepeatIsReported` | marginfi-v2/programs/marginfi/src/ix_utils.rs:73-78 | StartRepeats is the verdict if and only if some prefix is acceptable and a start follows it |
| `TransactionShape.ValidateIxesExclusive` | marginfi-v2/programs/marginfi/src/ix_utils.rs:113-136 | accepts if and only if every own-program instruction is well formed and listed; the error is decided by the first that is not |
| `TransactionShape.LoadAndValidateInstructions` | marginfi-v2/programs/marginfi/src/ix_utils.rs:163-204 | the loading loop returns all instructions if and only if each belongs to an allowed program |
| `TransactionShape.ValidateInstructions` | marginfi-v2/programs/marginfi/src/instructions/marginfi_account/liquidate_start.rs:115-185 | all checks in sequence accept exactly the transactions of allowed programs and the whole shape whose start is a top-level instruction of the program before the last |
| `TransactionShape.StartIsBeforeEnd` | marginfi-v2/programs/marginfi/src/instructions/marginfi_account/liquidate_start.rs:179-182 | on a transaction of that shape the closing sanity check cannot fail for the start itself |
| `TransactionShape.AcceptedIsWellShaped` | marginfi-v2/programs/marginfi/src/ix_utils.rs:35-136 | their conditions together are equivalent to: preamble, start, body without a start, and the end as the last instruction of all, every instruction well formed, own ones all listed |

## Left out

- InterestRate.AccrualConservesValue: fees are natural numbers, as configured; negative fees are not modelled.
- Conservation.LiquidateDebtConserves: the two amounts of debt are parameters, since oracle prices determine them; that the two halves of a liquidation succeed or fail together is not modelled, so a bank's run holds the halves that took effect on it.
- The clock is a parameter of every call.
- Price.ConversionIsExact: supplies are not negative, as the venues' supplies are; the functions themselves accept any bits.
- Operators that panic on overflow in the source (plain `+`, `*` on I80F48) are modelled as failing, like their checked forms.
- The risk engine: account health and oracle prices. The two equity totals on which it finds an account bankrupt are parameters of the bankruptcy; flash-loan flags are not modelled.
- The accrual at the start of every handler but the deposit's is a separate step of a run; account constraints, signers, events and remaining accounts are not modelled.
- Token transfers are integers moved between vaults; Token-2022 transfer fees and tokenless repayments are not modelled.
- A balance exists for each user from the start, empty; activating and closing slots, position counts and emissions are not modelled.
- A bank's operational state, including the one set on a bank killed by a loss: runs here allow instructions that such a bank refuses.
- The legacy three-point curve, the migration to seven points, and the rates cached for display.
- `configure`, `update_emode_enabled` and the other setters, which copy fields.
- Pause flags are one boolean; reserved and padding bytes are not modelled.
- The `adjust_i64`, `adjust_u64` and `adjust_i128` wrappers and `convert_decimals`, single-value conversions.
- The runtime's sysvar and call stack: the instructions, the index of the current one and whether it is top-level are parameters.
- The flash-loan bot, its scripts, and the Kamino and Solend account parsing.
