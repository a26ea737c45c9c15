/**
 What every instruction does to whom: nobody else's balance changes, the users it names gain or
 give what the vault moves, up to a share ulp on each side, and the bank's totals stay the sums
 of the balances but for what closed balances leave behind.
 */
module Positions {
  import opened Wrappers
  import opened FixedPoint
  import opened InterestCurve
  import opened BankLedger
  import opened BankProperties
  import opened BankAccount
  import opened LendingLedger
  import opened Conservation

  /** The users an instruction names. */
  function NamedUsers(op: Op): set<nat> {
    match op
    case OpAccrue(_, _) => {}
    case OpCollectFees => {}
    case OpLiquidateAsset(liquidator, liquidatee, _) => {liquidator, liquidatee}
    case OpLiquidateDebt(liquidator, liquidatee, _, _) => {liquidator, liquidatee}
    case _ => {op.i}
  }

  ghost predicate Untouched(before: seq<Balance>, after: seq<Balance>, users: set<nat>) {
    |after| == |before| && forall j :: 0 <= j < |before| && j !in users ==> after[j] == before[j]
  }

  /** Shares in the bank's totals that no balance holds. */
  function UnheldAssets(l: Ledger): int {
    l.bank.totalAssetShares - TotalAssets(l.balances)
  }

  function UnheldLiabilities(l: Ledger): int {
    l.bank.totalLiabilityShares - TotalLiabilities(l.balances)
  }

  /** Dust shares that closing a balance leaves in the totals: either side, or the side a full operation does not close. */
  function ForgottenAssets(l: Ledger, op: Op): int {
    match op
    case OpCloseBalance(i) => if i < |l.balances| then l.balances[i].assetShares else 0
    case OpRepayAll(i) => if i < |l.balances| then l.balances[i].assetShares else 0
    case _ => 0
  }

  function ForgottenLiabilities(l: Ledger, op: Op): int {
    match op
    case OpCloseBalance(i) => if i < |l.balances| then l.balances[i].liabilityShares else 0
    case OpWithdrawAll(i) => if i < |l.balances| then l.balances[i].liabilityShares else 0
    case _ => 0
  }

  /** What a balance is worth, in units of 2^-96 tokens. */
  function Worth(b: BankState, balance: Balance): int {
    balance.assetShares * b.assetShareValue - balance.liabilityShares * b.liabilityShareValue
  }

  /** A balance gains an amount (in those units), less at most one share ulp on each side. */
  predicate Gains(b: BankState, before: Balance, after: Balance, amount: int) {
    && -ShareUnit(b) <= Worth(b, after) - Worth(b, before) - amount <= 0
    && after.assetShares >= before.assetShares && after.liabilityShares <= before.liabilityShares
  }

  /** A balance gives an amount, less at most one share ulp on each side. */
  predicate Gives(b: BankState, before: Balance, after: Balance, amount: int) {
    && 0 <= Worth(b, after) - Worth(b, before) + amount <= ShareUnit(b)
    && after.assetShares <= before.assetShares && after.liabilityShares >= before.liabilityShares
  }

  /** No vault but the liquidity vault moves. */
  predicate OnlyVault(l: Ledger, after: Ledger, vault: int) {
    after.vault == vault && after.insuranceVault == l.insuranceVault && after.feeVault == l.feeVault && after.programVault == l.programVault
  }

  /** What each instruction does to the balances it names and to the vaults. */
  ghost predicate Moved(l: Ledger, op: Op, after: Ledger)
    requires Untouched(l.balances, after.balances, NamedUsers(op))
  {
    match op
    case OpDeposit(i, amount, upToLimit, now, group) =>
      && l.Deposited(amount, upToLimit).Ok?
      && var tokens := l.Deposited(amount, upToLimit).value;
      tokens <= amount && (!upToLimit ==> tokens == amount) && if tokens == 0 then after == l
      else
        && i < |l.balances| && l.Accrue(now, group).Ok? && OnlyVault(l, after, l.vault + tokens)
        && var accrued := l.Accrue(now, group).value;
        Gains(accrued.bank, l.balances[i], after.balances[i], FromInt(tokens) * ONE - UnboughtBy(accrued, i, FromInt(tokens)))
    case OpWithdraw(i, amount) =>
      && i < |l.balances| && OnlyVault(l, after, l.vault - amount)
      && Gives(l.bank, l.balances[i], after.balances[i], FromInt(amount) * ONE)
    case OpBorrow(i, amount, group) =>
      && i < |l.balances| && l.OriginationFee(amount).Ok? && OnlyVault(l, after, l.vault - amount)
      && Gives(l.bank, l.balances[i], after.balances[i], (FromInt(amount) + l.OriginationFee(amount).value) * ONE)
    case OpRepay(i, amount) =>
      && i < |l.balances| && OnlyVault(l, after, l.vault + amount)
      && Gains(l.bank, l.balances[i], after.balances[i], FromInt(amount) * ONE - UnboughtBy(l, i, FromInt(amount)))
    case OpWithdrawAll(i) =>
      && i < |l.balances| && after.balances[i] == EMPTY_BALANCE && OnlyVault(l, after, after.vault)
      && var held := Mul(l.balances[i].assetShares, l.bank.assetShareValue);
      && FromInt(l.vault - after.vault) <= held < FromInt(l.vault - after.vault) + ONE
      && held > ZERO_AMOUNT_THRESHOLD && Mul(l.balances[i].liabilityShares, l.bank.liabilityShareValue) < ZERO_AMOUNT_THRESHOLD
    case OpRepayAll(i) =>
      && i < |l.balances| && after.balances[i] == EMPTY_BALANCE && OnlyVault(l, after, after.vault)
      && var owed := Mul(l.balances[i].liabilityShares, l.bank.liabilityShareValue);
      && FromInt(after.vault - l.vault) - ONE < owed <= FromInt(after.vault - l.vault)
      && owed > ZERO_AMOUNT_THRESHOLD && Mul(l.balances[i].assetShares, l.bank.assetShareValue) < ZERO_AMOUNT_THRESHOLD
    case OpCloseBalance(i) =>
      && i < |l.balances| && after.balances[i] == EMPTY_BALANCE && OnlyVault(l, after, l.vault) && after.bank == l.bank
      && Mul(l.balances[i].assetShares, l.bank.assetShareValue) < ZERO_AMOUNT_THRESHOLD
      && Mul(l.balances[i].liabilityShares, l.bank.liabilityShareValue) < ZERO_AMOUNT_THRESHOLD
    case OpAccrue(_, _) => OnlyVault(l, after, l.vault)
    case OpCollectFees => FeesCollected(l, after)
    case OpHandleBankruptcy(i, equity) =>
      && equity.assets < equity.liabilities && equity.assets < BANKRUPT_THRESHOLD && equity.liabilities > ZERO_AMOUNT_THRESHOLD
      && i < |l.balances| && after.feeVault == l.feeVault && after.programVault == l.programVault
      && after.balances[i].assetShares == l.balances[i].assetShares
      && 0 <= after.balances[i].liabilityShares * l.bank.liabilityShareValue < l.bank.liabilityShareValue + ONE
      && FromInt(l.insuranceVault - after.insuranceVault) == Ceil(Covered(l, i)) && after.vault - l.vault == l.insuranceVault - after.insuranceVault
    case OpLiquidateAsset(liquidator, liquidatee, amount) =>
      && liquidator < |l.balances| && liquidatee < |l.balances| && liquidator != liquidatee && OnlyVault(l, after, l.vault)
      && FromInt(amount) <= Mul(l.balances[liquidatee].assetShares, l.bank.assetShareValue)
      && Gives(l.bank, l.balances[liquidatee], after.balances[liquidatee], FromInt(amount) * ONE)
      && Gains(l.bank, l.balances[liquidator], after.balances[liquidator], FromInt(amount) * ONE)
    case OpLiquidateDebt(liquidator, liquidatee, taken, repaid) =>
      && liquidator < |l.balances| && liquidatee < |l.balances| && liquidator != liquidatee
      && after.feeVault == l.feeVault && after.programVault == l.programVault
      && Gives(l.bank, l.balances[liquidator], after.balances[liquidator], taken * ONE)
      && Gains(l.bank, l.balances[liquidatee], after.balances[liquidatee], repaid * ONE - UnboughtBy(l, liquidatee, repaid))
      && var fee := FromInt(l.vault - after.vault);
      && after.insuranceVault - l.insuranceVault == l.vault - after.vault
      && fee <= taken - repaid < fee + ONE && after.bank.insuranceFees - l.bank.insuranceFees == taken - repaid - fee
  }

  /** Each outstanding fee goes to its own vault in whole tokens, and none is left whole while the vault has more. */
  predicate FeesCollected(l: Ledger, after: Ledger) {
    && FromInt(after.insuranceVault - l.insuranceVault) == l.bank.insuranceFees - after.bank.insuranceFees
    && FromInt(after.feeVault - l.feeVault) == l.bank.groupFees - after.bank.groupFees
    && FromInt(after.programVault - l.programVault) == l.bank.programFees - after.bank.programFees
    && after.vault + after.insuranceVault + after.feeVault + after.programVault == l.vault + l.insuranceVault + l.feeVault + l.programVault
    && (after.bank.insuranceFees >= ONE ==> after.vault == 0 && after.feeVault <= l.feeVault && after.programVault <= l.programVault)
    && (after.bank.groupFees >= ONE ==> after.vault == 0 && after.programVault <= l.programVault)
    && (after.bank.programFees >= ONE ==> after.vault == 0)
  }

  ghost predicate Settles(l: Ledger, op: Op, after: Ledger) {
    && Untouched(l.balances, after.balances, NamedUsers(op)) && Moved(l, op, after)
    && UnheldAssets(after) == UnheldAssets(l) + ForgottenAssets(l, op)
    && UnheldLiabilities(after) == UnheldLiabilities(l) + ForgottenLiabilities(l, op)
  }

  // ---- One balance ----

  lemma WorthMoves(before: Account, after: Account, assetShares: int, liabilityShares: int)
    requires MovesShares(before, after, assetShares, liabilityShares)
    ensures Worth(before.bank, after.balance) - Worth(before.bank, before.balance) == Books(after.bank) - Books(before.bank)
  {
    BooksMove(before, after, assetShares, liabilityShares);
    var b := before.bank;
    assert (before.balance.assetShares + assetShares) * b.assetShareValue
        == before.balance.assetShares * b.assetShareValue + assetShares * b.assetShareValue;
    assert (before.balance.liabilityShares + liabilityShares) * b.liabilityShareValue
        == before.balance.liabilityShares * b.liabilityShareValue + liabilityShares * b.liabilityShareValue;
  }

  /** A balance written back with the totals that moved with it. */
  lemma HeldAfterUpdate(l: Ledger, i: nat, after: Account)
    requires i < |l.balances|
    ensures var m := l.SetAccount(i, after);
      && Untouched(l.balances, m.balances, {i}) && m.balances[i] == after.balance
      && UnheldAssets(m) - UnheldAssets(l) == after.bank.totalAssetShares - l.bank.totalAssetShares
                                              - (after.balance.assetShares - l.balances[i].assetShares)
      && UnheldLiabilities(m) - UnheldLiabilities(l) == after.bank.totalLiabilityShares - l.bank.totalLiabilityShares
                                                        - (after.balance.liabilityShares - l.balances[i].liabilityShares)
  {
    TotalsAfterUpdate(l.balances, i, after.balance);
  }

  predicate HoldsAsBefore(l: Ledger, m: Ledger) {
    UnheldAssets(m) == UnheldAssets(l) && UnheldLiabilities(m) == UnheldLiabilities(l)
  }

  lemma IncreaseSettles(l: Ledger, i: nat, delta: I80F48, kind: BalanceIncreaseType) returns (after: Account)
    requires Inv(l) && i < |l.balances| && delta >= 0
    requires Account(l.bank, l.balances[i]).IncreaseBalance(delta, kind).Ok?
    ensures Account(l.bank, l.balances[i]).IncreaseBalance(delta, kind) == Ok(after) && SharesOnly(l.bank, after.bank)
    ensures Untouched(l.balances, l.SetAccount(i, after).balances, {i}) && HoldsAsBefore(l, l.SetAccount(i, after))
    ensures Gains(l.bank, l.balances[i], after.balance, delta * ONE - UnboughtBy(l, i, delta))
  {
    var acc := Account(l.bank, l.balances[i]);
    after := acc.IncreaseBalance(delta, kind).value;
    IncreaseEffect(acc, delta, kind);
    WorthMoves(acc, after, after.balance.assetShares - acc.balance.assetShares, after.balance.liabilityShares - acc.balance.liabilityShares);
    HeldAfterUpdate(l, i, after);
  }

  lemma DecreaseSettles(l: Ledger, i: nat, delta: I80F48, kind: BalanceDecreaseType) returns (after: Account)
    requires Inv(l) && i < |l.balances| && delta >= 0
    requires Account(l.bank, l.balances[i]).DecreaseBalance(delta, kind).Ok?
    ensures Account(l.bank, l.balances[i]).DecreaseBalance(delta, kind) == Ok(after) && SharesOnly(l.bank, after.bank)
    ensures Untouched(l.balances, l.SetAccount(i, after).balances, {i}) && HoldsAsBefore(l, l.SetAccount(i, after))
    ensures Gives(l.bank, l.balances[i], after.balance, delta * ONE)
  {
    var acc := Account(l.bank, l.balances[i]);
    after := acc.DecreaseBalance(delta, kind).value;
    DecreaseEffect(acc, delta, kind);
    WorthMoves(acc, after, after.balance.assetShares - acc.balance.assetShares, after.balance.liabilityShares - acc.balance.liabilityShares);
    HeldAfterUpdate(l, i, after);
  }

  lemma DecreaseGives(l: Ledger, i: nat, delta: I80F48, kind: BalanceDecreaseType, after: Account)
    requires Inv(l) && i < |l.balances| && delta >= 0
    requires Account(l.bank, l.balances[i]).DecreaseBalance(delta, kind) == Ok(after)
    ensures Untouched(l.balances, l.SetAccount(i, after).balances, {i}) && HoldsAsBefore(l, l.SetAccount(i, after))
    ensures Gives(l.bank, l.balances[i], after.balance, delta * ONE)
  {
    var same := DecreaseSettles(l, i, delta, kind);
  }

  // ---- Every instruction ----

  lemma DepositSettles(l: Ledger, i: nat, amount: nat, upToLimit: bool, now: int, group: GroupFees)
    requires Inv(l) && l.Deposit(i, amount, upToLimit, now, group).Ok?
    ensures Settles(l, OpDeposit(i, amount, upToLimit, now, group), l.Deposit(i, amount, upToLimit, now, group).value)
  {
    var tokens := l.Deposited(amount, upToLimit).value;
    if tokens != 0 {
      var accrued := l.Accrue(now, group).value;
      AccrueConserves(l, now, group);
      AccrualNeverDecreases(l.bank, now, group);
      PutInSettles(accrued, i, tokens);
    }
  }

  lemma PutInSettles(l: Ledger, i: nat, tokens: nat)
    requires Inv(l) && l.PutIn(i, tokens).Ok?
    ensures var after := l.PutIn(i, tokens).value;
      && i < |l.balances| && Untouched(l.balances, after.balances, {i}) && HoldsAsBefore(l, after) && OnlyVault(l, after, l.vault + tokens)
      && Gains(l.bank, l.balances[i], after.balances[i], FromInt(tokens) * ONE - UnboughtBy(l, i, FromInt(tokens)))
  {
    var after := IncreaseSettles(l, i, FromInt(tokens), DepositOnly);
  }

  lemma WithdrawSettles(l: Ledger, i: nat, amount: nat)
    requires Inv(l) && l.Withdraw(i, amount).Ok?
    ensures Settles(l, OpWithdraw(i, amount), l.Withdraw(i, amount).value)
  {
    var after := DecreaseSettles(l, i, FromInt(amount), WithdrawOnly);
  }

  lemma RepaySettles(l: Ledger, i: nat, amount: nat)
    requires Inv(l) && l.Repay(i, amount).Ok?
    ensures Settles(l, OpRepay(i, amount), l.Repay(i, amount).value)
  {
    var after := IncreaseSettles(l, i, FromInt(amount), RepayOnly);
  }

  lemma BorrowSettles(l: Ledger, i: nat, amount: nat, group: GroupFees)
    requires Inv(l) && l.Borrow(i, amount, group).Ok?
    ensures Settles(l, OpBorrow(i, amount, group), l.Borrow(i, amount, group).value)
  {
    var fee, borrowed := BorrowGives(l, i, amount, group);
    PaymentSettles(l, i, amount, fee, group.programFeeRate, borrowed);
  }

  lemma BorrowGives(l: Ledger, i: nat, amount: nat, group: GroupFees) returns (fee: I80F48, borrowed: Account)
    requires Inv(l) && l.Borrow(i, amount, group).Ok?
    ensures i < |l.balances| && l.OriginationFee(amount) == Ok(fee)
    ensures l.Borrow(i, amount, group) == l.PayBorrow(i, amount, fee, group.programFeeRate, borrowed)
    ensures Untouched(l.balances, l.SetAccount(i, borrowed).balances, {i}) && HoldsAsBefore(l, l.SetAccount(i, borrowed))
    ensures Gives(l.bank, l.balances[i], borrowed.balance, (FromInt(amount) + fee) * ONE)
  {
    OriginationFeeIsNonNegative(l, amount);
    fee := l.OriginationFee(amount).value;
    borrowed := DecreaseSettles(l, i, FromInt(amount) + fee, BorrowOnly);
  }

  lemma PaymentSettles(l: Ledger, i: nat, amount: nat, fee: I80F48, programFeeRate: I80F48, borrowed: Account)
    requires i < |l.balances| && l.PayBorrow(i, amount, fee, programFeeRate, borrowed).Ok?
    ensures var after := l.PayBorrow(i, amount, fee, programFeeRate, borrowed).value;
      && after.balances == l.SetAccount(i, borrowed).balances && OnlyVault(l, after, l.vault - amount)
      && HoldsAsBefore(l.SetAccount(i, borrowed), after)
  {
  }

  lemma WithdrawAllSettles(l: Ledger, i: nat)
    requires Inv(l) && l.WithdrawAll(i).Ok?
    ensures Settles(l, OpWithdrawAll(i), l.WithdrawAll(i).value)
  {
    var acc := l.GetAccount(i).value;
    WithdrawAllEffect(acc);
    MulNonNegative(acc.balance.liabilityShares, l.bank.liabilityShareValue);
    HeldAfterUpdate(l, i, acc.WithdrawAll().value.0);
  }

  lemma RepayAllSettles(l: Ledger, i: nat)
    requires Inv(l) && l.RepayAll(i).Ok?
    ensures Settles(l, OpRepayAll(i), l.RepayAll(i).value)
  {
    var acc := l.GetAccount(i).value;
    RepayAllEffect(acc);
    MulNonNegative(acc.balance.assetShares, l.bank.assetShareValue);
    HeldAfterUpdate(l, i, acc.RepayAll().value.0);
  }

  lemma CloseBalanceSettles(l: Ledger, i: nat)
    requires Inv(l) && l.CloseBalance(i).Ok?
    ensures Settles(l, OpCloseBalance(i), l.CloseBalance(i).value)
  {
    HeldAfterUpdate(l, i, l.GetAccount(i).value.CloseBalance().value);
  }

  lemma AccrueSettles(l: Ledger, now: int, group: GroupFees)
    requires Inv(l) && l.Accrue(now, group).Ok?
    ensures Settles(l, OpAccrue(now, group), l.Accrue(now, group).value)
  {
    AccrualNeverDecreases(l.bank, now, group);
  }

  lemma CollectFeesSettles(l: Ledger)
    requires l.CollectFees().Ok?
    ensures Settles(l, OpCollectFees, l.CollectFees().value)
  {
    var insurance, group, program, after := CollectShape(l);
    AllOrAsMuchAsThereIs(l.bank.insuranceFees, l.vault, insurance);
    AllOrAsMuchAsThereIs(l.bank.groupFees, l.vault - insurance, group);
    AllOrAsMuchAsThereIs(l.bank.programFees, l.vault - insurance - group, program);
  }

  lemma CollectShape(l: Ledger) returns (insurance: nat, group: nat, program: nat, after: Ledger)
    requires l.CollectFees().Ok?
    ensures l.CollectFees() == Ok(after) && after.balances == l.balances
    ensures Collectable(l.bank.insuranceFees, l.vault) == Ok(insurance)
    ensures Collectable(l.bank.groupFees, l.vault - insurance) == Ok(group)
    ensures Collectable(l.bank.programFees, l.vault - insurance - group) == Ok(program)
    ensures after.vault == l.vault - insurance - group - program
    ensures after.insuranceVault == l.insuranceVault + insurance && after.feeVault == l.feeVault + group && after.programVault == l.programVault + program
    ensures after.bank == l.bank.(insuranceFees := l.bank.insuranceFees - FromInt(insurance), groupFees := l.bank.groupFees - FromInt(group),
                                  programFees := l.bank.programFees - FromInt(program))
  {
    var b := l.bank;
    insurance := Collectable(b.insuranceFees, l.vault).value;
    group := Collectable(b.groupFees, l.vault - insurance).value;
    program := Collectable(b.programFees, l.vault - insurance - group).value;
    after := l.CollectFees().value;
  }

  lemma AllOrAsMuchAsThereIs(fees: I80F48, vault: int, tokens: nat)
    requires Collectable(fees, vault) == Ok(tokens)
    ensures tokens <= vault && (fees - FromInt(tokens) >= ONE ==> tokens == vault)
  {
  }

  lemma BankruptcySettles(l: Ledger, i: nat, equity: Equity) returns (after: Ledger)
    requires Inv(l) && l.HandleBankruptcy(i, equity).Ok?
    ensures l.HandleBankruptcy(i, equity) == Ok(after) && Settles(l, OpHandleBankruptcy(i, equity), after)
  {
    var badDebt, covered, tokens := BankruptcyShape(l, i, equity);
    after := SettlementSettles(l, i, badDebt, badDebt - covered, tokens);
    SettlementIsMoved(l, i, equity, tokens, after);
  }

  lemma SettlementIsMoved(l: Ledger, i: nat, equity: Equity, tokens: nat, after: Ledger)
    requires i < |l.balances| && FromInt(tokens) == Ceil(Covered(l, i)) && equity.CheckBankrupt().Ok?
    requires Untouched(l.balances, after.balances, {i}) && HoldsAsBefore(l, after)
    requires after.vault == l.vault + tokens && after.insuranceVault == l.insuranceVault - tokens
    requires after.feeVault == l.feeVault && after.programVault == l.programVault
    requires after.balances[i].assetShares == l.balances[i].assetShares
    requires 0 <= after.balances[i].liabilityShares * l.bank.liabilityShareValue < l.bank.liabilityShareValue + ONE
    ensures Settles(l, OpHandleBankruptcy(i, equity), after)
  {
  }

  lemma SettlementSettles(l: Ledger, i: nat, badDebt: I80F48, loss: I80F48, tokens: nat) returns (after: Ledger)
    requires Inv(l) && i < |l.balances| && tokens <= l.insuranceVault && loss >= 0
    requires badDebt == Mul(l.balances[i].liabilityShares, l.bank.liabilityShareValue) && badDebt >= 0
    requires l.SettleDebt(i, badDebt, loss, tokens).Ok?
    ensures l.SettleDebt(i, badDebt, loss, tokens) == Ok(after)
    ensures Untouched(l.balances, after.balances, {i}) && HoldsAsBefore(l, after)
    ensures after.vault == l.vault + tokens && after.insuranceVault == l.insuranceVault - tokens
    ensures after.feeVault == l.feeVault && after.programVault == l.programVault
    ensures after.balances[i].assetShares == l.balances[i].assetShares
    ensures 0 <= after.balances[i].liabilityShares * l.bank.liabilityShareValue < l.bank.liabilityShareValue + ONE
  {
    var wounded := LossSocialized(l, loss);
    var m := l.(bank := wounded);
    var repaid := IncreaseSettles(m, i, badDebt, RepayOnly);
    DebtIsGone(Account(wounded, l.balances[i]), badDebt);
    after := l.SettleDebt(i, badDebt, loss, tokens).value;
  }

  /** Repaying the worth of a debt leaves less than a share ulp and an ulp of it, and deposits nothing. */
  lemma DebtIsGone(acc: Account, badDebt: I80F48)
    requires acc.bank.Valid() && acc.balance.NonNegative() && badDebt == Mul(acc.balance.liabilityShares, acc.bank.liabilityShareValue)
    requires acc.IncreaseBalance(badDebt, RepayOnly).Ok?
    ensures var after := acc.IncreaseBalance(badDebt, RepayOnly).value;
      && after.balance.assetShares == acc.balance.assetShares
      && 0 <= after.balance.liabilityShares * acc.bank.liabilityShareValue < acc.bank.liabilityShareValue + ONE
  {
    var b, held := acc.bank, acc.balance.liabilityShares;
    MulNonNegative(held, b.liabilityShareValue);
    MulBounds(held, b.liabilityShareValue);
    SharesForAmount(badDebt, b.liabilityShareValue);
    SharesWithinHolding(held, b.liabilityShareValue, badDebt);
    var l := Div(badDebt, b.liabilityShareValue);
    if b.assetShareValue > 0 {
      SharesForAmount(0, b.assetShareValue);
      assert Div(0, b.assetShareValue) == 0;
    }
    IncreaseShape(acc, badDebt, RepayOnly, badDebt, 0, l);
    assert (held - l) * b.liabilityShareValue == held * b.liabilityShareValue - b.liabilityShareValue * l;
    MulNonNeg(held - l, b.liabilityShareValue);
  }

  lemma LiquidateAssetSettles(l: Ledger, liquidator: nat, liquidatee: nat, amount: nat)
    requires Inv(l) && l.LiquidateAsset(liquidator, liquidatee, amount).Ok?
    ensures Settles(l, OpLiquidateAsset(liquidator, liquidatee, amount), l.LiquidateAsset(liquidator, liquidatee, amount).value)
  {
    var seized := LiquidateAssetShape(l, liquidator, liquidatee, amount);
    DecreaseGives(l, liquidatee, FromInt(amount), BypassBorrowLimit, seized);
    var m := l.SetAccount(liquidatee, seized);
    var after := ReceiveSettles(m, liquidator, amount);
    BothMoved(l, m, after, liquidatee, liquidator);
  }

  lemma ReceiveSettles(l: Ledger, i: nat, amount: nat) returns (after: Ledger)
    requires Inv(l) && l.Receive(i, amount).Ok?
    ensures l.Receive(i, amount) == Ok(after) && i < |l.balances|
    ensures Untouched(l.balances, after.balances, {i}) && HoldsAsBefore(l, after) && OnlyVault(l, after, l.vault)
    ensures Gains(l.bank, l.balances[i], after.balances[i], FromInt(amount) * ONE - UnboughtBy(l, i, FromInt(amount)))
  {
    var received := IncreaseSettles(l, i, FromInt(amount), BypassDepositLimit);
    after := l.Receive(i, amount).value;
  }

  lemma LiquidateDebtSettles(l: Ledger, liquidator: nat, liquidatee: nat, taken: nat, repaid: nat)
    requires Inv(l) && l.LiquidateDebt(liquidator, liquidatee, taken, repaid).Ok?
    ensures Settles(l, OpLiquidateDebt(liquidator, liquidatee, taken, repaid), l.LiquidateDebt(liquidator, liquidatee, taken, repaid).value)
  {
    var burdened, tokens := BurdenGives(l, liquidator, liquidatee, taken, repaid);
    var m := l.SetAccount(liquidator, burdened);
    var after := RelieveSettles(m, liquidatee, repaid, tokens, taken - repaid - FromInt(tokens));
    BothMoved(l, m, after, liquidator, liquidatee);
  }

  lemma BurdenGives(l: Ledger, liquidator: nat, liquidatee: nat, taken: nat, repaid: nat) returns (burdened: Account, tokens: nat)
    requires Inv(l) && l.LiquidateDebt(liquidator, liquidatee, taken, repaid).Ok?
    ensures liquidator < |l.balances| && liquidator != liquidatee && FromInt(tokens) <= taken - repaid < FromInt(tokens) + ONE
    ensures Inv(l.SetAccount(liquidator, burdened)) && SharesOnly(l.bank, burdened.bank)
    ensures Untouched(l.balances, l.SetAccount(liquidator, burdened).balances, {liquidator})
    ensures HoldsAsBefore(l, l.SetAccount(liquidator, burdened)) && Gives(l.bank, l.balances[liquidator], burdened.balance, taken * ONE)
    ensures l.LiquidateDebt(liquidator, liquidatee, taken, repaid)
         == l.SetAccount(liquidator, burdened).Relieve(liquidatee, repaid, tokens, taken - repaid - FromInt(tokens))
  {
    burdened, tokens := LiquidateDebtShape(l, liquidator, liquidatee, taken, repaid);
    DecreaseGives(l, liquidator, taken, BypassBorrowLimit, burdened);
  }

  lemma RelieveSettles(l: Ledger, i: nat, repaid: nat, tokens: nat, dust: I80F48) returns (after: Ledger)
    requires Inv(l) && l.Relieve(i, repaid, tokens, dust).Ok?
    ensures l.Relieve(i, repaid, tokens, dust) == Ok(after) && i < |l.balances|
    ensures Untouched(l.balances, after.balances, {i}) && HoldsAsBefore(l, after)
    ensures Gains(l.bank, l.balances[i], after.balances[i], repaid * ONE - UnboughtBy(l, i, repaid))
    ensures after.vault == l.vault - tokens && after.insuranceVault == l.insuranceVault + tokens
    ensures after.feeVault == l.feeVault && after.programVault == l.programVault
    ensures after.bank.insuranceFees == l.bank.insuranceFees + dust
  {
    var relieved := IncreaseSettles(l, i, repaid, RepayOnly);
    after := RelieveShape(l, i, repaid, tokens, dust, relieved);
    assert HoldsAsBefore(l.SetAccount(i, relieved), after);
  }

  lemma BothMoved(l: Ledger, m: Ledger, after: Ledger, i: nat, j: nat)
    requires Untouched(l.balances, m.balances, {i}) && Untouched(m.balances, after.balances, {j})
    requires HoldsAsBefore(l, m) && HoldsAsBefore(m, after)
    ensures Untouched(l.balances, after.balances, {i, j}) && HoldsAsBefore(l, after)
  {
  }

  /** Over every successful step. */
  lemma StepSettles(l: Ledger, op: Op)
    requires Inv(l)
    ensures Step(l, op).Ok? ==> Settles(l, op, Step(l, op).value)
  {
    if Step(l, op).Ok? {
      SuccessSettles(l, op);
    }
  }

  lemma SuccessSettles(l: Ledger, op: Op)
    requires Inv(l) && Step(l, op).Ok?
    ensures Settles(l, op, Step(l, op).value)
  {
    match op
    case OpDeposit(i, amount, upToLimit, now, group) => DepositSettles(l, i, amount, upToLimit, now, group);
    case OpWithdraw(i, amount) => WithdrawSettles(l, i, amount);
    case OpWithdrawAll(i) => WithdrawAllSettles(l, i);
    case OpBorrow(i, amount, group) => BorrowSettles(l, i, amount, group);
    case OpRepay(i, amount) => RepaySettles(l, i, amount);
    case OpRepayAll(i) => RepayAllSettles(l, i);
    case OpCloseBalance(i) => CloseBalanceSettles(l, i);
    case OpAccrue(now, group) => AccrueSettles(l, now, group);
    case OpCollectFees => CollectFeesSettles(l);
    case OpHandleBankruptcy(i, equity) => var after := BankruptcySettles(l, i, equity);
    case OpLiquidateAsset(liquidator, liquidatee, amount) => LiquidateAssetSettles(l, liquidator, liquidatee, amount);
    case OpLiquidateDebt(liquidator, liquidatee, taken, repaid) => LiquidateDebtSettles(l, liquidator, liquidatee, taken, repaid);
  }

  // ---- Whole runs ----

  function TotalForgottenAssets(l: Ledger, ops: seq<Op>): int
    decreases |ops|
  {
    if ops == [] then 0
    else (if Step(l, ops[0]).Ok? then ForgottenAssets(l, ops[0]) else 0) + TotalForgottenAssets(Apply(l, ops[0]), ops[1..])
  }

  function TotalForgottenLiabilities(l: Ledger, ops: seq<Op>): int
    decreases |ops|
  {
    if ops == [] then 0
    else (if Step(l, ops[0]).Ok? then ForgottenLiabilities(l, ops[0]) else 0) + TotalForgottenLiabilities(Apply(l, ops[0]), ops[1..])
  }

  /** Over every run the shares nobody holds grow by the forgotten dust and by nothing else. */
  lemma {:induction false} RunHolds(l: Ledger, ops: seq<Op>)
    requires Inv(l)
    ensures UnheldAssets(Run(l, ops)) == UnheldAssets(l) + TotalForgottenAssets(l, ops)
    ensures UnheldLiabilities(Run(l, ops)) == UnheldLiabilities(l) + TotalForgottenLiabilities(l, ops)
    decreases |ops|
  {
    if ops != [] {
      StepConserves(l, ops[0]);
      StepSettles(l, ops[0]);
      RunHolds(Apply(l, ops[0]), ops[1..]);
    }
  }

  /** Only these three instructions close a balance. */
  predicate Closes(op: Op) {
    op.OpCloseBalance? || op.OpWithdrawAll? || op.OpRepayAll?
  }

  lemma {:induction false} NothingForgotten(l: Ledger, ops: seq<Op>)
    requires forall k :: 0 <= k < |ops| ==> !Closes(ops[k])
    ensures TotalForgottenAssets(l, ops) == 0 && TotalForgottenLiabilities(l, ops) == 0
    decreases |ops|
  {
    if ops != [] {
      NothingForgotten(Apply(l, ops[0]), ops[1..]);
    }
  }

  /** From a new bank the totals are the sums of the balances and the forgotten dust; without closing, the sums exactly. */
  lemma TotalsAreSums(config: BankConfig, mintDecimals: nat, now: int, users: nat, insurance: nat, ops: seq<Op>)
    requires ValidSevenPoint(config.interestRateConfig.curve)
    ensures var l := Fresh(config, mintDecimals, now, users, insurance);
      && Run(l, ops).bank.totalAssetShares == TotalAssets(Run(l, ops).balances) + TotalForgottenAssets(l, ops)
      && Run(l, ops).bank.totalLiabilityShares == TotalLiabilities(Run(l, ops).balances) + TotalForgottenLiabilities(l, ops)
      && ((forall k :: 0 <= k < |ops| ==> !Closes(ops[k])) ==>
            TotalForgottenAssets(l, ops) == 0 && TotalForgottenLiabilities(l, ops) == 0)
  {
    var l := Fresh(config, mintDecimals, now, users, insurance);
    FreshIsBalanced(config, mintDecimals, now, users, insurance);
    EmptyTotals(users);
    RunHolds(l, ops);
    if forall k :: 0 <= k < |ops| ==> !Closes(ops[k]) {
      NothingForgotten(l, ops);
    }
  }
}
