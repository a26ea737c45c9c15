/** Which instructions move the share values, and that a bank whose deposits are worth nothing stays so. */
module ShareValues {
  import opened FixedPoint
  import opened BankLedger
  import opened BankProperties
  import opened BankAccount
  import opened LendingLedger
  import opened Conservation

  /** Once the share value of deposits is zero, no instruction brings it back. */
  lemma DeadBankStepStaysDead(l: Ledger, op: Op)
    requires Inv(l) && l.bank.assetShareValue == 0
    ensures Inv(Apply(l, op)) && Apply(l, op).bank.assetShareValue == 0
  {
    StepConserves(l, op);
    StepKeepsShareValue(l, op);
  }

  lemma {:induction false} DeadBankStaysDead(l: Ledger, ops: seq<Op>)
    requires Inv(l) && l.bank.assetShareValue == 0
    ensures Run(l, ops).bank.assetShareValue == 0
    decreases |ops|
  {
    if ops != [] {
      DeadBankStepStaysDead(l, ops[0]);
      DeadBankStaysDead(Apply(l, ops[0]), ops[1..]);
    }
  }

  /** The share values after a step against those before: only accruals raise them, alone or in a deposit, and only bankruptcies lower one. */
  predicate ShareValuesFollow(before: BankState, op: Op, after: BankState) {
    && (!op.OpAccrue? && !op.OpDeposit? ==> after.assetShareValue <= before.assetShareValue)
    && (!op.OpHandleBankruptcy? ==> after.assetShareValue >= before.assetShareValue)
    && (before.assetShareValue == 0 ==> after.assetShareValue == 0)
    && after.liabilityShareValue >= before.liabilityShareValue
  }

  lemma DepositRaisesShareValues(l: Ledger, i: nat, amount: nat, upToLimit: bool, now: int, group: GroupFees)
    requires Inv(l) && l.Deposit(i, amount, upToLimit, now, group).Ok?
    ensures ShareValuesFollow(l.bank, OpDeposit(i, amount, upToLimit, now, group), l.Deposit(i, amount, upToLimit, now, group).value.bank)
  {
    var tokens := l.Deposited(amount, upToLimit).value;
    if tokens != 0 {
      AccrualNeverDecreases(l.bank, now, group);
      AccrueConserves(l, now, group);
      var after := IncreaseMoves(l.Accrue(now, group).value, i, FromInt(tokens), DepositOnly);
    }
  }

  lemma RepaymentsKeepShareValues(l: Ledger, op: Op)
    requires Inv(l) && Step(l, op).Ok?
    requires op.OpRepay? || op.OpRepayAll? || op.OpCloseBalance? || op.OpCollectFees?
    ensures ShareValuesFollow(l.bank, op, Step(l, op).value.bank)
  {
    match op
    case OpRepay(i, amount) => var after := IncreaseMoves(l, i, FromInt(amount), RepayOnly);
    case OpRepayAll(i) => RepayAllEffect(l.GetAccount(i).value);
    case _ =>
  }

  lemma WithdrawalsKeepShareValues(l: Ledger, op: Op)
    requires Inv(l) && Step(l, op).Ok?
    requires op.OpWithdraw? || op.OpWithdrawAll? || op.OpBorrow?
    ensures ShareValuesFollow(l.bank, op, Step(l, op).value.bank)
  {
    match op
    case OpWithdraw(i, amount) => var after := DecreaseMoves(l, i, FromInt(amount), WithdrawOnly);
    case OpWithdrawAll(i) => WithdrawAllEffect(l.GetAccount(i).value);
    case OpBorrow(i, amount, group) => BorrowKeepsShareValues(l, i, amount, group);
  }

  lemma BorrowKeepsShareValues(l: Ledger, i: nat, amount: nat, group: GroupFees)
    requires Inv(l) && l.Borrow(i, amount, group).Ok?
    ensures var after := l.Borrow(i, amount, group).value.bank;
      after.assetShareValue == l.bank.assetShareValue && after.liabilityShareValue == l.bank.liabilityShareValue
  {
    var fee, borrowed := BorrowSteps(l, i, amount, group);
  }

  lemma LiquidationsKeepShareValues(l: Ledger, op: Op)
    requires Inv(l) && Step(l, op).Ok?
    requires op.OpLiquidateAsset? || op.OpLiquidateDebt?
    ensures ShareValuesFollow(l.bank, op, Step(l, op).value.bank)
  {
    match op
    case OpLiquidateAsset(liquidator, liquidatee, amount) =>
      var seized := DecreaseMoves(l, liquidatee, FromInt(amount), BypassBorrowLimit);
      var after := IncreaseMoves(l.SetAccount(liquidatee, seized), liquidator, FromInt(amount), BypassDepositLimit);
    case OpLiquidateDebt(liquidator, liquidatee, taken, repaid) =>
      var burdened := DecreaseMoves(l, liquidator, taken, BypassBorrowLimit);
      var after := IncreaseMoves(l.SetAccount(liquidator, burdened), liquidatee, repaid, RepayOnly);
  }

  lemma StepKeepsShareValue(l: Ledger, op: Op)
    requires Inv(l)
    ensures Step(l, op).Ok? ==> ShareValuesFollow(l.bank, op, Step(l, op).value.bank)
  {
    if Step(l, op).Ok? {
      SuccessKeepsShareValue(l, op);
    }
  }

  lemma SuccessKeepsShareValue(l: Ledger, op: Op)
    requires Inv(l) && Step(l, op).Ok?
    ensures ShareValuesFollow(l.bank, op, Step(l, op).value.bank)
  {
    match op
    case OpAccrue(now, group) => AccrualNeverDecreases(l.bank, now, group);
    case OpDeposit(i, amount, upToLimit, now, group) => DepositRaisesShareValues(l, i, amount, upToLimit, now, group);
    case OpHandleBankruptcy(i, equity) => BankruptcyShareValues(l, i, equity);
    case OpWithdraw(_, _) => WithdrawalsKeepShareValues(l, op);
    case OpWithdrawAll(_) => WithdrawalsKeepShareValues(l, op);
    case OpBorrow(_, _, _) => WithdrawalsKeepShareValues(l, op);
    case OpLiquidateAsset(_, _, _) => LiquidationsKeepShareValues(l, op);
    case OpLiquidateDebt(_, _, _, _) => LiquidationsKeepShareValues(l, op);
    case _ => RepaymentsKeepShareValues(l, op);
  }

  lemma BankruptcyShareValues(l: Ledger, i: nat, equity: Equity)
    requires Inv(l) && l.HandleBankruptcy(i, equity).Ok?
    ensures var after := l.HandleBankruptcy(i, equity).value.bank;
      0 <= after.assetShareValue <= l.bank.assetShareValue && after.liabilityShareValue == l.bank.liabilityShareValue
  {
    var badDebt, covered, tokens := BankruptcyShape(l, i, equity);
    var wounded, repaid, settled := SettlementSteps(l, i, badDebt, badDebt - covered, tokens);
  }
}
