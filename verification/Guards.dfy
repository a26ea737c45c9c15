/**
 When exactly an instruction refuses: the limits of a bank, and the kind of balance change asked
 for. Each guard is stated on the amounts a caller can see.
 */
module Guards {
  import opened Wrappers
  import opened FixedPoint
  import opened BankLedger
  import opened BankProperties
  import opened BankAccount
  import opened LendingLedger
  import opened Conservation
  import opened Positions

  // ---- The borrow limit ----

  /** Debt shares added without bypass fail on an active limit exactly when they can be counted and all debt would reach it. */
  lemma DebtRejectedExactly(st: BankState, shares: I80F48)
    requires shares > 0 && st.config.IsBorrowLimitActive()
    ensures st.ChangeLiabilityShares(shares, false) == Err(BankLiabilityCapacityExceeded) <==>
      && Fits(st.totalLiabilityShares + shares) && Fits(Mul(st.totalLiabilityShares + shares, st.liabilityShareValue))
      && Mul(st.totalLiabilityShares + shares, st.liabilityShareValue) >= FromInt(st.config.borrowLimit)
  {
  }

  /** With bypass, with no active limit, or when shares are burnt, the limits never fail a change. */
  lemma LimitsDoNotApply(st: BankState, shares: I80F48, bypass: bool)
    ensures bypass || shares <= 0 || !st.config.IsBorrowLimitActive() ==>
      (st.ChangeLiabilityShares(shares, bypass).Ok? <==> Fits(st.totalLiabilityShares + shares))
    ensures bypass || shares <= 0 || !st.config.IsDepositLimitActive() ==>
      (st.ChangeAssetShares(shares, bypass).Ok? <==> Fits(st.totalAssetShares + shares))
  {
  }

  lemma DecreaseWithinLimit(acc: Account, delta: I80F48, kind: BalanceDecreaseType)
    requires acc.bank.config.IsBorrowLimitActive() && !kind.BypassBorrowLimit? && acc.DecreaseBalance(delta, kind).Ok?
    ensures var after := acc.DecreaseBalance(delta, kind).value;
      after.bank.totalLiabilityShares > acc.bank.totalLiabilityShares ==> Debts(after.bank) < FromInt(after.bank.config.borrowLimit)
  {
  }

  /** A borrow that adds debt leaves all debt below an active limit. */
  lemma BorrowStaysWithinLimit(l: Ledger, i: nat, amount: nat, group: GroupFees)
    requires l.bank.config.IsBorrowLimitActive() && l.Borrow(i, amount, group).Ok?
    ensures var after := l.Borrow(i, amount, group).value.bank;
      after.totalLiabilityShares > l.bank.totalLiabilityShares ==> Debts(after) < FromInt(l.bank.config.borrowLimit)
  {
    var fee, borrowed := BorrowIsDecrease(l, i, amount, group);
    BorrowedWithinLimit(l, i, amount, fee, group.programFeeRate, borrowed);
  }

  lemma BorrowedWithinLimit(l: Ledger, i: nat, amount: nat, fee: I80F48, rate: nat, borrowed: Account)
    requires l.bank.config.IsBorrowLimitActive() && i < |l.balances| && l.PayBorrow(i, amount, fee, rate, borrowed).Ok?
    requires Account(l.bank, l.balances[i]).DecreaseBalance(FromInt(amount) + fee, BorrowOnly) == Ok(borrowed)
    ensures var after := l.PayBorrow(i, amount, fee, rate, borrowed).value.bank;
      after.totalLiabilityShares > l.bank.totalLiabilityShares ==> Debts(after) < FromInt(l.bank.config.borrowLimit)
  {
    DecreaseWithinLimit(Account(l.bank, l.balances[i]), FromInt(amount) + fee, BorrowOnly);
    ChangesNoConfig(Account(l.bank, l.balances[i]), FromInt(amount) + fee, BorrowOnly);
    CreditKeepsDebts(l, i, amount, fee, rate, borrowed);
  }

  lemma BorrowIsDecrease(l: Ledger, i: nat, amount: nat, group: GroupFees) returns (fee: I80F48, borrowed: Account)
    requires l.Borrow(i, amount, group).Ok?
    ensures i < |l.balances|
    ensures Account(l.bank, l.balances[i]).DecreaseBalance(FromInt(amount) + fee, BorrowOnly) == Ok(borrowed)
    ensures l.Borrow(i, amount, group) == l.PayBorrow(i, amount, fee, group.programFeeRate, borrowed)
  {
    fee := l.OriginationFee(amount).value;
    borrowed := Account(l.bank, l.balances[i]).DecreaseBalance(FromInt(amount) + fee, BorrowOnly).value;
  }

  lemma ChangesNoConfig(acc: Account, delta: I80F48, kind: BalanceDecreaseType)
    requires acc.DecreaseBalance(delta, kind).Ok?
    ensures acc.DecreaseBalance(delta, kind).value.bank.config == acc.bank.config
  {
  }

  lemma CreditKeepsDebts(l: Ledger, i: nat, amount: nat, fee: I80F48, rate: nat, borrowed: Account)
    requires i < |l.balances| && l.PayBorrow(i, amount, fee, rate, borrowed).Ok?
    ensures var after := l.PayBorrow(i, amount, fee, rate, borrowed).value.bank;
      Debts(after) == Debts(borrowed.bank) && after.totalLiabilityShares == borrowed.bank.totalLiabilityShares
  {
  }

  lemma IncreaseHasNoLimit(acc: Account, delta: I80F48)
    ensures acc.IncreaseBalance(delta, BypassDepositLimit) != Err(BankAssetCapacityExceeded)
    ensures acc.IncreaseBalance(delta, RepayOnly) != Err(BankLiabilityCapacityExceeded)
  {
  }

  lemma DecreaseHasNoBorrowLimit(acc: Account, delta: I80F48)
    ensures acc.DecreaseBalance(delta, BypassBorrowLimit) != Err(BankLiabilityCapacityExceeded)
  {
  }

  lemma DecreaseHasNoDepositLimit(acc: Account, delta: I80F48)
    requires acc.bank.Valid() && acc.balance.NonNegative() && delta >= 0
    ensures acc.DecreaseBalance(delta, BypassBorrowLimit) != Err(BankAssetCapacityExceeded)
  {
    var assets := Mul(acc.balance.assetShares, acc.bank.assetShareValue);
    MulNonNegative(acc.balance.assetShares, acc.bank.assetShareValue);
    if acc.bank.assetShareValue > 0 {
      DivIsFloor(Min(assets, delta), acc.bank.assetShareValue);
    }
  }

  /** A liquidator receives assets whatever the deposit limit. */
  lemma SeizureBypassesLimit(l: Ledger, liquidator: nat, liquidatee: nat, amount: nat)
    requires Inv(l)
    ensures l.LiquidateAsset(liquidator, liquidatee, amount) != Err(BankAssetCapacityExceeded)
  {
    if liquidatee < |l.balances| {
      var acc := Account(l.bank, l.balances[liquidatee]);
      DecreaseHasNoDepositLimit(acc, FromInt(amount));
      if acc.DecreaseBalance(FromInt(amount), BypassBorrowLimit).Ok? {
        ReceiptHasNoLimit(l.SetAccount(liquidatee, acc.DecreaseBalance(FromInt(amount), BypassBorrowLimit).value), liquidator, amount);
      }
    }
  }

  lemma ReceiptHasNoLimit(l: Ledger, i: nat, amount: nat)
    ensures l.Receive(i, amount) != Err(BankAssetCapacityExceeded)
  {
    if i < |l.balances| {
      IncreaseHasNoLimit(Account(l.bank, l.balances[i]), FromInt(amount));
    }
  }

  /** A liquidator takes on debt whatever the borrow limit. */
  lemma TakenDebtBypassesLimit(l: Ledger, liquidator: nat, liquidatee: nat, taken: nat, repaid: nat)
    ensures l.LiquidateDebt(liquidator, liquidatee, taken, repaid) != Err(BankLiabilityCapacityExceeded)
  {
    if liquidator < |l.balances| && taken >= repaid && CheckedToU64(taken - repaid).Some? {
      var acc, tokens := Account(l.bank, l.balances[liquidator]), CheckedToU64(taken - repaid).value;
      DecreaseHasNoBorrowLimit(acc, taken);
      if acc.DecreaseBalance(taken, BypassBorrowLimit).Ok? {
        ReliefHasNoLimit(l.SetAccount(liquidator, acc.DecreaseBalance(taken, BypassBorrowLimit).value), liquidatee, repaid, tokens,
                         taken - repaid - FromInt(tokens));
      }
    } else if liquidator < |l.balances| {
      DecreaseHasNoBorrowLimit(Account(l.bank, l.balances[liquidator]), taken);
    }
  }

  lemma ReliefHasNoLimit(l: Ledger, i: nat, repaid: nat, tokens: nat, dust: I80F48)
    ensures l.Relieve(i, repaid, tokens, dust) != Err(BankLiabilityCapacityExceeded)
  {
    if i < |l.balances| {
      IncreaseHasNoLimit(Account(l.bank, l.balances[i]), repaid);
    }
  }

  /** Any increase that does not bypass the deposit limit leaves deposits below it where it adds asset shares. */
  lemma IncreaseWithinLimit(acc: Account, delta: I80F48, kind: BalanceIncreaseType, limit: I80F48)
    requires acc.bank.config.IsDepositLimitActive() && acc.bank.DepositLimit() == Ok(limit)
    requires !kind.BypassDepositLimit? && acc.IncreaseBalance(delta, kind).Ok?
    ensures var after := acc.IncreaseBalance(delta, kind).value;
      after.bank.totalAssetShares > acc.bank.totalAssetShares ==> Deposits(after.bank) < limit
  {
  }

  /** Utilization is refused only where debts exceed deposits, and never where the borrow limit is bypassed. */
  lemma UtilizationRefused(acc: Account, delta: I80F48)
    ensures acc.DecreaseBalance(delta, BypassBorrowLimit) != Err(IllegalUtilizationRatio)
    ensures forall st: BankState :: st.CheckUtilizationRatio() == Err(IllegalUtilizationRatio) <==>
              Fits(Deposits(st)) && Fits(Debts(st)) && Debts(st) > Deposits(st)
  {
  }

  // ---- The kind of change ----

  /** A withdrawal is refused exactly when it would borrow the threshold or more. */
  lemma WithdrawRefusedExactly(acc: Account, delta: I80F48)
    ensures var held := Mul(acc.balance.assetShares, acc.bank.assetShareValue);
      acc.DecreaseBalance(delta, WithdrawOnly) == Err(OperationWithdrawOnly) <==>
        Fits(held) && Fits(delta - held) && delta - held >= ZERO_AMOUNT_THRESHOLD
  {
  }

  /** A borrow is refused exactly when it would withdraw the threshold or more. */
  lemma BorrowRefusedExactly(acc: Account, delta: I80F48)
    requires delta >= 0 && acc.bank.Valid() && acc.balance.NonNegative()
    ensures var held := Mul(acc.balance.assetShares, acc.bank.assetShareValue);
      acc.DecreaseBalance(delta, BorrowOnly) == Err(OperationBorrowOnly) <==>
        Fits(held) && Fits(delta - held) && held >= ZERO_AMOUNT_THRESHOLD && delta >= ZERO_AMOUNT_THRESHOLD
  {
    MulNonNegative(acc.balance.assetShares, acc.bank.assetShareValue);
  }

  /** A repayment is refused exactly when it would deposit the threshold or more. */
  lemma RepayRefusedExactly(acc: Account, delta: I80F48)
    ensures var owed := Mul(acc.balance.liabilityShares, acc.bank.liabilityShareValue);
      acc.IncreaseBalance(delta, RepayOnly) == Err(OperationRepayOnly) <==>
        Fits(owed) && Fits(delta - owed) && delta - owed >= ZERO_AMOUNT_THRESHOLD
  {
  }

  /** A deposit is refused exactly when it would repay the threshold or more. */
  lemma DepositRefusedExactly(acc: Account, delta: I80F48)
    requires delta >= 0 && acc.bank.Valid() && acc.balance.NonNegative()
    ensures var owed := Mul(acc.balance.liabilityShares, acc.bank.liabilityShareValue);
      acc.IncreaseBalance(delta, DepositOnly) == Err(OperationDepositOnly) <==>
        Fits(owed) && Fits(delta - owed) && owed >= ZERO_AMOUNT_THRESHOLD && delta >= ZERO_AMOUNT_THRESHOLD
  {
    MulNonNegative(acc.balance.liabilityShares, acc.bank.liabilityShareValue);
  }

  /** A full withdrawal is refused exactly without assets above the threshold or with debt from it on; a full repayment the other way round. */
  lemma FullOperationsRefusedExactly(acc: Account)
    requires acc.bank.Valid() && acc.balance.NonNegative()
    ensures var held, owed := Mul(acc.balance.assetShares, acc.bank.assetShareValue), Mul(acc.balance.liabilityShares, acc.bank.liabilityShareValue);
      && (acc.WithdrawAll() == Err(NoAssetFound) <==>
            Fits(held) && Fits(owed) && (held <= ZERO_AMOUNT_THRESHOLD || owed >= ZERO_AMOUNT_THRESHOLD))
      && (acc.RepayAll() == Err(NoLiabilityFound) <==>
            Fits(held) && Fits(owed) && (owed <= ZERO_AMOUNT_THRESHOLD || held >= ZERO_AMOUNT_THRESHOLD))
      && (acc.CloseBalance() == Err(IllegalBalanceState) <==>
            Fits(held) && Fits(owed) && (held >= ZERO_AMOUNT_THRESHOLD || owed >= ZERO_AMOUNT_THRESHOLD))
  {
    MulNonNegative(acc.balance.assetShares, acc.bank.assetShareValue);
    MulNonNegative(acc.balance.liabilityShares, acc.bank.liabilityShareValue);
  }

  // ---- Liquidation and bankruptcy ----

  /** Nobody can seize more than there is. */
  lemma OverliquidationRefusedExactly(l: Ledger, liquidator: nat, liquidatee: nat, amount: nat)
    requires amount > 0 && liquidator != liquidatee && liquidatee < |l.balances|
    ensures var held := Mul(l.balances[liquidatee].assetShares, l.bank.assetShareValue);
      l.LiquidateAsset(liquidator, liquidatee, amount) == Err(OverliquidationAttempt) <==> Fits(held) && held < FromInt(amount)
  {
    OtherErrors(Account(l.bank, l.balances[liquidatee]), FromInt(amount));
    if Account(l.bank, l.balances[liquidatee]).DecreaseBalance(FromInt(amount), BypassBorrowLimit).Ok? {
      var m := l.SetAccount(liquidatee, Account(l.bank, l.balances[liquidatee]).DecreaseBalance(FromInt(amount), BypassBorrowLimit).value);
      if liquidator < |l.balances| {
        OtherErrors(Account(m.bank, m.balances[liquidator]), FromInt(amount));
      }
    }
  }

  /** With a native deposit limit, a liquidation panics exactly when the liquidatee would be relieved of more than the liquidator takes on. */
  lemma LiquidationPanicsExactly(l: Ledger, liquidator: nat, liquidatee: nat, taken: nat, repaid: nat)
    requires liquidator != liquidatee && !l.bank.config.isDrift
    ensures l.LiquidateDebt(liquidator, liquidatee, taken, repaid) == Err(Panic) <==> taken < repaid
  {
    if liquidator < |l.balances| && taken >= repaid {
      var acc := Account(l.bank, l.balances[liquidator]);
      DecreaseNeverPanics(acc, taken);
      if acc.DecreaseBalance(taken, BypassBorrowLimit).Ok? && CheckedToU64(taken - repaid).Some? {
        var tokens := CheckedToU64(taken - repaid).value;
        ReliefNeverPanics(l.SetAccount(liquidator, acc.DecreaseBalance(taken, BypassBorrowLimit).value), liquidatee, repaid, tokens,
                          taken - repaid - FromInt(tokens));
      }
    }
  }

  lemma DecreaseNeverPanics(acc: Account, delta: I80F48)
    requires !acc.bank.config.isDrift
    ensures acc.DecreaseBalance(delta, BypassBorrowLimit) != Err(Panic)
    ensures acc.DecreaseBalance(delta, BypassBorrowLimit).Ok? ==>
      !acc.DecreaseBalance(delta, BypassBorrowLimit).value.bank.config.isDrift
  {
  }

  lemma ReliefNeverPanics(l: Ledger, i: nat, repaid: nat, tokens: nat, dust: I80F48)
    requires !l.bank.config.isDrift
    ensures l.Relieve(i, repaid, tokens, dust) != Err(Panic)
  {
    if i < |l.balances| {
      RepaymentNeverPanics(Account(l.bank, l.balances[i]), repaid);
    }
  }

  lemma RepaymentNeverPanics(acc: Account, delta: I80F48)
    requires !acc.bank.config.isDrift
    ensures acc.IncreaseBalance(delta, RepayOnly) != Err(Panic)
  {
  }

  /** Debt at or below the threshold is not bad debt. */
  lemma BadDebtRefusedExactly(l: Ledger, i: nat, equity: Equity)
    requires i < |l.balances| && equity.CheckBankrupt().Ok?
    ensures var owed := Mul(l.balances[i].liabilityShares, l.bank.liabilityShareValue);
      l.HandleBankruptcy(i, equity) == Err(BalanceNotBadDebt) <==> Fits(owed) && owed <= ZERO_AMOUNT_THRESHOLD
  {
    var owed := Mul(l.balances[i].liabilityShares, l.bank.liabilityShareValue);
    if l.bank.SocializeLoss(Max(owed - Covered(l, i), 0)).Ok? {
      RepaymentErrors(Account(l.bank.SocializeLoss(Max(owed - Covered(l, i), 0)).value.0, l.balances[i]), owed);
    }
  }

  lemma RepaymentErrors(acc: Account, delta: I80F48)
    ensures acc.IncreaseBalance(delta, RepayOnly) != Err(BalanceNotBadDebt)
  {
  }

  lemma OtherErrors(acc: Account, delta: I80F48)
    ensures acc.DecreaseBalance(delta, BypassBorrowLimit) != Err(OverliquidationAttempt)
    ensures acc.IncreaseBalance(delta, BypassDepositLimit) != Err(OverliquidationAttempt)
    ensures acc.IncreaseBalance(delta, RepayOnly) != Err(AccountNotBankrupt)
  {
  }

  /** An account with a tenth of a dollar or more, or with less debt than assets, or next to none, is not found bankrupt. */
  lemma BankruptcyRefusedExactly(l: Ledger, i: nat, equity: Equity)
    requires i < |l.balances|
    ensures l.HandleBankruptcy(i, equity) == Err(AccountNotBankrupt) <==>
      equity.assets >= equity.liabilities || equity.assets >= BANKRUPT_THRESHOLD || equity.liabilities <= ZERO_AMOUNT_THRESHOLD
  {
    if l.bank.SocializeLoss(Max(Mul(l.balances[i].liabilityShares, l.bank.liabilityShareValue) - Covered(l, i), 0)).Ok? {
      var wounded := l.bank.SocializeLoss(Max(Mul(l.balances[i].liabilityShares, l.bank.liabilityShareValue) - Covered(l, i), 0)).value.0;
      OtherErrors(Account(wounded, l.balances[i]), Mul(l.balances[i].liabilityShares, l.bank.liabilityShareValue));
    }
  }

  // ---- What a deposit takes ----

  /** All of the amount, or, up to the limit, as much of it as the capacity before the accrual. */
  lemma DepositTakes(l: Ledger, amount: nat, upToLimit: bool)
    ensures !upToLimit ==> l.Deposited(amount, upToLimit) == Ok(amount)
    ensures upToLimit ==> (l.Deposited(amount, upToLimit).Err? <==> l.bank.GetRemainingDepositCapacity().Err?)
    ensures upToLimit && l.Deposited(amount, upToLimit).Ok? ==>
      var tokens, capacity := l.Deposited(amount, upToLimit).value, l.bank.GetRemainingDepositCapacity().value;
      tokens <= amount && tokens <= capacity && (tokens == amount || tokens == capacity)
  {
  }

  // ---- The origination fee ----

  /** The fee is exactly the amount times the rate; it fails exactly when that is no 128-bit number or its tokens no 64-bit one. */
  lemma OriginationFeeIsExact(l: Ledger, amount: nat)
    ensures var product := amount * l.bank.config.interestRateConfig.protocolOriginationFee;
      && (l.OriginationFee(amount).Ok? <==> product <= MAX_BITS && product / ONE <= U64_MAX)
      && (l.OriginationFee(amount).Ok? ==> l.OriginationFee(amount).value == product)
  {
    var rate := l.bank.config.interestRateConfig.protocolOriginationFee;
    MulNonNeg(amount, rate);
    FloorIsGreatest(amount * rate, ONE, 0);
    assert FromInt(amount) * rate == amount * rate * ONE;
  }

  /** Where both totals have room, the program gets its share of the fee and the group the rest. */
  lemma FeeIsShared(l: Ledger, i: nat, amount: nat, group: GroupFees)
    requires Inv(l) && l.Borrow(i, amount, group).Ok? && group.programFeeRate <= ONE
    requires 0 <= l.bank.groupFees && 0 <= l.bank.programFees
    ensures var fee, after := l.OriginationFee(amount).value, l.Borrow(i, amount, group).value.bank;
      var share := Mul(fee, group.programFeeRate);
      && 0 <= share <= fee
      && (l.bank.groupFees + fee - share <= MAX_BITS && l.bank.programFees + share <= MAX_BITS ==>
            after.programFees == l.bank.programFees + share && after.groupFees == l.bank.groupFees + fee - share)
  {
    var fee, borrowed := BorrowSteps(l, i, amount, group);
    OriginationFeeIsNonNegative(l, amount);
    MulNonNegative(fee, group.programFeeRate);
    MulIsMonotone(group.programFeeRate, ONE, fee);
    assert Mul(fee, ONE) == fee;
    ShareIsPaid(l, i, amount, fee, group.programFeeRate, borrowed);
  }

  lemma ShareIsPaid(l: Ledger, i: nat, amount: nat, fee: I80F48, rate: nat, borrowed: Account)
    requires i < |l.balances| && l.PayBorrow(i, amount, fee, rate, borrowed).Ok? && SharesOnly(l.bank, borrowed.bank)
    requires 0 <= Mul(fee, rate) <= fee <= MAX_BITS && 0 <= l.bank.groupFees && 0 <= l.bank.programFees
    ensures var share, after := Mul(fee, rate), l.PayBorrow(i, amount, fee, rate, borrowed).value.bank;
      l.bank.groupFees + fee - share <= MAX_BITS && l.bank.programFees + share <= MAX_BITS ==>
        after.programFees == l.bank.programFees + share && after.groupFees == l.bank.groupFees + fee - share
  {
  }
}
