/**
 The end-of-run comparison of vault and books under the fuzzer's tolerance of one token: it
 holds while the rounding allowances stay below a token, and two bankruptcies can break it.
 */
module FuzzerTolerance {
  import opened Wrappers
  import opened FixedPoint
  import opened InterestCurve
  import opened BankLedger
  import opened BankAccount
  import opened LendingLedger
  import opened Conservation

  /** While excesses and rounding add up to less than a token either way, so does the difference, bankruptcies included. */
  lemma WithinOneToken(config: BankConfig, mintDecimals: nat, now: int, users: nat, insurance: nat, ops: seq<Op>)
    requires ValidSevenPoint(config.interestRateConfig.curve)
    requires var l := Fresh(config, mintDecimals, now, users, insurance);
      -ONE * ONE < TotalExcess(l, ops) - TotalShortfall(l, ops) && TotalExcess(l, ops) + TotalSurplus(l, ops) < ONE * ONE
    ensures -ONE <= Measured(Run(Fresh(config, mintDecimals, now, users, insurance), ops)) <= ONE
  {
    VaultMatchesBooks(config, mintDecimals, now, users, insurance, ops);
  }

  /** And once the excesses pass a token by more than the rounding can undo, the tolerance is broken. */
  lemma BeyondOneToken(config: BankConfig, mintDecimals: nat, now: int, users: nat, insurance: nat, ops: seq<Op>)
    requires ValidSevenPoint(config.interestRateConfig.curve)
    ensures var l := Fresh(config, mintDecimals, now, users, insurance);
      && (TotalExcess(l, ops) - TotalShortfall(l, ops) >= ONE * ONE + ONE ==> Measured(Run(l, ops)) > ONE)
      && (TotalExcess(l, ops) + TotalSurplus(l, ops) <= -ONE * ONE - ONE ==> Measured(Run(l, ops)) < -ONE)
  {
    VaultMatchesBooks(config, mintDecimals, now, users, insurance, ops);
  }

  /** No limits, no interest, and a borrow fee of one 64th. */
  function FlatConfig(): BankConfig {
    BankConfig(U64_MAX, U64_MAX, false,
               InterestRateConfig(Curve(0, 0, []), 0, 0, 0, 0, ONE / 64))
  }

  /** A flat bank holding four deposited tokens, with each borrower's debt and the sizes of both vaults. */
  function FlatLedger(debts: seq<int>, fees: I80F48, vault: nat, insurance: nat): Ledger
    requires |debts| == 2
  {
    Ledger(NewBank(FlatConfig(), 6, 0).(totalAssetShares := FromInt(4), totalLiabilityShares := debts[0] + debts[1], groupFees := fees),
           [Balance(FromInt(4), 0), Balance(0, debts[0]), Balance(0, debts[1])], vault, insurance, 0, 0)
  }

  /** A user who owes one dollar and has nothing. */
  const NOTHING_BUT_DEBT := Equity(0, ONE)

  const NO_PROGRAM_FEES := GroupFees(false, 0, 0)

  /** One token and the fee of one 64th. */
  const FLAT_DEBT: int := 65 * (ONE / 64)

  lemma FlatDeposit()
    ensures Reaches(Fresh(FlatConfig(), 6, 0, 3, 4), FlatLedger([0, 0], 0, 4, 4))
  {
    var l := Fresh(FlatConfig(), 6, 0, 3, 4);
    var funded := Account(l.bank.(totalAssetShares := FromInt(4)), Balance(FromInt(4), 0));
    DepositAtPar(l.bank, FromInt(4));
    assert l.balances[0 := funded.balance] == FlatLedger([0, 0], 0, 4, 4).balances;
    DepositReaches(l, 0, 4, 0, NO_PROGRAM_FEES, funded);
  }

  lemma DepositReaches(l: Ledger, i: nat, amount: nat, now: int, group: GroupFees, after: Account)
    requires amount > 0 && now == l.bank.lastUpdate && i < |l.balances|
    requires Account(l.bank, l.balances[i]).IncreaseBalance(FromInt(amount), DepositOnly) == Ok(after)
    ensures Reaches(l, l.SetAccount(i, after).(vault := l.vault + amount))
  {
    assert l.Accrue(now, group) == Ok(l);
    PutInResult(l, i, amount, after);
    ReachesNext(l, OpDeposit(i, amount, false, now, group));
  }

  lemma DepositAtPar(b: BankState, amount: I80F48)
    requires b.assetShareValue == ONE && b.liabilityShareValue == ONE && !b.config.IsDepositLimitActive()
    requires b.totalAssetShares == 0 && b.totalLiabilityShares == 0 && 0 <= amount <= FromInt(4)
    ensures Account(b, EMPTY_BALANCE).IncreaseBalance(amount, DepositOnly)
         == Ok(Account(b.(totalAssetShares := amount), Balance(amount, 0)))
  {
    UnitShares(amount);
    UnitShares(0);
  }

  lemma PutInResult(l: Ledger, i: nat, tokens: nat, after: Account)
    requires i < |l.balances| && Account(l.bank, l.balances[i]).IncreaseBalance(FromInt(tokens), DepositOnly) == Ok(after)
    ensures l.PutIn(i, tokens) == Ok(l.SetAccount(i, after).(vault := l.vault + tokens))
  {
  }

  /** Where a share is worth one token, amounts and shares are the same. */
  lemma UnitShares(x: int)
    requires Fits(x)
    ensures Mul(x, ONE) == x && Div(x, ONE) == x
  {
  }

  lemma FlatBorrow(debts: seq<int>, fees: nat, vault: nat, k: nat)
    requires |debts| == 2 && k < 2 && debts[k] == 0 && 0 <= debts[1 - k] <= FLAT_DEBT && fees <= ONE && vault > 0
    ensures Reaches(FlatLedger(debts, fees, vault, 4), FlatLedger(debts[k := FLAT_DEBT], fees + ONE / 64, vault - 1, 4))
  {
    var l, fee := FlatLedger(debts, fees, vault, 4), ONE / 64;
    FlatFee(l);
    var acc := Account(l.bank, Balance(0, 0));
    FlatAccount(debts, fees, vault, k);
    var borrowed := Account(l.bank.(totalLiabilityShares := l.bank.totalLiabilityShares + FLAT_DEBT), Balance(0, FLAT_DEBT));
    FlatDecrease(l.bank);
    FlatPayment(debts, fees, vault, k, borrowed);
    BorrowReaches(l, k + 1, 1, NO_PROGRAM_FEES, fee, acc, borrowed);
  }

  lemma FlatAccount(debts: seq<int>, fees: I80F48, vault: nat, k: nat)
    requires |debts| == 2 && k < 2 && debts[k] == 0
    ensures FlatLedger(debts, fees, vault, 4).GetAccount(k + 1) == Ok(Account(FlatLedger(debts, fees, vault, 4).bank, Balance(0, 0)))
  {
  }

  lemma FlatFee(l: Ledger)
    requires l.bank.config == FlatConfig()
    ensures l.OriginationFee(1) == Ok(ONE / 64)
  {
  }

  lemma BorrowReaches(l: Ledger, i: nat, amount: nat, group: GroupFees, fee: I80F48, acc: Account, borrowed: Account)
    requires l.GetAccount(i) == Ok(acc) && l.OriginationFee(amount) == Ok(fee) && Fits(FromInt(amount) + fee)
    requires acc.DecreaseBalance(FromInt(amount) + fee, BorrowOnly) == Ok(borrowed)
    requires l.PayBorrow(i, amount, fee, group.programFeeRate, borrowed).Ok?
    ensures Reaches(l, l.PayBorrow(i, amount, fee, group.programFeeRate, borrowed).value)
  {
    BorrowResult(l, i, amount, group, fee, acc, borrowed);
    ReachesNext(l, OpBorrow(i, amount, group));
  }

  lemma BorrowResult(l: Ledger, i: nat, amount: nat, group: GroupFees, fee: I80F48, acc: Account, borrowed: Account)
    requires l.GetAccount(i) == Ok(acc) && l.OriginationFee(amount) == Ok(fee) && Fits(FromInt(amount) + fee)
    requires acc.DecreaseBalance(FromInt(amount) + fee, BorrowOnly) == Ok(borrowed)
    ensures l.Borrow(i, amount, group) == l.PayBorrow(i, amount, fee, group.programFeeRate, borrowed)
  {
  }

  lemma FlatPayment(debts: seq<int>, fees: nat, vault: nat, k: nat, borrowed: Account)
    requires |debts| == 2 && k < 2 && debts[k] == 0 && fees <= ONE && vault > 0
    requires borrowed == Account(FlatLedger(debts, fees, vault, 4).bank.(totalLiabilityShares := debts[0] + debts[1] + FLAT_DEBT),
                                 Balance(0, FLAT_DEBT))
    ensures FlatLedger(debts, fees, vault, 4).PayBorrow(k + 1, 1, ONE / 64, 0, borrowed)
         == Ok(FlatLedger(debts[k := FLAT_DEBT], fees + ONE / 64, vault - 1, 4))
  {
    var l, target := FlatLedger(debts, fees, vault, 4), FlatLedger(debts[k := FLAT_DEBT], fees + ONE / 64, vault - 1, 4);
    assert l.balances[k + 1 := borrowed.balance] == target.balances;
    assert CreditOriginationFee(borrowed.bank, ONE / 64, 0) == target.bank;
  }

  lemma FlatDecrease(b: BankState)
    requires b.assetShareValue == ONE && b.liabilityShareValue == ONE && b.config == FlatConfig()
    requires b.totalAssetShares == FromInt(4) && 0 <= b.totalLiabilityShares <= FLAT_DEBT
    ensures Account(b, Balance(0, 0)).DecreaseBalance(FromInt(1) + ONE / 64, BorrowOnly)
         == Ok(Account(b.(totalLiabilityShares := b.totalLiabilityShares + FLAT_DEBT), Balance(0, FLAT_DEBT)))
  {
    UnitShares(FLAT_DEBT);
    UnitShares(FromInt(4));
    UnitShares(b.totalLiabilityShares + FLAT_DEBT);
  }

  lemma FlatBankruptcy(debts: seq<int>, fees: nat, vault: nat, insurance: nat, k: nat)
    requires |debts| == 2 && k < 2 && debts[k] == FLAT_DEBT && 0 <= debts[1 - k] <= FLAT_DEBT && insurance >= 2
    ensures Reaches(FlatLedger(debts, fees, vault, insurance), FlatLedger(debts[k := 0], fees, vault + 2, insurance - 2))
  {
    var l := FlatLedger(debts, fees, vault, insurance);
    var b := l.bank;
    UnitShares(FLAT_DEBT);
    assert b.GetLiabilityAmount(FLAT_DEBT) == Ok(FLAT_DEBT);
    assert Min(FLAT_DEBT, FromInt(insurance)) == FLAT_DEBT;
    assert CheckedToU64(Ceil(FLAT_DEBT)) == Some(2);
    assert b.SocializeLoss(0) == Ok((b, false));
    FlatIncrease(b);
    assert Apply(l, OpHandleBankruptcy(k + 1, NOTHING_BUT_DEBT)) == FlatLedger(debts[k := 0], fees, vault + 2, insurance - 2);
    ReachesNext(l, OpHandleBankruptcy(k + 1, NOTHING_BUT_DEBT));
  }

  lemma FlatIncrease(b: BankState)
    requires b.assetShareValue == ONE && b.liabilityShareValue == ONE && b.config == FlatConfig()
    requires b.totalAssetShares == FromInt(4) && FLAT_DEBT <= b.totalLiabilityShares <= 2 * FLAT_DEBT
    ensures Account(b, Balance(0, FLAT_DEBT)).IncreaseBalance(FLAT_DEBT, RepayOnly)
         == Ok(Account(b.(totalLiabilityShares := b.totalLiabilityShares - FLAT_DEBT), Balance(0, 0)))
  {
    UnitShares(FLAT_DEBT);
    UnitShares(0);
  }

  /**
   The fuzzer's tolerance of one token does not survive bankruptcies: each takes whole tokens
   from insurance for a fractional debt, so two of them leave the vault almost two tokens up.
   */
  lemma BankruptciesExceedTolerance()
    ensures exists l :: Reaches(Fresh(FlatConfig(), 6, 0, 3, 4), l) && Measured(l) == 126 * (ONE / 64)
  {
    FlatBorrows();
    FlatBankruptcies();
    FlatMeasure();
    var fees := 2 * (ONE / 64);
    ReachesOn(Fresh(FlatConfig(), 6, 0, 3, 4), FlatLedger([FLAT_DEBT, FLAT_DEBT], fees, 2, 4), FlatLedger([0, 0], fees, 6, 0));
  }

  lemma FlatBorrows()
    ensures Reaches(Fresh(FlatConfig(), 6, 0, 3, 4), FlatLedger([FLAT_DEBT, FLAT_DEBT], 2 * (ONE / 64), 2, 4))
  {
    var fee := ONE / 64;
    var funded, half := FlatLedger([0, 0], 0, 4, 4), FlatLedger([FLAT_DEBT, 0], fee, 3, 4);
    FlatDeposit();
    FlatBorrow([0, 0], 0, 4, 0);
    assert [0, 0][0 := FLAT_DEBT] == [FLAT_DEBT, 0];
    FlatBorrow([FLAT_DEBT, 0], fee, 3, 1);
    assert [FLAT_DEBT, 0][1 := FLAT_DEBT] == [FLAT_DEBT, FLAT_DEBT];
    ReachesOn(funded, half, FlatLedger([FLAT_DEBT, FLAT_DEBT], 2 * fee, 2, 4));
    ReachesOn(Fresh(FlatConfig(), 6, 0, 3, 4), funded, FlatLedger([FLAT_DEBT, FLAT_DEBT], 2 * fee, 2, 4));
  }

  lemma FlatBankruptcies()
    ensures Reaches(FlatLedger([FLAT_DEBT, FLAT_DEBT], 2 * (ONE / 64), 2, 4), FlatLedger([0, 0], 2 * (ONE / 64), 6, 0))
  {
    var fees := 2 * (ONE / 64);
    var borrowed, half := FlatLedger([FLAT_DEBT, FLAT_DEBT], fees, 2, 4), FlatLedger([0, FLAT_DEBT], fees, 4, 2);
    FlatBankruptcy([FLAT_DEBT, FLAT_DEBT], fees, 2, 4, 0);
    assert [FLAT_DEBT, FLAT_DEBT][0 := 0] == [0, FLAT_DEBT];
    FlatBankruptcy([0, FLAT_DEBT], fees, 4, 2, 1);
    assert [0, FLAT_DEBT][1 := 0] == [0, 0];
    ReachesOn(borrowed, half, FlatLedger([0, 0], fees, 6, 0));
  }

  lemma FlatMeasure()
    ensures Measured(FlatLedger([0, 0], 2 * (ONE / 64), 6, 0)) == 126 * (ONE / 64)
  {
  }
}
