/**
 Vault and books stay together over every run: each step moves their gap by an amount known
 before the call, up to explicit rounding, and the bank's totals always cover the balances.
 */
module Conservation {
  import opened Wrappers
  import opened FixedPoint
  import opened InterestCurve
  import opened InterestRate
  import opened BankLedger
  import opened BankProperties
  import opened BankAccount
  import opened LendingLedger

  // ---- Invariants ----

  function TotalAssets(bs: seq<Balance>): int {
    if bs == [] then 0 else bs[0].assetShares + TotalAssets(bs[1..])
  }

  function TotalLiabilities(bs: seq<Balance>): int {
    if bs == [] then 0 else bs[0].liabilityShares + TotalLiabilities(bs[1..])
  }

  /** No balance is negative, and the bank's totals cover what the balances hold. */
  ghost predicate Inv(l: Ledger) {
    && l.bank.Valid()
    && (forall i :: 0 <= i < |l.balances| ==> l.balances[i].NonNegative())
    && TotalAssets(l.balances) <= l.bank.totalAssetShares
    && TotalLiabilities(l.balances) <= l.bank.totalLiabilityShares
  }

  lemma {:induction false} TotalsAfterUpdate(bs: seq<Balance>, i: nat, b: Balance)
    requires i < |bs|
    ensures TotalAssets(bs[i := b]) == TotalAssets(bs) - bs[i].assetShares + b.assetShares
    ensures TotalLiabilities(bs[i := b]) == TotalLiabilities(bs) - bs[i].liabilityShares + b.liabilityShares
  {
    if i == 0 {
      assert bs[0 := b][1..] == bs[1..];
    } else {
      assert bs[i := b][1..] == bs[1..][i - 1 := b];
      TotalsAfterUpdate(bs[1..], i - 1, b);
    }
  }

  lemma {:induction false} TotalsCoverEach(bs: seq<Balance>, i: nat)
    requires i < |bs| && forall k :: 0 <= k < |bs| ==> bs[k].NonNegative()
    ensures bs[i].assetShares <= TotalAssets(bs) && bs[i].liabilityShares <= TotalLiabilities(bs)
    ensures TotalAssets(bs[1..]) >= 0 && TotalLiabilities(bs[1..]) >= 0
  {
    if |bs| > 1 {
      TotalsCoverEach(bs[1..], if i > 0 then i - 1 else 0);
    }
  }

  /** An account written back keeps the invariant when the totals absorbed what the balance lost or gained. */
  lemma AccountKeepsInv(l: Ledger, i: nat, after: Account)
    requires Inv(l) && i < |l.balances| && after.balance.NonNegative() && after.bank.Valid()
    requires after.bank.totalAssetShares - l.bank.totalAssetShares >= after.balance.assetShares - l.balances[i].assetShares
    requires after.bank.totalLiabilityShares - l.bank.totalLiabilityShares >= after.balance.liabilityShares - l.balances[i].liabilityShares
    ensures Inv(l.SetAccount(i, after))
  {
    TotalsAfterUpdate(l.balances, i, after.balance);
  }

  lemma MovedSharesKeepInv(l: Ledger, i: nat, after: Account, assetShares: int, liabilityShares: int)
    requires Inv(l) && i < |l.balances| && after.balance.NonNegative()
    requires MovesShares(Account(l.bank, l.balances[i]), after, assetShares, liabilityShares)
    ensures after.bank.Valid() && Inv(l.SetAccount(i, after))
  {
    TotalsCoverEach(l.balances, i);
    AccountKeepsInv(l, i, after);
  }

  // ---- The allowances ----

  /** What the vault holds beyond the books, in units of 2^-96 tokens. */
  function Gap(l: Ledger): int {
    FromInt(l.vault) * ONE - Books(l.bank)
  }

  /** What saturation cuts off a 128-bit result. */
  function CutOff(bits: int): int {
    bits - SaturatingAdd(bits, 0)
  }

  /** Origination fee lost where the group's share, the group's total or the program's total saturates. */
  function LostFee(b: BankState, fee: I80F48, programFee: I80F48): int {
    if fee == 0 then 0
    else CutOff(fee - programFee) + CutOff(b.groupFees + SaturatingAdd(fee, -programFee)) + CutOff(b.programFees + programFee)
  }

  function AccrualLoss(b: BankState, now: int, group: GroupFees): int {
    match AccrualRates(b, group)
    case Some(rates) => if now < b.lastUpdate then 0
                        else AccrualShortfall(b.totalLiabilityShares, Debts(b), rates, now - b.lastUpdate)
    case None => 0
  }

  function AccrualGain(b: BankState, now: int, group: GroupFees): int {
    match AccrualRates(b, group)
    case Some(rates) => if now < b.lastUpdate then 0
                        else AccrualSurplus(b.totalAssetShares, Deposits(b), Debts(b), rates, now - b.lastUpdate)
    case None => 0
  }

  /** What insurance covers of a bad debt. */
  function Covered(l: Ledger, i: nat): int
    requires i < |l.balances|
  {
    Min(Mul(l.balances[i].liabilityShares, l.bank.liabilityShareValue), FromInt(l.insuranceVault))
  }

  /** What a bankruptcy leaves unpaid: the loss beyond everything the depositors had. */
  function Deficit(l: Ledger, i: nat): int
    requires i < |l.balances|
  {
    Max(0, Mul(l.balances[i].liabilityShares, l.bank.liabilityShareValue) - Covered(l, i) - Deposits(l.bank))
  }

  /** What an increase of a balance leaves unbought. */
  function UnboughtBy(l: Ledger, i: nat, delta: I80F48): int {
    if i < |l.balances| then Unbought(l.bank, DepositedRest(Account(l.bank, l.balances[i]), delta)) else 0
  }

  /**
   How much a step moves the gap apart from rounding, known before the call: deposits into a
   dead bank, an origination fee lost to saturation, and in a bankruptcy the rounding up to
   whole tokens less what nobody pays.
   */
  function Excess(l: Ledger, op: Op): int {
    match op
    case OpDeposit(i, amount, upToLimit, now, group) =>
      (match l.Deposited(amount, upToLimit)
       case Ok(tokens) =>
         if tokens == 0 then 0
         else (match l.Accrue(now, group)
               case Ok(accrued) => UnboughtBy(accrued, i, FromInt(tokens))
               case Err(_) => 0)
       case Err(_) => 0)
    case OpRepay(i, amount) => UnboughtBy(l, i, FromInt(amount))
    case OpBorrow(_, amount, group) =>
      (match l.OriginationFee(amount)
       case Ok(fee) => LostFee(l.bank, fee, Mul(fee, group.programFeeRate)) * ONE
       case Err(_) => 0)
    case OpHandleBankruptcy(i, equity) =>
      if i < |l.balances| then (Ceil(Covered(l, i)) - Covered(l, i) - Deficit(l, i)) * ONE else 0
    case OpLiquidateDebt(_, liquidatee, _, repaid) => UnboughtBy(l, liquidatee, repaid)
    case _ => 0
  }

  /** How much the gap may fall short of that by rounding. */
  function Shortfall(l: Ledger, op: Op): int {
    match op
    case OpDeposit(_, _, _, now, group) => AccrualLoss(l.bank, now, group)
    case OpWithdraw(_, _) => ShareUnit(l.bank)
    case OpBorrow(_, _, _) => ShareUnit(l.bank)
    case OpRepayAll(_) => ONE
    case OpAccrue(now, group) => AccrualLoss(l.bank, now, group)
    case OpLiquidateAsset(_, _, _) => ShareUnit(l.bank)
    case OpLiquidateDebt(_, _, _, _) => ShareUnit(l.bank)
    case _ => 0
  }

  /** How much it may exceed it by rounding. */
  function Surplus(l: Ledger, op: Op): int {
    match op
    case OpDeposit(_, _, _, now, group) =>
      AccrualGain(l.bank, now, group) + (match l.Accrue(now, group) case Ok(accrued) => ShareUnit(accrued.bank) case Err(_) => 0)
    case OpRepay(_, _) => ShareUnit(l.bank)
    case OpWithdrawAll(_) => ONE
    case OpAccrue(now, group) => AccrualGain(l.bank, now, group)
    case OpHandleBankruptcy(_, _) => ONE + l.bank.totalAssetShares + l.bank.liabilityShareValue
    case OpLiquidateAsset(_, _, _) => ShareUnit(l.bank)
    case OpLiquidateDebt(_, _, _, _) => ShareUnit(l.bank)
    case _ => 0
  }

  /** One successful step keeps the invariant and moves the gap by its excess, up to its rounding allowances. */
  ghost predicate Conserves(l: Ledger, op: Op, after: Ledger) {
    && Inv(after)
    && 0 <= Shortfall(l, op) && 0 <= Surplus(l, op)
    && Excess(l, op) - Shortfall(l, op) <= Gap(after) - Gap(l) <= Excess(l, op) + Surplus(l, op)
  }

  // ---- Increases and decreases of one balance ----

  lemma IncreaseMoves(l: Ledger, i: nat, delta: I80F48, kind: BalanceIncreaseType) returns (after: Account)
    requires Inv(l) && i < |l.balances| && delta >= 0
    requires Account(l.bank, l.balances[i]).IncreaseBalance(delta, kind).Ok?
    ensures Account(l.bank, l.balances[i]).IncreaseBalance(delta, kind) == Ok(after)
    ensures Inv(l.SetAccount(i, after)) && SharesOnly(l.bank, after.bank)
    ensures -ShareUnit(l.bank) <= Books(after.bank) - Books(l.bank) - (delta * ONE - UnboughtBy(l, i, delta)) <= 0
  {
    var acc := Account(l.bank, l.balances[i]);
    after := acc.IncreaseBalance(delta, kind).value;
    IncreaseEffect(acc, delta, kind);
    MovedSharesKeepInv(l, i, after, after.balance.assetShares - acc.balance.assetShares,
                       after.balance.liabilityShares - acc.balance.liabilityShares);
  }

  lemma DecreaseMoves(l: Ledger, i: nat, delta: I80F48, kind: BalanceDecreaseType) returns (after: Account)
    requires Inv(l) && i < |l.balances| && delta >= 0
    requires Account(l.bank, l.balances[i]).DecreaseBalance(delta, kind).Ok?
    ensures Account(l.bank, l.balances[i]).DecreaseBalance(delta, kind) == Ok(after)
    ensures Inv(l.SetAccount(i, after)) && SharesOnly(l.bank, after.bank)
    ensures -delta * ONE <= Books(after.bank) - Books(l.bank) <= -delta * ONE + ShareUnit(l.bank)
  {
    var acc := Account(l.bank, l.balances[i]);
    after := acc.DecreaseBalance(delta, kind).value;
    DecreaseEffect(acc, delta, kind);
    MovedSharesKeepInv(l, i, after, after.balance.assetShares - acc.balance.assetShares,
                       after.balance.liabilityShares - acc.balance.liabilityShares);
  }

  /** Two banks that differ in their share totals only. */
  predicate SharesOnly(before: BankState, after: BankState) {
    after == before.(totalAssetShares := after.totalAssetShares, totalLiabilityShares := after.totalLiabilityShares)
  }

  // ---- Step by step ----

  lemma PutInMoves(l: Ledger, i: nat, tokens: nat)
    requires Inv(l) && l.PutIn(i, tokens).Ok?
    ensures var after := l.PutIn(i, tokens).value;
      Inv(after) && UnboughtBy(l, i, FromInt(tokens)) <= Gap(after) - Gap(l) <= UnboughtBy(l, i, FromInt(tokens)) + ShareUnit(l.bank)
  {
    var after := IncreaseMoves(l, i, FromInt(tokens), DepositOnly);
  }

  lemma DepositConserves(l: Ledger, i: nat, amount: nat, upToLimit: bool, now: int, group: GroupFees)
    requires Inv(l) && l.Deposit(i, amount, upToLimit, now, group).Ok?
    ensures Conserves(l, OpDeposit(i, amount, upToLimit, now, group), l.Deposit(i, amount, upToLimit, now, group).value)
  {
    var tokens := l.Deposited(amount, upToLimit).value;
    AllowancesAreNonNegative(l.bank, now, group);
    if l.Accrue(now, group).Ok? {
      var accrued := l.Accrue(now, group).value;
      AccrueConserves(l, now, group);
      if tokens != 0 {
        PutInMoves(accrued, i, tokens);
      }
    }
  }

  lemma RepayConserves(l: Ledger, i: nat, amount: nat)
    requires Inv(l) && l.Repay(i, amount).Ok?
    ensures Conserves(l, OpRepay(i, amount), l.Repay(i, amount).value)
  {
    var after := IncreaseMoves(l, i, FromInt(amount), RepayOnly);
  }

  lemma WithdrawConserves(l: Ledger, i: nat, amount: nat)
    requires Inv(l) && l.Withdraw(i, amount).Ok?
    ensures Conserves(l, OpWithdraw(i, amount), l.Withdraw(i, amount).value)
  {
    var after := DecreaseMoves(l, i, FromInt(amount), WithdrawOnly);
  }

  lemma BorrowConserves(l: Ledger, i: nat, amount: nat, group: GroupFees)
    requires Inv(l) && l.Borrow(i, amount, group).Ok?
    ensures Conserves(l, OpBorrow(i, amount, group), l.Borrow(i, amount, group).value)
  {
    var fee, borrowed := BorrowSteps(l, i, amount, group);
    PaidBorrowConserves(l, i, amount, group, fee, borrowed);
  }

  /** A borrow is a decrease by the amount and its fee, then the payment. */
  lemma BorrowSteps(l: Ledger, i: nat, amount: nat, group: GroupFees) returns (fee: I80F48, borrowed: Account)
    requires Inv(l) && l.Borrow(i, amount, group).Ok?
    ensures i < |l.balances| && l.OriginationFee(amount) == Ok(fee)
    ensures l.Borrow(i, amount, group) == l.PayBorrow(i, amount, fee, group.programFeeRate, borrowed)
    ensures Inv(l.SetAccount(i, borrowed)) && SharesOnly(l.bank, borrowed.bank)
    ensures -(FromInt(amount) + fee) * ONE <= Books(borrowed.bank) - Books(l.bank)
    ensures Books(borrowed.bank) - Books(l.bank) <= -(FromInt(amount) + fee) * ONE + ShareUnit(l.bank)
  {
    OriginationFeeIsNonNegative(l, amount);
    fee := l.OriginationFee(amount).value;
    borrowed := DecreaseMoves(l, i, FromInt(amount) + fee, BorrowOnly);
  }

  lemma PaidBorrowConserves(l: Ledger, i: nat, amount: nat, group: GroupFees, fee: I80F48, borrowed: Account)
    requires Inv(l) && i < |l.balances| && l.OriginationFee(amount) == Ok(fee)
    requires l.PayBorrow(i, amount, fee, group.programFeeRate, borrowed).Ok?
    requires Inv(l.SetAccount(i, borrowed)) && SharesOnly(l.bank, borrowed.bank)
    requires -(FromInt(amount) + fee) * ONE <= Books(borrowed.bank) - Books(l.bank)
    requires Books(borrowed.bank) - Books(l.bank) <= -(FromInt(amount) + fee) * ONE + ShareUnit(l.bank)
    ensures Conserves(l, OpBorrow(i, amount, group), l.PayBorrow(i, amount, fee, group.programFeeRate, borrowed).value)
  {
    CreditMovesBooks(borrowed.bank, fee, Mul(fee, group.programFeeRate));
  }

  lemma OriginationFeeIsNonNegative(l: Ledger, amount: nat)
    ensures l.OriginationFee(amount).Ok? ==> l.OriginationFee(amount).value >= 0
  {
    MulNonNegative(FromInt(amount), l.bank.config.interestRateConfig.protocolOriginationFee);
  }

  /** No fee is ever invented, and none is lost exactly while both totals have room for their shares. */
  lemma FeeIsLostExactly(b: BankState, fee: I80F48, programFee: I80F48)
    requires 0 <= programFee <= fee <= MAX_BITS && 0 <= b.groupFees <= MAX_BITS && 0 <= b.programFees <= MAX_BITS
    ensures LostFee(b, fee, programFee) >= 0
    ensures LostFee(b, fee, programFee) == 0 <==>
      fee == 0 || (b.groupFees + fee - programFee <= MAX_BITS && b.programFees + programFee <= MAX_BITS)
  {
  }

  lemma CreditMovesBooks(b: BankState, fee: I80F48, programFee: I80F48)
    ensures var c := CreditOriginationFee(b, fee, programFee);
      && c == b.(groupFees := c.groupFees, programFees := c.programFees)
      && Books(c) - Books(b) == (fee - LostFee(b, fee, programFee)) * ONE
  {
  }

  lemma WithdrawAllConserves(l: Ledger, i: nat)
    requires Inv(l) && l.WithdrawAll(i).Ok?
    ensures Conserves(l, OpWithdrawAll(i), l.WithdrawAll(i).value)
  {
    var acc := l.GetAccount(i).value;
    WithdrawAllEffect(acc);
    TotalsCoverEach(l.balances, i);
    AccountKeepsInv(l, i, acc.WithdrawAll().value.0);
  }

  lemma RepayAllConserves(l: Ledger, i: nat)
    requires Inv(l) && l.RepayAll(i).Ok?
    ensures Conserves(l, OpRepayAll(i), l.RepayAll(i).value)
  {
    var acc := l.GetAccount(i).value;
    RepayAllEffect(acc);
    TotalsCoverEach(l.balances, i);
    AccountKeepsInv(l, i, acc.RepayAll().value.0);
  }

  lemma CloseBalanceConserves(l: Ledger, i: nat)
    requires Inv(l) && l.CloseBalance(i).Ok?
    ensures Conserves(l, OpCloseBalance(i), l.CloseBalance(i).value)
  {
    AccountKeepsInv(l, i, l.GetAccount(i).value.CloseBalance().value);
  }

  lemma CollectFeesConserves(l: Ledger)
    requires Inv(l) && l.CollectFees().Ok?
    ensures Conserves(l, OpCollectFees, l.CollectFees().value)
  {
    var b, after := l.bank, l.CollectFees().value.bank;
    FeesLeaveBooks(b, b.insuranceFees - after.insuranceFees, b.groupFees - after.groupFees, b.programFees - after.programFees);
  }

  lemma FeesLeaveBooks(b: BankState, insurance: int, group: int, program: int)
    ensures var after := b.(insuranceFees := b.insuranceFees - insurance, groupFees := b.groupFees - group,
                            programFees := b.programFees - program);
      Books(after) == Books(b) - ONE * (insurance + group + program)
  {
  }

  lemma AllowancesAreNonNegative(b: BankState, now: int, group: GroupFees)
    requires b.Valid()
    ensures AccrualLoss(b, now, group) >= 0 && AccrualGain(b, now, group) >= 0
  {
    if AccrualRates(b, group).Some? && now >= b.lastUpdate {
      RoundingIsNonNegative(b, now - b.lastUpdate, group);
    }
  }

  lemma RoundingIsNonNegative(b: BankState, t: nat, group: GroupFees)
    requires b.Valid() && AccrualRates(b, group).Some?
    ensures var rates := AccrualRates(b, group).value;
      && AccrualShortfall(b.totalLiabilityShares, Debts(b), rates, t) >= 0
      && AccrualSurplus(b.totalAssetShares, Deposits(b), Debts(b), rates, t) >= 0
  {
    var ir := CreateInterestRateCalculator(b.config.interestRateConfig, group);
    BorrowersPayBaseAndFees(ir, Div(Debts(b), Deposits(b)));
    var rates := AccrualRates(b, group).value;
    MulNonNegative(b.totalAssetShares, b.assetShareValue);
    MulNonNegative(b.totalLiabilityShares, b.liabilityShareValue);
    MulNonNegative(rates.baseRateApr, Deposits(b));
    MulNonNeg(rates.lendingRateApr, t);
    FloorIsGreatest(rates.lendingRateApr * t, SECONDS_PER_YEAR, 0);
    var k := 2 * Debts(b) + Deposits(b) + Mul(rates.baseRateApr, Deposits(b)) + rates.borrowingRateApr + 3 * ONE + 1;
    MulNonNeg(k, t);
    FloorIsGreatest(k * t, SECONDS_PER_YEAR, 0);
  }

  /** The conservation of one accrual, read on the bank's books. */
  lemma AccrualMovesBooks(b: BankState, now: int, group: GroupFees)
    requires b.Valid() && b.AccrueInterest(now, group).Ok?
    requires now > b.lastUpdate && Deposits(b) != 0 && Debts(b) != 0
    ensures AccrualRates(b, group).Some?
    ensures var rates, t := AccrualRates(b, group).value, now - b.lastUpdate;
      -AccrualShortfall(b.totalLiabilityShares, Debts(b), rates, t)
        <= Books(b) - Books(b.AccrueInterest(now, group).value)
        <= AccrualSurplus(b.totalAssetShares, Deposits(b), Debts(b), rates, t)
  {
    var ir := CreateInterestRateCalculator(b.config.interestRateConfig, group);
    var t := now - b.lastUpdate;
    MulNonNegative(b.totalAssetShares, b.assetShareValue);
    MulNonNegative(b.totalLiabilityShares, b.liabilityShareValue);
    AccrualConservesValue(ir, t, b.totalAssetShares, b.assetShareValue, b.totalLiabilityShares, b.liabilityShareValue);
    var rates := AccrualRates(b, group).value;
    BorrowersPayBaseAndFees(ir, Div(Debts(b), Deposits(b)));
    AccrualGrowth(ir, t, Deposits(b), Debts(b), rates, b.assetShareValue, b.liabilityShareValue);
    var c := CalcAccrualStateChanges(t, Deposits(b), Debts(b), ir, b.assetShareValue, b.liabilityShareValue).value;
    RecordMovesBooks(b.(lastUpdate := now), c);
  }

  lemma RecordMovesBooks(b: BankState, c: InterestRateStateChanges)
    requires b.RecordChanges(c).Ok?
    requires c.insuranceFeesCollected >= 0 && c.groupFeesCollected >= 0 && c.protocolFeesCollected >= 0
    ensures Books(b) - Books(b.RecordChanges(c).value) ==
      b.totalLiabilityShares * (c.newLiabilityShareValue - b.liabilityShareValue)
      - b.totalAssetShares * (c.newAssetShareValue - b.assetShareValue) - ONE * c.FeesCollected()
  {
    var l, a := b.totalLiabilityShares, b.totalAssetShares;
    assert l * (c.newLiabilityShareValue - b.liabilityShareValue) == l * c.newLiabilityShareValue - l * b.liabilityShareValue;
    assert a * (c.newAssetShareValue - b.assetShareValue) == a * c.newAssetShareValue - a * b.assetShareValue;
  }

  lemma AccrueConserves(l: Ledger, now: int, group: GroupFees)
    requires Inv(l) && l.Accrue(now, group).Ok?
    ensures Conserves(l, OpAccrue(now, group), l.Accrue(now, group).value)
  {
    var b, after := l.bank, l.Accrue(now, group).value.bank;
    AccrualNeverDecreases(b, now, group);
    AllowancesAreNonNegative(b, now, group);
    if now > b.lastUpdate && Deposits(b) != 0 && Debts(b) != 0 {
      AccrualMovesBooks(b, now, group);
    } else {
      assert Books(after) == Books(b);
    }
  }

  /** Taking a loss out of the share value frees between the loss (less any deficit) and a little more. */
  lemma LossMovesBooks(b: BankState, loss: I80F48)
    requires b.Valid() && loss >= 0 && b.SocializeLoss(loss).Ok?
    ensures var after := b.SocializeLoss(loss).value.0;
      && after.Valid()
      && after == b.(assetShareValue := after.assetShareValue)
      && 0 <= Books(b) - Books(after) - (loss - Max(0, loss - Deposits(b))) * ONE <= ONE + b.totalAssetShares
  {
    SocializeLossEffect(b, loss);
    var after := b.SocializeLoss(loss).value.0;
    var a := b.totalAssetShares;
    MulBounds(a, b.assetShareValue);
    if Deposits(b) > loss {
      DivIsFloor(Deposits(b) - loss, a);
    } else {
      assert a * after.assetShareValue == 0;
    }
  }

  /** A bankruptcy asks insurance for the debt as far as it goes, in whole tokens, and the depositors for the rest. */
  lemma BankruptcyShape(l: Ledger, i: nat, equity: Equity) returns (badDebt: int, covered: int, tokens: nat)
    requires Inv(l) && l.HandleBankruptcy(i, equity).Ok?
    ensures equity.CheckBankrupt().Ok?
    ensures i < |l.balances| && badDebt == Mul(l.balances[i].liabilityShares, l.bank.liabilityShareValue)
    ensures covered == Covered(l, i) && 0 <= covered <= badDebt && FromInt(tokens) == Ceil(covered)
    ensures tokens <= l.insuranceVault && l.HandleBankruptcy(i, equity) == l.SettleDebt(i, badDebt, badDebt - covered, tokens)
  {
    badDebt := Mul(l.balances[i].liabilityShares, l.bank.liabilityShareValue);
    covered := Min(badDebt, FromInt(l.insuranceVault));
    tokens := CheckedToU64(Ceil(covered)).value;
    MulNonNegative(l.balances[i].liabilityShares, l.bank.liabilityShareValue);
    CeilBounds(covered);
    CeilIsWhole(covered);
  }

  lemma CeilIsWhole(x: I80F48)
    ensures CheckedToU64(Ceil(x)).Some? ==> FromInt(CheckedToU64(Ceil(x)).value) == Ceil(x)
  {
  }

  /** Settling in steps: the loss taken out of the share value, then the debt repaid. */
  lemma SettlementSteps(l: Ledger, i: nat, badDebt: int, loss: int, tokens: nat) returns (wounded: BankState, repaid: BankState, after: Ledger)
    requires Inv(l) && i < |l.balances| && tokens <= l.insuranceVault && loss >= 0
    requires badDebt == Mul(l.balances[i].liabilityShares, l.bank.liabilityShareValue)
    requires l.SettleDebt(i, badDebt, loss, tokens).Ok?
    ensures l.SettleDebt(i, badDebt, loss, tokens) == Ok(after)
    ensures Inv(after) && after.bank == repaid && after.vault == l.vault + tokens
    ensures 0 <= wounded.assetShareValue <= l.bank.assetShareValue && repaid.assetShareValue == wounded.assetShareValue
    ensures repaid.liabilityShareValue == l.bank.liabilityShareValue
    ensures 0 <= Books(l.bank) - Books(wounded) - (loss - Max(0, loss - Deposits(l.bank))) * ONE <= ONE + l.bank.totalAssetShares
    ensures badDebt * ONE - l.bank.liabilityShareValue <= Books(repaid) - Books(wounded) <= badDebt * ONE
  {
    wounded := LossSocialized(l, loss);
    repaid := BadDebtRepaid(l.(bank := wounded), i, badDebt);
    after := l.SettleDebt(i, badDebt, loss, tokens).value;
  }

  lemma LossSocialized(l: Ledger, loss: int) returns (wounded: BankState)
    requires Inv(l) && loss >= 0 && l.bank.SocializeLoss(loss).Ok?
    ensures wounded == l.bank.SocializeLoss(loss).value.0 && wounded == l.bank.(assetShareValue := wounded.assetShareValue)
    ensures Inv(l.(bank := wounded)) && wounded.assetShareValue <= l.bank.assetShareValue
    ensures 0 <= Books(l.bank) - Books(wounded) - (loss - Max(0, loss - Deposits(l.bank))) * ONE <= ONE + l.bank.totalAssetShares
  {
    SocializeLossEffect(l.bank, loss);
    LossMovesBooks(l.bank, loss);
    wounded := l.bank.SocializeLoss(loss).value.0;
  }

  /** Repaying all of a debt at its worth: the books gain that worth, short of one share's value. */
  lemma BadDebtRepaid(l: Ledger, i: nat, badDebt: int) returns (repaid: BankState)
    requires Inv(l) && i < |l.balances| && badDebt == Mul(l.balances[i].liabilityShares, l.bank.liabilityShareValue)
    requires Account(l.bank, l.balances[i]).IncreaseBalance(badDebt, RepayOnly).Ok?
    ensures var after := Account(l.bank, l.balances[i]).IncreaseBalance(badDebt, RepayOnly).value;
      repaid == after.bank && Inv(l.SetAccount(i, after))
    ensures repaid.assetShareValue == l.bank.assetShareValue && repaid.liabilityShareValue == l.bank.liabilityShareValue
    ensures badDebt * ONE - l.bank.liabilityShareValue <= Books(repaid) - Books(l.bank) <= badDebt * ONE
  {
    var hurt := Account(l.bank, l.balances[i]);
    MulNonNegative(hurt.balance.liabilityShares, l.bank.liabilityShareValue);
    RepaidExactly(hurt, badDebt);
    var after := IncreaseMoves(l, i, badDebt, RepayOnly);
    repaid := after.bank;
  }

  lemma BankruptcyConserves(l: Ledger, i: nat, equity: Equity)
    requires Inv(l) && l.HandleBankruptcy(i, equity).Ok?
    ensures Conserves(l, OpHandleBankruptcy(i, equity), l.HandleBankruptcy(i, equity).value)
  {
    var badDebt, covered, tokens := BankruptcyShape(l, i, equity);
    SettlementConserves(l, i, equity, badDebt, covered, tokens);
  }

  lemma SettlementConserves(l: Ledger, i: nat, equity: Equity, badDebt: int, covered: int, tokens: nat)
    requires Inv(l) && i < |l.balances| && tokens <= l.insuranceVault
    requires badDebt == Mul(l.balances[i].liabilityShares, l.bank.liabilityShareValue)
    requires covered == Covered(l, i) && 0 <= covered <= badDebt && FromInt(tokens) == Ceil(covered)
    requires l.SettleDebt(i, badDebt, badDebt - covered, tokens).Ok?
    ensures Conserves(l, OpHandleBankruptcy(i, equity), l.SettleDebt(i, badDebt, badDebt - covered, tokens).value)
  {
    var wounded, repaid, after := SettlementSteps(l, i, badDebt, badDebt - covered, tokens);
    BankruptcyGap(l, i, equity, wounded, repaid, badDebt, covered, after);
  }

  lemma BankruptcyGap(l: Ledger, i: nat, equity: Equity, wounded: BankState, repaid: BankState, badDebt: int, covered: int, after: Ledger)
    requires i < |l.balances| && l.bank.Valid() && after.bank == repaid && Inv(after)
    requires badDebt == Mul(l.balances[i].liabilityShares, l.bank.liabilityShareValue)
    requires covered == Covered(l, i) && FromInt(after.vault - l.vault) == Ceil(covered)
    requires 0 <= Books(l.bank) - Books(wounded) - (badDebt - covered - Deficit(l, i)) * ONE <= ONE + l.bank.totalAssetShares
    requires badDebt * ONE - l.bank.liabilityShareValue <= Books(repaid) - Books(wounded) <= badDebt * ONE
    ensures Conserves(l, OpHandleBankruptcy(i, equity), after)
  {
  }

  // ---- Liquidations ----

  /** The seized asset: taken from one balance and given to another, the vault untouched. */
  lemma LiquidateAssetConserves(l: Ledger, liquidator: nat, liquidatee: nat, amount: nat)
    requires Inv(l) && l.LiquidateAsset(liquidator, liquidatee, amount).Ok?
    ensures Conserves(l, OpLiquidateAsset(liquidator, liquidatee, amount), l.LiquidateAsset(liquidator, liquidatee, amount).value)
  {
    var seized := LiquidateAssetShape(l, liquidator, liquidatee, amount);
    ReceiveMoves(l.SetAccount(liquidatee, seized), liquidator, amount);
  }

  /** A seizure is a decrease, then what the liquidator receives; the bank cannot be dead. */
  lemma LiquidateAssetShape(l: Ledger, liquidator: nat, liquidatee: nat, amount: nat) returns (seized: Account)
    requires Inv(l) && l.LiquidateAsset(liquidator, liquidatee, amount).Ok?
    ensures amount > 0 && liquidatee < |l.balances| && liquidator != liquidatee && l.bank.assetShareValue != 0
    ensures FromInt(amount) <= Mul(l.balances[liquidatee].assetShares, l.bank.assetShareValue)
    ensures Account(l.bank, l.balances[liquidatee]).DecreaseBalance(FromInt(amount), BypassBorrowLimit) == Ok(seized)
    ensures Inv(l.SetAccount(liquidatee, seized)) && SharesOnly(l.bank, seized.bank)
    ensures 0 <= Books(seized.bank) - Books(l.bank) + FromInt(amount) * ONE <= ShareUnit(l.bank)
    ensures l.LiquidateAsset(liquidator, liquidatee, amount) == l.SetAccount(liquidatee, seized).Receive(liquidator, amount)
  {
    seized := DecreaseMoves(l, liquidatee, FromInt(amount), BypassBorrowLimit);
    assert l.bank.assetShareValue != 0;
  }

  lemma ReceiveMoves(l: Ledger, i: nat, amount: nat)
    requires Inv(l) && l.Receive(i, amount).Ok?
    ensures var after := l.Receive(i, amount).value;
      && Inv(after) && after.vault == l.vault
      && -ShareUnit(l.bank) <= Books(after.bank) - Books(l.bank) - (FromInt(amount) * ONE - UnboughtBy(l, i, FromInt(amount))) <= 0
  {
    var after := IncreaseMoves(l, i, FromInt(amount), BypassDepositLimit);
  }

  /** The repaid debt: moved between two balances, less the insurance fee that leaves the vault. */
  lemma LiquidateDebtConserves(l: Ledger, liquidator: nat, liquidatee: nat, taken: nat, repaid: nat)
    requires Inv(l) && l.LiquidateDebt(liquidator, liquidatee, taken, repaid).Ok?
    ensures Conserves(l, OpLiquidateDebt(liquidator, liquidatee, taken, repaid),
                      l.LiquidateDebt(liquidator, liquidatee, taken, repaid).value)
  {
    var burdened, tokens := LiquidateDebtShape(l, liquidator, liquidatee, taken, repaid);
    var after := BurdenedConserves(l, liquidator, liquidatee, taken, repaid, burdened, tokens);
  }

  lemma LiquidateDebtShape(l: Ledger, liquidator: nat, liquidatee: nat, taken: nat, repaid: nat) returns (burdened: Account, tokens: nat)
    requires Inv(l) && l.LiquidateDebt(liquidator, liquidatee, taken, repaid).Ok?
    ensures liquidator < |l.balances| && liquidator != liquidatee && taken >= repaid
    ensures Account(l.bank, l.balances[liquidator]).DecreaseBalance(taken, BypassBorrowLimit) == Ok(burdened)
    ensures CheckedToU64(taken - repaid) == Some(tokens)
    ensures Inv(l.SetAccount(liquidator, burdened)) && SharesOnly(l.bank, burdened.bank)
    ensures 0 <= Books(burdened.bank) - Books(l.bank) + taken * ONE <= ShareUnit(l.bank)
    ensures l.LiquidateDebt(liquidator, liquidatee, taken, repaid)
         == l.SetAccount(liquidator, burdened).Relieve(liquidatee, repaid, tokens, taken - repaid - FromInt(tokens))
  {
    burdened := DecreaseMoves(l, liquidator, taken, BypassBorrowLimit);
    tokens := CheckedToU64(taken - repaid).value;
  }

  lemma BurdenedConserves(l: Ledger, liquidator: nat, liquidatee: nat, taken: nat, repaid: nat, burdened: Account, tokens: nat) returns (after: Ledger)
    requires Inv(l) && liquidator < |l.balances| && liquidator != liquidatee
    requires Inv(l.SetAccount(liquidator, burdened)) && SharesOnly(l.bank, burdened.bank)
    requires 0 <= Books(burdened.bank) - Books(l.bank) + taken * ONE <= ShareUnit(l.bank)
    requires l.SetAccount(liquidator, burdened).Relieve(liquidatee, repaid, tokens, taken - repaid - FromInt(tokens)).Ok?
    ensures l.SetAccount(liquidator, burdened).Relieve(liquidatee, repaid, tokens, taken - repaid - FromInt(tokens)) == Ok(after)
    ensures Conserves(l, OpLiquidateDebt(liquidator, liquidatee, taken, repaid), after)
  {
    after := RelieveMoves(l.SetAccount(liquidator, burdened), liquidatee, repaid, tokens, taken - repaid - FromInt(tokens));
  }

  lemma RelieveMoves(l: Ledger, i: nat, repaid: nat, tokens: nat, dust: I80F48) returns (after: Ledger)
    requires Inv(l) && l.Relieve(i, repaid, tokens, dust).Ok?
    ensures l.Relieve(i, repaid, tokens, dust) == Ok(after) && i < |l.balances|
    ensures Inv(after)
      && 0 <= Gap(after) - Gap(l) - (UnboughtBy(l, i, repaid) - (repaid + FromInt(tokens) + dust) * ONE) <= ShareUnit(l.bank)
  {
    var relieved := IncreaseMoves(l, i, repaid, RepayOnly);
    after := RelieveShape(l, i, repaid, tokens, dust, relieved);
    DustKeepsInv(l.SetAccount(i, relieved), after, dust);
    RelieveGap(l, relieved.bank, after, UnboughtBy(l, i, repaid), repaid, tokens, dust);
  }

  lemma RelieveShape(l: Ledger, i: nat, repaid: nat, tokens: nat, dust: I80F48, relieved: Account) returns (after: Ledger)
    requires i < |l.balances| && Account(l.bank, l.balances[i]).IncreaseBalance(repaid, RepayOnly) == Ok(relieved)
    requires l.Relieve(i, repaid, tokens, dust).Ok?
    ensures l.Relieve(i, repaid, tokens, dust) == Ok(after) && after.vault == l.vault - tokens
    ensures after.balances == l.SetAccount(i, relieved).balances
    ensures after.bank == relieved.bank.(insuranceFees := relieved.bank.insuranceFees + dust)
  {
    after := l.Relieve(i, repaid, tokens, dust).value;
  }

  lemma DustKeepsInv(before: Ledger, after: Ledger, dust: I80F48)
    requires Inv(before) && after.balances == before.balances
    requires after.bank == before.bank.(insuranceFees := before.bank.insuranceFees + dust)
    ensures Inv(after) && Books(after.bank) == Books(before.bank) + dust * ONE
  {
  }

  lemma RelieveGap(l: Ledger, relieved: BankState, after: Ledger, unbought: int, repaid: nat, tokens: nat, dust: I80F48)
    requires after.vault == l.vault - tokens && Books(after.bank) == Books(relieved) + dust * ONE
    requires -ShareUnit(l.bank) <= Books(relieved) - Books(l.bank) - (repaid * ONE - unbought) <= 0
    ensures 0 <= Gap(after) - Gap(l) - (unbought - (repaid + FromInt(tokens) + dust) * ONE) <= ShareUnit(l.bank)
  {
  }

  // ---- Every step ----

  /** A bankruptcy moves the gap by rounding only when the debt insurance covers is whole and the depositors can bear the rest. */
  lemma BankruptcyExcess(l: Ledger, i: nat, equity: Equity)
    requires Inv(l) && i < |l.balances|
    ensures Excess(l, OpHandleBankruptcy(i, equity)) == 0 <==> Covered(l, i) % ONE == 0 && Deficit(l, i) == 0
    ensures Excess(l, OpHandleBankruptcy(i, equity)) < ONE * ONE
    ensures Deficit(l, i) > 0 ==> Excess(l, OpHandleBankruptcy(i, equity)) == -Deficit(l, i) * ONE
  {
    MulNonNegative(l.balances[i].liabilityShares, l.bank.liabilityShareValue);
    MulNonNegative(l.bank.totalAssetShares, l.bank.assetShareValue);
    CeilBounds(Covered(l, i));
  }

  lemma StepConserves(l: Ledger, op: Op)
    requires Inv(l)
    ensures Step(l, op).Ok? ==> Conserves(l, op, Step(l, op).value)
  {
    if Step(l, op).Ok? {
      SuccessConserves(l, op);
    }
  }

  lemma SuccessConserves(l: Ledger, op: Op)
    requires Inv(l) && Step(l, op).Ok?
    ensures Conserves(l, op, Step(l, op).value)
  {
    match op
    case OpDeposit(i, amount, upToLimit, now, group) => DepositConserves(l, i, amount, upToLimit, now, group);
    case OpWithdraw(i, amount) => WithdrawConserves(l, i, amount);
    case OpWithdrawAll(i) => WithdrawAllConserves(l, i);
    case OpBorrow(i, amount, group) => BorrowConserves(l, i, amount, group);
    case OpRepay(i, amount) => RepayConserves(l, i, amount);
    case OpRepayAll(i) => RepayAllConserves(l, i);
    case OpCloseBalance(i) => CloseBalanceConserves(l, i);
    case OpAccrue(now, group) => AccrueConserves(l, now, group);
    case OpCollectFees => CollectFeesConserves(l);
    case OpHandleBankruptcy(i, equity) => BankruptcyConserves(l, i, equity);
    case OpLiquidateAsset(liquidator, liquidatee, amount) => LiquidateAssetConserves(l, liquidator, liquidatee, amount);
    case OpLiquidateDebt(liquidator, liquidatee, taken, repaid) => LiquidateDebtConserves(l, liquidator, liquidatee, taken, repaid);
  }

  // ---- Whole runs ----

  function TotalExcess(l: Ledger, ops: seq<Op>): int
    decreases |ops|
  {
    if ops == [] then 0
    else (if Step(l, ops[0]).Ok? then Excess(l, ops[0]) else 0) + TotalExcess(Apply(l, ops[0]), ops[1..])
  }

  function TotalShortfall(l: Ledger, ops: seq<Op>): int
    decreases |ops|
  {
    if ops == [] then 0
    else (if Step(l, ops[0]).Ok? then Shortfall(l, ops[0]) else 0) + TotalShortfall(Apply(l, ops[0]), ops[1..])
  }

  function TotalSurplus(l: Ledger, ops: seq<Op>): int
    decreases |ops|
  {
    if ops == [] then 0
    else (if Step(l, ops[0]).Ok? then Surplus(l, ops[0]) else 0) + TotalSurplus(Apply(l, ops[0]), ops[1..])
  }

  /** Over every run from a state in the invariant, the gap moves by the steps' excesses, up to their rounding. */
  lemma {:induction false} RunConserves(l: Ledger, ops: seq<Op>)
    requires Inv(l)
    ensures Inv(Run(l, ops))
    ensures 0 <= TotalShortfall(l, ops) && 0 <= TotalSurplus(l, ops)
    ensures -TotalShortfall(l, ops) <= Gap(Run(l, ops)) - Gap(l) - TotalExcess(l, ops) <= TotalSurplus(l, ops)
    decreases |ops|
  {
    if ops != [] {
      StepConserves(l, ops[0]);
      RunConserves(Apply(l, ops[0]), ops[1..]);
    }
  }

  lemma {:induction false} FreshIsBalanced(config: BankConfig, mintDecimals: nat, now: int, users: nat, insurance: nat)
    requires ValidSevenPoint(config.interestRateConfig.curve)
    ensures Inv(Fresh(config, mintDecimals, now, users, insurance)) && Gap(Fresh(config, mintDecimals, now, users, insurance)) == 0
  {
    EmptyTotals(users);
  }

  lemma {:induction false} EmptyTotals(users: nat)
    ensures TotalAssets(seq(users, _ => EMPTY_BALANCE)) == 0 && TotalLiabilities(seq(users, _ => EMPTY_BALANCE)) == 0
  {
    if users > 0 {
      assert seq(users, _ => EMPTY_BALANCE)[1..] == seq(users - 1, _ => EMPTY_BALANCE);
      EmptyTotals(users - 1);
    }
  }

  /**
   The law the fuzzer checks at the end of a run: the vault less the outstanding fees against
   the rounded value of all deposits less all debt, in ulps.
   */
  function Measured(l: Ledger): int {
    FromInt(l.vault) - l.bank.FeesOutstanding() - (Deposits(l.bank) - Debts(l.bank))
  }

  /**
   From a new bank, after any run of deposits, withdrawals, borrows, repayments, accruals, fee
   collections, bankruptcies and liquidations, that difference is the sum of the steps'
   excesses (in units of 2^-96), up to their rounding allowances and one ulp for the totals.
   */
  lemma VaultMatchesBooks(config: BankConfig, mintDecimals: nat, now: int, users: nat, insurance: nat, ops: seq<Op>)
    requires ValidSevenPoint(config.interestRateConfig.curve)
    ensures var l := Fresh(config, mintDecimals, now, users, insurance);
      -TotalShortfall(l, ops) - ONE < ONE * Measured(Run(l, ops)) - TotalExcess(l, ops) < TotalSurplus(l, ops) + ONE
  {
    var l := Fresh(config, mintDecimals, now, users, insurance);
    FreshIsBalanced(config, mintDecimals, now, users, insurance);
    RunConserves(l, ops);
    var b := Run(l, ops).bank;
    MulBounds(b.totalAssetShares, b.assetShareValue);
    MulBounds(b.totalLiabilityShares, b.liabilityShareValue);
  }
}
