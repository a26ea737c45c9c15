/**
 A user's balance in a bank: the operations that move an amount through both, in shares.
 Account is the pair as a value; class BankAccountWrapper updates the balance and the bank
 in place and is proved against it.
 */
module BankAccount {
  import opened Wrappers
  import opened FixedPoint
  import opened BankLedger
  import opened BankProperties

  /** 0.0001 of a token; any balance below it is treated as none. */
  const ZERO_AMOUNT_THRESHOLD: I80F48 := 28_147_497_671

  datatype Balance = Balance(assetShares: I80F48, liabilityShares: I80F48) {
    predicate NonNegative() {
      assetShares >= 0 && liabilityShares >= 0
    }
  }

  const EMPTY_BALANCE := Balance(0, 0)

  datatype BalanceIncreaseType = AnyIncrease | RepayOnly | DepositOnly | BypassDepositLimit

  datatype BalanceDecreaseType = WithdrawOnly | BorrowOnly | BypassBorrowLimit

  predicate IsZeroWithTolerance(a: I80F48) {
    Abs(a) < ZERO_AMOUNT_THRESHOLD
  }

  predicate IsPositiveWithTolerance(a: I80F48) {
    a > ZERO_AMOUNT_THRESHOLD
  }

  datatype Account = Account(bank: BankState, balance: Balance) {

    /** Repays as much debt as there is, and deposits the rest. */
    function IncreaseBalance(delta: I80F48, kind: BalanceIncreaseType): Result<Account> {
      var debt :- bank.GetLiabilityAmount(balance.liabilityShares);
      var liabilityDecrease := Min(debt, delta);
      var rest :- CheckedSub(delta, debt).OrMathError();
      var assetIncrease := Max(rest, 0);
      var _ :- Check(kind.RepayOnly? ==> IsZeroWithTolerance(assetIncrease), OperationRepayOnly);
      var _ :- Check(kind.DepositOnly? ==> IsZeroWithTolerance(liabilityDecrease), OperationDepositOnly);
      var assetShares :- bank.GetAssetShares(assetIncrease);
      var newAssetShares :- CheckedAdd(balance.assetShares, assetShares).OrMathError();
      var deposited :- bank.ChangeAssetShares(assetShares, kind.BypassDepositLimit?);
      var liabilityShares :- deposited.GetLiabilityShares(liabilityDecrease);
      var newLiabilityShares :- CheckedAdd(balance.liabilityShares, -liabilityShares).OrMathError();
      var repaid :- deposited.ChangeLiabilityShares(-liabilityShares, true);
      Ok(Account(repaid, Balance(newAssetShares, newLiabilityShares)))
    }

    /** Withdraws as much as there is, and borrows the rest. */
    function DecreaseBalance(delta: I80F48, kind: BalanceDecreaseType): Result<Account> {
      var assets :- bank.GetAssetAmount(balance.assetShares);
      var assetDecrease := Min(assets, delta);
      var rest :- CheckedSub(delta, assets).OrMathError();
      var liabilityIncrease := Max(rest, 0);
      var _ :- Check(kind.WithdrawOnly? ==> IsZeroWithTolerance(liabilityIncrease), OperationWithdrawOnly);
      var _ :- Check(kind.BorrowOnly? ==> IsZeroWithTolerance(assetDecrease), OperationBorrowOnly);
      var assetShares :- bank.GetAssetShares(assetDecrease);
      var newAssetShares :- CheckedAdd(balance.assetShares, -assetShares).OrMathError();
      var withdrawn :- bank.ChangeAssetShares(-assetShares, false);
      var liabilityShares :- withdrawn.GetLiabilityShares(liabilityIncrease);
      var newLiabilityShares :- CheckedAdd(balance.liabilityShares, liabilityShares).OrMathError();
      var borrowed :- withdrawn.ChangeLiabilityShares(liabilityShares, kind.BypassBorrowLimit?);
      var _ :- if kind.BypassBorrowLimit? then Ok(()) else borrowed.CheckUtilizationRatio();
      Ok(Account(borrowed, Balance(newAssetShares, newLiabilityShares)))
    }

    /** Closes the asset side; whole tokens are paid out and the fraction goes to insurance fees. */
    function WithdrawAll(): Result<(Account, nat)> {
      var assets :- bank.GetAssetAmount(balance.assetShares);
      var debt :- bank.GetLiabilityAmount(balance.liabilityShares);
      var _ :- Check(IsPositiveWithTolerance(assets) && IsZeroWithTolerance(debt), NoAssetFound);
      var reduced :- bank.ChangeAssetShares(-balance.assetShares, false);
      var _ :- reduced.CheckUtilizationRatio();
      var paid := Floor(assets);
      var dust := assets - paid;  // between zero and one token: cannot overflow
      var fees :- CheckedAdd(dust, reduced.insuranceFees).OrMathError();
      var tokens :- CheckedToU64(paid).OrMathError();
      Ok((Account(reduced.(insuranceFees := fees), EMPTY_BALANCE), tokens))
    }

    /** Closes the liability side; the payment is rounded up to whole tokens, the excess goes to insurance fees. */
    function RepayAll(): Result<(Account, nat)> {
      var debt :- bank.GetLiabilityAmount(balance.liabilityShares);
      var assets :- bank.GetAssetAmount(balance.assetShares);
      var _ :- Check(IsPositiveWithTolerance(debt) && IsZeroWithTolerance(assets), NoLiabilityFound);
      var reduced :- bank.ChangeLiabilityShares(-balance.liabilityShares, false);
      var paid :- Checked(Ceil(debt)).OrMathError();
      var dust := paid - debt;  // between zero and one token: cannot overflow
      var fees :- CheckedAdd(dust, reduced.insuranceFees).OrMathError();
      var tokens :- CheckedToU64(paid).OrMathError();
      Ok((Account(reduced.(insuranceFees := fees), EMPTY_BALANCE), tokens))
    }

    /** Forgets a balance worth less than the threshold on both sides; its shares stay in the bank's totals. */
    function CloseBalance(): Result<Account> {
      var debt :- bank.GetLiabilityAmount(balance.liabilityShares);
      var assets :- bank.GetAssetAmount(balance.assetShares);
      var _ :- Check(IsZeroWithTolerance(debt) && IsZeroWithTolerance(assets), IllegalBalanceState);
      Ok(Account(bank, EMPTY_BALANCE))
    }
  }

  class BankAccountWrapper {
    const bank: Bank
    var balance: Balance

    constructor (bank: Bank, balance: Balance)
      ensures this.bank == bank && this.balance == balance
    {
      this.bank, this.balance := bank, balance;
    }

    function State(): Account
      reads this, bank
    {
      Account(bank.State(), balance)
    }

    /** The source's increase_balance_internal; on an error the transaction is reverted. */
    method IncreaseBalance(balanceDelta: I80F48, operationType: BalanceIncreaseType) returns (r: Result<()>)
      modifies this, bank`totalAssetShares, bank`totalLiabilityShares
      ensures var spec := old(State()).IncreaseBalance(balanceDelta, operationType);
        match spec
        case Ok(after) => r == Ok(()) && State() == after
        case Err(e) => r == Err(e)
    {
      var currentLiabilityAmount :- bank.State().GetLiabilityAmount(balance.liabilityShares);
      var liabilityAmountDecrease := Min(currentLiabilityAmount, balanceDelta);
      var rest :- CheckedSub(balanceDelta, currentLiabilityAmount).OrMathError();
      var assetAmountIncrease := Max(rest, 0);
      if operationType.RepayOnly? && !IsZeroWithTolerance(assetAmountIncrease) {
        return Err(OperationRepayOnly);
      }
      if operationType.DepositOnly? && !IsZeroWithTolerance(liabilityAmountDecrease) {
        return Err(OperationDepositOnly);
      }
      var assetSharesIncrease :- bank.State().GetAssetShares(assetAmountIncrease);
      var newAssetShares :- CheckedAdd(balance.assetShares, assetSharesIncrease).OrMathError();
      balance := balance.(assetShares := newAssetShares);
      var _ :- bank.ChangeAssetShares(assetSharesIncrease, operationType.BypassDepositLimit?);
      var liabilitySharesDecrease :- bank.State().GetLiabilityShares(liabilityAmountDecrease);
      var newLiabilityShares :- CheckedAdd(balance.liabilityShares, -liabilitySharesDecrease).OrMathError();
      balance := balance.(liabilityShares := newLiabilityShares);
      r := bank.ChangeLiabilityShares(-liabilitySharesDecrease, true);
    }

    /** The source's decrease_balance_internal. */
    method DecreaseBalance(balanceDelta: I80F48, operationType: BalanceDecreaseType) returns (r: Result<()>)
      modifies this, bank`totalAssetShares, bank`totalLiabilityShares
      ensures var spec := old(State()).DecreaseBalance(balanceDelta, operationType);
        match spec
        case Ok(after) => r == Ok(()) && State() == after
        case Err(e) => r == Err(e)
    {
      var currentAssetAmount :- bank.State().GetAssetAmount(balance.assetShares);
      var assetAmountDecrease := Min(currentAssetAmount, balanceDelta);
      var rest :- CheckedSub(balanceDelta, currentAssetAmount).OrMathError();
      var liabilityAmountIncrease := Max(rest, 0);
      if operationType.WithdrawOnly? && !IsZeroWithTolerance(liabilityAmountIncrease) {
        return Err(OperationWithdrawOnly);
      }
      if operationType.BorrowOnly? && !IsZeroWithTolerance(assetAmountDecrease) {
        return Err(OperationBorrowOnly);
      }
      var assetSharesDecrease :- bank.State().GetAssetShares(assetAmountDecrease);
      var newAssetShares :- CheckedAdd(balance.assetShares, -assetSharesDecrease).OrMathError();
      balance := balance.(assetShares := newAssetShares);
      var _ :- bank.ChangeAssetShares(-assetSharesDecrease, false);
      var liabilitySharesIncrease :- bank.State().GetLiabilityShares(liabilityAmountIncrease);
      var newLiabilityShares :- CheckedAdd(balance.liabilityShares, liabilitySharesIncrease).OrMathError();
      balance := balance.(liabilityShares := newLiabilityShares);
      var _ :- bank.ChangeLiabilityShares(liabilitySharesIncrease, operationType.BypassBorrowLimit?);
      if !operationType.BypassBorrowLimit? {
        var _ :- bank.State().CheckUtilizationRatio();
      }
      return Ok(());
    }

    method WithdrawAll() returns (r: Result<nat>)
      modifies this, bank`totalAssetShares, bank`collectedInsuranceFeesOutstanding
      ensures var spec := old(State()).WithdrawAll();
        match spec
        case Ok((after, tokens)) => r == Ok(tokens) && State() == after
        case Err(e) => r == Err(e)
    {
      var totalAssetShares := balance.assetShares;
      var currentAssetAmount :- bank.State().GetAssetAmount(totalAssetShares);
      var currentLiabilityAmount :- bank.State().GetLiabilityAmount(balance.liabilityShares);
      if !IsPositiveWithTolerance(currentAssetAmount) || !IsZeroWithTolerance(currentLiabilityAmount) {
        return Err(NoAssetFound);
      }
      balance := EMPTY_BALANCE;
      var _ :- bank.ChangeAssetShares(-totalAssetShares, false);
      var _ :- bank.State().CheckUtilizationRatio();
      var splWithdrawAmount := Floor(currentAssetAmount);
      var dust := currentAssetAmount - splWithdrawAmount;
      bank.collectedInsuranceFeesOutstanding :- CheckedAdd(dust, bank.collectedInsuranceFeesOutstanding).OrMathError();
      r := CheckedToU64(splWithdrawAmount).OrMathError();
    }

    method RepayAll() returns (r: Result<nat>)
      modifies this, bank`totalLiabilityShares, bank`collectedInsuranceFeesOutstanding
      ensures var spec := old(State()).RepayAll();
        match spec
        case Ok((after, tokens)) => r == Ok(tokens) && State() == after
        case Err(e) => r == Err(e)
    {
      var totalLiabilityShares := balance.liabilityShares;
      var currentLiabilityAmount :- bank.State().GetLiabilityAmount(totalLiabilityShares);
      var currentAssetAmount :- bank.State().GetAssetAmount(balance.assetShares);
      if !IsPositiveWithTolerance(currentLiabilityAmount) || !IsZeroWithTolerance(currentAssetAmount) {
        return Err(NoLiabilityFound);
      }
      balance := EMPTY_BALANCE;
      var _ :- bank.ChangeLiabilityShares(-totalLiabilityShares, false);
      var splDepositAmount :- Checked(Ceil(currentLiabilityAmount)).OrMathError();
      var dust := splDepositAmount - currentLiabilityAmount;
      bank.collectedInsuranceFeesOutstanding :- CheckedAdd(dust, bank.collectedInsuranceFeesOutstanding).OrMathError();
      r := CheckedToU64(splDepositAmount).OrMathError();
    }
  }

  // ---- What the operations do to the books ----

  /**
   What the bank owes, in units of 2^-96 tokens and without rounding: deposits and outstanding
   fees, less the debt owed to it. A balanced vault holds exactly this.
   */
  function Books(st: BankState): int {
    st.totalAssetShares * st.assetShareValue - st.totalLiabilityShares * st.liabilityShareValue + ONE * st.FeesOutstanding()
  }

  /** The worth of one share ulp on each side, in units of 2^-96 tokens. */
  function ShareUnit(st: BankState): int {
    st.assetShareValue + st.liabilityShareValue
  }

  lemma ChangeSharesOk(st: BankState, shares: I80F48, bypass: bool)
    ensures st.ChangeAssetShares(shares, bypass).Ok? ==>
      st.ChangeAssetShares(shares, bypass).value == st.(totalAssetShares := st.totalAssetShares + shares)
    ensures st.ChangeLiabilityShares(shares, bypass).Ok? ==>
      st.ChangeLiabilityShares(shares, bypass).value == st.(totalLiabilityShares := st.totalLiabilityShares + shares)
  {
  }

  /** Only the two share totals of the bank move, by as much as the balance's own shares. */
  predicate MovesShares(before: Account, after: Account, assetShares: int, liabilityShares: int) {
    && after.balance == Balance(before.balance.assetShares + assetShares, before.balance.liabilityShares + liabilityShares)
    && after.bank == before.bank.(totalAssetShares := before.bank.totalAssetShares + assetShares,
                                  totalLiabilityShares := before.bank.totalLiabilityShares + liabilityShares)
  }

  lemma BooksMove(before: Account, after: Account, assetShares: int, liabilityShares: int)
    requires MovesShares(before, after, assetShares, liabilityShares)
    ensures Books(after.bank) - Books(before.bank) ==
      assetShares * before.bank.assetShareValue - liabilityShares * before.bank.liabilityShareValue
  {
    var b := before.bank;
    assert (b.totalAssetShares + assetShares) * b.assetShareValue == b.totalAssetShares * b.assetShareValue + assetShares * b.assetShareValue;
    assert (b.totalLiabilityShares + liabilityShares) * b.liabilityShareValue
        == b.totalLiabilityShares * b.liabilityShareValue + liabilityShares * b.liabilityShareValue;
  }

  /** Shares for at most the floored worth of a holding are at most the holding. */
  lemma SharesWithinHolding(held: I80F48, value: I80F48, amount: I80F48)
    requires held >= 0 && value > 0 && 0 <= amount <= Mul(held, value)
    ensures 0 <= Div(amount, value) <= held
  {
    SharesForAmount(amount, value);
    MulBounds(held, value);
    if Div(amount, value) > held {
      MulMono(value, held + 1, Div(amount, value));
    }
  }

  /** What an amount of tokens adds that no share stands for: in a dead bank, everything. */
  function Unbought(st: BankState, amount: int): int {
    if st.assetShareValue == 0 then amount * ONE else 0
  }

  /** What an increase deposits after repaying the balance's debt. */
  function DepositedRest(acc: Account, delta: I80F48): I80F48 {
    Max(delta - Mul(acc.balance.liabilityShares, acc.bank.liabilityShareValue), 0)
  }

  lemma AssetSharesBought(st: BankState, amount: I80F48)
    requires st.Valid() && amount >= 0 && st.GetAssetShares(amount).Ok?
    ensures var s := st.GetAssetShares(amount).value;
      && s >= 0
      && s * st.assetShareValue <= amount * ONE - Unbought(st, amount) <= s * st.assetShareValue + st.assetShareValue
  {
    if st.assetShareValue > 0 {
      SharesForAmount(amount, st.assetShareValue);
    }
  }

  /** A successful increase in its parts: shares bought for the deposited rest, and debt shares burnt. */
  lemma IncreaseShape(acc: Account, delta: I80F48, kind: BalanceIncreaseType, debt: I80F48, a: int, l: int)
    requires acc.bank.liabilityShareValue != 0 && acc.IncreaseBalance(delta, kind).Ok?
    requires debt == Mul(acc.balance.liabilityShares, acc.bank.liabilityShareValue)
    requires l == Div(Min(debt, delta), acc.bank.liabilityShareValue)
    requires acc.bank.GetAssetShares(Max(delta - debt, 0)).Ok? ==> a == acc.bank.GetAssetShares(Max(delta - debt, 0)).value
    ensures acc.bank.GetAssetShares(Max(delta - debt, 0)).Ok?
    ensures MovesShares(acc, acc.IncreaseBalance(delta, kind).value, a, -l)
    ensures kind.RepayOnly? ==> IsZeroWithTolerance(Max(delta - debt, 0))
  {
    ChangeSharesOk(acc.bank, a, kind.BypassDepositLimit?);
    ChangeSharesOk(acc.bank.(totalAssetShares := acc.bank.totalAssetShares + a), -l, true);
  }

  /** An increase burns debt the balance holds, adds assets, and is worth its amount, what a dead bank swallows aside, to within rounding. */
  lemma IncreaseEffect(acc: Account, delta: I80F48, kind: BalanceIncreaseType)
    requires acc.bank.Valid() && acc.balance.NonNegative() && delta >= 0
    requires acc.IncreaseBalance(delta, kind).Ok?
    ensures var after := acc.IncreaseBalance(delta, kind).value;
      && MovesShares(acc, after, after.balance.assetShares - acc.balance.assetShares, after.balance.liabilityShares - acc.balance.liabilityShares)
      && after.balance.NonNegative()
      && after.balance.assetShares >= acc.balance.assetShares && after.balance.liabilityShares <= acc.balance.liabilityShares
      && -ShareUnit(acc.bank) <= Books(after.bank) - Books(acc.bank) - (delta * ONE - Unbought(acc.bank, DepositedRest(acc, delta))) <= 0
      && (kind.RepayOnly? ==> IsZeroWithTolerance(DepositedRest(acc, delta)))
  {
    var b, held := acc.bank, acc.balance.liabilityShares;
    var debt := Mul(held, b.liabilityShareValue);
    MulNonNegative(held, b.liabilityShareValue);
    var repaid, deposited := Min(debt, delta), Max(delta - debt, 0);
    var l := Div(repaid, b.liabilityShareValue);
    var a := match b.GetAssetShares(deposited) case Ok(shares) => shares case Err(_) => 0;
    IncreaseShape(acc, delta, kind, debt, a, l);
    AssetSharesBought(b, deposited);
    SharesWithinHolding(held, b.liabilityShareValue, repaid);
    SharesForAmount(repaid, b.liabilityShareValue);
    BooksMove(acc, acc.IncreaseBalance(delta, kind).value, a, -l);
    NegatedProduct(l, b.liabilityShareValue);
  }

  lemma NegatedProduct(x: int, y: int)
    ensures -x * y == -(y * x)
  {
  }

  /** Repaying exactly the worth of a debt deposits nothing. */
  lemma RepaidExactly(acc: Account, debt: I80F48)
    requires acc.bank.Valid() && acc.balance.NonNegative()
    requires debt == Mul(acc.balance.liabilityShares, acc.bank.liabilityShareValue)
    requires acc.IncreaseBalance(debt, RepayOnly).Ok?
    ensures debt * ONE - acc.bank.liabilityShareValue <= Books(acc.IncreaseBalance(debt, RepayOnly).value.bank) - Books(acc.bank)
  {
    var b := acc.bank;
    MulNonNegative(acc.balance.liabilityShares, b.liabilityShareValue);
    SharesForAmount(debt, b.liabilityShareValue);
    if b.assetShareValue > 0 {
      SharesForAmount(0, b.assetShareValue);
      assert Div(0, b.assetShareValue) == 0;
    }
    var l := Div(debt, b.liabilityShareValue);
    IncreaseShape(acc, debt, RepayOnly, debt, 0, l);
    BooksMove(acc, acc.IncreaseBalance(debt, RepayOnly).value, 0, -l);
    NegatedProduct(l, b.liabilityShareValue);
  }

  /** A successful decrease in its parts: asset shares burnt, and shares of debt for the borrowed rest. */
  lemma DecreaseShape(acc: Account, delta: I80F48, kind: BalanceDecreaseType, assets: I80F48, a: int, l: int)
    requires acc.bank.liabilityShareValue != 0 && acc.DecreaseBalance(delta, kind).Ok?
    requires assets == Mul(acc.balance.assetShares, acc.bank.assetShareValue)
    requires l == Div(Max(delta - assets, 0), acc.bank.liabilityShareValue)
    requires acc.bank.GetAssetShares(Min(assets, delta)).Ok? ==> a == acc.bank.GetAssetShares(Min(assets, delta)).value
    ensures acc.bank.GetAssetShares(Min(assets, delta)).Ok?
    ensures MovesShares(acc, acc.DecreaseBalance(delta, kind).value, -a, l)
    ensures !kind.BypassBorrowLimit? ==> acc.DecreaseBalance(delta, kind).value.bank.CheckUtilizationRatio().Ok?
  {
    ChangeSharesOk(acc.bank, -a, false);
    ChangeSharesOk(acc.bank.(totalAssetShares := acc.bank.totalAssetShares - a), l, kind.BypassBorrowLimit?);
  }

  /** A decrease burns assets the balance holds, adds debt, and is worth its amount to within rounding. */
  lemma DecreaseEffect(acc: Account, delta: I80F48, kind: BalanceDecreaseType)
    requires acc.bank.Valid() && acc.balance.NonNegative() && delta >= 0
    requires acc.DecreaseBalance(delta, kind).Ok?
    ensures var after := acc.DecreaseBalance(delta, kind).value;
      && MovesShares(acc, after, after.balance.assetShares - acc.balance.assetShares, after.balance.liabilityShares - acc.balance.liabilityShares)
      && after.balance.NonNegative()
      && after.balance.assetShares <= acc.balance.assetShares && after.balance.liabilityShares >= acc.balance.liabilityShares
      && -delta * ONE <= Books(after.bank) - Books(acc.bank) <= -delta * ONE + ShareUnit(acc.bank)
      && (!kind.BypassBorrowLimit? ==> Deposits(after.bank) >= Debts(after.bank))
  {
    var b, held := acc.bank, acc.balance.assetShares;
    var assets := Mul(held, b.assetShareValue);
    MulNonNegative(held, b.assetShareValue);
    var withdrawn, borrowed := Min(assets, delta), Max(delta - assets, 0);
    var l := Div(borrowed, b.liabilityShareValue);
    var a := match b.GetAssetShares(withdrawn) case Ok(shares) => shares case Err(_) => 0;
    DecreaseShape(acc, delta, kind, assets, a, l);
    AssetSharesBought(b, withdrawn);
    if b.assetShareValue > 0 {
      SharesWithinHolding(held, b.assetShareValue, withdrawn);
    } else {
      assert assets == 0;
    }
    SharesForAmount(borrowed, b.liabilityShareValue);
    BooksMove(acc, acc.DecreaseBalance(delta, kind).value, -a, l);
    NegatedProduct(a, b.assetShareValue);
    NegatedProduct(-l, b.liabilityShareValue);
  }

  /** Withdrawing all pays the floored worth; the books lose what is paid, less under one ulp. */
  lemma WithdrawAllEffect(acc: Account)
    requires acc.bank.Valid() && acc.balance.NonNegative() && acc.WithdrawAll().Ok?
    ensures var (after, tokens) := acc.WithdrawAll().value;
      && after.balance == EMPTY_BALANCE
      && after.bank == acc.bank.(totalAssetShares := acc.bank.totalAssetShares - acc.balance.assetShares,
                                 insuranceFees := after.bank.insuranceFees)
      && FromInt(tokens) <= Mul(acc.balance.assetShares, acc.bank.assetShareValue) < FromInt(tokens) + ONE
      && -FromInt(tokens) * ONE - ONE < Books(after.bank) - Books(acc.bank) <= -FromInt(tokens) * ONE
      && Deposits(after.bank) >= Debts(after.bank)
  {
    var b, held := acc.bank, acc.balance.assetShares;
    ChangeSharesOk(b, -held, false);
    MulBounds(held, b.assetShareValue);
    FloorBounds(Mul(held, b.assetShareValue), ONE);
    assert (b.totalAssetShares - held) * b.assetShareValue == b.totalAssetShares * b.assetShareValue - held * b.assetShareValue;
  }

  lemma RepayAllShape(acc: Account)
    requires acc.RepayAll().Ok?
    ensures var (after, tokens) := acc.RepayAll().value;
      && after.balance == EMPTY_BALANCE
      && after.bank == acc.bank.(totalLiabilityShares := acc.bank.totalLiabilityShares - acc.balance.liabilityShares,
                                 insuranceFees := after.bank.insuranceFees)
      && after.bank.insuranceFees - acc.bank.insuranceFees == FromInt(tokens) - Mul(acc.balance.liabilityShares, acc.bank.liabilityShareValue)
      && FromInt(tokens) == Ceil(Mul(acc.balance.liabilityShares, acc.bank.liabilityShareValue))
  {
    ChangeSharesOk(acc.bank, -acc.balance.liabilityShares, false);
  }

  /** Repaying all charges the worth rounded up; the books gain what is paid, and under one ulp more. */
  lemma RepayAllEffect(acc: Account)
    requires acc.bank.Valid() && acc.balance.NonNegative() && acc.RepayAll().Ok?
    ensures var (after, tokens) := acc.RepayAll().value;
      && after.balance == EMPTY_BALANCE
      && after.bank == acc.bank.(totalLiabilityShares := acc.bank.totalLiabilityShares - acc.balance.liabilityShares,
                                 insuranceFees := after.bank.insuranceFees)
      && FromInt(tokens) - ONE < Mul(acc.balance.liabilityShares, acc.bank.liabilityShareValue) <= FromInt(tokens)
      && FromInt(tokens) * ONE <= Books(after.bank) - Books(acc.bank) < FromInt(tokens) * ONE + ONE
  {
    RepayAllShape(acc);
    var (after, tokens) := acc.RepayAll().value;
    CeilBounds(Mul(acc.balance.liabilityShares, acc.bank.liabilityShareValue));
    BurnDebt(acc.bank, after.bank, acc.balance.liabilityShares);
  }

  lemma CeilBounds(a: int)
    ensures Ceil(a) - ONE < a <= Ceil(a)
  {
    FloorBounds(a + ONE - 1, ONE);
  }

  lemma BurnDebt(before: BankState, after: BankState, shares: int)
    requires after == before.(totalLiabilityShares := before.totalLiabilityShares - shares, insuranceFees := after.insuranceFees)
    ensures var debt, paid := Mul(shares, before.liabilityShareValue), after.insuranceFees - before.insuranceFees;
      (debt + paid) * ONE <= Books(after) - Books(before) < (debt + paid) * ONE + ONE
  {
    MulBounds(shares, before.liabilityShareValue);
    assert (before.totalLiabilityShares - shares) * before.liabilityShareValue
        == before.totalLiabilityShares * before.liabilityShareValue - shares * before.liabilityShareValue;
  }
}
