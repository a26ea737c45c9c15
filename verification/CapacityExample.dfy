/**
 An up-to-limit deposit that the limit rejects: the capacity it settles on is gone by the time
 its own accrual is done.
 */
module CapacityExample {
  import opened Wrappers
  import opened FixedPoint
  import opened InterestCurve
  import opened InterestRate
  import opened BankLedger
  import opened BankProperties
  import opened BankAccount
  import opened LendingLedger
  import opened DepositLimits
  import opened InterestExample

  /** A deposit limit of 1500 tokens and a flat rate of 1000% a year, without fees. */
  function SteepConfig(): BankConfig {
    BankConfig(1500, U64_MAX, false, SteepInterest())
  }

  /** A thousand tokens deposited by one user and borrowed by another, and a third user. */
  function Lent(): Ledger {
    Ledger(LentBank(), [Balance(FromInt(1000), 0), Balance(0, FromInt(1000)), EMPTY_BALANCE], 0, 0, 0, 0)
  }

  function LentBank(): BankState {
    NewBank(SteepConfig(), 6, 0).(totalAssetShares := FromInt(1000), totalLiabilityShares := FromInt(1000))
  }

  function Funded(): Ledger {
    Ledger(NewBank(SteepConfig(), 6, 0).(totalAssetShares := FromInt(1000)),
           [Balance(FromInt(1000), 0), EMPTY_BALANCE, EMPTY_BALANCE], 1000, 0, 0, 0)
  }

  lemma FundedIsReached()
    ensures Reaches(Fresh(SteepConfig(), 6, 0, 3, 0), Funded())
  {
    var op := OpDeposit(0, 1000, false, 0, NO_FEES);
    assert Apply(Fresh(SteepConfig(), 6, 0, 3, 0), op) == Funded();
    ReachesNext(Fresh(SteepConfig(), 6, 0, 3, 0), op);
  }

  lemma LentIsReached()
    ensures Reaches(Fresh(SteepConfig(), 6, 0, 3, 0), Lent())
  {
    var op := OpBorrow(1, 1000, NO_FEES);
    BorrowAll();
    ReachesNext(Funded(), op);
    FundedIsReached();
    ReachesOn(Fresh(SteepConfig(), 6, 0, 3, 0), Funded(), Lent());
  }

  lemma BorrowAll()
    ensures Apply(Funded(), OpBorrow(1, 1000, NO_FEES)) == Lent()
  {
    var l, borrowed := Funded(), Account(LentBank(), Balance(0, FromInt(1000)));
    DebtAtPar(l.bank, FromInt(1000));
    FeelessBorrow(l, 1, 1000, Account(l.bank, EMPTY_BALANCE), borrowed);
    assert l.balances[1 := borrowed.balance] == Lent().balances;
  }

  lemma DebtAtPar(b: BankState, amount: I80F48)
    requires b.assetShareValue == ONE && b.liabilityShareValue == ONE && !b.config.IsBorrowLimitActive()
    requires b.totalAssetShares == amount && b.totalLiabilityShares == 0 && 0 <= amount <= FromInt(1000)
    ensures Account(b, EMPTY_BALANCE).DecreaseBalance(amount, BorrowOnly)
         == Ok(Account(b.(totalLiabilityShares := amount), Balance(0, amount)))
  {
    AtPar(amount);
    AtPar(0);
  }

  lemma FeelessBorrow(l: Ledger, i: nat, amount: nat, acc: Account, borrowed: Account)
    requires l.GetAccount(i) == Ok(acc) && l.bank.config == SteepConfig() && Fits(FromInt(amount)) && amount <= l.vault
    requires acc.DecreaseBalance(FromInt(amount), BorrowOnly) == Ok(borrowed)
    ensures Apply(l, OpBorrow(i, amount, NO_FEES)) == l.SetAccount(i, borrowed).(vault := l.vault - amount)
  {
  }

  // ---- The rejected deposit ----

  /** 499 tokens can be counted at eleven tokens a share, on top of eleven thousand. */
  lemma StillCountable(st: BankState)
    requires st.assetShareValue == 11 * ONE && st.totalAssetShares == FromInt(1000)
    ensures Countable(st, FromInt(499)) && Deposits(st) == FromInt(11_000)
    ensures Deposits(st) + FromInt(499) - Lost(st, FromInt(499)) >= FromInt(1500)
  {
    var value, amount := st.assetShareValue, FromInt(499);
    var extra := Div(amount, value);
    SharesForAmount(amount, value);
    SomeSharesBought(amount, value, extra);
    MulMono(extra, ONE, value);
    LostIsSmall(st, amount);
  }

  /** From a reachable state with 499 tokens of capacity, an up-to-limit deposit of them a year later fails on the limit. */
  lemma UpToLimitIsRejected()
    ensures Reaches(Fresh(SteepConfig(), 6, 0, 3, 0), Lent())
    ensures Lent().Deposited(499, true) == Ok(499)
    ensures Lent().Deposit(2, 499, true, SECONDS_PER_YEAR, NO_FEES) == Err(BankAssetCapacityExceeded)
  {
    LentIsReached();
    CapacityIs499();
    FullyLentYear();
    RejectedAfter(Lent(), LentBank().AccrueInterest(SECONDS_PER_YEAR, NO_FEES).value);
  }

  lemma FullyLentYear()
    ensures LentBank().AccrueInterest(SECONDS_PER_YEAR, NO_FEES)
         == Ok(LentBank().(assetShareValue := 11 * ONE, liabilityShareValue := 11 * ONE, lastUpdate := SECONDS_PER_YEAR,
                           accumulatedSinceLastUpdate := Mul(10 * ONE, FromInt(1000))))
  {
    FullUtilization(FromInt(1000));
    AtPar(10 * ONE);
    SteepYear(LentBank(), FromInt(1000), FromInt(1000), ONE);
  }

  lemma CapacityIs499()
    ensures Lent().Deposited(499, true) == Ok(499)
  {
    AtPar(FromInt(1000));
  }

  lemma RejectedAfter(l: Ledger, accrued: BankState)
    requires l.Deposited(499, true) == Ok(499) && |l.balances| == 3 && l.balances[2] == EMPTY_BALANCE
    requires l.bank.AccrueInterest(SECONDS_PER_YEAR, NO_FEES) == Ok(accrued)
    requires accrued.assetShareValue == 11 * ONE && accrued.totalAssetShares == FromInt(1000) && accrued.config == SteepConfig()
    ensures l.Deposit(2, 499, true, SECONDS_PER_YEAR, NO_FEES) == Err(BankAssetCapacityExceeded)
  {
    StillCountable(accrued);
    RejectedExactly(accrued, FromInt(1500), FromInt(499));
    DebtlessIncreaseMeetsLimit(Account(accrued, EMPTY_BALANCE), FromInt(499));
  }
}
