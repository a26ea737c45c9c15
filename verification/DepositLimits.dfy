/**
 Deposits up to the limit, whose capacity is measured before the accrual that precedes them:
 interest accrued meanwhile takes up part of the room.
 */
module DepositLimits {
  import opened Wrappers
  import opened FixedPoint
  import opened BankLedger
  import opened BankProperties
  import opened BankAccount
  import opened LendingLedger
  import opened Conservation

  /** Worth that a deposit loses to flooring, first into shares and then in the total. */
  function Lost(st: BankState, amount: I80F48): I80F48
    requires st.assetShareValue != 0
  {
    Deposits(st) + amount - Mul(st.totalAssetShares + Div(amount, st.assetShareValue), st.assetShareValue)
  }

  /** The deposit buys shares, and neither their count nor their worth overflows. */
  predicate Countable(st: BankState, amount: I80F48) {
    && st.assetShareValue > 0 && Div(amount, st.assetShareValue) > 0
    && Fits(Div(amount, st.assetShareValue)) && Fits(st.totalAssetShares + Div(amount, st.assetShareValue))
    && Fits(Mul(st.totalAssetShares + Div(amount, st.assetShareValue), st.assetShareValue))
  }

  lemma LostIsSmall(st: BankState, amount: I80F48)
    requires st.assetShareValue > 0 && st.totalAssetShares >= 0 && amount >= 0
    ensures 0 <= Lost(st, amount) <= st.assetShareValue / ONE + 1
  {
    var value := st.assetShareValue;
    SharesForAmount(amount, value);
    DepositsAfter(st.totalAssetShares, value, Div(amount, value), amount * ONE - value + 1, amount * ONE);
    FloorBounds(value, ONE);
  }

  /** A deposit is rejected for the limit exactly when it can be counted and, apart from what flooring loses, reaches the limit. */
  lemma RejectedExactly(st: BankState, limit: I80F48, amount: I80F48)
    requires st.config.IsDepositLimitActive() && st.DepositLimit() == Ok(limit)
    requires st.assetShareValue >= 0 && st.totalAssetShares >= 0 && amount >= 0
    ensures DepositAmount(st, amount) == Err(BankAssetCapacityExceeded) <==>
      Countable(st, amount) && Deposits(st) + amount - Lost(st, amount) >= limit
  {
  }

  /** The room left by a deposit of the whole capacity: one token and the fraction of the gap. */
  lemma RoomBeyondCapacity(st: BankState, limit: I80F48, capacity: nat)
    requires st.config.IsDepositLimitActive() && st.DepositLimit() == Ok(limit)
    requires st.GetRemainingDepositCapacity() == Ok(capacity) && Deposits(st) < limit
    ensures limit - Deposits(st) - FromInt(capacity) == ONE + (limit - Deposits(st)) % ONE
  {
  }

  /**
   The whole capacity, measured before an accrual and deposited after it, is rejected for the
   limit exactly when deposits have grown by one token and the fraction of the gap, apart from
   what flooring loses of the deposit.
   */
  lemma CapacityBeforeAccrual(st: BankState, accrued: BankState, limit: I80F48, capacity: nat)
    requires st.config.IsDepositLimitActive() && accrued.config == st.config && accrued.mintDecimals == st.mintDecimals
    requires accrued.assetShareValue >= 0 && accrued.totalAssetShares >= 0
    requires st.DepositLimit() == Ok(limit) && st.GetRemainingDepositCapacity() == Ok(capacity) && Deposits(st) < limit
    ensures DepositAmount(accrued, FromInt(capacity)) == Err(BankAssetCapacityExceeded) <==>
      && Countable(accrued, FromInt(capacity))
      && Deposits(accrued) - Deposits(st) - Lost(accrued, FromInt(capacity)) >= ONE + (limit - Deposits(st)) % ONE
  {
    RejectedExactly(accrued, limit, FromInt(capacity));
    RoomBeyondCapacity(st, limit, capacity);
  }

  lemma SomeSharesBought(amount: int, value: int, extra: int)
    requires amount >= ONE && 0 < value < 0x8000_0000_0000 * ONE && amount * ONE < value * extra + value
    ensures extra > 0
  {
    if extra <= 0 {
      MulMono(value, extra, 0);
    }
  }

  /** An increase fails on the deposit limit only where depositing its rest does, and succeeds only where that does. */
  lemma IncreaseMeetsLimit(acc: Account, delta: I80F48)
    ensures acc.IncreaseBalance(delta, DepositOnly) == Err(BankAssetCapacityExceeded) ==>
              DepositAmount(acc.bank, DepositedRest(acc, delta)) == Err(BankAssetCapacityExceeded)
    ensures acc.IncreaseBalance(delta, DepositOnly).Ok? ==> DepositAmount(acc.bank, DepositedRest(acc, delta)).Ok?
  {
  }

  /** For a user without debt whose shares are among the bank's, it fails on the limit exactly there. */
  lemma DebtlessIncreaseMeetsLimit(acc: Account, delta: nat)
    requires acc.balance.liabilityShares == 0 && delta <= MAX_BITS
    requires 0 <= acc.balance.assetShares <= acc.bank.totalAssetShares && acc.bank.assetShareValue >= 0
    ensures acc.IncreaseBalance(delta, DepositOnly) == Err(BankAssetCapacityExceeded) <==>
              DepositAmount(acc.bank, delta) == Err(BankAssetCapacityExceeded)
  {
    if acc.bank.assetShareValue > 0 {
      DivIsFloor(delta, acc.bank.assetShareValue);
    }
  }

  /**
   On the ledger, for a user without debt: an up-to-limit deposit fails on the limit exactly
   when its accrual adds to deposits what the tokens it settled on leave of the room, apart
   from what flooring loses; for the whole capacity that is one token and the fraction of the gap.
   */
  lemma UpToLimitFailsExactly(l: Ledger, i: nat, amount: nat, now: int, group: GroupFees, limit: I80F48, tokens: nat)
    requires Inv(l) && l.bank.config.IsDepositLimitActive() && l.bank.DepositLimit() == Ok(limit) && Deposits(l.bank) < limit <= MAX_BITS
    requires l.Deposited(amount, true) == Ok(tokens) && tokens > 0 && i < |l.balances| && l.balances[i].liabilityShares == 0
    requires l.Accrue(now, group).Ok?
    ensures var accrued := l.Accrue(now, group).value.bank;
      l.Deposit(i, amount, true, now, group) == Err(BankAssetCapacityExceeded) <==>
        && Countable(accrued, FromInt(tokens))
        && Deposits(accrued) - Deposits(l.bank) - Lost(accrued, FromInt(tokens)) >= limit - Deposits(l.bank) - FromInt(tokens)
    ensures limit - Deposits(l.bank) - FromInt(tokens) >= ONE + (limit - Deposits(l.bank)) % ONE
    ensures l.bank.GetRemainingDepositCapacity() == Ok(tokens) ==>
      limit - Deposits(l.bank) - FromInt(tokens) == ONE + (limit - Deposits(l.bank)) % ONE
  {
    var accrued := l.Accrue(now, group).value;
    AccruedBank(l, now, group);
    RoomBeyondCapacity(l.bank, limit, l.bank.GetRemainingDepositCapacity().value);
    TotalsCoverEach(accrued.balances, i);
    MulNonNegative(l.bank.totalAssetShares, l.bank.assetShareValue);
    DebtlessIncreaseMeetsLimit(Account(accrued.bank, accrued.balances[i]), FromInt(tokens));
    RejectedExactly(accrued.bank, limit, FromInt(tokens));
  }

  lemma AccruedBank(l: Ledger, now: int, group: GroupFees)
    requires Inv(l) && l.Accrue(now, group).Ok?
    ensures var accrued := l.Accrue(now, group).value;
      && Inv(accrued) && accrued.balances == l.balances
      && accrued.bank.config == l.bank.config && accrued.bank.mintDecimals == l.bank.mintDecimals
  {
    AccrualKeepsLimits(l.bank, now, group);
    AccrualNeverDecreases(l.bank, now, group);
  }

  /** For any user: never while the accrual adds less than one token and the fraction of the gap to deposits. */
  lemma UpToLimitIsWithinLimit(l: Ledger, i: nat, amount: nat, now: int, group: GroupFees, limit: I80F48)
    requires Inv(l) && l.bank.config.IsDepositLimitActive() && l.bank.DepositLimit() == Ok(limit)
    requires l.Accrue(now, group).Ok?
    requires Deposits(l.Accrue(now, group).value.bank) - Deposits(l.bank) < ONE + (limit - Deposits(l.bank)) % ONE
    ensures l.Deposit(i, amount, true, now, group) != Err(BankAssetCapacityExceeded)
  {
    var accrued := l.Accrue(now, group).value;
    AccruedBank(l, now, group);
    if l.Deposited(amount, true).Ok? && Deposits(l.bank) < limit {
      RoomBeyondCapacity(l.bank, limit, l.bank.GetRemainingDepositCapacity().value);
      PutInWithinLimit(accrued, i, l.Deposited(amount, true).value, limit);
    }
  }

  lemma PutInWithinLimit(l: Ledger, i: nat, tokens: nat, limit: I80F48)
    requires Inv(l) && l.bank.config.IsDepositLimitActive() && l.bank.DepositLimit() == Ok(limit)
    requires Deposits(l.bank) + FromInt(tokens) < limit
    ensures l.PutIn(i, tokens) != Err(BankAssetCapacityExceeded)
  {
    if i < |l.balances| {
      var acc := Account(l.bank, l.balances[i]);
      MulNonNegative(acc.balance.liabilityShares, l.bank.liabilityShareValue);
      IncreaseMeetsLimit(acc, FromInt(tokens));
      BelowLimitIsAccepted(l.bank, limit, DepositedRest(acc, FromInt(tokens)));
    }
  }

  lemma BelowLimitIsAccepted(st: BankState, limit: I80F48, amount: I80F48)
    requires st.config.IsDepositLimitActive() && st.DepositLimit() == Ok(limit) && amount >= 0
    requires st.assetShareValue >= 0 && st.totalAssetShares >= 0 && Deposits(st) + amount < limit
    ensures DepositAmount(st, amount) != Err(BankAssetCapacityExceeded)
  {
    RejectedExactly(st, limit, amount);
    if st.assetShareValue > 0 {
      LostIsSmall(st, amount);
    }
  }

  /** And for a user without debt the whole capacity always fails once it adds at most a share ulp's worth more than that. */
  lemma UpToLimitCanFail(l: Ledger, i: nat, amount: nat, now: int, group: GroupFees, limit: I80F48, capacity: nat)
    requires Inv(l) && l.bank.config.IsDepositLimitActive() && l.bank.DepositLimit() == Ok(limit) && Deposits(l.bank) < limit
    requires l.bank.GetRemainingDepositCapacity() == Ok(capacity) && 0 < capacity <= amount
    requires i < |l.balances| && l.balances[i].liabilityShares == 0
    requires l.Accrue(now, group).Ok?
    requires var after := l.Accrue(now, group).value.bank;
      && 0 < after.assetShareValue < 0x8000_0000_0000 * ONE
      && Deposits(after) - Deposits(l.bank) >= ONE + (limit - Deposits(l.bank)) % ONE + after.assetShareValue / ONE + 1
    ensures l.Deposit(i, amount, true, now, group).Err?
  {
    var accrued := l.Accrue(now, group).value;
    AccruedBank(l, now, group);
    FullCapacityFails(l.bank, accrued.bank, limit, capacity);
    PutInFails(accrued, i, capacity);
  }

  lemma PutInFails(l: Ledger, i: nat, tokens: nat)
    requires i < |l.balances| && l.balances[i].liabilityShares == 0 && DepositAmount(l.bank, FromInt(tokens)).Err?
    ensures l.PutIn(i, tokens).Err?
  {
    IncreaseMeetsLimit(Account(l.bank, l.balances[i]), FromInt(tokens));
  }

  lemma FullCapacityFails(st: BankState, accrued: BankState, limit: I80F48, capacity: nat)
    requires st.config.IsDepositLimitActive() && accrued.config == st.config && accrued.mintDecimals == st.mintDecimals
    requires 0 < accrued.assetShareValue < 0x8000_0000_0000 * ONE && accrued.totalAssetShares >= 0
    requires st.DepositLimit() == Ok(limit) && st.GetRemainingDepositCapacity() == Ok(capacity) && Deposits(st) < limit && capacity > 0
    requires Deposits(accrued) - Deposits(st) >= ONE + (limit - Deposits(st)) % ONE + accrued.assetShareValue / ONE + 1
    ensures DepositAmount(accrued, FromInt(capacity)).Err?
  {
    var value, amount := accrued.assetShareValue, FromInt(capacity);
    SharesForAmount(amount, value);
    SomeSharesBought(amount, value, Div(amount, value));
    LostIsSmall(accrued, amount);
    CapacityBeforeAccrual(st, accrued, limit, capacity);
  }

  /** A deposit that adds asset shares leaves deposits below an active limit, measured after its accrual. */
  lemma DepositStaysWithinLimit(l: Ledger, i: nat, amount: nat, upToLimit: bool, now: int, group: GroupFees, limit: I80F48)
    requires Inv(l) && l.bank.config.IsDepositLimitActive() && l.bank.DepositLimit() == Ok(limit)
    requires l.Deposit(i, amount, upToLimit, now, group).Ok?
    ensures var after := l.Deposit(i, amount, upToLimit, now, group).value.bank;
      after.totalAssetShares > l.bank.totalAssetShares ==> Deposits(after) < limit
  {
    if l.Deposited(amount, upToLimit).value != 0 {
      AccruedBank(l, now, group);
      AccrualNeverDecreases(l.bank, now, group);
      PutInStaysWithinLimit(l.Accrue(now, group).value, i, l.Deposited(amount, upToLimit).value, limit);
    }
  }

  lemma PutInStaysWithinLimit(l: Ledger, i: nat, tokens: nat, limit: I80F48)
    requires l.bank.config.IsDepositLimitActive() && l.bank.DepositLimit() == Ok(limit) && l.PutIn(i, tokens).Ok?
    ensures var after := l.PutIn(i, tokens).value.bank;
      after.totalAssetShares > l.bank.totalAssetShares ==> Deposits(after) < limit
  {
    var acc := Account(l.bank, l.balances[i]);
    assert acc.IncreaseBalance(FromInt(tokens), DepositOnly).Ok?;
  }

  lemma AccrualKeepsLimits(st: BankState, now: int, group: GroupFees)
    requires st.AccrueInterest(now, group).Ok?
    ensures var after := st.AccrueInterest(now, group).value;
      after.config == st.config && after.mintDecimals == st.mintDecimals
  {
  }
}
