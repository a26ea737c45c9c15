/** What the bank's operations guarantee: deposit capacity, socialized losses and monotone accruals. */
module BankProperties {
  import opened Wrappers
  import opened FixedPoint
  import opened InterestCurve
  import opened InterestRate
  import opened BankLedger

  function Deposits(st: BankState): I80F48 {
    Mul(st.totalAssetShares, st.assetShareValue)
  }

  function Debts(st: BankState): I80F48 {
    Mul(st.totalLiabilityShares, st.liabilityShareValue)
  }

  /** The rates of an accrual, at the utilization it finds. */
  function AccrualRates(b: BankState, group: GroupFees): Option<ComputedInterestRates> {
    if Deposits(b) <= 0 then None
    else CalcInterestRate(CreateInterestRateCalculator(b.config.interestRateConfig, group), Div(Debts(b), Deposits(b)))
  }

  // ---- Deposit capacity ----

  /** A deposit of an amount: shares for it, added to the total. */
  function DepositAmount(st: BankState, amount: I80F48): Result<BankState> {
    var shares :- st.GetAssetShares(amount);
    st.ChangeAssetShares(shares, false)
  }

  /**
   With an active limit and deposits d below the limit l, the answer is the whole part of
   l - d, less one; the source raises MathError exactly when l - d is under one token (or the
   capacity is not a 64-bit number).
   */
  lemma CapacityIsExact(st: BankState, limit: I80F48)
    requires st.config.IsDepositLimitActive()
    requires st.GetAssetAmount(st.totalAssetShares) == Ok(Deposits(st)) && st.DepositLimit() == Ok(limit)
    requires 0 <= Deposits(st) < limit <= MAX_BITS
    ensures st.GetRemainingDepositCapacity().Err? <==>
      limit - Deposits(st) < ONE || (limit - Deposits(st)) / ONE - 1 > U64_MAX
    ensures st.GetRemainingDepositCapacity().Ok? ==>
      st.GetRemainingDepositCapacity().value == (limit - Deposits(st)) / ONE - 1
  {
  }

  /** Without an active limit there is no end to the capacity, and from the limit on there is none. */
  lemma CapacityOtherwise(st: BankState, limit: I80F48)
    ensures !st.config.IsDepositLimitActive() ==> st.GetRemainingDepositCapacity() == Ok(U64_MAX)
    ensures st.config.IsDepositLimitActive() && Fits(Deposits(st)) && st.DepositLimit() == Ok(limit) && Deposits(st) >= limit ==>
      st.GetRemainingDepositCapacity() == Ok(0)
  {
  }

  /** Shares bought at a positive share value are worth the amount paid, up to one share value. */
  lemma SharesForAmount(amount: I80F48, value: I80F48)
    requires amount >= 0 && value > 0
    ensures Div(amount, value) >= 0
    ensures value * Div(amount, value) <= amount * ONE < value * Div(amount, value) + value
  {
    DivIsFloor(amount, value);
  }

  /** Deposits after adding shares worth at least lo and at most hi (in units of 2^-96). */
  lemma DepositsAfter(shares: int, value: int, extra: int, lo: int, hi: int)
    requires lo <= value * extra <= hi
    ensures ONE * Mul(shares + extra, value) <= ONE * Mul(shares, value) + ONE - 1 + hi
    ensures ONE * Mul(shares + extra, value) > ONE * Mul(shares, value) + lo - ONE
  {
    MulBounds(shares, value);
    MulBounds(shares + extra, value);
    assert (shares + extra) * value == shares * value + value * extra;
  }

  /**
   A deposit of the reported capacity never breaches the limit: it is accepted with the
   deposits strictly below the limit, unless the arithmetic overflows.
   */
  lemma CapacityIsSafe(st: BankState, limit: I80F48, capacity: nat)
    requires st.config.IsDepositLimitActive() && st.assetShareValue >= 0 && st.totalAssetShares >= 0
    requires st.DepositLimit() == Ok(limit) && st.GetRemainingDepositCapacity() == Ok(capacity)
    requires Deposits(st) < limit
    ensures var r := DepositAmount(st, FromInt(capacity));
      match r
      case Ok(after) => Deposits(after) < limit
      case Err(e) => e == MathError
  {
    var value, gap := st.assetShareValue, limit - Deposits(st);
    assert FromInt(capacity) <= gap - ONE by {
      FloorBounds(gap - ONE, ONE);
    }
    if value == 0 {
      assert st.GetAssetShares(FromInt(capacity)) == Ok(0);
    } else {
      SharesForAmount(FromInt(capacity), value);
      var extra := Div(FromInt(capacity), value);
      MulNonNeg(value, extra);
      DepositsAfter(st.totalAssetShares, value, extra, 0, FromInt(capacity) * ONE);
      assert Mul(st.totalAssetShares + extra, value) < limit;
    }
  }

  /**
   That deposit is accepted exactly when the share count does not overflow: a bank whose
   shares are worth next to nothing may not be able to count the shares that fill it.
   */
  lemma CapacityIsAccepted(st: BankState, limit: I80F48, capacity: nat)
    requires st.config.IsDepositLimitActive() && st.assetShareValue >= 0 && 0 <= st.totalAssetShares <= MAX_BITS
    requires st.DepositLimit() == Ok(limit) && limit <= MAX_BITS && st.GetRemainingDepositCapacity() == Ok(capacity)
    requires Deposits(st) < limit
    ensures DepositAmount(st, FromInt(capacity)).Ok? <==>
      st.assetShareValue == 0 || st.totalAssetShares + Div(FromInt(capacity), st.assetShareValue) <= MAX_BITS
  {
    var value, gap := st.assetShareValue, limit - Deposits(st);
    FloorBounds(gap - ONE, ONE);
    if value == 0 {
      assert st.GetAssetShares(FromInt(capacity)) == Ok(0);
    } else {
      SharesForAmount(FromInt(capacity), value);
      var extra := Div(FromInt(capacity), value);
      MulNonNegative(st.totalAssetShares + extra, value);
      MulNonNeg(value, extra);
      DepositsAfter(st.totalAssetShares, value, extra, 0, FromInt(capacity) * ONE);
    }
  }

  /** Where a share is worth at least a token the count cannot overflow. */
  lemma CapacityFitsAboveOne(st: BankState, limit: I80F48, capacity: nat)
    requires st.config.IsDepositLimitActive() && st.assetShareValue >= ONE && 0 <= st.totalAssetShares <= MAX_BITS
    requires st.DepositLimit() == Ok(limit) && limit <= MAX_BITS && st.GetRemainingDepositCapacity() == Ok(capacity)
    requires Deposits(st) < limit
    ensures st.totalAssetShares + Div(FromInt(capacity), st.assetShareValue) <= MAX_BITS
  {
    var value, gap := st.assetShareValue, limit - Deposits(st);
    SharesForAmount(FromInt(capacity), value);
    var extra := Div(FromInt(capacity), value);
    FloorBounds(gap - ONE, ONE);
    assert extra <= FromInt(capacity) by {
      MulMono(extra, ONE, value);
    }
    assert st.totalAssetShares <= Deposits(st) by {
      MulMono(st.totalAssetShares, ONE, value);
      FloorIsGreatest(st.totalAssetShares * value, ONE, st.totalAssetShares);
    }
  }

  /** Where a share is worth one ulp the deposit of the reported capacity can fail, in an empty bank at that. */
  lemma CapacityCanOverflow(st: BankState)
    requires !st.config.isDrift && st.config.depositLimit == 0x1_0000_0000
    requires st.assetShareValue == 1 && st.totalAssetShares == 0
    ensures st.GetRemainingDepositCapacity() == Ok(0xFFFF_FFFF)
    ensures DepositAmount(st, FromInt(0xFFFF_FFFF)) == Err(MathError)
  {
    CapacityIsExact(st, FromInt(0x1_0000_0000));
    assert Div(FromInt(0xFFFF_FFFF), 1) == FromInt(0xFFFF_FFFF) * ONE;
  }

  /** Three tokens more are always rejected while a share is worth something, and less than 2^47 tokens. */
  lemma CapacityIsTight(st: BankState, limit: I80F48, capacity: nat)
    requires st.config.IsDepositLimitActive() && st.totalAssetShares >= 0
    requires 0 < st.assetShareValue < 0x8000_0000_0000 * ONE
    requires st.DepositLimit() == Ok(limit) && st.GetRemainingDepositCapacity() == Ok(capacity)
    ensures DepositAmount(st, FromInt(capacity + 3)).Err?
  {
    var value, gap, amount := st.assetShareValue, limit - Deposits(st), FromInt(capacity + 3);
    SharesForAmount(amount, value);
    var extra := Div(amount, value);
    assert extra > 0 by {
      if extra <= 0 {
        MulMono(value, extra, 0);
      }
    }
    DepositsAfter(st.totalAssetShares, value, extra, amount * ONE - value + 1, value * extra);
    if Deposits(st) < limit {
      FloorBounds(gap - ONE, ONE);
      assert amount > gap + ONE - 1;
    }
    assert Mul(st.totalAssetShares + extra, value) >= limit;
  }

  // ---- Socialized losses ----

  /** One loss: the share value never rises, the flag tells exactly whether it is gone. */
  lemma SocializeLossEffect(st: BankState, loss: I80F48)
    requires st.assetShareValue >= 0 && st.totalAssetShares >= 0 && loss >= 0
    requires st.SocializeLoss(loss).Ok?
    ensures var (after, kill) := st.SocializeLoss(loss).value;
      && after == st.(assetShareValue := after.assetShareValue)
      && 0 <= after.assetShareValue <= st.assetShareValue
      && (kill <==> after.assetShareValue == 0)
      && (kill <==> Deposits(st) <= loss || (Deposits(st) - loss) * ONE < st.totalAssetShares)
      && (!kill ==> loss <= Deposits(st) - Deposits(after) <= loss + st.totalAssetShares / ONE + 1)
  {
    var shares, value, total := st.totalAssetShares, st.assetShareValue, Deposits(st);
    MulBounds(shares, value);
    if total > loss {
      var n := total - loss;
      assert shares != 0;
      DivIsFloor(n, shares);
      var newValue := Div(n, shares);
      assert newValue <= value by {
        if newValue > value { MulMono(shares, value + 1, newValue); }
      }
      if newValue > 0 {
        MulMono(shares, 1, newValue);
      }
      MulBounds(shares, newValue);
      FloorIsGreatest(shares, ONE, n - Mul(shares, newValue) - 1);
    }
  }

  /** Taking a loss fails only where the worth of the deposits does not fit; in particular an empty bank takes it. */
  lemma SocializeLossFailsExactly(st: BankState, loss: I80F48)
    requires 0 <= st.assetShareValue <= MAX_BITS && st.totalAssetShares >= 0 && loss >= 0
    ensures st.SocializeLoss(loss).Ok? <==> Fits(Deposits(st))
  {
    var shares, value, total := st.totalAssetShares, st.assetShareValue, Deposits(st);
    MulBounds(shares, value);
    MulNonNegative(shares, value);
    if total > loss {
      DivIsFloor(total - loss, shares);
      var newValue := Div(total - loss, shares);
      if newValue > value {
        MulMono(shares, value + 1, newValue);
      }
    }
  }

  /** A sequence of losses, each applied to the result of the one before. */
  function SocializeAll(st: BankState, losses: seq<nat>): Result<BankState>
    decreases |losses|
  {
    if losses == [] then Ok(st)
    else
      var (after, _) :- st.SocializeLoss(losses[0]);
      SocializeAll(after, losses[1..])
  }

  /**
   Over any sequence of losses the share value only falls; while the bank survives, every loss
   has been taken out of deposits, and at most (shares / 2^48 + 1) ulps more per loss; once
   zero, the share value is zero for good.
   */
  lemma {:induction false} LossesAreTaken(st: BankState, losses: seq<nat>)
    requires st.assetShareValue >= 0 && st.totalAssetShares >= 0
    requires SocializeAll(st, losses).Ok?
    ensures var after := SocializeAll(st, losses).value;
      && after == st.(assetShareValue := after.assetShareValue)
      && 0 <= after.assetShareValue <= st.assetShareValue
      && (after.assetShareValue > 0 ==>
            Sum(losses) <= Deposits(st) - Deposits(after) <= Sum(losses) + |losses| * (st.totalAssetShares / ONE + 1))
    decreases |losses|
  {
    if losses != [] {
      SocializeLossEffect(st, losses[0]);
      var next := st.SocializeLoss(losses[0]).value.0;
      LossesAreTaken(next, losses[1..]);
      OneMoreLoss(|losses|, st.totalAssetShares / ONE + 1);
    }
  }

  lemma OneMoreLoss(n: int, slack: int)
    ensures n * slack == (n - 1) * slack + slack
  {
  }

  // ---- Accruals ----

  /** A successful accrual keeps the bank valid, touches no share, and lowers nothing. */
  lemma AccrualNeverDecreases(st: BankState, now: int, group: GroupFees)
    requires st.Valid() && st.AccrueInterest(now, group).Ok?
    ensures var after := st.AccrueInterest(now, group).value;
      && after.Valid() && after.lastUpdate == now >= st.lastUpdate
      && after.assetShareValue >= st.assetShareValue && after.liabilityShareValue >= st.liabilityShareValue
      && after.insuranceFees >= st.insuranceFees && after.groupFees >= st.groupFees && after.programFees >= st.programFees
      && after.totalAssetShares == st.totalAssetShares && after.totalLiabilityShares == st.totalLiabilityShares
      && after.config == st.config
      && (st.assetShareValue == 0 ==> after.assetShareValue == 0)
  {
    if now > st.lastUpdate && Deposits(st) != 0 && Debts(st) != 0 {
      var ir := CreateInterestRateCalculator(st.config.interestRateConfig, group);
      var c := CalcAccrualStateChanges(now - st.lastUpdate, Deposits(st), Debts(st), ir, st.assetShareValue, st.liabilityShareValue).value;
      AccrualOnlyAdds(st, now - st.lastUpdate, ir);
      RecordedChanges(st.(lastUpdate := now), c);
    }
  }

  lemma AccrualOnlyAdds(st: BankState, t: nat, ir: InterestRateCalc)
    requires st.Valid() && ir.curve == st.config.interestRateConfig.curve && Deposits(st) != 0
    requires CalcAccrualStateChanges(t, Deposits(st), Debts(st), ir, st.assetShareValue, st.liabilityShareValue).Some?
    ensures var c := CalcAccrualStateChanges(t, Deposits(st), Debts(st), ir, st.assetShareValue, st.liabilityShareValue).value;
      && c.newAssetShareValue >= st.assetShareValue && c.newLiabilityShareValue >= st.liabilityShareValue
      && c.insuranceFeesCollected >= 0 && c.groupFeesCollected >= 0 && c.protocolFeesCollected >= 0
      && (st.assetShareValue == 0 ==> c.newAssetShareValue == 0)
  {
    MulNonNegative(st.totalAssetShares, st.assetShareValue);
    MulNonNegative(st.totalLiabilityShares, st.liabilityShareValue);
    var u := Div(Debts(st), Deposits(st));
    BorrowersPayBaseAndFees(ir, u);
    AccrualGrowth(ir, t, Deposits(st), Debts(st), CalcInterestRate(ir, u).value, st.assetShareValue, st.liabilityShareValue);
  }

  lemma RecordedChanges(st: BankState, c: InterestRateStateChanges)
    requires st.RecordChanges(c).Ok?
    requires c.insuranceFeesCollected >= 0 && c.groupFeesCollected >= 0 && c.protocolFeesCollected >= 0
    ensures st.RecordChanges(c).value == st.(
      assetShareValue := c.newAssetShareValue, liabilityShareValue := c.newLiabilityShareValue,
      insuranceFees := st.insuranceFees + c.insuranceFeesCollected, groupFees := st.groupFees + c.groupFeesCollected,
      programFees := st.programFees + c.protocolFeesCollected,
      accumulatedSinceLastUpdate := Mul(c.newAssetShareValue - st.assetShareValue, st.totalAssetShares))
  {
  }

  /** Where an accrual's rates come from: the bank's curve at its utilization, and each fee from its own two settings. */
  lemma RatesOfConfig(st: BankState, group: GroupFees)
    requires st.Valid() && AccrualRates(st, group).Some?
    ensures var c, r := st.config.interestRateConfig, AccrualRates(st, group).value;
      && CurveRate(c.curve, Div(Debts(st), Deposits(st))) == Some(r.baseRateApr)
      && r.lendingRateApr == Mul(r.baseRateApr, Div(Debts(st), Deposits(st)))
      && r.insuranceFeeApr == Mul(r.baseRateApr, c.insuranceIrFee) + c.insuranceFeeFixedApr
      && r.groupFeeApr == Mul(r.baseRateApr, c.protocolIrFee) + c.protocolFixedFeeApr
      && r.protocolFeeApr == (if group.programFeesEnabled then Mul(r.baseRateApr, group.programFeeRate) + group.programFeeFixed else 0)
      && 0 <= r.borrowingRateApr - (r.baseRateApr + r.insuranceFeeApr + r.groupFeeApr + r.protocolFeeApr) <= 2
  {
    var ir := CreateInterestRateCalculator(st.config.interestRateConfig, group);
    var u := Div(Debts(st), Deposits(st));
    EachFeeIsItsOwn(ir, u);
    BorrowersPayBaseAndFees(ir, u);
  }

  /**
   What a successful accrual pays over time between users: both share values grow by the rates
   of the utilization it finds, deposits by the lending rate and debts by the borrowing rate,
   and each fee by its own rate on all debt.
   */
  lemma AccrualPaysInterest(st: BankState, now: int, group: GroupFees)
    requires st.Valid() && st.AccrueInterest(now, group).Ok?
    requires now > st.lastUpdate && Deposits(st) != 0 && Debts(st) != 0
    ensures AccrualRates(st, group).Some?
    ensures var rates, t, after := AccrualRates(st, group).value, now - st.lastUpdate, st.AccrueInterest(now, group).value;
      && after.assetShareValue == st.assetShareValue + Mul(st.assetShareValue, PeriodRate(rates.lendingRateApr, t))
      && after.liabilityShareValue == st.liabilityShareValue + Mul(st.liabilityShareValue, PeriodRate(rates.borrowingRateApr, t))
      && after.insuranceFees == st.insuranceFees + Mul(Debts(st), rates.insuranceFeeApr) * t / SECONDS_PER_YEAR
      && after.groupFees == st.groupFees + Mul(Debts(st), rates.groupFeeApr) * t / SECONDS_PER_YEAR
      && after.programFees == st.programFees + Mul(Debts(st), rates.protocolFeeApr) * t / SECONDS_PER_YEAR
      && after.accumulatedSinceLastUpdate == Mul(after.assetShareValue - st.assetShareValue, st.totalAssetShares)
  {
    var ir := CreateInterestRateCalculator(st.config.interestRateConfig, group);
    var t := now - st.lastUpdate;
    var c := CalcAccrualStateChanges(t, Deposits(st), Debts(st), ir, st.assetShareValue, st.liabilityShareValue).value;
    MulNonNegative(st.totalAssetShares, st.assetShareValue);
    MulNonNegative(st.totalLiabilityShares, st.liabilityShareValue);
    BorrowersPayBaseAndFees(ir, Div(Debts(st), Deposits(st)));
    AccrualGrowth(ir, t, Deposits(st), Debts(st), AccrualRates(st, group).value, st.assetShareValue, st.liabilityShareValue);
    RecordedChanges(st.(lastUpdate := now), c);
  }

  /** Without time, deposits or debts an accrual only moves the clock; before the last update it fails. */
  lemma AccrualWithoutInterest(st: BankState, now: int, group: GroupFees)
    ensures now < st.lastUpdate ==> st.AccrueInterest(now, group).Err?
    ensures st.AccrueInterest(now, group).Ok? && (now == st.lastUpdate || Deposits(st) == 0 || Debts(st) == 0) ==>
      st.AccrueInterest(now, group).value == st.(lastUpdate := now)
  {
  }

  /** Accruals at the given times under the given group fees; any failure fails the run. */
  function AccrueAll(st: BankState, calls: seq<(int, GroupFees)>): Result<BankState>
    decreases |calls|
  {
    if calls == [] then Ok(st)
    else
      var after :- st.AccrueInterest(calls[0].0, calls[0].1);
      AccrueAll(after, calls[1..])
  }

  /** Over any run of successful accruals, share values, fee totals and last_update never decrease. */
  lemma {:induction false} AccrualsNeverDecrease(st: BankState, calls: seq<(int, GroupFees)>)
    requires st.Valid() && AccrueAll(st, calls).Ok?
    ensures var after := AccrueAll(st, calls).value;
      && after.Valid() && after.lastUpdate >= st.lastUpdate
      && after.assetShareValue >= st.assetShareValue && after.liabilityShareValue >= st.liabilityShareValue
      && after.insuranceFees >= st.insuranceFees && after.groupFees >= st.groupFees && after.programFees >= st.programFees
    decreases |calls|
  {
    if calls != [] {
      AccrualNeverDecreases(st, calls[0].0, calls[0].1);
      AccrualsNeverDecrease(st.AccrueInterest(calls[0].0, calls[0].1).value, calls[1..]);
    }
  }
}
