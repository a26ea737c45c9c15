/**
 The bank ledger: share totals, share values, outstanding fees and the timestamp of the last
 accrual. BankState is the value of a bank and gives each operation as a function; class Bank
 updates the same fields in place and is proved against those functions.
 */
module BankLedger {
  import opened Wrappers
  import opened FixedPoint
  import opened InterestCurve
  import opened InterestRate
  import opened Drift

  datatype InterestRateConfig = InterestRateConfig(
    curve: Curve,
    insuranceFeeFixedApr: nat,
    insuranceIrFee: nat,
    protocolFixedFeeApr: nat,
    protocolIrFee: nat,
    protocolOriginationFee: nat)

  /** The program fees cached on the group. */
  datatype GroupFees = GroupFees(programFeesEnabled: bool, programFeeFixed: nat, programFeeRate: nat)

  datatype BankConfig = BankConfig(
    depositLimit: nat,
    borrowLimit: nat,
    isDrift: bool,
    interestRateConfig: InterestRateConfig)
  {
    predicate IsDepositLimitActive() {
      depositLimit != U64_MAX
    }

    predicate IsBorrowLimitActive() {
      borrowLimit != U64_MAX
    }
  }

  function CreateInterestRateCalculator(c: InterestRateConfig, group: GroupFees): InterestRateCalc {
    InterestRateCalc(c.curve, c.insuranceFeeFixedApr, c.insuranceIrFee, c.protocolFixedFeeApr, c.protocolIrFee,
                     group.programFeesEnabled, group.programFeeFixed, group.programFeeRate)
  }

  /** Adds collected fees to an outstanding total, which a zero amount leaves alone. */
  function AddFees(outstanding: I80F48, collected: I80F48): Result<I80F48> {
    if collected > 0 then CheckedAdd(collected, outstanding).OrMathError() else Ok(outstanding)
  }

  datatype BankState = BankState(
    assetShareValue: I80F48,
    liabilityShareValue: I80F48,
    totalAssetShares: I80F48,
    totalLiabilityShares: I80F48,
    insuranceFees: I80F48,
    groupFees: I80F48,
    programFees: I80F48,
    lastUpdate: int,
    accumulatedSinceLastUpdate: I80F48,
    mintDecimals: nat,
    config: BankConfig)
  {
    /** No negative shares or share values, debt always worth something, and a validated interest curve. */
    ghost predicate Valid() {
      && assetShareValue >= 0 && liabilityShareValue > 0
      && totalAssetShares >= 0 && totalLiabilityShares >= 0
      && ValidSevenPoint(config.interestRateConfig.curve)
    }

    function FeesOutstanding(): I80F48 {
      insuranceFees + groupFees + programFees
    }

    function GetAssetAmount(shares: I80F48): Result<I80F48> {
      CheckedMul(shares, assetShareValue).OrMathError()
    }

    function GetLiabilityAmount(shares: I80F48): Result<I80F48> {
      CheckedMul(shares, liabilityShareValue).OrMathError()
    }

    function GetAssetShares(amount: I80F48): Result<I80F48> {
      if assetShareValue == 0 then Ok(0) else CheckedDiv(amount, assetShareValue).OrMathError()
    }

    function GetLiabilityShares(amount: I80F48): Result<I80F48> {
      CheckedDiv(amount, liabilityShareValue).OrMathError()
    }

    function DepositLimit(): Result<I80F48> {
      if config.isDrift then ScaleDriftDepositLimit(config.depositLimit, mintDecimals) else Ok(FromInt(config.depositLimit))
    }

    function GetRemainingDepositCapacity(): Result<nat> {
      if !config.IsDepositLimitActive() then Ok(U64_MAX)
      else
        var currentAssets :- GetAssetAmount(totalAssetShares);
        var limit :- DepositLimit();
        if currentAssets >= limit then Ok(0)
        else
          var gap :- CheckedSub(limit, currentAssets).OrMathError();
          var belowLimit :- CheckedSub(gap, ONE).OrMathError();
          CheckedToU64(belowLimit).OrMathError()
    }

    function ChangeAssetShares(shares: I80F48, bypassDepositLimit: bool): Result<BankState> {
      var total :- CheckedAdd(totalAssetShares, shares).OrMathError();
      var changed := this.(totalAssetShares := total);
      if shares > 0 && config.IsDepositLimitActive() && !bypassDepositLimit then
        var deposits :- GetAssetAmount(total);
        var limit :- DepositLimit();
        if deposits >= limit then Err(BankAssetCapacityExceeded) else Ok(changed)
      else
        Ok(changed)
    }

    function ChangeLiabilityShares(shares: I80F48, bypassBorrowLimit: bool): Result<BankState> {
      var total :- CheckedAdd(totalLiabilityShares, shares).OrMathError();
      var changed := this.(totalLiabilityShares := total);
      if !bypassBorrowLimit && shares > 0 && config.IsBorrowLimitActive() then
        var liabilities :- GetLiabilityAmount(total);
        if liabilities >= FromInt(config.borrowLimit) then Err(BankLiabilityCapacityExceeded) else Ok(changed)
      else
        Ok(changed)
    }

    function CheckUtilizationRatio(): Result<()> {
      var totalAssets :- GetAssetAmount(totalAssetShares);
      var totalLiabilities :- GetLiabilityAmount(totalLiabilityShares);
      Check(totalAssets >= totalLiabilities, IllegalUtilizationRatio)
    }

    /** Interest up to `now`; a time before the last update panics in the source. */
    function AccrueInterest(now: int, group: GroupFees): Result<BankState> {
      if now < lastUpdate then Err(Panic)
      else if now == lastUpdate then Ok(this)
      else
        var totalAssets :- GetAssetAmount(totalAssetShares);
        var totalLiabilities :- GetLiabilityAmount(totalLiabilityShares);
        if totalAssets == 0 || totalLiabilities == 0 then Ok(this.(lastUpdate := now))
        else
          var ir := CreateInterestRateCalculator(config.interestRateConfig, group);
          var changes :- CalcAccrualStateChanges(now - lastUpdate, totalAssets, totalLiabilities, ir,
                                                 assetShareValue, liabilityShareValue).OrMathError();
          this.(lastUpdate := now).RecordChanges(changes)
    }

    /** Stores the outcome of an accrual: new share values, and the fees on top of those outstanding. */
    function RecordChanges(changes: InterestRateStateChanges): Result<BankState> {
      var growth :- CheckedSub(changes.newAssetShareValue, assetShareValue).OrMathError();
      var accumulated :- CheckedMul(growth, totalAssetShares).OrMathError();
      var newGroupFees :- AddFees(groupFees, changes.groupFeesCollected);
      var newInsuranceFees :- AddFees(insuranceFees, changes.insuranceFeesCollected);
      var newProgramFees :- AddFees(programFees, changes.protocolFeesCollected);
      Ok(this.(assetShareValue := changes.newAssetShareValue, liabilityShareValue := changes.newLiabilityShareValue,
               insuranceFees := newInsuranceFees, groupFees := newGroupFees, programFees := newProgramFees,
               accumulatedSinceLastUpdate := accumulated))
    }

    /** Spreads a loss over depositors; true when the bank is dead. */
    function SocializeLoss(loss: I80F48): Result<(BankState, bool)> {
      var totalValue :- CheckedMul(totalAssetShares, assetShareValue).OrMathError();
      if totalValue <= loss then Ok((this.(assetShareValue := 0), true))
      else
        var remaining :- CheckedSub(totalValue, loss).OrMathError();
        var newValue :- CheckedDiv(remaining, totalAssetShares).OrMathError();
        Ok((this.(assetShareValue := newValue), newValue == 0))
    }
  }

  function NewBank(config: BankConfig, mintDecimals: nat, now: int): BankState {
    BankState(ONE, ONE, 0, 0, 0, 0, 0, now, 0, mintDecimals, config)
  }

  class Bank {
    var assetShareValue: I80F48
    var liabilityShareValue: I80F48
    var totalAssetShares: I80F48
    var totalLiabilityShares: I80F48
    var collectedInsuranceFeesOutstanding: I80F48
    var collectedGroupFeesOutstanding: I80F48
    var collectedProgramFeesOutstanding: I80F48
    var lastUpdate: int
    var accumulatedSinceLastUpdate: I80F48
    var config: BankConfig
    const mintDecimals: nat

    constructor (config: BankConfig, mintDecimals: nat, currentTimestamp: int)
      ensures State() == NewBank(config, mintDecimals, currentTimestamp)
    {
      assetShareValue, liabilityShareValue := ONE, ONE;
      totalAssetShares, totalLiabilityShares := 0, 0;
      collectedInsuranceFeesOutstanding, collectedGroupFeesOutstanding, collectedProgramFeesOutstanding := 0, 0, 0;
      lastUpdate, accumulatedSinceLastUpdate := currentTimestamp, 0;
      this.config, this.mintDecimals := config, mintDecimals;
    }

    function State(): BankState
      reads this
    {
      BankState(assetShareValue, liabilityShareValue, totalAssetShares, totalLiabilityShares,
                collectedInsuranceFeesOutstanding, collectedGroupFeesOutstanding, collectedProgramFeesOutstanding,
                lastUpdate, accumulatedSinceLastUpdate, mintDecimals, config)
    }

    /** On an error the total may already carry the shares; the transaction that raised it is reverted. */
    method ChangeAssetShares(shares: I80F48, bypassDepositLimit: bool) returns (r: Result<()>)
      modifies this`totalAssetShares
      ensures var spec := old(State()).ChangeAssetShares(shares, bypassDepositLimit);
        match spec
        case Ok(st) => r == Ok(()) && State() == st
        case Err(e) => r == Err(e) && (totalAssetShares == old(totalAssetShares) || totalAssetShares == old(totalAssetShares) + shares)
    {
      var total := CheckedAdd(totalAssetShares, shares);
      if total.None? {
        return Err(MathError);
      }
      totalAssetShares := total.value;
      if shares > 0 && config.IsDepositLimitActive() && !bypassDepositLimit {
        var totalDepositsAmount :- State().GetAssetAmount(totalAssetShares);
        var depositLimit :- State().DepositLimit();
        if totalDepositsAmount >= depositLimit {
          return Err(BankAssetCapacityExceeded);
        }
      }
      return Ok(());
    }

    method ChangeLiabilityShares(shares: I80F48, bypassBorrowLimit: bool) returns (r: Result<()>)
      modifies this`totalLiabilityShares
      ensures var spec := old(State()).ChangeLiabilityShares(shares, bypassBorrowLimit);
        match spec
        case Ok(st) => r == Ok(()) && State() == st
        case Err(e) => r == Err(e) && (totalLiabilityShares == old(totalLiabilityShares) || totalLiabilityShares == old(totalLiabilityShares) + shares)
    {
      var total := CheckedAdd(totalLiabilityShares, shares);
      if total.None? {
        return Err(MathError);
      }
      totalLiabilityShares := total.value;
      if !bypassBorrowLimit && shares > 0 && config.IsBorrowLimitActive() {
        var totalLiabilityAmount :- State().GetLiabilityAmount(totalLiabilityShares);
        if totalLiabilityAmount >= FromInt(config.borrowLimit) {
          return Err(BankLiabilityCapacityExceeded);
        }
      }
      return Ok(());
    }

    /** On an error the accrual may be half recorded, share totals aside; the transaction is reverted. */
    method AccrueInterest(currentTimestamp: int, group: GroupFees) returns (r: Result<()>)
      modifies this`assetShareValue, this`liabilityShareValue, this`lastUpdate, this`accumulatedSinceLastUpdate
      modifies this`collectedInsuranceFeesOutstanding, this`collectedGroupFeesOutstanding, this`collectedProgramFeesOutstanding
      ensures var spec := old(State()).AccrueInterest(currentTimestamp, group);
        match spec
        case Ok(st) => r == Ok(()) && State() == st
        case Err(e) => r == Err(e)
    {
      if currentTimestamp < lastUpdate {
        return Err(Panic);
      }
      var timeDelta := currentTimestamp - lastUpdate;
      if timeDelta == 0 {
        return Ok(());
      }
      var totalAssets :- State().GetAssetAmount(totalAssetShares);
      var totalLiabilities :- State().GetLiabilityAmount(totalLiabilityShares);
      lastUpdate := currentTimestamp;
      if totalAssets == 0 || totalLiabilities == 0 {
        return Ok(());
      }
      var ir := CreateInterestRateCalculator(config.interestRateConfig, group);
      var changes :- CalcAccrualStateChanges(timeDelta, totalAssets, totalLiabilities, ir, assetShareValue, liabilityShareValue).OrMathError();
      r := RecordChanges(changes);
    }

    /** The last part of AccrueInterest: stores the new share values and adds the collected fees. */
    method RecordChanges(changes: InterestRateStateChanges) returns (r: Result<()>)
      modifies this`assetShareValue, this`liabilityShareValue, this`accumulatedSinceLastUpdate
      modifies this`collectedInsuranceFeesOutstanding, this`collectedGroupFeesOutstanding, this`collectedProgramFeesOutstanding
      ensures var spec := old(State()).RecordChanges(changes);
        match spec
        case Ok(st) => r == Ok(()) && State() == st
        case Err(e) => r == Err(e)
    {
      var growth :- CheckedSub(changes.newAssetShareValue, assetShareValue).OrMathError();
      var accumulated :- CheckedMul(growth, totalAssetShares).OrMathError();
      accumulatedSinceLastUpdate := accumulated;
      assetShareValue := changes.newAssetShareValue;
      liabilityShareValue := changes.newLiabilityShareValue;
      if changes.groupFeesCollected > 0 {
        collectedGroupFeesOutstanding :- CheckedAdd(changes.groupFeesCollected, collectedGroupFeesOutstanding).OrMathError();
      }
      if changes.insuranceFeesCollected > 0 {
        collectedInsuranceFeesOutstanding :- CheckedAdd(changes.insuranceFeesCollected, collectedInsuranceFeesOutstanding).OrMathError();
      }
      if changes.protocolFeesCollected > 0 {
        collectedProgramFeesOutstanding :- CheckedAdd(changes.protocolFeesCollected, collectedProgramFeesOutstanding).OrMathError();
      }
      return Ok(());
    }

    method SocializeLoss(lossAmount: I80F48) returns (r: Result<bool>)
      modifies this`assetShareValue
      ensures var spec := old(State()).SocializeLoss(lossAmount);
        match spec
        case Ok((st, kill)) => r == Ok(kill) && State() == st
        case Err(e) => r == Err(e) && State() == old(State())
    {
      var killBank := false;
      var totalValue :- CheckedMul(totalAssetShares, assetShareValue).OrMathError();
      if totalValue <= lossAmount {
        assetShareValue := 0;
        killBank := true;
      } else {
        var remaining :- CheckedSub(totalValue, lossAmount).OrMathError();
        var newShareValue :- CheckedDiv(remaining, totalAssetShares).OrMathError();
        assetShareValue := newShareValue;
        if newShareValue == 0 {
          killBank := true;
        }
      }
      return Ok(killBank);
    }
  }
}
