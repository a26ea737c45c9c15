/**
 A year of interest at a flat 1000% without fees, on a bank at par. Half lent, its depositors
 earn half of what its borrowers pay on as much.
 */
module InterestExample {
  import opened Wrappers
  import opened FixedPoint
  import opened InterestCurve
  import opened InterestRate
  import opened BankLedger
  import opened BankProperties

  function SteepInterest(): InterestRateConfig {
    InterestRateConfig(Curve(U32_MAX, U32_MAX, []), 0, 0, 0, 0, 0)
  }

  const NO_FEES := GroupFees(false, 0, 0)

  lemma AtPar(x: I80F48)
    requires 0 <= x <= MAX_BITS
    ensures Mul(x, ONE) == x && Mul(ONE, x) == x && Div(x, ONE) == x
  {
  }

  predicate Feeless(ir: InterestRateCalc) {
    && ir.insuranceFixedFee == 0 && ir.insuranceRateFee == 0 && ir.protocolFixedFee == 0 && ir.protocolRateFee == 0
    && !ir.addProgramFees
  }

  /** A flat curve answers its one rate at every utilization. */
  lemma FlatRate(c: Curve, u: I80F48)
    requires ValidSevenPoint(c) && c.zeroUtilRate == c.hundredUtilRate
    ensures CurveRate(c, u) == Some(RateFromU32(c.hundredUtilRate))
  {
    ValidCurveIsTotal(c, u);
  }

  lemma TopRate(rate: u32)
    requires rate == U32_MAX
    ensures RateFromU32(rate) == 10 * ONE
  {
    RateIsTenTimesUtil(rate);
    UtilIsFloor(rate);
  }

  lemma SteepRate(c: Curve, u: I80F48)
    requires c.zeroUtilRate == c.hundredUtilRate == U32_MAX && c.points == []
    ensures ValidSevenPoint(c) && CurveRate(c, u) == Some(10 * ONE)
  {
    assert ValidWith(c, 0);
    FlatRate(c, u);
    TopRate(c.hundredUtilRate);
  }

  lemma FeelessSplit(u: I80F48, rate: I80F48)
    requires 0 <= rate <= 10 * ONE && 0 <= u <= ONE
    ensures 0 <= Mul(rate, u) <= rate
    ensures SplitBaseRate(Fees(0, 0, 0, 0, 0, 0), rate, u) == Some(ComputedInterestRates(rate, Mul(rate, u), rate, 0, 0, 0))
  {
    AtPar(rate);
    MulNonNegative(rate, u);
    MulIsMonotone(u, ONE, rate);
  }

  lemma FeelessRates(ir: InterestRateCalc, u: I80F48, rate: I80F48)
    requires Feeless(ir) && CurveRate(ir.curve, u) == Some(rate) && 0 <= rate <= 10 * ONE && 0 <= u <= ONE
    ensures CalcInterestRate(ir, u) == Some(ComputedInterestRates(rate, Mul(rate, u), rate, 0, 0, 0))
  {
    FeelessSplit(u, rate);
  }

  lemma SteepRates(ir: InterestRateCalc, u: I80F48)
    requires Feeless(ir) && ir.curve == Curve(U32_MAX, U32_MAX, []) && 0 <= u <= ONE
    ensures CalcInterestRate(ir, u) == Some(ComputedInterestRates(10 * ONE, Mul(10 * ONE, u), 10 * ONE, 0, 0, 0))
  {
    SteepRate(ir.curve, u);
    FeelessRates(ir, u, 10 * ONE);
  }

  lemma YearlyGrowth(rate: I80F48)
    requires 0 <= rate <= 10 * ONE
    ensures CalcAccruedInterestPaymentPerPeriod(rate, SECONDS_PER_YEAR, ONE) == Some(ONE + rate)
  {
    MulByWhole(rate, SECONDS_PER_YEAR);
    OverTheYear(rate, SECONDS_PER_YEAR);
    AtPar(ONE + rate);
  }

  lemma YearlyChanges(lending: I80F48, borrowing: I80F48, debt: I80F48)
    requires 0 <= lending <= 10 * ONE && 0 <= borrowing <= 10 * ONE
    ensures ChangesOverTime(ComputedInterestRates(borrowing, lending, borrowing, 0, 0, 0), SECONDS_PER_YEAR, debt, ONE, ONE)
         == Some(InterestRateStateChanges(ONE + lending, ONE + borrowing, 0, 0, 0))
  {
    YearlyGrowth(lending);
    YearlyGrowth(borrowing);
  }

  lemma SteepChanges(ir: InterestRateCalc, assets: I80F48, debt: I80F48, u: I80F48)
    requires Feeless(ir) && ir.curve == Curve(U32_MAX, U32_MAX, []) && CheckedDiv(debt, assets) == Some(u) && 0 <= u <= ONE
    ensures CalcAccrualStateChanges(SECONDS_PER_YEAR, assets, debt, ir, ONE, ONE)
         == Some(InterestRateStateChanges(ONE + Mul(10 * ONE, u), 11 * ONE, 0, 0, 0))
  {
    SteepRates(ir, u);
    FeelessSplit(u, 10 * ONE);
    YearlyChanges(Mul(10 * ONE, u), 10 * ONE, debt);
    ChangesFromRates(ir, assets, debt, u, ComputedInterestRates(10 * ONE, Mul(10 * ONE, u), 10 * ONE, 0, 0, 0));
  }

  lemma ChangesFromRates(ir: InterestRateCalc, assets: I80F48, debt: I80F48, u: I80F48, rates: ComputedInterestRates)
    requires CheckedDiv(debt, assets) == Some(u) && CalcInterestRate(ir, u) == Some(rates)
    ensures CalcAccrualStateChanges(SECONDS_PER_YEAR, assets, debt, ir, ONE, ONE)
         == ChangesOverTime(rates, SECONDS_PER_YEAR, debt, ONE, ONE)
  {
  }

  predicate AtParWith(st: BankState, assets: I80F48, debt: I80F48) {
    && st.assetShareValue == ONE && st.liabilityShareValue == ONE && st.lastUpdate == 0
    && st.totalAssetShares == assets && st.totalLiabilityShares == debt
  }

  /** Deposits and debts at par, a year later. */
  lemma SteepYear(st: BankState, assets: I80F48, debt: I80F48, u: I80F48)
    requires AtParWith(st, assets, debt) && st.config.interestRateConfig == SteepInterest()
    requires 0 < debt <= assets <= FromInt(1000) && CheckedDiv(debt, assets) == Some(u) && 0 <= u <= ONE
    ensures st.AccrueInterest(SECONDS_PER_YEAR, NO_FEES)
         == Ok(st.(assetShareValue := ONE + Mul(10 * ONE, u), liabilityShareValue := 11 * ONE, lastUpdate := SECONDS_PER_YEAR,
                   accumulatedSinceLastUpdate := Mul(Mul(10 * ONE, u), assets)))
  {
    var ir := CreateInterestRateCalculator(st.config.interestRateConfig, NO_FEES);
    var lending := Mul(10 * ONE, u);
    var changes := InterestRateStateChanges(ONE + lending, 11 * ONE, 0, 0, 0);
    SteepChanges(ir, assets, debt, u);
    GrownBank(st, assets, debt, changes);
    FeelessSplit(u, 10 * ONE);
    GrowthFits(lending, assets);
    RecordsGrowth(st.(lastUpdate := SECONDS_PER_YEAR), lending, assets, changes);
  }

  lemma GrownBank(st: BankState, assets: I80F48, debt: I80F48, changes: InterestRateStateChanges)
    requires AtParWith(st, assets, debt) && 0 < debt <= assets <= FromInt(1000)
    requires CalcAccrualStateChanges(SECONDS_PER_YEAR, assets, debt, CreateInterestRateCalculator(st.config.interestRateConfig, NO_FEES), ONE, ONE)
          == Some(changes)
    ensures st.AccrueInterest(SECONDS_PER_YEAR, NO_FEES) == st.(lastUpdate := SECONDS_PER_YEAR).RecordChanges(changes)
  {
    AtPar(assets);
    AtPar(debt);
    assert st.GetAssetAmount(st.totalAssetShares) == Ok(assets) && st.GetLiabilityAmount(st.totalLiabilityShares) == Ok(debt);
  }

  lemma RecordsGrowth(st: BankState, lending: I80F48, assets: I80F48, changes: InterestRateStateChanges)
    requires st.assetShareValue == ONE && st.totalAssetShares == assets && Fits(lending) && Fits(Mul(lending, assets))
    requires changes == InterestRateStateChanges(ONE + lending, 11 * ONE, 0, 0, 0)
    ensures st.RecordChanges(changes)
         == Ok(st.(assetShareValue := ONE + lending, liabilityShareValue := 11 * ONE, accumulatedSinceLastUpdate := Mul(lending, assets)))
  {
    assert changes.newAssetShareValue - st.assetShareValue == lending;
  }

  lemma GrowthFits(rate: I80F48, amount: I80F48)
    requires 0 <= rate <= 10 * ONE && 0 <= amount <= FromInt(1000)
    ensures 0 <= Mul(rate, amount) <= FromInt(10_000)
  {
    MulNonNegative(rate, amount);
    MulIsMonotone(rate, 10 * ONE, amount);
    MulIsMonotone(amount, FromInt(1000), 10 * ONE);
  }

  lemma FullUtilization(amount: I80F48)
    requires amount > 0
    ensures CheckedDiv(amount, amount) == Some(ONE)
  {
    DivIsFloor(amount, amount);
    FloorIsGreatest(amount * ONE, amount, ONE);
    if Div(amount, amount) > ONE {
      MulMono(amount, ONE + 1, Div(amount, amount));
    }
  }

  /** A thousand tokens deposited and half of them lent: a year later a deposited share is worth six, a borrowed one eleven. */
  lemma HalfLentYear(st: BankState)
    requires AtParWith(st, FromInt(1000), FromInt(500)) && st.config.interestRateConfig == SteepInterest()
    ensures st.AccrueInterest(SECONDS_PER_YEAR, NO_FEES).Ok?
    ensures var after := st.AccrueInterest(SECONDS_PER_YEAR, NO_FEES).value;
      after.assetShareValue == 6 * ONE && after.liabilityShareValue == 11 * ONE
  {
    assert Div(FromInt(500), FromInt(1000)) == ONE / 2;
    assert Mul(10 * ONE, ONE / 2) == 5 * ONE;
    SteepYear(st, FromInt(1000), FromInt(500), ONE / 2);
  }
}
