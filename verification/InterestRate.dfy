/**
 From a utilization to the rates charged and paid, and from those rates to the new share
 values and the fees of one accrual. The rounding of each step is bounded here, and the
 bounds add up to the conservation law of an accrual.
 */
module InterestRate {
  import opened Wrappers
  import opened FixedPoint
  import opened InterestCurve

  const SECONDS_PER_YEAR: int := 31_536_000

  datatype Fees = Fees(
    insuranceFeeRate: nat,
    insuranceFeeFixed: nat,
    groupFeeRate: nat,
    groupFeeFixed: nat,
    protocolFeeRate: nat,
    protocolFeeFixed: nat)
  {
    function FixedTotal(): nat {
      insuranceFeeFixed + groupFeeFixed + protocolFeeFixed
    }

    function RateTotal(): nat {
      insuranceFeeRate + groupFeeRate + protocolFeeRate
    }
  }

  datatype InterestRateCalc = InterestRateCalc(
    curve: Curve,
    insuranceFixedFee: nat,
    insuranceRateFee: nat,
    protocolFixedFee: nat,
    protocolRateFee: nat,
    addProgramFees: bool,
    programFeeFixed: nat,
    programFeeRate: nat)
  {
    function GetFees(): Fees {
      Fees(insuranceRateFee, insuranceFixedFee, protocolRateFee, protocolFixedFee,
           if addProgramFees then programFeeRate else 0,
           if addProgramFees then programFeeFixed else 0)
    }
  }

  datatype ComputedInterestRates = ComputedInterestRates(
    baseRateApr: I80F48,
    lendingRateApr: I80F48,
    borrowingRateApr: I80F48,
    groupFeeApr: I80F48,
    insuranceFeeApr: I80F48,
    protocolFeeApr: I80F48)
  {
    function FeeAprs(): I80F48 {
      insuranceFeeApr + groupFeeApr + protocolFeeApr
    }

    predicate NonNegative() {
      lendingRateApr >= 0 && borrowingRateApr >= 0 && groupFeeApr >= 0 && insuranceFeeApr >= 0 && protocolFeeApr >= 0
    }
  }

  datatype InterestRateStateChanges = InterestRateStateChanges(
    newAssetShareValue: I80F48,
    newLiabilityShareValue: I80F48,
    insuranceFeesCollected: I80F48,
    groupFeesCollected: I80F48,
    protocolFeesCollected: I80F48)
  {
    function FeesCollected(): I80F48 {
      insuranceFeesCollected + groupFeesCollected + protocolFeesCollected
    }
  }

  function CalcFeeRate(baseRate: I80F48, rateFees: I80F48, fixedFees: I80F48): Option<I80F48> {
    if rateFees == 0 then Some(fixedFees)
    else
      var scaled :- CheckedMul(baseRate, rateFees);
      CheckedAdd(scaled, fixedFees)
  }

  /** The rates at a utilization. */
  function CalcInterestRate(ir: InterestRateCalc, utilization: I80F48): Option<ComputedInterestRates> {
    var base :- CurveRate(ir.curve, utilization);
    SplitBaseRate(ir.GetFees(), base, utilization)
  }

  /** The base rate split up. A negative rate trips an assertion of the source: None here. */
  function SplitBaseRate(f: Fees, base: I80F48, utilization: I80F48): Option<ComputedInterestRates> {
    var feeIr :- Checked(f.RateTotal());
    var feeFixed :- Checked(f.FixedTotal());
    var lending :- CheckedMul(base, utilization);
    var onePlusFee :- CheckedAdd(ONE, feeIr);
    var scaled :- CheckedMul(base, onePlusFee);
    var borrowing :- CheckedAdd(scaled, feeFixed);
    var groupFee :- CalcFeeRate(base, f.groupFeeRate, f.groupFeeFixed);
    var insuranceFee :- CalcFeeRate(base, f.insuranceFeeRate, f.insuranceFeeFixed);
    var protocolFee :- CalcFeeRate(base, f.protocolFeeRate, f.protocolFeeFixed);
    var rates := ComputedInterestRates(base, lending, borrowing, groupFee, insuranceFee, protocolFee);
    if rates.NonNegative() then Some(rates) else None
  }

  function CalcAccruedInterestPaymentPerPeriod(apr: I80F48, timeDelta: nat, value: I80F48): Option<I80F48> {
    var overTime :- CheckedMul(apr, FromInt(timeDelta));
    var irPerPeriod :- CheckedDiv(overTime, FromInt(SECONDS_PER_YEAR));
    var factor :- CheckedAdd(ONE, irPerPeriod);
    CheckedMul(value, factor)
  }

  function CalcInterestPaymentForPeriod(apr: I80F48, timeDelta: nat, value: I80F48): Option<I80F48> {
    if apr == 0 then Some(0)
    else
      var yearly :- CheckedMul(value, apr);
      var overTime :- CheckedMul(yearly, FromInt(timeDelta));
      CheckedDiv(overTime, FromInt(SECONDS_PER_YEAR))
  }

  function CalcAccrualStateChanges(
    timeDelta: nat, totalAssets: I80F48, totalLiabilities: I80F48,
    ir: InterestRateCalc, assetShareValue: I80F48, liabilityShareValue: I80F48)
    : Option<InterestRateStateChanges>
  {
    var utilization :- CheckedDiv(totalLiabilities, totalAssets);
    var rates :- CalcInterestRate(ir, utilization);
    ChangesOverTime(rates, timeDelta, totalLiabilities, assetShareValue, liabilityShareValue)
  }

  /** What the rates do to the share values and the fees over a period. */
  function ChangesOverTime(rates: ComputedInterestRates, timeDelta: nat, totalLiabilities: I80F48, assetShareValue: I80F48,
                           liabilityShareValue: I80F48): Option<InterestRateStateChanges>
  {
    var newAsset :- CalcAccruedInterestPaymentPerPeriod(rates.lendingRateApr, timeDelta, assetShareValue);
    var newLiability :- CalcAccruedInterestPaymentPerPeriod(rates.borrowingRateApr, timeDelta, liabilityShareValue);
    var insurance :- CalcInterestPaymentForPeriod(rates.insuranceFeeApr, timeDelta, totalLiabilities);
    var group :- CalcInterestPaymentForPeriod(rates.groupFeeApr, timeDelta, totalLiabilities);
    var protocol :- CalcInterestPaymentForPeriod(rates.protocolFeeApr, timeDelta, totalLiabilities);
    Some(InterestRateStateChanges(newAsset, newLiability, insurance, group, protocol))
  }

  // ---- The rates ----

  lemma FeeRateIsFloor(base: I80F48, rate: nat, fixedFee: nat)
    requires base >= 0
    ensures CalcFeeRate(base, rate, fixedFee).Some? ==> CalcFeeRate(base, rate, fixedFee).value == Mul(base, rate) + fixedFee
    ensures Mul(base, rate) >= 0
  {
    MulNonNegative(base, rate);
    MulBounds(base, 0);
  }

  lemma BaseRateIsNonNegative(c: Curve, ur: I80F48)
    requires ValidSevenPoint(c)
    ensures CurveRate(c, ur).Some? && CurveRate(c, ur).value >= 0
  {
    ValidCurveIsTotal(c, ur);
    RateIsTenTimesUtil(c.zeroUtilRate);
  }

  /** Flooring three products apart loses at most two ulps against flooring their sum. */
  lemma SplitFloors(x: int, i: int, g: int, p: int)
    ensures 0 <= Mul(x, i + g + p) - (Mul(x, i) + Mul(x, g) + Mul(x, p)) <= 2
  {
    MulBounds(x, i);
    MulBounds(x, g);
    MulBounds(x, p);
    MulBounds(x, i + g + p);
    assert x * (i + g + p) == x * i + x * g + x * p;
  }

  /**
   The borrowing rate is the base rate plus the three fee rates, up to two ulps in the
   borrower's disfavour; and lenders get the base rate scaled by utilization.
   */
  lemma BorrowersPayBaseAndFees(ir: InterestRateCalc, utilization: I80F48)
    requires ValidSevenPoint(ir.curve)
    requires CalcInterestRate(ir, utilization).Some?
    ensures var r := CalcInterestRate(ir, utilization).value;
      && CurveRate(ir.curve, utilization) == Some(r.baseRateApr) && r.baseRateApr >= 0
      && 0 <= r.borrowingRateApr - (r.baseRateApr + r.FeeAprs()) <= 2
      && r.lendingRateApr == Mul(r.baseRateApr, utilization) && r.NonNegative()
  {
    var f := ir.GetFees();
    BaseRateIsNonNegative(ir.curve, utilization);
    var base := CurveRate(ir.curve, utilization).value;
    FeeRateIsFloor(base, f.groupFeeRate, f.groupFeeFixed);
    FeeRateIsFloor(base, f.insuranceFeeRate, f.insuranceFeeFixed);
    FeeRateIsFloor(base, f.protocolFeeRate, f.protocolFeeFixed);
    SplitFloors(base, f.insuranceFeeRate, f.groupFeeRate, f.protocolFeeRate);
    OnePlusFee(base, f.RateTotal());
  }

  /** Each fee is its own floored share of the base rate and its own fixed rate; the program's only where it is enabled. */
  lemma EachFeeIsItsOwn(ir: InterestRateCalc, utilization: I80F48)
    requires CalcInterestRate(ir, utilization).Some?
    ensures var r := CalcInterestRate(ir, utilization).value;
      && r.insuranceFeeApr == Mul(r.baseRateApr, ir.insuranceRateFee) + ir.insuranceFixedFee
      && r.groupFeeApr == Mul(r.baseRateApr, ir.protocolRateFee) + ir.protocolFixedFee
      && r.protocolFeeApr == if ir.addProgramFees then Mul(r.baseRateApr, ir.programFeeRate) + ir.programFeeFixed else 0
  {
    assert Mul(CurveRate(ir.curve, utilization).value, 0) == 0;
  }

  lemma OnePlusFee(x: int, f: int)
    ensures Mul(x, ONE + f) == x + Mul(x, f)
  {
    MulBounds(x, f);
    MulBounds(x, ONE + f);
    assert x * (ONE + f) == x * ONE + x * f;
  }

  /** The growth of a unit share value over one period, in ulps. */
  function PeriodRate(apr: I80F48, timeDelta: nat): int {
    apr * timeDelta / SECONDS_PER_YEAR
  }

  /** At most full utilization, lenders' growth per period never exceeds borrowers'. */
  lemma LendersNeverOutpaceBorrowers(ir: InterestRateCalc, utilization: I80F48, timeDelta: nat)
    requires ValidSevenPoint(ir.curve) && utilization <= ONE
    ensures var rates := CalcInterestRate(ir, utilization);
      rates.Some? ==> PeriodRate(rates.value.lendingRateApr, timeDelta) <= PeriodRate(rates.value.borrowingRateApr, timeDelta)
  {
    if CalcInterestRate(ir, utilization).Some? {
      BorrowersPayBaseAndFees(ir, utilization);
      var r := CalcInterestRate(ir, utilization).value;
      MulIsMonotone(utilization, ONE, r.baseRateApr);
      assert Mul(r.baseRateApr, ONE) == r.baseRateApr;
      MulMono(timeDelta, r.lendingRateApr, r.borrowingRateApr);
      FloorMono(r.lendingRateApr * timeDelta, r.borrowingRateApr * timeDelta, SECONDS_PER_YEAR);
    }
  }

  // ---- One period ----

  lemma MulByWhole(x: int, n: nat)
    ensures Mul(x, FromInt(n)) == x * n
  {
    assert x * (n * ONE) == (x * n) * ONE;
  }

  lemma OverTheYear(x: int, n: nat)
    requires x >= 0
    ensures x * n >= 0
    ensures Div(Mul(x, FromInt(n)), FromInt(SECONDS_PER_YEAR)) == x * n / SECONDS_PER_YEAR
  {
    MulByWhole(x, n);
    MulNonNeg(x, n);
    DivIsFloor(x * n, FromInt(SECONDS_PER_YEAR));
    var q := x * n / SECONDS_PER_YEAR;
    FloorBounds(x * n, SECONDS_PER_YEAR);
  }

  lemma AccruedValue(apr: I80F48, timeDelta: nat, value: I80F48)
    requires apr >= 0 && value >= 0
    ensures PeriodRate(apr, timeDelta) >= 0 && Mul(value, PeriodRate(apr, timeDelta)) >= 0
    ensures var r := CalcAccruedInterestPaymentPerPeriod(apr, timeDelta, value);
      r.Some? ==> r.value == value + Mul(value, PeriodRate(apr, timeDelta))
  {
    OverTheYear(apr, timeDelta);
    var p := PeriodRate(apr, timeDelta);
    FloorIsGreatest(apr * timeDelta, SECONDS_PER_YEAR, 0);
    MulNonNegative(value, p);
    OnePlusFee(value, p);
  }

  lemma InterestPayment(apr: I80F48, timeDelta: nat, value: I80F48)
    requires apr >= 0 && value >= 0
    ensures Mul(value, apr) >= 0
    ensures var r := CalcInterestPaymentForPeriod(apr, timeDelta, value);
      r.Some? ==> r.value == Mul(value, apr) * timeDelta / SECONDS_PER_YEAR && r.value >= 0
  {
    MulNonNegative(value, apr);
    OverTheYear(Mul(value, apr), timeDelta);
    FloorIsGreatest(Mul(value, apr) * timeDelta, SECONDS_PER_YEAR, 0);
    if apr == 0 {
      assert Mul(value, apr) * timeDelta == 0;
    }
  }

  // ---- Rounding bounds of one period ----
  // A position of `shares` at share value `value` is worth `amount` ulps, floored; its share
  // value grows by `growth` when the rate is `rate` and the time is `t` seconds.

  lemma GrowthUpper(shares: int, value: int, amount: int, rateTime: int, p: int, growth: int)
    requires shares >= 0 && amount >= 0 && p >= 0
    requires shares * value < (amount + 1) * ONE
    requires SECONDS_PER_YEAR * p <= rateTime
    requires ONE * growth <= value * p
    ensures SECONDS_PER_YEAR * (shares * growth) <= (amount + 1) * rateTime
  {
    MulMono(shares, ONE * growth, value * p);
    MulMono(p, shares * value, (amount + 1) * ONE);
    assert shares * (ONE * growth) == ONE * (shares * growth);
    assert shares * (value * p) == (shares * value) * p;
    assert ((amount + 1) * ONE) * p == ONE * ((amount + 1) * p);
    MulMono(amount + 1, SECONDS_PER_YEAR * p, rateTime);
    assert (amount + 1) * (SECONDS_PER_YEAR * p) == SECONDS_PER_YEAR * ((amount + 1) * p);
  }

  lemma GrowthLower(shares: int, value: int, amount: int, rateTime: int, p: int, growth: int)
    requires shares >= 0 && amount >= 0 && p >= 0
    requires amount * ONE <= shares * value
    requires rateTime < SECONDS_PER_YEAR * p + SECONDS_PER_YEAR
    requires value * p < ONE * growth + ONE
    ensures amount * rateTime <= SECONDS_PER_YEAR * (shares * growth) + SECONDS_PER_YEAR * (amount + shares)
  {
    MulMono(shares, value * p, ONE * growth + ONE);
    MulMono(p, amount * ONE, shares * value);
    assert shares * (ONE * growth + ONE) == ONE * (shares * growth + shares);
    assert shares * (value * p) == (shares * value) * p;
    assert (amount * ONE) * p == ONE * (amount * p);
    MulMono(amount, rateTime, SECONDS_PER_YEAR * p + SECONDS_PER_YEAR);
    assert amount * (SECONDS_PER_YEAR * p + SECONDS_PER_YEAR) == SECONDS_PER_YEAR * (amount * p) + SECONDS_PER_YEAR * amount;
  }

  lemma FeeBounds(debt: int, apr: int, t: nat, fee: int)
    requires debt >= 0 && apr >= 0
    requires fee == Mul(debt, apr) * t / SECONDS_PER_YEAR
    ensures SECONDS_PER_YEAR * (ONE * fee) <= debt * (apr * t)
    ensures debt * (apr * t) <= SECONDS_PER_YEAR * (ONE * fee) + ONE * t + SECONDS_PER_YEAR * ONE
  {
    var y := Mul(debt, apr);
    MulBounds(debt, apr);
    FloorBounds(y * t, SECONDS_PER_YEAR);
    MulMono(t, ONE * y, debt * apr);
    MulMono(t, debt * apr, ONE * y + ONE);
    assert (ONE * y) * t == ONE * (y * t);
    assert (ONE * y + ONE) * t == ONE * (y * t) + ONE * t;
    assert (debt * apr) * t == debt * (apr * t);
  }

  /** What the lenders' rate pays on all deposits against what the base rate charges on all debt. */
  lemma LendingBounds(assets: int, debt: int, base: int, utilization: int, lending: int)
    requires assets > 0 && debt >= 0 && base >= 0
    requires utilization == Div(debt, assets) && lending == Mul(base, utilization)
    ensures assets * lending <= base * debt
    ensures base * debt <= assets * lending + assets + Mul(base, assets) + 1
  {
    DivIsFloor(debt, assets);
    MulBounds(base, utilization);
    MulBounds(base, assets);
    MulMono(assets, ONE * lending, base * utilization);
    MulMono(base, assets * utilization, debt * ONE);
    assert assets * (ONE * lending) == ONE * (assets * lending);
    assert assets * (base * utilization) == base * (assets * utilization);
    assert base * (debt * ONE) == ONE * (base * debt);
    MulMono(assets, base * utilization, ONE * lending + ONE);
    MulMono(base, debt * ONE, assets * utilization + assets);
    assert base * (assets * utilization + assets) == assets * (base * utilization) + base * assets;
    assert assets * (ONE * lending + ONE) == ONE * (assets * lending) + ONE * assets;
  }

  // ---- Conservation of one accrual ----

  /** How far, in units of 2^-96, an accrual may leave the books short of the borrowers' new debt. */
  function AccrualShortfall(liabilityShares: int, debt: int, rates: ComputedInterestRates, timeDelta: nat): int {
    debt + liabilityShares + rates.lendingRateApr * timeDelta / SECONDS_PER_YEAR
  }

  /** How far, in the same units, an accrual may credit less than the borrowers' new debt. */
  function AccrualSurplus(assetShares: int, assets: int, debt: int, rates: ComputedInterestRates, timeDelta: nat): int {
    assets + assetShares + 3 * ONE +
    (2 * debt + assets + Mul(rates.baseRateApr, assets) + rates.borrowingRateApr + 3 * ONE + 1) * timeDelta / SECONDS_PER_YEAR
  }

  lemma CombineLower(x1: int, x2: int, fees: int, aprs: int, debt: int, assets: int, liabilityShares: int,
                     base: int, lending: int, borrowing: int, t: nat)
    requires debt >= 0
    requires debt * (borrowing * t) <= SECONDS_PER_YEAR * x1 + SECONDS_PER_YEAR * (debt + liabilityShares)
    requires SECONDS_PER_YEAR * x2 <= (assets + 1) * (lending * t)
    requires SECONDS_PER_YEAR * (ONE * fees) <= debt * (aprs * t)
    requires assets * lending <= base * debt
    requires base + aprs <= borrowing
    ensures -(debt + liabilityShares + lending * t / SECONDS_PER_YEAR) <= x1 - x2 - ONE * fees
  {
    var dt := debt * t;
    MulNonNeg(debt, t);
    MulMono(dt, base + aprs, borrowing);
    MulMono(t, assets * lending, base * debt);
    assert debt * (borrowing * t) == dt * borrowing;
    assert debt * (aprs * t) == dt * aprs;
    assert (assets + 1) * (lending * t) == (assets * lending) * t + lending * t;
    assert (base * debt) * t == dt * base;
    var k := x1 - x2 - ONE * fees + debt + liabilityShares;
    assert SECONDS_PER_YEAR * k >= -(lending * t);
    FloorIsGreatest(lending * t, SECONDS_PER_YEAR, -k);
  }

  lemma CombineUpper(x1: int, x2: int, fees: int, aprs: int, debt: int, assets: int, assetShares: int,
                     base: int, lending: int, borrowing: int, slack: int, t: nat)
    requires debt >= 0
    requires SECONDS_PER_YEAR * x1 <= (debt + 1) * (borrowing * t)
    requires assets * (lending * t) <= SECONDS_PER_YEAR * x2 + SECONDS_PER_YEAR * (assets + assetShares)
    requires debt * (aprs * t) <= SECONDS_PER_YEAR * (ONE * fees) + 3 * (ONE * t) + 3 * (SECONDS_PER_YEAR * ONE)
    requires base * debt <= assets * lending + slack
    requires borrowing <= base + aprs + 2
    ensures x1 - x2 - ONE * fees <=
      assets + assetShares + 3 * ONE + (2 * debt + slack + borrowing + 3 * ONE) * t / SECONDS_PER_YEAR
  {
    var dt := debt * t;
    MulNonNeg(debt, t);
    MulMono(dt, borrowing, base + aprs + 2);
    assert dt * (base + aprs + 2) == dt * base + dt * aprs + 2 * dt;
    MulMono(t, base * debt, assets * lending + slack);
    RegroupDebt(debt, t, borrowing, aprs, base);
    RegroupAssets(assets, t, lending, slack);
    assert (2 * debt + slack + borrowing + 3 * ONE) * t == 2 * dt + slack * t + borrowing * t + 3 * (ONE * t) by {
      RegroupSlack(2 * debt, slack, borrowing, 3 * ONE, t);
    }
    var k := x1 - x2 - ONE * fees - (assets + assetShares + 3 * ONE);
    FloorIsGreatest((2 * debt + slack + borrowing + 3 * ONE) * t, SECONDS_PER_YEAR, k);
  }

  lemma RegroupDebt(debt: int, t: int, borrowing: int, aprs: int, base: int)
    ensures (debt + 1) * (borrowing * t) == (debt * t) * borrowing + borrowing * t
    ensures debt * (aprs * t) == (debt * t) * aprs
    ensures (base * debt) * t == (debt * t) * base
  {
  }

  lemma RegroupAssets(assets: int, t: int, lending: int, slack: int)
    ensures assets * (lending * t) == (assets * lending) * t
    ensures (assets * lending + slack) * t == (assets * lending) * t + slack * t
  {
  }

  lemma RegroupSlack(a: int, b: int, c: int, d: int, t: int)
    ensures (a + b + c + d) * t == a * t + b * t + c * t + d * t
  {
  }

  lemma GrowthBounds(shares: int, value: int, apr: int, t: nat, growth: int)
    requires shares >= 0 && value >= 0 && apr >= 0 && growth == Mul(value, PeriodRate(apr, t))
    ensures var amount := Mul(shares, value);
      && SECONDS_PER_YEAR * (shares * growth) <= (amount + 1) * (apr * t)
      && amount * (apr * t) <= SECONDS_PER_YEAR * (shares * growth) + SECONDS_PER_YEAR * (amount + shares)
  {
    var amount, p := Mul(shares, value), PeriodRate(apr, t);
    MulBounds(shares, value);
    MulNonNegative(shares, value);
    MulNonNeg(apr, t);
    FloorBounds(apr * t, SECONDS_PER_YEAR);
    FloorIsGreatest(apr * t, SECONDS_PER_YEAR, 0);
    MulBounds(value, p);
    GrowthUpper(shares, value, amount, apr * t, p, growth);
    GrowthLower(shares, value, amount, apr * t, p, growth);
  }

  /**
   One accrual conserves value: the growth of all debt equals the growth of all deposits plus
   the three fees collected, up to explicit rounding bounds in units of 2^-96 tokens.
   */
  lemma AccrualConservesValue(ir: InterestRateCalc, t: nat, assetShares: int, assetValue: int, liabilityShares: int, liabilityValue: int)
    requires ValidSevenPoint(ir.curve)
    requires assetShares >= 0 && assetValue >= 0 && liabilityShares >= 0 && liabilityValue >= 0
    requires Mul(assetShares, assetValue) > 0
    requires CalcAccrualStateChanges(t, Mul(assetShares, assetValue), Mul(liabilityShares, liabilityValue), ir, assetValue, liabilityValue).Some?
    ensures var assets, debt := Mul(assetShares, assetValue), Mul(liabilityShares, liabilityValue);
      CalcInterestRate(ir, Div(debt, assets)).Some?
    ensures
      var assets, debt := Mul(assetShares, assetValue), Mul(liabilityShares, liabilityValue);
      var rates := CalcInterestRate(ir, Div(debt, assets)).value;
      var c := CalcAccrualStateChanges(t, assets, debt, ir, assetValue, liabilityValue).value;
      var drift := liabilityShares * (c.newLiabilityShareValue - liabilityValue)
                   - assetShares * (c.newAssetShareValue - assetValue) - ONE * c.FeesCollected();
      -AccrualShortfall(liabilityShares, debt, rates, t) <= drift <= AccrualSurplus(assetShares, assets, debt, rates, t)
  {
    var assets, debt := Mul(assetShares, assetValue), Mul(liabilityShares, liabilityValue);
    MulNonNegative(liabilityShares, liabilityValue);
    var u := Div(debt, assets);
    var rates := CalcInterestRate(ir, u).value;
    BorrowersPayBaseAndFees(ir, u);
    AccrualGrowth(ir, t, assets, debt, rates, assetValue, liabilityValue);
    var c := CalcAccrualStateChanges(t, assets, debt, ir, assetValue, liabilityValue).value;
    var growthL, growthA := c.newLiabilityShareValue - liabilityValue, c.newAssetShareValue - assetValue;
    GrowthBounds(liabilityShares, liabilityValue, rates.borrowingRateApr, t, growthL);
    GrowthBounds(assetShares, assetValue, rates.lendingRateApr, t, growthA);
    FeesBounds(debt, rates, t, c);
    LendingBounds(assets, debt, rates.baseRateApr, u, rates.lendingRateApr);
    CombineLower(liabilityShares * growthL, assetShares * growthA, c.FeesCollected(), rates.FeeAprs(), debt, assets,
                 liabilityShares, rates.baseRateApr, rates.lendingRateApr, rates.borrowingRateApr, t);
    CombineUpper(liabilityShares * growthL, assetShares * growthA, c.FeesCollected(), rates.FeeAprs(), debt, assets,
                 assetShares, rates.baseRateApr, rates.lendingRateApr, rates.borrowingRateApr,
                 assets + Mul(rates.baseRateApr, assets) + 1, t);
  }

  lemma FeesBounds(debt: int, rates: ComputedInterestRates, t: nat, c: InterestRateStateChanges)
    requires debt >= 0 && rates.NonNegative()
    requires c.insuranceFeesCollected == Mul(debt, rates.insuranceFeeApr) * t / SECONDS_PER_YEAR
    requires c.groupFeesCollected == Mul(debt, rates.groupFeeApr) * t / SECONDS_PER_YEAR
    requires c.protocolFeesCollected == Mul(debt, rates.protocolFeeApr) * t / SECONDS_PER_YEAR
    ensures SECONDS_PER_YEAR * (ONE * c.FeesCollected()) <= debt * (rates.FeeAprs() * t)
    ensures debt * (rates.FeeAprs() * t) <= SECONDS_PER_YEAR * (ONE * c.FeesCollected()) + 3 * (ONE * t) + 3 * (SECONDS_PER_YEAR * ONE)
  {
    FeeBounds(debt, rates.insuranceFeeApr, t, c.insuranceFeesCollected);
    FeeBounds(debt, rates.groupFeeApr, t, c.groupFeesCollected);
    FeeBounds(debt, rates.protocolFeeApr, t, c.protocolFeesCollected);
    var i, g, p := rates.insuranceFeeApr * t, rates.groupFeeApr * t, rates.protocolFeeApr * t;
    assert rates.FeeAprs() * t == i + g + p;
    assert debt * (i + g + p) == debt * i + debt * g + debt * p;
  }

  /** A successful accrual's outcome, with the intermediate checked operations resolved. */
  lemma AccrualGrowth(ir: InterestRateCalc, t: nat, assets: int, debt: int, rates: ComputedInterestRates, assetValue: int, liabilityValue: int)
    requires assets > 0 && debt >= 0 && assetValue >= 0 && liabilityValue >= 0
    requires CalcInterestRate(ir, Div(debt, assets)) == Some(rates) && rates.NonNegative()
    requires CalcAccrualStateChanges(t, assets, debt, ir, assetValue, liabilityValue).Some?
    ensures var c := CalcAccrualStateChanges(t, assets, debt, ir, assetValue, liabilityValue).value;
      && c.newLiabilityShareValue == liabilityValue + Mul(liabilityValue, PeriodRate(rates.borrowingRateApr, t))
      && c.newAssetShareValue == assetValue + Mul(assetValue, PeriodRate(rates.lendingRateApr, t))
      && c.newLiabilityShareValue >= liabilityValue && c.newAssetShareValue >= assetValue
      && c.insuranceFeesCollected == Mul(debt, rates.insuranceFeeApr) * t / SECONDS_PER_YEAR
      && c.groupFeesCollected == Mul(debt, rates.groupFeeApr) * t / SECONDS_PER_YEAR
      && c.protocolFeesCollected == Mul(debt, rates.protocolFeeApr) * t / SECONDS_PER_YEAR
      && c.insuranceFeesCollected >= 0 && c.groupFeesCollected >= 0 && c.protocolFeesCollected >= 0
  {
    AccruedValue(rates.borrowingRateApr, t, liabilityValue);
    AccruedValue(rates.lendingRateApr, t, assetValue);
    InterestPayment(rates.insuranceFeeApr, t, debt);
    InterestPayment(rates.groupFeeApr, t, debt);
    InterestPayment(rates.protocolFeeApr, t, debt);
  }
}
