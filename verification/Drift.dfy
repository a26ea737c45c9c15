/**
 Drift spot balances: the conversions between token amounts and scaled balances at a
 cumulative interest index, and the oracle adjustment that values scaled balances directly.
 All integers are unsigned; the 64- and 128-bit limits of the source are explicit.
 */
module Drift {
  import opened Wrappers
  import opened FixedPoint

  const U128_MAX: int := 0xFFFF_FFFF_FFFF_FFFF_FFFF_FFFF_FFFF_FFFF
  const SPOT_CUMULATIVE_INTEREST_PRECISION: nat := 10_000_000_000
  const DRIFT_PRECISION_EXP: nat := 19
  const DRIFT_SCALED_BALANCE_DECIMALS: nat := 9
  const MAX_EXP_10_I80F48: nat := 24

  datatype MinimalSpotMarket = MinimalSpotMarket(decimals: nat, cumulativeDepositInterest: nat)

  /** The source's table of powers of ten. */
  function Exp10(n: nat): (p: nat)
    ensures p > 0
  {
    if n == 0 then 1 else 10 * Exp10(n - 1)
  }

  function CheckedU128(n: nat): Result<nat> {
    if n <= U128_MAX then Ok(n) else Err(MathError)
  }

  function CheckedU64(n: nat): Result<nat> {
    if n <= U64_MAX then Ok(n) else Err(MathError)
  }

  function GetPrecisionIncrease(tokenDecimals: nat): Result<nat> {
    if tokenDecimals > DRIFT_PRECISION_EXP then Err(MathError) else Ok(Exp10(DRIFT_PRECISION_EXP - tokenDecimals))
  }

  /** Scales a native deposit limit to nine-decimal balance units. */
  function ScaleDriftDepositLimit(depositLimit: nat, mintDecimals: nat): Result<I80F48> {
    var limit := FromInt(depositLimit);
    if mintDecimals == DRIFT_SCALED_BALANCE_DECIMALS then Ok(limit)
    else if mintDecimals < DRIFT_SCALED_BALANCE_DECIMALS then
      CheckedMul(limit, FromInt(Exp10(DRIFT_SCALED_BALANCE_DECIMALS - mintDecimals))).OrMathError()
    else if mintDecimals - DRIFT_SCALED_BALANCE_DECIMALS >= MAX_EXP_10_I80F48 then Err(Panic)
    else CheckedDiv(limit, FromInt(Exp10(mintDecimals - DRIFT_SCALED_BALANCE_DECIMALS))).OrMathError()
  }

  function GetScaledBalance(m: MinimalSpotMarket, amount: nat, roundUp: bool): Result<nat> {
    var precision :- GetPrecisionIncrease(m.decimals);
    var scaled :- CheckedU128(amount * precision);
    if m.cumulativeDepositInterest == 0 then Err(MathError)
    else
      var balance :- CheckedU64(scaled / m.cumulativeDepositInterest);
      if roundUp && balance != 0 then CheckedU64(balance + 1) else Ok(balance)
  }

  function GetScaledBalanceDecrement(m: MinimalSpotMarket, amount: nat): Result<nat> {
    GetScaledBalance(m, amount, true)
  }

  function GetScaledBalanceIncrement(m: MinimalSpotMarket, amount: nat): Result<nat> {
    GetScaledBalance(m, amount, false)
  }

  function GetWithdrawTokenAmount(m: MinimalSpotMarket, scaledBalance: nat): Result<nat> {
    var precision :- GetPrecisionIncrease(m.decimals);
    var scaled :- CheckedU128(scaledBalance * m.cumulativeDepositInterest);
    FloorIsGreatest(scaled, precision, 0);
    CheckedU64(scaled / precision)
  }

  function AdjustOracleValue(m: MinimalSpotMarket, raw: nat): Result<nat> {
    var scaled :- CheckedU128(raw * m.cumulativeDepositInterest);
    Ok(scaled / SPOT_CUMULATIVE_INTEREST_PRECISION)
  }

  /** When the conversions fail: decimals beyond 19, no index, or a result that does not fit its integer. */
  lemma ConversionsFailExactly(m: MinimalSpotMarket, n: nat)
    ensures var ci := m.cumulativeDepositInterest;
      && (GetScaledBalanceIncrement(m, n).Ok? <==>
            m.decimals <= 19 && n * Exp10(19 - m.decimals) <= U128_MAX && ci > 0 && n * Exp10(19 - m.decimals) / ci <= U64_MAX)
      && (GetWithdrawTokenAmount(m, n).Ok? <==>
            m.decimals <= 19 && n * ci <= U128_MAX && n * ci / Exp10(19 - m.decimals) <= U64_MAX)
      && (AdjustOracleValue(m, n).Ok? <==> n * ci <= U128_MAX)
  {
    MulNonNeg(n, m.cumulativeDepositInterest);
    if m.decimals <= 19 {
      var p := Exp10(19 - m.decimals);
      MulNonNeg(n, p);
      FloorIsGreatest(n * m.cumulativeDepositInterest, p, 0);
      if m.cumulativeDepositInterest > 0 {
        FloorIsGreatest(n * p, m.cumulativeDepositInterest, 0);
      }
    }
  }

  // ---- One conversion and back ----

  /** A deposit's increment redeems for at most the amount deposited. */
  lemma IncrementNeverCreatesValue(m: MinimalSpotMarket, amount: nat, scaled: nat, redeemed: nat)
    requires GetScaledBalanceIncrement(m, amount) == Ok(scaled)
    requires GetWithdrawTokenAmount(m, scaled) == Ok(redeemed)
    ensures redeemed <= amount
  {
    FlooredThereAndBack(amount, GetPrecisionIncrease(m.decimals).value, m.cumulativeDepositInterest);
  }

  lemma FlooredThereAndBack(amount: nat, p: nat, ci: nat)
    requires p > 0 && ci > 0
    ensures amount * p / ci * ci / p <= amount
  {
    var scaled := amount * p / ci;
    FloorBounds(amount * p, ci);
    assert p * (amount + 1) == amount * p + p;
    FloorIsBelow(scaled * ci, p, amount + 1);
  }

  /**
   A withdrawal's decrement redeems for at least the amount exactly when the amount is zero
   or is worth at least one scaled unit. Below one unit the decrement is zero: the round-up
   skips a zero balance, and the withdrawal burns nothing.
   */
  lemma DecrementCoversAmount(m: MinimalSpotMarket, amount: nat, scaled: nat, redeemed: nat)
    requires GetScaledBalanceDecrement(m, amount) == Ok(scaled)
    requires GetWithdrawTokenAmount(m, scaled) == Ok(redeemed)
    ensures redeemed >= amount <==>
      amount == 0 || amount * GetPrecisionIncrease(m.decimals).value >= m.cumulativeDepositInterest
    ensures scaled == 0 <==> amount * GetPrecisionIncrease(m.decimals).value < m.cumulativeDepositInterest
  {
    var p, ci := GetPrecisionIncrease(m.decimals).value, m.cumulativeDepositInterest;
    FloorBounds(amount * p, ci);
    if amount * p >= ci {
      FloorIsGreatest(amount * p, ci, 1);
      FloorIsGreatest(scaled * ci, p, amount);
    } else {
      FloorIsBelow(amount * p, ci, 1);
      MulNonNeg(amount, p);
      FloorIsGreatest(amount * p, ci, 0);
      assert scaled == 0;
      assert redeemed == 0 / p == 0;
    }
  }

  lemma DecrementIsIncrementOrOneMore(m: MinimalSpotMarket, amount: nat, dec: nat)
    requires GetScaledBalanceDecrement(m, amount) == Ok(dec)
    ensures GetScaledBalanceIncrement(m, amount).Ok?
    ensures var inc := GetScaledBalanceIncrement(m, amount).value;
      inc <= dec <= inc + 1 && (dec == inc + 1 <==> inc != 0)
  {
  }

  // ---- What the scales mean ----

  lemma {:induction false} Exp10Sum(a: nat, b: nat)
    ensures Exp10(a + b) == Exp10(a) * Exp10(b)
  {
    if a > 0 {
      Exp10Sum(a - 1, b);
      assert (10 * Exp10(a - 1)) * Exp10(b) == 10 * (Exp10(a - 1) * Exp10(b));
    }
  }

  /** Ten powers ten, the precision of the index and of nine decimals. */
  lemma TenDecimals()
    ensures Exp10(10) == SPOT_CUMULATIVE_INTEREST_PRECISION && Exp10(19) == 1_000_000_000 * SPOT_CUMULATIVE_INTEREST_PRECISION
  {
    assert Exp10(5) == 100_000;
    Exp10Sum(5, 5);
    assert Exp10(4) == 10_000;
    Exp10Sum(4, 5);
    Exp10Sum(9, 10);
  }

  /** At the index of a new market a scaled balance is the amount in nine decimals, floored, and values are unchanged. */
  lemma NewMarketHasNineDecimals(m: MinimalSpotMarket, amount: nat, scaled: nat)
    requires m.cumulativeDepositInterest == SPOT_CUMULATIVE_INTEREST_PRECISION
    requires GetScaledBalanceIncrement(m, amount) == Ok(scaled)
    ensures scaled * Exp10(m.decimals) <= amount * Exp10(9) < (scaled + 1) * Exp10(m.decimals)
    ensures amount <= U128_MAX / SPOT_CUMULATIVE_INTEREST_PRECISION ==> AdjustOracleValue(m, amount) == Ok(amount)
  {
    var d, p, q := Exp10(m.decimals), Exp10(DRIFT_PRECISION_EXP - m.decimals), SPOT_CUMULATIVE_INTEREST_PRECISION;
    Exp10Sum(m.decimals, DRIFT_PRECISION_EXP - m.decimals);
    Exp10Sum(9, 10);
    TenDecimals();
    FloorBounds(amount * p, q);
    NineDecimals(amount, scaled, d, p, q, Exp10(9));
  }

  lemma NineDecimals(amount: nat, scaled: nat, d: nat, p: nat, q: nat, nine: nat)
    requires d * p == nine * q && q > 0 && d > 0 && q * scaled <= amount * p < q * scaled + q
    ensures scaled * d <= amount * nine < (scaled + 1) * d
  {
    MulMono(d, q * scaled, amount * p);
    MulMono(d, amount * p + 1, q * scaled + q);
    assert d * (amount * p) == amount * (d * p);
    assert amount * (nine * q) == q * (amount * nine);
    assert d * (q * scaled) == q * (scaled * d);
    assert d * (q * scaled + q) == q * ((scaled + 1) * d);
    if scaled * d > amount * nine {
      MulMono(q, amount * nine + 1, scaled * d);
    }
    if amount * nine >= (scaled + 1) * d {
      MulMono(q, (scaled + 1) * d, amount * nine);
    }
  }

  /** A native limit in nine decimals, floored to an ulp: exact up to nine, and an error only when it does not fit or the table ends. */
  lemma ScaledLimitHasNineDecimals(limit: nat, decimals: nat)
    ensures ScaleDriftDepositLimit(limit, decimals).Ok? ==>
      var scaled := ScaleDriftDepositLimit(limit, decimals).value;
      scaled * Exp10(decimals) <= FromInt(limit) * Exp10(9) < (scaled + 1) * Exp10(decimals)
    ensures limit <= U64_MAX && decimals <= 9 ==>
      (ScaleDriftDepositLimit(limit, decimals).Ok? <==> FromInt(limit) * Exp10(9 - decimals) <= MAX_BITS)
    ensures limit <= U64_MAX && decimals > 9 ==>
      (ScaleDriftDepositLimit(limit, decimals).Ok? <==> decimals < 33)
  {
    if decimals < 9 {
      Exp10Sum(decimals, 9 - decimals);
      ScaledUp(limit, Exp10(9 - decimals), Exp10(decimals));
    } else if decimals > 9 && decimals < 33 {
      Exp10Sum(9, decimals - 9);
      ScaledDown(limit, Exp10(decimals - 9), Exp10(9));
    }
  }

  lemma ScaledUp(limit: nat, factor: nat, d: nat)
    requires d > 0
    ensures Mul(FromInt(limit), FromInt(factor)) == FromInt(limit) * factor >= 0
    ensures FromInt(limit) * factor * d == FromInt(limit) * (d * factor) < (FromInt(limit) * factor + 1) * d
  {
    MulNonNeg(FromInt(limit), factor);
    assert FromInt(limit) * FromInt(factor) == FromInt(limit) * factor * ONE;
  }

  lemma ScaledDown(limit: nat, divisor: nat, nine: nat)
    requires divisor > 0 && nine > 0
    ensures var scaled := Div(FromInt(limit), FromInt(divisor));
      && 0 <= scaled <= FromInt(limit)
      && scaled * (nine * divisor) <= FromInt(limit) * nine < (scaled + 1) * (nine * divisor)
  {
    DivIsFloor(FromInt(limit), FromInt(divisor));
    var scaled := Div(FromInt(limit), FromInt(divisor));
    assert FromInt(divisor) * scaled == ONE * (divisor * scaled);
    assert divisor * scaled <= FromInt(limit) < divisor * scaled + divisor;
    MulMono(nine, divisor * scaled, FromInt(limit));
    MulMono(nine, FromInt(limit) + 1, divisor * scaled + divisor);
    assert nine * (divisor * scaled) == scaled * (nine * divisor);
    assert nine * (divisor * scaled + divisor) == (scaled + 1) * (nine * divisor);
    MulMono(scaled, 1, divisor);
  }

  // ---- Runs of deposits and withdrawals at a fixed index ----

  datatype PositionOp = Deposit(amount: nat) | Withdraw(amount: nat)

  datatype Position = Position(balance: nat, paidIn: nat, paidOut: nat)

  /** One operation on a position; a rejected one leaves it unchanged. */
  function PositionStep(m: MinimalSpotMarket, s: Position, op: PositionOp): Position {
    match op
    case Deposit(amount) =>
      var inc := GetScaledBalanceIncrement(m, amount);
      if inc.Ok? then Position(s.balance + inc.value, s.paidIn + amount, s.paidOut) else s
    case Withdraw(amount) =>
      var dec := GetScaledBalanceDecrement(m, amount);
      if dec.Ok? && dec.value <= s.balance then Position(s.balance - dec.value, s.paidIn, s.paidOut + amount) else s
  }

  function PositionRun(m: MinimalSpotMarket, ops: seq<PositionOp>): Position {
    if ops == [] then Position(0, 0, 0)
    else PositionStep(m, PositionRun(m, ops[..|ops| - 1]), ops[|ops| - 1])
  }

  /** The withdrawal is of nothing, or of an amount worth at least one scaled unit. */
  predicate IsWorthAUnit(m: MinimalSpotMarket, op: PositionOp)
    requires GetPrecisionIncrease(m.decimals).Ok?
  {
    op.Withdraw? && op.amount != 0 ==> op.amount * GetPrecisionIncrease(m.decimals).value >= m.cumulativeDepositInterest
  }

  /** What the balance is worth, exactly, never exceeds what was paid in less what was paid out. */
  lemma {:induction false} RunIsBacked(m: MinimalSpotMarket, ops: seq<PositionOp>)
    requires GetPrecisionIncrease(m.decimals).Ok?
    requires forall i :: 0 <= i < |ops| ==> IsWorthAUnit(m, ops[i])
    ensures var s := PositionRun(m, ops);
      s.balance * m.cumulativeDepositInterest <= (s.paidIn - s.paidOut) * GetPrecisionIncrease(m.decimals).value
  {
    var p, ci := GetPrecisionIncrease(m.decimals).value, m.cumulativeDepositInterest;
    if ops != [] {
      var before, op := PositionRun(m, ops[..|ops| - 1]), ops[|ops| - 1];
      RunIsBacked(m, ops[..|ops| - 1]);
      var after := PositionStep(m, before, op);
      if after != before {
        if op.Deposit? {
          DepositIsBacked(before, op.amount, p, ci);
        } else {
          if op.amount != 0 {
            FloorIsGreatest(op.amount * p, ci, 1);
          }
          WithdrawalIsBacked(before, op.amount, GetScaledBalanceDecrement(m, op.amount).value, p, ci);
        }
      }
    }
  }

  lemma DepositIsBacked(s: Position, amount: nat, p: nat, ci: nat)
    requires p > 0 && ci > 0 && s.balance * ci <= (s.paidIn - s.paidOut) * p
    ensures (s.balance + amount * p / ci) * ci <= (s.paidIn + amount - s.paidOut) * p
  {
    var inc := amount * p / ci;
    FloorBounds(amount * p, ci);
    assert (s.balance + inc) * ci == s.balance * ci + ci * inc;
    assert (s.paidIn - s.paidOut + amount) * p == (s.paidIn - s.paidOut) * p + amount * p;
  }

  lemma WithdrawalIsBacked(s: Position, amount: nat, dec: nat, p: nat, ci: nat)
    requires p > 0 && ci > 0 && s.balance * ci <= (s.paidIn - s.paidOut) * p
    requires amount == 0 || dec == amount * p / ci + 1
    ensures (s.balance - dec) * ci <= (s.paidIn - (s.paidOut + amount)) * p
  {
    assert dec * ci >= amount * p by {
      if amount == 0 {
        MulNonNeg(dec, ci);
      } else {
        FloorBounds(amount * p, ci);
        assert dec * ci == ci * (amount * p / ci) + ci;
      }
    }
    assert (s.balance - dec) * ci == s.balance * ci - dec * ci;
    assert (s.paidIn - s.paidOut - amount) * p == (s.paidIn - s.paidOut) * p - amount * p;
  }

  /** Over any such run, what was paid out plus what the balance still redeems for is at most what was paid in. */
  lemma RunNeverCreatesValue(m: MinimalSpotMarket, ops: seq<PositionOp>)
    requires GetPrecisionIncrease(m.decimals).Ok?
    requires forall i :: 0 <= i < |ops| ==> IsWorthAUnit(m, ops[i])
    ensures var s := PositionRun(m, ops);
      && s.paidOut <= s.paidIn
      && (GetWithdrawTokenAmount(m, s.balance).Ok? ==> s.paidOut + GetWithdrawTokenAmount(m, s.balance).value <= s.paidIn)
  {
    RunIsBacked(m, ops);
    var s := PositionRun(m, ops);
    BackedIsSolvent(s.balance, s.paidIn - s.paidOut, GetPrecisionIncrease(m.decimals).value, m.cumulativeDepositInterest);
  }

  lemma BackedIsSolvent(balance: nat, net: int, p: nat, ci: nat)
    requires p > 0 && balance * ci <= net * p
    ensures 0 <= balance * ci / p <= net
  {
    MulNonNeg(balance, ci);
    FloorIsGreatest(balance * ci, p, 0);
    assert p * (net + 1) == net * p + p;
    FloorIsBelow(balance * ci, p, net + 1);
  }

  /** The restriction is needed: from nothing, a withdrawal worth less than one unit is paid for nothing. */
  lemma TinyWithdrawalIsFree(m: MinimalSpotMarket, amount: nat)
    requires GetPrecisionIncrease(m.decimals).Ok? && amount > 0
    requires amount * GetPrecisionIncrease(m.decimals).value < m.cumulativeDepositInterest <= U128_MAX
    ensures PositionRun(m, [Withdraw(amount)]) == Position(0, 0, amount)
  {
    var p, ci := GetPrecisionIncrease(m.decimals).value, m.cumulativeDepositInterest;
    FloorIsBelow(amount * p, ci, 1);
    MulNonNeg(amount, p);
    FloorIsGreatest(amount * p, ci, 0);
    assert [Withdraw(amount)][..0] == [];
    assert PositionRun(m, []) == Position(0, 0, 0);
  }

  /**
   No run at all pays out more than was paid in exactly when the index is at most the
   precision, 10^(19 - decimals): then every amount is worth a scaled unit. With nine
   decimals that is the index of a new market, and the first interest accrued is too much.
   */
  lemma NoRunCreatesValueExactly(m: MinimalSpotMarket)
    requires GetPrecisionIncrease(m.decimals).Ok? && m.cumulativeDepositInterest <= U128_MAX
    ensures (forall ops: seq<PositionOp> :: PositionRun(m, ops).paidOut <= PositionRun(m, ops).paidIn) <==>
      m.cumulativeDepositInterest <= GetPrecisionIncrease(m.decimals).value
  {
    var p := GetPrecisionIncrease(m.decimals).value;
    if m.cumulativeDepositInterest <= p {
      forall ops: seq<PositionOp>
        ensures PositionRun(m, ops).paidOut <= PositionRun(m, ops).paidIn
      {
        forall i | 0 <= i < |ops|
          ensures IsWorthAUnit(m, ops[i])
        {
          if ops[i].amount != 0 {
            MulMono(p, 1, ops[i].amount);
          }
        }
        RunNeverCreatesValue(m, ops);
      }
    } else {
      TinyWithdrawalIsFree(m, 1);
      assert PositionRun(m, [Withdraw(1)]).paidOut > PositionRun(m, [Withdraw(1)]).paidIn;
    }
  }

  // ---- Valuation ----

  /**
   Adjusted price times scaled balance and oracle price times redeemable tokens, both over
   the common denominator 10^19, differ by less than the larger of their two rounding units.
   */
  lemma ValuationsAgree(m: MinimalSpotMarket, price: nat, scaled: nat, adjusted: nat, tokens: nat)
    requires AdjustOracleValue(m, price) == Ok(adjusted)
    requires GetWithdrawTokenAmount(m, scaled) == Ok(tokens)
    requires price > 0 || scaled > 0
    ensures var p := GetPrecisionIncrease(m.decimals).value;
      Abs(adjusted * scaled * SPOT_CUMULATIVE_INTEREST_PRECISION - price * tokens * p)
        < Max(scaled * SPOT_CUMULATIVE_INTEREST_PRECISION, price * p)
  {
    var p, ci, q := GetPrecisionIncrease(m.decimals).value, m.cumulativeDepositInterest, SPOT_CUMULATIVE_INTEREST_PRECISION;
    FlooredProduct(price, ci, q, scaled);
    FlooredProduct(scaled, ci, p, price);
    Regroup(scaled, price, ci);
    Regroup(adjusted, scaled, q);
    Regroup(price, tokens, p);
    MulNonNeg(price, p);
  }

  lemma Regroup(a: int, b: int, c: int)
    ensures a * b * c == a * (c * b) == b * (c * a)
    ensures a * (b * c) == b * (a * c)
  {
  }

  /** Flooring before multiplying loses less than one unit of the divisor per multiplied unit. */
  lemma FlooredProduct(a: nat, b: nat, d: nat, k: nat)
    requires d > 0
    ensures k * (d * (a * b / d)) <= k * (a * b)
    ensures k > 0 ==> k * (a * b) < k * (d * (a * b / d)) + k * d
    ensures k == 0 ==> k * (a * b) == k * (d * (a * b / d)) + k * d
  {
    FloorBounds(a * b, d);
    var f := d * (a * b / d);
    MulMono(k, f, a * b);
    if k > 0 {
      MulMono(k, a * b + 1, f + d);
      assert k * (a * b + 1) == k * (a * b) + k;
      assert k * (f + d) == k * f + k * d;
    }
  }
}
