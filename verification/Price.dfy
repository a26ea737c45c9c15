/**
 Conversions between a lending venue's collateral and liquidity tokens at the ratio of its
 two supplies. The intermediate product is exact and the quotient is floored twice, once to
 an ulp and once to a whole token; for supplies that are not negative that is one floor of
 the exact ratio.
 */
module Price {
  import opened Wrappers
  import opened FixedPoint
  import opened Drift

  function Converted(tokens: nat, numerator: I80F48, denominator: I80F48): Option<nat> {
    if denominator == 0 then None
    else
      var product :- CheckedMul(FromInt(tokens), numerator);
      var quotient :- CheckedDiv(product, denominator);
      CheckedToU64(quotient)
  }

  function CollateralToLiquidityFromScaled(collateral: nat, totalLiq: I80F48, totalCol: I80F48): Option<nat> {
    Converted(collateral, totalLiq, totalCol)
  }

  function LiquidityToCollateralFromScaled(liquidity: nat, totalLiq: I80F48, totalCol: I80F48): Option<nat> {
    Converted(liquidity, totalCol, totalLiq)
  }

  /** Both supplies in whole tokens of the given decimals. */
  function ScaleSupplies(totalLiqRaw: I80F48, totalColRaw: nat, decimals: nat): Option<(I80F48, I80F48)> {
    if decimals >= MAX_EXP_10_I80F48 then None
    else
      var liq :- CheckedDiv(totalLiqRaw, FromInt(Exp10(decimals)));
      var col :- CheckedDiv(FromInt(totalColRaw), FromInt(Exp10(decimals)));
      Some((liq, col))
  }

  // ---- One floor of the exact ratio ----

  lemma FloorOfFloor(n: nat, d: int)
    requires d > 0
    ensures n * ONE / d / ONE == n / d
  {
    var q := n / d;
    FloorBounds(n, d);
    FloorIsGreatest(n * ONE, d, q * ONE) by {
      MulMono(ONE, d * q, n);
      assert d * (q * ONE) == d * q * ONE;
    }
    FloorIsBelow(n * ONE, d, (q + 1) * ONE) by {
      assert d * q + d == d * (q + 1);
      MulMono(ONE, n + 1, d * (q + 1));
      assert d * ((q + 1) * ONE) == d * (q + 1) * ONE;
    }
    FloorIsGreatest(n * ONE / d, ONE, q);
    FloorIsBelow(n * ONE / d, ONE, q + 1);
  }

  /** A conversion answers exactly where there is a denominator and nothing overflows, and then with the floor of the exact ratio. */
  lemma ConversionIsExact(tokens: nat, numerator: I80F48, denominator: I80F48)
    requires numerator >= 0 && denominator >= 0
    ensures Converted(tokens, numerator, denominator).Some? <==>
              denominator > 0 && tokens * numerator <= MAX_BITS && tokens * numerator * ONE / denominator <= MAX_BITS
              && tokens * numerator / denominator <= U64_MAX
    ensures Converted(tokens, numerator, denominator).Some? ==>
              Converted(tokens, numerator, denominator).value == tokens * numerator / denominator
  {
    var n := tokens * numerator;
    MulNonNeg(tokens, numerator);
    assert Mul(FromInt(tokens), numerator) == n by {
      assert FromInt(tokens) * numerator == n * ONE;
    }
    if denominator > 0 {
      DivIsFloor(n, denominator);
      FloorOfFloor(n, denominator);
      FloorIsGreatest(n, denominator, 0);
    }
  }

  lemma Bounds(tokens: nat, numerator: I80F48, denominator: I80F48)
    requires numerator >= 0 && denominator > 0 && Converted(tokens, numerator, denominator).Some?
    ensures var x := Converted(tokens, numerator, denominator).value;
      denominator * x <= tokens * numerator < denominator * x + denominator
  {
    ConversionIsExact(tokens, numerator, denominator);
    FloorBounds(tokens * numerator, denominator);
  }

  // ---- What the conversions keep ----

  /**
   There and back never returns more than went in, and all but one token of the loss is worth
   under one token of the other kind.
   */
  lemma RoundTripLosesLittle(collateral: nat, totalLiq: I80F48, totalCol: I80F48, liquidity: nat, back: nat)
    requires totalLiq > 0 && totalCol > 0
    requires CollateralToLiquidityFromScaled(collateral, totalLiq, totalCol) == Some(liquidity)
    requires LiquidityToCollateralFromScaled(liquidity, totalLiq, totalCol) == Some(back)
    ensures back <= collateral
    ensures (collateral - back - 1) * totalLiq < totalCol
  {
    Bounds(collateral, totalLiq, totalCol);
    Bounds(liquidity, totalCol, totalLiq);
    ThereAndBack(collateral, totalLiq, totalCol, liquidity, back);
  }

  lemma ThereAndBack(c: int, liq: int, col: int, x: int, back: int)
    requires liq > 0 && col * x <= c * liq < col * x + col
    requires liq * back <= x * col < liq * back + liq
    ensures back <= c && (c - back - 1) * liq < col
  {
    assert liq * (c + 1) == c * liq + liq;
    if back > c {
      MulMono(liq, c + 1, back);
    }
    assert (c - back - 1) * liq == c * liq - liq * back - liq;
  }

  /** The same from the liquidity side. */
  lemma ReverseRoundTripLosesLittle(liquidity: nat, totalLiq: I80F48, totalCol: I80F48, collateral: nat, back: nat)
    requires totalLiq > 0 && totalCol > 0
    requires LiquidityToCollateralFromScaled(liquidity, totalLiq, totalCol) == Some(collateral)
    requires CollateralToLiquidityFromScaled(collateral, totalLiq, totalCol) == Some(back)
    ensures back <= liquidity
    ensures (liquidity - back - 1) * totalCol < totalLiq
  {
    RoundTripLosesLittle(liquidity, totalCol, totalLiq, collateral, back);
  }

  function ConvertEach(parts: seq<nat>, numerator: I80F48, denominator: I80F48): Option<nat> {
    if parts == [] then Some(0)
    else
      var first :- Converted(parts[0], numerator, denominator);
      var rest :- ConvertEach(parts[1..], numerator, denominator);
      Some(first + rest)
  }

  /** Converting in parts never yields more than converting the sum, and less by under one token a part. */
  lemma SplittingGainsNothing(parts: seq<nat>, numerator: I80F48, denominator: I80F48, split: nat, whole: nat)
    requires numerator >= 0 && denominator > 0 && parts != []
    requires ConvertEach(parts, numerator, denominator) == Some(split)
    requires Converted(Sum(parts), numerator, denominator) == Some(whole)
    ensures split <= whole < split + |parts|
  {
    SplitBounds(parts, numerator, denominator);
    ConversionIsExact(Sum(parts), numerator, denominator);
    FloorIsGreatest(Sum(parts) * numerator, denominator, split);
    FloorIsBelow(Sum(parts) * numerator, denominator, split + |parts|);
  }

  lemma {:induction false} SplitBounds(parts: seq<nat>, numerator: I80F48, denominator: I80F48)
    requires numerator >= 0 && denominator > 0 && ConvertEach(parts, numerator, denominator).Some?
    ensures var split := ConvertEach(parts, numerator, denominator).value;
      denominator * split <= Sum(parts) * numerator <= denominator * (split + |parts|) - |parts|
  {
    if parts != [] {
      SplitBounds(parts[1..], numerator, denominator);
      Bounds(parts[0], numerator, denominator);
      AddPart(denominator, numerator, parts[0], Converted(parts[0], numerator, denominator).value,
              Sum(parts[1..]), ConvertEach(parts[1..], numerator, denominator).value, |parts| - 1);
    }
  }

  lemma AddPart(d: int, k: int, a: int, x: int, rest: int, split: int, n: int)
    requires d * x <= a * k < d * x + d
    requires d * split <= rest * k <= d * (split + n) - n
    ensures d * (x + split) <= (a + rest) * k <= d * (x + split + n + 1) - (n + 1)
  {
    assert (a + rest) * k == a * k + rest * k;
    assert d * (x + split) == d * x + d * split;
    assert d * (x + split + n + 1) == d * x + d * (split + n) + d;
  }

  // ---- Scaling the supplies first ----

  lemma ScaledDiv(raw: I80F48, d: nat, scaled: I80F48)
    requires raw >= 0 && d > 0 && scaled == Div(raw, FromInt(d))
    ensures 0 <= scaled && scaled * d <= raw < scaled * d + d
  {
    DivIsFloor(raw, FromInt(d));
    assert FromInt(d) * scaled == scaled * d * ONE;
  }

  /** Scaling fails exactly past the end of the table, and floors both supplies divided by 10^decimals. */
  lemma ScaleSuppliesFloors(totalLiqRaw: I80F48, totalColRaw: nat, decimals: nat)
    requires 0 <= totalLiqRaw <= MAX_BITS && totalColRaw <= U64_MAX
    ensures ScaleSupplies(totalLiqRaw, totalColRaw, decimals).Some? <==> decimals < 24
    ensures decimals < 24 ==>
      var d, (liq, col) := Exp10(decimals), ScaleSupplies(totalLiqRaw, totalColRaw, decimals).value;
      && liq * d <= totalLiqRaw < (liq + 1) * d
      && col * d <= FromInt(totalColRaw) < (col + 1) * d
  {
    if decimals < 24 {
      var d := Exp10(decimals);
      ScaledFits(totalLiqRaw, d);
      ScaledFits(FromInt(totalColRaw), d);
    }
  }

  lemma ScaledFits(raw: I80F48, d: nat)
    requires 0 <= raw <= MAX_BITS && d > 0
    ensures var scaled := Div(raw, FromInt(d)); 0 <= scaled <= raw && scaled * d <= raw < (scaled + 1) * d
  {
    ScaledDiv(raw, d, Div(raw, FromInt(d)));
    MulMono(Div(raw, FromInt(d)), 1, d);
  }

  /**
   Scaling both supplies down by 10^decimals before converting changes the answer only by the
   ulps it drops: with d = 10^decimals, x the answer and col the raw supply in bits, x is at
   most c * liq / (col - d), and more than (c * liq - c * d) / col - 1.
   */
  lemma ScaledConversionIsClose(collateral: nat, totalLiqRaw: I80F48, totalColRaw: nat, decimals: nat, liq: I80F48, col: I80F48, x: nat)
    requires totalLiqRaw >= 0 && ScaleSupplies(totalLiqRaw, totalColRaw, decimals) == Some((liq, col))
    requires CollateralToLiquidityFromScaled(collateral, liq, col) == Some(x)
    ensures var d := Exp10(decimals);
      && x * (FromInt(totalColRaw) - d) <= collateral * totalLiqRaw
      && collateral * (totalLiqRaw - d) < (x + 1) * FromInt(totalColRaw)
  {
    var d := Exp10(decimals);
    ScaledDiv(totalLiqRaw, d, liq);
    ScaledDiv(FromInt(totalColRaw), d, col);
    Bounds(collateral, liq, col);
    ScaledAbove(x, collateral, col, liq, d, totalLiqRaw, FromInt(totalColRaw));
    ScaledBelow(x, collateral, col, liq, d, totalLiqRaw, FromInt(totalColRaw));
  }

  lemma ScaledAbove(x: nat, c: nat, col: int, liq: int, d: nat, rawLiq: int, rawCol: int)
    requires col * x <= c * liq && liq * d <= rawLiq && rawCol - d <= col * d
    ensures x * (rawCol - d) <= c * rawLiq
  {
    MulMono(x, rawCol - d, col * d);
    MulMono(d, col * x, c * liq);
    MulMono(c, liq * d, rawLiq);
    assert x * (col * d) == col * x * d;
    assert c * (liq * d) == c * liq * d;
  }

  lemma ScaledBelow(x: nat, c: nat, col: int, liq: int, d: nat, rawLiq: int, rawCol: int)
    requires c * liq < col * x + col && rawLiq - d <= liq * d && col * d <= rawCol && d > 0
    ensures c * (rawLiq - d) < (x + 1) * rawCol
  {
    MulMono(c, rawLiq - d, liq * d);
    MulMono(d, c * liq + 1, col * x + col);
    MulMono(x + 1, col * d, rawCol);
    assert (x + 1) * (col * d) == (col * x + col) * d;
    assert (c * liq + 1) * d == c * liq * d + d;
    assert c * (liq * d) == c * liq * d;
  }
}
