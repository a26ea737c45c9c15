/**
 Signed 128-bit fixed point with 48 fractional bits, represented by its integer bits.
 A product is floored, a quotient truncated towards zero, and a result outside the
 128-bit range is None. One unit of the integer is one ulp, 2^-48.
 */
module FixedPoint {
  import opened Wrappers

  type I80F48 = int

  const ONE: int := 0x1_0000_0000_0000
  const MAX_BITS: int := 0x7FFF_FFFF_FFFF_FFFF_FFFF_FFFF_FFFF_FFFF
  const U32_MAX: int := 0xFFFF_FFFF
  const U64_MAX: int := 0xFFFF_FFFF_FFFF_FFFF
  const I64_MAX: int := 0x7FFF_FFFF_FFFF_FFFF

  predicate Fits(bits: int) {
    -MAX_BITS - 1 <= bits <= MAX_BITS
  }

  function FromInt(n: int): I80F48 {
    n * ONE
  }

  function Mul(a: I80F48, b: I80F48): I80F48 {
    a * b / ONE
  }

  /** The quotient of two integers, truncated towards zero. */
  function Truncated(n: int, d: int): int
    requires d != 0
  {
    var q := Abs(n) / Abs(d);
    if (n < 0) == (d < 0) then q else -q
  }

  function Div(a: I80F48, b: I80F48): I80F48
    requires b != 0
  {
    Truncated(a * ONE, b)
  }

  function Abs(n: int): nat {
    if n < 0 then -n else n
  }

  function Min(a: int, b: int): int {
    if a <= b then a else b
  }

  function Max(a: int, b: int): int {
    if a >= b then a else b
  }

  function Sum(amounts: seq<nat>): nat {
    if amounts == [] then 0 else amounts[0] + Sum(amounts[1..])
  }

  /** The greatest whole number not above the value, still in bits. */
  function Floor(a: I80F48): I80F48 {
    a / ONE * ONE
  }

  function Ceil(a: I80F48): I80F48 {
    (a + ONE - 1) / ONE * ONE
  }

  function Checked(bits: int): Option<I80F48> {
    if Fits(bits) then Some(bits) else None
  }

  function CheckedAdd(a: I80F48, b: I80F48): Option<I80F48> {
    Checked(a + b)
  }

  function CheckedSub(a: I80F48, b: I80F48): Option<I80F48> {
    Checked(a - b)
  }

  function CheckedMul(a: I80F48, b: I80F48): Option<I80F48> {
    Checked(Mul(a, b))
  }

  function CheckedDiv(a: I80F48, b: I80F48): Option<I80F48> {
    if b == 0 then None else Checked(Div(a, b))
  }

  function SaturatingAdd(a: I80F48, b: I80F48): I80F48 {
    Max(-MAX_BITS - 1, Min(a + b, MAX_BITS))
  }

  /** `checked_to_num::<u64>()`: the whole part, when it is a 64-bit natural number. */
  function CheckedToU64(a: I80F48): Option<nat> {
    var n := a / ONE;
    if 0 <= n <= U64_MAX then Some(n) else None
  }

  /** A saturating sum is the sum exactly where that fits, and otherwise the end of the range on its side. */
  lemma SaturatesExactly(a: I80F48, b: I80F48)
    ensures Fits(SaturatingAdd(a, b)) && (SaturatingAdd(a, b) == a + b <==> Fits(a + b))
    ensures a + b > MAX_BITS ==> SaturatingAdd(a, b) == MAX_BITS
    ensures a + b < -MAX_BITS - 1 ==> SaturatingAdd(a, b) == -MAX_BITS - 1
  {
  }

  // ---- Rounding facts ----

  lemma FloorBounds(n: int, d: int)
    requires d > 0
    ensures d * (n / d) <= n < d * (n / d) + d
  {
  }

  /** Anything at or below n in multiples of d is at or below the floored quotient. */
  lemma FloorIsGreatest(n: int, d: int, q: int)
    requires d > 0 && d * q <= n
    ensures q <= n / d
  {
    if n / d < q {
      MulMono(d, n / d + 1, q);
    }
  }

  lemma FloorIsBelow(n: int, d: int, q: int)
    requires d > 0 && n < d * q
    ensures n / d < q
  {
    if q <= n / d {
      MulMono(d, q, n / d);
    }
  }

  lemma FloorMono(m: int, n: int, d: int)
    requires d > 0 && m <= n
    ensures m / d <= n / d
  {
    FloorIsGreatest(n, d, m / d);
  }

  lemma MulMono(k: int, x: int, y: int)
    requires k >= 0 && x <= y
    ensures k * x <= k * y
    ensures x * k <= y * k
  {
  }

  lemma MulNonNeg(x: int, y: int)
    requires x >= 0 && y >= 0
    ensures x * y >= 0
  {
  }

  lemma MulBounds(a: int, b: int)
    ensures ONE * Mul(a, b) <= a * b < ONE * Mul(a, b) + ONE
  {
  }

  lemma DivIsFloor(a: int, b: int)
    requires a >= 0 && b > 0
    ensures Div(a, b) == a * ONE / b
    ensures Div(a, b) >= 0
    ensures b * Div(a, b) <= a * ONE < b * Div(a, b) + b
  {
    FloorBounds(a * ONE, b);
    FloorIsGreatest(a * ONE, b, 0);
  }

  lemma MulNonNegative(a: int, b: int)
    requires a >= 0 && b >= 0
    ensures Mul(a, b) >= 0
  {
    MulNonNeg(a, b);
  }

  lemma MulIsMonotone(a: int, b: int, c: int)
    requires a <= b && c >= 0
    ensures Mul(a, c) <= Mul(b, c)
    ensures Mul(c, a) <= Mul(c, b)
  {
    MulMono(c, a, b);
    FloorMono(a * c, b * c, ONE);
  }
}
