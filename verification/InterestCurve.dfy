/**
 The seven-point interest curve: its validation, its evaluation by linear interpolation
 in fixed point, and what a validated curve guarantees. The number of interior points is
 left free; the source stores five.
 */
module InterestCurve {
  import opened Wrappers
  import opened FixedPoint

  type u32 = n: int | 0 <= n <= 0xFFFF_FFFF

  /** An interior point: utilization out of 100%, rate out of 1000%, both as fractions of u32::MAX. */
  datatype RatePoint = RatePoint(util: u32, rate: u32)

  datatype Curve = Curve(zeroUtilRate: u32, hundredUtilRate: u32, points: seq<RatePoint>)

  /** A point of the curve after conversion to fixed point. */
  datatype Knot = Knot(x: I80F48, y: I80F48)

  // ---- Validation ----

  /** The first n points are in use, ascending and between the end rates; the rest is zero padding. */
  ghost predicate ValidWith(c: Curve, n: nat) {
    && n <= |c.points|
    && (forall i :: 0 <= i < n ==> c.points[i].util != 0)
    && (forall i :: n <= i < |c.points| ==> c.points[i] == RatePoint(0, 0))
    && (forall i, j :: 0 <= i < j < n ==> c.points[i].util < c.points[j].util && c.points[i].rate <= c.points[j].rate)
    && c.zeroUtilRate <= c.hundredUtilRate
    && (forall i :: 0 <= i < n ==> c.zeroUtilRate <= c.points[i].rate <= c.hundredUtilRate)
  }

  ghost predicate ValidSevenPoint(c: Curve) {
    exists n: nat :: ValidWith(c, n)
  }

  /** Two prefixes in use must have the same length. */
  lemma UsedPrefixIsUnique(c: Curve, used: nat, n: nat)
    requires used <= |c.points| && ValidWith(c, n)
    requires forall i :: 0 <= i < used ==> c.points[i].util != 0
    requires used < |c.points| ==> c.points[used].util == 0
    ensures n == used
  {
    assert n < |c.points| ==> c.points[n].util == 0;
    assert 0 < n ==> c.points[n - 1].util != 0;
  }

  /** A zero-util point with a rate, or after which a point is in use, fits no valid curve. */
  lemma BadPaddingIsInvalid(c: Curve, pad: nat, i: nat)
    requires pad <= i < |c.points| && c.points[pad].util == 0 && c.points[i] != RatePoint(0, 0)
    ensures !ValidSevenPoint(c)
  {
    forall n: nat
      ensures !ValidWith(c, n)
    {
    }
  }

  /** A curve whose points in use break the order, or leave the end rates, is not valid. */
  lemma BadPointIsInvalid(c: Curve, used: nat, i: nat)
    requires i < used <= |c.points|
    requires forall j :: 0 <= j < used ==> c.points[j].util != 0
    requires used < |c.points| ==> c.points[used].util == 0
    requires
      || (i > 0 && (c.points[i - 1].util >= c.points[i].util || c.points[i - 1].rate > c.points[i].rate))
      || !(c.zeroUtilRate <= c.points[i].rate <= c.hundredUtilRate)
    ensures !ValidSevenPoint(c)
  {
    if n: nat :| ValidWith(c, n) {
      UsedPrefixIsUnique(c, used, n);
    }
  }

  /** First loop of the validation: the points in use, or None when the padding is malformed. */
  method CollectUsed(c: Curve) returns (used: Option<seq<RatePoint>>)
    ensures used.None? ==> !ValidSevenPoint(c)
    ensures used.Some? ==> Used(c, used.value)
  {
    var points: seq<RatePoint> := [];
    var seenPadding := false;
    for i := 0 to |c.points|
      invariant |points| <= i && points == c.points[..|points|]
      invariant seenPadding <==> |points| < i
      invariant forall j :: 0 <= j < |points| ==> c.points[j].util != 0
      invariant forall j :: |points| <= j < i ==> c.points[j] == RatePoint(0, 0)
    {
      var p := c.points[i];
      if p.util == 0 {
        if p.rate != 0 {
          BadPaddingIsInvalid(c, i, i);
          return None;
        }
        seenPadding := true;
      } else {
        if seenPadding {
          BadPaddingIsInvalid(c, |points|, i);
          return None;
        }
        points := points + [p];
      }
    }
    return Some(points);
  }

  method ValidateSevenPoint(c: Curve) returns (r: Result<()>)
    ensures r.Ok? <==> ValidSevenPoint(c)
    ensures r.Err? ==> r.error == InvalidConfig
  {
    var collected := CollectUsed(c);
    if collected.None? {
      return Err(InvalidConfig);
    }
    var used := collected.value;
    var ordered := NeighboursInOrder(used);
    if !ordered {
      DisorderIsInvalid(c, used);
      return Err(InvalidConfig);
    }
    if c.zeroUtilRate > c.hundredUtilRate {
      return Err(InvalidConfig);
    }
    var within := RatesWithin(used, c.zeroUtilRate, c.hundredUtilRate);
    if !within {
      DisorderIsInvalid(c, used);
      return Err(InvalidConfig);
    }
    OrderIsValid(c, used);
    return Ok(());
  }

  predicate InOrder(used: seq<RatePoint>) {
    forall k :: 0 < k < |used| ==> used[k - 1].util < used[k].util && used[k - 1].rate <= used[k].rate
  }

  predicate Within(used: seq<RatePoint>, low: u32, high: u32) {
    forall k :: 0 <= k < |used| ==> low <= used[k].rate <= high
  }

  /** What the first loop has found: the points in use, then padding. */
  predicate Used(c: Curve, used: seq<RatePoint>) {
    && |used| <= |c.points| && used == c.points[..|used|]
    && (forall j :: 0 <= j < |used| ==> c.points[j].util != 0)
    && (forall j :: |used| <= j < |c.points| ==> c.points[j] == RatePoint(0, 0))
  }

  lemma DisorderIsInvalid(c: Curve, used: seq<RatePoint>)
    requires Used(c, used) && (!InOrder(used) || !Within(used, c.zeroUtilRate, c.hundredUtilRate))
    ensures !ValidSevenPoint(c)
  {
    if !InOrder(used) {
      var i :| 0 < i < |used| && (used[i - 1].util >= used[i].util || used[i - 1].rate > used[i].rate);
      BadPointIsInvalid(c, |used|, i);
    } else {
      var k :| 0 <= k < |used| && !(c.zeroUtilRate <= used[k].rate <= c.hundredUtilRate);
      BadPointIsInvalid(c, |used|, k);
    }
  }

  lemma OrderIsValid(c: Curve, used: seq<RatePoint>)
    requires Used(c, used) && InOrder(used) && Within(used, c.zeroUtilRate, c.hundredUtilRate) && c.zeroUtilRate <= c.hundredUtilRate
    ensures ValidSevenPoint(c)
  {
    StepwiseIsAscending(used, |used|);
    assert ValidWith(c, |used|);
  }

  method NeighboursInOrder(used: seq<RatePoint>) returns (ok: bool)
    ensures ok <==> InOrder(used)
  {
    var i := 1;
    while i < |used|
      invariant 1 <= i
      invariant forall k :: 0 < k < i && k < |used| ==> used[k - 1].util < used[k].util && used[k - 1].rate <= used[k].rate
    {
      if used[i - 1].util >= used[i].util || used[i - 1].rate > used[i].rate {
        return false;
      }
      i := i + 1;
    }
    return true;
  }

  method RatesWithin(used: seq<RatePoint>, low: u32, high: u32) returns (ok: bool)
    ensures ok <==> Within(used, low, high)
  {
    for k := 0 to |used|
      invariant forall j :: 0 <= j < k ==> low <= used[j].rate <= high
    {
      if !(low <= used[k].rate <= high) {
        return false;
      }
    }
    return true;
  }

  /** Neighbours in order means all pairs in order. */
  lemma {:induction false} StepwiseIsAscending(used: seq<RatePoint>, n: nat)
    requires n <= |used|
    requires forall k :: 0 < k < n ==> used[k - 1].util < used[k].util && used[k - 1].rate <= used[k].rate
    ensures forall i, j :: 0 <= i < j < n ==> used[i].util < used[j].util && used[i].rate <= used[j].rate
  {
    if n > 1 {
      StepwiseIsAscending(used, n - 1);
      assert used[n - 2].util < used[n - 1].util && used[n - 2].rate <= used[n - 1].rate;
    }
  }

  // ---- Evaluation ----

  function RateFromU32(rate: u32): I80F48 {
    Mul(Div(FromInt(rate), FromInt(U32_MAX)), FromInt(10))
  }

  function UtilFromU32(util: u32): I80F48 {
    Div(FromInt(util), FromInt(U32_MAX))
  }

  /** Interpolates y at target between two points; None outside the segment or on a falling one. */
  function Lerp(startX: I80F48, startY: I80F48, endX: I80F48, endY: I80F48, target: I80F48): Option<I80F48> {
    if endX <= startX then Some(startY)
    else if target < startX || target > endX || endY < startY then None
    else
      var proportion := Div(target - startX, endX - startX);
      var scaledDelta :- CheckedMul(endY - startY, proportion);
      CheckedAdd(startY, scaledDelta)
  }

  /** The rate at ur on the part of the curve that starts at (prevUtil, prevRate). */
  function CurveFrom(prev: Knot, points: seq<RatePoint>, hundred: I80F48, ur: I80F48): Option<I80F48>
    decreases points
  {
    if points == [] then Lerp(prev.x, prev.y, ONE, hundred, ur)
    else
      var p := points[0];
      if p.util == 0 then CurveFrom(prev, points[1..], hundred, ur)
      else
        var next := KnotOf(p);
        if ur <= next.x then Lerp(prev.x, prev.y, next.x, next.y, ur)
        else CurveFrom(next, points[1..], hundred, ur)
  }

  function KnotOf(p: RatePoint): Knot {
    Knot(UtilFromU32(p.util), RateFromU32(p.rate))
  }

  function Start(c: Curve): Knot {
    Knot(0, RateFromU32(c.zeroUtilRate))
  }

  function Clamp(ur: I80F48): I80F48 {
    Min(Max(ur, 0), ONE)
  }

  /** The base rate at a utilization. */
  function CurveRate(c: Curve, ur: I80F48): Option<I80F48> {
    CurveFrom(Start(c), c.points, RateFromU32(c.hundredUtilRate), Clamp(ur))
  }

  /** The loop of the source, proved against the recursive definition. */
  method InterestRateMultipointCurve(c: Curve, utilization: I80F48) returns (r: Option<I80F48>)
    ensures r == CurveRate(c, utilization)
  {
    var zeroRate := RateFromU32(c.zeroUtilRate);
    var hundredRate := RateFromU32(c.hundredUtilRate);
    var prevUtil, prevRate := 0, zeroRate;
    var ur := Min(Max(utilization, 0), ONE);
    for i := 0 to |c.points|
      invariant CurveFrom(Knot(prevUtil, prevRate), c.points[i..], hundredRate, ur) == CurveRate(c, utilization)
    {
      var point := c.points[i];
      assert c.points[i..][1..] == c.points[i + 1..];
      if point.util != 0 {
        var pointUtil := UtilFromU32(point.util);
        var pointRate := RateFromU32(point.rate);
        if ur <= pointUtil {
          return Lerp(prevUtil, prevRate, pointUtil, pointRate, ur);
        }
        prevUtil, prevRate := pointUtil, pointRate;
      }
    }
    assert c.points[|c.points|..] == [];
    return Lerp(prevUtil, prevRate, ONE, hundredRate, ur);
  }

  // ---- Conversions ----

  lemma UtilIsFloor(util: u32)
    ensures UtilFromU32(util) == util * ONE / U32_MAX
    ensures 0 <= UtilFromU32(util) <= ONE
  {
    DivIsFloor(util * ONE, U32_MAX * ONE);
    var q := UtilFromU32(util);
    FloorIsGreatest(util * ONE, U32_MAX, q);
    FloorIsBelow(util * ONE, U32_MAX, q + 1);
  }

  lemma UtilIsStrict(a: u32, b: u32)
    requires a < b
    ensures UtilFromU32(a) < UtilFromU32(b)
  {
    UtilIsFloor(a);
    UtilIsFloor(b);
    FloorIsGreatest(b * ONE, U32_MAX, a * ONE / U32_MAX + 1);
  }

  lemma RateIsTenTimesUtil(rate: u32)
    ensures RateFromU32(rate) == 10 * UtilFromU32(rate)
    ensures 0 <= RateFromU32(rate) <= 10 * ONE
  {
    UtilIsFloor(rate);
    MulBounds(UtilFromU32(rate), 10 * ONE);
  }

  lemma RateIsStrict(a: u32, b: u32)
    ensures a < b ==> RateFromU32(a) < RateFromU32(b)
    ensures a <= b ==> RateFromU32(a) <= RateFromU32(b)
  {
    RateIsTenTimesUtil(a);
    RateIsTenTimesUtil(b);
    if a < b {
      UtilIsStrict(a, b);
    }
  }

  // ---- One segment ----

  /**
   On a rising segment the interpolation succeeds, stays between the end values and meets
   them exactly at the ends. Its distance below the exact rational value is less than
   1 + dy / 2^48 ulps (here multiplied out by the segment's width and by 2^48).
   */
  lemma {:induction false} LerpOnSegment(s: Knot, e: Knot, t: I80F48)
    requires 0 <= s.x <= t <= e.x && s.x < e.x && 0 <= s.y <= e.y <= MAX_BITS
    ensures var r := Lerp(s.x, s.y, e.x, e.y, t);
      && r.Some? && s.y <= r.value <= e.y
      && (t == s.x ==> r.value == s.y) && (t == e.x ==> r.value == e.y)
      && (r.value - s.y) * (e.x - s.x) <= (e.y - s.y) * (t - s.x)
      && ONE * ((e.y - s.y) * (t - s.x)) < (ONE * (r.value - s.y + 1) + (e.y - s.y)) * (e.x - s.x)
  {
    var dx, dy, off := e.x - s.x, e.y - s.y, t - s.x;
    var p := Div(off, dx);
    DivIsFloor(off, dx);
    assert p <= ONE by {
      MulMono(ONE, off, dx);
      FloorIsBelow(off * ONE, dx, ONE + 1);
    }
    var q := Mul(dy, p);
    MulBounds(dy, p);
    MulNonNegative(dy, p);
    assert q <= dy by {
      MulMono(dy, p, ONE);
      FloorMono(dy * p, dy * ONE, ONE);
    }
    assert Lerp(s.x, s.y, e.x, e.y, t) == Some(s.y + q);
    LerpAtEnds(dx, dy, off, p, q);
    LerpNotAbove(dx, dy, off, p, q);
    LerpNotFarBelow(dx, dy, off, p, q);
  }

  lemma LerpAtEnds(dx: int, dy: int, off: int, p: int, q: int)
    requires 0 < dx && 0 <= dy && 0 <= off <= dx
    requires dx * p <= off * ONE < dx * p + dx
    requires ONE * q <= dy * p < ONE * q + ONE
    ensures off == 0 ==> q <= 0
    ensures off == dx ==> q == dy
  {
    if off == 0 {
      if p >= 1 { MulMono(dx, 1, p); }
      MulMono(dy, p, 0);
    }
    if off == dx {
      if p > ONE { MulMono(dx, ONE + 1, p); }
      if p < ONE { MulMono(dx, p, ONE - 1); }
      assert p == ONE;
    }
  }

  lemma LerpNotAbove(dx: int, dy: int, off: int, p: int, q: int)
    requires 0 < dx && 0 <= dy
    requires dx * p <= off * ONE
    requires ONE * q <= dy * p
    ensures q * dx <= dy * off
  {
    MulMono(dx, ONE * q, dy * p);
    MulMono(dy, dx * p, off * ONE);
    assert dx * (dy * p) == dy * (dx * p);
    assert dx * (ONE * q) == ONE * (q * dx);
    assert dy * (off * ONE) == ONE * (dy * off);
  }

  lemma LerpNotFarBelow(dx: int, dy: int, off: int, p: int, q: int)
    requires 0 < dx && 0 <= dy
    requires off * ONE < dx * p + dx
    requires dy * p < ONE * q + ONE
    ensures ONE * (dy * off) < (ONE * (q + 1) + dy) * dx
  {
    MulMono(dy, off * ONE, dx * p + dx);
    MulMono(dx, dy * p + 1, ONE * q + ONE);
    assert dy * (dx * p + dx) == dx * (dy * p) + dy * dx;
    assert dy * (off * ONE) == ONE * (dy * off);
    assert dx * (dy * p + 1) == dx * (dy * p) + dx;
    assert (ONE * (q + 1) + dy) * dx == dx * (ONE * q + ONE) + dy * dx;
  }

  lemma LerpIsMonotone(s: Knot, e: Knot, t: I80F48, u: I80F48)
    requires 0 <= s.x <= t <= u <= e.x && s.x < e.x && 0 <= s.y <= e.y <= MAX_BITS
    ensures Lerp(s.x, s.y, e.x, e.y, t).Some? && Lerp(s.x, s.y, e.x, e.y, u).Some?
    ensures Lerp(s.x, s.y, e.x, e.y, t).value <= Lerp(s.x, s.y, e.x, e.y, u).value
  {
    LerpOnSegment(s, e, t);
    LerpOnSegment(s, e, u);
    var dx := e.x - s.x;
    DivIsFloor(t - s.x, dx);
    DivIsFloor(u - s.x, dx);
    FloorMono((t - s.x) * ONE, (u - s.x) * ONE, dx);
    MulIsMonotone(Div(t - s.x, dx), Div(u - s.x, dx), e.y - s.y);
  }

  // ---- The whole curve ----

  /** The converted points from prev on rise strictly in x and weakly in y, within [0, 1] and below `hundred`. */
  predicate Ascending(prev: Knot, points: seq<RatePoint>, hundred: I80F48)
    decreases points
  {
    && 0 <= prev.x <= ONE && 0 <= prev.y <= hundred <= 10 * ONE
    && (points != [] ==>
          if points[0].util == 0 then Ascending(prev, points[1..], hundred)
          else
            var next := KnotOf(points[0]);
            prev.x < next.x && prev.y <= next.y && Ascending(next, points[1..], hundred))
  }

  lemma {:induction false} ValidIsAscending(c: Curve)
    requires ValidSevenPoint(c)
    ensures Ascending(Start(c), c.points, RateFromU32(c.hundredUtilRate))
  {
    var n: nat :| ValidWith(c, n);
    RateIsTenTimesUtil(c.hundredUtilRate);
    RateIsTenTimesUtil(c.zeroUtilRate);
    RateIsStrict(c.zeroUtilRate, c.hundredUtilRate);
    assert c.points[0..] == c.points;
    SuffixIsAscending(c, n, 0, Start(c));
  }

  lemma {:induction false} SuffixIsAscending(c: Curve, n: nat, i: nat, prev: Knot)
    requires ValidWith(c, n) && i <= |c.points|
    requires 0 <= prev.x <= ONE && 0 <= prev.y <= RateFromU32(c.hundredUtilRate) <= 10 * ONE
    requires i < n ==> prev.x < UtilFromU32(c.points[i].util) && prev.y <= RateFromU32(c.points[i].rate)
    ensures Ascending(prev, c.points[i..], RateFromU32(c.hundredUtilRate))
    decreases |c.points| - i
  {
    if i < |c.points| {
      assert c.points[i..][1..] == c.points[i + 1..];
      if i < n {
        UtilIsFloor(c.points[i].util);
        RateIsTenTimesUtil(c.points[i].rate);
        RateIsStrict(c.points[i].rate, c.hundredUtilRate);
        if i + 1 < n {
          UtilIsStrict(c.points[i].util, c.points[i + 1].util);
          RateIsStrict(c.points[i].rate, c.points[i + 1].rate);
        }
        SuffixIsAscending(c, n, i + 1, KnotOf(c.points[i]));
      } else {
        SuffixIsAscending(c, n, i + 1, prev);
      }
    }
  }

  lemma {:induction false} CurveAtItsStart(prev: Knot, points: seq<RatePoint>, hundred: I80F48)
    requires Ascending(prev, points, hundred)
    ensures CurveFrom(prev, points, hundred, prev.x) == Some(prev.y)
    decreases points
  {
    if points == [] {
      if prev.x < ONE {
        LerpOnSegment(prev, Knot(ONE, hundred), prev.x);
      }
    } else if points[0].util == 0 {
      CurveAtItsStart(prev, points[1..], hundred);
    } else {
      LerpOnSegment(prev, KnotOf(points[0]), prev.x);
    }
  }

  /** From a knot on, the curve is the curve that starts at that knot, the knot itself included. */
  lemma CurvePastKnot(prev: Knot, points: seq<RatePoint>, hundred: I80F48, ur: I80F48)
    requires Ascending(prev, points, hundred) && points != [] && points[0].util != 0
    requires KnotOf(points[0]).x <= ur
    ensures CurveFrom(prev, points, hundred, ur) == CurveFrom(KnotOf(points[0]), points[1..], hundred, ur)
  {
    var next := KnotOf(points[0]);
    if ur == next.x {
      LerpOnSegment(prev, next, ur);
      CurveAtItsStart(next, points[1..], hundred);
    }
  }

  lemma {:induction false} CurveFromIsTotal(prev: Knot, points: seq<RatePoint>, hundred: I80F48, ur: I80F48)
    requires Ascending(prev, points, hundred) && prev.x <= ur <= ONE
    ensures CurveFrom(prev, points, hundred, ur).Some?
    ensures prev.y <= CurveFrom(prev, points, hundred, ur).value <= hundred
    decreases points
  {
    if points == [] {
      if prev.x < ONE {
        LerpOnSegment(prev, Knot(ONE, hundred), ur);
      }
    } else if points[0].util == 0 {
      CurveFromIsTotal(prev, points[1..], hundred, ur);
    } else {
      var next := KnotOf(points[0]);
      if ur <= next.x {
        LerpOnSegment(prev, next, ur);
        assert Ascending(next, points[1..], hundred);
      } else {
        CurveFromIsTotal(next, points[1..], hundred, ur);
      }
    }
  }

  lemma {:induction false} CurveFromIsMonotone(prev: Knot, points: seq<RatePoint>, hundred: I80F48, t: I80F48, u: I80F48)
    requires Ascending(prev, points, hundred) && prev.x <= t <= u <= ONE
    ensures CurveFrom(prev, points, hundred, t).Some? && CurveFrom(prev, points, hundred, u).Some?
    ensures CurveFrom(prev, points, hundred, t).value <= CurveFrom(prev, points, hundred, u).value
    decreases points
  {
    CurveFromIsTotal(prev, points, hundred, t);
    CurveFromIsTotal(prev, points, hundred, u);
    if points == [] {
      if prev.x < ONE {
        LerpIsMonotone(prev, Knot(ONE, hundred), t, u);
      }
    } else if points[0].util == 0 {
      CurveFromIsMonotone(prev, points[1..], hundred, t, u);
    } else {
      var next := KnotOf(points[0]);
      if u <= next.x {
        LerpIsMonotone(prev, next, t, u);
      } else if next.x <= t {
        CurvePastKnot(prev, points, hundred, t);
        CurvePastKnot(prev, points, hundred, u);
        CurveFromIsMonotone(next, points[1..], hundred, t, u);
      } else {
        LerpOnSegment(prev, next, t);
        CurveFromIsTotal(next, points[1..], hundred, u);
      }
    }
  }

  /** A validated curve answers at every utilization, between its end rates. */
  lemma ValidCurveIsTotal(c: Curve, ur: I80F48)
    requires ValidSevenPoint(c)
    ensures CurveRate(c, ur).Some?
    ensures RateFromU32(c.zeroUtilRate) <= CurveRate(c, ur).value <= RateFromU32(c.hundredUtilRate)
  {
    ValidIsAscending(c);
    CurveFromIsTotal(Start(c), c.points, RateFromU32(c.hundredUtilRate), Clamp(ur));
  }

  /** Higher utilization never means a lower rate, across all segments. */
  lemma ValidCurveIsMonotone(c: Curve, t: I80F48, u: I80F48)
    requires ValidSevenPoint(c) && t <= u
    ensures CurveRate(c, t).Some? && CurveRate(c, u).Some?
    ensures CurveRate(c, t).value <= CurveRate(c, u).value
  {
    ValidIsAscending(c);
    CurveFromIsMonotone(Start(c), c.points, RateFromU32(c.hundredUtilRate), Clamp(t), Clamp(u));
  }

  lemma ValidCurveAtZero(c: Curve, ur: I80F48)
    requires ValidSevenPoint(c) && ur <= 0
    ensures CurveRate(c, ur) == Some(RateFromU32(c.zeroUtilRate))
  {
    ValidIsAscending(c);
    CurveAtItsStart(Start(c), c.points, RateFromU32(c.hundredUtilRate));
  }

  lemma {:induction false} CurveFromAtPoint(prev: Knot, points: seq<RatePoint>, hundred: I80F48, i: nat)
    requires Ascending(prev, points, hundred) && i < |points| && points[i].util != 0
    ensures prev.x < KnotOf(points[i]).x
    ensures CurveFrom(prev, points, hundred, KnotOf(points[i]).x) == Some(KnotOf(points[i]).y)
    decreases points
  {
    if points[0].util == 0 {
      CurveFromAtPoint(prev, points[1..], hundred, i - 1);
    } else if i == 0 {
      LerpOnSegment(prev, KnotOf(points[0]), KnotOf(points[0]).x);
    } else {
      CurveFromAtPoint(KnotOf(points[0]), points[1..], hundred, i - 1);
    }
  }

  /** The curve passes exactly through every point in use. */
  lemma ValidCurveAtPoint(c: Curve, i: nat)
    requires ValidSevenPoint(c) && i < |c.points| && c.points[i].util != 0
    ensures CurveRate(c, UtilFromU32(c.points[i].util)) == Some(RateFromU32(c.points[i].rate))
  {
    ValidIsAscending(c);
    UtilIsFloor(c.points[i].util);
    CurveFromAtPoint(Start(c), c.points, RateFromU32(c.hundredUtilRate), i);
  }

  lemma {:induction false} CurveFromAtOne(prev: Knot, points: seq<RatePoint>, hundred: I80F48)
    requires Ascending(prev, points, hundred) && prev.x < ONE
    requires forall i :: 0 <= i < |points| && points[i].util != 0 ==> UtilFromU32(points[i].util) < ONE
    ensures CurveFrom(prev, points, hundred, ONE) == Some(hundred)
    decreases points
  {
    if points == [] {
      LerpOnSegment(prev, Knot(ONE, hundred), ONE);
    } else if points[0].util == 0 {
      CurveFromAtOne(prev, points[1..], hundred);
    } else {
      assert UtilFromU32(points[0].util) < ONE;
      CurveFromAtOne(KnotOf(points[0]), points[1..], hundred);
    }
  }

  /**
   At full utilization the rate is the hundred rate exactly when no point in use sits at
   u32::MAX with a lower rate; such a point shadows the hundred rate.
   */
  lemma ValidCurveAtOne(c: Curve, ur: I80F48)
    requires ValidSevenPoint(c) && ur >= ONE
    ensures CurveRate(c, ur) == Some(RateFromU32(c.hundredUtilRate)) <==>
      !exists i :: 0 <= i < |c.points| && c.points[i].util == U32_MAX && c.points[i].rate < c.hundredUtilRate
  {
    ValidIsAscending(c);
    UtilIsFloor(U32_MAX);
    assert UtilFromU32(U32_MAX) == ONE;
    if i :| 0 <= i < |c.points| && c.points[i].util == U32_MAX {
      ValidCurveAtPoint(c, i);
      var n: nat :| ValidWith(c, n);
      assert c.points[i].rate <= c.hundredUtilRate;
      RateIsStrict(c.points[i].rate, c.hundredUtilRate);
      assert forall j :: 0 <= j < |c.points| && c.points[j].util == U32_MAX ==> j == i;
    } else {
      forall i | 0 <= i < |c.points| && c.points[i].util != 0
        ensures UtilFromU32(c.points[i].util) < ONE
      {
        UtilIsStrict(c.points[i].util, U32_MAX);
      }
      CurveFromAtOne(Start(c), c.points, RateFromU32(c.hundredUtilRate));
    }
  }

  // ---- Accuracy against exact interpolation ----

  /** The converted points of the curve, both ends included: the reference polyline. */
  function Knots(prev: Knot, points: seq<RatePoint>, hundred: I80F48): (ks: seq<Knot>)
    ensures |ks| >= 2 && ks[0] == prev
    decreases points
  {
    if points == [] then [prev, Knot(ONE, hundred)]
    else if points[0].util == 0 then Knots(prev, points[1..], hundred)
    else [prev] + Knots(KnotOf(points[0]), points[1..], hundred)
  }

  /** r is at most the exact value at t of the line through s and e, and less than `ulps` below it. */
  predicate WithinUlps(s: Knot, e: Knot, t: I80F48, r: I80F48, ulps: nat) {
    (r - s.y) * (e.x - s.x) <= (e.y - s.y) * (t - s.x) < (r - s.y + ulps) * (e.x - s.x)
  }

  lemma LerpWithinEleven(s: Knot, e: Knot, t: I80F48)
    requires 0 <= s.x <= t <= e.x <= ONE && s.x < e.x && 0 <= s.y <= e.y <= 10 * ONE
    ensures Lerp(s.x, s.y, e.x, e.y, t).Some?
    ensures WithinUlps(s, e, t, Lerp(s.x, s.y, e.x, e.y, t).value, 11)
  {
    LerpOnSegment(s, e, t);
    var r := Lerp(s.x, s.y, e.x, e.y, t).value;
    var dx := e.x - s.x;
    calc {
      ONE * ((e.y - s.y) * (t - s.x));
    <
      (ONE * (r - s.y + 1) + (e.y - s.y)) * dx;
    <= { MulMono(dx, ONE * (r - s.y + 1) + (e.y - s.y), ONE * (r - s.y + 11)); }
      (ONE * (r - s.y + 11)) * dx;
      ONE * ((r - s.y + 11) * dx);
    }
  }

  lemma {:induction false} CurveFromFollowsKnots(prev: Knot, points: seq<RatePoint>, hundred: I80F48, ur: I80F48, k: nat)
    requires Ascending(prev, points, hundred) && prev.x <= ur <= ONE
    requires k + 1 < |Knots(prev, points, hundred)|
    requires var ks := Knots(prev, points, hundred); ks[k].x <= ur <= ks[k + 1].x && ks[k].x < ks[k + 1].x
    ensures CurveFrom(prev, points, hundred, ur).Some?
    ensures var ks := Knots(prev, points, hundred);
      WithinUlps(ks[k], ks[k + 1], ur, CurveFrom(prev, points, hundred, ur).value, 11)
    decreases points
  {
    CurveFromIsTotal(prev, points, hundred, ur);
    if points == [] {
      LerpWithinEleven(prev, Knot(ONE, hundred), ur);
    } else if points[0].util == 0 {
      CurveFromFollowsKnots(prev, points[1..], hundred, ur, k);
    } else {
      var next := KnotOf(points[0]);
      if k == 0 {
        assert Ascending(next, points[1..], hundred);
        LerpWithinEleven(prev, next, ur);
      } else {
        KnotsStartLow(next, points[1..], hundred, k - 1);
        CurvePastKnot(prev, points, hundred, ur);
        CurveFromFollowsKnots(next, points[1..], hundred, ur, k - 1);
      }
    }
  }

  lemma {:induction false} KnotsStartLow(prev: Knot, points: seq<RatePoint>, hundred: I80F48, k: nat)
    requires Ascending(prev, points, hundred) && k < |Knots(prev, points, hundred)|
    ensures prev.x <= Knots(prev, points, hundred)[k].x
    decreases points
  {
    if points != [] && k > 0 {
      if points[0].util == 0 {
        KnotsStartLow(prev, points[1..], hundred, k);
      } else {
        KnotsStartLow(KnotOf(points[0]), points[1..], hundred, k - 1);
      }
    }
  }

  function Polyline(c: Curve): seq<Knot> {
    Knots(Start(c), c.points, RateFromU32(c.hundredUtilRate))
  }

  /** A segment of the polyline that contains a utilization. */
  predicate OnSegment(ks: seq<Knot>, k: nat, ur: I80F48) {
    k + 1 < |ks| && ks[k].x <= ur <= ks[k + 1].x && ks[k].x < ks[k + 1].x
  }

  lemma {:induction false} SegmentOf(prev: Knot, points: seq<RatePoint>, hundred: I80F48, ur: I80F48) returns (k: nat)
    requires Ascending(prev, points, hundred) && prev.x <= ur <= ONE && prev.x < ONE
    ensures OnSegment(Knots(prev, points, hundred), k, ur)
    decreases points
  {
    if points == [] {
      k := 0;
    } else if points[0].util == 0 {
      k := SegmentOf(prev, points[1..], hundred, ur);
    } else if ur <= KnotOf(points[0]).x {
      assert Ascending(KnotOf(points[0]), points[1..], hundred);
      k := 0;
    } else {
      k := SegmentOf(KnotOf(points[0]), points[1..], hundred, ur);
      k := k + 1;
    }
  }

  /**
   Every utilization lies on some segment of the reference polyline, and on each such segment
   the computed rate never exceeds the exact rational interpolation and is less than 11 ulps
   below it.
   */
  lemma ValidCurveIsAccurate(c: Curve, ur: I80F48)
    requires ValidSevenPoint(c) && 0 <= ur <= ONE
    ensures exists k: nat :: OnSegment(Polyline(c), k, ur)
    ensures CurveRate(c, ur).Some?
    ensures var ks := Polyline(c);
      forall k: nat :: OnSegment(ks, k, ur) ==> WithinUlps(ks[k], ks[k + 1], ur, CurveRate(c, ur).value, 11)
  {
    ValidIsAscending(c);
    ValidCurveIsTotal(c, ur);
    var ks := Polyline(c);
    var segment := SegmentOf(Start(c), c.points, RateFromU32(c.hundredUtilRate), ur);
    assert OnSegment(ks, segment, ur);
    forall k: nat | OnSegment(ks, k, ur)
      ensures WithinUlps(ks[k], ks[k + 1], ur, CurveRate(c, ur).value, 11)
    {
      CurveFromFollowsKnots(Start(c), c.points, RateFromU32(c.hundredUtilRate), ur, k);
    }
  }

  // ---- Where the code and its comments part ----

  /** On a segment of non-negative knots interpolation fails exactly outside it or where it falls. */
  lemma LerpFailsExactly(s: Knot, e: Knot, t: I80F48)
    requires 0 <= s.x < e.x && 0 <= s.y <= MAX_BITS && e.y <= MAX_BITS
    ensures Lerp(s.x, s.y, e.x, e.y, t).None? <==> t < s.x || t > e.x || e.y < s.y
  {
    if s.x <= t <= e.x && s.y <= e.y {
      LerpOnSegment(s, e, t);
    }
  }

  /** A validated curve on which a point at u32::MAX hides a hundred rate of 1000%. */
  lemma HundredRateCanBeShadowed()
    ensures var c := Curve(0, U32_MAX, [RatePoint(U32_MAX, 0)]);
      ValidSevenPoint(c) && RateFromU32(c.hundredUtilRate) == 10 * ONE && CurveRate(c, ONE) == Some(0)
  {
    var c := Curve(0, U32_MAX, [RatePoint(U32_MAX, 0)]);
    assert ValidWith(c, 1);
    RateIsTenTimesUtil(0);
    RateIsTenTimesUtil(U32_MAX);
    UtilIsFloor(U32_MAX);
    assert UtilFromU32(U32_MAX) == ONE;
    ValidCurveAtPoint(c, 0);
  }
}
