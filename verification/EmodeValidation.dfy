/**
 The leverage validation of a bank's e-mode entries against its liability weights, and why
 validated configurations stay valid when they are reconciled.
 */
module EmodeValidation {
  import opened Wrappers
  import opened FixedPoint
  import opened Emode
  import opened EmodeProperties

  /** The liability weights of a bank and the group's leverage caps, as 32-bit fractions of 100. */
  datatype Limits = Limits(liabilityWeightInit: I80F48, liabilityWeightMaint: I80F48, maxInitLeverage: nat, maxMaintLeverage: nat)

  function U32ToBasis(value: nat): I80F48 {
    Mul(Div(FromInt(value), FromInt(U32_MAX)), FromInt(100))
  }

  /** L = 1 / (1 - CW / LW), when the collateral weight is below a positive liability weight. */
  function CalculateMaxLeverage(collateralWeight: I80F48, liabilityWeight: I80F48): Result<I80F48> {
    if liabilityWeight <= 0 || collateralWeight >= liabilityWeight then Err(BadEmodeConfig)
    else
      var ratio :- CheckedDiv(collateralWeight, liabilityWeight).OrMathError();
      var denominator := ONE - ratio;
      if denominator <= 0 then Err(BadEmodeConfig) else CheckedDiv(ONE, denominator).OrMathError()
  }

  predicate WithinLeverage(collateralWeight: I80F48, liabilityWeight: I80F48, cap: I80F48) {
    var l := CalculateMaxLeverage(collateralWeight, liabilityWeight);
    l.Ok? && l.value <= cap
  }

  /** One entry passes against the limits. */
  predicate EntryPasses(e: EmodeEntry, limits: Limits) {
    && 0 <= e.assetWeightInit <= e.assetWeightMaint
    && WithinLeverage(e.assetWeightInit, limits.liabilityWeightInit, U32ToBasis(limits.maxInitLeverage))
    && WithinLeverage(e.assetWeightMaint, limits.liabilityWeightMaint, U32ToBasis(limits.maxMaintLeverage))
  }

  predicate NeighboursDiffer(entries: seq<EmodeEntry>) {
    forall i :: 0 < i < |entries| ==> entries[i - 1].tag != entries[i].tag
  }

  /** What a successful validation means. */
  predicate Passes(c: EmodeConfig, limits: Limits) {
    (forall i :: 0 <= i < |c| && !c[i].IsEmpty() ==> EntryPasses(c[i], limits)) && NeighboursDiffer(NonEmpty(c))
  }

  /** Duplicates among neighbouring non-empty entries; complete for sorted entries only. */
  method CheckDupes(c: EmodeConfig) returns (r: Result<()>)
    ensures r.Ok? <==> NeighboursDiffer(NonEmpty(c))
    ensures r.Err? ==> r.error == BadEmodeConfig
  {
    var nonEmptyTags: seq<u16> := [];
    for i := 0 to |c|
      invariant |nonEmptyTags| == |NonEmpty(c[..i])|
      invariant forall k :: 0 <= k < |nonEmptyTags| ==> nonEmptyTags[k] == NonEmpty(c[..i])[k].tag
    {
      assert c[..i + 1][..i] == c[..i];
      if !c[i].IsEmpty() {
        nonEmptyTags := nonEmptyTags + [c[i].tag];
      }
    }
    assert c[..|c|] == c;
    var k := 1;
    while k < |nonEmptyTags|
      invariant 1 <= k
      invariant forall j :: 0 < j < k && j < |nonEmptyTags| ==> nonEmptyTags[j - 1] != nonEmptyTags[j]
    {
      if nonEmptyTags[k - 1] == nonEmptyTags[k] {
        return Err(BadEmodeConfig);
      }
      k := k + 1;
    }
    return Ok(());
  }

  /** The checks on one entry, in the source's order. */
  method CheckEntry(entry: EmodeEntry, limits: Limits) returns (r: Result<()>)
    ensures r.Ok? <==> EntryPasses(entry, limits)
  {
    if entry.assetWeightInit < 0 || entry.assetWeightMaint < entry.assetWeightInit {
      return Err(BadEmodeConfig);
    }
    var maxLeverageInit :- CalculateMaxLeverage(entry.assetWeightInit, limits.liabilityWeightInit);
    if maxLeverageInit > U32ToBasis(limits.maxInitLeverage) {
      return Err(BadEmodeConfig);
    }
    var maxLeverageMaint :- CalculateMaxLeverage(entry.assetWeightMaint, limits.liabilityWeightMaint);
    if maxLeverageMaint > U32ToBasis(limits.maxMaintLeverage) {
      return Err(BadEmodeConfig);
    }
    return Ok(());
  }

  method ValidateEntriesWithLiabilityWeights(c: EmodeConfig, limits: Limits) returns (r: Result<()>)
    ensures r.Ok? <==> Passes(c, limits)
  {
    for i := 0 to |c|
      invariant forall k :: 0 <= k < i && !c[k].IsEmpty() ==> EntryPasses(c[k], limits)
    {
      if !c[i].IsEmpty() {
        var _ :- CheckEntry(c[i], limits);
      }
    }
    r := CheckDupes(c);
  }

  /** The admin's instruction: entries are sorted by tag, then validated. */
  method ConfigureBankEmode(entries: EmodeConfig, limits: Limits) returns (r: Result<EmodeConfig>)
    ensures r.Ok? ==> Sorted(r.value) && multiset(r.value) == multiset(entries) && Passes(r.value, limits)
    ensures r.Ok? <==> Passes(SortByTag(entries), limits)
  {
    var sortedEntries := SortByTag(entries);
    SortIsSorted(entries);
    var _ :- ValidateEntriesWithLiabilityWeights(sortedEntries, limits);
    return Ok(sortedEntries);
  }

  // ---- Leverage ----

  /** The leverage is defined exactly below the liability weight, and grows with the collateral weight. */
  lemma LeverageIsMonotone(low: I80F48, high: I80F48, liabilityWeight: I80F48)
    requires 0 <= low <= high
    ensures CalculateMaxLeverage(high, liabilityWeight).Ok? <==> high < liabilityWeight
    ensures high < liabilityWeight ==>
      && CalculateMaxLeverage(low, liabilityWeight).Ok?
      && ONE <= CalculateMaxLeverage(low, liabilityWeight).value <= CalculateMaxLeverage(high, liabilityWeight).value
  {
    if high < liabilityWeight {
      DivIsFloor(low, liabilityWeight);
      DivIsFloor(high, liabilityWeight);
      var p, q := Div(low, liabilityWeight), Div(high, liabilityWeight);
      FloorMono(low * ONE, high * ONE, liabilityWeight);
      assert q < ONE by {
        MulMono(ONE, high + 1, liabilityWeight);
        FloorIsBelow(high * ONE, liabilityWeight, ONE);
      }
      Reciprocals(ONE - q, ONE - p);
    }
  }

  /** The leverage is LW / (LW - CW), never above it and below it by little. */
  lemma LeverageIsAccurate(collateralWeight: I80F48, liabilityWeight: I80F48)
    requires 0 <= collateralWeight < liabilityWeight
    ensures CalculateMaxLeverage(collateralWeight, liabilityWeight).Ok?
    ensures var l, gap := CalculateMaxLeverage(collateralWeight, liabilityWeight).value, liabilityWeight - collateralWeight;
      && l * gap <= ONE * liabilityWeight
      && ONE * (ONE * liabilityWeight) < (l + 1) * (ONE * gap + liabilityWeight)
  {
    LeverageIsMonotone(collateralWeight, collateralWeight, liabilityWeight);
    var q := Div(collateralWeight, liabilityWeight);
    DivIsFloor(collateralWeight, liabilityWeight);
    RatioIsBelowOne(collateralWeight, liabilityWeight);
    var d := ONE - q;
    DivIsFloor(ONE, d);
    LeverageBounds(collateralWeight, liabilityWeight, q, d, Div(ONE, d));
  }

  lemma RatioIsBelowOne(collateralWeight: I80F48, liabilityWeight: I80F48)
    requires 0 <= collateralWeight < liabilityWeight
    ensures 0 <= Div(collateralWeight, liabilityWeight) < ONE
  {
    DivIsFloor(collateralWeight, liabilityWeight);
    MulMono(ONE, collateralWeight + 1, liabilityWeight);
    FloorIsBelow(collateralWeight * ONE, liabilityWeight, ONE);
  }

  lemma LeverageBounds(cw: int, lw: int, q: int, d: int, l: int)
    requires 0 <= cw < lw && d == ONE - q && d > 0 && l >= 0
    requires lw * q <= cw * ONE < lw * q + lw
    requires d * l <= ONE * ONE < d * l + d
    ensures l * (lw - cw) <= ONE * lw
    ensures ONE * (ONE * lw) < (l + 1) * (ONE * (lw - cw) + lw)
  {
    assert lw * d == ONE * lw - lw * q;
    // l * ONE * (lw - cw) <= l * (lw * d) <= lw * ONE * ONE
    MulMono(l, ONE * (lw - cw), lw * d);
    MulMono(lw, d * l, ONE * ONE);
    assert l * (lw * d) == lw * (d * l);
    assert l * (ONE * (lw - cw)) == ONE * (l * (lw - cw));
    assert lw * (ONE * ONE) == ONE * (ONE * lw);
    // lw * ONE * ONE < lw * d * (l + 1) <= (ONE * (lw - cw) + lw) * (l + 1)
    MulMono(lw, ONE * ONE + 1, d * l + d);
    MulMono(l + 1, lw * d, ONE * (lw - cw) + lw);
    assert lw * (d * l + d) == (l + 1) * (lw * d);
  }

  /**
   What a cap means for the weights: a pass is exactly a ratio CW / LW below 1 - floor(2^96 /
   (cap + 1)) / 2^48, which for a cap of k is 1 - 1/k to within an ulp.
   */
  lemma WithinLeverageExactly(collateralWeight: I80F48, liabilityWeight: I80F48, cap: I80F48)
    requires 0 <= collateralWeight && 0 <= cap
    ensures WithinLeverage(collateralWeight, liabilityWeight, cap) <==>
      liabilityWeight > 0 && collateralWeight * ONE < (ONE - ONE * ONE / (cap + 1)) * liabilityWeight
  {
    if liabilityWeight > 0 {
      var room := ONE * ONE / (cap + 1);
      FloorIsGreatest(ONE * ONE, cap + 1, 0);
      if collateralWeight < liabilityWeight {
        LeverageIsMonotone(collateralWeight, collateralWeight, liabilityWeight);
        RatioIsBelowOne(collateralWeight, liabilityWeight);
        var q := Div(collateralWeight, liabilityWeight);
        DivIsFloor(collateralWeight, liabilityWeight);
        DivIsFloor(ONE, ONE - q);
        AtMostCap(ONE - q, cap, room);
        BelowRatio(collateralWeight * ONE, liabilityWeight, q, ONE - room);
      } else {
        MulMono(ONE, liabilityWeight, collateralWeight);
        MulMono(liabilityWeight, ONE - room, ONE);
      }
    }
  }

  /** A reciprocal is within a cap exactly for denominators above the cap's own reciprocal. */
  lemma AtMostCap(d: int, cap: int, room: int)
    requires d > 0 && cap >= 0 && room == ONE * ONE / (cap + 1)
    ensures ONE * ONE / d <= cap <==> d > room
  {
    FloorBounds(ONE * ONE, d);
    FloorBounds(ONE * ONE, cap + 1);
    if d <= room {
      MulMono(cap + 1, d, room);
      FloorIsGreatest(ONE * ONE, d, cap + 1);
    } else {
      MulMono(cap + 1, room + 1, d);
      assert (cap + 1) * (room + 1) == (cap + 1) * room + (cap + 1);
      FloorIsBelow(ONE * ONE, d, cap + 1);
    }
  }

  lemma BelowRatio(n: int, d: int, q: int, top: int)
    requires d > 0 && d * q <= n < d * q + d
    ensures q < top <==> n < top * d
  {
    if q < top {
      MulMono(d, q + 1, top);
    } else {
      MulMono(d, top, q);
    }
  }

  /** An entry passes exactly when its weights are ordered and each is, at its cap, below that share of its liability weight. */
  lemma EntryPassesExactly(e: EmodeEntry, limits: Limits)
    requires 0 <= limits.maxInitLeverage <= U32_MAX && 0 <= limits.maxMaintLeverage <= U32_MAX
    ensures EntryPasses(e, limits) <==>
      && 0 <= e.assetWeightInit <= e.assetWeightMaint && limits.liabilityWeightInit > 0 && limits.liabilityWeightMaint > 0
      && e.assetWeightInit * ONE < (ONE - ONE * ONE / (U32ToBasis(limits.maxInitLeverage) + 1)) * limits.liabilityWeightInit
      && e.assetWeightMaint * ONE < (ONE - ONE * ONE / (U32ToBasis(limits.maxMaintLeverage) + 1)) * limits.liabilityWeightMaint
  {
    BasisIsAccurate(limits.maxInitLeverage);
    BasisIsAccurate(limits.maxMaintLeverage);
    if 0 <= e.assetWeightInit <= e.assetWeightMaint {
      WithinLeverageExactly(e.assetWeightInit, limits.liabilityWeightInit, U32ToBasis(limits.maxInitLeverage));
      WithinLeverageExactly(e.assetWeightMaint, limits.liabilityWeightMaint, U32ToBasis(limits.maxMaintLeverage));
    }
  }

  /** For a cap of k whole the threshold on CW / LW is at most an ulp above 1 - 1/k, and not below it. */
  lemma WholeCap(k: nat)
    requires 0 < k <= 100
    ensures var threshold := ONE - ONE * ONE / (FromInt(k) + 1);
      k * (threshold - 1) <= (k - 1) * ONE <= k * threshold
  {
    var room := ONE * ONE / (FromInt(k) + 1);
    FloorBounds(ONE * ONE, FromInt(k) + 1);
    WholeCapBounds(k, room);
    assert k * (ONE - room - 1) == k * ONE - k * room - k;
    assert k * (ONE - room) == k * ONE - k * room;
  }

  lemma WholeCapBounds(k: int, room: int)
    requires 0 < k <= 100 && (k * ONE + 1) * room <= ONE * ONE < (k * ONE + 1) * room + (k * ONE + 1)
    ensures k * room <= ONE <= k * room + k
  {
    assert (k * ONE + 1) * room == ONE * (k * room) + room;
    if room < 0 {
      MulMono(k * ONE + 1, room, -1);
    }
    if k * room > ONE {
      MulMono(ONE, ONE + 1, k * room);
    }
    if room >= 0 {
      MulMono(room, 1, k);
    }
    if k * room + k < ONE {
      MulMono(ONE, k * room + k, ONE - 1);
    }
  }

  /** The caps are the fraction of 2^32 - 1, floored, times 100: at most 100, and a hundred ulps below the exact value at most. */
  lemma BasisIsAccurate(value: nat)
    requires value <= U32_MAX
    ensures U32_MAX * U32ToBasis(value) <= 100 * FromInt(value) < U32_MAX * (U32ToBasis(value) + 100)
    ensures 0 <= U32ToBasis(value) <= FromInt(100) && U32ToBasis(U32_MAX) == FromInt(100)
  {
    DivIsFloor(FromInt(value), FromInt(U32_MAX));
    BasisBounds(value, Div(FromInt(value), FromInt(U32_MAX)));
    DivIsFloor(FromInt(U32_MAX), FromInt(U32_MAX));
    BasisBounds(U32_MAX, Div(FromInt(U32_MAX), FromInt(U32_MAX)));
  }

  lemma BasisBounds(value: nat, ratio: int)
    requires value <= U32_MAX && ratio >= 0
    requires FromInt(U32_MAX) * ratio <= FromInt(value) * ONE < FromInt(U32_MAX) * ratio + FromInt(U32_MAX)
    ensures Mul(ratio, FromInt(100)) == 100 * ratio
    ensures U32_MAX * (100 * ratio) <= 100 * FromInt(value) < U32_MAX * (100 * ratio + 100)
    ensures ratio <= ONE && (value == U32_MAX ==> ratio == ONE)
  {
  }

  lemma Reciprocals(d: int, e: int)
    requires 0 < d <= e <= ONE
    ensures ONE <= Div(ONE, e) <= Div(ONE, d) <= ONE * ONE
  {
    DivIsFloor(ONE, d);
    DivIsFloor(ONE, e);
    var a, b := Div(ONE, e), Div(ONE, d);
    MulMono(ONE, e, ONE);
    FloorIsGreatest(ONE * ONE, e, ONE);
    MulNonNeg(d, a);
    MulMono(a, d, e);
    FloorIsGreatest(ONE * ONE, d, a);
    MulNonNeg(d - 1, b);
    assert d * b == (d - 1) * b + b;
  }

  /** An entry no more favourable in its weights passes wherever the other passes. */
  lemma LowerWeightsPass(collateral: I80F48, other: I80F48, liabilityWeight: I80F48, cap: I80F48)
    requires 0 <= collateral <= other && WithinLeverage(other, liabilityWeight, cap)
    ensures WithinLeverage(collateral, liabilityWeight, cap)
  {
    LeverageIsMonotone(collateral, other, liabilityWeight);
  }

  // ---- Duplicates ----

  lemma {:induction false} NonEmptyMembers(entries: seq<EmodeEntry>)
    ensures forall x :: x in NonEmpty(entries) <==> x in entries && !x.IsEmpty()
  {
    if entries != [] {
      var init, last := entries[..|entries| - 1], entries[|entries| - 1];
      NonEmptyMembers(init);
      assert entries == init + [last];
    }
  }

  lemma {:induction false} NonEmptyIsSorted(entries: seq<EmodeEntry>)
    requires Sorted(entries)
    ensures Sorted(NonEmpty(entries))
  {
    if entries != [] {
      var init, last := entries[..|entries| - 1], entries[|entries| - 1];
      NonEmptyIsSorted(init);
      NonEmptyMembers(init);
      forall x | x in NonEmpty(init)
        ensures x.tag <= last.tag
      {
        var i :| 0 <= i < |init| && init[i] == x;
        assert entries[i].tag <= entries[|entries| - 1].tag;
      }
    }
  }

  lemma {:induction false} SortedDistinctNeighboursAscend(s: seq<EmodeEntry>)
    requires Sorted(s) && NeighboursDiffer(s)
    ensures Ascending(s)
  {
    if |s| > 1 {
      var init := s[..|s| - 1];
      SortedDistinctNeighboursAscend(init);
      assert s[|s| - 2].tag < s[|s| - 1].tag;
      forall i | 0 <= i < |s| - 1
        ensures s[i].tag < s[|s| - 1].tag
      {
        assert s[i].tag <= s[|s| - 2].tag;
      }
    }
  }

  lemma AscendingAppended(r: seq<EmodeEntry>, last: EmodeEntry)
    requires Ascending(r + [last])
    ensures forall x :: x in r ==> x.tag < last.tag
  {
    forall k | 0 <= k < |r|
      ensures r[k].tag < last.tag
    {
      assert (r + [last])[k].tag < (r + [last])[|r|].tag;
    }
  }

  lemma AscendingPrefix(r: seq<EmodeEntry>, tail: seq<EmodeEntry>)
    requires Ascending(r + tail)
    ensures Ascending(r)
  {
    assert forall k :: 0 <= k < |r| ==> r[k] == (r + tail)[k];
  }

  lemma {:induction false} AscendingMeansNoRepeats(entries: seq<EmodeEntry>)
    requires Ascending(NonEmpty(entries))
    ensures NoRepeats(entries)
  {
    if entries != [] {
      var init, last := entries[..|entries| - 1], entries[|entries| - 1];
      var r := NonEmpty(init);
      AscendingPrefix(r, if last.IsEmpty() then [] else [last]);
      AscendingMeansNoRepeats(init);
      if !last.IsEmpty() {
        AscendingAppended(r, last);
      }
      forall i | 0 <= i < |init| && !init[i].IsEmpty()
        ensures init[i].tag != last.tag
      {
        NonEmptyMembers(init);
        assert init[i] in r;
      }
      LastIsNew(entries);
    }
  }

  lemma LastIsNew(entries: seq<EmodeEntry>)
    requires entries != [] && NoRepeats(entries[..|entries| - 1])
    requires forall i :: 0 <= i < |entries| - 1 && !entries[i].IsEmpty() ==> entries[i].tag != entries[|entries| - 1].tag
    ensures NoRepeats(entries)
  {
    var init := entries[..|entries| - 1];
    forall i, j | 0 <= i < j < |entries| && !entries[i].IsEmpty()
      ensures entries[i].tag != entries[j].tag
    {
      assert init[i] == entries[i];
      if j < |init| {
        assert init[j] == entries[j];
      }
    }
  }

  /** Over sorted entries, distinct neighbours mean no tag occurs twice. */
  lemma SortedNeighboursMeanNoRepeats(entries: seq<EmodeEntry>)
    requires Sorted(entries) && NeighboursDiffer(NonEmpty(entries))
    ensures NoRepeats(entries)
  {
    NonEmptyIsSorted(entries);
    SortedDistinctNeighboursAscend(NonEmpty(entries));
    AscendingMeansNoRepeats(entries);
  }

  lemma {:induction false} NoRepeatsMeanNeighboursDiffer(entries: seq<EmodeEntry>)
    requires NoRepeats(entries)
    ensures NoRepeats(NonEmpty(entries)) && NeighboursDiffer(NonEmpty(entries))
    ensures forall x :: x in NonEmpty(entries) ==> x in entries
  {
    if entries != [] {
      var init, last := entries[..|entries| - 1], entries[|entries| - 1];
      NoRepeatsMeanNeighboursDiffer(init);
      var r := NonEmpty(init);
      forall i | 0 <= i < |r|
        ensures r[i].tag != last.tag
      {
        assert r[i] in init;
        var k :| 0 <= k < |init| && init[k] == r[i];
        assert entries[k].tag != entries[|entries| - 1].tag;
      }
    }
  }

  // ---- Merging ----

  /** Some configuration of a bank: what the admin's instruction stores. */
  ghost predicate Configured(c: EmodeConfig, limits: Limits) {
    Sorted(c) && Passes(c, limits)
  }

  lemma ConfiguredHasNoRepeats(c: EmodeConfig, limits: Limits)
    requires Configured(c, limits)
    ensures NoRepeats(c)
  {
    SortedNeighboursMeanNoRepeats(c);
  }

  lemma FoundEntryPasses(c: EmodeConfig, limits: Limits, tag: u16)
    requires Passes(c, limits) && tag != EMODE_TAG_EMPTY && FindIn(c, tag).Some?
    ensures EntryPasses(FindIn(c, tag).value, limits)
  {
    FindInSpec(c, tag);
  }

  /** The meet of passing entries passes against the weights of any of their banks. */
  lemma MeetPasses(configs: seq<EmodeConfig>, limits: seq<Limits>, tag: u16, e: EmodeEntry, j: nat)
    requires |configs| == |limits| && j < |configs| && tag != EMODE_TAG_EMPTY
    requires forall i :: 0 <= i < |configs| ==> Configured(configs[i], limits[i])
    requires IsMeet(configs, tag, e)
    ensures EntryPasses(e, limits[j])
  {
    assert configs[j] in configs;
    FoundEntryPasses(configs[j], limits[j], tag);
    var f := FindIn(configs[j], tag).value;
    var ci :| ci in configs && FindIn(ci, tag).Some? && FindIn(ci, tag).value.assetWeightInit == e.assetWeightInit;
    var i :| 0 <= i < |configs| && configs[i] == ci;
    FoundEntryPasses(configs[i], limits[i], tag);
    var cm :| cm in configs && FindIn(cm, tag).Some? && FindIn(cm, tag).value.assetWeightMaint == e.assetWeightMaint;
    var m :| 0 <= m < |configs| && configs[m] == cm;
    FoundEntryPasses(configs[m], limits[m], tag);
    assert e.AtMost(FindIn(cm, tag).value);
    LowerWeightsPass(e.assetWeightInit, f.assetWeightInit, limits[j].liabilityWeightInit, U32ToBasis(limits[j].maxInitLeverage));
    LowerWeightsPass(e.assetWeightMaint, f.assetWeightMaint, limits[j].liabilityWeightMaint, U32ToBasis(limits[j].maxMaintLeverage));
  }

  /**
   Validation survives merging: when every borrowed bank's configuration passed against that
   bank's limits, their reconciliation passes against the limits of each of those banks.
   */
  lemma ValidationSurvivesMerging(configs: seq<EmodeConfig>, limits: seq<Limits>, j: nat)
    requires |configs| == |limits| && j < |configs|
    requires forall i :: 0 <= i < |configs| ==> Configured(configs[i], limits[i])
    ensures Passes(Reconciled(configs), limits[j])
  {
    var r := Reconciled(configs);
    forall c | c in configs
      ensures NoRepeats(c)
    {
      var i :| 0 <= i < |configs| && configs[i] == c;
      ConfiguredHasNoRepeats(c, limits[i]);
    }
    ReconciledIsPacked(configs);
    NoRepeatsMeanNeighboursDiffer(r);
    forall k | 0 <= k < |r| && !r[k].IsEmpty()
      ensures EntryPasses(r[k], limits[j])
    {
      var tag := r[k].tag;
      FoundWhereItIs(r, k);
      ReconciledIsMeet(configs, tag);
      MeetPasses(configs, limits, tag, r[k], j);
    }
  }

  /** Without repeats, looking up an entry's tag finds that entry. */
  lemma FoundWhereItIs(c: EmodeConfig, k: nat)
    requires NoRepeats(c) && k < |c| && !c[k].IsEmpty()
    ensures FindWithTag(c, c[k].tag) == Some(c[k])
  {
    FindInSpec(c, c[k].tag);
    var e := FindIn(c, c[k].tag).value;
    var i :| 0 <= i < |c| && c[i] == e;
    assert i == k;
  }
}
