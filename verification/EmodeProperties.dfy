/**
 Reconciliation is the meet of configurations without repeated tags: it depends on which
 configurations are given and on nothing else, groups in any way, and both implementations
 answer every lookup alike.
 */
module EmodeProperties {
  import opened Wrappers
  import opened Emode

  /** No tag occurs twice, empty entries aside. */
  predicate NoRepeats(entries: seq<EmodeEntry>) {
    forall i, j :: 0 <= i < j < |entries| && !entries[i].IsEmpty() ==> entries[i].tag != entries[j].tag
  }

  predicate AllDistinct(configs: seq<EmodeConfig>) {
    forall c :: c in configs ==> NoRepeats(c)
  }

  /** e is the meet of the entries for its tag: no more favourable than any, and each field taken from one. */
  ghost predicate IsMeet(configs: seq<EmodeConfig>, tag: u16, e: EmodeEntry) {
    && e.tag == tag
    && (forall c :: c in configs ==> FindIn(c, tag).Some? && e.AtMost(FindIn(c, tag).value))
    && (exists c :: c in configs && FindIn(c, tag).Some? && FindIn(c, tag).value.flags == e.flags)
    && (exists c :: c in configs && FindIn(c, tag).Some? && FindIn(c, tag).value.assetWeightInit == e.assetWeightInit)
    && (exists c :: c in configs && FindIn(c, tag).Some? && FindIn(c, tag).value.assetWeightMaint == e.assetWeightMaint)
  }

  ghost predicate Everywhere(configs: seq<EmodeConfig>, tag: u16) {
    forall c :: c in configs ==> FindIn(c, tag).Some?
  }

  // ---- Lookups ----

  lemma {:induction false} FindInAppend(s: seq<EmodeEntry>, t: seq<EmodeEntry>, tag: u16)
    ensures FindIn(s + t, tag) == if FindIn(s, tag).Some? then FindIn(s, tag) else FindIn(t, tag)
  {
    if s == [] {
      assert s + t == t;
    } else {
      assert (s + t)[1..] == s[1..] + t;
      FindInAppend(s[1..], t, tag);
    }
  }

  lemma {:induction false} FindInSpec(s: seq<EmodeEntry>, tag: u16)
    ensures FindIn(s, tag).Some? ==> FindIn(s, tag).value in s && FindIn(s, tag).value.tag == tag
    ensures FindIn(s, tag).Some? <==> exists i :: 0 <= i < |s| && s[i].tag == tag
  {
    if s != [] {
      FindInSpec(s[1..], tag);
      if s[0].tag != tag {
        assert forall i :: 0 < i < |s| ==> s[i] == s[1..][i - 1];
        if i :| 0 <= i < |s| && s[i].tag == tag {
          assert s[1..][i - 1].tag == tag;
        }
      }
    }
  }

  lemma {:induction false} FindInZeros(n: nat, tag: u16)
    requires tag != EMODE_TAG_EMPTY
    ensures FindIn(Zeros(n), tag).None?
  {
    FindInSpec(Zeros(n), tag);
  }

  lemma {:induction false} FindInCommon(entries: seq<EmodeEntry>, n: nat, bound: nat, tag: u16)
    requires bound <= NumTags()
    ensures FindIn(Common(entries, n, bound), tag) == if tag < bound then Kept(entries, n, tag) else None
  {
    if bound > 0 {
      FindInCommon(entries, n, bound - 1, tag);
      FindInAppend(Common(entries, n, bound - 1), KeptList(entries, n, bound - 1), tag);
    }
  }

  lemma FindInCommonTo(configs: seq<EmodeConfig>, tag: u16)
    requires configs != []
    ensures FindIn(CommonTo(configs), tag) == Kept(Occurrences(configs), |configs|, tag)
  {
    FindInCommon(Occurrences(configs), |configs|, NumTags(), tag);
  }

  lemma FindPadded(entries: seq<EmodeEntry>, n: nat, tag: u16)
    requires tag != EMODE_TAG_EMPTY
    ensures FindIn(entries + Zeros(n), tag) == FindIn(entries, tag)
  {
    FindInAppend(entries, Zeros(n), tag);
    FindInZeros(n, tag);
  }

  /** On any input, repeats included: a tag is found when it occurs as often as there are configurations, as the merge of its occurrences. */
  lemma FindReconciled(configs: seq<EmodeConfig>, tag: u16)
    requires configs != [] && tag != EMODE_TAG_EMPTY
    ensures FindWithTag(Reconciled(configs), tag) == Kept(Occurrences(configs), |configs|, tag)
  {
    var common := CommonTo(configs);
    FindInCommonTo(configs, tag);
    FindPadded(common, MAX_EMODE_ENTRIES - |common|, tag);
  }

  // ---- Counting and merging ----

  lemma {:induction false} CountAppend(s: seq<EmodeEntry>, t: seq<EmodeEntry>, tag: u16)
    ensures CountTag(s + t, tag) == CountTag(s, tag) + CountTag(t, tag)
  {
    if t == [] {
      assert s + t == s;
    } else {
      var u := t[..|t| - 1];
      assert (s + t)[..|s + t| - 1] == s + u;
      CountAppend(s, u, tag);
    }
  }

  lemma {:induction false} MergedAppend(s: seq<EmodeEntry>, t: seq<EmodeEntry>, tag: u16)
    requires CountTag(t, tag) <= 1
    ensures Merged(s + t, tag) ==
      if Merged(t, tag).None? then Merged(s, tag)
      else if Merged(s, tag).None? then Merged(t, tag)
      else Some(Merged(s, tag).value.Merge(Merged(t, tag).value))
  {
    if t == [] {
      assert s + t == s;
    } else {
      var u := t[..|t| - 1];
      assert (s + t)[..|s + t| - 1] == s + u;
      MergedAppend(s, u, tag);
    }
  }

  /** In a configuration without repeats a tag is counted once, and merges to the entry found. */
  lemma {:induction false} OnceInConfig(entries: seq<EmodeEntry>, tag: u16)
    requires NoRepeats(entries) && tag != EMODE_TAG_EMPTY
    ensures CountTag(NonEmpty(entries), tag) == if FindIn(entries, tag).Some? then 1 else 0
    ensures Merged(NonEmpty(entries), tag) == FindIn(entries, tag)
  {
    if entries != [] {
      var init, last := entries[..|entries| - 1], entries[|entries| - 1];
      OnceInConfig(init, tag);
      assert entries == init + [last];
      FindInAppend(init, [last], tag);
      FindInSpec(init, tag);
      if last.tag == tag {
        assert FindIn(init, tag).None?;
      }
      var tail := if last.IsEmpty() then [] else [last];
      OnlyEntry(last, tail, tag);
      CountAppend(NonEmpty(init), tail, tag);
      MergedAppend(NonEmpty(init), tail, tag);
    }
  }

  lemma OnlyEntry(e: EmodeEntry, tail: seq<EmodeEntry>, tag: u16)
    requires tag != EMODE_TAG_EMPTY && tail == if e.IsEmpty() then [] else [e]
    ensures CountTag(tail, tag) == if e.tag == tag then 1 else 0
    ensures Merged(tail, tag) == if e.tag == tag then Some(e) else None
    ensures FindIn([e], tag) == if e.tag == tag then Some(e) else None
  {
    if tail != [] {
      assert tail[..0] == [];
    }
    assert [e][1..] == [];
  }

  lemma MergeIsMeet(configs: seq<EmodeConfig>, tag: u16, e: EmodeEntry, last: EmodeConfig, found: EmodeEntry)
    requires IsMeet(configs, tag, e) && FindIn(last, tag) == Some(found) && found.tag == tag
    ensures IsMeet(configs + [last], tag, e.Merge(found))
  {
    var all, m := configs + [last], e.Merge(found);
    assert last in all;
    assert forall c :: c in configs ==> c in all;
    var cf :| cf in configs && FindIn(cf, tag).Some? && FindIn(cf, tag).value.flags == e.flags;
    var ci :| ci in configs && FindIn(ci, tag).Some? && FindIn(ci, tag).value.assetWeightInit == e.assetWeightInit;
    var cm :| cm in configs && FindIn(cm, tag).Some? && FindIn(cm, tag).value.assetWeightMaint == e.assetWeightMaint;
    var df := if m.flags == e.flags then cf else last;
    assert df in all && FindIn(df, tag).value.flags == m.flags;
    var di := if m.assetWeightInit == e.assetWeightInit then ci else last;
    assert di in all && FindIn(di, tag).value.assetWeightInit == m.assetWeightInit;
    var dm := if m.assetWeightMaint == e.assetWeightMaint then cm else last;
    assert dm in all && FindIn(dm, tag).value.assetWeightMaint == m.assetWeightMaint;
  }

  /** A tag is counted once per configuration that has it. */
  lemma {:induction false} OccurrencesCount(configs: seq<EmodeConfig>, tag: u16)
    requires AllDistinct(configs) && tag != EMODE_TAG_EMPTY
    ensures CountTag(Occurrences(configs), tag) <= |configs|
    ensures CountTag(Occurrences(configs), tag) == |configs| <==> Everywhere(configs, tag)
  {
    if configs != [] {
      var init, last := configs[..|configs| - 1], configs[|configs| - 1];
      assert configs == init + [last] && last in configs;
      assert forall c :: c in configs <==> c in init || c == last;
      OccurrencesCount(init, tag);
      OnceInConfig(last, tag);
      CountAppend(Occurrences(init), NonEmpty(last), tag);
    }
  }

  /** A tag that every configuration has merges to the meet of its entries. */
  lemma {:induction false} OccurrencesMeet(configs: seq<EmodeConfig>, tag: u16)
    requires configs != [] && AllDistinct(configs) && tag != EMODE_TAG_EMPTY && Everywhere(configs, tag)
    ensures Merged(Occurrences(configs), tag).Some? && IsMeet(configs, tag, Merged(Occurrences(configs), tag).value)
  {
    var init, last := configs[..|configs| - 1], configs[|configs| - 1];
    MembersSplit(configs);
    OnceInConfig(last, tag);
    FindInSpec(last, tag);
    MergedAppend(Occurrences(init), NonEmpty(last), tag);
    if init == [] {
      MeetOfOne(last, tag);
      assert configs == [last];
    } else {
      OccurrencesMeet(init, tag);
      MergeIsMeet(init, tag, Merged(Occurrences(init), tag).value, last, FindIn(last, tag).value);
      assert configs == init + [last];
    }
  }

  lemma MembersSplit(configs: seq<EmodeConfig>)
    requires configs != []
    ensures configs[|configs| - 1] in configs
    ensures forall c :: c in configs[..|configs| - 1] ==> c in configs
  {
  }

  lemma MeetOfOne(c: EmodeConfig, tag: u16)
    requires FindIn(c, tag).Some? && FindIn(c, tag).value.tag == tag
    ensures IsMeet([c], tag, FindIn(c, tag).value)
  {
    assert c in [c];
  }

  // ---- The meet ----

  /** A tag is present exactly when every configuration has it, with the least of each field. */
  lemma ReconciledIsMeet(configs: seq<EmodeConfig>, tag: u16)
    requires configs != [] && AllDistinct(configs) && tag != EMODE_TAG_EMPTY
    ensures FindWithTag(Reconciled(configs), tag).Some? <==> Everywhere(configs, tag)
    ensures Everywhere(configs, tag) ==> IsMeet(configs, tag, FindWithTag(Reconciled(configs), tag).value)
  {
    FindReconciled(configs, tag);
    OccurrencesCount(configs, tag);
    if Everywhere(configs, tag) {
      OccurrencesMeet(configs, tag);
    }
  }

  /** Nothing reconciles to nothing. */
  lemma NothingReconciled(tag: u16)
    ensures FindWithTag(Reconciled([]), tag).None?
  {
    if tag != EMODE_TAG_EMPTY {
      FindInZeros(MAX_EMODE_ENTRIES, tag);
    }
  }

  /** The meet is unique, and the same for lists with the same members. */
  lemma MeetIsUnique(a: seq<EmodeConfig>, b: seq<EmodeConfig>, tag: u16, e: EmodeEntry, f: EmodeEntry)
    requires forall c :: c in a <==> c in b
    requires IsMeet(a, tag, e) && IsMeet(b, tag, f)
    ensures e == f
  {
  }

  /** n entries in use with strictly ascending tags, then empty ones. */
  predicate Packed(c: EmodeConfig, n: nat) {
    && n <= MAX_EMODE_ENTRIES
    && Ascending(c[..n])
    && (forall i :: 0 <= i < n ==> !c[i].IsEmpty())
    && (forall i :: n <= i < MAX_EMODE_ENTRIES ==> c[i] == EMPTY_ENTRY)
  }

  lemma PackedHasNoRepeats(c: EmodeConfig, n: nat)
    requires Packed(c, n)
    ensures NoRepeats(c)
  {
    forall i, j | 0 <= i < j < |c| && !c[i].IsEmpty()
      ensures c[i].tag != c[j].tag
    {
      if j < n {
        assert c[..n][i].tag < c[..n][j].tag;
      }
    }
  }

  /** The result's shape, whatever the input. */
  lemma ReconciledIsPacked(configs: seq<EmodeConfig>)
    ensures exists n: nat :: Packed(Reconciled(configs), n)
    ensures NoRepeats(Reconciled(configs))
  {
    var r := Reconciled(configs);
    if configs == [] {
      assert Packed(r, 0);
      PackedHasNoRepeats(r, 0);
    } else {
      var common := CommonTo(configs);
      CommonIsAscending(Occurrences(configs), |configs|, NumTags());
      CommonIsNonEmpty(Occurrences(configs), |configs|, NumTags());
      assert r[..|common|] == common;
      assert Packed(r, |common|);
      PackedHasNoRepeats(r, |common|);
    }
  }

  lemma {:induction false} EmptyTagNeverCounted(entries: seq<EmodeEntry>)
    requires forall i :: 0 <= i < |entries| ==> !entries[i].IsEmpty()
    ensures CountTag(entries, EMODE_TAG_EMPTY) == 0
  {
    if entries != [] {
      EmptyTagNeverCounted(entries[..|entries| - 1]);
    }
  }

  lemma {:induction false} CommonIsNonEmpty(entries: seq<EmodeEntry>, n: nat, bound: nat)
    requires n > 0 && bound <= NumTags() && forall i :: 0 <= i < |entries| ==> !entries[i].IsEmpty()
    ensures forall i :: 0 <= i < |Common(entries, n, bound)| ==> !Common(entries, n, bound)[i].IsEmpty()
  {
    if bound > 0 {
      CommonIsNonEmpty(entries, n, bound - 1);
      EmptyTagNeverCounted(entries);
    }
  }

  lemma {:induction false} SameKeptSameCommon(a: seq<EmodeEntry>, m: nat, b: seq<EmodeEntry>, n: nat, bound: nat)
    requires bound <= NumTags() && forall tag: u16 :: Kept(a, m, tag) == Kept(b, n, tag)
    ensures Common(a, m, bound) == Common(b, n, bound)
  {
    if bound > 0 {
      SameKeptSameCommon(a, m, b, n, bound - 1);
      assert KeptList(a, m, bound - 1) == KeptList(b, n, bound - 1);
    }
  }

  /** A reconciliation is determined by its answers to lookups. */
  lemma SameLookupsSameResult(a: seq<EmodeConfig>, b: seq<EmodeConfig>)
    requires a != [] && b != []
    requires forall tag: u16 :: FindWithTag(Reconciled(a), tag) == FindWithTag(Reconciled(b), tag)
    ensures Reconciled(a) == Reconciled(b)
  {
    forall tag: u16
      ensures Kept(Occurrences(a), |a|, tag) == Kept(Occurrences(b), |b|, tag)
    {
      if tag == EMODE_TAG_EMPTY {
        EmptyTagNeverCounted(Occurrences(a));
        EmptyTagNeverCounted(Occurrences(b));
      } else {
        FindReconciled(a, tag);
        FindReconciled(b, tag);
      }
    }
    SameKeptSameCommon(Occurrences(a), |a|, Occurrences(b), |b|, NumTags());
  }

  /** The result depends only on which configurations are given: not on their order, nor on how often each is. */
  lemma OrderDoesNotMatter(a: seq<EmodeConfig>, b: seq<EmodeConfig>)
    requires AllDistinct(a) && forall c :: c in a <==> c in b
    ensures Reconciled(a) == Reconciled(b)
  {
    assert b != [] ==> b[0] in b;
    if a != [] {
      assert a[0] in b;
      forall tag: u16
        ensures FindWithTag(Reconciled(a), tag) == FindWithTag(Reconciled(b), tag)
      {
        if tag != EMODE_TAG_EMPTY {
          ReconciledIsMeet(a, tag);
          ReconciledIsMeet(b, tag);
          assert Everywhere(a, tag) <==> Everywhere(b, tag);
          if Everywhere(a, tag) {
            MeetIsUnique(a, b, tag, FindWithTag(Reconciled(a), tag).value, FindWithTag(Reconciled(b), tag).value);
          }
        }
      }
      SameLookupsSameResult(a, b);
    }
  }

  /** Meets of two groups meet to the meet of both. */
  lemma MeetOfMeets(a: seq<EmodeConfig>, b: seq<EmodeConfig>, ra: EmodeConfig, rb: EmodeConfig, tag: u16, e: EmodeEntry)
    requires FindIn(ra, tag).Some? && IsMeet(a, tag, FindIn(ra, tag).value)
    requires FindIn(rb, tag).Some? && IsMeet(b, tag, FindIn(rb, tag).value)
    requires IsMeet([ra, rb], tag, e)
    ensures IsMeet(a + b, tag, e)
  {
    var all, fa, fb := a + b, FindIn(ra, tag).value, FindIn(rb, tag).value;
    assert ra in [ra, rb] && rb in [ra, rb];
    assert e.AtMost(fa) && e.AtMost(fb);
    assert e.flags == fa.flags || e.flags == fb.flags;
    assert e.assetWeightInit == fa.assetWeightInit || e.assetWeightInit == fb.assetWeightInit;
    assert e.assetWeightMaint == fa.assetWeightMaint || e.assetWeightMaint == fb.assetWeightMaint;
    assert forall c :: c in all <==> c in a || c in b;
  }

  /** Reconciling two non-empty groups and then their results is reconciling all at once. */
  lemma Associative(a: seq<EmodeConfig>, b: seq<EmodeConfig>)
    requires a != [] && b != [] && AllDistinct(a) && AllDistinct(b)
    ensures Reconciled([Reconciled(a), Reconciled(b)]) == Reconciled(a + b)
  {
    var ra, rb := Reconciled(a), Reconciled(b);
    ReconciledIsPacked(a);
    ReconciledIsPacked(b);
    var all := a + b;
    assert forall c :: c in all <==> c in a || c in b;
    forall tag: u16
      ensures FindWithTag(Reconciled([ra, rb]), tag) == FindWithTag(Reconciled(all), tag)
    {
      if tag != EMODE_TAG_EMPTY {
        AssociativeAt(a, b, ra, rb, tag);
      }
    }
    SameLookupsSameResult([ra, rb], all);
  }

  lemma AssociativeAt(a: seq<EmodeConfig>, b: seq<EmodeConfig>, ra: EmodeConfig, rb: EmodeConfig, tag: u16)
    requires a != [] && b != [] && AllDistinct(a) && AllDistinct(b) && tag != EMODE_TAG_EMPTY
    requires ra == Reconciled(a) && rb == Reconciled(b) && NoRepeats(ra) && NoRepeats(rb)
    ensures FindWithTag(Reconciled([ra, rb]), tag) == FindWithTag(Reconciled(a + b), tag)
  {
    var all := a + b;
    assert forall c :: c in all <==> c in a || c in b;
    assert ra in [ra, rb] && rb in [ra, rb];
    ReconciledIsMeet(a, tag);
    ReconciledIsMeet(b, tag);
    ReconciledIsMeet(all, tag);
    ReconciledIsMeet([ra, rb], tag);
    assert Everywhere(all, tag) <==> Everywhere(a, tag) && Everywhere(b, tag);
    assert Everywhere([ra, rb], tag) <==> FindIn(ra, tag).Some? && FindIn(rb, tag).Some?;
    if Everywhere(all, tag) {
      var e := FindWithTag(Reconciled([ra, rb]), tag).value;
      MeetOfMeets(a, b, ra, rb, tag, e);
      MeetIsUnique(all, all, tag, e, FindWithTag(Reconciled(all), tag).value);
    }
  }

  /** The streaming and the classic implementation answer every lookup alike, the lone unsorted configuration included. */
  lemma ImplementationsAgree(configs: seq<EmodeConfig>, tag: u16)
    requires AllDistinct(configs)
    ensures FindWithTag(ClassicReconciled(configs), tag) == FindWithTag(Reconciled(configs), tag)
  {
    if |configs| == 1 && tag != EMODE_TAG_EMPTY {
      var c := configs[0];
      assert c in configs && forall d :: d in configs ==> d == c;
      FindReconciled(configs, tag);
      assert configs[..0] == [] && Occurrences(configs) == [] + NonEmpty(c) == NonEmpty(c);
      OnceInConfig(c, tag);
    }
  }

  /** A single configuration keeps all its answers, and reconciling a result again changes nothing. */
  lemma ReconcilingAgain(configs: seq<EmodeConfig>)
    requires configs != []
    ensures Reconciled([Reconciled(configs)]) == Reconciled(configs)
  {
    var r := Reconciled(configs);
    ReconciledIsPacked(configs);
    forall tag: u16
      ensures FindWithTag(Reconciled([r]), tag) == FindWithTag(r, tag)
    {
      ImplementationsAgree([r], tag);
    }
    SameLookupsSameResult([r], configs);
  }

  // ---- Repeated tags ----

  lemma {:induction false} NonEmptyOfPadded(entries: seq<EmodeEntry>, n: nat)
    requires forall i :: 0 <= i < |entries| ==> !entries[i].IsEmpty()
    ensures NonEmpty(entries + Zeros(n)) == entries
  {
    var padded := entries + Zeros(n);
    if n > 0 {
      assert padded[..|padded| - 1] == entries + Zeros(n - 1);
      NonEmptyOfPadded(entries, n - 1);
    } else if entries != [] {
      var init := entries[..|entries| - 1];
      assert padded[..|padded| - 1] == init + Zeros(0);
      NonEmptyOfPadded(init, 0);
    }
  }

  /** A tag that one configuration repeats can survive although another does not have it. */
  lemma RepeatedTagsBreakTheMeet(e: EmodeEntry, twice: EmodeConfig)
    requires !e.IsEmpty() && twice == [e, e] + Zeros(8)
    ensures FindWithTag(Reconciled([twice, Zeros(10)]), e.tag).Some? && !Everywhere([twice, Zeros(10)], e.tag)
  {
    var configs: seq<EmodeConfig> := [twice, Zeros(10)];
    NonEmptyOfPadded([e, e], 8);
    NonEmptyOfPadded([], 10);
    assert [] + Zeros(10) == Zeros(10);
    assert configs[..1][..0] == [] && Occurrences(configs[..1]) == NonEmpty(configs[0]);
    assert Occurrences(configs) == [e, e];
    CountAppend([e], [e], e.tag);
    assert [e] + [e] == [e, e];
    FindReconciled(configs, e.tag);
    FindInZeros(10, e.tag);
    assert configs[1] in configs;
  }

  /** Every tag is found exactly when all configurations have it. */
  ghost predicate MeetHolds(configs: seq<EmodeConfig>) {
    forall tag: u16 :: tag != EMODE_TAG_EMPTY ==> (FindWithTag(Reconciled(configs), tag).Some? <==> Everywhere(configs, tag))
  }

  /** A configuration followed by n empty ones. */
  function Beside(c: EmodeConfig, n: nat): seq<EmodeConfig> {
    [c] + seq(n, _ => Zeros(MAX_EMODE_ENTRIES))
  }

  lemma {:induction false} OccurrencesBeside(c: EmodeConfig, n: nat)
    ensures Occurrences(Beside(c, n)) == NonEmpty(c)
  {
    var configs := Beside(c, n);
    if n == 0 {
      assert configs[..0] == [];
    } else {
      assert configs[..|configs| - 1] == Beside(c, n - 1);
      OccurrencesBeside(c, n - 1);
      NonEmptyOfPadded([], MAX_EMODE_ENTRIES);
      assert [] + Zeros(MAX_EMODE_ENTRIES) == Zeros(MAX_EMODE_ENTRIES);
    }
  }

  /** A repeated tag is counted more than once. */
  lemma {:induction false} RepeatIsCounted(entries: seq<EmodeEntry>, i: nat, j: nat)
    requires i < j < |entries| && !entries[i].IsEmpty() && entries[i].tag == entries[j].tag
    ensures CountTag(NonEmpty(entries), entries[i].tag) >= 2
  {
    var init, last := entries[..|entries| - 1], entries[|entries| - 1];
    var tail := if last.IsEmpty() then [] else [last];
    CountAppend(NonEmpty(init), tail, entries[i].tag);
    if j == |entries| - 1 {
      OnceIsCounted(init, i);
      OnlyEntry(last, tail, entries[i].tag);
    } else {
      assert init[i] == entries[i] && init[j] == entries[j];
      RepeatIsCounted(init, i, j);
    }
  }

  lemma {:induction false} OnceIsCounted(entries: seq<EmodeEntry>, i: nat)
    requires i < |entries| && !entries[i].IsEmpty()
    ensures CountTag(NonEmpty(entries), entries[i].tag) >= 1
  {
    var init, last := entries[..|entries| - 1], entries[|entries| - 1];
    var tail := if last.IsEmpty() then [] else [last];
    CountAppend(NonEmpty(init), tail, entries[i].tag);
    if i == |entries| - 1 {
      OnlyEntry(last, tail, entries[i].tag);
    } else {
      assert init[i] == entries[i];
      OnceIsCounted(init, i);
    }
  }

  /** The tag then survives beside as many empty configurations as it has further occurrences. */
  lemma RepeatSurvives(c: EmodeConfig, tag: u16, n: nat)
    requires tag != EMODE_TAG_EMPTY && n > 0 && CountTag(NonEmpty(c), tag) == n + 1
    ensures !MeetHolds(Beside(c, n))
  {
    var configs := Beside(c, n);
    OccurrencesBeside(c, n);
    FindReconciled(configs, tag);
    assert FindWithTag(Reconciled(configs), tag).Some?;
    NotInEmpty(configs, tag);
  }

  lemma NotInEmpty(configs: seq<EmodeConfig>, tag: u16)
    requires |configs| > 1 && configs[1] == Zeros(MAX_EMODE_ENTRIES) && tag != EMODE_TAG_EMPTY
    ensures !Everywhere(configs, tag)
  {
    FindInZeros(MAX_EMODE_ENTRIES, tag);
    assert configs[1] in configs;
  }

  /** The tags of a configuration are without repeats exactly when no number of empty configurations beside it breaks the meet. */
  lemma MeetHoldsExactly(c: EmodeConfig)
    ensures NoRepeats(c) <==> forall n: nat :: MeetHolds(Beside(c, n))
  {
    if NoRepeats(c) {
      forall n: nat
        ensures MeetHolds(Beside(c, n))
      {
        forall tag: u16 | tag != EMODE_TAG_EMPTY
          ensures FindWithTag(Reconciled(Beside(c, n)), tag).Some? <==> Everywhere(Beside(c, n), tag)
        {
          ReconciledIsMeet(Beside(c, n), tag);
        }
      }
    } else {
      var i, j :| 0 <= i < j < |c| && !c[i].IsEmpty() && c[i].tag == c[j].tag;
      RepeatIsCounted(c, i, j);
      RepeatSurvives(c, c[i].tag, CountTag(NonEmpty(c), c[i].tag) - 1);
    }
  }
}
