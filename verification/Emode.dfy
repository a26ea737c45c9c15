/**
 E-mode configurations and their reconciliation: the entries common to all configurations,
 each with its least favourable flags and weights, sorted into a fixed buffer of ten.
 */
module Emode {
  import opened Wrappers
  import opened FixedPoint

  type u16 = n: int | 0 <= n <= 0xFFFF

  const MAX_EMODE_ENTRIES: nat := 10
  const EMODE_TAG_EMPTY: u16 := 0

  datatype EmodeEntry = EmodeEntry(tag: u16, flags: nat, assetWeightInit: I80F48, assetWeightMaint: I80F48) {
    predicate IsEmpty() {
      tag == EMODE_TAG_EMPTY
    }

    /** The less favourable of two entries for the same tag, field by field. */
    function Merge(other: EmodeEntry): EmodeEntry {
      EmodeEntry(tag,
                 Min(flags, other.flags),
                 if other.assetWeightInit < assetWeightInit then other.assetWeightInit else assetWeightInit,
                 if other.assetWeightMaint < assetWeightMaint then other.assetWeightMaint else assetWeightMaint)
    }

    /** No more favourable than another, in any field. */
    predicate AtMost(other: EmodeEntry) {
      flags <= other.flags && assetWeightInit <= other.assetWeightInit && assetWeightMaint <= other.assetWeightMaint
    }
  }

  const EMPTY_ENTRY := EmodeEntry(0, 0, 0, 0)

  type EmodeConfig = s: seq<EmodeEntry> | |s| == 10 witness seq(10, _ => EMPTY_ENTRY)

  function Zeros(n: nat): (z: seq<EmodeEntry>)
    ensures |z| == n && forall i :: 0 <= i < n ==> z[i] == EMPTY_ENTRY
  {
    seq(n, _ => EMPTY_ENTRY)
  }

  function FindIn(entries: seq<EmodeEntry>, tag: u16): Option<EmodeEntry> {
    if entries == [] then None
    else if entries[0].tag == tag then Some(entries[0])
    else FindIn(entries[1..], tag)
  }

  function FindWithTag(c: EmodeConfig, tag: u16): Option<EmodeEntry> {
    if tag == EMODE_TAG_EMPTY then None else FindIn(c, tag)
  }

  // ---- Sorting into a configuration ----

  function InsertByTag(e: EmodeEntry, s: seq<EmodeEntry>): (r: seq<EmodeEntry>)
    ensures |r| == |s| + 1 && multiset(r) == multiset{e} + multiset(s)
  {
    if s == [] || e.tag <= s[0].tag then [e] + s
    else
      assert s == [s[0]] + s[1..];
      [s[0]] + InsertByTag(e, s[1..])
  }

  /** The stable sort by tag. */
  function SortByTag(s: seq<EmodeEntry>): (r: seq<EmodeEntry>)
    ensures |r| == |s| && multiset(r) == multiset(s)
  {
    if s == [] then []
    else
      assert s == [s[0]] + s[1..];
      InsertByTag(s[0], SortByTag(s[1..]))
  }

  predicate Sorted(s: seq<EmodeEntry>) {
    forall i, j :: 0 <= i < j < |s| ==> s[i].tag <= s[j].tag
  }

  predicate Ascending(s: seq<EmodeEntry>) {
    forall i, j :: 0 <= i < j < |s| ==> s[i].tag < s[j].tag
  }

  lemma {:induction false} InsertKeepsSorted(e: EmodeEntry, s: seq<EmodeEntry>)
    requires Sorted(s)
    ensures Sorted(InsertByTag(e, s))
  {
    if s != [] && s[0].tag < e.tag {
      InsertKeepsSorted(e, s[1..]);
      var rest := InsertByTag(e, s[1..]);
      forall x | x in rest
        ensures s[0].tag <= x.tag
      {
        assert x in multiset(rest);
        assert x == e || x in multiset(s[1..]);
      }
    }
  }

  lemma {:induction false} SortIsSorted(s: seq<EmodeEntry>)
    ensures Sorted(SortByTag(s))
  {
    if s != [] {
      SortIsSorted(s[1..]);
      InsertKeepsSorted(s[0], SortByTag(s[1..]));
    }
  }

  lemma {:induction false} SortKeepsAscending(s: seq<EmodeEntry>)
    requires Ascending(s)
    ensures SortByTag(s) == s
  {
    if s != [] {
      SortKeepsAscending(s[1..]);
      assert s == [s[0]] + s[1..];
    }
  }

  /** Entries sorted by tag and padded with empty ones; more than ten panic. */
  function FromEntries(entries: seq<EmodeEntry>): Option<EmodeConfig> {
    if |entries| > MAX_EMODE_ENTRIES then None
    else Some(SortByTag(entries) + Zeros(MAX_EMODE_ENTRIES - |entries|))
  }

  // ---- What reconciliation computes ----

  function NonEmpty(entries: seq<EmodeEntry>): (r: seq<EmodeEntry>)
    ensures |r| <= |entries|
    ensures forall i :: 0 <= i < |r| ==> !r[i].IsEmpty()
  {
    if entries == [] then []
    else
      var last := entries[|entries| - 1];
      NonEmpty(entries[..|entries| - 1]) + (if last.IsEmpty() then [] else [last])
  }

  /** All non-empty entries of all configurations, in order. */
  function Occurrences(configs: seq<EmodeConfig>): (r: seq<EmodeEntry>)
    ensures |r| <= MAX_EMODE_ENTRIES * |configs|
    ensures forall i :: 0 <= i < |r| ==> !r[i].IsEmpty()
  {
    if configs == [] then [] else Occurrences(configs[..|configs| - 1]) + NonEmpty(configs[|configs| - 1])
  }

  function CountTag(entries: seq<EmodeEntry>, tag: u16): nat {
    if entries == [] then 0
    else CountTag(entries[..|entries| - 1], tag) + (if entries[|entries| - 1].tag == tag then 1 else 0)
  }

  /** All occurrences of a tag merged into one entry. */
  function Merged(entries: seq<EmodeEntry>, tag: u16): (r: Option<EmodeEntry>)
    ensures r.Some? <==> CountTag(entries, tag) > 0
    ensures r.Some? ==> r.value.tag == tag
  {
    if entries == [] then None
    else
      var last, before := entries[|entries| - 1], Merged(entries[..|entries| - 1], tag);
      if last.tag != tag then before
      else if before.None? then Some(last)
      else Some(before.value.Merge(last))
  }

  /** The merged entry of a tag seen exactly n times. */
  function Kept(entries: seq<EmodeEntry>, n: nat, tag: u16): Option<EmodeEntry> {
    if CountTag(entries, tag) == n then Merged(entries, tag) else None
  }

  function KeptList(entries: seq<EmodeEntry>, n: nat, tag: u16): seq<EmodeEntry> {
    match Kept(entries, n, tag)
    case Some(e) => [e]
    case None => []
  }

  /** The kept entries of all tags below a bound, ascending. */
  function Common(entries: seq<EmodeEntry>, n: nat, bound: nat): seq<EmodeEntry>
    requires bound <= NumTags()
  {
    if bound == 0 then [] else Common(entries, n, bound - 1) + KeptList(entries, n, bound - 1)
  }

  function NumTags(): nat {
    0x1_0000
  }

  function CountBelow(entries: seq<EmodeEntry>, bound: nat): (r: nat)
    ensures r <= |entries|
  {
    if entries == [] then 0
    else CountBelow(entries[..|entries| - 1], bound) + (if entries[|entries| - 1].tag < bound then 1 else 0)
  }

  lemma {:induction false} CountBelowNext(entries: seq<EmodeEntry>, tag: u16)
    ensures CountBelow(entries, tag + 1) == CountBelow(entries, tag) + CountTag(entries, tag)
  {
    if entries != [] {
      CountBelowNext(entries[..|entries| - 1], tag);
    }
  }

  /** The kept tags use up n entries each, so ten configurations' worth of entries leave room for at most ten. */
  lemma {:induction false} CommonUsesEntries(entries: seq<EmodeEntry>, n: nat, bound: nat)
    requires bound <= NumTags()
    ensures |Common(entries, n, bound)| * n <= CountBelow(entries, bound)
  {
    if bound > 0 {
      CommonUsesEntries(entries, n, bound - 1);
      CountBelowNext(entries, bound - 1);
      OneMoreUse(|Common(entries, n, bound - 1)|, |KeptList(entries, n, bound - 1)|, n, CountBelow(entries, bound - 1),
                 CountTag(entries, bound - 1));
    }
  }

  lemma OneMoreUse(before: nat, kept: nat, n: nat, below: nat, cnt: nat)
    requires before * n <= below && kept <= 1 && (kept == 1 ==> cnt == n)
    ensures (before + kept) * n <= below + cnt
  {
    if kept == 1 {
      assert (before + 1) * n == before * n + n;
    }
  }

  lemma CommonFits(configs: seq<EmodeConfig>, bound: nat)
    requires configs != [] && bound <= NumTags()
    ensures |Common(Occurrences(configs), |configs|, bound)| <= MAX_EMODE_ENTRIES
  {
    var k, n := |Common(Occurrences(configs), |configs|, bound)|, |configs|;
    CommonUsesEntries(Occurrences(configs), n, bound);
    if k > MAX_EMODE_ENTRIES {
      MulMono(n, MAX_EMODE_ENTRIES + 1, k);
    }
  }

  lemma {:induction false} CommonIsAscending(entries: seq<EmodeEntry>, n: nat, bound: nat)
    requires bound <= NumTags()
    ensures Ascending(Common(entries, n, bound))
    ensures forall i :: 0 <= i < |Common(entries, n, bound)| ==> Common(entries, n, bound)[i].tag < bound
  {
    if bound > 0 {
      CommonIsAscending(entries, n, bound - 1);
    }
  }

  /** The reconciliation of a list of configurations. */
  function Reconciled(configs: seq<EmodeConfig>): EmodeConfig {
    if configs == [] then Zeros(MAX_EMODE_ENTRIES)
    else
      var common := CommonTo(configs);
      common + Zeros(MAX_EMODE_ENTRIES - |common|)
  }

  /** The entries common to all configurations, ascending. */
  function CommonTo(configs: seq<EmodeConfig>): (r: seq<EmodeEntry>)
    requires configs != []
    ensures |r| <= MAX_EMODE_ENTRIES
  {
    CommonFits(configs, NumTags());
    Common(Occurrences(configs), |configs|, NumTags())
  }

  // ---- The two implementations ----

  /** The ordered map of the source: the merged entry and the number of times each tag was seen. */
  type EntryMap = map<u16, (EmodeEntry, nat)>

  ghost predicate Counts(m: EntryMap, entries: seq<EmodeEntry>) {
    forall tag: u16 ::
      && (tag in m <==> CountTag(entries, tag) > 0)
      && (tag in m ==> Merged(entries, tag) == Some(m[tag].0) && m[tag].1 == CountTag(entries, tag))
  }

  lemma CountsNext(m: EntryMap, entries: seq<EmodeEntry>, e: EmodeEntry, next: EntryMap)
    requires Counts(m, entries)
    requires next == if e.tag in m then m[e.tag := (m[e.tag].0.Merge(e), m[e.tag].1 + 1)] else m[e.tag := (e, 1)]
    ensures Counts(next, entries + [e])
  {
    var longer := entries + [e];
    assert longer[..|longer| - 1] == entries;
  }

  /** The map's entry().and_modify().or_insert(): merges and counts one entry. */
  method MergeEntry(m: EntryMap, entry: EmodeEntry, ghost seen: seq<EmodeEntry>) returns (r: EntryMap)
    requires Counts(m, seen)
    ensures Counts(r, seen + [entry])
  {
    var tag := entry.tag;
    if tag in m {
      var (merged, cnt) := m[tag];
      merged := merged.(flags := Min(merged.flags, entry.flags));
      if entry.assetWeightInit < merged.assetWeightInit {
        merged := merged.(assetWeightInit := entry.assetWeightInit);
      }
      if entry.assetWeightMaint < merged.assetWeightMaint {
        merged := merged.(assetWeightMaint := entry.assetWeightMaint);
      }
      assert merged == m[tag].0.Merge(entry);
      r := m[tag := (merged, cnt + 1)];
    } else {
      r := m[tag := (entry, 1)];
    }
    CountsNext(m, seen, entry, r);
  }

  /** The source's merge_cfg: folds one configuration into the map. */
  method MergeConfig(m: EntryMap, cfg: EmodeConfig, ghost seen: seq<EmodeEntry>) returns (r: EntryMap)
    requires Counts(m, seen)
    ensures Counts(r, seen + NonEmpty(cfg))
  {
    r := m;
    assert seen + NonEmpty(cfg[..0]) == seen;
    for i := 0 to |cfg|
      invariant Counts(r, seen + NonEmpty(cfg[..i]))
    {
      var entry := cfg[i];
      assert cfg[..i + 1][..i] == cfg[..i];
      if entry.IsEmpty() {
        assert NonEmpty(cfg[..i + 1]) == NonEmpty(cfg[..i]);
      } else {
        r := MergeEntry(r, entry, seen + NonEmpty(cfg[..i]));
        assert seen + NonEmpty(cfg[..i]) + [entry] == seen + NonEmpty(cfg[..i + 1]);
      }
    }
    assert cfg[..|cfg|] == cfg;
  }

  /** The streaming reconciliation: one pass over the configurations, then the map in tag order into a buffer of ten. */
  method ReconcileEmodeConfigs(configs: seq<EmodeConfig>) returns (r: EmodeConfig)
    ensures r == Reconciled(configs)
  {
    if |configs| == 0 {
      return Zeros(MAX_EMODE_ENTRIES);
    }
    var numConfigs := 1;
    var mergedEntries: EntryMap := MergeConfig(map[], configs[0], []);
    assert configs[..1][..0] == [] && Occurrences(configs[..1]) == NonEmpty(configs[0]);
    for i := 1 to |configs|
      invariant numConfigs == i && Counts(mergedEntries, Occurrences(configs[..i]))
    {
      assert configs[..i + 1][..i] == configs[..i];
      numConfigs := numConfigs + 1;
      mergedEntries := MergeConfig(mergedEntries, configs[i], Occurrences(configs[..i]));
    }
    assert configs[..|configs|] == configs;

    r := CollectCommon(mergedEntries, numConfigs, configs);
  }

  /** Last part of the streaming reconciliation: the entries seen in every configuration, through a buffer of ten. */
  method CollectCommon(mergedEntries: EntryMap, numConfigs: nat, ghost configs: seq<EmodeConfig>) returns (r: EmodeConfig)
    requires configs != [] && numConfigs == |configs| && Counts(mergedEntries, Occurrences(configs))
    ensures r == Reconciled(configs)
  {
    ghost var seen := Occurrences(configs);
    var buf := new EmodeEntry[MAX_EMODE_ENTRIES](_ => EMPTY_ENTRY);
    var bufLen := 0;
    for tag := 0 to NumTags()
      invariant bufLen <= MAX_EMODE_ENTRIES && buf[..bufLen] == Common(seen, numConfigs, tag)
    {
      CommonFits(configs, tag + 1);
      if tag in mergedEntries {
        var (entry, cnt) := mergedEntries[tag];
        if cnt == numConfigs {
          buf[bufLen] := entry;
          bufLen := bufLen + 1;
        }
      }
    }
    CommonIsAscending(seen, numConfigs, NumTags());
    SortKeepsAscending(buf[..bufLen]);
    return FromEntries(buf[..bufLen]).value;
  }

  /** The reference reconciliation: a lone configuration is returned as it is. */
  function ClassicReconciled(configs: seq<EmodeConfig>): EmodeConfig {
    if |configs| == 1 then configs[0] else Reconciled(configs)
  }

  /** The classic implementation, which collects the kept entries into a growing vector. */
  method ReconcileEmodeConfigsClassic(configs: seq<EmodeConfig>) returns (r: EmodeConfig)
    ensures r == ClassicReconciled(configs)
  {
    if |configs| == 0 {
      return Zeros(MAX_EMODE_ENTRIES);
    }
    if |configs| == 1 {
      return configs[0];
    }
    var mergedEntries: EntryMap := map[];
    for i := 0 to |configs|
      invariant Counts(mergedEntries, Occurrences(configs[..i]))
    {
      assert configs[..i + 1][..i] == configs[..i];
      mergedEntries := MergeConfig(mergedEntries, configs[i], Occurrences(configs[..i]));
    }
    assert configs[..|configs|] == configs;

    ghost var seen := Occurrences(configs);
    var finalEntries: seq<EmodeEntry> := [];
    for tag := 0 to NumTags()
      invariant finalEntries == Common(seen, |configs|, tag)
    {
      if tag in mergedEntries && mergedEntries[tag].1 == |configs| {
        finalEntries := finalEntries + [mergedEntries[tag].0];
      }
    }
    CommonFits(configs, NumTags());
    CommonIsAscending(seen, |configs|, NumTags());
    SortKeepsAscending(finalEntries);
    return FromEntries(finalEntries).value;
  }
}
