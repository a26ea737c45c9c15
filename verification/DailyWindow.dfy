/**
 Counters that reset once a day has passed since the last reset. A log of the counted events,
 each stamped with its time and with the reset (the epoch) it was counted under, shows what
 such a counter bounds: its limit between two resets, twice its limit in any 24 hours.
 */
module DailyWindow {

  const DAILY_RESET_INTERVAL: int := 86_400

  datatype Entry = Entry(time: int, epoch: int, amount: nat)

  predicate InWindow(x: Entry, start: int) {
    start <= x.time < start + DAILY_RESET_INTERVAL
  }

  /** The total counted under one reset. */
  function EpochSum(log: seq<Entry>, epoch: int): nat {
    if log == [] then 0
    else EpochSum(log[..|log| - 1], epoch) + (if log[|log| - 1].epoch == epoch then log[|log| - 1].amount else 0)
  }

  /** The total counted in the half-open 24 hours from `start`. */
  function WindowSum(log: seq<Entry>, start: int): nat {
    if log == [] then 0
    else WindowSum(log[..|log| - 1], start) + (if InWindow(log[|log| - 1], start) then log[|log| - 1].amount else 0)
  }

  /** Times and epochs never go back, and a new epoch starts a day or more after the previous one, no earlier than its events. */
  ghost predicate Spaced(log: seq<Entry>) {
    && (forall i :: 0 <= i < |log| ==> log[i].epoch <= log[i].time)
    && (forall i, j :: 0 <= i < j < |log| ==> log[i].time <= log[j].time && log[i].epoch <= log[j].epoch)
    && (forall i, j :: 0 <= i < j < |log| && log[i].epoch < log[j].epoch ==>
          log[i].epoch + DAILY_RESET_INTERVAL <= log[j].epoch && log[i].time <= log[j].epoch)
  }

  lemma {:induction false} SumOverTwoEpochs(log: seq<Entry>, start: int, e: int, f: int)
    requires forall i :: 0 <= i < |log| && InWindow(log[i], start) ==> log[i].epoch == e || log[i].epoch == f
    ensures WindowSum(log, start) <= EpochSum(log, e) + EpochSum(log, f)
  {
    if log != [] {
      SumOverTwoEpochs(log[..|log| - 1], start, e, f);
    }
  }

  lemma {:induction false} EmptyWindow(log: seq<Entry>, start: int)
    requires forall i :: 0 <= i < |log| ==> !InWindow(log[i], start)
    ensures WindowSum(log, start) == 0
  {
    if log != [] {
      EmptyWindow(log[..|log| - 1], start);
    }
  }

  /** Any 24 hours meet at most two epochs. */
  lemma TwoEpochsPerWindow(log: seq<Entry>, start: int, i: nat, j: nat, k: nat)
    requires Spaced(log) && i < j < k < |log|
    requires InWindow(log[i], start) && InWindow(log[k], start)
    ensures log[j].epoch == log[i].epoch || log[j].epoch == log[k].epoch
  {
    assert log[k].epoch <= log[k].time;
  }

  lemma EndsHoldAllEpochs(log: seq<Entry>, start: int, i: nat, k: nat)
    requires Spaced(log) && i < |log| && k < |log| && InWindow(log[i], start) && InWindow(log[k], start)
    requires forall j :: 0 <= j < |log| && (j < i || j > k) ==> !InWindow(log[j], start)
    ensures forall j :: 0 <= j < |log| && InWindow(log[j], start) ==> log[j].epoch == log[i].epoch || log[j].epoch == log[k].epoch
  {
    forall j | 0 <= j < |log| && InWindow(log[j], start)
      ensures log[j].epoch == log[i].epoch || log[j].epoch == log[k].epoch
    {
      if i < j < k {
        TwoEpochsPerWindow(log, start, i, j, k);
      }
    }
  }

  /** A limit on every epoch is at most doubled in any 24 hours. */
  lemma WindowWithinTwoLimits(log: seq<Entry>, start: int, limit: nat)
    requires Spaced(log)
    requires forall e :: EpochSum(log, e) <= limit
    ensures WindowSum(log, start) <= 2 * limit
  {
    if forall i :: 0 <= i < |log| ==> !InWindow(log[i], start) {
      EmptyWindow(log, start);
    } else {
      var i := FirstInWindow(log, start);
      var k := LastInWindow(log, start);
      EndsHoldAllEpochs(log, start, i, k);
      SumOverTwoEpochs(log, start, log[i].epoch, log[k].epoch);
    }
  }

  lemma {:induction false} SumOverOneEpoch(log: seq<Entry>, start: int, e: int)
    requires forall i :: 0 <= i < |log| && InWindow(log[i], start) ==> log[i].epoch == e
    ensures WindowSum(log, start) <= EpochSum(log, e)
  {
    if log != [] {
      SumOverOneEpoch(log[..|log| - 1], start, e);
    }
  }

  /** An event of either epoch outside the window does not count. */
  lemma {:induction false} SumOverTwoEpochsButOne(log: seq<Entry>, start: int, e: int, f: int, j: nat)
    requires e != f && j < |log| && log[j].epoch == e && !InWindow(log[j], start)
    requires forall i :: 0 <= i < |log| && InWindow(log[i], start) ==> log[i].epoch == e || log[i].epoch == f
    ensures WindowSum(log, start) + log[j].amount <= EpochSum(log, e) + EpochSum(log, f)
  {
    var init := log[..|log| - 1];
    if j == |log| - 1 {
      SumOverTwoEpochs(init, start, e, f);
    } else {
      assert init[j] == log[j];
      SumOverTwoEpochsButOne(init, start, e, f, j);
    }
  }

  predicate Opens(log: seq<Entry>, j: nat, epoch: int) {
    j < |log| && log[j].epoch == epoch == log[j].time && log[j].amount >= 1
  }

  ghost predicate HasOpening(log: seq<Entry>, epoch: int) {
    exists j: nat :: Opens(log, j, epoch)
  }

  /** Every epoch in the log has an event at the very time of its reset. */
  ghost predicate Opened(log: seq<Entry>) {
    forall i :: 0 <= i < |log| ==> HasOpening(log, log[i].epoch)
  }

  lemma OpeningStays(log: seq<Entry>, x: Entry, epoch: int)
    requires HasOpening(log, epoch)
    ensures HasOpening(log + [x], epoch)
  {
    var j: nat :| Opens(log, j, epoch);
    assert Opens(log + [x], j, epoch);
  }

  lemma OpenedAdd(log: seq<Entry>, x: Entry)
    requires Opened(log) && x.amount >= 1 && (x.epoch == x.time || HasOpening(log, x.epoch))
    ensures Opened(log + [x])
  {
    var longer := log + [x];
    if x.epoch == x.time {
      assert Opens(longer, |log|, x.epoch);
    } else {
      OpeningStays(log, x, x.epoch);
    }
    forall i | 0 <= i < |longer|
      ensures HasOpening(longer, longer[i].epoch)
    {
      if i < |log| {
        OpeningStays(log, x, log[i].epoch);
      }
    }
  }

  /** Where epochs open with an event, no 24 hours hold all of two of them. */
  lemma WindowMissesAnOpening(log: seq<Entry>, start: int, limit: nat)
    requires Spaced(log) && Opened(log) && limit > 0
    requires forall e :: EpochSum(log, e) <= limit
    ensures WindowSum(log, start) <= 2 * limit - 1
  {
    if forall i :: 0 <= i < |log| ==> !InWindow(log[i], start) {
      EmptyWindow(log, start);
    } else {
      var i := FirstInWindow(log, start);
      var k := LastInWindow(log, start);
      EndsHoldAllEpochs(log, start, i, k);
      if log[i].epoch == log[k].epoch {
        SumOverOneEpoch(log, start, log[i].epoch);
      } else {
        OpeningIsEarlier(log, start, i, k);
        MissedOpening(log, start, log[i].epoch, log[k].epoch);
      }
    }
  }

  lemma MissedOpening(log: seq<Entry>, start: int, e: int, f: int)
    requires HasOpening(log, e) && e < start && e != f
    requires forall i :: 0 <= i < |log| && InWindow(log[i], start) ==> log[i].epoch == e || log[i].epoch == f
    ensures WindowSum(log, start) < EpochSum(log, e) + EpochSum(log, f)
  {
    var j: nat :| Opens(log, j, e);
    SumOverTwoEpochsButOne(log, start, e, f, j);
  }

  lemma OpeningIsEarlier(log: seq<Entry>, start: int, i: nat, k: nat)
    requires Spaced(log) && i < k < |log| && log[i].epoch != log[k].epoch && InWindow(log[k], start)
    ensures log[i].epoch < start
  {
    assert log[k].epoch <= log[k].time;
  }

  lemma FirstInWindow(log: seq<Entry>, start: int) returns (i: nat)
    requires exists j :: 0 <= j < |log| && InWindow(log[j], start)
    ensures i < |log| && InWindow(log[i], start) && forall j :: 0 <= j < i ==> !InWindow(log[j], start)
  {
    i := 0;
    while !InWindow(log[i], start)
      invariant i < |log| && forall j :: 0 <= j < i ==> !InWindow(log[j], start)
      decreases |log| - i
    {
      i := i + 1;
    }
  }

  lemma LastInWindow(log: seq<Entry>, start: int) returns (k: nat)
    requires exists j :: 0 <= j < |log| && InWindow(log[j], start)
    ensures k < |log| && InWindow(log[k], start) && forall j :: k < j < |log| ==> !InWindow(log[j], start)
  {
    k := |log| - 1;
    while !InWindow(log[k], start)
      invariant k < |log| && forall j :: k < j < |log| ==> !InWindow(log[j], start)
      decreases k
    {
      k := k - 1;
    }
  }

  /** The time of the reset under which the last event was counted; zero before any. */
  function LastReset(log: seq<Entry>): int {
    if log == [] then 0 else log[|log| - 1].epoch
  }

  /** What an event at `now` finds counted: none once a day has passed since the reset. */
  function CountedBy(log: seq<Entry>, now: int): nat {
    if now - LastReset(log) >= DAILY_RESET_INTERVAL then 0 else EpochSum(log, LastReset(log))
  }

  // ---- Following a counter ----

  /** The log of a counter that stands at `used` since the reset at `lastReset`, by time `now`. */
  ghost predicate Tracks(log: seq<Entry>, used: int, lastReset: int, now: int, limit: nat) {
    && Spaced(log)
    && (forall e :: EpochSum(log, e) <= limit)
    && EpochSum(log, lastReset) <= used
    && lastReset <= now
    && Precedes(log, now, lastReset)
  }

  /** Nothing in the log is later than `now`, and whatever was counted under an earlier reset ended by `epoch`. */
  ghost predicate Precedes(log: seq<Entry>, now: int, epoch: int) {
    && (forall i :: 0 <= i < |log| ==> log[i].time <= now && log[i].epoch <= epoch)
    && (forall i :: 0 <= i < |log| && log[i].epoch < epoch ==>
          log[i].epoch + DAILY_RESET_INTERVAL <= epoch && log[i].time <= epoch)
  }

  lemma {:induction false} NothingInEpoch(log: seq<Entry>, epoch: int)
    requires forall i :: 0 <= i < |log| ==> log[i].epoch != epoch
    ensures EpochSum(log, epoch) == 0
  {
    if log != [] {
      NothingInEpoch(log[..|log| - 1], epoch);
    }
  }

  lemma TracksReset(log: seq<Entry>, used: int, lastReset: int, before: int, now: int, limit: nat)
    requires Tracks(log, used, lastReset, before, limit)
    requires before <= now && now - lastReset >= DAILY_RESET_INTERVAL
    ensures Tracks(log, 0, now, now, limit)
  {
    NothingInEpoch(log, now);
  }

  lemma SpacedAdd(log: seq<Entry>, x: Entry)
    requires Spaced(log) && Precedes(log, x.time, x.epoch) && x.epoch <= x.time
    ensures Spaced(log + [x])
  {
    var longer := log + [x];
    forall i, j | 0 <= i < j < |longer|
      ensures longer[i].time <= longer[j].time && longer[i].epoch <= longer[j].epoch
      ensures longer[i].epoch < longer[j].epoch ==>
                longer[i].epoch + DAILY_RESET_INTERVAL <= longer[j].epoch && longer[i].time <= longer[j].epoch
    {
      assert longer[i] == log[i];
      if j < |log| {
        assert longer[j] == log[j];
      } else {
        assert longer[j] == x;
      }
    }
  }

  lemma PrecedesAdd(log: seq<Entry>, x: Entry)
    requires Precedes(log, x.time, x.epoch)
    ensures Precedes(log + [x], x.time, x.epoch)
  {
  }

  lemma EpochSumAdd(log: seq<Entry>, x: Entry, epoch: int)
    ensures EpochSum(log + [x], epoch) == EpochSum(log, epoch) + (if x.epoch == epoch then x.amount else 0)
  {
    assert (log + [x])[..|log|] == log;
  }

  lemma WindowSumAdd(log: seq<Entry>, x: Entry, start: int)
    ensures WindowSum(log + [x], start) == WindowSum(log, start) + (if InWindow(x, start) then x.amount else 0)
  {
    assert (log + [x])[..|log|] == log;
  }

  lemma TracksAdd(log: seq<Entry>, used: int, lastReset: int, now: int, amount: nat, limit: nat)
    requires Tracks(log, used, lastReset, now, limit) && used + amount <= limit
    ensures Tracks(log + [Entry(now, lastReset, amount)], used + amount, lastReset, now, limit)
  {
    var x := Entry(now, lastReset, amount);
    SpacedAdd(log, x);
    PrecedesAdd(log, x);
    EpochSumAdd(log, x, lastReset);
    EpochsStayWithin(log, x, used, limit);
  }

  lemma EpochsStayWithin(log: seq<Entry>, x: Entry, used: int, limit: nat)
    requires forall e :: EpochSum(log, e) <= limit
    requires EpochSum(log, x.epoch) <= used && used + x.amount <= limit
    ensures forall e :: EpochSum(log + [x], e) <= limit
  {
    forall e
      ensures EpochSum(log + [x], e) <= limit
    {
      EpochSumAdd(log, x, e);
    }
  }

  lemma TracksLater(log: seq<Entry>, used: int, lastReset: int, before: int, now: int, limit: nat)
    requires Tracks(log, used, lastReset, before, limit) && before <= now
    ensures Tracks(log, used, lastReset, now, limit)
  {
  }
}
