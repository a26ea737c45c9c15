/**
 The emergency pause: pausing, extending, unpausing and expiring, under a limit on
 consecutive and on daily pauses. PanicState is its value, class PanicSwitch updates the
 same fields in place. Over every run the pauses and the downtime are bounded.
 */
module PanicPause {
  import opened Wrappers
  import opened FixedPoint
  import opened DailyWindow

  const PAUSE_DURATION_SECONDS: int := 30 * 60
  const MAX_CONSECUTIVE_PAUSES: int := 2
  const MAX_DAILY_PAUSES: int := 3
  const U8_MAX: int := 255

  function SaturateI64(n: int): int {
    Max(-I64_MAX - 1, Min(n, I64_MAX))
  }

  datatype PanicState = PanicState(
    paused: bool,
    dailyPauseCount: nat,
    consecutivePauseCount: nat,
    pauseStartTimestamp: int,
    lastDailyResetTimestamp: int)
  {
    predicate IsExpired(now: int) {
      if !paused then true
      else if now < pauseStartTimestamp then false
      else now - pauseStartTimestamp >= PAUSE_DURATION_SECONDS
    }

    predicate InForce(now: int) {
      paused && !IsExpired(now)
    }

    predicate CanPause(now: int) {
      var dailyCount := if now - lastDailyResetTimestamp >= DAILY_RESET_INTERVAL then 0 else dailyPauseCount;
      consecutivePauseCount < MAX_CONSECUTIVE_PAUSES && dailyCount < MAX_DAILY_PAUSES
    }

    function Unpause(): PanicState {
      this.(paused := false, pauseStartTimestamp := 0, consecutivePauseCount := 0)
    }

    function UnpauseIfExpired(now: int): PanicState {
      if paused && IsExpired(now) then Unpause() else this
    }

    function ResetDaily(now: int): PanicState {
      if SaturateI64(now - lastDailyResetTimestamp) >= DAILY_RESET_INTERVAL
      then this.(dailyPauseCount := 0, lastDailyResetTimestamp := now) else this
    }

    /** The state a pause is judged on: expired pauses cleared, a new day begun if due. */
    function Prepared(now: int): PanicState {
      UnpauseIfExpired(now).ResetDaily(now)
    }

    function Pause(now: int): Result<PanicState> {
      var s := Prepared(now);
      if !s.CanPause(now) then Err(PauseLimitExceeded)
      else
        Ok(s.(paused := true,
              pauseStartTimestamp := if s.InForce(now) then SaturateI64(s.pauseStartTimestamp + PAUSE_DURATION_SECONDS) else now,
              dailyPauseCount := Min(s.dailyPauseCount + 1, U8_MAX),
              consecutivePauseCount := Min(s.consecutivePauseCount + 1, U8_MAX)))
    }
  }

  const DEFAULT_PANIC_STATE := PanicState(false, 0, 0, 0, 0)

  class PanicSwitch {
    var paused: bool
    var dailyPauseCount: nat
    var consecutivePauseCount: nat
    var pauseStartTimestamp: int
    var lastDailyResetTimestamp: int

    constructor ()
      ensures State() == DEFAULT_PANIC_STATE
    {
      paused, dailyPauseCount, consecutivePauseCount := false, 0, 0;
      pauseStartTimestamp, lastDailyResetTimestamp := 0, 0;
    }

    function State(): PanicState
      reads this
    {
      PanicState(paused, dailyPauseCount, consecutivePauseCount, pauseStartTimestamp, lastDailyResetTimestamp)
    }

    /** A rejected pause leaves the cleared and reset state behind; its transaction is reverted. */
    method Pause(currentTimestamp: int) returns (r: Result<()>)
      modifies this
      ensures var spec := old(State()).Pause(currentTimestamp);
        match spec
        case Ok(after) => r == Ok(()) && State() == after
        case Err(e) => r == Err(e) && State() == old(State()).Prepared(currentTimestamp)
    {
      UnpauseIfExpired(currentTimestamp);
      if SaturateI64(currentTimestamp - lastDailyResetTimestamp) >= DAILY_RESET_INTERVAL {
        dailyPauseCount := 0;
        lastDailyResetTimestamp := currentTimestamp;
      }
      if !State().CanPause(currentTimestamp) {
        return Err(PauseLimitExceeded);
      }
      if paused && !State().IsExpired(currentTimestamp) {
        pauseStartTimestamp := SaturateI64(pauseStartTimestamp + PAUSE_DURATION_SECONDS);
      } else {
        pauseStartTimestamp := currentTimestamp;
      }
      paused := true;
      dailyPauseCount := Min(dailyPauseCount + 1, U8_MAX);
      consecutivePauseCount := Min(consecutivePauseCount + 1, U8_MAX);
      return Ok(());
    }

    method Unpause()
      modifies this
      ensures State() == old(State()).Unpause()
    {
      paused := false;
      pauseStartTimestamp := 0;
      consecutivePauseCount := 0;
    }

    method UnpauseIfExpired(currentTimestamp: int)
      modifies this
      ensures State() == old(State()).UnpauseIfExpired(currentTimestamp)
    {
      if paused && State().IsExpired(currentTimestamp) {
        Unpause();
      }
    }
  }

  // ---- Runs ----

  datatype PanicOp = DoPause | DoUnpause | DoUnpauseIfExpired

  datatype Call = Call(time: int, op: PanicOp)

  function Step(s: PanicState, c: Call): PanicState {
    match c.op
    case DoPause => (match s.Pause(c.time) case Ok(after) => after case Err(_) => s)
    case DoUnpause => s.Unpause()
    case DoUnpauseIfExpired => s.UnpauseIfExpired(c.time)
  }

  /**
   The state with what happened so far: the successful pauses, the first pause of the current
   episode, and the latest stretch [downSince, downUntil) through which some copy of the state
   may report a pause without a break. Copies outlive an unpause, so it ends no stretch.
   */
  datatype History = History(state: PanicState, log: seq<Entry>, episodeStart: int, downSince: int, downUntil: int)

  function PauseEnd(s: PanicState): int {
    s.pauseStartTimestamp + PAUSE_DURATION_SECONDS
  }

  function Observe(h: History, c: Call): History {
    var after := Step(h.state, c);
    match c.op
    case DoPause =>
      if h.state.Pause(c.time).Err? then h
      else
        History(after,
                h.log + [Entry(c.time, after.lastDailyResetTimestamp, 1)],
                if h.state.InForce(c.time) then h.episodeStart else c.time,
                if c.time <= h.downUntil then h.downSince else c.time,
                Max(h.downUntil, PauseEnd(after)))
    case DoUnpause => h.(state := after)
    case DoUnpauseIfExpired => h.(state := after)
  }

  const NEW_HISTORY := History(DEFAULT_PANIC_STATE, [], -1, -1, -1)

  function Run(calls: seq<Call>): History {
    if calls == [] then NEW_HISTORY else Observe(Run(calls[..|calls| - 1]), calls[|calls| - 1])
  }

  /** Non-negative 64-bit times that never go back. */
  ghost predicate Ordered(calls: seq<Call>) {
    && (forall i :: 0 <= i < |calls| ==> 0 <= calls[i].time <= I64_MAX)
    && (forall i, j :: 0 <= i < j < |calls| ==> calls[i].time <= calls[j].time)
  }

  /** The counters stay within their limits, and an episode's end within its pauses. */
  ghost predicate CountersInv(h: History, now: int) {
    var s := h.state;
    && 0 <= s.consecutivePauseCount <= MAX_CONSECUTIVE_PAUSES
    && s.dailyPauseCount <= MAX_DAILY_PAUSES
    && 0 <= s.lastDailyResetTimestamp <= now
    && (!s.paused ==> s.consecutivePauseCount == 0 && s.pauseStartTimestamp == 0)
    && (s.paused ==> s.consecutivePauseCount >= 1
                     && 0 <= h.episodeStart <= now
                     && 0 <= s.pauseStartTimestamp <= h.episodeStart + (s.consecutivePauseCount - 1) * PAUSE_DURATION_SECONDS)
  }

  /** The downtime so far is at most one pause's duration for each pause made during it. */
  ghost predicate DowntimeInv(h: History, now: int) {
    && h.downSince <= now
    && (h.state.paused ==> PauseEnd(h.state) <= h.downUntil)
    && h.downUntil <= h.downSince + PAUSE_DURATION_SECONDS * WindowSum(h.log, h.downSince)
  }

  ghost predicate LogInv(h: History, now: int) {
    Tracks(h.log, h.state.dailyPauseCount, h.state.lastDailyResetTimestamp, now, MAX_DAILY_PAUSES)
  }

  /** What every run keeps. */
  ghost predicate Inv(h: History, now: int) {
    CountersInv(h, now) && LogInv(h, now) && DowntimeInv(h, now)
  }

  lemma SixPausesADay(log: seq<Entry>, used: int, lastReset: int, now: int, start: int)
    requires Tracks(log, used, lastReset, now, MAX_DAILY_PAUSES)
    ensures WindowSum(log, start) <= 6
  {
    WindowWithinTwoLimits(log, start, MAX_DAILY_PAUSES);
  }

  lemma ObserveKeepsInv(h: History, before: int, c: Call)
    requires Inv(h, before) && 0 <= before <= c.time <= I64_MAX
    ensures Inv(Observe(h, c), c.time)
  {
    var s := h.state;
    TracksLater(h.log, s.dailyPauseCount, s.lastDailyResetTimestamp, before, c.time, MAX_DAILY_PAUSES);
    if c.op.DoPause? && s.Pause(c.time).Ok? {
      PauseKeepsCounters(h, before, c);
      PauseKeepsLog(h, before, c);
      SixPausesADay(h.log, s.dailyPauseCount, s.lastDailyResetTimestamp, before, h.downSince);
      PauseKeepsDowntime(h, before, c);
    }
  }

  lemma PauseKeepsCounters(h: History, before: int, c: Call)
    requires CountersInv(h, before) && 0 <= before <= c.time <= I64_MAX
    requires c.op.DoPause? && h.state.Pause(c.time).Ok?
    ensures CountersInv(Observe(h, c), c.time)
  {
  }

  lemma PauseKeepsLog(h: History, before: int, c: Call)
    requires CountersInv(h, before) && LogInv(h, before) && 0 <= before <= c.time <= I64_MAX
    requires c.op.DoPause? && h.state.Pause(c.time).Ok?
    ensures LogInv(Observe(h, c), c.time)
  {
    var s, t := h.state, c.time;
    var p := s.Prepared(t);
    if t - s.lastDailyResetTimestamp >= DAILY_RESET_INTERVAL {
      TracksReset(h.log, s.dailyPauseCount, s.lastDailyResetTimestamp, before, t, MAX_DAILY_PAUSES);
    } else {
      TracksLater(h.log, s.dailyPauseCount, s.lastDailyResetTimestamp, before, t, MAX_DAILY_PAUSES);
    }
    TracksAdd(h.log, p.dailyPauseCount, p.lastDailyResetTimestamp, t, 1, MAX_DAILY_PAUSES);
  }

  lemma PauseKeepsDowntime(h: History, before: int, c: Call)
    requires DowntimeInv(h, before) && WindowSum(h.log, h.downSince) <= 6
    requires 0 <= before <= c.time <= I64_MAX
    requires c.op.DoPause? && h.state.Pause(c.time).Ok?
    ensures DowntimeInv(Observe(h, c), c.time)
  {
    var s := h.state.Pause(c.time).value;
    PauseExtendsAtMost(h.state, c.time, h.downUntil);
    ExtendedDowntime(h, before, c.time, Observe(h, c), s);
  }

  lemma ExtendedDowntime(h: History, before: int, t: int, after: History, s: PanicState)
    requires DowntimeInv(h, before) && WindowSum(h.log, h.downSince) <= 6 && 0 <= before <= t
    requires after.state == s && after.log == h.log + [Entry(t, s.lastDailyResetTimestamp, 1)]
    requires after.downSince == if t <= h.downUntil then h.downSince else t
    requires after.downUntil == Max(h.downUntil, PauseEnd(s))
    requires PauseEnd(s) <= Max(h.downUntil, t) + PAUSE_DURATION_SECONDS
    ensures DowntimeInv(after, t)
  {
    var x := Entry(t, s.lastDailyResetTimestamp, 1);
    WindowSumAdd(h.log, x, after.downSince);
    assert InWindow(x, after.downSince);
    DownFor(h, after.log, t);
  }

  /** Each pause in the log pays for its own duration of downtime. */
  lemma DownFor(h: History, longer: seq<Entry>, t: int)
    requires h.downUntil <= h.downSince + PAUSE_DURATION_SECONDS * WindowSum(h.log, h.downSince)
    requires t <= h.downUntil ==> WindowSum(longer, h.downSince) == WindowSum(h.log, h.downSince) + 1
    requires t > h.downUntil ==> WindowSum(longer, t) >= 1
    ensures var since := if t <= h.downUntil then h.downSince else t;
      Max(h.downUntil, t) + PAUSE_DURATION_SECONDS <= since + PAUSE_DURATION_SECONDS * WindowSum(longer, since)
  {
  }

  /** A pause ends at most one duration after the end of the downtime it continues, or after its own time. */
  lemma PauseExtendsAtMost(s: PanicState, t: int, downUntil: int)
    requires 0 <= t <= I64_MAX && s.Pause(t).Ok? && (s.paused ==> PauseEnd(s) <= downUntil)
    ensures PauseEnd(s.Pause(t).value) <= Max(downUntil, t) + PAUSE_DURATION_SECONDS
    ensures s.InForce(t) ==> t <= downUntil
  {
  }

  lemma {:induction false} RunKeepsInv(calls: seq<Call>)
    requires Ordered(calls)
    ensures Inv(Run(calls), if calls == [] then 0 else calls[|calls| - 1].time)
  {
    if calls != [] {
      RunKeepsInv(calls[..|calls| - 1]);
      var before := if |calls| == 1 then 0 else calls[|calls| - 2].time;
      ObserveKeepsInv(Run(calls[..|calls| - 1]), before, calls[|calls| - 1]);
    }
  }

  function LastTime(calls: seq<Call>): int {
    if calls == [] then 0 else calls[|calls| - 1].time
  }

  /** The limits hold in every reachable state, and an unpaused state keeps no trace of a pause. */
  lemma LimitsHold(calls: seq<Call>)
    requires Ordered(calls)
    ensures var s := Run(calls).state;
      && s.consecutivePauseCount <= 2 && s.dailyPauseCount <= 3
      && (!s.paused ==> s.consecutivePauseCount == 0 && s.pauseStartTimestamp == 0)
  {
    RunKeepsInv(calls);
  }

  /** One episode lasts at most an hour from its first pause. */
  lemma EpisodeWithinAnHour(calls: seq<Call>, now: int)
    requires Ordered(calls) && LastTime(calls) <= now
    requires Run(calls).state.InForce(now)
    ensures Run(calls).episodeStart <= now < Run(calls).episodeStart + 3600
  {
    RunKeepsInv(calls);
  }

  /** Any half-open 24 hours hold at most six successful pauses. */
  lemma SixPausesInAnyDay(calls: seq<Call>, start: int)
    requires Ordered(calls)
    ensures WindowSum(Run(calls).log, start) <= 6
  {
    RunKeepsInv(calls);
    var h := Run(calls);
    SixPausesADay(h.log, h.state.dailyPauseCount, h.state.lastDailyResetTimestamp, LastTime(calls), start);
  }

  lemma RunKeepsDowntime(calls: seq<Call>)
    requires Ordered(calls)
    ensures DowntimeInv(Run(calls), LastTime(calls))
  {
    RunKeepsInv(calls);
  }

  /** No call on the first day of 1970, the only time at which the initial reset timestamp still counts. */
  ghost predicate PastFirstDay(calls: seq<Call>) {
    forall i :: 0 <= i < |calls| ==> calls[i].time >= DAILY_RESET_INTERVAL
  }

  /** From then on every daily reset is the time of a successful pause. */
  lemma {:induction false} ResetsArePauses(calls: seq<Call>)
    requires Ordered(calls) && PastFirstDay(calls)
    ensures var h := Run(calls);
      && Opened(h.log)
      && (if h.log == [] then h.state.lastDailyResetTimestamp == 0
          else h.log[|h.log| - 1].epoch == h.state.lastDailyResetTimestamp)
  {
    if calls != [] {
      var init, c := calls[..|calls| - 1], calls[|calls| - 1];
      ResetsArePauses(init);
      var h := Run(init);
      if c.op.DoPause? && h.state.Pause(c.time).Ok? {
        OpenedAdd(h.log, Entry(c.time, h.state.Pause(c.time).value.lastDailyResetTimestamp, 1));
      }
    }
  }

  /** So any half-open 24 hours hold at most five: the one that opened an earlier day's count lies before them. */
  lemma FivePausesInAnyDay(calls: seq<Call>, start: int)
    requires Ordered(calls) && PastFirstDay(calls)
    ensures WindowSum(Run(calls).log, start) <= 5
  {
    RunKeepsInv(calls);
    ResetsArePauses(calls);
    WindowMissesAnOpening(Run(calls).log, start, MAX_DAILY_PAUSES);
  }

  // ---- Acceptance, read from the log ----

  lemma {:induction false} CountersAreTheLog(calls: seq<Call>)
    requires Ordered(calls)
    ensures var h := Run(calls);
      h.state.dailyPauseCount == EpochSum(h.log, LastReset(h.log)) && h.state.lastDailyResetTimestamp == LastReset(h.log)
  {
    if calls != [] {
      var init, c := calls[..|calls| - 1], calls[|calls| - 1];
      assert Ordered(init);
      CountersAreTheLog(init);
      RunKeepsInv(init);
      if c.op.DoPause? && Run(init).state.Pause(c.time).Ok? {
        PauseIsCounted(Run(init), c.time);
      }
    }
  }

  lemma PauseIsCounted(h: History, t: int)
    requires 0 <= t <= I64_MAX && h.state.Pause(t).Ok? && 0 <= LastReset(h.log)
    requires h.state.dailyPauseCount == EpochSum(h.log, LastReset(h.log)) && h.state.lastDailyResetTimestamp == LastReset(h.log)
    requires forall i :: 0 <= i < |h.log| ==> h.log[i].epoch <= LastReset(h.log)
    ensures var after := Observe(h, Call(t, DoPause));
      after.state.dailyPauseCount == EpochSum(after.log, LastReset(after.log)) && after.state.lastDailyResetTimestamp == LastReset(after.log)
  {
    var reset := h.state.Pause(t).value.lastDailyResetTimestamp;
    EpochSumAdd(h.log, Entry(t, reset, 1), reset);
    if t - LastReset(h.log) >= DAILY_RESET_INTERVAL {
      NothingInEpoch(h.log, t);
    }
  }

  /**
   After any run a pause is accepted exactly when fewer than three were accepted since the last
   reset, or a day has passed since, and the pause in force, if there is one, was not yet extended.
   */
  lemma PauseAcceptedExactly(calls: seq<Call>, t: int)
    requires Ordered(calls) && LastTime(calls) <= t && 0 <= t <= I64_MAX
    ensures var h := Run(calls);
      h.state.Pause(t).Ok? <==>
        CountedBy(h.log, t) < 3 && (h.state.InForce(t) ==> h.state.consecutivePauseCount < 2)
  {
    CountersAreTheLog(calls);
    RunKeepsInv(calls);
  }

  // ---- Downtime ----

  /** The calls made by a given time. */
  function Until(calls: seq<Call>, t: int): seq<Call> {
    if calls == [] || calls[|calls| - 1].time <= t then calls else Until(calls[..|calls| - 1], t)
  }

  /** Whether the protocol is paused at a time, under the calls made by then. */
  predicate DownAt(calls: seq<Call>, t: int) {
    Run(Until(calls, t)).state.InForce(t)
  }

  /** The first k calls were made by t, and a copy of the state they led to reports a pause at t. */
  ghost predicate CopyDown(calls: seq<Call>, k: nat, t: int) {
    k <= |calls| && LastTime(calls[..k]) <= t && Run(calls[..k]).state.InForce(t)
  }

  /** Whether any copy of the state taken so far, however long ago, reports a pause. */
  ghost predicate SomeCopyDown(calls: seq<Call>, t: int) {
    exists k: nat :: CopyDown(calls, k, t)
  }

  lemma {:induction false} UntilIsPrefix(calls: seq<Call>, t: int)
    ensures Until(calls, t) <= calls
    ensures LastTime(Until(calls, t)) <= Max(t, 0)
  {
    if calls != [] && calls[|calls| - 1].time > t {
      UntilIsPrefix(calls[..|calls| - 1], t);
    }
  }

  /** Nothing made by t lies beyond the calls until t. */
  lemma {:induction false} PrefixWithinUntil(calls: seq<Call>, k: nat, t: int)
    requires k <= |calls| && LastTime(calls[..k]) <= t
    ensures k <= |Until(calls, t)|
  {
    if calls != [] && calls[|calls| - 1].time > t {
      var init := calls[..|calls| - 1];
      assert k < |calls| by {
        assert calls[..|calls|] == calls;
      }
      assert init[..k] == calls[..k];
      PrefixWithinUntil(init, k, t);
    }
  }

  /** A call never shortens a stretch: it continues it or, when it is over, starts a new one. */
  lemma StretchAfter(h: History, before: int, c: Call)
    requires DowntimeInv(h, before) && before <= c.time
    ensures h.downSince <= c.time && h.downUntil <= Observe(h, c).downUntil
    ensures Observe(h, c).downSince == h.downSince || (Observe(h, c).downSince == c.time && h.downUntil < c.time)
  {
  }

  lemma OrderedPrefix(calls: seq<Call>, k: nat)
    requires Ordered(calls) && k <= |calls|
    ensures Ordered(calls[..k])
  {
  }

  /** The end of the stretch never moves back. */
  lemma {:induction false} StretchOnlyGrows(calls: seq<Call>, k: nat)
    requires Ordered(calls) && k <= |calls|
    ensures Run(calls[..k]).downUntil <= Run(calls).downUntil
  {
    if k < |calls| {
      var init := calls[..|calls| - 1];
      OrderedPrefix(calls, |calls| - 1);
      RunKeepsDowntime(init);
      StretchAfter(Run(init), LastTime(init), calls[|calls| - 1]);
      assert init[..k] == calls[..k];
      StretchOnlyGrows(init, k);
    } else {
      assert calls[..k] == calls;
    }
  }

  /** From the end of the stretch on, no copy reports a pause. */
  lemma NoCopyDownAfter(calls: seq<Call>, k: nat, t: int)
    requires Ordered(calls) && k <= |calls| && Run(calls).downUntil <= t
    ensures !Run(calls[..k]).state.InForce(t)
  {
    OrderedPrefix(calls, k);
    RunKeepsDowntime(calls[..k]);
    StretchOnlyGrows(calls, k);
  }

  /** After the end of a stretch neither the protocol nor any copy is paused until the next call. */
  lemma NotDownAfterDowntime(calls: seq<Call>, now: int)
    requires Ordered(calls) && LastTime(calls) <= now && Run(calls).downUntil <= now
    ensures !Run(calls).state.InForce(now) && !SomeCopyDown(calls, now)
  {
    assert calls[..|calls|] == calls;
    NoCopyDownAfter(calls, |calls|, now);
    forall k: nat | k <= |calls|
      ensures !CopyDown(calls, k, now)
    {
      NoCopyDownAfter(calls, k, now);
    }
  }

  lemma {:induction false} StretchHasStarted(calls: seq<Call>)
    requires Ordered(calls)
    ensures Run(calls).downSince >= 0 || Run(calls).downUntil < 0
  {
    if calls != [] {
      OrderedPrefix(calls, |calls| - 1);
      StretchHasStarted(calls[..|calls| - 1]);
    }
  }

  lemma StretchAfterCall(calls: seq<Call>)
    requires Ordered(calls) && calls != []
    ensures var init, c := calls[..|calls| - 1], calls[|calls| - 1];
      && Ordered(init) && Run(calls).downSince <= c.time
      && (Run(calls).downSince == Run(init).downSince || (Run(calls).downSince == c.time && Run(init).downUntil < c.time))
  {
    var init := calls[..|calls| - 1];
    OrderedPrefix(calls, |calls| - 1);
    RunKeepsDowntime(init);
    StretchAfter(Run(init), LastTime(init), calls[|calls| - 1]);
  }

  /** At the moment before a stretch no copy reports a pause. */
  lemma {:induction false} StretchStartsFresh(calls: seq<Call>, k: nat)
    requires Ordered(calls) && Run(calls).downSince >= 0
    ensures !CopyDown(calls, k, Run(calls).downSince - 1)
  {
    if calls != [] && k <= |calls| {
      var init, c := calls[..|calls| - 1], calls[|calls| - 1];
      StretchAfterCall(calls);
      if k == |calls| {
        assert calls[..k] == calls;
      } else {
        assert init[..k] == calls[..k];
        if Run(calls).downSince == Run(init).downSince {
          StretchStartsFresh(init, k);
        } else {
          NoCopyDownAfter(init, k, c.time - 1);
        }
      }
    }
  }

  /** A copy that reports a pause does so within the stretch of the calls made. */
  lemma CopyWithinStretch(calls: seq<Call>, k: nat, t: int)
    requires Ordered(calls) && LastTime(calls) <= t && k <= |calls| && Run(calls[..k]).state.InForce(t)
    ensures 0 <= t ==> 0 <= Run(calls).downSince <= t
    ensures t < Run(calls).downUntil
  {
    RunKeepsDowntime(calls);
    StretchHasStarted(calls);
    if Run(calls).downUntil <= t {
      NoCopyDownAfter(calls, k, t);
    }
  }

  lemma CopyAmongMade(calls: seq<Call>, k: nat, t: int)
    requires Ordered(calls) && t >= 0 && CopyDown(calls, k, t)
    ensures var made := Until(calls, t);
      Ordered(made) && LastTime(made) <= t && k <= |made| && Run(made[..k]).state.InForce(t)
  {
    var made := Until(calls, t);
    UntilIsPrefix(calls, t);
    PrefixWithinUntil(calls, k, t);
    OrderedPrefix(calls, |made|);
    assert calls[..|made|] == made && made[..k] == calls[..k];
  }

  /** All of [a, b) lies in one stretch. */
  lemma StretchCovers(calls: seq<Call>, a: int, b: int)
    requires Ordered(calls) && 0 <= a < b
    requires forall t :: a <= t < b ==> SomeCopyDown(calls, t)
    ensures Run(Until(calls, b - 1)).downSince <= a && b <= Run(Until(calls, b - 1)).downUntil
  {
    var made := Until(calls, b - 1);
    assert SomeCopyDown(calls, b - 1);
    var k: nat :| CopyDown(calls, k, b - 1);
    CopyAmongMade(calls, k, b - 1);
    CopyWithinStretch(made, k, b - 1);
    var before := Run(made).downSince - 1;
    if a <= before {
      assert SomeCopyDown(calls, before);
      StretchReachesBack(calls, b - 1);
    }
  }

  lemma StretchReachesBack(calls: seq<Call>, t: int)
    requires Ordered(calls) && 0 <= Run(Until(calls, t)).downSince <= t
    ensures !SomeCopyDown(calls, Run(Until(calls, t)).downSince - 1)
  {
    var before := Run(Until(calls, t)).downSince - 1;
    forall k: nat
      ensures !CopyDown(calls, k, before)
    {
      if CopyDown(calls, k, before) {
        MadeBefore(calls, k, t, before);
      }
    }
  }

  lemma MadeBefore(calls: seq<Call>, k: nat, t: int, before: int)
    requires Ordered(calls) && k <= |calls| && LastTime(calls[..k]) <= before <= t
    requires before == Run(Until(calls, t)).downSince - 1 && before >= -1
    ensures !CopyDown(calls, k, before)
  {
    var made := Until(calls, t);
    UntilIsPrefix(calls, t);
    PrefixWithinUntil(calls, k, t);
    OrderedPrefix(calls, |made|);
    assert calls[..|made|] == made && made[..k] == calls[..k];
    StretchStartsFresh(made, k);
  }

  /** A stretch lasts at most one duration for each pause made in its first 24 hours. */
  lemma StretchIsPaidFor(calls: seq<Call>)
    requires Ordered(calls)
    ensures Run(calls).downUntil - Run(calls).downSince <= 10_800
    ensures PastFirstDay(calls) ==> Run(calls).downUntil - Run(calls).downSince <= 9_000
  {
    StretchWithinPauses(calls);
    PausesInStretch(calls);
    AtMostForEach(Run(calls), 6);
    if PastFirstDay(calls) {
      AtMostForEach(Run(calls), 5);
    }
  }

  lemma AtMostForEach(h: History, n: nat)
    requires h.downUntil - h.downSince <= PAUSE_DURATION_SECONDS * WindowSum(h.log, h.downSince) && WindowSum(h.log, h.downSince) <= n
    ensures h.downUntil - h.downSince <= PAUSE_DURATION_SECONDS * n
  {
  }

  lemma PausesInStretch(calls: seq<Call>)
    requires Ordered(calls)
    ensures WindowSum(Run(calls).log, Run(calls).downSince) <= 6
    ensures PastFirstDay(calls) ==> WindowSum(Run(calls).log, Run(calls).downSince) <= 5
  {
    SixPausesInAnyDay(calls, Run(calls).downSince);
    if PastFirstDay(calls) {
      FivePausesInAnyDay(calls, Run(calls).downSince);
    }
  }

  lemma StretchWithinPauses(calls: seq<Call>)
    requires Ordered(calls)
    ensures Run(calls).downUntil - Run(calls).downSince <= PAUSE_DURATION_SECONDS * WindowSum(Run(calls).log, Run(calls).downSince)
  {
    RunKeepsDowntime(calls);
  }

  /**
   However pauses, extensions and unpauses are combined, and however copies are taken and kept:
   if some copy reports a pause at every moment of [a, b), these are at most three hours, and
   past the first day two and a half.
   */
  lemma NeverReportedForLonger(calls: seq<Call>, a: int, b: int)
    requires Ordered(calls) && 0 <= a < b
    requires forall t :: a <= t < b ==> SomeCopyDown(calls, t)
    ensures b - a <= 10_800
    ensures PastFirstDay(calls) ==> b - a <= 9_000
  {
    var made := Until(calls, b - 1);
    UntilIsPrefix(calls, b - 1);
    OrderedPrefix(calls, |made|);
    StretchCovers(calls, a, b);
    StretchIsPaidFor(made);
  }

  lemma DownIsSomeCopyDown(calls: seq<Call>, t: int)
    requires t >= 0 && DownAt(calls, t)
    ensures SomeCopyDown(calls, t)
  {
    var made := Until(calls, t);
    UntilIsPrefix(calls, t);
    assert calls[..|made|] == made;
    assert CopyDown(calls, |made|, t);
  }

  /** The same for the protocol itself, paused at every moment of [a, b) under the calls made by then. */
  lemma NeverDownForLonger(calls: seq<Call>, a: int, b: int)
    requires Ordered(calls) && 0 <= a < b
    requires forall t :: a <= t < b ==> DownAt(calls, t)
    ensures b - a <= 10_800
    ensures PastFirstDay(calls) ==> b - a <= 9_000
  {
    forall t | a <= t < b
      ensures SomeCopyDown(calls, t)
    {
      assert DownAt(calls, t);
      DownIsSomeCopyDown(calls, t);
    }
    NeverReportedForLonger(calls, a, b);
  }

  /** Six pauses around a daily reset: three before it and three after, each as the last one runs out or to extend it. */
  function WorstCaseTime(k: nat): int {
    if k <= 1 then 81_000 else if k == 2 then 84_600 else if k <= 4 then 86_400 else 90_000
  }

  function WorstCase(n: nat): seq<Call> {
    if n == 0 then [] else WorstCase(n - 1) + [Call(WorstCaseTime(n - 1), DoPause)]
  }

  /** The state after the first n of them, each lengthening the downtime by 30 minutes. */
  function WorstCaseState(n: nat): PanicState {
    if n == 0 then DEFAULT_PANIC_STATE
    else
      PanicState(true, if n <= 3 then n else n - 3, if n == 2 || n == 5 then 2 else 1,
                 81_000 + (n - 1) * PAUSE_DURATION_SECONDS, if n <= 3 then 0 else 86_400)
  }

  lemma WorstCaseStep(n: nat)
    requires 0 < n <= 6
    ensures WorstCaseState(n - 1).Pause(WorstCaseTime(n - 1)) == Ok(WorstCaseState(n))
  {
    if n == 1 {
    } else if n == 2 {
    } else if n == 3 {
    } else if n == 4 {
    } else if n == 5 {
    } else {
    }
  }

  /** What n of the six pauses have led to. */
  predicate WorstCaseSoFar(h: History, n: nat) {
    && |h.log| == n && h.state == WorstCaseState(n)
    && (if n == 0 then h.downUntil == -1 else h.downSince == 81_000 && h.downUntil == 81_000 + n * PAUSE_DURATION_SECONDS)
  }

  lemma WorstCaseObserved(h: History, n: nat)
    requires 0 < n <= 6 && WorstCaseSoFar(h, n - 1)
    ensures WorstCaseSoFar(Observe(h, Call(WorstCaseTime(n - 1), DoPause)), n)
  {
    WorstCaseStep(n);
  }

  lemma {:induction false} WorstCaseRun(n: nat)
    requires n <= 6
    ensures WorstCaseSoFar(Run(WorstCase(n)), n)
  {
    if n > 0 {
      WorstCaseRun(n - 1);
      WorstCaseObserved(Run(WorstCase(n - 1)), n);
      var calls := WorstCase(n);
      assert calls[..|calls| - 1] == WorstCase(n - 1);
    }
  }

  /** The bounds are met: these six pauses keep the protocol down for three hours without a break. */
  lemma ThreeHoursAreReachable()
    ensures var h := Run(WorstCase(6));
      |h.log| == 6 && h.downSince == 81_000 && h.downUntil == 81_000 + 10_800 && h.state.InForce(81_000 + 10_800 - 1)
  {
    WorstCaseRun(6);
  }

  // ---- Five pauses around a daily reset, on any day ----

  /** One pause opens the day's count; two before the next reset and three from it on, each as the last one runs out or to extend it. */
  function BusyTime(day: int, k: nat): int {
    if k == 0 then day else if k <= 2 then day + 82_800 else if k <= 4 then day + 86_400 else day + 90_000
  }

  function Busy(day: int, n: nat): seq<Call> {
    if n == 0 then [] else Busy(day, n - 1) + [Call(BusyTime(day, n - 1), DoPause)]
  }

  function BusyState(day: int, n: nat): PanicState {
    if n == 0 then DEFAULT_PANIC_STATE
    else if n <= 3 then PanicState(true, n, if n == 3 then 2 else 1, if n == 1 then day else day + 82_800 + (n - 2) * PAUSE_DURATION_SECONDS, day)
    else PanicState(true, n - 3, if n == 5 then 2 else 1, day + 86_400 + (n - 4) * PAUSE_DURATION_SECONDS, day + 86_400)
  }

  lemma BusyStep(day: int, n: nat)
    requires 0 < n <= 6 && DAILY_RESET_INTERVAL <= day <= I64_MAX - 100_000
    ensures BusyState(day, n - 1).Pause(BusyTime(day, n - 1)) == Ok(BusyState(day, n))
  {
    if n == 1 {
    } else if n == 2 {
    } else if n == 3 {
    } else if n == 4 {
    } else if n == 5 {
    } else {
    }
  }

  lemma {:induction false} BusyShape(day: int, n: nat)
    ensures |Busy(day, n)| == n && forall i :: 0 <= i < n ==> Busy(day, n)[i] == Call(BusyTime(day, i), DoPause)
    ensures n > 0 ==> Busy(day, n)[..n - 1] == Busy(day, n - 1)
  {
    if n > 0 {
      BusyShape(day, n - 1);
    }
  }

  predicate BusySoFar(h: History, day: int, n: nat) {
    h.state == BusyState(day, n) && WindowSum(h.log, day + 82_800) == if n == 0 then 0 else n - 1
  }

  lemma BusyObserved(h: History, day: int, n: nat)
    requires 0 < n <= 6 && DAILY_RESET_INTERVAL <= day <= I64_MAX - 100_000 && BusySoFar(h, day, n - 1)
    ensures BusySoFar(Observe(h, Call(BusyTime(day, n - 1), DoPause)), day, n)
  {
    var t := BusyTime(day, n - 1);
    BusyStep(day, n);
    var s := h.state.Pause(t).value;
    assert s == BusyState(day, n);
    PauseObserved(h, t, s, day + 82_800);
    assert InWindow(Entry(t, s.lastDailyResetTimestamp, 1), day + 82_800) <==> n > 1;
  }

  lemma PauseObserved(h: History, t: int, s: PanicState, start: int)
    requires h.state.Pause(t) == Ok(s)
    ensures var after := Observe(h, Call(t, DoPause));
      && after.state == s
      && WindowSum(after.log, start) == WindowSum(h.log, start) + (if InWindow(Entry(t, s.lastDailyResetTimestamp, 1), start) then 1 else 0)
  {
    WindowSumAdd(h.log, Entry(t, s.lastDailyResetTimestamp, 1), start);
  }

  lemma {:induction false} BusyRun(day: int, n: nat)
    requires n <= 6 && DAILY_RESET_INTERVAL <= day <= I64_MAX - 100_000
    ensures BusySoFar(Run(Busy(day, n)), day, n)
  {
    if n > 0 {
      BusyRun(day, n - 1);
      BusyShape(day, n);
      BusyObserved(Run(Busy(day, n - 1)), day, n);
    }
  }

  lemma {:induction false} BusyUntil(day: int, m: nat, n: nat, t: int)
    requires 0 < n <= m <= 6
    requires BusyTime(day, n - 1) <= t && (n < m ==> t < BusyTime(day, n))
    ensures Until(Busy(day, m), t) == Busy(day, n)
  {
    BusyShape(day, m);
    if n < m {
      BusyUntil(day, m - 1, n, t);
    }
  }

  lemma BusyDown(day: int, m: nat, t: int)
    requires m == 6 && DAILY_RESET_INTERVAL <= day <= I64_MAX - 100_000
    requires day + 82_800 <= t < day + 82_800 + 9_000
    ensures DownAt(Busy(day, m), t)
  {
    var n := if t < day + 86_400 then 3 else if t < day + 90_000 then 5 else 6;
    BusyUntil(day, m, n, t);
    BusyRun(day, n);
    BusyInForce(day, n, t);
  }

  lemma BusyInForce(day: int, n: nat, t: int)
    requires n == if t < day + 86_400 then 3 else if t < day + 90_000 then 5 else 6
    requires day + 82_800 <= t < day + 82_800 + 9_000
    ensures BusyState(day, n).InForce(t)
  {
  }

  /** The bounds of five pauses and two and a half hours are met on any day. */
  lemma TwoAndAHalfHoursAreReachable(day: int)
    requires DAILY_RESET_INTERVAL <= day <= I64_MAX - 100_000
    ensures Ordered(Busy(day, 6)) && PastFirstDay(Busy(day, 6))
    ensures WindowSum(Run(Busy(day, 6)).log, day + 82_800) == 5
    ensures forall t :: day + 82_800 <= t < day + 82_800 + 9_000 ==> DownAt(Busy(day, 6), t)
  {
    BusyShape(day, 6);
    BusyRun(day, 6);
    forall t | day + 82_800 <= t < day + 82_800 + 9_000
      ensures DownAt(Busy(day, 6), t)
    {
      BusyDown(day, 6, t);
    }
  }
}
