/**
 State kept on a group: the cached copy of the global panic state that instructions consult,
 and the daily window limiting what forced deleverages may withdraw.
 */
module Group {
  import opened Wrappers
  import opened FixedPoint
  import opened DailyWindow
  import opened PanicPause

  // ---- The cached panic state ----

  datatype PanicStateCache = PanicStateCache(paused: bool, pauseStartTimestamp: int, lastCacheUpdate: int) {
    predicate IsExpired(now: int) {
      if !paused then true
      else if now < pauseStartTimestamp then false
      else now - pauseStartTimestamp >= PAUSE_DURATION_SECONDS
    }
  }

  datatype WithdrawWindow = WithdrawWindow(dailyLimit: nat, withdrawnToday: nat, lastDailyResetTimestamp: int) {

    /** The source's update_withdrawn_equity: a new day if due, then the whole dollars, then the limit. */
    function UpdateWithdrawnEquity(equity: nat, now: int): Result<WithdrawWindow> {
      var w := Recorded(equity, now);
      if w.dailyLimit != 0 && w.withdrawnToday > w.dailyLimit then Err(DailyWithdrawalLimitExceeded) else Ok(w)
    }

    function Rolled(now: int): WithdrawWindow {
      if SaturateI64(now - lastDailyResetTimestamp) >= DAILY_RESET_INTERVAL
      then this.(withdrawnToday := 0, lastDailyResetTimestamp := now) else this
    }

    function Recorded(equity: nat, now: int): WithdrawWindow {
      var w := Rolled(now);
      w.(withdrawnToday := Min(w.withdrawnToday + WholeDollars(equity), U32_MAX))
    }
  }

  /** `to_num::<u32>()`: the whole part, wrapped to 32 bits as a release build does. */
  function WholeDollars(equity: nat): nat {
    equity / ONE % (U32_MAX + 1)
  }

  class MarginfiGroup {
    var panicStateCache: PanicStateCache
    var dailyLimit: nat
    var withdrawnToday: nat
    var lastDailyResetTimestamp: int

    constructor (dailyLimit: nat)
      ensures panicStateCache == PanicStateCache(false, 0, 0)
      ensures Window() == WithdrawWindow(dailyLimit, 0, 0)
    {
      panicStateCache := PanicStateCache(false, 0, 0);
      this.dailyLimit, withdrawnToday, lastDailyResetTimestamp := dailyLimit, 0, 0;
    }

    function Window(): WithdrawWindow
      reads this
    {
      WithdrawWindow(dailyLimit, withdrawnToday, lastDailyResetTimestamp)
    }

    method UpdateFromPanicState(panicState: PanicState, currentTimestamp: int)
      modifies this`panicStateCache
      ensures panicStateCache == CacheOf(panicState, currentTimestamp)
    {
      panicStateCache := panicStateCache.(paused := panicState.paused);
      panicStateCache := panicStateCache.(pauseStartTimestamp := panicState.pauseStartTimestamp);
      panicStateCache := panicStateCache.(lastCacheUpdate := currentTimestamp);
    }

    predicate IsProtocolPaused(currentTimestamp: int)
      reads this
    {
      panicStateCache.paused && !panicStateCache.IsExpired(currentTimestamp)
    }

    /** A rejected withdrawal has already been recorded; its transaction is reverted. */
    method UpdateWithdrawnEquity(withdrawnEquity: nat, currentTimestamp: int) returns (r: Result<()>)
      modifies this`withdrawnToday, this`lastDailyResetTimestamp
      ensures Window() == old(Window()).Recorded(withdrawnEquity, currentTimestamp)
      ensures var spec := old(Window()).UpdateWithdrawnEquity(withdrawnEquity, currentTimestamp);
        match spec
        case Ok(_) => r == Ok(())
        case Err(e) => r == Err(e)
    {
      if SaturateI64(currentTimestamp - lastDailyResetTimestamp) >= DAILY_RESET_INTERVAL {
        withdrawnToday := 0;
        lastDailyResetTimestamp := currentTimestamp;
      }
      withdrawnToday := Min(withdrawnToday + WholeDollars(withdrawnEquity), U32_MAX);
      if dailyLimit != 0 && withdrawnToday > dailyLimit {
        return Err(DailyWithdrawalLimitExceeded);
      }
      return Ok(());
    }
  }

  function CacheOf(s: PanicState, now: int): PanicStateCache {
    PanicStateCache(s.paused, s.pauseStartTimestamp, now)
  }

  lemma CopyExpires(calls: seq<Call>, copied: int, now: int)
    requires Ordered(calls) && LastTime(calls) <= copied && Run(calls).state.InForce(now)
    ensures now < copied + 3600
  {
    RunKeepsInv(calls);
  }

  /**
   A group whose cache was last copied after some run answers, at every time, whether the
   protocol is paused just as the original would, and with no further copy stops answering
   yes within an hour: a stale cache cannot pause forever.
   */
  lemma StaleCacheExpires(g: MarginfiGroup, calls: seq<Call>, copied: int, now: int)
    requires Ordered(calls) && LastTime(calls) <= copied && g.panicStateCache == CacheOf(Run(calls).state, copied)
    ensures g.panicStateCache.IsExpired(now) <==> Run(calls).state.IsExpired(now)
    ensures g.IsProtocolPaused(now) <==> Run(calls).state.InForce(now)
    ensures g.IsProtocolPaused(now) ==> now < copied + 3600
  {
    if Run(calls).state.InForce(now) {
      CopyExpires(calls, copied, now);
    }
  }

  /** A copy, taken by t, of a state that some of the calls made by then led to. */
  ghost predicate IsCopy(calls: seq<Call>, k: nat, cache: PanicStateCache, t: int) {
    k <= |calls| && LastTime(calls[..k]) <= cache.lastCacheUpdate <= t && cache == CacheOf(Run(calls[..k]).state, cache.lastCacheUpdate)
  }

  /**
   However the cache is updated: if at every moment of [a, b) it holds some copy and reports
   the protocol paused, these are at most three hours, and past the first day two and a half.
   */
  lemma CacheNeverReportsForLonger(calls: seq<Call>, cacheAt: int -> PanicStateCache, a: int, b: int)
    requires Ordered(calls) && 0 <= a < b
    requires forall t :: a <= t < b ==> exists k: nat :: IsCopy(calls, k, cacheAt(t), t)
    requires forall t :: a <= t < b ==> cacheAt(t).paused && !cacheAt(t).IsExpired(t)
    ensures b - a <= 10_800
    ensures PastFirstDay(calls) ==> b - a <= 9_000
  {
    forall t | a <= t < b
      ensures SomeCopyDown(calls, t)
    {
      var k: nat :| IsCopy(calls, k, cacheAt(t), t);
      assert CopyDown(calls, k, t);
    }
    NeverReportedForLonger(calls, a, b);
  }

  // ---- The withdrawal window over runs ----

  datatype Withdrawal = Withdrawal(time: int, equity: nat)

  /** The window and the log of the whole dollars it accepted; a rejected withdrawal is reverted. */
  datatype WindowHistory = WindowHistory(window: WithdrawWindow, log: seq<Entry>)

  function ObserveWithdrawal(h: WindowHistory, c: Withdrawal): WindowHistory {
    match h.window.UpdateWithdrawnEquity(c.equity, c.time)
    case Err(_) => h
    case Ok(after) => WindowHistory(after, h.log + [Entry(c.time, after.lastDailyResetTimestamp, c.equity / ONE)])
  }

  function RunWithdrawals(w: WithdrawWindow, cs: seq<Withdrawal>): WindowHistory {
    if cs == [] then WindowHistory(w, []) else ObserveWithdrawal(RunWithdrawals(w, cs[..|cs| - 1]), cs[|cs| - 1])
  }

  /** 64-bit times that never go back, none before the window's last reset. */
  ghost predicate OrderedFrom(reset: int, cs: seq<Withdrawal>) {
    && (forall i :: 0 <= i < |cs| ==> reset <= cs[i].time <= I64_MAX)
    && (forall i, j :: 0 <= i < j < |cs| ==> cs[i].time <= cs[j].time)
  }

  ghost predicate AllBelow(cs: seq<Withdrawal>, cap: int) {
    forall i :: 0 <= i < |cs| ==> cs[i].equity < cap
  }

  /** Every amount is below 2^32 dollars, so that none wraps. */
  ghost predicate NoneWraps(cs: seq<Withdrawal>) {
    AllBelow(cs, (U32_MAX + 1) * ONE)
  }

  ghost predicate WindowInv(h: WindowHistory, now: int, limit: nat) {
    && h.window.dailyLimit == limit
    && 0 <= h.window.lastDailyResetTimestamp
    && Tracks(h.log, h.window.withdrawnToday, h.window.lastDailyResetTimestamp, now, limit)
  }

  lemma WithdrawalKeepsInv(h: WindowHistory, before: int, c: Withdrawal, limit: nat)
    requires WindowInv(h, before, limit) && before <= c.time <= I64_MAX && 0 < limit < U32_MAX
    requires c.equity < (U32_MAX + 1) * ONE
    ensures WindowInv(ObserveWithdrawal(h, c), c.time, limit)
  {
    var w := h.window;
    CountedInFull(c.equity);
    TracksLater(h.log, w.withdrawnToday, w.lastDailyResetTimestamp, before, c.time, limit);
    if w.UpdateWithdrawnEquity(c.equity, c.time).Ok? {
      if c.time - w.lastDailyResetTimestamp >= DAILY_RESET_INTERVAL {
        TracksReset(h.log, w.withdrawnToday, w.lastDailyResetTimestamp, before, c.time, limit);
      }
      var rolled := w.Rolled(c.time);
      TracksAdd(h.log, rolled.withdrawnToday, rolled.lastDailyResetTimestamp, c.time, WholeDollars(c.equity), limit);
    }
  }

  lemma {:induction false} RunKeepsWindowInv(w: WithdrawWindow, cs: seq<Withdrawal>)
    requires 0 < w.dailyLimit < U32_MAX && 0 <= w.lastDailyResetTimestamp && OrderedFrom(w.lastDailyResetTimestamp, cs) && NoneWraps(cs)
    ensures WindowInv(RunWithdrawals(w, cs), if cs == [] then w.lastDailyResetTimestamp else cs[|cs| - 1].time, w.dailyLimit)
  {
    if cs != [] {
      RunKeepsWindowInv(w, cs[..|cs| - 1]);
      var before := if |cs| == 1 then w.lastDailyResetTimestamp else cs[|cs| - 2].time;
      WithdrawalKeepsInv(RunWithdrawals(w, cs[..|cs| - 1]), before, cs[|cs| - 1], w.dailyLimit);
    }
  }

  /**
   From any window and with no amount that wraps, the whole dollars accepted between two resets
   sum to at most the limit, and in any half-open 24 hours to at most twice the limit, in spite
   of the saturating sum.
   */
  lemma LimitIsEnforced(w: WithdrawWindow, cs: seq<Withdrawal>, epoch: int, start: int)
    requires 0 < w.dailyLimit < U32_MAX && 0 <= w.lastDailyResetTimestamp && OrderedFrom(w.lastDailyResetTimestamp, cs) && NoneWraps(cs)
    ensures EpochSum(RunWithdrawals(w, cs).log, epoch) <= w.dailyLimit
    ensures WindowSum(RunWithdrawals(w, cs).log, start) <= 2 * w.dailyLimit
  {
    RunKeepsWindowInv(w, cs);
    WindowWithinTwoLimits(RunWithdrawals(w, cs).log, start, w.dailyLimit);
  }

  // ---- Acceptance, read from the log ----

  lemma {:induction false} CounterIsTheLog(w: WithdrawWindow, cs: seq<Withdrawal>)
    requires 0 < w.dailyLimit < U32_MAX && w.withdrawnToday == 0 == w.lastDailyResetTimestamp
    requires OrderedFrom(0, cs) && NoneWraps(cs)
    ensures var h := RunWithdrawals(w, cs);
      h.window == WithdrawWindow(w.dailyLimit, EpochSum(h.log, LastReset(h.log)), LastReset(h.log))
  {
    if cs != [] {
      var init, c := cs[..|cs| - 1], cs[|cs| - 1];
      CounterIsTheLog(w, init);
      RunKeepsWindowInv(w, init);
      CountedInFull(c.equity);
      CounterNext(RunWithdrawals(w, init), c);
    }
  }

  lemma CounterNext(h: WindowHistory, c: Withdrawal)
    requires h.window == WithdrawWindow(h.window.dailyLimit, EpochSum(h.log, LastReset(h.log)), LastReset(h.log))
    requires 0 < h.window.dailyLimit < U32_MAX && 0 <= c.time <= I64_MAX && 0 <= LastReset(h.log)
    requires WholeDollars(c.equity) == c.equity / ONE
    requires forall i :: 0 <= i < |h.log| ==> h.log[i].epoch <= LastReset(h.log)
    ensures var after := ObserveWithdrawal(h, c);
      after.window == WithdrawWindow(h.window.dailyLimit, EpochSum(after.log, LastReset(after.log)), LastReset(after.log))
  {
    if h.window.UpdateWithdrawnEquity(c.equity, c.time).Ok? {
      var reset := h.window.UpdateWithdrawnEquity(c.equity, c.time).value.lastDailyResetTimestamp;
      EpochSumAdd(h.log, Entry(c.time, reset, c.equity / ONE), reset);
      if c.time - LastReset(h.log) >= DAILY_RESET_INTERVAL {
        NothingInEpoch(h.log, c.time);
      }
    }
  }

  /**
   After any run from a new window the next withdrawal is accepted exactly when the log has
   room for it: what was accepted since the last reset, or nothing once a day has passed.
   */
  lemma AcceptedExactly(limit: nat, cs: seq<Withdrawal>, c: Withdrawal)
    requires 0 < limit < U32_MAX && OrderedFrom(0, cs) && NoneWraps(cs)
    requires 0 <= c.time <= I64_MAX && c.equity < (U32_MAX + 1) * ONE
    ensures var h := RunWithdrawals(WithdrawWindow(limit, 0, 0), cs);
      h.window.UpdateWithdrawnEquity(c.equity, c.time).Ok? <==> CountedBy(h.log, c.time) + c.equity / ONE <= limit
  {
    var w := WithdrawWindow(limit, 0, 0);
    CounterIsTheLog(w, cs);
    RunKeepsWindowInv(w, cs);
    CountedInFull(c.equity);
  }

  /** Every run of such amounts from a new window accepts at most its limit between two resets. */
  ghost predicate Enforces(limit: nat) {
    forall cs, epoch :: OrderedFrom(0, cs) && NoneWraps(cs) ==> EpochSum(RunWithdrawals(WithdrawWindow(limit, 0, 0), cs).log, epoch) <= limit
  }

  /** Zero means no limit, and at u32::MAX the saturating sum never exceeds it: in between it is enforced. */
  lemma EnforcedExactlyInBetween(limit: nat)
    requires limit <= U32_MAX
    ensures Enforces(limit) <==> 0 < limit < U32_MAX
  {
    var w := WithdrawWindow(limit, 0, 0);
    if 0 < limit < U32_MAX {
      forall cs, epoch | OrderedFrom(0, cs) && NoneWraps(cs)
        ensures EpochSum(RunWithdrawals(w, cs).log, epoch) <= limit
      {
        LimitIsEnforced(w, cs, epoch, 0);
      }
    } else {
      var c := Withdrawal(0, U32_MAX * ONE);
      TwoLargest(w, c);
      assert OrderedFrom(0, [c, c]) && NoneWraps([c, c]);
      assert !(EpochSum(RunWithdrawals(w, [c, c]).log, 0) <= limit);
    }
  }

  /** Two withdrawals of the largest amount, both accepted when there is no limit below u32::MAX. */
  lemma TwoLargest(w: WithdrawWindow, c: Withdrawal)
    requires (w == WithdrawWindow(0, 0, 0) || w == WithdrawWindow(U32_MAX, 0, 0)) && c == Withdrawal(0, U32_MAX * ONE)
    ensures EpochSum(RunWithdrawals(w, [c, c]).log, 0) == 2 * U32_MAX
  {
    assert [c, c][..1] == [c] && [c][..0] == [];
    assert WholeDollars(c.equity) == U32_MAX;
    var e := Entry(0, 0, U32_MAX);
    var none := RunWithdrawals(w, []);
    assert none == WindowHistory(w, []);
    var one := RunWithdrawals(w, [c]);
    assert one == ObserveWithdrawal(none, c);
    assert one.log == [e] && one.window.withdrawnToday == U32_MAX;
    assert RunWithdrawals(w, [c, c]).log == [e, e];
    assert [e, e][..1] == [e] && [e][..0] == [];
    assert EpochSum([], 0) == 0 && EpochSum([e], 0) == U32_MAX;
  }

  /** An amount below 2^32 dollars is counted in full. */
  lemma CountedInFull(equity: nat)
    ensures WholeDollars(equity) == equity / ONE <==> equity < (U32_MAX + 1) * ONE
  {
  }

  /** A wrapped amount escapes every limit: 2^32 dollars count as none and are accepted. */
  lemma WrappedAmountEscapes(limit: nat)
    requires limit <= U32_MAX
    ensures var c := Withdrawal(0, (U32_MAX + 1) * ONE);
      && OrderedFrom(0, [c])
      && EpochSum(RunWithdrawals(WithdrawWindow(limit, 0, 0), [c]).log, 0) == U32_MAX + 1 > limit
  {
    var w, c := WithdrawWindow(limit, 0, 0), Withdrawal(0, (U32_MAX + 1) * ONE);
    assert c.equity / ONE == U32_MAX + 1 && WholeDollars(c.equity) == 0;
    assert [c][..0] == [];
    assert RunWithdrawals(w, []) == WindowHistory(w, []);
    assert RunWithdrawals(w, [c]) == ObserveWithdrawal(WindowHistory(w, []), c);
    var e := Entry(0, 0, U32_MAX + 1);
    assert RunWithdrawals(w, [c]).log == [e];
    assert [e][..0] == [];
    assert EpochSum([], 0) == 0;
  }

  /** 2^32 dollars is the exact bound on amounts under which a limit is enforced. */
  lemma EnforcedExactlyWithoutWrapping(limit: nat, cap: nat)
    requires 0 < limit < U32_MAX
    ensures (forall cs, epoch :: OrderedFrom(0, cs) && AllBelow(cs, cap) ==>
               EpochSum(RunWithdrawals(WithdrawWindow(limit, 0, 0), cs).log, epoch) <= limit)
            <==> cap <= (U32_MAX + 1) * ONE
  {
    var w := WithdrawWindow(limit, 0, 0);
    if cap <= (U32_MAX + 1) * ONE {
      forall cs, epoch | OrderedFrom(0, cs) && AllBelow(cs, cap)
        ensures EpochSum(RunWithdrawals(w, cs).log, epoch) <= limit
      {
        assert NoneWraps(cs);
        LimitIsEnforced(w, cs, epoch, 0);
      }
    } else {
      WrappedAmountEscapes(limit);
      var c := Withdrawal(0, (U32_MAX + 1) * ONE);
      assert AllBelow([c], cap);
      assert EpochSum(RunWithdrawals(w, [c]).log, 0) > limit;
    }
  }
}
