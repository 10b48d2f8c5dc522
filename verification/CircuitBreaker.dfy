/**
 * The sliding-window circuit breaker of the send path.  It keeps a pruned list
 * of failure times and one opening time; the laws compare that with the whole
 * history of outcomes under a clock that never runs backwards.
 */
module CircuitBreaking {
  import opened Wrappers

  datatype Outcome = Failed(at: int) | Succeeded

  datatype Config = Config(threshold: nat, window: nat, cooldown: nat)

  /** The gateway's breaker: one failure opens it, window and cooldown are 30 s. */
  const SEND_BREAKER := Config(1, 30_000, 30_000)

  datatype State = State(failures: seq<int>, openedAt: Option<int>)

  const CLOSED := State([], None)

  /** `retain`: the times less than `window` before `now`. */
  function Recent(times: seq<int>, now: int, window: nat): seq<int> {
    if times == [] then []
    else (if now - times[0] < window then [times[0]] else []) + Recent(times[1..], now, window)
  }

  predicate IsOpenIn(s: State, cfg: Config, now: int) {
    s.openedAt.Some? && now - s.openedAt.value < cfg.cooldown
  }

  function AfterFailure(s: State, cfg: Config, now: int): State {
    var failures := Recent(s.failures, now, cfg.window) + [now];
    State(failures, if |failures| >= cfg.threshold then Some(now) else s.openedAt)
  }

  function After(s: State, cfg: Config, o: Outcome): State {
    match o
    case Failed(at) => AfterFailure(s, cfg, at)
    case Succeeded => CLOSED
  }

  function Replay(history: seq<Outcome>, cfg: Config): State {
    if history == [] then CLOSED
    else After(Replay(history[..|history| - 1], cfg), cfg, history[|history| - 1])
  }

  // ----- The history, unpruned -----

  /** The times of the failures since the last success. */
  function SinceSuccess(history: seq<Outcome>): seq<int> {
    if history == [] then []
    else
      var last := history[|history| - 1];
      if last.Succeeded? then [] else SinceSuccess(history[..|history| - 1]) + [last.at]
  }

  /** Times in the order they were read from the clock. */
  predicate Ordered(times: seq<int>) {
    forall i, j :: 0 <= i < j < |times| ==> times[i] <= times[j]
  }

  /** How many of `times` lie less than `window` before `f`. */
  function Within(times: seq<int>, f: int, window: nat): nat {
    if times == [] then 0
    else (if f - times[0] < window then 1 else 0) + Within(times[1..], f, window)
  }

  /** Failure `i` and the earlier ones in the window ending at it reach the threshold. */
  predicate Trips(times: seq<int>, i: nat, cfg: Config)
    requires i < |times|
  {
    1 + Within(times[..i], times[i], cfg.window) >= cfg.threshold
  }

  ghost predicate ShouldBeOpen(history: seq<Outcome>, cfg: Config, now: int) {
    var times := SinceSuccess(history);
    exists i: nat :: i < |times| && Trips(times, i, cfg) && now - times[i] < cfg.cooldown
  }

  class CircuitBreaker {
    const cfg: Config
    var failures: seq<int>
    var openedAt: Option<int>
    ghost var history: seq<Outcome>

    ghost predicate Valid()
      reads this
    {
      State(failures, openedAt) == Replay(history, cfg) && Ordered(SinceSuccess(history))
    }

    constructor (cfg: Config)
      ensures Valid() && history == [] && this.cfg == cfg
    {
      this.cfg := cfg;
      failures, openedAt := [], None;
      history := [];
    }

    /** The clock has not run backwards since the last failure. */
    ghost predicate ClockAt(now: int)
      reads this
    {
      var times := SinceSuccess(history);
      times != [] ==> times[|times| - 1] <= now
    }

    method IsOpen(now: int) returns (isOpen: bool)
      requires Valid() && ClockAt(now)
      ensures isOpen <==> ShouldBeOpen(history, cfg, now)
    {
      BreakerRefinesHistory(history, cfg, now);
      match openedAt
      case Some(since) => isOpen := now - since < cfg.cooldown;
      case None => isOpen := false;
    }

    method RecordSuccess()
      requires Valid()
      modifies this
      ensures Valid() && history == old(history) + [Succeeded]
      ensures forall t: int :: ClockAt(t)
    {
      history := history + [Succeeded];
      failures := [];
      openedAt := None;
    }

    method RecordFailure(now: int)
      requires Valid() && ClockAt(now)
      modifies this
      ensures Valid() && history == old(history) + [Failed(now)]
      ensures forall t: int :: now <= t ==> ClockAt(t)
    {
      FailureRecorded(history, cfg, now);
      hide Replay, SinceSuccess;
      history := history + [Failed(now)];
      failures := Recent(failures, now, cfg.window);
      failures := failures + [now];
      if |failures| >= cfg.threshold {
        openedAt := Some(now);
      }
    }
  }

  lemma FailureRecorded(history: seq<Outcome>, cfg: Config, now: int)
    requires Ordered(SinceSuccess(history))
    requires var times := SinceSuccess(history); times != [] ==> times[|times| - 1] <= now
    ensures Replay(history + [Failed(now)], cfg) == AfterFailure(Replay(history, cfg), cfg, now)
    ensures SinceSuccess(history + [Failed(now)]) == SinceSuccess(history) + [now]
    ensures Ordered(SinceSuccess(history) + [now])
  {
    assert (history + [Failed(now)])[..|history|] == history;
  }

  // ----- Refinement -----

  lemma {:induction false} RecentCounts(times: seq<int>, now: int, window: nat)
    ensures |Recent(times, now, window)| == Within(times, now, window)
  {
    if times == [] {
    } else {
      RecentCounts(times[1..], now, window);
    }
  }

  lemma {:induction false} RecentAppend(a: seq<int>, b: seq<int>, now: int, window: nat)
    ensures Recent(a + b, now, window) == Recent(a, now, window) + Recent(b, now, window)
  {
    if a == [] {
      assert a + b == b;
    } else {
      assert (a + b)[1..] == a[1..] + b;
      RecentAppend(a[1..], b, now, window);
    }
  }

  /** Pruning early loses nothing: what is out of an earlier window is out of every later one. */
  lemma {:induction false} RecentTwice(times: seq<int>, earlier: int, now: int, window: nat)
    requires earlier <= now
    ensures Recent(Recent(times, earlier, window), now, window) == Recent(times, now, window)
  {
    if times == [] {
    } else {
      RecentTwice(times[1..], earlier, now, window);
      if earlier - times[0] < window {
        RecentAppend([times[0]], Recent(times[1..], earlier, window), now, window);
        assert Recent([times[0]], now, window) == (if now - times[0] < window then [times[0]] else []) + [];
      } else {
        assert [] + Recent(times[1..], earlier, window) == Recent(times[1..], earlier, window);
      }
    }
  }

  /** The pruned list is the window ending at the last failure, and the opening time is the last failure that trips. */
  ghost predicate Summarises(s: State, times: seq<int>, cfg: Config) {
    var n := |times|;
    && s.failures == (if n == 0 then [] else Recent(times[..n - 1], times[n - 1], cfg.window) + [times[n - 1]])
    && (s.openedAt.None? ==> forall i: nat :: i < n ==> !Trips(times, i, cfg))
    && (s.openedAt.Some? ==> exists i: nat ::
      && i < n && Trips(times, i, cfg) && s.openedAt.value == times[i]
      && forall j: nat :: i < j < n ==> !Trips(times, j, cfg))
  }

  /** Pruning the window that ended at `last` again, with `last` itself, is pruning all of the times. */
  lemma PruneAgain(before: seq<int>, last: int, now: int, window: nat)
    requires last <= now
    ensures Recent(Recent(before, last, window) + [last], now, window) == Recent(before + [last], now, window)
  {
    hide Recent;
    RecentAppend(Recent(before, last, window), [last], now, window);
    RecentTwice(before, last, now, window);
    RecentAppend(before, [last], now, window);
  }

  lemma WindowOf(s: State, times: seq<int>, cfg: Config)
    requires Summarises(s, times, cfg) && times != []
    ensures var n := |times|;
      s.failures == Recent(times[..n - 1], times[n - 1], cfg.window) + [times[n - 1]]
      && times == times[..n - 1] + [times[n - 1]]
  {
    hide Recent, Trips;
  }

  /** The pruned list after a failure is the window ending at it, although only the earlier window was kept. */
  lemma FailureKeepsWindow(s: State, times: seq<int>, cfg: Config, now: int)
    requires Summarises(s, times, cfg) && Ordered(times + [now])
    ensures AfterFailure(s, cfg, now).failures == Recent(times, now, cfg.window) + [now]
  {
    if times == [] {
      assert s.failures == [];
    } else {
      var n := |times|;
      WindowOf(s, times, cfg);
      assert (times + [now])[n - 1] == times[n - 1] && (times + [now])[n] == now;
      hide Recent, Summarises, Trips;
      PruneAgain(times[..n - 1], times[n - 1], now, cfg.window);
    }
  }

  /** Whether a failure trips depends on the times up to it. */
  lemma TripsPrefix(times: seq<int>, now: int, cfg: Config)
    ensures forall i: nat :: i < |times| ==> (Trips(times + [now], i, cfg) <==> Trips(times, i, cfg))
    ensures Trips(times + [now], |times|, cfg) <==> 1 + Within(times, now, cfg.window) >= cfg.threshold
  {
    var later := times + [now];
    assert later[..|times|] == times && later[|times|] == now;
    forall i: nat | i < |times|
      ensures Trips(later, i, cfg) <==> Trips(times, i, cfg)
    {
      assert later[..i] == times[..i] && later[i] == times[i];
    }
  }

  lemma FailureSummarised(s: State, times: seq<int>, cfg: Config, now: int)
    requires Summarises(s, times, cfg) && Ordered(times + [now])
    ensures Summarises(AfterFailure(s, cfg, now), times + [now], cfg)
  {
    var n, later, r := |times|, times + [now], AfterFailure(s, cfg, now);
    FailureKeepsWindow(s, times, cfg, now);
    RecentCounts(times, now, cfg.window);
    TripsPrefix(times, now, cfg);
    assert later[..n] == times && later[n] == now && |later| == n + 1;
    assert r.openedAt == if Trips(later, n, cfg) then Some(now) else s.openedAt;
    hide Trips, Recent, AfterFailure, Within;
    if r.openedAt.Some? && !Trips(later, n, cfg) {
      var i: nat :| i < n && Trips(times, i, cfg) && s.openedAt.value == times[i]
        && forall j: nat :: i < j < n ==> !Trips(times, j, cfg);
      assert later[i] == times[i] && Trips(later, i, cfg);
    }
  }

  lemma {:induction false} ReplaySummarises(history: seq<Outcome>, cfg: Config)
    requires Ordered(SinceSuccess(history))
    ensures Summarises(Replay(history, cfg), SinceSuccess(history), cfg)
  {
    if history != [] && history[|history| - 1].Failed? {
      var before := history[..|history| - 1];
      var times, now := SinceSuccess(before), history[|history| - 1].at;
      assert times == (times + [now])[..|times|];
      assert Ordered(times) by {
        assert forall i :: 0 <= i < |times| ==> times[i] == (times + [now])[i];
      }
      ReplaySummarises(before, cfg);
      FailureSummarised(Replay(before, cfg), times, cfg, now);
    }
  }

  /**
   * The breaker is open at `now` exactly when some failure since the last
   * success is less than `cooldown` old and, with the failures since that
   * success in the window ending at it, reaches the threshold.
   */
  lemma BreakerRefinesHistory(history: seq<Outcome>, cfg: Config, now: int)
    requires Ordered(SinceSuccess(history))
    ensures IsOpenIn(Replay(history, cfg), cfg, now) <==> ShouldBeOpen(history, cfg, now)
  {
    ReplaySummarises(history, cfg);
    var s, times := Replay(history, cfg), SinceSuccess(history);
    if i: nat :| i < |times| && Trips(times, i, cfg) && now - times[i] < cfg.cooldown {
      var k: nat :| k < |times| && Trips(times, k, cfg) && s.openedAt.value == times[k]
        && forall j: nat :: k < j < |times| ==> !Trips(times, j, cfg);
      assert i <= k;
      assert times[i] <= times[k];
    }
  }

  /** With the gateway's own settings the breaker is open exactly for 30 s after a failure that no success followed. */
  lemma SendBreakerOpensOnOneFailure(history: seq<Outcome>, now: int)
    requires Ordered(SinceSuccess(history))
    ensures IsOpenIn(Replay(history, SEND_BREAKER), SEND_BREAKER, now) <==>
      history != [] && history[|history| - 1].Failed? && now - history[|history| - 1].at < 30_000
  {
  }
}
