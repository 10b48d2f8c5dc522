/**
 * The batcher that collects assistant text and flushes it on size, on tool use,
 * on request and on a quiet period.  Timer callbacks are events of their own.
 */
module StreamingBatching {
  import opened Wrappers
  import opened JsStrings

  /** `immediateFlushLength` in code units, the other three in milliseconds. */
  datatype Options = Options(immediateFlushLength: nat, idleTimeoutMs: nat, activityTimeoutMs: nat, checkIntervalMs: nat)

  /**
   * The fields of a batcher together with what it did to the outside world:
   * the armed one-shot timers with their due times, the chunks handed to
   * `onFlush`, and how often `onIdle` was called.
   */
  datatype State = State(
    buffer: Text,
    destroyed: bool,
    idleTimer: Option<nat>,
    activityTimer: bool,
    lastActivity: int,
    idleFired: bool,
    timers: map<nat, int>,
    nextTimer: nat,
    flushed: seq<Text>,
    notices: nat)

  datatype Event =
    | AddText(text: Text, now: int)
    | ToolUse(now: int)
    | FlushCall(now: int)
    | IdleTimerFires(now: int)
    | ActivityCheck(now: int)
    | Destroy

  function Initial(now: int): State {
    State([], false, None, true, now, false, map[], 0, [], 0)
  }

  function ResetIdleTimer(s: State, opts: Options, now: int): State {
    var cleared := if s.idleTimer.Some? then s.timers - {s.idleTimer.value} else s.timers;
    s.(idleTimer := Some(s.nextTimer),
       timers := cleared[s.nextTimer := now + opts.idleTimeoutMs],
       nextTimer := s.nextTimer + 1)
  }

  function DoFlush(s: State, opts: Options, now: int): State {
    if s.buffer == [] then s
    else ResetIdleTimer(s.(flushed := s.flushed + [s.buffer], buffer := []), opts, now)
  }

  function ResetActivity(s: State, now: int): State {
    s.(lastActivity := now, idleFired := false)
  }

  /** The idle timer is armed and due. */
  predicate IdleTimerDue(s: State, now: int) {
    s.idleTimer.Some? && s.idleTimer.value in s.timers && s.timers[s.idleTimer.value] <= now
  }

  /** One call, or one timer callback; a timer that is not due has no callback. */
  function Step(s: State, opts: Options, e: Event): State {
    match e
    case AddText(text, now) =>
      if s.destroyed then s
      else
        var t := ResetActivity(ResetIdleTimer(s.(buffer := s.buffer + text), opts, now), now);
        if |t.buffer| > opts.immediateFlushLength then DoFlush(t, opts, now) else t
    case ToolUse(now) =>
      if s.destroyed then s else ResetActivity(DoFlush(s, opts, now), now)
    case FlushCall(now) =>
      if s.destroyed then s else DoFlush(s, opts, now)
    case IdleTimerFires(now) =>
      if IdleTimerDue(s, now) then DoFlush(s.(timers := s.timers - {s.idleTimer.value}), opts, now) else s
    case ActivityCheck(now) =>
      if s.destroyed || !s.activityTimer then s
      else if now - s.lastActivity >= opts.activityTimeoutMs && !s.idleFired then
        s.(idleFired := true, notices := s.notices + 1)
      else s
    case Destroy =>
      s.(destroyed := true,
         timers := if s.idleTimer.Some? then s.timers - {s.idleTimer.value} else s.timers,
         idleTimer := None,
         activityTimer := false)
  }

  class StreamingBatcher {
    const opts: Options
    var buffer: Text
    var destroyed: bool
    var idleTimer: Option<nat>
    var activityTimer: bool
    var lastActivity: int
    var idleFired: bool
    var timers: map<nat, int>
    var nextTimer: nat
    var flushed: seq<Text>
    var notices: nat

    ghost function Abs(): State
      reads this
    {
      State(buffer, destroyed, idleTimer, activityTimer, lastActivity, idleFired, timers, nextTimer, flushed, notices)
    }

    constructor (opts: Options, now: int)
      ensures this.opts == opts
      ensures Abs() == Initial(now) && Invariant(Abs(), opts)
    {
      this.opts := opts;
      buffer, destroyed := [], false;
      idleTimer, activityTimer := None, true;
      lastActivity, idleFired := now, false;
      timers, nextTimer := map[], 0;
      flushed, notices := [], 0;
    }

    method Add(text: Text, now: int)
      requires Invariant(Abs(), opts)
      modifies this
      ensures Abs() == Step(old(Abs()), opts, AddText(text, now)) && Invariant(Abs(), opts)
    {
      StepKeepsInvariant(Abs(), opts, AddText(text, now));
      if destroyed {
        return;
      }
      buffer := buffer + text;
      ResetIdle(now);
      ResetActive(now);
      if |buffer| > opts.immediateFlushLength {
        Deliver(now);
      }
    }

    method OnToolUse(now: int)
      requires Invariant(Abs(), opts)
      modifies this
      ensures Abs() == Step(old(Abs()), opts, ToolUse(now)) && Invariant(Abs(), opts)
    {
      StepKeepsInvariant(Abs(), opts, ToolUse(now));
      if destroyed {
        return;
      }
      Deliver(now);
      ResetActive(now);
    }

    method Flush(now: int)
      requires Invariant(Abs(), opts)
      modifies this
      ensures Abs() == Step(old(Abs()), opts, FlushCall(now)) && Invariant(Abs(), opts)
    {
      StepKeepsInvariant(Abs(), opts, FlushCall(now));
      if destroyed {
        return;
      }
      Deliver(now);
    }

    /** The callback of the one-shot idle timer, which the runtime disarms when it fires. */
    method OnIdleTimer(now: int)
      requires Invariant(Abs(), opts)
      requires IdleTimerDue(Abs(), now)
      modifies this
      ensures Abs() == Step(old(Abs()), opts, IdleTimerFires(now)) && Invariant(Abs(), opts)
    {
      StepKeepsInvariant(Abs(), opts, IdleTimerFires(now));
      timers := timers - {idleTimer.value};
      Deliver(now);
    }

    /** The callback of the periodic activity check. */
    method OnActivityTimer(now: int)
      requires Invariant(Abs(), opts)
      requires activityTimer
      modifies this
      ensures Abs() == Step(old(Abs()), opts, ActivityCheck(now)) && Invariant(Abs(), opts)
    {
      StepKeepsInvariant(Abs(), opts, ActivityCheck(now));
      if destroyed {
        return;
      }
      var elapsed := now - lastActivity;
      if elapsed >= opts.activityTimeoutMs && !idleFired {
        idleFired := true;
        notices := notices + 1;
      }
    }

    method Close()
      requires Invariant(Abs(), opts)
      modifies this
      ensures Abs() == Step(old(Abs()), opts, Destroy) && Invariant(Abs(), opts)
    {
      StepKeepsInvariant(Abs(), opts, Destroy);
      destroyed := true;
      if idleTimer.Some? {
        timers := timers - {idleTimer.value};
        idleTimer := None;
      }
      activityTimer := false;
    }

    method Deliver(now: int)
      modifies this
      ensures Abs() == DoFlush(old(Abs()), opts, now)
    {
      if buffer == [] {
        return;
      }
      flushed := flushed + [buffer];
      buffer := [];
      ResetIdle(now);
    }

    method ResetIdle(now: int)
      modifies this`idleTimer, this`timers, this`nextTimer
      ensures Abs() == ResetIdleTimer(old(Abs()), opts, now)
    {
      if idleTimer.Some? {
        timers := timers - {idleTimer.value};
        idleTimer := None;
      }
      timers := timers[nextTimer := now + opts.idleTimeoutMs];
      idleTimer := Some(nextTimer);
      nextTimer := nextTimer + 1;
    }

    method ResetActive(now: int)
      modifies this`lastActivity, this`idleFired
      ensures Abs() == ResetActivity(old(Abs()), now)
    {
      lastActivity := now;
      idleFired := false;
    }
  }

  // ----- What every step keeps -----

  /** Pending text always has its own armed timer, due a fixed time after the last text came in. */
  ghost predicate PendingTextHasTimer(s: State, opts: Options) {
    !s.destroyed && s.buffer != [] ==>
      && s.idleTimer.Some?
      && s.idleTimer.value in s.timers
      && s.timers[s.idleTimer.value] == s.lastActivity + opts.idleTimeoutMs
  }

  ghost predicate Invariant(s: State, opts: Options) {
    && |s.buffer| <= opts.immediateFlushLength
    && (forall i :: 0 <= i < |s.flushed| ==> s.flushed[i] != [])
    && PendingTextHasTimer(s, opts)
    // at most one idle timer is armed, the one the field names
    && (forall id :: id in s.timers ==> s.idleTimer == Some(id))
    && (s.idleTimer.Some? ==> s.idleTimer.value < s.nextTimer)
    && (s.destroyed <==> !s.activityTimer)
    && (s.destroyed ==> s.idleTimer == None && s.timers == map[])
  }

  lemma StepKeepsInvariant(s: State, opts: Options, e: Event)
    requires Invariant(s, opts)
    ensures Invariant(Step(s, opts, e), opts)
  {
  }

  /** The text a step takes in. */
  function Accepted(s: State, e: Event): Text {
    if e.AddText? && !s.destroyed then e.text else []
  }

  lemma {:induction false} ConcatSnoc(parts: seq<Text>, last: Text)
    ensures Concat(parts + [last]) == Concat(parts) + last
  {
    ConcatAppend(parts, [last]);
    assert [last][1..] == [] && last + [] == last;
  }

  /** What a step takes in joins the buffer, and the whole buffer is flushed or none of it. */
  lemma StepFlushesAll(s: State, opts: Options, e: Event)
    ensures var t, b := Step(s, opts, e), s.buffer + Accepted(s, e);
      (t.flushed == s.flushed && t.buffer == b) || (t.flushed == s.flushed + [b] && t.buffer == [])
  {
    assert s.buffer + [] == s.buffer;
  }

  /** A step passes text on unchanged and in order. */
  lemma StepConserves(s: State, opts: Options, e: Event)
    ensures var t := Step(s, opts, e);
      Concat(t.flushed) + t.buffer == Concat(s.flushed) + s.buffer + Accepted(s, e)
  {
    hide Step, Accepted, Concat;
    var t, b := Step(s, opts, e), s.buffer + Accepted(s, e);
    StepFlushesAll(s, opts, e);
    ConcatSnoc(s.flushed, b);
    assert Concat(s.flushed) + s.buffer + Accepted(s, e) == Concat(s.flushed) + b;
    assert t.buffer == [] ==> Concat(t.flushed) + t.buffer == Concat(t.flushed);
  }

  // ----- Whole runs -----

  function Run(s: State, opts: Options, events: seq<Event>): State
    decreases |events|
  {
    if events == [] then s else Run(Step(s, opts, events[0]), opts, events[1..])
  }

  /** The text added before the first `Destroy`. */
  function AcceptedText(events: seq<Event>): Text {
    if events == [] || events[0].Destroy? then []
    else (if events[0].AddText? then events[0].text else []) + AcceptedText(events[1..])
  }

  function ActivityCount(events: seq<Event>): nat {
    if events == [] then 0
    else (if events[0].AddText? || events[0].ToolUse? then 1 else 0) + ActivityCount(events[1..])
  }

  lemma {:induction false} DestroyedIsFinal(s: State, opts: Options, events: seq<Event>)
    requires s.destroyed && Invariant(s, opts)
    ensures Run(s, opts, events) == s
  {
    if events == [] {
    } else {
      assert Step(s, opts, events[0]) == s;
      DestroyedIsFinal(s, opts, events[1..]);
    }
  }

  lemma {:induction false} RunKeepsInvariant(s: State, opts: Options, events: seq<Event>)
    requires Invariant(s, opts)
    ensures Invariant(Run(s, opts, events), opts)
    decreases |events|
  {
    if events == [] {
    } else {
      StepKeepsInvariant(s, opts, events[0]);
      RunKeepsInvariant(Step(s, opts, events[0]), opts, events[1..]);
    }
  }

  lemma Associative(a: Text, b: Text, c: Text)
    ensures a + b + c == a + (b + c)
  {
  }

  lemma {:induction false} RunConserves(s: State, opts: Options, events: seq<Event>)
    requires Invariant(s, opts) && !s.destroyed
    ensures var t := Run(s, opts, events);
      Concat(t.flushed) + t.buffer == Concat(s.flushed) + s.buffer + AcceptedText(events)
    decreases |events|
  {
    if events == [] {
      assert Concat(s.flushed) + s.buffer + [] == Concat(s.flushed) + s.buffer;
    } else {
      var e, u := events[0], Step(s, opts, events[0]);
      StepKeepsInvariant(s, opts, e);
      StepConserves(s, opts, e);
      assert u.destroyed <==> e.Destroy?;
      hide Step, Invariant, Concat;
      if e.Destroy? {
        DestroyedIsFinal(u, opts, events[1..]);
      } else {
        RunConserves(u, opts, events[1..]);
        Associative(Concat(s.flushed) + s.buffer, Accepted(s, e), AcceptedText(events[1..]));
      }
    }
  }

  lemma {:induction false} RunNotices(s: State, opts: Options, events: seq<Event>)
    ensures var t := Run(s, opts, events);
      t.notices + (if s.idleFired then 1 else 0) <= s.notices + 1 + ActivityCount(events)
    decreases |events|
  {
    if events == [] {
    } else {
      RunNotices(Step(s, opts, events[0]), opts, events[1..]);
    }
  }

  /**
   * Over every run: the flushed chunks followed by the buffer are the text
   * accepted before the batcher was destroyed, no chunk is empty, the buffer
   * stays within the limit, pending text has an armed timer, and `onIdle` is
   * called at most once more than there were signs of activity.
   */
  lemma EveryRun(opts: Options, start: int, events: seq<Event>)
    ensures var t := Run(Initial(start), opts, events);
      && Invariant(t, opts)
      && Concat(t.flushed) + t.buffer == AcceptedText(events)
      && t.notices <= 1 + ActivityCount(events)
  {
    RunKeepsInvariant(Initial(start), opts, events);
    RunConserves(Initial(start), opts, events);
    RunNotices(Initial(start), opts, events);
    assert Concat(Initial(start).flushed) + Initial(start).buffer + AcceptedText(events) == AcceptedText(events);
  }

  lemma {:induction false} RunAppend(s: State, opts: Options, a: seq<Event>, b: seq<Event>)
    ensures Run(s, opts, a + b) == Run(Run(s, opts, a), opts, b)
    decreases |a|
  {
    if a == [] {
      assert a + b == b;
    } else {
      assert (a + b)[1..] == a[1..] + b;
      RunAppend(Step(s, opts, a[0]), opts, a[1..], b);
    }
  }

  lemma {:induction false} OnlyDestroyDestroys(s: State, opts: Options, events: seq<Event>)
    requires Destroy !in events && !s.destroyed
    ensures !Run(s, opts, events).destroyed
    decreases |events|
  {
    if events == [] {
    } else {
      assert events[0] in events;
      OnlyDestroyDestroys(Step(s, opts, events[0]), opts, events[1..]);
    }
  }

  /** A run closed the way a session closes it, by a flush and then a destroy, has delivered everything. */
  lemma FlushThenDestroyDeliversAll(opts: Options, start: int, events: seq<Event>, now: int)
    requires Destroy !in events
    ensures Concat(Run(Initial(start), opts, events + [FlushCall(now), Destroy]).flushed) == AcceptedText(events)
  {
    var s := Run(Initial(start), opts, events);
    EveryRun(opts, start, events);
    OnlyDestroyDestroys(Initial(start), opts, events);
    RunAppend(Initial(start), opts, events, [FlushCall(now), Destroy]);
    var t := Step(s, opts, FlushCall(now));
    assert [FlushCall(now), Destroy][1..] == [Destroy] && [Destroy][1..] == [];
    assert Run(Step(t, opts, Destroy), opts, []) == Step(t, opts, Destroy);
    assert Run(t, opts, [Destroy]) == Step(t, opts, Destroy);
    StepConserves(s, opts, FlushCall(now));
    assert Concat(t.flushed) + [] == Concat(t.flushed);
    assert Concat(s.flushed) + s.buffer + [] == Concat(s.flushed) + s.buffer;
  }

  // ----- What each call does, in terms of the fields -----

  /** The whole buffer was handed over as one chunk, or there was nothing to hand over. */
  predicate FlushedAll(s: State, t: State) {
    t.buffer == [] && t.flushed == if s.buffer == [] then s.flushed else s.flushed + [s.buffer]
  }

  /** An idle timer of its own is armed for `at`, and no other. */
  predicate IdleTimerAt(t: State, at: int) {
    t.idleTimer.Some? && t.timers == map[t.idleTimer.value := at]
  }

  lemma OneTimer(s: State, opts: Options)
    requires Invariant(s, opts)
    ensures s.timers == map[] || (s.idleTimer.Some? && s.timers.Keys == {s.idleTimer.value})
  {
    if id :| id in s.timers {
      assert s.timers.Keys == {s.idleTimer.value};
    } else {
      assert s.timers == map[];
    }
  }

  /**
   * Adding text to a live batcher: it joins the buffer, which is handed over
   * whole if it is then longer than the limit and kept otherwise; the idle timer
   * and the activity clock start over.
   */
  lemma AddTextDoes(s: State, opts: Options, text: Text, now: int)
    requires Invariant(s, opts) && !s.destroyed
    ensures var t, b := Step(s, opts, AddText(text, now)), s.buffer + text;
      && (if |b| > opts.immediateFlushLength then t.buffer == [] && t.flushed == s.flushed + [b]
          else t.buffer == b && t.flushed == s.flushed)
      && IdleTimerAt(t, now + opts.idleTimeoutMs)
      && t.lastActivity == now && !t.idleFired && t.notices == s.notices
  {
    OneTimer(s, opts);
  }

  /**
   * A tool use on a live batcher hands over whatever is pending, before the
   * prompt for the tool goes out, and counts as activity.
   */
  lemma ToolUseFlushes(s: State, opts: Options, now: int)
    requires Invariant(s, opts) && !s.destroyed
    ensures var t := Step(s, opts, ToolUse(now));
      && FlushedAll(s, t)
      && t.lastActivity == now && !t.idleFired && t.notices == s.notices
      && (if s.buffer == [] then t.idleTimer == s.idleTimer && t.timers == s.timers
          else IdleTimerAt(t, now + opts.idleTimeoutMs))
  {
    OneTimer(s, opts);
  }

  /** An explicit flush hands over whatever is pending and does not count as activity. */
  lemma FlushCallFlushes(s: State, opts: Options, now: int)
    requires Invariant(s, opts) && !s.destroyed
    ensures var t := Step(s, opts, FlushCall(now));
      && FlushedAll(s, t)
      && t.lastActivity == s.lastActivity && t.idleFired == s.idleFired && t.notices == s.notices
      && (if s.buffer == [] then t.idleTimer == s.idleTimer && t.timers == s.timers
          else IdleTimerAt(t, now + opts.idleTimeoutMs))
  {
    OneTimer(s, opts);
  }

  /** The idle timer, when it is due, hands over whatever is pending; it is then disarmed, or armed anew if there was something. */
  lemma IdleTimerFlushes(s: State, opts: Options, now: int)
    requires Invariant(s, opts) && IdleTimerDue(s, now)
    ensures var t := Step(s, opts, IdleTimerFires(now));
      && FlushedAll(s, t)
      && t.lastActivity == s.lastActivity && t.idleFired == s.idleFired && t.notices == s.notices
      && (if s.buffer == [] then t.timers == map[] else IdleTimerAt(t, now + opts.idleTimeoutMs))
  {
    OneTimer(s, opts);
  }

  /** Pending text of a live batcher is handed over by its timer at the latest `idleTimeoutMs` after the last text or tool use. */
  lemma PendingTextIsFlushedInTime(s: State, opts: Options, now: int)
    requires Invariant(s, opts) && !s.destroyed && s.buffer != [] && now >= s.lastActivity + opts.idleTimeoutMs
    ensures var t := Step(s, opts, IdleTimerFires(now));
      t.flushed == s.flushed + [s.buffer] && t.buffer == []
  {
    IdleTimerFlushes(s, opts, now);
  }

  /**
   * An activity check sends a notice exactly when the batcher is live, nothing
   * has happened for the period, and none was sent since the last activity; it
   * changes nothing else.
   */
  lemma NoticeExactlyWhen(s: State, opts: Options, now: int)
    requires Invariant(s, opts)
    ensures var t := Step(s, opts, ActivityCheck(now));
      var due := !s.destroyed && now - s.lastActivity >= opts.activityTimeoutMs && !s.idleFired;
      && t.notices == s.notices + (if due then 1 else 0)
      && t.idleFired == (s.idleFired || due)
      && t == s.(notices := t.notices, idleFired := t.idleFired)
  {
  }

  /** Destroying disarms both timers for good and hands over nothing. */
  lemma DestroyDoes(s: State, opts: Options)
    requires Invariant(s, opts)
    ensures var t := Step(s, opts, Destroy);
      && t.destroyed && t.timers == map[] && t.idleTimer == None && !t.activityTimer
      && t.flushed == s.flushed && t.buffer == s.buffer && t.notices == s.notices
  {
    OneTimer(s, opts);
  }

  /** A destroyed batcher does nothing on any call or callback. */
  lemma DestroyedDoesNothing(s: State, opts: Options, e: Event)
    requires Invariant(s, opts) && s.destroyed
    ensures Step(s, opts, e) == s
  {
  }

  /** At the start nothing is pending, the activity check runs and no idle timer is armed. */
  lemma StartsEmpty(now: int, opts: Options)
    ensures var s := Initial(now);
      && Invariant(s, opts)
      && s.buffer == [] && s.flushed == [] && s.notices == 0 && s.timers == map[]
      && !s.destroyed && s.activityTimer && s.lastActivity == now && !s.idleFired
  {
  }
}
