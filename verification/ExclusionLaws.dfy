/**
 * Sessions of one workspace exclude each other: exactly which steps keep at
 * most one live session per user and workspace, which keep the store equal to
 * the live sessions, and which abort a session.
 */
module ExclusionLaws {
  import opened Wrappers
  import opened QueryManagement
  import opened Scheduler
  import opened SchedulerLaws

  // ----- At most one live session per key -----

  predicate LiveUnder(m: Manager, q: int, u: User, c: Cwd) {
    0 <= q < |m.queries| && m.queries[q].phase.Live? && m.queries[q].user == u && m.queries[q].cwd == c
  }

  /** Sessions `p` and `q` are both live, under the same key. */
  predicate LivesBeside(m: Manager, p: int, q: int) {
    0 <= p < |m.queries| && m.queries[p].phase.Live? && LiveUnder(m, q, m.queries[p].user, m.queries[p].cwd)
  }

  ghost predicate OneLive(m: Manager) {
    forall p, q :: LivesBeside(m, p, q) ==> p == q
  }

  ghost predicate LiveAt(m: Manager, u: User, c: Cwd) {
    exists q :: LiveUnder(m, q, u, c)
  }

  /** The key under which a chat message of `u` starts a session: the user's workspace, if nothing is stored there. */
  function ChatStarts(s: Adapter, u: User): Option<(User, Cwd)> {
    var c := ActiveCwd(s, u);
    if c != "" && Lookup(s.manager.store, u, c) == None then Some((u, c)) else None
  }

  /** The key under which the step starts a session, if it starts one. */
  function StartsUnder(s: Adapter, e: Event): Option<(User, Cwd)> {
    match e
    case Deliver(msg, quoted) =>
      ChatStarts(if quoted.Some? then s.(active := s.active[msg.user := quoted.value]) else s, msg.user)
    case Drain(q) =>
      if s.running && CanDrain(s.manager, q) then ChatStarts(s, NextItem(s.manager, q).user) else None
    case _ => None
  }

  /** The step starts a session under a key at which a session is still live. */
  ghost predicate StartsTwice(s: Adapter, e: Event) {
    StartsUnder(s, e).Some? && LiveAt(s.manager, StartsUnder(s, e).value.0, StartsUnder(s, e).value.1)
  }

  /** No session is new, none has moved to another key, and none has come back to life. */
  ghost predicate NoneStarted(m: Manager, r: Manager) {
    && |r.queries| == |m.queries|
    && forall q :: 0 <= q < |m.queries| ==>
      && r.queries[q].user == m.queries[q].user && r.queries[q].cwd == m.queries[q].cwd
      && (r.queries[q].phase.Live? ==> m.queries[q].phase.Live?)
  }

  /** One session is new and live, under the given key; the others live on. */
  ghost predicate OneStarted(m: Manager, r: Manager, key: (User, Cwd)) {
    && |r.queries| == |m.queries| + 1
    && LiveUnder(r, |m.queries|, key.0, key.1)
    && forall q :: 0 <= q < |m.queries| ==>
      && r.queries[q].user == m.queries[q].user && r.queries[q].cwd == m.queries[q].cwd
      && r.queries[q].phase.Live? == m.queries[q].phase.Live?
  }

  ghost predicate StartIs(m: Manager, r: Manager, key: Option<(User, Cwd)>) {
    if key.Some? then OneStarted(m, r, key.value) else NoneStarted(m, r)
  }

  lemma ChatStartIs(s: Adapter, msg: Message)
    requires Valid(s.manager)
    ensures StartIs(s.manager, HandleChat(s, msg).manager, ChatStarts(s, msg.user))
  {
  }

  lemma DrainStartIs(s: Adapter, q: nat)
    requires Valid(s.manager) && s.running && CanDrain(s.manager, q)
    ensures StartIs(s.manager, DrainOne(s, q).manager, StartsUnder(s, Drain(q)))
  {
    TakeOutKeeps(s.manager, q);
    ChatStartIs(s.(manager := TakeOut(s.manager, q)), NextItem(s.manager, q));
  }

  lemma SameLoadStartsNone(m: Manager, r: Manager)
    requires SameLoad(m.queries, r.queries)
    ensures NoneStarted(m, r)
  {
  }

  lemma FinishStartsNone(m: Manager, q: nat)
    requires Sound(m) && q < |m.queries|
    ensures NoneStarted(m, FinishSession(m, q))
  {
    RemoveQuiet(m, m.queries[q].user, m.queries[q].cwd);
  }

  /** What every step does to the set of live sessions. */
  lemma StepStartIs(s: Adapter, e: Event)
    requires Sound(s.manager)
    ensures StartIs(s.manager, Step(s, e).manager, StartsUnder(s, e))
  {
    var m := s.manager;
    match e
    case Deliver(msg, quoted) =>
      ChatStartIs(if quoted.Some? then s.(active := s.active[msg.user := quoted.value]) else s, msg);
    case Drain(q) =>
      if s.running && CanDrain(m, q) {
        DrainStartIs(s, q);
      }
    case Finish(q) =>
      if q < |m.queries| {
        FinishStartsNone(m, q);
      }
    case Cd(_, _) =>
    case _ =>
      QuietStep(s, e);
      SameLoadStartsNone(m, Step(s, e).manager);
  }

  lemma NoneStartedOneLive(m: Manager, r: Manager)
    requires OneLive(m) && NoneStarted(m, r)
    ensures OneLive(r)
  {
    forall p, q | LivesBeside(r, p, q)
      ensures p == q
    {
      assert LivesBeside(m, p, q);
    }
  }

  lemma OneStartedOneLive(m: Manager, r: Manager, key: (User, Cwd))
    requires OneLive(m) && OneStarted(m, r, key)
    ensures OneLive(r) <==> !LiveAt(m, key.0, key.1)
  {
    var n := |m.queries|;
    if q :| LiveUnder(m, q, key.0, key.1) {
      assert LivesBeside(r, n, q);
    } else {
      forall p, q | LivesBeside(r, p, q)
        ensures p == q
      {
        if p < n && q < n {
          assert LivesBeside(m, p, q);
        } else if p < n {
          assert LiveUnder(m, p, key.0, key.1);
        } else if q < n {
          assert LiveUnder(m, q, key.0, key.1);
        }
      }
    }
  }

  /**
   * From a state with at most one live session per user and workspace, a step
   * leads to another such state exactly when it does not start a session under
   * a key at which one is still live.
   */
  lemma OneLiveExactlyWhen(s: Adapter, e: Event)
    requires Sound(s.manager) && OneLive(s.manager)
    ensures OneLive(Step(s, e).manager) <==> !StartsTwice(s, e)
  {
    StepStartIs(s, e);
    if StartsUnder(s, e).Some? {
      OneStartedOneLive(s.manager, Step(s, e).manager, StartsUnder(s, e).value);
    } else {
      NoneStartedOneLive(s.manager, Step(s, e).manager);
    }
  }

  /** The rule holds in every state of the run. */
  ghost predicate AlwaysOneLive(s: Adapter, events: seq<Event>)
    decreases |events|
  {
    OneLive(s.manager) && (events == [] || AlwaysOneLive(Step(s, events[0]), events[1..]))
  }

  ghost predicate NeverStartsTwice(s: Adapter, events: seq<Event>)
    decreases |events|
  {
    events == [] || (!StartsTwice(s, events[0]) && NeverStartsTwice(Step(s, events[0]), events[1..]))
  }

  /** A run keeps the rule throughout exactly when none of its steps starts a session where one is still live. */
  lemma {:induction false} RunOneLive(s: Adapter, events: seq<Event>)
    requires Sound(s.manager) && OneLive(s.manager)
    ensures AlwaysOneLive(s, events) <==> NeverStartsTwice(s, events)
    decreases |events|
  {
    if events == [] {
    } else {
      var t := Step(s, events[0]);
      OneLiveExactlyWhen(s, events[0]);
      StepSound(s, events[0]);
      if OneLive(t.manager) {
        RunOneLive(t, events[1..]);
      }
    }
  }

  /** From the start: at most one session is ever live under each key exactly when none is started where one is still live. */
  lemma OneLiveFromTheStart(home: Cwd, events: seq<Event>)
    ensures AlwaysOneLive(Initial(home), events) <==> NeverStartsTwice(Initial(home), events)
  {
    RunOneLive(Initial(home), events);
  }

  // ----- The store is the set of live sessions -----

  /** The entries of the store are exactly the live sessions. */
  ghost predicate Exclusive(m: Manager) {
    forall q :: 0 <= q < |m.queries| ==> (m.queries[q].phase.Live? <==> Stored(m, q))
  }

  lemma ExclusiveIsOneLive(m: Manager)
    requires Exclusive(m)
    ensures OneLive(m)
    ensures forall u, c :: LiveAt(m, u, c) ==> Lookup(m.store, u, c).Some?
  {
    forall p, q | LivesBeside(m, p, q)
      ensures p == q
    {
      assert Stored(m, p) && Stored(m, q);
    }
    forall u, c | LiveAt(m, u, c)
      ensures Lookup(m.store, u, c).Some?
    {
      var q :| LiveUnder(m, q, u, c);
      assert Stored(m, q);
    }
  }

  /** The step takes no entry of a live session out of the store: no close of a workspace in use, no shutdown during one. */
  ghost predicate Orderly(s: Adapter, e: Event) {
    match e
    case Close(u, target, _) => Lookup(s.manager.store, u, target) == None
    case Shutdown => !s.running || s.manager.store == map[]
    case _ => true
  }

  ghost predicate OrderlyRun(s: Adapter, events: seq<Event>)
    decreases |events|
  {
    events == [] || (Orderly(s, events[0]) && OrderlyRun(Step(s, events[0]), events[1..]))
  }

  /** A table in which the same sessions are live and stored. */
  ghost predicate SameLife(m: Manager, r: Manager) {
    && r.store == m.store && |r.queries| == |m.queries|
    && forall q :: 0 <= q < |m.queries| ==>
      && r.queries[q].user == m.queries[q].user && r.queries[q].cwd == m.queries[q].cwd
      && r.queries[q].phase.Live? == m.queries[q].phase.Live?
  }

  lemma SameLifeExclusive(m: Manager, r: Manager)
    requires SameLife(m, r) && Exclusive(m)
    ensures Exclusive(r)
  {
    forall q | 0 <= q < |r.queries|
      ensures r.queries[q].phase.Live? <==> Stored(r, q)
    {
      assert m.queries[q].phase.Live? <==> Stored(m, q);
    }
  }

  lemma StartExclusive(m: Manager, u: User, c: Cwd, prompt: Message)
    requires Sound(m) && Exclusive(m) && Lookup(m.store, u, c) == None
    ensures Exclusive(Start(m, u, c, prompt))
  {
    var r := Start(m, u, c, prompt);
    forall q | 0 <= q < |r.queries|
      ensures r.queries[q].phase.Live? <==> Stored(r, q)
    {
      if q < |m.queries| {
        assert m.queries[q].phase.Live? <==> Stored(m, q);
        assert Stored(r, q) <==> Stored(m, q);
      }
    }
  }

  lemma ChatExclusive(s: Adapter, msg: Message)
    requires Sound(s.manager) && Exclusive(s.manager)
    ensures Exclusive(HandleChat(s, msg).manager)
  {
    var cwd := ActiveCwd(s, msg.user);
    if ChatStarts(s, msg.user).Some? {
      hide Exclusive, Start;
      StartExclusive(s.manager, msg.user, cwd, msg);
    } else {
      SameLifeExclusive(s.manager, HandleChat(s, msg).manager);
    }
  }

  lemma DrainExclusive(s: Adapter, q: nat)
    requires Sound(s.manager) && Exclusive(s.manager) && CanDrain(s.manager, q)
    ensures Exclusive(DrainOne(s, q).manager)
  {
    SameLifeExclusive(s.manager, TakeOut(s.manager, q));
    TakeOutSound(s.manager, q);
    ChatExclusive(s.(manager := TakeOut(s.manager, q)), NextItem(s.manager, q));
  }

  lemma FinishExclusive(m: Manager, q: nat)
    requires Sound(m) && Exclusive(m) && q < |m.queries| && m.queries[q].phase.Live?
    ensures Exclusive(FinishSession(m, q))
  {
    var r := FinishSession(m, q);
    assert Stored(m, q);
    forall p | 0 <= p < |r.queries|
      ensures r.queries[p].phase.Live? <==> Stored(r, p)
    {
      assert m.queries[p].phase.Live? <==> Stored(m, p);
      assert Stored(r, p) <==> Stored(m, p) && p != q;
    }
  }

  /** Closing a workspace keeps the store equal to the live sessions exactly when no session is stored there. */
  lemma CloseKeepsExclusion(s: Adapter, u: User, target: Cwd, next: Cwd)
    requires Sound(s.manager) && Exclusive(s.manager)
    ensures Exclusive(Step(s, Close(u, target, next)).manager) <==> Lookup(s.manager.store, u, target) == None
  {
    var m, r := s.manager, Step(s, Close(u, target, next)).manager;
    var found := Lookup(m.store, u, target);
    if found.Some? {
      assert Stored(m, found.value);
      assert r.queries[found.value].phase.Live? && !Stored(r, found.value);
    }
  }

  lemma ShutdownExclusion(s: Adapter)
    requires Sound(s.manager) && Exclusive(s.manager)
    ensures Exclusive(OnShutdown(s).manager) <==> !s.running || s.manager.store == map[]
  {
    var m, r := s.manager, OnShutdown(s).manager;
    if s.running {
      ShutdownQuiet(m);
      if u :| u in m.store {
        assert m.store[u] != map[];
        var c :| c in m.store[u];
        var q := m.store[u][c];
        assert Lookup(m.store, u, c) == Some(q) && Stored(m, q);
        assert r.queries[q].phase.Live? && !Stored(r, q);
      } else {
        assert m.store == map[];
        forall q | 0 <= q < |r.queries|
          ensures r.queries[q].phase.Live? <==> Stored(r, q)
        {
          assert !Stored(m, q) && !Stored(r, q);
        }
      }
    }
  }

  /** A step keeps the store equal to the live sessions exactly when it is orderly. */
  lemma ExclusiveExactlyWhen(s: Adapter, e: Event)
    requires Sound(s.manager) && Exclusive(s.manager)
    ensures Exclusive(Step(s, e).manager) <==> Orderly(s, e)
  {
    var m := s.manager;
    match e
    case Deliver(msg, quoted) =>
      ChatExclusive(if quoted.Some? then s.(active := s.active[msg.user := quoted.value]) else s, msg);
    case Finish(q) =>
      if q < |m.queries| && m.queries[q].phase.Live? {
        FinishExclusive(m, q);
      }
    case Drain(q) =>
      if s.running && CanDrain(m, q) {
        DrainExclusive(s, q);
      }
    case Cd(_, _) =>
    case Close(u, target, next) =>
      CloseKeepsExclusion(s, u, target, next);
    case Shutdown =>
      ShutdownExclusion(s);
    case Ask(q) =>
      if q < |m.queries| {
        AskQuiet(m, q);
        SameLifeExclusive(m, AskApproval(m, q));
      }
    case Answer(u, allow) =>
      AnswerQuiet(m, u, ActiveCwd(s, u), allow);
      SameLifeExclusive(m, AnswerApproval(m, u, ActiveCwd(s, u), allow));
    case TimerFires(a) =>
      if CanExpire(m, a) {
        ExpireQuiet(m, a);
        SameLifeExclusive(m, ExpireApproval(m, a));
      }
  }

  ghost predicate AlwaysExclusive(s: Adapter, events: seq<Event>)
    decreases |events|
  {
    Exclusive(s.manager) && (events == [] || AlwaysExclusive(Step(s, events[0]), events[1..]))
  }

  /** Throughout a run the store is the set of live sessions exactly when every step of the run is orderly. */
  lemma {:induction false} RunExclusive(s: Adapter, events: seq<Event>)
    requires Sound(s.manager) && Exclusive(s.manager)
    ensures AlwaysExclusive(s, events) <==> OrderlyRun(s, events)
    ensures OrderlyRun(s, events) ==> Exclusive(Run(s, events).manager)
    decreases |events|
  {
    if events == [] {
    } else {
      var t := Step(s, events[0]);
      ExclusiveExactlyWhen(s, events[0]);
      StepSound(s, events[0]);
      if Exclusive(t.manager) {
        RunExclusive(t, events[1..]);
      }
    }
  }

  /** Where the store is the set of live sessions, no step starts a second one; so an orderly run never does. */
  lemma {:induction false} OrderlyNeverStartsTwice(s: Adapter, events: seq<Event>)
    requires Sound(s.manager) && Exclusive(s.manager) && OrderlyRun(s, events)
    ensures NeverStartsTwice(s, events)
    decreases |events|
  {
    if events == [] {
    } else {
      ExclusiveIsOneLive(s.manager);
      ExclusiveExactlyWhen(s, events[0]);
      StepSound(s, events[0]);
      OrderlyNeverStartsTwice(Step(s, events[0]), events[1..]);
    }
  }

  // ----- Which steps abort a session -----

  /** The step closes the workspace under which `q` is stored, or shuts the adapter down while `q` is stored. */
  ghost predicate Aborts(s: Adapter, e: Event, q: nat)
    requires q < |s.manager.queries|
  {
    match e
    case Close(u, target, _) => Lookup(s.manager.store, u, target) == Some(q)
    case Shutdown => s.running && Stored(s.manager, q)
    case _ => false
  }

  lemma ChatAbortsNone(s: Adapter, msg: Message, q: nat)
    requires q < |s.manager.queries|
    ensures q < |HandleChat(s, msg).manager.queries|
    ensures HandleChat(s, msg).manager.queries[q].aborted == s.manager.queries[q].aborted
  {
  }

  lemma CloseAborts(m: Manager, u: User, c: Cwd, q: nat)
    requires q < |m.queries|
    ensures |Abort(m, u, c).queries| == |m.queries|
    ensures Abort(m, u, c).queries[q].aborted == (m.queries[q].aborted || Lookup(m.store, u, c) == Some(q))
  {
  }

  lemma ShutdownAborts(s: Adapter, q: nat)
    requires q < |s.manager.queries|
    ensures var r := OnShutdown(s).manager;
      |r.queries| == |s.manager.queries|
      && r.queries[q].aborted == (s.manager.queries[q].aborted || (s.running && Stored(s.manager, q)))
  {
  }

  lemma FinishAbortsNone(m: Manager, p: nat, q: nat)
    requires p < |m.queries| && q < |m.queries|
    ensures |FinishSession(m, p).queries| == |m.queries|
    ensures FinishSession(m, p).queries[q].aborted == m.queries[q].aborted
  {
  }

  /**
   * A step aborts a session exactly when it closes its workspace or shuts down
   * while it is stored.  Starting a session never aborts another one.
   */
  lemma AbortedExactlyWhen(s: Adapter, e: Event, q: nat)
    requires Sound(s.manager) && q < |s.manager.queries|
    ensures q < |Step(s, e).manager.queries|
    ensures Step(s, e).manager.queries[q].aborted <==> s.manager.queries[q].aborted || Aborts(s, e, q)
  {
    hide HandleChat, FinishSession, Abort, OnShutdown, AskApproval, AnswerApproval, ExpireApproval, Sound;
    var m := s.manager;
    match e
    case Deliver(msg, quoted) =>
      ChatAbortsNone(if quoted.Some? then s.(active := s.active[msg.user := quoted.value]) else s, msg, q);
    case Finish(p) =>
      if p < |m.queries| && m.queries[p].phase.Live? {
        FinishAbortsNone(m, p, q);
      }
    case Drain(p) =>
      if s.running && CanDrain(m, p) {
        ChatAbortsNone(s.(manager := TakeOut(m, p)), NextItem(m, p), q);
      }
    case Cd(_, _) =>
    case Close(u, target, next) =>
      CloseAborts(m, u, target, q);
    case Shutdown =>
      ShutdownAborts(s, q);
    case Ask(p) =>
      if p < |m.queries| {
        AskQuiet(m, p);
      }
    case Answer(u, allow) =>
      AnswerQuiet(m, u, ActiveCwd(s, u), allow);
    case TimerFires(a) =>
      if CanExpire(m, a) {
        ExpireQuiet(m, a);
      }
  }

  /** A session of an orderly run is aborted only if it was from the start. */
  lemma {:induction false} OrderlyRunsAbortNone(s: Adapter, events: seq<Event>)
    requires Sound(s.manager) && OrderlyRun(s, events)
    requires forall q :: 0 <= q < |s.manager.queries| ==> !s.manager.queries[q].aborted
    ensures var r := Run(s, events).manager; forall q :: 0 <= q < |r.queries| ==> !r.queries[q].aborted
    decreases |events|
  {
    if events == [] {
    } else {
      var t := Step(s, events[0]);
      StepSound(s, events[0]);
      NewcomersAreNotAborted(s, events[0]);
      forall q | 0 <= q < |t.manager.queries|
        ensures !t.manager.queries[q].aborted
      {
        if q < |s.manager.queries| {
          AbortedExactlyWhen(s, events[0], q);
        }
      }
      OrderlyRunsAbortNone(t, events[1..]);
      assert Run(s, events) == Run(t, events[1..]);
    }
  }

  lemma NewcomersAreNotAborted(s: Adapter, e: Event)
    requires Sound(s.manager)
    ensures var m, r := s.manager, Step(s, e).manager;
      forall q :: |m.queries| <= q < |r.queries| ==> !r.queries[q].aborted
  {
    StepStartIs(s, e);
  }

  /**
   * In every run from the start that closes no workspace in use and does not
   * shut down while a session is stored: at most one session is live per user
   * and workspace, it is the stored one, and it was never aborted.
   */
  lemma SessionsExclude(home: Cwd, events: seq<Event>, p: nat, q: nat)
    requires OrderlyRun(Initial(home), events)
    requires var queries := Run(Initial(home), events).manager.queries;
      p < |queries| && q < |queries| && queries[p].phase.Live? && queries[q].phase.Live?
      && queries[p].user == queries[q].user && queries[p].cwd == queries[q].cwd
    ensures p == q && Stored(Run(Initial(home), events).manager, q)
    ensures !Run(Initial(home), events).manager.queries[q].aborted
  {
    RunExclusive(Initial(home), events);
    OrderlyRunsAbortNone(Initial(home), events);
    var m := Run(Initial(home), events).manager;
    assert Stored(m, p) && Stored(m, q);
  }

  // ----- Runs that break the rule -----

  /** `/close` on a running session, back with `/cd`, and a new message: two live sessions in one workspace. */
  lemma CloseBreaksExclusion(u: User, c: Cwd, first: Message, second: Message)
    requires c != "" && first.user == u && second.user == u
    ensures var events := [Deliver(first, None), Close(u, c, ""), Cd(u, c), Deliver(second, None)];
      var m := Run(Initial(c), events).manager;
      && |m.queries| == 2
      && m.queries[0].phase.Live? && m.queries[1].phase.Live?
      && m.queries[0].user == m.queries[1].user == u && m.queries[0].cwd == m.queries[1].cwd == c
      && Lookup(m.store, u, c) == Some(1)
  {
    var s0 := Initial(c);
    var s1 := Step(s0, Deliver(first, None));
    var s2 := Step(s1, Close(u, c, ""));
    var s3 := Step(s2, Cd(u, c));
    var s4 := Step(s3, Deliver(second, None));
    assert Lookup(s1.manager.store, u, c) == Some(0);
    assert Lookup(s2.manager.store, u, c) == None;
    assert |s4.manager.queries| == 2;
    assert Run(s4, []) == s4;
    assert Run(s3, [Deliver(second, None)]) == s4;
    assert [Cd(u, c), Deliver(second, None)][1..] == [Deliver(second, None)];
    assert Run(s2, [Cd(u, c), Deliver(second, None)]) == s4;
    assert [Close(u, c, ""), Cd(u, c), Deliver(second, None)][1..] == [Cd(u, c), Deliver(second, None)];
    assert Run(s1, [Close(u, c, ""), Cd(u, c), Deliver(second, None)]) == s4;
    assert [Deliver(first, None), Close(u, c, ""), Cd(u, c), Deliver(second, None)][1..]
        == [Close(u, c, ""), Cd(u, c), Deliver(second, None)];
  }

  /** A message that arrives after a shutdown starts a second session where the first is still live. */
  lemma ShutdownBreaksExclusion(u: User, c: Cwd, first: Message, second: Message)
    requires c != "" && first.user == u && second.user == u
    ensures var events := [Deliver(first, None), Shutdown, Deliver(second, None)];
      var m := Run(Initial(c), events).manager;
      && |m.queries| == 2
      && m.queries[0].phase.Live? && m.queries[1].phase.Live?
      && m.queries[0].user == m.queries[1].user == u && m.queries[0].cwd == m.queries[1].cwd == c
  {
    var s1 := Step(Initial(c), Deliver(first, None));
    var s2 := Step(s1, Shutdown);
    var s3 := Step(s2, Deliver(second, None));
    assert s1.manager.queries == [Query(u, c, first, [], Live, false, None)];
    assert |s2.manager.queries| == 1 && s2.manager.store == map[];
    assert |s3.manager.queries| == 2;
    assert [Deliver(second, None)][1..] == [] && Run(s3, []) == s3;
    assert Run(s2, [Deliver(second, None)]) == s3;
    assert [Shutdown, Deliver(second, None)][1..] == [Deliver(second, None)];
    assert Run(s1, [Shutdown, Deliver(second, None)]) == s3;
    assert [Deliver(first, None), Shutdown, Deliver(second, None)][1..] == [Shutdown, Deliver(second, None)];
  }

  // ----- The end of a closed session -----

  /**
   * Entries are removed by key: the end of session `q` takes another session out
   * of the store exactly when that one is stored under the key of `q`.
   */
  lemma EndTakesEntryExactlyWhen(s: Adapter, q: nat, p: nat)
    requires Sound(s.manager) && q < |s.manager.queries| && s.manager.queries[q].phase.Live?
    requires p != q && Stored(s.manager, p)
    ensures !Stored(Step(s, Finish(q)).manager, p) <==>
      Lookup(s.manager.store, s.manager.queries[q].user, s.manager.queries[q].cwd) == Some(p)
  {
    var m := s.manager;
    RemoveQuiet(m, m.queries[q].user, m.queries[q].cwd);
  }

  lemma EndKeepsOthers(m: Manager, q: nat, p: nat)
    requires q < |m.queries| && p < |m.queries| && p != q
    ensures |FinishSession(m, q).queries| == |m.queries| && FinishSession(m, q).queries[p].phase == m.queries[p].phase
  {
  }

  /** Deliver, close, back with `/cd`, deliver, and the end of the first session: the second one is live but not stored. */
  lemma EndOfClosedSessionExample(u: User, c: Cwd, first: Message, second: Message)
    requires c != "" && first.user == u && second.user == u
    ensures var events := [Deliver(first, None), Close(u, c, ""), Cd(u, c), Deliver(second, None)];
      var before := Run(Initial(c), events);
      var after := Step(before, Finish(0)).manager;
      && |after.queries| == 2
      && Stored(before.manager, 1) && after.queries[1].phase.Live? && !Stored(after, 1)
  {
    var events := [Deliver(first, None), Close(u, c, ""), Cd(u, c), Deliver(second, None)];
    var before := Run(Initial(c), events);
    CloseBreaksExclusion(u, c, first, second);
    RunSound(Initial(c), events);
    EndTakesEntryExactlyWhen(before, 0, 1);
    hide Run, Sound;
    EndKeepsOthers(before.manager, 0, 1);
  }
}
