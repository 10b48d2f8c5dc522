/**
 * Which way an approval is decided, by whom and when: granted only by `/approve`
 * in the workspace that waits for it, denied by `/deny`, its time-out or a
 * shutdown, and not decided by anything else.
 */
module DecisionLaws {
  import opened Wrappers
  import opened QueryManagement
  import opened Scheduler
  import opened SchedulerLaws
  import opened ApprovalLaws

  /** User `u` answers in a workspace whose session waits for `a`. */
  ghost predicate Answers(s: Adapter, u: User, a: nat) {
    ActiveCwd(s, u) != "" && AwaitedAt(s.manager, u, ActiveCwd(s, u), a)
  }

  /** How the step decides approval `a`, if it does. */
  ghost function Decision(s: Adapter, e: Event, a: nat): Option<bool>
    requires a < |s.manager.approvals|
  {
    match e
    case Answer(u, allow) => if Answers(s, u, a) then Some(allow) else None
    case TimerFires(b) => if b == a && s.manager.approvals[a].armed then Some(false) else None
    case Shutdown => if s.running && Awaited(s.manager, a) then Some(false) else None
    case _ => None
  }

  /** From `m` to `r` approval `a` was decided that way, or not at all. */
  ghost predicate DecidedAs(m: Manager, r: Manager, a: nat, decision: Option<bool>)
    requires a < |m.approvals|
  {
    && a < |r.approvals|
    && r.approvals[a].decisions == m.approvals[a].decisions + (if decision.Some? then [decision.value] else [])
  }

  /** Clearing or disarming decides nothing. */
  lemma ClearDecidesNone(m: Manager, u: User, c: Cwd, a: nat)
    requires a < |m.approvals|
    ensures DecidedAs(m, ClearPendingApproval(m, u, c), a, None)
  {
  }

  lemma AnswerDecidesAs(s: Adapter, u: User, allow: bool, a: nat)
    requires Valid(s.manager) && a < |s.manager.approvals|
    ensures DecidedAs(s.manager, OnAnswer(s, u, allow).manager, a, Decision(s, Answer(u, allow), a))
  {
    hide ClearPendingApproval;
    var found := Lookup(s.manager.store, u, ActiveCwd(s, u));
    if found.Some? && found.value < |s.manager.queries| && s.manager.queries[found.value].pending.Some?
       && s.manager.queries[found.value].pending.value < |s.manager.approvals|
    {
      ClearDecidesNone(Resolve(s.manager, s.manager.queries[found.value].pending.value, allow), u, ActiveCwd(s, u), a);
    }
  }

  lemma TimerDecidesAs(s: Adapter, b: nat, a: nat)
    requires Valid(s.manager) && a < |s.manager.approvals|
    ensures DecidedAs(s.manager, OnTimer(s, b).manager, a, Decision(s, TimerFires(b), a))
  {
    hide ClearPendingApproval;
    if CanExpire(s.manager, b) {
      var asker := s.manager.queries[s.manager.approvals[b].asker];
      var disarmed := Disarm(s.manager, Some(b));
      ClearDecidesNone(disarmed, asker.user, asker.cwd, a);
      ClearDecidesNone(disarmed, asker.user, asker.cwd, b);
      assert OnTimer(s, b).manager == Resolve(ClearPendingApproval(disarmed, asker.user, asker.cwd), b, false);
    }
  }

  lemma ShutdownDecidesAs(s: Adapter, a: nat)
    requires a < |s.manager.approvals|
    ensures DecidedAs(s.manager, OnShutdown(s).manager, a, Decision(s, Shutdown, a))
  {
  }

  lemma AskDecidesNone(s: Adapter, q: nat, a: nat)
    requires a < |s.manager.approvals|
    ensures DecidedAs(s.manager, OnAsk(s, q).manager, a, None)
  {
  }

  lemma FinishDecidesNone(s: Adapter, q: nat, a: nat)
    requires a < |s.manager.approvals|
    ensures DecidedAs(s.manager, OnFinish(s, q).manager, a, None)
  {
  }

  lemma CloseDecidesNone(s: Adapter, u: User, target: Cwd, next: Cwd, a: nat)
    requires a < |s.manager.approvals|
    ensures DecidedAs(s.manager, OnClose(s, u, target, next).manager, a, None)
  {
  }

  lemma DrainDecidesNone(s: Adapter, q: nat, a: nat)
    requires Valid(s.manager) && a < |s.manager.approvals|
    ensures DecidedAs(s.manager, OnDrain(s, q).manager, a, None)
  {
    if s.running && CanDrain(s.manager, q) {
      TakeOutKeeps(s.manager, q);
      ChatLosesNone(s.(manager := TakeOut(s.manager, q)), NextItem(s.manager, q));
    }
  }

  /**
   * Every step decides an approval exactly this way: an answer, if the user's
   * active workspace waits for it, grants on `/approve` and denies on `/deny`;
   * its own armed timer and a shutdown that finds it awaited deny; no other step
   * decides it.
   */
  lemma DecidedExactlyWhen(s: Adapter, e: Event, a: nat)
    requires Valid(s.manager) && a < |s.manager.approvals|
    ensures DecidedAs(s.manager, Step(s, e).manager, a, Decision(s, e, a))
  {
    hide OnFinish, OnDrain, OnClose, OnAsk, OnAnswer, OnTimer, OnShutdown, HandleChat, Valid, DecidedAs;
    match e
    case Deliver(msg, quoted) =>
      DeliverDecidesNone(s, msg, quoted, a);
    case Finish(q) => FinishDecidesNone(s, q, a);
    case Drain(q) => DrainDecidesNone(s, q, a);
    case Cd(u, c) =>
      CdDecidesNone(s, u, c, a);
    case Close(u, target, next) => CloseDecidesNone(s, u, target, next, a);
    case Ask(q) => AskDecidesNone(s, q, a);
    case Answer(u, allow) => AnswerDecidesAs(s, u, allow, a);
    case TimerFires(b) => TimerDecidesAs(s, b, a);
    case Shutdown => ShutdownDecidesAs(s, a);
  }

  lemma DeliverDecidesNone(s: Adapter, msg: Message, quoted: Option<Cwd>, a: nat)
    requires Valid(s.manager) && a < |s.manager.approvals|
    ensures DecidedAs(s.manager, OnDeliver(s, msg, quoted).manager, a, None)
  {
    ChatLosesNone(if quoted.Some? then s.(active := s.active[msg.user := quoted.value]) else s, msg);
  }

  lemma CdDecidesNone(s: Adapter, u: User, c: Cwd, a: nat)
    requires a < |s.manager.approvals|
    ensures DecidedAs(s.manager, OnCd(s, u, c).manager, a, None)
  {
  }

  /** An answer to an awaited approval is its one decision, disarms its timer and leaves nothing pending in that workspace. */
  lemma AnswerIsTheDecision(s: Adapter, u: User, allow: bool, a: nat)
    requires Valid(s.manager) && Answers(s, u, a)
    ensures a < |s.manager.approvals| && a < |Step(s, Answer(u, allow)).manager.approvals|
    ensures Step(s, Answer(u, allow)).manager.approvals[a].decisions == [allow]
    ensures !Step(s, Answer(u, allow)).manager.approvals[a].armed
    ensures forall b :: !AwaitedAt(Step(s, Answer(u, allow)).manager, u, ActiveCwd(s, u), b)
  {
    assert PendingArmedAt(s.manager, Lookup(s.manager.store, u, ActiveCwd(s, u)).value);
  }

  /** A time-out of an armed approval is its one decision: a denial. */
  lemma TimeOutDenies(s: Adapter, a: nat)
    requires Valid(s.manager) && a < |s.manager.approvals| && s.manager.approvals[a].armed
    ensures a < |Step(s, TimerFires(a)).manager.approvals|
    ensures Step(s, TimerFires(a)).manager.approvals[a].decisions == [false]
  {
    DecidedExactlyWhen(s, TimerFires(a), a);
  }

  /** A shutdown denies every awaited approval. */
  lemma ShutdownDenies(s: Adapter, a: nat)
    requires Valid(s.manager) && s.running && Awaited(s.manager, a)
    ensures a < |s.manager.approvals| && a < |Step(s, Shutdown).manager.approvals|
    ensures Step(s, Shutdown).manager.approvals[a].decisions == [false]
  {
    var q :| Stored(s.manager, q) && s.manager.queries[q].pending == Some(a);
    assert PendingArmedAt(s.manager, q);
    DecidedExactlyWhen(s, Shutdown, a);
  }

  /** From `m` to `r` either nothing is asked, or one approval, undecided and with its timer armed. */
  ghost predicate AsksOne(m: Manager, r: Manager, asks: bool) {
    && |r.approvals| == |m.approvals| + (if asks then 1 else 0)
    && (asks ==> r.approvals[|m.approvals|].decisions == [] && r.approvals[|m.approvals|].armed)
  }

  lemma ChatAsksNone(s: Adapter, msg: Message)
    requires Valid(s.manager)
    ensures AsksOne(s.manager, HandleChat(s, msg).manager, false)
  {
    ChatLosesNone(s, msg);
  }

  lemma DrainAsksNone(s: Adapter, q: nat)
    requires Valid(s.manager)
    ensures AsksOne(s.manager, OnDrain(s, q).manager, false)
  {
    hide HandleChat;
    if s.running && CanDrain(s.manager, q) {
      TakeOutKeeps(s.manager, q);
      ChatAsksNone(s.(manager := TakeOut(s.manager, q)), NextItem(s.manager, q));
    }
  }

  lemma AskAsks(s: Adapter, q: nat)
    requires Valid(s.manager)
    ensures AsksOne(s.manager, OnAsk(s, q).manager, q < |s.manager.queries| && s.manager.queries[q].phase.Live?)
  {
  }

  lemma FinishAsksNone(s: Adapter, q: nat)
    ensures AsksOne(s.manager, OnFinish(s, q).manager, false)
  {
  }

  lemma CloseAsksNone(s: Adapter, u: User, target: Cwd, next: Cwd)
    ensures AsksOne(s.manager, OnClose(s, u, target, next).manager, false)
  {
  }

  lemma AnswerAsksNone(s: Adapter, u: User, allow: bool)
    ensures AsksOne(s.manager, OnAnswer(s, u, allow).manager, false)
  {
  }

  lemma TimerAsksNone(s: Adapter, a: nat)
    ensures AsksOne(s.manager, OnTimer(s, a).manager, false)
  {
  }

  lemma ShutdownAsksNone(s: Adapter)
    ensures AsksOne(s.manager, OnShutdown(s).manager, false)
  {
  }

  lemma StepAsks(s: Adapter, e: Event)
    requires Valid(s.manager)
    ensures AsksOne(s.manager, Step(s, e).manager,
                    e.Ask? && e.q < |s.manager.queries| && s.manager.queries[e.q].phase.Live?)
  {
    hide OnFinish, OnDrain, OnClose, OnAsk, OnAnswer, OnTimer, OnShutdown, HandleChat, Valid;
    match e
    case Deliver(msg, quoted) =>
      ChatAsksNone(if quoted.Some? then s.(active := s.active[msg.user := quoted.value]) else s, msg);
    case Finish(q) => FinishAsksNone(s, q);
    case Drain(q) => DrainAsksNone(s, q);
    case Cd(_, _) =>
    case Close(u, target, next) => CloseAsksNone(s, u, target, next);
    case Ask(q) => AskAsks(s, q);
    case Answer(u, allow) => AnswerAsksNone(s, u, allow);
    case TimerFires(a) => TimerAsksNone(s, a);
    case Shutdown => ShutdownAsksNone(s);
  }

  // ----- Over whole runs -----

  /** The decision is taken somewhere in the run. */
  ghost predicate EverDecided(s: Adapter, events: seq<Event>, a: nat, allow: bool)
    decreases |events|
  {
    events != [] &&
    ((a < |s.manager.approvals| && Decision(s, events[0], a) == Some(allow))
     || EverDecided(Step(s, events[0]), events[1..], a, allow))
  }

  lemma {:induction false} RunDecides(s: Adapter, events: seq<Event>, a: nat, allow: bool)
    requires Valid(s.manager) && a < |Run(s, events).manager.approvals|
    ensures allow in Run(s, events).manager.approvals[a].decisions <==>
      (a < |s.manager.approvals| && allow in s.manager.approvals[a].decisions) || EverDecided(s, events, a, allow)
    decreases |events|
  {
    if events == [] {
    } else {
      StepKeepsValid(s, events[0]);
      StepAsks(s, events[0]);
      if a < |s.manager.approvals| {
        DecidedExactlyWhen(s, events[0], a);
      }
      RunDecides(Step(s, events[0]), events[1..], a, allow);
    }
  }

  /** Some step of the run is `/approve` by a user in whose active workspace `a` is awaited. */
  ghost predicate EverApproved(s: Adapter, events: seq<Event>, a: nat)
    decreases |events|
  {
    events != [] &&
    ((events[0].Answer? && events[0].allow && Answers(s, events[0].user, a))
     || EverApproved(Step(s, events[0]), events[1..], a))
  }

  lemma {:induction false} ApprovedIsGranted(s: Adapter, events: seq<Event>, a: nat)
    requires Valid(s.manager)
    ensures EverApproved(s, events, a) <==> EverDecided(s, events, a, true)
    decreases |events|
  {
    if events == [] {
    } else {
      StepKeepsValid(s, events[0]);
      ApprovedIsGranted(Step(s, events[0]), events[1..], a);
      if events[0].Answer? && Answers(s, events[0].user, a) {
        assert PendingArmedAt(s.manager, Lookup(s.manager.store, events[0].user, ActiveCwd(s, events[0].user)).value);
      }
    }
  }

  /**
   * In every run from the start an approval is granted exactly when some step is
   * an `/approve` by a user in whose active workspace it is awaited at that moment.
   */
  lemma GrantedExactlyWhen(home: Cwd, events: seq<Event>, a: nat)
    requires a < |Run(Initial(home), events).manager.approvals|
    ensures Run(Initial(home), events).manager.approvals[a].decisions == [true] <==> EverApproved(Initial(home), events, a)
  {
    RunDecides(Initial(home), events, a, true);
    ApprovedIsGranted(Initial(home), events, a);
    ApprovalsFromTheStart(home, events, a);
    var d := Run(Initial(home), events).manager.approvals[a].decisions;
    if true in d {
      assert |d| == 1 && d == [d[0]];
    }
  }

  /** And it is denied exactly when some step is a `/deny` in that workspace, its own time-out, or a shutdown that finds it awaited. */
  lemma DeniedExactlyWhen(home: Cwd, events: seq<Event>, a: nat)
    requires a < |Run(Initial(home), events).manager.approvals|
    ensures Run(Initial(home), events).manager.approvals[a].decisions == [false] <==>
      EverDecided(Initial(home), events, a, false)
  {
    RunDecides(Initial(home), events, a, false);
    ApprovalsFromTheStart(home, events, a);
    var d := Run(Initial(home), events).manager.approvals[a].decisions;
    if false in d {
      assert |d| == 1 && d == [d[0]];
    }
  }
}
