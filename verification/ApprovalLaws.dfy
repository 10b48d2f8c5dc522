/**
 * When an approval is lost, so that neither an answer nor its timer can decide
 * it, and that it then stays undecided.
 */
module ApprovalLaws {
  import opened Wrappers
  import opened QueryManagement
  import opened Scheduler

  /** Undecided, and its timer will not fire. */
  ghost predicate Lost(m: Manager, a: nat)
    requires a < |m.approvals|
  {
    !m.approvals[a].armed && m.approvals[a].decisions == []
  }

  /** `a` is what the session running under key (u, c) waits for. */
  ghost predicate AwaitedAt(m: Manager, u: User, c: Cwd, a: nat) {
    var found := Lookup(m.store, u, c);
    found.Some? && found.value < |m.queries| && m.queries[found.value].pending == Some(a)
  }

  /** What a stored session waits for is what is awaited under that session's key. */
  lemma AwaitedUnderSomeKey(m: Manager, a: nat)
    requires Linked(m)
    ensures Awaited(m, a) <==> exists u, c :: AwaitedAt(m, u, c, a)
  {
    if Awaited(m, a) {
      var q :| Stored(m, q) && m.queries[q].pending == Some(a);
      assert AwaitedAt(m, m.queries[q].user, m.queries[q].cwd, a);
    }
    if u, c :| AwaitedAt(m, u, c, a) {
      assert Stored(m, Lookup(m.store, u, c).value);
    }
  }

  /** From `m` to `r`, approval `a` is lost exactly when `key` is some key under which a session waits for it. */
  ghost predicate LossIs(m: Manager, r: Manager, a: nat, key: Option<(User, Cwd)>)
    requires a < |m.approvals|
  {
    && |r.approvals| >= |m.approvals|
    && (Lost(r, a) <==> key.Some? && AwaitedAt(m, key.value.0, key.value.1, a))
  }

  lemma AskLoses(s: Adapter, q: nat, a: nat)
    requires Valid(s.manager) && a < |s.manager.approvals| && !Lost(s.manager, a)
    ensures LossIs(s.manager, OnAsk(s, q).manager, a, DisplacedKey(s, Ask(q), a))
  {
  }

  lemma AnswerLosesNone(s: Adapter, u: User, allow: bool, a: nat)
    requires Valid(s.manager) && a < |s.manager.approvals| && !Lost(s.manager, a)
    ensures LossIs(s.manager, OnAnswer(s, u, allow).manager, a, None)
  {
  }

  lemma TimerLoses(s: Adapter, b: nat, a: nat)
    requires Valid(s.manager) && a < |s.manager.approvals| && !Lost(s.manager, a)
    ensures LossIs(s.manager, OnTimer(s, b).manager, a, DisplacedKey(s, TimerFires(b), a))
  {
  }

  lemma ChatLosesNone(s: Adapter, msg: Message)
    requires Valid(s.manager)
    ensures HandleChat(s, msg).manager.approvals == s.manager.approvals
  {
  }

  lemma ShutdownLosesNone(s: Adapter, a: nat)
    requires a < |s.manager.approvals| && !Lost(s.manager, a)
    ensures LossIs(s.manager, OnShutdown(s).manager, a, None)
  {
  }

  lemma FinishLoses(s: Adapter, q: nat, a: nat)
    requires Valid(s.manager) && a < |s.manager.approvals| && !Lost(s.manager, a)
    ensures LossIs(s.manager, OnFinish(s, q).manager, a, DisplacedKey(s, Finish(q), a))
  {
  }

  lemma DrainLosesNone(s: Adapter, q: nat, a: nat)
    requires Valid(s.manager) && a < |s.manager.approvals| && !Lost(s.manager, a)
    ensures LossIs(s.manager, OnDrain(s, q).manager, a, None)
  {
    if s.running && CanDrain(s.manager, q) {
      TakeOutKeeps(s.manager, q);
      ChatLosesNone(s.(manager := TakeOut(s.manager, q)), NextItem(s.manager, q));
    }
  }

  lemma DeliverLosesNone(s: Adapter, msg: Message, quoted: Option<Cwd>, a: nat)
    requires Valid(s.manager) && a < |s.manager.approvals| && !Lost(s.manager, a)
    ensures LossIs(s.manager, OnDeliver(s, msg, quoted).manager, a, None)
  {
    ChatLosesNone(if quoted.Some? then s.(active := s.active[msg.user := quoted.value]) else s, msg);
  }

  lemma CloseLoses(s: Adapter, u: User, c: Cwd, next: Cwd, a: nat)
    requires Valid(s.manager) && a < |s.manager.approvals| && !Lost(s.manager, a)
    ensures LossIs(s.manager, OnClose(s, u, c, next).manager, a, Some((u, c)))
  {
  }

  /** The key under which the event takes a pending approval away, if it does that to one it does not decide. */
  ghost function DisplacedKey(s: Adapter, e: Event, a: nat): Option<(User, Cwd)> {
    var m := s.manager;
    match e
    case Ask(q) =>
      if q < |m.queries| && m.queries[q].phase.Live? then Some((m.queries[q].user, m.queries[q].cwd)) else None
    case Finish(q) =>
      if q < |m.queries| && m.queries[q].phase.Live? then Some((m.queries[q].user, m.queries[q].cwd)) else None
    case Close(user, target, _) => Some((user, target))
    case TimerFires(b) =>
      if b != a && CanExpire(m, b) then
        Some((m.queries[m.approvals[b].asker].user, m.queries[m.approvals[b].asker].cwd))
      else None
    case _ => None
  }

  /**
   * An approval that can still be decided is lost in a step exactly when a
   * session waits for it under some key and the step is another question,
   * the end, the close, or another approval's time-out under the same key.
   */
  lemma WhenApprovalsAreLost(s: Adapter, e: Event, a: nat)
    requires Valid(s.manager) && a < |s.manager.approvals| && !Lost(s.manager, a)
    ensures LossIs(s.manager, Step(s, e).manager, a, DisplacedKey(s, e, a))
  {
    match e
    case Deliver(msg, quoted) => DeliverLosesNone(s, msg, quoted, a);
    case Finish(q) => FinishLoses(s, q, a);
    case Drain(q) => DrainLosesNone(s, q, a);
    case Cd(_, _) =>
    case Close(u, target, next) => CloseLoses(s, u, target, next, a);
    case Ask(q) => AskLoses(s, q, a);
    case Answer(u, allow) => AnswerLosesNone(s, u, allow, a);
    case TimerFires(b) => TimerLoses(s, b, a);
    case Shutdown => ShutdownLosesNone(s, a);
  }

  // ----- A lost approval stays lost -----

  lemma AnswerKeepsLost(s: Adapter, u: User, allow: bool, a: nat)
    requires Valid(s.manager) && a < |s.manager.approvals| && Lost(s.manager, a)
    ensures a < |OnAnswer(s, u, allow).manager.approvals| && Lost(OnAnswer(s, u, allow).manager, a)
  {
  }

  lemma TimerKeepsLost(s: Adapter, b: nat, a: nat)
    requires Valid(s.manager) && a < |s.manager.approvals| && Lost(s.manager, a)
    ensures a < |OnTimer(s, b).manager.approvals| && Lost(OnTimer(s, b).manager, a)
  {
  }

  lemma FinishKeepsLost(s: Adapter, q: nat, a: nat)
    requires Valid(s.manager) && a < |s.manager.approvals| && Lost(s.manager, a)
    ensures a < |OnFinish(s, q).manager.approvals| && Lost(OnFinish(s, q).manager, a)
  {
  }

  lemma DrainKeepsLost(s: Adapter, q: nat, a: nat)
    requires Valid(s.manager) && a < |s.manager.approvals| && Lost(s.manager, a)
    ensures a < |OnDrain(s, q).manager.approvals| && Lost(OnDrain(s, q).manager, a)
  {
    if s.running && CanDrain(s.manager, q) {
      TakeOutKeeps(s.manager, q);
      ChatLosesNone(s.(manager := TakeOut(s.manager, q)), NextItem(s.manager, q));
    }
  }

  lemma CloseKeepsLost(s: Adapter, u: User, target: Cwd, next: Cwd, a: nat)
    requires Valid(s.manager) && a < |s.manager.approvals| && Lost(s.manager, a)
    ensures a < |OnClose(s, u, target, next).manager.approvals| && Lost(OnClose(s, u, target, next).manager, a)
  {
  }

  lemma AskKeepsLost(s: Adapter, q: nat, a: nat)
    requires Valid(s.manager) && a < |s.manager.approvals| && Lost(s.manager, a)
    ensures a < |OnAsk(s, q).manager.approvals| && Lost(OnAsk(s, q).manager, a)
  {
  }

  lemma ShutdownKeepsLost(s: Adapter, a: nat)
    requires Valid(s.manager) && a < |s.manager.approvals| && Lost(s.manager, a)
    ensures a < |OnShutdown(s).manager.approvals| && Lost(OnShutdown(s).manager, a)
  {
  }

  /** No step decides a lost approval or arms its timer again. */
  lemma LostStays(s: Adapter, e: Event, a: nat)
    requires Valid(s.manager) && a < |s.manager.approvals| && Lost(s.manager, a)
    ensures a < |Step(s, e).manager.approvals| && Lost(Step(s, e).manager, a)
  {
    hide Valid, HandleChat, OnFinish, OnDrain, OnClose, OnAsk, OnAnswer, OnTimer, OnShutdown;
    match e
    case Deliver(msg, quoted) =>
      ChatLosesNone(if quoted.Some? then s.(active := s.active[msg.user := quoted.value]) else s, msg);
    case Finish(q) => FinishKeepsLost(s, q, a);
    case Drain(q) => DrainKeepsLost(s, q, a);
    case Cd(_, _) =>
    case Close(u, target, next) => CloseKeepsLost(s, u, target, next, a);
    case Ask(q) => AskKeepsLost(s, q, a);
    case Answer(u, allow) => AnswerKeepsLost(s, u, allow, a);
    case TimerFires(b) => TimerKeepsLost(s, b, a);
    case Shutdown => ShutdownKeepsLost(s, a);
  }

  /** A session waits for `a` under the key from which the event takes the pending approval away. */
  ghost predicate Displaced(s: Adapter, e: Event, a: nat) {
    var key := DisplacedKey(s, e, a);
    key.Some? && AwaitedAt(s.manager, key.value.0, key.value.1, a)
  }

  ghost predicate EverDisplaced(s: Adapter, events: seq<Event>, a: nat)
    decreases |events|
  {
    events != [] && (Displaced(s, events[0], a) || EverDisplaced(Step(s, events[0]), events[1..], a))
  }

  /** After any run an approval lost before it is still undecided, with its timer disarmed. */
  lemma {:induction false} LostForever(s: Adapter, events: seq<Event>, a: nat)
    requires Valid(s.manager) && a < |s.manager.approvals| && Lost(s.manager, a)
    ensures a < |Run(s, events).manager.approvals| && Lost(Run(s, events).manager, a)
    decreases |events|
  {
    if events == [] {
    } else {
      StepKeepsValid(s, events[0]);
      LostStays(s, events[0], a);
      LostForever(Step(s, events[0]), events[1..], a);
    }
  }

  /** Over any run an approval that could still be decided ends up lost exactly when some step displaced it. */
  lemma {:induction false} LostInRunExactlyWhen(s: Adapter, events: seq<Event>, a: nat)
    requires Valid(s.manager) && a < |s.manager.approvals| && !Lost(s.manager, a)
    ensures a < |Run(s, events).manager.approvals|
    ensures Lost(Run(s, events).manager, a) <==> EverDisplaced(s, events, a)
    decreases |events|
  {
    if events == [] {
    } else {
      var t := Step(s, events[0]);
      StepKeepsValid(s, events[0]);
      WhenApprovalsAreLost(s, events[0], a);
      if Lost(t.manager, a) {
        LostForever(t, events[1..], a);
      } else {
        LostInRunExactlyWhen(t, events[1..], a);
      }
    }
  }

  /** The state after a session has started and asked twice in a row. */
  lemma AskedTwice(home: Cwd, msg: Message)
    requires home != ""
    ensures var s := Run(Initial(home), [Deliver(msg, None), Ask(0), Ask(0)]);
      Valid(s.manager) && s.manager.approvals == [Approval(0, false, []), Approval(0, true, [])]
  {
    var s0 := Initial(home);
    var s1 := Step(s0, Deliver(msg, None));
    var s2 := Step(s1, Ask(0));
    var s3 := Step(s2, Ask(0));
    assert Lookup(s1.manager.store, msg.user, home) == Some(0);
    assert s2.manager.queries == [Query(msg.user, home, msg, [], Live, false, Some(0))];
    assert s3.manager.approvals == [Approval(0, false, []), Approval(0, true, [])];
    hide Step;
    assert [Deliver(msg, None), Ask(0), Ask(0)][1..] == [Ask(0), Ask(0)];
    assert [Ask(0), Ask(0)][1..] == [Ask(0)] && [Ask(0)][1..] == [] && Run(s3, []) == s3;
    assert Run(s1, [Ask(0), Ask(0)]) == s3;
    ApprovalsDecidedOnce(s0, [Deliver(msg, None), Ask(0), Ask(0)]);
  }

  /** A session that asks twice in a row: its first approval is never decided, whatever happens afterwards. */
  lemma AskedTwiceExample(home: Cwd, msg: Message, later: seq<Event>)
    requires home != ""
    ensures var s := Run(Initial(home), [Deliver(msg, None), Ask(0), Ask(0)]);
      |s.manager.approvals| == 2 && Lost(s.manager, 0)
      && |Run(s, later).manager.approvals| > 0 && Run(s, later).manager.approvals[0].decisions == []
  {
    hide Run, Valid;
    AskedTwice(home, msg);
    LostForever(Run(Initial(home), [Deliver(msg, None), Ask(0), Ask(0)]), later, 0);
  }
}
