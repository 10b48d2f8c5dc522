/**
 * Laws over every run of the scheduler: messages are conserved, sessions hold
 * their own user's messages, and an undisturbed drain keeps the order.
 */
module SchedulerLaws {
  import opened Wrappers
  import opened QueryManagement
  import opened Scheduler

  // ----- Conservation of messages -----

  /** The messages a query still has to pass on. */
  function Waiting(query: Query): seq<Message> {
    match query.phase
    case Live => query.queue
    case Draining(next) => if next <= |query.queue| then query.queue[next..] else []
  }

  function Occurrences(messages: seq<Message>, x: Message): nat {
    multiset(messages)[x]
  }

  /** How often `x` is the prompt of a query or waits behind it. */
  function Held(query: Query, x: Message): nat {
    (if query.prompt == x then 1 else 0) + Occurrences(Waiting(query), x)
  }

  function Counts(queries: seq<Query>, x: Message): (counts: seq<nat>)
    ensures |counts| == |queries|
    ensures forall q :: 0 <= q < |queries| ==> counts[q] == Held(queries[q], x)
  {
    seq(|queries|, q requires 0 <= q < |queries| => Held(queries[q], x))
  }

  function Sum(counts: seq<nat>): nat {
    if counts == [] then 0 else Sum(counts[..|counts| - 1]) + counts[|counts| - 1]
  }

  function HeldByAll(queries: seq<Query>, x: Message): nat {
    Sum(Counts(queries, x))
  }

  /** How often `x` is in the system: refused for want of a workspace, started, queued, or left to drain. */
  function Everywhere(s: Adapter, x: Message): nat {
    Occurrences(s.refused, x) + HeldByAll(s.manager.queries, x)
  }

  function Delivered(events: seq<Event>, x: Message): nat {
    if events == [] then 0
    else (if events[0].Deliver? && events[0].msg == x then 1 else 0) + Delivered(events[1..], x)
  }

  lemma {:induction false} SumUpdate(counts: seq<nat>, q: nat, count: nat)
    requires q < |counts|
    ensures Sum(counts[q := count]) == Sum(counts) - counts[q] + count
  {
    var n := |counts| - 1;
    if q == n {
      assert counts[q := count][..n] == counts[..n];
    } else {
      assert counts[q := count][..n] == counts[..n][q := count];
      SumUpdate(counts[..n], q, count);
    }
  }

  lemma HeldUpdate(queries: seq<Query>, q: nat, query: Query, x: Message)
    requires q < |queries|
    ensures HeldByAll(queries[q := query], x) == HeldByAll(queries, x) - Held(queries[q], x) + Held(query, x)
  {
    assert Counts(queries[q := query], x) == Counts(queries, x)[q := Held(query, x)];
    SumUpdate(Counts(queries, x), q, Held(query, x));
  }

  lemma HeldAppend(queries: seq<Query>, query: Query, x: Message)
    ensures HeldByAll(queries + [query], x) == HeldByAll(queries, x) + Held(query, x)
  {
    assert Counts(queries + [query], x) == Counts(queries, x) + [Held(query, x)];
    assert (Counts(queries, x) + [Held(query, x)])[..|queries|] == Counts(queries, x);
  }

  function One(msg: Message, x: Message): nat {
    if msg == x then 1 else 0
  }

  lemma HeldOfLonger(query: Query, msg: Message, x: Message)
    requires query.phase.Live?
    ensures Held(query.(queue := query.queue + [msg]), x) == Held(query, x) + One(msg, x)
  {
  }

  lemma HeldOfTaken(query: Query, x: Message)
    requires query.phase.Draining? && query.phase.next < |query.queue|
    ensures Held(query.(phase := Draining(query.phase.next + 1)), x) + One(query.queue[query.phase.next], x) == Held(query, x)
  {
    var n := query.phase.next;
    assert query.queue[n..] == [query.queue[n]] + query.queue[n + 1..];
  }

  lemma HeldOfEnded(query: Query, x: Message)
    requires query.phase.Live?
    ensures Held(query.(phase := Draining(0)), x) == Held(query, x)
  {
  }

  /** Two tables whose queries carry the same prompts, queues and phases. */
  ghost predicate SameLoad(a: seq<Query>, b: seq<Query>) {
    && |a| == |b|
    && forall q :: 0 <= q < |a| ==>
      a[q].prompt == b[q].prompt && a[q].queue == b[q].queue && a[q].phase == b[q].phase
      && a[q].user == b[q].user && a[q].cwd == b[q].cwd
  }

  lemma SameLoadHeld(a: seq<Query>, b: seq<Query>, x: Message)
    requires SameLoad(a, b)
    ensures HeldByAll(a, x) == HeldByAll(b, x)
  {
    forall q | 0 <= q < |a|
      ensures Held(a[q], x) == Held(b[q], x)
    {
    }
    hide Held, SameLoad;
    assert Counts(a, x) == Counts(b, x);
  }

  lemma ChatHolds(s: Adapter, msg: Message, x: Message)
    requires Valid(s.manager)
    requires var found := Lookup(s.manager.store, msg.user, ActiveCwd(s, msg.user));
      found.Some? ==> s.manager.queries[found.value].phase.Live?
    ensures Everywhere(HandleChat(s, msg), x) == Everywhere(s, x) + One(msg, x)
  {
    var m, cwd := s.manager, ActiveCwd(s, msg.user);
    var found := Lookup(m.store, msg.user, cwd);
    if cwd == "" {
    } else if found.Some? {
      var query := m.queries[found.value];
      HeldUpdate(m.queries, found.value, query.(queue := query.queue + [msg]), x);
      HeldOfLonger(query, msg, x);
    } else {
      HeldAppend(m.queries, Query(msg.user, cwd, msg, [], Live, false, None), x);
    }
  }

  /** Only live sessions are in the store, so a queue that is being drained never grows. */
  ghost predicate StoredAreLive(m: Manager) {
    forall q :: Stored(m, q) ==> m.queries[q].phase.Live?
  }

  /** Everything a query holds was sent by the user it belongs to, and no drain has run past its queue. */
  ghost predicate Owned(m: Manager) {
    forall q :: 0 <= q < |m.queries| ==> OwnedQuery(m.queries[q])
  }

  ghost predicate OwnedQuery(query: Query) {
    && query.prompt.user == query.user
    && (forall i :: 0 <= i < |query.queue| ==> query.queue[i].user == query.user)
    && (query.phase.Draining? ==> query.phase.next <= |query.queue|)
  }

  ghost predicate Sound(m: Manager) {
    Valid(m) && StoredAreLive(m) && Owned(m)
  }

  lemma ChatKeepsOwners(s: Adapter, msg: Message)
    requires Valid(s.manager) && Owned(s.manager)
    ensures Owned(HandleChat(s, msg).manager)
  {
    hide PendingIsArmed, DecidedOnce, NoEmptyUsers;
    var r := HandleChat(s, msg).manager;
    forall q | 0 <= q < |r.queries|
      ensures OwnedQuery(r.queries[q])
    {
      assert q < |s.manager.queries| ==> OwnedQuery(s.manager.queries[q]);
    }
  }

  lemma ChatKeepsStoredLive(s: Adapter, msg: Message)
    requires Valid(s.manager) && StoredAreLive(s.manager)
    ensures StoredAreLive(HandleChat(s, msg).manager)
  {
    hide PendingIsArmed, DecidedOnce, NoEmptyUsers;
    var m, r := s.manager, HandleChat(s, msg).manager;
    forall q | Stored(r, q)
      ensures r.queries[q].phase.Live?
    {
      if q < |m.queries| {
        assert Stored(m, q);
      }
    }
  }

  lemma ChatSound(s: Adapter, msg: Message)
    requires Sound(s.manager)
    ensures Sound(HandleChat(s, msg).manager)
  {
    hide HandleChat, Valid, StoredAreLive, Owned;
    ChatKeeps(s, msg);
    ChatKeepsOwners(s, msg);
    ChatKeepsStoredLive(s, msg);
  }

  /** Steps that only touch the store and approvals keep loads and keep sessions live. */
  lemma SameLoadSound(m: Manager, r: Manager)
    requires Sound(m) && Valid(r) && SameLoad(m.queries, r.queries)
    requires forall q :: Stored(r, q) ==> Stored(m, q)
    ensures Sound(r)
  {
  }

  lemma RemoveQuiet(m: Manager, u: User, c: Cwd)
    requires Sound(m)
    ensures Sound(Remove(m, u, c)) && SameLoad(m.queries, Remove(m, u, c).queries)
    ensures forall q :: Stored(Remove(m, u, c), q) <==> Stored(m, q) && !(m.queries[q].user == u && m.queries[q].cwd == c)
  {
    RemoveKeeps(m, u, c);
    SameLoadSound(m, Remove(m, u, c));
  }

  /** A query that is not stored may move on within its own drain. */
  lemma PhaseChangeSound(m: Manager, q: nat, next: nat)
    requires Sound(m) && q < |m.queries| && next <= |m.queries[q].queue| && !Stored(m, q)
    ensures Sound(SetQuery(m, q, m.queries[q].(phase := Draining(next))))
  {
  }

  lemma FinishSound(m: Manager, q: nat)
    requires Sound(m) && q < |m.queries| && m.queries[q].phase.Live?
    ensures Sound(FinishSession(m, q))
  {
    RemoveQuiet(m, m.queries[q].user, m.queries[q].cwd);
    PhaseChangeSound(Remove(m, m.queries[q].user, m.queries[q].cwd), q, 0);
  }

  lemma FinishHolds(m: Manager, q: nat, x: Message)
    requires Sound(m) && q < |m.queries| && m.queries[q].phase.Live?
    ensures HeldByAll(FinishSession(m, q).queries, x) == HeldByAll(m.queries, x)
  {
    var m1 := Remove(m, m.queries[q].user, m.queries[q].cwd);
    RemoveQuiet(m, m.queries[q].user, m.queries[q].cwd);
    SameLoadHeld(m.queries, m1.queries, x);
    HeldUpdate(m1.queries, q, m1.queries[q].(phase := Draining(0)), x);
    HeldOfEnded(m1.queries[q], x);
  }

  lemma TakeOutSound(m: Manager, q: nat)
    requires Sound(m) && CanDrain(m, q)
    ensures Sound(TakeOut(m, q))
  {
  }

  lemma DrainSound(s: Adapter, q: nat)
    requires Sound(s.manager) && CanDrain(s.manager, q)
    ensures Sound(DrainOne(s, q).manager)
  {
    TakeOutSound(s.manager, q);
    ChatSound(s.(manager := TakeOut(s.manager, q)), NextItem(s.manager, q));
  }

  lemma TakeOutHolds(m: Manager, q: nat, x: Message)
    requires CanDrain(m, q)
    ensures HeldByAll(TakeOut(m, q).queries, x) + One(NextItem(m, q), x) == HeldByAll(m.queries, x)
  {
    hide Held, HeldByAll;
    HeldUpdate(m.queries, q, m.queries[q].(phase := Draining(m.queries[q].phase.next + 1)), x);
    HeldOfTaken(m.queries[q], x);
  }

  lemma DrainHolds(s: Adapter, q: nat, x: Message)
    requires Sound(s.manager) && CanDrain(s.manager, q)
    ensures Everywhere(DrainOne(s, q), x) == Everywhere(s, x)
  {
    var item := NextItem(s.manager, q);
    var s1 := s.(manager := TakeOut(s.manager, q));
    TakeOutSound(s.manager, q);
    TakeOutHolds(s.manager, q, x);
    StoredLookup(s1.manager, item.user, ActiveCwd(s1, item.user));
    ChatHolds(s1, item, x);
  }

  lemma StoredLookup(m: Manager, u: User, c: Cwd)
    requires Sound(m)
    ensures Lookup(m.store, u, c).Some? ==> Stored(m, Lookup(m.store, u, c).value)
  {
  }

  /** The steps that touch the store and the approvals, but no queue. */
  ghost predicate Quiet(e: Event) {
    e.Close? || e.Ask? || e.Answer? || e.TimerFires? || e.Shutdown?
  }

  lemma CloseQuiet(m: Manager, u: User, c: Cwd)
    requires Sound(m)
    ensures SameLoad(m.queries, Abort(m, u, c).queries)
    ensures forall q :: Stored(Abort(m, u, c), q) ==> Stored(m, q)
  {
  }

  ghost predicate Untouched(m: Manager, r: Manager) {
    && SameLoad(m.queries, r.queries) && r.store == m.store
    && forall q :: 0 <= q < |m.queries| ==> r.queries[q].aborted == m.queries[q].aborted
  }

  lemma UntouchedStored(m: Manager, r: Manager)
    requires Untouched(m, r)
    ensures forall q :: Stored(r, q) ==> Stored(m, q)
  {
  }

  lemma AskQuiet(m: Manager, q: nat)
    requires q < |m.queries|
    ensures Untouched(m, AskApproval(m, q))
  {
  }

  lemma AnswerQuiet(m: Manager, u: User, c: Cwd, allow: bool)
    ensures Untouched(m, AnswerApproval(m, u, c, allow))
  {
  }

  lemma ExpireQuiet(m: Manager, a: nat)
    requires a < |m.approvals| && m.approvals[a].asker < |m.queries|
    ensures Untouched(m, ExpireApproval(m, a))
  {
  }

  lemma ShutdownQuiet(m: Manager)
    ensures SameLoad(m.queries, AbortAll(m).queries) && forall q :: !Stored(AbortAll(m), q)
  {
  }

  lemma QuietStep(s: Adapter, e: Event)
    requires Sound(s.manager) && Quiet(e)
    ensures SameLoad(s.manager.queries, Step(s, e).manager.queries)
    ensures forall q :: Stored(Step(s, e).manager, q) ==> Stored(s.manager, q)
    ensures Step(s, e).refused == s.refused
  {
    hide Abort, AskApproval, AnswerApproval, ExpireApproval, AbortAll, Sound;
    var m, r := s.manager, Step(s, e).manager;
    match e
    case Close(u, target, _) =>
      CloseQuiet(m, u, target);
    case Ask(q) =>
      if q < |m.queries| {
        AskQuiet(m, q);
      }
      UntouchedStored(m, r);
    case Answer(u, allow) =>
      AnswerQuiet(m, u, ActiveCwd(s, u), allow);
      UntouchedStored(m, r);
    case TimerFires(a) =>
      if CanExpire(m, a) {
        ExpireQuiet(m, a);
      }
      UntouchedStored(m, r);
    case Shutdown =>
      ShutdownQuiet(m);
  }

  lemma StepSound(s: Adapter, e: Event)
    requires Sound(s.manager)
    ensures Sound(Step(s, e).manager)
  {
    var m := s.manager;
    match e
    case Deliver(msg, quoted) =>
      ChatSound(if quoted.Some? then s.(active := s.active[msg.user := quoted.value]) else s, msg);
    case Finish(q) =>
      if q < |m.queries| && m.queries[q].phase.Live? {
        FinishSound(m, q);
      }
    case Drain(q) =>
      if s.running && CanDrain(m, q) {
        DrainSound(s, q);
      }
    case Cd(_, _) =>
    case _ =>
      QuietStep(s, e);
      StepKeepsValid(s, e);
      SameLoadSound(m, Step(s, e).manager);
  }

  /** A step brings in the message it delivers, and neither loses nor copies any other. */
  lemma StepHolds(s: Adapter, e: Event, x: Message)
    requires Sound(s.manager)
    ensures Everywhere(Step(s, e), x) == Everywhere(s, x) + (if e.Deliver? then One(e.msg, x) else 0)
  {
    var m := s.manager;
    match e
    case Deliver(msg, quoted) =>
      var s1 := if quoted.Some? then s.(active := s.active[msg.user := quoted.value]) else s;
      StoredLookup(m, msg.user, ActiveCwd(s1, msg.user));
      ChatHolds(s1, msg, x);
    case Finish(q) =>
      if q < |m.queries| && m.queries[q].phase.Live? {
        FinishHolds(m, q, x);
      }
    case Drain(q) =>
      if s.running && CanDrain(m, q) {
        DrainHolds(s, q, x);
      }
    case Cd(_, _) =>
    case _ =>
      QuietStep(s, e);
      SameLoadHeld(m.queries, Step(s, e).manager.queries, x);
  }

  lemma {:induction false} RunSound(s: Adapter, events: seq<Event>)
    requires Sound(s.manager)
    ensures Sound(Run(s, events).manager)
    decreases |events|
  {
    if events == [] {
    } else {
      StepSound(s, events[0]);
      RunSound(Step(s, events[0]), events[1..]);
    }
  }

  lemma {:induction false} RunHolds(s: Adapter, events: seq<Event>, x: Message)
    requires Sound(s.manager)
    ensures Everywhere(Run(s, events), x) == Everywhere(s, x) + Delivered(events, x)
    decreases |events|
  {
    if events == [] {
    } else {
      StepHolds(s, events[0], x);
      StepSound(s, events[0]);
      RunHolds(Step(s, events[0]), events[1..], x);
    }
  }

  /**
   * In every run each message is in the system exactly as often as it was
   * delivered: refused for want of a workspace, the prompt of a session, in the
   * queue of a session that has not ended, or in the rest of one drain.
   */
  lemma MessagesAreConserved(home: Cwd, events: seq<Event>, x: Message)
    ensures Everywhere(Run(Initial(home), events), x) == Delivered(events, x)
  {
    RunHolds(Initial(home), events, x);
  }

  /** In every run a session only ever holds messages of the user it belongs to. */
  lemma SessionsHoldOwnMessages(home: Cwd, events: seq<Event>, q: nat, i: nat)
    requires q < |Run(Initial(home), events).manager.queries|
    requires i < |Run(Initial(home), events).manager.queries[q].queue|
    ensures var query := Run(Initial(home), events).manager.queries[q];
      query.prompt.user == query.user && query.queue[i].user == query.user
  {
    RunSound(Initial(home), events);
    assert OwnedQuery(Run(Initial(home), events).manager.queries[q]);
  }

  // ----- Order of an undisturbed drain -----

  /** Some run leads to `s`. */
  ghost predicate Reached(s: Adapter) {
    exists home: Cwd, events: seq<Event> :: s == Run(Initial(home), events)
  }

  lemma {:induction false} RunSnoc(s: Adapter, events: seq<Event>, e: Event)
    ensures Run(s, events + [e]) == Step(Run(s, events), e)
    decreases |events|
  {
    if events == [] {
      assert [] + [e] == [e] && [e][1..] == [];
      assert Run(Step(s, e), []) == Step(s, e);
    } else {
      assert (events + [e])[1..] == events[1..] + [e];
      RunSnoc(Step(s, events[0]), events[1..], e);
    }
  }

  lemma ReachedStep(s: Adapter, e: Event)
    requires Reached(s)
    ensures Reached(Step(s, e))
  {
    var home: Cwd, events: seq<Event> :| s == Run(Initial(home), events);
    RunSnoc(Initial(home), events, e);
  }

  lemma ReachedSound(s: Adapter)
    requires Reached(s)
    ensures Sound(s.manager)
  {
    var home: Cwd, events: seq<Event> :| s == Run(Initial(home), events);
    RunSound(Initial(home), events);
  }

  ghost function DrainTimes(s: Adapter, q: nat, k: nat): Adapter
    decreases k
  {
    if k == 0 then s else DrainTimes(OnDrain(s, q), q, k - 1)
  }

  /** The query new messages of user `u` go to, when the user is in a workspace with a running query. */
  ghost predicate GoesTo(s: Adapter, u: User, r: nat) {
    ActiveCwd(s, u) != "" && Lookup(s.manager.store, u, ActiveCwd(s, u)) == Some(r)
  }

  /** Query `q` is being drained and has `k` messages left. */
  predicate Left(queries: seq<Query>, q: nat, k: nat) {
    q < |queries| && queries[q].phase.Draining? && queries[q].phase.next + k == |queries[q].queue|
  }

  /** The queries once everything left in the drain of `q` has moved to the end of the queue of `r`. */
  function AllMoved(queries: seq<Query>, q: nat, r: nat, k: nat): seq<Query>
    requires Left(queries, q, k) && r < |queries| && q != r
  {
    var query := queries[q];
    queries[q := query.(phase := Draining(|query.queue|))]
           [r := queries[r].(queue := queries[r].queue + query.queue[query.phase.next..])]
  }

  /** The queries once the first message left in the drain of `q` has moved. */
  function OneMoved(queries: seq<Query>, q: nat, r: nat): seq<Query>
    requires q < |queries| && r < |queries| && q != r
    requires queries[q].phase.Draining? && queries[q].phase.next < |queries[q].queue|
  {
    var query := queries[q];
    queries[q := query.(phase := Draining(query.phase.next + 1))]
           [r := queries[r].(queue := queries[r].queue + [query.queue[query.phase.next]])]
  }

  lemma MoveOneThenRest(queries: seq<Query>, q: nat, r: nat, k: nat)
    requires Left(queries, q, k + 1) && r < |queries| && q != r
    ensures Left(OneMoved(queries, q, r), q, k)
    ensures AllMoved(OneMoved(queries, q, r), q, r, k) == AllMoved(queries, q, r, k + 1)
    ensures |OneMoved(queries, q, r)| == |queries| && OneMoved(queries, q, r)[q].user == queries[q].user
  {
    var n, from := queries[q].phase.next, queries[q].queue;
    assert queries[r].queue + [from[n]] + from[n + 1..] == queries[r].queue + from[n..];
  }

  lemma MoveNone(queries: seq<Query>, q: nat, r: nat)
    requires Left(queries, q, 0) && r < |queries| && q != r
    ensures AllMoved(queries, q, r, 0) == queries
  {
    assert queries[r].queue + queries[q].queue[queries[q].phase.next..] == queries[r].queue;
  }

  /** One drained message joins the queue of the running query it goes to. */
  lemma DrainStep(s: Adapter, q: nat, r: nat)
    requires Reached(s) && s.running && CanDrain(s.manager, q)
    requires GoesTo(s, s.manager.queries[q].user, r)
    ensures r < |s.manager.queries| && r != q
    ensures Reached(OnDrain(s, q)) && OnDrain(s, q).running && GoesTo(OnDrain(s, q), s.manager.queries[q].user, r)
    ensures OnDrain(s, q).manager.queries == OneMoved(s.manager.queries, q, r)
  {
    var query := s.manager.queries[q];
    ReachedSound(s);
    ReachedStep(s, Drain(q));
    assert OwnedQuery(query);
    hide Reached, Valid;
    StoredLookup(s.manager, query.user, ActiveCwd(s, query.user));
  }

  /** Drained behind a running query, the messages join its queue in their order. */
  lemma {:induction false} DrainBehindRunning(s: Adapter, q: nat, r: nat, k: nat)
    requires Reached(s) && s.running && Left(s.manager.queries, q, k)
    requires r < |s.manager.queries| && r != q && GoesTo(s, s.manager.queries[q].user, r)
    ensures DrainTimes(s, q, k).manager.queries == AllMoved(s.manager.queries, q, r, k)
    decreases k
  {
    hide AllMoved, OneMoved, GoesTo, Reached, OnDrain;
    if k == 0 {
      MoveNone(s.manager.queries, q, r);
    } else {
      DrainStep(s, q, r);
      MoveOneThenRest(s.manager.queries, q, r, k - 1);
      DrainBehindRunning(OnDrain(s, q), q, r, k - 1);
    }
  }

  /** The first message drained into a workspace where nothing runs starts a session there. */
  lemma FirstDrainStarts(s: Adapter, q: nat)
    requires Reached(s) && s.running && CanDrain(s.manager, q)
    requires var u := s.manager.queries[q].user;
      ActiveCwd(s, u) != "" && Lookup(s.manager.store, u, ActiveCwd(s, u)) == None
    ensures var m, t := s.manager, OnDrain(s, q);
      var u := m.queries[q].user;
      && Reached(t) && t.running && GoesTo(t, u, |m.queries|)
      && t.manager.queries == m.queries[q := m.queries[q].(phase := Draining(m.queries[q].phase.next + 1))]
           + [Query(u, ActiveCwd(s, u), NextItem(m, q), [], Live, false, None)]
  {
    ReachedSound(s);
    ReachedStep(s, Drain(q));
    assert OwnedQuery(s.manager.queries[q]);
  }

  /** A session has just ended with messages in its queue, and nothing runs in its user's workspace. */
  ghost predicate EndedInFreeWorkspace(s: Adapter, q: nat) {
    && Reached(s) && s.running && q < |s.manager.queries|
    && s.manager.queries[q].phase == Draining(0) && s.manager.queries[q].queue != []
    && ActiveCwd(s, s.manager.queries[q].user) != ""
    && Lookup(s.manager.store, s.manager.queries[q].user, ActiveCwd(s, s.manager.queries[q].user)) == None
  }

  /** The queries once `n` messages of the queue of `q` have moved to a new session: the first as its prompt, the rest behind it. */
  function Restarted(queries: seq<Query>, q: nat, cwd: Cwd, n: nat): seq<Query>
    requires q < |queries| && 1 <= n <= |queries[q].queue|
  {
    var query := queries[q];
    queries[q := query.(phase := Draining(n))] + [Query(query.user, cwd, query.queue[0], query.queue[1..n], Live, false, None)]
  }

  /**
   * Drained without interruption into a workspace where nothing runs, the first
   * message starts a session and the others queue behind it in their order.
   */
  lemma UndisturbedDrainKeepsOrder(s: Adapter, q: nat)
    requires EndedInFreeWorkspace(s, q)
    ensures var query := s.manager.queries[q];
      var k := |query.queue|;
      DrainTimes(s, q, k).manager.queries == Restarted(s.manager.queries, q, ActiveCwd(s, query.user), k)
  {
    hide Reached, GoesTo, OnDrain, DrainTimes, ActiveCwd, Lookup, Restarted;
    DrainFirst(s, q, |s.manager.queries[q].queue|);
    FirstOfQueueStarts(s, q);
    RestFollows(s.manager.queries, OnDrain(s, q), q, ActiveCwd(s, s.manager.queries[q].user));
  }

  lemma DrainFirst(s: Adapter, q: nat, k: nat)
    requires k > 0
    ensures DrainTimes(s, q, k) == DrainTimes(OnDrain(s, q), q, k - 1)
  {
  }

  lemma FirstOfQueueStarts(s: Adapter, q: nat)
    requires EndedInFreeWorkspace(s, q)
    ensures var queries, t := s.manager.queries, OnDrain(s, q);
      && Reached(t) && t.running && GoesTo(t, queries[q].user, |queries|)
      && t.manager.queries == Restarted(queries, q, ActiveCwd(s, queries[q].user), 1)
  {
    hide Reached, GoesTo, OnDrain;
    FirstDrainStarts(s, q);
    assert s.manager.queries[q].queue[1..1] == [];
  }

  lemma RestFollows(queries: seq<Query>, s1: Adapter, q: nat, cwd: Cwd)
    requires q < |queries| && queries[q].queue != []
    requires Reached(s1) && s1.running && GoesTo(s1, queries[q].user, |queries|)
    requires s1.manager.queries == Restarted(queries, q, cwd, 1)
    ensures DrainTimes(s1, q, |queries[q].queue| - 1).manager.queries == Restarted(queries, q, cwd, |queries[q].queue|)
  {
    hide Reached, GoesTo, DrainTimes, AllMoved, Restarted, Left;
    RestMoves(queries, q, cwd);
    DrainBehindRunning(s1, q, |queries|, |queries[q].queue| - 1);
  }

  /** Moving the rest behind the first message makes the whole queue of the new session. */
  lemma RestMoves(queries: seq<Query>, q: nat, cwd: Cwd)
    requires q < |queries| && queries[q].queue != []
    ensures var k, first := |queries[q].queue|, Restarted(queries, q, cwd, 1);
      && Left(first, q, k - 1) && |first| == |queries| + 1 && first[q].user == queries[q].user
      && AllMoved(first, q, |queries|, k - 1) == Restarted(queries, q, cwd, k)
  {
    var queue := queries[q].queue;
    assert queue[1..1] + queue[1..] == queue[1..|queue|];
  }

  // ----- Workspaces and shutdown -----

  /** The workspace a user is in after a step: only the user's own quoting, `/cd` and close of the active one change it. */
  function WorkspaceAfter(s: Adapter, e: Event, u: User): Cwd {
    match e
    case Deliver(msg, quoted) => if msg.user == u && quoted.Some? then quoted.value else ActiveCwd(s, u)
    case Cd(user, cwd) => if user == u then cwd else ActiveCwd(s, u)
    case Close(user, target, next) => if user == u && ActiveCwd(s, u) == target then next else ActiveCwd(s, u)
    case _ => ActiveCwd(s, u)
  }

  lemma ChatKeepsWorkspaces(s: Adapter, msg: Message, u: User)
    ensures ActiveCwd(HandleChat(s, msg), u) == ActiveCwd(s, u)
    ensures msg.user in HandleChat(s, msg).active
    ensures HandleChat(s, msg).running == s.running && HandleChat(s, msg).home == s.home
  {
  }

  /**
   * Every step leaves every user in exactly that workspace, and the adapter runs
   * until a shutdown.
   */
  lemma WorkspacesAndRunning(s: Adapter, e: Event, u: User)
    ensures ActiveCwd(Step(s, e), u) == WorkspaceAfter(s, e, u)
    ensures Step(s, e).running <==> s.running && !e.Shutdown?
    ensures Step(s, e).home == s.home
  {
    match e
    case Deliver(msg, quoted) =>
      ChatKeepsWorkspaces(if quoted.Some? then s.(active := s.active[msg.user := quoted.value]) else s, msg, u);
    case Drain(q) =>
      if s.running && CanDrain(s.manager, q) {
        ChatKeepsWorkspaces(s.(manager := TakeOut(s.manager, q)), NextItem(s.manager, q), u);
      }
    case _ =>
  }

  /** After a shutdown no queue is drained any more. */
  lemma {:induction false} NoDrainAfterShutdown(s: Adapter, events: seq<Event>, q: nat)
    requires !s.running
    ensures !Run(s, events).running && OnDrain(Run(s, events), q) == Run(s, events)
    decreases |events|
  {
    if events == [] {
    } else {
      WorkspacesAndRunning(s, events[0], "");
      NoDrainAfterShutdown(Step(s, events[0]), events[1..], q);
    }
  }

  /** Before any message a user is in the configured directory, nothing has been refused and nothing runs. */
  lemma StartsIdle(home: Cwd, u: User)
    ensures var s := Initial(home);
      ActiveCwd(s, u) == home && s.refused == [] && s.running
      && s.manager.queries == [] && s.manager.approvals == [] && s.manager.store == map[]
  {
  }

  /**
   * A chat message goes to exactly one place, by the workspace its user is in:
   * without one it is refused; where a session is stored it joins the end of that
   * session's queue; otherwise it is the prompt of a new session there.
   */
  lemma ChatGoesTo(s: Adapter, msg: Message)
    requires Valid(s.manager)
    ensures var t, cwd := HandleChat(s, msg), ActiveCwd(s, msg.user);
      var found := Lookup(s.manager.store, msg.user, cwd);
      && (cwd == "" ==> t.refused == s.refused + [msg] && t.manager == s.manager)
      && (cwd != "" ==> t.refused == s.refused)
      && (cwd != "" && found.Some? ==>
        t.manager == s.manager.(queries :=
          s.manager.queries[found.value := s.manager.queries[found.value].(queue := s.manager.queries[found.value].queue + [msg])]))
      && (cwd != "" && found.None? ==>
        && t.manager.queries == s.manager.queries + [Query(msg.user, cwd, msg, [], Live, false, None)]
        && t.manager.approvals == s.manager.approvals
        && Lookup(t.manager.store, msg.user, cwd) == Some(|s.manager.queries|))
  {
  }
}
