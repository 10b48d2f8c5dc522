/**
 * The chat scheduler of the adapter: what happens between two `await`s is one
 * step.  Messages are delivered, sessions end, queues are drained one message
 * at a time, workspaces are switched and closed, and approvals are asked,
 * answered or time out, in any order.
 */
module Scheduler {
  import opened Wrappers
  import opened QueryManagement

  /** `home` is the configured directory a new user starts in; "" means a user has no workspace. */
  datatype Adapter = Adapter(
    home: Cwd, active: map<User, Cwd>, manager: Manager, refused: seq<Message>, running: bool)

  datatype Event =
    | Deliver(msg: Message, quoted: Option<Cwd>)
    | Finish(q: nat)
    | Drain(q: nat)
    | Cd(user: User, cwd: Cwd)
    | Close(user: User, target: Cwd, next: Cwd)
    | Ask(q: nat)
    | Answer(user: User, allow: bool)
    | TimerFires(a: nat)
    | Shutdown

  function Initial(home: Cwd): Adapter {
    Adapter(home, map[], EMPTY, [], true)
  }

  function ActiveCwd(s: Adapter, u: User): Cwd {
    if u in s.active then s.active[u] else s.home
  }

  function EnsureUser(s: Adapter, u: User): Adapter {
    s.(active := s.active[u := ActiveCwd(s, u)])
  }

  function Enqueue(m: Manager, q: nat, msg: Message): Manager
    requires q < |m.queries|
  {
    SetQuery(m, q, m.queries[q].(queue := m.queries[q].queue + [msg]))
  }

  /** The chat path of `handleMessage`: refuse without a workspace, queue behind a running query, or start one. */
  function HandleChat(s: Adapter, msg: Message): Adapter {
    var s1 := EnsureUser(s, msg.user);
    var cwd := ActiveCwd(s, msg.user);
    if cwd == "" then s1.(refused := s1.refused + [msg])
    else
      var found := Lookup(s.manager.store, msg.user, cwd);
      if found.Some? && found.value < |s.manager.queries| then
        s1.(manager := Enqueue(s.manager, found.value, msg))
      else
        s1.(manager := Start(s.manager, msg.user, cwd, msg))
  }

  function FinishSession(m: Manager, q: nat): Manager
    requires q < |m.queries|
  {
    var m1 := Remove(m, m.queries[q].user, m.queries[q].cwd);
    SetQuery(m1, q, m1.queries[q].(phase := Draining(0)))
  }

  /** The next message of a finished session's queue, if there is one. */
  predicate CanDrain(m: Manager, q: nat) {
    && q < |m.queries|
    && m.queries[q].phase.Draining?
    && m.queries[q].phase.next < |m.queries[q].queue|
  }

  function NextItem(m: Manager, q: nat): Message
    requires CanDrain(m, q)
  {
    m.queries[q].queue[m.queries[q].phase.next]
  }

  /** The table after the next message has been taken out of a drain. */
  function TakeOut(m: Manager, q: nat): Manager
    requires CanDrain(m, q)
  {
    SetQuery(m, q, m.queries[q].(phase := Draining(m.queries[q].phase.next + 1)))
  }

  function DrainOne(s: Adapter, q: nat): Adapter
    requires CanDrain(s.manager, q)
  {
    HandleChat(s.(manager := TakeOut(s.manager, q)), NextItem(s.manager, q))
  }

  function AskApproval(m: Manager, q: nat): Manager
    requires q < |m.queries|
  {
    var a := |m.approvals|;
    SetPendingApproval(m.(approvals := m.approvals + [Approval(q, true, [])]), m.queries[q].user, m.queries[q].cwd, a)
  }

  function AnswerApproval(m: Manager, u: User, c: Cwd, allow: bool): Manager {
    var found := Lookup(m.store, u, c);
    if found.Some? && found.value < |m.queries| && m.queries[found.value].pending.Some?
      && m.queries[found.value].pending.value < |m.approvals|
    then ClearPendingApproval(Resolve(m, m.queries[found.value].pending.value, allow), u, c)
    else m
  }

  function ExpireApproval(m: Manager, a: nat): Manager
    requires a < |m.approvals| && m.approvals[a].asker < |m.queries|
  {
    var asker := m.queries[m.approvals[a].asker];
    Resolve(ClearPendingApproval(Disarm(m, Some(a)), asker.user, asker.cwd), a, false)
  }

  // ----- The steps; an event that cannot happen in state `s` changes nothing -----

  /** A message arrives; quoting a reply first switches to the workspace that reply came from, if it is known. */
  function OnDeliver(s: Adapter, msg: Message, quoted: Option<Cwd>): Adapter {
    HandleChat(if quoted.Some? then s.(active := s.active[msg.user := quoted.value]) else s, msg)
  }

  function OnFinish(s: Adapter, q: nat): Adapter {
    if q < |s.manager.queries| && s.manager.queries[q].phase.Live? then s.(manager := FinishSession(s.manager, q)) else s
  }

  function OnDrain(s: Adapter, q: nat): Adapter {
    if s.running && CanDrain(s.manager, q) then DrainOne(s, q) else s
  }

  function OnCd(s: Adapter, u: User, c: Cwd): Adapter {
    s.(active := s.active[u := c])
  }

  /** `next` is the workspace a user is left in who closes the active one. */
  function OnClose(s: Adapter, u: User, target: Cwd, next: Cwd): Adapter {
    s.(active := s.active[u := if ActiveCwd(s, u) == target then next else ActiveCwd(s, u)],
       manager := Abort(s.manager, u, target))
  }

  function OnAsk(s: Adapter, q: nat): Adapter {
    if q < |s.manager.queries| && s.manager.queries[q].phase.Live? then s.(manager := AskApproval(s.manager, q)) else s
  }

  function OnAnswer(s: Adapter, u: User, allow: bool): Adapter {
    if ActiveCwd(s, u) == "" then EnsureUser(s, u)
    else EnsureUser(s, u).(manager := AnswerApproval(s.manager, u, ActiveCwd(s, u), allow))
  }

  predicate CanExpire(m: Manager, a: nat) {
    a < |m.approvals| && m.approvals[a].armed && m.approvals[a].asker < |m.queries|
  }

  function OnTimer(s: Adapter, a: nat): Adapter {
    if CanExpire(s.manager, a) then s.(manager := ExpireApproval(s.manager, a)) else s
  }

  ghost function OnShutdown(s: Adapter): Adapter {
    if s.running then s.(manager := AbortAll(s.manager), running := false) else s
  }

  ghost function Step(s: Adapter, e: Event): Adapter {
    match e
    case Deliver(msg, quoted) => OnDeliver(s, msg, quoted)
    case Finish(q) => OnFinish(s, q)
    case Drain(q) => OnDrain(s, q)
    case Cd(u, c) => OnCd(s, u, c)
    case Close(u, target, next) => OnClose(s, u, target, next)
    case Ask(q) => OnAsk(s, q)
    case Answer(u, allow) => OnAnswer(s, u, allow)
    case TimerFires(a) => OnTimer(s, a)
    case Shutdown => OnShutdown(s)
  }

  ghost function Run(s: Adapter, events: seq<Event>): Adapter
    decreases |events|
  {
    if events == [] then s else Run(Step(s, events[0]), events[1..])
  }

  // ----- The adapter's own code -----

  class ChatAdapter {
    const home: Cwd
    const manager: QueryManager
    var active: map<User, Cwd>
    var refused: seq<Message>
    var running: bool

    ghost function Abs(): Adapter
      reads this, manager
    {
      Adapter(home, active, manager.Abs(), refused, running)
    }

    constructor (home: Cwd)
      ensures Abs() == Initial(home) && Valid(manager.Abs()) && fresh(manager)
    {
      this.home := home;
      manager := new QueryManager();
      active, refused, running := map[], [], true;
    }

    method UserCwd(u: User) returns (cwd: Cwd)
      modifies this`active
      ensures Abs() == EnsureUser(old(Abs()), u) && cwd == ActiveCwd(old(Abs()), u)
    {
      if u !in active {
        active := active[u := home];
      }
      cwd := active[u];
      assert active == active[u := cwd];
    }

    method Chat(msg: Message)
      requires Valid(manager.Abs())
      modifies this, manager
      ensures Abs() == HandleChat(old(Abs()), msg) && Valid(manager.Abs())
    {
      var cwd := UserCwd(msg.user);
      if cwd == "" {
        refused := refused + [msg];
        return;
      }
      var runningQuery := manager.Get(msg.user, cwd);
      if runningQuery.Some? {
        var q := runningQuery.value;
        EnqueueKeeps(manager.Abs(), q, msg);
        manager.queries := manager.queries[q := manager.queries[q].(queue := manager.queries[q].queue + [msg])];
        return;
      }
      var newQuery := manager.StartQuery(msg.user, cwd, msg);
    }

    method HandleMessage(msg: Message, quoted: Option<Cwd>)
      requires Valid(manager.Abs())
      modifies this, manager
      ensures Abs() == OnDeliver(old(Abs()), msg, quoted) && Valid(manager.Abs())
    {
      if quoted.Some? {
        active := active[msg.user := quoted.value];
      }
      Chat(msg);
    }

    /** The completion handler of a session, up to the start of `processQueue`. */
    method OnSessionEnd(q: nat)
      requires Valid(manager.Abs())
      requires q < |manager.queries| && manager.queries[q].phase.Live?
      modifies this, manager
      ensures Abs() == OnFinish(old(Abs()), q) && Valid(manager.Abs())
    {
      var removed := manager.RemoveQuery(manager.queries[q].user, manager.queries[q].cwd);
      MarkKeeps(manager.Abs(), q, manager.queries[q].(phase := Draining(0)));
      manager.queries := manager.queries[q := manager.queries[q].(phase := Draining(0))];
    }

    /** One round of the loop in `processQueue`, from one `await` to the next. */
    method ProcessNext(q: nat)
      requires Valid(manager.Abs())
      requires CanDrain(manager.Abs(), q)
      modifies this, manager
      ensures Abs() == OnDrain(old(Abs()), q) && Valid(manager.Abs())
    {
      if !running {
        return;
      }
      var query := manager.queries[q];
      var item := query.queue[query.phase.next];
      MarkKeeps(manager.Abs(), q, query.(phase := Draining(query.phase.next + 1)));
      manager.queries := manager.queries[q := query.(phase := Draining(query.phase.next + 1))];
      Chat(item);
    }

    method SwitchCwd(u: User, c: Cwd)
      modifies this`active
      ensures Abs() == OnCd(old(Abs()), u, c)
    {
      active := active[u := c];
    }

    method CloseWorkspace(u: User, target: Cwd, next: Cwd)
      requires Valid(manager.Abs())
      modifies this, manager
      ensures Abs() == OnClose(old(Abs()), u, target, next) && Valid(manager.Abs())
    {
      var cwd := UserCwd(u);
      var aborted := manager.AbortQuery(u, target);
      if cwd == target {
        active := active[u := next];
      }
      AbortAbsent(old(manager.Abs()), u, target);
    }

    /** The part of `canUseTool` that raises an approval. */
    method CanUseTool(q: nat)
      requires Valid(manager.Abs())
      requires q < |manager.queries| && manager.queries[q].phase.Live?
      modifies this, manager
      ensures Abs() == OnAsk(old(Abs()), q) && Valid(manager.Abs())
    {
      var a := |manager.approvals|;
      NewApprovalKeeps(manager.Abs(), q);
      manager.approvals := manager.approvals + [Approval(q, true, [])];
      manager.SetPending(manager.queries[q].user, manager.queries[q].cwd, a);
    }

    /** `/approve`, `/approve session` and `/deny`. */
    method HandleAnswer(u: User, allow: bool)
      requires Valid(manager.Abs())
      modifies this, manager
      ensures Abs() == OnAnswer(old(Abs()), u, allow) && Valid(manager.Abs())
    {
      var cwd := UserCwd(u);
      if cwd == "" {
        return;
      }
      var runningQuery := manager.Get(u, cwd);
      if runningQuery.Some? && manager.queries[runningQuery.value].pending.Some? {
        AnswerKeeps(manager.Abs(), u, cwd, allow);
        var a := manager.queries[runningQuery.value].pending.value;
        manager.approvals := manager.approvals[a :=
          manager.approvals[a].(decisions := manager.approvals[a].decisions + [allow])];
        manager.ClearPending(u, cwd);
      }
    }

    /** The 60 s timer of an approval. */
    method OnApprovalTimeout(a: nat)
      requires Valid(manager.Abs())
      requires CanExpire(manager.Abs(), a)
      modifies this, manager
      ensures Abs() == OnTimer(old(Abs()), a) && Valid(manager.Abs())
    {
      ExpireKeeps(manager.Abs(), a);
      var asker := manager.queries[manager.approvals[a].asker];
      manager.approvals := manager.approvals[a := manager.approvals[a].(armed := false)];
      manager.ClearPending(asker.user, asker.cwd);
      manager.approvals := manager.approvals[a :=
        manager.approvals[a].(decisions := manager.approvals[a].decisions + [false])];
    }

    method ShutDown()
      requires Valid(manager.Abs())
      modifies this, manager
      ensures Abs() == OnShutdown(old(Abs())) && Valid(manager.Abs())
    {
      if !running {
        return;
      }
      running := false;
      manager.AbortEverything();
    }
  }

  // ----- Every step keeps the manager valid -----

  /** Changing neither key nor pending approval of a query keeps the table valid. */
  lemma MarkKeeps(m: Manager, q: nat, query: Query)
    requires Valid(m) && q < |m.queries|
    requires query.user == m.queries[q].user && query.cwd == m.queries[q].cwd && query.pending == m.queries[q].pending
    ensures Valid(SetQuery(m, q, query))
  {
  }

  lemma EnqueueKeeps(m: Manager, q: nat, msg: Message)
    requires Valid(m) && q < |m.queries|
    ensures Valid(Enqueue(m, q, msg))
  {
  }

  lemma AbortAbsent(m: Manager, u: User, c: Cwd)
    ensures Lookup(m.store, u, c) == None ==> Abort(m, u, c) == m
  {
  }

  lemma NewApprovalKeeps(m: Manager, q: nat)
    requires Valid(m) && q < |m.queries|
    ensures var r := m.(approvals := m.approvals + [Approval(q, true, [])]);
      Valid(r) && !Awaited(r, |m.approvals|)
  {
  }

  lemma AskKeeps(m: Manager, q: nat)
    requires Valid(m) && q < |m.queries|
    ensures Valid(AskApproval(m, q))
  {
    NewApprovalKeeps(m, q);
    SetPendingKeeps(m.(approvals := m.approvals + [Approval(q, true, [])]), m.queries[q].user, m.queries[q].cwd, |m.approvals|);
  }

  lemma AnswerKeeps(m: Manager, u: User, c: Cwd, allow: bool)
    requires Valid(m)
    ensures Valid(AnswerApproval(m, u, c, allow))
  {
  }

  lemma ExpireKeepsPending(m: Manager, a: nat)
    requires Valid(m) && CanExpire(m, a)
    ensures PendingIsArmed(ExpireApproval(m, a))
  {
    hide DecidedOnce, NoEmptyUsers;
    var r := ExpireApproval(m, a);
    var asker := m.queries[m.approvals[a].asker];
    forall q | Stored(r, q) && r.queries[q].pending.Some?
      ensures PendingArmedAt(r, q)
    {
      assert Stored(m, q) && r.queries[q] == m.queries[q];
      assert PendingArmedAt(m, q);
      OthersStayArmed(m, asker.user, asker.cwd, q);
    }
  }

  lemma ExpireKeepsDecisions(m: Manager, a: nat)
    requires Valid(m) && CanExpire(m, a)
    ensures var r := ExpireApproval(m, a); Linked(r) && NoEmptyUsers(r) && DecidedOnce(r)
  {
    hide PendingIsArmed;
  }

  lemma ExpireKeeps(m: Manager, a: nat)
    requires Valid(m) && CanExpire(m, a)
    ensures Valid(ExpireApproval(m, a))
  {
    hide ExpireApproval, Linked, PendingIsArmed, DecidedOnce, NoEmptyUsers;
    ExpireKeepsPending(m, a);
    ExpireKeepsDecisions(m, a);
  }

  lemma ChatKeeps(s: Adapter, msg: Message)
    requires Valid(s.manager)
    ensures Valid(HandleChat(s, msg).manager)
  {
    var cwd := ActiveCwd(s, msg.user);
    var found := Lookup(s.manager.store, msg.user, cwd);
    if found.Some? {
      EnqueueKeeps(s.manager, found.value, msg);
    } else {
      StartKeeps(s.manager, msg.user, cwd, msg);
    }
  }

  lemma DeliverKeeps(s: Adapter, msg: Message, quoted: Option<Cwd>)
    requires Valid(s.manager)
    ensures Valid(OnDeliver(s, msg, quoted).manager)
  {
    ChatKeeps(if quoted.Some? then s.(active := s.active[msg.user := quoted.value]) else s, msg);
  }

  lemma FinishKeeps(m: Manager, q: nat)
    requires Valid(m) && q < |m.queries|
    ensures Valid(FinishSession(m, q))
  {
    var m1 := Remove(m, m.queries[q].user, m.queries[q].cwd);
    RemoveKeeps(m, m.queries[q].user, m.queries[q].cwd);
    MarkKeeps(m1, q, m1.queries[q].(phase := Draining(0)));
  }

  lemma TakeOutKeeps(m: Manager, q: nat)
    requires Valid(m) && CanDrain(m, q)
    ensures Valid(TakeOut(m, q))
  {
  }

  lemma DrainKeeps(s: Adapter, q: nat)
    requires Valid(s.manager) && CanDrain(s.manager, q)
    ensures Valid(DrainOne(s, q).manager)
  {
    TakeOutKeeps(s.manager, q);
    ChatKeeps(s.(manager := TakeOut(s.manager, q)), NextItem(s.manager, q));
  }

  lemma StepKeepsValid(s: Adapter, e: Event)
    requires Valid(s.manager)
    ensures Valid(Step(s, e).manager)
  {
    var m := s.manager;
    match e
    case Deliver(msg, quoted) => DeliverKeeps(s, msg, quoted);
    case Finish(q) => if q < |m.queries| { FinishKeeps(m, q); }
    case Drain(q) => if CanDrain(m, q) { DrainKeeps(s, q); }
    case Cd(_, _) =>
    case Close(u, target, _) => AbortKeeps(m, u, target);
    case Ask(q) => if q < |m.queries| { AskKeeps(m, q); }
    case Answer(u, allow) => AnswerKeeps(m, u, ActiveCwd(s, u), allow);
    case TimerFires(a) => if CanExpire(m, a) { ExpireKeeps(m, a); }
    case Shutdown => AbortAllKeeps(m);
  }

  /**
   * In every run, whatever the order of `/approve`, `/deny`, time-outs,
   * replacements, closes, session ends and shutdown: no approval is decided
   * twice, an approval whose timer is armed is undecided, and the approval a
   * running query waits for has its timer armed.
   */
  lemma {:induction false} ApprovalsDecidedOnce(s: Adapter, events: seq<Event>)
    requires Valid(s.manager)
    ensures Valid(Run(s, events).manager)
    decreases |events|
  {
    if events == [] {
    } else {
      StepKeepsValid(s, events[0]);
      ApprovalsDecidedOnce(Step(s, events[0]), events[1..]);
    }
  }

  lemma ApprovalsFromTheStart(home: Cwd, events: seq<Event>, a: nat)
    requires a < |Run(Initial(home), events).manager.approvals|
    ensures var approval := Run(Initial(home), events).manager.approvals[a];
      |approval.decisions| <= 1 && (approval.armed ==> approval.decisions == [])
  {
    ApprovalsDecidedOnce(Initial(home), events);
  }
}
