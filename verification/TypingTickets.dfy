/**
 * The typing-ticket cache and the in-flight protocol of its concurrent callers.
 * Tasks interleave at every lock; a step is what one task does under one lock,
 * the arrival of a server response, or time passing.
 */
module TypingTickets {
  import opened Wrappers

  type User = string
  type Ticket = string

  /** Milliseconds. */
  const TICKET_TTL := 600_000
  const POLL_TIMEOUT := 10_000

  datatype Entry = Entry(ticket: Ticket, created: int)

  datatype Task =
    | Looking(user: User)
    | Claiming(user: User)
    | Fetching(user: User)
    | Releasing(user: User, result: Option<Ticket>, readAt: int)
    | Polling(user: User, deadline: int)
    | Done(user: User, result: Option<Ticket>, readAt: int)

  /** The server issued `ticket` for `user` at time `at`. */
  datatype Issue = Issue(user: User, ticket: Ticket, at: int)

  datatype System = System(
    now: int, tickets: map<User, Entry>, inFlight: set<User>, tasks: seq<Task>, issued: set<Issue>)

  datatype Event =
    | Spawn(user: User)
    | TimePasses(ms: nat)
    | LookUp(i: nat)
    | Claim(i: nat)
    | Respond(i: nat, ticket: Option<Ticket>)
    | Release(i: nat)
    | Wake(i: nat)

  function Cached(tickets: map<User, Entry>, u: User, now: int): Option<Ticket> {
    if u in tickets && now - tickets[u].created < TICKET_TTL then Some(tickets[u].ticket) else None
  }

  class TypingTicketCache {
    var tickets: map<User, Entry>
    var inFlight: set<User>

    constructor ()
      ensures tickets == map[] && inFlight == {}
    {
      tickets, inFlight := map[], {};
    }

    method Get(u: User, now: int) returns (ticket: Option<Ticket>)
      ensures ticket == Cached(tickets, u, now)
    {
      if u in tickets {
        var entry := tickets[u];
        if now - entry.created < TICKET_TTL {
          return Some(entry.ticket);
        }
      }
      return None;
    }

    method Insert(u: User, ticket: Ticket, now: int)
      modifies this`tickets
      ensures tickets == old(tickets)[u := Entry(ticket, now)]
      ensures Cached(tickets, u, now) == Some(ticket)
    {
      tickets := tickets[u := Entry(ticket, now)];
    }

    /** Claim the slot of a user; `won` says whether this caller has it. */
    method TryClaim(u: User) returns (won: bool)
      modifies this`inFlight
      ensures won <==> u !in old(inFlight)
      ensures inFlight == old(inFlight) + {u}
    {
      won := u !in inFlight;
      inFlight := inFlight + {u};
    }

    method ReleaseSlot(u: User)
      modifies this`inFlight
      ensures inFlight == old(inFlight) - {u}
    {
      inFlight := inFlight - {u};
    }
  }

  function SetTask(s: System, i: nat, t: Task): System
    requires i < |s.tasks|
  {
    s.(tasks := s.tasks[i := t])
  }

  /** One step; an event a task is not ready for changes nothing. */
  function Step(s: System, e: Event): System {
    match e
    case Spawn(u) => s.(tasks := s.tasks + [Looking(u)])
    case TimePasses(ms) => s.(now := s.now + ms)
    case LookUp(i) =>
      if i < |s.tasks| && s.tasks[i].Looking? then
        var u := s.tasks[i].user;
        var hit := Cached(s.tickets, u, s.now);
        SetTask(s, i, if hit.Some? then Done(u, hit, s.now) else Claiming(u))
      else s
    case Claim(i) =>
      if i < |s.tasks| && s.tasks[i].Claiming? then
        var u := s.tasks[i].user;
        if u in s.inFlight then SetTask(s, i, Polling(u, s.now + POLL_TIMEOUT))
        else SetTask(s, i, Fetching(u)).(inFlight := s.inFlight + {u})
      else s
    case Respond(i, ticket) =>
      if i < |s.tasks| && s.tasks[i].Fetching? then
        var u := s.tasks[i].user;
        var t := SetTask(s, i, Releasing(u, ticket, s.now));
        if ticket.Some? then
          t.(tickets := s.tickets[u := Entry(ticket.value, s.now)],
             issued := s.issued + {Issue(u, ticket.value, s.now)})
        else t
      else s
    case Release(i) =>
      if i < |s.tasks| && s.tasks[i].Releasing? then
        var task := s.tasks[i];
        SetTask(s, i, Done(task.user, task.result, task.readAt)).(inFlight := s.inFlight - {task.user})
      else s
    case Wake(i) =>
      if i < |s.tasks| && s.tasks[i].Polling? then
        var u := s.tasks[i].user;
        var hit := Cached(s.tickets, u, s.now);
        if hit.Some? then SetTask(s, i, Done(u, hit, s.now))
        else if s.now < s.tasks[i].deadline then s
        else SetTask(s, i, Done(u, None, s.now))
      else s
  }

  function Run(s: System, events: seq<Event>): System
    decreases |events|
  {
    if events == [] then s else Run(Step(s, events[0]), events[1..])
  }

  function Initial(now: int): System {
    System(now, map[], {}, [], {})
  }

  /**
   * The concurrent calls of `get_or_fetch`, each method being the code one call
   * runs from one lock, server answer or wake-up to the next.
   */
  class TicketCalls {
    const cache: TypingTicketCache
    var now: int
    var tasks: seq<Task>
    ghost var issued: set<Issue>

    ghost function Abs(): System
      reads this, cache
    {
      System(now, cache.tickets, cache.inFlight, tasks, issued)
    }

    constructor (now: int)
      ensures Abs() == Initial(now) && fresh(cache)
    {
      cache := new TypingTicketCache();
      this.now, tasks, issued := now, [], {};
    }

    method Call(u: User)
      modifies this`tasks
      ensures Abs() == Step(old(Abs()), Spawn(u))
    {
      tasks := tasks + [Looking(u)];
    }

    method CheckCache(i: nat)
      requires i < |tasks| && tasks[i].Looking?
      modifies this`tasks
      ensures Abs() == Step(old(Abs()), LookUp(i))
    {
      var u := tasks[i].user;
      var ticket := cache.Get(u, now);
      if ticket.Some? {
        tasks := tasks[i := Done(u, ticket, now)];
      } else {
        tasks := tasks[i := Claiming(u)];
      }
    }

    method ClaimSlot(i: nat)
      requires i < |tasks| && tasks[i].Claiming?
      modifies this`tasks, cache
      ensures Abs() == Step(old(Abs()), Claim(i))
    {
      var u := tasks[i].user;
      var won := cache.TryClaim(u);
      if won {
        tasks := tasks[i := Fetching(u)];
      } else {
        assert cache.inFlight == old(cache.inFlight);
        tasks := tasks[i := Polling(u, now + POLL_TIMEOUT)];
      }
    }

    method OnResponse(i: nat, ticket: Option<Ticket>)
      requires i < |tasks| && tasks[i].Fetching?
      modifies this`tasks, this`issued, cache
      ensures Abs() == Step(old(Abs()), Respond(i, ticket))
    {
      var u := tasks[i].user;
      if ticket.Some? {
        cache.Insert(u, ticket.value, now);
        issued := issued + {Issue(u, ticket.value, now)};
      }
      tasks := tasks[i := Releasing(u, ticket, now)];
    }

    method Finish(i: nat)
      requires i < |tasks| && tasks[i].Releasing?
      modifies this`tasks, cache
      ensures Abs() == Step(old(Abs()), Release(i))
    {
      cache.ReleaseSlot(tasks[i].user);
      tasks := tasks[i := Done(tasks[i].user, tasks[i].result, tasks[i].readAt)];
    }

    /** One round of the polling loop, after its sleep. */
    method PollOnce(i: nat)
      requires i < |tasks| && tasks[i].Polling?
      modifies this`tasks
      ensures Abs() == Step(old(Abs()), Wake(i))
    {
      var u := tasks[i].user;
      var ticket := cache.Get(u, now);
      if ticket.Some? {
        tasks := tasks[i := Done(u, ticket, now)];
      } else if now >= tasks[i].deadline {
        tasks := tasks[i := Done(u, None, now)];
      }
    }
  }

  // ----- What every step keeps -----

  predicate HoldsSlot(t: Task) {
    t.Fetching? || t.Releasing?
  }

  /** The in-flight set is exactly the users whose slot some task holds, and no two hold one for the same user. */
  ghost predicate SlotsExact(s: System) {
    && (forall i :: 0 <= i < |s.tasks| && HoldsSlot(s.tasks[i]) ==> s.tasks[i].user in s.inFlight)
    && (forall u :: u in s.inFlight ==> exists i :: 0 <= i < |s.tasks| && HoldsSlot(s.tasks[i]) && s.tasks[i].user == u)
    && (forall i, j | 0 <= i < |s.tasks| && 0 <= j < |s.tasks| && HoldsSlot(s.tasks[i]) && HoldsSlot(s.tasks[j]) ::
      s.tasks[i].user == s.tasks[j].user ==> i == j)
  }

  /** `ticket` was issued for `u` less than the ticket's lifetime before `readAt`. */
  ghost predicate Genuine(s: System, u: User, ticket: Ticket, readAt: int) {
    exists at :: Issue(u, ticket, at) in s.issued && at <= readAt < at + TICKET_TTL
  }

  ghost predicate TicketsGenuine(s: System) {
    && (forall u :: u in s.tickets ==>
      Issue(u, s.tickets[u].ticket, s.tickets[u].created) in s.issued && s.tickets[u].created <= s.now)
    && (forall i :: 0 <= i < |s.tasks| && (s.tasks[i].Done? || s.tasks[i].Releasing?) && s.tasks[i].result.Some? ==>
      Genuine(s, s.tasks[i].user, s.tasks[i].result.value, s.tasks[i].readAt))
  }

  /** Only task `i` moves, and the in-flight set follows what it does with its slot. */
  ghost predicate TaskMoves(s: System, r: System, i: nat)
    requires i < |s.tasks|
  {
    var u := s.tasks[i].user;
    && |r.tasks| == |s.tasks| && r.tasks[i].user == u
    && (forall j :: 0 <= j < |s.tasks| && j != i ==> r.tasks[j] == s.tasks[j])
    && (HoldsSlot(r.tasks[i]) && !HoldsSlot(s.tasks[i]) ==> u !in s.inFlight)
    && r.inFlight ==
      if HoldsSlot(r.tasks[i]) then s.inFlight + {u} else if HoldsSlot(s.tasks[i]) then s.inFlight - {u} else s.inFlight
  }

  lemma SlotsUpdate(s: System, r: System, i: nat)
    requires SlotsExact(s) && i < |s.tasks| && TaskMoves(s, r, i)
    ensures SlotsExact(r)
  {
  }

  lemma SpawnKeepsSlots(s: System, u: User)
    requires SlotsExact(s)
    ensures SlotsExact(s.(tasks := s.tasks + [Looking(u)]))
  {
    var r := s.(tasks := s.tasks + [Looking(u)]);
    forall v | v in r.inFlight
      ensures exists j :: 0 <= j < |r.tasks| && HoldsSlot(r.tasks[j]) && r.tasks[j].user == v
    {
      var j :| 0 <= j < |s.tasks| && HoldsSlot(s.tasks[j]) && s.tasks[j].user == v;
      assert r.tasks[j] == s.tasks[j];
    }
  }

  /** The events that concern one task. */
  function TaskOf(e: Event): Option<nat> {
    match e
    case Spawn(_) => None
    case TimePasses(_) => None
    case LookUp(i) => Some(i)
    case Claim(i) => Some(i)
    case Respond(i, _) => Some(i)
    case Release(i) => Some(i)
    case Wake(i) => Some(i)
  }

  lemma StepMovesTask(s: System, e: Event, i: nat)
    requires SlotsExact(s) && TaskOf(e) == Some(i) && i < |s.tasks|
    ensures TaskMoves(s, Step(s, e), i)
  {
  }

  lemma StepKeepsSlots(s: System, e: Event)
    requires SlotsExact(s)
    ensures SlotsExact(Step(s, e))
  {
    match e
    case Spawn(u) => SpawnKeepsSlots(s, u);
    case TimePasses(_) =>
    case _ =>
      var i := TaskOf(e).value;
      if i < |s.tasks| {
        StepMovesTask(s, e, i);
        SlotsUpdate(s, Step(s, e), i);
      }
  }

  lemma StepKeepsTickets(s: System, e: Event)
    requires TicketsGenuine(s)
    ensures TicketsGenuine(Step(s, e))
  {
  }

  lemma {:induction false} RunKeeps(s: System, events: seq<Event>)
    requires SlotsExact(s) && TicketsGenuine(s)
    ensures SlotsExact(Run(s, events)) && TicketsGenuine(Run(s, events))
    decreases |events|
  {
    if events == [] {
    } else {
      StepKeepsSlots(s, events[0]);
      StepKeepsTickets(s, events[0]);
      RunKeeps(Step(s, events[0]), events[1..]);
    }
  }

  /** For any number of interleaved tasks, the in-flight set is exactly the users whose slot some task holds. */
  lemma InFlightIsExact(start: int, events: seq<Event>, u: User)
    ensures var s := Run(Initial(start), events);
      u in s.inFlight <==> exists i :: 0 <= i < |s.tasks| && HoldsSlot(s.tasks[i]) && s.tasks[i].user == u
  {
    RunKeeps(Initial(start), events);
  }

  /** At most one request for a ticket per user is outstanding. */
  lemma OneFetchPerUser(start: int, events: seq<Event>, i: nat, j: nat)
    requires var s := Run(Initial(start), events);
      i < |s.tasks| && j < |s.tasks| && s.tasks[i].Fetching? && s.tasks[j].Fetching? && s.tasks[i].user == s.tasks[j].user
    ensures i == j
  {
    RunKeeps(Initial(start), events);
  }

  /** Every ticket a task returns was issued for its user less than 600 s before it was read. */
  lemma ReturnedTicketsAreGenuine(start: int, events: seq<Event>, i: nat)
    requires var s := Run(Initial(start), events);
      i < |s.tasks| && s.tasks[i].Done? && s.tasks[i].result.Some?
    ensures var s := Run(Initial(start), events);
      exists at :: Issue(s.tasks[i].user, s.tasks[i].result.value, at) in s.issued
        && at <= s.tasks[i].readAt < at + 600_000
  {
    RunKeeps(Initial(start), events);
    var s := Run(Initial(start), events);
    assert Genuine(s, s.tasks[i].user, s.tasks[i].result.value, s.tasks[i].readAt);
  }

  // ----- What each step of a call does -----

  /** The cache holds a ticket of `u` that is less than 600 s old at `now`. */
  predicate HasFresh(s: System, u: User, now: int) {
    u in s.tickets && now - s.tickets[u].created < 600_000
  }

  /** Time passes and calls begin without touching anything else. */
  lemma TimeAndSpawnDo(s: System, ms: nat, u: User)
    ensures Step(s, TimePasses(ms)) == s.(now := s.now + ms)
    ensures Step(s, Spawn(u)) == s.(tasks := s.tasks + [Looking(u)])
  {
  }

  /** A call whose look-up finds a fresh ticket returns it; any other goes on to claim the slot. */
  lemma LookUpDoes(s: System, i: nat)
    requires i < |s.tasks| && s.tasks[i].Looking?
    ensures var u := s.tasks[i].user;
      Step(s, LookUp(i)) == s.(tasks := s.tasks[i :=
        if HasFresh(s, u, s.now) then Done(u, Some(s.tickets[u].ticket), s.now) else Claiming(u)])
  {
  }

  /** A free slot is taken and a fetch begins; if it is taken already the call polls for 10 s. */
  lemma ClaimDoes(s: System, i: nat)
    requires i < |s.tasks| && s.tasks[i].Claiming?
    ensures var u := s.tasks[i].user;
      Step(s, Claim(i)) ==
        if u in s.inFlight then s.(tasks := s.tasks[i := Polling(u, s.now + 10_000)])
        else s.(tasks := s.tasks[i := Fetching(u)], inFlight := s.inFlight + {u})
  {
  }

  /** A ticket the server answers with is cached from this moment and is what the call will return. */
  lemma ResponseDoes(s: System, i: nat, ticket: Option<Ticket>)
    requires i < |s.tasks| && s.tasks[i].Fetching?
    ensures var u, t := s.tasks[i].user, Step(s, Respond(i, ticket));
      && t.tasks == s.tasks[i := Releasing(u, ticket, s.now)]
      && t.inFlight == s.inFlight && t.now == s.now
      && t.tickets == (if ticket.Some? then s.tickets[u := Entry(ticket.value, s.now)] else s.tickets)
      && (ticket.Some? ==> HasFresh(t, u, t.now) && t.tickets[u].ticket == ticket.value)
  {
  }

  /** Releasing gives the slot back and returns what the fetch brought. */
  lemma ReleaseDoes(s: System, i: nat)
    requires i < |s.tasks| && s.tasks[i].Releasing?
    ensures var task, t := s.tasks[i], Step(s, Release(i));
      t == s.(tasks := s.tasks[i := Done(task.user, task.result, task.readAt)], inFlight := s.inFlight - {task.user})
  {
  }

  /** A polling call returns a fresh ticket as soon as it wakes to one, gives up at its deadline, and else polls on. */
  lemma WakeDoes(s: System, i: nat)
    requires i < |s.tasks| && s.tasks[i].Polling?
    ensures var u, t := s.tasks[i].user, Step(s, Wake(i));
      t == s.(tasks := s.tasks[i :=
        if HasFresh(s, u, s.now) then Done(u, Some(s.tickets[u].ticket), s.now)
        else if s.now >= s.tasks[i].deadline then Done(u, None, s.now)
        else s.tasks[i]])
  {
  }

  // ----- When a fetch is redundant -----

  /** In state `s` the event brings a ticket for `u` into the cache. */
  predicate Stores(s: System, e: Event, u: User) {
    e.Respond? && e.ticket.Some? && e.i < |s.tasks| && s.tasks[e.i] == Fetching(u)
  }

  /** When a ticket for `u` was last cached in the run of `events` from `s`, if one was. */
  function LastStored(s: System, events: seq<Event>, u: User): Option<int>
    decreases |events|
  {
    if events == [] then None
    else
      var later := LastStored(Step(s, events[0]), events[1..], u);
      if later.Some? then later else if Stores(s, events[0], u) then Some(s.now) else None
  }

  predicate Fresh(stored: Option<int>, now: int) {
    stored.Some? && now - stored.value < TICKET_TTL
  }

  /** After any run, a user has a fresh ticket exactly when the last one cached, in the run or before it, is still fresh. */
  lemma {:induction false} CachedExactlyWhen(s: System, events: seq<Event>, u: User)
    ensures var r := Run(s, events);
      var stored := LastStored(s, events, u);
      Cached(r.tickets, u, r.now).Some? <==>
        Fresh(if stored.Some? then stored else if u in s.tickets then Some(s.tickets[u].created) else None, r.now)
    decreases |events|
  {
    if events == [] {
    } else {
      CachedExactlyWhen(Step(s, events[0]), events[1..], u);
    }
  }

  lemma {:induction false} UserStays(s: System, events: seq<Event>, i: nat)
    requires i < |s.tasks|
    ensures var r := Run(s, events);
      r.now >= s.now && i < |r.tasks| && r.tasks[i].user == s.tasks[i].user
    decreases |events|
  {
    if events == [] {
    } else {
      UserStays(Step(s, events[0]), events[1..], i);
    }
  }

  /** Claiming in state `s`, task `i` starts a fetch although a fresh ticket of its user is cached. */
  predicate FetchesInVain(s: System, i: nat)
    requires i < |s.tasks|
  {
    var t := Step(s, Claim(i));
    t.tasks[i].Fetching? && Cached(t.tickets, t.tasks[i].user, t.now).Some?
  }

  /**
   * A task missed the cache in state `s` and, after any further events, is about
   * to claim the slot.  The fetch it then starts is redundant exactly when the
   * slot is free and a ticket of its user was cached since the miss and is still
   * fresh: the code does not look at the cache again.
   */
  lemma FetchIsRedundantExactlyWhen(s: System, events: seq<Event>, i: nat)
    requires i < |s.tasks| && s.tasks[i].Looking? && Cached(s.tickets, s.tasks[i].user, s.now).None?
    requires i < |Run(s, [LookUp(i)] + events).tasks| && Run(s, [LookUp(i)] + events).tasks[i].Claiming?
    ensures var u, r := s.tasks[i].user, Run(s, [LookUp(i)] + events);
      FetchesInVain(r, i) <==> u !in r.inFlight && Fresh(LastStored(s, [LookUp(i)] + events, u), r.now)
  {
    var u, all := s.tasks[i].user, [LookUp(i)] + events;
    CachedExactlyWhen(s, all, u);
    UserStays(s, all, i);
  }

  /** Two calls for one user have started, and the first has missed the cache. */
  function FirstMissed(start: int, u: User): System {
    System(start, map[], {}, [Claiming(u), Looking(u)], {})
  }

  /** Then the second misses it too, and the first fetches a ticket and gives the slot back. */
  function FetchOfFirst(ticket: Ticket): seq<Event> {
    [Claim(0), Respond(0, Some(ticket)), Release(0)]
  }

  lemma FirstMisses(start: int, u: User, rest: seq<Event>)
    ensures Run(Initial(start), [Spawn(u), Spawn(u), LookUp(0)] + rest) == Run(FirstMissed(start, u), rest)
  {
    var s2 := System(start, map[], {}, [Looking(u), Looking(u)], {});
    assert Step(Step(Initial(start), Spawn(u)), Spawn(u)) == s2;
    assert Step(s2, LookUp(0)) == FirstMissed(start, u);
    hide Step;
    RunThree(Initial(start), Spawn(u), Spawn(u), LookUp(0), rest);
  }

  lemma FirstFetches(start: int, u: User, ticket: Ticket)
    ensures var s3, s4 := FirstMissed(start, u), System(start, map[], {}, [Claiming(u), Claiming(u)], {});
      var s7 := System(start, map[u := Entry(ticket, start)], {}, [Done(u, Some(ticket), start), Claiming(u)],
                       {Issue(u, ticket, start)});
      && Step(s3, LookUp(1)) == s4
      && Run(s4, FetchOfFirst(ticket)) == s7
      && LastStored(s4, FetchOfFirst(ticket), u) == Some(start)
  {
    var s4 := System(start, map[], {}, [Claiming(u), Claiming(u)], {});
    var s5 := System(start, map[], {u}, [Fetching(u), Claiming(u)], {});
    var s6 := Step(s5, Respond(0, Some(ticket)));
    assert Step(s4, Claim(0)) == s5;
    assert s6.inFlight - {u} == {};
    RunThree(s4, Claim(0), Respond(0, Some(ticket)), Release(0), []);
    assert FetchOfFirst(ticket) + [] == FetchOfFirst(ticket);
    StoredLast(s4, Claim(0), Respond(0, Some(ticket)), Release(0), u);
  }

  /**
   * The shortest case: of two calls that miss the cache, one fetches and gives
   * the slot back, and the other then fetches once more, although a ticket
   * issued this very moment is cached.
   */
  lemma RedundantFetch(start: int, u: User, ticket: Ticket)
    ensures var events := [Spawn(u), Spawn(u), LookUp(0)] + ([LookUp(1)] + FetchOfFirst(ticket));
      var s := Run(Initial(start), events);
      |s.tasks| == 2 && FetchesInVain(s, 1)
  {
    var s3, rest := FirstMissed(start, u), FetchOfFirst(ticket);
    FirstMisses(start, u, [LookUp(1)] + rest);
    FirstFetches(start, u, ticket);
    assert ([LookUp(1)] + rest)[1..] == rest;
    assert LastStored(s3, [LookUp(1)] + rest, u) == Some(start);
    assert Run(s3, [LookUp(1)] + rest) == Run(Step(s3, LookUp(1)), rest);
    hide Step, Run, LastStored, FetchesInVain, FetchOfFirst;
    FetchIsRedundantExactlyWhen(s3, rest, 1);
  }

  lemma RunThree(s: System, a: Event, b: Event, c: Event, rest: seq<Event>)
    ensures Run(s, [a, b, c] + rest) == Run(Step(Step(Step(s, a), b), c), rest)
  {
    hide Step;
    var t := Step(s, a);
    var u := Step(t, b);
    assert ([a, b, c] + rest)[1..] == [b, c] + rest;
    assert ([b, c] + rest)[1..] == [c] + rest;
    assert ([c] + rest)[1..] == rest;
    assert Run(u, [c] + rest) == Run(Step(u, c), rest);
    assert Run(t, [b, c] + rest) == Run(u, [c] + rest);
  }

  /** Of three events only the second brings a ticket. */
  lemma StoredLast(s: System, a: Event, b: Event, c: Event, u: User)
    requires Stores(Step(s, a), b, u) && !Stores(Step(Step(s, a), b), c, u)
    ensures LastStored(s, [a, b, c], u) == Some(Step(s, a).now)
  {
    hide Step, Stores;
    var t := Step(s, a);
    assert [a, b, c][1..] == [b, c] && [b, c][1..] == [c] && [c][1..] == [];
    assert LastStored(Step(t, b), [c], u) == None;
    assert LastStored(t, [b, c], u) == Some(t.now);
  }
}
