/**
 * Replies that quote a message: the gateway stores the context of what it sends
 * under the id of the sent message, and sends a quoting reply to the agent that
 * context names, past the active agent.
 */
module ReferenceReplies {
  import opened Wrappers
  import opened ContextTable
  import opened Routing
  import ResilientSending

  /** The agent a stored context names, if the context parses and names one. */
  type AgentOf = Context -> Option<Agent>

  /** The id the first item of a message quotes. */
  function QuotedId(msg: WeixinMessage): Option<MsgId> {
    if msg.items.Some? && msg.items.value != [] then msg.items.value[0].quoted else None
  }

  /** The registered agent, with its context, that a quoting message is for. */
  function Target(rows: Table, s: RouterState, msg: WeixinMessage, agentOf: AgentOf): Option<(Agent, Context)> {
    if QuotedId(msg).None? then None
    else
      var context := Find(rows, QuotedId(msg).value);
      if context.None? then None
      else
        var agent := agentOf(context.value);
        if agent.Some? && agent.value in s.registry then Some((agent.value, context.value)) else None
  }

  /** The reference-reply branch and what follows it, for one message that was not seen before. */
  function Process(rows: Table, s: RouterState, msg: WeixinMessage, agentOf: AgentOf, parse: string -> Option<Command>)
    : (RouterState, Option<Incoming>)
  {
    var target := Target(rows, s, msg, agentOf);
    if target.Some? then
      var (t, routed) := RouteToAgent(s, msg, target.value.0, Some(target.value.1));
      if routed.RouteOk? then (t, None)
      else
        var (u, r) := HandleIncoming(t, msg, parse);
        (u, Some(r))
    else
      var (t, r) := HandleIncoming(s, msg, parse);
      (t, Some(r))
  }

  /** The message loop of the gateway over one store and one router. */
  class Gateway {
    const store: SqliteStore
    const router: Router

    constructor (store: SqliteStore, router: Router)
      ensures this.store == store && this.router == router
    {
      this.store, this.router := store, router;
    }

    /** `None` when the message went to the agent it quotes, else the outcome of the ordinary path. */
    method OnMessage(msg: WeixinMessage, agentOf: AgentOf, parse: string -> Option<Command>)
      returns (outcome: Option<Incoming>)
      requires store.Valid()
      modifies router, router.queue
      ensures store.Valid()
      ensures (router.Abs(), outcome) == Process(store.rows, old(router.Abs()), msg, agentOf, parse)
    {
      var refRouted := false;
      var target := ReferenceTarget(msg, agentOf);
      if target.Some? {
        var routed := router.Route(msg, target.value.0, Some(target.value.1));
        refRouted := routed.RouteOk?;
      }
      if refRouted {
        return None;
      }
      var r := router.Handle(msg, parse);
      return Some(r);
    }

    method ReferenceTarget(msg: WeixinMessage, agentOf: AgentOf) returns (target: Option<(Agent, Context)>)
      requires store.Valid()
      ensures target == Target(store.rows, router.Abs(), msg, agentOf)
    {
      if msg.items.None? || |msg.items.value| == 0 || msg.items.value[0].quoted.None? {
        return None;
      }
      var context := store.GetMsgAgentContext(msg.items.value[0].quoted.value);
      if context.None? {
        return None;
      }
      var agent := agentOf(context.value);
      if agent.Some? && agent.value in router.registry {
        return Some((agent.value, context.value));
      }
      return None;
    }

    /** After a reply was sent: remember its context under the id the server gave the message. */
    method OnReplySent(result: ResilientSending.SendResult, agentContext: Option<Context>, now: int)
      requires store.Valid()
      modifies store
      ensures store.Valid() && store.saves == old(store.saves) + Saved(result, agentContext, now)
      ensures result.Sent? && result.msgId.Some? && agentContext.Some? ==>
        store.saves == old(store.saves) + [SaveCall(result.msgId.value, agentContext.value, now)]
      ensures !(result.Sent? && result.msgId.Some? && agentContext.Some?) ==> store.saves == old(store.saves)
    {
      match result
      case Sent(msgId) =>
        if msgId.Some? && agentContext.Some? {
          store.SaveMsgAgentContext(msgId.value, agentContext.value, now);
        }
      case _ =>
    }
  }

  /** The save a sent reply leads to: only a delivered message with an id, and only when the reply has a context. */
  function Saved(result: ResilientSending.SendResult, agentContext: Option<Context>, now: int): seq<SaveCall> {
    if result.Sent? && result.msgId.Some? && agentContext.Some? then
      [SaveCall(result.msgId.value, agentContext.value, now)]
    else []
  }

  // ----- Whole runs of the gateway -----

  datatype Event =
    | ReplySent(result: ResilientSending.SendResult, agentContext: Option<Context>, at: int)
    | Message(msg: WeixinMessage)
    | AgentPolls(agent: Agent)
    | RouterChanges(registry: set<Agent>, active: Option<Agent>, policies: Policies)

  datatype State = State(rows: Table, router: RouterState)

  function Step(s: State, e: Event, agentOf: AgentOf, parse: string -> Option<Command>): State {
    match e
    case ReplySent(result, context, at) =>
      if Saved(result, context, at) == [] then s
      else s.(rows := Save(s.rows, result.msgId.value, context.value, at))
    case Message(msg) => s.(router := Process(s.rows, s.router, msg, agentOf, parse).0)
    case AgentPolls(agent) => s.(router := s.router.(queues := Drained(s.router.queues, agent)))
    case RouterChanges(registry, active, policies) =>
      s.(router := RouterState(registry, active, policies, s.router.queues))
  }

  /** The state after `events`, starting from an empty table. */
  function Run(router: RouterState, events: seq<Event>, agentOf: AgentOf, parse: string -> Option<Command>): State {
    if events == [] then State([], router)
    else Step(Run(router, events[..|events| - 1], agentOf, parse), events[|events| - 1], agentOf, parse)
  }

  /** The saves a run makes. */
  function SavesOf(events: seq<Event>): seq<SaveCall> {
    if events == [] then []
    else
      var e := events[|events| - 1];
      SavesOf(events[..|events| - 1]) + (if e.ReplySent? then Saved(e.result, e.agentContext, e.at) else [])
  }

  /** The context the last reply delivered under id `m` carried, of those that carried one. */
  function LastSent(events: seq<Event>, m: MsgId): Option<Context> {
    if events == [] then None
    else
      var e := events[|events| - 1];
      if e.ReplySent? && e.result == ResilientSending.Sent(Some(m)) && e.agentContext.Some? then e.agentContext
      else LastSent(events[..|events| - 1], m)
  }

  /** The other ids of replies delivered with a context since the last one under `m`. */
  function OthersSent(events: seq<Event>, m: MsgId): set<MsgId> {
    if events == [] then {}
    else
      var e, others := events[|events| - 1], OthersSent(events[..|events| - 1], m);
      match e
      case ReplySent(Sent(Some(id)), Some(_), _) => if id == m then {} else others + {id}
      case _ => others
  }

  /** The clock did not run backwards between replies. */
  predicate SentInOrder(events: seq<Event>) {
    forall i, j :: 0 <= i < j < |events| && events[i].ReplySent? && events[j].ReplySent? ==> events[i].at <= events[j].at
  }

  lemma SavesSnoc(saves: seq<SaveCall>, call: SaveCall, m: MsgId)
    ensures LastContext(saves + [call], m) == if call.id == m then Some(call.context) else LastContext(saves, m)
    ensures OthersSince(saves + [call], m) == if call.id == m then {} else OthersSince(saves, m) + {call.id}
  {
    assert (saves + [call])[..|saves|] == saves;
  }

  lemma NothingSaved(before: seq<Event>, e: Event)
    requires !(e.ReplySent? && e.result.Sent? && e.result.msgId.Some? && e.agentContext.Some?)
    ensures SavesOf(before + [e]) == SavesOf(before)
  {
    assert (before + [e])[..|before|] == before;
  }

  /** What the store is asked to save are exactly the contexts of delivered replies, under their ids and in their order. */
  lemma {:induction false} SavesAreSent(events: seq<Event>, m: MsgId)
    ensures LastContext(SavesOf(events), m) == LastSent(events, m)
    ensures OthersSince(SavesOf(events), m) == OthersSent(events, m)
    decreases |events|
  {
    if events == [] {
    } else {
      var before, e := events[..|events| - 1], events[|events| - 1];
      SavesAreSent(before, m);
      if e.ReplySent? && e.result.Sent? && e.result.msgId.Some? && e.agentContext.Some? {
        var call := SaveCall(e.result.msgId.value, e.agentContext.value, e.at);
        assert SavesOf(events) == SavesOf(before) + [call];
        hide SavesOf, LastContext, OthersSince;
        SavesSnoc(SavesOf(before), call, m);
      } else {
        NothingSaved(before, e);
        assert events == before + [e];
        hide SavesOf, LastContext, OthersSince;
      }
    }
  }

  lemma {:induction false} SavesInOrder(events: seq<Event>)
    requires SentInOrder(events)
    ensures Ordered(SavesOf(events))
    ensures forall c :: c in SavesOf(events) ==> exists i :: 0 <= i < |events| && events[i].ReplySent? && events[i].at == c.at
    decreases |events|
  {
    if events == [] {
    } else {
      var before, e := events[..|events| - 1], events[|events| - 1];
      SavesInOrder(before);
      assert events == before + [e];
      forall c | c in SavesOf(events)
        ensures exists i :: 0 <= i < |events| && events[i].ReplySent? && events[i].at == c.at
      {
        if c in SavesOf(before) {
          var i :| 0 <= i < |before| && before[i].ReplySent? && before[i].at == c.at;
          assert events[i] == before[i];
        } else {
          assert events[|events| - 1].at == c.at;
        }
      }
      forall i, j | 0 <= i < j < |SavesOf(events)|
        ensures SavesOf(events)[i].at <= SavesOf(events)[j].at
      {
        if j == |SavesOf(before)| {
          assert SavesOf(events)[i] in SavesOf(before);
        }
      }
    }
  }

  /** The table of a run is what its saves alone leave. */
  lemma {:induction false} TableOfRun(router: RouterState, events: seq<Event>, agentOf: AgentOf, parse: string -> Option<Command>)
    ensures Run(router, events, agentOf, parse).rows == Replay(SavesOf(events))
  {
    if events == [] {
    } else {
      var before, e := events[..|events| - 1], events[|events| - 1];
      TableOfRun(router, before, agentOf, parse);
      if e.ReplySent? && Saved(e.result, e.agentContext, e.at) != [] {
        ReplaySnoc(SavesOf(before), SaveCall(e.result.msgId.value, e.agentContext.value, e.at));
      } else {
        assert SavesOf(events) == SavesOf(before);
      }
    }
  }

  /** What each event does to the router: only messages, polls and changes of its settings touch it, and replies never do. */
  lemma RouterAfter(s: State, e: Event, agentOf: AgentOf, parse: string -> Option<Command>)
    ensures var t := Step(s, e, agentOf, parse);
      && (e.ReplySent? ==> t.router == s.router)
      && (!e.ReplySent? ==> t.rows == s.rows)
      && (e.Message? ==> t.router == Process(s.rows, s.router, e.msg, agentOf, parse).0)
      && (e.AgentPolls? ==>
        && t.router == s.router.(queues := t.router.queues) && QueueOf(t.router.queues, e.agent) == []
        && forall other :: other != e.agent ==> QueueOf(t.router.queues, other) == QueueOf(s.router.queues, other))
      && (e.RouterChanges? ==>
        t.router == RouterState(e.registry, e.active, e.policies, s.router.queues))
  {
  }

  /** A message that quotes nothing the table knows with a registered agent takes the ordinary path and no other. */
  lemma OrdinaryPath(rows: Table, s: RouterState, msg: WeixinMessage, agentOf: AgentOf, parse: string -> Option<Command>)
    requires Process(rows, s, msg, agentOf, parse).1 != None
    ensures var (t, r) := HandleIncoming(s, msg, parse); Process(rows, s, msg, agentOf, parse) == (t, Some(r))
  {
    if Target(rows, s, msg, agentOf).Some? {
      QuotingConverts(msg, Some(Target(rows, s, msg, agentOf).value.1));
    }
  }

  /** A dropped message that quotes is dropped on the reference path too: nothing changes and nothing is answered. */
  lemma DroppedQuoteChangesNothing(rows: Table, s: RouterState, msg: WeixinMessage, agentOf: AgentOf, parse: string -> Option<Command>)
    requires !Admitted(s.policies, msg)
    ensures Process(rows, s, msg, agentOf, parse).0 == s
  {
  }

  /** The id a message quotes is the one of its first item, and only that. */
  lemma QuotedIdIs(msg: WeixinMessage, first: MessageItem, rest: seq<MessageItem>)
    ensures msg.items == Some([first] + rest) ==> QuotedId(msg) == first.quoted
    ensures msg.items == None || msg.items == Some([]) ==> QuotedId(msg) == None
  {
    assert ([first] + rest)[0] == first;
  }

  /**
   * A quoting message goes past the active agent exactly when the id it quotes
   * is in the table with a context that names a registered agent.
   */
  lemma BypassExactlyWhen(rows: Table, s: RouterState, msg: WeixinMessage, agentOf: AgentOf, parse: string -> Option<Command>)
    ensures Process(rows, s, msg, agentOf, parse).1 == None <==>
      && QuotedId(msg).Some?
      && Find(rows, QuotedId(msg).value).Some?
      && agentOf(Find(rows, QuotedId(msg).value).value).Some?
      && agentOf(Find(rows, QuotedId(msg).value).value).value in s.registry
  {
  }

  /** A message that quotes has an item, and so can always be delivered. */
  lemma QuotingConverts(msg: WeixinMessage, context: Option<Context>)
    requires QuotedId(msg).Some?
    ensures ToQueued(msg, context).Some? && ToQueued(msg, context).value.agentContext == context
  {
  }

  /**
   * The message was appended to the queue of `agent` with context `c`; every
   * other queue, the active agent and the rest of the router stay as they were,
   * and the ordinary path was not taken.
   */
  ghost predicate ReachedOnly(
    s: RouterState, msg: WeixinMessage, agent: Agent, c: Context, result: (RouterState, Option<Incoming>))
  {
    && result.1 == None
    && ToQueued(msg, Some(c)).Some?
    && result.0 == s.(queues := Enqueued(s.queues, agent, ToQueued(msg, Some(c)).value))
    && AppendedOnly(s.queues, result.0.queues, agent, ToQueued(msg, Some(c)).value)
    && ToQueued(msg, Some(c)).value.agentContext == Some(c)
  }

  /**
   * After any run, whatever the clock did: let `c` be the context of the last
   * reply delivered under id `m` with one, and let no save since have evicted it.  Then
   * an admitted message quoting `m`, whose agent is registered, reaches that
   * agent and nobody else.
   */
  lemma QuotingReachesTheAuthorUnlessEvicted(
    start: RouterState, events: seq<Event>, m: MsgId, c: Context, msg: WeixinMessage,
    agentOf: AgentOf, parse: string -> Option<Command>)
    requires LastSent(events, m) == Some(c) && !EvictedSince(SavesOf(events), m)
    requires QuotedId(msg) == Some(m)
    requires agentOf(c).Some?
    requires var s := Run(start, events, agentOf, parse).router;
      agentOf(c).value in s.registry && Admitted(s.policies, msg)
    ensures var s := Run(start, events, agentOf, parse);
      ReachedOnly(s.router, msg, agentOf(c).value, c, Process(s.rows, s.router, msg, agentOf, parse))
  {
    var s := Run(start, events, agentOf, parse);
    TableOfRun(start, events, agentOf, parse);
    SavesAreSent(events, m);
    FoundExactlyWhen(SavesOf(events), m);
    QuotingConverts(msg, Some(c));
    EnqueuedAppends(s.router.queues, agentOf(c).value, ToQueued(msg, Some(c)).value);
  }

  /**
   * After any run under a clock that never runs backwards: let `c` be the context
   * of the last reply delivered under id `m` with one, and let fewer than 199 other
   * ids have been delivered with a context since.  Then an admitted message quoting `m`, whose agent is
   * registered, reaches that agent and nobody else.
   */
  lemma QuotingReachesTheAuthor(
    start: RouterState, events: seq<Event>, m: MsgId, c: Context, msg: WeixinMessage,
    agentOf: AgentOf, parse: string -> Option<Command>)
    requires SentInOrder(events)
    requires LastSent(events, m) == Some(c) && |OthersSent(events, m)| < 199
    requires QuotedId(msg) == Some(m)
    requires agentOf(c).Some?
    requires var s := Run(start, events, agentOf, parse).router;
      agentOf(c).value in s.registry && Admitted(s.policies, msg)
    ensures var s := Run(start, events, agentOf, parse);
      ReachedOnly(s.router, msg, agentOf(c).value, c, Process(s.rows, s.router, msg, agentOf, parse))
  {
    SavesAreSent(events, m);
    SavesInOrder(events);
    EvictedUnderClock(SavesOf(events), m);
    QuotingReachesTheAuthorUnlessEvicted(start, events, m, c, msg, agentOf, parse);
  }

  /** Once 199 other ids have been saved, a quote of `m` takes the ordinary path. */
  lemma ForgottenQuotesTakeOrdinaryPath(
    start: RouterState, events: seq<Event>, m: MsgId, msg: WeixinMessage,
    agentOf: AgentOf, parse: string -> Option<Command>)
    requires SentInOrder(events) && |OthersSent(events, m)| >= 199
    requires QuotedId(msg) == Some(m)
    ensures var s := Run(start, events, agentOf, parse);
      var (t, r) := HandleIncoming(s.router, msg, parse);
      Process(s.rows, s.router, msg, agentOf, parse) == (t, Some(r))
  {
    SavesAreSent(events, m);
    SavesInOrder(events);
    TableOfRun(start, events, agentOf, parse);
    TableAgreesWithMap(SavesOf(events), m);
  }
}
