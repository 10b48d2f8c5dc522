/**
 * Per-agent message queues and the router that admits messages and puts them
 * into a queue.
 */
module Routing {
  import opened Wrappers
  import opened ContextTable

  type Agent = string

  datatype MediaItem = MediaItem(mediaType: string, localPath: string, originalName: Option<string>)

  /**
   * One item of an incoming message.  `text` and `voice` hold the optional text
   * of a text or voice item, `image`, `video` and `file` the optional name of
   * such an item, and `quoted` the id of the message a reply quotes.
   */
  datatype MessageItem = MessageItem(
    itemType: Option<int>,
    text: Option<Option<string>>,
    voice: Option<Option<string>>,
    image: Option<Option<string>>,
    video: Option<Option<string>>,
    file: Option<Option<string>>,
    quoted: Option<MsgId>)

  datatype WeixinMessage = WeixinMessage(
    messageId: Option<int>,
    fromUser: Option<string>,
    groupId: Option<string>,
    createTimeMs: Option<int>,
    items: Option<seq<MessageItem>>,
    contextToken: Option<string>)

  /** A message waiting for an agent; `id` is `None` where the gateway writes the empty string. */
  datatype QueuedMessage = QueuedMessage(
    id: Option<int>, fromUser: string, text: string, timestamp: int, contextToken: string,
    messageType: string, delivered: bool, media: seq<MediaItem>, agentContext: Option<Context>)

  const TEXT_ITEM := 1
  const IMAGE_ITEM := 2
  const VOICE_ITEM := 3
  const FILE_ITEM := 4
  const VIDEO_ITEM := 5

  function GetOr<T>(o: Option<T>, default: T): T {
    if o.Some? then o.value else default
  }

  function FirstText(items: seq<MessageItem>): Option<string> {
    if items == [] then None
    else if items[0].text.Some? && items[0].text.value.Some? then items[0].text.value
    else FirstText(items[1..])
  }

  function FirstVoiceText(items: seq<MessageItem>): Option<string> {
    if items == [] then None
    else if items[0].voice.Some? && items[0].voice.value.Some? then items[0].voice.value
    else FirstVoiceText(items[1..])
  }

  /** The text of a message: of its first text item, or else the transcript of its first voice item. */
  function TextOf(msg: WeixinMessage): Option<string> {
    if msg.items.None? then None
    else if FirstText(msg.items.value).Some? then FirstText(msg.items.value)
    else FirstVoiceText(msg.items.value)
  }

  function MediaOf(item: MessageItem): seq<MediaItem> {
    var itemType := GetOr(item.itemType, TEXT_ITEM);
    if itemType == IMAGE_ITEM && item.image.Some? then [MediaItem("image", "", item.image.value)]
    else if itemType == VOICE_ITEM && item.voice.Some? then [MediaItem("voice", "", None)]
    else if itemType == VIDEO_ITEM && item.video.Some? then [MediaItem("video", "", item.video.value)]
    else if itemType == FILE_ITEM && item.file.Some? then [MediaItem("file", "", item.file.value)]
    else []
  }

  function TypeName(itemType: int): string {
    if itemType == TEXT_ITEM then "text"
    else if itemType == IMAGE_ITEM then "image"
    else if itemType == VOICE_ITEM then "voice"
    else if itemType == FILE_ITEM then "file"
    else if itemType == VIDEO_ITEM then "video"
    else "unknown"
  }

  /** The message as an agent gets it, with the given context; a message without items cannot be converted. */
  function ToQueued(msg: WeixinMessage, agentContext: Option<Context>): Option<QueuedMessage> {
    if msg.items.None? || msg.items.value == [] then None
    else
      var first := msg.items.value[0];
      Some(QueuedMessage(
        msg.messageId,
        GetOr(msg.fromUser, ""),
        GetOr(TextOf(msg), ""),
        GetOr(msg.createTimeMs, 0),
        GetOr(msg.contextToken, ""),
        TypeName(GetOr(first.itemType, TEXT_ITEM)),
        false,
        MediaOf(first),
        agentContext))
  }

  // ----- Queues -----

  type Queues = map<Agent, seq<QueuedMessage>>

  function QueueOf(queues: Queues, agent: Agent): seq<QueuedMessage> {
    if agent in queues then queues[agent] else []
  }

  function Enqueued(queues: Queues, agent: Agent, msg: QueuedMessage): Queues {
    queues[agent := QueueOf(queues, agent) + [msg]]
  }

  function Drained(queues: Queues, agent: Agent): Queues {
    if agent in queues then queues[agent := []] else queues
  }

  function WithLastMedia(queue: seq<QueuedMessage>, media: seq<MediaItem>): seq<QueuedMessage> {
    if queue == [] then [] else queue[|queue| - 1 := queue[|queue| - 1].(media := media)]
  }

  class MessageQueue {
    var queues: Queues

    constructor ()
      ensures queues == map[]
    {
      queues := map[];
    }

    method Enqueue(agent: Agent, msg: QueuedMessage)
      modifies this
      ensures queues == Enqueued(old(queues), agent, msg)
    {
      if agent !in queues {
        queues := queues[agent := []];
      }
      queues := queues[agent := queues[agent] + [msg]];
    }

    method DequeueAll(agent: Agent) returns (messages: seq<QueuedMessage>)
      modifies this
      ensures messages == QueueOf(old(queues), agent)
      ensures queues == Drained(old(queues), agent)
    {
      if agent !in queues {
        return [];
      }
      messages := queues[agent];
      queues := queues[agent := []];
    }

    method UpdateLastMedia(agent: Agent, media: seq<MediaItem>)
      modifies this
      ensures agent in old(queues) ==> queues == old(queues)[agent := WithLastMedia(old(queues)[agent], media)]
      ensures agent !in old(queues) ==> queues == old(queues)
    {
      if agent in queues {
        var queue := queues[agent];
        if |queue| > 0 {
          queues := queues[agent := queue[|queue| - 1 := queue[|queue| - 1].(media := media)]];
        } else {
          queues := queues[agent := queue];
        }
      }
    }
  }

  datatype QueueEvent =
    | Put(agent: Agent, msg: QueuedMessage)
    | Poll(agent: Agent)
    | Media(agent: Agent, media: seq<MediaItem>)

  function QueueStep(queues: Queues, e: QueueEvent): Queues {
    match e
    case Put(agent, msg) => Enqueued(queues, agent, msg)
    case Poll(agent) => Drained(queues, agent)
    case Media(agent, media) => if agent in queues then queues[agent := WithLastMedia(queues[agent], media)] else queues
  }

  function QueueRun(queues: Queues, events: seq<QueueEvent>): Queues {
    if events == [] then queues else QueueStep(QueueRun(queues, events[..|events| - 1]), events[|events| - 1])
  }

  /** A queue without the media of its messages. */
  function Bare(queue: seq<QueuedMessage>): seq<QueuedMessage> {
    seq(|queue|, i requires 0 <= i < |queue| => queue[i].(media := []))
  }

  /** The messages put for `agent`, in order. */
  function PutFor(events: seq<QueueEvent>, agent: Agent): seq<QueuedMessage> {
    if events == [] then []
    else
      var e := events[|events| - 1];
      PutFor(events[..|events| - 1], agent) + (if e.Put? && e.agent == agent then [e.msg] else [])
  }

  /** The messages the polls of `agent` returned, in order. */
  function PolledBy(events: seq<QueueEvent>, agent: Agent): seq<QueuedMessage> {
    if events == [] then []
    else
      var e, before := events[|events| - 1], events[..|events| - 1];
      PolledBy(before, agent) + (if e.Poll? && e.agent == agent then QueueOf(QueueRun(map[], before), agent) else [])
  }

  lemma BareAppend(a: seq<QueuedMessage>, b: seq<QueuedMessage>)
    ensures Bare(a + b) == Bare(a) + Bare(b)
  {
  }

  lemma MediaAreNotBare(queue: seq<QueuedMessage>, media: seq<MediaItem>)
    ensures Bare(WithLastMedia(queue, media)) == Bare(queue)
  {
  }

  /**
   * Over every run of puts, polls and media updates, an agent's polls return
   * exactly the messages put for it, each once and in order, and the rest still
   * waits in its queue; media updates change nothing but media.
   */
  lemma {:induction false} PollsReturnWhatWasPut(events: seq<QueueEvent>, agent: Agent)
    ensures Bare(PolledBy(events, agent)) + Bare(QueueOf(QueueRun(map[], events), agent)) == Bare(PutFor(events, agent))
  {
    assert Bare([]) == [];
    hide Bare, WithLastMedia;
    if events == [] {
    } else {
      var before, e := events[..|events| - 1], events[|events| - 1];
      var polled, put := PolledBy(before, agent), PutFor(before, agent);
      var queue := QueueOf(QueueRun(map[], before), agent);
      PollsReturnWhatWasPut(before, agent);
      match e
      case Put(_, msg) =>
        BareAppend(put, [msg]);
        BareAppend(queue, [msg]);
        assert put + [] == put && polled + [] == polled;
        assert Bare(polled) + (Bare(queue) + Bare([msg])) == Bare(polled) + Bare(queue) + Bare([msg]);
      case Poll(_) =>
        BareAppend(polled, queue);
        assert put + [] == put && polled + [] == polled;
        assert Bare(polled) + Bare(queue) + [] == Bare(polled) + Bare(queue);
      case Media(_, media) =>
        MediaAreNotBare(queue, media);
        assert put + [] == put && polled + [] == polled;
    }
  }

  /** A media update changes the media of the message that waits last for its agent, and nothing else. */
  lemma MediaUpdateDoes(queues: Queues, agent: Agent, media: seq<MediaItem>, other: Agent)
    ensures var before, after := QueueOf(queues, agent), QueueOf(QueueStep(queues, Media(agent, media)), agent);
      && |after| == |before|
      && (forall i :: 0 <= i < |before| ==>
        after[i] == if i == |before| - 1 then before[i].(media := media) else before[i])
    ensures other != agent ==> QueueOf(QueueStep(queues, Media(agent, media)), other) == QueueOf(queues, other)
  {
  }

  /** A poll empties the queue of its agent and no other. */
  lemma PollDoes(queues: Queues, agent: Agent, other: Agent)
    ensures QueueOf(QueueStep(queues, Poll(agent)), agent) == []
    ensures other != agent ==> QueueOf(QueueStep(queues, Poll(agent)), other) == QueueOf(queues, other)
  {
  }

  // ----- Admission and routing -----

  datatype DmPolicy = DmDisabled | DmPairing | DmAllowlist | DmOpen
  datatype GroupPolicy = GroupDisabled | GroupAllowlist | GroupAll

  datatype Policies = Policies(dm: DmPolicy, group: GroupPolicy, users: set<string>, groups: set<string>)

  /** What the command parser makes of a text; every inline command replies and changes nothing here. */
  datatype Command = UseAgent(name: Agent) | Inline(reply: string)

  datatype RouterState = RouterState(registry: set<Agent>, active: Option<Agent>, policies: Policies, queues: Queues)

  datatype Incoming = Quiet | Replied(text: string) | Failed(reason: string)

  datatype Routed = RouteOk | AgentNotFound | CannotConvert

  predicate DmAllowed(p: Policies, user: string) {
    match p.dm
    case DmDisabled => false
    case DmPairing => user in p.users
    case DmAllowlist => user in p.users
    case DmOpen => true
  }

  predicate GroupAllowed(p: Policies, group: string) {
    match p.group
    case GroupDisabled => false
    case GroupAll => true
    case GroupAllowlist => group in p.groups
  }

  /** A message with a group id is judged by the group policy alone. */
  predicate Admitted(p: Policies, msg: WeixinMessage) {
    var group := GetOr(msg.groupId, "");
    if group != "" then GroupAllowed(p, group) else DmAllowed(p, GetOr(msg.fromUser, ""))
  }

  const NO_TEXT := "Message has no text content"
  const NO_ACTIVE_AGENT := "No active agent is set. Use /use <agent_name> to select one."
  const NOT_CONVERTIBLE := "Failed to convert message for agent delivery"

  function HandleCommand(s: RouterState, command: Command): (RouterState, string) {
    match command
    case UseAgent(name) =>
      if name !in s.registry then (s, "Agent '" + name + "' not found")
      else (s.(active := Some(name)), "Switched to agent '" + name + "'")
    case Inline(reply) => (s, reply)
  }

  /** `parse` is the command parser; it is asked only about texts that start with a slash. */
  function HandleIncoming(s: RouterState, msg: WeixinMessage, parse: string -> Option<Command>): (RouterState, Incoming) {
    if !Admitted(s.policies, msg) then (s, Quiet)
    else if TextOf(msg).None? then (s, Failed(NO_TEXT))
    else
      var text := TextOf(msg).value;
      if text != "" && text[0] == '/' && parse(text).Some? then
        var (t, reply) := HandleCommand(s, parse(text).value);
        (t, Replied(reply))
      else if s.active.None? then (s, Failed(NO_ACTIVE_AGENT))
      else if ToQueued(msg, None).None? then (s, Failed(NOT_CONVERTIBLE))
      else (s.(queues := Enqueued(s.queues, s.active.value, ToQueued(msg, None).value)), Quiet)
  }

  /** Routing to a named agent past the active one; a message the policy drops is dropped without an error. */
  function RouteToAgent(s: RouterState, msg: WeixinMessage, agent: Agent, context: Option<Context>): (RouterState, Routed) {
    if !Admitted(s.policies, msg) then (s, RouteOk)
    else if agent !in s.registry then (s, AgentNotFound)
    else if ToQueued(msg, context).None? then (s, CannotConvert)
    else (s.(queues := Enqueued(s.queues, agent, ToQueued(msg, context).value)), RouteOk)
  }

  class Router {
    var registry: set<Agent>
    var active: Option<Agent>
    var policies: Policies
    const queue: MessageQueue

    ghost function Abs(): RouterState
      reads this, queue
    {
      RouterState(registry, active, policies, queue.queues)
    }

    constructor (queue: MessageQueue)
      ensures this.queue == queue
      ensures Abs() == RouterState({}, None, Policies(DmOpen, GroupDisabled, {}, {}), queue.queues)
    {
      this.queue := queue;
      registry, active := {}, None;
      policies := Policies(DmOpen, GroupDisabled, {}, {});
    }

    method IsAdmitted(msg: WeixinMessage) returns (ok: bool)
      ensures ok <==> Admitted(policies, msg)
    {
      var fromUser := GetOr(msg.fromUser, "");
      var groupId := GetOr(msg.groupId, "");
      if groupId != "" {
        ok := GroupAllowed(policies, groupId);
      } else {
        ok := DmAllowed(policies, fromUser);
      }
    }

    method Handle(msg: WeixinMessage, parse: string -> Option<Command>) returns (r: Incoming)
      modifies this, queue
      ensures (Abs(), r) == HandleIncoming(old(Abs()), msg, parse)
    {
      var admitted := IsAdmitted(msg);
      if !admitted {
        return Quiet;
      }
      var text := TextOf(msg);
      if text.None? {
        return Failed(NO_TEXT);
      }
      if text.value != "" && text.value[0] == '/' {
        var command := parse(text.value);
        if command.Some? {
          match command.value
          case Inline(reply) => return Replied(reply);
          case UseAgent(name) =>
            if name !in registry {
              return Replied("Agent '" + name + "' not found");
            }
            active := Some(name);
            return Replied("Switched to agent '" + name + "'");
        }
      }
      if active.None? {
        return Failed(NO_ACTIVE_AGENT);
      }
      var queued := ToQueued(msg, None);
      if queued.None? {
        return Failed(NOT_CONVERTIBLE);
      }
      queue.Enqueue(active.value, queued.value);
      return Quiet;
    }

    method Route(msg: WeixinMessage, agent: Agent, context: Option<Context>) returns (r: Routed)
      modifies queue
      ensures (Abs(), r) == RouteToAgent(old(Abs()), msg, agent, context)
    {
      var admitted := IsAdmitted(msg);
      if !admitted {
        return RouteOk;
      }
      if agent !in registry {
        return AgentNotFound;
      }
      var queued := ToQueued(msg, context);
      if queued.None? {
        return CannotConvert;
      }
      queue.Enqueue(agent, queued.value);
      return RouteOk;
    }
  }

  // ----- What admission and routing mean -----

  /**
   * What admission depends on.  Two messages of the same group are judged alike
   * by routers with the same group policy and list, whoever sent them and
   * whatever the policy for direct messages; two messages outside groups are
   * judged alike when their senders and the direct-message policy and list agree.
   */
  lemma AdmissionDependsOn(p: Policies, p': Policies, msg: WeixinMessage, msg': WeixinMessage)
    requires GetOr(msg.groupId, "") == GetOr(msg'.groupId, "")
    requires if GetOr(msg.groupId, "") != "" then p.group == p'.group && p.groups == p'.groups
      else p.dm == p'.dm && p.users == p'.users && GetOr(msg.fromUser, "") == GetOr(msg'.fromUser, "")
    ensures Admitted(p, msg) == Admitted(p', msg')
  {
  }

  /** A direct message: nobody gets in when they are disabled, everybody when they are open, else the users of the list. */
  lemma DirectMessageAdmitted(p: Policies, msg: WeixinMessage)
    requires GetOr(msg.groupId, "") == ""
    ensures p.dm == DmDisabled ==> !Admitted(p, msg)
    ensures p.dm == DmOpen ==> Admitted(p, msg)
    ensures p.dm == DmAllowlist || p.dm == DmPairing ==>
      (Admitted(p, msg) <==> (match msg.fromUser case Some(user) => user in p.users case None => "" in p.users))
  {
  }

  /** A group message: no group gets in when they are disabled, every group when all are allowed, else those of the list. */
  lemma GroupMessageAdmitted(p: Policies, msg: WeixinMessage, group: string)
    requires msg.groupId == Some(group) && group != ""
    ensures p.group == GroupDisabled ==> !Admitted(p, msg)
    ensures p.group == GroupAll ==> Admitted(p, msg)
    ensures p.group == GroupAllowlist ==> (Admitted(p, msg) <==> group in p.groups)
  {
  }

  /** A message outside groups is one without a group id, or with an empty one. */
  lemma GroupIdDecides(p: Policies, msg: WeixinMessage)
    requires msg.groupId == None || msg.groupId == Some("")
    ensures Admitted(p, msg) == Admitted(p, msg.(groupId := None))
  {
  }

  /** Allowing more users and groups never shuts a message out. */
  lemma LargerListsAdmitMore(p: Policies, users: set<string>, groups: set<string>, msg: WeixinMessage)
    requires Admitted(p, msg)
    ensures Admitted(p.(users := p.users + users, groups := p.groups + groups), msg)
  {
  }

  lemma {:induction false} TextNeedsItem(items: seq<MessageItem>)
    ensures FirstText(items).Some? || FirstVoiceText(items).Some? ==> items != []
  {
  }

  /** A message with a text can always be converted: the branch that reports a failed conversion is never taken. */
  lemma TextConverts(msg: WeixinMessage, context: Option<Context>)
    requires TextOf(msg).Some?
    ensures ToQueued(msg, context).Some? && ToQueued(msg, context).value.text == TextOf(msg).value
    ensures ToQueued(msg, context).value.agentContext == context
  {
    TextNeedsItem(msg.items.value);
  }

  /** What an agent gets of a message: its sender, time and token, the kind of its first item, and one medium if that item is one. */
  lemma ConversionKeepsFields(msg: WeixinMessage, first: MessageItem, rest: seq<MessageItem>, context: Option<Context>)
    requires msg.items == Some([first] + rest)
    ensures ToQueued(msg, context).Some?
    ensures var q := ToQueued(msg, context).value;
      && q.id == msg.messageId && !q.delivered && q.agentContext == context
      && (msg.fromUser.Some? ==> q.fromUser == msg.fromUser.value) && (msg.fromUser.None? ==> q.fromUser == "")
      && (msg.createTimeMs.Some? ==> q.timestamp == msg.createTimeMs.value) && (msg.createTimeMs.None? ==> q.timestamp == 0)
      && (msg.contextToken.Some? ==> q.contextToken == msg.contextToken.value) && (msg.contextToken.None? ==> q.contextToken == "")
      && (TextOf(msg).Some? ==> q.text == TextOf(msg).value) && (TextOf(msg).None? ==> q.text == "")
  {
    assert ([first] + rest)[0] == first;
  }

  /** The kinds of a first item are 1 to 5, and a missing kind is text. */
  lemma ConversionNamesKind(msg: WeixinMessage, first: MessageItem, rest: seq<MessageItem>, context: Option<Context>)
    requires msg.items == Some([first] + rest)
    ensures ToQueued(msg, context).Some?
    ensures var kind := ToQueued(msg, context).value.messageType;
      && (first.itemType == None || first.itemType == Some(1) ==> kind == "text")
      && (first.itemType == Some(2) ==> kind == "image")
      && (first.itemType == Some(3) ==> kind == "voice")
      && (first.itemType == Some(4) ==> kind == "file")
      && (first.itemType == Some(5) ==> kind == "video")
      && (first.itemType.Some? && !(1 <= first.itemType.value <= 5) ==> kind == "unknown")
  {
    assert ([first] + rest)[0] == first;
  }

  /** The media of a message are the one of its first item, if its kind and its content agree, named as the item names it. */
  lemma ConversionTakesMedium(msg: WeixinMessage, first: MessageItem, rest: seq<MessageItem>, context: Option<Context>)
    requires msg.items == Some([first] + rest)
    ensures ToQueued(msg, context).Some?
    ensures var media := ToQueued(msg, context).value.media;
      && (first.itemType == Some(2) && first.image.Some? ==> media == [MediaItem("image", "", first.image.value)])
      && (first.itemType == Some(3) && first.voice.Some? ==> media == [MediaItem("voice", "", None)])
      && (first.itemType == Some(5) && first.video.Some? ==> media == [MediaItem("video", "", first.video.value)])
      && (first.itemType == Some(4) && first.file.Some? ==> media == [MediaItem("file", "", first.file.value)])
      && (media != [] ==>
        || (first.itemType == Some(2) && first.image.Some?) || (first.itemType == Some(3) && first.voice.Some?)
        || (first.itemType == Some(5) && first.video.Some?) || (first.itemType == Some(4) && first.file.Some?))
  {
    assert ([first] + rest)[0] == first;
  }

  /** Item `i` is the first one with a text of its own. */
  ghost predicate FirstWithText(items: seq<MessageItem>, i: nat, text: string) {
    && i < |items| && items[i].text == Some(Some(text))
    && forall j :: 0 <= j < i ==> items[j].text.None? || items[j].text.value.None?
  }

  ghost predicate FirstWithVoice(items: seq<MessageItem>, i: nat, text: string) {
    && i < |items| && items[i].voice == Some(Some(text))
    && forall j :: 0 <= j < i ==> items[j].voice.None? || items[j].voice.value.None?
  }

  lemma {:induction false} FirstTextIs(items: seq<MessageItem>, i: nat, text: string)
    requires FirstWithText(items, i, text)
    ensures FirstText(items) == Some(text)
    decreases i
  {
    if i == 0 {
    } else {
      assert items[0].text.None? || items[0].text.value.None?;
      FirstTextIs(items[1..], i - 1, text);
    }
  }

  lemma {:induction false} NoTextIs(items: seq<MessageItem>)
    requires forall j :: 0 <= j < |items| ==> items[j].text.None? || items[j].text.value.None?
    ensures FirstText(items) == None
    decreases |items|
  {
    if items == [] {
    } else {
      NoTextIs(items[1..]);
    }
  }

  lemma {:induction false} FirstVoiceIs(items: seq<MessageItem>, i: nat, text: string)
    requires FirstWithVoice(items, i, text)
    ensures FirstVoiceText(items) == Some(text)
    decreases i
  {
    if i == 0 {
    } else {
      assert items[0].voice.None? || items[0].voice.value.None?;
      FirstVoiceIs(items[1..], i - 1, text);
    }
  }

  lemma {:induction false} NoVoiceIs(items: seq<MessageItem>)
    requires forall j :: 0 <= j < |items| ==> items[j].voice.None? || items[j].voice.value.None?
    ensures FirstVoiceText(items) == None
    decreases |items|
  {
    if items == [] {
    } else {
      NoVoiceIs(items[1..]);
    }
  }

  /**
   * The text of a message is that of the first item that has one, whatever comes
   * before; without any, the transcript of the first voice item that has one;
   * without either there is none.
   */
  lemma TextIsTheFirst(msg: WeixinMessage, items: seq<MessageItem>, i: nat, text: string)
    requires msg.items == Some(items)
    ensures FirstWithText(items, i, text) ==> TextOf(msg) == Some(text)
    ensures (forall j :: 0 <= j < |items| ==> items[j].text.None? || items[j].text.value.None?) ==>
      && (FirstWithVoice(items, i, text) ==> TextOf(msg) == Some(text))
      && ((forall j :: 0 <= j < |items| ==> items[j].voice.None? || items[j].voice.value.None?) ==> TextOf(msg) == None)
  {
    if FirstWithText(items, i, text) {
      FirstTextIs(items, i, text);
    }
    if forall j :: 0 <= j < |items| ==> items[j].text.None? || items[j].text.value.None? {
      NoTextIs(items);
      if FirstWithVoice(items, i, text) {
        FirstVoiceIs(items, i, text);
      }
      if forall j :: 0 <= j < |items| ==> items[j].voice.None? || items[j].voice.value.None? {
        NoVoiceIs(items);
      }
    }
  }

  /** The gateway command a message holds, if it holds one. */
  function CommandIn(msg: WeixinMessage, parse: string -> Option<Command>): Option<Command> {
    var text := GetOr(TextOf(msg), "");
    if text != "" && text[0] == '/' then parse(text) else None
  }

  /** The message is for the active agent: admitted, with a text that is no command, while an agent is active. */
  predicate ForActiveAgent(s: RouterState, msg: WeixinMessage, parse: string -> Option<Command>) {
    Admitted(s.policies, msg) && TextOf(msg).Some? && CommandIn(msg, parse).None? && s.active.Some?
  }

  /** Only the queue of `agent` has grown, by `msg` at its end. */
  ghost predicate AppendedOnly(before: Queues, after: Queues, agent: Agent, msg: QueuedMessage) {
    && QueueOf(after, agent) == QueueOf(before, agent) + [msg]
    && forall other :: other != agent ==> QueueOf(after, other) == QueueOf(before, other)
  }

  lemma EnqueuedAppends(queues: Queues, agent: Agent, msg: QueuedMessage)
    ensures AppendedOnly(queues, Enqueued(queues, agent, msg), agent, msg) && Enqueued(queues, agent, msg) != queues
  {
    assert |QueueOf(Enqueued(queues, agent, msg), agent)| != |QueueOf(queues, agent)|;
  }

  /**
   * The queues change exactly when the message is for the active agent.  Then
   * its text goes to the end of that agent's queue, with no context, no other
   * queue grows, and nothing is answered.
   */
  lemma QueuedExactlyWhen(s: RouterState, msg: WeixinMessage, parse: string -> Option<Command>)
    ensures var (t, r) := HandleIncoming(s, msg, parse);
      && (t.queues != s.queues <==> ForActiveAgent(s, msg, parse))
      && (ForActiveAgent(s, msg, parse) ==>
        && r == Quiet && t == s.(queues := t.queues)
        && ToQueued(msg, None).Some?
        && AppendedOnly(s.queues, t.queues, s.active.value, ToQueued(msg, None).value)
        && ToQueued(msg, None).value.text == TextOf(msg).value
        && ToQueued(msg, None).value.agentContext == None)
  {
    if ForActiveAgent(s, msg, parse) {
      TextConverts(msg, None);
      EnqueuedAppends(s.queues, s.active.value, ToQueued(msg, None).value);
    }
  }

  /**
   * The active agent changes exactly by an admitted `/use` of another agent that
   * is registered, and no message changes the registry or the policies.
   */
  lemma ActiveChangesExactlyWhen(s: RouterState, msg: WeixinMessage, parse: string -> Option<Command>)
    ensures var t := HandleIncoming(s, msg, parse).0;
      var command := CommandIn(msg, parse);
      && t.registry == s.registry && t.policies == s.policies
      && (t.active != s.active <==>
        && Admitted(s.policies, msg) && command.Some? && command.value.UseAgent?
        && command.value.name in s.registry && s.active != Some(command.value.name))
      && (t.active != s.active ==> t.active == Some(command.value.name))
  {
  }

  /** What the sender of a command is told. */
  lemma CommandIsAnswered(s: RouterState, msg: WeixinMessage, parse: string -> Option<Command>)
    requires Admitted(s.policies, msg) && CommandIn(msg, parse).Some?
    ensures HandleIncoming(s, msg, parse).1 == Replied(
      match CommandIn(msg, parse).value
      case UseAgent(name) =>
        if name in s.registry then "Switched to agent '" + name + "'" else "Agent '" + name + "' not found"
      case Inline(reply) => reply)
  {
  }

  /** Why an admitted message that is no command is not delivered, if it is not. */
  lemma FailsExactlyWhen(s: RouterState, msg: WeixinMessage, parse: string -> Option<Command>)
    requires Admitted(s.policies, msg) && CommandIn(msg, parse).None?
    ensures var r := HandleIncoming(s, msg, parse).1;
      && (r == Failed("Message has no text content") <==> TextOf(msg).None?)
      && (r == Failed("No active agent is set. Use /use <agent_name> to select one.") <==>
        TextOf(msg).Some? && s.active.None?)
      && (r.Failed? <==> TextOf(msg).None? || s.active.None?)
  {
    if TextOf(msg).Some? {
      TextConverts(msg, None);
    }
  }

  /** The caller hears nothing in two cases it cannot tell apart: the message was dropped, or it was queued. */
  lemma QuietExactlyWhen(s: RouterState, msg: WeixinMessage, parse: string -> Option<Command>)
    ensures HandleIncoming(s, msg, parse).1 == Quiet <==> !Admitted(s.policies, msg) || ForActiveAgent(s, msg, parse)
  {
    if ForActiveAgent(s, msg, parse) {
      TextConverts(msg, None);
    }
  }

  /** Routing to a named agent delivers exactly an admitted message with an item to a registered agent, to its queue only. */
  lemma RoutedExactlyWhen(s: RouterState, msg: WeixinMessage, agent: Agent, context: Option<Context>)
    ensures var (t, routed) := RouteToAgent(s, msg, agent, context);
      var delivered := Admitted(s.policies, msg) && agent in s.registry && GetOr(msg.items, []) != [];
      && (t.queues != s.queues <==> delivered)
      && (delivered ==>
        && routed == RouteOk && t == s.(queues := t.queues)
        && ToQueued(msg, context).Some?
        && AppendedOnly(s.queues, t.queues, agent, ToQueued(msg, context).value)
        && ToQueued(msg, context).value.agentContext == context)
  {
    if ToQueued(msg, context).Some? {
      EnqueuedAppends(s.queues, agent, ToQueued(msg, context).value);
    }
  }
}
