/**
 The vocabulary of the event layer: the handler categories a callback can
 belong to, the gateway event tags, the payload envelope, and the two static
 tables of the handler registry -- which events each category subscribes to
 (the arguments of every `EventToIntent` call) and which category a dispatched
 event is routed to (the `switch` of `ParseAndHandle`).
 */
module EventTypes {

  datatype Option<+T> = None | Some(value: T)

  /** Identity of a user callback; the callback's own behaviour is not modelled. */
  type HandlerId = nat

  /** An intent bitmask, as the set of the bit positions that are set; `|` is union. */
  type Intent = set<nat>

  type Bytes = seq<bv8>

  /** `dto.EventToIntent`: the intent bits the gateway needs for a list of events. */
  type EventsToIntent = seq<EventType> -> Intent

  /** `ParseData` into the data type of a category: true when the bytes decode. */
  type DecodeCheck = (Category, Bytes) -> bool

  /** `dto.WSDispatchEvent`, the opcode of event dispatch frames. */
  const WSDispatchEvent: int := 0

  /** One variant per handler field of `HandlerImpl`. */
  datatype Category =
    | Ready | ErrorNotify | Plain
    | Guild | GuildMember | Channel
    | Message | MessageReaction | ATMessage | DirectMessage | MessageAudit
    | MessageDelete | PublicMessageDelete | DirectMessageDelete
    | Audio
    | Thread | Post | Reply | ForumAudit
    | Interaction

  /** The event-type tags `ParseAndHandle` knows, and every other tag. */
  datatype EventType =
    | EventGuildCreate | EventGuildUpdate | EventGuildDelete
    | EventChannelCreate | EventChannelUpdate | EventChannelDelete
    | EventGuildMemberAdd | EventGuildMemberUpdate | EventGuildMemberRemove
    | EventMessageCreate | EventMessageDelete
    | EventMessageReactionAdd | EventMessageReactionRemove
    | EventAtMessageCreate | EventPublicMessageDelete
    | EventDirectMessageCreate | EventDirectMessageDelete
    | EventAudioStart | EventAudioFinish | EventAudioOnMic | EventAudioOffMic
    | EventMessageAuditPass | EventMessageAuditReject
    | EventForumThreadCreate | EventForumThreadUpdate | EventForumThreadDelete
    | EventForumPostCreate | EventForumPostDelete
    | EventForumReplyCreate | EventForumReplyDelete
    | EventForumAuditResult
    | EventInteractionCreate
    | EventOther(tag: string)

  /**
   One element of the variadic argument of `NewHandler`. A value whose dynamic
   type is one of the handler function types is a `Callback` of that category;
   `fn == None` is a nil function of that type, which the type switch still
   matches. Anything else (an untyped nil, a function literal of an unnamed
   type, any other value) is `NotAHandler`.
   */
  datatype Callback = Callback(kind: Category, fn: Option<HandlerId>) | NotAHandler

  /** The envelope handed to `ParseAndHandle`; only the fields it reads. */
  datatype Payload = Payload(opcode: int, eventType: EventType, raw: Bytes)

  /** What `ParseAndHandle` does with one payload. */
  datatype Outcome =
    | Invoked(cat: Category, id: HandlerId)  // returns the callback's own result
    | PlainInvoked(id: HandlerId)            // returns the fallback's own result
    | DecodeError(cat: Category)             // returns the error of ParseData
    | NoOp                                   // returns nil

  /** The loop over the callbacks that assigns a category's field. */
  datatype Pass = NewHandlerPass | RelationPass | MessagePass | ForumPass

  function PassOf(c: Category): Pass
  {
    match c
    case Ready | ErrorNotify | Plain | Audio | Interaction => NewHandlerPass
    case Guild | GuildMember | Channel => RelationPass
    case Message | ATMessage | DirectMessage | MessageDelete
      | PublicMessageDelete | DirectMessageDelete | MessageReaction | MessageAudit => MessagePass
    case Thread | Post | Reply | ForumAudit => ForumPass
  }

  /** The categories of each loop, listed. */
  lemma PassMembers(c: Category)
    ensures PassOf(c) == NewHandlerPass <==> c in {Ready, ErrorNotify, Plain, Audio, Interaction}
    ensures PassOf(c) == RelationPass <==> c in {Guild, GuildMember, Channel}
    ensures PassOf(c) == MessagePass <==> c in {Message, ATMessage, DirectMessage, MessageDelete,
                                                PublicMessageDelete, DirectMessageDelete, MessageReaction, MessageAudit}
    ensures PassOf(c) == ForumPass <==> c in {Thread, Post, Reply, ForumAudit}
  {
  }

  /**
   The events a category passes to `EventToIntent` when a callback of it is
   registered; `None` for the three categories that call no `EventToIntent`.
   */
  function IntentEvents(c: Category): Option<seq<EventType>>
  {
    match c
    case Ready | ErrorNotify | Plain => None
    case Audio => Some([EventAudioStart, EventAudioFinish, EventAudioOnMic, EventAudioOffMic])
    case Interaction => Some([EventInteractionCreate])
    case Guild => Some([EventGuildCreate, EventGuildDelete, EventGuildUpdate])
    case GuildMember => Some([EventGuildMemberAdd, EventGuildMemberRemove, EventGuildMemberUpdate])
    case Channel => Some([EventChannelCreate, EventChannelDelete, EventChannelUpdate])
    case Message => Some([EventMessageCreate])
    case ATMessage => Some([EventAtMessageCreate])
    case DirectMessage => Some([EventDirectMessageCreate])
    case MessageDelete => Some([EventMessageDelete])
    case PublicMessageDelete => Some([EventPublicMessageDelete])
    case DirectMessageDelete => Some([EventDirectMessageDelete])
    case MessageReaction => Some([EventMessageReactionAdd, EventMessageReactionRemove])
    case MessageAudit => Some([EventMessageAuditPass, EventMessageAuditReject])
    case Thread => Some([EventForumThreadCreate, EventForumThreadUpdate, EventForumThreadDelete])
    case Post => Some([EventForumPostCreate, EventForumPostDelete])
    case Reply => Some([EventForumReplyCreate, EventForumReplyDelete])
    case ForumAudit => Some([EventForumAuditResult])
  }

  /** The bits a registered callback of category `c` ORs into the intent. */
  function Bits(toIntent: EventsToIntent, c: Category): Intent
  {
    match IntentEvents(c)
    case None => {}
    case Some(events) => toIntent(events)
  }

  /** The dispatch table: the category whose helper handles a dispatched event. */
  function Route(e: EventType): Option<Category>
  {
    match e
    case EventGuildCreate | EventGuildUpdate | EventGuildDelete => Some(Guild)
    case EventChannelCreate | EventChannelUpdate | EventChannelDelete => Some(Channel)
    case EventGuildMemberAdd | EventGuildMemberUpdate | EventGuildMemberRemove => Some(GuildMember)
    case EventMessageCreate => Some(Message)
    case EventMessageDelete => Some(MessageDelete)
    case EventMessageReactionAdd | EventMessageReactionRemove => Some(MessageReaction)
    case EventAtMessageCreate => Some(ATMessage)
    case EventPublicMessageDelete => Some(PublicMessageDelete)
    case EventDirectMessageCreate => Some(DirectMessage)
    case EventDirectMessageDelete => Some(DirectMessageDelete)
    case EventAudioStart | EventAudioFinish | EventAudioOnMic | EventAudioOffMic => Some(Audio)
    case EventMessageAuditPass | EventMessageAuditReject => Some(MessageAudit)
    case EventForumThreadCreate | EventForumThreadUpdate | EventForumThreadDelete => Some(Thread)
    case EventForumPostCreate | EventForumPostDelete => Some(Post)
    case EventForumReplyCreate | EventForumReplyDelete => Some(Reply)
    case EventForumAuditResult => Some(ForumAudit)
    case EventInteractionCreate => Some(Interaction)
    case EventOther(_) => None
  }

  /**
   Routing and subscription agree: a dispatched event reaches the helper of
   category `c` exactly when `c` names that event in its `EventToIntent` call.
   In particular Ready, ErrorNotify and Plain are never the target of routing.
   */
  lemma RouteAgreesWithIntentEvents(e: EventType, c: Category)
    ensures Route(e) == Some(c) <==> (IntentEvents(c).Some? && e in IntentEvents(c).value)
  {
    RoutedEventIsSubscribed(e);
    if IntentEvents(c).Some? && e in IntentEvents(c).value {
      var events := IntentEvents(c).value;
      var k :| 0 <= k < |events| && events[k] == e;
      SubscribedEventsAreRouted(c, k);
    }
  }

  /** Every event the dispatch table routes is one its category subscribes to. */
  lemma RoutedEventIsSubscribed(e: EventType)
    ensures Route(e).Some? ==> IntentEvents(Route(e).value).Some?
    ensures Route(e).Some? ==> e in IntentEvents(Route(e).value).value
  {
    match e
    case EventAudioStart =>
    case EventAudioFinish =>
    case EventAudioOnMic =>
    case EventAudioOffMic =>
    case EventInteractionCreate =>
    case EventGuildCreate =>
    case EventGuildDelete =>
    case EventGuildUpdate =>
    case EventGuildMemberAdd =>
    case EventGuildMemberRemove =>
    case EventGuildMemberUpdate =>
    case EventChannelCreate =>
    case EventChannelDelete =>
    case EventChannelUpdate =>
    case EventMessageCreate =>
    case EventAtMessageCreate =>
    case EventDirectMessageCreate =>
    case EventMessageDelete =>
    case EventPublicMessageDelete =>
    case EventDirectMessageDelete =>
    case EventMessageReactionAdd =>
    case EventMessageReactionRemove =>
    case EventMessageAuditPass =>
    case EventMessageAuditReject =>
    case EventForumThreadCreate =>
    case EventForumThreadUpdate =>
    case EventForumThreadDelete =>
    case EventForumPostCreate =>
    case EventForumPostDelete =>
    case EventForumReplyCreate =>
    case EventForumReplyDelete =>
    case EventForumAuditResult =>
    case EventOther(_) =>
  }

  /** Every event a category subscribes to is routed to that category. */
  lemma SubscribedEventsAreRouted(c: Category, k: nat)
    requires IntentEvents(c).Some? && k < |IntentEvents(c).value|
    ensures Route(IntentEvents(c).value[k]) == Some(c)
  {
    match c
    case Ready =>
    case ErrorNotify =>
    case Plain =>
    case Guild =>
    case GuildMember =>
    case Channel =>
    case Message =>
    case MessageReaction =>
    case ATMessage =>
    case DirectMessage =>
    case MessageAudit =>
    case MessageDelete =>
    case PublicMessageDelete =>
    case DirectMessageDelete =>
    case Audio =>
    case Thread =>
    case Post =>
    case Reply =>
    case ForumAudit =>
    case Interaction =>
  }
}
