/**
 `HandlerImpl` of event/handler.go: a table of at most one callback per
 category plus the intent bitmask, filled once by `NewHandler` and then read
 by `ParseAndHandle` for every payload.
 */
module Handler {
  import opened EventTypes
  import opened Registration

  /** The field of category `c` set to `f`; a nil function clears it. */
  function Put(fns: map<Category, HandlerId>, c: Category, f: Option<HandlerId>): map<Category, HandlerId>
  {
    if f.Some? then fns[c := f.value] else fns - {c}
  }

  /** The handler stored for `c` in the table `fns`; nil when absent. */
  function Lookup(fns: map<Category, HandlerId>, c: Category): Option<HandlerId>
  {
    if c in fns then Some(fns[c]) else None
  }

  /** Setting the field of `d` leaves every other field as it was. */
  lemma LookupPut(fns: map<Category, HandlerId>, d: Category, f: Option<HandlerId>)
    ensures forall c :: Lookup(Put(fns, d, f), c) == if c == d then f else Lookup(fns, c)
  {
  }

  class HandlerImpl {
    /** The handler fields; a category absent from the map holds nil. */
    var fns: map<Category, HandlerId>
    var intent: Intent

    /** The callbacks `NewHandler` was given and its `EventToIntent`. */
    ghost var callbacks: seq<Callback>
    ghost var eventToIntent: EventsToIntent

    /** The handler field of category `c`. */
    function Slot(c: Category): Option<HandlerId>
      reads this
    {
      Lookup(fns, c)
    }

    /** Every field holds the last callback of its category, and `intent` is the OR of their bits. */
    ghost predicate Valid()
      reads this
    {
      && (forall c :: Slot(c) == StoredAfter(callbacks, c, None))
      && (forall b :: b in intent <==> Requested(eventToIntent, callbacks, b))
    }

    /** `NewHandler`: classify every callback, keep the last per category, OR in the intents. */
    constructor (toIntent: EventsToIntent, hs: seq<Callback>)
      ensures Valid()
      ensures callbacks == hs && eventToIntent == toIntent
      ensures forall c :: Slot(c) == StoredAfter(hs, c, None)
      ensures forall b :: b in intent <==> Requested(toIntent, hs, b)
    {
      fns := map[];
      intent := {};
      callbacks := hs;
      eventToIntent := toIntent;
      new;
      var i: Intent := {};
      for k := 0 to |hs|
        invariant callbacks == hs && eventToIntent == toIntent && intent == {}
        invariant forall c :: PassOf(c) == NewHandlerPass ==> Lookup(fns, c) == StoredAfter(hs[..k], c, None)
        invariant forall c :: PassOf(c) != NewHandlerPass ==> Lookup(fns, c) == None
        invariant i == PassIntent(toIntent, hs[..k], NewHandlerPass)
      {
        ghost var fns0, i0 := fns, i;
        if hs[k].Callback? {
          PassMembers(hs[k].kind);
        }
        match hs[k] {
        case Callback(c, f) =>
          match c {
          case Ready | ErrorNotify | Plain =>
            fns := Put(fns, c, f);
          case Audio =>
            fns := Put(fns, Audio, f);
            i := i + toIntent([EventAudioStart, EventAudioFinish, EventAudioOnMic, EventAudioOffMic]);
          case Interaction =>
            fns := Put(fns, Interaction, f);
            i := i + toIntent([EventInteractionCreate]);
          case _ =>
          }
        case NotAHandler =>
        }
        if hs[k].Callback? {
          LookupPut(fns0, hs[k].kind, hs[k].fn);
        }
        assert fns == if hs[k].Callback? && PassOf(hs[k].kind) == NewHandlerPass then Put(fns0, hs[k].kind, hs[k].fn) else fns0;
        assert i == i0 + if hs[k].Callback? && PassOf(hs[k].kind) == NewHandlerPass then Bits(toIntent, hs[k].kind) else {};
        Step(toIntent, hs, k, NewHandlerPass);
      }
      assert hs[..|hs|] == hs;
      ghost var afterOwn := fns;
      var r := RegisterRelationHandlers(toIntent, i, hs);
      i := i + r;
      ghost var afterRelation := fns;
      r := RegisterMessageHandlers(toIntent, i, hs);
      i := i + r;
      ghost var afterMessage := fns;
      r := RegisterForumHandlers(toIntent, i, hs);
      i := i + r;
      forall c ensures Slot(c) == StoredAfter(hs, c, None) {
        assert Lookup(afterOwn, c) == if PassOf(c) == NewHandlerPass then StoredAfter(hs, c, None) else None;
        assert Lookup(afterRelation, c) == if PassOf(c) in {NewHandlerPass, RelationPass} then StoredAfter(hs, c, None) else None;
        assert Lookup(afterMessage, c) == if PassOf(c) != ForumPass then StoredAfter(hs, c, None) else None;
      }
      intent := i;
      forall b ensures b in intent <==> Requested(toIntent, hs, b) {
        AllPassesRequest(toIntent, hs, b);
      }
    }

    /**
     `registerForumHandlers`: the loop over the thread, post, reply and forum-audit callbacks.
     A construction step of `NewHandler` only, as in the source, where it is
     unexported and called from `NewHandler` alone: calling it on a handler
     that is already built can break `Valid()`.
     */
    method RegisterForumHandlers(toIntent: EventsToIntent, i: Intent, hs: seq<Callback>) returns (r: Intent)
      modifies this
      ensures i <= r && r == i + PassIntent(toIntent, hs, ForumPass)
      ensures forall c :: PassOf(c) == ForumPass ==> Slot(c) == StoredAfter(hs, c, old(Slot(c)))
      ensures forall c :: PassOf(c) != ForumPass ==> Slot(c) == old(Slot(c))
      ensures intent == old(intent) && callbacks == old(callbacks) && eventToIntent == old(eventToIntent)
    {
      r := i;
      ghost var fnsIn := fns;
      for k := 0 to |hs|
        invariant r == i + PassIntent(toIntent, hs[..k], ForumPass)
        invariant forall c :: PassOf(c) == ForumPass ==> Lookup(fns, c) == StoredAfter(hs[..k], c, Lookup(fnsIn, c))
        invariant forall c :: PassOf(c) != ForumPass ==> Lookup(fns, c) == Lookup(fnsIn, c)
        invariant intent == old(intent) && callbacks == old(callbacks) && eventToIntent == old(eventToIntent)
      {
        ghost var fns0, r0 := fns, r;
        if hs[k].Callback? {
          PassMembers(hs[k].kind);
        }
        match hs[k] {
        case Callback(c, f) =>
          match c {
          case Thread =>
            fns := Put(fns, Thread, f);
            r := r + toIntent([EventForumThreadCreate, EventForumThreadUpdate, EventForumThreadDelete]);
          case Post =>
            fns := Put(fns, Post, f);
            r := r + toIntent([EventForumPostCreate, EventForumPostDelete]);
          case Reply =>
            fns := Put(fns, Reply, f);
            r := r + toIntent([EventForumReplyCreate, EventForumReplyDelete]);
          case ForumAudit =>
            fns := Put(fns, ForumAudit, f);
            r := r + toIntent([EventForumAuditResult]);
          case _ =>
          }
        case NotAHandler =>
        }
        if hs[k].Callback? {
          LookupPut(fns0, hs[k].kind, hs[k].fn);
        }
        assert fns == if hs[k].Callback? && PassOf(hs[k].kind) == ForumPass then Put(fns0, hs[k].kind, hs[k].fn) else fns0;
        assert r == r0 + if hs[k].Callback? && PassOf(hs[k].kind) == ForumPass then Bits(toIntent, hs[k].kind) else {};
        Step(toIntent, hs, k, ForumPass);
      }
      assert hs[..|hs|] == hs;
    }

    /**
     `registerRelationHandlers`: the loop over the guild, guild-member and channel callbacks.
     A construction step of `NewHandler` only, as in the source, where it is
     unexported and called from `NewHandler` alone: calling it on a handler
     that is already built can break `Valid()`.
     */
    method RegisterRelationHandlers(toIntent: EventsToIntent, i: Intent, hs: seq<Callback>) returns (r: Intent)
      modifies this
      ensures i <= r && r == i + PassIntent(toIntent, hs, RelationPass)
      ensures forall c :: PassOf(c) == RelationPass ==> Slot(c) == StoredAfter(hs, c, old(Slot(c)))
      ensures forall c :: PassOf(c) != RelationPass ==> Slot(c) == old(Slot(c))
      ensures intent == old(intent) && callbacks == old(callbacks) && eventToIntent == old(eventToIntent)
    {
      r := i;
      ghost var fnsIn := fns;
      for k := 0 to |hs|
        invariant r == i + PassIntent(toIntent, hs[..k], RelationPass)
        invariant forall c :: PassOf(c) == RelationPass ==> Lookup(fns, c) == StoredAfter(hs[..k], c, Lookup(fnsIn, c))
        invariant forall c :: PassOf(c) != RelationPass ==> Lookup(fns, c) == Lookup(fnsIn, c)
        invariant intent == old(intent) && callbacks == old(callbacks) && eventToIntent == old(eventToIntent)
      {
        ghost var fns0, r0 := fns, r;
        if hs[k].Callback? {
          PassMembers(hs[k].kind);
        }
        match hs[k] {
        case Callback(c, f) =>
          match c {
          case Guild =>
            fns := Put(fns, Guild, f);
            r := r + toIntent([EventGuildCreate, EventGuildDelete, EventGuildUpdate]);
          case GuildMember =>
            fns := Put(fns, GuildMember, f);
            r := r + toIntent([EventGuildMemberAdd, EventGuildMemberRemove, EventGuildMemberUpdate]);
          case Channel =>
            fns := Put(fns, Channel, f);
            r := r + toIntent([EventChannelCreate, EventChannelDelete, EventChannelUpdate]);
          case _ =>
          }
        case NotAHandler =>
        }
        if hs[k].Callback? {
          LookupPut(fns0, hs[k].kind, hs[k].fn);
        }
        assert fns == if hs[k].Callback? && PassOf(hs[k].kind) == RelationPass then Put(fns0, hs[k].kind, hs[k].fn) else fns0;
        assert r == r0 + if hs[k].Callback? && PassOf(hs[k].kind) == RelationPass then Bits(toIntent, hs[k].kind) else {};
        Step(toIntent, hs, k, RelationPass);
      }
      assert hs[..|hs|] == hs;
    }

    /**
     `registerMessageHandlers`: the loop over the eight message callback categories.
     A construction step of `NewHandler` only, as in the source, where it is
     unexported and called from `NewHandler` alone: calling it on a handler
     that is already built can break `Valid()`.
     */
    method RegisterMessageHandlers(toIntent: EventsToIntent, i: Intent, hs: seq<Callback>) returns (r: Intent)
      modifies this
      ensures i <= r && r == i + PassIntent(toIntent, hs, MessagePass)
      ensures forall c :: PassOf(c) == MessagePass ==> Slot(c) == StoredAfter(hs, c, old(Slot(c)))
      ensures forall c :: PassOf(c) != MessagePass ==> Slot(c) == old(Slot(c))
      ensures intent == old(intent) && callbacks == old(callbacks) && eventToIntent == old(eventToIntent)
    {
      r := i;
      ghost var fnsIn := fns;
      for k := 0 to |hs|
        invariant r == i + PassIntent(toIntent, hs[..k], MessagePass)
        invariant forall c :: PassOf(c) == MessagePass ==> Lookup(fns, c) == StoredAfter(hs[..k], c, Lookup(fnsIn, c))
        invariant forall c :: PassOf(c) != MessagePass ==> Lookup(fns, c) == Lookup(fnsIn, c)
        invariant intent == old(intent) && callbacks == old(callbacks) && eventToIntent == old(eventToIntent)
      {
        ghost var fns0, r0 := fns, r;
        if hs[k].Callback? {
          PassMembers(hs[k].kind);
        }
        match hs[k] {
        case Callback(c, f) =>
          match c {
          case Message =>
            fns := Put(fns, Message, f);
            r := r + toIntent([EventMessageCreate]);
          case ATMessage =>
            fns := Put(fns, ATMessage, f);
            r := r + toIntent([EventAtMessageCreate]);
          case DirectMessage =>
            fns := Put(fns, DirectMessage, f);
            r := r + toIntent([EventDirectMessageCreate]);
          case MessageDelete =>
            fns := Put(fns, MessageDelete, f);
            r := r + toIntent([EventMessageDelete]);
          case PublicMessageDelete =>
            fns := Put(fns, PublicMessageDelete, f);
            r := r + toIntent([EventPublicMessageDelete]);
          case DirectMessageDelete =>
            fns := Put(fns, DirectMessageDelete, f);
            r := r + toIntent([EventDirectMessageDelete]);
          case MessageReaction =>
            fns := Put(fns, MessageReaction, f);
            r := r + toIntent([EventMessageReactionAdd, EventMessageReactionRemove]);
          case MessageAudit =>
            fns := Put(fns, MessageAudit, f);
            r := r + toIntent([EventMessageAuditPass, EventMessageAuditReject]);
          case _ =>
          }
        case NotAHandler =>
        }
        if hs[k].Callback? {
          LookupPut(fns0, hs[k].kind, hs[k].fn);
        }
        assert fns == if hs[k].Callback? && PassOf(hs[k].kind) == MessagePass then Put(fns0, hs[k].kind, hs[k].fn) else fns0;
        assert r == r0 + if hs[k].Callback? && PassOf(hs[k].kind) == MessagePass then Bits(toIntent, hs[k].kind) else {};
        Step(toIntent, hs, k, MessagePass);
      }
      assert hs[..|hs|] == hs;
    }

    /** `GetIntent`. */
    function GetIntent(): (r: Intent)
      reads this
      ensures Valid() ==> forall b :: b in r <==> Requested(eventToIntent, callbacks, b)
    {
      intent
    }

    /** `GetReadyHandler`. */
    function GetReadyHandler(): (r: Option<HandlerId>)
      reads this
      ensures Valid() ==> r == StoredAfter(callbacks, Ready, None)
    {
      Slot(Ready)
    }

    /** `GetErrorNotifyHandler`. */
    function GetErrorNotifyHandler(): (r: Option<HandlerId>)
      reads this
      ensures Valid() ==> r == StoredAfter(callbacks, ErrorNotify, None)
    {
      Slot(ErrorNotify)
    }

    /**
     The per-category helpers (`guildHandler` ... `interactionHandler`): decode
     the raw bytes into the category's data type, stop with the decode error,
     otherwise call the category's handler when there is one.
     */
    function CategoryHandler(c: Category, raw: Bytes, decodeOk: DecodeCheck): (o: Outcome)
      reads this
      ensures o.DecodeError? <==> !decodeOk(c, raw)
      ensures o.Invoked? <==> decodeOk(c, raw) && Slot(c).Some?
      ensures o.DecodeError? ==> o.cat == c
      ensures o.Invoked? ==> o.cat == c && Slot(c) == Some(o.id)
      ensures !o.PlainInvoked?
    {
      if !decodeOk(c, raw) then DecodeError(c)
      else if c in fns then Invoked(c, fns[c])
      else NoOp
    }

    /** `ParseAndHandle`: route one payload to its category helper or to the fallback. */
    function ParseAndHandle(p: Payload, decodeOk: DecodeCheck): (o: Outcome)
      reads this
      // a non-dispatch payload reaches only the fallback, and only when it is set
      ensures o.PlainInvoked? <==> p.opcode != WSDispatchEvent && Slot(Plain).Some?
      ensures o.PlainInvoked? ==> Slot(Plain) == Some(o.id)
      // a dispatch payload reaches the helper its tag routes to, and nothing else
      ensures o.Invoked? || o.DecodeError? ==> p.opcode == WSDispatchEvent && Route(p.eventType) == Some(o.cat)
      ensures o.DecodeError? <==> p.opcode == WSDispatchEvent && Route(p.eventType).Some?
                                  && !decodeOk(Route(p.eventType).value, p.raw)
      ensures o.Invoked? <==> p.opcode == WSDispatchEvent && Route(p.eventType).Some?
                              && decodeOk(Route(p.eventType).value, p.raw) && Slot(Route(p.eventType).value).Some?
      ensures o.Invoked? ==> Slot(o.cat) == Some(o.id)
      // a dispatch payload with a tag outside the table does nothing
      ensures p.opcode == WSDispatchEvent && Route(p.eventType).None? ==> o == NoOp
    {
      if p.opcode == WSDispatchEvent then
        match Route(p.eventType)
        case Some(c) => CategoryHandler(c, p.raw, decodeOk)
        case None => NoOp
      else if Plain in fns then PlainInvoked(fns[Plain])
      else NoOp
    }
  }

  /**
   Only subscribed events run a handler: when `ParseAndHandle` of a handler
   built by `NewHandler` calls a category's callback, the payload's tag is one
   of the events that category passes to `EventToIntent`, the list holds a
   callback of that category, all of its bits are in the intent, and the
   callback run is the last one of its category in the list. So a category
   absent from the list is never invoked.
   */
  lemma InvokedHandlerIsSubscribed(h: HandlerImpl, p: Payload, decodeOk: DecodeCheck)
    requires h.Valid()
    ensures var o := h.ParseAndHandle(p, decodeOk);
            o.Invoked? ==>
              && IntentEvents(o.cat).Some? && p.eventType in IntentEvents(o.cat).value
              && Registers(h.callbacks, o.cat)
              && Bits(h.eventToIntent, o.cat) <= h.intent
              && StoredAfter(h.callbacks, o.cat, None) == Some(o.id)
  {
    var o := h.ParseAndHandle(p, decodeOk);
    if o.Invoked? {
      RouteAgreesWithIntentEvents(p.eventType, o.cat);
      if !Registers(h.callbacks, o.cat) {
        UnregisteredKeepsValue(h.callbacks, o.cat, None);
      }
      forall b | b in Bits(h.eventToIntent, o.cat) ensures b in h.intent {
        assert Requested(h.eventToIntent, h.callbacks, b);
      }
    }
  }

  /**
   The converse: a dispatch payload whose tag a category subscribes to, whose
   bytes decode, runs the last callback of that category in the list, when
   that callback is non-nil (a later nil one clears the field, and nothing runs).
   */
  lemma SubscribedEventRunsLastHandler(h: HandlerImpl, p: Payload, decodeOk: DecodeCheck, c: Category, id: HandlerId)
    requires h.Valid()
    requires p.opcode == WSDispatchEvent && IntentEvents(c).Some? && p.eventType in IntentEvents(c).value
    requires decodeOk(c, p.raw)
    requires StoredAfter(h.callbacks, c, None) == Some(id)
    ensures h.ParseAndHandle(p, decodeOk) == Invoked(c, id)
  {
    RouteAgreesWithIntentEvents(p.eventType, c);
  }

  /**
   A nil callback of a typed handler kind still subscribes: its category's
   bits are in the intent although no payload ever runs a handler for it.
   */
  lemma NilCallbackSubscribesButNeverRuns(h: HandlerImpl, c: Category, p: Payload, decodeOk: DecodeCheck)
    requires h.Valid()
    requires Registers(h.callbacks, c) && StoredAfter(h.callbacks, c, None) == None
    ensures Bits(h.eventToIntent, c) <= h.intent
    ensures h.ParseAndHandle(p, decodeOk).Invoked? ==> h.ParseAndHandle(p, decodeOk).cat != c
  {
    forall b | b in Bits(h.eventToIntent, c) ensures b in h.intent {
      assert Requested(h.eventToIntent, h.callbacks, b);
    }
  }
}
