# Event handler registry and dispatcher of the botgo SDK, in Dafny

This project models the event layer of botgo, a chat-bot SDK: `event/handler.go`.
A bot passes its callbacks to `NewHandler`. The handler sorts each callback into one of
twenty categories (Ready, ErrorNotify, Plain, Guild, Channel, Message, Audio, Thread, ...)
and keeps at most one callback per category. It also builds the *intent*, the bitmask of
event subscriptions the bot advertises to the gateway: the OR of `dto.EventToIntent` over
the events of every category that received a callback. For each payload the gateway session
delivers, `ParseAndHandle` then does one of two things:
- A dispatch opcode: it routes the payload's event-type tag to the helper of one category.
  The helper decodes the raw bytes, returns the decode error if there is one, and otherwise
  calls that category's callback if one is registered.
- Any other opcode: it calls the `Plain` fallback, if one is set.

Files:
- `event_types.dfy` (module `EventTypes`): categories, event tags, callbacks, payloads and
  dispatch outcomes, plus the two static tables. `IntentEvents` lists the events each category
  passes to `EventToIntent`. `Route` is the `switch` of `ParseAndHandle`. The lemmas prove
  the two tables agree.
- `registration.dfy` (module `Registration`): what registration means, stated apart from the
  loops that compute it. `StoredAfter` is the value a field holds after the list is applied
  in order. `PassIntent` is the bits one loop ORs in. `Registers` and `Requested` give the
  declarative view. The lemmas cover last-writer-wins, the intent characterisation and
  ignored elements.
- `handler.dfy` (module `Handler`): the class `HandlerImpl`. Its constructor is `NewHandler`.
  It has the three `register*` loops as methods, the getters, and the dispatch as functions
  returning an `Outcome`. The lemmas connect dispatch to registration.

How collaborators are represented:
- `dto.EventToIntent` is not part of this model. It becomes a parameter `toIntent` from an
  event list to a set of bit positions. An intent is a `set<nat>`, and OR is set union.
- `ParseData` is not part of this model. It becomes a parameter `decodeOk(category, bytes)`.
- Callbacks are opaque `HandlerId`s. "Calling" one is the outcome `Invoked(category, id)` or
  `PlainInvoked(id)`, which stands for returning whatever that callback returns.
- `dto.WSDispatchEvent` is the constant 0. No proof depends on its value.
- A list element is either `Callback(kind, fn)` or `NotAHandler`:
  - `Callback(kind, fn)` is a value whose dynamic type is one of the handler function types.
  - `fn == None` is a nil function of that type, which Go's type switch still matches.
  - `NotAHandler` is anything else: an untyped nil, a function of an unnamed type, any other
    value.
- The twenty handler fields are one map from category to callback. An absent key is a nil
  field.

One might expect only non-nil callbacks to subscribe. The code ORs in a category's bits
whenever the element's type matches, typed nil included (event/handler.go:53-61, 87-100,
111-119, 130-153). The model follows the code: `Registers` counts nil callbacks, and
`NilCallbackSubscribesButNeverRuns` shows the consequence.

## Model

| member | source | states |
|---|---|---|
| `EventTypes.RouteAgreesWithIntentEvents` | event/handler.go:55-226 | For every event tag and category: `ParseAndHandle` routes the tag to that category's helper iff the category passes the tag to `EventToIntent` when it is registered. Hence Ready, ErrorNotify and Plain are never routed to. |
| `EventTypes.RoutedEventIsSubscribed` | event/handler.go:161-227 | Every tag in the dispatch `switch` is one of the events its target category subscribes to. |
| `EventTypes.SubscribedEventsAreRouted` | event/handler.go:55-153 | Every event named in an `EventToIntent` call of a category is routed back to that category. |
| `Registration.LastWriterWins` | event/handler.go:45-63 | When a category occurs several times in the callback list, its field ends up holding the last one in list order. |
| `Registration.UnregisteredKeepsValue` | event/handler.go:43-63 | A category with no callback in the list keeps its field's previous value. In `NewHandler` that value is nil. |
| `Registration.PassIntentIsRequested` | event/handler.go:84-158 | The bits one loop ORs in are exactly the union of `Bits` over that loop's categories that occur in the list. |
| `Registration.AllPassesRequest` | event/handler.go:65-68 | The four loops together request exactly the union of `Bits` over all registered categories. Ready, ErrorNotify and Plain contribute nothing. |
| `Registration.NotAHandlerIsIgnored` | event/handler.go:46-63 | Removing an element that matches no handler type changes no field and no intent bit of any loop. |
| `Handler.HandlerImpl.constructor` | event/handler.go:42-70 | `NewHandler`. Every field holds the last callback of its category, or nil. Bit `b` is in `Intent` iff some registered category's `EventToIntent` bits contain `b`. Establishes `Valid()`. |
| `Handler.HandlerImpl.RegisterForumHandlers` | event/handler.go:84-105 | Returns the given intent ORed with the forum categories' bits, so a superset. Sets the Thread, Post, Reply and ForumAudit fields last-writer-wins. Changes no other field. |
| `Handler.HandlerImpl.RegisterRelationHandlers` | event/handler.go:108-124 | The same for Guild, GuildMember and Channel. |
| `Handler.HandlerImpl.RegisterMessageHandlers` | event/handler.go:127-158 | The same for the eight message categories. |
| `Handler.HandlerImpl.GetIntent` | event/handler.go:72-74 | On a handler built by `NewHandler`, returns exactly the bits requested by the registered categories. |
| `Handler.HandlerImpl.GetReadyHandler` | event/handler.go:76-78 | On a handler built by `NewHandler`, returns the last Ready callback of the list, or nil. |
| `Handler.HandlerImpl.GetErrorNotifyHandler` | event/handler.go:80-82 | On a handler built by `NewHandler`, returns the last ErrorNotify callback of the list, or nil. |
| `Handler.HandlerImpl.CategoryHandler` | event/handler.go:236-421 | Each per-category helper: a decode failure yields the decode error even when a callback is set. The callback is invoked iff decoding succeeds and the field is non-nil. It is invoked with the stored callback. Otherwise the result is nil. |
| `Handler.HandlerImpl.ParseAndHandle` | event/handler.go:160-234 | A non-dispatch opcode reaches only `Plain`, and only when it is set. A dispatch payload reaches only the helper `Route` picks, with the helper's decode-error and invoke conditions. A tag outside the table returns nil. |
| `Handler.InvokedHandlerIsSubscribed` | event/handler.go:55-226 | If dispatch on a handler built by `NewHandler` runs a callback, four things hold. The payload's tag is one its category subscribes to. The list holds a callback of that category, so a category absent from the list is never invoked. That category's bits are in `Intent`. The callback is the last one of its category in the list. |
| `Handler.SubscribedEventRunsLastHandler` | event/handler.go:160-245 | Conversely, a dispatch payload whose tag category `c` subscribes to, and whose bytes decode, runs the last callback of `c` in the list, when that callback is non-nil. |
| `Handler.NilCallbackSubscribesButNeverRuns` | event/handler.go:46-63 | A category whose last callback is a typed nil still has its bits in `Intent`, but dispatch never invokes a callback for it. |

## Left out

- The contents of `dto.EventToIntent`, `dto.WSPayload` and `ParseData` live in the `dto`
  package and the decoder, which are not part of this model. They are parameters here, and
  no bit values or JSON formats are modelled.
- The callbacks' own behaviour, and the arguments they receive (the payload and the decoded
  data). Foreign function values are opaque ids.
- The Go `error` values. A decode failure is `DecodeError(category)`, and a callback's or the
  fallback's result is represented by the outcome that names it.
- The logger (`log/console.go`, `log/log.go`, `log/logger.go`): it is I/O over `log/slog`
  and runtime stack inspection, plus a one-line level gate.
- The gateway transport, session and concurrency. Dispatch is a synchronous call on a handler
  that is read-only after construction.
- Event tags are a datatype: the 32 tags in the dispatch table, and `EventOther(tag)` for any
  other string. The model assumes the tag constants are distinct strings, as a Go `switch`
  with duplicate constant cases would not compile.
