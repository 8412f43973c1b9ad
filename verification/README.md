# WebSocketHandler — a Dafny model

This project models the client connection wrapper `WebSocketHandler` of the
karaoke scheduler front end (`frontend/src/lib/websocket.ts`). The wrapper
owns one browser WebSocket. It keeps two handler registries: message
handlers keyed by server-message tag, and lifecycle handlers keyed by
`Connect` / `Disconnect` / `Error`. It reads each inbound binary frame with
`Blob.text()`, decodes it with `JSON.parse` and dispatches each property
of the decoded object to the handler registered for that tag. A text
frame's data is a string, which has no `text()` method: the callback
throws before anything is parsed.

The class becomes an immutable record, `Client.WebSocketHandler`. It holds
both registries, the stored endpoint, the owned socket, `lastMessage` and an
append-only `trace` of observable effects. Each public method is a pure
transition: `Connect`, `Reconnect`, `Disconnect`, `Register`,
`RegisterEvent`. So are the private steps `ParseMsg` and `HandleMessage`.
Each socket callback is one too: `OnOpen`, `OnClose`, `OnError`, `OnFrame`.
`Session.Run` drives the wrapper through a sequence of such inputs.

Modelling choices:
- Handler functions are identities (`Callback(name)`). Calling one appends
  `MessageHandlerCalled` or `EventHandlerCalled` to the trace.
- `console.log` and `console.warn` append `Console(Info, …)` and
  `Console(Warning, …)` with the diagnostic they print
  (`ConnectingTo(endpoint)`, `NoHandlerFor(tag)`).
- Creating a socket appends `SocketOpened(id, url)`. Calling `close()`
  appends `SocketCloseRequested(id)`.
- Whether `new WebSocket(url)` accepts a URL is the parameter `acceptsUrl`.
  A rejected URL throws a SyntaxError out of `connect` after the log line
  and after the endpoint was stored; the model appends `UrlRejected(url)`
  and keeps the previously owned socket. A constructor whose URL is
  rejected yields no wrapper.
- The registries are plain objects. Their own properties are a
  `map<_, Option<Callback>>`: `register(t, undefined)` stores an own
  property holding `undefined` (`None`). A read of a tag that is not an own
  property falls through to `Object.prototype` (`Dispatch.ReadHandler`).
- `JSON.parse` is the parameter `decode`. It returns `Failure(reason)` when
  parsing throws. Otherwise it returns `Success(Falsy)` for `null`, `false`,
  `0` or `""`, which `if (res)` drops. Any other value is
  `Success(Truthy(fields))`, where `fields` are its enumerable properties
  with distinct keys, in `for … in` order.
- A frame is `TextFrame(data)` or `BinaryFrame(text)`, where `text` is what
  the `Blob`'s `text()` yields. A text frame appends only `FrameUnreadable`,
  the rejected promise of the message callback.
- `new Date()` is a clock reading `now: nat` supplied with each frame.
- A socket event carries the id of the socket that raised it. Callbacks
  close over the wrapper, not the socket. So an event from a replaced socket
  still reaches the current registries, but only the owned socket's ready
  state changes.

Behaviours of the code worth noting (the model follows the code):
- `reconnect(force)` is a no-op exactly when the socket is open AND `force`
  is true, although its comment suggests otherwise.
- `handleMessage` dispatches every property of the decoded value, not a
  single tag.
- A decoded value that is falsy is dropped without stamping `lastMessage`.
- `close()` moves a socket to Closing, not straight to Closed. Closed comes
  with the close event.
- A message tag that names a member of `Object.prototype` and has no own
  handler is read off the prototype (see Findings).
- Only binary frames reach `parseMsg`: `e.data.text()` exists on a `Blob`,
  not on the string a text frame carries, so a text frame sets no
  `lastMessage`, calls no handler and does not reach the Error handler.

## Model

| member | source | states |
|---|---|---|
| Registry.Lookup | frontend/src/lib/websocket.ts:62-64 | a handler is found for a lifecycle event (the reads here and at line 77) exactly when the registry holds an own entry for it that is not `undefined`, and it is that entry |
| Registry.Assign | frontend/src/lib/websocket.ts:96 | after assignment the tag is an own entry holding the given handler (possibly `undefined`); every other tag answers as before |
| Registry.AssignReplaces | frontend/src/lib/websocket.ts:96 | a second assignment to a tag makes the first invisible (last write wins) |
| Registry.AssignCommutes | frontend/src/lib/websocket.ts:96 | assignments to different tags commute |
| Transport.RequestClose | frontend/src/lib/websocket.ts:112-114 | `close()` leaves a socket neither connecting nor open; a closing or closed socket is unaffected |
| Transport.AfterOpen | frontend/src/lib/websocket.ts:64 | the open event makes a connecting socket open and changes no other state |
| Dispatch.ReadHandler | frontend/src/lib/websocket.ts:43-88 | reading a tag yields its own handler when one is registered; an own `undefined` or an unknown tag reads as `undefined`; a tag naming an `Object.prototype` member with no own entry reads that member, which throws when called for `__proto__` and the two accessor definers; `toLocaleString` with no own entry forwards to the own `toString` entry when there is one, calling that handler, or throwing when it holds `undefined` |
| Dispatch.DispatchTrace | frontend/src/lib/websocket.ts:84-89 | the loop as written: every call goes to the handler the tag reads as, with a value the message holds; a call through `toLocaleString` goes to the handler registered under `toString`, for a `toLocaleString` property of the message; warnings only for tags read as `undefined`; a TypeError only as the last entry, for a tag whose read throws; at most one entry per property |
| Dispatch.Reached | frontend/src/lib/websocket.ts:84-88 | the properties the loop gets to are a prefix of the message, none of whose reads throws, and the loop stops only at a property whose read throws |
| Dispatch.Visible | frontend/src/lib/websocket.ts:86-88 | the properties kept are exactly those not read as a non-throwing inherited member |
| Dispatch.VisiblePermutation | frontend/src/lib/websocket.ts:84 | reordering the properties reorders the ones not read as a non-throwing inherited member |
| Dispatch.OwnDispatchTrace | frontend/src/lib/websocket.ts:84-89 | the loop as intended: one entry per property, in order, a call of the own handler or a warning |
| Dispatch.OwnDispatchAppend | frontend/src/lib/websocket.ts:84 | the intended loop over concatenated properties is the loop over each part in turn |
| Dispatch.OwnEntryOccursOnce | frontend/src/lib/websocket.ts:84-89 | with distinct tags each property's entry occurs exactly once in the intended loop's trace |
| Dispatch.OwnEachTagHandledOnce | frontend/src/lib/websocket.ts:84-89 | in the intended loop each tag with a handler calls it exactly once with its value and each tag without one warns exactly once |
| Dispatch.OwnOnlyMessageTagsHandled | frontend/src/lib/websocket.ts:84-89 | in the intended loop every call goes to the registered handler of a tag present in the message, with that tag's value; warnings only name present, unregistered tags; nothing else is emitted |
| Dispatch.OwnDispatchOrderIrrelevant | frontend/src/lib/websocket.ts:84 | in the intended loop any enumeration order yields the same multiset of calls and warnings |
| Dispatch.DispatchDecomposes | frontend/src/lib/websocket.ts:84-89 | leaving out the calls made through `toLocaleString`, the loop as written is the intended loop over the reached properties not read as a non-throwing inherited member, followed by the TypeError that stopped it, if any |
| Dispatch.WithoutToStringCalls | frontend/src/lib/websocket.ts:84-89 | removes exactly the calls made through `toLocaleString` and leaves a trace without them unchanged |
| Dispatch.WithoutToStringCallsCount | frontend/src/lib/websocket.ts:84-89 | removing those calls keeps the count of every other entry |
| Dispatch.ToStringCallCount | frontend/src/lib/websocket.ts:43-89 | the handler registered under `toString` is called through `toLocaleString` once when the loop reaches a `toLocaleString` property with no own entry for it, and otherwise never |
| Dispatch.ReachesAll | frontend/src/lib/websocket.ts:84-88 | with no throwing read the loop reaches every property and ends normally |
| Dispatch.DispatchOrderIrrelevant | frontend/src/lib/websocket.ts:84 | when no read throws, the loop as written yields the same multiset of entries whatever the enumeration order |
| Dispatch.ToLocaleStringReadsOwnToString | frontend/src/lib/websocket.ts:43-89 | `{"toLocaleString": v}` calls a handler registered under `toString` and throws after `toString` was registered as `undefined`, while the intended loop warns in both cases |
| Dispatch.DispatchMatchesOwnOffPrototype | frontend/src/lib/websocket.ts:84-89 | when every tag is an own entry or names no `Object.prototype` member, the loop as written is the intended one |
| Dispatch.ReachedTagsHandledOnce | frontend/src/lib/websocket.ts:84-89 | among the reached properties each tag read as a handler calls it exactly once with its value and each tag read as `undefined` warns exactly once |
| Dispatch.OnlyReachedTagsHandled | frontend/src/lib/websocket.ts:84-89 | every call and every warning comes from a property the loop reached |
| Dispatch.ThrowIsLast | frontend/src/lib/websocket.ts:84-89 | a TypeError ends the loop: it is the last entry |
| Dispatch.ProtoKeyStopsDispatch | frontend/src/lib/websocket.ts:43-89 | with `SearchResults` registered, a message `{"__proto__": 1, "SearchResults": v}` throws before the handler runs, while the intended loop warns and calls it |
| Dispatch.ConstructorKeyIsSilent | frontend/src/lib/websocket.ts:43-88 | an unregistered tag `constructor` is neither warned about nor dispatched, while the intended loop warns |
| Client.Create | frontend/src/lib/websocket.ts:37-48 | a wrapper exists exactly when the endpoint is accepted; it has empty registries, no `lastMessage`, and one connecting socket to its endpoint |
| Client.Connect | frontend/src/lib/websocket.ts:58-61 | logs and stores the endpoint in every case; an accepted URL gives a fresh connecting socket to it, the previous one not closed; a rejected one keeps the previous socket; registries and `lastMessage` unchanged |
| Client.Disconnect | frontend/src/lib/websocket.ts:112-114 | requests close of the owned socket, which is then neither connecting nor open; nothing else changes |
| Client.Reconnect | frontend/src/lib/websocket.ts:50-56 | leaves the wrapper unchanged if and only if the socket is open and `force` is true; otherwise closes it, logs the stored endpoint and opens a new socket to it if accepted; the endpoint never changes |
| Client.Register | frontend/src/lib/websocket.ts:92-98 | the message handler for the tag becomes the given one; other tags, lifecycle handlers and all other state are unchanged |
| Client.RegisterEvent | frontend/src/lib/websocket.ts:100-106 | the lifecycle handler for the event becomes the given one; other events, the message handlers and all other state are unchanged |
| Client.Notify | frontend/src/lib/websocket.ts:62-64 | calls the lifecycle handler once if registered, otherwise changes nothing; only the trace can change |
| Client.UpdateOwned | frontend/src/lib/websocket.ts:62-64 | a socket event changes the ready state of the owned socket only, and only when it comes from that socket |
| Client.OnOpen | frontend/src/lib/websocket.ts:64 | calls only the Connect handler, if registered; the owned socket becomes open if it was connecting and raised the event, and is otherwise unchanged; registries and `lastMessage` unchanged |
| Client.OnClose | frontend/src/lib/websocket.ts:63 | calls only the Disconnect handler with the close event, if registered; the owned socket becomes closed if it raised the event, and is otherwise unchanged; registries and `lastMessage` unchanged |
| Client.OnError | frontend/src/lib/websocket.ts:62 | calls only the Error handler, if registered, and changes nothing else |
| Client.ParseMsg | frontend/src/lib/websocket.ts:72-80 | a decodable frame yields its value with no effect; an undecodable one yields nothing after calling the Error handler once, if registered |
| Client.HandleMessage | frontend/src/lib/websocket.ts:82-90 | stamps `lastMessage` unconditionally and appends exactly the loop's trace over the message's properties; registries and socket unchanged |
| Client.OnFrame | frontend/src/lib/websocket.ts:65-69 | a text frame only records the callback's failure; for a binary frame a decode failure runs no message handler and keeps `lastMessage`, a falsy value changes nothing, and a truthy one is exactly `handleMessage` of its properties |
| Session.Step | frontend/src/lib/websocket.ts:50-114 | every input only appends to the trace and keeps the socket-id invariant; only registrations change the registries; only frames change `lastMessage`; only `connect` changes the endpoint; every message-handler call, including one made through `toLocaleString`, uses the current registry |
| Session.Run | frontend/src/lib/websocket.ts:50-114 | the same facts for a whole sequence of inputs |
| Properties.RegisterLastWins | frontend/src/lib/websocket.ts:92-98 | registering a tag twice is the same as registering only the second handler |
| Properties.RegisterDistinctTagsCommute | frontend/src/lib/websocket.ts:92-98 | registrations under different tags commute |
| Properties.RegisterEventLastWins | frontend/src/lib/websocket.ts:100-106 | registering a lifecycle event twice is the same as registering only the second handler |
| Properties.RegistriesIndependent | frontend/src/lib/websocket.ts:92-106 | message and lifecycle registrations commute and neither touches the other registry |
| Properties.HandleMessagePerTag | frontend/src/lib/websocket.ts:82-89 | per reached tag of a decoded message: exactly one call of the handler it reads as, or exactly one warning; one call of the `toString` handler for a reached `toLocaleString` that forwards to it; no other handler; a TypeError only last; every tag is reached when none throws; `lastMessage` set either way |
| Properties.HandleMessageOrderIrrelevant | frontend/src/lib/websocket.ts:84 | when no tag's read throws, the calls and warnings of a message do not depend on property enumeration order |
| Properties.ToLocaleStringCallsToStringHandler | frontend/src/lib/websocket.ts:82-98 | after `register("toString", h)` a message `{"toLocaleString": v}` calls `h`; after `register("toString", undefined)` it throws |
| Properties.UndecodableFrame | frontend/src/lib/websocket.ts:65-80 | an undecodable frame calls the Error handler exactly once when registered and otherwise leaves the wrapper unchanged |
| Properties.ReconnectRightAfterConnect | frontend/src/lib/websocket.ts:50-61 | a reconnect right after a successful `connect(e)` always happens and targets `e` |
| Properties.LaterReconnectTargetsLatestEndpoint | frontend/src/lib/websocket.ts:50-61 | after `connect(e)` and any inputs other than `connect`, the endpoint is still `e`, and a reconnect that happens logs `e` and opens its socket to `e` when accepted |
| Properties.ReconnectWhileOpen | frontend/src/lib/websocket.ts:50-56 | while open, `reconnect(true)` is a no-op and `reconnect(false)` first closes the socket, then opens a new one to the same endpoint, or leaves it closing when the URL is rejected |
| Properties.RegisteredHandlerIsTheOneCalled | frontend/src/lib/websocket.ts:82-98 | after `register(tag, h)` and no further registration, every call for `tag` in a session goes to `h`, never to a replaced handler |
| Properties.LastMessageUnsetWithoutFrames | frontend/src/lib/websocket.ts:38-83 | `lastMessage` stays unset from construction until a frame is handled |
| Properties.SearchResultsExample | frontend/src/lib/websocket.ts:65-98 | a `SearchResults` frame calls the registered handler once with its list and sets `lastMessage` |

## Findings

| source | as written | input that shows it | evidently intended | confidence | as-written member | corrected member |
|---|---|---|---|---|---|---|
| frontend/src/lib/websocket.ts:43-89 | `handlers` is the object literal `{}`, so `this.handlers[key]` for a tag with no own handler reads `Object.prototype`; for `__proto__`, `__defineGetter__` and `__defineSetter__` the call throws a TypeError that abandons the rest of the message; `toLocaleString` runs `this.toString()`, calling a handler registered under `toString` or throwing when that entry is `undefined`; for the other inherited names (`constructor`, `toString`, …) a built-in is called silently instead of the warning | a frame `{"__proto__": 1, "SearchResults": ["x"]}` with a `SearchResults` handler registered: the handler is never called; `{"toLocaleString": 1}` after `register("toString", h)`: `h` is called; `{"constructor": 1}`: no warning | only registered handlers are consulted: each tag either calls its own handler or warns, whatever its name (e.g. a registry created with `Object.create(null)` or a `Map`) | not executed | Dispatch.ProtoKeyStopsDispatch | Dispatch.OwnEachTagHandledOnce |

`Dispatch.DispatchTrace` is the loop as written and is what `HandleMessage`
uses; `Dispatch.OwnDispatchTrace` is the intended loop, with
`OwnEachTagHandledOnce`, `OwnOnlyMessageTagsHandled` and
`OwnDispatchOrderIrrelevant` proved about it. `DispatchDecomposes` relates
the two, and `DispatchMatchesOwnOffPrototype` shows they agree on every
message whose tags are not read off the prototype. `ToLocaleStringReadsOwnToString`
exhibits the forwarding through `toLocaleString`.

## Left out

- `send` (frontend/src/lib/websocket.ts:108-110): serialising with `JSON.stringify` and the browser's `send` are foreign calls. The throw on a connecting socket is browser behaviour the wrapper does not handle.
- The browser `WebSocket` object: only its identity, URL and ready state are modelled. When its events fire is an input of the model.
- URL validity: which URLs `new WebSocket` rejects is the parameter `acceptsUrl`; the URL grammar is not modelled.
- `JSON.parse`: a parameter of the model. The JSON grammar is not modelled.
- The `await e.data.text()` suspend point (frontend/src/lib/websocket.ts:66): each frame is processed as one step. Interleaving between frames, and frames from an already replaced socket racing with `connect`, are not modelled.
- Handlers are opaque. A handler that throws, or that calls `register` while a message is being dispatched, is not modelled.
- Dispatch.DispatchTrace: calling a non-throwing built-in other than `toLocaleString` with a decoded value is taken to have no effect; a conversion it performs on an object whose own `toString` or `valueOf` is not a function, and could throw, is not modelled.
- `new Date()`: replaced by the clock reading `now` of each frame.
- The socket's `binaryType` is taken to be its default, `"blob"`; with `"arraybuffer"` a binary frame's data has no `text()` method either.
- `WEBSOCKET_CODES` (frontend/src/lib/websocket.ts:24-30): informational constants that no code reads.
- The type-level helpers `Keys`, `Concrete` and `MessageHandlerMap` (frontend/src/lib/websocket.ts:8-18) are replaced by Dafny types.
- Client.Register: it accepts any tag string. TypeScript restricts `register` to the declared tags (only `SearchResults`) at compile time. Registering under `__proto__`, which would replace the prototype of the registry instead of adding an entry, is not modelled.
- `backend/src/main.rs` and `frontend/vite.config.ts` are not part of this model: they are the server and the build configuration.
