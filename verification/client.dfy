/**
 * The `WebSocketHandler` class as an immutable state record with one pure
 * transition per public method and one per socket callback. The browser
 * socket is reduced to its ready state, and the browser's URL check and
 * `JSON.parse` are parameters. Every observable effect (handler call,
 * console line, socket command, exception) is appended to `trace`.
 */
module Client {
  import opened Wrappers
  import opened Messages
  import opened Trace
  import opened Transport
  import Registry
  import Dispatch

  datatype WebSocketHandler = WebSocketHandler(
    /** Own properties of the `handlers` object literal. */
    handlers: Dispatch.Handlers,
    /** Own properties of the `metaHandlers` object literal. */
    metaHandlers: map<EventTag, Option<Callback>>,
    endpoint: string,
    connection: Socket,
    /** The identity the next socket created by `connect` receives. */
    nextSocket: nat,
    /** The clock reading of the last handled message; `None` until the first. */
    lastMessage: Option<nat>,
    trace: seq<Output>)

  /** Socket identities are never reused: the owned one predates the next. */
  predicate Valid(w: WebSocketHandler) {
    w.connection.id < w.nextSocket
  }

  /** The lifecycle handler registered for `event`, if any. */
  function EventHandler(w: WebSocketHandler, event: EventTag): Option<Callback> {
    Registry.Lookup(w.metaHandlers, event)
  }

  /**
   * `new WebSocketHandler(endpoint)`: empty registries, then
   * `connect(endpoint)`. When the browser rejects the URL the constructor
   * throws and there is no wrapper.
   */
  function Create(endpoint: string, acceptsUrl: string -> bool): (w: Option<WebSocketHandler>)
    ensures w.Some? <==> acceptsUrl(endpoint)
    ensures w.Some? ==> Valid(w.value)
    ensures w.Some? ==> w.value.handlers == map[] && w.value.metaHandlers == map[] && w.value.lastMessage == None
    ensures w.Some? ==> w.value.endpoint == endpoint && w.value.connection.url == endpoint
    ensures w.Some? ==> w.value.connection.ready == Connecting
    ensures w.Some? ==> w.value.trace == [Console(Info, ConnectingTo(endpoint)), SocketOpened(w.value.connection.id, endpoint)]
  {
    // The socket field is definitely assigned by `connect` before anyone
    // reads it; the placeholder below is overwritten.
    var blank := WebSocketHandler(map[], map[], endpoint, Socket(0, endpoint, Closed), 0, None, []);
    if acceptsUrl(endpoint) then Some(Connect(blank, endpoint, acceptsUrl)) else None
  }

  /**
   * `connect(endpoint)`: logs and stores the endpoint, then replaces the
   * owned socket by a fresh one that starts out connecting. The previous
   * socket is not closed. When the browser rejects the URL, `new WebSocket`
   * throws after the endpoint was stored, and the previous socket stays.
   */
  function Connect(w: WebSocketHandler, endpoint: string, acceptsUrl: string -> bool): (r: WebSocketHandler)
    ensures r.endpoint == endpoint
    ensures acceptsUrl(endpoint) ==>
      && Valid(r)
      && r.connection.url == endpoint && r.connection.ready == Connecting
      && r.connection.id >= w.nextSocket
      && r.trace == w.trace + [Console(Info, ConnectingTo(endpoint)), SocketOpened(r.connection.id, endpoint)]
    ensures !acceptsUrl(endpoint) ==>
      && r.connection == w.connection && r.nextSocket == w.nextSocket
      && r.trace == w.trace + [Console(Info, ConnectingTo(endpoint)), UrlRejected(endpoint)]
    ensures Valid(w) ==> Valid(r)
    ensures Valid(w) && acceptsUrl(endpoint) ==> r.connection.id != w.connection.id
    ensures r.handlers == w.handlers && r.metaHandlers == w.metaHandlers && r.lastMessage == w.lastMessage
  {
    var logged := w.(endpoint := endpoint, trace := w.trace + [Console(Info, ConnectingTo(endpoint))]);
    if acceptsUrl(endpoint) then
      var socket := Socket(w.nextSocket, endpoint, Connecting);
      logged.(connection := socket, nextSocket := w.nextSocket + 1, trace := logged.trace + [SocketOpened(socket.id, endpoint)])
    else
      logged.(trace := logged.trace + [UrlRejected(endpoint)])
  }

  /**
   * `disconnect()`: asks the owned socket to close. The socket's close
   * event, and with it the Disconnect handler, comes later as a separate
   * input (`OnClose`).
   */
  function Disconnect(w: WebSocketHandler): (r: WebSocketHandler)
    ensures r.connection.id == w.connection.id && r.connection.url == w.connection.url
    ensures r.connection.ready != Open && r.connection.ready != Connecting
    ensures w.connection.ready == Closing || w.connection.ready == Closed ==> r.connection == w.connection
    ensures r.trace == w.trace + [SocketCloseRequested(w.connection.id)]
    ensures r == w.(connection := r.connection, trace := r.trace)
  {
    w.(connection := w.connection.(ready := RequestClose(w.connection.ready)),
       trace := w.trace + [SocketCloseRequested(w.connection.id)])
  }

  /**
   * `reconnect(force)`. The guard returns early exactly when the socket is
   * open AND `force` is set — the opposite of what its comment says it
   * means; the model follows the code. Otherwise the current socket is
   * closed and a new one is opened to the stored endpoint.
   */
  function Reconnect(w: WebSocketHandler, force: bool, acceptsUrl: string -> bool): (r: WebSocketHandler)
    ensures r == w <==> w.connection.ready == Open && force
    ensures r != w ==>
      r.trace == w.trace + [SocketCloseRequested(w.connection.id), Console(Info, ConnectingTo(w.endpoint)),
                            if acceptsUrl(w.endpoint) then SocketOpened(r.connection.id, w.endpoint) else UrlRejected(w.endpoint)]
    ensures r != w && acceptsUrl(w.endpoint) ==>
      r.connection.url == w.endpoint && r.connection.ready == Connecting && r.connection.id >= w.nextSocket
    ensures r != w && !acceptsUrl(w.endpoint) ==>
      r.connection.id == w.connection.id && r.connection.ready != Open && r.connection.ready != Connecting
    ensures r.endpoint == w.endpoint
    ensures r.handlers == w.handlers && r.metaHandlers == w.metaHandlers && r.lastMessage == w.lastMessage
  {
    if w.connection.ready == Open && force then w
    else Connect(Disconnect(w), w.endpoint, acceptsUrl)
  }

  /**
   * `register(tag, handler)`: the own property `tag` of the message
   * handlers becomes `handler` (possibly `undefined`); nothing else
   * changes. The TypeScript method returns `this`, so chained calls are
   * successive applications of this function.
   */
  function Register(w: WebSocketHandler, tag: string, handler: Option<Callback>): (r: WebSocketHandler)
    ensures tag in r.handlers && Registry.Lookup(r.handlers, tag) == handler
    ensures forall t | t != tag :: (t in r.handlers <==> t in w.handlers) && Registry.Lookup(r.handlers, t) == Registry.Lookup(w.handlers, t)
    ensures r == w.(handlers := r.handlers)
  {
    w.(handlers := Registry.Assign(w.handlers, tag, handler))
  }

  /** `registerEvent(event, handler)`: the same for the lifecycle handlers; the message handlers are untouched. */
  function RegisterEvent(w: WebSocketHandler, event: EventTag, handler: Option<Callback>): (r: WebSocketHandler)
    ensures EventHandler(r, event) == handler
    ensures forall e | e != event :: EventHandler(r, e) == EventHandler(w, e)
    ensures r == w.(metaHandlers := r.metaHandlers)
  {
    w.(metaHandlers := Registry.Assign(w.metaHandlers, event, handler))
  }

  /**
   * `metaHandlers[event]?.(payload)`: calls the lifecycle handler for
   * `event` once if one is registered, and does nothing otherwise.
   */
  function Notify(w: WebSocketHandler, event: EventTag, payload: EventPayload): (r: WebSocketHandler)
    ensures EventHandler(w, event).None? ==> r == w
    ensures EventHandler(w, event).Some? ==>
      r.trace == w.trace + [EventHandlerCalled(event, EventHandler(w, event).value, payload)]
    ensures r == w.(trace := r.trace)
  {
    match EventHandler(w, event)
    case Some(h) => w.(trace := w.trace + [EventHandlerCalled(event, h, payload)])
    case None => w
  }

  /** The ready state of the owned socket after `update`, if the event came from it. */
  function UpdateOwned(w: WebSocketHandler, socket: nat, update: ReadyState -> ReadyState): (r: WebSocketHandler)
    ensures r.connection.id == w.connection.id && r.connection.url == w.connection.url
    ensures socket != w.connection.id ==> r == w
    ensures socket == w.connection.id ==> r.connection.ready == update(w.connection.ready)
    ensures r == w.(connection := r.connection)
  {
    if socket == w.connection.id then w.(connection := w.connection.(ready := update(w.connection.ready)))
    else w
  }

  /**
   * The socket's `onopen`: the Connect handler is called with no payload.
   * The callback reads the wrapper's current registry, so a socket that was
   * already replaced still reaches it.
   */
  function OnOpen(w: WebSocketHandler, socket: nat): (r: WebSocketHandler)
    ensures socket == w.connection.id && w.connection.ready == Connecting ==> r.connection.ready == Open
    ensures socket != w.connection.id || w.connection.ready != Connecting ==> r.connection == w.connection
    ensures r.handlers == w.handlers && r.metaHandlers == w.metaHandlers && r.lastMessage == w.lastMessage
    ensures r.endpoint == w.endpoint && r.connection.id == w.connection.id
    ensures EventHandler(w, EventTag.Connect).Some? ==>
      r.trace == w.trace + [EventHandlerCalled(EventTag.Connect, EventHandler(w, EventTag.Connect).value, NoPayload)]
    ensures EventHandler(w, EventTag.Connect).None? ==> r.trace == w.trace
  {
    Notify(UpdateOwned(w, socket, AfterOpen), EventTag.Connect, NoPayload)
  }

  /** The socket's `onclose`: the Disconnect handler is called with the close event. */
  function OnClose(w: WebSocketHandler, socket: nat, code: int, reason: string): (r: WebSocketHandler)
    ensures socket == w.connection.id ==> r.connection.ready == Closed
    ensures socket != w.connection.id ==> r.connection == w.connection
    ensures r.handlers == w.handlers && r.metaHandlers == w.metaHandlers && r.lastMessage == w.lastMessage
    ensures r.endpoint == w.endpoint && r.connection.id == w.connection.id
    ensures EventHandler(w, EventTag.Disconnect).Some? ==>
      r.trace == w.trace + [EventHandlerCalled(EventTag.Disconnect, EventHandler(w, EventTag.Disconnect).value, CloseEvent(code, reason))]
    ensures EventHandler(w, EventTag.Disconnect).None? ==> r.trace == w.trace
  {
    Notify(UpdateOwned(w, socket, _ => Closed), EventTag.Disconnect, CloseEvent(code, reason))
  }

  /** The socket's `onerror`: the Error handler is called; the ready state is left alone. */
  function OnError(w: WebSocketHandler, socket: nat, description: string): (r: WebSocketHandler)
    ensures EventHandler(w, Error).None? ==> r == w
    ensures EventHandler(w, Error).Some? ==>
      r == w.(trace := w.trace + [EventHandlerCalled(Error, EventHandler(w, Error).value, ErrorEvent(description))])
  {
    Notify(w, Error, ErrorEvent(description))
  }

  /**
   * `parseMsg(text)`: the decoded value, or — when `JSON.parse` throws —
   * nothing, after the Error handler (if any) was told about the failure.
   */
  function ParseMsg(w: WebSocketHandler, text: string, decode: string -> Result<JsonValue, string>)
    : (r: (WebSocketHandler, Option<JsonValue>))
    ensures decode(text).Success? ==> r == (w, Some(decode(text).value))
    ensures decode(text).Failure? ==> r.1 == None
    ensures decode(text).Failure? && EventHandler(w, Error).None? ==> r.0 == w
    ensures decode(text).Failure? && EventHandler(w, Error).Some? ==>
      r.0 == w.(trace := w.trace + [EventHandlerCalled(Error, EventHandler(w, Error).value, ErrorEvent(decode(text).error))])
  {
    match decode(text)
    case Success(v) => (w, Some(v))
    case Failure(e) => (Notify(w, Error, ErrorEvent(e)), None)
  }

  /**
   * `handleMessage(msg)`: stamps `lastMessage` with the clock reading
   * `now`, whether or not any handler matches, then runs the dispatch loop
   * over the message's properties.
   */
  function HandleMessage(w: WebSocketHandler, msg: JsonObject, now: nat): (r: WebSocketHandler)
    ensures r.lastMessage == Some(now)
    ensures |w.trace| <= |r.trace| <= |w.trace| + |msg|
    ensures r.trace[..|w.trace|] == w.trace
    ensures r.trace[|w.trace|..] == Dispatch.DispatchTrace(w.handlers, msg)
    ensures r == w.(lastMessage := r.lastMessage, trace := r.trace)
  {
    var r := w.(lastMessage := Some(now), trace := w.trace + Dispatch.DispatchTrace(w.handlers, msg));
    assert r.trace[|w.trace|..] == Dispatch.DispatchTrace(w.handlers, msg);
    r
  }

  /**
   * The socket's `onmessage` for one frame, processed at clock reading
   * `now`. A text frame's data has no `text()` method, so the callback
   * throws before parsing; a binary frame's text is decoded and a truthy
   * result dispatched.
   */
  function OnFrame(w: WebSocketHandler, frame: Frame, now: nat, decode: string -> Result<JsonValue, string>)
    : (r: WebSocketHandler)
    ensures |w.trace| <= |r.trace| && r.trace[..|w.trace|] == w.trace
    ensures frame.TextFrame? ==> r == w.(trace := w.trace + [FrameUnreadable])
    ensures frame.BinaryFrame? && decode(frame.text).Failure? ==> r.lastMessage == w.lastMessage
    ensures frame.BinaryFrame? && decode(frame.text).Failure? ==>
      forall o | o in r.trace[|w.trace|..] :: o.EventHandlerCalled? && o.event == Error
    ensures frame.BinaryFrame? && decode(frame.text) == Success(Falsy) ==> r == w
    ensures frame.BinaryFrame? && decode(frame.text).Success? && decode(frame.text).value.Truthy? ==>
      r == HandleMessage(w, decode(frame.text).value.enumerable, now)
    ensures frame.BinaryFrame? && decode(frame.text).Success? && decode(frame.text).value.Truthy? ==>
      r.lastMessage == Some(now) && r.trace == w.trace + Dispatch.DispatchTrace(w.handlers, decode(frame.text).value.enumerable)
    ensures r.handlers == w.handlers && r.metaHandlers == w.metaHandlers
    ensures r.connection == w.connection && r.endpoint == w.endpoint && r.nextSocket == w.nextSocket
  {
    match frame
    case TextFrame(_) =>
      var r := w.(trace := w.trace + [FrameUnreadable]);
      assert r.trace[|w.trace|..] == [FrameUnreadable];
      r
    case BinaryFrame(text) =>
      var (w', res) := ParseMsg(w, text, decode);
      match res
      case Some(Truthy(msg)) => HandleMessage(w', msg, now)
      case _ => w'
  }
}
