/**
 * A session: the wrapper driven by a sequence of inputs, each either a call
 * of one of its public methods or an occurrence delivered by the socket.
 * Invariants of the whole session follow from one-step facts.
 */
module Session {
  import opened Wrappers
  import opened Messages
  import opened Trace
  import opened Transport
  import opened Client
  import Dispatch
  import Registry

  datatype Input =
    | CallConnect(endpoint: string)
    | CallReconnect(force: bool)
    | CallDisconnect
    | CallRegister(tag: string, handler: Option<Callback>)
    | CallRegisterEvent(event: EventTag, handler: Option<Callback>)
    | SocketOpen(socket: nat)
    | SocketClose(socket: nat, code: int, reason: string)
    | SocketError(socket: nat, description: string)
    /** A frame arrived on `socket`; it is handled at clock reading `now`. */
    | SocketFrame(socket: nat, frame: Frame, now: nat)

  predicate IsRegistration(i: Input) {
    i.CallRegister? || i.CallRegisterEvent?
  }

  predicate NoRegistrations(inputs: seq<Input>) {
    forall j | 0 <= j < |inputs| :: !IsRegistration(inputs[j])
  }

  predicate NoConnects(inputs: seq<Input>) {
    forall j | 0 <= j < |inputs| :: !inputs[j].CallConnect?
  }

  predicate NoFrames(inputs: seq<Input>) {
    forall j | 0 <= j < |inputs| :: !inputs[j].SocketFrame?
  }

  /**
   * Every message-handler call in `out` went to the handler `handlers` holds
   * for its tag, and every call made through `toLocaleString` to the one it
   * holds for `toString`.
   */
  predicate CallsMatch(handlers: map<string, Option<Callback>>, out: seq<Output>) {
    && (forall o | o in out && o.MessageHandlerCalled? :: Registry.Lookup(handlers, o.tag) == Some(o.callback))
    && (forall o | o in out && o.ToStringHandlerCalled? :: Registry.Lookup(handlers, Dispatch.ToString) == Some(o.callback))
  }

  /** One input applied to the wrapper. */
  function Step(w: WebSocketHandler, i: Input, acceptsUrl: string -> bool, decode: string -> Result<JsonValue, string>)
    : (r: WebSocketHandler)
    ensures |w.trace| <= |r.trace| && r.trace[..|w.trace|] == w.trace
    ensures Valid(w) ==> Valid(r)
    ensures !IsRegistration(i) ==> r.handlers == w.handlers && r.metaHandlers == w.metaHandlers
    ensures !IsRegistration(i) ==> CallsMatch(w.handlers, r.trace[|w.trace|..])
    ensures !i.SocketFrame? ==> r.lastMessage == w.lastMessage
    ensures !i.CallConnect? ==> r.endpoint == w.endpoint
  {
    match i
    case CallConnect(e) => Client.Connect(w, e, acceptsUrl)
    case CallReconnect(force) => Reconnect(w, force, acceptsUrl)
    case CallDisconnect => Client.Disconnect(w)
    case CallRegister(t, h) => Register(w, t, h)
    case CallRegisterEvent(e, h) => RegisterEvent(w, e, h)
    case SocketOpen(s) => OnOpen(w, s)
    case SocketClose(s, code, reason) => OnClose(w, s, code, reason)
    case SocketError(s, d) => OnError(w, s, d)
    case SocketFrame(_, frame, now) =>
      FrameCallsMatch(w, frame, now, decode);
      OnFrame(w, frame, now, decode)
  }

  /** A frame calls only handlers the message registry holds. */
  lemma FrameCallsMatch(w: WebSocketHandler, frame: Frame, now: nat, decode: string -> Result<JsonValue, string>)
    ensures CallsMatch(w.handlers, OnFrame(w, frame, now, decode).trace[|w.trace|..])
  {
    var out := OnFrame(w, frame, now, decode).trace[|w.trace|..];
    if frame.BinaryFrame? && decode(frame.text).Success? && decode(frame.text).value.Truthy? {
      assert out == Dispatch.DispatchTrace(w.handlers, decode(frame.text).value.enumerable);
      forall o | o in out && o.ToStringHandlerCalled?
        ensures Registry.Lookup(w.handlers, Dispatch.ToString) == Some(o.callback)
      {
        assert Dispatch.ReadHandler(w.handlers, Dispatch.ToLocaleString) == Dispatch.Forwarded(o.callback);
      }
    }
  }

  /** The inputs applied in order. */
  function Run(w: WebSocketHandler, inputs: seq<Input>, acceptsUrl: string -> bool,
               decode: string -> Result<JsonValue, string>)
    : (r: WebSocketHandler)
    ensures |w.trace| <= |r.trace| && r.trace[..|w.trace|] == w.trace
    ensures Valid(w) ==> Valid(r)
    ensures NoRegistrations(inputs) ==> r.handlers == w.handlers && r.metaHandlers == w.metaHandlers
    ensures NoRegistrations(inputs) ==> CallsMatch(w.handlers, r.trace[|w.trace|..])
    ensures NoFrames(inputs) ==> r.lastMessage == w.lastMessage
    ensures NoConnects(inputs) ==> r.endpoint == w.endpoint
    decreases |inputs|
  {
    if inputs == [] then w
    else
      var w' := Step(w, inputs[0], acceptsUrl, decode);
      var r := Run(w', inputs[1..], acceptsUrl, decode);
      assert r.trace[|w.trace|..] == w'.trace[|w.trace|..] + r.trace[|w'.trace|..];
      r
  }
}
