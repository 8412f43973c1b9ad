/**
 * Properties of the wrapper that relate several calls, or that restate the
 * dispatch facts in terms of the wrapper's own state.
 */
module Properties {
  import opened Wrappers
  import opened Messages
  import opened Trace
  import opened Transport
  import opened Client
  import opened Session
  import Registry
  import Dispatch

  /** Re-registering a tag replaces the earlier handler completely. */
  lemma RegisterLastWins(w: WebSocketHandler, tag: string, first: Option<Callback>, second: Option<Callback>)
    ensures Register(Register(w, tag, first), tag, second) == Register(w, tag, second)
  {
    Registry.AssignReplaces(w.handlers, tag, first, second);
  }

  /** Registrations under different tags can be made in either order. */
  lemma RegisterDistinctTagsCommute(w: WebSocketHandler, t1: string, h1: Option<Callback>, t2: string, h2: Option<Callback>)
    requires t1 != t2
    ensures Register(Register(w, t1, h1), t2, h2) == Register(Register(w, t2, h2), t1, h1)
  {
    Registry.AssignCommutes(w.handlers, t1, h1, t2, h2);
  }

  /** Re-registering a lifecycle handler replaces the earlier one completely. */
  lemma RegisterEventLastWins(w: WebSocketHandler, event: EventTag, first: Option<Callback>, second: Option<Callback>)
    ensures RegisterEvent(RegisterEvent(w, event, first), event, second) == RegisterEvent(w, event, second)
  {
    Registry.AssignReplaces(w.metaHandlers, event, first, second);
  }

  /** The two registries are independent: message and lifecycle registrations commute. */
  lemma RegistriesIndependent(w: WebSocketHandler, tag: string, h: Option<Callback>, event: EventTag, e: Option<Callback>)
    ensures Register(RegisterEvent(w, event, e), tag, h) == RegisterEvent(Register(w, tag, h), event, e)
    ensures Register(w, tag, h).metaHandlers == w.metaHandlers
    ensures RegisterEvent(w, event, e).handlers == w.handlers
  {
  }

  /** The entries one decoded message appends to the trace. */
  function NewEntries(w: WebSocketHandler, msg: JsonObject, now: nat): seq<Output> {
    HandleMessage(w, msg, now).trace[|w.trace|..]
  }

  /**
   * What one decoded message does, tag by tag, as the loop is written.
   * Among the properties the loop reaches (those before the first whose
   * read throws): a tag with a registered handler calls it exactly once
   * with its value, a tag read as `undefined` warns exactly once, and a tag
   * naming a built-in method does neither. A reached `toLocaleString` tag
   * calls the handler registered under `toString` exactly once when the
   * inherited method forwards to it. No other handler is called, and a
   * TypeError, if any, is the last entry. `lastMessage` is set regardless.
   */
  lemma {:induction false} HandleMessagePerTag(w: WebSocketHandler, msg: JsonObject, now: nat)
    ensures HandleMessage(w, msg, now).lastMessage == Some(now)
    ensures forall f | f in Dispatch.Reached(w.handlers, msg) && Dispatch.ReadHandler(w.handlers, f.key).Registered? ::
      multiset(NewEntries(w, msg, now))[MessageHandlerCalled(f.key, Dispatch.ReadHandler(w.handlers, f.key).callback, f.value)] == 1
    ensures forall f | f in Dispatch.Reached(w.handlers, msg) && Dispatch.ReadHandler(w.handlers, f.key).Undefined? ::
      multiset(NewEntries(w, msg, now))[Dispatch.Warned(f.key)] == 1
    ensures forall t, c, p | MessageHandlerCalled(t, c, p) in NewEntries(w, msg, now) ::
      Dispatch.ReadHandler(w.handlers, t) == Dispatch.Registered(c) && Field(t, p) in Dispatch.Reached(w.handlers, msg)
    ensures forall c ::
      multiset(NewEntries(w, msg, now))[ToStringHandlerCalled(c)] ==
      if Dispatch.ReadHandler(w.handlers, Dispatch.ToLocaleString) == Dispatch.Forwarded(c) &&
         Dispatch.ToLocaleString in Keys(Dispatch.Reached(w.handlers, msg)) then 1 else 0
    ensures forall t | Dispatch.Warned(t) in NewEntries(w, msg, now) ::
      Dispatch.ReadHandler(w.handlers, t).Undefined? && t in Keys(Dispatch.Reached(w.handlers, msg))
    ensures forall t | DispatchThrew(t) in NewEntries(w, msg, now) ::
      NewEntries(w, msg, now)[|NewEntries(w, msg, now)| - 1] == DispatchThrew(t)
    ensures (forall f | f in msg :: !Dispatch.ReadHandler(w.handlers, f.key).Throws?) ==>
      Dispatch.Reached(w.handlers, msg) == msg
  {
    assert NewEntries(w, msg, now) == Dispatch.DispatchTrace(w.handlers, msg);
    Dispatch.ReachedTagsHandledOnce(w.handlers, msg);
    Dispatch.OnlyReachedTagsHandled(w.handlers, msg);
    Dispatch.ThrowIsLast(w.handlers, msg);
    forall c ensures multiset(NewEntries(w, msg, now))[ToStringHandlerCalled(c)] ==
      if Dispatch.ReadHandler(w.handlers, Dispatch.ToLocaleString) == Dispatch.Forwarded(c) &&
         Dispatch.ToLocaleString in Keys(Dispatch.Reached(w.handlers, msg)) then 1 else 0
    {
      Dispatch.ToStringCallCount(w.handlers, msg, c);
    }
  }

  /**
   * When no tag of the message throws on being read, enumerating the same
   * properties in another order calls and warns about the same things.
   */
  lemma {:induction false} HandleMessageOrderIrrelevant(w: WebSocketHandler, a: JsonObject, b: JsonObject, now: nat)
    requires multiset(a) == multiset(b)
    ensures (forall f | f in a :: !Dispatch.ReadHandler(w.handlers, f.key).Throws?) ==>
      multiset(HandleMessage(w, a, now).trace) == multiset(HandleMessage(w, b, now).trace)
    ensures HandleMessage(w, a, now).lastMessage == HandleMessage(w, b, now).lastMessage
  {
    Dispatch.DispatchOrderIrrelevant(w.handlers, a, b);
    var ra, rb := HandleMessage(w, a, now), HandleMessage(w, b, now);
    assert ra.trace == w.trace + ra.trace[|w.trace|..];
    assert rb.trace == w.trace + rb.trace[|w.trace|..];
  }

  /**
   * A message handler registered under `toString` is reached through the
   * inherited `toLocaleString`: a message whose only tag is
   * `toLocaleString` calls it with no argument, and after
   * `register("toString", undefined)` the same message throws.
   */
  lemma ToLocaleStringCallsToStringHandler(w: WebSocketHandler, c: Callback, v: Value, now: nat)
    requires Dispatch.ToLocaleString !in w.handlers
    ensures HandleMessage(Register(w, Dispatch.ToString, Some(c)), [Field(Dispatch.ToLocaleString, v)], now).trace ==
      w.trace + [ToStringHandlerCalled(c)]
    ensures HandleMessage(Register(w, Dispatch.ToString, None), [Field(Dispatch.ToLocaleString, v)], now).trace ==
      w.trace + [DispatchThrew(Dispatch.ToLocaleString)]
  {
    assert Dispatch.ReadHandler(Register(w, Dispatch.ToString, Some(c)).handlers, Dispatch.ToLocaleString) == Dispatch.Forwarded(c);
    assert Dispatch.ReadHandler(Register(w, Dispatch.ToString, None).handlers, Dispatch.ToLocaleString).Throws?;
  }

  /**
   * A frame that does not decode calls the Error handler once, if there is
   * one, and does nothing else: no message handler runs and `lastMessage`
   * keeps its value.
   */
  lemma UndecodableFrame(w: WebSocketHandler, text: string, now: nat, decode: string -> Result<JsonValue, string>)
    requires decode(text).Failure?
    ensures EventHandler(w, Error).Some? ==>
      OnFrame(w, BinaryFrame(text), now, decode) ==
      w.(trace := w.trace + [EventHandlerCalled(Error, EventHandler(w, Error).value, ErrorEvent(decode(text).error))])
    ensures EventHandler(w, Error).None? ==> OnFrame(w, BinaryFrame(text), now, decode) == w
  {
  }

  /** A `reconnect` right after a successful `connect(e)` is never a no-op and reconnects to `e`. */
  lemma ReconnectRightAfterConnect(w: WebSocketHandler, e: string, force: bool, acceptsUrl: string -> bool)
    requires acceptsUrl(e)
    ensures Reconnect(Client.Connect(w, e, acceptsUrl), force, acceptsUrl) != Client.Connect(w, e, acceptsUrl)
    ensures Reconnect(Client.Connect(w, e, acceptsUrl), force, acceptsUrl).connection.url == e
    ensures Reconnect(Client.Connect(w, e, acceptsUrl), force, acceptsUrl).connection.ready == Connecting
  {
  }

  /**
   * After `connect(e)`, any later `reconnect` — whatever inputs other than
   * `connect` came in between — targets `e`, even when `e` was rejected.
   */
  lemma LaterReconnectTargetsLatestEndpoint(w: WebSocketHandler, e: string, inputs: seq<Input>, force: bool,
                                            acceptsUrl: string -> bool, decode: string -> Result<JsonValue, string>)
    requires NoConnects(inputs)
    ensures Run(Client.Connect(w, e, acceptsUrl), inputs, acceptsUrl, decode).endpoint == e
    ensures var s := Run(Client.Connect(w, e, acceptsUrl), inputs, acceptsUrl, decode);
      Reconnect(s, force, acceptsUrl) != s ==> Reconnect(s, force, acceptsUrl).trace[|s.trace| + 1] == Console(Info, ConnectingTo(e))
    ensures var s := Run(Client.Connect(w, e, acceptsUrl), inputs, acceptsUrl, decode);
      Reconnect(s, force, acceptsUrl) != s && acceptsUrl(e) ==> Reconnect(s, force, acceptsUrl).connection.url == e
  {
  }

  /** Once open, `reconnect(true)` does nothing while `reconnect(false)` closes and reopens. */
  lemma ReconnectWhileOpen(w: WebSocketHandler, acceptsUrl: string -> bool)
    requires w.connection.ready == Open
    ensures Reconnect(w, true, acceptsUrl) == w
    ensures Reconnect(w, false, acceptsUrl).trace[|w.trace|] == SocketCloseRequested(w.connection.id)
    ensures acceptsUrl(w.endpoint) ==> Reconnect(w, false, acceptsUrl).connection.url == w.endpoint
    ensures acceptsUrl(w.endpoint) && Valid(w) ==> Reconnect(w, false, acceptsUrl).connection.id != w.connection.id
    ensures !acceptsUrl(w.endpoint) ==> Reconnect(w, false, acceptsUrl).connection.ready == Closing
  {
  }

  /**
   * Last write wins across a whole session: after `register(tag, h)`, as
   * long as nothing is registered again, every call made for `tag` goes to
   * `h` and never to a handler it replaced.
   */
  lemma {:induction false} RegisteredHandlerIsTheOneCalled(w: WebSocketHandler, tag: string, h: Callback, inputs: seq<Input>,
                                        acceptsUrl: string -> bool, decode: string -> Result<JsonValue, string>)
    requires NoRegistrations(inputs)
    ensures forall c, p | MessageHandlerCalled(tag, c, p) in Run(Register(w, tag, Some(h)), inputs, acceptsUrl, decode).trace[|w.trace|..] ::
      c == h
  {
    var w' := Register(w, tag, Some(h));
    var r := Run(w', inputs, acceptsUrl, decode);
    forall c, p | MessageHandlerCalled(tag, c, p) in r.trace[|w.trace|..] ensures c == h {
      assert MessageHandlerCalled(tag, c, p) in r.trace[|w'.trace|..];
    }
  }

  /** `lastMessage` stays unset from construction until a frame has been handled. */
  lemma LastMessageUnsetWithoutFrames(endpoint: string, inputs: seq<Input>, acceptsUrl: string -> bool,
                                      decode: string -> Result<JsonValue, string>)
    requires NoFrames(inputs)
    ensures Create(endpoint, acceptsUrl).Some? ==> Run(Create(endpoint, acceptsUrl).value, inputs, acceptsUrl, decode).lastMessage == None
  {
  }

  /**
   * The end-to-end example: a wrapper on endpoint `e` with a handler for
   * `SearchResults` receives `{"SearchResults": ["x", "y"]}`; the handler is
   * called once with `["x", "y"]` and `lastMessage` is set.
   */
  lemma SearchResultsExample(e: string, h: Callback, text: string, now: nat, acceptsUrl: string -> bool,
                             decode: string -> Result<JsonValue, string>)
    requires acceptsUrl(e)
    requires decode(text) == Success(Truthy([Field(SearchResults, TextList(["x", "y"]))]))
    ensures var w := Create(e, acceptsUrl).value;
      OnFrame(Register(w, SearchResults, Some(h)), BinaryFrame(text), now, decode).trace ==
      w.trace + [MessageHandlerCalled(SearchResults, h, TextList(["x", "y"]))]
    ensures OnFrame(Register(Create(e, acceptsUrl).value, SearchResults, Some(h)), BinaryFrame(text), now, decode).lastMessage == Some(now)
  {
    var w := Register(Create(e, acceptsUrl).value, SearchResults, Some(h));
    assert Dispatch.ReadHandler(w.handlers, SearchResults) == Dispatch.Registered(h);
  }
}
