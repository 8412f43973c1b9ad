/**
 * The observable output of the wrapper: an append-only trace of handler
 * invocations, console diagnostics and commands issued to the transport.
 */
module Trace {
  import opened Messages

  /** `console.log` writes at Info level, `console.warn` at Warning level. */
  datatype Level = Info | Warning

  /**
   * The two diagnostics the wrapper emits: `Connecting to <endpoint>` and
   * `No message handler found for message type <tag>`.
   */
  datatype Note = ConnectingTo(endpoint: string) | NoHandlerFor(tag: string)

  datatype Output =
    | MessageHandlerCalled(tag: string, callback: Callback, payload: Value)
    /**
     * The inherited `toLocaleString` ran `this.toString()` on the message
     * handler object, calling the handler registered under `toString` with
     * no argument.
     */
    | ToStringHandlerCalled(callback: Callback)
    | EventHandlerCalled(event: EventTag, callback: Callback, arg: EventPayload)
    | Console(level: Level, note: Note)
    | SocketOpened(socket: nat, url: string)
    | SocketCloseRequested(socket: nat)
    /** `new WebSocket(url)` threw a SyntaxError, which reaches the caller of `connect`. */
    | UrlRejected(url: string)
    /**
     * Calling what `handlers[tag]` read threw a TypeError: the rest of the
     * `for ... in` loop is skipped and the frame's promise rejects.
     */
    | DispatchThrew(tag: string)
    /**
     * A text frame: its data is a string, which has no `text()` method, so
     * the message callback's promise rejects before the frame is parsed.
     */
    | FrameUnreadable
}
