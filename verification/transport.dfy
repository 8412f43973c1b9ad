/**
 * The browser socket the wrapper owns, reduced to its identity, its URL and
 * its ready state.
 */
module Transport {

  datatype ReadyState = Connecting | Open | Closing | Closed

  /** One socket object; `id` tells sockets created by successive connects apart. */
  datatype Socket = Socket(id: nat, url: string, ready: ReadyState)

  /**
   * A frame as the message event carries it: a text frame's data is a
   * string; a binary frame's data is a `Blob`, whose `text()` yields the
   * payload decoded as UTF-8, given here as `text`.
   */
  datatype Frame = TextFrame(data: string) | BinaryFrame(text: string)

  /** `close()`: a socket that is connecting or open starts closing; otherwise nothing happens. */
  function RequestClose(r: ReadyState): (r': ReadyState)
    ensures r' != Connecting && r' != Open
    ensures r == Closing || r == Closed ==> r' == r
  {
    if r == Connecting || r == Open then Closing else r
  }

  /** The open event only ever takes a connecting socket to open. */
  function AfterOpen(r: ReadyState): (r': ReadyState)
    ensures r' == Open <==> r == Connecting || r == Open
    ensures r != Connecting ==> r' == r
  {
    if r == Connecting then Open else r
  }
}
