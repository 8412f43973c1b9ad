/**
 * The shapes exchanged with the server and raised by the transport:
 * decoded server messages (a JSON object keyed by variant tag), lifecycle
 * events, and the identities of the callbacks registered for them.
 */
module Messages {

  /** The one variant tag the server declares for its messages. */
  const SearchResults: string := "SearchResults"

  /**
   * A payload carried under a message tag. Handlers receive it unchanged,
   * so only its identity matters; `TextList` is the shape of the declared
   * `SearchResults` variant, `OtherJson` stands for any other JSON value.
   */
  datatype Value = Text(s: string) | TextList(items: seq<string>) | OtherJson(raw: string)

  /** One enumerable property of a decoded object: `key: value`. */
  datatype Field = Field(key: string, value: Value)

  /** A JSON object never has two properties with the same name. */
  predicate DistinctKeys(fields: seq<Field>) {
    forall i, j :: 0 <= i < j < |fields| ==> fields[i].key != fields[j].key
  }

  /** The enumerable properties of a decoded value, in `for ... in` order. */
  type JsonObject = fields: seq<Field> | DistinctKeys(fields)

  /** The tags present in a decoded object. */
  function Keys(fields: seq<Field>): (ks: set<string>)
    ensures forall i | 0 <= i < |fields| :: fields[i].key in ks
    ensures forall k | k in ks :: exists i :: 0 <= i < |fields| && fields[i].key == k
  {
    set f | f in fields :: f.key
  }

  /**
   * What `JSON.parse` can hand back, as far as the wrapper can tell:
   * a falsy value (`null`, `false`, `0`, `""`), which the frame handler
   * drops, or a truthy one, which it dispatches by enumerating its
   * properties (none for `true` or a non-zero number).
   */
  datatype JsonValue = Falsy | Truthy(enumerable: JsonObject)

  /** The lifecycle tags of `WSEvent`. */
  datatype EventTag = Connect | Disconnect | Error

  /** What a lifecycle handler is called with. */
  datatype EventPayload =
    | NoPayload
    | CloseEvent(code: int, reason: string)
    | ErrorEvent(description: string)

  /** The identity of a handler function supplied by the caller. */
  datatype Callback = Callback(name: string)
}
