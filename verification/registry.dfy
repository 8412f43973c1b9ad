/**
 * A handler registry as the own properties of a plain object: each tag has
 * at most one own property, whose value is a handler or `undefined`. Both
 * the message handlers and the lifecycle handlers of the wrapper are
 * registries.
 */
module Registry {
  import opened Wrappers

  /** The handler held by the own property `key`; none when the property is missing or `undefined`. */
  function Lookup<K, H>(registry: map<K, Option<H>>, key: K): (h: Option<H>)
    ensures h.Some? <==> key in registry && registry[key].Some?
    ensures h.Some? ==> registry[key] == h
  {
    if key in registry then registry[key] else None
  }

  /**
   * `registry[key] = handler`: the own property `key` is created or
   * overwritten, also when `handler` is `undefined`.
   */
  function Assign<K(!new), H>(registry: map<K, Option<H>>, key: K, handler: Option<H>): (r: map<K, Option<H>>)
    ensures r.Keys == registry.Keys + {key}
    ensures Lookup(r, key) == handler
    ensures forall k | k != key :: Lookup(r, k) == Lookup(registry, k)
  {
    registry[key := handler]
  }

  /** Last write wins: a second assignment to a key erases all trace of the first. */
  lemma AssignReplaces<K(!new), H>(registry: map<K, Option<H>>, key: K, first: Option<H>, second: Option<H>)
    ensures Assign(Assign(registry, key, first), key, second) == Assign(registry, key, second)
  {
  }

  /** Assignments to different keys do not interfere, so their order is irrelevant. */
  lemma AssignCommutes<K(!new), H>(registry: map<K, Option<H>>, k1: K, h1: Option<H>, k2: K, h2: Option<H>)
    requires k1 != k2
    ensures Assign(Assign(registry, k1, h1), k2, h2) == Assign(Assign(registry, k2, h2), k1, h1)
  {
  }
}
