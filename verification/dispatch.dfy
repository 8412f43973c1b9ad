/**
 * The body of `handleMessage`: every enumerable property of the decoded
 * message is looked up among the message handlers; a registered handler is
 * called with the property's value, a tag without one is reported with a
 * warning.
 *
 * The handlers live in a plain object literal, so a tag that is not an own
 * property is looked up on `Object.prototype`. `DispatchTrace` models the
 * loop as written, including what those inherited members do;
 * `OwnDispatchTrace` models the loop as evidently intended, consulting own
 * properties only. The two agree on every message whose tags are not read
 * off the prototype, and the per-tag facts about the loop as written are
 * derived from the intended one.
 */
module Dispatch {
  import opened Wrappers
  import opened Messages
  import opened Trace
  import Registry

  /** Own properties of the handler object: a handler, or `undefined`. */
  type Handlers = map<string, Option<Callback>>

  /** The members `Object.prototype` provides, found by reading a missing property of `{}`. */
  const ObjectPrototypeNames: set<string> := {
    "constructor", "__defineGetter__", "__defineSetter__", "hasOwnProperty",
    "__lookupGetter__", "__lookupSetter__", "isPrototypeOf", "propertyIsEnumerable",
    "toString", "valueOf", "__proto__", "toLocaleString"}

  /**
   * The inherited members whose call with one argument always throws a
   * TypeError: `__proto__` reads `Object.prototype`, which is not a
   * function, and the two accessor definers reject a missing second
   * argument, which is not a function.
   */
  const ThrowingNames: set<string> := {"__proto__", "__defineGetter__", "__defineSetter__"}

  /**
   * The one inherited member that reads the handler object back: it runs
   * `Invoke(this, "toString")`, so it depends on an own `toString` entry.
   */
  const ToLocaleString: string := "toLocaleString"
  const ToString: string := "toString"

  /** What `handlers[key]` evaluates to, as far as the loop is concerned. */
  datatype Read =
    | Registered(callback: Callback)
    /** `undefined`: falsy, so the loop warns, and `?.()` calls nothing. */
    | Undefined
    /** A built-in method: truthy, so no warning, and calling it has no effect on the wrapper. */
    | BuiltIn
    /**
     * The inherited `toLocaleString` while `toString` is an own handler:
     * truthy, so no warning, and calling it calls that handler.
     */
    | Forwarded(callback: Callback)
    /** Truthy, but calling it throws. */
    | Throws

  /**
   * Property read on a plain object, followed by the call the loop makes of
   * what it read: the own property first, then `Object.prototype`. The
   * inherited `toLocaleString` calls the own `toString` entry when there is
   * one, which throws when that entry is `undefined`.
   */
  function ReadHandler(handlers: Handlers, key: string): (r: Read)
    ensures r.Registered? ==> Registry.Lookup(handlers, key) == Some(r.callback)
    ensures Registry.Lookup(handlers, key).Some? ==> r == Registered(Registry.Lookup(handlers, key).value)
    ensures key in handlers ==> r.Registered? || r.Undefined?
    ensures r.Forwarded? <==> key !in handlers && key == ToLocaleString && Registry.Lookup(handlers, ToString).Some?
    ensures r.Forwarded? ==> Registry.Lookup(handlers, ToString) == Some(r.callback)
    ensures key !in handlers ==>
      (r.Throws? <==> key in ThrowingNames || (key == ToLocaleString && ToString in handlers && handlers[ToString].None?))
    ensures key !in handlers ==>
      (r.BuiltIn? <==> key in ObjectPrototypeNames - ThrowingNames && !(key == ToLocaleString && ToString in handlers))
  {
    if key in handlers then
      match handlers[key]
      case Some(c) => Registered(c)
      case None => Undefined
    else if key in ThrowingNames then Throws
    else if key == ToLocaleString && ToString in handlers then
      match handlers[ToString]
      case Some(c) => Forwarded(c)
      case None => Throws
    else if key in ObjectPrototypeNames then BuiltIn
    else Undefined
  }

  /** A read that found a callable inherited member whose call does not throw. */
  predicate Inherited(r: Read) {
    r.BuiltIn? || r.Forwarded?
  }

  /** The `console.warn` entry naming a tag that has no handler. */
  function Warned(key: string): Output {
    Console(Warning, NoHandlerFor(key))
  }

  /**
   * The trace of one pass of the `for ... in` loop over `fields`, as written:
   * a call for a registered tag, a warning for an `undefined` one, nothing for
   * a built-in method, a call of the own `toString` handler for a forwarded
   * `toLocaleString`, and a TypeError that ends the loop for a throwing one.
   */
  function DispatchTrace(handlers: Handlers, fields: seq<Field>): (out: seq<Output>)
    ensures |out| <= |fields|
    ensures forall i | 0 <= i < |out| - 1 :: !out[i].DispatchThrew?
    ensures forall t, c, p | MessageHandlerCalled(t, c, p) in out ::
      ReadHandler(handlers, t) == Registered(c) && Field(t, p) in fields
    ensures forall t | Warned(t) in out :: ReadHandler(handlers, t).Undefined? && t in Keys(fields)
    ensures forall t | DispatchThrew(t) in out :: ReadHandler(handlers, t).Throws? && t in Keys(fields)
    ensures forall c | ToStringHandlerCalled(c) in out ::
      ReadHandler(handlers, ToLocaleString) == Forwarded(c) && ToLocaleString in Keys(fields)
    ensures forall o | o in out ::
      || o.MessageHandlerCalled? || o.ToStringHandlerCalled? || o.DispatchThrew?
      || (o.Console? && o.note.NoHandlerFor? && o == Warned(o.note.tag))
  {
    if fields == [] then []
    else
      var f := fields[0];
      match ReadHandler(handlers, f.key)
      case Registered(c) => [MessageHandlerCalled(f.key, c, f.value)] + DispatchTrace(handlers, fields[1..])
      case Undefined => [Warned(f.key)] + DispatchTrace(handlers, fields[1..])
      case BuiltIn => DispatchTrace(handlers, fields[1..])
      case Forwarded(c) => [ToStringHandlerCalled(c)] + DispatchTrace(handlers, fields[1..])
      case Throws => [DispatchThrew(f.key)]
  }

  /** The properties the loop gets to: those before the first one whose read throws. */
  function Reached(handlers: Handlers, fields: seq<Field>): (r: seq<Field>)
    ensures |r| <= |fields| && r == fields[..|r|]
    ensures forall i | 0 <= i < |r| :: !ReadHandler(handlers, r[i].key).Throws?
    ensures |r| < |fields| ==> ReadHandler(handlers, fields[|r|].key).Throws?
  {
    if fields == [] || ReadHandler(handlers, fields[0].key).Throws? then []
    else [fields[0]] + Reached(handlers, fields[1..])
  }

  /** The entry, if any, that ends the loop. */
  function Stop(handlers: Handlers, fields: seq<Field>): seq<Output> {
    var n := |Reached(handlers, fields)|;
    if n < |fields| then [DispatchThrew(fields[n].key)] else []
  }

  /** The trace without the calls a forwarded `toLocaleString` makes of the own `toString` handler. */
  function WithoutToStringCalls(out: seq<Output>): (r: seq<Output>)
    ensures forall o | o in r :: !o.ToStringHandlerCalled?
    ensures (forall i | 0 <= i < |out| :: !out[i].ToStringHandlerCalled?) ==> r == out
  {
    if out == [] then []
    else if out[0].ToStringHandlerCalled? then WithoutToStringCalls(out[1..])
    else [out[0]] + WithoutToStringCalls(out[1..])
  }

  /** Dropping the forwarded calls keeps every other entry as often as it occurred. */
  lemma {:induction false} WithoutToStringCallsCount(out: seq<Output>, o: Output)
    requires !o.ToStringHandlerCalled?
    ensures multiset(WithoutToStringCalls(out))[o] == multiset(out)[o]
  {
    if out != [] {
      WithoutToStringCallsCount(out[1..], o);
      assert out == [out[0]] + out[1..];
    }
  }

  /** The properties whose read is not a non-throwing inherited member, in order. */
  function Visible(handlers: Handlers, fields: seq<Field>): (r: seq<Field>)
    ensures forall f | f in r :: f in fields && !Inherited(ReadHandler(handlers, f.key))
    ensures forall f | f in fields && !Inherited(ReadHandler(handlers, f.key)) :: f in r
  {
    if fields == [] then []
    else if Inherited(ReadHandler(handlers, fields[0].key)) then Visible(handlers, fields[1..])
    else [fields[0]] + Visible(handlers, fields[1..])
  }

  /** Keeping or dropping properties never creates a duplicate tag. */
  lemma {:induction false} VisibleDistinct(handlers: Handlers, fields: seq<Field>)
    requires DistinctKeys(fields)
    ensures DistinctKeys(Visible(handlers, fields))
  {
    if fields != [] {
      var rest := fields[1..];
      assert DistinctKeys(rest);
      VisibleDistinct(handlers, rest);
      var v := Visible(handlers, rest);
      forall f | f in v ensures f.key != fields[0].key {
        var j :| 0 <= j < |rest| && rest[j] == f;
        assert fields[j + 1] == f;
      }
    }
  }

  /** A prefix of an object's properties has distinct tags too. */
  lemma ReachedDistinct(handlers: Handlers, fields: seq<Field>)
    requires DistinctKeys(fields)
    ensures DistinctKeys(Reached(handlers, fields))
  {
    var r := Reached(handlers, fields);
    forall i, j | 0 <= i < j < |r| ensures r[i].key != r[j].key {
      assert r[i] == fields[i] && r[j] == fields[j];
    }
  }

  /** How often a property survives into `Visible`. */
  lemma {:induction false} VisibleCount(handlers: Handlers, fields: seq<Field>, f: Field)
    ensures multiset(Visible(handlers, fields))[f] ==
      if Inherited(ReadHandler(handlers, f.key)) then 0 else multiset(fields)[f]
  {
    if fields != [] {
      VisibleCount(handlers, fields[1..], f);
      assert fields == [fields[0]] + fields[1..];
    }
  }

  /** Permuting the properties permutes the visible ones. */
  lemma VisiblePermutation(handlers: Handlers, a: seq<Field>, b: seq<Field>)
    requires multiset(a) == multiset(b)
    ensures multiset(Visible(handlers, a)) == multiset(Visible(handlers, b))
  {
    forall f ensures multiset(Visible(handlers, a))[f] == multiset(Visible(handlers, b))[f] {
      VisibleCount(handlers, a, f);
      VisibleCount(handlers, b, f);
    }
  }

  // ---------------------------------------------------------------------
  // The loop as evidently intended: own properties only.
  // ---------------------------------------------------------------------

  /** What one property contributes when only own properties count as handlers. */
  function OwnEntry(handlers: Handlers, f: Field): (o: Output)
    ensures o.MessageHandlerCalled? <==> Registry.Lookup(handlers, f.key).Some?
    ensures o.MessageHandlerCalled? ==> o == MessageHandlerCalled(f.key, Registry.Lookup(handlers, f.key).value, f.value)
    ensures !o.MessageHandlerCalled? ==> o == Warned(f.key)
  {
    match Registry.Lookup(handlers, f.key)
    case Some(c) => MessageHandlerCalled(f.key, c, f.value)
    case None => Warned(f.key)
  }

  /** The loop with an own-property lookup: one entry per property, a call or a warning. */
  function OwnDispatchTrace(handlers: Handlers, fields: seq<Field>): (out: seq<Output>)
    ensures |out| == |fields|
    ensures forall i | 0 <= i < |fields| :: out[i] == OwnEntry(handlers, fields[i])
  {
    if fields == [] then []
    else [OwnEntry(handlers, fields[0])] + OwnDispatchTrace(handlers, fields[1..])
  }

  /** Entries carry their tag, so properties with different tags never produce the same entry. */
  lemma OwnEntryDeterminesKey(handlers: Handlers, f: Field, g: Field)
    ensures OwnEntry(handlers, f) == OwnEntry(handlers, g) ==> f.key == g.key
  {
  }

  /** Dispatching a concatenation dispatches each part in turn. */
  lemma {:induction false} OwnDispatchAppend(handlers: Handlers, a: seq<Field>, b: seq<Field>)
    ensures OwnDispatchTrace(handlers, a + b) == OwnDispatchTrace(handlers, a) + OwnDispatchTrace(handlers, b)
  {
    var l := OwnDispatchTrace(handlers, a + b);
    var r := OwnDispatchTrace(handlers, a) + OwnDispatchTrace(handlers, b);
    assert |l| == |r|;
    forall i | 0 <= i < |l| ensures l[i] == r[i] {
      if i < |a| {
        assert (a + b)[i] == a[i];
      } else {
        assert (a + b)[i] == b[i - |a|];
      }
    }
  }

  /** With distinct tags, each property's entry occurs exactly once in the trace. */
  lemma {:induction false} OwnEntryOccursOnce(handlers: Handlers, fields: seq<Field>)
    requires DistinctKeys(fields)
    ensures forall i | 0 <= i < |fields| :: multiset(OwnDispatchTrace(handlers, fields))[OwnEntry(handlers, fields[i])] == 1
  {
    if fields != [] {
      var head, rest := fields[0], fields[1..];
      assert DistinctKeys(rest);
      OwnEntryOccursOnce(handlers, rest);
      var tail := OwnDispatchTrace(handlers, rest);
      var out := OwnDispatchTrace(handlers, fields);
      assert out == [OwnEntry(handlers, head)] + tail;
      assert multiset(out) == multiset{OwnEntry(handlers, head)} + multiset(tail);
      assert OwnEntry(handlers, head) !in tail by {
        forall j | 0 <= j < |tail| ensures tail[j] != OwnEntry(handlers, head) {
          assert rest[j] == fields[j + 1];
          assert tail[j] == OwnEntry(handlers, rest[j]);
          OwnEntryDeterminesKey(handlers, rest[j], head);
        }
      }
      forall i | 0 <= i < |fields|
        ensures multiset(out)[OwnEntry(handlers, fields[i])] == 1
      {
        if i > 0 {
          assert fields[i] == rest[i - 1];
          OwnEntryDeterminesKey(handlers, fields[i], head);
        }
      }
    }
  }

  /** Each property's single entry: a call when its tag is registered, a warning otherwise. */
  lemma {:induction false} OwnEachTagHandledOnce(handlers: Handlers, fields: seq<Field>)
    requires DistinctKeys(fields)
    ensures forall f | f in fields && Registry.Lookup(handlers, f.key).Some? ::
      multiset(OwnDispatchTrace(handlers, fields))[MessageHandlerCalled(f.key, Registry.Lookup(handlers, f.key).value, f.value)] == 1
    ensures forall f | f in fields && Registry.Lookup(handlers, f.key).None? ::
      multiset(OwnDispatchTrace(handlers, fields))[Warned(f.key)] == 1
  {
    var out := OwnDispatchTrace(handlers, fields);
    OwnEntryOccursOnce(handlers, fields);
    forall f | f in fields
      ensures multiset(out)[OwnEntry(handlers, f)] == 1
    {
      var i :| 0 <= i < |fields| && fields[i] == f;
    }
  }

  /** Nothing but those entries appears: no call for a tag the message lacks or that has no handler. */
  lemma {:induction false} OwnOnlyMessageTagsHandled(handlers: Handlers, fields: seq<Field>)
    ensures forall t, c, p | MessageHandlerCalled(t, c, p) in OwnDispatchTrace(handlers, fields) ::
      Registry.Lookup(handlers, t) == Some(c) && Field(t, p) in fields
    ensures forall t | Warned(t) in OwnDispatchTrace(handlers, fields) ::
      Registry.Lookup(handlers, t).None? && t in Keys(fields)
    ensures forall o | o in OwnDispatchTrace(handlers, fields) ::
      o.MessageHandlerCalled? || (o.Console? && o.note.NoHandlerFor? && o == Warned(o.note.tag))
  {
    var out := OwnDispatchTrace(handlers, fields);
    forall t, c, p | MessageHandlerCalled(t, c, p) in out
      ensures Registry.Lookup(handlers, t) == Some(c) && Field(t, p) in fields
    {
      var i :| 0 <= i < |out| && out[i] == MessageHandlerCalled(t, c, p);
      assert fields[i] == Field(t, p);
    }
    forall t | Warned(t) in out
      ensures Registry.Lookup(handlers, t).None? && t in Keys(fields)
    {
      var i :| 0 <= i < |out| && out[i] == Warned(t);
    }
    forall o | o in out
      ensures o.MessageHandlerCalled? || (o.Console? && o.note.NoHandlerFor? && o == Warned(o.note.tag))
    {
      var i :| 0 <= i < |out| && out[i] == o;
    }
  }

  /**
   * The order in which the properties are enumerated does not change what
   * is called or warned about, only the order of the trace.
   */
  lemma {:induction false} OwnDispatchOrderIrrelevant(handlers: Handlers, a: seq<Field>, b: seq<Field>)
    requires multiset(a) == multiset(b)
    ensures multiset(OwnDispatchTrace(handlers, a)) == multiset(OwnDispatchTrace(handlers, b))
    decreases |a|
  {
    if a == [] {
      assert |b| == |multiset(b)| == 0;
    } else {
      var x := a[0];
      assert x in multiset(b);
      var k :| 0 <= k < |b| && b[k] == x;
      var b' := b[..k] + b[k + 1..];
      assert b == b[..k] + [x] + b[k + 1..];
      assert a == [x] + a[1..];
      assert multiset(b) == multiset(b[..k]) + multiset{x} + multiset(b[k + 1..]);
      assert multiset(a) == multiset{x} + multiset(a[1..]);
      assert multiset(b') == multiset(b[..k]) + multiset(b[k + 1..]);
      assert multiset(a[1..]) == multiset(a) - multiset{x};
      assert multiset(b') == multiset(b) - multiset{x};
      OwnDispatchOrderIrrelevant(handlers, a[1..], b');
      OwnDispatchAppend(handlers, b[..k] + [x], b[k + 1..]);
      OwnDispatchAppend(handlers, b[..k], [x]);
      OwnDispatchAppend(handlers, b[..k], b[k + 1..]);
      OwnDispatchAppend(handlers, [x], a[1..]);
    }
  }

  // ---------------------------------------------------------------------
  // The loop as written, related to the intended one.
  // ---------------------------------------------------------------------

  /**
   * The loop as written, leaving out the calls a forwarded `toLocaleString`
   * makes, is the intended loop run over the properties it reaches, minus
   * those read as non-throwing inherited members, followed by the TypeError
   * that stopped it, if any.
   */
  lemma {:induction false} DispatchDecomposes(handlers: Handlers, fields: seq<Field>)
    ensures WithoutToStringCalls(DispatchTrace(handlers, fields)) ==
      OwnDispatchTrace(handlers, Visible(handlers, Reached(handlers, fields))) + Stop(handlers, fields)
    decreases |fields|, 1
  {
    if fields == [] {
      assert Reached(handlers, fields) == [] && Stop(handlers, fields) == [];
      assert Visible(handlers, []) == [] && OwnDispatchTrace(handlers, []) == [];
    } else if ReadHandler(handlers, fields[0].key).Throws? {
      var f := fields[0];
      assert Reached(handlers, fields) == [];
      assert Visible(handlers, []) == [] && OwnDispatchTrace(handlers, []) == [];
      KeepEntry(DispatchThrew(f.key), []);
      assert [DispatchThrew(f.key)] + [] == [DispatchThrew(f.key)];
    } else if Inherited(ReadHandler(handlers, fields[0].key)) {
      DecomposesInherited(handlers, fields);
    } else {
      DecomposesShown(handlers, fields);
    }
  }

  /** `DispatchDecomposes` when the first property reads as a non-throwing inherited member. */
  lemma {:induction false} DecomposesInherited(handlers: Handlers, fields: seq<Field>)
    requires fields != [] && Inherited(ReadHandler(handlers, fields[0].key))
    ensures WithoutToStringCalls(DispatchTrace(handlers, fields)) ==
      OwnDispatchTrace(handlers, Visible(handlers, Reached(handlers, fields))) + Stop(handlers, fields)
    decreases |fields|, 0
  {
    DispatchDecomposes(handlers, fields[1..]);
    InheritedStep(handlers, fields);
  }

  /** `DispatchDecomposes` when the first property reads as a handler or as `undefined`. */
  lemma {:induction false} DecomposesShown(handlers: Handlers, fields: seq<Field>)
    requires fields != []
    requires ReadHandler(handlers, fields[0].key).Registered? || ReadHandler(handlers, fields[0].key).Undefined?
    ensures WithoutToStringCalls(DispatchTrace(handlers, fields)) ==
      OwnDispatchTrace(handlers, Visible(handlers, Reached(handlers, fields))) + Stop(handlers, fields)
    decreases |fields|, 0
  {
    var rest := fields[1..];
    var e := OwnEntry(handlers, fields[0]);
    var own := OwnDispatchTrace(handlers, Visible(handlers, Reached(handlers, rest)));
    DispatchDecomposes(handlers, rest);
    ShownStep(handlers, fields);
    assert [e] + (own + Stop(handlers, rest)) == ([e] + own) + Stop(handlers, rest);
  }

  /** Induction step of `DispatchDecomposes` for a property read as a non-throwing inherited member. */
  lemma InheritedStep(handlers: Handlers, fields: seq<Field>)
    requires fields != [] && Inherited(ReadHandler(handlers, fields[0].key))
    ensures WithoutToStringCalls(DispatchTrace(handlers, fields)) == WithoutToStringCalls(DispatchTrace(handlers, fields[1..]))
    ensures Visible(handlers, Reached(handlers, fields)) == Visible(handlers, Reached(handlers, fields[1..]))
    ensures Stop(handlers, fields) == Stop(handlers, fields[1..])
  {
    ReachedStep(handlers, fields);
    var r := Reached(handlers, fields[1..]);
    assert ([fields[0]] + r)[1..] == r;
    var read := ReadHandler(handlers, fields[0].key);
    if read.Forwarded? {
      DropToStringCall(ToStringHandlerCalled(read.callback), DispatchTrace(handlers, fields[1..]));
    }
  }

  /** Induction step of `DispatchDecomposes` for a property read as a handler or as `undefined`. */
  lemma ShownStep(handlers: Handlers, fields: seq<Field>)
    requires fields != []
    requires ReadHandler(handlers, fields[0].key).Registered? || ReadHandler(handlers, fields[0].key).Undefined?
    ensures WithoutToStringCalls(DispatchTrace(handlers, fields)) ==
      [OwnEntry(handlers, fields[0])] + WithoutToStringCalls(DispatchTrace(handlers, fields[1..]))
    ensures OwnDispatchTrace(handlers, Visible(handlers, Reached(handlers, fields))) ==
      [OwnEntry(handlers, fields[0])] + OwnDispatchTrace(handlers, Visible(handlers, Reached(handlers, fields[1..])))
    ensures Stop(handlers, fields) == Stop(handlers, fields[1..])
  {
    KeepEntry(OwnEntry(handlers, fields[0]), DispatchTrace(handlers, fields[1..]));
    ShownVisibleStep(handlers, fields);
  }

  /** A forwarded call at the head of a trace is dropped. */
  lemma DropToStringCall(o: Output, rest: seq<Output>)
    requires o.ToStringHandlerCalled?
    ensures WithoutToStringCalls([o] + rest) == WithoutToStringCalls(rest)
  {
    assert ([o] + rest)[1..] == rest;
  }

  /** Any other entry at the head of a trace is kept. */
  lemma KeepEntry(o: Output, rest: seq<Output>)
    requires !o.ToStringHandlerCalled?
    ensures WithoutToStringCalls([o] + rest) == [o] + WithoutToStringCalls(rest)
  {
    assert ([o] + rest)[1..] == rest;
  }

  /** The part of `ShownStep` about the reached and visible properties. */
  lemma ShownVisibleStep(handlers: Handlers, fields: seq<Field>)
    requires fields != []
    requires ReadHandler(handlers, fields[0].key).Registered? || ReadHandler(handlers, fields[0].key).Undefined?
    ensures OwnDispatchTrace(handlers, Visible(handlers, Reached(handlers, fields))) ==
      [OwnEntry(handlers, fields[0])] + OwnDispatchTrace(handlers, Visible(handlers, Reached(handlers, fields[1..])))
    ensures Stop(handlers, fields) == Stop(handlers, fields[1..])
  {
    var r := Reached(handlers, fields[1..]);
    ReachedStep(handlers, fields);
    VisibleStep(handlers, fields[0], r);
    var v := Visible(handlers, r);
    assert ([fields[0]] + v)[1..] == v;
  }

  /** A property whose read does not throw is reached, and the loop goes on with the rest. */
  lemma ReachedStep(handlers: Handlers, fields: seq<Field>)
    requires fields != [] && !ReadHandler(handlers, fields[0].key).Throws?
    ensures Reached(handlers, fields) == [fields[0]] + Reached(handlers, fields[1..])
    ensures Stop(handlers, fields) == Stop(handlers, fields[1..])
  {
    var r := Reached(handlers, fields[1..]);
    assert ([fields[0]] + r)[1..] == r;
  }

  /** A property not read as an inherited member stays visible. */
  lemma VisibleStep(handlers: Handlers, f: Field, rest: seq<Field>)
    requires !Inherited(ReadHandler(handlers, f.key))
    ensures Visible(handlers, [f] + rest) == [f] + Visible(handlers, rest)
  {
    assert ([f] + rest)[1..] == rest;
  }

  /** Where no tag is read off `Object.prototype`, the loop as written is the intended one. */
  lemma DispatchMatchesOwnOffPrototype(handlers: Handlers, fields: seq<Field>)
    requires forall i | 0 <= i < |fields| :: fields[i].key in handlers || fields[i].key !in ObjectPrototypeNames
    ensures DispatchTrace(handlers, fields) == OwnDispatchTrace(handlers, fields)
  {
    DispatchDecomposes(handlers, fields);
    VisibleAll(handlers, fields);
  }

  /**
   * Among the properties the loop reaches, a tag read as a handler is called
   * exactly once with its value and a tag read as `undefined` is warned about
   * exactly once.
   */
  lemma ReachedTagsHandledOnce(handlers: Handlers, fields: seq<Field>)
    requires DistinctKeys(fields)
    ensures forall f | f in Reached(handlers, fields) && ReadHandler(handlers, f.key).Registered? ::
      multiset(DispatchTrace(handlers, fields))[MessageHandlerCalled(f.key, ReadHandler(handlers, f.key).callback, f.value)] == 1
    ensures forall f | f in Reached(handlers, fields) && ReadHandler(handlers, f.key).Undefined? ::
      multiset(DispatchTrace(handlers, fields))[Warned(f.key)] == 1
  {
    forall f | f in Reached(handlers, fields) && ReadHandler(handlers, f.key).Registered?
      ensures multiset(DispatchTrace(handlers, fields))[MessageHandlerCalled(f.key, ReadHandler(handlers, f.key).callback, f.value)] == 1
    {
      ReachedEntryOnce(handlers, fields, f);
    }
    forall f | f in Reached(handlers, fields) && ReadHandler(handlers, f.key).Undefined?
      ensures multiset(DispatchTrace(handlers, fields))[Warned(f.key)] == 1
    {
      ReachedEntryOnce(handlers, fields, f);
    }
  }

  /** One reached property read as a handler or as `undefined` contributes its entry exactly once. */
  lemma ReachedEntryOnce(handlers: Handlers, fields: seq<Field>, f: Field)
    requires DistinctKeys(fields) && f in Reached(handlers, fields)
    requires ReadHandler(handlers, f.key).Registered? || ReadHandler(handlers, f.key).Undefined?
    ensures multiset(DispatchTrace(handlers, fields))[OwnEntry(handlers, f)] == 1
  {
    var out := DispatchTrace(handlers, fields);
    var own := OwnDispatchTrace(handlers, Visible(handlers, Reached(handlers, fields)));
    var stop := Stop(handlers, fields);
    DispatchDecomposes(handlers, fields);
    VisibleEntryOnce(handlers, fields, f);
    assert OwnEntry(handlers, f) !in stop;
    assert multiset(WithoutToStringCalls(out)) == multiset(own) + multiset(stop);
    WithoutToStringCallsCount(out, OwnEntry(handlers, f));
  }

  /** The intended loop over the visible reached properties has that property's entry exactly once. */
  lemma VisibleEntryOnce(handlers: Handlers, fields: seq<Field>, f: Field)
    requires DistinctKeys(fields) && f in Reached(handlers, fields)
    requires ReadHandler(handlers, f.key).Registered? || ReadHandler(handlers, f.key).Undefined?
    ensures multiset(OwnDispatchTrace(handlers, Visible(handlers, Reached(handlers, fields))))[OwnEntry(handlers, f)] == 1
  {
    var reached := Reached(handlers, fields);
    var v := Visible(handlers, reached);
    ReachedDistinct(handlers, fields);
    VisibleDistinct(handlers, reached);
    OwnEntryOccursOnce(handlers, v);
    assert f in v;
    var i :| 0 <= i < |v| && v[i] == f;
  }

  /** Every handler call and every warning comes from a property the loop reached. */
  lemma OnlyReachedTagsHandled(handlers: Handlers, fields: seq<Field>)
    ensures forall t, c, p | MessageHandlerCalled(t, c, p) in DispatchTrace(handlers, fields) ::
      Field(t, p) in Reached(handlers, fields)
    ensures forall t | Warned(t) in DispatchTrace(handlers, fields) :: t in Keys(Reached(handlers, fields))
  {
    ReachedCallsOnly(handlers, fields);
    ReachedWarningsOnly(handlers, fields);
  }

  /** An entry other than a forwarded call that the loop appends comes from the intended loop over the visible properties. */
  lemma ShownEntry(handlers: Handlers, fields: seq<Field>, o: Output)
    requires o in DispatchTrace(handlers, fields) && !o.ToStringHandlerCalled? && !o.DispatchThrew?
    ensures o in OwnDispatchTrace(handlers, Visible(handlers, Reached(handlers, fields)))
  {
    DispatchDecomposes(handlers, fields);
    WithoutToStringCallsCount(DispatchTrace(handlers, fields), o);
    assert o in WithoutToStringCalls(DispatchTrace(handlers, fields));
    assert o !in Stop(handlers, fields);
  }

  /** Calls half of `OnlyReachedTagsHandled`. */
  lemma ReachedCallsOnly(handlers: Handlers, fields: seq<Field>)
    ensures forall t, c, p | MessageHandlerCalled(t, c, p) in DispatchTrace(handlers, fields) ::
      Field(t, p) in Reached(handlers, fields)
  {
    var v := Visible(handlers, Reached(handlers, fields));
    OwnOnlyMessageTagsHandled(handlers, v);
    forall t, c, p | MessageHandlerCalled(t, c, p) in DispatchTrace(handlers, fields)
      ensures Field(t, p) in Reached(handlers, fields)
    {
      ShownEntry(handlers, fields, MessageHandlerCalled(t, c, p));
    }
  }

  /** Warnings half of `OnlyReachedTagsHandled`. */
  lemma ReachedWarningsOnly(handlers: Handlers, fields: seq<Field>)
    ensures forall t | Warned(t) in DispatchTrace(handlers, fields) :: t in Keys(Reached(handlers, fields))
  {
    var reached := Reached(handlers, fields);
    var v := Visible(handlers, reached);
    OwnOnlyMessageTagsHandled(handlers, v);
    VisibleKeys(handlers, reached);
    forall t | Warned(t) in DispatchTrace(handlers, fields) ensures t in Keys(reached) {
      ShownEntry(handlers, fields, Warned(t));
    }
  }

  /** Dropping properties keeps only tags that were there. */
  lemma VisibleKeys(handlers: Handlers, fields: seq<Field>)
    ensures Keys(Visible(handlers, fields)) <= Keys(fields)
  {
    var v := Visible(handlers, fields);
    forall t | t in Keys(v) ensures t in Keys(fields) {
      var i :| 0 <= i < |v| && v[i].key == t;
      assert v[i] in fields;
    }
  }

  /** A TypeError ends the loop: it is the last entry the loop appends. */
  lemma ThrowIsLast(handlers: Handlers, fields: seq<Field>)
    ensures forall t | DispatchThrew(t) in DispatchTrace(handlers, fields) ::
      DispatchTrace(handlers, fields)[|DispatchTrace(handlers, fields)| - 1] == DispatchThrew(t)
  {
    var out := DispatchTrace(handlers, fields);
    forall t | DispatchThrew(t) in out ensures out[|out| - 1] == DispatchThrew(t) {
      var i :| 0 <= i < |out| && out[i] == DispatchThrew(t);
      assert !(i < |out| - 1);
    }
  }

  /**
   * With distinct tags, the own `toString` handler is called exactly once
   * when the loop reaches a `toLocaleString` property that forwards to it,
   * and otherwise not at all.
   */
  lemma {:induction false} ToStringCallCount(handlers: Handlers, fields: seq<Field>, c: Callback)
    requires DistinctKeys(fields)
    ensures multiset(DispatchTrace(handlers, fields))[ToStringHandlerCalled(c)] ==
      if ReadHandler(handlers, ToLocaleString) == Forwarded(c) && ToLocaleString in Keys(Reached(handlers, fields)) then 1 else 0
  {
    if fields != [] {
      var f, rest := fields[0], fields[1..];
      var read := ReadHandler(handlers, f.key);
      if read.Throws? {
        assert Reached(handlers, fields) == [];
        assert DispatchTrace(handlers, fields) == [DispatchThrew(f.key)];
      } else {
        assert DistinctKeys(rest) by {
          forall i, j | 0 <= i < j < |rest| ensures rest[i].key != rest[j].key {
            assert rest[i] == fields[i + 1] && rest[j] == fields[j + 1];
          }
        }
        ToStringCallCount(handlers, rest, c);
        ReachedStep(handlers, fields);
        ConsKeys(f, Reached(handlers, rest));
        if f.key == ToLocaleString {
          FirstKeyNotReachedAgain(handlers, fields);
        }
        CountAfterHead(handlers, fields, ToStringHandlerCalled(c));
      }
    }
  }

  /** The tags of a property followed by others. */
  lemma ConsKeys(f: Field, rest: seq<Field>)
    ensures Keys([f] + rest) == {f.key} + Keys(rest)
  {
    var all := [f] + rest;
    forall k | k in Keys(rest) ensures k in Keys(all) {
      var i :| 0 <= i < |rest| && rest[i].key == k;
      assert all[i + 1] == rest[i];
    }
    forall k | k in Keys(all) ensures k in {f.key} + Keys(rest) {
      var i :| 0 <= i < |all| && all[i].key == k;
      if i > 0 {
        assert all[i] == rest[i - 1];
      }
    }
  }

  /** With distinct tags the first property's tag is not reached again later. */
  lemma FirstKeyNotReachedAgain(handlers: Handlers, fields: seq<Field>)
    requires DistinctKeys(fields) && fields != []
    ensures fields[0].key !in Keys(Reached(handlers, fields[1..]))
  {
    var r := Reached(handlers, fields[1..]);
    forall i | 0 <= i < |r| ensures r[i].key != fields[0].key {
      assert r[i] == fields[i + 1];
    }
  }

  /** How the first property's read changes the count of one entry in the loop's trace. */
  lemma CountAfterHead(handlers: Handlers, fields: seq<Field>, o: Output)
    requires fields != [] && !ReadHandler(handlers, fields[0].key).Throws?
    ensures multiset(DispatchTrace(handlers, fields))[o] ==
      (if ReadHandler(handlers, fields[0].key).BuiltIn? then 0
       else if ReadHandler(handlers, fields[0].key).Forwarded? then (if o == ToStringHandlerCalled(ReadHandler(handlers, fields[0].key).callback) then 1 else 0)
       else if o == OwnEntry(handlers, fields[0]) then 1 else 0)
      + multiset(DispatchTrace(handlers, fields[1..]))[o]
  {
    var read := ReadHandler(handlers, fields[0].key);
    var rest := DispatchTrace(handlers, fields[1..]);
    if read.Forwarded? {
      assert DispatchTrace(handlers, fields) == [ToStringHandlerCalled(read.callback)] + rest;
    } else if !read.BuiltIn? {
      assert DispatchTrace(handlers, fields) == [OwnEntry(handlers, fields[0])] + rest;
    }
  }

  /** With no throwing read the loop reaches every property and ends normally. */
  lemma ReachesAll(handlers: Handlers, fields: seq<Field>)
    requires forall f | f in fields :: !ReadHandler(handlers, f.key).Throws?
    ensures Reached(handlers, fields) == fields
    ensures Stop(handlers, fields) == []
  {
  }

  /**
   * When no property's read throws, the order in which the properties are
   * enumerated does not change what the loop as written calls or warns
   * about, only the order of the trace.
   */
  lemma DispatchOrderIrrelevant(handlers: Handlers, a: seq<Field>, b: seq<Field>)
    requires multiset(a) == multiset(b) && DistinctKeys(a) && DistinctKeys(b)
    ensures (forall f | f in a :: !ReadHandler(handlers, f.key).Throws?) ==>
      multiset(DispatchTrace(handlers, a)) == multiset(DispatchTrace(handlers, b))
  {
    if forall f | f in a :: !ReadHandler(handlers, f.key).Throws? {
      NoThrowPermuted(handlers, a, b);
      ReachesAll(handlers, a);
      ReachesAll(handlers, b);
      CountsAgree(handlers, a, b);
    }
  }

  /** A permutation of properties none of whose reads throws has none either. */
  lemma NoThrowPermuted(handlers: Handlers, a: seq<Field>, b: seq<Field>)
    requires multiset(a) == multiset(b)
    requires forall f | f in a :: !ReadHandler(handlers, f.key).Throws?
    ensures forall f | f in b :: !ReadHandler(handlers, f.key).Throws?
  {
    forall f | f in b ensures !ReadHandler(handlers, f.key).Throws? {
      assert f in multiset(b);
    }
  }

  /** Two permuted messages the loop gets through entirely yield the same entries. */
  lemma CountsAgree(handlers: Handlers, a: seq<Field>, b: seq<Field>)
    requires multiset(a) == multiset(b) && DistinctKeys(a) && DistinctKeys(b)
    requires Reached(handlers, a) == a && Reached(handlers, b) == b
    ensures multiset(DispatchTrace(handlers, a)) == multiset(DispatchTrace(handlers, b))
  {
    forall o ensures multiset(DispatchTrace(handlers, a))[o] == multiset(DispatchTrace(handlers, b))[o] {
      if o.ToStringHandlerCalled? {
        ForwardedCountsAgree(handlers, a, b, o.callback);
      } else {
        ShownCountsAgree(handlers, a, b, o);
      }
    }
  }

  /** Permuted properties carry the same tags. */
  lemma PermutationKeys(a: seq<Field>, b: seq<Field>)
    requires multiset(a) == multiset(b)
    ensures Keys(a) == Keys(b)
  {
    forall k | k in Keys(a) ensures k in Keys(b) {
      var i :| 0 <= i < |a| && a[i].key == k;
      assert a[i] in multiset(b);
    }
    forall k | k in Keys(b) ensures k in Keys(a) {
      var i :| 0 <= i < |b| && b[i].key == k;
      assert b[i] in multiset(a);
    }
  }

  /** The part of `DispatchOrderIrrelevant` about forwarded calls. */
  lemma ForwardedCountsAgree(handlers: Handlers, a: seq<Field>, b: seq<Field>, c: Callback)
    requires multiset(a) == multiset(b) && DistinctKeys(a) && DistinctKeys(b)
    requires Reached(handlers, a) == a && Reached(handlers, b) == b
    ensures multiset(DispatchTrace(handlers, a))[ToStringHandlerCalled(c)] ==
      multiset(DispatchTrace(handlers, b))[ToStringHandlerCalled(c)]
  {
    ToStringCallCount(handlers, a, c);
    ToStringCallCount(handlers, b, c);
    PermutationKeys(a, b);
  }

  /** The part of `DispatchOrderIrrelevant` about entries other than forwarded calls. */
  lemma ShownCountsAgree(handlers: Handlers, a: seq<Field>, b: seq<Field>, o: Output)
    requires multiset(a) == multiset(b) && !o.ToStringHandlerCalled?
    requires Reached(handlers, a) == a && Reached(handlers, b) == b
    ensures multiset(DispatchTrace(handlers, a))[o] == multiset(DispatchTrace(handlers, b))[o]
  {
    DispatchDecomposes(handlers, a);
    DispatchDecomposes(handlers, b);
    WithoutToStringCallsCount(DispatchTrace(handlers, a), o);
    WithoutToStringCallsCount(DispatchTrace(handlers, b), o);
    VisiblePermutation(handlers, a, b);
    OwnDispatchOrderIrrelevant(handlers, Visible(handlers, a), Visible(handlers, b));
    assert Stop(handlers, a) == [] && Stop(handlers, b) == [];
  }

  /**
   * The discrepancy for `toLocaleString`: it reads the own `toString`
   * entry, so `{"toLocaleString": v}` calls a handler registered under
   * `toString`, and throws when `toString` was registered as `undefined`;
   * the intended loop warns in both cases.
   */
  lemma ToLocaleStringReadsOwnToString(c: Callback, v: Value)
    ensures DispatchTrace(map[ToString := Some(c)], [Field(ToLocaleString, v)]) == [ToStringHandlerCalled(c)]
    ensures DispatchTrace(map[ToString := None], [Field(ToLocaleString, v)]) == [DispatchThrew(ToLocaleString)]
    ensures OwnDispatchTrace(map[ToString := Some(c)], [Field(ToLocaleString, v)]) == [Warned(ToLocaleString)]
    ensures OwnDispatchTrace(map[ToString := None], [Field(ToLocaleString, v)]) == [Warned(ToLocaleString)]
  {
    assert ReadHandler(map[ToString := Some(c)], ToLocaleString) == Forwarded(c);
    assert ReadHandler(map[ToString := None], ToLocaleString) == Throws;
  }

  /** With no built-in reads, every property is visible. */
  lemma {:induction false} VisibleAll(handlers: Handlers, fields: seq<Field>)
    requires forall i | 0 <= i < |fields| :: fields[i].key in handlers || fields[i].key !in ObjectPrototypeNames
    ensures Reached(handlers, fields) == fields
    ensures Visible(handlers, fields) == fields
  {
    if fields != [] {
      VisibleAll(handlers, fields[1..]);
    }
  }

  /**
   * The discrepancy, on a concrete message: with `SearchResults` registered,
   * `{"__proto__": 1, "SearchResults": v}` throws before the registered
   * handler runs, and moving `__proto__` last lets it run; the intended loop
   * warns about `__proto__` and calls the handler in either order.
   */
  lemma ProtoKeyStopsDispatch(c: Callback, v: Value)
    ensures var handlers := map[SearchResults := Some(c)];
      var proto := Field("__proto__", OtherJson("1"));
      && DispatchTrace(handlers, [proto, Field(SearchResults, v)]) == [DispatchThrew("__proto__")]
      && DispatchTrace(handlers, [Field(SearchResults, v), proto]) ==
         [MessageHandlerCalled(SearchResults, c, v), DispatchThrew("__proto__")]
      && OwnDispatchTrace(handlers, [proto, Field(SearchResults, v)]) ==
         [Warned("__proto__"), MessageHandlerCalled(SearchResults, c, v)]
  {
    var handlers := map[SearchResults := Some(c)];
    var proto := Field("__proto__", OtherJson("1"));
    assert ReadHandler(handlers, "__proto__") == Throws;
    assert ReadHandler(handlers, SearchResults) == Registered(c);
    assert [proto, Field(SearchResults, v)][1..] == [Field(SearchResults, v)];
    assert [Field(SearchResults, v), proto][1..] == [proto];
  }

  /** An unregistered tag naming an inherited method is neither warned about nor dispatched. */
  lemma ConstructorKeyIsSilent(v: Value)
    ensures DispatchTrace(map[], [Field("constructor", v)]) == []
    ensures OwnDispatchTrace(map[], [Field("constructor", v)]) == [Warned("constructor")]
  {
    assert ReadHandler(map[], "constructor") == BuiltIn;
  }
}
