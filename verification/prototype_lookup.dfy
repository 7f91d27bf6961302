/** The constructor as written tests `name in _eventTargets` on a plain
    object literal. JavaScript's `in` also sees the properties the object
    inherits from `Object.prototype`, so for a channel named, say,
    "constructor" no hub is created; every later handle call then reads an
    inherited built-in (or `undefined`), which has no `dispatchEvent`,
    `addEventListener` or `removeEventListener`, and throws a TypeError.

    This module models that behaviour and exhibits it. The rest of the model
    uses the corrected registry (`BroadcastChannels.Construct`), which holds
    only constructed names, as a prototype-free object or a `Map` would;
    under it every constructed handle is bound and no call throws. */
module PrototypeLookup {
  import opened Slots
  import opened EventTargets
  import opened BroadcastChannels

  /** The property names every plain object inherits from `Object.prototype`
      (ECMAScript section 20.1.3 and the legacy accessors of Annex B.2.2). */
  const ObjectPrototypeKeys: set<string> := {
    "constructor", "hasOwnProperty", "isPrototypeOf", "propertyIsEnumerable",
    "toLocaleString", "toString", "valueOf", "__proto__",
    "__defineGetter__", "__defineSetter__", "__lookupGetter__", "__lookupSetter__"
  }

  /** A call that either returns a value or throws a TypeError. */
  datatype Outcome<T> = Returned(value: T) | TypeError

  /** `name in registryObject` in JavaScript: an own or an inherited property. */
  predicate InRegistryObject(registry: Registry, name: string) {
    name in registry || name in ObjectPrototypeKeys
  }

  /** The constructor as written: an inherited name counts as present. */
  function ConstructAsWritten(registry: Registry, name: string): (r: Constructed)
    ensures r.channel.name == name
    ensures r.registry.Keys == if name in ObjectPrototypeKeys then registry.Keys else registry.Keys + {name}
    ensures forall n :: n in registry ==> r.registry[n] == registry[n]
  {
    var registry' := if InRegistryObject(registry, name) then registry else registry[name := []];
    Constructed(registry', Channel(name, Absent, Absent))
  }

  /** `postMessage` as written: dispatching on a value that is not an own hub
      throws. */
  function PostMessageAsWritten<D>(registry: Registry, channel: Channel, message: D): (r: Outcome<Posted<D>>)
    ensures r.Returned? <==> channel.name in registry
    ensures r.Returned? ==> r.value == PostMessage(registry, channel, message)
  {
    if channel.name in registry then Returned(PostMessage(registry, channel, message)) else TypeError
  }

  /** `addEventListener` as written: registering on a value that is not an
      own hub throws. */
  function AddEventListenerAsWritten(registry: Registry, channel: Channel, kind: string, listener: ListenerId, options: Options): (r: Outcome<Registry>)
    ensures r.Returned? <==> channel.name in registry
    ensures r.Returned? ==> r.value == AddEventListener(registry, channel, kind, listener, options)
    ensures r.Returned? ==> channel.name in r.value && Entry(MessageType, listener, Capture(options)) in r.value[channel.name]
  {
    if channel.name in registry then Returned(AddEventListener(registry, channel, kind, listener, options)) else TypeError
  }

  /** `removeEventListener` as written: unregistering on a value that is not
      an own hub throws. */
  function RemoveEventListenerAsWritten(registry: Registry, channel: Channel, kind: string, listener: ListenerId, options: Options): (r: Outcome<Registry>)
    ensures r.Returned? <==> channel.name in registry
    ensures r.Returned? ==> r.value == RemoveEventListener(registry, channel, kind, listener, options)
    ensures r.Returned? ==> channel.name in r.value && forall e :: e in r.value[channel.name] ==> e in registry[channel.name]
  {
    if channel.name in registry then Returned(RemoveEventListener(registry, channel, kind, listener, options)) else TypeError
  }

  /** The discrepancy: a handle named after an inherited property gets no
      hub, and its first `postMessage`, `addEventListener` or
      `removeEventListener` throws, although
      construction never fails and no handle call is meant to throw. */
  lemma InheritedNameThrows<D>(registry: Registry, name: string, kind: string, listener: ListenerId, options: Options, message: D)
    requires name in ObjectPrototypeKeys && name !in registry
    ensures var c := ConstructAsWritten(registry, name);
      && c.registry == registry
      && PostMessageAsWritten(c.registry, c.channel, message) == TypeError
      && AddEventListenerAsWritten(c.registry, c.channel, kind, listener, options) == TypeError
      && RemoveEventListenerAsWritten(c.registry, c.channel, kind, listener, options) == TypeError
  {
  }

  /** A concrete instance: on an empty registry, `new BroadcastChannel("constructor")`
      followed by `postMessage` throws. */
  lemma ConstructorNameThrows()
    ensures var c := ConstructAsWritten(map[], "constructor");
      PostMessageAsWritten(c.registry, c.channel, 0) == TypeError
  {
    InheritedNameThrows(map[], "constructor", MessageType, 0, Omitted, 0);
  }

  /** Apart from inherited names, the constructor as written and the
      corrected one agree. */
  lemma AsWrittenAgreesElsewhere(registry: Registry, name: string)
    requires name !in ObjectPrototypeKeys
    ensures ConstructAsWritten(registry, name) == Construct(registry, name)
  {
  }

  /** With the corrected registry every constructed handle, whatever its name,
      posts, registers and unregisters without throwing. */
  lemma CorrectedNeverThrows<D>(registry: Registry, name: string, kind: string, listener: ListenerId, options: Options, message: D)
    ensures var c := Construct(registry, name);
      && PostMessageAsWritten(c.registry, c.channel, message).Returned?
      && AddEventListenerAsWritten(c.registry, c.channel, kind, listener, options).Returned?
      && RemoveEventListenerAsWritten(c.registry, c.channel, kind, listener, options).Returned?
  {
  }
}
