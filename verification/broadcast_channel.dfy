/** The in-process `BroadcastChannel` stand-in: a process-wide registry from
    channel name to one hub (an event target), and channel handles that
    forward every operation to the hub of their name.

    The registry is an immutable value; every operation takes the registry
    before the call and returns the registry after it. */
module BroadcastChannels {
  import opened Slots
  import opened EventTargets

  /** The one event type the handles ever register, remove or dispatch. */
  const MessageType: string := "message"

  /** The static registry: channel name to hub. */
  type Registry = map<string, Hub>

  /** A channel handle: its name and the two handler slots, which start out
      empty and are plain fields that nothing ever reads. */
  datatype Channel = Channel(name: string, onmessage: Slot<ListenerId>, onmessageerror: Slot<ListenerId>)

  /** The event `postMessage` dispatches: its type and its `data`. */
  datatype MessageEvent<D> = MessageEvent(kind: string, data: D)

  /** The outcome of constructing a handle. */
  datatype Constructed = Constructed(registry: Registry, channel: Channel)

  /** The outcome of `postMessage`: the registry after it, the event
      dispatched and the listener callbacks invoked, in invocation order. */
  datatype Posted<D> = Posted(registry: Registry, event: MessageEvent<D>, delivered: seq<ListenerId>)

  /** The outcome of the handle's own `dispatchEvent`. */
  datatype Dispatched = Dispatched(registry: Registry, result: bool)

  /** The handle's hub exists. Every handle is made by `Construct`, which
      establishes this, and no operation removes a hub. */
  predicate Bound(registry: Registry, channel: Channel) {
    channel.name in registry
  }

  /** A hub as the handles leave it: every entry is of type "message" and no
      two entries agree on callback and capture. */
  ghost predicate WellFormedHub(hub: Hub) {
    && NoDuplicates(hub)
    && forall e :: e in hub ==> e.kind == MessageType
  }

  /** The registry invariant: every hub is well formed. */
  ghost predicate Valid(registry: Registry) {
    forall n :: n in registry ==> WellFormedHub(registry[n])
  }

  /** The constructor: a hub is created for a name that has none; a name
      that has one keeps it. */
  function Construct(registry: Registry, name: string): (r: Constructed)
    ensures r.channel.name == name
    ensures r.channel.onmessage == Absent && r.channel.onmessageerror == Absent
    ensures Bound(r.registry, r.channel)
    ensures r.registry.Keys == registry.Keys + {name}
    ensures forall n :: n in registry ==> r.registry[n] == registry[n]
    ensures name !in registry ==> r.registry[name] == []
    ensures Valid(registry) ==> Valid(r.registry)
  {
    var registry' := if name in registry then registry else registry[name := []];
    Constructed(registry', Channel(name, Absent, Absent))
  }

  /** `close()`: advisory; nothing changes. */
  function Close(registry: Registry, channel: Channel): (r: Registry)
    ensures r.Keys == registry.Keys
    ensures forall n :: n in registry ==> r[n] == registry[n]
  {
    registry
  }

  /** The handle's own `dispatchEvent()`: reports success and touches no hub. */
  function DispatchEvent(registry: Registry, channel: Channel): (r: Dispatched)
    ensures r.result
    ensures r.registry.Keys == registry.Keys
    ensures forall n :: n in registry ==> r.registry[n] == registry[n]
  {
    Dispatched(registry, true)
  }

  /** `postMessage(message)`: a "message" event carrying the payload is
      dispatched on the hub of the handle's name. The listeners invoked are
      exactly those registered on that hub; no hub changes. */
  function PostMessage<D>(registry: Registry, channel: Channel, message: D): (r: Posted<D>)
    requires Bound(registry, channel)
    ensures r.event.kind == MessageType && r.event.data == message
    ensures r.registry.Keys == registry.Keys
    ensures forall n :: n in registry ==> r.registry[n] == registry[n]
    ensures forall x :: x in r.delivered <==>
      Entry(MessageType, x, true) in registry[channel.name] || Entry(MessageType, x, false) in registry[channel.name]
  {
    var event := MessageEvent(MessageType, message);
    Posted(registry, event, Dispatch(registry[channel.name], event.kind))
  }

  /** `addEventListener(type, listener, options)`: whatever `type` is, the
      listener is added to the hub of the handle's name under "message", with
      the capture flag `options` denotes. Other hubs are untouched. */
  function AddEventListener(registry: Registry, channel: Channel, kind: string, listener: ListenerId, options: Options): (r: Registry)
    requires Bound(registry, channel)
    ensures r.Keys == registry.Keys
    ensures forall n :: n in registry && n != channel.name ==> r[n] == registry[n]
    ensures registry[channel.name] <= r[channel.name]
    ensures forall e :: e in r[channel.name] <==> e in registry[channel.name] || e == Entry(MessageType, listener, Capture(options))
    ensures Valid(registry) ==> Valid(r)
  {
    var hub := registry[channel.name];
    registry[channel.name := AddListener(hub, Entry(MessageType, listener, Capture(options)))]
  }

  /** `removeEventListener(type, listener, options)`: whatever `type` is, the
      "message" entry for the listener with the capture flag `options`
      denotes leaves the hub of the handle's name, if it is there. */
  function RemoveEventListener(registry: Registry, channel: Channel, kind: string, listener: ListenerId, options: Options): (r: Registry)
    requires Bound(registry, channel)
    ensures r.Keys == registry.Keys
    ensures forall n :: n in registry && n != channel.name ==> r[n] == registry[n]
    ensures forall e :: e in r[channel.name] ==> e in registry[channel.name]
    ensures forall e :: e in registry[channel.name] && e != Entry(MessageType, listener, Capture(options)) ==> e in r[channel.name]
    ensures Valid(registry) ==> Valid(r) && Entry(MessageType, listener, Capture(options)) !in r[channel.name]
  {
    var hub := registry[channel.name];
    RemoveKeepsNoDuplicates(hub, Entry(MessageType, listener, Capture(options)));
    registry[channel.name := RemoveListener(hub, Entry(MessageType, listener, Capture(options)))]
  }

  /** Assigning the `onmessage` slot. */
  function SetOnMessage(channel: Channel, handler: Slot<ListenerId>): (r: Channel)
    ensures r.name == channel.name && r.onmessage == handler && r.onmessageerror == channel.onmessageerror
  {
    channel.(onmessage := handler)
  }

  /** Assigning the `onmessageerror` slot. */
  function SetOnMessageError(channel: Channel, handler: Slot<ListenerId>): (r: Channel)
    ensures r.name == channel.name && r.onmessageerror == handler && r.onmessage == channel.onmessage
  {
    channel.(onmessageerror := handler)
  }
}
