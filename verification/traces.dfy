/** Sequences of calls on the broadcast channel stand-in: across any run the
    registry only gains names, exactly those constructed, keeps every hub it
    already had apart from listener changes, and keeps its invariant. */
module Traces {
  import opened EventTargets
  import opened BroadcastChannels

  /** One call on the stand-in. */
  datatype Op<D> =
    | New(name: string)
    | Post(channel: Channel, message: D)
    | Listen(channel: Channel, kind: string, listener: ListenerId, options: Options)
    | Unlisten(channel: Channel, kind: string, listener: ListenerId, options: Options)
    | Shut(channel: Channel)
    | DispatchOwn(channel: Channel)

  /** A call can be made: the calls that reach the hub need the handle's
      hub, which every handle obtained from the constructor has; `close` and
      `dispatchEvent` never look at the registry. */
  predicate Enabled<D>(registry: Registry, op: Op<D>) {
    op.New? || op.Shut? || op.DispatchOwn? || Bound(registry, op.channel)
  }

  /** The registry after one call. */
  function Step<D>(registry: Registry, op: Op<D>): (r: Registry)
    requires Enabled(registry, op)
    ensures registry.Keys <= r.Keys
    ensures op.New? ==> r.Keys == registry.Keys + {op.name}
    ensures !op.New? ==> r.Keys == registry.Keys
    ensures Valid(registry) ==> Valid(r)
  {
    match op
    case New(name) => Construct(registry, name).registry
    case Post(channel, message) => PostMessage(registry, channel, message).registry
    case Listen(channel, kind, listener, options) => AddEventListener(registry, channel, kind, listener, options)
    case Unlisten(channel, kind, listener, options) => RemoveEventListener(registry, channel, kind, listener, options)
    case Shut(channel) => Close(registry, channel)
    case DispatchOwn(channel) => DispatchEvent(registry, channel).registry
  }

  /** Every call of the run is enabled when it is made. */
  predicate Runnable<D>(registry: Registry, ops: seq<Op<D>>)
    decreases |ops|
  {
    |ops| == 0 || (Enabled(registry, ops[0]) && Runnable(Step(registry, ops[0]), ops[1..]))
  }

  /** The names a run constructs. */
  function Constructed<D>(ops: seq<Op<D>>): set<string>
    decreases |ops|
  {
    if |ops| == 0 then {}
    else (if ops[0].New? then {ops[0].name} else {}) + Constructed(ops[1..])
  }

  /** The registry after a run. No call removes a name: the names after the
      run are those before it and those it constructed. */
  function Run<D>(registry: Registry, ops: seq<Op<D>>): (r: Registry)
    requires Runnable(registry, ops)
    ensures r.Keys == registry.Keys + Constructed(ops)
    ensures Valid(registry) ==> Valid(r)
    decreases |ops|
  {
    if |ops| == 0 then registry else Run(Step(registry, ops[0]), ops[1..])
  }

  /** A handle bound before a run is still bound after it, so it can keep
      calling. */
  lemma RunKeepsHandlesBound<D>(registry: Registry, ops: seq<Op<D>>, channel: Channel)
    requires Runnable(registry, ops) && Bound(registry, channel)
    ensures Bound(Run(registry, ops), channel)
  {
  }

  /** A run with no add or remove call leaves every hub as it was. */
  lemma {:induction false} RunWithoutListenerChanges<D>(registry: Registry, ops: seq<Op<D>>)
    requires Runnable(registry, ops)
    requires forall i :: 0 <= i < |ops| ==> !ops[i].Listen? && !ops[i].Unlisten?
    ensures forall n :: n in registry ==> n in Run(registry, ops) && Run(registry, ops)[n] == registry[n]
    decreases |ops|
  {
    if |ops| != 0 {
      var registry' := Step(registry, ops[0]);
      assert forall n :: n in registry ==> registry'[n] == registry[n];
      assert forall i :: 0 <= i < |ops[1..]| ==> ops[1..][i] == ops[i + 1];
      RunWithoutListenerChanges(registry', ops[1..]);
    }
  }
}
