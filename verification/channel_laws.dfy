/** Laws of the broadcast channel stand-in that relate several calls:
    delivery order and multiplicity, the type argument being ignored,
    add/remove round trips, and the advisory `close`. */
module ChannelLaws {
  import opened Slots
  import opened EventTargets
  import opened BroadcastChannels

  /** Ids that are pairwise distinct. */
  ghost predicate Distinct(ids: seq<ListenerId>)
    decreases |ids|
  {
    |ids| == 0 || (ids[0] !in ids[1..] && Distinct(ids[1..]))
  }

  /** `addEventListener` called once per id, in order, on one handle. */
  function AddEach(registry: Registry, channel: Channel, kind: string, ids: seq<ListenerId>, options: Options): (r: Registry)
    requires Bound(registry, channel)
    ensures r.Keys == registry.Keys
    ensures forall n :: n in registry && n != channel.name ==> r[n] == registry[n]
    decreases |ids|
  {
    if |ids| == 0 then registry
    else AddEach(AddEventListener(registry, channel, kind, ids[0], options), channel, kind, ids[1..], options)
  }

  /** Every listener registered on the hub is invoked exactly once per
      capture flag it is registered with, and no other listener is invoked. */
  lemma PostDeliversEachOnce<D>(registry: Registry, channel: Channel, message: D, x: ListenerId)
    requires Valid(registry) && Bound(registry, channel)
    ensures var hub := registry[channel.name];
      multiset(PostMessage(registry, channel, message).delivered)[x]
        == (if Entry(MessageType, x, true) in hub then 1 else 0) + (if Entry(MessageType, x, false) in hub then 1 else 0)
  {
    var hub := registry[channel.name];
    InvokeOnce(hub, MessageType, true, x);
    InvokeOnce(hub, MessageType, false, x);
  }

  /** The hub of the handle's name after adding an absent listener: the
      new entry at the end. */
  lemma HubAfterAdd(registry: Registry, channel: Channel, kind: string, listener: ListenerId, options: Options)
    requires Bound(registry, channel)
    requires Entry(MessageType, listener, Capture(options)) !in registry[channel.name]
    ensures AddEventListener(registry, channel, kind, listener, options)[channel.name]
      == registry[channel.name] + [Entry(MessageType, listener, Capture(options))]
  {
  }

  /** A newly added listener is invoked after every listener registered
      before it in its phase; the order of the others does not change. Any
      handle of the same name sees this, the adding one included. */
  lemma PostAfterAdd<D>(registry: Registry, channel: Channel, sender: Channel, kind: string, listener: ListenerId, options: Options, message: D)
    requires Bound(registry, channel) && sender.name == channel.name
    requires Entry(MessageType, listener, Capture(options)) !in registry[channel.name]
    ensures var hub := registry[channel.name];
      var after := PostMessage(AddEventListener(registry, channel, kind, listener, options), sender, message).delivered;
      && (Capture(options) ==> after == Invoke(hub, MessageType, true) + [listener] + Invoke(hub, MessageType, false))
      && (!Capture(options) ==> after == Invoke(hub, MessageType, true) + Invoke(hub, MessageType, false) + [listener])
  {
    var hub := registry[channel.name];
    var e := Entry(MessageType, listener, Capture(options));
    var capturing := Invoke(hub, MessageType, true);
    var bubbling := Invoke(hub, MessageType, false);
    HubAfterAdd(registry, channel, kind, listener, options);
    var after := PostMessage(AddEventListener(registry, channel, kind, listener, options), sender, message).delivered;
    assert after == Dispatch(AddListener(hub, e), MessageType);
    InvokeAfterAdd(hub, e, MessageType, true);
    InvokeAfterAdd(hub, e, MessageType, false);
    if Capture(options) {
      assert after == (capturing + [listener]) + (bubbling + []);
      assert bubbling + [] == bubbling;
    } else {
      assert after == (capturing + []) + (bubbling + [listener]);
      assert capturing + [] == capturing;
      AppendAssociative(capturing, bubbling, [listener]);
    }
  }

  /** Whatever type it is given, an added listener receives every later post
      on the name, from any handle of that name. */
  lemma AddedListenerReceivesPosts<D>(registry: Registry, channel: Channel, sender: Channel, kind: string, listener: ListenerId, options: Options, message: D)
    requires Bound(registry, channel) && sender.name == channel.name
    ensures var p := PostMessage(AddEventListener(registry, channel, kind, listener, options), sender, message);
      listener in p.delivered && p.event.data == message
  {
  }

  /** The `type` argument of `addEventListener` and `removeEventListener`
      has no effect. */
  lemma TypeIsIgnored(registry: Registry, channel: Channel, kind: string, kind': string, listener: ListenerId, options: Options)
    requires Bound(registry, channel)
    ensures AddEventListener(registry, channel, kind, listener, options) == AddEventListener(registry, channel, kind', listener, options)
    ensures RemoveEventListener(registry, channel, kind, listener, options) == RemoveEventListener(registry, channel, kind', listener, options)
  {
  }

  /** Adding a listener a second time with the same capture flag, through
      any handle of the name and with any type, changes nothing. */
  lemma AddTwice(registry: Registry, channel: Channel, other: Channel, kind: string, kind': string, listener: ListenerId, options: Options, options': Options)
    requires Bound(registry, channel) && other.name == channel.name
    requires Capture(options') == Capture(options)
    ensures var once := AddEventListener(registry, channel, kind, listener, options);
      AddEventListener(once, other, kind', listener, options') == once
  {
    var once := AddEventListener(registry, channel, kind, listener, options);
    assert once[channel.name := once[channel.name]] == once;
  }

  /** Removing a listener that is not registered with that capture flag
      changes nothing. */
  lemma RemoveAbsent(registry: Registry, channel: Channel, kind: string, listener: ListenerId, options: Options)
    requires Bound(registry, channel)
    requires Entry(MessageType, listener, Capture(options)) !in registry[channel.name]
    ensures RemoveEventListener(registry, channel, kind, listener, options) == registry
  {
    assert registry[channel.name := registry[channel.name]] == registry;
  }

  /** Overwriting a key twice keeps the second value. */
  lemma UpdateTwice(registry: Registry, name: string, hub: Hub, hub': Hub)
    ensures registry[name := hub][name := hub'] == registry[name := hub']
  {
  }

  /** Writing back a key's own value changes nothing. */
  lemma UpdateSame(registry: Registry, name: string)
    requires name in registry
    ensures registry[name := registry[name]] == registry
  {
  }

  /** Adding a listener that was absent and then removing it with the same
      capture flag, through any handle of the name and with any types,
      restores the registry. */
  lemma AddThenRemove(registry: Registry, channel: Channel, other: Channel, kind: string, kind': string, listener: ListenerId, options: Options, options': Options)
    requires Bound(registry, channel) && other.name == channel.name
    requires Capture(options') == Capture(options)
    requires Entry(MessageType, listener, Capture(options)) !in registry[channel.name]
    ensures RemoveEventListener(AddEventListener(registry, channel, kind, listener, options), other, kind', listener, options') == registry
  {
    var hub := registry[channel.name];
    var e := Entry(MessageType, listener, Capture(options));
    var added := AddEventListener(registry, channel, kind, listener, options);
    assert added == registry[channel.name := hub + [e]] by {
      assert AddListener(hub, e) == hub + [e];
    }
    assert RemoveEventListener(added, other, kind', listener, options') == added[channel.name := RemoveListener(hub + [e], e)];
    assert RemoveListener(hub + [e], e) == hub by {
      RemoveAppended(hub, e);
    }
    UpdateTwice(registry, channel.name, hub + [e], hub);
    UpdateSame(registry, channel.name);
  }

  /** Removing a registered listener takes its entry out of the hub of the
      handle's name and keeps the entries before and after it in order. */
  lemma RemoveEventListenerSplits(registry: Registry, channel: Channel, kind: string, listener: ListenerId, options: Options, before: Hub, after: Hub)
    requires Bound(registry, channel)
    requires registry[channel.name] == before + [Entry(MessageType, listener, Capture(options))] + after
    requires Entry(MessageType, listener, Capture(options)) !in before
    ensures RemoveEventListener(registry, channel, kind, listener, options)[channel.name] == before + after
  {
    RemoveSplits(before, Entry(MessageType, listener, Capture(options)), after);
  }

  /** A post after a removal reaches the listeners it reached before, in the
      same order, with the removed listener's invocation left out. */
  lemma PostAfterRemove<D>(registry: Registry, channel: Channel, sender: Channel, kind: string, listener: ListenerId, options: Options, message: D, before: Hub, after: Hub)
    requires Bound(registry, channel) && sender.name == channel.name
    requires registry[channel.name] == before + [Entry(MessageType, listener, Capture(options))] + after
    requires Entry(MessageType, listener, Capture(options)) !in before
    ensures var c := Invoke(before, MessageType, true);
      var c' := Invoke(after, MessageType, true);
      var b := Invoke(before, MessageType, false);
      var b' := Invoke(after, MessageType, false);
      && PostMessage(registry, sender, message).delivered
         == (if Capture(options) then c + [listener] + c' + b + b' else c + c' + b + [listener] + b')
      && PostMessage(RemoveEventListener(registry, channel, kind, listener, options), sender, message).delivered
         == c + c' + b + b'
  {
    var e := Entry(MessageType, listener, Capture(options));
    assert PostMessage(registry, sender, message).delivered == Dispatch(before + [e] + after, MessageType);
    if e.capture {
      DispatchAroundCapture(before, e, after, MessageType);
    } else {
      DispatchAroundBubble(before, e, after, MessageType);
    }
    assert PostMessage(RemoveEventListener(registry, channel, kind, listener, options), sender, message).delivered
      == Dispatch(before + after, MessageType) by {
      RemoveEventListenerSplits(registry, channel, kind, listener, options, before, after);
    }
    DispatchAppend(before, after, MessageType);
  }

  /** `close` is advisory: a post after it reaches the same listeners with
      the same event as a post without it. */
  lemma CloseThenPost<D>(registry: Registry, channel: Channel, sender: Channel, message: D)
    requires Bound(registry, sender)
    ensures Bound(Close(registry, channel), sender)
    ensures PostMessage(Close(registry, channel), sender, message) == PostMessage(registry, sender, message)
  {
    assert Close(registry, channel) == registry;
  }

  /** The handler slots are never consulted: whatever is assigned to
      `onmessage` and `onmessageerror`, a post reaches the same listeners. */
  lemma HandlerSlotsIgnored<D>(registry: Registry, channel: Channel, handler: Slot<ListenerId>, errorHandler: Slot<ListenerId>, message: D)
    requires Bound(registry, channel)
    ensures var c := SetOnMessageError(SetOnMessage(channel, handler), errorHandler);
      Bound(registry, c) && PostMessage(registry, c, message) == PostMessage(registry, channel, message)
  {
  }

  /** Two handles of one name share a hub: a listener added through the
      second receives what the first posts, and on a fresh name nothing else. */
  lemma SharedNameFanOut<D>(registry: Registry, name: string, kind: string, listener: ListenerId, options: Options, message: D)
    ensures var a := Construct(registry, name);
      var b := Construct(a.registry, name);
      var p := PostMessage(AddEventListener(b.registry, b.channel, kind, listener, options), a.channel, message);
      && listener in p.delivered
      && p.event.data == message
      && (name !in registry ==> p.delivered == [listener])
  {
    var a := Construct(registry, name);
    var b := Construct(a.registry, name);
    if name !in registry {
      var e := Entry(MessageType, listener, Capture(options));
      assert AddEventListener(b.registry, b.channel, kind, listener, options)[name] == [e];
      InvokeEntries([listener], MessageType, Capture(options));
      assert Entries([listener], MessageType, Capture(options)) == [e];
    }
  }

  /** Handles of distinct names are isolated: adding a listener through one
      does not change what the other's posts reach, and a freshly created
      name reaches nobody. */
  lemma DistinctNamesIsolated<D>(registry: Registry, name: string, name': string, kind: string, listener: ListenerId, options: Options, message: D)
    requires name != name'
    ensures var a := Construct(registry, name);
      var b := Construct(a.registry, name');
      var p := PostMessage(AddEventListener(b.registry, b.channel, kind, listener, options), a.channel, message);
      && p.delivered == PostMessage(b.registry, a.channel, message).delivered
      && (name !in registry ==> p.delivered == [])
  {
  }

  /** After the first of distinct ids is appended to a hub lacking all of
      them, the remaining ids are distinct and still absent. */
  lemma AbsentAfterAppend(hub: Hub, ids: seq<ListenerId>, capture: bool)
    requires |ids| > 0 && Distinct(ids)
    requires forall x :: x in ids ==> Entry(MessageType, x, capture) !in hub
    ensures Distinct(ids[1..])
    ensures forall x :: x in ids[1..] ==> Entry(MessageType, x, capture) !in hub + [Entry(MessageType, ids[0], capture)]
  {
    forall x | x in ids[1..] ensures Entry(MessageType, x, capture) !in hub + [Entry(MessageType, ids[0], capture)] {
      assert x in ids && x != ids[0];
    }
  }

  /** Adding distinct, previously absent listeners one after another appends
      their entries to the hub in call order. */
  lemma {:induction false} AddEachAppends(registry: Registry, channel: Channel, kind: string, ids: seq<ListenerId>, options: Options)
    requires Bound(registry, channel) && Distinct(ids)
    requires forall x :: x in ids ==> Entry(MessageType, x, Capture(options)) !in registry[channel.name]
    ensures AddEach(registry, channel, kind, ids, options)[channel.name]
      == registry[channel.name] + Entries(ids, MessageType, Capture(options))
    decreases |ids|
  {
    var c := Capture(options);
    var hub := registry[channel.name];
    if |ids| == 0 {
      assert hub + Entries(ids, MessageType, c) == hub;
    } else {
      var e := Entry(MessageType, ids[0], c);
      var registry' := AddEventListener(registry, channel, kind, ids[0], options);
      HubAfterAdd(registry, channel, kind, ids[0], options);
      AbsentAfterAppend(hub, ids, c);
      AddEachAppends(registry', channel, kind, ids[1..], options);
      AppendAssociative(hub, [e], Entries(ids[1..], MessageType, c));
    }
  }

  /** k distinct listeners added with one capture flag on a fresh name are
      each invoked exactly once by a post, in registration order. */
  lemma RegistrationOrder<D>(registry: Registry, name: string, kind: string, ids: seq<ListenerId>, options: Options, message: D)
    requires name !in registry && Distinct(ids)
    ensures var c := Construct(registry, name);
      PostMessage(AddEach(c.registry, c.channel, kind, ids, options), c.channel, message).delivered == ids
  {
    var c := Construct(registry, name);
    var cap := Capture(options);
    AddEachAppends(c.registry, c.channel, kind, ids, options);
    var hub := AddEach(c.registry, c.channel, kind, ids, options)[name];
    assert hub == Entries(ids, MessageType, cap);
    InvokeEntries(ids, MessageType, cap);
    if cap {
      assert Dispatch(hub, MessageType) == ids + [];
    } else {
      assert Dispatch(hub, MessageType) == [] + ids;
    }
  }
}
