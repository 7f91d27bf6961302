# BroadcastChannel stand-in: a Dafny model

This project models the in-process `BroadcastChannel` replacement that
oidc-client-ts installs for its test runs (`BroadcastChannelPolyfill`). It is
a small publish/subscribe registry:

- a process-wide registry maps each channel name to one hub, an `EventTarget`;
- the constructor creates the hub for a name the first time that name is used;
  no code ever removes a hub. The model decides "used before" by the
  registry's own names, as a prototype-free object or a `Map` would; the constructor's test as written also counts names
  inherited from `Object.prototype` and is modelled separately in
  `PrototypeLookup` (see Findings);
- a channel handle forwards `postMessage`, `addEventListener` and
  `removeEventListener` to the hub of its name, always with the event type
  `"message"`, whatever type the caller passed;
- `close` does nothing, `dispatchEvent` answers `true`, and the `onmessage` /
  `onmessageerror` slots are plain fields that nothing reads.

The registry is an immutable `map<string, seq<Entry>>`. Every operation is a
pure function from the registry before the call to the registry after it.
`postMessage` also returns the event it dispatched and the listener callbacks
it invoked, in order. Listener callbacks are opaque ids (`nat`).

The hub follows the `EventTarget` algorithms of the WHATWG DOM Living
Standard:

- section 2.7: "add an event listener" appends an entry unless one with the
  same type, callback and capture exists; "remove an event listener" removes
  the entry that matches on all three; "flatten" derives the capture flag from
  a boolean or dictionary `options` argument;
- section 2.9: "dispatch" at a target that belongs to no tree runs "inner
  invoke" twice at that target, capturing phase then bubbling phase. Each
  phase visits the matching listeners in registration order.

Modules:

- `Slots`: the may-be-missing value used for the handler slots and the
  dictionary `capture` member.
- `EventTargets`: the hub. Listener list, add, remove, invoke, dispatch.
- `BroadcastChannels`: the registry, the handle, and the handle operations.
- `ChannelLaws`: laws that relate several calls. Covers delivery order and
  multiplicity, the ignored `type`, add/remove round trips, the advisory
  `close`, and same-name fan-out versus distinct-name isolation.
- `Traces`: arbitrary call sequences. The registry only gains the names that
  were constructed, and the hub invariant holds throughout.
- `PrototypeLookup`: the constructor's name test as written, and the defect
  it causes (see Findings).

Three behaviours that differ from what a reader of the platform
`BroadcastChannel` API might expect:

- Delivery includes the sender's own listeners.
- A listener registered twice with the same capture flag is stored once. The
  hub deduplicates, so registrations are not a multiset.
- Delivery order is registration order within each phase. Capture listeners
  come first, then the rest. When all listeners share one capture flag this
  is plain registration order (`ChannelLaws.RegistrationOrder`). Some
  `EventTarget` implementations invoke every listener at the target in
  registration order, ignoring capture; the two agree whenever capture flags
  agree.

## Model

| member | source | states |
|---|---|---|
| `BroadcastChannels.Construct` | test/setup.ts:12-16 | The new handle has the given name and empty handler slots, and its hub exists afterwards. The names afterwards are the old names plus this one. Every existing hub is unchanged, so a known name leaves the registry as it was. An unseen name gets exactly one new, empty hub. The hub invariant is kept. |
| `BroadcastChannels.Close` | test/setup.ts:18-20 | `close` keeps every name and every hub exactly as they were. |
| `BroadcastChannels.DispatchEvent` | test/setup.ts:22-24 | `dispatchEvent` answers `true` and keeps every name and hub. |
| `BroadcastChannels.PostMessage` | test/setup.ts:26-32 | The event has type "message" and its `data` is the payload, unchanged. The listeners invoked are exactly the "message" listeners of the sender's hub, in either phase. No name or hub changes. |
| `BroadcastChannels.AddEventListener` | test/setup.ts:42-52 | Whatever `type` is given, afterwards the hub of the handle's name holds the old entries (as a prefix) plus the entry ("message", listener, capture from `options`). It holds nothing else. Every other hub and the set of names are unchanged, and the invariant is kept. |
| `BroadcastChannels.RemoveEventListener` | test/setup.ts:62-72 | Whatever `type` is given, the hub loses at most the entry ("message", listener, capture from `options`); every other entry stays. On a valid registry that entry is gone afterwards. Other hubs and the set of names are unchanged, and the invariant is kept. That the remaining entries keep their order is `ChannelLaws.RemoveEventListenerSplits`. |
| `BroadcastChannels.SetOnMessage` | test/setup.ts:8 | Assigning `onmessage` stores the given handler and leaves the name and the `onmessageerror` slot as they were. |
| `BroadcastChannels.SetOnMessageError` | test/setup.ts:9 | Assigning `onmessageerror` stores the given handler and leaves the name and the `onmessage` slot as they were. |
| `EventTargets.Capture` | test/setup.ts:50 | DOM "flatten": the capture flag is set exactly when `options` is `true` or a dictionary whose `capture` member is `true`; an omitted argument or member means `false`. |
| `EventTargets.AddListener` | test/setup.ts:47-51 | DOM "add an event listener": the old list is a prefix of the new one. The members are the old ones plus the entry, which is appended only when absent. No duplicates are introduced. |
| `EventTargets.RemoveListener` | test/setup.ts:67-71 | DOM "remove an event listener": nothing is added, every non-matching entry stays, and a present entry shortens the list by one. An absent entry leaves the list unchanged. Which entry goes and the order of the rest are `EventTargets.RemoveSplits` and `EventTargets.RemoveFirstOccurrence`. |
| `EventTargets.RemoveKeepsNoDuplicates` | test/setup.ts:67-71 | On a list without duplicates, the removed entry is gone afterwards and the list still has no duplicates. |
| `EventTargets.RemoveSplits` | test/setup.ts:67-71 | When the entry does not occur in `a`, removing it from `a + [e] + b` gives `a + b`: the first occurrence goes and every other entry keeps its place and order. |
| `EventTargets.RemoveFirstOccurrence` | test/setup.ts:67-71 | A present entry has a first position `i`, and removal gives the list without position `i`, everything else in order. |
| `EventTargets.Invoke` | test/setup.ts:29-31 | DOM "inner invoke" for one phase: there are no more invocations than entries. |
| `EventTargets.InvokeMembers` | test/setup.ts:29-31 | One phase of "inner invoke" invokes a callback iff an entry of the event's type with that phase's capture flag holds it. |
| `EventTargets.Dispatch` | test/setup.ts:29-31 | DOM "dispatch" at the target: a callback is invoked iff it is registered for the event's type with either capture flag. |
| `EventTargets.InvokeAppend` | test/setup.ts:29-31 | Invocation keeps registration order: the invocations for a list `a + b` are those for `a` followed by those for `b`. |
| `EventTargets.InvokeAround` | test/setup.ts:29-31 | In one phase, the invocations for `a + [e] + b` are those for `a`, then `e`'s callback if `e` belongs to the phase, then those for `b`. |
| `EventTargets.DispatchAppend` | test/setup.ts:29-31 | Dispatch over `a + b` visits `a` then `b` in the capturing phase, then `a` then `b` in the bubbling phase. |
| `EventTargets.DispatchAroundCapture` | test/setup.ts:29-31 | For a capture entry `e` of the event's type, dispatch over `a + [e] + b` invokes `e`'s callback between the capture listeners of `a` and of `b`, before the bubbling phase. |
| `EventTargets.DispatchAroundBubble` | test/setup.ts:29-31 | For a non-capture entry `e` of the event's type, dispatch over `a + [e] + b` invokes `e`'s callback between the bubbling listeners of `a` and of `b`, after the whole capturing phase. |
| `EventTargets.InvokeAfterAdd` | test/setup.ts:47-51 | Adding an absent listener leaves each phase's earlier invocations unchanged. The new listener is appended to its own phase only. |
| `EventTargets.InvokeOnce` | test/setup.ts:29-31 | On a list without duplicates, each registered listener is invoked exactly once per phase, and an unregistered one never. |
| `EventTargets.InvokeEntries` | test/setup.ts:29-31 | Listeners registered with one capture flag are invoked in exactly their registration order in that phase, and not at all in the other phase. |
| `EventTargets.RemoveAppended` | test/setup.ts:67-71 | Removing an entry just appended to a list that lacked it gives the original list back. |
| `ChannelLaws.PostDeliversEachOnce` | test/setup.ts:26-31 | On a valid registry a post invokes each listener once per capture flag it is registered with on the sender's hub. It invokes no other listener. |
| `ChannelLaws.PostAfterAdd` | test/setup.ts:26-31 | After adding an absent listener, a post from any handle of that name invokes the old listeners in their old order. The new listener comes after every earlier listener of its phase. |
| `ChannelLaws.AddedListenerReceivesPosts` | test/setup.ts:42-52 | A listener added with any `type` is invoked by a later post from any handle of the same name, the adding handle included. The event carries the posted payload. |
| `ChannelLaws.TypeIsIgnored` | test/setup.ts:47-51 | Add and remove give the same registry for any two `type` arguments. |
| `ChannelLaws.AddTwice` | test/setup.ts:47-51 | Adding a listener again with the same capture flag changes nothing. This holds through any handle of the name and with any `type`. |
| `ChannelLaws.RemoveAbsent` | test/setup.ts:67-71 | Removing a listener not registered with that capture flag leaves the registry unchanged. |
| `ChannelLaws.RemoveEventListenerSplits` | test/setup.ts:62-72 | When the hub is `before + [entry] + after` and `before` lacks the entry, `removeEventListener` leaves exactly `before + after`, in order. |
| `ChannelLaws.PostAfterRemove` | test/setup.ts:26-72 | For a hub `before + [entry] + after`, a post invokes the listener at its place in its phase. After removing it, a post from any handle of the name invokes the same listeners in the same order, with only that one invocation left out. |
| `ChannelLaws.AddThenRemove` | test/setup.ts:42-72 | Adding an absent listener and then removing it with the same capture flag restores the registry. The types and handles of the name may be any. |
| `ChannelLaws.CloseThenPost` | test/setup.ts:18-31 | After `close`, the handle is still bound. A post reaches the same listeners with the same event as without the `close`. |
| `ChannelLaws.HandlerSlotsIgnored` | test/setup.ts:8-9 | Whatever is assigned to `onmessage` and `onmessageerror`, a post gives the same event and the same invoked listeners. |
| `ChannelLaws.SharedNameFanOut` | test/setup.ts:12-31 | Two handles built with one name share a hub. A listener added through the second is invoked by a post from the first, with the posted payload. On a fresh name it is the only listener invoked. |
| `ChannelLaws.DistinctNamesIsolated` | test/setup.ts:12-31 | Adding a listener through a handle of another name does not change whom a post reaches. A post on a fresh name reaches nobody. |
| `ChannelLaws.AddEachAppends` | test/setup.ts:47-51 | Adding distinct, absent listeners one after another appends their entries to the hub in call order. |
| `ChannelLaws.RegistrationOrder` | test/setup.ts:26-52 | Add k distinct listeners with one capture flag on a fresh name. A post then invokes each of them exactly once, in registration order. |
| `Traces.Step` | test/setup.ts:10-72 | Any single call keeps every name and the hub invariant. Only the constructor adds a name, and it adds exactly its own. |
| `Traces.Run` | test/setup.ts:10-72 | After any sequence of calls, the names are exactly those before plus those constructed. No name is ever removed, and the invariant holds. |
| `Traces.RunKeepsHandlesBound` | test/setup.ts:10-72 | A handle whose hub exists keeps it through any run. |
| `Traces.RunWithoutListenerChanges` | test/setup.ts:10-72 | A run with no add or remove call leaves every existing hub exactly as it was. |
| `PrototypeLookup.ConstructAsWritten` | test/setup.ts:13-15 | The constructor as written creates no hub for a name inherited from `Object.prototype`. Otherwise it adds the name, and it never changes an existing hub. |
| `PrototypeLookup.PostMessageAsWritten` | test/setup.ts:29-31 | `postMessage` as written throws exactly when the handle's name has no own hub. Otherwise it behaves as the modelled `postMessage` and invokes the hub's dispatch. |
| `PrototypeLookup.AddEventListenerAsWritten` | test/setup.ts:47-51 | `addEventListener` as written throws exactly when the handle's name has no own hub. Otherwise it behaves as the modelled `addEventListener` and the listener is registered. |
| `PrototypeLookup.RemoveEventListenerAsWritten` | test/setup.ts:67-71 | `removeEventListener` as written throws exactly when the handle's name has no own hub. Otherwise it behaves as the modelled `removeEventListener` and adds nothing to the hub. |
| `PrototypeLookup.InheritedNameThrows` | test/setup.ts:12-72 | For a name inherited from `Object.prototype`, construction leaves the registry unchanged. The handle's first post, add or remove then throws. |
| `PrototypeLookup.AsWrittenAgreesElsewhere` | test/setup.ts:13-15 | For every other name, the constructor as written equals the corrected one. |
| `PrototypeLookup.CorrectedNeverThrows` | test/setup.ts:12-72 | With a registry that holds only constructed names, a handle of any name posts, registers and unregisters without throwing. |

## Left out

- The `LockManager` installation (test/setup.ts:78) is an external library whose subject is concurrency.
- The `beforeAll` setup (test/setup.ts:80-108) is environment plumbing with a timer. It installs `TextEncoder`, `crypto.subtle` and the `fetch` mock, and overrides `window.location`.
- The `Log` level and logger setup (test/setup.ts:110-113) is configuration only.
- What listener callbacks do is not modelled. They are opaque ids, so a callback cannot add or remove listeners during a dispatch. Event objects carry only `type` and `data`.
- The `once`, `passive` and `signal` listener options are not modelled. The handles pass them through untouched and only the host's `EventTarget` acts on them.
- A `null` listener is not modelled. The TypeScript signature excludes it.
- Structured cloning of payloads is not modelled. The payload is a value of any type `D` and is delivered unchanged.
- The installation `globalThis.BroadcastChannel = ...` (test/setup.ts:75) is global wiring with no logic.
- Cross-context delivery semantics of the real platform API are not modelled. The real API skips only the posting object, delivers in a queued task and clones the payload. This stand-in also invokes listeners added through the posting handle, and it delivers synchronously.
- BroadcastChannels.Construct: tests the registry's own names and stores hubs as in a map, the corrected form of test/setup.ts:13-14. In JavaScript that needs a registry without a prototype (`Object.create(null)`) or a `Map`: an own-key test on the plain `{}` is not enough, because the assignment at test/setup.ts:14 for the name `"__proto__"` calls the inherited setter, adds no key, and so each construction with that name would replace the hub. The test as written, which also counts names inherited from `Object.prototype`, is `PrototypeLookup.ConstructAsWritten`.
- BroadcastChannels.AddEventListener: requires the handle's hub to exist, for the same reason as `PostMessage` below. The thrown TypeError for a missing hub is `PrototypeLookup.AddEventListenerAsWritten`.
- BroadcastChannels.RemoveEventListener: requires the handle's hub to exist, for the same reason as `PostMessage` below. The thrown TypeError for a missing hub is `PrototypeLookup.RemoveEventListenerAsWritten`.
- BroadcastChannels.PostMessage: requires the handle's hub to exist. Every handle comes from the constructor, which creates the hub, and `Traces.Run` shows that no call removes it. The thrown TypeError for a missing hub is modelled separately in `PrototypeLookup`.

## Findings

| source | as written | input that shows it | evidently intended | confidence | as-written member | corrected member |
|---|---|---|---|---|---|---|
| test/setup.ts:13-15 | `name in _eventTargets` on a plain object literal is also true for properties inherited from `Object.prototype`. For such a name no hub is created, and `_eventTargets[this.name]` later yields a built-in with no `dispatchEvent`, `addEventListener` or `removeEventListener`, so `postMessage`, `addEventListener` and `removeEventListener` throw a TypeError. | `new BroadcastChannel("constructor")` (likewise `"toString"`, `"__proto__"`, ...) followed by `postMessage(x)` | Keep the hubs in a registry without a prototype (`Object.create(null)`) or in a `Map`, so that the test sees only names constructed before and construction with any name, `"__proto__"` included, creates a hub and no handle call throws. Testing own keys alone on the plain `{}` would still lose the hub for `"__proto__"`, whose assignment goes to the inherited setter. | not executed; medium-high | `PrototypeLookup.InheritedNameThrows` | `PrototypeLookup.CorrectedNeverThrows` |
