# Cocoon legacy shim: event handlers, signals and clone

This project models the part of the Cocoon compatibility shim
(`src/js/cocoon_legacy.js`) that keeps its own state when the native bridge
is not there:

- **`Cocoon.EventHandler`**: a registry for one event. It holds a persistent
  listener list and a fire-once list.
  - `addEventListener` never stores the same function twice; with a chain
    function the function stored is a fresh wrapper each time.
  - `removeEventListener` and `removeEventListenerOnce` take out the first
    identity match.
  - `notifyEventListeners` snapshots both lists, queues a deferred delivery of
    the snapshots and empties the once list at once.
  - An optional chain function wraps each listener. A back-reference on the
    original function lets removal find the wrapper.
  - When the extension object's `nativeAvailable` flag is set, every call is
    forwarded to the bridge and the local lists are left alone.
- **`Cocoon.createSignal`**: a registry from signal names to one handler or to
  a group of named handlers.
  - `register` stores a handler, or an object whose `addEventListener` is set,
    as is; any other object it copies into a group of its own properties. An
    object whose `hasOwnProperty` reads as one of its EventHandlers makes the
    copy throw a `TypeError` once an empty group is stored.
  - The `on` function returned by `expose` makes one registration on a single
    handler, or one per own property of a group, each through a freshly made
    wrapper around the callback.
- **`Cocoon.clone`**: lists the values of an object's enumerable properties in
  enumeration order. Each value comes from a second object instead when that
  object has the property as its own.

Files:

- `sequences.dfy`: identity lookup, first-match removal and ordered filtering
  on sequences (`indexOf`, `splice(i, 1)`, a `for..in` with `hasOwnProperty`).
- `js.dfy`: script values, thrown errors, plain objects with their property
  order, and the extension objects found by path.
- `event_handler.dfy`: listeners (a class, since functions are compared by
  identity and carry the chain back-reference), the `EventHandler` class, and
  the pure local transitions its methods are proved to perform.
- `handler_properties.dfy`: what any sequence of local calls guarantees.
- `fanout.dfy`: what the registrations made by `on` do to the handlers they
  reach, one handler at a time and over a whole group, stated on their local
  states.
- `signals.dfy`: the `Signal` registry, `register`, `on` and the one-argument
  `on(name).remove` handle.
- `clone.dfy`: `Cocoon.clone`.

Each stateful method's `ensures` ties the new state to a pure transition of
the old state (`Added`, `AddedOnce`, `Removed`, `RemovedOnce`, `Notified`).
The lemmas state what those transitions promise: one at a time, and over whole
runs of calls.

The `setTimeout(..., 0)` deferral is a per-handler queue `pending` of
deliveries. A delivery holds the two snapshots and the argument array.
`RunDeferred` stands for the host running the oldest one. It returns the
invocations performed, in order.

Four behaviours of the code a reader may not expect:

- With a chain function, removing a listener that has no recorded wrapper
  throws a `TypeError` (a `delete` on `undefined`). It is not a no-op.
- That `delete` clears the property on the wrapper, not on the original, so
  the original keeps its back-reference after removal.
- With a chain function, adding the same listener twice stores two distinct
  wrappers, since each add makes a new one. The listener then records only the
  later wrapper, so `removeEventListener` takes out that one and the earlier
  stays registered. Adding is idempotent only without a chain function.
- With a chain function, a once registration can never be removed.
  `addEventListenerOnce` records its wrapper nowhere, so
  `removeEventListenerOnce` of the same listener either throws (nothing
  recorded) or targets a persistent wrapper, which is not in the once list.

## Model

| member | source | states |
|---|---|---|
| Sequences.IndexOf | src/js/cocoon_legacy.js:198 | `indexOf` by identity: -1 exactly when absent, otherwise the position of the first occurrence |
| Sequences.RemoveFirst | src/js/cocoon_legacy.js:250-253 | the lookup plus `splice(i, 1)` removes exactly the first occurrence, and leaves the sequence unchanged when the element is absent; one copy leaves the multiset |
| Sequences.Filter | src/js/cocoon_legacy.js:346-350 | keeps exactly the elements that pass the own-property test, in order, and never grows |
| Sequences.FilterDistinct | src/js/cocoon_legacy.js:346-350 | filtering a duplicate-free key list gives a duplicate-free list |
| Sequences.AppendIfAbsentOnce | src/js/cocoon_legacy.js:198-201 | after the guarded push the element occurs exactly once, and the list stays duplicate-free |
| Sequences.RemoveFirstDistinct | src/js/cocoon_legacy.js:250-253 | removing from a duplicate-free list leaves the element absent and the list duplicate-free |
| Sequences.RemoveFirstUndoesAppend | src/js/cocoon_legacy.js:250-253 | removing an element that was just appended to a list without it gives back the list |
| EventHandlers.Added | src/js/cocoon_legacy.js:198-201 | a local add leaves the listener present, appends it exactly when it was absent (the old list is a prefix of the new), and changes neither the once list nor the queue |
| EventHandlers.AddedOnce | src/js/cocoon_legacy.js:224-227 | a local once add appends the listener to the once list exactly when it is not in the persistent list; the persistent list and the queue are unchanged |
| EventHandlers.Removed | src/js/cocoon_legacy.js:250-253 | a local remove takes exactly one copy of the listener (if any) out of the persistent list; the once list and the queue are unchanged |
| EventHandlers.RemovedOnce | src/js/cocoon_legacy.js:269-272 | a local once remove takes exactly one copy out of the once list; the persistent list and the queue are unchanged |
| EventHandlers.Notified | src/js/cocoon_legacy.js:288-302 | a local notification keeps the persistent list, empties the once list, and queues one more delivery holding the two lists as they were and the arguments, behind those already queued |
| EventHandlers.Deliver | src/js/cocoon_legacy.js:293-300 | the deferred callback invokes every persistent snapshot entry in order, then every once snapshot entry in order, all with the same arguments |
| EventHandlers.EventHandler.constructor | src/js/cocoon_legacy.js:171-174 | a new handler has both lists empty and nothing queued |
| EventHandlers.EventHandler.AddEventListener | src/js/cocoon_legacy.js:183-203 | with a chain function a fresh wrapper around the listener is recorded on it and stored instead; without the bridge the stored function is appended only if absent; with the bridge the lists are unchanged |
| EventHandlers.EventHandler.AddEventListenerOnce | src/js/cocoon_legacy.js:212-229 | a missing extension object throws; with a chain function a fresh, unrecorded wrapper is used; without the bridge it is appended to the once list only when absent from the persistent list |
| EventHandlers.EventHandler.ResolveRemoval | src/js/cocoon_legacy.js:240-243 | with a chain function the removal targets the wrapper recorded on the listener (none: null) and clears that wrapper's own back-reference; without one it targets the listener |
| EventHandlers.EventHandler.SpliceOut | src/js/cocoon_legacy.js:250-253 | the local lookup and `splice(i, 1)` move the persistent list as `Removed` states, keeping it duplicate-free |
| EventHandlers.EventHandler.SpliceOutOnce | src/js/cocoon_legacy.js:269-272 | the local lookup and `splice(i, 1)` move the once list as `RemovedOnce` states |
| EventHandlers.EventHandler.RemoveEventListener | src/js/cocoon_legacy.js:238-255 | with a chain function the recorded wrapper is looked up (missing: throws) and its own back-reference cleared; without the bridge its first occurrence leaves the persistent list; the once list is untouched |
| EventHandlers.EventHandler.RemoveEventListenerOnce | src/js/cocoon_legacy.js:257-274 | the same resolution, then the first occurrence leaves the once list; the persistent list is untouched |
| EventHandlers.OnceWrapperStays | src/js/cocoon_legacy.js:212-274 | with a chain function and the local path, the wrapper a once add stores is still in the once list after `removeEventListenerOnce` of the same listener, which throws when no wrapper was recorded on the listener |
| EventHandlers.EventHandler.NotifyEventListeners | src/js/cocoon_legacy.js:282-304 | without the bridge a delivery of both snapshots and the arguments is queued and the once list emptied, the persistent list unchanged; with the bridge nothing local changes |
| EventHandlers.EventHandler.RunDeferred | src/js/cocoon_legacy.js:293-300 | running the oldest queued delivery performs exactly its invocations in order, and changes neither list |
| HandlerProperties.AddIsIdempotent | src/js/cocoon_legacy.js:198-201 | adding the same stored listener twice is the same as adding it once |
| HandlerProperties.AddStoresExactlyOnce | src/js/cocoon_legacy.js:198-201 | after a local add the listener occurs exactly once in a duplicate-free persistent list; the once list and the queue are unchanged |
| HandlerProperties.RemoveUndoesAdd | src/js/cocoon_legacy.js:250-253 | removing a listener that an add had appended restores the earlier state |
| HandlerProperties.AddOnceChecksPersistentList | src/js/cocoon_legacy.js:224-227 | the once add is a no-op exactly for a listener already persistent; any other listener can be queued twice; the persistent list never changes |
| HandlerProperties.SecondNotifySeesNoOnceListeners | src/js/cocoon_legacy.js:288-302 | two notifications in one turn queue the once snapshot with the first only; the second gets an empty once snapshot |
| HandlerProperties.SnapshotsAreStable | src/js/cocoon_legacy.js:288-290 | no later sequence of adds, removes and notifications alters a delivery already queued |
| HandlerProperties.RemovedListenerStillDelivered | src/js/cocoon_legacy.js:289-295 | a listener removed after a notification is still in that notification's persistent snapshot |
| HandlerProperties.RunKeepsListenersDistinct | src/js/cocoon_legacy.js:198-201 | no sequence of local calls stores a listener twice in the persistent list |
| HandlerProperties.OnceDeliveriesBoundedByAdds | src/js/cocoon_legacy.js:297-302 | the once-deliveries still owed to a listener never exceed the ones owed before plus the number of its once adds |
| HandlerProperties.OnceListenerDeliveredAtMostOnce | src/js/cocoon_legacy.js:297-302 | a listener added once with `addEventListenerOnce` is queued for at most one once-delivery |
| HandlerProperties.StepOnceOrigin | src/js/cocoon_legacy.js:224-227 | a single local call puts a listener on the once list only if it is `addEventListenerOnce` of that listener |
| HandlerProperties.OnceEntriesComeFromAddOnce | src/js/cocoon_legacy.js:224-227 | every once-list entry was there before or was put there by an `addEventListenerOnce` call |
| HandlerProperties.SecondDeliveryOnlyHasNewOnceListeners | src/js/cocoon_legacy.js:290-302 | the once snapshot of a later notification holds only listeners once-added since the previous one |
| Signals.CollectOwn | src/js/cocoon_legacy.js:346-350 | the `for..in` with `hasOwnProperty` collects exactly the keys that pass the own-property test, in enumeration order, each with the value read for it |
| Signals.CopyOwnProperties | src/js/cocoon_legacy.js:344-351 | the group copy holds exactly the own enumerable properties of the handle, in enumeration order, each once, with their values |
| FanOut.Registrations | src/js/cocoon_legacy.js:405-409 | the number of property names leading to a handler is at most the number of names, and zero exactly when no name leads to it |
| FanOut.SnapshotEntries | src/js/cocoon_legacy.js:405-409 | the member states of a group, listed per property name, hold at each position the current state of the member that name leads to |
| FanOut.SnapshotOf | src/js/cocoon_legacy.js:405-409 | every position whose name leads to a given member holds that member's current state |
| FanOut.SnapshotAfter | src/js/cocoon_legacy.js:409-420 | after a change to one member only, the new member states differ from the old exactly at the names leading to it |
| FanOut.GrownStep | src/js/cocoon_legacy.js:405-423 | if each member without the bridge has gained one entry per earlier name leading to it, one more registration keeps that true for one more name |
| FanOut.ProgressStep | src/js/cocoon_legacy.js:405-423 | both of the above together: the fan-out progresses by one name |
| FanOut.StepDone | src/js/cocoon_legacy.js:405-423 | after one registration that changed only its own member, the fan-out has either progressed by one name or ended with the throw |
| Signals.Attach | src/js/cocoon_legacy.js:393-402 | a single-handler registration makes a fresh wrapper around the callback; only a missing extension object on the once path throws; without the bridge exactly one entry holding the wrapper is appended to the chosen list (the old list is a prefix of the new), and the other list and the queue are unchanged; with the bridge the handler is unchanged |
| Signals.AttachNext | src/js/cocoon_legacy.js:409-420 | one group registration makes a fresh wrapper calling `callback[name]` and registers it on that member as `Attach` does; every other member is unchanged, no queue changes, and the fan-out has either progressed by one name or ended with the throw |
| Signals.AttachAll | src/js/cocoon_legacy.js:405-423 | the fan-out makes one fresh wrapper per own property, in order, and stops at the first throw, which only a member without its extension object on the once path causes; every member without the bridge keeps its old chosen list as a prefix of the new one, grown by exactly the number of names so far leading to it and holding each of their wrappers; its other list and every queue are unchanged; members with the bridge are unchanged |
| Signals.Signal.constructor | src/js/cocoon_legacy.js:323-324 | a new registry holds no signal |
| Signals.Signal.Register | src/js/cocoon_legacy.js:335-355 | a falsy name with a nullish handle throws "Can't create signal", any other nullish handle throws a TypeError; a handler is stored as is, and so is any other object whose `addEventListener` reads as set; any other object is stored as a copy of its own properties, which then has no `addEventListener` member, unless the object's `hasOwnProperty` reads as one of its EventHandlers and there is a key to test: then the empty group stays stored and a TypeError is thrown; every success returns true |
| Signals.Signal.On | src/js/cocoon_legacy.js:387-423 | throws "signal does not exist" exactly when the entry is missing or cleared; a single handler gets exactly one fresh wrapper around the callback, registered as `Attach` states; a group gets one fresh wrapper per own property, calling that property of the callback, with every member changed as `AttachAll` states; an object stored as is throws a TypeError (its `addEventListener` is not a function) and registers nothing; `once` chooses the once list; no queue changes |
| Signals.Signal.RemoveThroughHandle | src/js/cocoon_legacy.js:371-385 | for a single handler the handle calls its `removeEventListener` with the registry as `this`: the entry is cleared only on the bridge path, the local path throws, and the handler's lists never change; any other entry with a `removeEventListener` property throws at the `apply` and stays; without one nothing changes |
| Clone.Clone | src/js/cocoon_legacy.js:83-94 | a non-object comes back unchanged; for an object the array has one item per enumerable key, in order, from the copy object when it owns the key and from the object otherwise; a null copy throws unless there is no key |

## Left out

- `Cocoon.callNative` and `Cocoon.nativeAvailable` are foreign calls into the host `ext` object and are not modelled. The extension object's flag is an input, the `Env` map.
- The bridge branches of the EventHandler methods only forward to `ext[...]`. The model states that the local state is then unchanged, and drops the forwarding and the arguments it passes.
- `setTimeout` scheduling is modelled only as the `pending` queue, whose oldest entry `RunDeferred` runs. The receiver binding `this || window` is not modelled.
- A listener that calls back into the handler while a delivery runs is not modelled. `Deliver` returns the invocations as a trace instead of performing them.
- `Cocoon.getObjectFromPath` walks properties reflectively. It is modelled only as a lookup that yields a missing, bridged or non-bridged extension object. A dotted path with a missing part before its last throws a TypeError in the source (src/js/cocoon_legacy.js:148-150, reading a property of `undefined`); the model's `Lookup` gives a missing object instead, so add and notify take the local path there. The `undefined` properties the walk writes along the path are not modelled.
- The handler's constructor arguments `nativeExtensionObjectName` and `nativeEventName` are used only by the bridge branches, so the model has no such fields.
- Signals.Signal.Register: a non-nullish primitive handle (a number, a non-empty string) is not modelled. The second argument is null/undefined, an EventHandler, or another object whose property values are all EventHandlers; a duck-typed handler (an object whose `addEventListener` is its own function) is not modelled.
- Signals.Signal.On: every group member is assumed to be an EventHandler. A member without `addEventListener` would throw in the source, and the model does not represent it.
- Signals.Signal.On: a signal name inherited from `Object.prototype` (`toString`, `constructor`, …) is treated as unregistered. In the source it passes the existence test, has no `addEventListener`, and `on` returns without registering anything.
- EventHandlers.Deliver: a listener that throws ends the delivery in the source (src/js/cocoon_legacy.js:293-300), so later listeners in that delivery are not called. The model invokes every entry; EventHandlers.EventHandler.RunDeferred inherits this.
- Signals.Signal.Register: an object with a null prototype is not modelled. Its `addEventListener` and `hasOwnProperty` read as undefined, so the source stores `{}` and throws a TypeError at the first key's `hasOwnProperty` call (src/js/cocoon_legacy.js:345-347). The model copies such an object as one with the built-in `hasOwnProperty`.
- Clone.Clone: the model assumes `copy.hasOwnProperty` is the built-in method. A copy with its own or an inherited `hasOwnProperty` property, or with a null prototype, makes the source call something else at line 87, or throw a TypeError there when it is not a function. The model returns the `Pick` array.
- Signals.Signal.Register: the final "Can't create handler" throw is unreachable, because the two `if`s before it cover every handle, so it has no counterpart.
- Clone.Clone: a primitive second argument is boxed by `hasOwnProperty`. The model takes an object or null/undefined, so a primitive copy is modelled by the object it boxes to: a number or boolean owns nothing, a string owns its index keys and `length`.
- Module bootstrap and the legacy aliases at the end of the file are global wiring and are not modelled.
