/** `Cocoon.EventHandler`: a per-event listener registry with a persistent list
    and a fire-once list. With the bridge (an extension whose `nativeAvailable`
    is set) every call is forwarded and the local lists stay as they are;
    without it the lists are kept here and notification queues a deferred
    delivery of a snapshot of both lists. */
module EventHandlers {
  import opened Js
  import opened Sequences

  /** What a stored callable does when it is invoked. */
  datatype Target =
    | Script(fn: nat)                              // a function of the application
    | ChainWrap(chain: nat, source: Listener)      // calls the chain function with `source` and the arguments
    | Callback(callback: nat)                      // `on`'s wrapper around a single-handler callback
    | CallbackMember(callback: nat, name: string)  // `on`'s bound wrapper calling `callback[name]`

  /** A script function: compared by identity. `chainWrapper` is the
      `CocoonEventHandlerChainFunction` property that a chained
      `addEventListener` leaves on the function it wraps. */
  class Listener {
    const target: Target
    var chainWrapper: Listener?

    constructor (target: Target)
      ensures this.target == target && chainWrapper == null
    {
      this.target := target;
      chainWrapper := null;
    }
  }

  /** A delivery queued by `setTimeout(..., 0)`: the snapshots of both lists and the arguments. */
  datatype Delivery = Delivery(persistent: seq<Listener>, once: seq<Listener>, args: seq<Value>)

  /** One `listener.apply(handler, args)` performed by a delivery. */
  datatype Invocation = Invocation(listener: Listener, args: seq<Value>)

  /** Every persistent snapshot entry in order, then every once snapshot entry
      in order, each invoked with the same argument array. */
  ghost predicate DeliversInOrder(d: Delivery, calls: seq<Invocation>) {
    && |calls| == |d.persistent| + |d.once|
    && (forall i :: 0 <= i < |d.persistent| ==> calls[i] == Invocation(d.persistent[i], d.args))
    && (forall j :: 0 <= j < |d.once| ==> calls[|d.persistent| + j] == Invocation(d.once[j], d.args))
  }

  /** The body of the deferred callback: the two delivery loops over the snapshots. */
  method Deliver(d: Delivery) returns (calls: seq<Invocation>)
    ensures DeliversInOrder(d, calls)
  {
    calls := [];
    var i := 0;
    while i < |d.persistent|
      invariant 0 <= i <= |d.persistent|
      invariant |calls| == i
      invariant forall k :: 0 <= k < i ==> calls[k] == Invocation(d.persistent[k], d.args)
    {
      calls := calls + [Invocation(d.persistent[i], d.args)];
      i := i + 1;
    }
    i := 0;
    while i < |d.once|
      invariant 0 <= i <= |d.once|
      invariant |calls| == |d.persistent| + i
      invariant forall k :: 0 <= k < |d.persistent| ==> calls[k] == Invocation(d.persistent[k], d.args)
      invariant forall k :: 0 <= k < i ==> calls[|d.persistent| + k] == Invocation(d.once[k], d.args)
    {
      calls := calls + [Invocation(d.once[i], d.args)];
      i := i + 1;
    }
  }

  /** The local state of one handler: both lists and the deliveries not yet run. */
  datatype LocalState = LocalState(listeners: seq<Listener>, once: seq<Listener>, pending: seq<Delivery>)

  /** Local `addEventListener` of the listener actually stored: afterwards it is
      present, and it was appended exactly when it was absent. */
  function Added(s: LocalState, l: Listener): (t: LocalState)
    ensures t.once == s.once && t.pending == s.pending
    ensures l in t.listeners && s.listeners <= t.listeners
    ensures |t.listeners| == |s.listeners| + (if l in s.listeners then 0 else 1)
  {
    s.(listeners := AppendIfAbsent(s.listeners, l))
  }

  /** Local `addEventListenerOnce`: the duplicate test looks in the persistent list,
      so a listener already in the once list is queued again. */
  function AddedOnce(s: LocalState, l: Listener): (t: LocalState)
    ensures t.listeners == s.listeners && t.pending == s.pending
    ensures s.once <= t.once
    ensures multiset(t.once) == multiset(s.once) + (if l in s.listeners then multiset{} else multiset{l})
  {
    if l in s.listeners then s else s.(once := s.once + [l])
  }

  /** Local `removeEventListener` of the listener actually stored: one copy leaves
      the persistent list, the once list is untouched. */
  function Removed(s: LocalState, l: Listener): (t: LocalState)
    ensures t.once == s.once && t.pending == s.pending
    ensures multiset(t.listeners) == multiset(s.listeners) - multiset{l}
  {
    s.(listeners := RemoveFirst(s.listeners, l))
  }

  /** Local `removeEventListenerOnce` of the listener actually stored: one copy
      leaves the once list, the persistent list is untouched. */
  function RemovedOnce(s: LocalState, l: Listener): (t: LocalState)
    ensures t.listeners == s.listeners && t.pending == s.pending
    ensures multiset(t.once) == multiset(s.once) - multiset{l}
  {
    s.(once := RemoveFirst(s.once, l))
  }

  /** Local `notifyEventListeners`: queue the snapshots, then empty the once list at once. */
  function Notified(s: LocalState, args: seq<Value>): (t: LocalState)
    ensures t.listeners == s.listeners && t.once == []
    ensures |t.pending| == |s.pending| + 1 && t.pending[..|s.pending|] == s.pending
    ensures t.pending[|s.pending|] == Delivery(s.listeners, s.once, args)
  {
    LocalState(s.listeners, [], s.pending + [Delivery(s.listeners, s.once, args)])
  }

  /** The chain wrapper recorded on `l`, as a frame. */
  function WrapperOf(l: Listener): (ws: set<Listener>)
    reads l
  {
    if l.chainWrapper == null then {} else {l.chainWrapper}
  }

  /** The effect of `h.addEventListener(l)`: with a chain function a fresh wrapper
      is recorded on `l` and stored instead of `l`; the bridge path leaves the lists alone. */
  twostate predicate AddEffect(h: EventHandler, new l: Listener, env: Env)
    reads h, l
  {
    var stored := if h.chain.Some? then l.chainWrapper else l;
    && stored != null
    && (h.chain.Some? ==> fresh(stored) && stored.target == ChainWrap(h.chain.value, l))
    && h.State() == if Bridged(Lookup(env, h.extensionPath)) then old(h.State()) else Added(old(h.State()), stored)
  }

  /** The effect of `h.addEventListenerOnce(l)`: a missing extension object makes the
      `nativeAvailable` read throw; with a chain function a fresh wrapper, recorded
      nowhere, is stored instead of `l`. */
  twostate predicate OnceEffect(h: EventHandler, new l: Listener, env: Env, r: Outcome)
    reads h
  {
    var ext := Lookup(env, h.extensionPath);
    && r == (if ext.Undefined? then Threw(TypeError) else Returned)
    && if ext != Loaded(false) then h.State() == old(h.State())
       else if h.chain.None? then h.State() == AddedOnce(old(h.State()), l)
       else
         && |h.listenersOnce| > 0
         && var w := h.listenersOnce[|h.listenersOnce| - 1];
            && fresh(w)
            && w.target == ChainWrap(h.chain.value, l)
            && h.State() == AddedOnce(old(h.State()), w)
  }

  /** The effect of `h.removeEventListener(l)` (or of the once variant): with a chain
      function `l` is first replaced by the wrapper recorded on it, and a missing
      record makes the `delete` throw; a missing extension object throws. */
  twostate predicate RemoveEffect(h: EventHandler, l: Listener, env: Env, r: Outcome, fromOnce: bool)
    reads h, l
  {
    var target := if h.chain.Some? then old(l.chainWrapper) else l;
    var ext := Lookup(env, h.extensionPath);
    if target == null then r == Threw(TypeError) && h.State() == old(h.State())
    else
      && r == (if ext.Undefined? then Threw(TypeError) else Returned)
      && h.State() ==
           if ext != Loaded(false) then old(h.State())
           else if fromOnce then RemovedOnce(old(h.State()), target)
           else Removed(old(h.State()), target)
  }

  class EventHandler {
    /** The path of the feature object whose `nativeAvailable` selects the bridge. */
    const extensionPath: string
    /** The optional chain function, by identity. */
    const chain: Option<nat>
    var listeners: seq<Listener>
    var listenersOnce: seq<Listener>
    /** Deferred deliveries queued by local notifications, oldest first. */
    var pending: seq<Delivery>

    /** A listener occurs at most once in the persistent list. */
    ghost predicate Valid()
      reads this
    {
      Distinct(listeners)
    }

    function State(): (s: LocalState)
      reads this
    {
      LocalState(listeners, listenersOnce, pending)
    }

    constructor (extensionPath: string, chain: Option<nat>)
      ensures this.extensionPath == extensionPath && this.chain == chain
      ensures Valid() && State() == LocalState([], [], [])
    {
      this.extensionPath := extensionPath;
      this.chain := chain;
      listeners := [];
      listenersOnce := [];
      pending := [];
    }

    method AddEventListener(listener: Listener, env: Env)
      requires Valid()
      modifies this, listener
      ensures Valid()
      ensures AddEffect(this, listener, env)
      ensures chain.None? ==> listener.chainWrapper == old(listener.chainWrapper)
    {
      var stored := listener;
      if chain.Some? {
        var f := new Listener(ChainWrap(chain.value, listener));
        listener.chainWrapper := f;
        stored := f;
      }
      if !Bridged(Lookup(env, extensionPath)) {
        var i := IndexOf(listeners, stored);
        if i < 0 {
          listeners := listeners + [stored];
        }
      }
    }

    method AddEventListenerOnce(listener: Listener, env: Env) returns (r: Outcome)
      requires Valid()
      modifies this
      ensures Valid()
      ensures OnceEffect(this, listener, env, r)
    {
      var stored := listener;
      if chain.Some? {
        stored := new Listener(ChainWrap(chain.value, listener));
      }
      var ext := Lookup(env, extensionPath);
      if ext.Undefined? {
        return Threw(TypeError);
      }
      r := Returned;
      if !ext.nativeAvailable {
        var i := IndexOf(listeners, stored);
        if i < 0 {
          listenersOnce := listenersOnce + [stored];
        }
      }
    }

    /** The chain lookup both removals begin with: the wrapper recorded on `l`,
        whose own back-reference the `delete` then clears; null when none is recorded. */
    method ResolveRemoval(l: Listener) returns (target: Listener?)
      modifies WrapperOf(l)
      ensures target == if chain.Some? then old(l.chainWrapper) else l
      ensures chain.Some? && target != null ==> target.chainWrapper == null
    {
      target := l;
      if chain.Some? {
        target := l.chainWrapper;
        if target != null {
          target.chainWrapper := null;
        }
      }
    }

    /** The local removal from the persistent list: `indexOf`, then `splice(i, 1)` when found. */
    method SpliceOut(target: Listener)
      requires Valid()
      modifies this
      ensures Valid()
      ensures State() == Removed(old(State()), target)
    {
      RemoveFirstDistinct(listeners, target);
      var i := IndexOf(listeners, target);
      if i >= 0 {
        listeners := listeners[..i] + listeners[i + 1..];
      }
    }

    /** The local removal from the once list: `indexOf`, then `splice(i, 1)` when found. */
    method SpliceOutOnce(target: Listener)
      modifies this
      ensures State() == RemovedOnce(old(State()), target)
    {
      var i := IndexOf(listenersOnce, target);
      if i >= 0 {
        listenersOnce := listenersOnce[..i] + listenersOnce[i + 1..];
      }
    }

    method RemoveEventListener(listener: Listener, env: Env) returns (r: Outcome)
      requires Valid()
      modifies this, WrapperOf(listener)
      ensures Valid()
      ensures RemoveEffect(this, listener, env, r, false)
      ensures chain.Some? && old(listener.chainWrapper) != null ==> old(listener.chainWrapper).chainWrapper == null
    {
      var target := ResolveRemoval(listener);
      if target == null {
        return Threw(TypeError);
      }
      var ext := Lookup(env, extensionPath);
      if ext.Undefined? {
        return Threw(TypeError);
      }
      r := Returned;
      if !ext.nativeAvailable {
        SpliceOut(target);
      }
    }

    method RemoveEventListenerOnce(listener: Listener, env: Env) returns (r: Outcome)
      requires Valid()
      modifies this, WrapperOf(listener)
      ensures Valid()
      ensures RemoveEffect(this, listener, env, r, true)
      ensures chain.Some? && old(listener.chainWrapper) != null ==> old(listener.chainWrapper).chainWrapper == null
    {
      var target := ResolveRemoval(listener);
      if target == null {
        return Threw(TypeError);
      }
      var ext := Lookup(env, extensionPath);
      if ext.Undefined? {
        return Threw(TypeError);
      }
      r := Returned;
      if !ext.nativeAvailable {
        SpliceOutOnce(target);
      }
    }

    method NotifyEventListeners(args: seq<Value>, env: Env)
      requires Valid()
      modifies this
      ensures Valid()
      ensures State() == if Bridged(Lookup(env, extensionPath)) then old(State()) else Notified(old(State()), args)
    {
      if !Bridged(Lookup(env, extensionPath)) {
        var snapshot := listeners;
        var snapshotOnce := listenersOnce;
        pending := pending + [Delivery(snapshot, snapshotOnce, args)];
        listenersOnce := [];
      }
    }

    /** The host running the oldest queued delivery. */
    method RunDeferred() returns (calls: seq<Invocation>)
      requires pending != []
      modifies this
      ensures listeners == old(listeners) && listenersOnce == old(listenersOnce)
      ensures pending == old(pending)[1..]
      ensures DeliversInOrder(old(pending)[0], calls)
    {
      var d := pending[0];
      pending := pending[1..];
      calls := Deliver(d);
    }
  }

  /** With a chain function a once registration cannot be taken back: the wrapper
      `addEventListenerOnce` stores is recorded nowhere, so `removeEventListenerOnce`
      of the same listener throws when nothing is recorded on it and otherwise
      targets an older wrapper. Either way the stored wrapper stays. */
  method OnceWrapperStays(h: EventHandler, l: Listener, env: Env) returns (w: Listener, r: Outcome)
    requires h.Valid() && h.chain.Some? && Lookup(env, h.extensionPath) == Loaded(false)
    modifies h, WrapperOf(l)
    ensures fresh(w) && w.target == ChainWrap(h.chain.value, l)
    ensures w in h.listenersOnce
    ensures old(l.chainWrapper) == null ==> r == Threw(TypeError)
  {
    var added := h.AddEventListenerOnce(l, env);
    w := h.listenersOnce[|h.listenersOnce| - 1];
    r := h.RemoveEventListenerOnce(l, env);
    assert w in multiset(h.listenersOnce);
  }
}
