/** `Cocoon.createSignal`: a registry from signal names to one EventHandler or
    to a group of named EventHandlers, with `register` and the subscription
    function returned by `expose`. */
module Signals {
  import opened Js
  import opened Sequences
  import opened EventHandlers
  import opened FanOut

  /** What `signals[name]` holds. */
  datatype Entry =
    | Single(handler: EventHandler)
    | Group(names: seq<string>, members: map<string, EventHandler>)  // own properties in enumeration order
    | Plain(obj: JsObject<EventHandler>)                             // an object with `addEventListener`, stored as is
    | Cleared                                                        // the undefined the remove handle writes
  {
    /** A group lists each of its members' names exactly once. */
    predicate GroupShaped() {
      && Group?
      && Distinct(names)
      && (forall k :: k in members ==> k in names)
      && (forall i :: 0 <= i < |names| ==> names[i] in members)
    }

    /** What `register` guarantees: a group is shaped and has no `addEventListener`
        member, an object stored as is has one. */
    predicate WellFormed() {
      && (Group? ==> GroupShaped() && "addEventListener" !in members)
      && (Plain? ==> "addEventListener" in obj.props)
    }

    /** Whether an entry that is not a handler has a `removeEventListener` property:
        an EventHandler, which has no `apply` for the remove handle to call. */
    predicate HasRemoveProperty() {
      match this
      case Group(_, members) => "removeEventListener" in members
      case Plain(obj) => "removeEventListener" in obj.props
      case _ => false
    }

    function Handlers(): (hs: set<EventHandler>) {
      match this
      case Single(h) => {h}
      case Group(_, members) => members.Values
      case _ => {}
    }
  }

  /** The second argument of `register`: null or undefined, an EventHandler, or
      any other object, whose property values are EventHandlers. */
  datatype HandleArg =
    | Nullish
    | Handler(handler: EventHandler)
    | Props(obj: JsObject<EventHandler>)

  /** The `for..in` of the group copy: the names among `keys` that pass `hasOwnProperty`,
      in order, each with the value read for it. */
  method CollectOwn(keys: seq<string>, own: set<string>, props: map<string, EventHandler>)
    returns (names: seq<string>, members: map<string, EventHandler>)
    requires own <= props.Keys
    ensures names == Filter(keys, own)
    ensures forall k :: k in members ==> k in names
    ensures forall i :: 0 <= i < |names| ==> names[i] in members
    ensures forall k :: k in members ==> k in own && members[k] == props[k]
  {
    names := [];
    members := map[];
    var i := 0;
    while i < |keys|
      invariant 0 <= i <= |keys|
      invariant names == Filter(keys[..i], own)
      invariant forall k :: k in members ==> k in names
      invariant forall j :: 0 <= j < |names| ==> names[j] in members
      invariant forall k :: k in members ==> k in own && members[k] == props[k]
    {
      var prop := keys[i];
      assert keys[..i + 1][..i] == keys[..i];
      if prop in own {
        names := names + [prop];
        members := members[prop := props[prop]];
      }
      i := i + 1;
    }
    assert keys[..i] == keys;
  }

  /** Whether the group copy of `o` throws: `o.hasOwnProperty` reads as one of its
      EventHandlers, which cannot be called, and the `for..in` reaches a first key. */
  predicate CopyThrows(o: JsObject<EventHandler>) {
    "hasOwnProperty" in o.props && o.keys != []
  }

  /** The group copy in `register`: every own enumerable property, in enumeration order. */
  method CopyOwnProperties(o: JsObject<EventHandler>) returns (g: Entry)
    ensures g.GroupShaped()
    ensures g.names == Filter(o.keys, o.own)
    ensures forall k :: k in g.members ==> k in o.own && g.members[k] == o.props[k]
  {
    var names, members := CollectOwn(o.keys, o.own, o.props);
    FilterDistinct(o.keys, o.own);
    g := Group(names, members);
  }

  /** One registration made by `on`: a new wrapper `w` around `target` goes to
      `h.addEventListenerOnce` or `h.addEventListener`. */
  method Attach(h: EventHandler, target: Target, once: bool, env: Env) returns (r: Outcome, w: Listener)
    requires h.Valid()
    modifies h
    ensures fresh(w) && w.target == target
    ensures h.Valid()
    ensures Attached(old(h.State()), h.State(), h.chain, Lookup(env, h.extensionPath), w, once, r)
  {
    w := new Listener(target);
    if once {
      r := h.AddEventListenerOnce(w, env);
      if Lookup(env, h.extensionPath) == Loaded(false) {
        var stored := if h.chain.Some? then h.listenersOnce[|h.listenersOnce| - 1] else w;
        HoldsInStored(h.listenersOnce, h.chain, w, stored);
      }
    } else {
      h.AddEventListener(w, env);
      r := Returned;
      if !Bridged(Lookup(env, h.extensionPath)) {
        var stored := if h.chain.Some? then w.chainWrapper else w;
        HoldsInStored(h.listeners, h.chain, w, stored);
      }
    }
  }

  /** One step of the group fan-out: a fresh wrapper for property `names[i]`, registered
      on that member as `Attach` does; every other member is unchanged, so the fan-out
      either progresses by one name or ends with the throw. */
  method AttachNext(names: seq<string>, members: map<string, EventHandler>, callback: nat, once: bool, env: Env,
                    i: nat, ghost start: seq<LocalState>, ghost made: seq<Listener>)
    returns (r: Outcome, w: Listener)
    requires forall k :: 0 <= k < |names| ==> names[k] in members
    requires i == |made| < |names|
    requires Distinct(made)
    requires forall h :: h in members.Values ==> h.Valid()
    requires Fanning(names, members, callback, once, env, start, Snapshot(names, members), made)
    modifies members.Values
    ensures fresh(w) && w.target == CallbackMember(callback, names[i])
    ensures forall h :: h in members.Values ==> h.Valid()
    ensures Attached(old(members[names[i]].State()), members[names[i]].State(), members[names[i]].chain,
                     Lookup(env, members[names[i]].extensionPath), w, once, r)
    ensures forall h :: h in members.Values && h != members[names[i]] ==> h.State() == old(h.State())
    ensures forall h :: h in members.Values ==> h.pending == old(h.pending)
    ensures Distinct(made + [w])
    ensures Continued(names, members, callback, once, env, r, start, Snapshot(names, members), made + [w])
  {
    var name := names[i];
    var h := members[name];
    SnapshotOf(names, members, h);
    SnapshotAgrees(names, members, h);
    r, w := Attach(h, CallbackMember(callback, name), once, env);
    StepDone(names, members, callback, once, env, start, old(Snapshot(names, members)), made, old(h.State()), w, r);
    AppendIfAbsentOnce(made, w);
  }

  /** The group fan-out: one fresh wrapper per own property, in order, stopping at the
      first registration that throws. Each member without the bridge gains exactly one
      entry per property leading to it, on the chosen list, and keeps all it had. */
  method AttachAll(names: seq<string>, members: map<string, EventHandler>, callback: nat, once: bool, env: Env)
    returns (r: Outcome, ghost made: seq<Listener>)
    requires forall i :: 0 <= i < |names| ==> names[i] in members
    requires forall h :: h in members.Values ==> h.Valid()
    modifies members.Values
    ensures forall h :: h in members.Values ==> h.Valid()
    ensures forall i :: 0 <= i < |made| ==> fresh(made[i])
    ensures Distinct(made)
    ensures forall h :: h in members.Values ==> h.pending == old(h.pending)
    ensures FannedOut(names, members, callback, once, env, r, made, old(Snapshot(names, members)), Snapshot(names, members))
  {
    ghost var start := Snapshot(names, members);
    FanningStarts(names, members, callback, once, env, start);
    made := [];
    r := Returned;
    var i := 0;
    while i < |names| && r.Returned?
      invariant i == |made| <= |names|
      invariant forall k :: 0 <= k < i ==> fresh(made[k])
      invariant Distinct(made)
      invariant forall h :: h in members.Values ==> h.Valid()
      invariant forall h :: h in members.Values ==> h.pending == old(h.pending)
      invariant Continued(names, members, callback, once, env, r, start, Snapshot(names, members), made)
    {
      var w;
      r, w := AttachNext(names, members, callback, once, env, i, start, made);
      made := made + [w];
      i := i + 1;
    }
    if r.Returned? {
      FanningDone(names, members, callback, once, env, start, Snapshot(names, members), made);
    }
  }

  class Signal {
    var signals: map<string, Entry>

    ghost predicate Valid()
      reads this
    {
      forall name :: name in signals ==> signals[name].WellFormed()
    }

    constructor ()
      ensures Valid() && signals == map[]
    {
      signals := map[];
    }

    method Register(name: string, handle: HandleArg) returns (r: Result<bool>)
      requires Valid()
      modifies this
      ensures Valid()
      ensures handle.Nullish? ==>
        && signals == old(signals)
        && r == Err(if name == "" then CannotCreateSignal else TypeError)
      ensures handle.Handler? ==> r == Ok(true) && signals == old(signals)[name := Single(handle.handler)]
      ensures handle.Props? && "addEventListener" in handle.obj.props ==>
        r == Ok(true) && signals == old(signals)[name := Plain(handle.obj)]
      ensures handle.Props? && "addEventListener" !in handle.obj.props && CopyThrows(handle.obj) ==>
        r == Err(TypeError) && signals == old(signals)[name := Group([], map[])]
      ensures handle.Props? && "addEventListener" !in handle.obj.props && !CopyThrows(handle.obj) ==>
        && r == Ok(true)
        && name in signals
        && signals == old(signals)[name := signals[name]]
        && signals[name].Group?
        && signals[name].names == Filter(handle.obj.keys, handle.obj.own)
        && forall k :: k in signals[name].members ==>
             k in handle.obj.own && signals[name].members[k] == handle.obj.props[k]
    {
      if name == "" && handle.Nullish? {
        return Err(CannotCreateSignal);
      }
      match handle
      case Nullish =>
        // reading `addEventListener` of null or undefined
        r := Err(TypeError);
      case Handler(h) =>
        signals := signals[name := Single(h)];
        r := Ok(true);
      case Props(o) =>
        if "addEventListener" in o.props {
          signals := signals[name := Plain(o)];
        } else if CopyThrows(o) {
          // the empty group is stored before the first `hasOwnProperty` call throws
          signals := signals[name := Group([], map[])];
          return Err(TypeError);
        } else {
          var g := CopyOwnProperties(o);
          signals := signals[name := g];
        }
        r := Ok(true);
    }

    /** `on(name, callback, {once: once})`: a missing or cleared entry throws; a single
        handler gets one fresh wrapper around `callback`; a group gets one fresh wrapper per
        own property, each calling that property of `callback`; an object stored as is
        throws, since its `addEventListener` is not a function. */
    method On(name: string, callback: nat, once: bool, env: Env) returns (r: Outcome, ghost made: seq<Listener>)
      requires Valid()
      requires name in signals ==> forall h :: h in signals[name].Handlers() ==> h.Valid()
      modifies if name in signals then signals[name].Handlers() else {}
      ensures name in signals ==> forall h :: h in signals[name].Handlers() ==> h.Valid() && h.pending == old(h.pending)
      ensures r == Threw(SignalMissing(name)) <==> name !in signals || signals[name].Cleared?
      ensures name !in signals || signals[name].Cleared? ==> made == []
      ensures name in signals && signals[name].Plain? ==> r == Threw(TypeError) && made == []
      ensures forall i :: 0 <= i < |made| ==> fresh(made[i])
      ensures Distinct(made)
      ensures name in signals && signals[name].Single? ==>
        && |made| == 1
        && made[0].target == Callback(callback)
        && Attached(old(signals[name].handler.State()), signals[name].handler.State(), signals[name].handler.chain,
                    Lookup(env, signals[name].handler.extensionPath), made[0], once, r)
      ensures name in signals && signals[name].Group? ==>
        FannedOut(signals[name].names, signals[name].members, callback, once, env, r, made,
                  old(Snapshot(signals[name].names, signals[name].members)), Snapshot(signals[name].names, signals[name].members))
    {
      made := [];
      if name !in signals || signals[name].Cleared? {
        return Threw(SignalMissing(name)), made;
      }
      match signals[name]
      case Single(h) =>
        var w;
        r, w := Attach(h, Callback(callback), once, env);
        made := [w];
      case Group(names, members) =>
        r, made := AttachAll(names, members, callback, once, env);
      case Plain(_) =>
        // `addEventListener` (or `addEventListenerOnce`) of the object is not a function
        r := Threw(TypeError);
    }

    /** `on(name).remove(l)`: for a single handler the handle calls its
        `removeEventListener` with the registry as `this`. The chain lookup and the
        extension test run as usual; the bridge path forwards and then clears the
        entry, while the local path reads the registry's (missing) `listeners` and
        throws. The handler's own lists are never changed. Any other entry with a
        `removeEventListener` property throws at the `apply`; without one nothing happens. */
    method RemoveThroughHandle(name: string, listener: Listener, env: Env) returns (r: Outcome)
      requires Valid()
      modifies this, WrapperOf(listener)
      ensures Valid()
      ensures !(name in old(signals) && old(signals)[name].Single?) ==>
        && signals == old(signals)
        && r == (if name in old(signals) && old(signals)[name].HasRemoveProperty() then Threw(TypeError) else Returned)
      ensures name in old(signals) && old(signals)[name].Single? ==>
        var h := old(signals)[name].handler;
        var resolved := h.chain.None? || old(listener.chainWrapper) != null;
        && r == (if resolved && Bridged(Lookup(env, h.extensionPath)) then Returned else Threw(TypeError))
        && signals == (if r == Returned then old(signals)[name := Cleared] else old(signals))
        && h.State() == old(h.State())
        && (h.chain.Some? && old(listener.chainWrapper) != null ==> old(listener.chainWrapper).chainWrapper == null)
    {
      if name !in signals {
        return Returned;
      }
      var entry := signals[name];
      if !entry.Single? {
        return if entry.HasRemoveProperty() then Threw(TypeError) else Returned;
      }
      var h := entry.handler;
      var target := h.ResolveRemoval(listener);
      if target == null {
        return Threw(TypeError);
      }
      var ext := Lookup(env, h.extensionPath);
      if Bridged(ext) {
        signals := signals[name := Cleared];
        r := Returned;
      } else {
        // Undefined: reading `nativeAvailable` throws; otherwise `this.listeners` is undefined
        r := Threw(TypeError);
      }
    }
  }
}
