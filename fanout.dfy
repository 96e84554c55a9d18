/** What a registration made by `on` does to the handlers it reaches: one handler
    (`Attached`) or every member of a group in property order (`FannedOut`), stated
    on the handlers' local states. */
module FanOut {
  import opened Js
  import opened Sequences
  import opened EventHandlers

  /** `l` is registered in `list`: itself, or, for a chained handler, through a chain wrapper around it. */
  ghost predicate HoldsIn(list: seq<Listener>, chain: Option<nat>, l: Listener) {
    match chain
    case None => l in list
    case Some(c) => exists k :: 0 <= k < |list| && list[k].target == ChainWrap(c, l)
  }

  /** The list a registration goes to: the once list when `once`, else the persistent one. */
  function Chosen(s: LocalState, once: bool): (list: seq<Listener>) {
    if once then s.once else s.listeners
  }

  lemma HoldsInExtended(list: seq<Listener>, longer: seq<Listener>, chain: Option<nat>, l: Listener)
    requires HoldsIn(list, chain, l) && list <= longer
    ensures HoldsIn(longer, chain, l)
  {
    if chain.Some? {
      var k :| 0 <= k < |list| && list[k].target == ChainWrap(chain.value, l);
      assert longer[k] == list[k];
    }
  }

  lemma HoldsInStored(list: seq<Listener>, chain: Option<nat>, l: Listener, stored: Listener)
    requires stored in list
    requires chain.None? ==> stored == l
    requires chain.Some? ==> stored.target == ChainWrap(chain.value, l)
    ensures HoldsIn(list, chain, l)
  {
    if chain.Some? {
      var k := IndexOf(list, stored);
      assert list[k].target == ChainWrap(chain.value, l);
    }
  }

  /** Whether a registration by `on` takes the local path: `addEventListener` goes
      local unless the bridge is present, `addEventListenerOnce` only when the
      extension object exists without the bridge. */
  predicate LocalPath(ext: Extension, once: bool) {
    if once then ext == Loaded(false) else !Bridged(ext)
  }

  /** `after` is `before` with `n` entries appended to the chosen list (the once list
      when `once`); the other list and the queued deliveries are unchanged. */
  predicate Extends(before: LocalState, after: LocalState, once: bool, n: nat) {
    && after.pending == before.pending
    && if once then
         && after.listeners == before.listeners
         && before.once <= after.once
         && |after.once| == |before.once| + n
       else
         && after.once == before.once
         && before.listeners <= after.listeners
         && |after.listeners| == |before.listeners| + n
  }

  lemma ExtendsTrans(a: LocalState, b: LocalState, c: LocalState, once: bool, m: nat, n: nat)
    requires Extends(a, b, once, m) && Extends(b, c, once, n)
    ensures Extends(a, c, once, m + n)
  {
  }

  /** How many of `names` lead to `h`: the registrations a group fan-out over `names` makes on `h`. */
  function Registrations(names: seq<string>, members: map<string, EventHandler>, h: EventHandler): (n: nat)
    requires forall i :: 0 <= i < |names| ==> names[i] in members
    ensures n <= |names|
    ensures n == 0 <==> forall i :: 0 <= i < |names| ==> members[names[i]] != h
  {
    if names == [] then 0
    else
      var init := names[..|names| - 1];
      assert forall i :: 0 <= i < |init| ==> init[i] == names[i];
      Registrations(init, members, h) + (if members[names[|names| - 1]] == h then 1 else 0)
  }

  /** The outcome of one registration `on` makes on a handler with chain function `chain`
      and extension object `ext`, whose local state goes from `before` to `after`: only a
      missing extension object on the once path throws; without the bridge exactly one
      entry, `w` or a chain wrapper around it, is appended to the chosen list. */
  ghost predicate Attached(before: LocalState, after: LocalState, chain: Option<nat>, ext: Extension,
                           w: Listener, once: bool, r: Outcome)
  {
    && r == (if once && ext.Undefined? then Threw(TypeError) else Returned)
    && if !LocalPath(ext, once) then after == before
       else HoldsIn(Chosen(after, once), chain, w) && Extends(before, after, once, 1)
  }

  /** The group fan-out of `on`, from the member states `start` to `now` (one per property
      name): when it returned, every name has its registration; when it threw, it stopped
      at the first name whose member lacks its extension object on the once path. Either
      way the members changed as `Progress` says. */
  ghost predicate FannedOut(names: seq<string>, members: map<string, EventHandler>, callback: nat,
                            once: bool, env: Env, r: Outcome, made: seq<Listener>,
                            start: seq<LocalState>, now: seq<LocalState>)
    requires forall i :: 0 <= i < |names| ==> names[i] in members
  {
    match r
    case Returned =>
      |made| == |names| && Fanning(names, members, callback, once, env, start, now, made)
    case Threw(e) =>
      && e == TypeError && once && 0 < |made| <= |names|
      && Made(names, members, callback, once, env, made[..|made| - 1])
      && made[|made| - 1].target == CallbackMember(callback, names[|made| - 1])
      && Lookup(env, members[names[|made| - 1]].extensionPath).Undefined?
      && Progress(names, members, once, env, start, now, made, |made|)
  }

  /** The local state of the member each property name leads to. */
  function Snapshot(names: seq<string>, members: map<string, EventHandler>): (m: seq<LocalState>)
    requires forall k :: 0 <= k < |names| ==> names[k] in members
    reads members.Values
    ensures |m| == |names|
  {
    if names == [] then []
    else
      var last := names[|names| - 1];
      Snapshot(names[..|names| - 1], members) + [members[last].State()]
  }

  lemma {:induction false} SnapshotEntries(names: seq<string>, members: map<string, EventHandler>)
    requires forall k :: 0 <= k < |names| ==> names[k] in members
    ensures forall k {:trigger Snapshot(names, members)[k]} :: 0 <= k < |names| ==> Snapshot(names, members)[k] == members[names[k]].State()
  {
    if names != [] {
      var init := names[..|names| - 1];
      SnapshotEntries(init, members);
    }
  }

  /** Every member without the bridge has gained, from `start` to `now`, exactly one
      entry per name among the first `n` that leads to it; every other member is unchanged. */
  ghost predicate Grown(names: seq<string>, members: map<string, EventHandler>, once: bool, env: Env,
                        start: seq<LocalState>, now: seq<LocalState>, n: nat)
    requires n <= |names|
    requires forall k :: 0 <= k < |names| ==> names[k] in members
  {
    && |start| == |names| && |now| == |names|
    && forall k {:trigger now[k]} {:trigger start[k]} :: 0 <= k < |names| ==>
         if LocalPath(Lookup(env, members[names[k]].extensionPath), once)
         then Extends(start[k], now[k], once, Registrations(names[..n], members, members[names[k]]))
         else now[k] == start[k]
  }

  /** Every registration among `made` on a member without the bridge is held by that member in `now`. */
  ghost predicate HeldAll(names: seq<string>, members: map<string, EventHandler>, once: bool, env: Env,
                          now: seq<LocalState>, made: seq<Listener>)
    requires |made| <= |names| == |now|
    requires forall k :: 0 <= k < |names| ==> names[k] in members
  {
    forall k {:trigger made[k]} :: 0 <= k < |made| && LocalPath(Lookup(env, members[names[k]].extensionPath), once) ==>
      HoldsIn(Chosen(now[k], once), members[names[k]].chain, made[k])
  }

  /** Every position of `names` leading to `h` holds `s` in `m`. */
  ghost predicate EntriesOf(m: seq<LocalState>, names: seq<string>, members: map<string, EventHandler>,
                            h: EventHandler, s: LocalState)
    requires forall k :: 0 <= k < |names| ==> names[k] in members
  {
    |m| == |names| && forall k {:trigger m[k]} :: 0 <= k < |names| && members[names[k]] == h ==> m[k] == s
  }

  /** `after` is `before` with `s` at every position leading to `h`. */
  ghost predicate Replaced(before: seq<LocalState>, after: seq<LocalState>, names: seq<string>,
                           members: map<string, EventHandler>, h: EventHandler, s: LocalState)
    requires forall k :: 0 <= k < |names| ==> names[k] in members
  {
    && |before| == |names| && |after| == |names|
    && forall k {:trigger after[k]} :: 0 <= k < |names| ==> after[k] == if members[names[k]] == h then s else before[k]
  }

  lemma SnapshotOf(names: seq<string>, members: map<string, EventHandler>, h: EventHandler)
    requires forall k :: 0 <= k < |names| ==> names[k] in members
    ensures EntriesOf(Snapshot(names, members), names, members, h, h.State())
  {
    SnapshotEntries(names, members);
  }

  /** Every position of `names` not leading to `h` holds, in `m`, the current state of its member. */
  ghost predicate AgreesExcept(m: seq<LocalState>, names: seq<string>, members: map<string, EventHandler>, h: EventHandler)
    requires forall k :: 0 <= k < |names| ==> names[k] in members
    reads set g | g in members.Values && g != h
  {
    |m| == |names| &&
    forall k {:trigger m[k]} :: 0 <= k < |names| && members[names[k]] != h ==> m[k] == members[names[k]].State()
  }

  lemma SnapshotAgrees(names: seq<string>, members: map<string, EventHandler>, h: EventHandler)
    requires forall k :: 0 <= k < |names| ==> names[k] in members
    ensures AgreesExcept(Snapshot(names, members), names, members, h)
  {
    SnapshotEntries(names, members);
  }

  /** A snapshot that still agrees with every member but `h` differs from the current one only where a name leads to `h`. */
  lemma SnapshotAfter(names: seq<string>, members: map<string, EventHandler>, h: EventHandler, before: seq<LocalState>)
    requires forall k :: 0 <= k < |names| ==> names[k] in members
    requires AgreesExcept(before, names, members, h)
    ensures Replaced(before, Snapshot(names, members), names, members, h, h.State())
  {
    SnapshotEntries(names, members);
  }

  /** A registration on `h` that moved its state from `s0` to `s1` as `Attached` says. */
  lemma StepFrom(names: seq<string>, members: map<string, EventHandler>, once: bool, env: Env,
                 before: seq<LocalState>, after: seq<LocalState>, s0: LocalState, s1: LocalState,
                 w: Listener, i: nat, r: Outcome)
    requires forall k :: 0 <= k < |names| ==> names[k] in members
    requires i < |names|
    requires EntriesOf(before, names, members, members[names[i]], s0)
    requires Replaced(before, after, names, members, members[names[i]], s1)
    requires Attached(s0, s1, members[names[i]].chain, Lookup(env, members[names[i]].extensionPath), w, once, r)
    ensures StepTaken(names, members, once, env, before, after, w, i)
  {
  }

  /** The fan-out after the registrations `made` for the first `n` names, from the member
      states `start` to `now`: each member without the bridge holds its wrappers and has
      gained exactly one entry per name leading to it; the others are unchanged. */
  ghost predicate Progress(names: seq<string>, members: map<string, EventHandler>, once: bool, env: Env,
                           start: seq<LocalState>, now: seq<LocalState>, made: seq<Listener>, n: nat)
    requires n <= |names| && |made| == n
    requires forall k :: 0 <= k < |names| ==> names[k] in members
  {
    Grown(names, members, once, env, start, now, n) && HeldAll(names, members, once, env, now, made)
  }

  /** What one registration on `members[names[i]]` does, from the member states `before`
      to `after`: that member gains the entry for `w` on the chosen list, the others stay. */
  ghost predicate StepTaken(names: seq<string>, members: map<string, EventHandler>, once: bool, env: Env,
                            before: seq<LocalState>, after: seq<LocalState>, w: Listener, i: nat)
    requires i < |names| == |before| == |after|
    requires forall k :: 0 <= k < |names| ==> names[k] in members
  {
    var h := members[names[i]];
    forall k {:trigger after[k]} :: 0 <= k < |names| ==>
      if members[names[k]] != h || !LocalPath(Lookup(env, h.extensionPath), once) then after[k] == before[k]
      else HoldsIn(Chosen(after[k], once), h.chain, w) && Extends(before[k], after[k], once, 1)
  }

  lemma GrownStep(names: seq<string>, members: map<string, EventHandler>, once: bool, env: Env,
                  start: seq<LocalState>, before: seq<LocalState>, after: seq<LocalState>, w: Listener, i: nat)
    requires i < |names| == |before| == |after|
    requires forall k :: 0 <= k < |names| ==> names[k] in members
    requires Grown(names, members, once, env, start, before, i)
    requires StepTaken(names, members, once, env, before, after, w, i)
    ensures Grown(names, members, once, env, start, after, i + 1)
  {
    var h := members[names[i]];
    assert names[..i + 1][..i] == names[..i];
    forall k | 0 <= k < |names| && LocalPath(Lookup(env, members[names[k]].extensionPath), once)
      ensures Extends(start[k], after[k], once, Registrations(names[..i + 1], members, members[names[k]]))
    {
      if members[names[k]] == h {
        ExtendsTrans(start[k], before[k], after[k], once, Registrations(names[..i], members, h), 1);
      }
    }
  }

  lemma HeldAllStep(names: seq<string>, members: map<string, EventHandler>, once: bool, env: Env,
                    before: seq<LocalState>, after: seq<LocalState>, made: seq<Listener>, w: Listener, i: nat)
    requires i < |names| == |before| == |after| && |made| == i
    requires forall k :: 0 <= k < |names| ==> names[k] in members
    requires HeldAll(names, members, once, env, before, made)
    requires StepTaken(names, members, once, env, before, after, w, i)
    ensures HeldAll(names, members, once, env, after, made + [w])
  {
    var h := members[names[i]];
    forall k | 0 <= k < i + 1 && LocalPath(Lookup(env, members[names[k]].extensionPath), once)
      ensures HoldsIn(Chosen(after[k], once), members[names[k]].chain, (made + [w])[k])
    {
      if k < i {
        assert (made + [w])[k] == made[k];
        if members[names[k]] == h {
          HoldsInExtended(Chosen(before[k], once), Chosen(after[k], once), h.chain, made[k]);
        }
      }
    }
  }

  /** The registrations `made` for the first `|made|` names: each a wrapper calling that
      property of `callback`, and none of them thrown. */
  ghost predicate Made(names: seq<string>, members: map<string, EventHandler>, callback: nat,
                       once: bool, env: Env, made: seq<Listener>)
    requires forall i :: 0 <= i < |names| ==> names[i] in members
  {
    && |made| <= |names|
    && forall i {:trigger made[i]} :: 0 <= i < |made| ==>
         && made[i].target == CallbackMember(callback, names[i])
         && (once ==> !Lookup(env, members[names[i]].extensionPath).Undefined?)
  }

  /** The fan-out so far, from the member states `start` to `now`: the registrations
      `made`, with the members changed as `Progress` says. */
  ghost predicate Fanning(names: seq<string>, members: map<string, EventHandler>, callback: nat,
                          once: bool, env: Env, start: seq<LocalState>, now: seq<LocalState>, made: seq<Listener>)
    requires forall i :: 0 <= i < |names| ==> names[i] in members
  {
    && Made(names, members, callback, once, env, made)
    && Progress(names, members, once, env, start, now, made, |made|)
  }

  /** One registration moves the progress of the fan-out on by one name. */
  lemma ProgressStep(names: seq<string>, members: map<string, EventHandler>, once: bool, env: Env,
                     start: seq<LocalState>, before: seq<LocalState>, after: seq<LocalState>,
                     made: seq<Listener>, w: Listener)
    requires forall i :: 0 <= i < |names| ==> names[i] in members
    requires |made| < |names| == |before| == |after|
    requires Progress(names, members, once, env, start, before, made, |made|)
    requires StepTaken(names, members, once, env, before, after, w, |made|)
    ensures Progress(names, members, once, env, start, after, made + [w], |made| + 1)
  {
    GrownStep(names, members, once, env, start, before, after, w, |made|);
    HeldAllStep(names, members, once, env, before, after, made, w, |made|);
  }

  /** A registration that returned adds its wrapper to those made. */
  lemma MadeStep(names: seq<string>, members: map<string, EventHandler>, callback: nat, once: bool, env: Env,
                 made: seq<Listener>, w: Listener)
    requires forall i :: 0 <= i < |names| ==> names[i] in members
    requires |made| < |names|
    requires Made(names, members, callback, once, env, made)
    requires w.target == CallbackMember(callback, names[|made|])
    requires once ==> !Lookup(env, members[names[|made|]].extensionPath).Undefined?
    ensures Made(names, members, callback, once, env, made + [w])
  {
    var m := made + [w];
    forall i | 0 <= i < |m|
      ensures m[i].target == CallbackMember(callback, names[i])
      ensures once ==> !Lookup(env, members[names[i]].extensionPath).Undefined?
    {
      if i < |made| {
        assert m[i] == made[i];
      }
    }
  }

  /** A registration that threw ends the fan-out. */
  lemma ThrewStep(names: seq<string>, members: map<string, EventHandler>, callback: nat, once: bool, env: Env,
                  start: seq<LocalState>, now: seq<LocalState>, made: seq<Listener>, w: Listener)
    requires forall i :: 0 <= i < |names| ==> names[i] in members
    requires |made| < |names|
    requires Made(names, members, callback, once, env, made)
    requires w.target == CallbackMember(callback, names[|made|])
    requires once && Lookup(env, members[names[|made|]].extensionPath).Undefined?
    requires Progress(names, members, once, env, start, now, made + [w], |made| + 1)
    ensures FannedOut(names, members, callback, once, env, Threw(TypeError), made + [w], start, now)
  {
    assert (made + [w])[..|made|] == made;
  }

  /** The fan-out is complete once every name has its registration. */
  lemma FanningDone(names: seq<string>, members: map<string, EventHandler>, callback: nat, once: bool, env: Env,
                    start: seq<LocalState>, now: seq<LocalState>, made: seq<Listener>)
    requires forall i :: 0 <= i < |names| ==> names[i] in members
    requires |made| == |names|
    requires Fanning(names, members, callback, once, env, start, now, made)
    ensures FannedOut(names, members, callback, once, env, Returned, made, start, now)
  {
  }

  /** Before the first registration nothing is made and no member has changed. */
  lemma FanningStarts(names: seq<string>, members: map<string, EventHandler>, callback: nat, once: bool, env: Env,
                      start: seq<LocalState>)
    requires forall i :: 0 <= i < |names| ==> names[i] in members
    requires |start| == |names|
    ensures Fanning(names, members, callback, once, env, start, start, [])
  {
    assert names[..0] == [];
  }

  /** The fan-out after the registration for one more name: still going when it
      returned, over when it threw. */
  ghost predicate Continued(names: seq<string>, members: map<string, EventHandler>, callback: nat,
                            once: bool, env: Env, r: Outcome, start: seq<LocalState>, now: seq<LocalState>,
                            made: seq<Listener>)
    requires forall i :: 0 <= i < |names| ==> names[i] in members
  {
    match r
    case Returned => Fanning(names, members, callback, once, env, start, now, made)
    case Threw(_) => FannedOut(names, members, callback, once, env, r, made, start, now)
  }

  /** After a registration on `h = members[names[|made|]]` that changed only `h`, from
      `s0` to its current state as `Attached` says: the fan-out has continued. */
  lemma StepDone(names: seq<string>, members: map<string, EventHandler>, callback: nat, once: bool, env: Env,
                 start: seq<LocalState>, before: seq<LocalState>, made: seq<Listener>,
                 s0: LocalState, w: Listener, r: Outcome)
    requires forall k :: 0 <= k < |names| ==> names[k] in members
    requires |made| < |names|
    requires Fanning(names, members, callback, once, env, start, before, made)
    requires EntriesOf(before, names, members, members[names[|made|]], s0)
    requires AgreesExcept(before, names, members, members[names[|made|]])
    requires Attached(s0, members[names[|made|]].State(), members[names[|made|]].chain,
                      Lookup(env, members[names[|made|]].extensionPath), w, once, r)
    requires w !in made && w.target == CallbackMember(callback, names[|made|])
    ensures Continued(names, members, callback, once, env, r, start, Snapshot(names, members), made + [w])
  {
    var h := members[names[|made|]];
    SnapshotAfter(names, members, h, before);
    var after := Snapshot(names, members);
    StepFrom(names, members, once, env, before, after, s0, h.State(), w, |made|, r);
    ProgressStep(names, members, once, env, start, before, after, made, w);
    if r.Returned? {
      MadeStep(names, members, callback, once, env, made, w);
    } else {
      ThrewStep(names, members, callback, once, env, start, after, made, w);
    }
  }
}
