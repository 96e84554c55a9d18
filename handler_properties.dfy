/** What a sequence of local-path calls on one EventHandler guarantees. Each
    operation names the listener actually stored or looked up (the wrapper,
    when the handler has a chain function), so the steps are exactly the local
    transitions the handler's methods are proved to perform. */
module HandlerProperties {
  import opened Js
  import opened Sequences
  import opened EventHandlers

  datatype Op =
    | Add(listener: Listener)
    | AddOnce(listener: Listener)
    | Remove(listener: Listener)
    | RemoveOnce(listener: Listener)
    | Notify(args: seq<Value>)

  function Step(s: LocalState, op: Op): (t: LocalState) {
    match op
    case Add(l) => Added(s, l)
    case AddOnce(l) => AddedOnce(s, l)
    case Remove(l) => Removed(s, l)
    case RemoveOnce(l) => RemovedOnce(s, l)
    case Notify(args) => Notified(s, args)
  }

  function Run(s: LocalState, ops: seq<Op>): (t: LocalState)
    decreases |ops|
  {
    if ops == [] then s else Run(Step(s, ops[0]), ops[1..])
  }

  /** How often `l` sits in the queued once snapshots. */
  function PendingOnce(ds: seq<Delivery>, l: Listener): (n: nat) {
    if ds == [] then 0 else PendingOnce(ds[..|ds| - 1], l) + multiset(ds[|ds| - 1].once)[l]
  }

  /** How many once-deliveries of `l` are still to come: the once list plus the queued snapshots. */
  function OnceTotal(s: LocalState, l: Listener): (n: nat) {
    multiset(s.once)[l] + PendingOnce(s.pending, l)
  }

  function AddOnceCount(ops: seq<Op>, l: Listener): (n: nat) {
    if ops == [] then 0 else (if ops[0] == AddOnce(l) then 1 else 0) + AddOnceCount(ops[1..], l)
  }

  /** Adding the same listener twice is the same as adding it once. */
  lemma AddIsIdempotent(s: LocalState, l: Listener)
    ensures Added(Added(s, l), l) == Added(s, l)
  {
  }

  /** After a local add the listener occurs exactly once, and the list keeps no duplicates. */
  lemma AddStoresExactlyOnce(s: LocalState, l: Listener)
    requires Distinct(s.listeners)
    ensures Distinct(Added(s, l).listeners)
    ensures multiset(Added(s, l).listeners)[l] == 1
    ensures Added(s, l).once == s.once && Added(s, l).pending == s.pending
  {
    AppendIfAbsentOnce(s.listeners, l);
  }

  /** Removing a listener that an add had appended restores the former state. */
  lemma RemoveUndoesAdd(s: LocalState, l: Listener)
    requires l !in s.listeners
    ensures Removed(Added(s, l), l) == s
  {
    RemoveFirstUndoesAppend(s.listeners, l);
  }

  /** The once list is tested against the persistent list only: a listener already
      persistent is not added, and any other can be queued twice. */
  lemma AddOnceChecksPersistentList(s: LocalState, l: Listener)
    ensures l in s.listeners ==> AddedOnce(s, l) == s
    ensures l !in s.listeners ==>
      && AddedOnce(AddedOnce(s, l), l).once == s.once + [l, l]
      && multiset(AddedOnce(AddedOnce(s, l), l).once)[l] == multiset(s.once)[l] + 2
    ensures AddedOnce(s, l).listeners == s.listeners
  {
    if l !in s.listeners {
      assert s.once + [l] + [l] == s.once + [l, l];
    }
  }

  /** A second notification in the same turn finds the once list already empty:
      its delivery carries no once listener, the first one carries them all. */
  lemma SecondNotifySeesNoOnceListeners(s: LocalState, first: seq<Value>, second: seq<Value>)
    ensures Notified(Notified(s, first), second).pending
         == s.pending + [Delivery(s.listeners, s.once, first), Delivery(s.listeners, [], second)]
    ensures Notified(Notified(s, first), second).once == []
  {
  }

  /** Later calls never alter a delivery already queued. */
  lemma {:induction false} SnapshotsAreStable(s: LocalState, ops: seq<Op>)
    ensures |Run(s, ops).pending| >= |s.pending|
    ensures Run(s, ops).pending[..|s.pending|] == s.pending
    decreases |ops|
  {
    if ops != [] {
      var t := Step(s, ops[0]);
      assert |t.pending| >= |s.pending| && t.pending[..|s.pending|] == s.pending;
      SnapshotsAreStable(t, ops[1..]);
      assert Run(s, ops).pending[..|s.pending|] == Run(t, ops[1..]).pending[..|t.pending|][..|s.pending|];
    }
  }

  /** A listener removed after a notification is still invoked by that notification's delivery. */
  lemma RemovedListenerStillDelivered(s: LocalState, args: seq<Value>, ops: seq<Op>, l: Listener)
    requires l in s.listeners
    ensures |Run(Notified(s, args), ops).pending| > |s.pending|
    ensures Run(Notified(s, args), ops).pending[|s.pending|] == Delivery(s.listeners, s.once, args)
    ensures l in Run(Notified(s, args), ops).pending[|s.pending|].persistent
  {
    var n := Notified(s, args);
    SnapshotsAreStable(n, ops);
    assert Run(n, ops).pending[|s.pending|] == Run(n, ops).pending[..|n.pending|][|s.pending|];
  }

  /** No sequence of local calls puts a listener twice into the persistent list. */
  lemma {:induction false} RunKeepsListenersDistinct(s: LocalState, ops: seq<Op>)
    requires Distinct(s.listeners)
    ensures Distinct(Run(s, ops).listeners)
    decreases |ops|
  {
    if ops != [] {
      var t := Step(s, ops[0]);
      match ops[0] {
        case Add(l) => AppendIfAbsentOnce(s.listeners, l);
        case Remove(l) => RemoveFirstDistinct(s.listeners, l);
        case _ =>
      }
      RunKeepsListenersDistinct(t, ops[1..]);
    }
  }

  lemma PendingOnceAppend(ds: seq<Delivery>, d: Delivery, l: Listener)
    ensures PendingOnce(ds + [d], l) == PendingOnce(ds, l) + multiset(d.once)[l]
  {
    assert (ds + [d])[..|ds|] == ds;
  }

  lemma StepOnceTotal(s: LocalState, op: Op, l: Listener)
    ensures OnceTotal(Step(s, op), l) <= OnceTotal(s, l) + (if op == AddOnce(l) then 1 else 0)
  {
    match op
    case Notify(args) =>
      PendingOnceAppend(s.pending, Delivery(s.listeners, s.once, args), l);
    case AddOnce(m) =>
      if m !in s.listeners {
        assert multiset(s.once + [m]) == multiset(s.once) + multiset{m};
      }
    case _ =>
  }

  /** A once listener is delivered at most as often as it was added with
      `addEventListenerOnce`, however often notifications follow one another. */
  lemma {:induction false} OnceDeliveriesBoundedByAdds(s: LocalState, ops: seq<Op>, l: Listener)
    ensures OnceTotal(Run(s, ops), l) <= OnceTotal(s, l) + AddOnceCount(ops, l)
    decreases |ops|
  {
    if ops != [] {
      StepOnceTotal(s, ops[0], l);
      OnceDeliveriesBoundedByAdds(Step(s, ops[0]), ops[1..], l);
    }
  }

  /** In particular a listener added once is queued for at most one once-delivery. */
  lemma OnceListenerDeliveredAtMostOnce(s: LocalState, ops: seq<Op>, l: Listener)
    requires OnceTotal(s, l) == 0 && AddOnceCount(ops, l) <= 1
    ensures OnceTotal(Run(s, ops), l) <= 1
  {
    OnceDeliveriesBoundedByAdds(s, ops, l);
  }

  /** One step puts a listener on the once list only by `addEventListenerOnce`. */
  lemma StepOnceOrigin(s: LocalState, op: Op, x: Listener)
    requires x in Step(s, op).once
    ensures x in s.once || op == AddOnce(x)
  {
    match op
    case AddOnce(l) =>
      if l != x {
        assert x in multiset(Step(s, op).once);
      }
    case RemoveOnce(l) =>
      assert x in multiset(Step(s, op).once);
    case _ =>
  }

  /** Every entry of the once list was there before or was added by a later `addEventListenerOnce`. */
  lemma {:induction false} OnceEntriesComeFromAddOnce(s: LocalState, ops: seq<Op>, x: Listener)
    requires x in Run(s, ops).once
    ensures x in s.once || AddOnce(x) in ops
    decreases |ops|
  {
    if ops != [] {
      var t := Step(s, ops[0]);
      OnceEntriesComeFromAddOnce(t, ops[1..], x);
      if AddOnce(x) in ops[1..] {
        assert AddOnce(x) in ops;
      } else {
        StepOnceOrigin(s, ops[0], x);
        assert ops[0] in ops;
      }
    }
  }

  /** Only listeners added with `addEventListenerOnce` between two notifications
      are eligible for the second notification's once delivery. */
  lemma SecondDeliveryOnlyHasNewOnceListeners(s: LocalState, first: seq<Value>, ops: seq<Op>, second: seq<Value>, x: Listener)
    requires x in Notified(Run(Notified(s, first), ops), second).pending[|Run(Notified(s, first), ops).pending|].once
    ensures AddOnce(x) in ops
  {
    OnceEntriesComeFromAddOnce(Notified(s, first), ops, x);
  }
}
