/** Registrations as a plain set: what every bounded run of a registry amounts to for its clients. */
module Registrations {
  import opened Options
  import opened SlotMaps

  /** The callbacks registered so far, and which of those registrations are still in force. */
  datatype Plain<C> = Plain(callbacks: seq<C>, live: set<nat>)

  /** The operations on a plain set: there is room while fewer registrations are in force than there are slots. */
  function PlainApply<C>(capacity: nat, p: Plain<C>, op: Op<C>): Plain<C> {
    match op
    case Subscribe(c) =>
      if |p.live| < capacity then Plain(p.callbacks + [c], p.live + {|p.callbacks|}) else p
    case Unsubscribe(k) => p.(live := p.live - {k})
    case Clear => p.(live := {})
  }

  function PlainRun<C>(capacity: nat, ops: seq<Op<C>>): Plain<C> {
    if ops == [] then Plain([], {})
    else PlainApply(capacity, PlainRun(capacity, ops[..|ops| - 1]), ops[|ops| - 1])
  }

  // ----- what a state amounts to -----

  predicate InForce<C>(s: State<C>, k: nat) {
    k < |s.issued| && s.issued[k].ticket.index < |s.holder| && s.holder[s.issued[k].ticket.index] == Some(k)
  }

  function View<C>(s: State<C>): Plain<C> {
    Plain(seq(|s.issued|, k requires 0 <= k < |s.issued| => s.issued[k].callback),
          set k | 0 <= k < |s.issued| && InForce(s, k))
  }

  lemma InForceIff<C>(s: State<C>, k: nat)
    requires Shape(s)
    ensures InForce(s, k) <==> exists i :: 0 <= i < |s.holder| && s.holder[i] == Some(k)
  {
  }

  /** An invocation runs the registrations in force, each once. */
  lemma InvocationRunsLive<C>(s: State<C>)
    requires Inv(s)
    ensures |Invoked(s.holder)| == |View(s).live| == |Callbacks(s.slots)|
    ensures forall k :: k in Invoked(s.holder) <==> k in View(s).live
    ensures forall j, k :: 0 <= j < k < |Invoked(s.holder)| ==> Invoked(s.holder)[j] != Invoked(s.holder)[k]
    ensures forall j :: 0 <= j < |Callbacks(s.slots)| ==>
              && Invoked(s.holder)[j] < |View(s).callbacks|
              && Callbacks(s.slots)[j] == View(s).callbacks[Invoked(s.holder)[j]]
  {
    var order := Invoked(s.holder);
    forall j, k | 0 <= j < k < |order|
      ensures order[j] != order[k]
    {
      var a := InvokedFrom(s.holder, j);
      var b := InvokedFrom(s.holder, k);
    }
    forall k: nat
      ensures k in order <==> k in View(s).live
    {
      InForceIff(s, k);
      if k in order {
        var j :| 0 <= j < |order| && order[j] == k;
        var i := InvokedFrom(s.holder, j);
      }
      if InForce(s, k) {
        InvokedAt(s.holder, s.issued[k].ticket.index);
      }
    }
    DistinctCount(order, View(s).live);
    InvocationRunsHolders(s);
  }

  lemma {:induction false} DistinctCount(order: seq<nat>, all: set<nat>)
    requires forall j, k :: 0 <= j < k < |order| ==> order[j] != order[k]
    requires forall k :: k in all <==> k in order
    ensures |all| == |order|
  {
    if order == [] {
      assert all == {};
    } else {
      var n := |order| - 1;
      assert order == order[..n] + [order[n]];
      DistinctCount(order[..n], all - {order[n]});
    }
  }

  /** Every slot is in use exactly when as many are invoked as there are slots. */
  lemma {:induction false} AllUsedIff(holder: seq<Option<nat>>)
    ensures |Invoked(holder)| <= |holder|
    ensures |Invoked(holder)| == |holder| <==> forall i :: 0 <= i < |holder| ==> holder[i].Some?
  {
    if holder != [] {
      AllUsedIff(holder[..|holder| - 1]);
    }
  }

  lemma RoomIff<C>(s: State<C>)
    requires Inv(s)
    ensures FirstFree(s.slots) < |s.slots| <==> |View(s).live| < |s.slots|
  {
    InvocationRunsLive(s);
    AllUsedIff(s.holder);
    if FirstFree(s.slots) < |s.slots| {
      assert s.holder[FirstFree(s.slots)].None?;
    }
  }

  // ----- each operation on states is the one on plain sets -----

  /** Subscribing registers: while a slot is free the callback is put into force, and nobody else notices. */
  lemma SubscribeIsPlain<C>(s: State<C>, c: C)
    requires Inv(s)
    ensures View(Apply(s, Subscribe(c))) == PlainApply(|s.slots|, View(s), Subscribe(c))
  {
    RoomIff(s);
    var r := Apply(s, Subscribe(c));
    if FirstFree(s.slots) < |s.slots| {
      NewRegistration(s, c);
      hide Inv, FirstFree, Apply, InForce;
      assert View(r).callbacks == View(s).callbacks + [c];
      assert View(r).live == View(s).live + {|s.issued|};
    }
  }

  lemma NewRegistration<C>(s: State<C>, c: C)
    requires Inv(s) && FirstFree(s.slots) < |s.slots|
    ensures var r := Apply(s, Subscribe(c));
            && |r.issued| == |s.issued| + 1 && r.issued[|s.issued|].callback == c
            && (forall k :: 0 <= k < |s.issued| ==> r.issued[k] == s.issued[k])
            && (forall k: nat :: InForce(r, k) <==> InForce(s, k) || k == |s.issued|)
  {
  }

  /** Within the bound, unsubscribing ends the registration of the ticket presented, if it is in force, and no other. */
  lemma UnsubscribeIsPlain<C>(s: State<C>, k: nat)
    requires Inv(s) && Bounded(s)
    ensures View(Apply(s, Unsubscribe(k))) == PlainApply(|s.slots|, View(s), Unsubscribe(k))
    ensures k < |s.issued| ==> (Honours(s.slots, s.issued[k].ticket) <==> k in View(s).live)
  {
    var r := Apply(s, Unsubscribe(k));
    if k < |s.issued| {
      HonouredWhileHolding(s, k);
    }
    OneEnded(s, k);
    hide Inv, Apply, InForce, Honours;
    assert View(r).callbacks == View(s).callbacks;
    assert View(r).live == View(s).live - {k};
  }

  lemma OneEnded<C>(s: State<C>, k: nat)
    requires Inv(s) && Bounded(s)
    ensures var r := Apply(s, Unsubscribe(k));
            r.issued == s.issued && forall j: nat :: InForce(r, j) <==> InForce(s, j) && j != k
  {
    if k < |s.issued| {
      HonouredWhileHolding(s, k);
    }
  }

  lemma ClearIsPlain<C>(s: State<C>)
    requires Inv(s)
    ensures View(Apply(s, Clear)) == PlainApply(|s.slots|, View(s), Clear)
  {
    assert forall k: nat :: !InForce(Apply(s, Clear), k);
  }

  lemma StepIsPlain<C>(s: State<C>, op: Op<C>)
    requires Inv(s) && Bounded(s)
    ensures View(Apply(s, op)) == PlainApply(|s.slots|, View(s), op) && |Apply(s, op).slots| == |s.slots|
  {
    match op {
      case Subscribe(c) => SubscribeIsPlain(s, c);
      case Unsubscribe(k) => UnsubscribeIsPlain(s, k);
      case Clear => ClearIsPlain(s);
    }
    hide View, PlainApply, Inv;
  }

  lemma NothingYet<C>(capacity: nat)
    ensures View(Start<C>(capacity)) == Plain([], {})
  {
  }

  lemma {:induction false} RunIsPlain<C>(capacity: nat, ops: seq<Op<C>>)
    requires Bounded(Run(capacity, ops))
    ensures View(Run(capacity, ops)) == PlainRun(capacity, ops) && |Run(capacity, ops).slots| == capacity
  {
    hide View, Apply, PlainApply, Inv, Bounded;
    if ops == [] {
      NothingYet<C>(capacity);
    } else {
      var front, op := ops[..|ops| - 1], ops[|ops| - 1];
      var m := Run(capacity, front);
      StepBounded(m, op);
      RunIsPlain(capacity, front);
      StepIsPlain(m, op);
    }
  }

  /** Over every run in which each slot is deactivated fewer than 2^32 times a registry behaves like a plain set with
      room for `capacity` registrations: exactly its members' tickets are honoured, and exactly its members' callbacks
      are invoked, each once. */
  lemma RegistrationsArePlain<C>(capacity: nat, ops: seq<Op<C>>)
    requires Bounded(Run(capacity, ops))
    ensures var s, p := Run(capacity, ops), PlainRun(capacity, ops);
            && |s.issued| == |p.callbacks| && |p.live| <= capacity
            && (forall k :: 0 <= k < |s.issued| ==>
                  && s.issued[k].callback == p.callbacks[k]
                  && (Honours(s.slots, s.issued[k].ticket) <==> k in p.live))
            && |Callbacks(s.slots)| == |Invoked(s.holder)| == |p.live|
            && (forall k :: k in Invoked(s.holder) <==> k in p.live)
            && (forall j :: 0 <= j < |Callbacks(s.slots)| ==>
                  && Invoked(s.holder)[j] < |p.callbacks|
                  && Callbacks(s.slots)[j] == p.callbacks[Invoked(s.holder)[j]])
  {
    var s := Run(capacity, ops);
    RunIsPlain(capacity, ops);
    InvocationRunsLive(s);
    AllUsedIff(s.holder);
    forall k | 0 <= k < |s.issued|
      ensures Honours(s.slots, s.issued[k].ticket) <==> k in View(s).live
    {
      HonouredWhileHolding(s, k);
    }
  }
}
