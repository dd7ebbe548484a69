/** Signals and connections as plain variables: what every run of the two-way links amounts to for its clients. */
module Connections {
  import opened Options
  import opened Sigslot

  /** What a linked connection stands for: the callback it registered, and with which signal. */
  datatype Held = Held(signal: Signal, callback: Callback)

  /** Every signal with the number of slots it was made with, every connection with what it holds. */
  datatype Plain = Plain(capacities: map<Signal, nat>, holds: map<Connection, Option<Held>>)

  function Holders(p: Plain, s: Signal): set<Connection> {
    set c | c in p.holds && p.holds[c].Some? && p.holds[c].value.signal == s
  }

  /** Every connection of the signal lets go. */
  function Dropped(holds: map<Connection, Option<Held>>, s: Signal): map<Connection, Option<Held>> {
    map c | c in holds :: if holds[c].Some? && holds[c].value.signal == s then None else holds[c]
  }

  function Moved(holds: map<Connection, Option<Held>>, to: Connection, from: Connection): map<Connection, Option<Held>>
    requires from in holds
  {
    holds[to := holds[from]][from := None]
  }

  /** The operations on plain variables: a signal has room while fewer connections hold on to it than it has slots. */
  function PlainApply(p: Plain, op: Op): Plain {
    match op
    case CreateSignal(s, capacity) => p.(capacities := p.capacities[s := capacity])
    case CreateConnection(c) => p.(holds := p.holds[c := None])
    case Connect(s, callback, c) =>
      var room := s in p.capacities && |Holders(p, s)| < p.capacities[s];
      p.(holds := p.holds[c := if room then Some(Held(s, callback)) else None])
    case MoveConstruct(to, from) => if from in p.holds then p.(holds := Moved(p.holds, to, from)) else p
    case MoveAssign(to, from) => if from in p.holds && to != from then p.(holds := Moved(p.holds, to, from)) else p
    case Disconnect(c) => p.(holds := p.holds[c := None])
    case DestroyConnection(c) => p.(holds := p.holds - {c})
    case DisconnectAll(s) => p.(holds := Dropped(p.holds, s))
    case DestroySignal(s) => Plain(p.capacities - {s}, Dropped(p.holds, s))
  }

  function PlainRun(p: Plain, ops: seq<Op>): Plain
    decreases |ops|
  {
    if ops == [] then p else PlainRun(PlainApply(p, ops[0]), ops[1..])
  }

  // ----- what a world amounts to -----

  /** The callback in the slot the connection names. */
  function HeldBy(w: World, c: Connection): Option<Held>
    requires c in w.links
  {
    var l := w.links[c];
    if CanDetach(w, c) && w.rows[l.owner].slots[l.index].callback.Some?
    then Some(Held(l.owner, w.rows[l.owner].slots[l.index].callback.value)) else None
  }

  function View(w: World): Plain {
    Plain(map s | s in w.rows :: |w.rows[s].slots|, map c | c in w.links :: HeldBy(w, c))
  }

  lemma ViewOf(w: World)
    ensures View(w).holds.Keys == w.links.Keys && forall c :: c in w.links ==> View(w).holds[c] == HeldBy(w, c)
    ensures View(w).capacities.Keys == w.rows.Keys
    ensures forall s :: s in w.rows ==> View(w).capacities[s] == |w.rows[s].slots|
  {
    hide HeldBy;
  }

  /** A world whose connections hold just this, and whose signals have just these capacities. */
  lemma ViewIs(w: World, p: Plain)
    requires p.holds.Keys == w.links.Keys && forall c :: c in w.links ==> p.holds[c] == HeldBy(w, c)
    requires p.capacities.Keys == w.rows.Keys && forall s :: s in w.rows ==> p.capacities[s] == |w.rows[s].slots|
    ensures View(w) == p
  {
    ViewOf(w);
    hide HeldBy, View;
    assert View(w).holds == p.holds && View(w).capacities == p.capacities;
  }

  /** A connection holds something exactly when it is connected. */
  lemma HoldsIff(w: World, c: Connection)
    requires Consistent(w) && c in w.links
    ensures HeldBy(w, c).Some? <==> Connected(w.links[c])
    ensures HeldBy(w, c).Some? ==> HeldBy(w, c).value.signal == w.links[c].owner
  {
    LinkOf(w, c);
    if Connected(w.links[c]) {
      assert SlotFits(w, w.links[c].owner, w.links[c].index);
    }
  }

  // ----- who holds on to a signal -----

  /** The connections of the active slots, in slot order. */
  function ActiveConnections(s: seq<Slot>): seq<Connection> {
    if s == [] then []
    else
      var rest, last := ActiveConnections(s[..|s| - 1]), s[|s| - 1];
      if last.active && last.connection != null then rest + [last.connection] else rest
  }

  /** The first `n` slots and the connections that name them. */
  ghost predicate Lists(w: World, s: Signal, n: nat, order: seq<Connection>, called: seq<Callback>)
    requires s in w.rows && n <= |w.rows[s].slots|
  {
    && |order| == |called|
    && (forall k :: 0 <= k < |order| ==>
          && order[k] in w.links && Connected(w.links[order[k]])
          && w.links[order[k]].owner == s && w.links[order[k]].index < n
          && HeldBy(w, order[k]) == Some(Held(s, called[k])))
    && (forall j, k :: 0 <= j < k < |order| ==> order[j] != order[k])
    && (forall c :: c in w.links && Connected(w.links[c]) && w.links[c].owner == s && w.links[c].index < n ==>
          c in order)
  }

  lemma {:induction false} SlotsList(w: World, s: Signal, n: nat)
    requires Consistent(w) && s in w.rows && n <= |w.rows[s].slots|
    ensures var row := w.rows[s].slots[..n];
            && Lists(w, s, n, ActiveConnections(row), ActiveCallbacks(row))
            && |ActiveConnections(row)| == ActiveSlots(row)
  {
    if n > 0 {
      SlotsList(w, s, n - 1);
      var row := w.rows[s].slots[..n];
      assert row[..n - 1] == w.rows[s].slots[..n - 1];
      OneMoreSlot(w, s, n - 1, ActiveConnections(row[..n - 1]), ActiveCallbacks(row[..n - 1]));
      SlotHeld(w, s, n - 1);
      hide Lists, Consistent;
    }
  }

  /** An active slot is held by the connection it points at. */
  lemma SlotHeld(w: World, s: Signal, i: nat)
    requires Consistent(w) && s in w.rows && i < |w.rows[s].slots|
    ensures var x := w.rows[s].slots[i];
            x.active ==>
              && x.callback.Some? && x.connection != null && x.connection in w.links
              && w.links[x.connection] == Link(s, i, x.generation, true)
              && HeldBy(w, x.connection) == Some(Held(s, x.callback.value))
  {
    assert SlotFits(w, s, i);
  }

  lemma OneMoreSlot(w: World, s: Signal, i: nat, order: seq<Connection>, called: seq<Callback>)
    requires Consistent(w) && s in w.rows && i < |w.rows[s].slots| && Lists(w, s, i, order, called)
    ensures var x := w.rows[s].slots[i];
            if x.active && x.callback.Some? && x.connection != null
            then Lists(w, s, i + 1, order + [x.connection], called + [x.callback.value])
            else Lists(w, s, i + 1, order, called)
  {
    SlotHeld(w, s, i);
    LinksToSlot(w, s, i);
    hide Consistent, HeldBy;
  }

  lemma {:induction false} DistinctCount<T>(order: seq<T>, all: set<T>)
    requires forall j, k :: 0 <= j < k < |order| ==> order[j] != order[k]
    requires forall c :: c in all <==> c in order
    ensures |all| == |order|
  {
    if order == [] {
      assert all == {};
    } else {
      var n := |order| - 1;
      assert order == order[..n] + [order[n]];
      DistinctCount(order[..n], all - {order[n]});
    }
  }

  /** An emission calls the callbacks of exactly the connections that hold on to the signal, each once; their number is
      what the signal counts. */
  lemma EmissionRunsHolders(w: World, s: Signal)
    requires Consistent(w) && s in w.rows
    ensures var order, called := ActiveConnections(w.rows[s].slots), ActiveCallbacks(w.rows[s].slots);
            && |order| == |called| == w.rows[s].count == |Holders(View(w), s)|
            && (forall c :: c in order <==> c in Holders(View(w), s))
            && (forall j, k :: 0 <= j < k < |order| ==> order[j] != order[k])
            && (forall k :: 0 <= k < |order| ==> order[k] in w.links && HeldBy(w, order[k]) == Some(Held(s, called[k])))
  {
    var slots := w.rows[s].slots;
    SlotsList(w, s, |slots|);
    assert slots[..|slots|] == slots;
    AllIndexed(w, s);
    forall c | c in w.links
      ensures c in ActiveConnections(slots) <==> c in Holders(View(w), s)
    {
      HoldsIff(w, c);
    }
    DistinctCount(ActiveConnections(slots), Holders(View(w), s));
  }

  /** A signal is full exactly when as many connections hold on to it as it has slots. */
  lemma {:induction false} FullIff(slots: seq<Slot>)
    ensures ActiveSlots(slots) <= |slots|
    ensures FirstInactive(slots) == |slots| <==> ActiveSlots(slots) == |slots|
  {
    if slots != [] {
      FullIff(slots[..|slots| - 1]);
    }
  }

  lemma RoomIff(w: World, s: Signal)
    requires Consistent(w) && s in w.rows
    ensures FirstInactive(w.rows[s].slots) < |w.rows[s].slots|
            <==> |Holders(View(w), s)| < View(w).capacities[s]
  {
    FullIff(w.rows[s].slots);
    EmissionRunsHolders(w, s);
  }

  // ----- each operation on worlds is the one on plain variables -----

  /** Connecting connects: while the signal has an inactive slot the new object is linked to one that holds just this
      callback, and no other connection notices. */
  lemma ConnectHolds(w: World, s: Signal, callback: Callback, c: Connection)
    requires Consistent(w) && s in w.rows && c !in w.links
    ensures var r := Attach(w, s, callback, c);
            && r.links.Keys == w.links.Keys + {c} && r.rows.Keys == w.rows.Keys
            && (Connected(r.links[c]) <==> exists i :: 0 <= i < |w.rows[s].slots| && !w.rows[s].slots[i].active)
            && HeldBy(r, c) == (if Connected(r.links[c]) then Some(Held(s, callback)) else None)
            && (forall d :: d in w.links ==> r.links[d] == w.links[d] && HeldBy(r, d) == HeldBy(w, d))
            && (forall t :: t in w.rows ==> |r.rows[t].slots| == |w.rows[t].slots|)
  {
    var r, i := Attach(w, s, callback, c), FirstInactive(w.rows[s].slots);
    forall d | d in w.links
      ensures HeldBy(r, d) == HeldBy(w, d)
    {
      LinkOf(w, d);
    }
  }

  lemma DetachLetsGo(w: World, c: Connection)
    requires Consistent(w) && c in w.links
    ensures var r := Detach(w, c);
            && HeldBy(r, c) == None
            && (forall d :: d in w.links && d != c ==> HeldBy(r, d) == HeldBy(w, d))
            && (forall t :: t in w.rows ==> |r.rows[t].slots| == |w.rows[t].slots|)
  {
    LinkOf(w, c);
    forall d | d in w.links && d != c
      ensures HeldBy(Detach(w, c), d) == HeldBy(w, d)
    {
      LinkOf(w, d);
    }
  }

  lemma RebindHandsOver(w: World, from: Connection, to: Connection)
    requires Consistent(w) && from in w.links && to != from
    requires to in w.links ==> w.links[to] == UNLINKED
    ensures var r := Rebind(w, from, to);
            && r.links.Keys == w.links.Keys + {to} && r.rows.Keys == w.rows.Keys
            && HeldBy(r, to) == HeldBy(w, from) && HeldBy(r, from) == None
            && (forall d :: d in w.links && d != from && d != to ==> HeldBy(r, d) == HeldBy(w, d))
            && (forall t :: t in w.rows ==> |r.rows[t].slots| == |w.rows[t].slots|)
  {
    LinkOf(w, from);
    forall d | d in w.links && d != from && d != to
      ensures HeldBy(Rebind(w, from, to), d) == HeldBy(w, d)
    {
      LinkOf(w, d);
    }
  }

  lemma DetachAllLetsGo(w: World, s: Signal, c: Connection)
    requires Consistent(w) && s in w.rows && c in w.links
    ensures c in DetachAll(w, s).links
    ensures HeldBy(DetachAll(w, s), c) == Dropped(View(w).holds, s)[c]
  {
    LinkOf(w, c);
    HoldsIff(w, c);
  }

  lemma DestroyedSignalLetsGo(w: World, s: Signal, c: Connection)
    requires Consistent(w) && s in w.rows && c in w.links
    ensures c in SignalDestroyed(w, s).links
    ensures HeldBy(SignalDestroyed(w, s), c) == Dropped(View(w).holds, s)[c]
  {
    LinkOf(w, c);
    HoldsIff(w, c);
  }

  lemma ConnectIsPlain(w: World, s: Signal, callback: Callback, c: Connection)
    requires Consistent(w) && s in w.rows && c !in w.links
    ensures View(Attach(w, s, callback, c)) == PlainApply(View(w), Connect(s, callback, c))
  {
    ConnectHolds(w, s, callback, c);
    RoomIff(w, s);
    ViewOf(w);
    hide Attach, HeldBy, Consistent, Holders, View;
    ViewIs(Attach(w, s, callback, c), PlainApply(View(w), Connect(s, callback, c)));
  }

  lemma MovedIs(holds: map<Connection, Option<Held>>, to: Connection, from: Connection)
    requires from in holds && to != from
    ensures var m := Moved(holds, to, from);
            && m.Keys == holds.Keys + {to} && m[to] == holds[from] && m[from] == None
            && forall c :: c in holds && c != to && c != from ==> m[c] == holds[c]
  {
  }

  lemma ViewAfterMove(w: World, r: World, to: Connection, from: Connection)
    requires from in w.links && to != from && from in View(w).holds
    requires r.links.Keys == w.links.Keys + {to} && r.rows.Keys == w.rows.Keys
    requires HeldBy(r, to) == HeldBy(w, from) && HeldBy(r, from) == None
    requires forall d :: d in w.links && d != from && d != to ==> HeldBy(r, d) == HeldBy(w, d)
    requires forall t :: t in w.rows ==> |r.rows[t].slots| == |w.rows[t].slots|
    ensures View(r) == View(w).(holds := Moved(View(w).holds, to, from))
  {
    ViewOf(w);
    hide HeldBy, View;
    MovedIs(View(w).holds, to, from);
    hide Moved;
    ViewIs(r, View(w).(holds := Moved(View(w).holds, to, from)));
  }

  lemma MoveIsPlain(w: World, to: Connection, from: Connection)
    requires Consistent(w) && from in w.links && to != from
    requires to in w.links ==> w.links[to] == UNLINKED
    ensures from in View(w).holds && View(Rebind(w, from, to)) == View(w).(holds := Moved(View(w).holds, to, from))
  {
    RebindHandsOver(w, from, to);
    ViewOf(w);
    hide Rebind, HeldBy, Consistent, View, Moved;
    ViewAfterMove(w, Rebind(w, from, to), to, from);
  }

  lemma DisconnectIsPlain(w: World, c: Connection)
    requires Consistent(w) && c in w.links
    ensures View(Detach(w, c)) == View(w).(holds := View(w).holds[c := None])
  {
    DetachLetsGo(w, c);
    ViewOf(w);
    hide Detach, HeldBy, Consistent, View;
    ViewIs(Detach(w, c), View(w).(holds := View(w).holds[c := None]));
  }

  lemma MoveAssignIsPlain(w: World, to: Connection, from: Connection)
    requires Consistent(w) && to in w.links && from in w.links
    ensures View(MoveAssigned(w, to, from)) == PlainApply(View(w), MoveAssign(to, from))
  {
    ViewOf(w);
    if to != from {
      DetachKeepsConsistent(w, to);
      DisconnectAlwaysSucceeds(w, to);
      DisconnectIsPlain(w, to);
      MoveIsPlain(Detach(w, to), to, from);
      hide Detach, Rebind, HeldBy, Consistent, View;
      MovedOver(View(w).holds, to, from);
    }
  }

  /** What the target held before does not matter to a move. */
  lemma MovedOver(holds: map<Connection, Option<Held>>, to: Connection, from: Connection)
    requires from in holds && to != from
    ensures Moved(holds[to := None], to, from) == Moved(holds, to, from)
  {
  }

  lemma DestroyIsPlain(w: World, c: Connection)
    requires Consistent(w) && c in w.links
    ensures View(ConnectionDestroyed(w, c)) == PlainApply(View(w), DestroyConnection(c))
  {
    DisconnectIsPlain(w, c);
    ForgetIsPlain(Detach(w, c), c);
    hide Detach, HeldBy, Consistent, View;
    ForgottenOver(View(w).holds, c);
  }

  lemma ForgottenOver(holds: map<Connection, Option<Held>>, c: Connection)
    ensures holds[c := None] - {c} == holds - {c}
  {
  }

  /** An object that disappears takes nothing with it but itself. */
  lemma ForgetIsPlain(w: World, c: Connection)
    ensures View(w.(links := w.links - {c})) == View(w).(holds := View(w).holds - {c})
  {
    var r := w.(links := w.links - {c});
    forall e | e in r.links
      ensures HeldBy(r, e) == HeldBy(w, e)
    {
    }
    ViewOf(w);
    hide HeldBy, View;
    ViewIs(r, View(w).(holds := View(w).holds - {c}));
  }

  lemma DisconnectAllIsPlain(w: World, s: Signal)
    requires Consistent(w) && s in w.rows
    ensures View(DetachAll(w, s)) == PlainApply(View(w), Op.DisconnectAll(s))
  {
    forall c | c in w.links
      ensures c in DetachAll(w, s).links && HeldBy(DetachAll(w, s), c) == Dropped(View(w).holds, s)[c]
    {
      DetachAllLetsGo(w, s, c);
    }
    ViewOf(w);
    hide HeldBy, Consistent, View;
    ViewIs(DetachAll(w, s), PlainApply(View(w), Op.DisconnectAll(s)));
  }

  lemma DestroySignalIsPlain(w: World, s: Signal)
    requires Consistent(w) && s in w.rows
    ensures View(SignalDestroyed(w, s)) == PlainApply(View(w), DestroySignal(s))
  {
    forall c | c in w.links
      ensures c in SignalDestroyed(w, s).links && HeldBy(SignalDestroyed(w, s), c) == Dropped(View(w).holds, s)[c]
    {
      DestroyedSignalLetsGo(w, s, c);
    }
    ViewOf(w);
    hide HeldBy, Consistent, View;
    ViewIs(SignalDestroyed(w, s), PlainApply(View(w), DestroySignal(s)));
  }

  lemma NewSignalIsPlain(w: World, s: Signal, capacity: nat)
    requires Consistent(w) && s !in w.rows && capacity > 0
    ensures View(Apply(w, CreateSignal(s, capacity))) == PlainApply(View(w), CreateSignal(s, capacity))
  {
    var r := Apply(w, CreateSignal(s, capacity));
    forall c | c in w.links
      ensures HeldBy(r, c) == HeldBy(w, c)
    {
      LinkOf(w, c);
    }
    ViewOf(w);
    hide HeldBy, Consistent, View;
    ViewIs(r, PlainApply(View(w), CreateSignal(s, capacity)));
  }

  lemma NewConnectionIsPlain(w: World, c: Connection)
    requires Consistent(w) && c !in w.links
    ensures View(Apply(w, CreateConnection(c))) == PlainApply(View(w), CreateConnection(c))
  {
    var r := Apply(w, CreateConnection(c));
    assert HeldBy(r, c) == None;
    forall d | d in w.links
      ensures HeldBy(r, d) == HeldBy(w, d)
    {
    }
    ViewOf(w);
    hide HeldBy, Consistent, View;
    ViewIs(r, PlainApply(View(w), CreateConnection(c)));
  }

  lemma StepIsPlain(w: World, op: Op)
    requires Consistent(w) && Enabled(w, op)
    ensures View(Apply(w, op)) == PlainApply(View(w), op)
  {
    hide Consistent, View, PlainApply;
    match op {
      case CreateSignal(s, capacity) => NewSignalIsPlain(w, s, capacity);
      case CreateConnection(c) => NewConnectionIsPlain(w, c);
      case Connect(s, callback, c) => ConnectIsPlain(w, s, callback, c);
      case MoveConstruct(to, from) => MoveConstructIsPlain(w, to, from);
      case MoveAssign(to, from) => MoveAssignIsPlain(w, to, from);
      case Disconnect(c) => DisconnectOpIsPlain(w, c);
      case DestroyConnection(c) => DestroyIsPlain(w, c);
      case DisconnectAll(s) => DisconnectAllIsPlain(w, s);
      case DestroySignal(s) => DestroySignalIsPlain(w, s);
    }
  }

  lemma MoveConstructIsPlain(w: World, to: Connection, from: Connection)
    requires Consistent(w) && to !in w.links && from in w.links
    ensures View(Rebind(w, from, to)) == PlainApply(View(w), MoveConstruct(to, from))
  {
    MoveIsPlain(w, to, from);
    hide Rebind, HeldBy;
  }

  lemma DisconnectOpIsPlain(w: World, c: Connection)
    requires Consistent(w) && c in w.links
    ensures View(Detach(w, c)) == PlainApply(View(w), Disconnect(c))
  {
    DisconnectIsPlain(w, c);
    hide Detach, HeldBy;
  }

  lemma {:induction false} RunIsPlain(w: World, ops: seq<Op>, r: World)
    requires Consistent(w) && Execution(w, ops, r)
    ensures View(r) == PlainRun(View(w), ops)
    decreases |ops|
  {
    hide Consistent, View, Apply, PlainApply;
    if ops != [] {
      StepKeepsConsistent(w, ops[0]);
      StepIsPlain(w, ops[0]);
      RunIsPlain(Apply(w, ops[0]), ops[1..], r);
    }
  }

  /** Over every run from nothing, whatever the generations wrap to: each connection is connected exactly when, counting
      like plain variables, it holds a callback; that callback is in the slot it names; and an emission calls as many
      callbacks as are held with the signal, which is what the signal counts. */
  lemma ConnectionsArePlain(ops: seq<Op>, w: World)
    requires Execution(EMPTY, ops, w)
    ensures var p := PlainRun(Plain(map[], map[]), ops);
            && p.holds.Keys == w.links.Keys && p.capacities.Keys == w.rows.Keys
            && (forall c :: c in w.links ==>
                  (Connected(w.links[c]) <==> p.holds[c].Some?) && HeldBy(w, c) == p.holds[c])
            && (forall s :: s in w.rows ==>
                  && w.rows[s].count == |Holders(p, s)| <= p.capacities[s] == |w.rows[s].slots|
                  && |ActiveCallbacks(w.rows[s].slots)| == |Holders(p, s)|)
  {
    ExecutionKeepsConsistent(EMPTY, ops, w);
    RunIsPlain(EMPTY, ops, w);
    assert View(EMPTY) == Plain(map[], map[]);
    forall c | c in w.links
      ensures Connected(w.links[c]) <==> HeldBy(w, c).Some?
    {
      HoldsIff(w, c);
    }
    forall s | s in w.rows
      ensures w.rows[s].count == |Holders(View(w), s)| <= |w.rows[s].slots|
      ensures |ActiveCallbacks(w.rows[s].slots)| == |Holders(View(w), s)|
    {
      EmissionRunsHolders(w, s);
      FullIff(w.rows[s].slots);
    }
  }

  // ----- generations -----

  /** Whatever the operation, a slot that is vacated gets the next generation, and no other slot changes its own. */
  lemma VacatingAdvances(w: World, op: Op, s: Signal, i: nat)
    requires Consistent(w) && Enabled(w, op) && s in w.rows && i < |w.rows[s].slots| && s in Apply(w, op).rows
    ensures i < |Apply(w, op).rows[s].slots|
    ensures var before, after := w.rows[s].slots[i], Apply(w, op).rows[s].slots[i];
            after.generation
            == if before.active && !after.active then (before.generation + 1) % GENERATIONS else before.generation
  {
    hide Consistent;
    match op {
      case Connect(t, callback, c) =>
      case MoveConstruct(to, from) => RebindKeepsRow(w, from, to, s, i);
      case MoveAssign(to, from) =>
        if to != from {
          DetachAdvances(w, to, s, i);
          DetachKeepsConsistent(w, to);
          RebindKeepsRow(Detach(w, to), from, to, s, i);
        }
      case Disconnect(c) => DetachAdvances(w, c, s, i);
      case DestroyConnection(c) => DetachAdvances(w, c, s, i);
      case DisconnectAll(t) =>
      case CreateSignal(t, capacity) =>
      case CreateConnection(c) =>
      case DestroySignal(t) =>
    }
  }

  lemma DetachAdvances(w: World, c: Connection, s: Signal, i: nat)
    requires c in w.links && s in w.rows && i < |w.rows[s].slots|
    ensures i < |Detach(w, c).rows[s].slots|
    ensures var before, after := w.rows[s].slots[i], Detach(w, c).rows[s].slots[i];
            && (after.active ==> before.active)
            && after.generation
               == if before.active && !after.active then (before.generation + 1) % GENERATIONS else before.generation
  {
  }

  lemma RebindKeepsRow(w: World, from: Connection, to: Connection, s: Signal, i: nat)
    requires from in w.links && s in w.rows && i < |w.rows[s].slots|
    ensures i < |Rebind(w, from, to).rows[s].slots|
    ensures var before, after := w.rows[s].slots[i], Rebind(w, from, to).rows[s].slots[i];
            after.active == before.active && after.generation == before.generation
  {
  }
}
