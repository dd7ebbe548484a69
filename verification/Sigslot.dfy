/** Signals, their slots and the move-only connections that point at each other. */
module Sigslot {
  import opened Options

  const GENERATIONS := 0x1_0000_0000

  datatype SignalError = Ok | Full | InvalidConnection

  /** A wrapped callable; the empty wrapper is None where one is stored. */
  datatype Callback = Callback(id: nat)

  datatype Slot = Slot(callback: Option<Callback>, connection: Connection?, generation: nat, active: bool)

  const BLANK := Slot(None, null, 0, false)

  function Freed(s: Slot): Slot {
    Slot(None, null, (s.generation + 1) % GENERATIONS, false)
  }

  // ----- a row of slots -----

  function ActiveSlots(s: seq<Slot>): nat {
    if s == [] then 0 else ActiveSlots(s[..|s| - 1]) + if s[|s| - 1].active then 1 else 0
  }

  lemma {:induction false} CountAfterUpdate(s: seq<Slot>, i: nat, x: Slot)
    requires i < |s|
    ensures ActiveSlots(s[i := x]) + (if s[i].active then 1 else 0) == ActiveSlots(s) + if x.active then 1 else 0
  {
    var n := |s| - 1;
    if i == n {
      assert s[i := x][..n] == s[..n];
    } else {
      CountAfterUpdate(s[..n], i, x);
      assert s[i := x][..n] == s[..n][i := x];
    }
  }

  lemma {:induction false} NoneActive(s: seq<Slot>)
    requires forall i :: 0 <= i < |s| ==> !s[i].active
    ensures ActiveSlots(s) == 0
  {
    if s != [] {
      NoneActive(s[..|s| - 1]);
    }
  }

  /** The first inactive slot, or the number of slots. */
  function FirstInactive(s: seq<Slot>): (i: nat)
    ensures i <= |s| && (i < |s| ==> !s[i].active)
    ensures forall j :: 0 <= j < i ==> s[j].active
  {
    if s == [] then 0
    else
      var i := FirstInactive(s[..|s| - 1]);
      if i < |s| - 1 || !s[i].active then i else |s|
  }

  lemma FirstInactiveIs(s: seq<Slot>, i: nat)
    requires i <= |s| && (i < |s| ==> !s[i].active)
    requires forall j :: 0 <= j < i ==> s[j].active
    ensures FirstInactive(s) == i
  {
  }

  /** The callbacks an emission runs, in slot order. */
  function ActiveCallbacks(s: seq<Slot>): seq<Callback> {
    if s == [] then []
    else
      var rest, last := ActiveCallbacks(s[..|s| - 1]), s[|s| - 1];
      if last.active && last.callback.Some? then rest + [last.callback.value] else rest
  }

  lemma ActiveCallbacksExtend(s: seq<Slot>, n: nat)
    requires n < |s|
    ensures ActiveCallbacks(s[..n + 1])
         == ActiveCallbacks(s[..n]) + if s[n].active && s[n].callback.Some? then [s[n].callback.value] else []
  {
    assert s[..n + 1][..n] == s[..n];
  }

  // ----- the values of all live objects -----

  /** The fields of a signal. */
  datatype Row = Row(slots: seq<Slot>, count: int)

  /** The fields of a connection. */
  datatype Link = Link(owner: Signal?, index: nat, generation: nat, valid: bool)

  const UNLINKED := Link(null, 0, 0, false)

  /** Every live signal and connection with its fields. */
  datatype World = World(rows: map<Signal, Row>, links: map<Connection, Link>)

  predicate Connected(l: Link) {
    l.valid && l.owner != null
  }

  /** The slot named by the link is in use, carries its generation and points back. */
  predicate Points(rows: map<Signal, Row>, c: Connection, l: Link) {
    && l.owner in rows && l.index < |rows[l.owner].slots|
    && var x := rows[l.owner].slots[l.index];
       x.active && x.generation == l.generation && x.connection == c
  }

  /** An active slot holds a callback and points at a live connection that names it; an inactive one is empty. */
  predicate SlotFits(w: World, s: Signal, i: nat)
    requires s in w.rows && i < |w.rows[s].slots|
  {
    var x := w.rows[s].slots[i];
    if x.active then
      && x.callback.Some? && x.connection in w.links
      && w.links[x.connection] == Link(s, i, x.generation, true)
    else x.callback.None? && x.connection == null
  }

  predicate LinkFits(w: World, c: Connection)
    requires c in w.links
  {
    if Connected(w.links[c]) then Points(w.rows, c, w.links[c]) else w.links[c] == UNLINKED
  }

  ghost predicate Consistent(w: World) {
    && (forall s :: s in w.rows ==> w.rows[s].count == ActiveSlots(w.rows[s].slots))
    && (forall s, i :: s in w.rows && 0 <= i < |w.rows[s].slots| ==> SlotFits(w, s, i))
    && (forall c :: c in w.links ==> LinkFits(w, c))
  }

  // ----- what each operation does to those values -----

  /** `connect` with a callback: the first inactive slot is linked with the new connection. */
  function Attach(w: World, s: Signal, callback: Callback, c: Connection): World
    requires s in w.rows
  {
    var row := w.rows[s];
    var i := FirstInactive(row.slots);
    if i == |row.slots| then w.(links := w.links[c := UNLINKED])
    else
      var g := row.slots[i].generation;
      World(w.rows[s := Row(row.slots[i := Slot(Some(callback), c, g, true)], row.count + 1)],
            w.links[c := Link(s, i, g, true)])
  }

  /** The checks of `disconnect`. */
  predicate CanDetach(w: World, c: Connection)
    requires c in w.links
  {
    Connected(w.links[c]) && Points(w.rows, c, w.links[c])
  }

  function Detach(w: World, c: Connection): (r: World)
    requires c in w.links
    ensures r.rows.Keys == w.rows.Keys && r.links.Keys == w.links.Keys
  {
    if CanDetach(w, c) then
      var l := w.links[c];
      var row := w.rows[l.owner];
      World(w.rows[l.owner := Row(row.slots[l.index := Freed(row.slots[l.index])], row.count - 1)],
            w.links[c := UNLINKED])
    else w
  }

  /** Moving `from` into `to`, which is not linked: the slot is re-pointed. */
  function Rebind(w: World, from: Connection, to: Connection): World
    requires from in w.links
  {
    var l := w.links[from];
    World(if CanDetach(w, from)
          then
            var row := w.rows[l.owner];
            w.rows[l.owner := row.(slots := row.slots[l.index := row.slots[l.index].(connection := to)])]
          else w.rows,
          w.links[to := l][from := UNLINKED])
  }

  /** Move assignment: what the target was linked to is disconnected first. */
  function MoveAssigned(w: World, to: Connection, from: Connection): World
    requires to in w.links && from in w.links
  {
    if to == from then w else Rebind(Detach(w, to), from, to)
  }

  function DetachAll(w: World, s: Signal): World
    requires s in w.rows
  {
    World(w.rows[s := Row(FreedRow(w.rows[s].slots), 0)], Unlinked(w.links, s))
  }

  function FreedRow(slots: seq<Slot>): (r: seq<Slot>)
    ensures |r| == |slots|
    ensures forall i :: 0 <= i < |slots| ==> r[i] == if slots[i].active then Freed(slots[i]) else slots[i]
  {
    seq(|slots|, i requires 0 <= i < |slots| => if slots[i].active then Freed(slots[i]) else slots[i])
  }

  function Unlinked(links: map<Connection, Link>, s: Signal): map<Connection, Link> {
    map c | c in links :: if links[c].owner == s then UNLINKED else links[c]
  }

  /** The signal's storage disappears, its connections become inert. */
  function SignalDestroyed(w: World, s: Signal): World {
    World(w.rows - {s}, Unlinked(w.links, s))
  }

  function ConnectionDestroyed(w: World, c: Connection): World
    requires c in w.links
  {
    var d := Detach(w, c);
    d.(links := d.links - {c})
  }

  // ----- every operation keeps signals and connections consistent -----

  lemma AttachKeepsConsistent(w: World, s: Signal, callback: Callback, c: Connection)
    requires Consistent(w) && s in w.rows && c !in w.links
    ensures Consistent(Attach(w, s, callback, c))
  {
    var r, i := Attach(w, s, callback, c), FirstInactive(w.rows[s].slots);
    if i < |w.rows[s].slots| {
      CountAfterUpdate(w.rows[s].slots, i, Slot(Some(callback), c, w.rows[s].slots[i].generation, true));
    }
    forall t, j | t in r.rows && 0 <= j < |r.rows[t].slots|
      ensures SlotFits(r, t, j)
    {
      assert SlotFits(w, t, j);
    }
    forall d | d in r.links
      ensures LinkFits(r, d)
    {
      assert d != c ==> LinkFits(w, d);
    }
  }

  lemma DetachKeepsSlots(w: World, c: Connection, s: Signal, i: nat)
    requires Consistent(w) && c in w.links && s in w.rows && i < |w.rows[s].slots|
    ensures SlotFits(Detach(w, c), s, i)
  {
    assert SlotFits(w, s, i);
  }

  lemma DetachKeepsLinks(w: World, c: Connection, d: Connection)
    requires Consistent(w) && c in w.links && d in w.links
    ensures LinkFits(Detach(w, c), d)
  {
    assert LinkFits(w, d);
  }

  lemma DetachKeepsConsistent(w: World, c: Connection)
    requires Consistent(w) && c in w.links
    ensures Consistent(Detach(w, c))
  {
    if CanDetach(w, c) {
      var r, l := Detach(w, c), w.links[c];
      CountAfterUpdate(w.rows[l.owner].slots, l.index, Freed(w.rows[l.owner].slots[l.index]));
      forall t, j | t in r.rows && 0 <= j < |r.rows[t].slots|
        ensures SlotFits(r, t, j)
      {
        DetachKeepsSlots(w, c, t, j);
      }
      forall d | d in r.links
        ensures LinkFits(r, d)
      {
        DetachKeepsLinks(w, c, d);
      }
      hide SlotFits, LinkFits, Points;
    }
  }

  lemma RebindKeepsSlots(w: World, from: Connection, to: Connection, s: Signal, i: nat)
    requires Consistent(w) && from in w.links && to != from
    requires to in w.links ==> w.links[to] == UNLINKED
    requires s in w.rows && i < |w.rows[s].slots|
    ensures SlotFits(Rebind(w, from, to), s, i)
  {
    assert SlotFits(w, s, i) && LinkFits(w, from);
  }

  lemma RebindKeepsLinks(w: World, from: Connection, to: Connection, d: Connection)
    requires Consistent(w) && from in w.links && to != from
    requires to in w.links ==> w.links[to] == UNLINKED
    requires d in w.links || d == to
    ensures LinkFits(Rebind(w, from, to), d)
  {
    assert LinkFits(w, from);
    assert d in w.links ==> LinkFits(w, d);
  }

  lemma RebindKeepsConsistent(w: World, from: Connection, to: Connection)
    requires Consistent(w) && from in w.links && to != from
    requires to in w.links ==> w.links[to] == UNLINKED
    ensures Consistent(Rebind(w, from, to))
  {
    var r, l := Rebind(w, from, to), w.links[from];
    if CanDetach(w, from) {
      var slots := w.rows[l.owner].slots;
      CountAfterUpdate(slots, l.index, slots[l.index].(connection := to));
    }
    forall t, j | t in r.rows && 0 <= j < |r.rows[t].slots|
      ensures SlotFits(r, t, j)
    {
      RebindKeepsSlots(w, from, to, t, j);
    }
    forall d | d in r.links
      ensures LinkFits(r, d)
    {
      RebindKeepsLinks(w, from, to, d);
    }
    hide SlotFits, LinkFits;
  }

  /** Disconnecting a connected object always succeeds and leaves it unlinked. */
  lemma DisconnectAlwaysSucceeds(w: World, c: Connection)
    requires Consistent(w) && c in w.links
    ensures Connected(w.links[c]) <==> CanDetach(w, c)
    ensures Detach(w, c).links[c] == UNLINKED
  {
    assert LinkFits(w, c);
  }

  lemma MoveAssignKeepsConsistent(w: World, to: Connection, from: Connection)
    requires Consistent(w) && to in w.links && from in w.links
    ensures Consistent(MoveAssigned(w, to, from))
  {
    if to != from {
      DetachKeepsConsistent(w, to);
      DisconnectAlwaysSucceeds(w, to);
      RebindKeepsConsistent(Detach(w, to), from, to);
    }
  }

  lemma DetachAllKeepsConsistent(w: World, s: Signal)
    requires Consistent(w) && s in w.rows
    ensures Consistent(DetachAll(w, s))
  {
    var r := DetachAll(w, s);
    NoneActive(r.rows[s].slots);
    forall t, j | t in r.rows && 0 <= j < |r.rows[t].slots|
      ensures SlotFits(r, t, j)
    {
      assert SlotFits(w, t, j);
    }
    forall d | d in r.links
      ensures LinkFits(r, d)
    {
      assert LinkFits(w, d);
    }
  }

  lemma SignalDestroyedKeepsConsistent(w: World, s: Signal)
    requires Consistent(w)
    ensures Consistent(SignalDestroyed(w, s))
  {
    var r := SignalDestroyed(w, s);
    forall t, j | t in r.rows && 0 <= j < |r.rows[t].slots|
      ensures SlotFits(r, t, j)
    {
      assert SlotFits(w, t, j);
    }
    forall d | d in r.links
      ensures LinkFits(r, d)
    {
      assert LinkFits(w, d);
    }
  }

  lemma ConnectionDestroyedKeepsConsistent(w: World, c: Connection)
    requires Consistent(w) && c in w.links
    ensures Consistent(ConnectionDestroyed(w, c))
  {
    DetachKeepsConsistent(w, c);
    DisconnectAlwaysSucceeds(w, c);
    var d, r := Detach(w, c), ConnectionDestroyed(w, c);
    forall t, j | t in r.rows && 0 <= j < |r.rows[t].slots|
      ensures SlotFits(r, t, j)
    {
      assert SlotFits(d, t, j);
    }
    forall e | e in r.links
      ensures LinkFits(r, e)
    {
      assert LinkFits(d, e);
    }
  }

  // ----- runs -----

  /** What client code can do; objects are named by their addresses. */
  datatype Op =
    | CreateSignal(s: Signal, capacity: nat)
    | CreateConnection(c: Connection)
    | Connect(s: Signal, callback: Callback, c: Connection)
    | MoveConstruct(to: Connection, from: Connection)
    | MoveAssign(to: Connection, from: Connection)
    | Disconnect(c: Connection)
    | DestroyConnection(c: Connection)
    | DisconnectAll(s: Signal)
    | DestroySignal(s: Signal)

  /** Operands are live, and what is created is not. */
  predicate Enabled(w: World, op: Op) {
    match op
    case CreateSignal(s, capacity) => s !in w.rows && capacity > 0
    case CreateConnection(c) => c !in w.links
    case Connect(s, _, c) => s in w.rows && c !in w.links
    case MoveConstruct(to, from) => to !in w.links && from in w.links
    case MoveAssign(to, from) => to in w.links && from in w.links
    case Disconnect(c) => c in w.links
    case DestroyConnection(c) => c in w.links
    case DisconnectAll(s) => s in w.rows
    case DestroySignal(s) => s in w.rows
  }

  function Apply(w: World, op: Op): World
    requires Enabled(w, op)
  {
    match op
    case CreateSignal(s, capacity) => w.(rows := w.rows[s := Row(seq(capacity, i => BLANK), 0)])
    case CreateConnection(c) => w.(links := w.links[c := UNLINKED])
    case Connect(s, callback, c) => Attach(w, s, callback, c)
    case MoveConstruct(to, from) => Rebind(w, from, to)
    case MoveAssign(to, from) => MoveAssigned(w, to, from)
    case Disconnect(c) => Detach(w, c)
    case DestroyConnection(c) => ConnectionDestroyed(w, c)
    case DisconnectAll(s) => DetachAll(w, s)
    case DestroySignal(s) => SignalDestroyed(w, s)
  }

  ghost predicate Execution(w: World, ops: seq<Op>, r: World)
    decreases |ops|
  {
    if ops == [] then w == r
    else Enabled(w, ops[0]) && Execution(Apply(w, ops[0]), ops[1..], r)
  }

  const EMPTY := World(map[], map[])

  lemma CreationKeepsConsistent(w: World, op: Op)
    requires Consistent(w) && Enabled(w, op) && (op.CreateSignal? || op.CreateConnection?)
    ensures Consistent(Apply(w, op))
  {
    var r := Apply(w, op);
    if op.CreateSignal? {
      NoneActive(r.rows[op.s].slots);
    }
    forall t, j | t in r.rows && 0 <= j < |r.rows[t].slots|
      ensures SlotFits(r, t, j)
    {
      assert t in w.rows && r.rows[t] == w.rows[t] ==> SlotFits(w, t, j);
    }
    forall d | d in r.links
      ensures LinkFits(r, d)
    {
      assert d in w.links ==> LinkFits(w, d);
    }
  }

  lemma StepKeepsConsistent(w: World, op: Op)
    requires Consistent(w) && Enabled(w, op)
    ensures Consistent(Apply(w, op))
  {
    hide Consistent;
    match op {
      case CreateSignal(s, capacity) => CreationKeepsConsistent(w, op);
      case CreateConnection(c) => CreationKeepsConsistent(w, op);
      case Connect(s, callback, c) => AttachKeepsConsistent(w, s, callback, c);
      case MoveConstruct(to, from) => RebindKeepsConsistent(w, from, to);
      case MoveAssign(to, from) => MoveAssignKeepsConsistent(w, to, from);
      case Disconnect(c) => DetachKeepsConsistent(w, c);
      case DestroyConnection(c) => ConnectionDestroyedKeepsConsistent(w, c);
      case DisconnectAll(s) => DetachAllKeepsConsistent(w, s);
      case DestroySignal(s) => SignalDestroyedKeepsConsistent(w, s);
    }
  }

  lemma {:induction false} ExecutionKeepsConsistent(w: World, ops: seq<Op>, r: World)
    requires Consistent(w) && Execution(w, ops, r)
    ensures Consistent(r)
    decreases |ops|
  {
    hide Consistent;
    if ops != [] {
      StepKeepsConsistent(w, ops[0]);
      ExecutionKeepsConsistent(Apply(w, ops[0]), ops[1..], r);
    }
  }

  /** In every reachable world, whatever the generations have wrapped to: a connection reports connected exactly when
      its slot is active, carries its generation and points back, its disconnect then succeeds, and every signal counts
      its active slots. */
  lemma ReachableIsConsistent(ops: seq<Op>, w: World)
    requires Execution(EMPTY, ops, w)
    ensures forall c :: c in w.links ==>
              && (Connected(w.links[c]) <==> Points(w.rows, c, w.links[c]))
              && (Connected(w.links[c]) <==> CanDetach(w, c))
    ensures forall s :: s in w.rows ==> w.rows[s].count == ActiveSlots(w.rows[s].slots)
  {
    ExecutionKeepsConsistent(EMPTY, ops, w);
    forall c | c in w.links
      ensures Connected(w.links[c]) <==> Points(w.rows, c, w.links[c])
      ensures Connected(w.links[c]) <==> CanDetach(w, c)
    {
      assert LinkFits(w, c);
    }
  }

  /** Two connections never share a slot. */
  lemma SlotsHaveOneOwner(w: World, c: Connection, d: Connection)
    requires Consistent(w) && c in w.links && d in w.links && c != d
    requires Connected(w.links[c]) && Connected(w.links[d])
    ensures w.links[c].owner != w.links[d].owner || w.links[c].index != w.links[d].index
  {
    assert LinkFits(w, c) && LinkFits(w, d);
  }

  // ----- the objects -----

  ghost function SlotArrays(w: World): set<object> {
    set s | s in w.rows :: s.slots
  }

  /** The live objects have exactly these field values, and no two signals share storage. */
  ghost predicate Shows(w: World)
    reads w.rows.Keys, SlotArrays(w), w.links.Keys
  {
    && (forall s :: s in w.rows ==> w.rows[s] == Row(s.slots[..], s.activeCount))
    && (forall c :: c in w.links ==> w.links[c] == c.Fields())
    && (forall s, t :: s in w.rows && t in w.rows && s.slots == t.slots ==> s == t)
  }

  /** No signal but `s` and no connection but `c` and `d` differs from `w`. */
  ghost predicate ShowsBut(w: World, s: Signal?, c: Connection, d: Connection)
    reads set t | t in w.rows && t != s
    reads set t | t in w.rows && t != s :: t.slots
    reads set e | e in w.links && e != c && e != d
  {
    && (forall t :: t in w.rows && t != s ==> w.rows[t] == Row(t.slots[..], t.activeCount))
    && (forall e :: e in w.links && e != c && e != d ==> w.links[e] == e.Fields())
    && (forall s, t :: s in w.rows && t in w.rows && s.slots == t.slots ==> s == t)
  }

  /** The heap after a move: the slot points at the target, the links have changed hands. */
  lemma RebindShows(w: World, from: Connection, to: Connection)
    requires Consistent(w) && from in w.links && from != to
    requires ShowsBut(w, w.links[from].owner, from, to)
    requires to.Fields() == w.links[from] && from.Fields() == UNLINKED
    requires var l := w.links[from];
             Connected(l) ==>
               && l.owner in w.rows && l.owner.activeCount == w.rows[l.owner].count
               && l.owner.slots[..] == Repointed(w.rows[l.owner].slots, l.index, l.generation, to)
    ensures Shows(Rebind(w, from, to))
  {
    LinkOf(w, from);
    RebindOf(w, from, to);
    hide Consistent, Repointed, Rebind, Points;
  }

  /** The heap after a disconnect: the slot is freed, the link reset. */
  lemma DetachShows(w: World, c: Connection)
    requires Consistent(w) && c in w.links
    requires ShowsBut(w, w.links[c].owner, c, c) && c.Fields() == UNLINKED
    requires var l := w.links[c];
             Connected(l) ==>
               && l.owner in w.rows && l.index < |w.rows[l.owner].slots|
               && l.owner.activeCount == w.rows[l.owner].count - 1
               && l.owner.slots[..] == w.rows[l.owner].slots[l.index := Freed(w.rows[l.owner].slots[l.index])]
    ensures Shows(Detach(w, c))
  {
    DisconnectAlwaysSucceeds(w, c);
    LinkOf(w, c);
    hide Consistent, Freed;
  }

  /** What the signal of a connected object knows about it. */
  lemma Recognised(w: World, c: Connection)
    requires Consistent(w) && Shows(w) && c in w.links
    ensures w.links[c] == c.Fields() && forall d :: ShowsBut(w, c.owner, c, d)
    ensures c.IsConnected() ==> c.owner in w.rows && w.rows[c.owner] == Row(c.owner.slots[..], c.owner.activeCount)
    ensures if c.IsConnected()
            then c.owner in w.rows && Identifies(c.owner.slots[..], c.index, c.generation, c)
            else c.Fields() == UNLINKED
  {
    LinkOf(w, c);
  }

  lemma LinkOf(w: World, c: Connection)
    requires Consistent(w) && c in w.links
    ensures LinkFits(w, c)
  {
  }

  /** Moving a linked connection, as the two steps of the source. */
  lemma RebindOf(w: World, from: Connection, to: Connection)
    requires Consistent(w) && from in w.links
    ensures Rebind(w, from, to).links == w.links[to := w.links[from]][from := UNLINKED]
    ensures var l := w.links[from];
            if Connected(l)
            then
              && l.owner in w.rows
              && var slots := Repointed(w.rows[l.owner].slots, l.index, l.generation, to);
                 Rebind(w, from, to).rows == w.rows[l.owner := Row(slots, w.rows[l.owner].count)]
            else Rebind(w, from, to).rows == w.rows
  {
    assert LinkFits(w, from);
  }

  /** The links to one slot: none when it is inactive, exactly its own connection when it is active. */
  lemma LinksToSlot(w: World, s: Signal, i: nat)
    requires Consistent(w) && s in w.rows && i < |w.rows[s].slots|
    ensures var x := w.rows[s].slots[i];
            && (x.active <==> x.connection != null)
            && (x.active ==> x.connection in w.links)
            && forall c :: c in w.links ==> (w.links[c].owner == s && w.links[c].index == i <==> x.connection == c)
  {
    assert SlotFits(w, s, i);
    forall c | c in w.links
      ensures w.links[c].owner == s && w.links[c].index == i <==> w.rows[s].slots[i].connection == c
    {
      assert LinkFits(w, c);
    }
  }

  lemma AllIndexed(w: World, s: Signal)
    requires Consistent(w) && s in w.rows
    ensures forall c :: c in w.links && w.links[c].owner == s ==> w.links[c].index < |w.rows[s].slots|
  {
    forall c | c in w.links && w.links[c].owner == s
      ensures w.links[c].index < |w.rows[s].slots|
    {
      assert LinkFits(w, c);
    }
  }

  /** What re-pointing does to a row: nothing when the slot is not the one meant. */
  function Repointed(slots: seq<Slot>, index: nat, generation: nat, c: Connection): seq<Slot> {
    if index < |slots| && slots[index].active && slots[index].generation == generation
    then slots[index := slots[index].(connection := c)] else slots
  }

  /** The checks made by the signal itself. */
  predicate Identifies(slots: seq<Slot>, index: nat, generation: nat, c: Connection) {
    index < |slots| && slots[index].active && slots[index].generation == generation && slots[index].connection == c
  }

  class Connection {
    var owner: Signal?
    var index: nat
    var generation: nat
    var valid: bool

    ghost function Fields(): Link
      reads this
    {
      Link(owner, index, generation, valid)
    }

    predicate IsConnected()
      reads this
    {
      valid && owner != null
    }

    /** The signal this connection names, and its slots. */
    ghost function Target(): set<object>
      reads this
    {
      if owner == null then {} else {owner, owner.slots}
    }

    constructor ()
      ensures Fields() == UNLINKED
    {
      owner, index, generation, valid := null, 0, 0, false;
    }

    /** The private constructor used by `connect`. */
    constructor For(owner: Signal, index: nat, generation: nat)
      modifies owner.slots
      ensures Fields() == Link(owner, index, generation, true)
      ensures owner.slots[..] == Repointed(old(owner.slots[..]), index, generation, this)
    {
      this.owner, this.index, this.generation, valid := owner, index, generation, true;
      new;
      owner.RebindConnection(index, generation, this);
    }

    /** Move construction: the new object takes over the slot. */
    constructor MoveFrom(other: Connection, ghost w: World)
      requires Shows(w) && Consistent(w) && other in w.links
      modifies other, if other.owner == null then {} else {other.owner.slots}
      ensures this !in w.links && Shows(Rebind(w, other, this))
    {
      hide Shows, Consistent, Rebind, Repointed, Identifies;
      Recognised(w, other);
      owner, index, generation, valid := other.owner, other.index, other.generation, other.valid;
      assert ShowsBut(w, other.owner, other, other);
      new;
      if valid && owner != null {
        owner.RebindConnection(index, generation, this);
      }
      other.Reset();
      RebindShows(w, other, this);
    }

    /** Move assignment, within one signal or between two. */
    method MoveAssign(other: Connection, ghost w: World)
      requires Shows(w) && Consistent(w) && this in w.links && other in w.links
      modifies this, other, Target(), other.Target()
      ensures Shows(MoveAssigned(w, this, other))
    {
      if this != other {
        var _ := Disconnect(w);
        DetachKeepsConsistent(w, this);
        DisconnectAlwaysSucceeds(w, this);
        TakeOver(other, Detach(w, this));
      }
    }

    /** The second half of move assignment, on an object that is no longer linked. */
    method TakeOver(other: Connection, ghost w: World)
      requires Shows(w) && Consistent(w) && this in w.links && other in w.links && this != other
      requires Fields() == UNLINKED
      modifies this, other, if other.owner == null then {} else {other.owner.slots}
      ensures Shows(Rebind(w, other, this))
    {
      hide Shows, Consistent, Rebind, Repointed, Identifies;
      Recognised(w, other);
      assert ShowsBut(w, other.owner, other, this);
      owner, index, generation, valid := other.owner, other.index, other.generation, other.valid;
      if valid && owner != null {
        owner.RebindConnection(index, generation, this);
      }
      other.Reset();
      RebindShows(w, other, this);
    }

    method Reset()
      modifies this
      ensures Fields() == UNLINKED
    {
      owner, index, generation, valid := null, 0, 0, false;
    }

    /** Succeeds exactly on a connected object, and frees its slot. */
    method Disconnect(ghost w: World) returns (error: SignalError)
      requires Shows(w) && Consistent(w) && this in w.links
      modifies this, Target()
      ensures error == if old(IsConnected()) then Ok else InvalidConnection
      ensures Shows(Detach(w, this)) && Fields() == UNLINKED
    {
      Recognised(w, this);
      hide Consistent, Detach, Freed;
      if !valid || owner == null {
        DetachShows(w, this);
        return InvalidConnection;
      }
      var signal := owner;
      error := signal.DisconnectSlot(index, generation, this);
      if error == Ok {
        Reset();
      }
      DetachShows(w, this);
    }

    /** The destructor: a connected object frees its slot before it disappears. */
    method Destroy(ghost w: World)
      requires Shows(w) && Consistent(w) && this in w.links
      modifies this, Target()
      ensures Shows(ConnectionDestroyed(w, this))
    {
      var _ := Disconnect(w);
    }
  }

  class Signal {
    const slots: array<Slot>
    var activeCount: int

    constructor (capacity: nat)
      requires capacity > 0
      ensures fresh(slots) && slots[..] == seq(capacity, i => BLANK) && activeCount == 0
    {
      slots := new Slot[capacity](i => BLANK);
      activeCount := 0;
    }

    method DisconnectSlot(index: nat, generation: nat, connection: Connection) returns (error: SignalError)
      modifies this, slots
      ensures error == if Identifies(old(slots[..]), index, generation, connection) then Ok else InvalidConnection
      ensures error == Ok ==>
                && slots[..] == old(slots[..])[index := Freed(old(slots[..])[index])]
                && activeCount == old(activeCount) - 1
      ensures error != Ok ==> slots[..] == old(slots[..]) && activeCount == old(activeCount)
    {
      if index >= slots.Length {
        return InvalidConnection;
      }
      var current := slots[index];
      if !current.active {
        return InvalidConnection;
      }
      if current.generation != generation {
        return InvalidConnection;
      }
      if current.connection != connection {
        return InvalidConnection;
      }
      slots[index] := Slot(None, null, (current.generation + 1) % GENERATIONS, false);
      activeCount := activeCount - 1;
      return Ok;
    }

    method RebindConnection(index: nat, generation: nat, connection: Connection)
      modifies slots
      ensures slots[..] == Repointed(old(slots[..]), index, generation, connection)
    {
      if index >= slots.Length {
        return;
      }
      var current := slots[index];
      if !current.active {
        return;
      }
      if current.generation != generation {
        return;
      }
      slots[index] := current.(connection := connection);
    }

    /** Links the first inactive slot with a new connection; an empty callback or a full signal yields a reset one. */
    method Connect(callback: Option<Callback>, ghost w: World) returns (connection: Connection, error: SignalError)
      requires Shows(w) && Consistent(w) && this in w.rows
      modifies this, slots
      ensures fresh(connection) && connection !in w.links
      ensures error == if callback.None? then InvalidConnection
                       else if FirstInactive(old(slots[..])) == slots.Length then Full else Ok
      ensures Shows(if callback.None? then w.(links := w.links[connection := UNLINKED])
                    else Attach(w, this, callback.value, connection))
    {
      if callback.None? {
        connection := new Connection();
        return connection, InvalidConnection;
      }
      for i := 0 to slots.Length
        invariant forall j :: 0 <= j < i ==> slots[j].active
        invariant Shows(w)
      {
        var current := slots[i];
        if !current.active {
          FirstInactiveIs(slots[..], i);
          assert w.rows[this].slots[i] == current;
          assert SlotFits(w, this, i);
          hide Consistent;
          connection := OpenSlot(i, callback.value, w);
          return connection, Ok;
        }
      }
      FirstInactiveIs(slots[..], slots.Length);
      connection := new Connection();
      return connection, Full;
    }

    /** The body of the loop of `connect` for the slot it settles on. */
    method OpenSlot(i: nat, callback: Callback, ghost w: World) returns (connection: Connection)
      requires Shows(w) && this in w.rows
      requires i < slots.Length && FirstInactive(slots[..]) == i
      modifies this, slots
      ensures fresh(connection) && connection !in w.links
      ensures Shows(Attach(w, this, callback, connection))
    {
      slots[i] := slots[i].(callback := Some(callback), active := true);
      activeCount := activeCount + 1;
      ghost var claimed := slots[..];
      connection := new Connection.For(this, i, slots[i].generation);
      assert slots[..] == claimed[i := claimed[i].(connection := connection)];
      assert slots[..] == w.rows[this].slots[i := Slot(Some(callback), connection, claimed[i].generation, true)];
    }

    /** Runs the callbacks of the active slots, in slot order. */
    method Emit() returns (called: seq<Callback>)
      ensures called == ActiveCallbacks(slots[..])
    {
      called := [];
      for i := 0 to slots.Length
        invariant called == ActiveCallbacks(slots[..][..i])
      {
        ActiveCallbacksExtend(slots[..], i);
        var current := slots[i];
        if current.active && current.callback.Some? {
          called := called + [current.callback.value];
        }
      }
      assert slots[..][..slots.Length] == slots[..];
    }

    /** The body of the loop of `disconnect_all`. */
    method FreeSlot(i: nat)
      requires i < slots.Length && (slots[i].active <==> slots[i].connection != null)
      modifies slots, if slots[i].connection == null then {} else {slots[i].connection}
      ensures slots[..] == old(slots[..])[i := if old(slots[i].active) then Freed(old(slots[i])) else old(slots[i])]
      ensures old(slots[i].active) ==> old(slots[i]).connection.Fields() == UNLINKED
    {
      var current := slots[i];
      if current.active {
        if current.connection != null {
          current.connection.Reset();
        }
        slots[i] := Slot(None, null, (current.generation + 1) % GENERATIONS, false);
      }
    }

    /** The loop of `disconnect_all`. */
    method FreeSlots(ghost w: World)
      requires Shows(w) && Consistent(w) && this in w.rows
      modifies slots, set c | c in w.links && w.links[c].owner == this
      ensures slots[..] == FreedRow(w.rows[this].slots)
      ensures forall c :: c in w.links ==> c.Fields() == Unlinked(w.links, this)[c]
    {
      hide Consistent;
      for i := 0 to slots.Length
        invariant forall j :: 0 <= j < slots.Length ==>
                    slots[j] == (if j < i then FreedRow(w.rows[this].slots) else w.rows[this].slots)[j]
        invariant forall c :: c in w.links ==>
                    c.Fields() == if w.links[c].owner == this && w.links[c].index < i then UNLINKED else w.links[c]
      {
        LinksToSlot(w, this, i);
        FreeSlot(i);
      }
      AllIndexed(w, this);
    }

    /** Frees every active slot and resets the connection it points at; other signals and connections are untouched. */
    method DisconnectAll(ghost w: World)
      requires Shows(w) && Consistent(w) && this in w.rows
      modifies this, slots, set c | c in w.links && w.links[c].owner == this
      ensures Shows(Apply(w, Op.DisconnectAll(this)))
    {
      FreeSlots(w);
      activeCount := 0;
    }

    /** The destructor: outstanding connections become inert before the storage goes. */
    method InvalidateConnections(ghost w: World)
      requires Shows(w) && Consistent(w) && this in w.rows
      modifies slots, set c | c in w.links && w.links[c].owner == this
      ensures Shows(SignalDestroyed(w, this))
    {
      ResetConnections(w);
    }

    /** The loop of the destructor. */
    method ResetConnections(ghost w: World)
      requires Shows(w) && Consistent(w) && this in w.rows
      modifies slots, set c | c in w.links && w.links[c].owner == this
      ensures forall c :: c in w.links ==> c.Fields() == Unlinked(w.links, this)[c]
    {
      hide Consistent;
      for i := 0 to slots.Length
        invariant forall j :: i <= j < slots.Length ==> slots[j] == w.rows[this].slots[j]
        invariant forall c :: c in w.links ==>
                    c.Fields() == if w.links[c].owner == this && w.links[c].index < i then UNLINKED else w.links[c]
      {
        LinksToSlot(w, this, i);
        var current := slots[i];
        if current.connection != null {
          current.connection.Reset();
          slots[i] := current.(connection := null);
        }
      }
      AllIndexed(w, this);
    }
  }
}
