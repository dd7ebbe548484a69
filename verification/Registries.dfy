/** The two callback registries and the handle they give out. */
module Registries {
  import opened Options
  import opened SlotMaps

  // ----- the registry that owns its callbacks -----

  /** `callback` is the stored function wrapper; an empty wrapper is None. */
  datatype FunctionSlot<+C> = FunctionSlot(callback: Option<C>, active: bool, generation: nat)

  function FunctionSlots<C>(s: seq<FunctionSlot<C>>): (m: seq<Slot<C>>)
    ensures |m| == |s|
    ensures forall i :: 0 <= i < |s| ==> m[i] == Slot(s[i].callback, s[i].generation)
  {
    seq(|s|, i requires 0 <= i < |s| => Slot(s[i].callback, s[i].generation))
  }

  class FunctionRegistry<C> {
    const slots: array<FunctionSlot<C>>
    var activeCount: int

    ghost predicate Valid()
      reads this, slots
    {
      && (forall i :: 0 <= i < slots.Length ==> (slots[i].active <==> slots[i].callback.Some?))
      && activeCount == ActiveCount(Abs())
    }

    ghost function Abs(): seq<Slot<C>>
      reads this, slots
    {
      FunctionSlots(slots[..])
    }

    constructor (capacity: nat)
      ensures Valid() && fresh(slots) && slots.Length == capacity && Abs() == Start<C>(capacity).slots
    {
      slots := new FunctionSlot<C>[capacity](i => FunctionSlot(None, false, 0));
      activeCount := 0;
      new;
      NothingRegistered(Abs());
    }

    method Subscribe(callback: Option<C>) returns (handle: Option<Ticket>, status: Status)
      requires Valid()
      modifies this, slots
      ensures Valid()
      ensures callback.None? ==> handle.None? && status == InvalidCallback && Abs() == old(Abs())
      ensures callback.Some? ==>
                && Abs() == Subscribed(old(Abs()), callback.value) && handle == IssuedFor(old(Abs()))
                && status == if handle.Some? then Ok else Full
    {
      if callback.None? {
        return None, InvalidCallback;
      }
      ghost var m := Abs();
      for i := 0 to slots.Length
        invariant Valid() && Abs() == m
        invariant forall j :: 0 <= j < i ==> m[j].callback.Some?
      {
        var current := slots[i];
        if !current.active {
          FirstFreeIs(m, i);
          CountAfterUpdate(m, i, Slot(callback, current.generation));
          slots[i] := FunctionSlot(callback, true, current.generation);
          activeCount := activeCount + 1;
          assert Abs() == m[i := Slot(callback, current.generation)];
          return Some(Ticket(i, current.generation)), Ok;
        }
      }
      FirstFreeIs(m, |m|);
      return None, Full;
    }

    method UnsubscribeSlot(index: nat, generation: nat) returns (status: Status)
      requires Valid()
      modifies this, slots
      ensures Valid()
      ensures status == if Honours(old(Abs()), Ticket(index, generation)) then Ok else InvalidSubscription
      ensures Abs() == Unsubscribed(old(Abs()), Ticket(index, generation))
    {
      if index >= slots.Length {
        return InvalidSubscription;
      }
      var current := slots[index];
      if !current.active {
        return InvalidSubscription;
      }
      if current.generation != generation {
        return InvalidSubscription;
      }
      ghost var m := Abs();
      CountAfterUpdate(m, index, Deactivated(m[index]));
      slots[index] := FunctionSlot(None, false, (current.generation + 1) % GENERATIONS);
      activeCount := activeCount - 1;
      assert Abs() == m[index := Deactivated(m[index])];
      return Ok;
    }

    /** Calls the active callbacks in slot order. */
    method Invoke() returns (called: seq<C>)
      requires Valid()
      ensures called == Callbacks(Abs())
    {
      called := [];
      ghost var m := Abs();
      for i := 0 to slots.Length
        invariant called == Callbacks(m[..i])
      {
        CallbacksExtend(m, i);
        var current := slots[i];
        if current.active && current.callback.Some? {
          called := called + [current.callback.value];
        }
      }
      assert m[..slots.Length] == m;
    }

    method ClearAll()
      requires Valid()
      modifies this, slots
      ensures Valid() && Abs() == Cleared(old(Abs()))
    {
      ghost var m := Abs();
      for i := 0 to slots.Length
        invariant forall j :: 0 <= j < slots.Length ==> (slots[j].active <==> slots[j].callback.Some?)
        invariant forall j :: 0 <= j < i ==> Abs()[j] == ClearedSlot(m[j])
        invariant forall j :: i <= j < slots.Length ==> Abs()[j] == m[j]
      {
        var current := slots[i];
        if current.active {
          slots[i] := FunctionSlot(None, false, (current.generation + 1) % GENERATIONS);
        }
      }
      activeCount := 0;
      assert Abs() == Cleared(m);
      ClearedIsEmpty(m);
    }

    function Size(): (n: int)
      reads this, slots
      requires Valid()
      ensures n == |Callbacks(Abs())|
    {
      activeCount
    }
  }

  // ----- the registry that borrows them -----

  class Delegate {
  }

  /** A null callback pointer means the slot is free. */
  datatype DelegateSlot = DelegateSlot(callback: Delegate?, generation: nat)

  function Borrowed(p: Delegate?): Option<Delegate> {
    if p == null then None else Some(p)
  }

  function DelegateSlots(s: seq<DelegateSlot>): (m: seq<Slot<Delegate>>)
    ensures |m| == |s|
    ensures forall i :: 0 <= i < |s| ==> m[i] == Slot(Borrowed(s[i].callback), s[i].generation)
  {
    seq(|s|, i requires 0 <= i < |s| => Slot(Borrowed(s[i].callback), s[i].generation))
  }

  class DelegateRegistry {
    const slots: array<DelegateSlot>
    var activeCount: int

    ghost predicate Valid()
      reads this, slots
    {
      activeCount == ActiveCount(Abs())
    }

    ghost function Abs(): seq<Slot<Delegate>>
      reads this, slots
    {
      DelegateSlots(slots[..])
    }

    constructor (capacity: nat)
      ensures Valid() && fresh(slots) && slots.Length == capacity && Abs() == Start<Delegate>(capacity).slots
    {
      slots := new DelegateSlot[capacity](i => DelegateSlot(null, 0));
      activeCount := 0;
      new;
      NothingRegistered(Abs());
    }

    method Subscribe(callback: Delegate?) returns (handle: Option<Ticket>, status: Status)
      requires Valid()
      modifies this, slots
      ensures Valid()
      ensures callback == null ==> handle.None? && status == InvalidCallback && Abs() == old(Abs())
      ensures callback != null ==>
                && Abs() == Subscribed(old(Abs()), callback) && handle == IssuedFor(old(Abs()))
                && status == if handle.Some? then Ok else Full
    {
      if callback == null {
        return None, InvalidCallback;
      }
      ghost var m := Abs();
      for i := 0 to slots.Length
        invariant Valid() && Abs() == m
        invariant forall j :: 0 <= j < i ==> m[j].callback.Some?
      {
        var current := slots[i];
        if current.callback == null {
          FirstFreeIs(m, i);
          ghost var taken: Slot<Delegate> := Slot(Borrowed(callback), current.generation);
          CountAfterUpdate(m, i, taken);
          slots[i] := DelegateSlot(callback, current.generation);
          activeCount := activeCount + 1;
          assert Abs() == m[i := taken];
          return Some(Ticket(i, current.generation)), Ok;
        }
      }
      FirstFreeIs(m, |m|);
      return None, Full;
    }

    method UnsubscribeSlot(index: nat, generation: nat) returns (status: Status)
      requires Valid()
      modifies this, slots
      ensures Valid()
      ensures status == if Honours(old(Abs()), Ticket(index, generation)) then Ok else InvalidSubscription
      ensures Abs() == Unsubscribed(old(Abs()), Ticket(index, generation))
    {
      if index >= slots.Length {
        return InvalidSubscription;
      }
      var current := slots[index];
      if current.callback == null {
        return InvalidSubscription;
      }
      if current.generation != generation {
        return InvalidSubscription;
      }
      ghost var m := Abs();
      CountAfterUpdate(m, index, Deactivated(m[index]));
      slots[index] := DelegateSlot(null, (current.generation + 1) % GENERATIONS);
      activeCount := activeCount - 1;
      assert Abs() == m[index := Deactivated(m[index])];
      return Ok;
    }

    /** Calls the registered delegates in slot order. */
    method Invoke() returns (called: seq<Delegate>)
      requires Valid()
      ensures called == Callbacks(Abs())
    {
      called := [];
      ghost var m := Abs();
      for i := 0 to slots.Length
        invariant called == Callbacks(m[..i])
      {
        CallbacksExtend(m, i);
        var callback := slots[i].callback;
        if callback != null {
          called := called + [callback];
        }
      }
      assert m[..slots.Length] == m;
    }

    method ClearAll()
      requires Valid()
      modifies this, slots
      ensures Valid() && Abs() == Cleared(old(Abs()))
    {
      ghost var m := Abs();
      for i := 0 to slots.Length
        invariant forall j :: 0 <= j < i ==> Abs()[j] == ClearedSlot(m[j])
        invariant forall j :: i <= j < slots.Length ==> Abs()[j] == m[j]
      {
        var current := slots[i];
        if current.callback != null {
          slots[i] := DelegateSlot(null, (current.generation + 1) % GENERATIONS);
        }
      }
      activeCount := 0;
      assert Abs() == Cleared(m);
      ClearedIsEmpty(m);
    }

    function Size(): (n: int)
      reads this, slots
      requires Valid()
      ensures n == |Callbacks(Abs())|
    {
      activeCount
    }
  }

  // ----- the handle -----

  /** What a handle's owner pointer can point to. */
  datatype Owner<C> = NoOwner | Functions(registry: FunctionRegistry<C>) | Delegates(borrower: DelegateRegistry)

  ghost function Footprint<C>(o: Owner<C>): set<object> {
    match o
    case NoOwner => {}
    case Functions(r) => {r, r.slots}
    case Delegates(d) => {d, d.slots}
  }

  ghost predicate OwnerValid<C>(o: Owner<C>)
    reads Footprint(o)
  {
    match o
    case NoOwner => true
    case Functions(r) => r.Valid()
    case Delegates(d) => d.Valid()
  }

  /** Whether the owner would honour the ticket. */
  ghost predicate OwnerHonours<C>(o: Owner<C>, t: Ticket)
    reads Footprint(o)
  {
    match o
    case NoOwner => false
    case Functions(r) => Honours(r.Abs(), t)
    case Delegates(d) => Honours(d.Abs(), t)
  }

  class Subscription<C> {
    var owner: Owner<C>
    var index: nat
    var generation: nat
    var valid: bool

    predicate IsValid()
      reads this
    {
      valid && owner != NoOwner
    }

    ghost predicate IsReset()
      reads this
    {
      owner == NoOwner && index == 0 && generation == 0 && !valid
    }

    constructor ()
      ensures IsReset()
    {
      owner, index, generation, valid := NoOwner, 0, 0, false;
    }

    constructor For(owner: Owner<C>, t: Ticket)
      ensures this.owner == owner && index == t.index && generation == t.generation && valid
    {
      this.owner, index, generation, valid := owner, t.index, t.generation, true;
    }

    constructor Copy(other: Subscription<C>)
      ensures owner == other.owner && index == other.index && generation == other.generation && valid == other.valid
    {
      owner, index, generation, valid := other.owner, other.index, other.generation, other.valid;
    }

    method Reset()
      modifies this
      ensures IsReset()
    {
      owner, index, generation, valid := NoOwner, 0, 0, false;
    }

    /** Presents the ticket once: the handle is spent whatever the registry answers. */
    method Unsubscribe() returns (status: Status)
      requires OwnerValid(owner) && this !in Footprint(owner)
      modifies this, Footprint(owner)
      ensures OwnerValid(old(owner))
      ensures var t := Ticket(old(index), old(generation));
              && status == (if old(IsValid()) && old(OwnerHonours(owner, Ticket(index, generation)))
                            then Ok else InvalidSubscription)
              && (old(IsValid()) ==> IsReset())
              && (!old(IsValid()) ==> owner == old(owner) && valid == old(valid))
              && (old(owner).Functions? && old(IsValid()) ==>
                    old(owner).registry.Abs() == Unsubscribed(old(owner.registry.Abs()), t))
              && (old(owner).Delegates? && old(IsValid()) ==>
                    old(owner).borrower.Abs() == Unsubscribed(old(owner.borrower.Abs()), t))
    {
      if !IsValid() {
        return InvalidSubscription;
      }
      match owner {
        case NoOwner =>
        case Functions(r) => status := r.UnsubscribeSlot(index, generation);
        case Delegates(d) => status := d.UnsubscribeSlot(index, generation);
      }
      Reset();
    }
  }

  // ----- both registries run the slot map -----

  ghost function Tickets<C>(s: State<C>): (t: seq<Ticket>)
    ensures |t| == |s.issued|
    ensures forall k :: 0 <= k < |t| ==> t[k] == s.issued[k].ticket
  {
    seq(|s.issued|, k requires 0 <= k < |s.issued| => s.issued[k].ticket)
  }

  /** What one operation of the slot map does to slots and tickets. */
  lemma TicketsOf<C>(s: State<C>, op: Op<C>)
    requires Shape(s)
    ensures var r := Apply(s, op);
            match op
            case Subscribe(c) =>
              && r.slots == Subscribed(s.slots, c)
              && Tickets(r) == Tickets(s) + match IssuedFor(s.slots) { case None => [] case Some(t) => [t] }
            case Unsubscribe(k) =>
              && Tickets(r) == Tickets(s)
              && r.slots == if k < |s.issued| then Unsubscribed(s.slots, s.issued[k].ticket) else s.slots
            case Clear => r.slots == Cleared(s.slots) && Tickets(r) == Tickets(s)
  {
  }

  lemma StartIsRun<C>(capacity: nat)
    ensures Start<C>(capacity) == Run(capacity, []) && Tickets(Start<C>(capacity)) == []
  {
  }

  /** One operation of an owning registry. */
  method PerformFunctions<C>(r: FunctionRegistry<C>, op: Op<C>, tickets: seq<Ticket>, ghost s: State<C>)
    returns (after: seq<Ticket>)
    requires r.Valid() && Inv(s) && r.Abs() == s.slots && tickets == Tickets(s)
    modifies r, r.slots
    ensures r.Valid() && r.Abs() == Apply(s, op).slots && after == Tickets(Apply(s, op))
  {
    TicketsOf(s, op);
    hide *;
    after := tickets;
    match op {
      case Subscribe(c) =>
        var handle, _ := r.Subscribe(Some(c));
        if handle.Some? {
          after := tickets + [handle.value];
        }
      case Unsubscribe(k) =>
        if k < |tickets| {
          var _ := r.UnsubscribeSlot(tickets[k].index, tickets[k].generation);
        }
      case Clear => r.ClearAll();
    }
  }

  /** Any run of an owning registry is a run of the slot map: same slots, same tickets. */
  method DriveFunctions<C>(capacity: nat, ops: seq<Op<C>>) returns (r: FunctionRegistry<C>, tickets: seq<Ticket>)
    ensures r.Valid() && r.Abs() == Run(capacity, ops).slots
    ensures tickets == Tickets(Run(capacity, ops))
  {
    r := new FunctionRegistry<C>(capacity);
    hide Run, RunFrom, Apply, Shape, Distinct, Tickets, Start;
    ghost var s := Start<C>(capacity);
    tickets := [];
    StartIsRun<C>(capacity);
    assert ops[..0] == [];
    var i := 0;
    while i < |ops|
      invariant 0 <= i <= |ops|
      invariant r.Valid() && fresh(r) && fresh(r.slots)
      invariant s == Run(capacity, ops[..i])
      invariant r.Abs() == s.slots && tickets == Tickets(s)
    {
      tickets := PerformFunctions(r, ops[i], tickets, s);
      RunExtend(capacity, ops[..i], ops[i]);
      assert ops[..i + 1] == ops[..i] + [ops[i]];
      s := Apply(s, ops[i]);
      i := i + 1;
    }
    assert ops[..i] == ops;
  }

  /** One operation of a borrowing registry. */
  method PerformDelegates(r: DelegateRegistry, op: Op<Delegate>, tickets: seq<Ticket>, ghost s: State<Delegate>)
    returns (after: seq<Ticket>)
    requires r.Valid() && Inv(s) && r.Abs() == s.slots && tickets == Tickets(s)
    modifies r, r.slots
    ensures r.Valid() && r.Abs() == Apply(s, op).slots && after == Tickets(Apply(s, op))
  {
    TicketsOf(s, op);
    hide *;
    after := tickets;
    match op {
      case Subscribe(c) =>
        var handle, _ := r.Subscribe(c);
        if handle.Some? {
          after := tickets + [handle.value];
        }
      case Unsubscribe(k) =>
        if k < |tickets| {
          var _ := r.UnsubscribeSlot(tickets[k].index, tickets[k].generation);
        }
      case Clear => r.ClearAll();
    }
  }

  /** Any run of a borrowing registry is a run of the same slot map. */
  method DriveDelegates(capacity: nat, ops: seq<Op<Delegate>>) returns (r: DelegateRegistry, tickets: seq<Ticket>)
    ensures r.Valid() && r.Abs() == Run(capacity, ops).slots
    ensures tickets == Tickets(Run(capacity, ops))
  {
    r := new DelegateRegistry(capacity);
    hide Run, RunFrom, Apply, Shape, Distinct, Tickets, Start;
    ghost var s := Start<Delegate>(capacity);
    tickets := [];
    StartIsRun<Delegate>(capacity);
    assert ops[..0] == [];
    var i := 0;
    while i < |ops|
      invariant 0 <= i <= |ops|
      invariant r.Valid() && fresh(r) && fresh(r.slots)
      invariant s == Run(capacity, ops[..i])
      invariant r.Abs() == s.slots && tickets == Tickets(s)
    {
      tickets := PerformDelegates(r, ops[i], tickets, s);
      RunExtend(capacity, ops[..i], ops[i]);
      assert ops[..i + 1] == ops[..i] + [ops[i]];
      s := Apply(s, ops[i]);
      i := i + 1;
    }
    assert ops[..i] == ops;
  }
}
