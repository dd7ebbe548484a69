/** What both callback registries implement: a fixed row of slots whose generations tell handles apart. */
module SlotMaps {
  import opened Options

  const GENERATIONS := 0x1_0000_0000

  datatype Status = Ok | InvalidCallback | Full | InvalidSubscription

  datatype Slot<+C> = Slot(callback: Option<C>, generation: nat)

  /** What a subscription carries, and every copy of it. */
  datatype Ticket = Ticket(index: nat, generation: nat)

  /** The first slot without a callback, or the number of slots. */
  function FirstFree<C>(m: seq<Slot<C>>): (i: nat)
    ensures i <= |m| && (i < |m| ==> m[i].callback.None?)
    ensures forall j :: 0 <= j < i ==> m[j].callback.Some?
  {
    if m == [] then 0
    else
      var i := FirstFree(m[..|m| - 1]);
      if i < |m| - 1 then assert m[..|m| - 1][i] == m[i]; i
      else
        assert forall j :: 0 <= j < i ==> m[..|m| - 1][j] == m[j];
        if m[i].callback.None? then i else |m|
  }

  lemma FirstFreeIs<C>(m: seq<Slot<C>>, i: nat)
    requires i <= |m| && (i < |m| ==> m[i].callback.None?)
    requires forall j :: 0 <= j < i ==> m[j].callback.Some?
    ensures FirstFree(m) == i
  {
  }

  function Deactivated<C>(s: Slot<C>): Slot<C> {
    Slot(None, (s.generation + 1) % GENERATIONS)
  }

  function Subscribed<C>(m: seq<Slot<C>>, c: C): (r: seq<Slot<C>>)
    ensures |r| == |m|
  {
    var i := FirstFree(m);
    if i == |m| then m else m[i := Slot(Some(c), m[i].generation)]
  }

  function IssuedFor<C>(m: seq<Slot<C>>): Option<Ticket> {
    var i := FirstFree(m);
    if i == |m| then None else Some(Ticket(i, m[i].generation))
  }

  predicate Honours<C>(m: seq<Slot<C>>, t: Ticket) {
    t.index < |m| && m[t.index].callback.Some? && m[t.index].generation == t.generation
  }

  function Unsubscribed<C>(m: seq<Slot<C>>, t: Ticket): (r: seq<Slot<C>>)
    ensures |r| == |m|
  {
    if Honours(m, t) then m[t.index := Deactivated(m[t.index])] else m
  }

  function ClearedSlot<C>(s: Slot<C>): Slot<C> {
    if s.callback.Some? then Deactivated(s) else s
  }

  function Cleared<C>(m: seq<Slot<C>>): (r: seq<Slot<C>>)
    ensures |r| == |m|
    ensures forall i :: 0 <= i < |m| ==> r[i] == ClearedSlot(m[i])
  {
    if m == [] then [] else Cleared(m[..|m| - 1]) + [ClearedSlot(m[|m| - 1])]
  }

  /** The callbacks in slot order: what an invocation calls. */
  function Callbacks<C>(m: seq<Slot<C>>): (r: seq<C>) {
    if m == [] then []
    else
      var rest, last := Callbacks(m[..|m| - 1]), m[|m| - 1];
      if last.callback.Some? then rest + [last.callback.value] else rest
  }

  function ActiveCount<C>(m: seq<Slot<C>>): nat {
    |Callbacks(m)|
  }

  // ----- counting active slots -----

  lemma CallbacksExtend<C>(m: seq<Slot<C>>, n: nat)
    requires n < |m|
    ensures Callbacks(m[..n + 1]) == Callbacks(m[..n]) + if m[n].callback.Some? then [m[n].callback.value] else []
  {
    assert m[..n + 1][..n] == m[..n];
  }

  /** Changing one slot changes the count by that slot's difference. */
  lemma {:induction false} CountAfterUpdate<C>(m: seq<Slot<C>>, i: nat, s: Slot<C>)
    requires i < |m|
    ensures ActiveCount(m[i := s]) + (if m[i].callback.Some? then 1 else 0)
         == ActiveCount(m) + if s.callback.Some? then 1 else 0
  {
    var n := |m| - 1;
    if i == n {
      assert m[i := s][..n] == m[..n];
    } else {
      CountAfterUpdate(m[..n], i, s);
      assert m[i := s][..n] == m[..n][i := s];
    }
  }

  lemma {:induction false} ClearedIsEmpty<C>(m: seq<Slot<C>>)
    ensures ActiveCount(Cleared(m)) == 0
  {
    if m != [] {
      ClearedIsEmpty(m[..|m| - 1]);
      assert Cleared(m)[..|m| - 1] == Cleared(m[..|m| - 1]);
    }
  }

  // ----- runs -----

  /** Clients only present tickets they were issued, or copies: `k` numbers the successful subscribe calls. */
  datatype Op<C> = Subscribe(callback: C) | Unsubscribe(k: nat) | Clear

  /** A registration: its callback, its ticket, and how often its slot had been deactivated when it was issued. */
  datatype Registration<+C> = Registration(callback: C, ticket: Ticket, epoch: nat)

  /** A successful unsubscribe: the ticket presented and the registration it ended. */
  datatype Removal = Removal(presented: nat, ended: nat)

  /** The slots, and the history of the run: deactivations of each slot, registrations made, which of them holds each
      slot, and removals. */
  datatype State<C> = State(
    slots: seq<Slot<C>>,
    deactivations: seq<nat>,
    issued: seq<Registration<C>>,
    holder: seq<Option<nat>>,
    removals: seq<Removal>)

  ghost predicate Shape<C>(s: State<C>) {
    && |s.slots| == |s.deactivations| == |s.holder|
    && (forall i :: 0 <= i < |s.slots| ==>
          (s.slots[i].callback.Some? <==> s.holder[i].Some?)
          && s.slots[i].generation == s.deactivations[i] % GENERATIONS)
    && (forall i :: 0 <= i < |s.slots| && s.holder[i].Some? ==>
          && s.holder[i].value < |s.issued|
          && s.issued[s.holder[i].value].ticket.index == i
          && s.issued[s.holder[i].value].epoch == s.deactivations[i]
          && s.slots[i].callback == Some(s.issued[s.holder[i].value].callback))
    && (forall k :: 0 <= k < |s.issued| ==> RegistrationFits(s, k))
  }

  /** A registration's epoch is over unless it holds its slot. */
  ghost predicate RegistrationFits<C>(s: State<C>, k: nat)
    requires |s.slots| == |s.deactivations| == |s.holder| && k < |s.issued|
  {
    var r := s.issued[k];
    && r.ticket.index < |s.slots|
    && r.ticket.generation == r.epoch % GENERATIONS
    && r.epoch <= s.deactivations[r.ticket.index]
    && (r.epoch == s.deactivations[r.ticket.index] ==> s.holder[r.ticket.index] == Some(k))
  }

  /** Successive registrations of one slot have increasing epochs, and each registration is ended at most once. */
  ghost predicate Distinct<C>(s: State<C>) {
    && (forall j, k :: 0 <= j < k < |s.issued| && s.issued[j].ticket.index == s.issued[k].ticket.index ==>
          s.issued[j].epoch < s.issued[k].epoch)
    && (forall a :: 0 <= a < |s.removals| ==> Ended(s, s.removals[a].ended))
    && (forall a, b :: 0 <= a < b < |s.removals| ==> s.removals[a].ended != s.removals[b].ended)
  }

  ghost predicate Ended<C>(s: State<C>, k: nat) {
    && k < |s.issued| && s.issued[k].ticket.index < |s.deactivations|
    && s.issued[k].epoch < s.deactivations[s.issued[k].ticket.index]
  }

  ghost predicate Inv<C>(s: State<C>) {
    Shape(s) && Distinct(s)
  }

  function Start<C>(capacity: nat): State<C> {
    State(seq(capacity, i => Slot(None, 0)), seq(capacity, i => 0), [], seq(capacity, i => None), [])
  }

  ghost function Apply<C>(s: State<C>, op: Op<C>): State<C>
    requires Shape(s)
  {
    match op
    case Subscribe(c) =>
      var i := FirstFree(s.slots);
      if i == |s.slots| then s
      else
        State(Subscribed(s.slots, c), s.deactivations,
              s.issued + [Registration(c, IssuedFor(s.slots).value, s.deactivations[i])],
              s.holder[i := Some(|s.issued|)], s.removals)
    case Unsubscribe(k) =>
      if k < |s.issued| && Honours(s.slots, s.issued[k].ticket) then
        var i := s.issued[k].ticket.index;
        State(Unsubscribed(s.slots, s.issued[k].ticket), s.deactivations[i := s.deactivations[i] + 1], s.issued,
              s.holder[i := None], s.removals + [Removal(k, s.holder[i].value)])
      else s
    case Clear =>
      State(Cleared(s.slots),
            seq(|s.slots|, i requires 0 <= i < |s.slots| =>
              if s.slots[i].callback.Some? then s.deactivations[i] + 1 else s.deactivations[i]),
            s.issued, seq(|s.slots|, i => None), s.removals)
  }

  lemma SubscribeKeepsShape<C>(s: State<C>, c: C)
    requires Shape(s) && FirstFree(s.slots) < |s.slots|
    ensures Shape(Apply(s, Subscribe(c)))
  {
    var r := Apply(s, Subscribe(c));
    forall k | 0 <= k < |r.issued|
      ensures RegistrationFits(r, k)
    {
      assert k < |s.issued| ==> RegistrationFits(s, k) && r.issued[k] == s.issued[k];
    }
    hide RegistrationFits;
  }

  lemma SubscribeKeepsDistinct<C>(s: State<C>, c: C)
    requires Inv(s) && FirstFree(s.slots) < |s.slots|
    ensures Distinct(Apply(s, Subscribe(c)))
  {
    var r := Apply(s, Subscribe(c));
    forall j | 0 <= j < |s.issued| && s.issued[j].ticket.index == FirstFree(s.slots)
      ensures s.issued[j].epoch < s.deactivations[FirstFree(s.slots)]
    {
      assert RegistrationFits(s, j);
    }
    hide RegistrationFits, Shape;
    assert forall k :: Ended(s, k) ==> Ended(r, k);
  }

  lemma SubscribeKeepsInv<C>(s: State<C>, c: C)
    requires Inv(s)
    ensures Inv(Apply(s, Subscribe(c)))
  {
    if FirstFree(s.slots) < |s.slots| {
      SubscribeKeepsShape(s, c);
      SubscribeKeepsDistinct(s, c);
    }
  }

  /** What unsubscribing and clearing share: nothing issued, deactivations only grow, and a slot that was deactivated
      is free. */
  ghost predicate OnlyEnds<C>(s: State<C>, r: State<C>) {
    && r.issued == s.issued
    && |r.slots| == |r.deactivations| == |r.holder| == |s.slots| == |s.deactivations| == |s.holder|
    && forall i :: 0 <= i < |s.slots| ==>
         || (r.deactivations[i] == s.deactivations[i] && r.holder[i] == s.holder[i] && r.slots[i] == s.slots[i])
         || (r.deactivations[i] == s.deactivations[i] + 1 && r.holder[i].None? && r.slots[i] == Deactivated(s.slots[i]))
  }

  lemma EndingKeepsRegistration<C>(s: State<C>, r: State<C>, k: nat)
    requires OnlyEnds(s, r) && k < |s.issued| && RegistrationFits(s, k)
    ensures RegistrationFits(r, k)
  {
    var i := s.issued[k].ticket.index;
    assert r.deactivations[i] == s.deactivations[i] ==> r.holder[i] == s.holder[i];
  }

  lemma EndingKeepsSlot<C>(s: State<C>, r: State<C>, i: nat)
    requires Shape(s) && OnlyEnds(s, r) && i < |s.slots|
    ensures r.slots[i].callback.Some? <==> r.holder[i].Some?
    ensures r.slots[i].generation == r.deactivations[i] % GENERATIONS
    ensures r.holder[i].Some? ==> r.slots[i] == s.slots[i] && r.holder[i] == s.holder[i]
                                  && r.deactivations[i] == s.deactivations[i]
  {
    hide RegistrationFits;
  }

  lemma EndingKeepsShape<C>(s: State<C>, r: State<C>)
    requires Shape(s) && OnlyEnds(s, r)
    ensures Shape(r)
  {
    forall k | 0 <= k < |r.issued|
      ensures RegistrationFits(r, k)
    {
      EndingKeepsRegistration(s, r, k);
    }
    hide RegistrationFits;
    forall i | 0 <= i < |r.slots|
      ensures r.slots[i].callback.Some? <==> r.holder[i].Some?
      ensures r.slots[i].generation == r.deactivations[i] % GENERATIONS
      ensures r.holder[i].Some? ==> r.slots[i] == s.slots[i] && r.holder[i] == s.holder[i]
                                    && r.deactivations[i] == s.deactivations[i]
    {
      EndingKeepsSlot(s, r, i);
    }
    hide OnlyEnds, Deactivated;
    assert r.issued == s.issued;
  }

  lemma EndingKeepsEnded<C>(s: State<C>, r: State<C>)
    requires OnlyEnds(s, r)
    ensures forall k :: Ended(s, k) ==> Ended(r, k)
  {
  }

  lemma UnsubscribeOnlyEnds<C>(s: State<C>, k: nat)
    requires Shape(s) && k < |s.issued| && Honours(s.slots, s.issued[k].ticket)
    ensures OnlyEnds(s, Apply(s, Unsubscribe(k)))
  {
  }

  lemma UnsubscribeKeepsInv<C>(s: State<C>, k: nat)
    requires Inv(s)
    ensures Inv(Apply(s, Unsubscribe(k)))
  {
    var r := Apply(s, Unsubscribe(k));
    if k < |s.issued| && Honours(s.slots, s.issued[k].ticket) {
      UnsubscribeOnlyEnds(s, k);
      EndingKeepsShape(s, r);
      EndingKeepsEnded(s, r);
      RemovalIsNew(s, k);
    }
  }

  lemma RemovalIsNew<C>(s: State<C>, k: nat)
    requires Inv(s) && k < |s.issued| && Honours(s.slots, s.issued[k].ticket)
    ensures var ended := s.holder[s.issued[k].ticket.index].value;
            Ended(Apply(s, Unsubscribe(k)), ended) && !Ended(s, ended)
  {
  }

  lemma ClearOnlyEnds<C>(s: State<C>)
    requires Shape(s)
    ensures OnlyEnds(s, Apply(s, Clear))
  {
  }

  lemma ClearKeepsInv<C>(s: State<C>)
    requires Inv(s)
    ensures Inv(Apply(s, Clear))
  {
    ClearOnlyEnds(s);
    EndingKeepsShape(s, Apply(s, Clear));
    EndingKeepsEnded(s, Apply(s, Clear));
  }

  lemma StepKeepsInv<C>(s: State<C>, op: Op<C>)
    requires Inv(s)
    ensures Inv(Apply(s, op))
  {
    match op {
      case Subscribe(c) => SubscribeKeepsInv(s, c);
      case Unsubscribe(k) => UnsubscribeKeepsInv(s, k);
      case Clear => ClearKeepsInv(s);
    }
  }

  /** Every run, from any state that satisfies the invariant. */
  ghost function RunFrom<C>(s: State<C>, ops: seq<Op<C>>): (r: State<C>)
    requires Inv(s)
    ensures Inv(r)
  {
    if ops == [] then s
    else
      var m := RunFrom(s, ops[..|ops| - 1]);
      StepKeepsInv(m, ops[|ops| - 1]);
      Apply(m, ops[|ops| - 1])
  }

  ghost function Run<C>(capacity: nat, ops: seq<Op<C>>): (r: State<C>)
    ensures Inv(r)
  {
    RunFrom(Start(capacity), ops)
  }

  /** No slot has been deactivated as often as there are generations. */
  ghost predicate Bounded<C>(s: State<C>) {
    forall i :: 0 <= i < |s.deactivations| ==> s.deactivations[i] < GENERATIONS
  }

  // ----- what a ticket can do -----

  /** Exactly when a ticket is honoured, over every run of any length: its slot is in use and has since been deactivated
      a whole number of times the generation count. */
  lemma HonouredIff<C>(s: State<C>, k: nat)
    requires Inv(s) && k < |s.issued|
    ensures var i := s.issued[k].ticket.index;
            && i < |s.slots|
            && (Honours(s.slots, s.issued[k].ticket) <==>
                  s.holder[i].Some? && (s.deactivations[i] - s.issued[k].epoch) % GENERATIONS == 0)
  {
    assert RegistrationFits(s, k);
  }

  /** Within the bound a ticket is honoured exactly while its own registration holds the slot. */
  lemma HonouredWhileHolding<C>(s: State<C>, k: nat)
    requires Inv(s) && Bounded(s) && k < |s.issued|
    ensures var i := s.issued[k].ticket.index;
            && i < |s.slots|
            && (Honours(s.slots, s.issued[k].ticket) <==> s.holder[i] == Some(k))
  {
    HonouredIff(s, k);
    assert RegistrationFits(s, k);
  }

  /** Deactivations only grow, registrations are never forgotten, and an ended one stays ended. */
  ghost predicate Extends<C>(s: State<C>, t: State<C>) {
    && s.issued <= t.issued
    && |s.deactivations| == |t.deactivations|
    && forall i :: 0 <= i < |s.deactivations| ==> s.deactivations[i] <= t.deactivations[i]
  }

  lemma {:induction false} RunExtends<C>(s: State<C>, ops: seq<Op<C>>)
    requires Inv(s)
    ensures Extends(s, RunFrom(s, ops))
  {
    if ops != [] {
      RunExtends(s, ops[..|ops| - 1]);
    }
  }

  /** Every successful unsubscribe so far ended the presenter's own registration. */
  ghost predicate RemovalsOwn<C>(s: State<C>) {
    forall a :: 0 <= a < |s.removals| ==> s.removals[a].presented == s.removals[a].ended
  }

  lemma StepRemovesOwn<C>(s: State<C>, op: Op<C>)
    requires Inv(s) && Bounded(s) && RemovalsOwn(s)
    ensures RemovalsOwn(Apply(s, op))
  {
    if op.Unsubscribe? && op.k < |s.issued| {
      HonouredWhileHolding(s, op.k);
    }
  }

  lemma {:induction false} RemovalsAreOwn<C>(s: State<C>, ops: seq<Op<C>>)
    requires Inv(s) && RemovalsOwn(s) && Bounded(RunFrom(s, ops))
    ensures RemovalsOwn(RunFrom(s, ops))
  {
    hide Inv, Bounded, RemovalsOwn, Apply;
    if ops != [] {
      var front, op := ops[..|ops| - 1], ops[|ops| - 1];
      var m := RunFrom(s, front);
      StepBounded(m, op);
      RemovalsAreOwn(s, front);
      StepRemovesOwn(m, op);
    }
  }

  lemma StepBounded<C>(s: State<C>, op: Op<C>)
    requires Inv(s) && Bounded(Apply(s, op))
    ensures Bounded(s)
  {
    var r := Apply(s, op);
    assert forall i :: 0 <= i < |s.deactivations| ==> s.deactivations[i] <= r.deactivations[i];
  }

  lemma TicketsDiffer<C>(s: State<C>, j: nat, k: nat)
    requires Inv(s) && Bounded(s) && j < k < |s.issued|
    ensures s.issued[j].ticket != s.issued[k].ticket
  {
    assert RegistrationFits(s, j) && RegistrationFits(s, k);
  }

  /** Over every run in which each slot is deactivated fewer than 2^32 times: all tickets issued are different, every
      successful unsubscribe ends the presenter's own registration, and no ticket or copy of it succeeds twice. */
  lemma TicketsAreSafe<C>(capacity: nat, ops: seq<Op<C>>)
    requires Bounded(Run(capacity, ops))
    ensures var s := Run(capacity, ops);
            && (forall j, k :: 0 <= j < k < |s.issued| ==> s.issued[j].ticket != s.issued[k].ticket)
            && (forall a :: 0 <= a < |s.removals| ==> s.removals[a].presented == s.removals[a].ended)
            && (forall a, b :: 0 <= a < b < |s.removals| ==> s.removals[a].presented != s.removals[b].presented)
  {
    hide *;
    var s := Run(capacity, ops);
    RunRemovesOwn(capacity, ops);
    forall j, k | 0 <= j < k < |s.issued|
      ensures s.issued[j].ticket != s.issued[k].ticket
    {
      TicketsDiffer(s, j, k);
    }
    EachPresentedOnce(s);
  }

  lemma RunRemovesOwn<C>(capacity: nat, ops: seq<Op<C>>)
    requires Bounded(Run(capacity, ops))
    ensures RemovalsOwn(Run(capacity, ops))
  {
    hide Bounded, RunFrom;
    RemovalsAreOwn(Start(capacity), ops);
  }

  lemma EachPresentedOnce<C>(s: State<C>)
    requires RemovalsOwn(s) && Inv(s)
    ensures forall a :: 0 <= a < |s.removals| ==> s.removals[a].presented == s.removals[a].ended
    ensures forall a, b :: 0 <= a < b < |s.removals| ==> s.removals[a].presented != s.removals[b].presented
  {
  }

  /** A registration that does not hold its slot is over for good. */
  lemma StaleForever<C>(s: State<C>, k: nat, ops: seq<Op<C>>)
    requires Inv(s) && k < |s.issued| && s.issued[k].ticket.index < |s.holder|
    requires s.holder[s.issued[k].ticket.index] != Some(k)
    requires Bounded(RunFrom(s, ops))
    ensures !Honours(RunFrom(s, ops).slots, s.issued[k].ticket)
  {
    var t := RunFrom(s, ops);
    RunExtends(s, ops);
    assert RegistrationFits(s, k);
    assert t.issued[k] == s.issued[k];
    HonouredWhileHolding(t, k);
    assert RegistrationFits(t, k);
  }

  /** After `clear` no ticket issued before it is honoured again. */
  lemma ClearMakesAllStale<C>(s: State<C>, k: nat, ops: seq<Op<C>>)
    requires Inv(s) && k < |s.issued| && Inv(Apply(s, Clear))
    requires Bounded(RunFrom(Apply(s, Clear), ops))
    ensures !Honours(RunFrom(Apply(s, Clear), ops).slots, s.issued[k].ticket)
  {
    assert RegistrationFits(s, k);
    StaleForever(Apply(s, Clear), k, ops);
  }

  // ----- the bound is needed -----

  /** `n` times: subscribe, then unsubscribe with the ticket just issued. */
  function Cycles<C>(c: C, n: nat): seq<Op<C>> {
    if n == 0 then [] else Cycles(c, n - 1) + [Subscribe(c)] + [Unsubscribe(n - 1)]
  }

  lemma RunExtend<C>(capacity: nat, ops: seq<Op<C>>, op: Op<C>)
    ensures Run(capacity, ops + [op]) == Apply(Run(capacity, ops), op)
  {
    assert (ops + [op])[..|ops|] == ops;
  }

  lemma SubscribeSingle<C>(s: State<C>, c: C)
    requires Inv(s) && |s.slots| == 1 && s.slots[0].callback.None?
    ensures var r := Apply(s, Subscribe(c));
            && r.slots == [Slot(Some(c), s.slots[0].generation)] && r.deactivations == s.deactivations
            && r.holder == [Some(|s.issued|)]
            && r.issued == s.issued + [Registration(c, Ticket(0, s.slots[0].generation), s.deactivations[0])]
  {
    FirstFreeIs(s.slots, 0);
  }

  lemma UnsubscribeSingle<C>(s: State<C>, k: nat)
    requires Inv(s) && |s.slots| == 1 && k < |s.issued| && s.slots[0].callback.Some?
    requires s.issued[k].ticket == Ticket(0, s.slots[0].generation)
    ensures var r := Apply(s, Unsubscribe(k));
            && r.slots == [Slot(None, (s.slots[0].generation + 1) % GENERATIONS)]
            && r.deactivations == [s.deactivations[0] + 1] && r.holder == [None] && r.issued == s.issued
  {
  }

  /** A single free slot that has been through `n` registrations. */
  ghost predicate Cycled<C>(s: State<C>, c: C, n: nat) {
    && s.slots == [Slot(None, n % GENERATIONS)] && s.deactivations == [n] && s.holder == [None]
    && |s.issued| == n
    && forall j :: 0 <= j < n ==> s.issued[j] == Registration(c, Ticket(0, j % GENERATIONS), j)
  }

  lemma CycleOnce<C>(s: State<C>, c: C, n: nat)
    requires Inv(s) && Cycled(s, c, n)
    ensures Cycled(Apply(Apply(s, Subscribe(c)), Unsubscribe(n)), c, n + 1)
  {
    StepKeepsInv(s, Subscribe(c));
    SubscribeSingle(s, c);
    var m := Apply(s, Subscribe(c));
    hide Apply;
    UnsubscribeSingle(m, n);
  }

  lemma NoCycles<C>(c: C)
    ensures Cycled(Run<C>(1, []), c, 0)
  {
  }

  lemma {:induction false} AfterCycles<C>(c: C, n: nat)
    ensures Cycled(Run(1, Cycles(c, n)), c, n)
  {
    hide Run, Apply, Inv;
    if n == 0 {
      NoCycles(c);
    } else {
      AfterCycles(c, n - 1);
      var before := Cycles(c, n - 1);
      RunExtend(1, before, Subscribe(c));
      RunExtend(1, before + [Subscribe(c)], Unsubscribe(n - 1));
      CycleOnce(Run(1, before), c, n - 1);
    }
  }

  /** After 2^32 deactivations of its slot the very first ticket is issued again, and a copy of the old one removes a
      registration that is not its own. */
  lemma WrapRepeatsTicket<C>(c: C)
    ensures var s := Run(1, Cycles(c, GENERATIONS) + [Subscribe(c)]);
            && |s.issued| == GENERATIONS + 1 && s.issued[0].ticket == s.issued[GENERATIONS].ticket
            && Honours(s.slots, s.issued[0].ticket) && s.holder == [Some(GENERATIONS)]
  {
    hide Run, Apply, Cycles, Inv;
    AfterCycles(c, GENERATIONS);
    RunExtend(1, Cycles(c, GENERATIONS), Subscribe(c));
    SubscribeSingle(Run(1, Cycles(c, GENERATIONS)), c);
  }

  // ----- invocation order -----

  /** The registrations an invocation runs, in the order it runs them. */
  function Invoked(holder: seq<Option<nat>>): (r: seq<nat>) {
    if holder == [] then []
    else
      var rest, last := Invoked(holder[..|holder| - 1]), holder[|holder| - 1];
      if last.Some? then rest + [last.value] else rest
  }

  /** An invocation calls the callbacks of exactly the registrations that hold slots. */
  lemma {:induction false} CallbacksAreInvoked<C>(m: seq<Slot<C>>, holder: seq<Option<nat>>,
                                                  issued: seq<Registration<C>>)
    requires |m| == |holder|
    requires forall i :: 0 <= i < |m| ==> (m[i].callback.Some? <==> holder[i].Some?)
    requires forall i :: 0 <= i < |m| && holder[i].Some? ==>
               holder[i].value < |issued| && m[i].callback == Some(issued[holder[i].value].callback)
    ensures |Callbacks(m)| == |Invoked(holder)|
    ensures forall k :: 0 <= k < |Callbacks(m)| ==>
              Invoked(holder)[k] < |issued| && Callbacks(m)[k] == issued[Invoked(holder)[k]].callback
  {
    if m != [] {
      CallbacksAreInvoked(m[..|m| - 1], holder[..|m| - 1], issued);
    }
  }

  /** In every state of a run, an invocation calls the callbacks of the registrations that hold slots. */
  lemma InvocationRunsHolders<C>(s: State<C>)
    requires Inv(s)
    ensures |Callbacks(s.slots)| == |Invoked(s.holder)|
    ensures forall k :: 0 <= k < |Callbacks(s.slots)| ==>
              && Invoked(s.holder)[k] < |s.issued|
              && Callbacks(s.slots)[k] == s.issued[Invoked(s.holder)[k]].callback
  {
    CallbacksAreInvoked(s.slots, s.holder, s.issued);
  }

  /** Slots further on hold later registrations. */
  ghost predicate InOrder<C>(s: State<C>) {
    forall i, j :: 0 <= i < j < |s.holder| && s.holder[i].Some? && s.holder[j].Some? ==>
      s.holder[i].value < s.holder[j].value
  }

  ghost predicate Increasing(r: seq<nat>) {
    forall j, k :: 0 <= j < k < |r| ==> r[j] < r[k]
  }

  lemma {:induction false} InvokedFrom(holder: seq<Option<nat>>, k: nat) returns (i: nat)
    requires k < |Invoked(holder)|
    ensures i < |holder| && holder[i] == Some(Invoked(holder)[k]) && k == |Invoked(holder[..i])|
  {
    var n := |holder| - 1;
    if k < |Invoked(holder[..n])| {
      i := InvokedFrom(holder[..n], k);
      assert holder[..n][..i] == holder[..i];
    } else {
      i := n;
    }
  }

  lemma {:induction false} InvokedAt(holder: seq<Option<nat>>, i: nat)
    requires i < |holder| && holder[i].Some?
    ensures var k := |Invoked(holder[..i])|; k < |Invoked(holder)| && Invoked(holder)[k] == holder[i].value
  {
    var n := |holder| - 1;
    if i < n {
      InvokedAt(holder[..n], i);
      assert holder[..n][..i] == holder[..i];
    }
  }

  lemma {:induction false} InvokedGrows(holder: seq<Option<nat>>, i: nat, j: nat)
    requires i < j <= |holder| && holder[i].Some?
    ensures |Invoked(holder[..i])| < |Invoked(holder[..j])|
  {
    assert holder[..j][..j - 1] == holder[..j - 1];
    if i < j - 1 {
      InvokedGrows(holder, i, j - 1);
    }
  }

  /** Callbacks run in registration order exactly while slots further on hold later registrations. */
  lemma OrderIff<C>(s: State<C>)
    ensures Increasing(Invoked(s.holder)) <==> InOrder(s)
  {
    var h, r := s.holder, Invoked(s.holder);
    if Increasing(r) {
      forall i, j | 0 <= i < j < |h| && h[i].Some? && h[j].Some?
        ensures h[i].value < h[j].value
      {
        InvokedAt(h, i);
        InvokedAt(h, j);
        InvokedGrows(h, i, j);
      }
    }
    if InOrder(s) {
      forall a, b | 0 <= a < b < |r|
        ensures r[a] < r[b]
      {
        var i := InvokedFrom(h, a);
        var j := InvokedFrom(h, b);
        if j < i {
          InvokedGrows(h, j, i);
        }
      }
    }
  }

  /** The guard under which a subscribe keeps order: no slot after the first free one is in use. */
  predicate AppendsLast<C>(m: seq<Slot<C>>) {
    forall j :: FirstFree(m) < j < |m| ==> m[j].callback.None?
  }

  /** Removing registrations never disturbs the order. */
  lemma EndingKeepsOrder<C>(s: State<C>, op: Op<C>)
    requires Shape(s) && InOrder(s) && !op.Subscribe?
    ensures InOrder(Apply(s, op))
  {
  }

  /** Exactly when a successful subscribe leaves the callbacks in registration order. */
  lemma SubscribeKeepsOrderIff<C>(s: State<C>, c: C)
    requires Shape(s) && FirstFree(s.slots) < |s.slots|
    ensures InOrder(Apply(s, Subscribe(c))) <==> InOrder(s) && AppendsLast(s.slots)
  {
    var f, r := FirstFree(s.slots), Apply(s, Subscribe(c));
    if InOrder(r) {
      forall j | f < j < |s.slots|
        ensures s.slots[j].callback.None?
      {
        assert r.holder[f] == Some(|s.issued|) && r.holder[j] == s.holder[j];
      }
      forall i, j | 0 <= i < j < |s.holder| && s.holder[i].Some? && s.holder[j].Some?
        ensures s.holder[i].value < s.holder[j].value
      {
        assert r.holder[i] == s.holder[i] && r.holder[j] == s.holder[j];
      }
    }
  }

  /** `op` does not fill a slot that has a used one after it. */
  ghost predicate KeepsOrder<C>(s: State<C>, op: Op<C>) {
    op.Subscribe? && FirstFree(s.slots) < |s.slots| ==> AppendsLast(s.slots)
  }

  /** After every operation of the run, an invocation would go in registration order. */
  ghost predicate OrderedThroughout<C>(s: State<C>, ops: seq<Op<C>>)
    requires Inv(s)
  {
    Increasing(Invoked(RunFrom(s, ops).holder)) && (ops != [] ==> OrderedThroughout(s, ops[..|ops| - 1]))
  }

  /** Every operation of the run keeps the order. */
  ghost predicate KeepsOrderThroughout<C>(s: State<C>, ops: seq<Op<C>>)
    requires Inv(s)
  {
    ops != [] ==>
      KeepsOrderThroughout(s, ops[..|ops| - 1]) && KeepsOrder(RunFrom(s, ops[..|ops| - 1]), ops[|ops| - 1])
  }

  lemma StepOrderIff<C>(s: State<C>, op: Op<C>)
    requires Inv(s) && InOrder(s)
    ensures InOrder(Apply(s, op)) <==> KeepsOrder(s, op)
  {
    if op.Subscribe? {
      if FirstFree(s.slots) < |s.slots| {
        SubscribeKeepsOrderIff(s, op.callback);
      }
    } else {
      EndingKeepsOrder(s, op);
    }
  }

  /** Over every run of subscribes, unsubscribes and clears: callbacks run in registration order all along exactly when
      no subscribe fills a slot that has a used one after it. */
  lemma {:induction false} OrderOfRegistration<C>(capacity: nat, ops: seq<Op<C>>)
    ensures OrderedThroughout(Start(capacity), ops) <==> KeepsOrderThroughout(Start(capacity), ops)
  {
    hide *;
    StartsInOrder<C>(capacity);
    if ops != [] {
      OrderOfRegistration(capacity, ops[..|ops| - 1]);
      OrderStep(Start(capacity), ops);
    }
  }

  lemma StartsInOrder<C>(capacity: nat)
    ensures Inv(Start<C>(capacity))
    ensures OrderedThroughout(Start<C>(capacity), []) && KeepsOrderThroughout(Start<C>(capacity), [])
  {
    NothingInvoked(Start<C>(capacity).holder);
  }

  lemma OrderStep<C>(s: State<C>, ops: seq<Op<C>>)
    requires Inv(s) && ops != []
    requires OrderedThroughout(s, ops[..|ops| - 1]) <==> KeepsOrderThroughout(s, ops[..|ops| - 1])
    ensures OrderedThroughout(s, ops) <==> KeepsOrderThroughout(s, ops)
  {
    var front, op := ops[..|ops| - 1], ops[|ops| - 1];
    var m := RunFrom(s, front);
    assert RunFrom(s, ops) == Apply(m, op);
    assert OrderedThroughout(s, front) ==> Increasing(Invoked(m.holder));
    OrderIff(m);
    OrderIff(Apply(m, op));
    if InOrder(m) {
      StepOrderIff(m, op);
    }
    hide Inv, RunFrom, Apply, KeepsOrder, InOrder, Increasing, Invoked;
  }

  lemma {:induction false} NothingInvoked(holder: seq<Option<nat>>)
    requires forall i :: 0 <= i < |holder| ==> holder[i].None?
    ensures Invoked(holder) == []
  {
    if holder != [] {
      NothingInvoked(holder[..|holder| - 1]);
    }
  }

  function Registered<C>(ops: seq<Op<C>>, capacity: nat): (r: seq<C>)
    ensures |r| <= capacity
  {
    if ops == [] then []
    else
      var rest := Registered(ops[..|ops| - 1], capacity);
      if ops[|ops| - 1].Subscribe? && |rest| < capacity then rest + [ops[|ops| - 1].callback] else rest
  }

  /** While nothing has been removed, callbacks run in registration order. */
  lemma {:induction false} FirstRegistrationsInOrder<C>(capacity: nat, ops: seq<Op<C>>)
    requires forall i :: 0 <= i < |ops| ==> ops[i].Subscribe?
    ensures var s := Run(capacity, ops);
            && |s.slots| == capacity && Callbacks(s.slots) == Registered(ops, capacity)
            && forall i :: 0 <= i < capacity ==> (s.slots[i].callback.Some? <==> i < |Registered(ops, capacity)|)
  {
    if ops == [] {
      NothingRegistered(Start<C>(capacity).slots);
    } else {
      var front := ops[..|ops| - 1];
      FirstRegistrationsInOrder(capacity, front);
      var s := Run(capacity, front);
      var n := |Registered(front, capacity)|;
      FirstFreeIs(s.slots, n);
      if n < capacity {
        FilledInOrder(s.slots, n, ops[|ops| - 1].callback);
      }
    }
  }

  lemma {:induction false} NothingRegistered<C>(m: seq<Slot<C>>)
    requires forall i :: 0 <= i < |m| ==> m[i].callback.None?
    ensures Callbacks(m) == []
  {
    if m != [] {
      NothingRegistered(m[..|m| - 1]);
    }
  }

  lemma {:induction false} FilledInOrder<C>(m: seq<Slot<C>>, n: nat, c: C)
    requires n < |m| && forall i :: n <= i < |m| ==> m[i].callback.None?
    ensures Callbacks(m[n := Slot(Some(c), m[n].generation)]) == Callbacks(m) + [c]
  {
    var last := |m| - 1;
    var t := m[n := Slot(Some(c), m[n].generation)];
    if n == last {
      assert t[..last] == m[..last];
    } else {
      FilledInOrder(m[..last], n, c);
      assert t[..last] == m[..last][n := Slot(Some(c), m[n].generation)];
    }
  }

  /** A reused slot breaks registration order: the newcomer runs before an older callback. */
  lemma ReuseBreaksOrder<C>(a: C, b: C, c: C)
    ensures var both := Subscribed(Subscribed([Slot(None, 0), Slot(None, 0)], a), b);
            Callbacks(Subscribed(Unsubscribed(both, Ticket(0, 0)), c)) == [c, b]
  {
    var m0: seq<Slot<C>> := [Slot(None, 0), Slot(None, 0)];
    FirstFreeIs(m0, 0);
    var m1 := [Slot(Some(a), 0), Slot(None, 0)];
    assert Subscribed(m0, a) == m1;
    FirstFreeIs(m1, 1);
    var m2 := [Slot(Some(a), 0), Slot(Some(b), 0)];
    assert Subscribed(m1, b) == m2;
    var m3 := [Slot(None, 1), Slot(Some(b), 0)];
    assert Unsubscribed(m2, Ticket(0, 0)) == m3;
    FirstFreeIs(m3, 0);
    var m4 := [Slot(Some(c), 1), Slot(Some(b), 0)];
    assert Subscribed(m3, c) == m4;
    CallbacksExtend(m4, 0);
    CallbacksExtend(m4, 1);
    assert m4[..2] == m4;
  }
}
