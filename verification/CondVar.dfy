/** One producer and any number of consumers sharing a buffer through one mutex and one condition variable. */
module CondVar {

  const BUFFER_SIZE := 10

  /** A thread's place in its loop. `Waiting` is asleep on the condition variable, `Woken` must take the mutex again. */
  datatype Pc = Lock | Check | Waiting | Woken | Work | Notify | Unlock

  /** Thread 0 is the producer, the others are consumers. */
  datatype State = State(
    pc: seq<Pc>,
    owner: int,          // the thread holding the mutex, or -1
    count: int,
    consumed: nat,       // history: items taken
    batches: nat)        // history: times the buffer was filled

  predicate Initial(s: State) {
    && |s.pc| >= 2 && (forall t :: 0 <= t < |s.pc| ==> s.pc[t] == Lock)
    && s.owner == -1 && s.count == 0 && s.consumed == 0 && s.batches == 0
  }

  datatype Step =
    | Acquire(t: nat)      // k_mutex_lock, at the top of the loop or on return from k_condvar_wait
    | Test(t: nat)         // the loop condition; a failing test waits, which releases the mutex
    | Transfer(t: nat)     // fill the buffer, or take one item
    | Wake(t: nat)         // broadcast, for a consumer only when it took the last item
    | Release(t: nat)      // k_mutex_unlock
    | Spurious(t: nat)     // a wake-up nobody asked for

  predicate IsProducer(t: nat) {
    t == 0
  }

  /** The loop condition that sends a thread to sleep. */
  predicate MustWait(s: State, t: nat) {
    if IsProducer(t) then s.count != 0 else s.count == 0
  }

  predicate Enabled(s: State, step: Step) {
    && step.t < |s.pc|
    && match step {
         case Acquire(t) => s.owner == -1 && (s.pc[t] == Lock || s.pc[t] == Woken)
         case Test(t) => s.pc[t] == Check
         case Transfer(t) => s.pc[t] == Work
         case Wake(t) => s.pc[t] == Notify
         case Release(t) => s.pc[t] == Unlock
         case Spurious(t) => s.pc[t] == Waiting
       }
  }

  function WakeAll(pc: seq<Pc>): (r: seq<Pc>)
    ensures |r| == |pc|
    ensures forall t :: 0 <= t < |pc| ==> r[t] == if pc[t] == Waiting then Woken else pc[t]
  {
    seq(|pc|, t requires 0 <= t < |pc| => if pc[t] == Waiting then Woken else pc[t])
  }

  function Apply(s: State, step: Step): State
    requires Enabled(s, step)
  {
    match step
    case Acquire(t) => s.(owner := t, pc := s.pc[t := Check])
    case Test(t) =>
      if MustWait(s, t) then s.(owner := -1, pc := s.pc[t := Waiting]) else s.(pc := s.pc[t := Work])
    case Transfer(t) =>
      if IsProducer(t) then s.(count := BUFFER_SIZE, batches := s.batches + 1, pc := s.pc[t := Notify])
      else s.(count := s.count - 1, consumed := s.consumed + 1, pc := s.pc[t := Notify])
    case Wake(t) =>
      if IsProducer(t) || s.count == 0 then s.(pc := WakeAll(s.pc)[t := Unlock]) else s.(pc := s.pc[t := Unlock])
    case Release(t) => s.(owner := -1, pc := s.pc[t := Lock])
    case Spurious(t) => s.(pc := s.pc[t := Woken])
  }

  /** Every interleaving: a sequence of enabled steps. */
  ghost predicate Execution(s: State, steps: seq<Step>, t: State)
    decreases |steps|
  {
    if steps == [] then s == t
    else Enabled(s, steps[0]) && Execution(Apply(s, steps[0]), steps[1..], t)
  }

  // ----- invariant -----

  predicate InCritical(pc: Pc) {
    pc == Check || pc == Work || pc == Notify || pc == Unlock
  }

  /** Between changing `count` and broadcasting, the thread that did it still holds the mutex. */
  predicate AboutToNotify(s: State) {
    0 <= s.owner < |s.pc| && s.pc[s.owner] == Notify
  }

  ghost predicate Inv(s: State) {
    && |s.pc| >= 2 && -1 <= s.owner < |s.pc|
    // mutual exclusion
    && (forall t :: 0 <= t < |s.pc| ==> (InCritical(s.pc[t]) <==> t == s.owner))
    // conservation
    && 0 <= s.count <= BUFFER_SIZE
    && s.consumed + s.count == BUFFER_SIZE * s.batches
    // the mutex holder's last test still stands
    && (forall t :: 0 <= t < |s.pc| && s.pc[t] == Work ==> !MustWait(s, t))
    // nobody sleeps through a condition that holds, unless a broadcast is on its way
    && (forall t :: 0 <= t < |s.pc| && s.pc[t] == Waiting && !MustWait(s, t) ==>
          AboutToNotify(s) && (IsProducer(s.owner) || s.count == 0))
  }

  lemma InitialInv(s: State)
    requires Initial(s)
    ensures Inv(s)
  {
  }

  lemma StepKeepsInv(s: State, step: Step)
    requires Inv(s) && Enabled(s, step)
    ensures Inv(Apply(s, step))
  {
    var r := Apply(s, step);
    forall t | 0 <= t < |r.pc|
      ensures InCritical(r.pc[t]) <==> t == r.owner
      ensures r.pc[t] == Work ==> !MustWait(r, t)
      ensures r.pc[t] == Waiting && !MustWait(r, t) ==> AboutToNotify(r) && (IsProducer(r.owner) || r.count == 0)
    {
      assert InCritical(s.pc[t]) <==> t == s.owner;
      assert InCritical(s.pc[step.t]) <==> step.t == s.owner;
    }
  }

  lemma {:induction false} ExecutionKeepsInv(s: State, steps: seq<Step>, t: State)
    requires Inv(s) && Execution(s, steps, t)
    ensures Inv(t)
    decreases |steps|
  {
    if steps != [] {
      StepKeepsInv(s, steps[0]);
      ExecutionKeepsInv(Apply(s, steps[0]), steps[1..], t);
    }
  }

  // ----- main results -----

  /** In every reachable state: items consumed and items in the buffer add up to items produced, refills happen only
      into an empty buffer, and items are taken only from a non-empty one. */
  lemma ItemsAreConserved(s: State, steps: seq<Step>, t: State)
    requires Initial(s) && Execution(s, steps, t)
    ensures t.consumed + t.count == BUFFER_SIZE * t.batches && 0 <= t.count <= BUFFER_SIZE
    ensures forall k :: Enabled(t, Transfer(k)) ==> if IsProducer(k) then t.count == 0 else t.count > 0
    ensures forall j, k :: 0 <= j < |t.pc| && 0 <= k < |t.pc| && InCritical(t.pc[j]) && InCritical(t.pc[k]) ==> j == k
  {
    InitialInv(s);
    ExecutionKeepsInv(s, steps, t);
  }

  /** A thread that can take a step of its own, not counting spurious wake-ups. */
  lemma SomeThreadCanStep(s: State) returns (step: Step)
    requires Inv(s)
    ensures Enabled(s, step) && !step.Spurious?
    ensures step.Acquire? ==> !MustWait(s, step.t)
  {
    if s.owner != -1 {
      var t: nat := s.owner;
      assert InCritical(s.pc[t]);
      step := match s.pc[t] case Check => Test(t) case Work => Transfer(t) case Notify => Wake(t) case _ => Release(t);
    } else {
      // if both the producer and a consumer slept, the buffer would have to be both non-empty and empty
      var t := if s.count == 0 then 0 else 1;
      assert !MustWait(s, t);
      assert s.pc[t] != Waiting && !InCritical(s.pc[t]);
      step := Acquire(t);
    }
  }

  /** No reachable state is a deadlock. */
  lemma NoDeadlock(s: State, steps: seq<Step>, t: State) returns (step: Step)
    requires Initial(s) && Execution(s, steps, t)
    ensures Enabled(t, step) && !step.Spurious?
  {
    InitialInv(s);
    ExecutionKeepsInv(s, steps, t);
    step := SomeThreadCanStep(t);
  }

  /** How far a state is from the next item being taken, along the schedule of NextTowardsItem. */
  function HolderRank(pc: Pc): nat {
    match pc
    case Check => 4
    case Work => 3
    case Notify => 2
    case Unlock => 1
    case _ => 0
  }

  function Distance(s: State): nat
    requires -1 <= s.owner < |s.pc|
  {
    (if s.count == 0 then 20 else 0)
    + (if s.owner == -1 then 5
       else if MustWait(s, s.owner) then 5 + HolderRank(s.pc[s.owner])
       else if s.pc[s.owner] == Check || s.pc[s.owner] == Work then HolderRank(s.pc[s.owner])
       else 5 + HolderRank(s.pc[s.owner]))
  }

  /** From every state of the invariant some schedule takes another item: the monitor never locks itself out. */
  lemma {:induction false} AnotherItemCanBeTaken(s: State) returns (steps: seq<Step>, t: State)
    requires Inv(s)
    ensures Execution(s, steps, t) && t.consumed == s.consumed + 1
    ensures forall i :: 0 <= i < |steps| ==> !steps[i].Spurious?
    decreases Distance(s)
  {
    var step := SomeThreadCanStep(s);
    StepKeepsInv(s, step);
    assert InCritical(s.pc[step.t]) <==> step.t == s.owner;
    var m := Apply(s, step);
    if m.consumed == s.consumed + 1 {
      steps, t := [step], m;
      assert steps[1..] == [];
    } else {
      var rest;
      rest, t := AnotherItemCanBeTaken(m);
      steps := [step] + rest;
      assert steps[1..] == rest;
    }
  }

  // ----- every schedule makes progress -----

  /** How many steps of its own thread `t` can still take before the next item is taken; with an empty buffer, also
      enough to pay for the steps of all threads once it has been refilled, and for the broadcast of a consumer. */
  function Weight(empty: bool, n: nat, t: nat, pc: Pc): nat {
    if empty then
      match pc
      case Notify => 9 + 2 * n
      case Unlock => 8
      case Lock => 7
      case Woken => 7
      case Check => 6
      case _ => 5
    else
      match pc
      case Notify => 4
      case Unlock => 3
      case Lock => 2
      case Woken => 2
      case Check => 1
      case Waiting => if IsProducer(t) then 0 else 2
      case Work => 0
  }

  function TotalWeight(empty: bool, n: nat, pc: seq<Pc>): nat {
    if pc == [] then 0 else TotalWeight(empty, n, pc[..|pc| - 1]) + Weight(empty, n, |pc| - 1, pc[|pc| - 1])
  }

  function Rank(s: State): nat {
    TotalWeight(s.count == 0, |s.pc|, s.pc)
  }

  lemma {:induction false} WeightAfterUpdate(empty: bool, n: nat, pc: seq<Pc>, t: nat, next: Pc)
    requires t < |pc|
    ensures TotalWeight(empty, n, pc[t := next]) + Weight(empty, n, t, pc[t])
         == TotalWeight(empty, n, pc) + Weight(empty, n, t, next)
  {
    var last := |pc| - 1;
    if t < last {
      WeightAfterUpdate(empty, n, pc[..last], t, next);
      assert pc[t := next][..last] == pc[..last][t := next];
    } else {
      assert pc[t := next][..last] == pc[..last];
    }
  }

  /** A broadcast costs at most two steps for each thread, and nothing when only consumers sleep on a full buffer. */
  lemma {:induction false} WeightAfterWake(empty: bool, n: nat, pc: seq<Pc>)
    ensures TotalWeight(empty, n, WakeAll(pc)) <= TotalWeight(empty, n, pc) + 2 * |pc|
    ensures !empty && pc != [] && pc[0] != Waiting ==> TotalWeight(empty, n, WakeAll(pc)) <= TotalWeight(empty, n, pc)
  {
    if pc != [] {
      var last := |pc| - 1;
      WeightAfterWake(empty, n, pc[..last]);
      assert WakeAll(pc)[..last] == WakeAll(pc[..last]);
    }
  }

  lemma {:induction false} WeightBounds(n: nat, pc: seq<Pc>)
    ensures TotalWeight(false, n, pc) <= 4 * |pc|
    ensures 5 * |pc| <= TotalWeight(true, n, pc) <= (9 + 2 * n) * |pc|
  {
    if pc != [] {
      WeightBounds(n, pc[..|pc| - 1]);
      assert (9 + 2 * n) * |pc| == (9 + 2 * n) * (|pc| - 1) + (9 + 2 * n);
    }
  }

  lemma WakeCosts(s: State, t: nat)
    requires Inv(s) && Enabled(s, Wake(t))
    ensures Rank(Apply(s, Wake(t))) < Rank(s)
  {
    var empty, n := s.count == 0, |s.pc|;
    WeightAfterUpdate(empty, n, s.pc, t, Unlock);
    if IsProducer(t) || empty {
      WeightAfterWake(empty, n, s.pc);
      WeightAfterUpdate(empty, n, WakeAll(s.pc), t, Unlock);
      hide TotalWeight, Inv;
    }
  }

  /** Every step that does not take an item uses up rank; only a wake-up nobody asked for gives some back. */
  lemma StepCosts(s: State, step: Step)
    requires Inv(s) && Enabled(s, step) && Apply(s, step).consumed == s.consumed
    ensures !step.Spurious? ==> Rank(Apply(s, step)) < Rank(s)
    ensures step.Spurious? ==> Rank(Apply(s, step)) <= Rank(s) + 2
  {
    var empty, n := s.count == 0, |s.pc|;
    assert InCritical(s.pc[step.t]) <==> step.t == s.owner;
    match step {
      case Acquire(t) => WeightAfterUpdate(empty, n, s.pc, t, Check);
      case Test(t) => WeightAfterUpdate(empty, n, s.pc, t, if MustWait(s, t) then Waiting else Work);
      case Transfer(t) =>
        WeightBounds(n, s.pc);
        WeightBounds(n, s.pc[t := Notify]);
      case Wake(t) => WakeCosts(s, t);
      case Release(t) => WeightAfterUpdate(empty, n, s.pc, t, Lock);
      case Spurious(t) => WeightAfterUpdate(empty, n, s.pc, t, Woken);
    }
  }

  function SpuriousIn(steps: seq<Step>): nat {
    if steps == [] then 0 else (if steps[0].Spurious? then 1 else 0) + SpuriousIn(steps[1..])
  }

  lemma {:induction false} StepsAreBounded(s: State, steps: seq<Step>, t: State)
    requires Inv(s) && Execution(s, steps, t) && t.consumed == s.consumed
    ensures |steps| <= Rank(s) + 3 * SpuriousIn(steps)
    decreases |steps|
  {
    if steps != [] {
      var m := Apply(s, steps[0]);
      StepKeepsInv(s, steps[0]);
      ConsumedGrows(m, steps[1..], t);
      StepCosts(s, steps[0]);
      StepsAreBounded(m, steps[1..], t);
    }
  }

  lemma {:induction false} ConsumedGrows(s: State, steps: seq<Step>, t: State)
    requires Execution(s, steps, t)
    ensures t.consumed >= s.consumed && |t.pc| == |s.pc|
    decreases |steps|
  {
    if steps != [] {
      ConsumedGrows(Apply(s, steps[0]), steps[1..], t);
    }
  }

  /** Items keep being taken under every schedule, fair or not: from any reachable state with n threads, any run of more
      than n * (9 + 2n) steps, and three more for each spurious wake-up, takes another item. */
  lemma ItemsKeepBeingTaken(i: State, before: seq<Step>, s: State, steps: seq<Step>, t: State)
    requires Initial(i) && Execution(i, before, s) && Execution(s, steps, t)
    requires |steps| > (9 + 2 * |s.pc|) * |s.pc| + 3 * SpuriousIn(steps)
    ensures t.consumed > s.consumed
  {
    InitialInv(i);
    ExecutionKeepsInv(i, before, s);
    ConsumedGrows(s, steps, t);
    WeightBounds(|s.pc|, s.pc);
    assert 4 * |s.pc| <= (9 + 2 * |s.pc|) * |s.pc|;
    if t.consumed == s.consumed {
      StepsAreBounded(s, steps, t);
    }
  }
}
