/** `every_n`: the concurrent counter of version 2.0, and the three variants that count exactly. */
module EveryNPolicy {
  import opened Numbers

  const SIZE_MODULUS := 0x1_0000_0000

  // ----- version 2.0, concurrent: fetch_add, then a separate store of zero -----

  datatype Pc = Idle | Storing | Calling

  datatype State = State(
    n: nat,
    counter: nat,
    pc: seq<Pc>,
    calls: nat,      // history: fetch_adds
    fires: nat,      // history: callers that found a multiple of n
    lost: nat)       // history: counts below a multiple of n wiped out by a store of zero

  predicate Initial(s: State) {
    && 0 < s.n < SIZE_MODULUS
    && s.counter == 0 && s.calls == 0 && s.fires == 0 && s.lost == 0
    && forall t :: 0 <= t < |s.pc| ==> s.pc[t] == Idle
  }

  datatype Step = FetchAdd(t: nat) | StoreZero(t: nat) | Call(t: nat) | Reset

  /** Callers are assumed to stop short of wrapping the counter. */
  predicate Enabled(s: State, step: Step) {
    && s.n > 0
    && match step
       case FetchAdd(t) => t < |s.pc| && s.pc[t] == Idle && s.counter + 1 < SIZE_MODULUS
       case StoreZero(t) => t < |s.pc| && s.pc[t] == Storing
       case Call(t) => t < |s.pc| && s.pc[t] == Calling
       case Reset => true
  }

  function Apply(s: State, step: Step): State
    requires Enabled(s, step)
  {
    match step
    case FetchAdd(t) =>
      var previous := s.counter;
      var s' := s.(counter := s.counter + 1, calls := s.calls + 1);
      if (previous + 1) % s.n != 0 then s' else s'.(pc := s.pc[t := Storing], fires := s.fires + 1)
    case StoreZero(t) => s.(counter := 0, lost := s.lost + s.counter % s.n, pc := s.pc[t := Calling])
    case Call(t) => s.(pc := s.pc[t := Idle])
    case Reset => s.(counter := 0, lost := s.lost + s.counter % s.n)
  }

  ghost predicate Execution(s: State, steps: seq<Step>, t: State)
    decreases |steps|
  {
    if steps == [] then s == t
    else Enabled(s, steps[0]) && Execution(Apply(s, steps[0]), steps[1..], t)
  }

  /** Every count is accounted for: used by a fire, pending towards the next one, or lost. */
  predicate Balanced(s: State) {
    s.n > 0 && s.n * s.fires + s.counter % s.n + s.lost == s.calls
  }

  lemma NextResidue(c: nat, n: nat)
    requires n > 0
    ensures (c + 1) % n == if c % n + 1 == n then 0 else c % n + 1
  {
    var q, r := c / n, c % n;
    if r + 1 == n {
      QuotientIs(c + 1, n, q + 1, 0);
    } else {
      QuotientIs(c + 1, n, q, r + 1);
    }
  }

  lemma StepKeepsBalance(s: State, step: Step)
    requires Balanced(s) && Enabled(s, step)
    ensures Balanced(Apply(s, step))
  {
    match step {
      case FetchAdd(t) =>
        NextResidue(s.counter, s.n);
        assert s.n * (s.fires + 1) == s.n * s.fires + s.n;
      case StoreZero(t) =>
      case Call(t) =>
      case Reset =>
    }
  }

  /** Over every interleaving the books balance exactly, so n * fires + counter mod n never exceeds the calls, and the
      policy has fired floor(calls / n) times precisely when the lost counts would not have completed another round. */
  lemma {:induction false} CallsAreAccountedFor(s: State, steps: seq<Step>, t: State)
    requires Balanced(s) && Execution(s, steps, t)
    ensures Balanced(t)
    ensures t.n * t.fires + t.counter % t.n <= t.calls
    ensures t.fires == t.calls / t.n <==> t.counter % t.n + t.lost < t.n
    decreases |steps|
  {
    if steps != [] {
      StepKeepsBalance(s, steps[0]);
      CallsAreAccountedFor(Apply(s, steps[0]), steps[1..], t);
    } else if t.counter % t.n + t.lost < t.n {
      QuotientIs(t.calls, t.n, t.fires, t.counter % t.n + t.lost);
    }
  }

  /** Every store of zero, by a winner or by reset(), finds the counter on a multiple of n. */
  ghost predicate StoresOnMultiples(s: State, steps: seq<Step>)
    decreases |steps|
  {
    steps == [] ||
    (&& Enabled(s, steps[0])
     && (steps[0].StoreZero? || steps[0].Reset? ==> s.counter % s.n == 0)
     && StoresOnMultiples(Apply(s, steps[0]), steps[1..]))
  }

  /** A count is lost exactly when some store of zero finds the counter off a multiple of n. */
  lemma {:induction false} LossIff(s: State, steps: seq<Step>, t: State)
    requires Execution(s, steps, t)
    ensures t.lost >= s.lost && t.n == s.n
    ensures t.lost == s.lost <==> StoresOnMultiples(s, steps)
    decreases |steps|
  {
    if steps != [] {
      LossIff(Apply(s, steps[0]), steps[1..], t);
    }
  }

  /** Exactly when no call is forgotten, and then the policy has fired floor(calls / n) times. */
  lemma NothingLostIff(s: State, steps: seq<Step>, t: State)
    requires Initial(s) && Execution(s, steps, t)
    ensures t.n == s.n
    ensures t.n * t.fires + t.counter % t.n == t.calls <==> StoresOnMultiples(s, steps)
    ensures StoresOnMultiples(s, steps) ==> t.fires == t.calls / t.n
  {
    LossIff(s, steps, t);
    CallsAreAccountedFor(s, steps, t);
  }

  // ----- fires are calls of the callback -----

  function FetchAdds(steps: seq<Step>): nat {
    if steps == [] then 0 else (if steps[0].FetchAdd? then 1 else 0) + FetchAdds(steps[1..])
  }

  function CallbackRuns(steps: seq<Step>): nat {
    if steps == [] then 0 else (if steps[0].Call? then 1 else 0) + CallbackRuns(steps[1..])
  }

  /** Callers on their way from a fire to the return from the callback. */
  function Underway(pc: seq<Pc>): nat {
    if pc == [] then 0 else Underway(pc[..|pc| - 1]) + if pc[|pc| - 1] == Idle then 0 else 1
  }

  lemma {:induction false} UnderwayAfter(pc: seq<Pc>, t: nat, next: Pc)
    requires t < |pc|
    ensures Underway(pc[t := next]) + (if pc[t] == Idle then 0 else 1) == Underway(pc) + if next == Idle then 0 else 1
  {
    var n := |pc| - 1;
    if t == n {
      assert pc[t := next][..n] == pc[..n];
    } else {
      UnderwayAfter(pc[..n], t, next);
      assert pc[t := next][..n] == pc[..n][t := next];
    }
  }

  lemma {:induction false} NobodyUnderway(pc: seq<Pc>)
    ensures Underway(pc) == 0 <==> forall t :: 0 <= t < |pc| ==> pc[t] == Idle
  {
    if pc != [] {
      NobodyUnderway(pc[..|pc| - 1]);
    }
  }

  lemma StepCounts(s: State, step: Step)
    requires Enabled(s, step)
    ensures var r := Apply(s, step);
            && r.calls == s.calls + (if step.FetchAdd? then 1 else 0)
            && r.fires - Underway(r.pc) == s.fires - Underway(s.pc) + if step.Call? then 1 else 0
  {
    match step {
      case FetchAdd(t) => UnderwayAfter(s.pc, t, Storing);
      case StoreZero(t) => UnderwayAfter(s.pc, t, Calling);
      case Call(t) => UnderwayAfter(s.pc, t, Idle);
      case Reset =>
    }
  }

  lemma {:induction false} ExecutionCounts(s: State, steps: seq<Step>, t: State)
    requires Execution(s, steps, t)
    ensures t.calls == s.calls + FetchAdds(steps)
    ensures t.fires - Underway(t.pc) == s.fires - Underway(s.pc) + CallbackRuns(steps)
    decreases |steps|
  {
    if steps != [] {
      StepCounts(s, steps[0]);
      hide Apply;
      ExecutionCounts(Apply(s, steps[0]), steps[1..], t);
    }
  }

  /** The books are about real calls: execute() was entered `calls` times and, once everyone has returned, the callback
      has run `fires` times; so when no store wiped counts out it has run floor(calls / n) times. */
  lemma CallbackRunsInFull(s: State, steps: seq<Step>, t: State)
    requires Initial(s) && Execution(s, steps, t)
    ensures t.n == s.n && t.calls == FetchAdds(steps) && t.fires == CallbackRuns(steps) + Underway(t.pc)
    ensures AllIdle(t) ==> t.fires == CallbackRuns(steps)
    ensures AllIdle(t) && StoresOnMultiples(s, steps) ==> CallbackRuns(steps) == FetchAdds(steps) / s.n
  {
    NobodyUnderway(s.pc);
    NobodyUnderway(t.pc);
    ExecutionCounts(s, steps, t);
    NothingLostIff(s, steps, t);
  }

  predicate NobodyStoring(s: State) {
    forall t :: 0 <= t < |s.pc| ==> s.pc[t] != Storing
  }

  /** Nobody counts between a winner's fetch_add and its store of zero, and reset() comes between rounds. */
  ghost predicate Undisturbed(s: State, steps: seq<Step>)
    decreases |steps|
  {
    steps == [] ||
    (&& Enabled(s, steps[0])
     && (steps[0].FetchAdd? ==> NobodyStoring(s))
     && (steps[0].Reset? ==> s.counter % s.n == 0)
     && Undisturbed(Apply(s, steps[0]), steps[1..]))
  }

  /** Such a schedule loses nothing. */
  lemma {:induction false} UndisturbedLosesNothing(s: State, steps: seq<Step>)
    requires s.n > 0 && (NobodyStoring(s) || s.counter % s.n == 0) && Undisturbed(s, steps)
    ensures StoresOnMultiples(s, steps)
    decreases |steps|
  {
    if steps != [] {
      var r := Apply(s, steps[0]);
      if steps[0].FetchAdd? && (s.counter + 1) % s.n != 0 {
        assert NobodyStoring(r);
      } else if steps[0].StoreZero? {
        assert s.pc[steps[0].t] == Storing;
      } else if steps[0].Call? && NobodyStoring(s) {
        assert NobodyStoring(r);
      }
      UndisturbedLosesNothing(r, steps[1..]);
    }
  }

  // ----- a loss is felt -----

  /** With nobody about to store zero, the counter has not reached n since it was last zero. */
  ghost predicate WithinRound(s: State) {
    Balanced(s) && s.n < SIZE_MODULUS && (s.calls > 0 ==> |s.pc| > 0) && (NobodyStoring(s) ==> s.counter < s.n)
  }

  lemma StayBelow(c: nat, n: nat)
    requires n > 0
    ensures c < n && (c + 1) % n != 0 ==> c + 1 < n
  {
    if c + 1 == n {
      QuotientIs(n, n, 1, 0);
    }
  }

  lemma StepKeepsRound(s: State, step: Step)
    requires WithinRound(s) && Enabled(s, step)
    ensures WithinRound(Apply(s, step))
  {
    StepKeepsBalance(s, step);
    hide Balanced;
    var r := Apply(s, step);
    if step.FetchAdd? {
      StayBelow(s.counter, s.n);
      if (s.counter + 1) % s.n != 0 {
        assert NobodyStoring(r) ==> NobodyStoring(s);
      } else {
        assert r.pc[step.t] == Storing;
      }
    } else if step.Call? {
      assert NobodyStoring(r) ==> forall k :: 0 <= k < |s.pc| && k != step.t ==> s.pc[k] == r.pc[k];
      assert NobodyStoring(r) ==> NobodyStoring(s);
    }
  }

  lemma {:induction false} ExecutionKeepsRound(s: State, steps: seq<Step>, t: State)
    requires WithinRound(s) && Execution(s, steps, t)
    ensures WithinRound(t)
    decreases |steps|
  {
    if steps != [] {
      StepKeepsRound(s, steps[0]);
      ExecutionKeepsRound(Apply(s, steps[0]), steps[1..], t);
    }
  }

  predicate AllIdle(s: State) {
    forall t :: 0 <= t < |s.pc| ==> s.pc[t] == Idle
  }

  /** Steps left until everyone has returned. */
  function Unfinished(pc: seq<Pc>): nat {
    if pc == [] then 0
    else Unfinished(pc[..|pc| - 1]) + match pc[|pc| - 1] case Idle => 0 case Calling => 1 case Storing => 2
  }

  lemma {:induction false} UnfinishedDrops(pc: seq<Pc>, t: nat, next: Pc)
    requires t < |pc| && pc[t] != Idle && next == (if pc[t] == Storing then Calling else Idle)
    ensures Unfinished(pc[t := next]) == Unfinished(pc) - 1
  {
    var n := |pc| - 1;
    if t < n {
      UnfinishedDrops(pc[..n], t, next);
      assert pc[t := next][..n] == pc[..n][t := next];
    } else {
      assert pc[t := next][..n] == pc[..n];
    }
  }

  /** Everyone inside execute() returns, one after the other. */
  lemma {:induction false} Drain(s: State) returns (steps: seq<Step>, t: State)
    requires WithinRound(s)
    ensures Execution(s, steps, t) && WithinRound(t) && AllIdle(t)
    ensures t.n == s.n && t.calls == s.calls && t.fires == s.fires && t.lost >= s.lost
    decreases Unfinished(s.pc)
  {
    if AllIdle(s) {
      steps, t := [], s;
    } else {
      var k :| 0 <= k < |s.pc| && s.pc[k] != Idle;
      var step := if s.pc[k] == Storing then StoreZero(k) else Call(k);
      UnfinishedDrops(s.pc, k, if s.pc[k] == Storing then Calling else Idle);
      StepKeepsRound(s, step);
      var rest;
      rest, t := Drain(Apply(s, step));
      steps := Prepend(s, step, rest, t);
    }
  }

  /** One caller counts up to just below the next multiple of n. */
  lemma {:induction false} CountUp(s: State) returns (steps: seq<Step>, t: State)
    requires WithinRound(s) && AllIdle(s) && |s.pc| > 0
    ensures Execution(s, steps, t) && WithinRound(t) && AllIdle(t)
    ensures t.n == s.n && t.fires == s.fires && t.lost == s.lost && t.counter == s.n - 1
    decreases s.n - s.counter
  {
    assert NobodyStoring(s);
    if s.counter == s.n - 1 {
      steps, t := [], s;
    } else {
      QuotientIs(s.counter + 1, s.n, 0, s.counter + 1);
      StepKeepsRound(s, FetchAdd(0));
      var rest;
      rest, t := CountUp(Apply(s, FetchAdd(0)));
      steps := Prepend(s, FetchAdd(0), rest, t);
    }
  }

  lemma {:induction false} Concatenated(s: State, first: seq<Step>, m: State, second: seq<Step>, t: State)
    requires Execution(s, first, m) && Execution(m, second, t)
    ensures Execution(s, first + second, t)
    decreases |first|
  {
    if first == [] {
      assert first + second == second;
    } else {
      Concatenated(Apply(s, first[0]), first[1..], m, second, t);
      assert (first + second)[1..] == first[1..] + second;
    }
  }

  /** Once a count is lost, everyone returning and one caller counting on, with no overlap at all, ends with fewer fires
      than floor(calls / n): the loss is never made good. */
  lemma LossIsFelt(s: State, steps: seq<Step>, m: State) returns (more: seq<Step>, t: State)
    requires Initial(s) && Execution(s, steps, m) && !StoresOnMultiples(s, steps)
    ensures Execution(m, more, t) && Execution(s, steps + more, t) && AllIdle(t)
    ensures t.n == s.n && t.fires < t.calls / t.n
  {
    LossIff(s, steps, m);
    QuotientIs(0, s.n, 0, 0);
    ExecutionKeepsRound(s, steps, m);
    assert m.calls > 0 by {
      assert m.n * m.fires >= 0;
    }
    var drained, quiet := Drain(m);
    var counted;
    counted, t := CountUp(quiet);
    more := drained + counted;
    Concatenated(m, drained, quiet, counted, t);
    Concatenated(s, steps, m, more, t);
    QuotientIs(t.n - 1, t.n, 0, t.n - 1);
    FewerFires(t.n, t.fires, t.lost, t.calls);
  }

  lemma FewerFires(n: nat, fires: nat, lost: nat, calls: nat)
    requires n > 0 && lost > 0 && n * fires + (n - 1) + lost == calls
    ensures fires < calls / n
  {
    var q := calls / n;
    assert calls == n * q + calls % n;
    assert q <= fires ==> n * q <= n * fires;
  }

  /** Counts really are lost: a caller that counts between another's fetch_add and its store of zero is forgotten. */
  lemma CountsCanBeLost() returns (s: State, steps: seq<Step>, t: State)
    ensures Initial(s) && Execution(s, steps, t)
    ensures t.n == 2 && t.calls == 4 && t.fires == 1
    ensures forall k :: 0 <= k < |t.pc| ==> t.pc[k] == Idle
  {
    s := State(2, 0, [Idle, Idle], 0, 0, 0);
    t := State(2, 1, [Idle, Idle], 4, 1, 1);
    var counted := State(2, 1, [Idle, Idle], 1, 0, 0);
    var claimed := State(2, 2, [Storing, Idle], 2, 1, 0);
    assert Enabled(s, FetchAdd(0)) && Apply(s, FetchAdd(0)) == counted;
    SecondCall(counted, claimed);
    steps := LastSteps(claimed, t);
    steps := Prepend(counted, FetchAdd(0), steps, t);
    steps := Prepend(s, FetchAdd(0), steps, t);
  }

  lemma SecondCall(s: State, t: State)
    requires s == State(2, 1, [Idle, Idle], 1, 0, 0) && t == State(2, 2, [Storing, Idle], 2, 1, 0)
    ensures Enabled(s, FetchAdd(0)) && Apply(s, FetchAdd(0)) == t
  {
    assert [Idle, Idle][0 := Storing] == [Storing, Idle];
  }

  lemma LastSteps(s: State, t: State) returns (steps: seq<Step>)
    requires s == State(2, 2, [Storing, Idle], 2, 1, 0) && t == State(2, 1, [Idle, Idle], 4, 1, 1)
    ensures Execution(s, steps, t)
  {
    var overtaken := State(2, 3, [Storing, Idle], 3, 1, 0);
    var stored := State(2, 0, [Calling, Idle], 3, 1, 1);
    var returned := State(2, 0, [Idle, Idle], 3, 1, 1);
    steps := Prepend(returned, FetchAdd(0), [], t);
    steps := Prepend(stored, Call(0), steps, t);
    steps := Prepend(overtaken, StoreZero(0), steps, t);
    steps := Prepend(s, FetchAdd(1), steps, t);
  }

  lemma Prepend(s: State, step: Step, rest: seq<Step>, t: State) returns (steps: seq<Step>)
    requires Enabled(s, step) && Execution(Apply(s, step), rest, t)
    ensures steps == [step] + rest && Execution(s, steps, t)
  {
    steps := [step] + rest;
    assert steps[1..] == rest;
  }

  // ----- the exact variants -----

  /** How often the callback has run after `calls` calls. */
  function Floor(calls: nat, n: nat): nat
    requires n > 0
  {
    calls / n
  }

  lemma FloorStep(calls: nat, n: nat)
    requires n > 0
    ensures (calls + 1) / n == calls / n + if (calls + 1) % n == 0 then 1 else 0
  {
    NextResidue(calls, n);
    var q, r := calls / n, calls % n;
    if r + 1 == n {
      QuotientIs(calls + 1, n, q + 1, 0);
    } else {
      QuotientIs(calls + 1, n, q, r + 1);
    }
  }

  lemma FloorZero(n: nat)
    requires n > 0
    ensures Floor(0, n) == 0 && 0 % n == 0
  {
    QuotientIs(0, n, 0, 0);
  }

  /** Counting modulo n by an increment and a test, for a counter that has not reached the size of its type. */
  lemma CountStep(calls: nat, n: nat, counter: nat)
    requires 0 < n < SIZE_MODULUS && counter == calls % n
    ensures (counter + 1) % SIZE_MODULUS == counter + 1 <= n
    ensures (counter + 1) % n == (calls + 1) % n == if counter + 1 < n then counter + 1 else 0
    ensures Floor(calls + 1, n) == Floor(calls, n) + if counter + 1 < n then 0 else 1
  {
    NextResidue(calls, n);
    FloorStep(calls, n);
    if counter + 1 < n {
      QuotientIs(counter + 1, n, 0, counter + 1);
    } else {
      QuotientIs(counter + 1, n, 1, 0);
    }
  }

  /** Version 2.0 in single-thread mode. */
  class SingleThread20 {
    const n: nat
    var counter: nat
    ghost var calls: nat   // since the last reset
    ghost var fires: nat

    ghost predicate Valid()
      reads this
    {
      0 < n < SIZE_MODULUS && counter == calls % n && fires == Floor(calls, n)
    }

    constructor (interval: nat)
      requires interval < SIZE_MODULUS
      ensures Valid() && calls == 0 && n == if interval == 0 then 1 else interval
    {
      n := if interval == 0 then 1 else interval;
      counter, calls, fires := 0, 0, 0;
      FloorZero(if interval == 0 then 1 else interval);
    }

    method Execute() returns (fire: bool)
      requires Valid()
      modifies this
      ensures Valid() && calls == old(calls) + 1
      ensures fires == old(fires) + if fire then 1 else 0
      ensures fire <==> calls % n == 0
    {
      CountStep(calls, n, counter);
      calls := calls + 1;
      var previous := counter;
      counter := (counter + 1) % SIZE_MODULUS;
      if ((previous + 1) % SIZE_MODULUS) % n != 0 {
        return false;
      }
      counter := 0;
      fires := fires + 1;
      return true;
    }

    method Reset()
      requires Valid()
      modifies this
      ensures Valid() && calls == 0 && fires == 0
    {
      counter := 0;
      calls, fires := 0, 0;
      FloorZero(n);
    }
  }

  /** Version 1.0, single thread: compares instead of taking a remainder. */
  class SingleThread10 {
    const n: nat
    var counter: nat
    ghost var calls: nat
    ghost var fires: nat

    ghost predicate Valid()
      reads this
    {
      0 < n < SIZE_MODULUS && counter == calls % n && fires == Floor(calls, n)
    }

    constructor (interval: nat)
      requires interval < SIZE_MODULUS
      ensures Valid() && calls == 0 && n == if interval == 0 then 1 else interval
    {
      n := if interval == 0 then 1 else interval;
      counter, calls, fires := 0, 0, 0;
      FloorZero(if interval == 0 then 1 else interval);
    }

    method Execute() returns (fire: bool)
      requires Valid()
      modifies this
      ensures Valid() && calls == old(calls) + 1
      ensures fires == old(fires) + if fire then 1 else 0
      ensures fire <==> calls % n == 0
    {
      CountStep(calls, n, counter);
      calls := calls + 1;
      counter := (counter + 1) % SIZE_MODULUS;
      if counter < n {
        return false;
      }
      counter := 0;
      fires := fires + 1;
      return true;
    }

    method Reset()
      requires Valid()
      modifies this
      ensures Valid() && calls == 0 && fires == 0
    {
      counter := 0;
      calls, fires := 0, 0;
      FloorZero(n);
    }
  }

  /** Version 1.0, concurrent: one fetch_add per call and no store, so its order of calls is the order of fetch_adds.
      execute() never brings the counter back to zero, so it wraps. */
  class Concurrent10 {
    const n: nat
    var counter: nat
    ghost var calls: nat
    ghost var fires: nat

    ghost predicate Valid()
      reads this
    {
      0 < n < SIZE_MODULUS && counter == calls % SIZE_MODULUS && fires == WrappedFires(calls, n)
    }

    constructor (interval: nat)
      requires interval < SIZE_MODULUS
      ensures Valid() && calls == 0 && n == if interval == 0 then 1 else interval
    {
      n := if interval == 0 then 1 else interval;
      counter, calls, fires := 0, 0, 0;
      FloorZero(if interval == 0 then 1 else interval);
    }

    method Execute() returns (fire: bool)
      requires Valid()
      modifies this
      ensures Valid() && calls == old(calls) + 1
      ensures fires == old(fires) + if fire then 1 else 0
      ensures fire <==> (calls % SIZE_MODULUS) % n == 0
    {
      NextResidue(calls, SIZE_MODULUS);
      calls := calls + 1;
      var previous := counter;
      counter := (counter + 1) % SIZE_MODULUS;
      if ((previous + 1) % SIZE_MODULUS) % n != 0 {
        return false;
      }
      fires := fires + 1;
      return true;
    }

    method Reset()
      requires Valid()
      modifies this
      ensures Valid() && calls == 0 && fires == 0
    {
      counter := 0;
      calls, fires := 0, 0;
    }
  }

  /** Fires of a counter that wraps at the size of its type. */
  function WrappedFires(calls: nat, n: nat): nat
    requires n > 0
  {
    if calls == 0 then 0
    else WrappedFires(calls - 1, n) + if (calls % SIZE_MODULUS) % n == 0 then 1 else 0
  }

  lemma {:induction false} ExactBeforeWrap(calls: nat, n: nat)
    requires n > 0 && calls < SIZE_MODULUS
    ensures WrappedFires(calls, n) == Floor(calls, n)
  {
    if calls > 0 {
      ExactBeforeWrap(calls - 1, n);
      FloorStep(calls - 1, n);
      QuotientIs(calls, SIZE_MODULUS, 0, calls);
    } else {
      FloorZero(n);
    }
  }

  lemma ResidueOfResidue(calls: nat, n: nat)
    requires n > 0 && SIZE_MODULUS % n == 0
    ensures (calls % SIZE_MODULUS) % n == calls % n
  {
    var q, r := calls / SIZE_MODULUS, calls % SIZE_MODULUS;
    var k := SIZE_MODULUS / n;
    assert SIZE_MODULUS == n * k;
    assert calls == n * (k * q) + r by {
      assert SIZE_MODULUS * q == n * (k * q);
    }
    var a, b := r / n, r % n;
    assert r == n * a + b;
    assert calls == n * (k * q + a) + b by {
      assert n * (k * q + a) == n * (k * q) + n * a;
    }
    QuotientIs(calls, n, k * q + a, b);
  }

  lemma {:induction false} ExactWhenDividing(calls: nat, n: nat)
    requires n > 0 && SIZE_MODULUS % n == 0
    ensures WrappedFires(calls, n) == Floor(calls, n)
  {
    if calls > 0 {
      ExactWhenDividing(calls - 1, n);
      FloorStep(calls - 1, n);
      ResidueOfResidue(calls, n);
    } else {
      FloorZero(n);
    }
  }

  /** The wrapping counter fires exactly floor(calls / n) times for ever iff n divides the size of its type. */
  lemma WrapIsHarmlessIffDividing(n: nat)
    requires 0 < n < SIZE_MODULUS
    ensures (forall calls :: WrappedFires(calls, n) == Floor(calls, n)) <==> SIZE_MODULUS % n == 0
  {
    if SIZE_MODULUS % n == 0 {
      forall calls: nat
        ensures WrappedFires(calls, n) == Floor(calls, n)
      {
        ExactWhenDividing(calls, n);
      }
    } else {
      ExactBeforeWrap(SIZE_MODULUS - 1, n);
      FloorStep(SIZE_MODULUS - 1, n);
      FloorZero(n);
      assert WrappedFires(SIZE_MODULUS, n) == WrappedFires(SIZE_MODULUS - 1, n) + 1;
    }
  }
}
