/** `once` in its concurrent mode: a compare-and-swap latch in front of the callback. */
module OncePolicy {

  /** A caller is outside execute(), or has won the latch in arming `epoch` and is about to run the callback. */
  datatype Pc = Idle | Calling(epoch: nat)

  datatype State = State(
    fired: bool,
    pc: seq<Pc>,
    epoch: nat,            // history: how many resets so far
    tried: set<nat>,       // history: armings in which some execute() reached the latch
    log: seq<nat>)         // history: the arming of each completed callback

  predicate Initial(s: State) {
    !s.fired && s.epoch == 0 && s.tried == {} && s.log == [] && forall t :: 0 <= t < |s.pc| ==> s.pc[t] == Idle
  }

  datatype Step = CompareExchange(t: nat) | Call(t: nat) | Reset

  predicate Enabled(s: State, step: Step) {
    match step
    case CompareExchange(t) => t < |s.pc| && s.pc[t] == Idle
    case Call(t) => t < |s.pc| && s.pc[t].Calling?
    case Reset => true
  }

  function Apply(s: State, step: Step): State
    requires Enabled(s, step)
  {
    match step
    case CompareExchange(t) =>
      if s.fired then s.(tried := s.tried + {s.epoch})
      else s.(fired := true, pc := s.pc[t := Calling(s.epoch)], tried := s.tried + {s.epoch})
    case Call(t) => s.(log := s.log + [s.pc[t].epoch], pc := s.pc[t := Idle])
    case Reset => s.(fired := false, epoch := s.epoch + 1)
  }

  ghost predicate Execution(s: State, steps: seq<Step>, t: State)
    decreases |steps|
  {
    if steps == [] then s == t
    else Enabled(s, steps[0]) && Execution(Apply(s, steps[0]), steps[1..], t)
  }

  predicate Running(s: State, e: nat) {
    exists t :: 0 <= t < |s.pc| && s.pc[t] == Calling(e)
  }

  ghost predicate Inv(s: State) {
    && (forall i, j :: 0 <= i < j < |s.log| ==> s.log[i] != s.log[j])
    && (forall i, j :: 0 <= i < j < |s.pc| && s.pc[i].Calling? ==> s.pc[i] != s.pc[j])
    && (forall t :: 0 <= t < |s.pc| && s.pc[t].Calling? ==> s.pc[t].epoch !in s.log)
    // an arming that was tried has been claimed, and only those have
    && (forall e :: e in s.tried <==> e in s.log || Running(s, e))
    && (forall e :: e in s.tried ==> e <= s.epoch)
    && (s.fired <==> s.epoch in s.tried)
  }

  /** Winning the latch starts the current arming; every other arming runs or not as before. */
  lemma RunningAfterClaim(s: State, r: State, t: nat)
    requires t < |s.pc| && s.pc[t] == Idle && r.pc == s.pc[t := Calling(s.epoch)]
    ensures forall e :: Running(r, e) <==> Running(s, e) || e == s.epoch
  {
    assert r.pc[t] == Calling(s.epoch);
    forall e | Running(s, e)
      ensures Running(r, e)
    {
      var k :| 0 <= k < |s.pc| && s.pc[k] == Calling(e);
      assert r.pc[k] == Calling(e);
    }
  }

  /** Returning from the callback ends one arming. */
  lemma RunningAfterCall(s: State, r: State, t: nat)
    requires t < |s.pc| && s.pc[t].Calling? && r.pc == s.pc[t := Idle]
    ensures forall e :: Running(s, e) <==> Running(r, e) || e == s.pc[t].epoch
  {
    forall e
      ensures Running(s, e) <==> Running(r, e) || e == s.pc[t].epoch
    {
      if Running(s, e) && e != s.pc[t].epoch {
        var k :| 0 <= k < |s.pc| && s.pc[k] == Calling(e);
        assert r.pc[k] == Calling(e);
      }
      if Running(r, e) {
        var k :| 0 <= k < |r.pc| && r.pc[k] == Calling(e);
        assert s.pc[k] == Calling(e);
      }
    }
  }

  lemma ClaimKeepsInv(s: State, t: nat)
    requires Inv(s) && Enabled(s, CompareExchange(t))
    ensures Inv(Apply(s, CompareExchange(t)))
  {
    var r := Apply(s, CompareExchange(t));
    if s.fired {
      assert forall e :: Running(r, e) <==> Running(s, e);
    } else {
      assert forall k :: 0 <= k < |s.pc| && s.pc[k].Calling? ==> Running(s, s.pc[k].epoch);
      RunningAfterClaim(s, r, t);
      hide Running;
    }
  }

  lemma CallKeepsInv(s: State, t: nat)
    requires Inv(s) && Enabled(s, Call(t))
    ensures Inv(Apply(s, Call(t)))
  {
    RunningAfterCall(s, Apply(s, Call(t)), t);
    hide Running;
  }

  lemma StepKeepsInv(s: State, step: Step)
    requires Inv(s) && Enabled(s, step)
    ensures Inv(Apply(s, step))
  {
    match step {
      case CompareExchange(t) => ClaimKeepsInv(s, t);
      case Call(t) => CallKeepsInv(s, t);
      case Reset => assert forall e :: Running(Apply(s, Reset), e) <==> Running(s, e);
    }
  }

  lemma {:induction false} ExecutionKeepsInv(s: State, steps: seq<Step>, t: State)
    requires Inv(s) && Execution(s, steps, t)
    ensures Inv(t)
    decreases |steps|
  {
    if steps != [] {
      StepKeepsInv(s, steps[0]);
      ExecutionKeepsInv(Apply(s, steps[0]), steps[1..], t);
    }
  }

  /** The armings in which the steps call execute(), when they start in arming `epoch`. */
  function Tried(epoch: nat, steps: seq<Step>): set<nat>
    decreases |steps|
  {
    if steps == [] then {}
    else
      match steps[0]
      case CompareExchange(_) => {epoch} + Tried(epoch, steps[1..])
      case Call(_) => Tried(epoch, steps[1..])
      case Reset => Tried(epoch + 1, steps[1..])
  }

  function Resets(steps: seq<Step>): nat {
    if steps == [] then 0 else (if steps[0].Reset? then 1 else 0) + Resets(steps[1..])
  }

  lemma {:induction false} TriedIs(s: State, steps: seq<Step>, t: State)
    requires Execution(s, steps, t)
    ensures t.tried == s.tried + Tried(s.epoch, steps) && t.epoch == s.epoch + Resets(steps)
    decreases |steps|
  {
    if steps != [] {
      TriedIs(Apply(s, steps[0]), steps[1..], t);
    }
  }

  /** In every interleaving of any number of callers and resets, no arming runs the callback twice; once everyone has
      returned, each arming in which execute() was called has run it exactly once, and no other arming has. */
  lemma OncePerArming(s: State, steps: seq<Step>, t: State)
    requires Initial(s) && Execution(s, steps, t)
    ensures forall i, j :: 0 <= i < j < |t.log| ==> t.log[i] != t.log[j]
    ensures (forall k :: 0 <= k < |t.pc| ==> t.pc[k] == Idle) ==> forall e :: e in t.log <==> e in Tried(0, steps)
    ensures t.fired <==> Resets(steps) in Tried(0, steps)
  {
    assert forall e :: !Running(s, e);
    ExecutionKeepsInv(s, steps, t);
    TriedIs(s, steps, t);
  }

  /** A caller that finds the latch open always gets to run the callback, whatever the others are doing. */
  lemma ExecuteRuns(s: State, k: nat)
    requires k < |s.pc| && s.pc[k] == Idle && !s.fired
    ensures exists t :: && Execution(s, [CompareExchange(k), Call(k)], t)
                        && t.fired && t.log == s.log + [s.epoch] && t.pc == s.pc
  {
    var steps := [CompareExchange(k), Call(k)];
    var m := Apply(s, steps[0]);
    var t := Apply(m, steps[1]);
    assert steps[1..] == [Call(k)] && steps[1..][1..] == [];
    assert Execution(t, [], t);
    assert Execution(m, steps[1..], t);
    assert t.pc == s.pc;
  }

  /** A fired latch stays fired until it is reset, and until then nobody else gets through: whoever is about to run the
      callback at the end already was at the start. */
  lemma {:induction false} FiredIsAbsorbing(s: State, steps: seq<Step>, t: State)
    requires s.fired && Execution(s, steps, t) && forall i :: 0 <= i < |steps| ==> !steps[i].Reset?
    ensures t.fired && t.epoch == s.epoch && |t.pc| == |s.pc|
    ensures forall k :: 0 <= k < |s.pc| && t.pc[k].Calling? ==> t.pc[k] == s.pc[k]
    decreases |steps|
  {
    if steps != [] {
      FiredIsAbsorbing(Apply(s, steps[0]), steps[1..], t);
    }
  }
}

/** `armed_window` in its concurrent mode: a load, a clock reading and a compare-and-swap, interleaved freely. */
module ArmedWindowPolicy {

  datatype Latch = Armed | Fired | Expired

  /** Inside execute(): after the load, after reading the clock on either side of the deadline, or in the callback. */
  datatype Pc = Idle | Loaded | Early(reading: int) | Late(reading: int) | Calling(epoch: nat, reading: int)

  /** What an execute() did to the latch: the arming it settled and the clock reading it went by. */
  datatype Verdict = Verdict(epoch: nat, reading: int)

  datatype State = State(
    latch: Latch,
    deadline: int,
    pc: seq<Pc>,
    deadlines: seq<int>,      // history: the deadline of every arming; the last one is current
    log: seq<Verdict>,        // history: completed callbacks
    expiries: seq<Verdict>)   // history: armings that execute() let expire

  predicate AllIdle(s: State) {
    forall t :: 0 <= t < |s.pc| ==> s.pc[t] == Idle
  }

  predicate Initial(s: State) {
    s.latch == Armed && s.deadlines == [s.deadline] && s.log == [] && s.expiries == [] && AllIdle(s)
  }

  datatype Step =
    | Load(t: nat)
    | ReadClock(t: nat, now: int)
    | ExpireLate(t: nat)
    | ClaimFire(t: nat)
    | Call(t: nat)
    | Expire
    | Rearm(now: int, window: int)

  predicate Enabled(s: State, step: Step) {
    match step
    case Load(t) => t < |s.pc| && s.pc[t] == Idle
    case ReadClock(t, _) => t < |s.pc| && s.pc[t] == Loaded
    case ExpireLate(t) => t < |s.pc| && s.pc[t].Late?
    case ClaimFire(t) => t < |s.pc| && s.pc[t].Early?
    case Call(t) => t < |s.pc| && s.pc[t].Calling?
    case Expire => true
    case Rearm(_, _) => true
  }

  function Apply(s: State, step: Step): State
    requires |s.deadlines| > 0 && Enabled(s, step)
  {
    var epoch := |s.deadlines| - 1;
    match step
    case Load(t) => if s.latch == Armed then s.(pc := s.pc[t := Loaded]) else s
    case ReadClock(t, now) => s.(pc := s.pc[t := if now >= s.deadline then Late(now) else Early(now)])
    case ExpireLate(t) =>
      if s.latch == Armed then
        s.(latch := Expired, expiries := s.expiries + [Verdict(epoch, s.pc[t].reading)], pc := s.pc[t := Idle])
      else s.(pc := s.pc[t := Idle])
    case ClaimFire(t) =>
      if s.latch == Armed then s.(latch := Fired, pc := s.pc[t := Calling(epoch, s.pc[t].reading)])
      else s.(pc := s.pc[t := Idle])
    case Call(t) => s.(log := s.log + [Verdict(s.pc[t].epoch, s.pc[t].reading)], pc := s.pc[t := Idle])
    case Expire => s.(latch := if s.latch == Armed then Expired else s.latch)
    case Rearm(now, window) =>
      s.(deadline := now + window, deadlines := s.deadlines + [now + window], latch := Armed)
  }

  ghost predicate Execution(s: State, steps: seq<Step>, t: State)
    decreases |steps|
  {
    if steps == [] then s == t
    else |s.deadlines| > 0 && Enabled(s, steps[0]) && Execution(Apply(s, steps[0]), steps[1..], t)
  }

  // ----- every arming is settled at most once -----

  /** Which armings the callers and the histories speak of. */
  ghost predicate EpochInv(s: State) {
    CallersInv(s) && HistoryInv(s)
  }

  ghost predicate CallersInv(s: State) {
    var epoch := |s.deadlines| - 1;
    && epoch >= 0 && s.deadline == s.deadlines[epoch]
    && (forall t :: 0 <= t < |s.pc| && s.pc[t].Calling? ==>
          s.pc[t].epoch <= epoch && (s.pc[t].epoch == epoch ==> s.latch == Fired))
    && (forall i, j :: 0 <= i < j < |s.pc| && s.pc[i].Calling? && s.pc[j].Calling? ==>
          s.pc[i].epoch != s.pc[j].epoch)
  }

  ghost predicate HistoryInv(s: State) {
    && Settles(s, s.log, Fired) && Settles(s, s.expiries, Expired)
    && (forall i, j :: 0 <= i < |s.log| && 0 <= j < |s.expiries| ==> s.log[i].epoch != s.expiries[j].epoch)
  }

  /** Each verdict settles another arming, none that a running callback has claimed; the current one is left so. */
  ghost predicate Settles(s: State, verdicts: seq<Verdict>, latch: Latch) {
    && (forall k :: 0 <= k < |verdicts| ==> verdicts[k].epoch < |s.deadlines|)
    && (forall k :: 0 <= k < |verdicts| && verdicts[k].epoch == |s.deadlines| - 1 ==> s.latch == latch)
    && (forall j, k :: 0 <= j < k < |verdicts| ==> verdicts[j].epoch != verdicts[k].epoch)
    && (forall k, t :: 0 <= k < |verdicts| && 0 <= t < |s.pc| && s.pc[t].Calling? ==>
          verdicts[k].epoch != s.pc[t].epoch)
  }

  lemma StepKeepsCallers(s: State, step: Step)
    requires CallersInv(s) && Enabled(s, step)
    ensures CallersInv(Apply(s, step))
  {
  }

  /** What has been settled stays so, whatever happens next. */
  lemma StepKeepsSettled(s: State, step: Step, verdicts: seq<Verdict>, latch: Latch)
    requires CallersInv(s) && Enabled(s, step) && Settles(s, verdicts, latch) && latch != Armed
    ensures Settles(Apply(s, step), verdicts, latch)
  {
  }

  lemma OneMoreSettled(s: State, verdicts: seq<Verdict>, v: Verdict, latch: Latch)
    requires Settles(s, verdicts, latch) && forall k :: 0 <= k < |verdicts| ==> verdicts[k].epoch != v.epoch
    requires v.epoch < |s.deadlines| && (v.epoch == |s.deadlines| - 1 ==> s.latch == latch)
    requires forall t :: 0 <= t < |s.pc| && s.pc[t].Calling? ==> s.pc[t].epoch != v.epoch
    ensures Settles(s, verdicts + [v], latch)
  {
  }

  lemma StepKeepsLog(s: State, step: Step)
    requires CallersInv(s) && Enabled(s, step) && Settles(s, s.log, Fired)
    ensures Settles(Apply(s, step), Apply(s, step).log, Fired)
  {
    StepKeepsSettled(s, step, s.log, Fired);
    if step.Call? {
      var caller := s.pc[step.t];
      assert forall k :: 0 <= k < |s.log| ==> s.log[k].epoch != caller.epoch;
      hide Settles;
      OneMoreSettled(Apply(s, step), s.log, Verdict(caller.epoch, caller.reading), Fired);
    }
  }

  lemma StepKeepsExpiries(s: State, step: Step)
    requires CallersInv(s) && Enabled(s, step) && Settles(s, s.expiries, Expired)
    ensures Settles(Apply(s, step), Apply(s, step).expiries, Expired)
  {
    StepKeepsSettled(s, step, s.expiries, Expired);
    if step.ExpireLate? && s.latch == Armed {
      var epoch := |s.deadlines| - 1;
      assert forall k :: 0 <= k < |s.expiries| ==> s.expiries[k].epoch != epoch;
      hide Settles;
      OneMoreSettled(Apply(s, step), s.expiries, Verdict(epoch, s.pc[step.t].reading), Expired);
    }
  }

  lemma StepKeepsEpochs(s: State, step: Step)
    requires EpochInv(s) && Enabled(s, step)
    ensures EpochInv(Apply(s, step))
  {
    StepKeepsCallers(s, step);
    StepKeepsLog(s, step);
    StepKeepsExpiries(s, step);
  }

  lemma {:induction false} ExecutionKeepsEpochs(s: State, steps: seq<Step>, t: State)
    requires EpochInv(s) && Execution(s, steps, t)
    ensures EpochInv(t)
    decreases |steps|
  {
    if steps != [] {
      StepKeepsEpochs(s, steps[0]);
      ExecutionKeepsEpochs(Apply(s, steps[0]), steps[1..], t);
    }
  }

  /** In every interleaving, whenever it is re-armed: no arming runs the callback twice, expires twice, or does both. */
  lemma ArmingsAreSettledOnce(s: State, steps: seq<Step>, t: State)
    requires Initial(s) && Execution(s, steps, t)
    ensures forall j, k :: 0 <= j < k < |t.log| ==> t.log[j].epoch != t.log[k].epoch
    ensures forall j, k :: 0 <= j < k < |t.expiries| ==> t.expiries[j].epoch != t.expiries[k].epoch
    ensures forall j, k :: 0 <= j < |t.log| && 0 <= k < |t.expiries| ==> t.log[j].epoch != t.expiries[k].epoch
  {
    ExecutionKeepsEpochs(s, steps, t);
  }

  // ----- every arming is settled on the right side of its deadline -----

  /** No caller holds an early clock reading at or past the deadline. */
  predicate NoStaleReading(s: State, deadline: int) {
    forall t :: 0 <= t < |s.pc| && s.pc[t].Early? ==> s.pc[t].reading < deadline
  }

  /** No caller holds a late clock reading before the deadline. */
  predicate NoPrematureReading(s: State, deadline: int) {
    forall t :: 0 <= t < |s.pc| && s.pc[t].Late? ==> s.pc[t].reading >= deadline
  }

  /** Every completed fire was admitted before the deadline of its arming. */
  ghost predicate InTime(s: State) {
    forall k :: 0 <= k < |s.log| ==> s.log[k].epoch < |s.deadlines| && s.log[k].reading < s.deadlines[s.log[k].epoch]
  }

  /** Every arming that execute() let expire was past its deadline. */
  ghost predicate Overdue(s: State) {
    forall k :: 0 <= k < |s.expiries| ==>
      s.expiries[k].epoch < |s.deadlines| && s.expiries[k].reading >= s.deadlines[s.expiries[k].epoch]
  }

  /** Every re-arming of the run finds no reading that is stale for the deadline it sets. The source leaves this to its
      callers, who see to it most simply by keeping re-arming apart from execute(). */
  predicate RearmsFindNoneStale(s: State, steps: seq<Step>)
    requires |s.deadlines| > 0
    decreases |steps|
  {
    steps != [] && Enabled(s, steps[0]) ==>
      && (steps[0].Rearm? ==> NoStaleReading(s, steps[0].now + steps[0].window))
      && RearmsFindNoneStale(Apply(s, steps[0]), steps[1..])
  }

  predicate RearmsFindNonePremature(s: State, steps: seq<Step>)
    requires |s.deadlines| > 0
    decreases |steps|
  {
    steps != [] && Enabled(s, steps[0]) ==>
      && (steps[0].Rearm? ==> NoPrematureReading(s, steps[0].now + steps[0].window))
      && RearmsFindNonePremature(Apply(s, steps[0]), steps[1..])
  }

  ghost predicate FiresInv(s: State) {
    && NoStaleReading(s, s.deadline) && InTime(s)
    && forall t :: 0 <= t < |s.pc| && s.pc[t].Calling? ==>
         s.pc[t].epoch < |s.deadlines| && s.pc[t].reading < s.deadlines[s.pc[t].epoch]
  }

  ghost predicate ExpiriesInv(s: State) {
    NoPrematureReading(s, s.deadline) && Overdue(s)
  }

  lemma StepKeepsFires(s: State, step: Step)
    requires CallersInv(s) && FiresInv(s) && Enabled(s, step)
    requires step.Rearm? ==> NoStaleReading(s, step.now + step.window)
    ensures FiresInv(Apply(s, step))
  {
  }

  lemma StepKeepsOverdue(s: State, step: Step)
    requires CallersInv(s) && ExpiriesInv(s) && Enabled(s, step)
    requires step.Rearm? ==> NoPrematureReading(s, step.now + step.window)
    ensures ExpiriesInv(Apply(s, step))
  {
  }

  lemma {:induction false} ExecutionKeepsFires(s: State, steps: seq<Step>, t: State)
    requires CallersInv(s) && FiresInv(s) && Execution(s, steps, t) && RearmsFindNoneStale(s, steps)
    ensures FiresInv(t)
    decreases |steps|
  {
    if steps != [] {
      StepKeepsCallers(s, steps[0]);
      StepKeepsFires(s, steps[0]);
      hide FiresInv, CallersInv, NoStaleReading;
      ExecutionKeepsFires(Apply(s, steps[0]), steps[1..], t);
    }
  }

  lemma {:induction false} ExecutionKeepsOverdue(s: State, steps: seq<Step>, t: State)
    requires CallersInv(s) && ExpiriesInv(s) && Execution(s, steps, t) && RearmsFindNonePremature(s, steps)
    ensures ExpiriesInv(t)
    decreases |steps|
  {
    if steps != [] {
      StepKeepsCallers(s, steps[0]);
      StepKeepsOverdue(s, steps[0]);
      hide ExpiriesInv, CallersInv, NoPrematureReading;
      ExecutionKeepsOverdue(Apply(s, steps[0]), steps[1..], t);
    }
  }

  /** In every interleaving, re-arming from inside a running callback included: at most one fire per arming, and each
      was admitted on a clock reading strictly before the deadline of its own arming. */
  lemma FiresOnceAndInTime(s: State, steps: seq<Step>, t: State)
    requires Initial(s) && Execution(s, steps, t) && RearmsFindNoneStale(s, steps)
    ensures forall j, k :: 0 <= j < k < |t.log| ==> t.log[j].epoch != t.log[k].epoch
    ensures forall k :: 0 <= k < |t.log| ==>
              t.log[k].epoch < |t.deadlines| && t.log[k].reading < t.deadlines[t.log[k].epoch]
  {
    ArmingsAreSettledOnce(s, steps, t);
    ExecutionKeepsFires(s, steps, t);
  }

  /** Nor does execute() let an arming expire before its own deadline. */
  lemma ExpiresOnceAndNotEarly(s: State, steps: seq<Step>, t: State)
    requires Initial(s) && Execution(s, steps, t) && RearmsFindNonePremature(s, steps)
    ensures forall j, k :: 0 <= j < k < |t.expiries| ==> t.expiries[j].epoch != t.expiries[k].epoch
    ensures forall k :: 0 <= k < |t.expiries| ==>
              t.expiries[k].epoch < |t.deadlines| && t.expiries[k].reading >= t.deadlines[t.expiries[k].epoch]
  {
    ArmingsAreSettledOnce(s, steps, t);
    ExecutionKeepsOverdue(s, steps, t);
  }

  /** Fired and expired are left only by re-arming. */
  lemma {:induction false} DisarmedIsAbsorbing(s: State, steps: seq<Step>, t: State)
    requires Execution(s, steps, t) && s.latch != Armed
    requires forall i :: 0 <= i < |steps| ==> !steps[i].Rearm?
    ensures t.latch == s.latch && t.deadlines == s.deadlines && t.expiries == s.expiries
    decreases |steps|
  {
    if steps != [] {
      DisarmedIsAbsorbing(Apply(s, steps[0]), steps[1..], t);
    }
  }

  // ----- what every arming comes to -----

  /** The fate of an arming: still open, won by a caller with its reading, let expire by one, or made to expire. */
  datatype Outcome = Open | Won(reading: int) | Lapsed(reading: int) | Forced

  /** The clock reading caller `t` last took. */
  function LastReading(steps: seq<Step>, t: nat): int {
    if steps == [] then 0
    else
      var last := steps[|steps| - 1];
      if last.ReadClock? && last.t == t then last.now else LastReading(steps[..|steps| - 1], t)
  }

  /** The fates of all armings, the current one last: the first attempt to settle an arming decides it. */
  function Outcomes(steps: seq<Step>): (r: seq<Outcome>)
    ensures |r| > 0
  {
    if steps == [] then [Open]
    else
      var front, last := steps[..|steps| - 1], steps[|steps| - 1];
      var before := Outcomes(front);
      if last.Rearm? then before + [Open] else before[|before| - 1 := Settled(before[|before| - 1], front, last)]
  }

  function Settled(o: Outcome, front: seq<Step>, step: Step): Outcome {
    if o != Open then o
    else
      match step
      case ClaimFire(t) => Won(LastReading(front, t))
      case ExpireLate(t) => Lapsed(LastReading(front, t))
      case Expire => Forced
      case _ => Open
  }

  /** The deadlines set: by the start with `first`, then by each re-arming. */
  function DeadlinesSet(first: int, steps: seq<Step>): seq<int> {
    if steps == [] then [first]
    else
      var before, last := DeadlinesSet(first, steps[..|steps| - 1]), steps[|steps| - 1];
      if last.Rearm? then before + [last.now + last.window] else before
  }

  function LatchFor(o: Outcome): Latch {
    match o
    case Open => Armed
    case Won(_) => Fired
    case Lapsed(_) => Expired
    case Forced => Expired
  }

  ghost predicate Claimed(s: State, v: Verdict) {
    exists k :: 0 <= k < |s.pc| && s.pc[k] == Calling(v.epoch, v.reading)
  }

  predicate OutcomeAt(outcomes: seq<Outcome>, epoch: nat, o: Outcome) {
    epoch < |outcomes| && outcomes[epoch] == o
  }

  ghost predicate LatchTracks(steps: seq<Step>, s: State) {
    var outcomes := Outcomes(steps);
    |s.deadlines| == |outcomes| && s.latch == LatchFor(outcomes[|outcomes| - 1])
  }

  ghost predicate ReadingsTrack(steps: seq<Step>, s: State) {
    forall k :: 0 <= k < |s.pc| && (s.pc[k].Early? || s.pc[k].Late?) ==> s.pc[k].reading == LastReading(steps, k)
  }

  ghost predicate FiresTrack(outcomes: seq<Outcome>, s: State) {
    forall v: Verdict :: v in s.log || Claimed(s, v) <==> OutcomeAt(outcomes, v.epoch, Won(v.reading))
  }

  ghost predicate ExpiriesTrack(outcomes: seq<Outcome>, s: State) {
    forall v: Verdict :: v in s.expiries <==> OutcomeAt(outcomes, v.epoch, Lapsed(v.reading))
  }

  ghost predicate Tracks(steps: seq<Step>, s: State) {
    && LatchTracks(steps, s) && ReadingsTrack(steps, s)
    && FiresTrack(Outcomes(steps), s) && ExpiriesTrack(Outcomes(steps), s)
  }

  lemma ReadingsTrackStep(steps: seq<Step>, step: Step, s: State)
    requires |s.deadlines| > 0 && Enabled(s, step) && ReadingsTrack(steps, s)
    ensures ReadingsTrack(steps + [step], Apply(s, step))
  {
    assert (steps + [step])[..|steps|] == steps;
  }

  lemma OutcomesStep(steps: seq<Step>, step: Step)
    ensures var before := Outcomes(steps);
            Outcomes(steps + [step])
            == if step.Rearm? then before + [Open]
               else before[|before| - 1 := Settled(before[|before| - 1], steps, step)]
  {
    assert (steps + [step])[..|steps|] == steps;
  }

  lemma LatchTracksStep(steps: seq<Step>, step: Step, s: State)
    requires |s.deadlines| > 0 && Enabled(s, step) && LatchTracks(steps, s)
    ensures LatchTracks(steps + [step], Apply(s, step))
  {
    OutcomesStep(steps, step);
    hide Outcomes;
  }

  /** Only a claim that finds the latch armed adds a caller, only a return takes one away, into the log. */
  lemma ClaimedAfter(s: State, step: Step, v: Verdict)
    requires |s.deadlines| > 0 && Enabled(s, step)
    ensures var r := Apply(s, step);
            (v in r.log || Claimed(r, v)) <==>
              || v in s.log || Claimed(s, v)
              || (step.ClaimFire? && s.latch == Armed && v == Verdict(|s.deadlines| - 1, s.pc[step.t].reading))
  {
    var r := Apply(s, step);
    if Claimed(s, v) {
      var k :| 0 <= k < |s.pc| && s.pc[k] == Calling(v.epoch, v.reading);
      assert step.Call? && step.t == k ==> r.log[|s.log|] == v;
      assert !(step.Call? && step.t == k) ==> r.pc[k] == s.pc[k];
    }
    if Claimed(r, v) {
      var k :| 0 <= k < |r.pc| && r.pc[k] == Calling(v.epoch, v.reading);
      assert r.pc[k] == s.pc[k] || (step.ClaimFire? && step.t == k);
    }
    if step.ClaimFire? && s.latch == Armed {
      assert r.pc[step.t] == Calling(|s.deadlines| - 1, s.pc[step.t].reading);
    }
    if step.Call? {
      assert s.pc[step.t] == Calling(s.pc[step.t].epoch, s.pc[step.t].reading);
    }
  }

  lemma FiresTrackStep(steps: seq<Step>, step: Step, s: State)
    requires |s.deadlines| > 0 && Enabled(s, step) && Tracks(steps, s)
    ensures FiresTrack(Outcomes(steps + [step]), Apply(s, step))
  {
    OutcomesStep(steps, step);
    hide Outcomes, Claimed, Apply;
    forall v: Verdict
      ensures v in Apply(s, step).log || Claimed(Apply(s, step), v)
              <==> OutcomeAt(Outcomes(steps + [step]), v.epoch, Won(v.reading))
    {
      ClaimedAfter(s, step, v);
    }
  }

  lemma ExpiriesTrackStep(steps: seq<Step>, step: Step, s: State)
    requires |s.deadlines| > 0 && Enabled(s, step) && Tracks(steps, s)
    ensures ExpiriesTrack(Outcomes(steps + [step]), Apply(s, step))
  {
    OutcomesStep(steps, step);
    hide Outcomes, FiresTrack;
  }

  lemma TracksStep(steps: seq<Step>, step: Step, s: State)
    requires |s.deadlines| > 0 && Enabled(s, step) && Tracks(steps, s)
    ensures Tracks(steps + [step], Apply(s, step))
  {
    LatchTracksStep(steps, step, s);
    ReadingsTrackStep(steps, step, s);
    FiresTrackStep(steps, step, s);
    ExpiriesTrackStep(steps, step, s);
  }

  lemma DeadlinesStep(first: int, steps: seq<Step>, step: Step, s: State)
    requires |s.deadlines| > 0 && Enabled(s, step) && s.deadlines == DeadlinesSet(first, steps)
    ensures Apply(s, step).deadlines == DeadlinesSet(first, steps + [step])
  {
    assert (steps + [step])[..|steps|] == steps;
  }

  lemma NothingTracked(s: State)
    requires Initial(s)
    ensures Tracks([], s) && s.deadlines == DeadlinesSet(s.deadline, [])
  {
  }

  lemma {:induction false} LastStep(s: State, steps: seq<Step>, t: State) returns (m: State)
    requires Execution(s, steps, t) && steps != []
    ensures Execution(s, steps[..|steps| - 1], m) && |m.deadlines| > 0
    ensures Enabled(m, steps[|steps| - 1]) && t == Apply(m, steps[|steps| - 1])
    decreases |steps|
  {
    var front, rest := steps[..|steps| - 1], steps[1..];
    if rest == [] {
      m := s;
    } else {
      m := LastStep(Apply(s, steps[0]), rest, t);
      assert front[1..] == rest[..|rest| - 1];
    }
  }

  lemma {:induction false} ExecutionTracks(s: State, steps: seq<Step>, t: State)
    requires Initial(s) && Execution(s, steps, t)
    ensures Tracks(steps, t) && t.deadlines == DeadlinesSet(s.deadline, steps)
    decreases |steps|
  {
    if steps == [] {
      NothingTracked(s);
    } else {
      var front, last := steps[..|steps| - 1], steps[|steps| - 1];
      var m := LastStep(s, steps, t);
      hide *;
      ExecutionTracks(s, front, m);
      TracksStep(front, last, m);
      DeadlinesStep(s.deadline, front, last, m);
      assert front + [last] == steps;
    }
  }

  /** Over every interleaving, with re-arming at any moment: the first attempt to settle an arming decides it. The latch
      shows how, execute() has let expire exactly the armings whose first attempt was a late one, and once everyone has
      returned the callback has run for exactly those whose first attempt was an early one, on that caller's reading. */
  lemma FirstAttemptDecides(s: State, steps: seq<Step>, t: State)
    requires Initial(s) && Execution(s, steps, t)
    ensures t.deadlines == DeadlinesSet(s.deadline, steps)
    ensures t.latch == LatchFor(Outcomes(steps)[|Outcomes(steps)| - 1])
    ensures forall v: Verdict :: v in t.expiries <==> OutcomeAt(Outcomes(steps), v.epoch, Lapsed(v.reading))
    ensures forall v: Verdict :: v in t.log ==> OutcomeAt(Outcomes(steps), v.epoch, Won(v.reading))
    ensures AllIdle(t) ==> forall v: Verdict :: v in t.log <==> OutcomeAt(Outcomes(steps), v.epoch, Won(v.reading))
  {
    ExecutionTracks(s, steps, t);
  }

  /** An execute() that nobody interrupts: it fires before the deadline, lets the window expire from it on, and does
      nothing when the window is not armed, whatever the other callers have under way. */
  lemma ExecuteAlone(s: State, k: nat, now: int) returns (steps: seq<Step>, t: State)
    requires k < |s.pc| && s.pc[k] == Idle && |s.deadlines| > 0
    ensures Execution(s, steps, t) && t.pc == s.pc && t.deadlines == s.deadlines && t.deadline == s.deadline
    ensures s.latch == Armed ==> |steps| >= 2 && steps[..2] == [Load(k), ReadClock(k, now)]
    ensures s.latch == Armed && now < s.deadline ==>
              t.latch == Fired && t.log == s.log + [Verdict(|s.deadlines| - 1, now)] && t.expiries == s.expiries
    ensures s.latch == Armed && now >= s.deadline ==>
              t.latch == Expired && t.expiries == s.expiries + [Verdict(|s.deadlines| - 1, now)] && t.log == s.log
    ensures s.latch != Armed ==> steps == [Load(k)] && t == s
  {
    var a := Apply(s, Load(k));
    if s.latch != Armed {
      steps, t := [Load(k)], s;
      assert steps[1..] == [] && Execution(s, [], s);
    } else if now < s.deadline {
      var b := Apply(a, ReadClock(k, now));
      var c := Apply(b, ClaimFire(k));
      steps, t := [Load(k), ReadClock(k, now), ClaimFire(k), Call(k)], Apply(c, Call(k));
      assert Execution(t, [], t);
      assert steps[1..][1..][1..] == [Call(k)] && [Call(k)][1..] == [];
      assert Execution(c, [Call(k)], t);
      assert steps[1..][1..] == [ClaimFire(k), Call(k)];
      assert Execution(b, steps[1..][1..], t);
      assert Execution(a, steps[1..], t);
    } else {
      var b := Apply(a, ReadClock(k, now));
      steps, t := [Load(k), ReadClock(k, now), ExpireLate(k)], Apply(b, ExpireLate(k));
      assert Execution(t, [], t);
      assert steps[1..][1..] == [ExpireLate(k)] && [ExpireLate(k)][1..] == [];
      assert Execution(b, [ExpireLate(k)], t);
      assert Execution(a, steps[1..], t);
    }
  }

  // ----- when a re-arming is safe -----

  /** No continuation whose own re-armings find no stale reading logs a late fire. */
  ghost predicate AlwaysInTime(s: State)
    requires |s.deadlines| > 0
  {
    forall steps: seq<Step>, t: State :: Execution(s, steps, t) && RearmsFindNoneStale(s, steps) ==> InTime(t)
  }

  ghost predicate AlwaysOverdue(s: State)
    requires |s.deadlines| > 0
  {
    forall steps: seq<Step>, t: State :: Execution(s, steps, t) && RearmsFindNonePremature(s, steps) ==> Overdue(t)
  }

  /** Exactly when a re-arming is safe: no continuation fires late if and only if no caller holds an early reading at or
      past the new deadline, and none expires the new arming early if and only if no caller holds a late reading
      before it. */
  lemma RearmIsSafeIff(s: State, now: int, window: int)
    requires CallersInv(s)
    requires FiresInv(s) && ExpiriesInv(s)
    ensures NoStaleReading(s, now + window) <==> AlwaysInTime(Apply(s, Rearm(now, window)))
    ensures NoPrematureReading(s, now + window) <==> AlwaysOverdue(Apply(s, Rearm(now, window)))
  {
    RearmFiresInTimeIff(s, now, window);
    RearmExpiresInTimeIff(s, now, window);
  }

  lemma RearmFiresInTimeIff(s: State, now: int, window: int)
    requires CallersInv(s) && FiresInv(s)
    ensures NoStaleReading(s, now + window) <==> AlwaysInTime(Apply(s, Rearm(now, window)))
  {
    var r := Apply(s, Rearm(now, window));
    if NoStaleReading(s, now + window) {
      StepKeepsCallers(s, Rearm(now, window));
      StepKeepsFires(s, Rearm(now, window));
      forall steps, t | Execution(r, steps, t) && RearmsFindNoneStale(r, steps)
        ensures InTime(t)
      {
        ExecutionKeepsFires(r, steps, t);
      }
    } else {
      var k :| 0 <= k < |s.pc| && s.pc[k].Early? && s.pc[k].reading >= now + window;
      var steps, t := StaleReadingFiresLate(s, now, window, k);
      assert Execution(r, steps, t) && RearmsFindNoneStale(r, steps) && !InTime(t);
      assert !AlwaysInTime(r);
    }
  }

  lemma RearmExpiresInTimeIff(s: State, now: int, window: int)
    requires CallersInv(s) && ExpiriesInv(s)
    ensures NoPrematureReading(s, now + window) <==> AlwaysOverdue(Apply(s, Rearm(now, window)))
  {
    var r := Apply(s, Rearm(now, window));
    if NoPrematureReading(s, now + window) {
      StepKeepsCallers(s, Rearm(now, window));
      StepKeepsOverdue(s, Rearm(now, window));
      forall steps, t | Execution(r, steps, t) && RearmsFindNonePremature(r, steps)
        ensures Overdue(t)
      {
        ExecutionKeepsOverdue(r, steps, t);
      }
    } else {
      var k :| 0 <= k < |s.pc| && s.pc[k].Late? && s.pc[k].reading < now + window;
      var steps, t := PrematureReadingExpiresEarly(s, now, window, k);
      assert Execution(r, steps, t) && RearmsFindNonePremature(r, steps) && !Overdue(t);
      assert !AlwaysOverdue(r);
    }
  }

  /** The continuation that goes wrong: the caller with the stale reading claims the new arming and runs. */
  lemma StaleReadingFiresLate(s: State, now: int, window: int, k: nat) returns (steps: seq<Step>, t: State)
    requires CallersInv(s) && k < |s.pc| && s.pc[k].Early? && s.pc[k].reading >= now + window
    ensures var r := Apply(s, Rearm(now, window));
            steps == [ClaimFire(k), Call(k)] && Execution(r, steps, t) && RearmsFindNoneStale(r, steps)
    ensures !InTime(t) && t.log == s.log + [Verdict(|s.deadlines|, s.pc[k].reading)]
  {
    var r := Apply(s, Rearm(now, window));
    var claimed := Apply(r, ClaimFire(k));
    steps, t := [ClaimFire(k), Call(k)], Apply(claimed, Call(k));
    assert steps[1..] == [Call(k)] && steps[1..][1..] == [];
    assert Execution(t, [], t) && RearmsFindNoneStale(t, []);
    assert Execution(claimed, steps[1..], t) && RearmsFindNoneStale(claimed, steps[1..]);
    assert t.log[|s.log|] == Verdict(|s.deadlines|, s.pc[k].reading) && t.deadlines[|s.deadlines|] == now + window;
  }

  /** Its mirror image: the caller with the premature reading lets the new arming expire, and it never fires. */
  lemma PrematureReadingExpiresEarly(s: State, now: int, window: int, k: nat) returns (steps: seq<Step>, t: State)
    requires CallersInv(s) && k < |s.pc| && s.pc[k].Late? && s.pc[k].reading < now + window
    ensures var r := Apply(s, Rearm(now, window));
            steps == [ExpireLate(k)] && Execution(r, steps, t) && RearmsFindNonePremature(r, steps)
    ensures !Overdue(t) && t.latch == Expired && t.expiries == s.expiries + [Verdict(|s.deadlines|, s.pc[k].reading)]
  {
    var r := Apply(s, Rearm(now, window));
    steps, t := [ExpireLate(k)], Apply(r, ExpireLate(k));
    assert steps[1..] == [];
    assert Execution(t, [], t) && RearmsFindNonePremature(t, []);
    assert t.expiries[|s.expiries|] == Verdict(|s.deadlines|, s.pc[k].reading);
    assert t.deadlines[|s.deadlines|] == now + window;
  }

  /** Such states are reached: a caller reads the clock before its deadline, and the window is re-armed shorter. */
  lemma OverlappingRearmFiresLate() returns (s: State)
    ensures exists a, b: State ::
              && Initial(a) && Execution(a, [Load(0), ReadClock(0, 5)], b)
              && b.latch == Armed && b.pc == [Early(5)]
              && s == Apply(Apply(Apply(b, Rearm(3, 1)), ClaimFire(0)), Call(0))
    ensures |s.log| == 1 && s.log[0].epoch == 1 && s.log[0].reading >= s.deadlines[1]
  {
    var a := State(Armed, 10, [Idle], [10], [], []);
    var b := OneReading(a, 5);
    s := Apply(Apply(Apply(b, Rearm(3, 1)), ClaimFire(0)), Call(0));
  }

  /** A caller reads the clock at its deadline, and the window is re-armed longer: it expires at once. */
  lemma OverlappingRearmExpiresEarly() returns (s: State)
    ensures exists a, b: State ::
              && Initial(a) && Execution(a, [Load(0), ReadClock(0, 10)], b)
              && b.latch == Armed && b.pc == [Late(10)]
              && s == Apply(Apply(b, Rearm(10, 100)), ExpireLate(0))
    ensures s.latch == Expired && s.deadline == 110 && s.expiries == [Verdict(1, 10)]
  {
    var a := State(Armed, 10, [Idle], [10], [], []);
    var b := OneReading(a, 10);
    s := Apply(Apply(b, Rearm(10, 100)), ExpireLate(0));
  }

  lemma OneReading(a: State, now: int) returns (b: State)
    requires Initial(a) && |a.pc| == 1
    ensures Execution(a, [Load(0), ReadClock(0, now)], b)
    ensures b == a.(pc := [if now >= a.deadline then Late(now) else Early(now)])
  {
    var steps := [Load(0), ReadClock(0, now)];
    var l := Apply(a, Load(0));
    b := Apply(l, ReadClock(0, now));
    assert steps[1..] == [ReadClock(0, now)] && steps[1..][1..] == [];
    assert Execution(b, [], b);
    assert Execution(l, steps[1..], b);
  }
}
