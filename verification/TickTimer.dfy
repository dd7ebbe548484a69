/** The tick-driven software timer: catch-up firing on a 32-bit tick counter. */
module TickTimers {
  import opened Numbers

  const TICK_MODULUS := 0x1_0000_0000

  datatype Mode = OneShot | Periodic | NRepeat

  datatype TimerError = Ok | NotConfigured | InvalidConfig

  /** The timer's fields; `period` 0 means not configured. */
  datatype Timer = Timer(period: nat, counter: nat, repeatRemaining: nat, mode: Mode, running: bool) {
    predicate Valid() {
      period < TICK_MODULUS && counter < TICK_MODULUS && repeatRemaining < TICK_MODULUS
    }

    predicate Ticking() {
      running && period > 0
    }
  }

  const NEW_TIMER := Timer(0, 0, 0, Periodic, false)

  // ----- closed form of catching up -----

  /** Fires after which the mode stops the timer; an n-repeat timer with nothing remaining still fires once. */
  function FireLimit(t: Timer): (l: nat)
    ensures l >= 1
  {
    if t.mode == NRepeat && t.repeatRemaining > 0 then t.repeatRemaining else 1
  }

  predicate RunsOut(t: Timer, due: nat) {
    t.mode != Periodic && due >= FireLimit(t)
  }

  /** Fires when `due` periods have elapsed. */
  function FiresFor(t: Timer, due: nat): nat {
    if RunsOut(t, due) then FireLimit(t) else due
  }

  /** The timer when `due` periods have elapsed and `left` ticks of the next: still running, or stopped at its limit. */
  function AfterFor(t: Timer, due: nat, left: nat): Timer {
    if RunsOut(t, due) then
      t.(counter := 0, running := false, repeatRemaining := if t.mode == NRepeat then 0 else t.repeatRemaining)
    else
      t.(counter := left,
         repeatRemaining := if t.mode == NRepeat && due > 0 then t.repeatRemaining - due else t.repeatRemaining)
  }

  function Periods(ticks: nat, period: nat): nat
    requires period > 0
  {
    ticks / period
  }

  function LeftOver(ticks: nat, period: nat): nat
    requires period > 0
  {
    ticks % period
  }

  /** How many times `ticks` accumulated ticks fire the timer. */
  function Fires(t: Timer, ticks: nat): nat
    requires t.period > 0
  {
    FiresFor(t, Periods(ticks, t.period))
  }

  predicate Exhausts(t: Timer, ticks: int)
    requires t.period > 0
  {
    ticks >= 0 && RunsOut(t, Periods(ticks, t.period))
  }

  /** The timer after `ticks` accumulated ticks. */
  function After(t: Timer, ticks: nat): (r: Timer)
    requires t.period > 0
    ensures r.period == t.period && r.mode == t.mode
  {
    AfterFor(t, Periods(ticks, t.period), LeftOver(ticks, t.period))
  }

  // ----- division facts -----

  lemma OneMorePeriod(a: nat, m: nat)
    requires m > 0
    ensures (a + m) / m == a / m + 1 && (a + m) % m == a % m
  {
    assert (a / m + 1) * m == (a / m) * m + m;
    QuotientIs(a + m, m, a / m + 1, a % m);
  }

  lemma MorePeriods(q: nat, ticks: nat, m: nat)
    requires m > 0
    ensures Periods(q * m + ticks, m) == q + Periods(ticks, m) && LeftOver(q * m + ticks, m) == LeftOver(ticks, m)
  {
    var r := ticks / m;
    assert (q + r) * m == q * m + r * m;
    QuotientIs(q * m + ticks, m, q + r, ticks % m);
  }

  lemma Recompose(ticks: nat, m: nat)
    requires m > 0
    ensures ticks == Periods(ticks, m) * m + LeftOver(ticks, m) && Periods(ticks, m) * m >= 0
  {
  }

  /** Whole periods aside, what is left over and what comes next make up the following periods. */
  lemma SplitTicks(ticks: nat, more: nat, m: nat)
    requires m > 0
    ensures LeftOver(ticks, m) <= ticks
    ensures var all := ticks - LeftOver(ticks, m) + more;
            Periods(all, m) == Periods(ticks, m) + Periods(more, m) && LeftOver(all, m) == LeftOver(more, m)
  {
    hide Periods, LeftOver;
    Recompose(ticks, m);
    MorePeriods(Periods(ticks, m), more, m);
  }

  /** One fire and its bookkeeping, then the rest: the loop body against the closed form. */
  lemma FireOnce(t: Timer, ticks: nat)
    requires t.Ticking() && ticks >= t.period
    ensures
      var left := ticks - t.period;
      var remaining := if t.mode == NRepeat && t.repeatRemaining > 0 then t.repeatRemaining - 1 else t.repeatRemaining;
      var stops := t.mode == OneShot || (t.mode == NRepeat && remaining == 0);
      var next := if stops then t.(counter := 0, running := false, repeatRemaining := remaining)
                  else t.(counter := left, repeatRemaining := remaining);
      if stops then Fires(t, ticks) == 1 && After(t, ticks) == next
      else Fires(t, ticks) == 1 + Fires(next, left) && After(t, ticks) == After(next, left)
  {
    OneMorePeriod(ticks - t.period, t.period);
  }

  lemma NoFire(t: Timer)
    requires t.Ticking() && t.counter < t.period
    ensures Fires(t, t.counter) == 0 && After(t, t.counter) == t
  {
    QuotientIs(t.counter, t.period, 0, t.counter);
  }

  // ----- the timer object -----

  class TickTimer {
    var t: Timer
    var invocations: nat   // calls of the registered callbacks, one per fire

    ghost predicate Valid()
      reads this
    {
      t.Valid()
    }

    constructor ()
      ensures Valid() && t == NEW_TIMER && invocations == 0
    {
      t, invocations := NEW_TIMER, 0;
    }

    method SetPeriod(ticks: nat) returns (error: TimerError)
      requires Valid() && ticks < TICK_MODULUS
      modifies this
      ensures Valid() && invocations == old(invocations)
      ensures error == (if ticks == 0 then InvalidConfig else Ok)
      ensures t == if ticks == 0 then old(t) else old(t).(period := ticks)
    {
      if ticks == 0 {
        return InvalidConfig;
      }
      t := t.(period := ticks);
      return Ok;
    }

    method Start(mode: Mode, repeatCount: nat) returns (error: TimerError)
      requires Valid() && repeatCount < TICK_MODULUS
      modifies this
      ensures Valid() && invocations == old(invocations)
      ensures error == (if old(t).period == 0 then NotConfigured
                        else if mode == NRepeat && repeatCount == 0 then InvalidConfig else Ok)
      ensures t == if error == Ok
                   then Timer(old(t).period, 0, if mode == NRepeat then repeatCount else 0, mode, true) else old(t)
    {
      if t.period == 0 {
        return NotConfigured;
      }
      if mode == NRepeat && repeatCount == 0 {
        return InvalidConfig;
      }
      t := Timer(t.period, 0, if mode == NRepeat then repeatCount else 0, mode, true);
      return Ok;
    }

    method Stop()
      requires Valid()
      modifies this
      ensures Valid() && invocations == old(invocations)
      ensures t == old(t).(running := false, counter := 0, repeatRemaining := 0)
    {
      t := t.(running := false, counter := 0, repeatRemaining := 0);
    }

    method Pause()
      requires Valid()
      modifies this
      ensures Valid() && invocations == old(invocations) && t == old(t).(running := false)
    {
      t := t.(running := false);
    }

    method Resume() returns (error: TimerError)
      requires Valid()
      modifies this
      ensures Valid() && invocations == old(invocations)
      ensures error == (if old(t).period == 0 then NotConfigured else Ok)
      ensures t == if old(t).period == 0 then old(t) else old(t).(running := true)
    {
      if t.period == 0 {
        return NotConfigured;
      }
      t := t.(running := true);
      return Ok;
    }

    method Reset()
      requires Valid()
      modifies this
      ensures Valid() && invocations == old(invocations) && t == old(t).(counter := 0)
    {
      t := t.(counter := 0);
    }

    /** Catching up in one call is the closed form over the ticks the 32-bit counter has accumulated. */
    method OnTick(elapsed: nat)
      requires Valid() && elapsed < TICK_MODULUS
      modifies this
      ensures Valid()
      ensures !old(t).Ticking() ==> t == old(t) && invocations == old(invocations)
      ensures old(t).Ticking() ==>
                var ticks := (old(t).counter + elapsed) % TICK_MODULUS;
                t == After(old(t), ticks) && invocations == old(invocations) + Fires(old(t), ticks)
    {
      if !t.running || t.period == 0 {
        return;
      }
      ghost var ticks := (t.counter + elapsed) % TICK_MODULUS;
      t := t.(counter := (t.counter + elapsed) % TICK_MODULUS);
      ghost var total, final := Fires(t, ticks), After(t, ticks);
      while t.running && t.counter >= t.period
        invariant Valid() && t.period == old(t).period
        invariant if t.running
                  then invocations + Fires(t, t.counter) == old(invocations) + total && After(t, t.counter) == final
                  else invocations == old(invocations) + total && t == final
        decreases t.running, t.counter
      {
        FireOnce(t, t.counter);
        t := t.(counter := t.counter - t.period);
        invocations := invocations + 1;
        match t.mode {
          case OneShot =>
            t := t.(running := false, counter := 0);
          case NRepeat =>
            if t.repeatRemaining > 0 {
              t := t.(repeatRemaining := t.repeatRemaining - 1);
            }
            if t.repeatRemaining == 0 {
              t := t.(running := false, counter := 0);
            }
          case Periodic =>
        }
      }
      if t.running {
        NoFire(t);
      }
    }
  }

  // ----- runs -----

  /** The effect of one on_tick call: the new timer and the number of fires. */
  function Tick(t: Timer, elapsed: nat): (Timer, nat) {
    if !t.Ticking() then (t, 0)
    else
      var ticks := (t.counter + elapsed) % TICK_MODULUS;
      (After(t, ticks), Fires(t, ticks))
  }

  function TickAll(t: Timer, batches: seq<nat>): (Timer, nat)
    decreases |batches|
  {
    if batches == [] then (t, 0)
    else
      var (t', fires) := Tick(t, batches[0]);
      var (t'', more) := TickAll(t', batches[1..]);
      (t'', fires + more)
  }

  function Sum(batches: seq<nat>): nat {
    if batches == [] then 0 else batches[0] + Sum(batches[1..])
  }

  lemma SplitDue(t: Timer, first: nat, second: nat, left: nat, final: nat)
    ensures
      var t' := AfterFor(t, first, left);
      if RunsOut(t, first)
      then FiresFor(t, first + second) == FiresFor(t, first) && AfterFor(t, first + second, final) == t'
      else FiresFor(t, first + second) == FiresFor(t, first) + FiresFor(t', second)
           && AfterFor(t, first + second, final) == AfterFor(t', second, final)
  {
  }

  /** Ticks accumulated up to now and those still to come add up, as long as the timer runs. */
  lemma SplitAccumulated(t: Timer, ticks: nat, more: nat)
    requires t.Ticking()
    ensures
      var t' := After(t, ticks);
      if t'.running
      then var all := ticks - t'.counter + more;
           && t'.counter <= ticks
           && Fires(t, all) == Fires(t, ticks) + Fires(t', more) && After(t, all) == After(t', more)
      else Fires(t, ticks + more) == Fires(t, ticks) && After(t, ticks + more) == t'
  {
    var p := t.period;
    var q, left := Periods(ticks, p), LeftOver(ticks, p);
    SplitTicks(ticks, more, p);
    SplitTicks(ticks, left + more, p);
    hide Periods, LeftOver;
    SplitDue(t, q, Periods(more, p), left, LeftOver(more, p));
    SplitDue(t, q, Periods(left + more, p), left, LeftOver(left + more, p));
  }

  lemma {:induction false} StoppedStays(t: Timer, batches: seq<nat>)
    requires !t.Ticking()
    ensures TickAll(t, batches) == (t, 0) && Wraps(t, batches) == 0
  {
    if batches != [] {
      StoppedStays(t, batches[1..]);
    }
  }

  /** How many times the 32-bit counter overflows in the calls a running timer gets. */
  function Wraps(t: Timer, batches: seq<nat>): nat
    decreases |batches|
  {
    if batches == [] then 0
    else
      (if t.Ticking() then (t.counter + batches[0]) / TICK_MODULUS else 0) + Wraps(Tick(t, batches[0]).0, batches[1..])
  }

  /** No call of the run overflows the 32-bit counter, however many ticks there are in all. */
  predicate NoWrap(t: Timer, batches: seq<nat>)
    decreases |batches|
  {
    || batches == []
    || ((t.Ticking() ==> t.counter + batches[0] < TICK_MODULUS) && NoWrap(Tick(t, batches[0]).0, batches[1..]))
  }

  lemma {:induction false} NoWrapIff(t: Timer, batches: seq<nat>)
    ensures NoWrap(t, batches) <==> Wraps(t, batches) == 0
    decreases |batches|
  {
    if batches != [] {
      NoWrapIff(Tick(t, batches[0]).0, batches[1..]);
    }
  }

  /** The ticks that are left of a run once the overflows of the counter have swallowed theirs. */
  function Counted(t: Timer, batches: seq<nat>): int {
    t.counter + Sum(batches) - TICK_MODULUS * Wraps(t, batches)
  }

  lemma CountedStep(t: Timer, batches: seq<nat>)
    requires t.Ticking() && batches != []
    ensures
      var ticks := (t.counter + batches[0]) % TICK_MODULUS;
      var t' := After(t, ticks);
      Counted(t, batches) == ticks - t'.counter + Counted(t', batches[1..])
  {
    hide After, Wraps, Fires;
    var ticks := t.counter + batches[0];
    assert ticks == TICK_MODULUS * (ticks / TICK_MODULUS) + ticks % TICK_MODULUS;
    WrapsStep(t, batches);
  }

  lemma WrapsStep(t: Timer, batches: seq<nat>)
    requires t.Ticking() && batches != []
    ensures
      var ticks := t.counter + batches[0];
      Wraps(t, batches) == ticks / TICK_MODULUS + Wraps(After(t, ticks % TICK_MODULUS), batches[1..])
  {
  }

  /** Catching up over whole runs, of any length and in every mode: the fires and the final timer are those of one
      timer that is handed the counted ticks at once. */
  lemma {:induction false} CatchUpIsExact(t: Timer, batches: seq<nat>)
    requires t.Ticking() && batches != []
    ensures Counted(t, batches) >= 0
    ensures TickAll(t, batches) == (After(t, Counted(t, batches)), Fires(t, Counted(t, batches)))
    decreases |batches|
  {
    var ticks, rest := (t.counter + batches[0]) % TICK_MODULUS, batches[1..];
    var t' := After(t, ticks);
    CountedStep(t, batches);
    assert TickAll(t, batches) == (TickAll(t', rest).0, Fires(t, ticks) + TickAll(t', rest).1);
    assert rest == [] ==> TickAll(t', rest) == (t', 0) && Counted(t', rest) == t'.counter;
    hide After, Fires, TickAll, Wraps, Counted;
    if rest == [] {
    } else if t'.running {
      CatchUpIsExact(t', rest);
      SplitAccumulated(t, ticks, Counted(t', rest));
    } else {
      StoppedStays(t', rest);
      CountedWhenStopped(t', rest);
      SplitAccumulated(t, ticks, Sum(rest));
      StoppedAtZero(t, ticks);
    }
  }

  lemma CountedWhenStopped(t: Timer, batches: seq<nat>)
    requires !t.Ticking()
    ensures Counted(t, batches) == t.counter + Sum(batches)
  {
    StoppedStays(t, batches);
  }

  lemma StoppedAtZero(t: Timer, ticks: nat)
    requires t.Ticking() && !After(t, ticks).running
    ensures After(t, ticks).counter == 0
  {
  }

  /** As long as no call overflows the counter, timing is free of drift: all that counts is the total. */
  lemma NoDriftWithoutWrap(t: Timer, batches: seq<nat>)
    requires t.Ticking() && batches != [] && NoWrap(t, batches)
    ensures TickAll(t, batches) == (After(t, t.counter + Sum(batches)), Fires(t, t.counter + Sum(batches)))
  {
    NoWrapIff(t, batches);
    CatchUpIsExact(t, batches);
  }

  /** The batching of ticks is unobservable: any two splits of the same total without an overflow give the same number
      of fires and the same final timer. */
  lemma BatchingIsInvisible(t: Timer, batches: seq<nat>, others: seq<nat>)
    requires t.Ticking() && batches != [] && others != []
    requires NoWrap(t, batches) && NoWrap(t, others) && Sum(batches) == Sum(others)
    ensures TickAll(t, batches) == TickAll(t, others)
  {
    NoDriftWithoutWrap(t, batches);
    NoDriftWithoutWrap(t, others);
  }

  /** While the total itself fits the counter no split overflows, and one call with the total does as well. */
  lemma {:induction false} SmallTotalsDoNotWrap(t: Timer, batches: seq<nat>)
    requires t.counter + Sum(batches) < TICK_MODULUS
    ensures NoWrap(t, batches)
    decreases |batches|
  {
    if batches != [] {
      var ticks := t.counter + batches[0];
      if t.Ticking() {
        InRange(ticks);
        CounterAtMost(t, ticks);
      }
      SmallTotalsDoNotWrap(Tick(t, batches[0]).0, batches[1..]);
    }
  }

  lemma InRange(n: nat)
    requires n < TICK_MODULUS
    ensures n % TICK_MODULUS == n
  {
  }

  lemma CounterAtMost(t: Timer, ticks: nat)
    requires t.Ticking()
    ensures After(t, ticks).counter <= ticks
  {
    SplitTicks(ticks, 0, t.period);
  }

  lemma OneCallDoesAsWell(t: Timer, batches: seq<nat>)
    requires t.Ticking() && t.counter + Sum(batches) < TICK_MODULUS && batches != []
    ensures TickAll(t, batches) == Tick(t, Sum(batches))
  {
    SmallTotalsDoNotWrap(t, batches);
    NoDriftWithoutWrap(t, batches);
    InRange(t.counter + Sum(batches));
  }

  lemma LostTicksLosePeriods(kept: nat, lost: nat, m: nat)
    requires 0 < m <= lost
    ensures (kept + lost) / m > kept / m
  {
    OneMorePeriod(kept, m);
    MoreTicks(kept + m, kept + lost, m);
  }

  lemma MoreTicks(few: nat, many: nat, m: nat)
    requires 0 < m && few <= many
    ensures few / m <= many / m
  {
    var p, q := few / m, many / m;
    assert p * m <= few && many < (q + 1) * m;
    assert p >= q + 1 ==> p * m >= (q + 1) * m;
  }

  lemma LostTicksAreFelt(t: Timer, kept: nat, lost: nat)
    requires 0 < t.period <= lost
    ensures Fires(t, kept) == Fires(t, kept + lost) <==> Exhausts(t, kept)
    ensures Fires(t, kept) <= Fires(t, kept + lost)
  {
    LostTicksLosePeriods(kept, lost, t.period);
  }

  /** Over any run, in every mode, the timer fires as often as the elapsed periods allow exactly when no call overflows
      the 32-bit counter, or the ticks that are left still exhaust a one-shot or n-repeat timer. */
  lemma RunFiresInFullIff(t: Timer, batches: seq<nat>)
    requires t.Valid() && t.Ticking() && batches != []
    ensures Counted(t, batches) >= 0
    ensures TickAll(t, batches).1 == Fires(t, t.counter + Sum(batches)) <==>
              NoWrap(t, batches) || Exhausts(t, Counted(t, batches))
    ensures TickAll(t, batches).1 <= Fires(t, t.counter + Sum(batches))
  {
    NoWrapIff(t, batches);
    CatchUpIsExact(t, batches);
    var lost := TICK_MODULUS * Wraps(t, batches);
    assert lost == 0 || lost >= TICK_MODULUS;
    assert Counted(t, batches) + lost == t.counter + Sum(batches);
    hide *;
    if lost > 0 {
      LostTicksAreFelt(t, Counted(t, batches), lost);
    }
  }

  /** A periodic timer keeps step with its ticks for ever exactly as long as no call overflows the counter; every
      overflow after that loses fires. */
  lemma PeriodicKeepsStepIff(t: Timer, batches: seq<nat>)
    requires t.Valid() && t.Ticking() && t.mode == Periodic && batches != []
    ensures TickAll(t, batches).1 == (t.counter + Sum(batches)) / t.period <==> NoWrap(t, batches)
    ensures TickAll(t, batches).1 <= (t.counter + Sum(batches)) / t.period
  {
    RunFiresInFullIff(t, batches);
  }

  /** The same for one call in every mode. */
  lemma FiresInFullIff(t: Timer, elapsed: nat)
    requires t.Valid() && t.Ticking() && elapsed < TICK_MODULUS
    ensures Tick(t, elapsed).1 == FiresFor(t, (t.counter + elapsed) / t.period) <==>
              || t.counter + elapsed < TICK_MODULUS
              || RunsOut(t, (t.counter + elapsed - TICK_MODULUS) / t.period)
    ensures Tick(t, elapsed).1 <= FiresFor(t, (t.counter + elapsed) / t.period)
  {
    var ticks := t.counter + elapsed;
    if ticks >= TICK_MODULUS {
      QuotientIs(ticks, TICK_MODULUS, 1, ticks - TICK_MODULUS);
      LostTicksLosePeriods(ticks - TICK_MODULUS, TICK_MODULUS, t.period);
    } else {
      InRange(ticks);
    }
  }

  /** One call fires a periodic timer once per elapsed period exactly when the 32-bit counter does not overflow. */
  lemma PeriodicFiresIffNoOverflow(t: Timer, elapsed: nat)
    requires t.Valid() && t.Ticking() && t.mode == Periodic && elapsed < TICK_MODULUS
    ensures Tick(t, elapsed).1 == (t.counter + elapsed) / t.period <==> t.counter + elapsed < TICK_MODULUS
    ensures Tick(t, elapsed).1 <= (t.counter + elapsed) / t.period
  {
    FiresInFullIff(t, elapsed);
  }

  // ----- how often a limited timer can fire -----

  datatype Command = OnTick(elapsed: nat) | Pause | Resume | Stop | ResetCounter | SetPeriod(ticks: nat)

  /** A timer together with what has happened since it was started with `limit` fires to go. */
  datatype History = History(t: Timer, limit: nat, fires: nat, rearmed: nat)

  /** The timer has used up every fire it was ever granted. */
  predicate Spent(h: History) {
    h.fires >= h.limit + h.rearmed
  }

  function Do(h: History, c: Command): History {
    match c
    case OnTick(elapsed) => var (t', fires) := Tick(h.t, elapsed); h.(t := t', fires := h.fires + fires)
    case Pause => h.(t := h.t.(running := false))
    case Resume =>
      if h.t.period == 0 then h
      else h.(t := h.t.(running := true), rearmed := h.rearmed + if !h.t.running && Spent(h) then 1 else 0)
    case Stop => h.(t := h.t.(running := false, counter := 0, repeatRemaining := 0))
    case ResetCounter => h.(t := h.t.(counter := 0))
    case SetPeriod(ticks) => if ticks == 0 then h else h.(t := h.t.(period := ticks))
  }

  function DoAll(h: History, commands: seq<Command>): History {
    if commands == [] then h else Do(DoAll(h, commands[..|commands| - 1]), commands[|commands| - 1])
  }

  function Started(period: nat, mode: Mode, repeatCount: nat): History {
    History(Timer(period, 0, if mode == NRepeat then repeatCount else 0, mode, true),
            if mode == NRepeat then repeatCount else 1, 0, 0)
  }

  predicate InTickRange(c: Command) {
    match c
    case OnTick(elapsed) => elapsed < TICK_MODULUS
    case SetPeriod(ticks) => ticks < TICK_MODULUS
    case _ => true
  }

  /** The object carries out the commands as the histories do. */
  method DriveTimer(timer: TickTimer, commands: seq<Command>, ghost h: History)
    requires timer.Valid() && h.t == timer.t && forall i :: 0 <= i < |commands| ==> InTickRange(commands[i])
    modifies timer
    ensures timer.Valid() && timer.t == DoAll(h, commands).t
    ensures timer.invocations - old(timer.invocations) == DoAll(h, commands).fires - h.fires
  {
    hide After, Fires;
    var i := 0;
    while i < |commands|
      invariant 0 <= i <= |commands| && timer.Valid()
      invariant timer.t == DoAll(h, commands[..i]).t
      invariant timer.invocations - old(timer.invocations) == DoAll(h, commands[..i]).fires - h.fires
    {
      assert commands[..i + 1][..i] == commands[..i];
      match commands[i] {
        case OnTick(elapsed) => timer.OnTick(elapsed);
        case Pause => timer.Pause();
        case Resume => var _ := timer.Resume();
        case Stop => timer.Stop();
        case ResetCounter => timer.Reset();
        case SetPeriod(ticks) => var _ := timer.SetPeriod(ticks);
      }
      i := i + 1;
    }
    assert commands[..i] == commands;
  }

  /** Started for a limited number of fires and then driven by any commands, the object calls its callbacks at most that
      often, plus once for every resume() issued when it was already done. */
  method DriveStarted(timer: TickTimer, mode: Mode, repeatCount: nat, commands: seq<Command>)
    returns (error: TimerError)
    requires timer.Valid() && repeatCount < TICK_MODULUS
    requires forall i :: 0 <= i < |commands| ==> InTickRange(commands[i])
    modifies timer
    ensures timer.Valid()
    ensures error == Ok <==> old(timer.t).period > 0 && (mode == NRepeat ==> repeatCount > 0)
    ensures error != Ok ==> timer.t == old(timer.t) && timer.invocations == old(timer.invocations)
    ensures error == Ok ==>
              var h := DoAll(Started(old(timer.t).period, mode, repeatCount), commands);
              timer.t == h.t && timer.invocations == old(timer.invocations) + h.fires
    ensures error == Ok && mode != Periodic ==>
              timer.invocations - old(timer.invocations) <= (if mode == NRepeat then repeatCount else 1)
                + DoAll(Started(old(timer.t).period, mode, repeatCount), commands).rearmed
  {
    ghost var period := timer.t.period;
    error := timer.Start(mode, repeatCount);
    if error == Ok {
      DriveTimer(timer, commands, Started(period, mode, repeatCount));
      if mode != Periodic {
        FiresAreLimited(period, mode, repeatCount, commands);
      }
    }
  }

  ghost predicate WithinBudget(h: History) {
    && h.t.mode != Periodic
    && (if h.t.running then h.fires + FireLimit(h.t) <= h.limit + h.rearmed
        else h.fires + (if h.t.mode == NRepeat then h.t.repeatRemaining else 0) <= h.limit + h.rearmed)
  }

  lemma DoKeepsBudget(h: History, c: Command)
    requires WithinBudget(h)
    ensures WithinBudget(Do(h, c))
  {
  }

  /** Over any commands after a start, a one-shot timer fires at most once and an n-repeat timer at most n times, plus
      once for every resume() issued when they were already done. */
  lemma {:induction false} FiresAreLimited(period: nat, mode: Mode, repeatCount: nat, commands: seq<Command>)
    requires mode != Periodic && (mode == NRepeat ==> repeatCount > 0)
    ensures var h := DoAll(Started(period, mode, repeatCount), commands);
            WithinBudget(h) && h.fires <= (if mode == NRepeat then repeatCount else 1) + h.rearmed
            && h.limit == if mode == NRepeat then repeatCount else 1
  {
    if commands != [] {
      FiresAreLimited(period, mode, repeatCount, commands[..|commands| - 1]);
      DoKeepsBudget(DoAll(Started(period, mode, repeatCount), commands[..|commands| - 1]), commands[|commands| - 1]);
    }
  }

  /** A limited timer that has used up its fires stands still, at counter zero. */
  ghost predicate Rested(h: History) {
    WithinBudget(h) && h.t.period > 0 && (Spent(h) ==> !h.t.running && h.t.counter == 0)
  }

  lemma DoKeepsRest(h: History, c: Command)
    requires Rested(h)
    ensures Rested(Do(h, c))
  {
  }

  lemma {:induction false} HistoriesRest(period: nat, mode: Mode, repeatCount: nat, commands: seq<Command>)
    requires period > 0 && mode != Periodic && (mode == NRepeat ==> repeatCount > 0)
    ensures Rested(DoAll(Started(period, mode, repeatCount), commands))
  {
    if commands != [] {
      HistoriesRest(period, mode, repeatCount, commands[..|commands| - 1]);
      DoKeepsRest(DoAll(Started(period, mode, repeatCount), commands[..|commands| - 1]), commands[|commands| - 1]);
    }
  }

  /** Without resume(), a spent timer never fires again. */
  lemma {:induction false} SpentStaysSpent(h: History, commands: seq<Command>)
    requires Rested(h) && Spent(h) && forall i :: 0 <= i < |commands| ==> commands[i] != Resume
    ensures var r := DoAll(h, commands); r.fires == h.fires && Rested(r) && Spent(r) && r.rearmed == h.rearmed
  {
    if commands != [] {
      SpentStaysSpent(h, commands[..|commands| - 1]);
      DoKeepsRest(DoAll(h, commands[..|commands| - 1]), commands[|commands| - 1]);
    }
  }

  /** Some commands, with or without resume() among them, make the timer fire once more. */
  ghost predicate CanFireAgain(h: History, mayResume: bool) {
    exists commands: seq<Command> ::
      DoAll(h, commands).fires > h.fires && (mayResume || forall i :: 0 <= i < |commands| ==> commands[i] != Resume)
  }

  /** Resuming a timer that has run out re-arms it for one more fire. */
  lemma ResumeRearmsSpentTimer(h: History)
    requires Rested(h) && Spent(h) && h.t.Valid()
    ensures var h' := DoAll(h, [Resume, OnTick(h.t.period)]); h'.fires == h.fires + 1 && !h'.t.running
  {
    var commands := [Resume, OnTick(h.t.period)];
    assert commands[..1] == [Resume] && [Resume][..0] == [];
    QuotientIs(h.t.period, h.t.period, 1, 0);
    var armed := Do(h, Resume);
    assert DoAll(h, [Resume]) == armed;
    QuotientIs(h.t.period, TICK_MODULUS, 0, h.t.period);
  }

  /** Whatever was done after the start, a limited timer that is spent can exceed its limit exactly by resume(). */
  lemma ExceedsLimitIffResumed(period: nat, mode: Mode, repeatCount: nat, commands: seq<Command>, mayResume: bool)
    requires period > 0 && mode != Periodic && (mode == NRepeat ==> repeatCount > 0)
    requires var h := DoAll(Started(period, mode, repeatCount), commands); Spent(h) && h.t.Valid()
    ensures CanFireAgain(DoAll(Started(period, mode, repeatCount), commands), mayResume) <==> mayResume
  {
    var h := DoAll(Started(period, mode, repeatCount), commands);
    HistoriesRest(period, mode, repeatCount, commands);
    if mayResume {
      ResumeRearmsSpentTimer(h);
    } else {
      forall more: seq<Command> | forall i :: 0 <= i < |more| ==> more[i] != Resume
        ensures DoAll(h, more).fires == h.fires
      {
        SpentStaysSpent(h, more);
      }
    }
  }
}
