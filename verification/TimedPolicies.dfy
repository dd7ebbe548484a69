/** `throttle` and `periodic`: clock readings are taken as arguments, in the order in which the lock admits them. */
module TimedPolicies {
  import opened Options

  // ----- throttle -----

  class Throttle {
    const interval: int
    var last: Option<int>
    ghost var fires: seq<int>   // the recorded readings since the last reset

    ghost predicate Valid()
      reads this
    {
      && last == (if fires == [] then None else Some(fires[|fires| - 1]))
      && Spaced(interval, fires)
    }

    constructor (interval: int)
      ensures Valid() && fires == [] && this.interval == interval
    {
      this.interval, last, fires := interval, None, [];
    }

    /** `now` was read before the lock was taken, so other callers may have fired on later readings meanwhile. */
    method Execute(now: int) returns (fire: bool)
      requires Valid()
      modifies this
      ensures Valid()
      ensures fire <==> old(fires) == [] || now - old(fires)[|old(fires)| - 1] >= interval
      ensures fires == if fire then old(fires) + [now] else old(fires)
    {
      fire := false;
      if last.None? || now - last.value >= interval {
        last := Some(now);
        fire := true;
        fires := fires + [now];
      }
    }

    method Reset()
      requires Valid()
      modifies this
      ensures Valid() && fires == []
    {
      last := None;
      fires := [];
    }
  }

  ghost predicate Spaced(interval: int, fires: seq<int>) {
    forall i :: 0 < i < |fires| ==> fires[i] - fires[i - 1] >= interval
  }

  /** The readings recorded over a run. */
  function ThrottleRun(interval: int, readings: seq<int>): seq<int> {
    if readings == [] then []
    else
      var fires, now := ThrottleRun(interval, readings[..|readings| - 1]), readings[|readings| - 1];
      if fires == [] || now - fires[|fires| - 1] >= interval then fires + [now] else fires
  }

  /** The object records exactly these readings. */
  method DriveThrottle(interval: int, readings: seq<int>) returns (t: Throttle)
    ensures t.Valid() && t.fires == ThrottleRun(interval, readings)
  {
    t := new Throttle(interval);
    var i := 0;
    while i < |readings|
      invariant 0 <= i <= |readings|
      invariant t.Valid() && fresh(t) && t.interval == interval
      invariant t.fires == ThrottleRun(interval, readings[..i])
    {
      hide Spaced;
      var _ := t.Execute(readings[i]);
      assert readings[..i + 1][..i] == readings[..i];
      i := i + 1;
    }
    assert readings[..i] == readings;
  }

  /** Whatever the order in which stale readings arrive: recorded fires are at least `interval` apart, and for a
      positive interval any two are apart by at least that much per fire between them. */
  lemma {:induction false} ThrottleKeepsInterval(interval: int, readings: seq<int>)
    ensures Spaced(interval, ThrottleRun(interval, readings))
    ensures forall i, j :: 0 <= i < j < |ThrottleRun(interval, readings)| && interval > 0 ==>
              ThrottleRun(interval, readings)[j] - ThrottleRun(interval, readings)[i] >= interval
  {
    if readings != [] {
      ThrottleKeepsInterval(interval, readings[..|readings| - 1]);
    }
  }

  /** Nothing is dropped without need: every reading comes less than `interval` after some recorded one. */
  lemma {:induction false} ThrottleDropsOnlyWithinInterval(interval: int, readings: seq<int>, k: nat)
    requires k < |readings| && interval > 0
    ensures exists i :: 0 <= i < |ThrottleRun(interval, readings)| &&
              readings[k] - ThrottleRun(interval, readings)[i] < interval
  {
    var front := readings[..|readings| - 1];
    var before, after := ThrottleRun(interval, front), ThrottleRun(interval, readings);
    if k < |readings| - 1 {
      ThrottleDropsOnlyWithinInterval(interval, front, k);
      var i :| 0 <= i < |before| && front[k] - before[i] < interval;
      assert after[i] == before[i];
    } else {
      assert readings[k] - after[|after| - 1] < interval;
    }
  }

  // ----- periodic -----

  /** Whole periods from `start` to `now`. */
  function Elapsed(start: int, period: int, now: int): int
    requires period > 0
  {
    (now - start) / period
  }

  lemma DivisionBounds(a: int, b: int, q: int)
    requires b > 0
    ensures q <= a / b <==> q * b <= a
    ensures a / b < q <==> a < q * b
  {
    var d := a / b;
    assert a == d * b + a % b;
    assert q <= d ==> q * b <= d * b;
    assert q >= d + 1 ==> q * b >= (d + 1) * b;
  }

  lemma NextMultiple(n: int, period: int)
    ensures (n + 1) * period == n * period + period
  {
  }

  class Periodic {
    const period: int
    var nextDeadline: int
    ghost var start: int    // construction or last reset
    ghost var fires: nat    // counted since then

    ghost predicate Valid()
      reads this
    {
      nextDeadline == start + (fires + 1) * period
    }

    constructor (period: int, now: int)
      ensures Valid() && start == now && fires == 0 && this.period == period
    {
      this.period, nextDeadline := period, now + period;
      start, fires := now, 0;
    }

    /** Catches up: afterwards every whole period between the start and `now` has been counted, and none twice. The
        precondition is exactly when the loop ends, see PollEndsIff. */
    method Poll(now: int) returns (elapsedPeriods: nat)
      requires Valid() && (period > 0 || now < nextDeadline)
      modifies this
      ensures Valid() && start == old(start)
      ensures fires == old(fires) + elapsedPeriods
      ensures period <= 0 ==> elapsedPeriods == 0
      ensures period > 0 ==>
                fires == if Elapsed(start, period, now) > old(fires) then Elapsed(start, period, now) else old(fires)
    {
      elapsedPeriods := 0;
      while now >= nextDeadline
        invariant Valid() && start == old(start) && fires == old(fires) + elapsedPeriods
        invariant period > 0 || elapsedPeriods == 0
        invariant elapsedPeriods > 0 ==> nextDeadline - period <= now
        decreases now - nextDeadline
      {
        NextMultiple(fires + 1, period);
        elapsedPeriods := elapsedPeriods + 1;
        nextDeadline := nextDeadline + period;
        fires := fires + 1;
      }
      if period > 0 {
        NextMultiple(fires, period);
        DivisionBounds(now - start, period, fires + 1);
        DivisionBounds(now - start, period, fires);
      }
    }

    method Reset(now: int)
      requires Valid()
      modifies this
      ensures Valid() && start == now && fires == 0
    {
      nextDeadline := now + period;
      start, fires := now, 0;
    }
  }

  /** After `n` rounds of the catch-up loop the deadline has passed `now`. */
  predicate PastAfter(now: int, deadline: int, period: int, n: nat) {
    now < deadline + n * period
  }

  /** Exactly when a poll ends: the period is positive or the deadline has not been reached. */
  lemma PollEndsIff(now: int, deadline: int, period: int)
    ensures (exists n: nat :: PastAfter(now, deadline, period, n)) <==> period > 0 || now < deadline
  {
    if now < deadline {
      assert PastAfter(now, deadline, period, 0);
    } else if period > 0 {
      var n: nat := now - deadline + 1;
      assert n * period >= n;
      assert PastAfter(now, deadline, period, n);
    } else {
      forall n: nat
        ensures !PastAfter(now, deadline, period, n)
      {
        assert n * period <= 0;
      }
    }
  }

  /** Fires counted by successive polls at the given readings. */
  function PollRun(start: int, period: int, readings: seq<int>): nat
    requires period > 0
  {
    if readings == [] then 0
    else
      var fires := PollRun(start, period, readings[..|readings| - 1]);
      var due := Elapsed(start, period, readings[|readings| - 1]);
      if due > fires then due else fires
  }

  /** The object counts exactly these fires. */
  method DrivePeriodic(start: int, period: int, readings: seq<int>) returns (p: Periodic)
    requires period > 0
    ensures p.Valid() && p.fires == PollRun(start, period, readings)
  {
    p := new Periodic(period, start);
    var i := 0;
    while i < |readings|
      invariant 0 <= i <= |readings|
      invariant p.Valid() && fresh(p) && p.period == period && p.start == start
      invariant p.fires == PollRun(start, period, readings[..i])
    {
      var _ := p.Poll(readings[i]);
      assert readings[..i + 1][..i] == readings[..i];
      i := i + 1;
    }
    assert readings[..i] == readings;
  }

  /** However polls are spaced, the schedule does not drift: if the last reading is the latest and not before the
      start, exactly the whole periods up to it have fired. */
  lemma {:induction false} PollingDoesNotDrift(start: int, period: int, readings: seq<int>, now: int)
    requires period > 0 && start <= now
    requires forall i :: 0 <= i < |readings| ==> readings[i] <= now
    ensures PollRun(start, period, readings + [now]) == Elapsed(start, period, now)
    ensures PollRun(start, period, readings) <= Elapsed(start, period, now)
  {
    DivisionBounds(now - start, period, 0);
    if readings != [] {
      var front, x := readings[..|readings| - 1], readings[|readings| - 1];
      PollingDoesNotDrift(start, period, front, now);
      DivisionBounds(x - start, period, Elapsed(start, period, x));
      DivisionBounds(now - start, period, Elapsed(start, period, x));
    }
    assert (readings + [now])[..|readings|] == readings;
  }
}
