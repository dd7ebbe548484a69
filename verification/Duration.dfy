/** Tick counts with rational periods: conversion, comparison, arithmetic and rounding. */
module Duration {
  import opened Divisors

  /** Seconds per tick, as a ratio of positive integers. */
  datatype Period = Period(num: nat, den: nat) {
    predicate Valid() {
      num > 0 && den > 0
    }

    ghost function Tick(): (t: real)
      requires Valid()
      ensures t > 0.0
    {
      num as real / den as real
    }
  }

  /** `n` copies of `t`, one after the other. */
  ghost function Copies(n: int, t: real): real
    decreases Abs(n)
  {
    if n == 0 then 0.0 else if n > 0 then Copies(n - 1, t) + t else Copies(n + 1, t) - t
  }

  lemma {:induction false} CopiesIsProduct(n: int, t: real)
    ensures Copies(n, t) == n as real * t
    decreases Abs(n)
  {
    if n > 0 {
      CopiesIsProduct(n - 1, t);
    } else if n < 0 {
      CopiesIsProduct(n + 1, t);
    }
  }

  datatype Duration = Duration(count: int, period: Period) {
    predicate Valid() {
      period.Valid()
    }

    /** The amount of time this duration stands for. */
    ghost function Seconds(): real
      requires Valid()
    {
      Copies(count, period.Tick())
    }
  }

  function Cast(x: Duration, to: Period): (r: Duration)
    requires x.Valid() && to.Valid()
    ensures r.Valid() && r.period == to
  {
    Duration(TruncDiv(x.count * x.period.num * to.den, x.period.den * to.num), to)
  }

  /** The coarsest period both operands are whole multiples of. */
  function Common(p: Period, q: Period): (c: Period)
    requires p.Valid() && q.Valid()
    ensures c.Valid()
  {
    GcdIsGcd(p.num, q.num);
    LcmIsLcm(p.den, q.den);
    Period(Gcd(p.num, q.num), Lcm(p.den, q.den))
  }

  // ----- operators -----

  function Plus(x: Duration, y: Duration): (r: Duration)
    requires x.Valid() && y.Valid()
    ensures r.Valid()
  {
    var c := Common(x.period, y.period);
    Duration(Cast(x, c).count + Cast(y, c).count, c)
  }

  function Minus(x: Duration, y: Duration): (r: Duration)
    requires x.Valid() && y.Valid()
    ensures r.Valid()
  {
    var c := Common(x.period, y.period);
    Duration(Cast(x, c).count - Cast(y, c).count, c)
  }

  predicate Equal(x: Duration, y: Duration)
    requires x.Valid() && y.Valid()
  {
    var c := Common(x.period, y.period);
    Cast(x, c).count == Cast(y, c).count
  }

  predicate Less(x: Duration, y: Duration)
    requires x.Valid() && y.Valid()
  {
    var c := Common(x.period, y.period);
    Cast(x, c).count < Cast(y, c).count
  }

  /** duration / duration: undefined in the source for a divisor of zero ticks. */
  function Quot(x: Duration, y: Duration): int
    requires x.Valid() && y.Valid()
    requires Cast(y, Common(x.period, y.period)).count != 0
  {
    var c := Common(x.period, y.period);
    TruncDiv(Cast(x, c).count, Cast(y, c).count)
  }

  function Rem(x: Duration, y: Duration): (r: Duration)
    requires x.Valid() && y.Valid()
    requires Cast(y, Common(x.period, y.period)).count != 0
    ensures r.Valid()
  {
    var c := Common(x.period, y.period);
    Duration(TruncMod(Cast(x, c).count, Cast(y, c).count), c)
  }

  // ----- rounding conversions -----

  function Floor(x: Duration, to: Period): (r: Duration)
    requires x.Valid() && to.Valid()
    ensures r.Valid()
  {
    if Less(x, Cast(x, to)) then Minus(Cast(x, to), Duration(1, to)) else Cast(x, to)
  }

  function Ceil(x: Duration, to: Period): (r: Duration)
    requires x.Valid() && to.Valid()
    ensures r.Valid()
  {
    if Less(Cast(x, to), x) then Plus(Cast(x, to), Duration(1, to)) else Cast(x, to)
  }

  function Round(x: Duration, to: Period): (r: Duration)
    requires x.Valid() && to.Valid()
    ensures r.Valid()
  {
    var lower := Floor(x, to);
    var upper := Plus(lower, Duration(1, to));
    var lowerDistance := Minus(x, lower);
    var upperDistance := Minus(upper, x);
    if Less(lowerDistance, upperDistance) then lower
    else if Less(upperDistance, lowerDistance) then upper
    else if TruncMod(lower.count, 2) == 0 then lower
    else upper
  }

  // ----- exactness of the common period -----

  /** `fine` divides `p`: one tick of `p` is a whole number of ticks of `fine`. */
  ghost predicate Refines(fine: Period, p: Period, ticks: nat)
    requires fine.Valid() && p.Valid()
  {
    p.num * fine.den == ticks * (p.den * fine.num)
  }

  lemma CommonRefines(p: Period, q: Period) returns (ticksP: nat, ticksQ: nat)
    requires p.Valid() && q.Valid()
    ensures Refines(Common(p, q), p, ticksP) && Refines(Common(p, q), q, ticksQ)
  {
    var c := Common(p, q);
    GcdIsGcd(p.num, q.num);
    LcmIsLcm(p.den, q.den);
    ticksP := FactorTicks(c, p);
    ticksQ := FactorTicks(c, q);
  }

  lemma FactorTicks(c: Period, p: Period) returns (ticks: nat)
    requires c.Valid() && p.Valid() && Divides(c.num, p.num) && Divides(p.den, c.den)
    ensures Refines(c, p, ticks)
  {
    var i := DivideOut(c.num, p.num);
    var j := DivideOut(p.den, c.den);
    Shuffle(i, c.num, j, p.den);
    ticks := i * j;
    Regroup(ticks, p.den, c.num);
  }

  /** Casting to a refining period loses nothing. */
  lemma CastExact(x: Duration, fine: Period, ticks: nat)
    requires x.Valid() && fine.Valid() && Refines(fine, x.period, ticks)
    ensures Cast(x, fine).count == x.count * ticks
    ensures Cast(x, fine).Seconds() == x.Seconds()
  {
    CastCount(x, fine, ticks);
    TickRatio(x.period, fine, ticks);
    CopiesOfCopies(x.count, ticks, Cast(x, fine).count, fine.Tick());
  }

  lemma CastCount(x: Duration, fine: Period, ticks: nat)
    requires x.Valid() && fine.Valid() && Refines(fine, x.period, ticks)
    ensures Cast(x, fine).count == x.count * ticks
  {
    var m := x.period.den * fine.num;
    Regroup(x.count, x.period.num, fine.den);
    Regroup(x.count, ticks, m);
    assert x.count * x.period.num * fine.den == (x.count * ticks) * m;
    TruncExact(x.count * ticks, m);
  }

  lemma {:induction false} CopiesAdd(i: int, j: int, t: real)
    ensures Copies(i + j, t) == Copies(i, t) + Copies(j, t)
    ensures Copies(i - j, t) == Copies(i, t) - Copies(j, t)
    decreases Abs(j)
  {
    if j > 0 {
      CopiesAdd(i, j - 1, t);
    } else if j < 0 {
      CopiesAdd(i, j + 1, t);
    }
  }

  lemma {:induction false} CopiesOfCopies(n: int, k: int, nk: int, t: real)
    requires nk == n * k
    ensures Copies(nk, t) == Copies(n, Copies(k, t))
    decreases Abs(n)
  {
    if n > 0 {
      assert nk - k == (n - 1) * k;
      CopiesOfCopies(n - 1, k, nk - k, t);
      CopiesAdd(nk, k, t);
    } else if n < 0 {
      assert nk + k == (n + 1) * k;
      CopiesOfCopies(n + 1, k, nk + k, t);
      CopiesAdd(nk, k, t);
    }
  }

  lemma {:induction false} CopiesSign(n: int, t: real)
    requires t > 0.0
    ensures Copies(n, t) > 0.0 <==> n > 0
    ensures Copies(n, t) < 0.0 <==> n < 0
    decreases Abs(n)
  {
    if n > 0 {
      CopiesSign(n - 1, t);
    } else if n < 0 {
      CopiesSign(n + 1, t);
    }
  }

  lemma TickRatio(p: Period, fine: Period, ticks: nat)
    requires p.Valid() && fine.Valid() && Refines(fine, p, ticks)
    ensures p.Tick() == Copies(ticks, fine.Tick())
  {
    CopiesIsProduct(ticks, fine.Tick());
    var a, b, c, d, k := p.num as real, p.den as real, fine.num as real, fine.den as real, ticks as real;
    assert a * d == k * (b * c) by {
      assert (p.num * fine.den) as real == a * d;
      assert (p.den * fine.num) as real == b * c;
      assert (ticks * (p.den * fine.num)) as real == k * (b * c);
    }
    CrossMultiply(a, b, k, c, d);
  }

  lemma CrossMultiply(a: real, b: real, k: real, c: real, d: real)
    requires b > 0.0 && d > 0.0 && a * d == k * (b * c)
    ensures a / b == k * (c / d)
  {
    var q, t := a / b, c / d;
    assert q * b == a && t * d == c;
    assert (q - k * t) * (b * d) == 0.0 by {
      assert q * (b * d) == (q * b) * d;
      assert (k * t) * (b * d) == k * (b * (t * d));
    }
    assert b * d > 0.0;
  }

  /** Ticks of one period compare like the seconds they stand for. */
  lemma SamePeriodOrder(x: Duration, y: Duration)
    requires x.Valid() && y.Valid() && x.period == y.period
    ensures x.count < y.count <==> x.Seconds() < y.Seconds()
    ensures x.count == y.count <==> x.Seconds() == y.Seconds()
  {
    SignOfDifference(x.count, y.count, x.period.Tick());
  }

  /** Converting either operand to the common period is exact. */
  lemma CommonExact(x: Duration, y: Duration)
    requires x.Valid() && y.Valid()
    ensures var c := Common(x.period, y.period);
            Cast(x, c).Seconds() == x.Seconds() && Cast(y, c).Seconds() == y.Seconds()
  {
    var i, j := CommonRefines(x.period, y.period);
    CastExact(x, Common(x.period, y.period), i);
    CastExact(y, Common(x.period, y.period), j);
  }

  /** The comparison operators decide the order of the rational amounts of time. */
  lemma ComparisonsAreExact(x: Duration, y: Duration)
    requires x.Valid() && y.Valid()
    ensures Equal(x, y) <==> x.Seconds() == y.Seconds()
    ensures Less(x, y) <==> x.Seconds() < y.Seconds()
  {
    CommonExact(x, y);
    var c := Common(x.period, y.period);
    SamePeriodOrder(Cast(x, c), Cast(y, c));
  }

  /** Addition and subtraction across periods lose nothing. */
  lemma ArithmeticIsExact(x: Duration, y: Duration)
    requires x.Valid() && y.Valid()
    ensures Plus(x, y).Seconds() == x.Seconds() + y.Seconds()
    ensures Minus(x, y).Seconds() == x.Seconds() - y.Seconds()
  {
    CommonExact(x, y);
    var c := Common(x.period, y.period);
    CopiesAdd(Cast(x, c).count, Cast(y, c).count, c.Tick());
  }

  /** The period shared with itself is unchanged, so the rounding conversions stay in the target period. */
  lemma CommonWithSelf(p: Period)
    requires p.Valid()
    ensures Common(p, p) == p
  {
    assert Gcd(p.num, p.num) == p.num;
    LcmIsLcm(p.den, p.den);
    assert Gcd(p.den, p.den) == p.den;
    MulCancel(Lcm(p.den, p.den), p.den, p.den);
  }

  lemma StepInPeriod(x: Duration)
    requires x.Valid()
    ensures Plus(x, Duration(1, x.period)) == Duration(x.count + 1, x.period)
    ensures Minus(x, Duration(1, x.period)) == Duration(x.count - 1, x.period)
  {
    CommonWithSelf(x.period);
    assert Refines(x.period, x.period, 1);
    CastExact(x, x.period, 1);
    CastExact(Duration(1, x.period), x.period, 1);
  }

  /** Division and remainder of durations: the dividend is rebuilt, the remainder is short and signed like it. */
  lemma QuotientLaw(x: Duration, y: Duration)
    requires x.Valid() && y.Valid() && y.Seconds() != 0.0
    ensures Cast(y, Common(x.period, y.period)).count != 0
    ensures x.Seconds() == Copies(Quot(x, y), y.Seconds()) + Rem(x, y).Seconds()
    ensures -AbsReal(y.Seconds()) < Rem(x, y).Seconds() < AbsReal(y.Seconds())
    ensures if x.Seconds() >= 0.0 then Rem(x, y).Seconds() >= 0.0 else Rem(x, y).Seconds() <= 0.0
  {
    CommonExact(x, y);
    var c := Common(x.period, y.period);
    var a, b := Cast(x, c).count, Cast(y, c).count;
    assert b != 0;
    TruncLaws(a, b);
    ScaleRemainder(a, b, TruncDiv(a, b), TruncMod(a, b), c.Tick());
  }

  ghost function AbsReal(r: real): (a: real)
    ensures a >= 0.0 && (a == r || a == -r)
  {
    if r < 0.0 then -r else r
  }

  lemma ScaleRemainder(a: int, b: int, q: int, r: int, t: real)
    requires t > 0.0 && a == q * b + r && Abs(r) < Abs(b)
    requires if a >= 0 then r >= 0 else r <= 0
    ensures Copies(a, t) == Copies(q, Copies(b, t)) + Copies(r, t)
    ensures -AbsReal(Copies(b, t)) < Copies(r, t) < AbsReal(Copies(b, t))
    ensures if Copies(a, t) >= 0.0 then Copies(r, t) >= 0.0 else Copies(r, t) <= 0.0
  {
    CopiesOfCopies(q, b, a - r, t);
    SplitOff(a, r, q, Copies(b, t), t);
    CopiesSign(a, t);
    CopiesSign(r, t);
    CopiesShorter(r, b, t);
  }

  lemma CopiesShorter(r: int, b: int, t: real)
    requires t > 0.0 && Abs(r) < Abs(b)
    ensures -AbsReal(Copies(b, t)) < Copies(r, t) < AbsReal(Copies(b, t))
  {
    SignOfSum(b, r, t);
    SignOfDifference(b, r, t);
  }

  lemma SignOfSum(i: int, j: int, t: real)
    requires t > 0.0
    ensures Copies(i, t) + Copies(j, t) > 0.0 <==> i + j > 0
    ensures Copies(i, t) + Copies(j, t) < 0.0 <==> i + j < 0
  {
    CopiesAdd(i, j, t);
    CopiesSign(i + j, t);
  }

  lemma SignOfDifference(i: int, j: int, t: real)
    requires t > 0.0
    ensures Copies(i, t) - Copies(j, t) > 0.0 <==> i - j > 0
    ensures Copies(i, t) - Copies(j, t) < 0.0 <==> i - j < 0
  {
    CopiesAdd(i, j, t);
    CopiesSign(i - j, t);
  }

  // ----- rounding -----

  /** A cast lands within one target tick of the value, on the side of zero. */
  lemma CastTruncates(x: Duration, to: Period)
    requires x.Valid() && to.Valid()
    ensures var r := Cast(x, to).Seconds();
            if x.count >= 0 then r <= x.Seconds() < r + to.Tick() else r - to.Tick() < x.Seconds() <= r
  {
    var n, m := TargetFraction(x, to);
    TruncatedFraction(n, m, to.Tick(), x.Seconds());
  }

  /** The value is `n / m` target ticks, and a cast truncates that fraction. */
  lemma TargetFraction(x: Duration, to: Period) returns (n: int, m: int)
    requires x.Valid() && to.Valid()
    ensures m > 0 && Cast(x, to) == Duration(TruncDiv(n, m), to)
    ensures n >= 0 <==> x.count >= 0
    ensures Copies(m, x.Seconds()) == Copies(n, to.Tick())
  {
    n, m := x.count * x.period.num * to.den, x.period.den * to.num;
    SignOfProduct(x.count, x.period.num, to.den);
    CopiesIsProduct(x.count, x.period.Tick());
    CopiesIsProduct(m, x.Seconds());
    CopiesIsProduct(n, to.Tick());
    var k, a, b, c, d := x.count as real, x.period.num as real, x.period.den as real, to.num as real, to.den as real;
    assert n as real == (k * a) * d by {
      assert (x.count * x.period.num) as real == k * a;
      assert ((x.count * x.period.num) * to.den) as real == (k * a) * d;
    }
    assert m as real == b * c;
    RealFractions(k, a, b, c, d);
  }

  lemma SignOfProduct(a: int, b: int, c: int)
    requires b > 0 && c > 0
    ensures a * b * c >= 0 <==> a >= 0
  {
    assert a * b >= 0 <==> a >= 0;
  }

  lemma RealFractions(k: real, a: real, b: real, c: real, d: real)
    requires b > 0.0 && d > 0.0
    ensures (b * c) * (k * (a / b)) == ((k * a) * d) * (c / d)
  {
    var p, t := a / b, c / d;
    assert p * b == a && t * d == c;
    calc {
      (b * c) * (k * p);
      (k * (p * b)) * c;
      (k * a) * (t * d);
      ((k * a) * d) * t;
    }
  }

  lemma TruncatedFraction(n: int, m: int, t: real, v: real)
    requires m > 0 && t > 0.0 && Copies(m, v) == Copies(n, t)
    ensures var r := Copies(TruncDiv(n, m), t);
            if n >= 0 then r <= v < r + t else r - t < v <= r
  {
    var rest, r := TruncMod(n, m), Copies(TruncDiv(n, m), t);
    assert Copies(n - rest, t) == Copies(m, r) by {
      TruncLaws(n, m);
      CopiesOfCopies(m, TruncDiv(n, m), n - rest, t);
    }
    SplitOff(n, rest, m, r, t);
    FractionBounds(m, rest, t, v, r);
  }

  lemma SplitOff(n: int, rest: int, m: int, r: real, t: real)
    requires Copies(n - rest, t) == Copies(m, r)
    ensures Copies(n, t) == Copies(m, r) + Copies(rest, t)
  {
    CopiesAdd(n - rest, rest, t);
  }

  /** m * (v - r) is the remainder of the division, which is shorter than m * t. */
  lemma FractionBounds(m: int, rest: int, t: real, v: real, r: real)
    requires m > 0 && t > 0.0 && Copies(m, v) == Copies(m, r) + Copies(rest, t)
    requires Abs(rest) < m
    ensures r - t < v < r + t
    ensures (rest >= 0 ==> r <= v) && (rest <= 0 ==> v <= r)
  {
    CopiesSign(rest, t);
    CopiesShorter(rest, m, t);
    CopiesSign(m, t);
    CancelCopies(m, v, r, t);
  }

  lemma CancelCopies(m: int, v: real, r: real, t: real)
    requires m > 0
    ensures Copies(m, v) - Copies(m, r) >= 0.0 <==> v >= r
    ensures Copies(m, v) - Copies(m, r) <= 0.0 <==> v <= r
    ensures Copies(m, v) - Copies(m, r) < Copies(m, t) <==> v - r < t
    ensures Copies(m, v) - Copies(m, r) > -Copies(m, t) <==> v - r > -t
  {
    CopiesOrder(m, v, r);
    CopiesShift(m, r, t);
    CopiesOrder(m, v, r + t);
    CopiesOrder(m, v, r - t);
  }

  lemma {:induction false} CopiesShift(m: nat, r: real, t: real)
    ensures Copies(m, r + t) == Copies(m, r) + Copies(m, t)
    ensures Copies(m, r - t) == Copies(m, r) - Copies(m, t)
  {
    if m > 0 {
      CopiesShift(m - 1, r, t);
    }
  }

  lemma {:induction false} CopiesOrder(m: nat, v: real, w: real)
    requires m > 0
    ensures Copies(m, v) < Copies(m, w) <==> v < w
    ensures Copies(m, v) == Copies(m, w) <==> v == w
  {
    if m > 1 {
      CopiesOrder(m - 1, v, w);
    } else {
      assert Copies(1, v) == Copies(0, v) + v && Copies(1, w) == Copies(0, w) + w;
    }
  }

  lemma OneTick(x: Duration, y: Duration)
    requires x.Valid() && y.period == x.period && y.count == x.count + 1
    ensures y.Seconds() == x.Seconds() + x.period.Tick()
  {
    CopiesAdd(x.count, 1, x.period.Tick());
  }

  /** `floor` gives the greatest whole number of target ticks not above the value. */
  lemma FloorIsGreatest(x: Duration, to: Period)
    requires x.Valid() && to.Valid()
    ensures var r := Floor(x, to); r.period == to && r.Seconds() <= x.Seconds() < r.Seconds() + to.Tick()
    ensures forall k :: Duration(k, to).Seconds() <= x.Seconds() <==> k <= Floor(x, to).count
  {
    var c := Cast(x, to);
    CastTruncates(x, to);
    ComparisonsAreExact(x, c);
    StepInPeriod(c);
    OneTick(Duration(c.count - 1, to), c);
    var r := Floor(x, to);
    var next := Duration(r.count + 1, to);
    OneTick(r, next);
    forall k
      ensures Duration(k, to).Seconds() <= x.Seconds() <==> k <= r.count
    {
      SamePeriodOrder(r, Duration(k, to));
      SamePeriodOrder(Duration(k, to), next);
    }
  }

  /** `ceil` gives the least whole number of target ticks not below the value. */
  lemma CeilIsLeast(x: Duration, to: Period)
    requires x.Valid() && to.Valid()
    ensures var r := Ceil(x, to); r.period == to && r.Seconds() - to.Tick() < x.Seconds() <= r.Seconds()
    ensures forall k :: x.Seconds() <= Duration(k, to).Seconds() <==> Ceil(x, to).count <= k
  {
    var c := Cast(x, to);
    CastTruncates(x, to);
    ComparisonsAreExact(c, x);
    StepInPeriod(c);
    OneTick(c, Duration(c.count + 1, to));
    var r := Ceil(x, to);
    var previous := Duration(r.count - 1, to);
    OneTick(previous, r);
    forall k
      ensures x.Seconds() <= Duration(k, to).Seconds() <==> r.count <= k
    {
      SamePeriodOrder(Duration(k, to), r);
      SamePeriodOrder(previous, Duration(k, to));
    }
  }

  /** What `round` chooses between, and how. */
  lemma RoundChoice(x: Duration, to: Period)
    requires x.Valid() && to.Valid()
    ensures var lower, upper, r := Floor(x, to), Duration(Floor(x, to).count + 1, to), Round(x, to);
            && lower.period == to
            && lower.Seconds() <= x.Seconds() < upper.Seconds()
            && (x.Seconds() - lower.Seconds() < upper.Seconds() - x.Seconds() ==> r == lower)
            && (upper.Seconds() - x.Seconds() < x.Seconds() - lower.Seconds() ==> r == upper)
            && (upper.Seconds() - x.Seconds() == x.Seconds() - lower.Seconds() ==>
                  r == (if lower.count % 2 == 0 then lower else upper))
  {
    FloorIsGreatest(x, to);
    var lower := Floor(x, to);
    var upper := Plus(lower, Duration(1, to));
    StepInPeriod(lower);
    OneTick(lower, upper);
    ArithmeticIsExact(x, lower);
    ArithmeticIsExact(upper, x);
    ComparisonsAreExact(Minus(x, lower), Minus(upper, x));
    ComparisonsAreExact(Minus(upper, x), Minus(x, lower));
    Parity(lower.count);
  }

  lemma Parity(n: int)
    ensures TruncMod(n, 2) == 0 <==> n % 2 == 0
  {
  }

  /** Distance, in seconds, from `x` to `k` ticks of `to`. */
  ghost function Distance(x: Duration, k: int, to: Period): real
    requires x.Valid() && to.Valid()
  {
    AbsReal(x.Seconds() - Duration(k, to).Seconds())
  }

  /** `round` gives a nearest whole number of target ticks, and the even one when two are nearest. */
  lemma RoundIsNearest(x: Duration, to: Period, k: int)
    requires x.Valid() && to.Valid()
    ensures Round(x, to).period == to
    ensures Distance(x, Round(x, to).count, to) <= Distance(x, k, to)
    ensures k != Round(x, to).count && Distance(x, Round(x, to).count, to) == Distance(x, k, to)
            ==> Round(x, to).count % 2 == 0
  {
    RoundChoice(x, to);
    var lower, upper := Floor(x, to), Duration(Floor(x, to).count + 1, to);
    SamePeriodOrder(Duration(k, to), lower);
    SamePeriodOrder(upper, Duration(k, to));
  }
}
