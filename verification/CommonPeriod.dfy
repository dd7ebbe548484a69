/** Periods in lowest terms, and why the common period of two durations is the coarsest one that fits both. */
module CommonPeriod {
  import opened Divisors
  import opened Duration

  predicate InLowestTerms(p: Period) {
    Gcd(p.num, p.den) == 1
  }

  /** What the ratio type makes of any numerator and denominator. */
  function Reduced(p: Period): (r: Period)
    requires p.Valid()
    ensures r.Valid()
  {
    GcdIsGcd(p.num, p.den);
    var g := Gcd(p.num, p.den);
    Exact(g, p.num);
    Exact(g, p.den);
    Period(p.num / g, p.den / g)
  }

  lemma Exact(g: nat, a: nat)
    requires g > 0 && a > 0 && Divides(g, a)
    ensures a == (a / g) * g && a / g > 0
  {
    var _ := DivideOut(g, a);
  }

  /** Reducing leaves the length of a tick alone and puts the period into lowest terms. */
  lemma ReducedIsSame(p: Period)
    requires p.Valid()
    ensures InLowestTerms(Reduced(p))
    ensures Reduced(p).Tick() == p.Tick()
    ensures InLowestTerms(p) ==> Reduced(p) == p
  {
    var g, r := Gcd(p.num, p.den), Reduced(p);
    GcdIsGcd(p.num, p.den);
    Exact(g, p.num);
    Exact(g, p.den);
    var s, t := Bezout(p.num, p.den);
    Cofactors(r.num, r.den, g, s, t);
    CombinationIsOne(r.num, r.den, s, t);
    SameRatio(r.num, r.den, g, p.num, p.den);
  }

  /** Dividing the greatest common divisor out leaves numbers whose combination is one. */
  lemma Cofactors(x: int, y: int, g: int, s: int, t: int)
    requires g > 0 && s * (x * g) + t * (y * g) == g
    ensures s * x + t * y == 1
  {
    Regroup(s, x, g);
    Regroup(t, y, g);
    assert (s * x + t * y) * g == (s * x) * g + (t * y) * g;
    MulCancel(s * x + t * y, 1, g);
  }

  lemma CombinationIsOne(x: nat, y: nat, s: int, t: int)
    requires s * x + t * y == 1
    ensures Gcd(x, y) == 1
  {
    GcdIsGcd(x, y);
    DividesSum(Gcd(x, y), x, y, s, t);
    UnitDivisor(Gcd(x, y));
  }

  lemma UnitDivisor(d: nat)
    requires Divides(d, 1)
    ensures d == 1
  {
    var k :| Times(k, d) == 1;
    SmallFactor(d, k);
  }

  lemma SameRatio(x: nat, y: nat, g: nat, a: nat, b: nat)
    requires y > 0 && g > 0 && a == x * g && b == y * g && b > 0
    ensures x as real / y as real == a as real / b as real
  {
    var q := x as real / y as real;
    assert a as real == q * (b as real) by {
      assert a as real == (x as real) * (g as real) && b as real == (y as real) * (g as real);
      assert x as real == q * (y as real);
    }
    RatioIs(a as real, b as real, q);
  }

  lemma RatioIs(x: real, y: real, q: real)
    requires y != 0.0 && x == q * y
    ensures x / y == q
  {
  }

  // ----- divisors and combinations -----

  lemma DividesSum(d: int, x: int, y: int, s: int, t: int)
    requires Divides(d, x) && Divides(d, y)
    ensures Divides(d, s * x + t * y)
  {
    var i :| Times(i, d) == x;
    var j :| Times(j, d) == y;
    Regroup(s, i, d);
    Regroup(t, j, d);
    assert (s * i + t * j) * d == (s * i) * d + (t * j) * d;
    DividesIntro(s * i + t * j, d, s * x + t * y);
  }

  lemma DividesMultiple(d: int, x: int, s: int)
    requires Divides(d, x)
    ensures Divides(d, s * x)
  {
    DividesSum(d, x, x, s, 0);
  }

  /** What divides two coprime multiples of a number divides the number. */
  lemma DividesCoprime(d: int, x: nat, y: nat, w: int)
    requires Gcd(x, y) == 1 && Divides(d, x * w) && Divides(d, y * w)
    ensures Divides(d, w)
  {
    var s, t := Bezout(x, y);
    DividesSum(d, x * w, y * w, s, t);
    Weighted(s, x, t, y, w);
  }

  lemma Weighted(s: int, x: int, t: int, y: int, w: int)
    requires s * x + t * y == 1
    ensures s * (x * w) + t * (y * w) == w
  {
    Regroup(s, x, w);
    Regroup(t, y, w);
    assert (s * x + t * y) * w == (s * x) * w + (t * y) * w;
  }

  // ----- the common period -----

  /** It is the greatest common divisor of the numerators over the least common multiple of the denominators. */
  lemma CommonIsGcdOverLcm(p: Period, q: Period)
    requires p.Valid() && q.Valid()
    ensures IsGcd(Common(p, q).num, p.num, q.num) && IsLcm(Common(p, q).den, p.den, q.den)
  {
    GcdIsGcd(p.num, q.num);
    LcmIsLcm(p.den, q.den);
  }

  /** The cofactors of two denominators in their least common multiple. */
  lemma CofactorsOfLcm(d: nat, e: nat) returns (g: nat, m: nat, n: nat)
    requires d > 0 && e > 0
    ensures d == n * g && e == m * g && Lcm(d, e) == m * d && Lcm(d, e) == n * e
    ensures Gcd(m, n) == 1
  {
    g := Gcd(d, e);
    GcdIsGcd(d, e);
    n := DivideOut(g, d);
    m := DivideOut(g, e);
    LcmIsLcm(d, e);
    var s, t := Bezout(d, e);
    Cofactors(n, m, g, s, t);
    CombinationIsOne(m, n, t, s);
    LcmByCofactor(Lcm(d, e), g, d, e, m, n);
  }

  lemma LcmByCofactor(l: int, g: int, d: int, e: int, m: int, n: int)
    requires g > 0 && l * g == d * e && d == n * g && e == m * g
    ensures l == m * d && l == n * e
  {
    Regroup(d, m, g);
    Regroup(e, n, g);
    assert d * m == m * d && e * n == n * e && e * d == d * e;
    MulCancel(l, m * d, g);
    MulCancel(l, n * e, g);
  }

  /** A denominator in lowest terms divides every denominator that refines it. */
  lemma DenominatorDivides(f: Period, p: Period, i: nat)
    requires f.Valid() && p.Valid() && InLowestTerms(p) && Refines(f, p, i)
    ensures Divides(p.den, f.den)
  {
    var d := p.den;
    assert p.num * f.den == (i * f.num) * d by {
      Regroup(i, f.num, d);
      assert d * f.num == f.num * d;
    }
    DividesIntro(i * f.num, d, p.num * f.den);
    DividesIntro(f.den, d, d * f.den);
    DividesCoprime(d, p.num, d, f.den);
  }

  /** With `b == d * (m * c)`, refining says that `a` divides `m * (n * c)`. */
  lemma RefinesCofactor(a: int, b: int, n: int, d: int, m: int, c: int, i: int)
    requires d > 0 && n * b == i * (d * a) && b == c * (m * d)
    ensures Divides(a, m * (n * c))
  {
    assert n * b == (m * (n * c)) * d by {
      Regroup(c, m, d);
      Regroup(n, c * m, d);
      Regroup(n, c, m);
      assert (n * c) * m == m * (n * c);
    }
    assert i * (d * a) == (i * a) * d by {
      assert d * a == a * d;
      Regroup(i, a, d);
    }
    MulCancel(m * (n * c), i * a, d);
    DividesIntro(i, a, m * (n * c));
  }

  /** From both numerators: first their product, then each, then their greatest common divisor. */
  lemma NumeratorDivides(a: int, p: Period, q: Period, g: nat, m: nat, n: nat, c: int)
    requires InLowestTerms(p) && InLowestTerms(q) && Gcd(m, n) == 1
    requires p.den == n * g && q.den == m * g
    requires Divides(a, m * (p.num * c)) && Divides(a, n * (q.num * c))
    ensures Divides(a, Gcd(p.num, q.num) * c)
  {
    var A, B := p.num * c, q.num * c;
    var w := q.num * A;
    assert w == p.num * B by {
      Regroup(q.num, p.num, c);
      Regroup(p.num, q.num, c);
      assert q.num * p.num == p.num * q.num;
    }
    ScaledCofactor(a, m, A, q.num, w);
    ScaledCofactor(a, n, B, p.num, w);
    DividesCoprime(a, m, n, w);
    TimesDenominator(a, m, g, A, q.den);
    DividesCoprime(a, q.num, q.den, A);
    TimesDenominator(a, n, g, B, p.den);
    DividesCoprime(a, p.num, p.den, B);
    var s, t := Bezout(p.num, q.num);
    DividesSum(a, A, B, s, t);
    assert s * A + t * B == Gcd(p.num, q.num) * c by {
      Regroup(s, p.num, c);
      Regroup(t, q.num, c);
      assert (s * p.num + t * q.num) * c == (s * p.num) * c + (t * q.num) * c;
    }
  }

  lemma ScaledCofactor(a: int, m: int, A: int, k: int, w: int)
    requires Divides(a, m * A) && w == k * A
    ensures Divides(a, m * w)
  {
    DividesMultiple(a, m * A, k);
    Regroup(k, m, A);
    Regroup(m, k, A);
    assert k * m == m * k;
  }

  lemma TimesDenominator(a: int, m: int, g: int, A: int, d: int)
    requires Divides(a, m * A) && d == m * g
    ensures Divides(a, d * A)
  {
    DividesMultiple(a, m * A, g);
    Regroup(g, m, A);
    assert g * m == m * g;
  }

  /** For periods in lowest terms the common period is the coarsest: whatever period both are whole multiples of, the
      common one is a whole multiple of it too. */
  lemma CommonIsCoarsest(p: Period, q: Period, f: Period, i: nat, j: nat) returns (k: nat)
    requires p.Valid() && q.Valid() && f.Valid() && InLowestTerms(p) && InLowestTerms(q)
    requires Refines(f, p, i) && Refines(f, q, j)
    ensures Refines(f, Common(p, q), k)
  {
    var a, l, h := f.num, Common(p, q).den, Common(p, q).num;
    DenominatorDivides(f, p, i);
    DenominatorDivides(f, q, j);
    CommonIsGcdOverLcm(p, q);
    var g, m, n := CofactorsOfLcm(p.den, q.den);
    var c := DivideOut(l, f.den);
    RefinesCofactor(a, f.den, p.num, p.den, m, c, i);
    RefinesCofactor(a, f.den, q.num, q.den, n, c, j);
    NumeratorDivides(a, p, q, g, m, n, c);
    ProductIsNat(h, c);
    k := DivideOut(a, h * c);
    RefinesCommon(h, f.den, k, l, a, c);
  }

  lemma RefinesCommon(h: int, b: int, k: int, l: int, a: int, c: int)
    requires b == c * l && h * c == k * a
    ensures h * b == k * (l * a)
  {
    Regroup(h, c, l);
    Regroup(k, a, l);
    assert l * a == a * l;
  }

  /** The common period of two periods in lowest terms is in lowest terms, so it is not reduced any further. */
  lemma CommonIsReduced(p: Period, q: Period)
    requires p.Valid() && q.Valid() && InLowestTerms(p) && InLowestTerms(q)
    ensures InLowestTerms(Common(p, q))
  {
    var c := Common(p, q);
    var d := Gcd(c.num, c.den);
    CommonIsGcdOverLcm(p, q);
    GcdIsGcd(c.num, c.den);
    DividesTransitive(d, c.num, p.num);
    DividesTransitive(d, c.num, q.num);
    var _, m, n := CofactorsOfLcm(p.den, q.den);
    DividesMultiple(d, p.num, m);
    DividesMultiple(d, q.num, n);
    assert m * p.num == p.num * m && m * p.den == p.den * m && n * q.num == q.num * n && n * q.den == q.den * n;
    DividesCoprime(d, p.num, p.den, m);
    DividesCoprime(d, q.num, q.den, n);
    var s, t := Bezout(m, n);
    DividesSum(d, m, n, s, t);
    UnitDivisor(d);
  }

  /** Reduction is what makes it coarsest: with 2/2 and 3/3 left as they are, one second fits both but not their
      common sixth. */
  lemma UnreducedIsNotCoarsest()
    ensures Common(Period(2, 2), Period(3, 3)) == Period(1, 6)
    ensures Refines(Period(1, 1), Period(2, 2), 1) && Refines(Period(1, 1), Period(3, 3), 1)
    ensures forall k: nat :: !Refines(Period(1, 1), Period(1, 6), k)
  {
    assert Gcd(2, 3) == 1 by {
      assert Gcd(2, 3) == Gcd(3, 2) == Gcd(2, 1) == Gcd(1, 0);
    }
    assert Lcm(2, 3) == 6;
  }
}
