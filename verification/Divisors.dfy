/** Greatest common divisors and least common multiples, with C++ truncating division written out. */
module Divisors {

  function Abs(n: int): (r: int)
    ensures 0 <= r && (r == n || r == -n)
  {
    if n < 0 then -n else n
  }

  function Quotient(n: nat, m: nat): (q: int)
    requires m > 0
  {
    n / m
  }

  function Remainder(n: nat, m: nat): (r: int)
    requires m > 0
    ensures 0 <= r < m
  {
    n % m
  }

  /** C++ integer division: the quotient is truncated toward zero. */
  function TruncDiv(a: int, b: int): (q: int)
    requires b != 0
  {
    if (a >= 0) == (b > 0) then Quotient(Abs(a), Abs(b)) else -Quotient(Abs(a), Abs(b))
  }

  /** C++ remainder: it has the sign of the dividend. */
  function TruncMod(a: int, b: int): (r: int)
    requires b != 0
    ensures Abs(r) < Abs(b)
    ensures if a >= 0 then r >= 0 else r <= 0
  {
    if a >= 0 then Remainder(Abs(a), Abs(b)) else -Remainder(Abs(a), Abs(b))
  }

  /** Quotient and remainder rebuild the dividend; the remainder is short and has the sign of the dividend. */
  lemma TruncLaws(a: int, b: int)
    requires b != 0
    ensures a == TruncDiv(a, b) * b + TruncMod(a, b)
    ensures Abs(TruncMod(a, b)) < Abs(b) && if a >= 0 then TruncMod(a, b) >= 0 else TruncMod(a, b) <= 0
  {
    EuclidLaw(Abs(a), Abs(b));
    SignedLaw(a, b, Quotient(Abs(a), Abs(b)), Remainder(Abs(a), Abs(b)));
  }

  lemma EuclidLaw(n: nat, m: nat)
    requires m > 0
    ensures n == Quotient(n, m) * m + Remainder(n, m)
  {
  }

  /** Putting the signs back onto a division of magnitudes. */
  lemma SignedLaw(a: int, b: int, q: int, r: int)
    requires b != 0 && Abs(a) == q * Abs(b) + r
    ensures a == (if (a >= 0) == (b > 0) then q else -q) * b + (if a >= 0 then r else -r)
  {
    NegateFactor(q, b);
  }

  lemma NegateFactor(q: int, m: int)
    ensures (-q) * m == -(q * m) && q * (-m) == -(q * m) && (-q) * (-m) == q * m
  {
  }

  lemma MulCancel(x: int, y: int, m: int)
    requires m != 0 && x * m == y * m
    ensures x == y
  {
    assert (x - y) * m == 0;
  }

  lemma LargeMultiple(k: int, m: int)
    requires k != 0
    ensures Abs(k * m) >= Abs(m)
  {
    if k >= 1 {
      assert m >= 0 ==> k * m >= m;
      assert m < 0 ==> k * m <= m;
    } else {
      assert m >= 0 ==> k * m <= -m;
      assert m < 0 ==> k * m >= -m;
    }
  }

  lemma SmallMultiple(k: int, m: int)
    requires m != 0 && Abs(k * m) < Abs(m)
    ensures k == 0
  {
    if k != 0 {
      LargeMultiple(k, m);
    }
  }

  lemma TruncExact(q: int, b: int)
    requires b != 0
    ensures TruncDiv(q * b, b) == q && TruncMod(q * b, b) == 0
  {
    TruncLaws(q * b, b);
    var k := q - TruncDiv(q * b, b);
    assert k * b == TruncMod(q * b, b);
    SmallMultiple(k, b);
  }

  // ----- divisibility -----

  ghost predicate Divides(d: int, n: int) {
    exists k :: Times(k, d) == n
  }

  function Times(k: int, d: int): int {
    k * d
  }

  lemma DividesIntro(k: int, d: int, n: int)
    requires n == k * d
    ensures Divides(d, n)
  {
    assert Times(k, d) == n;
  }

  lemma DividesCombination(d: int, a: int, b: int, q: int)
    requires Divides(d, a) && Divides(d, b)
    ensures Divides(d, a + q * b)
  {
    var i :| Times(i, d) == a;
    var j :| Times(j, d) == b;
    assert (i + q * j) * d == i * d + q * (j * d);
    DividesIntro(i + q * j, d, a + q * b);
  }

  lemma DividesAbs(d: int, n: int)
    ensures Divides(d, n) <==> Divides(d, Abs(n))
    ensures Divides(d, n) <==> Divides(Abs(d), n)
  {
    if Divides(d, n) {
      var k :| Times(k, d) == n;
      DividesIntro(-k, d, -n);
      DividesIntro(-k, -d, n);
    }
    if Divides(d, Abs(n)) {
      var k :| Times(k, d) == Abs(n);
      DividesIntro(-k, d, -Abs(n));
    }
    if Divides(Abs(d), n) {
      var k :| Times(k, Abs(d)) == n;
      assert (-k) * (-Abs(d)) == n;
      DividesIntro(-k, -Abs(d), n);
    }
  }

  /** `g` is the greatest common divisor in the order of divisibility. */
  ghost predicate IsGcd(g: int, a: int, b: int) {
    g >= 0 && Divides(g, a) && Divides(g, b) && forall d :: Divides(d, a) && Divides(d, b) ==> Divides(d, g)
  }

  lemma GcdIsUnique(g: int, h: int, a: int, b: int)
    requires IsGcd(g, a, b) && IsGcd(h, a, b)
    ensures g == h
  {
    var i :| Times(i, h) == g;
    var j :| Times(j, g) == h;
    if g != 0 {
      assert (i * j) * g == i * (j * g) == g == 1 * g;
      MulCancel(i * j, 1, g);
      assert i == 1 || i == -1 by {
        SmallFactor(i, j);
      }
    }
  }

  lemma SmallFactor(i: int, j: int)
    requires i * j == 1
    ensures i == 1 || i == -1
  {
    assert Abs(i) * Abs(j) == 1 by {
      assert (-i) * (-j) == i * j && (-i) * j == -(i * j) && i * (-j) == -(i * j);
    }
    assert Abs(i) >= 1 && Abs(j) >= 1;
    assert Abs(i) * Abs(j) >= Abs(i);
  }

  /** Euclid's algorithm on magnitudes. */
  function Gcd(a: nat, b: nat): (g: nat)
    decreases b
  {
    if b == 0 then a else Gcd(b, a % b)
  }

  lemma {:induction false} GcdIsGcd(a: nat, b: nat)
    ensures IsGcd(Gcd(a, b), a, b)
    ensures a > 0 || b > 0 ==> Gcd(a, b) > 0
    decreases b
  {
    if b == 0 {
      DividesIntro(1, a, a);
      DividesIntro(0, a, 0);
    } else {
      var r := a % b;
      GcdIsGcd(b, r);
      assert a == r + (a / b) * b;
      var g := Gcd(b, r);
      DividesCombination(g, r, b, a / b);
      forall d | Divides(d, a) && Divides(d, b)
        ensures Divides(d, g)
      {
        DividesCombination(d, a, b, -(a / b));
        assert a + -(a / b) * b == r;
      }
    }
  }

  /** The result does not depend on the signs of the operands. */
  lemma SignlessGcd(g: int, a: int, b: int)
    ensures IsGcd(g, a, b) <==> IsGcd(g, Abs(a), Abs(b))
  {
    forall d
      ensures Divides(d, a) <==> Divides(d, Abs(a))
      ensures Divides(d, b) <==> Divides(d, Abs(b))
    {
      DividesAbs(d, a);
      DividesAbs(d, b);
    }
  }

  /** The runtime loop. */
  method RuntimeGcd(x: int, y: int) returns (r: int)
    ensures IsGcd(r, x, y)
    ensures r == Gcd(Abs(x), Abs(y))
  {
    var a, b := x, y;
    if a < 0 {
      a := -a;
    }
    if b < 0 {
      b := -b;
    }
    while b != 0
      invariant a >= 0 && b >= 0
      invariant Gcd(a, b) == Gcd(Abs(x), Abs(y))
      decreases b
    {
      var rest := TruncMod(a, b);
      a := b;
      b := rest;
    }
    GcdIsGcd(Abs(x), Abs(y));
    SignlessGcd(a, x, y);
    return a;
  }

  /** The compile-time recursion, which keeps signs until its last step. */
  function StaticGcd(a: int, b: int): (g: int)
    decreases Abs(b)
  {
    if b == 0 then Abs(a)
    else
      TruncLaws(a, b);
      StaticGcd(b, TruncMod(a, b))
  }

  /** The compile-time and the runtime algorithm agree on every pair, whatever the signs. */
  lemma {:induction false} StaticGcdAgrees(a: int, b: int)
    ensures StaticGcd(a, b) == Gcd(Abs(a), Abs(b))
    decreases Abs(b)
  {
    if b != 0 {
      TruncLaws(a, b);
      StaticGcdAgrees(b, TruncMod(a, b));
      assert Abs(TruncMod(a, b)) == Abs(a) % Abs(b);
    }
  }

  /** The variadic overload, which stops as soon as the running divisor is one. */
  function VariadicGcd(a: int, b: int, rest: seq<int>): (g: int)
    decreases |rest|
  {
    var g := Gcd(Abs(a), Abs(b));
    if rest == [] then g
    else if g == 1 then 1
    else VariadicGcd(g, rest[0], rest[1..])
  }

  ghost predicate DividesAll(d: int, s: seq<int>) {
    forall i :: 0 <= i < |s| ==> Divides(d, s[i])
  }

  /** Stopping early is harmless: the result is the greatest common divisor of all the arguments. */
  lemma {:induction false} VariadicGcdIsGcd(a: int, b: int, rest: seq<int>)
    ensures VariadicGcd(a, b, rest) >= 0
    ensures DividesAll(VariadicGcd(a, b, rest), [a, b] + rest)
    ensures forall d :: DividesAll(d, [a, b] + rest) ==> Divides(d, VariadicGcd(a, b, rest))
    decreases |rest|
  {
    var g, all := Gcd(Abs(a), Abs(b)), [a, b] + rest;
    var r := VariadicGcd(a, b, rest);
    GcdIsGcd(Abs(a), Abs(b));
    SignlessGcd(g, a, b);
    forall d | DividesAll(d, all)
      ensures Divides(d, g)
      ensures rest != [] ==> DividesAll(d, [g, rest[0]] + rest[1..])
    {
      assert all[0] == a && all[1] == b;
      assert forall i :: 0 <= i < |rest| ==> all[i + 2] == rest[i];
    }
    if rest == [] {
    } else if g == 1 {
      forall i | 0 <= i < |all|
        ensures Divides(1, all[i])
      {
        DividesIntro(all[i], 1, all[i]);
      }
    } else {
      var next := [g, rest[0]] + rest[1..];
      VariadicGcdIsGcd(g, rest[0], rest[1..]);
      assert next[0] == g;
      DividesTransitive(r, g, a);
      DividesTransitive(r, g, b);
      assert forall i :: 0 <= i < |rest| ==> next[i + 1] == rest[i] == all[i + 2];
    }
  }

  lemma DividesTransitive(d: int, m: int, n: int)
    requires Divides(d, m) && Divides(m, n)
    ensures Divides(d, n)
  {
    var i :| Times(i, d) == m;
    var j :| Times(j, m) == n;
    assert (j * i) * d == j * (i * d);
    DividesIntro(j * i, d, n);
  }

  // ----- least common multiples -----

  function Lcm(a: nat, b: nat): (l: nat) {
    if a == 0 || b == 0 then 0
    else
      GcdIsGcd(a, b);
      var q: nat := a / Gcd(a, b);
      ProductIsNat(q, b);
      q * b
  }

  lemma ProductIsNat(x: nat, y: nat)
    ensures x * y >= 0
  {
  }

  /** `l` is a common multiple, and every common multiple is a multiple of it. */
  ghost predicate IsLcm(l: int, a: int, b: int) {
    l >= 0 && Divides(a, l) && Divides(b, l) && forall m :: Divides(a, m) && Divides(b, m) ==> Divides(l, m)
  }

  lemma DivideOut(g: nat, a: nat) returns (k: nat)
    requires g > 0 && Divides(g, a)
    ensures a == k * g && k == a / g
    ensures a > 0 ==> k > 0
  {
    var i :| Times(i, g) == a;
    k := a / g;
    assert a == k * g + a % g;
    assert (i - k) * g == a % g;
    SmallMultiple(i - k, g);
  }

  /** Bezout coefficients: the greatest common divisor is an integer combination. */
  lemma {:induction false} Bezout(a: nat, b: nat) returns (s: int, t: int)
    ensures s * a + t * b == Gcd(a, b)
    decreases b
  {
    if b == 0 {
      s, t := 1, 0;
    } else {
      var u, v := Bezout(b, a % b);
      s, t := v, u - (a / b) * v;
      BezoutStep(a, b, a / b, a % b, u, v);
    }
  }

  lemma BezoutStep(a: int, b: int, q: int, r: int, u: int, v: int)
    requires a == q * b + r
    ensures v * a + (u - q * v) * b == u * b + v * r
  {
    assert v * a == v * (q * b) + v * r;
    assert v * (q * b) == (q * v) * b;
  }

  /** With a == i*g and b == j*g for g = gcd(a, b), every common multiple of a and b is a multiple of i*b. */
  lemma CommonMultiple(a: nat, b: nat, i: int, j: int, m: int)
    requires a > 0 && b > 0
    requires a == i * Gcd(a, b) && b == j * Gcd(a, b)
    requires Divides(a, m) && Divides(b, m)
    ensures Divides(i * b, m)
  {
    var g := Gcd(a, b);
    GcdIsGcd(a, b);
    var s, t := Bezout(a, b);
    var x :| Times(x, a) == m;
    var y :| Times(y, b) == m;
    var k := s * y + t * x;
    assert m * g == k * (a * b) by {
      Distribute(m, s * a, t * b);
      Shuffle(s, a, y, b);
      Shuffle(t, b, x, a);
      Distribute(a * b, s * y, t * x);
    }
    assert m * g == (k * (i * b)) * g by {
      Shuffle(i, g, b, 1);
      Regroup(k, i * b, g);
    }
    MulCancel(m, k * (i * b), g);
    DividesIntro(k, i * b, m);
  }

  lemma Regroup(x: int, y: int, z: int)
    ensures x * (y * z) == (x * y) * z
  {
  }

  lemma Distribute(m: int, x: int, y: int)
    ensures m * (x + y) == x * m + y * m
  {
  }

  lemma Shuffle(w: int, x: int, y: int, z: int)
    ensures (w * x) * (y * z) == (w * y) * (x * z)
  {
    calc {
      (w * x) * (y * z);
      w * (x * (y * z));
      { assert x * (y * z) == y * (x * z); }
      w * (y * (x * z));
      (w * y) * (x * z);
    }
  }

  lemma LcmIsLcm(a: nat, b: nat)
    ensures IsLcm(Lcm(a, b), a, b)
    ensures Lcm(a, b) * Gcd(a, b) == a * b
    ensures a > 0 && b > 0 ==> Lcm(a, b) > 0
  {
    if a == 0 || b == 0 {
      DividesIntro(0, a, 0);
      DividesIntro(0, b, 0);
      forall m | Divides(a, m) && Divides(b, m)
        ensures Divides(0, m)
      {
        var k :| Times(k, 0) == m;
      }
    } else {
      var g := Gcd(a, b);
      GcdIsGcd(a, b);
      var i := DivideOut(g, a);
      var j := DivideOut(g, b);
      Shuffle(i, g, b, 1);
      Shuffle(i, j, g, 1);
      assert i * b == j * a;
      DividesIntro(j, a, i * b);
      DividesIntro(i, b, i * b);
      forall m | Divides(a, m) && Divides(b, m)
        ensures Divides(i * b, m)
      {
        CommonMultiple(a, b, i, j, m);
      }
      LargeMultiple(i, b);
      assert i * b >= 0;
    }
  }

  /** The runtime function; it returns zero when either operand is zero. */
  method RuntimeLcm(x: int, y: int) returns (r: int)
    ensures r == Lcm(Abs(x), Abs(y))
    ensures IsLcm(r, Abs(x), Abs(y))
  {
    LcmIsLcm(Abs(x), Abs(y));
    var a, b := x, y;
    if a < 0 {
      a := -a;
    }
    if b < 0 {
      b := -b;
    }
    if a == 0 || b == 0 {
      return 0;
    }
    var g := RuntimeGcd(a, b);
    GcdIsGcd(a, b);
    return TruncDiv(a, g) * b;
  }
}
