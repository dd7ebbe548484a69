/** Unsigned words of any width, as numbers below 2^width, with their bits and bitwise operators. */
module Words {
  import opened Numbers

  function Pow2(n: nat): (p: nat)
    ensures p > 0
  {
    if n == 0 then 1 else 2 * Pow2(n - 1)
  }

  function Bit(x: nat, i: nat): bool {
    if i == 0 then x % 2 == 1 else Bit(x / 2, i - 1)
  }

  function Or(x: nat, y: nat): nat {
    if x == 0 && y == 0 then 0 else 2 * Or(x / 2, y / 2) + BitNat(x % 2 == 1 || y % 2 == 1)
  }

  function And(x: nat, y: nat): nat {
    if x == 0 || y == 0 then 0 else 2 * And(x / 2, y / 2) + BitNat(x % 2 == 1 && y % 2 == 1)
  }

  function ShiftRight(x: nat, n: nat): nat {
    if n == 0 then x else ShiftRight(x / 2, n - 1)
  }

  /** Two's complement negation at width `w`. */
  function Negate(w: nat, x: nat): nat
    requires x < Pow2(w)
  {
    if x == 0 then 0 else Pow2(w) - x
  }

  // ----- the operators, bit by bit -----

  lemma {:induction false} OrBit(x: nat, y: nat, i: nat)
    ensures Bit(Or(x, y), i) <==> Bit(x, i) || Bit(y, i)
    decreases i
  {
    if x == 0 && y == 0 {
      ZeroBit(i);
    } else if i > 0 {
      OrBit(x / 2, y / 2, i - 1);
    }
  }

  lemma {:induction false} AndBit(x: nat, y: nat, i: nat)
    ensures Bit(And(x, y), i) <==> Bit(x, i) && Bit(y, i)
    decreases i
  {
    if x == 0 || y == 0 {
      ZeroBit(i);
    } else if i > 0 {
      AndBit(x / 2, y / 2, i - 1);
    }
  }

  lemma {:induction false} ShiftBit(x: nat, n: nat, i: nat)
    ensures Bit(ShiftRight(x, n), i) <==> Bit(x, n + i)
  {
    if n > 0 {
      ShiftBit(x / 2, n - 1, i);
    }
  }

  lemma {:induction false} ZeroBit(i: nat)
    ensures !Bit(0, i)
  {
    if i > 0 {
      ZeroBit(i - 1);
    }
  }

  /** A word is determined by its bits. */
  lemma {:induction false} BitsDetermine(x: nat, y: nat)
    requires forall i: nat :: Bit(x, i) <==> Bit(y, i)
    ensures x == y
    decreases x + y
  {
    assert Bit(x, 0) <==> Bit(y, 0);
    if x + y > 1 {
      forall i: nat
        ensures Bit(x / 2, i) <==> Bit(y / 2, i)
      {
        assert Bit(x, i + 1) <==> Bit(y, i + 1);
      }
      BitsDetermine(x / 2, y / 2);
    }
  }

  /** The low `n` ones are the bits below `n`. */
  lemma {:induction false} OnesBit(n: nat, i: nat)
    ensures Bit(Pow2(n) - 1, i) <==> i < n
    decreases i
  {
    if n == 0 {
      ZeroBit(i);
    } else if i > 0 {
      assert (Pow2(n) - 1) / 2 == Pow2(n - 1) - 1;
      OnesBit(n - 1, i - 1);
    }
  }

  /** Shifting right divides. */
  lemma {:induction false} ShiftDivides(x: nat, n: nat)
    ensures ShiftRight(x, n) * Pow2(n) <= x < (ShiftRight(x, n) + 1) * Pow2(n)
  {
    if n > 0 {
      ShiftDivides(x / 2, n - 1);
      Doubled(ShiftRight(x, n), Pow2(n - 1));
      Doubled(ShiftRight(x, n) + 1, Pow2(n - 1));
    }
  }

  lemma Doubled(a: nat, b: nat)
    ensures a * (2 * b) == 2 * (a * b)
  {
  }

  lemma {:induction false} Pow2Grows(m: nat, n: nat)
    requires m <= n
    ensures Pow2(m) <= Pow2(n)
    ensures m < n ==> Pow2(m) < Pow2(n)
  {
    if m < n {
      Pow2Grows(m, n - 1);
    }
  }

  lemma {:induction false} AndSelf(x: nat)
    ensures And(x, x) == x
  {
    if x > 0 {
      AndSelf(x / 2);
    }
  }

  /** A word and its complement share no bit. */
  lemma {:induction false} AndComplement(n: nat, x: nat)
    requires x < Pow2(n)
    ensures And(x, Pow2(n) - 1 - x) == 0
  {
    if n > 0 {
      assert x / 2 < Pow2(n - 1) && (Pow2(n) - 1 - x) / 2 == Pow2(n - 1) - 1 - x / 2;
      AndComplement(n - 1, x / 2);
    }
  }

  function Remainder(x: nat, m: nat): nat
    requires m > 0
  {
    x % m
  }

  lemma {:induction false} MaskIsRemainder(x: nat, n: nat)
    ensures And(x, Pow2(n) - 1) == Remainder(x, Pow2(n))
  {
    hide *;
    if n > 0 {
      var p := Pow2(n - 1);
      Pow2Doubles(n - 1);
      MaskIsRemainder(x / 2, n - 1);
      HalvesRemainder(x, p);
      MaskStep(x, p);
    } else {
      MaskOfNothing(x);
    }
  }

  lemma Pow2Doubles(n: nat)
    ensures Pow2(n + 1) == 2 * Pow2(n)
  {
  }

  lemma MaskOfNothing(x: nat)
    ensures And(x, Pow2(0) - 1) == Remainder(x, Pow2(0))
  {
    assert x % 1 == 0;
  }

  lemma HalvesRemainder(x: nat, m: nat)
    requires m > 0
    ensures Remainder(x, 2 * m) == 2 * Remainder(x / 2, m) + x % 2
  {
    HalveRemainder(x, m);
  }

  /** Masking with a power of two less one is the remainder. */
  lemma MaskIsModulo(x: nat, n: nat)
    ensures And(x, Pow2(n) - 1) == x % Pow2(n)
  {
    MaskIsRemainder(x, n);
    hide And, Pow2;
  }

  lemma MaskStep(x: nat, p: nat)
    requires p > 0
    ensures And(x, 2 * p - 1) == 2 * And(x / 2, p - 1) + x % 2
  {
    assert (2 * p - 1) / 2 == p - 1 && (2 * p - 1) % 2 == 1;
  }

  lemma HalveRemainder(x: nat, m: nat)
    requires m > 0
    ensures x % (2 * m) == 2 * (x / 2 % m) + x % 2
  {
    var q, r := x / 2 / m, x / 2 % m;
    assert x / 2 == m * q + r;
    assert x == (2 * m) * q + (2 * r + x % 2) by {
      assert (2 * m) * q == 2 * (m * q);
    }
    QuotientIs(x, 2 * m, q, 2 * r + x % 2);
  }

  lemma HalveQuotient(x: nat, m: nat)
    requires m > 0 && x % 2 == 0
    ensures x / (2 * m) == x / 2 / m
  {
    var q, r := x / 2 / m, x / 2 % m;
    assert x / 2 == m * q + r;
    assert x == (2 * m) * q + 2 * r by {
      assert (2 * m) * q == 2 * (m * q);
    }
    QuotientIs(x, 2 * m, q, 2 * r);
  }
}

/** Powers of two, logarithms and set-bit searches at any unsigned width. */
module PowersOfTwo {
  import opened Words

  ghost predicate IsPow2(x: nat) {
    exists n: nat :: x == Pow2(n)
  }

  /** The position of the highest set bit. */
  function Log2(v: nat): (l: nat)
    requires v > 0
    ensures Pow2(l) <= v < Pow2(l + 1)
  {
    if v == 1 then 0 else 1 + Log2(v / 2)
  }

  /** The position of the lowest set bit. */
  function TrailingZeros(v: nat): (z: nat)
    requires v > 0
  {
    if v % 2 == 1 then 0 else 1 + TrailingZeros(v / 2)
  }

  lemma Log2Within(w: nat, v: nat)
    requires 0 < v < Pow2(w)
    ensures Log2(v) < w
  {
    if w <= Log2(v) {
      Pow2Grows(w, Log2(v));
    }
  }

  lemma {:induction false} BitsUpToLog2(v: nat, i: nat)
    requires v > 0
    ensures Bit(v, Log2(v))
    ensures Bit(v, i) ==> i <= Log2(v)
  {
    if v == 1 {
      if i > 0 {
        ZeroBit(i - 1);
      }
    } else {
      BitsUpToLog2(v / 2, if i > 0 then i - 1 else 0);
    }
  }

  lemma {:induction false} BitsFromTrailingZeros(v: nat, i: nat)
    requires v > 0
    ensures Bit(v, TrailingZeros(v))
    ensures Bit(v, i) ==> i >= TrailingZeros(v)
  {
    if v % 2 == 0 {
      BitsFromTrailingZeros(v / 2, if i > 0 then i - 1 else 0);
    }
  }

  // ----- smearing -----

  /** Some bit of `v` among the `n` from position `j` up is set. */
  ghost predicate SetWithin(v: nat, j: nat, n: nat) {
    exists p: nat :: j <= p < j + n && Bit(v, p)
  }

  lemma SetWithinTwice(v: nat, j: nat, n: nat)
    ensures SetWithin(v, j, 2 * n) <==> SetWithin(v, j, n) || SetWithin(v, n + j, n)
  {
  }

  /** One round of smearing doubles the window every bit looks at. */
  lemma SmearStep(v: nat, u: nat, i: nat)
    requires forall j: nat :: Bit(u, j) <==> SetWithin(v, j, i)
    ensures forall j: nat :: Bit(Or(u, ShiftRight(u, i)), j) <==> SetWithin(v, j, 2 * i)
  {
    hide *;
    forall j: nat
      ensures Bit(Or(u, ShiftRight(u, i)), j) <==> SetWithin(v, j, 2 * i)
    {
      OrBit(u, ShiftRight(u, i), j);
      ShiftBit(u, i, j);
      SetWithinTwice(v, j, i);
      assert Bit(u, i + j) <==> SetWithin(v, i + j, i);
    }
  }

  lemma SetFromLog2(v: nat, j: nat, n: nat)
    requires v > 0 && Log2(v) < n
    ensures SetWithin(v, j, n) <==> j <= Log2(v)
  {
    BitsUpToLog2(v, 0);
    if SetWithin(v, j, n) {
      var p: nat :| j <= p < j + n && Bit(v, p);
      BitsUpToLog2(v, p);
    }
  }

  lemma NothingSet(j: nat, n: nat)
    ensures !SetWithin(0, j, n)
  {
    forall p: nat
      ensures !Bit(0, p)
    {
      ZeroBit(p);
    }
  }

  /** All ones up to the highest set bit of `v`. */
  function OnesUpTo(v: nat): nat {
    if v == 0 then 0 else Pow2(Log2(v) + 1) - 1
  }

  /** Once the window covers the word, smearing has filled every bit below the highest one. */
  lemma SmearedIsOnes(w: nat, v: nat, u: nat, i: nat)
    requires v < Pow2(w) && i >= w
    requires forall j: nat :: Bit(u, j) <==> SetWithin(v, j, i)
    ensures u == OnesUpTo(v)
  {
    hide Pow2, Log2, SetWithin, Bit;
    forall j: nat
      ensures Bit(u, j) <==> Bit(OnesUpTo(v), j)
    {
      if v == 0 {
        NothingSet(j, i);
        ZeroBit(j);
      } else {
        OnesBit(Log2(v) + 1, j);
        Log2Within(w, v);
        SetFromLog2(v, j, i);
      }
    }
    BitsDetermine(u, OnesUpTo(v));
  }

  lemma SmearBegins(v: nat)
    ensures forall j: nat :: Bit(v, j) <==> SetWithin(v, j, 1)
  {
  }

  /** The loop shared by the rounding functions. */
  method Smear(w: nat, v: nat) returns (u: nat)
    requires v < Pow2(w)
    ensures u == OnesUpTo(v)
  {
    u := v;
    var i := 1;
    SmearBegins(v);
    while i < w
      invariant i > 0
      invariant forall j: nat :: Bit(u, j) <==> SetWithin(v, j, i)
    {
      SmearStep(v, u, i);
      u := Or(u, ShiftRight(u, i));
      i := i * 2;
    }
    SmearedIsOnes(w, v, u, i);
  }

  /** Without its lower half, a run of ones is its top bit. */
  method TopOfOnes(n: nat, u: nat) returns (p: nat)
    requires n > 0 && u == Pow2(n) - 1
    ensures p == Pow2(n - 1)
  {
    assert ShiftRight(u, 1) == ShiftRight(u / 2, 0) == u / 2 == Pow2(n - 1) - 1;
    p := u - ShiftRight(u, 1);
  }

  /** `p` is the least power of two not below `v`. */
  ghost predicate LeastPowerFrom(v: nat, p: nat) {
    IsPow2(p) && v <= p && forall n: nat :: v <= Pow2(n) ==> p <= Pow2(n)
  }

  /** The least power of two not below the value, whenever it fits in the width; zero for the other values. */
  method NextPowerOfTwo(w: nat, v: nat) returns (p: nat)
    requires w > 0 && v < Pow2(w)
    ensures v <= Pow2(w - 1) ==> LeastPowerFrom(v, p)
    ensures v > Pow2(w - 1) ==> p == 0
  {
    hide LeastPowerFrom;
    if v == 0 {
      LeastIsOne();
      return 1;
    }
    var u := v - 1;
    u := Smear(w, u);
    p := (u + 1) % Pow2(w);
    LeastPower(w, v);
  }

  lemma LeastIsOne()
    ensures LeastPowerFrom(0, 1)
  {
    assert Pow2(0) == 1;
  }

  /** The exponent of the least power of two not below `v`. */
  function CeilLog2(v: nat): nat
    requires v > 0
  {
    if v == 1 then 0 else Log2(v - 1) + 1
  }

  lemma CeilLog2IsLeast(v: nat)
    requires v > 0
    ensures LeastPowerFrom(v, Pow2(CeilLog2(v)))
  {
    var k := CeilLog2(v);
    forall n: nat | v <= Pow2(n)
      ensures Pow2(k) <= Pow2(n)
    {
      if n < k {
        Pow2Grows(n, k - 1);
      } else {
        Pow2Grows(k, n);
      }
    }
  }

  lemma CeilLog2Within(w: nat, v: nat)
    requires w > 0 && 0 < v < Pow2(w)
    ensures v <= Pow2(w - 1) ==> CeilLog2(v) < w
    ensures v > Pow2(w - 1) ==> CeilLog2(v) == w
  {
    if v > 1 {
      Log2Within(w, v - 1);
      if v <= Pow2(w - 1) {
        Log2Within(w - 1, v - 1);
      } else if CeilLog2(v) < w {
        Pow2Grows(CeilLog2(v), w - 1);
      }
    } else {
      Pow2Grows(0, w - 1);
    }
  }

  lemma LeastPower(w: nat, v: nat)
    requires w > 0 && 0 < v < Pow2(w)
    ensures v <= Pow2(w - 1) ==> LeastPowerFrom(v, (OnesUpTo(v - 1) + 1) % Pow2(w))
    ensures v > Pow2(w - 1) ==> (OnesUpTo(v - 1) + 1) % Pow2(w) == 0
  {
    CeilLog2IsLeast(v);
    CeilLog2Within(w, v);
    assert OnesUpTo(v - 1) + 1 == Pow2(CeilLog2(v));
    hide *;
    if v <= Pow2(w - 1) {
      Pow2Grows(CeilLog2(v), w);
      SmallRemainder(Pow2(CeilLog2(v)), Pow2(w));
    } else {
      NoRemainder(Pow2(w));
    }
  }

  lemma NoRemainder(m: nat)
    requires m > 0
    ensures m % m == 0
  {
  }

  lemma SmallRemainder(x: nat, m: nat)
    requires x < m
    ensures x % m == x
  {
  }

  /** The greatest power of two not above the value. */
  method PreviousPowerOfTwo(w: nat, v: nat) returns (p: nat)
    requires v < Pow2(w)
    ensures v > 0 ==> p == Pow2(Log2(v))
    ensures v == 0 ==> p == 0
  {
    if v == 0 {
      return 0;
    }
    var u := Smear(w, v);
    p := TopOfOnes(Log2(v) + 1, u);
  }

  lemma GreatestPower(v: nat, n: nat)
    requires v > 0 && Pow2(n) <= v
    ensures Pow2(n) <= Pow2(Log2(v)) <= v
  {
    if n > Log2(v) {
      Pow2Grows(Log2(v) + 1, n);
    } else {
      Pow2Grows(n, Log2(v));
    }
  }

  method ExtractHighestSetBit(w: nat, v: nat) returns (p: nat)
    requires v < Pow2(w)
    ensures v > 0 ==> p == Pow2(Log2(v))
    ensures v == 0 ==> p == 0
  {
    if v == 0 {
      return 0;
    }
    var u := Smear(w, v);
    p := TopOfOnes(Log2(v) + 1, u);
  }

  // ----- halving searches -----

  lemma {:induction false} ShiftLog2(v: nat, n: nat)
    requires v > 0
    ensures ShiftRight(v, n) == 0 <==> Log2(v) < n
    ensures ShiftRight(v, n) > 0 ==> Log2(ShiftRight(v, n)) == Log2(v) - n
  {
    if n > 0 {
      if v == 1 {
        ShiftZero(n - 1);
      } else {
        ShiftLog2(v / 2, n - 1);
      }
    }
  }

  lemma {:induction false} ShiftZero(n: nat)
    ensures ShiftRight(0, n) == 0
  {
    if n > 0 {
      ShiftZero(n - 1);
    }
  }

  lemma {:induction false} ShiftTrailingZeros(v: nat, n: nat)
    requires v > 0 && n <= TrailingZeros(v)
    ensures ShiftRight(v, n) > 0 && TrailingZeros(ShiftRight(v, n)) == TrailingZeros(v) - n
  {
    if n > 0 {
      ShiftTrailingZeros(v / 2, n - 1);
    }
  }

  /** The low `n` bits are all clear exactly when at least `n` zeros trail. */
  lemma LowBitsClear(v: nat, n: nat)
    requires v > 0
    ensures And(v, Pow2(n) - 1) == 0 <==> n <= TrailingZeros(v)
  {
    var z, low := TrailingZeros(v), And(v, Pow2(n) - 1);
    BitsFromTrailingZeros(v, 0);
    AndBit(v, Pow2(n) - 1, z);
    OnesBit(n, z);
    ZeroBit(z);
    if n <= z {
      forall i: nat
        ensures Bit(low, i) <==> Bit(0, i)
      {
        AndBit(v, Pow2(n) - 1, i);
        OnesBit(n, i);
        ZeroBit(i);
        BitsFromTrailingZeros(v, i);
      }
      BitsDetermine(low, 0);
    }
  }

  /** Binary search for the highest set bit: the remaining word always fits in twice the next shift. */
  method CountLeadingZeros(k: nat, v: nat) returns (count: nat)
    requires v < Pow2(Pow2(k))
    ensures v > 0 ==> count + 1 + Log2(v) == Pow2(k)
    ensures v == 0 ==> count == Pow2(k)
  {
    var w := Pow2(k);
    if v == 0 {
      return w;
    }
    var u := v;
    count := 0;
    var i := w / 2;
    ghost var m, span := k, w;
    Log2Within(w, v);
    while i > 0
      invariant span == Pow2(m) && i == span / 2
      invariant u > 0 && Log2(u) < span
      invariant count + span <= w && Log2(v) == Log2(u) + (w - span - count)
      decreases m
    {
      ShiftLog2(u, i);
      if ShiftRight(u, i) == 0 {
        count := count + i;
      } else {
        u := ShiftRight(u, i);
      }
      m, span := m - 1, i;
      i := i / 2;
    }
    assert span == 1;
  }

  /** Binary search for the lowest set bit. */
  method CountTrailingZeros(k: nat, v: nat) returns (count: nat)
    requires v < Pow2(Pow2(k))
    ensures v > 0 ==> count == TrailingZeros(v)
    ensures v == 0 ==> count == Pow2(k)
  {
    var w := Pow2(k);
    if v == 0 {
      return w;
    }
    var u := v;
    count := 0;
    var i := w / 2;
    ghost var m, span := k, w;
    TrailingZerosWithin(w, v);
    while i > 0
      invariant span == Pow2(m) && i == span / 2
      invariant u > 0 && TrailingZeros(u) < span
      invariant TrailingZeros(v) == TrailingZeros(u) + count
      decreases m
    {
      LowBitsClear(u, i);
      if And(u, Pow2(i) - 1) == 0 {
        ShiftTrailingZeros(u, i);
        count := count + i;
        u := ShiftRight(u, i);
      }
      m, span := m - 1, i;
      i := i / 2;
    }
    assert span == 1;
  }

  lemma TrailingZerosWithin(w: nat, v: nat)
    requires 0 < v < Pow2(w)
    ensures TrailingZeros(v) <= Log2(v) < w
  {
    BitsFromTrailingZeros(v, 0);
    BitsUpToLog2(v, TrailingZeros(v));
    Log2Within(w, v);
  }

  method BitWidth(k: nat, v: nat) returns (width: nat)
    requires v < Pow2(Pow2(k))
    ensures v > 0 ==> width == Log2(v) + 1
    ensures v == 0 ==> width == 0
  {
    if v == 0 {
      return 0;
    }
    var zeros := CountLeadingZeros(k, v);
    width := Pow2(k) - zeros;
  }

  method Log2Floor(k: nat, v: nat) returns (l: nat)
    requires v < Pow2(Pow2(k))
    ensures v > 0 ==> l == Log2(v)
    ensures v == 0 ==> l == 0
  {
    if v == 0 {
      return 0;
    }
    var width := BitWidth(k, v);
    l := width - 1;
  }

  /** The smearing loops and the halving searches agree on every value of every width 2^k. */
  method SearchesAgree(k: nat, v: nat) returns (previous: nat, highest: nat, l: nat, lowest: nat, zeros: nat)
    requires 0 < v < Pow2(Pow2(k))
    ensures previous == highest == Pow2(l) && previous <= v < 2 * previous
    ensures lowest == Pow2(zeros) && v % lowest == 0 && v / lowest % 2 == 1
  {
    previous := PreviousPowerOfTwo(Pow2(k), v);
    highest := ExtractHighestSetBit(Pow2(k), v);
    l := Log2Floor(k, v);
    lowest := ExtractLowestSetBit(Pow2(k), v);
    zeros := CountTrailingZeros(k, v);
    OddPart(v);
  }

  lemma {:induction false} OddPart(v: nat)
    requires v > 0
    ensures v % Pow2(TrailingZeros(v)) == 0 && v / Pow2(TrailingZeros(v)) % 2 == 1
  {
    if v % 2 == 1 {
      assert v / 1 == v && v % 1 == 0;
    } else {
      OddPart(v / 2);
      var p := Pow2(TrailingZeros(v / 2));
      HalveRemainder(v, p);
      HalveQuotient(v, p);
    }
  }

  // ----- isolating and recognising single bits -----

  /** A word ANDed with its two's complement keeps only the lowest set bit. */
  lemma {:induction false} LowestBit(w: nat, u: nat)
    requires 0 < u < Pow2(w)
    ensures And(u, Pow2(w) - u) == Pow2(TrailingZeros(u))
  {
    var n := Pow2(w) - u;
    assert w > 0 && Pow2(w) == 2 * Pow2(w - 1);
    if u % 2 == 1 {
      assert n / 2 == Pow2(w - 1) - 1 - u / 2;
      AndComplement(w - 1, u / 2);
    } else {
      assert n / 2 == Pow2(w - 1) - u / 2;
      LowestBit(w - 1, u / 2);
    }
  }

  method ExtractLowestSetBit(w: nat, v: nat) returns (p: nat)
    requires v < Pow2(w)
    ensures v > 0 ==> p == Pow2(TrailingZeros(v))
    ensures v == 0 ==> p == 0
  {
    p := And(v, Negate(w, v));
    if v > 0 {
      LowestBit(w, v);
    }
  }

  /** Clearing the lowest set bit leaves nothing exactly for the powers of two. */
  lemma {:induction false} SingleBit(u: nat)
    requires u > 0
    ensures And(u, u - 1) == 0 <==> u == Pow2(Log2(u))
  {
    if u % 2 == 1 {
      assert (u - 1) / 2 == u / 2;
      AndSelf(u / 2);
    } else {
      assert (u - 1) / 2 == u / 2 - 1;
      SingleBit(u / 2);
    }
  }

  /** The bit test for powers of two. */
  predicate HasSingleBit(v: nat) {
    v != 0 && And(v, v - 1) == 0
  }

  method IsPowerOfTwo(v: int) returns (r: bool)
    ensures r <==> v >= 0 && IsPow2(v)
  {
    if v < 0 {
      return false;
    }
    r := HasSingleBit(v);
    if v > 0 {
      SingleBit(v);
      if IsPow2(v) {
        var n: nat :| v == Pow2(n);
        GreatestPower(v, n);
        assert v == Pow2(Log2(v));
      }
    }
  }
}
