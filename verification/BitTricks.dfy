/** Words as sequences of bits, least significant first. */
module BitSequences {

  function Bits8(v: bv8): (s: seq<bool>)
    ensures |s| == 8
  {
    [v & 0x01 != 0, v & 0x02 != 0, v & 0x04 != 0, v & 0x08 != 0,
     v & 0x10 != 0, v & 0x20 != 0, v & 0x40 != 0, v & 0x80 != 0]
  }

  function Low16(v: bv16): bv8 { (v & 0xFF) as bv8 }
  function High16(v: bv16): bv8 { (v >> 8) as bv8 }
  function Low32(v: bv32): bv16 { (v & 0xFFFF) as bv16 }
  function High32(v: bv32): bv16 { (v >> 16) as bv16 }
  function Low64(v: bv64): bv32 { (v & 0xFFFF_FFFF) as bv32 }
  function High64(v: bv64): bv32 { (v >> 32) as bv32 }

  function Bits16(v: bv16): (s: seq<bool>)
    ensures |s| == 16
  {
    Bits8(Low16(v)) + Bits8(High16(v))
  }

  function Bits32(v: bv32): (s: seq<bool>)
    ensures |s| == 32
  {
    Bits16(Low32(v)) + Bits16(High32(v))
  }

  function Bits64(v: bv64): (s: seq<bool>)
    ensures |s| == 64
  {
    Bits32(Low64(v)) + Bits32(High64(v))
  }

  function Bytes16(v: bv16): seq<bv8> { [Low16(v), High16(v)] }
  function Bytes32(v: bv32): seq<bv8> { Bytes16(Low32(v)) + Bytes16(High32(v)) }
  function Bytes64(v: bv64): seq<bv8> { Bytes32(Low64(v)) + Bytes32(High64(v)) }

  /** The number of set bits. */
  function Ones(s: seq<bool>): (n: nat)
    ensures n <= |s|
  {
    if s == [] then 0 else Ones(s[..|s| - 1]) + if s[|s| - 1] then 1 else 0
  }

  lemma {:induction false} OnesAppend(s: seq<bool>, t: seq<bool>)
    ensures Ones(s + t) == Ones(s) + Ones(t)
  {
    if t == [] {
      assert s + t == s;
    } else {
      OnesAppend(s, t[..|t| - 1]);
      assert (s + t)[..|s + t| - 1] == s + t[..|t| - 1];
    }
  }

  function Reversed<T>(s: seq<T>): (r: seq<T>)
    ensures |r| == |s|
    ensures forall i :: 0 <= i < |s| ==> r[i] == s[|s| - 1 - i]
  {
    if s == [] then [] else [s[|s| - 1]] + Reversed(s[..|s| - 1])
  }

  lemma ReversedAppend<T>(s: seq<T>, t: seq<T>)
    ensures Reversed(s + t) == Reversed(t) + Reversed(s)
  {
  }

  lemma {:induction false} OnesReversed(s: seq<bool>)
    ensures Ones(Reversed(s)) == Ones(s)
  {
    if s != [] {
      OnesReversed(s[..|s| - 1]);
      OnesAppend([s[|s| - 1]], Reversed(s[..|s| - 1]));
      assert [s[|s| - 1]][..0] == [];
    }
  }

  /** A word is determined by its bits. */
  lemma BitsInjective(v: bv64, w: bv64)
    requires Bits64(v) == Bits64(w)
    ensures v == w
  {
    HalvesEqual(Bits32(Low64(v)), Bits32(High64(v)), Bits32(Low64(w)), Bits32(High64(w)));
    Bits32Injective(Low64(v), Low64(w));
    Bits32Injective(High64(v), High64(w));
  }

  lemma HalvesEqual<T>(a: seq<T>, b: seq<T>, c: seq<T>, d: seq<T>)
    requires |a| == |c| && a + b == c + d
    ensures a == c && b == d
  {
    assert a == (a + b)[..|a|] && b == (a + b)[|a|..];
    assert c == (c + d)[..|c|] && d == (c + d)[|c|..];
  }

  lemma Bits32Injective(v: bv32, w: bv32)
    requires Bits32(v) == Bits32(w)
    ensures v == w
  {
    HalvesEqual(Bits16(Low32(v)), Bits16(High32(v)), Bits16(Low32(w)), Bits16(High32(w)));
    Bits16Injective(Low32(v), Low32(w));
    Bits16Injective(High32(v), High32(w));
  }

  lemma Bits16Injective(v: bv16, w: bv16)
    requires Bits16(v) == Bits16(w)
    ensures v == w
  {
    HalvesEqual(Bits8(Low16(v)), Bits8(High16(v)), Bits8(Low16(w)), Bits8(High16(w)));
    Bits8Injective(Low16(v), Low16(w));
    Bits8Injective(High16(v), High16(w));
  }

  lemma Bits8Injective(v: bv8, w: bv8)
    requires Bits8(v) == Bits8(w)
    ensures v == w
  {
    var s, t := Bits8(v), Bits8(w);
    assert s[0] == t[0] && s[1] == t[1] && s[2] == t[2] && s[3] == t[3];
    assert s[4] == t[4] && s[5] == t[5] && s[6] == t[6] && s[7] == t[7];
  }
}

/** The branch-free population count. */
module PopulationCount {
  import opened BitSequences
  import opened Numbers

  /** Counts bits in each 2-bit lane. */
  function PairCounts(x: bv64): bv64 {
    x - ((x >> 1) & 0x5555555555555555)
  }

  /** Merges into 4-bit lanes. */
  function NibbleCounts(x: bv64): bv64 {
    (x & 0x3333333333333333) + ((x >> 2) & 0x3333333333333333)
  }

  /** Keeps one count per byte. */
  function ByteLaneCounts(x: bv64): bv64 {
    (x + (x >> 4)) & 0x0F0F0F0F0F0F0F0F
  }

  /** Byte k of the result counts the set bits of byte k of the value. */
  function ByteCounts(value: bv64): bv64 {
    ByteLaneCounts(NibbleCounts(PairCounts(value)))
  }

  /** Adds up the bytes of a word. */
  function Gather(x: bv64): bv8 {
    ((x * 0x0101010101010101) >> 56) as bv8
  }

  function Byte0(v: bv64): bv8 { (v & 0xFF) as bv8 }
  function Byte1(v: bv64): bv8 { ((v >> 8) & 0xFF) as bv8 }
  function Byte2(v: bv64): bv8 { ((v >> 16) & 0xFF) as bv8 }
  function Byte3(v: bv64): bv8 { ((v >> 24) & 0xFF) as bv8 }
  function Byte4(v: bv64): bv8 { ((v >> 32) & 0xFF) as bv8 }
  function Byte5(v: bv64): bv8 { ((v >> 40) & 0xFF) as bv8 }
  function Byte6(v: bv64): bv8 { ((v >> 48) & 0xFF) as bv8 }
  function Byte7(v: bv64): bv8 { (v >> 56) as bv8 }

  function Value(b: bv8): nat {
    b as nat
  }

  // ----- the multiplication adds the bytes up -----

  lemma Times101(x: bv64)
    ensures x * 0x101 == x + (x << 8)
  {
    assert x * 0x100 == x << 8;
    assert x * 0x101 == x + x * 0x100;
  }

  lemma Times10001(x: bv64)
    ensures x * 0x10001 == x + (x << 16)
  {
    assert x * 0x10000 == x << 16;
    assert x * 0x10001 == x + x * 0x10000;
  }

  lemma Times100000001(x: bv64)
    ensures x * 0x100000001 == x + (x << 32)
  {
    assert x * 0x100000000 == x << 32;
    assert x * 0x100000001 == x + x * 0x100000000;
  }

  lemma FirstFold(x: bv64)
    requires x & 0xF0F0F0F0F0F0F0F0 == 0
    ensures var y := x + (x << 8);
            && y & 0xE0E0E0E0E0E0E0E0 == 0
            && y >> 56 == (x >> 56) + ((x >> 48) & 0xFF)
            && (y >> 40) & 0xFF == ((x >> 40) & 0xFF) + ((x >> 32) & 0xFF)
            && (y >> 24) & 0xFF == ((x >> 24) & 0xFF) + ((x >> 16) & 0xFF)
            && (y >> 8) & 0xFF == ((x >> 8) & 0xFF) + (x & 0xFF)
  {
  }

  lemma SecondFold(x: bv64)
    requires x & 0xE0E0E0E0E0E0E0E0 == 0
    ensures var y := x + (x << 16);
            && y & 0xC0C0C0C0C0C0C0C0 == 0
            && y >> 56 == (x >> 56) + ((x >> 40) & 0xFF)
            && (y >> 24) & 0xFF == ((x >> 24) & 0xFF) + ((x >> 8) & 0xFF)
  {
  }

  lemma ThirdFold(x: bv64)
    requires x & 0xC0C0C0C0C0C0C0C0 == 0
    ensures (x + (x << 32)) >> 56 == (x >> 56) + ((x >> 24) & 0xFF)
  {
  }

  /** The top byte of the product is the sum of all bytes: the multiplier is a product of three shift-and-add
      doublings, and none of the partial sums can carry. */
  lemma ProductSumsBytes(x: bv64)
    requires x & 0xF0F0F0F0F0F0F0F0 == 0
    ensures (x * 0x0101010101010101) >> 56
         == (x >> 56) + ((x >> 48) & 0xFF) + ((x >> 40) & 0xFF) + ((x >> 32) & 0xFF)
            + ((x >> 24) & 0xFF) + ((x >> 16) & 0xFF) + ((x >> 8) & 0xFF) + (x & 0xFF)
  {
    var y := x + (x << 8);
    var z := y + (y << 16);
    assert x * 0x0101010101010101 == ((x * 0x101) * 0x10001) * 0x100000001;
    Times101(x);
    Times10001(y);
    Times100000001(z);
    FirstFold(x);
    SecondFold(y);
    ThirdFold(z);
  }

  /** Narrowing to a byte commutes with adding. */
  lemma NarrowSum(x: bv64)
    ensures ((((x >> 56) + ((x >> 48) & 0xFF) + ((x >> 40) & 0xFF) + ((x >> 32) & 0xFF)
              + ((x >> 24) & 0xFF) + ((x >> 16) & 0xFF) + ((x >> 8) & 0xFF) + (x & 0xFF))) & 0xFF) as bv8
         == (x >> 56) as bv8 + ((x >> 48) & 0xFF) as bv8 + ((x >> 40) & 0xFF) as bv8 + ((x >> 32) & 0xFF) as bv8
            + ((x >> 24) & 0xFF) as bv8 + ((x >> 16) & 0xFF) as bv8 + ((x >> 8) & 0xFF) as bv8 + (x & 0xFF) as bv8
  {
  }

  lemma TopByteNarrows(r: bv64)
    ensures ((r >> 56) & 0xFF) as bv8 == (r >> 56) as bv8
  {
  }

  function Total(a: bv8, b: bv8, c: bv8, d: bv8, e: bv8, f: bv8, g: bv8, h: bv8): bv8 {
    a + b + c + d + e + f + g + h
  }

  lemma GatherSumsBytes(x: bv64)
    requires x & 0xF0F0F0F0F0F0F0F0 == 0
    ensures Gather(x)
         == Total((x >> 56) as bv8, ((x >> 48) & 0xFF) as bv8, ((x >> 40) & 0xFF) as bv8, ((x >> 32) & 0xFF) as bv8,
                  ((x >> 24) & 0xFF) as bv8, ((x >> 16) & 0xFF) as bv8, ((x >> 8) & 0xFF) as bv8, (x & 0xFF) as bv8)
  {
    ProductSumsBytes(x);
    NarrowSum(x);
    TopByteNarrows(x * 0x0101010101010101);
  }

  // ----- a sum of small bytes, as a number -----

  lemma SmallSum(b: bv8, c: bv8, total: bv8)
    requires total == b + c && Value(b) <= 56 && Value(c) <= 8
    ensures Value(total) == Value(b) + Value(c)
  {
    assert b <= 56 && c <= 8;
  }

  lemma SplitLast(a: bv8, b: bv8, c: bv8, d: bv8, e: bv8, f: bv8, g: bv8, h: bv8, p: bv8, q: bv8)
    requires p == Total(0, a, b, c, d, e, f, g) && q == Total(a, b, c, d, e, f, g, h)
    ensures q == p + h
  {
  }

  lemma TotalOfZeros()
    ensures Value(Total(0, 0, 0, 0, 0, 0, 0, 0)) == 0 && Value(0) == 0
  {
  }

  /** By induction on the number of bytes that may be other than zero: the last one is taken off, the others move up. */
  lemma {:induction false} TotalAsNumber(n: nat, a: bv8, b: bv8, c: bv8, d: bv8, e: bv8, f: bv8, g: bv8, h: bv8)
    requires Value(a) <= 8 && Value(b) <= 8 && Value(c) <= 8 && Value(d) <= 8
    requires Value(e) <= 8 && Value(f) <= 8 && Value(g) <= 8 && Value(h) <= 8
    requires n <= 8 && (n < 8 ==> a == 0) && (n < 7 ==> b == 0) && (n < 6 ==> c == 0) && (n < 5 ==> d == 0)
    requires (n < 4 ==> e == 0) && (n < 3 ==> f == 0) && (n < 2 ==> g == 0) && (n < 1 ==> h == 0)
    ensures Value(Total(a, b, c, d, e, f, g, h))
         == Value(a) + Value(b) + Value(c) + Value(d) + Value(e) + Value(f) + Value(g) + Value(h)
    decreases n
  {
    hide *;
    TotalOfZeros();
    if n > 0 {
      var p := Total(0, a, b, c, d, e, f, g);
      TotalAsNumber(n - 1, 0, a, b, c, d, e, f, g);
      SplitLast(a, b, c, d, e, f, g, h, p, Total(a, b, c, d, e, f, g, h));
      SmallSum(p, h, Total(a, b, c, d, e, f, g, h));
    }
  }

  lemma GatherAsNumber(x: bv64)
    requires x & 0xF0F0F0F0F0F0F0F0 == 0
    requires Value(Byte7(x)) <= 8 && Value(Byte6(x)) <= 8 && Value(Byte5(x)) <= 8 && Value(Byte4(x)) <= 8
    requires Value(Byte3(x)) <= 8 && Value(Byte2(x)) <= 8 && Value(Byte1(x)) <= 8 && Value(Byte0(x)) <= 8
    ensures Value(Gather(x)) == Value(Byte7(x)) + Value(Byte6(x)) + Value(Byte5(x)) + Value(Byte4(x))
                              + Value(Byte3(x)) + Value(Byte2(x)) + Value(Byte1(x)) + Value(Byte0(x))
  {
    hide Value, Gather, Total;
    GatherSumsBytes(x);
    TotalAsNumber(8, (x >> 56) as bv8, ((x >> 48) & 0xFF) as bv8, ((x >> 40) & 0xFF) as bv8, ((x >> 32) & 0xFF) as bv8,
                  ((x >> 24) & 0xFF) as bv8, ((x >> 16) & 0xFF) as bv8, ((x >> 8) & 0xFF) as bv8, (x & 0xFF) as bv8);
  }

  // ----- each byte counts its own bits -----

  /** The bits of a byte, added up. */
  function BitSum(v: bv8): bv8 {
    (v & 1) + ((v >> 1) & 1) + ((v >> 2) & 1) + ((v >> 3) & 1)
    + ((v >> 4) & 1) + ((v >> 5) & 1) + ((v >> 6) & 1) + ((v >> 7) & 1)
  }

  lemma BitSumIsTotal(v: bv8)
    ensures BitSum(v) == Total(v & 1, (v >> 1) & 1, (v >> 2) & 1, (v >> 3) & 1,
                               (v >> 4) & 1, (v >> 5) & 1, (v >> 6) & 1, (v >> 7) & 1)
  {
  }

  lemma ByteCountsFit(v: bv64)
    ensures ByteCounts(v) & 0xF0F0F0F0F0F0F0F0 == 0
  {
  }

  lemma ByteCounts01(v: bv64)
    ensures Byte0(ByteCounts(v)) == BitSum(Byte0(v)) && Byte1(ByteCounts(v)) == BitSum(Byte1(v))
  {
  }

  lemma ByteCounts23(v: bv64)
    ensures Byte2(ByteCounts(v)) == BitSum(Byte2(v)) && Byte3(ByteCounts(v)) == BitSum(Byte3(v))
  {
  }

  lemma ByteCounts45(v: bv64)
    ensures Byte4(ByteCounts(v)) == BitSum(Byte4(v)) && Byte5(ByteCounts(v)) == BitSum(Byte5(v))
  {
  }

  lemma ByteCounts67(v: bv64)
    ensures Byte6(ByteCounts(v)) == BitSum(Byte6(v)) && Byte7(ByteCounts(v)) == BitSum(Byte7(v))
  {
  }

  lemma OneBit(v: bv8, b: bool)
    requires v <= 1 && (b <==> v != 0)
    ensures Value(v) == BitNat(b) <= 8
  {
  }

  /** Set bits in one byte. */
  function OnesIn(v: bv8): nat {
    Ones(Bits8(v))
  }

  lemma BitValues(v: bv8)
    ensures var s := Bits8(v);
            && Value(v & 1) == BitNat(s[0]) <= 8 && Value((v >> 1) & 1) == BitNat(s[1]) <= 8
            && Value((v >> 2) & 1) == BitNat(s[2]) <= 8 && Value((v >> 3) & 1) == BitNat(s[3]) <= 8
            && Value((v >> 4) & 1) == BitNat(s[4]) <= 8 && Value((v >> 5) & 1) == BitNat(s[5]) <= 8
            && Value((v >> 6) & 1) == BitNat(s[6]) <= 8 && Value((v >> 7) & 1) == BitNat(s[7]) <= 8
  {
    var s := Bits8(v);
    OneBit(v & 1, s[0]);
    OneBit((v >> 1) & 1, s[1]);
    OneBit((v >> 2) & 1, s[2]);
    OneBit((v >> 3) & 1, s[3]);
    OneBit((v >> 4) & 1, s[4]);
    OneBit((v >> 5) & 1, s[5]);
    OneBit((v >> 6) & 1, s[6]);
    OneBit((v >> 7) & 1, s[7]);
  }

  lemma BitSumIsOnes(v: bv8)
    ensures Value(BitSum(v)) == OnesIn(v) <= 8
  {
    BitValues(v);
    OnesOfEight(Bits8(v));
    hide Value, BitNat, Bits8, Ones, Total, BitSum;
    BitSumIsTotal(v);
    TotalAsNumber(8, v & 1, (v >> 1) & 1, (v >> 2) & 1, (v >> 3) & 1,
                  (v >> 4) & 1, (v >> 5) & 1, (v >> 6) & 1, (v >> 7) & 1);
  }

  lemma OnesOfEight(s: seq<bool>)
    requires |s| == 8
    ensures Ones(s) == BitNat(s[0]) + BitNat(s[1]) + BitNat(s[2]) + BitNat(s[3])
                     + BitNat(s[4]) + BitNat(s[5]) + BitNat(s[6]) + BitNat(s[7])
  {
    OnesPrefix(s, 1);
    OnesPrefix(s, 2);
    OnesPrefix(s, 3);
    OnesPrefix(s, 4);
    OnesPrefix(s, 5);
    OnesPrefix(s, 6);
    OnesPrefix(s, 7);
    OnesPrefix(s, 8);
    assert s[..8] == s && s[..0] == [];
  }

  lemma OnesPrefix(s: seq<bool>, n: nat)
    requires 0 < n <= |s|
    ensures Ones(s[..n]) == Ones(s[..n - 1]) + BitNat(s[n - 1])
  {
    assert s[..n][..n - 1] == s[..n - 1];
  }

  // ----- the whole word -----

  lemma BytesAreHalves(v: bv64)
    ensures var lo, hi := Low64(v), High64(v);
            && Byte0(v) == Low16(Low32(lo)) && Byte1(v) == High16(Low32(lo))
            && Byte2(v) == Low16(High32(lo)) && Byte3(v) == High16(High32(lo))
            && Byte4(v) == Low16(Low32(hi)) && Byte5(v) == High16(Low32(hi))
            && Byte6(v) == Low16(High32(hi)) && Byte7(v) == High16(High32(hi))
  {
  }

  lemma OnesOf16(v: bv16)
    ensures Ones(Bits16(v)) == OnesIn(High16(v)) + OnesIn(Low16(v))
  {
    OnesAppend(Bits8(Low16(v)), Bits8(High16(v)));
  }

  lemma OnesOf32(v: bv32)
    ensures Ones(Bits32(v)) == OnesIn(High16(High32(v))) + OnesIn(Low16(High32(v)))
                             + OnesIn(High16(Low32(v))) + OnesIn(Low16(Low32(v)))
  {
    OnesAppend(Bits16(Low32(v)), Bits16(High32(v)));
    OnesOf16(Low32(v));
    OnesOf16(High32(v));
  }

  lemma OnesByBytes(v: bv64)
    ensures Ones(Bits64(v)) == OnesIn(Byte7(v)) + OnesIn(Byte6(v)) + OnesIn(Byte5(v)) + OnesIn(Byte4(v))
                             + OnesIn(Byte3(v)) + OnesIn(Byte2(v)) + OnesIn(Byte1(v)) + OnesIn(Byte0(v))
  {
    BytesAreHalves(v);
    OnesAppend(Bits32(Low64(v)), Bits32(High64(v)));
    OnesOf32(Low64(v));
    OnesOf32(High64(v));
  }

  /** The SWAR reduction counts exactly the set bits. */
  lemma PopcountIsOnes(v: bv64)
    ensures Value(Gather(ByteCounts(v))) == Ones(Bits64(v))
  {
    hide *;
    var z := ByteCounts(v);
    ByteCountsFit(v);
    ByteCounts01(v);
    ByteCounts23(v);
    ByteCounts45(v);
    ByteCounts67(v);
    OnesByBytes(v);
    BitSumIsOnes(Byte0(v));
    BitSumIsOnes(Byte1(v));
    BitSumIsOnes(Byte2(v));
    BitSumIsOnes(Byte3(v));
    BitSumIsOnes(Byte4(v));
    BitSumIsOnes(Byte5(v));
    BitSumIsOnes(Byte6(v));
    BitSumIsOnes(Byte7(v));
    GatherAsNumber(z);
  }

  lemma StagesAreByteCounts(value: bv64)
    ensures ByteLaneCounts(NibbleCounts(PairCounts(value))) == ByteCounts(value)
  {
    hide ByteLaneCounts, NibbleCounts, PairCounts;
  }

  /** The population count of every 64-bit value is its number of set bits. */
  method Popcount(value: bv64) returns (count: bv8)
    ensures Value(count) == Ones(Bits64(value))
  {
    hide *;
    var x := value;
    x := PairCounts(x);
    x := NibbleCounts(x);
    x := ByteLaneCounts(x);
    StagesAreByteCounts(value);
    count := Gather(x);
    PopcountIsOnes(value);
  }
}
