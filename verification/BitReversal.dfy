/** Bit and byte reversal by staged swaps, against reversal of the sequence of bits or bytes. */
module BitReversal {
  import opened BitSequences
  import opened PopulationCount

  function Reverse8(v: bv8): bv8 {
    var n := ((v & 0xF0) >> 4) | ((v & 0x0F) << 4);
    var n := ((n & 0xCC) >> 2) | ((n & 0x33) << 2);
    ((n & 0xAA) >> 1) | ((n & 0x55) << 1)
  }

  function Reverse16(v: bv16): bv16 {
    var n := ((v & 0xFF00) >> 8) | ((v & 0x00FF) << 8);
    var n := ((n & 0xF0F0) >> 4) | ((n & 0x0F0F) << 4);
    var n := ((n & 0xCCCC) >> 2) | ((n & 0x3333) << 2);
    ((n & 0xAAAA) >> 1) | ((n & 0x5555) << 1)
  }

  function Reverse32(v: bv32): bv32 {
    var n := ((v & 0xFFFF0000) >> 16) | ((v & 0x0000FFFF) << 16);
    var n := ((n & 0xFF00FF00) >> 8) | ((n & 0x00FF00FF) << 8);
    var n := ((n & 0xF0F0F0F0) >> 4) | ((n & 0x0F0F0F0F) << 4);
    var n := ((n & 0xCCCCCCCC) >> 2) | ((n & 0x33333333) << 2);
    ((n & 0xAAAAAAAA) >> 1) | ((n & 0x55555555) << 1)
  }

  function Reverse64(v: bv64): bv64 {
    var n := ((v & 0xFFFFFFFF00000000) >> 32) | ((v & 0x00000000FFFFFFFF) << 32);
    var n := ((n & 0xFFFF0000FFFF0000) >> 16) | ((n & 0x0000FFFF0000FFFF) << 16);
    var n := ((n & 0xFF00FF00FF00FF00) >> 8) | ((n & 0x00FF00FF00FF00FF) << 8);
    var n := ((n & 0xF0F0F0F0F0F0F0F0) >> 4) | ((n & 0x0F0F0F0F0F0F0F0F) << 4);
    var n := ((n & 0xCCCCCCCCCCCCCCCC) >> 2) | ((n & 0x3333333333333333) << 2);
    ((n & 0xAAAAAAAAAAAAAAAA) >> 1) | ((n & 0x5555555555555555) << 1)
  }

  function ByteSwap16(v: bv16): bv16 {
    ((v & 0x00FF) << 8) | ((v & 0xFF00) >> 8)
  }

  function ByteSwap32(v: bv32): bv32 {
    var v := ((v & 0x00FF00FF) << 8) | ((v & 0xFF00FF00) >> 8);
    ((v & 0x0000FFFF) << 16) | ((v & 0xFFFF0000) >> 16)
  }

  function ByteSwap64(v: bv64): bv64 {
    var v := ((v & 0x00FF00FF00FF00FF) << 8) | ((v & 0xFF00FF00FF00FF00) >> 8);
    var v := ((v & 0x0000FFFF0000FFFF) << 16) | ((v & 0xFFFF0000FFFF0000) >> 16);
    ((v & 0x00000000FFFFFFFF) << 32) | ((v & 0xFFFFFFFF00000000) >> 32)
  }

  // ----- the staged swaps, one halving at a time -----

  lemma Reverse16Halves(v: bv16)
    ensures Low16(Reverse16(v)) == Reverse8(High16(v)) && High16(Reverse16(v)) == Reverse8(Low16(v))
  {
  }

  lemma Reverse32Halves(v: bv32)
    ensures Low32(Reverse32(v)) == Reverse16(High32(v)) && High32(Reverse32(v)) == Reverse16(Low32(v))
  {
  }

  lemma Reverse64Halves(v: bv64)
    ensures Low64(Reverse64(v)) == Reverse32(High64(v)) && High64(Reverse64(v)) == Reverse32(Low64(v))
  {
  }

  lemma ByteSwap32Halves(v: bv32)
    ensures Low32(ByteSwap32(v)) == ByteSwap16(High32(v)) && High32(ByteSwap32(v)) == ByteSwap16(Low32(v))
  {
  }

  lemma ByteSwap64Halves(v: bv64)
    ensures Low64(ByteSwap64(v)) == ByteSwap32(High64(v)) && High64(ByteSwap64(v)) == ByteSwap32(Low64(v))
  {
  }

  // ----- bit i goes to bit W - 1 - i -----

  lemma Mirror8(v: bv8)
    ensures (Reverse8(v) & 0x01 != 0 <==> v & 0x80 != 0) && (Reverse8(v) & 0x02 != 0 <==> v & 0x40 != 0)
    ensures (Reverse8(v) & 0x04 != 0 <==> v & 0x20 != 0) && (Reverse8(v) & 0x08 != 0 <==> v & 0x10 != 0)
    ensures (Reverse8(v) & 0x10 != 0 <==> v & 0x08 != 0) && (Reverse8(v) & 0x20 != 0 <==> v & 0x04 != 0)
    ensures (Reverse8(v) & 0x40 != 0 <==> v & 0x02 != 0) && (Reverse8(v) & 0x80 != 0 <==> v & 0x01 != 0)
  {
  }

  lemma Reverse8Bits(v: bv8)
    ensures Bits8(Reverse8(v)) == Reversed(Bits8(v))
  {
    hide *;
    Mirror8(v);
    BitsOfByte(v);
    BitsOfByte(Reverse8(v));
    MirroredEight(Bits8(Reverse8(v)), Bits8(v));
  }

  lemma BitsOfByte(v: bv8)
    ensures var s := Bits8(v);
            && (s[0] <==> v & 0x01 != 0) && (s[1] <==> v & 0x02 != 0)
            && (s[2] <==> v & 0x04 != 0) && (s[3] <==> v & 0x08 != 0)
            && (s[4] <==> v & 0x10 != 0) && (s[5] <==> v & 0x20 != 0)
            && (s[6] <==> v & 0x40 != 0) && (s[7] <==> v & 0x80 != 0)
  {
  }

  lemma MirroredEight(s: seq<bool>, t: seq<bool>)
    requires |s| == 8 && |t| == 8
    requires s[0] == t[7] && s[1] == t[6] && s[2] == t[5] && s[3] == t[4]
    requires s[4] == t[3] && s[5] == t[2] && s[6] == t[1] && s[7] == t[0]
    ensures s == Reversed(t)
  {
  }

  lemma Reverse16Bits(v: bv16)
    ensures Bits16(Reverse16(v)) == Reversed(Bits16(v))
  {
    Reverse16Halves(v);
    Reverse8Bits(Low16(v));
    Reverse8Bits(High16(v));
    ReversedAppend(Bits8(Low16(v)), Bits8(High16(v)));
  }

  lemma Reverse32Bits(v: bv32)
    ensures Bits32(Reverse32(v)) == Reversed(Bits32(v))
  {
    Reverse32Halves(v);
    Reverse16Bits(Low32(v));
    Reverse16Bits(High32(v));
    ReversedAppend(Bits16(Low32(v)), Bits16(High32(v)));
  }

  lemma Reverse64Bits(v: bv64)
    ensures Bits64(Reverse64(v)) == Reversed(Bits64(v))
  {
    Reverse64Halves(v);
    Reverse32Bits(Low64(v));
    Reverse32Bits(High64(v));
    ReversedAppend(Bits32(Low64(v)), Bits32(High64(v)));
  }

  /** At every width, `reverse_bits` sends bit i to bit W - 1 - i. */
  lemma ReverseMirrorsBits(a: bv8, b: bv16, c: bv32, d: bv64)
    ensures forall i :: 0 <= i < 8 ==> Bits8(Reverse8(a))[i] == Bits8(a)[7 - i]
    ensures forall i :: 0 <= i < 16 ==> Bits16(Reverse16(b))[i] == Bits16(b)[15 - i]
    ensures forall i :: 0 <= i < 32 ==> Bits32(Reverse32(c))[i] == Bits32(c)[31 - i]
    ensures forall i :: 0 <= i < 64 ==> Bits64(Reverse64(d))[i] == Bits64(d)[63 - i]
  {
    hide *;
    Reverse8Bits(a);
    Reverse16Bits(b);
    Reverse32Bits(c);
    Reverse64Bits(d);
  }

  lemma ReversedTwice<T>(s: seq<T>)
    ensures Reversed(Reversed(s)) == s
  {
  }

  /** At every width, `reverse_bits` is its own inverse. */
  lemma ReverseIsInvolution(a: bv8, b: bv16, c: bv32, d: bv64)
    ensures Reverse8(Reverse8(a)) == a && Reverse16(Reverse16(b)) == b
    ensures Reverse32(Reverse32(c)) == c && Reverse64(Reverse64(d)) == d
  {
    Reverse64Bits(d);
    Reverse64Bits(Reverse64(d));
    ReversedTwice(Bits64(d));
    BitsInjective(Reverse64(Reverse64(d)), d);
    Reverse32Bits(c);
    Reverse32Bits(Reverse32(c));
    ReversedTwice(Bits32(c));
    Bits32Injective(Reverse32(Reverse32(c)), c);
    Reverse16Bits(b);
    Reverse16Bits(Reverse16(b));
    ReversedTwice(Bits16(b));
    Bits16Injective(Reverse16(Reverse16(b)), b);
  }

  /** At every width, `reverse_bits` keeps the number of set bits. */
  lemma ReverseKeepsOnes(a: bv8, b: bv16, c: bv32, d: bv64)
    ensures Ones(Bits8(Reverse8(a))) == Ones(Bits8(a)) && Ones(Bits16(Reverse16(b))) == Ones(Bits16(b))
    ensures Ones(Bits32(Reverse32(c))) == Ones(Bits32(c)) && Ones(Bits64(Reverse64(d))) == Ones(Bits64(d))
  {
    Reverse8Bits(a);
    OnesReversed(Bits8(a));
    Reverse16Bits(b);
    OnesReversed(Bits16(b));
    Reverse32Bits(c);
    OnesReversed(Bits32(c));
    Reverse64Bits(d);
    OnesReversed(Bits64(d));
  }

  /** Narrower types are widened with zero bits before they are counted, which adds no ones. */
  lemma {:induction false} OnesOfFalse(s: seq<bool>)
    requires forall i :: 0 <= i < |s| ==> !s[i]
    ensures Ones(s) == 0
  {
    if s != [] {
      OnesOfFalse(s[..|s| - 1]);
    }
  }

  lemma Widen32(v: bv32)
    ensures Ones(Bits64(v as bv64)) == Ones(Bits32(v))
  {
    assert Low64(v as bv64) == v && High64(v as bv64) == 0;
    OnesAppend(Bits32(v), Bits32(0));
    OnesOfFalse(Bits32(0));
  }

  lemma Widen16(v: bv16)
    ensures Ones(Bits32(v as bv32)) == Ones(Bits16(v)) && v as bv64 == (v as bv32) as bv64
  {
    assert Low32(v as bv32) == v && High32(v as bv32) == 0;
    OnesAppend(Bits16(v), Bits16(0));
    OnesOfFalse(Bits16(0));
  }

  lemma Widen8(v: bv8)
    ensures Ones(Bits16(v as bv16)) == Ones(Bits8(v)) && v as bv64 == ((v as bv16) as bv32) as bv64
  {
    assert Low16(v as bv16) == v && High16(v as bv16) == 0;
    OnesAppend(Bits8(v), Bits8(0));
    OnesOfFalse(Bits8(0));
  }

  lemma WideningKeepsOnes(a: bv8, b: bv16, c: bv32)
    ensures Ones(Bits64(a as bv64)) == Ones(Bits8(a))
    ensures Ones(Bits64(b as bv64)) == Ones(Bits16(b))
    ensures Ones(Bits64(c as bv64)) == Ones(Bits32(c))
  {
    hide *;
    Widen8(a);
    Widen16(a as bv16);
    Widen32((a as bv16) as bv32);
    Widen16(b);
    Widen32(b as bv32);
    Widen32(c);
  }

  /** The population count the library computes is the same before and after reversal, at every width. */
  method PopcountOfReverse(a: bv8, b: bv16, c: bv32, d: bv64) returns (counts: seq<bv8>, reversed: seq<bv8>)
    ensures |counts| == 4 && counts == reversed
    ensures Value(counts[0]) == Ones(Bits8(a)) && Value(counts[1]) == Ones(Bits16(b))
    ensures Value(counts[2]) == Ones(Bits32(c)) && Value(counts[3]) == Ones(Bits64(d))
  {
    ReverseKeepsOnes(a, b, c, d);
    WideningKeepsOnes(a, b, c);
    WideningKeepsOnes(Reverse8(a), Reverse16(b), Reverse32(c));
    hide *;
    var p := Popcount(a as bv64);
    var q := Popcount(b as bv64);
    var r := Popcount(c as bv64);
    var s := Popcount(d);
    counts := [p, q, r, s];
    p := Popcount(Reverse8(a) as bv64);
    q := Popcount(Reverse16(b) as bv64);
    r := Popcount(Reverse32(c) as bv64);
    s := Popcount(Reverse64(d));
    reversed := [p, q, r, s];
    SameValue(counts[0], p);
    SameValue(counts[1], q);
    SameValue(counts[2], r);
    SameValue(counts[3], s);
  }

  lemma SameValue(b: bv8, c: bv8)
    requires Value(b) == Value(c)
    ensures b == c
  {
  }

  // ----- bytes -----

  lemma ByteSwap16Bytes(v: bv16)
    ensures Bytes16(ByteSwap16(v)) == Reversed(Bytes16(v))
  {
    var s := Bytes16(v);
    assert Low16(ByteSwap16(v)) == s[1] && High16(ByteSwap16(v)) == s[0];
  }

  lemma ByteSwap32Bytes(v: bv32)
    ensures Bytes32(ByteSwap32(v)) == Reversed(Bytes32(v))
  {
    ByteSwap32Halves(v);
    ByteSwap16Bytes(Low32(v));
    ByteSwap16Bytes(High32(v));
    ReversedAppend(Bytes16(Low32(v)), Bytes16(High32(v)));
  }

  lemma ByteSwap64Bytes(v: bv64)
    ensures Bytes64(ByteSwap64(v)) == Reversed(Bytes64(v))
  {
    ByteSwap64Halves(v);
    ByteSwap32Bytes(Low64(v));
    ByteSwap32Bytes(High64(v));
    ReversedAppend(Bytes32(Low64(v)), Bytes32(High64(v)));
  }

  /** `byte_swap` reverses the order of the bytes. */
  lemma ByteSwapReversesBytes(b: bv16, c: bv32, d: bv64)
    ensures Bytes16(ByteSwap16(b)) == Reversed(Bytes16(b))
    ensures Bytes32(ByteSwap32(c)) == Reversed(Bytes32(c))
    ensures Bytes64(ByteSwap64(d)) == Reversed(Bytes64(d))
  {
    ByteSwap16Bytes(b);
    ByteSwap32Bytes(c);
    ByteSwap64Bytes(d);
  }

  /** `byte_swap` is an involution. */
  lemma ByteSwapIsInvolution(b: bv16, c: bv32, d: bv64)
    ensures ByteSwap16(ByteSwap16(b)) == b && ByteSwap32(ByteSwap32(c)) == c && ByteSwap64(ByteSwap64(d)) == d
  {
    ByteSwap32Halves(c);
    ByteSwap32Halves(ByteSwap32(c));
    ByteSwap64Halves(d);
    ByteSwap64Halves(ByteSwap64(d));
  }

  function EachReversed(s: seq<bv8>): (r: seq<bv8>)
    ensures |r| == |s| && forall i :: 0 <= i < |s| ==> r[i] == Reverse8(s[i])
  {
    if s == [] then [] else EachReversed(s[..|s| - 1]) + [Reverse8(s[|s| - 1])]
  }

  lemma Reverse16Bytes(v: bv16)
    ensures Bytes16(Reverse16(v)) == EachReversed(Bytes16(ByteSwap16(v)))
  {
    Reverse16Halves(v);
    ByteSwap16Bytes(v);
  }

  lemma Reverse32Bytes(v: bv32)
    ensures Bytes32(Reverse32(v)) == EachReversed(Bytes32(ByteSwap32(v)))
  {
    Reverse32Halves(v);
    ByteSwap32Halves(v);
    Reverse16Bytes(Low32(v));
    Reverse16Bytes(High32(v));
  }

  lemma Reverse64Bytes(v: bv64)
    ensures Bytes64(Reverse64(v)) == EachReversed(Bytes64(ByteSwap64(v)))
  {
    Reverse64Halves(v);
    ByteSwap64Halves(v);
    Reverse32Bytes(Low64(v));
    Reverse32Bytes(High64(v));
  }

  /** Reversing the bits of a word is swapping its bytes and reversing the bits within each byte. */
  lemma ReverseIsByteSwapThenEachByte(b: bv16, c: bv32, d: bv64)
    ensures Bytes16(Reverse16(b)) == EachReversed(Bytes16(ByteSwap16(b)))
    ensures Bytes32(Reverse32(c)) == EachReversed(Bytes32(ByteSwap32(c)))
    ensures Bytes64(Reverse64(d)) == EachReversed(Bytes64(ByteSwap64(d)))
  {
    Reverse16Bytes(b);
    Reverse32Bytes(c);
    Reverse64Bytes(d);
  }
}
