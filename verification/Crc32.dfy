/** CRC-32 as section 3.2.9 of IEEE 802.3 defines it: a 32-bit register clocked once per message
    bit, least significant bit of each byte first, preset to ones and complemented at the end. */
module Crc32 {

  const POLYNOMIAL: bv32 := 0xEDB8_8320
  const ONES: bv32 := 0xFFFF_FFFF

  /** What the CRC-32 of any message followed by its own CRC comes to. */
  const RESIDUE: bv32 := 0x2144_DF1C

  function Xor(a: bv32, b: bv32): bv32 {
    a ^ b
  }

  function Half(w: bv32): bv32 {
    w >> 1
  }

  predicate Odd(w: bv32) {
    w & 1 == 1
  }

  /** One clock of the reflected register, with no input. */
  function Shift(r: bv32): bv32 {
    if Odd(r) then Xor(Half(r), POLYNOMIAL) else Half(r)
  }

  /** One clock with an input bit. */
  function Clock(r: bv32, bit: bool): bv32 {
    Shift(if bit then Xor(r, 1) else r)
  }

  function ClockAll(r: bv32, bits: seq<bool>): bv32
    decreases |bits|
  {
    if bits == [] then r else ClockAll(Clock(r, bits[0]), bits[1..])
  }

  function ByteBits(b: bv8): (s: seq<bool>)
    ensures |s| == 8
  {
    [b & 1 != 0, b & 2 != 0, b & 4 != 0, b & 8 != 0, b & 16 != 0, b & 32 != 0, b & 64 != 0, b & 128 != 0]
  }

  function Bits(m: seq<bv8>): (s: seq<bool>)
    ensures |s| == 8 * |m|
  {
    if m == [] then [] else ByteBits(m[0]) + Bits(m[1..])
  }

  /** `crc32_ieee`. */
  function Crc32Ieee(m: seq<bv8>): bv32 {
    Xor(ClockAll(ONES, Bits(m)), ONES)
  }

  function LowByte(w: bv32): bv8 {
    (w & 0xFF) as bv8
  }

  function Drop8(w: bv32): bv32 {
    w >> 8
  }

  /** The four bytes of a word in little-endian order. */
  function WordBytes(w: bv32): (s: seq<bv8>)
    ensures |s| == 4
  {
    [LowByte(w), LowByte(Drop8(w)), LowByte(Drop8(Drop8(w))), LowByte(Drop8(Drop8(Drop8(w))))]
  }

  // ---- Words: the only facts below that look inside the bits ----

  lemma XorLaws(a: bv32, b: bv32)
    ensures Xor(a, b) == Xor(b, a) && Xor(a, 0) == a && Xor(a, a) == 0
    ensures Xor(Xor(a, b), b) == a
  {
  }

  lemma XorAssociative(a: bv32, b: bv32, c: bv32)
    ensures Xor(Xor(a, b), c) == Xor(a, Xor(b, c))
  {
  }

  lemma XorHalves(a: bv32, b: bv32)
    ensures Half(Xor(a, b)) == Xor(Half(a), Half(b))
    ensures Odd(Xor(a, b)) == (Odd(a) != Odd(b))
  {
  }

  lemma Units()
    ensures Odd(1) && Half(1) == 0 && !Odd(0) && Half(0) == 0
  {
  }

  // ---- The register step is a linear bijection ----

  /** The two halves of a word of input can be fed apart: its low bit now, the rest after the clock. */
  lemma ClockAbsorbs(r: bv32, w: bv32)
    ensures Xor(Clock(r, Odd(w)), Half(w)) == Shift(Xor(r, w))
  {
    hide Xor, Half, Odd;
    Units();
    XorHalves(r, w);
    XorHalves(r, 1);
    XorLaws(Half(r), 0);
    XorAssociative(Half(r), Half(w), POLYNOMIAL);
    XorAssociative(Half(r), POLYNOMIAL, Half(w));
    XorLaws(Half(w), POLYNOMIAL);
  }

  lemma ShiftLinear(a: bv32, b: bv32)
    ensures Shift(Xor(a, b)) == Xor(Shift(a), Shift(b))
  {
    hide Xor, Half, Odd;
    var p, q := Half(a), Half(b);
    XorHalves(a, b);
    XorLaws(q, POLYNOMIAL);
    XorLaws(p, POLYNOMIAL);
    XorAssociative(p, q, POLYNOMIAL);
    XorAssociative(p, POLYNOMIAL, q);
    XorAssociative(p, POLYNOMIAL, Xor(q, POLYNOMIAL));
    XorAssociative(POLYNOMIAL, q, POLYNOMIAL);
  }

  lemma ShiftInjective(a: bv32, b: bv32)
    requires Shift(a) == Shift(b)
    ensures a == b
  {
  }

  lemma {:induction false} ClockAllInjective(a: bv32, b: bv32, bits: seq<bool>)
    requires ClockAll(a, bits) == ClockAll(b, bits)
    ensures a == b
    decreases |bits|
  {
    hide Xor, Shift;
    if bits != [] {
      ClockAllInjective(Clock(a, bits[0]), Clock(b, bits[0]), bits[1..]);
      ShiftInjective(if bits[0] then Xor(a, 1) else a, if bits[0] then Xor(b, 1) else b);
      XorLaws(a, 1);
      XorLaws(b, 1);
    }
  }

  lemma {:induction false} ClockAllAppend(r: bv32, s: seq<bool>, t: seq<bool>)
    ensures ClockAll(r, s + t) == ClockAll(ClockAll(r, s), t)
    decreases |s|
  {
    hide Clock;
    if s == [] {
      assert s + t == t;
    } else {
      assert (s + t)[1..] == s[1..] + t;
      ClockAllAppend(Clock(r, s[0]), s[1..], t);
    }
  }

  // ---- Feeding a word bit by bit is xoring it into the register ----

  function ShiftN(r: bv32, n: nat): bv32
    decreases n
  {
    if n == 0 then r else ShiftN(Shift(r), n - 1)
  }

  function HalfN(w: bv32, n: nat): bv32
    decreases n
  {
    if n == 0 then w else HalfN(Half(w), n - 1)
  }

  function WordBits(w: bv32, n: nat): (s: seq<bool>)
    ensures |s| == n
    decreases n
  {
    if n == 0 then [] else [Odd(w)] + WordBits(Half(w), n - 1)
  }

  lemma {:induction false} ClockWord(r: bv32, w: bv32, n: nat)
    ensures Xor(ClockAll(r, WordBits(w, n)), HalfN(w, n)) == ShiftN(Xor(r, w), n)
    decreases n
  {
    hide Xor, Half, Odd, Clock, Shift;
    if n != 0 {
      assert WordBits(w, n)[1..] == WordBits(Half(w), n - 1);
      ClockAbsorbs(r, w);
      ClockWord(Clock(r, Odd(w)), Half(w), n - 1);
    }
  }

  lemma FirstBit(w: bv32, n: nat)
    requires n > 0
    ensures WordBits(w, n) == [Odd(w)] + WordBits(Half(w), n - 1) && HalfN(w, n) == HalfN(Half(w), n - 1)
  {
  }

  lemma NoBits(w: bv32)
    ensures WordBits(w, 0) == [] && HalfN(w, 0) == w
  {
  }

  lemma Reassociate(bit: bool, s: seq<bool>, t: seq<bool>)
    ensures [bit] + (s + t) == ([bit] + s) + t && [] + t == t
  {
  }

  lemma {:induction false} WordBitsSplit(w: bv32, m: nat, n: nat)
    ensures WordBits(w, m + n) == WordBits(w, m) + WordBits(HalfN(w, m), n)
    ensures HalfN(w, m + n) == HalfN(HalfN(w, m), n)
    decreases m
  {
    hide Half, Odd, WordBits, HalfN;
    if m == 0 {
      NoBits(w);
      Reassociate(false, [], WordBits(w, n));
    } else {
      WordBitsSplit(Half(w), m - 1, n);
      FirstBit(w, m);
      FirstBit(w, m + n);
      Reassociate(Odd(w), WordBits(Half(w), m - 1), WordBits(HalfN(w, m), n));
    }
  }

  lemma {:induction false} HalvesOfZero(n: nat)
    ensures HalfN(0, n) == 0
    decreases n
  {
    hide Half, Odd;
    Units();
    if n != 0 {
      HalvesOfZero(n - 1);
    }
  }

  // ---- Eight steps at a time ----

  lemma FourBytesOnly(w: bv32)
    ensures Drop8(Drop8(Drop8(Drop8(w)))) == 0
  {
  }

  lemma HalfN8(w: bv32)
    ensures HalfN(w, 8) == Drop8(w)
  {
  }

  lemma BitsOfLowByte(w: bv32)
    ensures var v := Half(Half(Half(Half(w))));
      ByteBits(LowByte(w)) == [Odd(w), Odd(Half(w)), Odd(Half(Half(w))), Odd(Half(Half(Half(w)))),
                               Odd(v), Odd(Half(v)), Odd(Half(Half(v))), Odd(Half(Half(Half(v))))]
  {
  }

  lemma WordBits4(w: bv32)
    ensures WordBits(w, 4) == [Odd(w), Odd(Half(w)), Odd(Half(Half(w))), Odd(Half(Half(Half(w))))]
    ensures HalfN(w, 4) == Half(Half(Half(Half(w))))
  {
    hide Half, Odd, WordBits, HalfN;
    var v := Half(Half(w));
    FirstBit(w, 4);
    FirstBit(Half(w), 3);
    FirstBit(v, 2);
    FirstBit(Half(v), 1);
    NoBits(Half(Half(v)));
  }

  lemma ByteIsWordBits(w: bv32)
    ensures ByteBits(LowByte(w)) == WordBits(w, 8)
  {
    BitsOfLowByte(w);
    hide Half, Odd, LowByte, ByteBits, WordBits, HalfN;
    WordBits4(w);
    WordBits4(HalfN(w, 4));
    WordBitsSplit(w, 4, 4);
  }

  lemma WordBytesAreBits(w: bv32)
    ensures Bits(WordBytes(w)) == WordBits(w, 32) && HalfN(w, 32) == 0
  {
    hide Half, Odd, LowByte, Drop8, ByteBits;
    var w1 := Drop8(w);
    var w2 := Drop8(w1);
    var w3 := Drop8(w2);
    var b := WordBytes(w);
    FourBytesOnly(w);
    HalfN8(w);
    HalfN8(w1);
    HalfN8(w2);
    HalfN8(w3);
    ByteIsWordBits(w);
    ByteIsWordBits(w1);
    ByteIsWordBits(w2);
    ByteIsWordBits(w3);
    WordBitsSplit(w2, 8, 8);
    WordBitsSplit(w1, 8, 16);
    WordBitsSplit(w, 8, 24);
    BitsOfFour(b);
  }

  lemma BitsOfFour(b: seq<bv8>)
    requires |b| == 4
    ensures Bits(b) == ByteBits(b[0]) + (ByteBits(b[1]) + (ByteBits(b[2]) + ByteBits(b[3])))
  {
    hide ByteBits;
    assert b[1..][1..] == b[2..] && b[2..][1..] == b[3..] && b[3..][1..] == [];
    assert Bits(b[3..]) == ByteBits(b[3]) + Bits([]);
    assert Bits(b[2..]) == ByteBits(b[2]) + Bits(b[3..]);
  }

  lemma EightShifts(r: bv32, n: nat)
    requires 8 <= n
    ensures ShiftN(r, n) == ShiftN(Shift8(r), n - 8)
  {
    hide Shift;
    var r2 := Shift(Shift(r));
    var r4 := Shift(Shift(r2));
    var r6 := Shift(Shift(r4));
    assert ShiftN(r, n) == ShiftN(r2, n - 2);
    assert ShiftN(r2, n - 2) == ShiftN(r4, n - 4);
    assert ShiftN(r4, n - 4) == ShiftN(r6, n - 6);
    assert ShiftN(r6, n - 6) == ShiftN(Shift(Shift(r6)), n - 8);
  }

  function Shift8(r: bv32): bv32 {
    Shift(Shift(Shift(Shift(Shift(Shift(Shift(Shift(r))))))))
  }

  lemma OnesAfter8()
    ensures Shift8(0xFFFF_FFFF) == 0x2DFD_1072
  {
  }

  lemma OnesAfter16()
    ensures Shift8(0x2DFD_1072) == 0xBE26_ED00
  {
  }

  lemma OnesAfter24()
    ensures Shift8(0xBE26_ED00) == 0x00BE_26ED
  {
  }

  lemma OnesAfter32()
    ensures Shift8(0x00BE_26ED) == 0xDEBB_20E3
  {
  }

  lemma OnesClockToResidue()
    ensures ShiftN(ONES, 32) == Xor(RESIDUE, ONES)
  {
    assert Xor(RESIDUE, ONES) == 0xDEBB_20E3;
    hide Shift8, Xor;
    EightShifts(0xFFFF_FFFF, 32);
    OnesAfter8();
    EightShifts(0x2DFD_1072, 24);
    OnesAfter16();
    EightShifts(0xBE26_ED00, 16);
    OnesAfter24();
    EightShifts(0x00BE_26ED, 8);
    OnesAfter32();
  }

  // ---- Windows of at most 32 bits ----

  lemma {:induction false} ZeroStaysZero(w: bv32, m: nat, n: nat)
    requires HalfN(w, m) == 0 && m <= n
    ensures HalfN(w, n) == 0
  {
    hide Half;
    WordBitsSplit(w, m, n - m);
    HalvesOfZero(n - m);
  }

  predicate TopClear(w: bv32) {
    w & 0x8000_0000 == 0
  }

  lemma SevenHalves(w: bv32, v: bv32)
    requires v == Drop8(Drop8(Drop8(w))) && Half(Half(Half(Half(Half(Half(Half(v))))))) == 0
    ensures TopClear(w)
  {
  }

  lemma ShortWordHasClearTop(w: bv32, n: nat)
    requires HalfN(w, n) == 0 && n <= 31
    ensures TopClear(w)
  {
    hide Half, Drop8, TopClear;
    var w1 := Drop8(w);
    var w2 := Drop8(w1);
    var w3 := Drop8(w2);
    ZeroStaysZero(w, n, 31);
    HalfN8(w);
    HalfN8(w1);
    HalfN8(w2);
    WordBitsSplit(w, 8, 23);
    WordBitsSplit(w1, 8, 15);
    WordBitsSplit(w2, 8, 7);
    var v2 := Half(Half(w3));
    var v4 := Half(Half(v2));
    var v6 := Half(Half(v4));
    assert HalfN(w3, 7) == HalfN(v2, 5) == HalfN(v4, 3) == HalfN(v6, 1);
    SevenHalves(w, w3);
  }

  lemma EvenIfTopClear(d: bv32)
    requires TopClear(Shift(d))
    ensures !Odd(d)
  {
  }

  function Difference(s: seq<bool>, t: seq<bool>): seq<bool>
    requires |s| == |t|
  {
    if s == [] then [] else [s[0] != t[0]] + Difference(s[1..], t[1..])
  }

  /** If two strings of at most 32 bits drive two states to the same state, the difference of the
      states is, bit for bit, the difference of the strings. */
  lemma {:induction false} DifferenceIsInput(a: bv32, b: bv32, s: seq<bool>, t: seq<bool>)
    requires |s| == |t| <= 32 && ClockAll(a, s) == ClockAll(b, t)
    ensures HalfN(Xor(a, b), |s|) == 0 && WordBits(Xor(a, b), |s|) == Difference(s, t)
    decreases |s|
  {
    hide Xor, Half, Odd, Clock, TopClear;
    if s == [] {
      XorLaws(a, a);
    } else {
      var a', b' := Clock(a, s[0]), Clock(b, t[0]);
      DifferenceIsInput(a', b', s[1..], t[1..]);
      ShortWordHasClearTop(Xor(a', b'), |s| - 1);
      FirstInput(a, b, s[0], t[0]);
    }
  }

  lemma {:induction false} NoDifference(s: seq<bool>, t: seq<bool>)
    requires |s| == |t| && Difference(s, t) == WordBits(0, |s|)
    ensures s == t
    decreases |s|
  {
    hide Half, Odd;
    Units();
    if s != [] {
      assert Difference(s, t)[1..] == Difference(s[1..], t[1..]);
      assert WordBits(0, |s|)[1..] == WordBits(0, |s| - 1);
      NoDifference(s[1..], t[1..]);
      assert s == [s[0]] + s[1..] && t == [t[0]] + t[1..];
    }
  }

  lemma FirstInput(a: bv32, b: bv32, s: bool, t: bool)
    requires TopClear(Xor(Clock(a, s), Clock(b, t)))
    ensures Odd(Xor(a, b)) == (s != t)
    ensures Xor(Clock(a, s), Clock(b, t)) == Half(Xor(a, b))
  {
    var x, y := if s then Xor(a, 1) else a, if t then Xor(b, 1) else b;
    ShiftLinear(x, y);
    EvenIfTopClear(Xor(x, y));
    hide Xor, Half, Odd, TopClear;
    Units();
    XorHalves(a, 1);
    XorHalves(b, 1);
    XorHalves(a, b);
    XorHalves(x, y);
    XorLaws(Half(a), 0);
    XorLaws(Half(b), 0);
  }

  lemma WindowInjective(r: bv32, s: seq<bool>, t: seq<bool>)
    requires |s| == |t| <= 32 && ClockAll(r, s) == ClockAll(r, t)
    ensures s == t
  {
    hide Xor;
    DifferenceIsInput(r, r, s, t);
    XorLaws(r, r);
    NoDifference(s, t);
  }

  // ---- Messages ----

  lemma {:induction false} BitsAppend(m: seq<bv8>, n: seq<bv8>)
    ensures Bits(m + n) == Bits(m) + Bits(n)
  {
    hide ByteBits;
    if m == [] {
      assert m + n == n;
    } else {
      assert (m + n)[1..] == m[1..] + n;
      BitsAppend(m[1..], n);
    }
  }

  lemma ByteBitsInjective(a: bv8, b: bv8)
    requires ByteBits(a) == ByteBits(b)
    ensures a == b
  {
  }

  lemma {:induction false} BitsInjective(m: seq<bv8>, n: seq<bv8>)
    requires |m| == |n| && Bits(m) == Bits(n)
    ensures m == n
  {
    hide ByteBits;
    if m != [] {
      assert ByteBits(m[0]) == Bits(m)[..8] == Bits(n)[..8] == ByteBits(n[0]);
      assert Bits(m[1..]) == Bits(m)[8..] == Bits(n)[8..] == Bits(n[1..]);
      ByteBitsInjective(m[0], n[0]);
      BitsInjective(m[1..], n[1..]);
      assert m == [m[0]] + m[1..] && n == [n[0]] + n[1..];
    }
  }

  lemma SplitClocks(s: seq<bool>, lo: nat, hi: nat)
    requires lo <= hi <= |s|
    ensures ClockAll(ONES, s) == ClockAll(ClockAll(ClockAll(ONES, s[..lo]), s[lo..hi]), s[hi..])
  {
    hide Clock;
    assert s == (s[..lo] + s[lo..hi]) + s[hi..];
    ClockAllAppend(ONES, s[..lo] + s[lo..hi], s[hi..]);
    ClockAllAppend(ONES, s[..lo], s[lo..hi]);
  }

  lemma WordBytesInjective(a: bv32, b: bv32)
    requires WordBytes(a) == WordBytes(b)
    ensures a == b
  {
  }

  /** A burst: the two messages differ only in bits `lo` to `hi`, at most 32 of them. */
  predicate Burst(m: seq<bv8>, n: seq<bv8>, lo: nat, hi: nat) {
    && |m| == |n| && lo <= hi <= 8 * |m| && hi - lo <= 32
    && Bits(m)[..lo] == Bits(n)[..lo] && Bits(m)[hi..] == Bits(n)[hi..]
  }

  /** Every burst that changes the message, byte-aligned or not, changes its CRC. */
  lemma BurstChangesCrc(m: seq<bv8>, n: seq<bv8>, lo: nat, hi: nat)
    requires Burst(m, n, lo, hi) && m != n
    ensures Crc32Ieee(m) != Crc32Ieee(n)
  {
    hide Xor, Clock;
    if Crc32Ieee(m) == Crc32Ieee(n) {
      var s, t := Bits(m), Bits(n);
      var r := ClockAll(ONES, s[..lo]);
      XorLaws(ClockAll(ONES, s), ONES);
      XorLaws(ClockAll(ONES, t), ONES);
      SplitClocks(s, lo, hi);
      SplitClocks(t, lo, hi);
      ClockAllInjective(ClockAll(r, s[lo..hi]), ClockAll(r, t[lo..hi]), s[hi..]);
      WindowInjective(r, s[lo..hi], t[lo..hi]);
      assert s == s[..lo] + s[lo..hi] + s[hi..];
      assert t == t[..lo] + t[lo..hi] + t[hi..];
      BitsInjective(m, n);
    }
  }

  lemma ZeroIsLowByte()
    ensures LowByte(0) == 0
  {
  }

  lemma ZeroByte(r: bv32)
    ensures ClockAll(r, ByteBits(0)) == Shift8(r)
  {
    hide Xor, Half, Odd, Clock, Shift, ByteBits, LowByte, WordBits, HalfN;
    ZeroIsLowByte();
    ByteIsWordBits(0);
    ClockWord(r, 0, 8);
    HalvesOfZero(8);
    XorLaws(r, 0);
    XorLaws(ClockAll(r, WordBits(0, 8)), 0);
    EightShifts(r, 8);
  }

  lemma ComplementOfOnesAfter8()
    ensures Xor(0x2DFD_1072, ONES) == 0xD202_EF8D
  {
  }

  /** The register is preset to ones, so a leading zero byte always changes the CRC; and the CRC of one
      zero byte alone. */
  lemma LeadingZeroCounts(m: seq<bv8>)
    ensures Crc32Ieee([0] + m) != Crc32Ieee(m) && Crc32Ieee([0]) == 0xD202_EF8D
  {
    hide Xor, Clock, ByteBits, Shift8;
    OnesAfter8();
    ComplementOfOnesAfter8();
    ZeroByte(ONES);
    BitsAppend([0], m);
    BitsAppend([0], []);
    assert Bits([0]) == ByteBits(0) + Bits([]);
    ClockAllAppend(ONES, ByteBits(0), Bits(m));
    XorLaws(ClockAll(0x2DFD_1072, Bits(m)), ONES);
    XorLaws(ClockAll(ONES, Bits(m)), ONES);
    if Crc32Ieee([0] + m) == Crc32Ieee(m) {
      ClockAllInjective(0x2DFD_1072, ONES, Bits(m));
    }
  }

  /** A register fed its own complement always ends in the same state. */
  lemma OwnComplement(r: bv32)
    ensures ClockAll(r, Bits(WordBytes(Xor(r, ONES)))) == Xor(RESIDUE, ONES)
  {
    hide Xor, Half, Odd, Clock, Shift, WordBytes;
    var w := Xor(r, ONES);
    WordBytesAreBits(w);
    ClockWord(r, w, 32);
    XorAssociative(r, r, ONES);
    XorLaws(r, r);
    XorLaws(ONES, 0);
    XorLaws(ClockAll(r, WordBits(w, 32)), 0);
    OnesClockToResidue();
  }

  /** The residue check accepts a message and four more bytes exactly if these are its little-endian CRC. */
  lemma ResidueIff(m: seq<bv8>, c: seq<bv8>)
    requires |c| == 4
    ensures Crc32Ieee(m + c) == RESIDUE <==> c == WordBytes(Crc32Ieee(m))
  {
    hide Xor, Clock, WordBytes;
    var r := ClockAll(ONES, Bits(m));
    var good := WordBytes(Xor(r, ONES));
    BitsAppend(m, c);
    ClockAllAppend(ONES, Bits(m), Bits(c));
    OwnComplement(r);
    XorLaws(RESIDUE, ONES);
    XorLaws(ClockAll(r, Bits(c)), ONES);
    if Crc32Ieee(m + c) == RESIDUE {
      WindowInjective(r, Bits(c), Bits(good));
      BitsInjective(c, good);
    }
  }
}
