/** Decoding the pressure sensor's frames (src/sensor.c). */
module Sensor {
  import opened Words

  const SENSOR_BUFFER_SIZE := 6
  const SENSOR_COMP_CONST_PRESS_SLOPE := 16.75
  const SENSOR_COMP_CONST_PRESS_OFFSET := -248
  const SENSOR_COMP_CONST_TEMP := -55
  const SENSOR_COMP_CONST_VOLT := 122
  const SENSOR_ERROR_CHK := 1

  type Frame = s: seq<bv8> | |s| == SENSOR_BUFFER_SIZE witness [0, 0, 0, 0, 0, 0]

  datatype Reading = Reading(pressureHpa: i16, temperatureC: i8, voltageMv: i16, flags: bv8, checksum: bv8)

  // ---- The shift ----

  /** The frame as one 48-bit number, first byte most significant. */
  function Value(f: Frame): bv48 {
    ((f[0] as bv48) << 40) | ((f[1] as bv48) << 32) | ((f[2] as bv48) << 24)
    | ((f[3] as bv48) << 16) | ((f[4] as bv48) << 8) | (f[5] as bv48)
  }

  function ShiftedByte(b: bv8, next: bv8): bv8 {
    (b << 1) | (next >> 7)
  }

  function ShiftedLast(b: bv8): bv8 {
    b << 1
  }

  /** What the loop leaves in the buffer. */
  function Shifted(f: Frame): Frame {
    [ShiftedByte(f[0], f[1]), ShiftedByte(f[1], f[2]), ShiftedByte(f[2], f[3]),
     ShiftedByte(f[3], f[4]), ShiftedByte(f[4], f[5]), ShiftedLast(f[5])]
  }

  /** The shift loop doubles the frame's value modulo 2^48. */
  lemma ShiftDoubles(f: Frame)
    ensures Value(Shifted(f)) == Value(f) << 1
  {
  }

  // ---- The checksum ----

  function XorOfData(f: Frame): bv8 {
    f[0] ^ f[1] ^ f[2] ^ f[3] ^ f[4]
  }

  function ClearLowest(b: bv8): bv8 {
    0xFE & b
  }

  function Checksum(f: Frame): bv8 {
    ClearLowest(XorOfData(f))
  }

  /** Number of the six bytes whose bit `mask` is set. */
  function ColumnCount(f: Frame, mask: bv8): nat {
    Bit(f[0], mask) + Bit(f[1], mask) + Bit(f[2], mask) + Bit(f[3], mask) + Bit(f[4], mask) + Bit(f[5], mask)
  }

  function Bit(b: bv8, mask: bv8): nat {
    if b & mask != 0 then 1 else 0
  }

  /** The bit columns that the checksum covers: all but the lowest. */
  predicate ChecksumColumn(mask: bv8) {
    mask == 2 || mask == 4 || mask == 8 || mask == 16 || mask == 32 || mask == 64 || mask == 128
  }

  /** Each checksum column holds an even number of ones. */
  ghost predicate EvenColumns(f: Frame) {
    forall mask :: ChecksumColumn(mask) ==> ColumnCount(f, mask) % 2 == 0
  }

  /** The checksum test on a received frame. */
  predicate Accepted(raw: Frame) {
    Checksum(Shifted(raw)) == Shifted(raw)[5]
  }

  lemma ColumnParity(f: Frame, mask: bv8)
    requires ChecksumColumn(mask)
    ensures ColumnCount(f, mask) % 2 == 0 <==> (XorOfData(f) ^ f[5]) & mask == 0
  {
  }

  lemma MaskedEqual(x: bv8, y: bv8)
    requires y & 1 == 0
    requires (x ^ y) & 2 == 0 && (x ^ y) & 4 == 0 && (x ^ y) & 8 == 0 && (x ^ y) & 16 == 0
    requires (x ^ y) & 32 == 0 && (x ^ y) & 64 == 0 && (x ^ y) & 128 == 0
    ensures 0xFE & x == y
  {
  }

  lemma EqualMasked(x: bv8, y: bv8, mask: bv8)
    requires 0xFE & x == y && ChecksumColumn(mask)
    ensures (x ^ y) & mask == 0
  {
  }

  lemma ShiftedIsEven(b: bv8)
    ensures ShiftedLast(b) & 1 == 0
  {
  }

  /** A frame is accepted exactly if, once shifted, every checksum column has even parity. */
  lemma AcceptedIffEvenColumns(raw: Frame)
    ensures Accepted(raw) <==> EvenColumns(Shifted(raw))
  {
    hide ColumnCount, XorOfData;
    var f := Shifted(raw);
    if Accepted(raw) {
      forall mask | ChecksumColumn(mask)
        ensures ColumnCount(f, mask) % 2 == 0
      {
        EqualMasked(XorOfData(f), f[5], mask);
        ColumnParity(f, mask);
      }
    }
    if EvenColumns(f) {
      ColumnParity(f, 2);
      ColumnParity(f, 4);
      ColumnParity(f, 8);
      ColumnParity(f, 16);
      ColumnParity(f, 32);
      ColumnParity(f, 64);
      ColumnParity(f, 128);
      ShiftedIsEven(raw[5]);
      MaskedEqual(XorOfData(f), f[5]);
    }
  }

  function Flip(a: bv8, b: bv8): bv8 {
    a ^ b
  }

  /** The bits in which two frames differ. */
  function Flips(f: Frame, g: Frame): Frame {
    [Flip(f[0], g[0]), Flip(f[1], g[1]), Flip(f[2], g[2]), Flip(f[3], g[3]), Flip(f[4], g[4]), Flip(f[5], g[5])]
  }

  lemma FlippedBit(a: bv8, b: bv8, mask: bv8) returns (both: nat)
    requires ChecksumColumn(mask)
    ensures Bit(a, mask) + Bit(Flip(a, b), mask) == Bit(b, mask) + 2 * both
  {
    both := if a & mask != 0 && b & mask == 0 then 1 else 0;
  }

  lemma FlippedColumn(f: Frame, g: Frame, mask: bv8)
    requires ChecksumColumn(mask)
    ensures ColumnCount(g, mask) % 2 == (ColumnCount(f, mask) + ColumnCount(Flips(f, g), mask)) % 2
  {
    hide Bit, Flip, Flips, ChecksumColumn;
    var n0 := FlippedBit(f[0], g[0], mask);
    var n1 := FlippedBit(f[1], g[1], mask);
    var n2 := FlippedBit(f[2], g[2], mask);
    var n3 := FlippedBit(f[3], g[3], mask);
    var n4 := FlippedBit(f[4], g[4], mask);
    var n5 := FlippedBit(f[5], g[5], mask);
    FlipsAt(f, g);
    SameParity(ColumnCount(f, mask) + ColumnCount(Flips(f, g), mask), ColumnCount(g, mask),
               n0 + n1 + n2 + n3 + n4 + n5);
  }

  lemma FlipsAt(f: Frame, g: Frame)
    ensures var e := Flips(f, g);
      && e[0] == Flip(f[0], g[0]) && e[1] == Flip(f[1], g[1]) && e[2] == Flip(f[2], g[2])
      && e[3] == Flip(f[3], g[3]) && e[4] == Flip(f[4], g[4]) && e[5] == Flip(f[5], g[5])
  {
  }

  lemma SameParity(x: nat, y: nat, n: nat)
    requires x == y + 2 * n
    ensures x % 2 == y % 2
  {
  }

  /** Corruption of an accepted frame goes unnoticed exactly if it flips an even number of bits in
      every checksum column. */
  lemma CorruptionAcceptedIff(good: Frame, bad: Frame)
    requires Accepted(good)
    ensures Accepted(bad) <==> EvenColumns(Flips(Shifted(good), Shifted(bad)))
  {
    hide ColumnCount, Accepted, Shifted, Flips, ChecksumColumn;
    var f, g := Shifted(good), Shifted(bad);
    AcceptedIffEvenColumns(good);
    AcceptedIffEvenColumns(bad);
    forall mask | ChecksumColumn(mask)
      ensures ColumnCount(g, mask) % 2 == ColumnCount(Flips(f, g), mask) % 2
    {
      FlippedColumn(f, g, mask);
    }
  }

  // ---- The wire ----

  /** A byte on the wire when the sensor is one bit late. */
  function LateByte(before: bv8, b: bv8): bv8 {
    (before << 7) | (b >> 1)
  }

  /** What the master reads when the sensor sends one bit late: a stale bit, then all but the last bit. */
  function OneBitLate(stale: bool, sent: Frame): Frame {
    [LateByte(if stale then 1 else 0, sent[0]), LateByte(sent[0], sent[1]), LateByte(sent[1], sent[2]),
     LateByte(sent[2], sent[3]), LateByte(sent[3], sent[4]), LateByte(sent[4], sent[5])]
  }

  lemma LateByteShifted(before: bv8, b: bv8, next: bv8)
    ensures ShiftedByte(LateByte(before, b), LateByte(b, next)) == b
    ensures ShiftedLast(LateByte(before, b)) == ClearLowest(b)
  {
  }

  /** Decoding a late frame restores what was sent except for the checksum's lowest bit, which is
      lost; so the frame is accepted exactly if the other seven bits are those of the exclusive or. */
  lemma LateFrameRecovered(stale: bool, sent: Frame)
    ensures Shifted(OneBitLate(stale, sent)) == sent[5 := ClearLowest(sent[5])]
    ensures Accepted(OneBitLate(stale, sent)) <==> ClearLowest(sent[5]) == ClearLowest(XorOfData(sent))
  {
    hide ShiftedByte, ShiftedLast, LateByte, ClearLowest, XorOfData;
    var before := if stale then 1 else 0;
    LateByteShifted(before, sent[0], sent[1]);
    LateByteShifted(sent[0], sent[1], sent[2]);
    LateByteShifted(sent[1], sent[2], sent[3]);
    LateByteShifted(sent[2], sent[3], sent[4]);
    LateByteShifted(sent[3], sent[4], sent[5]);
    LateByteShifted(sent[4], sent[5], 0);
    XorIgnoresChecksum(sent, ClearLowest(sent[5]));
  }

  lemma XorIgnoresChecksum(f: Frame, checksum: bv8)
    ensures XorOfData(f[5 := checksum]) == XorOfData(f)
  {
  }

  // ---- Calibration ----

  /** The pressure code: the first two bytes read as a little-endian word and swapped in C's
      arithmetic, where the two shifted terms share no bits. */
  function PressureCode(b0: u8, b1: u8): i16 {
    var word := b0 + 256 * b1;
    ToI16(word / 256 + word * 256)
  }

  /** Codes whose scaled value C can convert to `uint16_t`. */
  predicate Convertible(code: i16) {
    -1.0 < SENSOR_COMP_CONST_PRESS_SLOPE * code as real < 65536.0
  }

  /** The calibrated pressure. The product has at most 22 significant bits, so single precision
      represents it exactly. */
  function PressureHpa(code: i16): i16
    requires Convertible(code)
  {
    ToI16((SENSOR_COMP_CONST_PRESS_SLOPE * code as real).Floor + SENSOR_COMP_CONST_PRESS_OFFSET)
  }

  /** Codes for which the pressure fits its 16 bits: 0 to 1971. */
  predicate InRange(code: i16) {
    0 <= code <= 1971
  }

  /** The convertible codes are 0 to 3912. On them the pressure is the rounded-down calibration curve
      exactly if the code is in range; beyond, it wraps by 2^16. */
  lemma PressureCurve(code: i16)
    ensures Convertible(code) <==> 0 <= code <= 3912
    ensures Convertible(code) ==>
      PressureHpa(code) == 67 * code / 4 - 248 - (if InRange(code) then 0 else 0x1_0000)
  {
  }

  /** Within the range the published pressure is strictly increasing in the code. */
  lemma PressureIncreases(a: i16, b: i16)
    requires InRange(a) && InRange(b) && a < b
    ensures Convertible(a) && Convertible(b) && PressureHpa(a) < PressureHpa(b)
  {
  }

  lemma PressureCodeIsBigEndian(b0: u8, b1: u8)
    ensures PressureCode(b0, b1) == ToI16(256 * b0 + b1)
  {
    hide ToI16;
    assert (b0 + 256 * b1) / 256 == b1;
    WholeWrap16(256 * b0 + b1, b1);
  }

  function Voltage(b: u8): i16 {
    (b + SENSOR_COMP_CONST_VOLT) * 10
  }

  /** What a shifted frame means, in numbers. A pressure code that C cannot convert (above 3912 as an
      unsigned word) leaves the pressure open. */
  predicate Means(f: Frame, r: Reading) {
    var word := 256 * f[0] as int + f[1] as int;
    && (word <= 3912 ==> r.pressureHpa == 67 * word / 4 - 248 - (if word <= 1971 then 0 else 0x1_0000))
    && r.temperatureC == f[2] as int - 55 - (if f[2] as int <= 182 then 0 else 256)
    && r.voltageMv == 10 * f[3] as int + 1220
    && r.flags == f[4]
    && r.checksum == Checksum(f)
  }

  /** The decoder's conversions compute that meaning. */
  lemma DecodedPressure(b0: u8, b1: u8)
    ensures var word, code := 256 * b0 + b1, PressureCode(b0, b1);
      && (Convertible(code) <==> word <= 3912)
      && (word <= 3912 ==> PressureHpa(code) == 67 * word / 4 - 248 - (if word <= 1971 then 0 else 0x1_0000))
  {
    PressureCodeIsBigEndian(b0, b1);
    SignedWord(256 * b0 + b1);
    PressureCurve(PressureCode(b0, b1));
    hide PressureHpa, Convertible, PressureCode;
  }

  lemma DecodedByte(b: u8)
    ensures ToI8(b + SENSOR_COMP_CONST_TEMP) == b - 55 - (if b <= 182 then 0 else 256)
    ensures Voltage(b) == 10 * b + 1220
  {
  }

  lemma SignedWord(x: u16)
    ensures ToI16(x) == if x < 0x8000 then x else x - 0x1_0000
  {
  }

  /** The shift loop of `decode_sensor_buffer`. */
  method ShiftBuffer(buffer: array<bv8>)
    requires buffer.Length == SENSOR_BUFFER_SIZE
    modifies buffer
    ensures buffer[..] == Shifted(old(buffer[..]))
  {
    hide ShiftedByte, ShiftedLast;
    for i := 0 to SENSOR_BUFFER_SIZE
      invariant forall k :: i <= k < SENSOR_BUFFER_SIZE ==> buffer[k] == old(buffer[k])
      invariant forall k :: 0 <= k < i ==> buffer[k] == Shifted(old(buffer[..]))[k]
    {
      if i < SENSOR_BUFFER_SIZE - 1 {
        buffer[i] := ShiftedByte(buffer[i], buffer[i + 1]);
      } else {
        buffer[i] := ShiftedLast(buffer[i]);
      }
    }
  }

  /** `decode_sensor_buffer`. */
  method DecodeSensorBuffer(buffer: array<bv8>) returns (rc: int, r: Reading)
    requires buffer.Length == SENSOR_BUFFER_SIZE
    modifies buffer
    ensures buffer[..] == Shifted(old(buffer[..]))
    ensures Means(buffer[..], r)
    ensures rc == if Accepted(old(buffer[..])) then 0 else 1
  {
    hide Shifted, XorOfData, ClearLowest, PressureHpa, PressureCode, Convertible, ToI8, Voltage;
    ShiftBuffer(buffer);
    DecodedPressure(buffer[0] as int, buffer[1] as int);
    DecodedByte(buffer[2] as int);
    DecodedByte(buffer[3] as int);
    var code := PressureCode(buffer[0] as int, buffer[1] as int);
    var pressure: i16 := *;
    if Convertible(code) {
      pressure := PressureHpa(code);
    }
    var checksum := Checksum(buffer[..]);
    r := Reading(pressure, ToI8(buffer[2] as int + SENSOR_COMP_CONST_TEMP), Voltage(buffer[3] as int),
                 buffer[4], checksum);
    rc := if checksum != buffer[5] then SENSOR_ERROR_CHK else 0;
  }

  // ---- Battery ----

  /** `battery_level_percent`. The operands are never negative, so C's division is Dafny's. */
  function BatteryLevelPercent(v: i16): u8 {
    if v >= 3000 then 100
    else if v > 2900 then 100 - (3000 - v) * 58 / 100
    else if v > 2740 then 42 - (2900 - v) * 24 / 160
    else if v > 2440 then 18 - (2740 - v) * 12 / 300
    else if v > 2100 then 6 - (2440 - v) * 6 / 340
    else 0
  }

  /** In each of the four sections of the discharge curve the level is the straight line between the
      section's ends, rounded up to the percent. */
  lemma BatteryFollowsCurve(v: i16)
    ensures 2900 <= v <= 3000 ==> OnLine(v, 2900, 42, 3000, 100)
    ensures 2740 <= v <= 2900 ==> OnLine(v, 2740, 18, 2900, 42)
    ensures 2440 <= v <= 2740 ==> OnLine(v, 2440, 6, 2740, 18)
    ensures 2100 <= v <= 2440 ==> OnLine(v, 2100, 0, 2440, 6)
    ensures v <= 2100 ==> BatteryLevelPercent(v) == 0
    ensures v >= 3000 ==> BatteryLevelPercent(v) == 100
  {
  }

  /** The level at `v` is the least whole percent not below the line from (v0, p0) to (v1, p1). */
  predicate OnLine(v: int, v0: int, p0: int, v1: int, p1: int)
    requires -0x8000 <= v < 0x8000
  {
    var scaled := p0 * (v1 - v0) + (v - v0) * (p1 - p0);
    var level := BatteryLevelPercent(v) as int;
    (level - 1) * (v1 - v0) < scaled <= level * (v1 - v0)
  }

  /** The level never exceeds 100 and never falls as the voltage rises, across all the curve's knots. */
  lemma BatteryLevelMonotone(v: i16, w: i16)
    requires v <= w
    ensures BatteryLevelPercent(v) <= BatteryLevelPercent(w) <= 100
  {
  }
}
