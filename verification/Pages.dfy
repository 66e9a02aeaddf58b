/** The data pages and their 7-byte payloads
    (include/ant_profiles/tpms/ant_tpms_utils.h and the page_1, page_16 and page_82 codecs). */
module Pages {
  import opened Words

  /** A message: page number and payload. */
  const MESSAGE_SIZE := 8

  type Payload = s: seq<u8> | |s| == MESSAGE_SIZE - 1 witness [0, 0, 0, 0, 0, 0, 0]

  datatype Page1 = Page1(role: u8, alarms: u8, pressure: u16)
  datatype Page16 = Page16(command: u8, role: u8, ambient: u16, alarmLow: u16, alarmHigh: u16)
  datatype Page82 = Page82(count: u8, id: u8, operatingTime: u32, voltageMv: u16, status: BatteryState)

  /** `ANT_COMMON_page82_BATTERY_STATE`: three bits. */
  type BatteryState = x: int | 0 <= x < 8

  const BATTERY_STATE_NEW: BatteryState := 1
  const BATTERY_STATE_GOOD: BatteryState := 2
  const BATTERY_STATE_OK: BatteryState := 3
  const BATTERY_STATE_LOW: BatteryState := 4
  const BATTERY_STATE_CRITICAL: BatteryState := 5
  const BATTERY_STATE_INVALID: BatteryState := 7

  const ROLE_NONE := 0
  const ALARM_ALL := 0
  const ALARM_LOW_OK := 1
  const ALARM_HIGH_OK := 2
  const ALARM_NONE := 3
  const AMBIENT_DEFAULT := 1013
  const UNSET := 0xffff

  const DEFAULT_PAGE_1 := Page1(ROLE_NONE, ALARM_NONE, 0xffff)
  const DEFAULT_PAGE_16 := Page16(0, ROLE_NONE, AMBIENT_DEFAULT, UNSET, UNSET)
  const DEFAULT_PAGE_82 := Page82(0xf, 0xf, 0, 0, BATTERY_STATE_INVALID)

  // ---- Little-endian fields ----

  method Uint16Encode(value: u16, buffer: array<u8>, at: nat) returns (written: nat)
    requires at + 2 <= buffer.Length
    modifies buffer
    ensures buffer[..] == old(buffer[..at]) + Le(value, 2) + old(buffer[at + 2..]) && written == 2
  {
    LeBytes(value);
    buffer[at] := value % 0x100;
    buffer[at + 1] := value / 0x100 % 0x100;
    written := 2;
  }

  method Uint24Encode(value: u32, buffer: array<u8>, at: nat) returns (written: nat)
    requires at + 3 <= buffer.Length
    modifies buffer
    ensures buffer[..] == old(buffer[..at]) + Le(value, 3) + old(buffer[at + 3..]) && written == 3
  {
    LeBytes(value);
    buffer[at] := value % 0x100;
    buffer[at + 1] := value / 0x100 % 0x100;
    buffer[at + 2] := value / 0x1_0000 % 0x100;
    written := 3;
  }

  method Uint32Encode(value: u32, buffer: array<u8>, at: nat) returns (written: nat)
    requires at + 4 <= buffer.Length
    modifies buffer
    ensures buffer[..] == old(buffer[..at]) + Le(value, 4) + old(buffer[at + 4..]) && written == 4
  {
    LeBytes(value);
    buffer[at] := value % 0x100;
    buffer[at + 1] := value / 0x100 % 0x100;
    buffer[at + 2] := value / 0x1_0000 % 0x100;
    buffer[at + 3] := value / 0x100_0000;
    written := 4;
  }

  function Uint16Decode(b: seq<u8>): u16
    requires |b| == 2
  {
    b[0] as int + 0x100 * b[1] as int
  }

  function Uint24Decode(b: seq<u8>): u32
    requires |b| == 3
  {
    b[0] as int + 0x100 * b[1] as int + 0x1_0000 * b[2] as int
  }

  function Uint32Decode(b: seq<u8>): u32
    requires |b| == 4
  {
    b[0] as int + 0x100 * b[1] as int + 0x1_0000 * b[2] as int + 0x100_0000 * b[3] as int
  }

  lemma LeBytes(v: u32)
    ensures Le(v, 2) == [v % 0x100, v / 0x100 % 0x100]
    ensures Le(v, 3) == [v % 0x100, v / 0x100 % 0x100, v / 0x1_0000 % 0x100]
    ensures Le(v, 4) == [v % 0x100, v / 0x100 % 0x100, v / 0x1_0000 % 0x100, v / 0x100_0000]
  {
    hide Le;
    Quotients(v);
    LeStep(v, 1);
    LeStep(v, 2);
    LeStep(v, 3);
    LeStep(v / 0x100, 0);
    LeStep(v / 0x100, 1);
    LeStep(v / 0x100, 2);
    LeStep(v / 0x1_0000, 0);
    LeStep(v / 0x1_0000, 1);
    LeStep(v / 0x100_0000, 0);
  }

  lemma LeStep(v: nat, n: nat)
    ensures Le(v, n + 1) == [v % 0x100] + Le(v / 0x100, n) && Le(v, 0) == []
  {
  }

  lemma Quotients(v: u32)
    ensures v / 0x100 / 0x100 == v / 0x1_0000 && v / 0x1_0000 / 0x100 == v / 0x100_0000
    ensures v / 0x100_0000 % 0x100 == v / 0x100_0000
  {
  }

  /** Decoding undoes encoding on the bits that were encoded. */
  lemma UintRoundTrips(v: u32)
    ensures Uint16Decode(Le(v, 2)) == ToU16(v)
    ensures Uint24Decode(Le(v, 3)) == v % 0x100_0000
    ensures Uint32Decode(Le(v, 4)) == v
  {
    LeBytes(v);
    Digits(v);
  }

  lemma Digits(v: u32)
    ensures v == v % 0x100 + 0x100 * (v / 0x100 % 0x100) + 0x1_0000 * (v / 0x1_0000 % 0x100)
              + 0x100_0000 * (v / 0x100_0000)
    ensures v % 0x1_0000 == v % 0x100 + 0x100 * (v / 0x100 % 0x100)
    ensures v % 0x100_0000 == v % 0x1_0000 + 0x1_0000 * (v / 0x1_0000 % 0x100)
  {
    var v1, v2, v3 := v / 0x100, v / 0x1_0000, v / 0x100_0000;
    assert v1 / 0x100 == v2 && v2 / 0x100 == v3;
    assert v == v % 0x100 + 0x100 * v1 && v1 == v1 % 0x100 + 0x100 * v2 && v2 == v2 % 0x100 + 0x100 * v3;
  }

  /** Encoding undoes decoding, so each pair is a bijection between the values and the bytes. */
  lemma UintBytesRoundTrip(b: seq<u8>)
    ensures |b| == 2 ==> Le(Uint16Decode(b), 2) == b
    ensures |b| == 3 ==> Le(Uint24Decode(b), 3) == b
    ensures |b| == 4 ==> Le(Uint32Decode(b), 4) == b
  {
    if |b| == 2 {
      LeBytes(Uint16Decode(b));
    } else if |b| == 3 {
      LeBytes(Uint24Decode(b));
      Bytes24(b[0], b[1], b[2]);
    } else if |b| == 4 {
      LeBytes(Uint32Decode(b));
      Bytes32(b[0], b[1], b[2], b[3]);
    }
  }

  lemma Bytes24(b0: int, b1: int, b2: int)
    requires 0 <= b0 < 0x100 && 0 <= b1 < 0x100 && 0 <= b2 < 0x100
    ensures var v := b0 + 0x100 * b1 + 0x1_0000 * b2;
      v % 0x100 == b0 && v / 0x100 % 0x100 == b1 && v / 0x1_0000 % 0x100 == b2
  {
  }

  lemma Bytes32(b0: int, b1: int, b2: int, b3: int)
    requires 0 <= b0 < 0x100 && 0 <= b1 < 0x100 && 0 <= b2 < 0x100 && 0 <= b3 < 0x100
    ensures var v := b0 + 0x100 * b1 + 0x1_0000 * b2 + 0x100_0000 * b3;
      v % 0x100 == b0 && v / 0x100 % 0x100 == b1 && v / 0x1_0000 % 0x100 == b2 && v / 0x100_0000 == b3
  {
    var v1, v2 := b1 + 0x100 * b2 + 0x1_0000 * b3, b2 + 0x100 * b3;
    assert b0 + 0x100 * v1 == b0 + 0x100 * b1 + 0x1_0000 * v2;
    assert (b0 + 0x100 * v1) / 0x100 == v1 && v1 % 0x100 == b1;
    assert (b0 + 0x100 * b1 + 0x1_0000 * v2) / 0x1_0000 == v2 && v2 % 0x100 == b2;
  }

  // ---- Page 1 ----

  function EncodePage1(p: Page1): Payload {
    [p.role, p.alarms, 0xFF, 0xFF, 0xFF] + Le(p.pressure, 2)
  }

  function DecodePage1(b: Payload): Page1 {
    Page1(b[0], b[1], Uint16Decode(b[5..7]))
  }

  // ---- Page 16 ----

  /** The first byte holds the role in its low and the command in its high four bits. */
  function EncodePage16(p: Page16): Payload {
    [p.role % 16 + 16 * (p.command % 16)] + Le(p.ambient, 2) + Le(p.alarmLow, 2) + Le(p.alarmHigh, 2)
  }

  function DecodePage16(b: Payload): Page16 {
    Page16(b[0] / 16, b[0] % 16, Uint16Decode(b[1..3]), Uint16Decode(b[3..5]), Uint16Decode(b[5..7]))
  }

  // ---- Page 82 ----

  function VoltageFraction(mv: u16): u8 {
    mv % 1000 * 256 / 1000
  }

  function EncodePage82(p: Page82): Payload {
    var known := p.status != BATTERY_STATE_INVALID;
    var fraction := if known then VoltageFraction(p.voltageMv) else 0xFF;
    var coarse := if known then ToU8(p.voltageMv / 1000) else 0xF;
    [0xFF, p.count % 16 + 16 * (p.id % 16)] + Le(p.operatingTime / 2, 3)
    + [fraction, coarse % 16 + 16 * (p.status % 8) + 128]
  }

  function DecodePage82(b: Payload): Page82 {
    Page82(b[1] % 16, b[1] / 16,
           Uint24Decode(b[2..5]) * (if b[6] / 128 == 1 then 2 else 16),
           b[6] as int % 16 * 1000 + b[5] as int * 1000 / 256,
           b[6] / 16 % 8)
  }

  // ---- The payloads byte by byte ----

  lemma Page1Layout(p: Page1)
    ensures EncodePage1(p) == [p.role, p.alarms, 255, 255, 255, p.pressure % 256, p.pressure / 256]
  {
    hide Le;
    LeBytes(p.pressure);
    SecondByte(p.pressure);
  }

  lemma Page16Layout(p: Page16)
    ensures EncodePage16(p) ==
      [p.role % 16 + 16 * (p.command % 16), p.ambient % 256, p.ambient / 256,
       p.alarmLow % 256, p.alarmLow / 256, p.alarmHigh % 256, p.alarmHigh / 256]
  {
    hide Le;
    LeBytes(p.ambient);
    LeBytes(p.alarmLow);
    LeBytes(p.alarmHigh);
    SecondByte(p.ambient);
    SecondByte(p.alarmLow);
    SecondByte(p.alarmHigh);
  }

  /** Time in units of two seconds, the fraction of a volt in 256ths, whole volts modulo 16 and status;
      all ones for an invalid voltage. */
  lemma Page82Layout(p: Page82)
    ensures var time := p.operatingTime / 2;
      EncodePage82(p) ==
        [255, p.count % 16 + 16 * (p.id % 16), time % 256, time / 256 % 256, time / 0x1_0000 % 256]
        + if p.status == 7 then [255, 255]
          else [p.voltageMv % 1000 * 256 / 1000, p.voltageMv / 1000 % 16 + 16 * p.status + 128]
  {
    hide Le;
    LeBytes(p.operatingTime / 2);
  }

  /** Decoding any payload, also one whose topmost bit is clear and which counts in 16 seconds. */
  lemma Page82Decoded(b: Payload)
    ensures var d := DecodePage82(b);
      && d.operatingTime == (b[2] as int + 256 * b[3] as int + 0x1_0000 * b[4] as int) * (if b[6] < 128 then 16 else 2)
      && d.voltageMv == b[6] as int % 16 * 1000 + b[5] as int * 1000 / 256
      && d.count == b[1] % 16 && d.id == b[1] / 16 && d.status == b[6] / 16 % 8
  {
  }

  lemma SecondByte(v: u16)
    ensures v / 256 % 256 == v / 256
  {
  }

  // ---- Encoding into a message buffer, whose first byte is the page number ----

  method Page1Encode(buffer: array<u8>, p: Page1)
    requires buffer.Length == MESSAGE_SIZE
    modifies buffer
    ensures buffer[..] == [old(buffer[0])] + EncodePage1(p)
  {
    hide Le;
    buffer[1], buffer[2] := p.role, p.alarms;
    buffer[3], buffer[4], buffer[5] := 0xFF, 0xFF, 0xFF;
    var _ := Uint16Encode(p.pressure, buffer, 6);
  }

  method Page16Encode(buffer: array<u8>, p: Page16)
    requires buffer.Length == MESSAGE_SIZE
    modifies buffer
    ensures buffer[..] == [old(buffer[0])] + EncodePage16(p)
  {
    hide Le;
    buffer[1] := buffer[1] % 16 + 16 * (p.command % 16);
    buffer[1] := p.role % 16 + 16 * (buffer[1] / 16);
    var _ := Uint16Encode(p.ambient, buffer, 2);
    var _ := Uint16Encode(p.alarmLow, buffer, 4);
    var _ := Uint16Encode(p.alarmHigh, buffer, 6);
  }

  method Page82Encode(buffer: array<u8>, p: Page82)
    requires buffer.Length == MESSAGE_SIZE
    modifies buffer
    ensures buffer[..] == [old(buffer[0])] + EncodePage82(p)
  {
    hide Le, VoltageFraction;
    buffer[1] := 0xFF;
    buffer[2] := p.count % 16 + 16 * (p.id % 16);
    var _ := Uint24Encode(p.operatingTime / 2, buffer, 3);
    var fraction, coarse: u8 := 0xFF, 0xF;
    if p.status != BATTERY_STATE_INVALID {
      fraction := VoltageFraction(p.voltageMv);
      coarse := ToU8(p.voltageMv / 1000);
    }
    buffer[6] := fraction;
    buffer[7] := coarse % 16 + 16 * (p.status % 8) + 128;
  }

  // ---- Exact round trips ----

  lemma Page1RoundTrip(p: Page1)
    ensures DecodePage1(EncodePage1(p)) == p
  {
    UintRoundTrips(p.pressure);
  }

  lemma WordFits(v: u16)
    ensures ToU16(v) == v
  {
  }

  lemma Nibbles(low: int, high: int)
    requires 0 <= low < 16 && 0 <= high < 16
    ensures (low + 16 * high) % 16 == low && (low + 16 * high) / 16 == high
  {
  }

  /** Page 16 loses nothing but the bits of role and command above the lowest four. */
  lemma Page16RoundTrip(p: Page16)
    ensures DecodePage16(EncodePage16(p)) == p.(role := p.role % 16, command := p.command % 16)
  {
    hide Le, Uint16Decode;
    UintRoundTrips(p.ambient);
    UintRoundTrips(p.alarmLow);
    UintRoundTrips(p.alarmHigh);
    hide EncodePage16, ToU16;
    Nibbles(p.role % 16, p.command % 16);
    WordFits(p.ambient);
    WordFits(p.alarmLow);
    WordFits(p.alarmHigh);
    Page16Parts(p);
  }

  lemma Page16Parts(p: Page16)
    ensures var b := EncodePage16(p);
      && b[0] == p.role % 16 + 16 * (p.command % 16)
      && b[1..3] == Le(p.ambient, 2) && b[3..5] == Le(p.alarmLow, 2) && b[5..7] == Le(p.alarmHigh, 2)
  {
    hide Le;
  }

  /** Every payload is the encoding of the page it decodes to. */
  lemma Page16PayloadRoundTrip(b: Payload)
    ensures EncodePage16(DecodePage16(b)) == b
  {
    hide Le;
    UintBytesRoundTrip(b[1..3]);
    UintBytesRoundTrip(b[3..5]);
    UintBytesRoundTrip(b[5..7]);
    assert b == [b[0]] + b[1..3] + b[3..5] + b[5..7];
  }

  // ---- Page 82: rounding ----

  /** The voltage a receiver sees. */
  function RoundedVoltage(mv: u16): u16 {
    mv / 1000 % 16 * 1000 + VoltageFraction(mv) as int * 1000 / 256
  }

  /** The operating time a receiver sees. */
  function RoundedTime(t: u32): u32 {
    (t - t % 2) % 0x200_0000
  }

  lemma FractionError(e: int)
    requires 0 <= e < 1000
    ensures 0 <= e * 256 / 1000 <= 255 && e - 4 <= e * 256 / 1000 * 1000 / 256 <= e
  {
  }

  lemma Thousands(mv: u16)
    ensures mv % 16000 == mv / 1000 % 16 * 1000 + mv % 1000 && (mv % 16000 == mv <==> mv < 16000)
  {
    var q := mv / 16000;
    assert mv / 1000 - 16 * q == mv % 16000 / 1000;
  }

  /** Rounding costs at most 4 mV, and voltages from 16 V on lose their multiples of 16 V. */
  lemma VoltageError(mv: u16)
    ensures mv % 16000 - 4 <= RoundedVoltage(mv) <= mv % 16000
    ensures mv - 4 <= RoundedVoltage(mv) <= mv <==> mv < 16000
  {
    FractionError(mv % 1000);
    Thousands(mv);
  }

  lemma FractionMonotone(e: int, f: int)
    requires 0 <= e <= f < 1000
    ensures e * 256 / 1000 * 1000 / 256 <= f * 256 / 1000 * 1000 / 256
  {
    assert e * 256 / 1000 <= f * 256 / 1000;
  }

  lemma VoltageMonotone(a: u16, b: u16)
    requires a <= b < 16000
    ensures RoundedVoltage(a) <= RoundedVoltage(b)
  {
    VoltageError(a);
    VoltageError(b);
    if a / 1000 == b / 1000 {
      FractionMonotone(a % 1000, b % 1000);
    } else {
      FractionError(a % 1000);
      FractionError(b % 1000);
    }
  }

  /** What a receiver decodes from an encoded page 82. */
  function RoundedPage82(p: Page82): Page82 {
    Page82(p.count % 16, p.id % 16, RoundedTime(p.operatingTime),
           if p.status == BATTERY_STATE_INVALID then 15996 else RoundedVoltage(p.voltageMv), p.status % 8)
  }

  lemma Page82RoundTrip(p: Page82)
    ensures DecodePage82(EncodePage82(p)) == RoundedPage82(p)
  {
    hide Le, Uint24Decode, RoundedTime, VoltageFraction;
    var b := EncodePage82(p);
    UintRoundTrips(p.operatingTime / 2);
    assert b[2..5] == Le(p.operatingTime / 2, 3);
    HalvedTime(p.operatingTime);
    Nibbles(p.count % 16, p.id % 16);
    DescriptiveField(if p.status != BATTERY_STATE_INVALID then p.voltageMv / 1000 % 16 else 0xF, p.status);
    assert b[6] == (if p.status != BATTERY_STATE_INVALID then p.voltageMv / 1000 % 16 else 0xF) + 16 * p.status + 128;
  }

  lemma DescriptiveField(coarse: int, status: int)
    requires 0 <= coarse < 16 && 0 <= status < 8
    ensures var b := coarse + 16 * status + 128; b / 128 == 1 && b % 16 == coarse && b / 16 % 8 == status
  {
  }

  lemma HalvedTime(t: u32)
    ensures t / 2 % 0x100_0000 * 2 == RoundedTime(t)
  {
  }

  // ---- Page 82: encoding again ----

  /** A decoded fraction encodes again to itself or to one less. */
  lemma ReencodedFraction(f: int)
    requires 0 <= f < 256
    ensures f * 1000 / 256 * 256 / 1000 == if f % 32 == 0 then f else f - 1
  {
    var x, r := f * 1000 / 256, f * 1000 % 256;
    assert 256 * x == 1000 * f - r;
    var q, s := f / 32, f % 32;
    assert 1000 * f == 256 * (125 * q) + 8 * (125 * s);
    assert s == 0 ==> r == 0;
    NotMultiple(s);
  }

  lemma NotMultiple(s: int)
    requires 0 <= s < 32
    ensures 1000 * s % 256 == 0 ==> s == 0
  {
  }

  /** Encoding a decoded page 82 reproduces the payload exactly if its reserved byte and resolution
      flag are as this encoder sets them and its fraction is a multiple of 32 (all ones if invalid). */
  lemma Page82PayloadRoundTripIff(b: Payload)
    ensures EncodePage82(DecodePage82(b)) == b <==>
      && b[0] == 0xFF && b[6] >= 128
      && (if b[6] / 16 % 8 == BATTERY_STATE_INVALID then b[5] == 0xFF && b[6] % 16 == 0xF else b[5] % 32 == 0)
  {
    hide Le, Uint24Decode, EncodePage82, DecodePage82;
    var time := Uint24Decode(b[2..5]);
    UintBytesRoundTrip(b[2..5]);
    Reencoded(b);
    assert b == [b[0], b[1]] + b[2..5] + [b[5], b[6]];
  }

  /** A decoded page 82, encoded again. */
  lemma Reencoded(b: Payload)
    ensures var invalid := b[6] / 16 % 8 == BATTERY_STATE_INVALID;
      var flagged := if b[6] >= 128 then b[6] else b[6] + 128;
      EncodePage82(DecodePage82(b)) ==
        [0xFF, b[1]] + Le(Uint24Decode(b[2..5]) * (if b[6] >= 128 then 1 else 8), 3)
        + (if invalid then [0xFF, flagged + (15 - b[6] % 16)] else [if b[5] % 32 == 0 then b[5] else b[5] - 1, flagged])
  {
    hide Le, Uint24Decode, VoltageFraction, ToU8;
    ReencodedTail(b[5], b[6]);
    ReencodedHead(b[1], Uint24Decode(b[2..5]));
    TopBit(b[6]);
  }

  lemma ReencodedHead(b1: u8, time: int)
    ensures b1 % 16 % 16 + 16 * (b1 / 16 % 16) == b1 && time * 2 / 2 == time && time * 16 / 2 == time * 8
  {
  }

  lemma TopBit(b: u8)
    ensures b / 128 == 1 <==> b >= 128
  {
  }

  /** The last two bytes of a payload, decoded and encoded again. */
  lemma ReencodedTail(b5: u8, b6: u8)
    ensures var mv := b6 as int % 16 * 1000 + b5 as int * 1000 / 256;
      && VoltageFraction(mv) == (if b5 % 32 == 0 then b5 else b5 - 1)
      && ToU8(mv / 1000) % 16 + 16 * (b6 / 16 % 8 % 8) + 128 == (if b6 >= 128 then b6 else b6 + 128)
      && 0xF + 16 * (b6 / 16 % 8 % 8) + 128 == (if b6 >= 128 then b6 else b6 + 128) + (15 - b6 % 16)
  {
    hide VoltageFraction, ToU8;
    ReencodedFraction(b5);
    SplitThousands(b6 % 16, b5 as int * 1000 / 256);
    SplitNibbles(b6);
  }

  lemma SplitThousands(coarse: int, x: int)
    requires 0 <= coarse < 16 && 0 <= x < 1000
    ensures VoltageFraction(coarse * 1000 + x) == x * 256 / 1000 && (coarse * 1000 + x) / 1000 == coarse
    ensures ToU8((coarse * 1000 + x) / 1000) % 16 == coarse
  {
  }

  lemma SplitNibbles(b: u8)
    ensures b % 16 + 16 * (b / 16 % 8) + 128 == if b >= 128 then b else b + 128
  {
  }

  /** So repeated relaying drifts: 4 mV becomes 3 mV and then 0. */
  lemma RelayedVoltageDrifts()
    ensures RoundedVoltage(4) == 3 && RoundedVoltage(3) == 0
  {
    assert VoltageFraction(4) == 1;
    assert VoltageFraction(3) == 0;
  }
}
