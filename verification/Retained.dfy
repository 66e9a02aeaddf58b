/** The record that outlives system off (src/retained.c). */
module Retained {
  import opened Words
  import opened Crc32
  import opened RamRetention

  datatype Record = Record(uptimeLatest: u64, uptimeSum: u64, boots: u32, offCount: u32, crc: bv32)

  const ZERO := Record(0, 0, 0, 0, 0)

  /** Bytes of the record that the check covers: 24 of payload and 4 of CRC. */
  const CHECKED_SIZE := 28

  function AsBits(s: seq<u8>): (b: seq<bv8>)
    ensures |b| == |s|
  {
    seq(|s|, i requires 0 <= i < |s| => s[i] as bv8)
  }

  function Payload(r: Record): (b: seq<bv8>)
    ensures |b| == CHECKED_SIZE - 4
  {
    AsBits(Le(r.uptimeLatest, 8) + Le(r.uptimeSum, 8) + Le(r.boots, 4) + Le(r.offCount, 4))
  }

  /** The record's checked bytes as they lie in memory. */
  function Image(r: Record): (b: seq<bv8>)
    ensures |b| == CHECKED_SIZE
  {
    Payload(r) + WordBytes(r.crc)
  }

  /** The residue check. */
  predicate Checked(r: Record) {
    Crc32Ieee(Image(r)) == RESIDUE
  }

  /** What `retained_validate` leaves of a record. */
  function Validated(r: Record): Record {
    (if Checked(r) then r else ZERO).(uptimeLatest := 0)
  }

  /** What `retained_update` makes of a record. */
  function Updated(r: Record, now: u32): Record {
    var accrued := r.(uptimeSum := ToU64(r.uptimeSum + ToU64(now - r.uptimeLatest)), uptimeLatest := now);
    accrued.(crc := Crc32Ieee(Payload(accrued)))
  }

  // ---- The image ----

  /** The number that bytes hold, least significant first. */
  function FromBytes(b: seq<bv8>): nat {
    if b == [] then 0 else b[0] as int + 256 * FromBytes(b[1..])
  }

  /** How many numbers `n` bytes hold. */
  function Numbers(n: nat): nat {
    if n == 0 then 1 else 256 * Numbers(n - 1)
  }

  lemma {:induction false} FromBytesOfLe(v: nat, n: nat)
    requires v < Numbers(n)
    ensures FromBytes(AsBits(Le(v, n))) == v
  {
    if n != 0 {
      FromBytesOfLe(v / 256, n - 1);
      ByteAsInt(v % 256);
      assert AsBits(Le(v, n))[1..] == AsBits(Le(v / 256, n - 1));
    }
  }

  lemma Widths()
    ensures Numbers(4) == 0x1_0000_0000 && Numbers(8) == 0x1_0000_0000_0000_0000
  {
    assert Numbers(2) == 0x1_0000;
    assert Numbers(6) == 0x1_0000_0000 * Numbers(2);
  }

  lemma AsBitsAppend(s: seq<u8>, t: seq<u8>)
    ensures AsBits(s + t) == AsBits(s) + AsBits(t)
  {
  }

  lemma WordOfBytes(w: bv32)
    ensures var b := WordBytes(w);
      w == (b[0] as bv32) | ((b[1] as bv32) << 8) | ((b[2] as bv32) << 16) | ((b[3] as bv32) << 24)
  {
  }

  /** Each field is the number in its own bytes of the image, least significant byte first. */
  lemma ImageFields(r: Record)
    ensures var b := Image(r);
      && FromBytes(b[0..8]) == r.uptimeLatest && FromBytes(b[8..16]) == r.uptimeSum
      && FromBytes(b[16..20]) == r.boots && FromBytes(b[20..24]) == r.offCount
      && r.crc == (b[24] as bv32) | ((b[25] as bv32) << 8) | ((b[26] as bv32) << 16) | ((b[27] as bv32) << 24)
  {
    WordOfBytes(r.crc);
    hide Le, AsBits, FromBytes, Numbers, WordBytes;
    Widths();
    FromBytesOfLe(r.uptimeLatest, 8);
    FromBytesOfLe(r.uptimeSum, 8);
    FromBytesOfLe(r.boots, 4);
    FromBytesOfLe(r.offCount, 4);
    var s, t, u, v := Le(r.uptimeLatest, 8), Le(r.uptimeSum, 8), Le(r.boots, 4), Le(r.offCount, 4);
    AsBitsAppend(s + t + u, v);
    AsBitsAppend(s + t, u);
    AsBitsAppend(s, t);
    var b := Image(r);
    assert b[0..8] == AsBits(s) && b[8..16] == AsBits(t) && b[16..20] == AsBits(u) && b[20..24] == AsBits(v);
    assert b[24..28] == WordBytes(r.crc);
  }

  /** So the image determines the record. */
  lemma ImageInjective(a: Record, b: Record)
    requires Image(a) == Image(b)
    ensures a == b
  {
    hide Image, FromBytes;
    ImageFields(a);
    ImageFields(b);
  }

  /** Validation accepts exactly the records that store the CRC of the 24 bytes before it. */
  lemma CheckedIff(r: Record)
    ensures Checked(r) <==> r.crc == Crc32Ieee(Image(r)[..24])
  {
    hide Crc32Ieee, Payload, WordBytes;
    assert Image(r)[..24] == Payload(r);
    ResidueIff(Payload(r), WordBytes(r.crc));
    if WordBytes(r.crc) == WordBytes(Crc32Ieee(Payload(r))) {
      WordBytesInjective(r.crc, Crc32Ieee(Payload(r)));
    }
  }

  /** Whatever the record held, an update leaves one that validates. */
  lemma UpdatedIsChecked(r: Record, now: u32)
    ensures Checked(Updated(r, now))
  {
    hide Crc32Ieee, Checked, WordBytes;
    var u := Updated(r, now);
    CheckedIff(u);
    assert Image(u)[..24] == Payload(u) == Payload(u.(crc := r.crc));
  }

  /** Any corruption of a valid record within 32 consecutive bits is caught, and the record zeroed. */
  lemma BurstIsRejected(good: Record, bad: Record, lo: nat, hi: nat)
    requires Checked(good) && Burst(Image(good), Image(bad), lo, hi) && good != bad
    ensures !Checked(bad) && Validated(bad) == Record(0, 0, 0, 0, 0)
  {
    hide Crc32Ieee, Image, Burst;
    if Image(good) == Image(bad) {
      ImageInjective(good, bad);
    }
    BurstChangesCrc(Image(good), Image(bad), lo, hi);
  }

  /** Four consecutive bytes are such a window. */
  lemma FourBytesAreBurst(m: seq<bv8>, n: seq<bv8>, at: nat)
    requires |m| == |n| && at + 4 <= |m|
    requires forall i :: 0 <= i < |m| && !(at <= i < at + 4) ==> m[i] == n[i]
    ensures Burst(m, n, 8 * at, 8 * at + 32)
  {
    hide ByteBits;
    assert m == m[..at] + (m[at..at + 4] + m[at + 4..]);
    assert n == n[..at] + (n[at..at + 4] + n[at + 4..]);
    BitsAppend(m[..at], m[at..at + 4] + m[at + 4..]);
    BitsAppend(n[..at], n[at..at + 4] + n[at + 4..]);
    BitsAppend(m[at..at + 4], m[at + 4..]);
    BitsAppend(n[at..at + 4], n[at + 4..]);
    assert m[..at] == n[..at] && m[at + 4..] == n[at + 4..];
  }

  /** `retained`, at its address in RAM. */
  class RetainedData {
    const address: u32
    var uptimeLatest: u64
    var uptimeSum: u64
    var boots: u32
    var offCount: u32
    var crc: bv32

    /** The record keeps whatever RAM held before. */
    constructor (address: u32, left: Record)
      ensures this.address == address && View() == left
    {
      this.address := address;
      uptimeLatest, uptimeSum := left.uptimeLatest, left.uptimeSum;
      boots, offCount, crc := left.boots, left.offCount, left.crc;
    }

    function View(): Record
      reads this
    {
      Record(uptimeLatest, uptimeSum, boots, offCount, crc)
    }

    /** `retained_validate`. */
    method Validate(sram: Sram, power: RamPower) returns (valid: bool)
      requires sram.Valid() && sram.Contains(address, CHECKED_SIZE)
      modifies this, power
      ensures valid == Checked(old(View())) && View() == Validated(old(View()))
      ensures View() == if valid then old(View()).(uptimeLatest := 0) else Record(0, 0, 0, 0, 0)
      ensures power.bits == old(power.bits) + RangeBits(sram, address, CHECKED_SIZE)
    {
      hide Crc32Ieee, Image, RangeBits;
      valid := Crc32Ieee(Image(View())) == RESIDUE;
      if !valid {
        uptimeLatest, uptimeSum, boots, offCount, crc := 0, 0, 0, 0, 0;
      }
      uptimeLatest := 0;
      var _ := power.RangeRetain(sram, address, CHECKED_SIZE, true);
    }

    /** `retained_update`; `now` is the uptime in seconds. */
    method Update(now: u32)
      modifies this
      ensures View() == Updated(old(View()), now)
    {
      hide Crc32Ieee, Payload;
      uptimeSum := ToU64(uptimeSum + ToU64(now - uptimeLatest));
      uptimeLatest := now;
      crc := Crc32Ieee(Payload(View()));
    }
  }
}
