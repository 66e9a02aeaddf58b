/** Which RAM sections keep their contents in system off (`ram_range_retain` in src/retained.c). */
module RamRetention {
  import opened Words

  const SMALL_SECTION_SIZE := 4096
  const SMALL_SECTIONS_PER_BLOCK := 2
  const SMALL_BLOCK_COUNT := 8
  const SMALL_SECTION_SPAN := SMALL_BLOCK_COUNT * SMALL_SECTIONS_PER_BLOCK * SMALL_SECTION_SIZE
  const LARGE_SECTION_SIZE := 32768
  const LARGE_SECTIONS_PER_BLOCK := 16

  /** Position of section 0's retention bit in a `RAM[n].POWER` register. */
  const S0RETENTION_POS := 16

  /** One set bit of the power registers: register (block) number and bit position. */
  type PowerBit = (nat, nat)

  /** The chip's RAM, aligned to its largest section. The bounds keep the section stepping below
      2^32 and the block number within a byte. */
  datatype Sram = Sram(begin: nat, size: nat) {
    function End(): nat {
      begin + size
    }

    predicate Valid() {
      && begin % LARGE_SECTION_SIZE == 0
      && End() <= 0x1_0000_0000 - LARGE_SECTION_SIZE
      && size <= SMALL_SECTION_SPAN + 248 * LARGE_SECTIONS_PER_BLOCK * LARGE_SECTION_SIZE
    }

    predicate Contains(addr: int, len: int) {
      begin <= addr && addr + len <= End()
    }
  }

  /** First address of a section. */
  function SectionBegin(sram: Sram, block: nat, section: nat): nat {
    if block < SMALL_BLOCK_COUNT then
      sram.begin + (block * SMALL_SECTIONS_PER_BLOCK + section) * SMALL_SECTION_SIZE
    else
      sram.begin + SMALL_SECTION_SPAN
      + ((block - SMALL_BLOCK_COUNT) * LARGE_SECTIONS_PER_BLOCK + section) * LARGE_SECTION_SIZE
  }

  function SectionSize(block: nat): nat {
    if block < SMALL_BLOCK_COUNT then SMALL_SECTION_SIZE else LARGE_SECTION_SIZE
  }

  function SectionCount(block: nat): nat {
    if block < SMALL_BLOCK_COUNT then SMALL_SECTIONS_PER_BLOCK else LARGE_SECTIONS_PER_BLOCK
  }

  /** The section's span of addresses meets the range. */
  predicate Meets(sram: Sram, block: nat, section: nat, addr: nat, len: nat) {
    var lo := SectionBegin(sram, block, section);
    lo < addr + len && addr < lo + SectionSize(block)
  }

  function SmallBit(n: nat): PowerBit {
    (n / SMALL_SECTIONS_PER_BLOCK, S0RETENTION_POS + n % SMALL_SECTIONS_PER_BLOCK)
  }

  function LargeBit(n: nat): PowerBit {
    (SMALL_BLOCK_COUNT + n / LARGE_SECTIONS_PER_BLOCK, S0RETENTION_POS + n % LARGE_SECTIONS_PER_BLOCK)
  }

  /** The retention bit of the section holding the byte at `addr`. */
  function ByteBit(sram: Sram, addr: nat): PowerBit
    requires sram.begin <= addr
  {
    var off := addr - sram.begin;
    if off < SMALL_SECTION_SPAN then SmallBit(off / SMALL_SECTION_SIZE)
    else LargeBit((off - SMALL_SECTION_SPAN) / LARGE_SECTION_SIZE)
  }

  /** The retention bits of a range, one byte at a time. */
  function RangeBits(sram: Sram, addr: nat, len: nat): set<PowerBit>
    requires sram.begin <= addr
  {
    set a | addr <= a < addr + len :: ByteBit(sram, a)
  }

  /** The bit of the byte `off` bytes into RAM: two 4 KiB sections to each of blocks 0 to 7, sixteen
      32 KiB sections to each later one, on bits from 16 up. */
  lemma BitOfOffset(sram: Sram, off: nat)
    ensures ByteBit(sram, sram.begin + off) ==
      if off < 0x1_0000 then (off / 0x2000, 16 + off % 0x2000 / 0x1000)
      else (8 + (off - 0x1_0000) / 0x8_0000, 16 + (off - 0x1_0000) % 0x8_0000 / 0x8000)
  {
    if off < 0x1_0000 {
      Regroup(off, 0x1000, 2);
    } else {
      Regroup(off - 0x1_0000, 0x8000, 16);
    }
  }

  lemma Regroup(off: nat, size: nat, count: nat)
    requires (size == 0x1000 && count == 2) || (size == 0x8000 && count == 16)
    ensures off / size / count == off / (size * count) && off / size % count == off % (size * count) / size
  {
    if size == 0x1000 {
    } else {
    }
  }

  /** The section that `ByteBit` names is the one whose span holds the byte. */
  lemma ByteBitHoldsByte(sram: Sram, addr: nat, block: nat, section: nat)
    requires sram.begin <= addr && section < SectionCount(block)
    ensures ByteBit(sram, addr) == (block, S0RETENTION_POS + section) <==> Meets(sram, block, section, addr, 1)
  {
  }

  /** A range's bits are exactly those of the sections whose span meets it. */
  lemma RangeBitsAreSpans(sram: Sram, addr: nat, len: nat, block: nat, section: nat)
    requires sram.begin <= addr && section < SectionCount(block)
    ensures (block, S0RETENTION_POS + section) in RangeBits(sram, addr, len)
       <==> len > 0 && Meets(sram, block, section, addr, len)
  {
    var bit := (block, S0RETENTION_POS + section);
    if bit in RangeBits(sram, addr, len) {
      var a :| addr <= a < addr + len && ByteBit(sram, a) == bit;
      ByteBitHoldsByte(sram, a, block, section);
    }
    if len > 0 && Meets(sram, block, section, addr, len) {
      var lo := SectionBegin(sram, block, section);
      var a := if lo < addr then addr else lo;
      ByteBitHoldsByte(sram, a, block, section);
      assert bit == ByteBit(sram, a);
    }
  }

  /** The firmware's range check, in 32-bit arithmetic. */
  predicate Accepts(sram: Sram, addr: u32, len: u32) {
    len != 0 && sram.begin <= addr && addr <= ToU32(sram.End() - len)
  }

  /** The check passes for the non-empty ranges within RAM, and wrongly for those longer than the
      RAM's end address that leave the address space by no more than that. */
  lemma AcceptsIff(sram: Sram, addr: u32, len: u32)
    requires sram.Valid()
    ensures Accepts(sram, addr, len) <==>
      && len != 0 && sram.begin <= addr
      && (sram.Contains(addr, len) || (len > sram.End() && addr + len <= sram.End() + 0x1_0000_0000))
  {
  }

  lemma AcceptsOutOfRange()
    ensures var sram := Sram(0x2000_0000, 0x1_0000);
      && sram.Valid() && Accepts(sram, 0x2000_0000, 0xF000_0000)
      && !sram.Contains(0x2000_0000, 0xF000_0000)
  {
  }

  function Advance(addr: nat, sectionSize: nat): nat
    requires sectionSize > 0
  {
    addr + (sectionSize - addr % sectionSize)
  }

  function StepSize(sram: Sram, addr: nat): (size: nat)
    ensures size > 0
  {
    if addr >= sram.begin + SMALL_SECTION_SPAN then LARGE_SECTION_SIZE else SMALL_SECTION_SIZE
  }

  /** First address of the next section. */
  function NextSection(sram: Sram, addr: nat): nat {
    Advance(addr, StepSize(sram, addr))
  }

  /** What the loop steps to, in 32 bits. */
  function Step32(sram: Sram, addr: u32): u32 {
    ToU32(NextSection(sram, addr))
  }

  /** The loop, entered at `addr`, ends within `n` passes. */
  predicate EndsWithin(sram: Sram, addr: u32, end: u32, n: nat)
    decreases n
  {
    n > 0 && (Step32(sram, addr) >= end || EndsWithin(sram, Step32(sram, addr), end, n - 1))
  }

  /** First address of the last large section below 2^32. */
  const LAST_STEP: u32 := 0xFFFF_8000

  lemma StepGrows(sram: Sram, addr: u32)
    requires addr < LAST_STEP
    ensures addr < Step32(sram, addr) == NextSection(sram, addr)
  {
  }

  lemma {:induction false} LoopEnds(sram: Sram, addr: u32, end: u32) returns (n: nat)
    requires end <= LAST_STEP
    ensures EndsWithin(sram, addr, end, n)
    decreases addr >= end, end - addr
  {
    hide Step32;
    n := 1;
    if Step32(sram, addr) < end {
      if addr < end {
        StepGrows(sram, addr);
      }
      n := LoopEnds(sram, Step32(sram, addr), end);
      n := n + 1;
    }
  }

  /** With RAM of 64 KiB or more no step passes the last large section. */
  lemma StepIsBounded(sram: Sram, addr: u32)
    requires sram.Valid() && sram.size >= SMALL_SECTION_SPAN
    ensures Step32(sram, addr) <= LAST_STEP
  {
    Alignment(sram);
    if addr >= sram.begin + SMALL_SECTION_SPAN {
      LargeStepIsBounded(addr);
    } else {
      SmallStepStays(sram.begin + SMALL_SECTION_SPAN, addr);
    }
  }

  lemma LargeStepIsBounded(addr: u32)
    ensures ToU32(addr + (32768 - addr % 32768)) <= LAST_STEP
  {
    var q := addr / 32768;
    assert addr + (32768 - addr % 32768) == 32768 * (q + 1) && q < 0x2_0000;
  }

  lemma {:induction false} LoopGoesOn(sram: Sram, addr: u32, end: u32, n: nat)
    requires sram.Valid() && sram.size >= SMALL_SECTION_SPAN && end > LAST_STEP
    ensures !EndsWithin(sram, addr, end, n)
    decreases n
  {
    hide Step32;
    StepIsBounded(sram, addr);
    if n > 0 {
      LoopGoesOn(sram, Step32(sram, addr), end, n - 1);
    }
  }

  ghost predicate Ends(sram: Sram, addr: u32, end: u32) {
    exists n: nat :: EndsWithin(sram, addr, end, n)
  }

  /** The loop ends exactly if the end address is no higher than the last large section. */
  lemma LoopEndsIff(sram: Sram, addr: u32, end: u32)
    requires sram.Valid() && sram.size >= SMALL_SECTION_SPAN
    ensures Ends(sram, addr, end) <==> end <= LAST_STEP
  {
    if end <= LAST_STEP {
      var n := LoopEnds(sram, addr, end);
    } else {
      forall n: nat
        ensures !EndsWithin(sram, addr, end, n)
      {
        LoopGoesOn(sram, addr, end, n);
      }
    }
  }

  /** A range that the check accepts and the loop never finishes. */
  lemma AcceptedAndEndless()
    ensures var sram := Sram(0x2000_0000, 0x1_0000);
      && Accepts(sram, 0x2000_0000, 0xDFFF_FFFF)
      && !Ends(sram, 0x2000_0000, ToU32(0x2000_0000 + 0xDFFF_FFFF))
  {
    LoopEndsIff(Sram(0x2000_0000, 0x1_0000), 0x2000_0000, ToU32(0x2000_0000 + 0xDFFF_FFFF));
  }

  // ---- What the loop marks ----

  /** The bit one pass computes, for any address, in 32 bits and with an 8-bit block number. */
  function PassBit(sram: Sram, addr: u32): PowerBit {
    if addr >= sram.begin + SMALL_SECTION_SPAN then
      var n := (addr - (sram.begin + SMALL_SECTION_SPAN)) / LARGE_SECTION_SIZE;
      (ToU8(SMALL_BLOCK_COUNT + n / LARGE_SECTIONS_PER_BLOCK), S0RETENTION_POS + n % LARGE_SECTIONS_PER_BLOCK)
    else
      var n := ToU32(addr - sram.begin) / SMALL_SECTION_SIZE;
      (ToU8(n / SMALL_SECTIONS_PER_BLOCK), S0RETENTION_POS + n % SMALL_SECTIONS_PER_BLOCK)
  }

  /** The bits of all passes of the loop, if it ends. */
  function Visited(sram: Sram, addr: u32, end: u32): set<PowerBit>
    requires end <= LAST_STEP
    decreases addr >= end, end - addr
  {
    var next := Step32(sram, addr);
    {PassBit(sram, addr)} + if next < end then Visited(sram, next, end) else {}
  }

  lemma SameQuotient(base: nat, x: nat, y: nat, size: nat)
    requires size == SMALL_SECTION_SIZE || size == LARGE_SECTION_SIZE
    requires base % size == 0 && base <= x <= y < x + (size - x % size)
    ensures (y - base) / size == (x - base) / size
  {
  }

  lemma SameSection(sram: Sram, addr: nat, a: nat)
    requires sram.Valid() && sram.begin <= addr <= a < NextSection(sram, addr)
    ensures ByteBit(sram, a) == ByteBit(sram, addr)
  {
    hide SmallBit, LargeBit;
    var large := sram.begin + SMALL_SECTION_SPAN;
    Alignment(sram);
    if addr >= large {
      SameQuotient(large, addr, a, LARGE_SECTION_SIZE);
    } else {
      SameQuotient(sram.begin, addr, a, SMALL_SECTION_SIZE);
      assert a < large by {
        SmallStepStays(large, addr);
      }
    }
  }

  lemma Alignment(sram: Sram)
    requires sram.Valid()
    ensures sram.begin % 4096 == 0 && (sram.begin + SMALL_SECTION_SPAN) % 4096 == 0
    ensures (sram.begin + SMALL_SECTION_SPAN) % 32768 == 0
  {
    var c := sram.begin / 32768;
    assert sram.begin == 4096 * (8 * c) && sram.begin + SMALL_SECTION_SPAN == 32768 * (c + 2);
  }

  lemma SmallStepStays(large: nat, addr: nat)
    requires large % 4096 == 0 && addr < large
    ensures addr + (4096 - addr % 4096) <= large
  {
  }

  lemma RangeBitsStep(sram: Sram, start: nat, addr: nat, end: nat)
    requires sram.Valid() && sram.begin <= start <= addr < end
    ensures var next := NextSection(sram, addr);
      RangeBits(sram, start, (if next < end then next else end) - start)
      == RangeBits(sram, start, addr - start) + {ByteBit(sram, addr)}
  {
    var next := NextSection(sram, addr);
    var upto := if next < end then next else end;
    forall a | start <= a < upto
      ensures ByteBit(sram, a) in RangeBits(sram, start, addr - start) + {ByteBit(sram, addr)}
    {
      if addr <= a {
        SameSection(sram, addr, a);
      }
    }
    assert ByteBit(sram, addr) in RangeBits(sram, start, upto - start);
  }

  lemma OffsetInRam(sram: Sram, addr: u32)
    requires sram.begin <= addr
    ensures ToU32(addr - sram.begin) == addr - sram.begin
  {
  }

  /** Within RAM a pass marks the section that holds the byte. */
  lemma PassBitInRam(sram: Sram, addr: u32)
    requires sram.Valid() && sram.begin <= addr < sram.End()
    ensures PassBit(sram, addr) == ByteBit(sram, addr)
  {
    if addr >= sram.begin + SMALL_SECTION_SPAN {
      LargeLocation(sram, addr);
    } else {
      SmallLocation(sram, addr);
    }
  }

  /** On a range within RAM the passes mark exactly the range's bytes. */
  lemma {:induction false} VisitedIsRange(sram: Sram, start: u32, addr: u32, end: u32)
    requires sram.Valid() && sram.begin <= start <= addr < end <= sram.End()
    ensures RangeBits(sram, start, addr - start) + Visited(sram, addr, end) == RangeBits(sram, start, end - start)
    decreases end - addr
  {
    hide RangeBits, ByteBit, PassBit, Step32, NextSection;
    StepGrows(sram, addr);
    PassBitInRam(sram, addr);
    RangeBitsStep(sram, start, addr, end);
    var next := Step32(sram, addr);
    if next < end {
      VisitedIsRange(sram, start, next, end);
    }
  }

  /** Whatever range the loop runs over, it only touches the retention bits 16 to 31. */
  lemma {:induction false} OnlyRetentionBits(sram: Sram, addr: u32, end: u32, bit: PowerBit)
    requires end <= LAST_STEP && bit in Visited(sram, addr, end)
    ensures 0 <= bit.0 < 256 && 16 <= bit.1 < 32
    decreases addr >= end, end - addr
  {
    hide Step32;
    if bit != PassBit(sram, addr) {
      if addr < end {
        StepGrows(sram, addr);
      }
      OnlyRetentionBits(sram, Step32(sram, addr), end, bit);
    }
  }

  /** Sets or clears bits. */
  function Switch(bits: set<PowerBit>, which: set<PowerBit>, enable: bool): set<PowerBit> {
    if enable then bits + which else bits - which
  }

  lemma NothingDone(bits: set<PowerBit>, enable: bool)
    ensures Switch(bits, {}, enable) == bits
  {
  }

  lemma StepIs(sram: Sram, addr: u32, sectionSize: nat)
    requires sectionSize == StepSize(sram, addr)
    ensures Step32(sram, addr) == ToU32(Advance(addr, sectionSize))
  {
  }

  lemma RangeWithinRam(sram: Sram, addr: u32, len: u32)
    requires sram.Valid() && len != 0 && sram.Contains(addr, len)
    ensures Visited(sram, addr, ToU32(addr + len)) == RangeBits(sram, addr, len)
  {
    hide ByteBit, PassBit, Step32, Visited;
    assert RangeBits(sram, addr, 0) == {};
    VisitedIsRange(sram, addr, addr, addr + len);
  }

  lemma SwitchTwice(bits: set<PowerBit>, a: set<PowerBit>, b: set<PowerBit>, enable: bool)
    ensures Switch(Switch(bits, a, enable), b, enable) == Switch(bits, a + b, enable)
  {
  }

  lemma SmallLocation(sram: Sram, addr: nat)
    requires sram.Valid() && sram.begin <= addr < sram.begin + SMALL_SECTION_SPAN
    ensures var n := (addr - sram.begin) / SMALL_SECTION_SIZE;
      && ByteBit(sram, addr) == SmallBit(n) == (ToU8(n / 2), S0RETENTION_POS + n % 2)
      && ToU8(n / 2) < 8 && (n < 2 ==> ToU8(n / 2) == 0 && n % 2 == n)
  {
  }

  lemma LargeLocation(sram: Sram, addr: nat)
    requires sram.Valid() && sram.begin + SMALL_SECTION_SPAN <= addr < sram.End()
    ensures var n := (addr - (sram.begin + SMALL_SECTION_SPAN)) / LARGE_SECTION_SIZE;
      && ByteBit(sram, addr) == LargeBit(n) == (ToU8(8 + n / 16), S0RETENTION_POS + n % 16)
      && 8 <= ToU8(8 + n / 16) && (n < 16 ==> ToU8(8 + n / 16) == 8 && n % 16 == n)
  {
  }

  /** The head of the loop: register number, section in it and section size for an address. */
  method LocateSection(sram: Sram, addr: u32) returns (block: u8, section: nat, sectionSize: nat)
    ensures (block, S0RETENTION_POS + section) == PassBit(sram, addr) && sectionSize == StepSize(sram, addr)
    ensures sram.Valid() && sram.begin <= addr < sram.End() ==>
      && (block, S0RETENTION_POS + section) == ByteBit(sram, addr)
      && sectionSize == SectionSize(block) && section < SectionCount(block)
  {
    hide ByteBit, ToU32;
    block := 0;
    if addr >= sram.begin + SMALL_SECTION_SPAN {
      block := 8;
      sectionSize := LARGE_SECTION_SIZE;
      section := (addr - (sram.begin + SMALL_SECTION_SPAN)) / LARGE_SECTION_SIZE;
      if section >= LARGE_SECTIONS_PER_BLOCK {
        block := ToU8(block + section / LARGE_SECTIONS_PER_BLOCK);
        section := section % LARGE_SECTIONS_PER_BLOCK;
      }
    } else {
      sectionSize := SMALL_SECTION_SIZE;
      section := ToU32(addr - sram.begin) / SMALL_SECTION_SIZE;
      if section >= SMALL_SECTIONS_PER_BLOCK {
        block := ToU8(block + section / SMALL_SECTIONS_PER_BLOCK);
        section := section % SMALL_SECTIONS_PER_BLOCK;
      }
    }
    if sram.Valid() && sram.begin <= addr < sram.End() {
      OffsetInRam(sram, addr);
      PassBitInRam(sram, addr);
      if addr >= sram.begin + SMALL_SECTION_SPAN {
        LargeLocation(sram, addr);
      } else {
        SmallLocation(sram, addr);
      }
    }
  }

  /** The power registers. */
  class RamPower {
    var bits: set<PowerBit>

    constructor ()
      ensures bits == {}
    {
      bits := {};
    }

    /** `ram_range_retain`, on every input for which it returns. It sets or clears the bits of its
        passes, which for a range within RAM are those of exactly the range's bytes. */
    method RangeRetain(sram: Sram, addr0: u32, len: u32, enable: bool) returns (rc: int)
      requires sram.Valid() && (Accepts(sram, addr0, len) ==> ToU32(addr0 + len) <= LAST_STEP)
      modifies this
      ensures rc == if Accepts(sram, addr0, len) then 0 else -EINVAL
      ensures rc != 0 ==> bits == old(bits)
      ensures rc == 0 ==> bits == Switch(old(bits), Visited(sram, addr0, ToU32(addr0 + len)), enable)
      ensures len != 0 && sram.Contains(addr0, len) ==>
        rc == 0 && bits == Switch(old(bits), RangeBits(sram, addr0, len), enable)
    {
      hide RangeBits, ByteBit, Switch, PassBit, NextSection, StepSize, Advance;
      AcceptsIff(sram, addr0, len);
      var addr: u32 := addr0;
      var addrEnd: u32 := ToU32(addr + len);
      if len == 0 || addr < sram.begin || addr > ToU32(sram.End() - len) {
        return -EINVAL;
      }
      ghost var done: set<PowerBit> := {};
      NothingDone(bits, enable);
      while true
        invariant done + Visited(sram, addr, addrEnd) == Visited(sram, addr0, addrEnd)
        invariant bits == Switch(old(bits), done, enable)
        decreases addr >= addrEnd, addrEnd - addr
      {
        var block, section, sectionSize := LocateSection(sram, addr);
        var maskBit := (block, S0RETENTION_POS + section);
        SwitchTwice(old(bits), done, {maskBit}, enable);
        if addr < addrEnd {
          StepGrows(sram, addr);
        }
        bits := Switch(bits, {maskBit}, enable);
        done := done + {maskBit};
        StepIs(sram, addr, sectionSize);
        addr := ToU32(Advance(addr, sectionSize));
        if addr >= addrEnd {
          assert done == Visited(sram, addr0, addrEnd);
          break;
        }
      }
      assert bits == Switch(old(bits), Visited(sram, addr0, addrEnd), enable);
      if sram.Contains(addr0, len) {
        RangeWithinRam(sram, addr0, len);
      }
      return 0;
    }
  }
}
