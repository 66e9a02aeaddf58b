/** The fixed-width integers of the firmware, its truncating conversions, and little-endian bytes. */
module Words {

  type u8 = x: int | 0 <= x < 0x100
  type u16 = x: int | 0 <= x < 0x1_0000
  type u32 = x: int | 0 <= x < 0x1_0000_0000
  type u64 = x: int | 0 <= x < 0x1_0000_0000_0000_0000
  type i8 = x: int | -0x80 <= x < 0x80
  type i16 = x: int | -0x8000 <= x < 0x8000

  const EINVAL := 22

  function ToU8(x: int): u8 { x % 0x100 }
  function ToU16(x: int): u16 { x % 0x1_0000 }
  function ToU32(x: int): u32 { x % 0x1_0000_0000 }
  function ToU64(x: int): u64 { x % 0x1_0000_0000_0000_0000 }
  function ToI8(x: int): i8 { (x + 0x80) % 0x100 - 0x80 }
  function ToI16(x: int): i16 { (x + 0x8000) % 0x1_0000 - 0x8000 }

  /** Each conversion changes the value by a multiple of the width's size, into the width's range. */
  lemma Conversions(x: int)
    ensures x == 0x100 * (x / 0x100) + ToU8(x) == 0x100 * ((x + 0x80) / 0x100) + ToI8(x)
    ensures x == 0x1_0000 * (x / 0x1_0000) + ToU16(x) == 0x1_0000 * ((x + 0x8000) / 0x1_0000) + ToI16(x)
    ensures x == 0x1_0000_0000 * (x / 0x1_0000_0000) + ToU32(x)
    ensures x == 0x1_0000_0000_0000_0000 * (x / 0x1_0000_0000_0000_0000) + ToU64(x)
  {
  }

  /** A truncated summand may be replaced by the untruncated one before truncating the sum. */
  lemma TruncatedSummand(a: int, b: int)
    ensures ToU64(a + ToU64(b)) == ToU64(a + b) && ToU32(a + ToU32(b)) == ToU32(a + b)
  {
    WholeWraps(a + ToU64(b), b / 0x1_0000_0000_0000_0000);
    WholeWraps(a + ToU32(b), b / 0x1_0000_0000);
  }

  lemma WholeWraps(x: int, n: int)
    ensures ToU64(x + 0x1_0000_0000_0000_0000 * n) == ToU64(x)
    ensures ToU32(x + 0x1_0000_0000 * n) == ToU32(x)
  {
  }

  lemma WholeWrap16(x: int, n: int)
    ensures ToI16(x + 0x1_0000 * n) == ToI16(x)
  {
  }

  lemma TruncateTwice(a: int)
    ensures ToU32(ToU64(a)) == ToU32(a) && ToU64(0) == 0 && ToU32(0) == 0
  {
  }

  /** The `n` low bytes of `v`, least significant first. */
  function Le(v: nat, n: nat): (s: seq<u8>)
    ensures |s| == n
  {
    if n == 0 then [] else [v % 256] + Le(v / 256, n - 1)
  }

  lemma {:induction false} SomeByte(x: u8) returns (b: bv8)
    ensures b as int == x
  {
    if x == 0 {
      b := 0;
    } else {
      var c := SomeByte(x - 1);
      b := c + 1;
    }
  }

  lemma ByteOf(b: bv8, x: u8)
    requires b as int == x
    ensures x as bv8 == b
  {
  }

  /** A byte, taken as bits and back, is the byte. */
  lemma ByteAsInt(x: u8)
    ensures (x as bv8) as int == x
  {
    var b := SomeByte(x);
    ByteOf(b, x);
  }
}
