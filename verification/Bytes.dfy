/** Machine integers and the byte order helpers of src/common/byte_order.h. */
module Bytes {
  const TWO32 := 0x1_0000_0000

  type byte = x: int | 0 <= x < 256
  type u16 = x: int | 0 <= x < 0x1_0000
  type u32 = x: int | 0 <= x < TWO32

  // ns_bswap16
  function Swap16(x: u16): u16 {
    (x % 256) * 256 + x / 256
  }

  // A 32-bit value from its bytes, lowest first, and back.
  function FromBytes(a: byte, b: byte, c: byte, d: byte): u32 {
    var w: int, x: int, y: int, z: int := a, b, c, d;
    w + 0x100 * x + 0x1_0000 * y + 0x100_0000 * z
  }

  function ByteOf(x: u32, k: nat): byte
    requires k < 4
  {
    match k
    case 0 => x % 0x100
    case 1 => x / 0x100 % 0x100
    case 2 => x / 0x1_0000 % 0x100
    case 3 => x / 0x100_0000
  }

  // ns_bswap32
  function Swap32(x: u32): u32 {
    FromBytes(ByteOf(x, 3), ByteOf(x, 2), ByteOf(x, 1), ByteOf(x, 0))
  }

  lemma FourBytes(a: byte, b: byte, c: byte, d: byte)
    ensures var y := FromBytes(a, b, c, d);
            ByteOf(y, 0) == a && ByteOf(y, 1) == b && ByteOf(y, 2) == c && ByteOf(y, 3) == d
  {
    var w: int, x: int, y: int, z: int := a, b, c, d;
    var v := FromBytes(a, b, c, d);
    assert v / 0x100 == x + 0x100 * y + 0x1_0000 * z;
    assert v / 0x1_0000 == y + 0x100 * z;
  }

  lemma BytesGiveBack(y: u32)
    ensures FromBytes(ByteOf(y, 0), ByteOf(y, 1), ByteOf(y, 2), ByteOf(y, 3)) == y
  {
    assert y / 0x1_0000 == (y / 0x100) / 0x100;
    assert y / 0x100_0000 == (y / 0x1_0000) / 0x100;
  }

  lemma SwapsAreInverse(x: u16, y: u32)
    ensures Swap16(Swap16(x)) == x && Swap32(Swap32(y)) == y
  {
    hide FromBytes, ByteOf;
    FourBytes(ByteOf(y, 3), ByteOf(y, 2), ByteOf(y, 1), ByteOf(y, 0));
    BytesGiveBack(y);
  }

  // The expressions of ns_bswap16 and ns_bswap32.
  function Shifted16(x: bv16): bv16 {
    (x << 8) | (x >> 8)
  }

  function Shifted32(x: bv32): bv32 {
    ((x & 0x0000_00FF) << 24) | ((x & 0x0000_FF00) << 8) | ((x & 0x00FF_0000) >> 8) | ((x & 0xFF00_0000) >> 24)
  }

  // They reverse the bytes of a word.
  lemma ShiftsReverseBytes(x: bv16, y: bv32)
    ensures var r := Shifted16(x); r & 0xFF == x >> 8 && r >> 8 == x & 0xFF
    ensures var r := Shifted32(y);
            && r & 0xFF == y >> 24 && (r >> 8) & 0xFF == (y >> 16) & 0xFF
            && (r >> 16) & 0xFF == (y >> 8) & 0xFF && r >> 24 == y & 0xFF
  {}

  // The numbers that machine words stand for, byte by byte.
  function Byte(x: bv32): byte
    requires x < 0x100
  {
    x as bv8 as int
  }

  // Byte k of a machine word, the lowest first.
  function WordByte(x: bv32, k: nat): byte
    requires k < 4
  {
    match k
    case 0 => Byte(x & 0xFF)
    case 1 => Byte((x >> 8) & 0xFF)
    case 2 => Byte((x >> 16) & 0xFF)
    case 3 => Byte(x >> 24)
  }

  function Number32(x: bv32): u32 {
    FromBytes(WordByte(x, 0), WordByte(x, 1), WordByte(x, 2), WordByte(x, 3))
  }

  function Low16(x: bv16): byte {
    Byte((x & 0xFF) as bv32)
  }

  function High16(x: bv16): byte {
    Byte((x >> 8) as bv32)
  }

  function Number16(x: bv16): u16 {
    Low16(x) + 256 * High16(x)
  }

  lemma WordBytesReversed(x: bv16, y: bv32)
    ensures Low16(Shifted16(x)) == High16(x) && High16(Shifted16(x)) == Low16(x)
    ensures var r := Shifted32(y);
            && WordByte(r, 0) == WordByte(y, 3) && WordByte(r, 1) == WordByte(y, 2)
            && WordByte(r, 2) == WordByte(y, 1) && WordByte(r, 3) == WordByte(y, 0)
  {
    hide Byte, Shifted16, Shifted32;
    ShiftsReverseBytes(x, y);
  }

  // So Swap16 and Swap32 do to numbers what the expressions do to the words.
  lemma SwapsAreShifts(x: bv16, y: bv32)
    ensures Number16(Shifted16(x)) == Swap16(Number16(x))
    ensures Number32(Shifted32(y)) == Swap32(Number32(y))
  {
    hide WordByte, Low16, High16, FromBytes, ByteOf, Shifted16, Shifted32;
    WordBytesReversed(x, y);
    FourBytes(WordByte(y, 0), WordByte(y, 1), WordByte(y, 2), WordByte(y, 3));
  }
}
