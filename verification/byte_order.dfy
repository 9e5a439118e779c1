/** Byte-order helpers: reversing a byte string and the fixed little-endian
    encoding of a 32-bit unsigned integer. */
module ByteOrder {
  import opened Primitives

  /** `to_big_endian`: the same bytes in reverse order. */
  function ToBigEndian(bytes: seq<byte>): (r: seq<byte>)
    ensures |r| == |bytes|
    ensures forall i :: 0 <= i < |bytes| ==> r[i] == bytes[|bytes| - 1 - i]
  {
    if |bytes| == 0 then [] else ToBigEndian(bytes[1..]) + [bytes[0]]
  }

  /** Reversing twice gives back the input. */
  lemma ToBigEndianInvolution(bytes: seq<byte>)
    ensures ToBigEndian(ToBigEndian(bytes)) == bytes
  {
  }

  /** The number that four bytes stand for, least significant byte first. */
  function LittleEndianValue(b: seq<byte>): nat
    requires |b| == 4
  {
    b[0] as int + 0x100 * b[1] as int + 0x1_0000 * b[2] as int + 0x100_0000 * b[3] as int
  }

  /** Splitting `low + 256 * high` at its lowest byte gives back both parts. */
  lemma SplitLowByte(low: int, high: nat)
    requires 0 <= low < 0x100
    ensures (low + 0x100 * high) % 0x100 == low
    ensures (low + 0x100 * high) / 0x100 == high
  {
  }

  /** `swap_endian_u32`: the bytes of `num` least significant first, whatever
      the byte order of the platform (Rust's `u32::to_le_bytes`). */
  function SwapEndianU32(num: u32): (b: seq<byte>)
    ensures |b| == 4
    ensures LittleEndianValue(b) == num
  {
    var b0 := num % 0x100;
    var rest0 := num / 0x100;
    var b1 := rest0 % 0x100;
    var rest1 := rest0 / 0x100;
    var b2 := rest1 % 0x100;
    var b3 := rest1 / 0x100;
    [b0, b1, b2, b3]
  }

  /** Every four-byte string is the encoding of exactly one `u32`: encoding
      the number it stands for gives the same four bytes back. */
  lemma SwapEndianU32Inverse(b: seq<byte>)
    requires |b| == 4
    ensures LittleEndianValue(b) < 0x1_0000_0000
    ensures SwapEndianU32(LittleEndianValue(b)) == b
  {
    var top := b[2] as int + 0x100 * b[3] as int;
    var mid := b[1] as int + 0x100 * top;
    assert LittleEndianValue(b) == b[0] as int + 0x100 * mid;
    SplitLowByte(b[0], mid);
    SplitLowByte(b[1], top);
    SplitLowByte(b[2], b[3]);
  }
}
