/** Bytes, and the little-endian integers used by all the wire formats below. */
module Bytes {

  type byte = b: int | 0 <= b < 256
  type bytes = seq<byte>

  const UINT16_MAX := 0xFFFF
  const UINT32_MAX := 0xFFFF_FFFF

  /** 256 to the power `width`: the number of values of a `width`-byte integer. */
  function Span256(width: nat): (p: nat)
    ensures p > 0
  {
    if width == 0 then 1 else 256 * Span256(width - 1)
  }

  /** The `width` low bytes of `v`, least significant first. */
  function LittleEndian(v: nat, width: nat): (bs: bytes)
    ensures |bs| == width
  {
    if width == 0 then [] else [v % 256] + LittleEndian(v / 256, width - 1)
  }

  /** The integer that `bs` spells, least significant byte first. */
  function FromLittleEndian(bs: bytes): (v: nat)
    ensures v < Span256(|bs|)
  {
    if bs == [] then 0 else bs[0] + 256 * FromLittleEndian(bs[1..])
  }

  /** Reading back what was written gives the value, for every value that fits. */
  lemma {:induction false} LittleEndianRoundTrip(v: nat, width: nat)
    requires v < Span256(width)
    ensures FromLittleEndian(LittleEndian(v, width)) == v
  {
    if width != 0 {
      LittleEndianRoundTrip(v / 256, width - 1);
      assert LittleEndian(v, width)[1..] == LittleEndian(v / 256, width - 1);
    }
  }

  /** A 16-bit value in the byte order of `htol16`. */
  function Le16(v: nat): (bs: bytes)
    requires v <= UINT16_MAX
    ensures |bs| == 2
  {
    [v % 256, v / 256]
  }

  /** The inverse of `Le16`, on the first two bytes of `bs`. */
  function FromLe16(bs: bytes): (v: nat)
    requires |bs| >= 2
    ensures v <= UINT16_MAX
  {
    (bs[0] as int) + 256 * (bs[1] as int)
  }
}
