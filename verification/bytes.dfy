/** Unsigned bytes and the little-endian 16-bit words of the wire format. */
module Bytes {

  /** An unsigned 8-bit value (Rust `u8`). */
  type byte = x: nat | x < 0x100

  /** A 16-bit word assembled little-endian, as `(msb << 8) | lsb`. */
  function LittleEndian16(lsb: byte, msb: byte): (w: nat)
    ensures w < 0x1_0000
    ensures w % 0x100 == lsb && w / 0x100 == msb
  {
    msb * 0x100 + lsb
  }

  /** The low byte of a 16-bit word. */
  function Low(w: nat): (b: byte)
    requires w < 0x1_0000
    ensures LittleEndian16(b, High(w)) == w
  {
    w % 0x100
  }

  /** The high byte of a 16-bit word. */
  function High(w: nat): (b: byte)
    requires w < 0x1_0000
    ensures b * 0x100 <= w < (b + 1) * 0x100
  {
    w / 0x100
  }
}
