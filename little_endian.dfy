/** Unsigned 16-bit little-endian fields ('<H' in a struct format). */
module LittleEndian {

  function LowByte(x: bv16): bv8 { (x & 0xFF) as bv8 }

  function HighByte(x: bv16): bv8 { (x >> 8) as bv8 }

  /** The value of the two bytes `lo, hi` read as a little-endian u16. */
  function Le16(lo: bv8, hi: bv8): (x: bv16)
    ensures LowByte(x) == lo && HighByte(x) == hi
  {
    (lo as bv16) | ((hi as bv16) << 8)
  }

  /** Writing a value as two bytes and reading them back gives the value. */
  lemma Le16OfBytes(x: bv16)
    ensures Le16(LowByte(x), HighByte(x)) == x
  {
  }
}
