/** Bytes as numbers. */
module ByteNumbers {
  lemma ByteIsNumber(x: int)
    requires 0 <= x < 256
    ensures (x as bv8) as int == x
  {
  }
}
