/** Sixteen-bit words and their two bytes, most significant first. */
module BigEndian {
  function Word(hi: bv8, lo: bv8): bv16 { ((hi as bv16) << 8) | (lo as bv16) }

  function Hi(w: bv16): bv8 { (w >> 8) as bv8 }

  function Lo(w: bv16): bv8 { (w & 0xff) as bv8 }

  lemma WordOfBytes(w: bv16)
    ensures Word(Hi(w), Lo(w)) == w
  {}
}
