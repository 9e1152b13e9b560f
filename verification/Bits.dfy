/** Numbers as bit vectors and back. */
module Bits {

  lemma ByteBack(x: int)
    requires 0 <= x < 0x100
    ensures (x as bv8) as int == x
  {
  }

  lemma ByteForth(x: bv8)
    ensures (x as int) as bv8 == x
  {
  }

  lemma XorBack(x: bv8, y: bv8)
    ensures x ^ (x ^ y) == y && (x ^ y) ^ y == x && (x ^ y == x <==> y == 0)
  {
  }
}
