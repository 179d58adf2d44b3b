/** Bytes as bit vectors and as numbers. */
module Octets {

  lemma {:induction false} ByteBack(x: nat)
    requires x < 256
    ensures (x as bv8) as nat == x
  {}
}
