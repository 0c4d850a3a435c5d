/** Bytes of the wire and the numbers they stand for. */
module Bytes {
  type bytes = seq<bv8>

  lemma ByteRoundTrip(n: int)
    requires 0 <= n < 256
    ensures (n as bv8) as int == n
  {
  }

  /** `as u8`, where nothing is cut off. */
  function Byte(n: int): (b: bv8)
    requires 0 <= n < 256
    ensures b as int == n
  {
    ByteRoundTrip(n);
    n as bv8
  }
}
