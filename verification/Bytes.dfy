/** Bytes. */
module Bytes {
  newtype Byte = b: int | 0 <= b < 256

  function Zeros(n: nat): (s: seq<Byte>)
    ensures |s| == n
  {
    seq(n, _ => 0)
  }
}
