/** Numbers as little-endian bytes. */
module Bytes {

  type Byte = b: int | 0 <= b < 256

  /** Unsigned value of a little-endian byte string. */
  function LeVal(bs: seq<Byte>): nat {
    if |bs| == 0 then 0 else bs[0] + 256 * LeVal(bs[1..])
  }

  /** The n low-order bytes of v, least significant first. */
  function LeBytes(v: int, n: nat): (bs: seq<Byte>)
    ensures |bs| == n
    decreases n
  {
    if n == 0 then [] else [v % 256] + LeBytes(v / 256, n - 1)
  }
}
