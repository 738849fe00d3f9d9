/** Bytes. */
module ByteSeq {
  type byte = x: int | 0 <= x < 0x100

  function Zeros(n: nat): (z: seq<byte>)
    ensures |z| == n
  {
    seq(n, _ => 0)
  }
}
