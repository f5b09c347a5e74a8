/** Bytes and words, as the crypto code packs them. */
module Bytes {
  function Zeros(n: nat): (s: seq<bv8>)
    ensures |s| == n && forall i | 0 <= i < n :: s[i] == 0
  {
    seq(n, _ => 0)
  }

  // The low byte of a number.
  function ByteOf(n: int): (b: bv8)
  {
    (n % 256) as bv8
  }

  // Four bytes, most significant first.
  function PackWord(b0: bv8, b1: bv8, b2: bv8, b3: bv8): (w: bv32)
  {
    ((b0 as bv32) << 24) | ((b1 as bv32) << 16) | ((b2 as bv32) << 8) | (b3 as bv32)
  }
}
