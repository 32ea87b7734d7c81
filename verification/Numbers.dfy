/** Bytes, and powers of two as lengths of search windows and bounds of recursion. */
module Numbers {
  type Byte = x: int | 0 <= x < 256

  function Pow2(k: nat): nat {
    if k == 0 then 1 else 2 * Pow2(k - 1)
  }
}
