/** Bytes, machine words, C strings and powers of two. */
module Bytes {

  type byte = n: int | 0 <= n < 0x100

  /** The bytes of a file. */
  type Content = seq<byte>

  /** A C string without its terminating zero. */
  type CString = s: seq<byte> | 0 !in s

  type Word16 = n: int | 0 <= n < 0x1_0000
  type Word32 = n: int | 0 <= n < 0x1_0000_0000
  type Int32 = n: int | -0x8000_0000 <= n < 0x8000_0000

  function Pow2(n: nat): (r: nat)
    ensures r >= 1
  {
    if n == 0 then 1 else 2 * Pow2(n - 1)
  }
}
