/** What several modules share. */
module Basics {

  datatype Option<T> = None | Some(value: T)

  type Byte = b: nat | b < 256

  function Pow2(n: nat): (p: nat)
    ensures p > 0
  {
    if n == 0 then 1 else 2 * Pow2(n - 1)
  }
}

/** Unsigned 32-bit words, whose sums wrap. */
module Word32 {

  const M: nat := 0x1_0000_0000

  type Word = w: nat | w < M

  function Add(a: Word, b: Word): (c: Word)
  {
    if a + b < M then a + b else a + b - M
  }
}
