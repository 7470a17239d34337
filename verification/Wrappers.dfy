/** What several modules share: a pointer that may be null, powers of two, and the 64-bit machine
    word. */
module Wrappers {
  datatype Option<+T> = None | Some(value: T)

  function Pow2(n: nat): (p: nat)
    ensures p >= 1
  {
    if n == 0 then 1 else 2 * Pow2(n - 1)
  }

  type U64 = x: nat | x < 0x1_0000_0000_0000_0000
}
