/** Stock definitions that several modules share. */
module Basics {
  datatype Option<T> = None | Some(value: T)

  function Min(x: int, y: int): (m: int)
    ensures m == x || m == y
    ensures m <= x && m <= y
  {
    if x < y then x else y
  }

  function Pow2(n: nat): (p: nat)
    ensures p >= 1
  {
    if n == 0 then 1 else 2 * Pow2(n - 1)
  }
}
