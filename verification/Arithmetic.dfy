/** Arithmetic that several modules need. */
module Arithmetic {

  function Least(a: int, b: int): int {
    if a < b then a else b
  }

  /** The only multiple of n that is smaller than n is zero. */
  lemma SmallMultiple(x: int, n: int, y: int)
    requires x * n == y && -n < y < n
    ensures x == 0
  {}
}
