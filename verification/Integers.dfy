/** Go's 64-bit int: its bounds, its addition, and a few facts about products. */
module Integers {

  /** Also the bound of every slice length. */
  const MAX_INT := 0x7FFF_FFFF_FFFF_FFFF

  const MIN_INT := -0x8000_0000_0000_0000

  const TWO_TO_THE_64 := 0x1_0000_0000_0000_0000

  predicate IsInt(x: int)
  {
    MIN_INT <= x <= MAX_INT
  }

  /** What an int holds when the sum or difference of two ints is stored in it. */
  function Wrap(x: int): (r: int)
    requires 2 * MIN_INT <= x <= 2 * MAX_INT
    ensures IsInt(r)
  {
    if x > MAX_INT then x - TWO_TO_THE_64 else if x < MIN_INT then x + TWO_TO_THE_64 else x
  }

  /** Division by a positive number, truncated toward zero. */
  function Quotient(a: int, b: int): int
    requires b > 0
  {
    if a >= 0 then a / b else -(-a / b)
  }

  function Min(a: int, b: int): int
  {
    if a < b then a else b
  }

  lemma MultiplyMonotone(a: nat, b: nat, c: nat)
    requires a <= b
    ensures a * c <= b * c
  {
  }
}
