/** Bounds and intervals of whole numbers, as disk offsets use them. */
module Intervals {

  function Max(a: int, b: int): int {
    if a >= b then a else b
  }

  function Min(a: int, b: int): int {
    if a <= b then a else b
  }

  // The intervals a..b and c..d, ends included, share no number.
  predicate Apart(a: int, b: int, c: int, d: int) {
    b < c || d < a
  }
}
