/** The smaller and the larger of two integers, used by the card tally and the search bounds. */
module Ints {

  function Min(a: int, b: int): int { if a <= b then a else b }

  function Max(a: int, b: int): int { if a >= b then a else b }
}
