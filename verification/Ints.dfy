/** Minimum, maximum and clamping of integers. */
module Ints {

  function Min(a: int, b: int): int { if a < b then a else b }

  function Max(a: int, b: int): int { if a < b then b else a }

  function Clamp(x: int, lo: int, hi: int): int { Min(Max(x, lo), hi) }
}
