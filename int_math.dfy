/** The two-argument `max` and `min` that both algorithms use on integers. */
module IntMath {

  function Max(a: int, b: int): int
  {
    if a >= b then a else b
  }

  function Min(a: int, b: int): int
  {
    if a <= b then a else b
  }
}
