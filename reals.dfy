/** The `Math.min` and `Math.max` of two numbers, on exact reals. */
module Reals {

  function MinReal(a: real, b: real): real {
    if a <= b then a else b
  }

  function MaxReal(a: real, b: real): real {
    if a >= b then a else b
  }
}
