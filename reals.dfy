/** `Math.max` and `Math.min` on two arguments, over the reals. */
module Reals {
  function Max(a: real, b: real): real { if a >= b then a else b }

  function Min(a: real, b: real): real { if a <= b then a else b }
}
