// Rounding of reals as the C library does it.

module Rounding {

  // ceil
  function Ceiling(r: real): (n: int)
    ensures (n - 1) as real < r <= n as real
  {
    if r.Floor as real == r then r.Floor else r.Floor + 1
  }

  // round: to the nearest integer, halves away from zero
  function Nearest(r: real): (n: int)
    ensures -0.5 <= n as real - r <= 0.5
    ensures n as real - r == 0.5 ==> r > 0.0
    ensures n as real - r == -0.5 ==> r < 0.0
  {
    if r >= 0.0 then (r + 0.5).Floor else -((-r + 0.5).Floor)
  }
}
