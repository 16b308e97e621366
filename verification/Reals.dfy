// Comparing and scaling reals.

module Reals {

  function Min(x: real, y: real): real {
    if x <= y then x else y
  }

  function Max(x: real, y: real): real {
    if x <= y then y else x
  }

  function Magnitude(x: real): real {
    if x < 0.0 then -x else x
  }

  // The library's sense of zero.
  predicate IsZero(x: real) {
    Magnitude(x) < 1.0e-6
  }

  lemma ScalingKeepsOrder(x: real, y: real, z: real)
    requires 0.0 < z
    ensures x <= y <==> x * z <= y * z
  {
    if x <= y {
      assert (y - x) * z >= 0.0;
    } else {
      assert (x - y) * z > 0.0;
    }
  }
}
