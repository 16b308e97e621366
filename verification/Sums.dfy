// Finite sums of real-valued terms over an integer range, and the few laws of them
// that the other modules share.

module Sums {

  ghost function Sum(lo: int, hi: int, f: int -> real): real
    decreases hi - lo
  {
    if hi <= lo then 0.0 else Sum(lo, hi - 1, f) + f(hi - 1)
  }

  lemma {:induction false} SumExtensional(lo: int, hi: int, f: int -> real, g: int -> real)
    requires forall k :: lo <= k < hi ==> f(k) == g(k)
    ensures Sum(lo, hi, f) == Sum(lo, hi, g)
    decreases hi - lo
  {
    if lo < hi {
      SumExtensional(lo, hi - 1, f, g);
    }
  }

  lemma {:induction false} SumMonotone(lo: int, hi: int, f: int -> real, g: int -> real)
    requires forall k :: lo <= k < hi ==> f(k) <= g(k)
    ensures Sum(lo, hi, f) <= Sum(lo, hi, g)
    decreases hi - lo
  {
    if lo < hi {
      SumMonotone(lo, hi - 1, f, g);
    }
  }

  lemma {:induction false} SumZero(lo: int, hi: int, f: int -> real)
    requires forall k :: lo <= k < hi ==> f(k) == 0.0
    ensures Sum(lo, hi, f) == 0.0
    decreases hi - lo
  {
    if lo < hi {
      SumZero(lo, hi - 1, f);
    }
  }

  // Sum of a combination whose terms are f + c * g.
  lemma {:induction false} SumLinear(lo: int, hi: int, f: int -> real, c: real, g: int -> real, h: int -> real)
    requires forall k :: lo <= k < hi ==> h(k) == f(k) + c * g(k)
    ensures Sum(lo, hi, h) == Sum(lo, hi, f) + c * Sum(lo, hi, g)
    decreases hi - lo
  {
    if lo < hi {
      SumLinear(lo, hi - 1, f, c, g, h);
      var rest, last := Sum(lo, hi - 1, g), g(hi - 1);
      assert c * (rest + last) == c * rest + c * last;
    }
  }

  lemma {:induction false} SumSplit(lo: int, mid: int, hi: int, f: int -> real)
    requires lo <= mid <= hi
    ensures Sum(lo, hi, f) == Sum(lo, mid, f) + Sum(mid, hi, f)
    decreases hi - mid
  {
    if mid < hi {
      SumSplit(lo, mid, hi - 1, f);
    }
  }

  // Terms that are the increments of a potential sum to the difference of its ends.
  lemma {:induction false} SumTelescopes(lo: int, hi: int, f: int -> real, potential: int -> real)
    requires lo <= hi
    requires forall k :: lo <= k < hi ==> f(k) == potential(k + 1) - potential(k)
    ensures Sum(lo, hi, f) == potential(hi) - potential(lo)
    decreases hi - lo
  {
    if lo < hi {
      SumTelescopes(lo, hi - 1, f, potential);
      assert f(hi - 1) == potential(hi - 1 + 1) - potential(hi - 1);
    }
  }

  lemma {:induction false} SumPlusConstant(lo: int, hi: int, f: int -> real, c: real, g: int -> real)
    requires lo <= hi
    requires forall k :: lo <= k < hi ==> g(k) == f(k) + c
    ensures Sum(lo, hi, g) == Sum(lo, hi, f) + (hi - lo) as real * c
    decreases hi - lo
  {
    if lo < hi {
      SumPlusConstant(lo, hi - 1, f, c, g);
      assert (hi - lo) as real * c == (hi - 1 - lo) as real * c + c;
    }
  }

  // The same terms in the opposite order.
  lemma {:induction false} SumReverse(lo: int, hi: int, mirror: int, f: int -> real, g: int -> real)
    requires lo <= hi
    requires forall k :: lo <= k < hi ==> f(k) == g(mirror - k)
    ensures Sum(lo, hi, f) == Sum(mirror - hi + 1, mirror - lo + 1, g)
    decreases hi - lo
  {
    if lo < hi {
      SumReverse(lo, hi - 1, mirror, f, g);
      assert f(hi - 1) == g(mirror - (hi - 1));
      SumSplit(mirror - hi + 1, mirror - hi + 2, mirror - lo + 1, g);
      assert Sum(mirror - hi + 1, mirror - hi + 1, g) == 0.0;
    }
  }
}
