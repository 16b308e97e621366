// The averaged autocorrelation of a series whose successive values correlate by a factor r: that of
// two averages over m values taken h steps apart.

module Autocorrelation {
  import opened Reals
  import opened Sums

  // pow, with pow(0, 0) = 1
  function Pow(r: real, n: nat): real {
    if n == 0 then 1.0 else r * Pow(r, n - 1)
  }

  function Distance(i: int, j: int): nat {
    if i <= j then j - i else i - j
  }

  ghost function Cell(r: real, i: int): int -> real {
    j => Pow(r, Distance(i, j))
  }

  ghost function Row(r: real, lo: int, hi: int): int -> real {
    i => Sum(lo, hi, Cell(r, i))
  }

  ghost function HalfRow(r: real, hi: int): int -> real {
    i => Sum(i + 1, hi, Cell(r, i))
  }

  // Correlation of two groups of m values, h steps apart.
  ghost function Cross(r: real, m: int, h: int): real {
    Sum(1, m + 1, Row(r, 1 + h, m + 1 + h))
  }

  // Correlation of a group of m values with itself: twice that of the pairs, and the diagonal.
  ghost function Own(r: real, m: int): real {
    Sum(1, m + 1, HalfRow(r, m + 1)) * 2.0 + m as real
  }

  method AutocorrAverage(h: int, m: int, r0: real) returns (a: real)
    requires 1 <= m
    ensures var r := if r0 < 0.0 then 0.0 else r0;
            Own(r, m) > 0.0 && a == Cross(r, m, h) / Own(r, m)
  {
    var r := r0;
    if r < 0.0 {
      r := 0.0;
    }
    var x := 0.0;
    for i := 1 to m + 1
      invariant x == Sum(1, i, Row(r, 1 + h, m + 1 + h))
    {
      ghost var before := x;
      for j := 1 + h to m + 1 + h
        invariant x == before + Sum(1 + h, j, Cell(r, i))
      {
        x := x + Pow(r, Distance(i, j));
      }
    }
    var y := 0.0;
    for i := 1 to m + 1
      invariant y == Sum(1, i, HalfRow(r, m + 1))
    {
      ghost var before := y;
      for j := i + 1 to m + 1
        invariant y == before + Sum(i + 1, j, Cell(r, i))
      {
        assert Distance(i, j) == j - i;
        y := y + Pow(r, j - i);
      }
    }
    y := y * 2.0;
    y := y + m as real;
    OwnIsPositive(r, m);
    a := x / y;
  }

  // ----- Powers ----------------------------------------------------------------------------------

  lemma {:induction false} PowIsNonNegative(r: real, n: nat)
    requires 0.0 <= r
    ensures 0.0 <= Pow(r, n)
  {
    if n > 0 {
      PowIsNonNegative(r, n - 1);
    }
  }

  lemma {:induction false} PowFalls(r: real, n: nat, m: nat)
    requires 0.0 <= r <= 1.0 && n <= m
    ensures Pow(r, m) <= Pow(r, n)
  {
    if n < m {
      PowFalls(r, n, m - 1);
      PowIsNonNegative(r, m - 1);
      assert r * Pow(r, m - 1) <= Pow(r, m - 1);
    }
  }

  lemma {:induction false} PowIsAtLeastOne(r: real, n: nat)
    requires 1.0 < r
    ensures 1.0 <= Pow(r, n) < Pow(r, n + 1)
  {
    if n > 0 {
      PowIsAtLeastOne(r, n - 1);
    }
    var pow := Pow(r, n);
    assert Pow(r, n + 1) == r * pow;
    assert (r - 1.0) * pow > 0.0;
  }

  lemma {:induction false} PowGrows(r: real, n: nat, m: nat)
    requires 1.0 < r && n < m
    ensures Pow(r, n) < Pow(r, m)
  {
    if n + 1 < m {
      PowGrows(r, n, m - 1);
    }
    PowIsAtLeastOne(r, m - 1);
  }

  // ----- Against itself --------------------------------------------------------------------------

  lemma CellsAreNonNegative(r: real, i: int, lo: int, hi: int)
    requires 0.0 <= r
    ensures 0.0 <= Sum(lo, hi, Cell(r, i))
  {
    var zero := (k: int) => 0.0;
    forall j | lo <= j < hi
      ensures zero(j) <= Cell(r, i)(j)
    {
      PowIsNonNegative(r, Distance(i, j));
    }
    SumMonotone(lo, hi, zero, Cell(r, i));
    SumZero(lo, hi, zero);
  }

  lemma OwnIsPositive(r: real, m: int)
    requires 0.0 <= r && 1 <= m
    ensures Own(r, m) > 0.0
  {
    var zero := (k: int) => 0.0;
    forall i | 1 <= i < m + 1
      ensures zero(i) <= HalfRow(r, m + 1)(i)
    {
      CellsAreNonNegative(r, i, i + 1, m + 1);
    }
    SumMonotone(1, m + 1, zero, HalfRow(r, m + 1));
    SumZero(1, m + 1, zero);
  }

  lemma CrossIsNonNegative(r: real, m: int, h: int)
    requires 0.0 <= r
    ensures 0.0 <= Cross(r, m, h)
  {
    var zero := (k: int) => 0.0;
    forall i | 1 <= i < m + 1
      ensures zero(i) <= Row(r, 1 + h, m + 1 + h)(i)
    {
      CellsAreNonNegative(r, i, 1 + h, m + 1 + h);
    }
    SumMonotone(1, m + 1, zero, Row(r, 1 + h, m + 1 + h));
    SumZero(1, m + 1, zero);
  }

  // The correlations of one more value with each of the m before it.
  ghost function Edge(r: real, m: int): int -> real {
    i => Pow(r, Distance(i, m + 1))
  }

  lemma SquareGrows(r: real, m: nat)
    ensures Cross(r, m + 1, 0) == Cross(r, m, 0) + 2.0 * Sum(1, m + 1, Edge(r, m)) + 1.0
  {
    forall i | 1 <= i < m + 1
      ensures Row(r, 1, m + 2)(i) == Row(r, 1, m + 1)(i) + 1.0 * Edge(r, m)(i)
    {
      assert Cell(r, i)(m + 1) == Edge(r, m)(i);
    }
    SumLinear(1, m + 1, Row(r, 1, m + 1), 1.0, Edge(r, m), Row(r, 1, m + 2));
    forall j | 1 <= j < m + 1
      ensures Cell(r, m + 1)(j) == Edge(r, m)(j)
    {
      assert Distance(m + 1, j) == Distance(j, m + 1);
    }
    SumExtensional(1, m + 1, Cell(r, m + 1), Edge(r, m));
    assert Cell(r, m + 1)(m + 1) == 1.0;
    assert Row(r, 1, m + 2)(m + 1) == Sum(1, m + 1, Edge(r, m)) + 1.0;
  }

  lemma TriangleGrows(r: real, m: nat)
    ensures Sum(1, m + 2, HalfRow(r, m + 2)) == Sum(1, m + 1, HalfRow(r, m + 1)) + Sum(1, m + 1, Edge(r, m))
  {
    forall i | 1 <= i < m + 1
      ensures HalfRow(r, m + 2)(i) == HalfRow(r, m + 1)(i) + 1.0 * Edge(r, m)(i)
    {
      assert Cell(r, i)(m + 1) == Edge(r, m)(i);
    }
    SumLinear(1, m + 1, HalfRow(r, m + 1), 1.0, Edge(r, m), HalfRow(r, m + 2));
    assert HalfRow(r, m + 2)(m + 1) == 0.0;
  }

  // The two double loops agree when the groups coincide.
  lemma {:induction false} CrossOfTheSameGroupIsOwn(r: real, m: nat)
    ensures Cross(r, m, 0) == Own(r, m)
  {
    if m > 0 {
      CrossOfTheSameGroupIsOwn(r, m - 1);
      SquareGrows(r, m - 1);
      TriangleGrows(r, m - 1);
    }
  }

  // ----- One step further apart --------------------------------------------------------------------

  ghost function Entering(r: real, m: int, h: int): int -> real {
    i => Pow(r, Distance(i, m + 1 + h))
  }

  ghost function Leaving(r: real, h: int): int -> real {
    i => Pow(r, Distance(i, 1 + h))
  }

  ghost function Beyond(r: real, h: int): int -> real {
    i => Pow(r, Distance(0, h + i))
  }

  lemma RowMoves(r: real, m: nat, h: nat, i: int)
    ensures Row(r, 2 + h, m + 2 + h)(i) == Row(r, 1 + h, m + 1 + h)(i) + Entering(r, m, h)(i) - Leaving(r, h)(i)
  {
    SumSplit(1 + h, 2 + h, m + 2 + h, Cell(r, i));
    assert Sum(1 + h, 1 + h, Cell(r, i)) == 0.0;
    assert Sum(1 + h, 2 + h, Cell(r, i)) == Cell(r, i)(1 + h);
    assert Cell(r, i)(1 + h) == Leaving(r, h)(i);
    assert Cell(r, i)(m + 1 + h) == Entering(r, m, h)(i);
  }

  lemma EnteringIsBeyond(r: real, m: nat, h: nat)
    ensures Sum(1, m + 1, Entering(r, m, h)) == Sum(1, m + 1, Beyond(r, h))
  {
    forall i | 1 <= i < m + 1
      ensures Entering(r, m, h)(i) == Beyond(r, h)(m + 1 - i)
    {
      assert Distance(i, m + 1 + h) == Distance(0, h + (m + 1 - i));
    }
    SumReverse(1, m + 1, m + 1, Entering(r, m, h), Beyond(r, h));
  }

  ghost function Widened(r: real, m: int, h: int): int -> real {
    i => Row(r, 1 + h, m + 1 + h)(i) + Entering(r, m, h)(i)
  }

  lemma WidenedSum(r: real, m: nat, h: nat)
    ensures Sum(1, m + 1, Widened(r, m, h)) == Cross(r, m, h) + Sum(1, m + 1, Entering(r, m, h))
  {
    SumLinear(1, m + 1, Row(r, 1 + h, m + 1 + h), 1.0, Entering(r, m, h), Widened(r, m, h));
  }

  lemma NarrowedSum(r: real, m: nat, h: nat)
    ensures Cross(r, m, h + 1) == Sum(1, m + 1, Widened(r, m, h)) - Sum(1, m + 1, Leaving(r, h))
  {
    var moved := Row(r, 2 + h, m + 2 + h);
    forall i | 1 <= i < m + 1
      ensures moved(i) == Widened(r, m, h)(i) + -1.0 * Leaving(r, h)(i)
    {
      RowMoves(r, m, h, i);
    }
    SumLinear(1, m + 1, Widened(r, m, h), -1.0, Leaving(r, h), moved);
  }

  // What moving the second group by one step changes, value by value of the first.
  lemma CrossMoves(r: real, m: nat, h: nat)
    ensures Cross(r, m, h + 1) == Cross(r, m, h) + Sum(1, m + 1, Beyond(r, h)) - Sum(1, m + 1, Leaving(r, h))
  {
    WidenedSum(r, m, h);
    NarrowedSum(r, m, h);
    EnteringIsBeyond(r, m, h);
  }

  lemma {:induction false} SumStrictlyMonotone(lo: int, hi: int, f: int -> real, g: int -> real)
    requires lo < hi && forall k :: lo <= k < hi ==> f(k) < g(k)
    ensures Sum(lo, hi, f) < Sum(lo, hi, g)
    decreases hi - lo
  {
    if lo + 1 < hi {
      SumStrictlyMonotone(lo, hi - 1, f, g);
    }
  }

  lemma StepApart(r: real, m: nat, h: nat)
    requires 0.0 <= r && 1 <= m
    ensures r <= 1.0 ==> Cross(r, m, h + 1) <= Cross(r, m, h)
    ensures r > 1.0 ==> Cross(r, m, h + 1) > Cross(r, m, h)
  {
    CrossMoves(r, m, h);
    if r <= 1.0 {
      forall i | 1 <= i < m + 1
        ensures Beyond(r, h)(i) <= Leaving(r, h)(i)
      {
        PowFalls(r, Distance(i, 1 + h), Distance(0, h + i));
      }
      SumMonotone(1, m + 1, Beyond(r, h), Leaving(r, h));
    } else {
      forall i | 1 <= i < m + 1
        ensures Leaving(r, h)(i) < Beyond(r, h)(i)
      {
        PowGrows(r, Distance(i, 1 + h), Distance(0, h + i));
      }
      SumStrictlyMonotone(1, m + 1, Leaving(r, h), Beyond(r, h));
    }
  }

  lemma {:induction false} CrossFalls(r: real, m: nat, h: nat, further: nat)
    requires 0.0 <= r <= 1.0 && 1 <= m && h <= further
    ensures Cross(r, m, further) <= Cross(r, m, h)
  {
    if h < further {
      CrossFalls(r, m, h, further - 1);
      StepApart(r, m, further - 1);
    }
  }

  lemma {:induction false} CrossGrows(r: real, m: nat, h: nat)
    requires 1.0 < r && 1 <= m && 1 <= h
    ensures Own(r, m) < Cross(r, m, h)
  {
    StepApart(r, m, h - 1);
    if h > 1 {
      CrossGrows(r, m, h - 1);
    } else {
      CrossOfTheSameGroupIsOwn(r, m);
    }
  }

  // ----- The average ---------------------------------------------------------------------------------

  ghost function Average(r: real, m: nat, h: nat): real
    requires 0.0 <= r && 1 <= m
  {
    OwnIsPositive(r, m);
    Cross(r, m, h) / Own(r, m)
  }

  lemma Ratio(x: real, y: real, z: real)
    requires 0.0 < z
    ensures x / z <= y / z <==> x <= y
  {
    var a, b := x / z, y / z;
    assert a * z == x && b * z == y;
    ScalingKeepsOrder(a, b, z);
  }

  lemma RatioToItself(x: real, z: real)
    requires 0.0 < z
    ensures x == z ==> x / z == 1.0
    ensures x == 0.0 ==> x / z == 0.0
  {
    assert x / z * z == x;
    Ratio(x, z, z);
    Ratio(z, x, z);
  }

  // 1 for a group with itself, and never growing with the distance.
  lemma AverageIsACorrelation(r: real, m: nat, h: nat, further: nat)
    requires 0.0 <= r <= 1.0 && 1 <= m && h <= further
    ensures Average(r, m, 0) == 1.0
    ensures 0.0 <= Average(r, m, further) <= Average(r, m, h) <= 1.0
  {
    var own := Own(r, m);
    OwnIsPositive(r, m);
    CrossOfTheSameGroupIsOwn(r, m);
    CrossIsNonNegative(r, m, further);
    CrossFalls(r, m, h, further);
    CrossFalls(r, m, 0, h);
    Ratio(0.0, Cross(r, m, further), own);
    Ratio(Cross(r, m, further), Cross(r, m, h), own);
    Ratio(Cross(r, m, h), own, own);
    RatioToItself(own, own);
    RatioToItself(0.0, own);
  }

  // Factors above 1 are no correlations: the average leaves [0, 1] as soon as the groups differ.
  lemma AverageStaysWithinOneExactly(r: real, m: nat, h: nat)
    requires 0.0 <= r && 1 <= m
    ensures 0.0 <= Average(r, m, h) <= 1.0 <==> r <= 1.0 || h == 0
  {
    OwnIsPositive(r, m);
    CrossOfTheSameGroupIsOwn(r, m);
    if r <= 1.0 {
      AverageIsACorrelation(r, m, h, h);
    } else if h > 0 {
      CrossGrows(r, m, h);
      Ratio(Cross(r, m, h), Own(r, m), Own(r, m));
    }
  }

  // ----- Without the loops -----------------------------------------------------------------------------

  ghost function Shrunk(r: real, x: real): real {
    (1.0 - r) * x
  }

  lemma ShrunkSum(r: real, x: real, y: real)
    ensures Shrunk(r, x + y) == Shrunk(r, x) + Shrunk(r, y)
  {
  }

  lemma ShrunkPow(r: real, n: nat)
    ensures Shrunk(r, Pow(r, n)) == Pow(r, n) - Pow(r, n + 1)
  {
  }

  lemma {:induction false} BeyondSum(r: real, m: nat, h: nat)
    ensures Shrunk(r, Sum(1, m + 1, Beyond(r, h))) == Pow(r, h + 1) - Pow(r, h + m + 1)
  {
    if m > 0 {
      BeyondSum(r, m - 1, h);
      ShrunkSum(r, Sum(1, m, Beyond(r, h)), Pow(r, h + m));
      ShrunkPow(r, h + m);
      var last: int := m;
      assert Distance(0, h + last) == h + m;
      assert Beyond(r, h)(last) == Pow(r, h + m);
    }
  }

  lemma {:induction false} LeavingSum(r: real, m: nat, h: nat)
    ensures Shrunk(r, Sum(1, m + 1, Leaving(r, h)))
         == if m <= h + 1 then Pow(r, h + 1 - m) - Pow(r, h + 1) else 1.0 + r - Pow(r, h + 1) - Pow(r, m - h)
  {
    if m > 0 {
      var last := Distance(m, 1 + h);
      LeavingSum(r, m - 1, h);
      ShrunkSum(r, Sum(1, m, Leaving(r, h)), Pow(r, last));
      ShrunkPow(r, last);
      assert Leaving(r, h)(m) == Pow(r, last);
      assert Pow(r, 0) == 1.0 && Pow(r, 1) == r;
      if m <= h + 1 {
        assert last + 1 == h + 1 - (m - 1);
      } else if m == h + 2 {
        assert last == 1 && h + 1 - (m - 1) == 0;
      } else {
        assert last == (m - 1) - h;
      }
    }
  }

  ghost function Overlap(r: real, count: nat): real {
    count as real * (1.0 - r * r)
  }

  lemma OverlapGrows(r: real, count: nat)
    ensures Overlap(r, count + 1) == Overlap(r, count) + (1.0 - r * r)
    ensures Shrunk(r, 1.0 + r) == 1.0 - r * r
  {
  }

  // What the double loop sums to, but for the factor (1 - r) squared.
  ghost function Closed(r: real, m: nat, h: nat): real {
    Pow(r, m + h + 1) - 2.0 * Pow(r, h + 1)
    + if h < m then Overlap(r, m - h) + Pow(r, m - h + 1) else Pow(r, h - m + 1)
  }

  lemma ShrunkTwice(r: real, x: real, y: real, z: real)
    ensures Shrunk(r, Shrunk(r, x + y - z)) == Shrunk(r, Shrunk(r, x)) + Shrunk(r, Shrunk(r, y) - Shrunk(r, z))
  {
    ShrunkSum(r, x, y - z);
    ShrunkSum(r, y - z, z);
    ShrunkSum(r, Shrunk(r, x), Shrunk(r, y - z));
  }

  lemma {:induction false} OwnInClosedForm(r: real, m: nat)
    ensures Shrunk(r, Shrunk(r, Cross(r, m, 0))) == Closed(r, m, 0)
  {
    assert Pow(r, 1) == r;
    if m > 0 {
      var edges := Sum(1, m, Edge(r, m - 1));
      OwnInClosedForm(r, m - 1);
      SquareGrows(r, m - 1);
      SumExtensional(1, m, Edge(r, m - 1), Leaving(r, m - 1));
      LeavingSum(r, m - 1, m - 1);
      assert Shrunk(r, edges) == r - Pow(r, m);
      ShrunkOnce(r, Cross(r, m - 1, 0), edges);
      ShrunkPow(r, m);
      ShrunkPow(r, 1);
      ShrunkLinear(r, r, Pow(r, m), 0.0);
      OverlapGrows(r, m - 1);
      assert Shrunk(r, Shrunk(r, edges)) == r - Pow(r, 2) - Pow(r, m) + Pow(r, m + 1);
    }
  }

  lemma ShrunkOnce(r: real, x: real, y: real)
    ensures Shrunk(r, Shrunk(r, x + 2.0 * y + 1.0))
         == Shrunk(r, Shrunk(r, x)) + 2.0 * Shrunk(r, Shrunk(r, y)) + 1.0 - 2.0 * r + r * r
  {
    ShrunkSum(r, x, 2.0 * y + 1.0);
    ShrunkSum(r, 2.0 * y, 1.0);
    ShrunkSum(r, Shrunk(r, x), Shrunk(r, 2.0 * y + 1.0));
    var s := Shrunk(r, y);
    assert Shrunk(r, 2.0 * y) == 2.0 * s;
    assert Shrunk(r, 2.0 * y + 1.0) == 2.0 * s + (1.0 - r);
    ShrunkSum(r, 2.0 * s, 1.0 - r);
    assert Shrunk(r, 2.0 * s) == 2.0 * Shrunk(r, s);
  }

  lemma ShrunkLinear(r: real, x: real, y: real, z: real)
    ensures Shrunk(r, x - y + z) == Shrunk(r, x) - Shrunk(r, y) + Shrunk(r, z)
  {
  }

  ghost function Moved(r: real, m: nat, h: nat): real {
    Shrunk(r, Sum(1, m + 1, Beyond(r, h))) - Shrunk(r, Sum(1, m + 1, Leaving(r, h)))
  }

  lemma MovedApart(r: real, m: nat, h: nat)
    requires m <= h + 1
    ensures Shrunk(r, Moved(r, m, h))
         == 2.0 * (Pow(r, h + 1) - Pow(r, h + 2)) - (Pow(r, h + m + 1) - Pow(r, h + m + 2))
            - (Pow(r, h + 1 - m) - Pow(r, h + 2 - m))
  {
    var next, far, near := Pow(r, h + 1), Pow(r, h + m + 1), Pow(r, h + 1 - m);
    BeyondSum(r, m, h);
    LeavingSum(r, m, h);
    ShrunkPow(r, h + 1);
    ShrunkPow(r, h + m + 1);
    ShrunkPow(r, h + 1 - m);
    ShrunkLinear(r, next, far, next - near);
    ShrunkLinear(r, next, near, 0.0);
    assert h + 1 - m + 1 == h + 2 - m;
  }

  lemma ClosedMovesApart(r: real, m: nat, h: nat)
    requires m <= h + 1
    ensures Closed(r, m, h + 1) == Closed(r, m, h) + Shrunk(r, Moved(r, m, h))
  {
    MovedApart(r, m, h);
    if h < m {
      LastOverlap(r);
      assert m - h == 1 && h + 1 - m == 0;
    }
  }

  lemma LastOverlap(r: real)
    ensures Overlap(r, 1) + Pow(r, 2) == Pow(r, 0) && Pow(r, 0) == 1.0
  {
    var square := r * r;
    assert Pow(r, 1) == r && Pow(r, 2) == square;
  }

  lemma ClosedMovesOverlapping(r: real, m: nat, h: nat)
    requires h + 1 < m
    ensures Closed(r, m, h + 1) == Closed(r, m, h) + Shrunk(r, Moved(r, m, h))
  {
    BeyondSum(r, m, h);
    LeavingSum(r, m, h);
    ShrunkPow(r, h + 1);
    ShrunkPow(r, h + m + 1);
    ShrunkPow(r, m - h);
    ShrunkLinear(r, Pow(r, h + 1), Pow(r, h + m + 1), Pow(r, h + 1) - (1.0 + r) + Pow(r, m - h));
    ShrunkLinear(r, Pow(r, h + 1), 1.0 + r, Pow(r, m - h));
    OverlapGrows(r, m - h - 1);
  }

  lemma {:induction false} CrossShrinks(r: real, m: nat, h: nat)
    ensures Shrunk(r, Shrunk(r, Cross(r, m, h))) == Closed(r, m, h)
  {
    if h == 0 {
      OwnInClosedForm(r, m);
    } else {
      CrossShrinks(r, m, h - 1);
      CrossMoves(r, m, h - 1);
      if m <= h {
        ClosedMovesApart(r, m, h - 1);
      } else {
        ClosedMovesOverlapping(r, m, h - 1);
      }
      ShrunkTwice(r, Cross(r, m, h - 1), Sum(1, m + 1, Beyond(r, h - 1)), Sum(1, m + 1, Leaving(r, h - 1)));
    }
  }

  // The correlation of two groups h steps apart in closed form, for every factor.
  lemma CrossInClosedForm(r: real, m: nat, h: nat)
    ensures (1.0 - r) * ((1.0 - r) * Cross(r, m, h))
         == Pow(r, m + h + 1) - 2.0 * Pow(r, h + 1)
            + if h < m then (m - h) as real * (1.0 - r * r) + Pow(r, m - h + 1) else Pow(r, h - m + 1)
  {
    CrossShrinks(r, m, h);
    TwiceShrunk(r, Cross(r, m, h));
    if h < m {
      assert Overlap(r, m - h) == (m - h) as real * (1.0 - r * r);
    }
  }

  lemma TwiceShrunk(r: real, x: real)
    ensures Shrunk(r, Shrunk(r, x)) == (1.0 - r) * ((1.0 - r) * x)
  {
  }
}
