// What rounding up does to the durations: when the adjusted minimum can be run at all, and a
// cluster for which it cannot.

module CommitmentRounding {
  import opened Sums
  import opened Rounding
  import opened UnitCommitment
  import opened CommitmentRules
  import opened CommitmentTransitions
  import opened CommitmentAdjustment

  // ----- The new minimum can be run exactly when it passes the test -------------------------------

  // Some plan that keeps the rules runs exactly these units.
  ghost predicate CanRun(c: Cluster, units: seq<int>)
    requires |units| == c.horizon
  {
    exists x :: Runs(c, x, units) && Rules(c, units, x)
  }

  lemma CanRunExactly(c: Cluster, units: seq<int>)
    requires c.Valid() && |units| == c.horizon && BoundsAllow(c, units)
    ensures CanRun(c, units) <==> TestForetells(c, units)
  {
    TestIsExact(c, units);
    if TestForetells(c, units) {
      DerivedPlanRuns(c, units);
    }
    if x :| Runs(c, x, units) && Rules(c, units, x) {
      DerivedKeepsRulesOfAny(c, units, units, x);
    }
  }

  lemma DerivedPlanRuns(c: Cluster, units: seq<int>)
    requires c.Valid() && |units| == c.horizon
    ensures Runs(c, DerivedPlan(c, units), units)
  {
    forall t | 0 <= t < c.horizon
      ensures On(c, DerivedPlan(c, units))(t) == units[t] as real
    {
      DerivedUnitsAt(c, units, t);
    }
  }

  // A least plan for the old minimum, rounded up.
  ghost predicate Adjusted(c: Cluster, before: seq<int>, after: seq<int>)
    requires |before| == |after| == c.horizon
  {
    exists x :: LeastPlan(c, before, x) && RoundedUp(c, x, after)
  }

  lemma AdjustedMinimumCanRunExactly(c: Cluster, before: seq<int>, after: seq<int>)
    requires c.Valid() && |before| == |after| == c.horizon && Adjusted(c, before, after)
    ensures CanRun(c, after) <==> PassesTest(c, after)
  {
    var x :| LeastPlan(c, before, x) && RoundedUp(c, x, after);
    RoundedUpStaysInside(c, before, x, after);
    forall t | 0 <= t < c.horizon
      ensures 0 <= after[t]
    {
      PlanIsNonNegative(c, before, x, t);
      assert after[t] == Ceiling(On(c, x)(t));
    }
    CanRunExactly(c, after);
  }

  // ----- Whole units ------------------------------------------------------------------------------

  ghost predicate WholeUnits(c: Cluster, x: int -> real) {
    forall t :: 0 <= t < c.horizon ==> On(c, x)(t) == Ceiling(On(c, x)(t)) as real
  }

  // A plan in whole units is rounded up to itself, so the new minimum can be run.
  lemma WholeUnitsCanRun(c: Cluster, before: seq<int>, x: int -> real, after: seq<int>)
    requires c.Valid() && |before| == |after| == c.horizon
    requires Rules(c, before, x) && RoundedUp(c, x, after) && WholeUnits(c, x)
    ensures CanRun(c, after)
  {
    forall t | 0 <= t < c.horizon
      ensures On(c, x)(t) == after[t] as real
      ensures BoundRules(c, after, x, t) && RowRules(c, x, t)
    {
      assert BoundRules(c, before, x, t) && RowRules(c, x, t);
    }
    assert Runs(c, x, after) && Rules(c, after, x);
  }

  // ----- Clusters whose adjusted minimum cannot be run -----------------------------------------

  type Horizon = n: nat | 6 <= n witness 6

  // Two units that stay on for 3 hours and off for all hours but 2; both must run in the last hour.
  ghost function Stiff(n: Horizon): Cluster {
    Cluster(n, seq(n, _ => 2), 3, n - 2)
  }

  ghost function LastHour(n: Horizon): seq<int> {
    seq(n, t => if t == n - 1 then 2 else 0)
  }

  lemma StiffBounds(n: Horizon, t: int)
    requires 0 <= t + n && t < n
    ensures Stiff(n).MaxAt(t) == 2 && (0 < t + n ==> Stiff(n).Loss(t) == Stiff(n).Gain(t) == 0)
  {
  }

  lemma StiffRoom(n: Horizon, t: int)
    requires 0 <= t < n
    ensures DownRhs(Stiff(n), t) == 2.0
  {
    var c := Stiff(n);
    forall k | t - c.minDown + 1 <= k < t + 1
      ensures GainAsReal(c)(k) == 0.0
    {
      StiffBounds(n, k);
    }
    SumZero(t - c.minDown + 1, t + 1, GainAsReal(c));
    StiffBounds(n, t - c.minDown);
  }

  // ----- What the rules leave of such a plan -----------------------------------------------------

  ghost predicate NonNegative(lo: int, hi: int, f: int -> real) {
    forall k :: lo <= k < hi ==> 0.0 <= f(k)
  }

  lemma {:induction false} TermBelowSum(lo: int, hi: int, f: int -> real, j: int)
    requires NonNegative(lo, hi, f) && lo <= j < hi
    ensures f(j) <= Sum(lo, hi, f)
    decreases hi - lo
  {
    if j < hi - 1 {
      TermBelowSum(lo, hi - 1, f, j);
    } else {
      SumNonNegative(lo, hi - 1, f);
    }
  }

  lemma {:induction false} SumNonNegative(lo: int, hi: int, f: int -> real)
    requires NonNegative(lo, hi, f)
    ensures 0.0 <= Sum(lo, hi, f)
    decreases hi - lo
  {
    if lo < hi {
      SumNonNegative(lo, hi - 1, f);
    }
  }

  lemma TwoTermsBelowSum(lo: int, hi: int, f: int -> real)
    requires NonNegative(lo, hi, f) && lo <= 0 && 2 <= hi
    ensures f(0) + f(1) <= Sum(lo, hi, f)
  {
    SumSplit(lo, 1, hi, f);
    TermBelowSum(lo, 1, f, 0);
    TermBelowSum(1, hi, f, 1);
  }

  ghost predicate KeepsRules(n: Horizon, x: int -> real) {
    Rules(Stiff(n), LastHour(n), x)
  }

  // The rules of hour t, which may be counted from the end.
  lemma HourOfPlan(n: Horizon, x: int -> real, t: int)
    requires KeepsRules(n, x) && 0 < t + n && t < n
    ensures var c := Stiff(n);
      && 0.0 <= Stops(c, x)(t) && 0.0 <= Starts(c, x)(t) && Outages(c, x)(t) == 0.0
      && On(c, x)(t) == On(c, x)(t - 1) + Starts(c, x)(t) - Stops(c, x)(t)
      && StartsLessOutages(c, x)(t) == Starts(c, x)(t)
  {
    var c, h := Stiff(n), Stiff(n).Wrap(t);
    assert BoundRules(c, LastHour(n), x, h) && RowRules(c, x, h);
    StiffBounds(n, h);
    assert c.Wrap(h) == h && c.Wrap(h - 1) == c.Wrap(t - 1);
  }

  lemma StopsOfPlan(n: Horizon, x: int -> real, lo: int, hi: int)
    requires KeepsRules(n, x) && 0 < lo + n && hi <= n
    ensures NonNegative(lo, hi, Stops(Stiff(n), x))
  {
    forall k | lo <= k < hi
      ensures 0.0 <= Stops(Stiff(n), x)(k)
    {
      HourOfPlan(n, x, k);
    }
  }

  // The minimum down time row of hour t.
  lemma RoomOfHour(n: Horizon, x: int -> real, t: nat)
    requires KeepsRules(n, x) && t < n
    ensures On(Stiff(n), x)(t) + Sum(t - n + 3, t + 1, Stops(Stiff(n), x)) <= 2.0
    ensures NonNegative(t - n + 3, t + 1, Stops(Stiff(n), x))
  {
    var c := Stiff(n);
    assert RowRules(c, x, t);
    assert t - c.minDown + 1 == t - n + 3;
    StiffRoom(n, t);
    StopsOfPlan(n, x, t - n + 3, t + 1);
  }

  lemma BothRunInLastHour(n: Horizon, x: int -> real)
    requires KeepsRules(n, x)
    ensures On(Stiff(n), x)(n - 1) == On(Stiff(n), x)(-1) == 2.0
  {
    var c := Stiff(n);
    assert BoundRules(c, LastHour(n), x, n - 1);
    StiffBounds(n, n - 1);
    assert c.Wrap(-1) == c.Wrap(n - 1);
  }

  // So nothing stops after hour 1.
  lemma NothingStopsLater(n: Horizon, x: int -> real, t: nat)
    requires KeepsRules(n, x) && 2 <= t < n
    ensures Stops(Stiff(n), x)(t) == 0.0
  {
    BothRunInLastHour(n, x);
    RoomOfHour(n, x, n - 1);
    HourOfPlan(n, x, t);
    TermBelowSum(2, n, Stops(Stiff(n), x), t);
  }

  lemma {:induction false} MiddleIsNotBelow(n: Horizon, x: int -> real, t: nat)
    requires KeepsRules(n, x) && 1 <= t < n
    ensures On(Stiff(n), x)(t) >= 2.0 - Stops(Stiff(n), x)(0) - Stops(Stiff(n), x)(1)
  {
    HourOfPlan(n, x, t);
    if t == 1 {
      BothRunInLastHour(n, x);
      HourOfPlan(n, x, 0);
    } else {
      MiddleIsNotBelow(n, x, t - 1);
      NothingStopsLater(n, x, t);
    }
  }

  // In hours 1 to n - 3 the units stopped in the first two hours are off.
  lemma MiddleOfPlan(n: Horizon, x: int -> real, t: nat)
    requires KeepsRules(n, x) && 1 <= t <= n - 3
    ensures On(Stiff(n), x)(t) == 2.0 - Stops(Stiff(n), x)(0) - Stops(Stiff(n), x)(1)
  {
    MiddleIsNotBelow(n, x, t);
    RoomOfHour(n, x, t);
    TwoTermsBelowSum(t - n + 3, t + 1, Stops(Stiff(n), x));
  }

  lemma SumOfThree(t: int, f: int -> real)
    ensures Sum(t - 2, t + 1, f) == f(t - 2) + f(t - 1) + f(t)
  {
    assert Sum(t - 2, t - 2, f) == 0.0;
    assert Sum(t - 2, t - 1, f) == f(t - 2);
    assert Sum(t - 2, t, f) == f(t - 2) + f(t - 1);
  }

  // The minimum up time row of hour t.
  lemma StartsOfHour(n: Horizon, x: int -> real, t: nat)
    requires KeepsRules(n, x) && t < n
    ensures var starts := Starts(Stiff(n), x);
            On(Stiff(n), x)(t) >= starts(t - 2) + starts(t - 1) + starts(t)
  {
    var c := Stiff(n);
    assert RowRules(c, x, t);
    SumOfThree(t, StartsLessOutages(c, x));
    HourOfPlan(n, x, t);
    HourOfPlan(n, x, t - 1);
    HourOfPlan(n, x, t - 2);
  }

  lemma WrappedStarts(n: Horizon, x: int -> real, t: int)
    requires 0 <= t + n && t < 0
    ensures Starts(Stiff(n), x)(t) == Starts(Stiff(n), x)(n + t)
  {
    assert Stiff(n).Wrap(t) == n + t == Stiff(n).Wrap(n + t);
  }

  // What is left, p and q being the stops of hours 0 and 1.
  ghost predicate Bent(n: Horizon, x: int -> real, p: real, q: real) {
    var on := On(Stiff(n), x);
    && on(n - 1) == 2.0 && 2.0 - p <= on(0) && 2.0 * p + q <= 2.0
    && (forall t :: 1 <= t <= n - 3 ==> on(t) == 2.0 - p - q)
    && p + q <= on(n - 2) <= 2.0 - q
  }

  lemma EndsOfPlan(n: Horizon, x: int -> real)
    requires KeepsRules(n, x)
    ensures var on, p, q := On(Stiff(n), x), Stops(Stiff(n), x)(0), Stops(Stiff(n), x)(1);
      && 2.0 - p <= on(0) && 2.0 * p + q <= 2.0 && p + q <= on(n - 2)
  {
    BothRunInLastHour(n, x);
    HourOfPlan(n, x, 0);
    HourOfPlan(n, x, 1);
    HourOfPlan(n, x, n - 2);
    HourOfPlan(n, x, n - 1);
    NothingStopsLater(n, x, n - 2);
    NothingStopsLater(n, x, n - 1);
    MiddleOfPlan(n, x, 1);
    MiddleOfPlan(n, x, n - 3);
    StartsOfHour(n, x, 0);
    StartsOfHour(n, x, 1);
    WrappedStarts(n, x, -1);
    WrappedStarts(n, x, -2);
  }

  lemma PlansAreBent(n: Horizon, x: int -> real)
    requires KeepsRules(n, x)
    ensures Bent(n, x, Stops(Stiff(n), x)(0), Stops(Stiff(n), x)(1))
  {
    BothRunInLastHour(n, x);
    EndsOfPlan(n, x);
    forall t | 1 <= t <= n - 3
      ensures On(Stiff(n), x)(t) == 2.0 - Stops(Stiff(n), x)(0) - Stops(Stiff(n), x)(1)
    {
      MiddleOfPlan(n, x, t);
    }
    RoomOfHour(n, x, n - 2);
    TermBelowSum(1, n - 1, Stops(Stiff(n), x), 1);
  }

  // ----- The fewest unit-hours --------------------------------------------------------------------

  ghost function Fewest(n: Horizon): real {
    6.0 + (n - 5) as real * 2.0 / 3.0
  }

  lemma {:induction false} ConstantSum(lo: int, hi: int, f: int -> real, v: real)
    requires lo <= hi && forall k :: lo <= k < hi ==> f(k) == v
    ensures Sum(lo, hi, f) == (hi - lo) as real * v
    decreases hi - lo
  {
    if lo < hi {
      ConstantSum(lo, hi - 1, f, v);
      assert (hi - lo) as real * v == (hi - 1 - lo) as real * v + v;
    }
  }

  lemma TotalOfEnds(n: Horizon, f: int -> real, rest: real)
    requires forall t :: 1 <= t <= n - 3 ==> f(t) == rest
    ensures Sum(0, n, f) == f(0) + (n - 3) as real * rest + f(n - 2) + f(n - 1)
  {
    SumSplit(0, 1, n, f);
    SumSplit(1, n - 2, n, f);
    ConstantSum(1, n - 2, f, rest);
    assert Sum(0, 0, f) == 0.0 && Sum(0, 1, f) == f(0);
    assert Sum(n - 2, n - 2, f) == 0.0 && Sum(n - 2, n - 1, f) == f(n - 2);
  }

  lemma TotalOfBent(n: Horizon, x: int -> real, p: real, q: real)
    requires Bent(n, x, p, q)
    ensures TotalUnits(Stiff(n), x) >= 4.0 + q + (n - 3) as real * (2.0 - p - q)
  {
    TotalOfEnds(n, On(Stiff(n), x), 2.0 - p - q);
  }

  lemma Products(n: Horizon, rest: real, more: real)
    requires rest == 2.0 / 3.0 + more && 0.0 <= more
    ensures (n - 3) as real * rest >= 2.0 * rest + (n - 5) as real * 2.0 / 3.0 + more
    ensures more == 0.0 ==> (n - 3) as real * rest == 2.0 * rest + (n - 5) as real * 2.0 / 3.0
  {
    var m := (n - 5) as real;
    assert (n - 3) as real == m + 2.0;
    assert (m + 2.0) * rest == m * (2.0 / 3.0) + m * more + 2.0 * rest;
    assert (m - 1.0) * more >= 0.0;
  }

  // A plan this cheap stops two thirds of a unit in each of the first two hours.
  lemma FewestStops(n: Horizon, total: real, p: real, q: real)
    requires 2.0 * p + q <= 2.0 && p + 2.0 * q <= 2.0
    requires 4.0 + q + (n - 3) as real * (2.0 - p - q) <= total
    ensures Fewest(n) <= total && (total == Fewest(n) ==> p == q == 2.0 / 3.0)
  {
    var rest := 2.0 - p - q;
    Products(n, rest, rest - 2.0 / 3.0);
  }

  // ----- A plan that has no more ---------------------------------------------------------------

  ghost function SaggingUnits(n: Horizon, t: int): real {
    if t == n - 1 then 2.0 else if t == 0 || t == n - 2 then 4.0 / 3.0 else 2.0 / 3.0
  }

  // Two thirds of a unit stop in each of the first two hours and start in each of the last two.
  ghost function SaggingStops(t: int): real {
    if t == 0 || t == 1 then 2.0 / 3.0 else 0.0
  }

  ghost function SaggingStarts(n: Horizon, t: int): real {
    if t == n - 2 || t == n - 1 then 2.0 / 3.0 else 0.0
  }

  ghost function Sagging(n: Horizon): int -> real {
    v => if v % 4 == 0 then SaggingUnits(n, v / 4)
         else if v % 4 == 2 then SaggingStarts(n, v / 4)
         else if v % 4 == 3 then SaggingStops(v / 4)
         else 0.0
  }

  lemma SaggingAt(n: Horizon, t: int)
    requires 0 <= t + n && t < n
    ensures var c := Stiff(n);
      && On(c, Sagging(n))(t) == SaggingUnits(n, c.Wrap(t)) && Outages(c, Sagging(n))(t) == 0.0
      && Starts(c, Sagging(n))(t) == SaggingStarts(n, c.Wrap(t)) && Stops(c, Sagging(n))(t) == SaggingStops(c.Wrap(t))
      && StartsLessOutages(c, Sagging(n))(t) == SaggingStarts(n, c.Wrap(t))
  {
    var h := Stiff(n).Wrap(t);
    assert OnColumn(h) / 4 == h && OutageColumn(h) / 4 == h && StartColumn(h) / 4 == h && StopColumn(h) / 4 == h;
  }

  lemma SaggingKeepsBounds(n: Horizon, t: nat)
    requires t < n
    ensures BoundRules(Stiff(n), LastHour(n), Sagging(n), t) && Balanced(Stiff(n), Sagging(n), t)
    ensures Outages(Stiff(n), Sagging(n))(t) <= Stops(Stiff(n), Sagging(n))(t)
  {
    SaggingAt(n, t);
    SaggingAt(n, t - 1);
    StiffBounds(n, t);
  }

  lemma SaggingKeepsUpTime(n: Horizon, t: nat)
    requires t < n
    ensures UpTimeKept(Stiff(n), Sagging(n), t)
  {
    SumOfThree(t, StartsLessOutages(Stiff(n), Sagging(n)));
    SaggingAt(n, t);
    SaggingAt(n, t - 1);
    SaggingAt(n, t - 2);
  }

  // The stops of a window that opens at lo, in the last n - 2 hours up to t.
  lemma SaggingStopsInWindow(n: Horizon, t: nat)
    requires t < n
    ensures Sum(t - n + 3, t + 1, Stops(Stiff(n), Sagging(n))) <= 2.0 - SaggingUnits(n, t)
  {
    var stops := Stops(Stiff(n), Sagging(n));
    forall k | t - n + 3 <= k <= t
      ensures stops(k) == if k == 0 || k == 1 then 2.0 / 3.0 else 0.0
    {
      SaggingAt(n, k);
    }
    if t <= n - 3 {
      SumSplit(t - n + 3, 0, t + 1, stops);
      SumZero(t - n + 3, 0, stops);
      assert Sum(0, 0, stops) == 0.0 && Sum(0, 1, stops) == stops(0);
    }
    if 1 <= t <= n - 3 {
      SumSplit(0, 2, t + 1, stops);
      SumZero(2, t + 1, stops);
      assert Sum(0, 2, stops) == stops(0) + stops(1);
    }
    if t == n - 2 {
      SumSplit(1, 2, t + 1, stops);
      SumZero(2, t + 1, stops);
      assert Sum(1, 1, stops) == 0.0 && Sum(1, 2, stops) == stops(1);
    }
    if t == n - 1 {
      SumZero(2, t + 1, stops);
    }
  }

  lemma SaggingKeepsRules(n: Horizon)
    ensures KeepsRules(n, Sagging(n))
  {
    var c, x := Stiff(n), Sagging(n);
    forall t | 0 <= t < n
      ensures BoundRules(c, LastHour(n), x, t) && RowRules(c, x, t)
    {
      SaggingKeepsBounds(n, t);
      SaggingKeepsUpTime(n, t);
      SaggingStopsInWindow(n, t);
      StiffRoom(n, t);
      SaggingAt(n, t);
      assert t - c.minDown + 1 == t - n + 3;
    }
  }

  lemma TotalOfSagging(n: Horizon, f: int -> real)
    requires f(0) == f(n - 2) == 4.0 / 3.0 && f(n - 1) == 2.0
    requires forall t :: 1 <= t <= n - 3 ==> f(t) == 2.0 / 3.0
    ensures Sum(0, n, f) == Fewest(n)
  {
    TotalOfEnds(n, f, 2.0 / 3.0);
    Products(n, 2.0 / 3.0, 0.0);
  }

  lemma SaggingTotal(n: Horizon)
    ensures TotalUnits(Stiff(n), Sagging(n)) == Fewest(n)
  {
    var on := On(Stiff(n), Sagging(n));
    forall t | 0 <= t < n
      ensures on(t) == SaggingUnits(n, t)
    {
      SaggingAt(n, t);
    }
    TotalOfSagging(n, on);
  }

  lemma FewestOfPlan(n: Horizon, x: int -> real)
    requires KeepsRules(n, x)
    ensures Fewest(n) <= TotalUnits(Stiff(n), x)
    ensures TotalUnits(Stiff(n), x) == Fewest(n) ==> Bent(n, x, 2.0 / 3.0, 2.0 / 3.0)
  {
    var p, q := Stops(Stiff(n), x)(0), Stops(Stiff(n), x)(1);
    PlansAreBent(n, x);
    TotalOfBent(n, x, p, q);
    FewestStops(n, TotalUnits(Stiff(n), x), p, q);
  }

  lemma SaggingIsLeast(n: Horizon)
    ensures LeastPlan(Stiff(n), LastHour(n), Sagging(n))
  {
    SaggingKeepsRules(n);
    SaggingTotal(n);
    forall y | KeepsRules(n, y)
      ensures TotalUnits(Stiff(n), Sagging(n)) <= TotalUnits(Stiff(n), y)
    {
      FewestOfPlan(n, y);
    }
  }

  // ----- Rounded up ---------------------------------------------------------------------------------

  lemma AdjustedHours(n: Horizon, after: seq<int>)
    requires |after| == n && Adjusted(Stiff(n), LastHour(n), after)
    ensures after[0] == 2 && after[1] == 1 && after[n - 2] == 2
  {
    var c, before := Stiff(n), LastHour(n);
    var x :| LeastPlan(c, before, x) && RoundedUp(c, x, after);
    SaggingKeepsRules(n);
    SaggingTotal(n);
    FewestOfPlan(n, x);
    RoundedUpStaysInside(c, before, x, after);
    assert after[0] == Ceiling(On(c, x)(0)) && after[1] == Ceiling(On(c, x)(1));
    assert after[n - 2] == Ceiling(On(c, x)(n - 2));
  }

  // What stops in hour 1 has no room in hour n - 2 yet.
  lemma RestartNeedsRoom(n: Horizon, units: seq<int>, x: int -> real)
    requires |units| == n && Runs(Stiff(n), x, units) && Rules(Stiff(n), units, x)
    ensures units[0] - units[1] + units[n - 2] <= 2
  {
    var c := Stiff(n);
    assert BoundRules(c, units, x, 1) && RowRules(c, x, 1) && RowRules(c, x, n - 2);
    StiffRoom(n, n - 2);
    forall k | 1 <= k < n - 1
      ensures 0.0 <= Stops(c, x)(k)
    {
      assert BoundRules(c, units, x, k);
    }
    TermBelowSum(1, n - 1, Stops(c, x), 1);
    assert On(c, x)(0) == units[0] as real && On(c, x)(1) == units[1] as real;
    assert On(c, x)(n - 2) == units[n - 2] as real;
  }

  lemma CannotRunAgainSoSoon(n: Horizon, units: seq<int>)
    requires |units| == n && 2 < units[0] - units[1] + units[n - 2]
    ensures !CanRun(Stiff(n), units)
  {
    forall x | Runs(Stiff(n), x, units)
      ensures !Rules(Stiff(n), units, x)
    {
      if Rules(Stiff(n), units, x) {
        RestartNeedsRoom(n, units, x);
      }
    }
  }

  // Over any horizon of at least 6 hours there is a cluster whose bounds allow a plan and whose
  // minimum, whatever the solver, is adjusted to one that cannot be run.
  lemma AdjustedMinimumMayNotRun(n: Horizon, after: seq<int>)
    requires |after| == n && Adjusted(Stiff(n), LastHour(n), after)
    ensures Stiff(n).Valid() && BoundsAllow(Stiff(n), LastHour(n)) && !CanRun(Stiff(n), after)
  {
    AdjustedHours(n, after);
    CannotRunAgainSoSoon(n, after);
  }
}
