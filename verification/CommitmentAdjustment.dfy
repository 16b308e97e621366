// The adjustment of one cluster, for any solver that returns a cheapest feasible point.

module CommitmentAdjustment {
  import opened Reals
  import opened Sums
  import opened UnitCommitment
  import opened CommitmentRules
  import opened CommitmentTransitions
  import opened Rounding

  datatype Outcome = NoSolution | Solution(x: int -> real)

  type Solver = Lp -> Outcome

  ghost function CostOf(lp: Lp): int -> real {
    v => if 0 <= v < |lp.bounds.cost| then lp.bounds.cost[v] else 0.0
  }

  ghost function Priced(lp: Lp, x: int -> real): int -> real { v => CostOf(lp)(v) * x(v) }

  ghost function Cost(lp: Lp, x: int -> real): real {
    Sum(0, |lp.bounds.cost|, Priced(lp, x))
  }

  ghost predicate Cheapest(lp: Lp, x: int -> real)
    requires |lp.bounds.lower| == |lp.bounds.upper| == |lp.bounds.kind|
  {
    Feasible(lp, x) && forall y :: Feasible(lp, y) ==> Cost(lp, x) <= Cost(lp, y)
  }

  // The contract of the simplex solver on one program.
  ghost predicate Solves(lp: Lp, outcome: Outcome)
    requires |lp.bounds.lower| == |lp.bounds.upper| == |lp.bounds.kind|
  {
    match outcome
    case NoSolution => forall x :: !Feasible(lp, x)
    case Solution(x) => Cheapest(lp, x)
  }

  ghost function TotalUnits(c: Cluster, x: int -> real): real {
    Sum(0, c.horizon, On(c, x))
  }

  lemma SumOfFourMore(at: nat, f: int -> real)
    ensures Sum(0, at + 4, f) == Sum(0, at, f) + f(at) + f(at + 1) + f(at + 2) + f(at + 3)
  {
    assert Sum(0, at + 4, f) == Sum(0, at + 3, f) + f(at + 3);
    assert Sum(0, at + 3, f) == Sum(0, at + 2, f) + f(at + 2);
    assert Sum(0, at + 2, f) == Sum(0, at + 1, f) + f(at + 1);
  }

  lemma PriceOfHour(lp: Lp, c: Cluster, minUnits: seq<int>, x: int -> real, h: nat)
    requires c.Valid() && |minUnits| == c.horizon && h < c.horizon
    requires IsProgramOf(lp, c, minUnits)
    ensures Priced(lp, x)(4 * h) == On(c, x)(h)
    ensures Priced(lp, x)(4 * h + 1) == Priced(lp, x)(4 * h + 2) == Priced(lp, x)(4 * h + 3) == 0.0
  {
    assert HourBounded(lp.bounds, c, minUnits, h, c.Loss(h));
    assert c.Wrap(h) == h;
  }

  lemma {:induction false} CostCountsUnits(lp: Lp, c: Cluster, minUnits: seq<int>, x: int -> real, hours: nat)
    requires c.Valid() && |minUnits| == c.horizon && hours <= c.horizon
    requires IsProgramOf(lp, c, minUnits)
    ensures Sum(0, 4 * hours, Priced(lp, x)) == Sum(0, hours, On(c, x))
  {
    if hours > 0 {
      CostCountsUnits(lp, c, minUnits, x, hours - 1);
      PriceOfHour(lp, c, minUnits, x, hours - 1);
      SumOfFourMore(4 * (hours - 1), Priced(lp, x));
    }
  }

  // A plan that keeps the rules and runs the fewest unit-hours of all plans that do.
  ghost predicate LeastPlan(c: Cluster, minUnits: seq<int>, x: int -> real)
    requires |minUnits| == c.horizon
  {
    && Rules(c, minUnits, x)
    && forall y :: Rules(c, minUnits, y) ==> TotalUnits(c, x) <= TotalUnits(c, y)
  }

  lemma SolutionIsLeastPlan(lp: Lp, c: Cluster, minUnits: seq<int>, x: int -> real)
    requires c.Valid() && |minUnits| == c.horizon
    requires IsProgramOf(lp, c, minUnits) && Cheapest(lp, x)
    ensures LeastPlan(c, minUnits, x)
  {
    FeasibleMeansRules(lp, c, minUnits, x);
    CostCountsUnits(lp, c, minUnits, x, c.horizon);
    forall y | Rules(c, minUnits, y)
      ensures TotalUnits(c, x) <= TotalUnits(c, y)
    {
      FeasibleMeansRules(lp, c, minUnits, y);
      CostCountsUnits(lp, c, minUnits, y, c.horizon);
      assert Feasible(lp, y);
    }
  }

  lemma CeilingKeepsRange(low: int, r: real, high: int)
    requires low as real <= r <= high as real
    ensures low <= Ceiling(r) <= high
  {
  }

  // The new minimum is this plan rounded up, hour by hour.
  ghost predicate RoundedUp(c: Cluster, x: int -> real, minUnits: seq<int>)
    requires |minUnits| == c.horizon
  {
    forall t :: 0 <= t < c.horizon ==> minUnits[t] == Ceiling(On(c, x)(t))
  }

  lemma RoundedUpStaysInside(c: Cluster, before: seq<int>, x: int -> real, after: seq<int>)
    requires c.Valid() && |before| == |after| == c.horizon
    requires Rules(c, before, x) && RoundedUp(c, x, after)
    ensures forall t :: 0 <= t < c.horizon ==> before[t] <= after[t] <= c.maxUnits[t]
  {
    forall t | 0 <= t < c.horizon
      ensures before[t] <= after[t] <= c.maxUnits[t]
    {
      assert BoundRules(c, before, x, t);
      assert c.MaxAt(t) == c.maxUnits[t];
      CeilingKeepsRange(before[t], On(c, x)(t), c.maxUnits[t]);
    }
  }

  lemma {:induction false} EqualSumsHaveEqualTerms(lo: int, hi: int, f: int -> real, g: int -> real, k: int)
    requires forall i :: lo <= i < hi ==> f(i) <= g(i)
    requires Sum(lo, hi, g) <= Sum(lo, hi, f) && lo <= k < hi
    ensures f(k) == g(k)
    decreases hi - lo
  {
    SumMonotone(lo, hi - 1, f, g);
    if k < hi - 1 {
      EqualSumsHaveEqualTerms(lo, hi - 1, f, g, k);
    }
  }

  // A least plan runs exactly the minimum if the plan derived from the minimum keeps the rules.
  lemma LeastPlanRunsTheMinimum(c: Cluster, minUnits: seq<int>, x: int -> real)
    requires c.Valid() && |minUnits| == c.horizon && LeastPlan(c, minUnits, x)
    requires Rules(c, minUnits, DerivedPlan(c, minUnits))
    ensures Runs(c, x, minUnits)
  {
    var d := DerivedPlan(c, minUnits);
    forall t | 0 <= t < c.horizon
      ensures On(c, d)(t) == minUnits[t] as real && On(c, d)(t) <= On(c, x)(t)
    {
      DerivedPlanAt(c, minUnits, t);
      assert BoundRules(c, minUnits, x, t);
    }
    assert TotalUnits(c, x) <= TotalUnits(c, d);
    forall t | 0 <= t < c.horizon
      ensures On(c, x)(t) == minUnits[t] as real
    {
      EqualSumsHaveEqualTerms(0, c.horizon, On(c, d), On(c, x), t);
    }
  }

  // The program leaves the minimum as it is exactly when the plan derived from it keeps the rules.
  lemma UnchangedExactlyWhenDerivedPlanKeepsRules(c: Cluster, before: seq<int>, x: int -> real, after: seq<int>)
    requires c.Valid() && |before| == |after| == c.horizon
    requires LeastPlan(c, before, x) && RoundedUp(c, x, after)
    ensures after == before <==> Rules(c, before, DerivedPlan(c, before))
  {
    if Rules(c, before, DerivedPlan(c, before)) {
      LeastPlanRunsTheMinimum(c, before, x);
      forall t | 0 <= t < c.horizon
        ensures after[t] == before[t]
      {
        assert On(c, x)(t) == before[t] as real;
        CeilingKeepsRange(before[t], On(c, x)(t), before[t]);
      }
    }
    if after == before {
      forall t | 0 <= t < c.horizon
        ensures On(c, x)(t) == before[t] as real
      {
        assert BoundRules(c, before, x, t);
        assert after[t] == Ceiling(On(c, x)(t));
      }
      DerivedKeepsRulesOfAny(c, before, before, x);
    }
  }

  method RoundUp(c: Cluster, columns: Columns, x: int -> real, minUnits: array<int>)
    requires minUnits.Length == c.horizon && ColumnsKnown(columns, c.horizon)
    modifies minUnits
    ensures RoundedUp(c, x, minUnits[..])
  {
    for t := 0 to c.horizon
      invariant forall h :: 0 <= h < t ==> minUnits[h] == Ceiling(On(c, x)(h))
    {
      minUnits[t] := Ceiling(x(columns.on[t]));
      assert c.Wrap(t) == t;
    }
  }

  // Replaces the minimum by a least plan rounded up when the bounds allow a plan, and leaves
  // it alone otherwise.
  method AdjustMinimum(c: Cluster, minUnits: array<int>, solver: Solver)
    requires c.Valid() && minUnits.Length == c.horizon
    requires forall lp :: IsProgramOf(lp, c, minUnits[..]) ==> Solves(lp, solver(lp))
    modifies minUnits
    ensures BoundsAllow(c, old(minUnits[..])) ==>
              exists x :: LeastPlan(c, old(minUnits[..]), x) && RoundedUp(c, x, minUnits[..])
    ensures BoundsAllow(c, old(minUnits[..])) ==>
              forall t :: 0 <= t < c.horizon ==> old(minUnits[t]) <= minUnits[t] <= c.maxUnits[t]
    ensures !BoundsAllow(c, old(minUnits[..])) ==> minUnits[..] == old(minUnits[..])
    ensures BoundsAllow(c, old(minUnits[..])) ==>
              (minUnits[..] == old(minUnits[..]) <==> TestForetells(c, old(minUnits[..])))
  {
    ghost var before := minUnits[..];
    var lp, columns := BuildProgram(c, minUnits[..]);
    FeasibleExactlyWhenBoundsAllow(lp, c, before);
    match solver(lp) {
      case Solution(x) =>
        RoundUp(c, columns, x, minUnits);
        SolutionIsLeastPlan(lp, c, before, x);
        RoundedUpStaysInside(c, before, x, minUnits[..]);
        UnchangedExactlyWhenDerivedPlanKeepsRules(c, before, x, minUnits[..]);
        TestIsExact(c, before);
      case NoSolution =>
    }
  }

  // ----- One cluster after the first optimisation -----------------------------------------------

  ghost function RoundedUnits(units: seq<real>): (n: seq<int>)
    ensures |n| == |units| && forall t :: 0 <= t < |units| ==> n[t] == Ceiling(units[t])
  {
    seq(|units|, t requires 0 <= t < |units| => Ceiling(units[t]))
  }

  function Larger(a: int, b: int): int { if a < b then b else a }

  function MinPower(unitMinPower: real, units: int): real {
    unitMinPower * units as real
  }

  function Covering(unitMinPower: real, units: int, available: real): real {
    Max(available, MinPower(unitMinPower, units))
  }

  // The available power is raised to the minimum power of that many units.
  method RaiseMaximum(unitMinPower: real, minUnits: array<int>, maxUnits: array<int>, available: array<real>)
    requires minUnits.Length == maxUnits.Length == available.Length && minUnits != maxUnits
    modifies maxUnits, available
    ensures forall t :: 0 <= t < maxUnits.Length ==> maxUnits[t] == Larger(old(maxUnits[t]), minUnits[t])
    ensures forall t :: 0 <= t < maxUnits.Length ==>
              available[t] == Covering(unitMinPower, maxUnits[t], old(available[t]))
    ensures forall t :: 0 <= t < maxUnits.Length ==>
              && minUnits[t] <= maxUnits[t] && old(maxUnits[t]) <= maxUnits[t]
              && (maxUnits[t] == minUnits[t] || maxUnits[t] == old(maxUnits[t]))
              && available[t] == Max(old(available[t]), unitMinPower * maxUnits[t] as real)
  {
    for t := 0 to maxUnits.Length
      invariant forall h :: 0 <= h < t ==> maxUnits[h] == Larger(old(maxUnits[h]), minUnits[h])
      invariant forall h :: t <= h < maxUnits.Length ==> maxUnits[h] == old(maxUnits[h])
      invariant forall h :: t <= h < maxUnits.Length ==> available[h] == old(available[h])
      invariant forall h :: 0 <= h < t ==> available[h] == Covering(unitMinPower, maxUnits[h], old(available[h]))
    {
      if maxUnits[t] < minUnits[t] {
        maxUnits[t] := minUnits[t];
      }
      if MinPower(unitMinPower, maxUnits[t]) > available[t] {
        available[t] := MinPower(unitMinPower, maxUnits[t]);
      }
    }
  }

  method RoundUnits(units: seq<real>, minUnits: array<int>)
    requires minUnits.Length == |units|
    modifies minUnits
    ensures minUnits[..] == RoundedUnits(units)
  {
    for t := 0 to |units|
      invariant forall h :: 0 <= h < t ==> minUnits[h] == RoundedUnits(units)[h]
    {
      minUnits[t] := Ceiling(units[t]);
    }
  }

  // The minimum becomes the rounded result and is adjusted; a maximum below it is raised to
  // it, and the available power must then cover the minimum power of that many units.
  method AdjustCluster(units: seq<real>, minUp: nat, minDown: nat, unitMinPower: real,
                       minUnits: array<int>, maxUnits: array<int>, available: array<real>, solver: Solver)
    requires minUnits.Length == maxUnits.Length == available.Length == |units|
    requires minUp <= |units| && minDown <= |units| && minUnits != maxUnits
    requires var c := Cluster(|units|, maxUnits[..], minUp, minDown);
             forall lp :: IsProgramOf(lp, c, RoundedUnits(units)) ==> Solves(lp, solver(lp))
    modifies minUnits, maxUnits, available
    ensures var c := Cluster(|units|, old(maxUnits[..]), minUp, minDown);
            if BoundsAllow(c, RoundedUnits(units)) then
              && maxUnits[..] == old(maxUnits[..])
              && exists x :: LeastPlan(c, RoundedUnits(units), x) && RoundedUp(c, x, minUnits[..])
            else
              && minUnits[..] == RoundedUnits(units)
              && forall t :: 0 <= t < |units| ==> maxUnits[t] == Larger(old(maxUnits[t]), minUnits[t])
    ensures forall t :: 0 <= t < |units| ==>
              RoundedUnits(units)[t] <= minUnits[t] <= maxUnits[t] && old(maxUnits[t]) <= maxUnits[t]
    ensures forall t :: 0 <= t < |units| ==>
              available[t] == Covering(unitMinPower, maxUnits[t], old(available[t]))
  {
    RoundUnits(units, minUnits);
    var c := Cluster(|units|, maxUnits[..], minUp, minDown);
    AdjustMinimum(c, minUnits, solver);
    ghost var adjusted := minUnits[..];
    forall t | 0 <= t < |units|
      ensures RoundedUnits(units)[t] <= adjusted[t]
    {
      assert minUnits[t] == adjusted[t];
    }
    RaiseMaximum(unitMinPower, minUnits, maxUnits, available);
    assert minUnits[..] == adjusted;
    forall t | 0 <= t < |units|
      ensures RoundedUnits(units)[t] <= minUnits[t] <= maxUnits[t]
    {
      assert minUnits[t] == adjusted[t];
    }
    if BoundsAllow(c, RoundedUnits(units)) {
      assert maxUnits[..] == old(maxUnits[..]);
    }
  }
}
