// What the auxiliary program means: its feasible points are the plans that keep these rules.

module CommitmentRules {
  import opened Sums
  import opened SparseRows
  import opened UnitCommitment

  // ----- Feasibility of the arrays as a solver reads them ----------------------------------

  ghost predicate WithinBounds(b: Bounds, x: int -> real, v: nat)
    requires v < |b.lower| == |b.upper| == |b.kind|
  {
    b.lower[v] <= x(v) && (b.kind[v].BoundedBothSides? ==> x(v) <= b.upper[v])
  }

  ghost predicate RowSatisfied(lp: Lp, x: int -> real, r: nat) {
    var s := lp.matrix;
    && r < |lp.rhs|
    && r < |s.rowStart| == |s.rowLength| == |s.sense|
    && 0 <= s.rowStart[r] && 0 <= s.rowLength[r]
    && s.rowStart[r] + s.rowLength[r] <= |s.columns| == |s.coefs|
    && Holds(RowAt(s, r).sense, Eval(RowAt(s, r).terms, x), lp.rhs[r])
  }

  ghost predicate Feasible(lp: Lp, x: int -> real)
    requires |lp.bounds.lower| == |lp.bounds.upper| == |lp.bounds.kind|
  {
    && (forall v :: 0 <= v < |lp.bounds.lower| ==> WithinBounds(lp.bounds, x, v))
    && (forall r :: 0 <= r < lp.matrix.constraints ==> RowSatisfied(lp, x, r))
  }

  // ----- The rules of a commitment plan ------------------------------------------------------

  ghost function On(c: Cluster, x: int -> real): int -> real { k => x(OnColumn(c.Wrap(k))) }
  ghost function Outages(c: Cluster, x: int -> real): int -> real { k => x(OutageColumn(c.Wrap(k))) }
  ghost function Starts(c: Cluster, x: int -> real): int -> real { k => x(StartColumn(c.Wrap(k))) }
  ghost function Stops(c: Cluster, x: int -> real): int -> real { k => x(StopColumn(c.Wrap(k))) }
  ghost function StartsLessOutages(c: Cluster, x: int -> real): int -> real {
    k => x(StartColumn(c.Wrap(k))) - x(OutageColumn(c.Wrap(k)))
  }

  ghost predicate BoundRules(c: Cluster, minUnits: seq<int>, x: int -> real, t: nat)
    requires t < |minUnits|
  {
    && minUnits[t] as real <= On(c, x)(t) <= c.MaxAt(t) as real
    && 0.0 <= Outages(c, x)(t) <= c.Loss(t) as real
    && 0.0 <= Starts(c, x)(t) && 0.0 <= Stops(c, x)(t)
  }

  // Units running now are those running before, plus starts, minus stops.
  ghost predicate Balanced(c: Cluster, x: int -> real, t: int) {
    On(c, x)(t) == On(c, x)(t - 1) + Starts(c, x)(t) - Stops(c, x)(t)
  }

  ghost predicate UpTimeKept(c: Cluster, x: int -> real, t: int) {
    On(c, x)(t) >= Sum(t - c.minUp + 1, t + 1, StartsLessOutages(c, x))
  }

  ghost predicate DownTimeKept(c: Cluster, x: int -> real, t: int) {
    On(c, x)(t) + Sum(t - c.minDown + 1, t + 1, Stops(c, x)) <= DownRhs(c, t)
  }

  ghost predicate RowRules(c: Cluster, x: int -> real, t: nat) {
    && Balanced(c, x, t)
    && Outages(c, x)(t) <= Stops(c, x)(t)
    && UpTimeKept(c, x, t)
    && DownTimeKept(c, x, t)
  }

  ghost predicate Rules(c: Cluster, minUnits: seq<int>, x: int -> real)
    requires |minUnits| == c.horizon
  {
    forall t :: 0 <= t < c.horizon ==> BoundRules(c, minUnits, x, t) && RowRules(c, x, t)
  }

  // ----- The arrays encode exactly the rules ------------------------------------------------

  lemma {:induction false} EvalUp(c: Cluster, x: int -> real, t: int, lo: int, hi: int)
    requires lo <= hi
    ensures Eval(UpTerms(c, t, lo, hi), x) == x(OnColumn(t)) - Sum(lo, hi, StartsLessOutages(c, x))
    decreases hi - lo
  {
    if lo == hi {
      EvalAppend([], Term(OnColumn(t), 1.0), x);
      assert [] + [Term(OnColumn(t), 1.0)] == [Term(OnColumn(t), 1.0)];
    } else {
      EvalUp(c, x, t, lo, hi - 1);
      var before := UpTerms(c, t, lo, hi - 1);
      var start := Term(StartColumn(c.Wrap(hi - 1)), -1.0);
      EvalAppend(before, start, x);
      var outage := Term(OutageColumn(c.Wrap(hi - 1)), 1.0);
      EvalAppend(before + [start], outage, x);
      assert UpTerms(c, t, lo, hi) == before + [start] + [outage];
      assert StartsLessOutages(c, x)(hi - 1) == x(start.column) - x(outage.column);
    }
  }

  lemma {:induction false} EvalDown(c: Cluster, x: int -> real, t: int, lo: int, hi: int)
    requires lo <= hi
    ensures Eval(DownTerms(c, t, lo, hi), x) == x(OnColumn(t)) + Sum(lo, hi, Stops(c, x))
    decreases hi - lo
  {
    if lo == hi {
      EvalAppend([], Term(OnColumn(t), 1.0), x);
      assert [] + [Term(OnColumn(t), 1.0)] == [Term(OnColumn(t), 1.0)];
    } else {
      EvalDown(c, x, t, lo, hi - 1);
      var before := DownTerms(c, t, lo, hi - 1);
      var stop := Term(StopColumn(c.Wrap(hi - 1)), 1.0);
      EvalAppend(before, stop, x);
      assert DownTerms(c, t, lo, hi) == before + [stop];
      assert Stops(c, x)(hi - 1) == x(stop.column);
    }
  }

  lemma EvalPair(a: Term, b: Term, x: int -> real)
    ensures Eval([a, b], x) == a.coef * x(a.column) + b.coef * x(b.column)
  {
    assert [] + [a] == [a] && [a] + [b] == [a, b];
    EvalAppend([], a, x);
    EvalAppend([a], b, x);
  }

  lemma EvalBalance(c: Cluster, x: int -> real, t: int)
    ensures Eval(BalanceTerms(c, t), x)
         == x(OnColumn(t)) - x(OnColumn(c.Wrap(t - 1))) - x(StartColumn(t)) + x(StopColumn(t))
  {
    var all := BalanceTerms(c, t);
    EvalPair(all[0], all[1], x);
    EvalAppend([all[0], all[1]], all[2], x);
    EvalAppend([all[0], all[1]] + [all[2]], all[3], x);
    assert [all[0], all[1]] + [all[2]] + [all[3]] == all;
  }

  // Each of the four rows of hour t holds at x exactly when x keeps that rule.
  lemma BalanceRowMeans(c: Cluster, x: int -> real, t: nat)
    ensures Holds('=', Eval(BalanceRow(c, t).terms, x), 0.0) <==> Balanced(c, x, t)
  {
    EvalBalance(c, x, t);
    assert c.Wrap(t) == t;
  }

  lemma OutageRowMeans(c: Cluster, x: int -> real, t: nat)
    ensures Holds('<', Eval(OutageRow(t).terms, x), 0.0) <==> Outages(c, x)(t) <= Stops(c, x)(t)
  {
    EvalPair(OutageTerms(t)[0], OutageTerms(t)[1], x);
    assert c.Wrap(t) == t;
  }

  lemma UpRowMeans(c: Cluster, x: int -> real, t: nat)
    ensures Holds('>', Eval(UpRow(c, t).terms, x), 0.0) <==> UpTimeKept(c, x, t)
  {
    EvalUp(c, x, t, t - c.minUp + 1, t + 1);
    assert c.Wrap(t) == t;
  }

  lemma DownRowMeans(c: Cluster, x: int -> real, t: nat)
    ensures Holds('<', Eval(DownRow(c, t).terms, x), DownRhs(c, t)) <==> DownTimeKept(c, x, t)
  {
    EvalDown(c, x, t, t - c.minDown + 1, t + 1);
    assert c.Wrap(t) == t;
  }

  lemma RowSatisfiedMeans(lp: Lp, rows: seq<Row>, x: int -> real, r: nat)
    requires Holding(lp.matrix, rows, []) && r < |rows| && r < |lp.rhs|
    ensures RowSatisfied(lp, x, r) <==> Holds(rows[r].sense, Eval(rows[r].terms, x), lp.rhs[r])
  {
    RowAtDecodes(lp.matrix, rows, [], r);
  }

  lemma BalanceSatisfied(lp: Lp, c: Cluster, x: int -> real, t: nat)
    requires t < c.horizon && Holding(lp.matrix, AllRows(c, c.horizon), []) && RhsIs(c, lp.rhs, t)
    ensures RowSatisfied(lp, x, 4 * t) <==> Balanced(c, x, t)
  {
    AllRowsAt(c, c.horizon, t);
    RowSatisfiedMeans(lp, AllRows(c, c.horizon), x, 4 * t);
    BalanceRowMeans(c, x, t);
  }

  lemma OutageSatisfied(lp: Lp, c: Cluster, x: int -> real, t: nat)
    requires t < c.horizon && Holding(lp.matrix, AllRows(c, c.horizon), []) && RhsIs(c, lp.rhs, t)
    ensures RowSatisfied(lp, x, 4 * t + 1) <==> Outages(c, x)(t) <= Stops(c, x)(t)
  {
    AllRowsAt(c, c.horizon, t);
    RowSatisfiedMeans(lp, AllRows(c, c.horizon), x, 4 * t + 1);
    OutageRowMeans(c, x, t);
  }

  lemma UpSatisfied(lp: Lp, c: Cluster, x: int -> real, t: nat)
    requires t < c.horizon && Holding(lp.matrix, AllRows(c, c.horizon), []) && RhsIs(c, lp.rhs, t)
    ensures RowSatisfied(lp, x, 4 * t + 2) <==> UpTimeKept(c, x, t)
  {
    AllRowsAt(c, c.horizon, t);
    RowSatisfiedMeans(lp, AllRows(c, c.horizon), x, 4 * t + 2);
    UpRowMeans(c, x, t);
  }

  lemma DownSatisfied(lp: Lp, c: Cluster, x: int -> real, t: nat)
    requires t < c.horizon && Holding(lp.matrix, AllRows(c, c.horizon), []) && RhsIs(c, lp.rhs, t)
    ensures RowSatisfied(lp, x, 4 * t + 3) <==> DownTimeKept(c, x, t)
  {
    AllRowsAt(c, c.horizon, t);
    RowSatisfiedMeans(lp, AllRows(c, c.horizon), x, 4 * t + 3);
    DownRowMeans(c, x, t);
  }

  ghost predicate HourRowsSatisfied(lp: Lp, x: int -> real, t: nat) {
    && RowSatisfied(lp, x, 4 * t) && RowSatisfied(lp, x, 4 * t + 1)
    && RowSatisfied(lp, x, 4 * t + 2) && RowSatisfied(lp, x, 4 * t + 3)
  }

  lemma HourSatisfied(lp: Lp, c: Cluster, minUnits: seq<int>, x: int -> real, t: nat)
    requires c.Valid() && |minUnits| == c.horizon && t < c.horizon
    requires IsProgramOf(lp, c, minUnits)
    ensures RowRules(c, x, t) <==> HourRowsSatisfied(lp, x, t)
  {
    BalanceSatisfied(lp, c, x, t);
    OutageSatisfied(lp, c, x, t);
    UpSatisfied(lp, c, x, t);
    DownSatisfied(lp, c, x, t);
  }

  ghost predicate HourColumnsWithin(b: Bounds, x: int -> real, t: nat)
    requires 4 * t + 3 < |b.lower| == |b.upper| == |b.kind|
  {
    && WithinBounds(b, x, 4 * t) && WithinBounds(b, x, 4 * t + 1)
    && WithinBounds(b, x, 4 * t + 2) && WithinBounds(b, x, 4 * t + 3)
  }

  lemma HourWithinBounds(lp: Lp, c: Cluster, minUnits: seq<int>, x: int -> real, t: nat)
    requires c.Valid() && |minUnits| == c.horizon && t < c.horizon
    requires IsProgramOf(lp, c, minUnits)
    ensures 4 * t + 3 < |lp.bounds.lower| == |lp.bounds.upper| == |lp.bounds.kind|
    ensures BoundRules(c, minUnits, x, t) <==> HourColumnsWithin(lp.bounds, x, t)
  {
    assert HourBounded(lp.bounds, c, minUnits, t, c.Loss(t));
  }

  lemma FeasibleKeepsRules(lp: Lp, c: Cluster, minUnits: seq<int>, x: int -> real)
    requires c.Valid() && |minUnits| == c.horizon
    requires IsProgramOf(lp, c, minUnits) && Feasible(lp, x)
    ensures Rules(c, minUnits, x)
  {
    if c.horizon > 0 {
      AllRowsAt(c, c.horizon, 0);
    }
    forall t | 0 <= t < c.horizon
      ensures BoundRules(c, minUnits, x, t) && RowRules(c, x, t)
    {
      HourSatisfied(lp, c, minUnits, x, t);
      HourWithinBounds(lp, c, minUnits, x, t);
    }
  }

  // Four by four, that makes all the rows and all the columns.
  lemma AllRowsSatisfied(lp: Lp, x: int -> real, hours: nat)
    requires forall t :: 0 <= t < hours ==> HourRowsSatisfied(lp, x, t)
    ensures forall r :: 0 <= r < 4 * hours ==> RowSatisfied(lp, x, r)
  {
    forall r | 0 <= r < 4 * hours
      ensures RowSatisfied(lp, x, r)
    {
      var t := r / 4;
      assert HourRowsSatisfied(lp, x, t);
      assert r == 4 * t || r == 4 * t + 1 || r == 4 * t + 2 || r == 4 * t + 3;
    }
  }

  lemma AllColumnsWithin(b: Bounds, x: int -> real, hours: nat)
    requires 4 * hours == |b.lower| == |b.upper| == |b.kind|
    requires forall t :: 0 <= t < hours ==> HourColumnsWithin(b, x, t)
    ensures forall v :: 0 <= v < |b.lower| ==> WithinBounds(b, x, v)
  {
    forall v | 0 <= v < |b.lower|
      ensures WithinBounds(b, x, v)
    {
      var t := v / 4;
      assert HourColumnsWithin(b, x, t);
      assert v == 4 * t || v == 4 * t + 1 || v == 4 * t + 2 || v == 4 * t + 3;
    }
  }

  lemma RulesAreFeasible(lp: Lp, c: Cluster, minUnits: seq<int>, x: int -> real)
    requires c.Valid() && |minUnits| == c.horizon
    requires IsProgramOf(lp, c, minUnits) && Rules(c, minUnits, x)
    ensures Feasible(lp, x)
  {
    forall t | 0 <= t < c.horizon
      ensures HourRowsSatisfied(lp, x, t) && HourColumnsWithin(lp.bounds, x, t)
    {
      assert BoundRules(c, minUnits, x, t) && RowRules(c, x, t);
      HourSatisfied(lp, c, minUnits, x, t);
      HourWithinBounds(lp, c, minUnits, x, t);
    }
    if c.horizon > 0 {
      AllRowsAt(c, c.horizon, 0);
    }
    AllRowsSatisfied(lp, x, c.horizon);
    AllColumnsWithin(lp.bounds, x, c.horizon);
  }

  // The feasible points of the emitted program are exactly the plans that keep the rules.
  lemma FeasibleMeansRules(lp: Lp, c: Cluster, minUnits: seq<int>, x: int -> real)
    requires c.Valid() && |minUnits| == c.horizon
    requires IsProgramOf(lp, c, minUnits)
    ensures Feasible(lp, x) <==> Rules(c, minUnits, x)
  {
    if Feasible(lp, x) {
      FeasibleKeepsRules(lp, c, minUnits, x);
    } else if Rules(c, minUnits, x) {
      RulesAreFeasible(lp, c, minUnits, x);
    }
  }

  // ----- What the duration rules say about a balanced plan ------------------------------------

  ghost predicate AllBalanced(c: Cluster, x: int -> real) {
    forall t :: 0 <= t < c.horizon ==> Balanced(c, x, t)
  }

  lemma BalancedInWindow(c: Cluster, x: int -> real, k: int)
    requires AllBalanced(c, x) && 0 < k + c.horizon && k < c.horizon
    ensures Balanced(c, x, k)
  {
    assert Balanced(c, x, c.Wrap(k));
    assert c.Wrap(c.Wrap(k)) == c.Wrap(k) && c.Wrap(c.Wrap(k) - 1) == c.Wrap(k - 1);
  }

  // Over any window of at most a whole horizon, running units change by starts less stops.
  lemma {:induction false} WindowBalance(c: Cluster, x: int -> real, lo: int, hi: int)
    requires AllBalanced(c, x) && 0 <= lo + c.horizon && lo <= hi < c.horizon
    ensures On(c, x)(hi) == On(c, x)(lo) + Sum(lo + 1, hi + 1, Starts(c, x)) - Sum(lo + 1, hi + 1, Stops(c, x))
    decreases hi - lo
  {
    if lo < hi {
      WindowBalance(c, x, lo, hi - 1);
      BalancedInWindow(c, x, hi);
    }
  }

  lemma StartsLessOutagesSum(c: Cluster, x: int -> real, lo: int, hi: int)
    ensures Sum(lo, hi, StartsLessOutages(c, x)) == Sum(lo, hi, Starts(c, x)) - Sum(lo, hi, Outages(c, x))
  {
    SumLinear(lo, hi, Starts(c, x), -1.0, Outages(c, x), StartsLessOutages(c, x));
  }

  // Minimum up time: the units stopped during the window for another reason than an outage
  // were all running when the window opened.
  lemma UpTimeMeans(c: Cluster, x: int -> real, t: int)
    requires c.Valid() && 0 <= t < c.horizon && AllBalanced(c, x)
    ensures UpTimeKept(c, x, t) <==>
            Sum(t - c.minUp + 1, t + 1, Stops(c, x)) - Sum(t - c.minUp + 1, t + 1, Outages(c, x))
            <= On(c, x)(t - c.minUp)
  {
    WindowBalance(c, x, t - c.minUp, t);
    StartsLessOutagesSum(c, x, t - c.minUp + 1, t + 1);
  }

  ghost function LossAsReal(c: Cluster): int -> real { k => c.Loss(k) as real }

  // What becomes available or unavailable in an hour is the difference to the hour before.
  lemma GainAndLoss(c: Cluster, k: int)
    ensures c.MaxAt(k) == c.MaxAt(k - 1) + c.Gain(k) - c.Loss(k)
    ensures 0 <= c.Gain(k) && 0 <= c.Loss(k) && (c.Gain(k) == 0 || c.Loss(k) == 0)
  {
  }

  lemma {:induction false} AvailableOverWindow(c: Cluster, lo: int, hi: int)
    requires lo <= hi
    ensures c.MaxAt(hi) as real
         == c.MaxAt(lo) as real + Sum(lo + 1, hi + 1, GainAsReal(c)) - Sum(lo + 1, hi + 1, LossAsReal(c))
    decreases hi - lo
  {
    if lo < hi {
      AvailableOverWindow(c, lo, hi - 1);
      GainAndLoss(c, hi);
    }
  }

  // The right-hand side of the minimum down time row: the units available at the hour, and those lost
  // during the window.
  lemma DownRhsIs(c: Cluster, t: int)
    requires c.Valid() && 0 <= t < c.horizon
    ensures DownRhs(c, t) == c.MaxAt(t) as real + Sum(t - c.minDown + 1, t + 1, LossAsReal(c))
  {
    AvailableOverWindow(c, t - c.minDown, t);
  }

  // Minimum down time: the units running when the window opened and those started during it
  // fit in what is available now plus what was lost since.
  lemma DownTimeMeans(c: Cluster, x: int -> real, t: int)
    requires c.Valid() && 0 <= t < c.horizon && AllBalanced(c, x)
    ensures DownTimeKept(c, x, t) <==>
            On(c, x)(t - c.minDown) + Sum(t - c.minDown + 1, t + 1, Starts(c, x))
            <= c.MaxAt(t) as real + Sum(t - c.minDown + 1, t + 1, LossAsReal(c))
  {
    WindowBalance(c, x, t - c.minDown, t);
    DownRhsIs(c, t);
  }

  // ----- When the program has a solution -------------------------------------------------------

  // Run every available unit: start what becomes available, lose what becomes unavailable.
  ghost function MaximalPlan(c: Cluster): int -> real {
    v => if v % 4 == 0 then c.MaxAt(v / 4) as real
         else if v % 4 == 2 then c.Gain(v / 4) as real
         else c.Loss(v / 4) as real
  }

  lemma MaximalPlanAt(c: Cluster, k: int)
    requires c.Valid() && 0 < k + c.horizon && k < c.horizon
    ensures On(c, MaximalPlan(c))(k) == c.MaxAt(k) as real
    ensures Starts(c, MaximalPlan(c))(k) == c.Gain(k) as real
    ensures Stops(c, MaximalPlan(c))(k) == Outages(c, MaximalPlan(c))(k) == c.Loss(k) as real
  {
    var h := c.Wrap(k);
    assert OnColumn(h) / 4 == h && OutageColumn(h) / 4 == h && StartColumn(h) / 4 == h && StopColumn(h) / 4 == h;
    assert c.MaxAt(h) == c.MaxAt(k) && c.MaxAt(h - 1) == c.MaxAt(k - 1);
    assert c.Gain(h) == c.Gain(k) && c.Loss(h) == c.Loss(k);
  }

  lemma MaximalPlanAtOpening(c: Cluster, k: int)
    requires c.Valid() && 0 <= k + c.horizon && k < c.horizon
    ensures On(c, MaximalPlan(c))(k) == c.MaxAt(k) as real
  {
    var h := c.Wrap(k);
    assert OnColumn(h) / 4 == h;
    assert c.MaxAt(h) == c.MaxAt(k);
  }

  lemma MaximalPlanBalanced(c: Cluster)
    requires c.Valid()
    ensures AllBalanced(c, MaximalPlan(c))
  {
    forall t | 0 <= t < c.horizon
      ensures Balanced(c, MaximalPlan(c), t)
    {
      MaximalPlanAt(c, t);
      MaximalPlanAtOpening(c, t - 1);
      assert c.MaxAt(t) == c.MaxAt(t - 1) + c.Gain(t) - c.Loss(t);
    }
  }

  lemma MaximalGains(c: Cluster, t: int)
    requires c.Valid() && 0 <= t < c.horizon
    ensures Sum(t - c.minDown + 1, t + 1, Starts(c, MaximalPlan(c)))
         == Sum(t - c.minDown + 1, t + 1, GainAsReal(c))
  {
    forall k | t - c.minDown + 1 <= k < t + 1
      ensures Starts(c, MaximalPlan(c))(k) == GainAsReal(c)(k)
    {
      MaximalPlanAt(c, k);
    }
    SumExtensional(t - c.minDown + 1, t + 1, Starts(c, MaximalPlan(c)), GainAsReal(c));
  }

  lemma MaximalStopsAreOutages(c: Cluster, lo: int, hi: int)
    requires c.Valid() && 0 < lo + c.horizon && hi <= c.horizon
    ensures Sum(lo, hi, Stops(c, MaximalPlan(c))) == Sum(lo, hi, Outages(c, MaximalPlan(c)))
  {
    var x := MaximalPlan(c);
    forall k | lo <= k < hi
      ensures Stops(c, x)(k) == Outages(c, x)(k)
    {
      MaximalPlanAt(c, k);
    }
    SumExtensional(lo, hi, Stops(c, x), Outages(c, x));
  }

  lemma MaximalPlanKeepsUpTime(c: Cluster, t: nat)
    requires c.Valid() && t < c.horizon
    requires 0 <= c.MaxAt(t - c.minUp)
    ensures UpTimeKept(c, MaximalPlan(c), t)
  {
    MaximalPlanBalanced(c);
    MaximalStopsAreOutages(c, t - c.minUp + 1, t + 1);
    MaximalPlanAtOpening(c, t - c.minUp);
    UpTimeMeans(c, MaximalPlan(c), t);
  }

  lemma MaximalPlanKeepsDownTime(c: Cluster, t: nat)
    requires c.Valid() && t < c.horizon
    ensures DownTimeKept(c, MaximalPlan(c), t)
  {
    MaximalPlanBalanced(c);
    MaximalGains(c, t);
    MaximalPlanAtOpening(c, t - c.minDown);
    DownTimeMeans(c, MaximalPlan(c), t);
    AvailableOverWindow(c, t - c.minDown, t);
  }

  lemma MaximalPlanKeepsRows(c: Cluster, t: nat)
    requires c.Valid() && t < c.horizon
    requires forall h :: 0 <= h < c.horizon ==> 0 <= c.maxUnits[h]
    ensures RowRules(c, MaximalPlan(c), t)
  {
    MaximalPlanBalanced(c);
    MaximalPlanAt(c, t);
    MaximalPlanKeepsUpTime(c, t);
    MaximalPlanKeepsDownTime(c, t);
  }

  // The right-hand side of the minimum down time row never cuts below what is available.
  lemma DownRhsCoversAvailable(c: Cluster, t: nat)
    requires c.Valid() && t < c.horizon
    ensures DownRhs(c, t) >= c.MaxAt(t) as real
  {
    var x, lo, hi := MaximalPlan(c), t - c.minDown + 1, t + 1;
    MaximalPlanBalanced(c);
    WindowBalance(c, x, t - c.minDown, t);
    MaximalGains(c, t);
    MaximalPlanAtOpening(c, t - c.minDown);
    MaximalPlanAtOpening(c, t);
    var none := k => 0.0;
    forall k | lo <= k < hi
      ensures none(k) <= Stops(c, x)(k)
    {
      MaximalPlanAt(c, k);
    }
    SumMonotone(lo, hi, none, Stops(c, x));
    SumZero(lo, hi, none);
  }

  ghost predicate BoundsAllow(c: Cluster, minUnits: seq<int>)
    requires |minUnits| == |c.maxUnits|
  {
    forall t :: 0 <= t < |minUnits| ==> minUnits[t] <= c.maxUnits[t] && 0 <= c.maxUnits[t]
  }

  lemma MaximalPlanKeepsRules(c: Cluster, minUnits: seq<int>)
    requires c.Valid() && |minUnits| == c.horizon && BoundsAllow(c, minUnits)
    ensures Rules(c, minUnits, MaximalPlan(c))
  {
    forall t | 0 <= t < c.horizon
      ensures BoundRules(c, minUnits, MaximalPlan(c), t) && RowRules(c, MaximalPlan(c), t)
    {
      MaximalPlanAt(c, t);
      assert c.MaxAt(t) == c.maxUnits[t];
      MaximalPlanKeepsRows(c, t);
    }
  }

  // A plan never runs a negative number of units: the minimum up time row of the hour whose
  // window opens at t says so.
  lemma PlanIsNonNegative(c: Cluster, minUnits: seq<int>, x: int -> real, t: nat)
    requires c.Valid() && |minUnits| == c.horizon && t < c.horizon
    requires Rules(c, minUnits, x)
    ensures 0.0 <= On(c, x)(t)
  {
    var end := if t + c.minUp < c.horizon then t + c.minUp else t + c.minUp - c.horizon;
    var lo, hi := end - c.minUp + 1, end + 1;
    assert AllBalanced(c, x) by {
      forall h | 0 <= h < c.horizon
        ensures Balanced(c, x, h)
      {
        assert RowRules(c, x, h);
      }
    }
    assert RowRules(c, x, end);
    UpTimeMeans(c, x, end);
    forall k | lo <= k < hi
      ensures Outages(c, x)(k) <= Stops(c, x)(k)
    {
      assert RowRules(c, x, c.Wrap(k));
      assert c.Wrap(c.Wrap(k)) == c.Wrap(k);
    }
    SumMonotone(lo, hi, Outages(c, x), Stops(c, x));
    assert c.Wrap(end - c.minUp) == t == c.Wrap(t);
  }

  // The program has a feasible point exactly when no minimum exceeds its maximum and no
  // maximum is negative, whatever the minimum up and down times.
  lemma FeasibleExactlyWhenBoundsAllow(lp: Lp, c: Cluster, minUnits: seq<int>)
    requires c.Valid() && |minUnits| == c.horizon
    requires IsProgramOf(lp, c, minUnits)
    ensures (exists x :: Feasible(lp, x)) <==> BoundsAllow(c, minUnits)
  {
    if BoundsAllow(c, minUnits) {
      MaximalPlanKeepsRules(c, minUnits);
      FeasibleMeansRules(lp, c, minUnits, MaximalPlan(c));
    }
    if x :| Feasible(lp, x) {
      FeasibleMeansRules(lp, c, minUnits, x);
      forall t | 0 <= t < |minUnits|
        ensures minUnits[t] <= c.maxUnits[t] && 0 <= c.maxUnits[t]
      {
        assert BoundRules(c, minUnits, x, t);
        PlanIsNonNegative(c, minUnits, x, t);
        assert c.MaxAt(t) == c.maxUnits[t];
      }
    }
  }
}
