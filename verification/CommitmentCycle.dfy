// The rules of a plan around the cycle of hours, from the inputs alone.

module CommitmentCycle {
  import opened Sums
  import opened UnitCommitment
  import opened CommitmentRules

  // ----- The cycle of hours --------------------------------------------------------------------------

  // Hour k, before the first or after the last one, is the hour as far into the cycle.
  ghost function Hour(n: nat, k: int): (h: int)
    requires 0 < n
    ensures 0 <= h < n
    decreases if k < 0 then n - k else k
  {
    if 0 <= k < n then k else if k < 0 then Hour(n, k + n) else Hour(n, k - n)
  }

  ghost function Available(c: Cluster, k: int): int
    requires c.Valid() && 0 < c.horizon
  {
    c.maxUnits[Hour(c.horizon, k)]
  }

  // The units that become unavailable in hour k.
  ghost function Lost(c: Cluster): int -> real
    requires c.Valid() && 0 < c.horizon
  {
    k => if Available(c, k) < Available(c, k - 1) then (Available(c, k - 1) - Available(c, k)) as real else 0.0
  }

  // The variables of hour k: running units, outages, starts and stops.
  ghost function Variable(c: Cluster, x: int -> real, which: int): int -> real
    requires 0 < c.horizon
  {
    k => x(4 * Hour(c.horizon, k) + which)
  }

  // ----- The rules -----------------------------------------------------------------------------------

  // Between the bounds; units run as before, plus starts, less stops; and an outage is a stop.
  ghost predicate ObeysBounds(c: Cluster, minUnits: seq<int>, x: int -> real, t: nat)
    requires c.Valid() && t < c.horizon == |minUnits|
  {
    var units, outages := Variable(c, x, 0), Variable(c, x, 1);
    var starts, stops := Variable(c, x, 2), Variable(c, x, 3);
    && minUnits[t] as real <= units(t) <= c.maxUnits[t] as real
    && 0.0 <= outages(t) <= stops(t) && outages(t) <= Lost(c)(t) && 0.0 <= starts(t)
    && units(t) == units(t - 1) + starts(t) - stops(t)
  }

  // The units stopped in the last hours, other than by outage, were all running before: none stops
  // within its minimum up time.
  ghost predicate KeepsUpTime(minUp: nat, t: int, units: int -> real, stops: int -> real, outages: int -> real) {
    Sum(t - minUp + 1, t + 1, stops) - Sum(t - minUp + 1, t + 1, outages) <= units(t - minUp)
  }

  // The units running before, and those started in the last hours, are all different: they fit in what
  // is available, and what was lost meanwhile.
  ghost predicate KeepsDownTime(minDown: nat, t: int, units: int -> real, starts: int -> real, available: real,
                                lost: int -> real)
  {
    units(t - minDown) + Sum(t - minDown + 1, t + 1, starts) <= available + Sum(t - minDown + 1, t + 1, lost)
  }

  ghost predicate ObeysUpTime(c: Cluster, x: int -> real, t: nat)
    requires c.Valid() && t < c.horizon
  {
    KeepsUpTime(c.minUp, t, Variable(c, x, 0), Variable(c, x, 3), Variable(c, x, 1))
  }

  ghost predicate ObeysDownTime(c: Cluster, x: int -> real, t: nat)
    requires c.Valid() && t < c.horizon
  {
    KeepsDownTime(c.minDown, t, Variable(c, x, 0), Variable(c, x, 2), c.maxUnits[t] as real, Lost(c))
  }

  ghost predicate ObeysHour(c: Cluster, minUnits: seq<int>, x: int -> real, t: nat)
    requires c.Valid() && |minUnits| == c.horizon && t < c.horizon
  {
    ObeysBounds(c, minUnits, x, t) && ObeysUpTime(c, x, t) && ObeysDownTime(c, x, t)
  }

  ghost predicate Obeys(c: Cluster, minUnits: seq<int>, x: int -> real)
    requires c.Valid() && |minUnits| == c.horizon
  {
    forall t :: 0 <= t < c.horizon ==> ObeysHour(c, minUnits, x, t)
  }

  // ----- They are the rules that the program states ------------------------------------------------------

  lemma WrapIsCyclic(c: Cluster, k: int)
    requires c.Valid() && 0 <= k + c.horizon && k < c.horizon
    ensures c.Wrap(k) == Hour(c.horizon, k) && c.MaxAt(k) == Available(c, k)
  {
  }

  lemma LossIsLost(c: Cluster, k: int)
    requires c.Valid() && 0 < k + c.horizon && k < c.horizon
    ensures LossAsReal(c)(k) == Lost(c)(k)
  {
    WrapIsCyclic(c, k);
    WrapIsCyclic(c, k - 1);
  }

  lemma VariablesAreRead(c: Cluster, x: int -> real, k: int)
    requires c.Valid() && 0 <= k + c.horizon && k < c.horizon
    ensures On(c, x)(k) == Variable(c, x, 0)(k) && Outages(c, x)(k) == Variable(c, x, 1)(k)
    ensures Starts(c, x)(k) == Variable(c, x, 2)(k) && Stops(c, x)(k) == Variable(c, x, 3)(k)
  {
    WrapIsCyclic(c, k);
    var h := c.Wrap(k);
    assert OnColumn(h) == 4 * Hour(c.horizon, k) + 0 && OutageColumn(h) == 4 * Hour(c.horizon, k) + 1;
    assert StartColumn(h) == 4 * Hour(c.horizon, k) + 2 && StopColumn(h) == 4 * Hour(c.horizon, k) + 3;
  }

  ghost predicate SameIn(lo: int, hi: int, f: int -> real, g: int -> real) {
    forall k :: lo <= k < hi ==> f(k) == g(k)
  }

  lemma WindowsAreRead(c: Cluster, x: int -> real, lo: int, hi: int)
    requires c.Valid() && 0 < lo + c.horizon && hi <= c.horizon && 0 < c.horizon
    ensures SameIn(lo, hi, Outages(c, x), Variable(c, x, 1)) && SameIn(lo, hi, Starts(c, x), Variable(c, x, 2))
    ensures SameIn(lo, hi, Stops(c, x), Variable(c, x, 3)) && SameIn(lo, hi, LossAsReal(c), Lost(c))
  {
    forall k | lo <= k < hi
      ensures Outages(c, x)(k) == Variable(c, x, 1)(k) && Starts(c, x)(k) == Variable(c, x, 2)(k)
      ensures Stops(c, x)(k) == Variable(c, x, 3)(k) && LossAsReal(c)(k) == Lost(c)(k)
    {
      VariablesAreRead(c, x, k);
      LossIsLost(c, k);
    }
  }

  lemma SameUpTime(minUp: nat, t: int, units: int -> real, stops: int -> real, outages: int -> real,
                   units': int -> real, stops': int -> real, outages': int -> real)
    requires units(t - minUp) == units'(t - minUp)
    requires SameIn(t - minUp + 1, t + 1, stops, stops') && SameIn(t - minUp + 1, t + 1, outages, outages')
    ensures KeepsUpTime(minUp, t, units, stops, outages) <==> KeepsUpTime(minUp, t, units', stops', outages')
  {
    SumExtensional(t - minUp + 1, t + 1, stops, stops');
    SumExtensional(t - minUp + 1, t + 1, outages, outages');
  }

  lemma SameDownTime(minDown: nat, t: int, units: int -> real, starts: int -> real, available: real,
                     lost: int -> real, units': int -> real, starts': int -> real, lost': int -> real)
    requires units(t - minDown) == units'(t - minDown)
    requires SameIn(t - minDown + 1, t + 1, starts, starts') && SameIn(t - minDown + 1, t + 1, lost, lost')
    ensures KeepsDownTime(minDown, t, units, starts, available, lost)
       <==> KeepsDownTime(minDown, t, units', starts', available, lost')
  {
    SumExtensional(t - minDown + 1, t + 1, starts, starts');
    SumExtensional(t - minDown + 1, t + 1, lost, lost');
  }

  lemma BoundsAgree(c: Cluster, minUnits: seq<int>, x: int -> real, t: nat)
    requires c.Valid() && t < c.horizon == |minUnits|
    ensures ObeysBounds(c, minUnits, x, t) <==>
            BoundRules(c, minUnits, x, t) && Balanced(c, x, t) && Outages(c, x)(t) <= Stops(c, x)(t)
  {
    VariablesAreRead(c, x, t);
    VariablesAreRead(c, x, t - 1);
    WrapIsCyclic(c, t);
    LossIsLost(c, t);
  }

  lemma UpTimesAgree(c: Cluster, x: int -> real, t: nat)
    requires c.Valid() && t < c.horizon && AllBalanced(c, x)
    ensures ObeysUpTime(c, x, t) <==> UpTimeKept(c, x, t)
  {
    UpTimeMeans(c, x, t);
    assert UpTimeKept(c, x, t) <==> KeepsUpTime(c.minUp, t, On(c, x), Stops(c, x), Outages(c, x));
    VariablesAreRead(c, x, t - c.minUp);
    WindowsAreRead(c, x, t - c.minUp + 1, t + 1);
    SameUpTime(c.minUp, t, On(c, x), Stops(c, x), Outages(c, x), Variable(c, x, 0), Variable(c, x, 3),
               Variable(c, x, 1));
  }

  lemma DownTimesAgree(c: Cluster, x: int -> real, t: nat)
    requires c.Valid() && t < c.horizon && AllBalanced(c, x)
    ensures ObeysDownTime(c, x, t) <==> DownTimeKept(c, x, t)
  {
    DownTimeMeans(c, x, t);
    var available := c.maxUnits[t] as real;
    assert DownTimeKept(c, x, t) <==> KeepsDownTime(c.minDown, t, On(c, x), Starts(c, x), available, LossAsReal(c));
    VariablesAreRead(c, x, t - c.minDown);
    WindowsAreRead(c, x, t - c.minDown + 1, t + 1);
    SameDownTime(c.minDown, t, On(c, x), Starts(c, x), available, LossAsReal(c), Variable(c, x, 0), Variable(c, x, 2),
                 Lost(c));
  }

  lemma HoursAgree(c: Cluster, minUnits: seq<int>, x: int -> real, t: nat)
    requires c.Valid() && |minUnits| == c.horizon && t < c.horizon && AllBalanced(c, x)
    ensures ObeysHour(c, minUnits, x, t) <==> BoundRules(c, minUnits, x, t) && RowRules(c, x, t)
  {
    BoundsAgree(c, minUnits, x, t);
    UpTimesAgree(c, x, t);
    DownTimesAgree(c, x, t);
  }

  lemma RulesAreObeyed(c: Cluster, minUnits: seq<int>, x: int -> real)
    requires c.Valid() && |minUnits| == c.horizon
    ensures Rules(c, minUnits, x) <==> Obeys(c, minUnits, x)
  {
    if AllBalanced(c, x) {
      forall t | 0 <= t < c.horizon
        ensures ObeysHour(c, minUnits, x, t) <==> BoundRules(c, minUnits, x, t) && RowRules(c, x, t)
      {
        HoursAgree(c, minUnits, x, t);
      }
    } else {
      NotBalanced(c, minUnits, x);
    }
  }

  lemma NotBalanced(c: Cluster, minUnits: seq<int>, x: int -> real)
    requires c.Valid() && |minUnits| == c.horizon && !AllBalanced(c, x)
    ensures !Rules(c, minUnits, x) && !Obeys(c, minUnits, x)
  {
    var t :| 0 <= t < c.horizon && !Balanced(c, x, t);
    BoundsAgree(c, minUnits, x, t);
    assert !RowRules(c, x, t) && !ObeysHour(c, minUnits, x, t);
  }

  // The feasible points of the emitted program are exactly the plans that obey these rules.
  lemma FeasibleExactlyWhenObeyed(lp: Lp, c: Cluster, minUnits: seq<int>, x: int -> real)
    requires c.Valid() && |minUnits| == c.horizon && IsProgramOf(lp, c, minUnits)
    ensures Feasible(lp, x) <==> Obeys(c, minUnits, x)
  {
    FeasibleMeansRules(lp, c, minUnits, x);
    RulesAreObeyed(c, minUnits, x);
  }
}
