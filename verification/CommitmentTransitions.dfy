// The transitions read off a sequence of running units, and the test of the durations on them.

module CommitmentTransitions {
  import opened Sums
  import opened UnitCommitment
  import opened CommitmentRules

  // ----- Starts, stops and outages that explain a sequence of units ----------------------------

  ghost function UnitsAt(c: Cluster, units: seq<int>, k: int): int {
    if 0 <= c.Wrap(k) < |units| then units[c.Wrap(k)] else 0
  }

  ghost function StartAt(c: Cluster, units: seq<int>, k: int): int {
    if UnitsAt(c, units, k) > UnitsAt(c, units, k - 1) then UnitsAt(c, units, k) - UnitsAt(c, units, k - 1) else 0
  }

  ghost function StopAt(c: Cluster, units: seq<int>, k: int): int {
    if UnitsAt(c, units, k - 1) > UnitsAt(c, units, k) then UnitsAt(c, units, k - 1) - UnitsAt(c, units, k) else 0
  }

  ghost function OutageAt(c: Cluster, units: seq<int>, k: int): int {
    if c.Loss(k) < StopAt(c, units, k) then c.Loss(k) else StopAt(c, units, k)
  }

  // The starts and stops that turn the units of the previous hour into those of this one,
  // with as many of the stops as possible charged to units becoming unavailable.
  ghost predicate Transition(c: Cluster, units: seq<int>, t: nat, start: int, stop: int, outage: int)
    requires t < c.horizon == |units|
  {
    && start >= 0 && stop >= 0 && (start == 0 || stop == 0)
    && units[t] == units[c.Wrap(t - 1)] + start - stop
    && outage == if c.Loss(t) < stop then c.Loss(t) else stop
  }

  method DeriveTransitions(c: Cluster, units: seq<int>, starts: array<int>, stops: array<int>, outages: array<int>)
    requires c.Valid() && |units| == c.horizon
    requires starts.Length == stops.Length == outages.Length == c.horizon
    requires starts != stops && starts != outages && stops != outages
    modifies starts, stops, outages
    ensures forall t :: 0 <= t < c.horizon ==> Transition(c, units, t, starts[t], stops[t], outages[t])
  {
    for t := 0 to c.horizon
      invariant forall h :: 0 <= h < t ==> Transition(c, units, h, starts[h], stops[h], outages[h])
    {
      var previous := t - 1;
      if previous < 0 {
        previous := c.horizon + previous;
      }
      if units[t] - units[previous] < 0 {
        starts[t] := 0;
        stops[t] := units[previous] - units[t];
        outages[t] := 0;
        if c.maxUnits[t] < c.maxUnits[previous] {
          if c.maxUnits[previous] - c.maxUnits[t] < stops[t] {
            outages[t] := c.maxUnits[previous] - c.maxUnits[t];
          } else {
            outages[t] := stops[t];
          }
        }
      } else if units[t] - units[previous] > 0 {
        starts[t] := units[t] - units[previous];
        stops[t] := 0;
        outages[t] := 0;
      } else {
        starts[t] := 0;
        stops[t] := 0;
        outages[t] := 0;
      }
      assert c.Wrap(t - 1) == previous;
    }
  }

  // There is only one such transition.
  lemma TransitionIsUnique(c: Cluster, units: seq<int>, t: nat, start: int, stop: int, outage: int)
    requires c.Valid() && t < c.horizon == |units|
    ensures Transition(c, units, t, start, stop, outage) <==>
            start == StartAt(c, units, t) && stop == StopAt(c, units, t) && outage == OutageAt(c, units, t)
  {
    assert c.Wrap(t) == t && UnitsAt(c, units, t) == units[t];
    assert UnitsAt(c, units, t - 1) == units[c.Wrap(t - 1)];
  }

  // ----- The plan they make --------------------------------------------------------------------

  ghost function DerivedPlan(c: Cluster, units: seq<int>): int -> real {
    v => if v % 4 == 0 then UnitsAt(c, units, v / 4) as real
         else if v % 4 == 1 then OutageAt(c, units, v / 4) as real
         else if v % 4 == 2 then StartAt(c, units, v / 4) as real
         else StopAt(c, units, v / 4) as real
  }

  lemma WrappedUnits(c: Cluster, units: seq<int>, k: int)
    requires c.Valid() && |units| == c.horizon && 0 < k + c.horizon && k < c.horizon
    ensures var h := c.Wrap(k);
      && 0 <= h < c.horizon && UnitsAt(c, units, h) == UnitsAt(c, units, k)
      && StartAt(c, units, h) == StartAt(c, units, k) && StopAt(c, units, h) == StopAt(c, units, k)
      && OutageAt(c, units, h) == OutageAt(c, units, k)
  {
    var h := c.Wrap(k);
    assert UnitsAt(c, units, h) == UnitsAt(c, units, k) && UnitsAt(c, units, h - 1) == UnitsAt(c, units, k - 1);
    assert c.MaxAt(h) == c.MaxAt(k) && c.MaxAt(h - 1) == c.MaxAt(k - 1);
    assert c.Loss(h) == c.Loss(k);
  }

  lemma DerivedPlanAt(c: Cluster, units: seq<int>, k: int)
    requires c.Valid() && |units| == c.horizon && 0 < k + c.horizon && k < c.horizon
    ensures On(c, DerivedPlan(c, units))(k) == UnitsAt(c, units, k) as real
    ensures Starts(c, DerivedPlan(c, units))(k) == StartAt(c, units, k) as real
    ensures Stops(c, DerivedPlan(c, units))(k) == StopAt(c, units, k) as real
    ensures Outages(c, DerivedPlan(c, units))(k) == OutageAt(c, units, k) as real
  {
    var h := c.Wrap(k);
    WrappedUnits(c, units, k);
    assert OnColumn(h) / 4 == h && OutageColumn(h) / 4 == h && StartColumn(h) / 4 == h && StopColumn(h) / 4 == h;
  }

  lemma DerivedUnitsAt(c: Cluster, units: seq<int>, k: int)
    requires c.Valid() && |units| == c.horizon && 0 <= k + c.horizon && k < c.horizon
    ensures On(c, DerivedPlan(c, units))(k) == UnitsAt(c, units, k) as real
  {
    var h := c.Wrap(k);
    assert OnColumn(h) / 4 == h;
    assert UnitsAt(c, units, h) == UnitsAt(c, units, k);
  }

  // ----- No plan with these units does better --------------------------------------------------

  // x runs these units.
  ghost predicate Runs(c: Cluster, x: int -> real, units: seq<int>)
    requires |units| == c.horizon
  {
    forall t :: 0 <= t < c.horizon ==> On(c, x)(t) == units[t] as real
  }

  lemma RunsWrapped(c: Cluster, x: int -> real, units: seq<int>, k: int)
    requires c.Valid() && |units| == c.horizon && Runs(c, x, units) && 0 <= k + c.horizon && k < c.horizon
    ensures On(c, x)(k) == UnitsAt(c, units, k) as real
  {
    var h := c.Wrap(k);
    assert On(c, x)(h) == units[h] as real;
    assert c.Wrap(h) == h;
  }

  // In each hour, the derived transition has the fewest stops, and the fewest starts beyond outages.
  lemma DerivedIsLeastAt(c: Cluster, minUnits: seq<int>, units: seq<int>, x: int -> real, k: int)
    requires c.Valid() && |units| == |minUnits| == c.horizon && 0 < k + c.horizon && k < c.horizon
    requires Runs(c, x, units) && Rules(c, minUnits, x)
    ensures Stops(c, DerivedPlan(c, units))(k) <= Stops(c, x)(k)
    ensures StartsLessOutages(c, DerivedPlan(c, units))(k) <= StartsLessOutages(c, x)(k)
  {
    var h := c.Wrap(k);
    DerivedPlanAt(c, units, k);
    RunsWrapped(c, x, units, k);
    RunsWrapped(c, x, units, k - 1);
    assert BoundRules(c, minUnits, x, h) && RowRules(c, x, h);
    assert c.Wrap(h) == h && c.Wrap(h - 1) == c.Wrap(k - 1);
    assert c.MaxAt(h) == c.MaxAt(k) && c.MaxAt(h - 1) == c.MaxAt(k - 1);
    var d := DerivedPlan(c, units);
    assert StartsLessOutages(c, d)(k) == Starts(c, d)(k) - Outages(c, d)(k);
    assert StartsLessOutages(c, x)(k) == Starts(c, x)(k) - Outages(c, x)(k);
  }

  // y runs the units of x, with no more stops and no more starts beyond outages.
  ghost predicate Lighter(c: Cluster, x: int -> real, y: int -> real) {
    && (forall t :: 0 <= t < c.horizon ==> On(c, y)(t) == On(c, x)(t))
    && (forall k :: 0 < k + c.horizon && k < c.horizon ==> Stops(c, y)(k) <= Stops(c, x)(k))
    && (forall k :: 0 < k + c.horizon && k < c.horizon ==> StartsLessOutages(c, y)(k) <= StartsLessOutages(c, x)(k))
  }

  lemma DerivedIsLighter(c: Cluster, minUnits: seq<int>, units: seq<int>, x: int -> real)
    requires c.Valid() && |units| == |minUnits| == c.horizon && Runs(c, x, units) && Rules(c, minUnits, x)
    ensures Lighter(c, x, DerivedPlan(c, units))
  {
    var d := DerivedPlan(c, units);
    forall t | 0 <= t < c.horizon
      ensures On(c, d)(t) == On(c, x)(t)
    {
      DerivedUnitsAt(c, units, t);
      RunsWrapped(c, x, units, t);
    }
    forall k | 0 < k + c.horizon && k < c.horizon
      ensures Stops(c, d)(k) <= Stops(c, x)(k)
      ensures StartsLessOutages(c, d)(k) <= StartsLessOutages(c, x)(k)
    {
      DerivedIsLeastAt(c, minUnits, units, x, k);
    }
  }

  lemma LighterKeepsUpTime(c: Cluster, x: int -> real, y: int -> real, t: nat)
    requires c.Valid() && t < c.horizon && Lighter(c, x, y) && UpTimeKept(c, x, t)
    ensures UpTimeKept(c, y, t)
  {
    SumMonotone(t - c.minUp + 1, t + 1, StartsLessOutages(c, y), StartsLessOutages(c, x));
  }

  lemma LighterKeepsDownTime(c: Cluster, x: int -> real, y: int -> real, t: nat)
    requires c.Valid() && t < c.horizon && Lighter(c, x, y) && DownTimeKept(c, x, t)
    ensures DownTimeKept(c, y, t)
  {
    SumMonotone(t - c.minDown + 1, t + 1, Stops(c, y), Stops(c, x));
  }

  // Whatever the units, the derived plan balances, and explains no more outages than it may.
  lemma DerivedPlanBalances(c: Cluster, units: seq<int>, t: nat)
    requires c.Valid() && |units| == c.horizon && t < c.horizon
    ensures Balanced(c, DerivedPlan(c, units), t)
    ensures var d := DerivedPlan(c, units);
      && 0.0 <= Outages(c, d)(t) <= Stops(c, d)(t) && Outages(c, d)(t) <= c.Loss(t) as real && 0.0 <= Starts(c, d)(t)
  {
    DerivedPlanAt(c, units, t);
    DerivedUnitsAt(c, units, t - 1);
  }

  lemma DerivedKeepsBounds(c: Cluster, minUnits: seq<int>, units: seq<int>, x: int -> real, t: nat)
    requires c.Valid() && |units| == |minUnits| == c.horizon && t < c.horizon
    requires Runs(c, x, units) && BoundRules(c, minUnits, x, t)
    ensures BoundRules(c, minUnits, DerivedPlan(c, units), t)
  {
    DerivedPlanBalances(c, units, t);
    DerivedPlanAt(c, units, t);
    RunsWrapped(c, x, units, t);
  }

  // So if any plan with these units keeps the rules, the derived one does.
  lemma DerivedKeepsRulesOfAny(c: Cluster, minUnits: seq<int>, units: seq<int>, x: int -> real)
    requires c.Valid() && |units| == |minUnits| == c.horizon && Runs(c, x, units) && Rules(c, minUnits, x)
    ensures Rules(c, minUnits, DerivedPlan(c, units))
  {
    DerivedIsLighter(c, minUnits, units, x);
    forall t | 0 <= t < c.horizon
      ensures BoundRules(c, minUnits, DerivedPlan(c, units), t) && RowRules(c, DerivedPlan(c, units), t)
    {
      assert BoundRules(c, minUnits, x, t) && RowRules(c, x, t);
      DerivedKeepsBounds(c, minUnits, units, x, t);
      DerivedPlanBalances(c, units, t);
      LighterKeepsUpTime(c, x, DerivedPlan(c, units), t);
      LighterKeepsDownTime(c, x, DerivedPlan(c, units), t);
    }
  }

  // ----- The test --------------------------------------------------------------------------------

  ghost function NetStartAt(c: Cluster, units: seq<int>): int -> real {
    k => (StartAt(c, units, k) - OutageAt(c, units, k)) as real
  }

  ghost function StopAsReal(c: Cluster, units: seq<int>): int -> real {
    k => StopAt(c, units, k) as real
  }

  // What the code looks at in an hour: the starts of the up time window beyond its outages, when
  // there is a minimum up time, and the room that the stops leave in the down time window.
  ghost predicate UpTest(c: Cluster, units: seq<int>, t: int) {
    UnitsAt(c, units, t) as real >= Sum(t - c.minUp + 1, t + 1, NetStartAt(c, units))
  }

  ghost predicate DownTest(c: Cluster, units: seq<int>, t: int) {
    UnitsAt(c, units, t) as real <= DownRhs(c, t) - Sum(t - c.minDown + 1, t + 1, StopAsReal(c, units))
  }

  ghost predicate HourPasses(c: Cluster, units: seq<int>, t: int) {
    (c.minUp > 0 ==> UpTest(c, units, t)) && DownTest(c, units, t)
  }

  ghost predicate PassesTest(c: Cluster, units: seq<int>) {
    forall t :: 0 <= t < c.horizon ==> HourPasses(c, units, t)
  }

  ghost predicate AllTransitions(c: Cluster, units: seq<int>, starts: seq<int>, stops: seq<int>, outages: seq<int>)
    requires |units| == c.horizon
  {
    && |starts| == |stops| == |outages| == c.horizon
    && forall t :: 0 <= t < c.horizon ==> Transition(c, units, t, starts[t], stops[t], outages[t])
  }

  lemma TransitionsAreDerived(c: Cluster, units: seq<int>, starts: seq<int>, stops: seq<int>, outages: seq<int>, k: int)
    requires c.Valid() && |units| == c.horizon && AllTransitions(c, units, starts, stops, outages)
    requires 0 < k + c.horizon && k < c.horizon
    ensures var h := c.Wrap(k);
      && 0 <= h < c.horizon && StopAt(c, units, k) == stops[h]
      && StartAt(c, units, k) == starts[h] && OutageAt(c, units, k) == outages[h]
  {
    var h := c.Wrap(k);
    WrappedUnits(c, units, k);
    assert Transition(c, units, h, starts[h], stops[h], outages[h]);
    TransitionIsUnique(c, units, h, starts[h], stops[h], outages[h]);
  }

  // The starts beyond outages of an hour of the window, which may begin before hour 0.
  method StartsBeyondOutages(c: Cluster, units: seq<int>, starts: seq<int>, stops: seq<int>, outages: seq<int>, k: int)
    returns (r: real)
    requires c.Valid() && |units| == c.horizon && AllTransitions(c, units, starts, stops, outages)
    requires 0 < k + c.horizon && k < c.horizon
    ensures r == NetStartAt(c, units)(k)
  {
    TransitionsAreDerived(c, units, starts, stops, outages, k);
    var hour := k;
    if k < 0 {
      hour := c.horizon + k;
    }
    r := (starts[hour] - outages[hour]) as real;
  }

  // What becomes available in an hour of the window, less what stops.
  method GainLessStops(c: Cluster, units: seq<int>, starts: seq<int>, stops: seq<int>, outages: seq<int>, k: int)
    returns (r: real)
    requires c.Valid() && |units| == c.horizon && AllTransitions(c, units, starts, stops, outages)
    requires 0 < k + c.horizon && k < c.horizon
    ensures r == GainAsReal(c)(k) - StopAsReal(c, units)(k)
  {
    TransitionsAreDerived(c, units, starts, stops, outages, k);
    var hour := k;
    if hour < 0 {
      hour := c.horizon + hour;
    }
    var previous := hour - 1;
    if previous < 0 {
      previous := c.horizon + previous;
    }
    r := 0.0;
    if c.maxUnits[hour] - c.maxUnits[previous] > 0 {
      r := r + (c.maxUnits[hour] - c.maxUnits[previous]) as real;
    }
    r := r - stops[hour] as real;
    assert c.MaxAt(k) == c.maxUnits[hour] && c.MaxAt(k - 1) == c.maxUnits[previous];
  }

  method WindowStarts(c: Cluster, units: seq<int>, starts: seq<int>, stops: seq<int>, outages: seq<int>, t: nat)
    returns (sum: real)
    requires c.Valid() && |units| == c.horizon && AllTransitions(c, units, starts, stops, outages) && t < c.horizon
    ensures sum == Sum(t - c.minUp + 1, t + 1, NetStartAt(c, units))
  {
    sum := 0.0;
    var k := t - c.minUp + 1;
    while k <= t
      invariant t - c.minUp + 1 <= k <= t + 1
      invariant sum == Sum(t - c.minUp + 1, k, NetStartAt(c, units))
    {
      var net := StartsBeyondOutages(c, units, starts, stops, outages, k);
      sum := sum + net;
      k := k + 1;
    }
  }

  method WindowRoom(c: Cluster, units: seq<int>, starts: seq<int>, stops: seq<int>, outages: seq<int>, t: nat)
    returns (room: real)
    requires c.Valid() && |units| == c.horizon && AllTransitions(c, units, starts, stops, outages) && t < c.horizon
    ensures room == DownRhs(c, t) - Sum(t - c.minDown + 1, t + 1, StopAsReal(c, units))
  {
    ghost var lo, gains, stopped := t - c.minDown + 1, GainAsReal(c), StopAsReal(c, units);
    var hour := t - c.minDown;
    if hour < 0 {
      hour := c.horizon + hour;
    }
    room := c.maxUnits[hour] as real;
    var k := t - c.minDown + 1;
    while k <= t
      invariant lo <= k <= t + 1
      invariant room == c.MaxAt(lo - 1) as real + Sum(lo, k, gains) - Sum(lo, k, stopped)
    {
      var change := GainLessStops(c, units, starts, stops, outages, k);
      room := room + change;
      k := k + 1;
    }
  }

  method TestHour(c: Cluster, units: seq<int>, starts: seq<int>, stops: seq<int>, outages: seq<int>, t: nat)
    returns (passes: bool)
    requires c.Valid() && |units| == c.horizon && AllTransitions(c, units, starts, stops, outages) && t < c.horizon
    ensures passes <==> HourPasses(c, units, t)
  {
    assert UnitsAt(c, units, t) == units[t];
    if c.minUp > 0 {
      var sum := WindowStarts(c, units, starts, stops, outages, t);
      if units[t] as real < sum {
        return false;
      }
    }
    var room := WindowRoom(c, units, starts, stops, outages, t);
    return !(units[t] as real > room);
  }

  method TestDurations(c: Cluster, units: seq<int>, starts: seq<int>, stops: seq<int>, outages: seq<int>)
    returns (passes: bool)
    requires c.Valid() && |units| == c.horizon && AllTransitions(c, units, starts, stops, outages)
    ensures passes <==> PassesTest(c, units)
  {
    for t := 0 to c.horizon
      invariant forall h :: 0 <= h < t ==> HourPasses(c, units, h)
    {
      var passed := TestHour(c, units, starts, stops, outages, t);
      if !passed {
        return false;
      }
    }
    return true;
  }

  // The sums that the test looks at are those of the derived plan.
  lemma TestedStarts(c: Cluster, units: seq<int>, lo: int, hi: int)
    requires c.Valid() && |units| == c.horizon && 0 < lo + c.horizon && hi <= c.horizon
    ensures Sum(lo, hi, NetStartAt(c, units)) == Sum(lo, hi, StartsLessOutages(c, DerivedPlan(c, units)))
  {
    var d := DerivedPlan(c, units);
    forall k | lo <= k < hi
      ensures NetStartAt(c, units)(k) == StartsLessOutages(c, d)(k)
    {
      DerivedPlanAt(c, units, k);
      assert StartsLessOutages(c, d)(k) == Starts(c, d)(k) - Outages(c, d)(k);
    }
    SumExtensional(lo, hi, NetStartAt(c, units), StartsLessOutages(c, d));
  }

  lemma TestedStops(c: Cluster, units: seq<int>, lo: int, hi: int)
    requires c.Valid() && |units| == c.horizon && 0 < lo + c.horizon && hi <= c.horizon
    ensures Sum(lo, hi, StopAsReal(c, units)) == Sum(lo, hi, Stops(c, DerivedPlan(c, units)))
  {
    forall k | lo <= k < hi
      ensures StopAsReal(c, units)(k) == Stops(c, DerivedPlan(c, units))(k)
    {
      DerivedPlanAt(c, units, k);
    }
    SumExtensional(lo, hi, StopAsReal(c, units), Stops(c, DerivedPlan(c, units)));
  }

  // So an hour passes when the derived plan keeps both durations, the first one looked at only if
  // there is one.
  lemma HourPassesMeans(c: Cluster, units: seq<int>, t: nat)
    requires c.Valid() && |units| == c.horizon && t < c.horizon
    ensures HourPasses(c, units, t) <==>
            (c.minUp > 0 ==> UpTimeKept(c, DerivedPlan(c, units), t)) && DownTimeKept(c, DerivedPlan(c, units), t)
  {
    UpTestMeans(c, units, t);
    DownTestMeans(c, units, t);
  }

  lemma UpTestMeans(c: Cluster, units: seq<int>, t: nat)
    requires c.Valid() && |units| == c.horizon && t < c.horizon
    ensures UpTimeKept(c, DerivedPlan(c, units), t) <==> UpTest(c, units, t)
  {
    DerivedUnitsAt(c, units, t);
    TestedStarts(c, units, t - c.minUp + 1, t + 1);
    SameTest(c, DerivedPlan(c, units), units, t);
  }

  lemma SameTest(c: Cluster, x: int -> real, units: seq<int>, t: nat)
    requires On(c, x)(t) == UnitsAt(c, units, t) as real
    ensures Sum(t - c.minUp + 1, t + 1, NetStartAt(c, units)) == Sum(t - c.minUp + 1, t + 1, StartsLessOutages(c, x))
            ==> (UpTimeKept(c, x, t) <==> UpTest(c, units, t))
    ensures Sum(t - c.minDown + 1, t + 1, StopAsReal(c, units)) == Sum(t - c.minDown + 1, t + 1, Stops(c, x))
            ==> (DownTimeKept(c, x, t) <==> DownTest(c, units, t))
  {
  }

  lemma DownTestMeans(c: Cluster, units: seq<int>, t: nat)
    requires c.Valid() && |units| == c.horizon && t < c.horizon
    ensures DownTimeKept(c, DerivedPlan(c, units), t) <==> DownTest(c, units, t)
  {
    DerivedUnitsAt(c, units, t);
    TestedStops(c, units, t - c.minDown + 1, t + 1);
    SameTest(c, DerivedPlan(c, units), units, t);
  }

  lemma DerivedPlanOfHour(c: Cluster, units: seq<int>, t: nat)
    requires c.Valid() && |units| == c.horizon && t < c.horizon && BoundsAllow(c, units)
    ensures var d := DerivedPlan(c, units);
      && BoundRules(c, units, d, t) && Balanced(c, d, t) && Outages(c, d)(t) <= Stops(c, d)(t)
      && (c.minUp == 0 ==> (UpTimeKept(c, d, t) <==> 0 <= units[t]))
  {
    DerivedPlanBalances(c, units, t);
    DerivedPlanAt(c, units, t);
    assert c.MaxAt(t) == c.maxUnits[t] && UnitsAt(c, units, t) == units[t];
  }

  // The test passes, and where it does not look at the first rule that rule holds.
  ghost predicate TestForetells(c: Cluster, units: seq<int>) {
    PassesTest(c, units) && (c.minUp == 0 ==> forall t :: 0 <= t < |units| ==> 0 <= units[t])
  }

  // The test is exact for units between their bounds: the derived plan keeps all the rules if and
  // only if it passes and, without a minimum up time, no number of units is negative.
  lemma TestIsExact(c: Cluster, units: seq<int>)
    requires c.Valid() && |units| == c.horizon && BoundsAllow(c, units)
    ensures Rules(c, units, DerivedPlan(c, units)) <==> TestForetells(c, units)
  {
    var d := DerivedPlan(c, units);
    forall t | 0 <= t < c.horizon
      ensures BoundRules(c, units, d, t) && RowRules(c, d, t) <==>
              HourPasses(c, units, t) && (c.minUp == 0 ==> 0 <= units[t])
    {
      DerivedPlanOfHour(c, units, t);
      HourPassesMeans(c, units, t);
    }
  }

  // The minima that reach the code are never negative; for them the test alone decides.
  lemma TestIsExactForCounts(c: Cluster, units: seq<int>)
    requires c.Valid() && |units| == c.horizon && BoundsAllow(c, units)
    requires forall t :: 0 <= t < |units| ==> 0 <= units[t]
    ensures Rules(c, units, DerivedPlan(c, units)) <==> PassesTest(c, units)
  {
    TestIsExact(c, units);
  }

  // Without a minimum up time the test would overlook a negative minimum, which no plan may run.
  lemma TestOverlooksNegativeUnits()
    ensures var c, units := Cluster(1, [0], 0, 0), [-1];
      && c.Valid() && BoundsAllow(c, units) && PassesTest(c, units) && !Rules(c, units, DerivedPlan(c, units))
  {
    var c, units := Cluster(1, [0], 0, 0), [-1];
    assert UnitsAt(c, units, 0) == UnitsAt(c, units, -1) == -1;
    assert Sum(1, 1, StopAsReal(c, units)) == 0.0 && Sum(1, 1, GainAsReal(c)) == 0.0;
    assert HourPasses(c, units, 0);
    assert units[0] == -1;
    TestIsExact(c, units);
  }
}
