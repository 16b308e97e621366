// When the records of a week balance hour by hour, without recursion.

module ReservoirBalance {
  import opened Sums
  import opened Reservoir

  ghost function At(s: seq<real>): int -> real {
    h => if 0 <= h < |s| then s[h] else 0.0
  }

  // The level on record when hour h begins.
  ghost function LevelAt(w: Week, levels: seq<real>, h: nat): real
    requires w.Valid() && h <= |levels|
  {
    if h == 0 then w.start else levels[h - 1] * w.capacity / 100.0
  }

  // What the first hours were given on top of their inflows.
  ghost function Lent(w: Week, inflows: seq<real>, h: nat): real {
    Sum(0, h, At(inflows)) - Sum(0, h, At(w.inflows))
  }

  // With its corrected inflow the hour ends at a level between zero and the capacity and spills
  // what is above; energy is lent only to an hour that ends with an empty reservoir.
  ghost predicate Balanced(w: Week, before: real, levels: seq<real>, inflows: seq<real>, spilled: real, h: nat)
    requires w.Valid() && h < |w.inflows| == |levels| == |inflows|
  {
    var held := LevelAt(w, levels, h) + inflows[h] - w.turbined[h] + w.pumpRatio * w.pumped[h];
    && 0.0 <= LevelAt(w, levels, h + 1) == (if held > w.capacity then w.capacity else held)
    && spilled == (if held > w.capacity then held - w.capacity else before)
    && 0.0 <= Lent(w, inflows, h + 1)
    && (Lent(w, inflows, h + 1) > 0.0 ==> LevelAt(w, levels, h + 1) == 0.0)
  }

  // The records of the hour are those that the computation leaves.
  ghost predicate AsComputed(w: Week, before: real, level: real, inflow: real, spilled: real, h: nat)
    requires w.Valid() && h < |w.inflows|
  {
    level == PercentAt(w, h) && inflow == Corrected(w, h) && spilled == SpillRecord(w, before, h)
  }

  lemma PercentDecides(level: real, percent: real, capacity: real)
    requires 0.0 < capacity
    ensures percent == level * 100.0 / capacity <==> percent * capacity / 100.0 == level
  {
    PercentAndBack(level, capacity);
    if percent * capacity / 100.0 == level {
      assert percent * capacity == level * 100.0;
      assert percent == percent * capacity / capacity;
    }
  }

  // An hour that begins as computed is balanced exactly when it ends as computed.
  lemma BalancedHour(w: Week, before: real, levels: seq<real>, inflows: seq<real>, spilled: real, h: nat)
    requires w.Valid() && h < |w.inflows| == |levels| == |inflows|
    requires LevelAt(w, levels, h) == LevelBefore(w, h) && Lent(w, inflows, h) == DeficitBefore(w, h)
    ensures Balanced(w, before, levels, inflows, spilled, h)
       <==> AsComputed(w, before, levels[h], inflows[h], spilled, h)
    ensures Balanced(w, before, levels, inflows, spilled, h) ==>
              LevelAt(w, levels, h + 1) == LevelBefore(w, h + 1) && Lent(w, inflows, h + 1) == DeficitBefore(w, h + 1)
  {
    PercentDecides(LevelBefore(w, h + 1), levels[h], w.capacity);
    var reached := Reached(w, h);
    assert Lent(w, inflows, h + 1) == Lent(w, inflows, h) + inflows[h] - w.inflows[h];
    var held := LevelAt(w, levels, h) + inflows[h] - w.turbined[h] + w.pumpRatio * w.pumped[h];
    assert held == reached + Lent(w, inflows, h + 1);
  }

  // Two conditions that decide each other at every hour that begins well, and keep it so.
  lemma {:induction false} HourByHour(p: int -> bool, q: int -> bool, well: int -> bool, hours: nat)
    requires well(0)
    requires forall h :: 0 <= h < hours && well(h) ==> (p(h) <==> q(h)) && (p(h) ==> well(h + 1))
    ensures (forall h :: 0 <= h < hours ==> p(h)) <==> (forall h :: 0 <= h < hours ==> q(h))
    ensures (forall h :: 0 <= h < hours ==> p(h)) ==> well(hours)
  {
    if hours > 0 {
      HourByHour(p, q, well, hours - 1);
    }
  }

  datatype Records = Records(before: seq<real>, levels: seq<real>, inflows: seq<real>, spilled: seq<real>) {
    ghost predicate Fit(w: Week) {
      w.Valid() && 0 < |w.inflows| == |before| == |levels| == |inflows| == |spilled|
    }
  }

  ghost function BalancedAt(w: Week, r: Records): int -> bool
    requires r.Fit(w)
  {
    h => 0 <= h < |w.inflows| && Balanced(w, r.before[h], r.levels, r.inflows, r.spilled[h], h)
  }

  ghost function ComputedAt(w: Week, r: Records): int -> bool
    requires r.Fit(w)
  {
    h => 0 <= h < |w.inflows| && AsComputed(w, r.before[h], r.levels[h], r.inflows[h], r.spilled[h], h)
  }

  ghost function BeginsAsComputed(w: Week, r: Records): int -> bool
    requires r.Fit(w)
  {
    h => 0 <= h <= |w.inflows| && LevelAt(w, r.levels, h) == LevelBefore(w, h)
         && Lent(w, r.inflows, h) == DeficitBefore(w, h)
  }

  lemma HourDecides(w: Week, r: Records, h: int)
    requires r.Fit(w) && 0 <= h < |w.inflows| && BeginsAsComputed(w, r)(h)
    ensures BalancedAt(w, r)(h) <==> ComputedAt(w, r)(h)
    ensures BalancedAt(w, r)(h) ==> BeginsAsComputed(w, r)(h + 1)
  {
    BalancedHour(w, r.before[h], r.levels, r.inflows, r.spilled[h], h);
  }

  lemma WeekDecides(w: Week, r: Records)
    requires r.Fit(w)
    ensures (forall h :: 0 <= h < |w.inflows| ==> BalancedAt(w, r)(h))
       <==> (forall h :: 0 <= h < |w.inflows| ==> ComputedAt(w, r)(h))
  {
    forall h | 0 <= h < |w.inflows| && BeginsAsComputed(w, r)(h)
      ensures BalancedAt(w, r)(h) <==> ComputedAt(w, r)(h)
      ensures BalancedAt(w, r)(h) ==> BeginsAsComputed(w, r)(h + 1)
    {
      HourDecides(w, r, h);
    }
    HourByHour(BalancedAt(w, r), ComputedAt(w, r), BeginsAsComputed(w, r), |w.inflows|);
  }

  lemma DoneMeansComputed(w: Week, r: Records)
    requires r.Fit(w)
    ensures Done(w, r.before, r.levels, r.inflows, r.spilled)
       <==> forall h :: 0 <= h < |w.inflows| ==> ComputedAt(w, r)(h)
  {
    if forall h :: 0 <= h < |w.inflows| ==> ComputedAt(w, r)(h) {
      forall h | 0 <= h < |w.inflows|
        ensures r.levels[h] == PercentAt(w, h) && r.inflows[h] == Corrected(w, h)
        ensures r.spilled[h] == SpillRecord(w, r.before[h], h)
      {
        assert ComputedAt(w, r)(h);
      }
    }
  }

  // The records of a week are those of the computation if and only if every hour balances.
  lemma RecordsAreRightExactly(w: Week, r: Records)
    requires r.Fit(w)
    ensures Done(w, r.before, r.levels, r.inflows, r.spilled)
       <==> forall h :: 0 <= h < |w.inflows| ==> Balanced(w, r.before[h], r.levels, r.inflows, r.spilled[h], h)
  {
    WeekDecides(w, r);
    DoneMeansComputed(w, r);
    forall h | 0 <= h < |w.inflows|
      ensures BalancedAt(w, r)(h) <==> Balanced(w, r.before[h], r.levels, r.inflows, r.spilled[h], h)
    {
    }
  }
}
