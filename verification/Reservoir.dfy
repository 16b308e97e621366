// Hourly reservoir levels, with spills above the capacity and deficits carried over.

module Reservoir {
  import opened Sums

  // The week of one area as it stands before the computation.
  datatype Week = Week(capacity: real, start: real, pumpRatio: real, inflows: seq<real>, turbined: seq<real>,
                       pumped: seq<real>)
  {
    ghost predicate Valid() {
      0.0 < capacity && |inflows| == |turbined| == |pumped|
    }
  }

  // ----- Levels, by recursion on the hours -----------------------------------------------------

  // The level that hour h would reach if it were not bounded, the level it ends with, and the
  // energy it was short of.
  ghost function Reached(w: Week, h: nat): real
    requires w.Valid() && h < |w.inflows|
    decreases h, 1
  {
    LevelBefore(w, h) + (w.inflows[h] - DeficitBefore(w, h)) - w.turbined[h] + w.pumpRatio * w.pumped[h]
  }

  ghost function LevelBefore(w: Week, h: nat): real
    requires w.Valid() && h <= |w.inflows|
    decreases h, 0
  {
    if h == 0 then w.start
    else
      var reached := Reached(w, h - 1);
      if reached > w.capacity then w.capacity else if reached < 0.0 then 0.0 else reached
  }

  ghost function DeficitBefore(w: Week, h: nat): real
    requires w.Valid() && h <= |w.inflows|
    decreases h, 0
  {
    if h == 0 then 0.0
    else
      var reached := Reached(w, h - 1);
      if reached < 0.0 then -reached else 0.0
  }

  ghost function Spilled(w: Week, h: nat): real
    requires w.Valid() && h < |w.inflows|
  {
    if Reached(w, h) > w.capacity then Reached(w, h) - w.capacity else 0.0
  }

  // The inflow of hour h once corrected: it makes up for the hour's own deficit, which the next
  // hour pays back.
  ghost function Corrected(w: Week, h: nat): real
    requires w.Valid() && h < |w.inflows|
  {
    w.inflows[h] - DeficitBefore(w, h) + DeficitBefore(w, h + 1)
  }

  // Inflows when hours before h are done: the deficit of the last of them is taken off at h.
  ghost predicate Entering(w: Week, s: seq<real>, h: nat)
    requires w.Valid() && h < |w.inflows|
  {
    && |s| == |w.inflows| && s[h] == w.inflows[h] - DeficitBefore(w, h)
    && (forall k :: 0 <= k < h ==> s[k] == Corrected(w, k))
    && (forall k :: h < k < |s| ==> s[k] == w.inflows[k])
  }

  // Inflows when hours up to h are done.
  ghost predicate Leaving(w: Week, s: seq<real>, h: nat)
    requires w.Valid() && h < |w.inflows|
  {
    && |s| == |w.inflows|
    && (forall k :: 0 <= k <= h ==> s[k] == Corrected(w, k))
    && (forall k :: h < k < |s| ==> s[k] == w.inflows[k])
  }

  // What is on record as spilled at hour h, given what was there before.
  ghost function SpillRecord(w: Week, before: real, h: nat): real
    requires w.Valid() && h < |w.inflows|
  {
    if Spilled(w, h) > 0.0 then Spilled(w, h) else before
  }

  ghost predicate Spilling(w: Week, before: seq<real>, s: seq<real>, h: nat)
    requires w.Valid() && h <= |w.inflows|
  {
    && |s| == |before| == |w.inflows|
    && (forall k :: 0 <= k < h ==> s[k] == SpillRecord(w, before[k], k))
    && (forall k :: h <= k < |s| ==> s[k] == before[k])
  }

  ghost function PercentAt(w: Week, h: nat): real
    requires w.Valid() && h < |w.inflows|
  {
    LevelBefore(w, h + 1) * 100.0 / w.capacity
  }

  ghost predicate Levelled(w: Week, s: seq<real>, h: nat)
    requires w.Valid() && h <= |w.inflows|
  {
    |s| == |w.inflows| && forall k :: 0 <= k < h ==> s[k] == PercentAt(w, k)
  }

  lemma HourChanges(w: Week, before: seq<real>, s: seq<real>, o: seq<real>, h: nat)
    requires w.Valid() && h < |w.inflows| && Entering(w, s, h) && Spilling(w, before, o, h)
    ensures Leaving(w, s[h := s[h] + DeficitBefore(w, h + 1)], h)
    ensures Spilling(w, before, if Spilled(w, h) > 0.0 then o[h := Spilled(w, h)] else o, h + 1)
  {
    assert s[h] + DeficitBefore(w, h + 1) == Corrected(w, h);
    var spilled := Spilled(w, h);
  }

  // ----- The level object -------------------------------------------------------------------------

  class ComputeTimeStepLevel {
    var step: nat
    var level: real
    var excessDown: real
    const capacity: real
    const pumpRatio: real
    const inflows: array<real>
    const overflow: array<real>
    const turbined: array<real>
    const pumped: array<real>

    constructor (start: real, inflows: array<real>, overflow: array<real>, turbined: array<real>, pumpRatio: real,
                 pumped: array<real>, capacity: real)
      ensures step == 0 && level == start && excessDown == 0.0
      ensures this.inflows == inflows && this.overflow == overflow && this.turbined == turbined
      ensures this.pumped == pumped && this.pumpRatio == pumpRatio && this.capacity == capacity
    {
      step, level, excessDown := 0, start, 0.0;
      this.inflows, this.overflow, this.turbined, this.pumped := inflows, overflow, turbined, pumped;
      this.pumpRatio, this.capacity := pumpRatio, capacity;
    }

    ghost predicate Arranged(w: Week)
      reads turbined, pumped
    {
      && inflows.Length == overflow.Length == turbined.Length == pumped.Length == |w.inflows|
      && inflows != overflow && inflows != turbined && inflows != pumped
      && overflow != turbined && overflow != pumped
      && w.Valid() && w.capacity == capacity && w.pumpRatio == pumpRatio
      && w.turbined == turbined[..] && w.pumped == pumped[..]
    }

    // Hours before step are done.
    ghost predicate Ready(w: Week, before: seq<real>)
      reads this, inflows, overflow, turbined, pumped
    {
      && Arranged(w) && step < inflows.Length && level == LevelBefore(w, step)
      && Entering(w, inflows[..], step) && Spilling(w, before, overflow[..], step)
    }

    // The hour at step is done as well.
    ghost predicate Ran(w: Week, before: seq<real>)
      reads this, inflows, overflow, turbined, pumped
    {
      && Arranged(w) && step < inflows.Length
      && level == LevelBefore(w, step + 1) && excessDown == DeficitBefore(w, step + 1)
      && Leaving(w, inflows[..], step) && Spilling(w, before, overflow[..], step + 1)
    }

    method Run(ghost w: Week, ghost before: seq<real>)
      requires Ready(w, before)
      modifies this`level, this`excessDown, inflows, overflow
      ensures Ran(w, before)
    {
      ghost var s, o := inflows[..], overflow[..];
      excessDown := 0.0;
      level := level + inflows[step] - turbined[step] + pumpRatio * pumped[step];
      assert level == Reached(w, step);
      HourChanges(w, before, s, o, step);
      if level > capacity {
        overflow[step] := level - capacity;
        level := capacity;
      }
      if level < 0.0 {
        excessDown := -level;
        level := 0.0;
        inflows[step] := inflows[step] + excessDown;
      }
      assert inflows[..] == s[step := s[step] + excessDown];
      assert overflow[..] == if Spilled(w, step) > 0.0 then o[step := Spilled(w, step)] else o;
    }

    method PrepareNextStep(ghost w: Week, ghost before: seq<real>)
      requires Ran(w, before) && step + 1 < inflows.Length
      modifies this`step, inflows
      ensures Ready(w, before) && step == old(step) + 1
    {
      ghost var s := inflows[..];
      step := step + 1;
      inflows[step] := inflows[step] - excessDown;
      assert inflows[..] == s[step := s[step] - excessDown];
    }

    method GetLevel() returns (l: real)
      ensures l == level
    {
      l := level;
    }
  }

  // ----- The week of one area -----------------------------------------------------------------------

  datatype Area = Area(reservoir: bool, heuristic: bool, capacity: real, pumpRatio: real)

  ghost predicate Done(w: Week, before: seq<real>, levels: seq<real>, inflows: seq<real>, overflow: seq<real>) {
    && w.Valid() && 0 < |w.inflows|
    && Levelled(w, levels, |w.inflows|)
    && Leaving(w, inflows, |w.inflows| - 1)
    && Spilling(w, before, overflow, |w.inflows|)
  }

  // Levels in percent of the capacity, unless the area has no reservoir or another call of this
  // week computes them.
  method ComputingHydroLevels(area: Area, remixWasRun: bool, computeAnyway: bool, start: real, inflows: array<real>,
                              overflow: array<real>, turbined: array<real>, pumped: array<real>, levels: array<real>)
    returns (computed: bool)
    requires 0.0 < area.capacity && 0 < inflows.Length
    requires inflows.Length == overflow.Length == turbined.Length == pumped.Length == levels.Length
    requires inflows != overflow && inflows != turbined && inflows != pumped
    requires overflow != turbined && overflow != pumped
    requires levels != inflows && levels != overflow && levels != turbined && levels != pumped
    modifies inflows, overflow, levels
    ensures computed <==> area.reservoir && (computeAnyway || area.heuristic == remixWasRun)
    ensures !computed ==> unchanged(inflows) && unchanged(overflow) && unchanged(levels)
    ensures computed ==>
              var w := Week(area.capacity, start, area.pumpRatio, old(inflows[..]), turbined[..], pumped[..]);
              Done(w, old(overflow[..]), levels[..], inflows[..], overflow[..])
  {
    if !area.reservoir {
      return false;
    }
    if !computeAnyway && area.heuristic != remixWasRun {
      return false;
    }
    computed := true;
    ghost var w := Week(area.capacity, start, area.pumpRatio, inflows[..], turbined[..], pumped[..]);
    FollowLevels(area, start, inflows, overflow, turbined, pumped, levels, w, overflow[..]);
  }

  // The hours of the week, one after the other; the last one has no next hour to prepare.
  method FollowLevels(area: Area, start: real, inflows: array<real>, overflow: array<real>, turbined: array<real>,
                      pumped: array<real>, levels: array<real>, ghost w: Week, ghost before: seq<real>)
    requires w == Week(area.capacity, start, area.pumpRatio, inflows[..], turbined[..], pumped[..])
    requires w.Valid() && 0 < inflows.Length && before == overflow[..]
    requires inflows.Length == overflow.Length == levels.Length
    requires inflows != overflow && inflows != turbined && inflows != pumped
    requires overflow != turbined && overflow != pumped
    requires levels != inflows && levels != overflow && levels != turbined && levels != pumped
    modifies inflows, overflow, levels
    ensures Done(w, before, levels[..], inflows[..], overflow[..])
  {
    var tracker := new ComputeTimeStepLevel(start, inflows, overflow, turbined, area.pumpRatio, pumped, area.capacity);
    for h := 0 to levels.Length - 1
      invariant tracker.step == h && tracker.Ready(w, before)
      invariant tracker.inflows == inflows && tracker.overflow == overflow
      invariant tracker.turbined == turbined && tracker.pumped == pumped
      invariant Levelled(w, levels[..], h)
    {
      tracker.Run(w, before);
      var level := tracker.GetLevel();
      Record(w, levels, h, level, area.capacity);
      tracker.PrepareNextStep(w, before);
    }
    tracker.Run(w, before);
    var level := tracker.GetLevel();
    Record(w, levels, levels.Length - 1, level, area.capacity);
  }

  method Record(ghost w: Week, levels: array<real>, h: nat, level: real, capacity: real)
    requires w.Valid() && capacity == w.capacity && h < |w.inflows|
    requires Levelled(w, levels[..], h) && level == LevelBefore(w, h + 1)
    modifies levels
    ensures Levelled(w, levels[..], h + 1)
  {
    ghost var before := levels[..];
    levels[h] := level * 100.0 / capacity;
    assert levels[..] == before[h := PercentAt(w, h)];
  }

  // The level the next week starts from.
  method UpdatingWeeklyFinalHydroLevel(area: Area, levels: array<real>, previous: real) returns (next: real)
    requires 0.0 < area.capacity && 0 < levels.Length
    ensures next == if area.reservoir then levels[levels.Length - 1] * area.capacity / 100.0 else previous
  {
    next := previous;
    if area.reservoir {
      next := levels[levels.Length - 1] * area.capacity / 100.0;
    }
  }

  lemma PercentAndBack(level: real, capacity: real)
    requires 0.0 < capacity
    ensures level * 100.0 / capacity * capacity / 100.0 == level
  {
    assert level * 100.0 / capacity * capacity == level * 100.0;
  }

  // The level handed on is the one the week ended with: the percentage loses nothing.
  lemma LastLevel(w: Week, levels: seq<real>)
    requires w.Valid() && 0 < |w.inflows| && Levelled(w, levels, |w.inflows|)
    ensures levels[|levels| - 1] * w.capacity / 100.0 == LevelBefore(w, |w.inflows|)
  {
    assert levels[|levels| - 1] == PercentAt(w, |w.inflows| - 1);
    PercentAndBack(LevelBefore(w, |w.inflows|), w.capacity);
  }

  datatype Outcome = Next(level: real) | BelowZero | OverCapacity | RemixFailed

  function Guard(level: real, capacity: real): Outcome {
    if level < 0.0 then BelowZero else if level > capacity then OverCapacity else Next(level)
  }

  // ----- What the levels promise ---------------------------------------------------------------------

  lemma LevelsStayWithinCapacity(w: Week, h: nat)
    requires w.Valid() && h <= |w.inflows| && 0.0 <= w.start <= w.capacity
    ensures 0.0 <= LevelBefore(w, h) <= w.capacity && 0.0 <= DeficitBefore(w, h)
  {
    if h > 0 {
      var reached := Reached(w, h - 1);
    }
  }

  // Each hour balances exactly once its inflow is corrected and what spills is counted.
  lemma HourBalances(w: Week, h: nat)
    requires w.Valid() && h < |w.inflows|
    ensures LevelBefore(w, h + 1)
         == LevelBefore(w, h) + Corrected(w, h) - w.turbined[h] + w.pumpRatio * w.pumped[h] - Spilled(w, h)
  {
    var reached := Reached(w, h);
  }

  ghost function InflowAt(w: Week): int -> real {
    h => if 0 <= h < |w.inflows| then w.inflows[h] else 0.0
  }

  ghost function CorrectedAt(w: Week): int -> real
    requires w.Valid()
  {
    h => if 0 <= h < |w.inflows| then Corrected(w, h) else 0.0
  }

  // Over any first hours of the week the corrections only add the deficit still to be paid back.
  lemma {:induction false} CorrectionsOnlyAddTheLastDeficit(w: Week, h: nat)
    requires w.Valid() && h <= |w.inflows|
    ensures Sum(0, h, CorrectedAt(w)) == Sum(0, h, InflowAt(w)) + DeficitBefore(w, h)
  {
    if h > 0 {
      CorrectionsOnlyAddTheLastDeficit(w, h - 1);
      assert CorrectedAt(w)(h - 1) == Corrected(w, h - 1);
    }
  }

  // The week as the optimisation would see it with the corrected inflows.
  ghost function CorrectedWeek(w: Week): (c: Week)
    requires w.Valid()
    ensures c.Valid() && c == w.(inflows := c.inflows) && |c.inflows| == |w.inflows|
    ensures forall h :: 0 <= h < |w.inflows| ==> c.inflows[h] == Corrected(w, h)
  {
    w.(inflows := seq(|w.inflows|, h requires 0 <= h < |w.inflows| => Corrected(w, h)))
  }

  lemma SettledHour(w: Week, h: nat)
    requires w.Valid() && h < |w.inflows|
    requires LevelBefore(CorrectedWeek(w), h) == LevelBefore(w, h) && DeficitBefore(CorrectedWeek(w), h) == 0.0
    ensures LevelBefore(CorrectedWeek(w), h + 1) == LevelBefore(w, h + 1)
    ensures DeficitBefore(CorrectedWeek(w), h + 1) == 0.0
    ensures Spilled(CorrectedWeek(w), h) == Spilled(w, h)
    ensures Corrected(CorrectedWeek(w), h) == Corrected(w, h)
  {
    var c := CorrectedWeek(w);
    assert c.inflows[h] == Corrected(w, h);
    assert Reached(c, h) == Reached(w, h) + DeficitBefore(w, h + 1);
  }

  // With the corrected inflows the levels and the spills are the same and no hour is short.
  lemma {:induction false} CorrectionSettlesTheWeek(w: Week, h: nat)
    requires w.Valid() && h <= |w.inflows|
    ensures LevelBefore(CorrectedWeek(w), h) == LevelBefore(w, h) && DeficitBefore(CorrectedWeek(w), h) == 0.0
    ensures h < |w.inflows| ==> Spilled(CorrectedWeek(w), h) == Spilled(w, h)
    ensures h < |w.inflows| ==> Corrected(CorrectedWeek(w), h) == Corrected(w, h)
  {
    if h > 0 {
      CorrectionSettlesTheWeek(w, h - 1);
      SettledHour(w, h - 1);
    }
    if h < |w.inflows| {
      SettledHour(w, h);
    }
  }

  // ----- The same levels without the recursion ----------------------------------------------------------

  ghost function NetAt(w: Week): int -> real
    requires w.Valid()
  {
    h => if 0 <= h < |w.inflows| then w.inflows[h] - w.turbined[h] + w.pumpRatio * w.pumped[h] else 0.0
  }

  // What is left at hour h of a reservoir that was last full at hour j, or that never was.
  ghost function SinceFull(w: Week, j: nat, h: nat): real
    requires w.Valid() && j <= h <= |w.inflows|
  {
    (if j == 0 then w.start else w.capacity) + Sum(j, h, NetAt(w))
  }

  // The level less the deficit: the least of what is left since each hour it may have been full.
  lemma {:induction false} StockIsLeastSinceFull(w: Week, h: nat) returns (full: nat)
    requires w.Valid() && h <= |w.inflows|
    ensures forall j :: 0 <= j <= h ==> LevelBefore(w, h) - DeficitBefore(w, h) <= SinceFull(w, j, h)
    ensures full <= h && LevelBefore(w, h) - DeficitBefore(w, h) == SinceFull(w, full, h)
  {
    full := 0;
    if h > 0 {
      full := StockIsLeastSinceFull(w, h - 1);
      var net := NetAt(w)(h - 1);
      assert Reached(w, h - 1) == LevelBefore(w, h - 1) - DeficitBefore(w, h - 1) + net;
      forall j | 0 <= j <= h
        ensures LevelBefore(w, h) - DeficitBefore(w, h) <= SinceFull(w, j, h)
      {
        if j < h {
          assert SinceFull(w, j, h) == SinceFull(w, j, h - 1) + net;
        }
      }
      assert SinceFull(w, full, h) == SinceFull(w, full, h - 1) + net;
      if Reached(w, h - 1) > w.capacity {
        full := h;
      }
    }
  }

  // So the level of every hour is given by the net flows alone.
  lemma LevelFromNetFlows(w: Week, h: nat, left: real)
    requires w.Valid() && h <= |w.inflows| && 0.0 <= w.start
    requires forall j :: 0 <= j <= h ==> left <= SinceFull(w, j, h)
    requires exists j :: 0 <= j <= h && left == SinceFull(w, j, h)
    ensures LevelBefore(w, h) == if left > 0.0 then left else 0.0
  {
    var full := StockIsLeastSinceFull(w, h);
    var j :| 0 <= j <= h && left == SinceFull(w, j, h);
    assert left <= SinceFull(w, full, h);
  }

  // ----- From week to week ---------------------------------------------------------------------------------

  // Weeks of one area, each starting from the level the previous one ended with.
  ghost predicate Chained(weeks: seq<Week>, capacity: real) {
    && (forall k :: 0 <= k < |weeks| ==> weeks[k].Valid() && weeks[k].capacity == capacity && 0 < |weeks[k].inflows|)
    && (forall k :: 0 < k < |weeks| ==> weeks[k].start == LevelBefore(weeks[k - 1], |weeks[k - 1].inflows|))
  }

  // Whatever the inflows, the turbined and the pumped energy, only the first week can be refused.
  lemma {:induction false} OnlyTheFirstWeekCanBeRefused(weeks: seq<Week>, capacity: real)
    requires 0 < |weeks| && Chained(weeks, capacity)
    ensures (forall k :: 0 <= k < |weeks| ==> Guard(weeks[k].start, capacity).Next?)
       <==> 0.0 <= weeks[0].start <= capacity
    ensures forall k :: 0 < k < |weeks| ==> Guard(weeks[k].start, capacity).Next?
  {
    forall k | 0 < k < |weeks|
      ensures Guard(weeks[k].start, capacity).Next?
    {
      var w := weeks[k - 1];
      var reached := Reached(w, |w.inflows| - 1);
      assert weeks[k].start == LevelBefore(w, |w.inflows|);
    }
    assert Guard(weeks[0].start, capacity).Next? <==> 0.0 <= weeks[0].start <= capacity;
  }
}
