// The weeks of an area with its reservoir: levels, remix, levels again and the level handed on.

module ReservoirWeeks {
  import opened Reservoir
  import opened HydroRemix
  import opened ReservoirRecords

  // ----- One week --------------------------------------------------------------------------------------

  // Some window of the week has an error branch in its remix.
  ghost predicate FailsRemix(shave: bool, step: nat, before: Window, windows: nat) {
    shave && exists k :: 0 <= k < windows && WindowFails(step, before, k)
  }

  ghost predicate WindowFails(step: nat, before: Window, k: nat) {
    var w := WindowOf(step, before, k);
    w.Valid() && !Skipped(w) && !Converges(w)
  }

  lemma OutcomesTellFailure(shave: bool, step: nat, before: Window, windows: nat, poured: seq<real>,
                            outcomes: seq<bool>, hydro: seq<real>, unsupplied: seq<real>)
    requires RemixedWeek(shave, step, before, poured, outcomes, hydro, unsupplied)
    requires shave ==> |poured| == windows
    ensures false in outcomes <==> FailsRemix(shave, step, before, windows)
  {
    if shave {
      forall k | 0 <= k < windows
        ensures !outcomes[k] <==> WindowFails(step, before, k)
      {
        assert WindowDone(k, step, before, poured[k], hydro, unsupplied, outcomes[k]);
      }
      if false in outcomes {
        var k :| 0 <= k < |outcomes| && outcomes[k] == false;
        assert WindowFails(step, before, k);
      }
    }
  }

  // The remix, when the policy for unsupplied energy is to shave its peaks.
  method RemixArea(shave: bool, inputs: Inputs, turbined: array<real>, unsupplied: array<real>, step: nat,
                   ghost windows: nat)
    returns (ok: bool, ghost poured: seq<real>, ghost outcomes: seq<bool>)
    requires turbined != unsupplied && turbined.Length == unsupplied.Length == windows * step && step > 0
    requires Window(0, turbined.Length, turbined[..], unsupplied[..], inputs).Valid()
    modifies turbined, unsupplied
    ensures var before := Window(0, turbined.Length, old(turbined[..]), old(unsupplied[..]), inputs);
            && RemixedWeek(shave, step, before, poured, outcomes, turbined[..], unsupplied[..])
            && (shave ==> |poured| == windows)
    ensures ok <==> false !in outcomes
  {
    ok, poured, outcomes := true, [], [];
    if shave {
      ok, poured, outcomes := Remix(inputs, turbined, unsupplied, step, windows);
    }
  }

  // The levels before the remix, the remix, and the levels after it: one of the computations of the
  // levels does nothing.
  method LevelsAroundRemix(area: Area, previous: real, inflows: array<real>, overflow: array<real>,
                           turbined: array<real>, unsupplied: array<real>, pumped: array<real>, levels: array<real>,
                           inputs: Inputs, shave: bool, step: nat, ghost windows: nat)
    returns (ok: bool, ghost poured: seq<real>, ghost outcomes: seq<bool>)
    requires area.reservoir && 0.0 < area.capacity && 0 < inflows.Length == windows * step
    requires inflows.Length == overflow.Length == turbined.Length == unsupplied.Length == pumped.Length == levels.Length
    requires inflows !in {overflow, turbined, unsupplied, pumped} && overflow !in {turbined, unsupplied, pumped}
    requires levels !in {inflows, overflow, turbined, unsupplied, pumped}
    requires turbined !in {unsupplied, pumped} && unsupplied != pumped
    requires Window(0, turbined.Length, turbined[..], unsupplied[..], inputs).Valid()
    modifies inflows, overflow, levels, turbined, unsupplied
    ensures var before := Window(0, turbined.Length, old(turbined[..]), old(unsupplied[..]), inputs);
            && RemixedWeek(shave, step, before, poured, outcomes, turbined[..], unsupplied[..])
            && (shave ==> |poured| == windows)
    ensures ok <==> false !in outcomes
    ensures ok ==> Done(RecordedWeek(area, previous, old(inflows[..]), old(turbined[..]), turbined[..], pumped[..]),
                        old(overflow[..]), levels[..], inflows[..], overflow[..])
  {
    ghost var natural, chosen, spilled := inflows[..], turbined[..], overflow[..];
    var first := ComputingHydroLevels(area, false, false, previous, inflows, overflow, turbined, pumped, levels);
    ghost var l, i, o := levels[..], inflows[..], overflow[..];
    ok, poured, outcomes := RemixArea(shave, inputs, turbined, unsupplied, step, windows);
    if ok {
      ghost var w := RecordedWeek(area, previous, natural, chosen, turbined[..], pumped[..]);
      assert levels[..] == l && inflows[..] == i && overflow[..] == o;
      assert !area.heuristic ==> Done(w, spilled, l, i, o);
      assert area.heuristic ==> i == w.inflows && o == spilled;
      var second := ComputingHydroLevels(area, true, false, previous, inflows, overflow, turbined, pumped, levels);
      assert !area.heuristic ==> levels[..] == l && inflows[..] == i && overflow[..] == o;
    }
  }

  // What one week of an area starts from: a number of windows of so many hours.
  datatype WeekInput = WeekInput(inflows: seq<real>, turbined: seq<real>, unsupplied: seq<real>, pumped: seq<real>,
                                 inputs: Inputs, shave: bool, step: nat, windows: nat)
  {
    ghost function Before(): Window {
      Window(0, |turbined|, turbined, unsupplied, inputs)
    }

    ghost predicate Valid() {
      && 0 < |inflows| == |turbined| == |unsupplied| == |pumped| == windows * step && Before().Valid()
    }

    ghost predicate Fails() {
      FailsRemix(shave, step, Before(), windows)
    }
  }

  // The week that was run: its levels, and the turbined and unsupplied energy after the remix.
  datatype WeekRun = WeekRun(week: Week, poured: seq<real>, outcomes: seq<bool>, hydro: seq<real>,
                             unsupplied: seq<real>)

  ghost predicate RunOf(area: Area, input: WeekInput, start: real, run: WeekRun) {
    && RemixedWeek(input.shave, input.step, input.Before(), run.poured, run.outcomes, run.hydro, run.unsupplied)
    && run.week == RecordedWeek(area, start, input.inflows, input.turbined, run.hydro, input.pumped)
    && run.week.Valid() && 0 < |run.week.inflows|
  }

  ghost function EndLevel(run: WeekRun): real
    requires run.week.Valid()
  {
    LevelBefore(run.week, |run.week.inflows|)
  }

  // One week of one area: the guard on its initial level, the levels before the turbined energy is
  // remixed over the hours, the remix and the levels after it, and the level handed on. Areas whose
  // turbining follows a target wait for the remix; the others keep the levels of the turbining that
  // the optimisation chose.
  method RunWeek(area: Area, previous: real, input: WeekInput, inflows: array<real>, overflow: array<real>,
                 turbined: array<real>, unsupplied: array<real>, pumped: array<real>, levels: array<real>)
    returns (r: Outcome, ghost run: WeekRun)
    requires area.reservoir && 0.0 < area.capacity && input.Valid()
    requires inflows[..] == input.inflows && turbined[..] == input.turbined && pumped[..] == input.pumped
    requires unsupplied[..] == input.unsupplied && inflows.Length == overflow.Length == levels.Length
    requires inflows !in {overflow, turbined, unsupplied, pumped} && overflow !in {turbined, unsupplied, pumped}
    requires levels !in {inflows, overflow, turbined, unsupplied, pumped}
    requires turbined !in {unsupplied, pumped} && unsupplied != pumped
    modifies inflows, overflow, levels, turbined, unsupplied
    ensures !Guard(previous, area.capacity).Next? ==> r == Guard(previous, area.capacity)
    ensures Guard(previous, area.capacity).Next? ==> (r == RemixFailed <==> input.Fails())
    ensures Guard(previous, area.capacity).Next? && !input.Fails() ==>
              && RunOf(area, input, previous, run) && r == Next(EndLevel(run))
              && turbined[..] == run.hydro && unsupplied[..] == run.unsupplied
              && Done(run.week, old(overflow[..]), levels[..], inflows[..], overflow[..])
  {
    run := WeekRun(Week(0.0, 0.0, 0.0, [], [], []), [], [], [], []);
    if previous < 0.0 {
      return BelowZero, run;
    }
    if previous > area.capacity {
      return OverCapacity, run;
    }
    StepIsPositive(input);
    ghost var before := input.Before();
    var ok, poured, outcomes := LevelsAroundRemix(area, previous, inflows, overflow, turbined, unsupplied, pumped,
                                                  levels, input.inputs, input.shave, input.step, input.windows);
    OutcomesTellFailure(input.shave, input.step, before, input.windows, poured, outcomes, turbined[..], unsupplied[..]);
    if !ok {
      return RemixFailed, run;
    }
    ghost var w := RecordedWeek(area, previous, input.inflows, input.turbined, turbined[..], pumped[..]);
    run := WeekRun(w, poured, outcomes, turbined[..], unsupplied[..]);
    var next := UpdatingWeeklyFinalHydroLevel(area, levels, previous);
    LastLevel(w, levels[..]);
    r := Next(next);
  }

  lemma StepIsPositive(input: WeekInput)
    requires input.Valid()
    ensures 0 < input.step
  {
    assert input.step == 0 ==> input.windows * input.step == 0;
  }

  // ----- The weeks one after the other -------------------------------------------------------------

  // The weeks that were run, each from the level the previous one ended with.
  ghost predicate Ran(area: Area, first: real, inputs: seq<WeekInput>, runs: seq<WeekRun>, level: real) {
    && |runs| <= |inputs|
    && (forall k :: 0 <= k < |runs| ==> RunOf(area, inputs[k], runs[k].week.start, runs[k]))
    && (forall k :: 0 < k < |runs| ==> runs[k].week.start == EndLevel(runs[k - 1]))
    && (if runs == [] then level == first
        else runs[0].week.start == first && level == EndLevel(runs[|runs| - 1]))
  }

  ghost function WeeksOf(runs: seq<WeekRun>): seq<Week> {
    seq(|runs|, k requires 0 <= k < |runs| => runs[k].week)
  }

  lemma RanIsChained(area: Area, first: real, inputs: seq<WeekInput>, runs: seq<WeekRun>, level: real)
    requires Ran(area, first, inputs, runs, level)
    ensures Chained(WeeksOf(runs), area.capacity)
  {
    forall k | 0 <= k < |runs|
      ensures runs[k].week.Valid() && runs[k].week.capacity == area.capacity && 0 < |runs[k].week.inflows|
    {
      assert RunOf(area, inputs[k], runs[k].week.start, runs[k]);
    }
  }

  lemma RanOneMore(area: Area, first: real, inputs: seq<WeekInput>, runs: seq<WeekRun>, level: real, run: WeekRun)
    requires |runs| < |inputs| && Ran(area, first, inputs, runs, level)
    requires RunOf(area, inputs[|runs|], level, run)
    ensures Ran(area, first, inputs, runs + [run], EndLevel(run))
  {
    assert run.week.start == level;
  }

  // A level that some week ended with is not refused.
  lemma LastLevelIsValid(w: Week)
    requires w.Valid() && 0 < |w.inflows|
    ensures 0.0 <= LevelBefore(w, |w.inflows|) <= w.capacity
  {
    var reached := Reached(w, |w.inflows| - 1);
  }

  method RunOneWeek(area: Area, previous: real, input: WeekInput) returns (r: Outcome, ghost run: WeekRun)
    requires area.reservoir && 0.0 < area.capacity && input.Valid()
    ensures !Guard(previous, area.capacity).Next? ==> r == Guard(previous, area.capacity)
    ensures Guard(previous, area.capacity).Next? ==> (r == RemixFailed <==> input.Fails())
    ensures Guard(previous, area.capacity).Next? && !input.Fails() ==>
              RunOf(area, input, previous, run) && r == Next(EndLevel(run))
  {
    var n := |input.inflows|;
    var inflows := new real[n](i requires 0 <= i < n => input.inflows[i]);
    var turbined := new real[n](i requires 0 <= i < |input.turbined| => input.turbined[i]);
    var unsupplied := new real[n](i requires 0 <= i < |input.unsupplied| => input.unsupplied[i]);
    var pumped := new real[n](i requires 0 <= i < |input.pumped| => input.pumped[i]);
    var overflow, levels := new real[n](_ => 0.0), new real[n](_ => 0.0);
    assert inflows[..] == input.inflows && turbined[..] == input.turbined;
    assert unsupplied[..] == input.unsupplied && pumped[..] == input.pumped;
    r, run := RunWeek(area, previous, input, inflows, overflow, turbined, unsupplied, pumped, levels);
  }

  ghost predicate SomeFails(inputs: seq<WeekInput>, count: nat)
    requires count <= |inputs|
  {
    exists k :: 0 <= k < count && inputs[k].Fails()
  }

  // Over any weeks, the initial level is refused in the first week or never, and the run ends unless
  // it is refused or the remix of some week fails.
  method RunWeeks(area: Area, first: real, inputs: seq<WeekInput>) returns (r: Outcome, ghost runs: seq<WeekRun>)
    requires area.reservoir && 0.0 < area.capacity && forall k :: 0 <= k < |inputs| ==> inputs[k].Valid()
    ensures r.BelowZero? || r.OverCapacity? <==> inputs != [] && !Guard(first, area.capacity).Next?
    ensures inputs != [] && !Guard(first, area.capacity).Next? ==> r == Guard(first, area.capacity)
    ensures r.RemixFailed? <==> Guard(first, area.capacity).Next? && SomeFails(inputs, |inputs|)
    ensures r.Next? ==> |runs| == |inputs| && Ran(area, first, inputs, runs, r.level)
  {
    runs := [];
    var level := first;
    for k := 0 to |inputs|
      invariant |runs| == k && Ran(area, first, inputs, runs, level) && !SomeFails(inputs, k)
      invariant 0 < k ==> Guard(first, area.capacity).Next? && Guard(level, area.capacity).Next?
    {
      ghost var run;
      r, run := RunOneWeek(area, level, inputs[k]);
      if !r.Next? {
        return;
      }
      RanOneMore(area, first, inputs, runs, level, run);
      LastLevelIsValid(run.week);
      runs := runs + [run];
      level := r.level;
    }
    r := Next(level);
  }
}
