// When the levels on record for a week fit the turbined energy on record, and what the remix does to
// them.

module ReservoirRecords {
  import opened Reals
  import opened Sums
  import opened Reservoir
  import opened HydroRemix
  import opened RemixOutcomes

  // ----- Records and the turbining they belong to -------------------------------------------------

  // Hour h of the records of w balances with this turbined energy.
  ghost predicate Balances(w: Week, turbined: seq<real>, h: nat)
    requires w.Valid() && h < |w.inflows| == |turbined|
  {
    LevelBefore(w, h + 1)
    == LevelBefore(w, h) + Corrected(w, h) - turbined[h] + w.pumpRatio * w.pumped[h] - Spilled(w, h)
  }

  ghost predicate RecordsBalance(w: Week, turbined: seq<real>)
    requires w.Valid() && |w.inflows| == |turbined|
  {
    forall h :: 0 <= h < |w.inflows| ==> Balances(w, turbined, h)
  }

  // The levels, corrected inflows and spills of a week balance with one turbined energy only.
  lemma RecordsBalanceWithTheirOwnTurbiningOnly(w: Week, turbined: seq<real>)
    requires w.Valid() && |w.inflows| == |turbined|
    ensures RecordsBalance(w, turbined) <==> turbined == w.turbined
  {
    forall h | 0 <= h < |w.inflows|
      ensures Balances(w, turbined, h) <==> turbined[h] == w.turbined[h]
    {
      HourBalances(w, h);
    }
  }

  // The week whose levels are recorded for an area, given the turbined energy before and after the
  // remix.
  ghost function RecordedWeek(area: Area, start: real, inflows: seq<real>, turbined: seq<real>, remixed: seq<real>,
                              pumped: seq<real>): Week
  {
    Week(area.capacity, start, area.pumpRatio, inflows, if area.heuristic then remixed else turbined, pumped)
  }

  // So the records of a week balance with the turbined energy on record, which is the remixed one,
  // if and only if the area waits for the remix or the remix moves none of its energy.
  lemma RecordsBalanceExactly(area: Area, start: real, inflows: seq<real>, turbined: seq<real>, remixed: seq<real>,
                              pumped: seq<real>)
    requires 0.0 < area.capacity && |inflows| == |turbined| == |remixed| == |pumped|
    ensures RecordsBalance(RecordedWeek(area, start, inflows, turbined, remixed, pumped), remixed)
       <==> area.heuristic || remixed == turbined
  {
    RecordsBalanceWithTheirOwnTurbiningOnly(RecordedWeek(area, start, inflows, turbined, remixed, pumped), remixed);
  }

  // ----- Levels alone ----------------------------------------------------------------------------

  ghost predicate SameLevels(w: Week, v: Week)
    requires w.Valid() && v.Valid() && |w.inflows| == |v.inflows|
  {
    forall h :: 0 <= h <= |w.inflows| ==> LevelBefore(w, h) == LevelBefore(v, h)
  }

  ghost predicate SameStates(w: Week, v: Week)
    requires w.Valid() && v.Valid() && |w.inflows| == |v.inflows|
  {
    forall h :: 0 <= h <= |w.inflows| ==> SameState(w, v, h)
  }

  ghost predicate SameState(w: Week, v: Week, h: nat)
    requires w.Valid() && v.Valid() && h <= |w.inflows| == |v.inflows|
  {
    LevelBefore(w, h) == LevelBefore(v, h) && DeficitBefore(w, h) == DeficitBefore(v, h)
  }

  // The hour turbines the same, or fills the reservoir either way.
  ghost predicate MakesNoDifference(w: Week, v: Week, h: nat)
    requires w.Valid() && v.Valid() && h < |w.inflows| == |v.inflows|
  {
    || v.turbined[h] == w.turbined[h]
    || (w.capacity <= Reached(w, h) && w.capacity <= Reached(w, h) + w.turbined[h] - v.turbined[h])
  }

  // The same week with another turbined energy.
  ghost predicate TurbinesOtherwise(w: Week, v: Week) {
    w.Valid() && v.Valid() && v == w.(turbined := v.turbined)
  }

  lemma NextState(w: Week, v: Week, h: nat)
    requires TurbinesOtherwise(w, v) && h < |w.inflows| && SameState(w, v, h)
    ensures SameState(w, v, h + 1) <==> MakesNoDifference(w, v, h)
  {
    assert Reached(v, h) == Reached(w, h) + w.turbined[h] - v.turbined[h];
  }

  lemma {:induction false} StatesFitUpTo(w: Week, v: Week, h: nat)
    requires TurbinesOtherwise(w, v) && h <= |w.inflows|
    requires forall k :: 0 <= k < h ==> MakesNoDifference(w, v, k)
    ensures SameState(w, v, h)
  {
    if h > 0 {
      StatesFitUpTo(w, v, h - 1);
      NextState(w, v, h - 1);
    }
  }

  // Levels and deficits are those of another turbined energy if and only if every hour where it
  // differs fills the reservoir either way.
  lemma StatesFitExactly(w: Week, v: Week)
    requires TurbinesOtherwise(w, v)
    ensures SameStates(w, v) <==> forall h :: 0 <= h < |w.inflows| ==> MakesNoDifference(w, v, h)
  {
    if SameStates(w, v) {
      forall h | 0 <= h < |w.inflows|
        ensures MakesNoDifference(w, v, h)
      {
        assert SameState(w, v, h) && SameState(w, v, h + 1);
        NextState(w, v, h);
      }
    }
    if forall h :: 0 <= h < |w.inflows| ==> MakesNoDifference(w, v, h) {
      forall h | 0 <= h <= |w.inflows|
        ensures SameState(w, v, h)
      {
        StatesFitUpTo(w, v, h);
      }
    }
  }

  // In a week that never empties the reservoir, levels alone tell as much.
  lemma LevelsFitExactly(w: Week, v: Week)
    requires TurbinesOtherwise(w, v) && forall h :: 0 <= h < |w.inflows| ==> 0.0 < Reached(w, h)
    ensures SameLevels(w, v) <==> forall h :: 0 <= h < |w.inflows| ==> MakesNoDifference(w, v, h)
  {
    StatesFitExactly(w, v);
    if SameLevels(w, v) {
      forall h | 0 <= h <= |w.inflows|
        ensures SameState(w, v, h)
      {
        assert LevelBefore(w, h) == LevelBefore(v, h);
        if h > 0 {
          assert 0.0 < Reached(w, h - 1);
        }
      }
    } else if SameStates(w, v) {
      forall h | 0 <= h <= |w.inflows|
        ensures LevelBefore(w, h) == LevelBefore(v, h)
      {
        assert SameState(w, v, h);
      }
    }
  }

  // And if it never fills it either, only the same turbined energy has these levels.
  lemma LevelsFitNoOtherTurbining(w: Week, v: Week)
    requires TurbinesOtherwise(w, v)
    requires forall h :: 0 <= h < |w.inflows| ==> 0.0 < Reached(w, h) < w.capacity
    ensures SameLevels(w, v) <==> v.turbined == w.turbined
  {
    LevelsFitExactly(w, v);
    if SameLevels(w, v) {
      forall h | 0 <= h < |w.inflows|
        ensures v.turbined[h] == w.turbined[h]
      {
        assert MakesNoDifference(w, v, h);
      }
    }
  }

  // ----- How wrong the levels may be -----------------------------------------------------------------

  ghost function StockBefore(w: Week, h: nat): real
    requires w.Valid() && h <= |w.inflows|
  {
    LevelBefore(w, h) - DeficitBefore(w, h)
  }

  ghost function Apart(before: seq<real>, after: seq<real>): int -> real {
    h => if 0 <= h < |before| && h < |after| then Magnitude(after[h] - before[h]) else 0.0
  }

  lemma LevelOfStock(w: Week, h: nat)
    requires w.Valid() && 0 < h <= |w.inflows|
    ensures LevelBefore(w, h) == Max(StockBefore(w, h), 0.0)
    ensures StockBefore(w, h) == Min(w.capacity, Reached(w, h - 1))
  {
    var reached := Reached(w, h - 1);
  }

  lemma ReachedDiffers(w: Week, v: Week, h: nat)
    requires TurbinesOtherwise(w, v) && h < |w.inflows|
    ensures Reached(v, h) - Reached(w, h)
         == StockBefore(v, h) - StockBefore(w, h) - (v.turbined[h] - w.turbined[h])
  {
    assert v.inflows == w.inflows && v.pumped == w.pumped && v.pumpRatio == w.pumpRatio;
  }

  lemma CappedStaysClose(capacity: real, a: real, b: real, gap: real, most: real, more: real)
    requires b - a == gap - more && Magnitude(gap) <= most
    ensures Magnitude(Min(capacity, b) - Min(capacity, a)) <= most + Magnitude(more)
  {
  }

  lemma {:induction false} StocksStayClose(w: Week, v: Week, h: nat)
    requires TurbinesOtherwise(w, v) && h <= |w.inflows|
    ensures Magnitude(StockBefore(v, h) - StockBefore(w, h)) <= Sum(0, h, Apart(w.turbined, v.turbined))
  {
    if h > 0 {
      var k := h - 1;
      StocksStayClose(w, v, k);
      LevelOfStock(w, h);
      LevelOfStock(v, h);
      ReachedDiffers(w, v, k);
      CappedStaysClose(w.capacity, Reached(w, k), Reached(v, k), StockBefore(v, k) - StockBefore(w, k),
                       Sum(0, k, Apart(w.turbined, v.turbined)), v.turbined[k] - w.turbined[k]);
      assert Apart(w.turbined, v.turbined)(k) == Magnitude(v.turbined[k] - w.turbined[k]);
    }
  }

  // Levels are never further apart than the turbined energies up to then.
  lemma LevelsStayClose(w: Week, v: Week, h: nat)
    requires TurbinesOtherwise(w, v) && h <= |w.inflows|
    ensures Magnitude(LevelBefore(v, h) - LevelBefore(w, h)) <= Sum(0, h, Apart(w.turbined, v.turbined))
  {
    StocksStayClose(w, v, h);
    if h > 0 {
      LevelOfStock(w, h);
      LevelOfStock(v, h);
    }
  }

  // ----- What the remix does to the records -----------------------------------------------------------

  // The turbined and unsupplied energy of a week after the remix, which only one of the policies
  // asks for: window by window at these levels, with these outcomes.
  ghost predicate RemixedWeek(shave: bool, step: nat, before: Window, poured: seq<real>, outcomes: seq<bool>,
                              hydro: seq<real>, unsupplied: seq<real>)
  {
    if shave then
      && 0 < step && |hydro| == |before.hydro| == |poured| * step
      && WindowsDone(step, before, poured, hydro, unsupplied, outcomes)
    else hydro == before.hydro && unsupplied == before.unsupplied && poured == [] && outcomes == []
  }

  ghost function WindowOf(step: nat, before: Window, k: nat): Window {
    WindowAt(k, step, before.hydro, before.unsupplied, before.inputs)
  }

  // Every hour is in one of the windows.
  lemma {:induction false} WindowOfHour(step: nat, count: nat, h: nat) returns (k: nat)
    requires 0 < step && h < count * step
    ensures k < count && k * step <= h < k * step + step
  {
    k := count - 1;
    NextMultiple(k, step);
    if h < k * step {
      k := WindowOfHour(step, k, h);
    }
  }

  ghost predicate LeftAlone(step: nat, before: Window, poured: seq<real>, k: nat)
    requires k < |poured| && WindowOf(step, before, k).Valid()
  {
    Skipped(WindowOf(step, before, k)) || Holds(WindowOf(step, before, k), poured[k])
  }

  // Nothing is moved exactly when each window is skipped or holds what is poured already.
  lemma NothingMovedExactly(step: nat, before: Window, poured: seq<real>, outcomes: seq<bool>, hydro: seq<real>,
                            unsupplied: seq<real>)
    requires RemixedWeek(true, step, before, poured, outcomes, hydro, unsupplied)
    ensures forall k :: 0 <= k < |poured| ==> WindowOf(step, before, k).Valid()
    ensures hydro == before.hydro <==> forall k :: 0 <= k < |poured| ==> LeftAlone(step, before, poured, k)
  {
    forall k | 0 <= k < |poured|
      ensures WindowOf(step, before, k).Valid()
      ensures Unmoved(WindowOf(step, before, k), hydro) <==> LeftAlone(step, before, poured, k)
    {
      assert WindowDone(k, step, before, poured[k], hydro, unsupplied, outcomes[k]);
      UnmovedExactly(WindowOf(step, before, k), poured[k], hydro, unsupplied, outcomes[k]);
    }
    if forall k :: 0 <= k < |poured| ==> LeftAlone(step, before, poured, k) {
      forall h | 0 <= h < |hydro|
        ensures hydro[h] == before.hydro[h]
      {
        var k := WindowOfHour(step, |poured|, h);
        assert LeftAlone(step, before, poured, k) && In(WindowOf(step, before, k), h);
      }
    }
  }

  // The records of an area that does not wait for the remix balance with the turbined energy on
  // record if and only if each window is skipped or holds what is poured already.
  lemma RecordsBalanceAfterRemixExactly(area: Area, start: real, inflows: seq<real>, pumped: seq<real>, step: nat,
                                        before: Window, poured: seq<real>, outcomes: seq<bool>, hydro: seq<real>,
                                        unsupplied: seq<real>)
    requires 0.0 < area.capacity && !area.heuristic && |inflows| == |before.hydro| == |pumped|
    requires RemixedWeek(true, step, before, poured, outcomes, hydro, unsupplied)
    ensures forall k :: 0 <= k < |poured| ==> WindowOf(step, before, k).Valid()
    ensures RecordsBalance(RecordedWeek(area, start, inflows, before.hydro, hydro, pumped), hydro)
       <==> forall k :: 0 <= k < |poured| ==> LeftAlone(step, before, poured, k)
  {
    RecordsBalanceExactly(area, start, inflows, before.hydro, hydro, pumped);
    NothingMovedExactly(step, before, poured, outcomes, hydro, unsupplied);
  }

  // So an uneven window that is not skipped always breaks them.
  lemma UnevenWindowBreaksRecords(area: Area, start: real, inflows: seq<real>, pumped: seq<real>, step: nat,
                                  before: Window, poured: seq<real>, outcomes: seq<bool>, hydro: seq<real>,
                                  unsupplied: seq<real>, k: nat)
    requires 0.0 < area.capacity && !area.heuristic && |inflows| == |before.hydro| == |pumped|
    requires RemixedWeek(true, step, before, poured, outcomes, hydro, unsupplied) && k < |poured|
    requires WindowOf(step, before, k).Valid()
    requires !Skipped(WindowOf(step, before, k)) && !Even(WindowOf(step, before, k))
    ensures !RecordsBalance(RecordedWeek(area, start, inflows, before.hydro, hydro, pumped), hydro)
  {
    RecordsBalanceAfterRemixExactly(area, start, inflows, pumped, step, before, poured, outcomes, hydro, unsupplied);
    if LeftAlone(step, before, poured, k) {
      HoldingIsEven(WindowOf(step, before, k), poured[k]);
    }
  }

  // And weeks whose windows are all skipped never do.
  lemma SkippedWindowsKeepRecords(area: Area, start: real, inflows: seq<real>, pumped: seq<real>, step: nat,
                                  before: Window, poured: seq<real>, outcomes: seq<bool>, hydro: seq<real>,
                                  unsupplied: seq<real>)
    requires 0.0 < area.capacity && !area.heuristic && |inflows| == |before.hydro| == |pumped|
    requires RemixedWeek(true, step, before, poured, outcomes, hydro, unsupplied)
    requires forall k :: 0 <= k < |poured| ==> WindowOf(step, before, k).Valid() && Skipped(WindowOf(step, before, k))
    ensures RecordsBalance(RecordedWeek(area, start, inflows, before.hydro, hydro, pumped), hydro)
  {
    RecordsBalanceAfterRemixExactly(area, start, inflows, pumped, step, before, poured, outcomes, hydro, unsupplied);
    forall k | 0 <= k < |poured|
      ensures LeftAlone(step, before, poured, k)
    {
      assert Skipped(WindowOf(step, before, k));
    }
  }

  // ----- Even weeks ---------------------------------------------------------------------------------

  ghost predicate HardlyMoved(step: nat, before: Window, k: nat) {
    var w := WindowOf(step, before, k);
    w.Valid() && (Skipped(w) || Even(w))
  }

  // What the first count windows moved.
  lemma {:induction false} WindowsHardlyMove(step: nat, before: Window, poured: seq<real>, outcomes: seq<bool>,
                                             hydro: seq<real>, unsupplied: seq<real>, count: nat)
    requires RemixedWeek(true, step, before, poured, outcomes, hydro, unsupplied) && false !in outcomes
    requires count <= |poured| && forall k :: 0 <= k < count ==> HardlyMoved(step, before, k)
    ensures Sum(0, count * step, Apart(before.hydro, hydro)) <= count as real * TOLERANCE
  {
    if count > 0 {
      var k := count - 1;
      WindowsHardlyMove(step, before, poured, outcomes, hydro, unsupplied, k);
      var w, apart := WindowOf(step, before, k), Apart(before.hydro, hydro);
      assert WindowDone(k, step, before, poured[k], hydro, unsupplied, outcomes[k]) && HardlyMoved(step, before, k);
      assert outcomes[k] in outcomes;
      EvenWindowHardlyMoves(w, poured[k], hydro, unsupplied);
      NextMultiple(k, step);
      forall h | w.lo <= h < w.hi
        ensures MoveTerm(w, hydro)(h) == apart(h)
      {
        assert In(w, h);
      }
      SumExtensional(w.lo, w.hi, MoveTerm(w, hydro), apart);
      SumSplit(0, w.lo, w.hi, apart);
    }
  }

  lemma {:induction false} ApartAddsUp(before: seq<real>, after: seq<real>, h: nat, n: nat)
    requires h <= n
    ensures 0.0 <= Sum(0, h, Apart(before, after)) <= Sum(0, n, Apart(before, after))
    decreases n
  {
    if n > 0 {
      ApartAddsUp(before, after, if h < n then h else h - 1, n - 1);
      assert 0.0 <= Apart(before, after)(n - 1);
    }
  }

  // When every window is skipped or even and all succeed, no level on record is further than a
  // hundredth per window from that of the turbined energy on record.
  lemma EvenWeeksAreNearlyRight(area: Area, start: real, inflows: seq<real>, pumped: seq<real>, step: nat,
                                before: Window, poured: seq<real>, outcomes: seq<bool>, hydro: seq<real>,
                                unsupplied: seq<real>, h: nat)
    requires 0.0 < area.capacity && |inflows| == |before.hydro| == |pumped| && h <= |inflows|
    requires RemixedWeek(true, step, before, poured, outcomes, hydro, unsupplied) && false !in outcomes
    requires forall k :: 0 <= k < |poured| ==> HardlyMoved(step, before, k)
    ensures var w := RecordedWeek(area, start, inflows, before.hydro, hydro, pumped);
            Magnitude(LevelBefore(w.(turbined := hydro), h) - LevelBefore(w, h)) <= |poured| as real * TOLERANCE
  {
    var w := RecordedWeek(area, start, inflows, before.hydro, hydro, pumped);
    LevelsStayClose(w, w.(turbined := hydro), h);
    WindowsHardlyMove(step, before, poured, outcomes, hydro, unsupplied, |poured|);
    ApartAddsUp(before.hydro, hydro, h, |inflows|);
    if area.heuristic {
      SumZero(0, h, Apart(w.turbined, hydro));
    }
  }

  // ----- A week with wrong records -----------------------------------------------------------------

  // Two hours: the first turbines all its energy, the second lacks one unit and could turbine it.
  ghost function Shifted(): Window {
    Window(0, 2, [1.0, 0.0], [0.0, 1.0], Inputs([2.0, 1.0], [1.0, 1.0], [0.0, 0.0], [0.0, 0.0]))
  }

  lemma ShiftedHours()
    ensures var w := Shifted();
      && w.Valid() && InMix(w, 0) && InMix(w, 1) && Floor(w, 0) == 1.0 && Floor(w, 1) == 0.0
      && Limit(w, 0) == Limit(w, 1) == 1.0 && !Skipped(w) && !Even(w)
  {
    var w := Shifted();
    assert Sum(0, 1, At(w.unsupplied)) == At(w.unsupplied)(0) == 0.0;
    assert Sum(0, 2, At(w.unsupplied)) == At(w.unsupplied)(1) == 1.0;
    assert Sum(0, 1, MovableTerm(w)) == MovableTerm(w)(0) == 1.0;
    assert Sum(0, 2, MovableTerm(w)) == 1.0;
    assert Uneven(w, 0, 1);
  }

  // The first level poured at is 1, which moves the unit to the second hour.
  lemma ShiftedIsRemixed()
    ensures Shifted().Valid() && Remixed(Shifted(), 1.0, [0.0, 1.0], [1.0, 0.0], true)
  {
    ShiftedHours();
    ShiftedEnergies();
    assert Turned(Shifted(), 0) == (0.0, 2.0);
    assert Middle(Shifted(), 0) == 1.0 && Hits(Shifted(), 1.0);
    assert Converges(Shifted());
  }

  lemma ShiftedEnergies()
    ensures var w := Shifted();
      && w.Valid() && Served(w, 0, 1.0) == 0.0 && Served(w, 1, 1.0) == 1.0
      && Stock(w, 1.0) == MixedHydro(w) == 1.0 && FirstBottom(w, 2) == 0.0 && FirstTop(w, 2) == 2.0
  {
    var w := Shifted();
    ShiftedHours();
    assert Sum(0, 1, StockTerm(w, 1.0)) == StockTerm(w, 1.0)(0) == 0.0;
    assert Sum(0, 2, StockTerm(w, 1.0)) == StockTerm(w, 1.0)(1) == 1.0;
    assert Sum(0, 1, HydroTerm(w)) == HydroTerm(w)(0) == 1.0;
    assert Sum(0, 2, HydroTerm(w)) == 1.0;
    assert FirstBottom(w, 1) == 1.0 && FirstTop(w, 1) == 2.0;
  }

  // In this week of an area that does not wait for the remix, the level recorded after the first
  // hour is 4, and that of the turbined energy on record is 5. No outcome of the remix has records
  // that balance.
  lemma RecordedLevelsMayBeWrong()
    ensures var area, before, hydro := Area(true, false, 10.0, 1.0), Shifted(), [0.0, 1.0];
            var w := RecordedWeek(area, 5.0, [0.0, 0.0], before.hydro, hydro, [0.0, 0.0]);
      && RemixedWeek(true, 2, before, [1.0], [true], hydro, [1.0, 0.0])
      && LevelBefore(w, 1) == 4.0 && LevelBefore(w.(turbined := hydro), 1) == 5.0
    ensures forall poured, outcomes, hydro, unsupplied ::
              RemixedWeek(true, 2, Shifted(), poured, outcomes, hydro, unsupplied) ==>
                !RecordsBalance(RecordedWeek(Area(true, false, 10.0, 1.0), 5.0, [0.0, 0.0], Shifted().hydro, hydro,
                                             [0.0, 0.0]), hydro)
  {
    var area, before, hydro := Area(true, false, 10.0, 1.0), Shifted(), [0.0, 1.0];
    ShiftedHours();
    ShiftedIsRemixed();
    assert WindowAt(0, 2, before.hydro, before.unsupplied, before.inputs) == before;
    assert WindowDone(0, 2, before, 1.0, hydro, [1.0, 0.0], true);
    assert WindowsDone(2, before, [1.0], hydro, [1.0, 0.0], [true]);
    var w := RecordedWeek(area, 5.0, [0.0, 0.0], before.hydro, hydro, [0.0, 0.0]);
    assert Reached(w, 0) == 4.0 && Reached(w.(turbined := hydro), 0) == 5.0;
    forall poured, outcomes, hydro, unsupplied | RemixedWeek(true, 2, before, poured, outcomes, hydro, unsupplied)
      ensures !RecordsBalance(RecordedWeek(area, 5.0, [0.0, 0.0], before.hydro, hydro, [0.0, 0.0]), hydro)
    {
      assert |poured| == 1;
      UnevenWindowBreaksRecords(area, 5.0, [0.0, 0.0], [0.0, 0.0], 2, before, poured, outcomes, hydro, unsupplied, 0);
    }
  }
}
