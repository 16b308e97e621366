// Kirchhoff constraints: the hourly constraints on the weighted flows of a closed loop of lines.

module LoopConstraints {
  import opened Reals
  import opened Sums

  // from and with are areas; the other fields are hourly, except the last two, which summarise
  // the hours as far as the code looks at them.
  datatype Line = Line(origin: int, end: int, impedance: seq<real>, loopFlow: seq<real>, shiftMinus: seq<real>,
                       shiftPlus: seq<real>, ac: bool, impedanceChanges: nat, shiftsEqual: bool)

  datatype Options = Options(hours: nat, loopFlow: bool, phaseShift: bool, infinity: real)

  ghost predicate Hourly(line: Line, hours: nat) {
    |line.impedance| == |line.loopFlow| == |line.shiftMinus| == |line.shiftPlus| == hours
  }

  // ----- Closed loops ------------------------------------------------------------------------

  ghost predicate Connects(line: Line, a: int, b: int) {
    (line.origin == a && line.end == b) || (line.origin == b && line.end == a)
  }

  ghost function Next(n: nat, i: int): int {
    if i + 1 == n then 0 else i + 1
  }

  // The lines go round these areas, each one visited once.
  ghost predicate GoesRound(loop: seq<Line>, areas: seq<int>) {
    && |loop| == |areas| >= 1
    && (forall i, j :: 0 <= i < j < |areas| ==> areas[i] != areas[j])
    && (forall i :: 0 <= i < |loop| ==> Connects(loop[i], areas[i], areas[Next(|areas|, i)]))
  }

  // 1 for a line that the round crosses from its origin to its end, -1 for the others.
  ghost function Direction(loop: seq<Line>, areas: seq<int>, i: int): real
    requires 0 <= i < |loop| == |areas|
  {
    if loop[i].origin == areas[i] then 1.0 else -1.0
  }

  // ----- The signs of a cycle ------------------------------------------------------------------

  method Signs(loop: seq<Line>, ghost areas: seq<int>) returns (signs: seq<real>)
    requires GoesRound(loop, areas)
    ensures |signs| == |loop|
    ensures forall i :: 0 <= i < |loop| ==>
              signs[i] == Direction(loop, areas, 0) * Direction(loop, areas, i)
  {
    signs := [];
    var previous := loop[0];
    var sign := 1.0;
    for i := 0 to |loop|
      invariant |signs| == i
      invariant i > 0 ==> previous == loop[i - 1] && sign == signs[i - 1]
      invariant forall k :: 0 <= k < i ==> signs[k] == Direction(loop, areas, 0) * Direction(loop, areas, k)
    {
      if i == 0 {
        sign := 1.0;
      } else {
        ConsecutiveDirections(loop, areas, i);
        if previous.end == loop[i].origin || previous.origin == loop[i].end {
        } else if previous.origin == loop[i].origin || previous.end == loop[i].end {
          sign := sign * -1.0;
        } else {
          assert false;
        }
      }
      signs := signs + [sign];
      previous := loop[i];
    }
  }

  // Two consecutive lines are crossed the same way exactly when the end of one is the origin of
  // the other.
  lemma ConsecutiveDirections(loop: seq<Line>, areas: seq<int>, i: int)
    requires GoesRound(loop, areas) && 0 < i < |loop|
    ensures Direction(loop, areas, i) == Direction(loop, areas, i - 1) <==>
            (loop[i - 1].end == loop[i].origin || loop[i - 1].origin == loop[i].end)
    ensures Direction(loop, areas, i) == -Direction(loop, areas, i - 1) <==>
            !(loop[i - 1].end == loop[i].origin || loop[i - 1].origin == loop[i].end)
    ensures loop[i - 1].end == loop[i].origin || loop[i - 1].origin == loop[i].end
            || loop[i - 1].origin == loop[i].origin || loop[i - 1].end == loop[i].end
  {
    assert Connects(loop[i - 1], areas[i - 1], areas[Next(|areas|, i - 1)]);
    assert Connects(loop[i], areas[i], areas[Next(|areas|, i)]);
  }

  // ----- Kirchhoff's law on the loop -------------------------------------------------------------

  ghost function Drop(line: Line, potential: int -> real): real {
    potential(line.origin) - potential(line.end)
  }

  ghost function SignedDrop(loop: seq<Line>, signs: seq<real>, potential: int -> real): int -> real
    requires |signs| == |loop|
  {
    i => if 0 <= i < |loop| then signs[i] * Drop(loop[i], potential) else 0.0
  }

  ghost predicate SignsOf(loop: seq<Line>, areas: seq<int>, signs: seq<real>) {
    && GoesRound(loop, areas) && |signs| == |loop|
    && forall i :: 0 <= i < |loop| ==> signs[i] == Direction(loop, areas, 0) * Direction(loop, areas, i)
  }

  // The potential of the area reached after i lines.
  ghost function PotentialAt(areas: seq<int>, potential: int -> real): int -> real
    requires |areas| >= 1
  {
    i => if 0 <= i < |areas| then potential(areas[i]) else potential(areas[0])
  }

  lemma DropAlongRound(loop: seq<Line>, areas: seq<int>, potential: int -> real, i: int)
    requires GoesRound(loop, areas) && 0 <= i < |loop|
    ensures Direction(loop, areas, i) * Drop(loop[i], potential)
         == PotentialAt(areas, potential)(i) - PotentialAt(areas, potential)(i + 1)
  {
    assert Connects(loop[i], areas[i], areas[Next(|areas|, i)]);
  }

  ghost function Oriented(areas: seq<int>, potential: int -> real, forward: bool): int -> real
    requires |areas| >= 1
  {
    i => if forward then -PotentialAt(areas, potential)(i) else PotentialAt(areas, potential)(i)
  }

  lemma SignedDropAt(loop: seq<Line>, areas: seq<int>, signs: seq<real>, potential: int -> real, i: int)
    requires SignsOf(loop, areas, signs) && 0 <= i < |loop|
    ensures var p := Oriented(areas, potential, Direction(loop, areas, 0) == 1.0);
            SignedDrop(loop, signs, potential)(i) == p(i + 1) - p(i)
  {
    DropAlongRound(loop, areas, potential, i);
    var drop := Drop(loop[i], potential);
    assert signs[i] == 1.0 || signs[i] == -1.0;
    assert signs[i] * drop == if signs[i] == 1.0 then drop else -drop;
    assert Direction(loop, areas, i) * drop == if Direction(loop, areas, i) == 1.0 then drop else -drop;
  }

  // With these signs the potential drops around the loop sum to zero.
  lemma DropsCancel(loop: seq<Line>, areas: seq<int>, signs: seq<real>, potential: int -> real)
    requires SignsOf(loop, areas, signs)
    ensures Sum(0, |loop|, SignedDrop(loop, signs, potential)) == 0.0
  {
    var p := Oriented(areas, potential, Direction(loop, areas, 0) == 1.0);
    forall i | 0 <= i < |loop|
      ensures SignedDrop(loop, signs, potential)(i) == p(i + 1) - p(i)
    {
      SignedDropAt(loop, areas, signs, potential, i);
    }
    SumTelescopes(0, |loop|, SignedDrop(loop, signs, potential), p);
    assert PotentialAt(areas, potential)(|loop|) == PotentialAt(areas, potential)(0);
  }

  // ----- Weights and second members of one hour --------------------------------------------------

  ghost predicate LoopHourly(loop: seq<Line>, hours: nat) {
    forall i :: 0 <= i < |loop| ==> Hourly(loop[i], hours)
  }

  // The part of the constraint that does not depend on the phase shift.
  function Fixed(o: Options, line: Line, h: nat): real
    requires Hourly(line, o.hours) && h < o.hours
  {
    if o.loopFlow then line.impedance[h] * line.loopFlow[h] else 0.0
  }

  function Shift(o: Options, x: real): real { if o.phaseShift then x else 0.0 }

  function LowOf(o: Options, line: Line, sign: real, h: nat): real
    requires Hourly(line, o.hours) && h < o.hours
  {
    Fixed(o, line, h) * sign + Min(Shift(o, line.shiftMinus[h]) * sign, Shift(o, line.shiftPlus[h]) * sign)
  }

  function HighOf(o: Options, line: Line, sign: real, h: nat): real
    requires Hourly(line, o.hours) && h < o.hours
  {
    Fixed(o, line, h) * sign + Max(Shift(o, line.shiftMinus[h]) * sign, Shift(o, line.shiftPlus[h]) * sign)
  }

  function EqualOf(o: Options, line: Line, sign: real, h: nat): real
    requires Hourly(line, o.hours) && h < o.hours
  {
    (Fixed(o, line, h) + Shift(o, line.shiftMinus[h])) * sign
  }

  // The cycle as the code holds it for one mesh.
  datatype Cycle = Cycle(o: Options, loop: seq<Line>, signs: seq<real>, both: bool) {
    ghost predicate Valid() {
      LoopHourly(loop, o.hours) && |signs| == |loop|
    }
  }

  ghost predicate At(c: Cycle, h: int, i: int) {
    0 <= i < |c.loop| && 0 <= h < c.o.hours
  }

  ghost function LowTerm(c: Cycle, h: int): int -> real
    requires c.Valid()
  {
    i => if At(c, h, i) then LowOf(c.o, c.loop[i], c.signs[i], h) else 0.0
  }

  ghost function HighTerm(c: Cycle, h: int): int -> real
    requires c.Valid()
  {
    i => if At(c, h, i) then HighOf(c.o, c.loop[i], c.signs[i], h) else 0.0
  }

  ghost function EqualTerm(c: Cycle, h: int): int -> real
    requires c.Valid()
  {
    i => if At(c, h, i) then EqualOf(c.o, c.loop[i], c.signs[i], h) else 0.0
  }

  ghost function ImpedancesAt(c: Cycle, h: nat): seq<real>
    requires c.Valid() && h < c.o.hours
  {
    seq(|c.loop|, i requires 0 <= i < |c.loop| && Hourly(c.loop[i], c.o.hours) => c.loop[i].impedance[h])
  }

  function Weight(impedance: real, sign: real): real { impedance * sign }

  ghost predicate WeightsFor(c: Cycle, impedances: seq<real>, weights: seq<real>) {
    && |weights| == |impedances| == |c.signs|
    && forall i :: 0 <= i < |weights| ==> weights[i] == Weight(impedances[i], c.signs[i])
  }

  // Adds one line's share to the two sums; the equality uses the second one only.
  method AddLine(c: Cycle, h: nat, i: nat, highBefore: real, lowBefore: real) returns (high: real, low: real)
    requires c.Valid() && At(c, h, i)
    requires c.both ==> highBefore == Sum(0, i, HighTerm(c, h)) && lowBefore == Sum(0, i, LowTerm(c, h))
    requires !c.both ==> lowBefore == Sum(0, i, EqualTerm(c, h))
    ensures c.both ==> high == Sum(0, i + 1, HighTerm(c, h)) && low == Sum(0, i + 1, LowTerm(c, h))
    ensures !c.both ==> low == Sum(0, i + 1, EqualTerm(c, h))
  {
    high, low := highBefore, lowBefore;
    if c.both {
      low := low + LowOf(c.o, c.loop[i], c.signs[i], h);
      high := high + HighOf(c.o, c.loop[i], c.signs[i], h);
    } else {
      low := low + EqualOf(c.o, c.loop[i], c.signs[i], h);
    }
  }

  method HourOf(c: Cycle, h: nat) returns (impedances: seq<real>, weights: seq<real>, high: real, low: real)
    requires c.Valid() && h < c.o.hours
    ensures impedances == ImpedancesAt(c, h) && WeightsFor(c, impedances, weights)
    ensures c.both ==> high == Sum(0, |c.loop|, HighTerm(c, h)) && low == Sum(0, |c.loop|, LowTerm(c, h))
    ensures !c.both ==> low == Sum(0, |c.loop|, EqualTerm(c, h))
  {
    impedances, weights, high, low := [], [], 0.0, 0.0;
    for i := 0 to |c.loop|
      invariant |impedances| == |weights| == i
      invariant forall k :: 0 <= k < i ==> impedances[k] == c.loop[k].impedance[h]
      invariant forall k :: 0 <= k < i ==> weights[k] == Weight(impedances[k], c.signs[k])
      invariant c.both ==> high == Sum(0, i, HighTerm(c, h)) && low == Sum(0, i, LowTerm(c, h))
      invariant !c.both ==> low == Sum(0, i, EqualTerm(c, h))
    {
      impedances := impedances + [c.loop[i].impedance[h]];
      high, low := AddLine(c, h, i, high, low);
      weights := weights + [Weight(impedances[i], c.signs[i])];
    }
    assert impedances == ImpedancesAt(c, h);
  }

  // ----- States: one constraint per set of impedances --------------------------------------------

  // upper, lower and equal are the three columns of second members, by hour.
  datatype State = State(impedances: seq<real>, upper: seq<real>, lower: seq<real>, equal: seq<real>,
                         weights: seq<real>)

  method NewState(impedances: seq<real>, o: Options) returns (s: State)
    ensures s.impedances == impedances && StateSized(s, o.hours)
    ensures forall h :: 0 <= h < o.hours ==> Open(o, s, h)
  {
    s := State(impedances, seq(o.hours, _ => o.infinity), seq(o.hours, _ => -1.0 * o.infinity),
               seq(o.hours, _ => 0.0), []);
  }

  ghost predicate StateSized(s: State, hours: nat) {
    |s.upper| == |s.lower| == |s.equal| == hours
  }

  // The state does not constrain hour h.
  ghost predicate Open(o: Options, s: State, h: nat) {
    StateSized(s, o.hours) && h < o.hours && s.upper[h] == o.infinity && s.lower[h] == -1.0 * o.infinity
  }

  // The state holds hour h with the weights and second members of that hour.
  ghost predicate Holds(c: Cycle, s: State, h: nat)
    requires c.Valid() && h < c.o.hours
  {
    && StateSized(s, c.o.hours)
    && s.impedances == ImpedancesAt(c, h) && WeightsFor(c, s.impedances, s.weights)
    && (if c.both then s.upper[h] == Sum(0, |c.loop|, HighTerm(c, h)) && s.lower[h] == Sum(0, |c.loop|, LowTerm(c, h))
        else s.equal[h] == Sum(0, |c.loop|, EqualTerm(c, h)))
  }

  ghost predicate Found(c: Cycle, states: seq<State>, h: nat)
    requires c.Valid() && h < c.o.hours
  {
    exists k :: 0 <= k < |states| && Holds(c, states[k], h)
  }

  ghost predicate NotHeld(c: Cycle, s: State, h: nat, done: nat)
    requires c.Valid() && h < c.o.hours
  {
    h >= done || s.impedances != ImpedancesAt(c, h)
  }

  // States are told apart by their impedances, every hour done is held by one of them, and the
  // hours that a state does not hold are open in it.
  ghost predicate Consistent(c: Cycle, states: seq<State>, done: nat)
    requires c.Valid() && done <= c.o.hours
  {
    && (forall j, k :: 0 <= j < k < |states| ==> states[j].impedances != states[k].impedances)
    && (forall k :: 0 <= k < |states| ==> StateSized(states[k], c.o.hours))
    && (forall h :: 0 <= h < done ==> Found(c, states, h))
    && (forall k, h :: 0 <= k < |states| && 0 <= h < c.o.hours && NotHeld(c, states[k], h, done) ==>
          Open(c.o, states[k], h))
  }

  // Every state has the impedances of some hour.
  ghost predicate Sourced(c: Cycle, states: seq<State>)
    requires c.Valid()
  {
    forall k :: 0 <= k < |states| ==> ImpedancesOfSomeHour(c, states[k])
  }

  ghost predicate ImpedancesOfSomeHour(c: Cycle, s: State)
    requires c.Valid()
  {
    exists h :: 0 <= h < c.o.hours && s.impedances == ImpedancesAt(c, h)
  }

  class StateList {
    var states: seq<State>

    constructor (c: Cycle)
      requires c.Valid() && 0 < c.o.hours
      ensures Consistent(c, states, 0)
      ensures |states| == 1 && states[0].impedances == ImpedancesAt(c, 0)
    {
      var impedances := [];
      for i := 0 to |c.loop|
        invariant impedances == ImpedancesAt(c, 0)[..i]
      {
        assert At(c, 0, i);
        impedances := impedances + [c.loop[i].impedance[0]];
      }
      var s := NewState(impedances, c.o);
      states := [s];
    }

    // The place of the state with these impedances, added at the end if there is none.
    method GetState(impedances: seq<real>, o: Options) returns (k: nat)
      modifies this
      ensures k < |states| && states[k].impedances == impedances
      ensures old(states) <= states
      ensures if |states| == |old(states)| then states == old(states)
              else k == |old(states)| && |states| == k + 1 && StateSized(states[k], o.hours)
                   && forall h :: 0 <= h < o.hours ==> Open(o, states[k], h)
      ensures |states| > |old(states)| ==> forall j :: 0 <= j < |old(states)| ==> states[j].impedances != impedances
    {
      k := 0;
      while k < |states| && states[k].impedances != impedances
        invariant k <= |states|
        invariant forall j :: 0 <= j < k ==> states[j].impedances != impedances
      {
        k := k + 1;
      }
      if k == |states| {
        var s := NewState(impedances, o);
        states := states + [s];
      }
    }
  }

  lemma ConsistentAfterGet(c: Cycle, states: seq<State>, states': seq<State>, done: nat, added: State)
    requires c.Valid() && done <= c.o.hours && Consistent(c, states, done)
    requires states' == states + [added] && StateSized(added, c.o.hours)
    requires forall h :: 0 <= h < c.o.hours ==> Open(c.o, added, h)
    requires forall j :: 0 <= j < |states| ==> states[j].impedances != added.impedances
    ensures Consistent(c, states', done)
  {
    forall h | 0 <= h < done
      ensures Found(c, states', h)
    {
      assert Found(c, states, h);
      var k :| 0 <= k < |states| && Holds(c, states[k], h);
      assert Holds(c, states'[k], h);
    }
  }

  ghost predicate UpdatedFor(c: Cycle, before: State, after: State, h: nat)
    requires c.Valid() && h < c.o.hours
  {
    && StateSized(before, c.o.hours) && StateSized(after, c.o.hours)
    && after.impedances == before.impedances && Holds(c, after, h)
    && forall g :: 0 <= g < c.o.hours && g != h ==>
         after.upper[g] == before.upper[g] && after.lower[g] == before.lower[g] && after.equal[g] == before.equal[g]
  }

  // Storing an hour in its state keeps the hours stored before it: equal impedances have equal weights.
  lemma ConsistentAfterStore(c: Cycle, states: seq<State>, k: nat, after: State, h: nat)
    requires c.Valid() && h < c.o.hours && Consistent(c, states, h) && k < |states|
    requires UpdatedFor(c, states[k], after, h)
    ensures Consistent(c, states[k := after], h + 1)
  {
    var states' := states[k := after];
    forall g | 0 <= g < h + 1
      ensures Found(c, states', g)
    {
      if g == h {
        assert Holds(c, states'[k], h);
      } else {
        assert Found(c, states, g);
        var j :| 0 <= j < |states| && Holds(c, states[j], g);
        assert Holds(c, states'[j], g);
      }
    }
    forall j, g | 0 <= j < |states| && 0 <= g < c.o.hours && NotHeld(c, states'[j], g, h + 1)
      ensures Open(c.o, states'[j], g)
    {
      assert states'[j].impedances == states[j].impedances;
      assert NotHeld(c, states[j], g, h);
      assert Open(c.o, states[j], g);
    }
  }

  method StoreHour(c: Cycle, list: StateList, h: nat)
    requires c.Valid() && h < c.o.hours && Consistent(c, list.states, h)
    modifies list
    ensures Consistent(c, list.states, h + 1)
    ensures old(Sourced(c, list.states)) ==> Sourced(c, list.states)
  {
    var impedances, weights, high, low := HourOf(c, h);
    ghost var before := list.states;
    var k := list.GetState(impedances, c.o);
    if |list.states| > |before| {
      assert list.states == before + [list.states[k]];
      ConsistentAfterGet(c, before, list.states, h, list.states[k]);
    }
    var s := list.states[k];
    if c.both {
      s := s.(upper := s.upper[h := Max(high, low)], lower := s.lower[h := Min(low, high)]);
      LowBelowHigh(c, h);
    } else {
      s := s.(equal := s.equal[h := low]);
    }
    s := s.(weights := weights);
    ConsistentAfterStore(c, list.states, k, s, h);
    list.states := list.states[k := s];
    assert ImpedancesOfSomeHour(c, s);
  }

  lemma LowBelowHigh(c: Cycle, h: nat)
    requires c.Valid() && h < c.o.hours
    ensures Sum(0, |c.loop|, LowTerm(c, h)) <= Sum(0, |c.loop|, HighTerm(c, h))
  {
    forall i | 0 <= i < |c.loop|
      ensures LowTerm(c, h)(i) <= HighTerm(c, h)(i)
    {
      assert At(c, h, i);
    }
    SumMonotone(0, |c.loop|, LowTerm(c, h), HighTerm(c, h));
  }

  predicate NeedsBothBounds(line: Line) {
    line.impedanceChanges > 0 || (line.ac && !line.shiftsEqual)
  }

  // Builds the constraints of one loop, unless the calendar is not the whole year.
  method BuildLoop(o: Options, loop: seq<Line>, calendarStart: nat, calendarEnd: nat, ghost areas: seq<int>)
    returns (built: bool, c: Cycle, list: StateList)
    requires LoopHourly(loop, o.hours) && 0 < o.hours && GoesRound(loop, areas)
    ensures built <==> calendarStart == 1 && calendarEnd == 8760
    ensures c.o == o && c.loop == loop && c.Valid() && SignsOf(loop, areas, c.signs)
    ensures built ==>
              (c.both <==>
                 (exists line :: line in loop && (line.impedanceChanges > 0 || (line.ac && !line.shiftsEqual))))
    ensures built ==> Consistent(c, list.states, o.hours) && Sourced(c, list.states)
  {
    var signs := Signs(loop, areas);
    var both := false;
    for i := 0 to |loop|
      invariant both <==> exists k :: 0 <= k < i && NeedsBothBounds(loop[k])
    {
      if NeedsBothBounds(loop[i]) {
        both := true;
      }
    }
    c := Cycle(o, loop, signs, both);
    list := new StateList(c);
    assert ImpedancesOfSomeHour(c, list.states[0]);
    built := calendarStart == 1 && calendarEnd == 8760;
    if built {
      for h := 0 to o.hours
        invariant Consistent(c, list.states, h) && Sourced(c, list.states)
      {
        StoreHour(c, list, h);
      }
    }
  }

  // ----- The summaries of a line ------------------------------------------------------------------

  // Goes through the hours of a line, except the last one; changes is the number of different
  // impedances it has changed to. Fails on a shift range that is the wrong way round.
  method UpdateLine(impedance: seq<real>, shiftMinus: seq<real>, shiftPlus: seq<real>, phaseShift: bool)
    returns (ok: bool, changes: nat, shiftsEqual: bool)
    requires |impedance| == |shiftMinus| == |shiftPlus| >= 1
    ensures ok <==> !phaseShift || forall h :: 0 <= h < |impedance| - 1 ==> shiftMinus[h] <= shiftPlus[h]
    ensures ok ==> (changes == 0 <==> forall h :: 0 <= h < |impedance| ==> impedance[h] == impedance[0])
    ensures ok && phaseShift ==>
              (shiftsEqual <==> forall h :: 0 <= h < |impedance| - 1 ==> shiftMinus[h] == shiftPlus[h])
    ensures !phaseShift ==> shiftsEqual
  {
    var impedances := {};
    shiftsEqual := true;
    for hour := 0 to |impedance| - 1
      invariant impedances == {} <==> forall h :: 0 <= h <= hour ==> impedance[h] == impedance[0]
      invariant phaseShift ==> (shiftsEqual <==> forall h :: 0 <= h < hour ==> shiftMinus[h] == shiftPlus[h])
      invariant phaseShift ==> forall h :: 0 <= h < hour ==> shiftMinus[h] <= shiftPlus[h]
      invariant !phaseShift ==> shiftsEqual
    {
      if impedance[hour + 1] != impedance[hour] {
        impedances := impedances + {impedance[hour + 1]};
      }
      if phaseShift {
        if shiftMinus[hour] != shiftPlus[hour] {
          shiftsEqual := false;
        }
        if shiftMinus[hour] > shiftPlus[hour] {
          return false, 0, shiftsEqual;
        }
      }
    }
    return true, |impedances|, shiftsEqual;
  }

  // The lines' summaries, as this pass leaves them.
  ghost predicate Summarised(line: Line, o: Options) {
    && Hourly(line, o.hours)
    && (line.impedanceChanges == 0 ==> forall h :: 0 <= h < o.hours ==> line.impedance[h] == line.impedance[0])
    && (o.phaseShift ==>
          (line.shiftsEqual <==> forall h :: 0 <= h < o.hours - 1 ==> line.shiftMinus[h] == line.shiftPlus[h]))
  }
}
