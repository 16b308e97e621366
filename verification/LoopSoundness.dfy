// Which flows satisfy the loop constraints: when those that obey the law of every line do.

module LoopSoundness {
  import opened LoopConstraints
  import opened Reals
  import opened Sums

  // ----- Physical flows satisfy the constraints ------------------------------------------------------

  // The law of one line: apart from the loop flow, its flow drops the potential by its impedance, and
  // so does the phase shift; where the options leave one of them out, it is zero.
  ghost predicate LineLawHolds(c: Cycle, h: nat, i: nat, flow: real, potential: int -> real, phase: real)
    requires c.Valid() && h < c.o.hours && i < |c.loop|
  {
    var line := c.loop[i];
    var loopFlow := if c.o.loopFlow then line.loopFlow[h] else 0.0;
    var shift := if c.o.phaseShift then phase else 0.0;
    line.impedance[h] * (flow - loopFlow) - shift == potential(line.origin) - potential(line.end)
  }

  lemma LawInTerms(impedance: real, flow: real, loopFlow: real, shift: real, drop: real)
    ensures impedance * (flow - loopFlow) - shift == drop <==> impedance * flow - impedance * loopFlow - shift == drop
  {
    assert impedance * (flow - loopFlow) == impedance * flow - impedance * loopFlow;
  }

  // The same with what the code adds up.
  lemma LineLawRead(c: Cycle, h: nat, i: nat, flow: real, potential: int -> real, phase: real)
    requires c.Valid() && h < c.o.hours && i < |c.loop|
    ensures LineLawHolds(c, h, i, flow, potential, phase) <==>
            c.loop[i].impedance[h] * flow - Fixed(c.o, c.loop[i], h) - Shift(c.o, phase) == Drop(c.loop[i], potential)
  {
    var line := c.loop[i];
    var loopFlow := if c.o.loopFlow then line.loopFlow[h] else 0.0;
    assert Fixed(c.o, line, h) == line.impedance[h] * loopFlow;
    LawInTerms(line.impedance[h], flow, loopFlow, Shift(c.o, phase), Drop(line, potential));
  }

  ghost predicate AllowedAt(line: Line, h: nat, phase: real)
    requires h < |line.shiftMinus| == |line.shiftPlus|
  {
    Min(line.shiftMinus[h], line.shiftPlus[h]) <= phase <= Max(line.shiftMinus[h], line.shiftPlus[h])
  }

  // Phase shifts within the ranges of the lines.
  ghost predicate Allowed(c: Cycle, h: nat, phase: int -> real)
    requires c.Valid() && h < c.o.hours
  {
    forall i :: 0 <= i < |c.loop| ==> AllowedAt(c.loop[i], h, phase(i))
  }

  // In hour h these flows, potentials and phase shifts obey the law of every line, as far as
  // the options take loop flows and phase shifts into account.
  ghost predicate Physical(c: Cycle, h: nat, flow: int -> real, potential: int -> real, phase: int -> real)
    requires c.Valid() && h < c.o.hours
  {
    && Allowed(c, h, phase)
    && forall i :: 0 <= i < |c.loop| ==> LineLawHolds(c, h, i, flow(i), potential, phase(i))
  }

  // The weighted sum of the flows that the constraint bounds.
  ghost function WeightedFlow(s: State, flow: int -> real): int -> real {
    i => if 0 <= i < |s.weights| then s.weights[i] * flow(i) else 0.0
  }

  ghost function ShiftedTerm(c: Cycle, h: int, phase: int -> real): int -> real
    requires c.Valid()
  {
    i => if At(c, h, i) then (Fixed(c.o, c.loop[i], h) + Shift(c.o, phase(i))) * c.signs[i] else 0.0
  }

  // The weighted flow of a physical flow is what the loop flows and phase shifts make it.
  lemma WeightedFlowIsFixed(c: Cycle, areas: seq<int>, s: State, h: nat, flow: int -> real, potential: int -> real,
                            phase: int -> real)
    requires c.Valid() && h < c.o.hours && SignsOf(c.loop, areas, c.signs)
    requires Holds(c, s, h) && Physical(c, h, flow, potential, phase)
    ensures Sum(0, |c.loop|, WeightedFlow(s, flow)) == Sum(0, |c.loop|, ShiftedTerm(c, h, phase))
  {
    var drops, shifts, flows := SignedDrop(c.loop, c.signs, potential), ShiftedTerm(c, h, phase), WeightedFlow(s, flow);
    forall i | 0 <= i < |c.loop|
      ensures flows(i) == shifts(i) + drops(i)
    {
      WeightedFlowAt(c, s, h, flow, potential, phase, i);
    }
    SumOfTwo(|c.loop|, shifts, drops, flows);
    DropsCancel(c.loop, areas, c.signs, potential);
  }

  lemma SumOfTwo(n: nat, f: int -> real, g: int -> real, both: int -> real)
    requires forall i :: 0 <= i < n ==> both(i) == f(i) + g(i)
    ensures Sum(0, n, both) == Sum(0, n, f) + Sum(0, n, g)
  {
    SumLinear(0, n, f, 1.0, g, both);
  }

  lemma WeightedFlowAt(c: Cycle, s: State, h: nat, flow: int -> real, potential: int -> real, phase: int -> real,
                       i: int)
    requires c.Valid() && h < c.o.hours && 0 <= i < |c.loop|
    requires Holds(c, s, h) && Physical(c, h, flow, potential, phase)
    ensures WeightedFlow(s, flow)(i)
         == ShiftedTerm(c, h, phase)(i) + SignedDrop(c.loop, c.signs, potential)(i)
  {
    assert At(c, h, i);
    var line, sign := c.loop[i], c.signs[i];
    assert s.impedances[i] == line.impedance[h];
    LineLawRead(c, h, i, flow(i), potential, phase(i));
    LineLaw(line.impedance[h], sign, flow(i), Fixed(c.o, line, h) + Shift(c.o, phase(i)), Drop(line, potential));
  }

  lemma LineLaw(impedance: real, sign: real, flow: real, fixed: real, drop: real)
    requires impedance * flow - fixed == drop
    ensures impedance * sign * flow == fixed * sign + sign * drop
  {
    assert impedance * sign * flow == (impedance * flow) * sign;
    assert (fixed + drop) * sign == fixed * sign + drop * sign;
  }

  lemma TermBetween(c: Cycle, areas: seq<int>, h: nat, flow: int -> real, potential: int -> real, phase: int -> real,
                    i: int)
    requires c.Valid() && h < c.o.hours && SignsOf(c.loop, areas, c.signs)
    requires Physical(c, h, flow, potential, phase) && 0 <= i < |c.loop|
    ensures LowTerm(c, h)(i) <= ShiftedTerm(c, h, phase)(i) <= HighTerm(c, h)(i)
  {
    assert At(c, h, i);
    var line, sign := c.loop[i], c.signs[i];
    assert sign == 1.0 || sign == -1.0;
    var fixed := Fixed(c.o, line, h);
    assert (fixed + Shift(c.o, phase(i))) * sign == fixed * sign + Shift(c.o, phase(i)) * sign;
  }

  lemma TermsBetween(c: Cycle, areas: seq<int>, h: nat, flow: int -> real, potential: int -> real,
                     phase: int -> real)
    requires c.Valid() && h < c.o.hours && SignsOf(c.loop, areas, c.signs)
    requires Physical(c, h, flow, potential, phase)
    ensures Sum(0, |c.loop|, LowTerm(c, h)) <= Sum(0, |c.loop|, ShiftedTerm(c, h, phase))
         <= Sum(0, |c.loop|, HighTerm(c, h))
  {
    forall i | 0 <= i < |c.loop|
      ensures LowTerm(c, h)(i) <= ShiftedTerm(c, h, phase)(i) <= HighTerm(c, h)(i)
    {
      TermBetween(c, areas, h, flow, potential, phase, i);
    }
    SumMonotone(0, |c.loop|, LowTerm(c, h), ShiftedTerm(c, h, phase));
    SumMonotone(0, |c.loop|, ShiftedTerm(c, h, phase), HighTerm(c, h));
  }

  // With two-sided constraints, every physically possible flow of an hour lies between the two
  // second members of the state that holds the hour.
  lemma PhysicalFlowsAreWithinBounds(c: Cycle, areas: seq<int>, s: State, h: nat, flow: int -> real,
                                     potential: int -> real, phase: int -> real)
    requires c.Valid() && h < c.o.hours && SignsOf(c.loop, areas, c.signs) && c.both
    requires Holds(c, s, h) && Physical(c, h, flow, potential, phase)
    ensures s.lower[h] <= Sum(0, |c.loop|, WeightedFlow(s, flow)) <= s.upper[h]
  {
    WeightedFlowIsFixed(c, areas, s, h, flow, potential, phase);
    TermsBetween(c, areas, h, flow, potential, phase);
  }

  // With an equality constraint, this is the law only if no line's phase shift may vary.
  ghost predicate EqualityIsSound(c: Cycle, s: State, h: nat)
    requires c.Valid() && h < c.o.hours && StateSized(s, c.o.hours)
  {
    forall flow, potential, phase :: Physical(c, h, flow, potential, phase) ==>
      Sum(0, |c.loop|, WeightedFlow(s, flow)) == s.equal[h]
  }

  ghost predicate ShiftsFixed(c: Cycle, h: nat)
    requires c.Valid() && h < c.o.hours
  {
    forall i :: 0 <= i < |c.loop| ==> c.loop[i].shiftMinus[h] == c.loop[i].shiftPlus[h]
  }

  lemma FixedShiftsGiveEquality(c: Cycle, areas: seq<int>, s: State, h: nat)
    requires c.Valid() && h < c.o.hours && SignsOf(c.loop, areas, c.signs) && !c.both && Holds(c, s, h)
    requires !c.o.phaseShift || ShiftsFixed(c, h)
    ensures EqualityIsSound(c, s, h)
  {
    forall flow, potential, phase | Physical(c, h, flow, potential, phase)
      ensures Sum(0, |c.loop|, WeightedFlow(s, flow)) == s.equal[h]
    {
      WeightedFlowIsFixed(c, areas, s, h, flow, potential, phase);
      FixedTerms(c, h, flow, potential, phase);
      SumExtensional(0, |c.loop|, ShiftedTerm(c, h, phase), EqualTerm(c, h));
    }
  }

  lemma FixedTerms(c: Cycle, h: nat, flow: int -> real, potential: int -> real, phase: int -> real)
    requires c.Valid() && h < c.o.hours && Physical(c, h, flow, potential, phase)
    requires !c.o.phaseShift || ShiftsFixed(c, h)
    ensures forall i :: 0 <= i < |c.loop| ==> ShiftedTerm(c, h, phase)(i) == EqualTerm(c, h)(i)
  {
    forall i | 0 <= i < |c.loop|
      ensures ShiftedTerm(c, h, phase)(i) == EqualTerm(c, h)(i)
    {
      assert At(c, h, i);
      assert Shift(c.o, phase(i)) == Shift(c.o, c.loop[i].shiftMinus[h]);
    }
  }

  lemma Quotient(a: real, b: real)
    requires b != 0.0
    ensures b * (a / b) == a
  {
  }

  ghost function OneShiftMoved(c: Cycle, h: nat, j: int): int -> real
    requires c.Valid() && h < c.o.hours
  {
    i => if At(c, h, i) then (if i == j then c.loop[i].shiftPlus[h] else c.loop[i].shiftMinus[h]) else 0.0
  }

  lemma {:induction false} OneTermDiffers(lo: int, hi: int, f: int -> real, g: int -> real, j: int)
    requires lo <= j < hi
    requires forall i :: lo <= i < hi && i != j ==> f(i) == g(i)
    requires f(j) != g(j)
    ensures Sum(lo, hi, f) != Sum(lo, hi, g)
    decreases hi - lo
  {
    if j < hi - 1 {
      OneTermDiffers(lo, hi - 1, f, g, j);
    } else {
      SumExtensional(lo, hi - 1, f, g);
    }
  }

  lemma MovedPhaseIsAllowed(c: Cycle, h: nat, j: int)
    requires c.Valid() && h < c.o.hours
    ensures Allowed(c, h, OneShiftMoved(c, h, j))
  {
    forall i | 0 <= i < |c.loop|
      ensures AllowedAt(c.loop[i], h, OneShiftMoved(c, h, j)(i))
    {
      assert At(c, h, i);
    }
  }

  lemma MovedTerms(c: Cycle, areas: seq<int>, h: nat, j: int)
    requires c.Valid() && h < c.o.hours && SignsOf(c.loop, areas, c.signs)
    requires c.o.phaseShift && 0 <= j < |c.loop| && c.loop[j].shiftMinus[h] != c.loop[j].shiftPlus[h]
    ensures forall i :: 0 <= i < |c.loop| && i != j ==>
              ShiftedTerm(c, h, OneShiftMoved(c, h, j))(i) == EqualTerm(c, h)(i)
    ensures ShiftedTerm(c, h, OneShiftMoved(c, h, j))(j) != EqualTerm(c, h)(j)
  {
    forall i | 0 <= i < |c.loop| && i != j
      ensures ShiftedTerm(c, h, OneShiftMoved(c, h, j))(i) == EqualTerm(c, h)(i)
    {
      MovedTermAt(c, h, j, i);
    }
    MovedTermAt(c, h, j, j);
    var fixed, sign := Fixed(c.o, c.loop[j], h), c.signs[j];
    assert sign == 1.0 || sign == -1.0;
    SignKeepsDifference(fixed + c.loop[j].shiftPlus[h], fixed + c.loop[j].shiftMinus[h], sign);
  }

  lemma MovedTermAt(c: Cycle, h: nat, j: int, i: int)
    requires c.Valid() && h < c.o.hours && c.o.phaseShift && 0 <= i < |c.loop|
    ensures EqualTerm(c, h)(i) == (Fixed(c.o, c.loop[i], h) + c.loop[i].shiftMinus[h]) * c.signs[i]
    ensures ShiftedTerm(c, h, OneShiftMoved(c, h, j))(i)
         == (Fixed(c.o, c.loop[i], h) + if i == j then c.loop[i].shiftPlus[h] else c.loop[i].shiftMinus[h]) * c.signs[i]
  {
    assert At(c, h, i);
    var phase := OneShiftMoved(c, h, j);
    assert phase(i) == if i == j then c.loop[i].shiftPlus[h] else c.loop[i].shiftMinus[h];
    assert Shift(c.o, phase(i)) == phase(i) && Shift(c.o, c.loop[i].shiftMinus[h]) == c.loop[i].shiftMinus[h];
    assert ShiftedTerm(c, h, phase)(i) == (Fixed(c.o, c.loop[i], h) + Shift(c.o, phase(i))) * c.signs[i];
  }

  lemma SignKeepsDifference(a: real, b: real, sign: real)
    requires a != b && (sign == 1.0 || sign == -1.0)
    ensures a * sign != b * sign
  {
  }

  // ----- Flows for given phase shifts --------------------------------------------------------------

  // Potentials along the round that drop by these amounts.
  ghost function IndexIn(areas: seq<int>, a: int): nat
    requires a in areas
  {
    var i :| 0 <= i < |areas| && areas[i] == a;
    i
  }

  ghost function PotentialFor(areas: seq<int>, drops: int -> real): int -> real {
    a => if a in areas then -Sum(0, IndexIn(areas, a), drops) else 0.0
  }

  lemma PotentialForAt(areas: seq<int>, drops: int -> real, i: nat)
    requires i < |areas| && forall j, k :: 0 <= j < k < |areas| ==> areas[j] != areas[k]
    ensures PotentialFor(areas, drops)(areas[i]) == -Sum(0, i, drops)
  {
    assert areas[i] in areas;
    assert IndexIn(areas, areas[i]) == i;
  }

  // A drop of line i as seen along the round.
  ghost function Along(loop: seq<Line>, areas: seq<int>, i: int, drop: real): real
    requires 0 <= i < |loop| == |areas|
  {
    if loop[i].origin == areas[i] then drop else -drop
  }

  // Drops that cancel around the loop are those of some potentials.
  lemma DropsAreRealised(loop: seq<Line>, areas: seq<int>, drops: int -> real, i: nat)
    requires GoesRound(loop, areas) && Sum(0, |loop|, drops) == 0.0 && i < |loop|
    ensures Along(loop, areas, i, Drop(loop[i], PotentialFor(areas, drops))) == drops(i)
  {
    DropAlong(loop, areas, PotentialFor(areas, drops), i);
    PotentialAround(areas, drops, i);
    PotentialAround(areas, drops, i + 1);
    SumOneMore(i, drops);
  }

  lemma DropAlong(loop: seq<Line>, areas: seq<int>, potential: int -> real, i: nat)
    requires GoesRound(loop, areas) && i < |loop|
    ensures Along(loop, areas, i, Drop(loop[i], potential))
         == PotentialAt(areas, potential)(i) - PotentialAt(areas, potential)(i + 1)
  {
    DropAlongRound(loop, areas, potential, i);
    var drop := Drop(loop[i], potential);
    assert Direction(loop, areas, i) * drop == if loop[i].origin == areas[i] then drop else -drop;
  }

  lemma SumOneMore(i: nat, f: int -> real)
    ensures Sum(0, i + 1, f) == Sum(0, i, f) + f(i)
  {
  }

  lemma PotentialAround(areas: seq<int>, drops: int -> real, i: nat)
    requires i <= |areas| && 1 <= |areas| && forall j, k :: 0 <= j < k < |areas| ==> areas[j] != areas[k]
    requires Sum(0, |areas|, drops) == 0.0
    ensures PotentialAt(areas, PotentialFor(areas, drops))(i) == -Sum(0, i, drops)
  {
    PotentialForAt(areas, drops, if i == |areas| then 0 else i);
  }

  // What line i would have to drop to carry no flow, and the same along the round.
  ghost function IdleDrop(c: Cycle, h: nat, i: nat, phase: real): real
    requires c.Valid() && h < c.o.hours && i < |c.loop|
  {
    -(Fixed(c.o, c.loop[i], h) + Shift(c.o, phase))
  }

  ghost function IdleDrops(c: Cycle, areas: seq<int>, h: int, phase: int -> real): int -> real
    requires c.Valid() && |areas| == |c.loop|
  {
    i => if At(c, h, i) then Along(c.loop, areas, i, IdleDrop(c, h, i, phase(i))) else 0.0
  }

  ghost function Replaced(f: int -> real, j: int, v: real): int -> real {
    i => if i == j then v else f(i)
  }

  lemma {:induction false} SumReplaced(lo: int, hi: int, f: int -> real, j: int, v: real)
    requires lo <= j < hi
    ensures Sum(lo, hi, Replaced(f, j, v)) == Sum(lo, hi, f) - f(j) + v
    decreases hi - lo
  {
    if j < hi - 1 {
      SumReplaced(lo, hi - 1, f, j, v);
    } else {
      SumExtensional(lo, hi - 1, Replaced(f, j, v), f);
    }
  }

  // All lines idle but line j, which takes what keeps the drops cancelling.
  ghost function OneLineDrops(c: Cycle, areas: seq<int>, h: int, phase: int -> real, j: int): int -> real
    requires c.Valid() && |areas| == |c.loop|
  {
    var idle := IdleDrops(c, areas, h, phase);
    Replaced(idle, j, idle(j) - Sum(0, |c.loop|, idle))
  }

  // What line j then lacks of its idle drop.
  ghost function Lack(c: Cycle, areas: seq<int>, h: int, phase: int -> real, j: int): real
    requires c.Valid() && 0 <= j < |c.loop| == |areas|
  {
    Along(c.loop, areas, j, Sum(0, |c.loop|, IdleDrops(c, areas, h, phase)))
  }

  ghost function LackAt(c: Cycle, areas: seq<int>, h: int, phase: int -> real, j: int, i: int): real
    requires c.Valid() && 0 <= j < |c.loop| == |areas|
  {
    if i == j then Lack(c, areas, h, phase, j) else 0.0
  }

  ghost function OneLineFlow(c: Cycle, areas: seq<int>, h: int, phase: int -> real, j: int): int -> real
    requires c.Valid() && |areas| == |c.loop| && At(c, h, j)
  {
    i => if i != j || c.loop[j].impedance[h] == 0.0 then 0.0
         else -Lack(c, areas, h, phase, j) / c.loop[j].impedance[h]
  }

  lemma DropOfIdleLine(c: Cycle, areas: seq<int>, h: nat, phase: int -> real, j: nat, i: nat)
    requires c.Valid() && h < c.o.hours && GoesRound(c.loop, areas) && j < |c.loop| && i < |c.loop|
    requires Sum(0, |c.loop|, OneLineDrops(c, areas, h, phase, j)) == 0.0
    ensures Drop(c.loop[i], PotentialFor(areas, OneLineDrops(c, areas, h, phase, j)))
         == IdleDrop(c, h, i, phase(i)) - LackAt(c, areas, h, phase, j, i)
  {
    assert At(c, h, i);
    DropsAreRealised(c.loop, areas, OneLineDrops(c, areas, h, phase, j), i);
  }

  // What a flow drops over an impedance.
  ghost predicate Overcomes(impedance: real, flow: real, drop: real) {
    impedance * flow == drop
  }

  lemma FlowOfIdleLine(c: Cycle, areas: seq<int>, h: nat, phase: int -> real, j: nat, i: nat)
    requires c.Valid() && h < c.o.hours && |areas| == |c.loop| && j < |c.loop| && i < |c.loop|
    requires c.loop[j].impedance[h] != 0.0 || Sum(0, |c.loop|, IdleDrops(c, areas, h, phase)) == 0.0
    ensures Overcomes(c.loop[i].impedance[h], OneLineFlow(c, areas, h, phase, j)(i), -LackAt(c, areas, h, phase, j, i))
  {
    assert At(c, h, j);
    if i == j && c.loop[j].impedance[h] != 0.0 {
      Quotient(-Lack(c, areas, h, phase, j), c.loop[j].impedance[h]);
    }
  }

  // One line with an impedance absorbs everything; without any, the idle drops must cancel.
  lemma OneLineFlowIsPhysical(c: Cycle, areas: seq<int>, h: nat, phase: int -> real, j: nat)
    requires c.Valid() && h < c.o.hours && GoesRound(c.loop, areas) && j < |c.loop| && Allowed(c, h, phase)
    requires c.loop[j].impedance[h] != 0.0 || Sum(0, |c.loop|, IdleDrops(c, areas, h, phase)) == 0.0
    ensures Physical(c, h, OneLineFlow(c, areas, h, phase, j), PotentialFor(areas, OneLineDrops(c, areas, h, phase, j)),
                     phase)
  {
    var idle := IdleDrops(c, areas, h, phase);
    SumReplaced(0, |c.loop|, idle, j, idle(j) - Sum(0, |c.loop|, idle));
    forall i | 0 <= i < |c.loop|
      ensures LineLawHolds(c, h, i, OneLineFlow(c, areas, h, phase, j)(i),
                           PotentialFor(areas, OneLineDrops(c, areas, h, phase, j)), phase(i))
    {
      OneLineObeys(c, areas, h, phase, j, i);
    }
  }

  lemma OneLineObeys(c: Cycle, areas: seq<int>, h: nat, phase: int -> real, j: nat, i: nat)
    requires c.Valid() && h < c.o.hours && GoesRound(c.loop, areas) && j < |c.loop| && i < |c.loop|
    requires c.loop[j].impedance[h] != 0.0 || Sum(0, |c.loop|, IdleDrops(c, areas, h, phase)) == 0.0
    requires Sum(0, |c.loop|, OneLineDrops(c, areas, h, phase, j)) == 0.0
    ensures LineLawHolds(c, h, i, OneLineFlow(c, areas, h, phase, j)(i),
                         PotentialFor(areas, OneLineDrops(c, areas, h, phase, j)), phase(i))
  {
    DropOfIdleLine(c, areas, h, phase, j, i);
    FlowOfIdleLine(c, areas, h, phase, j, i);
    LawOfIdle(c, h, i, OneLineFlow(c, areas, h, phase, j)(i), PotentialFor(areas, OneLineDrops(c, areas, h, phase, j)),
              phase(i), LackAt(c, areas, h, phase, j, i));
  }

  lemma LawOfIdle(c: Cycle, h: nat, i: nat, flow: real, potential: int -> real, phase: real, lack: real)
    requires c.Valid() && h < c.o.hours && i < |c.loop| && Overcomes(c.loop[i].impedance[h], flow, -lack)
    requires Drop(c.loop[i], potential) == IdleDrop(c, h, i, phase) - lack
    ensures LineLawHolds(c, h, i, flow, potential, phase)
  {
    LineLawRead(c, h, i, flow, potential, phase);
  }

  // If one line's shift may vary and some line has an impedance, moving the shift breaks the equality.
  lemma VaryingShiftBreaksEquality(c: Cycle, areas: seq<int>, s: State, h: nat, j: nat, z: nat)
    requires c.Valid() && h < c.o.hours && SignsOf(c.loop, areas, c.signs) && !c.both && Holds(c, s, h)
    requires c.o.phaseShift && j < |c.loop| && c.loop[j].shiftMinus[h] != c.loop[j].shiftPlus[h]
    requires z < |c.loop| && c.loop[z].impedance[h] != 0.0
    ensures !EqualityIsSound(c, s, h)
  {
    var phase := OneShiftMoved(c, h, j);
    MovedPhaseIsAllowed(c, h, j);
    OneLineFlowIsPhysical(c, areas, h, phase, z);
    var flow, potential := OneLineFlow(c, areas, h, phase, z), PotentialFor(areas, OneLineDrops(c, areas, h, phase, z));
    WeightedFlowIsFixed(c, areas, s, h, flow, potential, phase);
    MovedTerms(c, areas, h, j);
    OneTermDiffers(0, |c.loop|, ShiftedTerm(c, h, phase), EqualTerm(c, h), j);
  }

  ghost predicate Impedes(c: Cycle, h: nat)
    requires c.Valid() && h < c.o.hours
  {
    exists i :: 0 <= i < |c.loop| && c.loop[i].impedance[h] != 0.0
  }

  // On a loop with an impedance in hour h, every physically possible flow satisfies the equality
  // exactly when phase shifts are ignored or fixed on all lines of the loop in that hour.
  lemma EqualityIsSoundExactlyWhenShiftsAreFixed(c: Cycle, areas: seq<int>, s: State, h: nat)
    requires c.Valid() && h < c.o.hours && SignsOf(c.loop, areas, c.signs) && !c.both && Holds(c, s, h)
    requires Impedes(c, h)
    ensures EqualityIsSound(c, s, h) <==> !c.o.phaseShift || ShiftsFixed(c, h)
  {
    if !c.o.phaseShift || ShiftsFixed(c, h) {
      FixedShiftsGiveEquality(c, areas, s, h);
    } else {
      var j :| 0 <= j < |c.loop| && c.loop[j].shiftMinus[h] != c.loop[j].shiftPlus[h];
      var z :| 0 <= z < |c.loop| && c.loop[z].impedance[h] != 0.0;
      VaryingShiftBreaksEquality(c, areas, s, h, j, z);
    }
  }

  // ----- A loop without any impedance ----------------------------------------------------------------

  ghost function Nothing(): int -> real {
    i => 0.0
  }

  lemma NoWeight(impedance: real, sign: real, flow: real)
    requires impedance == 0.0
    ensures Weight(impedance, sign) * flow == 0.0
  {
    assert Weight(impedance, sign) == 0.0;
  }

  lemma NothingWeighed(c: Cycle, s: State, h: nat, flow: int -> real)
    requires c.Valid() && h < c.o.hours && Holds(c, s, h) && !Impedes(c, h)
    ensures Sum(0, |c.loop|, WeightedFlow(s, flow)) == 0.0
  {
    forall i | 0 <= i < |c.loop|
      ensures WeightedFlow(s, flow)(i) == 0.0
    {
      assert s.impedances[i] == c.loop[i].impedance[h] == 0.0;
      assert s.weights[i] == Weight(s.impedances[i], c.signs[i]);
      assert WeightedFlow(s, flow)(i) == s.weights[i] * flow(i);
      NoWeight(s.impedances[i], c.signs[i], flow(i));
    }
    SumZero(0, |c.loop|, WeightedFlow(s, flow));
  }

  // Between its least and its largest value a sum of bounded terms takes every value.
  lemma {:induction false} TermsReach(n: nat, low: int -> real, high: int -> real, total: real)
    returns (terms: int -> real)
    requires forall i :: 0 <= i < n ==> low(i) <= high(i)
    requires Sum(0, n, low) <= total <= Sum(0, n, high)
    ensures forall i :: 0 <= i < n ==> low(i) <= terms(i) <= high(i)
    ensures Sum(0, n, terms) == total
  {
    if n == 0 {
      terms := low;
    } else {
      SumMonotone(0, n - 1, low, high);
      var last := Max(low(n - 1), total - Sum(0, n - 1, high));
      var before := TermsReach(n - 1, low, high, total - last);
      terms := Replaced(before, n - 1, last);
      SumExtensional(0, n - 1, before, terms);
    }
  }

  lemma Signed(x: real, sign: real)
    requires sign == 1.0 || sign == -1.0
    ensures x * sign == if sign == 1.0 then x else -x
  {
  }

  // The phase shift that gives a line this term.
  ghost function PhaseFor(c: Cycle, h: int, terms: int -> real): int -> real
    requires c.Valid()
  {
    i => if At(c, h, i) then (if c.signs[i] == 1.0 then terms(i) else -terms(i)) - Fixed(c.o, c.loop[i], h) else 0.0
  }

  lemma PhaseFromTerm(fixed: real, minus: real, plus: real, sign: real, term: real, phase: real)
    requires sign == 1.0 || sign == -1.0
    requires fixed * sign + Min(minus * sign, plus * sign) <= term <= fixed * sign + Max(minus * sign, plus * sign)
    requires phase == (if sign == 1.0 then term else -term) - fixed
    ensures Min(minus, plus) <= phase <= Max(minus, plus) && (fixed + phase) * sign == term
  {
    Signed(fixed, sign);
    Signed(minus, sign);
    Signed(plus, sign);
    Signed(fixed + phase, sign);
  }

  lemma PhaseForTerm(c: Cycle, areas: seq<int>, h: nat, terms: int -> real, i: nat)
    requires c.Valid() && h < c.o.hours && SignsOf(c.loop, areas, c.signs) && c.o.phaseShift && i < |c.loop|
    requires LowTerm(c, h)(i) <= terms(i) <= HighTerm(c, h)(i)
    ensures AllowedAt(c.loop[i], h, PhaseFor(c, h, terms)(i))
    ensures ShiftedTerm(c, h, PhaseFor(c, h, terms))(i) == terms(i)
  {
    assert At(c, h, i);
    var line, sign := c.loop[i], c.signs[i];
    assert sign == 1.0 || sign == -1.0;
    assert LowTerm(c, h)(i) == LowOf(c.o, line, sign, h) && HighTerm(c, h)(i) == HighOf(c.o, line, sign, h);
    var phase := PhaseFor(c, h, terms)(i);
    PhaseFromTerm(Fixed(c.o, line, h), line.shiftMinus[h], line.shiftPlus[h], sign, terms(i), phase);
    assert ShiftedTerm(c, h, PhaseFor(c, h, terms))(i) == (Fixed(c.o, line, h) + phase) * sign;
  }

  // Phase shifts within their ranges whose terms have this sum.
  lemma PhasesReach(c: Cycle, areas: seq<int>, h: nat, total: real) returns (phase: int -> real)
    requires c.Valid() && h < c.o.hours && SignsOf(c.loop, areas, c.signs) && c.o.phaseShift
    requires Sum(0, |c.loop|, LowTerm(c, h)) <= total <= Sum(0, |c.loop|, HighTerm(c, h))
    ensures Allowed(c, h, phase) && Sum(0, |c.loop|, ShiftedTerm(c, h, phase)) == total
  {
    LowsBelowHighs(c, h);
    var terms := TermsReach(|c.loop|, LowTerm(c, h), HighTerm(c, h), total);
    phase := PhaseFor(c, h, terms);
    forall i | 0 <= i < |c.loop|
      ensures AllowedAt(c.loop[i], h, phase(i)) && ShiftedTerm(c, h, phase)(i) == terms(i)
    {
      PhaseForTerm(c, areas, h, terms, i);
    }
    SumExtensional(0, |c.loop|, ShiftedTerm(c, h, phase), terms);
  }

  // And nothing less would do: on a loop with an impedance, every value between the two second members
  // is that of some physically possible flow.
  lemma BoundsAreReached(c: Cycle, areas: seq<int>, s: State, h: nat, total: real)
    returns (flow: int -> real, potential: int -> real, phase: int -> real)
    requires c.Valid() && h < c.o.hours && SignsOf(c.loop, areas, c.signs) && c.both && Holds(c, s, h)
    requires Impedes(c, h) && s.lower[h] <= total <= s.upper[h]
    ensures Physical(c, h, flow, potential, phase) && Sum(0, |c.loop|, WeightedFlow(s, flow)) == total
  {
    phase := PhasesWithin(c, areas, h, total);
    flow, potential := FlowOfPhases(c, areas, s, h, phase);
  }

  lemma PhasesWithin(c: Cycle, areas: seq<int>, h: nat, total: real) returns (phase: int -> real)
    requires c.Valid() && h < c.o.hours && SignsOf(c.loop, areas, c.signs)
    requires Sum(0, |c.loop|, LowTerm(c, h)) <= total <= Sum(0, |c.loop|, HighTerm(c, h))
    ensures Allowed(c, h, phase) && Sum(0, |c.loop|, ShiftedTerm(c, h, phase)) == total
  {
    if c.o.phaseShift {
      phase := PhasesReach(c, areas, h, total);
    } else {
      phase := OneShiftMoved(c, h, 0);
      MovedPhaseIsAllowed(c, h, 0);
      NothingShifts(c, h, phase);
    }
  }

  // On a loop with an impedance, any phase shifts within their ranges leave a possible flow.
  lemma FlowOfPhases(c: Cycle, areas: seq<int>, s: State, h: nat, phase: int -> real)
    returns (flow: int -> real, potential: int -> real)
    requires c.Valid() && h < c.o.hours && SignsOf(c.loop, areas, c.signs) && Holds(c, s, h)
    requires Impedes(c, h) && Allowed(c, h, phase)
    ensures Physical(c, h, flow, potential, phase)
    ensures Sum(0, |c.loop|, WeightedFlow(s, flow)) == Sum(0, |c.loop|, ShiftedTerm(c, h, phase))
  {
    var z :| 0 <= z < |c.loop| && c.loop[z].impedance[h] != 0.0;
    OneLineFlowIsPhysical(c, areas, h, phase, z);
    flow, potential := OneLineFlow(c, areas, h, phase, z), PotentialFor(areas, OneLineDrops(c, areas, h, phase, z));
    WeightedFlowIsFixed(c, areas, s, h, flow, potential, phase);
  }

  lemma NothingShiftsAt(c: Cycle, h: nat, phase: int -> real, i: nat)
    requires c.Valid() && h < c.o.hours && !c.o.phaseShift && i < |c.loop|
    ensures LowTerm(c, h)(i) == HighTerm(c, h)(i) == ShiftedTerm(c, h, phase)(i)
  {
    assert At(c, h, i);
    var line, sign := c.loop[i], c.signs[i];
    SameProduct(Shift(c.o, line.shiftMinus[h]), 0.0, sign);
    SameProduct(Shift(c.o, line.shiftPlus[h]), 0.0, sign);
    SameProduct(Fixed(c.o, line, h) + Shift(c.o, phase(i)), Fixed(c.o, line, h), sign);
    assert LowTerm(c, h)(i) == LowOf(c.o, line, sign, h) && HighTerm(c, h)(i) == HighOf(c.o, line, sign, h);
  }

  lemma NothingShifts(c: Cycle, h: nat, phase: int -> real)
    requires c.Valid() && h < c.o.hours && !c.o.phaseShift
    ensures Sum(0, |c.loop|, LowTerm(c, h)) == Sum(0, |c.loop|, HighTerm(c, h))
         == Sum(0, |c.loop|, ShiftedTerm(c, h, phase))
  {
    forall i | 0 <= i < |c.loop|
      ensures LowTerm(c, h)(i) == HighTerm(c, h)(i) == ShiftedTerm(c, h, phase)(i)
    {
      NothingShiftsAt(c, h, phase, i);
    }
    SumExtensional(0, |c.loop|, LowTerm(c, h), HighTerm(c, h));
    SumExtensional(0, |c.loop|, LowTerm(c, h), ShiftedTerm(c, h, phase));
  }

  lemma LowsBelowHighs(c: Cycle, h: nat)
    requires c.Valid() && h < c.o.hours
    ensures forall i :: 0 <= i < |c.loop| ==> LowTerm(c, h)(i) <= HighTerm(c, h)(i)
  {
    forall i | 0 <= i < |c.loop|
      ensures LowTerm(c, h)(i) <= HighTerm(c, h)(i)
    {
      assert At(c, h, i);
    }
  }

  lemma IdleDropAt(c: Cycle, areas: seq<int>, h: nat, phase: int -> real, i: nat)
    requires c.Valid() && h < c.o.hours && SignsOf(c.loop, areas, c.signs) && i < |c.loop|
    ensures IdleDrops(c, areas, h, phase)(i)
         == if Direction(c.loop, areas, 0) == 1.0 then -ShiftedTerm(c, h, phase)(i) else ShiftedTerm(c, h, phase)(i)
  {
    assert At(c, h, i);
    var rest := Fixed(c.o, c.loop[i], h) + Shift(c.o, phase(i));
    assert c.signs[i] == Direction(c.loop, areas, 0) * Direction(c.loop, areas, i);
    assert c.signs[i] == 1.0 || c.signs[i] == -1.0;
    Signed(rest, c.signs[i]);
    assert ShiftedTerm(c, h, phase)(i) == rest * c.signs[i];
    assert IdleDrop(c, h, i, phase(i)) == -rest;
  }

  // Terms that cancel leave no idle drop around the loop.
  lemma IdleDropsCancel(c: Cycle, areas: seq<int>, h: nat, phase: int -> real)
    requires c.Valid() && h < c.o.hours && SignsOf(c.loop, areas, c.signs)
    requires Sum(0, |c.loop|, ShiftedTerm(c, h, phase)) == 0.0
    ensures Sum(0, |c.loop|, IdleDrops(c, areas, h, phase)) == 0.0
  {
    var factor := if Direction(c.loop, areas, 0) == 1.0 then -1.0 else 1.0;
    forall i | 0 <= i < |c.loop|
      ensures IdleDrops(c, areas, h, phase)(i) == Nothing()(i) + factor * ShiftedTerm(c, h, phase)(i)
    {
      IdleDropAt(c, areas, h, phase, i);
    }
    SumLinear(0, |c.loop|, Nothing(), factor, ShiftedTerm(c, h, phase), IdleDrops(c, areas, h, phase));
    SumZero(0, |c.loop|, Nothing());
  }

  // Without impedances the equality weighs no flow: it is sound exactly when it asks for zero, or
  // when no phase shifts within their ranges cancel, so that no flow is physically possible.
  lemma EqualityWithoutImpedanceIsSoundExactly(c: Cycle, areas: seq<int>, s: State, h: nat)
    requires c.Valid() && h < c.o.hours && SignsOf(c.loop, areas, c.signs) && !c.both && Holds(c, s, h)
    requires !Impedes(c, h)
    ensures EqualityIsSound(c, s, h) <==>
            s.equal[h] == 0.0
            || !(Sum(0, |c.loop|, LowTerm(c, h)) <= 0.0 <= Sum(0, |c.loop|, HighTerm(c, h)))
  {
    if s.equal[h] != 0.0 && Sum(0, |c.loop|, LowTerm(c, h)) <= 0.0 <= Sum(0, |c.loop|, HighTerm(c, h)) {
      EqualityNeedsShifts(c, h);
      var phase := PhasesReach(c, areas, h, 0.0);
      IdleDropsCancel(c, areas, h, phase);
      OneLineFlowIsPhysical(c, areas, h, phase, 0);
      NothingWeighed(c, s, h, OneLineFlow(c, areas, h, phase, 0));
    } else {
      forall flow, potential, phase | Physical(c, h, flow, potential, phase)
        ensures Sum(0, |c.loop|, WeightedFlow(s, flow)) == s.equal[h]
      {
        NothingWeighed(c, s, h, flow);
        WeightedFlowIsFixed(c, areas, s, h, flow, potential, phase);
        TermsBetween(c, areas, h, flow, potential, phase);
      }
    }
  }

  lemma EqualityNeedsShifts(c: Cycle, h: nat)
    requires c.Valid() && h < c.o.hours && !Impedes(c, h)
    ensures !c.o.phaseShift ==> Sum(0, |c.loop|, EqualTerm(c, h)) == 0.0
  {
    if !c.o.phaseShift {
      forall i | 0 <= i < |c.loop|
        ensures EqualTerm(c, h)(i) == 0.0
      {
        assert At(c, h, i) && c.loop[i].impedance[h] == 0.0;
      }
      SumZero(0, |c.loop|, EqualTerm(c, h));
    }
  }

  // The shifts around the loop, as the round meets them: the smaller bounds, the least and the most.
  ghost function MinusAround(c: Cycle, h: int): int -> real
    requires c.Valid()
  {
    i => if At(c, h, i) then c.loop[i].shiftMinus[h] * c.signs[i] else 0.0
  }

  ghost function LeastShift(minus: real, plus: real, sign: real): real { Min(minus * sign, plus * sign) }

  ghost function MostShift(minus: real, plus: real, sign: real): real { Max(minus * sign, plus * sign) }

  ghost function LeastAround(c: Cycle, h: int): int -> real
    requires c.Valid()
  {
    i => if At(c, h, i) then LeastShift(c.loop[i].shiftMinus[h], c.loop[i].shiftPlus[h], c.signs[i]) else 0.0
  }

  ghost function MostAround(c: Cycle, h: int): int -> real
    requires c.Valid()
  {
    i => if At(c, h, i) then MostShift(c.loop[i].shiftMinus[h], c.loop[i].shiftPlus[h], c.signs[i]) else 0.0
  }

  // What the input decides. Phase shifts that are left out do no harm. With an impedance on the loop, no
  // shift may vary; without any, the smaller bounds of the shifts must cancel, or no shifts within their
  // ranges do.
  ghost predicate EqualityFits(c: Cycle, h: nat)
    requires c.Valid() && h < c.o.hours
  {
    || !c.o.phaseShift
    || if Impedes(c, h) then ShiftsFixed(c, h)
       else
         || Sum(0, |c.loop|, MinusAround(c, h)) == 0.0
         || 0.0 < Sum(0, |c.loop|, LeastAround(c, h))
         || Sum(0, |c.loop|, MostAround(c, h)) < 0.0
  }

  lemma TermIsShift(c: Cycle, h: nat, i: nat)
    requires c.Valid() && h < c.o.hours && i < |c.loop| && c.o.phaseShift && c.loop[i].impedance[h] == 0.0
    ensures EqualTerm(c, h)(i) == MinusAround(c, h)(i)
    ensures LowTerm(c, h)(i) == LeastAround(c, h)(i) && HighTerm(c, h)(i) == MostAround(c, h)(i)
  {
    assert At(c, h, i);
    var line, sign := c.loop[i], c.signs[i];
    assert Fixed(c.o, line, h) == 0.0;
    assert Shift(c.o, line.shiftMinus[h]) == line.shiftMinus[h] && Shift(c.o, line.shiftPlus[h]) == line.shiftPlus[h];
    SameProduct(Fixed(c.o, line, h), 0.0, sign);
    SameProduct(Shift(c.o, line.shiftMinus[h]), line.shiftMinus[h], sign);
    SameProduct(Shift(c.o, line.shiftPlus[h]), line.shiftPlus[h], sign);
    var minus, plus := line.shiftMinus[h] * sign, line.shiftPlus[h] * sign;
    assert LowTerm(c, h)(i) == LowOf(c.o, line, sign, h) && HighTerm(c, h)(i) == HighOf(c.o, line, sign, h);
    assert 0.0 * sign == 0.0;
    assert LowOf(c.o, line, sign, h) == Min(minus, plus);
    assert HighOf(c.o, line, sign, h) == Max(minus, plus);
    assert LeastShift(line.shiftMinus[h], line.shiftPlus[h], sign) == Min(minus, plus);
    assert MostShift(line.shiftMinus[h], line.shiftPlus[h], sign) == Max(minus, plus);
  }

  lemma SameProduct(a: real, b: real, sign: real)
    requires a == b
    ensures a * sign == b * sign
  {
  }

  lemma TermsAreShifts(c: Cycle, h: nat)
    requires c.Valid() && h < c.o.hours && c.o.phaseShift && !Impedes(c, h)
    ensures Sum(0, |c.loop|, EqualTerm(c, h)) == Sum(0, |c.loop|, MinusAround(c, h))
    ensures Sum(0, |c.loop|, LowTerm(c, h)) == Sum(0, |c.loop|, LeastAround(c, h))
    ensures Sum(0, |c.loop|, HighTerm(c, h)) == Sum(0, |c.loop|, MostAround(c, h))
  {
    forall i | 0 <= i < |c.loop|
      ensures EqualTerm(c, h)(i) == MinusAround(c, h)(i)
      ensures LowTerm(c, h)(i) == LeastAround(c, h)(i) && HighTerm(c, h)(i) == MostAround(c, h)(i)
    {
      TermIsShift(c, h, i);
    }
    SumExtensional(0, |c.loop|, EqualTerm(c, h), MinusAround(c, h));
    SumExtensional(0, |c.loop|, LowTerm(c, h), LeastAround(c, h));
    SumExtensional(0, |c.loop|, HighTerm(c, h), MostAround(c, h));
  }

  // Every physically possible flow satisfies the equality exactly when it fits.
  lemma EqualityIsSoundExactly(c: Cycle, areas: seq<int>, s: State, h: nat)
    requires c.Valid() && h < c.o.hours && SignsOf(c.loop, areas, c.signs) && !c.both && Holds(c, s, h)
    ensures EqualityIsSound(c, s, h) <==> EqualityFits(c, h)
  {
    if Impedes(c, h) {
      EqualityIsSoundExactlyWhenShiftsAreFixed(c, areas, s, h);
    } else {
      EqualityWithoutImpedanceIsSoundExactly(c, areas, s, h);
      EqualityNeedsShifts(c, h);
      if c.o.phaseShift {
        TermsAreShifts(c, h);
      }
    }
  }

  // ----- Everything that is built ----------------------------------------------------------------------

  // The constraint of a state in an hour, for a flow: open, two-sided, or an equality.
  ghost predicate Satisfied(c: Cycle, s: State, h: nat, flow: int -> real)
    requires c.Valid() && h < c.o.hours && StateSized(s, c.o.hours)
  {
    if c.both then Open(c.o, s, h) || s.lower[h] <= Sum(0, |c.loop|, WeightedFlow(s, flow)) <= s.upper[h]
    else Sum(0, |c.loop|, WeightedFlow(s, flow)) == s.equal[h]
  }

  // A state of the hour's impedances holds the hour, any other one is open in it.
  lemma HeldOrOpen(c: Cycle, states: seq<State>, k: nat, h: nat)
    requires c.Valid() && h < c.o.hours && k < |states| && Consistent(c, states, c.o.hours)
    ensures if states[k].impedances == ImpedancesAt(c, h) then Holds(c, states[k], h) else Open(c.o, states[k], h)
  {
    assert Found(c, states, h);
    var j :| 0 <= j < |states| && Holds(c, states[j], h);
    if states[k].impedances == ImpedancesAt(c, h) {
      assert states[k].impedances == states[j].impedances;
    } else {
      assert NotHeld(c, states[k], h, c.o.hours);
    }
  }

  // Two-sided constraints: no state ever cuts off a physically possible flow.
  lemma BuiltBoundsAreSound(c: Cycle, areas: seq<int>, states: seq<State>, k: nat, h: nat, flow: int -> real,
                            potential: int -> real, phase: int -> real)
    requires c.Valid() && h < c.o.hours && SignsOf(c.loop, areas, c.signs) && c.both && k < |states|
    requires Consistent(c, states, c.o.hours) && Physical(c, h, flow, potential, phase)
    ensures Satisfied(c, states[k], h, flow)
  {
    HeldOrOpen(c, states, k, h);
    if states[k].impedances == ImpedancesAt(c, h) {
      PhysicalFlowsAreWithinBounds(c, areas, states[k], h, flow, potential, phase);
    }
  }

  // Lines in alternating current, summarised by the pass over their hours, of which none asks for
  // two-sided constraints.
  ghost predicate PlainLines(c: Cycle) {
    forall i :: 0 <= i < |c.loop| ==> PlainLine(c.loop[i], c.o)
  }

  ghost predicate PlainLine(line: Line, o: Options) {
    Summarised(line, o) && line.ac && line.impedanceChanges == 0 && line.shiftsEqual
  }

  lemma ImpedancesNeverChange(c: Cycle, h: nat)
    requires c.Valid() && h < c.o.hours && PlainLines(c)
    ensures ImpedancesAt(c, h) == ImpedancesAt(c, 0)
  {
    forall i | 0 <= i < |c.loop|
      ensures c.loop[i].impedance[h] == c.loop[i].impedance[0]
    {
      assert PlainLine(c.loop[i], c.o);
    }
  }

  // So an equality constraint on such lines is sound for every hour but the last.
  lemma EqualityIsSoundBeforeLastHour(c: Cycle, areas: seq<int>, s: State, h: nat)
    requires c.Valid() && h < c.o.hours - 1 && SignsOf(c.loop, areas, c.signs) && !c.both && Holds(c, s, h)
    requires PlainLines(c)
    ensures EqualityIsSound(c, s, h)
  {
    if c.o.phaseShift {
      forall i | 0 <= i < |c.loop|
        ensures c.loop[i].shiftMinus[h] == c.loop[i].shiftPlus[h]
      {
        assert PlainLine(c.loop[i], c.o) && c.loop[i].shiftsEqual;
      }
    }
    FixedShiftsGiveEquality(c, areas, s, h);
  }

  lemma SomeStateDiffers(states: seq<State>, impedances: seq<real>)
    requires 1 <= |states| && forall j, k :: 0 <= j < k < |states| ==> states[j].impedances != states[k].impedances
    ensures |states| == 1 || exists j :: 0 <= j < |states| && states[j].impedances != impedances
  {
    if 1 < |states| {
      assert states[0].impedances != states[1].impedances;
      var j := if states[0].impedances == impedances then 1 else 0;
      assert states[j].impedances != impedances;
    }
  }

  // Equality constraints: there is one state, and it only cuts off physically possible flows in the
  // last hour, exactly when the equality does not fit.
  lemma BuiltEqualityIsSoundExactly(c: Cycle, areas: seq<int>, states: seq<State>, k: nat, h: nat)
    requires c.Valid() && h < c.o.hours && SignsOf(c.loop, areas, c.signs) && !c.both && k < |states|
    requires Consistent(c, states, c.o.hours) && Sourced(c, states) && PlainLines(c)
    ensures |states| == 1 && Holds(c, states[k], h)
    ensures h < c.o.hours - 1 ==> EqualityIsSound(c, states[k], h)
    ensures EqualityIsSound(c, states[k], h) <==> EqualityFits(c, h)
  {
    forall j | 0 <= j < |states|
      ensures states[j].impedances == ImpedancesAt(c, 0)
    {
      assert ImpedancesOfSomeHour(c, states[j]);
      var g :| 0 <= g < c.o.hours && states[j].impedances == ImpedancesAt(c, g);
      ImpedancesNeverChange(c, g);
    }
    SomeStateDiffers(states, ImpedancesAt(c, 0));
    ImpedancesNeverChange(c, h);
    HeldOrOpen(c, states, k, h);
    if h < c.o.hours - 1 {
      EqualityIsSoundBeforeLastHour(c, areas, states[k], h);
    }
    EqualityIsSoundExactly(c, areas, states[k], h);
  }

  // Three lines around three areas, whose shifts are fixed in every hour but the last one.
  ghost function LateLine(n: nat, origin: int, end: int): Line {
    Line(origin, end, seq(n, _ => 1.0), seq(n, _ => 0.0), seq(n, _ => 0.0),
         seq(n, h => if h == n - 1 then 1.0 else 0.0), true, 0, true)
  }

  ghost function LateTriangle(n: nat): Cycle {
    Cycle(Options(n, true, true, 1000000.0), [LateLine(n, 0, 1), LateLine(n, 1, 2), LateLine(n, 0, 2)],
          [1.0, 1.0, -1.0], false)
  }

  ghost function LateState(n: nat): State {
    var infinity := LateTriangle(n).o.infinity;
    State([1.0, 1.0, 1.0], seq(n, _ => infinity), seq(n, _ => -infinity), seq(n, _ => 0.0), [1.0, 1.0, -1.0])
  }

  lemma LateTriangleIsPlain(n: nat)
    requires 2 <= n
    ensures var c := LateTriangle(n); c.Valid() && PlainLines(c) && SignsOf(c.loop, [0, 1, 2], c.signs)
  {
    var c := LateTriangle(n);
    assert Summarised(c.loop[0], c.o) && Summarised(c.loop[1], c.o) && Summarised(c.loop[2], c.o);
    assert Next(3, 0) == 1 && Next(3, 1) == 2 && Next(3, 2) == 0;
  }

  lemma LateStateHolds(n: nat)
    requires 2 <= n
    ensures LateTriangle(n).Valid() && Holds(LateTriangle(n), LateState(n), n - 1)
  {
    var c, last := LateTriangle(n), n - 1;
    forall i | 0 <= i < 3
      ensures EqualTerm(c, last)(i) == 0.0
    {
      assert At(c, last, i);
    }
    SumZero(0, 3, EqualTerm(c, last));
    assert ImpedancesAt(c, n - 1) == [1.0, 1.0, 1.0];
  }

  // Over any horizon, the state that holds the last hour of this loop cuts off possible flows.
  lemma EqualityMayFailInTheLastHour(n: nat, s: State)
    requires 2 <= n && LateTriangle(n).Valid() && Holds(LateTriangle(n), s, n - 1)
    ensures var c := LateTriangle(n);
      && PlainLines(c) && SignsOf(c.loop, [0, 1, 2], c.signs) && !EqualityIsSound(c, s, n - 1)
  {
    var c := LateTriangle(n);
    LateTriangleIsPlain(n);
    assert c.loop[0].shiftMinus[n - 1] != c.loop[0].shiftPlus[n - 1];
    assert c.loop[0].impedance[n - 1] != 0.0;
    VaryingShiftBreaksEquality(c, [0, 1, 2], s, n - 1, 0, 0);
  }
}
