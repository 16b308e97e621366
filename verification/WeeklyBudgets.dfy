// Weekly hydro budgets: the daily bounds on turbined energy under leeway, and the daily bounds on
// pumped energy, both scaled so that the week fits the water or the room there is.

module WeeklyBudgets {
  import opened Reals
  import opened Sums

  // The first k terms.
  function Prefix(s: seq<real>, k: nat): real
    requires k <= |s|
  {
    if k == 0 then 0.0 else Prefix(s, k - 1) + s[k - 1]
  }

  function Total(s: seq<real>): real {
    Prefix(s, |s|)
  }

  // What a day's term becomes when the week is cut down to what is granted.
  function Scaled(term: real, week: real, granted: real): real {
    if IsZero(week) then 0.0 else term * granted / week
  }

  // Terms cut down by the same factor.
  ghost predicate IsScaled(t: seq<real>, s: seq<real>, week: real, granted: real) {
    |t| == |s| && forall j :: 0 <= j < |s| ==> t[j] == Scaled(s[j], week, granted)
  }

  lemma {:induction false} ScaledPrefix(t: seq<real>, s: seq<real>, week: real, granted: real, k: nat)
    requires IsScaled(t, s, week, granted) && k <= |s| && !IsZero(week)
    ensures Prefix(t, k) * week == Prefix(s, k) * granted
  {
    if k > 0 {
      ScaledPrefix(t, s, week, granted, k - 1);
      assert t[k - 1] == Scaled(s[k - 1], week, granted);
      assert t[k - 1] * week == s[k - 1] * granted;
    }
  }

  lemma {:induction false} ZeroPrefix(t: seq<real>, k: nat)
    requires k <= |t| && forall j :: 0 <= j < k ==> t[j] == 0.0
    ensures Prefix(t, k) == 0.0
  {
    if k > 0 {
      ZeroPrefix(t, k - 1);
    }
  }

  // Cut down from their own total, the terms add up to what is granted.
  lemma ScaledTotal(t: seq<real>, s: seq<real>, granted: real)
    requires IsScaled(t, s, Total(s), granted)
    ensures Total(t) == if IsZero(Total(s)) then 0.0 else granted
  {
    if IsZero(Total(s)) {
      ZeroPrefix(t, |t|);
    } else {
      ScaledPrefix(t, s, Total(s), granted, |s|);
      Cancel(Total(t), granted, Total(s));
    }
  }

  lemma Cancel(x: real, y: real, z: real)
    requires x * z == y * z && z != 0.0
    ensures x == y
  {
    assert (x - y) * z == 0.0;
  }

  // Two days keep their proportion, and there is only one such way to add up to a given total.
  ghost predicate InProportion(t: seq<real>, s: seq<real>) {
    |t| == |s| && forall i, j :: 0 <= i < |s| && 0 <= j < |s| ==> t[i] * s[j] == t[j] * s[i]
  }

  lemma {:induction false} ProportionOfPrefix(t: seq<real>, s: seq<real>, i: nat, k: nat)
    requires InProportion(t, s) && i < |s| && k <= |s|
    ensures t[i] * Prefix(s, k) == Prefix(t, k) * s[i]
  {
    if k > 0 {
      ProportionOfPrefix(t, s, i, k - 1);
      assert t[i] * s[k - 1] == t[k - 1] * s[i];
    }
  }

  lemma ScaledIsInProportion(t: seq<real>, s: seq<real>, week: real, granted: real)
    requires IsScaled(t, s, week, granted) && !IsZero(week)
    ensures InProportion(t, s)
  {
    forall i, j | 0 <= i < |s| && 0 <= j < |s|
      ensures t[i] * s[j] == t[j] * s[i]
    {
      CrossProduct(t[i], s[i], t[j], s[j], week, granted);
    }
  }

  lemma ProportionalIsScaled(t: seq<real>, s: seq<real>, i: nat)
    requires InProportion(t, s) && i < |s| && !IsZero(Total(s))
    ensures t[i] == Scaled(s[i], Total(s), Total(t))
  {
    ProportionOfPrefix(t, s, i, |s|);
    Divide(t[i], s[i], Total(s), Total(t));
  }

  lemma Divide(x: real, a: real, week: real, granted: real)
    requires x * week == granted * a && !IsZero(week)
    ensures x == Scaled(a, week, granted)
  {
    assert Scaled(a, week, granted) * week == a * granted;
    Cancel(x, Scaled(a, week, granted), week);
  }

  // Cutting down is the only proportional way to reach what is granted.
  lemma ScaledIsTheProportionalShare(t: seq<real>, s: seq<real>, granted: real)
    requires |t| == |s| && !IsZero(Total(s))
    ensures IsScaled(t, s, Total(s), granted) <==> InProportion(t, s) && Total(t) == granted
  {
    if IsScaled(t, s, Total(s), granted) {
      ScaledTotal(t, s, granted);
      ScaledIsInProportion(t, s, Total(s), granted);
    }
    if InProportion(t, s) && Total(t) == granted {
      forall i | 0 <= i < |s|
        ensures t[i] == Scaled(s[i], Total(s), granted)
      {
        ProportionalIsScaled(t, s, i);
      }
    }
  }

  lemma CrossProduct(x: real, a: real, y: real, b: real, week: real, granted: real)
    requires !IsZero(week) && x == Scaled(a, week, granted) && y == Scaled(b, week, granted)
    ensures x * b == y * a
  {
    var factor := granted / week;
    assert factor * week == granted;
    assert x == a * factor by {
      assert x * week == a * factor * week;
      Cancel(x, a * factor, week);
    }
    assert y == b * factor by {
      assert y * week == b * factor * week;
      Cancel(y, b * factor, week);
    }
  }

  // ----- Turbined energy under leeway ------------------------------------------------------------

  datatype Leeway = Leeway(target: seq<real>, power: seq<real>, hours: seq<real>, inflows: seq<real>,
                           modulation: real, useLeeway: bool, upperBound: real, lowerBound: real,
                           hardBounds: bool, minLevel: real, capacity: real, start: real)
  {
    ghost predicate Valid() {
      |target| == |power| == |hours| == |inflows|
    }

    // What the turbines can make of day j.
    function Capability(j: nat): real
      requires j < |power| && |power| == |hours|
    {
      power[j] * hours[j] * modulation
    }

    function Upper(j: nat): real
      requires j < |target|
    {
      target[j] * if useLeeway then upperBound else 1.0
    }

    function Lower(j: nat): real
      requires j < |target|
    {
      target[j] * if useLeeway then lowerBound else 1.0
    }

    // The bounds of day j on its own.
    function Widest(j: nat): real
      requires j < |target| == |power| == |hours|
    {
      if Capability(j) < Lower(j) then Capability(j)
      else if Lower(j) < Capability(j) < Upper(j) then Capability(j)
      else Upper(j)
    }

    function Least(j: nat): real
      requires j < |target| == |power| == |hours|
    {
      Min(Capability(j), Lower(j))
    }

    // The water there is to turbine in the week.
    function Available(inflow: real): real {
      if hardBounds then Max(0.0, start - minLevel * capacity + inflow) else start + inflow
    }
  }

  ghost function WidestDays(w: Leeway): (s: seq<real>)
    requires w.Valid()
    ensures |s| == |w.target| && forall j :: 0 <= j < |s| ==> s[j] == w.Widest(j)
  {
    seq(|w.target|, j requires 0 <= j < |w.target| => w.Widest(j))
  }

  method SumUp(s: seq<real>) returns (sum: real)
    ensures sum == Total(s)
  {
    sum := 0.0;
    for j := 0 to |s|
      invariant sum == Prefix(s, j)
    {
      sum := sum + s[j];
    }
  }

  method BoundDay(w: Leeway, j: nat, lub: real, llb: real) returns (upper: real, lower: real)
    requires w.Valid() && j < |w.target|
    requires lub == (if w.useLeeway then w.upperBound else 1.0) && llb == if w.useLeeway then w.lowerBound else 1.0
    ensures upper == w.Widest(j) && lower == w.Least(j)
  {
    var dgc := w.power[j] * w.hours[j];
    upper := w.target[j] * lub;
    lower := w.target[j] * llb;
    var capability := dgc * w.modulation;
    assert capability == w.Capability(j) && upper == w.Upper(j) && lower == w.Lower(j);
    if capability < lower {
      upper := capability;
      lower := capability;
    }
    if capability > lower && capability < upper {
      upper := capability;
    }
  }

  ghost predicate ScaledDays(w: Leeway, dgu: seq<real>, dgl: seq<real>, week: real, granted: real, n: nat)
    requires w.Valid() && n <= |w.target| == |dgu| == |dgl|
  {
    forall j :: 0 <= j < n ==> dgu[j] == Scaled(w.Widest(j), week, granted) && dgl[j] == Min(dgu[j], w.Least(j))
  }

  // The bounds on each day of the week: dgu from above, dgl from below.
  method LeewayBudgets(w: Leeway, dgu: array<real>, dgl: array<real>)
    requires w.Valid() && dgu.Length == dgl.Length == |w.target| && dgu != dgl
    modifies dgu, dgl
    ensures IsScaled(dgu[..], WidestDays(w), Total(WidestDays(w)),
                     Min(Total(WidestDays(w)), w.Available(Total(w.inflows))))
    ensures forall j :: 0 <= j < dgl.Length ==> dgl[j] == Min(dgu[j], w.Least(j))
  {
    var n := |w.target|;
    var lub := if w.useLeeway then w.upperBound else 1.0;
    var llb := if w.useLeeway then w.lowerBound else 1.0;
    var wni := SumUp(w.inflows);
    var dguTmp := new real[n];
    var dglTmp := new real[n];
    var wgu := 0.0;
    for j := 0 to n
      invariant wgu == Prefix(WidestDays(w), j)
      invariant forall k :: 0 <= k < j ==> dguTmp[k] == w.Widest(k) && dglTmp[k] == w.Least(k)
    {
      var upper, lower := BoundDay(w, j, lub, llb);
      dguTmp[j], dglTmp[j] := upper, lower;
      wgu := wgu + dguTmp[j];
    }
    ScaleDays(w, dguTmp[..], dglTmp[..], wgu, wni, dgu, dgl);
  }

  method ScaleDays(w: Leeway, dguTmp: seq<real>, dglTmp: seq<real>, wgu: real, wni: real, dgu: array<real>,
                   dgl: array<real>)
    requires w.Valid() && |dguTmp| == |dglTmp| == dgu.Length == dgl.Length == |w.target| && dgu != dgl
    requires forall k :: 0 <= k < |w.target| ==> dguTmp[k] == w.Widest(k) && dglTmp[k] == w.Least(k)
    modifies dgu, dgl
    ensures ScaledDays(w, dgu[..], dgl[..], wgu, Min(wgu, w.Available(wni)), |w.target|)
  {
    for j := 0 to |w.target|
      invariant ScaledDays(w, dgu[..], dgl[..], wgu, Min(wgu, w.Available(wni)), j)
    {
      ghost var u, l := dgu[..], dgl[..];
      dgu[j] := ScaleDay(w, dguTmp[j], wgu, wni);
      dgl[j] := Min(dgu[j], dglTmp[j]);
      assert dguTmp[j] == w.Widest(j) && dglTmp[j] == w.Least(j);
      assert dgu[..] == u[j := dgu[j]] && dgl[..] == l[j := dgl[j]];
    }
  }

  method ScaleDay(w: Leeway, widest: real, wgu: real, wni: real) returns (bound: real)
    ensures bound == Scaled(widest, wgu, Min(wgu, w.Available(wni)))
  {
    if !w.hardBounds {
      bound := Scaled(widest, wgu, Min(wgu, w.start + wni));
    } else {
      var v := Max(0.0, w.start - w.minLevel * w.capacity + wni);
      bound := Scaled(widest, wgu, Min(wgu, v));
    }
  }

  // The week can turbine the widest bounds or the water there is, whichever is less, and what is
  // turbined at most leaves the reservoir at or above its floor if it can get there at all.
  lemma TurbinedBudgetIsExact(w: Leeway, dgu: seq<real>)
    requires w.Valid()
    requires IsScaled(dgu, WidestDays(w), Total(WidestDays(w)),
                      Min(Total(WidestDays(w)), w.Available(Total(w.inflows))))
    ensures Total(dgu) == if IsZero(Total(WidestDays(w))) then 0.0
                          else Min(Total(WidestDays(w)), w.Available(Total(w.inflows)))
    ensures var water := w.start + Total(w.inflows);
            var floor := if w.hardBounds then w.minLevel * w.capacity else 0.0;
            !IsZero(Total(WidestDays(w))) ==> water - Total(dgu) >= Min(floor, water)
  {
    ScaledTotal(dgu, WidestDays(w), Min(Total(WidestDays(w)), w.Available(Total(w.inflows))));
  }

  // ----- The same from the input alone ------------------------------------------------------------------

  lemma {:induction false} PrefixIsSum(s: seq<real>, k: nat, f: int -> real)
    requires k <= |s| && forall j :: 0 <= j < k ==> s[j] == f(j)
    ensures Prefix(s, k) == Sum(0, k, f)
  {
    if k > 0 {
      PrefixIsSum(s, k - 1, f);
    }
  }

  ghost function Entries(s: seq<real>): int -> real {
    j => if 0 <= j < |s| then s[j] else 0.0
  }

  // The target of day j, with the leeway in this direction.
  ghost function Target(w: Leeway, leeway: real): int -> real {
    j => if 0 <= j < |w.target| then (if w.useLeeway then w.target[j] * leeway else w.target[j]) else 0.0
  }

  ghost function Product(a: real, b: real, c: real): real { a * b * c }

  // What the turbines make of day j at full power.
  ghost function FullPower(w: Leeway): int -> real {
    j => if 0 <= j < |w.power| && j < |w.hours| then Product(w.power[j], w.hours[j], w.modulation) else 0.0
  }

  // The lesser of the upper target and full power, but for the case of exactly the lower target; and with
  // targets the wrong way round, the upper one that full power can reach.
  ghost function LargestOf(full: real, lower: real, upper: real): real {
    if lower <= upper then (if full == lower then upper else Min(full, upper))
    else if full < lower then full else upper
  }

  ghost function Largest(w: Leeway): int -> real {
    j => LargestOf(FullPower(w)(j), Target(w, w.lowerBound)(j), Target(w, w.upperBound)(j))
  }

  // The water for the week: all of it, or what is above the level it must end with.
  ghost function Water(w: Leeway): real {
    var water := w.start + Sum(0, |w.inflows|, Entries(w.inflows));
    if !w.hardBounds then water else if water < w.minLevel * w.capacity then 0.0 else water - w.minLevel * w.capacity
  }

  lemma DayIsBound(w: Leeway, j: nat)
    requires w.Valid() && j < |w.target|
    ensures w.Widest(j) == Largest(w)(j) && w.Least(j) == Min(FullPower(w)(j), Target(w, w.lowerBound)(j))
  {
    assert w.Capability(j) == FullPower(w)(j);
    assert w.Upper(j) == Target(w, w.upperBound)(j) && w.Lower(j) == Target(w, w.lowerBound)(j);
  }

  // Each day may turbine its own most in the proportion in which the week's water covers the whole, if it
  // does not cover it; and must turbine its lower target if it can at all.
  lemma LeewayBudgetsExactly(w: Leeway, dgu: seq<real>, dgl: seq<real>, j: nat)
    requires w.Valid() && |dgl| == |w.target| && j < |w.target|
    requires IsScaled(dgu, WidestDays(w), Total(WidestDays(w)),
                      Min(Total(WidestDays(w)), w.Available(Total(w.inflows))))
    requires dgl[j] == Min(dgu[j], w.Least(j))
    ensures var week := Sum(0, |w.target|, Largest(w));
            IsPartOf(dgu[j], Largest(w)(j), week, Min(week, Water(w)))
    ensures dgl[j] == Min(dgu[j], Min(FullPower(w)(j), Target(w, w.lowerBound)(j)))
  {
    LeewayWeek(w);
    DayIsBound(w, j);
    assert WidestDays(w)[j] == Largest(w)(j);
    ScaledBack(dgu[j], Largest(w)(j), Sum(0, |w.target|, Largest(w)), Min(Sum(0, |w.target|, Largest(w)), Water(w)));
  }

  lemma LeewayWeek(w: Leeway)
    requires w.Valid()
    ensures Total(WidestDays(w)) == Sum(0, |w.target|, Largest(w)) && w.Available(Total(w.inflows)) == Water(w)
  {
    forall k | 0 <= k < |w.target|
      ensures WidestDays(w)[k] == Largest(w)(k)
    {
      DayIsBound(w, k);
    }
    PrefixIsSum(WidestDays(w), |w.target|, Largest(w));
    PrefixIsSum(w.inflows, |w.inflows|, Entries(w.inflows));
  }

  // The day gets of its term what the week is granted of the sum, or nothing when there is no sum.
  ghost predicate IsPartOf(day: real, term: real, week: real, granted: real) {
    if -1.0e-6 < week < 1.0e-6 then day == 0.0 else day * week == term * granted
  }

  lemma ScaledBack(day: real, term: real, week: real, granted: real)
    requires day == Scaled(term, week, granted)
    ensures IsPartOf(day, term, week, granted)
  {
  }

  // A day's own upper bound respects what the turbines can make of the day, except exactly when
  // that is the lower bound itself and the upper bound is wider.
  lemma WidestRespectsCapabilityExactly(w: Leeway, j: nat)
    requires w.Valid() && j < |w.target|
    ensures w.Widest(j) <= w.Capability(j) <==> !(w.Capability(j) == w.Lower(j) < w.Upper(j))
    ensures w.Least(j) <= w.Capability(j)
    ensures w.Lower(j) <= w.Upper(j) ==> w.Least(j) <= w.Widest(j)
  {
  }

  // For example a day without turbines, a lower bound of nothing and a positive upper bound.
  lemma WidestMayExceedCapability()
    ensures var w := Leeway([1.0], [0.0], [24.0], [0.0], 1.0, true, 1.0, 0.0, false, 0.0, 1.0, 1.0);
      w.Valid() && w.Lower(0) <= w.Upper(0) && w.Capability(0) < w.Widest(0)
  {
  }

  // Under the usual signs the week never gives a day more than its own bound, and the bounds are
  // ordered.
  lemma DailyBoundsAreOrdered(w: Leeway, dgu: seq<real>, dgl: seq<real>, j: nat)
    requires w.Valid() && |dgl| == |w.target| && j < |w.target|
    requires forall k :: 0 <= k < |w.target| ==> 0.0 <= w.Widest(k)
    requires 0.0 <= w.Available(Total(w.inflows))
    requires IsScaled(dgu, WidestDays(w), Total(WidestDays(w)),
                      Min(Total(WidestDays(w)), w.Available(Total(w.inflows))))
    requires dgl[j] == Min(dgu[j], w.Least(j))
    ensures dgl[j] <= dgu[j] && 0.0 <= dgu[j] <= w.Widest(j)
    ensures !(w.Capability(j) == w.Lower(j) < w.Upper(j)) ==> dgu[j] <= w.Capability(j)
    ensures 0.0 <= w.Least(j) ==> 0.0 <= dgl[j]
  {
    var widest := WidestDays(w);
    PrefixIsNonNegative(widest, |widest|);
    assert widest[j] == w.Widest(j);
    var week, granted := Total(widest), Min(Total(widest), w.Available(Total(w.inflows)));
    assert dgu[j] == Scaled(widest[j], week, granted);
    if !IsZero(week) {
      CutDown(widest[j], week, granted);
    }
  }

  lemma {:induction false} PrefixIsNonNegative(s: seq<real>, k: nat)
    requires k <= |s| && forall j :: 0 <= j < |s| ==> 0.0 <= s[j]
    ensures 0.0 <= Prefix(s, k)
  {
    if k > 0 {
      PrefixIsNonNegative(s, k - 1);
    }
  }

  lemma CutDown(term: real, week: real, granted: real)
    requires 0.0 <= term && 0.0 <= granted <= week && 0.0 < week
    ensures 0.0 <= Scaled(term, week, granted) <= term
  {
    if IsZero(week) {
      return;
    }
    var scaled := Scaled(term, week, granted);
    assert scaled * week == term * granted;
    assert 0.0 <= term * granted <= term * week;
    ScalingKeepsOrder(0.0, scaled, week);
    ScalingKeepsOrder(scaled, term, week);
  }

  // ----- Pumped energy -----------------------------------------------------------------------------

  datatype Pumping = Pumping(power: seq<real>, hours: seq<real>, inflows: seq<real>, modulation: real, ratio: real,
                             hardBounds: bool, maxLevel: real, capacity: real, start: real)
  {
    ghost predicate Valid() {
      |power| == |hours| == |inflows|
    }

    function Capability(j: nat): real
      requires j < |power| == |hours|
    {
      power[j] * hours[j]
    }

    function Top(): real {
      if hardBounds then maxLevel * capacity else capacity
    }

    function Room(inflow: real): real {
      Max(0.0, Top() - (inflow + start))
    }
  }

  ghost function PumpingDays(p: Pumping): (s: seq<real>)
    requires p.Valid()
    ensures |s| == |p.power| && forall j :: 0 <= j < |s| ==> s[j] == p.Capability(j)
  {
    seq(|p.power|, j requires 0 <= j < |p.power| => p.Capability(j))
  }

  ghost function Modulated(s: seq<real>, modulation: real): (t: seq<real>)
    ensures |t| == |s| && forall j :: 0 <= j < |s| ==> t[j] == s[j] * modulation
  {
    seq(|s|, j requires 0 <= j < |s| => s[j] * modulation)
  }

  function Energy(week: real, modulation: real, ratio: real): real {
    week * modulation * ratio
  }

  // What the pumps could store in the week.
  ghost function Storable(p: Pumping): real
    requires p.Valid()
  {
    Energy(Total(PumpingDays(p)), p.modulation, p.ratio)
  }

  ghost function Stored(p: Pumping): real
    requires p.Valid()
  {
    Min(Storable(p), p.Room(Total(p.inflows)))
  }

  method PumpingBudgets(p: Pumping, dpu: array<real>)
    requires p.Valid() && dpu.Length == |p.power|
    modifies dpu
    ensures IsScaled(dpu[..], Modulated(PumpingDays(p), p.modulation), Storable(p), Stored(p))
  {
    var wni := SumUp(p.inflows);
    var wpu := SumUpPumps(p);
    var u := Energy(wpu, p.modulation, p.ratio);
    PumpDays(p, u, wni, dpu);
  }

  method SumUpPumps(p: Pumping) returns (wpu: real)
    requires p.Valid()
    ensures wpu == Total(PumpingDays(p))
  {
    wpu := 0.0;
    for j := 0 to |p.power|
      invariant wpu == Prefix(PumpingDays(p), j)
    {
      var dpc := p.power[j] * p.hours[j];
      assert dpc == PumpingDays(p)[j];
      wpu := wpu + dpc;
    }
  }

  method PumpDays(p: Pumping, u: real, wni: real, dpu: array<real>)
    requires p.Valid() && dpu.Length == |p.power|
    modifies dpu
    ensures IsScaled(dpu[..], Modulated(PumpingDays(p), p.modulation), u, Min(u, p.Room(wni)))
  {
    ghost var days := Modulated(PumpingDays(p), p.modulation);
    ghost var granted := Min(u, p.Room(wni));
    for j := 0 to dpu.Length
      invariant forall k :: 0 <= k < j ==> dpu[k] == Scaled(days[k], u, granted)
    {
      var dpc := p.power[j] * p.hours[j];
      assert PumpingDays(p)[j] == dpc;
      dpu[j] := PumpDay(p, dpc, u, wni);
      assert days[j] == dpc * p.modulation;
    }
  }

  method PumpDay(p: Pumping, dpc: real, u: real, wni: real) returns (bound: real)
    ensures bound == Scaled(dpc * p.modulation, u, Min(u, p.Room(wni)))
  {
    if !p.hardBounds {
      var v := Max(0.0, p.capacity - (wni + p.start));
      bound := Scaled(dpc * p.modulation, u, Min(u, v));
    } else {
      var v := Max(0.0, p.maxLevel * p.capacity - (wni + p.start));
      bound := Scaled(dpc * p.modulation, u, Min(u, v));
    }
  }

  lemma {:induction false} ModulatedPrefix(s: seq<real>, modulation: real, k: nat)
    requires k <= |s|
    ensures Prefix(Modulated(s, modulation), k) == Prefix(s, k) * modulation
  {
    if k > 0 {
      ModulatedPrefix(s, modulation, k - 1);
      assert Modulated(s, modulation)[k - 1] == s[k - 1] * modulation;
    }
  }

  lemma StoredOverPumped(pumped: real, week: real, modulation: real, ratio: real, days: real, storable: real,
                         granted: real)
    requires days == week * modulation && storable == Energy(week, modulation, ratio) && !IsZero(storable)
    requires pumped * storable == days * granted
    ensures pumped * ratio == granted
  {
    assert storable == days * ratio;
    assert (pumped * ratio) * days == granted * days;
    Cancel(pumped * ratio, granted, days);
  }

  // What the pumps may store is what they could, or the room there is, whichever is less.
  lemma PumpedBudgetIsExact(p: Pumping, dpu: seq<real>)
    requires p.Valid() && IsScaled(dpu, Modulated(PumpingDays(p), p.modulation), Storable(p), Stored(p))
    ensures !IsZero(Storable(p)) ==> Total(dpu) * p.ratio == Stored(p)
    ensures IsZero(Storable(p)) ==> Total(dpu) == 0.0
  {
    var week, days := PumpingDays(p), Modulated(PumpingDays(p), p.modulation);
    var storable, granted := Storable(p), Stored(p);
    if IsZero(storable) {
      ZeroPrefix(dpu, |dpu|);
    } else {
      ScaledPrefix(dpu, days, storable, granted, |dpu|);
      ModulatedPrefix(week, p.modulation, |dpu|);
      StoredOverPumped(Total(dpu), Total(week), p.modulation, p.ratio, Total(days), storable, granted);
    }
  }

  // So pumping alone never takes the reservoir over its top.
  lemma PumpingStaysUnderTheTop(p: Pumping, dpu: seq<real>)
    requires p.Valid() && IsScaled(dpu, Modulated(PumpingDays(p), p.modulation), Storable(p), Stored(p))
    ensures p.start + Total(p.inflows) + Total(dpu) * p.ratio <= Max(p.Top(), p.start + Total(p.inflows))
  {
    PumpedBudgetIsExact(p, dpu);
    var stored := Total(dpu) * p.ratio;
    if IsZero(Storable(p)) {
      assert stored == 0.0;
    }
  }

  // ----- The same from the input alone ------------------------------------------------------------------

  // What the pumps take on day j, and store of it.
  ghost function Taken(p: Pumping): int -> real {
    j => if 0 <= j < |p.power| && j < |p.hours| then Product(p.power[j], p.hours[j], p.modulation) else 0.0
  }

  ghost function Times(a: real, b: real): real { a * b }

  ghost function Kept(p: Pumping): int -> real {
    j => Times(Taken(p)(j), p.ratio)
  }

  // The room in the reservoir, up to its capacity or to the level it must end with.
  ghost function Space(p: Pumping): real {
    var top := if p.hardBounds then p.maxLevel * p.capacity else p.capacity;
    var water := p.start + Sum(0, |p.inflows|, Entries(p.inflows));
    if top < water then 0.0 else top - water
  }

  lemma {:induction false} KeptIsEnergy(p: Pumping, k: nat)
    requires p.Valid() && k <= |p.power|
    ensures Sum(0, k, Kept(p)) == Energy(Prefix(PumpingDays(p), k), p.modulation, p.ratio)
  {
    if k > 0 {
      KeptIsEnergy(p, k - 1);
      EnergyAdds(Prefix(PumpingDays(p), k - 1), p.power[k - 1] * p.hours[k - 1], p.modulation, p.ratio);
      assert PumpingDays(p)[k - 1] == p.power[k - 1] * p.hours[k - 1];
      ProductIsEnergy(p.power[k - 1], p.hours[k - 1], p.modulation, p.ratio);
      assert Taken(p)(k - 1) == Product(p.power[k - 1], p.hours[k - 1], p.modulation);
    }
  }

  lemma ProductIsEnergy(power: real, hours: real, modulation: real, ratio: real)
    ensures Times(Product(power, hours, modulation), ratio) == Energy(power * hours, modulation, ratio)
  {
  }

  lemma EnergyAdds(a: real, b: real, modulation: real, ratio: real)
    ensures Energy(a + b, modulation, ratio) == Energy(a, modulation, ratio) + Energy(b, modulation, ratio)
  {
    assert (a + b) * modulation == a * modulation + b * modulation;
    assert (a * modulation + b * modulation) * ratio == a * modulation * ratio + b * modulation * ratio;
  }

  // Each day may pump what it can in the proportion in which the room covers what the week would store, if
  // it does not cover it.
  lemma PumpingBudgetsExactly(p: Pumping, dpu: seq<real>, j: nat)
    requires p.Valid() && j < |p.power|
    requires IsScaled(dpu, Modulated(PumpingDays(p), p.modulation), Storable(p), Stored(p))
    ensures var week := Sum(0, |p.power|, Kept(p));
            IsPartOf(dpu[j], Taken(p)(j), week, Min(week, Space(p)))
  {
    var days := Modulated(PumpingDays(p), p.modulation);
    KeptIsEnergy(p, |p.power|);
    PrefixIsSum(p.inflows, |p.inflows|, Entries(p.inflows));
    assert days[j] == Taken(p)(j);
    assert p.Room(Total(p.inflows)) == Space(p);
    ScaledBack(dpu[j], days[j], Storable(p), Stored(p));
  }
}
