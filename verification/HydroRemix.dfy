// Hydro remix: bisection on a common level of net load in a window.

module HydroRemix {
  import opened Reals
  import opened Sums

  const EPSILON := 1.0e-6
  const TOLERANCE := 0.01
  const MAX_ITERATIONS := 100
  const LARGEST_DOUBLE := 1.7976931348623157e308

  // What the code reads in one area, hour by hour: its load, the power of its turbines, the energy that
  // is spilled, and the margin of its dispatchable plants.
  datatype Inputs = Inputs(load: seq<real>, maxPower: seq<real>, spilled: seq<real>, margin: seq<real>) {
    ghost predicate Valid() {
      |load| == |maxPower| == |spilled| == |margin|
    }
  }

  // A window of hours lo..hi-1 as it stands before being remixed.
  datatype Window = Window(lo: nat, hi: nat, hydro: seq<real>, unsupplied: seq<real>, inputs: Inputs) {

    ghost predicate Valid() {
      && inputs.Valid() && lo <= hi <= |hydro| == |unsupplied| == |inputs.load|
      && forall i :: lo <= i < hi ==> 0.0 <= hydro[i] && 0.0 <= unsupplied[i] && 0.0 <= inputs.maxPower[i]
    }
  }

  ghost predicate In(w: Window, i: int) {
    w.lo <= i < w.hi
  }

  // Energy of the hour that hydro or nobody supplies.
  ghost function Total(w: Window, i: int): real
    requires w.Valid() && In(w, i)
  {
    w.hydro[i] + w.unsupplied[i]
  }

  ghost predicate Mixed(w: Window, i: int)
    requires w.Valid() && In(w, i)
  {
    Total(w, i) > 0.0 && IsZero(w.inputs.spilled[i] + w.inputs.margin[i])
  }

  // Net load below which the hour gets no hydro energy.
  ghost function Floor(w: Window, i: int): real
    requires w.Valid() && In(w, i)
  {
    w.inputs.load[i] - Total(w, i)
  }

  ghost function Limit(w: Window, i: int): real
    requires w.Valid() && In(w, i)
  {
    if Total(w, i) < w.inputs.maxPower[i] then Total(w, i) else w.inputs.maxPower[i]
  }

  ghost function Clamp(x: real, high: real): real {
    if x < 0.0 then 0.0 else if x > high then high else x
  }

  // The level poured over the hour's floor, within what the hour can take.
  ghost function Served(w: Window, i: int, level: real): real
    requires w.Valid() && In(w, i)
  {
    if Mixed(w, i) then Clamp(level - Floor(w, i), Limit(w, i)) else w.hydro[i]
  }

  // Hydro energy of the mixed hours at a given level, and before the remix.
  ghost function StockTerm(w: Window, level: real): int -> real
    requires w.Valid()
  {
    i => if In(w, i) && Mixed(w, i) then Served(w, i, level) else 0.0
  }

  ghost function Stock(w: Window, level: real): real
    requires w.Valid()
  {
    Sum(w.lo, w.hi, StockTerm(w, level))
  }

  ghost function HydroTerm(w: Window): int -> real
    requires w.Valid()
  {
    i => if In(w, i) && Mixed(w, i) then w.hydro[i] else 0.0
  }

  ghost function MixedHydro(w: Window): real
    requires w.Valid()
  {
    Sum(w.lo, w.hi, HydroTerm(w))
  }

  // ----- The stock rises with the level, and not too fast ----------------------------------

  lemma StockRises(w: Window, a: real, b: real)
    requires w.Valid() && a <= b
    ensures Stock(w, a) <= Stock(w, b)
  {
    forall i | w.lo <= i < w.hi
      ensures StockTerm(w, a)(i) <= StockTerm(w, b)(i)
    {
      assert In(w, i);
      if Mixed(w, i) {
        assert Limit(w, i) >= 0.0;
        assert Served(w, i, a) <= Served(w, i, b);
      }
    }
    SumMonotone(w.lo, w.hi, StockTerm(w, a), StockTerm(w, b));
  }

  lemma StockTermIsLipschitz(w: Window, i: int, a: real, b: real)
    requires w.Valid() && a <= b && In(w, i)
    ensures StockTerm(w, b)(i) <= StockTerm(w, a)(i) + (b - a)
  {
    if Mixed(w, i) {
      assert Limit(w, i) >= 0.0;
      assert Served(w, i, b) <= Served(w, i, a) + (b - a);
    }
  }

  // What a rise of the level adds at most to the stock of the whole window.
  ghost function OverWindow(w: Window, rise: real): real {
    (w.hi - w.lo) as real * rise
  }

  lemma OverWindowIsNonNegative(w: Window, rise: real)
    requires w.lo <= w.hi && 0.0 <= rise
    ensures 0.0 <= OverWindow(w, rise)
  {
    var hours := (w.hi - w.lo) as real;
    assert 0.0 <= hours;
    assert 0.0 <= hours * rise;
  }

  ghost function RaisedTerm(w: Window, level: real, rise: real): int -> real
    requires w.Valid()
  {
    i => StockTerm(w, level)(i) + rise
  }

  lemma RaisedSum(w: Window, level: real, rise: real)
    requires w.Valid()
    ensures Sum(w.lo, w.hi, RaisedTerm(w, level, rise)) == Stock(w, level) + OverWindow(w, rise)
  {
    RaisedBy(w, StockTerm(w, level), rise, RaisedTerm(w, level, rise));
  }

  lemma RaisedBy(w: Window, f: int -> real, rise: real, g: int -> real)
    requires w.lo <= w.hi && forall i :: w.lo <= i < w.hi ==> g(i) == f(i) + rise
    ensures Sum(w.lo, w.hi, g) == Sum(w.lo, w.hi, f) + OverWindow(w, rise)
  {
    SumPlusConstant(w.lo, w.hi, f, rise, g);
  }

  lemma StockBelowRaisedSum(w: Window, a: real, b: real, rise: real)
    requires w.Valid() && a <= b && rise == b - a
    ensures Stock(w, b) <= Sum(w.lo, w.hi, RaisedTerm(w, a, rise))
  {
    forall i | w.lo <= i < w.hi
      ensures StockTerm(w, b)(i) <= RaisedTerm(w, a, rise)(i)
    {
      assert In(w, i);
      StockTermIsLipschitz(w, i, a, b);
    }
    SumMonotone(w.lo, w.hi, StockTerm(w, b), RaisedTerm(w, a, rise));
  }

  lemma StockRisesAtMost(w: Window, a: real, b: real, rise: real)
    requires w.Valid() && a <= b && rise == b - a
    ensures Stock(w, b) <= Stock(w, a) + OverWindow(w, rise)
  {
    StockBelowRaisedSum(w, a, b, rise);
    RaisedSum(w, a, rise);
  }

  // ----- Where the bisection starts ------------------------------------------------------------

  // The smallest floor of the mixed hours before hour i, and the largest load.
  ghost predicate BelowFloors(w: Window, level: real, i: int)
    requires w.Valid()
  {
    forall h :: w.lo <= h < i && In(w, h) && Mixed(w, h) ==> level <= Floor(w, h)
  }

  ghost predicate AboveLoads(w: Window, level: real, i: int)
    requires w.Valid()
  {
    forall h :: w.lo <= h < i && In(w, h) && Mixed(w, h) ==> w.inputs.load[h] <= level
  }

  lemma NothingServedBelowFloors(w: Window, level: real)
    requires w.Valid() && BelowFloors(w, level, w.hi)
    ensures Stock(w, level) == 0.0
  {
    forall i | w.lo <= i < w.hi
      ensures StockTerm(w, level)(i) == 0.0
    {
      assert In(w, i);
      if Mixed(w, i) {
        assert Limit(w, i) >= 0.0;
      }
    }
    SumZero(w.lo, w.hi, StockTerm(w, level));
  }

  // All that the mixed hours can take.
  ghost function CapacityTerm(w: Window): int -> real
    requires w.Valid()
  {
    i => if In(w, i) && Mixed(w, i) then Limit(w, i) else 0.0
  }

  ghost function Capacity(w: Window): real
    requires w.Valid()
  {
    Sum(w.lo, w.hi, CapacityTerm(w))
  }

  lemma AllServedAboveLoads(w: Window, level: real)
    requires w.Valid() && AboveLoads(w, level, w.hi)
    ensures Stock(w, level) == Capacity(w)
  {
    forall i | w.lo <= i < w.hi
      ensures StockTerm(w, level)(i) == CapacityTerm(w)(i)
    {
      assert In(w, i);
      if Mixed(w, i) {
        assert level - Floor(w, i) >= Total(w, i) >= Limit(w, i) >= 0.0;
      }
    }
    SumExtensional(w.lo, w.hi, StockTerm(w, level), CapacityTerm(w));
  }

  lemma MixedHydroIsNonNegative(w: Window)
    requires w.Valid()
    ensures 0.0 <= MixedHydro(w)
  {
    var none := i => 0.0;
    forall i | w.lo <= i < w.hi
      ensures none(i) <= HydroTerm(w)(i)
    {
      assert In(w, i);
    }
    SumMonotone(w.lo, w.hi, none, HydroTerm(w));
    SumZero(w.lo, w.hi, none);
  }

  // Hydro energy the mixed hours hold beyond what they can take: none when every hour
  // already turbines within its maximum power.
  ghost function Shortage(w: Window): real
    requires w.Valid()
  {
    if MixedHydro(w) > Capacity(w) then MixedHydro(w) - Capacity(w) else 0.0
  }

  lemma NoShortageWithinMaxPower(w: Window)
    requires w.Valid()
    requires forall i :: w.lo <= i < w.hi ==> w.hydro[i] <= w.inputs.maxPower[i]
    ensures Shortage(w) == 0.0
  {
    forall i | w.lo <= i < w.hi
      ensures HydroTerm(w)(i) <= CapacityTerm(w)(i)
    {
      assert In(w, i);
    }
    SumMonotone(w.lo, w.hi, HydroTerm(w), CapacityTerm(w));
  }

  // ----- How fast it converges --------------------------------------------------------------

  // The width of the bracket after k halvings.
  ghost function Halved(width: real, k: nat): real {
    if k == 0 then width else Halved(width, k - 1) * 0.5
  }

  lemma {:induction false} HalvedIsNonNegative(width: real, k: nat)
    requires 0.0 <= width
    ensures 0.0 <= Halved(width, k)
  {
    if k > 0 {
      HalvedIsNonNegative(width, k - 1);
    }
  }

  ghost function Distance(a: real, b: real): real {
    if a <= b then b - a else a - b
  }

  ghost predicate NoneMixed(w: Window)
    requires w.Valid()
  {
    forall i :: In(w, i) ==> !Mixed(w, i)
  }

  // What holds of the bracket at each width.
  ghost predicate Bracket(w: Window, bottom: real, top: real, width: real)
    requires w.Valid()
  {
    && 0.0 <= width
    && Stock(w, bottom) <= MixedHydro(w) <= Stock(w, top) + Shortage(w)
    && (NoneMixed(w) || top - bottom == width)
  }

  lemma NothingMixed(w: Window, level: real)
    requires w.Valid() && NoneMixed(w)
    ensures Stock(w, level) == MixedHydro(w) == 0.0
  {
    forall i | w.lo <= i < w.hi
      ensures StockTerm(w, level)(i) == HydroTerm(w)(i) == 0.0
    {
      assert In(w, i);
    }
    SumZero(w.lo, w.hi, StockTerm(w, level));
    SumZero(w.lo, w.hi, HydroTerm(w));
  }

  // The stock at the middle of the bracket is as close to the target as the half width allows.
  lemma MiddleIsClose(w: Window, bottom: real, top: real, width: real)
    requires w.Valid() && Bracket(w, bottom, top, width)
    ensures Distance(MixedHydro(w), Stock(w, (top + bottom) * 0.5)) <= OverWindow(w, width * 0.5) + Shortage(w)
  {
    var middle := (top + bottom) * 0.5;
    var half := width * 0.5;
    if NoneMixed(w) {
      NothingMixed(w, middle);
      OverWindowIsNonNegative(w, half);
    } else {
      StockRisesAtMost(w, bottom, middle, half);
      StockRisesAtMost(w, middle, top, half);
    }
  }

  // Moving the end of the bracket on the wrong side of the target to the middle keeps it.
  lemma BracketShrinks(w: Window, bottom: real, top: real, width: real)
    requires w.Valid() && Bracket(w, bottom, top, width)
    ensures var middle := (top + bottom) * 0.5;
            if MixedHydro(w) - Stock(w, middle) > 0.0 then Bracket(w, middle, top, width * 0.5)
            else Bracket(w, bottom, middle, width * 0.5)
  {
    var middle := (top + bottom) * 0.5;
    if NoneMixed(w) {
      NothingMixed(w, middle);
      NothingMixed(w, bottom);
      NothingMixed(w, top);
    } else {
      StockRises(w, middle, top);
    }
  }

  lemma StockWithinCapacity(w: Window, level: real)
    requires w.Valid()
    ensures Stock(w, level) <= Capacity(w)
  {
    forall i | w.lo <= i < w.hi
      ensures StockTerm(w, level)(i) <= CapacityTerm(w)(i)
    {
      assert In(w, i);
      if Mixed(w, i) {
        assert Limit(w, i) >= 0.0;
      }
    }
    SumMonotone(w.lo, w.hi, StockTerm(w, level), CapacityTerm(w));
  }

  // ----- The first bracket -------------------------------------------------------------------

  ghost function FirstBottom(w: Window, i: int): real
    requires w.Valid() && i <= w.hi
    decreases i - w.lo
  {
    if i <= w.lo then LARGEST_DOUBLE
    else
      var rest := FirstBottom(w, i - 1);
      if In(w, i - 1) && Mixed(w, i - 1) && Floor(w, i - 1) < rest then Floor(w, i - 1) else rest
  }

  ghost function FirstTop(w: Window, i: int): real
    requires w.Valid() && i <= w.hi
    decreases i - w.lo
  {
    if i <= w.lo then 0.0
    else
      var rest := FirstTop(w, i - 1);
      if In(w, i - 1) && Mixed(w, i - 1) && w.inputs.load[i - 1] > rest then w.inputs.load[i - 1] else rest
  }

  lemma {:induction false} FirstBracketEncloses(w: Window, i: int)
    requires w.Valid() && w.lo <= i <= w.hi
    ensures BelowFloors(w, FirstBottom(w, i), i) && AboveLoads(w, FirstTop(w, i), i)
    decreases i - w.lo
  {
    if w.lo < i {
      FirstBracketEncloses(w, i - 1);
    }
  }

  ghost function FirstWidth(w: Window): real
    requires w.Valid()
  {
    var width := FirstTop(w, w.hi) - FirstBottom(w, w.hi);
    if width < 0.0 then 0.0 else width
  }

  lemma FirstBracket(w: Window)
    requires w.Valid()
    ensures Bracket(w, FirstBottom(w, w.hi), FirstTop(w, w.hi), FirstWidth(w))
  {
    var bottom, top := FirstBottom(w, w.hi), FirstTop(w, w.hi);
    FirstBracketEncloses(w, w.hi);
    NothingServedBelowFloors(w, bottom);
    AllServedAboveLoads(w, top);
    MixedHydroIsNonNegative(w);
    if !NoneMixed(w) {
      var i :| In(w, i) && Mixed(w, i);
      assert bottom <= Floor(w, i) < w.inputs.load[i] <= top;
    }
  }

  // How far the stock may still be from the target after k pourings.
  ghost function Gap(w: Window, k: nat): real
    requires w.Valid()
  {
    OverWindow(w, Halved(FirstWidth(w), k)) + Shortage(w)
  }

  ghost predicate BracketAt(w: Window, bottom: real, top: real, k: nat)
    requires w.Valid()
  {
    Bracket(w, bottom, top, Halved(FirstWidth(w), k))
  }

  // One turn of the bisection.
  lemma Turn(w: Window, bottom: real, top: real, k: nat, middle: real, stock: real)
    requires w.Valid() && BracketAt(w, bottom, top, k)
    requires middle == (top + bottom) * 0.5 && stock == Stock(w, middle)
    ensures Distance(MixedHydro(w), stock) <= Gap(w, k + 1)
    ensures MixedHydro(w) - stock > 0.0 ==> BracketAt(w, middle, top, k + 1)
    ensures MixedHydro(w) - stock <= 0.0 ==> BracketAt(w, bottom, middle, k + 1)
  {
    var width := Halved(FirstWidth(w), k);
    MiddleIsClose(w, bottom, top, width);
    BracketShrinks(w, bottom, top, width);
    assert Halved(FirstWidth(w), k + 1) == width * 0.5;
  }

  // ----- When the bisection gets there ----------------------------------------------------------

  // The bracket after k turns, and the level poured at next.
  ghost function Turned(w: Window, k: nat): (bracket: (real, real))
    requires w.Valid()
    decreases k, 0
  {
    if k == 0 then (FirstBottom(w, w.hi), FirstTop(w, w.hi))
    else
      var before, middle := Turned(w, k - 1), Middle(w, k - 1);
      if MixedHydro(w) - Stock(w, middle) > 0.0 then (middle, before.1) else (before.0, middle)
  }

  ghost function Middle(w: Window, k: nat): real
    requires w.Valid()
    decreases k, 1
  {
    var bracket := Turned(w, k);
    (bracket.1 + bracket.0) * 0.5
  }

  ghost predicate Hits(w: Window, level: real)
    requires w.Valid()
  {
    Distance(MixedHydro(w), Stock(w, level)) <= TOLERANCE
  }

  ghost predicate Missed(w: Window, turns: nat)
    requires w.Valid()
  {
    forall k: nat :: k < turns ==> !Hits(w, Middle(w, k))
  }

  // One of the levels poured at hits the target. The last turn comes too late.
  ghost predicate Converges(w: Window)
    requires w.Valid()
  {
    !Missed(w, MAX_ITERATIONS - 1)
  }

  lemma {:induction false} TurnedEncloses(w: Window, k: nat)
    requires w.Valid()
    ensures BracketAt(w, Turned(w, k).0, Turned(w, k).1, k)
  {
    if k == 0 {
      FirstBracket(w);
    } else {
      TurnedEncloses(w, k - 1);
      var before, middle := Turned(w, k - 1), Middle(w, k - 1);
      Turn(w, before.0, before.1, k - 1, middle, Stock(w, middle));
    }
  }

  // The bisection gets there when the last width is small enough.
  lemma SmallGapConverges(w: Window)
    requires w.Valid() && Gap(w, MAX_ITERATIONS - 1) <= TOLERANCE
    ensures Converges(w)
  {
    var last: nat := MAX_ITERATIONS - 2;
    TurnedEncloses(w, last);
    var bracket, middle := Turned(w, last), Middle(w, last);
    Turn(w, bracket.0, bracket.1, last, middle, Stock(w, middle));
    assert Hits(w, middle);
  }

  // No level places energy that the hours have no room for.
  lemma ShortageNeverConverges(w: Window)
    requires w.Valid() && Shortage(w) > TOLERANCE
    ensures !Converges(w)
  {
    forall k: nat
      ensures !Hits(w, Middle(w, k))
    {
      StockWithinCapacity(w, Middle(w, k));
    }
  }

  // The window shows what the code reads: its inputs, and its hours of H and D.
  ghost predicate Sees(w: Window, offset: nat, end: nat, inputs: Inputs, H: seq<real>, D: seq<real>) {
    && w.lo == offset && w.hi == end && w.inputs == inputs && w.Valid()
    && |H| == |D| == |w.hydro|
    && forall i :: In(w, i) ==> H[i] == w.hydro[i] && D[i] == w.unsupplied[i]
  }

  // ----- The code -----------------------------------------------------------------------------

  // The hours of the window hold the energies poured at this level.
  ghost predicate Poured(w: Window, level: real, hydro: seq<real>, unsupplied: seq<real>, i: int)
    requires w.Valid() && w.hi <= |hydro| && w.hi <= |unsupplied|
  {
    forall h :: w.lo <= h < i && In(w, h) ==>
      hydro[h] == Served(w, h, level) && unsupplied[h] == Total(w, h) - Served(w, h, level)
  }

  method ServeHour(load: real, floor: real, maxPower: real, hydro: real, unsupplied: real, level: real)
    returns (served: real, left: real)
    requires 0.0 <= hydro && 0.0 <= unsupplied && 0.0 <= maxPower
    requires floor == load - (hydro + unsupplied)
    ensures served == Clamp(level - floor, if hydro + unsupplied < maxPower then hydro + unsupplied else maxPower)
    ensures left == hydro + unsupplied - served
  {
    if level > load {
      served := hydro + unsupplied;
      if served > maxPower {
        served := maxPower;
        left := hydro + unsupplied - served;
      } else {
        left := 0.0;
      }
    } else {
      if floor > level {
        served := 0.0;
        left := hydro + unsupplied;
      } else {
        served := level - floor;
        if served > maxPower {
          served := maxPower;
        }
        left := hydro + unsupplied - served;
      }
    }
  }

  method Pour(inputs: Inputs, H: array<real>, D: array<real>, remix: array<bool>, G: array<real>,
              offset: nat, end: nat, level: real, HE: array<real>, DE: array<real>, ghost w: Window)
    returns (stock: real)
    requires H.Length == D.Length == remix.Length == G.Length == HE.Length == DE.Length
    requires HE != DE && HE != H && HE != D && DE != H && DE != D && HE != G && DE != G
    requires Sees(w, offset, end, inputs, H[..], D[..])
    requires Marked(w, w.hi, remix[..], G[..])
    modifies HE, DE
    ensures Poured(w, level, HE[..], DE[..], end)
    ensures stock == Stock(w, level)
  {
    stock := 0.0;
    for i := offset to end
      invariant Sees(w, offset, end, inputs, H[..], D[..])
      invariant Poured(w, level, HE[..], DE[..], i)
      invariant Stocked(w, level, i, stock)
    {
      assert In(w, i);
      ghost var he, de := HE[..], DE[..];
      HE[i], DE[i], stock := PourHour(inputs, i, remix[i], G[i], H[i], D[i], level, stock, w);
      PouredOneMore(w, level, he, de, HE[..], DE[..], i);
    }
  }

  method PourHour(inputs: Inputs, i: nat, mixed: bool, floor: real, hydro: real, unsupplied: real, level: real,
                  before: real, ghost w: Window) returns (served: real, left: real, stock: real)
    requires w.Valid() && w.inputs == inputs && In(w, i) && hydro == w.hydro[i] && unsupplied == w.unsupplied[i]
    requires mixed == Mixed(w, i) && (mixed ==> floor == Floor(w, i)) && Stocked(w, level, i, before)
    ensures served == Served(w, i, level) && left == Total(w, i) - Served(w, i, level)
    ensures Stocked(w, level, i + 1, stock)
  {
    OneMoreStocked(w, level, i, before);
    stock := before;
    if mixed {
      served, left := ServeHour(inputs.load[i], floor, inputs.maxPower[i], hydro, unsupplied, level);
      stock := stock + served;
    } else {
      served, left := hydro, unsupplied;
    }
  }

  ghost predicate Stocked(w: Window, level: real, i: int, stock: real)
    requires w.Valid()
  {
    stock == Sum(w.lo, i, StockTerm(w, level))
  }

  lemma OneMoreStocked(w: Window, level: real, i: int, stock: real)
    requires w.Valid() && In(w, i) && Stocked(w, level, i, stock)
    ensures Stocked(w, level, i + 1, if Mixed(w, i) then stock + Served(w, i, level) else stock)
  {
  }

  lemma PouredOneMore(w: Window, level: real, he: seq<real>, de: seq<real>, he': seq<real>, de': seq<real>, i: int)
    requires w.Valid() && In(w, i) && w.hi <= |he| == |de| == |he'| == |de'|
    requires Poured(w, level, he, de, i)
    requires forall h :: 0 <= h < |he| && h != i ==> he'[h] == he[h] && de'[h] == de[h]
    requires he'[i] == Served(w, i, level) && de'[i] == Total(w, i) - Served(w, i, level)
    ensures Poured(w, level, he', de', i + 1)
  {
  }

  // Marks the hours to remix, with their floors, and finds the bracket and the energy to place.
  method Collect(inputs: Inputs, H: array<real>, D: array<real>, remix: array<bool>, G: array<real>,
                 offset: nat, end: nat, ghost w: Window)
    returns (bottom: real, top: real, energy: real)
    requires H.Length == D.Length == remix.Length == G.Length && G != H && G != D
    requires Sees(w, offset, end, inputs, H[..], D[..])
    requires forall i :: In(w, i) ==> !remix[i]
    modifies remix, G
    ensures Marked(w, w.hi, remix[..], G[..])
    ensures forall i :: 0 <= i < remix.Length && !In(w, i) ==> remix[i] == old(remix[i])
    ensures bottom == FirstBottom(w, end) && top == FirstTop(w, end) && energy == MixedHydro(w)
  {
    bottom, top, energy := LARGEST_DOUBLE, 0.0, 0.0;
    for i := offset to end
      invariant Sees(w, offset, end, inputs, H[..], D[..])
      invariant Marked(w, i, remix[..], G[..]) && Bracketed(w, i, bottom, top, energy)
      invariant forall h :: 0 <= h < remix.Length && !In(w, h) ==> remix[h] == old(remix[h])
    {
      assert In(w, i);
      ghost var marks, floors := remix[..], G[..];
      OneMoreBracketed(w, i, bottom, top, energy);
      var total := H[i] + D[i];
      if total > 0.0 && IsZero(inputs.spilled[i] + inputs.margin[i]) {
        remix[i] := true;
        G[i] := inputs.load[i] - total;
        if G[i] < bottom {
          bottom := G[i];
        }
        if inputs.load[i] > top {
          top := inputs.load[i];
        }
        energy := energy + H[i];
      }
      OneMoreMarked(w, i, marks, floors, remix[..], G[..]);
    }
  }

  ghost predicate Bracketed(w: Window, i: int, bottom: real, top: real, energy: real)
    requires w.Valid() && i <= w.hi
  {
    bottom == FirstBottom(w, i) && top == FirstTop(w, i) && energy == Sum(w.lo, i, HydroTerm(w))
  }

  lemma OneMoreBracketed(w: Window, i: int, bottom: real, top: real, energy: real)
    requires w.Valid() && In(w, i) && Bracketed(w, i, bottom, top, energy)
    ensures if Mixed(w, i) then
              Bracketed(w, i + 1, if Floor(w, i) < bottom then Floor(w, i) else bottom,
                        if w.inputs.load[i] > top then w.inputs.load[i] else top, energy + w.hydro[i])
            else Bracketed(w, i + 1, bottom, top, energy)
  {
  }

  // The hours before i are marked when they are to be remixed, with their floors.
  ghost predicate Marked(w: Window, i: int, remix: seq<bool>, G: seq<real>)
    requires w.Valid()
  {
    && w.hi <= |remix| == |G|
    && forall h :: In(w, h) ==>
         remix[h] == (h < i && Mixed(w, h)) && (h < i && Mixed(w, h) ==> G[h] == Floor(w, h))
  }

  lemma OneMoreMarked(w: Window, i: int, remix: seq<bool>, G: seq<real>, remix': seq<bool>, G': seq<real>)
    requires w.Valid() && In(w, i) && Marked(w, i, remix, G) && |remix'| == |G'| == |remix|
    requires forall h :: In(w, h) && h != i ==> remix'[h] == remix[h] && G'[h] == G[h]
    requires remix'[i] == Mixed(w, i) && (Mixed(w, i) ==> G'[i] == Floor(w, i))
    ensures Marked(w, i + 1, remix', G')
  {
  }

  // The bisection: each turn pours at the middle level, then keeps the half that holds the target.
  method Bisect(inputs: Inputs, H: array<real>, D: array<real>, remix: array<bool>, G: array<real>,
                offset: nat, end: nat, lowest: real, highest: real, energy: real,
                HE: array<real>, DE: array<real>, ghost w: Window)
    returns (status: bool, ghost level: real)
    requires H.Length == D.Length == remix.Length == G.Length == HE.Length == DE.Length
    requires HE != DE && HE != H && HE != D && DE != H && DE != D && HE != G && DE != G
    requires Sees(w, offset, end, inputs, H[..], D[..])
    requires Marked(w, w.hi, remix[..], G[..])
    requires lowest == FirstBottom(w, end) && highest == FirstTop(w, end) && energy == MixedHydro(w)
    modifies HE, DE
    ensures Poured(w, level, HE[..], DE[..], end)
    ensures status <==> Converges(w)
    ensures status ==> Hits(w, level)
  {
    status := true;
    level := lowest;
    var bottom, top := lowest, highest;
    var loop := MAX_ITERATIONS;
    var searching := true;
    ghost var turns: nat := 0;
    while searching
      invariant 0 <= loop <= MAX_ITERATIONS && turns == MAX_ITERATIONS - loop
      invariant Sees(w, offset, end, inputs, H[..], D[..])
      invariant searching ==> status && 0 < loop && (bottom, top) == Turned(w, turns) && Missed(w, turns)
      invariant !searching ==> Poured(w, level, HE[..], DE[..], end)
      invariant !searching ==> status == Converges(w) && (status ==> Hits(w, level))
      decreases loop, searching
    {
      var middle := (top + bottom) * 0.5;
      var stock := Pour(inputs, H, D, remix, G, offset, end, middle, HE, DE, w);
      level := middle;
      var gap := energy - stock;
      assert level == Middle(w, turns);
      if gap > 0.0 {
        bottom := middle;
      } else {
        top := middle;
      }
      loop := loop - 1;
      turns := turns + 1;
      if loop == 0 {
        status := false;
        searching := false;
      } else {
        searching := Magnitude(gap) > TOLERANCE;
      }
    }
  }

  // ----- One window ---------------------------------------------------------------------------

  ghost function At(s: seq<real>): int -> real {
    i => if 0 <= i < |s| then s[i] else 0.0
  }

  ghost function MovableTerm(w: Window): int -> real
    requires w.Valid()
  {
    i => if In(w, i) && w.inputs.spilled[i] < EPSILON then w.hydro[i] else 0.0
  }

  // The window is left alone without unsupplied energy, or without hydro energy in hours
  // that spill nothing.
  ghost predicate Skipped(w: Window)
    requires w.Valid()
  {
    Sum(w.lo, w.hi, At(w.unsupplied)) < EPSILON || Sum(w.lo, w.hi, MovableTerm(w)) < EPSILON
  }

  // The hours of the window afterwards.
  ghost predicate Remixed(w: Window, level: real, hydro: seq<real>, unsupplied: seq<real>, status: bool)
    requires w.Valid() && |hydro| == |unsupplied| == |w.hydro|
  {
    if Skipped(w) then
      && status
      && forall i :: In(w, i) ==> hydro[i] == w.hydro[i] && unsupplied[i] == w.unsupplied[i]
    else
      && Poured(w, level, hydro, unsupplied, w.hi)
      && (status <==> Converges(w))
      && (status ==> Hits(w, level))
  }

  method IsSkipped(inputs: Inputs, H: array<real>, D: array<real>, offset: nat, end: nat, ghost w: Window)
    returns (skip: bool)
    requires H.Length == D.Length && Sees(w, offset, end, inputs, H[..], D[..])
    ensures skip == Skipped(w)
  {
    var unsupplied := 0.0;
    for i := offset to end
      invariant unsupplied == Sum(offset, i, At(w.unsupplied))
    {
      unsupplied := unsupplied + D[i];
    }
    if unsupplied < EPSILON {
      return true;
    }
    var hydro := 0.0;
    for i := offset to end
      invariant hydro == Sum(offset, i, MovableTerm(w))
    {
      assert In(w, i);
      if inputs.spilled[i] < EPSILON {
        hydro := hydro + H[i];
      }
    }
    return hydro < EPSILON;
  }

  method RemixWindow(inputs: Inputs, H: array<real>, D: array<real>, remix: array<bool>, G: array<real>,
                     HE: array<real>, DE: array<real>, offset: nat, end: nat, ghost w: Window)
    returns (status: bool, ghost level: real)
    requires H.Length == D.Length == remix.Length == G.Length == HE.Length == DE.Length
    requires H != D && G != H && G != D
    requires HE != DE && HE != H && HE != D && DE != H && DE != D && HE != G && DE != G
    requires Sees(w, offset, end, inputs, H[..], D[..])
    requires forall i :: In(w, i) ==> !remix[i]
    modifies H, D, remix, G, HE, DE
    ensures Remixed(w, level, H[..], D[..], status)
    ensures forall i :: 0 <= i < H.Length && !In(w, i) ==>
              H[i] == old(H[i]) && D[i] == old(D[i]) && remix[i] == old(remix[i])
  {
    level := 0.0;
    var skip := IsSkipped(inputs, H, D, offset, end, w);
    if skip {
      return true, level;
    }
    var bottom, top, energy := Collect(inputs, H, D, remix, G, offset, end, w);
    status, level := Bisect(inputs, H, D, remix, G, offset, end, bottom, top, energy, HE, DE, w);
    CopyWindow(HE, H, offset, end);
    CopyWindow(DE, D, offset, end);
  }

  method CopyWindow(source: array<real>, target: array<real>, offset: nat, end: nat)
    requires source.Length == target.Length && source != target && offset <= end <= source.Length
    modifies target
    ensures forall i :: 0 <= i < target.Length ==>
              target[i] == if offset <= i < end then source[i] else old(target[i])
  {
    for i := offset to end
      invariant forall h :: 0 <= h < target.Length ==>
                  target[h] == if offset <= h < i then source[h] else old(target[h])
    {
      target[i] := source[i];
    }
  }

  // ----- All the windows of an area --------------------------------------------------------------

  ghost function WindowAt(k: nat, step: nat, hydro: seq<real>, unsupplied: seq<real>, inputs: Inputs): Window {
    Window(k * step, k * step + step, hydro, unsupplied, inputs)
  }

  // Window k has the outcome of a remix of the area as it was at first.
  ghost predicate WindowDone(k: nat, step: nat, week: Window, level: real, hydro: seq<real>, unsupplied: seq<real>,
                             status: bool)
  {
    var w := WindowAt(k, step, week.hydro, week.unsupplied, week.inputs);
    w.Valid() && |hydro| == |unsupplied| == |w.hydro| && Remixed(w, level, hydro, unsupplied, status)
  }

  ghost predicate WindowsDone(step: nat, week: Window, levels: seq<real>, hydro: seq<real>, unsupplied: seq<real>,
                              outcomes: seq<bool>)
  {
    && |levels| == |outcomes|
    && forall k :: 0 <= k < |levels| ==> WindowDone(k, step, week, levels[k], hydro, unsupplied, outcomes[k])
  }

  ghost predicate Untouched(week: Window, H: seq<real>, D: seq<real>, remix: seq<bool>, offset: nat) {
    && |H| == |D| == |remix| == |week.hydro| == |week.unsupplied|
    && forall i :: offset <= i < |H| ==> H[i] == week.hydro[i] && D[i] == week.unsupplied[i] && !remix[i]
  }

  method RemixNext(inputs: Inputs, H: array<real>, D: array<real>, remix: array<bool>, G: array<real>,
                   HE: array<real>, DE: array<real>, offset: nat, end: nat,
                   ghost step: nat, ghost week: Window, ghost levels: seq<real>, ghost outcomes: seq<bool>)
    returns (ok: bool, ghost level: real)
    requires H.Length == D.Length == remix.Length == G.Length == HE.Length == DE.Length
    requires H != D && G != H && G != D
    requires HE != DE && HE != H && HE != D && DE != H && DE != D && HE != G && DE != G
    requires offset == |levels| * step && end == offset + step <= H.Length
    requires week.lo == 0 && week.hi == H.Length && week.inputs == inputs && week.Valid()
    requires Untouched(week, H[..], D[..], remix[..], offset)
    requires WindowsDone(step, week, levels, H[..], D[..], outcomes)
    modifies H, D, remix, G, HE, DE
    ensures Untouched(week, H[..], D[..], remix[..], end)
    ensures WindowsDone(step, week, levels + [level], H[..], D[..], outcomes + [ok])
  {
    ghost var w := WindowAt(|levels|, step, week.hydro, week.unsupplied, inputs);
    ghost var before, left := H[..], D[..];
    ok, level := RemixWindow(inputs, H, D, remix, G, HE, DE, offset, end, w);
    EarlierWindowsKept(step, week, levels, before, left, outcomes, H[..], D[..], level, ok);
  }

  // Every window of the area is remixed as if it were alone, and the area succeeds when all do.
  method Remix(inputs: Inputs, H: array<real>, D: array<real>, step: nat, ghost windows: nat)
    returns (status: bool, ghost levels: seq<real>, ghost outcomes: seq<bool>)
    requires H != D && H.Length == D.Length == windows * step && step > 0
    requires Window(0, H.Length, H[..], D[..], inputs).Valid()
    modifies H, D
    ensures |levels| == windows
    ensures WindowsDone(step, Window(0, H.Length, old(H[..]), old(D[..]), inputs), levels, H[..], D[..], outcomes)
    ensures status <==> false !in outcomes
  {
    ghost var week := Window(0, H.Length, H[..], D[..], inputs);
    var n := H.Length;
    var HE, DE, G := new real[n](_ => 0.0), new real[n](_ => 0.0), new real[n](_ => 0.0);
    var remix := new bool[n](_ => false);
    status, levels, outcomes := true, [], [];
    var offset, end := 0, step;
    while offset < n
      invariant |levels| <= windows && offset == |levels| * step && end == offset + step
      invariant Untouched(week, H[..], D[..], remix[..], offset)
      invariant WindowsDone(step, week, levels, H[..], D[..], outcomes)
      invariant status <==> false !in outcomes
      decreases n - offset
    {
      MultiplesInOrder(|levels|, windows, step);
      var ok, level := RemixNext(inputs, H, D, remix, G, HE, DE, offset, end, step, week, levels, outcomes);
      if !ok {
        status := false;
      }
      NextMultiple(|levels|, step);
      levels, outcomes := levels + [level], outcomes + [ok];
      offset, end := offset + step, end + step;
    }
    MultiplesInOrder(|levels|, windows, step);
  }

  lemma EarlierWindowsKept(step: nat, week: Window, levels: seq<real>, hydro: seq<real>, unsupplied: seq<real>,
                           outcomes: seq<bool>, hydro': seq<real>, unsupplied': seq<real>, level: real, status: bool)
    requires |hydro| == |unsupplied| == |hydro'| == |unsupplied'|
    requires WindowsDone(step, week, levels, hydro, unsupplied, outcomes)
    requires forall i :: 0 <= i < |hydro| && i < |levels| * step ==>
               hydro'[i] == hydro[i] && unsupplied'[i] == unsupplied[i]
    requires WindowDone(|levels|, step, week, level, hydro', unsupplied', status)
    ensures WindowsDone(step, week, levels + [level], hydro', unsupplied', outcomes + [status])
  {
    forall k | 0 <= k < |levels|
      ensures WindowDone(k, step, week, levels[k], hydro', unsupplied', outcomes[k])
    {
      assert WindowDone(k, step, week, levels[k], hydro, unsupplied, outcomes[k]);
      MultiplesInOrder(k, |levels|, step);
      RemixedElsewhere(WindowAt(k, step, week.hydro, week.unsupplied, week.inputs), levels[k],
                       hydro, unsupplied, hydro', unsupplied', outcomes[k]);
    }
  }

  lemma {:induction false} MultiplesInOrder(j: nat, k: nat, step: nat)
    ensures j < k ==> j * step + step <= k * step
    ensures j >= k ==> j * step >= k * step
    decreases j + k
  {
    if j + 1 < k {
      MultiplesInOrder(j, k - 1, step);
      NextMultiple(k - 1, step);
    } else if j + 1 == k {
      NextMultiple(j, step);
    } else if j > k {
      MultiplesInOrder(j - 1, k, step);
      NextMultiple(j - 1, step);
    }
  }

  lemma NextMultiple(k: nat, step: nat)
    ensures (k + 1) * step == k * step + step
  {
  }

  // A window's outcome depends on its own hours only.
  lemma RemixedElsewhere(w: Window, level: real, hydro: seq<real>, unsupplied: seq<real>,
                         hydro': seq<real>, unsupplied': seq<real>, status: bool)
    requires w.Valid() && |hydro| == |unsupplied| == |hydro'| == |unsupplied'| == |w.hydro|
    requires Remixed(w, level, hydro, unsupplied, status)
    requires forall i :: In(w, i) ==> hydro'[i] == hydro[i] && unsupplied'[i] == unsupplied[i]
    ensures Remixed(w, level, hydro', unsupplied', status)
  {
  }

  // ----- What a remixed window keeps -----------------------------------------------------------

  // Hydro plus unsupplied energy is unchanged hour by hour, nothing is negative, and a mixed
  // hour stays within its maximum power.
  lemma RemixedHourConserves(w: Window, level: real, hydro: seq<real>, unsupplied: seq<real>, status: bool, i: int)
    requires w.Valid() && |hydro| == |unsupplied| == |w.hydro| && In(w, i)
    requires Remixed(w, level, hydro, unsupplied, status)
    ensures hydro[i] + unsupplied[i] == Total(w, i)
    ensures 0.0 <= hydro[i] && 0.0 <= unsupplied[i]
    ensures !Skipped(w) && Mixed(w, i) ==> hydro[i] <= w.inputs.maxPower[i]
    ensures !Mixed(w, i) ==> hydro[i] == w.hydro[i]
  {
    if !Skipped(w) && Mixed(w, i) {
      assert 0.0 <= Limit(w, i) <= Total(w, i);
    }
  }

  // ----- What a remix does, from the input alone ------------------------------------------------------

  ghost function UnsuppliedAt(unsupplied: seq<real>): int -> real {
    i => if 0 <= i < |unsupplied| then unsupplied[i] else 0.0
  }

  ghost function HydroWithoutSpill(hydro: seq<real>, spilled: seq<real>): int -> real {
    i => if 0 <= i < |hydro| && i < |spilled| && spilled[i] < 1.0e-6 then hydro[i] else 0.0
  }

  // The window is worth remixing: it lacks energy, and has some in hours that spill none.
  ghost predicate WorthRemixing(w: Window) {
    && Sum(w.lo, w.hi, UnsuppliedAt(w.unsupplied)) >= 1.0e-6
    && Sum(w.lo, w.hi, HydroWithoutSpill(w.hydro, w.inputs.spilled)) >= 1.0e-6
  }

  // The hour may change: it has energy to move or lacks some, spills none and has no margin left.
  ghost predicate MayChange(w: Window, i: int)
    requires w.Valid() && In(w, i)
  {
    w.hydro[i] + w.unsupplied[i] > 0.0 && -1.0e-6 < w.inputs.spilled[i] + w.inputs.margin[i] < 1.0e-6
  }

  lemma SkippedExactly(w: Window)
    requires w.Valid()
    ensures Skipped(w) <==> !WorthRemixing(w)
  {
    forall i | w.lo <= i < w.hi
      ensures At(w.unsupplied)(i) == UnsuppliedAt(w.unsupplied)(i)
      ensures MovableTerm(w)(i) == HydroWithoutSpill(w.hydro, w.inputs.spilled)(i)
    {
      assert In(w, i);
    }
    SumExtensional(w.lo, w.hi, At(w.unsupplied), UnsuppliedAt(w.unsupplied));
    SumExtensional(w.lo, w.hi, MovableTerm(w), HydroWithoutSpill(w.hydro, w.inputs.spilled));
  }

  // Windows that are not worth it and hours that may not change keep their energies. The other hours get
  // what brings their net load up to the level, neither less than nothing nor more than their energy or
  // the power of the turbines; the rest of their energy is not supplied.
  lemma RemixedHourExactly(w: Window, level: real, hydro: seq<real>, unsupplied: seq<real>, status: bool, i: int)
    requires w.Valid() && |hydro| == |unsupplied| == |w.hydro| && In(w, i)
    requires Remixed(w, level, hydro, unsupplied, status)
    ensures if !WorthRemixing(w) || !MayChange(w, i) then
              hydro[i] == w.hydro[i] && unsupplied[i] == w.unsupplied[i]
            else
              var energy := w.hydro[i] + w.unsupplied[i];
              var wanted := level - (w.inputs.load[i] - energy);
              && hydro[i] == Max(0.0, Min(wanted, Min(energy, w.inputs.maxPower[i])))
              && hydro[i] + unsupplied[i] == energy
  {
    SkippedExactly(w);
    assert Mixed(w, i) <==> MayChange(w, i);
    if !Skipped(w) {
      assert hydro[i] == Served(w, i, level) && unsupplied[i] == Total(w, i) - Served(w, i, level);
      if Mixed(w, i) {
        assert 0.0 <= Limit(w, i);
      }
    }
  }

  // A window fails exactly when it is worth remixing and none of the first 99 levels of the bisection
  // places its energy to within a hundredth.
  lemma FailsExactly(w: Window, level: real, hydro: seq<real>, unsupplied: seq<real>, status: bool)
    requires w.Valid() && |hydro| == |unsupplied| == |w.hydro| && Remixed(w, level, hydro, unsupplied, status)
    ensures status <==>
            !WorthRemixing(w) || exists k: nat :: k < 99 && Distance(MixedHydro(w), Stock(w, Middle(w, k))) <= 0.01
  {
    SkippedExactly(w);
    if !Skipped(w) && Converges(w) {
      var k: nat :| k < MAX_ITERATIONS - 1 && Hits(w, Middle(w, k));
      assert Distance(MixedHydro(w), Stock(w, Middle(w, k))) <= 0.01;
    }
    if k: nat :| k < 99 && Distance(MixedHydro(w), Stock(w, Middle(w, k))) <= 0.01 {
      assert Hits(w, Middle(w, k));
    }
  }

  // When the bisection succeeds, the hydro energy of the window changes by at most the
  // tolerance; and when every hour turbined within its maximum power and the first bracket is
  // not absurdly wide, it succeeds.
  lemma RemixedWindowConserves(w: Window, level: real, hydro: seq<real>, unsupplied: seq<real>, status: bool)
    requires w.Valid() && |hydro| == |unsupplied| == |w.hydro|
    requires Remixed(w, level, hydro, unsupplied, status)
    ensures status ==> Distance(Sum(w.lo, w.hi, At(w.hydro)), Sum(w.lo, w.hi, At(hydro))) <= 0.01
    ensures status <==> Skipped(w) || Converges(w)
  {
    if Skipped(w) {
      SumExtensional(w.lo, w.hi, At(w.hydro), At(hydro));
    } else {
      HydroBeforePouring(w);
      HydroAfterPouring(w, level, hydro, unsupplied);
    }
  }

  // What the hours that are not mixed hold.
  ghost function UnmixedTerm(w: Window): int -> real
    requires w.Valid()
  {
    i => if In(w, i) && !Mixed(w, i) then w.hydro[i] else 0.0
  }

  lemma HydroBeforePouring(w: Window)
    requires w.Valid()
    ensures Sum(w.lo, w.hi, At(w.hydro)) == Sum(w.lo, w.hi, UnmixedTerm(w)) + MixedHydro(w)
  {
    forall i | w.lo <= i < w.hi
      ensures At(w.hydro)(i) == UnmixedTerm(w)(i) + 1.0 * HydroTerm(w)(i)
    {
      assert In(w, i);
    }
    SumLinear(w.lo, w.hi, UnmixedTerm(w), 1.0, HydroTerm(w), At(w.hydro));
  }

  lemma HydroAfterPouring(w: Window, level: real, hydro: seq<real>, unsupplied: seq<real>)
    requires w.Valid() && |hydro| == |unsupplied| == |w.hydro| && Poured(w, level, hydro, unsupplied, w.hi)
    ensures Sum(w.lo, w.hi, At(hydro)) == Sum(w.lo, w.hi, UnmixedTerm(w)) + Stock(w, level)
  {
    forall i | w.lo <= i < w.hi
      ensures At(hydro)(i) == UnmixedTerm(w)(i) + 1.0 * StockTerm(w, level)(i)
    {
      assert In(w, i);
    }
    SumLinear(w.lo, w.hi, UnmixedTerm(w), 1.0, StockTerm(w, level), At(hydro));
  }

  // ----- The pouring is the best one -------------------------------------------------------------

  ghost predicate Admissible(w: Window, a: int -> real)
    requires w.Valid()
  {
    forall i :: In(w, i) && Mixed(w, i) ==> 0.0 <= a(i) <= Limit(w, i)
  }

  ghost function Squared(x: real): real { x * x }

  ghost function SquareTerm(w: Window, a: int -> real): int -> real
    requires w.Valid()
  {
    i => if In(w, i) && Mixed(w, i) then Squared(w.inputs.load[i] - (Total(w, i) - a(i))) else 0.0
  }

  ghost function Placed(w: Window, a: int -> real): int -> real
    requires w.Valid()
  {
    i => if In(w, i) && Mixed(w, i) then a(i) else 0.0
  }

  ghost function DeviationTerm(w: Window, a: int -> real, b: int -> real): int -> real
    requires w.Valid()
  {
    i => if In(w, i) && Mixed(w, i) then Squared(a(i) - b(i)) else 0.0
  }

  // In one hour: moving away from the poured energy costs at least the square of the move,
  // and what the move itself is worth at the level.
  ghost predicate WorthIt(other: real, best: real, apart: real, price: real, a: real, b: real) {
    other >= best + apart + price * (a - b)
  }

  lemma HourIsOptimal(load: real, total: real, limit: real, level: real, price: real, served: real, other: real)
    requires 0.0 <= limit && served == Clamp(level - (load - total), limit)
    requires 0.0 <= other <= limit && price == 2.0 * level
    ensures WorthIt(Squared(load - (total - other)), Squared(load - (total - served)), Squared(other - served),
                    price, other, served)
  {
    var move := other - served;
    var net := load - (total - served);
    var slack := net - level;
    assert slack * move >= 0.0;
    assert load - (total - other) == net + move;
    assert (net + move) * (net + move) == net * net + 2.0 * net * move + move * move;
    assert 2.0 * net * move == price * move + 2.0 * (slack * move);
  }

  ghost function PouredAt(w: Window, level: real): int -> real
    requires w.Valid()
  {
    i => if In(w, i) then Served(w, i, level) else 0.0
  }

  ghost function Squares(w: Window, a: int -> real): real
    requires w.Valid()
  {
    Sum(w.lo, w.hi, SquareTerm(w, a))
  }

  lemma HourIsOptimalAt(w: Window, level: real, price: real, other: int -> real, i: int)
    requires w.Valid() && In(w, i) && Admissible(w, other) && price == 2.0 * level
    ensures var poured := PouredAt(w, level);
            WorthIt(SquareTerm(w, other)(i), SquareTerm(w, poured)(i), DeviationTerm(w, other, poured)(i), price,
                    Placed(w, other)(i), Placed(w, poured)(i))
  {
    var poured := PouredAt(w, level);
    if Mixed(w, i) {
      assert 0.0 <= Limit(w, i);
      assert poured(i) == Served(w, i, level);
      HourIsOptimal(w.inputs.load[i], Total(w, i), Limit(w, i), level, price, poured(i), other(i));
      assert SquareTerm(w, other)(i) == Squared(w.inputs.load[i] - (Total(w, i) - other(i)));
      assert SquareTerm(w, poured)(i) == Squared(w.inputs.load[i] - (Total(w, i) - poured(i)));
      assert DeviationTerm(w, other, poured)(i) == Squared(other(i) - poured(i));
      assert Placed(w, other)(i) == other(i) && Placed(w, poured)(i) == poured(i);
    } else {
      assert WorthIt(0.0, 0.0, 0.0, price, 0.0, 0.0);
    }
  }

  // Among all ways to place the same hydro energy in the mixed hours within their limits, the
  // pouring has the least sum of squared net loads, and every other way is worse by at least
  // the square of its distance: the pouring is the only optimum.
  lemma PouringIsOptimal(w: Window, level: real, other: int -> real)
    requires w.Valid() && Admissible(w, other)
    requires Sum(w.lo, w.hi, Placed(w, other)) == Stock(w, level)
    ensures Squares(w, other)
            >= Squares(w, PouredAt(w, level)) + Sum(w.lo, w.hi, DeviationTerm(w, other, PouredAt(w, level)))
  {
    PouringIsBestAtItsLevel(w, level, other);
    assert 2.0 * level * 0.0 == 0.0;
  }

  // Any other way, whatever it places: the difference counts at twice the level.
  lemma PouringIsBestAtItsLevel(w: Window, level: real, other: int -> real)
    requires w.Valid() && Admissible(w, other)
    ensures WorthIt(Squares(w, other), Squares(w, PouredAt(w, level)),
                    Sum(w.lo, w.hi, DeviationTerm(w, other, PouredAt(w, level))), 2.0 * level,
                    Sum(w.lo, w.hi, Placed(w, other)), Stock(w, level))
  {
    var poured, price := PouredAt(w, level), 2.0 * level;
    PouredIsPlaced(w, level);
    HoursAreOptimal(w, level, price, other);
    SumDominates(w.lo, w.hi, SquareTerm(w, other), SquareTerm(w, poured), DeviationTerm(w, other, poured),
                 price, Placed(w, other), Placed(w, poured));
  }

  lemma HoursAreOptimal(w: Window, level: real, price: real, other: int -> real)
    requires w.Valid() && Admissible(w, other) && price == 2.0 * level
    ensures forall i :: w.lo <= i < w.hi ==>
              WorthIt(SquareTerm(w, other)(i), SquareTerm(w, PouredAt(w, level))(i),
                      DeviationTerm(w, other, PouredAt(w, level))(i), price,
                      Placed(w, other)(i), Placed(w, PouredAt(w, level))(i))
  {
    forall i | w.lo <= i < w.hi
      ensures WorthIt(SquareTerm(w, other)(i), SquareTerm(w, PouredAt(w, level))(i),
                      DeviationTerm(w, other, PouredAt(w, level))(i), price,
                      Placed(w, other)(i), Placed(w, PouredAt(w, level))(i))
    {
      assert In(w, i);
      HourIsOptimalAt(w, level, price, other, i);
    }
  }

  lemma PouredIsPlaced(w: Window, level: real)
    requires w.Valid()
    ensures Sum(w.lo, w.hi, Placed(w, PouredAt(w, level))) == Stock(w, level)
  {
    forall i | w.lo <= i < w.hi
      ensures Placed(w, PouredAt(w, level))(i) == StockTerm(w, level)(i)
    {
      assert In(w, i);
    }
    SumExtensional(w.lo, w.hi, Placed(w, PouredAt(w, level)), StockTerm(w, level));
  }

  lemma {:induction false} SumDominates(lo: int, hi: int, h: int -> real, f: int -> real, g: int -> real,
                                        c: real, p: int -> real, q: int -> real)
    requires forall i :: lo <= i < hi ==> WorthIt(h(i), f(i), g(i), c, p(i), q(i))
    ensures WorthIt(Sum(lo, hi, h), Sum(lo, hi, f), Sum(lo, hi, g), c, Sum(lo, hi, p), Sum(lo, hi, q))
    decreases hi - lo
  {
    if lo < hi {
      SumDominates(lo, hi - 1, h, f, g, c, p, q);
      WorthAdds(Sum(lo, hi - 1, h), Sum(lo, hi - 1, f), Sum(lo, hi - 1, g), c, Sum(lo, hi - 1, p), Sum(lo, hi - 1, q),
                h(hi - 1), f(hi - 1), g(hi - 1), p(hi - 1), q(hi - 1));
    }
  }

  lemma WorthAdds(h: real, f: real, g: real, c: real, p: real, q: real,
                  h': real, f': real, g': real, p': real, q': real)
    requires WorthIt(h, f, g, c, p, q) && WorthIt(h', f', g', c, p', q')
    ensures WorthIt(h + h', f + f', g + g', c, p + p', q + q')
  {
    var rest, last := p - q, p' - q';
    assert c * (rest + last) == c * rest + c * last;
    assert p + p' - (q + q') == rest + last;
  }

  // ----- A hundred turns are enough ------------------------------------------------------------

  ghost function Half(k: nat): real {
    if k == 0 then 1.0 else Half(k - 1) / 2.0
  }

  lemma {:induction false} HalvedByHalf(width: real, k: nat)
    ensures Halved(width, k) == width * Half(k)
  {
    if k > 0 {
      HalvedByHalf(width, k - 1);
      var half := Half(k - 1);
      assert width * half * 0.5 == width * (half / 2.0);
    }
  }

  lemma {:induction false} HalfIsPositive(k: nat)
    ensures Half(k) > 0.0
  {
    if k > 0 {
      HalfIsPositive(k - 1);
    }
  }

  lemma {:induction false} HalfAdds(a: nat, b: nat)
    ensures Half(a + b) == Half(a) * Half(b)
  {
    if b > 0 {
      HalfAdds(a, b - 1);
    }
  }

  lemma HalfSmall()
    ensures 0.0 < Half(MAX_ITERATIONS - 1) <= 1.0e-27
  {
    var tenth := Half(10);
    assert tenth == 1.0 / 1024.0;
    HalfAdds(10, 10);
    HalfAdds(20, 10);
    HalfAdds(30, 30);
    HalfAdds(60, 30);
    HalfAdds(90, 9);
    assert Half(20) <= 1.0e-6 && Half(30) <= 1.0e-9 && Half(60) <= 1.0e-18 && Half(90) <= 1.0e-27;
    HalfIsPositive(90);
    assert Half(9) == 1.0 / 512.0;
  }

  lemma ProductInOrder(a: real, a': real, b: real, b': real)
    requires 0.0 <= a <= a' && 0.0 <= b <= b'
    ensures 0.0 <= a * b <= a' * b'
  {
    assert a * b <= a' * b;
    assert a' * b <= a' * b';
  }

  // A week whose bracket spans at most 1e20, without hydro energy beyond the limits, is
  // remixed without the error of the last iteration.
  lemma ReasonableWindowSucceeds(w: Window)
    requires w.Valid() && w.hi - w.lo <= 168
    requires FirstWidth(w) <= 1.0e20
    requires forall i :: In(w, i) ==> w.hydro[i] <= w.inputs.maxPower[i]
    ensures Gap(w, MAX_ITERATIONS - 1) <= TOLERANCE && Converges(w)
  {
    NoShortageWithinMaxPower(w);
    LastBracketIsSmall(FirstWidth(w), w.hi - w.lo);
    SmallGapConverges(w);
  }

  lemma LastBracketIsSmall(width: real, hours: int)
    requires 0.0 <= width <= 1.0e20 && 0 <= hours <= 168
    ensures hours as real * Halved(width, MAX_ITERATIONS - 1) <= TOLERANCE
  {
    var turns: nat := MAX_ITERATIONS - 1;
    HalfSmall();
    HalvedByHalf(width, turns);
    ProductInOrder(width, 1.0e20, Half(turns), 1.0e-27);
    ProductInOrder(hours as real, 168.0, Halved(width, turns), 1.0e-7);
  }
}
