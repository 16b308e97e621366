// What the remix of a window comes to: how close to the best it is, and what it leaves as it is.

module RemixOutcomes {
  import opened Reals
  import opened Sums
  import opened HydroRemix

  // ----- Close to the best of all that place the same energy --------------------------------------

  // What the tolerance is worth at a level.
  ghost function Slack(level: real): real {
    Magnitude(2.0 * level) * TOLERANCE
  }

  lemma ProductWithin(price: real, gap: real, most: real)
    requires -most <= gap <= most
    ensures price * gap >= -(Magnitude(price) * most)
  {
    if 0.0 <= price {
      assert price * (gap + most) >= 0.0;
    } else {
      assert -price * (most - gap) >= 0.0;
    }
  }

  lemma WorthWithinTolerance(other: real, best: real, apart: real, price: real, a: real, b: real)
    requires WorthIt(other, best, apart, price, a, b) && Distance(a, b) <= TOLERANCE
    ensures best + apart <= other + Magnitude(price) * TOLERANCE
  {
    ProductWithin(price, a - b, TOLERANCE);
  }

  // No way to place the window's own energy within the limits has a sum of squared net loads that
  // is lower by more than the tolerance at twice the level.
  lemma RemixIsNearlyOptimal(w: Window, level: real, other: int -> real)
    requires w.Valid() && Admissible(w, other) && Hits(w, level)
    requires Sum(w.lo, w.hi, Placed(w, other)) == MixedHydro(w)
    ensures Squares(w, PouredAt(w, level)) + Sum(w.lo, w.hi, DeviationTerm(w, other, PouredAt(w, level)))
         <= Squares(w, other) + Slack(level)
  {
    PouringIsBestAtItsLevel(w, level, other);
    WorthWithinTolerance(Squares(w, other), Squares(w, PouredAt(w, level)),
                         Sum(w.lo, w.hi, DeviationTerm(w, other, PouredAt(w, level))), 2.0 * level,
                         Sum(w.lo, w.hi, Placed(w, other)), Stock(w, level));
  }

  // ----- Windows that are left as they are ---------------------------------------------------------

  ghost predicate InMix(w: Window, i: int)
    requires w.Valid()
  {
    In(w, i) && Mixed(w, i)
  }

  // Hour i could give to hour j, which has the lower net load.
  ghost predicate Uneven(w: Window, i: int, j: int)
    requires w.Valid() && InMix(w, i) && InMix(w, j)
  {
    0.0 < w.hydro[i] && w.hydro[j] < Limit(w, j) && Floor(w, i) + w.hydro[i] > Floor(w, j) + w.hydro[j]
  }

  ghost predicate Even(w: Window)
    requires w.Valid()
  {
    && (forall i :: InMix(w, i) ==> w.hydro[i] <= Limit(w, i))
    && (forall i, j :: InMix(w, i) && InMix(w, j) ==> !Uneven(w, i, j))
  }

  // The mixed hours hold what is poured at this level already.
  ghost predicate Holds(w: Window, level: real)
    requires w.Valid()
  {
    forall i :: InMix(w, i) ==> w.hydro[i] == Served(w, i, level)
  }

  lemma HoldingIsEven(w: Window, level: real)
    requires w.Valid() && Holds(w, level)
    ensures Even(w)
  {
    forall i | InMix(w, i)
      ensures w.hydro[i] <= Limit(w, i)
    {
      assert 0.0 <= Limit(w, i) && w.hydro[i] == Served(w, i, level);
    }
    forall i, j | InMix(w, i) && InMix(w, j)
      ensures !Uneven(w, i, j)
    {
      assert 0.0 <= Limit(w, i) && 0.0 <= Limit(w, j);
      assert w.hydro[i] == Served(w, i, level) && w.hydro[j] == Served(w, j, level);
    }
  }

  // The highest net load of the mixed hours before hour i that turbine at all, or a level below all
  // floors.
  ghost function Highest(w: Window, i: int): real
    requires w.Valid() && w.lo <= i <= w.hi
    decreases i - w.lo
  {
    if i == w.lo then FirstBottom(w, w.hi)
    else
      var rest := Highest(w, i - 1);
      if Mixed(w, i - 1) && 0.0 < w.hydro[i - 1] then Max(rest, Floor(w, i - 1) + w.hydro[i - 1]) else rest
  }

  // The level is that of an hour, or below all floors, and no hour that turbines is above it.
  ghost predicate IsHighest(w: Window, level: real, i: int)
    requires w.Valid()
  {
    && (forall k :: InMix(w, k) && k < i && 0.0 < w.hydro[k] ==> Floor(w, k) + w.hydro[k] <= level)
    && (|| level <= FirstBottom(w, w.hi)
        || exists k :: InMix(w, k) && 0.0 < w.hydro[k] && level == Floor(w, k) + w.hydro[k])
  }

  lemma {:induction false} HighestIsHighest(w: Window, i: int)
    requires w.Valid() && w.lo <= i <= w.hi
    ensures IsHighest(w, Highest(w, i), i)
    decreases i - w.lo
  {
    if w.lo < i {
      HighestIsHighest(w, i - 1);
      var k := i - 1;
      if Mixed(w, k) && 0.0 < w.hydro[k] {
        assert InMix(w, k);
      }
    }
  }

  lemma EvenIsHeld(w: Window)
    requires w.Valid() && Even(w)
    ensures Holds(w, Highest(w, w.hi))
  {
    var level := Highest(w, w.hi);
    HighestIsHighest(w, w.hi);
    FirstBracketEncloses(w, w.hi);
    forall i | InMix(w, i)
      ensures w.hydro[i] == Served(w, i, level)
    {
      assert w.hydro[i] <= Limit(w, i);
      if level > FirstBottom(w, w.hi) {
        var k :| InMix(w, k) && 0.0 < w.hydro[k] && level == Floor(w, k) + w.hydro[k];
        assert !Uneven(w, k, i);
      }
    }
  }

  // Even windows are those that hold what some level pours.
  lemma EvenExactly(w: Window)
    requires w.Valid()
    ensures Even(w) <==> exists level :: Holds(w, level)
  {
    if Even(w) {
      EvenIsHeld(w);
    }
    if level :| Holds(w, level) {
      HoldingIsEven(w, level);
    }
  }

  ghost predicate Unmoved(w: Window, hydro: seq<real>)
    requires w.Valid() && |hydro| == |w.hydro|
  {
    forall i :: In(w, i) ==> hydro[i] == w.hydro[i]
  }

  // A remix leaves a window as it is exactly when it is skipped or already holds what is poured.
  lemma UnmovedExactly(w: Window, level: real, hydro: seq<real>, unsupplied: seq<real>, status: bool)
    requires w.Valid() && |hydro| == |unsupplied| == |w.hydro| && Remixed(w, level, hydro, unsupplied, status)
    ensures Unmoved(w, hydro) <==> Skipped(w) || Holds(w, level)
  {
    if !Skipped(w) {
      if Unmoved(w, hydro) {
        forall i | InMix(w, i)
          ensures w.hydro[i] == Served(w, i, level)
        {
          assert hydro[i] == w.hydro[i];
        }
      }
      if Holds(w, level) {
        forall i | In(w, i)
          ensures hydro[i] == w.hydro[i]
        {
          assert Mixed(w, i) ==> InMix(w, i);
        }
      }
    }
  }

  // So it always moves energy in an uneven window that is not skipped.
  lemma UnevenWindowIsMoved(w: Window, level: real, hydro: seq<real>, unsupplied: seq<real>, status: bool)
    requires w.Valid() && |hydro| == |unsupplied| == |w.hydro| && Remixed(w, level, hydro, unsupplied, status)
    requires !Skipped(w) && !Even(w)
    ensures !Unmoved(w, hydro)
  {
    UnmovedExactly(w, level, hydro, unsupplied, status);
    if Holds(w, level) {
      HoldingIsEven(w, level);
    }
  }

  ghost function MoveTerm(w: Window, hydro: seq<real>): int -> real {
    i => if In(w, i) && 0 <= i < |hydro| && i < |w.hydro| then Magnitude(hydro[i] - w.hydro[i]) else 0.0
  }

  // Pouring at one level instead of another moves all hours the same way.
  lemma MovesOneWay(w: Window, from: real, level: real, hydro: seq<real>, unsupplied: seq<real>)
    requires w.Valid() && |hydro| == |unsupplied| == |w.hydro| && Holds(w, from)
    requires Poured(w, level, hydro, unsupplied, w.hi)
    ensures Sum(w.lo, w.hi, MoveTerm(w, hydro)) == Magnitude(Stock(w, level) - MixedHydro(w))
  {
    var way := if from <= level then 1.0 else -1.0;
    var stock, own, moves := StockTerm(w, level), HydroTerm(w), MoveTerm(w, hydro);
    forall i | w.lo <= i < w.hi
      ensures 0.0 <= moves(i) == way * (stock(i) - own(i))
    {
      assert In(w, i) && hydro[i] == Served(w, i, level);
      if Mixed(w, i) {
        assert InMix(w, i) && 0.0 <= Limit(w, i);
      }
    }
    SumOfMoves(w.lo, w.hi, moves, way, stock, own);
  }

  lemma {:induction false} SumOfMoves(lo: int, hi: int, moves: int -> real, way: real, f: int -> real, g: int -> real)
    requires way == 1.0 || way == -1.0
    requires forall i :: lo <= i < hi ==> 0.0 <= moves(i) == way * (f(i) - g(i))
    ensures 0.0 <= Sum(lo, hi, moves) == way * (Sum(lo, hi, f) - Sum(lo, hi, g))
    ensures Sum(lo, hi, moves) == Magnitude(Sum(lo, hi, f) - Sum(lo, hi, g))
    decreases hi - lo
  {
    if lo < hi {
      SumOfMoves(lo, hi - 1, moves, way, f, g);
    }
  }

  // And next to none in an even window, or a skipped one.
  lemma EvenWindowHardlyMoves(w: Window, level: real, hydro: seq<real>, unsupplied: seq<real>)
    requires w.Valid() && |hydro| == |unsupplied| == |w.hydro| && Remixed(w, level, hydro, unsupplied, true)
    requires Skipped(w) || Even(w)
    ensures Sum(w.lo, w.hi, MoveTerm(w, hydro)) <= TOLERANCE
  {
    if Skipped(w) {
      SumZero(w.lo, w.hi, MoveTerm(w, hydro));
    } else {
      EvenIsHeld(w);
      MovesOneWay(w, Highest(w, w.hi), level, hydro, unsupplied);
    }
  }

  // ----- The last turn comes too late -----------------------------------------------------------------

  ghost function PowerOfTwo(k: nat): (p: real)
    ensures 1.0 <= p
  {
    if k == 0 then 1.0 else 2.0 * PowerOfTwo(k - 1)
  }

  // One hour that lacks a single unit of its load, which is a power of two.
  ghost function Narrow(k: nat): Window {
    Window(0, 1, [PowerOfTwo(k) - 1.0], [1.0], Inputs([PowerOfTwo(k)], [PowerOfTwo(k)], [0.0], [0.0]))
  }

  lemma NarrowHour(k: nat, level: real)
    ensures var w := Narrow(k);
      && w.Valid() && MixedHydro(w) == PowerOfTwo(k) - 1.0
      && FirstBottom(w, 1) == 0.0 && FirstTop(w, 1) == PowerOfTwo(k)
      && (0.0 <= level <= PowerOfTwo(k) ==> Stock(w, level) == level)
  {
    var w := Narrow(k);
    assert Mixed(w, 0) && Total(w, 0) == Limit(w, 0) == PowerOfTwo(k) && Floor(w, 0) == 0.0;
    assert Sum(0, 0, HydroTerm(w)) == Sum(0, 0, StockTerm(w, level)) == 0.0;
    assert Sum(0, 1, HydroTerm(w)) == HydroTerm(w)(0);
    assert Sum(0, 1, StockTerm(w, level)) == StockTerm(w, level)(0);
  }

  // Each turn halves the distance to the full load, and only the k-th reaches the target.
  lemma {:induction false} NarrowTurns(k: nat, turn: nat)
    requires turn < k
    ensures Narrow(k).Valid()
    ensures Turned(Narrow(k), turn) == (PowerOfTwo(k) - PowerOfTwo(k - turn), PowerOfTwo(k))
    ensures Middle(Narrow(k), turn) == PowerOfTwo(k) - PowerOfTwo(k - turn - 1)
    ensures Stock(Narrow(k), Middle(Narrow(k), turn)) == Middle(Narrow(k), turn)
  {
    var w := Narrow(k);
    if turn == 0 {
      NarrowHour(k, 0.0);
    } else {
      NarrowTurns(k, turn - 1);
      NarrowHour(k, 0.0);
      assert PowerOfTwo(k - turn) == 2.0 * PowerOfTwo(k - turn - 1);
    }
    PowersRise(k - turn - 1, k);
    NarrowHour(k, Middle(w, turn));
  }

  lemma {:induction false} PowersRise(a: nat, b: nat)
    requires a <= b
    ensures PowerOfTwo(a) <= PowerOfTwo(b)
    decreases b - a
  {
    if a < b {
      PowersRise(a, b - 1);
    }
  }

  lemma NarrowHits(k: nat, turn: nat)
    requires turn < k
    ensures Narrow(k).Valid() && (Hits(Narrow(k), Middle(Narrow(k), turn)) <==> turn == k - 1)
  {
    NarrowTurns(k, turn);
    NarrowHour(k, 0.0);
    if turn < k - 1 {
      assert PowerOfTwo(k - turn - 1) == 2.0 * PowerOfTwo(k - turn - 2);
    }
  }

  // So a window is refused although its hundredth turn hits the target.
  lemma LastTurnComesTooLate()
    ensures var w := Narrow(MAX_ITERATIONS);
      && w.Valid() && !Skipped(w) && !Converges(w) && Hits(w, Middle(w, MAX_ITERATIONS - 1))
  {
    var w := Narrow(MAX_ITERATIONS);
    forall turn: nat | turn < MAX_ITERATIONS - 1
      ensures !Hits(w, Middle(w, turn))
    {
      NarrowHits(MAX_ITERATIONS, turn);
    }
    NarrowHits(MAX_ITERATIONS, MAX_ITERATIONS - 1);
    NarrowIsNotSkipped(MAX_ITERATIONS);
  }

  lemma NarrowIsNotSkipped(k: nat)
    requires 1 <= k
    ensures Narrow(k).Valid() && !Skipped(Narrow(k))
  {
    var w := Narrow(k);
    assert 2.0 <= PowerOfTwo(k) == 2.0 * PowerOfTwo(k - 1);
    assert Sum(0, 0, At(w.unsupplied)) == Sum(0, 0, MovableTerm(w)) == 0.0;
    assert Sum(0, 1, At(w.unsupplied)) == At(w.unsupplied)(0);
    assert Sum(0, 1, MovableTerm(w)) == MovableTerm(w)(0);
  }
}
