// The average transfer capacity of a link over the simulated years: the weights of the years are
// first gathered by the time series each year uses.

module AverageNtc {
  import opened Reals
  import opened Sums

  // The simulated years: which of them are active, and their weights when a playlist gives any.
  datatype Study = Study(playlist: bool, active: seq<bool>, yearsWeight: seq<real>)
  {
    ghost predicate Valid() {
      0 < |active| == |yearsWeight|
    }

    function Weight(y: nat): real {
      if playlist && y < |yearsWeight| then yearsWeight[y] else 1.0
    }
  }

  // Series of hourly capacities, and the one each year uses.
  datatype Link = Link(capacities: seq<seq<real>>, tsNumbers: seq<nat>)
  {
    ghost predicate Fits(s: Study, hours: nat) {
      && 0 < |capacities| && |tsNumbers| == |s.active|
      && (forall t :: 0 <= t < |capacities| ==> |capacities[t]| == hours)
      && (forall y :: 0 <= y < |s.active| && s.active[y] ==> Used(y) < |capacities|)
    }

    function Used(y: nat): nat {
      if |capacities| == 1 || y >= |tsNumbers| then 0 else tsNumbers[y]
    }

    function Capacity(t: nat, h: nat): real {
      if t < |capacities| && h < |capacities[t]| then capacities[t][h] else 0.0
    }
  }

  // ----- The weights --------------------------------------------------------------------------------

  ghost function ActiveWeight(s: Study, y: nat): real
    requires y <= |s.active|
  {
    if y == 0 then 0.0 else ActiveWeight(s, y - 1) + if s.active[y - 1] then s.Weight(y - 1) else 0.0
  }

  // Never zero: a playlist that weighs nothing counts as 1, and years without playlist count 1 each.
  method YearsWeightSum(s: Study) returns (sum: real)
    requires s.Valid()
    ensures sum == WeightSum(s) && sum != 0.0
  {
    sum := 0.0;
    if s.playlist {
      for i := 0 to |s.active|
        invariant sum == ActiveWeight(s, i)
      {
        if s.active[i] {
          sum := sum + s.yearsWeight[i];
        }
      }
      if sum == 0.0 {
        sum := 1.0;
      }
    } else {
      sum := |s.active| as real;
    }
  }

  ghost function WeightSum(s: Study): real {
    if !s.playlist then |s.active| as real
    else if ActiveWeight(s, |s.active|) == 0.0 then 1.0
    else ActiveWeight(s, |s.active|)
  }

  lemma {:induction false} OneForEachActiveYear(s: Study, y: nat)
    requires !s.playlist && y <= |s.active|
    ensures ActiveWeight(s, y) <= y as real
    ensures ActiveWeight(s, y) == y as real <==> forall k :: 0 <= k < y ==> s.active[k]
  {
    if y > 0 {
      OneForEachActiveYear(s, y - 1);
    }
  }

  // The sum is that of the active years' weights exactly when a playlist weighs something, or when
  // without a playlist no year is left out.
  lemma WeightSumMatchesExactly(s: Study)
    requires s.Valid()
    ensures s.playlist ==> (WeightSum(s) == ActiveWeight(s, |s.active|) <==> ActiveWeight(s, |s.active|) != 0.0)
    ensures !s.playlist ==>
              (WeightSum(s) == ActiveWeight(s, |s.active|) <==> forall k :: 0 <= k < |s.active| ==> s.active[k])
  {
    if !s.playlist {
      OneForEachActiveYear(s, |s.active|);
    }
  }

  // ----- Year by year and series by series ----------------------------------------------------------

  ghost function Times(a: real, b: real): real {
    a * b
  }

  lemma TimesAdds(a: real, b: real, c: real)
    ensures Times(a + b, c) == Times(a, c) + Times(b, c)
  {
  }

  ghost function YearTerm(s: Study, l: Link, h: nat, y: nat): real {
    Times(s.Weight(y), l.Capacity(l.Used(y), h))
  }

  // The capacities of hour h, year by year, each counted with the year's weight.
  ghost function ByYear(s: Study, l: Link, h: nat, y: nat): real
    requires y <= |s.active|
  {
    if y == 0 then 0.0
    else ByYear(s, l, h, y - 1) + if s.active[y - 1] then YearTerm(s, l, h, y - 1) else 0.0
  }

  function WeightSoFar(weightOfTS: map<nat, real>, t: nat): real {
    if t in weightOfTS then weightOfTS[t] else 0.0
  }

  // What series t contributes to hour h.
  ghost function SeriesTerm(weightOfTS: map<nat, real>, l: Link, h: nat, t: nat): real {
    Times(WeightSoFar(weightOfTS, t), l.Capacity(t, h))
  }

  // The same, for the first t series.
  ghost function BySeries(weightOfTS: map<nat, real>, l: Link, h: nat, t: nat): real {
    if t == 0 then 0.0 else BySeries(weightOfTS, l, h, t - 1) + SeriesTerm(weightOfTS, l, h, t - 1)
  }

  function Reweighed(weightOfTS: map<nat, real>, ts: nat, weight: real): map<nat, real> {
    weightOfTS[ts := WeightSoFar(weightOfTS, ts) + weight]
  }

  lemma ReweighedTerm(weightOfTS: map<nat, real>, l: Link, h: nat, ts: nat, weight: real, t: nat)
    ensures SeriesTerm(Reweighed(weightOfTS, ts, weight), l, h, t)
         == SeriesTerm(weightOfTS, l, h, t) + if t == ts then Times(weight, l.Capacity(t, h)) else 0.0
  {
    var after := Reweighed(weightOfTS, ts, weight);
    if t == ts {
      assert WeightSoFar(after, t) == WeightSoFar(weightOfTS, t) + weight;
      TimesAdds(WeightSoFar(weightOfTS, t), weight, l.Capacity(t, h));
    } else {
      assert WeightSoFar(after, t) == WeightSoFar(weightOfTS, t);
    }
  }

  lemma {:induction false} OneMoreYear(weightOfTS: map<nat, real>, l: Link, h: nat, ts: nat, weight: real, t: nat)
    ensures BySeries(Reweighed(weightOfTS, ts, weight), l, h, t)
         == BySeries(weightOfTS, l, h, t) + if ts < t then Times(weight, l.Capacity(ts, h)) else 0.0
  {
    if t > 0 {
      OneMoreYear(weightOfTS, l, h, ts, weight, t - 1);
      ReweighedTerm(weightOfTS, l, h, ts, weight, t - 1);
    }
  }

  lemma {:induction false} NoSeries(l: Link, h: nat, t: nat)
    ensures BySeries(map[], l, h, t) == 0.0
  {
    if t > 0 {
      NoSeries(l, h, t - 1);
    }
  }

  // Gathering the weights loses nothing, for any hour.
  ghost predicate Gathered(s: Study, l: Link, weightOfTS: map<nat, real>, y: nat)
    requires y <= |s.active|
  {
    forall h: nat :: BySeries(weightOfTS, l, h, |l.capacities|) == ByYear(s, l, h, y)
  }

  ghost function Gather(s: Study, l: Link, weightOfTS: map<nat, real>, y: nat): map<nat, real> {
    Reweighed(weightOfTS, l.Used(y), s.Weight(y))
  }

  lemma GatherAtHour(s: Study, l: Link, weightOfTS: map<nat, real>, y: nat, h: nat)
    requires y < |s.active| && s.active[y] && l.Used(y) < |l.capacities|
    requires BySeries(weightOfTS, l, h, |l.capacities|) == ByYear(s, l, h, y)
    ensures BySeries(Gather(s, l, weightOfTS, y), l, h, |l.capacities|) == ByYear(s, l, h, y + 1)
  {
    var n, ts, weight := |l.capacities|, l.Used(y), s.Weight(y);
    OneMoreYear(weightOfTS, l, h, ts, weight, n);
    assert ByYear(s, l, h, y + 1) == ByYear(s, l, h, y) + Times(weight, l.Capacity(ts, h));
  }

  lemma GatherOneMoreYear(s: Study, l: Link, weightOfTS: map<nat, real>, y: nat)
    requires y < |s.active| && s.active[y] && l.Used(y) < |l.capacities| && Gathered(s, l, weightOfTS, y)
    ensures Gathered(s, l, Gather(s, l, weightOfTS, y), y + 1)
  {
    forall h: nat
      ensures BySeries(Gather(s, l, weightOfTS, y), l, h, |l.capacities|) == ByYear(s, l, h, y + 1)
    {
      GatherAtHour(s, l, weightOfTS, y, h);
    }
  }

  method WeightsBySeries(s: Study, l: Link, ghost hours: nat) returns (weightOfTS: map<nat, real>)
    requires s.Valid() && l.Fits(s, hours)
    ensures Gathered(s, l, weightOfTS, |s.active|)
  {
    weightOfTS := map[];
    forall h: nat
      ensures BySeries(map[], l, h, |l.capacities|) == ByYear(s, l, h, 0)
    {
      NoSeries(l, h, |l.capacities|);
    }
    for y := 0 to |s.active|
      invariant Gathered(s, l, weightOfTS, y)
    {
      if !s.active[y] {
        assert forall h: nat :: ByYear(s, l, h, y + 1) == ByYear(s, l, h, y);
        continue;
      }
      GatherOneMoreYear(s, l, weightOfTS, y);
      var tsIndex := if |l.capacities| == 1 then 0 else l.tsNumbers[y];
      var weight := if s.playlist then s.yearsWeight[y] else 1.0;
      assert tsIndex == l.Used(y) && weight == s.Weight(y);
      weightOfTS := Reweighed(weightOfTS, tsIndex, weight);
    }
  }

  // ----- The average ----------------------------------------------------------------------------------

  method AddSeries(l: Link, weightOfTS: map<nat, real>, t: nat, avg: array<real>)
    requires t < |l.capacities| && |l.capacities[t]| == avg.Length
    requires forall h :: 0 <= h < avg.Length ==> avg[h] == BySeries(weightOfTS, l, h, t)
    modifies avg
    ensures forall h :: 0 <= h < avg.Length ==> avg[h] == BySeries(weightOfTS, l, h, t + 1)
  {
    if t in weightOfTS {
      var weight := weightOfTS[t];
      for h := 0 to avg.Length
        invariant forall k :: 0 <= k < h ==> avg[k] == BySeries(weightOfTS, l, k, t + 1)
        invariant forall k :: h <= k < avg.Length ==> avg[k] == BySeries(weightOfTS, l, k, t)
      {
        assert l.Capacity(t, h) == l.capacities[t][h];
        avg[h] := avg[h] + l.capacities[t][h] * weight;
      }
    } else {
      assert WeightSoFar(weightOfTS, t) == 0.0;
    }
  }

  ghost function AverageOf(s: Study, l: Link, h: nat): real
    requires WeightSum(s) != 0.0
  {
    ByYear(s, l, h, |s.active|) / WeightSum(s)
  }

  // Each hour's average is the weighted average over the years.
  method RetrieveAverageNTC(s: Study, l: Link, avg: array<real>)
    requires s.Valid() && l.Fits(s, avg.Length)
    modifies avg
    ensures WeightSum(s) != 0.0 && forall h :: 0 <= h < avg.Length ==> avg[h] == AverageOf(s, l, h)
  {
    var yearsWeightSum := YearsWeightSum(s);
    for h := 0 to avg.Length
      invariant forall k :: 0 <= k < h ==> avg[k] == 0.0
    {
      avg[h] := 0.0;
    }
    var weightOfTS := WeightsBySeries(s, l, avg.Length);
    for t := 0 to |l.capacities|
      invariant forall h :: 0 <= h < avg.Length ==> avg[h] == BySeries(weightOfTS, l, h, t)
    {
      AddSeries(l, weightOfTS, t, avg);
    }
    for h := 0 to avg.Length
      invariant forall k :: 0 <= k < h ==> avg[k] == AverageOf(s, l, k)
      invariant forall k :: h <= k < avg.Length ==> avg[k] == ByYear(s, l, k, |s.active|)
    {
      avg[h] := avg[h] / yearsWeightSum;
    }
  }

  // What an active year weighs, and what it adds to an hour.
  ghost predicate Weighs(s: Study, weight: int -> real)
    requires s.Valid()
  {
    forall y :: 0 <= y < |s.active| ==>
      weight(y) == if !s.active[y] then 0.0 else if s.playlist then s.yearsWeight[y] else 1.0
  }

  ghost predicate Adds(s: Study, l: Link, h: nat, hours: nat, weight: int -> real, term: int -> real)
    requires l.Fits(s, hours) && h < hours
  {
    forall y :: 0 <= y < |s.active| ==>
      term(y) == if !s.active[y] then 0.0
                 else weight(y) * l.capacities[if |l.capacities| == 1 then 0 else l.tsNumbers[y]][h]
  }

  lemma {:induction false} SumOfYears(s: Study, l: Link, h: nat, hours: nat, weight: int -> real, term: int -> real,
                                      y: nat)
    requires s.Valid() && l.Fits(s, hours) && h < hours && y <= |s.active|
    requires Weighs(s, weight) && Adds(s, l, h, hours, weight, term)
    ensures ActiveWeight(s, y) == Sum(0, y, weight) && ByYear(s, l, h, y) == Sum(0, y, term)
  {
    if y > 0 {
      SumOfYears(s, l, h, hours, weight, term, y - 1);
      assert s.active[y - 1] ==> term(y - 1) == YearTerm(s, l, h, y - 1);
    }
  }

  // The average is the sum of what the active years add, over the sum of their weights when a
  // playlist weighs something, over one when it weighs nothing, and over the number of all years
  // without playlist.
  lemma AverageIsSumOverDivisor(s: Study, l: Link, h: nat, hours: nat, weight: int -> real, term: int -> real)
    requires s.Valid() && l.Fits(s, hours) && h < hours && WeightSum(s) != 0.0
    requires Weighs(s, weight) && Adds(s, l, h, hours, weight, term)
    ensures var weights := Sum(0, |s.active|, weight);
            AverageOf(s, l, h) == Sum(0, |s.active|, term)
                                  / (if !s.playlist then |s.active| as real
                                     else if weights == 0.0 then 1.0
                                     else weights)
  {
    SumOfYears(s, l, h, hours, weight, term, |s.active|);
  }

  // ----- Between the least and the largest ----------------------------------------------------------

  ghost predicate Within(s: Study, l: Link, h: nat, low: real, high: real) {
    forall y :: 0 <= y < |s.active| && s.active[y] ==> low <= l.Capacity(l.Used(y), h) <= high
  }

  ghost predicate WeighsNonNegative(s: Study) {
    forall y :: 0 <= y < |s.active| && s.active[y] ==> 0.0 <= s.Weight(y)
  }

  // What a total of that weight lies between.
  ghost predicate Between(low: real, weight: real, total: real, high: real) {
    0.0 <= weight && weight * low <= total <= weight * high
  }

  lemma WeightedBetween(low: real, before: real, total: real, high: real, weight: real, c: real)
    requires Between(low, before, total, high) && 0.0 <= weight && low <= c <= high
    ensures Between(low, before + weight, total + weight * c, high)
  {
    assert weight * (c - low) >= 0.0 && weight * (high - c) >= 0.0;
  }

  lemma {:induction false} YearsAreBetween(s: Study, l: Link, h: nat, low: real, high: real, y: nat)
    requires y <= |s.active| && Within(s, l, h, low, high) && WeighsNonNegative(s)
    ensures Between(low, ActiveWeight(s, y), ByYear(s, l, h, y), high)
  {
    if y > 0 {
      YearsAreBetween(s, l, h, low, high, y - 1);
      var before, total := ActiveWeight(s, y - 1), ByYear(s, l, h, y - 1);
      if s.active[y - 1] {
        var weight, c := s.Weight(y - 1), l.Capacity(l.Used(y - 1), h);
        WeightedBetween(low, before, total, high, weight, c);
        assert ActiveWeight(s, y) == before + weight;
        assert ByYear(s, l, h, y) == total + weight * c;
      } else {
        assert ActiveWeight(s, y) == before && ByYear(s, l, h, y) == total;
      }
    }
  }

  lemma QuotientIsBetween(low: real, x: real, high: real, z: real)
    requires z != 0.0 && Between(low, z, x, high)
    ensures low <= x / z <= high
  {
    var q := x / z;
    assert q * z == x;
    ScalingKeepsOrder(low, q, z);
    ScalingKeepsOrder(q, high, z);
  }

  // With weights that are not negative and match the sum they are divided by, the average lies
  // between the smallest and the largest capacity that a year uses.
  lemma AverageIsBetween(s: Study, l: Link, h: nat, low: real, high: real)
    requires s.Valid() && Within(s, l, h, low, high) && WeighsNonNegative(s)
    requires WeightSum(s) == ActiveWeight(s, |s.active|) && WeightSum(s) != 0.0
    ensures low <= AverageOf(s, l, h) <= high
  {
    YearsAreBetween(s, l, h, low, high, |s.active|);
    QuotientIsBetween(low, ByYear(s, l, h, |s.active|), high, WeightSum(s));
  }

  // A playlist of years that all weigh nothing averages to nothing, whatever the capacities.
  lemma WeightlessPlaylistAveragesToNothing(s: Study, l: Link, h: nat, low: real, high: real)
    requires s.Valid() && Within(s, l, h, low, high) && WeighsNonNegative(s) && s.playlist
    requires ActiveWeight(s, |s.active|) == 0.0
    ensures WeightSum(s) == 1.0 && AverageOf(s, l, h) == 0.0
  {
    YearsAreBetween(s, l, h, low, high, |s.active|);
    assert ActiveWeight(s, |s.active|) * low == 0.0 && ActiveWeight(s, |s.active|) * high == 0.0;
  }

  // A link whose capacity is always the same.
  ghost predicate Constant(s: Study, l: Link, h: nat, c: real) {
    forall y :: 0 <= y < |s.active| && s.active[y] ==> l.Capacity(l.Used(y), h) == c
  }

  lemma {:induction false} ConstantByYear(s: Study, l: Link, h: nat, c: real, y: nat)
    requires y <= |s.active| && Constant(s, l, h, c)
    ensures ByYear(s, l, h, y) == Times(ActiveWeight(s, y), c)
  {
    if y > 0 {
      ConstantByYear(s, l, h, c, y - 1);
      if s.active[y - 1] {
        var weight, capacity := s.Weight(y - 1), l.Capacity(l.Used(y - 1), h);
        assert capacity == c;
        TimesAdds(ActiveWeight(s, y - 1), weight, c);
      }
    }
  }

  lemma QuotientIsItself(a: real, b: real, c: real)
    requires b != 0.0 && c != 0.0
    ensures Times(a, c) / b == c <==> a == b
  {
    var q := Times(a, c) / b;
    assert q * b == a * c;
    if q == c {
      assert (a - b) * c == 0.0;
    }
  }

  // A constant capacity averages to itself if and only if the divisor matches.
  lemma ConstantCapacityAveragesToItselfExactly(s: Study, l: Link, h: nat, c: real)
    requires s.Valid() && Constant(s, l, h, c) && c != 0.0 && WeightSum(s) != 0.0
    ensures AverageOf(s, l, h) == c <==> WeightSum(s) == ActiveWeight(s, |s.active|)
  {
    ConstantByYear(s, l, h, c, |s.active|);
    QuotientIsItself(ActiveWeight(s, |s.active|), WeightSum(s), c);
  }

  ghost predicate AlwaysBetween(s: Study, hours: nat)
    requires WeightSum(s) != 0.0
  {
    forall l: Link, h: nat, low: real, high: real ::
      l.Fits(s, hours) && h < hours && Within(s, l, h, low, high) ==> low <= AverageOf(s, l, h) <= high
  }

  // A link of the study with one series of constant capacity, which all years use.
  ghost function OneSeries(s: Study, hours: nat): Link {
    Link([seq(hours, _ => 1.0)], seq(|s.active|, _ => 0))
  }

  // So, with weights that are not negative, the averages of all links of the study lie between the
  // least and the largest capacity used if and only if the divisor is the sum of the weights counted.
  lemma AverageIsBetweenExactly(s: Study, hours: nat)
    requires s.Valid() && WeighsNonNegative(s) && WeightSum(s) != 0.0 && 0 < hours
    ensures AlwaysBetween(s, hours) <==> WeightSum(s) == ActiveWeight(s, |s.active|)
  {
    if WeightSum(s) == ActiveWeight(s, |s.active|) {
      forall l: Link, h: nat, low: real, high: real | l.Fits(s, hours) && h < hours && Within(s, l, h, low, high)
        ensures low <= AverageOf(s, l, h) <= high
      {
        AverageIsBetween(s, l, h, low, high);
      }
    } else {
      var l := OneSeries(s, hours);
      assert l.Fits(s, hours) && Within(s, l, 0, 1.0, 1.0);
      ConstantCapacityAveragesToItselfExactly(s, l, 0, 1.0);
    }
  }
}
