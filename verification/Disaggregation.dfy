// Hydro series: a monthly energy spread over the hours and over the days of the month in proportion
// to daily patterns, each value rounded and the rounding error carried over to the next ones.

module Disaggregation {
  import opened Reals
  import opened Rounding
  import opened Sums

  // ----- Spreading by weights ------------------------------------------------------------------

  function Share(rest: real, weight: real, left: real): real
    requires left != 0.0
  {
    rest * weight / left
  }

  ghost function Left(weights: seq<real>, k: nat): real
    requires k <= |weights|
    decreases |weights| - k
  {
    if k == |weights| then 0.0 else weights[k] + Left(weights, k + 1)
  }

  ghost predicate NonNegative(weights: seq<real>) {
    forall k :: 0 <= k < |weights| ==> 0.0 <= weights[k]
  }

  // No step divides by nothing left.
  ghost predicate Divisible(weights: seq<real>) {
    forall k :: 0 <= k < |weights| ==> Left(weights, k) > 0.0
  }

  ghost function Rest(weights: seq<real>, energy: real, k: nat): real
    requires Divisible(weights) && k <= |weights|
    decreases k, 0
  {
    if k == 0 then energy else Rest(weights, energy, k - 1) - Value(weights, energy, k - 1) as real
  }

  ghost function Value(weights: seq<real>, energy: real, k: nat): int
    requires Divisible(weights) && k < |weights|
    decreases k, 1
  {
    Nearest(Share(Rest(weights, energy, k), weights[k], Left(weights, k)))
  }

  ghost predicate NoNegativeValue(weights: seq<real>, energy: real)
    requires Divisible(weights)
  {
    forall k :: 0 <= k < |weights| ==> 0 <= Value(weights, energy, k)
  }

  ghost function Total(weights: seq<real>, energy: real, k: nat): int
    requires Divisible(weights) && k <= |weights|
  {
    if k == 0 then 0 else Total(weights, energy, k - 1) + Value(weights, energy, k - 1)
  }

  lemma {:induction false} LeftIsNonNegative(weights: seq<real>, k: nat)
    requires NonNegative(weights) && k <= |weights|
    ensures 0.0 <= Left(weights, k)
    decreases |weights| - k
  {
    if k < |weights| {
      LeftIsNonNegative(weights, k + 1);
    }
  }

  lemma {:induction false} LeftCoversTheLast(weights: seq<real>, k: nat)
    requires NonNegative(weights) && k < |weights|
    ensures weights[|weights| - 1] <= Left(weights, k)
    decreases |weights| - k
  {
    if k + 1 < |weights| {
      LeftCoversTheLast(weights, k + 1);
    } else {
      assert Left(weights, k + 1) == 0.0;
    }
  }

  // The divisions are by positive numbers exactly when the last weight is positive.
  lemma DivisibleExactlyWhenLastIsPositive(weights: seq<real>)
    requires NonNegative(weights) && 0 < |weights|
    ensures Divisible(weights) <==> 0.0 < weights[|weights| - 1]
  {
    var last := |weights| - 1;
    assert Left(weights, last) == weights[last] + Left(weights, last + 1);
    if 0.0 < weights[last] {
      forall k | 0 <= k < |weights|
        ensures Left(weights, k) > 0.0
      {
        LeftCoversTheLast(weights, k);
      }
    }
  }

  // A positive sum of the weights, which is all that is looked at beforehand, is not enough.
  lemma PositiveSumIsNotEnough()
    ensures var weights := [1.0, 0.0]; NonNegative(weights) && Left(weights, 0) > 0.0 && !Divisible(weights)
  {
    var weights := [1.0, 0.0];
    assert Left(weights, 2) == 0.0;
    assert Left(weights, 1) == weights[1] + Left(weights, 2);
    assert Left(weights, 0) == weights[0] + Left(weights, 1);
  }

  lemma ShareIsBetween(rest: real, weight: real, left: real)
    requires 0.0 <= weight <= left && 0.0 < left
    ensures 0.0 <= rest ==> 0.0 <= Share(rest, weight, left) <= rest
    ensures rest < 0.0 ==> rest <= Share(rest, weight, left) <= 0.0
    ensures 0.0 < rest && weight < left ==> Share(rest, weight, left) < rest
    ensures weight == left ==> Share(rest, weight, left) == rest
  {
    var share := Share(rest, weight, left);
    assert share * left == rest * weight;
    ScalingKeepsOrder(share, rest, left);
    ScalingKeepsOrder(rest, share, left);
    ScalingKeepsOrder(share, 0.0, left);
    ScalingKeepsOrder(0.0, share, left);
    var gap := left - weight;
    assert rest * left == rest * weight + rest * gap;
    if rest >= 0.0 {
      assert rest * weight >= 0.0 && rest * gap >= 0.0;
    } else {
      assert rest * weight <= 0.0 && rest * gap <= 0.0;
    }
    if 0.0 < rest && weight < left {
      assert rest * gap > 0.0;
    }
  }

  // One value: never negative, and unless it takes all that is left, it takes less than half a unit
  // too much.
  lemma OneValue(rest: real, weight: real, left: real)
    requires 0.0 <= weight <= left && 0.0 < left && -0.5 < rest
    ensures 0 <= Nearest(Share(rest, weight, left))
    ensures weight < left ==> -0.5 < rest - Nearest(Share(rest, weight, left)) as real
    ensures weight == left ==> -0.5 <= rest - Nearest(Share(rest, weight, left)) as real <= 0.5
  {
    ShareIsBetween(rest, weight, left);
    var share := Share(rest, weight, left);
    var n := Nearest(share);
    assert n as real > -1.0;
    if rest < 0.0 {
      assert n as real <= 0.5;
    }
  }

  lemma {:induction false} RestBeforeTheLast(weights: seq<real>, energy: real, k: nat)
    requires NonNegative(weights) && Divisible(weights) && 0.0 <= energy && k < |weights|
    ensures -0.5 < Rest(weights, energy, k) && 0 <= Value(weights, energy, k)
  {
    LeftIsNonNegative(weights, k + 1);
    if k > 0 {
      RestBeforeTheLast(weights, energy, k - 1);
      assert Left(weights, k - 1) == weights[k - 1] + Left(weights, k);
      OneValue(Rest(weights, energy, k - 1), weights[k - 1], Left(weights, k - 1));
    }
    OneValue(Rest(weights, energy, k), weights[k], Left(weights, k));
  }

  lemma {:induction false} ValuesAndRestMakeTheEnergy(weights: seq<real>, energy: real, k: nat)
    requires Divisible(weights) && k <= |weights|
    ensures Total(weights, energy, k) as real + Rest(weights, energy, k) == energy
  {
    if k > 0 {
      ValuesAndRestMakeTheEnergy(weights, energy, k - 1);
    }
  }

  // However long the month, no value is negative and the values add up to the energy, rounded once.
  lemma SpreadIsExact(weights: seq<real>, energy: real)
    requires NonNegative(weights) && Divisible(weights) && 0.0 <= energy && 0 < |weights|
    ensures NoNegativeValue(weights, energy)
    ensures forall k :: 0 <= k < |weights| ==> -0.5 < Rest(weights, energy, k)
    ensures -0.5 <= Total(weights, energy, |weights|) as real - energy <= 0.5
    ensures energy - 0.5 < Total(weights, energy, |weights|) as real < energy + 0.5
        ==> Total(weights, energy, |weights|) == Nearest(energy)
  {
    forall k | 0 <= k < |weights|
      ensures 0 <= Value(weights, energy, k) && -0.5 < Rest(weights, energy, k)
    {
      RestBeforeTheLast(weights, energy, k);
    }
    var last := |weights| - 1;
    assert Left(weights, last) == weights[last] + Left(weights, last + 1);
    OneValue(Rest(weights, energy, last), weights[last], Left(weights, last));
    ValuesAndRestMakeTheEnergy(weights, energy, |weights|);
    var total := Total(weights, energy, |weights|);
    if energy - 0.5 < total as real < energy + 0.5 {
      var nearest := Nearest(energy);
      assert -1.0 < (total - nearest) as real < 1.0;
    }
  }

  // ----- The weights of a month -------------------------------------------------------------------

  ghost function DayWeights(pattern: seq<real>, first: nat, end: nat): seq<real>
    requires first <= end <= |pattern|
  {
    pattern[first..end]
  }

  ghost function HourWeight(pattern: seq<real>, h: nat): real
    requires h < 24 * |pattern|
  {
    pattern[h / 24] / 24.0
  }

  ghost function HourWeights(pattern: seq<real>, first: nat, end: nat): (w: seq<real>)
    requires first <= end <= |pattern|
    ensures |w| == 24 * (end - first)
    ensures forall k :: 0 <= k < |w| ==> w[k] == HourWeight(pattern, 24 * first + k)
  {
    seq(24 * (end - first), k requires 0 <= k < 24 * (end - first) => HourWeight(pattern, 24 * first + k))
  }

  lemma DayOfHour(d: nat, hour: nat)
    requires hour < 24
    ensures (24 * d + hour) / 24 == d
  {
  }

  lemma {:induction false} EqualWeights(weights: seq<real>, from: nat, to: nat, step: real)
    requires from <= to <= |weights| && forall k :: from <= k < to ==> weights[k] == step
    ensures Left(weights, from) == Left(weights, to) + (to - from) as real * step
    decreases |weights| - from
  {
    if from < to {
      EqualWeights(weights, from + 1, to, step);
      assert (to - from) as real * step == (to - (from + 1)) as real * step + step;
    }
  }

  // The hours of the remaining days weigh as much as those days.
  lemma {:induction false} HoursWeighAsDays(pattern: seq<real>, first: nat, end: nat, d: nat)
    requires first <= end <= |pattern| && d <= end - first
    ensures Left(HourWeights(pattern, first, end), 24 * d) == Left(DayWeights(pattern, first, end), d)
    decreases end - first - d
  {
    if d < end - first {
      HoursWeighAsDays(pattern, first, end, d + 1);
      HoursOfDay(pattern, first, end, d);
    }
  }

  lemma HoursOfDay(pattern: seq<real>, first: nat, end: nat, d: nat)
    requires first <= end <= |pattern| && d < end - first
    ensures var hours := HourWeights(pattern, first, end);
            Left(hours, 24 * d) == Left(hours, 24 * (d + 1)) + pattern[first + d]
  {
    var hours, step := HourWeights(pattern, first, end), pattern[first + d] / 24.0;
    forall k | 24 * d <= k < 24 * d + 24
      ensures hours[k] == step
    {
      DayOfHour(first + d, k - 24 * d);
    }
    EqualWeights(hours, 24 * d, 24 * d + 24, step);
  }

  lemma MonthIsDivisible(pattern: seq<real>, first: nat, end: nat)
    requires first < end <= |pattern| && NonNegative(pattern) && 0.0 < pattern[end - 1]
    ensures NonNegative(DayWeights(pattern, first, end)) && Divisible(DayWeights(pattern, first, end))
    ensures NonNegative(HourWeights(pattern, first, end)) && Divisible(HourWeights(pattern, first, end))
  {
    var days, hours := DayWeights(pattern, first, end), HourWeights(pattern, first, end);
    DivisibleExactlyWhenLastIsPositive(days);
    assert (24 * first + |hours| - 1) / 24 == end - 1;
    DivisibleExactlyWhenLastIsPositive(hours);
  }

  // ----- The month ------------------------------------------------------------------------------------

  // The first count values stand in the series from offset on; the rest is as before.
  ghost predicate Written(weights: seq<real>, energy: real, offset: nat, count: nat, series: seq<real>,
                          before: seq<real>)
    requires Divisible(weights) && count <= |weights|
  {
    && |series| == |before| && offset + count <= |series|
    && (forall k :: offset <= k < offset + count ==> series[k] == Value(weights, energy, k - offset) as real)
    && (forall k :: 0 <= k < offset ==> series[k] == before[k])
    && (forall k :: offset + count <= k < |series| ==> series[k] == before[k])
  }

  // And these are the energy and the weights left for the others.
  ghost predicate SpreadUntil(weights: seq<real>, energy: real, offset: nat, count: nat, series: seq<real>,
                              before: seq<real>, rest: real, left: real)
    requires Divisible(weights)
  {
    && count <= |weights| && Written(weights, energy, offset, count, series, before)
    && rest == Rest(weights, energy, count) && left == Left(weights, count)
  }

  lemma OneMoreSpread(weights: seq<real>, energy: real, offset: nat, count: nat, series: seq<real>,
                      before: seq<real>, rest: real, left: real, value: real)
    requires Divisible(weights) && count < |weights| && offset + count < |series|
    requires SpreadUntil(weights, energy, offset, count, series, before, rest, left)
    requires left != 0.0 && value == Nearest(Share(rest, weights[count], left)) as real
    ensures SpreadUntil(weights, energy, offset, count + 1, series[offset + count := value], before, rest - value,
                        left - weights[count])
  {
  }

  method SumOfPatterns(pattern: seq<real>, first: nat, end: nat) returns (sum: real)
    requires first <= end <= |pattern|
    ensures sum == Left(DayWeights(pattern, first, end), 0)
  {
    sum := 0.0;
    ghost var days := DayWeights(pattern, first, end);
    for i := first to end
      invariant sum + Left(days, i - first) == Left(days, 0)
    {
      sum := sum + pattern[i];
    }
  }

  method SpreadOverHours(pattern: seq<real>, first: nat, end: nat, energy: real, sum: real, ror: array<real>)
    requires first < end <= |pattern| && 24 * end <= ror.Length
    requires Divisible(HourWeights(pattern, first, end)) && sum == Left(HourWeights(pattern, first, end), 0)
    modifies ror
    ensures Written(HourWeights(pattern, first, end), energy, 24 * first, 24 * (end - first), ror[..], old(ror[..]))
  {
    ghost var weights := HourWeights(pattern, first, end);
    var monthly, sumInflowPatterns := energy, sum;
    for h := 24 * first to 24 * end
      invariant SpreadUntil(weights, energy, 24 * first, h - 24 * first, ror[..], old(ror[..]), monthly,
                            sumInflowPatterns)
    {
      ghost var k, series := h - 24 * first, ror[..];
      WeightOfHour(pattern, first, end, h);
      var dailyInflowPattern := pattern[h / 24];
      var hourlyStorage := HourlyStorage(monthly, dailyInflowPattern, sumInflowPatterns);
      OneMoreSpread(weights, energy, 24 * first, k, series, old(ror[..]), monthly, sumInflowPatterns, hourlyStorage);
      ror[h] := hourlyStorage;
      assert ror[..] == series[h := hourlyStorage];
      monthly := monthly - hourlyStorage;
      sumInflowPatterns := sumInflowPatterns - dailyInflowPattern / 24.0;
    }
  }

  lemma WeightOfHour(pattern: seq<real>, first: nat, end: nat, h: nat)
    requires first <= end <= |pattern| && 24 * first <= h < 24 * end
    ensures h / 24 < end && HourWeights(pattern, first, end)[h - 24 * first] == pattern[h / 24] / 24.0
  {
  }

  method HourlyStorage(monthly: real, dailyInflowPattern: real, sumInflowPatterns: real) returns (storage: real)
    requires 0.0 < sumInflowPatterns
    ensures storage == Nearest(Share(monthly, dailyInflowPattern / 24.0, sumInflowPatterns)) as real
  {
    SameShare(monthly, dailyInflowPattern, sumInflowPatterns);
    storage := Nearest(Share(monthly, dailyInflowPattern, 24.0 * sumInflowPatterns)) as real;
  }

  lemma SameShare(monthly: real, pattern: real, sum: real)
    requires 0.0 < sum
    ensures 24.0 * sum != 0.0 && Share(monthly, pattern, 24.0 * sum) == Share(monthly, pattern / 24.0, sum)
  {
    var share := Share(monthly, pattern / 24.0, sum);
    assert share * sum == monthly * (pattern / 24.0);
    assert share * (24.0 * sum) == monthly * pattern;
  }

  method SpreadOverDays(pattern: seq<real>, first: nat, end: nat, energy: real, sum: real, storage: array<real>)
    requires first < end <= |pattern| && end <= storage.Length
    requires Divisible(DayWeights(pattern, first, end)) && sum == Left(DayWeights(pattern, first, end), 0)
    modifies storage
    ensures Written(DayWeights(pattern, first, end), energy, first, end - first, storage[..], old(storage[..]))
  {
    ghost var weights := DayWeights(pattern, first, end);
    var monthly, sumInflowPatterns := energy, sum;
    for d := first to end
      invariant SpreadUntil(weights, energy, first, d - first, storage[..], old(storage[..]), monthly,
                            sumInflowPatterns)
    {
      ghost var k, series := d - first, storage[..];
      var dailyInflowPattern := pattern[d];
      assert weights[k] == dailyInflowPattern;
      var dailyStorage := Nearest(Share(monthly, dailyInflowPattern, sumInflowPatterns)) as real;
      OneMoreSpread(weights, energy, first, k, series, old(storage[..]), monthly, sumInflowPatterns, dailyStorage);
      storage[d] := dailyStorage;
      assert storage[..] == series[d := dailyStorage];
      monthly := monthly - dailyStorage;
      sumInflowPatterns := sumInflowPatterns - dailyInflowPattern;
    }
  }

  // ----- Proportion ---------------------------------------------------------------------------------

  ghost function Entries(s: seq<real>): int -> real {
    k => if 0 <= k < |s| then s[k] else 0.0
  }

  // The pattern that hour h of the year weighs by: its day's.
  ghost function HourlyPattern(pattern: seq<real>): int -> real {
    h => if 0 <= h < 24 * |pattern| then pattern[h / 24] else 0.0
  }

  // A whole value that is as near as half a unit to the part of the rest that this weight has of the
  // weights left.
  ghost predicate NearShare(value: real, rest: real, weight: real, left: real) {
    value == value.Floor as real && WithinHalf(value * left, rest * weight, left)
  }

  ghost predicate WithinHalf(a: real, b: real, unit: real) {
    -unit <= 2.0 * (a - b) <= unit
  }

  // Each value of the series, in turn, is near its share of the energy not yet given.
  ghost predicate InProportion(lo: nat, hi: nat, weights: int -> real, energy: real, series: seq<real>) {
    lo <= hi <= |series| && forall k :: lo <= k < hi ==> NearItsShare(lo, hi, weights, energy, series, k)
  }

  ghost predicate NearItsShare(lo: nat, hi: nat, weights: int -> real, energy: real, series: seq<real>, k: nat)
    requires lo <= k < hi <= |series|
  {
    NearShare(series[k], energy - Sum(lo, k, Entries(series)), weights(k), Sum(k, hi, weights))
  }

  lemma Distributes(a: real, b: real, c: real)
    ensures (a - b) * c == a * c - b * c
  {
  }

  lemma NearProduct(value: real, share: real, left: real)
    requires 0.0 < left && -0.5 <= value - share <= 0.5
    ensures WithinHalf(value * left, share * left, left)
  {
    ScalingKeepsOrder(value - share, 0.5, left);
    ScalingKeepsOrder(-0.5, value - share, left);
    Distributes(value, share, left);
  }

  lemma ShareTimesLeft(rest: real, weight: real, left: real)
    requires 0.0 < left
    ensures Share(rest, weight, left) * left == rest * weight
  {
  }

  lemma ShareIsNear(rest: real, weight: real, left: real)
    requires 0.0 < left
    ensures NearShare(Nearest(Share(rest, weight, left)) as real, rest, weight, left)
  {
    ShareTimesLeft(rest, weight, left);
    NearProduct(Nearest(Share(rest, weight, left)) as real, Share(rest, weight, left), left);
  }

  lemma {:induction false} LeftIsSum(weights: seq<real>, k: nat, lo: int, f: int -> real, unit: real)
    requires k <= |weights| && forall j :: k <= j < |weights| ==> weights[j] * unit == f(lo + j)
    ensures Left(weights, k) * unit == Sum(lo + k, lo + |weights|, f)
    decreases |weights| - k
  {
    if k < |weights| {
      LeftIsSum(weights, k + 1, lo, f, unit);
      SumSplit(lo + k, lo + k + 1, lo + |weights|, f);
      assert Sum(lo + k, lo + k, f) == 0.0 && Sum(lo + k, lo + k + 1, f) == f(lo + k);
      assert Left(weights, k) * unit == weights[k] * unit + Left(weights, k + 1) * unit;
    }
  }

  lemma DaysLeft(pattern: seq<real>, first: nat, end: nat, d: nat)
    requires first <= end <= |pattern| && d <= end - first
    ensures Left(DayWeights(pattern, first, end), d) == Sum(first + d, end, Entries(pattern))
  {
    var days := DayWeights(pattern, first, end);
    forall j | d <= j < |days|
      ensures days[j] * 1.0 == Entries(pattern)(first + j)
    {
    }
    LeftIsSum(days, d, first, Entries(pattern), 1.0);
  }

  lemma {:induction false} RestIsSum(weights: seq<real>, energy: real, offset: nat, count: nat, series: seq<real>,
                                     before: seq<real>, k: nat)
    requires Divisible(weights) && k <= count <= |weights|
    requires Written(weights, energy, offset, count, series, before)
    ensures Rest(weights, energy, k) == energy - Sum(offset, offset + k, Entries(series))
  {
    if k > 0 {
      RestIsSum(weights, energy, offset, count, series, before, k - 1);
      assert series[offset + k - 1] == Value(weights, energy, k - 1) as real;
      assert Entries(series)(offset + k - 1) == series[offset + k - 1];
    }
  }

  lemma Associates(a: real, b: real, c: real)
    ensures a * b * c == a * (b * c)
  {
  }

  lemma WithinHalfScaled(a: real, b: real, left: real, unit: real)
    requires 0.0 < unit && WithinHalf(a, b, left)
    ensures WithinHalf(a * unit, b * unit, left * unit)
  {
    var gap := 2.0 * (a - b);
    ScalingKeepsOrder(gap, left, unit);
    ScalingKeepsOrder(-left, gap, unit);
    Distributes(a, b, unit);
    Associates(2.0, a - b, unit);
  }

  lemma NearShareScaled(value: real, rest: real, weight: real, left: real, unit: real)
    requires 0.0 < unit && NearShare(value, rest, weight, left)
    ensures NearShare(value, rest, weight * unit, left * unit)
  {
    WithinHalfScaled(value * left, rest * weight, left, unit);
    Associates(value, left, unit);
    Associates(rest, weight, unit);
  }

  lemma NearInUnits(value: real, rest: real, weight: real, left: real, unit: real, weight': real, left': real)
    requires 0.0 < left && 0.0 < unit && value == Nearest(Share(rest, weight, left)) as real
    requires weight' == weight * unit && left' == left * unit
    ensures NearShare(value, rest, weight', left')
  {
    ShareIsNear(rest, weight, left);
    NearShareScaled(value, rest, weight, left, unit);
  }

  // The weights, in some unit, are those of f from the offset on.
  ghost predicate Weigh(weights: seq<real>, offset: nat, unit: real, f: int -> real) {
    0.0 < unit && forall j :: 0 <= j < |weights| ==> weights[j] * unit == f(offset + j)
  }

  lemma ValueIsNear(weights: seq<real>, energy: real, offset: nat, unit: real, f: int -> real, k: nat)
    requires Divisible(weights) && k < |weights| && Weigh(weights, offset, unit, f)
    ensures NearShare(Value(weights, energy, k) as real, Rest(weights, energy, k), f(offset + k),
                      Sum(offset + k, offset + |weights|, f))
  {
    LeftIsSum(weights, k, offset, f, unit);
    NearInUnits(Value(weights, energy, k) as real, Rest(weights, energy, k), weights[k], Left(weights, k), unit,
                f(offset + k), Sum(offset + k, offset + |weights|, f));
  }

  lemma SpreadIsInProportion(weights: seq<real>, energy: real, offset: nat, count: nat, series: seq<real>,
                             before: seq<real>, unit: real, f: int -> real, hi: nat)
    requires Divisible(weights) && count == |weights| && Written(weights, energy, offset, count, series, before)
    requires Weigh(weights, offset, unit, f) && hi == offset + count
    ensures InProportion(offset, hi, f, energy, series)
  {
    forall i | offset <= i < hi
      ensures NearItsShare(offset, hi, f, energy, series, i)
    {
      EntryIsNear(weights, energy, offset, series, before, unit, f, hi, i);
    }
  }

  lemma EntryIsNear(weights: seq<real>, energy: real, offset: nat, series: seq<real>, before: seq<real>, unit: real,
                    f: int -> real, hi: nat, i: nat)
    requires Divisible(weights) && Written(weights, energy, offset, |weights|, series, before)
    requires Weigh(weights, offset, unit, f) && hi == offset + |weights| && offset <= i < hi
    ensures NearItsShare(offset, hi, f, energy, series, i)
  {
    var k := i - offset;
    RestIsSum(weights, energy, offset, |weights|, series, before, k);
    ValueIsNear(weights, energy, offset, unit, f, k);
    assert series[i] == Value(weights, energy, k) as real;
    assert offset + k == i;
  }

  lemma DaysWeigh(pattern: seq<real>, first: nat, end: nat)
    requires first <= end <= |pattern|
    ensures Weigh(DayWeights(pattern, first, end), first, 1.0, Entries(pattern))
  {
  }

  lemma HoursWeigh(pattern: seq<real>, first: nat, end: nat)
    requires first <= end <= |pattern|
    ensures Weigh(HourWeights(pattern, first, end), 24 * first, 24.0, HourlyPattern(pattern))
  {
    var hours := HourWeights(pattern, first, end);
    forall j | 0 <= j < |hours|
      ensures hours[j] * 24.0 == HourlyPattern(pattern)(24 * first + j)
    {
      WeightOfHour(pattern, first, end, 24 * first + j);
    }
  }

  lemma HoursAreInProportion(pattern: seq<real>, first: nat, end: nat, energy: real, series: seq<real>,
                             before: seq<real>)
    requires first <= end <= |pattern| && Divisible(HourWeights(pattern, first, end))
    requires Written(HourWeights(pattern, first, end), energy, 24 * first, 24 * (end - first), series, before)
    ensures InProportion(24 * first, 24 * end, HourlyPattern(pattern), energy, series)
  {
    var hours := HourWeights(pattern, first, end);
    HoursWeigh(pattern, first, end);
    SpreadIsInProportion(hours, energy, 24 * first, 24 * (end - first), series, before, 24.0, HourlyPattern(pattern),
                         24 * end);
  }

  lemma DaysAreInProportion(pattern: seq<real>, first: nat, end: nat, energy: real, series: seq<real>,
                            before: seq<real>)
    requires first <= end <= |pattern| && Divisible(DayWeights(pattern, first, end))
    requires Written(DayWeights(pattern, first, end), energy, first, end - first, series, before)
    ensures InProportion(first, end, Entries(pattern), energy, series)
  {
    var days := DayWeights(pattern, first, end);
    DaysWeigh(pattern, first, end);
    SpreadIsInProportion(days, energy, first, end - first, series, before, 1.0, Entries(pattern), end);
  }

  // A month: its run-of-river share over the hours, its storage share over the days.
  method DisaggregateMonth(pattern: seq<real>, first: nat, end: nat, energy: real, pow: real, ror: array<real>,
                           storage: array<real>)
    returns (ok: bool)
    requires first < end <= |pattern| && 24 * end <= ror.Length && end <= storage.Length && ror != storage
    requires NonNegative(pattern) && 0.0 <= energy && 0.0 <= pow <= 1.0
    requires 0.0 < pattern[end - 1] || Sum(first, end, Entries(pattern)) < 1.0e-6
    modifies ror, storage
    ensures ok <==> Sum(first, end, Entries(pattern)) >= 1.0e-6
    ensures !ok ==> unchanged(ror) && unchanged(storage)
    ensures ok ==> InProportion(24 * first, 24 * end, HourlyPattern(pattern), energy * pow, ror[..])
    ensures ok ==> InProportion(first, end, Entries(pattern), energy * (1.0 - pow), storage[..])
    ensures ok ==>
              && Divisible(HourWeights(pattern, first, end)) && Divisible(DayWeights(pattern, first, end))
              && Written(HourWeights(pattern, first, end), energy * pow, 24 * first, 24 * (end - first), ror[..],
                         old(ror[..]))
              && Written(DayWeights(pattern, first, end), energy * (1.0 - pow), first, end - first, storage[..],
                         old(storage[..]))
  {
    var sum := SumOfPatterns(pattern, first, end);
    DaysLeft(pattern, first, end, 0);
    LeftIsNonNegative(DayWeights(pattern, first, end), 0);
    if IsZero(sum) {
      return false;
    }
    MonthIsDivisible(pattern, first, end);
    HoursWeighAsDays(pattern, first, end, 0);
    SpreadOverHours(pattern, first, end, energy * pow, sum, ror);
    SpreadOverDays(pattern, first, end, energy * (1.0 - pow), sum, storage);
    HoursAreInProportion(pattern, first, end, energy * pow, ror[..], old(ror[..]));
    DaysAreInProportion(pattern, first, end, energy * (1.0 - pow), storage[..], old(storage[..]));
    ok := true;
  }

  lemma SplitIsWhole(energy: real, pow: real)
    requires 0.0 <= energy && 0.0 <= pow <= 1.0
    ensures 0.0 <= energy * pow && 0.0 <= energy * (1.0 - pow)
    ensures energy * pow + energy * (1.0 - pow) == energy
  {
  }

  // Both series of a month that is not refused.
  lemma MonthIsExact(pattern: seq<real>, first: nat, end: nat, energy: real, pow: real)
    requires first < end <= |pattern| && NonNegative(pattern) && 0.0 < pattern[end - 1]
    requires 0.0 <= energy && 0.0 <= pow <= 1.0
    ensures var hours, days := HourWeights(pattern, first, end), DayWeights(pattern, first, end);
      && Divisible(hours) && Divisible(days)
      && NoNegativeValue(hours, energy * pow)
      && NoNegativeValue(days, energy * (1.0 - pow))
      && -0.5 <= Total(hours, energy * pow, |hours|) as real - energy * pow <= 0.5
      && -0.5 <= Total(days, energy * (1.0 - pow), |days|) as real - energy * (1.0 - pow) <= 0.5
      && -1.0 <= (Total(hours, energy * pow, |hours|) + Total(days, energy * (1.0 - pow), |days|)) as real - energy
      && (Total(hours, energy * pow, |hours|) + Total(days, energy * (1.0 - pow), |days|)) as real - energy <= 1.0
  {
    MonthIsDivisible(pattern, first, end);
    SplitIsWhole(energy, pow);
    SpreadIsExact(HourWeights(pattern, first, end), energy * pow);
    SpreadIsExact(DayWeights(pattern, first, end), energy * (1.0 - pow));
  }
}
