// The cheapest cover of a guide by constant blocks of hours.

module UpDownSmoothing {
  import opened Reals
  import opened Rounding

  const ZERO_POWER := 1.0e-2
  const INFINITE_COST := 1.0e80

  // ----- Blocks --------------------------------------------------------------------------

  // How the cyclic horizon is cut: hours before first and from last on make one block, and
  // the hours in between are cut every duration hours.
  datatype Cut = Cut(first: int, last: int, duration: int, horizon: int) {
    ghost predicate Valid() {
      0 <= first <= last <= horizon && 1 <= duration
    }
  }

  ghost predicate Wraps(c: Cut, h: int) {
    0 <= h < c.first || c.last <= h < c.horizon
  }

  ghost predicate SameBlock(c: Cut, h: int, k: int)
    requires c.Valid()
  {
    || (Wraps(c, h) && Wraps(c, k))
    || (c.first <= h < c.last && c.first <= k < c.last && (h - c.first) / c.duration == (k - c.first) / c.duration)
  }

  // A sequence no lower than the guide and no lower than zero, constant on every block.
  ghost predicate Covers(c: Cut, guide: seq<int>, s: seq<int>)
    requires c.Valid() && |guide| == c.horizon
  {
    && |s| == c.horizon
    && (forall h :: 0 <= h < c.horizon ==> guide[h] <= s[h] && 0 <= s[h])
    && (forall h, k :: 0 <= h < c.horizon && 0 <= k < c.horizon && SameBlock(c, h, k) ==> s[h] == s[k])
  }

  // v is the largest guide value of h's block, or zero when none is positive.
  ghost predicate IsPeak(c: Cut, guide: seq<int>, h: int, v: int)
    requires c.Valid() && |guide| == c.horizon
  {
    && 0 <= v
    && (forall k :: 0 <= k < c.horizon && SameBlock(c, h, k) ==> guide[k] <= v)
    && (v == 0 || exists k :: 0 <= k < c.horizon && SameBlock(c, h, k) && guide[k] == v)
  }

  ghost predicate Peaks(c: Cut, guide: seq<int>, s: seq<int>)
    requires c.Valid() && |guide| == c.horizon
  {
    |s| == c.horizon && forall h :: 0 <= h < c.horizon ==> IsPeak(c, guide, h, s[h])
  }

  ghost function Excess(s: seq<int>, guide: seq<int>, lo: int, hi: int): int
    requires |s| == |guide|
    decreases hi - lo
  {
    if hi <= lo then 0
    else Excess(s, guide, lo, hi - 1) + if 0 <= hi - 1 < |s| then s[hi - 1] - guide[hi - 1] else 0
  }

  ghost function Cost(s: seq<int>, guide: seq<int>): int
    requires |s| == |guide|
  {
    Excess(s, guide, 0, |s|)
  }

  lemma SameBlockShares(c: Cut, h: int, k: int, j: int)
    requires c.Valid() && SameBlock(c, h, k)
    ensures SameBlock(c, k, j) <==> SameBlock(c, h, j)
  {
  }

  // The peaks cover the guide, and lie below every other cover at every hour.
  lemma PeaksAreLeastCover(c: Cut, guide: seq<int>, s: seq<int>)
    requires c.Valid() && |guide| == c.horizon && Peaks(c, guide, s)
    ensures Covers(c, guide, s)
    ensures forall other, h :: Covers(c, guide, other) && 0 <= h < c.horizon ==> s[h] <= other[h]
  {
    forall h | 0 <= h < c.horizon
      ensures guide[h] <= s[h] && 0 <= s[h]
    {
      assert IsPeak(c, guide, h, s[h]);
      assert SameBlock(c, h, h);
    }
    forall h, k | 0 <= h < c.horizon && 0 <= k < c.horizon && SameBlock(c, h, k)
      ensures s[h] == s[k]
    {
      PeakIsUnique(c, guide, h, k, s[h], s[k]);
    }
    forall other, h | Covers(c, guide, other) && 0 <= h < c.horizon
      ensures s[h] <= other[h]
    {
      assert IsPeak(c, guide, h, s[h]);
      if s[h] != 0 {
        var k :| 0 <= k < c.horizon && SameBlock(c, h, k) && guide[k] == s[h];
        assert guide[k] <= other[k] == other[h];
      }
    }
  }

  lemma PeakIsUnique(c: Cut, guide: seq<int>, h: int, k: int, v: int, v': int)
    requires c.Valid() && |guide| == c.horizon && SameBlock(c, h, k)
    requires IsPeak(c, guide, h, v) && IsPeak(c, guide, k, v')
    ensures v == v'
  {
    if v != 0 {
      var j :| 0 <= j < c.horizon && SameBlock(c, h, j) && guide[j] == v;
      SameBlockShares(c, h, k, j);
    }
    if v' != 0 {
      var j :| 0 <= j < c.horizon && SameBlock(c, k, j) && guide[j] == v';
      SameBlockShares(c, h, k, j);
    }
  }

  lemma {:induction false} ExcessInOrder(s: seq<int>, other: seq<int>, guide: seq<int>, lo: int, hi: int)
    requires |s| == |other| == |guide|
    requires forall h :: 0 <= h < |s| && lo <= h < hi ==> s[h] <= other[h]
    ensures Excess(s, guide, lo, hi) <= Excess(other, guide, lo, hi)
    decreases hi - lo
  {
    if lo < hi {
      ExcessInOrder(s, other, guide, lo, hi - 1);
    }
  }

  lemma ExcessSame(s: seq<int>, other: seq<int>, guide: seq<int>, lo: int, hi: int)
    requires |s| == |other| == |guide|
    requires forall h :: 0 <= h < |s| && lo <= h < hi ==> s[h] == other[h]
    ensures Excess(s, guide, lo, hi) == Excess(other, guide, lo, hi)
  {
    ExcessInOrder(s, other, guide, lo, hi);
    ExcessInOrder(other, s, guide, lo, hi);
  }

  lemma {:induction false} ExcessSplits(s: seq<int>, guide: seq<int>, lo: int, mid: int, hi: int)
    requires |s| == |guide| && lo <= mid <= hi
    ensures Excess(s, guide, lo, hi) == Excess(s, guide, lo, mid) + Excess(s, guide, mid, hi)
    decreases hi - mid
  {
    if mid < hi {
      ExcessSplits(s, guide, lo, mid, hi - 1);
    }
  }

  // ----- One position of the blocks ---------------------------------------------------------

  // The largest guide value of hours lo..hi-1, or start if that is larger.
  ghost predicate LargestOf(guide: seq<int>, lo: int, hi: int, start: int, v: int)
    requires 0 <= lo <= hi <= |guide|
  {
    && start <= v
    && (forall k :: lo <= k < hi ==> guide[k] <= v)
    && (v == start || exists k :: lo <= k < hi && guide[k] == v)
  }

  method Largest(guide: seq<int>, lo: nat, hi: nat, start: int) returns (v: int)
    requires lo <= hi <= |guide|
    ensures LargestOf(guide, lo, hi, start, v)
  {
    v := start;
    for h := lo to hi
      invariant LargestOf(guide, lo, h, start, v)
    {
      if guide[h] > v {
        v := guide[h];
      }
    }
  }

  method FillBlock(guide: seq<int>, units: array<int>, lo: nat, hi: nat, v: int) returns (cost: int)
    requires lo <= hi <= units.Length == |guide|
    modifies units
    ensures forall h :: 0 <= h < units.Length ==> units[h] == if lo <= h < hi then v else old(units[h])
    ensures cost == Excess(units[..], guide, lo, hi)
  {
    cost := 0;
    for h := lo to hi
      invariant forall k :: 0 <= k < units.Length ==> units[k] == if lo <= k < h then v else old(units[k])
      invariant cost == Excess(units[..], guide, lo, h)
    {
      ghost var before := units[..];
      units[h] := v;
      ExcessSame(before, units[..], guide, lo, h);
      cost := cost + (units[h] - guide[h]);
    }
  }

  // A block of the middle part, cut at start, is the run of hours start..end-1.
  lemma MiddleBlock(c: Cut, start: int, end: int, h: int, k: int)
    requires c.Valid() && c.first <= start <= h < end <= c.last
    requires (start - c.first) % c.duration == 0
    requires end == if start + c.duration < c.last then start + c.duration else c.last
    ensures SameBlock(c, h, k) <==> start <= k < end
  {
    var b := (start - c.first) / c.duration;
    assert start - c.first == b * c.duration;
    QuotientOf(h - c.first, b, c.duration);
    if c.first <= k < c.last {
      QuotientOf(k - c.first, b, c.duration);
    }
  }

  lemma MultiplesInOrder(a: int, b: int, d: int)
    requires a <= b && d >= 0
    ensures a * d <= b * d
  {
    assert (b - a) * d >= 0;
  }

  lemma QuotientOf(x: int, b: int, d: int)
    requires d >= 1 && x >= 0
    ensures x / d == b <==> b * d <= x < b * d + d
  {
    var q := x / d;
    assert q * d <= x < q * d + d;
    if q < b {
      MultiplesInOrder(q + 1, b, d);
    } else if b < q {
      MultiplesInOrder(b + 1, q, d);
    }
  }

  lemma PeakOfMiddleBlock(c: Cut, guide: seq<int>, start: int, end: int, h: int, v: int)
    requires c.Valid() && |guide| == c.horizon && c.first <= start <= h < end <= c.last
    requires (start - c.first) % c.duration == 0
    requires end == if start + c.duration < c.last then start + c.duration else c.last
    requires LargestOf(guide, start, end, 0, v)
    ensures IsPeak(c, guide, h, v)
  {
    forall k | 0 <= k < c.horizon && SameBlock(c, h, k)
      ensures guide[k] <= v
    {
      MiddleBlock(c, start, end, h, k);
    }
    if v != 0 {
      var k :| start <= k < end && guide[k] == v;
      MiddleBlock(c, start, end, h, k);
    }
  }

  lemma PeakOfWrappingBlock(c: Cut, guide: seq<int>, h: int, before: int, v: int)
    requires c.Valid() && |guide| == c.horizon && Wraps(c, h)
    requires LargestOf(guide, 0, c.first, 0, before) && LargestOf(guide, c.last, c.horizon, before, v)
    ensures IsPeak(c, guide, h, v)
  {
    forall k | 0 <= k < c.horizon && SameBlock(c, h, k)
      ensures guide[k] <= v
    {
    }
    if v != 0 {
      if v == before {
        var k :| 0 <= k < c.first && guide[k] == before;
        assert SameBlock(c, h, k);
      } else {
        var k :| c.last <= k < c.horizon && guide[k] == v;
        assert SameBlock(c, h, k);
      }
    }
  }

  // Fills the middle block that begins at this hour.
  method FillMiddleBlock(guide: seq<int>, units: array<int>, start: nat, end: nat, ghost c: Cut)
    returns (cost: int)
    requires c.Valid() && |guide| == c.horizon == units.Length && c.first <= start < end <= c.last
    requires (start - c.first) % c.duration == 0
    requires end == if start + c.duration < c.last then start + c.duration else c.last
    modifies units
    ensures forall h :: start <= h < end ==> IsPeak(c, guide, h, units[h])
    ensures forall h :: 0 <= h < units.Length && !(start <= h < end) ==> units[h] == old(units[h])
    ensures cost == Excess(units[..], guide, start, end)
  {
    var peak := Largest(guide, start, end, 0);
    cost := FillBlock(guide, units, start, end, peak);
    forall h | start <= h < end
      ensures IsPeak(c, guide, h, units[h])
    {
      PeakOfMiddleBlock(c, guide, start, end, h, peak);
    }
  }

  method FillWrappingBlock(guide: seq<int>, units: array<int>, first: nat, last: nat, ghost c: Cut)
    returns (cost: int)
    requires c.Valid() && |guide| == c.horizon == units.Length && c.first == first && c.last == last
    modifies units
    ensures forall h :: 0 <= h < c.horizon && Wraps(c, h) ==> IsPeak(c, guide, h, units[h])
    ensures cost == Excess(units[..], guide, 0, first) + Excess(units[..], guide, last, c.horizon)
  {
    var before := Largest(guide, 0, first, 0);
    var peak := Largest(guide, last, units.Length, before);
    cost := FillBlock(guide, units, 0, first, peak);
    ghost var half := units[..];
    var rest := FillBlock(guide, units, last, units.Length, peak);
    ExcessSame(half, units[..], guide, 0, first);
    cost := cost + rest;
    forall h | 0 <= h < c.horizon && Wraps(c, h)
      ensures IsPeak(c, guide, h, units[h])
    {
      PeakOfWrappingBlock(c, guide, h, before, peak);
    }
  }

  ghost predicate PeaksUpTo(c: Cut, guide: seq<int>, s: seq<int>, hour: int)
    requires c.Valid() && |guide| == c.horizon == |s|
  {
    forall h :: 0 <= h < c.horizon && (Wraps(c, h) || h < hour) ==> IsPeak(c, guide, h, s[h])
  }

  ghost function CostUpTo(c: Cut, guide: seq<int>, s: seq<int>, hour: int): int
    requires |guide| == |s|
  {
    Excess(s, guide, 0, hour) + Excess(s, guide, c.last, c.horizon)
  }

  method AddMiddleBlock(guide: seq<int>, units: array<int>, hour: nat, end: nat, before: int, ghost c: Cut)
    returns (cost: int)
    requires c.Valid() && |guide| == c.horizon == units.Length && c.first <= hour < end <= c.last
    requires (hour - c.first) % c.duration == 0
    requires end == if hour + c.duration < c.last then hour + c.duration else c.last
    requires PeaksUpTo(c, guide, units[..], hour) && before == CostUpTo(c, guide, units[..], hour)
    modifies units
    ensures PeaksUpTo(c, guide, units[..], end) && cost == CostUpTo(c, guide, units[..], end)
  {
    ghost var s := units[..];
    var added := FillMiddleBlock(guide, units, hour, end, c);
    ExcessSame(s, units[..], guide, 0, hour);
    ExcessSame(s, units[..], guide, c.last, c.horizon);
    ExcessSplits(units[..], guide, 0, hour, end);
    cost := before + added;
    forall h | 0 <= h < c.horizon && (Wraps(c, h) || h < end)
      ensures IsPeak(c, guide, h, units[h])
    {
      assert !(hour <= h < end) ==> units[h] == s[h];
    }
  }

  // Fills the block at this hour, which then ends before the next one.
  method NextBlock(guide: seq<int>, units: array<int>, hour: nat, first: nat, last: nat, duration: nat, before: int,
                   ghost c: Cut)
    returns (end: nat, cost: int)
    requires first <= hour < last <= units.Length == |guide| && 1 <= duration
    requires c == Cut(first, last, duration, |guide|) && Aligned(hour, first, last, duration)
    requires PeaksUpTo(c, guide, units[..], hour) && before == CostUpTo(c, guide, units[..], hour)
    modifies units
    ensures hour < end <= last && Aligned(end, first, last, duration)
    ensures PeaksUpTo(c, guide, units[..], end) && cost == CostUpTo(c, guide, units[..], end)
  {
    end := if hour + duration < last then hour + duration else last;
    NextAligned(hour, first, last, duration);
    cost := AddMiddleBlock(guide, units, hour, end, before, c);
  }

  // The least cover for one position of the blocks, and its cost.
  method CoverAt(guide: seq<int>, units: array<int>, first: nat, last: nat, duration: nat) returns (cost: int)
    requires first <= last <= units.Length == |guide| && 1 <= duration
    modifies units
    ensures Peaks(Cut(first, last, duration, |guide|), guide, units[..])
    ensures cost == Cost(units[..], guide)
  {
    ghost var c := Cut(first, last, duration, |guide|);
    cost := FillWrappingBlock(guide, units, first, last, c);
    var hour := first;
    while hour < last
      invariant first <= hour <= last && Aligned(hour, first, last, duration)
      invariant PeaksUpTo(c, guide, units[..], hour) && cost == CostUpTo(c, guide, units[..], hour)
    {
      hour, cost := NextBlock(guide, units, hour, first, last, duration, cost, c);
    }
    ExcessSplits(units[..], guide, 0, last, c.horizon);
  }

  // The hour starts a block, or ends the last one.
  ghost predicate Aligned(hour: int, first: int, last: int, duration: nat)
    requires 1 <= duration
  {
    hour == last || (hour - first) % duration == 0
  }

  lemma NextAligned(hour: int, first: int, last: int, duration: nat)
    requires 1 <= duration && first <= hour < last && Aligned(hour, first, last, duration)
    ensures Aligned(if hour + duration < last then hour + duration else last, first, last, duration)
  {
    NextMultiple(hour - first, duration);
    assert hour + duration - first == (hour - first) + duration;
  }

  lemma NextMultiple(x: int, d: int)
    requires d >= 1 && x >= 0 && x % d == 0
    ensures (x + d) % d == 0
  {
    var q := x / d;
    assert x + d == (q + 1) * d;
    QuotientOf(x + d, q + 1, d);
    assert x + d == d * ((x + d) / d) + (x + d) % d;
  }

  // ----- The search over all positions --------------------------------------------------------

  function Interval(horizon: nat, duration: nat): nat {
    var least := if horizon - duration < duration then horizon - duration else duration;
    if least < 0 then 0 else least
  }

  // The cut that begins at this offset.
  function CutAt(horizon: nat, duration: nat, offset: int): Cut {
    Cut(offset, horizon - Interval(horizon, duration) + offset, duration, horizon)
  }

  ghost predicate AnOffset(horizon: nat, duration: nat, offset: int) {
    0 <= offset <= Interval(horizon, duration)
  }

  ghost predicate NotCheaper(guide: seq<int>, duration: nat, offset: int, cost: real)
    requires 1 <= duration
  {
    forall s :: AnOffset(|guide|, duration, offset) && Covers(CutAt(|guide|, duration, offset), guide, s) ==>
      cost <= Cost(s, guide) as real
  }

  // Every cover of this position costs more.
  ghost predicate Dearer(guide: seq<int>, duration: nat, offset: int, cost: real)
    requires 1 <= duration
  {
    forall s :: AnOffset(|guide|, duration, offset) && Covers(CutAt(|guide|, duration, offset), guide, s) ==>
      cost < Cost(s, guide) as real
  }

  lemma NotCheaperIsDearer(guide: seq<int>, duration: nat, offset: int, least: real, cost: real)
    requires 1 <= duration && NotCheaper(guide, duration, offset, least) && cost < least
    ensures Dearer(guide, duration, offset, cost)
  {
  }

  lemma LeastCoverIsCheapest(guide: seq<int>, duration: nat, offset: int, s: seq<int>)
    requires 1 <= duration && AnOffset(|guide|, duration, offset)
    requires Peaks(CutAt(|guide|, duration, offset), guide, s)
    ensures NotCheaper(guide, duration, offset, Cost(s, guide) as real)
  {
    var c := CutAt(|guide|, duration, offset);
    PeaksAreLeastCover(c, guide, s);
    forall other | Covers(c, guide, other)
      ensures Cost(s, guide) <= Cost(other, guide)
    {
      ExcessInOrder(s, other, guide, 0, |s|);
    }
  }

  ghost predicate NoneCheaper(guide: seq<int>, duration: nat, cost: real)
    requires 1 <= duration
  {
    forall offset :: NotCheaper(guide, duration, offset, cost)
  }

  ghost predicate AllEarlierDearer(guide: seq<int>, duration: nat, best: int, cost: real)
    requires 1 <= duration
  {
    forall offset :: 0 <= offset < best ==> Dearer(guide, duration, offset, cost)
  }

  // best is the first position of a cheapest cover among the first ones, or -1.
  ghost predicate BestOfFirst(guide: seq<int>, duration: nat, positions: int, best: int, cost: real)
    requires 1 <= duration
  {
    && (forall offset :: 0 <= offset < positions ==> NotCheaper(guide, duration, offset, cost))
    && (if best < 0 then cost == INFINITE_COST
        else cost < INFINITE_COST && best < positions
             && AnOffset(|guide|, duration, best) && CostsAt(guide, duration, best, cost))
    && AllEarlierDearer(guide, duration, best, cost)
  }

  ghost predicate CostsAt(guide: seq<int>, duration: nat, offset: int, cost: real)
    requires 1 <= duration && AnOffset(|guide|, duration, offset)
  {
    forall s :: Peaks(CutAt(|guide|, duration, offset), guide, s) ==> cost == Cost(s, guide) as real
  }

  method TryOffset(guide: seq<int>, units: array<int>, duration: nat, interval: nat, hour: nat,
                   best: int, leastCost: real) returns (best': int, leastCost': real)
    requires units.Length == |guide| && 1 <= duration
    requires interval == Interval(|guide|, duration) && hour <= interval
    requires BestOfFirst(guide, duration, hour, best, leastCost)
    modifies units
    ensures BestOfFirst(guide, duration, hour + 1, best', leastCost')
  {
    var cost := CoverAt(guide, units, hour, units.Length - interval + hour, duration);
    BestAfter(guide, duration, hour, best, leastCost, units[..]);
    best', leastCost' := best, leastCost;
    if cost as real < leastCost {
      leastCost' := cost as real;
      best' := hour;
    }
  }

  lemma BestAfter(guide: seq<int>, duration: nat, hour: nat, best: int, leastCost: real, s: seq<int>)
    requires 1 <= duration && AnOffset(|guide|, duration, hour)
    requires BestOfFirst(guide, duration, hour, best, leastCost)
    requires Peaks(CutAt(|guide|, duration, hour), guide, s)
    ensures var cost := Cost(s, guide) as real;
            if cost < leastCost then BestOfFirst(guide, duration, hour + 1, hour, cost)
            else BestOfFirst(guide, duration, hour + 1, best, leastCost)
  {
    var cost := Cost(s, guide) as real;
    LeastCoverIsCheapest(guide, duration, hour, s);
    PeaksCostTheSame(CutAt(|guide|, duration, hour), guide, s);
    assert CostsAt(guide, duration, hour, cost);
    var lower := if cost < leastCost then cost else leastCost;
    forall offset | 0 <= offset < hour + 1
      ensures NotCheaper(guide, duration, offset, lower)
    {
      assert NotCheaper(guide, duration, offset, if offset == hour then cost else leastCost);
    }
    if cost < leastCost {
      forall offset | 0 <= offset < hour
        ensures Dearer(guide, duration, offset, cost)
      {
        NotCheaperIsDearer(guide, duration, offset, leastCost, cost);
      }
    }
  }

  // units is the least cover of the best position, no cover of any position is cheaper and every
  // cover of an earlier position costs more;
  // or every cover of every position costs at least the code's infinity.
  ghost predicate Smoothed(guide: seq<int>, duration: nat, units: seq<int>, best: int)
    requires 1 <= duration && |units| == |guide|
  {
    if best >= 0 then
      && AnOffset(|guide|, duration, best)
      && Covers(CutAt(|guide|, duration, best), guide, units)
      && Cost(units, guide) as real < INFINITE_COST
      && NoneCheaper(guide, duration, Cost(units, guide) as real)
      && AllEarlierDearer(guide, duration, best, Cost(units, guide) as real)
    else NoneCheaper(guide, duration, INFINITE_COST)
  }

  // Smooths the guide. When some position costs less than the code's infinity, the result is
  // the least cover of the best position, and no cover of any position is cheaper.
  method Smooth(guide: seq<int>, units: array<int>, duration: nat) returns (best: int)
    requires units.Length == |guide| && 1 <= duration
    modifies units
    ensures Smoothed(guide, duration, units[..], best)
  {
    var leastCost := INFINITE_COST;
    best := -1;
    var interval := duration as int;
    if units.Length - duration < interval {
      interval := units.Length - duration;
    }
    if interval < 0 {
      interval := 0;
    }
    var hour := 0;
    while hour <= interval
      invariant 0 <= hour <= interval + 1
      invariant BestOfFirst(guide, duration, hour, best, leastCost)
    {
      best, leastCost := TryOffset(guide, units, duration, interval, hour, best, leastCost);
      hour := hour + 1;
    }
    assert NoneCheaper(guide, duration, leastCost);
    if best >= 0 {
      var cost := CoverAt(guide, units, best, units.Length - interval + best, duration);
      PeaksAreLeastCover(CutAt(|guide|, duration, best), guide, units[..]);
    }
  }

  lemma PeaksCostTheSame(c: Cut, guide: seq<int>, s: seq<int>)
    requires c.Valid() && |guide| == c.horizon && Peaks(c, guide, s)
    ensures forall other :: Peaks(c, guide, other) ==> other == s
  {
    forall other | Peaks(c, guide, other)
      ensures other == s
    {
      forall h | 0 <= h < c.horizon
        ensures s[h] == other[h]
      {
        PeakIsUnique(c, guide, h, h, s[h], other[h]);
      }
    }
  }

  // ----- When the blocks are as long as the duration -----------------------------------------

  ghost function Block(c: Cut, h: int): set<int>
    requires c.Valid()
  {
    set k | 0 <= k < c.horizon && SameBlock(c, h, k)
  }

  ghost function Run(lo: int, hi: int): (hours: set<int>)
    ensures forall k :: k in hours <==> lo <= k < hi
    decreases hi - lo
  {
    if hi <= lo then {} else Run(lo, hi - 1) + {hi - 1}
  }

  lemma {:induction false} RunSize(lo: int, hi: int)
    requires lo <= hi
    ensures |Run(lo, hi)| == hi - lo
    decreases hi - lo
  {
    if lo < hi {
      RunSize(lo, hi - 1);
    }
  }

  lemma WrappingBlockSize(c: Cut, h: int)
    requires c.Valid() && Wraps(c, h)
    ensures |Block(c, h)| == c.first + c.horizon - c.last
  {
    RunSize(0, c.first);
    RunSize(c.last, c.horizon);
    var low, high := Run(0, c.first), Run(c.last, c.horizon);
    assert Block(c, h) == low + high && low !! high;
  }

  // Where the middle block of hour h begins and ends.
  ghost function StartOf(c: Cut, h: int): int
    requires c.Valid() && c.first <= h < c.last
  {
    c.first + (h - c.first) / c.duration * c.duration
  }

  ghost function EndOf(c: Cut, h: int): int
    requires c.Valid() && c.first <= h < c.last
  {
    if StartOf(c, h) + c.duration < c.last then StartOf(c, h) + c.duration else c.last
  }

  lemma MultipleHasNoRemainder(b: int, d: int)
    requires b >= 0 && d >= 1
    ensures (b * d) % d == 0 && (b * d) / d == b
  {
    QuotientOf(b * d, b, d);
    assert b * d == d * ((b * d) / d) + (b * d) % d;
  }

  lemma LastMultiple(x: int, d: int)
    requires x >= 0 && d >= 1
    ensures 0 <= x / d * d <= x < x / d * d + d && (x / d * d) % d == 0
  {
    var b := x / d;
    assert x == d * b + x % d;
    assert d * b == b * d;
    MultipleHasNoRemainder(b, d);
  }

  lemma MiddleBlockBounds(c: Cut, h: int)
    requires c.Valid() && c.first <= h < c.last
    ensures c.first <= StartOf(c, h) <= h < EndOf(c, h) <= c.last
    ensures (StartOf(c, h) - c.first) % c.duration == 0
  {
    LastMultiple(h - c.first, c.duration);
  }

  lemma MiddleBlockRun(c: Cut, h: int)
    requires c.Valid() && c.first <= h < c.last
    ensures c.first <= StartOf(c, h) <= h < EndOf(c, h) <= c.last
    ensures forall k :: SameBlock(c, h, k) <==> StartOf(c, h) <= k < EndOf(c, h)
    ensures |Block(c, h)| == EndOf(c, h) - StartOf(c, h)
  {
    MiddleBlockBounds(c, h);
    var start, end := StartOf(c, h), EndOf(c, h);
    forall k
      ensures SameBlock(c, h, k) <==> start <= k < end
    {
      MiddleBlock(c, start, end, h, k);
    }
    RunSize(start, end);
    assert Block(c, h) == Run(start, end);
  }

  // A horizon that the duration divides leaves a whole number of blocks in the middle.
  lemma MiddleIsWhole(horizon: nat, duration: nat) returns (blocks: nat)
    requires 1 <= duration && 1 <= horizon && horizon % duration == 0
    ensures Interval(horizon, duration) == 0 || Interval(horizon, duration) == duration
    ensures horizon - Interval(horizon, duration) == blocks * duration
  {
    var q := horizon / duration;
    assert horizon == q * duration;
    if q == 1 {
      blocks := 1;
    } else {
      assert q * duration >= 2 * duration;
      blocks := q - 1;
      assert (q - 1) * duration == q * duration - duration;
    }
  }

  lemma MiddleBlockIsFull(c: Cut, blocks: nat, h: int)
    requires c.Valid() && c.first <= h < c.last && c.last - c.first == blocks * c.duration
    ensures EndOf(c, h) == StartOf(c, h) + c.duration
  {
    var b := (h - c.first) / c.duration;
    QuotientOf(h - c.first, b, c.duration);
    StepBelow(b, blocks, c.duration);
  }

  lemma StepBelow(b: int, blocks: int, d: int)
    requires d >= 1 && b * d < blocks * d
    ensures b * d + d <= blocks * d
  {
    var gap := blocks - b;
    assert gap * d > 0;
    assert gap >= 1;
    assert gap * d >= d;
  }

  // With a horizon that the duration divides, every block has exactly that many hours.
  lemma BlocksAreFull(horizon: nat, duration: nat, offset: int, h: int)
    requires 1 <= duration && horizon % duration == 0 && AnOffset(horizon, duration, offset) && 0 <= h < horizon
    ensures |Block(CutAt(horizon, duration, offset), h)| == duration
    ensures var c := CutAt(horizon, duration, offset); !Wraps(c, h) ==> EndOf(c, h) == StartOf(c, h) + duration
  {
    var c := CutAt(horizon, duration, offset);
    var blocks := MiddleIsWhole(horizon, duration);
    if Wraps(c, h) {
      WrappingBlockSize(c, h);
    } else {
      MiddleBlockRun(c, h);
      MiddleBlockIsFull(c, blocks, h);
    }
  }

  // And only then: otherwise some block is too short.
  lemma FullBlocksDivide(horizon: nat, duration: nat, offset: int)
    requires 1 <= duration && 1 <= horizon && AnOffset(horizon, duration, offset)
    requires forall h :: 0 <= h < horizon ==> |Block(CutAt(horizon, duration, offset), h)| == duration
    ensures horizon % duration == 0
  {
    var c := CutAt(horizon, duration, offset);
    var tail := c.last - 1;
    if Interval(horizon, duration) != 0 {
      var h := if c.first > 0 then 0 else c.last;
      WrappingBlockSize(c, h);
      assert |Block(c, h)| == duration;
    }
    assert c.first <= tail;
    MiddleBlockRun(c, tail);
    assert |Block(c, tail)| == duration;
    LastBlockDivides(c, tail);
    if Interval(horizon, duration) != 0 {
      NextMultiple(c.last - c.first, duration);
    }
  }

  lemma LastBlockDivides(c: Cut, tail: int)
    requires c.Valid() && c.first <= tail == c.last - 1
    requires EndOf(c, tail) - StartOf(c, tail) == c.duration && EndOf(c, tail) == c.last
    ensures (c.last - c.first) % c.duration == 0
  {
    var b := (tail - c.first) / c.duration;
    assert b >= 0;
    assert c.last - c.first == b * c.duration + c.duration == (b + 1) * c.duration;
    MultipleHasNoRemainder(b + 1, c.duration);
  }

  lemma BlocksHaveTheDurationExactlyWhenItDivides(horizon: nat, duration: nat, offset: int)
    requires 1 <= duration && 1 <= horizon && AnOffset(horizon, duration, offset)
    ensures (forall h :: 0 <= h < horizon ==> |Block(CutAt(horizon, duration, offset), h)| == duration)
            <==> horizon % duration == 0
  {
    if horizon % duration == 0 {
      forall h | 0 <= h < horizon
        ensures |Block(CutAt(horizon, duration, offset), h)| == duration
      {
        BlocksAreFull(horizon, duration, offset, h);
      }
    } else if forall h :: 0 <= h < horizon ==> |Block(CutAt(horizon, duration, offset), h)| == duration {
      FullBlocksDivide(horizon, duration, offset);
    }
  }

  // The hour that comes this long after start, around the horizon.
  ghost function HourAfter(horizon: nat, start: int, delay: int): int {
    if start + delay >= horizon then start + delay - horizon else start + delay
  }

  // s is constant on the duration hours from start on, around the horizon, and h is one of them.
  ghost predicate ConstantRun(s: seq<int>, duration: nat, start: int, h: int)
    requires 0 <= h < |s|
  {
    && 0 <= start < |s| && duration <= |s|
    && (exists d :: 0 <= d < duration && HourAfter(|s|, start, d) == h)
    && forall d :: 0 <= d < duration ==> s[HourAfter(|s|, start, d)] == s[h]
  }

  // So when the duration divides the horizon, every cover keeps each level for at least that
  // many consecutive hours of the cyclic horizon.
  lemma CoversKeepTheDuration(guide: seq<int>, duration: nat, offset: int, s: seq<int>, h: int)
    requires 1 <= duration && |guide| % duration == 0 && AnOffset(|guide|, duration, offset)
    requires Covers(CutAt(|guide|, duration, offset), guide, s) && 0 <= h < |guide|
    ensures exists start :: ConstantRun(s, duration, start, h)
  {
    var c := CutAt(|guide|, duration, offset);
    BlocksAreFull(|guide|, duration, offset, h);
    var start;
    if Wraps(c, h) {
      WrappingBlockSize(c, h);
      start := if c.last < c.horizon then c.last else 0;
      var d := if h >= start then h - start else h + c.horizon - start;
      assert HourAfter(|s|, start, d) == h && 0 <= d < duration;
    } else {
      MiddleBlockRun(c, h);
      start := StartOf(c, h);
      assert HourAfter(|s|, start, h - start) == h;
    }
    forall d | 0 <= d < duration
      ensures s[HourAfter(|s|, start, d)] == s[h]
    {
      assert SameBlock(c, h, HourAfter(|s|, start, d));
    }
    assert ConstantRun(s, duration, start, h);
  }

  // ----- One cluster -----------------------------------------------------------------------------

  // The number of units that a production needs: none for a negligible one.
  ghost predicate UnitsFor(production: real, unitSize: real, units: int) {
    if Magnitude(production) < ZERO_POWER then units == 0
    else if unitSize > ZERO_POWER then
      (units - 1) as real * unitSize < production <= units as real * unitSize
    else (units - 1) as real < production <= units as real
  }

  method GuideCurve(production: seq<real>, unitSize: real, guide: array<int>)
    requires guide.Length == |production|
    modifies guide
    ensures GuideOf(production, unitSize, guide[..])
    ensures forall t :: 0 <= t < |production| ==>
              if -0.01 < production[t] < 0.01 then guide[t] == 0
              else
                var size := if unitSize > 0.01 then unitSize else 1.0;
                (guide[t] - 1) as real * size < production[t] <= guide[t] as real * size
  {
    for t := 0 to |production|
      invariant forall k :: 0 <= k < t ==> UnitsFor(production[k], unitSize, guide[k])
    {
      var p := production[t];
      guide[t] := 0;
      if Magnitude(p) >= ZERO_POWER {
        if unitSize > ZERO_POWER {
          guide[t] := Ceiling(p / unitSize);
          EnoughUnits(p, unitSize, guide[t]);
        } else {
          guide[t] := Ceiling(p);
        }
      }
    }
  }

  lemma EnoughUnits(p: real, unitSize: real, units: int)
    requires unitSize > 0.0 && (units - 1) as real < p / unitSize <= units as real
    ensures (units - 1) as real * unitSize < p <= units as real * unitSize
  {
    var ratio := p / unitSize;
    assert ratio * unitSize == p;
  }

  ghost predicate GuideOf(production: seq<real>, unitSize: real, guide: seq<int>) {
    |guide| == |production| && forall t :: 0 <= t < |guide| ==> UnitsFor(production[t], unitSize, guide[t])
  }

  ghost predicate Raised(before: seq<real>, unitMinPower: real, units: seq<int>, available: seq<real>, after: seq<real>)
    requires |before| == |units| == |available| == |after|
  {
    forall t :: 0 <= t < |after| ==>
      after[t] == Min(Max(before[t], unitMinPower * units[t] as real), available[t])
  }

  // Smooths one cluster; it is left alone when a unit has no minimum power, and when no
  // position is affordable.
  method SmoothCluster(production: seq<real>, unitSize: real, unitMinPower: real, duration: nat,
                       available: seq<real>, guide: array<int>, units: array<int>, minPower: array<real>)
    returns (best: int)
    requires 1 <= duration && guide != units
    requires |production| == |available| == guide.Length == units.Length == minPower.Length
    modifies guide, units, minPower
    ensures -0.01 < unitMinPower < 0.01 ==> best < 0
    ensures unitMinPower <= -0.01 || 0.01 <= unitMinPower ==>
              GuideOf(production, unitSize, guide[..]) && Smoothed(guide[..], duration, units[..], best)
    ensures best < 0 ==> minPower[..] == old(minPower[..])
    ensures best >= 0 ==> Raised(old(minPower[..]), unitMinPower, units[..], available, minPower[..])
  {
    if Magnitude(unitMinPower) < ZERO_POWER {
      return -1;
    }
    GuideCurve(production, unitSize, guide);
    ghost var g := guide[..];
    best := Smooth(guide[..], units, duration);
    assert guide[..] == g;
    if best >= 0 {
      RaiseMinimum(unitMinPower, units[..], available, minPower);
    }
  }

  // The minimum power is raised to that of these units, and never above the available power.
  method RaiseMinimum(unitMinPower: real, units: seq<int>, available: seq<real>, minPower: array<real>)
    requires |units| == |available| == minPower.Length
    modifies minPower
    ensures Raised(old(minPower[..]), unitMinPower, units, available, minPower[..])
    ensures forall t :: 0 <= t < |units| ==>
              minPower[t] == Min(Max(old(minPower[t]), unitMinPower * units[t] as real), available[t])
  {
    for t := 0 to |units|
      invariant forall k :: t <= k < |units| ==> minPower[k] == old(minPower[k])
      invariant forall k :: 0 <= k < t ==>
                  minPower[k] == Min(Max(old(minPower[k]), unitMinPower * units[k] as real), available[k])
    {
      if unitMinPower * units[t] as real > minPower[t] {
        minPower[t] := unitMinPower * units[t] as real;
      }
      if minPower[t] > available[t] {
        minPower[t] := available[t];
      }
    }
  }
}
