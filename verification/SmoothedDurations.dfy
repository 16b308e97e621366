// What smoothing runs, and when it keeps the minimum duration.

module SmoothedDurations {
  import opened UpDownSmoothing

  // Hour h lies in a run of at least the duration, around the horizon, at one level.
  ghost predicate HasRun(s: seq<int>, duration: nat, h: int)
    requires 0 <= h < |s|
  {
    exists start :: ConstantRun(s, duration, start, h)
  }

  ghost predicate KeepsDuration(s: seq<int>, duration: nat) {
    forall h :: 0 <= h < |s| ==> HasRun(s, duration, h)
  }

  // All that smoothing may make of any guide keeps the duration.
  ghost predicate AlwaysKept(horizon: nat, duration: nat)
    requires 1 <= duration
  {
    forall guide, units, best ::
      (|guide| == |units| == horizon && best >= 0 && Smoothed(guide, duration, units, best)) ==>
        KeepsDuration(units, duration)
  }

  lemma {:induction false} ExcessOfCover(s: seq<int>, guide: seq<int>, hi: int)
    requires |s| == |guide| && hi <= |s| && forall h :: 0 <= h < |s| ==> guide[h] <= s[h]
    ensures 0 <= Excess(s, guide, 0, hi)
    ensures Excess(s, guide, 0, hi) == 0 ==> forall h :: 0 <= h < hi ==> s[h] == guide[h]
    decreases if hi < 0 then 0 else hi
  {
    if 0 < hi {
      ExcessOfCover(s, guide, hi - 1);
    }
  }

  lemma {:induction false} OwnExcess(guide: seq<int>, hi: int)
    ensures Excess(guide, guide, 0, hi) == 0
    decreases if hi < 0 then 0 else hi
  {
    if 0 < hi {
      OwnExcess(guide, hi - 1);
    }
  }

  // A guide that covers itself at offset 0 is all that smoothing makes of it.
  lemma SelfCoverIsTheResult(guide: seq<int>, duration: nat, units: seq<int>, best: int)
    requires 1 <= duration && |units| == |guide| && Covers(CutAt(|guide|, duration, 0), guide, guide)
    requires Smoothed(guide, duration, units, best)
    ensures best >= 0 && units == guide
  {
    assert AnOffset(|guide|, duration, 0);
    OwnExcess(guide, |guide|);
    assert Cost(guide, guide) == 0;
    var cost := if best >= 0 then Cost(units, guide) as real else INFINITE_COST;
    assert NotCheaper(guide, duration, 0, cost);
    if best >= 0 {
      ExcessOfCover(units, guide, |guide|);
    }
  }

  lemma SelfCoverIsAResult(guide: seq<int>, duration: nat)
    requires 1 <= duration && Covers(CutAt(|guide|, duration, 0), guide, guide)
    ensures Smoothed(guide, duration, guide, 0)
  {
    OwnExcess(guide, |guide|);
    forall offset, s | AnOffset(|guide|, duration, offset) && Covers(CutAt(|guide|, duration, offset), guide, s)
      ensures Cost(guide, guide) as real <= Cost(s, guide) as real
    {
      ExcessOfCover(s, guide, |guide|);
    }
  }

  // ----- A block that is too short -----------------------------------------------------------------

  ghost function Bump(horizon: nat, lo: int, hi: int): (s: seq<int>)
    ensures |s| == horizon && forall h :: 0 <= h < horizon ==> s[h] == if lo <= h < hi then 1 else 0
  {
    seq(horizon, h => if lo <= h < hi then 1 else 0)
  }

  // Raised hours that are fewer than the duration make no run.
  lemma BumpIsTooShort(horizon: nat, lo: int, hi: int, duration: nat)
    requires 0 <= lo < hi <= horizon && hi - lo < duration && (0 < lo || hi < horizon)
    ensures !HasRun(Bump(horizon, lo, hi), duration, lo)
  {
    var s := Bump(horizon, lo, hi);
    forall start
      ensures !ConstantRun(s, duration, start, lo)
    {
      if lo <= start < hi {
        assert s[HourAfter(horizon, start, hi - start)] == 0;
      } else if 0 <= start < horizon {
        assert s[HourAfter(horizon, start, 0)] == 0;
      }
    }
  }

  // The short block of the cut at offset 0: the last of the middle ones, or the one around the end
  // of the horizon.
  ghost function ShortFrom(horizon: nat, duration: nat): int
    requires 1 <= duration
  {
    if horizon - duration >= duration then horizon - duration - horizon % duration else duration
  }

  ghost function ShortTo(horizon: nat, duration: nat): int {
    if horizon - duration >= duration then horizon - duration else horizon
  }

  ghost function ShortGuide(horizon: nat, duration: nat): (guide: seq<int>)
    requires 1 <= duration
    ensures |guide| == horizon
  {
    Bump(horizon, ShortFrom(horizon, duration), ShortTo(horizon, duration))
  }

  lemma ShortMiddle(horizon: nat, duration: nat, h: int)
    requires 1 <= duration && duration <= horizon - duration && horizon % duration != 0
    requires 0 <= h < horizon - duration
    ensures ShortFrom(horizon, duration) <= h <==> h / duration == horizon / duration - 1
    ensures 0 <= ShortFrom(horizon, duration) < ShortTo(horizon, duration) < ShortFrom(horizon, duration) + duration
  {
    var blocks := horizon / duration - 1;
    LastMultiple(horizon, duration);
    assert horizon == duration * (horizon / duration) + horizon % duration;
    assert (blocks + 1) * duration == blocks * duration + duration;
    assert ShortFrom(horizon, duration) == blocks * duration;
    QuotientOf(h, blocks, duration);
  }

  lemma ShortGuideCoversItself(horizon: nat, duration: nat)
    requires 1 <= duration < horizon && horizon % duration != 0
    ensures Covers(CutAt(horizon, duration, 0), ShortGuide(horizon, duration), ShortGuide(horizon, duration))
  {
    var c, guide := CutAt(horizon, duration, 0), ShortGuide(horizon, duration);
    forall h, k | 0 <= h < horizon && 0 <= k < horizon && SameBlock(c, h, k)
      ensures guide[h] == guide[k]
    {
      if duration <= horizon - duration && !Wraps(c, h) {
        ShortMiddle(horizon, duration, h);
        ShortMiddle(horizon, duration, k);
      }
    }
  }

  lemma ShortBlockIsTooShort(horizon: nat, duration: nat)
    requires 1 <= duration < horizon && horizon % duration != 0
    ensures !KeepsDuration(ShortGuide(horizon, duration), duration)
  {
    var lo, hi := ShortFrom(horizon, duration), ShortTo(horizon, duration);
    if duration <= horizon - duration {
      ShortMiddle(horizon, duration, 0);
    }
    BumpIsTooShort(horizon, lo, hi, duration);
    assert !HasRun(ShortGuide(horizon, duration), duration, lo);
  }

  // Whatever smoothing makes of this guide is the guide, which does not keep the duration.
  lemma SmoothingLeavesItTooShort(horizon: nat, duration: nat, units: seq<int>, best: int)
    requires 1 <= duration < horizon == |units| && horizon % duration != 0
    requires Smoothed(ShortGuide(horizon, duration), duration, units, best)
    ensures best >= 0 && units == ShortGuide(horizon, duration) && !KeepsDuration(units, duration)
  {
    ShortGuideCoversItself(horizon, duration);
    SelfCoverIsTheResult(ShortGuide(horizon, duration), duration, units, best);
    ShortBlockIsTooShort(horizon, duration);
  }

  // ----- Exactly when ------------------------------------------------------------------------------

  lemma DividingDurationIsKept(horizon: nat, duration: nat)
    requires 1 <= duration && horizon % duration == 0
    ensures AlwaysKept(horizon, duration)
  {
    forall guide, units, best | |guide| == |units| == horizon && best >= 0 && Smoothed(guide, duration, units, best)
      ensures KeepsDuration(units, duration)
    {
      forall h | 0 <= h < |units|
        ensures HasRun(units, duration, h)
      {
        CoversKeepTheDuration(guide, duration, best, units, h);
      }
    }
  }

  // Beyond the horizon no run is long enough, and a guide of zeros covers itself.
  lemma LongDurationIsNotKept(horizon: nat, duration: nat)
    requires 1 <= horizon < duration
    ensures !AlwaysKept(horizon, duration)
  {
    var guide := Bump(horizon, 0, 0);
    SelfCoverIsAResult(guide, duration);
    assert !HasRun(guide, duration, 0);
  }

  // Over a horizon of any length, the duration is kept for every guide exactly when it divides the
  // horizon.
  lemma DurationIsKeptExactlyWhenItDivides(horizon: nat, duration: nat)
    requires 1 <= duration
    ensures AlwaysKept(horizon, duration) <==> horizon % duration == 0
  {
    if horizon % duration == 0 {
      DividingDurationIsKept(horizon, duration);
    } else if horizon < duration {
      LongDurationIsNotKept(horizon, duration);
    } else {
      ShortGuideCoversItself(horizon, duration);
      SelfCoverIsAResult(ShortGuide(horizon, duration), duration);
      ShortBlockIsTooShort(horizon, duration);
    }
  }

  // ----- The fewest units of all sequences in blocks -------------------------------------------------

  ghost function UnitHours(s: seq<int>, hours: nat): int
    requires hours <= |s|
  {
    if hours == 0 then 0 else UnitHours(s, hours - 1) + s[hours - 1]
  }

  // What a cover costs is what it runs beyond the guide.
  lemma {:induction false} CostIsUnitHours(s: seq<int>, guide: seq<int>, hours: nat)
    requires hours <= |s| == |guide|
    ensures Excess(s, guide, 0, hours) == UnitHours(s, hours) - UnitHours(guide, hours)
  {
    if hours > 0 {
      CostIsUnitHours(s, guide, hours - 1);
    }
  }

  // How long after the first hour of the blocks this hour comes, around the horizon.
  ghost function After(horizon: nat, first: int, h: int): int {
    if h >= first then h - first else h - first + horizon
  }

  // Blocks of the duration from this hour on, around the horizon, but for the last so many hours, which
  // make a block of their own.
  ghost predicate InBlocks(s: seq<int>, first: int, duration: nat, own: int)
    requires 1 <= duration
  {
    forall h, k :: 0 <= h < |s| && 0 <= k < |s| && Together(|s|, first, duration, own, h, k) ==> s[h] == s[k]
  }

  ghost predicate Together(horizon: nat, first: int, duration: nat, own: int, h: int, k: int)
    requires 1 <= duration
  {
    var i, j := After(horizon, first, h), After(horizon, first, k);
    (i >= horizon - own && j >= horizon - own) || (0 <= i < horizon - own && 0 <= j < horizon - own
                                                   && i / duration == j / duration)
  }

  ghost predicate Above(s: seq<int>, guide: seq<int>) {
    |s| == |guide| && forall h :: 0 <= h < |s| ==> guide[h] <= s[h] && 0 <= s[h]
  }

  lemma BlocksAreCovers(guide: seq<int>, duration: nat, first: int, own: int, s: seq<int>)
    requires 1 <= duration && Above(s, guide) && InBlocks(s, first, duration, own)
    requires 0 <= first <= own && OwnBlock(|s|, duration, own)
    ensures AnOffset(|s|, duration, first) && Covers(CutAt(|s|, duration, first), guide, s)
  {
    var c := CutAt(|s|, duration, first);
    forall h, k | 0 <= h < |s| && 0 <= k < |s| && SameBlock(c, h, k)
      ensures s[h] == s[k]
    {
      assert Together(|s|, first, duration, own, h, k);
    }
  }

  // The lesser of the duration and what the horizon leaves of it, if anything.
  ghost predicate OwnBlock(horizon: nat, duration: nat, own: int) {
    own == if horizon < duration then 0 else if horizon - duration < duration then horizon - duration else duration
  }

  lemma CoversAreBlocks(guide: seq<int>, duration: nat, first: int, own: int, s: seq<int>)
    requires 1 <= duration && OwnBlock(|guide|, duration, own)
    requires AnOffset(|guide|, duration, first) && Covers(CutAt(|guide|, duration, first), guide, s)
    ensures 0 <= first <= own && Above(s, guide) && InBlocks(s, first, duration, own)
  {
    var c := CutAt(|guide|, duration, first);
    forall h, k | 0 <= h < |s| && 0 <= k < |s| && Together(|s|, first, duration, own, h, k)
      ensures s[h] == s[k]
    {
      assert SameBlock(c, h, k);
    }
  }

  // What smoothing makes is above the guide, and runs no more than any sequence above it in blocks from
  // an hour on: blocks of the duration, and one of the duration or of what the horizon leaves of it,
  // whichever is less, with the first hour within that. It is one of them itself, and those that begin
  // earlier run more.
  lemma SmoothedRunsLeast(guide: seq<int>, duration: nat, units: seq<int>, best: int, first: int, own: int,
                          s: seq<int>)
    requires 1 <= duration && |units| == |guide| && best >= 0 && Smoothed(guide, duration, units, best)
    requires 0 <= first <= own && OwnBlock(|guide|, duration, own)
    requires Above(s, guide) && InBlocks(s, first, duration, own)
    ensures Above(units, guide) && UnitHours(units, |units|) <= UnitHours(s, |s|)
    ensures first < best ==> UnitHours(units, |units|) < UnitHours(s, |s|)
    ensures 0 <= best <= own && InBlocks(units, best, duration, own)
  {
    BlocksAreCovers(guide, duration, first, own, s);
    assert NotCheaper(guide, duration, first, Cost(units, guide) as real);
    assert first < best ==> Dearer(guide, duration, first, Cost(units, guide) as real);
    CostIsUnitHours(units, guide, |guide|);
    CostIsUnitHours(s, guide, |guide|);
    CoversAreBlocks(guide, duration, best, own, units);
  }

  // The guide cannot be covered by blocks for less than 1e80 unit-hours more.
  ghost predicate TooDear(guide: seq<int>, duration: nat, own: int)
    requires 1 <= duration
  {
    forall first: int, s :: 0 <= first <= own && Above(s, guide) && InBlocks(s, first, duration, own) ==>
      1.0e80 <= (UnitHours(s, |s|) - UnitHours(guide, |guide|)) as real
  }

  // No position is kept if and only if every one of them is too dear.
  lemma NotSmoothedExactly(guide: seq<int>, duration: nat, units: seq<int>, best: int, own: int)
    requires 1 <= duration && |units| == |guide| && Smoothed(guide, duration, units, best)
    requires OwnBlock(|guide|, duration, own)
    ensures best < 0 <==> TooDear(guide, duration, own)
  {
    if best < 0 {
      forall first: int, s | 0 <= first <= own && Above(s, guide) && InBlocks(s, first, duration, own)
        ensures 1.0e80 <= (UnitHours(s, |s|) - UnitHours(guide, |guide|)) as real
      {
        BlocksAreCovers(guide, duration, first, own, s);
        assert NotCheaper(guide, duration, first, INFINITE_COST);
        CostIsUnitHours(s, guide, |guide|);
      }
    } else {
      CoversAreBlocks(guide, duration, best, own, units);
      CostIsUnitHours(units, guide, |guide|);
    }
  }

  // ----- When the duration divides the horizon -------------------------------------------------------

  // Blocks of the duration all around the horizon.
  ghost predicate InEqualBlocks(s: seq<int>, first: int, duration: nat)
    requires 1 <= duration
  {
    forall h, k :: 0 <= h < |s| && 0 <= k < |s| && InOneBlock(|s|, first, duration, h, k) ==> s[h] == s[k]
  }

  ghost predicate InOneBlock(horizon: nat, first: int, duration: nat, h: int, k: int)
    requires 1 <= duration
  {
    After(horizon, first, h) / duration == After(horizon, first, k) / duration
  }

  lemma BlockNumber(duration: nat, block: int, rest: int)
    requires 1 <= duration && 0 <= rest < duration && 0 <= block
    ensures (block * duration + rest) / duration == block
  {
    assert 0 <= block * duration;
    QuotientOf(block * duration + rest, block, duration);
  }

  // Beginning a whole number of blocks later shifts the numbers of the blocks around.
  lemma BlockNumberShifted(horizon: nat, duration: nat, blocks: nat, first: int, later: nat, h: int)
    requires 1 <= duration && horizon == blocks * duration && 0 <= h < horizon && later < blocks
    requires 0 <= first < duration && first + later * duration < horizon
    ensures var i, j := After(horizon, first, h) / duration, After(horizon, first + later * duration, h) / duration;
            0 <= i < blocks && j == if i >= later then i - later else i - later + blocks
  {
    var p := After(horizon, first, h);
    LastMultiple(p, duration);
    var i := p / duration;
    var rest := p - i * duration;
    BelowBlocks(i, blocks, duration, rest);
    var shifted := After(horizon, first + later * duration, h);
    var j := if i >= later then i - later else i - later + blocks;
    BlocksMultiply(i, later, blocks, duration);
    assert shifted == j * duration + rest by {
      if i >= later {
        MultiplesInOrder(later, i, duration);
      } else {
        MultiplesInOrder(i + 1, later, duration);
      }
    }
    BlockNumber(duration, j, rest);
  }

  lemma BelowBlocks(i: int, blocks: nat, duration: nat, rest: int)
    requires 0 <= i && 1 <= duration && 0 <= rest && i * duration + rest < blocks * duration
    ensures i < blocks
  {
    if blocks <= i {
      MultiplesInOrder(blocks, i, duration);
    }
  }

  lemma BlocksMultiply(i: int, later: int, blocks: int, duration: int)
    ensures (i - later) * duration == i * duration - later * duration
    ensures (i - later + blocks) * duration == i * duration - later * duration + blocks * duration
    ensures (i + 1) * duration == i * duration + duration
  {
  }

  lemma EqualBlocksFromTheFirst(s: seq<int>, duration: nat, blocks: nat, first: int, later: nat)
    requires 1 <= duration && |s| == blocks * duration && later < blocks
    requires 0 <= first < duration && first + later * duration < |s|
    requires InEqualBlocks(s, first + later * duration, duration)
    ensures InEqualBlocks(s, first, duration)
  {
    forall h, k | 0 <= h < |s| && 0 <= k < |s| && InOneBlock(|s|, first, duration, h, k)
      ensures s[h] == s[k]
    {
      BlockNumberShifted(|s|, duration, blocks, first, later, h);
      BlockNumberShifted(|s|, duration, blocks, first, later, k);
      assert InOneBlock(|s|, first + later * duration, duration, h, k);
    }
  }

  // The last of at least two equal blocks may be told apart by the hours it begins at.
  lemma LastBlockIsOwn(s: seq<int>, duration: nat, blocks: nat, first: int)
    requires 1 <= duration && 2 <= blocks && |s| == blocks * duration && 0 <= first < duration
    requires InEqualBlocks(s, first, duration)
    ensures InBlocks(s, first, duration, duration)
  {
    BlocksMultiply(blocks, 1, blocks, duration);
    forall h, k | 0 <= h < |s| && 0 <= k < |s| && Together(|s|, first, duration, duration, h, k)
      ensures s[h] == s[k]
    {
      var i, j := After(|s|, first, h), After(|s|, first, k);
      if i >= |s| - duration {
        BlockNumber(duration, blocks - 1, i - (blocks - 1) * duration);
        BlockNumber(duration, blocks - 1, j - (blocks - 1) * duration);
      }
      assert InOneBlock(|s|, first, duration, h, k);
    }
  }

  lemma OneBlock(s: seq<int>, first: int)
    requires 0 <= first < |s| && InEqualBlocks(s, first, |s|)
    ensures InBlocks(s, 0, |s|, 0)
  {
    forall h, k | 0 <= h < |s| && 0 <= k < |s|
      ensures s[h] == s[k]
    {
      BlockNumber(|s|, 0, After(|s|, first, h));
      BlockNumber(|s|, 0, After(|s|, first, k));
      assert InOneBlock(|s|, first, |s|, h, k);
    }
  }

  lemma WholeBlocks(horizon: nat, duration: nat, first: nat) returns (blocks: nat, later: nat, start: nat)
    requires 1 <= duration && first < horizon && horizon % duration == 0
    ensures horizon == blocks * duration && first == start + later * duration && start < duration && later < blocks
  {
    blocks, later := horizon / duration, first / duration;
    LastMultiple(first, duration);
    LastMultiple(horizon, duration);
    start := first - later * duration;
    assert horizon == duration * blocks + horizon % duration;
    BelowBlocks(later, blocks, duration, start);
  }

  lemma EqualBlocksAreBlocks(s: seq<int>, duration: nat, first: nat) returns (start: nat, own: nat)
    requires 1 <= duration && first < |s| && |s| % duration == 0 && InEqualBlocks(s, first, duration)
    ensures start <= own && OwnBlock(|s|, duration, own) && InBlocks(s, start, duration, own)
  {
    var blocks, later;
    blocks, later, start := WholeBlocks(|s|, duration, first);
    if blocks == 1 {
      OneBlock(s, first);
      start, own := 0, 0;
    } else {
      own := duration;
      MultiplesInOrder(2, blocks, duration);
      EqualBlocksFromTheFirst(s, duration, blocks, start, later);
      LastBlockIsOwn(s, duration, blocks, start);
    }
  }

  // A duration that divides the horizon: what smoothing makes runs no more than any sequence above the
  // guide in blocks of the duration, whatever hour they begin at.
  lemma SmoothedRunsLeastInEqualBlocks(guide: seq<int>, duration: nat, units: seq<int>, best: int, first: nat,
                                       s: seq<int>)
    requires 1 <= duration && first < |guide| && |guide| % duration == 0
    requires |units| == |guide| && best >= 0 && Smoothed(guide, duration, units, best)
    requires Above(s, guide) && InEqualBlocks(s, first, duration)
    ensures Above(units, guide) && UnitHours(units, |units|) <= UnitHours(s, |s|)
  {
    var start, own := EqualBlocksAreBlocks(s, duration, first);
    SmoothedRunsLeast(guide, duration, units, best, start, own, s);
  }
}
