// The auxiliary program of one thermal cluster, as it is emitted into the sparse arrays.

module UnitCommitment {
  import opened Sums
  import opened SparseRows

  datatype VariableKind = BoundedBothSides | BoundedBelow

  const INFINITE_BOUND := 1.0e80

  // One cluster over a cyclic horizon: how many units may run at each hour, and for how long
  // a unit must stay on once started and off once stopped.
  datatype Cluster = Cluster(horizon: nat, maxUnits: seq<int>, minUp: nat, minDown: nat) {

    ghost predicate Valid() {
      |maxUnits| == horizon && minUp <= horizon && minDown <= horizon
    }

    // The index the code reads for hour k of a window that may begin before hour 0.
    function Wrap(k: int): int {
      if k < 0 then horizon + k else k
    }

    ghost function MaxAt(k: int): int {
      if 0 <= Wrap(k) < |maxUnits| then maxUnits[Wrap(k)] else 0
    }

    ghost function Gain(k: int): int {
      if MaxAt(k) > MaxAt(k - 1) then MaxAt(k) - MaxAt(k - 1) else 0
    }

    ghost function Loss(k: int): int {
      if MaxAt(k - 1) > MaxAt(k) then MaxAt(k - 1) - MaxAt(k) else 0
    }
  }

  // Columns of hour t: running units M, units lost to an outage M--, starts M+ and stops M-.
  function OnColumn(t: int): int { 4 * t }
  function OutageColumn(t: int): int { 4 * t + 1 }
  function StartColumn(t: int): int { 4 * t + 2 }
  function StopColumn(t: int): int { 4 * t + 3 }

  // ----- The rows -----------------------------------------------------------------------

  ghost function BalanceTerms(c: Cluster, t: int): seq<Term> {
    [Term(OnColumn(t), 1.0), Term(OnColumn(c.Wrap(t - 1)), -1.0),
     Term(StartColumn(t), -1.0), Term(StopColumn(t), 1.0)]
  }

  ghost function OutageTerms(t: int): seq<Term> {
    [Term(OutageColumn(t), 1.0), Term(StopColumn(t), -1.0)]
  }

  ghost function UpTerms(c: Cluster, t: int, lo: int, hi: int): seq<Term>
    decreases hi - lo
  {
    if hi <= lo then [Term(OnColumn(t), 1.0)]
    else UpTerms(c, t, lo, hi - 1) + [Term(StartColumn(c.Wrap(hi - 1)), -1.0)]
                                   + [Term(OutageColumn(c.Wrap(hi - 1)), 1.0)]
  }

  ghost function DownTerms(c: Cluster, t: int, lo: int, hi: int): seq<Term>
    decreases hi - lo
  {
    if hi <= lo then [Term(OnColumn(t), 1.0)]
    else DownTerms(c, t, lo, hi - 1) + [Term(StopColumn(c.Wrap(hi - 1)), 1.0)]
  }

  ghost function GainAsReal(c: Cluster): int -> real { k => c.Gain(k) as real }

  ghost function DownRhs(c: Cluster, t: int): real {
    c.MaxAt(t - c.minDown) as real + Sum(t - c.minDown + 1, t + 1, GainAsReal(c))
  }

  ghost function BalanceRow(c: Cluster, t: int): Row { Row(BalanceTerms(c, t), '=') }
  ghost function OutageRow(t: int): Row { Row(OutageTerms(t), '<') }
  ghost function UpRow(c: Cluster, t: int): Row { Row(UpTerms(c, t, t - c.minUp + 1, t + 1), '>') }
  ghost function DownRow(c: Cluster, t: int): Row { Row(DownTerms(c, t, t - c.minDown + 1, t + 1), '<') }

  // ----- The program as arrays ------------------------------------------------------------

  datatype Bounds = Bounds(lower: seq<real>, upper: seq<real>, cost: seq<real>, kind: seq<VariableKind>)

  datatype Lp = Lp(matrix: Store, rhs: seq<real>, bounds: Bounds)

  // The column numbers of each hour's four variables.
  datatype Columns = Columns(on: seq<int>, outage: seq<int>, start: seq<int>, stop: seq<int>)

  ghost predicate ColumnsKnown(columns: Columns, t: nat) {
    && |columns.on| == |columns.outage| == |columns.start| == |columns.stop| >= t
    && (forall h :: 0 <= h < t ==> columns.on[h] == OnColumn(h))
    && (forall h :: 0 <= h < t ==> columns.outage[h] == OutageColumn(h))
    && (forall h :: 0 <= h < t ==> columns.start[h] == StartColumn(h))
    && (forall h :: 0 <= h < t ==> columns.stop[h] == StopColumn(h))
  }

  ghost predicate BoundsSized(b: Bounds, variables: nat) {
    |b.lower| == |b.upper| == |b.cost| == |b.kind| == variables
  }

  ghost predicate ColumnIs(b: Bounds, v: int, low: real, high: real, price: real, kind: VariableKind) {
    && 0 <= v < |b.lower| == |b.upper| == |b.cost| == |b.kind|
    && b.lower[v] == low && b.upper[v] == high && b.cost[v] == price && b.kind[v] == kind
  }

  // Hour h has its four variables bounded; the outage variable, by this amount.
  ghost predicate HourBounded(b: Bounds, c: Cluster, minUnits: seq<int>, h: nat, outages: int)
    requires c.Valid() && h < c.horizon == |minUnits|
  {
    && ColumnIs(b, OnColumn(h), minUnits[h] as real, c.maxUnits[h] as real, 1.0, BoundedBothSides)
    && ColumnIs(b, OutageColumn(h), 0.0, outages as real, 0.0, BoundedBothSides)
    && ColumnIs(b, StartColumn(h), 0.0, INFINITE_BOUND, 0.0, BoundedBelow)
    && ColumnIs(b, StopColumn(h), 0.0, INFINITE_BOUND, 0.0, BoundedBelow)
  }

  method AddVariable(before: Bounds, v: nat, low: real, high: real, price: real, kind: VariableKind)
    returns (b: Bounds)
    requires BoundsSized(before, |before.lower|) && v < |before.lower|
    ensures BoundsSized(b, |before.lower|)
    ensures ColumnIs(b, v, low, high, price, kind)
    ensures forall i :: 0 <= i < |before.lower| && i != v ==>
              ColumnIs(b, i, before.lower[i], before.upper[i], before.cost[i], before.kind[i])
  {
    b := Bounds(before.lower[v := low], before.upper[v := high], before.cost[v := price], before.kind[v := kind]);
  }

  method BoundHour(before: Bounds, v: nat, minUnits: int, maxUnits: int) returns (b: Bounds)
    requires BoundsSized(before, |before.lower|) && v + 4 <= |before.lower|
    ensures BoundsSized(b, |before.lower|)
    ensures ColumnIs(b, v, minUnits as real, maxUnits as real, 1.0, BoundedBothSides)
    ensures ColumnIs(b, v + 1, 0.0, 0.0, 0.0, BoundedBothSides)
    ensures ColumnIs(b, v + 2, 0.0, INFINITE_BOUND, 0.0, BoundedBelow)
    ensures ColumnIs(b, v + 3, 0.0, INFINITE_BOUND, 0.0, BoundedBelow)
    ensures forall i :: 0 <= i < v ==>
              ColumnIs(b, i, before.lower[i], before.upper[i], before.cost[i], before.kind[i])
  {
    b := AddVariable(before, v, minUnits as real, maxUnits as real, 1.0, BoundedBothSides);
    b := AddVariable(b, v + 1, 0.0, 0.0, 0.0, BoundedBothSides);
    b := AddVariable(b, v + 2, 0.0, INFINITE_BOUND, 0.0, BoundedBelow);
    b := AddVariable(b, v + 3, 0.0, INFINITE_BOUND, 0.0, BoundedBelow);
  }

  method NumberVariables(c: Cluster, minUnits: seq<int>) returns (columns: Columns, b: Bounds)
    requires c.Valid() && |minUnits| == c.horizon
    ensures ColumnsKnown(columns, c.horizon) && BoundsSized(b, 4 * c.horizon)
    ensures forall h :: 0 <= h < c.horizon ==> HourBounded(b, c, minUnits, h, 0)
  {
    var variables := 4 * c.horizon;
    b := Bounds(Filled(variables, 0.0), Filled(variables, 0.0), Filled(variables, 0.0),
                Filled(variables, BoundedBothSides));
    columns := Columns(Filled(c.horizon, 0), Filled(c.horizon, 0), Filled(c.horizon, 0), Filled(c.horizon, 0));
    variables := 0;
    for t := 0 to c.horizon
      invariant variables == 4 * t && BoundsSized(b, 4 * c.horizon)
      invariant ColumnsKnown(columns, t) && |columns.on| == c.horizon
      invariant forall h :: 0 <= h < t ==> HourBounded(b, c, minUnits, h, 0)
    {
      columns := Columns(columns.on[t := variables], columns.outage[t := variables + 1],
                         columns.start[t := variables + 2], columns.stop[t := variables + 3]);
      ghost var before := b;
      b := BoundHour(b, variables, minUnits[t], c.maxUnits[t]);
      variables := variables + 4;
      forall h | 0 <= h < t
        ensures HourBounded(b, c, minUnits, h, 0)
      {
        assert HourBounded(before, c, minUnits, h, 0);
      }
    }
  }

  method EmitBalance(c: Cluster, columns: Columns, t: nat, before: Store, ghost rows: seq<Row>)
    returns (s: Store)
    requires c.Valid() && t < c.horizon && ColumnsKnown(columns, c.horizon)
    requires Holding(before, rows, []) && before.constraints < |before.rowStart|
    requires before.terms + 4 <= |before.columns|
    ensures Holding(s, rows + [BalanceRow(c, t)], []) && SameSizes(before, s)
    ensures s.terms == before.terms + 4
  {
    var previous := t - 1;
    if previous < 0 {
      previous := c.horizon + previous;
    }
    s := BeginRow(before, rows);
    ghost var open := BalanceTerms(c, t);
    assert open[..1] == [] + [open[0]] && open[..2] == open[..1] + [open[1]];
    assert open[..3] == open[..2] + [open[2]] && open == open[..3] + [open[3]];
    s := Push(s, columns.on[t], 1.0, rows, []);
    s := Push(s, columns.on[previous], -1.0, rows, open[..1]);
    s := Push(s, columns.start[t], -1.0, rows, open[..2]);
    s := Push(s, columns.stop[t], 1.0, rows, open[..3]);
    s := EndRow(s, 4, '=', rows, open);
  }

  method EmitOutage(c: Cluster, columns: Columns, t: nat, before: Store, ghost rows: seq<Row>)
    returns (s: Store)
    requires c.Valid() && t < c.horizon && ColumnsKnown(columns, c.horizon)
    requires Holding(before, rows, []) && before.constraints < |before.rowStart|
    requires before.terms + 2 <= |before.columns|
    ensures Holding(s, rows + [OutageRow(t)], []) && SameSizes(before, s)
    ensures s.terms == before.terms + 2
  {
    s := BeginRow(before, rows);
    ghost var open := OutageTerms(t);
    assert open[..1] == [] + [open[0]] && open == open[..1] + [open[1]];
    s := Push(s, columns.outage[t], 1.0, rows, []);
    s := Push(s, columns.stop[t], -1.0, rows, open[..1]);
    s := EndRow(s, 2, '<', rows, open);
  }

  method PushStartAndOutage(before: Store, columns: Columns, ghost horizon: nat, hour: nat,
                            ghost rows: seq<Row>, ghost open: seq<Term>) returns (s: Store)
    requires hour < horizon && ColumnsKnown(columns, horizon)
    requires Holding(before, rows, open) && before.terms + 2 <= |before.columns|
    ensures Holding(s, rows, open + [Term(StartColumn(hour), -1.0)] + [Term(OutageColumn(hour), 1.0)])
    ensures SameSizes(before, s) && s.rowStart == before.rowStart
    ensures s.terms == before.terms + 2 && s.constraints == before.constraints
  {
    s := Push(before, columns.start[hour], -1.0, rows, open);
    s := Push(s, columns.outage[hour], 1.0, rows, open + [Term(StartColumn(hour), -1.0)]);
  }

  method EmitUp(c: Cluster, columns: Columns, t: nat, before: Store, ghost rows: seq<Row>)
    returns (s: Store)
    requires c.Valid() && t < c.horizon && ColumnsKnown(columns, c.horizon)
    requires Holding(before, rows, []) && before.constraints < |before.rowStart|
    requires before.terms + 1 + 2 * c.minUp <= |before.columns|
    ensures Holding(s, rows + [UpRow(c, t)], []) && SameSizes(before, s)
    ensures s.terms == before.terms + 1 + 2 * c.minUp
  {
    ghost var first := t - c.minUp + 1;
    s := BeginRow(before, rows);
    assert UpTerms(c, t, first, first) == [] + [Term(OnColumn(t), 1.0)];
    s := Push(s, columns.on[t], 1.0, rows, []);
    var length := 1;
    var k := t - c.minUp + 1;
    while k <= t
      invariant first <= k <= t + 1 && length == 1 + 2 * (k - first)
      invariant Holding(s, rows, UpTerms(c, t, first, k)) && SameSizes(before, s)
      invariant s.terms == before.terms + length && s.constraints == before.constraints
      invariant s.rowStart[s.constraints] == before.terms
    {
      var hour := k;
      if hour < 0 {
        hour := c.horizon + hour;
      }
      assert hour == c.Wrap(k);
      assert UpTerms(c, t, first, k + 1) == UpTerms(c, t, first, k) + [Term(StartColumn(hour), -1.0)]
                                                                     + [Term(OutageColumn(hour), 1.0)];
      s := PushStartAndOutage(s, columns, c.horizon, hour, rows, UpTerms(c, t, first, k));
      length := length + 2;
      k := k + 1;
    }
    s := EndRow(s, length, '>', rows, UpTerms(c, t, first, t + 1));
  }

  method EmitDown(c: Cluster, columns: Columns, t: nat, before: Store, ghost rows: seq<Row>)
    returns (s: Store)
    requires c.Valid() && t < c.horizon && ColumnsKnown(columns, c.horizon)
    requires Holding(before, rows, []) && before.constraints < |before.rowStart|
    requires before.terms + 1 + c.minDown <= |before.columns|
    ensures Holding(s, rows + [DownRow(c, t)], []) && SameSizes(before, s)
    ensures s.terms == before.terms + 1 + c.minDown
  {
    ghost var first := t - c.minDown + 1;
    s := BeginRow(before, rows);
    assert DownTerms(c, t, first, first) == [] + [Term(OnColumn(t), 1.0)];
    s := Push(s, columns.on[t], 1.0, rows, []);
    var length := 1;
    var k := t - c.minDown + 1;
    while k <= t
      invariant first <= k <= t + 1 && length == 1 + (k - first)
      invariant Holding(s, rows, DownTerms(c, t, first, k)) && SameSizes(before, s)
      invariant s.terms == before.terms + length && s.constraints == before.constraints
      invariant s.rowStart[s.constraints] == before.terms
    {
      var hour := k;
      if hour < 0 {
        hour := c.horizon + hour;
      }
      assert hour == c.Wrap(k);
      assert DownTerms(c, t, first, k + 1) == DownTerms(c, t, first, k) + [Term(StopColumn(hour), 1.0)];
      s := Push(s, columns.stop[hour], 1.0, rows, DownTerms(c, t, first, k));
      length := length + 1;
      k := k + 1;
    }
    s := EndRow(s, length, '<', rows, DownTerms(c, t, first, t + 1));
  }

  // The right-hand side of the minimum down time row: the units available when the window
  // opens, and every unit that becomes available in it.
  method MinDownRhs(c: Cluster, t: nat) returns (bound: real)
    requires c.Valid() && t < c.horizon
    ensures bound == DownRhs(c, t)
  {
    var hour := t - c.minDown;
    if hour < 0 {
      hour := c.horizon + hour;
    }
    bound := c.maxUnits[hour] as real;
    var k := t - c.minDown + 1;
    while k <= t
      invariant t - c.minDown + 1 <= k <= t + 1
      invariant bound == c.MaxAt(t - c.minDown) as real + Sum(t - c.minDown + 1, k, GainAsReal(c))
    {
      hour := k;
      if hour < 0 {
        hour := c.horizon + hour;
      }
      var previous := hour - 1;
      if previous < 0 {
        previous := c.horizon + previous;
      }
      if c.maxUnits[hour] - c.maxUnits[previous] > 0 {
        bound := bound + (c.maxUnits[hour] - c.maxUnits[previous]) as real;
      }
      k := k + 1;
    }
  }

  ghost function AllRows(c: Cluster, hours: nat): seq<Row> {
    if hours == 0 then []
    else AllRows(c, hours - 1) + [BalanceRow(c, hours - 1)] + [OutageRow(hours - 1)]
                               + [UpRow(c, hours - 1)] + [DownRow(c, hours - 1)]
  }

  lemma {:induction false} AllRowsAt(c: Cluster, hours: nat, h: nat)
    requires h < hours
    ensures |AllRows(c, hours)| == 4 * hours
    ensures AllRows(c, hours)[4 * h] == BalanceRow(c, h)
    ensures AllRows(c, hours)[4 * h + 1] == OutageRow(h)
    ensures AllRows(c, hours)[4 * h + 2] == UpRow(c, h)
    ensures AllRows(c, hours)[4 * h + 3] == DownRow(c, h)
  {
    if hours > 1 {
      AllRowsAt(c, hours - 1, if h < hours - 1 then h else h - 1);
    }
  }

  ghost function TermsPerHour(c: Cluster): nat {
    8 + 2 * c.minUp + c.minDown
  }

  ghost function TermsUntil(c: Cluster, hours: nat): nat {
    if hours == 0 then 0 else TermsUntil(c, hours - 1) + TermsPerHour(c)
  }

  ghost predicate RhsIs(c: Cluster, rhs: seq<real>, h: nat) {
    && 4 * h + 3 < |rhs|
    && rhs[4 * h] == rhs[4 * h + 1] == rhs[4 * h + 2] == 0.0
    && rhs[4 * h + 3] == DownRhs(c, h)
  }

  // The arrays hold the four rows of every hour with their right-hand sides and bounds,
  // and the cost counts the running units.
  ghost predicate IsProgramOf(lp: Lp, c: Cluster, minUnits: seq<int>)
    requires c.Valid() && |minUnits| == c.horizon
  {
    && Holding(lp.matrix, AllRows(c, c.horizon), [])
    && BoundsSized(lp.bounds, 4 * c.horizon)
    && forall h :: 0 <= h < c.horizon ==> RhsIs(c, lp.rhs, h) && HourBounded(lp.bounds, c, minUnits, h, c.Loss(h))
  }

  method EmitHour(c: Cluster, columns: Columns, t: nat, before: Store) returns (s: Store)
    requires c.Valid() && t < c.horizon && ColumnsKnown(columns, c.horizon)
    requires Holding(before, AllRows(c, t), [])
    requires before.constraints + 4 <= |before.rowStart|
    requires before.terms + TermsPerHour(c) <= |before.columns|
    ensures Holding(s, AllRows(c, t + 1), []) && SameSizes(before, s)
    ensures s.terms == before.terms + TermsPerHour(c) && s.constraints == before.constraints + 4
  {
    ghost var rows := AllRows(c, t);
    s := EmitBalance(c, columns, t, before, rows);
    s := EmitOutage(c, columns, t, s, rows + [BalanceRow(c, t)]);
    s := EmitUp(c, columns, t, s, rows + [BalanceRow(c, t)] + [OutageRow(t)]);
    s := EmitDown(c, columns, t, s, rows + [BalanceRow(c, t)] + [OutageRow(t)] + [UpRow(c, t)]);
  }

  ghost function LossUntil(c: Cluster, t: nat, h: nat): int
    requires c.Valid() && h < c.horizon
  {
    if h < t then c.Loss(h) else 0
  }

  // The hours before t have their outages bounded by the units lost.
  ghost predicate BoundedUntil(b: Bounds, c: Cluster, minUnits: seq<int>, t: nat)
    requires c.Valid() && |minUnits| == c.horizon
  {
    && BoundsSized(b, 4 * c.horizon)
    && forall h :: 0 <= h < c.horizon ==> HourBounded(b, c, minUnits, h, LossUntil(c, t, h))
  }

  lemma OneMoreHourBounded(before: Bounds, b: Bounds, c: Cluster, minUnits: seq<int>, t: nat)
    requires c.Valid() && t < c.horizon == |minUnits| && BoundedUntil(before, c, minUnits, t)
    requires b == before.(upper := before.upper[OutageColumn(t) := c.Loss(t) as real])
    ensures BoundedUntil(b, c, minUnits, t + 1)
  {
    var next: nat := t + 1;
    forall h | 0 <= h < c.horizon
      ensures HourBounded(b, c, minUnits, h, LossUntil(c, next, h))
    {
      assert HourBounded(before, c, minUnits, h, LossUntil(c, t, h));
    }
  }

  method BoundOutages(c: Cluster, minUnits: seq<int>, columns: Columns, t: nat, before: Bounds)
    returns (b: Bounds)
    requires c.Valid() && t < c.horizon == |minUnits| && ColumnsKnown(columns, c.horizon)
    requires BoundedUntil(before, c, minUnits, t)
    ensures BoundedUntil(b, c, minUnits, t + 1)
  {
    var column := columns.outage[t];
    var previous := t - 1;
    if previous < 0 {
      previous := c.horizon + previous;
    }
    var upper := before.upper[column := 0.0];
    if c.maxUnits[previous] - c.maxUnits[t] > 0 {
      upper := upper[column := (c.maxUnits[previous] - c.maxUnits[t]) as real];
    }
    b := before.(upper := upper);
    assert upper == before.upper[OutageColumn(t) := c.Loss(t) as real];
    OneMoreHourBounded(before, b, c, minUnits, t);
  }

  // The hours before t are emitted, and there is room for the others.
  ghost predicate BuiltUntil(lp: Lp, c: Cluster, minUnits: seq<int>, t: nat)
    requires c.Valid() && |minUnits| == c.horizon
  {
    var s := lp.matrix;
    && Holding(s, AllRows(c, t), []) && s.constraints == 4 * t && s.terms == TermsUntil(c, t)
    && |s.rowStart| == |lp.rhs| == 5 * c.horizon && TermsUntil(c, c.horizon) <= |s.columns|
    && BoundedUntil(lp.bounds, c, minUnits, t)
    && forall h :: 0 <= h < t ==> RhsIs(c, lp.rhs, h)
  }

  method BuildHour(c: Cluster, minUnits: seq<int>, columns: Columns, t: nat, before: Lp) returns (lp: Lp)
    requires c.Valid() && t < c.horizon == |minUnits| && ColumnsKnown(columns, c.horizon)
    requires BuiltUntil(before, c, minUnits, t)
    ensures BuiltUntil(lp, c, minUnits, t + 1)
  {
    RoomForHour(c, t, c.horizon);
    var rhs := FillRhs(c, t, before.matrix.constraints, before.rhs);
    var s := EmitHour(c, columns, t, before.matrix);
    var bounds := BoundOutages(c, minUnits, columns, t, before.bounds);
    lp := Lp(s, rhs, bounds);
  }

  method BuildProgram(c: Cluster, minUnits: seq<int>) returns (lp: Lp, columns: Columns)
    requires c.Valid() && |minUnits| == c.horizon
    ensures IsProgramOf(lp, c, minUnits) && ColumnsKnown(columns, c.horizon)
  {
    var bounds;
    columns, bounds := NumberVariables(c, minUnits);
    var maxTerms := 4 * c.horizon + 2 * c.horizon + 1 * c.horizon
                    + c.horizon * (1 + 2 * c.minUp) + c.horizon * (1 + c.minDown);
    TermsAllocated(c, c.horizon);
    var s := Allocate(maxTerms, 5 * c.horizon);
    var rhs: seq<real> := Filled(5 * c.horizon, 0.0);
    lp := Lp(s, rhs, bounds);
    for t := 0 to c.horizon
      invariant BuiltUntil(lp, c, minUnits, t)
    {
      lp := BuildHour(c, minUnits, columns, t, lp);
    }
    forall h | 0 <= h < c.horizon
      ensures HourBounded(lp.bounds, c, minUnits, h, c.Loss(h))
    {
      assert HourBounded(lp.bounds, c, minUnits, h, LossUntil(c, c.horizon, h));
    }
  }

  method FillRhs(c: Cluster, t: nat, first: nat, before: seq<real>) returns (rhs: seq<real>)
    requires c.Valid() && t < c.horizon && first == 4 * t && |before| == 5 * c.horizon
    requires forall h :: 0 <= h < t ==> RhsIs(c, before, h)
    ensures |rhs| == |before|
    ensures forall h :: 0 <= h < t + 1 ==> RhsIs(c, rhs, h)
  {
    var bound := MinDownRhs(c, t);
    rhs := before[first := 0.0];
    rhs := rhs[first + 1 := 0.0];
    rhs := rhs[first + 2 := 0.0];
    rhs := rhs[first + 3 := bound];
    forall h | 0 <= h < t
      ensures RhsIs(c, rhs, h)
    {
      assert RhsIs(c, before, h);
    }
  }

  lemma {:induction false} RoomForHour(c: Cluster, t: nat, hours: nat)
    requires t < hours
    ensures TermsUntil(c, t) + TermsPerHour(c) <= TermsUntil(c, hours)
  {
    if t + 1 < hours {
      RoomForHour(c, t, hours - 1);
    }
  }

  // The room allocated is that of all the hours and one place more for each.
  lemma {:induction false} TermsAllocated(c: Cluster, hours: nat)
    ensures 4 * hours + 2 * hours + 1 * hours + hours * (1 + 2 * c.minUp) + hours * (1 + c.minDown)
         == TermsUntil(c, hours) + hours
  {
    if hours > 0 {
      TermsAllocated(c, hours - 1);
    }
  }
}
