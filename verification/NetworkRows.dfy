// The links of the network chained by area in arrays, and the nodal balance rows that are
// read off these chains.

module NetworkRows {
  import opened Sums
  import opened SparseRows
  import opened ConstraintMatrix

  // ----- Chains --------------------------------------------------------------------------------

  // The links before count whose end at this side is the area, latest first.
  ghost function LinksAt(side: seq<int>, area: int, count: nat): seq<int>
    requires count <= |side|
  {
    if count == 0 then []
    else (if side[count - 1] == area then [count - 1] else []) + LinksAt(side, area, count - 1)
  }

  lemma {:induction false} LinksAtExactly(side: seq<int>, area: int, count: nat)
    requires count <= |side|
    ensures forall i :: i in LinksAt(side, area, count) <==> 0 <= i < count && side[i] == area
    ensures forall i, j :: 0 <= i < j < |LinksAt(side, area, count)| ==>
              LinksAt(side, area, count)[i] > LinksAt(side, area, count)[j]
  {
    if count > 0 {
      LinksAtExactly(side, area, count - 1);
      var rest := LinksAt(side, area, count - 1);
      forall j | 0 <= j < |rest|
        ensures rest[j] < count - 1
      {
        assert rest[j] in rest;
      }
    }
  }

  // Every link points to an earlier one, or to none.
  ghost predicate PointsBack(next: seq<int>, count: nat) {
    count <= |next| && forall i :: 0 <= i < count ==> next[i] < i
  }

  ghost function Follow(next: seq<int>, count: nat, link: int): seq<int>
    requires PointsBack(next, count) && link < count
    decreases if link < 0 then 0 else link + 1
  {
    if link < 0 then [] else [link] + Follow(next, count, next[link])
  }

  ghost predicate Chained(side: seq<int>, heads: seq<int>, next: seq<int>, areas: nat, count: nat) {
    && count <= |side| && areas <= |heads| && PointsBack(next, count)
    && forall a :: 0 <= a < areas ==> heads[a] < count && Follow(next, count, heads[a]) == LinksAt(side, a, count)
  }

  lemma {:induction false} FollowUnchanged(next: seq<int>, next': seq<int>, count: nat, link: int)
    requires PointsBack(next, count) && PointsBack(next', count + 1) && link < count
    requires next[..count] == next'[..count]
    ensures Follow(next', count + 1, link) == Follow(next, count, link)
    decreases if link < 0 then 0 else link + 1
  {
    if link >= 0 {
      assert next'[link] == next'[..count][link] == next[link];
      FollowUnchanged(next, next', count, next[link]);
    }
  }

  // Inserting the next link at the head of its area's chain.
  lemma HeadInserted(side: seq<int>, heads: seq<int>, next: seq<int>, areas: nat, count: nat,
                     heads': seq<int>, next': seq<int>)
    requires Chained(side, heads, next, areas, count) && count < |side| && 0 <= side[count] < areas
    requires count < |next| && |heads| == |heads'| && |next| == |next'|
    requires heads' == heads[side[count] := count] && next' == next[count := heads[side[count]]]
    ensures Chained(side, heads', next', areas, count + 1)
  {
    assert PointsBack(next', count + 1);
    forall a | 0 <= a < areas
      ensures Follow(next', count + 1, heads'[a]) == LinksAt(side, a, count + 1)
    {
      FollowUnchanged(next, next', count, heads[a]);
      assert Follow(next, count, heads[a]) == LinksAt(side, a, count);
    }
  }

  method Insert(side: int, link: int, heads: array<int>, next: array<int>)
    requires 0 <= side < heads.Length && 0 <= link < next.Length && heads != next
    modifies heads, next
    ensures heads[..] == old(heads[..])[side := link]
    ensures next[..] == old(next[..])[link := old(heads[side])]
  {
    var index := heads[side];
    heads[side] := link;
    next[link] := index;
  }

  method InsertChained(side: seq<int>, link: nat, heads: array<int>, next: array<int>)
    requires link < |side| && 0 <= side[link] < heads.Length && link < next.Length && heads != next
    requires Chained(side, heads[..], next[..], heads.Length, link)
    modifies heads, next
    ensures Chained(side, heads[..], next[..], heads.Length, link + 1)
  {
    ghost var h, n := heads[..], next[..];
    Insert(side[link], link, heads, next);
    HeadInserted(side, h, n, heads.Length, link, heads[..], next[..]);
  }

  ghost predicate Distinct(a: array<int>, b: array<int>, c: array<int>, d: array<int>) {
    a != b && a != c && a != d && b != c && b != d && c != d
  }

  method ClearHeads(headOut: array<int>, headIn: array<int>)
    requires headOut.Length == headIn.Length
    modifies headOut, headIn
    ensures forall k :: 0 <= k < headOut.Length ==> headOut[k] == -1 && headIn[k] == -1
  {
    for a := 0 to headOut.Length
      invariant forall k :: 0 <= k < a ==> headOut[k] == -1 && headIn[k] == -1
    {
      headOut[a] := -1;
      headIn[a] := -1;
    }
  }

  // Chains all the links of the network, once by origin and once by destination.
  method ChainLinks(origin: seq<int>, destination: seq<int>, headOut: array<int>, nextOut: array<int>,
                    headIn: array<int>, nextIn: array<int>)
    requires |origin| == |destination| <= nextOut.Length && |origin| <= nextIn.Length
    requires headOut.Length == headIn.Length && Distinct(headOut, nextOut, headIn, nextIn)
    requires forall i :: 0 <= i < |origin| ==> 0 <= origin[i] < headOut.Length && 0 <= destination[i] < headOut.Length
    modifies headOut, nextOut, headIn, nextIn
    ensures Chained(origin, headOut[..], nextOut[..], headOut.Length, |origin|)
    ensures Chained(destination, headIn[..], nextIn[..], headIn.Length, |destination|)
  {
    ClearHeads(headOut, headIn);
    for link := 0 to |origin|
      invariant Chained(origin, headOut[..], nextOut[..], headOut.Length, link)
      invariant Chained(destination, headIn[..], nextIn[..], headIn.Length, link)
    {
      InsertChained(origin, link, headOut, nextOut);
      InsertChained(destination, link, headIn, nextIn);
    }
  }

  // ----- Nodal rows ------------------------------------------------------------------------------

  // The variable that carries a link's flow, or a negative number.
  ghost function VariableOf(variable: seq<int>, link: int): int {
    if 0 <= link < |variable| then variable[link] else -1
  }

  ghost function TermOf(variable: seq<int>, link: int, coef: real): seq<Term> {
    if VariableOf(variable, link) >= 0 then [Term(VariableOf(variable, link), coef)] else []
  }

  // One term for every listed link that has a variable.
  ghost function SignedTerms(links: seq<int>, variable: seq<int>, coef: real): seq<Term> {
    if links == [] then []
    else SignedTerms(links[..|links| - 1], variable, coef) + TermOf(variable, links[|links| - 1], coef)
  }

  lemma {:induction false} SignedTermsAppend(links: seq<int>, link: int, variable: seq<int>, coef: real)
    ensures SignedTerms(links + [link], variable, coef)
         == SignedTerms(links, variable, coef) + TermOf(variable, link, coef)
  {
    assert (links + [link])[..|links|] == links;
  }

  datatype Network = Network(areas: nat, origin: seq<int>, destination: seq<int>, variable: seq<int>) {
    ghost predicate Valid() {
      && |origin| == |destination| == |variable|
      && (forall i :: 0 <= i < |origin| ==> 0 <= origin[i] < areas && 0 <= destination[i] < areas)
      && (forall i :: 0 <= i < |origin| ==> origin[i] != destination[i])
    }
  }

  ghost function TermsAt(side: seq<int>, variable: seq<int>, area: int, coef: real): seq<Term> {
    SignedTerms(LinksAt(side, area, |side|), variable, coef)
  }

  ghost function NodalRow(n: Network, area: int): Row
    requires n.Valid()
  {
    Row(TermsAt(n.origin, n.variable, area, 1.0) + TermsAt(n.destination, n.variable, area, -1.0), '=')
  }

  ghost function NodalRows(n: Network, areas: nat): seq<Row>
    requires n.Valid()
  {
    if areas == 0 then [] else NodalRows(n, areas - 1) + [NodalRow(n, areas - 1)]
  }

  lemma {:induction false} LinksAtCount(origin: seq<int>, destination: seq<int>, area: int, count: nat)
    requires count <= |origin| == |destination|
    requires forall i :: 0 <= i < count ==> origin[i] != destination[i]
    ensures |LinksAt(origin, area, count)| + |LinksAt(destination, area, count)| <= count
  {
    if count > 0 {
      LinksAtCount(origin, destination, area, count - 1);
    }
  }

  lemma {:induction false} BufferedSame(pi: seq<real>, column: seq<int>, pi': seq<real>, column': seq<int>, count: nat)
    requires count <= |pi| == |pi'| && count <= |column| == |column'|
    requires forall i :: 0 <= i < count ==> pi[i] == pi'[i] && column[i] == column'[i]
    ensures Buffered(pi, column, count) == Buffered(pi', column', count)
  {
    if count > 0 {
      BufferedSame(pi, column, pi', column', count - 1);
    }
  }

  // The chain still to follow from this link, and the terms of the links before it.
  ghost predicate Midway(all: seq<int>, done: seq<int>, next: seq<int>, count: nat, link: int) {
    PointsBack(next, count) && link < count && done + Follow(next, count, link) == all
  }

  lemma MidwayStep(all: seq<int>, done: seq<int>, next: seq<int>, count: nat, link: int)
    requires Midway(all, done, next, count, link) && link >= 0
    ensures |done| < |all| && Midway(all, done + [link], next, count, next[link])
  {
    assert done + Follow(next, count, link) == done + [link] + Follow(next, count, next[link]);
  }

  method AddTerm(variable: seq<int>, link: nat, coef: real, pi: array<real>, column: array<int>, used: nat,
                 ghost before: seq<Term>) returns (count: nat)
    requires link < |variable| && used < pi.Length == column.Length
    requires Buffered(pi[..], column[..], used) == before
    modifies pi, column
    ensures used <= count <= used + 1
    ensures Buffered(pi[..], column[..], count) == before + TermOf(variable, link, coef)
  {
    count := used;
    if variable[link] >= 0 {
      ghost var p, c := pi[..], column[..];
      pi[count] := coef;
      column[count] := variable[link];
      BufferedSame(p, c, pi[..], column[..], count);
      count := count + 1;
    }
  }

  // Follows one chain and adds its links' terms to the buffers.
  method AddChain(side: seq<int>, variable: seq<int>, area: nat, head: int, next: seq<int>, coef: real,
                  pi: array<real>, column: array<int>, used: nat, ghost before: seq<Term>)
    returns (count: nat)
    requires |side| == |variable| && PointsBack(next, |side|) && head < |side|
    requires Follow(next, |side|, head) == LinksAt(side, area, |side|)
    requires pi.Length == column.Length && used + |LinksAt(side, area, |side|)| <= pi.Length
    requires Buffered(pi[..], column[..], used) == before
    modifies pi, column
    ensures used <= count <= used + |LinksAt(side, area, |side|)|
    ensures Buffered(pi[..], column[..], count) == before + TermsAt(side, variable, area, coef)
  {
    ghost var all := LinksAt(side, area, |side|);
    ghost var done: seq<int> := [];
    count := used;
    var link := head;
    while link >= 0
      invariant Midway(all, done, next, |side|, link) && |done| <= |all|
      invariant used <= count <= used + |done|
      invariant Buffered(pi[..], column[..], count) == before + SignedTerms(done, variable, coef)
      decreases if link < 0 then 0 else link + 1
    {
      MidwayStep(all, done, next, |side|, link);
      SignedTermsAppend(done, link, variable, coef);
      count := AddTerm(variable, link, coef, pi, column, count, before + SignedTerms(done, variable, coef));
      done := done + [link];
      link := next[link];
    }
    assert done == all;
  }

  // Puts the terms of one area's row in the buffers: its outgoing links, then its incoming ones.
  method FillRow(n: Network, area: nat, firstOut: int, nextOut: seq<int>, firstIn: int, nextIn: seq<int>,
                 pi: array<real>, column: array<int>) returns (count: nat)
    requires n.Valid() && |n.origin| <= pi.Length == column.Length
    requires PointsBack(nextOut, |n.origin|) && firstOut < |n.origin|
    requires PointsBack(nextIn, |n.origin|) && firstIn < |n.origin|
    requires Follow(nextOut, |n.origin|, firstOut) == LinksAt(n.origin, area, |n.origin|)
    requires Follow(nextIn, |n.origin|, firstIn) == LinksAt(n.destination, area, |n.origin|)
    modifies pi, column
    ensures count <= pi.Length
    ensures Buffered(pi[..], column[..], count) == NodalRow(n, area).terms
  {
    LinksAtCount(n.origin, n.destination, area, |n.origin|);
    count := AddChain(n.origin, n.variable, area, firstOut, nextOut, 1.0, pi, column, 0, []);
    count := AddChain(n.destination, n.variable, area, firstIn, nextIn, -1.0, pi, column, count,
                      TermsAt(n.origin, n.variable, area, 1.0));
  }

  ghost predicate InOrder(numbers: seq<int>, count: nat) {
    count <= |numbers| && forall a :: 0 <= a < count ==> numbers[a] == a
  }

  // The rows of the areas before this one are in the problem, which has room for the others.
  ghost predicate LoadedUntil(n: Network, area: nat, p: Problem)
    requires n.Valid()
    reads p
  {
    && p.Valid() && 0 < p.increment && p.rows == NodalRows(n, area) && p.store.constraints == area
    && n.areas - 1 <= |p.store.rowStart|
  }

  method LoadNodalRow(n: Network, area: nat, firstOut: int, nextOut: seq<int>, firstIn: int, nextIn: seq<int>,
                      pi: array<real>, column: array<int>, p: Problem)
    requires n.Valid() && |n.origin| <= pi.Length == column.Length
    requires PointsBack(nextOut, |n.origin|) && firstOut < |n.origin|
    requires PointsBack(nextIn, |n.origin|) && firstIn < |n.origin|
    requires Follow(nextOut, |n.origin|, firstOut) == LinksAt(n.origin, area, |n.origin|)
    requires Follow(nextIn, |n.origin|, firstIn) == LinksAt(n.destination, area, |n.origin|)
    requires area < n.areas - 1 && LoadedUntil(n, area, p)
    modifies p, pi, column
    ensures LoadedUntil(n, area + 1, p)
  {
    var count := FillRow(n, area, firstOut, nextOut, firstIn, nextIn, pi, column);
    p.LoadConstraint(pi[..], column[..], count, '=');
  }

  ghost predicate ChainedBothWays(n: Network, headOut: seq<int>, nextOut: seq<int>, headIn: seq<int>, nextIn: seq<int>)
    requires n.Valid()
  {
    && Chained(n.origin, headOut, nextOut, n.areas, |n.origin|)
    && Chained(n.destination, headIn, nextIn, n.areas, |n.destination|)
  }

  method NumberRow(rowOf: array<int>, area: nat, number: nat)
    requires area < rowOf.Length && number == area && InOrder(rowOf[..], area)
    modifies rowOf
    ensures InOrder(rowOf[..], area + 1)
  {
    rowOf[area] := number;
  }

  method AddNodalRow(n: Network, area: nat, headOut: seq<int>, nextOut: seq<int>, headIn: seq<int>, nextIn: seq<int>,
                     pi: array<real>, column: array<int>, p: Problem, rowOf: array<int>)
    requires n.Valid() && |n.origin| <= pi.Length == column.Length && column != rowOf && rowOf.Length == n.areas
    requires ChainedBothWays(n, headOut, nextOut, headIn, nextIn)
    requires area < n.areas - 1 && LoadedUntil(n, area, p) && InOrder(rowOf[..], area)
    modifies p, rowOf, pi, column
    ensures LoadedUntil(n, area + 1, p) && InOrder(rowOf[..], area + 1)
  {
    NumberRow(rowOf, area, p.store.constraints);
    assert Follow(nextOut, |n.origin|, headOut[area]) == LinksAt(n.origin, area, |n.origin|);
    assert Follow(nextIn, |n.origin|, headIn[area]) == LinksAt(n.destination, area, |n.origin|);
    LoadNodalRow(n, area, headOut[area], nextOut, headIn[area], nextIn, pi, column, p);
  }

  method AddNodalRows(n: Network, headOut: seq<int>, nextOut: seq<int>, headIn: seq<int>, nextIn: seq<int>,
                      pi: array<real>, column: array<int>, p: Problem, rowOf: array<int>)
    requires n.Valid() && 1 <= n.areas && |n.origin| <= pi.Length == column.Length
    requires column != rowOf && rowOf.Length == n.areas
    requires ChainedBothWays(n, headOut, nextOut, headIn, nextIn) && LoadedUntil(n, 0, p)
    modifies p, rowOf, pi, column
    ensures LoadedUntil(n, n.areas - 1, p) && InOrder(rowOf[..], n.areas - 1)
  {
    for area := 0 to n.areas - 1
      invariant LoadedUntil(n, area, p) && InOrder(rowOf[..], area)
    {
      AddNodalRow(n, area, headOut, nextOut, headIn, nextIn, pi, column, p, rowOf);
    }
  }

  // The balance rows of all areas but the last, and the number of each.
  method BuildNodalRows(n: Network, headOut: seq<int>, nextOut: seq<int>, headIn: seq<int>, nextIn: seq<int>,
                        p: Problem, rowOf: array<int>, variables: nat)
    requires n.Valid() && 1 <= n.areas && |n.origin| <= variables && rowOf.Length == n.areas
    requires ChainedBothWays(n, headOut, nextOut, headIn, nextIn)
    requires p.Valid() && 0 < p.increment && n.areas - 1 <= |p.store.rowStart|
    modifies p, rowOf
    ensures p.Valid() && RowPerArea(n, p.rows, rowOf[..], n.areas - 1)
  {
    var pi, column := new real[variables](_ => 0.0), new int[variables](_ => 0);
    p.Restart();
    AddNodalRows(n, headOut, nextOut, headIn, nextIn, pi, column, p, rowOf);
    NodalRowsArePerArea(n, p.rows, rowOf[..], n.areas - 1);
  }

  // ----- What the rows mean -----------------------------------------------------------------------

  // The term of this variable and coefficient, for a link on this side of the area.
  ghost predicate LinkOnSide(side: seq<int>, variable: seq<int>, area: int, v: int) {
    exists link :: 0 <= link < |side| && link < |variable| && side[link] == area && variable[link] == v && v >= 0
  }

  lemma {:induction false} SignedTermsExactly(links: seq<int>, variable: seq<int>, coef: real, term: Term)
    ensures term in SignedTerms(links, variable, coef) <==>
            (term.coef == coef && term.column >= 0
             && exists link :: link in links && VariableOf(variable, link) == term.column)
  {
    if links != [] {
      var rest, last := links[..|links| - 1], links[|links| - 1];
      SignedTermsExactly(rest, variable, coef, term);
      assert links == rest + [last];
    }
  }

  lemma SideTermsExactly(side: seq<int>, variable: seq<int>, area: int, coef: real, term: Term)
    requires |side| == |variable|
    ensures term in TermsAt(side, variable, area, coef) <==>
            term.coef == coef && LinkOnSide(side, variable, area, term.column)
  {
    LinksAtExactly(side, area, |side|);
    SignedTermsExactly(LinksAt(side, area, |side|), variable, coef, term);
  }

  // A row holds one for every link with a variable that leaves the area, and minus one for
  // every one that enters it, and nothing else.
  lemma NodalTermsExactly(n: Network, area: int, term: Term)
    requires n.Valid()
    ensures term in NodalRow(n, area).terms <==>
            exists link ::
              && 0 <= link < |n.origin| && n.variable[link] == term.column >= 0
              && ((n.origin[link] == area && term.coef == 1.0) || (n.destination[link] == area && term.coef == -1.0))
  {
    SideTermsExactly(n.origin, n.variable, area, 1.0, term);
    SideTermsExactly(n.destination, n.variable, area, -1.0, term);
  }

  lemma {:induction false} NodalRowAt(n: Network, areas: nat, a: nat)
    requires n.Valid() && a < areas
    ensures |NodalRows(n, areas)| == areas && NodalRows(n, areas)[a] == NodalRow(n, a)
  {
    if a < areas - 1 {
      NodalRowAt(n, areas - 1, a);
    } else if areas > 1 {
      NodalRowAt(n, areas - 1, 0);
    }
  }

  ghost predicate RowOfArea(n: Network, rows: seq<Row>, a: int)
    requires n.Valid()
  {
    0 <= a < |rows| && rows[a] == NodalRow(n, a)
  }

  // The rows are numbered as their areas.
  ghost predicate RowPerArea(n: Network, rows: seq<Row>, rowOf: seq<int>, count: nat)
    requires n.Valid()
  {
    |rows| == count <= |rowOf| && forall a :: 0 <= a < count ==> rowOf[a] == a && RowOfArea(n, rows, a)
  }

  lemma NodalRowsArePerArea(n: Network, rows: seq<Row>, rowOf: seq<int>, count: nat)
    requires n.Valid() && rows == NodalRows(n, count) && InOrder(rowOf, count)
    ensures RowPerArea(n, rows, rowOf, count)
  {
    if count > 0 {
      NodalRowAt(n, count, 0);
    }
    forall a | 0 <= a < count
      ensures RowOfArea(n, rows, a)
    {
      NodalRowAt(n, count, a);
    }
  }

  ghost function FlowOf(n: Network, x: int -> real): int -> real {
    i => if VariableOf(n.variable, i) >= 0 then x(VariableOf(n.variable, i)) else 0.0
  }

  // The flow of a link as the area sees it: out of its origin, into its destination.
  ghost function NetFlow(n: Network, x: int -> real, area: int): int -> real {
    i => SideFlow(n, x, n.origin, area)(i) + -1.0 * SideFlow(n, x, n.destination, area)(i)
  }

  ghost function SideFlow(n: Network, x: int -> real, side: seq<int>, area: int): int -> real {
    i => if 0 <= i < |side| && side[i] == area then FlowOf(n, x)(i) else 0.0
  }

  // Outflow minus inflow of the area.
  ghost function NetOutflow(n: Network, x: int -> real, area: int): real {
    Sum(0, |n.origin|, NetFlow(n, x, area))
  }

  lemma {:induction false} EvalConcat(a: seq<Term>, b: seq<Term>, x: int -> real)
    ensures Eval(a + b, x) == Eval(a, x) + Eval(b, x)
  {
    if b == [] {
      assert a + b == a;
    } else {
      EvalConcat(a, b[..|b| - 1], x);
      EvalAppend(a + b[..|b| - 1], b[|b| - 1], x);
      assert a + b == a + b[..|b| - 1] + [b[|b| - 1]];
    }
  }

  lemma Associates(a: seq<Term>, b: seq<Term>, c: seq<Term>)
    ensures a + b + c == a + (b + c)
  {
  }

  lemma {:induction false} SignedTermsConcat(a: seq<int>, b: seq<int>, variable: seq<int>, coef: real)
    ensures SignedTerms(a + b, variable, coef) == SignedTerms(a, variable, coef) + SignedTerms(b, variable, coef)
  {
    if b == [] {
      assert a + b == a;
    } else {
      var rest, link := b[..|b| - 1], b[|b| - 1];
      SignedTermsConcat(a, rest, variable, coef);
      SignedTermsAppend(a + rest, link, variable, coef);
      assert a + b == a + rest + [link];
      Associates(SignedTerms(a, variable, coef), SignedTerms(rest, variable, coef), TermOf(variable, link, coef));
    }
  }

  lemma EvalTermOf(n: Network, x: int -> real, link: int)
    ensures Eval(TermOf(n.variable, link, 1.0), x) == FlowOf(n, x)(link)
    ensures Eval(TermOf(n.variable, link, -1.0), x) == -FlowOf(n, x)(link)
  {
    var v := VariableOf(n.variable, link);
    if v >= 0 {
      EvalAppend([], Term(v, 1.0), x);
      EvalAppend([], Term(v, -1.0), x);
      assert [] + [Term(v, 1.0)] == [Term(v, 1.0)] && [] + [Term(v, -1.0)] == [Term(v, -1.0)];
    }
  }

  lemma {:induction false} EvalNegated(n: Network, x: int -> real, links: seq<int>)
    ensures Eval(SignedTerms(links, n.variable, -1.0), x) == -Eval(SignedTerms(links, n.variable, 1.0), x)
  {
    if links != [] {
      var rest, link := links[..|links| - 1], links[|links| - 1];
      EvalNegated(n, x, rest);
      EvalConcat(SignedTerms(rest, n.variable, 1.0), TermOf(n.variable, link, 1.0), x);
      EvalConcat(SignedTerms(rest, n.variable, -1.0), TermOf(n.variable, link, -1.0), x);
      EvalTermOf(n, x, link);
    }
  }

  lemma EvalHead(n: Network, x: int -> real, link: int, rest: seq<int>)
    ensures Eval(SignedTerms([link] + rest, n.variable, 1.0), x)
         == FlowOf(n, x)(link) + Eval(SignedTerms(rest, n.variable, 1.0), x)
  {
    SignedTermsConcat([link], rest, n.variable, 1.0);
    SignedTermsAppend([], link, n.variable, 1.0);
    assert [] + [link] == [link];
    EvalConcat(SignedTerms([link], n.variable, 1.0), SignedTerms(rest, n.variable, 1.0), x);
    EvalTermOf(n, x, link);
  }

  lemma {:induction false} EvalSide(n: Network, x: int -> real, side: seq<int>, area: int, count: nat,
                                    links: seq<int>)
    requires count <= |side| && links == LinksAt(side, area, count)
    ensures Eval(SignedTerms(links, n.variable, 1.0), x) == Sum(0, count, SideFlow(n, x, side, area))
  {
    if count > 0 {
      var rest := LinksAt(side, area, count - 1);
      EvalSide(n, x, side, area, count - 1, rest);
      if side[count - 1] == area {
        EvalHead(n, x, count - 1, rest);
        assert links == [count - 1] + rest;
      } else {
        assert links == rest;
      }
    }
  }

  // An area's row evaluates to its outflow minus its inflow.
  lemma NodalRowIsNetOutflow(n: Network, x: int -> real, area: int)
    requires n.Valid()
    ensures Eval(NodalRow(n, area).terms, x) == NetOutflow(n, x, area)
  {
    var out, into := TermsAt(n.origin, n.variable, area, 1.0), TermsAt(n.destination, n.variable, area, -1.0);
    EvalConcat(out, into, x);
    EvalSide(n, x, n.origin, area, |n.origin|, LinksAt(n.origin, area, |n.origin|));
    EvalSide(n, x, n.destination, area, |n.destination|, LinksAt(n.destination, area, |n.destination|));
    EvalNegated(n, x, LinksAt(n.destination, area, |n.destination|));
    SumLinear(0, |n.origin|, SideFlow(n, x, n.origin, area), -1.0, SideFlow(n, x, n.destination, area),
              NetFlow(n, x, area));
  }

  // ----- The row left out is redundant ------------------------------------------------------------

  ghost function Picks(n: Network, x: int -> real, side: seq<int>, link: int): int -> real {
    a => SideFlow(n, x, side, a)(link)
  }

  // Over all areas, a link's flow counts once at its origin and once at its destination.
  lemma {:induction false} PicksOnce(n: Network, x: int -> real, side: seq<int>, link: nat, areas: nat)
    requires link < |side|
    ensures Sum(0, areas, Picks(n, x, side, link)) == if 0 <= side[link] < areas then FlowOf(n, x)(link) else 0.0
  {
    if areas > 0 {
      PicksOnce(n, x, side, link, areas - 1);
      assert Picks(n, x, side, link)(areas - 1) == SideFlow(n, x, side, areas - 1)(link);
    }
  }

  ghost function PartialOutflow(n: Network, x: int -> real, count: nat): int -> real {
    a => Sum(0, count, NetFlow(n, x, a))
  }

  ghost function LinkShare(n: Network, x: int -> real, link: int): int -> real {
    a => NetFlow(n, x, a)(link)
  }

  // What leaves some area enters another.
  lemma {:induction false} OutflowsCancel(n: Network, x: int -> real, count: nat)
    requires n.Valid() && count <= |n.origin|
    ensures Sum(0, n.areas, PartialOutflow(n, x, count)) == 0.0
  {
    if count == 0 {
      SumZero(0, n.areas, PartialOutflow(n, x, 0));
    } else {
      var link := count - 1;
      OutflowsCancel(n, x, link);
      SumLinear(0, n.areas, PartialOutflow(n, x, link), 1.0, LinkShare(n, x, link), PartialOutflow(n, x, count));
      SumLinear(0, n.areas, Picks(n, x, n.origin, link), -1.0, Picks(n, x, n.destination, link), LinkShare(n, x, link));
      PicksOnce(n, x, n.origin, link, n.areas);
      PicksOnce(n, x, n.destination, link, n.areas);
    }
  }

  ghost predicate RowsHold(n: Network, x: int -> real, balance: int -> real)
    requires n.Valid()
  {
    forall a :: 0 <= a < n.areas - 1 ==> Holds('=', Eval(NodalRow(n, a).terms, x), balance(a))
  }

  lemma RowsFixOutflows(n: Network, x: int -> real, balance: int -> real)
    requires n.Valid() && RowsHold(n, x, balance)
    ensures forall a :: 0 <= a < n.areas - 1 ==> NetOutflow(n, x, a) == balance(a)
  {
    forall a | 0 <= a < n.areas - 1
      ensures NetOutflow(n, x, a) == balance(a)
    {
      NodalRowIsNetOutflow(n, x, a);
      assert Holds('=', Eval(NodalRow(n, a).terms, x), balance(a));
    }
  }

  // Any flow that satisfies the rows emitted balances the last area too, exactly when the
  // balances of all areas sum to zero.
  lemma LastRowIsRedundant(n: Network, x: int -> real, balance: int -> real)
    requires n.Valid() && 1 <= n.areas && RowsHold(n, x, balance)
    ensures NetOutflow(n, x, n.areas - 1) == balance(n.areas - 1) <==> Sum(0, n.areas, balance) == 0.0
  {
    OutflowsCancel(n, x, |n.origin|);
    RowsFixOutflows(n, x, balance);
    var outflow := PartialOutflow(n, x, |n.origin|);
    forall a | 0 <= a < n.areas
      ensures outflow(a) == NetOutflow(n, x, a)
    {
    }
    SumExtensional(0, n.areas - 1, outflow, balance);
  }
}
