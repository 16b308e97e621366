// The growing constraint matrix of the weekly problem: rows are appended term by term, and
// the term arrays are enlarged as soon as they are full.

module ConstraintMatrix {
  import opened SparseRows

  class Problem {
    var store: Store
    var capacity: nat
    const increment: nat
    ghost var rows: seq<Row>

    ghost predicate Valid()
      reads this
    {
      && Holding(store, rows, [])
      && Room(increment, store, capacity)
    }

    constructor (maxTerms: nat, maxConstraints: nat)
      requires 0 < maxTerms
      ensures Valid() && rows == [] && store.constraints == 0
      ensures capacity == maxTerms && |store.rowStart| == maxConstraints
      ensures increment == maxTerms / 10
    {
      increment := maxTerms / 10;
      capacity := maxTerms;
      rows := [];
      var s := Allocate(maxTerms, maxConstraints);
      store := s;
    }

    // Starts the matrix again; the arrays keep their size.
    method Restart()
      requires Valid()
      modifies this`store, this`rows
      ensures Valid() && rows == [] && store.terms == 0 && store.constraints == 0
      ensures |store.rowStart| == old(|store.rowStart|)
    {
      store := store.(terms := 0, constraints := 0);
      rows := [];
    }

    method Grow()
      requires store.terms <= capacity == |store.columns| == |store.coefs|
      modifies this`store, this`capacity
      ensures capacity == old(capacity) + increment == |store.columns|
      ensures store == old(store).(columns := store.columns, coefs := store.coefs)
      ensures forall before, open :: old(Holding(store, before, open)) ==> Holding(store, before, open)
    {
      var terms := capacity + increment;
      store := store.(columns := store.columns + Filled(increment, 0), coefs := store.coefs + Filled(increment, 0.0));
      capacity := terms;
    }

    // Appends one row made of the first count entries of the two buffers.
    method LoadConstraint(pi: seq<real>, column: seq<int>, count: nat, sense: char)
      requires Valid() && count <= |pi| && count <= |column|
      requires store.constraints < |store.rowStart|
      requires 0 < increment || store.terms + count <= capacity
      modifies this`store, this`capacity, this`rows
      ensures Valid()
      ensures rows == old(rows) + [Row(Buffered(pi, column, count), sense)]
      ensures store.terms == old(store.terms) + count
      ensures store.constraints == old(store.constraints) + 1 && |store.rowStart| == old(|store.rowStart|)
      ensures 0 < increment ==> store.terms < capacity
    {
      var s := BeginRow(store, rows);
      store := s;
      for i := 0 to count
        invariant Holding(store, rows, Buffered(pi, column, i)) && Room(increment, store, capacity)
        invariant rows == old(rows) && store.terms == old(store.terms) + i
        invariant store.constraints == old(store.constraints) && |store.rowStart| == old(|store.rowStart|)
        invariant store.rowStart[store.constraints] == old(store.terms)
        invariant 0 < increment || capacity == old(capacity)
      {
        s := Push(store, column[i], pi[i], rows, Buffered(pi, column, i));
        store := s;
        if store.terms == capacity {
          Grow();
        }
      }
      s := EndRow(store, count, sense, rows, Buffered(pi, column, count));
      store := s;
      rows := rows + [Row(Buffered(pi, column, count), sense)];
    }
  }

  // The arrays have the allocated length, and a positive increment always leaves a free place.
  ghost predicate Room(increment: nat, s: Store, capacity: nat) {
    && |s.columns| == |s.coefs| == capacity
    && s.terms <= capacity
    && (0 < increment ==> s.terms < capacity)
  }

  // The terms that the first entries of the buffers describe.
  ghost function Buffered(pi: seq<real>, column: seq<int>, count: nat): seq<Term>
    requires count <= |pi| && count <= |column|
  {
    if count == 0 then [] else Buffered(pi, column, count - 1) + [Term(column[count - 1], pi[count - 1])]
  }

  lemma {:induction false} BufferedAt(pi: seq<real>, column: seq<int>, count: nat, i: nat)
    requires i < count <= |pi| && count <= |column|
    ensures |Buffered(pi, column, count)| == count
    ensures Buffered(pi, column, count)[i] == Term(column[i], pi[i])
  {
    if count > 1 {
      BufferedAt(pi, column, count - 1, if i < count - 1 then i else i - 1);
    }
  }

  // ----- The number of terms expected for a weekly problem --------------------------------------

  datatype Sizes = Sizes(constraints: nat, areas: nat, links: nat, couplings: nat, steps: nat, clusters: nat,
                         startUpTerms: nat)

  function Times(a: nat, b: nat): nat { a * b }

  // However small the study, the growth increment chosen from the expected number of terms is
  // positive.
  method ExpectedTerms(n: Sizes) returns (terms: nat, increment: nat)
    ensures terms >= 102 && increment == terms / 10 >= 10
    ensures var sparsity := if Times(n.clusters, n.areas) + n.links > 100 then 100
                            else Times(n.clusters, n.areas) + n.links;
            terms == 102 + n.constraints + n.startUpTerms
                     + 2 * Times(Times(n.clusters + 4, n.areas) + 2 * n.links, n.steps) + 3 * Times(n.links, n.steps)
                     + Times(Times(sparsity, n.couplings), n.steps) + Times(sparsity * 14, n.couplings)
                     + 14 * Times(n.areas, n.steps)
  {
    var areaSteps := Times(n.areas, n.steps);
    var sparsity := Times(n.clusters, n.areas) + n.links;
    if sparsity > 100 {
      sparsity := 100;
    }
    terms := n.constraints;
    var adder := Times(Times(n.clusters + 4, n.areas) + 2 * n.links, n.steps);
    terms := terms + adder;
    terms := terms + adder;
    adder := 3 * Times(n.links, n.steps);
    terms := terms + adder;
    adder := Times(Times(sparsity, n.couplings), n.steps) + Times(sparsity * (7 + 7), n.couplings);
    terms := terms + adder;
    terms := terms + 3 * areaSteps;
    terms := terms + 4 * areaSteps;
    terms := terms + 5 * areaSteps;
    terms := terms + 2 * areaSteps;
    terms := terms + 1;
    terms := terms + 101;
    terms := terms + n.startUpTerms;
    increment := terms / 10;
  }
}
