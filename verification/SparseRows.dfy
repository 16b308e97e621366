// Row-compressed storage of a constraint matrix, as the optimisation code keeps it:
// one array of columns and one of coefficients for all terms, and per row the index of
// its first term, its number of terms and its sense.

module SparseRows {

  datatype Term = Term(column: int, coef: real)

  // sense is '=', '<' (at most) or '>' (at least)
  datatype Row = Row(terms: seq<Term>, sense: char)

  // All the terms of the rows, one row after the other.
  ghost function Flat(rows: seq<Row>): seq<Term> {
    if rows == [] then [] else Flat(rows[..|rows| - 1]) + rows[|rows| - 1].terms
  }

  lemma {:induction false} FlatAppend(rows: seq<Row>, row: Row)
    ensures Flat(rows + [row]) == Flat(rows) + row.terms
  {
    assert (rows + [row])[..|rows|] == rows;
  }

  // The terms of row r lie in the flat array right after those of the rows before it.
  lemma {:induction false} FlatSlice(rows: seq<Row>, r: nat)
    requires r < |rows|
    ensures |Flat(rows[..r])| + |rows[r].terms| <= |Flat(rows)|
    ensures Flat(rows)[|Flat(rows[..r])|..|Flat(rows[..r])| + |rows[r].terms|] == rows[r].terms
  {
    var before := rows[..|rows| - 1];
    if r == |rows| - 1 {
    } else {
      FlatSlice(before, r);
      assert before[..r] == rows[..r];
      assert Flat(rows) == Flat(before) + rows[|rows| - 1].terms;
    }
  }

  // The value of a row's left-hand side at a point.
  ghost function Eval(terms: seq<Term>, x: int -> real): real {
    if terms == [] then 0.0
    else
      var last := terms[|terms| - 1];
      Eval(terms[..|terms| - 1], x) + last.coef * x(last.column)
  }

  lemma {:induction false} EvalAppend(terms: seq<Term>, term: Term, x: int -> real)
    ensures Eval(terms + [term], x) == Eval(terms, x) + term.coef * x(term.column)
  {
    assert (terms + [term])[..|terms|] == terms;
  }

  ghost predicate Holds(sense: char, lhs: real, rhs: real) {
    if sense == '=' then lhs == rhs else if sense == '<' then lhs <= rhs else lhs >= rhs
  }

  function Filled<T>(size: nat, value: T): (s: seq<T>)
    ensures |s| == size && forall i :: 0 <= i < size ==> s[i] == value
  {
    seq(size, _ => value)
  }

  // The arrays, with the running counters of terms and constraints.
  datatype Store = Store(columns: seq<int>, coefs: seq<real>, rowStart: seq<int>, rowLength: seq<int>,
                         sense: seq<char>, terms: nat, constraints: nat)

  // The arrays hold these finished rows, and then the terms of the row being written.
  ghost predicate Holding(s: Store, rows: seq<Row>, open: seq<Term>) {
    && s.terms <= |s.columns| == |s.coefs|
    && s.constraints == |rows| <= |s.rowStart| == |s.rowLength| == |s.sense|
    && s.terms == |Flat(rows)| + |open|
    && (forall i :: 0 <= i < s.terms ==> s.columns[i] == (Flat(rows) + open)[i].column)
    && (forall i :: 0 <= i < s.terms ==> s.coefs[i] == (Flat(rows) + open)[i].coef)
    && (forall r :: 0 <= r < s.constraints ==> s.rowStart[r] == |Flat(rows[..r])|)
    && (forall r :: 0 <= r < s.constraints ==> s.rowLength[r] == |rows[r].terms| && s.sense[r] == rows[r].sense)
  }

  ghost predicate SameSizes(s: Store, t: Store) {
    |s.columns| == |t.columns| && |s.rowStart| == |t.rowStart|
  }

  // Row r as a reader of the arrays decodes it.
  ghost function RowAt(s: Store, r: nat): Row
    requires r < |s.rowStart| == |s.rowLength| == |s.sense|
    requires 0 <= s.rowStart[r] && 0 <= s.rowLength[r]
    requires s.rowStart[r] + s.rowLength[r] <= |s.columns| == |s.coefs|
  {
    Row(Decode(s.columns, s.coefs, s.rowStart[r], s.rowLength[r]), s.sense[r])
  }

  lemma RowAtDecodes(s: Store, rows: seq<Row>, open: seq<Term>, r: nat)
    requires Holding(s, rows, open) && r < s.constraints
    ensures 0 <= s.rowStart[r] && 0 <= s.rowLength[r] && s.rowStart[r] + s.rowLength[r] <= s.terms
    ensures RowAt(s, r) == rows[r]
  {
    FlatSlice(rows, r);
    var first, length := s.rowStart[r], s.rowLength[r];
    var all := Flat(rows) + open;
    assert all[first..first + length] == rows[r].terms;
    forall i | 0 <= i < length
      ensures Decode(s.columns, s.coefs, first, length)[i] == rows[r].terms[i]
    {
      assert all[first + i] == all[first..first + length][i];
    }
  }

  method Allocate(maxTerms: nat, maxConstraints: nat) returns (s: Store)
    ensures Holding(s, [], []) && s.terms == 0 && s.constraints == 0
    ensures |s.columns| == maxTerms && |s.rowStart| == maxConstraints
  {
    s := Store(Filled(maxTerms, 0), Filled(maxTerms, 0.0), Filled(maxConstraints, 0),
               Filled(maxConstraints, 0), Filled(maxConstraints, '='), 0, 0);
  }

  method BeginRow(before: Store, ghost rows: seq<Row>) returns (s: Store)
    requires Holding(before, rows, []) && before.constraints < |before.rowStart|
    ensures Holding(s, rows, []) && SameSizes(before, s)
    ensures s.terms == before.terms && s.constraints == before.constraints
    ensures s.rowStart[s.constraints] == s.terms
  {
    s := before.(rowStart := before.rowStart[before.constraints := before.terms]);
  }

  method Push(before: Store, column: int, coef: real, ghost rows: seq<Row>, ghost open: seq<Term>)
    returns (s: Store)
    requires Holding(before, rows, open) && before.terms < |before.columns|
    ensures Holding(s, rows, open + [Term(column, coef)]) && SameSizes(before, s)
    ensures s.terms == before.terms + 1 && s.constraints == before.constraints
    ensures s.rowStart == before.rowStart
  {
    s := before.(columns := before.columns[before.terms := column],
                 coefs := before.coefs[before.terms := coef],
                 terms := before.terms + 1);
    assert Flat(rows) + (open + [Term(column, coef)]) == (Flat(rows) + open) + [Term(column, coef)];
  }

  method EndRow(before: Store, length: nat, rowSense: char, ghost rows: seq<Row>, ghost open: seq<Term>)
    returns (s: Store)
    requires Holding(before, rows, open) && before.constraints < |before.rowStart|
    requires length == |open| && before.rowStart[before.constraints] == before.terms - length
    ensures Holding(s, rows + [Row(open, rowSense)], []) && SameSizes(before, s)
    ensures s.terms == before.terms && s.constraints == before.constraints + 1
  {
    s := before.(rowLength := before.rowLength[before.constraints := length],
                 sense := before.sense[before.constraints := rowSense],
                 constraints := before.constraints + 1);
    ghost var after := rows + [Row(open, rowSense)];
    FlatAppend(rows, Row(open, rowSense));
    assert Flat(after) + [] == Flat(after);
    forall r | 0 <= r < s.constraints
      ensures s.rowStart[r] == |Flat(after[..r])|
    {
      assert after[..r] == rows[..r];
      assert rows[..|rows|] == rows;
    }
  }

  // What a reader finds between two positions of the term arrays.
  ghost function Decode(columns: seq<int>, coefs: seq<real>, first: nat, length: nat): (terms: seq<Term>)
    requires first + length <= |columns| == |coefs|
    ensures |terms| == length
    ensures forall i :: 0 <= i < length ==> terms[i] == Term(columns[first + i], coefs[first + i])
  {
    seq(length, i requires 0 <= i < length => Term(columns[first + i], coefs[first + i]))
  }
}
