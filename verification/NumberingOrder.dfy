// The numbers follow the order of the places of the study.

module NumberingOrder {
  import opened VariableNumbering
  import opened NumberingBijection
  import opened NumberingCount

  // ----- The order is one ------------------------------------------------------------------------

  lemma ClusterPositions(s: Study, c: int, b: nat, j: nat, d: int, a: nat, i: nat)
    requires DistinctNumbers(s) && ClusterIs(s, b, j, c) && ClusterIs(s, a, i, d)
    requires ClusterAmong(s, a, c) || ClusterIn(s, a, i, c)
    ensures b < a || (b == a && j < i)
  {
    assert c in s.areas[b].clusters;
    if b == a {
      assert NoDuplicates(s.areas[a].clusters);
    }
  }

  lemma ClusterOrderIsStrict(s: Study, c: int, d: int)
    requires DistinctNumbers(s) && ClusterBefore(s, c, d)
    ensures !ClusterBefore(s, d, c)
  {
    if ClusterBefore(s, d, c) {
      var a: nat, i: nat :| ClusterIs(s, a, i, d) && (ClusterAmong(s, a, c) || ClusterIn(s, a, i, c));
      var b: nat, j: nat :| ClusterIs(s, b, j, c) && (ClusterAmong(s, b, d) || ClusterIn(s, b, j, d));
      ClusterPositions(s, c, b, j, d, a, i);
      ClusterPositions(s, d, a, i, c, b, j);
      assert false;
    }
  }

  lemma StoragePositions(s: Study, c: int, b: nat, j: nat, d: int, a: nat, i: nat)
    requires DistinctNumbers(s) && StorageIs(s, b, j, c) && StorageIs(s, a, i, d)
    requires StorageAmong(s, a, c) || StorageIn(s, a, i, c)
    ensures b < a || (b == a && j < i)
  {
    assert c in s.areas[b].storages;
    if b == a {
      assert NoDuplicates(s.areas[a].storages);
    }
  }

  lemma StorageOrderIsStrict(s: Study, c: int, d: int)
    requires DistinctNumbers(s) && StorageBefore(s, c, d)
    ensures !StorageBefore(s, d, c)
  {
    if StorageBefore(s, d, c) {
      var a: nat, i: nat :| StorageIs(s, a, i, d) && (StorageAmong(s, a, c) || StorageIn(s, a, i, c));
      var b: nat, j: nat :| StorageIs(s, b, j, c) && (StorageAmong(s, b, d) || StorageIn(s, b, j, d));
      StoragePositions(s, c, b, j, d, a, i);
      StoragePositions(s, d, a, i, c, b, j);
      assert false;
    }
  }

  lemma OneArea(s: Study, k: Key, a: nat, b: nat)
    requires DistinctNumbers(s) && Group(k) == 1
    requires SupplyOf(s, k, a) && (SupplyOf(s, k, b) || SupplyAmong(s, k, k.step, b))
    ensures SupplyOf(s, k, b) ==> a == b
    ensures SupplyAmong(s, k, k.step, b) ==> a < b
  {
  }

  lemma AreaOrderIsStrict(s: Study, j: Key, k: Key)
    requires DistinctNumbers(s) && Group(j) == 1 && Group(k) == 1 && EarlierOfArea(s, j, k)
    ensures !EarlierOfArea(s, k, j)
  {
    if j.Thermal? && k.Thermal? {
      ClusterOrderIsStrict(s, j.cluster, k.cluster);
    } else if Part(j) == 1 && Part(k) == 1 {
      if StorageBefore(s, j.storage, k.storage) {
        StorageOrderIsStrict(s, j.storage, k.storage);
      }
    }
  }

  lemma SupplyOrderIsStrict(s: Study, j: Key, k: Key)
    requires DistinctNumbers(s) && Group(j) == 1 && Group(k) == 1 && EarlierSupply(s, j, k)
    ensures !EarlierSupply(s, k, j)
  {
    if EarlierSupply(s, k, j) {
      var a: nat :| SupplyOf(s, k, a)
        && (SupplyAmong(s, j, j.step, a) || (SupplyOf(s, j, a) && EarlierOfArea(s, j, k)));
      var b: nat :| SupplyOf(s, j, b)
        && (SupplyAmong(s, k, k.step, b) || (SupplyOf(s, k, b) && EarlierOfArea(s, k, j)));
      OneArea(s, k, a, b);
      OneArea(s, j, b, a);
      if EarlierOfArea(s, j, k) {
        AreaOrderIsStrict(s, j, k);
      }
      assert false;
    }
  }

  lemma StartUpOrderIsStrict(s: Study, j: Key, k: Key)
    requires DistinctNumbers(s) && Group(j) == 4 && Group(k) == 4 && Earlier(s, j, k)
    ensures !Earlier(s, k, j)
  {
    if ClusterBefore(s, j.cluster, k.cluster) {
      ClusterOrderIsStrict(s, j.cluster, k.cluster);
    }
  }

  lemma PlainOrderIsStrict(s: Study, j: Key, k: Key)
    requires Group(j) == Group(k) && Group(j) != 1 && Group(j) != 4 && Earlier(s, j, k)
    ensures !Earlier(s, k, j)
  {
  }

  lemma OrderIsStrict(s: Study, j: Key, k: Key)
    requires DistinctNumbers(s) && Earlier(s, j, k)
    ensures !Earlier(s, k, j)
  {
    if Group(j) == Group(k) {
      if Group(j) == 1 {
        if j.step == k.step {
          SupplyOrderIsStrict(s, j, k);
        }
      } else if Group(j) == 4 {
        StartUpOrderIsStrict(s, j, k);
      } else {
        PlainOrderIsStrict(s, j, k);
      }
    }
  }

  // ----- The numbers follow it -------------------------------------------------------------------

  lemma {:induction false} LowerNumberIsEarlier(s: Study, b: Log, j: Key, k: Key)
    requires Clean(b) && Ordered(s, b) && Assigned(b, j) && Assigned(b, k)
    requires j in TableOf(b) && k in TableOf(b) && TableOf(b)[j] < TableOf(b)[k]
    ensures Earlier(s, j, k)
  {
    match b {
      case Then(before, last) =>
        CleanIsBijection(before);
        if last != Assign(j) && last != Assign(k) {
          LowerNumberIsEarlier(s, before, j, k);
        }
    }
  }

  // Of two variables of the study, the one that comes earlier has the lower number.
  lemma NumbersFollowTheOrder(s: Study, j: Key, k: Key)
    requires DistinctNumbers(s) && Present(s, j) && Present(s, k)
    ensures j in TableOf(Requests(s)) && k in TableOf(Requests(s))
    ensures TableOf(Requests(s))[j] < TableOf(Requests(s))[k] <==> Earlier(s, j, k)
  {
    var b := Requests(s);
    RequestsAreTidy(s);
    CleanIsBijection(b);
    NumberedExactlyWhenPresent(s, j);
    NumberedExactlyWhenPresent(s, k);
    if TableOf(b)[j] < TableOf(b)[k] {
      LowerNumberIsEarlier(s, b, j, k);
    } else if Earlier(s, j, k) {
      OrderIsStrict(s, j, k);
      if j != k {
        LowerNumberIsEarlier(s, b, k, j);
      }
      assert false;
    }
  }

  ghost predicate FollowsTheOrder(s: Study, table: map<Key, int>) {
    forall j, k :: HasNumber(table, j) && HasNumber(table, k) ==> (table[j] < table[k] <==> Earlier(s, j, k))
  }

  // The whole pass over a study, from an empty table.
  method NumberStudy(s: Study) returns (table: map<Key, int>, variables: nat)
    requires DistinctNumbers(s)
    ensures NumbersOneToOne(s, table, variables) && variables == NumberOfVariables(s)
    ensures FollowsTheOrder(s, table)
  {
    var numbering := new Numbering();
    numbering.Number(s);
    table, variables := numbering.table, numbering.variables;
    TableIsOneToOne(s);
    NumberedCount(s);
    forall j, k | HasNumber(table, j) && HasNumber(table, k)
      ensures table[j] < table[k] <==> Earlier(s, j, k)
    {
      NumbersFollowTheOrder(s, j, k);
    }
  }
}
