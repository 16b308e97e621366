// The numbering pass gives places and numbers below the final count one to one, and gives them in
// order.

module NumberingBijection {
  import opened VariableNumbering

  // ----- The numbers are a bijection -------------------------------------------------------------

  ghost predicate Assigned(b: Log, key: Key) {
    match b
    case Nothing => false
    case Then(before, last) => last == Assign(key) || Assigned(before, key)
  }

  // No place is given a number twice, or denied one after it was given.
  ghost predicate Clean(b: Log) {
    match b
    case Nothing => true
    case Then(before, last) => Clean(before) && !Assigned(before, last.key)
  }

  // Some place has this number.
  ghost predicate Used(b: Log, n: int) {
    exists k :: Assigned(b, k) && k in TableOf(b) && TableOf(b)[k] == n
  }

  // The table numbers exactly the assigned places, with exactly the numbers below the count.
  ghost predicate Bijection(b: Log) {
    && (forall k :: Assigned(b, k) ==> k in TableOf(b) && 0 <= TableOf(b)[k] < CountOf(b))
    && (forall k :: k in TableOf(b) && !Assigned(b, k) ==> TableOf(b)[k] == -1)
    && (forall k, k' :: Assigned(b, k) && Assigned(b, k') && k != k' ==> TableOf(b)[k] != TableOf(b)[k'])
    && (forall n :: 0 <= n < CountOf(b) ==> Used(b, n))
  }

  lemma {:induction false} CleanIsBijection(b: Log)
    requires Clean(b)
    ensures Bijection(b)
  {
    match b {
      case Nothing =>
      case Then(before, last) =>
        CleanIsBijection(before);
        forall n | 0 <= n < CountOf(b)
          ensures Used(b, n)
        {
          if n < CountOf(before) {
            assert Used(before, n);
            var k :| Assigned(before, k) && k in TableOf(before) && TableOf(before)[k] == n;
            assert Assigned(b, k) && TableOf(b)[k] == n;
          } else {
            assert Assigned(b, last.key) && TableOf(b)[last.key] == n;
          }
        }
    }
  }

  // ----- No place is numbered twice -----------------------------------------------------------------

  // 0 for the places of links, 1 of supply, 2 of hydro, at one step; 3 for stocks; 4 for start-ups.
  function Group(k: Key): int {
    match k
    case Flow(_, _) => 0 case DirectCost(_, _) => 0 case IndirectCost(_, _) => 0
    case Thermal(_, _) => 1 case Injection(_, _) => 1 case Withdrawal(_, _) => 1 case Level(_, _) => 1
    case Unsupplied(_, _) => 1 case Spilled(_, _) => 1
    case HydProd(_, _) => 2 case HydDown(_, _) => 2 case HydUp(_, _) => 2
    case Pumping(_, _) => 2 case HydroLevel(_, _) => 2 case Overflow(_, _) => 2
    case FinalStock(_) => 3 case Layer(_, _) => 3
    case UnitsOn(_, _) => 4 case UnitsStarting(_, _) => 4 case UnitsStopping(_, _) => 4 case UnitsFailing(_, _) => 4
  }

  // How far the pass has come.
  datatype Stage =
    | Steps(step: int, group: int)
    | Links(step: int, links: int)
    | Supplies(step: int, areas: nat)
    | Clusters(step: int, area: nat, count: nat)
    | Storages(step: int, area: nat, count: nat)
    | Hydros(step: int, areas: nat)
    | Stocks(areas: nat)
    | Layers(area: nat, layers: int)
    | StartUps(areas: nat)
    | StartUpClusters(area: nat, count: nat)
    | StartUpSteps(area: nat, count: nat, step: int)

  ghost predicate ClusterAmong(s: Study, areas: nat, cluster: int) {
    exists a :: 0 <= a < areas && a < |s.areas| && cluster in s.areas[a].clusters
  }

  ghost predicate StorageAmong(s: Study, areas: nat, storage: int) {
    exists a :: 0 <= a < areas && a < |s.areas| && storage in s.areas[a].storages
  }

  ghost predicate ClusterIn(s: Study, area: nat, count: nat, cluster: int) {
    area < |s.areas| && count <= |s.areas[area].clusters| && cluster in s.areas[area].clusters[..count]
  }

  ghost predicate StorageIn(s: Study, area: nat, count: nat, storage: int) {
    area < |s.areas| && count <= |s.areas[area].storages| && storage in s.areas[area].storages[..count]
  }

  ghost predicate EarlierStep(k: Key, step: int, group: int) {
    Group(k) <= 2 && (k.step < step || (k.step == step && Group(k) < group))
  }

  ghost predicate SupplyAmong(s: Study, k: Key, step: int, areas: nat) {
    && Group(k) == 1 && k.step == step
    && match k
       case Thermal(_, c) => ClusterAmong(s, areas, c)
       case Unsupplied(_, a) => a < areas
       case Spilled(_, a) => a < areas
       case _ => StorageAmong(s, areas, k.storage)
  }

  // The places that may have a number at this stage.
  ghost predicate Reached(s: Study, stage: Stage, k: Key) {
    match stage
    case Steps(t, group) => EarlierStep(k, t, group)
    case Links(t, links) => EarlierStep(k, t, 0) || (Group(k) == 0 && k.step == t && k.link < links)
    case Supplies(t, areas) => EarlierStep(k, t, 1) || SupplyAmong(s, k, t, areas)
    case Clusters(t, a, count) =>
      || EarlierStep(k, t, 1) || SupplyAmong(s, k, t, a)
      || (k.Thermal? && k.step == t && ClusterIn(s, a, count, k.cluster))
    case Storages(t, a, count) =>
      || EarlierStep(k, t, 1) || SupplyAmong(s, k, t, a)
      || (k.Thermal? && k.step == t && a < |s.areas| && k.cluster in s.areas[a].clusters)
      || ((k.Injection? || k.Withdrawal? || k.Level?) && k.step == t && StorageIn(s, a, count, k.storage))
    case Hydros(t, areas) => EarlierStep(k, t, 2) || (Group(k) == 2 && k.step == t && k.area < areas)
    case Stocks(areas) => Group(k) <= 2 || (Group(k) == 3 && k.area < areas)
    case Layers(a, layers) =>
      || Group(k) <= 2 || (Group(k) == 3 && k.area < a)
      || k == FinalStock(a) || (k.Layer? && k.area == a && k.layer < layers)
    case StartUps(areas) => Group(k) <= 3 || ClusterAmong(s, areas, k.cluster)
    case StartUpClusters(a, count) =>
      Group(k) <= 3 || ClusterAmong(s, a, k.cluster) || ClusterIn(s, a, count, k.cluster)
    case StartUpSteps(a, count, t) =>
      || Group(k) <= 3 || ClusterAmong(s, a, k.cluster) || ClusterIn(s, a, count, k.cluster)
      || (a < |s.areas| && count < |s.areas[a].clusters| && k.cluster == s.areas[a].clusters[count] && k.step < t)
  }

  // ----- The order of the places ---------------------------------------------------------------------

  // Among the places of one link, storage, area, stock or cluster and step.
  function Slot(k: Key): int {
    match k
    case DirectCost(_, _) => 1 case IndirectCost(_, _) => 2
    case Withdrawal(_, _) => 1 case Level(_, _) => 2
    case HydDown(_, _) => 1 case HydUp(_, _) => 2 case Pumping(_, _) => 3
    case HydroLevel(_, _) => 4 case Overflow(_, _) => 5
    case Layer(_, layer) => layer + 1
    case UnitsStarting(_, _) => 1 case UnitsStopping(_, _) => 2 case UnitsFailing(_, _) => 3
    case _ => 0
  }

  // The cluster or storage is one of an earlier area, or an earlier one of the same area.
  ghost predicate ClusterBefore(s: Study, c: int, d: int) {
    exists a: nat, i: nat :: ClusterIs(s, a, i, d) && (ClusterAmong(s, a, c) || ClusterIn(s, a, i, c))
  }

  ghost predicate StorageBefore(s: Study, c: int, d: int) {
    exists a: nat, i: nat :: StorageIs(s, a, i, d) && (StorageAmong(s, a, c) || StorageIn(s, a, i, c))
  }

  ghost predicate ClusterIs(s: Study, a: nat, i: nat, c: int) {
    a < |s.areas| && i < |s.areas[a].clusters| && s.areas[a].clusters[i] == c
  }

  ghost predicate StorageIs(s: Study, a: nat, i: nat, c: int) {
    a < |s.areas| && i < |s.areas[a].storages| && s.areas[a].storages[i] == c
  }

  // The supply of one area: its clusters, its storages, and what is unsupplied and spilled.
  function Part(k: Key): int {
    match k
    case Thermal(_, _) => 0
    case Unsupplied(_, _) => 2
    case Spilled(_, _) => 3
    case _ => 1
  }

  ghost predicate SupplyOf(s: Study, k: Key, a: nat) {
    a < |s.areas|
    && match k
       case Thermal(_, c) => c in s.areas[a].clusters
       case Injection(_, c) => c in s.areas[a].storages
       case Withdrawal(_, c) => c in s.areas[a].storages
       case Level(_, c) => c in s.areas[a].storages
       case Unsupplied(_, b) => a == b
       case Spilled(_, b) => a == b
       case _ => false
  }

  ghost predicate EarlierOfArea(s: Study, j: Key, k: Key)
    requires Group(j) == 1 && Group(k) == 1
  {
    || Part(j) < Part(k)
    || (j.Thermal? && k.Thermal? && ClusterBefore(s, j.cluster, k.cluster))
    || (Part(j) == 1 && Part(k) == 1
        && (StorageBefore(s, j.storage, k.storage) || (j.storage == k.storage && Slot(j) < Slot(k))))
  }

  ghost predicate EarlierSupply(s: Study, j: Key, k: Key)
    requires Group(j) == 1 && Group(k) == 1
  {
    exists a: nat :: SupplyOf(s, k, a)
      && (SupplyAmong(s, j, j.step, a) || (SupplyOf(s, j, a) && EarlierOfArea(s, j, k)))
  }

  // Step by step come links, then supply area by area, then hydro area by area; after all steps
  // the stocks area by area, and at last the start-ups cluster by cluster.
  ghost predicate Earlier(s: Study, j: Key, k: Key) {
    if Group(j) <= 2 && Group(k) <= 2 then
      || j.step < k.step
      || (j.step == k.step && Group(j) < Group(k))
      || (j.step == k.step && Group(j) == Group(k)
          && match Group(k)
             case 0 => j.link < k.link || (j.link == k.link && Slot(j) < Slot(k))
             case 1 => EarlierSupply(s, j, k)
             case _ => j.area < k.area || (j.area == k.area && Slot(j) < Slot(k)))
    else if Group(j) != Group(k) then Group(j) < Group(k)
    else if Group(k) == 3 then j.area < k.area || (j.area == k.area && Slot(j) < Slot(k))
    else
      || ClusterBefore(s, j.cluster, k.cluster)
      || (j.cluster == k.cluster && (j.step < k.step || (j.step == k.step && Slot(j) < Slot(k))))
  }

  // Every place comes after all those that were given a number before it.
  ghost predicate Ordered(s: Study, b: Log) {
    match b
    case Nothing => true
    case Then(before, last) =>
      Ordered(s, before) && (last.Assign? ==> forall j :: Assigned(before, j) ==> Earlier(s, j, last.key))
  }

  // Clean and ordered, and only places reached at this stage, and a few more, have a number.
  ghost predicate Tidy(s: Study, b: Log, stage: Stage, more: set<Key>) {
    Clean(b) && Ordered(s, b) && forall k :: Assigned(b, k) ==> ReachedOr(s, stage, more, k)
  }

  ghost predicate Next(s: Study, stage: Stage, more: set<Key>, key: Key) {
    !Reached(s, stage, key) && key !in more && forall j :: ReachedOr(s, stage, more, j) ==> Earlier(s, j, key)
  }

  ghost predicate ReachedOr(s: Study, stage: Stage, more: set<Key>, k: Key) {
    Reached(s, stage, k) || k in more
  }

  lemma GivenTidy(s: Study, b: Log, key: Key, stage: Stage, more: set<Key>)
    requires Tidy(s, b, stage, more) && Next(s, stage, more, key)
    ensures Tidy(s, Given(b, key), stage, more + {key})
  {
  }

  lemma DeniedTidy(s: Study, b: Log, key: Key, stage: Stage, more: set<Key>)
    requires Tidy(s, b, stage, more) && !Reached(s, stage, key) && key !in more
    ensures Tidy(s, Denied(b, key), stage, more)
  {
  }

  lemma Weaken(s: Study, b: Log, stage: Stage, more: set<Key>, later: Stage)
    requires Tidy(s, b, stage, more)
    requires forall k :: ReachedOr(s, stage, more, k) ==> Reached(s, later, k)
    ensures Tidy(s, b, later, {})
  {
  }

  lemma GivenIfTidy(s: Study, b: Log, present: bool, key: Key, stage: Stage, more: set<Key>)
    requires Tidy(s, b, stage, more) && Next(s, stage, more, key)
    ensures Tidy(s, GivenIf(b, present, key), stage, more + {key})
  {
    if present {
      GivenTidy(s, b, key, stage, more);
    } else {
      DeniedTidy(s, b, key, stage, more);
    }
  }

  lemma {:induction false} LinksTidy(s: Study, b: Log, t: int, links: nat)
    requires links <= |s.hurdles| && Tidy(s, b, Steps(t, 0), {})
    ensures Tidy(s, AfterLinks(b, s, t, links), Links(t, links), {})
  {
    if links == 0 {
      Weaken(s, b, Steps(t, 0), {}, Links(t, 0));
    } else {
      LinksTidy(s, b, t, links - 1);
      OneLinkTidy(s, AfterLinks(b, s, t, links - 1), t, links - 1, s.hurdles[links - 1]);
    }
  }

  lemma OneLinkTidy(s: Study, b: Log, t: int, link: int, hurdle: bool)
    requires Tidy(s, b, Links(t, link), {})
    ensures Tidy(s, AfterLink(b, t, link, hurdle), Links(t, link + 1), {})
  {
    var stage := Links(t, link);
    var flow, direct, indirect := Flow(t, link), DirectCost(t, link), IndirectCost(t, link);
    GivenTidy(s, b, flow, stage, {});
    if hurdle {
      GivenTidy(s, Given(b, flow), direct, stage, {flow});
      GivenTidy(s, Given(Given(b, flow), direct), indirect, stage, {flow, direct});
      Weaken(s, AfterLink(b, t, link, hurdle), stage, {flow, direct, indirect}, Links(t, link + 1));
    } else {
      Weaken(s, Given(b, flow), stage, {flow}, Links(t, link + 1));
    }
  }

  // ----- Supply ------------------------------------------------------------------------------------

  ghost predicate NoDuplicates(ids: seq<nat>) {
    forall i, j :: 0 <= i < j < |ids| ==> ids[i] != ids[j]
  }

  // Clusters and storages are numbered over the whole study without repetition.
  ghost predicate DistinctNumbers(s: Study) {
    && (forall a :: 0 <= a < |s.areas| ==> NoDuplicates(s.areas[a].clusters) && NoDuplicates(s.areas[a].storages))
    && (forall a, b, c :: 0 <= a < b < |s.areas| && c in s.areas[a].clusters ==> c !in s.areas[b].clusters)
    && (forall a, b, c :: 0 <= a < b < |s.areas| && c in s.areas[a].storages ==> c !in s.areas[b].storages)
  }

  lemma NewCluster(s: Study, a: nat, i: nat)
    requires DistinctNumbers(s) && a < |s.areas| && i < |s.areas[a].clusters|
    ensures !ClusterAmong(s, a, s.areas[a].clusters[i]) && !ClusterIn(s, a, i, s.areas[a].clusters[i])
  {
    var c := s.areas[a].clusters[i];
    assert c in s.areas[a].clusters;
    assert NoDuplicates(s.areas[a].clusters);
  }

  lemma NewStorage(s: Study, a: nat, i: nat)
    requires DistinctNumbers(s) && a < |s.areas| && i < |s.areas[a].storages|
    ensures !StorageAmong(s, a, s.areas[a].storages[i]) && !StorageIn(s, a, i, s.areas[a].storages[i])
  {
    var c := s.areas[a].storages[i];
    assert c in s.areas[a].storages;
    assert NoDuplicates(s.areas[a].storages);
  }

  lemma ClusterInNext(s: Study, a: nat, i: nat, c: int)
    requires a < |s.areas| && i < |s.areas[a].clusters|
    ensures ClusterIn(s, a, i + 1, c) <==> ClusterIn(s, a, i, c) || c == s.areas[a].clusters[i]
  {
    var ids := s.areas[a].clusters;
    assert ids[..i + 1] == ids[..i] + [ids[i]];
  }

  lemma StorageInNext(s: Study, a: nat, i: nat, c: int)
    requires a < |s.areas| && i < |s.areas[a].storages|
    ensures StorageIn(s, a, i + 1, c) <==> StorageIn(s, a, i, c) || c == s.areas[a].storages[i]
  {
    var ids := s.areas[a].storages;
    assert ids[..i + 1] == ids[..i] + [ids[i]];
  }

  lemma NextCluster(s: Study, t: int, a: nat, i: nat)
    requires DistinctNumbers(s) && a < |s.areas| && i < |s.areas[a].clusters|
    ensures Next(s, Clusters(t, a, i), {}, Thermal(t, s.areas[a].clusters[i]))
  {
    var key := Thermal(t, s.areas[a].clusters[i]);
    NewCluster(s, a, i);
    assert ClusterIs(s, a, i, key.cluster) && SupplyOf(s, key, a);
  }

  lemma NextStorage(s: Study, t: int, a: nat, i: nat, more: set<Key>, key: Key)
    requires DistinctNumbers(s) && a < |s.areas| && i < |s.areas[a].storages|
    requires (key.Injection? || key.Withdrawal? || key.Level?) && key.step == t && key.storage == s.areas[a].storages[i]
    requires forall j :: j in more ==>
               && (j.Injection? || j.Withdrawal? || j.Level?)
               && j.step == t && j.storage == key.storage && Slot(j) < Slot(key)
    ensures Next(s, Storages(t, a, i), more, key)
  {
    NewStorage(s, a, i);
    assert StorageIs(s, a, i, key.storage) && SupplyOf(s, key, a);
  }

  lemma NextOfArea(s: Study, t: int, a: nat, more: set<Key>, key: Key)
    requires a < |s.areas| && key in {Unsupplied(t, a), Spilled(t, a)}
    requires more == if key.Spilled? then {Unsupplied(t, a)} else {}
    ensures Next(s, Storages(t, a, |s.areas[a].storages|), more, key)
  {
    var storages := s.areas[a].storages;
    assert storages[..|storages|] == storages;
    assert SupplyOf(s, key, a);
  }

  lemma {:induction false} ClustersTidy(s: Study, b: Log, t: int, a: nat, count: nat)
    requires DistinctNumbers(s) && a < |s.areas| && count <= |s.areas[a].clusters|
    requires Tidy(s, b, Supplies(t, a), {})
    ensures Tidy(s, AfterClusters(b, t, s.areas[a].clusters, count), Clusters(t, a, count), {})
  {
    if count == 0 {
      Weaken(s, b, Supplies(t, a), {}, Clusters(t, a, 0));
    } else {
      var i := count - 1;
      var key := Thermal(t, s.areas[a].clusters[i]);
      var before := AfterClusters(b, t, s.areas[a].clusters, i);
      ClustersTidy(s, b, t, a, i);
      NextCluster(s, t, a, i);
      GivenTidy(s, before, key, Clusters(t, a, i), {});
      forall k | ReachedOr(s, Clusters(t, a, i), {key}, k)
        ensures Reached(s, Clusters(t, a, count), k)
      {
        if k.Thermal? {
          ClusterInNext(s, a, i, k.cluster);
        }
      }
      Weaken(s, Given(before, key), Clusters(t, a, i), {key}, Clusters(t, a, count));
    }
  }

  lemma OneStorageTidy(s: Study, b: Log, t: int, a: nat, i: nat)
    requires DistinctNumbers(s) && a < |s.areas| && i < |s.areas[a].storages|
    requires Tidy(s, b, Storages(t, a, i), {})
    ensures Tidy(s, AfterStorage(b, t, s.areas[a].storages[i]), Storages(t, a, i + 1), {})
  {
    var id := s.areas[a].storages[i];
    var stage := Storages(t, a, i);
    var injection, withdrawal, level := Injection(t, id), Withdrawal(t, id), Level(t, id);
    NextStorage(s, t, a, i, {}, injection);
    GivenTidy(s, b, injection, stage, {});
    NextStorage(s, t, a, i, {injection}, withdrawal);
    GivenTidy(s, Given(b, injection), withdrawal, stage, {injection});
    NextStorage(s, t, a, i, {injection, withdrawal}, level);
    GivenTidy(s, Given(Given(b, injection), withdrawal), level, stage, {injection, withdrawal});
    forall k | ReachedOr(s, stage, {injection, withdrawal, level}, k)
      ensures Reached(s, Storages(t, a, i + 1), k)
    {
      if k.Injection? || k.Withdrawal? || k.Level? {
        StorageInNext(s, a, i, k.storage);
      }
    }
    Weaken(s, AfterStorage(b, t, id), stage, {injection, withdrawal, level}, Storages(t, a, i + 1));
  }

  lemma {:induction false} StoragesTidy(s: Study, b: Log, t: int, a: nat, count: nat)
    requires DistinctNumbers(s) && a < |s.areas| && count <= |s.areas[a].storages|
    requires Tidy(s, b, Clusters(t, a, |s.areas[a].clusters|), {})
    ensures Tidy(s, AfterStorages(b, t, s.areas[a].storages, count), Storages(t, a, count), {})
  {
    if count == 0 {
      Weaken(s, b, Clusters(t, a, |s.areas[a].clusters|), {}, Storages(t, a, 0));
    } else {
      StoragesTidy(s, b, t, a, count - 1);
      OneStorageTidy(s, AfterStorages(b, t, s.areas[a].storages, count - 1), t, a, count - 1);
    }
  }

  lemma AmongNext(s: Study, a: nat, id: int)
    requires a < |s.areas|
    ensures ClusterAmong(s, a + 1, id) <==> ClusterAmong(s, a, id) || id in s.areas[a].clusters
    ensures StorageAmong(s, a + 1, id) <==> StorageAmong(s, a, id) || id in s.areas[a].storages
  {
  }

  lemma SupplyTidy(s: Study, b: Log, t: int, a: nat)
    requires DistinctNumbers(s) && a < |s.areas| && Tidy(s, b, Supplies(t, a), {})
    ensures Tidy(s, AfterSupply(b, t, a, s.areas[a]), Supplies(t, a + 1), {})
  {
    var area := s.areas[a];
    var clusters := AfterClusters(b, t, area.clusters, |area.clusters|);
    var storages := AfterStorages(clusters, t, area.storages, |area.storages|);
    var unsupplied, spilled := Unsupplied(t, a), Spilled(t, a);
    var stage := Storages(t, a, |area.storages|);
    ClustersTidy(s, b, t, a, |area.clusters|);
    StoragesTidy(s, clusters, t, a, |area.storages|);
    NextOfArea(s, t, a, {}, unsupplied);
    GivenTidy(s, storages, unsupplied, stage, {});
    NextOfArea(s, t, a, {unsupplied}, spilled);
    GivenTidy(s, Given(storages, unsupplied), spilled, stage, {unsupplied});
    SupplyReached(s, t, a);
    Weaken(s, AfterSupply(b, t, a, area), stage, {unsupplied, spilled}, Supplies(t, a + 1));
  }

  lemma SupplyReachedAt(s: Study, t: int, a: nat, k: Key)
    requires a < |s.areas|
    requires ReachedOr(s, Storages(t, a, |s.areas[a].storages|), {Unsupplied(t, a), Spilled(t, a)}, k)
    ensures Reached(s, Supplies(t, a + 1), k)
  {
    var storages := s.areas[a].storages;
    assert storages[..|storages|] == storages;
    if k !in {Unsupplied(t, a), Spilled(t, a)} && !EarlierStep(k, t, 1) {
      match k {
        case Thermal(_, id) => AmongNext(s, a, id);
        case Injection(_, id) => AmongNext(s, a, id);
        case Withdrawal(_, id) => AmongNext(s, a, id);
        case Level(_, id) => AmongNext(s, a, id);
        case Unsupplied(_, _) =>
        case Spilled(_, _) =>
      }
    }
  }

  lemma SupplyReached(s: Study, t: int, a: nat)
    requires a < |s.areas|
    ensures forall k :: ReachedOr(s, Storages(t, a, |s.areas[a].storages|), {Unsupplied(t, a), Spilled(t, a)}, k)
                        ==> Reached(s, Supplies(t, a + 1), k)
  {
    forall k | ReachedOr(s, Storages(t, a, |s.areas[a].storages|), {Unsupplied(t, a), Spilled(t, a)}, k)
      ensures Reached(s, Supplies(t, a + 1), k)
    {
      SupplyReachedAt(s, t, a, k);
    }
  }

  lemma {:induction false} SuppliesTidy(s: Study, b: Log, t: int, areas: nat)
    requires DistinctNumbers(s) && areas <= |s.areas| && Tidy(s, b, Links(t, |s.hurdles|), {})
    ensures Tidy(s, AfterSupplies(b, s, t, areas), Supplies(t, areas), {})
  {
    if areas == 0 {
      Weaken(s, b, Links(t, |s.hurdles|), {}, Supplies(t, 0));
    } else {
      SuppliesTidy(s, b, t, areas - 1);
      SupplyTidy(s, AfterSupplies(b, s, t, areas - 1), t, areas - 1);
    }
  }

  // ----- Hydro ---------------------------------------------------------------------------------------

  lemma NextHydro(s: Study, t: int, a: nat, more: set<Key>, key: Key)
    requires Group(key) == 2 && key.step == t && key.area == a
    requires forall j :: j in more ==> Group(j) == 2 && j.step == t && j.area == a && Slot(j) < Slot(key)
    ensures Next(s, Hydros(t, a), more, key)
  {
  }

  lemma VariationsTidy(s: Study, b: Log, t: int, a: nat, area: Area)
    requires Tidy(s, b, Hydros(t, a), {})
    ensures Tidy(s, AfterVariations(b, s.smoothing, t, a, area), Hydros(t, a),
                 {HydProd(t, a)} + {HydDown(t, a)} + {HydUp(t, a)})
  {
    var stage := Hydros(t, a);
    var prod, down, up := HydProd(t, a), HydDown(t, a), HydUp(t, a);
    var b1 := GivenIf(b, area.hydro, prod);
    var b2 := Denied(b1, down);
    var b3 := Denied(b2, up);
    GivenIfTidy(s, b, area.hydro, prod, stage, {});
    DeniedTidy(s, b1, down, stage, {prod});
    DeniedTidy(s, b2, up, stage, {prod});
    if Varies(s.smoothing, t, area) {
      GivenTidy(s, b3, down, stage, {prod});
      GivenTidy(s, Given(b3, down), up, stage, {prod} + {down});
    }
  }

  lemma HydroReached(s: Study, t: int, a: nat, more: set<Key>)
    requires forall j :: j in more ==> Group(j) == 2 && j.step == t && j.area == a
    ensures forall k :: ReachedOr(s, Hydros(t, a), more, k) ==> Reached(s, Hydros(t, a + 1), k)
  {
  }

  lemma HydroTidy(s: Study, b: Log, t: int, a: nat, area: Area)
    requires Tidy(s, b, Hydros(t, a), {})
    ensures Tidy(s, AfterHydro(b, s.smoothing, t, a, area), Hydros(t, a + 1), {})
  {
    var stage := Hydros(t, a);
    var pumping, level, overflow := Pumping(t, a), HydroLevel(t, a), Overflow(t, a);
    var more := {HydProd(t, a)} + {HydDown(t, a)} + {HydUp(t, a)};
    var b1 := AfterVariations(b, s.smoothing, t, a, area);
    var b2 := GivenIf(b1, area.pumping, pumping);
    var b3 := GivenIf(b2, area.levels, level);
    VariationsTidy(s, b, t, a, area);
    NextHydro(s, t, a, more, pumping);
    GivenIfTidy(s, b1, area.pumping, pumping, stage, more);
    NextHydro(s, t, a, more + {pumping}, level);
    GivenIfTidy(s, b2, area.levels, level, stage, more + {pumping});
    NextHydro(s, t, a, more + {pumping} + {level}, overflow);
    GivenIfTidy(s, b3, area.levels, overflow, stage, more + {pumping} + {level});
    HydroReached(s, t, a, more + {pumping} + {level} + {overflow});
    Weaken(s, AfterHydro(b, s.smoothing, t, a, area), stage, more + {pumping} + {level} + {overflow}, Hydros(t, a + 1));
  }

  lemma SuppliesDone(s: Study, b: Log, t: int)
    requires Tidy(s, b, Supplies(t, |s.areas|), {})
    ensures Tidy(s, b, Hydros(t, 0), {})
  {
    Weaken(s, b, Supplies(t, |s.areas|), {}, Hydros(t, 0));
  }

  lemma HydrosDone(s: Study, b: Log, t: int)
    requires Tidy(s, b, Hydros(t, |s.areas|), {})
    ensures Tidy(s, b, Steps(t + 1, 0), {})
  {
    Weaken(s, b, Hydros(t, |s.areas|), {}, Steps(t + 1, 0));
  }

  lemma {:induction false} HydrosTidy(s: Study, b: Log, t: int, areas: nat)
    requires areas <= |s.areas| && Tidy(s, b, Supplies(t, |s.areas|), {})
    ensures Tidy(s, AfterHydros(b, s, t, areas), Hydros(t, areas), {})
  {
    if areas == 0 {
      SuppliesDone(s, b, t);
    } else {
      HydrosTidy(s, b, t, areas - 1);
      HydroTidy(s, AfterHydros(b, s, t, areas - 1), t, areas - 1, s.areas[areas - 1]);
    }
  }

  lemma StepTidy(s: Study, b: Log, t: int)
    requires DistinctNumbers(s) && Tidy(s, b, Steps(t, 0), {})
    ensures Tidy(s, AfterStep(b, s, t), Hydros(t, |s.areas|), {})
  {
    var links := AfterLinks(b, s, t, |s.hurdles|);
    LinksTidy(s, b, t, |s.hurdles|);
    SuppliesTidy(s, links, t, |s.areas|);
    HydrosTidy(s, AfterSupplies(links, s, t, |s.areas|), t, |s.areas|);
  }

  lemma {:induction false} StepsTidy(s: Study, steps: nat)
    requires DistinctNumbers(s)
    ensures Tidy(s, AfterSteps(s, steps), Steps(steps, 0), {})
  {
    if steps > 0 {
      StepsTidy(s, steps - 1);
      StepTidy(s, AfterSteps(s, steps - 1), steps - 1);
      HydrosDone(s, AfterStep(AfterSteps(s, steps - 1), s, steps - 1), steps - 1);
    }
  }

  // ----- Stocks and start-ups --------------------------------------------------------------------------

  lemma {:induction false} LayersTidy(s: Study, b: Log, a: nat, present: bool, layers: nat)
    requires Tidy(s, b, Layers(a, 0), {})
    ensures Tidy(s, AfterLayers(b, a, present, layers), Layers(a, layers), {})
  {
    if layers > 0 {
      var before, key := AfterLayers(b, a, present, layers - 1), Layer(a, layers - 1);
      LayersTidy(s, b, a, present, layers - 1);
      GivenIfTidy(s, before, present, key, Layers(a, layers - 1), {});
      Weaken(s, AfterLayers(b, a, present, layers), Layers(a, layers - 1), {key}, Layers(a, layers));
    }
  }

  lemma WaterTidy(s: Study, b: Log, a: nat, present: bool, layers: nat)
    requires Tidy(s, b, Stocks(a), {})
    ensures Tidy(s, AfterLayers(GivenIf(b, present, FinalStock(a)), a, present, layers), Stocks(a + 1), {})
  {
    var stock := GivenIf(b, present, FinalStock(a));
    GivenIfTidy(s, b, present, FinalStock(a), Stocks(a), {});
    Weaken(s, stock, Stocks(a), {FinalStock(a)}, Layers(a, 0));
    LayersTidy(s, stock, a, present, layers);
    Weaken(s, AfterLayers(stock, a, present, layers), Layers(a, layers), {}, Stocks(a + 1));
  }

  lemma {:induction false} WatersTidy(s: Study, b: Log, areas: nat)
    requires areas <= |s.areas| && Tidy(s, b, Steps(s.steps, 0), {})
    ensures Tidy(s, AfterWaters(b, s, areas), Stocks(areas), {})
  {
    if areas == 0 {
      Weaken(s, b, Steps(s.steps, 0), {}, Stocks(0));
    } else {
      WatersTidy(s, b, areas - 1);
      WaterTidy(s, AfterWaters(b, s, areas - 1), areas - 1, s.areas[areas - 1].waterValue, LAYERS);
    }
  }

  lemma NextUnits(s: Study, a: nat, i: nat, t: int, more: set<Key>, key: Key)
    requires DistinctNumbers(s) && a < |s.areas| && i < |s.areas[a].clusters|
    requires Group(key) == 4 && key.step == t && key.cluster == s.areas[a].clusters[i]
    requires forall j :: j in more ==>
               Group(j) == 4 && j.step == t && j.cluster == key.cluster && Slot(j) < Slot(key)
    ensures Next(s, StartUpSteps(a, i, t), more, key)
  {
    NewCluster(s, a, i);
    assert ClusterIs(s, a, i, key.cluster);
  }

  lemma OneStartUpTidy(s: Study, b: Log, a: nat, i: nat, t: int)
    requires DistinctNumbers(s) && a < |s.areas| && i < |s.areas[a].clusters|
    requires Tidy(s, b, StartUpSteps(a, i, t), {})
    ensures Tidy(s, AfterUnits(b, t, s.areas[a].clusters[i]), StartUpSteps(a, i, t + 1), {})
  {
    var id, stage := s.areas[a].clusters[i], StartUpSteps(a, i, t);
    var on, starting := UnitsOn(t, id), UnitsStarting(t, id);
    var stopping, failing := UnitsStopping(t, id), UnitsFailing(t, id);
    NextUnits(s, a, i, t, {}, on);
    GivenTidy(s, b, on, stage, {});
    var b1 := Given(b, on);
    NextUnits(s, a, i, t, {on}, starting);
    GivenTidy(s, b1, starting, stage, {on});
    var b2 := Given(b1, starting);
    NextUnits(s, a, i, t, {on, starting}, stopping);
    GivenTidy(s, b2, stopping, stage, {on, starting});
    var b3 := Given(b2, stopping);
    NextUnits(s, a, i, t, {on, starting, stopping}, failing);
    GivenTidy(s, b3, failing, stage, {on, starting, stopping});
    Weaken(s, AfterUnits(b, t, id), stage, {on, starting, stopping, failing}, StartUpSteps(a, i, t + 1));
  }

  lemma {:induction false} StartUpsTidy(s: Study, b: Log, a: nat, i: nat, steps: nat)
    requires DistinctNumbers(s) && a < |s.areas| && i < |s.areas[a].clusters|
    requires Tidy(s, b, StartUpSteps(a, i, 0), {})
    ensures Tidy(s, AfterStartUps(b, s.areas[a].clusters[i], steps), StartUpSteps(a, i, steps), {})
  {
    if steps > 0 {
      StartUpsTidy(s, b, a, i, steps - 1);
      OneStartUpTidy(s, AfterStartUps(b, s.areas[a].clusters[i], steps - 1), a, i, steps - 1);
    }
  }

  lemma {:induction false} AreaStartUpsTidy(s: Study, b: Log, a: nat, count: nat)
    requires DistinctNumbers(s) && a < |s.areas| && count <= |s.areas[a].clusters|
    requires Tidy(s, b, StartUps(a), {})
    ensures Tidy(s, AfterAreaStartUps(b, s.areas[a].clusters, s.steps, count), StartUpClusters(a, count), {})
  {
    if count == 0 {
      Weaken(s, b, StartUps(a), {}, StartUpClusters(a, 0));
    } else {
      var i := count - 1;
      var before := AfterAreaStartUps(b, s.areas[a].clusters, s.steps, i);
      AreaStartUpsTidy(s, b, a, i);
      Weaken(s, before, StartUpClusters(a, i), {}, StartUpSteps(a, i, 0));
      StartUpsTidy(s, before, a, i, s.steps);
      forall k | Reached(s, StartUpSteps(a, i, s.steps), k)
        ensures Reached(s, StartUpClusters(a, count), k)
      {
        if Group(k) == 4 {
          ClusterInNext(s, a, i, k.cluster);
        }
      }
      Weaken(s, AfterAreaStartUps(b, s.areas[a].clusters, s.steps, count), StartUpSteps(a, i, s.steps), {},
             StartUpClusters(a, count));
    }
  }

  lemma {:induction false} AllStartUpsTidy(s: Study, b: Log, areas: nat)
    requires DistinctNumbers(s) && areas <= |s.areas| && Tidy(s, b, Stocks(|s.areas|), {})
    ensures Tidy(s, AfterAllStartUps(b, s, areas), StartUps(areas), {})
  {
    if areas == 0 {
      Weaken(s, b, Stocks(|s.areas|), {}, StartUps(0));
    } else {
      var a := areas - 1;
      AllStartUpsTidy(s, b, a);
      AreaStartUpsTidy(s, AfterAllStartUps(b, s, a), a, |s.areas[a].clusters|);
      forall k | Reached(s, StartUpClusters(a, |s.areas[a].clusters|), k)
        ensures Reached(s, StartUps(areas), k)
      {
        if Group(k) == 4 {
          AmongNext(s, a, k.cluster);
        }
      }
      Weaken(s, AfterAllStartUps(b, s, areas), StartUpClusters(a, |s.areas[a].clusters|), {}, StartUps(areas));
    }
  }

  // Under every option, the places that have a variable are numbered one to one from 0 to the
  // number of variables less one, and the others are marked as having none.
  lemma NumbersAreABijection(s: Study)
    requires DistinctNumbers(s)
    ensures Bijection(Requests(s))
  {
    RequestsAreTidy(s);
    CleanIsBijection(Requests(s));
  }

  lemma RequestsAreTidy(s: Study)
    requires DistinctNumbers(s)
    ensures Clean(Requests(s)) && Ordered(s, Requests(s))
  {
    var water := AfterWaters(AfterSteps(s, s.steps), s, |s.areas|);
    StepsTidy(s, s.steps);
    WatersTidy(s, AfterSteps(s, s.steps), |s.areas|);
    if s.startUp {
      AllStartUpsTidy(s, water, |s.areas|);
    }
  }
}
