// Which places have a variable under which options, how many variables there are, and that the pass
// which counts them beforehand leaves room for all of them.

module NumberingCount {
  import opened VariableNumbering
  import opened NumberingBijection

  // ----- Which variables exist ------------------------------------------------------------------

  ghost predicate StepAndArea(s: Study, t: int, a: int) {
    0 <= t < s.steps && 0 <= a < |s.areas|
  }

  ghost predicate Present(s: Study, k: Key) {
    match k
    case Flow(t, l) => 0 <= t < s.steps && 0 <= l < |s.hurdles|
    case DirectCost(t, l) => 0 <= t < s.steps && 0 <= l < |s.hurdles| && s.hurdles[l]
    case IndirectCost(t, l) => 0 <= t < s.steps && 0 <= l < |s.hurdles| && s.hurdles[l]
    case Thermal(t, c) => 0 <= t < s.steps && ClusterAmong(s, |s.areas|, c)
    case Injection(t, c) => 0 <= t < s.steps && StorageAmong(s, |s.areas|, c)
    case Withdrawal(t, c) => 0 <= t < s.steps && StorageAmong(s, |s.areas|, c)
    case Level(t, c) => 0 <= t < s.steps && StorageAmong(s, |s.areas|, c)
    case Unsupplied(t, a) => StepAndArea(s, t, a)
    case Spilled(t, a) => StepAndArea(s, t, a)
    case HydProd(t, a) => StepAndArea(s, t, a) && s.areas[a].hydro
    case HydDown(t, a) =>
      && StepAndArea(s, t, a) && s.areas[a].hydro
      && (s.smoothing.SumOfVariations? || (s.smoothing.LargestVariation? && t == 0))
    case HydUp(t, a) =>
      && StepAndArea(s, t, a) && s.areas[a].hydro
      && (s.smoothing.SumOfVariations? || (s.smoothing.LargestVariation? && t == 0))
    case Pumping(t, a) => StepAndArea(s, t, a) && s.areas[a].pumping
    case HydroLevel(t, a) => StepAndArea(s, t, a) && s.areas[a].levels
    case Overflow(t, a) => StepAndArea(s, t, a) && s.areas[a].levels
    case FinalStock(a) => 0 <= a < |s.areas| && s.areas[a].waterValue
    case Layer(a, j) => 0 <= a < |s.areas| && s.areas[a].waterValue && 0 <= j < 100
    case UnitsOn(t, c) => s.startUp && 0 <= t < s.steps && ClusterAmong(s, |s.areas|, c)
    case UnitsStarting(t, c) => s.startUp && 0 <= t < s.steps && ClusterAmong(s, |s.areas|, c)
    case UnitsStopping(t, c) => s.startUp && 0 <= t < s.steps && ClusterAmong(s, |s.areas|, c)
    case UnitsFailing(t, c) => s.startUp && 0 <= t < s.steps && ClusterAmong(s, |s.areas|, c)
  }

  // ----- Each part of the pass adds exactly its own places ----------------------------------------

  lemma LinkAssigned(b: Log, t: int, link: int, hurdle: bool, k: Key)
    ensures Assigned(AfterLink(b, t, link, hurdle), k) <==>
            (Assigned(b, k) || k == Flow(t, link)
             || (hurdle && (k == DirectCost(t, link) || k == IndirectCost(t, link))))
  {
    var flow := Given(b, Flow(t, link));
    assert Assigned(flow, k) <==> Assigned(b, k) || k == Flow(t, link);
    var direct := Given(flow, DirectCost(t, link));
    assert Assigned(direct, k) <==> Assigned(flow, k) || k == DirectCost(t, link);
  }

  lemma {:induction false} LinksAssigned(b: Log, s: Study, t: int, links: nat, k: Key)
    requires links <= |s.hurdles|
    ensures Assigned(AfterLinks(b, s, t, links), k) <==>
            (Assigned(b, k)
             || (Group(k) == 0 && k.step == t && 0 <= k.link < links && (k.Flow? || s.hurdles[k.link])))
  {
    if links > 0 {
      LinksAssigned(b, s, t, links - 1, k);
      LinkAssigned(AfterLinks(b, s, t, links - 1), t, links - 1, s.hurdles[links - 1], k);
    }
  }

  lemma {:induction false} ClustersAssigned(b: Log, t: int, clusters: seq<nat>, count: nat, k: Key)
    requires count <= |clusters|
    ensures Assigned(AfterClusters(b, t, clusters, count), k) <==>
            (Assigned(b, k) || (k.Thermal? && k.step == t && k.cluster in clusters[..count]))
  {
    if count > 0 {
      ClustersAssigned(b, t, clusters, count - 1, k);
      assert clusters[..count] == clusters[..count - 1] + [clusters[count - 1]];
    }
  }

  lemma StorageAssigned(b: Log, t: int, storage: int, k: Key)
    ensures Assigned(AfterStorage(b, t, storage), k) <==>
            (Assigned(b, k) || ((k.Injection? || k.Withdrawal? || k.Level?) && k.step == t && k.storage == storage))
  {
    var injection := Given(b, Injection(t, storage));
    assert Assigned(injection, k) <==> Assigned(b, k) || k == Injection(t, storage);
    var withdrawal := Given(injection, Withdrawal(t, storage));
    assert Assigned(withdrawal, k) <==> Assigned(injection, k) || k == Withdrawal(t, storage);
  }

  lemma {:induction false} StoragesAssigned(b: Log, t: int, storages: seq<nat>, count: nat, k: Key)
    requires count <= |storages|
    ensures Assigned(AfterStorages(b, t, storages, count), k) <==>
            (Assigned(b, k)
             || ((k.Injection? || k.Withdrawal? || k.Level?) && k.step == t && k.storage in storages[..count]))
  {
    if count > 0 {
      StoragesAssigned(b, t, storages, count - 1, k);
      StorageAssigned(AfterStorages(b, t, storages, count - 1), t, storages[count - 1], k);
      assert storages[..count] == storages[..count - 1] + [storages[count - 1]];
    }
  }

  lemma SupplyAssigned(b: Log, t: int, a: int, area: Area, k: Key)
    ensures Assigned(AfterSupply(b, t, a, area), k) <==>
            (Assigned(b, k)
             || (k.Thermal? && k.step == t && k.cluster in area.clusters)
             || ((k.Injection? || k.Withdrawal? || k.Level?) && k.step == t && k.storage in area.storages)
             || k == Unsupplied(t, a) || k == Spilled(t, a))
  {
    var clusters := AfterClusters(b, t, area.clusters, |area.clusters|);
    ClustersAssigned(b, t, area.clusters, |area.clusters|, k);
    StoragesAssigned(clusters, t, area.storages, |area.storages|, k);
    assert area.clusters[..|area.clusters|] == area.clusters && area.storages[..|area.storages|] == area.storages;
  }

  lemma {:induction false} SuppliesAssigned(b: Log, s: Study, t: int, areas: nat, k: Key)
    requires areas <= |s.areas|
    ensures Assigned(AfterSupplies(b, s, t, areas), k) <==>
            (Assigned(b, k)
             || (k.Thermal? && k.step == t && ClusterAmong(s, areas, k.cluster))
             || ((k.Injection? || k.Withdrawal? || k.Level?) && k.step == t && StorageAmong(s, areas, k.storage))
             || ((k.Unsupplied? || k.Spilled?) && k.step == t && 0 <= k.area < areas))
  {
    if areas > 0 {
      var a := areas - 1;
      SuppliesAssigned(b, s, t, a, k);
      SupplyAssigned(AfterSupplies(b, s, t, a), t, a, s.areas[a], k);
      match k {
        case Thermal(_, id) => AmongNext(s, a, id);
        case Injection(_, id) => AmongNext(s, a, id);
        case Withdrawal(_, id) => AmongNext(s, a, id);
        case Level(_, id) => AmongNext(s, a, id);
        case _ =>
      }
    }
  }

  // The area's hydro places that have a variable at this step.
  ghost predicate HydroPlace(smoothing: Smoothing, t: int, area: Area, k: Key) {
    match k
    case HydProd(_, _) => area.hydro
    case HydDown(_, _) => Varies(smoothing, t, area)
    case HydUp(_, _) => Varies(smoothing, t, area)
    case Pumping(_, _) => area.pumping
    case HydroLevel(_, _) => area.levels
    case Overflow(_, _) => area.levels
    case _ => false
  }

  lemma VariationsAssigned(b: Log, smoothing: Smoothing, t: int, a: int, area: Area, k: Key)
    ensures Assigned(AfterVariations(b, smoothing, t, a, area), k) <==>
            (Assigned(b, k) || (area.hydro && k == HydProd(t, a))
             || (Varies(smoothing, t, area) && (k == HydDown(t, a) || k == HydUp(t, a))))
  {
    var b1 := GivenIf(b, area.hydro, HydProd(t, a));
    assert Assigned(b1, k) <==> Assigned(b, k) || (area.hydro && k == HydProd(t, a));
    var b2 := Denied(b1, HydDown(t, a));
    assert Assigned(b2, k) <==> Assigned(b1, k);
    var b3 := Denied(b2, HydUp(t, a));
    assert Assigned(b3, k) <==> Assigned(b2, k);
    var b4 := Given(b3, HydDown(t, a));
    assert Assigned(b4, k) <==> Assigned(b3, k) || k == HydDown(t, a);
  }

  lemma HydroAssigned(b: Log, smoothing: Smoothing, t: int, a: int, area: Area, k: Key)
    ensures Assigned(AfterHydro(b, smoothing, t, a, area), k) <==>
            (Assigned(b, k) || (Group(k) == 2 && k.step == t && k.area == a && HydroPlace(smoothing, t, area, k)))
  {
    var b1 := AfterVariations(b, smoothing, t, a, area);
    VariationsAssigned(b, smoothing, t, a, area, k);
    GivenIfAssigned(b1, area.pumping, Pumping(t, a), k);
    var b2 := GivenIf(b1, area.pumping, Pumping(t, a));
    GivenIfAssigned(b2, area.levels, HydroLevel(t, a), k);
    GivenIfAssigned(GivenIf(b2, area.levels, HydroLevel(t, a)), area.levels, Overflow(t, a), k);
  }

  lemma GivenIfAssigned(b: Log, present: bool, key: Key, k: Key)
    ensures Assigned(GivenIf(b, present, key), k) <==> Assigned(b, k) || (present && k == key)
  {
  }

  lemma {:induction false} HydrosAssigned(b: Log, s: Study, t: int, areas: nat, k: Key)
    requires areas <= |s.areas|
    ensures Assigned(AfterHydros(b, s, t, areas), k) <==>
            (Assigned(b, k)
             || (Group(k) == 2 && k.step == t && 0 <= k.area < areas
                 && HydroPlace(s.smoothing, t, s.areas[k.area], k)))
  {
    if areas > 0 {
      HydrosAssigned(b, s, t, areas - 1, k);
      HydroAssigned(AfterHydros(b, s, t, areas - 1), s.smoothing, t, areas - 1, s.areas[areas - 1], k);
    }
  }

  lemma StepAssigned(b: Log, s: Study, t: nat, k: Key)
    requires t < s.steps
    ensures Assigned(AfterStep(b, s, t), k) <==>
            (Assigned(b, k) || (Group(k) <= 2 && k.step == t && Present(s, k)))
  {
    var links := AfterLinks(b, s, t, |s.hurdles|);
    var supplies := AfterSupplies(links, s, t, |s.areas|);
    LinksAssigned(b, s, t, |s.hurdles|, k);
    SuppliesAssigned(links, s, t, |s.areas|, k);
    HydrosAssigned(supplies, s, t, |s.areas|, k);
    if Group(k) == 0 {
      LinkPlace(s, t, k);
    } else if Group(k) == 1 {
      SupplyPlace(s, t, k);
    } else if Group(k) == 2 {
      HydroPlacePresent(s, t, k);
    }
  }

  lemma LinkPlace(s: Study, t: nat, k: Key)
    requires t < s.steps && Group(k) == 0
    ensures (k.step == t && 0 <= k.link < |s.hurdles| && (k.Flow? || s.hurdles[k.link]))
       <==> k.step == t && Present(s, k)
  {
  }

  lemma SupplyPlace(s: Study, t: nat, k: Key)
    requires t < s.steps && Group(k) == 1
    ensures ((k.Thermal? && k.step == t && ClusterAmong(s, |s.areas|, k.cluster))
             || ((k.Injection? || k.Withdrawal? || k.Level?) && k.step == t && StorageAmong(s, |s.areas|, k.storage))
             || ((k.Unsupplied? || k.Spilled?) && k.step == t && 0 <= k.area < |s.areas|))
            <==> k.step == t && Present(s, k)
  {
  }

  lemma HydroPlacePresent(s: Study, t: nat, k: Key)
    requires t < s.steps && Group(k) == 2
    ensures (k.step == t && 0 <= k.area < |s.areas| && HydroPlace(s.smoothing, t, s.areas[k.area], k))
            <==> k.step == t && Present(s, k)
  {
  }

  lemma {:induction false} StepsAssigned(s: Study, steps: nat, k: Key)
    requires steps <= s.steps
    ensures Assigned(AfterSteps(s, steps), k) <==> (Group(k) <= 2 && k.step < steps && Present(s, k))
  {
    if steps > 0 {
      StepsAssigned(s, steps - 1, k);
      StepAssigned(AfterSteps(s, steps - 1), s, steps - 1, k);
    }
  }

  lemma {:induction false} LayersAssigned(b: Log, a: int, present: bool, layers: nat, k: Key)
    ensures Assigned(AfterLayers(b, a, present, layers), k) <==>
            (Assigned(b, k) || (present && k.Layer? && k.area == a && 0 <= k.layer < layers))
  {
    if layers > 0 {
      LayersAssigned(b, a, present, layers - 1, k);
    }
  }

  lemma {:induction false} WatersAssigned(b: Log, s: Study, areas: nat, k: Key)
    requires areas <= |s.areas|
    ensures Assigned(AfterWaters(b, s, areas), k) <==>
            (Assigned(b, k) || (Group(k) == 3 && k.area < areas && Present(s, k)))
  {
    if areas > 0 {
      var a := areas - 1;
      var before, present := AfterWaters(b, s, a), s.areas[a].waterValue;
      WatersAssigned(b, s, a, k);
      LayersAssigned(GivenIf(before, present, FinalStock(a)), a, present, LAYERS, k);
    }
  }

  lemma UnitsAssigned(b: Log, t: int, cluster: int, k: Key)
    ensures Assigned(AfterUnits(b, t, cluster), k) <==>
            (Assigned(b, k) || (Group(k) == 4 && k.cluster == cluster && k.step == t))
  {
    var on := Given(b, UnitsOn(t, cluster));
    assert Assigned(on, k) <==> Assigned(b, k) || k == UnitsOn(t, cluster);
    var starting := Given(on, UnitsStarting(t, cluster));
    assert Assigned(starting, k) <==> Assigned(on, k) || k == UnitsStarting(t, cluster);
    var stopping := Given(starting, UnitsStopping(t, cluster));
    assert Assigned(stopping, k) <==> Assigned(starting, k) || k == UnitsStopping(t, cluster);
  }

  lemma {:induction false} StartUpsAssigned(b: Log, cluster: int, steps: nat, k: Key)
    ensures Assigned(AfterStartUps(b, cluster, steps), k) <==>
            (Assigned(b, k) || (Group(k) == 4 && k.cluster == cluster && 0 <= k.step < steps))
  {
    if steps > 0 {
      StartUpsAssigned(b, cluster, steps - 1, k);
      UnitsAssigned(AfterStartUps(b, cluster, steps - 1), steps - 1, cluster, k);
    }
  }

  lemma {:induction false} AreaStartUpsAssigned(b: Log, clusters: seq<nat>, steps: nat, count: nat, k: Key)
    requires count <= |clusters|
    ensures Assigned(AfterAreaStartUps(b, clusters, steps, count), k) <==>
            (Assigned(b, k) || (Group(k) == 4 && k.cluster in clusters[..count] && 0 <= k.step < steps))
  {
    if count > 0 {
      AreaStartUpsAssigned(b, clusters, steps, count - 1, k);
      StartUpsAssigned(AfterAreaStartUps(b, clusters, steps, count - 1), clusters[count - 1], steps, k);
      assert clusters[..count] == clusters[..count - 1] + [clusters[count - 1]];
    }
  }

  lemma {:induction false} AllStartUpsAssigned(b: Log, s: Study, areas: nat, k: Key)
    requires areas <= |s.areas|
    ensures Assigned(AfterAllStartUps(b, s, areas), k) <==>
            (Assigned(b, k) || (Group(k) == 4 && ClusterAmong(s, areas, k.cluster) && 0 <= k.step < s.steps))
  {
    if areas > 0 {
      var a := areas - 1;
      var clusters := s.areas[a].clusters;
      AllStartUpsAssigned(b, s, a, k);
      AreaStartUpsAssigned(AfterAllStartUps(b, s, a), clusters, s.steps, |clusters|, k);
      assert clusters[..|clusters|] == clusters;
      if Group(k) == 4 {
        AmongNext(s, a, k.cluster);
      }
    }
  }

  // A place gets a number exactly when the study has that variable.
  lemma NumberedExactlyWhenPresent(s: Study, k: Key)
    ensures Assigned(Requests(s), k) <==> Present(s, k)
  {
    var steps := AfterSteps(s, s.steps);
    var water := AfterWaters(steps, s, |s.areas|);
    StepsAssigned(s, s.steps, k);
    WatersAssigned(steps, s, |s.areas|, k);
    if s.startUp {
      AllStartUpsAssigned(water, s, |s.areas|, k);
    }
  }

  // ----- How many ----------------------------------------------------------------------------------

  function One(present: bool): nat { if present then 1 else 0 }

  ghost function Hurdles(s: Study, links: nat): nat
    requires links <= |s.hurdles|
  {
    if links == 0 then 0 else Hurdles(s, links - 1) + One(s.hurdles[links - 1])
  }

  ghost function ClusterCount(s: Study, areas: nat): nat
    requires areas <= |s.areas|
  {
    if areas == 0 then 0 else ClusterCount(s, areas - 1) + |s.areas[areas - 1].clusters|
  }

  ghost function StorageCount(s: Study, areas: nat): nat
    requires areas <= |s.areas|
  {
    if areas == 0 then 0 else StorageCount(s, areas - 1) + |s.areas[areas - 1].storages|
  }

  ghost function HydroCount(s: Study, areas: nat): nat
    requires areas <= |s.areas|
  {
    if areas == 0 then 0
    else
      var area := s.areas[areas - 1];
      HydroCount(s, areas - 1) + One(area.hydro) + One(area.pumping) + 2 * One(area.levels)
  }

  // Areas with flexible hydro power, and areas with water values.
  ghost function FlexibleCount(s: Study, areas: nat): nat
    requires areas <= |s.areas|
  {
    if areas == 0 then 0 else FlexibleCount(s, areas - 1) + One(s.areas[areas - 1].hydro)
  }

  ghost function WaterCount(s: Study, areas: nat): nat
    requires areas <= |s.areas|
  {
    if areas == 0 then 0 else WaterCount(s, areas - 1) + One(s.areas[areas - 1].waterValue)
  }

  // Hydro variations at one step, and over the first steps.
  ghost function VariationsAt(s: Study, t: int): nat {
    match s.smoothing
    case NoSmoothing => 0
    case SumOfVariations => 2 * FlexibleCount(s, |s.areas|)
    case LargestVariation => if t == 0 then 2 * FlexibleCount(s, |s.areas|) else 0
  }

  ghost function PerStep(s: Study): nat {
    |s.hurdles| + 2 * Hurdles(s, |s.hurdles|) + ClusterCount(s, |s.areas|) + 3 * StorageCount(s, |s.areas|)
    + 2 * |s.areas| + HydroCount(s, |s.areas|)
  }

  ghost function Variations(s: Study, steps: nat): nat {
    match s.smoothing
    case NoSmoothing => 0
    case SumOfVariations => steps * (2 * FlexibleCount(s, |s.areas|))
    case LargestVariation => if steps > 0 then 2 * FlexibleCount(s, |s.areas|) else 0
  }

  lemma {:induction false} LinksCount(b: Log, s: Study, t: int, links: nat)
    requires links <= |s.hurdles|
    ensures CountOf(AfterLinks(b, s, t, links)) == CountOf(b) + links + 2 * Hurdles(s, links)
  {
    if links > 0 {
      LinksCount(b, s, t, links - 1);
      var flow := Given(AfterLinks(b, s, t, links - 1), Flow(t, links - 1));
      var direct := Given(flow, DirectCost(t, links - 1));
      assert CountOf(direct) == CountOf(flow) + 1;
    }
  }

  lemma {:induction false} ClustersCount(b: Log, t: int, clusters: seq<nat>, count: nat)
    requires count <= |clusters|
    ensures CountOf(AfterClusters(b, t, clusters, count)) == CountOf(b) + count
  {
    if count > 0 {
      ClustersCount(b, t, clusters, count - 1);
    }
  }

  lemma {:induction false} StoragesCount(b: Log, t: int, storages: seq<nat>, count: nat)
    requires count <= |storages|
    ensures CountOf(AfterStorages(b, t, storages, count)) == CountOf(b) + 3 * count
  {
    if count > 0 {
      StoragesCount(b, t, storages, count - 1);
      var last := storages[count - 1];
      var injection := Given(AfterStorages(b, t, storages, count - 1), Injection(t, last));
      var withdrawal := Given(injection, Withdrawal(t, last));
      assert CountOf(withdrawal) == CountOf(injection) + 1;
    }
  }

  lemma {:induction false} SuppliesCount(b: Log, s: Study, t: int, areas: nat)
    requires areas <= |s.areas|
    ensures CountOf(AfterSupplies(b, s, t, areas))
         == CountOf(b) + ClusterCount(s, areas) + 3 * StorageCount(s, areas) + 2 * areas
  {
    if areas > 0 {
      var a := areas - 1;
      var area := s.areas[a];
      SuppliesCount(b, s, t, a);
      var before := AfterSupplies(b, s, t, a);
      var clusters := AfterClusters(before, t, area.clusters, |area.clusters|);
      ClustersCount(before, t, area.clusters, |area.clusters|);
      StoragesCount(clusters, t, area.storages, |area.storages|);
      var unsupplied := Given(AfterStorages(clusters, t, area.storages, |area.storages|), Unsupplied(t, a));
      assert CountOf(AfterSupply(before, t, a, area)) == CountOf(unsupplied) + 1;
    }
  }

  lemma GivenIfCount(b: Log, present: bool, key: Key)
    ensures CountOf(GivenIf(b, present, key)) == CountOf(b) + One(present)
  {
  }

  lemma VariationsCount(b: Log, smoothing: Smoothing, t: int, a: int, area: Area)
    ensures CountOf(AfterVariations(b, smoothing, t, a, area))
         == CountOf(b) + One(area.hydro) + 2 * One(Varies(smoothing, t, area))
  {
    var b1 := GivenIf(b, area.hydro, HydProd(t, a));
    GivenIfCount(b, area.hydro, HydProd(t, a));
    var b2 := Denied(b1, HydDown(t, a));
    assert CountOf(b2) == CountOf(b1);
    var b3 := Denied(b2, HydUp(t, a));
    assert CountOf(b3) == CountOf(b2);
    var b4 := Given(b3, HydDown(t, a));
    assert CountOf(b4) == CountOf(b3) + 1;
  }

  lemma OneHydroCount(b: Log, smoothing: Smoothing, t: int, a: int, area: Area)
    ensures CountOf(AfterHydro(b, smoothing, t, a, area))
         == CountOf(b) + One(area.hydro) + One(area.pumping) + 2 * One(area.levels)
            + 2 * One(Varies(smoothing, t, area))
  {
    var b1 := AfterVariations(b, smoothing, t, a, area);
    var b2 := GivenIf(b1, area.pumping, Pumping(t, a));
    var b3 := GivenIf(b2, area.levels, HydroLevel(t, a));
    VariationsCount(b, smoothing, t, a, area);
    GivenIfCount(b1, area.pumping, Pumping(t, a));
    GivenIfCount(b2, area.levels, HydroLevel(t, a));
    GivenIfCount(b3, area.levels, Overflow(t, a));
  }

  ghost function VaryingCount(s: Study, t: int, areas: nat): nat
    requires areas <= |s.areas|
  {
    if areas == 0 then 0 else VaryingCount(s, t, areas - 1) + One(Varies(s.smoothing, t, s.areas[areas - 1]))
  }

  lemma {:induction false} VaryingAreFlexible(s: Study, t: int, areas: nat)
    requires areas <= |s.areas|
    ensures VaryingCount(s, t, areas)
         == if s.smoothing.SumOfVariations? || (s.smoothing.LargestVariation? && t == 0) then FlexibleCount(s, areas)
            else 0
  {
    if areas > 0 {
      VaryingAreFlexible(s, t, areas - 1);
    }
  }

  lemma {:induction false} HydrosCount(b: Log, s: Study, t: int, areas: nat)
    requires areas <= |s.areas|
    ensures CountOf(AfterHydros(b, s, t, areas)) == CountOf(b) + HydroCount(s, areas) + 2 * VaryingCount(s, t, areas)
  {
    if areas > 0 {
      HydrosCount(b, s, t, areas - 1);
      OneHydroCount(AfterHydros(b, s, t, areas - 1), s.smoothing, t, areas - 1, s.areas[areas - 1]);
    }
  }

  lemma StepCount(b: Log, s: Study, t: int)
    ensures CountOf(AfterStep(b, s, t)) == CountOf(b) + PerStep(s) + VariationsAt(s, t)
  {
    var links := AfterLinks(b, s, t, |s.hurdles|);
    LinksCount(b, s, t, |s.hurdles|);
    SuppliesCount(links, s, t, |s.areas|);
    HydrosCount(AfterSupplies(links, s, t, |s.areas|), s, t, |s.areas|);
    VaryingAreFlexible(s, t, |s.areas|);
  }

  lemma {:induction false} StepsCount(s: Study, steps: nat)
    ensures CountOf(AfterSteps(s, steps)) == steps * PerStep(s) + Variations(s, steps)
  {
    if steps > 0 {
      StepsCount(s, steps - 1);
      StepCount(AfterSteps(s, steps - 1), s, steps - 1);
      assert steps * PerStep(s) == (steps - 1) * PerStep(s) + PerStep(s);
      var flexible := 2 * FlexibleCount(s, |s.areas|);
      assert steps * flexible == (steps - 1) * flexible + flexible;
    }
  }

  lemma {:induction false} LayersCount(b: Log, a: int, present: bool, layers: nat)
    ensures CountOf(AfterLayers(b, a, present, layers)) == CountOf(b) + if present then layers else 0
  {
    if layers > 0 {
      LayersCount(b, a, present, layers - 1);
    }
  }

  lemma {:induction false} WatersCount(b: Log, s: Study, areas: nat)
    requires areas <= |s.areas|
    ensures CountOf(AfterWaters(b, s, areas)) == CountOf(b) + (1 + LAYERS) * WaterCount(s, areas)
  {
    if areas > 0 {
      var a := areas - 1;
      var before, present := AfterWaters(b, s, a), s.areas[a].waterValue;
      WatersCount(b, s, a);
      GivenIfCount(before, present, FinalStock(a));
      LayersCount(GivenIf(before, present, FinalStock(a)), a, present, LAYERS);
    }
  }

  lemma {:induction false} StartUpsCount(b: Log, cluster: int, steps: nat)
    ensures CountOf(AfterStartUps(b, cluster, steps)) == CountOf(b) + 4 * steps
  {
    if steps > 0 {
      var t := steps - 1;
      StartUpsCount(b, cluster, t);
      var on := Given(AfterStartUps(b, cluster, t), UnitsOn(t, cluster));
      var starting := Given(on, UnitsStarting(t, cluster));
      var stopping := Given(starting, UnitsStopping(t, cluster));
      assert CountOf(starting) == CountOf(on) + 1 && CountOf(stopping) == CountOf(starting) + 1;
      assert CountOf(Given(stopping, UnitsFailing(t, cluster))) == CountOf(stopping) + 1;
    }
  }

  lemma {:induction false} AreaStartUpsCount(b: Log, clusters: seq<nat>, steps: nat, count: nat)
    requires count <= |clusters|
    ensures CountOf(AfterAreaStartUps(b, clusters, steps, count)) == CountOf(b) + count * (4 * steps)
  {
    if count > 0 {
      AreaStartUpsCount(b, clusters, steps, count - 1);
      StartUpsCount(AfterAreaStartUps(b, clusters, steps, count - 1), clusters[count - 1], steps);
      assert count * (4 * steps) == (count - 1) * (4 * steps) + 4 * steps;
    }
  }

  lemma {:induction false} AllStartUpsCount(b: Log, s: Study, areas: nat)
    requires areas <= |s.areas|
    ensures CountOf(AfterAllStartUps(b, s, areas)) == CountOf(b) + ClusterCount(s, areas) * (4 * s.steps)
  {
    if areas > 0 {
      var clusters := s.areas[areas - 1].clusters;
      AllStartUpsCount(b, s, areas - 1);
      AreaStartUpsCount(AfterAllStartUps(b, s, areas - 1), clusters, s.steps, |clusters|);
      assert ClusterCount(s, areas) * (4 * s.steps)
          == ClusterCount(s, areas - 1) * (4 * s.steps) + |clusters| * (4 * s.steps);
    }
  }

  ghost function NumberOfVariables(s: Study): nat {
    s.steps * PerStep(s) + Variations(s, s.steps) + (1 + LAYERS) * WaterCount(s, |s.areas|)
    + if s.startUp then ClusterCount(s, |s.areas|) * (4 * s.steps) else 0
  }

  lemma NumberedCount(s: Study)
    ensures CountOf(Requests(s)) == NumberOfVariables(s)
  {
    var water := AfterWaters(AfterSteps(s, s.steps), s, |s.areas|);
    StepsCount(s, s.steps);
    WatersCount(AfterSteps(s, s.steps), s, |s.areas|);
    if s.startUp {
      AllStartUpsCount(water, s, |s.areas|);
    }
  }

  // ----- The counting pass -------------------------------------------------------------------------

  // What the counting pass reserves per step, links counted as if they all had hurdle costs.
  ghost function ReservedPerStep(s: Study, areas: nat): nat
    requires areas <= |s.areas|
  {
    3 * |s.hurdles| + ClusterCount(s, areas) + HydroCount(s, areas) + 2 * areas
  }

  method CountPerStep(s: Study) returns (variables: nat)
    ensures variables == ReservedPerStep(s, |s.areas|)
  {
    variables := |s.hurdles|;
    variables := variables + 2 * |s.hurdles|;
    for a := 0 to |s.areas|
      invariant variables == ReservedPerStep(s, a)
    {
      variables := variables + |s.areas[a].clusters|;
      if s.areas[a].hydro {
        variables := variables + 1;
      }
      if s.areas[a].pumping {
        variables := variables + 1;
      }
      if s.areas[a].levels {
        variables := variables + 1;
        variables := variables + 1;
      }
      variables := variables + 2;
    }
  }

  method CountWater(s: Study, before: nat) returns (variables: nat)
    ensures variables == before + (1 + LAYERS) * WaterCount(s, |s.areas|)
  {
    variables := before;
    for a := 0 to |s.areas|
      invariant variables == before + (1 + LAYERS) * WaterCount(s, a)
    {
      if s.areas[a].waterValue {
        variables := variables + 1;
        variables := variables + LAYERS;
      }
    }
  }

  lemma OneMore(count: nat, each: nat)
    ensures (count + 1) * each == count * each + each
  {
  }

  lemma TwicePerStep(count: nat, steps: nat)
    ensures count * (steps * 2) == steps * (2 * count)
  {
  }

  method CountVariations(s: Study, before: nat) returns (variables: nat)
    requires 1 <= s.steps
    ensures variables == before + Variations(s, s.steps)
  {
    variables := before;
    ghost var each := match s.smoothing
      case NoSmoothing => 0
      case SumOfVariations => s.steps * 2
      case LargestVariation => 2;
    for a := 0 to |s.areas|
      invariant variables == before + FlexibleCount(s, a) * each
    {
      if s.areas[a].hydro {
        OneMore(FlexibleCount(s, a), each);
        if s.smoothing.SumOfVariations? {
          variables := variables + s.steps * 2;
        } else if s.smoothing.LargestVariation? {
          variables := variables + 2;
        }
      }
    }
    TwicePerStep(FlexibleCount(s, |s.areas|), s.steps);
  }

  method CountStartUps(s: Study, before: nat) returns (variables: nat)
    ensures variables == before + ClusterCount(s, |s.areas|) * (4 * s.steps)
  {
    variables := before;
    for a := 0 to |s.areas|
      invariant variables == before + ClusterCount(s, a) * (4 * s.steps)
    {
      ghost var start := variables;
      for i := 0 to |s.areas[a].clusters|
        invariant variables == start + i * (4 * s.steps)
      {
        ghost var first := variables;
        for t := 0 to s.steps
          invariant variables == first + 4 * t
        {
          variables := variables + 4;
        }
        assert (i + 1) * (4 * s.steps) == i * (4 * s.steps) + 4 * s.steps;
      }
      assert (ClusterCount(s, a) + |s.areas[a].clusters|) * (4 * s.steps)
          == ClusterCount(s, a) * (4 * s.steps) + |s.areas[a].clusters| * (4 * s.steps);
    }
  }

  // The two numbers per step that each link without hurdle costs is counted for and never gets.
  ghost function Spare(s: Study): int {
    2 * s.steps * (|s.hurdles| - Hurdles(s, |s.hurdles|))
  }

  lemma SpareIsNonNegative(s: Study)
    ensures 0 <= Spare(s)
  {
    HurdlesWithinLinks(s, |s.hurdles|);
    var links := |s.hurdles| - Hurdles(s, |s.hurdles|);
    assert 0 <= 2 * s.steps * links;
  }

  ghost function WithoutHurdles(hurdles: seq<bool>): set<int> {
    set link | 0 <= link < |hurdles| && !hurdles[link]
  }

  lemma OneLinkMore(hurdles: seq<bool>, hurdle: bool)
    ensures |WithoutHurdles(hurdles + [hurdle])| == |WithoutHurdles(hurdles)| + One(!hurdle)
  {
    var before, after := WithoutHurdles(hurdles), WithoutHurdles(hurdles + [hurdle]);
    assert after == if hurdle then before else before + {|hurdles|};
  }

  lemma {:induction false} HurdlesOfFirst(s: Study, links: nat)
    requires links <= |s.hurdles|
    ensures |WithoutHurdles(s.hurdles[..links])| == links - Hurdles(s, links)
  {
    if links > 0 {
      HurdlesOfFirst(s, links - 1);
      OneLinkMore(s.hurdles[..links - 1], s.hurdles[links - 1]);
      assert s.hurdles[..links] == s.hurdles[..links - 1] + [s.hurdles[links - 1]];
    }
  }

  lemma SpareIsForLinksWithoutHurdles(s: Study)
    ensures Spare(s) == 2 * s.steps * |WithoutHurdles(s.hurdles)|
  {
    HurdlesOfFirst(s, |s.hurdles|);
    assert s.hurdles[..|s.hurdles|] == s.hurdles;
  }

  // The arrays sized by the counting pass hold every number of the numbering pass, with room to
  // spare for two numbers per step and link without hurdle costs.
  method CountVariables(s: Study, storages: nat) returns (variables: nat)
    requires 1 <= s.steps && storages == StorageCount(s, |s.areas|)
    ensures variables == CountOf(Requests(s)) + 2 * s.steps * |WithoutHurdles(s.hurdles)|
  {
    variables := CountPerStep(s);
    ghost var perStep := variables;
    variables := variables * s.steps;
    variables := CountWater(s, variables);
    variables := variables + 3 * storages * s.steps;
    variables := CountVariations(s, variables);
    if s.startUp {
      variables := CountStartUps(s, variables);
    }
    NumberedCount(s);
    ReservedAndUsed(s);
    SpareIsForLinksWithoutHurdles(s);
  }

  lemma ReservedAndUsed(s: Study)
    ensures ReservedPerStep(s, |s.areas|) * s.steps + 3 * StorageCount(s, |s.areas|) * s.steps
         == s.steps * PerStep(s) + Spare(s)
  {
    var spare := |s.hurdles| - Hurdles(s, |s.hurdles|);
    var reserved, stored := ReservedPerStep(s, |s.areas|), 3 * StorageCount(s, |s.areas|);
    assert reserved + stored == PerStep(s) + 2 * spare;
    assert (reserved + stored) * s.steps == reserved * s.steps + stored * s.steps;
    assert (PerStep(s) + 2 * spare) * s.steps == s.steps * PerStep(s) + 2 * s.steps * spare;
  }

  lemma {:induction false} HurdlesWithinLinks(s: Study, links: nat)
    requires links <= |s.hurdles|
    ensures Hurdles(s, links) <= links
  {
    if links > 0 {
      HurdlesWithinLinks(s, links - 1);
    }
  }

  // Every variable of the study has a number that the arrays of the counting pass can hold.
  lemma NumbersFitTheArrays(s: Study, k: Key)
    requires DistinctNumbers(s) && Present(s, k)
    ensures k in TableOf(Requests(s))
    ensures 0 <= TableOf(Requests(s))[k] < CountOf(Requests(s)) + 2 * s.steps * |WithoutHurdles(s.hurdles)|
  {
    SpareIsForLinksWithoutHurdles(s);
    NumberedExactlyWhenPresent(s, k);
    NumbersAreABijection(s);
    SpareIsNonNegative(s);
  }

  // ----- The table the pass leaves -----------------------------------------------------------------

  ghost predicate HasNumber(table: map<Key, int>, k: Key) {
    k in table && 0 <= table[k]
  }

  ghost predicate Numbers(table: map<Key, int>, n: int) {
    exists k :: HasNumber(table, k) && table[k] == n
  }

  // Exactly the variables of the study have numbers, one each, from 0 to the count less one; the
  // other places that the pass looked at are marked with -1.
  ghost predicate NumbersOneToOne(s: Study, table: map<Key, int>, variables: nat) {
    && (forall k :: HasNumber(table, k) <==> Present(s, k))
    && (forall k :: k in table && !HasNumber(table, k) ==> table[k] == -1)
    && (forall k :: HasNumber(table, k) ==> table[k] < variables)
    && (forall k, k' :: HasNumber(table, k) && HasNumber(table, k') && k != k' ==> table[k] != table[k'])
    && (forall n :: 0 <= n < variables ==> Numbers(table, n))
  }

  lemma BijectionOfTable(s: Study, b: Log, k: Key)
    requires Bijection(b) && (Assigned(b, k) <==> Present(s, k))
    ensures HasNumber(TableOf(b), k) <==> Present(s, k)
    ensures HasNumber(TableOf(b), k) <==> Assigned(b, k)
  {
    if k in TableOf(b) && !Assigned(b, k) {
      assert TableOf(b)[k] == -1;
    }
  }

  lemma TableIsOneToOne(s: Study)
    requires DistinctNumbers(s)
    ensures NumbersOneToOne(s, TableOf(Requests(s)), CountOf(Requests(s)))
  {
    var b := Requests(s);
    var table := TableOf(b);
    NumbersAreABijection(s);
    forall k
      ensures HasNumber(table, k) <==> Present(s, k)
      ensures HasNumber(table, k) <==> Assigned(b, k)
    {
      NumberedExactlyWhenPresent(s, k);
      BijectionOfTable(s, b, k);
    }
    forall n | 0 <= n < CountOf(b)
      ensures Numbers(table, n)
    {
      assert Used(b, n);
      var k :| Assigned(b, k) && k in table && table[k] == n;
      assert HasNumber(table, k);
    }
  }
}
