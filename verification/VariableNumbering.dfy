// The variables of the weekly linear problem: the pass that numbers them one by one, and the
// pass that counts them beforehand to size the arrays.

module VariableNumbering {

  const LAYERS := 100

  datatype Smoothing = NoSmoothing | SumOfVariations | LargestVariation

  // clusters and storages are numbers of the area's clusters and storages in the whole study
  datatype Area = Area(clusters: seq<nat>, storages: seq<nat>, hydro: bool, pumping: bool, levels: bool,
                       waterValue: bool)

  // hurdles says of each link whether it has hurdle costs
  datatype Study = Study(steps: nat, hurdles: seq<bool>, areas: seq<Area>, smoothing: Smoothing, startUp: bool)

  // A place of the correspondence tables.
  datatype Key =
    | Flow(step: int, link: int) | DirectCost(step: int, link: int) | IndirectCost(step: int, link: int)
    | Thermal(step: int, cluster: int)
    | Injection(step: int, storage: int) | Withdrawal(step: int, storage: int) | Level(step: int, storage: int)
    | Unsupplied(step: int, area: int) | Spilled(step: int, area: int)
    | HydProd(step: int, area: int) | HydDown(step: int, area: int) | HydUp(step: int, area: int)
    | Pumping(step: int, area: int) | HydroLevel(step: int, area: int) | Overflow(step: int, area: int)
    | FinalStock(area: int) | Layer(area: int, layer: int)
    | UnitsOn(step: int, cluster: int) | UnitsStarting(step: int, cluster: int)
    | UnitsStopping(step: int, cluster: int) | UnitsFailing(step: int, cluster: int)

  // Give this place the next number, or mark it as having no variable.
  datatype Request = Assign(key: Key) | Absent(key: Key)

  // Requests one after the other.
  datatype Log = Nothing | Then(before: Log, last: Request)

  // ----- The effect of the requests ----------------------------------------------------------------

  ghost function CountOf(log: Log): nat {
    match log
    case Nothing => 0
    case Then(before, last) => CountOf(before) + if last.Assign? then 1 else 0
  }

  ghost function TableOf(log: Log): map<Key, int> {
    match log
    case Nothing => map[]
    case Then(before, last) => TableOf(before)[last.key := if last.Assign? then CountOf(before) else -1]
  }

  ghost function Given(log: Log, key: Key): Log { Then(log, Assign(key)) }
  ghost function Denied(log: Log, key: Key): Log { Then(log, Absent(key)) }

  ghost function GivenIf(log: Log, present: bool, key: Key): Log {
    if present then Given(log, key) else Denied(log, key)
  }

  // ----- The requests, in the order of the code, each list continuing the one it is given ----------

  ghost function AfterLink(b: Log, t: int, link: int, hurdle: bool): Log {
    var flow := Given(b, Flow(t, link));
    if hurdle then Given(Given(flow, DirectCost(t, link)), IndirectCost(t, link)) else flow
  }

  ghost function AfterLinks(b: Log, s: Study, t: int, links: nat): Log
    requires links <= |s.hurdles|
  {
    if links == 0 then b else AfterLink(AfterLinks(b, s, t, links - 1), t, links - 1, s.hurdles[links - 1])
  }

  ghost function AfterClusters(b: Log, t: int, clusters: seq<nat>, count: nat): Log
    requires count <= |clusters|
  {
    if count == 0 then b else Given(AfterClusters(b, t, clusters, count - 1), Thermal(t, clusters[count - 1]))
  }

  ghost function AfterStorage(b: Log, t: int, storage: int): Log {
    Given(Given(Given(b, Injection(t, storage)), Withdrawal(t, storage)), Level(t, storage))
  }

  ghost function AfterStorages(b: Log, t: int, storages: seq<nat>, count: nat): Log
    requires count <= |storages|
  {
    if count == 0 then b else AfterStorage(AfterStorages(b, t, storages, count - 1), t, storages[count - 1])
  }

  ghost function AfterSupply(b: Log, t: int, a: int, area: Area): Log {
    var clusters := AfterClusters(b, t, area.clusters, |area.clusters|);
    var storages := AfterStorages(clusters, t, area.storages, |area.storages|);
    Given(Given(storages, Unsupplied(t, a)), Spilled(t, a))
  }

  ghost function AfterSupplies(b: Log, s: Study, t: int, areas: nat): Log
    requires areas <= |s.areas|
  {
    if areas == 0 then b else AfterSupply(AfterSupplies(b, s, t, areas - 1), t, areas - 1, s.areas[areas - 1])
  }

  predicate Varies(smoothing: Smoothing, t: int, area: Area) {
    area.hydro && (smoothing.SumOfVariations? || (smoothing.LargestVariation? && t == 0))
  }

  ghost function AfterVariations(b: Log, smoothing: Smoothing, t: int, a: int, area: Area): Log {
    var denied := Denied(Denied(GivenIf(b, area.hydro, HydProd(t, a)), HydDown(t, a)), HydUp(t, a));
    if Varies(smoothing, t, area) then Given(Given(denied, HydDown(t, a)), HydUp(t, a)) else denied
  }

  ghost function AfterHydro(b: Log, smoothing: Smoothing, t: int, a: int, area: Area): Log {
    GivenIf(GivenIf(GivenIf(AfterVariations(b, smoothing, t, a, area), area.pumping, Pumping(t, a)),
                    area.levels, HydroLevel(t, a)),
            area.levels, Overflow(t, a))
  }

  ghost function AfterHydros(b: Log, s: Study, t: int, areas: nat): Log
    requires areas <= |s.areas|
  {
    if areas == 0 then b
    else AfterHydro(AfterHydros(b, s, t, areas - 1), s.smoothing, t, areas - 1, s.areas[areas - 1])
  }

  ghost function AfterStep(b: Log, s: Study, t: int): Log {
    AfterHydros(AfterSupplies(AfterLinks(b, s, t, |s.hurdles|), s, t, |s.areas|), s, t, |s.areas|)
  }

  ghost function AfterSteps(s: Study, steps: nat): Log {
    if steps == 0 then Nothing else AfterStep(AfterSteps(s, steps - 1), s, steps - 1)
  }

  ghost function AfterLayers(b: Log, a: int, present: bool, layers: nat): Log {
    if layers == 0 then b else GivenIf(AfterLayers(b, a, present, layers - 1), present, Layer(a, layers - 1))
  }

  ghost function AfterWater(b: Log, a: int, present: bool): Log {
    AfterLayers(GivenIf(b, present, FinalStock(a)), a, present, LAYERS)
  }

  ghost function AfterWaters(b: Log, s: Study, areas: nat): Log
    requires areas <= |s.areas|
  {
    if areas == 0 then b else AfterWater(AfterWaters(b, s, areas - 1), areas - 1, s.areas[areas - 1].waterValue)
  }

  ghost function AfterUnits(b: Log, t: int, cluster: int): Log {
    Given(Given(Given(Given(b, UnitsOn(t, cluster)), UnitsStarting(t, cluster)), UnitsStopping(t, cluster)),
          UnitsFailing(t, cluster))
  }

  ghost function AfterStartUps(b: Log, cluster: int, steps: nat): Log {
    if steps == 0 then b else AfterUnits(AfterStartUps(b, cluster, steps - 1), steps - 1, cluster)
  }

  ghost function AfterAreaStartUps(b: Log, clusters: seq<nat>, steps: nat, count: nat): Log
    requires count <= |clusters|
  {
    if count == 0 then b
    else AfterStartUps(AfterAreaStartUps(b, clusters, steps, count - 1), clusters[count - 1], steps)
  }

  ghost function AfterAllStartUps(b: Log, s: Study, areas: nat): Log
    requires areas <= |s.areas|
  {
    if areas == 0 then b
    else
      var clusters := s.areas[areas - 1].clusters;
      AfterAreaStartUps(AfterAllStartUps(b, s, areas - 1), clusters, s.steps, |clusters|)
  }

  ghost function Requests(s: Study): Log {
    var water := AfterWaters(AfterSteps(s, s.steps), s, |s.areas|);
    if s.startUp then AfterAllStartUps(water, s, |s.areas|) else water
  }

  // ----- The numbering pass ----------------------------------------------------------------------

  class Numbering {
    var table: map<Key, int>
    var variables: nat
    ghost var done: Log

    ghost predicate Valid()
      reads this
    {
      table == TableOf(done) && variables == CountOf(done)
    }

    constructor ()
      ensures Valid() && done == Nothing
    {
      table, variables, done := map[], 0, Nothing;
    }

    method Give(key: Key)
      requires Valid()
      modifies this
      ensures Valid() && done == Given(old(done), key)
    {
      table := table[key := variables];
      variables := variables + 1;
      done := Given(done, key);
    }

    method Deny(key: Key)
      requires Valid()
      modifies this
      ensures Valid() && done == Denied(old(done), key)
    {
      table := table[key := -1];
      done := Denied(done, key);
    }

    method GiveIf(present: bool, key: Key)
      requires Valid()
      modifies this
      ensures Valid() && done == GivenIf(old(done), present, key)
    {
      if present {
        Give(key);
      } else {
        Deny(key);
      }
    }

    method NumberLinks(s: Study, t: nat)
      requires Valid()
      modifies this
      ensures Valid() && done == AfterLinks(old(done), s, t, |s.hurdles|)
    {
      for link := 0 to |s.hurdles|
        invariant Valid() && done == AfterLinks(old(done), s, t, link)
      {
        Give(Flow(t, link));
        if s.hurdles[link] {
          Give(DirectCost(t, link));
          Give(IndirectCost(t, link));
        }
      }
    }

    method NumberSupply(t: nat, a: nat, area: Area)
      requires Valid()
      modifies this
      ensures Valid() && done == AfterSupply(old(done), t, a, area)
    {
      for i := 0 to |area.clusters|
        invariant Valid() && done == AfterClusters(old(done), t, area.clusters, i)
      {
        Give(Thermal(t, area.clusters[i]));
      }
      ghost var before := done;
      for i := 0 to |area.storages|
        invariant Valid() && done == AfterStorages(before, t, area.storages, i)
      {
        var storage := area.storages[i];
        Give(Injection(t, storage));
        Give(Withdrawal(t, storage));
        Give(Level(t, storage));
      }
      Give(Unsupplied(t, a));
      Give(Spilled(t, a));
    }

    method NumberHydro(smoothing: Smoothing, t: nat, a: nat, area: Area)
      requires Valid()
      modifies this
      ensures Valid() && done == AfterHydro(old(done), smoothing, t, a, area)
    {
      GiveIf(area.hydro, HydProd(t, a));
      Deny(HydDown(t, a));
      Deny(HydUp(t, a));
      if smoothing.SumOfVariations? {
        if area.hydro {
          Give(HydDown(t, a));
          Give(HydUp(t, a));
        }
      } else if smoothing.LargestVariation? && area.hydro && t == 0 {
        Give(HydDown(t, a));
        Give(HydUp(t, a));
      }
      assert done == AfterVariations(old(done), smoothing, t, a, area);
      GiveIf(area.pumping, Pumping(t, a));
      GiveIf(area.levels, HydroLevel(t, a));
      GiveIf(area.levels, Overflow(t, a));
    }

    method NumberSupplies(s: Study, t: nat)
      requires Valid()
      modifies this
      ensures Valid() && done == AfterSupplies(old(done), s, t, |s.areas|)
    {
      for a := 0 to |s.areas|
        invariant Valid() && done == AfterSupplies(old(done), s, t, a)
      {
        NumberSupply(t, a, s.areas[a]);
      }
    }

    method NumberHydros(s: Study, t: nat)
      requires Valid()
      modifies this
      ensures Valid() && done == AfterHydros(old(done), s, t, |s.areas|)
    {
      for a := 0 to |s.areas|
        invariant Valid() && done == AfterHydros(old(done), s, t, a)
      {
        NumberHydro(s.smoothing, t, a, s.areas[a]);
      }
    }

    method NumberStep(s: Study, t: nat)
      requires Valid()
      modifies this
      ensures Valid() && done == AfterStep(old(done), s, t)
    {
      NumberLinks(s, t);
      NumberSupplies(s, t);
      NumberHydros(s, t);
    }

    method NumberWater(a: nat, present: bool)
      requires Valid()
      modifies this
      ensures Valid() && done == AfterWater(old(done), a, present)
    {
      GiveIf(present, FinalStock(a));
      ghost var before := done;
      for layer := 0 to LAYERS
        invariant Valid() && done == AfterLayers(before, a, present, layer)
      {
        GiveIf(present, Layer(a, layer));
      }
    }

    method NumberStartUps(cluster: nat, steps: nat)
      requires Valid()
      modifies this
      ensures Valid() && done == AfterStartUps(old(done), cluster, steps)
    {
      for t := 0 to steps
        invariant Valid() && done == AfterStartUps(old(done), cluster, t)
      {
        Give(UnitsOn(t, cluster));
        Give(UnitsStarting(t, cluster));
        Give(UnitsStopping(t, cluster));
        Give(UnitsFailing(t, cluster));
      }
    }

    method NumberAreaStartUps(clusters: seq<nat>, steps: nat)
      requires Valid()
      modifies this
      ensures Valid() && done == AfterAreaStartUps(old(done), clusters, steps, |clusters|)
    {
      for i := 0 to |clusters|
        invariant Valid() && done == AfterAreaStartUps(old(done), clusters, steps, i)
      {
        NumberStartUps(clusters[i], steps);
      }
    }

    method NumberSteps(s: Study)
      requires Valid() && done == Nothing
      modifies this
      ensures Valid() && done == AfterSteps(s, s.steps)
    {
      for t := 0 to s.steps
        invariant Valid() && done == AfterSteps(s, t)
      {
        NumberStep(s, t);
      }
    }

    method NumberWaters(s: Study)
      requires Valid()
      modifies this
      ensures Valid() && done == AfterWaters(old(done), s, |s.areas|)
    {
      for a := 0 to |s.areas|
        invariant Valid() && done == AfterWaters(old(done), s, a)
      {
        NumberWater(a, s.areas[a].waterValue);
      }
    }

    method NumberAllStartUps(s: Study)
      requires Valid()
      modifies this
      ensures Valid() && done == AfterAllStartUps(old(done), s, |s.areas|)
    {
      for a := 0 to |s.areas|
        invariant Valid() && done == AfterAllStartUps(old(done), s, a)
      {
        NumberAreaStartUps(s.areas[a].clusters, s.steps);
      }
    }

    // Numbers every variable of the study.
    method Number(s: Study)
      requires Valid() && done == Nothing
      modifies this
      ensures Valid() && done == Requests(s)
    {
      NumberSteps(s);
      NumberWaters(s);
      if s.startUp {
        NumberAllStartUps(s);
      }
    }
  }
}
