// Names of constraints: how the optimisation prints them, and how the analysis of an infeasible
// problem takes them apart again.

module ConstraintNames {

  datatype Option<T> = None | Some(value: T)

  datatype Error = OutOfRange | NoLeftBracket | NoRightBracket | NothingBetweenBrackets

  datatype Result<T> = Ok(value: T) | Err(error: Error)

  // ----- Searching -------------------------------------------------------------------------------

  predicate SeparatorAt(s: string, i: int) {
    0 <= i && i + 1 < |s| && s[i] == ':' && s[i + 1] == ':'
  }

  // The first separator from a position on (see FindIsFirst).
  function Find(s: string, pos: nat): (r: Option<nat>)
    requires pos <= |s|
    ensures r.Some? ==> pos <= r.value && SeparatorAt(s, r.value)
    decreases |s| - pos
  {
    if pos + 1 >= |s| then None
    else if SeparatorAt(s, pos) then Some(pos)
    else Find(s, pos + 1)
  }

  lemma {:induction false} FindIsFirst(s: string, pos: nat)
    requires pos <= |s|
    ensures Find(s, pos).Some? ==> forall k :: pos <= k < Find(s, pos).value ==> !SeparatorAt(s, k)
    ensures Find(s, pos).None? ==> forall k :: pos <= k ==> !SeparatorAt(s, k)
    decreases |s| - pos
  {
    if pos + 1 < |s| && !SeparatorAt(s, pos) {
      FindIsFirst(s, pos + 1);
    }
  }

  // The first place of a character, or the length.
  function IndexOf(s: string, c: char, pos: nat): (i: nat)
    requires pos <= |s|
    ensures pos <= i <= |s| && (forall k :: pos <= k < i ==> s[k] != c) && (i < |s| ==> s[i] == c)
    decreases |s| - pos
  {
    if pos == |s| || s[pos] == c then pos else IndexOf(s, c, pos + 1)
  }

  // ----- Printing --------------------------------------------------------------------------------

  datatype Granularity = Hour | Day | Week
  {
    function Unit(): string {
      match this
      case Hour => "hour"
      case Day => "day"
      case Week => "week"
    }

    function Adverb(): string {
      match this
      case Hour => "hourly"
      case Day => "daily"
      case Week => "weekly"
    }
  }

  function Digit(n: nat): char
    requires n < 10
  {
    "0123456789"[n]
  }

  function ToString(n: nat): string {
    if n < 10 then [Digit(n)] else ToString(n / 10) + [Digit(n % 10)]
  }

  // Spaces become stars.
  function Stars(s: string): (t: string)
    ensures |t| == |s| && forall i :: 0 <= i < |s| ==> t[i] == if s[i] == ' ' then '*' else s[i]
  {
    seq(|s|, i requires 0 <= i < |s| => if s[i] == ' ' then '*' else s[i])
  }

  function TimeIdentifier(timeStep: nat, unit: string): string {
    unit + "<" + ToString(timeStep) + ">"
  }

  function LocationIdentifier(location: string, kind: string): string {
    kind + "<" + location + ">"
  }

  function BuildName(name: string, location: string, time: string): string {
    Stars(name + "::" + location + "::" + time)
  }

  class ConstraintNamer {
    var timeStep: nat
    var area: string
    const target: array<string>

    constructor (target: array<string>)
      ensures this.target == target && timeStep == 0 && area == ""
    {
      this.target := target;
      timeStep, area := 0, "";
    }

    method UpdateTimeStep(step: nat)
      modifies this`timeStep
      ensures timeStep == step
    {
      timeStep := step;
    }

    method UpdateArea(name: string)
      modifies this`area
      ensures area == name
    {
      area := name;
    }

    method UpdateTargetAtIndex(name: string, index: nat)
      requires index < target.Length
      modifies target
      ensures target[..] == old(target[..])[index := name]
    {
      target[index] := name;
    }

    method SetAreaElementName(element: nat, kind: string, unit: string)
      requires element < target.Length
      modifies target
      ensures target[..] ==
              old(target[..])[element := BuildName(kind, LocationIdentifier(area, "area"),
                                                   TimeIdentifier(timeStep, unit))]
    {
      UpdateTargetAtIndex(BuildName(kind, LocationIdentifier(area, "area"), TimeIdentifier(timeStep, unit)), element);
    }

    method FictiveLoads(constraint: nat)
      requires constraint < target.Length
      modifies target
      ensures target[..] == old(target[..])[constraint := AreaName(FictitiousLoad, area, timeStep)]
    {
      SetAreaElementName(constraint, "FictiveLoads", "hour");
    }

    method AreaHydroLevel(constraint: nat)
      requires constraint < target.Length
      modifies target
      ensures target[..] == old(target[..])[constraint := AreaName(HydroLevel, area, timeStep)]
    {
      SetAreaElementName(constraint, "AreaHydroLevel", "hour");
    }

    method NameWithTimeGranularity(constraint: nat, name: string, g: Granularity)
      requires constraint < target.Length
      modifies target
      ensures target[..] == old(target[..])[constraint := BindingName(name, g, timeStep)]
    {
      UpdateTargetAtIndex(BuildName(name, g.Adverb(), TimeIdentifier(timeStep, g.Unit())), constraint);
    }
  }

  datatype AreaKind = FictitiousLoad | HydroLevel
  {
    function Prefix(): string {
      if FictitiousLoad? then "FictiveLoads" else "AreaHydroLevel"
    }
  }

  function AreaName(kind: AreaKind, area: string, timeStep: nat): string {
    BuildName(kind.Prefix(), LocationIdentifier(area, "area"), TimeIdentifier(timeStep, "hour"))
  }

  function BindingName(name: string, g: Granularity, timeStep: nat): string {
    BuildName(name, g.Adverb(), TimeIdentifier(timeStep, g.Unit()))
  }

  // The slack of a constraint is named after it.
  function SlackName(constraint: string, upper: bool): string {
    constraint + if upper then "::up" else "::low"
  }

  // ----- Taking a name apart ----------------------------------------------------------------------

  function Split(s: string, pos: nat): seq<string>
    decreases |s| - pos
  {
    if pos >= |s| then []
    else
      match Find(s, pos)
      case None => [s[pos..]]
      case Some(next) => (if next > pos then [s[pos..next]] else []) + Split(s, next + 2)
  }

  datatype ConstraintType = Binding(granularity: Granularity) | OfArea(kind: AreaKind) | Other

  function At(items: seq<string>, i: int): Result<string> {
    if 0 <= i < |items| then Ok(items[i]) else Err(OutOfRange)
  }

  function TypeOf(items: seq<string>): Result<ConstraintType> {
    if |items| <= 1 then Err(OutOfRange)
    else if items[1] == "hourly" then Ok(Binding(Hour))
    else if items[1] == "daily" then Ok(Binding(Day))
    else if items[1] == "weekly" then Ok(Binding(Week))
    else if items[0] == "FictiveLoads" then Ok(OfArea(FictitiousLoad))
    else if items[0] == "AreaHydroLevel" then Ok(OfArea(HydroLevel))
    else Ok(Other)
  }

  // What stands between the first '<' and the first '>'.
  function StringBetweenAngleBrackets(s: string): Result<string> {
    var left, right := IndexOf(s, '<', 0), IndexOf(s, '>', 0);
    if left == |s| then Err(NoLeftBracket)
    else if right == |s| then Err(NoRightBracket)
    else if right - left <= 1 then Err(NothingBetweenBrackets)
    else Ok(s[left + 1..right])
  }

  function AreaOf(items: seq<string>): Result<string> {
    match TypeOf(items)
    case Err(e) => Err(e)
    case Ok(t) => if t.Binding? then Ok("<none>") else StringBetweenAngleBrackets(items[1])
  }

  function TimeStepOf(items: seq<string>): Result<string> {
    match TypeOf(items)
    case Err(e) => Err(e)
    case Ok(t) =>
      if t == Binding(Hour) || t == Binding(Day) || t.OfArea? then StringBetweenAngleBrackets(items[|items| - 2])
      else Ok("-1")
  }

  function BindingOf(items: seq<string>): Result<string> {
    match TypeOf(items)
    case Err(e) => Err(e)
    case Ok(t) => if t.Binding? then Ok(items[0]) else Ok("<unknown>")
  }

  class Constraint {
    const input: string
    var items: seq<string>

    constructor (input: string)
      ensures this.input == input && items == []
    {
      this.input := input;
      items := [];
    }

    method ExtractItems() returns (n: nat)
      modifies this`items
      ensures items == old(items) + Split(input, 0) && n == |items|
    {
      var pos := 0;
      while pos < |input|
        invariant items + Split(input, pos) == old(items) + Split(input, 0)
      {
        match Find(input, pos) {
          case None =>
            items := items + [input[pos..]];
            break;
          case Some(newPos) =>
            if newPos > pos {
              items := items + [input[pos..newPos]];
            }
            pos := newPos + 2;
        }
      }
      n := |items|;
    }

    function GetType(): Result<ConstraintType>
      reads this
    {
      TypeOf(items)
    }

    function GetAreaName(): Result<string>
      reads this
    {
      AreaOf(items)
    }

    function GetTimeStepInYear(): Result<string>
      reads this
    {
      TimeStepOf(items)
    }

    function GetBindingConstraintName(): Result<string>
      reads this
    {
      BindingOf(items)
    }
  }
}
