// Which printed constraint names come apart into what they were made of: how items are joined and
// found again, how numbers and bracketed names are read back, and what the analysis then reports.

module NameRoundTrip {
  import opened ConstraintNames

  predicate NoSeparator(s: string) {
    forall k :: 0 <= k < |s| ==> !SeparatorAt(s, k)
  }

  // A text that stands as one item in front of others.
  predicate Whole(s: string) {
    s != "" && NoSeparator(s) && s[|s| - 1] != ':'
  }

  // ----- Items in front of a separator and at the end -----------------------------------------------

  predicate Reads(s: string, pos: nat, item: string) {
    pos + |item| <= |s| && s[pos..pos + |item|] == item
  }

  lemma SeparatorsOfItem(s: string, pos: nat, item: string, k: nat)
    requires Reads(s, pos, item) && pos <= k && k + 1 < pos + |item|
    ensures SeparatorAt(s, k) <==> SeparatorAt(item, k - pos)
  {
    assert s[pos..pos + |item|][k - pos] == s[k] && s[pos..pos + |item|][k + 1 - pos] == s[k + 1];
  }

  lemma FindAfterItem(s: string, pos: nat, item: string)
    requires Reads(s, pos, item) && SeparatorAt(s, pos + |item|) && Whole(item)
    ensures Find(s, pos) == Some(pos + |item|)
  {
    var end := pos + |item|;
    forall k | pos <= k < end
      ensures !SeparatorAt(s, k)
    {
      if k + 1 < end {
        SeparatorsOfItem(s, pos, item, k);
      } else {
        assert s[pos..end][|item| - 1] == s[k];
      }
    }
    FindIsFirst(s, pos);
  }

  lemma NextItem(s: string, pos: nat, item: string)
    requires Reads(s, pos, item) && SeparatorAt(s, pos + |item|) && Whole(item)
    ensures Split(s, pos) == [item] + Split(s, pos + |item| + 2)
  {
    FindAfterItem(s, pos, item);
  }

  // Separators within a slice are those of the whole.
  lemma SeparatorsOfSlice(s: string, from: nat, to: nat)
    requires from <= to <= |s|
    ensures forall k :: SeparatorAt(s[from..to], k) <==> 0 <= k && from + k + 1 < to && SeparatorAt(s, from + k)
  {
    forall k
      ensures SeparatorAt(s[from..to], k) <==> 0 <= k && from + k + 1 < to && SeparatorAt(s, from + k)
    {
      if 0 <= k && from + k + 1 < to {
        assert s[from..to][k] == s[from + k] && s[from..to][k + 1] == s[from + k + 1];
      }
    }
  }

  lemma LastItem(s: string, pos: nat, item: string)
    requires Reads(s, pos, item) && pos + |item| == |s| && item != "" && NoSeparator(item)
    ensures Split(s, pos) == [item]
  {
    forall k | pos <= k
      ensures !SeparatorAt(s, k)
    {
      if k + 1 < |s| {
        SeparatorsOfItem(s, pos, item, k);
      }
    }
    FindIsFirst(s, pos);
    assert Find(s, pos) == None;
    assert s[pos..] == item;
  }

  lemma AtEnd(s: string, a: string, b: string)
    requires s == a + "::" + b
    ensures Reads(s, 0, a) && SeparatorAt(s, |a|) && Reads(s, |a| + 2, b) && |s| == |a| + 2 + |b|
  {
    assert s[|a|] == ':' && s[|a| + 1] == ':';
  }

  lemma ReadsInside(s: string, pos: nat, t: string, at: nat, item: string)
    requires Reads(s, pos, t) && Reads(t, at, item)
    ensures Reads(s, pos + at, item)
  {
    var part := s[pos + at..pos + at + |item|];
    forall i | 0 <= i < |item|
      ensures part[i] == item[i]
    {
      assert s[pos..pos + |t|][at + i] == s[pos + at + i];
      assert t[at..at + |item|][i] == t[at + i];
    }
    assert part == item;
  }

  // A text, a separator and the rest, somewhere in a name.
  lemma Layout(s: string, pos: nat, t: string, a: string, b: string)
    requires Reads(s, pos, t) && t == a + "::" + b
    ensures Reads(s, pos, a) && SeparatorAt(s, pos + |a|) && Reads(s, pos + |a| + 2, b)
  {
    AtEnd(t, a, b);
    ReadsInside(s, pos, t, 0, a);
    ReadsInside(s, pos, t, |a| + 2, b);
    SeparatorsOfItem(s, pos, t, pos + |a|);
  }

  ghost predicate AllWhole(items: seq<string>) {
    forall i :: 0 <= i < |items| ==> Whole(items[i])
  }

  function Join(items: seq<string>): string {
    if |items| == 0 then "" else if |items| == 1 then items[0] else items[0] + "::" + Join(items[1..])
  }

  lemma FirstOfJoin(s: string, pos: nat, items: seq<string>)
    requires 1 < |items| && Whole(items[0]) && Reads(s, pos, Join(items))
    ensures Split(s, pos) == [items[0]] + Split(s, pos + |items[0]| + 2)
    ensures Reads(s, pos + |items[0]| + 2, Join(items[1..]))
    ensures |Join(items)| == |items[0]| + 2 + |Join(items[1..])|
  {
    Layout(s, pos, Join(items), items[0], Join(items[1..]));
    NextItem(s, pos, items[0]);
  }

  // Whole items that were joined come apart again.
  lemma {:induction false} SplitOfJoin(s: string, pos: nat, items: seq<string>)
    requires 0 < |items| && AllWhole(items) && Reads(s, pos, Join(items)) && pos + |Join(items)| == |s|
    ensures Split(s, pos) == items
    decreases |items|
  {
    assert Whole(items[0]);
    if |items| == 1 {
      LastItem(s, pos, items[0]);
    } else {
      FirstOfJoin(s, pos, items);
      SplitOfJoin(s, pos + |items[0]| + 2, items[1..]);
      assert items == [items[0]] + items[1..];
    }
  }

  lemma SliceHasNoSeparator(s: string, from: nat, to: nat)
    requires from <= to <= |s| && forall k :: from <= k < to - 1 ==> !SeparatorAt(s, k)
    ensures NoSeparator(s[from..to])
  {
    SeparatorsOfSlice(s, from, to);
  }

  // Whatever is taken apart, unless it ends with ':', all its items are whole.
  lemma {:induction false} ItemsAreWhole(s: string, pos: nat)
    requires s != "" && s[|s| - 1] != ':'
    ensures AllWhole(Split(s, pos))
    decreases |s| - pos
  {
    if pos < |s| {
      FindIsFirst(s, pos);
      match Find(s, pos)
      case None =>
        SliceHasNoSeparator(s, pos, |s|);
        assert s[pos..|s|] == s[pos..];
        assert Whole(s[pos..]);
      case Some(next) =>
        ItemsAreWhole(s, next + 2);
        if next > pos {
          SliceHasNoSeparator(s, pos, next);
          assert !SeparatorAt(s, next - 1);
          assert Whole(s[pos..next]);
        }
    }
  }

  // ----- Numbers and labels ------------------------------------------------------------------------------

  predicate IsDigit(c: char) {
    '0' <= c <= '9'
  }

  lemma {:induction false} NumbersAreDigits(n: nat)
    ensures ToString(n) != "" && forall i :: 0 <= i < |ToString(n)| ==> IsDigit(ToString(n)[i])
  {
    if n >= 10 {
      NumbersAreDigits(n / 10);
    }
  }

  function Value(s: string): nat {
    if s == "" then 0 else Value(s[..|s| - 1]) * 10 + if IsDigit(s[|s| - 1]) then (s[|s| - 1] - '0') as nat else 0
  }

  // A number is read back as it was printed.
  lemma {:induction false} NumbersRoundTrip(n: nat)
    ensures Value(ToString(n)) == n
  {
    var s := ToString(n);
    if n >= 10 {
      NumbersRoundTrip(n / 10);
      assert s[..|s| - 1] == ToString(n / 10);
    } else {
      assert s[..0] == "";
    }
  }

  lemma StarsKeepsSpaceless(s: string)
    requires forall i :: 0 <= i < |s| ==> s[i] != ' '
    ensures Stars(s) == s
  {
  }

  lemma StarsOfParts(a: string, b: string)
    ensures Stars(a + b) == Stars(a) + Stars(b)
  {
  }

  lemma StarsKeepsWhole(s: string)
    ensures Whole(Stars(s)) <==> Whole(s)
    ensures NoSeparator(Stars(s)) <==> NoSeparator(s)
  {
    forall k | 0 <= k < |s|
      ensures SeparatorAt(Stars(s), k) <==> SeparatorAt(s, k)
    {
    }
  }

  lemma BuildNameParts(name: string, location: string, time: string)
    ensures BuildName(name, location, time) == Stars(name) + "::" + Stars(location) + "::" + Stars(time)
  {
    StarsKeepsSpaceless("::");
    StarsOfParts(name + "::" + location + "::", time);
    StarsOfParts(name + "::" + location, "::");
    StarsOfParts(name + "::", location);
    StarsOfParts(name, "::");
  }

  // Text in angle brackets after a word.
  lemma Bracketed(word: string, inside: string)
    requires Whole(word) && forall i :: 0 <= i < |word| ==> word[i] != '<' && word[i] != '>'
    ensures var s := word + "<" + inside + ">";
      && (NoSeparator(inside) <==> Whole(s))
      && (inside != "" && '>' !in inside <==> StringBetweenAngleBrackets(s) == Ok(inside))
  {
    BracketedSeparators(word, inside);
    BracketedText(word, inside);
  }

  lemma BracketPlaces(word: string, inside: string)
    requires forall i :: 0 <= i < |word| ==> word[i] != '<' && word[i] != '>'
    ensures var s, n := word + "<" + inside + ">", |word|;
      && IndexOf(s, '<', 0) == n
      && n < IndexOf(s, '>', 0) <= n + 1 + |inside|
      && (IndexOf(s, '>', 0) == n + 1 + |inside| <==> '>' !in inside)
  {
    var s, n := word + "<" + inside + ">", |word|;
    assert s[n] == '<' && s[n + 1 + |inside|] == '>';
    assert forall i :: 0 <= i < |inside| ==> s[n + 1 + i] == inside[i];
    assert forall i :: 0 <= i < n ==> s[i] == word[i];
    var right := IndexOf(s, '>', 0);
    if '>' in inside {
      var i :| 0 <= i < |inside| && inside[i] == '>';
      assert s[n + 1 + i] == '>';
    }
  }

  lemma BracketedText(word: string, inside: string)
    requires forall i :: 0 <= i < |word| ==> word[i] != '<' && word[i] != '>'
    ensures var s := word + "<" + inside + ">";
      inside != "" && '>' !in inside <==> StringBetweenAngleBrackets(s) == Ok(inside)
  {
    var s, n := word + "<" + inside + ">", |word|;
    BracketPlaces(word, inside);
    assert s[n + 1..n + 1 + |inside|] == inside;
  }

  lemma BracketedSeparators(word: string, inside: string)
    requires Whole(word)
    ensures NoSeparator(inside) <==> Whole(word + "<" + inside + ">")
  {
    var s, n := word + "<" + inside + ">", |word|;
    assert s[n] == '<' && s[n + 1 + |inside|] == '>' && |s| == n + 2 + |inside|;
    assert forall i :: 0 <= i < |inside| ==> s[n + 1 + i] == inside[i];
    assert forall i :: 0 <= i < n ==> s[i] == word[i];
    if NoSeparator(inside) {
      forall k | 0 <= k < |s|
        ensures !SeparatorAt(s, k)
      {
        if k + 1 < n {
          assert !SeparatorAt(word, k);
        } else if n < k < n + |inside| {
          assert !SeparatorAt(inside, k - n - 1);
        }
      }
    } else {
      var k :| 0 <= k < |inside| && SeparatorAt(inside, k);
      assert SeparatorAt(s, n + 1 + k);
    }
  }

  lemma TimeItem(timeStep: nat, unit: string)
    requires Whole(unit) && forall i :: 0 <= i < |unit| ==> unit[i] != '<' && unit[i] != '>' && unit[i] != ' '
    ensures Stars(TimeIdentifier(timeStep, unit)) == TimeIdentifier(timeStep, unit)
    ensures Whole(TimeIdentifier(timeStep, unit))
    ensures StringBetweenAngleBrackets(TimeIdentifier(timeStep, unit)) == Ok(ToString(timeStep))
  {
    NumbersAreDigits(timeStep);
    var number := ToString(timeStep);
    var s := TimeIdentifier(timeStep, unit);
    assert forall i :: 0 <= i < |number| ==> IsDigit(number[i]);
    assert NoSeparator(number);
    assert '>' !in number;
    Bracketed(unit, number);
    assert forall i :: 0 <= i < |s| ==> s[i] != ' ';
    StarsKeepsSpaceless(s);
  }

  function Suffix(upper: bool): string {
    if upper then "up" else "low"
  }

  lemma JoinFour(a: string, b: string, c: string, d: string)
    ensures Join([a, b, c, d]) == a + "::" + (b + "::" + (c + "::" + d))
  {
    assert [a, b, c, d][1..] == [b, c, d] && [b, c, d][1..] == [c, d] && [c, d][1..] == [d];
    assert Join([d]) == d;
    assert Join([c, d]) == c + "::" + d;
    assert Join([b, c, d]) == b + "::" + Join([c, d]);
  }

  lemma Regroup(a: string, b: string, c: string, d: string)
    ensures a + "::" + b + "::" + c + "::" + d == a + "::" + (b + "::" + (c + "::" + d))
  {
  }

  lemma SuffixIsWhole(upper: bool)
    ensures Whole(Suffix(upper)) && forall s :: SlackName(s, upper) == s + "::" + Suffix(upper)
  {
    forall s
      ensures SlackName(s, upper) == s + "::" + Suffix(upper)
    {
      assert "::" + Suffix(upper) == if upper then "::up" else "::low";
      assert s + ("::" + Suffix(upper)) == s + "::" + Suffix(upper);
    }
  }

  // The slack of a constraint printed from its parts.
  lemma PrintedParts(name: string, location: string, time: string, upper: bool)
    ensures SlackName(BuildName(name, location, time), upper)
         == Join([Stars(name), Stars(location), Stars(time), Suffix(upper)])
  {
    BuildNameParts(name, location, time);
    SuffixIsWhole(upper);
    Regroup(Stars(name), Stars(location), Stars(time), Suffix(upper));
    JoinFour(Stars(name), Stars(location), Stars(time), Suffix(upper));
  }

  lemma SplitPrinted(name: string, location: string, time: string, upper: bool)
    requires Whole(Stars(name)) && Whole(Stars(location)) && Whole(Stars(time))
    ensures Split(SlackName(BuildName(name, location, time), upper), 0)
         == [Stars(name), Stars(location), Stars(time), Suffix(upper)]
  {
    var s := SlackName(BuildName(name, location, time), upper);
    var items := [Stars(name), Stars(location), Stars(time), Suffix(upper)];
    PrintedParts(name, location, time, upper);
    SuffixIsWhole(upper);
    assert s[0..0 + |s|] == s;
    SplitOfJoin(s, 0, items);
  }

  // Whatever the parts, no item of a printed slack ends with ':' or holds a separator.
  lemma PrintedItemsAreWhole(name: string, location: string, time: string, upper: bool)
    ensures AllWhole(Split(SlackName(BuildName(name, location, time), upper), 0))
  {
    var built := BuildName(name, location, time);
    var s := SlackName(built, upper);
    assert s[|s| - 1] == if upper then 'p' else 'w';
    ItemsAreWhole(s, 0);
  }

  // ----- Binding constraints ---------------------------------------------------------------------

  ghost function BindingItems(name: string, g: Granularity, timeStep: nat, upper: bool): seq<string> {
    Split(SlackName(BindingName(name, g, timeStep), upper), 0)
  }

  lemma AdverbIsWhole(g: Granularity)
    ensures Whole(g.Adverb()) && Stars(g.Adverb()) == g.Adverb()
  {
    StarsKeepsSpaceless(g.Adverb());
  }

  lemma UnitIsPlain(g: Granularity)
    ensures Whole(g.Unit())
    ensures forall i :: 0 <= i < |g.Unit()| ==> g.Unit()[i] != '<' && g.Unit()[i] != '>' && g.Unit()[i] != ' '
  {
  }

  // A name that stands as one item comes back, with stars for spaces, together with what kind of
  // constraint it is and when; weekly ones have no time step.
  lemma BindingRoundTrip(name: string, g: Granularity, timeStep: nat, upper: bool)
    requires Whole(name)
    ensures TypeOf(BindingItems(name, g, timeStep, upper)) == Ok(Binding(g))
    ensures BindingOf(BindingItems(name, g, timeStep, upper)) == Ok(Stars(name))
    ensures AreaOf(BindingItems(name, g, timeStep, upper)) == Ok("<none>")
    ensures TimeStepOf(BindingItems(name, g, timeStep, upper)) == Ok(if g.Week? then "-1" else ToString(timeStep))
  {
    StarsKeepsWhole(name);
    AdverbIsWhole(g);
    UnitIsPlain(g);
    TimeItem(timeStep, g.Unit());
    SplitPrinted(name, g.Adverb(), TimeIdentifier(timeStep, g.Unit()), upper);
    assert BindingItems(name, g, timeStep, upper)
        == [Stars(name), g.Adverb(), TimeIdentifier(timeStep, g.Unit()), Suffix(upper)];
  }

  // Exactly the names that are not empty, hold no separator and do not end with ':' come back.
  lemma BindingNameRecoveredExactly(name: string, g: Granularity, timeStep: nat, upper: bool)
    ensures BindingOf(BindingItems(name, g, timeStep, upper)) == Ok(Stars(name)) <==> Whole(name)
  {
    if Whole(name) {
      BindingRoundTrip(name, g, timeStep, upper);
    } else {
      StarsKeepsWhole(name);
      PrintedItemsAreWhole(name, g.Adverb(), TimeIdentifier(timeStep, g.Unit()), upper);
      var items := BindingItems(name, g, timeStep, upper);
      assert Whole("<unknown>");
      assert 0 < |items| ==> Whole(items[0]);
    }
  }

  // ----- Constraints of an area --------------------------------------------------------------------

  ghost function AreaItems(kind: AreaKind, area: string, timeStep: nat, upper: bool): seq<string> {
    Split(SlackName(AreaName(kind, area, timeStep), upper), 0)
  }

  predicate Bracketable(s: string) {
    s != "" && NoSeparator(s) && '>' !in s
  }

  lemma KindIsWhole(kind: AreaKind)
    ensures Whole(kind.Prefix()) && Stars(kind.Prefix()) == kind.Prefix()
  {
    StarsKeepsSpaceless(kind.Prefix());
  }

  lemma StarsOfLocation(area: string)
    ensures Stars(LocationIdentifier(area, "area")) == LocationIdentifier(Stars(area), "area")
    ensures Bracketable(Stars(area)) <==> Bracketable(area)
  {
    StarsKeepsWhole(area);
    StarsKeepsSpaceless("area<");
    StarsKeepsSpaceless(">");
    assert "area" + "<" == "area<";
    StarsOfParts("area<" + area, ">");
    StarsOfParts("area<", area);
    if '>' in area {
      var i :| 0 <= i < |area| && area[i] == '>';
      assert Stars(area)[i] == '>';
    }
  }

  lemma ItemsOfArea(kind: AreaKind, area: string, timeStep: nat, upper: bool)
    requires Bracketable(area)
    ensures AreaItems(kind, area, timeStep, upper)
         == [kind.Prefix(), LocationIdentifier(Stars(area), "area"), TimeIdentifier(timeStep, "hour"), Suffix(upper)]
  {
    KindIsWhole(kind);
    StarsOfLocation(area);
    Bracketed("area", Stars(area));
    TimeItem(timeStep, "hour");
    SplitPrinted(kind.Prefix(), LocationIdentifier(area, "area"), TimeIdentifier(timeStep, "hour"), upper);
  }

  // The type of a constraint whose second item is no adverb.
  lemma TypeOfArea(items: seq<string>, kind: AreaKind)
    requires 1 < |items| && items[0] == kind.Prefix() && items[1] != "" && items[1][0] == 'a'
    ensures TypeOf(items) == Ok(OfArea(kind))
  {
    assert "hourly"[0] != 'a' && "daily"[0] != 'a' && "weekly"[0] != 'a';
    assert "FictiveLoads"[0] != "AreaHydroLevel"[0];
  }

  lemma LocationItem(area: string)
    requires Bracketable(area)
    ensures StringBetweenAngleBrackets(LocationIdentifier(Stars(area), "area")) == Ok(Stars(area))
    ensures LocationIdentifier(Stars(area), "area") != "" && LocationIdentifier(Stars(area), "area")[0] == 'a'
  {
    StarsOfLocation(area);
    Bracketed("area", Stars(area));
    assert LocationIdentifier(Stars(area), "area")[0] == "area"[0];
  }

  // What the getters find, once the items are known to be of an area.
  lemma GettersOfArea(items: seq<string>, kind: AreaKind)
    requires |items| == 4 && TypeOf(items) == Ok(OfArea(kind))
    ensures AreaOf(items) == StringBetweenAngleBrackets(items[1])
    ensures TimeStepOf(items) == StringBetweenAngleBrackets(items[2])
    ensures BindingOf(items) == Ok("<unknown>")
  {
  }

  lemma AreaRoundTrip(kind: AreaKind, area: string, timeStep: nat, upper: bool)
    requires Bracketable(area)
    ensures TypeOf(AreaItems(kind, area, timeStep, upper)) == Ok(OfArea(kind))
    ensures AreaOf(AreaItems(kind, area, timeStep, upper)) == Ok(Stars(area))
    ensures BindingOf(AreaItems(kind, area, timeStep, upper)) == Ok("<unknown>")
    ensures TimeStepOf(AreaItems(kind, area, timeStep, upper)) == Ok(ToString(timeStep))
  {
    ItemsOfArea(kind, area, timeStep, upper);
    LocationItem(area);
    TimeItem(timeStep, "hour");
    var items := AreaItems(kind, area, timeStep, upper);
    TypeOfArea(items, kind);
    GettersOfArea(items, kind);
  }

  lemma BetweenBracketsIsBracketable(s: string)
    requires NoSeparator(s) && StringBetweenAngleBrackets(s).Ok?
    ensures Bracketable(StringBetweenAngleBrackets(s).value)
  {
    var left, right := IndexOf(s, '<', 0), IndexOf(s, '>', 0);
    SliceHasNoSeparator(s, left + 1, right);
  }

  lemma StartOfSplit(s: string, pos: nat)
    requires pos < |s| && !SeparatorAt(s, pos)
    ensures 0 < |Split(s, pos)| && Split(s, pos)[0] != "" && Split(s, pos)[0][0] == s[pos]
  {
  }

  lemma SplitAfterFirst(s: string, first: string, tail: string)
    requires s == first + "::" + tail && Whole(first) && 1 < |tail| && tail[0] != ':'
    ensures 1 < |Split(s, 0)| && Split(s, 0)[0] == first && Split(s, 0)[1] != "" && Split(s, 0)[1][0] == tail[0]
  {
    AtEnd(s, first, tail);
    var at := |first| + 2;
    assert s[at..at + |tail|][0] == s[at];
    NextItem(s, 0, first);
    StartOfSplit(s, at);
    assert Split(s, 0)[1] == Split(s, at)[0];
  }

  // Whatever the area, its item follows that of the kind and starts like an area.
  lemma AreaItemStarts(kind: AreaKind, area: string, timeStep: nat, upper: bool)
    ensures var items := AreaItems(kind, area, timeStep, upper);
      1 < |items| && items[0] == kind.Prefix() && Whole(items[1]) && items[1][0] == 'a'
  {
    var s := SlackName(AreaName(kind, area, timeStep), upper);
    var location, time := LocationIdentifier(area, "area"), TimeIdentifier(timeStep, "hour");
    KindIsWhole(kind);
    PrintedParts(kind.Prefix(), location, time, upper);
    JoinFour(kind.Prefix(), Stars(location), Stars(time), Suffix(upper));
    var tail := Stars(location) + "::" + (Stars(time) + "::" + Suffix(upper));
    assert location[0] == "area"[0];
    assert tail[0] == Stars(location)[0] == 'a';
    SplitAfterFirst(s, kind.Prefix(), tail);
    PrintedItemsAreWhole(kind.Prefix(), location, time, upper);
  }

  // Exactly the area names that are not empty and hold neither a separator nor '>' come back.
  lemma AreaNameRecoveredExactly(kind: AreaKind, area: string, timeStep: nat, upper: bool)
    ensures AreaOf(AreaItems(kind, area, timeStep, upper)) == Ok(Stars(area)) <==> Bracketable(area)
  {
    if Bracketable(area) {
      AreaRoundTrip(kind, area, timeStep, upper);
    } else {
      StarsOfLocation(area);
      AreaItemStarts(kind, area, timeStep, upper);
      var items := AreaItems(kind, area, timeStep, upper);
      TypeOfArea(items, kind);
      assert AreaOf(items) == StringBetweenAngleBrackets(items[1]);
      if StringBetweenAngleBrackets(items[1]).Ok? {
        BetweenBracketsIsBracketable(items[1]);
      }
    }
  }

  // ----- From the printed constraint to the report -------------------------------------------------

  // What the analysis of an infeasible problem says of a constraint.
  datatype Report = Report(kind: Result<ConstraintType>, name: Result<string>, area: Result<string>,
                           timeStep: Result<string>)

  function ReportOf(items: seq<string>): Report {
    Report(TypeOf(items), BindingOf(items), AreaOf(items), TimeStepOf(items))
  }

  method Analyse(slack: string) returns (report: Report)
    ensures report == ReportOf(Split(slack, 0))
  {
    var constraint := new Constraint(slack);
    var count := constraint.ExtractItems();
    report := Report(constraint.GetType(), constraint.GetBindingConstraintName(), constraint.GetAreaName(),
                     constraint.GetTimeStepInYear());
  }

  // A binding constraint named among the others is reported as it was named, if and only if its
  // name stands as one item.
  method ReportBindingConstraint(constraints: nat, place: nat, name: string, g: Granularity, timeStep: nat,
                                 upper: bool)
    returns (report: Report)
    requires place < constraints
    ensures report.name == Ok(Stars(name)) <==> Whole(name)
    ensures Whole(name) ==> report.kind == Ok(Binding(g)) && report.area == Ok("<none>")
    ensures Whole(name) ==> report.timeStep == Ok(if g.Week? then "-1" else ToString(timeStep))
  {
    var target := new string[constraints](_ => "");
    var namer := new ConstraintNamer(target);
    namer.UpdateTimeStep(timeStep);
    namer.NameWithTimeGranularity(place, name, g);
    assert target[..][place] == BindingName(name, g, timeStep);
    report := Analyse(SlackName(target[place], upper));
    BindingNameRecoveredExactly(name, g, timeStep, upper);
    if Whole(name) {
      BindingRoundTrip(name, g, timeStep, upper);
    }
  }

  // A constraint of an area is reported with its area if and only if the area's name can stand
  // between angle brackets.
  method ReportAreaConstraint(constraints: nat, place: nat, kind: AreaKind, area: string, timeStep: nat, upper: bool)
    returns (report: Report)
    requires place < constraints
    ensures report.area == Ok(Stars(area)) <==> Bracketable(area)
    ensures Bracketable(area) ==> report.kind == Ok(OfArea(kind)) && report.name == Ok("<unknown>")
    ensures Bracketable(area) ==> report.timeStep == Ok(ToString(timeStep))
  {
    var target := new string[constraints](_ => "");
    var namer := new ConstraintNamer(target);
    namer.UpdateTimeStep(timeStep);
    namer.UpdateArea(area);
    if kind == FictitiousLoad {
      namer.FictiveLoads(place);
    } else {
      namer.AreaHydroLevel(place);
    }
    assert target[..][place] == AreaName(kind, area, timeStep);
    report := Analyse(SlackName(target[place], upper));
    AreaNameRecoveredExactly(kind, area, timeStep, upper);
    if Bracketable(area) {
      AreaRoundTrip(kind, area, timeStep, upper);
    }
  }
}
