/** Where a finding is shown: the line and column of a key path, or of a component in the list
    under it (ui/src/lib/validation/yaml-position.ts). The text is given as its lines. `test(name,
    text)` is the regular expression \bname\b on a text, None when the name makes it a malformed one,
    so that constructing it throws; for a name without metacharacters it holds only where the name
    occurs. */
module YamlPosition {
  import opened Basics
  import opened YamlText
  import Validation

  type Tester = (string, string) -> Option<bool>

  /** 1-based; the end column is exclusive. A place never spans lines. */
  datatype Place = Place(line: nat, column: nat, endColumn: nat)

  datatype Position = Threw | NotFound | Found(place: Place)

  /** How much of the path is matched, and the indentation of the last matched key. */
  datatype Scan = Scan(index: nat, indent: nat)

  /** What the scan sees of a line. */
  datatype Mark = Mark(skipped: bool, key: Option<string>, indent: nat)

  function MarkOf(line: string): Mark
  {
    Mark(Skipped(line), KeyOf(line), Indent(line))
  }

  function Marks(lines: seq<string>): (ms: seq<Mark>)
    ensures |ms| == |lines|
  {
    if lines == [] then [] else Marks(lines[..|lines| - 1]) + [MarkOf(lines[|lines| - 1])]
  }

  lemma {:induction false} MarkAt(lines: seq<string>, i: nat)
    requires i < |lines|
    ensures Marks(lines)[i] == MarkOf(lines[i])
    decreases |lines|
  {
    if i < |lines| - 1 {
      MarkAt(lines[..|lines| - 1], i);
    }
  }

  function Next(path: seq<string>, s: Scan, m: Mark): Scan
  {
    if s.index >= |path| || m.skipped then s
    else if m.key == Some(path[s.index]) then Scan(s.index + 1, m.indent)
    else if m.indent < s.indent then Scan(0, 0)
    else s
  }

  function After(ms: seq<Mark>, path: seq<string>): (s: Scan)
    ensures s.index <= |path|
  {
    if ms == [] then Scan(0, 0) else Next(path, After(ms[..|ms| - 1], path), ms[|ms| - 1])
  }

  lemma AfterLine(ms: seq<Mark>, path: seq<string>, i: nat)
    requires i < |ms|
    ensures After(ms[..i + 1], path) == Next(path, After(ms[..i], path), ms[i])
  {
    assert ms[..i + 1][..i] == ms[..i];
  }

  /** The line that completes the path. */
  function Target(ms: seq<Mark>, path: seq<string>): (r: Option<nat>)
    ensures r.Some? ==> r.value < |ms|
  {
    if ms == [] then None else
    var init := Target(ms[..|ms| - 1], path);
    if init.Some? then init
    else if path != [] && After(ms, path).index == |path| then Some(|ms| - 1) else None
  }

  lemma {:induction false} TargetStays(ms: seq<Mark>, path: seq<string>, i: nat)
    requires i <= |ms| && Target(ms[..i], path).Some?
    ensures Target(ms, path) == Target(ms[..i], path)
    decreases |ms| - i
  {
    if i == |ms| {
      assert ms[..i] == ms;
    } else {
      assert ms[..i + 1][..i] == ms[..i];
      TargetStays(ms, path, i + 1);
    }
  }

  // ---- the place shown ---------------------------------------------------------------------------

  function PlaceOf(lines: seq<string>, i: nat, text: string): Place
    requires i < |lines|
  {
    var column := IndexOf(lines[i], text, 0) + 1;
    Place(i + 1, column, column + |text|)
  }

  predicate IsItem(line: string)
  {
    var t := Trim(line);
    t != "" && t[0] == '-'
  }

  /** What a line below the key means for the search: it ends it, is passed over, makes it throw, or is
      a list item with the name. */
  datatype Verdict = Ends | PassedOver | Throws | Hit

  function Judge(line: string, indent: nat, name: string, test: Tester): Verdict
  {
    if Skipped(line) then PassedOver
    else if Indent(line) <= indent then Ends
    else if !IsItem(line) then PassedOver
    else match test(name, Trim(line))
         case None => Throws
         case Some(hit) => if hit then Hit else PassedOver
  }

  function Verdicts(lines: seq<string>, indent: nat, name: string, test: Tester): (vs: seq<Verdict>)
    ensures |vs| == |lines|
  {
    if lines == [] then []
    else Verdicts(lines[..|lines| - 1], indent, name, test) + [Judge(lines[|lines| - 1], indent, name, test)]
  }

  lemma {:induction false} VerdictAt(lines: seq<string>, i: nat, indent: nat, name: string, test: Tester)
    requires i < |lines|
    ensures Verdicts(lines, indent, name, test)[i] == Judge(lines[i], indent, name, test)
    decreases |lines|
  {
    if i < |lines| - 1 {
      VerdictAt(lines[..|lines| - 1], i, indent, name, test);
    }
  }

  /** The first line from j on that is not passed over. */
  function Decisive(vs: seq<Verdict>, j: nat): (i: nat)
    requires j <= |vs|
    ensures j <= i <= |vs| && (i < |vs| ==> vs[i] != PassedOver)
    ensures forall l :: j <= l < i ==> vs[l] == PassedOver
    decreases |vs| - j
  {
    if j == |vs| || vs[j] != PassedOver then j else Decisive(vs, j + 1)
  }

  /** The first list item with the name, from line j on, before the text leaves the indentation. */
  function ItemFrom(lines: seq<string>, j: nat, indent: nat, name: string, test: Tester): (r: Position)
    requires j <= |lines|
  {
    var vs := Verdicts(lines, indent, name, test);
    var i := Decisive(vs, j);
    if i == |lines| || vs[i] == Ends then NotFound
    else if vs[i] == Throws then Threw else Found(PlaceOf(lines, i, name))
  }

  function InlinePlace(lines: seq<string>, i: nat, name: string, test: Tester): Position
    requires i < |lines|
  {
    var listed := InlineArray(lines[i], 0);
    if listed.None? then NotFound
    else match test(name, listed.value)
         case None => Threw
         case Some(true) => Found(PlaceOf(lines, i, name))
         case Some(false) => NotFound
  }

  /** What is shown once line i completes the path: the component on that line, the component in the
      list under it, or else the key. An empty component name is as good as none. */
  function Shown(lines: seq<string>, i: nat, key: string, component: Option<string>, test: Tester): Position
    requires i < |lines|
  {
    var atKey := Found(PlaceOf(lines, i, key));
    if component.None? || component.value == "" then atKey else
    var inline := InlinePlace(lines, i, component.value, test);
    if inline != NotFound then inline else
    var item := ItemFrom(lines, i + 1, Indent(lines[i]), component.value, test);
    if item != NotFound then item else atKey
  }

  function PositionOf(lines: seq<string>, path: seq<string>, component: Option<string>, test: Tester): Position
  {
    var target := Target(Marks(lines), path);
    if target.None? || path == [] then NotFound
    else Shown(lines, target.value, path[|path| - 1], component, test)
  }

  method FindItem(lines: seq<string>, i: nat, indent: nat, name: string, test: Tester) returns (r: Position)
    requires i < |lines|
    ensures r == ItemFrom(lines, i + 1, indent, name, test)
  {
    ghost var vs := Verdicts(lines, indent, name, test);
    for j := i + 1 to |lines|
      invariant Decisive(vs, i + 1) == Decisive(vs, j)
    {
      var verdict := JudgeLine(lines, j, indent, name, test);
      if verdict != PassedOver {
        return if verdict == Ends then NotFound else if verdict == Throws then Threw
          else Found(PlaceOf(lines, j, name));
      }
    }
    return NotFound;
  }

  method JudgeLine(lines: seq<string>, j: nat, indent: nat, name: string, test: Tester) returns (r: Verdict)
    requires j < |lines|
    ensures r == Verdicts(lines, indent, name, test)[j]
  {
    VerdictAt(lines, j, indent, name, test);
    if Skipped(lines[j]) {
      return PassedOver;
    }
    if Indent(lines[j]) <= indent {
      return Ends;
    }
    if IsItem(lines[j]) {
      var tested := test(name, Trim(lines[j]));
      if tested.None? {
        return Throws;
      }
      if tested.value {
        return Hit;
      }
    }
    return PassedOver;
  }

  method Show(lines: seq<string>, i: nat, key: string, component: Option<string>, test: Tester) returns (r: Position)
    requires i < |lines|
    ensures r == Shown(lines, i, key, component, test)
  {
    if component.Some? && component.value != "" {
      var listed := InlineArray(lines[i], 0);
      if listed.Some? {
        var tested := test(component.value, listed.value);
        if tested.None? {
          return Threw;
        }
        if tested.value {
          return Found(PlaceOf(lines, i, component.value));
        }
      }
      var item := FindItem(lines, i, Indent(lines[i]), component.value, test);
      if item != NotFound {
        return item;
      }
    }
    return Found(PlaceOf(lines, i, key));
  }

  method ReadLine(lines: seq<string>, i: nat, path: seq<string>, s: Scan) returns (r: Scan)
    requires s.index < |path| && i < |lines|
    ensures r == Next(path, s, Marks(lines)[i])
  {
    MarkAt(lines, i);
    var line := lines[i];
    if Skipped(line) {
      return s;
    }
    var indent := Indent(line);
    if KeyOf(line) == Some(path[s.index]) {
      return Scan(s.index + 1, indent);
    }
    if indent < s.indent {
      return Scan(0, 0);
    }
    return s;
  }

  method FindTarget(lines: seq<string>, path: seq<string>) returns (r: Option<nat>)
    ensures r == if path == [] then None else Target(Marks(lines), path)
  {
    if path == [] {
      return None;
    }
    ghost var ms := Marks(lines);
    var s := Scan(0, 0);
    for i := 0 to |lines|
      invariant s == After(ms[..i], path) && s.index < |path| && Target(ms[..i], path).None?
    {
      AfterLine(ms, path, i);
      assert ms[..i + 1][..i] == ms[..i];
      s := ReadLine(lines, i, path, s);
      if s.index == |path| {
        TargetStays(ms, path, i + 1);
        return Some(i);
      }
    }
    assert ms[..|ms|] == ms;
    return None;
  }

  method FindYamlPosition(lines: seq<string>, path: seq<string>, component: Option<string>, test: Tester)
    returns (r: Position)
    ensures r == PositionOf(lines, path, component, test)
  {
    var target := FindTarget(lines, path);
    if target.None? {
      return NotFound;
    }
    r := Show(lines, target.value, path[|path| - 1], component, test);
  }

  // ---- soundness -------------------------------------------------------------------------------

  /** Strictly increasing lines below `end` whose keys spell the path's first |chain| elements. */
  ghost predicate Spells(ms: seq<Mark>, path: seq<string>, chain: seq<nat>, end: nat)
  {
    && |chain| <= |path| && end <= |ms|
    && (forall k :: 0 <= k < |chain| ==> chain[k] < end && ms[chain[k]].key == Some(path[k]))
    && (forall k, l :: 0 <= k < l < |chain| ==> chain[k] < chain[l])
  }

  /** The text at the place is exactly `text`. */
  predicate Exact(lines: seq<string>, p: Place, text: string)
  {
    1 <= p.line <= |lines| && 1 <= p.column && p.endColumn == p.column + |text|
    && StartsAt(lines[p.line - 1], text, p.column - 1)
  }

  /** Where the test accepts a text, the name occurs. */
  ghost predicate Faithful(test: Tester, name: string)
  {
    forall text :: test(name, text) == Some(true) ==> Occurs(text, name)
  }

  lemma OccurrenceIsExact(lines: seq<string>, i: nat, name: string)
    requires i < |lines| && Occurs(lines[i], name)
    ensures Exact(lines, PlaceOf(lines, i, name), name) && PlaceOf(lines, i, name).line == i + 1
  {
    var k :| StartsAt(lines[i], name, k);
  }

  /** The last key, where its line's text begins. */
  predicate ShowsKey(lines: seq<string>, at: nat, key: string, p: Place)
    requires at < |lines|
  {
    p.line == at + 1 && p.column == Indent(lines[at]) + 1 && Exact(lines, p, key)
  }

  lemma KeyIsExact(lines: seq<string>, at: nat)
    requires at < |lines| && KeyOf(lines[at]).Some?
    ensures ShowsKey(lines, at, KeyOf(lines[at]).value, PlaceOf(lines, at, KeyOf(lines[at]).value))
  {
    KeyIsFirst(lines[at]);
  }

  lemma InlineIsExact(lines: seq<string>, i: nat, name: string, test: Tester)
    requires i < |lines| && Faithful(test, name) && InlinePlace(lines, i, name, test).Found?
    ensures var p := InlinePlace(lines, i, name, test).place; p.line == i + 1 && Exact(lines, p, name)
  {
    var line := lines[i];
    var listed := InlineArray(line, 0).value;
    var k :| StartsAt(line, listed, k);
    OccursWithin(line, listed, k, name);
    OccurrenceIsExact(lines, i, name);
  }

  /** The line, unless it is skipped, is deeper than the key. */
  predicate Deeper(line: string, indent: nat)
  {
    Skipped(line) || Indent(line) > indent
  }

  lemma JudgedLine(line: string, indent: nat, name: string, test: Tester)
    ensures var v := Judge(line, indent, name, test);
            && (v != Ends <==> Deeper(line, indent))
            && (v == Hit ==> IsItem(line) && test(name, Trim(line)) == Some(true))
            && (v == Throws ==> IsItem(line) && test(name, Trim(line)).None?)
            && (v == PassedOver && IsItem(line) ==> test(name, Trim(line)) == Some(false))
  {
    assert Skipped(line) ==> !IsItem(line);
  }

  /** A list item below, deeper than the key, with nothing in between that leaves the block. */
  predicate Below(lines: seq<string>, j: nat, indent: nat, i: nat)
    requires j <= |lines|
  {
    j <= i < |lines| && IsItem(lines[i]) && forall l :: j <= l <= i ==> Deeper(lines[l], indent)
  }

  lemma DecisiveIsBelow(lines: seq<string>, j: nat, indent: nat, name: string, test: Tester)
    requires j <= |lines|
    ensures var vs := Verdicts(lines, indent, name, test);
            var i := Decisive(vs, j);
            i < |lines| && vs[i] != Ends ==>
              Below(lines, j, indent, i) && test(name, Trim(lines[i])) == if vs[i] == Hit then Some(true) else None
  {
    var vs := Verdicts(lines, indent, name, test);
    var i := Decisive(vs, j);
    if i < |lines| && vs[i] != Ends {
      forall l | j <= l <= i ensures Deeper(lines[l], indent) {
        VerdictAt(lines, l, indent, name, test);
        JudgedLine(lines[l], indent, name, test);
      }
      VerdictAt(lines, i, indent, name, test);
      JudgedLine(lines[i], indent, name, test);
    }
  }

  lemma ItemIsExact(lines: seq<string>, j: nat, indent: nat, name: string, test: Tester)
    requires j <= |lines| && Faithful(test, name) && ItemFrom(lines, j, indent, name, test).Found?
    ensures var p := ItemFrom(lines, j, indent, name, test).place;
            p.line > 0 && Below(lines, j, indent, p.line - 1) && Exact(lines, p, name)
  {
    var i := Decisive(Verdicts(lines, indent, name, test), j);
    DecisiveIsBelow(lines, j, indent, name, test);
    TrimIsPart(lines[i]);
    OccursWithin(lines[i], Trim(lines[i]), Indent(lines[i]), name);
    OccurrenceIsExact(lines, i, name);
  }

  /** The component, on the key's line or in the list below it. */
  predicate ShowsComponent(lines: seq<string>, at: nat, component: string, p: Place)
    requires at < |lines|
  {
    Exact(lines, p, component) && (p.line == at + 1 || Below(lines, at + 1, Indent(lines[at]), p.line - 1))
  }

  lemma InlineShows(lines: seq<string>, at: nat, name: string, test: Tester)
    requires at < |lines| && Faithful(test, name) && InlinePlace(lines, at, name, test).Found?
    ensures ShowsComponent(lines, at, name, InlinePlace(lines, at, name, test).place)
  {
    InlineIsExact(lines, at, name, test);
  }

  lemma ItemShows(lines: seq<string>, at: nat, indent: nat, name: string, test: Tester)
    requires at < |lines| && indent == Indent(lines[at]) && Faithful(test, name)
    requires ItemFrom(lines, at + 1, indent, name, test).Found?
    ensures ShowsComponent(lines, at, name, ItemFrom(lines, at + 1, indent, name, test).place)
  {
    ItemIsExact(lines, at + 1, indent, name, test);
  }

  lemma ComponentIsExact(lines: seq<string>, at: nat, name: string, test: Tester)
    requires at < |lines| && Faithful(test, name)
    ensures var p := InlinePlace(lines, at, name, test); p.Found? ==> ShowsComponent(lines, at, name, p.place)
    ensures var p := ItemFrom(lines, at + 1, Indent(lines[at]), name, test);
            p.Found? ==> ShowsComponent(lines, at, name, p.place)
  {
    if InlinePlace(lines, at, name, test).Found? {
      InlineShows(lines, at, name, test);
    }
    var indent := Indent(lines[at]);
    if ItemFrom(lines, at + 1, indent, name, test).Found? {
      ItemShows(lines, at, indent, name, test);
    }
  }

  lemma ShownIsExact(lines: seq<string>, at: nat, key: string, component: Option<string>, test: Tester)
    requires at < |lines| && KeyOf(lines[at]) == Some(key) && Shown(lines, at, key, component, test).Found?
    requires component.Some? ==> Faithful(test, component.value)
    ensures var p := Shown(lines, at, key, component, test).place;
            ShowsKey(lines, at, key, p) || (component.Some? && ShowsComponent(lines, at, component.value, p))
  {
    KeyIsExact(lines, at);
    if component.Some? {
      ComponentIsExact(lines, at, component.value, test);
    }
  }

  /** Whatever is found is exact, and increasing lines that spell the whole path end at or before it. */
  lemma PlaceIsExact(lines: seq<string>, path: seq<string>, component: Option<string>, test: Tester)
    returns (at: nat, chain: seq<nat>)
    requires PositionOf(lines, path, component, test).Found?
    requires component.Some? ==> Faithful(test, component.value)
    ensures at < |lines| && |chain| == |path| > 0 && chain[|path| - 1] == at
    ensures Spells(Marks(lines), path, chain, at + 1)
    ensures var p := PositionOf(lines, path, component, test).place;
            && at < p.line
            && (|| ShowsKey(lines, at, path[|path| - 1], p)
                || (component.Some? && ShowsComponent(lines, at, component.value, p)))
  {
    at := Target(Marks(lines), path).value;
    var r: nat;
    r, chain := TargetIsChained(Marks(lines), path);
    FitsSpells(Marks(lines), path, r, chain, at + 1);
    MarkAt(lines, at);
    ShownIsExact(lines, at, path[|path| - 1], component, test);
  }

  // ---- when it throws ----------------------------------------------------------------------------

  /** A malformed expression throws whatever the text; any other never does. */
  ghost predicate Malformed(test: Tester, name: string)
  {
    forall text :: test(name, text).None?
  }

  ghost predicate WellFormed(test: Tester, name: string)
  {
    forall text :: test(name, text).Some?
  }

  ghost predicate HasItem(lines: seq<string>, j: nat, indent: nat)
    requires j <= |lines|
  {
    exists i: nat :: Below(lines, j, indent, i)
  }

  /** The line has an inline list, or a list item below. */
  ghost predicate HasList(lines: seq<string>, at: nat)
    requires at < |lines|
  {
    InlineArray(lines[at], 0).Some? || HasItem(lines, at + 1, Indent(lines[at]))
  }

  lemma ItemThrows(lines: seq<string>, j: nat, indent: nat, name: string, test: Tester)
    requires j <= |lines|
    ensures WellFormed(test, name) ==> ItemFrom(lines, j, indent, name, test) != Threw
    ensures Malformed(test, name) ==>
              ItemFrom(lines, j, indent, name, test) == if HasItem(lines, j, indent) then Threw else NotFound
  {
    var vs := Verdicts(lines, indent, name, test);
    var i := Decisive(vs, j);
    DecisiveIsBelow(lines, j, indent, name, test);
    if Malformed(test, name) && HasItem(lines, j, indent) {
      var k: nat :| Below(lines, j, indent, k);
      VerdictAt(lines, k, indent, name, test);
      JudgedLine(lines[k], indent, name, test);
      assert vs[k] != PassedOver && i <= k && Deeper(lines[i], indent);
      VerdictAt(lines, i, indent, name, test);
      JudgedLine(lines[i], indent, name, test);
    }
  }

  lemma ShownThrows(lines: seq<string>, at: nat, key: string, name: string, test: Tester)
    requires at < |lines| && name != "" && (WellFormed(test, name) || Malformed(test, name))
    ensures Shown(lines, at, key, Some(name), test) == Threw <==>
            Malformed(test, name) && HasList(lines, at)
  {
    assert WellFormed(test, name) ==> test(name, "").Some?;
    var listed := InlineArray(lines[at], 0);
    if listed.Some? {
      assert test(name, listed.value).None? <==> Malformed(test, name);
    }
    ItemThrows(lines, at + 1, Indent(lines[at]), name, test);
  }

  /** The finder throws exactly when it comes to test a malformed name: when the path is found and
      its line has an inline list or an item below. */
  lemma ThrowsExactlyWhen(lines: seq<string>, path: seq<string>, name: string, test: Tester)
    requires path != [] && name != "" && (WellFormed(test, name) || Malformed(test, name))
    ensures PositionOf(lines, path, Some(name), test) == Threw <==>
            var target := Target(Marks(lines), path);
            Malformed(test, name) && target.Some? && HasList(lines, target.value)
  {
    var target := Target(Marks(lines), path);
    if target.Some? {
      ShownThrows(lines, target.value, path[|path| - 1], name, test);
    }
  }

  // ---- which place is shown ----------------------------------------------------------------------

  /** The first occurrence of the text on the line; column 0 if there is none. */
  ghost predicate IsPlaceOn(lines: seq<string>, i: nat, text: string, p: Place)
    requires i < |lines|
  {
    && p.line == i + 1 && p.endColumn == p.column + |text|
    && (forall k: int :: k < p.column - 1 ==> !StartsAt(lines[i], text, k))
    && (if p.column == 0 then !Occurs(lines[i], text) else StartsAt(lines[i], text, p.column - 1))
  }

  lemma PlaceOfIsFirst(lines: seq<string>, i: nat, text: string)
    requires i < |lines|
    ensures IsPlaceOn(lines, i, text, PlaceOf(lines, i, text))
  {
  }

  /** The key's line has an inline list that passes the test. */
  predicate InlineHit(line: string, name: string, test: Tester)
  {
    InlineArray(line, 0).Some? && test(name, InlineArray(line, 0).value) == Some(true)
  }

  /** Line i is the first list item of the block below line j that passes the test. */
  ghost predicate FirstHit(lines: seq<string>, j: nat, indent: nat, name: string, test: Tester, i: nat)
    requires j <= |lines|
  {
    && Below(lines, j, indent, i) && test(name, Trim(lines[i])) == Some(true)
    && forall l :: j <= l < i && IsItem(lines[l]) ==> test(name, Trim(lines[l])) != Some(true)
  }

  lemma FirstHitIsFound(lines: seq<string>, j: nat, indent: nat, name: string, test: Tester, i: nat)
    requires j <= |lines| && WellFormed(test, name) && FirstHit(lines, j, indent, name, test, i)
    ensures ItemFrom(lines, j, indent, name, test) == Found(PlaceOf(lines, i, name))
  {
    var d := Decisive(Verdicts(lines, indent, name, test), j);
    DecisiveIsBelow(lines, j, indent, name, test);
    VerdictAt(lines, i, indent, name, test);
    JudgedLine(lines[i], indent, name, test);
    assert d <= i;
    VerdictAt(lines, d, indent, name, test);
    JudgedLine(lines[d], indent, name, test);
  }

  lemma FoundIsFirstHit(lines: seq<string>, j: nat, indent: nat, name: string, test: Tester)
    requires j <= |lines| && WellFormed(test, name)
    ensures var d := Decisive(Verdicts(lines, indent, name, test), j);
            ItemFrom(lines, j, indent, name, test) != NotFound ==> FirstHit(lines, j, indent, name, test, d)
  {
    var vs := Verdicts(lines, indent, name, test);
    var d := Decisive(vs, j);
    DecisiveIsBelow(lines, j, indent, name, test);
    if d < |lines| && vs[d] != Ends {
      forall l | j <= l < d && IsItem(lines[l]) ensures test(name, Trim(lines[l])) != Some(true) {
        VerdictAt(lines, l, indent, name, test);
        JudgedLine(lines[l], indent, name, test);
      }
    }
  }

  ghost predicate HasHit(lines: seq<string>, j: nat, indent: nat, name: string, test: Tester)
    requires j <= |lines|
  {
    exists i: nat :: FirstHit(lines, j, indent, name, test, i)
  }

  lemma ItemIsFirstHit(lines: seq<string>, j: nat, indent: nat, name: string, test: Tester)
    requires j <= |lines| && WellFormed(test, name)
    ensures ItemFrom(lines, j, indent, name, test) == NotFound <==> !HasHit(lines, j, indent, name, test)
  {
    FoundIsFirstHit(lines, j, indent, name, test);
    forall i: nat | FirstHit(lines, j, indent, name, test, i) ensures ItemFrom(lines, j, indent, name, test).Found? {
      FirstHitIsFound(lines, j, indent, name, test, i);
    }
  }

  /** What is shown for a line that completes the path: the component on that line if the inline list
      passes, else the one on the first list item that passes, else the key. */
  lemma ShownFirst(lines: seq<string>, at: nat, key: string, name: string, test: Tester, indent: nat)
    requires at < |lines| && name != "" && WellFormed(test, name) && indent == Indent(lines[at])
    ensures var r := Shown(lines, at, key, Some(name), test);
            var item := ItemFrom(lines, at + 1, indent, name, test);
            r == if InlineHit(lines[at], name, test) then Found(PlaceOf(lines, at, name))
                 else if item != NotFound then item else Found(PlaceOf(lines, at, key))
  {
    var listed := InlineArray(lines[at], 0);
    if listed.Some? {
      assert test(name, listed.value).Some?;
    }
  }

  lemma PositionIsShown(lines: seq<string>, path: seq<string>, component: Option<string>, test: Tester, at: nat)
    requires path != [] && Target(Marks(lines), path) == Some(at)
    ensures PositionOf(lines, path, component, test) == Shown(lines, at, path[|path| - 1], component, test)
  {
  }

  lemma ShownWithoutHit(lines: seq<string>, at: nat, key: string, name: string, test: Tester, indent: nat)
    requires at < |lines| && name != "" && WellFormed(test, name) && indent == Indent(lines[at])
    requires InlineHit(lines[at], name, test) || !HasHit(lines, at + 1, indent, name, test)
    ensures var r := Shown(lines, at, key, Some(name), test);
            r.Found? && IsPlaceOn(lines, at, if InlineHit(lines[at], name, test) then name else key, r.place)
  {
    ShownFirst(lines, at, key, name, test, indent);
    PlaceOfIsFirst(lines, at, name);
    PlaceOfIsFirst(lines, at, key);
    if !InlineHit(lines[at], name, test) {
      ItemIsFirstHit(lines, at + 1, indent, name, test);
    }
  }

  lemma ShownWithHit(lines: seq<string>, at: nat, key: string, name: string, test: Tester, indent: nat, i: nat)
    requires at < |lines| && name != "" && WellFormed(test, name) && indent == Indent(lines[at])
    requires !InlineHit(lines[at], name, test) && FirstHit(lines, at + 1, indent, name, test, i)
    ensures var r := Shown(lines, at, key, Some(name), test); r.Found? && IsPlaceOn(lines, i, name, r.place)
  {
    ShownFirst(lines, at, key, name, test, indent);
    FirstHitIsFound(lines, at + 1, indent, name, test, i);
    PlaceOfIsFirst(lines, i, name);
  }

  /** Where a well-formed component is shown once its path is found, by the lines and the test alone: on
      the key's line if the inline list passes, else on the first list item of the block that passes,
      and at the key exactly if neither exists. */
  lemma ShownExactlyWhen(lines: seq<string>, path: seq<string>, name: string, test: Tester, at: nat, indent: nat)
    requires path != [] && name != "" && WellFormed(test, name) && Target(Marks(lines), path) == Some(at)
    requires indent == Indent(lines[at])
    ensures PositionOf(lines, path, Some(name), test).Found? &&
            var p := PositionOf(lines, path, Some(name), test).place;
            if InlineHit(lines[at], name, test) then IsPlaceOn(lines, at, name, p)
            else if HasHit(lines, at + 1, indent, name, test) then
              exists i: nat :: FirstHit(lines, at + 1, indent, name, test, i) && IsPlaceOn(lines, i, name, p)
            else IsPlaceOn(lines, at, path[|path| - 1], p)
  {
    var key := path[|path| - 1];
    PositionIsShown(lines, path, Some(name), test, at);
    if InlineHit(lines[at], name, test) || !HasHit(lines, at + 1, indent, name, test) {
      ShownWithoutHit(lines, at, key, name, test, indent);
    } else {
      var i: nat :| FirstHit(lines, at + 1, indent, name, test, i);
      ShownWithHit(lines, at, key, name, test, indent, i);
    }
  }

  /** Without a component, or with an empty one, the key is shown. */
  lemma KeyIsShown(lines: seq<string>, path: seq<string>, component: Option<string>, test: Tester, at: nat)
    requires path != [] && component in {None, Some("")} && Target(Marks(lines), path) == Some(at)
    ensures var r := PositionOf(lines, path, component, test);
            r.Found? && IsPlaceOn(lines, at, path[|path| - 1], r.place)
  {
    PlaceOfIsFirst(lines, at, path[|path| - 1]);
  }

  // ---- what is found -----------------------------------------------------------------------------

  /** A line that neither is the next key nor leaves the block of the last one. */
  predicate Passed(path: seq<string>, s: Scan, m: Mark)
  {
    s.index < |path| && !m.skipped ==> m.key != Some(path[s.index]) && m.indent >= s.indent
  }

  /** The scan when the keys of the chain have been read. */
  function Read(ms: seq<Mark>, chain: seq<nat>): Scan
    requires chain != [] ==> chain[|chain| - 1] < |ms|
  {
    Scan(|chain|, if chain == [] then 0 else ms[chain[|chain| - 1]].indent)
  }

  /** Starting at line r, each chained line is the first one after its predecessor with its key of
      the path, and no line between them, or after the last one up to `end`, leaves the block of the
      one before. */
  ghost predicate Fits(ms: seq<Mark>, path: seq<string>, r: nat, chain: seq<nat>, end: nat)
    decreases |chain|
  {
    && |chain| <= |path| && r <= end <= |ms|
    && (chain != [] ==>
          var n := |chain| - 1;
          && chain[n] < end && !ms[chain[n]].skipped && ms[chain[n]].key == Some(path[n])
          && Fits(ms, path, r, chain[..n], chain[n]))
    && forall j :: (if chain == [] then r else chain[|chain| - 1] + 1) <= j < end ==>
                     Passed(path, Read(ms, chain), ms[j])
  }

  lemma {:induction false} FitsSpells(ms: seq<Mark>, path: seq<string>, r: nat, chain: seq<nat>, end: nat)
    requires Fits(ms, path, r, chain, end)
    ensures Spells(ms, path, chain, end) && forall k :: 0 <= k < |chain| ==> r <= chain[k]
    decreases |chain|
  {
    if chain != [] {
      var n := |chain| - 1;
      FitsSpells(ms, path, r, chain[..n], chain[n]);
      forall k | 0 <= k < n ensures chain[..n][k] == chain[k] { }
    }
  }

  lemma {:induction false} QuietScan(ms: seq<Mark>, path: seq<string>, s: Scan, from: nat, end: nat)
    requires from <= end <= |ms| && After(ms[..from], path) == s
    requires forall j :: from <= j < end ==> Passed(path, s, ms[j])
    ensures After(ms[..end], path) == s
    decreases end - from
  {
    if from < end {
      AfterLine(ms, path, from);
      QuietScan(ms, path, s, from + 1, end);
    }
  }

  lemma {:induction false} FitIsFollowed(ms: seq<Mark>, path: seq<string>, r: nat, chain: seq<nat>, end: nat)
    requires Fits(ms, path, r, chain, end) && After(ms[..r], path) == Scan(0, 0)
    ensures After(ms[..end], path) == Read(ms, chain)
    decreases |chain|
  {
    if chain == [] {
      QuietScan(ms, path, Scan(0, 0), r, end);
    } else {
      var n := |chain| - 1;
      FitIsFollowed(ms, path, r, chain[..n], chain[n]);
      AfterLine(ms, path, chain[n]);
      QuietScan(ms, path, Read(ms, chain), chain[n] + 1, end);
    }
  }

  /** A line that is not the next key and is indented less than the last one. */
  predicate Leaves(path: seq<string>, s: Scan, m: Mark)
  {
    s.index < |path| && !m.skipped && m.key != Some(path[s.index]) && m.indent < s.indent
  }

  /** Line r - 1 leaves the block of a chain that fits from line q on. */
  ghost predicate Restarts(ms: seq<Mark>, path: seq<string>, q: nat, chain: seq<nat>, r: nat)
  {
    q < r <= |ms| && Fits(ms, path, q, chain, r - 1) && Leaves(path, Read(ms, chain), ms[r - 1])
  }

  /** Where the search for the whole path begins: at the top, and after each line that leaves the
      block of a chain that began at such a line. */
  ghost predicate Starts(ms: seq<Mark>, path: seq<string>, r: nat)
    decreases r
  {
    r == 0 || exists q: nat, chain: seq<nat> :: q < r && Starts(ms, path, q) && Restarts(ms, path, q, chain, r)
  }

  lemma RestartScan(ms: seq<Mark>, path: seq<string>, q: nat, chain: seq<nat>, r: nat)
    requires Restarts(ms, path, q, chain, r) && After(ms[..q], path) == Scan(0, 0)
    ensures After(ms[..r], path) == Scan(0, 0)
  {
    FitIsFollowed(ms, path, q, chain, r - 1);
    AfterLine(ms, path, r - 1);
  }

  lemma {:induction false} StartsScan(ms: seq<Mark>, path: seq<string>, r: nat)
    requires Starts(ms, path, r)
    ensures r <= |ms| && After(ms[..r], path) == Scan(0, 0)
    decreases r
  {
    if r > 0 {
      var q: nat, chain: seq<nat> :| q < r && Starts(ms, path, q) && Restarts(ms, path, q, chain, r);
      StartsScan(ms, path, q);
      RestartScan(ms, path, q, chain, r);
    }
  }

  lemma {:induction false} FitsNextKey(ms: seq<Mark>, path: seq<string>, r: nat, chain: seq<nat>, i: nat)
    requires Fits(ms, path, r, chain, i) && i < |ms| && |chain| < |path|
    requires !ms[i].skipped && ms[i].key == Some(path[|chain|])
    ensures Fits(ms, path, r, chain + [i], i + 1)
  {
    assert (chain + [i])[..|chain|] == chain;
  }

  lemma {:induction false} FitsOneMore(ms: seq<Mark>, path: seq<string>, r: nat, chain: seq<nat>, i: nat)
    requires Fits(ms, path, r, chain, i) && i < |ms| && Passed(path, Read(ms, chain), ms[i])
    ensures Fits(ms, path, r, chain, i + 1)
  {
  }

  lemma {:induction false} FitsNothing(ms: seq<Mark>, path: seq<string>, r: nat)
    requires r <= |ms|
    ensures Fits(ms, path, r, [], r)
  {
  }

  /** What the scan has matched after i lines is a fitting chain from some starting line on. */
  lemma {:induction false} ScanFits(ms: seq<Mark>, path: seq<string>, i: nat) returns (r: nat, chain: seq<nat>)
    requires i <= |ms|
    ensures Fits(ms, path, r, chain, i) && Starts(ms, path, r)
    ensures After(ms[..i], path) == Read(ms, chain)
  {
    r, chain := 0, [];
    if i > 0 {
      r, chain := ScanFits(ms, path, i - 1);
      AfterLine(ms, path, i - 1);
      r, chain := ScanLine(ms, path, r, chain, i - 1);
    }
  }

  lemma {:induction false} ScanLine(ms: seq<Mark>, path: seq<string>, r: nat, chain: seq<nat>, i: nat)
    returns (r': nat, chain': seq<nat>)
    requires Fits(ms, path, r, chain, i) && Starts(ms, path, r) && i < |ms|
    ensures Fits(ms, path, r', chain', i + 1) && Starts(ms, path, r')
    ensures Next(path, Read(ms, chain), ms[i]) == Read(ms, chain')
  {
    r', chain' := r, chain;
    var m, s := ms[i], Read(ms, chain);
    if s.index < |path| && !m.skipped && m.key == Some(path[s.index]) {
      FitsNextKey(ms, path, r, chain, i);
      chain' := chain + [i];
    } else if Leaves(path, s, m) {
      assert Restarts(ms, path, r, chain, i + 1);
      FitsNothing(ms, path, i + 1);
      r', chain' := i + 1, [];
    } else {
      FitsOneMore(ms, path, r, chain, i);
    }
  }

  lemma {:induction false} TargetCompletes(ms: seq<Mark>, path: seq<string>)
    ensures Target(ms, path).Some? <==> path != [] && After(ms, path).index == |path|
    ensures Target(ms, path).Some? ==>
              var at := Target(ms, path).value; After(ms[..at], path).index < |path| == After(ms[..at + 1], path).index
    decreases |ms|
  {
    if ms != [] {
      var init := ms[..|ms| - 1];
      TargetCompletes(init, path);
      assert ms[..|ms|] == ms;
      if Target(init, path).Some? {
        var at := Target(init, path).value;
        assert init[..at] == ms[..at] && init[..at + 1] == ms[..at + 1];
      }
    }
  }

  /** A chain that spells the whole path and ends at the line, from a starting line on. */
  ghost predicate Leads(ms: seq<Mark>, path: seq<string>, r: nat, chain: seq<nat>, at: nat)
  {
    && |chain| == |path| > 0 && chain[|path| - 1] == at
    && Starts(ms, path, r) && Fits(ms, path, r, chain, at + 1)
  }

  lemma TargetIsChained(ms: seq<Mark>, path: seq<string>) returns (r: nat, chain: seq<nat>)
    requires Target(ms, path).Some?
    ensures Leads(ms, path, r, chain, Target(ms, path).value)
  {
    var at := Target(ms, path).value;
    TargetCompletes(ms, path);
    r, chain := ScanFits(ms, path, at);
    AfterLine(ms, path, at);
    assert (chain + [at])[..|chain|] == chain;
    chain := chain + [at];
  }

  lemma ChainIsTarget(ms: seq<Mark>, path: seq<string>, r: nat, chain: seq<nat>, at: nat)
    requires Leads(ms, path, r, chain, at)
    ensures Target(ms, path) == Some(at)
  {
    StartsScan(ms, path, r);
    FitIsFollowed(ms, path, r, chain[..|path| - 1], at);
    FitIsFollowed(ms, path, r, chain, at + 1);
    TargetCompletes(ms[..at], path);
    assert ms[..at + 1][..at] == ms[..at];
    TargetStays(ms, path, at + 1);
  }

  /** A line is found exactly when a fitting chain leads to it: a condition on the lines alone. */
  lemma FoundExactlyWhen(ms: seq<Mark>, path: seq<string>, at: nat)
    ensures Target(ms, path) == Some(at) <==> exists r: nat, chain: seq<nat> :: Leads(ms, path, r, chain, at)
  {
    if Target(ms, path) == Some(at) {
      var r, chain := TargetIsChained(ms, path);
    }
    forall r: nat, chain: seq<nat> | Leads(ms, path, r, chain, at) ensures Target(ms, path) == Some(at) {
      ChainIsTarget(ms, path, r, chain, at);
    }
  }

  // ---- a path that is missed ---------------------------------------------------------------------

  /** The lines
        top:
          first:
        first:
          last: ... */
  function TwiceNested(top: string, first: string, last: string, rest: string): seq<string>
  {
    [BlockLine(0, top, ""), BlockLine(2, first, ""), BlockLine(0, first, ""), BlockLine(2, last, rest)]
  }

  lemma BlockMark(lines: seq<string>, i: nat, n: nat, key: string, rest: string)
    requires i < |lines| && lines[i] == BlockLine(n, key, rest) && PlainKey(key) && EndsPlain(rest)
    ensures Marks(lines)[i] == Mark(false, Some(key), n)
  {
    BlockLineRead(n, key, rest);
    MarkAt(lines, i);
  }

  function NestedMarks(top: string, first: string, last: string): seq<Mark>
  {
    [Mark(false, Some(top), 0), Mark(false, Some(first), 2), Mark(false, Some(first), 0), Mark(false, Some(last), 2)]
  }

  lemma NestedLinesRead(top: string, first: string, last: string, rest: string)
    requires PlainKey(top) && PlainKey(first) && PlainKey(last) && EndsPlain(rest)
    ensures Marks(TwiceNested(top, first, last, rest)) == NestedMarks(top, first, last)
  {
    var lines := TwiceNested(top, first, last, rest);
    BlockMark(lines, 0, 0, top, "");
    BlockMark(lines, 1, 2, first, "");
    BlockMark(lines, 2, 0, first, "");
    BlockMark(lines, 3, 2, last, rest);
  }

  /** A line that takes the scan out of a block is not read again as the beginning of the path: the
      well-indented path on the last two lines is not found. */
  lemma LeavingLineIsNotReread(top: string, first: string, last: string, rest: string)
    requires PlainKey(top) && PlainKey(first) && PlainKey(last) && EndsPlain(rest) && top != first && first != last
    ensures var ms := Marks(TwiceNested(top, first, last, rest));
            && Spells(ms, [first, last], [2, 3], 4) && ms[2].indent < ms[3].indent
            && Target(ms, [first, last]).None?
  {
    NestedLinesRead(top, first, last, rest);
    MissesNested(NestedMarks(top, first, last), top, first, last);
  }

  lemma MissesNested(ms: seq<Mark>, top: string, first: string, last: string)
    requires top != first && first != last
    requires ms == NestedMarks(top, first, last)
    ensures Spells(ms, [first, last], [2, 3], 4)
    ensures Target(ms, [first, last]).None?
  {
    var path := [first, last];
    AfterLine(ms, path, 0);
    AfterLine(ms, path, 1);
    AfterLine(ms, path, 2);
    AfterLine(ms, path, 3);
    assert ms[..4] == ms;
    TargetCompletes(ms, path);
  }

  // ---- the component test ------------------------------------------------------------------------

  predicate IsWord(c: char)
  {
    'a' <= c <= 'z' || 'A' <= c <= 'Z' || '0' <= c <= '9' || c == '_'
  }

  predicate Boundary(text: string, i: nat)
    requires i <= |text|
  {
    (i > 0 && IsWord(text[i - 1])) != (i < |text| && IsWord(text[i]))
  }

  /** \bname\b for a name without metacharacters. */
  function WordTest(name: string, text: string): Option<bool>
  {
    Some(exists i :: 0 <= i <= |text| && StartsAt(text, name, i) && Boundary(text, i) && Boundary(text, i + |name|))
  }

  lemma WordTestIsFaithful(name: string)
    ensures Faithful(WordTest, name) && WellFormed(WordTest, name)
  {
    forall text | WordTest(name, text) == Some(true) ensures Occurs(text, name) {
      var i :| 0 <= i <= |text| && StartsAt(text, name, i);
    }
  }

  /** A name with metacharacters may be accepted on a line without it, which then shows column 0. */
  lemma ColumnZeroExactlyWhen(lines: seq<string>, i: nat, name: string)
    requires i < |lines|
    ensures PlaceOf(lines, i, name).column == 0 <==> !Occurs(lines[i], name)
  {
    if Occurs(lines[i], name) {
      OccurrenceIsExact(lines, i, name);
    }
  }

  // ---- findings ------------------------------------------------------------------------------------

  /** Where findings are shown, with the fallback to the first line; None: the finder throws. */
  function Located(lines: seq<string>, test: Tester, path: seq<string>, component: Option<string>): Option<(nat, nat)>
  {
    match PositionOf(lines, path, component, test)
    case Threw => None
    case NotFound => Some((1, 1))
    case Found(p) => Some((p.line, p.column))
  }

  function Locating(lines: seq<string>, test: Tester): Validation.Locate
  {
    (path, component) => Located(lines, test, path, component)
  }

  /** Without a component no expression is built. */
  lemma KeyLookupNeverThrows(lines: seq<string>, test: Tester, path: seq<string>)
    ensures Locating(lines, test)(path, None).Some?
  {
  }

  /** The lookup throws with the finder, falls back to line 1, column 1 exactly for a path that is not
      completed, and otherwise gives the place found. */
  lemma LocatedExactly(lines: seq<string>, test: Tester, path: seq<string>, component: Option<string>)
    ensures var r, position := Locating(lines, test)(path, component), PositionOf(lines, path, component, test);
            && (r.None? <==> position == Threw)
            && (path == [] || Target(Marks(lines), path).None? ==> r == Some((1, 1)))
            && (position.Found? ==> r == Some((position.place.line, position.place.column)))
            && (position == NotFound <==> path == [] || Target(Marks(lines), path).None?)
  {
    if path != [] && Target(Marks(lines), path).Some? && component.Some? {
      ShownIsSomething(lines, Target(Marks(lines), path).value, path[|path| - 1], component, test);
    }
  }

  lemma ShownIsSomething(lines: seq<string>, at: nat, key: string, component: Option<string>, test: Tester)
    requires at < |lines|
    ensures Shown(lines, at, key, component, test) != NotFound
  {
  }

  /** List items are the lines that begin with a dash. */
  lemma ItemExactly(line: string)
    ensures IsItem(line) <==>
            exists i :: 0 <= i < |line| && line[i] == '-' && forall k :: 0 <= k < i ==> IsSpace(line[k])
  {
    TrimIsCut(line);
    var ind := Indent(line);
    forall i | 0 <= i < |line| && line[i] == '-' && forall k :: 0 <= k < i ==> IsSpace(line[k]) ensures i == ind { }
    if ind < |line| {
      assert Trim(line) != "" && Trim(line)[0] == line[ind];
    }
  }

  method CreateValidationError(message: string, lines: seq<string>, path: seq<string>, component: Option<string>,
                               severity: Validation.Severity, test: Tester) returns (f: Option<Validation.Finding>)
    ensures f == Validation.CreateFinding(Locating(lines, test), message, severity, path, component)
  {
    var position := FindYamlPosition(lines, path, component, test);
    match position
    case Threw => f := None;
    case NotFound => f := Some(Validation.Finding(message, severity, 1, 1, path));
    case Found(p) => f := Some(Validation.Finding(message, severity, p.line, p.column, path));
  }
}
