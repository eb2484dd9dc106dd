/** Validation of collector configs in the UI (ui/src/lib/validation): the three default validators
    and the run that collects, deduplicates and judges their findings. `locate` gives the 1-based
    position of a finding, or None when looking it up throws; nothing is assumed of it. A validator
    throws with its lookups and on a pipeline that is null. */
module Validation {
  import opened Basics

  datatype Severity = Error | Warning

  datatype Finding = Finding(message: string, severity: Severity, line: nat, column: nat, path: seq<string>)

  datatype Refs = Refs(receivers: Option<seq<string>>, processors: Option<seq<string>>, exporters: Option<seq<string>>)

  /** The parsed config: the component names of each section, and what the service refers to. */
  datatype Config = Config(
    receivers: set<string>,
    processors: set<string>,
    exporters: set<string>,
    connectors: set<string>,
    extensions: set<string>,
    pipelines: Option<seq<(string, Option<Refs>)>>,
    serviceExtensions: Option<seq<string>>)

  type Locate = (seq<string>, Option<string>) -> Option<(nat, nat)>

  /** What a validator has found; None: it has thrown. */
  type Findings = Option<seq<Finding>>

  datatype Role = Receiver | Processor | Exporter

  function Label(role: Role): string
  {
    match role case Receiver => "Receiver '" case Processor => "Processor '" case Exporter => "Exporter '"
  }

  function Plural(role: Role): string
  {
    match role case Receiver => "receivers" case Processor => "processors" case Exporter => "exporters"
  }

  function CreateFinding(locate: Locate, message: string, severity: Severity, path: seq<string>,
                         component: Option<string>): Option<Finding>
  {
    match locate(path, component)
    case None => None
    case Some((line, column)) => Some(Finding(message, severity, line, column, path))
  }

  function Complaint(role: Role, pipeline: string, component: string): string
  {
    component + "' is used in pipeline '" + pipeline + "' but not defined in " + Plural(role) + " section"
  }

  function RolePath(role: Role, pipeline: string): seq<string>
  {
    ["service", "pipelines", pipeline, Plural(role)]
  }

  function UndefinedComponent(locate: Locate, role: Role, pipeline: string, component: string): Option<Finding>
  {
    CreateFinding(locate, Label(role) + Complaint(role, pipeline, component), Error, RolePath(role, pipeline),
                  Some(component))
  }

  const EXTENSIONS_PATH := ["service", "extensions"]

  function UndefinedExtension(locate: Locate, extension: string): Option<Finding>
  {
    CreateFinding(locate,
                  "Extension '" + extension + "' is used in service but not defined in extensions section",
                  Error, EXTENSIONS_PATH, Some(extension))
  }

  function MissingComponent(locate: Locate, pipeline: string, what: string): Option<Finding>
  {
    CreateFinding(locate, "Pipeline '" + pipeline + "' must have at least one " + what,
                  Warning, ["service", "pipelines", pipeline], None)
  }

  // ---- what the validators report ----------------------------------------------------------

  /** The findings of two parts of a validator, one after the other. */
  function Both(a: Findings, b: Findings): Findings
  {
    if a.None? || b.None? then None else Some(a.value + b.value)
  }

  lemma BothAssociates(a: Findings, b: Findings, c: Findings)
    ensures Both(Both(a, b), c) == Both(a, Both(b, c))
  {
    if a.Some? && b.Some? && c.Some? {
      assert a.value + b.value + c.value == a.value + (b.value + c.value);
    }
  }

  lemma BothEmpty(a: seq<Finding>)
    ensures Both(Some(a), Some([])) == Some(a) && Both(Some([]), Some(a)) == Some(a)
  {
    assert a + [] == a && [] + a == a;
  }

  function One(f: Option<Finding>): Findings
  {
    if f.None? then None else Some([f.value])
  }

  function RefFindings(locate: Locate, role: Role, pipeline: string, refs: seq<string>, defined: set<string>): Findings
  {
    if refs == [] then Some([]) else
    Both(if refs[0] in defined then Some([]) else One(UndefinedComponent(locate, role, pipeline, refs[0])),
         RefFindings(locate, role, pipeline, refs[1..], defined))
  }

  function ListOf(refs: Option<seq<string>>): seq<string>
  {
    if refs.Some? then refs.value else []
  }

  function RefsOf(p: Refs, role: Role): Option<seq<string>>
  {
    match role case Receiver => p.receivers case Processor => p.processors case Exporter => p.exporters
  }

  function DefinedFor(c: Config, role: Role): set<string>
  {
    match role
    case Receiver => c.receivers + c.connectors
    case Processor => c.processors
    case Exporter => c.exporters + c.connectors
  }

  function RoleFindings(locate: Locate, c: Config, name: string, p: Refs, role: Role): Findings
  {
    RefFindings(locate, role, name, ListOf(RefsOf(p, role)), DefinedFor(c, role))
  }

  function PipelineFindings(locate: Locate, c: Config, name: string, p: Refs): Findings
  {
    Both(RoleFindings(locate, c, name, p, Receiver),
         Both(RoleFindings(locate, c, name, p, Processor), RoleFindings(locate, c, name, p, Exporter)))
  }

  function AllPipelineFindings(locate: Locate, c: Config, ps: seq<(string, Option<Refs>)>): Findings
  {
    if ps == [] then Some([]) else
    Both(if ps[0].1.None? then None else PipelineFindings(locate, c, ps[0].0, ps[0].1.value),
         AllPipelineFindings(locate, c, ps[1..]))
  }

  function ExtensionFindings(locate: Locate, refs: seq<string>, defined: set<string>): Findings
  {
    if refs == [] then Some([]) else
    Both(if refs[0] in defined then Some([]) else One(UndefinedExtension(locate, refs[0])),
         ExtensionFindings(locate, refs[1..], defined))
  }

  /** A warning if a pipeline names no component of a role. */
  function MissingFindings(locate: Locate, name: string, refs: Option<seq<string>>, what: string): Findings
  {
    if ListOf(refs) == [] then One(MissingComponent(locate, name, what)) else Some([])
  }

  function EmptyFindings(locate: Locate, ps: seq<(string, Option<Refs>)>): Findings
  {
    if ps == [] then Some([]) else
    Both(if ps[0].1.None? then None else
         Both(MissingFindings(locate, ps[0].0, ps[0].1.value.receivers, "receiver"),
              MissingFindings(locate, ps[0].0, ps[0].1.value.exporters, "exporter")),
         EmptyFindings(locate, ps[1..]))
  }

  // ---- the validators --------------------------------------------------------------------------

  method PushRefFindings(errors: seq<Finding>, locate: Locate, role: Role, pipeline: string, refs: Option<seq<string>>,
                         defined: set<string>) returns (r: Findings)
    ensures r == Both(Some(errors), RefFindings(locate, role, pipeline, ListOf(refs), defined))
  {
    var found := errors;
    if refs.Some? {
      var list := refs.value;
      for i := 0 to |list|
        invariant Both(Some(found), RefFindings(locate, role, pipeline, list[i..], defined)) ==
                  Both(Some(errors), RefFindings(locate, role, pipeline, list, defined))
      {
        ghost var rest := RefFindings(locate, role, pipeline, list[i + 1..], defined);
        assert list[i..][1..] == list[i + 1..];
        if list[i] !in defined {
          var f := UndefinedComponent(locate, role, pipeline, list[i]);
          if f.None? {
            return None;
          }
          BothAssociates(Some(found), Some([f.value]), rest);
          found := found + [f.value];
        } else {
          BothAssociates(Some(found), Some([]), rest);
          BothEmpty(found);
        }
      }
    }
    BothEmpty(found);
    return Some(found);
  }

  method FindInPipeline(errors: seq<Finding>, locate: Locate, c: Config, name: string, p: Refs) returns (r: Findings)
    ensures r == Both(Some(errors), PipelineFindings(locate, c, name, p))
  {
    ghost var a := RoleFindings(locate, c, name, p, Receiver);
    ghost var b := RoleFindings(locate, c, name, p, Processor);
    ghost var d := RoleFindings(locate, c, name, p, Exporter);
    BothAssociates(Some(errors), a, Both(b, d));
    BothAssociates(Both(Some(errors), a), b, d);
    r := PushRefFindings(errors, locate, Receiver, name, p.receivers, DefinedFor(c, Receiver));
    if r.Some? {
      r := PushRefFindings(r.value, locate, Processor, name, p.processors, DefinedFor(c, Processor));
    }
    if r.Some? {
      r := PushRefFindings(r.value, locate, Exporter, name, p.exporters, DefinedFor(c, Exporter));
    }
  }

  method FindInPipelines(locate: Locate, c: Config, ps: seq<(string, Option<Refs>)>) returns (r: Findings)
    ensures r == AllPipelineFindings(locate, c, ps)
  {
    var errors: seq<Finding> := [];
    ghost var all := AllPipelineFindings(locate, c, ps);
    if all.Some? {
      BothEmpty(all.value);
    }
    for i := 0 to |ps|
      invariant Both(Some(errors), AllPipelineFindings(locate, c, ps[i..])) == all
    {
      assert ps[i..][1..] == ps[i + 1..];
      if ps[i].1.None? {
        return None;
      }
      BothAssociates(Some(errors), PipelineFindings(locate, c, ps[i].0, ps[i].1.value),
                     AllPipelineFindings(locate, c, ps[i + 1..]));
      var found := FindInPipeline(errors, locate, c, ps[i].0, ps[i].1.value);
      if found.None? {
        return None;
      }
      errors := found.value;
    }
    BothEmpty(errors);
    return Some(errors);
  }

  method ValidatePipelines(locate: Locate, parsed: Option<Config>) returns (r: Findings)
    ensures r == if parsed.None? || parsed.value.pipelines.None? then Some([])
                 else AllPipelineFindings(locate, parsed.value, parsed.value.pipelines.value)
  {
    if parsed.None? || parsed.value.pipelines.None? {
      return Some([]);
    }
    r := FindInPipelines(locate, parsed.value, parsed.value.pipelines.value);
  }

  method ValidateExtensions(locate: Locate, parsed: Option<Config>) returns (r: Findings)
    ensures r == if parsed.None? then Some([])
                 else ExtensionFindings(locate, ListOf(parsed.value.serviceExtensions), parsed.value.extensions)
  {
    var errors: seq<Finding> := [];
    if parsed.None? || parsed.value.serviceExtensions.None? {
      return Some(errors);
    }
    var refs, defined := parsed.value.serviceExtensions.value, parsed.value.extensions;
    ghost var all := ExtensionFindings(locate, refs, defined);
    if all.Some? {
      BothEmpty(all.value);
    }
    for i := 0 to |refs|
      invariant Both(Some(errors), ExtensionFindings(locate, refs[i..], defined)) == all
    {
      ghost var rest := ExtensionFindings(locate, refs[i + 1..], defined);
      assert refs[i..][1..] == refs[i + 1..];
      if refs[i] !in defined {
        var f := UndefinedExtension(locate, refs[i]);
        if f.None? {
          return None;
        }
        BothAssociates(Some(errors), Some([f.value]), rest);
        errors := errors + [f.value];
      } else {
        BothAssociates(Some(errors), Some([]), rest);
        BothEmpty(errors);
      }
    }
    BothEmpty(errors);
    return Some(errors);
  }

  method PushMissing(errors: seq<Finding>, locate: Locate, name: string, refs: Option<seq<string>>, what: string)
    returns (r: Findings)
    ensures r == Both(Some(errors), MissingFindings(locate, name, refs, what))
  {
    if refs.None? || |refs.value| == 0 {
      var f := MissingComponent(locate, name, what);
      return if f.None? then None else Some(errors + [f.value]);
    }
    BothEmpty(errors);
    return Some(errors);
  }

  method ValidateEmptyPipelines(locate: Locate, parsed: Option<Config>) returns (r: Findings)
    ensures r == if parsed.None? || parsed.value.pipelines.None? then Some([])
                 else EmptyFindings(locate, parsed.value.pipelines.value)
  {
    if parsed.None? || parsed.value.pipelines.None? {
      return Some([]);
    }
    var ps := parsed.value.pipelines.value;
    var errors: seq<Finding> := [];
    ghost var all := EmptyFindings(locate, ps);
    if all.Some? {
      BothEmpty(all.value);
    }
    for i := 0 to |ps|
      invariant Both(Some(errors), EmptyFindings(locate, ps[i..])) == all
    {
      assert ps[i..][1..] == ps[i + 1..];
      if ps[i].1.None? {
        return None;
      }
      var name, p := ps[i].0, ps[i].1.value;
      ghost var a := MissingFindings(locate, name, p.receivers, "receiver");
      ghost var b := MissingFindings(locate, name, p.exporters, "exporter");
      BothAssociates(Some(errors), Both(a, b), EmptyFindings(locate, ps[i + 1..]));
      BothAssociates(Some(errors), a, b);
      var found := PushMissing(errors, locate, name, p.receivers, "receiver");
      if found.Some? {
        found := PushMissing(found.value, locate, name, p.exporters, "exporter");
      }
      if found.None? {
        return None;
      }
      errors := found.value;
    }
    BothEmpty(errors);
    return Some(errors);
  }

  // ---- the run over all validators ---------------------------------------------------------

  /** A validator that throws contributes nothing. */
  function AllFindings(locate: Locate, parsed: Option<Config>): seq<Finding>
  {
    if parsed.None? then [] else
    var c := parsed.value;
    var ps := if c.pipelines.Some? then c.pipelines.value else [];
    OrNothing(AllPipelineFindings(locate, c, ps)) +
    OrNothing(ExtensionFindings(locate, ListOf(c.serviceExtensions), c.extensions)) +
    OrNothing(EmptyFindings(locate, ps))
  }

  function OrNothing(r: Findings): seq<Finding>
  {
    if r.Some? then r.value else []
  }

  method Collect(locate: Locate, parsed: Option<Config>) returns (all: seq<Finding>)
    ensures all == AllFindings(locate, parsed)
  {
    var pipelines := ValidatePipelines(locate, parsed);
    var extensions := ValidateExtensions(locate, parsed);
    var empty := ValidateEmptyPipelines(locate, parsed);
    all := OrNothing(pipelines);
    all := all + OrNothing(extensions);
    all := all + OrNothing(empty);
  }

  // ---- deduplication -------------------------------------------------------------------------

  function Digits(n: nat): string
  {
    var last := [(48 + n % 10) as char];
    if n < 10 then last else Digits(n / 10) + last
  }

  function Key(f: Finding): string
  {
    f.message + "|" + Digits(f.line) + "|" + Digits(f.column)
  }

  predicate SamePlace(f: Finding, g: Finding)
  {
    f.message == g.message && f.line == g.line && f.column == g.column
  }

  predicate Seen(done: seq<Finding>, f: Finding)
  {
    exists g <- done :: SamePlace(g, f)
  }

  function FirstOccurrences(all: seq<Finding>): seq<Finding>
  {
    if all == [] then [] else
    var init, last := all[..|all| - 1], all[|all| - 1];
    if Seen(init, last) then FirstOccurrences(init) else FirstOccurrences(init) + [last]
  }

  function Value(digits: string): int
  {
    if digits == "" then 0 else Value(digits[..|digits| - 1]) * 10 + (digits[|digits| - 1] as int - 48)
  }

  lemma {:induction false} DigitsAreDecimal(n: nat)
    ensures forall d <- Digits(n) :: '0' <= d <= '9'
    ensures Value(Digits(n)) == n
  {
    var last := (48 + n % 10) as char;
    if n < 10 {
      assert Digits(n)[..0] == "";
    } else {
      DigitsAreDecimal(n / 10);
      assert Digits(n)[..|Digits(n)| - 1] == Digits(n / 10);
    }
  }

  lemma LastBar(a: string, x: string, b: string, y: string)
    requires a + "|" + x == b + "|" + y && '|' !in x && '|' !in y
    ensures a == b && x == y
  {
    var s, t := a + "|" + x, b + "|" + y;
    assert s[|a|] == '|' && t[|b|] == '|';
    forall k | |a| < k < |s| ensures s[k] != '|' { assert s[k] == x[k - |a| - 1]; }
    forall k | |b| < k < |t| ensures t[k] != '|' { assert t[k] == y[k - |b| - 1]; }
    assert s[..|a|] == a && t[..|b|] == b && s[|a| + 1..] == x && t[|b| + 1..] == y;
  }

  /** The key tells findings apart although messages may contain bars. */
  lemma KeyIsInjective(f: Finding, g: Finding)
    ensures Key(f) == Key(g) <==> SamePlace(f, g)
  {
    if Key(f) == Key(g) {
      DigitsAreDecimal(f.line);
      DigitsAreDecimal(g.line);
      DigitsAreDecimal(f.column);
      DigitsAreDecimal(g.column);
      LastBar(f.message + "|" + Digits(f.line), Digits(f.column), g.message + "|" + Digits(g.line), Digits(g.column));
      LastBar(f.message, Digits(f.line), g.message, Digits(g.line));
    }
  }

  ghost predicate Records(seen: set<string>, done: seq<Finding>)
  {
    forall f :: Key(f) in seen <==> Seen(done, f)
  }

  lemma RecordsMore(seen: set<string>, done: seq<Finding>, next: Finding)
    requires Records(seen, done)
    ensures Key(next) in seen <==> Seen(done, next)
    ensures Records(seen + {Key(next)}, done + [next])
    ensures Key(next) in seen ==> Records(seen, done + [next])
  {
    forall f ensures Key(f) in seen + {Key(next)} <==> Seen(done + [next], f) {
      KeyIsInjective(f, next);
      if SamePlace(next, f) {
        assert next in done + [next];
      }
    }
    assert Key(next) in seen ==> seen + {Key(next)} == seen;
  }

  method Dedupe(all: seq<Finding>) returns (unique: seq<Finding>)
    ensures unique == FirstOccurrences(all)
  {
    unique := [];
    var seen: set<string> := {};
    for i := 0 to |all|
      invariant unique == FirstOccurrences(all[..i])
      invariant Records(seen, all[..i])
    {
      assert all[..i + 1][..i] == all[..i] && all[..i + 1] == all[..i] + [all[i]];
      RecordsMore(seen, all[..i], all[i]);
      if Key(all[i]) !in seen {
        seen := seen + {Key(all[i])};
        unique := unique + [all[i]];
      }
    }
    assert all[..|all|] == all;
  }
}
