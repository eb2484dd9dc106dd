/** What a run of the default validators decides: deduplication loses no finding, and a config is
    judged valid exactly when what it refers to is defined. */
module ValidationProofs {
  import opened Basics
  import opened Validation
  import opened YamlText
  import opened YamlPosition

  // ---- what deduplication keeps --------------------------------------------------------------

  /** `at` lists, in order, the positions of the kept findings: the first of each place. */
  ghost predicate KeepsFirsts(all: seq<Finding>, unique: seq<Finding>, at: seq<nat>)
  {
    && |at| == |unique|
    && (forall k :: 0 <= k < |at| ==> at[k] < |all| && unique[k] == all[at[k]])
    && (forall k, j :: 0 <= k < |at| && 0 <= j < at[k] ==> !SamePlace(all[j], unique[k]))
    && (forall k, l :: 0 <= k < l < |at| ==> at[k] < at[l])
  }

  lemma {:induction false} FirstOccurrencesAt(all: seq<Finding>) returns (at: seq<nat>)
    ensures KeepsFirsts(all, FirstOccurrences(all), at)
  {
    at := [];
    if all != [] {
      var init, last := all[..|all| - 1], all[|all| - 1];
      at := FirstOccurrencesAt(init);
      assert all == init + [last];
      KeepsLater(init, FirstOccurrences(init), at, last);
      if !Seen(init, last) {
        KeepsNew(init, FirstOccurrences(init), at, last);
        at := at + [|init|];
      }
    }
  }

  lemma KeepsLater(all: seq<Finding>, unique: seq<Finding>, at: seq<nat>, last: Finding)
    requires KeepsFirsts(all, unique, at)
    ensures KeepsFirsts(all + [last], unique, at)
  {
    forall k, j | 0 <= k < |at| && 0 <= j < at[k] ensures !SamePlace((all + [last])[j], unique[k]) {
      assert (all + [last])[j] == all[j];
    }
  }

  lemma KeepsNew(all: seq<Finding>, unique: seq<Finding>, at: seq<nat>, last: Finding)
    requires KeepsFirsts(all, unique, at) && !Seen(all, last)
    ensures KeepsFirsts(all + [last], unique + [last], at + [|all|])
  {
    KeepsLater(all, unique, at, last);
    var more, next := all + [last], at + [|all|];
    forall k, j | 0 <= k < |next| && 0 <= j < next[k] ensures !SamePlace(more[j], (unique + [last])[k]) {
      assert k == |at| ==> more[j] in all;
    }
  }

  lemma {:induction false} KeptWasFound(all: seq<Finding>, f: Finding)
    requires f in FirstOccurrences(all)
    ensures f in all
  {
    if f != all[|all| - 1] {
      KeptWasFound(all[..|all| - 1], f);
    }
  }

  lemma {:induction false} NothingIsLost(all: seq<Finding>, f: Finding)
    requires f in all
    ensures Seen(FirstOccurrences(all), f)
  {
    var init, last := all[..|all| - 1], all[|all| - 1];
    assert all == init + [last];
    if f in init {
      NothingIsLost(init, f);
      var g :| g in FirstOccurrences(init) && SamePlace(g, f);
      assert g in FirstOccurrences(all);
    } else if Seen(init, last) {
      var h :| h in init && SamePlace(h, last);
      NothingIsLost(init, h);
      var g :| g in FirstOccurrences(init) && SamePlace(g, h);
      assert g in FirstOccurrences(all);
    } else {
      assert last in FirstOccurrences(all);
    }
  }

  // ---- severity follows the message -----------------------------------------------------------

  /** Only the message of a warning has 'i' as its second letter, so an error and a warning never
      share a key. */
  predicate Honest(f: Finding)
  {
    |f.message| > 1 && (f.severity.Warning? <==> f.message[1] == 'i')
  }

  predicate AllHonest(fs: seq<Finding>)
  {
    forall f <- fs :: Honest(f)
  }

  predicate HasError(fs: seq<Finding>)
  {
    exists f <- fs :: f.severity.Error?
  }

  lemma ErrorsSurvive(all: seq<Finding>)
    requires AllHonest(all)
    ensures HasError(FirstOccurrences(all)) <==> HasError(all)
  {
    if HasError(all) {
      var f :| f in all && f.severity.Error?;
      NothingIsLost(all, f);
      var g :| g in FirstOccurrences(all) && SamePlace(g, f);
      KeptWasFound(all, g);
      assert g.severity.Error?;
    }
    if HasError(FirstOccurrences(all)) {
      var g :| g in FirstOccurrences(all) && g.severity.Error?;
      KeptWasFound(all, g);
    }
  }

  lemma SecondLetter(head: string, tail: string)
    requires |head| > 1
    ensures |head + tail| > 1 && (head + tail)[1] == head[1]
  {
  }

  lemma ComponentIsHonest(locate: Locate, role: Role, pipeline: string, component: string)
    ensures var f := UndefinedComponent(locate, role, pipeline, component);
            f.Some? ==> Honest(f.value) && f.value.severity.Error?
  {
    SecondLetter(Label(role), Complaint(role, pipeline, component));
  }

  lemma ExtensionIsHonest(locate: Locate, extension: string)
    ensures var f := UndefinedExtension(locate, extension); f.Some? ==> Honest(f.value) && f.value.severity.Error?
  {
    var rest := extension + "' is used in service but not defined in extensions section";
    SecondLetter("Extension '", rest);
    assert "Extension '" + extension + "' is used in service but not defined in extensions section" ==
           "Extension '" + rest;
  }

  lemma MissingIsHonest(locate: Locate, pipeline: string, what: string)
    ensures var f := MissingComponent(locate, pipeline, what); f.Some? ==> Honest(f.value) && f.value.severity.Warning?
  {
    var rest := pipeline + "' must have at least one " + what;
    SecondLetter("Pipeline '", rest);
    assert "Pipeline '" + pipeline + "' must have at least one " + what == "Pipeline '" + rest;
  }

  // ---- when the validators throw, and what they find otherwise ----------------------------------

  /** A validator that does not throw finds an error exactly when `bad` holds, and only honest ones. */
  predicate Finds(fs: Findings, bad: bool)
  {
    fs.Some? ==> AllHonest(fs.value) && (HasError(fs.value) <==> bad)
  }

  lemma BothFind(a: Findings, p: bool, b: Findings, q: bool)
    requires Finds(a, p) && Finds(b, q)
    ensures Finds(Both(a, b), p || q)
  {
    if a.Some? && b.Some? {
      assert forall f <- a.value :: f in a.value + b.value;
      assert forall f <- b.value :: f in a.value + b.value;
    }
  }

  lemma OneFinds(f: Option<Finding>)
    ensures f.Some? && Honest(f.value) ==> Finds(One(f), f.value.severity.Error?)
  {
    if f.Some? {
      assert f.value in [f.value];
    }
  }

  predicate AllDefined(refs: seq<string>, defined: set<string>)
  {
    forall r <- refs :: r in defined
  }

  /** The position of some undefined reference cannot be looked up. */
  predicate LookupThrows(locate: Locate, path: seq<string>, refs: seq<string>, defined: set<string>)
  {
    exists r <- refs :: r !in defined && locate(path, Some(r)).None?
  }

  predicate RoleDefined(c: Config, p: Refs, role: Role)
  {
    AllDefined(ListOf(RefsOf(p, role)), DefinedFor(c, role))
  }

  /** Connectors count as receivers and as exporters. */
  predicate PipelineDefined(c: Config, p: Refs)
  {
    && AllDefined(ListOf(p.receivers), c.receivers + c.connectors)
    && AllDefined(ListOf(p.processors), c.processors)
    && AllDefined(ListOf(p.exporters), c.exporters + c.connectors)
  }

  predicate RoleThrows(locate: Locate, c: Config, name: string, p: Refs, role: Role)
  {
    LookupThrows(locate, RolePath(role, name), ListOf(RefsOf(p, role)), DefinedFor(c, role))
  }

  predicate PipelineThrows(locate: Locate, c: Config, name: string, p: Refs)
  {
    || RoleThrows(locate, c, name, p, Receiver)
    || RoleThrows(locate, c, name, p, Processor)
    || RoleThrows(locate, c, name, p, Exporter)
  }

  predicate PipelinesDefined(c: Config, ps: seq<(string, Option<Refs>)>)
  {
    forall p <- ps :: p.1.Some? ==> PipelineDefined(c, p.1.value)
  }

  /** Some pipeline is null, or the position of something undefined in one cannot be looked up. */
  predicate PipelinesThrow(locate: Locate, c: Config, ps: seq<(string, Option<Refs>)>)
  {
    exists p <- ps :: p.1.None? || PipelineThrows(locate, c, p.0, p.1.value)
  }

  lemma {:induction false} RefsDecide(locate: Locate, role: Role, pipeline: string, refs: seq<string>,
                                      defined: set<string>)
    ensures var fs := RefFindings(locate, role, pipeline, refs, defined);
            && (fs.None? <==> LookupThrows(locate, RolePath(role, pipeline), refs, defined))
            && Finds(fs, !AllDefined(refs, defined))
  {
    if refs != [] {
      var head, rest := refs[0], refs[1..];
      assert refs == [head] + rest;
      RefsDecide(locate, role, pipeline, rest, defined);
      var f := UndefinedComponent(locate, role, pipeline, head);
      ComponentIsHonest(locate, role, pipeline, head);
      OneFinds(f);
      BothFind(if head in defined then Some([]) else One(f), head !in defined,
               RefFindings(locate, role, pipeline, rest, defined), !AllDefined(rest, defined));
    }
  }

  /** The extensions validator throws exactly when the position of an undefined extension cannot be
      looked up, and otherwise finds an error exactly when some extension is undefined. */
  lemma {:induction false} ExtensionsDecide(locate: Locate, refs: seq<string>, defined: set<string>)
    ensures var fs := ExtensionFindings(locate, refs, defined);
            && (fs.None? <==> LookupThrows(locate, EXTENSIONS_PATH, refs, defined))
            && Finds(fs, !AllDefined(refs, defined))
  {
    if refs != [] {
      var head, rest := refs[0], refs[1..];
      assert refs == [head] + rest;
      ExtensionsDecide(locate, rest, defined);
      var f := UndefinedExtension(locate, head);
      ExtensionIsHonest(locate, head);
      OneFinds(f);
      BothFind(if head in defined then Some([]) else One(f), head !in defined,
               ExtensionFindings(locate, rest, defined), !AllDefined(rest, defined));
    }
  }

  lemma RoleDecides(locate: Locate, c: Config, name: string, p: Refs, role: Role)
    ensures var fs := RoleFindings(locate, c, name, p, role);
            (fs.None? <==> RoleThrows(locate, c, name, p, role)) && Finds(fs, !RoleDefined(c, p, role))
  {
    RefsDecide(locate, role, name, ListOf(RefsOf(p, role)), DefinedFor(c, role));
  }

  lemma PipelineDecides(locate: Locate, c: Config, name: string, p: Refs)
    ensures var fs := PipelineFindings(locate, c, name, p);
            (fs.None? <==> PipelineThrows(locate, c, name, p)) && Finds(fs, !PipelineDefined(c, p))
  {
    RoleDecides(locate, c, name, p, Receiver);
    RoleDecides(locate, c, name, p, Processor);
    RoleDecides(locate, c, name, p, Exporter);
    var b, d := RoleFindings(locate, c, name, p, Processor), RoleFindings(locate, c, name, p, Exporter);
    BothFind(b, !RoleDefined(c, p, Processor), d, !RoleDefined(c, p, Exporter));
    BothFind(RoleFindings(locate, c, name, p, Receiver), !RoleDefined(c, p, Receiver),
             Both(b, d), !RoleDefined(c, p, Processor) || !RoleDefined(c, p, Exporter));
  }

  /** The pipeline validator throws exactly when a pipeline is null or the position of an undefined
      reference cannot be looked up, and otherwise finds an error exactly when some reference is
      undefined. */
  lemma {:induction false} PipelinesDecide(locate: Locate, c: Config, ps: seq<(string, Option<Refs>)>)
    ensures var fs := AllPipelineFindings(locate, c, ps);
            (fs.None? <==> PipelinesThrow(locate, c, ps)) && Finds(fs, !PipelinesDefined(c, ps))
  {
    if ps != [] {
      var head, rest := ps[0], ps[1..];
      assert ps == [head] + rest;
      PipelinesDecide(locate, c, rest);
      if head.1.Some? {
        PipelineDecides(locate, c, head.0, head.1.value);
        BothFind(PipelineFindings(locate, c, head.0, head.1.value), !PipelineDefined(c, head.1.value),
                 AllPipelineFindings(locate, c, rest), !PipelinesDefined(c, rest));
      }
    }
  }

  lemma MissingFinds(locate: Locate, name: string, refs: Option<seq<string>>, what: string)
    ensures Finds(MissingFindings(locate, name, refs, what), false)
  {
    MissingIsHonest(locate, name, what);
    OneFinds(MissingComponent(locate, name, what));
  }

  lemma {:induction false} EmptyPipelinesOnlyWarn(locate: Locate, ps: seq<(string, Option<Refs>)>)
    ensures Finds(EmptyFindings(locate, ps), false)
    ensures (forall path :: locate(path, None).Some?) ==> (EmptyFindings(locate, ps).None? <==> HasNullPipeline(ps))
  {
    if ps != [] {
      var head, rest := ps[0], ps[1..];
      assert ps == [head] + rest;
      EmptyPipelinesOnlyWarn(locate, rest);
      if head.1.Some? {
        var p := head.1.value;
        MissingFinds(locate, head.0, p.receivers, "receiver");
        MissingFinds(locate, head.0, p.exporters, "exporter");
        var a := MissingFindings(locate, head.0, p.receivers, "receiver");
        var b := MissingFindings(locate, head.0, p.exporters, "exporter");
        BothFind(a, false, b, false);
        BothFind(Both(a, b), false, EmptyFindings(locate, rest), false);
      }
    }
  }

  predicate HasNullPipeline(ps: seq<(string, Option<Refs>)>)
  {
    exists p <- ps :: p.1.None?
  }

  // ---- which findings there are -----------------------------------------------------------------

  /** An error about one undefined name, at the position looked up for it. */
  predicate IsErrorAt(locate: Locate, f: Finding, message: string, path: seq<string>, name: string)
  {
    && f.message == message && f.severity == Error && f.path == path
    && locate(path, Some(name)) == Some((f.line, f.column))
  }

  function RoleMessage(role: Role, pipeline: string, name: string): string
  {
    var used := name + "' is used in pipeline '" + pipeline + "' but not defined in ";
    match role
    case Receiver => "Receiver '" + (used + "receivers" + " section")
    case Processor => "Processor '" + (used + "processors" + " section")
    case Exporter => "Exporter '" + (used + "exporters" + " section")
  }

  lemma RoleMessageIs(locate: Locate, role: Role, pipeline: string, name: string)
    ensures var f := UndefinedComponent(locate, role, pipeline, name);
            f.Some? ==> IsErrorAt(locate, f.value, RoleMessage(role, pipeline, name), RolePath(role, pipeline), name)
    ensures UndefinedComponent(locate, role, pipeline, name).None? <==>
            locate(RolePath(role, pipeline), Some(name)).None?
  {
  }

  /** The findings about a list of references, unless the validator throws, are exactly the errors about
      the undefined ones: each names the component, its pipeline and the section it should be defined
      in, at its own position. */
  lemma {:induction false} FindingsAreUndefinedRefs(locate: Locate, role: Role, pipeline: string, refs: seq<string>,
                                                    defined: set<string>, f: Finding)
    ensures var fs := RefFindings(locate, role, pipeline, refs, defined);
            fs.Some? ==>
              (f in fs.value <==>
               exists r <- refs :: r !in defined &&
                                   IsErrorAt(locate, f, RoleMessage(role, pipeline, r), RolePath(role, pipeline), r))
  {
    if refs != [] {
      var head, rest := refs[0], refs[1..];
      assert refs == [head] + rest;
      FindingsAreUndefinedRefs(locate, role, pipeline, rest, defined, f);
      RoleMessageIs(locate, role, pipeline, head);
      if head !in defined && UndefinedComponent(locate, role, pipeline, head).Some? {
        ErrorIsUnique(locate, f, UndefinedComponent(locate, role, pipeline, head).value,
                      RoleMessage(role, pipeline, head), RolePath(role, pipeline), head);
      }
    }
  }

  lemma ErrorIsUnique(locate: Locate, f: Finding, g: Finding, message: string, path: seq<string>, name: string)
    requires IsErrorAt(locate, g, message, path, name)
    ensures IsErrorAt(locate, f, message, path, name) <==> f == g
  {
  }

  function ExtensionMessage(name: string): string
  {
    "Extension '" + name + "' is used in service but not defined in extensions section"
  }

  lemma {:induction false} FindingsAreUndefinedExtensions(locate: Locate, refs: seq<string>, defined: set<string>,
                                                          f: Finding)
    ensures var fs := ExtensionFindings(locate, refs, defined);
            fs.Some? ==>
              (f in fs.value <==>
               exists r <- refs :: r !in defined &&
                                   IsErrorAt(locate, f, ExtensionMessage(r), ["service", "extensions"], r))
  {
    if refs != [] {
      var head, rest := refs[0], refs[1..];
      assert refs == [head] + rest;
      FindingsAreUndefinedExtensions(locate, rest, defined, f);
      if head !in defined && UndefinedExtension(locate, head).Some? {
        ErrorIsUnique(locate, f, UndefinedExtension(locate, head).value, ExtensionMessage(head),
                      ["service", "extensions"], head);
      }
    }
  }

  /** A pipeline is warned about exactly if it names no receiver, or no exporter. */
  predicate WarnsOf(locate: Locate, name: string, p: Refs, f: Finding)
  {
    && f.severity == Warning && f.path == ["service", "pipelines", name]
    && locate(f.path, None) == Some((f.line, f.column))
    && (|| (&& f.message == "Pipeline '" + name + "' must have at least one receiver"
            && (p.receivers.None? || p.receivers.value == []))
        || (&& f.message == "Pipeline '" + name + "' must have at least one exporter"
            && (p.exporters.None? || p.exporters.value == [])))
  }

  lemma WarningIs(locate: Locate, name: string, refs: Option<seq<string>>, what: string, f: Finding)
    ensures var fs := MissingFindings(locate, name, refs, what);
            fs.Some? ==>
              (f in fs.value <==>
               && (refs.None? || refs.value == [])
               && f.severity == Warning && f.path == ["service", "pipelines", name]
               && locate(f.path, None) == Some((f.line, f.column))
               && f.message == "Pipeline '" + name + "' must have at least one " + what)
  {
  }

  lemma MessageText(name: string)
    ensures "Pipeline '" + name + "' must have at least one " + "receiver" ==
            "Pipeline '" + name + "' must have at least one receiver"
    ensures "Pipeline '" + name + "' must have at least one " + "exporter" ==
            "Pipeline '" + name + "' must have at least one exporter"
  {
    assert "' must have at least one " + "receiver" == "' must have at least one receiver";
    assert "' must have at least one " + "exporter" == "' must have at least one exporter";
    var head := "Pipeline '" + name;
    assert head + "' must have at least one " + "receiver" == head + ("' must have at least one " + "receiver");
    assert head + "' must have at least one " + "exporter" == head + ("' must have at least one " + "exporter");
  }

  lemma PipelineWarnings(locate: Locate, name: string, p: Refs, f: Finding)
    ensures var fs := Both(MissingFindings(locate, name, p.receivers, "receiver"),
                           MissingFindings(locate, name, p.exporters, "exporter"));
            fs.Some? ==> (f in fs.value <==> WarnsOf(locate, name, p, f))
  {
    WarningIs(locate, name, p.receivers, "receiver", f);
    WarningIs(locate, name, p.exporters, "exporter", f);
    MessageText(name);
  }

  /** Unless it throws, the third validator warns of exactly the pipelines without receivers or
      exporters. */
  lemma {:induction false} WarnsExactlyWhen(locate: Locate, ps: seq<(string, Option<Refs>)>, f: Finding)
    ensures var fs := EmptyFindings(locate, ps);
            fs.Some? ==> (f in fs.value <==> exists p <- ps :: p.1.Some? && WarnsOf(locate, p.0, p.1.value, f))
  {
    if ps != [] {
      var head, rest := ps[0], ps[1..];
      assert ps == [head] + rest;
      WarnsExactlyWhen(locate, rest, f);
      if head.1.Some? {
        PipelineWarnings(locate, head.0, head.1.value, f);
      }
    }
  }

  /** Errors about pipelines first, then about extensions, then warnings. */
  function Rank(f: Finding): nat
  {
    if f.severity == Warning then 2 else if f.path == ["service", "extensions"] then 1 else 0
  }

  predicate AllRanked(fs: seq<Finding>, rank: nat)
  {
    forall f <- fs :: Rank(f) == rank
  }

  lemma {:induction false} RefsRank(locate: Locate, role: Role, pipeline: string, refs: seq<string>,
                                    defined: set<string>)
    ensures var fs := RefFindings(locate, role, pipeline, refs, defined); fs.Some? ==> AllRanked(fs.value, 0)
  {
    if refs != [] {
      RefsRank(locate, role, pipeline, refs[1..], defined);
      assert |RolePath(role, pipeline)| == 4;
    }
  }

  lemma {:induction false} PipelinesRank(locate: Locate, c: Config, ps: seq<(string, Option<Refs>)>)
    ensures AllRanked(OrNothing(AllPipelineFindings(locate, c, ps)), 0)
  {
    if ps != [] {
      PipelinesRank(locate, c, ps[1..]);
      if ps[0].1.Some? {
        var name, p := ps[0].0, ps[0].1.value;
        RefsRank(locate, Receiver, name, ListOf(RefsOf(p, Receiver)), DefinedFor(c, Receiver));
        RefsRank(locate, Processor, name, ListOf(RefsOf(p, Processor)), DefinedFor(c, Processor));
        RefsRank(locate, Exporter, name, ListOf(RefsOf(p, Exporter)), DefinedFor(c, Exporter));
      }
    }
  }

  lemma {:induction false} ExtensionsRank(locate: Locate, refs: seq<string>, defined: set<string>)
    ensures AllRanked(OrNothing(ExtensionFindings(locate, refs, defined)), 1)
  {
    if refs != [] {
      ExtensionsRank(locate, refs[1..], defined);
    }
  }

  lemma {:induction false} WarningsRank(locate: Locate, ps: seq<(string, Option<Refs>)>)
    ensures AllRanked(OrNothing(EmptyFindings(locate, ps)), 2)
  {
    if ps != [] {
      WarningsRank(locate, ps[1..]);
    }
  }

  lemma FindingsAreOrdered(locate: Locate, parsed: Option<Config>, i: nat, j: nat)
    requires i < j < |AllFindings(locate, parsed)|
    ensures Rank(AllFindings(locate, parsed)[i]) <= Rank(AllFindings(locate, parsed)[j])
  {
    var c := parsed.value;
    var ps := if c.pipelines.Some? then c.pipelines.value else [];
    PipelinesRank(locate, c, ps);
    ExtensionsRank(locate, ListOf(c.serviceExtensions), c.extensions);
    WarningsRank(locate, ps);
  }

  /** The verdict of the default validators: each of the two that report errors throws, or everything
      it looks at is defined. */
  predicate Accepts(locate: Locate, c: Config)
  {
    var ps := if c.pipelines.Some? then c.pipelines.value else [];
    var extensions := ListOf(c.serviceExtensions);
    && (PipelinesThrow(locate, c, ps) || PipelinesDefined(c, ps))
    && (LookupThrows(locate, EXTENSIONS_PATH, extensions, c.extensions) || AllDefined(extensions, c.extensions))
  }

  lemma ErrorsAdd(fs: seq<Finding>, gs: seq<Finding>)
    ensures HasError(fs + gs) <==> HasError(fs) || HasError(gs)
    ensures AllHonest(fs) && AllHonest(gs) ==> AllHonest(fs + gs)
  {
    assert forall f <- fs :: f in fs + gs;
    assert forall f <- gs :: f in fs + gs;
  }

  lemma FindingsDecide(locate: Locate, parsed: Option<Config>)
    ensures AllHonest(AllFindings(locate, parsed))
    ensures HasError(AllFindings(locate, parsed)) <==> parsed.Some? && !Accepts(locate, parsed.value)
  {
    if parsed.Some? {
      var c := parsed.value;
      var ps := if c.pipelines.Some? then c.pipelines.value else [];
      PipelinesDecide(locate, c, ps);
      ExtensionsDecide(locate, ListOf(c.serviceExtensions), c.extensions);
      EmptyPipelinesOnlyWarn(locate, ps);
      var fs := OrNothing(AllPipelineFindings(locate, c, ps));
      var gs := OrNothing(ExtensionFindings(locate, ListOf(c.serviceExtensions), c.extensions));
      ErrorsAdd(fs, gs);
      ErrorsAdd(fs + gs, OrNothing(EmptyFindings(locate, ps)));
    }
  }

  method ValidateYamlConfig(locate: Locate, parsed: Option<Config>) returns (valid: bool, errors: seq<Finding>)
    ensures errors == FirstOccurrences(AllFindings(locate, parsed))
    ensures valid <==> parsed.None? || Accepts(locate, parsed.value)
  {
    var all := Collect(locate, parsed);
    errors := Dedupe(all);
    valid := forall f <- errors :: f.severity != Error;
    FindingsDecide(locate, parsed);
    ErrorsSurvive(all);
  }

  /** Whatever can be looked up everywhere gives the promised verdict on pipelines that are objects:
      valid exactly when everything referred to is defined. */
  lemma VerdictIsDefinedness(locate: Locate, c: Config)
    requires forall path, component :: locate(path, component).Some?
    requires c.pipelines.Some? ==> !HasNullPipeline(c.pipelines.value)
    ensures Accepts(locate, c) <==>
            && (c.pipelines.Some? ==> PipelinesDefined(c, c.pipelines.value))
            && AllDefined(ListOf(c.serviceExtensions), c.extensions)
  {
  }

  lemma NullPipelineHidesErrors(locate: Locate)
    ensures var c := Config({}, {}, {}, {}, {}, Some([("a", None), ("b", Some(Refs(Some(["x"]), None, None)))]), None);
            Accepts(locate, c) && !PipelinesDefined(c, c.pipelines.value)
  {
    var ps := [("a", None), ("b", Some(Refs(Some(["x"]), None, None)))];
    assert ps[0].1.None? && ps[1] in ps;
    assert "x" in ListOf(ps[1].1.value.receivers);
  }

  // ---- a name that is no pattern -------------------------------------------------------------------

  /** Four nested keys, the last one with something after its colon. */
  function Nested(a: string, b: string, c: string, d: string, rest: string): seq<string>
  {
    [BlockLine(0, a, ""), BlockLine(2, b, ""), BlockLine(4, c, ""), BlockLine(6, d, rest)]
  }

  lemma NestedIsFound(a: string, b: string, c: string, d: string, rest: string)
    requires PlainKey(a) && PlainKey(b) && PlainKey(c) && PlainKey(d) && EndsPlain(rest)
    ensures Target(Marks(Nested(a, b, c, d, rest)), [a, b, c, d]) == Some(3)
  {
    var lines := Nested(a, b, c, d, rest);
    BlockMark(lines, 0, 0, a, "");
    BlockMark(lines, 1, 2, b, "");
    BlockMark(lines, 2, 4, c, "");
    BlockMark(lines, 3, 6, d, rest);
    KeysInOrder(Marks(lines), [a, b, c, d]);
  }

  /** The lines
        service:
          pipelines:
            traces:
              receivers: ["name"] */
  function OneReceiver(name: string): seq<string>
  {
    Nested("service", "pipelines", "traces", "receivers", " [" + Quoted(name) + "]")
  }

  function Quoted(name: string): string
  {
    "\"" + name + "\""
  }

  function OneReceiverParsed(name: string): Config
  {
    Config({}, {}, {}, {}, {}, Some([("traces", Some(Refs(Some([name]), None, None)))]), None)
  }

  lemma PlainKeys()
    ensures PlainKey("service") && PlainKey("pipelines") && PlainKey("traces") && PlainKey("receivers")
  {
  }

  lemma KeysInOrder(ms: seq<Mark>, path: seq<string>)
    requires |ms| == |path| > 0 && forall i :: 0 <= i < |ms| ==> ms[i].key == Some(path[i]) && !ms[i].skipped
    ensures Target(ms, path) == Some(|path| - 1)
  {
    KeysRead(ms, path, |path| - 1);
    KeysRead(ms, path, |path|);
    assert ms[..|path|] == ms;
    TargetCompletes(ms[..|path| - 1], path);
  }

  lemma {:induction false} KeysRead(ms: seq<Mark>, path: seq<string>, i: nat)
    requires |ms| == |path| && forall i :: 0 <= i < |ms| ==> ms[i].key == Some(path[i]) && !ms[i].skipped
    requires i <= |path|
    ensures After(ms[..i], path).index == i
  {
    if i > 0 {
      KeysRead(ms, path, i - 1);
      AfterLine(ms, path, i - 1);
    }
  }

  lemma NestedLookupThrows(a: string, b: string, c: string, d: string, items: string, name: string, test: Tester)
    requires PlainKey(a) && PlainKey(b) && PlainKey(c) && PlainKey(d) && items != "" && ']' !in items
    requires name != "" && Malformed(test, name)
    ensures PositionOf(Nested(a, b, c, d, " [" + items + "]"), [a, b, c, d], Some(name), test) == Threw
  {
    var lines := Nested(a, b, c, d, " [" + items + "]");
    NestedIsFound(a, b, c, d, " [" + items + "]");
    InlineListRead(6, d, items);
    ThrowsExactlyWhen(lines, [a, b, c, d], name, test);
  }

  lemma ReceiverLookupThrows(name: string, test: Tester)
    requires name != "" && ']' !in name && Malformed(test, name)
    ensures PositionOf(OneReceiver(name), RolePath(Receiver, "traces"), Some(name), test) == Threw
  {
    PlainKeys();
    NestedLookupThrows("service", "pipelines", "traces", "receivers", Quoted(name), name, test);
  }

  /** Looking up an undefined receiver whose name makes the expression malformed throws, and the
      config is judged valid. */
  lemma MalformedNameHidesErrors(name: string, test: Tester)
    requires name != "" && ']' !in name && Malformed(test, name)
    ensures var c := OneReceiverParsed(name);
            Accepts(Locating(OneReceiver(name), test), c) && !PipelinesDefined(c, c.pipelines.value)
  {
    var locate, c := Locating(OneReceiver(name), test), OneReceiverParsed(name);
    ReceiverLookupThrows(name, test);
    assert locate(RolePath(Receiver, "traces"), Some(name)).None?;
    assert name in [name] && c.pipelines.value[0] in c.pipelines.value;
    assert RoleThrows(locate, c, "traces", c.pipelines.value[0].1.value, Receiver);
  }

  /** For instance receivers: ["foo("]. */
  lemma UnclosedGroupIsAccepted(test: Tester)
    requires Malformed(test, "foo(")
    ensures var c := OneReceiverParsed("foo(");
            Accepts(Locating(OneReceiver("foo("), test), c) && !PipelinesDefined(c, c.pipelines.value)
  {
    MalformedNameHidesErrors("foo(", test);
  }
}
