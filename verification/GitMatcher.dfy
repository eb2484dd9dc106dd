/** Label rules derived from repository paths, and the agents they select
    (internal/gitsync/matcher.go). Paths are clean, as a git tree lists them, so path.Clean leaves
    them as they are. */
module GitMatcher {
  import opened Basics
  import opened OpampAgent

  datatype FileEntry = FileEntry(path: string, sha: string)

  datatype LabelRule = LabelRule(filePath: string, selectors: map<string, string>)

  datatype AgentInfo = AgentInfo(id: Uuid, labels: map<string, string>)

  // ---- path helpers ------------------------------------------------------------------------

  function FirstSlash(s: string): (n: nat)
    ensures n <= |s| && '/' !in s[..n] && (n < |s| ==> s[n] == '/')
  {
    if s == "" || s[0] == '/' then 0 else
    var n := FirstSlash(s[1..]);
    assert s[..n + 1] == [s[0]] + s[1..][..n];
    n + 1
  }

  function Split(s: string): (parts: seq<string>)
    ensures |parts| >= 1
    decreases |s|
  {
    var n := FirstSlash(s);
    if n == |s| then [s] else [s[..n]] + Split(s[n + 1..])
  }

  lemma SplitOne(part: string)
    requires '/' !in part
    ensures Split(part) == [part]
  {
    var n := FirstSlash(part);
    if n < |part| {
      assert false;
    }
  }

  lemma SplitCons(part: string, rest: string)
    requires '/' !in part
    ensures Split(part + "/" + rest) == [part] + Split(rest)
  {
    var s := part + "/" + rest;
    assert s[..|part|] == part && s[|part|] == '/' && s[|part| + 1..] == rest;
    SlashFound(s, |part|);
  }

  lemma {:induction false} SlashFound(s: string, k: nat)
    requires k < |s| && '/' !in s[..k] && s[k] == '/'
    ensures FirstSlash(s) == k
    decreases k
  {
    if k > 0 {
      assert s[0] == s[..k][0];
      assert s[1..][..k - 1] == s[..k][1..];
      SlashFound(s[1..], k - 1);
    }
  }

  function Join(parts: seq<string>): string
    requires |parts| >= 1
  {
    if |parts| == 1 then parts[0] else parts[0] + "/" + Join(parts[1..])
  }

  lemma {:induction false} JoinSplit(s: string)
    ensures Join(Split(s)) == s
    ensures forall part <- Split(s) :: '/' !in part
    decreases |s|
  {
    var n := FirstSlash(s);
    if n < |s| {
      JoinSplit(s[n + 1..]);
      assert Split(s)[1..] == Split(s[n + 1..]);
      assert s == s[..n] + "/" + s[n + 1..];
    } else {
      assert s[..n] == s;
    }
  }

  lemma {:induction false} SplitJoin(parts: seq<string>)
    requires |parts| >= 1 && forall p <- parts :: '/' !in p
    ensures Split(Join(parts)) == parts
    decreases |parts|
  {
    if |parts| == 1 {
      SplitOne(parts[0]);
      assert parts == [parts[0]];
    } else {
      SplitJoin(parts[1..]);
      SplitCons(parts[0], Join(parts[1..]));
      assert parts == [parts[0]] + parts[1..];
    }
  }

  /** The name without its extension: everything before its last dot. */
  function Stem(s: string): (r: string)
    ensures r <= s
    decreases |s|
  {
    StemAt(s, |s|)
  }

  function StemAt(s: string, n: nat): (r: string)
    requires n <= |s|
    ensures r <= s
    decreases n
  {
    if n == 0 then s else if s[n - 1] == '.' then s[..n - 1] else StemAt(s, n - 1)
  }

  lemma {:induction false} StemAtStops(s: string, dot: nat, n: nat)
    requires dot < n <= |s| && s[dot] == '.' && forall i :: dot < i < n ==> s[i] != '.'
    ensures StemAt(s, n) == s[..dot]
    decreases n
  {
    if n - 1 > dot {
      StemAtStops(s, dot, n - 1);
    }
  }

  lemma StemOfYaml(name: string)
    ensures Stem(name + ".yaml") == name
  {
    var s := name + ".yaml";
    assert s[|name|] == '.';
    StemAtStops(s, |name|, |s|);
  }

  function TrimSlash(root: string): string
  {
    if root != "" && root[|root| - 1] == '/' then root[..|root| - 1] else root
  }

  /** The path after root/, or the empty string. */
  function RelPath(path: string, root: string): string
  {
    if root + "/" <= path then path[|root| + 1..] else ""
  }

  // ---- rules -------------------------------------------------------------------------------

  function EnvironmentSelectors(env: string, role: string): map<string, string>
  {
    var selectors: map<string, string> := map[];
    var selectors := if env != "default" then selectors["deployment.environment" := env] else selectors;
    if role != "base" && role != "default" then selectors["collector.role" := role] else selectors
  }

  function SelectorsFor(parts: seq<string>): Option<map<string, string>>
  {
    if |parts| == 3 && parts[0] == "environments" then Some(EnvironmentSelectors(parts[1], Stem(parts[2])))
    else if |parts| == 2 && parts[0] == "groups" then Some(map["group.id" := Stem(parts[1])])
    else None
  }

  function RuleFor(path: string, root: string): Option<LabelRule>
  {
    var rel := RelPath(path, root);
    if rel == "" || SelectorsFor(Split(rel)).None? then None
    else Some(LabelRule(path, SelectorsFor(Split(rel)).value))
  }

  function Rules(entries: seq<FileEntry>, root: string): (rules: seq<LabelRule>)
    ensures forall r <- rules :: exists e <- entries :: e.path == r.filePath
  {
    if entries == [] then [] else
    var rule := RuleFor(entries[|entries| - 1].path, root);
    Rules(entries[..|entries| - 1], root) + if rule.None? then [] else [rule.value]
  }

  method Selectors(parts: seq<string>) returns (r: Option<map<string, string>>)
    ensures r == SelectorsFor(parts)
  {
    if |parts| == 3 && parts[0] == "environments" {
      var env, role := parts[1], Stem(parts[2]);
      var selectors: map<string, string> := map[];
      if env != "default" {
        selectors := selectors["deployment.environment" := env];
      }
      if role != "base" && role != "default" {
        selectors := selectors["collector.role" := role];
      }
      return Some(selectors);
    } else if |parts| == 2 && parts[0] == "groups" {
      return Some(map["group.id" := Stem(parts[1])]);
    }
    return None;
  }

  method ParseRules(entries: seq<FileEntry>, configRoot: string) returns (rules: seq<LabelRule>)
    ensures rules == Rules(entries, TrimSlash(configRoot))
  {
    var root := TrimSlash(configRoot);
    rules := [];
    for i := 0 to |entries|
      invariant rules == Rules(entries[..i], root)
    {
      var e := entries[i];
      assert entries[..i + 1][..i] == entries[..i];
      var rel := RelPath(e.path, root);
      if rel == "" {
        continue;
      }
      var selectors := Selectors(Split(rel));
      if selectors.None? {
        continue;
      }
      rules := rules + [LabelRule(e.path, selectors.value)];
    }
    assert entries[..|entries|] == entries;
  }

  lemma RelPathOf(root: string, rel: string)
    ensures RelPath(root + "/" + rel, root) == rel
  {
    var path := root + "/" + rel;
    assert path[..|root| + 1] == root + "/";
  }

  /** A file makes a rule exactly when it is one of the known kinds directly under the root, and the
      selectors are those of its parts. */
  lemma RuleOfParts(root: string, parts: seq<string>)
    requires |parts| >= 2 && forall p <- parts :: '/' !in p
    ensures var path := root + "/" + Join(parts);
            RuleFor(path, root) == if SelectorsFor(parts).None? then None
            else Some(LabelRule(path, SelectorsFor(parts).value))
  {
    SplitJoin(parts);
    RelPathOf(root, Join(parts));
    assert |Join(parts)| >= 1;
  }

  ghost predicate RulePath(path: string, root: string, parts: seq<string>)
  {
    |parts| >= 2 && (forall p <- parts :: '/' !in p) && SelectorsFor(parts).Some? && path == root + "/" + Join(parts)
  }

  lemma RuleHasParts(path: string, root: string)
    requires RuleFor(path, root).Some?
    ensures RulePath(path, root, Split(RelPath(path, root)))
  {
    var rel := RelPath(path, root);
    JoinSplit(rel);
    assert path == root + "/" + rel;
  }

  lemma OtherFilesAreIgnored(path: string, root: string)
    ensures RuleFor(path, root).Some? <==> exists parts :: RulePath(path, root, parts)
  {
    if RuleFor(path, root).Some? {
      RuleHasParts(path, root);
    }
    forall parts | RulePath(path, root, parts) ensures RuleFor(path, root).Some? {
      RuleOfParts(root, parts);
    }
  }

  /** The documented conventions: an environment file selects its environment and role, except that
      "default" as environment and "base" or "default" as role select nothing. */
  lemma EnvironmentFile(root: string, env: string, role: string)
    requires '/' !in env && '/' !in role
    ensures var path := root + "/" + Join(["environments", env, role + ".yaml"]);
            RuleFor(path, root) == Some(LabelRule(path, EnvironmentSelectors(env, role)))
  {
    var parts := ["environments", env, role + ".yaml"];
    RuleOfParts(root, parts);
    StemOfYaml(role);
  }

  lemma GroupFile(root: string, group: string)
    requires '/' !in group
    ensures var path := root + "/" + Join(["groups", group + ".yaml"]);
            RuleFor(path, root) == Some(LabelRule(path, map["group.id" := group]))
  {
    RuleOfParts(root, ["groups", group + ".yaml"]);
    StemOfYaml(group);
  }

  // ---- matching ----------------------------------------------------------------------------

  /** Indexing a Go map of strings: a missing label reads as the empty string. */
  function Label(labels: map<string, string>, k: string): string
  {
    if k in labels then labels[k] else ""
  }

  ghost predicate Selects(required: map<string, string>, labels: map<string, string>)
  {
    forall k <- required :: Label(labels, k) == required[k]
  }

  method LabelsMatch(required: map<string, string>, labels: map<string, string>) returns (matches: bool)
    ensures matches <==> Selects(required, labels)
  {
    var rest := required.Keys;
    while rest != {}
      invariant rest <= required.Keys
      invariant forall k <- required.Keys - rest :: Label(labels, k) == required[k]
      decreases |rest|
    {
      var k :| k in rest;
      if Label(labels, k) != required[k] {
        return false;
      }
      rest := rest - {k};
    }
    return true;
  }

  ghost predicate HasAll(required: map<string, string>, labels: map<string, string>)
  {
    forall k <- required :: k in labels && labels[k] == required[k]
  }

  /** An agent is selected exactly when it has all required pairs, except that a required empty
      value is also met by an agent without the label. */
  lemma SelectionIsContainment(required: map<string, string>, labels: map<string, string>)
    ensures Selects(required, labels) <==>
            HasAll(required - (set k | k in required && required[k] == "" && k !in labels), labels)
  {
    var unset := set k | k in required && required[k] == "" && k !in labels;
    if HasAll(required - unset, labels) {
      forall k <- required ensures Label(labels, k) == required[k] {
        if k !in unset {
          assert k in required - unset;
        }
      }
    }
  }

  ghost function Matched(rule: LabelRule, agents: seq<AgentInfo>): seq<AgentInfo>
  {
    if agents == [] then [] else
    var last := agents[|agents| - 1];
    Matched(rule, agents[..|agents| - 1]) + if Selects(rule.selectors, last.labels) then [last] else []
  }

  method MatchAgents(rule: LabelRule, agents: seq<AgentInfo>) returns (matched: seq<AgentInfo>)
    ensures matched == Matched(rule, agents)
  {
    matched := [];
    for i := 0 to |agents|
      invariant matched == Matched(rule, agents[..i])
    {
      assert agents[..i + 1][..i] == agents[..i];
      var matches := LabelsMatch(rule.selectors, agents[i].labels);
      if matches {
        matched := matched + [agents[i]];
      }
    }
    assert agents[..|agents|] == agents;
  }

  lemma {:induction false} MatchedMember(rule: LabelRule, agents: seq<AgentInfo>, a: AgentInfo)
    ensures a in Matched(rule, agents) <==> a in agents && Selects(rule.selectors, a.labels)
  {
    if agents != [] {
      MatchedMember(rule, agents[..|agents| - 1], a);
      assert agents == agents[..|agents| - 1] + [agents[|agents| - 1]];
    }
  }

  /** Which agents a file selects, by the documented conventions: an environment file those of its
      environment and role, where "default" stands for every environment and "base" or "default" for
      every role, and a group file those of its group; nothing else makes a rule. */
  lemma FileSelects(parts: seq<string>, labels: map<string, string>)
    ensures SelectorsFor(parts).Some? <==>
            (|parts| == 3 && parts[0] == "environments") || (|parts| == 2 && parts[0] == "groups")
    ensures |parts| == 3 && parts[0] == "environments" ==>
              var role := Stem(parts[2]);
              (Selects(SelectorsFor(parts).value, labels) <==>
               && (parts[1] == "default" || Label(labels, "deployment.environment") == parts[1])
               && (role == "base" || role == "default" || Label(labels, "collector.role") == role))
    ensures |parts| == 2 && parts[0] == "groups" ==>
              (Selects(SelectorsFor(parts).value, labels) <==> Label(labels, "group.id") == Stem(parts[1]))
  {
    if |parts| == 3 && parts[0] == "environments" {
      EnvironmentSelects(parts[1], Stem(parts[2]), labels);
    } else if |parts| == 2 && parts[0] == "groups" {
      assert "group.id" in SelectorsFor(parts).value;
    }
  }

  lemma EnvironmentSelects(env: string, role: string, labels: map<string, string>)
    ensures Selects(EnvironmentSelectors(env, role), labels) <==>
            && (env == "default" || Label(labels, "deployment.environment") == env)
            && (role == "base" || role == "default" || Label(labels, "collector.role") == role)
  {
    var selectors := EnvironmentSelectors(env, role);
    assert "deployment.environment"[0] != "collector.role"[0];
    assert env != "default" ==> "deployment.environment" in selectors && selectors["deployment.environment"] == env;
    assert role != "base" && role != "default" ==> "collector.role" in selectors && selectors["collector.role"] == role;
    assert forall k <- selectors ::
        || (k == "deployment.environment" && env != "default")
        || (k == "collector.role" && role != "base" && role != "default");
  }

  // ---- order -------------------------------------------------------------------------------

  /** Strictly increasing positions, from 0 to n. */
  ghost predicate Increasing(at: seq<nat>, n: nat)
  {
    (forall k :: 0 <= k < |at| ==> at[k] < n) && forall k, l :: 0 <= k < l < |at| ==> at[k] < at[l]
  }

  /** The rule of each entry, if it makes one. */
  function RuleList(entries: seq<FileEntry>, root: string): (r: seq<Option<LabelRule>>)
    ensures |r| == |entries|
  {
    if entries == [] then []
    else RuleList(entries[..|entries| - 1], root) + [RuleFor(entries[|entries| - 1].path, root)]
  }

  lemma {:induction false} RuleListAt(entries: seq<FileEntry>, root: string, i: nat)
    requires i < |entries|
    ensures RuleList(entries, root)[i] == RuleFor(entries[i].path, root)
    decreases |entries|
  {
    if i < |entries| - 1 {
      RuleListAt(entries[..|entries| - 1], root, i);
    }
  }

  function Somes<T>(list: seq<Option<T>>): seq<T>
  {
    if list == [] then [] else
    var last := list[|list| - 1];
    Somes(list[..|list| - 1]) + if last.None? then [] else [last.value]
  }

  /** The picked values are those of the list at the positions `at`, which leave out no value. */
  ghost predicate Picks<T>(list: seq<Option<T>>, picked: seq<T>, at: seq<nat>)
  {
    && |at| == |picked| && Increasing(at, |list|)
    && (forall k :: 0 <= k < |at| ==> list[at[k]] == Some(picked[k]))
    && forall i :: 0 <= i < |list| && list[i].Some? ==> i in at
  }

  lemma PicksNone<T>(list: seq<Option<T>>, picked: seq<T>, at: seq<nat>)
    requires Picks(list, picked, at)
    ensures Picks(list + [None], picked, at)
  {
  }

  lemma PicksSome<T>(list: seq<Option<T>>, picked: seq<T>, at: seq<nat>, last: T)
    requires Picks(list, picked, at)
    ensures Picks(list + [Some(last)], picked + [last], at + [|list|])
  {
    var more, next := list + [Some(last)], at + [|list|];
    forall i | 0 <= i < |more| && more[i].Some? ensures i in next {
      assert i < |list| ==> i in at;
    }
  }

  lemma {:induction false} SomesInOrder<T>(list: seq<Option<T>>) returns (at: seq<nat>)
    ensures Picks(list, Somes(list), at)
    decreases |list|
  {
    at := [];
    if list != [] {
      var n := |list| - 1;
      at := SomesInOrder(list[..n]);
      assert list == list[..n] + [list[n]];
      if list[n].Some? {
        PicksSome(list[..n], Somes(list[..n]), at, list[n].value);
        at := at + [n];
      } else {
        PicksNone(list[..n], Somes(list[..n]), at);
      }
    }
  }

  lemma {:induction false} RulesAreSomes(entries: seq<FileEntry>, root: string)
    ensures Rules(entries, root) == Somes(RuleList(entries, root))
    decreases |entries|
  {
    if entries != [] {
      var n := |entries| - 1;
      RulesAreSomes(entries[..n], root);
      var list := RuleList(entries, root);
      assert list[..n] == RuleList(entries[..n], root);
    }
  }

  /** The rules are those of the entries that make one, all of them and in entry order. */
  lemma RulesInOrder(entries: seq<FileEntry>, root: string) returns (at: seq<nat>)
    ensures Picks(RuleList(entries, root), Rules(entries, root), at)
  {
    RulesAreSomes(entries, root);
    at := SomesInOrder(RuleList(entries, root));
  }

  /** The matched agents are the selected ones, all of them and in listing order. */
  lemma {:induction false} MatchedInOrder(rule: LabelRule, agents: seq<AgentInfo>) returns (at: seq<nat>)
    ensures var matched := Matched(rule, agents);
            && |at| == |matched| && Increasing(at, |agents|)
            && (forall k :: 0 <= k < |at| ==> matched[k] == agents[at[k]] && Selects(rule.selectors, matched[k].labels))
    ensures forall i :: 0 <= i < |agents| && Selects(rule.selectors, agents[i].labels) ==> i in at
    decreases |agents|
  {
    at := [];
    if agents != [] {
      var n := |agents| - 1;
      at := MatchedInOrder(rule, agents[..n]);
      if Selects(rule.selectors, agents[n].labels) {
        at := at + [n];
      }
    }
  }

  /** The extension is cut at the last dot; a name without a dot is kept. */
  lemma StemExactly(s: string)
    ensures '.' !in s ==> Stem(s) == s
    ensures forall dot: nat :: dot < |s| && s[dot] == '.' && '.' !in s[dot + 1..] ==> Stem(s) == s[..dot]
  {
    if '.' !in s {
      NoDotNoStem(s, |s|);
    }
    forall dot: nat | dot < |s| && s[dot] == '.' && '.' !in s[dot + 1..] ensures Stem(s) == s[..dot] {
      forall i | dot < i < |s| ensures s[i] != '.' { assert s[i] == s[dot + 1..][i - dot - 1]; }
      StemAtStops(s, dot, |s|);
    }
  }

  lemma {:induction false} NoDotNoStem(s: string, n: nat)
    requires n <= |s| && '.' !in s
    ensures StemAt(s, n) == s
    decreases n
  {
    if n > 0 {
      assert s[n - 1] in s;
      NoDotNoStem(s, n - 1);
    }
  }

  /** One slash at the end of the configured root does not matter. */
  lemma RootSlashIsTrimmed(root: string)
    ensures TrimSlash(root + "/") == root
    ensures root == "" || root[|root| - 1] != '/' ==> TrimSlash(root) == root
  {
    assert (root + "/")[..|root|] == root;
  }
}
