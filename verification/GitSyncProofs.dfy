/** What sync runs achieve: the precedence of rules, the effect of the per-file cache, and the safety
    of both caches over every history of runs. */
module GitSyncProofs {
  import opened Basics
  import opened OpampAgent
  import opened OpampRegistry
  import opened GitMatcher
  import opened GitSync

  // ---- the pushes of a run -----------------------------------------------------------------

  function PushesTo(path: string, to: seq<AgentInfo>, content: string): seq<Push>
  {
    if to == [] then [] else PushesTo(path, to[..|to| - 1], content) + [Push(path, to[|to| - 1].id, content)]
  }

  predicate Fetchable(w: Work, rule: LabelRule)
  {
    (rule.filePath, ShaOf(w.entries, rule.filePath)) in w.files
  }

  function Content(w: Work, rule: LabelRule): string
    requires Fetchable(w, rule)
  {
    w.files[(rule.filePath, ShaOf(w.entries, rule.filePath))]
  }

  ghost function RulePushes(w: Work, rule: LabelRule): seq<Push>
  {
    if Fetchable(w, rule) then PushesTo(rule.filePath, Matched(rule, w.agents), Content(w, rule)) else []
  }

  /** The pushes of a rule loop that attempts every rule. */
  ghost function AllPushes(w: Work, rules: seq<LabelRule>): seq<Push>
  {
    if rules == [] then [] else AllPushes(w, rules[..|rules| - 1]) + RulePushes(w, rules[|rules| - 1])
  }

  ghost function Deliver(f: Fleet, pushes: seq<Push>): (r: Fleet)
    requires ConsistentFleet(f)
    ensures ConsistentFleet(r)
  {
    if pushes == [] then f else
    var last := pushes[|pushes| - 1];
    Sent(Deliver(f, pushes[..|pushes| - 1]), last.agent, last.content)
  }

  lemma DeliverOneMore(f: Fleet, pushes: seq<Push>, push: Push)
    requires ConsistentFleet(f)
    ensures Deliver(f, pushes + [push]) == Sent(Deliver(f, pushes), push.agent, push.content)
  {
    assert (pushes + [push])[..|pushes|] == pushes;
  }

  lemma OneMoreRule(w: Work, rules: seq<LabelRule>, rule: LabelRule)
    ensures AllPushes(w, rules + [rule]) == AllPushes(w, rules) + RulePushes(w, rule)
  {
    assert (rules + [rule])[..|rules|] == rules;
  }

  lemma {:induction false} PushAllPushes(f: Fleet, p: Progress, path: string, to: seq<AgentInfo>, content: string,
                                         answered: set<nat>)
    requires ConsistentFleet(f) && p.fleet == Deliver(f, p.pushes)
    ensures var q := PushAll(p, path, to, content, answered);
            && q.pushes == p.pushes + PushesTo(path, to, content)
            && q.fleet == Deliver(f, q.pushes)
            && q.cache == p.cache && q.fetches == p.fetches
    decreases |to|
  {
    if to != [] {
      var init, id := to[..|to| - 1], to[|to| - 1].id;
      PushAllPushes(f, p, path, init, content, answered);
      var before := PushAll(p, path, init, content, answered);
      DeliverOneMore(f, before.pushes, Push(path, id, content));
      assert PushAll(p, path, to, content, answered) == PushOne(before, path, id, content, answered);
    }
  }

  /** What one attempted rule adds to a run. */
  ghost predicate Adds(w: Work, p: Progress, rule: LabelRule, q: Progress)
  {
    var path, sha := rule.filePath, ShaOf(w.entries, rule.filePath);
    && q.pushes == p.pushes + RulePushes(w, rule)
    && q.fetches == p.fetches + [(path, sha)]
    && q.cache == if Fetchable(w, rule) then Remember(p.cache, path, sha) else p.cache
  }

  lemma {:induction false} RuleEffect(f: Fleet, w: Work, p: Progress, rule: LabelRule)
    requires ConsistentFleet(f) && p.fleet == Deliver(f, p.pushes)
    ensures var q := SyncRule(w, p, rule);
            && q.fleet == Deliver(f, q.pushes)
            && if Attempted(w, p.cache, rule.filePath) then Adds(w, p, rule, q) else q == p
  {
    if Attempted(w, p.cache, rule.filePath) {
      if Fetchable(w, rule) {
        FetchedEffect(f, w, Fetching(w, p, rule), rule);
      } else {
        assert p.pushes + [] == p.pushes;
      }
    }
  }

  lemma {:induction false} FetchedEffect(f: Fleet, w: Work, p: Progress, rule: LabelRule)
    requires ConsistentFleet(f) && p.fleet == Deliver(f, p.pushes) && Fetchable(w, rule)
    ensures var q := SyncFetched(w, p, rule);
            && q.fleet == Deliver(f, q.pushes)
            && q.pushes == p.pushes + RulePushes(w, rule)
            && q.fetches == p.fetches
            && q.cache == Remember(p.cache, rule.filePath, ShaOf(w.entries, rule.filePath))
  {
    var to := Matched(rule, w.agents);
    PushAllPushes(f, p, rule.filePath, to, Content(w, rule), w.answered);
    var r := PushAll(p, rule.filePath, to, Content(w, rule), w.answered);
    var q := SyncFetched(w, p, rule);
    assert q.fleet == r.fleet && q.pushes == r.pushes && q.fetches == r.fetches;
    assert q.cache == Remember(r.cache, rule.filePath, ShaOf(w.entries, rule.filePath));
  }

  predicate DistinctPaths(rules: seq<LabelRule>)
  {
    forall i, j :: 0 <= i < j < |rules| ==> rules[i].filePath != rules[j].filePath
  }

  /** The rules a run attempts, judged by the cache it starts with. */
  function Attempts(w: Work, cache: map<string, string>, rules: seq<LabelRule>): seq<LabelRule>
  {
    if rules == [] then [] else
    var init, last := Attempts(w, cache, rules[..|rules| - 1]), rules[|rules| - 1];
    if Attempted(w, cache, last.filePath) then init + [last] else init
  }

  /** With distinct paths (or when forced) the cache writes of a run do not change its decisions. */
  lemma {:induction false} RunPushes(f: Fleet, w: Work, cache: map<string, string>, rules: seq<LabelRule>)
    requires ConsistentFleet(f) && (w.force || DistinctPaths(rules))
    ensures var q := SyncRules(w, Begin(f, cache), rules);
            && q.pushes == AllPushes(w, Attempts(w, cache, rules))
            && q.fleet == Deliver(f, q.pushes)
    decreases |rules|
  {
    if rules != [] {
      var init, last := rules[..|rules| - 1], rules[|rules| - 1];
      RunPushes(f, w, cache, init);
      OtherPathsKeepCache(f, w, cache, init, last.filePath);
      RuleEffect(f, w, SyncRules(w, Begin(f, cache), init), last);
      OneMoreRule(w, Attempts(w, cache, init), last);
    }
  }

  lemma {:induction false} OtherPathsKeepCache(f: Fleet, w: Work, cache: map<string, string>, rules: seq<LabelRule>,
                                               path: string)
    requires ConsistentFleet(f)
    ensures var q := SyncRules(w, Begin(f, cache), rules);
            && q.fleet == Deliver(f, q.pushes)
            && ((forall i :: 0 <= i < |rules| ==> rules[i].filePath != path) ==>
                  Label(q.cache, path) == Label(cache, path))
    decreases |rules|
  {
    if rules != [] {
      var init, last := rules[..|rules| - 1], rules[|rules| - 1];
      OtherPathsKeepCache(f, w, cache, init, path);
      RuleEffect(f, w, SyncRules(w, Begin(f, cache), init), last);
    }
  }

  // ---- a non-forced run is the forced run filtered -----------------------------------------

  /** The pushes whose file the cache does not know to be unchanged. */
  function StalePushes(w: Work, cache: map<string, string>, pushes: seq<Push>): seq<Push>
  {
    if pushes == [] then [] else
    var init, last := StalePushes(w, cache, pushes[..|pushes| - 1]), pushes[|pushes| - 1];
    if Fresh(cache, last.path, ShaOf(w.entries, last.path)) then init else init + [last]
  }

  lemma {:induction false} StaleConcat(w: Work, cache: map<string, string>, a: seq<Push>, b: seq<Push>)
    ensures StalePushes(w, cache, a + b) == StalePushes(w, cache, a) + StalePushes(w, cache, b)
    decreases |b|
  {
    if b == [] {
      assert a + b == a;
    } else {
      StaleConcat(w, cache, a, b[..|b| - 1]);
      assert (a + b)[..|a + b| - 1] == a + b[..|b| - 1];
    }
  }

  lemma {:induction false} StaleOfRule(w: Work, cache: map<string, string>, path: string, to: seq<AgentInfo>,
                                       content: string)
    ensures StalePushes(w, cache, PushesTo(path, to, content)) ==
            if Fresh(cache, path, ShaOf(w.entries, path)) then [] else PushesTo(path, to, content)
    decreases |to|
  {
    if to != [] {
      StaleOfRule(w, cache, path, to[..|to| - 1], content);
      var pushes := PushesTo(path, to, content);
      assert pushes[..|pushes| - 1] == PushesTo(path, to[..|to| - 1], content);
    }
  }

  lemma {:induction false} StaleOfAll(w: Work, cache: map<string, string>, rules: seq<LabelRule>)
    requires !w.force
    ensures AllPushes(w, Attempts(w, cache, rules)) == StalePushes(w, cache, AllPushes(w, rules))
    decreases |rules|
  {
    if rules != [] {
      var init, last := rules[..|rules| - 1], rules[|rules| - 1];
      StaleOfAll(w, cache, init);
      StaleConcat(w, cache, AllPushes(w, init), RulePushes(w, last));
      if Fetchable(w, last) {
        StaleOfRule(w, cache, last.filePath, Matched(last, w.agents), Content(w, last));
      }
      OneMoreRule(w, Attempts(w, cache, init), last);
      assert StalePushes(w, cache, RulePushes(w, last)) ==
             if Attempted(w, cache, last.filePath) then RulePushes(w, last) else [];
    }
  }

  /** A non-forced rule loop attempts exactly the pushes of the forced one that belong to stale
      files, in the same order. */
  lemma NonForcedIsFiltered(f: Fleet, w: Work, cache: map<string, string>, rules: seq<LabelRule>)
    requires ConsistentFleet(f) && !w.force && DistinctPaths(rules)
    ensures SyncRules(w, Begin(f, cache), rules).pushes ==
            StalePushes(w, cache, SyncRules(w.(force := true), Begin(f, cache), rules).pushes)
  {
    var forced := w.(force := true);
    RunPushes(f, w, cache, rules);
    RunPushes(f, forced, cache, rules);
    AttemptsAll(forced, cache, rules);
    SamePushes(w, forced, rules);
    StaleOfAll(w, cache, rules);
  }

  lemma {:induction false} AttemptsAll(w: Work, cache: map<string, string>, rules: seq<LabelRule>)
    requires w.force
    ensures Attempts(w, cache, rules) == rules
    decreases |rules|
  {
    if rules != [] {
      AttemptsAll(w, cache, rules[..|rules| - 1]);
    }
  }

  lemma {:induction false} SamePushes(w: Work, v: Work, rules: seq<LabelRule>)
    requires w.entries == v.entries && w.files == v.files && w.agents == v.agents
    ensures AllPushes(w, rules) == AllPushes(v, rules)
    decreases |rules|
  {
    if rules != [] {
      SamePushes(w, v, rules[..|rules| - 1]);
    }
  }

  // ---- which config an agent ends with -----------------------------------------------------

  function LastTo(pushes: seq<Push>, id: Uuid): Option<string>
  {
    if pushes == [] then None else
    var last := pushes[|pushes| - 1];
    if last.agent == id then Some(last.content) else LastTo(pushes[..|pushes| - 1], id)
  }

  lemma {:induction false} LastToConcat(a: seq<Push>, b: seq<Push>, id: Uuid)
    ensures LastTo(a + b, id) == if LastTo(b, id).Some? then LastTo(b, id) else LastTo(a, id)
    decreases |b|
  {
    if b == [] {
      assert a + b == a;
    } else {
      LastToConcat(a, b[..|b| - 1], id);
      assert (a + b)[..|a + b| - 1] == a + b[..|b| - 1];
    }
  }

  /** The desired config after some pushes: the last one sent to an accepting agent. */
  lemma {:induction false} LastPushWins(f: Fleet, pushes: seq<Push>, id: Uuid)
    requires ConsistentFleet(f) && id in f.agents
    ensures var g := Deliver(f, pushes);
            && id in g.agents && (Accepts(g, id) <==> Accepts(f, id))
            && (if Accepts(f, id) && LastTo(pushes, id).Some?
                then g.agents[id].rec.customConfig == LastTo(pushes, id).value
                else g.agents[id] == f.agents[id])
    decreases |pushes|
  {
    if pushes != [] {
      LastPushWins(f, pushes[..|pushes| - 1], id);
    }
  }

  ghost predicate Listed(w: Work, a: AgentInfo)
  {
    a in w.agents && forall b <- w.agents :: b.id == a.id ==> b == a
  }

  lemma {:induction false} LastToOfRule(path: string, to: seq<AgentInfo>, content: string, id: Uuid)
    ensures LastTo(PushesTo(path, to, content), id) == if exists b <- to :: b.id == id then Some(content) else None
    decreases |to|
  {
    if to != [] {
      LastToOfRule(path, to[..|to| - 1], content, id);
      var pushes := PushesTo(path, to, content);
      assert pushes[..|pushes| - 1] == PushesTo(path, to[..|to| - 1], content);
      assert to == to[..|to| - 1] + [to[|to| - 1]];
    }
  }

  /** The rule selects the agent and its file can be fetched. */
  ghost predicate Applies(w: Work, rule: LabelRule, a: AgentInfo)
  {
    Fetchable(w, rule) && Selects(rule.selectors, a.labels)
  }

  /** The last rule, in listing order, that applies to the agent. */
  ghost function LastMatch(w: Work, rules: seq<LabelRule>, a: AgentInfo): (r: Option<LabelRule>)
    ensures r.Some? ==> r.value in rules && Applies(w, r.value, a)
    ensures r.None? ==> forall rule <- rules :: !Applies(w, rule, a)
  {
    if rules == [] then None else
    var last := rules[|rules| - 1];
    assert rules == rules[..|rules| - 1] + [last];
    if Applies(w, last, a) then Some(last) else LastMatch(w, rules[..|rules| - 1], a)
  }

  lemma LastToRulePushes(w: Work, rule: LabelRule, a: AgentInfo)
    requires Listed(w, a)
    ensures LastTo(RulePushes(w, rule), a.id) == if Applies(w, rule, a) then Some(Content(w, rule)) else None
  {
    if Fetchable(w, rule) {
      var to := Matched(rule, w.agents);
      LastToOfRule(rule.filePath, to, Content(w, rule), a.id);
      MatchedMember(rule, w.agents, a);
      forall b <- to ensures b in w.agents { MatchedMember(rule, w.agents, b); }
    }
  }

  lemma {:induction false} LastToOfAll(w: Work, rules: seq<LabelRule>, a: AgentInfo)
    requires Listed(w, a)
    ensures LastTo(AllPushes(w, rules), a.id) ==
            if LastMatch(w, rules, a).Some? then Some(Content(w, LastMatch(w, rules, a).value)) else None
    decreases |rules|
  {
    if rules != [] {
      var init, last := rules[..|rules| - 1], rules[|rules| - 1];
      LastToOfAll(w, init, a);
      LastToConcat(AllPushes(w, init), RulePushes(w, last), a.id);
      LastToRulePushes(w, last, a);
    }
  }

  /** The desired config a listed agent has after the rule loop, whichever fetches fail. */
  lemma ConfigAfter(f: Fleet, w: Work, cache: map<string, string>, rules: seq<LabelRule>, a: AgentInfo)
    requires ConsistentFleet(f) && (w.force || DistinctPaths(rules))
    requires Listed(w, a) && a.id in f.agents
    ensures var g := SyncRules(w, Begin(f, cache), rules).fleet;
            var r := LastMatch(w, Attempts(w, cache, rules), a);
            && a.id in g.agents
            && (if Accepts(f, a.id) && r.Some? then g.agents[a.id].rec.customConfig == Content(w, r.value)
                else g.agents[a.id] == f.agents[a.id])
  {
    RunPushes(f, w, cache, rules);
    LastToOfAll(w, Attempts(w, cache, rules), a);
    LastPushWins(f, AllPushes(w, Attempts(w, cache, rules)), a.id);
  }

  /** After a forced run, a listed agent that is connected and accepts remote config desires the
      content of the last matching rule whose file could be fetched (without fetch errors, of the
      last matching rule); any other listed agent, and one no rule matches, is untouched. Which
      pushes are confirmed in time plays no part. */
  lemma ForcedRunSettles(rows: Rows, f: Fleet, job: Job, a: AgentInfo)
    requires ConsistentFleet(f) && job.force && job.repo.provider && job.repo.commit.Some?
    requires job.repo.entries.Some? && job.agents.Some?
    requires Listed(WorkOf(job), a) && a.id in f.agents
    ensures Sync(rows, f, job).1.Completed?
    ensures var g := Sync(rows, f, job).1.progress.fleet;
            var r := LastMatch(WorkOf(job), RulesOf(job), a);
            && a.id in g.agents
            && (if Accepts(f, a.id) && r.Some? then g.agents[a.id].rec.customConfig == Content(WorkOf(job), r.value)
                else g.agents[a.id] == f.agents[a.id])
  {
    ConfigAfter(f, WorkOf(job), rows.cache, RulesOf(job), a);
    AttemptsAll(WorkOf(job), rows.cache, RulesOf(job));
  }

  ghost predicate ListedId(w: Work, id: Uuid)
  {
    exists b <- w.agents :: b.id == id
  }

  lemma {:induction false} RulePushesAreListed(w: Work, path: string, to: seq<AgentInfo>, content: string)
    requires forall b <- to :: b in w.agents
    ensures forall p <- PushesTo(path, to, content) :: ListedId(w, p.agent)
    decreases |to|
  {
    if to != [] {
      assert to[|to| - 1] in to && to == to[..|to| - 1] + [to[|to| - 1]];
      RulePushesAreListed(w, path, to[..|to| - 1], content);
    }
  }

  lemma {:induction false} PushesAreListed(f: Fleet, w: Work, cache: map<string, string>, rules: seq<LabelRule>)
    requires ConsistentFleet(f)
    ensures var q := SyncRules(w, Begin(f, cache), rules);
            q.fleet == Deliver(f, q.pushes) && forall p <- q.pushes :: ListedId(w, p.agent)
    decreases |rules|
  {
    if rules != [] {
      var init, last := rules[..|rules| - 1], rules[|rules| - 1];
      PushesAreListed(f, w, cache, init);
      RuleEffect(f, w, SyncRules(w, Begin(f, cache), init), last);
      if Fetchable(w, last) {
        var to := Matched(last, w.agents);
        forall b <- to ensures b in w.agents { MatchedMember(last, w.agents, b); }
        RulePushesAreListed(w, last.filePath, to, Content(w, last));
      }
    }
  }

  lemma {:induction false} NothingToUnlisted(w: Work, pushes: seq<Push>, id: Uuid)
    requires !ListedId(w, id) && forall p <- pushes :: ListedId(w, p.agent)
    ensures LastTo(pushes, id).None?
    decreases |pushes|
  {
    if pushes != [] {
      assert pushes[|pushes| - 1] in pushes;
      NothingToUnlisted(w, pushes[..|pushes| - 1], id);
    }
  }

  /** A registered agent that is not listed is untouched by any rule loop. */
  lemma UnlistedIsUntouched(f: Fleet, w: Work, cache: map<string, string>, rules: seq<LabelRule>, id: Uuid)
    requires ConsistentFleet(f) && id in f.agents && !ListedId(w, id)
    ensures var g := SyncRules(w, Begin(f, cache), rules).fleet;
            id in g.agents && g.agents[id] == f.agents[id]
  {
    PushesAreListed(f, w, cache, rules);
    var q := SyncRules(w, Begin(f, cache), rules);
    NothingToUnlisted(w, q.pushes, id);
    LastPushWins(f, q.pushes, id);
  }

  /** A non-forced rule loop ends in the same config as the forced one, with the same fetch outcomes,
      exactly when the last stale rule that applies to the agent (or, without one, what the agent
      already has) agrees in content with the last rule that applies to it. */
  lemma SameConfigExactlyWhen(f: Fleet, w: Work, cache: map<string, string>, rules: seq<LabelRule>, a: AgentInfo)
    requires ConsistentFleet(f) && !w.force && DistinctPaths(rules)
    requires Listed(w, a) && Accepts(f, a.id)
    ensures var g := SyncRules(w, Begin(f, cache), rules).fleet;
            var h := SyncRules(w.(force := true), Begin(f, cache), rules).fleet;
            var stale, last := LastMatch(w, Attempts(w, cache, rules), a), LastMatch(w, rules, a);
            && a.id in g.agents && a.id in h.agents
            && (g.agents[a.id].rec.customConfig == h.agents[a.id].rec.customConfig <==>
                (last.Some? ==>
                   (if stale.Some? then Content(w, stale.value) else f.agents[a.id].rec.customConfig)
                   == Content(w, last.value)))
  {
    var forced := w.(force := true);
    AttemptsAreRules(w, cache, rules);
    ConfigAfter(f, w, cache, rules, a);
    ConfigAfter(f, forced, cache, rules, a);
    AttemptsAll(forced, cache, rules);
    SameMatch(w, rules, a);
  }

  lemma {:induction false} SameMatch(w: Work, rules: seq<LabelRule>, a: AgentInfo)
    ensures LastMatch(w.(force := true), rules, a) == LastMatch(w, rules, a)
    decreases |rules|
  {
    if rules != [] {
      SameMatch(w, rules[..|rules| - 1], a);
    }
  }

  lemma {:induction false} AttemptsAreRules(w: Work, cache: map<string, string>, rules: seq<LabelRule>)
    ensures forall r <- Attempts(w, cache, rules) :: r in rules
    decreases |rules|
  {
    if rules != [] {
      AttemptsAreRules(w, cache, rules[..|rules| - 1]);
      assert rules == rules[..|rules| - 1] + [rules[|rules| - 1]];
    }
  }

  lemma {:induction false} StaleLastMatch(w: Work, cache: map<string, string>, rules: seq<LabelRule>, a: AgentInfo)
    requires LastMatch(w, rules, a).Some? && Attempted(w, cache, LastMatch(w, rules, a).value.filePath)
    ensures LastMatch(w, Attempts(w, cache, rules), a) == LastMatch(w, rules, a)
    decreases |rules|
  {
    var init, last := rules[..|rules| - 1], rules[|rules| - 1];
    OneMoreMatch(w, Attempts(w, cache, init), last, a);
    if !Applies(w, last, a) {
      StaleLastMatch(w, cache, init, a);
    }
  }

  lemma OneMoreMatch(w: Work, rules: seq<LabelRule>, rule: LabelRule, a: AgentInfo)
    ensures LastMatch(w, rules + [rule], a) == if Applies(w, rule, a) then Some(rule) else LastMatch(w, rules, a)
  {
    assert (rules + [rule])[..|rules|] == rules;
  }

  /** In particular it does when the last applying rule is stale, or when no stale rule applies and
      the agent already holds that rule's content. */
  lemma SameConfigWhenLastIsStale(
    f: Fleet, w: Work, cache: map<string, string>, rules: seq<LabelRule>, a: AgentInfo)
    requires ConsistentFleet(f) && !w.force && DistinctPaths(rules)
    requires Listed(w, a) && Accepts(f, a.id)
    requires var last := LastMatch(w, rules, a);
             last.Some? ==>
               || Attempted(w, cache, last.value.filePath)
               || (LastMatch(w, Attempts(w, cache, rules), a).None? &&
                   f.agents[a.id].rec.customConfig == Content(w, last.value))
    ensures var g := SyncRules(w, Begin(f, cache), rules).fleet;
            var h := SyncRules(w.(force := true), Begin(f, cache), rules).fleet;
            a.id in g.agents && a.id in h.agents &&
            g.agents[a.id].rec.customConfig == h.agents[a.id].rec.customConfig
  {
    SameConfigExactlyWhen(f, w, cache, rules, a);
    if LastMatch(w, rules, a).Some? && Attempted(w, cache, LastMatch(w, rules, a).value.filePath) {
      StaleLastMatch(w, cache, rules, a);
    }
  }

  /** Otherwise precedence can be inverted: when a rule changes that is not the agent's last match,
      the agent is given its content although the last match is unchanged and differs. */
  lemma UnchangedLastRuleIsOverridden(f: Fleet, w: Work, cache: map<string, string>, base: LabelRule, top: LabelRule,
                                      a: AgentInfo)
    requires ConsistentFleet(f) && !w.force && base.filePath != top.filePath
    requires Listed(w, a) && Accepts(f, a.id) && Fetchable(w, base) && Fetchable(w, top)
    requires Selects(base.selectors, a.labels) && Selects(top.selectors, a.labels)
    requires Attempted(w, cache, base.filePath) && !Attempted(w, cache, top.filePath)
    requires Content(w, base) != Content(w, top)
    ensures var g := SyncRules(w, Begin(f, cache), [base, top]).fleet;
            a.id in g.agents && g.agents[a.id].rec.customConfig == Content(w, base)
    ensures LastMatch(w, [base, top], a) == Some(top)
  {
    var rules := [base, top];
    ConfigAfter(f, w, cache, rules, a);
    assert rules[..1] == [base] && [base][..0] == [];
    assert Attempts(w, cache, [base]) == [base];
    assert Attempts(w, cache, rules) == [base];
  }

  // ---- both caches over every history of runs ----------------------------------------------

  /** One run and the registry it finds. */
  datatype Entry = Entry(job: Job, fleet: Fleet)

  ghost predicate Histories(h: seq<Entry>)
  {
    forall e <- h :: ConsistentFleet(e.fleet)
  }

  ghost function RowsAfter(h: seq<Entry>): Rows
    requires Histories(h)
  {
    if h == [] then Rows("", Pending, map[])
    else Sync(RowsAfter(h[..|h| - 1]), h[|h| - 1].fleet, h[|h| - 1].job).0
  }

  ghost function OutcomeOf(h: seq<Entry>, i: nat): Outcome
    requires Histories(h) && i < |h|
  {
    Sync(RowsAfter(h[..i]), h[i].fleet, h[i].job).1
  }

  /** Run `i` fetched this version of the file. */
  ghost predicate Fetched(h: seq<Entry>, i: nat, path: string, sha: string)
    requires Histories(h) && i < |h|
  {
    OutcomeOf(h, i).Completed? && (path, sha) in OutcomeOf(h, i).progress.fetches && (path, sha) in h[i].job.repo.files
  }

  /** Run `i` saw the commit and finished its rule loop. */
  ghost predicate SawCommit(h: seq<Entry>, i: nat, sha: string)
    requires Histories(h) && i < |h|
  {
    OutcomeOf(h, i).Completed? && h[i].job.repo.commit == Some(sha)
  }

  lemma {:induction false} CacheComesFromFetches(f: Fleet, w: Work, cache: map<string, string>, rules: seq<LabelRule>)
    requires ConsistentFleet(f)
    ensures var q := SyncRules(w, Begin(f, cache), rules);
            && q.fleet == Deliver(f, q.pushes)
            && forall path <- q.cache ::
                 || (path in cache && cache[path] == q.cache[path])
                 || ((path, q.cache[path]) in q.fetches && (path, q.cache[path]) in w.files)
    decreases |rules|
  {
    if rules != [] {
      CacheComesFromFetches(f, w, cache, rules[..|rules| - 1]);
      RuleEffect(f, w, SyncRules(w, Begin(f, cache), rules[..|rules| - 1]), rules[|rules| - 1]);
    }
  }

  lemma PrefixOutcome(h: seq<Entry>, i: nat)
    requires Histories(h) && i < |h| - 1
    ensures OutcomeOf(h[..|h| - 1], i) == OutcomeOf(h, i)
  {
    assert h[..|h| - 1][..i] == h[..i];
  }

  /** Over every history, a cached (path, sha) was fetched by an earlier run. */
  lemma {:induction false} CachedWasFetched(h: seq<Entry>, path: string)
    requires Histories(h) && path in RowsAfter(h).cache
    ensures exists i :: 0 <= i < |h| && Fetched(h, i, path, RowsAfter(h).cache[path])
    decreases |h|
  {
    var init, last := h[..|h| - 1], h[|h| - 1];
    var before, after := RowsAfter(init), RowsAfter(h);
    if OutcomeOf(h, |h| - 1).Completed? {
      CacheComesFromFetches(last.fleet, WorkOf(last.job), before.cache, RulesOf(last.job));
    }
    if path in before.cache && before.cache[path] == after.cache[path] {
      CachedWasFetched(init, path);
      var i :| 0 <= i < |init| && Fetched(init, i, path, before.cache[path]);
      PrefixOutcome(h, i);
      assert Fetched(h, i, path, after.cache[path]);
    } else {
      assert Fetched(h, |h| - 1, path, after.cache[path]);
    }
  }

  /** Over every history, a non-empty stored commit was seen by an earlier run that finished its rule
      loop. */
  lemma {:induction false} StoredCommitWasSeen(h: seq<Entry>)
    requires Histories(h) && RowsAfter(h).lastSyncSHA != ""
    ensures exists i :: 0 <= i < |h| && SawCommit(h, i, RowsAfter(h).lastSyncSHA)
    decreases |h|
  {
    var init := h[..|h| - 1];
    var before, after := RowsAfter(init), RowsAfter(h);
    if after.lastSyncSHA == before.lastSyncSHA {
      StoredCommitWasSeen(init);
      var i :| 0 <= i < |init| && SawCommit(init, i, before.lastSyncSHA);
      PrefixOutcome(h, i);
      assert SawCommit(h, i, after.lastSyncSHA);
    } else {
      assert SawCommit(h, |h| - 1, after.lastSyncSHA);
    }
  }

  predicate IsCached(w: Work, cache: map<string, string>, path: string)
  {
    Fresh(cache, path, ShaOf(w.entries, path))
  }

  /** Every file has a SHA and can be fetched, unless it is cached already. */
  predicate NoFetchFails(w: Work, cache: map<string, string>, rules: seq<LabelRule>)
  {
    forall r <- rules :: IsCached(w, cache, r.filePath) || (Fetchable(w, r) && ShaOf(w.entries, r.filePath) != "")
  }

  lemma {:induction false} RuleIsCached(f: Fleet, w: Work, p: Progress, rule: LabelRule)
    requires ConsistentFleet(f) && p.fleet == Deliver(f, p.pushes)
    ensures var q := SyncRule(w, p, rule);
            && q.fleet == Deliver(f, q.pushes)
            && (Fetchable(w, rule) && ShaOf(w.entries, rule.filePath) != "" ==> IsCached(w, q.cache, rule.filePath))
            && forall path :: IsCached(w, p.cache, path) ==> IsCached(w, q.cache, path)
  {
    RuleEffect(f, w, p, rule);
  }

  lemma {:induction false} EveryRuleIsCached(f: Fleet, w: Work, cache: map<string, string>, rules: seq<LabelRule>)
    requires ConsistentFleet(f) && NoFetchFails(w, cache, rules)
    ensures var q := SyncRules(w, Begin(f, cache), rules);
            && q.fleet == Deliver(f, q.pushes)
            && (forall path :: IsCached(w, cache, path) ==> IsCached(w, q.cache, path))
            && forall r <- rules :: IsCached(w, q.cache, r.filePath)
    decreases |rules|
  {
    if rules != [] {
      var init, last := rules[..|rules| - 1], rules[|rules| - 1];
      assert rules == init + [last];
      EveryRuleIsCached(f, w, cache, init);
      RuleIsCached(f, w, SyncRules(w, Begin(f, cache), init), last);
    }
  }

  lemma {:induction false} CachedRulesAreSkipped(f: Fleet, w: Work, cache: map<string, string>, rules: seq<LabelRule>)
    requires ConsistentFleet(f) && !w.force
    requires forall r <- rules :: IsCached(w, cache, r.filePath)
    ensures SyncRules(w, Begin(f, cache), rules) == Begin(f, cache)
    decreases |rules|
  {
    if rules != [] {
      assert rules == rules[..|rules| - 1] + [rules[|rules| - 1]];
      CachedRulesAreSkipped(f, w, cache, rules[..|rules| - 1]);
    }
  }

  /** After a completed run in which no fetch that was needed fails, a non-forced run on the same entries
      (with non-empty SHAs) is short-circuited or fetches and pushes nothing, whatever its commit. */
  lemma RepeatedRunDoesNothing(rows: Rows, f: Fleet, job: Job, g: Fleet, again: Job)
    requires ConsistentFleet(f) && ConsistentFleet(g) && Sync(rows, f, job).1.Completed?
    requires NoFetchFails(WorkOf(job), rows.cache, RulesOf(job))
    requires !again.force && again.repo.entries == job.repo.entries && again.root == job.root
    ensures var r := Sync(Sync(rows, f, job).0, g, again);
            r.1.Completed? ==> r.1.progress == Begin(g, r.0.cache)
  {
    EveryRuleIsCached(f, WorkOf(job), rows.cache, RulesOf(job));
    var mid := Sync(rows, f, job).0;
    if Sync(mid, g, again).1.Completed? {
      CachedRulesAreSkipped(g, WorkOf(again), mid.cache, RulesOf(again));
    }
  }
}
