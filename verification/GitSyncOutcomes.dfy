/** What a run answers: when it is short-circuited, when it fails, what it stores and counts, in terms
    of the repository, the agents and the stored rows. */
module GitSyncOutcomes {
  import opened Basics
  import opened OpampAgent
  import opened OpampRegistry
  import opened GitMatcher
  import opened GitSync
  import opened GitSyncProofs

  // ---- which files a run attempts ----------------------------------------------------------

  /** A file's SHA is that of the last entry with its path. */
  lemma {:induction false} ShaIsOfLastEntry(entries: seq<FileEntry>, path: string, i: nat)
    requires i < |entries| && entries[i].path == path
    requires forall j :: i < j < |entries| ==> entries[j].path != path
    ensures ShaOf(entries, path) == entries[i].sha
    decreases |entries|
  {
    if i < |entries| - 1 {
      assert entries[|entries| - 1].path != path;
      ShaIsOfLastEntry(entries[..|entries| - 1], path, i);
    }
  }

  /** A file is attempted exactly when the run is forced, or the file is not cached under a non-empty
      SHA that is still its own. */
  lemma AttemptedExactlyWhen(w: Work, cache: map<string, string>, path: string)
    ensures Attempted(w, cache, path) <==>
            w.force || path !in cache || cache[path] == "" || cache[path] != ShaOf(w.entries, path)
  {
  }

  // ---- the kind of outcome -----------------------------------------------------------------

  ghost predicate UpToDate(rows: Rows, job: Job)
  {
    !job.force && job.repo.commit.Some? && job.repo.commit.value != "" && rows.lastSyncSHA == job.repo.commit.value
  }

  /** A run with a provider and a commit is short-circuited exactly when it is not forced and the
      commit is non-empty and the stored one; it then changes nothing. */
  lemma ShortCircuitedExactlyWhen(rows: Rows, f: Fleet, job: Job)
    requires ConsistentFleet(f) && job.repo.provider && job.repo.commit.Some?
    ensures var r := Sync(rows, f, job);
            && (r.1.Unchanged? <==>
                !job.force && job.repo.commit.value != "" && job.repo.commit.value == rows.lastSyncSHA)
            && (r.1.Unchanged? ==> r.0 == rows)
  {
  }

  /** A run fails exactly when there is no provider or no commit, or, unless it is up to date, no
      listing or no agents. It then keeps the cache and marks the failure; the stored commit stays,
      but is lost with the provider. */
  lemma FailsExactlyWhen(rows: Rows, f: Fleet, job: Job)
    requires ConsistentFleet(f)
    ensures var r := Sync(rows, f, job);
            && (r.1.Failed? <==>
                || !job.repo.provider || job.repo.commit.None?
                || (!UpToDate(rows, job) && (job.repo.entries.None? || job.agents.None?)))
            && (r.1.Failed? ==>
                  r.0 == Rows(if job.repo.provider then rows.lastSyncSHA else "", Failure, rows.cache))
  {
  }

  // ---- what is counted ---------------------------------------------------------------------

  /** The k-th push reaches an agent that is connected and accepts remote config, and it is confirmed in
      time or the agent's record has that config already. */
  ghost predicate PushSucceeds(f: Fleet, pushes: seq<Push>, answered: set<nat>, k: nat)
    requires ConsistentFleet(f) && k < |pushes|
  {
    var agents, push := Deliver(f, pushes[..k]).agents, pushes[k];
    && push.agent in agents
    && agents[push.agent].rec.status.Some?
    && AcceptsRemoteConfig in agents[push.agent].rec.status.value.capabilities
    && (k in answered || agents[push.agent].rec.remoteConfig == Some(Render(push.content)))
  }

  ghost predicate AllSucceed(f: Fleet, pushes: seq<Push>, answered: set<nat>)
    requires ConsistentFleet(f)
  {
    forall k :: 0 <= k < |pushes| ==> PushSucceeds(f, pushes, answered, k)
  }

  ghost function Successes(f: Fleet, pushes: seq<Push>, answered: set<nat>): set<nat>
    requires ConsistentFleet(f)
  {
    set k: nat | k < |pushes| && PushSucceeds(f, pushes, answered, k)
  }

  /** The registry is what the pushes make of it, each push is counted, and so are the successful ones;
      there are no errors exactly when every fetch found its file and every push succeeded. */
  ghost predicate Tallied(f: Fleet, w: Work, p: Progress)
    requires ConsistentFleet(f)
  {
    && p.fleet == Deliver(f, p.pushes)
    && p.tally.attempts == |p.pushes|
    && p.tally.agentsUpdated == |Successes(f, p.pushes, w.answered)|
    && (p.tally.errors == [] <==> (forall x <- p.fetches :: x in w.files) && AllSucceed(f, p.pushes, w.answered))
  }

  lemma LastPush(f: Fleet, pushes: seq<Push>, push: Push, answered: set<nat>)
    requires ConsistentFleet(f)
    ensures var more := pushes + [push];
            && (forall k :: 0 <= k < |pushes| ==>
                  (PushSucceeds(f, more, answered, k) <==> PushSucceeds(f, pushes, answered, k)))
            && (PushSucceeds(f, more, answered, |pushes|) <==>
                SendOutcome(Deliver(f, pushes), push.agent, push.content, |pushes| in answered).None?)
            && Successes(f, more, answered) ==
               Successes(f, pushes, answered) +
               if PushSucceeds(f, more, answered, |pushes|) then {|pushes|} else {}
  {
    var more := pushes + [push];
    forall k | 0 <= k <= |pushes| ensures more[..k] == pushes[..k] { }
    assert pushes[..|pushes|] == pushes;
    var g := Deliver(f, pushes);
    if push.agent in g.agents && g.agents[push.agent].rec.remoteConfig.Some? {
      RenderIsInjective(g.agents[push.agent].rec.customConfig, push.content);
    }
  }

  lemma OneMorePush(f: Fleet, pushes: seq<Push>, push: Push, answered: set<nat>)
    requires ConsistentFleet(f)
    ensures var more := pushes + [push];
            var ok := SendOutcome(Deliver(f, pushes), push.agent, push.content, |pushes| in answered).None?;
            && (AllSucceed(f, more, answered) <==> AllSucceed(f, pushes, answered) && ok)
            && |Successes(f, more, answered)| == |Successes(f, pushes, answered)| + if ok then 1 else 0
  {
    LastPush(f, pushes, push, answered);
    assert |pushes| !in Successes(f, pushes, answered);
  }

  lemma {:induction false} PushOneIsTallied(f: Fleet, w: Work, p: Progress, path: string, id: Uuid, content: string)
    requires ConsistentFleet(f) && Tallied(f, w, p)
    ensures var q := PushOne(p, path, id, content, w.answered);
            Tallied(f, w, q) && q.tally.filesChanged == p.tally.filesChanged
  {
    var push := Push(path, id, content);
    OneMorePush(f, p.pushes, push, w.answered);
    DeliverOneMore(f, p.pushes, push);
  }

  lemma {:induction false} PushAllIsTallied(f: Fleet, w: Work, p: Progress, path: string, to: seq<AgentInfo>,
                                            content: string)
    requires ConsistentFleet(f) && Tallied(f, w, p)
    ensures var q := PushAll(p, path, to, content, w.answered);
            Tallied(f, w, q) && q.tally.filesChanged == p.tally.filesChanged
    decreases |to|
  {
    if to != [] {
      PushAllIsTallied(f, w, p, path, to[..|to| - 1], content);
      PushOneIsTallied(f, w, PushAll(p, path, to[..|to| - 1], content, w.answered), path, to[|to| - 1].id, content);
    }
  }

  /** One rule is tallied too; it counts a file exactly when it is attempted, its file is fetched and some
      listed agent is selected. */
  lemma RuleIsTallied(f: Fleet, w: Work, p: Progress, rule: LabelRule)
    requires ConsistentFleet(f) && Tallied(f, w, p)
    ensures var q := SyncRule(w, p, rule);
            && Tallied(f, w, q)
            && q.tally.filesChanged == p.tally.filesChanged +
               if Attempted(w, p.cache, rule.filePath) && Fetchable(w, rule)
                  && (exists a <- w.agents :: Selects(rule.selectors, a.labels)) then 1 else 0
  {
    var fetching := Fetching(w, p, rule);
    assert fetching.fetches[|p.fetches|] == (rule.filePath, ShaOf(w.entries, rule.filePath));
    if Attempted(w, p.cache, rule.filePath) && Fetchable(w, rule) {
      var to := Matched(rule, w.agents);
      PushAllIsTallied(f, w, fetching, rule.filePath, to, Content(w, rule));
      SomeMatched(rule, w.agents);
    }
  }

  lemma SomeMatched(rule: LabelRule, agents: seq<AgentInfo>)
    ensures Matched(rule, agents) != [] <==> exists a <- agents :: Selects(rule.selectors, a.labels)
  {
    var to := Matched(rule, agents);
    if to != [] {
      MatchedMember(rule, agents, to[0]);
    }
    forall a <- agents | Selects(rule.selectors, a.labels) ensures to != [] {
      MatchedMember(rule, agents, a);
    }
  }

  lemma {:induction false} RunIsTallied(f: Fleet, w: Work, cache: map<string, string>, rules: seq<LabelRule>)
    requires ConsistentFleet(f)
    ensures Tallied(f, w, SyncRules(w, Begin(f, cache), rules))
    decreases |rules|
  {
    if rules != [] {
      RunIsTallied(f, w, cache, rules[..|rules| - 1]);
      RuleIsTallied(f, w, SyncRules(w, Begin(f, cache), rules[..|rules| - 1]), rules[|rules| - 1]);
    }
  }

  // ---- a run on a new commit ---------------------------------------------------------------

  /** A run on a commit other than the stored one (or a forced one), with its files and agents at hand,
      completes. It stores the commit, and success exactly when every fetch found its file and every push
      succeeded. */
  lemma NewCommitIsStored(rows: Rows, f: Fleet, job: Job)
    requires ConsistentFleet(f) && job.repo.provider && job.repo.commit.Some?
    requires job.repo.entries.Some? && job.agents.Some?
    requires job.force || job.repo.commit.value == "" || job.repo.commit.value != rows.lastSyncSHA
    ensures var (after, outcome) := Sync(rows, f, job);
            && outcome.Completed?
            && var p := outcome.progress;
            && after.cache == p.cache
            && after.lastSyncSHA == (if job.repo.commit.value == "" then rows.lastSyncSHA else job.repo.commit.value)
            && (after.status == Success || after.status == Failure)
            && (after.status == Success <==>
                (forall x <- p.fetches :: x in job.repo.files) && AllSucceed(f, p.pushes, job.answered))
            && p.tally.attempts == |p.pushes|
            && p.tally.agentsUpdated == |Successes(f, p.pushes, job.answered)|
  {
    RunIsTallied(f, WorkOf(job), rows.cache, RulesOf(job));
  }

  /** And it leaves each listed agent that accepts remote config with the content of the last rule, in
      listing order, that selects it and whose file can be fetched and is not cached as unchanged. */
  lemma NewCommitIsSynced(rows: Rows, f: Fleet, job: Job, a: AgentInfo, r: LabelRule)
    requires ConsistentFleet(f) && job.repo.provider && job.repo.commit.Some?
    requires job.repo.entries.Some? && job.agents.Some?
    requires job.force || job.repo.commit.value == "" || job.repo.commit.value != rows.lastSyncSHA
    requires job.force || DistinctPaths(RulesOf(job))
    requires GitSyncProofs.Listed(WorkOf(job), a) && Accepts(f, a.id)
    requires IsLast(WorkOf(job), rows.cache, RulesOf(job), a, r)
    ensures Sync(rows, f, job).1.Completed?
    ensures var agents := Sync(rows, f, job).1.progress.fleet.agents;
            a.id in agents && agents[a.id].rec.customConfig == Content(WorkOf(job), r)
  {
    ConfigAfter(f, WorkOf(job), rows.cache, RulesOf(job), a);
    LastIsMatch(WorkOf(job), rows.cache, RulesOf(job), a, r);
  }

  ghost predicate Reaches(w: Work, cache: map<string, string>, rule: LabelRule, a: AgentInfo)
  {
    Attempted(w, cache, rule.filePath) && Fetchable(w, rule) && Selects(rule.selectors, a.labels)
  }

  ghost predicate IsLast(w: Work, cache: map<string, string>, rules: seq<LabelRule>, a: AgentInfo, r: LabelRule)
  {
    exists i :: 0 <= i < |rules| && rules[i] == r && Reaches(w, cache, r, a)
                && forall j :: i < j < |rules| ==> !Reaches(w, cache, rules[j], a)
  }

  lemma {:induction false} LastIsMatch(w: Work, cache: map<string, string>, rules: seq<LabelRule>, a: AgentInfo,
                                       r: LabelRule)
    requires IsLast(w, cache, rules, a, r)
    ensures LastMatch(w, Attempts(w, cache, rules), a) == Some(r)
    decreases |rules|
  {
    var init, last := rules[..|rules| - 1], rules[|rules| - 1];
    OneMoreMatch(w, Attempts(w, cache, init), last, a);
    if !Reaches(w, cache, last, a) {
      assert IsLast(w, cache, init, a, r);
      LastIsMatch(w, cache, init, a, r);
    }
  }

  /** An agent that no such rule reaches keeps its record. */
  lemma UnreachedIsUntouched(rows: Rows, f: Fleet, job: Job, a: AgentInfo)
    requires ConsistentFleet(f) && Sync(rows, f, job).1.Completed?
    requires job.force || DistinctPaths(RulesOf(job))
    requires GitSyncProofs.Listed(WorkOf(job), a) && a.id in f.agents
    requires forall r <- RulesOf(job) :: !Reaches(WorkOf(job), rows.cache, r, a)
    ensures var agents := Sync(rows, f, job).1.progress.fleet.agents;
            a.id in agents && agents[a.id] == f.agents[a.id]
  {
    ConfigAfter(f, WorkOf(job), rows.cache, RulesOf(job), a);
    NoneIsMatch(WorkOf(job), rows.cache, RulesOf(job), a);
  }

  lemma {:induction false} NoneIsMatch(w: Work, cache: map<string, string>, rules: seq<LabelRule>, a: AgentInfo)
    requires forall r <- rules :: !Reaches(w, cache, r, a)
    ensures LastMatch(w, Attempts(w, cache, rules), a).None?
    decreases |rules|
  {
    if rules != [] {
      var init, last := rules[..|rules| - 1], rules[|rules| - 1];
      NoneIsMatch(w, cache, init, a);
      OneMoreMatch(w, Attempts(w, cache, init), last, a);
      assert last in rules;
    }
  }
}
