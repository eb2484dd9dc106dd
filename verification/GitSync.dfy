/** One git source: the sync run, its per-commit short-circuit and its per-file SHA cache
    (internal/gitsync/service.go, store.go). The repository is a snapshot: a commit SHA, a list of
    (path, sha) and the contents that can be fetched. Pushes go to the registry of `OpampRegistry`;
    `answered` are the numbers of the pushes that are confirmed in time. */
module GitSync {
  import opened Basics
  import opened OpampAgent
  import opened OpampRegistry
  import opened GitMatcher

  datatype SyncStatus = Pending | Success | Failure

  /** The stored state of the source: its row and its rows of the file table. */
  datatype Rows = Rows(lastSyncSHA: string, status: SyncStatus, cache: map<string, string>)

  datatype Repo = Repo(
    provider: bool,                        // a client for it can be made
    commit: Option<string>,                // None: the request fails
    entries: Option<seq<FileEntry>>,       // None: the request fails
    files: map<(string, string), string>)  // a missing (path, sha) cannot be fetched

  datatype Job = Job(repo: Repo, root: string, agents: Option<seq<AgentInfo>>, force: bool, answered: set<nat>)

  /** What the rule loop works on. */
  datatype Work = Work(
    entries: seq<FileEntry>,
    files: map<(string, string), string>,
    agents: seq<AgentInfo>,
    force: bool,
    answered: set<nat>)

  datatype Push = Push(path: string, agent: Uuid, content: string)

  datatype SyncError = FetchFailed(path: string) | PushFailed(agent: Uuid, error: SendError)

  datatype Tally = Tally(attempts: nat, errors: seq<SyncError>, agentsUpdated: nat, filesChanged: nat)

  datatype Progress = Progress(
    fleet: Fleet,
    cache: map<string, string>,
    fetches: seq<(string, string)>,
    pushes: seq<Push>,
    tally: Tally)

  /** The SHA of the last entry with the path. */
  function ShaOf(entries: seq<FileEntry>, path: string): string
  {
    if entries == [] then "" else
    var last := entries[|entries| - 1];
    if last.path == path then last.sha else ShaOf(entries[..|entries| - 1], path)
  }

  /** The cache says the file has not changed. */
  predicate Fresh(cache: map<string, string>, path: string, sha: string)
  {
    Label(cache, path) != "" && Label(cache, path) == sha
  }

  predicate Attempted(w: Work, cache: map<string, string>, path: string)
  {
    w.force || !Fresh(cache, path, ShaOf(w.entries, path))
  }

  function Remember(cache: map<string, string>, path: string, sha: string): map<string, string>
  {
    if sha != "" then cache[path := sha] else cache
  }

  // ---- specification of a run --------------------------------------------------------------

  ghost function PushOne(p: Progress, path: string, id: Uuid, content: string, answered: set<nat>): (q: Progress)
    requires ConsistentFleet(p.fleet)
    ensures ConsistentFleet(q.fleet)
  {
    var error := SendOutcome(p.fleet, id, content, p.tally.attempts in answered);
    var t := p.tally.(attempts := p.tally.attempts + 1);
    var tally := if error.None? then t.(agentsUpdated := t.agentsUpdated + 1)
                 else t.(errors := t.errors + [PushFailed(id, error.value)]);
    p.(fleet := Sent(p.fleet, id, content), pushes := p.pushes + [Push(path, id, content)], tally := tally)
  }

  ghost function PushAll(p: Progress, path: string, to: seq<AgentInfo>, content: string, answered: set<nat>)
    : (q: Progress)
    requires ConsistentFleet(p.fleet)
    ensures ConsistentFleet(q.fleet)
  {
    if to == [] then p
    else PushOne(PushAll(p, path, to[..|to| - 1], content, answered), path, to[|to| - 1].id, content, answered)
  }

  function Fetching(w: Work, p: Progress, rule: LabelRule): Progress
  {
    p.(fetches := p.fetches + [(rule.filePath, ShaOf(w.entries, rule.filePath))])
  }

  ghost function SyncFetched(w: Work, p: Progress, rule: LabelRule): (q: Progress)
    requires ConsistentFleet(p.fleet) && (rule.filePath, ShaOf(w.entries, rule.filePath)) in w.files
    ensures ConsistentFleet(q.fleet)
  {
    var path, sha := rule.filePath, ShaOf(w.entries, rule.filePath);
    var to := Matched(rule, w.agents);
    var q := PushAll(p, path, to, w.files[(path, sha)], w.answered);
    var tally := if to == [] then q.tally else q.tally.(filesChanged := q.tally.filesChanged + 1);
    q.(cache := Remember(q.cache, path, sha), tally := tally)
  }

  ghost function SyncRule(w: Work, p: Progress, rule: LabelRule): (q: Progress)
    requires ConsistentFleet(p.fleet)
    ensures ConsistentFleet(q.fleet)
  {
    var f := Fetching(w, p, rule);
    if !Attempted(w, p.cache, rule.filePath) then p
    else if (rule.filePath, ShaOf(w.entries, rule.filePath)) in w.files then SyncFetched(w, f, rule)
    else f.(tally := f.tally.(errors := f.tally.errors + [FetchFailed(rule.filePath)]))
  }

  ghost function SyncRules(w: Work, p: Progress, rules: seq<LabelRule>): (q: Progress)
    requires ConsistentFleet(p.fleet)
    ensures ConsistentFleet(q.fleet)
  {
    if rules == [] then p else SyncRule(w, SyncRules(w, p, rules[..|rules| - 1]), rules[|rules| - 1])
  }

  function Begin(fleet: Fleet, cache: map<string, string>): Progress
  {
    Progress(fleet, cache, [], [], Tally(0, [], 0, 0))
  }

  datatype Outcome = Failed | Unchanged | Completed(progress: Progress)

  function WorkOf(job: Job): Work
    requires job.repo.entries.Some? && job.agents.Some?
  {
    Work(job.repo.entries.value, job.repo.files, job.agents.value, job.force, job.answered)
  }

  function RulesOf(job: Job): seq<LabelRule>
    requires job.repo.entries.Some?
  {
    Rules(job.repo.entries.value, TrimSlash(job.root))
  }

  ghost function Sync(rows: Rows, fleet: Fleet, job: Job): (r: (Rows, Outcome))
    requires ConsistentFleet(fleet)
  {
    if !job.repo.provider then (rows.(lastSyncSHA := "", status := Failure), Failed)
    else if job.repo.commit.None? then (rows.(status := Failure), Failed)
    else if !job.force && job.repo.commit.value != "" && job.repo.commit.value == rows.lastSyncSHA
    then (rows, Unchanged)
    else if job.repo.entries.None? || job.agents.None? then (rows.(status := Failure), Failed)
      else
        var p := SyncRules(WorkOf(job), Begin(fleet, rows.cache), RulesOf(job));
        (Rows(if job.repo.commit.value == "" then rows.lastSyncSHA else job.repo.commit.value,
         if p.tally.errors == [] then Success else Failure,
         p.cache),
         Completed(p))
  }

  // ---- the mutable service -----------------------------------------------------------------

  class GitService {
    const agents: Agents
    var lastSyncSHA: string
    var lastSyncStatus: SyncStatus
    var cache: map<string, string>

    constructor (agents: Agents)
      ensures this.agents == agents && lastSyncSHA == "" && lastSyncStatus == Pending && cache == map[]
    {
      this.agents, lastSyncSHA, lastSyncStatus, cache := agents, "", Pending, map[];
    }

    ghost predicate At(p: Progress, t: Tally)
      reads this, agents, agents.repr
    {
      agents.Valid() && agents.fleet == p.fleet && cache == p.cache && t == p.tally && ConsistentFleet(p.fleet)
    }

    method PushTo(ghost p: Progress, t: Tally, ghost path: string, id: Uuid, content: string, answered: set<nat>)
      returns (u: Tally)
      requires At(p, t)
      modifies agents`nextChannel, agents`fleet, agents.repr
      ensures At(PushOne(p, path, id, content, answered), u)
    {
      var error := agents.SendConfigToAgent(id, content, t.attempts in answered);
      u := t.(attempts := t.attempts + 1);
      if error.Some? {
        u := u.(errors := u.errors + [PushFailed(id, error.value)]);
      } else {
        u := u.(agentsUpdated := u.agentsUpdated + 1);
      }
    }

    method PushToMatched(ghost p: Progress, t: Tally, ghost path: string, to: seq<AgentInfo>, content: string,
                         answered: set<nat>) returns (u: Tally)
      requires At(p, t)
      modifies agents`nextChannel, agents`fleet, agents.repr
      ensures At(PushAll(p, path, to, content, answered), u)
    {
      u := t;
      for i := 0 to |to|
        invariant At(PushAll(p, path, to[..i], content, answered), u)
      {
        assert to[..i + 1][..i] == to[..i];
        u := PushTo(PushAll(p, path, to[..i], content, answered), u, path, to[i].id, content, answered);
      }
      assert to[..|to|] == to;
    }

    method ApplyFetched(w: Work, sha: string, ghost p: Progress, t: Tally, rule: LabelRule) returns (u: Tally)
      requires At(p, t) && sha == ShaOf(w.entries, rule.filePath) && (rule.filePath, sha) in w.files
      modifies this`cache, agents`nextChannel, agents`fleet, agents.repr
      ensures At(SyncFetched(w, p, rule), u)
    {
      u := t;
      var path := rule.filePath;
      var matched := MatchAgents(rule, w.agents);
      if |matched| == 0 {
        UpsertFileSHA(path, sha);
        return;
      }
      u := PushToMatched(p, u, path, matched, w.files[(path, sha)], w.answered);
      UpsertFileSHA(path, sha);
      u := u.(filesChanged := u.filesChanged + 1);
    }

    method UpsertFileSHA(path: string, sha: string)
      modifies this`cache
      ensures cache == if sha == "" then old(cache) else old(cache)[path := sha]
    {
      if sha != "" {
        cache := cache[path := sha];
      }
    }

    method ApplyRule(w: Work, shaByPath: map<string, string>, ghost p: Progress, t: Tally, rule: LabelRule)
      returns (u: Tally)
      requires At(p, t)
      requires Label(shaByPath, rule.filePath) == ShaOf(w.entries, rule.filePath)
      modifies this`cache, agents`nextChannel, agents`fleet, agents.repr
      ensures At(SyncRule(w, p, rule), u)
    {
      var path, sha := rule.filePath, Label(shaByPath, rule.filePath);
      if !w.force {
        var cached := Label(cache, path);
        if cached != "" && cached == sha {
          return t;
        }
      }
      if (path, sha) !in w.files {
        return t.(errors := t.errors + [FetchFailed(path)]);
      }
      u := ApplyFetched(w, sha, Fetching(w, p, rule), t, rule);
    }

    method RunSync(job: Job) returns (result: Option<Tally>)
      requires agents.Valid() && ConsistentFleet(agents.fleet)
      modifies this, agents`nextChannel, agents`fleet, agents.repr
      ensures agents.Valid()
      ensures var r := Sync(old(Rows(lastSyncSHA, lastSyncStatus, cache)), old(agents.fleet), job);
              && Rows(lastSyncSHA, lastSyncStatus, cache) == r.0
              && agents.fleet == (if r.1.Completed? then r.1.progress.fleet else old(agents.fleet))
              && result == (match r.1 case Failed => None
                                      case Unchanged => Some(Tally(0, [], 0, 0))
                                      case Completed(p) => Some(p.tally))
    {
      if !job.repo.provider {
        lastSyncSHA, lastSyncStatus := "", Failure;
        return None;
      }
      if job.repo.commit.None? {
        lastSyncStatus := Failure;
        return None;
      }
      var commitSHA := job.repo.commit.value;
      if !job.force && commitSHA != "" && commitSHA == lastSyncSHA {
        return Some(Tally(0, [], 0, 0));
      }
      if job.repo.entries.None? || job.agents.None? {
        lastSyncStatus := Failure;
        return None;
      }
      var t := SyncFiles(job, commitSHA);
      return Some(t);
    }

    method SyncFiles(job: Job, commitSHA: string) returns (t: Tally)
      requires agents.Valid() && ConsistentFleet(agents.fleet) && job.repo.entries.Some? && job.agents.Some?
      modifies this, agents`nextChannel, agents`fleet, agents.repr
      ensures At(SyncRules(WorkOf(job), Begin(old(agents.fleet), old(cache)), RulesOf(job)), t)
      ensures lastSyncSHA == if commitSHA == "" then old(lastSyncSHA) else commitSHA
      ensures lastSyncStatus == if t.errors == [] then Success else Failure
    {
      var w := WorkOf(job);
      var rules := ParseRules(w.entries, job.root);
      var shaByPath := ShaTable(w.entries);
      t := ApplyRules(w, shaByPath, rules);
      lastSyncSHA := if commitSHA == "" then lastSyncSHA else commitSHA;
      lastSyncStatus := if |t.errors| > 0 then Failure else Success;
    }

    method ApplyRules(w: Work, shaByPath: map<string, string>, rules: seq<LabelRule>) returns (t: Tally)
      requires agents.Valid() && ConsistentFleet(agents.fleet)
      requires forall path :: Label(shaByPath, path) == ShaOf(w.entries, path)
      modifies this`cache, agents`nextChannel, agents`fleet, agents.repr
      ensures At(SyncRules(w, Begin(old(agents.fleet), old(cache)), rules), t)
    {
      t := Tally(0, [], 0, 0);
      ghost var p := Begin(agents.fleet, cache);
      for i := 0 to |rules|
        invariant At(SyncRules(w, p, rules[..i]), t)
      {
        assert rules[..i + 1][..i] == rules[..i];
        t := ApplyRule(w, shaByPath, SyncRules(w, p, rules[..i]), t, rules[i]);
      }
      assert rules[..|rules|] == rules;
    }
  }

  method ShaTable(entries: seq<FileEntry>) returns (m: map<string, string>)
    ensures forall path :: Label(m, path) == ShaOf(entries, path)
  {
    m := map[];
    for i := 0 to |entries|
      invariant forall path :: Label(m, path) == ShaOf(entries[..i], path)
    {
      assert entries[..i + 1][..i] == entries[..i];
      m := m[entries[i].path := entries[i].sha];
    }
    assert entries[..|entries|] == entries;
  }
}
