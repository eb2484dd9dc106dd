/** Stored agents, groups and config versions (internal/storage/applicationstore/memory/memory.go and
    internal/services/agent_service_impl.go), and the precedence by which a config is chosen for an
    agent (internal/opamp/server.go). */
module ConfigStore {
  import opened Basics
  import opened OpampAgent

  const MAX_INT: int := 0x7fff_ffff_ffff_ffff

  const DEFAULT_CONFIG: string :=
    "receivers:\n  otlp:\n    protocols:\n      grpc:\n        endpoint: 0.0.0.0:4317\n      http:\n" +
    "        endpoint: 0.0.0.0:4318\n\nprocessors:\n  batch:\n\nexporters:\n  otlp:\n" +
    "    endpoint: localhost:4317\n    tls:\n      insecure: true\n\nservice:\n  pipelines:\n" +
    "    traces:\n      receivers: [otlp]\n      processors: [batch]\n      exporters: [otlp]\n" +
    "    metrics:\n      receivers: [otlp]\n      processors: [batch]\n      exporters: [otlp]\n" +
    "    logs:\n      receivers: [otlp]\n      processors: [batch]\n      exporters: [otlp]\n"

  datatype AgentStatus = Online | Offline | Error

  datatype StoredAgent = StoredAgent(status: AgentStatus, groupID: Option<string>, capabilities: seq<string>)

  datatype Group = Group(id: string, name: string)

  datatype Config = Config(
    id: string,
    agentID: Option<Uuid>,
    groupID: Option<string>,
    hash: Digest,
    content: string,
    version: int,
    createdAt: int)

  datatype Owner = OfAgent(agent: Uuid) | OfGroup(group: string)

  datatype StoreError = AgentNotFound | NoRemoteConfig | IdTaken

  type Configs = map<string, Config>

  predicate Owns(o: Owner, c: Config)
  {
    match o
    case OfAgent(id) => c.agentID == Some(id)
    case OfGroup(id) => c.groupID == Some(id)
  }

  predicate Newer(c: Config, d: Config)
  {
    c.version > d.version || (c.version == d.version && c.createdAt > d.createdAt)
  }

  /** A possible result of the latest-config lookup: a row of the owner that no other row of the
      owner is newer than. Rows that tie are told apart only by the order of the map. */
  ghost predicate IsLatest(configs: Configs, o: Owner, r: Option<Config>)
  {
    match r
    case None => forall k <- configs :: !Owns(o, configs[k])
    case Some(c) =>
      && (exists k <- configs :: configs[k] == c)
      && Owns(o, c)
      && forall k <- configs :: Owns(o, configs[k]) ==> !Newer(configs[k], c)
  }

  /** Go's int addition wraps at 64 bits. */
  function WrapInt64(x: int): int
  {
    (x + MAX_INT + 1) % U64 - (MAX_INT + 1)
  }

  function NextVersion(latest: Option<Config>): int
  {
    if latest.None? then 1 else WrapInt64(latest.value.version + 1)
  }

  /** Agent config first, then the group's, then the default. */
  ghost predicate MayReceive(configs: Configs, agent: Uuid, group: Option<string>, content: string)
  {
    if exists k <- configs :: Owns(OfAgent(agent), configs[k]) then
      exists c :: IsLatest(configs, OfAgent(agent), Some(c)) && content == c.content
    else if group.Some? && group.value != "" && exists k <- configs :: Owns(OfGroup(group.value), configs[k]) then
      exists c :: IsLatest(configs, OfGroup(group.value), Some(c)) && content == c.content
    else
      content == DEFAULT_CONFIG
  }

  class MemoryStore {
    var agents: map<Uuid, StoredAgent>
    var groups: map<string, Group>
    var configs: Configs

    constructor ()
      ensures agents == map[] && groups == map[] && configs == map[]
    {
      agents, groups, configs := map[], map[], map[];
    }

    method CreateAgent(id: Uuid, agent: StoredAgent) returns (ok: bool)
      modifies this`agents
      ensures ok <==> id !in old(agents)
      ensures agents == if ok then old(agents)[id := agent] else old(agents)
    {
      ok := id !in agents;
      if ok {
        agents := agents[id := agent];
      }
    }

    method UpdateAgentStatus(id: Uuid, status: AgentStatus) returns (ok: bool)
      modifies this`agents
      ensures ok <==> id in old(agents)
      ensures agents == if ok then old(agents)[id := old(agents)[id].(status := status)] else old(agents)
    {
      ok := id in agents;
      if ok {
        agents := agents[id := agents[id].(status := status)];
      }
    }

    method CreateGroup(group: Group) returns (ok: bool)
      modifies this`groups
      ensures ok <==> group.id !in old(groups)
      ensures groups == if ok then old(groups)[group.id := group] else old(groups)
    {
      ok := group.id !in groups;
      if ok {
        groups := groups[group.id := group];
      }
    }

    /** Some group of that name; which one is left open when several share it. */
    method GetGroupByName(name: string) returns (r: Option<Group>)
      ensures r.Some? ==> r.value.name == name && exists k <- groups :: groups[k] == r.value
      ensures r.None? ==> forall k <- groups :: groups[k].name != name
    {
      var rest := groups.Keys;
      while rest != {}
        invariant rest <= groups.Keys
        invariant forall k <- groups.Keys - rest :: groups[k].name != name
        decreases |rest|
      {
        var k :| k in rest;
        if groups[k].name == name {
          return Some(groups[k]);
        }
        rest := rest - {k};
      }
      return None;
    }

    method CreateConfig(config: Config) returns (ok: bool)
      modifies this`configs
      ensures ok <==> config.id !in old(configs)
      ensures configs == if ok then old(configs)[config.id := config] else old(configs)
    {
      ok := config.id !in configs;
      if ok {
        configs := configs[config.id := config];
      }
    }

    method GetLatestConfig(o: Owner) returns (latest: Option<Config>)
      ensures IsLatest(configs, o, latest)
      ensures latest.Some? ==>
                forall k <- configs ::
                  (if o.OfAgent? then configs[k].agentID == Some(o.agent) else configs[k].groupID == Some(o.group)) ==>
                    || configs[k].version < latest.value.version
                    || (configs[k].version == latest.value.version && configs[k].createdAt <= latest.value.createdAt)
    {
      latest := None;
      var rest := configs.Keys;
      while rest != {}
        invariant rest <= configs.Keys
        invariant latest.Some? ==> Owns(o, latest.value) && exists k <- configs :: configs[k] == latest.value
        invariant forall k <- configs.Keys - rest ::
                    Owns(o, configs[k]) ==> latest.Some? && !Newer(configs[k], latest.value)
        decreases |rest|
      {
        var k :| k in rest;
        var config := configs[k];
        if Owns(o, config) {
          if latest.None? || config.version > latest.value.version ||
             (config.version == latest.value.version && config.createdAt > latest.value.createdAt) {
            latest := Some(config);
          }
        }
        rest := rest - {k};
      }
    }

    method GetConfigForAgent(agent: Uuid, group: Option<string>) returns (content: string)
      ensures MayReceive(configs, agent, group, content)
    {
      var own := GetLatestConfig(OfAgent(agent));
      if own.Some? {
        return own.value.content;
      }
      if group.Some? && group.value != "" {
        var shared := GetLatestConfig(OfGroup(group.value));
        if shared.Some? {
          return shared.value.content;
        }
      }
      return DEFAULT_CONFIG;
    }

    /** Stores a new version for an agent; `id` and `now` come from the UUID generator and the clock. */
    method StoreConfigForAgent(agent: Uuid, content: string, id: string, now: int)
      returns (r: Result<Config, StoreError>)
      modifies this`configs
      ensures r.Err? ==> configs == old(configs)
      ensures r == Err(AgentNotFound) <==> agent !in agents
      ensures r == Err(NoRemoteConfig) <==> agent in agents && "accepts_remote_config" !in agents[agent].capabilities
      ensures r.Ok? ==>
                && r.value == Config(id, Some(agent), None, Sha256(content), content, r.value.version, now)
                && Appended(old(configs), r.value) && configs == old(configs)[id := r.value]
    {
      if agent !in agents {
        return Err(AgentNotFound);
      }
      var capabilities := agents[agent].capabilities;
      var hasCapability := false;
      for i := 0 to |capabilities|
        invariant hasCapability <==> "accepts_remote_config" in capabilities[..i]
      {
        assert capabilities[..i + 1] == capabilities[..i] + [capabilities[i]];
        if capabilities[i] == "accepts_remote_config" {
          hasCapability := true;
          break;
        }
      }
      if !hasCapability {
        assert capabilities[..|capabilities|] == capabilities;
        return Err(NoRemoteConfig);
      }
      var latest := GetLatestConfig(OfAgent(agent));
      var config := Config(id, Some(agent), None, Sha256(content), content, NextVersion(latest), now);
      var ok := CreateConfig(config);
      if !ok {
        return Err(IdTaken);
      }
      return Ok(config);
    }
  }

  // ---- versions ----------------------------------------------------------------------------

  /** A row that StoreConfigForAgent may append. */
  ghost predicate Appended(before: Configs, c: Config)
  {
    && c.id !in before
    && c.agentID.Some?
    && exists latest :: IsLatest(before, OfAgent(c.agentID.value), latest) && c.version == NextVersion(latest)
  }

  ghost predicate InRange(configs: Configs)
  {
    forall k <- configs :: -MAX_INT - 1 <= configs[k].version <= MAX_INT
  }

  /** The row is the only one of its agent with the highest version. */
  ghost predicate UniqueMaximum(configs: Configs, c: Config)
  {
    && c.id in configs && configs[c.id] == c
    && forall k <- configs :: k != c.id && configs[k].agentID == c.agentID ==> configs[k].version < c.version
  }

  /** On any history, the stored row is the unique maximum exactly when no row of the agent has
      already used up the integers. */
  lemma StoredIsUniqueMaximum(before: Configs, c: Config)
    requires InRange(before) && Appended(before, c)
    ensures UniqueMaximum(before[c.id := c], c) <==>
            forall k <- before :: before[k].agentID == c.agentID ==> before[k].version < MAX_INT
  {
    var after := before[c.id := c];
    var latest :| IsLatest(before, OfAgent(c.agentID.value), latest) && c.version == NextVersion(latest);
    forall k <- before ensures k != c.id && after[k] == before[k] {
    }
    if latest.Some? {
      var m :| m in before && before[m] == latest.value;
      assert after[m] == latest.value;
    }
  }

  /** Rows created later: fresh ids, and none of them for this agent. */
  ghost predicate OthersCreated(before: Configs, agent: Uuid, rows: seq<Config>)
    decreases |rows|
  {
    rows == [] || (rows[0].id !in before && !Owns(OfAgent(agent), rows[0]) &&
                   OthersCreated(before[rows[0].id := rows[0]], agent, rows[1..]))
  }

  function CreateAll(before: Configs, rows: seq<Config>): Configs
    decreases |rows|
  {
    if rows == [] then before else CreateAll(before[rows[0].id := rows[0]], rows[1..])
  }

  lemma {:induction false} MaximumSurvives(configs: Configs, c: Config, rows: seq<Config>)
    requires UniqueMaximum(configs, c) && c.agentID.Some? && OthersCreated(configs, c.agentID.value, rows)
    ensures UniqueMaximum(CreateAll(configs, rows), c)
    decreases |rows|
  {
    if rows != [] {
      MaximumSurvives(configs[rows[0].id := rows[0]], c, rows[1..]);
    }
  }

  /** After a store, the lookup for the agent returns exactly the stored content, whatever its group and
      whatever is created for groups and other agents, until something is created for it again. */
  lemma StoredConfigIsLookedUp(before: Configs, c: Config, rows: seq<Config>, group: Option<string>, content: string)
    requires InRange(before) && Appended(before, c)
    requires forall k <- before :: before[k].agentID == c.agentID ==> before[k].version < MAX_INT
    requires OthersCreated(before[c.id := c], c.agentID.value, rows)
    ensures MayReceive(CreateAll(before[c.id := c], rows), c.agentID.value, group, content) <==> content == c.content
  {
    var agent := c.agentID.value;
    StoredIsUniqueMaximum(before, c);
    MaximumSurvives(before[c.id := c], c, rows);
    var final := CreateAll(before[c.id := c], rows);
    assert final[c.id] == c && Owns(OfAgent(agent), final[c.id]);
    assert IsLatest(final, OfAgent(agent), Some(c));
    forall d | IsLatest(final, OfAgent(agent), Some(d)) ensures d == c {
      assert !Newer(final[c.id], d);
    }
  }

  /** For an agent without a config of its own, the lookup returns what the latest config of its group
      contains, and the default if it has no group or the group no config. */
  lemma GroupConfigIsLookedUp(configs: Configs, agent: Uuid, group: Option<string>, content: string)
    requires forall k <- configs :: configs[k].agentID != Some(agent)
    ensures group.None? || group.value == "" || (forall k <- configs :: configs[k].groupID != group) ==>
              (MayReceive(configs, agent, group, content) <==> content == DEFAULT_CONFIG)
    ensures forall c :: group.Some? && group.value != "" && IsGroupMaximum(configs, group.value, c) ==>
              (MayReceive(configs, agent, group, content) <==> content == c.content)
  {
    forall c | group.Some? && group.value != "" && IsGroupMaximum(configs, group.value, c)
      ensures MayReceive(configs, agent, group, content) <==> content == c.content
    {
      GroupMaximumIsLatest(configs, group.value, c);
    }
  }

  /** The only row of the group with the highest version. */
  ghost predicate IsGroupMaximum(configs: Configs, group: string, c: Config)
  {
    && c.id in configs && configs[c.id] == c && c.groupID == Some(group)
    && forall k <- configs :: k != c.id && configs[k].groupID == Some(group) ==> configs[k].version < c.version
  }

  lemma GroupMaximumIsLatest(configs: Configs, group: string, c: Config)
    requires IsGroupMaximum(configs, group, c)
    ensures forall r :: IsLatest(configs, OfGroup(group), r) <==> r == Some(c)
  {
    assert Owns(OfGroup(group), configs[c.id]);
    forall r | IsLatest(configs, OfGroup(group), r) ensures r == Some(c) {
      assert r.Some? ==> !Newer(configs[c.id], r.value);
    }
  }

  /** A history in which the agent's rows are numbered by StoreConfigForAgent. */
  ghost predicate Numbered(before: Configs, agent: Uuid, rows: seq<Config>)
    decreases |rows|
  {
    rows == [] ||
    (&& (if Owns(OfAgent(agent), rows[0]) then Appended(before, rows[0]) else rows[0].id !in before)
     && Numbered(before[rows[0].id := rows[0]], agent, rows[1..]))
  }

  function Versions(agent: Uuid, rows: seq<Config>): seq<int>
    decreases |rows|
  {
    if rows == [] then []
    else (if Owns(OfAgent(agent), rows[0]) then [rows[0].version] else []) + Versions(agent, rows[1..])
  }

  /** From a history without rows of the agent the versions are 1, 2, 3, ... */
  lemma {:induction false} VersionsCount(before: Configs, agent: Uuid, rows: seq<Config>, n: nat)
    requires n + |rows| <= MAX_INT && Numbered(before, agent, rows)
    requires n == 0 ==> forall k <- before :: !Owns(OfAgent(agent), before[k])
    requires n > 0 ==> exists k <- before :: Owns(OfAgent(agent), before[k]) && before[k].version == n
    requires forall k <- before :: Owns(OfAgent(agent), before[k]) ==> before[k].version <= n
    ensures forall i :: 0 <= i < |Versions(agent, rows)| ==> Versions(agent, rows)[i] == n + 1 + i
    decreases |rows|
  {
    if rows != [] {
      var c := rows[0];
      var after := before[c.id := c];
      if Owns(OfAgent(agent), c) {
        var latest :| IsLatest(before, OfAgent(agent), latest) && c.version == NextVersion(latest);
        assert latest.Some? ==> latest.value.version == n;
        assert c.version == n + 1;
        assert after[c.id] == c;
        VersionsCount(after, agent, rows[1..], n + 1);
      } else {
        if n > 0 {
          var k :| k in before && Owns(OfAgent(agent), before[k]) && before[k].version == n;
          assert after[k] == before[k];
        }
        VersionsCount(after, agent, rows[1..], n);
      }
    }
  }
}
