/** The server-side record of one agent (internal/opamp/agent_core.go, agent_status.go,
    agent_config.go): specification functions on a value `AgentRec`, and the class `Agent`
    whose methods update the fields step by step and are proved against them. */
module OpampAgent {
  import opened Basics

  const U64: int := 0x1_0000_0000_0000_0000

  type Uint64 = x: int | 0 <= x < U64

  /** Go's conversion of a uint64 to an int64. */
  function AsInt64(x: Uint64): (r: int)
    ensures (r - x) % U64 == 0 && -(U64 / 2) <= r < U64 / 2
  {
    if x < U64 / 2 then x else x - U64
  }

  /** Bytes that stand for a hash. SHA-256 is taken to be injective, so a digest is its input;
      `Raw` is any other byte string an agent may report. */
  datatype Digest = Sha256(input: string) | Raw(bytes: string)

  datatype ConfigFile = ConfigFile(body: string, contentType: string)

  /** A protobuf map of files; a value may be a nil pointer. */
  type ConfigMap = map<string, Option<ConfigFile>>

  datatype RemoteConfig = RemoteConfig(config: Option<ConfigMap>, hash: Digest)

  datatype Capability =
    | ReportsStatus | AcceptsRemoteConfig | ReportsEffectiveConfig | ReportsOwnTraces
    | ReportsOwnMetrics | ReportsOwnLogs | AcceptsPackages | ReportsPackageStatuses
    | ReportsHealth | ReportsRemoteConfig | AcceptsRestartCommand

  datatype KeyValue = KeyValue(key: string, value: Option<string>)

  datatype Description = Description(identifying: seq<KeyValue>, nonIdentifying: seq<KeyValue>)

  datatype Health = Health(healthy: bool, startTimeUnixNano: Uint64)

  datatype ConfigStatus = ConfigStatus(lastHash: Digest, status: nat, errorMessage: string)

  datatype AgentToServer = AgentToServer(
    sequenceNum: Uint64,
    description: Option<Description>,
    capabilities: set<Capability>,
    health: Option<Health>,
    effectiveConfig: Option<map<string, ConfigFile>>,
    configStatus: Option<ConfigStatus>,
    packageStatuses: Option<string>)

  datatype Response = Response(reportFullState: bool, remoteConfig: Option<RemoteConfig>)

  /** An agent's instance id: 16 bytes read as a number. */
  type Uuid = nat

  /** A capacity-1 notification channel, named by the order of its creation. */
  type Channel = nat

  datatype AgentRec = AgentRec(
    groupID: Option<string>,
    groupName: Option<string>,
    status: Option<AgentToServer>,
    startedAt: int,
    customConfig: string,
    remoteConfig: Option<RemoteConfig>,
    watchers: seq<Channel>)

  const FRESH: AgentRec := AgentRec(None, None, None, 0, "", None, [])

  /** The remote config rendered for a desired config: one file with the empty name, and the hash
      of its name, body and content type. */
  function Render(custom: string): RemoteConfig
  {
    RemoteConfig(Some(map["" := Some(ConfigFile(custom, ""))]), Sha256(custom))
  }

  lemma RenderIsInjective(c: string, d: string)
    ensures Render(c) == Render(d) <==> c == d
  {
    assert Render(c).hash.input == c && Render(d).hash.input == d;
  }

  /** The invariant of every reachable agent record. */
  predicate Consistent(a: AgentRec)
  {
    && (a.remoteConfig.Some? ==> a.remoteConfig.value == Render(a.customConfig))
    && (a.status.Some? ==> a.remoteConfig.Some?)
  }

  predicate HasCapability(a: AgentRec, c: Capability)
  {
    a.status.Some? && c in a.status.value.capabilities
  }

  // ---- comparing configs -------------------------------------------------------------------

  predicate EqualConfigFile(f1: Option<ConfigFile>, f2: Option<ConfigFile>)
  {
    if f1.None? || f2.None? then f1.None? && f2.None?
    else f1.value.body == f2.value.body && f1.value.contentType == f2.value.contentType
  }

  /** Indexing a Go map: a missing key reads as nil. */
  function Lookup(m: ConfigMap, k: string): Option<ConfigFile>
  {
    if k in m then m[k] else None
  }

  /** What isEqualConfigSet decides: equal sizes, and the left map's keys agree on both sides. */
  ghost predicate SameFiles(m1: ConfigMap, m2: ConfigMap)
  {
    |m1| == |m2| && forall k <- m1 :: EqualConfigFile(m1[k], Lookup(m2, k))
  }

  method EqualConfigSet(c1: Option<ConfigMap>, c2: Option<ConfigMap>) returns (equal: bool)
    ensures equal <==> (c1.None? && c2.None?) || (c1.Some? && c2.Some? && SameFiles(c1.value, c2.value))
  {
    if c1.None? || c2.None? {
      return c1.None? && c2.None?;
    }
    if |c1.value| != |c2.value| {
      return false;
    }
    var rest := c1.value.Keys;
    while rest != {}
      invariant rest <= c1.value.Keys
      invariant forall k <- c1.value.Keys - rest :: EqualConfigFile(c1.value[k], Lookup(c2.value, k))
      decreases |rest|
    {
      var k :| k in rest;
      if !EqualConfigFile(c1.value[k], Lookup(c2.value, k)) {
        return false;
      }
      rest := rest - {k};
    }
    return true;
  }

  ghost predicate NoNilFiles(m: ConfigMap)
  {
    forall k <- m :: m[k].Some?
  }

  /** Although only the left map's keys are visited, the test is exact as soon as the left map has
      no nil file: the sizes force the key sets to be the same. */
  lemma SameFilesIsEquality(m1: ConfigMap, m2: ConfigMap)
    requires NoNilFiles(m1)
    ensures SameFiles(m1, m2) <==> m1 == m2
  {
    if SameFiles(m1, m2) {
      forall k <- m1.Keys ensures k in m2.Keys && m1[k] == m2[k] {
        assert EqualConfigFile(m1[k], Lookup(m2, k));
      }
      SubsetOfSameSize(m1.Keys, m2.Keys);
    }
  }

  lemma SubsetOfSameSize<T>(a: set<T>, b: set<T>)
    requires a <= b && |a| == |b|
    ensures a == b
  {
    assert |b - a| == |b| - |a|;
  }

  /** The condition on the left map cannot be dropped: a nil file is not told from a missing one. */
  lemma NilFileIsNotNoticed()
    ensures var m1: ConfigMap := map["a" := None];
            var m2: ConfigMap := map["b" := Some(ConfigFile("x", ""))];
            SameFiles(m1, m2) && m1 != m2
  {
    var m1: ConfigMap := map["a" := None];
    var m2: ConfigMap := map["b" := Some(ConfigFile("x", ""))];
    assert "a" in m1 && "a" !in m2;
    assert |m1| == 1 && |m2| == 1;
  }

  lemma {:induction false} LongerThanAll(keys: set<string>) returns (n: nat)
    ensures forall k <- keys :: |k| < n
  {
    n := 0;
    if keys != {} {
      var k :| k in keys;
      n := LongerThanAll(keys - {k});
      n := if n > |k| then n else |k| + 1;
    }
  }

  /** With a nil file there is always a different map that is judged equal. */
  lemma NilFileHidesADifference(m1: ConfigMap, k: string) returns (m2: ConfigMap)
    requires k in m1 && m1[k].None?
    ensures SameFiles(m1, m2) && m1 != m2
  {
    var n := LongerThanAll(m1.Keys);
    var other := seq(n, _ => 'x');
    var rest := map l | l in m1 && l != k :: m1[l];
    assert rest.Keys == m1.Keys - {k} && |rest.Keys| == |m1.Keys| - 1;
    m2 := rest[other := Some(ConfigFile("", ""))];
    assert m2.Keys == rest.Keys + {other};
    assert k !in m2;
  }

  /** The left map decides the test exactly when none of its files is nil. */
  lemma TestIsExactExactlyWhen(m1: ConfigMap)
    ensures (forall m2 :: SameFiles(m1, m2) <==> m1 == m2) <==> NoNilFiles(m1)
  {
    if NoNilFiles(m1) {
      forall m2 ensures SameFiles(m1, m2) <==> m1 == m2 { SameFilesIsEquality(m1, m2); }
    } else {
      var k :| k in m1 && m1[k].None?;
      var m2 := NilFileHidesADifference(m1, k);
    }
  }

  // ---- specification of the two locked sections --------------------------------------------

  predicate Gap(a: AgentRec, msg: AgentToServer)
  {
    a.status.None? || (a.status.value.sequenceNum + 1) % U64 != msg.sequenceNum
  }

  function StatusAfter(a: AgentRec, msg: AgentToServer): AgentToServer
  {
    if a.status.None? then msg else
    var st := a.status.value;
    st.(sequenceNum := msg.sequenceNum,
        description := Merge(st.description, msg.description),
        health := Merge(st.health, msg.health),
        configStatus := Merge(st.configStatus, msg.configStatus))
  }

  /** The message leaves out something the agent is known to report. An omitted description does
      not count, and the capabilities are those of the first message. */
  predicate Compressed(known: AgentToServer, msg: AgentToServer)
  {
    || (msg.effectiveConfig.None? && ReportsEffectiveConfig in known.capabilities)
    || (msg.packageStatuses.None? && ReportsPackageStatuses in known.capabilities)
    || (msg.configStatus.None? && ReportsRemoteConfig in known.capabilities)
    || (msg.health.None? && ReportsHealth in known.capabilities)
  }

  function AfterStatus(a: AgentRec, msg: AgentToServer): (r: AgentRec)
    requires Consistent(a)
    ensures Consistent(r)
  {
    a.(status := Some(StatusAfter(a, msg)),
       startedAt := if msg.health.Some? && msg.health.value.healthy
                    then AsInt64(msg.health.value.startTimeUnixNano) else a.startedAt,
       remoteConfig := Some(Render(a.customConfig)),
       watchers := [])
  }

  function Respond(a: AgentRec, msg: AgentToServer): Response
    requires Consistent(a)
  {
    var st := StatusAfter(a, msg);
    var outdated := st.configStatus.Some? && st.configStatus.value.lastHash != Render(a.customConfig).hash;
    Response(Gap(a, msg) && Compressed(st, msg),
             if a.remoteConfig.None? || outdated then Some(Render(a.customConfig)) else None)
  }

  /** The response asks for full state exactly when there is a gap (nothing stored yet, or a sequence
      number that does not follow the stored one) and the message omits something that the agent, by
      the capabilities of its first message, is known to report. */
  lemma FullStateIsAskedExactlyWhen(a: AgentRec, msg: AgentToServer)
    requires Consistent(a)
    ensures var known := if a.status.Some? then a.status.value.capabilities else msg.capabilities;
            Respond(a, msg).reportFullState <==>
            && (a.status.Some? ==>
                  msg.sequenceNum != if a.status.value.sequenceNum == U64 - 1 then 0
                                     else a.status.value.sequenceNum + 1)
            && (|| (msg.effectiveConfig.None? && ReportsEffectiveConfig in known)
                || (msg.packageStatuses.None? && ReportsPackageStatuses in known)
                || (msg.configStatus.None? && ReportsRemoteConfig in known)
                || (msg.health.None? && ReportsHealth in known))
  {
    if a.status.Some? {
      var n := a.status.value.sequenceNum;
      assert (n + 1) % U64 == if n == U64 - 1 then 0 else n + 1;
    }
  }

  /** The response carries the desired config exactly when none has been rendered for the agent, or the
      hash it last acknowledged, in this message or before it, is another one. */
  lemma ConfigIsCarriedExactlyWhen(a: AgentRec, msg: AgentToServer)
    requires Consistent(a)
    ensures var acknowledged :=
              if msg.configStatus.Some? then Some(msg.configStatus.value.lastHash)
              else if a.status.Some? && a.status.value.configStatus.Some?
              then Some(a.status.value.configStatus.value.lastHash) else None;
            Respond(a, msg).remoteConfig ==
            if a.remoteConfig.None? || (acknowledged.Some? && acknowledged.value != Sha256(a.customConfig))
            then Some(RemoteConfig(Some(map["" := Some(ConfigFile(a.customConfig, ""))]), Sha256(a.customConfig)))
            else None
  {
  }

  /** What is remembered of a message: a first one whole, of a later one the sequence number and the
      fields it reports. Capabilities are those of the first message; the effective config and the
      package statuses of the status are never replaced. */
  lemma StatusIsMerged(a: AgentRec, msg: AgentToServer)
    requires Consistent(a)
    ensures a.status.None? ==> AfterStatus(a, msg).status == Some(msg)
    ensures a.status.Some? ==>
              var was, now := a.status.value, AfterStatus(a, msg).status.value;
              && now.sequenceNum == msg.sequenceNum
              && now.capabilities == was.capabilities
              && now.effectiveConfig == was.effectiveConfig && now.packageStatuses == was.packageStatuses
              && now.description == (if msg.description.Some? then msg.description else was.description)
              && now.health == (if msg.health.Some? then msg.health else was.health)
              && now.configStatus == (if msg.configStatus.Some? then msg.configStatus else was.configStatus)
    ensures var b := AfterStatus(a, msg);
            b.groupID == a.groupID && b.groupName == a.groupName && b.customConfig == a.customConfig && b.watchers == []
  {
  }

  /** SetCustomConfig makes a watcher wait exactly when it changes the rendered config. */
  predicate ChangesConfig(a: AgentRec, content: string)
  {
    a.remoteConfig.None? || a.customConfig != content
  }

  function AfterSetConfig(a: AgentRec, content: string, notify: Option<Channel>): (r: AgentRec)
    requires Consistent(a)
    ensures Consistent(r)
  {
    a.(customConfig := content,
       remoteConfig := Some(Render(content)),
       watchers := if notify.Some? && ChangesConfig(a, content) then a.watchers + [notify.value] else a.watchers)
  }

  // ---- the mutable agent -------------------------------------------------------------------

  class Agent {
    const instanceId: Uuid
    const conn: nat
    var groupID: Option<string>
    var groupName: Option<string>
    var status: Option<AgentToServer>
    var startedAt: int
    var effectiveConfig: string
    var customConfig: string
    var remoteConfig: Option<RemoteConfig>
    var watchers: seq<Channel>

    ghost function Rec(): AgentRec
      reads this
    {
      AgentRec(groupID, groupName, status, startedAt, customConfig, remoteConfig, watchers)
    }

    ghost predicate Valid()
      reads this
    {
      Consistent(Rec())
    }

    constructor (instanceId: Uuid, conn: nat)
      ensures this.instanceId == instanceId && this.conn == conn
      ensures Rec() == FRESH && Valid() && effectiveConfig == ""
    {
      this.instanceId, this.conn := instanceId, conn;
      groupID, groupName, status, startedAt := None, None, None, 0;
      effectiveConfig, customConfig, remoteConfig, watchers := "", "", None, [];
    }

    method CalcRemoteConfig() returns (changed: bool)
      requires remoteConfig.Some? ==> exists c :: remoteConfig.value == Render(c)
      modifies this`remoteConfig
      ensures remoteConfig == Some(Render(customConfig))
      ensures changed <==> old(remoteConfig) != remoteConfig
    {
      var files: ConfigMap := map["" := Some(ConfigFile(customConfig, ""))];
      var cfg := RemoteConfig(Some(files), Sha256("" + customConfig + ""));
      assert cfg == Render(customConfig) by {
        assert "" + customConfig + "" == customConfig;
      }
      if remoteConfig.None? {
        changed := true;
      } else {
        var equal := EqualConfigSet(remoteConfig.value.config, cfg.config);
        changed := !equal;
        ghost var previous := remoteConfig.value.config.value;
        SameFilesIsEquality(previous, files);
        ghost var c :| remoteConfig.value == Render(c);
        assert previous[""] == Some(ConfigFile(c, "")) && files[""] == Some(ConfigFile(customConfig, ""));
      }
      remoteConfig := Some(cfg);
    }

    method UpdateAgentDescription(msg: AgentToServer) returns (changed: bool)
      requires status.Some?
      modifies this`status
      ensures status.Some?
      ensures status == Some(old(status.value).(
                             sequenceNum := msg.sequenceNum,
                             description := Merge(old(status.value).description, msg.description),
                             configStatus := Merge(old(status.value).configStatus, msg.configStatus)))
      ensures changed <==> msg.description.Some? && msg.description != old(status.value).description
    {
      var previous := status.value;
      status := Some(previous.(sequenceNum := msg.sequenceNum));
      changed := false;
      if msg.description.Some? {
        if previous.description != msg.description {
          status := Some(status.value.(description := msg.description));
          changed := true;
        }
      }
      if msg.configStatus.Some? && status.value.configStatus != msg.configStatus {
        status := Some(status.value.(configStatus := msg.configStatus));
      }
    }

    method UpdateHealth(msg: AgentToServer)
      requires status.Some?
      modifies this`status, this`startedAt
      ensures status == Some(old(status.value).(health := Merge(old(status.value).health, msg.health)))
      ensures startedAt == if msg.health.Some? && msg.health.value.healthy
                           then AsInt64(msg.health.value.startTimeUnixNano) else old(startedAt)
    {
      if msg.health.None? {
        return;
      }
      status := Some(status.value.(health := msg.health));
      if status.value.health.value.healthy {
        startedAt := AsInt64(status.value.health.value.startTimeUnixNano);
      }
    }

    method UpdateStatusField(msg: AgentToServer) returns (changed: bool)
      modifies this`status, this`startedAt
      ensures status == Some(StatusAfter(old(Rec()), msg))
      ensures startedAt == if msg.health.Some? && msg.health.value.healthy
                           then AsInt64(msg.health.value.startTimeUnixNano) else old(startedAt)
      ensures old(status).None? ==> changed
    {
      changed := false;
      if status.None? {
        status := Some(msg);
        changed := true;
      }
      var described := UpdateAgentDescription(msg);
      changed := described || changed;
      UpdateHealth(msg);
      if msg.configStatus.Some? {
        status := Some(status.value.(configStatus := msg.configStatus));
      }
    }

    /** The effective config becomes the body of some file of a non-empty report. */
    method UpdateEffectiveConfig(msg: AgentToServer)
      modifies this`effectiveConfig
      ensures if msg.effectiveConfig.Some? && |msg.effectiveConfig.value| > 0
              then exists k <- msg.effectiveConfig.value :: effectiveConfig == msg.effectiveConfig.value[k].body
              else effectiveConfig == old(effectiveConfig)
    {
      if msg.effectiveConfig.Some? {
        if |msg.effectiveConfig.value| > 0 {
          assert msg.effectiveConfig.value.Keys != {};
          var k :| k in msg.effectiveConfig.value.Keys;
          effectiveConfig := msg.effectiveConfig.value[k].body;
        }
      }
    }

    method ProcessStatusUpdate(msg: AgentToServer) returns (response: Response)
      requires Valid()
      modifies this`status, this`startedAt, this`remoteConfig, this`effectiveConfig
      ensures Rec() == AfterStatus(old(Rec()), msg).(watchers := old(watchers))
      ensures response == Respond(old(Rec()), msg)
      ensures var known := if old(status).Some? then old(status).value.capabilities else msg.capabilities;
              response.reportFullState <==>
              && (old(status).Some? ==> msg.sequenceNum != (old(status).value.sequenceNum + 1) % U64)
              && (|| (msg.effectiveConfig.None? && ReportsEffectiveConfig in known)
                  || (msg.packageStatuses.None? && ReportsPackageStatuses in known)
                  || (msg.configStatus.None? && ReportsRemoteConfig in known)
                  || (msg.health.None? && ReportsHealth in known))
    {
      var lostPreviousUpdate := status.None? || (status.value.sequenceNum + 1) % U64 != msg.sequenceNum;
      var descriptionChanged := UpdateStatusField(msg);
      var compressed := Compressed(status.value, msg);
      response := Response(compressed && lostPreviousUpdate, None);
      var configChanged := false;
      if descriptionChanged {
        configChanged := CalcRemoteConfig();
      }
      // Only a consistent record makes this comparison safe: a nil remote config has no hash.
      if configChanged ||
         (status.value.configStatus.Some? && status.value.configStatus.value.lastHash != remoteConfig.value.hash) {
        response := response.(remoteConfig := remoteConfig);
      }
      UpdateEffectiveConfig(msg);
    }

    /** Returns the response and the watchers to be notified once the lock is released. */
    method UpdateStatus(msg: AgentToServer) returns (response: Response, notify: seq<Channel>)
      requires Valid()
      modifies this`status, this`startedAt, this`remoteConfig, this`effectiveConfig, this`watchers
      ensures Valid() && Rec() == AfterStatus(old(Rec()), msg)
      ensures response == Respond(old(Rec()), msg)
      ensures notify == old(watchers)
    {
      response := ProcessStatusUpdate(msg);
      notify := watchers;
      watchers := [];
    }

    /** `push` is the message sent to the agent; `signalNow` that the caller's channel is signalled
        at once because nothing changed. */
    method SetCustomConfig(content: string, notify: Option<Channel>)
      returns (push: Option<RemoteConfig>, signalNow: bool)
      requires Valid()
      modifies this`customConfig, this`remoteConfig, this`watchers
      ensures Valid() && Rec() == AfterSetConfig(old(Rec()), content, notify)
      ensures push == if old(remoteConfig) != Some(Render(content)) then Some(Render(content)) else None
      ensures signalNow <==> notify.Some? && old(remoteConfig) == Some(Render(content))
      ensures watchers == old(watchers) + if notify.Some? && !signalNow then [notify.value] else []
    {
      customConfig := content;
      var changed := CalcRemoteConfig();
      RenderIsInjective(content, old(customConfig));
      push, signalNow := None, false;
      if changed {
        if notify.Some? {
          watchers := watchers + [notify.value];
        }
        push := remoteConfig;
      } else {
        signalNow := notify.Some?;
      }
    }
  }
}
