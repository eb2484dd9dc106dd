/** The OpAMP callbacks (internal/opamp/server.go): a message finds or creates the agent, resolves
    its group, updates its status and persists it; a closed connection marks its agents offline and
    drops them. One callback is one step. */
module OpampServer {
  import opened Basics
  import opened OpampAgent
  import opened OpampRegistry
  import opened ConfigStore

  const GROUP_ID_KEYS: set<string> := {"group.id", "service.group.id", "agent.group_id"}
  const GROUP_NAME_KEYS: set<string> := {"group.name", "service.group.name", "agent.group_name"}

  /** The last non-empty value of an attribute with one of the keys, or the empty string. */
  function LastNonEmpty(attrs: seq<KeyValue>, keys: set<string>): string
  {
    if attrs == [] then "" else
    var last := attrs[|attrs| - 1];
    if last.key in keys && last.value.Some? && last.value.value != "" then last.value.value
    else LastNonEmpty(attrs[..|attrs| - 1], keys)
  }

  predicate Names(attr: KeyValue, keys: set<string>)
  {
    attr.key in keys && attr.value.Some? && attr.value.value != ""
  }

  /** Attribute i is the last one that names a group. */
  ghost predicate IsLastNaming(attrs: seq<KeyValue>, keys: set<string>, i: nat)
  {
    i < |attrs| && Names(attrs[i], keys) && forall j :: i < j < |attrs| ==> !Names(attrs[j], keys)
  }

  lemma {:induction false} LastNaming(attrs: seq<KeyValue>, keys: set<string>, i: nat)
    requires IsLastNaming(attrs, keys, i)
    ensures LastNonEmpty(attrs, keys) == attrs[i].value.value
    decreases |attrs|
  {
    if i < |attrs| - 1 {
      assert !Names(attrs[|attrs| - 1], keys);
      LastNaming(attrs[..|attrs| - 1], keys, i);
    }
  }

  lemma {:induction false} NoneNaming(attrs: seq<KeyValue>, keys: set<string>)
    requires forall a <- attrs :: !Names(a, keys)
    ensures LastNonEmpty(attrs, keys) == ""
    decreases |attrs|
  {
    if attrs != [] {
      assert attrs[|attrs| - 1] in attrs;
      NoneNaming(attrs[..|attrs| - 1], keys);
    }
  }

  /** The attributes that name a group. */
  lemma GroupKeysExactly(key: string)
    ensures key in GROUP_ID_KEYS <==> key == "group.id" || key == "service.group.id" || key == "agent.group_id"
    ensures key in GROUP_NAME_KEYS <==>
            key == "group.name" || key == "service.group.name" || key == "agent.group_name"
  {
  }

  method ExtractGroupInfo(desc: Description) returns (groupID: string, groupName: string)
    ensures groupID == LastNonEmpty(desc.identifying + desc.nonIdentifying, GROUP_ID_KEYS)
    ensures groupName == LastNonEmpty(desc.identifying + desc.nonIdentifying, GROUP_NAME_KEYS)
  {
    groupID, groupName := "", "";
    var attrs := desc.identifying + desc.nonIdentifying;
    for i := 0 to |attrs|
      invariant groupID == LastNonEmpty(attrs[..i], GROUP_ID_KEYS)
      invariant groupName == LastNonEmpty(attrs[..i], GROUP_NAME_KEYS)
    {
      var attr := attrs[i];
      assert attrs[..i + 1][..i] == attrs[..i];
      if attr.key in GROUP_ID_KEYS && attr.value.Some? && attr.value.value != "" {
        groupID := attr.value.value;
      }
      if attr.key in GROUP_NAME_KEYS && attr.value.Some? && attr.value.value != "" {
        groupName := attr.value.value;
      }
    }
    assert attrs[..|attrs|] == attrs;
  }

  function StatusOf(msg: AgentToServer): AgentStatus
  {
    if msg.health.Some? && !msg.health.value.healthy then Error else Online
  }

  function NameOf(c: Capability): string
  {
    match c
    case ReportsStatus => "reports_status"
    case AcceptsRemoteConfig => "accepts_remote_config"
    case ReportsEffectiveConfig => "reports_effective_config"
    case ReportsOwnTraces => "reports_own_traces"
    case ReportsOwnMetrics => "reports_own_metrics"
    case ReportsOwnLogs => "reports_own_logs"
    case AcceptsPackages => "accepts_packages"
    case ReportsPackageStatuses => "reports_package_statuses"
    case ReportsHealth => "reports_health"
    case ReportsRemoteConfig => "reports_remote_config"
    case AcceptsRestartCommand => "accepts_restart_command"
  }

  const CAPABILITIES: seq<Capability> := [
    ReportsStatus, AcceptsRemoteConfig, ReportsEffectiveConfig, ReportsOwnTraces, ReportsOwnMetrics, ReportsOwnLogs,
    AcceptsPackages, ReportsPackageStatuses, ReportsHealth, ReportsRemoteConfig, AcceptsRestartCommand]

  function CapabilityNames(caps: set<Capability>, order: seq<Capability> := CAPABILITIES): seq<string>
  {
    if order == [] then []
    else (if order[0] in caps then [NameOf(order[0])] else []) + CapabilityNames(caps, order[1..])
  }

  lemma {:induction false} NamedExactlyWhen(caps: set<Capability>, order: seq<Capability>, name: string)
    ensures name in CapabilityNames(caps, order) <==> exists c <- order :: c in caps && NameOf(c) == name
    decreases |order|
  {
    if order != [] {
      NamedExactlyWhen(caps, order[1..], name);
      assert order == [order[0]] + order[1..];
    }
  }

  lemma EveryCapabilityIsListed(c: Capability)
    ensures c in CAPABILITIES
  {
    var all := CAPABILITIES;
    assert c == all[0] || c == all[1] || c == all[2] || c == all[3] || c == all[4] || c == all[5] || c == all[6]
        || c == all[7] || c == all[8] || c == all[9] || c == all[10];
  }

  lemma NameIsAccepts(c: Capability)
    ensures NameOf(c) == "accepts_remote_config" <==> c == AcceptsRemoteConfig
  {
    assert |"accepts_remote_config"| == 21 && "accepts_remote_config"[0] == 'a';
    assert c != AcceptsRemoteConfig ==> |NameOf(c)| != 21 || NameOf(c)[0] == 'r';
  }

  /** The names stored are those of the declared capabilities, and the one StoreConfigForAgent looks for
      is stored exactly for agents that declare to accept remote config. */
  lemma CapabilitiesAreNamed(caps: set<Capability>, name: string)
    ensures name in CapabilityNames(caps) <==> exists c <- caps :: NameOf(c) == name
    ensures "accepts_remote_config" in CapabilityNames(caps) <==> AcceptsRemoteConfig in caps
  {
    NamedExactlyWhen(caps, CAPABILITIES, name);
    NamedExactlyWhen(caps, CAPABILITIES, "accepts_remote_config");
    forall c: Capability ensures c in CAPABILITIES { EveryCapabilityIsListed(c); }
    forall c: Capability ensures NameOf(c) == "accepts_remote_config" <==> c == AcceptsRemoteConfig {
      NameIsAccepts(c);
    }
  }

  // ---- specification -----------------------------------------------------------------------

  predicate GroupChanged(a: AgentRec, groupID: string, groupName: string)
  {
    || (a.groupID.None? && groupID != "")
    || (a.groupID.Some? && a.groupID.value != groupID)
    || (a.groupName.Some? && a.groupName.value != groupName)
  }

  /** Group resolution looks up a config for the agent. */
  predicate Resolves(a: AgentRec, msg: AgentToServer)
  {
    msg.description.Some? &&
    var attrs := msg.description.value.identifying + msg.description.value.nonIdentifying;
    && (GroupChanged(a, LastNonEmpty(attrs, GROUP_ID_KEYS), LastNonEmpty(attrs, GROUP_NAME_KEYS))
        || a.status.None? || a.customConfig == "")
    && HasCapability(a, AcceptsRemoteConfig)
  }

  /** What group resolution may make of a record: a described agent gets its group, and if the group
      changed or no config is set yet it gets a config of the store, unless that is empty. */
  ghost predicate Grouped(a: AgentRec, id: Uuid, msg: AgentToServer, configs: Configs, g: AgentRec)
  {
    if msg.description.None? then g == a else
    var attrs := msg.description.value.identifying + msg.description.value.nonIdentifying;
    var groupID, groupName := LastNonEmpty(attrs, GROUP_ID_KEYS), LastNonEmpty(attrs, GROUP_NAME_KEYS);
    var b := a.(groupID := Some(groupID), groupName := Some(groupName));
    if Resolves(a, msg)
    then exists content ::
              && MayReceive(configs, id, Some(groupID), content)
              && g == if content == "" then b else b.(customConfig := content, remoteConfig := Some(Render(content)))
    else g == b
  }

  function Persisted(stored: map<Uuid, StoredAgent>, id: Uuid, msg: AgentToServer, groupID: Option<string>)
    : map<Uuid, StoredAgent>
  {
    if id in stored then stored[id := stored[id].(status := StatusOf(msg))]
    else stored[id := StoredAgent(StatusOf(msg), groupID, CapabilityNames(msg.capabilities))]
  }

  /** A message turns the record `a` into `b`; only for an agent new to the store may the group id
      differ from the reported one, because the group may be looked up or created by its name. */
  ghost predicate Handled(a: AgentRec, id: Uuid, msg: AgentToServer, configs: Configs,
                          known: bool, b: AgentRec, response: Response)
  {
    exists g ::
      && Grouped(a, id, msg, configs, g)
      && Consistent(g)
      && response == Respond(g, msg)
      && b == AfterStatus(g, msg).(groupID := if known then g.groupID else b.groupID)
  }

  /** A new agent that names a group gets the id of a group of that name, which is created if there is
      none (unless its id is taken); otherwise groups and group id stay. */
  ghost predicate GroupResolved(known: bool, name: Option<string>, newGroup: string,
                                before: map<string, Group>, groupID: Option<string>,
                                after: map<string, Group>, resolved: Option<string>)
  {
    if known || name.None? || name.value == "" then after == before && resolved == groupID
    else if exists k <- before :: before[k].name == name.value then
      after == before && exists k <- before :: before[k].name == name.value && resolved == Some(before[k].id)
    else if newGroup !in before then
      after == before[newGroup := Group(newGroup, name.value)] && resolved == Some(newGroup)
    else after == before && resolved == groupID
  }

  function MarkedOffline(stored: map<Uuid, StoredAgent>, ids: set<Uuid>): map<Uuid, StoredAgent>
  {
    map id | id in stored :: if id in ids then stored[id].(status := Offline) else stored[id]
  }

  datatype State = State(fleet: Fleet, connections: map<nat, set<Uuid>>, stored: map<Uuid, StoredAgent>)

  datatype Event =
    | Message(conn: nat, id: Uuid, msg: AgentToServer, configs: Configs, after: AgentRec, response: Response)
    | Closed(conn: nat)
    | Push(id: Uuid, content: string)

  ghost predicate Step(s: State, e: Event, t: State)
  {
    match e
    case Message(conn, id, msg, configs, b, response) =>
      var known := id in s.fleet.agents;
      var a := if known then s.fleet.agents[id] else Entry(conn, FRESH);
      && Handled(a.rec, id, msg, configs, id in s.stored, b, response)
      && t == State(s.fleet.(agents := s.fleet.agents[id := Entry(a.conn, b)]),
                    if known then s.connections else Connected(s.connections, conn, id),
                    Persisted(s.stored, id, msg, b.groupID))
    case Closed(conn) =>
      var gone := ConnectedTo(s.connections, conn);
      t == State(s.fleet.(agents := s.fleet.agents - gone), s.connections - {conn}, MarkedOffline(s.stored, gone))
    case Push(id, content) =>
      && (id in s.fleet.agents ==> Consistent(s.fleet.agents[id].rec))
      && t == s.(fleet := Sent(s.fleet, id, content))
  }

  lemma MessageStep(s: State, conn: nat, id: Uuid, msg: AgentToServer, configs: Configs,
                    found: map<Uuid, Entry>, b: AgentRec, response: Response, t: State)
    requires found == if id in s.fleet.agents then s.fleet.agents else s.fleet.agents[id := Entry(conn, FRESH)]
    requires Handled(found[id].rec, id, msg, configs, id in s.stored, b, response)
    requires t == State(s.fleet.(agents := found[id := Entry(found[id].conn, b)]),
                        if id in s.fleet.agents then s.connections else Connected(s.connections, conn, id),
                        Persisted(s.stored, id, msg, b.groupID))
    ensures Step(s, Message(conn, id, msg, configs, b, response), t)
  {
    assert found[id := Entry(found[id].conn, b)] == s.fleet.agents[id := Entry(found[id].conn, b)];
  }

  /** The first message of an agent cannot bring it a stored config: its capabilities are not known
      yet when its group is resolved. */
  lemma FirstMessageSetsNoConfig(id: Uuid, msg: AgentToServer, configs: Configs, known: bool, b: AgentRec,
                                 response: Response)
    requires Handled(FRESH, id, msg, configs, known, b, response)
    ensures b.customConfig == "" && response.remoteConfig == Some(Render(""))
  {
  }

  /** A described message sets the group of an agent the store knows to what it reports, another one
      leaves it; the name is set in any case. */
  lemma GroupIsReported(a: AgentRec, id: Uuid, msg: AgentToServer, configs: Configs, known: bool, b: AgentRec,
                        response: Response)
    requires Handled(a, id, msg, configs, known, b, response)
    ensures msg.description.None? ==> b.groupName == a.groupName && (known ==> b.groupID == a.groupID)
    ensures msg.description.Some? ==>
              var attrs := msg.description.value.identifying + msg.description.value.nonIdentifying;
              && b.groupName == Some(LastNonEmpty(attrs, GROUP_NAME_KEYS))
              && (known ==> b.groupID == Some(LastNonEmpty(attrs, GROUP_ID_KEYS)))
  {
  }

  /** Storing a config does not deliver it. A message makes it the desired config of its agent exactly
      when the agent is known to accept one, describes itself, and has changed its group or has no
      config yet (and the stored one is not empty); otherwise the desired config stays as it is. */
  lemma StoredConfigIsDelivered(before: Configs, c: Config, rows: seq<Config>, a: AgentRec, msg: AgentToServer,
                                known: bool, b: AgentRec, response: Response)
    requires InRange(before) && Appended(before, c)
    requires forall k <- before :: before[k].agentID == c.agentID ==> before[k].version < MAX_INT
    requires OthersCreated(before[c.id := c], c.agentID.value, rows)
    requires Handled(a, c.agentID.value, msg, CreateAll(before[c.id := c], rows), known, b, response)
    ensures var attrs := if msg.description.None? then []
                         else msg.description.value.identifying + msg.description.value.nonIdentifying;
            var groupID, groupName := LastNonEmpty(attrs, GROUP_ID_KEYS), LastNonEmpty(attrs, GROUP_NAME_KEYS);
            b.customConfig ==
            if msg.description.Some?
               && a.status.Some? && AcceptsRemoteConfig in a.status.value.capabilities
               && (|| a.customConfig == ""
                   || (a.groupID.None? && groupID != "")
                   || (a.groupID.Some? && a.groupID.value != groupID)
                   || (a.groupName.Some? && a.groupName.value != groupName))
               && c.content != ""
            then c.content else a.customConfig
  {
    var id, configs := c.agentID.value, CreateAll(before[c.id := c], rows);
    forall group, content | MayReceive(configs, id, group, content) ensures content == c.content {
      StoredConfigIsLookedUp(before, c, rows, group, content);
    }
  }

  /** A capable agent that has no config, and for which none is stored, gets the default one with its
      first described message after that; the response carries it if the agent reports a status. */
  lemma UnconfiguredGetsDefault(a: AgentRec, id: Uuid, msg: AgentToServer, configs: Configs, known: bool,
                                b: AgentRec, response: Response)
    requires Consistent(a) && HasCapability(a, AcceptsRemoteConfig) && a.customConfig == "" && msg.description.Some?
    requires forall k <- configs :: configs[k].agentID != Some(id) && configs[k].groupID.None?
    requires Handled(a, id, msg, configs, known, b, response)
    ensures b.customConfig == DEFAULT_CONFIG != ""
    ensures msg.configStatus.Some? && msg.configStatus.value.lastHash != Render(DEFAULT_CONFIG).hash ==>
              response.remoteConfig == Some(Render(DEFAULT_CONFIG))
  {
    assert |DEFAULT_CONFIG| > 0;
  }

  // ---- every run keeps registry and store in step ------------------------------------------

  /** An agent is listed under a connection exactly when that is its connection. */
  ghost predicate Indexed(s: State)
  {
    forall id: Uuid, conn: nat ::
      id in ConnectedTo(s.connections, conn) <==> id in s.fleet.agents && s.fleet.agents[id].conn == conn
  }

  ghost predicate Present(s: State, id: Uuid)
  {
    && (id in s.fleet.agents ==> id in s.stored)
    && (id in s.stored ==>
          && (s.stored[id].status == Online || s.stored[id].status == Error <==> id in s.fleet.agents)
          && (s.stored[id].status == Offline <==> id !in s.fleet.agents))
  }

  ghost predicate InStep(s: State)
  {
    ConsistentFleet(s.fleet) && Indexed(s) && forall id: Uuid :: Present(s, id)
  }

  lemma MessageKeepsIndex(s: State, e: Event, t: State)
    requires Indexed(s) && e.Message? && Step(s, e, t)
    ensures Indexed(t)
  {
    forall id: Uuid, conn: nat
      ensures id in ConnectedTo(t.connections, conn) <==> id in t.fleet.agents && t.fleet.agents[id].conn == conn
    {
      assert id in ConnectedTo(s.connections, conn) <==> id in s.fleet.agents && s.fleet.agents[id].conn == conn;
      assert id in ConnectedTo(t.connections, conn) <==>
             id in ConnectedTo(s.connections, conn) ||
             (id == e.id && conn == e.conn && e.id !in s.fleet.agents);
    }
  }

  lemma CloseKeepsIndex(s: State, e: Event, t: State)
    requires Indexed(s) && e.Closed? && Step(s, e, t)
    ensures Indexed(t)
  {
    forall id: Uuid, conn: nat
      ensures id in ConnectedTo(t.connections, conn) <==> id in t.fleet.agents && t.fleet.agents[id].conn == conn
    {
      assert id in ConnectedTo(s.connections, conn) <==> id in s.fleet.agents && s.fleet.agents[id].conn == conn;
      assert id in ConnectedTo(s.connections, e.conn) <==> id in s.fleet.agents && s.fleet.agents[id].conn == e.conn;
    }
  }

  lemma StepKeepsPresence(s: State, e: Event, t: State)
    requires InStep(s) && Step(s, e, t)
    ensures forall id: Uuid :: Present(t, id)
  {
    forall id: Uuid ensures Present(t, id) {
      assert Present(s, id);
      if e.Closed? {
        assert id in ConnectedTo(s.connections, e.conn) ==> id in s.fleet.agents;
      }
    }
  }

  lemma StepStaysInStep(s: State, e: Event, t: State)
    requires InStep(s) && Step(s, e, t)
    ensures InStep(t)
  {
    StepKeepsPresence(s, e, t);
    if e.Message? {
      MessageKeepsIndex(s, e, t);
    } else if e.Closed? {
      CloseKeepsIndex(s, e, t);
    } else {
      assert forall id <- t.fleet.agents :: t.fleet.agents[id].conn == s.fleet.agents[id].conn;
      assert Indexed(t);
    }
  }

  ghost predicate Trace(states: seq<State>, events: seq<Event>)
  {
    && |states| == |events| + 1
    && states[0] == State(Fleet(map[], 0), map[], map[])
    && forall i :: 0 <= i < |events| ==> Step(states[i], events[i], states[i + 1])
  }

  /** From a fresh store, in every run, a persisted agent is online or in error exactly while it is
      registered and offline exactly while it is not, and the connection index is exact. */
  lemma {:induction false} StoreFollowsRegistry(states: seq<State>, events: seq<Event>, n: nat)
    requires Trace(states, events) && n < |states|
    ensures InStep(states[n])
    decreases n
  {
    if n > 0 {
      StoreFollowsRegistry(states, events, n - 1);
      StepStaysInStep(states[n - 1], events[n - 1], states[n]);
    }
  }

  /** What a message stores: of a known agent the status, of a new one also its group and capabilities;
      no other agent changes. */
  lemma PersistedExactly(stored: map<Uuid, StoredAgent>, id: Uuid, msg: AgentToServer, group: Option<string>,
                         other: Uuid)
    ensures var after := Persisted(stored, id, msg, group);
            && after.Keys == stored.Keys + {id}
            && (other != id && other in stored ==> after[other] == stored[other])
            && (after[id].status == Error <==> msg.health.Some? && !msg.health.value.healthy)
            && (after[id].status == Online <==> msg.health.None? || msg.health.value.healthy)
            && (id in stored ==>
                  after[id].groupID == stored[id].groupID && after[id].capabilities == stored[id].capabilities)
            && (id !in stored ==>
                  && after[id].groupID == group
                  && ("accepts_remote_config" in after[id].capabilities <==> AcceptsRemoteConfig in msg.capabilities))
  {
    CapabilitiesAreNamed(msg.capabilities, "");
  }

  // ---- which status is stored --------------------------------------------------------------

  /** The event is no message of the agent. */
  predicate Silent(e: Event, id: Uuid)
  {
    e.Message? ==> e.id != id
  }

  /** While an agent stays registered, its stored status is that of its last message: error exactly if
      that message reported bad health, and online otherwise. */
  lemma {:induction false} StatusOfLastMessage(states: seq<State>, events: seq<Event>, k: nat, n: nat, id: Uuid)
    requires Trace(states, events) && k < n < |states| && events[k].Message? && events[k].id == id
    requires forall j :: k < j < n ==> Silent(events[j], id)
    requires id in states[n].fleet.agents
    ensures id in states[n].stored
    ensures states[n].stored[id].status == Error <==>
            events[k].msg.health.Some? && !events[k].msg.health.value.healthy
    ensures states[n].stored[id].status == Online || states[n].stored[id].status == Error
    decreases n
  {
    StoreFollowsRegistry(states, events, n - 1);
    assert Step(states[n - 1], events[n - 1], states[n]);
    if k < n - 1 {
      assert Silent(events[n - 1], id);
      SilentStep(states[n - 1], events[n - 1], states[n], id);
      StatusOfLastMessage(states, events, k, n - 1, id);
    }
  }

  lemma SilentStep(s: State, e: Event, t: State, id: Uuid)
    requires InStep(s) && Step(s, e, t) && Silent(e, id) && id in t.fleet.agents
    ensures id in s.fleet.agents && (id in s.stored ==> id in t.stored && t.stored[id] == s.stored[id])
  {
  }

  /** So a compressed message without health makes an agent online whose remembered health is bad. */
  lemma OmittedHealthReadsAsOnline(a: AgentRec, id: Uuid, msg: AgentToServer, stored: map<Uuid, StoredAgent>,
                                   group: Option<string>)
    requires Consistent(a) && a.status.Some? && a.status.value.health.Some? && !a.status.value.health.value.healthy
    requires msg.health.None?
    ensures Persisted(stored, id, msg, group)[id].status == Online
    ensures AfterStatus(a, msg).status.value.health == a.status.value.health
  {
  }

  // ---- the mutable server ------------------------------------------------------------------

  class Server {
    const agents: Agents
    const store: MemoryStore

    ghost function Snapshot(): State
      reads agents, store
    {
      State(agents.fleet, agents.connections, store.agents)
    }

    constructor ()
      ensures agents.Valid() && fresh(agents) && fresh(store)
      ensures Snapshot() == State(Fleet(map[], 0), map[], map[])
    {
      agents := new Agents();
      store := new MemoryStore();
    }

    method ProcessAgentGrouping(agent: Agent, msg: AgentToServer)
      requires agent.Valid()
      modifies agent`groupID, agent`groupName, agent`customConfig, agent`remoteConfig
      ensures agent.Valid() && Grouped(old(agent.Rec()), agent.instanceId, msg, store.configs, agent.Rec())
    {
      if msg.description.None? {
        return;
      }
      var groupID, groupName := ExtractGroupInfo(msg.description.value);
      var changed := false;
      if agent.groupID.None? && groupID != "" {
        changed := true;
      } else if agent.groupID.Some? && groupID != agent.groupID.value {
        changed := true;
      } else if agent.groupName.Some? && agent.groupName.value != groupName {
        changed := true;
      }
      agent.groupID, agent.groupName := Some(groupID), Some(groupName);
      var firstConnect := agent.status.None? || agent.customConfig == "";
      if changed || firstConnect {
        if agent.status.Some? && AcceptsRemoteConfig in agent.status.value.capabilities {
          var content := SetStoredConfig(agent);
        }
      }
    }

    method SetStoredConfig(agent: Agent) returns (ghost content: string)
      requires agent.Valid()
      modifies agent`customConfig, agent`remoteConfig
      ensures agent.Valid() && MayReceive(store.configs, agent.instanceId, agent.groupID, content)
      ensures agent.Rec() == if content == "" then old(agent.Rec())
                             else old(agent.Rec()).(customConfig := content, remoteConfig := Some(Render(content)))
    {
      var config := store.GetConfigForAgent(agent.instanceId, agent.groupID);
      content := config;
      if config != "" {
        agent.customConfig := config;
        var _ := agent.CalcRemoteConfig();
      }
    }

    /** `newGroup` is the id a group created here would get. */
    method PersistAgent(agent: Agent, msg: AgentToServer, newGroup: string)
      modifies agent`groupID, store`agents, store`groups
      ensures GroupResolved(agent.instanceId in old(store.agents), agent.groupName, newGroup,
                            old(store.groups), old(agent.groupID), store.groups, agent.groupID)
      ensures store.agents == Persisted(old(store.agents), agent.instanceId, msg, agent.groupID)
    {
      var id := agent.instanceId;
      if id !in store.agents {
        if agent.groupName.Some? && agent.groupName.value != "" {
          var existing := store.GetGroupByName(agent.groupName.value);
          if existing.None? {
            var created := store.CreateGroup(Group(newGroup, agent.groupName.value));
            if created {
              agent.groupID := Some(newGroup);
            }
          } else {
            agent.groupID := Some(existing.value.id);
          }
        }
        var _ := store.CreateAgent(id, StoredAgent(StatusOf(msg), agent.groupID, CapabilityNames(msg.capabilities)));
      } else {
        var _ := store.UpdateAgentStatus(id, StatusOf(msg));
      }
    }

    method HandleMessage(agent: Agent, msg: AgentToServer, newGroup: string)
      returns (response: Response, notify: seq<Channel>)
      requires agent.Valid()
      modifies agent, store`agents, store`groups
      ensures agent.Valid()
      ensures Handled(old(agent.Rec()), agent.instanceId, msg, store.configs,
                      agent.instanceId in old(store.agents), agent.Rec(), response)
      ensures store.agents == Persisted(old(store.agents), agent.instanceId, msg, agent.groupID)
      ensures exists reported ::
                GroupResolved(agent.instanceId in old(store.agents), agent.groupName, newGroup,
                              old(store.groups), reported, store.groups, agent.groupID)
    {
      ProcessAgentGrouping(agent, msg);
      ghost var g := agent.Rec();
      response, notify := agent.UpdateStatus(msg);
      PersistAgent(agent, msg, newGroup);
      assert agent.Rec() == AfterStatus(g, msg).(groupID := agent.groupID);
    }

    method HandleRegistered(id: Uuid, msg: AgentToServer, newGroup: string)
      returns (response: Response, notify: seq<Channel>)
      requires agents.Valid() && id in agents.agentsById
      modifies agents`fleet, agents.repr, store`agents, store`groups
      ensures agents.Valid() && id in agents.fleet.agents
      ensures var was, now := old(agents.fleet.agents[id]), agents.fleet.agents[id];
              && Handled(was.rec, id, msg, store.configs, id in old(store.agents), now.rec, response)
              && agents.fleet == old(agents.fleet).(agents := old(agents.fleet).agents[id := Entry(was.conn, now.rec)])
              && store.agents == Persisted(old(store.agents), id, msg, now.rec.groupID)
    {
      var agent := agents.agentsById[id];
      response, notify := HandleMessage(agent, msg, newGroup);
      agents.fleet := agents.fleet.(agents := agents.fleet.agents[id := Entry(agent.conn, agent.Rec())]);
    }

    method OnMessage(conn: nat, id: Uuid, msg: AgentToServer, newGroup: string)
      returns (response: Response, notify: seq<Channel>)
      requires agents.Valid()
      modifies agents, agents.repr, store`agents, store`groups
      ensures agents.Valid() && id in agents.fleet.agents && fresh(agents.repr - old(agents.repr))
      ensures Step(old(Snapshot()),
                   Message(conn, id, msg, store.configs, agents.fleet.agents[id].rec, response), Snapshot())
    {
      var _ := agents.FindOrCreateAgent(id, conn);
      ghost var found := agents.fleet.agents;
      response, notify := HandleRegistered(id, msg, newGroup);
      MessageStep(old(Snapshot()), conn, id, msg, store.configs, found, agents.fleet.agents[id].rec, response,
                  Snapshot());
    }

    method OnDisconnect(conn: nat)
      requires agents.Valid()
      modifies agents, store`agents
      ensures agents.Valid()
      ensures Step(old(Snapshot()), Closed(conn), Snapshot())
    {
      var gone := ConnectedTo(agents.connections, conn);
      var rest := gone;
      while rest != {}
        invariant rest <= gone && agents.Valid() && unchanged(agents)
        invariant store.agents.Keys == old(store.agents).Keys
        invariant forall id <- store.agents ::
                    store.agents[id] == if id in gone && id !in rest then old(store.agents)[id].(status := Offline)
                    else old(store.agents)[id]
        decreases |rest|
      {
        var id :| id in rest;
        var _ := store.UpdateAgentStatus(id, Offline);
        rest := rest - {id};
      }
      assert store.agents == MarkedOffline(old(store.agents), gone);
      agents.RemoveConnection(conn);
    }
  }
}
