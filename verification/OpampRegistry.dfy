/** The registry of connected agents (internal/opamp/agents.go) and the config sender that works on
    it (internal/opamp/config_sender.go). */
module OpampRegistry {
  import opened Basics
  import opened OpampAgent

  datatype Entry = Entry(conn: nat, rec: AgentRec)

  /** The registered agents as values, and the number of notification channels created so far. */
  datatype Fleet = Fleet(agents: map<Uuid, Entry>, nextChannel: Channel)

  datatype SendError = NotFound | NotSupported | Timeout

  ghost predicate ConsistentFleet(f: Fleet)
  {
    forall id <- f.agents :: Consistent(f.agents[id].rec)
  }

  /** Connected and able to take a remote config. */
  predicate Accepts(f: Fleet, id: Uuid)
  {
    id in f.agents && HasCapability(f.agents[id].rec, AcceptsRemoteConfig)
  }

  /** The effect of SendConfigToAgent, whether or not the agent answers in time. */
  function Sent(f: Fleet, id: Uuid, content: string): (r: Fleet)
    requires id in f.agents ==> Consistent(f.agents[id].rec)
    ensures r.agents.Keys == f.agents.Keys
  {
    if !Accepts(f, id) then f else
    Fleet(f.agents[id := f.agents[id].(rec := AfterSetConfig(f.agents[id].rec, content, Some(f.nextChannel)))],
          f.nextChannel + 1)
  }

  /** `answered` says that a status report arrives within the thirty seconds. */
  function SendOutcome(f: Fleet, id: Uuid, content: string, answered: bool): Option<SendError>
  {
    if id !in f.agents then Some(NotFound)
    else if !Accepts(f, id) then Some(NotSupported)
    else if answered || !ChangesConfig(f.agents[id].rec, content) then None
    else Some(Timeout)
  }

  class Agents {
    var agentsById: map<Uuid, Agent>
    var connections: map<nat, set<Uuid>>
    var nextChannel: Channel
    ghost var fleet: Fleet
    ghost var repr: set<Agent>

    ghost predicate Valid()
      reads this, repr
    {
      && agentsById.Keys == fleet.agents.Keys
      && nextChannel == fleet.nextChannel
      && forall id <- agentsById ::
           && agentsById[id] in repr
           && agentsById[id].instanceId == id
           && agentsById[id].Valid()
           && fleet.agents[id] == Entry(agentsById[id].conn, agentsById[id].Rec())
    }

    constructor ()
      ensures Valid() && fleet == Fleet(map[], 0) && connections == map[] && repr == {}
    {
      agentsById, connections, nextChannel, fleet, repr := map[], map[], 0, Fleet(map[], 0), {};
    }

    method AddAgent(id: Uuid, conn: nat) returns (agent: Agent)
      requires Valid() && id !in agentsById
      modifies this`agentsById, this`fleet, this`repr
      ensures Valid() && agentsById == old(agentsById)[id := agent]
      ensures fresh(repr - old(repr))
      ensures fleet == old(fleet).(agents := old(fleet).agents[id := Entry(conn, FRESH)])
    {
      agent := new Agent(id, conn);
      agentsById := agentsById[id := agent];
      fleet := fleet.(agents := fleet.agents[id := Entry(conn, FRESH)]);
      repr := repr + {agent};
    }

    method FindOrCreateAgent(id: Uuid, conn: nat) returns (agent: Agent)
      requires Valid()
      modifies this`agentsById, this`connections, this`fleet, this`repr
      ensures Valid() && id in agentsById && agent == agentsById[id]
      ensures fresh(repr - old(repr))
      ensures id in old(fleet).agents ==> fleet == old(fleet) && connections == old(connections)
      ensures id !in old(fleet).agents ==>
                && fleet == old(fleet).(agents := old(fleet).agents[id := Entry(conn, FRESH)])
                && connections == Connected(old(connections), conn, id)
    {
      if id in agentsById {
        return agentsById[id];
      }
      agent := AddAgent(id, conn);
      if conn !in connections {
        connections := connections[conn := {}];
      }
      connections := connections[conn := connections[conn] + {id}];
    }

    method RemoveConnection(conn: nat)
      requires Valid()
      modifies this`agentsById, this`connections, this`fleet
      ensures Valid()
      ensures connections == old(connections) - {conn}
      ensures fleet == old(fleet).(agents := old(fleet).agents - ConnectedTo(old(connections), conn))
    {
      var toRemove := ConnectedTo(connections, conn);
      connections := connections - {conn};
      agentsById := DeleteAll(agentsById, toRemove);
      fleet := fleet.(agents := fleet.agents - toRemove);
    }

    method SendConfigToAgent(id: Uuid, content: string, answered: bool) returns (error: Option<SendError>)
      requires Valid()
      modifies this`nextChannel, this`fleet, repr
      ensures Valid() && ConsistentFleet(old(fleet)) && fleet == Sent(old(fleet), id, content)
      ensures error == SendOutcome(old(fleet), id, content, answered)
    {
      if id !in agentsById {
        return Some(NotFound);
      }
      var agent := agentsById[id];
      if agent.status.None? || AcceptsRemoteConfig !in agent.status.value.capabilities {
        return Some(NotSupported);
      }
      var channel := nextChannel;
      nextChannel := nextChannel + 1;
      fleet := Sent(fleet, id, content);
      var _, signalled := agent.SetCustomConfig(content, Some(channel));
      error := if signalled || answered then None else Some(Timeout);
    }

    /** Sends to every member of the group, in any order; `answering` are the agents that report in
        time. Errors are named by the agent they belong to. */
    method SendConfigToAgentsInGroup(group: string, content: string, answering: set<Uuid>)
      returns (updated: seq<Uuid>, errors: seq<Uuid>)
      requires Valid()
      modifies this`nextChannel, this`fleet, repr
      ensures Valid()
      ensures exists members: seq<Uuid> ::
                && Distinct(members) && (forall id :: id in members <==> id in Members(old(fleet), group))
                && FannedOut(old(fleet), fleet, members, content, answering, updated, errors)
    {
      var members := Listing(set id | id in agentsById && agentsById[id].groupID == Some(group));
      assert forall id :: id in members <==> id in Members(fleet, group);
      updated, errors := SendConfigToEach(members, content, answering);
      FanOut(old(fleet), members, content, answering);
    }

    method SendConfigToEach(members: seq<Uuid>, content: string, answering: set<Uuid>)
      returns (updated: seq<Uuid>, errors: seq<Uuid>)
      requires Valid() && Distinct(members)
      modifies this`nextChannel, this`fleet, repr
      ensures Valid()
      ensures fleet == SentAll(old(fleet), members, content)
      ensures updated == Listed(old(fleet), members, content, answering, true)
      ensures errors == Listed(old(fleet), members, content, answering, false)
    {
      updated, errors := [], [];
      for i := 0 to |members|
        invariant Valid()
        invariant fleet == SentAll(old(fleet), members[..i], content)
        invariant updated == Listed(old(fleet), members[..i], content, answering, true)
        invariant errors == Listed(old(fleet), members[..i], content, answering, false)
      {
        var id := members[i];
        assert members[..i + 1][..i] == members[..i];
        var error := SendConfigToAgent(id, content, id in answering);
        if error.Some? {
          errors := errors + [id];
        } else {
          updated := updated + [id];
        }
      }
      assert members[..|members|] == members;
    }
  }

  method DeleteAll<V>(m: map<Uuid, V>, ids: set<Uuid>) returns (r: map<Uuid, V>)
    ensures r == m - ids
  {
    r := m;
    var rest := ids;
    while rest != {}
      invariant rest <= ids && r == m - (ids - rest)
      decreases |rest|
    {
      var id :| id in rest;
      r, rest := r - {id}, rest - {id};
    }
    assert ids - rest == ids;
  }

  /** The elements of a set in some order, as when ranging over a map. */
  method Listing(s: set<Uuid>) returns (r: seq<Uuid>)
    ensures forall x :: x in r <==> x in s
    ensures Distinct(r)
  {
    r := [];
    var rest := s;
    while rest != {}
      invariant rest <= s
      invariant forall x :: x in r <==> x in s && x !in rest
      invariant Distinct(r)
      decreases |rest|
    {
      var x :| x in rest;
      r, rest := r + [x], rest - {x};
    }
  }

  function ConnectedTo(connections: map<nat, set<Uuid>>, conn: nat): set<Uuid>
  {
    if conn in connections then connections[conn] else {}
  }

  /** The agents of a connection after one more is associated with it. */
  function Connected(connections: map<nat, set<Uuid>>, conn: nat, id: Uuid): map<nat, set<Uuid>>
  {
    connections[conn := ConnectedTo(connections, conn) + {id}]
  }

  /** Sends to the agents of a list, one after the other. */
  ghost function SentAll(f: Fleet, ids: seq<Uuid>, content: string): (r: Fleet)
    requires ConsistentFleet(f)
    ensures ConsistentFleet(r)
  {
    if ids == [] then f else Sent(SentAll(f, ids[..|ids| - 1], content), ids[|ids| - 1], content)
  }

  /** The agents of a list whose send succeeds (or fails, if `ok` is false) when its turn comes. */
  ghost function Listed(f: Fleet, ids: seq<Uuid>, content: string, answering: set<Uuid>, ok: bool): seq<Uuid>
    requires ConsistentFleet(f)
  {
    if ids == [] then [] else
    var done, id := ids[..|ids| - 1], ids[|ids| - 1];
    Listed(f, done, content, answering, ok) +
    if SendOutcome(SentAll(f, done, content), id, content, id in answering).None? == ok then [id] else []
  }

  ghost function Members(f: Fleet, group: string): set<Uuid>
  {
    set id | id in f.agents && f.agents[id].rec.groupID == Some(group)
  }

  /** Every accepting agent of the list has the content as its desired config, with the rendering
      and hash that go with it; every other agent is exactly as it was. */
  ghost predicate Delivered(before: Fleet, after: Fleet, ids: seq<Uuid>, content: string)
  {
    && after.agents.Keys == before.agents.Keys
    && forall id <- before.agents ::
         if id in ids && Accepts(before, id) then
           && after.agents[id].rec.customConfig == content
           && after.agents[id].rec.remoteConfig == Some(Render(content))
           && after.agents[id].rec.status == before.agents[id].rec.status
           && after.agents[id].conn == before.agents[id].conn
         else after.agents[id] == before.agents[id]
  }

  lemma DeliveredNext(f: Fleet, g: Fleet, done: seq<Uuid>, id: Uuid, content: string)
    requires Delivered(f, g, done, content) && id !in done && ConsistentFleet(g)
    ensures Delivered(f, Sent(g, id, content), done + [id], content)
    ensures forall b :: SendOutcome(g, id, content, b) == SendOutcome(f, id, content, b)
  {
  }

  /** The agents of the list have been served: the two result lists split it, an agent is listed as
      updated exactly when its send succeeds, and the content is delivered. */
  ghost predicate FannedOut(f: Fleet, g: Fleet, ids: seq<Uuid>, content: string, answering: set<Uuid>,
                            updated: seq<Uuid>, errors: seq<Uuid>)
  {
    && multiset(updated) + multiset(errors) == multiset(ids)
    && (forall id <- updated :: SendOutcome(f, id, content, id in answering).None?)
    && (forall id <- errors :: SendOutcome(f, id, content, id in answering).Some?)
    && Delivered(f, g, ids, content)
  }

  ghost predicate Distinct(ids: seq<Uuid>)
  {
    forall i, j :: 0 <= i < j < |ids| ==> ids[i] != ids[j]
  }

  lemma {:induction false} FanOut(f: Fleet, ids: seq<Uuid>, content: string, answering: set<Uuid>)
    requires ConsistentFleet(f) && Distinct(ids)
    ensures FannedOut(f, SentAll(f, ids, content), ids, content, answering,
                      Listed(f, ids, content, answering, true), Listed(f, ids, content, answering, false))
  {
    if ids != [] {
      var done, id := ids[..|ids| - 1], ids[|ids| - 1];
      assert ids == done + [id];
      FanOut(f, done, content, answering);
      DeliveredNext(f, SentAll(f, done, content), done, id, content);
    }
  }

  /** What a send answers: an error exactly for an agent that is not connected, that is not known to
      accept remote config, or that does not answer in time although its record did not have that
      config. */
  lemma SendAnswersExactly(f: Fleet, id: Uuid, content: string, answered: bool)
    requires ConsistentFleet(f)
    ensures var error := SendOutcome(f, id, content, answered);
            var capable := id in f.agents && f.agents[id].rec.status.Some? &&
                           AcceptsRemoteConfig in f.agents[id].rec.status.value.capabilities;
            && (error == Some(NotFound) <==> id !in f.agents)
            && (error == Some(NotSupported) <==> id in f.agents && !capable)
            && (error == Some(Timeout) <==>
                capable && !answered && f.agents[id].rec.remoteConfig != Some(Render(content)))
            && (error.None? <==> capable && (answered || f.agents[id].rec.remoteConfig == Some(Render(content))))
  {
    if id in f.agents {
      RenderIsInjective(f.agents[id].rec.customConfig, content);
    }
  }

  /** A group send, in these terms: on one snapshot of the registry the two lists split the members, an
      agent is updated exactly if it is capable and answers or has the config already, every capable
      member ends with the content, its rendering and hash, and nobody else changes. */
  lemma GroupSendExactly(f: Fleet, g: Fleet, ids: seq<Uuid>, content: string, answering: set<Uuid>,
                         updated: seq<Uuid>, errors: seq<Uuid>, id: Uuid)
    requires ConsistentFleet(f) && FannedOut(f, g, ids, content, answering, updated, errors) && Distinct(ids)
    ensures var capable := id in f.agents && f.agents[id].rec.status.Some? &&
                           AcceptsRemoteConfig in f.agents[id].rec.status.value.capabilities;
            && (id in updated <==> id in ids && capable &&
                                   (id in answering || f.agents[id].rec.remoteConfig == Some(Render(content))))
            && (id in errors <==> id in ids && id !in updated)
            && |updated| + |errors| == |ids|
            && (id in f.agents <==> id in g.agents)
            && (id in f.agents && id in ids && capable ==>
                  g.agents[id].rec.customConfig == content && g.agents[id].rec.remoteConfig == Some(Render(content)))
            && (id in f.agents && !(id in ids && capable) ==> g.agents[id] == f.agents[id])
  {
    SendAnswersExactly(f, id, content, id in answering);
    assert id in ids <==> id in multiset(updated) + multiset(errors);
    assert |multiset(updated) + multiset(errors)| == |multiset(ids)|;
  }
}
