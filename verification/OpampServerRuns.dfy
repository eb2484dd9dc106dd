/** The sessions of `OpampSession` as they happen at the server: one agent's own activity (its state
    changes, its lost messages) interleaved with the callbacks of `OpampServer` for all agents. */
module OpampServerRuns {
  import opened Basics
  import opened OpampAgent
  import opened OpampRegistry
  import opened ConfigStore
  import opened OpampSession
  import opened OpampConvergence
  import OpampServer

  /** A record without what a session does not look at: the group and the watchers. */
  function Bare(a: AgentRec): AgentRec
  {
    a.(groupID := None, groupName := None, watchers := [])
  }

  function RecOf(f: Fleet, id: Uuid): AgentRec
  {
    if id in f.agents then f.agents[id].rec else FRESH
  }

  /** What the session sees before the message of a callback: group resolution may set a config. */
  ghost predicate MayConfigure(a: AgentRec, id: Uuid, configs: Configs, es: seq<Event>)
  {
    || es == []
    || (a.status.Some? && exists content, group ::
          es == [Configure(content)] && content != "" && MayReceive(configs, id, group, content))
  }

  lemma GroupingConfigures(a: AgentRec, id: Uuid, msg: AgentToServer, configs: Configs, g: AgentRec)
    returns (es: seq<Event>)
    requires Consistent(a) && OpampServer.Grouped(a, id, msg, configs, g)
    ensures Consistent(g) && MayConfigure(a, id, configs, es)
    ensures es == [] ==> Bare(g) == Bare(a)
    ensures es != [] ==> Bare(g) == AfterSetConfig(Bare(a), es[0].content, None)
    ensures g.customConfig == a.customConfig ==> Bare(g) == Bare(a)
  {
    es := [];
    if g.customConfig != a.customConfig {
      es := [Configure(g.customConfig)];
    }
  }

  lemma BareSessions(g: AgentRec, msg: AgentToServer)
    requires Consistent(g)
    ensures Consistent(Bare(g)) && Respond(Bare(g), msg) == Respond(g, msg)
    ensures forall group :: Bare(AfterStatus(g, msg).(groupID := group)) == AfterStatus(Bare(g), msg)
  {
  }

  lemma ConfigureFirst(s: Session, es: seq<Event>, g: AgentRec)
    requires Consistent(s.server) && Consistent(g)
    requires if es == [] then Bare(g) == s.server
             else |es| == 1 && es[0].Configure? && Bare(g) == AfterSetConfig(s.server, es[0].content, None)
    requires s.server.watchers == []
    ensures LegalRun(s, es) && DetectableRun(s, es) && Run(s, es) == s.(server := Bare(g))
  {
    if es != [] {
      RunOne(s, es[0]);
      assert es == [es[0]];
    }
  }

  /** The callback for a message does to the agent's record what a session does: it may set a config,
      and then receives the message; and the response is the same. */
  lemma MessageIsSessionRun(s: Session, id: Uuid, a: AgentRec, msg: AgentToServer, configs: Configs,
                            known: bool, b: AgentRec, response: Response) returns (es: seq<Event>)
    requires Consistent(a) && s.server == Bare(a) && OpampServer.Handled(a, id, msg, configs, known, b, response)
    ensures MayConfigure(a, id, configs, es) && LegalRun(s, es) && DetectableRun(s, es)
    ensures Run(s, es) == s.(server := Run(s, es).server) && Run(s, es).server.status == s.server.status
    ensures Apply(Run(s, es), Send(msg, true)).server == Bare(b) && Respond(Run(s, es).server, msg) == response
    ensures b.customConfig == a.customConfig ==> Run(s, es) == s
  {
    var g :| OpampServer.Grouped(a, id, msg, configs, g) && Consistent(g) && response == Respond(g, msg)
             && b == AfterStatus(g, msg).(groupID := if known then g.groupID else b.groupID);
    es := GroupingConfigures(a, id, msg, configs, g);
    ConfigureFirst(s, es, g);
    BareSessions(g, msg);
  }

  // ---- joint runs --------------------------------------------------------------------------------

  datatype Joint =
    | AtAgent(event: Event)                  // the agent changes, or loses a message
    | AtServer(callback: OpampServer.Event)  // a callback, or a push to any agent

  /** The session after the server has received the agent's message. */
  function Received(s: Session, msg: AgentToServer, response: Response, rec: AgentRec): Session
  {
    s.(lastSent := Some(s.held), sent := s.sent + 1, server := Bare(rec), lost := 0,
    pending := response.reportFullState || (s.pending && Compressed(StatusAfter(s.server, msg), msg)))
  }

  ghost predicate JointStep(id: Uuid, st: OpampServer.State, s: Session, j: Joint, st': OpampServer.State, s': Session)
    requires Consistent(s.server)
  {
    match j
    case AtAgent(e) =>
      && (e.Change? || (e.Send? && !e.received))
      && Legal(s, e) && st' == st && s' == Apply(s, e)
    case AtServer(e) =>
      && OpampServer.Step(st, e, st')
      && if e.Message? && e.id == id then
           && Legal(s, Send(e.msg, true)) && Detectable(s, Send(e.msg, true))
           && s' == Received(s, e.msg, e.response, RecOf(st'.fleet, id))
         else if id in st.fleet.agents && id !in st'.fleet.agents then
           s' == s.(server := FRESH, lost := 0, pending := false)
         else s' == s.(server := Bare(RecOf(st'.fleet, id)))
  }

  /** The session's server side is the server's record of the agent. */
  ghost predicate Mirrors(id: Uuid, st: OpampServer.State, s: Session)
  {
    ConsistentFleet(st.fleet) && s.server == Bare(RecOf(st.fleet, id)) && Tracks(s)
  }

  lemma OwnMessage(id: Uuid, st: OpampServer.State, s: Session, e: OpampServer.Event,
                   st': OpampServer.State) returns (es: seq<Event>)
    requires Mirrors(id, st, s) && e.Message? && e.id == id && OpampServer.Step(st, e, st')
    requires Legal(s, Send(e.msg, true)) && Detectable(s, Send(e.msg, true))
    ensures LegalRun(s, es) && DetectableRun(s, es)
    ensures Run(s, es) == Received(s, e.msg, e.response, RecOf(st'.fleet, id))
  {
    var a := RecOf(st.fleet, id);
    es := MessageIsSessionRun(s, id, a, e.msg, e.configs, id in st.stored, e.after, e.response);
    var t := Run(s, es);
    assert StatusAfter(t.server, e.msg) == StatusAfter(s.server, e.msg);
    RunExtends(s, es, Send(e.msg, true));
    es := es + [Send(e.msg, true)];
  }

  lemma OtherEvent(id: Uuid, st: OpampServer.State, s: Session, j: Joint, st': OpampServer.State, s': Session)
    returns (es: seq<Event>)
    requires Mirrors(id, st, s) && JointStep(id, st, s, j, st', s') && j.AtServer?
    requires !(j.callback.Message? && j.callback.id == id)
    ensures LegalRun(s, es) && DetectableRun(s, es) && Run(s, es) == s'
    ensures s'.server == Bare(RecOf(st'.fleet, id))
  {
    es := [];
    if id in st.fleet.agents && id !in st'.fleet.agents {
      es := [Forget];
      RunOne(s, Forget);
    } else if j.callback.Push? && j.callback.id == id && Accepts(st.fleet, id) {
      es := [Configure(j.callback.content)];
      RunOne(s, es[0]);
    } else {
      assert RecOf(st'.fleet, id) == RecOf(st.fleet, id);
    }
  }

  /** Every joint step is a legal run of the session, and the session goes on mirroring the server. */
  lemma JointStepIsSessionRun(id: Uuid, st: OpampServer.State, s: Session, j: Joint,
                              st': OpampServer.State, s': Session) returns (es: seq<Event>)
    requires Mirrors(id, st, s) && OpampServer.InStep(st) && JointStep(id, st, s, j, st', s')
    ensures LegalRun(s, es) && DetectableRun(s, es) && Run(s, es) == s'
    ensures Mirrors(id, st', s') && OpampServer.InStep(st')
  {
    if j.AtAgent? {
      es := [j.event];
      RunOne(s, j.event);
    } else {
      OpampServer.StepStaysInStep(st, j.callback, st');
      if j.callback.Message? && j.callback.id == id {
        es := OwnMessage(id, st, s, j.callback, st');
      } else {
        es := OtherEvent(id, st, s, j, st', s');
      }
    }
    RunTracks(s, es);
  }

  /** A run from a fresh server and an agent it has not heard of. */
  ghost predicate JointRun(id: Uuid, sts: seq<OpampServer.State>, ss: seq<Session>, js: seq<Joint>)
  {
    && |sts| == |ss| == |js| + 1
    && sts[0] == OpampServer.State(Fleet(map[], 0), map[], map[]) && OpampSession.Start(ss[0])
    && (forall i :: 0 <= i < |ss| ==> Consistent(ss[i].server))
    && (forall i :: 0 <= i < |js| ==> JointStep(id, sts[i], ss[i], js[i], sts[i + 1], ss[i + 1]))
  }

  lemma {:induction false} JointRunIsSessionRun(id: Uuid, sts: seq<OpampServer.State>, ss: seq<Session>, js: seq<Joint>,
                                                n: nat)
    returns (es: seq<Event>)
    requires JointRun(id, sts, ss, js) && n < |ss|
    ensures LegalRun(ss[0], es) && DetectableRun(ss[0], es) && Run(ss[0], es) == ss[n]
    ensures Mirrors(id, sts[n], ss[n]) && OpampServer.InStep(sts[n])
  {
    es := [];
    if n > 0 {
      es := JointRunIsSessionRun(id, sts, ss, js, n - 1);
      var more := JointStepIsSessionRun(id, sts[n - 1], ss[n - 1], js[n - 1], sts[n], ss[n]);
      RunConcat(ss[0], es, more);
      es := es + more;
    }
  }

  /** In every run of the server, among whatever other agents do, after each message of the agent the
      server's record holds the health and the config status the agent held, unless a full-state
      request is open. */
  lemma ServerStatusIsCurrent(id: Uuid, sts: seq<OpampServer.State>, ss: seq<Session>, js: seq<Joint>, n: nat)
    requires JointRun(id, sts, ss, js) && n < |js|
    requires js[n].AtServer? && js[n].callback.Message? && js[n].callback.id == id
    ensures id in sts[n + 1].fleet.agents && sts[n + 1].fleet.agents[id].rec.status.Some?
    ensures ss[n + 1].pending || Stored(sts[n + 1].fleet.agents[id].rec) == ss[n].held
  {
    var es := JointRunIsSessionRun(id, sts, ss, js, n + 1);
    assert JointStep(id, sts[n], ss[n], js[n], sts[n + 1], ss[n + 1]);
    var rec := RecOf(sts[n + 1].fleet, id);
    assert ss[n + 1].server == Bare(rec) && Bare(rec).status == rec.status;
  }

  // ---- convergence at the server -----------------------------------------------------------------

  /** One exchange handled by the server, while the agent's desired config is unchanged. */
  ghost predicate Exchanged(id: Uuid, a: AgentRec, x: Exchange, b: AgentRec, response: Response)
  {
    && b.customConfig == a.customConfig
    && exists configs, known :: OpampServer.Handled(a, id, x.msg, configs, known, b, response)
  }

  lemma ExchangeAtServer(id: Uuid, s: Session, a: AgentRec, x: Exchange, b: AgentRec, response: Response)
    requires Consistent(a) && s.server == Bare(a) && Exchanged(id, a, x, b, response)
    ensures Consistent(b) && After(s, x).server == Bare(b) && response == Respond(s.server, x.msg)
  {
    var configs, known :| OpampServer.Handled(a, id, x.msg, configs, known, b, response);
    var es := MessageIsSessionRun(s.(held := x.view), id, a, x.msg, configs, known, b, response);
  }

  /** Two exchanges at the server that leave the desired config alone bring the agent to it exactly
      when the agent has it, the record differs from it at the start, or one of the messages reports
      the config status; and always if an open full-state request has reached the agent. */
  lemma TwoExchangesAtServer(id: Uuid, s: Session, owed: bool, x: Exchange, y: Exchange,
                             a: AgentRec, b: AgentRec, c: AgentRec, r1: Response, r2: Response)
    requires Consistent(a) && s.server == Bare(a) && Tracks(s)
    requires Fair(s, owed, x) && Fair(After(s, x), r1.reportFullState, y)
    requires Exchanged(id, a, x, b, r1) && Exchanged(id, b, y, c, r2)
    ensures After(After(s, x), y).server == Bare(c)
    ensures var desired, t := Render(a.customConfig).hash, After(After(s, x), y);
            && c.customConfig == a.customConfig
            && (Acknowledges(t.held, desired) <==>
                || Acknowledges(s.held, desired)
                || a.remoteConfig.None?
                || (a.status.Some? && a.status.value.configStatus.Some? &&
                    a.status.value.configStatus.value.lastHash != desired)
                || x.msg.configStatus.Some? || y.msg.configStatus.Some?)
            && ((s.pending ==> owed) ==> InSync(t) && Acknowledges(t.held, desired))
  {
    ExchangeAtServer(id, s, a, x, b, r1);
    ExchangeAtServer(id, After(s, x), b, y, c, r2);
    SyncedExchange(s, owed, x);
    SyncedExchange(After(s, x), r1.reportFullState, y);
    OneExchange(s, owed, x);
    OneExchange(After(s, x), r1.reportFullState, y);
  }
}
