/** One agent and its server record exchanging compressed status messages over a lossy link
    (the sections "Agent Status Compression" and `sequence_num` of the OpAMP specification).
    The agent side is a small automaton: it holds a health and a remote-config status, reports only
    what changed since its previous message, and acknowledges the configs it is given. The server
    side is the record of `OpampAgent`. */
module OpampSession {
  import opened Basics
  import opened OpampAgent

  datatype View = View(health: Option<Health>, configStatus: Option<ConfigStatus>)

  /** `lost` counts the messages lost since the server last received one, and `pending` says that a
      full-state request has been sent and not yet answered by a full report. */
  datatype Session = Session(
    held: View,
    lastSent: Option<View>,
    sent: nat,
    server: AgentRec,
    lost: nat,
    pending: bool)

  datatype Event =
    | Change(view: View)                         // the agent's own state changes
    | Send(msg: AgentToServer, received: bool)   // a message, which may be lost
    | Configure(content: string)                 // the server sets the desired config
    | Forget                                     // the connection closes, the record is dropped

  predicate Start(s: Session)
  {
    s.server == FRESH && s.lastSent.None? && s.lost == 0 && !s.pending
  }

  /** A field is reported as it is, or left out if it is as it was in the previous message. */
  predicate Delta<T(==)>(reported: Option<T>, held: Option<T>, same: bool)
  {
    reported == held || (reported.None? && same)
  }

  predicate Legal(s: Session, e: Event)
  {
    match e
    case Change(v) =>
      && (s.held.health.Some? ==> v.health.Some?)
      && (s.held.configStatus.Some? ==> v.configStatus.Some?)
    case Send(msg, _) =>
      && msg.sequenceNum == s.sent % U64
      && (s.server.status.None? ==> {ReportsHealth, ReportsRemoteConfig} <= msg.capabilities)
      && Delta(msg.health, s.held.health, s.lastSent.None? || s.lastSent.value.health == s.held.health)
      && Delta(msg.configStatus, s.held.configStatus,
               s.lastSent.None? || s.lastSent.value.configStatus == s.held.configStatus)
    case Configure(_) => true
    case Forget => true
  }

  /** Sequence numbers wrap, so a gap of a positive multiple of 2^64 messages looks like none. */
  predicate Detectable(s: Session, e: Event)
  {
    e.Send? && e.received && s.server.status.Some? && s.lost > 0 ==> s.lost % U64 != 0
  }

  function Apply(s: Session, e: Event): (t: Session)
    requires Consistent(s.server)
    ensures Consistent(t.server)
  {
    match e
    case Change(v) => s.(held := v)
    case Send(msg, received) =>
      var t := s.(lastSent := Some(s.held), sent := s.sent + 1);
      if !received then t.(lost := s.lost + 1)
      else t.(server := AfterStatus(s.server, msg), lost := 0,
           pending := Respond(s.server, msg).reportFullState ||
                      (s.pending && Compressed(StatusAfter(s.server, msg), msg)))
    case Configure(content) => s.(server := AfterSetConfig(s.server, content, None))
    case Forget => s.(server := FRESH, lost := 0, pending := false)
  }

  function Run(s: Session, es: seq<Event>): (t: Session)
    requires Consistent(s.server)
    ensures Consistent(t.server)
    decreases |es|
  {
    if es == [] then s else Run(Apply(s, es[0]), es[1..])
  }

  predicate LegalRun(s: Session, es: seq<Event>)
    requires Consistent(s.server)
    decreases |es|
  {
    es == [] || (Legal(s, es[0]) && LegalRun(Apply(s, es[0]), es[1..]))
  }

  predicate DetectableRun(s: Session, es: seq<Event>)
    requires Consistent(s.server)
    decreases |es|
  {
    es == [] || (Detectable(s, es[0]) && DetectableRun(Apply(s, es[0]), es[1..]))
  }

  function Responses(s: Session, es: seq<Event>): seq<Response>
    requires Consistent(s.server)
    decreases |es|
  {
    if es == [] then []
    else (if es[0].Send? && es[0].received then [Respond(s.server, es[0].msg)] else []) +
         Responses(Apply(s, es[0]), es[1..])
  }

  function Stored(a: AgentRec): View
    requires a.status.Some?
  {
    View(a.status.value.health, a.status.value.configStatus)
  }

  // ---- status compression is safe ----------------------------------------------------------

  predicate Tracks(s: Session)
  {
    && Consistent(s.server)
    && (s.lastSent.Some? && s.lastSent.value.health.Some? ==> s.held.health.Some?)
    && (s.lastSent.Some? && s.lastSent.value.configStatus.Some? ==> s.held.configStatus.Some?)
    && (s.server.status.Some? ==>
          && s.lastSent.Some?
          && {ReportsHealth, ReportsRemoteConfig} <= s.server.status.value.capabilities
          && s.lost < s.sent
          && s.server.status.value.sequenceNum == (s.sent - 1 - s.lost) % U64
          && (s.lost == 0 && !s.pending ==> Stored(s.server) == s.lastSent.value))
  }

  lemma GapModulo(sent: nat, lost: nat)
    requires lost < sent
    ensures ((sent - 1 - lost) % U64 + 1) % U64 == sent % U64 <==> lost % U64 == 0
  {
    var n := sent - 1 - lost;
    assert sent == (n + 1) + lost;
    assert (n % U64 + 1) % U64 == (n + 1) % U64;
  }

  /** The server notices a gap exactly when the number of lost messages is not a multiple of 2^64. */
  lemma GapIsSeen(s: Session, msg: AgentToServer)
    requires Tracks(s) && s.server.status.Some? && Legal(s, Send(msg, true))
    ensures Gap(s.server, msg) <==> s.lost % U64 != 0
  {
    GapModulo(s.sent, s.lost);
  }

  lemma StepTracks(s: Session, e: Event)
    requires Tracks(s) && Legal(s, e) && Detectable(s, e)
    ensures Tracks(Apply(s, e))
  {
    if e.Send? && s.server.status.Some? {
      GapModulo(s.sent, s.lost);
      GapModulo(s.sent + 1, 0);
    }
  }

  lemma {:induction false} RunTracks(s: Session, es: seq<Event>)
    requires Tracks(s) && LegalRun(s, es) && DetectableRun(s, es)
    ensures Tracks(Run(s, es))
    decreases |es|
  {
    if es != [] {
      StepTracks(s, es[0]);
      RunTracks(Apply(s, es[0]), es[1..]);
    }
  }

  lemma {:induction false} RunConcat(s: Session, es: seq<Event>, fs: seq<Event>)
    requires Consistent(s.server)
    ensures Run(s, es + fs) == Run(Run(s, es), fs)
    ensures LegalRun(s, es + fs) <==> LegalRun(s, es) && LegalRun(Run(s, es), fs)
    ensures DetectableRun(s, es + fs) <==> DetectableRun(s, es) && DetectableRun(Run(s, es), fs)
    decreases |es|
  {
    if es == [] {
      assert es + fs == fs;
    } else {
      RunConcat(Apply(s, es[0]), es[1..], fs);
      assert (es + fs)[1..] == es[1..] + fs;
    }
  }

  lemma RunOne(s: Session, e: Event)
    requires Consistent(s.server)
    ensures Run(s, [e]) == Apply(s, e)
    ensures LegalRun(s, [e]) <==> Legal(s, e)
    ensures DetectableRun(s, [e]) <==> Detectable(s, e)
  {
    assert [e][1..] == [];
  }

  lemma RunExtends(s: Session, es: seq<Event>, e: Event)
    requires Consistent(s.server)
    requires LegalRun(s, es) && DetectableRun(s, es) && Legal(Run(s, es), e) && Detectable(Run(s, es), e)
    ensures LegalRun(s, es + [e]) && DetectableRun(s, es + [e]) && Run(s, es + [e]) == Apply(Run(s, es), e)
  {
    RunConcat(s, es, [e]);
    RunOne(Run(s, es), e);
  }

  /** Over every run with arbitrary losses and reconnections, after each received message the stored
      health and remote-config status are what the agent held when sending it, unless a full-state
      request is still unanswered. */
  lemma StoredStatusIsCurrent(s0: Session, es: seq<Event>, msg: AgentToServer)
    requires Start(s0) && LegalRun(s0, es + [Send(msg, true)]) && DetectableRun(s0, es + [Send(msg, true)])
    ensures var before := Run(s0, es);
            var after := Run(s0, es + [Send(msg, true)]);
            after.server.status.Some? && (after.pending || Stored(after.server) == before.held)
  {
    var e := Send(msg, true);
    RunConcat(s0, es, [e]);
    RunOne(Run(s0, es), e);
    RunTracks(s0, es);
    StepTracks(Run(s0, es), e);
  }

  /** A full report repairs the record whatever was lost before it. */
  lemma FullReportRepairs(s: Session, msg: AgentToServer)
    requires Tracks(s) && Legal(s, Send(msg, true)) && !Compressed(StatusAfter(s.server, msg), msg)
    ensures var t := Apply(s, Send(msg, true));
            !t.pending && Stored(t.server) == s.held
  {
  }

  /** The request for a full report is made once. If that response is lost, no response of a
      loss-free continuation asks again, and a field the agent keeps omitting stays as it was. */
  lemma {:induction false} LostRequestIsNotRepeated(s: Session, es: seq<Event>)
    requires Tracks(s) && s.server.status.Some? && s.lost == 0 && LegalRun(s, es)
    requires forall e <- es :: !e.Forget? && (e.Send? ==> e.received)
    ensures forall r <- Responses(s, es) :: !r.reportFullState
    ensures (forall e <- es :: e.Send? ==> e.msg.health.None?) ==>
              Run(s, es).server.status.Some? && Stored(Run(s, es).server).health == Stored(s.server).health
    decreases |es|
  {
    if es != [] {
      StepTracks(s, es[0]);
      if es[0].Send? {
        GapModulo(s.sent, 0);
      }
      LostRequestIsNotRepeated(Apply(s, es[0]), es[1..]);
    }
  }

  // ---- the wrap-around of sequence numbers is a real exception -----------------------------

  function FullMessage(s: Session): AgentToServer
  {
    AgentToServer(s.sent % U64, None, {ReportsHealth, ReportsRemoteConfig}, s.held.health, None,
                  s.held.configStatus, None)
  }

  function LoseMany(s: Session, n: nat): seq<Event>
    requires Consistent(s.server)
    decreases n
  {
    if n == 0 then []
    else var e := Send(FullMessage(s), false); [e] + LoseMany(Apply(s, e), n - 1)
  }

  lemma {:induction false} LoseManyRuns(s: Session, n: nat)
    requires Consistent(s.server)
    ensures LegalRun(s, LoseMany(s, n))
    ensures Run(s, LoseMany(s, n)) ==
            if n == 0 then s else s.(lastSent := Some(s.held), sent := s.sent + n, lost := s.lost + n)
    decreases n
  {
    if n > 0 {
      var e := Send(FullMessage(s), false);
      LoseManyRuns(Apply(s, e), n - 1);
      assert LoseMany(s, n)[1..] == LoseMany(Apply(s, e), n - 1);
    }
  }

  /** The server's record is up to date with the last message, but the agent's health has changed. */
  predicate Outdated(s: Session)
  {
    && Tracks(s) && s.server.status.Some? && !s.pending && s.held.health.Some? && s.held.configStatus.Some?
    && Stored(s.server).health.Some? && Stored(s.server).health != s.held.health && Stored(s.server).configStatus.Some?
  }

  lemma ReportThenChange(s0: Session, h: Health) returns (es: seq<Event>)
    requires Start(s0) && s0.held.health.Some? && s0.held.configStatus.Some? && s0.held.health != Some(h)
    ensures LegalRun(s0, es) && Outdated(Run(s0, es)) && Run(s0, es).lost == 0
  {
    var first, change := Send(FullMessage(s0), true), Change(s0.held.(health := Some(h)));
    var s1 := Apply(s0, first);
    StepTracks(s0, first);
    StepTracks(s1, change);
    RunOne(s0, first);
    RunOne(s1, change);
    RunConcat(s0, [first], [change]);
    es := [first] + [change];
  }

  lemma LossesAreHidden(s: Session, n: nat) returns (es: seq<Event>, msg: AgentToServer)
    requires n > 0 && n % U64 == 0 && Outdated(s) && s.lost == 0
    ensures LegalRun(s, es) && Run(s, es).lost == n && Legal(Run(s, es), Send(msg, true))
    ensures var t := Apply(Run(s, es), Send(msg, true));
            t.server.status.Some? && !t.pending && Stored(t.server).health != t.held.health
  {
    es := LoseMany(s, n);
    LoseManyRuns(s, n);
    var t := Run(s, es);
    msg := FullMessage(t).(health := None);
    GapModulo(t.sent, t.lost);
  }

  /** After any positive multiple of 2^64 lost messages, the first of which carried a change, a
      compressed message is taken for the next one: the record is wrong and nothing is asked for. */
  lemma WrapAroundHidesLosses(s0: Session, h: Health, n: nat)
    returns (es: seq<Event>, msg: AgentToServer)
    requires n > 0 && n % U64 == 0
    requires Start(s0) && s0.held.health.Some? && s0.held.configStatus.Some? && s0.held.health != Some(h)
    ensures LegalRun(s0, es + [Send(msg, true)]) && Run(s0, es).lost == n
    ensures var t := Run(s0, es + [Send(msg, true)]);
            t.server.status.Some? && !t.pending && Stored(t.server).health != t.held.health
  {
    var before := ReportThenChange(s0, h);
    var losses;
    losses, msg := LossesAreHidden(Run(s0, before), n);
    es := before + losses;
    RunConcat(s0, before, losses);
    RunConcat(s0, es, [Send(msg, true)]);
    RunOne(Run(s0, es), Send(msg, true));
  }
}
