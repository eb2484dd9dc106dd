/** Delivery of the desired config by message/response exchanges. The desired config does not
    change during the exchanges; pushes and messages sent before them may have been lost. */
module OpampConvergence {
  import opened Basics
  import opened OpampAgent
  import opened OpampSession

  const APPLIED: nat := 1

  /** The agent's view when it sends (its health and the details of its config status may have
      changed, the acknowledged hash has not) and the message it sends. */
  datatype Exchange = Exchange(view: View, msg: AgentToServer)

  function Desired(s: Session): Digest
  {
    Render(s.server.customConfig).hash
  }

  predicate Acknowledges(v: View, d: Digest)
  {
    v.configStatus.Some? && v.configStatus.value.lastHash == d
  }

  /** `owed`: the previous response asked for a full report, so this message is one. */
  predicate Fair(s: Session, owed: bool, x: Exchange)
  {
    && Legal(s, Change(x.view))
    && s.held.configStatus.Some? && Acknowledges(x.view, s.held.configStatus.value.lastHash)
    && var t := s.(held := x.view);
    && Legal(t, Send(x.msg, true)) && Detectable(t, Send(x.msg, true))
    && (owed ==> !Compressed(StatusAfter(s.server, x.msg), x.msg))
  }

  /** The message is received, and the agent applies and acknowledges the config of the response. */
  function After(s: Session, x: Exchange): (t: Session)
    requires Consistent(s.server)
    ensures Consistent(t.server) && Desired(t) == Desired(s) && t.server.status.Some?
  {
    var t := Apply(s.(held := x.view), Send(x.msg, true));
    var r := Respond(s.server, x.msg);
    if r.remoteConfig.None? then t
    else t.(held := t.held.(configStatus := Some(ConfigStatus(r.remoteConfig.value.hash, APPLIED, ""))))
  }

  function Final(s: Session, xs: seq<Exchange>): (t: Session)
    requires Consistent(s.server)
    ensures Consistent(t.server) && Desired(t) == Desired(s)
    decreases |xs|
  {
    if xs == [] then s else Final(After(s, xs[0]), xs[1..])
  }

  predicate FairRun(s: Session, owed: bool, xs: seq<Exchange>)
    requires Consistent(s.server)
    decreases |xs|
  {
    xs == [] || (Fair(s, owed, xs[0]) &&
                 FairRun(After(s, xs[0]), Respond(s.server, xs[0].msg).reportFullState, xs[1..]))
  }

  /** The configs carried by the responses. */
  function Carried(s: Session, xs: seq<Exchange>): (r: seq<Option<RemoteConfig>>)
    requires Consistent(s.server)
    ensures |r| == |xs|
    decreases |xs|
  {
    if xs == [] then []
    else [Respond(s.server, xs[0].msg).remoteConfig] + Carried(After(s, xs[0]), xs[1..])
  }

  predicate InSync(s: Session)
  {
    s.server.status.Some? && s.lost == 0 && !s.pending
  }

  predicate Settled(s: Session)
  {
    InSync(s) && Acknowledges(s.held, Desired(s))
  }

  /** An exchange whose message leaves no request open brings the agent to the desired config. */
  lemma SyncedExchange(s: Session, owed: bool, x: Exchange)
    requires Tracks(s) && Fair(s, owed, x)
    ensures Tracks(After(s, x))
    ensures var t := After(s, x);
            && (InSync(s) ==> InSync(t))
            && (InSync(t) ==> Settled(t) && Stored(t.server) == x.view)
  {
    var u := s.(held := x.view);
    StepTracks(s, Change(x.view));
    StepTracks(u, Send(x.msg, true));
    if s.server.status.Some? {
      GapModulo(s.sent, s.lost);
    }
  }

  /** Once the agent acknowledges the desired config and the server is up to date, no response
      carries a config again, and from the next message on the stored hash is the desired one. */
  lemma {:induction false} SettledStaysQuiet(s: Session, owed: bool, xs: seq<Exchange>)
    requires Tracks(s) && Settled(s) && FairRun(s, owed, xs)
    ensures Tracks(Final(s, xs)) && Settled(Final(s, xs))
    ensures forall c <- Carried(s, xs) :: c.None?
    ensures xs != [] ==> Acknowledges(Stored(Final(s, xs).server), Desired(s))
    decreases |xs|
  {
    if xs != [] {
      SyncedExchange(s, owed, xs[0]);
      var t := After(s, xs[0]);
      assert Acknowledges(Stored(t.server), Desired(s));
      SettledStaysQuiet(t, Respond(s.server, xs[0].msg).reportFullState, xs[1..]);
      assert xs[1..] == [] ==> Final(s, xs) == t;
    }
  }

  /** Any config a response carries is the current desired one. */
  lemma {:induction false} OnlyDesiredIsCarried(s: Session, xs: seq<Exchange>)
    requires Consistent(s.server)
    ensures forall c <- Carried(s, xs) :: c.Some? ==> c.value == Render(s.server.customConfig)
    decreases |xs|
  {
    if xs != [] {
      OnlyDesiredIsCarried(After(s, xs[0]), xs[1..]);
    }
  }

  /** The server's record lets the next response carry the config, whatever the message says. */
  predicate ServerDiffers(s: Session)
  {
    || s.server.remoteConfig.None?
    || (s.server.status.Some? && s.server.status.value.configStatus.Some? &&
        !Acknowledges(Stored(s.server), Desired(s)))
  }

  lemma OneExchange(s: Session, owed: bool, x: Exchange)
    requires Tracks(s) && Fair(s, owed, x)
    ensures var t := After(s, x);
            && (Acknowledges(t.held, Desired(s)) <==>
                Acknowledges(s.held, Desired(s)) || ServerDiffers(s) || x.msg.configStatus.Some?)
            && (!Acknowledges(t.held, Desired(s)) ==> !ServerDiffers(t))
  {
  }

  /** Over any exchanges from any reachable state, whatever was lost before and whether or not an open
      full-state request has reached the agent, the agent gets the desired config exactly when it has
      it, the server's record differs from it at the start, or some message reports the config
      status. */
  lemma {:induction false} ConvergesExactlyWhen(s: Session, owed: bool, xs: seq<Exchange>)
    requires Tracks(s) && FairRun(s, owed, xs)
    ensures Acknowledges(Final(s, xs).held, Desired(s)) <==>
            || Acknowledges(s.held, Desired(s))
            || (xs != [] && ServerDiffers(s))
            || exists x <- xs :: x.msg.configStatus.Some?
    decreases |xs|
  {
    if xs != [] {
      OneExchange(s, owed, xs[0]);
      SyncedExchange(s, owed, xs[0]);
      ConvergesExactlyWhen(After(s, xs[0]), Respond(s.server, xs[0].msg).reportFullState, xs[1..]);
      assert xs == [xs[0]] + xs[1..];
    }
  }

  /** In particular two exchanges suffice from every reachable state in which no full-state request is
      open, or the open one has reached the agent, whatever messages and pushes were lost before. No
      later response carries a config, and with an up-to-date record only the first one can. */
  lemma TwoExchangesSuffice(s: Session, owed: bool, xs: seq<Exchange>)
    requires Tracks(s) && (s.pending ==> owed) && FairRun(s, owed, xs) && |xs| >= 2
    ensures Settled(Final(s, xs)) && forall i :: 2 <= i < |xs| ==> Carried(s, xs)[i].None?
    ensures |xs| >= 3 ==> Acknowledges(Stored(Final(s, xs).server), Desired(s))
    ensures InSync(s) ==> Acknowledges(Stored(Final(s, xs).server), Desired(s)) && Carried(s, xs)[1].None?
  {
    var t := After(s, xs[0]);
    var owed1 := Respond(s.server, xs[0].msg).reportFullState;
    SyncedExchange(s, owed, xs[0]);
    SyncedExchange(t, owed1, xs[1]);
    assert t.pending ==> owed1;
    var u := After(t, xs[1]);
    SettledStaysQuiet(u, Respond(t.server, xs[1].msg).reportFullState, xs[1..][1..]);
    CarriedLater(s, xs);
    if InSync(s) {
      SettledStaysQuiet(t, owed1, xs[1..]);
      assert Carried(s, xs)[1] == Carried(t, xs[1..])[0];
    }
  }

  lemma CarriedLater(s: Session, xs: seq<Exchange>)
    requires Consistent(s.server) && |xs| >= 2
    ensures Final(s, xs) == Final(After(After(s, xs[0]), xs[1]), xs[1..][1..])
    ensures Carried(s, xs)[2..] == Carried(After(After(s, xs[0]), xs[1]), xs[1..][1..])
  {
    var t := After(s, xs[0]);
    assert xs[1..][0] == xs[1];
    assert Carried(s, xs)[1..] == Carried(t, xs[1..]);
    assert Carried(s, xs)[2..] == Carried(t, xs[1..])[1..];
  }

  /** The server's stored copy is that of the last report: after two exchanges it holds the desired
      hash exactly when the agent reported it, or nothing was reported and it held it before. Unless an
      open full-state request was lost, this is so exactly when the agent had the config before or the
      first response carried it. */
  lemma StoredAfterTwoExactlyWhen(s: Session, owed: bool, x: Exchange, y: Exchange)
    requires Tracks(s) && Fair(s, owed, x)
    requires Fair(After(s, x), Respond(s.server, x.msg).reportFullState, y)
    ensures var had, carried := Acknowledges(s.held, Desired(s)), Respond(s.server, x.msg).remoteConfig.Some?;
            var stored := Acknowledges(Stored(After(After(s, x), y).server), Desired(s));
            && (stored <==>
                if y.msg.configStatus.Some? then had || carried
                else if x.msg.configStatus.Some? then had
                else s.server.status.Some? && Acknowledges(Stored(s.server), Desired(s)))
            && ((s.pending ==> owed) ==> (stored <==> had || carried))
  {
    var t := After(s, x);
    SyncedExchange(s, owed, x);
    SyncedExchange(t, Respond(s.server, x.msg).reportFullState, y);
  }

  /** Such a state is reachable: the agent applied another config, its acknowledgement was lost, and
      the desired config was set back. */
  lemma LaggingRun(s0: Session, other: string) returns (es: seq<Event>)
    requires Start(s0) && s0.held.health.Some? && other != ""
    requires Acknowledges(s0.held, Render("").hash)
    ensures LegalRun(s0, es) && DetectableRun(s0, es)
    ensures var s := Run(s0, es);
            && Tracks(s) && !s.pending && s.lost == 1 && s.server.status.Some? && s.lastSent == Some(s.held)
            && s.held.health.Some? && s.held.configStatus.Some?
            && s.server.status.value.capabilities == {ReportsHealth, ReportsRemoteConfig}
            && Acknowledges(Stored(s.server), Desired(s)) && Acknowledges(s.held, Render(other).hash)
            && s.server.customConfig == ""
  {
    var first, push := Send(FullMessage(s0), true), Configure(other);
    RunExtends(s0, [], first);
    RunExtends(s0, [] + [first], push);
    var s2 := Apply(Apply(s0, first), push);
    var change := Change(s0.held.(configStatus := Some(ConfigStatus(Render(other).hash, APPLIED, ""))));
    RunExtends(s0, [] + [first] + [push], change);
    var s3 := Apply(s2, change);
    var lostReport, back := Send(FullMessage(s3), false), Configure("");
    RunExtends(s0, [] + [first] + [push] + [change], lostReport);
    RunExtends(s0, [] + [first] + [push] + [change] + [lostReport], back);
    es := [] + [first] + [push] + [change] + [lostReport] + [back];
    RunTracks(s0, es);
  }

  lemma StoredCopyMayLag(s0: Session, other: string)
    returns (es: seq<Event>, x: Exchange, y: Exchange)
    requires Start(s0) && s0.held.health.Some? && other != ""
    requires Acknowledges(s0.held, Render("").hash)
    ensures LegalRun(s0, es) && DetectableRun(s0, es)
    ensures var s := Run(s0, es);
            && Fair(s, false, x) && Fair(After(s, x), Respond(s.server, x.msg).reportFullState, y)
            && Settled(After(After(s, x), y))
            && !Acknowledges(Stored(After(After(s, x), y).server), Desired(s))
  {
    es := LaggingRun(s0, other);
    var s := Run(s0, es);
    x := Exchange(s.held, FullMessage(s).(configStatus := None));
    GapIsSeen(s, x.msg);
    SyncedExchange(s, false, x);
    var t := After(s, x);
    y := Exchange(t.held, FullMessage(t));
    RenderIsInjective(other, "");
    StoredAfterTwoExactlyWhen(s, false, x, y);
    SyncedExchange(t, Respond(s.server, x.msg).reportFullState, y);
  }

  // ---- a lost request ------------------------------------------------------------------------------

  /** The agent holds another config than the server believes, and nothing will bring that up. */
  predicate Stuck(s: Session)
  {
    && Tracks(s) && s.lost == 0 && s.server.status.Some? && s.lastSent == Some(s.held)
    && s.held.health.Some? && s.held.configStatus.Some?
    && Acknowledges(Stored(s.server), Desired(s)) && !Acknowledges(s.held, Desired(s))
  }

  function Silent(s: Session): Exchange
  {
    Exchange(s.held, FullMessage(s).(configStatus := None))
  }

  lemma StuckStays(s: Session)
    requires Stuck(s)
    ensures Fair(s, false, Silent(s)) && Respond(s.server, Silent(s).msg) == Response(false, None)
    ensures Stuck(After(s, Silent(s))) && Desired(After(s, Silent(s))) == Desired(s)
  {
    SyncedExchange(s, false, Silent(s));
    GapIsSeen(s, Silent(s).msg);
  }

  lemma {:induction false} StuckForever(s: Session, n: nat) returns (xs: seq<Exchange>)
    requires Stuck(s)
    ensures |xs| == n && FairRun(s, false, xs) && Stuck(Final(s, xs))
    ensures forall c <- Carried(s, xs) :: c.None?
    decreases n
  {
    xs := [];
    if n > 0 {
      StuckStays(s);
      var rest := StuckForever(After(s, Silent(s)), n - 1);
      xs := [Silent(s)] + rest;
      assert xs[1..] == rest;
    }
  }

  /** When the response with the full-state request is lost, nothing is asked or sent again: the run of
      `LaggingRun` and one more message, whose response is lost, lead to a state from which any number
      of exchanges leave the agent with the other config. */
  lemma LostRequestNeverConverges(s0: Session, other: string, n: nat) returns (es: seq<Event>, xs: seq<Exchange>)
    requires Start(s0) && s0.held.health.Some? && other != ""
    requires Acknowledges(s0.held, Render("").hash)
    ensures LegalRun(s0, es) && DetectableRun(s0, es)
    ensures var s := Run(s0, es);
            && s.pending && |xs| == n && FairRun(s, false, xs)
            && !Acknowledges(Final(s, xs).held, Desired(s))
            && Final(s, xs).server.status.Some? && Acknowledges(Stored(Final(s, xs).server), Desired(s))
            && forall c <- Carried(s, xs) :: c.None?
  {
    es := LaggingRun(s0, other);
    var s := Run(s0, es);
    var report := Send(Silent(s).msg, true);
    GapIsSeen(s, Silent(s).msg);
    RenderIsInjective(other, "");
    RunExtends(s0, es, report);
    StepTracks(s, report);
    es := es + [report];
    xs := StuckForever(Run(s0, es), n);
  }
}
