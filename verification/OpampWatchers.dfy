/** The notification channels of SetCustomConfig and UpdateStatus under every interleaving
    (internal/opamp/agent_config.go, agent_status.go, config_sender.go). The locked sections are the
    atomic steps of `OpampAgent`; the sends happen after the lock is released, one channel a step. */
module OpampWatchers {
  import opened Basics
  import opened OpampAgent

  /** `direct`: channels SetCustomConfig is about to signal because nothing changed. `inFlight`:
      watchers taken by UpdateStatus and not yet notified. `sends`: the sends made so far.
      `dropped` and `blocked` count the non-blocking sends that found a full buffer and the
      blocking ones that had to wait. */
  datatype Net = Net(
    agent: AgentRec,
    removed: bool,
    direct: multiset<Channel>,
    inFlight: multiset<Channel>,
    sends: multiset<Channel>,
    buffered: multiset<Channel>,
    next: Channel,
    dropped: nat,
    blocked: nat)

  datatype Step =
    | Configure(content: string)      // SendConfigToAgent with a fresh capacity-1 channel
    | SetQuietly(content: string)     // SetCustomConfig without a channel, or group resolution
    | SignalDirect(channel: Channel)
    | Report(msg: AgentToServer)      // UpdateStatus
    | SignalWatcher(channel: Channel)
    | Receive(channel: Channel)       // the waiter reads; a waiter that times out takes no step
    | Disconnect                      // the agent leaves the registry; holders may still use it

  predicate Start(n: Net)
  {
    n.agent == FRESH && !n.removed && n.direct == n.inFlight == n.sends == n.buffered == multiset{} &&
    n.next == n.dropped == n.blocked == 0
  }

  function Apply(n: Net, e: Step): (r: Net)
    requires Consistent(n.agent)
    ensures Consistent(r.agent)
  {
    match e
    case Configure(content) =>
      n.(agent := AfterSetConfig(n.agent, content, Some(n.next)),
      direct := if ChangesConfig(n.agent, content) then n.direct else n.direct + multiset{n.next},
      next := n.next + 1)
    case SetQuietly(content) => n.(agent := AfterSetConfig(n.agent, content, None))
    case SignalDirect(c) =>
      if c !in n.direct then n
      else if n.buffered[c] > 0 then n.(blocked := n.blocked + 1)
      else n.(direct := n.direct - multiset{c}, sends := n.sends + multiset{c}, buffered := n.buffered + multiset{c})
    case Report(msg) =>
      n.(agent := AfterStatus(n.agent, msg), inFlight := n.inFlight + multiset(n.agent.watchers))
    case SignalWatcher(c) =>
      if c !in n.inFlight then n
      else if n.buffered[c] > 0 then n.(inFlight := n.inFlight - multiset{c}, dropped := n.dropped + 1)
      else n.(inFlight := n.inFlight - multiset{c}, sends := n.sends + multiset{c},
           buffered := n.buffered + multiset{c})
    case Receive(c) => n.(buffered := n.buffered - multiset{c})
    case Disconnect => n.(removed := true)
  }

  function Run(n: Net, es: seq<Step>): (r: Net)
    requires Consistent(n.agent)
    ensures Consistent(r.agent)
    decreases |es|
  {
    if es == [] then n else Run(Apply(n, es[0]), es[1..])
  }

  /** How many times a channel is found in the four places it can be. */
  function Places(n: Net, c: Channel): nat
  {
    multiset(n.agent.watchers)[c] + n.direct[c] + n.inFlight[c] + n.sends[c]
  }

  /** Every channel created so far is in exactly one place, once. */
  ghost predicate Accounted(n: Net)
  {
    && Consistent(n.agent)
    && (forall c: Channel :: Places(n, c) == (if c < n.next then 1 else 0) && n.buffered[c] <= n.sends[c])
    && n.dropped == n.blocked == 0
  }

  lemma ConfigurePlaces(n: Net, content: string, c: Channel)
    requires Consistent(n.agent)
    ensures Places(Apply(n, Configure(content)), c) == Places(n, c) + if c == n.next then 1 else 0
  {
    var r := Apply(n, Configure(content));
    assert multiset(n.agent.watchers + [n.next])[c] == multiset(n.agent.watchers)[c] + multiset{n.next}[c];
    if ChangesConfig(n.agent, content) {
      assert r.agent.watchers == n.agent.watchers + [n.next];
    } else {
      assert r.agent.watchers == n.agent.watchers;
    }
  }

  lemma PlacesMove(n: Net, e: Step, c: Channel)
    requires Consistent(n.agent)
    ensures Places(Apply(n, e), c) ==
            Places(n, c) + (if e.Configure? && c == n.next then 1 else 0)
            - (if e == SignalWatcher(c) && c in n.inFlight && n.buffered[c] > 0 then 1 else 0)
  {
    if e.Configure? {
      ConfigurePlaces(n, e.content, c);
    } else if e.Report? {
      assert multiset(Apply(n, e).agent.watchers) == multiset{};
    } else {
      assert Apply(n, e).agent.watchers == n.agent.watchers;
    }
  }

  lemma StepAccounts(n: Net, e: Step)
    requires Accounted(n)
    ensures Accounted(Apply(n, e))
  {
    var r := Apply(n, e);
    if e.SignalDirect? || e.SignalWatcher? {
      assert Places(n, e.channel) == (if e.channel < n.next then 1 else 0);
      assert n.buffered[e.channel] <= n.sends[e.channel];
    }
    forall c: Channel ensures Places(r, c) == (if c < r.next then 1 else 0) && r.buffered[c] <= r.sends[c] {
      PlacesMove(n, e, c);
      assert Places(n, c) == (if c < n.next then 1 else 0) && n.buffered[c] <= n.sends[c];
    }
  }

  lemma {:induction false} RunAccounts(n: Net, es: seq<Step>)
    requires Accounted(n)
    ensures Accounted(Run(n, es))
    decreases |es|
  {
    if es != [] {
      StepAccounts(n, es[0]);
      RunAccounts(Apply(n, es[0]), es[1..]);
    }
  }

  datatype Fate = Waiting | Discarded | BeingSignalled | Signalled

  /** The places a channel is found in; a list, so that two of them would show. */
  function Fates(n: Net, c: Channel): seq<Fate>
  {
    (if c in n.agent.watchers then [if n.removed then Discarded else Waiting] else []) +
    (if c in n.direct || c in n.inFlight then [BeingSignalled] else []) +
    (if c in n.sends then [Signalled] else [])
  }

  /** Over every interleaving each channel is signalled at most once, no send blocks or is dropped,
      and each channel has exactly one fate: waiting, discarded with its agent, about to be
      signalled, or signalled. */
  lemma ChannelsAreSignalledOnce(n0: Net, es: seq<Step>, c: Channel)
    requires Start(n0) && c < Run(n0, es).next
    ensures var n := Run(n0, es);
            n.sends[c] <= 1 && n.blocked == 0 && n.dropped == 0 && |Fates(n, c)| == 1
  {
    assert Accounted(n0);
    RunAccounts(n0, es);
    var n := Run(n0, es);
    assert Places(n, c) == 1;
    assert c in n.agent.watchers <==> c in multiset(n.agent.watchers);
  }

  /** A new channel waits exactly when it changes the rendered config, and is otherwise about to be
      signalled at once; the next report releases every waiting channel, and its signal is sent. */
  lemma ChannelsMoveOn(n: Net, content: string, msg: AgentToServer, c: Channel)
    requires Accounted(n)
    ensures var q := Apply(n, Configure(content));
            && q.next == n.next + 1
            && (n.next in q.agent.watchers <==> n.agent.remoteConfig != Some(Render(content)))
            && (n.next in q.direct <==> n.agent.remoteConfig == Some(Render(content)))
    ensures var q := Apply(n, Report(msg));
            q.agent.watchers == [] && (c in n.agent.watchers ==> c in q.inFlight)
    ensures c in n.inFlight ==> var q := Apply(n, SignalWatcher(c)); c in q.sends && c in q.buffered && c !in q.inFlight
    ensures c in n.direct ==> var q := Apply(n, SignalDirect(c)); c in q.sends && c in q.buffered && c !in q.direct
  {
    RenderIsInjective(n.agent.customConfig, content);
    assert Places(n, n.next) == 0;
    assert Places(n, c) == (if c < n.next then 1 else 0) && n.buffered[c] <= n.sends[c];
    assert n.next in n.agent.watchers ==> multiset(n.agent.watchers)[n.next] > 0;
    assert c in n.agent.watchers ==> c in multiset(n.agent.watchers);
  }
}
