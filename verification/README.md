# otel-hive: a Dafny model of the management plane

otel-hive manages OpenTelemetry Collectors: collectors connect over OpAMP, report compressed status
messages and receive configs; configs come from a versioned store, from pushes and from git
repositories; a web UI validates configs and draws their pipelines; users sign in with rotating refresh
tokens. This project models those parts and proves what they keep over every input, run or interleaving.

`dafny verify dfyconfig.toml` checks everything.

| modules | what they model | main results |
|---|---|---|
| `OpampAgent`, `OpampSession`, `OpampConvergence`, `OpampWatchers` | one agent record and its exchange of delta-compressed messages over a lossy link | the stored status is what the agent last sent unless a full-state request is open; two exchanges bring the desired config unless a full-state request was lost, with the exact condition for any number of exchanges, and nothing is sent afterwards; notification channels are signalled once |
| `OpampRegistry`, `OpampServer`, `OpampServerRuns`, `ConfigStore` | the registry, the message and disconnect callbacks, the config store | persisted status follows registration over every run; the callbacks are the steps of the sessions above, so that their theorems hold of the server; a stored config is what the lookup for its agent returns, and exactly when a message delivers it is proved; group fan-out splits and delivers exactly |
| `GitMatcher`, `GitSync`, `GitSyncProofs`, `GitSyncOutcomes`, `GitWorkers` | rules from paths, the sync run with its two caches, the poller lifecycle | the last matching rule wins; the cached run is the filtered forced run; when the two agree, exactly; cache safety over histories; one worker per source, closed once |
| `Validation`, `ValidationProofs`, `YamlText`, `YamlPosition`, `PipelineGraph`, `PipelineGraphProofs` | UI validation, positions in the text, the pipeline graph | the verdict is exactly "everything referred to is defined"; deduplication loses nothing; positions are exact; one path per receiver and exporter; sections and boxes do not overlap |
| `AuthTokens` | setup, login, refresh, logout, pruning | an exchanged token is dead for good; one live token per login; exact acceptance and logout conditions |

How the code is read: one lock-protected section, or one callback, is one atomic step; where the code
releases a lock before it acts (watcher notification, stop channels) the two halves are separate steps.
SHA-256, bcrypt, UUIDs and random tokens are injective constructors or fresh values; clocks, new ids, the
answers of agents in time, `toLowerCase`, the word test of a regular expression and the contents of a
repository are parameters. SQL tables are maps. Ranging over a Go map visits its keys in an arbitrary order.
Sequence numbers wrap at 2^64 and config versions at 64 bits. A capability mask is the set of its bits.

Where the code and its documentation disagree, or a law fails, the code is followed and the exact
condition is proved:

- A full-state request is made once; if that response is lost it is not made again
  (`OpampSession.LostRequestIsNotRepeated`). A loss of a multiple of 2^64 messages is not noticed
  (`OpampSession.GapIsSeen`, `OpampSession.WrapAroundHidesLosses`).
- Two exchanges bring the agent to the desired config unless the response with a full-state request was lost.
  After such a loss no number of exchanges need do so (`OpampConvergence.LostRequestNeverConverges`);
  `OpampConvergence.ConvergesExactlyWhen` says when they do. The server's copy of the acknowledged hash may lag by
  one message (`OpampConvergence.StoredAfterTwoExactlyWhen`, `OpampConvergence.StoredCopyMayLag`).
- Storing a config for an agent does not deliver it (`OpampServer.StoredConfigIsDelivered` says when a message does).
- `isEqualConfigSet` does not tell a nil file from a missing one; it is exact exactly for maps without one
  (`OpampAgent.TestIsExactExactlyWhen`).
- A stored config becomes the unique latest one unless a version has reached the largest integer
  (`ConfigStore.StoredIsUniqueMaximum`).
- A non-forced sync can override an unchanged rule of higher precedence
  (`GitSyncProofs.UnchangedLastRuleIsOverridden`, `GitSyncProofs.SameConfigExactlyWhen`). A provider that cannot be
  made resets the stored commit to the empty string.
- An agent "with all required pairs" is not quite what is matched: an empty required value is met by a
  missing label (`GitMatcher.SelectionIsContainment`). Group rules match the `group.id` label only, not the
  `group_id` field the comment names.
- One null pipeline makes the pipeline validator throw, and so does an undefined name that makes the position
  finder build a malformed regular expression, such as `foo(`; what is undefined is then not reported
  (`ValidationProofs.NullPipelineHidesErrors`, `ValidationProofs.MalformedNameHidesErrors`;
  `ValidationProofs.ValidateYamlConfig` states the exact verdict).
- The position finder does not read the line that takes it out of a block again, and so misses some paths
  (`YamlPosition.LeavingLineIsNotReread`; `YamlPosition.FoundExactlyWhen` says which it finds).
- Node ids of two pipelines can coincide when one name continues the other after a dash
  (`PipelineGraphProofs.IdsCoincideExactlyWhen`). The comment promises 80px of padding above and below; boxes are placed 30px above the centre line but are
  100px high, so at the tightest there are 100px above and 60px below.
- A message that omits health makes an agent online in the store though its remembered health is bad
  (`OpampServer.OmittedHealthReadsAsOnline`).
- Logging out with a token that was exchanged before does nothing
  (`AuthTokens.LogoutExactlyWhen`).

## Model

| member | source | states |
|---|---|---|
| `OpampAgent.EqualConfigSet` | internal/opamp/agent_config.go:102-130 | two config sets are judged equal exactly when both are nil, or their sizes agree and every file of the first equals the second's |
| `OpampAgent.SameFilesIsEquality` | internal/opamp/agent_config.go:102-119 | without nil files in the first map the one-sided test is exactly equality of maps |
| `OpampAgent.NilFileIsNotNoticed` | internal/opamp/agent_config.go:112-129 | with a nil file two different maps are judged equal |
| `OpampAgent.NilFileHidesADifference` | internal/opamp/agent_config.go:112-129 | for every map with a nil file there is a different one judged equal |
| `OpampAgent.TestIsExactExactlyWhen` | internal/opamp/agent_config.go:102-129 | the test is equality for every right-hand map if and only if the left map has no nil file |
| `OpampAgent.RenderIsInjective` | internal/opamp/agent_config.go:57-79 | different desired configs have different renderings |
| `OpampAgent.Agent.CalcRemoteConfig` | internal/opamp/agent_config.go:57-86 | the remote config becomes the rendering and hash of the desired config, and "changed" is exact |
| `OpampAgent.Agent.SetCustomConfig` | internal/opamp/agent_config.go:17-52 | the record stays consistent; a push is sent and the watcher queued exactly when the rendering was another one or none, otherwise the caller is signalled at once |
| `OpampAgent.Agent.constructor` | internal/opamp/agent_core.go:60-83 | a new agent has no status, no config and no watchers |
| `OpampAgent.Agent.UpdateAgentDescription` | internal/opamp/agent_status.go:47-85 | sequence number taken over, description and config status merged, change reported exactly for a different description |
| `OpampAgent.Agent.UpdateHealth` | internal/opamp/agent_status.go:88-98 | health merged; the start time moves only on a healthy report |
| `OpampAgent.Agent.UpdateStatusField` | internal/opamp/agent_status.go:109-121 | the first message is remembered whole, later ones are merged field by field, capabilities excepted |
| `OpampAgent.Agent.UpdateEffectiveConfig` | internal/opamp/agent_status.go:181-195 | the effective config becomes the body of some reported file, or stays |
| `OpampAgent.Agent.ProcessStatusUpdate` | internal/opamp/agent_status.go:124-178 | in a consistent record the nil remote config is never read; full state is asked for exactly on a gap with a message that omits one of effective config, package statuses, config status and health the agent declared to report |
| `OpampAgent.Agent.UpdateStatus` | internal/opamp/agent_status.go:14-33 | consistency is kept and every queued watcher is handed over exactly once |
| `OpampAgent.FullStateIsAskedExactlyWhen` | internal/opamp/agent_status.go:128-154 | the request for full state, written out: no status stored or a sequence number that does not follow, and one of the four fields omitted whose capability the first message declared |
| `OpampAgent.ConfigIsCarriedExactlyWhen` | internal/opamp/agent_status.go:156-175 | the response carries the rendering of the desired config exactly when none was rendered or the hash last acknowledged is another |
| `OpampAgent.StatusIsMerged` | internal/opamp/agent_status.go:46-121 | field by field, what is remembered of a first and of a later message |
| `OpampSession.GapIsSeen` | internal/opamp/agent_status.go:130-130 | a gap is noticed exactly when the number of lost messages is not a multiple of 2^64 |
| `OpampSession.StepTracks` | internal/opamp/agent_status.go:47-154 | every step keeps: the record equals the last sent view unless something was lost or a request is open |
| `OpampSession.RunTracks` | internal/opamp/agent_status.go:47-154 | so does every run |
| `OpampSession.StoredStatusIsCurrent` | internal/opamp/agent_status.go:124-178 | over every run with arbitrary loss and reconnection, after each received message the stored health and config status are what the agent held, or a full-state request is open |
| `OpampSession.FullReportRepairs` | internal/opamp/agent_status.go:134-154 | a full report makes the record current and closes the request, whatever was lost |
| `OpampSession.LostRequestIsNotRepeated` | internal/opamp/agent_status.go:150-154 | after a lost request no response of a loss-free continuation asks again, and an omitted health stays stale |
| `OpampSession.WrapAroundHidesLosses` | internal/opamp/agent_status.go:130-130 | for every positive multiple of 2^64 losses there is a legal run that leaves the record wrong with no request open |
| `OpampConvergence.SyncedExchange` | internal/opamp/agent_status.go:156-175 | an exchange that leaves no request open leaves the agent acknowledging the desired config |
| `OpampConvergence.SettledStaysQuiet` | internal/opamp/agent_status.go:167-175 | once settled, no response carries a config and the stored hash is the desired one |
| `OpampConvergence.OnlyDesiredIsCarried` | internal/opamp/agent_status.go:167-175 | any config a response carries is the current desired one |
| `OpampConvergence.ConvergesExactlyWhen` | internal/opamp/agent_status.go:124-178 | over any number of exchanges from any reachable state, whatever was lost, the agent gets the desired config if and only if it has it, the record differs from it at the start, or some message reports the config status |
| `OpampConvergence.LostRequestNeverConverges` | internal/opamp/agent_status.go:150-175 | a legal run that loses the response with the full-state request, after which any number of exchanges leave the agent with another config, nothing carried, and the server's copy at the desired hash |
| `OpampConvergence.TwoExchangesSuffice` | internal/opamp/agent_status.go:124-178 | from every reachable state with no full-state request open, or whose request reached the agent, two exchanges bring the agent to the desired config and no later response carries one; with an up-to-date record only the first can; the server's copy agrees after three, or two with an up-to-date record |
| `OpampConvergence.StoredAfterTwoExactlyWhen` | internal/opamp/agent_status.go:150-175 | exactly when the server's copy is the desired hash after two exchanges, by what was reported; unless a request was lost, if and only if the agent had the config before or the first response carried it |
| `OpampConvergence.StoredCopyMayLag` | internal/opamp/agent_status.go:150-175 | a legal run from the start after which two exchanges leave the server's copy behind, though the agent has the config |
| `OpampWatchers.StepAccounts` | internal/opamp/agent_config.go:25-51 | every step keeps each created channel in exactly one place, with nothing blocked or dropped |
| `OpampWatchers.RunAccounts` | internal/opamp/agent_status.go:26-44 | so does every interleaving |
| `OpampWatchers.ChannelsAreSignalledOnce` | internal/opamp/config_sender.go:46-58 | each channel is signalled at most once, no send blocks or is dropped, and it is waiting, being signalled, signalled or discarded, never two of these |
| `OpampWatchers.ChannelsMoveOn` | internal/opamp/agent_status.go:26-44 | a new channel waits exactly when the config changes; the next report releases every waiting one, and its signal is sent |
| `OpampRegistry.Agents.constructor` | internal/opamp/agents.go:20-26 | the registry starts empty |
| `OpampRegistry.Agents.FindOrCreateAgent` | internal/opamp/agents.go:63-81 | a known agent is returned and nothing changes, not even its connection; a new one is registered and indexed under its connection |
| `OpampRegistry.Agents.RemoveConnection` | internal/opamp/agents.go:30-44 | exactly the agents of the connection leave |
| `OpampRegistry.DeleteAll` | internal/opamp/agents.go:40-43 | the loop removes exactly the given keys |
| `OpampRegistry.Agents.SendConfigToAgent` | internal/opamp/config_sender.go:28-59 | the desired config is set exactly for a connected, capable agent, whether or not it answers; each error has its condition |
| `OpampRegistry.Agents.SendConfigToEach` | internal/opamp/config_sender.go:88-107 | the members are served one after the other and each lands in the list its outcome says |
| `OpampRegistry.Agents.SendConfigToAgentsInGroup` | internal/opamp/config_sender.go:81-115 | for some order of exactly the group's members, updated ids and errors split them, every capable member desires the content and every other agent is unchanged |
| `OpampRegistry.FanOut` | internal/opamp/config_sender.go:81-115 | serving distinct agents in sequence: earlier sends do not change later outcomes, the lists split the members as multisets, content delivered to accepting members only |
| `OpampRegistry.SendAnswersExactly` | internal/opamp/config_sender.go:28-59 | each answer of a send, by connection, declared capability, the record's config and whether the agent answers |
| `OpampRegistry.GroupSendExactly` | internal/opamp/config_sender.go:81-115 | in these terms: who is updated, who is an error, what every agent ends with |
| `ConfigStore.MemoryStore.constructor` | internal/storage/applicationstore/memory/memory.go:25-31 | a new store is empty |
| `ConfigStore.MemoryStore.CreateAgent` | internal/storage/applicationstore/memory/memory.go:35-58 | inserts exactly when the id is new |
| `ConfigStore.MemoryStore.UpdateAgentStatus` | internal/storage/applicationstore/memory/memory.go:109-121 | changes exactly the status of a known agent |
| `ConfigStore.MemoryStore.CreateGroup` | internal/storage/applicationstore/memory/memory.go:165-184 | inserts exactly when the id is new |
| `ConfigStore.MemoryStore.GetGroupByName` | internal/services/agent_service_impl.go:155-174 | some group of that name, or none exists |
| `ConfigStore.MemoryStore.CreateConfig` | internal/storage/applicationstore/memory/memory.go:241-253 | inserts exactly when the id is new |
| `ConfigStore.MemoryStore.GetLatestConfig` | internal/storage/applicationstore/memory/memory.go:269-313 | for every visiting order, a row of the owner that none of the owner's rows is newer than; none only if there is none |
| `ConfigStore.MemoryStore.GetConfigForAgent` | internal/opamp/server.go:381-405 | agent config before group config before the default |
| `ConfigStore.MemoryStore.StoreConfigForAgent` | internal/services/agent_service_impl.go:317-368 | error cases exactly; on success the row is appended with the next version and nothing else changes |
| `ConfigStore.StoredIsUniqueMaximum` | internal/services/agent_service_impl.go:343-358 | on any history the stored row is the agent's unique maximum if and only if no version is the largest integer |
| `ConfigStore.MaximumSurvives` | internal/storage/applicationstore/memory/memory.go:241-290 | it stays so whatever is created for others |
| `ConfigStore.StoredConfigIsLookedUp` | internal/opamp/server.go:381-405 | the lookup for the agent then returns exactly that content, whatever its group and the group configs, until a config is created for it |
| `ConfigStore.GroupConfigIsLookedUp` | internal/opamp/server.go:390-404 | without a config of its own an agent gets the highest version of its group, and the default without a group or a group config |
| `ConfigStore.VersionsCount` | internal/services/agent_service_impl.go:343-356 | repeated stores are numbered 1, 2, 3, ... whatever is interleaved |
| `OpampServer.ExtractGroupInfo` | internal/opamp/server.go:356-377 | id and name are the last non-empty values among their keys |
| `OpampServer.LastNaming` | internal/opamp/server.go:361-376 | the value found is that of the last attribute that names a group |
| `OpampServer.NoneNaming` | internal/opamp/server.go:361-376 | it is empty if none does |
| `OpampServer.GroupKeysExactly` | internal/opamp/server.go:364-369 | the three keys of an id and the three of a name |
| `OpampServer.GroupIsReported` | internal/opamp/server.go:286-310 | a described message sets group id and name to what it reports, another leaves them |
| `OpampServer.CapabilitiesAreNamed` | internal/opamp/server.go:568-608 | the stored names are those of the declared capabilities; the one a config store looks for is there exactly for agents that accept remote config |
| `OpampServer.Server.constructor` | internal/opamp/server.go:76-90 | registry and store start empty |
| `OpampServer.Server.ProcessAgentGrouping` | internal/opamp/server.go:286-353 | group taken from the description; a stored config set exactly for a capable agent whose group changed or that has none |
| `OpampServer.Server.PersistAgent` | internal/opamp/server.go:408-510 | a known agent gets its status, a new one a row; a new agent that names a group gets the id of a group of that name, created if there is none |
| `OpampServer.PersistedExactly` | internal/opamp/server.go:463-493 | status, group and capabilities of the row, and no other agent changes |
| `OpampServer.Server.HandleMessage` | internal/opamp/server.go:203-214 | grouping, status update and persisting compose to one transition of the record and one of the store |
| `OpampServer.Server.OnMessage` | internal/opamp/server.go:165-223 | the callback is one message step of the run model |
| `OpampServer.Server.OnDisconnect` | internal/opamp/server.go:134-163 | the callback is one close step: exactly the connection's agents go offline and leave |
| `OpampServer.FirstMessageSetsNoConfig` | internal/opamp/server.go:332-337 | the first message brings an agent no stored config, only the empty rendering |
| `OpampServer.StoredConfigIsDelivered` | internal/opamp/server.go:286-352 | after a store, a message makes the stored config the desired one exactly when the agent is known to accept one, describes itself, has changed its group or has no config, and the content is not empty; otherwise the desired config stays |
| `OpampServer.UnconfiguredGetsDefault` | internal/opamp/server.go:330-352 | a capable agent without any config gets the (non-empty) default with its next described message |
| `OpampServer.StepStaysInStep` | internal/opamp/server.go:134-223 | every step keeps index and presence |
| `OpampServer.StoreFollowsRegistry` | internal/opamp/server.go:134-223 | over every run from a fresh store, a persisted agent is online or in error exactly while registered and offline exactly while not, every registered agent is persisted, and an agent is listed under a connection exactly when it is its own |
| `OpampServer.StatusOfLastMessage` | internal/opamp/server.go:610-624 | over every run, while an agent stays registered its stored status is error if its last message reported bad health and online otherwise |
| `OpampServer.OmittedHealthReadsAsOnline` | internal/opamp/server.go:610-624 | a compressed message without health makes an agent online whose remembered health is bad |
| `OpampServerRuns.MessageIsSessionRun` | internal/opamp/server.go:203-206 | the message callback does to the record what a session does, at most setting a stored config first, with the same response |
| `OpampServerRuns.JointStepIsSessionRun` | internal/opamp/server.go:134-223 | every callback, push or step of the agent's own is a legal run of its session, which goes on mirroring the server's record |
| `OpampServerRuns.JointRunIsSessionRun` | internal/opamp/server.go:134-223 | so is every run of the server among other agents |
| `OpampServerRuns.ServerStatusIsCurrent` | internal/opamp/server.go:165-223 | over every run of the server, after each message of an agent the registry holds the health and config status it held, unless a full-state request is open |
| `OpampServerRuns.TwoExchangesAtServer` | internal/opamp/server.go:203-206 | two callbacks that leave the desired config alone bring the agent to it if and only if it has it, the record differs from it, or a message reports the config status; and always unless a full-state request was lost |
| `GitMatcher.ParseRules` | internal/gitsync/matcher.go:32-82 | the rules are those of the entries, in order |
| `GitMatcher.RulesInOrder` | internal/gitsync/matcher.go:36-81 | every entry that makes a rule is listed, and the rules are in entry order |
| `GitMatcher.RootSlashIsTrimmed` | internal/gitsync/matcher.go:33-33 | one slash at the end of the root is cut, and nothing else |
| `GitMatcher.FileSelects` | internal/gitsync/matcher.go:12-31 | which files make rules, and which agents each selects: those of its environment and role, with the documented wildcards, or of its group |
| `GitMatcher.JoinSplit` | internal/gitsync/matcher.go:123-125 | splitting loses nothing: joining gives the path back, and no part has a slash |
| `GitMatcher.SplitJoin` | internal/gitsync/matcher.go:123-125 | and the parts come back from the joined path |
| `GitMatcher.StemOfYaml` | internal/gitsync/matcher.go:128-131 | the extension of name.yaml is stripped, whatever dots the name has |
| `GitMatcher.StemExactly` | internal/gitsync/matcher.go:128-131 | any extension is cut at the last dot, and a name without a dot is kept |
| `GitMatcher.RuleOfParts` | internal/gitsync/matcher.go:32-82 | a path under the root makes the rule of its parts |
| `GitMatcher.OtherFilesAreIgnored` | internal/gitsync/matcher.go:31-73 | a file makes a rule if and only if it is of a known kind directly under the root |
| `GitMatcher.EnvironmentFile` | internal/gitsync/matcher.go:14-25 | the documented environment conventions |
| `GitMatcher.GroupFile` | internal/gitsync/matcher.go:27-28 | the documented group convention |
| `GitMatcher.LabelsMatch` | internal/gitsync/matcher.go:101-108 | true exactly when every required key reads as required |
| `GitMatcher.SelectionIsContainment` | internal/gitsync/matcher.go:84-108 | an agent is selected if and only if it has all required pairs but the empty ones it has no label for |
| `GitMatcher.MatchAgents` | internal/gitsync/matcher.go:87-98 | the selected agents, in order |
| `GitMatcher.MatchedMember` | internal/gitsync/matcher.go:87-98 | an agent is among them exactly when it is listed and selected |
| `GitMatcher.MatchedInOrder` | internal/gitsync/matcher.go:91-97 | all selected agents are matched, in listing order |
| `GitSync.ShaTable` | internal/gitsync/service.go:236-240 | the lookup table gives the SHA of the last entry of each path |
| `GitSync.GitService.PushToMatched` | internal/gitsync/service.go:276-290 | registry and counters after pushing to each agent in order |
| `GitSync.GitService.ApplyFetched` | internal/gitsync/service.go:263-296 | pushes, then the cache write even if pushes failed, then the file counter |
| `GitSync.GitService.ApplyRule` | internal/gitsync/service.go:245-297 | one rule: skipped if cached, else fetched; a failed fetch writes no cache |
| `GitSync.GitService.ApplyRules` | internal/gitsync/service.go:242-297 | the rule loop |
| `GitSync.GitService.RunSync` | internal/gitsync/service.go:193-327 | the new source row, cache, registry and counters of a run, on each failure path and the short-circuit |
| `GitSyncOutcomes.ShortCircuitedExactlyWhen` | internal/gitsync/service.go:209-213 | with a provider and a commit, a run is short-circuited if and only if it is not forced and the commit is non-empty and the stored one |
| `GitSyncOutcomes.FailsExactlyWhen` | internal/gitsync/service.go:196-229 | when a run fails and what it stores then |
| `GitSyncOutcomes.NewCommitIsStored` | internal/gitsync/service.go:299-311 | a run on another commit completes and stores it, with success exactly when every fetch found its file and every push succeeded; attempts and updated agents are counted |
| `GitSyncOutcomes.NewCommitIsSynced` | internal/gitsync/service.go:242-297 | it leaves each listed accepting agent with the content of the last rule that selects it and whose file is fetchable and not cached as unchanged |
| `GitSyncOutcomes.UnreachedIsUntouched` | internal/gitsync/service.go:242-297 | an agent no such rule reaches keeps its record |
| `GitSyncOutcomes.RuleIsTallied` | internal/gitsync/service.go:276-296 | what one rule adds to the counters and errors |
| `GitSyncOutcomes.AttemptedExactlyWhen` | internal/gitsync/service.go:248-254 | a file is attempted exactly when forced, or not cached under a non-empty SHA that is still its own |
| `GitSyncOutcomes.ShaIsOfLastEntry` | internal/gitsync/service.go:236-246 | a file's SHA is that of the last entry with its path |
| `GitSyncProofs.RunPushes` | internal/gitsync/service.go:245-297 | a run pushes exactly the matched agents of its attempted rules, in order, and the registry is the result of those pushes |
| `GitSyncProofs.NonForcedIsFiltered` | internal/gitsync/service.go:245-297 | the non-forced pushes are the forced ones filtered to stale files, in the same order |
| `GitSyncProofs.LastPushWins` | internal/opamp/config_sender.go:28-59 | after any pushes an accepting agent desires the last content pushed to it, any other agent is unchanged |
| `GitSyncProofs.ConfigAfter` | internal/gitsync/service.go:245-297 | whichever fetches fail, the desired config after a rule loop is that of the last attempted, fetchable, matching rule |
| `GitSyncProofs.ForcedRunSettles` | internal/gitsync/service.go:193-297 | after a forced run each listed, connected, accepting agent desires the content of the last matching rule that could be fetched, other listed agents are untouched, timeouts play no part |
| `GitSyncProofs.UnlistedIsUntouched` | internal/gitsync/service.go:225-290 | a registered agent that is not listed is untouched by any rule loop |
| `GitSyncProofs.SameConfigExactlyWhen` | internal/gitsync/service.go:245-297 | with the same fetch outcomes, forced and non-forced runs agree on an agent if and only if the last stale applying rule, or what the agent holds, has the content of the last applying rule |
| `GitSyncProofs.SameConfigWhenLastIsStale` | internal/gitsync/service.go:245-297 | in particular when the last applying rule is stale, or no stale rule applies and the agent holds its content |
| `GitSyncProofs.UnchangedLastRuleIsOverridden` | internal/gitsync/service.go:248-254 | a changed rule of lower precedence overrides an unchanged one |
| `GitSyncProofs.CachedWasFetched` | internal/gitsync/store.go:163-185 | over every history a cached (path, sha) was fetched by an earlier run |
| `GitSyncProofs.StoredCommitWasSeen` | internal/gitsync/service.go:299-327 | over every history a non-empty stored commit was seen by a run that finished its rule loop |
| `GitSyncProofs.EveryRuleIsCached` | internal/gitsync/service.go:248-295 | after a run in which no needed fetch fails every rule's file is cached |
| `GitSyncProofs.RepeatedRunDoesNothing` | internal/gitsync/service.go:209-254 | a following non-forced run on the same entries is short-circuited or fetches and pushes nothing |
| `GitWorkers.StepAccounts` | internal/gitsync/service.go:331-359 | every step keeps each worker registered, about to be closed, or closed, and exactly one of these |
| `GitWorkers.RunAccounts` | internal/gitsync/service.go:331-359 | so does every interleaving |
| `GitWorkers.WorkersAreSafe` | internal/gitsync/worker.go:26-57 | no stop channel is closed twice, a closed worker is not registered, no two sources share a worker, and the wait group counts the unfinished goroutines |
| `GitWorkers.RegisteredExactlyWhen` | internal/gitsync/service.go:331-359 | in every interleaving a source has a worker exactly when the last of its start and remove steps was a start |
| `GitWorkers.StepsDoTheirWork` | internal/gitsync/service.go:331-359 | a start creates one running worker or, if there is one, nothing; the removed worker is the one closed |
| `Validation.ValidatePipelines` | ui/src/lib/validation/validators/otel-pipeline-validator.ts:12-95 | the findings of every pipeline in order, or a throw |
| `Validation.ValidateExtensions` | ui/src/lib/validation/validators/otel-extensions-validator.ts:12-45 | the findings of undefined extensions in order, or a throw |
| `Validation.ValidateEmptyPipelines` | ui/src/lib/validation/validators/otel-empty-pipeline-validator.ts:12-58 | the warnings of pipelines without receivers or exporters in order |
| `Validation.Collect` | ui/src/lib/validation/index.ts:29-38 | the findings of all validators; one that throws contributes none |
| `Validation.KeyIsInjective` | ui/src/lib/validation/index.ts:45-45 | keys agree exactly when message, line and column do, although messages may contain bars |
| `Validation.DigitsAreDecimal` | ui/src/lib/validation/index.ts:45-45 | the decimal form of a number has only digits and determines the number |
| `Validation.Dedupe` | ui/src/lib/validation/index.ts:40-50 | the first finding of each message, line and column |
| `ValidationProofs.FirstOccurrencesAt` | ui/src/lib/validation/index.ts:40-50 | the kept findings are, in order, those no earlier finding shares its place with |
| `ValidationProofs.NothingIsLost` | ui/src/lib/validation/index.ts:40-50 | every finding has a kept one of the same place |
| `ValidationProofs.ErrorsSurvive` | ui/src/lib/validation/index.ts:40-55 | deduplication keeps an error if and only if there was one: no warning can hide it |
| `ValidationProofs.PipelinesDecide` | ui/src/lib/validation/validators/otel-pipeline-validator.ts:26-92 | it throws exactly when a pipeline is null or the position of something undefined cannot be looked up, and otherwise finds an error exactly when some reference is undefined, connectors counting as receivers and exporters |
| `ValidationProofs.ExtensionsDecide` | ui/src/lib/validation/validators/otel-extensions-validator.ts:26-42 | it throws exactly when the position of an undefined extension cannot be looked up, and otherwise finds an error exactly when some extension is undefined |
| `ValidationProofs.EmptyPipelinesOnlyWarn` | ui/src/lib/validation/validators/otel-empty-pipeline-validator.ts:26-55 | this validator reports no error, and throws exactly on a null pipeline if the lookup of a bare key never throws |
| `ValidationProofs.FindingsAreUndefinedRefs` | ui/src/lib/validation/validators/otel-pipeline-validator.ts:28-89 | the findings are exactly the errors about undefined references, with their texts, sections and looked-up positions |
| `ValidationProofs.FindingsAreUndefinedExtensions` | ui/src/lib/validation/validators/otel-extensions-validator.ts:30-41 | the same for extensions |
| `ValidationProofs.WarnsExactlyWhen` | ui/src/lib/validation/validators/otel-empty-pipeline-validator.ts:26-55 | the warnings are exactly those of pipelines without receivers or without exporters |
| `ValidationProofs.FindingsAreOrdered` | ui/src/lib/validation/index.ts:15-38 | errors about pipelines come first, then those about extensions, then warnings |
| `YamlPosition.KeyLookupNeverThrows` | ui/src/lib/validation/yaml-position.ts:50-120 | the lookup of a bare key never throws |
| `ValidationProofs.ValidateYamlConfig` | ui/src/lib/validation/index.ts:24-56 | valid if and only if the pipeline validator throws or every pipeline reference is defined, and the extensions validator throws or every extension is; the errors are the first occurrences |
| `ValidationProofs.VerdictIsDefinedness` | ui/src/lib/validation/index.ts:24-56 | when no pipeline is null and no lookup throws, valid if and only if everything referred to is defined |
| `ValidationProofs.NullPipelineHidesErrors` | ui/src/lib/validation/index.ts:31-38 | a config with a null pipeline and an undefined receiver is judged valid |
| `ValidationProofs.MalformedNameHidesErrors` | ui/src/lib/validation/yaml-position.ts:52-56 | a text whose only receiver has a name that makes the expression malformed: it is undefined, and judged valid |
| `ValidationProofs.UnclosedGroupIsAccepted` | ui/src/lib/validation/index.ts:31-38 | so it is for receivers: ["foo("] |
| `YamlText.KeyIsFirst` | ui/src/lib/validation/yaml-position.ts:43-44 | the first occurrence of a line's key is at its indentation |
| `YamlText.BlockLineRead` | ui/src/lib/validation/yaml-position.ts:22-44 | an indented `key:` line is read with that key and indentation |
| `YamlText.InlineListRead` | ui/src/lib/validation/yaml-position.ts:52-54 | the inline list of a `key: [items]` line is its items |
| `YamlText.TrimExactly` | ui/src/lib/validation/yaml-position.ts:28-28 | trimming cuts the white space at both ends and nothing else |
| `YamlText.SkippedExactlyWhen` | ui/src/lib/validation/yaml-position.ts:30-33 | a line is skipped exactly if it is white space, or white space and a # |
| `YamlText.KeyExactlyWhen` | ui/src/lib/validation/yaml-position.ts:43-44 | the key is what the expression captures, trimmed |
| `YamlText.InlineIsFirstMatch` | ui/src/lib/validation/yaml-position.ts:52-54 | the inline list is what the expression captures at its first match, and none if it does not match |
| `YamlPosition.FindItem` | ui/src/lib/validation/yaml-position.ts:68-96 | the first matching item before the text leaves the indentation, or a throw |
| `YamlPosition.FindTarget` | ui/src/lib/validation/yaml-position.ts:22-49 | the line that completes the path, or none |
| `YamlPosition.FindYamlPosition` | ui/src/lib/validation/yaml-position.ts:12-121 | not found exactly when no line completes the path, otherwise the place shown for that line, or a throw |
| `YamlPosition.ThrowsExactlyWhen` | ui/src/lib/validation/yaml-position.ts:50-96 | it throws if and only if the name makes a malformed expression, the path is found, and its line has an inline list or an item below |
| `YamlPosition.ShownExactlyWhen` | ui/src/lib/validation/yaml-position.ts:48-106 | for a well-formed name on a found path: the component on the key's line if the inline list passes the test, else on the first list item of the block that passes, and the key exactly if neither exists |
| `YamlPosition.KeyIsShown` | ui/src/lib/validation/yaml-position.ts:50-106 | without a component, or with an empty one, the key |
| `YamlPosition.ItemExactly` | ui/src/lib/validation/yaml-position.ts:84-84 | list items are the lines that begin with a dash |
| `YamlPosition.ScanFits` | ui/src/lib/validation/yaml-position.ts:38-117 | what the scan has matched is a chain of increasing lines, each the first with its key after the one before, without leaving the block between |
| `YamlPosition.PlaceIsExact` | ui/src/lib/validation/yaml-position.ts:22-120 | the line is in range; the text at the columns is exactly the key, at indentation plus one, or the component, on that line or a deeper one below; strictly increasing lines spell the whole path and end at or before it |
| `YamlPosition.FoundExactlyWhen` | ui/src/lib/validation/yaml-position.ts:38-117 | a line is found if and only if such a chain spells the whole path and ends there, starting at the top or just after a line that left the block of an earlier such chain: a condition on the lines alone |
| `YamlPosition.LeavingLineIsNotReread` | ui/src/lib/validation/yaml-position.ts:112-117 | a text of four lines in which the line that resets the scan is not matched against the path, so a well-indented path is missed |
| `YamlPosition.WordTestIsFaithful` | ui/src/lib/validation/yaml-position.ts:55-56 | a word match of a name without metacharacters is an occurrence of it |
| `YamlPosition.ColumnZeroExactlyWhen` | ui/src/lib/validation/yaml-position.ts:57-57 | the column is zero if and only if the name does not occur on the line |
| `YamlPosition.CreateValidationError` | ui/src/lib/validation/yaml-position.ts:126-152 | the finding is at the place found, or at line 1, column 1, or the lookup throws |
| `YamlPosition.LocatedExactly` | ui/src/lib/validation/yaml-position.ts:133-151 | the fallback to line 1, column 1 exactly for a path that is not completed |
| `PipelineGraph.LinkPipeline` | ui/src/components/collector-pipeline/PipelineGenerator.tsx:315-386 | the edges of one pipeline |
| `PipelineGraph.PlacePipeline` | ui/src/components/collector-pipeline/PipelineGenerator.tsx:135-308 | the section and boxes of one pipeline |
| `PipelineGraph.GeneratePipelineNodes` | ui/src/components/collector-pipeline/PipelineGenerator.tsx:22-394 | the graph of the pipelines if there are any; no config, an unparsable one, no service and no pipelines each give their own message and no edges |
| `PipelineGraphProofs.GraphIsDrawnExactlyWhen` | ui/src/components/collector-pipeline/PipelineGenerator.tsx:33-110 | what is returned is a graph if and only if the source has pipelines, and otherwise one message |
| `PipelineGraphProofs.DrawnLayoutIsSound` | ui/src/components/collector-pipeline/PipelineGenerator.tsx:135-389 | for every non-empty list of pipelines the returned nodes lie inside their sections, which do not overlap |
| `PipelineGraphProofs.DrawnPathIsUnique` | ui/src/components/collector-pipeline/PipelineGenerator.tsx:310-386 | and the returned edges hold exactly one path from each receiver to each exporter of a pipeline |
| `PipelineGraphProofs.EveryComponentIsDrawn` | ui/src/components/collector-pipeline/PipelineGenerator.tsx:170-308 | every pipeline has its section, and every declared component its box inside it |
| `PipelineGraphProofs.ColumnsAreCentred` | ui/src/components/collector-pipeline/PipelineGenerator.tsx:193-308 | the columns of receivers and exporters are centred on their section, 30 above its middle |
| `PipelineGraphProofs.SectionsAreTight` | ui/src/components/collector-pipeline/PipelineGenerator.tsx:135-168 | sections are no larger than their boxes need |
| `PipelineGraphProofs.ReceiversInside` | ui/src/components/collector-pipeline/PipelineGenerator.tsx:144-231 | each receiver box lies in its section and clear of those above |
| `PipelineGraphProofs.ProcessorsInside` | ui/src/components/collector-pipeline/PipelineGenerator.tsx:135-266 | each processor box lies in its section, between the columns and clear of the others |
| `PipelineGraphProofs.ExportersInside` | ui/src/components/collector-pipeline/PipelineGenerator.tsx:144-308 | each exporter box lies in its section and clear of those above |
| `PipelineGraphProofs.OffsetsGrow` | ui/src/components/collector-pipeline/PipelineGenerator.tsx:389-389 | a later section starts at least 40 below an earlier one |
| `PipelineGraphProofs.LayoutIsSound` | ui/src/components/collector-pipeline/PipelineGenerator.tsx:135-389 | every node is a section or lies inside one, and no two sections overlap |
| `PipelineGraphProofs.IdsAreInjective` | ui/src/components/collector-pipeline/PipelineGenerator.tsx:211-290 | unless pipeline names collide, ids determine kind, pipeline and component |
| `PipelineGraphProofs.IdsCoincideExactlyWhen` | ui/src/components/collector-pipeline/PipelineGenerator.tsx:211-290 | components of two pipelines can get the same id if and only if the names are equal or one continues the other after a dash |
| `PipelineGraphProofs.EdgeIsLink` | ui/src/components/collector-pipeline/PipelineGenerator.tsx:310-386 | every edge is a link the config declares |
| `PipelineGraphProofs.LinkIsEdge` | ui/src/components/collector-pipeline/PipelineGenerator.tsx:310-386 | every declared link is an edge |
| `PipelineGraphProofs.EdgesJoinNodes` | ui/src/components/collector-pipeline/PipelineGenerator.tsx:202-386 | every edge joins two existing nodes of one pipeline |
| `PipelineGraphProofs.OnlyWayFromProcessor` | ui/src/components/collector-pipeline/PipelineGenerator.tsx:332-367 | from a processor every path to an exporter goes through all later ones in order |
| `PipelineGraphProofs.ExactlyOnePath` | ui/src/components/collector-pipeline/PipelineGenerator.tsx:310-386 | with names that do not collide, a node sequence is a path from a receiver to an exporter of a pipeline if and only if it is the route through all processors in declared order |
| `AuthTokens.Service.constructor` | internal/auth/service.go:32-39 | no users and no tokens |
| `AuthTokens.Service.IssueTokenPair` | internal/auth/service.go:221-255 | one row with the expiry cut to seconds, or an error on a duplicate hash |
| `AuthTokens.Service.Setup` | internal/auth/service.go:51-81 | the first user and a token, or an error if there is a user |
| `AuthTokens.Service.Login` | internal/auth/service.go:84-98 | a token for a known user with the right password |
| `AuthTokens.LoginExactlyWhen` | internal/auth/service.go:84-98 | on any tables a login succeeds if and only if the first user of the name has the password; what is stored then, and nothing otherwise |
| `AuthTokens.LoginAfterSetup` | internal/auth/service.go:51-98 | after a setup and any later events, exactly its name and password are let in, and the token belongs to its user |
| `AuthTokens.Service.Refresh` | internal/auth/service.go:101-123 | unknown, expired, orphaned and accepted tokens, and what is deleted in each case |
| `AuthTokens.ExchangeCases` | internal/auth/service.go:101-123 | the four answers of an exchange and what each leaves in the table |
| `AuthTokens.Service.Logout` | internal/auth/service.go:126-136 | all rows of the owner of a live token go, otherwise nothing |
| `AuthTokens.Service.PruneExpiredTokens` | internal/auth/store.go:236-241 | exactly the rows of earlier seconds go |
| `AuthTokens.StepIsSound` | internal/auth/service.go:51-136 | every step keeps: rows match what was issued, one live token per login, one user per login |
| `AuthTokens.RunIsSound` | internal/auth/service.go:51-136 | so does every run |
| `AuthTokens.OneLiveTokenPerChain` | internal/auth/service.go:120-122 | of the tokens descending from one login at most one is live, and all belong to one user |
| `AuthTokens.DeadStaysDead` | internal/auth/store.go:195-241 | an issued token that is no longer stored is never stored again |
| `AuthTokens.ExchangedIsNeverAccepted` | internal/auth/service.go:101-123 | an exchanged token is refused after any further events at any time |
| `AuthTokens.LogoutEndsSessions` | internal/auth/service.go:126-136 | logging out with a live token ends all tokens of its user for good and no other |
| `AuthTokens.LogoutExactlyWhen` | internal/auth/service.go:125-136 | the user is left without tokens if and only if the given one was live or there were none |
| `AuthTokens.AcceptedExactlyWhen` | internal/auth/store.go:195-220 | a token is accepted if and only if it is live and its whole-second expiry has not passed; never past its nominal expiry, and always until a second before it |
| `AuthTokens.PrunedWereExpired` | internal/auth/store.go:236-241 | only tokens that would be refused from then on are pruned |
| `AuthTokens.PrunedExactlyWhen` | internal/auth/store.go:236-241 | a token is dropped exactly when its whole-second expiry lies in an earlier second |
| `AuthTokens.SetupSucceedsOnce` | internal/auth/service.go:51-58 | setup succeeds exactly without users, and after any setup attempt never again |

## Left out

- Connection settings, certificates, restart commands and metrics of the OpAMP server: plumbing around the record.
- Names, labels, versions and effective config of persisted agents: copied fields. A server without an agent service is not modelled.
- Aliasing of the first status message with the stored one: messages are values.
- Long-term group membership after auto-created groups: a later description overwrites the resolved group id.
- GitSync.GitService.RunSync: one source, and paths already clean as a git tree lists them; providers, webhooks and the timing of polls are not modelled, nor retries of failed pushes, which the code does not make.
- GitWorkers.WorkersAreSafe: interleavings are steps on values, not a class with locks; the termination of Stop is not claimed, because workers started later do not share its context.
- Validation.ValidatePipelines: pipelines are null or objects with lists of strings; other YAML shapes and custom validator lists are not modelled.
- YamlPosition.FindYamlPosition: the text is given as its lines, and what the regular expression of a component name accepts, or that it is malformed, is a parameter; malformedness is taken to depend on the name only.
- Strings are sequences of Unicode characters, not UTF-16 units, so columns agree on text without surrogate pairs.
- PipelineGraph.GeneratePipelineNodes: a text that parses to nothing, on which the code throws; edge ids, styles, labels and metrics of nodes are not modelled.
- AuthTokens.Service.Refresh: access tokens, API keys and failing deletes are not modelled; `AuthTokens.Service.Setup` leaves out roles and bcrypt's length limit.
- HTTP handlers, middleware, the audit log, telemetry queries, SQLite and the React components: plumbing and user interface.
