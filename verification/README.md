# Azure Service Mesh client — a Dafny model of its polling core

The client creates a Service Fabric Mesh application that runs one Azure Pipelines
agent in a container, watches it come up, and deletes it again. Almost everything it
does is polling: the application, service and container-log endpoints of the mesh
management API are queried once a second. Each answer is turned into a status, and
the resulting streams are fused into a verdict.

The model covers that core in two variants:

- the service-backed client (`Services/ObservableMeshClient.cs`, `Services/MeshController.cs`);
- the first scenario's client and controller (`FirstScenario/…`, including the agent-state
  stream of `LogDataExtensions.cs` and the snapshot records of `FirstScenario/Model`).

It also covers the log reassembly of `Extensions/ObservableExtensions.cs`, which turns
repeated snapshots of a growing container log into the lines added since the last one.

Reactive streams become finite traces. A `Streams.Trace` is the items delivered so far
plus how the stream ended: still `Open`, `Completed`, or `Errored`. Each management-API
call becomes an input `Classify.Outcome`: the value it returned, or the error it threw.
In the agent streams, the outcome also stands for any failure on the way from the call
to the subscriber. This covers an error the reassembly raises, and a null log text that
reaches it. Such a failure ends the stream with `Errored`.
Each stateful subscriber (the agent step machines, the one-shot subjects, the
controller's flags) becomes a pure step function folded over its inputs.

Modules, one per file:

| module | file | models |
|---|---|---|
| `Wrappers` | wrappers.dfy | `Option`, `Result` |
| `Strings` | strings.dfy | `Replace(c, "")`, `Contains`, prefixes |
| `Common` | common.dfy | `CleanGuid` |
| `Streams` | streams.dfy | traces, `DistinctUntilChanged`, `TakeUntil`, `Indexed`, `Skip` |
| `EnumNames` | enum_names.dfy | `Enum.Parse` by member name |
| `Status` | status.dfy | the service-backed client's status enums |
| `ScenarioStatus` | scenario_status.dfy | the first scenario's status enums and their embedding |
| `Classify` | classify.dfy | turning a call's outcome into a log or status reading |
| `StatusPolling` | status_polling.dfy | the repeat / distinct / take-until shape of a status poll |
| `Agent` | agent.dfy | the service-backed client's agent step machine |
| `ScenarioAgent` | scenario_agent.dfy | the first scenario's agent step machine |
| `AgentState` | agent_state.dfy | the agent-state stream of `LogDataExtensions` |
| `Gating` | gating.dfy | the start-polling / application-failed gates |
| `LogReassembly` | log_reassembly.dfy | `SplitStreamByNewlines`, `SplitRepeatedPrefixByNewline` |
| `Fusion` | fusion.dfy | combining the three statuses, the one-shot signals, stopping |
| `Provisioning` | provisioning.dfy | the application resource description and the create calls |
| `ScenarioController` | scenario_controller.dfy | the first scenario's controller |
| `ScenarioModel` | scenario_model.dfy | equality of the first scenario's snapshot records |

## Model

| member | source | states |
|---|---|---|
| Strings.Remove | src/Client.App/Common.cs:9 | `Replace(c, "")`: the result no longer contains the character. |
| Strings.RemoveKeepsOthers | src/Client.App/Common.cs:9 | Removing a character keeps every other character with its multiplicity, so the length drops by exactly the number of removed occurrences. |
| Strings.RemoveAppend | src/Client.App/Common.cs:9 | Removal distributes over concatenation. |
| Strings.RemoveIdempotent | src/Client.App/Common.cs:9 | Removing the same character twice is the same as removing it once. |
| Strings.ContainsIffOccurs | src/Client.App/Services/ObservableMeshClient.cs:90-93 | The substring test used for "Listening for Jobs" holds iff the pattern occurs at some index. |
| Common.CleanGuid | src/Client.App/Common.cs:7-10 | The cleaned guid has no hyphen, and every other character keeps its multiplicity. |
| Common.CleanGuidPiecewise | src/Client.App/FirstScenario/ObservableMeshClient.cs:332-335 | Cleaning distributes over concatenation. |
| Common.CleanGuidIdempotent | src/Client.App/Common.cs:9 | Cleaning an already clean guid changes nothing. |
| Common.CleanAfterSegment | src/Client.App/Common.cs:9 | A hyphen-free segment followed by a hyphen keeps the segment and drops that hyphen. |
| Common.CleanCanonicalGuid | src/Client.App/Common.cs:9 | A canonical 8-4-4-4-12 guid cleans to exactly 32 hexadecimal digits. |
| EnumNames.ParseName | src/Client.App/Services/ObservableMeshClient.cs:199 | Parsing by name returns a member with exactly that name, and fails only when no member has it. |
| Status.ParseApplicationStatus | src/Client.App/Model/ApplicationStatusEnum.cs:3-11 | A parsed application status has the given name, and a failure means no status has that name. |
| Status.ParseServiceStatus | src/Client.App/Model/AgentStatusEnum.cs:13-19 | A parsed service status has the given name, and a failure means no status has that name. |
| Status.ApplicationStatusesComplete | src/Client.App/Model/ApplicationStatusEnum.cs:3-11 | The member list names every application status. |
| Status.ServiceStatusesComplete | src/Client.App/Model/AgentStatusEnum.cs:13-19 | The member list names every service status. |
| Status.ApplicationStatusRoundTrip | src/Client.App/Services/ObservableMeshClient.cs:199 | Parsing a status's name gives the status back, and a text parses to a status iff it is that status's name. |
| Status.ServiceStatusRoundTrip | src/Client.App/Services/ObservableMeshClient.cs:271 | Parsing a service status's name gives it back, and a text parses to it iff it is its name. |
| ScenarioStatus.AsApplicationStatus | src/Client.App/FirstScenario/Model/AgentStatusEnum.cs:3-10 | The first scenario's application statuses embed into the service-backed ones and never hit `Failed`. |
| ScenarioStatus.AsServiceStatus | src/Client.App/FirstScenario/Model/AgentStatusEnum.cs:12-17 | The first scenario's service statuses embed without `Failed`. |
| ScenarioStatus.AsAgentStatus | src/Client.App/FirstScenario/Model/AgentStatusEnum.cs:19-26 | The first scenario's agent statuses embed without `Failed`. |
| ScenarioStatus.FromApplicationStatus | src/Client.App/FirstScenario/Model/AgentStatusEnum.cs:3-10 | A service-backed application status has a first-scenario counterpart iff it is not `Failed`, and the counterpart embeds back to it. |
| ScenarioStatus.FromServiceStatus | src/Client.App/FirstScenario/Model/AgentStatusEnum.cs:12-17 | A service status has a counterpart iff it is not `Failed`, and the counterpart embeds back to it. |
| ScenarioStatus.FromAgentStatus | src/Client.App/FirstScenario/Model/AgentStatusEnum.cs:19-26 | An agent status has a counterpart iff it is not `Failed`, and the counterpart embeds back to it. |
| ScenarioStatus.EmbeddingRoundTrip | src/Client.App/FirstScenario/Model/AgentStatusEnum.cs:1-27 | Embedding and then reading back is the identity on all three enums. |
| ScenarioStatus.ApplicationStatusesComplete | src/Client.App/FirstScenario/Model/AgentStatusEnum.cs:3-10 | The member list names every first-scenario application status. |
| ScenarioStatus.ServiceStatusesComplete | src/Client.App/FirstScenario/Model/AgentStatusEnum.cs:12-17 | The member list names every first-scenario service status. |
| ScenarioStatus.ParseApplicationStatus | src/Client.App/FirstScenario/ObservableMeshClient.cs:182 | A parsed status has the given name, and a failure means no status has it. |
| ScenarioStatus.ParseServiceStatus | src/Client.App/FirstScenario/ObservableMeshClient.cs:242 | A parsed status has the given name, and a failure means no status has it. |
| ScenarioStatus.ApplicationParseAgrees | src/Client.App/FirstScenario/ObservableMeshClient.cs:182 | The first scenario parses a text iff the service-backed parser does and does not give `Failed`; then the two agree through the embedding. |
| ScenarioStatus.ServiceParseAgrees | src/Client.App/FirstScenario/ObservableMeshClient.cs:242 | The same agreement for service statuses. |
| Classify.MeshLogReading | src/Client.App/Services/ObservableMeshClient.cs:143-160 | A returned log is `Output` with its text. A 404 or 400 reads as gone. Otherwise the error code "NotReady" reads as not ready. Every other error is rethrown unchanged. |
| Classify.AgentLogReading | src/Client.App/FirstScenario/LogDataExtensions.cs:140-152 | Only a 404 reads as gone, and the not-ready code is "ResourceNotReady". Everything else is rethrown unchanged. |
| Classify.PolledLogText | src/Client.App/FirstScenario/MeshController.cs:199-209 | A returned log yields its text. A 404 or "ResourceNotReady" yields nothing. Every other error is rethrown. |
| Classify.PolledLogTextMatchesAgentReading | src/Client.App/FirstScenario/MeshController.cs:203-209 | The controller's direct poll and the agent-state reading rethrow the same errors. The poll is empty exactly when the reading is not `Output`, and otherwise they carry the same text. |
| Classify.LogReadingsDiffer | src/Client.App/Services/ObservableMeshClient.cs:148-160 | The two log classifications differ only on a 400 or a not-ready code. |
| Classify.BadRequestDiffers | src/Client.App/FirstScenario/LogDataExtensions.cs:144-152 | A 400 is "gone" for the mesh clients but rethrown by the agent-state query. |
| Classify.ReadStatus | src/Client.App/Services/ObservableMeshClient.cs:184-214 | A reading without a body occurs exactly for a 404, and it carries the not-found status. A returned body yields the parsed status with that body, or the parse failure. Other errors are rethrown unchanged. |
| Classify.ReadApplicationStatus | src/Client.App/Services/ObservableMeshClient.cs:186-205 | A reading is `NotFound` iff it came from a 404 or from a body whose status text is "NotFound". |
| Classify.ReadServiceStatus | src/Client.App/Services/ObservableMeshClient.cs:257-277 | The same for service statuses. |
| Classify.ReadScenarioApplicationStatus | src/Client.App/FirstScenario/ObservableMeshClient.cs:170-187 | The same for the first scenario's application statuses. |
| Classify.ReadScenarioServiceStatus | src/Client.App/FirstScenario/ObservableMeshClient.cs:229-247 | The same for the first scenario's service statuses. |
| Streams.DistinctAfter | src/Client.App/Services/ObservableMeshClient.cs:223 | No two adjacent outputs are equal, and the first differs from the previous value. Every output comes from the input, and every input appears in the output unless it repeats the previous value. The exact output is pinned down by `Streams.DistinctAfterSnoc`. |
| Streams.DistinctUntilChanged | src/Client.App/Services/MeshController.cs:86 | No adjacent duplicates. Same set of values as the input. A non-empty input keeps its first item. The exact output is pinned down by `Streams.DistinctUntilChangedSnoc`. |
| Streams.DistinctAfterIsArriving | src/Client.App/Services/ObservableMeshClient.cs:223 | Filtering the whole sequence at once agrees with the reference filter. The reference compares each arriving item with the last item before it, or with the previous value at the start. |
| Streams.DistinctAfterSnoc | src/Client.App/Services/ObservableMeshClient.cs:223 | A new item is passed on iff it differs from the last item before it (or from the previous value if there is none). Everything emitted before it stays as it was. |
| Streams.DistinctUntilChangedSnoc | src/Client.App/Services/MeshController.cs:86 | The same rule without a previous value: a new item is passed on iff it differs from the item before it, or it is the first. |
| Streams.DistinctAfterIdentity | src/Client.App/Services/ObservableMeshClient.cs:223 | Dropping repeats changes nothing iff the input has no adjacent duplicates and does not start with the previous value. |
| Streams.DistinctUntilChangedIdentity | src/Client.App/Services/MeshController.cs:86 | `DistinctUntilChanged` is the identity exactly on sequences without adjacent duplicates. |
| Streams.DistinctUntilChangedIdempotent | src/Client.App/FirstScenario/LogDataExtensions.cs:81-83 | Applying it twice is applying it once, which is why repeated change filters are harmless. |
| Streams.TakeThrough | src/Client.App/Services/ObservableMeshClient.cs:222-232 | The result is a prefix of the input. No item before the last one stops. If any input item stops, the last output item does. If none stops, everything passes. |
| Streams.Indexed | src/Client.App/Extensions/ObservableExtensions.cs:78-90 | Each item is paired with its position, counting from zero. |
| LogReassembly.SplitStreamByNewlines | src/Client.App/Extensions/ObservableExtensions.cs:45-76 | Carriage returns dropped, the emitted lines joined by newlines spell the text from `skip` up to one past the last newline. The remainder is the text after it, and it holds no newline. |
| LogReassembly.SplitOnNewlineSpec | src/Client.App/Extensions/ObservableExtensions.cs:57-69 | The reference line split of a carriage-return-free text: its lines joined back plus the tail give the text. |
| LogReassembly.JoinLinesUnique | src/Client.App/Extensions/ObservableExtensions.cs:60-69 | A text has only one decomposition into newline-free lines and a newline-free tail, so any two splits of it agree. |
| LogReassembly.Feed | src/Client.App/Extensions/ObservableExtensions.cs:19-36 | A snapshot shorter than the cursor fails the stream. Otherwise at most one non-empty batch is added, and the cursor moves forward exactly when a batch is added. A failed stream ignores further snapshots. |
| LogReassembly.FeedText | src/Client.App/Extensions/ObservableExtensions.cs:28-36 | A new batch is exactly the lines between the old and the new cursor. The new cursor sits just past a newline. The remainder is the text after the cursor. |
| LogReassembly.SplitRepeatedPrefixByNewline | src/Client.App/Extensions/ObservableExtensions.cs:12-43 | The reassembled stream always ends, either completed or with the "Output shorter than expected" error. It completes whenever each snapshot begins with the one before it. |
| LogReassembly.GrowingLogInvariant | src/Client.App/Extensions/ObservableExtensions.cs:12-43 | While each snapshot extends the last, everything emitted plus the remainder spells out the latest snapshot without carriage returns. |
| LogReassembly.GrowingLogLines | src/Client.App/Extensions/ObservableExtensions.cs:12-43 | For a growing log, the completed stream emits exactly the latest snapshot's lines, followed by its unterminated tail if there is one. |
| LogReassembly.FailureIsFinal | src/Client.App/Extensions/ObservableExtensions.cs:22 | Once the stream has failed, later snapshots change nothing. |
| LogReassembly.ShrinkingSnapshotRejected | src/Client.App/Extensions/ObservableExtensions.cs:22 | A snapshot shorter than the consumed cursor ends the stream with the "Output shorter than expected" error, keeping the batches emitted before it. |
| LogReassembly.BatchesOnlyGrow | src/Client.App/Extensions/ObservableExtensions.cs:28-36 | Emitted batches are never withdrawn. |
| LogReassembly.SplitStreamExample | src/Client.Tests/Extensions/ObservableExtensionsTests.cs:85-102 | "Hello\nWorld\r\n!" split from index 2 gives the lines "llo" and "World", the cursor at length minus one, and the remainder "!". |
| LogReassembly.GrowingLogExample | src/Client.Tests/Extensions/ObservableExtensionsTests.cs:37-80 | Both snapshot sequences of the tests (CRLF and mixed newlines) yield "Hello", "World", "!" and complete. |
| StatusPolling.StatusStep | src/Client.App/Services/ObservableMeshClient.cs:223-235 | A reading equal to the previous one is dropped. A new one is emitted, and it stops the polling iff its status is not-found. |
| StatusPolling.Readings | src/Client.App/Services/ObservableMeshClient.cs:220-222 | The values of the polls before the first failure, in order. When a poll threw, it is the one right after them. |
| StatusPolling.EndedByFailure | src/Client.App/FirstScenario/ObservableMeshClient.cs:108 | A failed poll ends a run that is still open with that poll's error, and keeps the items. A run that already ended is left alone, and so is one with no failure. |
| StatusPolling.Shape | src/Client.App/Services/ObservableMeshClient.cs:292-309 | At most one item per poll. Not-found appears only as the last item, and exactly when the stream completes. An error ends it only if some poll threw. |
| StatusPolling.ShapeIsOperatorChain | src/Client.App/Services/ObservableMeshClient.cs:220-235 | The one-pass status step agrees with the operator chain: readings up to the first failure, repeats dropped, cut after the first not-found. |
| StatusPolling.ShapeEndsPolling | src/Client.App/Services/ObservableMeshClient.cs:222 | Once the stream has ended, later polls change nothing. |
| StatusPolling.RepeatsFollowTheBody | src/Client.App/Services/ObservableMeshClient.cs:191-199 | Two polls with the same status are both emitted unless their bodies are equal too, because distinctness is on the status and the body. |
| StatusPolling.PollStream | src/Client.App/Services/ObservableMeshClient.cs:237-239 | The stream starts with the unknown status. Not-found can only be last, and it comes exactly when the stream completes. |
| StatusPolling.ApplicationStream | src/Client.App/Services/ObservableMeshClient.cs:174-240 | The service-backed application status stream: `Unknown` first, `NotFound` only last and exactly on completion. |
| StatusPolling.ScenarioApplicationStream | src/Client.App/FirstScenario/ObservableMeshClient.cs:159-216 | The same for the first scenario's application statuses. |
| StatusPolling.ScenarioServiceStream | src/Client.App/FirstScenario/ObservableMeshClient.cs:218-274 | The same for the first scenario's service statuses. |
| Agent.AgentStep | src/Client.App/Services/ObservableMeshClient.cs:74-107 | Each transition, both ways: `NotReady` iff `Unknown` meets not-ready; `Starting` iff `Unknown`/`NotReady` meet output; `Ready` iff `Starting` meets a line containing "Listening for Jobs". Completion with `NotFound` iff a later state meets a non-output answer. A state is emitted only when it changes, and the progress rank only increases. |
| Agent.Run | src/Client.App/Services/ObservableMeshClient.cs:55-108 | The agent stream after a start: states strictly increase in progress. It completes iff the last item is `NotFound`, and it never reports `Failed`. |
| ScenarioAgent.AgentStep | src/Client.App/FirstScenario/ObservableMeshClient.cs:83-114 | The first scenario's step completes with `NotFound` exactly when a later state meets a non-output answer. |
| ScenarioAgent.StepAgrees | src/Client.App/FirstScenario/ObservableMeshClient.cs:83-114 | The first scenario's step is the service-backed step read through the status embedding. |
| ScenarioAgent.RunAgrees | src/Client.App/FirstScenario/ObservableMeshClient.cs:60-115 | Whole runs agree through the embedding. |
| ScenarioAgent.RunOrdered | src/Client.App/FirstScenario/ObservableMeshClient.cs:83-114 | The first scenario's announced states strictly increase, and the run completes iff it ends with `NotFound`. |
| ScenarioAgent.PolledRun | src/Client.App/FirstScenario/ObservableMeshClient.cs:46-115 | The step machine over poll outcomes can end with an error only if some poll threw. |
| ScenarioAgent.PolledRunIsRunUntilFailure | src/Client.App/FirstScenario/ObservableMeshClient.cs:57-115 | Running over outcomes is running the step machine over the polls before the first failure. If that run is still open, the failure then ends it with that error. |
| ScenarioAgent.PolledRunOrdered | src/Client.App/FirstScenario/ObservableMeshClient.cs:83-115 | Over outcomes, states strictly increase and completion is iff `NotFound` is last. The run errs iff some poll threw before it completed, and then it carries that poll's error. |
| ScenarioAgent.AgentStream | src/Client.App/FirstScenario/ObservableMeshClient.cs:46-120 | The agent stream starts with `Unknown` and strictly increases in progress. It completes iff it ends with `NotFound`. It ends with an error iff a poll threw before completion, and it carries that error. |
| ScenarioAgent.AgentStreamReturned | src/Client.App/FirstScenario/ObservableMeshClient.cs:46-120 | When every poll returns, the agent stream is `Unknown` followed by the step machine's run. |
| AgentState.StateStep | src/Client.App/FirstScenario/LogDataExtensions.cs:88-116 | `Starting` iff `NotReady` meets output; `Running` iff `Starting` meets a "Listening for Jobs" line. `Shutdown` and completion iff a later state meets a non-output answer. |
| AgentState.Run | src/Client.App/FirstScenario/LogDataExtensions.cs:79-116 | States strictly increase, and the run completes iff it ends with `Shutdown`. |
| AgentState.WatchIsRunAfterStart | src/Client.App/FirstScenario/LogDataExtensions.cs:45-116 | Watching the events is running the step machine on the polls that arrive after the first start, up to the first failed poll. Polls before the start are ignored. A failure ends a still-open run with its error. |
| AgentState.WatchOrdered | src/Client.App/FirstScenario/LogDataExtensions.cs:79-116 | The watched states strictly increase, and the watch completes iff `Shutdown` is last. It errs iff a poll threw before completion, and then it carries that poll's error. |
| AgentState.AgentStateStream | src/Client.App/FirstScenario/LogDataExtensions.cs:37-120 | `NotReady` first, then states that strictly increase. `Shutdown` comes only last and exactly when the stream completes. The stream errs iff a poll after the start threw before completion. |
| AgentState.QuietUntilStarted | src/Client.App/FirstScenario/LogDataExtensions.cs:56-70 | Without a start signal the stream is just `NotReady` and stays open. |
| AgentState.NoTriggerNoPolls | src/Client.App/FirstScenario/LogDataExtensions.cs:56-70 | Without a start signal no poll reaches the step machine. |
| Gating.AgentGate | src/Client.App/Services/ObservableMeshClient.cs:114-120 | The switched agent stream can end with an error only if some poll threw. |
| Gating.AgentStatusStream | src/Client.App/Services/ObservableMeshClient.cs:35-124 | The gated agent stream starts with `Unknown`. If `Failed` appears, it appears once, as the last item, and the stream has completed after the application-failed signal. An error means some poll threw. |
| Gating.ServiceGate | src/Client.App/Services/ObservableMeshClient.cs:314-320 | The switched service stream completes only after a `NotFound` or `Failed` item. It can end with an error only if some service reading threw. |
| Gating.ServiceStatusStream | src/Client.App/Services/ObservableMeshClient.cs:242-324 | The gated service stream starts with `Unknown`, and on completion its last item is `NotFound` or `Failed`. An error means some service reading threw. |
| Gating.PollsOf | src/Client.App/Services/ObservableMeshClient.cs:46-53 | Each poll pair becomes one returned poll event, and no trigger appears among them. |
| Gating.AgentFailedIsFinal | src/Client.App/Services/ObservableMeshClient.cs:116-120 | If `Failed` appears, it is the last item, it appears once, the stream has completed, and the application-failed signal was among the events. |
| Gating.AgentWaitingIgnoresPolls | src/Client.App/Services/ObservableMeshClient.cs:114-123 | Before any trigger, the gated agent stream ignores polls. |
| Gating.AgentPollingIsRun | src/Client.App/Services/ObservableMeshClient.cs:42-112 | Once started, the gate is exactly the agent step machine over the polls. |
| Gating.AgentQuietUntilTriggered | src/Client.App/Services/ObservableMeshClient.cs:122-123 | Without a trigger the agent stream is `Unknown` and stays open. |
| Gating.AgentFailsBeforeStart | src/Client.App/Services/ObservableMeshClient.cs:116-123 | Application failure before a start gives `Unknown`, `Failed`, then completion, whatever follows. |
| Gating.AgentStartsPolling | src/Client.App/Services/ObservableMeshClient.cs:114-123 | A start after untriggered events gives `Unknown` followed by the step machine's run. |
| Gating.AgentRestartAfter | src/Client.App/Services/ObservableMeshClient.cs:114 | A second start while polling switches to a fresh machine: what was announced stays, and the new run follows it from `Unknown`. |
| Gating.AgentRunsInTurn | src/Client.App/Services/ObservableMeshClient.cs:114 | Two runs separated by a start are concatenated, the second starting afresh. |
| Gating.AgentStartFirst | src/Client.App/Services/ObservableMeshClient.cs:114-123 | A start as the first event gives `Unknown` followed by the fresh gate's output. |
| Gating.AgentRestart | src/Client.App/Services/ObservableMeshClient.cs:114-123 | Start, polls, start, polls: `Unknown`, the first run's states, then the second run's states and its ending. |
| Gating.ServiceReadings | src/Client.App/Services/ObservableMeshClient.cs:257-277 | Each service call is classified on its own. |
| Gating.ServiceWaitingIgnoresPolls | src/Client.App/Services/ObservableMeshClient.cs:314-323 | Before any trigger, the gated service stream ignores polls. |
| Gating.ServicePollingIsShape | src/Client.App/Services/ObservableMeshClient.cs:250-310 | Once started, the gate is exactly the status-poll shape over the classified readings. |
| Gating.ServiceQuietUntilTriggered | src/Client.App/Services/ObservableMeshClient.cs:322-323 | Without a trigger the service stream is `Unknown` and stays open. |
| Gating.ServiceFailsBeforeStart | src/Client.App/Services/ObservableMeshClient.cs:316-320 | Application failure before a start gives `Unknown`, `Failed`, then completion. |
| Gating.ServiceStartsPolling | src/Client.App/Services/ObservableMeshClient.cs:249-323 | A start gives the outer `Unknown`, then the polled stream with its own leading `Unknown`. |
| Fusion.Decide | src/Client.App/Services/MeshController.cs:97-127 | Each signal, both ways: ready iff all three are `Ready`; not ready iff all three are `Failed`; abort iff the application failed but not all did; start iff the application is creating; otherwise nothing. |
| Fusion.Verdict | src/Client.App/Services/MeshController.cs:97-113 | The readiness verdict is true iff all are ready, and false iff all have failed. |
| Fusion.With | src/Client.App/Services/MeshController.cs:83-85 | An update replaces its own stream's latest value and leaves the other two alone. A complete set of values stays complete. |
| Fusion.Combine | src/Client.App/Services/MeshController.cs:83-85 | Nothing is emitted until every stream has a value, then one triple per update, and consecutive triples differ in at most one position. The exact output is pinned down by `Fusion.CombineSnoc`. |
| Fusion.CombineAppend | src/Client.App/Services/MeshController.cs:83-85 | Combining two runs of updates is combining the first, then the second from where the first left the latest values. |
| Fusion.CombineSnoc | src/Client.App/Services/MeshController.cs:83-85 | A new update emits exactly one triple, the latest values after it, iff all three streams then have a value. Everything emitted before stays. |
| Fusion.CombineOncePerUpdate | src/Client.App/Services/MeshController.cs:83-85 | Once all three have a value after the first k updates, each later update emits exactly one triple, appended to what was emitted. |
| Fusion.CombineTracksLatest | src/Client.App/Services/MeshController.cs:83-85 | The last combined triple is the latest value of each stream, and output starts as soon as all three have one. |
| Fusion.Fire | src/Client.App/Services/MeshController.cs:101-102 | Firing a subject delivers the value and completes it; a completed subject ignores it. |
| Fusion.Evaluate | src/Client.App/Services/MeshController.cs:97-127 | Evaluating a triple keeps each subject delivering at most one value, and only when it completes. |
| Fusion.Apply | src/Client.App/Services/MeshController.cs:88-128 | The same invariant over any sequence of triples. |
| Fusion.Judged | src/Client.App/Services/MeshController.cs:83-86 | The judged triples have no adjacent duplicates, and there is at most one per update. |
| Fusion.JudgedSnoc | src/Client.App/Services/MeshController.cs:83-86 | A new update adds the new latest triple to the judged stream iff all three have a value and it differs from the last combined triple. Nothing judged before changes. |
| Fusion.Fuse | src/Client.App/Services/MeshController.cs:83-133 | The fused subjects each deliver at most one value, and only on completion. |
| Fusion.ApplyKeepsReady | src/Client.App/Services/MeshController.cs:101-102 | Once the ready subject has completed, later triples do not touch it. |
| Fusion.ApplyFiresReady | src/Client.App/Services/MeshController.cs:97-113 | The ready subject completes iff some triple is all-ready or all-failed. |
| Fusion.ApplyReadyIsFirstVerdict | src/Client.App/Services/MeshController.cs:97-113 | The one value it delivers is the verdict of the first decisive triple. |
| Fusion.ApplyFiresTriggers | src/Client.App/Services/MeshController.cs:115-127 | The application-failed and start-polling subjects complete iff some triple calls for them. |
| Fusion.FuseSignals | src/Client.App/Services/MeshController.cs:83-133 | Over the deduplicated combined stream, each subject fires iff some triple calls for it, and each delivers at most one value. |
| Fusion.ReadyExample | src/Client.App/Services/MeshController.cs:97-104 | Three ready statuses deliver exactly `true` and complete the ready subject. |
| Fusion.StopStep | src/Client.App/Services/MeshController.cs:129-133 | A completion is released by at most one event at a time, and a release clears the polling. A waiting completion is released only by a set event. A failure of the fused stream changes nothing, because the subscription has no error handler. |
| Fusion.StopRunAccounts | src/Client.App/Services/MeshController.cs:149-162 | Releases plus waiters equal the awaits. Releases plus a pending signal never exceed the stream completions. Polling is cleared once anything is released and untouched otherwise. |
| Fusion.StopWaitsForStreams | src/Client.App/Services/MeshController.cs:129-159 | Stop's completion waits for the fused stream to complete; in either order, the polling is disposed once both happened. If the fused stream fails instead, nothing is released and Stop keeps waiting. |
| Provisioning.Lookup | src/Client.App/Services/ObservableMeshClient.cs:373-378 | A variable is found iff some entry has that name, and the value returned is one such entry's value. |
| Provisioning.AgentName | src/Client.App/Services/ObservableMeshClient.cs:375 | The agent's name is "agent-" followed by the hyphen-free guid. |
| Provisioning.Describe | src/Client.App/Services/ObservableMeshClient.cs:349-389 | The deployment, the replica count and the agent name can all be read back from the description. |
| Provisioning.DescribeShape | src/Client.App/Services/ObservableMeshClient.cs:353-387 | One linux service "AzureAgentResource" in "eastus" with one container "AzureAgentContainer", three environment variables, and a request of 1 GB and 1 cpu. |
| Provisioning.AgentNameOfCanonicalGuid | src/Client.App/Common.cs:9 | With a canonical guid the agent name is 38 characters, "agent-" and 32 hexadecimal digits. |
| Provisioning.MeshName | src/Client.App/FirstScenario/ObservableMeshClient.cs:278 | The mesh name is the configured prefix followed by the hyphen-free guid. |
| Provisioning.CreateMesh | src/Client.App/FirstScenario/ObservableMeshClient.cs:276-324 | The request goes to the configured resource group under a fresh hyphen-free name, with a description that reads back as the deployment, no replica count and the agent's name. It succeeds iff the call does, returning the name; a failed call is passed on. |
| Provisioning.MeshNamesDiffer | src/Client.App/FirstScenario/ObservableMeshClient.cs:278 | Guids that clean differently give different mesh names. |
| Provisioning.MeshNameOfCanonicalGuid | src/Client.App/FirstScenario/ObservableMeshClient.cs:278 | With a canonical guid the mesh name is the prefix and 32 hexadecimal digits. |
| Provisioning.CreateOrEditMesh | src/Client.App/Services/ObservableMeshClient.cs:326-347 | The description reads back as the given deployment and replica count. The given name is returned iff the call succeeds, and a failure is passed on. |
| ScenarioController.Initialize | src/Client.App/FirstScenario/MeshController.cs:45-63 | The client is built from the first settings only. The settings are always replaced, and nothing else changes. |
| ScenarioController.Start | src/Client.App/FirstScenario/MeshController.cs:70-155 | An uninitialized controller throws "MeshController not initialized" and makes no call. Otherwise it names the mesh before creating it. It is started iff the create succeeds, and a failed create leaves the polling alone. |
| ScenarioController.Stop | src/Client.App/FirstScenario/MeshController.cs:296-313 | It deletes the current mesh in the configured resource group. Only a successful delete clears `started` and the polling; a failed one changes nothing. |
| ScenarioController.Toggle | src/Client.App/FirstScenario/MeshController.cs:65-68 | It creates iff stopped and initialized, and deletes iff started. A successful call flips `started`, and a failed one does not. |
| ScenarioController.Quit | src/Client.App/FirstScenario/MeshController.cs:322-334 | It deletes iff started. A stopped controller is left alone. |
| ScenarioController.ServiceSeen | src/Client.App/FirstScenario/MeshController.cs:126-143 | A log polling is handed over iff this is the first "Ready" service reading. Any other reading changes nothing, and the controller stays valid. |
| ScenarioController.LogPolledAtMostOnce | src/Client.App/FirstScenario/MeshController.cs:91-143 | Over any run of service readings, the log is polled once if "Ready" was ever seen and never otherwise. |
| ScenarioController.Session | src/Client.App/FirstScenario/MeshController.cs:45-155 | Initialize, toggle and toggle again create a mesh, then delete that same mesh and clear the polling. |
| ScenarioController.FailedCreateRetries | src/Client.App/FirstScenario/MeshController.cs:74-81 | After a failed create the controller is still stopped, and the next toggle creates again under a fresh name. |
| ScenarioModel.SequenceEqualIsEquality | src/Client.App/FirstScenario/Model/ServiceData.cs:17 | Element-wise comparison with a faithful element equality is sequence equality. |
| ScenarioModel.ArraysEqualIsEquality | src/Client.App/FirstScenario/Model/ApplicationData.cs:18 | Two nullable arrays compare equal iff both are null or both hold equal sequences. |
| ScenarioModel.CodePackageEquals | src/Client.App/FirstScenario/Model/ServiceCodePackage.cs:9-14 | A code package equals a nullable other iff the other is present and has the same name. |
| ScenarioModel.ApplicationServiceEquals | src/Client.App/FirstScenario/Model/ApplicationServiceData.cs:9-14 | An application service equals a nullable other iff the other is present and has the same health state. |
| ScenarioModel.ServiceDataEquals | src/Client.App/FirstScenario/Model/ServiceData.cs:13-19 | Service snapshots compare equal iff the other is present and every field, including the code packages, is equal. |
| ScenarioModel.ApplicationDataEquals | src/Client.App/FirstScenario/Model/ApplicationData.cs:13-20 | Application snapshots compare equal iff the other is present and every field, including the services, is equal. |
| ScenarioModel.SnapshotEqualsSymmetric | src/Client.App/FirstScenario/Model/ServiceData.cs:13-19 | Snapshot equality is symmetric. |
| ScenarioModel.CodePackagesCompared | src/Client.App/FirstScenario/Model/ServiceData.cs:17 | With equal scalar fields: two null arrays compare equal, one null and one present compare unequal, and present arrays of different lengths compare unequal. |
| ScenarioModel.ServiceDataEqualsObject | src/Client.App/FirstScenario/Model/ServiceData.cs:21-27 | Comparing against an arbitrary object is true iff it is a service snapshot equal to this one. |
| ScenarioModel.ApplicationDataEqualsObject | src/Client.App/FirstScenario/Model/ApplicationData.cs:22-28 | Comparing against an arbitrary object is true iff it is an equal application snapshot. |
| ScenarioModel.CodePackageEqualsObject | src/Client.App/FirstScenario/Model/ServiceCodePackage.cs:16-22 | Comparing against an arbitrary object is true iff it is an equal code package. |
| ScenarioModel.ApplicationServiceEqualsObject | src/Client.App/FirstScenario/Model/ApplicationServiceData.cs:16-22 | Comparing against an arbitrary object is true iff it is an equal application service. |
| ScenarioModel.HashAgreesWithEquals | src/Client.App/FirstScenario/Model/ServiceCodePackage.cs:24-27 | Equal code packages and equal application services have equal hash codes. |
| ScenarioModel.ServiceDataHashAsWritten | src/Client.App/FirstScenario/Model/ServiceData.cs:29-39 | As written, the hash agrees with the element-wise hash only when there is no array, or when the array object's own hash happens to equal its elements' hash. |
| ScenarioModel.ApplicationDataHashAsWritten | src/Client.App/FirstScenario/Model/ApplicationData.cs:30-40 | The same for application snapshots and their services array. |
| ScenarioModel.SnapshotHashAsWrittenBreaksEquality | src/Client.App/FirstScenario/Model/ServiceData.cs:29-39 | As written, a snapshot's hash takes the array object's own hash code. Two snapshots with equal contents but different array instances compare equal yet hash differently. |
| ScenarioModel.SnapshotHashAgreesWithEquals | src/Client.App/FirstScenario/Model/ApplicationData.cs:30-40 | With the array hashed element by element, snapshots that compare equal always hash equally. |

## Findings

| source | as written | input that shows it | evidently intended | confidence | as-written member | corrected member |
|---|---|---|---|---|---|---|
| src/Client.App/FirstScenario/Model/ServiceData.cs:29-39 | `Equals` compares `CodePackages` element by element, but `GetHashCode` mixes in `CodePackages.GetHashCode()`, the hash of the array instance | two `ServiceData` with all strings null and each its own empty `CodePackages` array whose instance hashes are 1 and 2 | equal snapshots hash equally, so the array's elements are hashed | high; not executed | ScenarioModel.SnapshotHashAsWrittenBreaksEquality | ScenarioModel.SnapshotHashAgreesWithEquals |
| src/Client.App/FirstScenario/Model/ApplicationData.cs:30-40 | the same for `Services`: element-wise in `Equals`, the array instance in `GetHashCode` | two `ApplicationData` with all strings null and each its own empty `Services` array whose instance hashes are 1 and 2 | equal snapshots hash equally | high; not executed | ScenarioModel.SnapshotHashAsWrittenBreaksEquality | ScenarioModel.SnapshotHashAgreesWithEquals |

## Left out

- Timing and scheduling: the one-second `Delay`, `Repeat`, `SubscribeOn`, `Replay`/`Connect` and the task-pool scheduler. A polling stream is modelled as the finite sequence of poll outcomes seen so far, ending `Open` when nothing has ended it yet.
- The management API itself: every call becomes an input outcome (returned value or thrown error), and the HTTP status and error code of an error are fields of that input.
- Random guids: `Guid.NewGuid()` is a string parameter of the members that clean it.
- Console output, `ColorConsole`, and all logging; the `outputContainerLogs` and `outputComponentStatus` flags only select output.
- `CombineLatest` of the log-response kind with the latest log line is not modelled as a stream operator: the agent step machines take the combined pair directly. `Fusion.Combine` models the three-way `CombineLatest` of the statuses as a fold over tagged updates, without interleaving.
- `SplitTuple`: the two halves of a poll are passed together as pairs. A failure of either half reaches the subscriber as the same error, so the pair's poll outcome carries it. This covers three cases: a thrown call, the reassembly's "Output shorter than expected" error, and a null log text. On the first scenario's agent-state path no null filter guards the reassembly, and the null would fail it.
- ScenarioAgent.AgentStream: which of the failures above occurred is not distinguished. The stream's error message is whatever the failed poll carries.
- The controller's `WhenChanges` is modelled as `DistinctUntilChanged` on the extracted data. `WhenChanges` itself is not part of this model.
- Fusion.Fuse: an error of the fused stream is not an input of the judging, which takes only status updates. The subscription at `Services/MeshController.cs:88-133` has no error handler, so under Rx the error would be rethrown on the scheduler. That rethrow is not modelled. The only consequence modelled is that the event is never set, in `Fusion.StopStep`.
- The feedback of the fused signals into the gated streams is not closed in one model. `Gating` takes the trigger events as input, and `Fusion` takes the status updates as input.
- The `AutoResetEvent` and the threads that block on it are reduced to the ordering machine `Fusion.StopRun`. Disposal of subscriptions is reduced to clearing the polling flag.
- The first scenario's log stream after the service turns ready (reassembled lines printed to the console) is reduced to counting the log pollings handed over. Its reassembly is `LogReassembly` and its per-call classification is `Classify.PolledLogText`.
- The service-backed `MeshController.Start` calls `CreateMesh` with an argument list that the service-backed client does not define, since it offers `CreateOrEditMesh`. It also passes the boolean `outputContainerLogs` where an integer replica is expected. The model uses `Provisioning.CreateOrEditMesh` and takes the replica as a separate input.
- `ResourceRequests(1, 1)` is recorded as a memory and cpu pair. The argument order is the management SDK's, which is not part of this model.
- The hash code of a string and of an array object are parameters (`stringHash`, `arrayIdentity`): the runtime's hash functions are not part of this model.
- Reference-equality shortcuts in the `Equals` members are not modelled separately: structural equality is reflexive, so they never change a result.
- The `DeleteMesh` calls are modelled only as the `Delete` call a step makes and its outcome.
- `Enum.Parse` also accepts numeric strings, comma-separated names and surrounding whitespace; the model parses exact member names only.
- `ScenarioAgent.AgentStep`: its own contract states only the completion rule; the other transitions are stated through `ScenarioAgent.StepAgrees`, which equates it with `Agent.AgentStep`.
- The input managers, the command-line parsing and `Program.cs` are callers of the core and are not part of this model.
