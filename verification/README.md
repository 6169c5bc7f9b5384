# Verified model of fx

fx is a single-node runtime for wasm functions. Its state lives in a few small machines that
are each driven by one queue of messages. This project models six of them in Dafny and proves
what they promise over every run.

`dafny verify dfyconfig.toml` checks everything.

Each machine is modelled twice: as a value with a step function, about which the theorems are
proved by induction over the run, and as a class whose methods update fields in place the way
the Rust code does, each method proved to be that step. The loops of the tasks are methods
whose result is proved to be the specified run.

| machine | files | what is proved about it |
|---|---|---|
| key-value task | `KvModel`, `KvVisible`, `KvExpiry`, `KvLease`, `KvPubSub`, `KvTask` | which value a `get` answers, off the log; lazy expiry cannot be told from eager expiry; `set nx px` with `delex` is a lease lock; a subscriber gets the exact suffix of its channel; namespaces do not interfere |
| metrics pipeline | `MetricsKeys`, `MetricsState`, `MetricsPipeline`, `MetricsRuns`, `MetricsGauges`, `MetricsTasks`, `MetricsText`, `MetricsDocument` | one id per metric; counters are conserved from every instance of every worker to the registry; gauges show the last value delivered; the text export reads back |
| resource ABI and SDK | `AbiHost`, `AbiGuest`, `AbiStages`, `AbiRequests`, `AbiSessions`, `AbiObjects` | conservation against any guest; a request reaches the guest as it came; with the SDK, every concurrent fetch gets exactly its own response and leaves nothing behind |
| cron scheduler | `CronModel`, `CronProperties`, `CronRate`, `CronTask` | one invocation per task in flight; complete passes; when a task is stuck; successes are bounded by schedule instants |
| worker routing | `RoutingModel`, `RoutingProperties`, `RoutingWorker` | the tables and every lookup are a function of the message log; nothing dangles |
| blob store | `BlobNames`, `BlobModel`, `BlobProperties`, `BlobTask` | the store is a map from names to bytes, and what remains of that when any I/O step may fail |

Things the environment decides are arguments: clock readings, which receivers are dropped and
when, which locks are held, which I/O steps fail, how long a future stays pending, what a host
body delivers, which address a guest passes, the hash function, lower-casing of host names,
the cron schedule, the text a float is printed as. The theorems quantify over all of them. The
assumptions are: a clock that never runs back (key-value store, success rate of cron tasks),
tokens that differ (late releases), deployment ids that never repeat (routing; proved of every
log built from the counter that hands them out), and no hash collision between the names a run
uses (blob store). For the key-value clock, the tokens and the deployment ids a lemma beside
the theorem gives a run that breaks the property without the assumption.

Where a promise does not hold of the code, the exact condition, or what holds instead, is proved,
and a run shows it.

- A delete that answers ok does not always erase the bytes. A get answers deleted bytes exactly
  when some delete took the row but left the file and a later put listed the object again
  without writing its own bytes (`DeletedBytesComeBackExactlyWhen`, `DeletedBytesCanComeBack`).
- A cron task is stuck in the running set until the next restart exactly when a pass started it
  although its schedule has no further instant, its endpoint does not parse, or management is
  gone when its future is polled (`NeverLeavesRunningExactlyWhen`, `ExhaustedScheduleGoesDown`).
- A redeploy leaves the old cron entries in place. A task follows its newest schedule in every
  run exactly when no schedule still listed permits a start that the newest does not
  (`FollowsExactlyWhen`, `OldScheduleStillRuns`); it always follows some listed schedule
  (`SuccessesArePaced`).
- A superseded deployment is never dropped (`KeptDeployments`, `SupersededIsKept`).
- A flush panics exactly when a visited instance holds a value under an id that was never handed
  out (`FlushPanicsExactlyWhen`, `RunPanicsExactlyWhen`, `UnknownIdPanics`).
- Increments are lost exactly when an instance is discarded with some not flushed
  (`OnlyDiscardedIncrementsAreLost`, `CompleteExactlyWhen`, `DiscardedIncrementsCanBeLost`).
- A fetch leaks its future exactly when it is dropped before it resolves
  (`FuturesLeakExactlyWhenAbandoned`, `AbandonedFetchLeaks`).

## Model

| member | source | states |
|---|---|---|
| `KvExpiry.LazyExpiryRefinesEager` | fx-runtime/src/tasks/kv.rs:78-110 | for every sequence of operations under a clock that never runs back, the store that keeps expired entries (and ignores expiry in `delex`) answers each one as a store that purges every expired entry first and then tests plain membership |
| `KvExpiry.RunsAgree` | fx-runtime/src/tasks/kv.rs:78-121 | after any prefix the two stores differ in entries already expired at the latest clock reading, and in nothing else |
| `KvExpiry.StepAgrees` | fx-runtime/src/tasks/kv.rs:78-121 | one operation on two such stores: same answer, and the stores stay alike |
| `KvExpiry.ClockStepBackRevivesEntry` | fx-runtime/src/tasks/kv.rs:74-76 | the clock assumption is needed: when the clock steps back an entry already reported gone is returned again |
| `KvVisible.GetAnswersExactly` | fx-runtime/src/tasks/kv.rs:78-110 | in any run, whatever the clock did, a get answers a value if and only if some accepted set of the key wrote it, with no `px` or with less than `px` gone since the clock reading of that set, and no later accepted set and no delex of that value came in between |
| `KvVisible.AnsweredInKind` | fx-runtime/src/tasks/kv.rs:130-149 | every request is answered in its kind, and a subscribe with a queue that is new and open |
| `KvVisible.SetRefusedExactly` | fx-runtime/src/tasks/kv.rs:78-81 | a set is refused if and only if it carries `nx` and such a value is there |
| `KvLease.HolderKeepsKey` | fx-runtime/src/tasks/kv.rs:78-110 | on a key only ever set with `nx`, an accepted entry stays exactly as granted through any messages until its own token is released or its expiry is read |
| `KvLease.SecondLeaseAfterFirst` | fx-runtime/src/tasks/kv.rs:78-110 | of two accepted acquires, the first was released or had expired before the second was granted |
| `KvLease.LeasesAreDisjoint` | fx-runtime/src/tasks/kv.rs:78-110 | no instant lies in two leases: each runs from its grant to the earlier of its expiry and the first release with its token |
| `KvLease.LateReleaseKeepsHolder` | fx-runtime/src/tasks/kv.rs:101-110 | a release by a superseded holder with its own token leaves the whole store unchanged, so the current holder keeps its lease |
| `KvLease.SharedTokenBreaksLock` | fx-runtime/src/tasks/kv.rs:101-110 | tokens must be unique: with a shared token a late release lets a third client in during a lease |
| `KvPubSub.KeptFacts` | fx-runtime/src/tasks/kv.rs:48-52 | pruning keeps exactly the listed subscribers whose receiver still exists, once each |
| `KvPubSub.DeliveredOnce` | fx-runtime/src/tasks/kv.rs:48-52 | a publish appends the data once to every open listed queue and changes no other |
| `KvPubSub.StoreMatchesIdeal` | fx-runtime/src/tasks/kv.rs:42-52 | in every reachable state the pruned, dropped and re-created channel table agrees with a flat list of all subscriptions; no listed channel is empty, no subscriber is listed twice or under two channels |
| `KvPubSub.QueueHoldsExactSuffix` | fx-runtime/src/tasks/kv.rs:112-121 | after any run, the queue answered to a subscribe holds exactly what was published on its channel since, in order, once each, up to the drop of its receiver |
| `KvTask.NamespaceIsolated` | fx-runtime/src/tasks/kv.rs:124-128 | the store of a namespace is the run of its own messages on a fresh store |
| `KvTask.NamespaceProjection` | fx-runtime/src/tasks/kv.rs:124-151 | in any interleaving every answer and the resulting store of a namespace are those of its own messages alone |
| `KvTask.Kv.Set` | fx-runtime/src/tasks/kv.rs:78-89 | refused exactly when `nx` meets a visible entry; otherwise the entry is written with its deadline, and only that entry |
| `KvTask.Kv.Get` | fx-runtime/src/tasks/kv.rs:91-99 | the value, unless missing or expired |
| `KvTask.Kv.Delex` | fx-runtime/src/tasks/kv.rs:101-110 | removes the entry exactly when the stored bytes are equal |
| `KvTask.Kv.Subscribe` | fx-runtime/src/tasks/kv.rs:112-114 | a fresh open queue at the end of the channel, which is created when missing |
| `KvTask.Kv.SendToSubscribers` | fx-runtime/src/tasks/kv.rs:48-52 | the retain loop over senders: keeps the open ones, delivers once to each |
| `KvTask.Kv.Publish` | fx-runtime/src/tasks/kv.rs:116-121 | delivers, prunes, and removes the channel when no subscriber is left |
| `KvTask.Kv.Handle` | fx-runtime/src/tasks/kv.rs:127-149 | one message on the object is one step of the store, with its answer |
| `KvTask.Kv.CloseQueue` | fx-runtime/src/tasks/kv.rs:42-52 | a receiver going away closes its own queue, keeps what it accepted, and touches no other |
| `KvTask.Dispatch` | fx-runtime/src/tasks/kv.rs:125-128 | finds or creates the namespace object; every other namespace object keeps its contents |
| `KvTask.RunKvTask` | fx-runtime/src/tasks/kv.rs:124-151 | the message loop: the objects hold, and the replies are, those of the specification run |
| `MetricsKeys.InsertLabelCorrect` | fx-runtime/src/function/abi/mod.rs:800 | inserting into a sorted label list keeps it sorted and adds just that label |
| `MetricsKeys.SortedIsUnique` | fx-runtime/src/function/abi/mod.rs:800 | a collection of labels has one sorted listing, so the choice of sorting algorithm does not matter |
| `MetricsKeys.LabelLeExactly` | fx-runtime/src/function/abi/mod.rs:800 | labels are ordered by name and then by value, each as in a dictionary |
| `MetricsKeys.CanonicalKeyIdentity` | fx-runtime/src/function/abi/mod.rs:775-804 | two registration requests build equal keys exactly when names match and label lists are permutations |
| `MetricsState.RegisterKeepsInterned` | fx-runtime/src/effects/metrics.rs:62-68 | registration keeps table and index inverse to each other, answers an index of the key and moves no other key |
| `MetricsState.AlwaysInterned` | fx-runtime/src/effects/metrics.rs:62-94 | the interning table is injective after any calls |
| `MetricsState.IdIndexesItsKey` | fx-runtime/src/effects/metrics.rs:62-68 | an answered id indexes its own key for ever |
| `MetricsState.SameIdExactlyForSameMetric` | fx-runtime/src/effects/metrics.rs:62-68 | two registrations in any run get one id exactly when the names match and the labels are permutations |
| `MetricsState.FlushFailsExactlyOnUnknownIds` | fx-runtime/src/effects/metrics.rs:78-88 | after any calls a flush panics exactly when a value not flushed yet was put under an id that no registration so far was answered with |
| `MetricsState.HandedOutExactly` | fx-runtime/src/effects/metrics.rs:62-68 | the ids that index a series are exactly those some registration was answered with |
| `MetricsState.FlushMergesNothing` | fx-runtime/src/effects/metrics.rs:78-94 | every pending counter reaches the delta under its own key, with its own value, and no two ids share a key |
| `MetricsState.PendingGaugeExactly` | fx-runtime/src/effects/metrics.rs:74-76 | after any calls a gauge is pending with a value if and only if it was last set to it and not flushed since: of two updates the later one counts |
| `MetricsState.FunctionMetricsState.CounterRegister` | fx-runtime/src/effects/metrics.rs:62-68 | the method is the specified registration and answers the index of the key |
| `MetricsState.FunctionMetricsState.CounterIncrement` | fx-runtime/src/effects/metrics.rs:70-72 | adds to the pending value of that id and to no other |
| `MetricsState.FunctionMetricsState.GaugeUpdate` | fx-runtime/src/effects/metrics.rs:74-76 | overwrites the pending gauge value of that id only |
| `MetricsState.FunctionMetricsState.Rekey` | fx-runtime/src/effects/metrics.rs:79-87 | the loop that re-keys pending values: fails exactly on an unknown id, otherwise loses and merges nothing |
| `MetricsState.FunctionMetricsState.FlushDelta` | fx-runtime/src/effects/metrics.rs:78-94 | hands out all pending values by key and leaves none |
| `MetricsPipeline.FlushAllMoves` | fx-runtime/src/tasks/worker/task.rs:433-459 | a worker flush that skips any instances and visits others in any order moves each visited pending value into the message, and neither creates nor loses a count |
| `MetricsPipeline.MergeCounts` | fx-runtime/src/effects/metrics.rs:113-121 | the registry grows, for each function and series, by exactly what the message carries |
| `MetricsPipeline.CountersAreConserved` | fx-runtime/src/tasks/worker/task.rs:422-475 | over every run that no panic ended, for every function and series: registry + messages under way + pending deltas == everything ever added, for any workers, deployments and interleaving; instances that were replaced or removed are counted, unknown ids are accounted for too |
| `MetricsPipeline.OnlyDiscardedIncrementsAreLost` | fx-runtime/src/tasks/worker/task.rs:422-475 | when everything live is flushed and delivered, the registry is short by exactly what discarded instances still hold, and complete exactly when they hold nothing |
| `MetricsRuns.InstancesFollowLog` | fx-runtime/src/tasks/worker/task.rs:422-475 | over every run each instance is where its deploy put it and its metrics are those of its own calls, a flush being one when the worker visits it alive |
| `MetricsRuns.CompleteExactlyWhen` | fx-runtime/src/tasks/worker/task.rs:422-475 | in terms of the actions alone: when every message is delivered and every live instance was flushed since it last counted, the registry has everything ever added to a series if and only if no instance of the function was discarded with an increment of that series not flushed |
| `MetricsPipeline.DiscardedIncrementsCanBeLost` | fx-runtime/src/tasks/worker/task.rs:433-459 | a run of six steps in which the registry never sees what an instance counted |
| `MetricsPipeline.FlushPanicsExactlyWhen` | fx-runtime/src/tasks/worker/task.rs:433-455 | a worker flush panics exactly when a visited live instance holds a value under an id never handed out |
| `MetricsRuns.RunPanicsExactlyWhen` | fx-runtime/src/effects/metrics.rs:78-88 | in terms of the actions alone: a run ends in a panic if and only if some flush visits a live instance that put a value, not flushed since, under an id none of its registrations was answered with |
| `MetricsPipeline.UnknownIdPanics` | fx-runtime/src/function/abi/mod.rs:825-827 | a run of three steps in which a guest counts under an id it was never given and the next flush panics |
| `MetricsPipeline.KnownIdsNeverPanic` | fx-runtime/src/tasks/worker/task.rs:422-475 | guests that only use ids they were given never bring a run to a panic |
| `MetricsGauges.FlushSendsLastVisited` | fx-runtime/src/tasks/worker/task.rs:440-459 | a flush message carries a gauge exactly when a visited instance of that function holds a value for it, and then the value of the last such instance |
| `MetricsGauges.FlushSendsLastSet` | fx-runtime/src/tasks/worker/task.rs:440-459 | in terms of the actions alone: a flush sends for a gauge the value it was last set to by the last instance it visits that set it since its last flush, and nothing when none did |
| `MetricsGauges.DeliveredInOrder` | fx-runtime/src/tasks/management/mod.rs:131-132 | the messages sent by flushes are those delivered followed by those under way: none lost, doubled or overtaken |
| `MetricsGauges.RegistryShowsLastCarried` | fx-runtime/src/effects/metrics.rs:289-291 | over every run the registry shows for a gauge the value in the last delivered message that carries it |
| `MetricsTasks.AppendCounters` | fx-runtime/src/effects/metrics.rs:284-287 | the append loop adds the counters key by key, on the union of the keys |
| `MetricsTasks.AppendGauges` | fx-runtime/src/effects/metrics.rs:289-291 | the append loop takes the later gauge value for each key |
| `MetricsTasks.AppendDelta` | fx-runtime/src/effects/metrics.rs:284-292 | counters add up and later gauge values win, independently of each other |
| `MetricsTasks.FlushDeployment` | fx-runtime/src/tasks/worker/task.rs:440-459 | one turn of the flush loop, with the empty delta skipped and an existing entry appended to, is one step of the specified flush |
| `MetricsTasks.WorkerMetricsFlush` | fx-runtime/src/tasks/worker/task.rs:422-475 | the loop over deployments with some locks held is the specified flush of the unlocked ones, and the resource counts sent along are, for each function, the sums over its unlocked deployments |
| `MetricsTasks.UnlockedExactly` | fx-runtime/src/tasks/worker/task.rs:440-445 | a flush visits each deployment whose lock is free once, and no other |
| `MetricsTasks.HeldIsSum` | fx-runtime/src/tasks/worker/task.rs:446-451 | each of the four resource counts of a function is the sum of that count over its unlocked deployments |
| `MetricsTasks.MetricsRegistry.Update` | fx-runtime/src/effects/metrics.rs:113-121 | the entry loop merges a message into the registry, whatever order the entries come in |
| `MetricsText.AppendLabelPairs` | fx-runtime/src/effects/metrics.rs:226-234 | the loop over the labels writes the pairs with commas between them |
| `MetricsText.AppendMetricLabels` | fx-runtime/src/effects/metrics.rs:219-237 | the pushes into the output string write the label block after what was there |
| `MetricsText.LabelNameMadeLegal` | fx-runtime/src/effects/metrics.rs:251-258 | a label name comes out legal if and only if it is not empty, a legal one comes out as it was, and only characters illegal at their place become underscores |
| `MetricsText.MetricNameMadeLegal` | fx-runtime/src/effects/metrics.rs:239-249 | a metric name comes out legal if and only if it is not empty and does not start with a digit, which the code keeps; a legal one comes out as it was |
| `MetricsText.EscapeIsOnePass` | fx-runtime/src/effects/metrics.rs:260-264 | the three successive replacements do what a single pass over the characters would |
| `MetricsText.EscapedHasNoNewline` | fx-runtime/src/effects/metrics.rs:260-264 | an escaped value never breaks the line |
| `MetricsText.ReadEscapedValue` | fx-runtime/src/effects/metrics.rs:260-264 | a reader recovers the exact value and stops at its closing quote, whatever follows |
| `MetricsText.LabelBlockRoundTrip` | fx-runtime/src/effects/metrics.rs:219-264 | a reader of the label block recovers the sanitized names and the exact values, in order, and stops right after the block |
| `MetricsDocument.FunctionNameSanitized` | fx-runtime/src/effects/metrics.rs:189-199 | the composed function metric name equals the sanitized form of the whole name, although the function id is sanitized twice |
| `MetricsDocument.FunctionNameLegal` | fx-runtime/src/effects/metrics.rs:189-199 | the name of a function metric is always legal |
| `MetricsDocument.AppendSeries` | fx-runtime/src/effects/metrics.rs:139-152 | the nine pushes of one series write its two lines |
| `MetricsDocument.AppendFunctionCounters` | fx-runtime/src/effects/metrics.rs:189-212 | the inner loop over one function writes one series per counter, under names built from both parts |
| `MetricsDocument.Encode` | fx-runtime/src/effects/metrics.rs:135-217 | the export loops write the runtime counters, float counters, gauges and function counters, series by series, in iteration order |
| `MetricsDocument.ExportedAt` | fx-runtime/src/effects/metrics.rs:135-217 | what the export holds, place by place: which name, labels, kind and number comes from which table entry |
| `MetricsDocument.FunctionSeriesAt` | fx-runtime/src/effects/metrics.rs:187-213 | each counter of each function is exported once, at its place, as `function_`, function id, `_`, counter name |
| `MetricsDocument.DecimalReadsBack` | fx-runtime/src/effects/metrics.rs:150 | a written value, negative ones included, reads back exactly |
| `MetricsDocument.DocumentRoundTrip` | fx-runtime/src/effects/metrics.rs:139-152 | any series of the two-line form read back: sanitized names, exact labels, kinds and integers, and floats as printed, in order |
| `MetricsDocument.ExportReadsBack` | fx-runtime/src/effects/metrics.rs:135-217 | the text of all four tables reads back as their series |
| `AbiStages.StagesAreConserved` | fx-runtime/src/function/abi/mod.rs:142-491 | for arbitrary calls with arbitrary ids and result addresses: fetches started == live futures + live results + results serialized, frames produced == live frames + frames serialized, requests received == live requests + requests serialized, messages serialized == live messages + messages moved, bodies received == live bodies + bodies dropped, handed over or sent as an answer |
| `AbiStages.ConsumedAtMostOnce` | fx-runtime/src/function/abi/mod.rs:217-221 | for arbitrary calls, a bytes resource is moved at most once and a body is handed over, sent as an answer or dropped at most once |
| `AbiRequests.RequestReachesGuest` | fx-runtime/src/function/abi/mod.rs:142-187 | whatever the guest calls in between, short of reading that request or touching its body, a received request reaches it with exactly its head and the key of a body that is still the one received; the tables hold what they held, less the request |
| `AbiRequests.ResponseSendsBody` | fx-runtime/src/function/instance.rs:457-464 | a response that names an untouched request body sends exactly the body received, and takes just that out; one that names no live body sends none and changes nothing |
| `AbiRequests.RefusedFetches` | fx-runtime/src/function/abi/mod.rs:585-745 | what a fetch is refused with, case by case: no readable request, no host name, a body that is not live or not readable, a malformed head, and which of two comes first for which target |
| `AbiRequests.AddressDecidesAnswerOnly` | fx-runtime/src/function/abi/mod.rs:217-491 | for every call: the address the guest passes decides whether the answer is written and which code says so, and never what happens to the tables; an unknown key is answered as such and changes nothing |
| `AbiStages.StepCountsFetches` | fx-runtime/src/function/abi/mod.rs:288-350 | one call changes live futures plus live results by the fetch it starts, less the result it serializes, and by nothing else |
| `AbiStages.StepAddsOnlyNewKeys` | fx-runtime/src/resources/resource.rs:81-113 | no call brings back a key that left a table |
| `AbiGuest.PollFetchEffect` | fx-sdk/src/api/http.rs:477-555 | one guest poll of a live fetch: still pending, or the exact result with the future gone and the results and bytes tables as before |
| `AbiGuest.PollBodyEffect` | fx-sdk/src/api/http.rs:345-397 | one guest poll of a live body: the next event of that body and no frame or message left behind |
| `AbiRequests.TakeRequestEffect` | fx-sdk/src/api/http.rs:160-175 | reading a request gives what the table held, takes just that out and leaves no message behind |
| `AbiGuest.PollsGoneWrong` | fx-sdk/src/api/http.rs:345-360 | a poll outside a poll of the instance, or of a key the host does not have, is answered by the error for it and changes nothing |
| `AbiGuest.ItemsNext` | fx-sdk/src/api/http.rs:345-397 | what a poll yields followed by what it leaves is what the body had to say |
| `AbiSessions.AlwaysGood` | fx-sdk/src/api/http.rs:437-470 | for any number of concurrent fetches polled, read, abandoned, closed and handed on in any interleaving, each host entry belongs to exactly one owner and each reader is in step with its own body |
| `AbiSessions.EverySessionReadsItsOwnBody` | fx-sdk/src/api/http.rs:345-397 | every reader has the status and headers of its own response, has seen a prefix of exactly its body, and all of it once told the stream ended |
| `AbiSessions.SettledSessionsLeaveNothing` | fx-sdk/src/api/http.rs:299-305 | when every fetch has resolved and every body was dropped or handed on, all five host tables hold what they held at the start, less the starting bodies that were handed over |
| `AbiSessions.FuturesLeakExactlyWhenAbandoned` | fx-sdk/src/api/http.rs:437-470 | the futures table is back to its start exactly when no fetch is still waiting and none was dropped before it resolved |
| `AbiSessions.AbandonedFetchLeaks` | fx-sdk/src/api/http.rs:467-470 | a run of two steps that leaves a future behind, whatever the fetch was |
| `AbiObjects.FunctionResources.FxFetch` | fx-runtime/src/function/abi/mod.rs:534-750 | a handed-over body leaves its table whatever else is wrong with the request, one future is started, and its error has the precedence of the code: no readable request, no host name, then head before body for a bound function and body before head otherwise |
| `AbiObjects.FunctionResources.FxFetchResultFuturePoll` | fx-runtime/src/function/abi/mod.rs:288-335 | all codes and table changes of a poll, including a result produced although its id could not be written |
| `AbiObjects.FunctionResources.FxFetchResultSerialize` | fx-runtime/src/function/abi/mod.rs:337-408 | the result leaves its table first; body and message are inserted; the write may still fail |
| `AbiObjects.FunctionResources.FxHttpBodyPollFrame` | fx-runtime/src/function/abi/mod.rs:410-447 | one event of the body becomes a frame, or stays pending, or the body is unknown |
| `AbiObjects.FunctionResources.FxHttpBodyDrop` | fx-runtime/src/function/abi/mod.rs:449-451 | the body leaves the table; an unknown id changes nothing |
| `AbiObjects.FunctionResources.FxHttpFrameSerialize` | fx-runtime/src/function/abi/mod.rs:453-491 | the frame becomes a message exactly once |
| `AbiObjects.FunctionResources.FxBytesMove` | fx-runtime/src/function/abi/mod.rs:217-239 | the message leaves the table even when the copy fails |
| `AbiObjects.FunctionResources.FxFetchRequestHeaderSerialize` | fx-runtime/src/function/abi/mod.rs:142-187 | an incoming request becomes a message exactly once, naming its body |
| `AbiObjects.FunctionResources.ReceiveRequest` | fx-runtime/src/function/deployment.rs:183 | a request and its body, if any, get fresh keys |
| `AbiObjects.FunctionResources.TakeResponseBody` | fx-runtime/src/function/instance.rs:462-463 | the body a response names leaves its table; none when there is no such body |
| `AbiObjects.HttpBody.IntoInner` | fx-sdk/src/api/http.rs:337-339 | the resource is taken out, so that a later drop of this value drops nothing |
| `AbiObjects.HttpBody.Drop` | fx-sdk/src/api/http.rs:299-305 | drops the host resource exactly when one is still held |
| `AbiObjects.HttpBody.PollNext` | fx-sdk/src/api/http.rs:345-397 | an empty body ends; a stream of the guest's own gives its next event, and panics exactly on an error; a host body is polled |
| `AbiObjects.PollHostBody` | fx-sdk/src/api/http.rs:352-394 | the three host calls of a poll in order, with the error answer of each |
| `AbiObjects.PollFetchFuture` | fx-sdk/src/api/http.rs:477-555 | the three host calls of a fetch poll in order, as specified |
| `AbiObjects.AwaitFetch` | fx-sdk/src/api/http.rs:477-555 | polling until ready gives the exact result and leaves one new body, or nothing on failure |
| `AbiObjects.ReadToEnd` | fx-sdk/src/api/http.rs:345-397 | polling to the end gives every chunk and error of the body in order, once each |
| `AbiObjects.ReadAndDrop` | fx-sdk/src/api/http.rs:299-305 | reading a body to its end and dropping it gives every item and takes just that body out of the tables |
| `AbiObjects.FetchAndReadAll` | fx-sdk/src/api/http.rs:437-470 | fetch, read to the end and drop: an error for a request without host or with a malformed head, otherwise the exact status, headers and body, any number of pending polls; all tables as before minus a handed-over request body |
| `CronProperties.AtMostOneFlightPerTask` | fx-runtime/src/tasks/cron.rs:131-172 | in every reachable state in-flight futures have distinct task ids, and the running set is exactly their ids plus those whose future returned early, through redeploys with duplicate entries and futures finishing in any order |
| `CronProperties.NeverLeavesRunningExactlyWhen` | fx-runtime/src/tasks/cron.rs:131-204 | a task never leaves the running set before a restart, so that no pass starts it again, if and only if since the last restart a pass started it from an entry whose schedule has no instant after that pass's clock or whose endpoint does not parse, or management was gone when its future was first polled or is gone while it still waits for that; every other task is out of the set or has events that take it out. (A task outside the set may still be skipped by every pass, when no instant follows its last success.) |
| `CronProperties.DownForGoodExactlyWhen` | fx-runtime/src/tasks/cron.rs:172-204 | the id of a task counts as running with nothing in flight if and only if one of its futures returned early since the last restart, and then it stays so until a restart |
| `CronProperties.InFlightIsWaiting` | fx-runtime/src/tasks/cron.rs:172-178 | every future not polled yet was started by a pass since the last restart, from the first due entry of its task, and has waited since |
| `CronProperties.ExhaustedScheduleGoesDown` | fx-runtime/src/tasks/cron.rs:172-180 | a run in which a task whose schedule has no further instant is stuck after its first start |
| `CronProperties.PassIsComplete` | fx-runtime/src/tasks/cron.rs:126-258 | after a pass every entry is running or was not due, and the new futures are exactly one for each task with a due entry that was not running, from its first due entry and at that clock reading; due means readable, and never run or permitted by the schedule after the last run |
| `CronRate.EntriesFollowLog` | fx-runtime/src/tasks/cron.rs:107-116 | the entries are exactly the triggers added since the last restart, each with its function, schedule and endpoint |
| `CronRate.NeverRunIsStarted` | fx-runtime/src/tasks/cron.rs:138-172 | a task that was added, has no recorded run and does not count as running is started by the next pass that can read its last run time |
| `CronRate.TableHoldsLatest` | fx-runtime/src/triggers/cron.rs:26-75 | the persistent table holds the latest recorded success of each task, over any run with restarts |
| `CronRate.SuccessesArePaced` | fx-runtime/src/tasks/cron.rs:138-164 | with a clock that never runs back, each recorded success is of a future whose start followed the next instant, after the success before it, of some schedule under which the task was listed since the last restart; in any order of completions, failures and retries |
| `CronRate.OneSchedulePaces` | fx-runtime/src/tasks/cron.rs:138-164 | a task listed under one schedule only never succeeds twice without an instant of that schedule in between |
| `CronRate.SuccessesBoundedByInstants` | fx-runtime/src/tasks/cron.rs:230-248 | n recorded successes need, between the first and the last, at least n - 1 instants at which one of the schedules of the task fires |
| `CronRate.FollowsExactlyWhen` | fx-runtime/src/tasks/cron.rs:107-164 | of the schedules a task may be listed under, its successes follow a given one in every run if and only if no other of them permits a start, with an instant to come, that the given one does not |
| `CronRate.OldScheduleStillRuns` | fx-runtime/src/tasks/cron.rs:107-116 | for any two schedules and any such start: a redeploy prepends the later one, the earlier entry stays and starts the task, and the success is recorded |
| `CronRate.RedeployCanBeIgnored` | fx-runtime/src/tasks/cron.rs:107-116 | a pair of schedules of which the earlier is followed in every run and the later, newer one is not |
| `CronTask.CronTaskState.ScheduleAdd` | fx-runtime/src/tasks/cron.rs:107-116 | the new entries go in front, the old ones stay |
| `CronTask.CronTaskState.RunTasks` | fx-runtime/src/tasks/cron.rs:126-258 | the loop with its early continues starts exactly what the specified pass starts |
| `CronTask.CronTaskState.Begin` | fx-runtime/src/tasks/cron.rs:172-204 | the three early returns in order: the future ends without leaving the running set exactly when there is no next instant, nobody listens, or the endpoint does not parse; otherwise it goes on to invoke |
| `CronTask.CronTaskState.Settle` | fx-runtime/src/tasks/cron.rs:212-234 | the run time is written exactly on success |
| `CronTask.CronTaskState.Finish` | fx-runtime/src/tasks/cron.rs:236-248 | the id leaves the running set and the future ends |
| `CronTask.CronTaskState.UpdateRunTime` | fx-runtime/src/triggers/cron.rs:66-75 | overwrites the row of that task only |
| `CronTask.RunCronTask` | fx-runtime/src/tasks/cron.rs:78-122 | the select loop over any order of events gives the specified run |
| `RoutingProperties.HostTableFollowsLog` | fx-runtime/src/tasks/worker/task.rs:245-249 | after any log, host h maps to f exactly when some deploy of f lists h and no later message deploys f, removes f or lists h |
| `RoutingProperties.DefaultFollowsLog` | fx-runtime/src/tasks/worker/task.rs:250-261 | the default is f exactly when f was the last deploy with a host-less listener and was not removed since |
| `RoutingProperties.FunctionTableFollowsLog` | fx-runtime/src/tasks/worker/task.rs:237-268 | f is in the function table exactly when its last message is a deploy, and then with the id of that deploy |
| `RoutingProperties.TablesAgree` | fx-runtime/src/tasks/worker/task.rs:237-268 | with fresh ids, in every reachable state each table entry leads to an entry of the next table, for the same function |
| `RoutingProperties.RoutingNeverDangles` | fx-runtime/src/triggers/http.rs:75-79 | with fresh ids the chained lookup finds a deployment exactly when there is a target, it is the target's own latest one, and two functions never share one |
| `RoutingProperties.RouteFollowsLog` | fx-runtime/src/triggers/http.rs:75-79 | with fresh ids, in terms of the log alone: a request is answered by the latest deployment of the function that claims its host; when nobody claims it, or it names none, of the function that claims the default; and by "no function found" if and only if there is neither |
| `RoutingProperties.InvocationFollowsLog` | fx-runtime/src/tasks/worker/task.rs:275-297 | an invocation reaches the deployment of the last deploy of the function, and none exactly when there is none or it was removed since |
| `RoutingProperties.RemovedFunctionUnreachable` | fx-runtime/src/tasks/worker/task.rs:254-297 | a removed function is never a target and cannot be invoked until it is deployed again |
| `RoutingProperties.SharedIdDangles` | fx-runtime/src/definitions/monitor.rs:350-354 | fresh ids are needed: with a shared id a removal leaves another function dangling |
| `RoutingProperties.KeptDeployments` | fx-runtime/src/tasks/worker/task.rs:237-268 | exactly which deployments are held, in terms of the log alone: every loaded one that no removal found to be the latest of its function, so a superseded one is kept for ever |
| `RoutingProperties.SupersededIsKept` | fx-runtime/src/tasks/worker/task.rs:237-241 | a run of three messages that leaves a deployment behind which nothing can reach |
| `RoutingWorker.Worker.HandleMessage` | fx-runtime/src/tasks/worker/task.rs:187-274 | the in-place table updates of a deploy (nothing when loading fails) and of a remove |
| `RoutingWorker.Worker.RetainOtherHosts` | fx-runtime/src/tasks/worker/task.rs:247 | drops every host of that function and no other |
| `RoutingWorker.Worker.AnyWithoutHost` | fx-runtime/src/tasks/worker/task.rs:250 | the any loop: true exactly when a listener has no host |
| `RoutingWorker.Worker.ExtendHosts` | fx-runtime/src/tasks/worker/task.rs:248 | extends the host table by the lower-cased hosts of the listeners |
| `RoutingWorker.Worker.RouteRequest` | fx-runtime/src/triggers/http.rs:75-79 | the read-only chain of lookups |
| `RoutingWorker.RunWorker` | fx-runtime/src/tasks/worker/task.rs:117-143 | the tables after the message loop are those of the log |
| `RoutingWorker.DefinitionsMonitor.NextDeploymentId` | fx-runtime/src/definitions/monitor.rs:350-354 | answers the counter and advances it |
| `RoutingWorker.CounterGivesFreshIds` | fx-runtime/src/definitions/monitor.rs:350-354 | ids drawn in order never repeat, with draws in between that reached no worker |
| `RoutingWorker.DefinitionsMonitor.ApplyAll` | fx-runtime/src/definitions/monitor.rs:225-232 | every log of deploys and removes built by drawing from the counter has fresh deployment ids, configurations that do not compile included |
| `BlobNames.BigEndian32ReadsBack` | fx-runtime/src/tasks/blob.rs:145 | the four-byte prefix reads back as the length, modulo 2^32 |
| `BlobNames.EncodedAlike` | fx-runtime/src/tasks/blob.rs:143-149 | two names feed the same bytes to the hash exactly when bucket ++ key agree and the bucket lengths agree modulo 2^32 |
| `BlobNames.EncodedInjective` | fx-runtime/src/tasks/blob.rs:143-149 | below 4 GiB of bucket name the hash input tells all names apart |
| `BlobNames.LongBucketNamesClash` | fx-runtime/src/tasks/blob.rs:145 | at 4 GiB it does not: a concrete pair of names with one hash input |
| `BlobNames.KeyPathSpells` | fx-runtime/src/tasks/blob.rs:151-165 | two directory levels of two hex digits each and a file name of the rest spell the hash |
| `BlobNames.KeyPathInjective` | fx-runtime/src/tasks/blob.rs:151-165 | different hashes have different file paths |
| `BlobProperties.IndexAlwaysSound` | fx-runtime/src/tasks/blob.rs:204-275 | through any failures bucket ids stay distinct, every object row belongs to a bucket and carries the hash of its own name |
| `BlobProperties.StoreIsSlotwise` | fx-runtime/src/tasks/blob.rs:77-139 | the whole store seen through one object is a two-field machine driven by the requests for that object only |
| `BlobProperties.GetAnswersSlot` | fx-runtime/src/tasks/blob.rs:94-115 | a get answers a value exactly when the object is listed and its file is there and readable, and never "not found" for a listed object |
| `BlobProperties.GetFindsNothingExactly` | fx-runtime/src/tasks/blob.rs:94-104 | a get answers "nothing" if and only if the bucket was never indexed or the object is not listed, and the steps to find that out worked |
| `BlobProperties.PutAnswersExactly` | fx-runtime/src/tasks/blob.rs:79-93 | a put answers ok if and only if all its steps worked |
| `BlobProperties.DeleteAnswersExactly` | fx-runtime/src/tasks/blob.rs:116-137 | a delete answers ok if and only if it found nothing to delete, or deleted the row and the file |
| `BlobProperties.RowExactlyBy` | fx-runtime/src/tasks/blob.rs:217-225 | the row of an object carries its hash and the size of the value that was indexed last |
| `BlobProperties.BlobStoreRefinesMap` | fx-runtime/src/tasks/blob.rs:77-139 | when all I/O succeeds every answer is that of a map from (bucket, key) to bytes, and index and files agree with the map |
| `BlobProperties.ListedExactlyBy` | fx-runtime/src/tasks/blob.rs:217-225 | an object is listed exactly when some put indexed it and no later delete took the row out |
| `BlobProperties.FileExactlyWrittenBy` | fx-runtime/src/tasks/blob.rs:87-93 | a file exists exactly when some put stored it and nothing erased it since, and it holds that put's value |
| `BlobProperties.ReturnedValuesWerePut` | fx-runtime/src/tasks/blob.rs:77-115 | with any step allowed to fail, returned bytes are the value of the last put of that very object that answered ok |
| `BlobProperties.DeletedStaysDeleted` | fx-runtime/src/tasks/blob.rs:116-137 | after a delete that answered ok no get returns a value until the next put of that object |
| `BlobProperties.DeletedBytesComeBackExactlyWhen` | fx-runtime/src/tasks/blob.rs:77-139 | for every get: it answers bytes deleted before if and only if its own steps work and the log holds the put of these bytes, a later delete that took the row but left the file, and a still later put that listed the object but left the file again |
| `BlobProperties.DeletedBytesCanComeBack` | fx-runtime/src/tasks/blob.rs:77-137 | such a run: a delete answers ok, the next put fails, and a get returns the deleted bytes |
| `BlobTask.IndexDb.GetOrCreateBucket` | fx-runtime/src/tasks/blob.rs:204-215 | inserts the bucket unless it exists and answers its id |
| `BlobTask.IndexDb.PutObject` | fx-runtime/src/tasks/blob.rs:217-225 | replaces the row of that object, with the bucket created even when the row could not be written |
| `BlobTask.IndexDb.GetObject` | fx-runtime/src/tasks/blob.rs:227-244 | the hash of a listed object, nothing for an unlisted one, an error when a query fails |
| `BlobTask.IndexDb.DeleteObject` | fx-runtime/src/tasks/blob.rs:246-275 | takes the row out and answers its hash; nothing changes otherwise |
| `BlobTask.BlobStore.Handle` | fx-runtime/src/tasks/blob.rs:77-139 | one message on index and files is one step of the specification, with its answer |
| `BlobTask.RunBlobTask` | fx-runtime/src/tasks/blob.rs:46-139 | the message loop gives the specified disk and answers |

## Left out

- Sockets, HTTP parsing, wasm instantiation and execution, thread pinning and logging: libraries and I/O. Of a deployment only its outcome (loaded or not) is modelled.
- SQL execution, batches and migrations: the guarantees are SQLite's. Rows of the blob index and of the cron table are modelled as maps; a query works or fails without effect.
- Wrap-around of `u64` counters and `i64` gauges, and overflow of a deadline beyond the range of the system clock: numbers are unbounded.
- How an `f64` is printed: a float counter comes as its text, any characters without a line break.
- The iteration order of hash maps is an argument where it can be seen (the export) and proved irrelevant where it cannot (re-keying, append, merge).
- Which of two workers' flushes is delivered last is the order in which they send; no order across workers is claimed for gauges.
- The gauges made from the resource counts of a flush message, and the shutdown paths when a channel is closed.
- Conformance of the export to the Prometheus text format beyond reading back: it writes one TYPE line per series.
- The return value of the cron pass and the sleep deadline: passes, and first polls of futures, may happen at any time. A task whose message channel to management is full waits; that is a later first poll.
- An invocation that timed out may still be executing on its worker: at most one in flight is about the futures of the cron task.
- Cron expressions and the text form of stored times: a schedule is the function from a time to its next instant, and stored times read back exactly.
- RoutingWorker.CounterGivesFreshIds: assumes messages reach the worker in the order their ids were drawn; distinctness itself does not depend on it.
- A `Host` header that is not valid text is answered with 400 before any lookup.
- BlobProperties.ReturnedValuesWerePut: a failing file write is taken to leave the file as it was; a truncated file and a crash between the two updates of a put are not modelled.
- BLAKE3: the hash is any function to 64 hex digits; no collision is assumed between the names used in the run, and bucket names shorter than 4 GiB.
- Cap'n Proto: an exact encoding, so the bytes table holds the messages themselves; the length a serialize call also returns, and `fx_bytes_len`, which only reads it, are left out.
- The translation between host and guest error enumerations: error codes are opaque numbers.
- Parsing of a fetch request beyond which of its parts are readable, the choice of its target, and streams produced by a guest function: an accepted fetch is any script of pending polls ended by any result. A refused fetch may also stay pending for some polls, where most are ready at once.
- The resource tables are maps held in fields, with a counter of fresh keys instead of slot versions; a version that wraps around is not modelled.
- `HttpBody::read_all`, which concatenates the chunks and panics on a stream error: the consumer here takes chunks and errors as they come.
- How a guest's response is polled and parsed: only the body it takes out of the tables is modelled. A request's head is one piece of opaque bytes.
- Future tables on the guest side, background tasks, timers and the other effects of the ABI.
- Clean-up of superseded deployments and removal driven by reconciliation: the code does neither.
