# Verified models of the backend's scripts, container and middlewares

This project models the self-contained algorithms, state machines and protocols of the
backend in Dafny and proves what they guarantee. Each module follows one component.

| module | component |
|---|---|
| `Common` | the option type, distinctness, and selection of list elements in order |
| `Graphs` | walks, reachability, cycles and topological orders, shared by the next two |
| `CircularDeps` | the import-cycle checker: a depth-first search with a visited set, a recursion stack and a path |
| `DependencyInjection` | the service container: lazy resolution, memoised singletons, scopes |
| `RateLimiter` | the sliding-window limiter, in memory and through Redis, with its three outage modes |
| `Reindex` | the paginated reindexer: cursor loop, outcome counters, de-duplicating store |
| `CappedAdapters` | the FIFO concurrency limiter of the AI load test, split at its await points |
| `Percentiles` | the two percentile formulas of the load tests |
| `Consumers` | the competing AMQP consumers of the multi-instance worker test |
| `LogShipper` | the batching HTTP log destination |
| `Text`, `Etag` | trimming, the If-None-Match matcher and the 304 decision |
| `Redact` | the redaction of logged request bodies |
| `OpenApiDrift` | the comparison of Express routes with documented paths |
| `SanitizeText`, `Sanitize` | the cleaning of strings and the in-place walk over a request body |

Code that updates state is a class or a method proved against a specification function
(`RateLimiter.Limiter`, `CircularDeps.CycleDetector`, `Sanitize.SanitizeValue`, ...); what the
component promises is then proved of the specification, for every input, run or interleaving.
Protocols are state machines: a run is any sequence of enabled steps.

Where the code falls short of what one would expect of it, the exact condition is proved:

- `CappedAdapter` promises in its comment that only `cap` calls are let through at once. At some
  point of a run the calls then present can come to exceed the cap, without a further arrival,
  exactly if some call of the run arrived while the free places were promised to woken waiters
  (`CapExceedableIffSomebodyBarges`); whether they do depends on which of them ends first
  (`BargingHappens`, `BargingMayStayWithinCap`). A cap below one serves nobody.
- The worker test asserts that both instances process work. The assertion holds exactly in the
  runs that deliver a job to each of them (`AllWorkIffAllDelivered`), and the protocol does not
  force that (`OneConsumerMayDoEverything`).
- A dependency that was cleared is not rebuilt by resolving a service that is itself still kept:
  after a successful resolution a truthy singleton is kept if and only if it was kept before or is
  reached without passing through one that was (`ResolvedSingletons`, `ClearedUnderDependent`).
- The If-None-Match matcher never matches a server tag with a comma; for every other tag it is the
  weak comparison of RFC 9110 (`MatcherIsWeakComparison`). The base64 tags of the code have none.
- A documented path survives the rewrite to an Express route and back exactly when each of its
  parameters ends its segment (`DocumentedRoundTrip`); a route that itself starts with `/api` can
  be documented and stale at once (`PrefixedRouteMayBeStale`).
- Redaction drops a body field named `__proto__`, because assigning that key to a fresh record
  sets the record's prototype; the kernel of redaction says so (`RedactionKernel`).
- Truncation comes after trimming, so it can leave a trailing space, and exactly then cleaning the
  stored string again changes it (`SecondCleaning`).
- The floor percentile reads the next index exactly when `p` percent of the sample is a whole
  number below the sample size (`FloorIndexVersusRank`).

## Model

| member | source | states |
|---|---|---|
| Graphs.ReachesUnfold | src/container.ts:45-78 | reachability is the node itself or reachability from one of its dependencies |
| Graphs.OnCycleUnfold | src/container.ts:52-56 | a node is on a cycle if and only if one of its dependencies leads back to it |
| Graphs.RankFallsAlongWalk | scripts/check-circular-deps.js:121-156 | along any walk the position in a topological order falls |
| Graphs.TopologicalOrderExcludesCycles | scripts/check-circular-deps.js:121-156 | a graph with a topological order has no cycle |
| Graphs.AvoidingLeaves | scripts/check-circular-deps.js:139-146 | what a node reaches around a set is itself and what its dependencies reach around the set and the node |
| Graphs.OneMoreStart | scripts/check-circular-deps.js:144-146 | one more start adds exactly what it reaches around all that the earlier ones reach |
| CircularDeps.InternalImports | scripts/check-circular-deps.js:105-110 | the dependencies of a file are exactly the imports that resolve to a scanned file |
| CircularDeps.ImportsKeptInOrder | scripts/check-circular-deps.js:105-110 | each import of a scanned file is listed once per occurrence, in order of occurrence |
| CircularDeps.Dependencies | scripts/check-circular-deps.js:103-110 | the loop collects those imports in order, with repetitions |
| CircularDeps.BuildDependencyGraph | scripts/check-circular-deps.js:98-116 | the graph has one entry per scanned file, in file order, and every edge ends at a scanned file |
| CircularDeps.CycleDetector.Dfs | scripts/check-circular-deps.js:126-149 | visits the node, restores the recursion stack, keeps the path equal to the stack in order, reports exactly the edges that run into the stack, is entered once plus once per edge of the nodes it finishes, and adds finished nodes and reports exactly as the recursive definition of the search does, in its order |
| CircularDeps.CycleDetector.Expand | scripts/check-circular-deps.js:143-146 | afterwards all dependencies of the node are visited and those found active are reported, with multiplicity; whatever a dependency reaches around the nodes visited before finishes before the next dependency is entered |
| CircularDeps.DetectCircularDependencies | scripts/check-circular-deps.js:121-156 | reports nothing if and only if the graph is acyclic, and then the finish order is topological; every report is a simple cycle; the closing edges of the reports are the back edges of the finish order, with multiplicity; every node is finished once; `dfs` is entered once per node and once per edge; roots are searched in file order, so a root not reached from earlier ones finishes no earlier than anything it reaches, and reports closed by what the first roots reach come first |
| CircularDeps.SearchFinishes | scripts/check-circular-deps.js:126-149 | a call on an unvisited node finishes exactly the nodes it reaches around the visited ones, itself last |
| CircularDeps.SearchAllInTurn | scripts/check-circular-deps.js:143-153 | everything the earlier nodes of a list reach finishes before the next one is entered |
| CircularDeps.RootReportsInTurn | scripts/check-circular-deps.js:151-155 | the reports come root by root |
| CircularDeps.RootsFinishLast | scripts/check-circular-deps.js:151-153 | a root that no earlier root reaches finishes no earlier than anything it reaches |
| CircularDeps.NoBackEdgesMeansTopological | scripts/check-circular-deps.js:126-149 | a finish order without back edges lists every node after its dependencies |
| CircularDeps.OutEdgesSameNodes | scripts/check-circular-deps.js:143-153 | the edge count of a listing depends only on the nodes with an entry, not on order or extra nodes |
| CircularDeps.LeaveNode | scripts/check-circular-deps.js:148 | deleting a node with visited dependencies from the stack keeps the search invariant, path and stack still equal |
| CircularDeps.AccountReport | scripts/check-circular-deps.js:127-133 | the slice of the path from the node, closed with the node, is a simple cycle and accounts for the edge just followed |
| CircularDeps.AccountFinish | scripts/check-circular-deps.js:144-148 | when a node finishes, its edges into the stack become its back edges |
| CircularDeps.NothingReportedIffAcyclic | scripts/check-circular-deps.js:151-155 | once all nodes are finished, no report means acyclic and the reverse |
| DependencyInjection.ConstructSucceedsIff | src/container.ts:45-78 | cacheless construction succeeds if and only if everything reachable is registered, does not throw, is on no cycle and is not under construction |
| DependencyInjection.ConstructibleIffResolvable | src/container.ts:45-78 | from outside, that is reachability of sound services only |
| DependencyInjection.ConstructMonotone | src/container.ts:52-56 | a successful construction gives the same value whatever fewer services are under construction |
| DependencyInjection.ConstructKept | src/container.ts:26-40 | registering a new name changes no value that could be built before |
| DependencyInjection.ConstructFromParts | src/container.ts:66-73 | a service is built from its dependencies each built on its own, and none of them leads back to it |
| DependencyInjection.PartsInOrder | src/container.ts:66 | the parts of a product are its dependencies' values, one for each listed name, in order |
| DependencyInjection.RanThen | src/container.ts:58-73 | what runs for one more dependency adds up with what ran before: once per instance that becomes kept, once per use of anything else |
| DependencyInjection.RanCompletes | src/container.ts:62-73 | likewise when a factory completes after its dependencies |
| DependencyInjection.ResolvedSingletons | src/container.ts:58-73 | after a successful resolution a truthy singleton is kept if and only if it was before or is reached around those that were, as the plainly constructed value; its factory completed once in the second case and otherwise not |
| DependencyInjection.FreshResolution | src/container.ts:58-73 | when nothing it reaches was kept, everything memoised it reaches is built once and kept |
| DependencyInjection.ClearedUnderDependent | src/container.ts:58-95 | a concrete container in which a resolved service's cleared dependency stays cleared |
| DependencyInjection.ResolutionDecides | src/container.ts:45-78 | a result in agreement with construction is a value exactly for resolvable services |
| DependencyInjection.ChainRevisited | src/container.ts:52-56 | a name met again on the resolution stack really is on a dependency cycle and cannot be built |
| DependencyInjection.FailurePropagates | src/container.ts:66-77 | the first dependency that cannot be built ends the run of the factory with its failure |
| DependencyInjection.StoreInstance | src/container.ts:68-71 | caching the product keeps every cached instance equal to plain construction and counts one completion |
| DependencyInjection.RegisterAgrees | src/container.ts:35-39 | a new registration keeps every cached instance equal to plain construction |
| DependencyInjection.Container.Register | src/container.ts:26-40 | a taken name is refused and nothing changes; a new one is added without an instance |
| DependencyInjection.Container.Resolve | src/container.ts:45-78 | returns a value if and only if the service is resolvable, whatever is cached; the value is the plainly constructed one; an error names a true cause; the stack is as before; only services reachable from the name are touched; the factory completes once unless a truthy singleton is cached, and then not at all; in the log of all completions, each truthy singleton occurs once when it becomes kept and any other service once per use, and on success exactly the singletons reached around the kept ones become kept |
| DependencyInjection.Container.Build | src/container.ts:62-77 | the stack is restored on success and on error |
| DependencyInjection.Container.RunFactory | src/container.ts:66 | the dependencies are resolved in order through the container; the result is the product of all their values, or a true cause of why the first one that cannot be built cannot |
| DependencyInjection.Container.Store | src/container.ts:68-71 | exactly singletons keep their instance |
| DependencyInjection.Container.Clear | src/container.ts:90-95 | drops the instance of that service and of no other |
| DependencyInjection.Container.ClearAll | src/container.ts:100-104 | drops every instance and keeps the container consistent |
| DependencyInjection.Container.CreateScope | src/container.ts:116-128 | a fresh container with the same registrations, its own descriptors and no instances |
| DependencyInjection.ResolveInScope | src/container.ts:116-128 | resolving in a scope agrees with construction and never changes the parent's instances |
| RateLimiter.Limiter.Sweep | src/middlewares/rateLimiter.ts:33-37 | removes exactly the keys whose newest hit is stale |
| RateLimiter.LiveInOrder | src/middlewares/rateLimiter.ts:38 | the live hits are those of the key strictly after now - windowMs, once each, in order of arrival |
| RateLimiter.SweepAgrees | src/middlewares/rateLimiter.ts:33-37 | the sweep changes no later count |
| RateLimiter.PushAgrees | src/middlewares/rateLimiter.ts:38-40 | filtering one key and appending the hit keeps the store equivalent to the complete log |
| RateLimiter.Limiter.MemoryCount | src/middlewares/rateLimiter.ts:32-42 | returns this hit plus the earlier hits of the key in (now - windowMs, now], as counted in the complete log, and leaves exactly those hits stored |
| RateLimiter.ExpiryKeepsLiveHits | src/middlewares/rateLimiter.ts:59 | the expiry in whole seconds never drops a hit that still counts |
| RateLimiter.AddAgrees | src/middlewares/rateLimiter.ts:52-59 | the pipeline keeps the sorted sets equivalent to the complete log |
| RateLimiter.RedisStore.Pipeline | src/middlewares/rateLimiter.ts:50-63 | ZCARD replies the count that the in-memory form gives on the same hits |
| RateLimiter.Limiter.Handle | src/middlewares/rateLimiter.ts:44-113 | which requests are admitted, refused with 429 or with 503, in every mode and for every outcome of the Redis round trip, with the Retry-After bounds; a request is logged even when it is refused |
| RateLimiter.Dispatch | src/middlewares/rateLimiter.ts:44-113 | one request at one of several instances decides as the complete logs do |
| RateLimiter.Serve | src/middlewares/rateLimiter.ts:44-113 | over every run of several instances sharing one Redis, pruning, sweeping and expiry change no decision |
| RateLimiter.AdmittedAreLogged | src/middlewares/rateLimiter.ts:32-63 | every counted admission in a window is a live hit of the log it was counted in |
| RateLimiter.ChannelBound | src/middlewares/rateLimiter.ts:93-106 | at most `max` admissions per key and window through Redis, and through each memory |
| RateLimiter.InstanceSplits | src/middlewares/rateLimiter.ts:64-91 | an instance admits through Redis or its own memory only |
| RateLimiter.TotalSplits | src/middlewares/rateLimiter.ts:64-91 | all admissions are those through Redis, through the memories, and the uncounted ones |
| RateLimiter.WindowBound | src/middlewares/rateLimiter.ts:44-113 | in every window of every run: at most `max` when failing closed, `2 * max` per instance and `(instances + 1) * max` in all with the memory fallback, `max` plus the outages when failing open |
| RateLimiter.WindowBoundAttained | src/middlewares/rateLimiter.ts:44-113 | for every window, limit and number of instances some run with the memory fallback attains both bounds |
| RateLimiter.ClosedBoundAttained | src/middlewares/rateLimiter.ts:44-113 | and some run that fails closed attains `max` |
| Reindex.Store.Upsert | src/services/IndexedEventService.ts:50-96 | for complete keys and a single writer: inserts only an absent key and reports which; a failed write stores and reports nothing |
| Reindex.Summary.ProcessReindexEvent | src/cli/reindex.ts:55-80 | one event moves counters and store as specified for each outcome of decoder and write |
| Reindex.ProcessPage | src/cli/reindex.ts:106-113 | a page processes exactly its in-range events in order, and says whether it went past the end |
| Reindex.PageAdvances | src/cli/reindex.ts:105-114 | once a page of an ordered log goes past the end, nothing in range is left |
| Reindex.PageProcessed | src/cli/reindex.ts:106-114 | a page extends the processed prefix, and past the end completes it |
| Reindex.HonestPage | src/cli/reindex.ts:100-104 | each request continues where the last page ended; only a tip page lacks a cursor |
| Reindex.RepeatedCursor | src/cli/reindex.ts:115-117 | a cursor seen before is that of the tip with an empty page, so the exit loses nothing and the error is unreachable for an honest service |
| Reindex.FetchAll | src/cli/reindex.ts:96-121 | the cursor loop terminates and processes each event with from <= ledger <= to exactly once and no other |
| Reindex.ReindexRange | src/cli/reindex.ts:82-127 | bad options change nothing and are reported; otherwise summary and store are those of processing the range once |
| Reindex.HonestServiceExists | src/cli/reindex.ts:100-104 | every ordered log has a service that meets the paging contract |
| Reindex.Conservation | src/cli/reindex.ts:63-79 | a real run keeps fetched = skipped + failed + inserted + alreadyPresent and adds one row per insertion; a dry run keeps fetched = skipped + failed + sum of perType and writes nothing |
| Reindex.InRangeInOrder | src/cli/reindex.ts:107-112 | the processed events are those with from <= ledger <= to, once per occurrence, in order |
| Reindex.AcceptedOptions | src/cli/reindex.ts:31-46 | exactly the options in bounds with a known network and contract pass; otherwise the first failing check is reported |
| Reindex.OutcomesCounted | src/cli/reindex.ts:63-79 | skipped counts the events the decoder ignores, failed those it rejects and those whose write is refused, alreadyPresent and inserted the written ones whose four-part key was and was not stored before |
| Reindex.TypesCounted | src/cli/reindex.ts:70 | each per-type counter is the number of decoded events of its type, and only types that occurred are listed |
| Reindex.RowsOnlyGrow | src/services/IndexedEventService.ts:59-67 | a run keeps every row, and each new key is that of one of its events |
| Reindex.RerunInsertsNothing | src/cli/reindex.ts:71-75 | after a failure-free run, a rerun inserts nothing and changes no row |
| Reindex.RerunRepairs | src/cli/reindex.ts:71-79 | a failure-free rerun of a failed run stores the keys that a failure-free run would have |
| Reindex.RangeSplits | src/cli/reindex.ts:107-111 | in an ordered log, the events of [a, c] are those of [a, b] followed by those of [b + 1, c] |
| Reindex.SplitRunsAgree | src/entities/IndexedEvent.ts:19 | reindexing [a, b] and then [b + 1, c] leaves the store that reindexing [a, c] leaves |
| CappedAdapters.CappedAdapter.Begin | scripts/load-test-ai-concurrency.ts:121-129 | an arrival queues at the back or starts, and a call that starts at once records its wait |
| CappedAdapters.CappedAdapter.Continue | scripts/load-test-ai-concurrency.ts:126-129 | a woken call starts and records the time since it arrived |
| CappedAdapters.CappedAdapter.Finish | scripts/load-test-ai-concurrency.ts:130-133 | a call that ends wakes the first waiter, if any |
| CappedAdapters.StepKeepsInvariant | scripts/load-test-ai-concurrency.ts:121-134 | every step keeps: active counts the running calls, waiters wake in queue order, nobody waits unless all places are taken or promised |
| CappedAdapters.QueuedAsTheyArrive | scripts/load-test-ai-concurrency.ts:123-125 | the calls that ever queued are the arrivals that found no place free, in the order of their arrival |
| CappedAdapters.WokenAsTheyArrive | scripts/load-test-ai-concurrency.ts:124-132 | the woken calls followed by the waiting ones are those arrivals, in that order: first come, first served |
| CappedAdapters.RunKeepsInvariant | scripts/load-test-ai-concurrency.ts:121-134 | so does every interleaving |
| CappedAdapters.StuckMeansDone | scripts/load-test-ai-concurrency.ts:123-133 | with a positive cap, a state in which nothing can go on has served everybody |
| CappedAdapters.EveryScheduleDrains | scripts/load-test-ai-concurrency.ts:121-134 | every schedule of the calls present ends after a fixed number of steps, with all of them served in queue order |
| CappedAdapters.NoCapNoService | scripts/load-test-ai-concurrency.ts:123-125 | a cap below one leaves every arrival waiting for ever |
| CappedAdapters.CapKeptIffNobodyBarges | scripts/load-test-ai-concurrency.ts:123-133 | active and woken calls together stay within the cap along a run if and only if no call arrives while a free place is promised to a waiter |
| CappedAdapters.CommittedCanAllRun | scripts/load-test-ai-concurrency.ts:124-126 | the woken calls can all become active at once, by steps of the calls present |
| CappedAdapters.InternalStepsKeepCap | scripts/load-test-ai-concurrency.ts:126-133 | without arrivals, no schedule leads from within the cap, woken calls included, to more active calls than it |
| CappedAdapters.OvershootIffOvercommitted | scripts/load-test-ai-concurrency.ts:123-133 | the calls present can come to have more of them active than the cap if and only if active and woken calls together are more |
| CappedAdapters.CapExceedableIffSomebodyBarges | scripts/load-test-ai-concurrency.ts:123-133 | at some point of a run the calls present can exceed the cap on active calls if and only if some arrival of the run barges |
| CappedAdapters.CommittedBoundsActive | scripts/load-test-ai-concurrency.ts:126 | a run that keeps active and woken calls within the cap keeps the active ones within it |
| CappedAdapters.BargingMayStayWithinCap | scripts/load-test-ai-concurrency.ts:123-133 | a concrete barging run that never exceeds the cap |
| CappedAdapters.BargingOvershoots | scripts/load-test-ai-concurrency.ts:123-126 | after a barging arrival more calls than the cap can be active |
| CappedAdapters.BargingHappens | scripts/load-test-ai-concurrency.ts:123-133 | a concrete run with two active calls under a cap of one |
| CappedAdapters.BatchNeverBarges | scripts/load-test-ai-concurrency.ts:160-161 | when all calls arrive before the first ends, none barges |
| CappedAdapters.BatchStaysWithinCap | scripts/load-test-ai-concurrency.ts:160-161 | then the number of active calls is within the cap throughout |
| Percentiles.PercentileIsNearestRank | scripts/load-test-ai-concurrency.ts:76-80 | for 0 < p <= 100 the result is the least sample value that at least p percent of the sample do not exceed |
| Percentiles.NearestRankIsUnique | scripts/load-test-ai-concurrency.ts:76-80 | that value is unique |
| Percentiles.PercentileIsMonotone | scripts/load-test-ai-concurrency.ts:93-95 | a larger p never gives a smaller value |
| Percentiles.CountIsOrderFree | scripts/load-test-ai-concurrency.ts:89 | the count of values up to a bound is that of the unsorted sample |
| Percentiles.FloorIndexVersusRank | scripts/load-test-streaming.ts:127-134 | the floor formula reads the nearest-rank index, or the next one, and exactly when |
| Percentiles.Summarize | scripts/load-test-ai-concurrency.ts:82-101 | p50, p95, p99 and max are the nearest ranks of the unsorted durations, in order; no duration exceeds max; an empty sample gives zeros; throughput times wall time is the number of calls |
| Percentiles.LargestWait | scripts/load-test-ai-concurrency.ts:99 | the largest queue wait, zero without waits |
| Consumers.ParentProcess.HandleMessage | scripts/test-worker-multi-instance.js:58-76 | the message handler does what the protocol's parent step does |
| Consumers.ChildProcess.HandleDelivery | scripts/test-worker-multi-instance.js:11-14 | a delivery raises the active count and reports it |
| Consumers.ChildProcess.HandleTimer | scripts/test-worker-multi-instance.js:15-18 | the count falls and the ack is written before the report |
| Consumers.SubscribeOk | scripts/test-worker-multi-instance.js:11-20 | a new subscription keeps the protocol invariant |
| Consumers.DeliverOk | scripts/test-worker-multi-instance.js:11-14 | so does a delivery under prefetch 1 |
| Consumers.FinishOk | scripts/test-worker-multi-instance.js:15-18 | so does the end of a job |
| Consumers.SettleAckOk | scripts/test-worker-multi-instance.js:17 | so does the broker taking an ack |
| Consumers.ReceiveActiveOk | scripts/test-worker-multi-instance.js:60 | a reported active count is 1, so the assertion holds |
| Consumers.ReceiveDoneOk | scripts/test-worker-multi-instance.js:66-71 | a reported job is known and new, so the assertions hold |
| Consumers.ReceiveReadyOk | scripts/test-worker-multi-instance.js:61-65 | the jobs are published once, when the last consumer is ready |
| Consumers.CloseOk | scripts/test-worker-multi-instance.js:21-25 | a close flushes the acks and keeps the invariant |
| Consumers.StopOk | scripts/test-worker-multi-instance.js:83-92 | stopping after the last report keeps the invariant |
| Consumers.StepOk | scripts/test-worker-multi-instance.js:6-97 | every step keeps the invariant |
| Consumers.EveryRunIsSafe | scripts/test-worker-multi-instance.js:6-97 | every interleaving, for any number of jobs and consumers: no message assertion fails, at most one active job per consumer, each job in exactly one place, each completion reported once, the final counts are the numbers of deliveries to each consumer, queue empty and all jobs acknowledged after the closes |
| Consumers.InvariantConserves | scripts/test-worker-multi-instance.js:6-97 | queued, unacknowledged and acknowledged jobs are conserved |
| Consumers.InvariantReportsOnce | scripts/test-worker-multi-instance.js:66-69 | a completion is reported exactly for the jobs whose ack was written, never twice |
| Consumers.ClosedMeansDrained | scripts/test-worker-multi-instance.js:83-97 | after all closes the queue is empty and every job is acknowledged |
| Consumers.NoDeadlock | scripts/test-worker-multi-instance.js:6-97 | until all consumers have closed some step can be taken |
| Consumers.EveryRunCanGoOn | scripts/test-worker-multi-instance.js:6-97 | so no run is stuck before its end |
| Consumers.StepTakes | scripts/test-worker-multi-instance.js:11-19 | only a delivery to a consumer adds to the jobs it handles, reports or has counted, and no step takes any away |
| Consumers.DeliveriesAreCounted | scripts/test-worker-multi-instance.js:66-71 | when the parent has heard of every job, its count for a consumer is the number of deliveries to it |
| Consumers.AllWorkIffAllDelivered | scripts/test-worker-multi-instance.js:79-82 | the assertion that both instances process work holds if and only if each was delivered a job |
| Consumers.StepPays | scripts/test-worker-multi-instance.js:6-97 | every step brings the run closer to its end |
| Consumers.EveryRunEnds | scripts/test-worker-multi-instance.js:6-97 | no run has more than three steps per consumer, five per job and one |
| Consumers.MaximalRunDrains | scripts/test-worker-multi-instance.js:83-97 | a run that cannot go on has closed every consumer, emptied the queue, and left every job seen and acknowledged |
| Consumers.OneConsumerMayDoEverything | scripts/test-worker-multi-instance.js:79-82 | the assertion that both instances process work can fail: for every number of jobs a run gives them all to one consumer |
| LogShipper.HttpLogShipper.Flush | src/config/logger.ts:77-81 | a non-empty buffer becomes one batch, an empty one sends nothing |
| LogShipper.HttpLogShipper.Write | src/config/logger.ts:115-123 | adds the trimmed line; nothing lost, repeated or reordered; batches of at most 50; a timer is pending exactly when lines wait |
| LogShipper.HttpLogShipper.Fire | src/config/logger.ts:120-122 | the timer ships what waits |
| LogShipper.Replay | src/config/logger.ts:74-124 | any interleaving of writes and timer firings: the batches followed by the buffer are the trimmed lines in order, once each, with at most 49 waiting |
| Text.TrimMeans | src/config/logger.ts:116 | trimming takes away the white space and line terminators of ECMAScript at both ends and nothing else |
| Text.OccursIffHolds | src/middlewares/requestLogger.ts:28 | a search ignoring case finds a word exactly where it stands in some capitalisation |
| Etag.SplitAtComma | src/middlewares/etag.ts:72 | splitting at commas distributes over a comma |
| Etag.CommaTagNeverMatches | src/middlewares/etag.ts:70-72 | a foreign tag with a comma falls into pieces none of which is the server's tag |
| Etag.PlainTagMatches | src/middlewares/etag.ts:70-72 | a tag without a comma matches if and only if the opaque parts agree, weak or not |
| Etag.ListIsNoWildcard | src/middlewares/etag.ts:68 | a list of tags is never mistaken for the wildcard |
| Etag.MatcherIsWeakComparison | src/middlewares/etag.ts:66-73 | on every well-formed list the matcher is satisfied if and only if the weak comparison of sections 13.1.2 and 8.8.3.2 of RFC 9110 is and the server's tag has no comma |
| Etag.WildcardMatches | src/middlewares/etag.ts:68 | a padded `*` matches any tag |
| Etag.Response.Json | src/middlewares/etag.ts:84-108 | status, headers and body of the reply in every case: only a GET or HEAD with a status from 200 to 299 gets validators; then 304 without body, success with validators, or untouched, also when computing the tag throws |
| Etag.OwnTagMatchesItself | src/middlewares/etag.ts:56-73 | with an injective hash, one payload's tag matches another's if and only if the payloads are equal |
| Etag.RunKeepsStored | src/middlewares/etag.ts:84-108 | a client's stored tag always belongs to its stored body |
| Etag.RevalidationIsFresh | src/middlewares/etag.ts:84-108 | over any run of changes and conditional requests, a successful request leaves the client with the current body |
| Redact.RedactSensitive | src/middlewares/requestLogger.ts:20-37 | the loops compute the specified redaction |
| Redact.RedactArray | src/middlewares/requestLogger.ts:24 | arrays are redacted element by element |
| Redact.RedactRecord | src/middlewares/requestLogger.ts:25-35 | records are redacted field by field |
| Redact.SensitiveMeansSecret | src/middlewares/requestLogger.ts:16 | a key is sensitive if and only if one of the nine words stands in it in any capitalisation |
| Redact.SecretsAreMasked | src/middlewares/requestLogger.ts:27-33 | a field with such a key is replaced by "[REDACTED]", any other holds the redaction of its value |
| Redact.MaskedBelowFive | src/middlewares/requestLogger.ts:21 | values stand as they are five levels deep, the sixth level is "[max-depth]" |
| Redact.RedactTwice | src/middlewares/requestLogger.ts:20-37 | redacting twice is redacting once |
| Redact.ProtoIsNotSensitive | src/middlewares/requestLogger.ts:16 | the prototype key is not a sensitive one |
| Redact.KeysKept | src/middlewares/requestLogger.ts:27-33 | a redacted record has the same keys in the same order, without the prototype key |
| Redact.LookupRedacted | src/middlewares/requestLogger.ts:27-33 | a visible field holds the redaction of its value |
| Redact.EqualMeansAgree | src/middlewares/requestLogger.ts:20-37 | bodies that redact alike agree at every visible position down to depth 5 |
| Redact.AgreeMeansEqual | src/middlewares/requestLogger.ts:20-37 | bodies that agree at every visible position redact alike |
| Redact.RedactionKernel | src/middlewares/requestLogger.ts:20-37 | two bodies are indistinguishable in the log if and only if they agree at every position down to depth 5 not under a sensitive or the prototype key |
| OpenApiDrift.RouteRoundTrip | scripts/check-openapi-drift.js:58 | a brace-free route path survives the rewrite to braces and back |
| OpenApiDrift.DocumentedRoundTrip | scripts/check-openapi-drift.js:76 | a documented path survives the rewrite to colons and back if and only if each parameter ends its segment |
| OpenApiDrift.ParameterGetsBraces | scripts/check-openapi-drift.js:58 | an Express parameter becomes the same name in braces, the rest of its path rewritten alike |
| OpenApiDrift.ParameterGetsColon | scripts/check-openapi-drift.js:76 | and a documented one the same name after a colon |
| OpenApiDrift.NoParameters | scripts/check-openapi-drift.js:58-76 | a path without parameters stays as it is |
| OpenApiDrift.StripApiMeans | scripts/check-openapi-drift.js:76 | a leading `/api` is taken off, and nothing else |
| OpenApiDrift.MissingInOrder | scripts/check-openapi-drift.js:57-63 | each route of which neither form is documented is listed once per occurrence, in order |
| OpenApiDrift.StaleInOrder | scripts/check-openapi-drift.js:75-81 | likewise each documented path that no route accounts for |
| OpenApiDrift.CheckDrift | scripts/check-openapi-drift.js:55-81 | the two loops compute the missing routes and the stale paths |
| OpenApiDrift.MissingMeans | scripts/check-openapi-drift.js:57-63 | a route is missing if and only if neither of its forms is documented |
| OpenApiDrift.StaleMeans | scripts/check-openapi-drift.js:75-81 | a documented path is stale if and only if no route has its Express form |
| OpenApiDrift.DocumentedFormIsNotStale | scripts/check-openapi-drift.js:57-81 | a route counted as documented under its API form is never stale under it |
| OpenApiDrift.NoDriftIffPathsCoincide | scripts/check-openapi-drift.js:91 | for routes that do not start with `/api/`: zero missing and zero stale, with every parameter ending its segment, if and only if the two path sets coincide |
| OpenApiDrift.PrefixedRouteMayBeStale | scripts/check-openapi-drift.js:60-77 | a documented route that starts with the API prefix is not missing, yet stale unless the rest of its path is also a route |
| SanitizeText.SanitizeString | src/middlewares/sanitizeInput.ts:115-135 | the step-by-step rewriting computes `CleanUp` of whatever the markup passes leave |
| SanitizeText.SqueezeIsJoinedWords | src/middlewares/sanitizeInput.ts:127 | collapsing and trimming gives exactly the words of the text, one space apart |
| SanitizeText.CleanUpKeepsWords | src/middlewares/sanitizeInput.ts:123-132 | the result is the words without dangerous characters, all or as far as the field limit allows |
| SanitizeText.CleanUpCleans | src/middlewares/sanitizeInput.ts:123-134 | no control or invisible character, no white space but single spaces, no leading space, and the field limit respected |
| SanitizeText.DropsTheDangerous | src/middlewares/sanitizeInput.ts:123-124 | the two passes drop exactly the listed control and invisible code units and keep all others in order |
| SanitizeText.StoredCharacters | src/middlewares/sanitizeInput.ts:123-127 | the stored string has none of those code units, and of all white space only single U+0020, none in front |
| SanitizeText.LimitByField | src/middlewares/sanitizeInput.ts:92-101 | 200 for the five name fields, 5000 for the four bio fields, in any capitalisation, and none otherwise |
| SanitizeText.LimitsApplied | src/middlewares/sanitizeInput.ts:129-132 | the stored string is the first 200, the first 5000 or all code units of the squeezed text, by the field |
| SanitizeText.UnchangedIffClean | src/middlewares/sanitizeInput.ts:123-134 | a string is left alone if and only if it is clean and does not end with a space |
| SanitizeText.SecondCleaning | src/middlewares/sanitizeInput.ts:127-132 | cleaning again drops one space exactly if truncation cut right after a space, and else changes nothing |
| SanitizeText.CutAfterSpaceHappens | src/middlewares/sanitizeInput.ts:129-132 | a family of inputs for which it does |
| Sanitize.SanitizeValue | src/middlewares/sanitizeInput.ts:147-174 | rewrites the heap tree in place into the specified tree, in the same objects, and adds the number of changed leaves to `fieldsModified` |
| Sanitize.SanitizeArray | src/middlewares/sanitizeInput.ts:160-165 | so for the slots of an array, under the inherited key |
| Sanitize.SanitizeRecord | src/middlewares/sanitizeInput.ts:167-171 | so for the fields of a record, each under its own key |
| Sanitize.SkippedTypes | src/middlewares/sanitizeInput.ts:181-188 | a request is skipped if and only if one of the six types stands in its content type in any capitalisation |
| Sanitize.SanitizeInput | src/middlewares/sanitizeInput.ts:181-222 | bodies of skipped content types, buffers and non-objects pass unchanged; others are sanitized from depth 0, and the logged count is that of the changed leaves |
| Sanitize.SanitizedAt | src/middlewares/sanitizeInput.ts:147-174 | the value at a position of the result is the sanitized value at that position of the input, under the governing key and depth |
| Sanitize.OnlyShallowStringsChange | src/middlewares/sanitizeInput.ts:147-174 | nothing is added or removed, containers stay the same objects with the same size, and only strings at most 10 levels down change |
| Sanitize.StoredStringsAreClean | src/middlewares/sanitizeInput.ts:147-158 | every string at most 10 levels down ends up clean for the key that governs it |
| Sanitize.ElementsInheritKey | src/middlewares/sanitizeInput.ts:160-164 | array elements are cleaned under the key of the array |
| Sanitize.FieldsUseOwnKey | src/middlewares/sanitizeInput.ts:168-170 | a field of a record is cleaned under its own key |
| Sanitize.CounterCountsLeaves | src/middlewares/sanitizeInput.ts:151-157 | the counter grows by the number of positions at which the lists of leaves before and after differ |
| Sanitize.NothingCountedIffUnchanged | src/middlewares/sanitizeInput.ts:209-219 | the counter stays at zero if and only if the body is unchanged |

## Left out

- DependencyInjection.Container.Resolve: factories are fixed dependency lists with a fixed outcome; a factory that calls `register` or `clear`, catches a failed dependency, or decides at run time what to resolve is not modelled.
- RateLimiter.RedisStore.Pipeline: a sorted set is the list of its scores, so the random part of each member is assumed to keep members distinct; the pipeline is atomic and Redis loses no data and has the caller's clock.
- RateLimiter.Serve: decides as the complete logs for clocks that never run backwards and are not negative; configuration values that are not numbers, and the response headers other than Retry-After, are not modelled.
- RateLimiter.Dispatch: all instances that share a key have one configuration; the tiered limiter of src/middlewares/rateLimiter.ts:178-200 uses the key `api:rl:<ip>` of another limiter, and with a different window the two prune each other's hits.
- RateLimiter.WindowBound: failing open promises no bound of its own; the one proved counts the unanswered requests.
- Reindex.FetchAll: the RPC is any service over a finite ordered log whose pages continue where the last one ended; the page limit of 200 is the service's affair, and an error of the RPC is not modelled.
- Reindex.Store.Upsert: key parts the decoder left undefined, the default network and the race with another writer are not modelled; event types named like inherited object properties would spoil the per-type counters.
- Reindex.ReindexRange: switching the network in the environment, opening and closing the database connection and logging are not modelled.
- CappedAdapters.CappedAdapter: calls are numbered and split at their await points; that a woken continuation and a finished inner call are eventually scheduled is left to the event loop.
- Percentiles.Summarize: numbers are exact; floating-point rounding is not modelled, and a throughput over no elapsed time, which is not a finite number, is modelled as absent.
- Percentiles.FloorIndexVersusRank: only the index of the streaming script's percentile is modelled, not the rounding to two digits, the average and the minimum.
- Etag.Response.Json: a throwing `setHeader`, after which the body would go out with whatever headers were already set, is not modelled.
- Consumers.EveryRunIsSafe: the broker, channels and messages are values of a state machine; crashes, lost connections, the 30-second deadline and the confirm channel are not modelled.
- LogShipper.HttpLogShipper.Flush: the payload, its time stamps and the fate of the HTTP request, which the shipper ignores, are not modelled.
- Etag.RevalidationIsFresh: the hash is assumed injective with comma-free output, as SHA-1 in base64 is up to collisions; the choice of Cache-Control is not modelled.
- Redact.RedactSensitive: `truncateBody` and the rest of the logging middleware are not modelled; inputs are JSON trees.
- OpenApiDrift.CheckDrift: reading routes and paths out of the files is not modelled; the path set is a list.
- SanitizeText.SanitizeString: Unicode normalization and the markup patterns are an arbitrary string function; they run once, so the code does not promise that no markup remains.
- Sanitize.SanitizeValue: the body is a tree, as parsed JSON is; bodies that share an object between two places are not modelled.
- Sanitize.SanitizeInput: whether the body is a Buffer is a parameter.
- CircularDeps.BuildDependencyGraph: the file system walk, the import patterns and path resolution are a parameter.
- Services, controllers, routes, entities and migrations, and the decision tables of authentication and roles: database plumbing and flat case distinctions that would only add easy members.
- Printing, tables, command-line parsing and exit codes of the scripts.
