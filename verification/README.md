# Verified models of the load generator, the entitlement cache and their neighbours

This project models the stateful and transforming parts of the repository in
Dafny and proves what they are for.

- **Load scheduler.** `buildRunSchedule` and `buildPracticalSchedule` run one greedy
  loop over a min-heap of call end times. The loop is a method on a mutable queue
  with its two pop loops; the theory works on what it computes for *any*
  nondecreasing list of ready times. The concurrency limit, the exactness of the
  reported peak and the agreement with first-in first-out service all hold if and only
  if one condition on the candidates holds (`NoSharedRelease`). First-in first-out
  service is the earliest feasible schedule. The guard `cps <= 1000` makes ready times
  distinct, which is why every accepted run plan is correct.
- **Peak counter.** The atomics of `executeLiveRun` as an interleaved step system,
  with spurious compare-and-swap failures.
- **Entitlement cache.** Any number of nodes with their own caches before a shared
  table; queries, replies, writes, failures and restarts interleave freely.
- **Runtime supervisor and token refresh.** Each piece of code between two awaits is one
  step; every interleaving of the pieces is covered. The class methods are proved equal
  to the transition functions that the step systems use.
- **Dial policy.** The number classifier, the dialplan pattern matcher with the language it
  decides, and the generator of blocked patterns.
- **Codecs and layouts.** Detail CSV, icon file, tone stream, caller-id lists, reference
  unfolding.

## What the proofs found

- **Practical schedules can exceed their limit.** Without ramp and jitter all candidates tie at 0;
  the second pop loop then frees several slots at a future time and a later candidate is
  placed before it. `BoundedIffSafe` and `JitterFreeExact` give the exact conditions and
  `TiedCandidatesOverlap` the smallest failing shape; the overlap has no bound
  (`OverlapUnbounded`). The reported peak is too low in exactly the same cases.
- **Stale answers after a write.** A load that read before the upsert and replies after the
  invalidation refills the cache with the old value; `InvalidationExact` says exactly when
  that is possible and `OverdueAnswer` gives a run from the start.
- **A failed audit row.** `setEnabled` then ends without its invalidation although the table has
  changed; even the writing node answers the old value for up to 30 s (`FailedAuditLeavesStale`).
- **Staleness above 30 s.** The delay of up to 30 s that the class comment promises
  (feature-entitlement.service.ts:34) is 30 s plus the duration of the load that filled the
  cache: `AnswersAreRecent` is the bound, `OverdueAnswer` attains it for every duration, and
  `OverdueExactly` says when 30 s do hold.
- **`disconnect()` may not last.** A recovery that is queued or in flight, or a `connect()`
  still waiting, opens a runtime afterwards with no further call (`DisconnectUndone`, with the
  run `DisconnectFails`). `DisconnectLastsExactly` says when it does last.
- **A refreshed session can be dropped.** When the refresh succeeds but saving does not, the
  recovery starts its runtime with the stored session (`RecoveryInFull`).
- **Cyclic lists.** Only dictionaries are recognised when met again; a list that holds itself
  is unfolded to the depth limit (`ListCycle`, `DictCycle`).
- **Dialplan patterns.** `_0X.`, meant for domestic numbers, also blocks international and paid
  numbers the policy allows (`AllowedButBlockedExactly`). Numbers without a class are always
  denied, but blocked only if a broad pattern happens to cover them (`DeniedIsBlocked`,
  `UnsupportedNotBlocked`), and the usual form with `+` is not covered (`PlusIsNotCovered`). A
  range such as `[2-9]` before any dot has lost its hyphen and accepts its two ends only
  (`RangeIsItsEnds`), and whatever follows a dot outside brackets is ignored (`DotEndsPattern`).

## Modules

| module | content |
|---|---|
| EndTimeQueues, GreedySchedules | the queue, the placement loop, what a schedule should satisfy |
| FifoTheory, Concurrency, Earliest | the scheduling theory for any candidates |
| RunSchedules | `buildRunSchedule`, the rate cap, the integer range |
| Ramp, PracticalSchedules | ramp, jitter, sorting and `buildPracticalSchedule` |
| PracticalLimits, TiedCandidates, JitterLimits | when it keeps its limit, how far it can exceed it, and what jitter alone gives |
| PeakCounter, PeakProgress | the atomics of `executeLiveRun`, and their progress |
| Entitlements, EntitlementCluster, EntitlementAnswers | one node's service, all nodes over a run, and what their answers can be |
| RuntimeSupervisors, SupervisorRuns | the supervisor's methods, and its runs |
| ApiClients, RefreshRuns | the 401 interceptor's steps, and its runs |
| DialPatterns, DialLanguage | the pattern matcher, and its language piece by piece |
| DialPolicy, DialClasses | policy against dialplan, and the classes told by patterns |
| CsvReport, IcoFile, ToneGenerators, CallerIds, Unfolding | codecs and layouts |
| Arithmetic, Results | shared facts and datatypes |

## Model

| member | source | states |
|---|---|---|
| EndTimeQueues.EndTimeQueue.Pop | tools/pbx-loadgen/native/src/orchestrator.cpp:44-47 | removes one least entry and keeps the heap ordered |
| EndTimeQueues.EndTimeQueue.Push | tools/pbx-loadgen/native/src/orchestrator.cpp:58 | adds exactly the one end time and keeps the heap ordered |
| EndTimeQueues.EndTimeQueue.PopEnded | tools/pbx-loadgen/native/src/orchestrator.cpp:44-47 | the pop loop ends with the specified rest of the heap |
| EndTimeQueues.DropEndedKeeps | tools/pbx-loadgen/native/src/orchestrator.cpp:44-47 | that rest is exactly the entries above the given time, in order |
| GreedySchedules.PlaceCall | tools/pbx-loadgen/native/src/orchestrator.cpp:44-58 | one iteration: free what has ended, delay to the earliest end when all slots are taken, occupy a slot |
| FifoTheory.LoopInStep | tools/pbx-loadgen/native/src/orchestrator.cpp:41-64 | while no shared release has happened the heap is a contiguous run of end times, exactly those beyond the last start, and all starts so far are first-in first-out |
| FifoTheory.AdvanceStep | tools/pbx-loadgen/native/src/orchestrator.cpp:41-58 | one more placement keeps that invariant |
| FifoTheory.IncreasingIsSafe | tools/pbx-loadgen/native/src/orchestrator.cpp:27-29 | strictly increasing ready times never share a release |
| Concurrency.BoundedIffSafe | tools/pbx-loadgen/native/src/orchestrator.cpp:41-58 | for any nondecreasing candidates the number of live calls stays within the limit at every time if and only if no shared release occurs |
| Concurrency.SharedReleaseOverlaps | tools/pbx-loadgen/native/src/command_logic.cpp:162-168 | the first shared release puts more calls than slots at work at the next candidate's time |
| Concurrency.SafeIsFifo | tools/pbx-loadgen/native/src/orchestrator.cpp:41-58 | without shared releases the heap loop computes max(ready, start of the call m places before + duration) |
| Concurrency.PeakExactIffSafe | tools/pbx-loadgen/native/src/orchestrator.cpp:60-62 | the largest heap size is the true peak over all times if and only if no shared release occurs, and too low otherwise |
| Concurrency.HeapFits | tools/pbx-loadgen/native/src/orchestrator.cpp:50-62 | the heap, and so the reported peak, never exceeds the limit, for any candidates |
| Earliest.NoHeadStart | tools/pbx-loadgen/native/src/orchestrator.cpp:42-58 | before the k-th start no feasible schedule, in any order, has started more than k calls |
| Earliest.FifoDominates | tools/pbx-loadgen/native/src/orchestrator.cpp:42-58 | at every time first-in first-out service has started at least as many calls as any feasible schedule |
| Earliest.NoneFinishesSooner | tools/pbx-loadgen/native/src/orchestrator.cpp:42-58 | no feasible schedule at all has its last start sooner |
| Earliest.PointwiseEarliest | tools/pbx-loadgen/native/src/orchestrator.cpp:42-58 | no feasible schedule in index order starts any call sooner |
| Earliest.FifoIsLargestChain | tools/pbx-loadgen/native/src/orchestrator.cpp:42-58 | closed form: a start is the largest ready time among the calls whole rounds before it, plus one duration a round |
| Earliest.FifoWithinRounds | tools/pbx-loadgen/native/src/orchestrator.cpp:42-58 | a start is at most its ready time plus one duration for each full round before it |
| RunSchedules.BuildRunSchedule | tools/pbx-loadgen/native/src/orchestrator.cpp:15-67 | accepts exactly the plans the guards let through, with the source's error otherwise; the schedule has every call in order, is first-in first-out, feasible, strictly increasing, and reports its true peak |
| RunSchedules.RunScheduleIsFifo | tools/pbx-loadgen/native/src/orchestrator.cpp:27-64 | every accepted plan makes the heap loop agree with the closed recurrence, keep the limit and report the true peak |
| RunSchedules.ReadyAdvances | tools/pbx-loadgen/native/src/orchestrator.cpp:27-42 | with at most 1000 calls a second ready times are distinct and cps of them cover exactly 1000 ms |
| RunSchedules.ReadyBounds | tools/pbx-loadgen/native/src/orchestrator.cpp:42 | the ready time is 1000·i / cps rounded down |
| RunSchedules.GuardIsExact | tools/pbx-loadgen/native/src/orchestrator.cpp:27-29 | all ready times are distinct if and only if cps is at most 1000: the resolution guard is exact |
| RunSchedules.DelaysKeepRate | tools/pbx-loadgen/native/src/orchestrator.cpp:42-56 | the call cps places later starts at least 1000 ms later, delays included |
| RunSchedules.RateCap | tools/pbx-loadgen/native/src/orchestrator.cpp:42-56 | every half-open window of 1000 ms has at most cps starts |
| RunSchedules.FitsIntExactly | tools/pbx-loadgen/native/src/orchestrator.cpp:41-58 | all intermediate values fit a 32-bit int if and only if those of the last call do |
| RunSchedules.FitsIntWhen | tools/pbx-loadgen/native/src/orchestrator.cpp:41-58 | a bound in the plan's own numbers under which they fit |
| Ramp.Isqrt | tools/pbx-loadgen/native/src/command_logic.cpp:46-48 | the exact integer square root |
| Ramp.RampRoot | tools/pbx-loadgen/native/src/command_logic.cpp:45-49 | during the ramp the offset t of call k satisfies cps·t² <= 2000·R·k < cps·(t+1)² |
| Ramp.RampWithinWindow | tools/pbx-loadgen/native/src/command_logic.cpp:43-49 | ramp offsets stay within the ramp window |
| Ramp.OffsetsNondecreasing | tools/pbx-loadgen/native/src/command_logic.cpp:31-53 | offsets never decrease, also across the end of the ramp |
| Ramp.OffsetsIncreasing | tools/pbx-loadgen/native/src/command_logic.cpp:31-53 | with a ramp and cps up to 1000 all offsets are distinct and in order |
| Ramp.SteadyCadence | tools/pbx-loadgen/native/src/command_logic.cpp:51-52 | after the ramp cps calls advance by exactly 1000 ms |
| Ramp.SteadyOffset | tools/pbx-loadgen/native/src/command_logic.cpp:51-52 | after the ramp the offset t of call k satisfies 2·cps·t <= 2000·k + cps·R < 2·cps·(t+1): half the window plus the steady rate |
| Ramp.OffsetExactly | tools/pbx-loadgen/native/src/command_logic.cpp:31-53 | the offset of every call, without, during and after a ramp, from the settings alone |
| PracticalSchedules.BuildPracticalSchedule | tools/pbx-loadgen/native/src/command_logic.cpp:111-195 | errors as buildRunSchedule; otherwise the planned calls in sorted order, none before its own candidate time, exact first and last start, total = last start + duration, the greedy starts and the largest heap |
| PracticalSchedules.BuildCandidates | tools/pbx-loadgen/native/src/command_logic.cpp:130-138 | the candidates keep the base indices and none of the base offsets |
| PracticalSchedules.SimulatedCallDurationMs | tools/pbx-loadgen/native/src/command_logic.cpp:20-22 | the duration is the hold time in ms, and at least 1 |
| PracticalSchedules.CandidateExactly | tools/pbx-loadgen/native/src/command_logic.cpp:24-29 | a candidate is its ramp offset plus the remainder of 37·i by the jitter range, with or without a ramp |
| PracticalSchedules.PlaceSorted | tools/pbx-loadgen/native/src/command_logic.cpp:149-188 | the second loop with its running minimum and maxima |
| PracticalSchedules.SortKeepsCalls | tools/pbx-loadgen/native/src/command_logic.cpp:140-147 | sorting permutes the candidates |
| PracticalSchedules.SortOrders | tools/pbx-loadgen/native/src/command_logic.cpp:140-147 | and orders them by offset, equal offsets by index |
| PracticalSchedules.SortIsUnique | tools/pbx-loadgen/native/src/command_logic.cpp:140-147 | any ordered arrangement of the candidates is this one, whatever the sorting algorithm |
| PracticalSchedules.ExtremesHold | tools/pbx-loadgen/native/src/command_logic.cpp:177-187 | the running minimum and maximum are the least and greatest start |
| PracticalSchedules.SortedIsPlanned | tools/pbx-loadgen/native/src/command_logic.cpp:154-175 | output indices are a permutation of the planned ones and no call precedes its candidate time |
| PracticalLimits.PracticalExact | tools/pbx-loadgen/native/src/command_logic.cpp:154-175 | for every accepted configuration the limit, and the exactness of the peak, are equivalent to the absence of shared releases |
| PracticalLimits.DistinctCandidates | tools/pbx-loadgen/native/src/command_logic.cpp:130-175 | pairwise distinct candidates give the limit, the exact peak and first-in first-out starts |
| PracticalLimits.JitterFreeExact | tools/pbx-loadgen/native/src/command_logic.cpp:34-36 | without jitter the limit holds if and only if there is a ramp, or one slot, or at most one call more than slots |
| PracticalLimits.TiedCandidatesOverlap | tools/pbx-loadgen/native/src/command_logic.cpp:162-168 | witness: two slots, four calls, no ramp: three calls at once, reported peak two |
| TiedCandidates.OverlapUnbounded | tools/pbx-loadgen/native/src/command_logic.cpp:154-175 | for every k a plan for two slots, without ramp and jitter, has more than k calls live at the first instant and reports a peak of two |
| JitterLimits.JitterDistinctExactly | tools/pbx-loadgen/native/src/command_logic.cpp:24-29 | without a ramp the jittered candidates are distinct if and only if there are at most J + 1 calls, or (J + 1) / 37 when 37 divides J + 1 |
| JitterLimits.JitterKeepsLimit | tools/pbx-loadgen/native/src/command_logic.cpp:130-175 | up to that many calls the jitter alone gives the limit and the exact peak |
| PeakCounter.StepGood | tools/pbx-loadgen/native/src/command_logic.cpp:232-242 | every atomic action keeps the counter's invariant, with the largest count so far |
| PeakCounter.ActiveCountsSection | tools/pbx-loadgen/native/src/command_logic.cpp:232-242 | in every interleaving activeCalls counts the threads in the section and the peak never exceeds the largest count |
| PeakCounter.PeakExact | tools/pbx-loadgen/native/src/command_logic.cpp:232-242 | once no thread is in the loop the peak equals the largest count there has been |
| PeakCounter.StepEffect | tools/pbx-loadgen/native/src/command_logic.cpp:232-242 | one step in full: when the count and the peak move, and that every load and failed exchange has seen the present peak |
| PeakProgress.BoundedWork | tools/pbx-loadgen/native/src/command_logic.cpp:233-237 | however n threads interleave, at most n(n+4) steps change anything |
| PeakProgress.IdleIsSpurious | tools/pbx-loadgen/native/src/command_logic.cpp:234-237 | a step changes nothing if and only if it is an exchange that fails although the observed peak is still the present one |
| PeakProgress.LeavesLoop | tools/pbx-loadgen/native/src/command_logic.cpp:233-237 | from every reachable state a thread in the loop is through it in at most two steps of its own, with a peak of at least its count |
| PeakCounter.LeavesAtPeak | tools/pbx-loadgen/native/src/command_logic.cpp:233-237 | in every run a thread leaves the loop only once the peak has reached its count |
| Entitlements.CheckSet | apps/server/src/common/feature-entitlement.service.ts:69-82 | a write passes exactly for a known feature that is reversible, or is turned on with acknowledgement; the refusals by cause |
| Entitlements.FeatureEntitlementService.LookUp | apps/server/src/common/feature-entitlement.service.ts:126-130 | answers from the cache exactly when the entry has not expired |
| Entitlements.FeatureEntitlementService.StoreRows | apps/server/src/common/feature-entitlement.service.ts:137-144 | builds the map from the rows and caches it for the time to live |
| Entitlements.FeatureEntitlementService.Invalidate | apps/server/src/common/feature-entitlement.service.ts:122-124 | drops the tenant's entry and no other |
| Entitlements.OverlayIsEffective | apps/server/src/common/feature-entitlement.service.ts:132-141 | in whatever order the rows come and whatever unknown keys they hold, the map gives the row's value or the default |
| EntitlementCluster.NextGood | apps/server/src/common/feature-entitlement.service.ts:68-145 | every step of any node keeps the cluster's invariant |
| EntitlementAnswers.AnswersAreRecent | apps/server/src/common/feature-entitlement.service.ts:126-145 | every answer on every node is the table's effective map as of less than 30 000 ms plus the duration of the load that filled the cache before |
| EntitlementAnswers.OverdueExactly | apps/server/src/common/feature-entitlement.service.ts:126-144 | a cache entry that has not expired can still give an answer 30 000 ms old or older if and only if the load that filled it took time |
| EntitlementAnswers.IrreversibleStaysOn | apps/server/src/common/feature-entitlement.service.ts:71-82 | once an irreversible feature is on, every node answers true from that delay on, whatever is set afterwards |
| EntitlementAnswers.InvalidationExact | apps/server/src/common/feature-entitlement.service.ts:118-145 | over whole runs: after setEnabled, in every continuation all answers for the tenant on the node come from the written version or a later one, if and only if no load of the tenant that read before the upsert is in flight there |
| EntitlementAnswers.NothingOlderKept | apps/server/src/common/feature-entitlement.service.ts:118-145 | every step keeps that, and answers only from that version on |
| EntitlementAnswers.ReadsOwnWrites | apps/server/src/common/feature-entitlement.service.ts:118-145 | from then on all answers on the node come from the written version or a later one |
| EntitlementAnswers.OwnVersionHasOwnValue | apps/server/src/common/feature-entitlement.service.ts:87-119 | an answer from the version a write made carries the value it wrote, at any later time |
| EntitlementAnswers.ReadsBackOwnValue | apps/server/src/common/feature-entitlement.service.ts:87-145 | after setEnabled returns with no older load in flight, every answer for the tenant on the node carries the written value, unless a later version up to the one answered from changed it |
| EntitlementAnswers.OlderLoadResurfaces | apps/server/src/common/feature-entitlement.service.ts:126-145 | otherwise the older load replies after any delay and a query asked up to the end of the time to live is answered from the older version |
| EntitlementAnswers.OverdueAnswer | apps/server/src/common/feature-entitlement.service.ts:68-145 | a run from any initial world, for any two nodes and any delay: a query asked after setEnabled has returned is answered with the value from before, the time to live and the delay after the write |
| EntitlementAnswers.OnlyWrittenChanges | apps/server/src/common/feature-entitlement.service.ts:87-104 | a step changes the effective value of a feature only by a write of that feature for that tenant |
| EntitlementAnswers.FailedAuditLeavesStale | apps/server/src/common/feature-entitlement.service.ts:106-118 | a run from any initial world: when the audit row fails the invalidation is skipped and the writing node answers the old value for the rest of the time to live |
| RuntimeSupervisors.RuntimeSupervisor.Disconnect | apps/desktop/src/main/runtime-supervisor.ts:42-46 | no runtime is left, and the call made is the disconnect of the one there was |
| RuntimeSupervisors.RuntimeSupervisor.StartRuntime | apps/desktop/src/main/runtime-supervisor.ts:48-57 | the field names the new runtime, exactly the old one is disconnected, and the connect of the new one comes last |
| RuntimeSupervisors.RuntimeSupervisor.OnConnectionState | apps/desktop/src/main/runtime-supervisor.ts:58-69 | only the current runtime is heard; a recovery is queued exactly on its loss when none is scheduled |
| RuntimeSupervisors.RuntimeSupervisor.ScheduleRecovery | apps/desktop/src/main/runtime-supervisor.ts:73-83 | queues a recovery only when none is scheduled |
| RuntimeSupervisors.RuntimeSupervisor.RecoveryTaskStarts | apps/desktop/src/main/runtime-supervisor.ts:79-82 | a starting recovery allows the next one to be scheduled |
| SupervisorRuns.NextGood | apps/desktop/src/main/runtime-supervisor.ts:32-101 | every step keeps the supervisor's invariant |
| SupervisorRuns.ReportResult | apps/desktop/src/main/runtime-supervisor.ts:58-69 | a report changes the supervisor only when it is a loss of the current runtime with no recovery scheduled |
| SupervisorRuns.AtMostOneOpen | apps/desktop/src/main/runtime-supervisor.ts:42-57 | at most one runtime is open, and between pieces of code exactly the current one |
| SupervisorRuns.ScheduledMeansQueued | apps/desktop/src/main/runtime-supervisor.ts:73-83 | recoveryScheduled holds exactly while one recovery task is queued |
| SupervisorRuns.LossIsAttended | apps/desktop/src/main/runtime-supervisor.ts:66-101 | a loss last reported by the current runtime has a recovery queued or in flight, unless one gave up |
| SupervisorRuns.GivesUpAtLoads | apps/desktop/src/main/runtime-supervisor.ts:85-90 | a step makes a recovery give up if and only if it ends its loads with one of them rejected or empty |
| SupervisorRuns.GaveUpHasCause | apps/desktop/src/main/runtime-supervisor.ts:85-90 | over runs, whenever a recovery gives up, a load of its own was Missing or Rejected, then or before |
| SupervisorRuns.PastLoadsRecovers | apps/desktop/src/main/runtime-supervisor.ts:92-101 | over runs, a recovery past both loads stays under way until it has made a runtime and made it current |
| SupervisorRuns.RecoveryInFull | apps/desktop/src/main/runtime-supervisor.ts:85-101 | for all outcomes of its four awaits: a recovery starts a runtime exactly when both loads find something, with the refreshed session exactly when refresh and save succeed |
| SupervisorRuns.ConnectInFull | apps/desktop/src/main/runtime-supervisor.ts:32-40 | for all outcomes of its two awaits: connect() starts a runtime with the stored session exactly when both loads find something |
| SupervisorRuns.RetiredNeverSchedules | apps/desktop/src/main/runtime-supervisor.ts:59-61 | a replaced or disconnected runtime can report anything at any later time without effect |
| SupervisorRuns.DisconnectsRetired | apps/desktop/src/main/runtime-supervisor.ts:42-55 | the runtime being disconnected is always such a one |
| SupervisorRuns.DisconnectLasts | apps/desktop/src/main/runtime-supervisor.ts:42-46 | with no recovery queued and every call in flight without configuration, nothing opens until connect() is called |
| SupervisorRuns.DisconnectLastsExactly | apps/desktop/src/main/runtime-supervisor.ts:42-101 | without a runtime, no run without connect() ever has one again, if and only if no recovery is queued and every call in flight has found no configuration |
| SupervisorRuns.DisconnectUndone | apps/desktop/src/main/runtime-supervisor.ts:85-101 | in every other state without a runtime, also while the old one is still to be disconnected, some run opens one with no further connect() |
| SupervisorRuns.DisconnectFails | apps/desktop/src/main/runtime-supervisor.ts:32-101 | such a run from the start: connect, a loss, disconnect, and the queued recovery opens a runtime |
| ApiClients.ApiClient.OnUnauthorized | apps/web/src/api/apiClient.ts:49-58 | a refresh starts exactly for a first 401 while none is under way; a waiting request waits for the promise already held |
| ApiClients.ApiClient.OnRefreshReply | apps/web/src/api/apiClient.ts:24-45 | both tokens are stored or both cleared, and the value returned is the store's access token |
| ApiClients.ApiClient.Finally | apps/web/src/api/apiClient.ts:55-57 | the flag is lowered, and nothing else changes |
| ApiClients.ApiClient.Resume | apps/web/src/api/apiClient.ts:59-63 | the request is retried exactly when the refresh gave a token, with the store's token when there is one and the new one otherwise |
| RefreshRuns.NextSingleFlight | apps/web/src/api/apiClient.ts:21-58 | every step keeps at most the newest refresh unresolved, and the flag in step with it |
| RefreshRuns.NextPostedOnce | apps/web/src/api/apiClient.ts:24-45 | every step keeps the posted tokens distinct |
| RefreshRuns.AtMostOneRefresh | apps/web/src/api/apiClient.ts:21-58 | at most one refresh is under way and isRefreshing says whether one is |
| RefreshRuns.NoTokenPostedTwice | apps/web/src/api/apiClient.ts:24-45 | no refresh token is posted twice |
| RefreshRuns.RetriesFollowRefresh | apps/web/src/api/apiClient.ts:47-68 | a request is sent at most twice, the second time after a successful refresh that completed (its finally ran) after the 401 was seen |
| RefreshRuns.RejectedTokenNotResent | apps/web/src/api/apiClient.ts:59-63 | a request whose 401 came before that refresh was answered is not resent with the rejected token |
| RefreshRuns.UnauthorizedLeadsTo | apps/web/src/api/apiClient.ts:49-58 | over runs: a first 401 posts exactly the store's refresh token if no refresh is under way and nothing otherwise, and waits for the newest refresh; a second one ends the request |
| RefreshRuns.WakesLeadsTo | apps/web/src/api/apiClient.ts:59-66 | over runs: a waiting request whose refresh gave a token is in flight a second time, and otherwise ends |
| RefreshRuns.RetrySucceeds | apps/web/src/api/apiClient.ts:21-68 | from every reachable world without a refresh under way, a request with an expired token goes out again with the token of the reply |
| DialPatterns.MatchAsteriskPattern | apps/server/src/common/outbound-rule.sanitizer.ts:97-144 | decides exactly the declared pattern language |
| DialPatterns.MatchBody | apps/server/src/common/outbound-rule.sanitizer.ts:100-143 | the two-index loop decides whether the token sequence matches |
| DialPatterns.TestToken | apps/server/src/common/outbound-rule.sanitizer.ts:103-141 | one branch: fits if and only if the token at i accepts the character, and its length |
| DialLanguage.CharacterPiece | apps/server/src/common/outbound-rule.sanitizer.ts:105-140 | anywhere before a dot N, X and Z stand for their digits and any other character for itself; the text around is matched on its own |
| DialLanguage.BracketPiece | apps/server/src/common/outbound-rule.sanitizer.ts:123-130 | a bracket stands for one of its characters, or with ^ for any other |
| DialLanguage.DotPiece | apps/server/src/common/outbound-rule.sanitizer.ts:132-135 | a dot stands for one or more digits |
| DialLanguage.HyphenIgnored | apps/server/src/common/outbound-rule.sanitizer.ts:99 | a hyphen anywhere is as if it were not there |
| DialLanguage.UnclosedNever | apps/server/src/common/outbound-rule.sanitizer.ts:124-125 | a bracket that is never closed matches nothing |
| DialLanguage.RangeIsItsEnds | apps/server/src/common/outbound-rule.sanitizer.ts:99-131 | a bracketed range, wherever it stands before a dot, accepts exactly its two end characters, and the text before and after it is matched on its own |
| DialLanguage.DotEndsPattern | apps/server/src/common/outbound-rule.sanitizer.ts:132-135 | the pattern text after a dot outside brackets has no influence |
| DialPolicy.GetBlockedOutboundDialplanPatterns | apps/server/src/common/outbound-dial-policy.util.ts:196-216 | the patterns of exactly the denied classes, in order |
| DialPolicy.BlockedExactly | apps/server/src/common/outbound-dial-policy.util.ts:196-216 | for any permissions, the digit strings the generated patterns match, in terms of prefix and length |
| DialPolicy.ClassPatternsExact | apps/server/src/common/outbound-dial-policy.util.ts:38-45 | the PAID and REPRESENTATIVE patterns match exactly the numbers classified so |
| DialPolicy.ShapesDisjoint | apps/server/src/common/outbound-dial-policy.util.ts:142-156 | a number of one shape is of that class: the order of the classifier's tests does not matter |
| DialClasses.ClassesExactly | apps/server/src/common/outbound-dial-policy.util.ts:134-225 | for every text: with a plus it is international as soon as it has a digit; without one it is INTERNATIONAL, PAID, REPRESENTATIVE or DOMESTIC if and only if its digits match a dial pattern of that class, the domestic ones listed prefix by prefix |
| DialClasses.DefaultAllows | apps/server/src/common/outbound-dial-policy.util.ts:29-36 | the default permissions allow exactly the domestic and representative numbers |
| DialClasses.SeparatorIgnored | apps/server/src/common/outbound-dial-policy.util.ts:48-50 | a character that is no digit changes nothing, wherever it stands |
| DialClasses.TrimExactly | apps/server/src/common/outbound-dial-policy.util.ts:135 | trimming drops the blanks at both ends and nothing else |
| DialPolicy.DeniedIsBlocked | apps/server/src/common/outbound-dial-policy.util.ts:161-216 | a denied number without a plus is blocked if and only if it has a class, or falls under the international or domestic pattern of a denied class |
| DialPolicy.UnsupportedNotBlocked | apps/server/src/common/outbound-dial-policy.util.ts:158-216 | 999 is denied under any permissions and blocked under none |
| DialPolicy.AllowedButBlockedExactly | apps/server/src/common/outbound-dial-policy.util.ts:161-216 | an allowed number is blocked all the same if and only if domestic calls are denied and it is international or paid |
| DialPolicy.PlusBlockedExactly | apps/server/src/common/outbound-dial-policy.util.ts:142-216 | which denied numbers with a plus are blocked |
| DialPolicy.PlusIsNotCovered | apps/server/src/common/outbound-dial-policy.util.ts:142-216 | the usual plus form is denied by the policy and matched by no pattern |
| CsvReport.EscapeCsvField | tools/pbx-loadgen/native/src/report_writer.cpp:43-63 | quotes a field exactly when it holds a special character, with quotes doubled |
| CsvReport.CsvRow | tools/pbx-loadgen/native/src/report_writer.cpp:110-114 | one row as the quoted fields with separators; the numbers need no quoting |
| CsvReport.DetailCsv | tools/pbx-loadgen/native/src/report_writer.cpp:108-115 | the file is the header and one row a detail |
| CsvReport.FieldRecovers | tools/pbx-loadgen/native/src/report_writer.cpp:43-63 | reading an escaped field gives it back and stops at its separator |
| CsvReport.QuotedWhenNeeded | tools/pbx-loadgen/native/src/report_writer.cpp:49-62 | a field stands as it is if and only if it has no special character; otherwise it is quoted and grows by one for each quote |
| CsvReport.RowRecovers | tools/pbx-loadgen/native/src/report_writer.cpp:110-114 | reading a row gives back its fields, whatever follows |
| CsvReport.CsvRoundTrip | tools/pbx-loadgen/native/src/report_writer.cpp:108-115 | reading the file by section 2 of RFC 4180 gives back the header and every detail, for all strings and numbers |
| CsvReport.CellsByColumn | tools/pbx-loadgen/native/src/report_writer.cpp:108-115 | every cell read back stands under the name of its own field |
| CsvReport.NoLeadingZero | tools/pbx-loadgen/native/src/report_writer.cpp:112-114 | numbers are written without leading zeros |
| IcoFile.WriteIco | apps/desktop-win/tools/make-app-icon.py:82-102 | succeeds exactly when every number fits its field, with the specified file |
| IcoFile.DirectoryReads | apps/desktop-win/tools/make-app-icon.py:93-99 | the length and offset fields of entry k, read back |
| IcoFile.HeaderReads | apps/desktop-win/tools/make-app-icon.py:90 | reserved zero, type 1 and the number of images, read back |
| IcoFile.EntryDescribes | apps/desktop-win/tools/make-app-icon.py:95-98 | both sides of entry k, 0 for 256 and more, one plane and 32 bits a pixel, read back |
| IcoFile.IconRoundTrip | apps/desktop-win/tools/make-app-icon.py:82-102 | slicing the file at an entry gives exactly that image's blob; blobs follow the directory without gaps and end with the file |
| ToneGenerators.ToneGenerator.NextFrame | tools/pbx-loadgen/native/src/tone_generator.cpp:19-45 | a frame is the next stretch of one endless sample stream |
| ToneGenerators.ToneGenerator.NextFrames | tools/pbx-loadgen/native/src/tone_generator.cpp:31-44 | frames of any sizes concatenate to one frame of the total size |
| ToneGenerators.EveryWindowHasBeep | tools/pbx-loadgen/native/src/tone_generator.cpp:23-32 | every window of one cycle has exactly the audible number of gated-on samples |
| ToneGenerators.GatedExactly | tools/pbx-loadgen/native/src/tone_generator.cpp:24-32 | a sample is on if and only if 1000·(p + 1) <= rate·duration for its position p in the cycle |
| ToneGenerators.CycleExactly | tools/pbx-loadgen/native/src/tone_generator.cpp:26-27 | the cycle is rate·interval / 1000 rounded down, and at least one |
| CallerIds.SerializeRoundTrip | apps/server/src/common/outbound-caller-id.util.ts:11-25 | parsing a serialized list of distinct caller ids gives it back, the empty one by way of null |
| CallerIds.ParseIsStable | apps/server/src/common/outbound-caller-id.util.ts:11-25 | whatever parses is canonical and survives storing and parsing |
| CallerIds.UniqueDistinct | apps/server/src/common/outbound-caller-id.util.ts:13-19 | duplicates are gone and nothing is added |
| CallerIds.UniqueKeepsAll | apps/server/src/common/outbound-caller-id.util.ts:13-19 | nothing is lost either |
| CallerIds.UniqueInOrder | apps/server/src/common/outbound-caller-id.util.ts:13-19 | the entries keep the order of their first occurrence |
| CallerIds.SplitExactly | apps/server/src/common/outbound-caller-id.util.ts:15 | text is split at commas and line ends of either kind and nowhere else |
| CallerIds.ParsesExactly | apps/server/src/common/outbound-caller-id.util.ts:11-20 | every text: the distinct numbers of its non-blank pieces, or an error exactly when one of them has not 8 to 16 digits |
| CallerIds.SerializedInLines | apps/server/src/common/outbound-caller-id.util.ts:22-25 | the stored text holds digits and line feeds only |
| Unfolding.DerefValue | docs/chatgpt-archive/extract.py:17-53 | the recursive loops, on every table, end with the specified result |
| Unfolding.DerefExact | docs/chatgpt-archive/extract.py:17-53 | where following the references ends within the depth limit, the result is what following them gives |
| Unfolding.UnfoldStable | docs/chatgpt-archive/extract.py:20-21 | an unfolding that ends does not depend on how many levels are allowed |
| Unfolding.KeyNamed | docs/chatgpt-archive/extract.py:29-36 | an underscore key naming an entry is replaced by it, any other is kept; a list or dictionary as key fails |
| Unfolding.NumberOutOfRange | docs/chatgpt-archive/extract.py:37-51 | a number that names no entry is kept in a list and null in a dictionary |
| Unfolding.DictCycle | docs/chatgpt-archive/extract.py:22-26 | a dictionary met again below itself is null at once |
| Unfolding.ListCycle | docs/chatgpt-archive/extract.py:20-21 | a list that holds itself is unfolded 151 deep |

## Left out

- EndTimeQueues.EndTimeQueue: the heap is the ascending sequence of its entries; the array layout of std::priority_queue is not modelled.
- JitterLimits.JitterKeepsLimit: one direction only; tied candidates need not break the limit, and PracticalExact has the exact condition for any ramp and jitter.
- RunSchedules.BuildRunSchedule: integers are unbounded; FitsIntExactly and FitsIntWhen say when the 32-bit ones of the source agree. The same products in ramp, jitter (index * 37) and duration are not bounded.
- Ramp.RampedStartOffsetMs: the square root is the exact integer one; rounding of the double is not modelled.
- PracticalSchedules.SortCalls: std::sort is an insertion sort here; the order it must produce has no ties, so the result is the same.
- PeakCounter.Step: the call itself is an arbitrary time inside the section; results, futures and the report are left out, and a thread that never starts is one that never takes its first step.
- PeakCounter.State: activeCalls and peakConcurrent are unbounded integers.
- EntitlementCluster.Next: the clock never runs backwards and is shared by all nodes; a write's audit row, note, enabledAt and client IP are left out, and its isEnabled call is an ordinary query.
- DialPatterns.MatchAsteriskPattern: a bracket with a backslash in it, where the regular expression would read an escape, is excluded; the validator (outbound-rule.sanitizer.ts:10) admits no backslash at all. The EXACT, PREFIX and REGEX kinds and the validators are left out.
- DialPolicy.AssertOutboundDialAllowed: permissions come normalised; merging with defaults, direct dialling and IP lists are left out.
- RefreshRuns.Next: the server issues tokens it has not issued before; axios keeps the retry flag on the request; other tabs that write the same local storage are left out.
- SupervisorRuns.Next: createRuntime, connect and disconnect of a runtime do not throw, and do not call back into the supervisor other than by reports.
- CsvReport.DetailCsv: file system errors, file names and the JSON summary are left out.
- IcoFile.WriteIco: drawing and PNG encoding are left out; a blob is any byte sequence.
- ToneGenerators.ToneGenerator: the sine is an arbitrary function of the cursor; the cursor does not wrap at 64 bits, and negative settings are left out.
- Unfolding.Deref: int() of a key's text is a parameter; dictionary order and Python's equality of 1, 1.0 and True as keys are left out.
- Live SIP calls, audio devices, user interface, HTTP and socket clients, and database access: they depend on libraries outside the repository.
- Option clamps, catalogs, default tables, labels and permission merging: they would add only easy members.
