# Verified models of the Go library monorepo

This project models, in Dafny, the parts of the repository that are hardest to get right and proves what they
promise: the concurrency protocols of the bulkhead, the circuit breaker and the cache; the satisfiability check of
command-line option groups; the bucket ring and the resource table of the adaptive throttle; the API query compiler;
the audit chain and its Merkle root; the module graph algorithms of the `golib` tool; civil date arithmetic; and the
evaluation of authorization policies.

Verify the whole project with `dafny verify dfyconfig.toml`.

## How the models are built

* A component that is shared by concurrent callers is a state with one step for each critical section of the source.
  A run is any sequence of steps, in the order in which the lock was taken, with any clock readings, cancellations and
  random samples. A step that is not enabled changes nothing. An invariant is kept by every step, and the main results
  hold of every run.
* Beside such a state machine stands a class with the source's fields, whose methods follow the source's code and are
  proved equal to the steps. Objects that the source compares by pointer (waiters, permits, flights, histories) are
  numbers here, given out in order and never reused.
* Algorithms over slices and maps are methods with loops. Iterating a Go map is a loop that picks any remaining key.
* Sixty-four-bit wrap-around and saturation are written out where they matter: the throttle's ticks and counters, the
  audit sequence, the saturating query cost, and checked multiplication of dates.
* Digests are arbitrary functions. A result that needs collision freedom asks for it only on finitely many inputs: the
  payloads hashed for the two compared Merkle roots, and the pairs of key and encoding digested for the two compared
  audit ranges, with the keys that verification asks for.

| files | source |
|---|---|
| `Bulkhead*.dfy` | `pkg/bulkhead` |
| `CircuitBreaker*.dfy`, `EventQueue.dfy` | `pkg/circuit-breaker` |
| `Cache*.dfy` | `pkg/cache` |
| `OptionGroups.dfy` | `pkg/cli` |
| `Throttle*.dfy` | `pkg/adaptive-throttle` |
| `Query*.dfy` | `pkg/api-query` |
| `Merkle*.dfy`, `AuditChain.dfy` | `pkg/audit` |
| `Names.dfy`, `ModuleGraph.dfy`, `DependencyOrder*.dfy`, `CycleSearch.dfy`, `ReleaseWaves.dfy` | `cmd/golib` |
| `Civil*.dfy`, `DateComponents.dfy` | `pkg/calendar` |
| `Policy*.dfy` | `pkg/authorization` |
| `Collections.dfy`, `Sums.dfy` | shared by the others |

## Where the code keeps less than is promised or expected

* `pkg/calendar/date.go:53-55` says that all non-zero components of a date difference have the sign of the direction.
  The code does not keep this under Overflow: from 31 January to 1 March 2023 it gives one month and minus two days
  (`DateComponents.SignsCanDisagree`). `DateComponents.ComponentsUntil` proves exactly when the sign is kept.
  It also proves when the components are as large as they can be: always, except going back under Overflow, where a
  further month may be carried into the month of the destination and still fit (`DateComponents.BackwardCanStopShort`).
* `pkg/cache/docs/api.md:68-69` says that a load cannot overwrite a Set or resurrect a Delete. It cannot if it was
  registered before the writer's lookup (`CacheRuns.OnlyLaterLoadsOverwrite`), nor if the cache was closed by then
  (`CacheRuns.ClosedCacheKeepsWrites`). A load registered between the lookup and the write can: from every open state,
  every writer that has not written yet can lose its write to one (`CacheOverwrites.WriteCanBeOverwritten`).
* `pkg/cache/docs/api.md:64-66` says that Close waits for active loads. Only the call that closes the cache does: a
  second one returns at once, while loads still run (`CacheRuns.SecondCloseReturnsEarly`). `CacheRuns.CloseReturnsClean`
  says exactly when none runs as a call returns, and `CacheRuns.NothingStartsAfterClose` holds of every call.
* `checkedMultiply` takes -1 times the least integer for exact (`CivilArithmetic.CheckedMultiplyIsExact`). No caller
  in the package multiplies by the least integer.
* Two record lists of different length can share a Merkle root (`MerkleRoot.RepeatedTailCollides`), so the tree is not
  that of section 2.1.1 of RFC 9162. `MerklePadding.SameRootIffSamePadding` says exactly which lists do: those that
  repeating the last node of every odd level pads to the same list. For equal lengths the root binds the records.
* Half-open callers that wait sleep on a channel. Every call that makes room closes it
  (`CircuitBreakerWaiters.RoomIsSignalled`), but a probe's deadline passing does not: `SleeperMissesNothing` says that this
  is the only room a sleeper can miss, `NewcomerGoesFirst` that a later caller then gets it, and `SleeperCanMiss` that
  every breaker which one failure opens can come to this.

## Model

| member | source | states |
|---|---|---|
| BulkheadSafety.NextKeepsInv | pkg/bulkhead/bulkhead.go:52-100 | every critical section keeps the ledger of weights, the line of waiters, first-in first-out admission, the blocked head and the drain signal |
| BulkheadSafety.CapacityIsNeverExceeded | pkg/bulkhead/wait.go:77-106 | after every run the active weight is exactly that of unreleased permits and granted waiters not yet returned, within capacity, and the queue is within its bound |
| BulkheadSafety.AdmissionIsFifo | pkg/bulkhead/bulkhead.go:52-100 | a waiter is granted, and a later caller admitted, only when every earlier waiter has ended |
| BulkheadSafety.NoLostWakeUp | pkg/bulkhead/wait.go:77-106 | while open, a queue with no ended waiter is blocked only because its head does not fit; with nothing active somebody queued has been woken |
| BulkheadSafety.DrainSignalIsExact | pkg/bulkhead/bulkhead.go:221-232 | the drained signal is given at most once, and is given if and only if the bulkhead is closed, idle and empty |
| BulkheadSafety.ClosedForGood | pkg/bulkhead/drain.go:10-33 | from a closed bulkhead no run admits anything, and a drained one stays drained and signals no more |
| BulkheadSafety.CapacityIsRecovered | pkg/bulkhead/bulkhead.go:203-219 | once every permit is released and every waiter has returned, an open bulkhead is empty and admits any valid weight |
| BulkheadSafety.GrantSettles | pkg/bulkhead/wait.go:77-106 | granting keeps the invariant and leaves the head of the queue blocked or ended; who is granted is GrantIsExact |
| BulkheadSafety.FinishKeepsInv | pkg/bulkhead/wait.go:43-75 | a waiter that wakes for any cause, granted or not, at any time, keeps the invariant |
| BulkheadSafety.ReleaseKeepsInv | pkg/bulkhead/bulkhead.go:203-219 | a release keeps the invariant |
| BulkheadSafety.CloseKeepsInv | pkg/bulkhead/drain.go:10-33 | closing ends every waiter and keeps the invariant |
| BulkheadGrants.GrantIsExact | pkg/bulkhead/wait.go:77-106 | granting on an open bulkhead stops at a cut of the queue: before it those whose deadline has passed time out and all others are granted, everything they are owed fits, and the next one in time does not fit; a closed bulkhead grants nothing |
| BulkheadGrants.GrantIsDetermined | pkg/bulkhead/wait.go:77-106 | there is only one such cut and one resulting state |
| BulkheadGrants.ReleaseServes | pkg/bulkhead/bulkhead.go:203-219 | after a release a queued waiter is reached if and only if the weight of all waiters in time up to it fits what is then free; a waiter that is reached is granted before its deadline and timed out after it |
| BulkheadGrants.FinishServes | pkg/bulkhead/wait.go:43-75 | a waiter that gives up leaves the queue, and the others are served in the same way with what is free |
| BulkheadGrants.FirstInTimeIsGranted | pkg/bulkhead/wait.go:77-106 | on a release the first queued waiter in time, if it fits, is granted, whatever is ahead of it |
| BulkheadGrants.FinishGrantsFirst | pkg/bulkhead/wait.go:43-75 | the same when a waiter gives up |
| BulkheadGrants.StepIsLawful | pkg/bulkhead/wait.go:43-106 | in every step a waiter keeps weight and deadline, is granted only by a step at a time before its deadline, and times out only at or after it or by its own timer; it is cancelled only by its own caller and closed only by Close |
| BulkheadGrants.QueuedCallersAreGrantedInTime | pkg/bulkhead/bulkhead.go:52-100 | in every run a caller queued at a time has the deadline that time plus MaxWait, and if it is ever granted, that was by a step at an earlier time |
| BulkheadGrants.AcquireDecides | pkg/bulkhead/bulkhead.go:52-100 | a caller is let in if and only if nothing stands in its way, nobody queues and it fits; queued if and only if nothing stands in its way otherwise; refused only for a reason that holds, without any change |
| BulkheadGrants.CloseEndsAll | pkg/bulkhead/drain.go:10-33 | closing ends exactly the waiters that had not ended, as closed |
| BulkheadGrants.GivingUpIsCounted | pkg/bulkhead/wait.go:43-75 | a caller that gives up is counted once, under the reason for which its wait ended |
| BulkheadGrants.PermitsMoveOn | pkg/bulkhead/bulkhead.go:203-219 | a permit goes from held to claimed to released, each by its own step, and no other step changes it |
| BulkheadService.Bulkhead.Acquire | pkg/bulkhead/bulkhead.go:52-100 | keeps the invariant; admits, queues at the end with the deadline start plus MaxWait, or refuses exactly as AcquireDecides says |
| BulkheadService.Bulkhead.GrantWaiters | pkg/bulkhead/wait.go:77-106 | the loop over the queue is the granting step and reaches the one cut that GrantIsExact describes |
| BulkheadService.Bulkhead.FinishWait | pkg/bulkhead/wait.go:43-75 | a grant becomes a permit; without one the waiter gives up and the others are served in order |
| BulkheadService.Bulkhead.Release | pkg/bulkhead/bulkhead.go:203-219 | gives the weight back, serves the queue in order with what is then free, and reports the drained signal |
| BulkheadService.Bulkhead.Close | pkg/bulkhead/drain.go:10-33 | ends exactly the waiters that had not ended, and reports the drained signal |
| BulkheadRegistry.NextKeepsRegistryInv | pkg/bulkhead/registry.go:47-91 | creating, removing and using partitions keeps every retired partition empty and closed |
| BulkheadRegistry.CapacityIsNeverSplit | pkg/bulkhead/registry.go:47-91 | however partitions are removed and recreated, and whoever still uses an old one, the live weight on a resource stays within the capacity of the registered partition and is zero without one |
| BulkheadRegistry.Service.Create | pkg/bulkhead/registry.go:47-63 | registers a new bulkhead if and only if the name is free and the registry is not full, and else changes nothing and says which |
| BulkheadRegistry.Service.Remove | pkg/bulkhead/registry.go:79-91 | removes a registered bulkhead, and no other, if and only if it is closed, idle and has no queue |
| CircuitBreakerSafety.NextKeepsInv | pkg/circuit-breaker/breaker.go:190-239 | every critical section keeps the probe registry, the sample, the counters and the epoch of every permit |
| CircuitBreakerSafety.ProbesAreBounded | pkg/circuit-breaker/breaker.go:190-239 | after every run the probe counter is the number of live probes, these are exactly the active recording half-open permits of the generation, and with the sample they never exceed the bound |
| CircuitBreakerSafety.AdmissionIsExact | pkg/circuit-breaker/breaker.go:190-239 | in normal mode a caller is admitted if and only if the open interval is over and, when half open, the sample is not filled by results and unexpired probes |
| CircuitBreakerSafety.HalfOpenNeverSticks | pkg/circuit-breaker/breaker.go:421-427 | half open with no unexpired probe, the next normal caller is admitted |
| CircuitBreakerSafety.ProbeDecides | pkg/circuit-breaker/breaker.go:429-459 | the state after a classified probe, in terms of the policy and the sample alone |
| CircuitBreakerSafety.CountersAgree | pkg/circuit-breaker/breaker.go:327-338 | completed is the sum of the outcomes and the number of completed permits, at most admitted; the generation is one more than the transitions |
| CircuitBreakerSafety.StaleCompletionIsInert | pkg/circuit-breaker/breaker.go:268-325 | completing a permit of an older generation, or one that does not record, changes only its own status and the lifetime counters |
| CircuitBreakerSafety.StaleCancellationIsInert | pkg/circuit-breaker/breaker.go:355-374 | cancelling one changes only its own status |
| CircuitBreakerSafety.StatusIsFinal | pkg/circuit-breaker/breaker.go:268-402 | no step forgets or revives a permit; only an expired managed execution may still be counted |
| CircuitBreakerOpening.OpeningSetsInterval | pkg/circuit-breaker/breaker.go:461-467 | in every run the breaker opens only by a completion, and the time of the next probe is then the time of that completion plus the open duration for as many openings as the run has had since the breaker was last closed |
| CircuitBreakerOpening.OpenIntervalIsKept | pkg/circuit-breaker/breaker.go:190-239 | from that opening on, whatever happens, every caller in normal mode is refused as open at every time before the end of the interval, until somebody has asked at or after it or the breaker was reset |
| CircuitBreakerOpening.ResultOpens | pkg/circuit-breaker/breaker.go:305-324 | a result in the closed phase opens the breaker if and only if the opening rule holds of the results since the window was last replaced and of the failures that they end with; else it stays closed |
| CircuitBreakerOpening.ResultsDecide | pkg/circuit-breaker/breaker.go:429-459 | what a classified probe decides, over the list of classified probes of the generation, read off the run |
| CircuitBreakerOpening.VerdictIsExact | pkg/circuit-breaker/breaker.go:190-239 | in every mode: for which reason a caller is refused, when it waits, that an admitted one gets a new live permit of the state after the call with its deadline, and which counter changes |
| CircuitBreakerOpening.FirstProbeIsAlone | pkg/circuit-breaker/breaker.go:209-221 | the first caller after the open interval begins a half-open generation and is its only probe |
| CircuitBreakerOpening.CompleteSettles | pkg/circuit-breaker/breaker.go:268-325 | a completion is accepted if and only if the permit is live and in time, or managed and not settled otherwise; it is then completed and its outcome counted once; a late one expires and gives its probe back |
| CircuitBreakerOpening.CancelSettles | pkg/circuit-breaker/breaker.go:355-374 | cancelling a live permit makes it cancelled, or expired after its deadline, gives its probe back and changes nothing else; a settled one stays as it is |
| CircuitBreakerOpening.ExpiryIsExact | pkg/circuit-breaker/breaker.go:421-427 | exactly the probes past their deadline expire |
| CircuitBreakerService.Breaker.TryAcquire | pkg/circuit-breaker/breaker.go:190-239 | keeps the invariant, and answers as VerdictIsExact says |
| CircuitBreakerService.Breaker.ExpireHalfOpen | pkg/circuit-breaker/breaker.go:421-427 | visiting the probe map in any order expires exactly the probes past their deadline |
| CircuitBreakerService.Breaker.Release | pkg/circuit-breaker/breaker.go:391-402 | drops one probe of the current half-open generation and nothing else |
| CircuitBreakerService.Breaker.CompleteHalfOpen | pkg/circuit-breaker/breaker.go:429-459 | an ignored probe decides nothing; after a classified one the phase follows from policy and sample, and on reopening the next probe is one open duration later |
| CircuitBreakerService.Breaker.Complete | pkg/circuit-breaker/breaker.go:268-325 | keeps the invariant, settles the permit as CompleteSettles says, and changes phase, window, streak and open interval exactly as a counted result, a probe or neither may |
| CircuitBreakerService.Breaker.Cancel | pkg/circuit-breaker/breaker.go:355-374 | keeps the invariant, and settles the permit as CancelSettles says |
| CircuitBreakerService.Breaker.SetMode | pkg/circuit-breaker/breaker.go:522-545 | a new mode begins a generation in which every permit given out is stale and no probe is counted, and keeps phase, window and counters; forced-open and isolated breakers then refuse every caller and disabled ones admit every caller, at any time |
| CircuitBreakerService.Breaker.Reset | pkg/circuit-breaker/breaker.go:575-588 | a new closed generation in normal mode with an empty window, in which every permit given out is stale and every caller is admitted at any time; lifetime counters stay |
| CircuitBreakerWaiters.SleeperMissesNothing | pkg/circuit-breaker/breaker.go:129-188 | after every run from the moment a caller was told to wait, either signalLocked closed the channel it read under the lock, or the sample is the one it found, and asking again it would have to wait if and only if no probe of it has passed its deadline |
| CircuitBreakerWaiters.NewcomerGoesFirst | pkg/circuit-breaker/breaker.go:129-188 | once a deadline has passed with the channel still open, a newcomer is admitted, and only that call closes the channel |
| CircuitBreakerWaiters.SleeperCanMiss | pkg/circuit-breaker/breaker.go:421-427 | every breaker with waiting callers that one failure opens has a reachable state in which a sleeper misses such room |
| CircuitBreakerWaiters.RoomIsSignalled | pkg/circuit-breaker/breaker.go:501-504 | every step after which a full sample is no longer full calls signalLocked, which is modelled at each place where the source calls it |
| EventQueue.EventsAreConserved | pkg/circuit-breaker/observer.go:165-188 | after every interleaving each dispatched event is in exactly one place: observed, in hand, queued, being sent or dropped |
| EventQueue.DeliveryIsInOrder | pkg/circuit-breaker/observer.go:118-135 | observers see events in the order in which their producers took the lock of the queue |
| EventQueue.SendNeverBlocks | pkg/circuit-breaker/observer.go:165-188 | the queue stays within its capacity, and a producer that is discarding or sending always can |
| EventQueue.ShutdownLosesNothing | pkg/circuit-breaker/observer.go:204-216 | once the worker has left, the queue is empty and every event was observed or counted as dropped |
| EventQueue.DropsAreExact | pkg/circuit-breaker/observer.go:165-188 | an event is lost only if it finds the observer closed, or finds the channel full under DropNewest, or is the oldest queued one while a newer one waits for its place |
| EventQueue.RoomIsUsed | pkg/circuit-breaker/observer.go:165-188 | an event that finds the observer open and room is queued behind the others |
| EventQueue.NewestSurvives | pkg/circuit-breaker/observer.go:165-188 | under DropOldest, in every run of an open observer, the newest event has not been dropped |
| EventQueue.QueuedIsObserved | pkg/circuit-breaker/observer.go:165-188 | under DropNewest an event that was queued is never dropped in any continuation |
| EventQueue.Observer.Enqueue | pkg/circuit-breaker/observer.go:165-188 | appends while there is room; a closed observer, or a full one under DropNewest, drops and counts the event; a full one under DropOldest goes on to discard the oldest |
| EventQueue.Observer.DrainTurn | pkg/circuit-breaker/observer.go:118-135 | takes the oldest event, or leaves when there is none |
| CacheFlightsSafety.NextKeepsInv | pkg/cache/cache.go:286-435 | every step of readers, loaders, writers and the closer keeps the registry, the flight locks, the slots and the protected writes |
| CacheFlightsSafety.OneFlightPerKey | pkg/cache/cache.go:286-305 | after every run at most one load per key is live, and no more loads than the limit hold a slot |
| CacheFlightsSafety.ExplicitWriteSurvives | pkg/cache/cache.go:613-728 | once a set or delete that saw a flight has succeeded, the record of that flight is never in the backend again |
| CacheRuns.CloseReturnsClean | pkg/cache/cache.go:444-455 | as a call of Close returns no load runs, if and only if it is the call that closed the cache or all loads had ended anyway |
| CacheRuns.CloseIsFinal | pkg/cache/cache.go:444-455 | once the call that closed the cache has returned, no load runs in any continuation |
| CacheRuns.NothingStartsAfterClose | pkg/cache/cache.go:286-305 | once any call of Close has returned, no run registers another load |
| CacheRuns.SecondCloseReturnsEarly | pkg/cache/cache.go:444-449 | from every open state with a running load, the second of two calls of Close returns while it runs |
| CacheRuns.OnlyLaterLoadsOverwrite | pkg/cache/cache.go:613-728 | in every run after a writer's lookup, once it has written, its key never holds the record of a load registered before the lookup, whether the lookup found one or not |
| CacheRuns.ClosedCacheKeepsWrites | pkg/cache/cache.go:613-728 | a write whose lookup came after closing is never replaced by any load |
| CacheOverwrites.WriteCanBeOverwritten | pkg/cache/cache.go:717-728 | from every open state, for every writer that has not written yet, some run registers a load before the write whose record then replaces it |
| CacheContents.BackendIsLastCall | pkg/cache/cache.go:336-728 | in every run a key holds the record of the last write or load that reached the backend for it, and nothing if that was a delete or there was none |
| CacheContents.WritersKeepTheirKeys | pkg/cache/cache.go:613-728 | each set or delete acts on the key that it was called with, in every run |
| CacheContents.LoadsKeepTheirKeys | pkg/cache/cache.go:286-334 | each load is of the key that it was started for, and one is started only while the cache is open and no load of the key is live |
| CacheContents.WaitersAreCounted | pkg/cache/cache.go:286-318 | in every run a load has as many waiters as joined it and have not left |
| CacheService.Cache.JoinFlight | pkg/cache/cache.go:286-305 | keeps the invariant; refuses exactly when closed; starts a load with one waiter exactly when the key has none; else the caller joins the one live load, unless that has as many waiters as allowed |
| CacheService.Cache.RunLoad | pkg/cache/cache.go:336-435 | a whole load, with any steps of others in between, keeps the invariant and ends holding neither lock nor slot nor registration; it waits exactly when no slot is free or its lock is held; it puts its record into the backend if and only if the loader gave one, the backend took it and, at the decision under the lock, no writer that found it had written; the key then holds that record unless others touch the backend |
| CacheService.Cache.Mutate | pkg/cache/cache.go:613-728 | a whole set or delete, with any steps of others in between, keeps the invariant; it is blocked exactly when its lock is held, and else written if and only if the backend accepts; the key then holds the record, or nothing after a delete, unless others touch the backend; it has superseded the load it found before letting go, and its key does not hold a record of any load registered by its lookup |
| CacheService.Cache.Close | pkg/cache/cache.go:444-455 | the call that closes the cache returns if and only if no load runs; any other returns at once and changes no load |
| OptionGroups.CompileGroups | pkg/cli/compile.go:598-636 | succeeds if and only if every declaration is valid, with one group for each, naming the same bindings |
| OptionGroups.UnionFind.FindRoot | pkg/cli/compile.go:689-749 | the loops find the component's root and compress the path without changing any component |
| OptionGroups.Unite | pkg/cli/compile.go:689-749 | one together-group is merged, and no binding is merged that the groups do not force together |
| OptionGroups.CheckExclusive | pkg/cli/compile.go:689-749 | accepts if and only if at most one member of the group is required |
| OptionGroups.RequiredResolves | pkg/cli/compile.go:689-749 | if every exclusive group accepts, the required options are a valid resolution |
| OptionGroups.RequiredRefutes | pkg/cli/compile.go:689-749 | if some exclusive group has two required members, no resolution exists |
| OptionGroups.ValidateGroupSatisfiability | pkg/cli/compile.go:689-749 | accepts if and only if some set of options meets every group and every forced option |
| ThrottleWindow.WindowTick | pkg/adaptive-throttle/throttle.go:543-551 | truncating division with its correction is division rounded down, also before the epoch |
| ThrottleWindow.BucketIndex | pkg/adaptive-throttle/throttle.go:553-559 | the index is the non-negative remainder, also for negative ticks |
| ThrottleWindow.ForwardGapAtLeast | pkg/adaptive-throttle/throttle.go:561-566 | in spite of the wrapping subtraction the comparison is exact over all 64-bit ticks |
| ThrottleWindow.SaturatingAdd | pkg/adaptive-throttle/throttle.go:470-477 | addition with carry is the sum clipped to the largest counter |
| ThrottleWindow.RecordingSaturates | pkg/adaptive-throttle/throttle.go:441-468 | recording into saturated counters is saturation of the exact counts |
| ThrottleWindow.CountsMean | pkg/adaptive-throttle/throttle.go:441-462 | each counter in terms of how many events of each kind the window saw: a failure is an accept, shed work is a request that nobody sampled, and ignored or dry-run work is no request |
| ThrottleWindow.SumOverWindow | pkg/adaptive-throttle/throttle.go:398-419 | adding up the window's ticks in any order gives the sum over the window |
| ThrottleWindow.LogIsSinceReversal | pkg/adaptive-throttle/throttle.go:377-396 | after any run the log is exactly what was recorded since the clock last went back, in order |
| ThrottleHistory.ExpireKeepsRight | pkg/adaptive-throttle/throttle.go:377-396 | clearing only buckets whose tick fell out keeps every place equal to the log of its tick |
| ThrottleHistory.ReuseLosesNothing | pkg/adaptive-throttle/throttle.go:377-396 | the place of the current tick holds that tick or nothing, so reusing it discards no live bucket |
| ThrottleHistory.History.constructor | pkg/adaptive-throttle/throttle.go:348-357 | a new history stands for the empty log at its tick |
| ThrottleHistory.History.CurrentBucket | pkg/adaptive-throttle/throttle.go:377-396 | the in-place update of the ring is one look at the log, which forgets only when the clock went back |
| ThrottleHistory.History.Record | pkg/adaptive-throttle/throttle.go:441-462 | counting in the current bucket appends one event to the log |
| ThrottleHistory.History.Aggregate | pkg/adaptive-throttle/throttle.go:398-419 | every counter is the saturated number of logged events of the last bucketCount ticks, the age is that of the oldest of them, and as a 64-bit duration it does not overflow |
| ThrottlePolicy.ShedsOnlyExcess | pkg/adaptive-throttle/throttle.go:425-439 | the probability of shedding is within its bound, and positive if and only if enough was sampled and requests outgrow the multiple of accepts |
| ThrottlePolicy.ProbabilityIsShare | pkg/adaptive-throttle/throttle.go:425-439 | with enough samples the probability times one more than the requests is the requests less the multiple of accepts, unless that is negative or reaches the ceiling; it is the ceiling exactly when that is reached |
| ThrottlePolicy.ShedsExactly | pkg/adaptive-throttle/throttle.go:150-191 | for every sample and every scale, work is shed if and only if enough was sampled, the sample is below the scaled ceiling, and the sample times one more than the requests is below the scaled surplus of requests over accepts |
| ThrottlePolicy.AcceptsCalm | pkg/adaptive-throttle/throttle.go:425-439 | more accepts never make shedding more likely |
| ThrottlePolicy.AdmissionIsReserved | pkg/adaptive-throttle/policy.go:180-186 | a sample at or above the greatest probability is admitted whatever the history and the priority |
| ThrottlePolicy.PriorityProtects | pkg/adaptive-throttle/throttle.go:168-172 | a caller of higher priority is shed only if one of lower priority would be |
| ThrottleTable.FirstFree | pkg/adaptive-throttle/throttle.go:368-375 | the lowest free slot from the start on, or 0 when all are taken |
| ThrottleTableSafety.FreeSlotExists | pkg/adaptive-throttle/throttle.go:368-375 | a table that is not full has a free slot in 1..max, so slot 0 is never given out |
| ThrottleTableSafety.EvictionIsLeastRecent | pkg/adaptive-throttle/throttle.go:333-344 | a full table gives up exactly the history least by last use, then slot |
| ThrottleTableSafety.TouchLosesOnlyVictim | pkg/adaptive-throttle/throttle.go:325-359 | only a full table asked for a new resource loses a history, and only that victim |
| ThrottleTableSafety.NextKeepsInv | pkg/adaptive-throttle/throttle.go:295-375 | every operation keeps slots, identities and last uses right |
| ThrottleTableSafety.SlotsAreExact | pkg/adaptive-throttle/throttle.go:325-375 | after every run live histories have distinct slots in 1..max and the slot marks are exactly theirs |
| ThrottleTableSafety.StepTouchesOne | pkg/adaptive-throttle/throttle.go:150-259 | a step on one resource leaves every other remaining history exactly as it was |
| ThrottleTableSafety.StalePermitIsInert | pkg/adaptive-throttle/throttle.go:236-259 | after any run, a permit whose history was evicted or reset, even between its two critical sections, changes no history |
| ThrottleTableSafety.PermitCountsOnce | pkg/adaptive-throttle/throttle.go:236-259 | in every run, however claims and recordings interleave, a permit brings at most one outcome to the table |
| ThrottleTableSafety.SecondClaimLoses | pkg/adaptive-throttle/throttle.go:236-242 | after any run, claiming a permit again changes nothing |
| ThrottleRuns.HistoryIsItsCalls | pkg/adaptive-throttle/throttle.go:130-275 | after every run of the whole table, the window of a kept history is what the calls made to it since it was made, and no others, made of an empty one |
| ThrottleRuns.CountsAreSinceReversal | pkg/adaptive-throttle/throttle.go:130-396 | what a history counts is exactly what was recorded for it since its clock last went back: nothing of another resource, of an evicted or reset history, or of a stale permit |
| ThrottleRuns.LastReversalExists | pkg/adaptive-throttle/throttle.go:377-396 | every history has such a last reversal or its beginning |
| ThrottleService.Throttler.FindVictim | pkg/adaptive-throttle/throttle.go:333-344 | walking the map in any order finds the least history |
| ThrottleService.Throttler.AvailableSlot | pkg/adaptive-throttle/throttle.go:368-375 | the loop finds the specified slot |
| ThrottleService.Throttler.TouchResource | pkg/adaptive-throttle/throttle.go:325-359 | over the map of ring objects, the body is the touching step, eviction and the new ring included; no two resources share a ring, and every ring stays right for its log |
| ThrottleService.Throttler.TryAcquire | pkg/adaptive-throttle/throttle.go:150-191 | outside a dry run, refuses if and only if the requests in the window before this one outgrow the accepts by more than the sample allows, as ShedsExactly says; an admitted permit is live and unrecorded |
| ThrottleService.Throttler.RecordResult | pkg/adaptive-throttle/throttle.go:130-146 | counts one result in the ring of its resource and in no other |
| ThrottleService.Throttler.ClaimRecord | pkg/adaptive-throttle/throttle.go:203-242 | succeeds if and only if the outcome is one of admitted work and the permit was not recorded |
| ThrottleService.Throttler.FinishRecord | pkg/adaptive-throttle/throttle.go:244-259 | counts the claimed outcome in the ring that the permit was given for, if that is still kept, and the permit has no more to bring |
| ThrottleService.Throttler.TakeSnapshot | pkg/adaptive-throttle/throttle.go:262-275 | the counters are the saturated counts of the logged events of the window at that instant |
| ThrottleService.Throttler.Reset | pkg/adaptive-throttle/throttle.go:295-313 | removes the history and frees its slot |
| ThrottleService.Throttler.ResetAll | pkg/adaptive-throttle/throttle.go:316-323 | removes every history and frees every slot |
| QueryCompiler.Compile | pkg/api-query/compile.go:53-84 | a request compiles if and only if the other checks found nothing and it is acceptable; then the plan is what was asked for, with its filter unchanged, at its exact cost; a refusal has at least one and at most MaxErrors violations |
| QueryCompiler.Compilation.Raise | pkg/api-query/errors.go:59-64 | the collector holds exactly the first violations raised, in order, up to its limit, so it is empty if and only if none was raised |
| QueryCompiler.Compilation.AddCost | pkg/api-query/compile.go:483-489 | the bounded cost is the exact cost until that exceeds the limit, and is marked exceeded if and only if it does |
| QueryCompiler.Compilation.CompileFilterNode | pkg/api-query/compile.go:228-290 | raises nothing if and only if the subtree fits depth, nodes, values and unseen predicates at this point; then returns exactly the subtree and advances the counts exactly |
| QueryCompiler.Compilation.CompileGroup | pkg/api-query/compile.go:271-289 | the loop over children with its early stop raises nothing if and only if the group is allowed and all children fit |
| QueryCompiler.Compilation.CheckLeaf | pkg/api-query/compile.go:238-269 | raises nothing if and only if the predicate is declared, allowed, current, new and within the value bound, with valid values |
| QueryCompiler.Compilation.ValidateValues | pkg/api-query/compile.go:292-327 | raises nothing if and only if count, types, sizes and distinctness of the values are right |
| QueryCompiler.Compilation.SelectFields | pkg/api-query/compile.go:108-144 | raises nothing if and only if the fields are in bounds, distinct, declared, current and allowed; then all are selected and paid for once |
| QueryCompiler.Compilation.AddRequired | pkg/api-query/compile.go:145-159 | executes and pays for exactly the required fields that were not selected |
| QueryCompiler.Compilation.CompileIncludes | pkg/api-query/compile.go:161-206 | raises nothing if and only if the includes are in bounds, distinct, declared and every edge is allowed; each distinct edge is paid for once |
| QueryCompiler.Compilation.CompileSorts | pkg/api-query/compile.go:329-374 | raises nothing if and only if the sorts are acceptable; then fills in the declared null order |
| QueryCompiler.Compilation.AddTieBreaker | pkg/api-query/compile.go:420-445 | completes the order of a cursor page, or raises if there is no room or no permission |
| QueryFilters.ChildrenFitNext | pkg/api-query/compile.go:228-290 | children fit together if and only if each fits after those before it |
| QueryFilters.FilterCost | pkg/api-query/compile.go:491-507 | the recursive cost is the sum clipped to the largest integer |
| QueryFilters.CostIsLeafCosts | pkg/api-query/compile.go:491-507 | on an accepted filter it is the sum over the predicates |
| QueryParts.EdgesAre | pkg/api-query/compile.go:186-200 | the edges paid for are distinct and exactly the dotted prefixes of the includes |
| QueryParts.PrefixesAre | pkg/api-query/compile.go:208-216 | the prefixes are the path itself and what stands before each dot |
| QueryParts.RequiredAreExecuted | pkg/api-query/compile.go:145-159 | executed are exactly the selected and the required fields |
| QueryPlans.OperandsFit | pkg/api-query/compile.go:292-327 | the operands of a predicate are accepted if and only if the operator takes that many, no two are equal, and each has the declared type and an allowed size |
| QueryPlans.CursorOrderIsComplete | pkg/api-query/compile.go:420-445 | the order of a cursor page is what was asked for, followed if need be by the first declared tie-breaker, ascending; it names that tie-breaker, and no name twice |
| QueryPlans.PlainOrderIsKept | pkg/api-query/compile.go:420-445 | without a cursor or a declared tie-breaker the order is what was asked for |
| QueryPlans.NullsAreFilled | pkg/api-query/compile.go:329-374 | a sort that leaves the order of nulls open gets the declared one |
| QueryPlans.CostIsOfPlan | pkg/api-query/compile.go:483-489 | the cost charged is that of everything the plan executes, required fields and the added tie-breaker included |
| QueryPlans.DefaultsAre | pkg/api-query/compile.go:108-144 | the fields selected when none are named are exactly those marked so |
| MerkleRoot.RecordsAreBound | pkg/audit/integrity.go:258-296 | equally long lists with one root have the same records in the same order, if no two hashed payloads collide |
| MerkleRoot.RootBinds | pkg/audit/integrity.go:274-296 | the same for equally long lists of nodes, by induction over levels |
| MerkleRoot.RepeatedTailCollides | pkg/audit/integrity.go:291-296 | an odd list and the list with its last record repeated share a root, whatever the hash |
| MerklePadding.SameRootIffSamePadding | pkg/audit/integrity.go:258-296 | lists of any two lengths share a root if and only if padding every odd level makes them the same list, if no two hashed payloads collide and no record looks like a pair of nodes |
| MerklePadding.RootOfPadded | pkg/audit/integrity.go:274-296 | padding a list beforehand changes neither its root nor what is hashed |
| MerklePadding.PaddingKeepsList | pkg/audit/integrity.go:274-296 | padding only adds: the list itself comes first, in order |
| MerkleTree.RootIsTreeOfPadding | pkg/audit/integrity.go:258-296 | the root that the levels give is that of the balanced hash tree over the padded list, defined from the top, left half before right half |
| MerkleRoot.MerkleLevel | pkg/audit/integrity.go:274-289 | the loop over levels computes the root |
| MerkleRoot.Compute | pkg/audit/integrity.go:258-272 | refuses exactly an empty list or a record without identity, and else gives the root of the records' digests |
| AuditChain.VerifyRange | pkg/audit/integrity.go:199-236 | the loop accepts if and only if every record links to the one before and the list ends at the expected checkpoint, and reports cancellation if and only if all records before the cancelled check are linked |
| AuditChain.VerificationComposes | pkg/audit/integrity.go:168-191 | verifying a concatenation is verifying its parts through the checkpoint between them |
| AuditChain.AcceptanceMeans | pkg/audit/integrity.go:168-236 | a range is accepted if and only if both checkpoints are of one partition and as far apart as there are records, and every record has this algorithm and partition, the next sequence number, the digest before it and the digest that its own key gives |
| AuditChain.LinksMean | pkg/audit/integrity.go:199-236 | the first record that does not fit decides the verdict, and it is a missing key exactly when the record fits its place but has no key |
| AuditChain.RecordHasOnePlace | pkg/audit/integrity.go:199-236 | a record is accepted at one sequence number of one partition only |
| AuditChain.CheckpointsBindRecords | pkg/audit/integrity.go:168-191 | two lists accepted between the same checkpoints have the same canonical contents, if no two of the key and encoding pairs digested for them collide |
| AuditChain.LinksBind | pkg/audit/integrity.go:199-236 | two linked lists of one length that end in the same digest have the same canonical contents, under the same condition |
| AuditChain.SealChecks | pkg/audit/integrity.go:121-146 | a sealed record passes the check at its place |
| AuditChain.SealKeepsRecord | pkg/audit/integrity.go:121-146 | sealing changes only the integrity part, and is refused exactly for an incomplete link, a misplaced previous digest or a missing key |
| AuditChain.SealedChainVerifies | pkg/audit/integrity.go:121-146 | whatever was sealed link by link from a checkpoint verifies from it to the checkpoint of its last record |
| ModuleGraph.OrderMeansAcyclic | cmd/golib/main.go:414-465 | a graph that can be listed dependencies first has no closed walk |
| ModuleGraph.StuckMeansCycle | cmd/golib/main.go:414-465 | a non-empty set in which everything depends on something in the set holds a closed walk |
| DependencyOrder.SelectedGraphIsNeeds | cmd/golib/main.go:414-441 | the recorded dependencies are exactly those that the catalogue declares between selected directories |
| DependencyOrder.CompleteIffAcyclic | cmd/golib/main.go:414-465 | the order lists every selected directory if and only if they form no cycle |
| DependencyOrder.GreedyIsUnique | cmd/golib/main.go:451-464 | there is one order that always takes the least ready directory |
| Names.LessMeans | cmd/golib/main.go:451-464 | one name comes before another if and only if it has the smaller character where they first differ, or ends there |
| DependencyOrdering.Record | cmd/golib/main.go:414-441 | the loops count each directory's dependencies and list who waits for each |
| DependencyOrdering.CountDown | cmd/golib/main.go:456-462 | counting down makes ready exactly those with nothing left open, once each |
| DependencyOrdering.Drain | cmd/golib/main.go:451-464 | the loop always takes the least ready directory until none is ready |
| DependencyOrdering.SelectInOrder | cmd/golib/main.go:345-356 | fails if and only if the selected modules form a cycle; else lists exactly the selected directories, each after its dependencies, the least ready one first |
| DependencyOrdering.ArrangementIsCanonical | cmd/golib/main.go:414-465 | the result depends on neither the order of the catalogue nor that of the selection |
| CycleSearch.Search.Visit | cmd/golib/main.go:2206-2227 | a visit returns a closed walk without repetition, or finishes the module after everything that it depends on |
| CycleSearch.DependencyCycle | cmd/golib/main.go:2199-2236 | returns a genuine closed walk if and only if the graph has a cycle, in whatever order the map is walked |
| ReleaseWaves.StandaloneReleaseWaves | cmd/golib/standalone.go:360-394 | refused if and only if the releasable modules have a cycle; else the waves hold all of them, each wave exactly what the earlier ones allow |
| ReleaseWaves.OneWaveEach | cmd/golib/standalone.go:360-394 | no module is in two waves |
| ReleaseWaves.ReleasableIs | cmd/golib/standalone.go:360-366 | released are exactly the modules that some plan marks so, with the dependencies of the last such plan |
| ReleaseWaves.WavesRespectDependencies | cmd/golib/standalone.go:360-394 | every dependency is in an earlier wave |
| ReleaseWaves.WavesAreEarliest | cmd/golib/standalone.go:360-394 | no schedule that respects dependencies releases a module earlier |
| CivilDate.NextDayAddsOne | pkg/calendar/date.go:471-474 | the ordinal of the day after is one more, across months, years and leap years |
| CivilDate.OrdinalIsOrder | pkg/calendar/date.go:471-474 | the ordinal orders dates as year, month and day do, and tells them apart |
| CivilDate.OrdinalRoundTrip | pkg/calendar/date.go:471-474 | counting days from the first date reaches every date at its ordinal |
| CivilArithmetic.CheckedMultiplyIsExact | pkg/calendar/date.go:459-462 | the 64-bit check passes if and only if the product fits, except for -1 times the least integer |
| CivilArithmetic.AddDaysIsExact | pkg/calendar/date.go:184-195 | succeeds if and only if the result is in range, goes exactly that far, and comes back |
| CivilArithmetic.AddMonthsInto | pkg/calendar/date.go:207-234 | adding the months between two months places the day in the second under the policy |
| CivilArithmetic.PlaceIsValid | pkg/calendar/date.go:220-234 | whatever month arithmetic returns is a valid date |
| CivilArithmetic.CarryIsExact | pkg/calendar/date.go:232-234 | Overflow moves exactly the excess days past the end of the month |
| CivilArithmetic.AddMonthsIsExact | pkg/calendar/date.go:207-234 | the day itself if the month has it; otherwise an error, the last day of the month, or as many days past its first, by the policy |
| CivilArithmetic.AddMonthsFails | pkg/calendar/date.go:207-219 | fails for an invalid date, an unknown policy or a month out of range |
| CivilArithmetic.Compare | pkg/calendar/date.go:145-150 | the sign is the order of the dates, zero exactly for equal ones, and an error if either is invalid |
| CivilArithmetic.DaysUntil | pkg/calendar/date.go:391-396 | adding the returned days leads to the other date; zero if either is invalid |
| DateComponents.MonthsForward | pkg/calendar/date.go:373-387 | whole months toward the date, as many as fit; when they err, and when they pass it |
| DateComponents.YearsForward | pkg/calendar/date.go:359-372 | whole years toward the date, as many as fit and never past it; fails exactly for a missing leap day |
| DateComponents.MonthsBackward | pkg/calendar/date.go:343-357 | whole months back, never past the date: the difference of the months, or one less if that falls short |
| DateComponents.YearsBackward | pkg/calendar/date.go:329-342 | whole years back, as many as fit and never past the date |
| DateComponents.ComponentsUntil | pkg/calendar/date.go:319-388 | years, then months, then days lead exactly to the destination; fails exactly for invalid dates, an unknown policy or a missing date under Reject; all signs agree if and only if Overflow did not carry past a day in March; no more years and no more months would fit, if and only if Overflow does not carry a further month back into that of the destination |
| DateComponents.SignsCanDisagree | pkg/calendar/date.go:52-60 | the dates for which the documented sign rule fails |
| DateComponents.BackwardCanStopShort | pkg/calendar/date.go:343-357 | dates for which one more month would have led back to the destination |
| PolicyDecisions.Combine | pkg/authorization/decision.go:93-126 | fails exactly for an unknown algorithm or outcome; else gives the first applicable decision under FirstApplicable and PriorityOrder, and under an override the first with the overriding outcome or, without one, the last applicable |
| PolicyDecisions.EarlyExitAgrees | pkg/authorization/engine.go:264-269 | decisions after the first decisive one do not matter |
| PolicyDecisions.OverridesOutcome | pkg/authorization/decision.go:93-126 | under deny- or allow-overrides the outcome depends only on which outcomes occur |
| PolicyDecisions.OverridesIgnoreOrder | pkg/authorization/decision.go:93-126 | so it does not depend on their order |
| PolicySnapshot.NewSnapshot | pkg/authorization/snapshot.go:70-127 | created if and only if revision, algorithm and all definitions are valid, and under PriorityOrder sorted; else the error is that of the revision, the algorithm or the first definition at fault |
| PolicySnapshot.FirstFaultIsUnique | pkg/authorization/snapshot.go:84-95 | there is at most one such error, and none if all definitions are valid |
| PolicySnapshot.PriorityOrderIsUnique | pkg/authorization/snapshot.go:112-120 | there is one way to put given policies in priority order |
| PolicySnapshot.PriorityIgnoresDeclaration | pkg/authorization/snapshot.go:112-120 | under PriorityOrder the snapshot does not depend on the order of declaration |
| PolicyEngine.ValidateRequest | pkg/authorization/request.go:77-99 | the first field in checking order that must not be empty but is, or none if the request is valid |
| PolicyEngine.Consult | pkg/authorization/engine.go:212-267 | the loop finishes if and only if the policies it needs all answer before cancellation, and else names the first failure or the cancellation that came before it |
| PolicyEngine.Note | pkg/authorization/engine.go:237-262 | trace and matched identifiers are exactly the first ones up to their limits, and are marked cut if and only if some were left out |
| PolicyEngine.Decide | pkg/authorization/engine.go:182-286 | says exactly when a request is invalid, cancelled, failed and by which cause, or settled; a settled outcome and reason are those of the first active policy that applies, or under an override follow from which outcomes there are; if none applies the request is denied by default |
| PolicyEngine.AllowIsEarned | pkg/authorization/engine.go:269-285 | a ruling allows only if some active policy allows |
| PolicyEngine.OverrideRuling | pkg/authorization/engine.go:182-286 | under overrides a settled outcome depends only on which outcomes the policies have, even if one that was not consulted would fail |
| PolicyEngine.OverrideRulingIgnoresOrder | pkg/authorization/engine.go:182-286 | under overrides two rulings on the same policies, declared in any order, have the same outcome |
| PolicyEngine.FirstApplicableRules | pkg/authorization/engine.go:264-286 | under FirstApplicable and PriorityOrder the first active policy that applies rules, whatever those after it answer |
| PolicyEngine.PriorityRules | pkg/authorization/snapshot.go:112-120 | under PriorityOrder the applicable policy ahead of every other applicable one rules |
| PolicyEngine.DeclarationsSettleAlike | pkg/authorization/snapshot.go:112-120 | under PriorityOrder the same definitions declared in any order settle every request alike |
| PolicyEngine.ConsultsExactly | pkg/authorization/engine.go:310-315 | policies are consulted up to the first whose answer leaves nothing open, and all of them if there is none |
| PolicyEngine.TraceIs | pkg/authorization/engine.go:237-246 | every consulted policy is traced in its place with its own answer |
| PolicyEngine.MatchesAre | pkg/authorization/engine.go:248-262 | a matched identifier comes from a consulted policy that applies: one that it named, or its own if it named none |

## Left out

- Real clocks, timers, goroutine scheduling, contexts and channels: a step takes any clock reading or cancellation as an argument.
- Observer callbacks, event and error text, panic recovery and defensive copies: they add only easy members.
- Wait and execution durations in the bulkhead's counters, and 64-bit wrap-around of lifetime counters in the bulkhead and the breaker.
- The rolling windows of the circuit breaker: whether a sample opens the breaker is an argument of the completing step.
- Exponential open durations and jitter of the breaker: arguments of the steps.
- ThrottlePolicy.ShedsOnlyExcess: reads floating point as real arithmetic; rounding, and samples that are not numbers, are not modelled.
- ThrottleService.Throttler.FinishRecord: a permit names its history by number and not by pointer.
- Sliding expiry and expired-record handling inside the cache's Get: a separate write path outside the flight protocol.
- QueryCompiler.Compile: takes the violations of the schema revision, the mandatory constraints, the page limits and the cursor as an argument; canonical encoding of plans is not modelled.
- QueryCompiler.Compilation.Raise: paths of violations are shortened and their messages dropped.
- AuditChain.VerifyRange: keys come from a function of the request; an error of the key provider is a missing key.
- AuditChain.CheckpointsBindRecords: list lengths are bounded by the largest slice length.
- CivilArithmetic.AddDaysIsExact: the library's day addition is specified by counting days; weeks, quarters, semesters and subtraction only multiply or negate first.
- PolicyEngine.Decide: the revision stamped on the result and resource and environment attributes are not modelled.
- Parsing, formatting and JSON of dates, command-line parsing and help, the rest of `cmd/golib`, and the other packages.
