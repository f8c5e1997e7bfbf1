# MultiNIC agent and controller: a verified model

A Dafny model of the parts of the MultiNIC system where correctness depends on several pieces
working together, and proofs of what they keep.

| file | what it models |
|---|---|
| `Text.dfy`, `Entities.dfy`, `Sums.dfy`, `Listing.dfy` | decimal texts, splitting, interface names, MAC texts; counting over lists; listings of a store |
| `Handler.dfy` | one attempt on one interface: preflight, name, apply, validate, rollback |
| `WorkerPool.dfy`, `PoolTheorems.dfy`, `PoolOrder.dfy`, `PoolDeadlock.dfy` | the worker pool and its client `Execute` as a transition system over every interleaving |
| `Naming.dfy`, `NamingTheorems.dfy`, `NamingUnique.dfy`, `Rename.dfy` | the interface-name allocator, and device renames by concurrent workers |
| `Controller.dfy`, `ControllerRuns.dfy`, `ControllerSafety.dfy`, `ControllerConvergence.dfy`, `ControllerDecisions.dfy` | the poll-mode controller against a cluster and a user that act at any moment |
| `Loader.dfy`, `ResultPath.dfy`, `EndToEnd.dfy` | spec to interfaces, failures to exit status, summary, resource state and statuses |
| `IPv4.dfy`, `Netplan.dfy`, `Cleanup.dfy`, `Resources.dfy` | prefix arithmetic, the written Netplan file against drift detection, orphan removal, routing tables |
| `Backoff.dfy` | retry sleeps and the polling back-off in exact arithmetic |

Main results:

- Worker pool: in every reachable state each submitted job is in exactly one place; when `Execute`
  returns, results and failures partition the input and say how each job's last handler run ended;
  every run has a bounded length. Without cancellation the pool is free of deadlock **if and only
  if** the jobs are fewer than queue slots plus workers, which `Execute`'s queue size guarantees.
  With cancellation `Execute` is sure to return **if and only if** there is no job at all.
- Allocator: the two maps agree and only grow over every sequence of calls; the unnamed MACs get the
  smallest free indices in order of first occurrence; a reservation on any state succeeds **if and
  only if** no explicit name is refused and the free names suffice; names stay unique over a
  sequence of calls whose snapshots agree with the reservations **if and only if** each reservation
  honours distinct new explicit names.
- Renames: over any number of rounds and in every interleaving no reserved name is shared or held by
  a foreign device **if and only if** every reservation is fair: its explicit names are distinct,
  new, and not held by a device whose MAC cannot be read.
- Controller: safe over all runs **if and only if** Jobs are deleted without delay, no TTL is
  configured and pods outlast the processing of their Job. A single run without delay is safe **if
  and only if** no succeeded Job is processed after the failures it reported became unreadable. Each
  resource converges on its own, whatever the others do.
- Result path: the statuses are truthful for every outcome **if and only if** no failure can be
  charged to a foreign entry, a condition on the spec that the documented naming convention implies.
- Persisted state: a file just written shows no drift **if and only if** the resource spells its
  CIDR canonically; cleanup removes exactly the orphans **if and only if** they are named as
  `Configure` names them and none of their removals fails, and spares the routing tables of live interfaces **if and only if** no
  orphan it works off has a live index.

Where the code and its documentation disagree the model follows the code: `multinic05` is accepted
as a name with index 5; a finished Job is processed without comparing generations; a Job's summary is
read when the Job is processed, so with the default TTL of 600 s a partial failure that exits with
status 0 can end as Configured; the controller
looks failures up by the id in the spec while the agent reports the id taken from the name; a CIDR
length may carry leading zeros; cleanup removes the file derived from the name it read, not the file
it found.

Check the whole project with `dafny verify dfyconfig.toml`.

## Model

| member | source | states |
|---|---|---|
| `Entities.CanonicalNameParses` | internal/domain/entities/network_interface.go:243-270 | multinic0 to multinic9 are accepted, each with its own index |
| `Entities.CanonicalNameInjective` | internal/domain/entities/value_objects.go:203-205 | distinct indices print distinct names |
| `Entities.CanonicalIffUnpadded` | internal/domain/entities/network_interface.go:243-270 | an accepted name is the canonical one of its index exactly when it has a single digit |
| `Entities.MacNeedsNoTrim` | internal/domain/entities/value_objects.go:67-81 | an accepted MAC text is not empty and has nothing to trim, so the summary's MAC key is its lower case |
| `Entities.AcceptedIff` | internal/domain/entities/network_interface.go:243-270 | a name is accepted with index i iff i is below 10 and the name is multinic, any number of zeros and i |
| `Text.EqualFoldIff` | internal/controller/reconciler.go:350-402 | texts are equal under folding iff they agree letter by letter up to case |
| `Text.TrimSpaceStrips` | internal/controller/reconciler.go:350-402 | trimming takes off all white space at both ends and nothing else |
| `Handler.HandleIsTraceSafe` | internal/application/usecases/configure_network.go:212-250 | every Configure follows a passed preflight, every failed step is followed by exactly one rollback of the same name, a success was up to date or configured and then validated; a retryable error implies Configure was reached |
| `Handler.PreflightRefusesIff` | internal/application/usecases/configure_network.go:271-306 | a missing device is refused; a present one iff it is UP, in use, not named multinic* and not let through by the override |
| `Handler.SucceedsIff` | internal/application/usecases/configure_network.go:212-250 | an attempt succeeds iff preflight passes, there is a name, and nothing is needed or Configure worked, the device is there and UP afterwards and the status was recorded |
| `Handler.ErrorTellsTheCause` | internal/application/usecases/configure_network.go:403-446 | which error an attempt that does not succeed reports, cause by cause |
| `Handler.EventsTellTheTruth` | internal/application/usecases/configure_network.go:419-446 | every logged event agrees with what the system answered; Configure is logged whenever due and the validation whenever Configure worked |
| `Handler.Processor.ApplyConfiguration` | internal/application/usecases/configure_network.go:403-416 | appends Configure and, on failure, the rollback; reports a network error |
| `Handler.Processor.ValidateConfiguration` | internal/application/usecases/configure_network.go:419-446 | absence or a link that is not UP is rolled back and reported as a network error |
| `Handler.Processor.ProcessInterface` | internal/application/usecases/orchestrator.go:28-47 | apply, then validate, then the status update, each only after the previous one succeeded |
| `Handler.Processor.HandleJob` | internal/application/usecases/configure_network.go:212-250 | the effects of the handler closure, in order, are those of the specified attempt, and what it appends to the log is a safe trace |
| `WorkerPool.ExecuteConfig` | internal/application/usecases/configure_network.go:158-178 | the pool Execute builds has workers, retries and a queue slot for every job |
| `WorkerPool.ExecuteSettings` | internal/application/usecases/configure_network.go:159-178 | positive limits are kept, the defaults are 1 worker and 3 retries, the queue has one slot per interface |
| `WorkerPool.StepKeepsInv` | internal/application/usecases/worker_pool.go:58-135 | every step of client, worker or canceller keeps conservation, attempt records, wait group, lists and counters consistent |
| `WorkerPool.RunKeepsInv` | internal/application/usecases/worker_pool.go:58-145 | the invariant holds after every run |
| `PoolTheorems.JobsConserved` | internal/application/usecases/worker_pool.go:58-135 | submitted jobs are exactly the disjoint union of queued, held, finished and given-up jobs; the after-hook completes at most once per job; no job in any of these places has had more than maxRetries + 1 handler runs; the wait group never goes negative |
| `PoolTheorems.AttemptsBounded` | internal/application/usecases/configure_network.go:355-377 | for a job in any place: at most maxRetries + 1 handler runs, at most maxRetries retries, and the retried runs are exactly those the policy retries and come first |
| `PoolTheorems.ReturnedOutput` | internal/application/usecases/configure_network.go:164-266 | when Execute returns, Results and Failures hold each input once, the counters are their lengths and add up to the total, and the channel was closed empty with no worker able to send |
| `PoolTheorems.ListsTellTheTruth` | internal/application/usecases/configure_network.go:184-209 | a finished job is in Results iff its last handler run succeeded and in Failures iff it did not |
| `PoolTheorems.TracesAreSafe` | internal/application/usecases/configure_network.go:212-250 | for every handler run of every job, queued, held, finished or given up: Configure only after a passed preflight and rollback only after a failure of the same name, even if it panicked; a run that returned is fully trace safe |
| `PoolTheorems.RetriedIffNotLast` | internal/application/usecases/configure_network.go:355-377 | a finished job's run was retried exactly when the attempt limit and the error type say so, and that is every run but its last |
| `PoolTheorems.TriedUntilSettled` | internal/application/usecases/configure_network.go:355-377 | a finished job's runs before the last ended in a timeout, network, system or resource error; any other end is its last run; it gives up on one of these four only after exactly maxRetries + 1 runs |
| `PoolTheorems.UnsettledIsTransient` | internal/application/usecases/worker_pool.go:90-110 | a queued or given-up job has seen only those four kinds of error, at most maxRetries times |
| `PoolOrder.OldestFirst` | internal/application/usecases/worker_pool.go:62-66 | a job received for the first time was submitted before all jobs still waiting for their first attempt |
| `PoolTheorems.StepDecreases` | internal/application/usecases/worker_pool.go:77-115 | a measure over queued and held jobs and their remaining attempts falls with every step |
| `PoolTheorems.RunsAreBounded` | internal/application/usecases/worker_pool.go:58-135 | every run has at most jobs * (7 * maxRetries + 11) + workers + 5 steps |
| `PoolTheorems.SendsNeverBlock` | internal/application/usecases/configure_network.go:175-178 | with a slot per job neither Submit nor a re-enqueue ever blocks |
| `PoolTheorems.Progress` | internal/application/usecases/worker_pool.go:58-135 | in every invariant state that is not finished or cancelled some step other than cancellation is enabled, if jobs are fewer than slots plus workers |
| `PoolDeadlock.ReachesDeadlock` | internal/application/usecases/worker_pool.go:103-109 | otherwise a run exists after which all workers wait to re-enqueue into a full queue and the client waits too |
| `PoolDeadlock.DeadlockFreeIff` | internal/application/usecases/worker_pool.go:42-55 | deadlock freedom over all uncancelled runs holds iff jobs < capacity + workers |
| `PoolDeadlock.ExecuteReturns` | internal/application/usecases/configure_network.go:251-266 | an uncancelled run of Execute that cannot go on has returned, all workers have left, and processed + failed = total |
| `PoolDeadlock.CancellationCanHang` | internal/application/usecases/worker_pool.go:62-66 | for every pool with a job there is a cancelled run after which no step is possible and wg.Wait has not returned |
| `PoolDeadlock.WakeGivesUpIff` | internal/application/usecases/worker_pool.go:98-110 | a job whose back-off ends is given up iff the context is cancelled, and otherwise goes back with one more attempt |
| `PoolDeadlock.GivenUpNeverReturns` | internal/application/usecases/worker_pool.go:98-110 | once a job has been given up no continuation returns from wg.Wait |
| `PoolDeadlock.StuckReturnedIff` | internal/application/usecases/configure_network.go:251-257 | a run that cannot go on has returned iff every job's after-hook has run |
| `PoolDeadlock.AlwaysReturnsIff` | internal/application/usecases/worker_pool.go:98-110 | with cancellation allowed, every run that cannot go on has returned iff there are no jobs |
| `Naming.InterfaceNamingService.GenerateNextNameForMAC` | internal/domain/services/interface_naming.go:64-116 | the two maps and the answer are those of the specified request: reservation, own existing name, lowest free name, or none |
| `Naming.InterfaceNamingService.LowestFree` | internal/domain/services/interface_naming.go:102-135 | finds the lowest index whose name neither exists nor is reserved |
| `Naming.InterfaceNamingService.ReserveExplicit` | internal/domain/services/interface_naming.go:144-167 | phase 0: honours explicit names in order, stops at the first conflict or invalid name |
| `Naming.InterfaceNamingService.ReuseExisting` | internal/domain/services/interface_naming.go:169-196 | phase 1: existing multinic names stay with the requested MAC that carries them |
| `Naming.InterfaceNamingService.AssignLowest` | internal/domain/services/interface_naming.go:198-220 | phase 2: as specified by Assign, with the same failure |
| `Naming.InterfaceNamingService.ReserveNamesForInterfaces` | internal/domain/services/interface_naming.go:138-223 | the three phases together; the returned map lists the reservations this call added |
| `NamingTheorems.CallsKeepGood` | internal/domain/services/interface_naming.go:64-99 | over every sequence of calls with any system snapshots the taken names are exactly the assigned ones, all are valid, and no entry changes or disappears |
| `NamingTheorems.ReservedNameIsStable` | internal/application/usecases/configure_network.go:153-156 | after a successful reservation on any state every later request for those MACs returns the reserved name and changes nothing |
| `NamingTheorems.FreeFromIsExact` | internal/domain/services/interface_naming.go:125-135 | the free list is exactly the free indices below 10 in ascending order |
| `NamingTheorems.AssignIsLowestFree` | internal/domain/services/interface_naming.go:197-220 | the k-th still unnamed MAC gets the k-th smallest free index, nothing else changes, and it fails iff the unnamed MACs outnumber the free names |
| `NamingTheorems.ExplicitOkIff` | internal/domain/services/interface_naming.go:144-167 | phase 0 succeeds iff no first explicit entry of an unnamed MAC has an invalid name or one shown with another MAC |
| `NamingTheorems.ReserveFailsIff` | internal/domain/services/interface_naming.go:138-223 | judged by state, request and snapshot alone: a reservation succeeds iff no explicit name is refused and the MACs that have, bring and show no name are not more than the names that neither exist nor are given out nor asked for |
| `NamingUnique.DistinctNamesSuffice` | internal/domain/services/interface_naming.go:144-167 | explicit names that differ wherever MACs differ, none given out before, meet the uniqueness condition |
| `NamingTheorems.GenerateKeepsGood` | internal/domain/services/interface_naming.go:64-99 | a lazy request keeps the maps consistent and answers exactly the entry it leaves |
| `NamingTheorems.GenerateAnswers` | internal/domain/services/interface_naming.go:75-99 | a MAC without a reservation gets the lowest multinic<i> whose device shows it, else the lowest name that neither exists nor is given out, and nothing iff neither exists; only that entry is added |
| `NamingTheorems.ReserveGives` | internal/domain/services/interface_naming.go:144-196 | a successful reservation gives an unnamed MAC the name of its first explicit entry, and without one the lowest multinic<i> that shows it |
| `NamingTheorems.ReserveAddsOnlyAsked` | internal/domain/services/interface_naming.go:181-194 | a reservation adds entries only for MACs of the request |
| `NamingUnique.GenerateKeepsQuality` | internal/domain/services/interface_naming.go:64-99 | a lazy request on a consistent state that agrees with the snapshot leaves uniqueness, agreement and readability of holders as they were |
| `NamingUnique.ReserveUniqueIff` | internal/domain/services/interface_naming.go:138-223 | a reservation on any consistent state, successful or not, agrees with the system and keeps names unique iff the explicit names it honours are distinct and new |
| `NamingUnique.ReserveSightedIff` | internal/domain/services/interface_naming.go:154-159 | it reserves no name of a device with an unreadable MAC iff no explicit name it honours is one |
| `NamingUnique.CallsUniqueIff` | internal/domain/services/interface_naming.go:64-99 | over every sequence of calls with agreeing snapshots names are unique iff each reservation honours distinct new names at its time |
| `NamingUnique.CallsKeepCanonical` | internal/domain/services/interface_naming.go:197-220 | with canonical explicit names every name ever given out is canonical |
| `Rename.NoCollisionIff` | internal/infrastructure/network/netplan_adapter.go:65-86 | over every run of reservations, lazy requests and renames no reserved name is ever shared or held by a foreign device iff every reservation is fair at its time; MACs may be shared or unreadable |
| `Rename.NoRenameCollision` | internal/infrastructure/network/netplan_adapter.go:65-86 | from a new allocator every fair run ends with each reserved name free or carried by its own MAC, none shared, and as many devices per MAC as before |
| `Rename.RenamedForGood` | internal/infrastructure/network/netplan_adapter.go:73-86 | a device that carries its reserved name keeps it through the rest of the run |
| `Rename.ConfiguredDeviceKeepsName` | internal/infrastructure/network/netplan_adapter.go:65-86 | once some worker's rename has worked, a device with that MAC ends the run under the reserved name; other renames may fail |
| `Rename.UnreadableHolderCollides` | internal/domain/services/interface_naming.go:154-165 | an explicit name held by a device with an unreadable MAC is reserved all the same, and in no continuation does the requested MAC carry it: every rename to it is refused |
| `Controller.JobNameInjective` | internal/controller/reconciler.go:87-89 | Job names determine node and generation for arbitrary node texts |
| `Controller.MergeStatus` | internal/controller/reconciler.go:559-566 | the patch wins and every other status key stays as it was |
| `Controller.Controller.ScheduleJobDeletion` | internal/controller/reconciler.go:546-556 | deletes at once, or marks for later when a delay is configured |
| `Controller.Controller.DeleteStale` | internal/controller/reconciler.go:126-132 | deletes exactly the node's other Jobs |
| `Controller.Controller.ReconcileOne` | internal/controller/reconciler.go:35-134 | the new store and the error are those of the specified reconcile step |
| `Controller.Controller.ProcessAll` | internal/controller/reconciler.go:150-167 | reconciles in order and stops at the first error |
| `Controller.Controller.ProcessOne` | internal/controller/reconciler.go:193-420 | a Job listed as finished decides the state unless the resource already says so; its summary is read at that moment, failures in it outweigh a zero exit, and the Job is deleted |
| `Controller.Controller.ProcessJobs` | internal/controller/reconciler.go:170-424 | processes every listed Job once, in order |
| `Controller.Controller.RunOnce` | internal/controller/service.go:16-20 | a cycle is the reconcile pass followed, if it had no error, by the pass over some listing of the Jobs |
| `ControllerDecisions.ProcessActsIff` | internal/controller/reconciler.go:193-420 | a listed Job has an effect iff it has finished, its resource exists and does not say so already; then only that state changes and only that Job is deleted or doomed |
| `ControllerDecisions.DecisionNeedsFinishedJob` | internal/controller/reconciler.go:195-332 | in any environment a resource becomes Configured or Failed only when a listed Job of its node with a success or failure is processed |
| `ControllerDecisions.RunningJobLeavesOnly` | internal/controller/reconciler.go:126-132 | in every run a Job without success or failure leaves the store only by expiry, a delayed deletion, or as stale |
| `ControllerDecisions.InProgressStays` | internal/controller/reconciler.go:115-134 | without delay and without a finish of its Job an unedited resource in progress stays so over every run, and its Job stays as it is unless it expires |
| `ControllerDecisions.CreatedJobRuns` | internal/controller/reconciler.go:115-125 | the Job Reconcile has just created is such a running Job |
| `ControllerDecisions.StatusChangesByFinish` | internal/controller/reconciler.go:115-119 | a stored Job is never created again over itself: its status changes only when it finishes |
| `ControllerDecisions.JobAppearsByReconcile` | internal/controller/reconciler.go:87-125 | a Job appears only as that of the current generation of an undecided resource on a valid node, with no success and no failure |
| `ControllerDecisions.ObservedByReconcile` | internal/controller/reconciler.go:104-114 | a generation is taken up only by reconciling, together with state InProgress and its Job's name |
| `ControllerDecisions.ErrorChangesNothing` | internal/controller/reconciler.go:35-84 | a reconcile error leaves the store alone |
| `ControllerDecisions.StopsAtFirstError` | internal/controller/reconciler.go:150-160 | a pass that meets an error has done exactly what the resources before it required |
| `ControllerDecisions.PassIsRun` | internal/controller/reconciler.go:150-167 | ProcessAll is a run of reconcile steps of the transition system |
| `ControllerDecisions.ListIsRun` | internal/controller/reconciler.go:170-424 | ProcessJobs is a run that processes each listed Job once |
| `ControllerRuns.RunKeepsShape` | internal/controller/reconciler.go:35-134 | without delay, whatever expires or gets lost, every run keeps: stored and listed Jobs belong to the observed generation of an undecided resource |
| `ControllerRuns.RunIsSafeIff` | internal/controller/reconciler.go:207-212 | a run without delay is safe throughout iff no succeeded Job is processed when it reported failures and none of them can be read any more |
| `ControllerRuns.RunKeepsInv` | internal/controller/reconciler.go:170-331 | without delay and losses every run keeps the whole invariant, including that what is read for a succeeded Job is what it reported |
| `ControllerSafety.DelayIsUnsafe` | internal/controller/reconciler.go:546-556 | with any positive delay a run exists in which an old generation's Job completes a newer generation |
| `ControllerSafety.LossIsUnsafe` | internal/controller/reconciler.go:428-449 | where Jobs expire or pods vanish a run exists in which a Job with a reported failure ends as Configured |
| `ControllerSafety.SafeIff` | internal/controller/reconciler.go:193-331 | at most one Job per node, that of the observed generation, and Configured only if the latest success of that generation's Job reported no failures: on all runs iff there is no delay, no TTL and no loss of pods |
| `ControllerConvergence.PassSucceedsIff` | internal/controller/reconciler.go:150-167 | the pass over the resources has no error iff every listed resource exists and is decided or on a valid node |
| `ControllerConvergence.PassSettles` | internal/controller/reconciler.go:115-132 | in every interleaving that does not edit the resource or take its current Job away, a completed pass leaves each listed resource decided or with the Job of its generation, so a Job lost before is created again |
| `ControllerConvergence.ListedJobDecides` | internal/controller/reconciler.go:195-420 | in every interleaving a finished Job that was listed decides its own resource by the end of the list, by its exit and the summary it had, whatever the other Jobs do |
| `ControllerConvergence.FinishedJobDecides` | internal/controller/reconciler.go:195-420 | a Job that finishes, is listed and is left alone makes its resource Configured iff it exited with status 0 and reported no failures, Failed otherwise |
| `ControllerConvergence.DecidedStays` | internal/controller/reconciler.go:48-57 | over every run without an edit of its spec a decided resource never changes and never gets a Job |
| `ControllerConvergence.QuiescentIsFixed` | internal/controller/reconciler.go:48-57 | from then on a cycle changes neither resources nor Jobs |
| `ControllerConvergence.Converges` | internal/controller/service.go:16-20 | from any reachable state a cycle in which the resource's own Job is listed finished decides it for good, over all interleavings without an edit, while other resources may hang |
| `Loader.LoadEntry` | internal/infrastructure/persistence/nodecr_repository.go:95-117 | id derivation by name, spec id or position, then the constructor's checks |
| `Loader.UnnamedEntry` | internal/infrastructure/persistence/nodecr_repository.go:102-111 | an unnamed entry is loaded as multinic<id> under its id, or its position plus one without one, and rejected iff that id or a field is bad |
| `Loader.NamedEntry` | internal/infrastructure/persistence/nodecr_repository.go:96-109 | a named entry is loaded under its name and the index in it, whatever its id says, and rejected iff the name or a field is bad |
| `Loader.LoadedFields` | internal/infrastructure/persistence/nodecr_repository.go:95-117 | the id of a loaded interface is the index in its name; the other fields are the entry's |
| `Loader.LoadAll` | internal/infrastructure/persistence/nodecr_repository.go:85-120 | invalid entries are skipped, the others are loaded in order |
| `Loader.KeptIsExact` | internal/infrastructure/persistence/nodecr_repository.go:112-115 | the kept positions are exactly the accepted entries, ascending |
| `Loader.LoadsTheAccepted` | internal/infrastructure/persistence/nodecr_repository.go:85-120 | the k-th interface comes from the k-th accepted entry |
| `ResultPath.MapStatuses` | internal/controller/reconciler.go:350-402 | the lookup maps and the loop give each entry the status of the last failure with its non-zero id, else with its MAC, else Configured; the copies at lines 213-260 and 589-637 perform the same steps |
| `ResultPath.ChargedIff` | internal/controller/reconciler.go:350-402 | an entry is marked Failed iff some failure has its non-zero id or its MAC |
| `ResultPath.StatusShows` | internal/controller/reconciler.go:350-402 | the status shows the last failure with the entry's non-zero id; only without one, the last with its MAC; otherwise the entry's own id; position and MAC are the entry's |
| `ResultPath.MarkedIffOwnFailed` | internal/controller/reconciler.go:213-260 | without cross talk an entry is marked Failed iff its own interface failed, in whatever order failures were recorded |
| `ResultPath.MessageIsOwn` | internal/controller/reconciler.go:589-637 | the message and id of a failed entry are those of its own interface |
| `ResultPath.TruthfulIff` | internal/controller/reconciler.go:350-402 | marking is truthful for every set of failures iff the spec is free of cross talk |
| `ResultPath.ConventionSuffices` | README.md:290-307 | name = multinic plus id, distinct ids, MACs distinct ignoring case: no cross talk |
| `ResultPath.SwappedIdsCrossTalk` | internal/infrastructure/persistence/nodecr_repository.go:96-104 | two entries with distinct names, ids and MACs but swapped ids do have cross talk |
| `ResultPath.DecideExit` | cmd/agent/main.go:254-271 | the agent fails iff everything failed, or something failed and completion on partial failure is off |
| `ResultPath.CompletesIff` | cmd/agent/main.go:258-258 | completion on partial failure is on iff the variable is empty or, trimmed, the word true in any case |
| `ResultPath.VerdictIff` | cmd/agent/main.go:254-315 | Configured means no failure, exactly when the summary arrives or the outcome is not a partial failure completed as success |
| `EndToEnd.FailuresAreTheFailed` | internal/application/usecases/configure_network.go:191-209 | for every completed run the failure list names exactly the interfaces whose last handler run did not succeed |
| `EndToEnd.StateIsTrue` | internal/controller/reconciler.go:195-331 | for every completed run whose summary arrives the resource is Configured iff every interface's last handler run succeeded, Failed otherwise, whatever the partial-failure setting |
| `EndToEnd.StoredStateIsTrue` | internal/controller/reconciler.go:195-420 | across both processes: a completed pool run ends the Job, the Job is listed, and in every interleaving of the rest of the list that leaves it alone the stored resource ends Configured iff no interface failed, Failed otherwise |
| `EndToEnd.StatusesAreTrue` | internal/controller/reconciler.go:332-420 | for every completed run and a spec free of cross talk an entry is marked Failed iff its own interface's last handler run did not succeed |
| `EndToEnd.ConventionalStatusesAreTrue` | internal/controller/reconciler.go:350-402 | the same for specs written after the documented convention |
| `IPv4.AddressRoundTrip` | internal/domain/services/drift_detector.go:157-179 | a printed address reads back as itself |
| `IPv4.AddressTextUnique` | internal/domain/entities/value_objects.go:21-35 | an accepted dotted quad is the only text of its address |
| `IPv4.NetworkRoundsDown` | internal/domain/entities/value_objects.go:108-122 | masking octet by octet rounds the 32-bit number down to a multiple of 2^(32-n) (section 3.1 of RFC 4632) |
| `IPv4.CoversIffInBlock` | internal/domain/entities/value_objects.go:130-135 | a prefix contains exactly one aligned block of 2^(32-n) addresses |
| `Netplan.IndexOfValidName` | internal/infrastructure/network/netplan_adapter.go:323-332 | for an accepted name the adapter's index is the entity's index |
| `Netplan.TableSharedIff` | internal/infrastructure/network/options.go:38-47 | accepted names share a routing table iff they have the same index; canonical ones iff they are equal |
| `Netplan.TableNumbers` | internal/infrastructure/network/options.go:27-47 | table and metric are the positive base, or 100, plus the index |
| `Netplan.PaddedNameSharesTable` | internal/infrastructure/network/options.go:38-41 | multinic05 and multinic5 are both accepted and share a table |
| `Netplan.GenerateNetplanConfig` | internal/infrastructure/network/netplan_adapter.go:191-248 | fills the single entry as specified, including the branches without address or with a malformed CIDR |
| `Netplan.WrittenRouting` | internal/infrastructure/network/netplan_adapter.go:191-248 | with policy routing the file has one rule from the written address and one route to the CIDR, both on one table; without it neither; set-name is the name it is filed under |
| `Netplan.FilesShareNoTable` | internal/infrastructure/network/netplan_adapter.go:213-229 | files of interfaces with different indices share no table |
| `Netplan.ExtractNetplanConfig` | internal/domain/services/drift_detector.go:157-179 | reads one entry; an address that does not parse is kept as text with an empty CIDR |
| `Netplan.MalformedFileDrifts` | internal/domain/services/drift_detector.go:163-185 | a file without a readable address drifts from every interface with address and CIDR |
| `Netplan.CanonicalCidrIff` | internal/domain/services/drift_detector.go:163-172 | a CIDR text without host bits and without padding is exactly the text printed for its network |
| `Netplan.NoDriftIff` | internal/domain/services/drift_detector.go:181-185 | comparing any interface with the file written for a valid one reports no drift iff MAC, address and MTU agree and its CIDR is the canonical text of the written network |
| `Netplan.RoundTripIff` | internal/domain/services/drift_detector.go:157-202 | the file just written shows no drift iff the resource's CIDR is canonical, using that the address lies inside it |
| `Netplan.HostBitsDrift` | internal/domain/services/drift_detector.go:181-185 | an interface whose CIDR is its own address with a length is accepted, and its fresh file drifts iff the address has host bits |
| `Netplan.DriftExample` | internal/domain/services/drift_detector.go:181-185 | 10.0.0.5/24 as the CIDR of 10.0.0.5 is accepted and drifts |
| `Netplan.PaddedLengthDrifts` | internal/domain/services/drift_detector.go:181-185 | a zero in front of the prefix length is accepted and the fresh file then drifts |
| `Netplan.WriteThenRead` | internal/domain/services/drift_detector.go:79-98 | the same through the writer's and the reader's own steps |
| `Cleanup.Directory.Persist` | internal/infrastructure/network/netplan_adapter.go:115-133 | Configure takes the routing table of the name and writes exactly the file derived from the name |
| `Cleanup.Directory.Rollback` | internal/infrastructure/network/netplan_adapter.go:158-174 | removes exactly that file if it is there and flushes the name's table; when the removal fails it changes nothing |
| `Cleanup.Directory.FindOrphaned` | internal/application/usecases/delete_network.go:198-255 | selects, in listing order, the multinic files with a readable MAC that no active interface has |
| `Cleanup.NeverSelected` | internal/application/usecases/delete_network.go:258-262 | a file that does not begin with 9, does not end in .yaml, has no dash or does not mention multinic is never an orphan |
| `Cleanup.OrphanIff` | internal/application/usecases/delete_network.go:218-252 | a multinic file is an orphan iff it can be read, has a MAC, and the first MAC in it is, ignoring case, that of no interface |
| `Cleanup.OrphansCounted` | internal/application/usecases/delete_network.go:224-252 | the selection lists each orphan once |
| `Cleanup.Directory.ExecuteCleanup` | internal/application/usecases/delete_network.go:96-133 | directory, routing tables, deleted list and error list after one rollback per orphan |
| `Cleanup.FileNameRoundTrip` | internal/application/usecases/delete_network.go:258-288 | the file Configure writes for a name is recognised as a multinic file and the name is read back from it |
| `Cleanup.FileNameInjective` | internal/infrastructure/network/netplan_adapter.go:126-127 | distinct names have distinct files |
| `Cleanup.TargetIdempotent` | internal/application/usecases/delete_network.go:265-288 | the file removed for f would itself be removed for itself |
| `Cleanup.SweepRemoves` | internal/application/usecases/delete_network.go:116-131 | exactly the removable targets go, nothing else is touched, deleted + errors = orphans |
| `Cleanup.ExactIff` | internal/application/usecases/delete_network.go:96-133 | on any host cleanup removes exactly the orphans iff every orphan is named as Configure names it and the removal of none fails |
| `Cleanup.ConfiguredFilesAreWellNamed` | internal/infrastructure/network/netplan_adapter.go:124-127 | files written by Configure for accepted names meet that condition |
| `Cleanup.FailuresAreIsolated` | internal/application/usecases/delete_network.go:116-131 | with well-named orphans the errors name exactly the orphans that stayed and all others are gone |
| `Cleanup.SecondRun` | internal/application/usecases/delete_network.go:96-133 | after a run without errors a second run changes no file and no table, and reports nothing deleted iff the orphans were well named |
| `Cleanup.SweepFlushes` | internal/infrastructure/network/netplan_adapter.go:309-320 | a routing table survives iff no orphan worked off has it |
| `Cleanup.FileUsesOwnTable` | internal/infrastructure/network/netplan_adapter.go:213-229 | the one table a written file refers to is the one Configure takes and Rollback flushes |
| `Cleanup.LiveTablesKeptIff` | internal/infrastructure/network/netplan_adapter.go:309-320 | cleanup leaves the tables of live interfaces alone iff no orphan worked off has the index of a live one |
| `Cleanup.CanonicalNamesKeepTables` | internal/infrastructure/network/options.go:38-41 | canonical names on both sides, none of them both live and orphaned, meet that condition |
| `Cleanup.PaddedOrphanFlushesLive` | internal/infrastructure/network/options.go:38-41 | the orphan of multinic05 violates it for a live multinic5 |
| `Resources.NamedMacsShareNothing` | internal/infrastructure/network/options.go:38-47 | over every sequence of calls with canonical, distinct and new explicit names different MACs have different indices, tables and files |
| `Resources.LoadedFilesRoundTripIff` | internal/domain/entities/network_interface.go:64-68 | every interface loaded under the IPv4 checks satisfies the round trip's hypothesis, so its file shows no drift iff its entry's CIDR is canonical |
| `Cleanup.ForeignLabelRemovesOther` | internal/application/usecases/delete_network.go:291-301 | an orphan with another label stays and the named interface's own file, if it can be removed, is removed |
| `Cleanup.ForeignExample` | internal/application/usecases/delete_network.go:291-301 | 99-multinic1.yaml as orphan makes cleanup remove the live 91-multinic1.yaml |
| `Backoff.Pow` | internal/application/usecases/configure_network.go:379-383 | repeated multiplication gives the n-th power, 1 for n at most 0 |
| `Backoff.Geometric` | internal/application/usecases/configure_network.go:355-377 | the untruncated delays of n retries add up to base * (m^n - 1) / (m - 1) |
| `Backoff.SleepAtLeast` | internal/application/usecases/configure_network.go:369-372 | the total sleep falls short of the untruncated sum by at most a nanosecond per retry |
| `Backoff.MultiplierIs` | internal/application/usecases/configure_network.go:358-359 | a positive multiplier is kept, any other becomes 2 |
| `Backoff.JobSleepBounded` | internal/application/usecases/configure_network.go:355-383 | in every reachable state the total sleep of a job in any place is at most 100 ms * (m^R - 1) / (m - 1) for m > 1, and R * 100 ms otherwise |
| `Backoff.ExponentialBackoffStrategy.NextInterval` | internal/application/polling/strategy.go:50-81 | success resets the level and gives the base interval; failure raises it and gives the capped, converted product |
| `Backoff.ExponentialBackoffStrategy.Reset` | internal/application/polling/strategy.go:83-87 | sets the level back to 0 |
| `Backoff.LevelCountsTrailingFailures` | internal/application/polling/strategy.go:50-65 | after any history the level is the number of failures since the last success |
| `Backoff.ClosedFormIff` | internal/application/polling/strategy.go:66-74 | the interval is min(base * m^(k-1), max) on every platform iff the product stays below 2^63 ns |
| `Backoff.FirstIntervals` | internal/application/polling/strategy.go:66-74 | the first failure gives the base interval and the second the base times the multiplier, capped |
| `Backoff.IdealMonotone` | internal/application/polling/strategy.go:66-74 | the intended interval never falls with more failures in a row |
| `Backoff.IntervalMonotone` | internal/application/polling/strategy.go:66-81 | the computed interval, on every platform while the product is in range, never falls with more failures in a row and stays between base and max |

## Left out

- Watch mode, informers and pod events: the controller is modelled in poll mode.
- Kubernetes, YAML, JSON and database libraries: stored objects are records and maps; a written file is read back as the record it was written from.
- CR deletion, cleanup Jobs and recreation of a resource: generations restart at 1, which breaks the argument by generations. The resource is taken to be named after its node.
- Failing API calls in the controller: status updates, Job creation, listing and deletion succeed; the only error modelled is a missing resource or an invalid node.
- Concurrency inside one allocator call and inside one step of the controller: the first holds a mutex; reconciling one resource, listing and processing one Job, with its summary read at that moment, are one step each. A Job's pods go with it when it is deleted or expires.
- Workers, queue and counters are updated by steps of a transition system on values rather than by a class, because the steps belong to concurrent goroutines; the order of writes within one step is not modelled.
- A handler that never returns is not modelled; the results about progress without cancellation are stated apart from those with it.
- Preflight inputs: the existing names, addresses, routes and link states are parameters; parsing of /proc/net/route and of `ip` output is left out.
- The need check inside the handler and the system half of drift detection: their outcome is a parameter; only the comparison with the file is modelled.
- Per-interface statuses of a fully successful Job, which are built from the results list: only the Failed marks are modelled.
- Loader.LoadEntry: the check of address and CIDR is a parameter, because it also accepts IPv6; its IPv4 half is `Netplan.V4Accepts`.
- Lookup of a device by MAC: the adapter matches the MAC anywhere in a line of `ip` output; the model takes the device found to have that MAC.
- IPv6 and mapped addresses: the prefix results are about dotted quads. Masks clear bits arithmetically instead of by a bitwise AND.
- Backoff.JobSleepBounded: exact arithmetic without floating-point rounding, for products below 2^63 ns; the time a job waits in the queue is not part of the sleep.
- Adaptive polling, full cleanup mode and RHEL ifcfg files: they would add easy members, or have no matching writer to prove a round trip against.
- Text operations act on ASCII: case folding and white space beyond ASCII are not modelled.
- updateInterfaceStates: it rewrites interface statuses and node readiness in each cycle and leaves state and observedGeneration alone.
- Runtime `ip` and `sysctl` commands of Configure and Rollback other than the rename and the use of a routing table, whose flush is taken to succeed; metrics, logging, health and deployment files.
