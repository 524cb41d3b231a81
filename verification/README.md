# A verified model of the thin-edge.io container plugin

The plugin keeps three worlds in step: the containers of an engine, the thin-edge.io entity store and the services of a
device in the cloud. This project models the parts of it whose correctness rests on protocols, in-place algorithms or
failure handling, and proves what they keep over every input, every failure pattern and every interleaving.

| file | what it models |
|---|---|
| `Frames.dfy`, `StdCopy.dfy` | the multiplexed log stream: its format as a pure parser and printer, and the writer and the demultiplexer over one growing, shifting buffer fed by an adversarial source |
| `Filter.dfy`, `Merge.dfy`, `Debounce.dfy` | filter options and what they select, merging of update requests, and the debouncer under every order of requests, timer expiries and late callbacks |
| `Retry.dfy` | events, debouncer, bounded queue, worker and retry timer as one system of steps, with the services that are owed another deletion attempt |
| `Naming.dfy` | under which name a container is known in updates and in events |
| `Platform.dfy`, `Reconcile.dfy`, `Convergence.dfy`, `Safety.dfy` | one update against two fallible stores, what it may ask of them, what many updates achieve together, and what no update ever does |
| `Worker.dfy` | the worker's loop over its requests: what all its updates keep, and when they check for orphans |
| `Engine.dfy`, `Clone.dfy` | replacing a container with rollback while any engine call may fail, with or without having taken effect |
| `RateLimiter.dfy`, `CrashLoop.dfy`, `Retained.dfy` | the event rate limiter, the crash-loop monitor with its background alarm publishers, and the alarms the broker retains |
| `Strings.dfy`, `Target.dfy` | topic identities of devices and services |
| `ExtraHosts.dfy` | patching a host into compose services, in place on YAML nodes |
| `SelfCheck.dfy` | partitioning a software update list around the plugin's own container |
| `ImageRef.dfy` | comparing image references |

State that the program changes in place is a class (`StdCopy.Source`, `StdCopy.Sink`, `Debounce.UpdateDebouncer`,
`Reconcile.App`, `Platform.Stores`, `Engine.ContainerEngine`, `RateLimiter.EventRateLimiter`, `CrashLoop.Monitor`,
`ExtraHosts.Node`). Each method is tied to a function or a predicate on values, about which the laws are then proved.
Clocks, call outcomes, chunk sizes and the answers of the engine and the cloud are parameters or nondeterministic choices.

## What came out

Laws that hold as the code and its comments promise them are in the table below. These are the places where the code
does something else; each has its exact condition.

- A failed orphan check is said to be retried by the next update regardless of the interval
  (`pkg/app/app.go:1063-1064`). That is so unless the check was forced by a stale removal within the interval:
  `Worker.FailedSweepRetriedIff`, with `Worker.ForcedSweepNotRetried` as an instance.
- A request merged from scoped ones is to cover them (`pkg/app/debounce.go:16-18`). It does exactly when some member scans
  everything, or all members name ids or none does and likewise for names: `Merge.CoverageIffUniform`.
- A stale service whose cloud deletion failed is to be retried without an external trigger
  (`pkg/app/app.go:454-463`). The code lets go of that retry where the queue is full at dispatch
  (`pkg/app/app.go:239-245`), where a full update cannot read entities or containers, where the snapshot lacks the
  service because its twin could not be read (`pkg/tedge/tedge.go:286-294`), where retries are off, and where the retry is
  merged into a pending scan with labels. `Retry.LettingGoLosesIff` says of every step exactly when it leaves the service
  without a retry; `Retry.FailedReadEndsTheRetries`, `Retry.LackingSnapshotEndsTheRetries` and
  `Retry.LabelledScanEndsTheRetries` are runs in which one does.
- A failed orphan check counts as cleanup to be retried as well (`pkg/app/app.go:1070-1085`), but the retry makes none
  when none is due: `Retry.CheckNotDueEndsTheRetries`.
- A merged request is to be dispatched once the quiet period has elapsed after the last one
  (`pkg/app/debounce.go:96-98`). A callback that comes late takes a newer request at once, and the timer of that one then
  takes the next batch early, and so on until some callback finds nothing to take. `Debounce.OwnTimerIff` says exactly
  when a batch is taken by the timer of its own last request, `Debounce.LateRequestsLinger` counts the timers too many,
  and `Debounce.NextBatchIsEarlyToo` is a run.
- A full-scan request is said to supersede any scoped one (`pkg/app/debounce.go:85-87`). That a scan of everything,
  without labels, comes out of a merge is so unless it comes second to a scan with labels: `Debounce.UnscopedSurvivesIff`.
- Of two requests that are not both updates the broader or earlier is said to be kept (`pkg/app/debounce.go:59-61`). The
  earlier is, if and only if it is an update that names no containers: `Debounce.EarlierIsKeptIff`.
- Stale services are said not to be removed under client-side filtering (`pkg/app/app.go:914-916`), but the test for it
  ignores types and exclusions (`pkg/container/container.go:584-586`). A running container that these filters drop loses
  its service exactly when the update names neither containers nor labels: `Safety.FilteredOutIsRemovedIff`, with
  `Safety.ExcludedContainerIsRemoved` as an instance.
- Entities whose twin cannot be read are missing from a snapshot (`pkg/tedge/tedge.go:286-294`), and the orphan sweep takes
  what is missing for unregistered. It spares every registered service exactly when each one missing is that of a listed
  container: `Safety.SweepSparesRegisteredIff`, with `Safety.LackingEntityIsSwept` as an instance.
- Events and updates are to agree on the identity of a service (`pkg/app/app.go:541-545`). They do, except for a
  project's container without a service label, and for one whose working directory is an empty label under which a module
  name is stored: `Naming.NamesAgreeIff`, with `Naming.NoServiceLabelDisagrees` as an instance.
- The event limiter is reset under the bare service name while its keys carry the action (`pkg/app/app.go:625`,
  `pkg/app/app.go:687`), so the reset frees nothing: `RateLimiter.ResetByServiceNameMisses`. Events of one service and
  action are spaced even across a healthy or removal event: `CrashLoop.PublishedAreSpaced`.
- The default crash-loop threshold reaches only a copy of the settings made after the application had taken its own
  (`pkg/app/app.go:228`, `pkg/app/app.go:247-249`): `CrashLoop.Monitor.constructor`. Alarms are for restarts
  if and only if the threshold is at least one: `CrashLoop.AlarmsNeedRestartsIff`.
- A publisher that gives up after five attempts takes its service's mark away (`pkg/app/app.go:811-817`), even when the
  mark was set anew after a recovery and belongs to a later alarm: `CrashLoop.EarlierPublisherTakesTheMark`.
  `CrashLoop.AlarmIff` is exact about it: an alarm stands until any publisher of the service gives up.
  One that does so between the raising of an alarm and the look at it lets the event out (`pkg/app/app.go:690-699`):
  `CrashLoop.GivenUpInBetween`.
- Recovery is to clear a crash-loop alarm (`pkg/app/app.go:820-838`). The mark is deleted before the clearing message is
  sent, and a publisher sends after it has looked at the mark, so the alarm can stay on the broker without a mark, and then
  nothing withdraws it before the next crash loop: `Retained.LeftoverIff` says exactly when, and
  `Retained.HealthyYetAlarmed` is a run in which every message gets through.
- The frame writer announces its payload's length modulo 2^32 (`pkg/container/stdcopy.go:55`):
  `Frames.LengthFieldTruncates`, and `Frames.RoundTrip` holds if and only if every payload fits.
- A replacement whose clone is unhealthy returns before reverting when the clone's logs can be had and copying them fails
  (`pkg/container/container.go:1556-1559`), and a failed creation is not rolled back. `Clone.CloneContainer` has the exact
  conditions: once the clone is there, the error is that of the log copy if and only if the inspections do not accept it
  and the copy fails; and for an engine that reports no failures, result and final state are determined.
  `Clone.FailedLogCopyStopsTheRevert` and `Clone.FailedCreationIsNotRolledBack` show what is left.
- A host name with a colon is never recognised in a list of extra hosts, so every further patch appends it again. Patching
  twice is patching once if and only if the name has no colon, the host was declared, or the value is no list:
  `ExtraHosts.DeclaredIff` and `ExtraHosts.AddedTwiceIff`, with `ExtraHosts.HostWithColonIsRepeated` as an instance.
- Comparing image references looks for a port in text from which everything after the first colon was cut
  (`pkg/container/container.go:818-821`), so `registry:5000/app` is taken for a docker.io image:
  `ImageRef.HostWithPortIff`. A single name with a dot, such as `my.app`, is taken for a registry:
  `ImageRef.SingleNameIff`.

## Model

| member | source | states |
|---|---|---|
| Frames.LengthFieldTruncates | pkg/container/stdcopy.go:54-55 | the length field, read back, is the payload's length modulo 2^32 |
| Frames.RoundTrip | pkg/container/stdcopy.go:71-93 | framed writes are recovered frame by frame, in order and without fault, if and only if every one is on a readable stream and shorter than 2^32 |
| Frames.MuxSnoc | pkg/container/stdcopy.go:46-69 | one more frame written appends its encoding to the stream |
| Frames.WireFormat | pkg/container/stdcopy.go:54-63 | the bytes of a frame: stream, three zeros, the length with its most significant byte first, and the payload |
| Frames.ParsedByNumber | pkg/container/stdcopy.go:118-151 | parsing in bytes: the frames stand back to back, each eight bytes with stream 0, 1 or 2 and as many as they announce, and then comes a stream number of 4 or more, a whole message of stream 3, or less than a whole frame |
| Frames.RoutedByNumber | pkg/container/stdcopy.go:121-131 | streams 0 and 1 go to standard output and stream 2 to standard error |
| Frames.DemuxOfPrefix | pkg/container/stdcopy.go:110-115 | losing the end of a stream loses only frames at the end; a fault is then the same or gone |
| Frames.RoutingConservesBytes | pkg/container/stdcopy.go:84-93 | a shared destination receives every byte counted; two separate ones split the count between them |
| Frames.LargestFrameOfMux | pkg/container/stdcopy.go:144-149 | the frame sizes the buffer has to hold are bounded exactly by the payloads that were written |
| StdCopy.StdWriter.Write | pkg/container/stdcopy.go:46-69 | a healthy writer receives exactly the frame; a failing one an initial part of it, the count being the payload bytes that got through; nil writer and nil slice are told apart from an empty one |
| StdCopy.StdCopy | pkg/container/stdcopy.go:94-190 | for every stream, chunking and failure: destinations, count and error kind are those of the pure parser on the whole stream, on what preceded a read failure, or up to the frame at which a destination stopped; two separate destinations grow by exactly the payloads of streams 0 and 1 and of stream 2; the buffer never exceeds the larger of 32777 bytes and the largest frame plus nine |
| StdCopy.ErrorByNumber | pkg/container/stdcopy.go:121-139 | behind what was delivered, an unrecognised header begins with the byte 4 or more that is reported, a daemon error is a whole frame of stream 3, and success means that neither is met |
| StdCopy.NextFrame | pkg/container/stdcopy.go:105-165 | whatever the reads return, the buffer holds the next complete frame, or the stream from here on means nothing more, a bad header or a read error |
| StdCopy.Fill | pkg/container/stdcopy.go:152-165 | after any number of partial reads the buffer holds exactly the bytes delivered so far, and at least those wanted unless the source ended or failed |
| StdCopy.ShiftLeft | pkg/container/stdcopy.go:185-188 | moving the rest to the front in place leaves the buffer holding the stream from the next frame on |
| StdCopy.WriteFrame | pkg/container/stdcopy.go:173-183 | a frame is delivered whole to the destination of its stream, or the copy ends having delivered a prefix of it |
| StdCopy.CopyOfWrites | pkg/container/stdcopy.go:71-93 | from a healthy source of representable frames, a copy that no destination stopped delivers exactly these and counts their bytes |
| StdCopy.WriteAll | pkg/container/stdcopy.go:46-69 | any list of writes through frame writers leaves their frames on the wire, in order; a nil slice leaves none |
| StdCopy.WriteAndCopy | pkg/container/stdcopy.go:29-190 | end to end: writes of streams 0, 1 and 2 through frame writers and a copy of the wire, in any chunks, bring standard output the first two and standard error the third, a shared destination all of them in order, and count their bytes |
| Filter.List | pkg/container/container.go:700-747 | of what the engine returns, a container is listed if and only if types are not given or hold its type, no valid excluded pattern matches its name or its service's, and it bears no excluded label |
| Filter.KeptInOrder | pkg/container/container.go:710-747 | what is listed stands in the engine's order, each container as often as it was returned |
| Merge.MergeFilterOptions | pkg/app/debounce.go:19-57 | the loops with seen-sets compute the merge: a full scan wins, otherwise the order-preserving duplicate-free unions |
| Merge.Union | pkg/app/debounce.go:31-47 | the seen-set loop keeps each string once, at its first place |
| Merge.DedupMembers | pkg/app/debounce.go:31-47 | the union holds exactly the strings of both lists, each once |
| Merge.MergeAssociative | pkg/app/debounce.go:19-57 | merging is associative on all filter options |
| Merge.FoldIsSummary | pkg/app/debounce.go:85-87 | a batch merged one after the other is its first full scan if it has one, otherwise the duplicate-free unions with the first member's other fields |
| Merge.SummaryNames | pkg/app/debounce.go:30-56 | a batch without full scan names exactly what some member names |
| Merge.CoverageIffUniform | pkg/app/debounce.go:16-18 | for members with the same global filters: the dispatched request selects, under every matching rule, all that its members select if and only if the batch is uniform |
| Merge.StaleRemovalOfBatch | pkg/container/container.go:584-586 | a batch leads to stale removal exactly when its first full scan has no labels; without labels, exactly when some member is a full scan |
| Debounce.FoldOfUpdates | pkg/app/debounce.go:59-78 | a batch of updates is one update over the merged filters; only a lone request keeps its reply channel |
| Debounce.UnscopedSurvivesIff | pkg/app/debounce.go:59-78 | of all merges, one comes to an unlabelled scan of everything if and only if its first request is one, or its second is and the first is no scan with labels |
| Debounce.EarlierIsKeptIff | pkg/app/debounce.go:59-78 | of two requests that are not both updates, the earlier is kept if and only if it is an update that names no ids and no names; otherwise the later is |
| Debounce.EveryRunConserves | pkg/app/debounce.go:106-134 | in every interleaving the requests are split into consecutive batches, each dispatched once as its merge, plus the pending one; a pending request has a callback on its way |
| Debounce.PendingGetsDispatched | pkg/app/debounce.go:125-134 | the current timer's callback dispatches what is pending, with no further request |
| Debounce.OwnTimerIff | pkg/app/debounce.go:96-98 | in every run, a callback that takes a batch is that of the batch's last request if and only if no request was enqueued after the one that started its timer; otherwise more requests came late so far than callbacks found nothing |
| Debounce.LateRequestsLinger | pkg/app/debounce.go:119-134 | in every run the requests that came after the current timer had expired are as many as the timers still about besides the current one and the callbacks that found nothing |
| Debounce.QuietPeriod | pkg/app/debounce.go:96-98 | by the clock, a batch is taken no earlier than the delay after the request whose timer called back, which is its last one exactly as above |
| Debounce.NextBatchIsEarlyToo | pkg/app/debounce.go:125-134 | a run in which a single late request makes the batch after its own early |
| Debounce.UpdateDebouncer.Enqueue | pkg/app/debounce.go:108-123 | the in-place update is the protocol's step and keeps conservation |
| Debounce.UpdateDebouncer.Fire | pkg/app/debounce.go:125-134 | a callback, late or not, takes exactly what is pending |
| Retry.InvariantAfter | pkg/app/app.go:464-476 | every step that does not let go of a full update keeps: if a service or an orphan check is owed another attempt, a full update is coming, and there is at most one retry timer, exactly when the flag says so |
| Retry.RetryTokenIsKept | pkg/app/app.go:454-476 | the same over every interleaving of requests with any options, timers, dispatches, reads and deletions from the start |
| Retry.LettingGoLosesIff | pkg/app/app.go:454-463 | of every step: it leaves a service or an orphan check that is owed another attempt without one if and only if it lets go of a full update, something is owed, and no second full update is coming |
| Retry.EveryUpdateIsRead | pkg/app/app.go:413-422 | in every run the worker reads for every update request that got into the queue of eight, once and in order, but for those still in it |
| Retry.OwedHasFailed | pkg/app/app.go:1033-1047 | in every run, what is owed another attempt failed, and was not deleted successfully since |
| Retry.FailedReadEndsTheRetries | pkg/app/app.go:907-912 | a reachable state in which one failed read leaves a stale service without any retry |
| Retry.LackingSnapshotEndsTheRetries | pkg/tedge/tedge.go:286-294 | a reachable state in which the retry's snapshot lacks the stale service, and none is left |
| Retry.CheckNotDueEndsTheRetries | pkg/app/app.go:1065-1085 | a reachable state in which a failed orphan check is owed and the retry finds none due |
| Retry.LabelledScanEndsTheRetries | pkg/app/debounce.go:22-24 | a reachable state in which the retry is merged into a scan with labels, and none is left |
| Naming.ApplyServiceNamePolicy | pkg/app/app.go:894-905 | renaming in place gives every item the name of the policy |
| Naming.NamesAgreeIff | pkg/app/app.go:541-560 | under either policy, an event and a listing name a container alike if and only if it is of no project, or has a service label and not an empty working directory with another module name under it, or none and the joined name by accident |
| Naming.GetNameIs | pkg/container/container.go:206-215 | a container of no project goes by its own name, others by module or project, an @ and the service |
| Naming.QualifiedAgreeIff | pkg/container/container.go:206-215 | services have the same name if and only if project and service agree, for projects without the separator |
| Naming.NoServiceLabelDisagrees | pkg/app/app.go:546-560 | labels under which events and updates use different names, under either policy |
| Platform.WithoutAllIs | pkg/tedge/tedge.go:223-239 | deleting by identity removes exactly the objects that the identities lead to, with all their identities |
| Reconcile.App.RegisterContainers | pkg/app/app.go:940-962 | every listed container is asked to be registered, is no longer stale and is known, whether or not the call succeeds |
| Reconcile.App.UpdateTwins | pkg/app/app.go:964-981 | every listed container's twin is updated in order, whatever comes of it |
| Reconcile.App.PublishStatus | pkg/app/app.go:987-1015 | every listed container's health is published in order, down when it is in a crash loop at that moment |
| Reconcile.App.RemoveService | pkg/app/app.go:1033-1053 | the cloud is asked if and only if deleting from it is configured and the device has an identity there; the entity store is asked only after that succeeded, if it was to be done |
| Reconcile.App.RemoveStale | pkg/app/app.go:1029-1055 | each stale service is handled once, in any order, and the flags and known entities say what happened |
| Reconcile.App.DeleteOrphanedCloudServices | pkg/app/app.go:315-348 | after the lookup of the device, whatever comes of it, exactly those of the first hundred services that are not known are asked to be deleted, in order |
| Reconcile.App.CheckOrphans | pkg/app/app.go:1065-1079 | a check is made exactly when it is due; only a successful one advances the clock |
| Reconcile.App.ScheduleSyncRetry | pkg/app/app.go:464-476 | one timer is started exactly when retries are on and none is started |
| Reconcile.App.ReadBoth | pkg/app/app.go:907-938 | an update works on what was seen of the entities and on the listing under the names of the policy, or on nothing if either read fails |
| Reconcile.App.DoUpdate | pkg/app/app.go:907-1085 | all calls of an update to the stores are those of a legal trace, its effect is theirs; a check for orphans is made, and the one timer started, exactly on the configured conditions and on what failed or was removed |
| Reconcile.CallsInOrder | pkg/app/app.go:940-1090 | registrations, then twins, then health, then removals cloud first, then the check for orphans, and log types at the very end |
| Reconcile.RegisterCallsAre | pkg/app/app.go:945-955 | the k-th registration is of the k-th container: a service of the device under its topic, with its name and type |
| Reconcile.TwinCallsAre | pkg/app/app.go:966-981 | the k-th twin is the k-th container under its topic |
| Reconcile.HealthCallsAre | pkg/app/app.go:987-1015 | the k-th status is down if the k-th container was in a crash loop at that moment, and its own otherwise |
| Convergence.UpdateEffect | pkg/app/app.go:936-1055 | under any failures an update only adds listed containers and removes stale services, those from the cloud too |
| Convergence.GoneFromCloudToo | pkg/app/app.go:1017-1026 | what is gone from the entity store is gone from the cloud |
| Convergence.GoalUnchanged | pkg/app/app.go:1017-1026 | an update that fails in part does not change where a failure-free update leads |
| Convergence.FailureFreeReachesGoal | pkg/app/app.go:907-1055 | a failure-free update ends with the listed containers registered and the stale services gone from both stores |
| Convergence.Convergence | pkg/app/app.go:907-1055 | any number of updates with arbitrary failures and then a failure-free one end where a failure-free one alone would have ended, in any removal order |
| Convergence.GoalIsStable | pkg/app/app.go:907-1055 | at the goal any further update, failing or not, changes nothing |
| Safety.OnlyStaleDeregisteredCloudFirst | pkg/app/app.go:1017-1055 | every deregistration is of a registered container service that no listed container stands for, in an unscoped update, and follows the successful cloud deletion when the cloud is on |
| Safety.AllCallsSafe | pkg/app/app.go:907-1085 | the same, position by position, over all calls of an update |
| Safety.StaleIff | pkg/app/app.go:918-942 | stale is what is registered as container or container-group and is of no listed container |
| Safety.IdentityOfService | pkg/tedge/target.go:18-35 | a service of the device a/b is asked for as identity:a:b:service:name |
| Safety.IdentitiesDiffer | pkg/tedge/target.go:18-35 | different names have different identities, none of them the device's |
| Safety.OnlyTheseObjectsGo | pkg/app/app.go:1021-1053 | whatever the cloud holds, an update deletes only objects that identities of stale services lead to, if it is unscoped and the cloud is on, and orphans |
| Safety.DeviceStays | pkg/app/app.go:1021-1053 | the device's own object stays, unless it has another identity, a topic without proper name is stale, or the cloud lists it among the services |
| Safety.SweepTargets | pkg/app/app.go:332-346 | the sweep goes for a service of the page if and only if no listed container bears its name and no entity of the snapshot, unless removed by this update, has its topic |
| Safety.SweepSparesRegisteredIff | pkg/app/app.go:315-348 | the sweep spares every service that is really registered, but for those this update removed, if and only if each one of the page missing from the snapshot is that of a listed container |
| Safety.LackingEntityIsSwept | pkg/tedge/tedge.go:286-294 | for any scoped update and registered entities, a legal trace that deletes a registered service from the cloud |
| Safety.FilteredOutIsRemovedIff | pkg/app/app.go:914-916 | a registered container that the engine lists is treated as stale if and only if the options name neither containers nor labels and the client-side filters drop every container of its name |
| Safety.ExcludedContainerIsRemoved | pkg/app/app.go:914-916 | for any configuration and matching rules, a legal update that removes the service of a listed container for an excluded label, cloud first |
| Worker.Work | pkg/app/app.go:413-443 | requests are taken and answered in order until it is told to stop; the stores see the calls of the updates one after the other, and the time of the last orphan check and whether each update checked follow from the updates before it |
| Worker.WorkOn | pkg/app/app.go:419-422 | one update request adds its trace to what the worker did |
| Worker.WorkConverges | pkg/app/app.go:413-443 | whatever the worker's updates did, with complete reads, a fixed listing and no orphan checks: once one fails nowhere, all calls together bring the stores where a failure-free update alone would have |
| Worker.WorkToGoal | pkg/app/app.go:413-443 | the loop itself, given only full updates, leaves the stores there |
| Worker.CloudFirstThroughout | pkg/app/app.go:1017-1055 | over everything the worker ever does, in every failure pattern, with the cloud on a service is deregistered only right after its successful cloud deletion |
| Worker.RoutineSweepIff | pkg/app/app.go:1057-1068 | across updates, one that removes nothing checks for orphans if and only if every successful check before it finished at least an interval earlier |
| Worker.FailedSweepRetriedIff | pkg/app/app.go:1063-1064 | a failed check is made again by the next update if and only if every successful one lies an interval back by then; always, if it was not forced by a removal |
| Worker.ForcedSweepNotRetried | pkg/app/app.go:1063-1064 | for every configuration with an hourly check, three legal updates, the second of which removes a service cloud first, and the last of which does not make its failed check again |
| Engine.ContainerEngine.Rename | pkg/container/container.go:1479-1481 | a rename succeeds only onto a free name; a failed call may have taken effect; names stay unique |
| Clone.WaitForHealthy | pkg/container/container.go:1275-1314 | accepted if and only if, before the deadline, one inspection shows a status beginning with healthy, or one shows a running container without health check after two others that showed one without |
| Clone.HealthyIff | pkg/container/container.go:1301-1304 | a status counts if and only if it begins with the word, in letters of either case |
| Clone.UnhealthyIsRefused | pkg/container/container.go:1275-1314 | inspections that only fail or show a check that is not passed never accept |
| Clone.StopRemoveContainer | pkg/container/container.go:616-638 | at every step at most the container addressed was stopped or removed; on success none answers to the reference |
| Clone.SetAside | pkg/container/container.go:1437-1481 | on every exit and at every step the container to be replaced exists under its own or the backup name, and nobody else is touched; without engine failures it is stopped under the backup name |
| Clone.CreateClone | pkg/container/container.go:1503-1533 | the clone is new, and the replaced container waits under the backup name throughout |
| Clone.StartClone | pkg/container/container.go:1513-1533 | starting is attempted up to five times: again after a port conflict, and after nothing else |
| Clone.Revert | pkg/container/container.go:1538-1583 | it ends with the log copy, leaving everything as it is, if and only if copying fails; otherwise everything is put back |
| Clone.PutBack | pkg/container/container.go:1563-1583 | on success the replaced container is back under its name and started; without engine failures all is as before but for the old backup, with the container running |
| Clone.Restore | pkg/container/container.go:1574-1582 | the name is taken back and the container started, or the stage that failed is reported and the container kept |
| Clone.HandOver | pkg/container/container.go:1535-1594 | the clone is accepted if and only if its inspections accept it, and only then is the replaced container given up; the revert ends with the log copy if and only if it is not accepted and copying fails |
| Clone.CloneContainer | pkg/container/container.go:1423-1594 | under any engine failures, at every step: names are unique, no other container is touched, and the replaced one exists until the clone was accepted (or removes itself on exit); success means the name is the accepted clone's or the replaced container's, started again; every error exit keeps it under one of two names, and each ground for acceptance or a broken-off revert is exact; without engine failures result and final state are determined |
| Clone.UnhealthyKeepsPrevious | pkg/container/container.go:1535-1594 | under any engine failures, a clone that never shows healthy leaves the replaced container in place at every step |
| Clone.UnhealthyIsReverted | pkg/container/container.go:1538-1583 | a run with a clone that is starting and then unhealthy ends as it began |
| Clone.FailedLogCopyStopsTheRevert | pkg/container/container.go:1556-1559 | a run that leaves the unhealthy clone running under the name, and the container stopped under the backup name |
| Clone.FailedCreationIsNotRolledBack | pkg/container/container.go:1503-1511 | a run that leaves the container stopped under the backup name, and nothing under its own |
| RateLimiter.EventRateLimiter.Allow | pkg/app/eventlimiter.go:33-42 | the in-place check and update are the limiter's step on its map |
| RateLimiter.RememberedIsLatest | pkg/app/eventlimiter.go:33-51 | what is remembered for a key is the last event that passed and was not forgotten |
| RateLimiter.PassesIff | pkg/app/eventlimiter.go:30-42 | in every run an event passes if and only if each earlier one of its key that passed and was not forgotten lies at least an interval back |
| RateLimiter.WindowBound | pkg/app/eventlimiter.go:8-14 | a window of length W lets at most W / interval + 1 events of a key pass |
| RateLimiter.KeysDoNotInterfere | pkg/app/eventlimiter.go:12-14 | what happens to a key is decided by the calls for that key alone |
| RateLimiter.ResetByServiceNameMisses | pkg/app/app.go:624-625 | the monitor's reset never frees a key of that service |
| CrashLoop.AlarmsByEvent | pkg/app/app.go:611-678 | an event alarms its service if and only if it is a start with a count, at least one, at least the threshold above the recorded baseline, or it was alarmed and is neither turned healthy nor removed |
| CrashLoop.BaselineByEvent | pkg/app/app.go:611-678 | turning healthy sets the baseline to the count, if there is one, removal forgets it, and the first start after a restart records its count |
| CrashLoop.AlarmIff | pkg/app/app.go:632-655 | in every run a service is alarmed if and only if some start crossed the threshold and nothing took the alarm away since |
| CrashLoop.BaselineIff | pkg/app/app.go:614-663 | in every run the recorded baseline is, read off the events alone, the count of the latest healthy event with one since the last removal, or else of the first start after a restart; and there is none exactly when there was no such event |
| CrashLoop.BaselineSince | pkg/app/app.go:611-655 | a recorded baseline stays until the next healthy or removal event |
| CrashLoop.AlarmIsJustified | pkg/app/app.go:628-655 | an alarmed service has a baseline and was, since its last healthy or removal event, seen started at least the threshold above it |
| CrashLoop.AlarmsNeedRestartsIff | pkg/app/app.go:646-649 | in all runs every alarm is for a service seen started with more restarts than its baseline, if and only if the threshold is at least one |
| CrashLoop.OnePublisherPerAlarm | pkg/app/app.go:738-818 | as many publishers were started as the service went from not alarmed to alarmed, and none makes more than five attempts |
| CrashLoop.PublisherStops | pkg/app/app.go:791-817 | in every run, a publisher whose attempt was confirmed, which found no mark or gave up takes no further step |
| CrashLoop.GivesUpAfterFive | pkg/app/app.go:791-817 | in every run, a publisher gives up, and takes the mark away, only after exactly five attempts, none of them confirmed |
| CrashLoop.EarlierPublisherTakesTheMark | pkg/app/app.go:811-817 | events and attempts after which a crash-looping service has no mark although the publisher of its alarm made no attempt yet |
| CrashLoop.NothingPublishedWhileAlarmed | pkg/app/app.go:685-700 | when an engine event is published, its service has no alarm at that moment |
| CrashLoop.PublishedAreSpaced | pkg/app/app.go:255-258 | in every run engine events of one service and action go out at least an interval apart |
| CrashLoop.GoesOutIff | pkg/app/app.go:685-711 | in every run, publishers' steps between the raising of an alarm and the look at it included, an event goes out if and only if publishing is on, its action is listed, its service has no alarm at that moment, and no event of the same service and action went out less than an interval before |
| CrashLoop.KeysDiffer | pkg/app/app.go:686-687 | the limiter's keys of two listed actions of two services agree if and only if service and action do |
| CrashLoop.GivenUpInBetween | pkg/app/app.go:811-816 | the event of a start that raises an alarm is held back, but goes out if an earlier publisher of the service gives up in between |
| CrashLoop.RunIsBacked | pkg/app/app.go:701-709 | behind every published event is the limiter call that let it pass, in order |
| CrashLoop.Monitor.constructor | pkg/app/app.go:224-258 | the threshold in force is the configured one, without the default |
| CrashLoop.Monitor.PublishCrashLoopAlarm | pkg/app/app.go:738-752 | the mark is set and a publisher started only if there was no mark |
| CrashLoop.Monitor.ClearCrashLoopAlarm | pkg/app/app.go:822-832 | the mark is gone, and the clearing message is to be sent exactly if there was one |
| CrashLoop.Monitor.HandleEvent | pkg/app/app.go:605-711 | with any steps of the publishers between its two, baselines, marks and limiter change in place exactly as in the model of runs, and an event goes out exactly when that publishes it |
| Retained.LeftoverIff | pkg/app/app.go:820-838 | in every run the broker has an alarm of a service without a mark if and only if some step left it behind (sent after the mark was gone, not withdrawn, or given up) or it was there from before, and no start crossed the threshold since |
| Retained.HealthyYetAlarmed | pkg/app/app.go:790-810 | a run in which every message gets through and the alarm of a healthy container stays on the broker |
| Target.ServiceOfService | pkg/tedge/target.go:29-34 | a service of a service is the service of its device, so sweep and registration name services alike |
| Target.ServiceTopicInjective | pkg/tedge/target.go:29-34 | services have the same topic if and only if they have the same name |
| Target.ServiceTopicIs | pkg/tedge/target.go:29-34 | the service of a device is at the device's first two segments, service and its name |
| Target.MainDeviceService | pkg/tedge/target.go:29-34 | the services of the main device are under device/main/service |
| Target.HealthTopic | pkg/tedge/target.go:61-70 | health is published below the root, te by default, and the topic identifier, under status/health |
| Target.ServiceIdentity | pkg/tedge/target.go:18-23 | the identity of a service is that of the device and its segments, with colons |
| Target.ChildDeviceIdentity | pkg/tedge/target.go:18-23 | the identity of a device that is not the main one ends behind its second segment |
| Target.IdentityGoesOn | pkg/tedge/target.go:18-23 | every proper topic has an identity that is longer than the device's and begins with it |
| Target.TopicRoundTrip | pkg/tedge/target.go:46-70 | a service is recovered from any of its topics if and only if neither root nor name contains a separator |
| Target.Recovered | pkg/tedge/target.go:46-55 | what is recovered is the service named by the first segment of the name |
| ExtraHosts.KeyFromIsFirst | pkg/container/compose.go:209-221 | a key is found at its first place among the keys, and not only if it is at none |
| ExtraHosts.FindMappingValue | pkg/container/compose.go:209-221 | the value of the first such key of a mapping, nothing for other nodes |
| ExtraHosts.DeclaredIff | pkg/container/compose.go:223-281 | afterwards the host is declared if and only if it was, or the value is a mapping, or it is missing, scalar or a list and the name has no colon |
| ExtraHosts.NamesIff | pkg/container/compose.go:260-267 | an entry names a host if and only if it is the host, = or : not in it, and anything |
| ExtraHosts.AddedAtTheEnd | pkg/container/compose.go:227-280 | what is added is host:address behind a list or as a new one, and host and address in turn behind a mapping |
| ExtraHosts.AddedTwiceIff | pkg/container/compose.go:223-226 | adding again changes nothing if and only if the host was declared, the value is a mapping or cannot take it, or the name has no colon |
| ExtraHosts.HostWithColonIsRepeated | pkg/container/compose.go:227-270 | the host a:b, patched twice, is there twice |
| ExtraHosts.EarlierEntriesStay | pkg/container/compose.go:258-280 | earlier entries stay in order and hosts that were declared stay declared |
| ExtraHosts.AddExtraHostEntry | pkg/container/compose.go:227-281 | in place, only the value of extra_hosts changes, as the function on values says, or the key extra_hosts and its value are put at the end of the service; children are only appended and the service stays a tree |
| ExtraHosts.PatchServices | pkg/container/compose.go:186-190 | every service that needs the patch gets it, and no node of any other service changes |
| SelfCheck.Check | cli/self/check.go:102-171 | refused if and only if some item would remove the own container, the first such being named; no self update if and only if there is neither a removal nor an installation of it; otherwise the last installation is reported with the rest of the list |
| SelfCheck.CheckContainerModule | cli/self/check.go:124-157 | the loop over a container module takes exactly the own items out, in order |
| SelfCheck.OthersAreTheRest | cli/self/check.go:125-161 | the rest holds every item that is not about the own container, once, in order and under its type |
| SelfCheck.SelfItemsAre | cli/self/check.go:106-131 | about the own container is every item of type self, and every one of type container with its name |
| SelfCheck.NoneLeftEmpty | cli/self/check.go:152-161 | what is left has no module of type self, no container module without items or with the own container, and the others as they were |
| SelfCheck.OthersAppend | cli/self/check.go:106-161 | modules are neither merged nor split |
| SelfCheck.OthersAreClean | cli/self/check.go:152-157 | nothing in the rest is about the own container, and partitioning it again changes nothing |
| ImageRef.ResolvedIff | pkg/container/container.go:781-800 | a docker.io reference is completed if and only if a single part follows the host |
| ImageRef.ExpandIdempotent | pkg/container/container.go:807-828 | expanding twice is expanding once |
| ImageRef.ExpandAbsorbsNormalize | pkg/container/container.go:802-828 | expanding the normalised reference is expanding the original |
| ImageRef.FinalPartKept | pkg/container/container.go:813-828 | the text after the last slash is never touched |
| ImageRef.EqualRefsShareFinalPart | pkg/container/container.go:830-834 | references that compare equal agree on final name, tag and digest |
| ImageRef.ExpandedIff | pkg/container/container.go:807-828 | a reference expands to a docker.io image if and only if it is one of four ways of writing it |
| ImageRef.EqualIff | pkg/container/container.go:830-834 | two references compare equal if and only if they are the same text or two ways of writing one docker.io image |
| ImageRef.OfficialInFull | pkg/container/container.go:802-828 | a plain name with a tag, such as httpd:2.4, is compared as docker.io/library/ and that |
| ImageRef.NamespacedInFull | pkg/container/container.go:802-828 | an image in a namespace, such as myuser/app:1.0, is compared as docker.io/ and that, unless the namespace is a registry |
| ImageRef.SingleNameIff | pkg/container/container.go:820-826 | a single name equals its docker.io form if and only if the part before its tag has no dot and is not localhost |
| ImageRef.NamespacedIff | pkg/container/container.go:820-827 | an image in a namespace equals its docker.io form if and only if the namespace has no dot and is not localhost |
| ImageRef.HostWithPortIff | pkg/container/container.go:817-823 | a reference with a port is kept as it is if and only if its host has a dot or is localhost |

## Left out

- HTTP, MQTT, TLS, JSON and the Cumulocity, Docker and libpod clients: a call is an action that succeeds or fails, with or without effect.
- Process wiring: command line, configuration files, packaging, credential helpers, and the waiting of callers for the worker's answer or end.
- Container statistics, metrics workers, copying of container configurations and network settings when cloning: no state to reason about.
- Reconcile.App.DoUpdate: containers, entities and cloud services change only through the update while it is in progress; other writers are not modelled.
- Reconcile.App.DeleteOrphanedCloudServices: that a query of the cloud selects container services, and what it answers for a device that was not found, are parameters.
- Worker.Work: a metrics request is only its outcome, and the worker's orphan checks start from none.
- Convergence.Convergence: assumes complete entity snapshots, containers of one name being of one type, a fixed listing and updates without an orphan sweep.
- Retry.RetryTokenIsKept: which services are stale, and which of them a snapshot lacks, is up to each read; nothing ties one read to the next.
- Naming.NamesAgreeIff: the labels are alike in listings and events, and a module name read from disk does not change between the two.
- Safety.IdentitiesDiffer: names with a slash or a final colon are outside it; their identities may coincide, as slashes become colons and final ones are cut off.
- Filter.List: how the engine matches names, id prefixes and labels, and regular expressions, are abstract predicates.
- StdCopy.StdWriter.Write: the reuse of pooled buffers is not modelled; each write has its own.
- StdCopy.StdCopy: integers are unbounded; 32-bit frame sizes and the overflow of a 64-bit count are not modelled.
- Merge.MergeFilterOptions: the appends to the operands' slices, which may share memory with their owner, are on values.
- Clone.CloneContainer: containers do not start or stop by themselves except while it waits for one to exit; restart policies and the contents of logs are not modelled. Result and final state are determined for a container that does not remove itself on exit; of others only what holds under any failures is stated.
- Clone.WaitForHealthy: the inspections are given as a finite list; that the wait ends at all is up to its deadline.
- CrashLoop.Monitor.ClearCrashLoopAlarm: the clearing message is not in the method but in the runs of the module Retained, where deleting the mark and sending it are one step, and a message that arrives does so when it is sent; the pre-registration and the down status sent by a publisher are not modelled.
- CrashLoop.GoesOutIff: the same assumptions as for the spacing below; the texts and attributes of the events are not modelled.
- CrashLoop.PublishedAreSpaced: service names are assumed to hold no slash, as container and compose names do, and the clock not to run backwards; it covers publishing attempts, as a failed one is only logged.
- ExtraHosts.PatchServices: starts from parsed nodes and a given set of names; loading the project, reading and writing the file, and aliases that make a node part of two services are not modelled.
- SelfCheck.Check: parsing the argument, finding the own container and printing the result are not modelled.
