# The router data model, verified

A Dafny model of the parts of the overlay network's controller and router that have to agree with each other, and
proofs of what they promise.

**The data model and its replication.** The controller keeps a sender-side model and a ring buffer log of indexed change
sets; each router keeps a receiver-side model. A router that falls behind replays the log or is rebuilt from a snapshot.

- `Types` is the shared vocabulary: payloads, events, and the plain relational `Content` both sides must agree on.
- `EventCache` is the log: `LogView` says what it holds, class `LoggingEventCache` is the ring buffer.
- `Identities`, `IdentityExactness`, `IdentityLoops` are one identity's denormalized data: dial and bind counters per
  service and use counts per posture check. The functions are the net effects, the methods the loops that reach them in
  whatever order a map is walked.
- `Receiver` is the router's model as a value with each handler's net effect. `ReceiverInvariants` and
  `ReceiverReferences` say what every handler keeps, `ReferenceRuns` what that means for the references over whole runs.
  `Cleanup` and `ReceiverLoops` show that the loops and the recursive cleanup events have those net effects in any
  order, and class `RouterDataModel` runs them.
- `IndexRuns`, `AccessRuns` and `PolicyIndexes` are about the indexes the router keeps with entities, counters and
  policies: over runs, what they tell about change.
- `Sender` and class `RouterDataModelSender` are the controller's side. `NilEntries` says which runs of events leave it
  an identity entry that holds nil, over which a snapshot panics.
- `Relations` moves the content by one event; `Refinement` shows that both sides follow it. `Snapshot` and
  `SnapshotLoops` are the full state and its reconstruction. `Replication` and `ReplicationRuns` put them together.
- `SliceDiff` is the sorted list difference behind config references.

**Lists and subscriptions.** `ServiceLists` has the service list built from policies, the one read off the counters, and
the access map; `Subscriptions` the comparison of two lists and the notifications it causes; `SyncChecks` the flags,
queue and scan by which a change reaches the subscriber loop; `Notifications` and `NotificationCompleteness` who is
asked to be re-checked, and who should have been; `UnnoticedLists` and `SilentLists` what that means for the list an
identity gets; `ListenerRuns` what listeners have after a check that compares by index.

**Other parts.** `RateLimitTracker` and `RateLimiter` are the adaptive limiters, `CtrlChannel` the multi-underlay
control channel, `IdentityStore` the store's service config indexes.

How it is modelled: ids are integers, of which only equality and, for sorted config lists, the order are used; names,
JSON documents and check definitions are uninterpreted `Text`. Maps that several goroutines share are maps walked in any
order. A handler is one atomic step with respect to switching service access tracking on or off. Protocols with real
concurrency (subscriber loop, limiters, control channel, replication) are state machines over all interleavings of their
atomic steps. A nil dereference in the receiver is recorded in the model's `panicked` field, and proved not to happen.
Clocks, unique ids and the filter passed to `removeServiceConfigs` are parameters.

Some properties one would expect do not hold of the code. Each of these is stated with the exact condition under which
it does: a replay that leaves out a change set (`Replication.SentCompleteIff`), a log that answers across a reset
(`EventCache.CompleteAcrossReset`), deltas that are not genuine (`ReceiverInvariants.ServiceDeltaExactIff`,
`ReceiverInvariants.CheckDeltaExactIff`), config references (`ReceiverReferences.IdentityRefsExactIff`,
`ReceiverReferences.ServiceRefsExactIff`), links between policies and what they list (`ReceiverReferences.LinksIff`,
`ReceiverReferences.BackLinksIff`), nil identity entries that leave no snapshot to be had (`Refinement.NilIff`,
`NilEntries.NoNilThroughoutIff`, `Replication.FullSyncIff`), events on which sender and receiver part ways
(`Refinement.CheckDeleteAgreesIff`, `Refinement.ConfigDeleteAgreesIff`, `Refinement.PolicyCreateAgreesIff`), the order
of config overrides (`ServiceLists.OrderIrrelevantIff`), events that notify nobody
(`NotificationCompleteness.UninformedIff`, `SilentLists.TypeDeleteChangesListIff`,
`SilentLists.LateConfigChangesListIff`), indexes that do not tell of a change (`IndexRuns.IndexTells`,
`IndexRuns.CheckBlindIff`, `IndexRuns.ServiceBlindIff`, `IndexRuns.IdentityBlindIff`), a success counter that wraps
(`RateLimitWindows.TenSuccesses`), two default underlays (`CtrlChannels.OrderIffSingle`, `CtrlChannels.WakeupIffSingle`,
`CtrlChannels.HighSentIff`), and a config under two types of one service (`IdentityStores.InverseKeptIff`,
`IdentityStores.RemovalKeepsInverseIff`). A failing input stands beside the condition or in `Counterexamples`.

## Model

| member | source | states |
|---|---|---|
| EventCache.LoggingEventCache.constructor | common/event_cache.go:81-88 | a new log holds nothing, with base and minimum 0 |
| EventCache.LoggingEventCache.SetCurrentIndex | common/event_cache.go:90-98 | the history is forgotten and the base set, the minimum entry index stays |
| EventCache.LoggingEventCache.CurrentIndex | common/event_cache.go:151-160 | the index at the head is that of the newest change set, or the base |
| EventCache.LoggingEventCache.Store | common/event_cache.go:107-125 | accepts exactly synthetic and newer change sets; a refused one leaves the log untouched |
| EventCache.LoggingEventCache.Append | common/event_cache.go:125-148 | ring, map and minimum after a store are those of the extended history, the overwritten entry gone |
| EventCache.LoggingEventCache.FirstEntry | common/event_cache.go:162-184 | the upward walk ends at the first retained entry at or above the request, or with the refusal due |
| EventCache.LoggingEventCache.FindSlot | common/event_cache.go:186-212 | the two-part search finds the slot of the entry from any hint, so the not-found branch is dead |
| EventCache.LoggingEventCache.ReplayFrom | common/event_cache.go:162-234 | result and outcome are those of the abstract log, across wrap-around |
| EventCache.ReplayComplete | common/event_cache.go:162-234 | Success returns exactly the stored change sets at or above the request in ascending order; when each outcome is given |
| EventCache.ReachableLogOk | common/event_cache.go:81-149 | every sequence of stores keeps indexes ascending above the base and evicted ones below the minimum |
| EventCache.StaleMinimumAnswersAcrossReset | common/event_cache.go:90-98 | a log that answers Success after a reset although change sets before the reset are gone |
| EventCache.CompleteAcrossReset | common/event_cache.go:90-98 | after a reset an answer covers everything ever stored from the request on iff the request is above the index the log stood at before |
| SliceDiff.DiffStringSlices | common/router_data_model.go:1115-1151 | the two results are exactly the two multiset differences |
| SliceDiff.ApartIsDifference | common/router_data_model.go:1115-1151 | walking two sorted lists in step yields the multiset differences |
| IdentityLoops.UpdateServiceCount | common/router_data_model.go:228-241 | one grant more or less, with the entry kept exactly while it grants something |
| IdentityLoops.AddedToPolicy | common/router_data_model.go:255-270 | joining grants each of the policy's services once and, if it has services, uses each of its checks once; joining twice is joining once |
| IdentityLoops.RemovedFromPolicy | common/router_data_model.go:272-288 | leaving takes back exactly what joining gave |
| IdentityLoops.MoveServices | common/router_data_model.go:290-308 | a service delta moves the counter of each id as often as it is listed |
| IdentityLoops.MoveChecks | common/router_data_model.go:310-338 | a check delta moves use counts and service indexes; whether a lookup dereferences nil |
| IdentityExactness.JoinedExact | common/router_data_model.go:255-270 | exact counters and use counts stay exact when an identity joins a policy |
| IdentityExactness.LeftExact | common/router_data_model.go:272-288 | and when it leaves one |
| IdentityExactness.ServicesMovedExactAt | common/router_data_model.go:290-308 | a counter stays exact under a service delta iff the delta is genuine for that service, or removes it from an identity that has no other way to reach it |
| IdentityExactness.ChecksMovedExactAt | common/router_data_model.go:310-338 | the same for use counts under a check delta |
| IdentityExactness.LookupsSafe | common/router_data_model.go:316-322 | with exact counters the unguarded lookups find an entry |
| ReceiverInvariants.ChangeIdentitiesKeeps | common/router_data_model.go:1409-1426 | membership changes keep symmetry, counters and use counts |
| ReceiverInvariants.FlipKeeps | common/router_data_model.go:1266-1273 | a policy type flip moves each grant to the other counter and keeps everything exact |
| ReceiverInvariants.ServiceDeltaExactIff | common/router_data_model.go:1428-1474 | a service delta keeps all counters exact iff, for each tracked member, each id is genuine or removed and not otherwise reachable |
| ReceiverInvariants.DuplicateAddBreaksCounters | common/router_data_model.go:1430-1438 | adding a service twice in one delta always breaks the counters of a tracked member |
| ReceiverInvariants.ServiceDeltaKeepsUses | common/router_data_model.go:1440-1474 | use counts follow the policy's service set between empty and non-empty |
| ReceiverInvariants.CheckDeltaExactIff | common/router_data_model.go:1475-1504 | a check delta keeps use counts exact iff it is safe |
| ReceiverInvariants.DuplicateCheckBreaksUses | common/router_data_model.go:1475-1504 | adding a check twice in one delta always breaks the use count of a member, if the policy has services |
| ReceiverInvariants.DeleteServiceKeeps | common/router_data_model.go:1047-1078 | a service delete with its cleanup events keeps counters and use counts exact |
| ReceiverInvariants.DeleteCheckKeeps | common/router_data_model.go:1313-1340 | a posture check delete with its cleanup events keeps them exact |
| ReceiverInvariants.DeleteCheckNoPanic | common/router_data_model.go:316-338 | no nil dereference in a posture check delete from an exact state |
| ReceiverInvariants.DeleteIdentitySymmetric | common/router_data_model.go:920-952 | after an identity delete no policy lists it, and membership stays symmetric |
| ReceiverInvariants.DeletePolicySymmetric | common/router_data_model.go:1280-1292 | after a policy delete no identity lists it, and membership stays symmetric |
| ReceiverInvariants.EnableTrackingKeeps | common/router_data_model.go:2310-2316 | switching tracking on establishes exact counters |
| ReceiverInvariants.DisabledIsUntracked | common/router_data_model.go:2318-2324 | switching tracking off leaves a known identity untracked with no access entries, and all else as before |
| ReceiverInvariants.HandleKeepsExact | common/router_data_model.go:864-885 | every handler keeps symmetry, counters, use counts and freedom from nil dereferences under safe events |
| ReceiverInvariants.ReachableExact | common/router_data_model.go:228-338 | in every state reachable by safe events and tracking switches, counters and use counts are exact, membership symmetric, nothing dereferenced nil |
| ReceiverReferences.IdentityRefsExactIff | common/router_data_model.go:969-1019 | an event keeps the config to identity references exact iff it does not create a config that overrides name already |
| ReceiverReferences.OverridesKnownIff | common/router_data_model.go:969-1019 | from a state whose overrides name existing configs, the references stay exact through every event, and the overrides stay good iff identity events name existing configs |
| ReceiverReferences.DeleteConfigIdentityRefs | common/router_data_model.go:1182-1206 | a config delete leaves no override that names it, and all references stay exact |
| ReceiverReferences.PutServiceRefsIff | common/router_data_model.go:1087-1107 | a service update keeps the config to service references exact iff no config stays listed fewer times than before |
| ReceiverReferences.DuplicateFreeIsFine | common/router_data_model.go:1087-1107 | duplicate-free config lists never break them |
| ReceiverReferences.ServiceRefsExactIff | common/router_data_model.go:1024-1113 | an event keeps them exact iff it is none of the two kinds that break them |
| ReceiverReferences.ListsKnownIff | common/router_data_model.go:1047-1113 | from a state whose services list existing configs once, the references stay exact through every event, and the lists stay good iff service events list existing configs once and config deletes come after |
| ReceiverReferences.LinksIff | common/router_data_model.go:1444-1504 | every service and check a policy lists exists and links back after an event iff the event adds nothing unknown |
| ReceiverReferences.BackLinksIff | common/router_data_model.go:1241-1292 | a service or check that refers back to an existing policy is listed by it after an event iff the event does not create a policy under an id that is still linked |
| ReceiverReferences.DeleteServiceLinks | common/router_data_model.go:1047-1078 | after a service delete no policy lists it |
| ReceiverReferences.DeleteCheckLinks | common/router_data_model.go:1313-1340 | after a check delete no policy lists it |
| ReferenceRuns.HoldsThroughoutIff | common/router_data_model.go:864-885 | over any run of events and tracking switches, each kind of reference holds in every state iff every event minds the condition of its kind |
| ReferenceRuns.ReachableIdentityRefs | common/router_data_model.go:969-1239 | in every state reached by events whose identities name existing configs, a config lists an identity iff its overrides name the config, and no override names a missing one, purging config deletes included |
| ReferenceRuns.ReachableServiceRefs | common/router_data_model.go:1024-1113 | the same between configs and services, if services list existing configs once and configs are deleted when unlisted |
| ReferenceRuns.ReachableLinks | common/router_data_model.go:1280-1504 | in every reachable state a policy lists a service or check iff that exists and refers back, if deltas add what exists and linked policy ids are not reused |
| ReferenceRuns.TidyStates | common/router_data_model.go:864-885 | in every tidily reached state counters, use counts and references are exact and nothing dangles |
| IndexRuns.EventMoves | common/router_data_model.go:864-1504 | what an event does to the index and data of any service, posture check and identity: an update stores its data under its index, a config change raises the index of the services that use it, a config delete alone changes overrides without the index |
| IndexRuns.IndexTells | common/router_data_model.go:956-1361 | between a state of a run and a later one reached by events of higher index: a check or service of the same index has the same data, an identity of the same index has the same data iff no config delete purged its overrides, and a different index is larger |
| IndexRuns.RouterIndexTells | common/router_data_model.go:649-862 | the same between any two states of a router that started from a snapshot and was delivered change sets since, stale ones included |
| IndexRuns.CheckBlindIff | common/router_data_model.go:1343-1360 | within a change set a posture check changes under the same index iff an earlier event of the set put it and the last later one brings other data |
| IndexRuns.ServiceBlindIff | common/router_data_model.go:1080-1113 | the same for a service, whose index the set may also have raised by a config |
| IndexRuns.IdentityBlindIff | common/router_data_model.go:954-994 | the same for an identity, in a set without config deletes |
| AccessRuns.CounterTells | common/router_data_model.go:228-338 | while an identity is tracked, a dial (bind) counter that grants something and changed has a policy index above that of the state it changed from |
| AccessRuns.ReachableIndexes | common/router_data_model.go:228-338 | in every reachable state no policy index, of a policy or with a counter, lies above the index of the last event |
| PolicyIndexes.PolicyIndexAfter | common/router_data_model.go:1241-1504 | exactly what each event does to the two indexes of a policy, the restart of the posture check index by an update included |
| Cleanup.ServiceDroppedOneMore | common/router_data_model.go:1055-1078 | the cleanup event of one more policy takes the partial state to the next, for any set of policies done |
| Cleanup.ServiceCleanedInAnyOrder | common/router_data_model.go:1055-1078 | the cleanup events of a service delete, applied one after the other, have the same net effect in every order |
| Cleanup.ServiceDeleteByCleanup | common/router_data_model.go:1047-1078 | a service delete is the removal of the service and then a removal event for each policy that had it, in any order |
| Cleanup.CheckCleanedInAnyOrder | common/router_data_model.go:1316-1340 | the cleanup events of a check delete have the same net effect in every order |
| Cleanup.CheckDeleteByCleanup | common/router_data_model.go:1313-1342 | a check delete is a removal event for each policy that had it, in any order, and then the removal of the check |
| ReceiverLoops.ChangeMembers | common/router_data_model.go:1410-1421 | listed identities that exist join or leave, repeated ones once, unknown ones not at all |
| ReceiverLoops.FlipAll | common/router_data_model.go:1266-1273 | each member of a retyped policy leaves the old and joins the new version |
| ReceiverLoops.MoveMemberChecks | common/router_data_model.go:1453-1459 | the members' use counts and indexes after a switch of checks, and whether any lookup hits nil |
| ReceiverLoops.GetReferencedConfigs | common/router_data_model.go:177-191 | exactly the configs named by some override |
| ReceiverLoops.PurgeOverrides | common/router_data_model.go:1191-1200 | overrides naming the config go, and services left without any |
| RouterDataModels.RouterDataModel.constructor | common/router_data_model.go:607-622 | a new model is empty |
| RouterDataModels.RouterDataModel.NotifyServicePolicyServiceChange | common/router_data_model.go:2255-2281 | the policy's index rises, and its known members are asked to be re-checked |
| RouterDataModels.RouterDataModel.NotifyServicePolicyPostureChecksChange | common/router_data_model.go:2283-2308 | the same for posture checks |
| RouterDataModels.RouterDataModel.NotifyServiceOfConfigChange | common/router_data_model.go:2230-2247 | the service's index rises and all its policies are notified |
| RouterDataModels.RouterDataModel.HandleServicePolicyChange | common/router_data_model.go:1386-1528 | the new state is the closed form of the change; exactly the listed identities are asked to be re-checked |
| RouterDataModels.RouterDataModel.HandleConfigTypeEvent | common/router_data_model.go:1156-1177 | state and re-checks after a config type event |
| RouterDataModels.RouterDataModel.HandleConfigEvent | common/router_data_model.go:1182-1239 | state and re-checks after a config event |
| RouterDataModels.RouterDataModel.HandleIdentityEvent | common/router_data_model.go:920-994 | state and re-checks after an identity event, cleanup events in any order |
| RouterDataModels.RouterDataModel.HandleServiceEvent | common/router_data_model.go:1024-1113 | state and re-checks after a service event, cleanup events in any order |
| RouterDataModels.RouterDataModel.HandleServicePolicyEvent | common/router_data_model.go:1241-1307 | state and re-checks after a policy event |
| RouterDataModels.RouterDataModel.HandlePostureCheckEvent | common/router_data_model.go:1312-1361 | state and re-checks after a posture check event, cleanup events in any order |
| RouterDataModels.RouterDataModel.Handle | common/router_data_model.go:864-885 | every event is dispatched to its handler |
| RouterDataModels.RouterDataModel.ApplyChangeSet | common/router_data_model.go:810-862 | a change set at or below the index is refused whole; otherwise its events are handled and the index moves, unless synthetic |
| RouterDataModels.RouterDataModel.GetDataState | common/router_data_model.go:1575-1687 | the events are a snapshot of the receiver's content, policies' identities taken from the identities |
| RouterDataModels.RouterDataModel.EnableServiceAccessTracking | common/router_data_model.go:2310-2316 | an untracked identity gets an access map counted from scratch, a tracked one is left alone |
| RouterDataModels.RouterDataModel.DisableServiceAccessTracking | common/router_data_model.go:2318-2324 | a tracked identity's access map is emptied |
| RouterDataModelSenders.RouterDataModelSender.Handle | common/router_data_model_sender.go:155-287 | every event's effect on the sender |
| RouterDataModelSenders.RouterDataModelSender.HandleServicePolicyChange | common/router_data_model_sender.go:309-364 | memberships move on the identities or on the policy; an unknown identity gets a nil entry |
| RouterDataModelSenders.RouterDataModelSender.ApplyChangeSet | common/router_data_model_sender.go:120-153 | log and model move together: the events are handled iff the log accepts the change set |
| RouterDataModelSenders.RouterDataModelSender.GetDataState | common/router_data_model_sender.go:411-530 | there is a snapshot iff no identity entry is nil, and its events are the sender's content, in whatever order the maps are walked |
| Relations.StepKeepsClosed | common/router_data_model.go:864-885 | well-formed events leave no reference to something missing |
| Refinement.SenderRefines | common/router_data_model_sender.go:155-364 | under well-formed events the sender's content moves exactly as the relations say |
| Refinement.NilIff | common/router_data_model_sender.go:319-333 | a membership change leaves no nil identity entry iff every identity it names is known |
| NilEntries.NoNilThroughoutIff | common/router_data_model_sender.go:319-333 | every state of a run is free of nil identity entries iff every membership change, add or remove, of a known policy or not, names identities the controller has at that point |
| NilEntries.NilAfterIff | common/router_data_model_sender.go:319-333 | a run ends with a nil entry exactly for the identities that some membership change named while absent and no later identity event is about |
| Refinement.ReceiverRefines | common/router_data_model.go:864-1528 | under well-formed events the receiver's content moves exactly as the relations say, and its invariants stay |
| Refinement.CheckDeleteAgreesIff | common/router_data_model_sender.go:278-284 | sender and receiver agree on a check delete iff no policy lists the check any more |
| Refinement.ConfigDeleteAgreesIff | common/router_data_model.go:1191-1200 | they agree on a config delete iff no override names it |
| Refinement.PolicyCreateAgreesIff | common/router_data_model_sender.go:239-255 | they agree on a policy create iff no identity of the sender lists that id already |
| SnapshotLoops.GetDataState | common/router_data_model_sender.go:411-530 | the walk over the maps panics iff an identity entry is nil, and otherwise emits exactly the events of some order of the entities |
| SnapshotLoops.EmitIdentities | common/router_data_model_sender.go:434-456 | panics iff an entry is nil; otherwise each identity once, and for each policy some identity lists, exactly the identities that list it |
| Snapshot.ReceiverFills | common/router_data_model.go:864-885 | a receiver that applies filling events follows the content and stays exact, whether or not what they name exists |
| Snapshot.RoundTrip | common/router_data_model.go:649-686 | a receiver built from a snapshot has all its content, whatever the order and whatever dangles, with exact counters; if nothing dangles it meets every invariant |
| Snapshot.SenderRoundTrip | common/router_data_model_sender.go:411-530 | the controller has a snapshot iff no identity entry is nil, and then a receiver built from it has the controller's content, whatever else dangles |
| Snapshot.ReceiverRoundTrip | common/router_data_model.go:1575-1724 | a receiver rebuilt from the snapshot of any exact receiver has its content and its use counts |
| Snapshot.UsesFollowContent | common/router_data_model.go:243-288 | equal content and exact use counts give equal posture check use counts |
| Replication.StaleChangesNothing | common/router_data_model.go:840-862 | stale and redelivered change sets change nothing, wherever they come in a delivery |
| Replication.DeliveryCatchesUp | common/router_data_model.go:810-862 | the missing change sets, delivered in any company of stale ones, bring a router up to date |
| Replication.ReplayCatchesUp | common/event_cache.go:162-234 | a router behind at k that applies what ReplayFrom(k + 1) answers has the controller's content and index |
| Replication.NothingMissing | common/event_cache.go:168-172 | a request from the future means there is nothing to catch up on |
| Replication.SnapshotCatchesUp | common/router_data_model.go:649-686 | a full sync is to be had iff the controller has no nil identity entry, and gives the router its content and index, whatever else dangles |
| Replication.FullSyncIff | common/router_data_model_sender.go:319-333 | after a run a full sync is to be had iff no membership change of the accepted change sets named an absent identity that no later event is about; naming known ones throughout is enough |
| Replication.ReplicaAgreement | common/router_data_model_sender.go:120-364 | after every run whose membership changes name identities the controller has, a full sync gives a router the controller's content; after every run of well-formed change sets a router that agreed at some index agrees with the controller by replay too |
| Replication.SentCompleteIff | controller/sync_strats/rtx.go:216-232 | the replay sent to a router, without its first change set, is all the router misses iff the log has the router's own index |
| Replication.SentCatchesUp | controller/sync_strats/rtx.go:216-257 | where it does, the router catches up |
| Replication.GapLosesChangeSet | controller/sync_strats/rtx.go:228-232 | a log with a gap at the index of a router synced elsewhere, where a change set is never sent |
| Replication.NothingLost | controller/sync_strats/rtx.go:216-232 | to a router synced by this controller, whose log was reset once, a replay is answered only where it leaves nothing out |
| Replication.BaseIsNotReplayed | common/event_cache.go:90-98 | the index of a reset is never answered by a replay of a log reset once |
| ReplicationRuns.ReplicasNeverDiverge | controller/sync_strats/rtx.go:204-257 | in every interleaving of publishing, in-order delivery, redelivery, replay and snapshots the router has the controller's content as of its index, any catch-up makes the two equal, and the replay that drops its first change set untested never loses one to a router synced by this controller |
| ReplicationRuns.StartConsistent | common/router_data_model.go:649-686 | a controller reset for the first time has a snapshot, and the router built from it starts consistent |
| ServiceLists.LoadServiceConfigs | common/router_data_model.go:2064-2086 | each type name is served by an override that loads under it, else by the service's last config of that name |
| ServiceLists.OrderIrrelevantIff | common/router_data_model.go:2077-2083 | the configs do not depend on the order of the overrides iff no two different ones load under one type name |
| ServiceLists.UniqueNamesUnambiguous | common/router_data_model.go:2064-2108 | overrides filed under their config's type and unique type names are enough |
| ServiceLists.BuildServiceList | common/router_data_model.go:1976-2024 | exactly the existing services of the identity's policies, dial and bind flags, configs, and the checks of policies with services |
| ServiceLists.BuildServiceListUsingDenormalizedData | common/router_data_model.go:1940-1974 | exactly the existing services and checks of the denormalized data, with flags and policy indexes by counter and configs |
| ServiceLists.ListShows | common/router_data_model.go:2064-2108 | the configs either list shows for a service, in terms of the identity's overrides and the model's maps: a name is there iff an override or a config of the service goes by it, an override comes first, else the service's last |
| ServiceLists.OverrideShown | common/router_data_model.go:2077-2083 | an override whose config and type exist is shown under its type name with its type and data, unless another override of the service has that name |
| ServiceLists.OwnShown | common/router_data_model.go:2064-2076 | without overrides for the service exactly its own configs are shown, the last one per type name |
| ServiceLists.CountedIsServiceList | common/router_data_model.go:1940-2024 | in an exact state a list meets the fast form's specification iff it meets the simple form's |
| ServiceLists.ListUnique | common/router_data_model.go:1976-2024 | that specification determines services, flags, configs and checks |
| ServiceLists.FastMatchesSimple | common/router_data_model.go:1940-2024 | in every reachable state both builders give a tracked identity the same list and checks, whatever orders they walk in, policy indexes excepted |
| ServiceLists.LoadServicePostureChecks | common/router_data_model.go:2045-2062 | the existing checks of a policy that has services are added |
| ServiceLists.BuildServiceAccessList | common/router_data_model.go:2026-2043 | counts and latest indexes counted from scratch |
| Subscriptions.Equals | common/subscriber.go:87-142 | same index or same data, same flags, equal config maps (by size and one-way lookup) |
| Subscriptions.ChecksChanged | common/subscriber.go:383-399 | reports a change exactly when the maps differ in keys or in an index |
| Subscriptions.NoticesReconstruct | common/subscriber.go:346-361 | applying the notifications to the old map gives the new one up to Equals, in any order |
| Subscriptions.ToldReconstructs | common/subscriber.go:289-404 | the same for all that one check sends; at most one of gained, lost and updated per service; policy events exactly when an index moved; the posture event exactly when checks differ |
| ListenerRuns.ListenersKeepUp | common/subscriber.go:289-404 | between checks of a router that handled change sets of higher index in between, a listener ends up with the new list's services, data, configs and permissions, is told of posture checks whenever one differs in data, and of the identity iff its data changed other than by purged overrides |
| ListenerRuns.PoliciesHeard | common/subscriber.go:368-377 | it is told that a service's dial (bind) policies changed whenever their number did and some are left |
| ListenerRuns.PutTwiceGoesUnheard | common/subscriber.go:390-397 | a posture check put twice in one change set, with a check in between, of which listeners hear nothing |
| ListenerRuns.PurgeGoesUnheard | common/router_data_model.go:1191-1200 | a config delete that changes an identity's data and not its index |
| Subscriptions.IdentitySubscription.CheckForChanges | common/subscriber.go:289-404 | the subscription holds the current list afterwards, and listeners are told exactly what is due |
| Subscriptions.IdentitySubscription.Initialize | common/subscriber.go:242-260 | tracking is on, and a new subscription holds the list built from policies |
| Subscriptions.IdentitySubscription.IdentityRemoved | common/subscriber.go:216-240 | the subscription starts over, with one deleted event if it held an identity |
| SyncChecks.StepKeepsInv | common/router_data_model.go:2129-2183 | each step of handlers and processor keeps: a set flag has an event, a scan request, a sender or a scan to come; an unseen change has a flag, a marker or a check under way |
| SyncChecks.NoLostCheck | common/router_data_model.go:763-797 | in every reachable state that invariant holds, and when nothing is under way every change has been seen |
| SyncChecks.ChecksCatchUp | common/router_data_model.go:763-797 | without further changes the processor gets there in a bounded number of steps, from any reachable state |
| SyncChecks.FullSyncChecksAll | common/subscriber.go:516-524 | between the dequeue of a full sync and its end every identity is checked, whatever interleaves |
| NotificationCompleteness.ViewChangesUnnoticedIff | common/router_data_model.go:1156-1528 | for whom an event changes what the list is computed from without a re-check being due, exactly |
| NotificationCompleteness.NoticedIsNotified | common/router_data_model.go:2230-2308 | with exact references the handlers reach everyone concerned |
| NotificationCompleteness.UninformedIff | common/router_data_model.go:1156-1528 | on the receiver an identity's list is computed from something else and it is not re-checked iff a policy changes type, a used config type is deleted, or a listed config is created late |
| ReferenceRuns.ReachableUninformedIff | common/router_data_model.go:1156-1528 | and so in every tidily reached state |
| UnnoticedLists.UnnoticedKeepsList | common/router_data_model.go:1976-2024 | an event that neither asks for an identity's re-check nor is of those three kinds leaves the list built for it the same: services, configs, permissions and posture checks (for overrides that do not compete, as in OrderIrrelevantIff) |
| UnnoticedLists.SilentFlipChangesList | common/router_data_model.go:1256-1275 | the type flips among them always change the list |
| SilentLists.TypeDeleteChangesListIff | common/router_data_model.go:1156-1177 | the delete of a config type notifies nobody and changes an identity's list iff the list shows a config of that type |
| SilentLists.LateConfigChangesListIff | common/router_data_model.go:1209-1239 | the create of a config notifies nobody and changes an identity's list iff for some service it is going to be shown, as an override or as the last own config of its type name without an override for that, and something else was |
| NotificationCompleteness.FlipViewIff | common/router_data_model.go:1256-1275 | a type flip leaves a member's list alone iff others grant each of the policy's services both ways |
| Counterexamples.FlipGoesUnnoticed | common/router_data_model.go:1256-1275 | a router with one policy, one service and one identity that is not told of a flip |
| Counterexamples.TypeDeleteGoesUnnoticed | common/router_data_model.go:1156-1177 | an identity that is not told that its service lost a config with its type |
| Counterexamples.LateConfigGoesUnnoticed | common/router_data_model.go:1209-1239 | an identity that is not told that a config its service lists is there now |
| Counterexamples.OverrideBeforeConfig | common/router_data_model.go:1007-1019 | a config created after an override names it lists no identity |
| Counterexamples.ListBeforeConfig | common/router_data_model.go:1209-1239 | a config created after a service lists it lists no service |
| Counterexamples.ListedLessOftenLosesReference | common/router_data_model.go:1087-1107 | a config listed twice and then once loses its reference |
| Counterexamples.UnknownServiceBreaksLinks | common/router_data_model.go:1428-1474 | a policy that is given a service that does not exist |
| Counterexamples.RevivedPolicyBreaksBackLinks | common/router_data_model.go:1280-1292 | a policy deleted and created again that its former service still refers to |
| Counterexamples.UnknownIdentityIsNil | common/router_data_model_sender.go:319-333 | a membership change that leaves a nil entry, and no snapshot |
| Counterexamples.CheckDeleteParts | common/router_data_model_sender.go:278-284 | a listed check whose delete makes sender and receiver differ |
| Counterexamples.ConfigDeleteParts | common/router_data_model.go:1191-1200 | a config in use whose delete makes them differ |
| Counterexamples.PolicyReuseParts | common/router_data_model_sender.go:239-255 | a reused policy id that makes them differ |
| RateLimitTrackers.AdaptiveRateLimitTracker.constructor | controller/command/rate_limiter.go:422-457 | a new tracker is empty with the window at its maximum |
| RateLimitTrackers.AdaptiveRateLimitTracker.IsRateLimited | controller/command/rate_limiter.go:473-475 | true exactly when the size has reached the current window, that is when no work would be admitted |
| RateLimitTrackers.AdaptiveRateLimitTracker.RunRateLimited | controller/command/rate_limiter.go:523-543 | a work is admitted iff the size is below the current window, and gets the new size as its position; a refused one changes nothing |
| RateLimitTrackers.AdaptiveRateLimitTracker.RecordSuccess | controller/command/rate_limiter.go:477-493 | one slot freed, every tenth success widens the window by one up to the maximum |
| RateLimitTrackers.AdaptiveRateLimitTracker.RecordBackoff | controller/command/rate_limiter.go:495-514 | one slot freed; the window becomes ten below the work's position where that is lower, but not below the minimum |
| RateLimitTrackers.AdaptiveRateLimitTracker.Complete | controller/command/rate_limiter.go:599-624 | the first completion of a work frees its slot, later ones change nothing |
| RateLimitTrackers.AdaptiveRateLimitTracker.CleanExpired | controller/command/rate_limiter.go:569-588 | exactly the works past their timeout lose their slots, each once, and the lowest position among them sets the window, in whatever order |
| RateLimitTrackers.SlotsConserved | controller/command/rate_limiter.go:477-624 | in every interleaving of admissions, racing completions and expiry: size is the number outstanding, within the maximum; window within bounds; each work frees at most one slot, and exactly one once completed |
| RateLimitTrackers.AdmissionIff | controller/command/rate_limiter.go:523-543 | in every reachable state a step takes a slot iff it is an admission that finds fewer outstanding works than the current window |
| RateLimitTrackers.WindowMoves | controller/command/rate_limiter.go:477-521 | a backoff lowers the window, a success counts, nothing else moves it |
| RateLimitWindows.Window.Widened | controller/command/rate_limiter.go:484-492 | below the maximum a success counts, and every tenth widens the window by one; at the maximum nothing happens |
| RateLimitWindows.SuccessesWiden | controller/command/rate_limiter.go:484-492 | any number of successes widens the window by the tens its wrapping counter passes, up to the maximum |
| RateLimitWindows.TenSuccesses | controller/command/rate_limiter.go:488-492 | ten in a row widen it by exactly one, unless the counter's wrap puts two multiples of ten among them |
| RateLimitWindows.FewerThanTen | controller/command/rate_limiter.go:488-492 | from a full ten on, fewer leave it alone iff the wrap is not among them |
| RateLimitWindows.WrapWidensTwice | controller/command/rate_limiter.go:488-492 | a counter at which ten successes widen the window by two |
| RateLimitWindows.Window.Narrowed | controller/command/rate_limiter.go:502-513 | the window becomes the lower of itself and ten below the position, but not below the minimum |
| RateLimiters.StepKeepsInv | controller/command/rate_limiter.go:299-395 | each step keeps currentSize the number of callers inside, and every queued work owned by a caller that waits |
| RateLimiters.QueueNeverFull | controller/command/rate_limiter.go:332-367 | in every reachable state the queue full branch is out of reach, and before the close an admitted caller can always queue |
| RateLimiters.ArrivalIff | controller/command/rate_limiter.go:332-345 | a caller gets in iff fewer callers are inside than the current window |
| RateLimiters.WindowMoves | controller/command/rate_limiter.go:299-330 | the window moves by the reports of success and backoff alone, and how |
| RateLimiters.WorkNotLost | controller/command/rate_limiter.go:347-395 | in every reachable state before the close the work of a waiting caller is queued, with the worker or done |
| CtrlChannels.DefaultTrafficOrder | common/ctrlchan/channel.go:139-210 | default messages never leave on high- or low-priority underlays, and with a single default underlay leave in order, each at most once |
| CtrlChannels.NoLostWakeup | common/ctrlchan/channel.go:144-157 | with a single default underlay none is ever stranded in its first select, even if tracking calls overlap |
| CtrlChannels.TrafficKept | common/ctrlchan/channel.go:139-200 | in every run each kind of message leaves on default underlays or its own kind, and a high-priority one on a default underlay only if the flag was not set when that underlay last loaded it |
| CtrlChannels.TrafficGetsOut | common/ctrlchan/channel.go:139-200 | in every reachable state an underlay without a message can by its own steps get the next message out: a default one default and low-priority messages always, high-priority ones while there is no high-priority underlay, the others their own |
| CtrlChannels.HighSentIff | common/ctrlchan/channel.go:144-169 | a default underlay can get the next high-priority message out, with no high-priority underlay, iff it is not stranded |
| CtrlChannels.OrderIffSingle | common/ctrlchan/channel.go:139-169 | order is kept in every run iff there is at most one default underlay |
| CtrlChannels.WakeupIffSingle | common/ctrlchan/channel.go:212-224 | no default underlay is ever stranded in exactly the same case |
| IdentityStores.IdentityStore.PersistServiceConfigs | controller/db/identity_store.go:415-530 | the stored map becomes the wanted one, both indexes move, events name exactly the changed and new services, and the indexes stay inverse iff the update is safe |
| IdentityStores.InverseKeptIff | controller/db/identity_store.go:448-478 | the config links stay an exact inverse iff no service has a config that one type keeps, another drops and none sets |
| IdentityStores.OneTypePerServiceIsSafe | controller/db/identity_store.go:448-478 | with each config under one type per service every update is safe, swaps included |
| IdentityStores.SharedConfigLosesLink | controller/db/identity_store.go:448-462 | a config under two types that loses its link |
| IdentityStores.IdentityStore.RemoveServiceConfigs | controller/db/identity_store.go:610-664 | picked overrides and their links go, emptied services lose their entry and, if asked, their link |
| IdentityStores.RemovalKeepsInverseIff | controller/db/identity_store.go:628-648 | a removal keeps the config links inverse iff it treats the overrides of a service that share a config alike |
| IdentityStores.RemovalByTypeLosesLink | controller/db/identity_store.go:628-648 | a filter by type that loses the link of a config still in use |
| IdentityStores.IdentityStore.DeleteById | controller/db/identity_store.go:557-607 | refuses default admins and, unless by the system, identities of existing routers; otherwise no link of either index names the deleted identity, all others stay |

## Left out

- Public keys and revocations: public keys are synthetic and revocations are not part of a snapshot, so neither takes part in replication.
- Synthetic change sets in the replication theorems: they are neither indexed nor logged.
- Timelines, subscriptions of routers and the leader check in the controller's router sender: which timeline a router is on is not modelled.
- Resets of a log in use: the controller builds its model, and resets its log, once when it starts.
- Exact values of the dial and bind policy indexes in the list built from policies: the two builders compute them differently on purpose.
- The worker's discard of works far above the window: a discarded work is finished like any other, with an error for its result.
- Subscriptions.IdentitySubscription.CheckForChanges: compares old and new values; the source's old identity and service can be the very objects that were updated in place since, so the identity updated event is modelled on values only.
- RouterDataModels.RouterDataModel.Handle: records the re-checks asked for whether or not anyone subscribes; the source skips identities without a subscription.
- RouterDataModels.RouterDataModel.HandleIdentityEvent: the deleted flag a delete sets for subscribers is not modelled.
- RouterDataModels.RouterDataModel.HandleServiceEvent: the old config list, which the source sorts in place, may also be held by a subscription; that aliasing is not modelled.
- RouterDataModels.RouterDataModel.HandleConfigEvent: overrides purged in place may be shared with the event they came in; that aliasing is not modelled.
- ServiceLists.BuildServiceListUsingDenormalizedData: it reads the identity in the model for its overrides, where the source reads the subscription's copy, which is the same object.
- SyncChecks.NoLostCheck: clearing a flag and removing the entry it leaves empty are one step, and so is a check's reading of the model.
- Subscribed identities that are deleted: a scan handles a deleted flag and skips the others, so the no-lost-check claim is about identities that stay.
- 32 bit wrap-around of counters other than the success counter: a counter would need two billion policies.
- The terminator id cache, listeners of the sender, entity counts and the reporting of differences: easy or reporting only.
- Errors of the key-value store in the identity store, and its other fields and link collections: thin layers over a library.
- IdentityStores.IdentityStore.DeleteById: enrollments, authenticators, role attributes and policy roles of the deleted identity are not modelled.
- IdentityStores.IdentityStore.RemoveServiceConfigs: with service references kept, as in a service delete, the service side of the index is left to the caller.
- The non-adaptive rate limiter and the metrics of all limiters: easy members.
- Dialing, constraints and delays of underlays: timing and library code. At most one live default underlay is an assumption of the positive results.
- Encoding, files and certificates: foreign libraries.
