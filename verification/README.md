# Hazelcast Platform Operator: verified models of its protocols

The operator is a set of reconcilers that share stored custom resources, one generated Hazelcast
configuration and a few background goroutines. Any call to the API server or to a cluster may
fail, and the next reconcile resumes from what is stored. This project models the parts in which
that is hard to get right and proves, for every input, run or interleaving, what they keep.

`dafny verify dfyconfig.toml` checks the whole project.

| file | what it models |
|---|---|
| `WanKeys.dfy` | status keys, WAN names and publisher ids as strings, and when they can be taken apart again |
| `WanConfig.dfy` | the handshake between the generated configuration and the WanReplication status |
| `WanLifecycle.dfy` | the WanReplication reconciler over whole runs: start, finalizers, stop sequence, status writes |
| `JetChecker.dfy` | the Jet job status checker and its loops under one mutex |
| `MapRetention.dfy` | the Map reconciler, its last-successful annotation and the map section of the configuration |
| `MemberAcceptance.dfy` | pushing a configuration to the members in rounds |
| `WanSyncQueue.dfy`, `McPolling.dfy`, `WanSyncStatus.dfy` | WAN synchronisation: the queue, the polling of events, the status |
| `HotBackupStart.dfy`, `HotBackupFinish.dfy` | when a hot backup is started, and when it is recorded as a success |
| `CronSchedule.dfy`, `BackupHistory.dfy` | scheduled backups: the registry of cron entries and the retention of history |
| `ConfigMerge.dfy` | merging custom and generated configuration |
| `WanPorts.dfy` | WAN port validation against the container ports generated |
| `PodServices.dfy` | per-pod services and their count annotation |
| `Environment.dfy` | environments a reconciler runs in: one that does as it likes, or a cooperative one with chosen calls refused |
| `Wrappers.dfy` | small definitions shared by the files |

## How runs are modelled

* **The API server** keeps the versions of a resource in order. A write carries the version it was
  computed from and is accepted only on the latest one; it may be refused, and it may take effect
  without its answer arriving. Reads may return outdated versions. Two copies with the same version
  have the same contents.
* **Interference.** Before every call other writers may act any number of times: users, other
  controllers, the garbage collector, other goroutines. The methods that stand for them
  (`Interfere`, `Others`) choose freely; a property shown of a method therefore holds for every
  interleaving. Reconciles of one resource are serial, as in the framework the operator uses.
* **Witnesses.** Where a run that goes wrong is claimed, it is a run of the same methods in a
  cooperative environment with named calls refused (`Environment.dfy`); the methods' contracts say
  what such a run leads to.
* **Clusters and libraries** answer arbitrarily. An unstable sort and the iteration order of a map
  are any order; JSON and YAML round trips are the identity on the values modelled.
* **Background goroutines** are sequences of atomic steps, one per critical section.

## Findings

Some properties one would expect do not hold of the code. For each there is a member that gives a
run or input, and one that says exactly when the property does hold.

* A map whose name contains "__" never leaves Persisting, and it can take the WAN configuration
  section away from another map of its cluster, for an order in which the keys can be visited:
  `WanConfig.HandshakeExact`, `WanConfig.SepIsNeverConfirmed`, `WanConfig.ShadowedCanBeLost`. The WAN
  finalizer meant for it goes to the map of the truncated name: `WanLifecycle.HeldIsOwnExactlyIf`;
  without such a map every reconcile returns before the validation, so that no entry of its
  WanReplication is confirmed: `WanLifecycle.WanReplicationReconciler.AddWanRepFinalizerToReplicatedMaps`.
* A map can keep its WAN finalizer for ever: when the WanReplication is deleted while replication is
  started, the conflict of the status write is not reported, the map is held all the same, and the
  next reconcile finds no entry to stop: `WanLifecycle.AbandonedMap`. The new entry of a held map is
  stored exactly when that write was accepted: `WanLifecycle.WanReplicationReconciler.StartAndHold`.
* A Jet checker that exits stops the shared ticker after releasing the lock, possibly that of its
  successor, which then waits for ever: `JetChecker.StuckLoop`, `JetChecker.StuckForever`. It cannot
  happen exactly when no loop is between its unlock and the stop as the checker is started:
  `JetChecker.TickerWorksExactlyIf`. A job stored before an early return of applyJetJob is checked
  only once some later call starts the checker: `JetChecker.ServedExactlyIfStarted`.
* A hot backup can be started twice for one resource: after a restart with a cache that is older
  than the annotation, the reconciler passes its guards, retries its writes until the cache has
  caught up, and overwrites the running state: `HotBackupStart.StartedTwice`. It can exactly when
  the cache can show a version that does not stop a reconcile although the resource was started:
  `HotBackupStart.Run` and `HotBackupStart.UnsafeRestartStartsAgain`.
* A spec edited while a member's Success is stored is never sent to that member:
  `MemberAcceptance.EditedBetweenRounds`; the edit is safe exactly when no Success is stored:
  `MemberAcceptance.EditIsSafeExactlyIf`.
* A map that becomes Success although its annotation could not be written drops out of the
  configuration as soon as it fails: `MapRetention.DroppedAfterSuccess`; a failed map keeps its entry
  exactly when it has the annotation: `MapRetention.KeptExactlyIfAnnotated`. Some edits, among them
  the idle time, are found persisted in a configuration that does not carry them; exactly which:
  `MapRetention.SameConfigExactlyIf`.
* The port validation rejects specifications without any shared port when an entry without ports
  starts within the range of another one: in every order of ties when it does not start where the
  other does (`WanPorts.StrayInsideIsAlwaysRejected`), in some order otherwise
  (`WanPorts.EmptyEntryTies`). It is exact if and only if distinct ports come without such an entry:
  `WanPorts.ValidationIsExact`. Beyond 32 bits it accepts colliding ports: `WanPorts.TruncatedPort`.
* Per-pod services created for a specification that is replaced before the StatefulSet was
  written are left over: `PodServices.ChangedTooEarly`. They stay until a specification needs them or
  the user annotates a larger number: `PodServices.StaysOverlooked`; the exact condition for a clean
  result is in `PodServices.HazelcastReconciler.Reconcile`.
* With no member listed, waiting for a WAN synchronisation yields an event of no type, which
  closes nothing: `McPolling.FinishEvent`. A map is closed if and only if a member was listed:
  `WanSyncStatus.CloseMap`.
* The events of a WanSync can be written to another one: `WanSyncQueue.ReportedToAnother`; an event
  reaches its own exactly when the job that drained the list was started for it:
  `WanSyncQueue.ReachesOwnExactlyIf`.

## Model

| member | source | states |
|---|---|---|
| `WanKeys.SplitKeyRoundTrip` | internal/controller/hazelcast/wanreplication_controller.go:549-552 | For a cluster name without underscore, splitting its key gives the cluster name always, and the map name if and only if the map name has no "__" |
| `WanKeys.SplitsExactlyIf` | internal/controller/hazelcast/wanreplication_controller.go:549-552 | That is, exactly when the map name has no two underscores in a row; a single one does no harm |
| `WanKeys.SplitPartHasNoSep` | internal/controller/hazelcast/wanreplication_controller.go:549-552 | The map name obtained by splitting any key contains no separator |
| `WanKeys.WanMapKeyInjective` | internal/controller/hazelcast/wan_resources.go:86-88 | Keys of clusters without underscore are equal only for the same cluster and map |
| `WanKeys.WanNameRoundTrip` | internal/controller/hazelcast/wanreplication_controller.go:638-640 | Stripping the suffix undoes wanName for every map name |
| `WanKeys.PublisherIdInjective` | internal/controller/hazelcast/wanreplication_controller.go:494-495 | Under one key, WanReplications with different names have different publisher ids |
| `WanConfig.FilterPersistedWanReplications` | internal/controller/hazelcast/hazelcast_resources.go:1668-1696 | Under every key exactly the resources with a Persisting or Success entry for this cluster, in listing order, and no key with none |
| `WanConfig.SelectedExactlyIf` | internal/controller/hazelcast/hazelcast_resources.go:1680-1692 | A key is selected for the cluster it names exactly when some WanReplication has a Persisting or Success entry under it |
| `WanConfig.SectionsOfOrder` | internal/controller/hazelcast/hazelcast_resources.go:1779-1788 | For every order of the keys the sections written are exactly those of the Persisting and Success entries of the cluster, so that an entry that was confirmed stays in the configuration |
| `WanConfig.CreateWanReplicationConfig` | internal/controller/hazelcast/hazelcast_resources.go:2219-2230 | The loop computes the publishers by id, later resources winning |
| `WanConfig.ConfigAgreesWithRequest` | internal/controller/hazelcast/wanreplication_controller.go:494-518 | The publisher in the configuration carries, field by field, what the request that added it to the running cluster carries and what the spec says |
| `WanConfig.PublishersOfDistinct` | internal/controller/hazelcast/hazelcast_resources.go:2219-2249 | When publisher ids differ, each of several WanReplications on one map finds exactly the publisher built from its own spec |
| `WanConfig.FillHazelcastConfigWithWanReplications` | internal/controller/hazelcast/hazelcast_resources.go:1779-1788 | The result is that of some order of the selected keys, each visited once, every key replacing what an earlier one wrote under its section |
| `WanConfig.GeneratedExactlyByOrders` | internal/controller/hazelcast/hazelcast_resources.go:1782-1786 | A section table is the result of some order of the keys if and only if every section holds exactly the publishers of one of its keys and every selected key has its section |
| `WanConfig.ConfirmedEntries` | internal/controller/hazelcast/wanreplication_controller.go:573-620 | Whatever the configurations hold, an entry is confirmed only if it is Persisting and they hold, under its publisher id, exactly the publisher built from the spec; when no two sections share a key, every such entry is confirmed |
| `WanConfig.UnshadowedIsConfirmed` | internal/controller/hazelcast/wanreplication_controller.go:592-620 | An entry of a map without "__" whose section no other key shares is confirmed by every configuration generated from the current statuses, also with several WanReplications on the map |
| `WanConfig.HandshakeExact` | internal/controller/hazelcast/wanreplication_controller.go:573-636 | Every order in which the keys can be visited gives a configuration that confirms the entry, if and only if the map name has no "__" and no other key is written under its section |
| `WanConfig.SepIsNeverConfirmed` | internal/controller/hazelcast/wanreplication_controller.go:590-594 | A map whose name has "__" is confirmed by no generated configuration |
| `WanConfig.ShadowedCanBeLost` | internal/controller/hazelcast/hazelcast_resources.go:1782-1786 | For a shadowed map there is an order of the keys whose result does not confirm it |
| `WanConfig.NoSepNoShadow` | internal/controller/hazelcast/hazelcast_resources.go:1782-1786 | When no map name has "__", no map is shadowed |
| `WanConfig.RegenerateAndValidate` | internal/controller/hazelcast/wanreplication_controller.go:573-620 | One regeneration of the listed clusters and one validation confirm exactly the Persisting entries of those clusters |
| `WanConfig.WanStatusFromMapStatuses` | internal/controller/hazelcast/wanreplication_status.go:121-151 | Success exactly when there are entries and all are Success; Persisting exactly when one is; Failed exactly when one is and none is Persisting; otherwise Pending |
| `WanLifecycle.FinalizerRemovedOnlyAfterStop` | internal/controller/hazelcast/wanreplication_controller.go:234-279 | In every run, a WAN finalizer leaves a map only after its publisher was stopped and then its queue cleared on every member listed at those calls, then a status stored, without the publisher being added again; at that moment the stored entry is Terminating with that publisher |
| `WanLifecycle.ReleasedStaysTerminating` | internal/controller/hazelcast/wanreplication_controller.go:170-279 | An entry whose map was released stays Terminating with that publisher at every later moment until it is deleted |
| `WanLifecycle.TerminatingPersists` | internal/controller/hazelcast/wanreplication_status.go:92-119 | Over any stretch of a run in which the entry exists, a Terminating entry stays Terminating with the same publisher |
| `WanLifecycle.StoredEntriesOk` | internal/controller/hazelcast/wanreplication_controller.go:597-617 | At every point of a run a stored publisher id is the one of name and key, and a Success entry was found in a configuration read before |
| `WanLifecycle.LogOkEverywhere` | internal/controller/hazelcast/wanreplication_controller.go:642-661 | Every event of a run satisfies its rule; in particular the last-successful annotation is written only while all stored entries are Success |
| `WanLifecycle.WanReplicationReconciler.Reconcile` | internal/controller/hazelcast/wanreplication_controller.go:63-168 | A reconcile cut short at any call, with any interference, extends a correct run to a correct run. Alone it adds the finalizer of a new resource; starts a ready map, holds it and validates its entry, with everything that is stored given; refuses a specification that changes the publisher, storing Failed and nothing else; and, for a deleted resource whose entries name their maps, stops all entries, lets their maps go and removes the finalizer |
| `WanLifecycle.Run` | internal/controller/hazelcast/wanreplication_controller.go:63-168 | Any number of reconciles from a fresh resource make a run in which every event satisfies its rule |
| `WanLifecycle.WanReplicationReconciler.StopWanReplicationMap` | internal/controller/hazelcast/wanreplication_controller.go:234-279 | Success means that exactly the entry of this map is gone from the copy and, when the entry had a publisher and the map the WAN finalizer, that the finalizer was removed during the call. Alone, exactly this map is let go and exactly this entry is deleted from what is stored |
| `WanLifecycle.WanReplicationReconciler.RemoveWanRepFinalizerFromMap` | internal/controller/hazelcast/wanreplication_controller.go:367-377 | Success means that the finalizer the map had was removed during the call |
| `WanLifecycle.WanReplicationReconciler.ChangeWanState` | internal/hazelcast-client/wan_service.go:75-89 | Success means that every listed member acknowledged the stop |
| `WanLifecycle.WanReplicationReconciler.ClearWanQueue` | internal/hazelcast-client/wan_service.go:91-104 | Success after a complete stop means that every listed member cleared its queue |
| `WanLifecycle.WanReplicationReconciler.MarkTerminating` | internal/controller/hazelcast/wanreplication_status.go:167-184 | Only a successful write after stop and clear allows the release of the map |
| `WanLifecycle.WanReplicationReconciler.DeleteLeftoverMapsFromStatus` | internal/controller/hazelcast/wanreplication_controller.go:170-201 | Only Terminating entries with a publisher are deleted, all others stay as they are, also when it returns early; success means that none is left, or that one was met whose map still has the finalizer |
| `WanLifecycle.WanReplicationReconciler.StopWanReplicationAllMaps` | internal/controller/hazelcast/wanreplication_controller.go:203-232 | Success means that no entry is left and that every map of an entry with a publisher that had the WAN finalizer lost it during the call, whatever the maps' own keys are. Alone, it succeeds when the entries name their maps, and changes no other map |
| `WanLifecycle.WanReplicationReconciler.StopAll` | internal/controller/hazelcast/wanreplication_controller.go:90-106 | Alone, from any reachable state in which the entries name their maps, deleting the leftovers and stopping the rest leaves no entry, no map of an entry with the WAN finalizer, and every other map as it was |
| `WanLifecycle.WanReplicationReconciler.StopWanRepForRemovedResources` | internal/controller/hazelcast/wanreplication_controller.go:399-428 | Success means that every entry left is selected by the spec, or names a map that has another key. Alone, when the entries name their maps, exactly the entries the spec does not select are gone, their maps are let go, and nothing else has changed |
| `WanLifecycle.WanReplicationReconciler.CleanupTerminatingMapCRs` | internal/controller/hazelcast/wanreplication_controller.go:430-447 | Success means that no terminating map of the groups has an entry left, and that no other entry was changed; alone, with the groups up to date, it succeeds |
| `WanLifecycle.WanReplicationReconciler.Prepare` | internal/controller/hazelcast/wanreplication_controller.go:107-138 | Success means that the entries left are selected by the spec and none is of a terminating map; a refused specification changes nothing |
| `WanLifecycle.WanReplicationReconciler.StartWanReplication` | internal/controller/hazelcast/wanreplication_controller.go:449-492 | Success means that every map in state Success has an entry with a publisher or a Failed one; entries with a publisher stay as they were in any case; every other change starts a map of the groups, under its key, with the publisher id of name and key, naming the map |
| `WanLifecycle.WanReplicationReconciler.AddWanRepFinalizerToReplicatedMaps` | internal/controller/hazelcast/wanreplication_controller.go:524-547 | Success means that for every entry with a publisher the groups have a map under the name its key splits into, and a version of such a map was stored with the WAN finalizer |
| `WanLifecycle.HeldIsOwnExactlyIf` | internal/controller/hazelcast/wanreplication_controller.go:529-533 | The map held for an entry is the entry's own if and only if its map name has no "__" |
| `WanLifecycle.WanReplicationReconciler.StartAndHold` | internal/controller/hazelcast/wanreplication_controller.go:140-146 | A new entry, whose map is held by then, is stored if and only if the status write of the start was accepted |
| `WanLifecycle.AbandonedMap` | internal/controller/hazelcast/wanreplication_status.go:111-116 | A run of three reconciles, with the WanReplication deleted during the second, after which it has neither finalizer nor entries while the map still has the WAN finalizer |
| `WanLifecycle.Replicate` | internal/controller/hazelcast/wanreplication_controller.go:63-168 | The run in which all goes well, from creation through start, regeneration of the configuration and validation: the map is held, its only entry is Success under the right publisher, and the specification is recorded |
| `WanLifecycle.ReplicateAndStop` | internal/controller/hazelcast/wanreplication_controller.go:90-112 | When the resource is deleted after that, one reconcile undoes it: no entry, no finalizer, and the map as it was before |
| `WanLifecycle.WanReplicationReconciler.ValidateWanConfigPersistence` | internal/controller/hazelcast/wanreplication_controller.go:573-636 | Only Persisting entries confirmed by the configurations read become Success, and all of them when no two sections share a key; nothing else changes; persistence is reported exactly when all entries are Success |
| `WanLifecycle.WanReplicationReconciler.Confirm` | internal/controller/hazelcast/wanreplication_controller.go:147-168 | A failed validation or annotation leaves the status Failed; alone, the stored entries are validated against the configurations read, and the annotation is written exactly when all are Success |
| `WanLifecycle.ValidationCompletesHandshake` | internal/controller/hazelcast/wanreplication_controller.go:573-620 | Validating against configurations regenerated from the current statuses makes every Persisting entry of their clusters Success whose map name has no "__" and whose section no other key shares |
| `WanLifecycle.WanReplicationReconciler.PatchWanMapStatuses` | internal/controller/hazelcast/wanreplication_status.go:92-119 | The copy's table has exactly the requested changes applied and a Success status only with all entries Success, also when a conflict is swallowed |
| `WanLifecycle.AppliedKeeps` | internal/controller/hazelcast/wanreplication_status.go:97-104 | The changes a reconcile requests keep every entry well formed and every Terminating entry Terminating |
| `WanLifecycle.WanReplicationReconciler.UpdateLastSuccessfulConfiguration` | internal/controller/hazelcast/wanreplication_controller.go:642-661 | The annotation becomes the spec, and is written only while all entries are Success; the run records it |
| `WanLifecycle.WanReplicationReconciler.ValidateWanReplicationSpec` | api/v1alpha1/wanreplication_validation.go:25-53 | A spec passes exactly when its publisher is that of the last successful spec, apart from the consistency check strategy |
| `WanLifecycle.WanReplicationReconciler.GetMapsGroupByHazelcastName` | internal/controller/hazelcast/wan_resources.go:13-50 | Every map of the spec and every listed map of a named cluster is in the group of its own cluster, each name once, and nothing else is |
| `WanLifecycle.RemoveDuplicate` | internal/controller/hazelcast/wan_resources.go:52-63 | No name twice, only maps of the list, every name of the list |
| `WanLifecycle.FindMapInSlice` | internal/controller/hazelcast/wanreplication_controller.go:554-561 | The first map of that name, or none has it |
| `JetChecker.RunHasOneLoop` | internal/controller/hazelcast/jetjob_status.go:52-85 | In every interleaving at most one checker loop has not decided to exit, and there is one exactly when checkInProgress is set |
| `JetChecker.RunServesJobUntilDeleted` | internal/controller/hazelcast/jetjob_status.go:33-85 | A job present when runChecker returned keeps one and the same loop alive until it is deleted |
| `JetChecker.ServedExactlyIfStarted` | internal/controller/hazelcast/jetjob_controller.go:175-216 | While a job stays stored, a loop is alive if and only if one was alive at the start or runChecker was called since |
| `JetChecker.StoredButNotStarted` | internal/controller/hazelcast/jetjob_controller.go:175-209 | A stored job without a call of runChecker has no loop |
| `JetChecker.TickerWorksExactlyIf` | internal/controller/hazelcast/jetjob_status.go:52-69 | When the checker is started, its ticker works in every continuation for as long as the flag stays set, if and only if no earlier loop is between its unlock and the stop of the ticker |
| `JetChecker.StuckLoop` | internal/controller/hazelcast/jetjob_status.go:64-69 | A run, with a store before every start, in which a loop with jobs waits on a stopped ticker with no tick left |
| `JetChecker.OneTickLeft` | internal/controller/hazelcast/jetjob_status.go:61-67 | After its ticker was stopped the live loop takes at most one tick, and only the one left in the channel |
| `JetChecker.StuckForever` | internal/controller/hazelcast/jetjob_status.go:52-69 | With no tick left the loop waits for ever and no other is started, whatever is stored, deleted or started |
| `JetChecker.JetJobStatusChecker.StoreJob` | internal/controller/hazelcast/jetjob_status.go:33-37 | One Store event of the run |
| `JetChecker.JetJobStatusChecker.DeleteJob` | internal/controller/hazelcast/jetjob_status.go:39-43 | One Delete event of the run |
| `JetChecker.JetJobStatusChecker.LoadJob` | internal/controller/hazelcast/jetjob_status.go:45-50 | Found exactly when the job is stored, with its resource |
| `JetChecker.JetJobStatusChecker.RunChecker` | internal/controller/hazelcast/jetjob_status.go:52-85 | One Run event; afterwards the flag is set and exactly one loop is alive |
| `JetChecker.JetJobStatusChecker.CheckOnce` | internal/controller/hazelcast/jetjob_status.go:63-71 | The loop decides to exit exactly when no job is stored |
| `MapRetention.EntryIsRetained` | internal/controller/hazelcast/hazelcast_resources.go:1621-1650 | A map with annotation has an entry under its name in every state but Terminating; while Failed or Pending, and alone under its name, the entry is the configuration of its last successful spec |
| `MapRetention.FilterPersistedMaps` | internal/controller/hazelcast/hazelcast_resources.go:1630-1649 | The loop returns exactly the chosen versions, in listing order |
| `MapRetention.ChosenExactly` | internal/controller/hazelcast/hazelcast_resources.go:1630-1649 | In every listing the filter selects exactly the Persisting and Success maps as they are, whatever their annotation, and the Failed and Pending ones with annotation, with their last successful spec |
| `MapRetention.FillHazelcastConfigWithMaps` | internal/controller/hazelcast/hazelcast_resources.go:1765-1777 | The loop builds the map section, later maps winning, or fails |
| `MapRetention.LastOfNameDecides` | internal/controller/hazelcast/hazelcast_resources.go:1765-1777 | When several maps share a name, the entry is the configuration of the last one in the list |
| `MapRetention.SectionEntries` | internal/controller/hazelcast/hazelcast_resources.go:1765-1777 | The section exists exactly when every map can be configured, has exactly the maps' names, and each entry is the configuration of a map of that name |
| `MapRetention.RegenerateAndValidate` | internal/controller/hazelcast/map_controller.go:414-440 | A Persisting map alone under its name, with or without annotation, is found persisted whenever the configuration can be generated |
| `MapRetention.KeptExactlyIfAnnotated` | internal/controller/hazelcast/hazelcast_resources.go:1636-1645 | In every listing a Failed or Pending map alone under its name has an entry if and only if it has its annotation |
| `MapRetention.DroppedAfterSuccess` | internal/controller/hazelcast/map_controller.go:158-166 | A run in which writing the annotation fails, Success is stored, the cluster stops running, and the entry the Success version had is gone |
| `MapRetention.SameConfigExactlyIf` | internal/controller/hazelcast/hazelcast_resources.go:1949-2037 | Two maps get the same configuration if and only if map names and map store properties are the same and the specs agree in everything but cluster, idle time, near cache name, secret name, and options that are missing or at their default |
| `MapRetention.ConfigAgreesWithInput` | internal/controller/hazelcast/map_controller.go:245-347 | The configuration carries, field by field, what the members were sent and what the spec says, under the name of the spec or else of the resource; both exist exactly when the secret of the map store can be read |
| `MapRetention.FixedInConfiguration` | api/v1alpha1/map_validation.go:166-197 | An admitted edit keeps the cluster and the name, and of the configuration everything but what can be changed at run time |
| `MapRetention.InvisibleEditIsPersisted` | internal/controller/hazelcast/map_controller.go:427-439 | A map found persisted is still found so after an edit exactly when the edit is one of those |
| `MapRetention.MapReconciler.Reconcile` | internal/controller/hazelcast/map_controller.go:48-167 | With any interference and failing calls, every stored version with annotation has left its initial state, agrees with the annotation in the fields that cannot be updated, and its annotation was found in the cluster's configuration before; the state becomes Success only for a spec found there; in a cooperative environment every version that is stored is determined by the refused calls, also for a deleted map |
| `MapRetention.MapReconciler.UpdateMapStatus` | internal/controller/hazelcast/map_status.go:46-65 | A reported success means the state is stored, or the copy was superseded and the conflict swallowed; a conflict is never reported |
| `MapRetention.MapReconciler.UpdateLastSuccessfulConfiguration` | internal/controller/hazelcast/map_controller.go:395-412 | The annotation is written only from a copy whose spec was found persisted and whose resource has left its initial state |
| `MapRetention.Run` | internal/controller/hazelcast/map_controller.go:48-167 | Over every run, with the edits the validation admits, every version ever stored satisfies what EntryIsRetained needs |
| `MapRetention.SuccessAfterRegeneration` | internal/controller/hazelcast/map_controller.go:48-167 | A new map waits in a state in which it goes into the next configuration, and is a Success with finalizer and annotation one reconcile after that was generated |
| `MapRetention.LetGoAfterDeletion` | internal/controller/hazelcast/map_controller.go:67-78 | A deleted map loses its finalizer in the next reconcile and goes into no configuration any more |
| `MemberAcceptance.SendCodecRequest` | internal/controller/hazelcast/data_structure_controller.go:232-260 | It succeeds exactly when every listed member is recorded already or accepts, and asks exactly the members not recorded |
| `MemberAcceptance.RoundRecordsAcceptances` | internal/controller/hazelcast/map_controller.go:221-242 | A round records only members recorded before or accepting in it; a successful round records every listed member |
| `MemberAcceptance.Run` | internal/controller/hazelcast/data_structure_controller.go:232-260 | Over any number of rounds with changing members and failures, unless the spec was edited while a Success was stored, every stored Success and every member listed in a complete round has accepted that spec; in any case the stored state becomes Persisting or Success only after a complete round of the stored spec |
| `MemberAcceptance.RecordedIsSkipped` | internal/controller/hazelcast/data_structure_controller.go:240-253 | For every member list, a round can succeed with a recorded member listed, not asked, and refusing if it were |
| `MemberAcceptance.EditIsSafeExactlyIf` | internal/controller/hazelcast/data_structure_controller.go:240-260 | After an edit to a spec nobody accepted yet, every successful round reaches all listed members if and only if no Success is stored |
| `MemberAcceptance.EditedBetweenRounds` | internal/controller/hazelcast/map_controller.go:223-236 | For every list of two or more members: two rounds with an edit between them, the second succeeding although one member never accepts the edited spec |
| `MemberAcceptance.Reconciler.Reconcile` | internal/controller/hazelcast/queue_controller.go:41-83 | One reconcile with any failures keeps all of this; in a cooperative environment every version that is stored is determined by members, answers and refused calls: after a refused round Failed for a map and Pending for the other structures, with the statuses of the round; no member is asked when Pending cannot be stored first |
| `MemberAcceptance.AcceptedInTheEnd` | internal/controller/hazelcast/map_controller.go:128-166 | A structure refused by a listed member is left Failed, for a map, or Pending; when all members accept, the next reconcile makes it a Success that every listed member has accepted |
| `WanSyncQueue.WanSyncService.AddWanSyncRequests` | internal/hazelcast-client/wan_sync_service.go:58-60 | A list is stored exactly when none of its WanSync is queued |
| `WanSyncQueue.WanSyncService.ProcessRequest` | internal/hazelcast-client/wan_sync_service.go:78-119 | One Started event and one event that is not in progress, an error when the cluster could not be reached or the request was not accepted |
| `WanSyncQueue.WanSyncService.DoStartSyncJob` | internal/hazelcast-client/wan_sync_service.go:76-120 | The callback gets, per request and in order, one Started event and one event that is not in progress |
| `WanSyncQueue.WanSyncService.RunJob` | internal/hazelcast-client/wan_sync_service.go:62-74 | A job that gets the mutex finishes every list queued when it started, through its own callback, and leaves nothing queued that no later job will see |
| `WanSyncQueue.EachRequestOnce` | internal/hazelcast-client/wan_sync_service.go:76-120 | Every request of a finished list has exactly one Started event, directly followed by its only other event, which is not in progress |
| `WanSyncQueue.Run` | internal/hazelcast-client/wan_sync_service.go:58-74 | In every interleaving lists are processed one at a time and none twice; when all callers have started their job and all jobs returned, every add has had exactly one job, and every stored list was processed |
| `WanSyncQueue.ReachesOwnExactlyIf` | internal/controller/hazelcast/wansync_controller.go:147-175 | An event is written to the WanSync of its list if and only if the job that drained the list was started for that WanSync |
| `WanSyncQueue.ReportedToAnother` | internal/hazelcast-client/wan_sync_service.go:66-71 | A run in which all events of one WanSync are written to another |
| `McPolling.WaitMemberFinishEvent` | internal/hazelcast-client/wan_sync_service.go:156-195 | At most 100 polls after the start or the last poll with progress; an event returned matches and is not in progress; failure means four failed polls in a row, or 25 silent polls since the last progress |
| `McPolling.FilterWanSyncEvents` | internal/hazelcast-client/wan_sync_service.go:197-207 | Exactly the WAN sync events of the given id |
| `McPolling.SyncEventClasses` | internal/protocol/types/mc_event.go:103-130 | Which events are those of a synchronisation, and that every known event is exactly one of in progress, done and error |
| `McPolling.FinishEvent` | internal/hazelcast-client/wan_sync_service.go:146-153 | The event chosen is an error exactly when one arrived; with none arrived it is the empty event |
| `McPolling.WaitWanSyncToFinish` | internal/hazelcast-client/wan_sync_service.go:122-154 | For every order of arrival the combined event is an error exactly when some member's outcome is, is never in progress, and is one of a synchronisation exactly when a member was listed |
| `WanSyncStatus.NothingLost` | internal/controller/hazelcast/wansync_status.go:55-114 | For any interleaving of writers the stored table at every moment is that of all accepted changes in order |
| `WanSyncStatus.EventStays` | internal/controller/hazelcast/wansync_status.go:55-87 | The event of a map stays stored until that map's entry is written again |
| `WanSyncStatus.CompletedOnlyAfterDone` | internal/controller/hazelcast/wansync_status.go:55-87 | In every run a map's entry is Completed only after a done event of that map, with nothing written to the entry since |
| `WanSyncStatus.CompletedIsTrue` | internal/controller/hazelcast/wansync_status.go:70-84 | A stored status Completed implies a non-empty table with all entries Completed |
| `WanSyncStatus.StatusAfterEvent` | internal/controller/hazelcast/wansync_status.go:70-84 | After an event of a map the status is Pending while it is in progress, Failed with its reason when it is an error, and Completed if and only if all maps are |
| `WanSyncStatus.Aggregate` | internal/controller/hazelcast/wansync_status.go:74-83 | Completed when all entries are; otherwise phase and message of some entry that is not, for any order |
| `WanSyncStatus.EventDecidesPhase` | internal/controller/hazelcast/wansync_controller.go:151-180 | Exactly the events of a synchronisation are written, as Pending exactly while in progress, as Failed exactly for an error, with its reason, and as Completed exactly when done |
| `WanSyncStatus.CloseMap` | internal/hazelcast-client/wan_sync_service.go:122-154 | Waiting for a map closes it if and only if a member was listed, as Failed exactly when some member's outcome is an error and as Completed otherwise |
| `WanSyncStatus.WanSyncCell.UpdateWanSyncMapStatus` | internal/controller/hazelcast/wansync_status.go:55-87 | Success means that exactly this change was applied to the status stored right before it |
| `WanSyncStatus.WanSyncCell.StateEventUpdate` | internal/controller/hazelcast/wansync_controller.go:147-180 | Events that are not of a synchronisation change nothing; in a cooperative environment every other one is stored, under the key of its cluster and map |
| `WanSyncStatus.WanSyncCell.UpdateWanSyncStatus` | internal/controller/hazelcast/wansync_status.go:89-110 | Success means that the reconciler's change was applied to the status stored right before it |
| `HotBackupStart.Run` | internal/controller/hazelcast/hot_backup_controller.go:86-152 | Over all sequences of reconciles, failed writes, deletions, re-creations and restarts with any cache, no incarnation has its backup started twice as long as every restart was safe |
| `HotBackupStart.HotBackupReconciler.Restart` | internal/controller/hazelcast/hot_backup_controller.go:41-52 | A restart from any version is safe exactly when, if a backup was started for the resource that is there, every version from there on stops a reconcile |
| `HotBackupStart.UnsafeRestartStartsAgain` | internal/controller/hazelcast/hot_backup_controller.go:86-152 | After every restart that is not safe one reconcile starts the same incarnation again |
| `HotBackupStart.StartedTwice` | internal/controller/hazelcast/hot_backup_controller.go:98-152 | The whole run from creation in which one incarnation is started twice |
| `HotBackupStart.StartedAfterWaiting` | internal/controller/hazelcast/hot_backup_controller.go:111-152 | A backup that found its cluster not running is started by the next reconcile once it runs |
| `HotBackupStart.HotBackupReconciler.Reconcile` | internal/controller/hazelcast/hot_backup_controller.go:54-153 | A reconcile starts at most one backup, takes the lock when it does, only after the specification was annotated, and, after safe restarts, never for an incarnation started before. In a cooperative environment a version that does not stop it has its backup started, with every version stored on the way given; a cluster that is not running leads to Pending; a deleted resource loses lock and finalizer, unless a Hazelcast restores from it, which leads to Failure |
| `HotBackupStart.HotBackupReconciler.CheckCluster` | internal/controller/hazelcast/hot_backup_controller.go:111-129 | Ready exactly when the cluster runs and has persistence; otherwise Pending when it does not run and Failure when it has no persistence |
| `HotBackupStart.HotBackupReconciler.UpdateStatus` | internal/controller/hazelcast/hot_backup_status.go:46-66 | Success means that the latest version has the state, stored on the version read through the cache |
| `HotBackupStart.HotBackupReconciler.ExecuteFinalizer` | internal/controller/hazelcast/hot_backup_controller.go:167-191 | The lock is gone when it succeeds with the finalizer present, and untouched without; then, after safe restarts, every version the cache can still show of a started resource stops a reconcile |
| `HotBackupFinish.Start` | internal/backup/backup.go:54-68 | Every trigger comes after a successful change to passive; once that succeeded the last call is a change to active, whatever the trigger did, and it fails only when eight did; it succeeds exactly when a trigger did |
| `HotBackupFinish.Wait` | internal/backup/backup.go:107-142 | No error exactly when the observed trace ends in SUCCESS with only IN_PROGRESS and at most 11 NO_TASK answers before it and no cancellation |
| `HotBackupFinish.WaitForMembers` | internal/controller/hazelcast/hot_backup_controller.go:254-276 | The group succeeds exactly when every member's trace does; otherwise the backup is interrupted exactly once |
| `HotBackupFinish.CollectBackups` | internal/controller/hazelcast/hot_backup_controller.go:278-360 | For any order of finishing, every slot holds the backup of the member at its position |
| `HotBackupFinish.FinishBackup` | internal/controller/hazelcast/hot_backup_controller.go:249-398 | Success is the result exactly when every member's trace ended in SUCCESS and every backup was collected, and then the list has one slot per member with that member's backup |
| `ConfigMerge.DeepMerge` | internal/controller/hazelcast/hazelcast_resources.go:1271-1290 | It terminates and, for any order of keys, computes the recursive merge |
| `ConfigMerge.MergeAtPath` | internal/controller/hazelcast/hazelcast_resources.go:1271-1290 | What the result has at any path: nothing below a source value that is not a map, the only side that has something, or the merge of both |
| `ConfigMerge.ScalarsOfMerge` | internal/controller/hazelcast/hazelcast_resources.go:1271-1290 | The values other than maps are exactly those of the source, and those of the destination where the source has nothing at the path and no such value above it |
| `ConfigMerge.LeafAboveMeans` | internal/controller/hazelcast/hazelcast_resources.go:1280-1288 | "A value above" is one at a proper prefix of the path |
| `ConfigMerge.MergeIdempotent` | internal/controller/hazelcast/hazelcast_resources.go:1271-1290 | Merging the same source again changes nothing |
| `ConfigMerge.MergeConfig` | internal/controller/hazelcast/hazelcast_resources.go:1248-1269 | Without overwrite every generated section appears as it is and a custom one only if none of its name is generated; with overwrite the custom configuration is merged into the generated one |
| `ConfigMerge.MergeProperties` | internal/controller/hazelcast/hazelcast_resources.go:1229-1246 | Default properties keep their values, all other properties are the user's |
| `WanPorts.ValidateWANPorts` | api/v1alpha1/hazelcast_validation.go:256-297 | For any order of ties it accepts exactly when neighbouring sorted ranges do not overlap and no range contains a reserved port |
| `WanPorts.HazelcastContainerPorts` | internal/controller/hazelcast/hazelcast_resources.go:3122-3140 | The nested loops generate the ports of all entries, or the default WAN port when there is none |
| `WanPorts.PortsCount` | internal/controller/hazelcast/hazelcast_resources.go:2508-2530 | A port is generated as often as ranges contain it |
| `WanPorts.HugeCountOpensNothing` | internal/controller/hazelcast/hazelcast_resources.go:2508-2530 | An entry opens no port if and only if its count is zero or beyond the signed range |
| `WanPorts.AcceptedPortsAreDistinct` | api/v1alpha1/hazelcast_validation.go:261-297 | With ports of at most 32 bits, accepted specifications yield pairwise distinct container ports |
| `WanPorts.ValidationIsExact` | api/v1alpha1/hazelcast_validation.go:261-297 | In every order of ties the validation accepts exactly the specifications with distinct container ports, if and only if distinct ports come without an entry without ports inside another range |
| `WanPorts.StrayIsRejected` | api/v1alpha1/hazelcast_validation.go:275-285 | An entry without ports that starts within another range is rejected in some order of ties |
| `WanPorts.StrayInsideIsAlwaysRejected` | api/v1alpha1/hazelcast_validation.go:275-285 | In every order when it does not start where the other range does |
| `WanPorts.EmptyEntryTies` | api/v1alpha1/hazelcast_validation.go:275-285 | With an entry without ports at the start of another, two orders of ties give different verdicts although all ports are distinct |
| `WanPorts.TruncatedPort` | internal/controller/hazelcast/hazelcast_resources.go:2522-2522 | An accepted port beyond 32 bits is generated as a reserved one |
| `WanPorts.WrappedRange` | api/v1alpha1/hazelcast_validation.go:268-273 | As an input of the validator alone, the same wrapping range twice is accepted |
| `WanPorts.ReceivableSumsDoNotWrap` | api/v1alpha1/hazelcast_validation.go:268-273 | Values that fit a signed 64-bit integer do not wrap |
| `PodServices.HazelcastReconciler.ReconcileServicePerPod` | internal/controller/hazelcast/hazelcast_resources.go:485-534 | Only needed services are created, and all of them when it succeeds |
| `PodServices.HazelcastReconciler.ReconcileUnusedServicePerPod` | internal/controller/hazelcast/hazelcast_resources.go:705-749 | On success exactly the services beyond the needed ones and below the annotated number are gone |
| `PodServices.HazelcastReconciler.ReconcileStatefulset` | internal/controller/hazelcast/hazelcast_resources.go:3079-3100 | On success the annotation is the cluster size when Smart, whatever the user annotates |
| `PodServices.HazelcastReconciler.Reconcile` | internal/controller/hazelcast/hazelcast_resources.go:705-749 | A complete reconcile leaves exactly the needed services if and only if before it every service beyond them was below the annotated number; a service that was not stays overlooked if and only if the user does not annotate a larger number |
| `PodServices.Run` | internal/controller/hazelcast/hazelcast_resources.go:485-534 | When specifications change only between complete reconciles, each complete one leaves exactly the needed services |
| `PodServices.ChangedTooEarly` | internal/controller/hazelcast/hazelcast_resources.go:714-721 | For every two sizes: a specification changed after a reconcile cut short is followed by a complete reconcile that leaves services over |
| `PodServices.StaysOverlooked` | internal/controller/hazelcast/hazelcast_resources.go:722-746 | They stay through any number of reconciles of specifications that do not need them |
| `CronSchedule.CronHotBackupReconciler.UpdateSchedule` | internal/controller/hazelcast/cronhotbackup_controller.go:193-219 | The resource runs its new schedule, none when suspended, the old one when the schedule is refused; others are not affected |
| `CronSchedule.CronHotBackupReconciler.RemoveSchedule` | internal/controller/hazelcast/cronhotbackup_controller.go:145-150 | The resource runs nothing any more, others are not affected |
| `CronSchedule.Run` | internal/controller/hazelcast/cronhotbackup_controller.go:145-219 | After every sequence of steps the live entries are exactly the registered ones, one per resource, and every resource runs what its own steps say |
| `BackupHistory.DeleteHotBackupHistory` | internal/controller/hazelcast/cronhotbackup_controller.go:309-321 | As many as exceed the limit are selected, none newer than one that is kept, for any order of ties |
| `BackupHistory.CleanupResources` | internal/controller/hazelcast/cronhotbackup_controller.go:255-297 | That holds of the failed and of the unreferenced successful backups; never an unfinished one nor one that some Hazelcast restores from |
| `BackupHistory.FindRestoreResourceName` | internal/controller/hazelcast/cronhotbackup_controller.go:299-306 | Found exactly when some Hazelcast restores from the name |

## Left out

- Removals of the WAN finalizer by other WanReplications of the same map or by hand: the rule about releases is about the removals of one reconciler.
- Several WanReplications on one map are covered in the configuration handshake, not in the run of a single reconciler.
- Messages of statuses, except in the WanSync status and for failed entries.
- WanLifecycle.WanReplicationReconciler.CheckWanEndpoint: the new endpoints are arbitrary; the parsing of endpoints is not modelled.
- Dialling the target cluster in checkConnectivity is a step that succeeds or fails.
- Who triggers a reconcile (watches, owner references as triggers, requeue delays): reconciles may happen at any time.
- Leader election and two operator processes at once.
- JetChecker.JetJobStatusChecker.LoadJob: the update of the JetJob resource that follows is not modelled; a deletion it makes is a separate step.
- MapRetention.MapReconciler.Reconcile: the checks of the cluster's state and of persistence, native memory and tiered store are one arbitrary answer; the pushing to members is modelled in MemberAcceptance.
- Restoring the last successful spec of data structures other than maps: it is unmarshalled on top of the current spec, so fields missing in it keep their edited values.
- Aliasing in deepMerge and mergeConfig: the model merges values, so that the result shares sub-maps with the custom configuration is not captured.
- WanPorts.HazelcastContainerPorts: port names and protocols.
- The contents of services and StatefulSets beyond the service count.
- Wall-clock time, tickers and backoff durations beyond attempt counts and order.
- Client protocol codecs, REST, mTLS, dialer, agent and upload clients, platform detection, phone home, Management Center, RBAC, TLS and checksums: plumbing or library calls.
