# SPDK-CSI: verified protocols

A Dafny model of the SPDK CSI driver's protocols: how a logical volume is created, published, staged,
unstaged, unpublished and deleted through RPCs that may fail, by calls that are repeated and run
concurrently. The RPCs themselves are plumbing; the sequencing, rollback, locking and allocation around
them are what is modelled and proved.

## How the model works

* A handler is a small-step program: a datatype of program points and a step function, one step for an RPC
  (or one operation on the host). `Finish`-style functions run it to its end, imperative methods of classes
  are proved to compute exactly that, and the interleaving machines take the steps of many threads in any
  order.
* What fails is decided by an oracle: a function from program points to "answered". An RPC that is not
  answered has no effect and is reported as an error. An answered one can still be refused by the target,
  which creates no subsystem, group or resource twice and accepts no reference to nothing. On the host, a
  connect or disconnect may also be reported as failed and have happened.
* `bdev_get_bdevs` is always answered, with the bdev or "No such device": `getVolume` of
  pkg/util/jsonrpc.go:224-237 handles nothing else and would index an empty result.
* Map iteration, the lvstore the scheduler finds, new UUIDs, free space and the moment at which a device
  appears in sysfs are arbitrary choices.

| file | part of the driver |
|---|---|
| SpdkTarget, NodeNvmf | publish, unpublish and delete on one NVMe-oF storage node |
| NodeIscsi, SharedSetup | the same over iSCSI; groups and transports that concurrent publishes share |
| Exports | what the two kinds of storage node have in common |
| Lifecycle, UniqueVolumes, FaultFree, SameVolume, Conservation, Progress | any number of CreateVolume and DeleteVolume calls over nodes of both kinds, interleaved RPC by RPC |
| ControllerServer, Scheduling, Ids | the controller's calls one at a time, the scheduler and its arithmetic, volume IDs |
| VolumeLocks | the locks per volume, and `phyIDLock` inside them |
| PciFunctions, PhyIdRuns | the PCI function allocator on KVM, and the connects that race for it |
| Saga, OpiInitiator, XpuContext, XpuInitiator | the OPI initiators, their stash and driver restarts |
| SmaInitiator, XpuSma | the SMA initiators, and their restarts over NVMe/TCP and NVMe |
| NodeStaging, StagingRuns | the node server, one call at a time and interleaved |
| Text | splitting, joining and printing of strings |

## What the code does not do

Some properties one might expect do not hold of the code. For each there is a lemma that shows where it
fails, or states exactly when it holds.

* Names are unique in all runs exactly when the lvstore queries of CreateVolume's search are answered, or
  there is one lvstore in all (`UniqueVolumes.UniqueExactlyWithCompleteScans`); otherwise one unanswered query
  makes a second lvol of the same name (`UniqueVolumes.FailedScanDuplicates`).
* A publish that could not be rolled back leaves a subsystem without a listener, and from then on the volume
  can never be published (`SpdkTarget.StaleSubsystemBlocksPublish`); deleting the volume leaves the
  subsystem behind (`SpdkTarget.DeleteLeavesStaleSubsystem`).
* A deletion that fails halfway takes the namespace and leaves the listener; CreateVolume then reports success
  for a volume that no host can reach (`SpdkTarget.HalfDeletedIsReportedPublished`).
* A repeated CreateVolume deletes the existing, exported volume when one query goes unanswered
  (`SpdkTarget.RepeatedCreateDestroysVolume`).
* A volume ID or a source snapshot's ID whose node is not configured is dereferenced all the same
  (`Controller.ControllerServer.DeleteVolume` and `CreateVolume`, outcome `Panic`), and a volume created on a node with a colon in its name can be neither published nor
  deleted by its ID (`Ids.FormattedVolume`, `Controller.ControllerServer.PublishOrDelete`).
* Two connected volumes can hold one PCI function when a failed connect leaves its endpoint behind: over NVMe
  because a volume finds its old device again, over virtio-blk because a device is taken for another volume's.
  They never do exactly when nothing is left behind or there is no room for it
  (`PhyIdRuns.DistinctExactlyWithoutLeaks`). This assumes that the backend makes an endpoint on whatever
  function it is asked for, also on one that already has an endpoint of another volume: the driver does not
  say that it does, and `OpiInitiator`'s bridge keeps no function numbers that could decide it.
* An unstage that fails after its unmount succeeds when repeated, with the device still connected
  (`NodeStaging.UnstageRetryLeaks`); a stage whose stash fails succeeds when repeated, with the device gone
  (`NodeStaging.FailedStashIsHidden`).
* xPU Disconnect drops the stash even when it fails. An initiator built afterwards has forgotten everything: it
  refuses to disconnect (`XpuInitiator.DisconnectRestartDisconnect`), and its next Connect, if it fails in turn,
  can delete what a forgotten resource refers to (`Saga.LostNamesDangle`; exactly when: `Saga.ConnectIsSafe`).
* A Connect that finds its device present, on an initiator without a stash, stashes function 0, no device path
  and no names, and so no Disconnect ever takes the device down (`XpuInitiator.FoundWithoutStash`).
* SMA: connecting an object twice, or again after a disconnect, can orphan an attachment
  (`SmaInitiator.DisorderOrphans`). After a rollback that failed, Disconnect detaches what was never attached
  before it deletes: the device stays exactly until the agent has answered a detach and, in the same or a
  later call, a delete (`SmaInitiator.RefusedDetachStrandsDevice`, which rests on
  `SmaInitiator.RetriesRemoveDevice`).
* SMA over NVMe/TCP: a Disconnect by an initiator without a stash, which may have been dropped by a Disconnect
  that failed, reports success and leaves the device (`XpuSma.ReportedSuccess`); from then on nothing removes
  it (`XpuSma.RepeatedUnstage`).
* The comment above the SMA NVMe/TCP Disconnect (pkg/util/smainitiator.go:233-236) says that it goes on after
  a failed `nvme disconnect` or a failed detach. The code stops at either (pkg/util/xpuinitiator.go:388-390,
  pkg/util/smainitiator.go:243-250), and the model follows the code.
* The comment above `opiInitiatorNvme.Disconnect` (pkg/util/opiinitiator.go:410-413) gives another order of
  deletions than the code; the model follows the code.
* CreateVolume answers with the capacity that was requested. Only a new volume without a source has it: one
  that is found keeps its size, and a clone has that of its snapshot, whatever was requested
  (`Controller.ControllerServer.CreateVolume`).
* Rounding a volume size up overflows within a mebibyte of the largest 64-bit integer
  (`Scheduling.CapacityCoversRequest`).

## Model

Rows name the members that state a property; the wrappers around single RPCs are in the modules beside them.

| member | source | states |
|---|---|---|
| SpdkTarget.NqnIsInjective | pkg/util/nvmf.go:260-266 | two volumes never share a subsystem |
| SpdkTarget.NqnEndsInId | pkg/util/nvmf.go:260-266 | the name is an NQN and ends in the volume's UUID |
| SpdkTarget.PublishOutcome | pkg/util/nvmf.go:155-229 | under any failures publishing is all or nothing: success means an existing volume that the node listens for, and, if it had no subsystem, its transport and a subsystem with exactly this namespace and listener; an existing subsystem is left alone; failure adds no listener, and with the rolling-back delete answered no subsystem; no lvol and no other volume's export is touched |
| SpdkTarget.PublishExactly | pkg/util/nvmf.go:155-196 | exactly when publishing succeeds and exactly what it leaves of transport and subsystem, for every combination of answers, rollbacks included |
| SpdkTarget.PublishedNamespace | pkg/util/nvmf.go:163-169 | after a success there is a namespace exactly if there was no subsystem before, or one with the namespace |
| SpdkTarget.HalfDeletedIsReportedPublished | pkg/util/nvmf.go:247-255 | a deletion in which only the subsystem's goes unanswered leaves an exported volume unreachable, and CreateVolume then reports success and repairs nothing |
| SpdkTarget.UndoOutcome | pkg/util/nvmf.go:181-192 | a rollback removes the subsystem exactly when its own delete is answered, whatever happened to the namespace |
| SpdkTarget.FillOutcome | pkg/util/nvmf.go:181-196 | filling a fresh subsystem succeeds exactly when both RPCs are answered, and otherwise leaves no listener |
| SpdkTarget.PublishWithoutFaults | pkg/util/nvmf.go:155-196 | with every RPC answered publishing succeeds exactly for an existing volume that is listened for already or has no subsystem |
| SpdkTarget.StaleSubsystemBlocksPublish | pkg/util/nvmf.go:163-179 | a subsystem without the node's listener blocks every later publish, under any answers, and is never repaired |
| SpdkTarget.UnpublishOutcome | pkg/util/nvmf.go:231-258 | a deleted volume is reported exactly when there is none; success means nothing listens; an answered subsystem delete clears everything whatever the namespace removal did; failure keeps the listeners |
| SpdkTarget.UnpublishExactly | pkg/util/nvmf.go:231-258 | exactly what it reports and leaves for every combination of answers |
| SpdkTarget.DeleteOutcome | pkg/spdk/controllerserver.go:78-108 | on an NVMe-oF node DeleteVolume succeeds exactly when there is no lvol, or the listener query, the subsystem delete that a listener calls for, and the lvol delete are answered; that is exactly when the lvol is gone afterwards; it deletes it only when nothing listens for it, and touches no other volume |
| SpdkTarget.DeleteIsIdempotent | pkg/spdk/controllerserver.go:82-108 | after one success every repetition succeeds and changes nothing, whatever is answered |
| SpdkTarget.DeleteLeavesStaleSubsystem | pkg/util/nvmf.go:239-246 | a deleted volume leaves its subsystem exactly when that had no listener of the node |
| SpdkTarget.RepeatedCreateDestroysVolume | pkg/spdk/controllerserver.go:60-64 | a repeated CreateVolume on a listened-for volume succeeds exactly when the listener query and the volume info are answered, and otherwise deletes the lvol exactly when the delete is answered |
| SpdkTarget.FailedCreateRollsBack | pkg/spdk/controllerserver.go:60-64 | with the undoing RPCs answered a failed CreateVolume leaves neither its lvol nor a subsystem, and a successful one exactly its export |
| SpdkTarget.CreateExactly | pkg/spdk/controllerserver.go:60-64 | from its volume on CreateVolume succeeds exactly when the volume exists, listener query and volume info are answered, and it is listened for or every RPC that exports it is answered; a failure deletes the lvol exactly when the delete is answered |
| SpdkTarget.HistoryOutcome | pkg/spdk/controllerserver.go:49-108 | over every history of serialised create and delete calls about one volume and all answers: no other volume changes, no deleted lvol returns, and deletions alone never leave a listener of a volume that had one without its lvol |
| Exports.PublishVolumeOutcome | pkg/util/nvmf.go:155-196 | on either kind of node and under any failures: success means an existing volume that the node serves, reachable if it had no export before; an existing export is left alone; failure changes nothing about being served; no lvol and no other volume's export is touched |
| Exports.PublishVolumeSucceeds | pkg/util/nvmf.go:155-196 | publishing succeeds exactly for an existing volume if the query is answered, and it is published already or the answers let it be exported |
| Exports.NvmfCalls | pkg/spdk/controllerserver.go:60-108 | on an NVMe-oF node the calls shared by both kinds of node are those specified in `SpdkTarget` |
| Exports.DeleteOnOutcome | pkg/spdk/controllerserver.go:78-108 | on either kind of node and under any failures DeleteVolume succeeds exactly when there is no lvol, or the query, the deletion of what exports it and the lvol delete are answered; that is exactly when the lvol is gone afterwards; it deletes it only when no listener and no target node serves it any more, and touches no other volume |
| Exports.DeleteOnIsIdempotent | pkg/spdk/controllerserver.go:82-108 | on either kind of node, after one success every repetition succeeds and changes nothing, whatever is answered |
| Exports.PublishOrDeleteOnOutcome | pkg/spdk/controllerserver.go:60-64 | on either kind of node: exactly when the rest of CreateVolume succeeds; a failure leaves no lvol if the delete is answered, and changes none otherwise; a success leaves a served volume |
| NodeNvmf.Node.IsVolumePublished | pkg/util/nvmf.go:198-229 | the scan finds the listener with the node's type, address, port and family exactly when there is one; a missing subsystem counts as not published |
| NodeNvmf.Node.PublishVolume | pkg/util/nvmf.go:155-196 | computes exactly the small-step publish, for the answers that reach it |
| NodeNvmf.Node.UnpublishVolume | pkg/util/nvmf.go:231-258 | computes exactly the small-step unpublish |
| NodeIscsi.EnsuredOutcome | pkg/util/iscsi.go:211-237 | get-create-get succeeds exactly when a group that is there is seen by one of the two queries, or a missing one can be created; it makes at most one group and touches no other tag |
| NodeIscsi.PublishOutcome | pkg/util/iscsi.go:157-190 | publishing adds the target node or leaves the target nodes alone, adds at most the missing groups, and with everything answered succeeds exactly for an existing volume |
| NodeIscsi.PublishExactly | pkg/util/iscsi.go:157-190 | exactly when publishing succeeds and exactly which groups and target nodes there are afterwards, for every combination of answers |
| NodeIscsi.UnpublishOutcome | pkg/util/iscsi.go:239-263 | a deleted volume is reported exactly when there is none; success, exactly with the query and any delete answered, means no target node; failure changes nothing |
| NodeIscsi.PublishThenUnpublish | pkg/util/iscsi.go:157-263 | unpublishing restores the target nodes; publishing again and unpublishing again change nothing |
| NodeIscsi.Node.GetGroups | pkg/util/iscsi.go:368-399 | the scan finds tag 1 exactly when it is reported |
| NodeIscsi.Node.PublishVolume | pkg/util/iscsi.go:157-190 | computes exactly the small-step publish |
| NodeIscsi.Node.UnpublishVolume | pkg/util/iscsi.go:239-263 | computes exactly the small-step unpublish |
| SharedSetup.GroupsAreMadeOnce | pkg/util/iscsi.go:157-237 | in every interleaving of publishes no group is made twice and no other tag changes; without faults nobody whose volume exists fails; whoever reaches the target node found exactly one group of each kind |
| SharedSetup.TransportIsThere | pkg/util/nvmf.go:379-403 | in every interleaving of createTransport calls the flag implies the transport, success implies it, and nobody fails unless an RPC goes unanswered |
| SharedSetup.NoSecondCall | pkg/util/nvmf.go:379-403 | once a handle's flag is set, whoever has not begun returns with success and without an RPC |
| SharedSetup.CallsReturn | pkg/util/nvmf.go:379-403 | no createTransport call waits for another, and each ends within three steps, with success if it is answered |
| SharedSetup.PublishesReturn | pkg/util/iscsi.go:157-190 | no publish waits for another, and each step brings it nearer to its end |
| UniqueVolumes.UniqueExactlyWithCompleteScans | pkg/spdk/controllerserver.go:49-76 | in all runs of any number of calls, under all other faults and deletions, each name is carried by at most one lvol across all nodes and lvstores, exactly when the scan's lvstore queries do not fail or there is only one lvstore in all |
| UniqueVolumes.NamesStayUnique | pkg/spdk/controllerserver.go:263-282 | the first half of that, with the invariant: what each thread's scan has ruled out stays ruled out |
| UniqueVolumes.LocalKeepsKnowledge | pkg/spdk/controllerserver.go:263-282 | the scan has ruled out every lvstore it has visited, in any order |
| UniqueVolumes.FailedScanDuplicates | pkg/spdk/controllerserver.go:270-273 | for every configuration with two lvstores, a run in which one unanswered query makes a duplicate |
| FaultFree.StepsTouchOneVolume | pkg/spdk/controllerserver.go:49-108 | whatever is answered, a step of a call changes at most the lvol and export of its own volume |
| FaultFree.OtherVolumesAreKept | pkg/util/nvmf.go:260-266 | so every other volume's lvol, subsystem and target node stay as they are |
| FaultFree.NoCreateGivesUp | pkg/spdk/controllerserver.go:60-64 | without faults and from orderly nodes no CreateVolume that has its volume ever undoes it |
| SameVolume.SameNameSameVolume | pkg/spdk/controllerserver.go:49-76 | in every fault-free interleaving of creates all successful calls for a name return the same volume ID, of an existing volume of that name that is listened for; it can be reached, unless it was listened for from the start, and then its export is as it was |
| SameVolume.CreatedIsReachable | pkg/spdk/controllerserver.go:49-76 | so from nodes that serve what they listen for, every volume returned can be reached by a host |
| SameVolume.OthersKeepHolding | pkg/spdk/controllerserver.go:49-76 | a creating call never disturbs one that has answered |
| Conservation.NothingIsLeftBehind | pkg/spdk/controllerserver.go:49-108 | once all of any number of interleaved create-then-delete calls with names of their own have finished, over NVMe-oF and iSCSI nodes, every lvol, subsystem and target node that is not of a volume kept on purpose is there exactly if it was at the start, with the same contents, and kept volumes are served |
| Conservation.PairsRestoreTheNodes | pkg/spdk/controllerserver_test.go:108-149 | if all delete what they create, every node ends with exactly the lvols, subsystems and target nodes it began with |
| Conservation.GroupsAtMostOneNew | pkg/util/iscsi.go:211-237 | in every run of any kind at most one portal group and one initiator group is new on a node |
| Conservation.NothingIsFound | pkg/spdk/controllerserver.go:263-282 | no call finds another's volume |
| Progress.LocalUsesUpWork | pkg/spdk/controllerserver.go:49-108 | every step of a handler, whatever is answered, brings it nearer to its end |
| Progress.RunsAreBounded | pkg/spdk/controllerserver.go:49-108 | every run of any number of calls, under all failures, is no longer than the work it begins with |
| Progress.OneInside | pkg/spdk/controllerserver.go:49-81 | in every run at most one thread is inside CreateVolume for a name and one inside DeleteVolume for an ID |
| Progress.CanStep | pkg/spdk/controllerserver.go:49-108 | a thread that has not ended and waits for no lock can take its next step, whichever way its RPC is answered |
| Progress.NobodyIsStuck | pkg/spdk/controllerserver.go:49-108 | in every state of every run some thread can go on until all have answered |
| Progress.RunsCanFinish | pkg/spdk/controllerserver.go:49-108 | every run, whatever went wrong in it, can be continued without failures until every call has answered |
| Progress.AllGetTheirVolumes | pkg/spdk/controllerserver.go:49-76 | from orderly nodes with an lvstore, fault-free creates all end with their volume, and there is a run in which they have |
| Progress.AllPairsFinish | pkg/spdk/controllerserver.go:49-108 | create-then-delete pairs with names of their own all end as called for, created or deleted, and there is a run in which they have |
| Progress.StepKeepsFate | pkg/spdk/controllerserver.go:49-108 | each step of an undisturbed thread that has its volume leads towards one and the same result |
| Progress.FateIsSequential | pkg/spdk/controllerserver.go:49-108 | which is that of the sequential CreateVolume and DeleteVolume, under all answers |
| Progress.LookupThenAllocate | pkg/util/nvmf.go:78-92 | lookup and allocation, undisturbed, give the volume that is there, or a new one exactly if the RPC goes through; then it is on the lvstore scheduled |
| Controller.ControllerServer.GetVolume | pkg/spdk/controllerserver.go:263-282 | a volume found has the name and is on a reported lvstore; not found, with every node listing its lvstores, means that no reported lvstore holds one |
| Controller.ControllerServer.FindOrCreate | pkg/spdk/controllerserver.go:201-261 | if every node lists its lvstores, a volume that is there is found and answered as it is; one that is not there and has no source is created exactly if some answering node has room for the requested size and the allocation goes through, on an lvstore with more than its capacity free and with exactly the capacity answered; no export changes; it panics only for a snapshot of an unknown node |
| Controller.ControllerServer.CloneFrom | pkg/spdk/controllerserver.go:221-238 | clones exactly if the snapshot is found and the clone goes through, or the lvstore has the volume already; on the snapshot's own node and lvstore and with its size; it panics exactly for a snapshot whose node is not configured |
| Controller.ControllerServer.PublishOrDelete | pkg/spdk/controllerserver.go:300-332 | publishes by ID and undoes by ID; an ID that does not parse back undoes nothing |
| Controller.ControllerServer.CreateVolume | pkg/spdk/controllerserver.go:49-76 | over nodes of both kinds, with or without a snapshot to clone: exactly when there comes to be a volume and exactly when it is then answered, by the answers and the ID; it is a served volume of the name whose ID leads back to it, reachable if it had no export; a new one is where there was room and has the capacity answered; at most one volume of one node changes; after a failure that one is gone, if the delete is answered |
| Controller.ControllerServer.DeleteVolume | pkg/spdk/controllerserver.go:78-108 | for an ID that parses and names a node exactly the specified deletion on that node, of whichever kind; a malformed ID fails; an unknown node panics |
| Scheduling.CapacityCoversRequest | pkg/spdk/controllerserver.go:201-211 | capacity lies in [request, request + 1 MiB) exactly when rounding up does not overflow 64 bits; a request of 0 gets 1073741824 bytes |
| Scheduling.MoreMiBMeansMoreBytes | pkg/util/jsonrpc.go:171-178 | rounding the request up and free space down fit together: more free mebibytes means strictly more free bytes than requested |
| Scheduling.RoomInBytes | pkg/spdk/controllerserver.go:376-399 | the scheduler sees room exactly if an lvstore of an answering node has a mebibyte more than the capacity free |
| Scheduling.LvStores | pkg/util/jsonrpc.go:157-181 | the loop fills in every report's sizes |
| Scheduling.Schedule | pkg/spdk/controllerserver.go:376-399 | returns the first fitting lvstore of an answering node, in any node order, and fails exactly when no answering node has an lvstore with more free mebibytes than asked for |
| Scheduling.ScheduleVolume | pkg/spdk/controllerserver.go:240-245 | a scheduled lvstore has strictly more free bytes than requested; a refusal means that every answering lvstore had less than the capacity and a mebibyte |
| Ids.ParsedVolume | pkg/spdk/controllerserver.go:284-298 | parsing succeeds exactly on strings with one colon, the node's name comes before it and the lvol's ID after, and formatting gives the string back |
| Ids.FormattedVolume | pkg/spdk/controllerserver.go:253-256 | a formatted ID begins with the node's name and ends in the lvol's ID, and parses to them exactly when neither has a colon |
| Ids.ParsedTargetType | pkg/util/xpuinitiator.go:427-434 | exactly xpu-b-t with no dash in b and t parses, and to b and t |
| VolumeLocks.MutualExclusion | pkg/util/idlocker.go:34-39 | whatever interleaving of lookup, store, acquire and release: one thread per volume in a handler, one holder of phyIDLock |
| VolumeLocks.PassesThrough | pkg/util/idlocker.go:34-39 | nobody leaves a handler without having been inside with its volume's mutex and, if it connects a device, without having held phyIDLock |
| VolumeLocks.MutexNeverChanges | pkg/util/idlocker.go:34-36 | a volume's mutex is its mutex for good |
| VolumeLocks.NoDeadlock | pkg/util/xpuinitiator.go:283-284 | no reachable state is stuck while a thread has not finished |
| VolumeLocks.EveryThreadFinishes | pkg/util/idlocker.go:34-39 | every run ends within five steps a thread, with every lock free |
| PciFunctions.GetAvailableFunctionsKvm | pkg/util/util.go:275-304 | the least free function, with its device's address; that address means, as sysfs writes it, bus function/32+1 and slot function mod 32, the first on which no device is; ErrNotExist exactly when every slot is occupied |
| PciFunctions.OneFunctionPerDevice | pkg/util/util.go:297-298 | an address determines the function ID: bridge and slot come back by division by 32 |
| PciFunctions.SlotAddress | pkg/util/util.go:297-298 | a slot's address, read by the value of its lower-case hexadecimal digits, means domain 0, that bus, that slot and function 0 |
| PciFunctions.OccupiedByAddress | pkg/util/util.go:289-294 | a device occupies the slot that its address means, and no other |
| PciFunctions.LeastFreeByAddress | pkg/util/util.go:285-302 | so the function allocated is the first whose slot no device's address means |
| PhyIdRuns.DistinctExactlyWithoutLeaks | pkg/util/xpuinitiator.go:270-360 | in all runs of concurrent connects, failures and disconnects no two connected volumes, whether connected anew or through a device found, hold one function, exactly when no failed connect leaves its endpoint behind or too few functions are usable for that: none for NVMe, at most one for virtio-blk |
| PhyIdRuns.LeaksAloneDoHarm | pkg/util/xpuinitiator.go:270-360 | so without other hardware exactly when there are no leaks or no bridges |
| PhyIdRuns.FunctionsStayDistinct | pkg/util/xpuinitiator.go:280-318 | the half without leaks, for every configuration |
| PhyIdRuns.NvmeStaysNewlyDistinct | pkg/util/xpuinitiator.go:280-318 | NVMe volumes that waited for their own device keep distinct functions even with leaks |
| PhyIdRuns.LeakedNvmeIsShared | pkg/util/xpuinitiator.go:271-275 | with leaks and any usable function, a run in which a volume that finds its old device shares the function |
| PhyIdRuns.LeakedVirtioIsShared | pkg/util/xpuinitiator.go:347-355 | with leaks and any two usable functions, a run in which virtio-blk volumes share one |
| PhyIdRuns.LockIsReleased | pkg/util/xpuinitiator.go:283-284 | in every state of every run the holder of phyIDLock can give it up in one step, adding no endpoint |
| PhyIdRuns.FailuresHappen | pkg/util/xpuinitiator.go:287-317 | what the runs allow to go wrong: a backend connect that fails with or without a leak, a device that never shows, a disconnect that keeps its endpoint |
| PhyIdRuns.FoundWasItsOwn | pkg/util/xpuinitiator.go:271-275 | a volume counts as connected without a connect only where its own device was to be seen |
| PhyIdRuns.ConnectsAndDisconnects | pkg/util/xpuinitiator.go:270-410 | without failures a volume is connected on the first usable function, and disconnecting leads back to where it began |
| Saga.NeverDangling | pkg/util/opiinitiator.go:374-433 | in every sequence of connects and disconnects under any failures, by one initiator or by several rebuilt from what was stashed as long as nothing forgotten refers to anything: no reference dangles after any call or any single RPC of the next; without rebuilding, the names say exactly what exists |
| Saga.ConnectIsSafe | pkg/util/opiinitiator.go:374-433 | whatever an initiator remembers and whatever exists, Connect keeps references whole under all answers exactly when nothing forgotten refers to anything |
| Saga.DisconnectIsSafe | pkg/util/opiinitiator.go:414-433 | Disconnect does exactly when nothing forgotten refers to anything remembered |
| Saga.LostNamesDangle | pkg/util/xpuinitiator.go:377-380 | a Disconnect that fails, lost names and a Connect that fails leave a controller without its subsystem, with every delete answered |
| Saga.ConnectOutcome | pkg/util/opiinitiator.go:374-408 | Connect succeeds exactly when every creation is answered, from any names and resources; failing at once changes nothing; a later failure with all deletes answered leaves what it did not know of; from no names it restores what was there exactly when nothing it created had existed |
| Saga.DisconnectOutcome | pkg/util/opiinitiator.go:414-433 | Disconnect succeeds exactly when it has forgotten everything, and deletes exactly what it forgets |
| Saga.RetriesConverge | pkg/util/opiinitiator.go:418-433 | repeated Disconnects delete all that was remembered after at most as many calls as there are names, each losing at least one |
| Saga.NvmeIsGood | pkg/util/opiinitiator.go:374-433 | the NVMe orders respect what refers to what |
| Saga.VirtioBlkIsGood | pkg/util/opiinitiator.go:490-535 | so do the virtio-blk orders |
| Saga.WholeMeans | pkg/util/opiinitiator.go:179-321 | controllers and namespaces refer to the subsystem, paths to the remote controller, nothing else to anything |
| Saga.NvmeLeftovers | pkg/util/opiinitiator.go:374-433 | exactly what an NVMe Connect whose cleanup fails leaves, and what a Disconnect leaves, for every combination of answers |
| Saga.VirtioBlkLeftovers | pkg/util/opiinitiator.go:490-535 | the same for virtio-blk: the device comes last and goes first |
| OpiInitiator.ReferencesHold | pkg/util/opiinitiator.go:268-322 | the references of a create request hold exactly when what the resource needs is remembered and exists |
| OpiInitiator.AfterCreate | pkg/util/opiinitiator.go:219-238 | a create request and the name it stores amount to one step of the saga and touch no other volume |
| OpiInitiator.AfterDelete | pkg/util/opiinitiator.go:241-260 | so does a delete request |
| OpiInitiator.WholeMeansNoDangling | pkg/util/opiinitiator.go:268-322 | among orderly others, no reference on the bridge dangles exactly when this volume's view is whole |
| OpiInitiator.NamesDiffer | pkg/util/opiinitiator.go:120-132 | initiators for different volumes use different names on a bridge |
| OpiInitiator.Opi.GetParam | pkg/util/opiinitiator.go:101-117 | the names, under the keys they are restored from |
| OpiInitiator.Opi.Cleanup | pkg/util/opiinitiator.go:418-433 | exactly the saga's deletions, in the code's order |
| OpiInitiator.Opi.Connect | pkg/util/opiinitiator.go:374-408 | exactly the saga's Connect, with other volumes' resources untouched |
| OpiInitiator.ConnectFromNothing | pkg/util/opiinitiator.go:374-433 | from nothing and with the deletes answered Connect is all or nothing: it succeeds exactly if the port is a number and every creation is answered; a failure leaves the bridge exactly as it was |
| OpiInitiator.ConnectWithCare | pkg/util/opiinitiator.go:374-433 | no reference on the bridge dangles after a Connect if nothing forgotten refers to anything |
| OpiInitiator.DisconnectWithCare | pkg/util/opiinitiator.go:414-433 | nor after a Disconnect if nothing forgotten refers to anything remembered, which stays so |
| XpuContext.RestoreSaved | pkg/util/xpuinitiator.go:138-171 | names, device path, function numbers and addresses survive the stash, for all backends |
| XpuContext.KeysAreDisjoint | pkg/util/xpuinitiator.go:138-144 | the initiator's own keys overwrite none of the backend's |
| XpuContext.ParseUint32Printed | pkg/util/xpuinitiator.go:165-168 | stashed numbers come back cut to 32 bits, all ones beyond 64, and a missing one as 0 |
| Text.ParsePrinted | pkg/util/xpuinitiator.go:141-168 | a printed number parses back |
| XpuInitiator.Xpu.ConnectNvme | pkg/util/xpuinitiator.go:270-319 | an existing device changes nothing; otherwise the backend's Connect, taken down again if no device appears; exactly when it succeeds and what is remembered then |
| XpuInitiator.Xpu.ConnectDevice | pkg/util/xpuinitiator.go:324-360 | the same without the look for an existing device |
| XpuInitiator.Xpu.Connect | pkg/util/xpuinitiator.go:182-199 | for NVMe and virtio-blk over OPI: what is stashed on success is what is remembered; a stash that cannot be written undoes nothing |
| XpuInitiator.Xpu.Disconnect | pkg/util/xpuinitiator.go:371-379 | for NVMe and virtio-blk over OPI: succeeds exactly with a device path, the backend's success and the device gone; the stash goes whether or not it succeeds |
| XpuInitiator.RestartDisconnect | pkg/util/xpuinitiator.go:157-171 | an initiator rebuilt from the stash takes down all that the old one knew of |
| XpuInitiator.ConnectFresh | pkg/util/xpuinitiator.go:270-360 | from nothing, exactly when Connect succeeds; a failure leaves nothing if every delete is answered, unless the stash failed: then everything stays |
| XpuInitiator.ConnectRestartDisconnect | pkg/util/xpuinitiator.go:173-200 | OPI NVMe and virtio-blk: Connect succeeds exactly if the host and every creation play along, and then connect, restart and fault-free disconnect leave the bridge exactly as it was |
| XpuSma.SmaSurvivesRestart | pkg/util/smainitiator.go:41-54 | an initiator rebuilt from the stashed handle and the volume's UUID is in the state of the connected one, and its disconnect takes down what that made |
| XpuInitiator.DisconnectRestartDisconnect | pkg/util/xpuinitiator.go:362-380 | after any Disconnect an initiator built anew disconnects exactly if the stash was kept, can be read and holds a device path, and the saga over the stashed names succeeds; otherwise it leaves the bridge alone |
| XpuInitiator.FoundWithoutStash | pkg/util/xpuinitiator.go:271-275 | a device found by an initiator without a stash is stashed as function 0 with no path and no names |
| SmaInitiator.NeverOrphaned | pkg/util/smainitiator.go:192-318 | in every orderly sequence of calls under any failures an attached volume has its device, and both are remembered |
| SmaInitiator.ConnectIsSafe | pkg/util/smainitiator.go:264-297 | a Connect orphans an attachment exactly when its attach fails, its rollback succeeds and the device was attached to before |
| SmaInitiator.DisconnectIsSafe | pkg/util/smainitiator.go:300-318 | a Disconnect does exactly when its answers let it delete a device that has an attachment it does not remember |
| SmaInitiator.DisorderOrphans | pkg/util/smainitiator.go:192-255 | connecting twice, or after a disconnect, can orphan: two concrete sequences |
| SmaInitiator.ConnectOutcome | pkg/util/smainitiator.go:264-297 | Connect succeeds exactly if the device is created with a handle and the volume attached; a failure attaches nothing and leaves a new device exactly if its rollback is not answered |
| SmaInitiator.FailedAttachRollsBack | pkg/util/smainitiator.go:218-228 | a failed attach with an answered delete restores the state exactly when the device was new |
| SmaInitiator.DetachedOnce | pkg/util/smainitiator.go:238-255 | however often Disconnect is repeated, a successful detach is never repeated |
| SmaInitiator.RetriesFinish | pkg/util/smainitiator.go:238-255 | a bound: when every call gets its first RPC through, two calls leave neither attachment nor device |
| SmaInitiator.RetriesRemoveDevice | pkg/util/smainitiator.go:238-255 | retries under arbitrary answers remove the device exactly when some call has its delete answered and, with a volume remembered, the same or an earlier call its detach; the attachment exactly when some detach is answered |
| SmaInitiator.RefusedDetachStrandsDevice | pkg/util/smainitiator.go:305-317 | so after a failed rollback the device, never attached to, stays exactly until a detach of it and then a delete are answered; an agent that refuses to detach what is not attached keeps it |
| SmaInitiator.Sma.Connect | pkg/util/smainitiator.go:264-297 | computes exactly the specified Connect |
| SmaInitiator.Sma.Disconnect | pkg/util/smainitiator.go:300-318 | computes exactly the specified Disconnect |
| XpuSma.FailedConnect | pkg/util/xpuinitiator.go:202-223 | a Connect of a new device that fails leaves the agent as it was exactly when nothing was created or the rollback that was due, by the backend or by the initiator, was answered |
| XpuSma.RepeatedUnstage | pkg/util/xpuinitiator.go:362-393 | however often a staged volume is disconnected, each time by an initiator built from the stash, NVMe/TCP and NVMe: exactly which sequences of answers remove the device, the attachment and the stash |
| XpuSma.ReportedSuccess | pkg/util/xpuinitiator.go:385-393 | a Disconnect that reports success leaves the device exactly over NVMe/TCP, when nothing has removed it so far and the initiator had no stash |
| XpuSma.Xpu.ConnectNvmfTCP | pkg/util/xpuinitiator.go:202-223 | the backend's Connect, taken back if the host's own connect yields no device |
| XpuSma.Xpu.ConnectNvme | pkg/util/xpuinitiator.go:270-319 | an existing device changes nothing; otherwise as over NVMe/TCP, on a free function |
| XpuSma.Xpu.Connect | pkg/util/xpuinitiator.go:173-200 | for NVMe/TCP and NVMe over SMA: what is stashed on success is what is remembered; a stash that cannot be written undoes nothing |
| XpuSma.Xpu.Disconnect | pkg/util/xpuinitiator.go:362-380 | exactly the specified Disconnect: over NVMe/TCP the host goes first, over NVMe the backend; the stash goes whether or not it succeeds |
| XpuSma.ConnectThenUnstage | pkg/util/smainitiator.go:192-318 | a new device connected and stashed, then disconnected any number of times across restarts: when it connects, and that the agent's devices and attachments are as before exactly when the answers say so |
| StagingRuns.MountedMeansUsable | pkg/spdk/nodeserver.go:128-234 | in every interleaving of node calls where only stashing never fails: whenever a volume's lock is free, a mounted volume has its device connected and its context stashed |
| StagingRuns.StepLeavesOthers | pkg/spdk/nodeserver.go:128-260 | a handler leaves alone what handlers of other volumes rely on |
| StagingRuns.ActionsAreUsedUp | pkg/spdk/nodeserver.go:128-260 | every action brings its own thread nearer to its end and moves no other |
| StagingRuns.NobodyIsStuck | pkg/spdk/nodeserver.go:128-260 | in every state of every run, as long as some call has not finished, some thread can go on, whatever is answered |
| NodeStaging.StagingPathsDiffer | pkg/spdk/nodeserver.go:376-386 | IDs without slashes never share a staging path |
| NodeStaging.DevicesDiffer | pkg/spdk/nodeserver.go:152-164 | volumes never share a device |
| NodeStaging.StagedInParent | pkg/spdk/nodeserver.go:376-386 | the staging path is the entry named after the volume in the directory asked for |
| NodeStaging.StageOutcome | pkg/spdk/nodeserver.go:128-181 | success means mounted, connected and stashed; the only way to a bad state is a failing stash after everything else went well |
| NodeStaging.StageMountsInParent | pkg/spdk/nodeserver.go:128-181 | staging succeeds exactly if the volume is mounted already or every operation goes well, and mounts nothing but the volume's own device in the directory asked for, under its ID |
| NodeStaging.StageExactly | pkg/spdk/nodeserver.go:128-181 | exactly which mount, mount point, connection and stash there are afterwards, for every combination of answers |
| NodeStaging.FailedStashIsHidden | pkg/spdk/nodeserver.go:164-178 | a retry then reports a staged volume whose device is gone |
| NodeStaging.UnstageOutcome | pkg/spdk/nodeserver.go:183-234 | exactly when it succeeds; never a bad state; after success the device is disconnected exactly when the volume was mounted or not connected |
| NodeStaging.UnstageExactly | pkg/spdk/nodeserver.go:183-234 | the same for unstaging a mounted volume |
| NodeStaging.UnstageRetryLeaks | pkg/spdk/nodeserver.go:191-228 | an unstage that fails past the unmount is reported done by its retry, still connected and stashed |
| NodeStaging.StageThenUnstage | pkg/spdk/nodeserver.go:128-234 | without faults unstaging restores mounts, connections and stash, and removes the mount point |
| NodeStaging.RepeatedCalls | pkg/spdk/nodeserver.go:128-260 | every call that succeeded succeeds again and changes nothing, if its first look at the path is answered |
| NodeStaging.PublishOutcome | pkg/spdk/nodeserver.go:327-342 | exactly when publishing succeeds; it mounts its target from the staging path, the volume's entry in its staging directory, or leaves the mounts alone; success does not depend on the volume being staged |
| NodeStaging.UnpublishOutcome | pkg/spdk/nodeserver.go:357-374 | success means neither mount nor mount point; a path that is not there succeeds at once; nothing else changes |
| NodeStaging.TargetsLeaveStagingAlone | pkg/spdk/nodeserver.go:236-260 | publishing and unpublishing elsewhere leave every staging mount, connection and stash alone, under any faults |
| NodeStaging.NodeServer.NodeStageVolume | pkg/spdk/nodeserver.go:128-181 | computes exactly the small-step handler |
| NodeStaging.NodeServer.NodeUnstageVolume | pkg/spdk/nodeserver.go:183-234 | computes exactly the small-step handler |
| NodeStaging.NodeServer.NodePublishVolume | pkg/spdk/nodeserver.go:236-247 | computes exactly the small-step handler |
| NodeStaging.NodeServer.NodeUnpublishVolume | pkg/spdk/nodeserver.go:249-260 | computes exactly the small-step handler |

## Left out

- XpuInitiator.Xpu: over the OPI backends on KVM, which offer NVMe and virtio-blk; `XpuSma.Xpu` is the same initiator over the SMA backends for NVMe/TCP and NVMe. In both, the host's side of a connection is reduced to whether the device appears and goes.
- OpiInitiator.Opi: one class for the two Go types, which embed the same half; physical and virtual function numbers are not kept in the bridge's resources, and the bridge's answer carries the name that the request's ID implies.
- PciFunctions.GetAvailableFunctionsKvm: a sysfs glob that fails is not modelled, and the number of bridges is bounded so that function numbers fit 32 bits.
- SpdkTarget.PublishOutcome: namespaces are sets of bdevs, so namespace numbers are abstracted, and a namespace does not vanish with its bdev.
- Scheduling.ScheduleVolume: for lvstores whose byte count fits 64 bits, as the division by mebibytes needs.
- Controller.ControllerServer.CreateVolume: one call at a time; the interleavings are in `Lifecycle`, where the lvstore is an arbitrary choice, so that a clone differs from a new volume in nothing.
- NodeStaging.Step: removing a directory does not remove directories or mounts below it; access modes and mount flags are not modelled.
- CreateSnapshot and DeleteSnapshot: plain sequences without rollback.
- The volume info that CreateVolume copies into the request's parameter map, secrets and tokens.
- Lock keys: names and volume IDs are separate keys in `Lifecycle`; in the driver a name that equals a volume ID would share its lock, which only blocks more.
- Aliases: a volume is looked up by lvstore and name, not by the string "lvstore/name".
- SMA virtio-blk, backend and initiator above it: it creates and deletes one device with nothing to attach.
- getAvailableFunctionsXpu and the driver_override files of xPU hardware: sysfs contents of foreign devices.
- HTTP, JSON, gRPC, command execution, timeouts and polling: they become the oracle's answers.
- TryLock, the identity server, capability lists, configuration parsing: no property worth a proof.
