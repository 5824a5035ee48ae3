# Verification of the backup, browse and failover core

This project models the logic at the centre of ibm-vpc-file-pool-csi in Dafny and
proves what that logic is for. `dafny verify dfyconfig.toml` checks all of it.

| part | modules | what is proved |
|---|---|---|
| Disk reader over object storage | `SegmentCache`, `DiskProtocol`, `DiskRuns`, `DiskLru`, `DiskAhead`, `Disk` | Every interleaving of reads, read-ahead, failed fetches and evictions returns the source's bytes; the cache stays consistent and bounded; what is evicted was used longest ago; read-ahead forgets no segment; no deadlock, and every read ends. |
| Failover plan | `VMFilter`, `VMPlan`, `Planner`, `FailoverPlan` | A resolved plan is the one plan that the copy's restore points allow; every VM gets the latest instant that all its disks can show; filters change no choice; a plan is found exactly when there is one. |
| Plan to Execute | `Job`, `Outcome`, `Confirm` | What a Plan reports survives its size-limited message, which is cut no more than needed; the expectation made from it accepts exactly the same plan; an Execute changes nothing before that, and then rewinds or rolls back exactly the disks that the share calls for. |
| Failover controller | `Gate`, `ControllerSteps`, `ControllerRuns`, `JobOwners`, `LeftoverJob`, `Controller` | Over every run, with lost updates and removed Jobs, the phase machine's promises hold, and it is known exactly when an Execute ended from its own Job. |
| Browsing a backup | `Collect`, `Paging`, `Manifest`, `CosTree`, `Tar`, `BackupTar`, `Paths`, `ObjectFile` | The two listing backends agree; pages are complete; the tar writer terminates and its stream holds exactly what the walk reaches; the text form round-trips; a forward-only stream behaves like plain bytes. |
| Restore points | `Calendar`, `Moments`, `Exports` | Choosing by name is choosing by instant; exports do not depend on the order of the snapshot list, unless two snapshots tie as the newest of a moment. |
| cos-setup | `CloudAccount`, `CosSetup` | A plan changes nothing; an apply that ends well leaves nothing to do; nothing is made twice that could be seen; when everything works it is known exactly which accounts can be set up; only new instance-wide policies are deleted. |
| Shared | `Order`, `Common` | Go's string order, sorting, whole seconds. |

## How the model is built

- Names and texts are byte strings (`Order.Bytes`) in the order Go compares them.
  Times are nanoseconds as naturals; 0 is Go's zero time, except in `Calendar` and
  `Moments`, where time starts with the year 0.
- Code that changes fields is a class (`Disk.CosDisk`, `FailoverPlan.Plan`,
  `Outcome.Held`, `Confirm.Share`, `Controller.FailoverController`,
  `Collect.PageCollector`, `CosTree.Tree`, `Tar.TarStream`, `ObjectFile.File`,
  `CosSetup.Run`). Each method is proved against a function or predicate over values,
  and the theorems are about those.
- The concurrent disk reader is a state machine. Each critical section of the source is
  one step, a fetch outside the lock is a step of its own, and a run is any sequence of
  steps of any number of threads. The class in `Disk` uses the same step functions.
- A Failover's spec never changes. In the repository the admission webhook sees to that
  (pkg/webhook/failover_validator.go:68).
- What other systems answer is an input: the API server, the clock, the Job's pod, the
  repository's objects and the cloud account. Faults are part of the input: lost updates,
  calls that fail before or after they take effect, streams that break.

## What the proofs found

The model does what the code does, also where the code does less than its comments say.

- `recomputeRPO` forgets the oldest copy when a volume without a copy time comes after
  it. `FailoverPlan.OldestIsRightExactlyWhen` says exactly when the result is right, and
  `FailoverPlan.UnsetHidesOldest` is a plan where it is not.
- A filter of only blank names selects every VM but still drops the volumes that are not
  VM disks (`VMPlan.BlankFilterDropsPlainVolumes`). Only a direct caller in Go can meet
  this: both callers in the repository pass what `ParseVMs` gives, which is nil or has a
  name (cmd/failover/main.go:362, cmd/failover_job.go:43).
- A Plan whose status update was lost is still seen as finished by an Execute that comes
  later in the same list (`ControllerRuns.LostPlanOpensTheGate`). The Plan behind an
  Execute's Job is stored as it was seen exactly when this pass did not lose its update
  (`ControllerRuns.PlanIsStoredUnlessLost`).
- A Job has no owner, and one that exists already is taken for the one to be made. So an
  Execute that reuses the name of a deleted Failover can end as Done from that one's
  leftover Job, even a Plan's: `LeftoverJob.PlanJobEndsAnExecute` is a run from the start
  in which this happens. `JobOwners.DoneFromWhichJob` gives the exact condition, over every
  run: the Job was the Execute's own if and only if no Job of that name from another
  Failover was there when it began, or that Job was removed before the end.
- Groups of disks are told apart by one text, so a disk without a VM is put together with the
  disks of a VM that is called "volume/" and the name of that disk
  (`VMPlan.GroupedTogetherExactly`).
- The cache drops the segment that was used longest ago only if the arrival of a segment's
  bytes counts as a use (`DiskLru.EvictedWasUsedLongestAgo`). With room for one segment, when
  segment 0 is asked for, then segment 1, and the bytes of 1 arrive before those of 0, segment 1
  is dropped although it was asked for later.
- Paging loses names exactly when a folder has an empty name, pages hold one name, and
  there are more names (`Paging.PagesAreComplete`).
- `Stat` and `List` differ exactly for a link whose manifest claims a longer target than
  its object holds (`CosTree.StatAgreesWithListing`).
- `time.Parse` takes a fraction of a second that the layout does not have, so the choice
  by string and the choice by instant agree for all times exactly when every name with a
  fraction has its whole second beside it (`Moments.PickersAgree`).
- cos-setup takes an error status on the read of the wrapped backup key for "not there"
  and then stores another one. When every other call is answered, a key goes beside one
  that is there exactly in an apply pass with such a read in which the person confirms the
  new key as saved, whether or not the step then fails (`CosSetup.Run.BackupKeyStep`). On
  an account where nothing is missing, such a pass replaces the wrapped key and then fails
  on the secret file, which is there (`CosSetup.BlindPassReplacesKey`).
- If the cloud makes the HMAC key, its answer does not hold the key and a listing does not
  show it, the secret is lost (`CosSetup.AnswerWithoutKeyLosesSecret`), and until someone
  deletes the key only a dry run can end well (`CosSetup.Setup`). `CosSetup.CalmPassSucceeds` gives the exact condition on the
  account under which a pass succeeds when everything works.
- Of two backups of one moment that start at the same time, the one that the list has first
  is taken (`Exports.TieKeepsFirst`), so there the order of the list matters.

The tar counts rest on reads that never end with the "not readable" error.
`Tar.LoudReadHidesEntries` is a tree of which this is not true, to show that the condition
is needed; no tree of the repository is like that, because the files of a backup
(`BackupTar.BackupTreeIsValid`), of a folder on disk and of a guest disk never end a read
with that error.

## Model

| member | source | states |
|---|---|---|
| `Order.SortSorts` | pkg/cosbrowse/manifest.go:99 | Sorting gives a sorted permutation, for any total preorder. |
| `Order.SortedUnique` | pkg/cosbrowse/choose.go:83 | Two sorted arrangements of the same elements are equal when elements that compare equal are equal, so an unstable sort does not matter. |
| `SegmentCache.ClaimKeeps` | pkg/cosdisk/disk.go:171-183 | Entering a segment that is missing, before its fetch, keeps the cache invariant. |
| `SegmentCache.TouchKeeps` | pkg/cosdisk/disk.go:171-177 | A hit keeps the cache invariant. |
| `SegmentCache.TouchMovesToFront` | pkg/cosdisk/disk.go:171-177 | A hit on a listed segment moves it to the front of the LRU list and leaves the others in their order; a hit on a segment in flight changes nothing. |
| `SegmentCache.PublishKeeps` | pkg/cosdisk/disk.go:187-195 | Publishing keeps the invariant; a failed fetch leaves no entry; segments in flight stay. |
| `SegmentCache.EvictStopsInTime` | pkg/cosdisk/disk.go:202-210 | Eviction takes only from the back of the list, and the last segment it dropped had to go for the limit. |
| `SegmentCache.EvictionIsLeastRecentlyUsed` | pkg/cosdisk/disk.go:187-210 | The segment just published stays, and no segment is dropped whose stamp is later than that of one that is kept. |
| `SegmentCache.CachedBytesBounded` | pkg/cosdisk/disk.go:202-210 | The cached bytes are at most the limit or one segment. |
| `DiskProtocol.FetchReadsPiece` | pkg/cosdisk/disk.go:212-227 | A fetch reads exactly the segment's piece of the source, and a piece exists exactly for indices below the size. |
| `DiskProtocol.PieceHolds` | pkg/cosdisk/disk.go:128-135 | The segment at an offset holds the byte at that offset and the source's bytes after it. |
| `DiskRuns.RunKeeps` | pkg/cosdisk/disk.go:114-210 | Every step of every thread keeps the system invariant. |
| `DiskRuns.StartKeeps` | pkg/cosdisk/disk.go:114-127 | A new read keeps the invariant, whatever its offset and length. |
| `DiskRuns.CopyAdvances` | pkg/cosdisk/disk.go:128-135 | Each turn of the copy loop copies at least one byte, and the right ones. |
| `DiskRuns.EveryRunReadsTheFile` | pkg/cosdisk/disk.go:114-140 | After every run, a read that ended has the source's bytes from its offset to the smaller of its end and the size, and EOF exactly when it asked past the end; a read that failed is marked so. |
| `DiskRuns.NoFaultWithoutAFailedFetch` | pkg/cosdisk/disk.go:114-198 | From any state without a failure, in a run whose fetches all work no read ends with a fault and no segment holds an error. |
| `DiskRuns.FetchesWorkReadsEndWell` | pkg/cosdisk/disk.go:114-140 | So under every schedule whose fetches work, a read that ended inside the file has all the bytes it can get. |
| `DiskRuns.EveryRunKeepsTheCache` | pkg/cosdisk/disk.go:143-210 | In every reachable state a mapped segment is in flight with one owner and not in the list, or ready with the source's bytes and in the list once; the byte count is the sum; it is bounded; read-ahead is within its limit. |
| `DiskRuns.NoSegmentFetchedTwice` | pkg/cosdisk/disk.go:170-198 | Two threads never fetch the same segment at once. |
| `DiskRuns.NoDeadlock` | pkg/cosdisk/disk.go:143-198 | While a thread has not ended, some thread can go on. |
| `DiskRuns.StepUsesWork` | pkg/cosdisk/disk.go:114-198 | Every step uses up work, so no run of steps goes on for ever. |
| `DiskRuns.EveryReadEnds` | pkg/cosdisk/disk.go:114-198 | A run has at most as many steps as there is work, and when no thread can go on all have ended. |
| `DiskLru.AlwaysInOrder` | pkg/cosdisk/disk.go:170-210 | After every event of every run the LRU list is in the order in which the segments were last used, as read off the events. |
| `DiskLru.EvictedWasUsedLongestAgo` | pkg/cosdisk/disk.go:170-210 | Over every run: of a segment that the cache drops and one that it keeps, the dropped one was last used before the other was. A segment is used when it is asked for and when its bytes arrive. |
| `DiskLru.KeptWasUsedSince` | pkg/cosdisk/disk.go:170-210 | So since any time at which the dropped segment was asked for, the kept one was asked for or its bytes arrived. |
| `DiskLru.OnlyArrivalEvicts` | pkg/cosdisk/disk.go:187-210 | Only the arrival of a segment takes bytes out of the cache. |
| `DiskAhead.ReadAheadForgetsNothing` | pkg/cosdisk/disk.go:143-167 | Over every run: when a read has come out of readAhead, each segment of its window was in the map while the read was there, or a background fetch of it was started after the read, or as many background fetches ran as may. |
| `DiskProtocol.NextChunkIsRight` | pkg/cosdisk/disk.go:128-135 | What one turn copies continues the source's bytes. |
| `Disk.CosDisk.constructor` | pkg/cosdisk/disk.go:73-90 | A new disk is empty, with the defaults for the options that are not set. |
| `Disk.CosDisk.Look` | pkg/cosdisk/disk.go:171-183 | The first critical section is the Touch step on a hit and the Claim step on a miss. |
| `Disk.CosDisk.EvictLoop` | pkg/cosdisk/disk.go:202-210 | The loop is the eviction function. |
| `Disk.CosDisk.PublishSegment` | pkg/cosdisk/disk.go:187-196 | The second critical section is the Publish step. |
| `Disk.CosDisk.Get` | pkg/cosdisk/disk.go:170-198 | A segment read alone is the file's piece, or the fetch failed and the cache is as before. |
| `Disk.CosDisk.CopyNext` | pkg/cosdisk/disk.go:128-135 | One turn of the copy loop extends the buffer with the source's bytes. |
| `Disk.CosDisk.ReadAt` | pkg/cosdisk/disk.go:114-140 | A read alone gives the source's bytes with the right end, and fails only if a fetch fails. |
| `VMFilter.NormalizeVMs` | pkg/failover/vmfilter.go:13-31 | The result is strictly sorted and holds exactly the names that are not blank. |
| `VMFilter.SameVMs` | pkg/failover/vmfilter.go:33-45 | Two filters are the same exactly when they name the same VMs. |
| `VMFilter.NormalFormUnique` | pkg/failover/vmfilter.go:13-45 | Comparing normal forms is comparing the sets of names. |
| `VMPlan.ResolvedUnique` | pkg/failover/vm.go:201-227 | At most one plan is a resolution, so map iteration order cannot matter. |
| `VMPlan.GroupedTogetherExactly` | pkg/failover/vm.go:66-79 | Two disks are in one group exactly when they name the same VM, or are the same disk without a VM, or one names the VM "volume/" and the name of the other, which has none. |
| `VMPlan.ChosenIsNewestOfAll` | pkg/failover/vm.go:101-134 | Without the set of common moments: the instant that a plan gives to a disk is the latest, at or before the time asked for, that each disk of the VM is at or has a restore point of. |
| `VMPlan.TogetherIsKept` | pkg/failover/vm.go:206-221 | A VM whose disks are all at one instant in reach, with nothing later, is used as it is: that instant is chosen and no disk of it is rewound. |
| `VMPlan.TogetherIsResolvable` | pkg/failover/vm.go:201-227 | If every chosen VM is like that and the scan finds no fault, there is a plan. |
| `VMPlan.ResolvableExactlyWhen` | pkg/failover/vm.go:201-227 | A plan exists exactly when the copy can be analyzed and no disk that would have to be rewound was changed. |
| `VMPlan.DisksOfAVMAgree` | pkg/failover/vm.go:206-221 | All disks of a VM get the same moment, and it is the newest in the intersection of their restore points at or before the rewind time. |
| `VMPlan.RewindExactlyWhenNeeded` | pkg/failover/vm.go:211-220 | A disk is marked for rewind exactly when its current moment differs, and never when it was modified. |
| `VMPlan.CommonListNewest` | pkg/failover/vm.go:110-134 | The first of the common moments is the newest that every disk has. |
| `VMPlan.CommonListUnique` | pkg/failover/vm.go:110-134 | The list of common moments is one, however it was built. |
| `VMPlan.ResolveKeepsMoments` | pkg/failover/vm.go:185-227 | A resolve leaves each chosen VM its disks and the moments they share, so the list that is reported is that of the share. |
| `VMPlan.ResolvedIsAnalyzable` | pkg/failover/vm.go:185-195 | A plan that was resolved can be analyzed again, so the second analysis of a Job cannot fail. |
| `VMPlan.FilterKeepsExactly` | pkg/failover/vm.go:222-244 | A filtered plan holds exactly the disks of the named VMs, in order. |
| `VMPlan.BlankFilterDropsPlainVolumes` | pkg/failover/vm.go:222-244 | A filter of blank names keeps all VM disks and drops every other volume. |
| `VMPlan.FilterChangesNoChoice` | pkg/failover/vm.go:53-137 | Each kept disk has the same moment and marks as in the plan without a filter. |
| `VMPlan.FilterOrderDoesNotMatter` | pkg/failover/vmfilter.go:13-57 | The order and the repeats of the filter do not matter. |
| `VMPlan.FilterRefusedIfNotOnCopy` | pkg/failover/vm.go:139-158 | A filter that is accepted names only VMs that have a disk on the copy. |
| `Planner.Scan` | pkg/failover/vm.go:53-99 | The scan groups exactly the disks of the chosen VMs, in order, and fails exactly when the plan cannot be analyzed that far, with a fault that is true. |
| `Planner.MissingVMs` | pkg/failover/vm.go:139-158 | The names that are reported are exactly the named ones that were not found, sorted. |
| `Planner.Intersect` | pkg/failover/vm.go:110-125 | The loop gives exactly the moments that every disk of the VM has. |
| `Planner.NewestFirst` | pkg/failover/vm.go:126-131 | The reachable common moments, newest first, each once. |
| `Planner.AnalyzeGroup` | pkg/failover/vm.go:101-135 | A VM is analyzed exactly when it has a common restore point in reach or is one disk without any known. |
| `Planner.AnalyzeVMs` | pkg/failover/vm.go:53-137 | The analysis succeeds exactly when every chosen VM can be analyzed, and a fault it reports is true. |
| `FailoverPlan.Plan.RecomputeRPO` | pkg/failover/vm.go:246-256 | The recovery point is the age of the oldest copy that the loop holds. |
| `FailoverPlan.OldestIsRightExactlyWhen` | pkg/failover/vm.go:246-256 | That copy is the oldest exactly when nothing older comes before the last volume without a copy time. |
| `FailoverPlan.UnsetHidesOldest` | pkg/failover/vm.go:246-256 | Three volumes for which the result is not the oldest. |
| `FailoverPlan.Plan.KeepOnly` | pkg/failover/vm.go:230-244 | The loop keeps exactly the wanted entries, in their order. |
| `FailoverPlan.Plan.MarkGroup` | pkg/failover/vm.go:210-220 | The disks of a VM get the chosen moment and their marks; a modified disk that would have to be rewound is the fault. |
| `FailoverPlan.Plan.MarkAll` | pkg/failover/vm.go:206-221 | Whatever the order of the VMs, all of them are marked or the plan cannot be resolved. |
| `FailoverPlan.ChangedDiskBlocks` | pkg/failover/vm.go:215-218 | A modified disk that would have to be rewound means that no plan exists. |
| `FailoverPlan.Plan.ResolveVMs` | pkg/failover/vm.go:201-227 | It succeeds exactly when a resolution exists, leaves that resolution, and a fault is true. |
| `Job.VmDisks` | pkg/failover/job.go:132-144 | The VMs sorted, each with exactly its disks in order. |
| `Job.CheckVMs` | pkg/failover/job.go:148-171 | The problems with VMs are exactly the true ones. |
| `Job.CheckVolumes` | pkg/failover/job.go:172-189 | The problems with volumes and targets are exactly the true ones. |
| `Job.Check` | pkg/failover/job.go:147-194 | Every difference is reported and only differences are; none is reported exactly when the plan is accepted. |
| `Job.AcceptsMeansNothingWrong` | pkg/failover/job.go:147-194 | Accepting is the same as no possible problem being true. |
| `Outcome.DecodeUndoesEncode` | pkg/failover/job.go:311-353 | A message within the size limit decodes to what was sent, cut to whole seconds. |
| `Outcome.Held.HalveMoments` | pkg/failover/job.go:291-309 | Every VM with more than one moment keeps the first half, and the flag says whether anything was cut. |
| `Outcome.HalvedIsCut` | pkg/failover/job.go:291-309 | Halving keeps prefixes that are not empty and makes the total fall. |
| `Outcome.HalvedKeepsNewest` | pkg/failover/job.go:291-309 | However often it is cut, a VM keeps a front part of its moments, which is the newest, never more than half after a cut unless one is left, and never none. |
| `Outcome.NothingLeftToCut` | pkg/failover/job.go:266-287 | When nothing can be halved, each VM has its first moment only. |
| `Outcome.EncodeOutcome` | pkg/failover/job.go:266-287 | It ends; a message is within the limit and decodes to the report with all volumes and prefixes of the moments; it is cut the least number of times that makes it fit, and a report whose JSON text fits is sent as that text; it fails for size only if the smallest report does not fit; the caller's report is not changed. |
| `Confirm.NewResult` | pkg/failover/job.go:202-230 | The report lists every volume in order and every VM once, sorted, with its disks and moments. |
| `Confirm.ExpectationFromPlan` | pkg/failover/gate.go:138-152 | The expectation holds the reported VMs, volumes and targets. |
| `Confirm.MessageKeepsThePlan` | pkg/failover/gate.go:138-152 | However much the message was cut, the expectation read from it is that of the plan. |
| `Confirm.AcceptsExactlyTheConfirmedPlan` | pkg/failover/job.go:147-198 | It accepts a plan exactly when both have the same VMs at the same second, the same volumes and the same targets. |
| `Confirm.MessageAcceptsOnlyItsPlan` | pkg/failover/job.go:101-230 | Both together, from the reported plan to the plan of the Execute. |
| `Confirm.PlanFromVolumes` | pkg/failover/job.go:232-251 | The rebuilt plan has one entry for each reported volume, which would be reported the same, and nothing about disks. |
| `Confirm.ExecutorGetsThePlan` | pkg/failover/job.go:202-251 | However much the message was cut, the executor is given the very volumes of the Job's plan, each with the second of its copy. |
| `Confirm.CommonMoments` | pkg/failover/vm.go:185-195 | For every chosen VM, the moments that all its disks have, newest first. |
| `Confirm.ReportIsOne` | pkg/failover/job.go:202-230 | The report is one, whatever the order in which the maps of VMs are gone through. |
| `Confirm.ChangesTell` | pkg/failover/vm.go:264-288 | Preparing a plan rewinds exactly the marked disks, to their moments, and rolls back exactly the other disks of VMs. |
| `Confirm.PreparedExactly` | pkg/failover/job.go:101-130 | From the share to the changes: a successful Execute rewinds a volume to an instant exactly if it is a chosen disk whose VM's newest common instant is that one and the disk is not at it, and rolls it back exactly if it is a chosen disk that is at it. The only disk of a VM, if its moment is not known, is left alone. |
| `Confirm.Share.MaterializeVMs` | pkg/failover/vm.go:264-288 | The chosen disks are prepared in the order of the plan, as ChangesTell says, up to the first that fails; a rewound disk gets its new folder in the plan, and nothing else changes. |
| `Confirm.Share.CarryOut` | pkg/failover/job.go:117-128 | The check comes first: a plan that is not as confirmed leaves the share as it was, and the problems reported are exactly the true ones; it goes through exactly when the plan is accepted and every chosen disk can be prepared. |
| `Confirm.Share.RunJob` | pkg/failover/job.go:101-130 | It succeeds exactly when a plan exists and, for an Execute, is as confirmed and every chosen disk can be prepared. Then the new changes are, one for each chosen disk and in order, the rewind or the rollback that the share calls for, stated from what was seen of the disks and without the plan. Nothing on the share changes unless the action is Execute and the plan found now is accepted; the report lists, for each VM, the moments its disks on the share can all show. |
| `Gate.JudgeOne` | pkg/failover/gate.go:92-114 | A Plan fits exactly when it is finished and fresh and for the same source, rewind second, VMs and base path. |
| `Gate.FindPlan` | pkg/failover/gate.go:82-134 | The newest Plan that fits, the first of equals; else the refusal that the code's order of reasons gives, which is true of a Plan in the list. |
| `Gate.GateMeaning` | pkg/failover/gate.go:82-134 | The Plan found is eligible, at most 15 minutes old, and none that is eligible is newer. |
| `Gate.EligibleMeans` | pkg/failover/gate.go:92-114 | What eligible means in the fields of both Failovers: a Plan that ended as Planned at most 900 seconds ago, with the same source, rewind second, VM names and base path. |
| `Gate.BasePathTakenExactly` | pkg/util/shell.go:16-37 | A base path is taken exactly when it is unset, or starts with a slash, holds safe bytes only and has no ".." between slashes. |
| `Gate.BasePathIsSafe` | pkg/failover/gate.go:28-40 | The folder it names is the path without the slashes at its end, and is never outside the claim. |
| `Gate.GateRefuses` | pkg/failover/gate.go:119-134 | The gate refuses exactly when no Plan is eligible. |
| `Gate.BestUnique` | pkg/failover/gate.go:82-134 | There is one such Plan. |
| `ControllerSteps.FailStep` | pkg/failover/controller.go:129-144 | Failing is an allowed move and sets the finish time. |
| `ControllerSteps.StartStep` | pkg/failover/controller.go:268-282 | Starting a Job is an allowed move and makes only this Failover's Job. |
| `ControllerSteps.BeginStep` | pkg/failover/controller.go:209-282 | An Execute begins only with an eligible Plan from the list. |
| `ControllerSteps.BeginMeans` | pkg/failover/controller.go:209-282 | Beginning ends the Failover as Failed exactly if a check refuses it, changes nothing if a check cannot be made or the Job cannot be made, and else the Failover runs from the source it names, with a Job of its name, made for it unless one is there. |
| `ControllerSteps.FinishStep` | pkg/failover/controller.go:374-414 | Finishing is an allowed move: Planned for a Plan, Done for an Execute, Failed for both. |
| `ControllerSteps.FinishEnds` | pkg/failover/controller.go:374-414 | A Job that succeeded ends the Failover as its action, its report and its objects say, and its Job goes only once that is stored. |
| `ControllerSteps.CheckMeans` | pkg/failover/controller.go:337-361 | What a look at the Job does in each of its states: nothing while it runs or cannot be read, an end when it succeeded or failed, and a new beginning, with its checks and a new Job, when it is gone. |
| `ControllerSteps.ProcessStep` | pkg/failover/controller.go:93-117 | Each item of a pass makes an allowed move and nothing else changes. |
| `ControllerSteps.ProcessMeans` | pkg/failover/controller.go:93-117 | A new Failover is begun, one with a Job is checked, and one that has ended is left as it is. |
| `ControllerRuns.NextKeeps` | pkg/failover/controller.go:93-139 | Every event keeps the invariant over stored and listed Failovers. |
| `ControllerRuns.StoredMoves` | pkg/failover/controller.go:93-117 | A stored Failover keeps its identity and spec and moves as the phase machine allows; an ended one stays equal. |
| `ControllerRuns.ExecutingNeedsAPlan` | pkg/failover/controller.go:246-282 | Executing is entered only in a pass that lists an eligible Plan with the same real base path. |
| `ControllerRuns.ExecuteJobNeedsAPlan` | pkg/failover/controller.go:337-361 | An Execute's Job is made only behind the gate, also when a removed Job is made again. |
| `ControllerRuns.StatusIsConsistent` | pkg/failover/controller.go:374-414 | In every reachable state the finish time is set exactly in the ended phases, and the phase fits the action. |
| `ControllerRuns.EndedForEver` | pkg/failover/controller.go:93-117 | Planned, Done and Failed are never left, whatever follows. |
| `ControllerRuns.ExecutedOnlyBehindTheGate` | pkg/failover/controller.go:209-282 | Over every run, a Failover that is Executing or Done entered Executing at some event whose pass listed a Plan as the gate asks for. |
| `ControllerRuns.PlanIsStoredUnlessLost` | pkg/failover/controller.go:209-282 | That Plan was seen as finished, and as long as it is stored at all it is stored as it was seen exactly when this pass did not lose its update. |
| `ControllerRuns.LostPlanOpensTheGate` | pkg/failover/controller.go:93-117 | With a lost update the stored Plan is not finished, and the Execute still gets its Job. |
| `JobOwners.ShortNamesAreApart` | pkg/failover/controller.go:118-126 | A Failover with a name of up to 42 bytes shares its Job name with no other, whatever the hash. |
| `JobOwners.OwnersReached` | pkg/failover/controller.go:93-144 | In every reachable state names are unique in the store and in the list, a begun Failover is in the list, and a Job does what the Failover it was made for asks. |
| `JobOwners.EnteringTakesTheJob` | pkg/failover/controller.go:268-282 | Beginning an Execute makes its Job exactly when none of its name is there; one that is there is taken as it is. |
| `JobOwners.DoneNeedsAJob` | pkg/failover/controller.go:337-414 | A Failover ends as Done only from Executing, when a Job of its name has succeeded. |
| `JobOwners.OwnOrNoneStays` | pkg/failover/controller.go:284-334 | Once a Failover is begun, no event makes a Job of its name for another. |
| `JobOwners.OwnedExactlyWhen` | pkg/failover/controller.go:284-334 | While a Failover executes, no Job of another has its name exactly if none had it when the Failover began, or the Job was missing at some time since. |
| `JobOwners.DoneFromWhichJob` | pkg/failover/controller.go:284-414 | Over every run, a Failover that is Done ended from a Job of its name that had succeeded. The Job was its own Execute's if and only if no Job of that name from another was there when it began, or that Job was removed before the end. |
| `LeftoverJob.PlanJobEndsAnExecute` | pkg/failover/controller.go:329-361 | A run from the start: a Plan's Job outlives its deleted Failover, an Execute of that name takes it over and is Done, and at no time is there a Job that is not a Plan's. |
| `LeftoverJob.StoryExists` | pkg/failover/controller.go:329-361 | The Failovers, settings and answers that such a run needs exist. |
| `Controller.FailoverController.Fail` | pkg/failover/controller.go:129-144 | The Failover ends as Failed with the finish time; its Job goes only once that is stored, so a lost update leaves the Job to be looked at again; no other Job is touched. |
| `Controller.FailoverController.Begin` | pkg/failover/controller.go:209-282 | The Failover ends as Failed exactly if a check refuses it; nothing changes if a check cannot be made; else it runs and a Job of its name is there. |
| `Controller.FailoverController.Finish` | pkg/failover/controller.go:374-414 | The Failover ends: Done exactly for an Execute with a report whose objects could be made, Planned exactly for a Plan with a report, else Failed; a report is taken into the status; the Job goes only once the end is stored. |
| `Controller.FailoverController.Check` | pkg/failover/controller.go:337-361 | Nothing happens while the Job runs or cannot be read; a Job that succeeded or failed ends the Failover; with a Job that is gone the Failover is begun again: it fails if a check, such as the gate, refuses it, and else gets a new Job made for it. |
| `Controller.FailoverController.ProcessOnce` | pkg/failover/controller.go:93-117 | A whole pass is the run of one list event and one event for each item. |
| `Collect.Up` | pkg/browse/collect.go:54-55 | heap.Push restores the max-heap and keeps the names. |
| `Collect.Down` | pkg/browse/collect.go:56-58 | heap.Fix at the root restores the max-heap and keeps the names. |
| `Collect.RootIsLargest` | pkg/browse/collect.go:56 | The root of the heap is its largest name. |
| `Collect.SmallestIsFront` | pkg/browse/collect.go:64-71 | The smallest names, sorted, are the front of the sorted list. |
| `Collect.PageCollector.Add` | pkg/browse/collect.go:44-62 | After any offers within the limit, the heap holds the smallest limit+1 names above the cursor. |
| `Collect.PageCollector.Page` | pkg/browse/collect.go:64-71 | The result is the first limit names of the sorted names above the cursor, and more says exactly whether there are further ones. |
| `Paging.NextPageContinues` | pkg/browse/tar.go:100-117 | What is left after a page is what comes after its last name. |
| `Paging.PagesAreComplete` | pkg/browse/dirtree_linux.go:260-305 | Following the cursors gives every name once and in order, exactly when no empty name ends a page of one. |
| `Paging.ListDir` | pkg/browse/dirtree_linux.go:260-305 | One scan in any order gives the page of the sorted names; names that are gone by then are left out and do not move the cursor; it fails exactly for too many names or a look that fails. |
| `Paging.WalkDir` | pkg/browse/dirtree_linux.go:309-342 | A walk visits every entry that is still there once, in the folder's own order, up to the first trouble, and there is trouble exactly for too many names or a look that fails. |
| `Paging.ListPages` | pkg/browse/tar.go:100-117 | Reading page by page ends and gives every name that is still there, in order, also when others went away. |
| `Paging.PagesHoldWhatWalkVisits` | pkg/browse/dirtree_linux.go:260-342 | The pages hold exactly the entries that a walk visits, also when names went away. |
| `Manifest.ParseManifest` | pkg/cosbrowse/manifest.go:74-106 | The folder is the sorted valid entries, refused exactly for the wrong stream, too many entries or a name twice. |
| `Manifest.NeighboursTellDuplicates` | pkg/cosbrowse/manifest.go:99-104 | Two equal neighbours after sorting mean exactly a name twice. |
| `Manifest.ParsedFolder` | pkg/cosbrowse/manifest.go:80-106 | A parsed folder is strictly sorted and holds exactly the valid entries. |
| `Manifest.ObjectIdIsAWord` | pkg/cosbrowse/repo.go:42-49 | A valid object ID is one word of up to 512 bytes that does not start with a dash, so it can be the argument of a command. |
| `Manifest.Search` | pkg/cosbrowse/manifest.go:114 | The binary search gives the first place at or after a name. |
| `Manifest.Find` | pkg/cosbrowse/manifest.go:113-119 | The search finds the entry with the name exactly if there is one. |
| `Manifest.SlicePage` | pkg/cosbrowse/tree.go:293-306 | The slice from the search to the limit is the page of the sorted entries after the cursor, with the cursor of the next page. |
| `Manifest.PageEntriesNames` | pkg/cosbrowse/tree.go:293-306 | The names of that page are the page of the sorted names, and its cursor is the next cursor. |
| `CosTree.Tree.Remember` | pkg/cosbrowse/tree.go:138-153 | The folder is added unless it is there, and the oldest folders go exactly until the rest fits or one is left. |
| `CosTree.Tree.ManifestOf` | pkg/cosbrowse/tree.go:106-134 | Whatever is cached, the answer is what reading and parsing again gives, or the object cannot be read now. |
| `CosTree.Tree.FolderAt` | pkg/cosbrowse/tree.go:157-181 | The loop is the plain walk from folder to folder, with its errors. |
| `CosTree.Tree.EntryAt` | pkg/cosbrowse/tree.go:184-194 | The entry is the plain one at the path. |
| `CosTree.Tree.LinkTarget` | pkg/cosbrowse/tree.go:249-278 | The target is what the object holds, from the cache or not, and the cache stays within its limit. |
| `CosTree.Tree.FillLinks` | pkg/cosbrowse/tree.go:225-247 | Each entry is shown with its target, or as unreadable. |
| `CosTree.Tree.List` | pkg/cosbrowse/tree.go:282-308 | The page is the page of the folder's sorted names with their entries, or the plain walk's error; when objects cannot be read now it is that, an internal error, or the same page with links shown as unreadable. |
| `CosTree.Tree.Walk` | pkg/cosbrowse/tree.go:311-334 | The batches visit every entry of the folder, in order; when objects cannot be read now, an internal error or the same entries with links shown as unreadable. |
| `CosTree.Tree.Stat` | pkg/cosbrowse/tree.go:337-362 | Stat describes the plain entry, or gives the plain walk's error; when objects cannot be read now, an internal error or the entry with an unreadable link. |
| `CosTree.Tree.Open` | pkg/cosbrowse/tree.go:366-390 | Only a regular file with a valid object ID opens, with its object and size; every other kind has its own refusal; when objects cannot be read now, that or an internal error. |
| `CosTree.StatAgreesWithListing` | pkg/cosbrowse/tree.go:225-362 | Stat and a listing show the same entry, except exactly for a link with a wrong recorded size. |
| `CosTree.EntryIsInTheText` | pkg/cosbrowse/manifest.go:74-106 | Every entry of a folder is the reading of an entry of its JSON text. |
| `CosTree.StatShowsTheText` | pkg/cosbrowse/tree.go:337-362 | What Stat shows, by the text alone: name, kind, size, mode, owner, time, link and whether it can be read. |
| `CosTree.OpenFollowsTheText` | pkg/cosbrowse/tree.go:366-390 | A file opens exactly if its text has a valid object ID and a size, with that object and size; every other kind is refused with its own code. |
| `CosTree.RefusalTells` | pkg/cosbrowse/tree.go:157-181 | A path that leads to no folder is refused for what stands at the first name that cannot be gone into: nothing, a link, a file, or a folder that cannot be read. |
| `CosTree.PageFromEntries` | pkg/cosbrowse/tree.go:282-308 | With every object readable, what the manifest listing gives is the page of the sorted names with their entries. |
| `CosTree.StatFindsListedEntry` | pkg/cosbrowse/tree.go:157-194 | The path of a listed name leads to that entry. |
| `CosTree.EntryAtIsSound` | pkg/cosbrowse/tree.go:366-390 | An entry that passes gives the repository only valid object IDs. |
| `CosTree.ListingsAgree` | pkg/cosbrowse/tree.go:282-308 | The heap-based and the manifest-based listing of the same folder give the same page for every cursor and limit. |
| `Tar.RunEntryDistinct` | pkg/browse/tar.go:38-96 | No two headers of a run are for the same path. |
| `Tar.VisitsAreReached` | pkg/browse/tar.go:38-96 | The entries that a run goes through are exactly those that names lead to from the top through folders that may be gone into, said by the walk alone. |
| `Tar.VisitsOnce` | pkg/browse/tar.go:38-96 | Each of them once. |
| `Tar.RunHoldsWhatIsReached` | pkg/browse/tar.go:15-151 | A run succeeds exactly when nothing that is reached makes it fail; then its headers are, in order, those of the folders but the root, the links and the files that open, and files, links, skipped and unreadable entries are each counted. |
| `Tar.HeaderExactly` | pkg/browse/tar.go:38-151 | So a path has a header exactly when it is reached and is a folder but not the root, a link, or a file that opens. |
| `Tar.HeaderTextInjective` | pkg/browse/tar.go:65-86 | Two headers with the same name are for the same entry. |
| `Tar.HeadersDistinct` | pkg/browse/tar.go:15-96 | No header name comes twice. |
| `Tar.RunCounts` | pkg/browse/tar.go:38-151 | A run that succeeds counts every non-folder entry it reaches and every unreadable folder below the top, once each. |
| `Tar.LoudReadHidesEntries` | pkg/browse/tar.go:90-95 | If a read could end with "not readable", a folder would be left out in part and the run would succeed. |
| `Tar.TarStream.TarEntry` | pkg/browse/tar.go:38-63 | Writing an entry does exactly the run, or the output failed. |
| `Tar.TarStream.TarRegular` | pkg/browse/tar.go:119-151 | Writing a file does exactly the run of that file: its header, then its bytes, or the count that its refusal asks for. |
| `Tar.TarStream.TarDir` | pkg/browse/tar.go:65-96 | Writing a folder does exactly the run of that folder, for every tree, and ends by the depth limit. |
| `Tar.WriteTar` | pkg/browse/tar.go:15-36 | On success the stream holds exactly what the walk reaches, no header name is there twice, and files, links, skipped and unreadable entries are each counted; a bad path and a link are refused. |
| `BackupTar.BackupTreeIsValid` | pkg/cosbrowse/tree.go:282-395 | Whatever the objects hold, a backup is a tree of distinct valid names whose reads do not end with "not readable". |
| `BackupTar.Copy` | pkg/browse/tar.go:142-148 | A copy through the file that Open gives, in reads of any size, yields the recorded size, or fails exactly when there are bytes to read and the object is missing or shorter; it never ends with "not readable". |
| `BackupTar.BackupTarIsRight` | pkg/cosbrowse/tree.go:392-395 | So a tar of any backup, even of folders that contain themselves, has no header name twice and its counts add up. |
| `Paths.ValidatePath` | pkg/browse/path.go:13-39 | A path is accepted exactly when it is within the depth and every name is valid. |
| `Paths.ValidPathLeadsThere` | pkg/browse/path.go:13-39 | Where "." stays and ".." goes up, a valid path leads from any folder to what its names say. |
| `Paths.ValidNameExactly` | pkg/browse/path.go:13-39 | The valid names are those of at most 255 bytes without a slash or NUL that lead to themselves. |
| `Paths.ElementsOfSplit` | pkg/util/shell.go:31 | The elements of a text are what stands between its slashes. |
| `Paths.Escape` | pkg/browse/path.go:43-60 | The loop writes the escaped text. |
| `Paths.Unescape` | pkg/browse/path.go:63-92 | The loop reads what the text stands for, or refuses it. |
| `Paths.HexValUndoesHexDigit` | pkg/browse/path.go:94-110 | A hexadecimal digit is read as Escape writes it, and also as a capital; nothing else is one. |
| `Paths.UnescapeUndoesEscape` | pkg/browse/path.go:43-110 | Unescape undoes Escape for every byte string and every notion of printable. |
| `Paths.EscapedIsPrintable` | pkg/browse/path.go:43-60 | Escaped text is valid UTF-8 (section 3 of RFC 3629) of printable runes only. |
| `Paths.SplitPath` | pkg/browse/path.go:114-127 | The loop reads the parts of the text that are not empty. |
| `Paths.JoinPath` | pkg/browse/path.go:130-140 | The loop writes the joined text. |
| `Paths.SplitUndoesJoin` | pkg/browse/path.go:114-140 | SplitPath undoes JoinPath for every valid path. |
| `ObjectFile.File.Restart` | pkg/cosbrowse/file.go:75-92 | After a restart the open stream holds the content from the offset on. |
| `ObjectFile.File.Fill` | pkg/cosbrowse/file.go:53-72 | What is read is the content at the position, a shortfall drops the stream, and what is left stays in step. |
| `ObjectFile.File.ReadAt` | pkg/cosbrowse/file.go:34-73 | In any state, the bytes are the content at the offset; a short stream is never clean; with a repository that answers, the read is that of plain bytes. |
| `ObjectFile.File.Close` | pkg/cosbrowse/file.go:101-107 | After Close every read is refused. |
| `ObjectFile.File.CopyAll` | pkg/browse/tar.go:142-148 | Reading front to back in pieces of any size gives the whole content. |
| `Calendar.TextOrderIsTimeOrder` | pkg/browse/moment.go:9-10 | The order of the 16-byte names is the order of the instants, for all dates of the years 0 to 9999. |
| `Calendar.ParseOfText` | pkg/cosdisk/restorepoints.go:48-57 | Reading what Format writes gives the same date and time. |
| `Calendar.FieldsOfInstant` | pkg/browse/moment.go:32 | The date and time of an instant are the ones it was made from. |
| `Calendar.DayNumberInClosedForm` | pkg/cosdisk/restorepoints.go:48-57 | The number of a day is 365 for each year, a day for each leap year before it, and a closed form of month and day. |
| `Moments.PickMoment` | pkg/browse/moment.go:17-39 | The newest moment, or the newest that is not after a set time, and whether it is the newest of all. |
| `Moments.FormatCheckNeverRefuses` | pkg/cosdisk/restorepoints.go:48-57 | The comparison with Format refuses no name that time.Parse takes. |
| `Moments.ListFolders` | pkg/cosdisk/restorepoints.go:97-109 | The well-formed folders, oldest first. |
| `Moments.PickRestorePointFolder` | pkg/cosdisk/restorepoints.go:115-125 | The last folder that is not after the time, or a refusal. |
| `Moments.CutToSeconds` | pkg/browse/moment.go:32-35 | Comparing with the text of the time, which drops the part of a second, is comparing with the time. |
| `Moments.PickersAgree` | pkg/browse/moment.go:17-39 | Both choices are the same for every set time exactly when each name with a fraction has its whole second beside it. |
| `Exports.PathTellsVolume` | pkg/cosbrowse/choose.go:51-60 | The folder of a snapshot tells its policy and volume, and a backup folder is never a moments folder. |
| `Exports.ExportsOf` | pkg/cosbrowse/choose.go:46-85 | If each backup of the volume has an ID: strictly increasing moments, each with the newest-started snapshots of exactly this volume's folders, and an export for every moment that has a backup. Whatever the IDs: only snapshots of this volume, its folders and a set moment, with a root that Kopia may be asked for. |
| `Exports.AnyOrderSameExports` | pkg/cosbrowse/choose.go:46-85 | The order of the list does not matter when no two snapshots tie as the newest of a moment in a folder of the volume. |
| `Exports.TieKeepsFirst` | pkg/cosbrowse/choose.go:62-76 | Of two backups of a moment that start at the same time, the first in the list is taken. |
| `Exports.ExportFor` | pkg/cosbrowse/choose.go:90-99 | The oldest export at or after a set time, else the newest. |
| `CloudAccount.WideIsNotNeeded` | pkg/cossetup/steps.go:707-717 | An instance-wide policy is none of the policies that the command makes, and is not narrow. |
| `CloudAccount.PolicyCountsExactly` | pkg/cossetup/steps.go:563-611 | A policy counts as there exactly when it has the role and the very bucket, or the right to read and the very root key. |
| `CloudAccount.DeletingWideKeepsObjects` | pkg/cossetup/steps.go:687-703 | Deleting such a policy takes no object away. |
| `CosSetup.Run.InstanceStep` | pkg/cossetup/steps.go:290-320 | The instance is made only if none has the name. |
| `CosSetup.Run.AuthorizationStep` | pkg/cossetup/steps.go:322-352 | The authorization is made only if none is there for the instance and the root key. |
| `CosSetup.Run.BucketStep` | pkg/cossetup/steps.go:377-439 | The bucket is made only if it is not there; one that is not to be touched is refused. |
| `CosSetup.Run.VersioningStep` | pkg/cossetup/steps.go:446-454 | Versioning is turned on only if it is off. |
| `CosSetup.Run.ObjectLockStep` | pkg/cossetup/steps.go:456-464 | Object lock is turned on only if it is off or cannot be read. |
| `CosSetup.Run.RoleStep` | pkg/cossetup/steps.go:466-513 | The role is made only if it is not there; one with other actions is refused. |
| `CosSetup.Run.ServiceIdStep` | pkg/cossetup/steps.go:517-554 | The service ID is made only if none has the name. |
| `CosSetup.Run.BucketPolicyStep` | pkg/cossetup/steps.go:563-588 | The bucket policy is made only if the service ID has none. |
| `CosSetup.Run.RootKeyPolicyStep` | pkg/cossetup/steps.go:590-611 | The root key policy is made only if the service ID has none. |
| `CosSetup.Run.FirstSteps` | pkg/cossetup/steps.go:290-611 | Policies are only added, and each gives one subject one role on one thing: the service ID a role on the bucket or the right to read the root key, or a COS instance the right to read keys; when everything works only the bucket and the role can stop an apply. |
| `CosSetup.Run.MakeHmac` | pkg/cossetup/steps.go:647-670 | The key is made, its secret saved, and the policies before it are known. |
| `CosSetup.Run.RemoveImplicit` | pkg/cossetup/steps.go:687-703 | Only instance-wide policies of the service ID that were not there before are deleted, all of them on success, and no object with them. |
| `CosSetup.Run.CheckNarrow` | pkg/cossetup/steps.go:739-754 | It passes exactly when every policy of the service ID is for buckets and keys only. |
| `CosSetup.Run.HmacStep` | pkg/cossetup/steps.go:615-680 | The HMAC key is made only if it is not there; a run that passes leaves a narrow service ID; a lost secret stops an apply whatever is answered; when everything works the step passes exactly if the account fits. |
| `CosSetup.Run.KeyFileStep` | pkg/cossetup/steps.go:762-768 | The key file is written only if it is not there. |
| `CosSetup.Run.ZoneStep` | pkg/cossetup/steps.go:770-790 | The zone is made only if none was given and none has the name. |
| `CosSetup.Run.RuleStep` | pkg/cossetup/steps.go:794-842 | The rule is made only if none is there for the bucket. |
| `CosSetup.Run.BackupKeyStep` | pkg/cossetup/steps.go:852-892 | Whether the step ends well or fails, it stores a key beside one that is there only in an apply pass whose read of it was answered with an error status, and nothing at all if the person does not confirm the new key as saved; if it ends well it then does store one; and when everything else works it does so even where it fails because the secret file is there. |
| `CosSetup.Run.SecretFileStep` | pkg/cossetup/steps.go:915-923 | The secret file is written only if it is not there. |
| `CosSetup.Run.All` | pkg/cossetup/steps.go:171-186 | A plan changes nothing; an apply that succeeds, or a plan that finds nothing to create, means that everything is there; on such an account the next pass creates nothing, or with a blind read of the wrapped key stores one more and fails; when everything works an apply succeeds exactly on an account that can be set up. |
| `CosSetup.Setup` | pkg/cossetup/setup.go:154-201 | When the command ends well everything is there; a dry run or an answer of no changes nothing; no object or policy of the start is lost; with a lost HMAC secret it cannot end well, and the secret stays lost. |
| `CosSetup.NothingMadeTwice` | pkg/cossetup/steps.go:142-186 | Wherever earlier passes stopped, a later pass makes a second copy of an object only if its own read of that very object was answered with an error status. |
| `CosSetup.NothingMadeAgain` | pkg/cossetup/steps.go:142-186 | A pass makes nothing that was there before the first pass and nothing twice, unless its read of that very object was answered with an error status. |
| `CosSetup.BlindPassReplacesKey` | pkg/cossetup/steps.go:852-923 | On a complete account, an apply pass that is blind for the wrapped key replaces it and fails. |
| `CosSetup.CalmPassSucceeds` | pkg/cossetup/steps.go:171-186 | When everything works, an apply pass ends well exactly if the bucket may be used, the role fits, the HMAC key has its file or a shown secret or neither is there yet, the service ID ends up narrow, and no secret file stands in the way of a missing key; then everything is there. |
| `CosSetup.AnswerWithoutKeyLosesSecret` | pkg/cossetup/steps.go:636-670 | A pass that makes the HMAC key and is not told it fails, and leaves a key whose secret nobody has. |

## Left out

- HTTP, TLS, WebDAV, Kopia, NFS and openat2 themselves: their answers are inputs.
- The JSON, gzip and base64 codecs: `Outcome` takes any codec whose decoder undoes its encoder.
- Outcome.DecodeUndoesEncode: asks that JSON gives back every text; Go's JSON replaces bytes that are not UTF-8, which names and folders in Kubernetes do not have.
- Kubernetes object building, the CSI driver, the API types and their webhooks, and the console plugin.
- pkg/replication and pkg/cosdisk/undo.go, which read and rewind a disk's history: a disk's state and restore points are inputs.
- Concurrency in the browse trees and in link fetching: the calls are one after another; only the disk reader is modelled with interleavings.
- Disk.CosDisk.Get: the class is a caller that is alone, so a wait for the fetch of another is not in it; it is a step of DiskRuns.
- Disk.CosDisk.ReadAt: the class is a caller that is alone and without read-ahead; every interleaving with read-ahead is in DiskRuns.
- Mode, owner, time and link text in tar headers, which are copied from the entry: a header is its name and whether it is a folder. The bytes of a file are the number that its copy yields.
- OpenRepo, which puts exportsOf, exportFor, PickMoment and NewTree together.
- Paging.ListDir: an error of the scan itself, which ends the call, is not modelled.
- Paging.WalkDir: the same, and the error of the caller's function, which ends the walk.
- Confirm.Share.RunJob: the name of the folder of a rewound disk is an input function, and a folder that exists already counts as rewound; the volumes are as the scan of the share gives them, with no VM chosen yet.
- FailoverPlan.Plan.RecomputeRPO: the recovery point is an integer of nanoseconds, without Go's overflow after 292 years.
- Tar.RunCounts: asks that no read of an open file ends with the "not readable" error; LoudReadHidesEntries shows why.
- Exports.ExportsOf: the choice of the newest snapshot is stated for volumes whose backups have IDs, because a backup without one stands for none in the source.
- JobOwners.DoneFromWhichJob: is stated for a Failover whose Job name no other name gives; for names of more than 42 bytes that depends on the hash.
- Messages and reasons of errors as text, and the objects that a finished Execute makes: making them is a yes or no.
- zoneHolds, address parsing, the caller's address and the validation of options in cossetup: one yes or no before the first step.
- Pages of long API listings in cossetup: a listing is complete.
- Times before the year 0 or after 9999 in PickMoment, for which Go's text is not 16 bytes long.
- 64-bit widths of sizes and offsets: they are unbounded integers.
