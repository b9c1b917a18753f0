# OpenTorque: a verified model of its scheduling, cloud, lease, wire and ledger logic

OpenTorque is a batch system: a server keeps jobs, queues and nodes, a scheduler places jobs on nodes, an elastic
controller adds and removes cloud VMs, two or more servers elect a leader through a lease in a database, and all of
them talk in the DIS wire format. This project models seven parts of it in Dafny and proves what they are relied on for.

- Scheduling cycle (`Placement`, `JobIterator`, `CycleHistory`, `Cycle`, `JobOrder`, `NodeState`, `TwoViews`): every cycle is a log
  of decisions, each right for the nodes of its moment. What a cycle guarantees is proved of every legal log:
  blocked jobs stay blocked, so a cycle that runs through is maximal.
- Cloud elastic controller (`CloudPool`, `CloudController`, `CloudHandlers`, `CloudSync`): a pool is what its history of moves
  makes of it. The invariants are proved of every history; each handler is proved to make exactly certain moves.
- Leader lease (`Lease`): any number of servers, one row, one clock, all interleavings of clock reading, upsert,
  read-back and flag update, with errors, crashes, restarts and upserts that take effect after their attempt was given up.
- DIS codec (`DisCodec`, `DisStream`, `DisMessage`, `DisMessageStream`): numbers with recursive count chains, strings,
  attribute lists, replies and status replies, for the server reader and the laxer scheduler reader.
- Slot ledger and recovery (`SlotLedger`, `SlotSteps`, `SlotRuns`, `SlotFailures`, `SlotServer`, `NodeRequest`,
  `JobAttrs`, `NodeAttrs`, `Recovery`): which jobs each node lists and how many slots it counts, across all handlers, for single-node and
  multi-node jobs.
- Submission (`Admission`, `JobSubmission`, `JobArray`) and the job file (`JobFile`).
- Cost apportionment (`Cost`, `CostRecords`).

`Decimal`, `Int64Loop`, `Strings`, `StringOrder`, `Sorting` and `Listing` hold the parts of the Go library that these rely on. Time is an integer
on one clock, floating point is `real`, ranging over a Go map is any enumeration of its keys, each server handler is
one atomic step, and the answers of the cloud provider, the node controller, MOMs, the database and RunJob are
arbitrary inputs. 64-bit wrap-around is explicit in the codec, in the resource parsers
and in the array ranges.

Where the code and its comments disagree the model follows the code:

- a VM that registers keeps its provisioning stamp, so the timeout sweep can destroy it (`CloudPool.SweepMeetsRegistered`);
- the scale-in floor is tested once per sweep, not per node (`CloudController.FloorKeptIff`, `CloudController.FloorCanBreak`);
- round-robin does not return while an ineligible queue holds jobs (`JobIterator.JobIterator.NextWithin`, `JobIterator.RouteQueueHangs`);
- `drain` and `excl` are not seen behind `job-exclusive` (`NodeState.DrainingSeenIff`);
- rerun, dispatch undo and node-down requeue release one node of a multi-node job, an obituary or delete by short id
  releases nothing by name, and an obituary of a finished job releases again (`SlotRuns.KeptIffProper` says exactly
  when the ledger survives each, and `SlotFailures` has a run for each failure);
- a new np sets no flag, and an alter of the owner or group of a running job is not held against the run limits
  (`SlotRuns.FlagsKeptIff`, `SlotRuns.LimitsKeptIff`);
- job ids after the first of a node are read with a leading space, so the job sync can give up the VM of a running job
  (`CloudSync.SparesLiveIff`, `CloudSync.SecondJobLosesVm`);
- a refused commit is removed under the name the client used, so under a short name it stays queued
  (`JobSubmission.JobManager.HandleCommit`, `JobSubmission.RefusedUnderShortName`);
- an array range that ends within a step of 2^63 makes the counter wrap, and then the loop never ends or gives indices
  that were not asked for (`Int64Loop.EndsIff`, `JobArray.CollectsAskedIff`, `JobArray.LongStepWraps`);
- a reclaim releases the ppn of a job and not what it was charged (`NodeRequest.ChargedIsReleasedIff`);
- the scheduler debits one node by ncpus while the server charges every node by ppn (`TwoViews.DispatchAgreesIff`);
- a status report makes every node with jobs job-exclusive, and a node that is reported down is taken for up unless it
  is offline (`SlotServer.ReportedNodeIsNotFree`, `NodeAttrs.DownAfterIff`);
- a job name with a space in it can carry an account into the record (`CostRecords.NamedLikeAnAccount`);
- an upsert that takes effect after its attempt was given up can cut a lease short (`Lease.InvKeptIff`);
- a direct submission counts itself, so a queue fills to one short of max_queuable (`Admission.DirectAcceptedIff`);
- an unsigned number of 2^63 or more can be written but not read (`DisCodec.UintRoundTrip`).

## Model

| member | source | states |
|---|---|---|
| `Placement.CountSchedulableForJob` | internal/sched/scheduler/scheduler.go:681-704 | The loop returns the number of nodes that satisfy every constraint of the job with the given CPUs free. |
| `Placement.Candidates` | internal/sched/scheduler/scheduler.go:746-770 | The feasible nodes, all of them, each once, in node order. |
| `Placement.FindNodeForJob` | internal/sched/scheduler/scheduler.go:728-799 | Nil if and only if the job is blocked (too few nodes for a multi-node job, or no feasible node); otherwise the least candidate by (dynamic, load or free CPUs, node order). |
| `Placement.HeadIsBest` | internal/sched/scheduler/scheduler.go:770-799 | The head of the stably sorted candidates is the best of all nodes: no feasible node is preferred to it, and it is preferred to every feasible node before it. |
| `Placement.BestMeans` | internal/sched/scheduler/scheduler.go:777-799 | The chosen node is static if any static one can take the job; within its kind it has the least load with load balancing, the fewest free CPUs without. |
| `Placement.QueueForJob` | internal/sched/scheduler/scheduler.go:403-410 | A queue of that name, or none exactly when no queue has it. |
| `Placement.QueueFoundIsFirst` | internal/sched/scheduler/scheduler.go:403-410 | The queue found for a job is the first of its name. |
| `Placement.AddUsed` | internal/sched/scheduler/scheduler.go:308-313 | Each generic resource in use grows by exactly what the job asks for. |
| `Placement.FitsShrinks` | internal/sched/scheduler/scheduler.go:746-765 | A node that can take a job after losing room could take it before. |
| `Placement.CountShrinks` | internal/sched/scheduler/scheduler.go:681-704 | The count of feasible nodes never grows while nodes lose room. |
| `Placement.BlockedStays` | internal/sched/scheduler/scheduler.go:728-799 | A blocked job, multi-node and exclusive ones included, stays blocked while nodes lose room. |
| `Placement.KeepsBlockedIff` | internal/sched/scheduler/scheduler.go:304-315 | Dispatching jobs with a given CPU request never unblocks another job, on any cluster, if and only if the request is not negative. |
| `Placement.NegativeRequestUnblocks` | internal/sched/scheduler/scheduler.go:304-307 | A concrete cluster on which a negative request unblocks a job. |
| `CycleHistory.LaterNoRoomier` | internal/sched/scheduler/scheduler.go:296-326 | Between any two moments of a cycle every node only loses room. |
| `CycleHistory.BlockedLater` | internal/sched/scheduler/scheduler.go:229-326 | A job blocked after any number of dispatches is blocked after all of them. |
| `CycleHistory.LocalFirst` | internal/sched/scheduler/scheduler.go:746-799 | A job placed on a dynamic node has no feasible static node, at that moment or at any later point of the cycle. |
| `CycleHistory.NoOverCommit` | internal/sched/scheduler/scheduler.go:296-326 | CPUs and generic resources within budget before the cycle are within budget after every dispatch, whatever the sign of the requests. |
| `CycleHistory.CpusConserved` | internal/sched/scheduler/scheduler.go:304-307 | Total free CPUs fall by exactly the sum of the dispatched requests, a request of zero counting as one. |
| `TwoViews.DispatchAgreesIff` | internal/server/server.go:3833-3837 | One dispatch keeps them equal on all nodes if and only if the server starts the job, on one node, and charges the CPUs the scheduler debits. |
| `TwoViews.ViewsAgreeIff` | internal/sched/scheduler/scheduler.go:304-315 | Up to any point of a cycle the free CPUs of the scheduler are the free slots of the server if and only if they were before it and every dispatch was matched. |
| `TwoViews.PpnIsNotDebited` | internal/sched/scheduler/scheduler.go:304-307 | A job with nodes=1:ppn=4 and no ncpus is debited one CPU by the scheduler and charged four slots by the server. |
| `CycleHistory.JobLists` | internal/sched/scheduler/scheduler.go:314-314 | The job list of a node is what it was plus the jobs dispatched to it, in order. |
| `CycleHistory.ExclusiveIsFirst` | internal/sched/scheduler/scheduler.go:812-844 | A job of an exclusive queue found its node idle and nothing was dispatched there before it. |
| `CycleHistory.ExclusiveJobsApart` | internal/sched/scheduler/scheduler.go:812-844 | Two jobs of exclusive queues never share a node. |
| `CycleHistory.PendingExact` | internal/sched/scheduler/scheduler.go:248-284 | A queue has a capacity event exactly if it is cloud-backed and one of its jobs blocked; the event names all of them in order and adds their CPUs. |
| `CycleHistory.ShortfallCoversCores` | internal/sched/scheduler/scheduler.go:331-350 | The node shortfall is the least that covers the cores, at least one, cut off at the maximum of the queue. |
| `Cycle.LegalAt` | internal/sched/scheduler/scheduler.go:229-326 | In a legal log every decision was right for the nodes as they stood at its moment. |
| `Cycle.DecidedOnce` | internal/sched/scheduler/scheduler.go:229-326 | No job is decided twice in a cycle. |
| `Cycle.LegalIsHistory` | internal/sched/scheduler/scheduler.go:296-326 | Each dispatch of a cycle went to the best node of its moment. |
| `Cycle.BlockedAtEnd` | internal/sched/scheduler/scheduler.go:229-326 | A job set aside as blocked is still blocked on the nodes the cycle ends with. |
| `Cycle.Maximal` | internal/sched/scheduler/scheduler.go:198-400 | Once all jobs of eligible queues are decided, none that was neither dispatched nor refused by the server has a feasible node left. |
| `Cycle.Cycle.NoNode` | internal/sched/scheduler/scheduler.go:246-294 | A blocked job adds its demand to the event of its queue and ends the cycle exactly if its queue is not cloud-backed and strict ordering without backfill is on. |
| `Cycle.Cycle.Dispatch` | internal/sched/scheduler/scheduler.go:296-315 | An accepted job debits its node; a refused one changes no node. |
| `Cycle.Cycle.Decide` | internal/sched/scheduler/scheduler.go:229-326 | One job more is decided; it joins the blocked ones exactly if no node was found. |
| `Cycle.Cycle.Step` | internal/sched/scheduler/scheduler.go:229-326 | One turn of the loop keeps the fields equal to what the log of decisions says and shrinks the jobs that remain; it does not return only in round-robin mode, with jobs in an ineligible queue and none left to decide. |
| `Cycle.Cycle.Run` | internal/sched/scheduler/scheduler.go:198-400 | An unlimited cycle that is not strict decides every job and is maximal; a limited one starts at most the allowed number of jobs. A cycle that is not cut short does not return if and only if it is round-robin and an ineligible queue holds jobs, and it has then made all its decisions. |
| `JobIterator.JobIterator.NextInOrder` | internal/sched/scheduler/scheduler.go:627-668 | Modes "flat" and "by_queue": each remaining job once, in queue and job order, and none exactly when none remains. |
| `JobIterator.JobIterator.Visit` | internal/sched/scheduler/scheduler.go:590-612 | One visit of the round-robin loop reads at most one job of the queue in turn, exactly the next one. |
| `JobIterator.JobIterator.NextRoundRobin` | internal/sched/scheduler/scheduler.go:590-624 | Round-robin returns a remaining job that can run, or none only when none remains; it terminates unless it is stuck. |
| `JobIterator.JobIterator.RoundOrDone` | internal/sched/scheduler/scheduler.go:590-624 | If no job can be returned and an ineligible queue holds one, a round finds nothing, the end test fails and that is still so; otherwise a round that does not end the search has read a flagged job. |
| `JobIterator.JobIterator.NextWithin` | internal/sched/scheduler/scheduler.go:590-624 | Cut off after any number of calls of itself, round-robin has not returned if no job can be returned and an ineligible queue holds one; otherwise it has returned once the calls outnumber the jobs that remain. |
| `JobIterator.RouteQueueHangs` | internal/sched/scheduler/scheduler.go:590-624 | An iterator over one route queue with one job: no number of calls returns. |
| `JobIterator.JobIterator.Fair` | internal/sched/scheduler/scheduler.go:590-612 | The jobs taken from any two unexhausted eligible queues differ by at most one. |
| `JobIterator.JobIterator.Next` | internal/sched/scheduler/scheduler.go:578-587 | Every mode takes exactly the returned job out of the remaining ones, besides jobs that cannot run, so each job is returned once. |
| `JobOrder.SortSlice` | internal/sched/scheduler/scheduler.go:496-526 | The jobs are permuted in place into the order of the criterion; ties are left open. |
| `JobOrder.Separate` | internal/sched/scheduler/scheduler.go:530-540 | The two groups are the starving and the other jobs, each in its former order. |
| `JobOrder.SortJobs` | internal/sched/scheduler/scheduler.go:494-547 | A permutation in the order of the criterion; with starvation help all starving jobs precede all others and each group is in that order. |
| `JobOrder.ShapeOrder` | internal/sched/scheduler/scheduler.go:496-516 | Walltime and memory criteria: which of two jobs comes first. |
| `JobOrder.StandingOrder` | internal/sched/scheduler/scheduler.go:505-526 | Priority criteria and first-in-first-out: which of two jobs comes first. |
| `JobOrder.FairOrder` | internal/sched/scheduler/scheduler.go:517-521 | Fair share: the owner with the smaller usage comes first, an owner without usage counting as zero. |
| `JobOrder.ThoseOrdered` | internal/sched/scheduler/scheduler.go:530-540 | Separating keeps each group in order. |
| `JobOrder.ThosePartition` | internal/sched/scheduler/scheduler.go:530-543 | No job is lost or doubled by the separation. |
| `NodeState.WriteStateName` | internal/node/node.go:100-131 | The loop writes the names of the set flags, comma-separated in table order, or "free". |
| `NodeState.SchedulableIff` | internal/sched/scheduler/scheduler.go:710-726 | The reported node is taken for schedulable if and only if no flag is set, or job-exclusive is set and none of down, offline and busy. |
| `NodeState.DrainingSeenIff` | internal/node/node.go:110-118 | Drain and excl keep a node out if and only if job-exclusive is not set or a stronger flag is. |
| `NodeState.JobsReadWithSpace` | internal/sched/scheduler/scheduler.go:984-986 | A job list joined with ", " and split at "," keeps its length, and every id but the first gains a leading space. |
| `CloudPool.AlwaysTracked` | internal/cec/cec.go:338-680 | In every reachable pool idle timers run only for owned nodes and every booting VM has a stamp, whatever Ensure returns. |
| `CloudPool.ReachablePool` | internal/cec/cec.go:338-680 | In every reachable pool, given fresh ids: Provisioning, Owned and Hibernated are pairwise disjoint, Running is at most |Owned|, Inflight is at most |Provisioning| and lags by at most the number of stray sweeps, so they are equal if there was none. |
| `CloudPool.ScrapKeepsCountIff` | internal/cec/cec.go:653-680 | Destroying a VM keeps Inflight equal to the booting VMs if and only if it was booting or none was. |
| `CloudPool.BootKeepsIff` | internal/cec/cec.go:503-512 | A VM from Ensure keeps the sets apart and the count exact if and only if the pool was not tracking it. |
| `CloudPool.SweepMeetsRegistered` | internal/cec/cec.go:553-572 | A history in which the sweep destroys a VM that has registered, because its stamp stayed, and another VM loses its count. |
| `CloudPool.StaleIdBreaksCount` | internal/cec/cec.go:503-512 | A history in which a VM id returned twice takes Running past the owned nodes. |
| `CloudController.DesiredSize` | internal/cec/cec.go:406-415 | The target is never over max(MaxNodes, MinNodes) when MaxNodes is set, never under MinNodes, covers the demand where MaxNodes allows it and MaxNodes where it does not, and is over the demand only where it is MinNodes. |
| `CloudController.SettingsMerge` | internal/cec/cec.go:205-234 | An event without settings changes none, one with all replaces all, and the same event twice is as good as once. |
| `CloudController.AddNewExact` | internal/cec/cec.go:318-327 | The union of bound jobs keeps the first list as prefix, has exactly the jobs of both and no new repeats. |
| `CloudController.CoalescedCovers` | internal/cec/cec.go:301-334 | The merged event covers its first event and every waiting capacity event of the queue. |
| `CloudController.CoalescedIsOneOf` | internal/cec/cec.go:309-317 | The merged event asks for no more nodes than one of them does. |
| `CloudController.UpAllExact` | internal/cec/cec.go:553-572 | Exactly the booting VMs among the reported nodes become owned, each counted once however often it is listed. |
| `CloudController.ScrapAllExact` | internal/cec/cec.go:630-646 | Exactly the listed VMs whose reclaim succeeds go, with their stamps, each counted once. |
| `CloudController.SweepLeavesNoneOverdue` | internal/cec/cec.go:653-680 | After a sweep no VM is booting past its timeout, unless its reclaim failed. |
| `CloudController.SyncLeavesNoOrphan` | internal/cec/cec.go:614-647 | After the job sync no VM is bound to a job that is gone, unless its reclaim failed, and every other booting VM keeps its job. |
| `CloudSync.AliveJobs` | internal/sched/scheduler/scheduler.go:368-385 | The loops collect the ids of the queues and of the job lists as read, each once. |
| `CloudSync.VmSparedIff` | internal/cec/cec.go:614-647 | The booting VM of a job outlives the job sync if and only if its job is queued, first on the list of a node or dispatched in this cycle, or its reclaim fails. |
| `CloudSync.SparesLiveIff` | internal/sched/scheduler/scheduler.go:368-385 | The job sync spares the booting VM of every live job if and only if each live job with one is queued, first on the list of a node or dispatched in this cycle. |
| `CloudSync.SecondJobLosesVm` | internal/sched/scheduler/scheduler.go:368-385 | The second job on the list of a node runs, and the VM booting for it is taken for an orphan. |
| `CloudController.IdleAllExact` | internal/cec/cec.go:579-605 | Whatever the order of the visits: a visited node has a timer if and only if it is reported idle, staying idle keeps the starting time, newly idle starts now. |
| `CloudController.PickOldestIff` | internal/cec/cec.go:450-456 | The scan finds a VM suspended first in every order of iteration if and only if one with a non-empty id was, or it is alone. |
| `CloudController.ResumedAreOldest` | internal/cec/cec.go:448-472 | If all VMs have a name, every resumed one was suspended no later than any that is left hibernated. |
| `CloudController.ScaleOutBound` | internal/cec/cec.go:417-514 | A capacity event leaves Running alone and, if Ensure returns at most what it is asked for, does not take Running + Inflight past the target, hence not past max(MaxNodes, MinNodes); it reaches the target if Ensure returns all. |
| `CloudController.NoFlapping` | internal/cec/cec.go:422-445 | A pool that has scaled out does nothing on further capacity events until its cooldown is over. |
| `CloudController.NewVmsBoundInOrder` | internal/cec/cec.go:503-511 | The i-th new VM is bound to the i-th job of the event and stamped with its time; other booting VMs keep their jobs. |
| `CloudController.GenerousEnsureBreaksBound` | internal/cec/cec.go:482-512 | One VM too many from Ensure takes a pool of at most one to two. |
| `CloudController.RetireAllExact` | internal/cec/cec.go:276-291 | Exactly the candidates outside their drain interval that leave the server are given up, each counted once, and hibernated if that is the policy. |
| `CloudController.DrainRateLimit` | internal/cec/cec.go:279-290 | A reclaim that did not settle is not tried again before the drain timeout has passed; one that did leaves no trace. |
| `CloudController.FloorKeptIff` | internal/cec/cec.go:269-291 | A sweep keeps the pool at its floor if and only if no more nodes go than stand above it. |
| `CloudController.FloorCanBreak` | internal/cec/cec.go:269-291 | A pool of two with a floor of one that is reclaimed to zero in one sweep. |
| `CloudHandlers.CoalesceCapacityEvents` | internal/cec/cec.go:301-334 | The loop computes the merged event of which coverage and tightness are proved. |
| `CloudHandlers.Pool.RegisterNodesUp` | internal/cec/cec.go:553-572 | Moves the booting VMs among the nodes to owned, adds no stray and no stale id to the history. |
| `CloudHandlers.Pool.HandleNodeDown` | internal/cec/cec.go:529-538 | Running falls by one but not below zero; nothing else changes but the settings. |
| `CloudHandlers.Pool.RegisterNodesIdle` | internal/cec/cec.go:579-605 | Starts, keeps and clears idle timers of the owned nodes in some order; adds no stray and no stale id to the history. |
| `CloudHandlers.Pool.SyncQueuedJobs` | internal/cec/cec.go:614-647 | Destroys exactly the booting VMs bound to a job that is gone; never a stray. |
| `CloudHandlers.Pool.SweepProvisioningTimeout` | internal/cec/cec.go:653-680 | Destroys the VMs past their timeout; adds no stray if all of them are still booting. |
| `CloudHandlers.Pool.ReclaimNode` | internal/cec/cec.go:338-386 | One idle node is given up, deferred or kept, by the answers of the node controller. |
| `CloudHandlers.Pool.ReclaimIdle` | internal/cec/cec.go:260-292 | The sweep, then scale-in of all nodes idle long enough, only if the pool is above its floor; adds no stray if every VM past its timeout is still booting. |
| `CloudHandlers.Pool.Sound` | internal/cec/cec.go:338-680 | A pool whose history has only fresh ids has disjoint sets and right timers and counters, exact ones if there was no stray sweep. |
| `CloudHandlers.Pool.PickHibernated` | internal/cec/cec.go:450-456 | The scan over the hibernated VMs in some order, with "" standing for none found yet. |
| `CloudHandlers.Pool.ResumeHibernated` | internal/cec/cec.go:448-472 | Resumes as many VMs as are needed and there are, each the pick of those left, each bound to the next job. |
| `CloudHandlers.Pool.HandleCapacity` | internal/cec/cec.go:417-514 | Merges events, and unless cooling down or at the target resumes VMs and binds what Ensure returns; the history grows by exactly those moves. |
| `CloudHandlers.CapacityHistory` | internal/cec/cec.go:417-514 | A capacity event adds no stray, and no stale id unless Ensure returned a VM the pool knew or one twice. |
| `Lease.Store.TryAcquireLease` | internal/server/pgstore.go:271-291 | True exactly when the lease was free, expired or already ours, and the row is ours afterwards exactly then. |
| `Lease.HaServer.Tick` | internal/server/server.go:3503-3543 | After a tick without database error the flag says whether the row is ours; with one it stays as it was, though the row is changed if the upsert came before the error. |
| `Lease.InvAlways` | internal/server/pgstore.go:271-291 | In every state of every interleaving without stale late upserts a server inside its granted time still owns the row. |
| `Lease.InvKeptIff` | internal/server/pgstore.go:271-291 | Of all steps exactly the stale late upserts break the invariant: those of a given-up attempt that reach the row of their server after it was renewed. |
| `Lease.StaleUpsertBreaksLease` | internal/server/server.go:3503-3543 | A run in which such an upsert leaves two servers inside their leases. |
| `Lease.LeaseSafety` | internal/server/pgstore.go:271-291 | No two servers are ever both inside their last granted lease, with any number of servers, errors, crashes, restarts and late upserts that are not stale. |
| `Lease.TwoActiveMeansOverdue` | internal/server/server.go:3503-3543 | Two active servers at once mean that one of them is past its lease. |
| `Lease.ActiveIsInside` | internal/server/server.go:3503-3543 | In a run in which every active server renews before its lease ends or goes down, an active server is always inside its lease, whatever database errors it meets. |
| `Lease.OneActive` | internal/server/server.go:1153-1165 | In every state of such a run at most one server passes the RunJob gate. |
| `Lease.PunctualRunRenews` | internal/server/server.go:3503-3543 | Attempts that keep their timeout and follow each other within five seconds without errors renew in time. |
| `Lease.SilentTakeover` | internal/server/server.go:3503-3543 | An active server that falls silent past the expiry of the row and one attempt of another make both active. |
| `Lease.OverlapPossible` | internal/server/server.go:3503-3543 | A run with two active servers exists when renewals are late. |
| `DisCodec.DecodeNumber` | internal/dis/codec.go:50-97 | A number that is read leaves strictly less input. |
| `DisCodec.WireFormat` | internal/dis/codec.go:153-208 | The format by example: 0 is "+0", 12 is "2+12", -5 is "-5", "abc" is "+3abc". |
| `DisCodec.ReadChain` | internal/dis/codec.go:50-97 | From one digit on the reader works through the whole count chain, whatever follows it. |
| `DisCodec.UintRoundTrip` | internal/dis/codec.go:153-170 | Reading encode(v) + rest gives (v, rest) if and only if v is below 2^63; above, the reader rejects it. |
| `DisCodec.IntRoundTrip` | internal/dis/codec.go:173-195 | Every int64 comes back with the exact rest, the least one included. |
| `DisCodec.StringRoundTrip` | internal/dis/codec.go:199-208 | Every string comes back with the exact rest. |
| `DisCodec.UintPrefixFree` | internal/dis/codec.go:153-170 | No written unsigned number is a proper prefix of another. |
| `DisCodec.IntPrefixFree` | internal/dis/codec.go:173-195 | No written signed number is a proper prefix of another. |
| `DisCodec.LaxNumberAgrees` | internal/sched/dis/codec.go:86-122 | The scheduler reader gives the same number and rest on every input the strict reader accepts. |
| `DisCodec.LaxTakesColon` | internal/sched/dis/codec.go:100-116 | The agreement is one way: after "21:" the strict reader stops and the laxer one goes on with a count of twenty. |
| `DisStream.Reader.Disrsi` | internal/dis/codec.go:50-97 | The stream reader returns what the decoding function says and leaves exactly the remaining input. |
| `DisStream.Reader.ReadUint` | internal/dis/codec.go:100-109 | Takes from the stream the value that the round trip is proved of, and exactly its bytes; fails where that fails. |
| `DisStream.Reader.ReadInt` | internal/dis/codec.go:112-121 | Takes from the stream the value that the round trip is proved of, and exactly its bytes; the sign is applied with wrap-around. |
| `DisStream.Reader.ReadString` | internal/dis/codec.go:125-139 | Takes the length and then exactly that many bytes; fails at the end of the stream or on a length that cannot be allocated. |
| `DisStream.Writer.WriteNumber` | internal/dis/codec.go:153-170 | The prefix loop terminates and appends the number with its whole count chain. |
| `DisStream.Writer.WriteUint` | internal/dis/codec.go:153-170 | Appends exactly the encoding. |
| `DisStream.Writer.WriteInt` | internal/dis/codec.go:173-195 | Appends exactly the encoding, with the wrap-around of the least int64. |
| `DisStream.Writer.WriteString` | internal/dis/codec.go:199-208 | Appends exactly the encoding. |
| `DisMessage.CodecInverts` | internal/dis/codec.go:50-208 | The codec of either dialect reads back what the writer writes, for numbers and text. |
| `DisMessage.AttrRoundTrip` | internal/dis/message.go:159-241 | An attribute comes back if its operator is not negative; otherwise reading fails. |
| `DisMessage.AttrsRoundTrip` | internal/dis/message.go:159-241 | A list of any length comes back with the exact rest if and only if no operator is negative. |
| `DisMessage.AttrsExactRoundTrip` | internal/dis/message.go:159-241 | It comes back unchanged if and only if no operator is negative and an absent resource has no text. |
| `DisMessage.ReplyRoundTrip` | internal/dis/message.go:49-83 | A reply comes back with the exact rest if and only if its choice is not negative, its text exactly if the choice carries one. |
| `DisMessage.ExtendRoundTrip` | internal/dis/message.go:126-146 | A request extension of any length comes back. |
| `DisMessage.StatusReplyRoundTrip` | internal/dis/message.go:287-321 | A status reply with any number of objects comes back with the exact rest, if and only if no object kind and no operator is negative. |
| `DisMessage.LaxReaderAgrees` | internal/sched/dis/codec.go:86-122 | On every stream from which the strict reader takes an attribute list or a status reply, the laxer one takes the same and leaves the same input. |
| `DisMessage.StatusReplyOnTheWire` | internal/sched/client/client.go:233-288 | Either client reader takes from the wire the objects the server wrote and the exact rest, if and only if no kind or operator is negative. |
| `DisMessageStream.ReadSvrAttrl` | internal/dis/message.go:159-202 | The reading loop takes the whole list off the stream reader, field by field, and nothing more. |
| `DisMessageStream.ReadReply` | internal/dis/message.go:245-279 | Reads a reply off the stream reader exactly. |
| `DisMessageStream.ReadStatusReply` | internal/sched/client/client.go:233-288 | Reads all objects of a status reply off the stream reader exactly. |
| `DisMessageStream.ReadReqExtend` | internal/dis/message.go:137-146 | Reads the extension off the stream reader exactly. |
| `DisMessageStream.WriteSvrAttrl` | internal/dis/message.go:205-241 | The writing loop appends exactly the encoded list to the stream writer. |
| `DisMessageStream.WriteReply` | internal/dis/message.go:49-83 | Appends exactly the encoded reply to the stream writer. |
| `DisMessageStream.WriteStatusReply` | internal/dis/message.go:287-321 | Appends exactly the encoded objects to the stream writer. |
| `DisMessageStream.WriteReqExtend` | internal/dis/message.go:126-134 | Appends exactly the encoded extension to the stream writer. |
| `DisMessageStream.StatusReplyThrough` | internal/sched/client/client.go:233-288 | A status reply through the stream writer and either stream reader gives the client the objects as far as they are visible and leaves what follows, if and only if no kind and no operator is negative. |
| `DisMessageStream.ReplyThrough` | internal/dis/message.go:49-83 | A reply through the stream writer and either stream reader comes back, and what follows it is left, if and only if its choice is not negative. |
| `SlotLedger.AssignEachAt` | internal/server/server.go:3833-3837 | With distinct hosts each known one is assigned once and no other node changes. |
| `SlotLedger.ReleaseEachAt` | internal/server/server.go:4126-4134 | With distinct hosts each known one releases once and no other node changes. |
| `SlotLedger.NodeOverReleased` | internal/node/node.go:178-193 | Releasing a name that is not listed keeps a node right if and only if it lists no job. |
| `SlotLedger.NodeReleasedIff` | internal/node/node.go:178-193 | Releasing a listed job with any number of slots keeps a node right if and only if it is the number charged, or a larger one and no other job is listed. |
| `SlotSteps.StartKeepsLedgerIff` | internal/server/server.go:1216-1230 | Starting a job keeps every node listing exactly the jobs that run on it, with SlotsUsed the sum of their CPUs, if and only if it is charged its requested CPUs. |
| `SlotSteps.ObitKeepsLedgerIff` | internal/server/server.go:1634-1675 | An obituary keeps the ledger if and only if it names a running job in full, or every node the finished job ran on is empty. |
| `SlotSteps.DeleteKeepsLedgerIff` | internal/server/server.go:951-1002 | A delete keeps the ledger unless a running job with a known node is named in short. |
| `SlotSteps.RequeueKeepsLedgerIff` | internal/server/server.go:4096-4114 | Undoing a dispatch keeps the ledger if and only if the job runs on no other node, and on this one or this one is empty. |
| `SlotSteps.RerunKeepsLedgerIff` | internal/server/server.go:1486-1536 | A rerun, which releases the first node only, keeps the ledger unless the job runs on a further one. |
| `SlotSteps.NodeDownKeepsLedgerIff` | internal/server/server.go:4209-4254 | Requeueing the jobs of a dead node keeps the ledger if and only if none of them runs on another node as well. |
| `SlotSteps.NodeDownEmpties` | internal/server/server.go:4209-4254 | The dead node then lists no job and counts no slot, and its jobs are not running. |
| `SlotSteps.RewriteKeepsLedgerIff` | internal/server/server.go:3058-3165 | Rewriting a job record in any way keeps the ledger if and only if its hosts are distinct, it asks for a CPU, and on every known node it runs there after as before with the CPUs it had. |
| `SlotSteps.HoldKeepsLedgerIff` | internal/server/server.go:3090-3103 | Holding a running job, or making it wait, keeps the ledger if and only if no known node runs it. |
| `SlotSteps.ResizeJobKeepsLedgerIff` | internal/server/server.go:2579-2594 | Changing the CPUs of a job keeps used_cpus equal to SlotsUsed if and only if nothing changes or no node runs it. |
| `SlotSteps.EnrolKeepsLedgerIff` | internal/node/node.go:263-277 | Adding a node keeps the ledger if and only if the node is known or no running job names it. |
| `SlotRuns.SubmitKeepsLedgerIff` | internal/server/server.go:640-665 | A new job keeps the ledger if and only if it asks for a CPU and names no host twice. |
| `SlotRuns.KeptIffProper` | internal/server/server.go:4096-4254 | Over all requests, those of reconciliation and those that write only a job or a node record included: a request keeps the ledger if and only if it is proper. |
| `SlotRuns.LedgerAlways` | internal/node/node.go:169-193 | In every state of every run of proper requests each node lists exactly the jobs running on it and SlotsUsed equals the recomputed used_cpus. |
| `SlotRuns.FlagsKeptIff` | internal/server/server.go:3342-3344 | Every request keeps the flags except a new np that leaves a node with jobs no slot and finds it not job-exclusive, which breaks them. |
| `SlotRuns.FlagsAlways` | internal/node/node.go:169-193 | In every state of a run whose slot settings are safe, proper or not, a node without jobs is not job-exclusive and one with jobs and no slot left is. |
| `SlotRuns.RunJobUnderItsLimits` | internal/server/server.go:2997-3031 | Whatever ran before, a RunJob that is let through leaves the running jobs within each of max_running, max_user_run and max_group_run that counts it. |
| `SlotRuns.LimitsKeptIff` | internal/server/server.go:2997-3031 | A request keeps every limit if and only if it is no RunJob that the limits would stop and no alter that moves a running job to an owner or group without room. |
| `SlotRuns.LimitsAlways` | internal/server/server.go:2997-3031 | In every state of a run of requests with room the running jobs of all, of each user and of each group are within their limits. |
| `SlotFailures.RepeatedObituary` | internal/server/server.go:1634-1675 | A run in which a second obituary of a job takes the slots of the job that followed it. |
| `SlotFailures.DeleteByShortId` | internal/server/server.go:951-1002 | A run in which a delete by short id frees the slots of a job that stays listed and running. |
| `SlotFailures.RerunOfTwoNodes` | internal/server/server.go:1486-1536 | A run in which a rerun leaves the second node charged for a queued job. |
| `SlotFailures.NodeDownOfTwo` | internal/server/server.go:4209-4254 | A run in which the death of one of two nodes leaves the other charged for a queued job. |
| `SlotFailures.HoldOfRunningJob` | internal/server/server.go:3090-3095 | A run in which holding a running job leaves it listed on its node. |
| `SlotFailures.UndoOfTwoNodes` | internal/server/server.go:4096-4114 | A run in which an undone dispatch leaves the second node charged for a queued job. |
| `SlotFailures.ObituaryByShortId` | internal/server/server.go:1634-1675 | A run in which an obituary by short id frees the slots of a job that stays listed. |
| `SlotFailures.ReclaimOfSelectingJob` | internal/server/server.go:4406-4439 | A run in which a reclaim takes the slots of the other job of the node. |
| `SlotFailures.HostSubmittedTwice` | internal/server/server.go:640-665 | A submitted job that names a host twice. |
| `SlotFailures.SlotsSetToUse` | internal/server/server.go:3342-3344 | A run in which np set to the slots in use leaves a full node that is not job-exclusive. |
| `SlotFailures.OwnerAltered` | internal/server/server.go:3064-3065 | A run in which altering an owner takes a user over max_user_run. |
| `SlotServer.Server.GetJob` | internal/job/manager.go:84-107 | Finds a job by full id, by short id, or by a scan that ignores the case of the server name; none exactly if none of these matches. |
| `SlotServer.Server.CountRunning` | internal/job/manager.go:188-275 | The loop counts exactly the running jobs of everyone, a user or a group. |
| `SlotServer.Server.EnforceRunLimits` | internal/server/server.go:2997-3031 | True exactly if every limit that applies to the job leaves room for it. |
| `SlotServer.Server.SelectNodes` | internal/server/server.go:3807-3830 | The anchor and distinct free nodes with ppn slots; fewer than asked if and only if the anchor and all such nodes are fewer. |
| `SlotServer.Server.HandleRunJob` | internal/server/server.go:1153-1257 | Changes nothing or starts a queued job within the limits on the given node, charged its CPUs, or on nodeCount nodes, charged its ppn; each refusal names its reason: no such job, its state, a limit, the dependencies or the node. An accepted request starts the job unless no node is given or a multi-node job finds too few. |
| `SlotServer.Server.ReleaseNodeResources` | internal/server/server.go:4117-4135 | Each known host of the list releases the name once per mention. |
| `SlotServer.Server.HandleJobObit` | internal/server/server.go:1634-1708 | Makes exactly the change of an obituary, or none if no job is found. |
| `SlotServer.Server.HandleDeleteJob` | internal/server/server.go:951-1002 | Makes exactly the change of a delete, or none if no job is found. |
| `SlotServer.Server.HandleRerunJob` | internal/server/server.go:1486-1536 | Makes exactly the change of a rerun; an accepted job is queued and has no hosts. |
| `SlotServer.Server.RequeueNodeJobs` | internal/server/server.go:4209-4254 | Makes exactly the change of a node going down. |
| `SlotServer.Server.UndoJobDispatch` | internal/server/server.go:4096-4114 | Makes exactly the change of an undone dispatch. |
| `SlotServer.Server.HandleModifyJob` | internal/server/server.go:1067-1091 | Rewrites the job with all attributes applied in turn, or nothing if no job is found. |
| `JobAttrs.ApplyJobAttrs` | internal/server/server.go:3058-3165 | The loop applies owner, group, queue, hosts, hold, start time and resources in turn, by attribute name and value. |
| `JobAttrs.AlteredStartsNothing` | internal/server/server.go:3058-3165 | No list of attributes makes a job run that did not. |
| `JobAttrs.AlteredReflects` | internal/server/server.go:3058-3165 | After any list of attributes the CPUs, nodes and ppn of a job are still those its resources are read as. |
| `SlotServer.Server.HandleHoldJob` | internal/server/server.go:1005-1035 | Holds a queued or waiting job and leaves any other alone; keeps the ledger. |
| `SlotServer.Server.HandleReleaseJob` | internal/server/server.go:1038-1065 | Queues a held job and leaves any other alone; keeps the ledger. |
| `SlotServer.Server.ApplyNodeAttrs` | internal/server/server.go:3325-3365 | The loop makes of the node what its state and np attributes say, in a run of requests that touch only its slots and flags. |
| `NodeAttrs.QmgrKeepsRest` | internal/server/server.go:3325-3365 | No list of attributes touches jobs, used slots, the job-exclusive flag or a flag that is not the administrator's. |
| `NodeAttrs.FreeClears` | internal/server/server.go:3330-3341 | After "free", "resume" or "clear", whatever came before, exactly offline, drain and excl are cleared. |
| `SlotServer.Server.UpdateFromStatus` | internal/node/node.go:196-225 | The loop makes of the node what the items of a status report say, in a run of requests that touch only its slots and flags. |
| `NodeAttrs.UpdateKeepsAdmin` | internal/node/node.go:228-243 | No report changes offline, reserve, drain and excl, or the jobs and used slots. |
| `NodeAttrs.DownAfterIff` | internal/node/node.go:219-225 | A node is down after a report if and only if it is offline and was, or was reported, down. |
| `SlotServer.ReportedNodeIsNotFree` | internal/node/node.go:240-243 | After a report with a state a node with jobs is not free, however many slots it has left. |
| `NodeRequest.ParseNodeSelectSpec` | internal/server/server.go:3763-3783 | The loop reads nodes and ppn, both at least one, from the first chunk, a later ppn replacing an earlier. |
| `NodeRequest.SpecRoundTrip` | internal/server/server.go:3763-3783 | "N:ppn=M" is read as N nodes with M processors each, for all N and M. |
| `NodeRequest.ChargedIsReleasedIff` | internal/server/server.go:2632-2648 | RunJob charges what the other releases release, and what a reclaim releases, if and only if the job does not ask through select alone with another ppn than its ncpus; for several nodes the first, for one node the second fails. |
| `NodeRequest.SelectIsNotReleased` | internal/server/server.go:2632-2648 | select=2:ppn=4 is charged four slots on each node, of which one is released. |
| `NodeRequest.SelectIsReclaimedFourfold` | internal/server/server.go:4412-4415 | select=1:ppn=4 is charged one slot, and a reclaim releases four. |
| `NodeRequest.ExecHostRoundTrip` | internal/server/server.go:3828-3832 | Reading exec_host gives back the nodes written into it. |
| `Recovery.RestoreIdempotent` | internal/server/server.go:4331-4364 | Restoring the recovered jobs a second time, in whatever order, changes nothing. |
| `Recovery.RestoreThenRequeue` | internal/server/server.go:4406-4439 | Restoring and then requeueing, each in any order, gives every node its job list back, and its used slots if and only if it had none or no job names it twice. |
| `Recovery.TwiceNamedNode` | internal/server/server.go:4406-4439 | A job that names its node twice gives its slots back twice. |
| `Recovery.RestoreGivesLedgerIff` | internal/server/server.go:4331-4364 | A server that starts with empty nodes and restores its running jobs, in any order, has the slot ledger again if and only if every job asks for a CPU and names no node twice and, on each node, the slots taken add up to the CPUs asked for. |
| `Recovery.RestoreGivesLedger` | internal/server/server.go:4331-4364 | In particular it has when each restored job is charged what it asks for. |
| `Recovery.RequeueKeepsLedgerIff` | internal/server/server.go:4406-4439 | Requeueing a job its MOM does not know keeps the ledger if and only if on each node its ppn is what it was charged, or more and it is alone there. |
| `SlotServer.ReconcileIsRun` | internal/server/server.go:4373-4401 | Reconciling is a run of requests, one for each job refuted when it is visited. |
| `Recovery.ReconcileExact` | internal/server/server.go:4373-4401 | A visited job is requeued if and only if its first host is known, its MOM answered and did not list it; no other job changes. |
| `Recovery.LiveJobStays` | internal/server/server.go:4373-4401 | A job whose MOM is silent or lists it stays running on its hosts. |
| `SlotServer.Server.RestoreRecoveredRunningJobs` | internal/server/server.go:4331-4364 | The two loops restore the jobs in some order. |
| `SlotServer.Server.RequeueRecoveredJob` | internal/server/server.go:4406-4439 | Releases every host and queues the job. |
| `SlotServer.Server.ReconcileRunningJobsWithMOMs` | internal/server/server.go:4373-4401 | The loop reconciles the jobs in some order and returns how many have a silent MOM. |
| `Admission.CheckResourceInterval` | internal/server/route.go:133-160 | True exactly if each requested resource is within the interval of the queue; empty limits and negative maxima do not restrict. |
| `Admission.WalltimeIsRead` | internal/server/route.go:193-208 | "HH:MM:SS" is read as that many seconds, up to the range of int64. |
| `Admission.MemIsRead` | internal/server/route.go:211-229 | A size in kb, mb, gb or tb is read in KB, up to the range of int64. |
| `Admission.AclIsItsEntries` | internal/server/server.go:3035-3046 | Joining and splitting an access list without commas loses nothing: a user is in it exactly if an entry matches. |
| `Admission.PendingIsSum` | internal/server/route.go:90-97 | The three counts of the gate count each pending job of the queue exactly once. |
| `Admission.NoFailureMeansAdmitted` | internal/server/route.go:54-128 | The gate lets a job in if and only if none of its twelve checks fails. |
| `Admission.CommitWithinLimit` | internal/server/server.go:798-803 | A committed job leaves its queue within max_queuable, and after a direct submission one place short of it. |
| `Admission.CommitKeepsOthersWithin` | internal/server/server.go:798-826 | A commit takes no queue over max_queuable that was not over it. |
| `Admission.RejectionAddsNothing` | internal/server/server.go:904-910 | A rejected and removed job leaves every other job as it was and no count higher. |
| `Admission.DirectAcceptedIff` | internal/server/route.go:90-110 | A direct submission passes if and only if the job suits the queue, the other running jobs leave room for one and the other pending ones for two. |
| `Admission.DirectNeedsTwoPlaces` | internal/server/server.go:798-803 | A queue with max_queuable 1 takes no direct submission. |
| `JobSubmission.JobManager.CountByStateInQueue` | internal/job/manager.go:280-296 | The loop counts exactly the jobs of the queue in the given states. |
| `JobSubmission.JobManager.CountByOwnerInQueue` | internal/job/manager.go:300-328 | The loop counts exactly the jobs of the user in the queue in the given states. |
| `JobSubmission.JobManager.AdmitToQueue` | internal/server/route.go:54-128 | Names the first check that fails, in the order of the gate; none exactly if the job may enter. |
| `JobSubmission.JobManager.RouteJob` | internal/server/route.go:23-48 | The first destination in order that exists and accepts the job; an error exactly if none does. |
| `JobSubmission.JobManager.FinalizeRoute` | internal/server/route.go:235-251 | The queue the job ends up in, rejected exactly if no destination or not its own queue accepts it. |
| `JobSubmission.JobManager.CommitJobInstance` | internal/server/server.go:798-826 | The job is queued before the gate counts, and ends held, waiting or queued in its final queue. |
| `JobSubmission.JobManager.HandleCommit` | internal/server/server.go:877-914 | An array is expanded or, if refused, leaves no task; any other job is committed. What is refused is removed under the name the client used, so a refused single job is gone if and only if it was named in full, and under a short name stays queued. It does not return if and only if an array loop never ends. |
| `JobSubmission.RefusalNamed` | internal/server/server.go:904-910 | Removing a refused job by the name it was found under removes it, and nothing else, if and only if that is its id. |
| `JobSubmission.RefusedUnderShortName` | internal/server/server.go:904-910 | A job refused by a disabled queue and committed under its short id stays in the table, queued. |
| `JobSubmission.JobManager.ProcessJobArray` | internal/server/server.go:832-873 | On success the master is replaced by one task per index its specification gives; if any task is rejected none is left and every other job is as it was; a bad specification changes nothing, and one with a loop that never ends does not return and has changed nothing. |
| `JobSubmission.ExpansionExact` | internal/server/server.go:832-873 | An expansion adds exactly the tasks, each in a known queue, removes exactly the master and changes no other job. |
| `JobSubmission.ExpansionWithinLimits` | internal/server/server.go:832-873 | An expansion takes no queue over max_queuable. |
| `JobArray.PartsAreReadAsWritten` | internal/server/server.go:777-790 | "lo", "lo-hi" and "lo-hi:step" are read as written, for all int64 values. |
| `JobArray.AddRange` | internal/server/server.go:757-770 | Appends exactly the values its loop visits that are not in the list yet; it does not return if and only if that loop, with a counter that wraps at 2^63, never ends. |
| `JobArray.TopOfRangeWraps` | internal/server/server.go:764-769 | A range that ends at the greatest int64 makes the counter wrap and the loop never end. |
| `Int64Loop.EndsIff` | internal/server/server.go:764-769 | A loop with a wrapping int64 counter ends if and only if the greatest int64 that differs from its start by a multiple of the power of two in its step is above its bound. |
| `JobArray.CollectsAskedIff` | internal/server/server.go:757-770 | What a loop that ends has visited is the requested progression if and only if its counter does not wrap. |
| `JobArray.LongStepWraps` | internal/server/server.go:764-769 | The loop of 5-10:9223372036854775807 ends after seven values, six of which were not asked for. |
| `JobArray.GathersWhatIsAsked` | internal/server/server.go:757-770 | Pieces whose counters do not wrap give exactly the indices they ask for. |
| `JobArray.ParseArraySpec` | internal/server/server.go:754-793 | Fails exactly if the first piece that is not fine does not start with a number, does not return exactly if that piece is a range whose loop never ends; otherwise the indices are strictly increasing and exactly those the loops visit. |
| `JobArray.TaskIdsDiffer` | internal/server/server.go:847-856 | Different indices give different task ids. |
| `JobArray.TaskIsNotMaster` | internal/server/server.go:847-856 | No task has the id of the master. |
| `Cost.CountAllAt` | internal/cost/cost.go:50-57 | Per node and account, per node, and in all, the tallies are the sums of the usages. |
| `Cost.SumInAnyOrder` | internal/cost/cost.go:74-78 | The sum over a map does not depend on the order of iteration. |
| `Cost.BillIsSharedOut` | internal/cost/cost.go:74-78 | The shares of one bill add up to the bill, for accounts and for the node. |
| `Cost.Conservation` | internal/cost/cost.go:46-81 | Account charges plus overhead equal the sum of all bills, repeated bills and merged accounts included; overhead is what nodes without usage are billed. |
| `Cost.NodeConservation` | internal/cost/cost.go:70-78 | The shares shown for a node add up to what the node was billed. |
| `Cost.ShareIsExact` | internal/cost/cost.go:74-78 | On each node an account gets the bills of the node times its part of the core-seconds. |
| `Cost.ChargeIsExact` | internal/cost/cost.go:74-88 | Each account is charged the sum of its parts of all bills, "(unknown)" also the part of usage without an account. |
| `Cost.Allocate` | internal/cost/cost.go:46-81 | The loops compute that allocation for some order of the accounts, and charges, overhead and core-seconds are conserved. |
| `CostRecords.NodesFromExecHost` | internal/cost/parse.go:67-85 | The hosts without empty ones, never an empty list. |
| `CostRecords.WordsOfJoin` | internal/cost/parse.go:89-97 | Words joined with single spaces are found again. |
| `CostRecords.ParseKeyValues` | internal/cost/parse.go:89-97 | The loop gives the map of the words with a key, later values replacing earlier ones. |
| `CostRecords.EndRecordIsRead` | internal/acct/acct.go:130-152 | Every field of an E record, as the accounting log writes it, is read as the last value given for its key. |
| `CostRecords.RecordReadIffPlain` | internal/acct/acct.go:130-152 | All fields of an E record are read as written if and only if no value holds white space or a semicolon. |
| `CostRecords.NamedLikeAnAccount` | internal/acct/acct.go:130-152 | A job named "x account=y" without an account is charged to y. |
| `CostRecords.AddRecord` | internal/cost/parse.go:52-58 | Appends one usage for each node named, each with an equal part of the core-seconds. |
| `CostRecords.ParseAccounting` | internal/cost/parse.go:22-64 | The loop returns the usages of the E records of the file, in order. |
| `CostRecords.RecordAddsUp` | internal/cost/parse.go:52-58 | The parts of a record add up to its core-seconds, and each node has one part for each time it is named. |
| `CostRecords.UsagesKeepTotal` | internal/cost/parse.go:22-64 | The core-seconds of all records that count are preserved. |
| `JobFile.AssignIsEffect` | internal/server/server.go:5556-5602 | Reading the key and value of a written line sets exactly the field it was written for. |
| `JobFile.ReadBack` | internal/server/server.go:5544-5605 | Reading written text has the effect of its lines, one after the other. |
| `JobFile.JobRoundTrip` | internal/server/server.go:5494-5605 | Every field with a case comes back, times to the second, and the whole resource map of any size; a creation time that was never set comes back as now, and the paths of stdout and stderr are lost. |
| `JobFile.JobRestoredIff` | internal/server/server.go:5494-5605 | A job whose two paths have no newline comes back if and only if no other text has a newline or ends in white space and no resource name holds "=" or a newline. |
| `JobFile.TextSurvivesIff` | internal/server/server.go:5551-5555 | A text without newlines comes back as it was if and only if it does not end in white space. |
| `JobFile.SerializeJob` | internal/server/server.go:5494-5539 | The loop writes the lines of the job, with the resources sorted by name. |
| `StringOrder.ListedOneWay` | internal/server/server.go:5524-5528 | There is only one way to list a set of names in order. |
| `JobFile.OneText` | internal/server/server.go:5524-5531 | A job has one text, in whatever order its resource map is walked. |
| `JobFile.DeserializeJob` | internal/server/server.go:5544-5605 | The loop assigns the lines of the text in turn. |
| `JobFile.SaveAndLoad` | internal/server/server.go:5494-5605 | Writing a job and reading it into a new one restores it. |

## Left out

- The controller's map of pools: pools share no state, so each is modelled alone; the event channel is a list of waiting events.
- `CloudHandlers.Pool.HandleCapacity`: Inflight is raised per VM here and in one go in the code; the lock hides the difference.
- `CloudHandlers.Pool.RegisterNodesIdle`, `CloudHandlers.Pool.SyncQueuedJobs` and the other loops over maps: the order is some enumeration, as in Go.
- `JobOrder.SortSlice`: ties may come in any order, as `sort.Slice` leaves them.
- `Lease.OneActive`: assumes that active servers renew in time; without it the property fails, as `Lease.OverlapPossible` shows.
- `Lease.LeaseSafety`: assumes that no stale late upsert reaches the row; with one it fails, as `Lease.StaleUpsertBreaksLease` shows.
- `SlotServer.Server.HandleJobObit` and `SlotServer.Server.HandleDeleteJob`: job ids carry no surrounding white space, as the server makes them.
- `CostRecords.ParseAccounting`: reading a float is a parameter, and the file is its list of lines; a read error or a line too long for the scanner is not modelled.
- The queue counters, accounting records, persistence calls and dependency resolution inside the job handlers: they do not touch the ledger.
- `SlotServer.Server.HandleModifyJob` and `SlotServer.Server.ApplyNodeAttrs`: attributes that the slot ledger does not hold change nothing here.
- `TwoViews.ViewsAgreeIff`: a dispatch that the server undoes later is not followed.
- `JobFile.JobRestoredIff`: a stdout or stderr path with a newline in it is not covered.
- `CloudSync.VmSparedIff` and `CloudSync.SparesLiveIff`: job ids hold no comma and start with no space, as the server makes them.
- Fair-share decay, the attribute switches of server and MOM, the Azure driver, token code, the MOM executor, command-line front ends and the other copies of the codec: mostly input and output, or assignments of one attribute each.
- Case folding covers ASCII letters only.
