# Verified models of S3F and its METIS partitioner

S3F is a parallel discrete-event simulator; its distribution contains the METIS graph partitioner and the DML
configuration library. This project models the parts of them that keep intricate state consistent, and proves
what they promise. `dafny verify dfyconfig.toml` checks everything.

**The conservative window protocol** (`Topology`, `Simulator`, `Windows`, `Deliveries`, `Equivalence`,
`Progress`). Timelines drain the events other timelines left for them, reduce a window edge, run everything below it, and synchronise. A
transition is one action of one timeline, so a run is any interleaving of any number of timelines. Handlers are
arbitrary deterministic functions, and a timeline may execute any of its least events. Over all runs, `Windows` proves
that no write is refused, nothing lands before a clock, timestamps never decrease, somebody can go on until the epoch is
over, and then it is exhausted. `Deliveries` counts what every executed event gives to every timeline.
`Equivalence` adds that between windows every interleaving is in the configuration that a simulator with a single
global event list reaches: same states, same executed events in the same order, same pending events. There, executed
events do not tie with others on time and priority, because the source leaves the order of ties open. `Progress`
proves that edges never decrease, and exactly when they grow: a timeline without outgoing crossings offers the time of
its next event itself, and if that event is at the last edge, the next window is empty, and so is every one after it.
If that does not happen, an epoch has boundedly many windows.

**The composite protocol** (`Appointments`, `Composite`, `Overtaking`). Channels below a threshold are asynchronous: pairs
of timelines exchange events inside a window by appointments. Proved over all runs: no write is refused, nothing is
delivered into the past, appointments are kept, waiting is acyclic, and somebody can always go on. Between windows
the result is again that of the sequential simulator, on the condition that what a timeline executes does not tie with
or follow what arrives at the same instant; `Overtaking` is a run that breaks the condition and is not sequential.

**The barriers** (`MutexBarrier`, `TreeBarrier`) under those protocols, as interleaved atomic steps.

**The partitioner**. `Graphs` defines degrees, cuts and weights from scratch, independently of any list order.
`Matching`, `BucketSort`, `Contraction` and `Coarsen` are the coarsening phase: the matchers, the counting sort, and
the coarsener, which is proved to preserve the meaning of every partition. `Bisection` is two-way refinement with
rollback, and the two balancers; `KWayTables`, `KWayChoice` and `KWayRefine` are k-way edge refinement and
balancing; `KWayProject` shows that the shortcut projection is the same as computing from scratch. `Volume`, `VolumeTables`, `VolumeRefine` and
`VolumeParams` are communication-volume refinement: the gains are the change of the volume, the records are computed
from scratch, and their incremental update agrees with the definition. For each matcher, refiner and balancer it is
proved not only what it keeps but which vertex it takes, where that goes, and why it stops. `Compress` merges identical
vertices; with keys that collide it can miss some, and `Compress` says exactly when. `Boundary`, `PriorityQueue`,
`Ratios` and `Finite` are shared.
Graphs are symmetric, simple, loop-free and positively weighted. Priority queues are maps with a largest-key pick;
random permutations, the order of the sort in Compress, and the bounds computed in floating point are parameters.

**DML** (`Dml`). Expansion of `_extends` and `_find` links, the cycle detector, and the searches that terminate only
because of it. The source never takes back the flag of a link it has followed; that is harmless, because no link
leads to a link. Wildcard matching is a parameter.

## Model

| member | source | states |
|---|---|---|
| Topology.ChannelMinDelay | full/api/outchannel.cc:512-537 | the loop over the mappings of an out-channel returns the least crossing delay that is at least the threshold, or -1 exactly when there is none |
| Topology.EntityMinDelay | full/api/entity.cc:289-316 | the loop over out-channels returns the least such delay over the flat set of all crossings of the entity |
| Topology.TimelineMinDelay | full/api/timeline.cc:1429-1454 | the loop over entities returns the least such delay over the flat set of all crossings of the timeline: the three nested minima are one flat minimum |
| Topology.InitModel | full/api/interface.cc:206-231 | the window threshold is 0, or in composite mode the number of timelines times the least crossing delay of the model; every timeline gets its least crossing delay from the threshold up |
| Topology.Lookaheads | full/api/timeline.cc:1511-1553 | the loops over entities, out-channels and mappings give, for every other timeline, the least delay of all mappings that lead there, or -1 exactly when there is none |
| Topology.MapTo | full/api/outchannel.cc:186-257 | a mapping is refused exactly when it crosses without any delay or the in-channel is mapped, or waits to be mapped, with another delay; a new one is made at once, or while the timeline runs waits until the horizon; with all that wait, the channel maps every in-channel once and all its crossings take time |
| Topology.CrossingsPositive | full/api/outchannel.cc:186-192 | so in a model built from such channels every crossing delay is positive |
| Simulator.PostBound | full/api/outchannel.cc:90-151 | whatever a handler schedules: local events are not in the past, and an event for another timeline takes at least the delay of some crossing |
| Deliveries.PostedIsGained | full/api/outchannel.cc:90-151 | the posts of a handler hold, for every timeline and event, one copy for each pair of a write and a mapping of its channel to that timeline whose delays add up to the time of the event, and on the own timeline one for each local action |
| Deliveries.StepDelivers | full/api/outchannel.cc:90-151 | so a step of the abstract simulator takes the executed event and gives every timeline exactly that |
| Simulator.MinStable | full/api/timeline.cc:1239-1299 | events at or above a bound do not change which event below the bound is next |
| Simulator.PostsToOthers | full/api/timeline.cc:156-221 | below a safe bound, what one timeline posts to another when it executes any least event lies at or above the bound |
| Simulator.StepSafe | full/api/timeline.cc:814-830 | executing any least event below a safe bound keeps the bound safe |
| Simulator.Commute | full/api/timeline.cc:814-830 | two timelines neither of which sends the other anything that comes before its next event may execute them in either order and reach the same configuration |
| Simulator.Extract | full/api/timeline.cc:814-830 | in any order of execution that exhausts a time bound, and in which nothing is sent that comes before what its destination has executed, a timeline with an earliest event may be moved to the front without changing where the order ends |
| Simulator.SequentialReaches | full/api/timeline.cc:814-830 | every run of a simulator with one global event list, as long as such an order, ends in the same configuration |
| Simulator.SequentialExists | full/api/timeline.cc:814-830 | and there is such a run |
| Simulator.SequentialSplit | full/api/timeline.cc:814-830 | a sequential run can be cut anywhere into two sequential runs, and ends where the second one ends |
| Simulator.SequentialAppend | full/api/timeline.cc:814-830 | and two that fit together can be joined |
| Simulator.OrderlyIsSequential | full/api/timeline.cc:634-777 | a sequential run extended by such an order is a sequential run, and all of that length end in the same configuration |
| Windows.NextIsLeast | full/api/timeline.cc:242-248 | the event selected from the tops of the two queues is the least of both queues together, and next_time is its time |
| Windows.SelectedIsLeast | full/api/timeline.cc:1239-1299 | whatever event a tie-break takes is a least event of both queues together, of time next_time, and from the queue the code looks at |
| Windows.KeepSplits | full/api/timeline.cc:1315-1344 | draining the window list into the two queues keeps every event |
| Windows.AcceptedIsTo | full/api/outchannel.cc:111-139 | if no crossing write is below the horizon, the targets get everything that was posted |
| Windows.NoWriteRefused | full/api/outchannel.cc:111-139 | in a window every crossing write of the executed event is at or above the horizon, so none is refused |
| Windows.OfferBound | full/api/timeline.cc:654-700 | an offer is above the clock of the timeline, and at most the time plus the delay of any crossing of its events |
| Windows.OfferExact | full/api/timeline.cc:654-700 | a timeline without events offers nothing; with a crossing it offers exactly the earliest time at which one of its events can reach another timeline; without, the time of its next event unless that is its clock |
| Windows.EdgeIsSafe | full/api/timeline.cc:690-727 | the reduced minimum of the offers, cut at the end of the epoch, is a bound below which no event can cause an arrival on another timeline |
| Windows.WorkIsStep | full/api/timeline.cc:814-830 | one iteration of the event loop, with events spread over two queues and a window list, executes a least event of the abstract configuration, and every post arrives |
| Windows.DrainKeeps | full/api/timeline.cc:641-717 | draining and arriving at the bottom barrier, first, middle or last, keeps the invariant |
| Windows.EnterKeeps | full/api/timeline.cc:719-738 | reading the reduced value and entering the window keeps the invariant |
| Windows.WorkKeeps | full/api/timeline.cc:814-830 | executing any least event, tied or not, keeps the invariant |
| Windows.FinishKeeps | full/api/timeline.cc:1229-1230 | finishing a window before the others keeps the invariant |
| Windows.LastFinish | full/api/timeline.cc:741-776 | when the last timeline finishes, nothing below the edge is pending anywhere, and the next window starts from the same configuration |
| Windows.NextKeeps | full/api/timeline.cc:634-777 | every transition of every timeline keeps the invariant |
| Windows.RunInv | full/api/timeline.cc:634-777 | the invariant holds in every state of every interleaving, however ties are broken |
| Windows.EpochIsComplete | full/api/timeline.cc:775-776 | when the epoch is over, in any run, nothing before its end is left on any timeline |
| Windows.SomeTimelineCanStep | full/api/timeline.cc:634-777 | until the epoch is over, in every reachable state some timeline can take a step |
| Windows.WindowSafety | full/api/outchannel.cc:117-138 | with window size 0, in every reachable state of every run nothing pending or buffered for a timeline is before its clock, executed timestamps never decrease, and whichever least event comes next, its writes to other timelines are at or above the horizon |
| Deliveries.WindowDelivers | full/api/outchannel.cc:90-151 | in every reachable state of every run, one iteration of the event loop executes one event, sets clock, state and trace of its timeline, and every timeline gains exactly one copy of an event for each write and mapping, or local action, that leads to it, and nothing else changes |
| Equivalence.WorkIsExec | full/api/timeline.cc:814-830 | when the next event is not tied, one iteration of the event loop is the step of the abstract simulator |
| Equivalence.ParallelEqualsSequential | full/api/timeline.cc:634-777 | between windows and at the end of the epoch, in every interleaving of any number of timelines whose executed events were not tied, the application states, the executed events in order and the pending events are those of every sequential run of some length |
| Progress.MinIsOfferAlways | full/aux/barrier_mutex.cc:90-104 | the running minimum of the barrier is one of the offers made since the last release |
| Progress.ReductionIsOffer | full/api/timeline.cc:708-717 | so is the reduced value |
| Progress.ReductionIsRoundMin | full/api/timeline.cc:708-717 | the reduced value of a window is the minimum of one offer per timeline, as a round of the barrier computes it |
| Progress.OfferFrom | full/api/timeline.cc:658-700 | after a window that ended at an edge, an offer equals that edge exactly when the timeline has no crossing and its next event is at the edge |
| Progress.WindowProgress | full/api/timeline.cc:654-738 | for two successive windows of any run, the second edge is at least the first, and larger if and only if no timeline without a crossing has its next event at the first |
| Progress.EpochTerminates | full/api/timeline.cc:634-777 | if that never happens in a run, its edges strictly increase, and an epoch has at most as many windows as ticks |
| Progress.CrossingsTerminate | full/api/timeline.cc:634-777 | in particular if every timeline has a crossing |
| Progress.BlockedStalls | full/api/timeline.cc:658-664 | if it happens, the run is stalled from there on |
| Progress.StallIsForever | full/api/timeline.cc:658-664 | a stalled run stays stalled, whatever the interleaving: no timeline ever executes another event |
| Progress.NoProgressIsForever | full/api/timeline.cc:658-664 | so if two successive windows of a run have the same edge, no continuation ever executes another event |
| Progress.StallExample | full/api/timeline.cc:658-664 | a model with two timelines, no channels and one event that stalls at once |
| MutexBarrier.Reachable | full/aux/barrier_mutex.cc:80-144 | the invariant of the barrier holds in every state of every interleaving |
| MutexBarrier.BarrierCorrect | full/aux/barrier_mutex.cc:80-144 | every completed round collected exactly one offer from each thread and handed out -1 exactly once; a thread that has not entered again reads the least non-negative offer of that round, or -1 |
| MutexBarrier.NoConfusedRounds | full/aux/barrier_mutex.cc:90-130 | a sleeping thread can wake exactly when its round is complete, and lags behind by at most that round |
| MutexBarrier.NoDeadlock | full/aux/barrier_mutex.cc:95-130 | when all threads are inside, one can wake |
| TreeBarrier.Reachable | full/aux/fast_tree_barrier.cc:124-190 | the invariant of the barrier holds in every state of every interleaving, for any number of threads and rounds |
| TreeBarrier.RootBetween | full/aux/fast_tree_barrier.cc:136-166 | passes are ordered below the root by the release tree, arrivals above it by the arrival tree |
| TreeBarrier.UnclearedBounds | full/aux/fast_tree_barrier.cc:72-77 | the arrivals a node has not cleared are between zero and what it expects |
| TreeBarrier.NobodyLeavesEarly | full/aux/fast_tree_barrier.cc:124-190 | no thread gets past a round that some thread has not entered |
| TreeBarrier.NoArrivalLost | full/aux/fast_tree_barrier.cc:136-148 | the arrival count never exceeds what is expected, and the reset happens only when it is full, so no increment is lost |
| TreeBarrier.SenseMeansRound | full/aux/fast_tree_barrier.cc:162-163 | a waiting thread sees its sense exactly when it was released in its own round |
| TreeBarrier.NoDeadlock | full/aux/fast_tree_barrier.cc:124-190 | in every reachable state some thread can take a step |
| TreeBarrier.ReleaseReaches | full/aux/fast_tree_barrier.cc:177-182 | while a thread lags behind the root, some thread on the path to it can take a step |
| Appointments.LookDecides | full/api/timeline.cc:1558-1590 | appointments are made for exactly the pairs of timelines with a channel faster than the threshold, with the least delay of the pair as lookahead |
| Appointments.EdgeBounds | full/api/timeline.cc:654-727 | the edge of the next window is not before the last one, and at most the next event of any timeline, appointments included, plus its least synchronous delay |
| Appointments.EdgeExact | full/api/timeline.cc:654-727 | it is exactly the least of the end of the epoch and of what the timelines allow: the earliest delivery by a synchronous channel or, without such a channel or without events, the length of a window past the next event or the clock |
| Appointments.Reachable | full/api/timeline.cc:952-1082 | the invariant of the composite protocol holds in every state of every interleaving, although the check of an appointment and its later reading for the next wait are separate unlocked steps |
| Appointments.NothingInThePast | full/api/timeline.cc:1058-1080 | no event on the list, in the window list, or in a box is before the clock of its timeline, and executed timestamps never decrease |
| Appointments.NoWriteRefused | full/api/outchannel.cc:111-139 | in composite mode too, whatever event a timeline executes next, a write on a synchronous channel lands at or above the horizon, and a write that lands below it finds an appointment of the pair |
| Appointments.AppointmentsAreKept | full/api/timeline.cc:966-969 | whatever a timeline still sends arrives at or after the appointment it has published |
| Appointments.BlockedOnDecreases | full/api/timeline.cc:1010-1030 | the clocks along the blocked-on relation strictly decrease, so it has no cycle, and nobody waits for a timeline that has finished the window |
| Appointments.SomeoneFree | full/api/timeline.cc:1010-1030 | following it ends at a timeline inside the window that is not blocked |
| Appointments.SomeTimelineCanStep | full/api/timeline.cc:984-1056 | in every reachable state some transition is possible |
| Composite.WorkIsStep | full/api/timeline.cc:156-221 | one iteration of the event loop executes a pending event of the abstract configuration, and every post arrives, in a window list or in a box |
| Deliveries.CompositeDelivers | full/api/outchannel.cc:90-151 | in every reachable state of every composite run, event list, window list and boxes together gain exactly one copy of an event for each write and mapping, or local action, that leads to the timeline |
| Composite.CompositeEqualsSequential | full/api/timeline.cc:634-777 | between windows, in every interleaving of windows and appointments in which what a timeline executes does not tie with or follow what arrives at the same instant, the application states, the executed events in order and the pending events are those of every sequential run of some length |
| Overtaking.OvertakenExample | full/api/timeline.cc:984-1080 | a run without ties that no sequential run matches: a timeline executes an event, and then an arrival at the same instant that comes before it is left in its box |
| Graphs.MoveCut | full/metis/debug.c:33-40 | moving a vertex to a part changes the cut by its internal weight minus its weight to the part |
| Graphs.MovePartWeight | full/metis/macros.h:41-45 | and moves its weight from one part to the other |
| Graphs.CutIsEven | full/metis/debug.c:20-43 | every cut edge is counted twice, so halving is exact |
| Volume.GainIsVolumeChange | full/metis/kwayvolrefine.c:233-297 | for every vertex and adjacent part, the accumulated gain plus the saving of the vertex itself is the volume before minus the volume after the move |
| Volume.MoveVolume | full/metis/kwayvolrefine.c:244-283 | the change of the volume is the sum of what the moved vertex and each neighbour contribute |
| Volume.ComputeVolume | full/metis/kwayvolfm.c:1180-1210 | the marker loop computes the volume as defined from scratch |
| VolumeTables.TableVolume | full/metis/kwayvolrefine.c:242-242 | the size of a vertex times the entries of its table is its share of the volume |
| VolumeTables.DropChange | full/metis/kwayvolfm.c:909-957 | what losing an edge to a part does to every gain that depends on the table |
| VolumeTables.AddChange | full/metis/kwayvolfm.c:959-1011 | what gaining an edge to a part does to them |
| VolumeTables.DropKeeps | full/metis/kwayvolfm.c:909-957 | dropping the edge and shifting the stored gains around it keeps all stored gains equal to what the tables say |
| VolumeTables.AddKeeps | full/metis/kwayvolfm.c:959-1011 | so does adding the edge |
| VolumeTables.OwnRecordOk | full/metis/kwayvolfm.c:870-876 | the record of the moved vertex becomes that of the new partition |
| VolumeTables.RemovedGains | full/metis/kwayvolfm.c:826-864 | after the contributions of the moved vertex are taken back, the gains are what the other tables say |
| VolumeTables.RestoredGains | full/metis/kwayvolfm.c:1019-1060 | after they are added again, the gains are those of the new partition |
| VolumeRefine.Refiner.Contribute | full/metis/kwayvolfm.c:826-864 | shifts the gains of all neighbours by exactly what the vertex contributes, and leaves the scratch array clear |
| VolumeRefine.Refiner.ShiftPart | full/metis/kwayvolfm.c:917-930 | shifts exactly the entries for one part at all neighbours |
| VolumeRefine.Refiner.ShiftOwner | full/metis/kwayvolfm.c:938-950 | finds the only other neighbour in a part, if there is one, and shifts all its entries |
| VolumeRefine.Refiner.DropFrom | full/metis/kwayvolfm.c:909-957 | the entry for the old part loses the edge, and every stored gain stays in step with the tables |
| VolumeRefine.Refiner.AddTo | full/metis/kwayvolfm.c:959-1011 | the entry for the new part gets the edge, and every stored gain outside the marked vertices stays in step |
| VolumeRefine.Refiner.UpdateOwn | full/metis/kwayvolfm.c:870-876 | the record of the moved vertex becomes that of the new partition |
| VolumeRefine.Refiner.UpdateNeighbours | full/metis/kwayvolfm.c:884-1014 | all neighbours get the records of the new partition; unmarked vertices keep gains in step |
| VolumeRefine.Refiner.RecomputeGains | full/metis/kwayvolrefine.c:244-283 | computes every gain of one record as defined from scratch, and leaves the scratch array clear |
| VolumeRefine.Refiner.ComputeKWayVolume | full/metis/kwayvolfm.c:1089-1173 | every queued vertex has the right maximum; the gains of the marked ones are exact, and no other table changes |
| VolumeRefine.Refiner.MaxGain | full/metis/kwayvolfm.c:1163-1169 | the maximum over the table, plus the saving of the vertex itself |
| VolumeRefine.Refiner.KWayVolUpdate | full/metis/kwayvolfm.c:805-1081 | entered with the records of the old partition and clear scratch arrays, it leaves every id, ed, nid and every (pid, ed, ned, gv) entry equal to the definition for the new partition, and clear scratch arrays; the moved vertex and its neighbours are updated; every updated vertex has the right maximum and is on the boundary exactly when its record says so, and every other one keeps its maximum and its place |
| VolumeRefine.Refiner.Candidate | full/metis/kwayvolfm.c:91-108 | the entry chosen is the first that qualifies, or a later one with room that is better: more gain, then more cut, then relatively lighter; with positive targets no later entry with room is better; there is none exactly when no entry qualifies |
| VolumeRefine.Refiner.Move | full/metis/kwayvolfm.c:125-133 | one move keeps records, weights, cut and volume exact |
| VolumeRefine.Refiner.Visit | full/metis/kwayvolfm.c:79-133 | one visit keeps them exact and never increases the volume; a vertex that has nothing to gain, cannot leave its part or has no qualifying entry stays; any other goes to the chosen entry exactly when that gains volume, or lowers the cut, or keeps it and the tie rule says so |
| VolumeRefine.Refiner.HelpfulMoveIsMade | full/metis/kwayvolfm.c:79-133 | so a vertex that can leave its part and has a qualifying entry with room that gains volume moves, and the volume strictly decreases |
| VolumeRefine.Refiner.Settle | full/metis/kwayvolfm.c:1066-1080 | the boundary lists every updated vertex exactly when its record says so and keeps all others, list and index stay inverse, and no vertex stays marked |
| VolumeRefine.Refiner.RandomPass | full/metis/kwayvolfm.c:71-137 | so does a pass: at each turn the vertex at the place the permutation gives is visited under that rule, until the turns reach the end of the boundary, which changes under the loop |
| VolumeRefine.Refiner.RandomKWayVolRefine | full/metis/kwayvolfm.c:65-148 | so do all passes: minvol is the volume of the partition and never grows, each pass starts where the last one ended, and it stops early only after one that changed neither volume nor cut |
| VolumeParams.ComputeRecords | full/metis/kwayvolrefine.c:129-197 | every record, the part weights and the cut are those of the partition |
| VolumeParams.ComputeKWayVolGains | full/metis/kwayvolrefine.c:209-299 | every gain and every per-vertex maximum is exact, minvol is the volume of the partition, and the boundary lists exactly the vertices whose records say so |
| VolumeParams.ComputeVolKWayPartitionParams | full/metis/kwayvolrefine.c:129-202 | together they establish from nothing the state that every move of the refiner keeps |
| Boundary.BndInsert | full/metis/macros.h:104-109 | inserting keeps the list and its inverse index inverse, changes the membership of one vertex, and always has room |
| Boundary.BndDelete | full/metis/macros.h:111-117 | deleting by swapping with the last one does too |
| PriorityQueue.GetMax | full/metis/fm.c:82-83 | a vertex with the largest key is taken out, or the queue was empty |
| Bisection.FlipOwn | full/metis/fm.c:111-111 | a vertex that changes sides trades its two weights |
| Bisection.FlipOther | full/metis/fm.c:119-120 | the weights of another vertex change by its edge to it |
| Bisection.FlipCut | full/metis/fm.c:86-87 | cut and side weights change by the gain and the weight of the vertex |
| Bisection.Bisector.FlipVertex | full/metis/fm.c:154-172 | one rollback step keeps both weights of every vertex and the boundary exact |
| Bisection.Bisector.MoveVertex | full/metis/fm.c:101-141 | one forward move keeps them exact, and the queues hold exactly the unmoved boundary vertices with their gains |
| Bisection.Bisector.FillQueues | full/metis/fm.c:68-76 | the queues start with exactly the boundary vertices of each side |
| Bisection.Bisector.Pick | full/metis/fm.c:82-84 | the vertex taken has the largest gain of all unmoved boundary vertices of its side |
| Bisection.Bisector.PickIsBest | full/metis/fm.c:82-84 | the vertex taken has the largest gain, computed from the partition, of those not swapped on that side; there is none only if no such vertex is left |
| Bisection.Bisector.ClimbStep | full/metis/fm.c:79-141 | one iteration swaps the best vertex of the side whose target minus weight is smaller, side 1 on equality; the remembered prefix is no worse than the start, and no prefix within the allowed imbalance has a smaller cut, or an equal cut and a smaller imbalance; it stops only when that side has no unmoved boundary vertex, or the best swap does not improve and more than limit swaps have passed since the best prefix |
| Bisection.GreedyOnce | full/metis/fm.c:79-101 | such swaps never take a vertex twice |
| Bisection.Bisector.Climb | full/metis/fm.c:61-143 | the forward loop from filled queues: every swap along it is such a best one, of all partitions it went through within the allowed imbalance the remembered one has the least cut, and among those the least imbalance, and it ends after as many swaps as vertices or for one of those two reasons |
| Bisection.Bisector.Rollback | full/metis/fm.c:149-173 | undoing the moves after the best prefix restores exactly the partition of that prefix |
| Bisection.Bisector.Pass | full/metis/fm.c:57-182 | one pass is such a climb, undone down to the remembered prefix; it never worsens (cut, imbalance), the cut on record is the cut of the partition, and it reports an improvement exactly when the cut got smaller |
| Bisection.Bisector.FM2WayEdgeRefine | full/metis/fm.c:44-183 | all passes, each from the partition the last one left; (cut, imbalance) never gets worse, the imbalance ends at most avgvwgt above the original one, and it stops early only after a pass that did not lower the cut |
| Bisection.Bisector.BalanceStep | full/metis/balance.c:101-152 | one move of a balancer takes the vertex with the largest gain of those it may take, keeps all bookkeeping exact and does not push the receiving side above its target; it stops only when there is none, or the best one would |
| Bisection.Bisector.Balance | full/metis/balance.c:72-158 | both balancers move vertices off the heavy side, none heavier than the imbalance and each time the one with the largest gain, and end only when there is none or the best one would pass the target; all bookkeeping stays exact, and with equal totals the imbalance never grows |
| Matching.Matcher.FirstFree | full/metis/match.c:49-55 | the first unmatched neighbour in the list that fits, or none if there is none |
| Matching.Matcher.HeaviestFree | full/metis/match.c:155-162 | the unmatched neighbour that fits with the heaviest edge, the first of them in the list |
| Matching.VisitedStep | full/metis/match.c:57-59 | pairing the next vertex keeps the pairs an involution, one number per pair, and the numbers in the order of the permutation |
| Matching.Matcher.Match | full/metis/match.c:42-61 | Match_RM, Match_RM_NVW and Match_HEM give an involution, numbered onto 0..cnvtxs-1 with fibres of one or two vertices; pairs are neighbours that fit, no two neighbours that fit are both left alone, and every vertex that is free at its turn gets the first, or with HEM the heaviest, of the free neighbours that fit |
| Matching.MatchingIsDetermined | full/metis/match.c:42-61 | the way of picking determines the matching: two that pick in this way on one permutation are equal |
| Matching.Matcher.MatchSHEM | full/metis/match.c:210-255 | Match_SHEM does too, except that up to the first free vertex with neighbours every free vertex is paired with the last free vertex of the permutation that has neighbours; from there on every free vertex gets the heaviest free neighbour that fits |
| BucketSort.PlaceOrder | full/metis/bucketsort.c:36-39 | places follow keys, and turns among equal keys |
| BucketSort.CountInTurn | full/metis/bucketsort.c:32-33 | counting keys does not depend on the order |
| BucketSort.MakeCsr | full/metis/macros.h:93-98 | counts become bucket starts |
| BucketSort.BucketSortKeysInc | full/metis/bucketsort.c:25-42 | the result is a permutation sorted by key and stable with respect to the given one |
| Contraction.BetweenSymmetric | full/metis/ccgraph.c:259-294 | the weight between two fibres is symmetric and not negative |
| Contraction.CutPreserved | full/metis/ccgraph.c:195-324 | every partition of the coarse graph has the cut of the partition it induces through cmap |
| Contraction.WeightPreserved | full/metis/ccgraph.c:245-278 | and its part weights |
| Contraction.TotalPreserved | full/metis/ccgraph.c:245-278 | the whole vertex weight is conserved |
| Contraction.InteriorProjects | full/metis/kwayrefine.c:269-269 | the external weight of a vertex is at most that of its coarse image |
| Coarsen.ScanStep | full/metis/ccgraph.c:240-243 | the test cmap[v] == cnvtxs finds every pair exactly once, at its first member in the permutation |
| Coarsen.BothLists | full/metis/ccgraph.c:257-304 | the lists of the members of a fibre, without the contracted edge, add up to the weights to the other fibres |
| Coarsen.Coarsener.AddSlot | full/metis/ccgraph.c:260-268 | one edge is added to its entry, found through the table, or to a new one |
| Coarsen.Coarsener.RemoveSelf | full/metis/ccgraph.c:296-303 | the contracted edge is taken out of the list and its weight out of the sum |
| Coarsen.Coarsener.BuildVertex | full/metis/ccgraph.c:245-314 | one coarse vertex gets the weights between fibres, the vertex weight and the list sum; the table is empty again |
| Coarsen.BuiltIsContraction | full/metis/ccgraph.c:195-324 | the finished arrays are a valid graph: symmetric, loop-free, without repeated neighbours, positively weighted; and it is the contraction |
| Coarsen.EdgeCountFits | full/metis/ccgraph.c:311-317 | it has at most as many slots as the fine graph |
| Coarsen.Coarsener.CreateCoarseGraphNoMask | full/metis/ccgraph.c:195-324 | the coarsener builds the contraction, with adjwgtsum equal to the list sums and exactly the predicted number of slots |
| Coarsen.ComputeCoarseGraphSize | full/metis/estmem.c:111-155 | the estimate is exactly the number of slots the coarsener fills |
| Coarsen.SortByDegree | full/metis/match.c:203-208 | the order of SHEM is the random one, stably sorted by capped degree; islands come first unless the cap is 0 |
| Coarsen.CoarsenOnce | full/metis/match.c:42-65 | RM or HEM matching on a permutation, or SHEM on the sorted one, and coarsening: every coarse partition has the cut and weights of the one it induces |
| KWayTables.DropMatches | full/metis/kwayfm.c:162-173 | dropping an edge keeps a table exact and free of duplicates |
| KWayTables.AddMatches | full/metis/kwayfm.c:175-187 | so does adding one |
| KWayTables.MovedInfo | full/metis/kwayfm.c:123-130 | the record of the moved vertex becomes that of the new partition |
| KWayTables.ShiftInfo | full/metis/kwayfm.c:149-187 | so does the record of a neighbour |
| KWayTables.TableFits | full/metis/kwayfm.c:189-189 | a table never has more entries than the vertex has slots |
| KWayTables.GrantKeeps | full/metis/kwayfm.c:141-144 | a new slab is disjoint from all others |
| KWayTables.ArenaFits | full/metis/kwayrefine.c:187-189 | all slabs together are at most as large as the adjacency list |
| KWayRefine.KWay.Move | full/metis/kwayfm.c:118-193 | one move keeps every record, the boundary, the arena, weights and cut exact |
| KWayRefine.KWay.GreedyMove | full/metis/kwayfm.c:331-424 | so does one move of the greedy forms, and the queue holds exactly the marked vertices with their gains |
| KWayChoice.BestEntry | full/metis/kwayfm.c:85-101 | the entry chosen is the first that qualifies or a later one; no later entry with room gains more, and with positive targets none that gains as much and has room, or comes after it, is relatively lighter; there is none exactly when no entry qualifies |
| KWayChoice.RefineTarget | full/metis/kwayfm.c:76-113 | a vertex stays exactly when its part cannot give it up, no entry qualifies, or the best entry neither gains nor passes the tie rule; otherwise it is sent to that entry |
| KWayChoice.BalanceTarget | full/metis/kwayfm.c:527-555 | when balancing, a vertex stays exactly when its part cannot give it up, no entry is open, or the guard against pointless moves holds; otherwise it is sent to the first open entry or a later, relatively lighter one; with positive targets no entry from the first open one on is relatively lighter |
| KWayRefine.KWay.Visit | full/metis/kwayfm.c:73-193 | one visit keeps everything exact, never increases the cut, and moves the vertex exactly to where that rule sends it |
| KWayRefine.KWay.RandomKWayEdgeRefine | full/metis/kwayfm.c:60-206 | so do all passes, turn by turn over the places of the permutation, although the boundary shrinks under the loop; it stops early only after a pass that left the cut as it was |
| KWayRefine.KWay.Pop | full/metis/kwayfm.c:284-286 | the vertex taken was not taken before in this pass and has the largest gain of all boundary vertices that were not; there is none only if no such vertex is left |
| KWayRefine.KWay.GreedyVisit | full/metis/kwayfm.c:288-424 | one greedy visit keeps everything exact and moves the vertex exactly to where the rule of refining or of balancing sends it |
| KWayRefine.KWay.GreedyPass | full/metis/kwayfm.c:270-425 | a greedy pass takes every vertex at most once, each time one with the largest gain, treats it by that rule, and ends when no boundary vertex is left to take; everything stays exact, and when refining the cut never grows |
| KWayRefine.KWay.GreedyKWayEdgeRefine | full/metis/kwayfm.c:267-436 | so do all passes; it stops early only after one that left the cut as it was |
| KWayRefine.KWay.GreedyKWayEdgeBalance | full/metis/kwayfm.c:497-661 | balancing is a sequence of such passes, each from a state in which some part is too heavy; it stops early only when no part is, and does nothing when none is at the start |
| KWayRefine.KWay.WeightConserved | full/metis/kwayfm.c:43-44 | the parts together always weigh what the vertices weigh |
| KWayProject.SumIsDegrees | full/metis/kwayrefine.c:174-178 | adjwgtsum is the internal plus the external weight |
| KWayProject.ComputeCut | full/metis/debug.c:20-43 | computes the cut as defined from scratch |
| KWayProject.FreshIsConsistent | full/metis/kwayrefine.c:161-209 | records computed from scratch agree with the partition, and their slabs are disjoint |
| KWayProject.ComputeKWayPartitionParams | full/metis/kwayrefine.c:141-214 | every record is the fresh one, down to the order of the tables and the places in the arena; weights, cut and boundary are exact |
| KWayProject.IndexedTable | full/metis/kwayrefine.c:276-290 | one loop with a scratch table gives the same external weight and the same table as the searching loop |
| KWayProject.ProjectKWayPartition | full/metis/kwayrefine.c:222-321 | skipping vertices with an internal image and copying weights and cut gives the fresh records, weights and cut of the projected partition |
| KWayProject.ProjectionIsFresh | full/metis/kwayrefine.c:222-321 | projecting and computing from scratch give equal records, arena, weights and cut, and the same boundary except for vertices without neighbours |
| Compress.SameKeyIsTwin | full/metis/compress.c:53-70 | equal key sums, equal degrees and inclusion one way force equal closed neighbourhoods |
| Compress.TwinsGetTogether | full/metis/compress.c:56-57 | in an order sorted by key, two vertices with equal closed neighbourhoods are put into one group exactly when no vertex with their key and another degree stands between them |
| Compress.TwinsKeptApart | full/metis/compress.c:56-57 | a graph of six vertices and a sorted order in which two such vertices are kept apart |
| Compress.Compressor.ComputeKey | full/metis/compress.c:32-38 | the key is the sum of the closed neighbourhood |
| Compress.Compressor.BuildGroup | full/metis/compress.c:44-73 | one group: it gets exactly the vertices without a group that have the closed neighbourhood of its first vertex and are reached before key or degree change |
| Compress.Compressor.Group | full/metis/compress.c:42-74 | cptr and cind partition the vertices, and two vertices share a group exactly when they have the same closed neighbourhood and all vertices between them in the order have their key and degree |
| Compress.Compressor.TouchAll | full/metis/compress.c:122-135 | if one member of a group is a neighbour of one member of another, all are |
| Compress.Compressor.BuildRow | full/metis/compress.c:123-134 | the list of a group holds exactly the groups that touch it, each once |
| Compress.Compressor.RowFits | full/metis/compress.c:104-108 | it is no longer than the list of the first member |
| Compress.Compressor.CompressGraph | full/metis/compress.c:21-152 | the groups are those; the graph is kept, with unit weights, exactly when the groups are at least 0.85 of the vertices; otherwise it is replaced by the graph of the groups, with group sizes as vertex weights, unit edge weights, list lengths as sums, and lists within the reserved space |
| Compress.Compressor.CompressedAdjacency | full/metis/compress.c:119-135 | two groups list each other exactly when they differ and all their members are pairwise neighbours |
| Dml.SearchNamed | full/dml/dml-tree.cc:558-620 | what the search for a link finds is a named attribute outside of all schemas |
| Dml.SearchExact | full/dml/dml-tree.cc:558-620 | the search finds nothing exactly when no route through the tree fits the path; otherwise it comes to the end of the leftmost route, which is the attribute it returns, or a list without children, whose null pointer it dereferences |
| Dml.NoCrash | full/dml/dml-tree.cc:594-596 | without empty lists no search crashes |
| Dml.EmptyListCrashes | full/dml/dml-tree.cc:594-596 | the configuration a [ ] x [ _extends .a.b ] crashes |
| Dml.AttrTree.Expand | full/dml/dml-tree.cc:784-869 | expansion ends as the first attribute below the node, in document order, that is not a sound link or no link at all, says: refused or crashed; if there is none, everything below is expanded |
| Dml.VerdictExact | full/dml/dml-tree.cc:784-869 | it is fine exactly when all links are sound, refused exactly when the first that is not is a list, leads nowhere, or extends a string, and crashed exactly when the search for it enters an empty list |
| Dml.NoEmptyListNoCrash | full/dml/dml-tree.cc:784-869 | without empty lists expansion never crashes |
| Dml.AttrTree.ExpandRoot | full/dml/dml-tree.cc:784-869 | the same from the root over everything outside of schemas; if all is fine, every such node points to its target or itself |
| Dml.BoundedIsAcyclic | full/dml/dml-tree.cc:962-988 | if walks along children and links are bounded, none comes back to a node it has been at |
| Dml.AttrTree.Traverse | full/dml/dml-tree.cc:962-988 | the traversal ends; it fails only if there is a cycle, and otherwise all walks are bounded and the flags of the stack are as before |
| Dml.AttrTree.TraverseRoot | full/dml/dml-tree.cc:962-988 | from the root it fails exactly when the children and links outside of schemas contain a cycle |
| Dml.TraversedIsAccepted | full/dml/dml-tree.cc:962-988 | what the traversal establishes makes every search step descend |
| Dml.ChaseCanBeLabelled | full/dml/dml-tree.cc:871-946 | every way the path resolves can be labelled with the indices of the children it goes through |
| Dml.ChaseByIsChase | full/dml/dml-tree.cc:871-946 | and what is labelled is a way it resolves |
| Dml.FoundInOrder | full/dml/dml-tree.cc:871-946 | the matches are one for every labelled way, in the lexicographic order of the labels |
| Dml.FindAttributes | full/dml/dml-tree.cc:871-946 | on an accepted configuration the search ends on every path and appends all matches in that order, or with onematch the first of them |
| Dml.FoundExact | full/dml/dml-tree.cc:871-946 | an attribute is among the matches exactly when the path resolves to it, key by key, through matching children, the targets of extensions and final finds |
| Dml.Lookup | full/dml/dml.cc:143-164 | find returns the attributes the path resolves to, one for every way it does, from left to right; findSingle returns the end of the leftmost way, or nothing exactly when there is none |
| Dml.Load | full/dml/dml.cc:115-120 | loading crashes exactly when expansion does; it refuses a configuration exactly when expansion does or the links are sound and close a cycle; otherwise every search ends |

## Left out

- Equivalence.ParallelEqualsSequential: covers runs in which no executed event ties with another one of its timeline on time and priority, since the source does not order ties; all results of `Windows` and `Progress` cover ties.
- Composite.CompositeEqualsSequential: arrivals by appointment are picked up after the events of the same instant, so the condition on arrivals is needed even where nothing ties; Overtaking.OvertakenExample shows it. There is one event queue per timeline, since composite mode excludes virtual machines (full/s3f.h:99-101).
- Windows.RunInv: covers bound processes; it does not model priorities changed by users, deferred binding, cancellation or user_force_stop.
- Progress.WindowProgress: the edge is not claimed to grow without its condition, since the code does not meet that.
- Topology.MapTo: negative transfer delays, which the source does not check.
- Delay changes and unmapping in channels, how a window that ends makes the waiting mappings, and the count of channels at the minimum.
- Simulation control and the emulation of virtual machines (the OpenVZ path of the scheduler).
- The pthread barrier path, whose "unset" marker is the previous minimum, and the fast barrier, whose minimum is never reset.
- TreeBarrier.Reachable: does not model the minimum, maximum and sum reductions that ride on the barrier, nor the futex variant.
- MutexBarrier.Reachable: does not model errors of the thread library.
- VolumeRefine.Refiner.KWayVolUpdate: for vertices that were not updated, the per-vertex maximum and the boundary may lag behind the tables, because the source does not mark every vertex whose gain it changes (full/metis/kwayvolfm.c:918-950); the degree arena is a table per vertex here.
- VolumeRefine.Refiner.RandomKWayVolRefine: the permutation array has an entry per vertex, as in the source, of which RandomPermute sets the first nbnd; the others, read when the boundary grows, are any natural numbers here.
- The refiners that bound the number of adjacent parts (MConn), the elimination of components, and the volume balancer.
- Coarsen.Coarsener.CreateCoarseGraphNoMask: one vertex weight constraint, with vertex sizes; the masked coarsener and the one for unit weights are not modelled, the first because it may read past its list when its search fails.
- Coarsen.CoarsenOnce: RM_NVW, which the source follows by the coarsener for unit weights, and graphs large enough for the masked coarsener.
- KWayProject.ProjectKWayPartition: a slab taken for a vertex that turns out to be internal is given back before the next vertex, so the model only takes it when it stays.
- Bisection.Bisector.Balance: the boundary form fills its queue from the boundary list and the general form from all vertices; both are one loop over the vertices here, since a queue is a map.
- The limit and the average weight of FM, computed in floating point, are parameters.
- Appointments.Reachable: spurious wakeups of the condition variable are not modelled.
- Dml.AttrTree.Expand: expanding again after more files were loaded into the same tree.
- Parsing, locations, exceptions, printing, memory layout, reference counts, timers, 32-bit overflow of weights and times.
