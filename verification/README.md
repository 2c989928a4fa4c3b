# The collective operations of LAMPI

LAMPI implements MPI 1.2 on clusters of multiprocessor hosts.  Its collective operations
(`src/collective`) are small protocols: the processes of one host meet in shared memory, one
process per host talks to the other hosts by messages, and byte counts and offsets that several
parties compute on their own have to agree.  This project models those protocols and proves, for
every number of hosts, ranks, stripes and bytes and for every interleaving, that they deliver what
chapter 4 of MPI-1.1 asks for.  The intended meanings are those of sections 4.3 (barrier), 4.4
(broadcast), 4.5 (gather), 4.6 (scatter), 4.7 (gather-to-all), 4.8 (all-to-all), 4.9.1 (reduce) and
4.11 (scan).

`dafny verify dfyconfig.toml` checks the whole project.

## How the parts fit together

**Messages.**  `Network` is the semantics of all message protocols here.  A process runs a script
of rounds; a round may start a send, complete a receive and wait for the send.  Messages travel on
FIFO channels, one for each ordered pair.  A schedule says whose turn it is, so that two processes
may be any number of rounds apart.  If the rounds pair up, every run ends as the run in which all
processes take each round together, and no channel holds a leftover.  If moreover every receive is
posted for the length that is sent, and processes that wait for a send before they receive do not
wait in a circle, no reachable state is stuck, even when every send is synchronous.  Scripts are
padded with idle rounds, so that a message is sent and received in rounds of the same number; in
`Posted` the processes run only what they post, and every such run is the projection of a padded one.
Each collective then contributes the source's loop as a method that emits what a host posts, a lemma
that the rounds pair up, and an invariant of the round-by-round run.

**Whole collectives.**  `Phases` puts the stripes or blocks of a collective one behind the other: in each
a host takes a step of its own, exchanges messages, and takes a second step of its own.  Nothing keeps
the hosts together, and a host may be stripes ahead of another.  `GatherV`, `AllGatherV`, `ScatterStripes`
and `ReduceBlocks` state what `ulm_gatherv`, the striped `ulm_allgatherv`, `ulm_scatter` and `ulm_reduce`
deliver from the callers' buffers to the callers' buffers.  `ScatterCounts` says exactly for which send
counts the scatter does so.

**All processes of all hosts.**  In `WholeRun` there are no steps of a host.  Every process of every host
goes through its stripe loop step by step, and the process that exchanges takes its sends and receives
one action at a time, while the others of its host and all other hosts go on.  A process reads and writes
the shared buffer as it is at that moment.  Every such run is matched with a run of the plan of `Phases`,
so that it ends as the plan ends and never gets stuck.  `HostLoop` has what the loops of `GatherLoop` and
`ScatterLoop` share.  `AllGatherVRun`, `GatherVRun` and `ScatterStripesRun` are the three collectives.
`Bcast` is such a machine for `ulm_bcast` (`BcastBlocks` has its messages), and `Barrier` for any number of
calls of `ulm_barrier`.  In these machines an idle round of a script is a step that does nothing.

**Trees.**  `NaryTree` and `TreeWalk` describe the tree by arithmetic on node numbers, `CollTree` has
the loops and recursions of `coll_tree.c`, `GatherOrder`, `GatherInterhost` and `GatherRun` the gather
over the tree, `ScatterInterhost` and `ScatterRun` the scatter.

**Hypercubes.**  `Hypercube`, `Exchange` and `ExchangeRun` are the exchange of `ulm_allgatherv`;
`BarrierInterhost` uses the same pattern; `BcastInterhost`, `ReduceInterhost` and `FanIn` are the
binomial trees; `Scan` is recursive doubling; `IndexTable` and `AllToAll` are the bit exchange.

**Shared memory.**  `IntrahostReduce`, `GatherLoop`, `ScatterLoop`, `BcastLoop` and `CounterBarrier` are
state machines over the steps of the processes of one host; `BarrierPool` is the class that hands out
barrier objects.

**Point to point.**  `AllToAllV` has the loop of one rank, in which a slot is the partner of the request it
holds; `AllToAllVRun` has the windows of all ranks together, and `AllToAllVLoop` all ranks in their loops;
`ReduceLinear` is the chain for operations that do not commute.

**Stripes.**  `Stripes`, `Placement`, `CopyOut`, `StripedGather`, `StripeExchange` and `Scatter` cut every
rank's bytes into pieces and follow them from the writers through the exchange to the readers.
`Reduce` has the algebra of the two levels of `ulm_reduce`, and `Blockwise` the blocks that `ulm_reduce`
and `ulm_bcast` send from host to host.

A reduction operation is a function on two values; `func(in, inout)` combines as `in op inout`.  It is
assumed associative, and commutative only where a claim says so.  Datatypes are contiguous bytes.

## Where the code differs from its documentation

- MPI lets the send count of a scatter matter at the root only, but every process of `ulm_scatter` goes
  by its own send count, and every host by that of its local rank 0.  `ScatterCounts.WorksIff` says exactly
  when every process still gets its bytes: each count must say what the process expects, or more while
  the expected bytes fill whole stripes.  `ScatterCounts.ZeroSendCount` is a family of calls that MPI allows
  and that fail.
- In `ulm_reduce_linear` a root that is not the last rank receives the result into a temporary buffer and
  does not copy it.  `ReduceLinear.WorksIff` says that the root gets the result if and only if it is the
  last rank, and `ReduceLinear.ConcatFails` gives the failing calls.
- The depth loop of `setupNaryTree` always stops above the number of nodes, so the last level is always
  treated as partial.  It is never full, and it is empty when the number of nodes is a power of the order
  (`CollTree.TreeHeader`).
- The comment of `ulm_reduce_intrahost` says that a process is done once it has sent.  The loop keeps it
  in all later masks; `IntrahostReduce` models the loop.
- The fan-ins combine from the highest rank down.  For an operation that does not commute the result is
  the fold in descending order (`ReduceInterhost.ReduceAtRoot`, `IntrahostReduce.ReduceResult`);
  `ulm_reduce` uses them for commutative operations only.

## Model

| member | source | states |
|---|---|---|
| `Network.ReachableInv` | src/collective/ulm_allgatherv.cc:363-428 | in every run each channel holds exactly the messages sent and not yet received, in order, and each process is where its own rounds have brought it |
| `Network.EveryRunAgrees` | src/collective/ulm_allgatherv.cc:363-428 | a finished run, in any interleaving, ends with the round-by-round result in every process and nothing left in flight |
| `Network.LocalStateIsRoundState` | src/collective/ulm_allgatherv.cc:363-428 | what a process holds depends only on how many rounds it has done, never on the schedule |
| `Network.NeverStuck` | src/collective/ulm_scan.cc:208-248 | until all are done some process can move, even if every send waits for its receive |
| `Network.CanFinish` | src/collective/ulm_scan.cc:208-248 | every run can be continued to one in which all are done |
| `Posted.Project` | src/collective/ulm_gather_interhost.cc:74-194 | every run of what the processes really post is the projection of a run of the padded scripts |
| `Posted.PostedRunsAgree` | src/collective/ulm_scatter_interhost.cc:73-190 | when all that is posted is performed every process has the round-by-round result; until then some process can go on, even with synchronous sends |
| `Posted.OneProcessEnds` | src/collective/ulm_bcast.cc:140-150 | a process that has performed all it posts has its result, whatever the others have yet to do |
| `Posted.Finish` | src/collective/ulm_scatter.cc:163-235 | if no schedule is ever held up, every run can be continued until all is performed |
| `Phases.PhasesPair` | src/collective/ulm_gatherv.cc:285-397 | if the messages of every stripe pair up, those of all stripes do, although the stripes share the channels |
| `Phases.SliceIsTrace` | src/collective/ulm_allgatherv.cc:952-1070 | in the round-by-round run of all stripes the messages of one stripe are a run of that stripe alone |
| `Phases.PhasesRun` | src/collective/ulm_gatherv.cc:285-397 | however far the hosts get apart, when all that they post is performed every host is where the stripe-by-stripe run ends; until then some host can go on |
| `Phases.PostedPhase` | src/collective/ulm_gatherv.cc:285-397 | what a host posts in one more stripe is its own steps around what it exchanges |
| `CollTree.SetupNaryTree` | src/collective/coll_tree.c:70-203 | the loops build exactly the tree of the given shape: depth, level sizes, and for every node its level, parent, children and number of last-level children |
| `CollTree.FieldsAgree` | src/collective/coll_tree.c:70-203 | what the fields of a built tree say of each other: the levels counted as full hold exactly the first `nNodesInFullLevels` nodes, a node is in another's `downNodes` exactly if that is its `upNodes`, and its children at the last level are exactly the last `nInPartialLevel` ones |
| `CollTree.TreeHeader` | src/collective/coll_tree.c:83-99 | the depth is one more than the exponent of the first power of the order above the number of nodes, and the last level always counts as partial |
| `CollTree.ChildrenOf` | src/collective/coll_tree.c:176-195 | a node's child loop lists exactly its children, and counts those of the last level |
| `CollTree.AllocationSuffices` | src/collective/coll_tree.c:166-172 | children never outgrow the `(order-1)*(depth-(level+1))` entries allocated for them |
| `NaryTree.LevelBounds` | src/collective/coll_tree.c:107-112 | every node lies between the first node of its level and that of the next |
| `NaryTree.ParentOfChild` | src/collective/coll_tree.c:154-156 | the computed parent appears at an earlier level, has a smaller number, and has the node in its span of children |
| `NaryTree.ChildOfParent` | src/collective/coll_tree.c:181-189 | each of the `order-1` numbers from a node's first child on has that node as its computed parent |
| `TreeWalk.ChildrenAreParented` | src/collective/coll_tree.c:153-195 | c is among the children of p exactly if p is the parent of c, and parents have smaller numbers |
| `TreeWalk.ChildrenIncrease` | src/collective/coll_tree.c:181-189 | children are listed in ascending order |
| `TreeWalk.FullLevel` | src/collective/coll_tree.c:181-195 | at every level but the last a node gets all its `order-1` children |
| `TreeWalk.LastLevelIsLeaf` | src/collective/coll_tree.c:181-195 | nodes of the last level have no children |
| `TreeWalk.WalkMembers` | src/collective/coll_tree.c:210-265 | either traversal from v lists exactly the nodes of the subtree under v |
| `TreeWalk.WalkDistinct` | src/collective/coll_tree.c:210-265 | no traversal lists a node twice |
| `TreeWalk.RootWalkIsPermutation` | src/collective/coll_tree.c:210-265 | the traversals from the root are permutations of all nodes |
| `CollTree.GetGatherNodeOrder` | src/collective/coll_tree.c:231-265 | the recursion terminates, never indexes out of range, and appends the gather order of the subtree to the list in place |
| `CollTree.GetScatterNodeOrder` | src/collective/coll_tree.c:210-224 | the recursion terminates and appends the scatter order of the subtree to the list in place |
| `CollTree.LevelSlice` | src/collective/coll_tree.c:246-264 | behind the partial level the children form whole groups of `order-1`, one for each level |
| `CollTree.LevelsAreKids` | src/collective/coll_tree.c:219-223 | the scatter order is the node and then the subtrees of its children in stored order |
| `GatherOrder.GotWhenSending` | src/collective/ulm_gather_interhost.cc:74-194 | when a node sends, it has collected its whole subtree in gather order |
| `GatherOrder.GotInTheEnd` | src/collective/ulm_gather_interhost.cc:74-175 | every node has collected its whole subtree in the end |
| `GatherOrder.NotYetSent` | src/collective/ulm_gather_interhost.cc:174-194 | among the nodes that send before a node is neither the node nor its parent |
| `GatherOrder.EachSendsOnce` | src/collective/ulm_gather_interhost.cc:74-194 | every node but the root sends exactly once, and after all its children |
| `GatherInterhost.UlmGatherInterhost` | src/collective/ulm_gather_interhost.cc:46-198 | a host posts, in this order and with these peers, offsets and lengths, exactly the non-idle rounds of its script |
| `GatherInterhost.RecvFromChildren` | src/collective/ulm_gather_interhost.cc:74-175 | first the partial level, then one full level at a time, with request arrays of `order-1` entries that are never overrun |
| `GatherInterhost.FillRequests` | src/collective/ulm_gather_interhost.cc:87-119 | each receive is placed right behind the subtrees received before it, for the byte count of the child's subtree |
| `GatherInterhost.SubtreeBytes` | src/collective/ulm_gather_interhost.cc:98-104 | the loop adds up the bytes of a subtree's hosts |
| `GatherInterhost.SendToParent` | src/collective/ulm_gather_interhost.cc:176-194 | the send goes to the parent's host with all bytes of the subtree |
| `GatherInterhost.ActiveIsPosted` | src/collective/ulm_gather_interhost.cc:65-194 | at any time a node has posted a receive for every child that has sent, in order of the sends, and its own send after them |
| `GatherRun.GatherPairs` | src/collective/ulm_gather_interhost.cc:70-194 | every send has its receive in the same round and the other way round |
| `GatherRun.LengthsAgree` | src/collective/ulm_gather_interhost.cc:97-106 | every receive is posted for exactly the number of bytes the child sends |
| `GatherRun.TraceHolds` | src/collective/ulm_gather_interhost.cc:70-194 | before each round every buffer begins with the data of the hosts collected so far, in that order |
| `GatherRun.GatherDelivers` | src/collective/ulm_gather_interhost.cc:46-198 | in every run of what the hosts post the root host ends with the data of all hosts, each once, in gather order; until then somebody can go on |
| `ScatterInterhost.UlmScatterInterhost` | src/collective/ulm_scatter_interhost.cc:48-193 | a host posts exactly the non-idle rounds of its script: one receive, then a send for each child |
| `ScatterInterhost.SendToChildren` | src/collective/ulm_scatter_interhost.cc:96-190 | full groups of `order-1` sends and then the rest, with request arrays that are never overrun |
| `ScatterInterhost.Leftover` | src/collective/ulm_scatter_interhost.cc:107-190 | if messages are left over after the full groups, there are exactly `nInPartialLevel` of them |
| `ScatterInterhost.RecvFromParent` | src/collective/ulm_scatter_interhost.cc:73-94 | a host receives its own bytes and those of its whole subtree |
| `ScatterInterhost.FillRequests` | src/collective/ulm_scatter_interhost.cc:112-140 | each send takes the next block of the buffer, as long as the child's subtree |
| `ScatterInterhost.ActiveIs` | src/collective/ulm_scatter_interhost.cc:73-190 | all that a node does, round by round, is one receive unless it is the root, and its sends in order of the children |
| `ScatterRun.ScatterPairs` | src/collective/ulm_scatter_interhost.cc:73-190 | every send has its receive in the same round and the other way round |
| `ScatterRun.LengthsAgree` | src/collective/ulm_scatter_interhost.cc:80-131 | every child expects exactly the number of bytes its parent sends |
| `ScatterRun.BlockIs` | src/collective/ulm_scatter_interhost.cc:104-140 | the block a parent sends is the child's subtree data |
| `ScatterRun.ScatterDelivers` | src/collective/ulm_scatter_interhost.cc:48-193 | if the root host's buffer is packed in scatter order, every run of what the hosts post leaves each host's own data at the front of its buffer; until then somebody can go on |
| `Scatter.PackScatterData` | src/collective/ulm_scatter.cc:50-115 | in scatter order, host by host, the k-th slot of the buffer is `len` bytes of the send buffer from byte `copied` of that rank's part on; the buffer behind the slots is as it was |
| `Scatter.OwnSlice` | src/collective/ulm_scatter.cc:209-213 | the i-th process of a host finds its bytes at i times the slice length |
| `Scatter.CopySlice` | src/collective/ulm_scatter.cc:163-232 | one stripe of one process: the slice it takes by its own send count, where it goes, and what is left of the count |
| `Scatter.CopiedBytes` | src/collective/ulm_scatter.cc:136-232 | how many bytes the stripe loop copies when send and receive count disagree |
| `ScatterStripes.UlmScatter` | src/collective/ulm_scatter.cc:136-235 | the stripe loop of a host posts the pack, the interhost scatter by the count of local rank 0, and the copies, stripe by stripe |
| `ScatterStripes.StripePairs` | src/collective/ulm_scatter.cc:184-195 | whatever the send counts, the interhost sends and receives of a stripe pair up |
| `ScatterStripes.SameShare` | src/collective/ulm_scatter.cc:163-167 | a process with a right count takes in every stripe the same bytes as one with the exact count |
| `ScatterStripes.SliceIsPiece` | src/collective/ulm_scatter.cc:209-213 | with right counts the slice that a process copies in stripe k is the k-th piece of the bytes for it |
| `ScatterStripes.SliceBytes` | src/collective/ulm_scatter.cc:209-213 | the slice of the i-th process of a host, at `i * share` of the shared buffer, is the bytes of the root's send buffer from `r * perProc + k * size` on, where r is its rank |
| `ScatterStripes.RightCountsDeliver` | src/collective/ulm_scatter.cc:136-235 | if every count is right then, whatever placement, root, bytes, stripe size and schedule, byte j of the process of rank r is byte `r * perProc + j` of the root's send buffer for every byte it expects, and all further bytes are as before; until then some host can go on |
| `ScatterCounts.AllPaint` | src/collective/ulm_scatter.cc:163-232 | if all that is sent looks alike, then whatever the counts a process has taken after k stripes exactly what its own count tells it to |
| `ScatterCounts.WorksIff` | src/collective/ulm_scatter.cc:136-235 | every process gets exactly the bytes for it, for all data, memories and schedules, if and only if every process's send count says what it expects, or says more while the expected bytes fill whole stripes |
| `ScatterCounts.ZeroSendCount` | src/collective/ulm_scatter.cc:136-167 | a process that passes a send count of 0, as MPI lets it, breaks the scatter whenever bytes are expected |
| `ScatterLoop.StripesAreSteps` | src/collective/ulm_scatter.cc:163-235 | however the processes of a host interleave, each finds in the buffer, stripe by stripe, what packing, then exchanging leaves there; the flag values 1 and 2 and the reset between two barriers keep the stripes apart |
| `ScatterLoop.NeverStuck` | src/collective/ulm_scatter.cc:163-235 | some process can always go on until all are done |
| `Hypercube.PeersPair` | src/collective/ulm_allgatherv.cc:305-473 | in every round of the exchange the partner of a host's partner is the host |
| `Hypercube.OrderMembers` | src/collective/ulm_allgatherv.cc:363-428 | after l dimensions a host has the data of exactly the hosts whose corner shares its upper bits |
| `Hypercube.FullOrderIsPermutation` | src/queue/Pt2PtGroupMisc.cc:160-182 | the data order of every host is a permutation of all hosts |
| `Exchange.SetupSendRecvTree` | src/queue/Pt2PtGroupMisc.cc:78-152 | the partner lists are `h ^ 2^l`, for the largest power of two not above the number of hosts |
| `Exchange.GetSendingHostRank` | src/queue/Pt2PtGroupMisc.cc:160-182 | the recursion lists the hosts in exactly the order in which the exchange lays their data out |
| `Exchange.SetupPhase` | src/collective/ulm_allgatherv.cc:302-358 | the extra hosts' hand-over, the total, and the counts after it |
| `Exchange.LevelPhase` | src/collective/ulm_allgatherv.cc:365-427 | one dimension: offsets and lengths are the bytes held by the two partners, and the counts of all low hosts stay those of their prefix |
| `Exchange.FinalPhase` | src/collective/ulm_allgatherv.cc:433-474 | the extra hosts get everything back |
| `Exchange.ExchangeStripeOfData` | src/collective/ulm_allgatherv.cc:289-477 | the three phases emit the script of the host, with empty messages left out |
| `ExchangeRun.ExchangePairs` | src/collective/ulm_allgatherv.cc:289-477 | sends and receives pair up for any number of hosts and any sizes |
| `ExchangeRun.LengthsAgree` | src/collective/ulm_allgatherv.cc:317-396 | send and receive lengths always match |
| `ExchangeRun.TraceHolds` | src/collective/ulm_allgatherv.cc:363-428 | before each round every buffer begins with the data of the hosts heard from, in buffer order |
| `ExchangeRun.ExchangeDelivers` | src/collective/ulm_allgatherv.cc:289-477 | in every run every host ends with the data of all hosts, each once, in its own data order; until then somebody can go on |
| `BcastInterhost.BcastScript` | src/collective/ulm_bcast_interhost.cc:106-138 | the mask loop, with its `continue` and its early `break`, emits the script |
| `BcastInterhost.NothingAfterBreak` | src/collective/ulm_bcast_interhost.cc:113-115 | the early `break` never drops a send or a receive |
| `BcastInterhost.BcastPairs` | src/collective/ulm_bcast_interhost.cc:108-138 | sends and receives pair up, and a host receives under exactly one mask, the top bit of its relative rank; the root never receives |
| `BcastInterhost.Frontier` | src/collective/ulm_bcast_interhost.cc:108-138 | before each mask exactly the hosts of relative rank below it hold the root's data |
| `BcastInterhost.BcastDelivers` | src/collective/ulm_bcast_interhost.cc:106-140 | in every run every host ends with the root's data; until then somebody can go on |
| `ReduceInterhost.ReduceScript` | src/collective/ulm_reduce_interhost.cc:209-231 | the mask loop, which ends with the one send, emits the script |
| `ReduceInterhost.BlockHeld` | src/collective/ulm_reduce_interhost.cc:209-231 | before mask 2^k a host whose low k bits are zero holds the combination of its block of 2^k hosts |
| `ReduceInterhost.FanInAtRoot` | src/collective/ulm_reduce_interhost.cc:209-231 | after enough masks the root has the fold of all hosts' values, each once |
| `ReduceInterhost.ReduceAtRoot` | src/collective/ulm_reduce_interhost.cc:165-231 | in every run the root ends with the fold of all hosts' values, each once; until then somebody can go on |
| `Scan.ScanScript` | src/collective/ulm_scan.cc:204-248 | the shift loop emits the script |
| `Scan.Window` | src/collective/ulm_scan.cc:208-248 | before shift 2^k a rank holds the in-order fold of the 2^k ranks ending at it |
| `Scan.ScanIsPrefixFold` | src/collective/ulm_scan.cc:204-273 | in every run every rank ends with the inclusive prefix fold, for any associative operation; synchronous sends do not deadlock it |
| `IndexTable.GetLog2` | src/collective/ulm_alltoall.cc:215-238 | the largest power of two not above the size, and the remainder |
| `IndexTable.CreateIndexTable` | src/collective/ulm_alltoall.cc:240-311 | the running counters fill in `dest[j][i] == j ^ 2^i` and `elements[j][i] == 2^i` |
| `IndexTable.CounterStep` | src/collective/ulm_alltoall.cc:287-307 | one turn of the counters gives the partner and leaves the counters right for the next rank |
| `AllToAll.SegmentOffset` | src/collective/ulm_alltoall.cc:351-367 | the parity tests pick the half of a segment that differs from the rank in the exchanged bit |
| `AllToAll.ExchangeByLog2` | src/collective/ulm_alltoall.cc:339-393 | the loops make the exchanges of the script, segment by segment, 2^L - 1 in all |
| `AllToAll.ExchangeStep` | src/collective/ulm_alltoall.cc:344-391 | one exchange swaps bit i of rank and slot in one more segment; the last of a round refreshes the working copy |
| `AllToAll.SwapStep` | src/collective/ulm_alltoall.cc:339-391 | exchanging one bit takes the swap of i low bits of rank and slot to the swap of i + 1 |
| `AllToAll.ExchangeTransposes` | src/collective/ulm_alltoall.cc:313-396 | in every run of 2^L ranks slot x of rank s ends with what rank x had for s; until then somebody can go on |
| `AllToAllV.FirstBatch` | src/collective/ulm_alltoallv.cc:93-132 | the first loops post the own group of at most 50 ranks into the first slots, and stop at the wrap-around |
| `AllToAllV.OrdersAre` | src/collective/ulm_alltoallv.cc:84-203 | the k-th send is for rank (s + k) mod n, where s is the first of the own group of 50; the k-th receive is from s + k within the group, and then from s - 1 downwards, mod n |
| `AllToAllV.TurnDoes` | src/collective/ulm_alltoallv.cc:93-196 | what each step of a rank does: after the two batches the steps go round receive slot 0, send slot 0, receive slot 1 and so on; a step touches its slot only; if its direction has more to post a free slot gets the next request, a slot in use is tested, and gets it exactly if the answer is yes |
| `AllToAllV.HeardDecides` | src/collective/ulm_alltoallv.cc:135-202 | a rank that waits for an answer has posted the same requests into the same slots whenever it has heard the same answers |
| `AllToAllV.UlmAlltoallv` | src/collective/ulm_alltoallv.cc:84-203 | whatever the tests answer, the source's loops post exactly what the steps of `TurnDoes` post, into the same slots, and ask for the same tests; a run that ends for want of an answer has used all answers, fewer than 2n of them yes, and waits in a test; any other run has posted everything |
| `AllToAllV.OrdersArePermutations` | src/collective/ulm_alltoallv.cc:84-203 | both orders name every rank exactly once |
| `AllToAllV.EveryPairOnce` | src/collective/ulm_alltoallv.cc:84-203 | for every ordered pair there is exactly one send and exactly one receive |
| `AllToAllVRun.OrderedByDistance` | src/collective/ulm_alltoallv.cc:84-203 | both orders go by the number of groups that the receiver is on from the sender |
| `AllToAllVRun.SomePost` | src/collective/ulm_alltoallv.cc:135-202 | a rank whose next request is over the smallest distance that is not complete has a slot that is free or whose request is complete |
| `AllToAllVRun.NeverStuck` | src/collective/ulm_alltoallv.cc:84-203 | in every run of all ranks, with windows of 50 and synchronous sends, some rank can post its next request or some message can arrive until every message is complete |
| `AllToAllVRun.AlltoallvDelivers` | src/collective/ulm_alltoallv.cc:84-225 | when every message is complete every rank has, for each rank p, the bytes of p's send segment for it at its displacement for p, and the rest of its buffer is as it was |
| `AllToAllVLoop.RankRunsLoop` | src/collective/ulm_alltoallv.cc:84-203 | in every run of all ranks' loops together, what a rank has posted and where is what its loop gives for the answers it got |
| `AllToAllVLoop.WaitsLikeAlone` | src/collective/ulm_alltoallv.cc:135-202 | a rank that waits in a test has the traffic that the loop alone has after the same answers, whatever the others did |
| `AllToAllVLoop.LoopsAreRun` | src/collective/ulm_alltoallv.cc:84-203 | every run of all ranks' loops, a test saying yes only for a complete request, is a run of the windows of `AllToAllVRun` with the same arrivals |
| `AllToAllVLoop.LoopsNeverStuck` | src/collective/ulm_alltoallv.cc:84-203 | in every run of the loops, until all bytes have arrived some bytes can arrive, or some rank posts a further request within its next 100 steps if the tests of complete requests say yes |
| `AllToAllVLoop.LoopsDeliver` | src/collective/ulm_alltoallv.cc:84-225 | in every run of the loops, when all bytes have arrived every rank has posted all its requests, has each rank's bytes at the displacement for that rank, and has the rest of its buffer as it was |
| `IntrahostReduce.ReadsOnlyParked` | src/collective/ulm_reduce_intrahost.cc:266-287 | a process combines from a partner's buffer only while the partner is parked at the same block and mask, and reads the partner's value of that mask |
| `IntrahostReduce.NeverStuck` | src/collective/ulm_reduce_intrahost.cc:223-296 | no reachable state is deadlocked |
| `IntrahostReduce.StepShrinks` | src/collective/ulm_reduce_intrahost.cc:262-297 | every step uses up part of a fixed bound |
| `IntrahostReduce.CanFinish` | src/collective/ulm_reduce_intrahost.cc:262-297 | every run can be continued to its end |
| `IntrahostReduce.ReduceResult` | src/collective/ulm_reduce_intrahost.cc:223-296 | when all have finished the root has, block by block, the fold of every process's contribution, each once |
| `Reduce.HostVector` | src/collective/ulm_reduce.cc:160-180 | the on-host step gives, block by block, the element-by-element fold of the host's arrays |
| `Reduce.TwoLevelsAreOne` | src/collective/ulm_reduce.cc:160-190 | folding every host and then the hosts is the flat fold over all ranks, for any placement |
| `Reduce.BlockOfFold` | src/collective/ulm_reduce.cc:192-215 | reducing blocks gives the blocks of the reduced array, for any block size |
| `ReduceBlocks.HostHasArray` | src/collective/ulm_reduce.cc:168-180 | in whatever order its processes ran and whatever the block size, the on-host root has the element-by-element fold of its host's arrays |
| `ReduceBlocks.BlockAtRoot` | src/collective/ulm_reduce_interhost.cc:165-231 | combining a block in place leaves at the root the fold of the hosts' blocks |
| `ReduceBlocks.BlockKeeps` | src/collective/ulm_reduce.cc:202-213 | a block's messages change nothing of a receive buffer but that block |
| `ReduceBlocks.UlmReduce` | src/collective/ulm_reduce.cc:192-215 | the blockwise loop posts the interhost step of every block, in place; every message is one element or at most 1048576 bytes, and one element more would be over that unless it is the last block; with one host it posts nothing |
| `ReduceBlocks.ReduceDelivers` | src/collective/ulm_reduce.cc:128-215 | from finished shared-memory reductions on the hosts, every run over the blocks leaves in the root's receive buffer the element-by-element fold over all ranks, each once, and nothing else changed; until then some host can go on |
| `ReduceLinear.UlmReduceLinear` | src/collective/ulm_reduce_linear.cc:158-220 | a rank posts exactly the non-idle rounds of its script |
| `ReduceLinear.LinearDelivers` | src/collective/ulm_reduce_linear.cc:158-220 | in every run every rank ends with the fold of the ranks up to it, in rank order, and a root that is not the last rank with the whole fold in its temporary buffer; until then some rank can go on |
| `ReduceLinear.WorksIff` | src/collective/ulm_reduce_linear.cc:199-220 | the root's receive buffer has the fold over all ranks, for every associative operation on lists, if and only if the root is the last rank |
| `ReduceLinear.ConcatFails` | src/collective/ulm_reduce_linear.cc:199-220 | putting lists together fails for every root but the last rank |
| `Stripes.CountStripes` | src/collective/ulm_gatherv.cc:259-279 | the number of stripes is enough for every rank, and needed by some rank |
| `Stripes.AddPieces` | src/collective/ulm_gatherv.cc:301-316 | a writer's offset is the total length of the pieces of the local ranks before it |
| `Stripes.StripeSizes` | src/collective/ulm_gatherv.cc:337-358 | `dataToSendNow` is the total length of each host's pieces |
| `Stripes.PerRankStripeSize` | src/queue/Pt2PtGroupMisc.cc:1213-1226 | the stripe size is the largest number of whole lines of which every host has room for as many ranks as the largest host has; it is 0 exactly if not even one line each fits |
| `Stripes.PiecesJoin` | src/collective/ulm_gatherv.cc:290-300 | the pieces of a rank's bytes put together give the bytes back |
| `Placement.RanksInOrder` | src/collective/ulm_gatherv.cc:63-76 | going through the hosts in any order goes through every rank once |
| `Placement.FlatOfHosts` | src/collective/ulm_gatherv.cc:63-76 | a buffer laid out host by host is one laid out rank by rank |
| `CopyOut.PlacedThere` | src/collective/ulm_gatherv.cc:89-101 | whatever the order of writes to separate places, every piece is at its place in the end |
| `CopyOut.PlacedElsewhere` | src/collective/ulm_gatherv.cc:89-101 | bytes outside the places are as before |
| `CopyOut.CopiedIsPlaced` | src/collective/ulm_gatherv.cc:44-104 | if the shared buffer begins with the ranks' pieces in order, the copy-out takes every piece to its place |
| `CopyOut.CopyDataFromSharedBuffer` | src/collective/ulm_gatherv.cc:44-104 | the copy-out with its moving source pointer copies, for every rank in order, the next block of the shared buffer to the rank's displacement and stripe offset |
| `CopyOut.CopyRank` | src/collective/ulm_allgatherv.cc:660-691 | one rank's piece moves, or nothing if the rank has no bytes in the stripe |
| `StripedGather.FilledStep` | src/collective/ulm_gatherv.cc:285-391 | one stripe appends to what arrived for every rank and disturbs nothing |
| `StripeExchange.WritersFill` | src/collective/ulm_gatherv.cc:290-323 | in whatever order the local processes write, the shared buffer begins with their pieces in local order |
| `StripeExchange.LengthsMatch` | src/collective/ulm_gatherv.cc:301-358 | the lengths that writers, interhost step and readers compute separately are the same |
| `CopyOut.PlacedAnyOrder` | src/collective/ulm_gatherv.cc:290-323 | pieces that do not overlap may be written in any order, to the same effect |
| `StripeExchange.WritePiece` | src/collective/ulm_gatherv.cc:290-323 | a process writes its piece behind the pieces of the local ranks before it |
| `StripeExchange.RoomForAll` | src/queue/Pt2PtGroupMisc.cc:1213-1226 | with that stripe size the pieces of all ranks fit into a shared buffer |
| `GatherV.UlmGatherv` | src/collective/ulm_gatherv.cc:259-397 | the stripe loop of a host posts the writes, the interhost gather with the counts of the stripe, and the copy-out, for as many stripes as some rank needs |
| `GatherV.StripeEnds` | src/collective/ulm_gatherv.cc:334-374 | after the messages of a stripe the root's host has every rank's piece, in the order in which the root reads |
| `GatherV.GathervDelivers` | src/collective/ulm_gatherv.cc:259-397 | for any root, placement, displacements, bytes, stripe size, write orders and schedule, the root ends with every rank's bytes at its displacement and the rest of its buffer untouched; until then some host can go on |
| `AllGatherV.UlmAllgatherv` | src/collective/ulm_allgatherv.cc:952-1070 | the stripe loop of a host posts the writes, the exchange with the counts of the stripe, and the copies, for as many stripes as some rank needs |
| `AllGatherV.StripeEnds` | src/collective/ulm_allgatherv.cc:1002-1046 | after the messages of a stripe every host has every rank's piece, in the order in which its processes read |
| `AllGatherV.AllgathervDelivers` | src/collective/ulm_allgatherv.cc:952-1070 | for any placement, displacements of each process, bytes, stripe size, write orders and schedule, every process of every host ends with every rank's bytes at the displacement it asked for and the rest of its buffer untouched; until then some host can go on |
| `HostLoop.WriteStep` | src/collective/ulm_scatter.cc:169-182 | whoever writes does so outside the exchange, between the exchange of the stripe before and that of its own, and once |
| `HostLoop.ExchangeStep` | src/collective/ulm_scatter.cc:184-203 | when a stripe is exchanged all who have to write it have, and nobody has written the next |
| `HostLoop.ReadStep` | src/collective/ulm_scatter.cc:205-213 | whoever reads a stripe does so after its exchange and before anybody writes the next |
| `WholeRun.HostActs` | src/collective/ulm_gatherv.cc:360-374 | one action of a host's exchange, amid the steps of all processes, is the same action of the plan, with the same buffer and the same messages |
| `WholeRun.WholeRunAgrees` | src/collective/ulm_gatherv.cc:285-397 | in every run of all processes of all hosts a process that is done has in its memory what it has at the end of the round-by-round run of the plan |
| `WholeRun.WholeRunNeverStuck` | src/collective/ulm_gatherv.cc:285-397 | until all are done some process can go on, even with synchronous sends |
| `AllGatherVRun.AllProcessesGather` | src/collective/ulm_allgatherv.cc:952-1070 | in every run of all processes of all hosts, with writes, flags, barriers, messages and reads interleaved in every way, a process that is done has every rank's bytes at the displacement it asked for and the rest of its buffer as it was; until all are done somebody can go on |
| `GatherVRun.AllProcessesGather` | src/collective/ulm_gatherv.cc:259-397 | the same for the root of a gather, whichever process of a host resets the flag |
| `ScatterStripesRun.AllProcessesScatter` | src/collective/ulm_scatter.cc:136-235 | if every count is right, in every run of all processes of all hosts byte j of a done process of rank r is byte `r * perProc + j` of the root's send buffer, and the bytes behind those it expects are as before; until all are done somebody can go on |
| `GatherLoop.StripesAreSafe` | src/collective/ulm_allgatherv.cc:952-1070 | nobody writes or exchanges while somebody reads, nobody reads or writes during the exchange, and a reader of stripe s finds stripe s written by all and exchanged |
| `GatherLoop.ExchangesWhole` | src/collective/ulm_allgatherv.cc:998-1046 | the leader exchanges a stripe only when every local process has written its piece and nobody has gone on |
| `GatherLoop.StripesAreSteps` | src/collective/ulm_allgatherv.cc:952-1070 | however the processes of a host interleave, each reads, stripe by stripe, the bytes that are left when all pieces are written, each once and in some order, and then exchanged |
| `GatherLoop.NeverStuck` | src/collective/ulm_allgatherv.cc:952-1070 | some process can always go on until all are done |
| `BcastLoop.BroadcastDelivers` | src/collective/ulm_bcast.cc:166-184 | what a process has copied out is always a prefix of the message, and all of it at the end; nobody copies while the root fills the buffer |
| `BcastLoop.FlagMeans` | src/collective/ulm_bcast.cc:115-120 | a process that sees the 2 sees it for its own chunk, not for an older one |
| `BcastLoop.NeverStuck` | src/collective/ulm_bcast.cc:109-128 | some process can always go on until all are done |
| `BcastBlocks.BlockFrontier` | src/collective/ulm_bcast_interhost.cc:106-138 | before each mask exactly the hosts of relative rank below it have the root's block in place, and no other byte of a user buffer has changed |
| `BcastBlocks.BlockDone` | src/collective/ulm_bcast.cc:142-150 | after the messages of block b every representative's buffer has the first b + 1 blocks of the root's data and is otherwise as it was |
| `BcastBlocks.UlmBcast` | src/collective/ulm_bcast.cc:136-150 | the blockwise loop posts the interhost step of every block, in place; every message is one element or at most 131072 bytes, and one element more would be over that unless it is the last block; with one host it posts nothing |
| `Bcast.LoopHasData` | src/collective/ulm_bcast.cc:152-164 | a process that is in the chunk loop has a representative with all of the root's data, however far the other hosts are |
| `Bcast.BcastDelivers` | src/collective/ulm_bcast.cc:88-188 | in every run of all processes of all hosts, byte j of the buffer of a process that has returned is byte j of the root's buffer for every byte of the message, and the bytes behind the message are as before |
| `Bcast.BcastNeverStuck` | src/collective/ulm_bcast.cc:88-188 | some process can always go on until all have returned, even with synchronous sends |
| `CounterBarrier.ReleaseMeans` | src/queue/barrier.cc:53-77 | the spin ends exactly when everybody has arrived as often as the spinning process |
| `CounterBarrier.BarrierHolds` | src/client/adminMessage.cc:762-777 | in every run the counter is the number of arrivals, two processes are at most one arrival apart, and k returns mean that everybody has arrived k times |
| `CounterBarrier.NeverStuck` | src/client/adminMessage.cc:762-777 | some process can always go on if all keep calling |
| `BarrierInterhost.LargestPower` | src/collective/ulm_barrier_interhost.cc:110-114 | the shift loop finds the largest power of two not above the number of hosts |
| `BarrierInterhost.BarrierScript` | src/collective/ulm_barrier_interhost.cc:97-185 | the three phases emit the script |
| `BarrierInterhost.KnowledgeSpreads` | src/collective/ulm_barrier_interhost.cc:116-182 | before each round a host knows exactly what the hosts knew that it has heard from, directly or through others |
| `BarrierInterhost.KnownDoubles` | src/collective/ulm_barrier_interhost.cc:140-162 | under each mask what two partners know is disjoint and is put together |
| `BarrierInterhost.KnowsAll` | src/collective/ulm_barrier_interhost.cc:110-182 | at the end every host, extra or not, knows that all have entered |
| `Barrier.RunIsSound` | src/collective/ulm_barrier.cc:78-82 | over all calls, no host knows of a call, and no message tells of one, that has not begun |
| `Barrier.ThroughMeansAllBegun` | src/collective/ulm_barrier_interhost.cc:97-185 | a host that is through the messages of a call knows that every host has begun that call, although the calls share the channels |
| `Barrier.BarrierIsSafe` | src/collective/ulm_barrier.cc:74-86 | over any number of calls, with processes in different calls, one that has returned k times knows that every process of every host has called at least k times |
| `Barrier.BarrierNeverStuck` | src/collective/ulm_barrier.cc:74-86 | some process can always go on until all have returned from all their calls |
| `BarrierPool.Pool.Setup` | src/collective/barrierSetup.cc:97-269 | a communicator that has elements gets the first of them; another gets the element of `FindFree`, from another pool than the last used whenever another has one free; the two errors leave the pool as it was |
| `BarrierPool.Pool.FindFree` | src/collective/barrierSetup.cc:127-185 | the free element is the first of its pool, and every pool between the last used and its pool, going round, is full; the last used pool comes last, and without a free element all pools are full |
| `BarrierPool.Pool.Find` | src/collective/barrierSetup.cc:203-252 | the scan finds the first element in use with the key, in the order of the pools, if there is one |
| `BarrierPool.Pool.Free` | src/collective/barrierSetup.cc:286-306 | one more free, and the element is free again exactly when it was the last one |
| `BarrierPool.PoolIsSound` | src/collective/barrierSetup.cc:97-314 | in every run at most one element in use has a given key, all members of a communicator get the same one, the last free recycles it, and the pool is out of resources only when every element is in use |

## Left out

- The group-rotation `ulm_alltoall` that is compiled by default: its schedule is a plain double loop over two groups.
- `exchangeFakeLog2` and the bit exchange for sizes that are no power of two: two logical ranks share one channel and tag.
- `ulm_reduce_p2p`, and the blockwise calls of `ulm_reduce_linear`: one block of the linear version is in `ReduceLinear`.
- `_ulm_scan` with another root than 0 or in reverse: `ulm_scan` never calls it that way.
- `get_children` and `get_parent`: nothing uses them.
- The one-stripe versions of gather and allgather (`ulm_allgatherv1Stripe`, `hostAlgathervSendData`) and the plain `ulm_gather`, `ulm_allgather`, `ulm_scatterv`: the same exchanges with simpler offsets.
- Datatypes that are not contiguous, and the MPI argument checks.
- The broadcast of the receive counts that precedes the stripes of `ulm_gatherv`: the counts are taken to be known on every host.
- Error returns of sends, receives and allocations, and `ulm_test` errors: every call is taken to succeed, except the two errors of the barrier pool.
- Machine integers: counters and byte counts are unbounded.  The barrier counter is 64 bits wide in the source.
- Memory fences and compiler reordering: shared memory is sequentially consistent, one access per step.
- Vectors of receives and sends (`ulm_recv_vec`, `ulm_send_vec`) are taken one after the other in array order; the source completes them in any order.
- `ulm_irecv` posted before `ulm_isend` in the interhost barrier: the model sends first and then receives, which allows fewer steps and is still never stuck.
- The descriptor pool of shared collective buffers and the setting up of groups: the trees, lists and placements are inputs with the properties that the modelled set-up routines give them.
- Sockets, daemons, standard I/O forwarding, start-up code and ROMIO.
