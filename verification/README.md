# A verified model of the simulator's communication and timing kernel

The repository is a multi-core system simulator. This project models the parts on which everything else
rests, and proves what they are for:

* **The on-chip network** (`Bus*.dfy`, `RouteTable.dfy`): `SymmetricMultiChannelBus` splits messages into
  packets, moves them over an arbitrary graph along a routing table, and joins them again. Over every run of
  sends, receives and ticks, every flow (source port, destination port, channel) is first-in first-out with
  exact contents, every packet is at exactly one place, and once sending stops everything arrives within a bounded
  number of ticks; and it is shown exactly how many sends, and how large messages, that holds for. In every run, also
  beyond those limits, no packet is lost and none gets stuck.
* **Routing tables** (`RouteTable.dfy`, `Rings.dfy`, `RouteGenerators.dfy`, `RouteMesh.dfy`,
  `MeshCoordinates.dfy`, `GeneratedBus.dfy`): the bounded validity walk decides reachability exactly; the ring,
  double-ring and XY-torus generators give tables whose hop counts are exactly the ring distances, and the network
  accepts all of them.
* **Big integers** (`Arithmetic.dfy`, `Limbs.dfy`, `Bits.dfy`, `HugeNumber.dfy`, `Numerals.dfy`,
  `HalvedDigits.dfy`, `HugeText.dfy`): sign-magnitude numbers of 64-bit limbs; every operation computes the exact
  integer and leaves the one canonical form; printing and parsing undo each other in four bases.
* **Threads** (`SpinBarrier.dfy`, `SpinRWLock.dfy`, `TickEngine.dfy`, `TickRuns.dfy`, `TickCalls.dfy`,
  `TickProgress.dfy`, `SimRoot.dfy`): the barrier, the reader-writer lock and the two-phase tick loop, as atomic steps
  under every schedule; which callbacks the loop makes, and that it goes on making them.
* **Queues, caches, DMA** (`TickLists.dfy`, `TickRing.dfy`, `TickQueue.dfy`, `LruLists.dfy`, `LruCache.dfy`,
  `LruRuns.dfy`, `Dma.dfy`): the ring-buffer tick queue against its three-list version, LRU replacement with pinned
  lines, and the resumable copy engine, each over whole runs.

`dafny verify dfyconfig.toml` checks the whole project.

## How the code is modelled

Objects with fields that their methods change are classes: `SymmetricMultiChannelBus`, `HugeNumber`,
`SimpleTickQueue`, `GenericLRUCacheBlock`, `DMAAsCore`, `SimRoot`, `Barrier`, `RWLock`. Their loops are loops. Each
method is tied to a specification function, and the lemmas speak about those functions and about whole runs of
them. Where the code keeps pointers, the model keeps indices or values: the network's nodes, ports and edges are
values in maps and sequences held by the bus object; a packet is a value and not an allocated object.

Widths that matter are written out: 64-bit limbs with carries and borrows, the 16-bit packet index and count, the
32-bit transmission id that wraps, the 32-bit counters of the barrier, the 32-bit cursors of the tick queue.

Threads are modelled by schedules. A schedule names the thread that takes the next atomic step (and, for the
lock, whether a weak compare-exchange fails for no reason); the theorems hold for every schedule.

## Main results

* Delivery over whole runs: `BusRuns.PerFlowFifo`, `BusRuns.RunDelivers`; liveness: `BusRuns.RunDrains` on
  `BusDraining.TickProgress`; conservation over places: `BusConservation.EachPacketOnce`; the exact limits of all three:
  `BusLimits.DeliversExactly`, `BusOrder.InOrderExactly`, `BusSizes.ReassemblyIffFits`. Without any limits:
  `BusCensus.NothingLost`, `BusCensus.EveryRunDrains`, `BusSends.CanSendExactly`. What one tick does, told from the
  states before and after it: `BusNodes.TickExactly` with `BusTicks.EdgeExactly`, `BusTicks.PipelineExactly` and
  `BusNodes.NodeExactly`, and the same in whatever order the nodes are walked: `BusNodes.OrderIsImmaterial`. The class
  `Bus` is proved against the same functions step by step, in every state.
* Routing: `RouteTable.BoundedWalkIsExact`, `RouteGenerators.RingExactly`, `RouteMesh.MeshExactly`,
  `RouteMesh.XBeforeY`, `BusTopology.BuildTopology`, `GeneratedBus.MeshBus`.
* Big integers: the contracts of `HugeNumber.HugeNumber` (`Add`, `Minus`, `Mul`, `Div`, `Mod`, `ShiftLeft`,
  `ShiftRight`) with `HugeNumber.TruncUnique` and `HugeNumber.CanonicalForm`; `HugeText.PrintThenParse`,
  `HugeText.FromText` with `HugeText.ReadExactly`, `Numerals.PrintedExactly`, `Numerals.UnmarkedRoundTrip`.
* Threads: `SpinBarrier.NobodyPassesEarly`, `SpinBarrier.EverybodyReturns`, `SpinRWLock.Exclusion`,
  `SpinRWLock.GetsInExactly`, `SpinRWLock.CallsEnd`, `SpinRWLock.FailsForAReason`, `TickRuns.PhasesExclusive`,
  `TickRuns.CallbacksInOrder`, `TickCalls.EachCallOnce`, `TickProgress.TicksGoOn`, `TickRuns.StopExactly`,
  `TickRuns.StopTakesEffect`.
* Queues, caches, DMA: `TickRing.AnswersExactly`, `TickLists.FirstInFirstOut`, `TickLists.RowInOrder`,
  `LruRuns.Perform`, `LruRuns.FillBlock`, `LruLists.StackProperty`, `LruCache.Replay`, `Dma.Perform` on
  `Dma.DMAAsCore.OnCurrentTick`, `Dma.DMAAsCore.AllDone`.

## What the proofs brought up

Places where the code does less than one would expect. Each has a lemma or method that shows it, and an exact
condition.

* An empty message is accepted by `send` and leaves no trace (`BusOps.SendKeeps`, `BusRuns.NewlySent`).
* A message of 2^16 packets or more is not put together again: `BusSizes.ReassemblyIffFits` says exactly when the
  packets of a message make one message at the destination. One of 2^16 packets, counted as none, is handed out as zeros
  (`BusLimits.TooManyPackets`); of one of 2^16 + 1, each counted as a message of its own, recv finds the second packet
  out of order (`BusOrder.RoundCount`).
* Transmission ids come round after 2^32 sends, whether or not the old message has arrived. Then the packets of two
  messages are mixed, and the order check in `recv` fails or, without it, wrong bytes are handed out
  (`BusLimits.TooManySends`, a run on one node). `BusLimits.DeliversExactly` and `BusOrder.InOrderExactly` give the
  exact number of sends; `BusLimits.DeliveryMixesExactly` tells which delivery mixes. The delivery theorems ask that
  the id of a message of several packets is not in use; `BusShortRuns.ShortRunsAreRuns` shows that this holds by itself
  for the first 2^32 sends.
* The collision check of the route generators counts positions instead of nodes and so never fails
  (`RouteGenerators.CollisionCheck`). The tables are right exactly when no node is given twice
  (`RouteGenerators.RingExactly`, `RouteMesh.MeshExactly`).
* A route that hops in place passes the route check of the constructor if its entry is never needed, and can then
  make the assertion on the number of edges fail; `BusTopology.EdgeCountEven` and `BusTopology.BuildTopology` say
  exactly when, `BusTopology.OneHopInPlace` shows such a table. A table with a hop to a node outside the bus can pass
  all checks and makes up a node whose port pointer is never set; `BusTopology.BuildTopology` says that no other
  accepted table, with channels and wires of some width, breaks what the network relies on.
* The torus generator packs coordinates into 16 bits each and refuses any torus of several rows that is wider or higher
  than 2^16, although its table would be right (`MeshCoordinates.KeysDistinct`, `RouteMesh.GenMesh2dXY`).
* `checkBase` accepts numerals behind any number of signs (`HugeText.AcceptsExactly`,
  `HugeText.RepeatedSignsAccepted`). A decimal numeral behind two signs or more is read as another number, always
  (`HugeText.ReadExactly`): the signs after the first stay among the digits as negative ones, and "--5" becomes minus
  thirty-five (`HugeText.TwoSigns`).
* A tick queue gets a buffer of twice its capacity, rounded up, in 32 bits. When
  2 * (iwid + owid + qsize) + 15 < 2^32 every run is answered as by the three lists; all other sizes are accepted too,
  and then the buffer is no longer than the capacity: filled to its end, the queue says that it is empty and hands out
  nothing, or the first push divides by zero (`TickRing.AnswersExactly`, `TickRing.FullLooksEmpty`).
* Numbers printed in base 2, 8 or 16 without the base mark are read back as decimal;
  `Numerals.UnmarkedRoundTrip` says exactly which survive.
* `stop_sim_and_exit` is safe from an `apply_next_tick` callback. Called from an `on_current_tick` callback while
  some thread has yet to enter the tick, it leaves the calling thread in the barrier for ever
  (`TickRuns.StopExactly`, `TickRuns.StopTooEarly`).
* `GenericLRUCacheBlock::clear` forgets the lines but not which of them were pinned. The block is in order
  afterwards exactly when none was (`LruCache.GenericLRUCacheBlock.Clear`, `LruCache.ClearedWhilePinned`).
* Counting an access to a pinned line, or inserting a pinned line again, lists it while it is pinned; `unpin` then
  lists it a second time. The contracts of `GetLine`, `UpdateLine` and `InsertLine` say that this is the only way they
  put the block out of order.
* An object registered with a negative latency is called in the first tick and never again (`TickCalls.EachCallOnce`).
* `dbg_get_all` of the tick queue reads from the oldest element on; the list version in the same file reads the
  other way round. The model follows the code.

## Model

| member | source | states |
|---|---|---|
| BusRuns.PerFlowFifo | src/bus/symmulcha.cpp:202-419 | in every run over any accepted topology and any traffic, what a flow's receiver has been handed is a prefix of what its sender sent, with equal contents |
| BusRuns.RunDelivers | src/bus/symmulcha.cpp:202-419 | in every run, the messages received on a flow followed by those in flight are the messages sent, in order: nothing lost, doubled, changed or overtaken |
| BusRuns.RunDrains | src/bus/symmulcha.cpp:174-181 | once sending stops, as many ticks as the measure says, with any receives between them, bring every sent and not yet received message complete and in order into its receive buffer |
| BusRuns.RunKeeps | src/bus/symmulcha.cpp:174-306 | from any state the invariant holds in, what was in flight and what is sent is what is received and what is in flight in the end, in order |
| BusRuns.RunDrainsBy | src/bus/symmulcha.cpp:174-181 | in a run without sends, whatever the network holds, every tick counts against the measure, and no receive delays it |
| BusRuns.StepKeeps | src/bus/symmulcha.cpp:174-306 | each send, receive and tick keeps the whole-network invariant and moves exactly the messages it should between sent, in flight and received |
| BusRuns.IdFreeIsFresh | src/bus/symmulcha.cpp:214 | an id that no packet of a message of several carries belongs to no such message in flight |
| BusShortRuns.ShortRunsAreRuns | src/bus/symmulcha.cpp:202-230 | for at most 2^32 sends since construction no condition on transmission ids is needed: such a run is a run in the sense of the delivery theorems |
| BusShortRuns.BelowIsFree | src/bus/symmulcha.cpp:214 | while the 32-bit counter has not wrapped, its value is carried by no packet in the network |
| BusShortRuns.StepIds | src/bus/symmulcha.cpp:214 | only a send moves the counter, by one modulo 2^32, and only a send brings a new id into the network |
| BusLimits.DeliversExactly | src/bus/symmulcha.cpp:202-306 | over every network, runs of at most so many sends, of fewer than so many packets a message, always deliver each flow in order and unchanged if and only if the sends are at most 2^32 and the limit at most 2^16, or no message takes more than one packet, or nothing is sent |
| BusLimits.TooManySends | src/bus/symmulcha.cpp:214 | with one send more, the receiver can be handed bytes of two messages as one, out of order: a run on one node with two ports |
| BusLimits.IdComesAgain | src/bus/symmulcha.cpp:214 | the sends and ticks of that run, from the constructor on |
| BusLimits.TooManyPackets | src/bus/symmulcha.h:85-86 | a message of 2^16 packets is handed out as zeros as soon as its first packet has come in |
| BusLimits.DeliveryMixesExactly | src/bus/symmulcha.cpp:350-370 | a delivery puts packets of two flows together exactly when the packet is one of several and its id has a list of another flow |
| BusLimits.LinesMissMixing | src/bus/symmulcha.cpp:359-369 | two senders' packets can make one message while the line of each flow still is what its packets are |
| BusLimits.ShortRunsDeliver | src/bus/symmulcha.cpp:202-306 | within the limits every run delivers, over every network and any traffic |
| BusLimits.SmallRunsAreRuns | src/bus/symmulcha.cpp:214 | messages of one packet need no ids: a run with no others is a run in the sense of the delivery theorems |
| BusOrder.InOrderExactly | src/bus/symmulcha.cpp:275-277 | over every network, in runs of at most so many sends, of fewer than so many packets a message, the order check in recv never fails if and only if the sends are at most 2^32 and the limit at most 2^16 + 1, or no message takes more than one packet, or nothing is sent |
| BusOrder.RoundCount | src/bus/symmulcha.h:85-86 | a message of 2^16 + 1 packets: each passes for a message of one packet, and recv finds the second one out of order |
| BusOrder.RunTidy | src/bus/symmulcha.cpp:350-370 | within those limits every receive buffer is a row of whole messages, every order list is sorted, and any two packets can be told apart |
| BusOrder.DeliverTidy | src/bus/symmulcha.cpp:350-370 | where packets can be told apart, a delivery leaves the lists sorted and the buffer a row of whole messages, in whatever order they come |
| BusOrder.CompleteIsWhole | src/bus/symmulcha.cpp:356-369 | a list that has grown to its count has exactly the packets 0, 1, ... in order |
| BusOrder.ToldMore | src/bus/symmulcha.cpp:214 | the packets of one more message with a new id can be told from all others |
| BusCensus.NothingLost | src/bus/symmulcha.cpp:202-419 | over every run, of messages of any size and with any ids in use: the packets sent, each as often as it was sent, are those handed out and those in the network |
| BusCensus.EveryRunDrains | src/bus/symmulcha.cpp:174-419 | over every run, whatever was sent: once sending stops, as many ticks as the measure says, with any receives between them, empty all send buffers, pipelines and edges, and everything lies at the node it is meant for |
| BusCensus.TickCensus | src/bus/symmulcha.cpp:174-181 | a tick moves packets and does nothing else to them |
| BusCensus.DeliverAtBag | src/bus/symmulcha.cpp:350-370 | a delivery keeps every packet, whether or not its message becomes complete, and whosever list its id has |
| BusCensus.RecvCensus | src/bus/symmulcha.cpp:275-293 | a receive takes out just the packets the head counts |
| BusTicks.EdgeExactly | src/bus/symmulcha.cpp:409-419 | from the state before and the state after: channel by channel, what waits at a free slot crosses if and only if fewer bytes than the wire width have crossed on the channels before; every other slot, and every other edge, is unchanged |
| BusTicks.WireUnique | src/bus/symmulcha.cpp:409-419 | before and width leave only one such outcome |
| BusTicks.TickEdgesExactly | src/bus/symmulcha.cpp:178-180 | every edge of a tick does just that |
| BusTicks.PipelineExactly | src/bus/symmulcha.cpp:383-404 | from the state before and after: of the packets that wait for a free slot of an edge and channel the first leaves into it, whatever other slots are full; all others stay, in order, and no other slot changes |
| BusNodes.AcceptExactly | src/bus/symmulcha.cpp:311-348 | one packet comes in: off the lowest full channel of the first edge, from rx_ptr on, that has one; only if no edge has any, out of the lowest non-empty send buffer of the first port, from sd_ptr on; else nothing changes |
| BusNodes.NodeExactly | src/bus/symmulcha.cpp:309-407 | a node step is that and then the pipeline, which already holds the packet that came in |
| BusNodes.ScanFirst | src/bus/symmulcha.cpp:313-348 | a scan once around finds the first ready place from the pointer on, or comes back to where it began |
| BusNodes.NodesEachAlone | src/bus/symmulcha.cpp:174-177 | in a tick, around every node just its own step happens, once, and as if it had been made first |
| BusNodes.TickExactly | src/bus/symmulcha.cpp:174-181 | the state after a tick, place by place: each node has made one step from the state before the tick, each wire has carried what its width allows of what these steps left at it, and nothing else has happened |
| BusNodes.TickUnique | src/bus/symmulcha.cpp:174-181 | there is only one such state |
| BusNodes.OrderIsImmaterial | src/bus/symmulcha.cpp:174-181 | a tick does the same in whatever order the hash map of nodes is walked |
| BusSends.SendBufferIsRest | src/bus/symmulcha.cpp:202-230 | over every run, what a send buffer holds is the rest of the last message sent from its port on its channel, with that message's id |
| BusSends.CanSendExactly | src/bus/symmulcha.cpp:193-200 | over every run, whatever else is under way: a port can send on a channel exactly when no packet of the last message it sent there is still in its send buffer |
| BusSends.CanSendAgain | src/bus/symmulcha.cpp:193-200 | once sending stops, within the draining bound every port can send on every channel again |
| BusSends.TickSends | src/bus/symmulcha.cpp:330-348 | a tick takes at most one packet out of a send buffer, from its front |
| BusWays.TickRouted | src/bus/symmulcha.cpp:174-181 | whatever was sent, a tick leaves every packet on the way of its flow, at an edge and channel that are its own |
| BusSizes.ReassemblyIffFits | src/bus/symmulcha.cpp:210-294 | the packets of a message, delivered one after the other, make one whole message, in order, that one recv takes and hands out with its bytes, if and only if they can be counted in 16 bits |
| BusSizes.RowArrives | src/bus/symmulcha.cpp:356-369 | packets with the right count pile up in the order buffer and leave it all together, in order |
| BusSizes.NoneLost | src/bus/symmulcha.cpp:350-370 | whatever the counts say, no packet gets lost at the destination |
| BusConservation.EachPacketOnce | src/bus/symmulcha.cpp:202-419 | in every run, of each flow, the packets of the messages sent and not yet received are in the network, each at exactly one place of all send buffers, pipelines, edge slots, order lists and receive buffers, and there is nothing else in it |
| BusConservation.FlowLaidOut | src/bus/symmulcha.cpp:309-419 | the line of a flow is laid out, one packet a place, over all places that hold a packet of the flow |
| BusConservation.LayAlong | src/bus/symmulcha.cpp:309-419 | so is what the nodes on the way of a flow hold, destination first |
| BusConservation.LayDest | src/bus/symmulcha.cpp:350-370 | and what has come in for it: the receive buffer and one order list |
| BusConservation.LayShare | src/bus/symmulcha.cpp:383-419 | and what a node on the way and the edge behind it hold of it |
| BusConservation.AllBelong | src/bus/symmulcha.cpp:309-419 | wherever a packet is, it is on the way of its flow, at the edge, channel, port or id that is its own |
| BusOps.SendKeeps | src/bus/symmulcha.cpp:202-230 | a send that fits the header and, if it takes several packets, has an unused id keeps the invariant and appends exactly one message to its flow (none if it is empty) |
| BusOps.TickKeeps | src/bus/symmulcha.cpp:174-181 | a tick, whatever it moves, changes no flow's line of messages and keeps the invariant |
| BusOps.NodeStepKeeps | src/bus/symmulcha.cpp:309-407 | processing one node keeps every flow's line and the invariant |
| BusOps.AcceptKeeps | src/bus/symmulcha.cpp:311-381 | taking in at most one packet, off an edge or out of a send buffer, keeps every flow's line and the invariant |
| BusOps.PipeScanKeeps | src/bus/symmulcha.cpp:383-404 | the pipeline scan never lets a packet overtake another with the same next hop and channel, and keeps the invariant |
| BusOps.EdgeStepKeeps | src/bus/symmulcha.cpp:409-419 | moving slots along an edge keeps the invariant, whatever the width lets through |
| BusOps.SendFlow | src/bus/symmulcha.cpp:215-229 | after a send the flow's packets in flight are those before followed by the new message's packets; all other flows are unchanged |
| BusSteps.EdgeMoveKeeps | src/bus/symmulcha.cpp:412-414 | one input slot to one output slot keeps the order of every flow |
| BusSteps.PipeOutKeeps | src/bus/symmulcha.cpp:391-397 | a packet leaving the pipeline behind blocked ones keeps the order of every flow |
| BusSteps.TakeEdgeKeeps | src/bus/symmulcha.cpp:316-318 | a packet taken off an edge and accepted keeps the order of every flow |
| BusSteps.TakeSendKeeps | src/bus/symmulcha.cpp:333-335 | a packet taken out of a send buffer and accepted keeps the order of every flow |
| BusSteps.ArriveKeeps | src/bus/symmulcha.cpp:350-381 | an arriving packet either extends the pipeline's share of its flow or its destination's, at the right end |
| BusSteps.QuietKeeps | src/bus/symmulcha.cpp:383-401 | counting down latencies and moving round-robin pointers moves no packet |
| BusDelivery.DeliverKeeps | src/bus/symmulcha.cpp:351-370 | the next packet of a flow, delivered, keeps order buffer and receive buffer consistent, whether or not it completes its message |
| BusDelivery.DeliverAtResult | src/bus/symmulcha.cpp:356-369 | the next packet in line goes to the end of its order list, and the last one moves the whole list, in order, to the receive buffer |
| BusDelivery.PartOfNext | src/bus/symmulcha.cpp:359-370 | a partly arrived message is a beginning of the flow's next message and of no other |
| BusDelivery.HeldMessage | src/bus/symmulcha.cpp:359-370 | what the order buffer holds for a flow is a proper beginning of its first incomplete message |
| BusDelivery.PacketsShape | src/bus/symmulcha.cpp:210-230 | the packets of a message that fits carry indices 0 to count-1, its count, id, length and flow, and its bytes in order |
| BusDelivery.FilterFlatten | src/bus/symmulcha.cpp:202-230 | the messages of one flow and the packets of one flow are the same line |
| BusRecv.Reassembly | src/bus/symmulcha.cpp:210-230 | the packets of a message joined are its bytes, filled up with zeros |
| BusRecv.JoinIntoIs | src/bus/symmulcha.cpp:270-294 | the resized buffer, overwritten with the packets of a message and cut, is the message, whatever the buffer held |
| BusRecv.HeadBytes | src/bus/symmulcha.cpp:262-294 | what a receive hands out is the oldest message of its flow |
| BusRecv.HeadMessage | src/bus/symmulcha.cpp:262-278 | a message can be received exactly when the buffer is not empty; the head packets are then the oldest message of their flow with indices 0, 1, ... (the order assertion cannot fail) and its exact bytes |
| BusRecv.RecvKeeps | src/bus/symmulcha.cpp:262-294 | a receive removes exactly the oldest message of its flow and keeps the invariant |
| BusMeasure.EdgeMoveWeight | src/bus/symmulcha.cpp:412-414 | moving along an edge lowers the sum of 3 x remaining hops + stage by exactly one |
| BusMeasure.PipeOutWeight | src/bus/symmulcha.cpp:395-397 | leaving the pipeline lowers the measure by exactly one |
| BusMeasure.TakeEdgeWeight | src/bus/symmulcha.cpp:316-381 | coming off an edge into a node or to its destination lowers the measure by exactly one |
| BusMeasure.TakeSendInWeight | src/bus/symmulcha.cpp:333-381 | leaving a send buffer lowers the measure by exactly one |
| BusMeasure.DistHop | src/bus/symmulcha.cpp:60-73 | each hop of an accepted table is one step closer to the destination |
| BusDraining.TickProgress | src/bus/symmulcha.cpp:174-181 | no deadlock, whatever was sent: while any packet is in a send buffer, pipeline or edge slot, every tick lowers the measure |
| BusDraining.TickMonotone | src/bus/symmulcha.cpp:174-181 | no tick raises the measure |
| BusDraining.DrainedIsComplete | src/bus/symmulcha.cpp:350-370 | when nothing is under way every message in flight lies complete in its receive buffer |
| BusDraining.DrainedIsZero | src/bus/symmulcha.cpp:174-181 | the measure is zero exactly when nothing is under way |
| BusDraining.NodeStepProgress | src/bus/symmulcha.cpp:309-407 | a node step lowers the measure, or moves nothing because nothing waits for it and its pipeline is blocked |
| BusDraining.ScanMissAll | src/bus/symmulcha.cpp:313-348 | a full round of the round-robin scan that finds nothing has looked at every place |
| BusDraining.EdgeStepProgress | src/bus/symmulcha.cpp:409-419 | an edge step lowers the measure, or leaves the edge alone with no slot free to move |
| BusDraining.IdleIsDrained | src/bus/symmulcha.cpp:309-419 | a network in which no node and no edge can move holds nothing to move |
| BusTopology.BuildTopology | src/bus/symmulcha.cpp:33-119 | for every table, the constructor succeeds exactly when every port is given once, with a node, every node reaches every other one by the table, and an even number of nodes have routes that hop in place; what it builds has the widths, the table, each node once and just the edges of the table, and meets all assumptions of the network if and only if no width is zero and no route leaves the nodes of the bus |
| BusTopology.AllReachExactly | src/bus/symmulcha.cpp:60-73 | for a table that stays among the nodes, the bounded check passes exactly when every node ever reaches every other |
| BusTopology.LeavesBus | src/bus/symmulcha.cpp:75-84 | a hop to or from elsewhere makes up a node that is not on the bus, and what is built does not meet the assumptions |
| BusTopology.OneHopInPlace | src/bus/symmulcha.cpp:75-85 | one node whose route to itself hops in place: every check passes up to the number of edges, which is one |
| BusTopology.CollectNodes | src/bus/symmulcha.cpp:49-52 | each node once |
| BusTopology.CollectPorts | src/bus/symmulcha.cpp:54-58 | the size check detects exactly the repeated ports |
| BusTopology.CollectEdges | src/bus/symmulcha.cpp:75-84 | the edges are the hops of the table in both directions, and nothing else |
| BusTopology.ConnectEdges | src/bus/symmulcha.cpp:110-119 | every edge is hung on its two nodes, and every pair of neighbours finds its edge |
| BusTopology.HangPorts | src/bus/symmulcha.cpp:94-99 | every port is on its node, once |
| BusTopology.EdgeCountEven | src/bus/symmulcha.cpp:85 | for every table, the number of edges is even if and only if the number of nodes with a route that hops in place is |
| Bus.SymmetricMultiChannelBus.constructor | src/bus/symmulcha.cpp:88-119 | a new bus is empty, its pointers are in range, and the invariant holds |
| Bus.SymmetricMultiChannelBus.PortSend | src/bus/symmulcha.cpp:202-242 | refused and without effect exactly when the send buffer is occupied; else the packets of the message and the next id, and the invariant if the message fits and its id, if it needs one, is unused |
| Bus.SymmetricMultiChannelBus.PortCanSend | src/bus/symmulcha.cpp:193-200 | true exactly when the send buffer is empty |
| Bus.SymmetricMultiChannelBus.PushPackets | src/bus/symmulcha.cpp:215-230 | the packet loop leaves exactly the packets of the message in the send buffer |
| Bus.SymmetricMultiChannelBus.PortCanRecv | src/bus/symmulcha.cpp:254-260 | true exactly when the head counts no more packets than are there; by the invariant, when a message is complete |
| Bus.SymmetricMultiChannelBus.PortRecv | src/bus/symmulcha.cpp:262-306 | refused and without effect when nothing is complete; else exactly the packets the head counts leave and their bytes are handed out; in a network that meets the invariant, those of the oldest complete message of its flow |
| Bus.ValidFits | src/bus/symmulcha.cpp:275-293 | the invariant gives what recv needs: the order assertion holds, and all packets fit the buffer they are copied to |
| Bus.SymmetricMultiChannelBus.PopPackets | src/bus/symmulcha.cpp:275-293 | the copying loop joins the packets and removes just them |
| Bus.SymmetricMultiChannelBus.ApplyNextTick | src/bus/symmulcha.cpp:174-181 | the node and edge loops have the effect of one tick in every state; which `BusNodes.TickExactly` tells place by place; the measure falls unless nothing is under way, and no flow's messages change |
| Bus.SymmetricMultiChannelBus.ProcessNode | src/bus/symmulcha.cpp:309-407 | one node step in every state, keeping the invariant where it holds |
| Bus.SymmetricMultiChannelBus.TakeOne | src/bus/symmulcha.cpp:311-381 | at most one packet is taken, edges before ports, and given where it belongs |
| Bus.SymmetricMultiChannelBus.TakeFromEdges | src/bus/symmulcha.cpp:313-328 | the scan takes the first occupied slot of the first edge from rx_ptr on, and leaves the pointer on the hit |
| Bus.SymmetricMultiChannelBus.TakeFromPorts | src/bus/symmulcha.cpp:330-348 | the scan takes the head of the first send buffer from sd_ptr on, and leaves the pointer on the hit |
| Bus.SymmetricMultiChannelBus.Receive | src/bus/symmulcha.cpp:350-381 | receive buffer, order buffer or pipeline, as the packet asks |
| Bus.SymmetricMultiChannelBus.InsertSorted | src/bus/symmulcha.cpp:363-365 | insertion before the first packet with an index that is not smaller |
| Bus.SymmetricMultiChannelBus.ScanPipeline | src/bus/symmulcha.cpp:383-404 | the loop that revisits an entry until its latency is used up terminates, and does what a scan without latencies does |
| Bus.SymmetricMultiChannelBus.ProcessEdge | src/bus/symmulcha.cpp:409-419 | in every state, channels cross in order until the width is used up, and nothing else changes; the invariant is kept where it holds |
| Bus.ScanForgetsLatency | src/bus/symmulcha.cpp:386-390 | the remaining latency of a pipeline entry has no influence on what the scan does |
| RouteTable.BoundedWalkIsExact | src/bus/routetable.cpp:154-172 | for a table that stays among the nodes, the walk of at most as many hops as nodes arrives if and only if following the table ever arrives |
| RouteTable.VisitedDistinct | src/bus/routetable.cpp:154-172 | a walk that arrives visits no node twice |
| RouteTable.AssertRouteTableValid | src/bus/routetable.cpp:154-172 | the check passes exactly when every node reaches every other within as many hops as the list is long; for a table that stays among the nodes, exactly when it ever does |
| RouteTable.CheckRouteTable | src/bus/routetable.cpp:155-171 | the two loops find a failing pair if there is one |
| RouteTable.CheckPair | src/bus/routetable.cpp:157-166 | the bounded loop arrives exactly when the walk of that length does |
| Rings.Closer | src/bus/routetable.cpp:82-94 | the neighbour the generators choose is exactly one step closer, forward or the shorter way round |
| Rings.ShortestWay | src/bus/routetable.cpp:82-94 | the two-way ring distance cannot be beaten by any hop |
| Rings.ForwardOnTie | src/bus/routetable.cpp:82-94 | with both directions the way goes forward if and only if it is no longer than the way back |
| RouteGenerators.RouteInsert | src/bus/routetable.cpp:29-35 | one entry set, all others kept |
| RouteGenerators.CollisionCheck | src/bus/routetable.cpp:51-58 | the check keyed by position succeeds for every list of ids |
| RouteGenerators.GenSingleRing | src/bus/routetable.cpp:50-71 | for every list the table stays within it; for distinct nodes every entry is the next node, and there are no others |
| RouteGenerators.GenDoubleRing | src/bus/routetable.cpp:73-100 | for every list the table stays within it; for distinct nodes every entry is the neighbour on the shorter way round, forward on a tie, and there are no others |
| RouteGenerators.RingExactly | src/bus/routetable.cpp:50-100 | a generated ring table takes exactly the ring distances between all positions if and only if no node is in the list twice |
| RouteGenerators.DoubleRingSource | src/bus/routetable.cpp:83-99 | the forward half and the backward rest of one source |
| RouteGenerators.RingWalk | src/bus/routetable.cpp:50-100 | following a ring table takes exactly the forward distance, a double-ring table exactly the shortest one |
| RouteGenerators.RingAccepted | src/bus/routetable.cpp:50-100 | ring tables stay among the nodes, never hop in place, and pass the bounded check |
| RouteMesh.GenMesh2dXY | src/bus/routetable.cpp:102-152 | refused exactly when the list has not the size of the grid or the grid has several rows and is wider or higher than 2^16; else, for every list the table stays within it, and for distinct nodes it has all entries of the torus, along the row first, and no others |
| RouteMesh.FillGrid | src/bus/routetable.cpp:115-151 | the loops over all sources fill in every entry |
| RouteMesh.NextByPosition | src/bus/routetable.cpp:102-152 | the table entry between any two list positions, the list read as the grid row by row |
| RouteMesh.MeshExactly | src/bus/routetable.cpp:102-152 | a generated torus table takes exactly the torus distances between all places if and only if no node is in the list twice |
| RouteMesh.FillRow | src/bus/routetable.cpp:118-135 | the entries of one source to all other columns |
| RouteMesh.FillColumn | src/bus/routetable.cpp:121-123 | one column: the same hop for all its rows |
| RouteMesh.FillY | src/bus/routetable.cpp:136-149 | the entries of one source within its own column |
| RouteMesh.MeshWalk | src/bus/routetable.cpp:102-152 | following the table takes exactly the row ring distance plus the column ring distance: shortest with both directions, forward with one |
| RouteMesh.XBeforeY | src/bus/routetable.cpp:102-152 | the first hops stay in the source's row until the column is right; after that the column is kept |
| RouteMesh.MeshAccepted | src/bus/routetable.cpp:102-152 | torus tables stay among the nodes, never hop in place, and pass the bounded check |
| RouteMesh.GridDistinct | src/bus/routetable.cpp:104-113 | distinct coordinates are distinct nodes |
| MeshCoordinates.SizeCheck | src/bus/routetable.cpp:104-113 | the check counts different packed coordinates: it passes exactly when the list has the size of the grid and all coordinates fit |
| MeshCoordinates.KeysDistinct | src/bus/routetable.cpp:104-113 | the packed coordinates of all places are different if and only if the grid has no more than one row or is at most 2^16 wide and 2^16 high |
| GeneratedBus.DoubleRingBus | src/bus/symmulcha.cpp:33-119 | the network's constructor accepts every double-ring table, with any number of ports at each node |
| GeneratedBus.MeshBus | src/bus/symmulcha.cpp:33-119 | the network's constructor accepts every torus table there is, with any number of ports at each node |
| GeneratedBus.AcceptedIsInside | src/bus/symmulcha.cpp:60-84 | what the generators guarantee is what the constructor needs |
| HugeNumber.HugeNumber.AddAbs | src/huge_number.h:451-472 | the magnitude sum, with the carry running past the longer operand |
| HugeNumber.HugeNumber.AddAbsOwn | src/huge_number.h:452-472 | twice the magnitude, when the vector added is the one that grows |
| HugeNumber.HugeNumber.SubAbs | src/huge_number.h:473-484 | the magnitude difference, in bounds, canonical |
| HugeNumber.HugeNumber.SubByAbs | src/huge_number.h:485-507 | the reversed difference, with carry and borrow running at the same time, in bounds, canonical |
| HugeNumber.HugeNumber.Add | src/huge_number.h:259-270 | the exact signed sum for all lengths and signs, in canonical form |
| HugeNumber.HugeNumber.AddLimb | src/huge_number.h:256-270 | the exact sum with a signed machine word |
| HugeNumber.HugeNumber.Plus | src/huge_number.h:256-270 | the exact sum, also of a number with itself |
| HugeNumber.HugeNumber.Minus | src/huge_number.h:271-273 | the exact difference, also of a number with itself |
| HugeNumber.HugeNumber.Compare | src/huge_number.h:439-450 | -1, 0 or 1 as the magnitudes compare |
| HugeNumber.HugeNumber.Less | src/huge_number.h:366-375 | the order of the values, across signs |
| HugeNumber.HugeNumber.Equal | src/huge_number.h:134 | equality of the stored form is equality of values |
| HugeNumber.HugeNumber.Negate | src/huge_number.h:251-255 | the negative, with no negative zero |
| HugeNumber.HugeNumber.Shrink | src/huge_number.h:387-391 | the same value in canonical form |
| HugeNumber.HugeNumber.ShiftLeft | src/huge_number.h:342-352 | times 2^n, through copies that straddle limbs |
| HugeNumber.HugeNumber.ShiftRight | src/huge_number.h:353-362 | the magnitude divided by 2^n, rounded towards zero |
| HugeNumber.HugeNumber.Mul | src/huge_number.h:286-297 | the exact product, also of a number with itself |
| HugeNumber.HugeNumber.MulLimb | src/huge_number.h:274-284 | the exact product with a signed machine word |
| HugeNumber.HugeNumber.MulSign | src/huge_number.h:508-517 | the sign of the product, and the cases that need no loop |
| HugeNumber.HugeNumber.TopBit | src/huge_number.h:529-535 | the place of the highest one bit |
| HugeNumber.HugeNumber.DivRound | src/huge_number.h:332-340 | one round keeps |a| = q|b| + r and halves the bound on r |
| HugeNumber.HugeNumber.DivModAbs | src/huge_number.h:326-341 | ends with |a| = q|b| + r and r < |b|, from the bit-count difference on |
| HugeNumber.HugeNumber.Div | src/huge_number.h:298-312 | an error exactly for a zero divisor; else the quotient rounded towards zero |
| HugeNumber.HugeNumber.Mod | src/huge_number.h:313-325 | an error exactly for a zero divisor; else the remainder of that quotient, zero or of the dividend's sign |
| HugeNumber.TruncDivMod | src/huge_number.h:298-325 | quotient and remainder fit together: a = q*b + m, |m| < |b|, m zero or of a's sign |
| HugeNumber.TruncUnique | src/huge_number.h:298-325 | no other quotient and remainder do |
| HugeNumber.CanonicalForm | src/huge_number.h:134 | two canonical numbers are stored alike exactly when they are equal |
| Limbs.BaseIsPow2 | src/huge_number.h:28 | a limb has 64 bits |
| Limbs.CanonicalUnique | src/huge_number.h:134 | canonical limb vectors of equal value are equal |
| Limbs.HigherLimbWins | src/huge_number.h:439-450 | the highest differing limb decides the comparison |
| Bits.GetBitsIs | src/huge_number.h:546-557 | reading n bits at any place is division and remainder of the whole number, also across limbs |
| Bits.SetBitsIs | src/huge_number.h:571-581 | writing n bits at any place replaces exactly those bits of the number |
| Bits.ToBitsIs | src/huge_number.h:592-599 | appending a field above everything written so far adds it at its place |
| Bits.ToBitsReverseIs | src/huge_number.h:602-610 | writing a field below everything written so far adds it at its place |
| Numerals.PrintParse | src/huge_number.h:392-429 | every number printed in base 10, or in base 2, 8, 16 with the mark, is read back as itself |
| Numerals.PrintedExactly | src/huge_number.h:170-181 | a text is what is printed if and only if it is a minus for negative numbers and no other sign, the mark if wanted, and digits of the base, in the case asked for, without a leading zero, that stand for the magnitude |
| Numerals.UnmarkedRoundTrip | src/huge_number.h:392-407 | without the mark, exactly the numbers that are one decimal digit in their base are read back as themselves |
| Numerals.DigitsUnique | src/huge_number.h:392-429 | digits without a zero on top are the only digits of their number |
| HugeText.ToString | src/huge_number.h:170-181 | the numeral of the value, with sign and mark, in the four bases; nothing for any other |
| HugeText.ToStringX | src/huge_number.h:392-408 | groups of bits from the low end, high zeros erased and reversed, are the numeral |
| HugeText.Groups | src/huge_number.h:397-399 | the groups of bits are the digits |
| HugeText.ToString10 | src/huge_number.h:409-429 | doubling decimal digits from the top bit down gives the decimal numeral |
| HugeText.DoubleAdd | src/huge_number.h:411-422 | one pass computes 2x + bit in decimal digits |
| HugeText.DecimalDigits | src/huge_number.h:411-422 | all passes give the digits of the magnitude |
| HugeText.ReverseAdd | src/huge_number.h:611-618 | reverses and shifts every character, the middle one once |
| HugeText.CheckBase | src/huge_number.h:627-658 | the loop computes the state machine's verdict |
| HugeText.CheckRunMeans | src/huge_number.h:627-658 | what each state says about the text read so far, for all texts |
| HugeText.CheckBaseExact | src/huge_number.h:627-658 | a text with at most one sign gets a base exactly when it is a numeral |
| HugeText.AcceptsExactly | src/huge_number.h:631-633 | which texts are accepted at all: numerals behind any number of signs |
| HugeText.OnlySignsDropped | src/huge_number.h:631-633 | what is left out in front of the numeral is plus and minus characters, all of them and nothing else |
| HugeText.RepeatedSignsAccepted | src/huge_number.h:631-633 | extra leading signs change nothing of the verdict |
| HugeText.FromText | src/huge_number.h:201-250 | for every text, the number ReadAs tells with the sign of the first character, in canonical form, or an error that changes nothing, exactly when what follows the signs is no numeral |
| HugeText.ReadExactly | src/huge_number.h:217-236 | the number read is that of the numeral if and only if the text has at most one sign or is not decimal |
| HugeText.OneSignReads | src/huge_number.h:201-250 | with at most one sign, the number read is the one the text stands for |
| HugeText.DecimalRow | src/huge_number.h:217-221 | signs after the first stay among the digits, as negative ones; what the halving passes make of them |
| HugeText.TwoSigns | src/huge_number.h:217-236 | "--5" is read as minus thirty-five |
| HugeText.ReadGroups | src/huge_number.h:206-216 | bit groups from the end back to the mark or sign are the number |
| HugeText.Halve | src/huge_number.h:224-230 | one pass halves the row from the top down and gives the bit that falls out, with division towards zero |
| HugeText.HalvingBits | src/huge_number.h:222-235 | repeated halving collects the bits of the number, with a negative top digit read as a positive one |
| HugeText.ReadDecimal | src/huge_number.h:217-236 | the decimal text, its first sign replaced by a zero, gives the number ReadAs tells |
| HugeText.PrintThenParse | src/huge_number.h:201-429 | printing and parsing rebuild the number limb for limb |
| HalvedDigits.PassHalves | src/huge_number.h:222-235 | a row no place of which is negative when its turn comes is halved as the number it is |
| HalvedDigits.PassMirrors | src/huge_number.h:222-235 | whether the top digit is negative makes no difference to the bits that fall out |
| HalvedDigits.SteadyBelow | src/huge_number.h:222-235 | digits below a steady row make a steady row, of the number put together |
| SpinBarrier.NobodyPassesEarly | src/spinlocks.h:103-124 | in every interleaving no thread returns from its k-th wait before all have arrived in their k-th, and completed waits differ by at most one |
| SpinBarrier.WaitExactly | src/spinlocks.h:103-124 | every step of wait(), in rounds: the call reads step_, arrives, is the last exactly when all others have arrived, and returns: the last after its two stores, the others as soon as the round is over and not before |
| SpinBarrier.WaitersCounted | src/spinlocks.h:107-111 | nwait_ is the arrivals of the current round, except between the last arriver's reset and its store to step_, and step_ is the number of rounds modulo 2^32 |
| SpinBarrier.StuckWaitsForCallers | src/spinlocks.h:113-116 | when nobody inside can move, somebody has yet to call wait(), and the waiting threads wait for just those |
| SpinBarrier.BusyIsShort | src/spinlocks.h:103-124 | without new calls at most four useful steps a thread remain |
| SpinBarrier.EverybodyReturns | src/spinlocks.h:103-124 | once all have called wait(), every useful schedule that cannot be continued has brought all of them back |
| SpinBarrier.StepInv | src/spinlocks.h:103-124 | every atomic step keeps the invariant |
| SpinBarrier.Barrier.Advance | src/spinlocks.h:103-124 | the operations on the two counters are the steps of the machine |
| SpinRWLock.Exclusion | src/spinlocks.cpp:37-131 | in every interleaving a writer is alone, the lock word is the number of readers or -1, and both assert(false) are unreachable |
| SpinRWLock.CallsEnd | src/spinlocks.cpp:37-131 | over every schedule: read_lock ends inside, write_lock ends inside, both unlocks end outside, nothing else ends them, and no step moves another thread |
| SpinRWLock.ThroughTheLock | src/spinlocks.cpp:42-103 | a thread that has called read_lock or write_lock and is outside again has been inside in between |
| SpinRWLock.FailsForAReason | src/spinlocks.cpp:42-129 | a compare-exchange that fails, and not for no reason, fails because another thread's has succeeded since the load |
| SpinRWLock.GetsInExactly | src/spinlocks.cpp:37-131 | alone and without spurious failures a thread gets in within two steps exactly when it may: no unlock is ever lost |
| SpinRWLock.StepInv | src/spinlocks.cpp:37-131 | every load and compare-exchange, also a failing one, keeps the invariant |
| SpinRWLock.RWLock.Advance | src/spinlocks.cpp:37-131 | the operations on the lock word are the steps of the machine |
| TickCalls.EachCallOnce | src/simroot.cpp:197-212 | over every run, for every thread, object, tick and phase: the callback begins once and ends once if the object is due in the tick and asks for the phase, as soon as the thread has come that far, and never otherwise |
| TickCalls.CallbacksExactly | src/simroot.cpp:195-243 | over every run, what a thread has called, in order, is what its place in the loop says: tick by tick, phase by phase, the due objects in the order of registration |
| TickCalls.OneAtATime | src/simroot.cpp:197-212 | each callback of a thread ends before its next one begins |
| TickProgress.TicksGoOn | src/simroot.cpp:195-243 | as long as nobody stops the simulation some step always does something, and any schedule of more than (2t + 1) times the steps of one round, each of which does something, takes every thread through t ticks |
| TickProgress.HaltedExactly | src/simroot.cpp:195-243 | nobody can move if and only if no step does anything |
| TickRuns.PhasesExclusive | src/simroot.cpp:195-243 | at no moment is one thread in its apply phase and another in its current phase; all threads in the current phase are in the same tick and read the same current_tick |
| TickRuns.CallbacksInOrder | src/simroot.cpp:197-212 | over whole runs, callbacks begin and end tick by tick, all on_current_tick calls before all apply_next_tick calls |
| TickRuns.ObjectsOnTime | src/simroot.cpp:197-212 | the countdown of an object is at zero in both phases of the same ticks, one in every latency |
| TickRuns.StopExactly | src/simroot.cpp:290-292 | a stop from the apply phase always ends the run properly; one from the current phase exactly when every thread has entered the tick, else the caller never leaves its barrier |
| TickRuns.StopTooEarly | src/simroot.cpp:290-292 | two threads and three steps that show it |
| TickRuns.SameNumberOfTicks | src/simroot.cpp:195-243 | in every run stopped from the apply phase only, all threads leave after the same number of ticks, which current_tick has counted |
| TickRuns.NeverHalted | src/simroot.cpp:195-243 | while the simulation runs some thread can always move |
| TickRuns.StopTakesEffect | src/simroot.cpp:195-243 | after a proper stop only a bounded number of steps is left, and when they are taken every thread has left after the same tick |
| TickRuns.AllLeave | src/simroot.cpp:195-243 | after a proper stop nobody is left in a barrier |
| TickEngine.StepInv | src/simroot.cpp:195-243 | every step of every thread keeps the invariant of the tick loop |
| TickEngine.NextOnTime | src/simroot.cpp:205-211 | the countdown of an object follows its latency |
| SimRoot.SimRoot.AddSimObject | src/simroot.cpp:145-161 | objects go to the thread whose turn it is; those of latency zero to none |
| SimRoot.SimRoot.AddSimObjectNextThread | src/simroot.cpp:163-166 | the same, and the turn passes on, round robin |
| SimRoot.SimRoot.CurrentPhase | src/simroot.cpp:197-201 | calls exactly the objects that are due, in order |
| SimRoot.SimRoot.ApplyPhase | src/simroot.cpp:205-211 | calls exactly the objects that are due, in order, and counts every object down once |
| SimRoot.DueIsWanted | src/simroot.cpp:197-211 | what the two loops call in a tick is what `TickCalls.EachCallOnce` asks for |
| SimRoot.DueOneInLatency | src/simroot.cpp:145-153 | a new object is due in exactly one tick of every latency, in both phases alike |
| TickRing.AnswersExactly | src/tickqueue.h:238-344 | every run of push, pop, top, tick, clear, empty, size and can calls is answered as by the three lists if and only if 2 * (iwid + owid + qsize) + 15 < 2^32 |
| TickRing.FullLooksEmpty | src/tickqueue.h:238-251 | for all other sizes: without a buffer the first push divides by zero; else a run of pushes and ticks fills the buffer, and the queue says it is empty and hands out nothing |
| TickRing.RunsAlike | src/tickqueue.h:252-344 | over every run the queue of sizes that fit stays in order and holds just what the lists hold |
| TickRing.CallAlike | src/tickqueue.h:252-344 | one call to a queue in order is answered and done as by the lists |
| TickRing.LengthOf | src/tickqueue.h:238-251 | sizes that fit get a buffer of at least twice their capacity, all others one of no more than their capacity |
| TickRing.TickInOrder | src/tickqueue.h:252-277 | moving cursors has exactly the effect of the list version's three moving loops |
| TickRing.TickSizes | src/tickqueue.h:252-277 | a tick moves the two borders between the regions and nothing else that is ever read |
| TickRing.OneStretch | src/tickqueue.h:339-344 | read from the bottom the buffer is pop_buf, q and push_buf of the list version, and bottom meets ptr exactly when nothing is inside |
| TickRing.AllInOrder | src/tickqueue.h:302-337 | the loop of clear and dbg_get_all finds everything, oldest first |
| TickQueue.SimpleTickQueue.constructor | src/tickqueue.h:238-251 | an empty queue, for all sizes the program accepts; in order if and only if the sizes fit 32 bits |
| TickQueue.SimpleTickQueue.ApplyNextTick | src/tickqueue.h:252-277 | the tick of the cursor program, for all sizes; in a queue in order the three moving loops of the lists |
| TickQueue.SimpleTickQueue.Push | src/tickqueue.h:294-300 | refused exactly when the input width is used up; else the element is written and, in order, appended |
| TickQueue.SimpleTickQueue.Pop | src/tickqueue.h:289-293 | the cursor moves on; in order, the first element leaves |
| TickQueue.SimpleTickQueue.PassTo | src/tickqueue.h:315-323 | all or none, in order, also to the queue itself |
| TickQueue.SimpleTickQueue.Clear | src/tickqueue.h:302-309 | hands out what the loop from bottom to ptr finds; in order, everything |
| TickQueue.SimpleTickQueue.DbgGetAll | src/tickqueue.h:332-337 | the same, and leaves it there |
| TickQueue.SimpleTickQueue.Empty | src/tickqueue.h:311-313 | bottom meets ptr; in order, exactly when nothing is inside |
| TickLists.FirstInFirstOut | src/tickqueue.h:302-323 | over every run on any number of queues, of pushes, pops, ticks, passes from queue to queue and clears, what a queue took in is what left it followed by what is inside, in order, and no region outgrows its width |
| TickLists.RowInOrder | src/tickqueue.h:315-323 | queues passed along in a row are first in, first out from end to end |
| TickLists.OpExactly | src/tickqueue.h:289-323 | what each operation takes in and gives out: a push unless the width is used up, a pop unless there is nothing, a pass all or nothing |
| TickLists.ApplyKeepsOrder | src/tickqueue.h:363-367 | a tick loses, doubles and reorders nothing |
| TickLists.TickFills | src/tickqueue.h:363-367 | a tick fills the output from the oldest element on, then the queue, and leaves the rest |
| TickLists.ApplyMovesAll | src/tickqueue.h:363-367 | a tick leaves room ahead only when nothing waits behind |
| TickLists.ApplyBySizes | src/tickqueue.h:252-277 | the list version's result is determined by the sizes the cursor version computes |
| LruLists.StackProperty | src/cache/cachecommon.h:77-101 | with w ways a set lists the first w lines of the recency order of its accesses |
| LruLists.Inclusion | src/cache/cachecommon.h:77-101 | a cache with more ways holds every line of one with fewer |
| LruLists.EvictsOldest | src/cache/cachecommon.h:91-99 | the line at the end of a full list is the one used longest ago |
| LruLists.RecencyOrder | src/cache/cachecommon.h:141-145 | the recency list is in the order of last use |
| LruLists.SetsIndependent | src/cache/cachecommon.h:146-148 | each set of a cache sees only its own lines |
| LruLists.IndexIsLowBits | src/cache/cachecommon.h:146-148 | the set index is the low bits of the line: bitwise and with the number of sets less one is the remainder |
| LruLists.SameSet | src/cache/cachecommon.h:146-148 | two lines share a set if and only if they are a multiple of the number of sets apart |
| LruCache.GenericLRUCacheBlock.constructor | src/cache/cachecommon.h:35-41 | 2^offset empty sets, in order |
| LruCache.GenericLRUCacheBlock.GetLine | src/cache/cachecommon.h:48-62 | agrees with a plain map; keeps the block in order exactly when no pinned line is counted as used |
| LruCache.GenericLRUCacheBlock.UpdateLine | src/cache/cachecommon.h:63-75 | changes just the payload of a present line; keeps the block in order exactly when no pinned line is counted as used |
| LruCache.GenericLRUCacheBlock.InsertLine | src/cache/cachecommon.h:77-101 | agrees with a plain map less the evicted line, which is the last listed one and never pinned; keeps the block in order exactly when the line was not pinned |
| LruCache.GenericLRUCacheBlock.RemoveLine | src/cache/cachecommon.h:102-109 | agrees with a plain map; keeps the block in order |
| LruCache.GenericLRUCacheBlock.Clear | src/cache/cachecommon.h:110-115 | empties all sets; leaves the block in order exactly when no line was pinned |
| LruCache.GenericLRUCacheBlock.Pin | src/cache/cachecommon.h:116-123 | the first listing of a line leaves the recency list; in a block in order, which stays in order, the line then is not listed and cannot be evicted |
| LruCache.GenericLRUCacheBlock.Unpin | src/cache/cachecommon.h:124-131 | a pinned line comes back as the most recent one |
| LruCache.GenericLRUCacheBlock.TagLru | src/cache/cachecommon.h:141-145 | the line becomes the most recent one, once |
| LruCache.Replay | src/cache/cachecommon.h:77-101 | after any run of insertions into a fresh block, every set holds and lists the most recent lines that fall into it |
| LruCache.ClearedWhilePinned | src/cache/cachecommon.h:110-131 | pin, clear, insert, unpin: the line is listed twice |
| LruCache.ListedOnly | src/cache/cachecommon.h:77-101 | without pinned lines a set holds exactly what it lists |
| LruRuns.Perform | src/cache/cachecommon.h:43-148 | any sequence of operations on a new block, up to the first that counts an access to a pinned line, inserts one again, clears while lines are pinned, or inserts into a set full of pinned lines: every lookup is that of a plain map less what was removed and evicted; a line is evicted only from a full set, is not pinned, and was used longest ago of all such lines; no set ever has more lines than ways |
| LruRuns.FillBlock | src/cache/cachecommon.h:35-101 | any row of at most 2^k * ways consecutive lines inserted into a new block evicts nothing, and all of them are found |
| LruRuns.DoInsert | src/cache/cachecommon.h:77-101 | an insertion evicts just that, and the block goes on agreeing with the plain map |
| LruRuns.LastIsOldest | src/cache/cachecommon.h:91-99 | the last listed line is the one used longest ago of those not pinned |
| LruRuns.EvictsRight | src/cache/cachecommon.h:84-99 | the last listed line of a full set is what an insertion should evict, and a set with room needs no eviction |
| LruRuns.DoUnpin | src/cache/cachecommon.h:124-131 | an unpinned line counts as used just now |
| Dma.DMAAsCore.OnCurrentTick | src/cache/dma.cpp:44-90 | a refused request changes nothing; a granted one makes the work left exactly one tick shorter; order, contents and callbacks stay as the invariant says |
| Dma.DMAAsCore.Serve | src/cache/dma.cpp:55-89 | a granted tick copies one line's worth and finishes the request when it is complete |
| Dma.DMAAsCore.StartNext | src/cache/dma.cpp:47-52 | the oldest request is taken up when none is at work |
| Dma.DMAAsCore.LineToHost | src/cache/dma.cpp:55-64 | what is copied out of the line buffer is what the memory holds |
| Dma.DMAAsCore.LineFromHost | src/cache/dma.cpp:71-82 | a changed line stored whole changes just the bytes of the request |
| Dma.DMAAsCore.MoveOn | src/cache/dma.cpp:65-70 | the position advances, and a complete request makes its callback once, if it has one |
| Dma.DMAAsCore.PushDmaRequests | src/cache/dma.cpp:38-42 | new requests queue behind all others, and each adds its ticks to the work left |
| Dma.DMAAsCore.ApplyNextTick | src/cache/dma.cpp:92-96 | arrivals become visible, in order |
| Dma.DMAAsCore.AllDone | src/cache/dma.cpp:38-96 | when no work is left, memory is as if all requests had been carried out at once one after the other, and each non-zero callback was made once, in order |
| Dma.Perform | src/cache/dma.cpp:38-96 | over any sequence of pushes, ticks and cache answers the work left is that of all requests pushed less one tick for every grant there was work for; once nothing more arrives, as many grants as there is work left finish everything pushed, in order and as if at once |
| Dma.CopyExact | src/cache/dma.cpp:55-89 | a finished request has copied exactly its bytes, to the host for flag 2 and from it for any other, and changed no other byte |
| Dma.CopyMore | src/cache/dma.cpp:55-89 | copying in pieces is copying at once |
| Dma.LinesTouched | src/cache/dma.cpp:57-66 | a request needs as many granted ticks as it touches 64-byte lines |
| Dma.OneTickLess | src/cache/dma.cpp:63-66 | a request takes one granted tick for every line it touches, at any alignment |
| Dma.ReadLine | src/cache/dma.cpp:58-64 | reading through the line buffer is reading the memory |
| Dma.WriteLine | src/cache/dma.cpp:74-82 | changing and storing a line is writing the changed bytes |

## Left out

* Statistics, logging, dump files, set-up printing and configuration loading of all modelled components; widths and
  latencies are parameters.
* The variants of `can_send` and `can_recv` that answer for all channels at once, and the assertions on unknown
  ports and channels, which are preconditions.
* The order in which the ports of a node are hung on it: any is covered, but it decides which port sends first.
* Messages longer than a 32-bit length field, and numbers of bits that overflow an `int`.
* Per-hop latency and fairness of the network: the pipeline loop uses up the whole latency in one visit, and the
  round-robin pointers do not advance past a hit, so the code provides neither.
- BusRuns.PerFlowFifo: asks for messages that fit the 16-bit packet count and, for those of several packets, for unused transmission ids, without which it is false; `BusLimits.DeliversExactly` has the exact condition on sends and sizes.
- BusRuns.RunDelivers: asks for the same.
- BusRuns.RunDrains: asks for the same, and for a tail of the run without sends; `BusCensus.EveryRunDrains` is what holds of every run.
- BusConservation.EachPacketOnce: asks for the same, since it says which packet of its message each one is; `BusCensus.NothingLost` is what holds of every run.
* Conversions of `HugeNumber` from and to native integers, floating point and streams, and `abs` of the most negative
  machine word. Masks and shifts of words are division and remainder by powers of two.
* Characters are signed, as on x86: where they are not, signs among the digits are read as other numbers.
* Hardware memory orderings of the barrier and the lock: every atomic operation is sequentially consistent. Plain
  fields of the tick loop (`is_processing`, `current_tick`) are read and written atomically too.
* 64-bit wrap-around of `current_tick`, 32-bit wrap-around of the countdown of an object of negative latency, and
  the clearing of statistics between ticks.
* Node lists shorter than the torus, behind the end of which the generator reads.
* Route tables built by hand with `route_insert` and `route_delete` in any other order.
* Pointers into a cache block handed out by `get_line`: the model hands out values.
* The cache behind the DMA engine: it answers success, busy, miss or coherence at will, and after granting a line
  for writing it lets the engine load and store that line in the same tick, as the code asserts. Host memory and
  simulated memory do not overlap, and nobody else writes to them during a transfer.
* The cache coherence protocols, the processor models, the ELF loader and the system call proxy.
