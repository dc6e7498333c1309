# Proofs about the network-on-chip, the arithmetic kernels and the access splitter

This project models parts of a simulator repository in Dafny and proves properties of the model.

**The bus.** `SymmetricMultiChannelBus` is a clocked, multi-channel packet network. `send` cuts a message into
packets; in each tick every node admits at most one packet from a link or a local port, ages its pipeline and releases
packets to single-slot link registers, and every link moves packets from its inputs to its outputs; the destination
node reassembles messages and `recv` hands them out. `NocState` states what each operation does, as total functions on
values; `NocBus` is the object itself, whose methods update maps of nodes, ports and links in place with the loops of
the code and are proved equal to those functions. `NocSystem.Inv` is the invariant of the whole bus relative to the
history of accepted and received messages. `NocRuns` is the state machine of all interleavings of sends, receives and
ticks, and `NocTheorems` collects what holds in every run: order, conservation, bounds, acceptance, admission,
credits, exactness of the bytes, drain, and the byte budget of every link. `NocBag` reads the messages off the packets
in the network, wherever they are, and shows what each operation does to them. `NocLatency` has the timing results,
with `NocExact` for a message that is never refused and `NocLateness` for one that is; `NocAcceptance` says exactly
when `send` accepts and what it answers otherwise, `NocTurns` where each packet is after a tick, `NocFairness` and
`NocPortTurns` have the round-robin bounds and the fixed priorities, `NocBandwidth` the byte budget of a link,
`NocWideLinks` the reason why its 32-bit sum never wraps, `NocLost` the messages that vanish, `NocCongestion` the
watermarks, and `NocPhases` with `NocBus` the independence of a tick from visiting order.

**Route tables.** `RouteTable` proves the checker sound and complete. `RouteRings` and `RouteMesh` prove that the
generators pass it, with exact hop counts, for exactly the sizes that their 32-bit index sums can cope with.
`NocBuild` connects tables to networks, and `NocSetup` runs a generator and builds on its table.

**Arithmetic.** `MultiWord` proves the multiword helpers exact, in place included. `F32Rem` proves that the
single-precision remainder's reduction is exact in spite of an approximate reciprocal and 32-bit wrap-around;
`F32Bits` normalizes operands, `F32Round` proves the packing routine correctly rounded with the right flags in every
mode, and `F32RemOp` is the whole operation on packed words. `F64Round` proves rounding to an integral value for all
doubles and five modes.

**Access splitting.** `MemParse` proves that scalar accesses are split into a tiling, exactly when the address space
is not exceeded, and that what the store parser and the load parser return agrees, whatever their boundaries.

A thrown exception (`require`) is a `Failure` value where a caller can cause it, and an assertion that is proved never
to fire where it cannot. Sequences, sets and maps stand for vectors, lists and associative containers. 32-bit and
64-bit wrap-around is written out wherever a value can reach it, apart from what is listed under "Left out".

The hypotheses of the run theorems are met: `NocBuild.BuildNetwork` says which inputs give a well-formed topology,
`NocSetup.SetUp` that the tables of the generators do, and `NocRuns.InitialGood` that the empty bus satisfies the
invariant.

Five places where the code does less than one might expect are stated as results, with the exact condition. An
accepted message whose length plus one packet width exceeds 2^32 loses bytes or vanishes (`NocPayload.RejoinsIff`,
`NocLost.LostMessage`); with bounded reception and a size limit near 2^32 its credit is never returned, and a few of
them close the destination for good (`NocLost.LosableIff`, `NocLost.Starves`). An access that ends at the top of the
address space is not split, is split wrongly, or is never finished (`MemParse.SplitsIff`). The round-robin bound holds
between links only, since lower channels and link traffic have fixed priority (`NocFairness.FixedPriorities`). A node
that stands at equal watermarks has its congestion flag toggled twice in a tick (`NocCongestion.SettledIff`). Rings
and bidirectional mesh axes of more than 2^31 nodes get a wrong hop (`RouteRings.GenrouteDoubleRing`,
`RouteMesh.GenrouteMesh2dXY`).

## Model

| member | source | states |
|---|---|---|
| RouteTable.RouteTableValid | noc/src/routetable.cpp:130-172 | returns no error if and only if the node list has no duplicates and following next hops inside the list leads from every node to every other; an error that is reported is a true explanation, and the final `unreachable` branch is never taken |
| RouteTable.CheckRoute | noc/src/routetable.cpp:139-169 | follows one route and reports no error if and only if it reaches its destination; the seen set and the hop bound never run out first, by pigeonhole |
| RouteTable.LoopNeverReaches | noc/src/routetable.cpp:145-148 | a walk that comes back to a node it has left never reaches its destination |
| RouteTable.DeadEndNeverReaches | noc/src/routetable.cpp:149-163 | neither does a walk that stops for want of an entry, or at a hop outside the list |
| RouteTable.DistanceStep | noc/src/symmulcha.cpp:575-584 | on a table that reaches, each next hop is one hop closer to the destination, so routes have no loops |
| RouteRings.GenrouteSingleRing | noc/src/routetable.cpp:28-49 | fails exactly on duplicates or an empty list; otherwise the table reaches from every node to every other if and only if a 32-bit count covers the list, and then every route takes exactly the forward distance |
| RouteRings.GenrouteDoubleRing | noc/src/routetable.cpp:51-79 | the same errors; every route is a shortest one, of min(d, n - d) hops, if and only if the ring has at most 2^31 nodes, since beyond that an index sum wraps |
| RouteRings.KeepsDirection | noc/src/routetable.cpp:66-77 | following the generated table, a packet is after k hops exactly k places on the shorter way round, until it arrives: it never turns back |
| RouteRings.NoShorterWalk | noc/src/routetable.cpp:51-79 | no walk along ring links is shorter than min(d, n - d), so those routes are shortest |
| RouteRings.HopCount | noc/src/routetable.cpp:137-169 | following a table whose next hops lower a distance by one reaches the destination in exactly that many hops |
| RouteMesh.GenrouteMesh2dXY | noc/src/routetable.cpp:81-128 | the errors; otherwise all hop counts are the sums of the axis distances, shorter way round or forward only, if and only if there are at most 2^32 nodes and, on bidirectional axes, at most 2^31 places, since beyond that an index wraps; the table then reaches everywhere |
| RouteMesh.XBeforeY | noc/src/routetable.cpp:109-122 | following the generated table, a packet stays in its row until it has made all its X steps and in the right column from then on |
| RouteMesh.AxisHop | noc/src/routetable.cpp:110-121 | the 32-bit sums and remainders along one axis pick the step that brings the target closer, backward only if strictly shorter, on one-way axes of any length and on bidirectional ones of up to 2^31 places |
| RouteMesh.WrongStep | noc/src/routetable.cpp:110-115 | on a longer bidirectional axis the hop from the last place to the one before goes elsewhere |
| NocBuild.ValidateConfig | noc/src/symmulcha.cpp:30-47 | accepts exactly a link width of at least 1, one or more channels of 1 to 65536 bytes each, a size limit whenever reception is bounded, and, with congestion control, low watermark <= high watermark <= buffer limit >= 1; otherwise it reports the first fault in the order of the code |
| NocBuild.BuildNetwork | noc/src/symmulcha.cpp:7-114 | succeeds if and only if configuration, ports, route table and all used hops are acceptable, and otherwise says which of these failed first and why; the result is well-formed, with both directions of every used hop as links, and every node visits its links in increasing order |
| NocBuild.CollectPorts | noc/src/symmulcha.cpp:60-66 | rejects exactly the port lists with a duplicate, and otherwise maps every port to its node |
| NocBuild.CollectEdges | noc/src/symmulcha.cpp:90-101 | rejects exactly the tables that use a hop from or to an unknown node, and otherwise collects both directions of every hop |
| NocBuild.CollectNeighbours | noc/src/symmulcha.cpp:103-113 | gives every node the far ends of its incoming links, without duplicates, in increasing order |
| NocSetup.MakeRoute | noc/examples/noc_benchmark.cpp:205-216 | calls the generator of the chosen shape: as long as the index arithmetic does not wrap, all routes of a ring go forward, those of a double ring the shorter way round, and those of a mesh have the sum of the shorter ways along the axes |
| NocSetup.SetUp | noc/examples/noc_benchmark.cpp:314-333 | generating a table and building a network over it succeeds, for every shape, exactly on what the generator and the configuration and port checks accept; the network has the given ports, widths and configuration, and its distances are the hop counts of the shape |
| NocBus.SymmetricMultiChannelBus.constructor | noc/src/symmulcha.cpp:57-114 | an empty bus over a well-formed topology satisfies the invariant |
| NocBus.SymmetricMultiChannelBus.NextHop | noc/src/symmulcha.cpp:575-584 | the two look-ups never fail and the link to the next hop exists |
| NocBus.SymmetricMultiChannelBus.FindOnLinks | noc/src/symmulcha.cpp:379-396 | the in-place round-robin scan of links and channels finds what the arbitration function says and leaves the pointer there |
| NocBus.SymmetricMultiChannelBus.FindOnPorts | noc/src/symmulcha.cpp:398-417 | the same for local ports |
| NocBus.SymmetricMultiChannelBus.FindCandidate | noc/src/symmulcha.cpp:379-420 | links before ports: the arbitration's choice, changing nothing but the two pointers |
| NocBus.SymmetricMultiChannelBus.DetachCandidate | noc/src/symmulcha.cpp:422-446 | the packet is still where it was found; it is removed from there, the pointer advances, and nothing else changes |
| NocBus.SymmetricMultiChannelBus.Insert | noc/src/symmulcha.cpp:475-479 | the insertion loop is insertion by packet index |
| NocBus.SymmetricMultiChannelBus.DeliverToLocalPort | noc/src/symmulcha.cpp:461-485 | delivery with the destination port attached: single packets go straight to the receive buffer, others are collected and moved over when complete |
| NocBus.SymmetricMultiChannelBus.AdmitCandidate | noc/src/symmulcha.cpp:448-459 | delivery for this node, else the packet joins the end of the pipeline and is counted if congestion control is on |
| NocBus.SymmetricMultiChannelBus.MoveToLink | noc/src/symmulcha.cpp:516-523 | a released packet fills the free input of its next link; the counter does not underflow |
| NocBus.SymmetricMultiChannelBus.ReleasePipeline | noc/src/symmulcha.cpp:502-529 | the in-place pass over the pipeline ages, releases and keeps packets as the recursive specification does; the missing-edge and underflow assertions never fire |
| NocBus.SymmetricMultiChannelBus.UpdateCongestionState | noc/src/symmulcha.cpp:556-567 | the congestion flag after the watermarks have been consulted |
| NocBus.SymmetricMultiChannelBus.ProcessOneNode | noc/src/symmulcha.cpp:487-538 | a node's whole part of a tick replaces exactly what the node sees, by the specified view |
| NocBus.SymmetricMultiChannelBus.ProcessEdge | noc/src/symmulcha.cpp:540-554 | the in-place channel loop, with the 32-bit byte budget, equals the recursive specification on that link and leaves the other links alone |
| NocBus.SymmetricMultiChannelBus.ProcessAllNodes | noc/src/symmulcha.cpp:269-271 | in whatever order the nodes are visited, the result is that of all nodes acting at once |
| NocBus.SymmetricMultiChannelBus.ProcessAllEdges | noc/src/symmulcha.cpp:272-274 | the same for links |
| NocBus.SymmetricMultiChannelBus.RefreshAllCongestionStates | noc/src/symmulcha.cpp:569-573 | the same for the congestion flags |
| NocBus.SymmetricMultiChannelBus.ApplyNextTick | noc/src/symmulcha.cpp:268-278 | one tick in any visiting order is the synchronous tick, is a step of the run machine, and keeps the invariant |
| NocBus.SymmetricMultiChannelBus.CanSendOn | noc/src/symmulcha.cpp:124-142 | an unknown port or channel fails; otherwise the answer is yes exactly when the queue is empty and, with congestion control, the node is not congested and its pipeline shorter than the limit |
| NocBus.SymmetricMultiChannelBus.CheckSend | noc/src/symmulcha.cpp:144-169 | all refusals of `send`, in the order of the code, each with the fields and the history that it depends on |
| NocBus.SymmetricMultiChannelBus.QueuePackets | noc/src/symmulcha.cpp:176-201 | the copy loop queues exactly the packets of the message, zero-padded, with indices and count |
| NocBus.SymmetricMultiChannelBus.Send | noc/src/symmulcha.cpp:144-204 | accepts, refuses or fails exactly when those fields say so, is a step of the run machine, and keeps the invariant unless an accepted message wraps 32 bits |
| NocBus.SymmetricMultiChannelBus.PopMessage | noc/src/symmulcha.cpp:237-249 | popping and joining the packets of one message; the packet-order assertion never fires |
| NocBus.SymmetricMultiChannelBus.Recv | noc/src/symmulcha.cpp:222-260 | returns exactly the bytes of an accepted message for this port and channel that was never received before, or nothing if the buffer is empty; keeps the invariant |
| NocPhases.ViewUntouched | noc/src/symmulcha.cpp:105-113 | a node that has not had its turn still sees what it saw at the start of the tick, since each link output is touched only at its far end and each input only at its near end |
| NocPhases.OneMoreNode | noc/src/symmulcha.cpp:269-271 | one more node's turn, after any set of others |
| NocPhases.LinkSteps | noc/src/symmulcha.cpp:272-274 | one more link's turn, after any set of others |
| NocStages.StagesCompose | noc/src/symmulcha.cpp:487-538 | search, detach, admit, release and flag update in sequence are the node's specified step, given an exact counter |
| NocPayload.PacketCountExact | noc/src/symmulcha.cpp:166-169 | without 32-bit wrap-around a message gets the least number of packets that covers it, and at least one |
| NocPayload.PayloadIs | noc/src/symmulcha.cpp:181-201 | the first k packets carry the first k widths of bytes, zero-padded |
| NocPayload.RejoinsIff | noc/src/symmulcha.cpp:166-201 | splitting and rejoining gives back the message if and only if its length plus one packet width does not wrap 32 bits |
| NocPayload.WrapsToNothing | noc/src/symmulcha.cpp:166-169 | the shortest messages that wrap, up to 2^32 bytes, are split into no packets at all |
| NocAcceptance.TooLongIff | noc/src/symmulcha.cpp:166-169 | the 16-bit limit refuses a message exactly if its 32-bit size exceeds 65535 packet widths and does not wrap with one more |
| NocAcceptance.FewestTooMany | noc/src/symmulcha.cpp:166-169 | for sizes that do not wrap, exactly if no 65535 packets cover the message |
| NocAcceptance.CanSendIff | noc/src/symmulcha.cpp:124-142 | in every consistent state the answer of `can_send` is decided by queue, flag and pipeline length |
| NocAcceptance.SendAnswers | noc/src/symmulcha.cpp:144-169 | for every answer of `send` the exact condition on ports, channel, source node, message size, outstanding messages and slots |
| NocAcceptance.AcceptedIff | noc/src/symmulcha.cpp:144-204 | `send` records a message exactly if its queue is empty, the node neither congested nor full, the size allowed, fewer messages outstanding than slots, and 65535 packets enough; otherwise nothing changes |
| NocLost.LosableIff | noc/src/symmulcha.cpp:157-169 | a message that wraps exists within the size limit if and only if the limit plus one packet width exceeds 2^32 |
| NocLost.LostMessage | noc/src/symmulcha.cpp:144-204 | `send` accepts such a message, of up to 2^32 bytes, if and only if the source is free and, with bounded reception, size limit and credits allow it; no queue, node or link changes, no packet of it is anywhere, and with bounded reception it takes a credit |
| NocLost.StepStarved | noc/src/symmulcha.cpp:144-278 | while all credits of a port and channel are taken and no packet for it is in the network, no operation changes that |
| NocLost.Starves | noc/src/symmulcha.cpp:157-174 | so sending as many such messages as there are slots gets them all accepted, and after any further operations a `send` for that port and channel never changes anything again |
| NocNodeStep.ReleaseKeepsOrder | noc/src/symmulcha.cpp:502-529 | the release pass keeps the order of every flow, because the pipeline is sorted by remaining cycles |
| NocNodeStep.ReleaseSorted | noc/src/symmulcha.cpp:502-529 | the pipeline stays sorted by remaining cycles |
| NocNodeStep.EnteringOk | noc/src/symmulcha.cpp:490-495 | whatever a node admits is a genuine packet whose route visits that node |
| NocInvariant.OnPathUnique | noc/src/symmulcha.cpp:575-584 | a route visits no two nodes at the same remaining distance |
| NocFlow.TransferMoves | noc/src/symmulcha.cpp:540-554 | a link only moves packets from inputs to free outputs of the same channel |
| NocFlow.TickTransit | noc/src/symmulcha.cpp:268-278 | a tick takes from the packets of a flow in transit exactly the one its destination admits: nothing is lost, duplicated or overtaken |
| NocHistory.NextArrival | noc/src/symmulcha.cpp:461-485 | the next arrival of a flow is the next packet of its oldest incomplete message |
| NocReassembly.ExtendsList | noc/src/symmulcha.cpp:475-479 | arriving packets extend the ordering list at its end, so it holds the first packets of the message in order |
| NocReassembly.DeliverLists | noc/src/symmulcha.cpp:475-484 | a node keeps a list exactly for the partially arrived messages to its ports |
| NocReassembly.DeliverBuffers | noc/src/symmulcha.cpp:470-484 | a completed message is appended to its receive buffer whole, and nothing else changes |
| NocReassembly.AppendWhole | noc/src/symmulcha.cpp:481-484 | a receive buffer stays a concatenation of whole messages |
| NocTick.TickInv | noc/src/symmulcha.cpp:268-278 | a tick keeps the invariant of the whole bus |
| NocTick.TickCounter | noc/src/symmulcha.cpp:362-367 | the counter stays equal to the pipeline length and within the limit |
| NocEndpoints.AcceptInv | noc/src/symmulcha.cpp:166-203 | accepting a message keeps the invariant, with the message added to the history |
| NocEndpoints.TakeInv | noc/src/symmulcha.cpp:222-260 | handing out a message keeps the invariant, with the message recorded as received, and finds its credit |
| NocEndpoints.FrontIsMessage | noc/src/symmulcha.cpp:214-251 | a buffer is receivable if and only if it is not empty; its front is then a whole message with its own bytes, indices from 0, not received before |
| NocRuns.StepKeeps | noc/src/symmulcha.cpp:144-278 | every operation keeps the invariant |
| NocRuns.InitialGood | noc/src/symmulcha.cpp:57-114 | the empty bus satisfies the invariant |
| NocRuns.ReceivedInOrder | noc/src/symmulcha.cpp:144-278 | per source, destination and channel, the received messages are a prefix of the accepted ones |
| NocBag.CarriedIff | noc/src/symmulcha.cpp:176-201 | the network carries a packet of a message if and only if the message was accepted and not yet received |
| NocBag.ContentsAre | noc/src/symmulcha.cpp:181-201 | the packets of a message that are in the network, put together in order of index, are its bytes, port and channel |
| NocBag.LoadIsBag | noc/src/symmulcha.cpp:144-260 | so the messages that the packets in the network make up are the accepted, unreceived ones |
| NocBag.StepOnBag | noc/src/symmulcha.cpp:144-278 | on the messages that the packets in the network make up, an accepted send adds its message, a tick changes nothing, and recv removes one message and returns its bytes |
| NocBag.TickKeepsLoad | noc/src/symmulcha.cpp:268-278 | a tick moves packets but neither adds, removes nor changes a message |
| NocConservation.AtLeastOnePlace | noc/src/symmulcha.cpp:144-204 | every packet of an accepted, unreceived message is in some place |
| NocConservation.AtMostOnePlace | noc/src/symmulcha.cpp:448-485 | no packet is in two places, and whatever a place holds is an accepted packet not yet received |
| NocConservation.ExactlyOnePlace | noc/src/symmulcha.cpp:422-459 | both together, for send queues, pipelines, link inputs, link outputs, ordering lists and receive buffers |
| NocProgress.CandidateFound | noc/src/symmulcha.cpp:379-420 | a node with an occupied incoming output or a queued packet finds a candidate |
| NocProgress.SomethingMoves | noc/src/symmulcha.cpp:487-554 | while a packet travels and there is room, some packet makes progress in the next tick |
| NocProgress.TickLowersMeasure | noc/src/symmulcha.cpp:353-377 | then every tick strictly lowers the measure of remaining hops, stages and cycles |
| NocProgress.UndeliveredShrinks | noc/src/symmulcha.cpp:268-278 | a tick only removes packets from the undelivered ones, so room stays |
| NocProgress.Drains | noc/src/symmulcha.cpp:487-554 | after at most as many ticks as the measure, every accepted message is received or receivable |
| NocTiming.TickTimely | noc/src/symmulcha.cpp:448-459 | a tick keeps every packet within the speed limit set by pipeline and links |
| NocLatency.NeverEarly | noc/src/symmulcha.cpp:268-278 | in every run a message of k packets over h hops is not available before k + h * (route_latency + 1) ticks |
| NocExact.TickPunctual | noc/src/symmulcha.cpp:487-554 | a lone message moves as fast as the limit allows |
| NocExact.PipelineShort | noc/src/symmulcha.cpp:448-459 | a lone message never fills a pipeline beyond `route_latency` packets, nor beyond its packets sent before |
| NocExact.RoomyIsOpen | noc/src/symmulcha.cpp:362-377 | so no node refuses it if congestion control is off, it never leaves its node, or the buffer limit exceeds `route_latency` or is at least its packet count |
| NocLateness.FillsUp | noc/src/symmulcha.cpp:487-529 | otherwise its first node fills up to the limit, refuses a packet, and every later packet is late by at least a tick |
| NocLatency.ExactLatency | noc/src/symmulcha.cpp:487-554 | sent into a quiet bus, with congestion control on or off, a message of k packets over h hops is available exactly from k + h * (route_latency + 1) ticks on if the buffer limit lets it through without refusal, a condition on limit, latency and packet count; if not, it is not yet available then |
| NocLatency.AvailableIff | noc/src/symmulcha.cpp:214-220 | a message is available if and only if all of its packets have arrived |
| NocFairness.PointerCloser | noc/src/symmulcha.cpp:382-396 | every admission from another link brings the round-robin pointer closer to a waiting link |
| NocFairness.PassedOver | noc/src/symmulcha.cpp:490-495 | over a run, the admissions that pass over a waiting link are at most the pointer's distance to it |
| NocFairness.ServedInTurn | noc/src/symmulcha.cpp:382-430 | a waiting link is served before its node has admitted as many packets as it has links |
| NocPortTurns.TickNearer | noc/src/symmulcha.cpp:398-446 | every packet let in from another port brings the pointer closer to a waiting port, and nothing takes it further away |
| NocPortTurns.PortPassedOver | noc/src/symmulcha.cpp:398-446 | over a run, the packets let in from other ports while a port waits are at most the distance of the pointer to it |
| NocPortTurns.PortsInTurn | noc/src/symmulcha.cpp:398-446 | a waiting port is served before its node has let in as many packets from its ports as it has ports |
| NocFairness.FixedPriorities | noc/src/symmulcha.cpp:385-417 | links come before ports, low channels before high ones, and nothing is chosen only if nothing is there |
| NocTurns.SomeTurn | noc/src/symmulcha.cpp:379-420 | whenever a packet waits at a node, over a link or at a port, some packet has its turn: the lowest channel of the first occupied link from the pointer on, or of the first such port if no link is occupied |
| NocTurns.OneTurn | noc/src/symmulcha.cpp:379-420 | and only one has |
| NocTurns.LinkPointers | noc/src/symmulcha.cpp:382-430 | the link pointer moves past the link whose packet was let in, and stays at a link whose packet was refused |
| NocTurns.PortPointers | noc/src/symmulcha.cpp:398-446 | the same for ports |
| NocTurns.IdlePointers | noc/src/symmulcha.cpp:379-420 | while nothing waits at a node, both pointers come back to where they were |
| NocTurns.Admission | noc/src/symmulcha.cpp:353-377 | the packet whose turn it is leaves its place for the ordering list or receive buffer if this is its destination, however full the node is; any other enters the pipeline if and only if congestion control is off or the pipeline is shorter than the limit, and otherwise stays |
| NocTurns.OutputOutOfTurn | noc/src/symmulcha.cpp:487-500 | a link output whose turn it is not keeps its packet |
| NocTurns.QueueTurn | noc/src/symmulcha.cpp:422-446 | a send queue loses its first packet exactly if that has its turn and is let in, and changes in no other way |
| NocTurns.PipelineTurn | noc/src/symmulcha.cpp:502-529 | a packet in a pipeline goes onto its link exactly if its wait is over, the input is free and no packet before it goes the same way, whatever else stands before it; otherwise it stays and waits one cycle less |
| NocTurns.LinkTurnOver | noc/src/symmulcha.cpp:540-554 | when the links have their part of the tick, an output is free exactly if it was, or its packet had its turn and was let in |
| NocBandwidth.Budget | noc/src/symmulcha.cpp:540-554 | the channels of a link move no more bytes than are left of the budget, unless a single packet starts it; if the 32-bit sum wraps they move 2^32 bytes or more |
| NocBandwidth.Greedy | noc/src/symmulcha.cpp:540-554 | whatever a link leaves behind although its output was free no longer fitted, also when the sum wraps |
| NocBandwidth.NarrowEnough | noc/src/symmulcha.cpp:540-554 | the 32-bit sum of bytes cannot wrap on a link of at most 2^32 bytes less one packet of the largest width |
| NocBandwidth.KeepsBudget | noc/src/symmulcha.cpp:540-554 | whenever the sum does not wrap, a link moves at most its width in bytes, or one wider packet, and lets lower channels go first |
| NocWideLinks.ReleaseYoung | noc/src/symmulcha.cpp:502-529 | in one pass over a pipeline at most one packet that waits no longer stays there with a free way, since a node admits one packet per tick and so the waits all differ |
| NocWideLinks.ReadyFew | noc/src/symmulcha.cpp:487-554 | if no packet stood on a link behind a free output, then after the nodes have acted only two channels of it can be ready: the one that the far node has just emptied and that of the one packet which leaves for the first time |
| NocWideLinks.AllMove | noc/src/symmulcha.cpp:540-554 | if all that is ready fits the link, every ready packet moves and the sum does not wrap |
| NocWideLinks.TickWide | noc/src/symmulcha.cpp:268-278 | so links that two packets of the largest width fit through keep no packet back behind a free output, in every tick |
| NocCongestion.SettledIff | noc/src/symmulcha.cpp:556-573 | the second look at the watermarks in a tick leaves a node as it is if and only if the watermarks differ or the node does not stand at them |
| NocCongestion.TickHysteresis | noc/src/symmulcha.cpp:531-573 | a tick sets the flag by hysteresis on the packets buffered after the tick; a node standing at equal watermarks keeps its flag; without congestion control the flag is clear |
| NocTheorems.FirstInFirstOut | noc/src/symmulcha.cpp:144-260 | in every run from the empty bus, each flow is received first in, first out, with congestion control on or off |
| NocTheorems.NothingLostNothingDuplicated | noc/src/symmulcha.cpp:144-485 | in every run each accepted, unreceived packet is in exactly one place |
| NocTheorems.BuffersBounded | noc/src/symmulcha.cpp:362-367 | in every run the counter is the pipeline length and never exceeds the limit |
| NocTheorems.CreditsExact | noc/src/symmulcha.cpp:157-174 | in every run the reservations count the outstanding messages and never exceed the slots |
| NocTheorems.ReceivableIsWhole | noc/src/symmulcha.cpp:214-260 | in every run a buffer is receivable if and only if it is not empty, and gives the bytes of an accepted, unreceived message |
| NocTheorems.EveryMessageArrives | noc/src/symmulcha.cpp:487-554 | from every reachable state with room, ticks alone make every accepted message receivable |
| NocTheorems.AcceptedExactly | noc/src/symmulcha.cpp:124-204 | in every run a message between known ports is accepted exactly under the conditions of `NocAcceptance.AcceptedIff` |
| NocTheorems.AdmittedExactly | noc/src/symmulcha.cpp:353-459 | in every run packets are let into a node exactly as `NocTurns.Admission` says |
| NocTheorems.LinkBandwidth | noc/src/symmulcha.cpp:540-554 | in every run and for every link width, each tick moves over each link at most its width in bytes, or one wider packet, lowest channels first; the 32-bit sum never wraps, because wide links keep no ready packet back |
| MultiWord.CarryOut | rv64-archsem/softfloat/s_addCarryM.c:58-61 | comparing the sum word with one operand recovers the carry, also when a carry came in |
| MultiWord.AddCarryM | rv64-archsem/softfloat/s_addCarryM.c:43-67 | value(z) + carry * 2^(32n) = value(a) + value(b) + carry in, for any number of words and with z aliasing an operand |
| MultiWord.AddComplCarryM | rv64-archsem/softfloat/s_addComplCarryM.c:43-67 | the same with the second operand complemented; with carry in 1 it is a - b modulo 2^(32n), and the carry out says whether a >= b |
| MultiWord.Add256M | rv64-archsem/softfloat/s_add256M.c:43-62 | the sum modulo 2^256, also in place |
| MultiWord.Add128Exact | rv64-archsem/softfloat/primitives.h:491-497 | the sum modulo 2^128 |
| MultiWord.Sub128Exact | rv64-archsem/softfloat/primitives.h:526-533 | the difference modulo 2^128 |
| MultiWord.Mul64ByShifted32Exact | rv64-archsem/softfloat/primitives.h:559-567 | the exact product with 2^32 |
| MultiWord.Mul128By32Exact | rv64-archsem/softfloat/primitives.h:588-598 | the product modulo 2^128, with the carry recovered from the low word |
| MultiWord.Mul64To128Exact | rv64-archsem/softfloat/s_mul64To128.c:43-63 | the exact 128-bit product from four partial products and two recovered carries |
| F32Rem.ReciprocalBounds | rv64-archsem/softfloat/primitives.h:183 | the truncated reciprocal is below the true one by less than one unit |
| F32Rem.QuotientBounds | rv64-archsem/softfloat/f32_rem.c:129 | each quotient digit is never too large, and too small by less than one and a half divisors |
| F32Rem.ShiftedDigit | rv64-archsem/softfloat/f32_rem.c:137 | so is the digit after its low bits have been dropped |
| F32Rem.DivisionStep | rv64-archsem/softfloat/f32_rem.c:128-133 | one iteration is exact in spite of the 32-bit wrap: 29 more quotient bits, remainder below 2^31 and a multiple of 64 |
| F32Rem.LastDigit | rv64-archsem/softfloat/f32_rem.c:134-138 | the last, shorter digit is exact, and its parity is that of the whole quotient |
| F32Rem.LongDivision | rv64-archsem/softfloat/f32_rem.c:115-139 | the reduction for an exponent difference of at least one |
| F32Rem.Reduce | rv64-archsem/softfloat/f32_rem.c:100-139 | all three cases: the dividend less a multiple of the divisor |
| F32Rem.Overshoot | rv64-archsem/softfloat/f32_rem.c:142-146 | the final loop stops one divisor below the last non-negative remainder |
| F32Rem.RoundQuotient | rv64-archsem/softfloat/f32_rem.c:142-153 | the choice by the mean is the nearest quotient, ties to even |
| F32Rem.Remainder | rv64-archsem/softfloat/f32_rem.c:100-153 | the signed value handed to packing is (sigA * 2^expDiff - n * sigB) * 2^6 with n nearest to the quotient, ties to even, for all normalized significands and expDiff >= -1 |
| F32Rem.NearestUnique | rv64-archsem/softfloat/f32_rem.c:147-148 | only one integer is nearest |
| F32Bits.LeadingZeros32 | rv64-archsem/softfloat/s_countLeadingZeros32.c:45-61 | shifting by the count brings the leading bit to the top |
| F32Bits.NormSubnormal | rv64-archsem/softfloat/s_normSubnormalF32Sig.c:41-51 | a subnormal fraction becomes a normalized significand of the same value |
| F32Bits.Normalize | rv64-archsem/softfloat/f32_rem.c:86-101 | every finite nonzero operand becomes a normalized significand of the same value |
| F32Bits.SignalingIs | rv64-archsem/softfloat/specialize.h:193 | the two masks pick out exactly the words with all exponent bits set, the quiet bit clear and some other fraction bit set |
| F32Bits.DefaultNaN | rv64-archsem/softfloat/specialize.h:186 | the default NaN is the quiet NaN with sign clear and fraction 2^22 |
| F32Round.RoundPackToF32 | rv64-archsem/softfloat/s_roundPackToF32.c:43-112 | the word is the value correctly rounded in each of the six modes, ties, carries, subnormals and overflow included, and exactly the flags that are due are raised: inexact, overflow, and underflow with tininess detected before or after rounding |
| F32Round.ChosenRounds | rv64-archsem/softfloat/s_roundPackToF32.c:92-106 | the seven bits that are cut off decide the rounding of the exact value, in every mode |
| F32Round.JamOrder | rv64-archsem/softfloat/s_roundPackToF32.c:75-77 | shifting a subnormal into place with the lost bits jammed into the last one changes no comparison that rounding makes |
| F32Round.OverflowRounds | rv64-archsem/softfloat/s_roundPackToF32.c:81-88 | past the largest finite number the result is an infinity or that number, as the mode asks, with both flags |
| F32Round.TinyIs | rv64-archsem/softfloat/s_roundPackToF32.c:72-80 | the tininess test is the standard's, before or after rounding to 24 bits with an unbounded exponent |
| F32Round.BestOfAll | rv64-archsem/softfloat/s_roundPackToF32.c:43-112 | the rounded magnitude is the best of all finite ones: the largest not above the value, the smallest not below, or one of the nearest, as the mode asks; the odd mode gives the value itself or an odd word |
| F32Round.RoundedOnce | rv64-archsem/softfloat/s_roundPackToF32.c:43-112 | a value has only one correct rounding in a given mode |
| F32Round.ExactResult | rv64-archsem/softfloat/s_roundPackToF32.c:92-108 | a representable value is packed as it is, in every mode, without flags |
| F32Round.NormRoundPackToF32 | rv64-archsem/softfloat/s_normRoundPackToF32.c:42-57 | the same correct rounding for a significand anywhere in its word, by the short cut or through the rounding routine |
| F32RemOp.Rem | rv64-archsem/softfloat/f32_rem.c:44-166 | on packed words: NaN operands, an infinite dividend and a zero divisor give the quiet NaN with sign clear and fraction 2^22, with the invalid flag where it is due, for NaNs exactly if one is signaling; for all other operands the exact remainder a - n * b, n nearest, ties to even, zero with the sign of the dividend, no flag |
| F32RemOp.RemainderUnique | rv64-archsem/softfloat/f32_rem.c:100-154 | value and sign of the remainder are determined by the operands |
| F64Round.CarriedMagnitude | rv64-archsem/softfloat/f64_roundToInt.c:92-103 | a fraction that carries into the exponent field denotes the next power of two |
| F64Round.RoundSmall | rv64-archsem/softfloat/f64_roundToInt.c:59-77 | magnitudes below one round to a zero or a one of the same sign, as the mode asks |
| F64Round.RoundFraction | rv64-archsem/softfloat/f64_roundToInt.c:89-103 | adding to the packed word and cutting it rounds correctly in every mode, ties and carries included |
| F64Round.AlreadyIntegral | rv64-archsem/softfloat/f64_roundToInt.c:80-86 | from exponent 0x433 on every finite value is integral |
| F64Round.SignalingIs | rv64-archsem/softfloat/specialize.h:228 | the masks pick out exactly the signaling NaNs, by their fields |
| F64Round.RoundToInt | rv64-archsem/softfloat/f64_roundToInt.c:44-111 | for every double and each of the five modes the result is the integral rounding of the mode with the sign kept; inexact is raised if and only if requested and the value changed; NaNs become the quiet NaN with sign clear and fraction 2^51 |
| F64Round.RoundedUnique | rv64-archsem/softfloat/f64_roundToInt.c:59-109 | there is only one correctly rounded word |
| F64Round.Idempotent | rv64-archsem/softfloat/f64_roundToInt.c:59-109 | rounding a rounded word, in any mode, gives it back |
| F64Round.ChangedIff | rv64-archsem/softfloat/f64_roundToInt.c:104-106 | the word changes if and only if the value does |
| MemParse.SizeAndStart | rv64-archsem/riscv64/memparse.cpp:33-44 | the access has 2^(funct3 mod 4) bytes and starts at the sum of register and offset modulo 2^64 |
| MemParse.ParseLoadScalar | rv64-archsem/riscv64/memparse.cpp:28-82 | refuses exactly instructions that are no loads, and, if misalignment is an error, addresses that are not a multiple of 2^(funct3 mod 4); otherwise pushes the unsplit access or runs the loop as specified |
| MemParse.ParseStoreScalar | rv64-archsem/riscv64/memparse.cpp:84-140 | the same for stores, with the bytes of each piece |
| MemParse.LoadFits | rv64-archsem/riscv64/memparse.cpp:61-81 | inside the address space the pieces tile the access in order, non-empty, each within one block |
| MemParse.SplitsIff | rv64-archsem/riscv64/memparse.cpp:61-81 | splitting works if and only if neither the access nor the block of its last byte reaches past the top of the address space |
| MemParse.NeverEnds | rv64-archsem/riscv64/memparse.cpp:62-80 | an access that ends exactly at 2^64 never leaves the loop |
| MemParse.LoopOverruns | rv64-archsem/riscv64/memparse.cpp:64-80 | when the end of the last block is past 2^64, a piece that runs past the end of the access is pushed after at most as many rounds as the access has bytes, whether or not the loop ever ends |
| MemParse.TileCount | rv64-archsem/riscv64/memparse.cpp:61-81 | there is one descriptor for every block touched |
| MemParse.CoversOnce | rv64-archsem/riscv64/memparse.cpp:65-80 | every byte of the access lies in exactly one descriptor |
| MemParse.StoreIsLoad | rv64-archsem/riscv64/memparse.cpp:120-138 | a store is split exactly like a load, and every piece carries the bytes of its addresses |
| MemParse.StoreSplitsIff | rv64-archsem/riscv64/memparse.cpp:120-138 | so splitting a store works on exactly the same accesses |
| MemParse.StoreThenLoad | rv64-archsem/riscv64/memparse.cpp:74-136 | storing pieces that tile an access and loading pieces that tile it differently gives back the stored bytes and touches no others |
| MemParse.LoadedTiles | rv64-archsem/riscv64/memparse.cpp:28-82 | what the load parser pushes tiles the access, one descriptor for every block touched, or one in all when splitting is off |
| MemParse.StoredTiles | rv64-archsem/riscv64/memparse.cpp:84-140 | what the store parser pushes tiles the access with the bytes of the register, with the same number of descriptors |
| MemParse.LoadedBytes | rv64-archsem/riscv64/memparse.cpp:28-82 | the pushed load descriptors read exactly the 2^(funct3 mod 4) bytes from that address on, each once, and put each where it belongs in the register |
| MemParse.StoredBytes | rv64-archsem/riscv64/memparse.cpp:84-140 | the pushed store descriptors, carried out, write exactly those bytes, with the low bytes of the register, and no others |
| MemParse.ParsedRoundTrip | rv64-archsem/riscv64/memparse.cpp:28-140 | the store parser's descriptors, written to memory, and the load parser's, read back, give the low bytes of the register, for any two boundaries with which the access can be split, and no other byte of memory changes |
| MemParse.LowBytesValue | rv64-archsem/riscv64/memparse.cpp:106-108 | the stored bytes denote the register modulo the range of the access |

## Left out

- NocBus.SymmetricMultiChannelBus.Send: the invariant is promised unless the message is accepted and its length plus one packet width exceeds 2^32; `NocPayload.RejoinsIff` and `NocLost.LostMessage` say what happens to those, and the run theorems say nothing after one.
- NocBus.SymmetricMultiChannelBus.ApplyNextTick: the visiting order of the containers is a parameter, as the order of hash tables is not determined; any order is allowed.
- NocRuns.StepKeeps: transfer ids and the tick counter are unbounded; the 32-bit id and 64-bit tick of the code would wrap after 2^32 messages and 2^64 ticks.
- NocProgress.Drains: states drain only when congestion control is off or at most `node_buffer_limit` packets are undelivered; a cyclic topology with full buffers can block, and no general freedom from deadlock is claimed.
- NocFairness.ServedInTurn: bounds service per link only, and `NocPortTurns.PortsInTurn` service per port relative to other ports; channels have fixed priority, and ports only get their turn when no link has a packet.
- NocLatency.ExactLatency: exact for a message sent into a quiet bus; when the buffer limit is too low for it, only that it is late is stated, not by how much, and for other traffic only the lower bound `NocLatency.NeverEarly`.
- NocBuild.CollectNeighbours: lists the ports of a node in increasing order, where the code has the order of a hash table; every other result holds for any fixed order.
- NocBus.SymmetricMultiChannelBus.ProcessOneNode: nodes, ports and links are values in maps that the methods reassign; pointers between them are resolved by key, so aliasing between containers is not modelled.
- RouteRings.GenrouteDoubleRing: on rings of more than 2^31 nodes only the failure is stated, not which routes go wrong; so it is for the mesh.
- F32Round.RoundPackToF32: rounding is stated for a significand whose leading bit is in place, for any significand with a negative exponent, and for zero up to the largest exponent; these are what callers pass. The odd mode is modelled as enabled.
- F64Round.RoundToInt: the five standard modes; an odd mode, which the code treats as truncation, is not modelled.
- MemParse.ParseLoadScalar: the loop has a step budget, since for some addresses it does not end; any budget of at least the access size is enough whenever splitting works.
- MemParse.ParseStoreScalar: a copy from outside the data buffer, undefined in the code, ends the model's loop without a result.
- Statistics, printing, CSV output and the rest of the benchmark driver are input and output.
- `can_send` and `can_recv` into a vector of flags only repeat the single-channel queries.
- Freeing packets at destruction is memory management.
- `route_delete` and the printing of tables are not used by the modelled operations.
- The instruction decoder, the rest of the floating-point library, and the many-core simulator are not part of this model.
