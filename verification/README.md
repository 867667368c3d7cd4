# A verified model of a layer 2 and layer 3 network simulator

The simulator runs switches, routers and hosts that exchange real frames: a spanning tree, MAC learning, VLANs, ARP,
IPv4 forwarding with ICMP and tunnels, RIP and LLDP. This project states those protocols in Dafny and proves what they
guarantee across many nodes. `dafny verify dfyconfig.toml` checks all of it.

## What is proved

**Spanning tree** (IEEE 802.1D-1998, clause 8). Bridges are joined by point-to-point links with BPDUs in flight, and
hellos, recomputations, deliveries, losses and port promotions interleave freely.
- Every run keeps every vector the trace of a real walk of exactly its cost, and knowledge only improves
  (`StpSafety`, `StpMonotone`). No premise about the number of bridges is needed.
- Superior information is finite and replies die out, so every exchange ends (`StpExchange`).
- Every settled state has one root per component, true shortest distances, one root port per bridge and one designated
  end per link (`StpTree`), and the links left open are a spanning tree (`ForwardingTree`).
- Convergence, in networks of any size and shape, after any run, even a lossy one, from a fresh start and in any order
  within a round of hellos: as many rounds as a cheapest walk has links give its end the true root and distance
  (`StpConvergence`, `StpTree`), and d rounds settle a network in which the better end of every link (the one nearer the
  root, or of the lower identifier) is fewer than d <= 10 links out (`StpSettling`). So n - 1 rounds settle n <= 11
  bridges.
- Between hellos, information travels by relayed BPDUs: what a delivery moves is heard at the far ends of the designated
  ports, and one round settles any network in which no bridge improves without moving a port (`StpRelay`).
- Once settled and forwarding, a network stays exactly as it is under everything that can happen in this model, late BPDUs
  and losses included, and its ports get there by two forward delays (`StpStable`).
- Beyond ten links convergence fails, and the proofs say exactly where (`StpTree.LearnsExactly`,
  `StpSettling.SettlesExactly`, `StpRing`); see below.
- `StpEngine` is the state of one bridge as the code updates it in place, proved equal to the functions the results
  above are about. `StpCodec` is the wire format.

**Switching** over that tree (`Flooding`, `Switching`, `MacTables`, `Vlan`): floods end and reach each bridge once,
learned entries point the way home, known unicast goes straight to its station (`Delivery`), a broadcast or a frame for an
unknown station gets to exactly the bridges its VLAN is carried to, amid any other traffic (`Broadcast`), no bridge takes in
the same frame twice however flooding and forwarding mix, and VLAN membership survives any path of switches exactly under
a stated condition on the frame.

**IPv4** (`Forwarding`, `Journeys`, `Checksum`, `Ipv4Header`, `Ipv4Text`, `RoutingTables`): what one packet sets off ends
over any topology and any routing tables, with an explicit bound; answers come back over 63 routers, and a packet that runs
out of hops is reported from where it does; checksums in one's-complement arithmetic; longest-prefix match
and swap-deletion; parser and printer inverse to each other.

**RIP** (`Rip`, `RipDaemon`, `RipTimers`, `RipNetwork`, `RipExchange`, `RipPacket`, `SubnetMasks`): two mutable
stores that agree through learning, refreshing, poisoning, timing out and collecting; when they agree through a stop, with packets and stops taken apart into
their locked sections; routes that stay in use as long as they are repeated in time, and go exactly when they are not;
updates that teach a neighbour; and metrics that are costs of real paths in every run of a network.

**ARP** (`Arp`, `ArpRuns`, `ArpBindings`): conservation of queued packets, pacing and deadlines of requests, and what
addresses resolve to, over whole runs, in whatever order clock readings reach the table.

**LLDP, event bus and memory transport** (`Lldp`, `EventBuses`, `MemoryTransports`): exact acceptance and round trip of
data units; single-drainer queues under concurrent and re-entrant callers.

## Premises

- Spanning tree: every bridging node takes part from a fresh start, the set of ports is fixed, a link joins two
  different bridges, identifiers are distinct (`BridgeAddress` derives this from the address counter), path costs are
  positive, and n times the largest cost is below 2^32, because costs are added in 32 bits.
- `StpStable`: the ports of a bridge have different identifiers, as the code numbers them.
- Switching: the tree is settled and promoted (and stays so by `StpStable.ReadyStays`), stations are attached to host
  ports and do not move.
- RIP network: links and routes of other sources are fixed.
- ARP: only `ArpRuns.OrderedRun` needs clock readings to come in order.

## What the proofs found

- The age limit is a horizon. Information grows older by one hello interval at each bridge, so no bridge ever learns of
  a root more than ten links away (`StpSafety.HorizonOfTenLinks`, `StpSafety.FarRootsAreNeverLearned`), and a link whose
  better end is ten links out is never settled: that end may not send, so the other end stays designated too
  (`StpSettling.NeverSettles`). Ten rounds settle a network if and only if the better end of every link is at most nine
  links out, where none has cheapest walks on both sides of that limit, as with equal costs (`StpSettling.SettlesExactly`).
  Where one has, the run can decide: a network of thirteen bridges settles for good after one run and never after another
  (`StpTies.TheRunDecides`).
  A ring of n equal links settles if and only if n <= 20; in a ring of 21 every link is promoted to forwarding, and a
  frame comes round to where it started (`StpRing.RingSettlesExactly`, `StpRing.RingOf21Loops`). The results on settled states, trees
  and floods hold for networks of every size, but say nothing of networks that never settle.
- A bridge relays a superior BPDU only if some port's role or state moves. A cheaper way to the same root over the same port
  moves none, so it stays untold until the next hello (`StpRelay.ImprovementKeptQuiet`); without such improvements one round
  of hellos settles a network however deep its tree is, up to the age limit (`StpRelay.OneRoundSettles`).
- Addresses learned on a port that is still learning are not flushed when it is blocked, unlike those of a forwarding port
  (`StpEngine.LearnedTooEarlyStays`): until they age, frames for them are dropped at the blocked port.
- Packets that wait for the same address are handed on newest first (`ArpBindings.LastQueuedIsFirst`).
- A RIP stop does not wait for packets that have passed the enabled check. Such a packet can leave a route in the
  forwarding table that the learned routes do not know, or routes in both stores of a stopped router
  (`RipDaemon.StopRaces`). A stop is clean whatever comes after its flush if and only if, at the flush, no waiting packet
  has an entry below infinity and the packet being applied leaves no route (`RipDaemon.StopIsClean`).
- A RIP update reads its two stores under two locks. A prefix expired by the second reading is missing from it exactly if
  no route covers it then and it had not expired at the first (`Rip.MissedExactly`).
- A RIP metric of 2^32 - 1 wraps to 0 and is installed (`Rip.MetricWrapsOnlyAtTheTop`, `Rip.WrappedMetricIsInstalled`).
  Routers of the simulator never send it.
- The destination quoted in an ICMP error can be read back only if the original had at most eight bytes past its
  header: the quote is parsed as a whole packet and its length is checked (`Forwarding.QuoteReadableOnlyIfShort`).
- A frame with a second tag leaves its VLAN where tags are removed, unless that tag names the same VLAN on a trunk:
  `Vlan.LinkKeepsVlan` and `Vlan.PathKeepsVlan` say exactly when membership survives, `Vlan.DoubleTagEscapes` shows a frame
  that escapes.
- Tagging a frame that already has a tag resets its priority bits (`Vlan.PriorityIsReset`) and happens in the buffer that
  the other copies of a flood are made from. The sharing does no harm: each copy is as if made from the frame as it came
  in (`Vlan.PrepareCopies`).

## Model

| member | source | states |
|---|---|---|
| `StpVector.CompareIsWireOrder` | src/l2_stp.go:312-332 | the sign of comparing two priority vectors is the sign of comparing bytes 5 to 26 of their BPDUs byte by byte |
| `StpVector.CompareIsStrictTotalOrder` | src/l2_stp.go:312-332 | comparison is irreflexive, transitive, antisymmetric and total on distinct vectors |
| `StpVector.AddressLoopIsLex` | src/l2_stp.go:78-94 | the address loop of a bridge identifier comparison is a byte-wise comparison |
| `StpVector.ComparesSerialized` | src/l2_stp.go:78-99 | bridge identifiers compare as their eight bytes do |
| `BridgeAddress.MacHoldsCounter` | src/l3_network.go:83-93 | a generated address holds the counter modulo 2^40 |
| `BridgeAddress.MacsAreDistinct` | src/l3_network.go:83-93 | below 2^40 generated addresses are pairwise different |
| `BridgeAddress.LowestAddress` | src/l2_stp.go:405-428 | the bridge address is one of the node's interface addresses and none ranks lower |
| `BridgeAddress.BridgesAreDistinct` | src/l2_stp.go:405-428 | bridges whose interfaces one counter numbered have different identifiers, whatever their priorities |
| `StpBridge.RecomputeCoherent` | src/l2_stp.go:847-945 | whatever was recorded, the computation elects the best identifier known, the port with the best path to it, and gives every port the role its record calls for |
| `StpBridge.ElectIsBest` | src/l2_stp.go:857-865 | the elected root is our own identifier or a recorded one, and none recorded is better |
| `StpBridge.BestPortIsBest` | src/l2_stp.go:869-900 | the root port offers a path to the elected root that no other port's path beats; none is chosen only if no port offers one |
| `StpBridge.BestPortIsFirst` | src/l2_stp.go:867-888 | among ports that offer the same the first is chosen: the last tie is broken by our own port |
| `StpBridge.BetterRecordsBetterRoot` | src/l2_stp.go:847-900 | if every record is kept or improved, the new root and cost are at least as good |
| `StpBridge.RecordBoundsBridge` | src/l2_stp.go:857-900 | a record bounds the root the bridge believes in and, for that root, the cost |
| `StpEngine.StpState.ElectRoot` | src/l2_stp.go:857-865 | the loop computes the elected root |
| `StpEngine.StpState.ChooseRootPort` | src/l2_stp.go:869-900 | the loop computes the root port and its cost, adding in 32 bits |
| `StpEngine.StpState.SetPortRole` | src/l2_stp.go:949-975 | the new role and state of the port, and exactly which learned addresses are flushed |
| `StpEngine.StpState.AssignPortRoles` | src/l2_stp.go:902-924 | every port gets its role in place, and the addresses on exactly the ports that stop forwarding are flushed |
| `StpEngine.StpState.Recompute` | src/l2_stp.go:847-945 | the fields updated in place are those of the computation as a function, and the result says whether a role or state moved |
| `StpEngine.StpState.CollectDesignated` | src/l2_stp.go:650-672 | one BPDU for each designated port in port order, none when the information is too old |
| `StpEngine.StpState.SendHello` | src/l2_stp.go:706-716 | a hello sends the collected BPDUs and changes nothing |
| `StpEngine.StpState.Converge` | src/l2_stp.go:1071-1084 | recomputes, then sends as a hello does |
| `StpEngine.StpState.ProcessBPDU` | src/l2_stp.go:720-819 | the new state, what is sent, and the addresses flushed. A BPDU of 20 seconds or our own is dropped; a superior one is recorded and, if and only if some port's role or state moved, every designated port sends the new root, cost and own identifier once; one that is not superior is answered on its own port where that is designated and wins, or refreshes an equal record |
| `StpEngine.StpState.PromoteForwardingPorts` | src/l2_stp.go:1156-1181 | every root and designated port forwards, nothing else moves |
| `StpEngine.StpState.AdvancePortState` | src/l2_stp.go:979-1011 | a listening port learns, a learning port forwards, any other keeps its state |
| `StpEngine.RecordMovesNothing` | src/l2_stp.go:796-817 | storing a received vector by itself moves no role and no state, so the relay decision sees only the recomputation |
| `StpEngine.AddressesFollowPorts` | src/l2_stp.go:966-974 | of addresses learned on forwarding ports a computation keeps exactly those whose ports still forward |
| `StpEngine.LearnedTooEarlyStays` | src/l2_stp.go:966-974 | an address learned on a port that was still learning stays known when the port is blocked |
| `StpRelay.ReactsToEvery` | src/l2_stp.go:757-818 | the answer to every BPDU in every state, told without the computation's own functions: relayed on exactly the designated ports, once each and in port order, with an age two seconds over that of the root port's record, if and only if a role or state moved; else answered, refreshed or dropped |
| `StpRelay.CollectTells` | src/l2_stp.go:650-672 | what a hello sends, in the same terms |
| `StpRelay.StatesFollowRoles` | src/l2_stp.go:949-975 | forwarding and learning ports stay so while their role allows it, others start by listening, and ports without a forwarding role block at once |
| `StpRelay.ImprovementKeptQuiet` | src/l2_stp.go:813-817 | a bridge that hears of its root on one port alone and there of a cheaper way to it lowers its cost and tells nobody |
| `StpRelay.MoveIsHeard` | src/l2_stp.go:809-818 | after a delivery that moves a port, without any hello: once all in flight is delivered, the far end of each designated port holds what the bridge then believed or better, and exactly that if the bridge has learned no better, where that is under 20 seconds old |
| `StpRelay.CascadeIsHeard` | src/l2_stp.go:809-818 | so for every delivery of every lossless run that ends with nothing in flight |
| `StpRelay.StepKeepsUpToDate` | src/l2_stp.go:720-819 | a step that loses nothing and is no quiet improvement keeps what a designated port has to tell on its way or arrived |
| `StpRelay.OneRoundTeaches` | src/l2_stp.go:650-819 | after one round in which a bridge never improves quietly, the far ends of its designated ports hold exactly what it believes, in a network of any size |
| `StpRelay.OneRoundSettles` | src/l2_stp.go:650-819 | so one round settles any network in which no bridge improves quietly during it and no bridge with a designated link port ends at the age limit |
| `StpCodec.BPDURoundTrip` | src/l2_stp.go:200-258 | a configuration BPDU for protocol 0 comes back as sent, whatever follows it, when its age is below its maximum age, and is refused otherwise |
| `StpCodec.AcceptedBPDUIsItsBytes` | src/l2_stp.go:217-258 | an accepted configuration BPDU serializes to the 35 bytes it was read from |
| `StpCodec.BPDUParts` | src/l2_stp.go:200-215 | where each field of a BPDU stands: root, cost, sender and port at 5, 13, 17 and 25, the times from 27 on |
| `StpCodec.AcceptedExactly` | src/l2_stp.go:217-258 | accepted are exactly topology change notifications of at least four bytes and configuration BPDUs of at least 35 younger than their maximum age, for protocol 0 |
| `StpCodec.FrameParts` | src/l2_stp.go:261-276 | addresses, length and LLC header of the frame |
| `StpCodec.FrameReadExactly` | src/l2_stp.go:278-297 | a frame is read exactly if it has the LLC header, and up to its length field where that fits |
| `StpCodec.WireOrderIsPriority` | src/l2_stp.go:200-215 | which of two BPDUs is superior can be read off their bytes 5 to 26 |
| `StpCodec.FrameRoundTrip` | src/l2_stp.go:261-297 | an 802.3/LLC frame gives its payload back with any padding after it |
| `StpCodec.BPDUFrameRoundTrip` | src/l2_stp.go:200-297 | a BPDU framed and parsed is the BPDU sent |
| `StpSafety.EveryRunIsTraced` | src/l2_stp.go:720-924 | in every interleaving of hellos, recomputations, deliveries, losses and promotions from a fresh start, every recorded, believed or in-flight vector stands for a real walk of exactly that cost from a real bridge |
| `StpSafety.StepKeepsSound` | src/l2_stp.go:720-924 | each single step keeps that invariant and makes no bridge's root and cost worse |
| `StpSafety.ExecKeepsSound` | src/l2_stp.go:720-924 | so does each run, from any state that satisfies it |
| `StpSafety.HorizonOfTenLinks` | src/l2_stp.go:655-667 | in every run what a bridge believes stands for a walk of exactly its cost with at most ten links: the age limit is a horizon |
| `StpSafety.FarRootsAreNeverLearned` | src/l2_stp.go:650-672 | in no run does a bridge believe in a root that every way to it takes more than ten links to reach |
| `StpSafety.RecordCostExact` | src/l2_stp.go:879-885 | adding the port cost in 32 bits never wraps on anything a run can record |
| `StpSafety.ReceiveRecords` | src/l2_stp.go:757-808 | reception replaces at most the receiving port's record, and only by a superior or equal one |
| `StpMonotone.RunsOnlyImprove` | src/l2_stp.go:720-924 | from any point of any run on, each root and cost and each recorded vector only improves |
| `StpExchange.StepPotential` | src/l2_stp.go:770-799 | each superior BPDU uses up part of a finite potential; no other step changes it |
| `StpExchange.FinitelyManySuperior` | src/l2_stp.go:770-799 | the superior BPDUs of a run, however long, are bounded by what was left to learn at its start |
| `StpExchange.InferiorResponse` | src/l2_stp.go:772-794 | a BPDU that is not superior moves no role and no vector and sets off at most one reply |
| `StpExchange.DeliveryDescends` | src/l2_stp.go:720-819 | every delivery lowers a pair of potential and load, so replies cannot go back and forth for ever |
| `StpExchange.DeliverAll` | src/l2_stp.go:720-819 | whatever frame is delivered next, delivering comes to an end with nothing in flight |
| `StpConvergence.HelloInforms` | src/l2_stp.go:650-716 | after a hello whose frames are delivered, the peer knows a path over the link, unless what the bridge knows was too old to send |
| `StpConvergence.AgedPeerKnows` | src/l2_stp.go:665-668 | where information is too old to send, the next bridge of a walk that is in time (nothing as good reaches its bridges over more than ten links) already knows better |
| `StpConvergence.RoundExtendsKnowledge` | src/l2_stp.go:704-819 | one round takes knowledge of the start of a walk in time over its next link, whatever the order within the round |
| `StpConvergence.KnowledgeAfterRounds` | src/l2_stp.go:704-819 | after any run, lossy or not, as many rounds as a walk in time has links tell its end the identifier of its start, at no more than its cost, in a network of any size |
| `StpConvergence.EqualCostsKnowledge` | src/l2_stp.go:704-819 | so, where all ports cost the same, for every walk of at most ten links from the best bridge, however long the detours |
| `StpConvergence.ShallowKnowledge` | src/l2_stp.go:704-819 | so for every walk of at most k links after k rounds, where no walk without repeats has more than ten |
| `StpConvergence.UndesignatedPeerKnows` | src/l2_stp.go:902-924 | where a bridge is not designated its peer knows a root and cost at least as good |
| `StpTree.RoundsFindShortestPaths` | src/l2_stp.go:704-924 | as many rounds as a cheapest walk from the best bridge has links give its end the lowest identifier of its component and the true shortest distance, if every such walk has at most ten; there may be any number of bridges and detours of any length |
| `StpTree.FarIsNeverExact` | src/l2_stp.go:650-672 | a bridge whose cheapest walks from the best bridge all have more than ten links is at its true distance in no state of any run |
| `StpTree.LearnsExactly` | src/l2_stp.go:650-924 | ten rounds give a bridge its true root and distance if and only if its cheapest walks have at most ten links, where it has none on both sides of that limit; where it has, the run can decide |
| `StpTree.SettledFindsShortestPaths` | src/l2_stp.go:847-924 | in every settled state of every run, of any size, every bridge has the lowest identifier of its component and the true shortest distance |
| `StpTree.OneDesignatedEnd` | src/l2_stp.go:902-924 | a link has at least one designated end in every state of every run, exactly one in a settled state |
| `StpTree.OneRootPort` | src/l2_stp.go:902-924 | a bridge has exactly one root port, or none if it believes it is the root |
| `StpTree.UndesignatedIsBeaten` | src/l2_stp.go:902-924 | a port that is not designated has a peer whose own vector is superior |
| `StpSettling.RoundsSettle` | src/l2_stp.go:704-924 | d <= 10 rounds after any run from a fresh start, in any order within a round, a network of any size is settled if the better end of every link is fewer than d links out |
| `StpSettling.FewBridgesSettle` | src/l2_stp.go:704-924 | in particular n - 1 rounds settle n <= 11 bridges, however they are joined |
| `StpSettling.RoundSettles` | src/l2_stp.go:704-819 | a round at whose start the better end of every link has its true distance, within nine links or with the far end knowing it, leaves the network settled |
| `StpSettling.NearLinkIsTaught` | src/l2_stp.go:650-819 | after a round at whose start the better end of a link had its true distance, within nine links, the other end holds that end's vector |
| `StpSettling.NeverSettles` | src/l2_stp.go:650-672 | a network is settled in no state of any run if on some link the better end has only cheapest walks of ten links or more |
| `StpSettling.FarLinkNeverSettles` | src/l2_stp.go:650-672 | so when both ends of a link are ten links out or more |
| `StpSettling.SettlesExactly` | src/l2_stp.go:650-924 | ten rounds settle a network if and only if the better end of every link is at most nine links out, where none has cheapest walks on both sides of that limit; where one has, the run can decide |
| `StpSettling.EqualCostsDoNotStraddle` | src/l2_stp.go:879-885 | where all ports cost the same no bridge has cheapest walks on both sides of any limit |
| `StpTies.TheRunDecides` | src/l2_stp.go:650-924 | in a network with cheapest walks on both sides of the limit, after one run any ten rounds settle it, after another no run does, and a bridge never learns where the root is: no condition on the network alone could tell |
| `StpTies.LimitIsStraddled` | src/l2_stp.go:655-667 | in that network the cheapest walks to a bridge have two and ten links, and to the next one three and eleven |
| `StpTies.ThereIsATie` | src/l2_stp.go:405-428 | there is such a network, of thirteen bridges numbered by one address counter |
| `StpTies.StepKeepsDeaf` | src/l2_stp.go:655-760 | a port whose peer knows the root only from too far out to say never records it |
| `StpSettling.TaughtStays` | src/l2_stp.go:757-808 | what the far end holds of an end at its true distance it holds for ever |
| `StpSettling.ShallowIsClose` | src/l2_stp.go:879-924 | where no walk without repeats has more than d links the better end of every link is fewer than d links out: its cheapest walk avoids the other end |
| `StpRing.RingSettlesExactly` | src/l2_stp.go:650-924 | ten rounds settle a ring of n equal links if and only if n <= 20; a larger ring is never settled |
| `StpRing.RingOf21Loops` | src/l2_stp.go:650-672 | in a ring of 21 equal links, after any run, ten rounds and promotion, every link forwards: a frame that never turns back comes round to where it started |
| `StpRing.DefaultRingNeverSettles` | src/l2_stp.go:405-428 | there are such rings: 21 to 127 bridges numbered by one address counter, at default costs |
| `ForwardingTree.OpenIffRootPort` | src/l2_stp.go:1188-1203 | the links left open are exactly those with a root port at one end, and only one |
| `ForwardingTree.RootPortClimbs` | src/l2_stp.go:869-924 | a root port is joined to an open port closer to the root by exactly the link's cost |
| `ForwardingTree.OnwardIsSimple` | src/l2_stp.go:1156-1222 | a frame that never turns back meets no bridge twice |
| `ForwardingTree.OneWay` | src/l2_stp.go:1156-1222 | between two bridges there is at most one way that does not turn back |
| `ForwardingTree.OpenLinksSpanOnce` | src/l2_stp.go:847-924 | the open links reach exactly the connected bridges, each by exactly one way: a spanning tree of every component |
| `ForwardingTree.RoundsMakeReady` | src/l2_stp.go:1156-1181 | d <= 10 rounds of hellos and one promotion make a network ready for traffic if the better end of every link is fewer than d links out |
| `StpStable.ReadyStays` | src/l2_stp.go:720-1181 | a ready network stays ready, and every root, cost, root port, role and state stays as it is, under any further hellos, recomputations, late deliveries, losses, promotions and timers |
| `StpStable.LateArrivalStays` | src/l2_stp.go:796-817 | a late BPDU that a designated port of a ready network records moves nothing |
| `StpStable.DelaysForward` | src/l2_stp.go:979-1011 | a listening port learns after one forward delay and forwards after two, a learning port forwards after one, others stay |
| `StpStable.DelaysMakeReady` | src/l2_stp.go:979-1011 | a settled network is ready once every port's forward delay has run out twice |
| `Flooding.FloodAll` | src/l2_switch.go:453-540 | a flooded frame, its copies handled in any order, comes to rest; no bridge takes it in twice, no port sends it twice, and it reaches exactly the bridges its VLAN is carried to, all connected ones if the tree allows it |
| `Flooding.FloodStepKeepsInv` | src/l2_switch.go:453-540 | handling one copy keeps the invariant behind that |
| `Flooding.FloodMakesEveryWalk` | src/l2_switch.go:453-540 | at rest, every way on which the VLAN is allowed has been taken |
| `Switching.LearnedPointsHome` | src/l2_switch.go:336-353 | every learned entry is the station's own port or one whose far end is one link closer to it, and no other port could have been learned |
| `Switching.NoFrameLoops` | src/l2_switch.go:356-450 | under any mix of flooding, learning, forgetting and forwarding a frame meets no bridge twice; that it does get everywhere is Broadcast.FloodArrives |
| `Switching.NoFrameTwice` | src/l2_switch.go:356-650 | under any such mix, of any number of frames, no bridge takes in the same frame twice |
| `Switching.DistanceIsUnique` | src/l2_switch.go:356-450 | the tree distance between two bridges is well defined |
| `Switching.TrafficKeepsInv` | src/l2_switch.go:544-650 | every event keeps every frame on its way and every entry pointing home |
| `Switching.EventKeepsOnce` | src/l2_switch.go:356-650 | every event keeps each copy of a frame in one place, and its way recorded |
| `Switching.HandleAll` | src/l2_switch.go:544-650 | whatever frames are in flight and whichever is handled next, all come to rest |
| `Broadcast.FloodedEverywhere` | src/l2_switch.go:371-384 | a broadcast, or a frame for an address not learned, leaves by exactly the other ports of the switch that are in forwarding state and carry the VLAN, once each and in port order |
| `Broadcast.KnownLeavesByOne` | src/l2_switch.go:386-450 | a frame for a learned address leaves by that port alone, if that is not where it came in, forwards and carries the VLAN; else not at all |
| `Broadcast.TakenInIsLearned` | src/l2_switch.go:336-353 | a frame is taken in exactly on a port that learns or forwards and carries the VLAN; its source is then known to be behind that port, unless it is the broadcast address, and nothing else known changes |
| `Broadcast.ForgottenIsUnknown` | src/l2_switch.go:203-241 | an entry that expires is gone, and no other |
| `Broadcast.FloodArrives` | src/l2_switch.go:356-540 | a broadcast, or a frame for a station nobody has heard of, sent into any traffic: once no copy of it is in flight the bridges that took it in are exactly those its VLAN is carried to, all connected ones where it is allowed on the tree, whatever else is sent, handled and forgotten meanwhile |
| `Broadcast.StationsAreReached` | src/l2_switch.go:453-540 | each of them sends it to every station there but its sender, where the VLAN is allowed |
| `Broadcast.CopyIsFloodStep` | src/l2_switch.go:356-540 | handling a copy in the full switch is a step of the flood by itself |
| `Delivery.KnownUnicastArrives` | src/l2_switch.go:356-450 | a frame between stations, if every bridge on the way has learned the destination and the VLAN is allowed there, crosses exactly as many links as lie between them, as one copy at every stage, and is sent to the station's port and no other |
| `Delivery.LearnedIsWayBack` | src/l2_switch.go:336-353 | what the bridge at the end of a walk from a station has learned is the port the walk comes in by |
| `Delivery.HostPortForwards` | src/l2_stp.go:902-975 | on a ready tree a port without a link forwards |
| `MacTables.MacTable.Lookup` | src/l2_switch.go:78-102 | the port of the entry for the address and VLAN, none if there is none |
| `MacTables.MacTable.AddOrUpdate` | src/l2_switch.go:112-169 | the list after learning: moved, refreshed or put in front, with keys unique |
| `MacTables.MacTable.FlushInterface` | src/l2_switch.go:268-294 | drops exactly the entries on the port and keeps the order of the rest |
| `MacTables.MacTable.Flush` | src/l2_switch.go:246-264 | drops everything and counts it |
| `MacTables.MacTable.CleanupExpired` | src/l2_switch.go:203-241 | drops exactly the entries older than the timeout |
| `MacTables.LearnedSetsOne` | src/l2_switch.go:112-169 | learning sets the port of one address and VLAN and of no other |
| `MacTables.HeardIsKept` | src/l2_switch.go:112-241 | with refreshing after 30 and ageing after 300 seconds, an address stays known for 270 seconds after each frame from it, and for no more than 300 |
| `Vlan.TagRoundTrip` | src/l2_vlan.go:59-120 | a tag is found again with its VLAN, and removing it gives back the untagged frame |
| `Vlan.LinkKeepsVlan` | src/l2_vlan.go:157-219 | over a link with matching ends a frame is put in the same VLAN if and only if: where tags are removed it is long enough and has no second tag, or one for the same VLAN on a trunk; where tags are put on it is long enough |
| `Vlan.LinkKeepsContent` | src/l2_vlan.go:59-120 | addresses, EtherType and payload are kept if and only if no second tag is exposed; otherwise the frame gets shorter |
| `Vlan.PathKeepsVlan` | src/l2_vlan.go:157-219 | VLAN and contents survive a path of switches with matching link ends if and only if the frame has no second tag or no link removes tags, and a frame of fewer than four bytes of payload is never without a tag where a link removes them |
| `Vlan.AllowedExactly` | src/l2_vlan.go:157-219 | an access port carries its own VLAN and no other, a trunk those on its list and no other |
| `Vlan.TakenInExactly` | src/l2_vlan.go:157-185 | an access port takes in exactly untagged frames, for its VLAN; a trunk takes a frame for the VLAN in its tag, or its native one, if that is on the list |
| `Vlan.OtherPorts` | src/l2_vlan.go:157-219 | a port with an IP address passes every frame as it is, one set to route without an address carries no VLAN |
| `Vlan.TraversesItsVlans` | src/l2_vlan.go:157-219 | whatever the ends of links are set to, a frame gets over a path of switches exactly if every port on it carries the VLAN the frame is in there |
| `Vlan.TciIs` | src/l2_vlan.go:59-71 | priority, drop bit and VLAN stand in the top three, the next and the low twelve bits of a tag |
| `Vlan.PrepareSucceeds` | src/l2_vlan.go:189-219 | preparing fails exactly on frames too short to untag or tag |
| `Vlan.DoubleTagEscapes` | src/l2_vlan.go:95-120 | a frame of VLAN 7 with a second tag for VLAN 9 leaves a trunk of native VLAN 7 as a frame of VLAN 9 |
| `Vlan.PriorityIsReset` | src/l2_vlan.go:59-71 | where tags are put on, a frame keeps its priority if and only if it has none |
| `Vlan.RetaggedIsPrepared` | src/l2_vlan.go:59-120 | a frame that another port has retagged where it was is prepared for a port exactly as the original is |
| `Vlan.PrepareCopies` | src/l2_switch.go:486-530 | so the copies of a flood made one after the other from one buffer, which retagging overwrites, are each as if made from the frame as it came in |
| `Vlan.PrepareFrame` | src/l2_vlan.go:189-219 | the prepared frame, and what it does to the buffer it is made from |
| `Vlan.AddVlanTag` | src/l2_vlan.go:59-91 | an untagged frame is copied with a tag and left alone; a tagged one is retagged in place |
| `Vlan.RemoveVlanTag` | src/l2_vlan.go:95-120 | the same frame without its tag |
| `Vlan.Interface.SetL2Mode` | src/interface.go:157-225 | accepts exactly the settings that make a proper switch port, and changes nothing otherwise |
| `Arp.ArpTable.Lookup` | src/l2_arp.go:249-267 | what the address resolves to: the address of the complete entry, none while it is incomplete or missing |
| `Arp.ArpTable.ResolveOrQueue` | src/l2_arp.go:374-435 | resolved, queued or created; a request is asked for exactly by the creator of the entry; bad sizes change nothing |
| `Arp.ArpTable.LearnBinding` | src/l2_arp.go:861-938 | the table with the binding, and exactly the packets that waited for it |
| `Arp.ArpTable.CollectPendingActions` | src/l2_arp.go:471-523 | the table, the retries and the failures of one maintenance pass |
| `Arp.ArpTable.CleanupExpired` | src/l2_arp.go:337-366 | drops exactly the complete entries past the timeout |
| `ArpRuns.EveryRun` | src/l2_arp.go:337-523 | in every run, clock readings in any order: unique addresses, complete entries without packets, every accepted packet waiting, released to its own address, or failed; at most three requests each a second apart, no failure before three seconds |
| `ArpRuns.OrderedRun` | src/l2_arp.go:374-523 | where the readings come in order no address is asked for after its resolution has ended |
| `ArpRuns.LateReader` | src/l2_arp.go:389-397 | that needs the order: a reading taken before the lock can end a resolution before its request |
| `ArpRuns.ExactlyOnePlace` | src/l2_arp.go:374-523 | each accepted packet is in exactly one of those places, once |
| `ArpRuns.StepConserves` | src/l2_arp.go:374-523 | each step conserves packets together with the address they wait for |
| `ArpRuns.StepKeepsTracked` | src/l2_arp.go:193-198 | each step keeps the pacing and the bound on requests, and table entries in step with the requests sent |
| `ArpRuns.MaintenanceLeavesNothingOverdue` | src/l2_arp.go:471-523 | a pass removes an address exactly when it has timed out |
| `ArpRuns.ActionsAt` | src/l2_arp.go:471-523 | a pass retries an address exactly when due, and fails it exactly when timed out |
| `ArpRuns.RetriesAreDistinct` | src/l2_arp.go:505-519 | a pass retries no address twice |
| `ArpRuns.FailureReportsAreComplete` | src/l2_arp.go:485-503 | the failure reports count exactly the packets given up and call each of their callbacks, in order |
| `ArpBindings.LearnedIsResolved` | src/l2_arp.go:861-915 | after a binding is learned its address resolves to the MAC learned, unless it was only to update an entry and there was none; no other address resolves differently |
| `ArpBindings.EveryRunResolves` | src/l2_arp.go:249-366 | in every run an address resolves to the MAC it was last learned with, until a cleanup more than 60 seconds after that; told without the table |
| `ArpBindings.UnansweredAreAccepted` | src/l2_arp.go:374-435 | in every run exactly the packets for addresses not bound at the time are queued |
| `ArpBindings.LastQueuedIsFirst` | src/l2_arp.go:403-410 | packets that wait for one address are handed on newest first |
| `ArpBindings.FirstWayIsKept` | src/l2_arp.go:403-430 | an entry keeps the interface and clock of the packet that created it and the first way to send requests that it is given |
| `ArpBindings.RetriesSay` | src/l2_arp.go:505-519 | each retry names its entry's interface, the number of the request and the way to send it |
| `ArpBindings.FailuresSay` | src/l2_arp.go:485-503 | each failure names its entry's interface, requests and number of packets |
| `ArpBindings.MaintenanceActs` | src/l2_arp.go:471-523 | a pass ends exactly the resolutions begun three seconds ago, and sends another request for exactly those that have had fewer than three and none for a second |
| `RoutingTables.RoutingTable.LookupLPM` | src/l3_routing.go:411-473 | a matching route that is the choice; none exactly when the address lies in no stored prefix, from its destination to 2^(32 - mask) on |
| `RoutingTables.RoutingTable.AddRouteWithParams` | src/l3_routing.go:313-362 | masks, then updates the route with that key or appends; fails exactly on a mask over 32 |
| `RoutingTables.RoutingTable.DeleteRouteFromSource` | src/l3_routing.go:364-383 | the table after swap-deletion, and whether there was such a route |
| `RoutingTables.RoutingTable.DeleteRouteBySource` | src/l3_routing.go:386-404 | drops exactly the routes of a source and counts them |
| `RoutingTables.ChoiceIsUnique` | src/l3_routing.go:411-473 | the order of preference leaves one choice |
| `RoutingTables.AddedIsValid` | src/l3_routing.go:313-362 | adding keeps one route per network, mask and source, stored masked |
| `RoutingTables.AddedGet` | src/l3_routing.go:313-362 | adding writes one key and no other |
| `RoutingTables.RemovedIsValid` | src/l3_routing.go:364-383 | swap-deletion keeps one route per network, mask and source, stored masked |
| `RoutingTables.RemovedGet` | src/l3_routing.go:364-383 | swap-deletion takes out one key and no other, although it moves a route |
| `RoutingTables.WithoutSourceGet` | src/l3_routing.go:386-404 | deleting a source leaves the other sources' routes as they were |
| `RoutingTables.NetworkIsFloor` | src/l3_routing.go:196-218 | masking takes an address down to a multiple of 2^(32 - mask) |
| `RoutingTables.SameNetwork` | src/l3_routing.go:196-218 | two addresses are in the same network exactly if their first mask bits agree |
| `RoutingTables.StoredMatchesSpan` | src/l3_routing.go:421-438 | a stored route matches exactly the 2^(32 - mask) addresses from its destination on |
| `RoutingTables.ChoiceIsBest` | src/l3_routing.go:411-473 | of all routes whose prefix has the address the choice has the longest mask, then the lowest distance, then the lowest metric, then the first place |
| `SubnetMasks.SubnetMaskToMaskBits` | src/rip.go:652-661 | the loop ends and counts the ones of the mask |
| `SubnetMasks.MaskRoundTrip` | src/rip.go:371-374 | the mask sent for a prefix length is counted back to that length |
| `SubnetMasks.MaskIs` | src/rip.go:371-374 | the mask sent for a prefix length is 2^32 - 2^(32 - length) |
| `SubnetMasks.OneBitsAddUp` | src/rip.go:652-661 | ones count wherever they stand in a mask |
| `Rip.RipState.ProcessRIPPacket` | src/rip.go:427-589 | a packet that nothing comes between: both stores afterwards, entry by entry, still in agreement; nothing when disabled or for another command |
| `Rip.RipState.ApplyEntry` | src/rip.go:457-558 | the stores after one entry: installed, improved, refreshed, poisoned or ignored; what that means for its timeout is RipTimers.EntryIsHeard |
| `Rip.RipState.ApplyResponse` | src/rip.go:453-589 | the locked loop, whatever the two stores hold by then: the stores after its entries, in order |
| `Rip.RipState.CheckExpiredRoutes` | src/rip.go:592-649 | exactly the overdue routes are poisoned and leave the forwarding table, exactly the collected ones are forgotten, in any visiting order |
| `Rip.RipState.StopRIP` | src/rip.go:183-210 | a stop that nothing comes between: no RIP route is left in either store, every other route is |
| `Rip.RipState.BeginStop` | src/rip.go:184-199 | the first section of a stop: disables, and says whether there is anything to stop |
| `Rip.RipState.FlushRoutes` | src/rip.go:203 | the second: the forwarding table loses its RIP routes, the learned routes stay |
| `Rip.RipState.ForgetRoutes` | src/rip.go:205-207 | the third: the learned routes are forgotten, the forwarding table stays |
| `Rip.RipState.RoutesForAdvertisement` | src/rip.go:289-321 | with nothing between its two readings: the forwarding table and one poison for each expired prefix it does not hold |
| `Rip.RipState.ReadPoisons` | src/rip.go:290-306 | the first reading: one poison for each expired learned route |
| `Rip.RipState.Advertise` | src/rip.go:308-321 | the second: the forwarding table as it is by then, and those poisons that it does not cover |
| `Rip.RipState.BuildRIPResponse` | src/rip.go:358-398 | one entry for each route, with split horizon and metrics of at most 16 |
| `Rip.EntryOutcome` | src/rip.go:482-558 | a better entry is what the forwarding table uses, at one hop more through its sender; bad news from the router in use takes the route away; no better news from another router changes nothing |
| `Rip.EntryKeepsAgree` | src/rip.go:457-558 | each entry keeps the two stores in agreement: unexpired RIP routes one to one with RIP routes in the forwarding table, expired exactly at metric 16 |
| `Rip.ResponseKeepsAgree` | src/rip.go:427-589 | so does a whole response, and no route of another source changes |
| `Rip.CheckKeepsAgree` | src/rip.go:592-649 | so does timing out and collecting |
| `Rip.StopKeepsAgree` | src/rip.go:183-210 | so does a stop that nothing comes between |
| `Rip.ExpiredIsPoisoned` | src/rip.go:289-321 | with nothing between the two readings, every expired prefix is advertised at 16 or covered by a route of another source |
| `Rip.MissedExactly` | src/rip.go:289-321 | an expired prefix is missing from an update if and only if no route covers it at the second reading and it had not expired at the first |
| `Rip.PrefixSurvivesTheWire` | src/rip.go:358-398 | the receiver computes the prefix that the sender advertised |
| `Rip.EntrySays` | src/rip.go:358-398 | what is sent for a route: prefix, mask, and 16 over the interface it was learned on, over others its metric, at most 16, a zero counted as one unless connected |
| `Rip.AdvertisedIsLearned` | src/rip.go:358-531 | so a route sent over another interface is used by a router that knew none, at one hop more, through the sender |
| `Rip.SplitHorizonInstallsNothing` | src/rip.go:382-384 | a route sent back over the interface it came from is never installed from that entry |
| `Rip.MetricWrapsOnlyAtTheTop` | src/rip.go:474-477 | the learned metric is one more, capped at 16, exactly for metrics other than 2^32 - 1, which becomes 0 |
| `Rip.WrappedMetricIsInstalled` | src/rip.go:474-527 | an entry with metric 2^32 - 1 leaves its prefix in use, in both stores, at metric 0 |
| `RipDaemon.StopIsClean` | src/rip.go:183-210 | whatever comes after the flush, a completed stop has left RIP routes in neither store, if and only if at the flush no waiting packet has a reachable entry and the packet being applied leaves no route |
| `RipDaemon.StopRaces` | src/rip.go:428-453 | a reachable entry past the enabled check: applied between flush and clear it leaves the stores in disagreement, applied after the clear it leaves a stopped router with a route in both |
| `RipDaemon.EveryRunAgrees` | src/rip.go:183-649 | in every interleaving in which no stop flushes while a packet past the check can do harm the stores agree, except between flush and clear, where the forwarding table holds learned routes only |
| `RipDaemon.EveryRunIsSane` | src/rip.go:156-649 | in every interleaving, races included, routes of other sources stay, the forwarding table keeps one masked route per key and learned routes are well formed |
| `RipDaemon.StepKeepsOrderly` | src/rip.go:183-649 | each section keeps that agreement, but for a clear that finds a RIP route in the forwarding table |
| `RipDaemon.ClearAgreesExactly` | src/rip.go:205-207 | forgetting the learned routes keeps the stores in agreement if and only if the forwarding table has no RIP route |
| `RipDaemon.EntryInstallsExactly` | src/rip.go:485-556 | a forwarding table without RIP routes gets one from an entry if and only if the entry is reachable and is new, better, or from the router in use |
| `RipDaemon.EntryKeepsStays` | src/rip.go:457-558 | whether a packet leaves a route for a prefix can be read off its entries: the last one for the prefix decides, if the sender is in use or comes into use |
| `RipDaemon.HarmlessIsClean` | src/rip.go:183-210 | if packets past the check do no harm at the flush, the clear finds no RIP route |
| `RipNetwork.EveryMetricIsAPathCost` | src/rip.go:156-649 | in every run, however deliveries, losses, entries, timeouts and the sections of stops and starts interleave: routes of other sources are as configured, and each unexpired learned metric and each metric RIP has in a forwarding table is exactly the cost of a real path from an originator |
| `RipNetwork.NoMetricBelowDistance` | src/rip.go:156-649 | no such metric is below the true distance |
| `RipNetwork.EachRouterRuns` | src/rip.go:156-649 | each router of a network runs as one router by itself does, so what holds of every run of one holds here |
| `RipNetwork.StoresAgree` | src/rip.go:183-589 | a router whose stops did not flush while a packet past the enabled check could do harm has stores that agree |
| `RipNetwork.StepKeepsSound` | src/rip.go:156-649 | each step of the network keeps the invariant behind that |
| `RipNetwork.AdvertisedIsOffered` | src/rip.go:289-398 | what a router advertises below 16 is the cost of a path to it, whenever its two stores were read |
| `RipTimers.EntryIsHeard` | src/rip.go:485-540 | an entry from the router in use, or a better one, makes now the time the route was last heard of; if it is lost by it, it is kept from now, or from when it was lost before |
| `RipTimers.CheckIs` | src/rip.go:605-636 | a check gives up exactly the routes not heard of for more than 180 seconds and forgets exactly those given up more than 120 seconds ago |
| `RipTimers.CheckTakesExactly` | src/rip.go:605-636 | so a route in use leaves the forwarding table exactly then |
| `RipTimers.RepeatedStaysInUse` | src/rip.go:457-649 | in every run of a router that is not stopped, a route that is said to be reachable at least every 180 seconds before each check stays in both stores throughout, whatever other packets come between |
| `RipTimers.CheckIsPossible` | src/rip.go:592-649 | a running router can check its routes whenever nobody holds the lock |
| `RipTimers.StopAndRestart` | src/rip.go:156-210 | a router stopped and started with nothing between runs without RIP routes |
| `RipExchange.SentIsReceived` | src/rip.go:323-453 | an update comes in at the other end of the link entry for entry, from the sender's address and on the receiving port |
| `RipExchange.UpdateIsApplied` | src/rip.go:323-589 | there is a run that sends and applies a whole update, and it leaves the receiver with what its entries make of its stores |
| `RipExchange.NeighbourLearns` | src/rip.go:323-589 | so a running router uses a prefix that the update names once, at the sender's cost and one hop more, through the sender, if it knows none as good |
| `RipPacket.PacketRoundTrip` | src/rip.go:91-144 | a packet comes back as sent, with up to 19 bytes of padding |
| `RipPacket.ParsedIsItsBytes` | src/rip.go:116-144 | a parsed packet serializes to the bytes it was read from, up to less than an entry |
| `RipPacket.PacketLayout` | src/rip.go:91-113 | command, version, zero, then twenty bytes for each entry, in order |
| `RipPacket.EntryLayout` | src/rip.go:99-110 | where each field of an entry stands |
| `RipPacket.SerializeRIPPacket` | src/rip.go:91-113 | the buffer is filled with the header and the entries in order |
| `RipPacket.DeserializeRIPPacket` | src/rip.go:116-144 | reads as many whole entries as there are |
| `Checksum.InternetChecksum` | src/l3_routing.go:730-743 | both loops end; up to 131074 bytes the result is the complement of the one's-complement sum |
| `Checksum.Fold` | src/l3_routing.go:739-741 | folding ends and keeps the one's-complement value |
| `Checksum.StoredChecksumValidates` | src/l3_routing.go:51-77 | a message with its checksum stored sums to zero, for every length and even position |
| `Checksum.OneWordErrorIsNoticed` | src/l3_routing.go:72-77 | changing one word of a valid message is noticed, except plus zero for minus zero |
| `Checksum.OddByteIsPadded` | src/l3_routing.go:736-738 | an odd last byte counts as the high half of a word whose low half is zero |
| `Checksum.PairIsWord` | src/l3_routing.go:732-735 | of each pair of bytes the first counts 256 times |
| `Checksum.StoredIsValid` | src/l3_routing.go:51-77 | storing the header checksum makes the header valid |
| `Checksum.ForwardedIsValid` | src/l3_routing.go:644-649 | the forwarding rewrite leaves a valid header |
| `Checksum.SetIPHeaderChecksum` | src/l3_routing.go:63-68 | writes the two checksum bytes in place and no other |
| `Checksum.ForwardInPlace` | src/l3_routing.go:644-649 | writes the time to live and the checksum in place and no other byte |
| `Ipv4Header.HeaderRoundTrip` | src/l3_routing.go:85-177 | a serialized header is valid and is read back exactly when version and lengths are in order |
| `Ipv4Header.RawParts` | src/l3_routing.go:85-123 | where each field of a header stands |
| `Ipv4Text.ParseIPv4` | src/l3_network.go:98-136 | the loop accepts exactly the printed addresses |
| `Ipv4Text.ParseInvertsPrint` | src/l3_network.go:98-140 | parsing and printing invert each other both ways |
| `Ipv4Text.PrintIsInjective` | src/l3_network.go:138-140 | different addresses print differently, so comparing texts compares addresses |
| `Forwarding.EveryChainEnds` | src/l3_routing.go:556-728 | whatever the topology and the routing tables, cyclic ones included, the chain of packets that one packet sets off is bounded by the length of that packet |
| `Forwarding.ReceiveDescends` | src/l3_routing.go:556-728 | each reception lowers a measure |
| `Forwarding.ForwardedOrYounger` | src/l3_routing.go:556-728 | what leaves a node is the packet forwarded, or a new packet a generation nearer the end |
| `Forwarding.FewNewPackets` | src/l3_routing.go:673-728 | an echo request causes at most two new packets, an ordinary packet or a reply at most one, an ICMP error none, a tunnel layer one more |
| `Forwarding.GenerationsBound` | src/l3_routing.go:1023-1106 | each decapsulation costs a header, so nesting is bounded by length |
| `Forwarding.ErrorsBegetNothing` | src/l3_icmp.go:48-93 | an ICMP error is forwarded or disappears; nothing answers it |
| `Forwarding.ForwardingIsFaithful` | src/l3_routing.go:644-649 | a forwarded packet differs in time to live and checksum only, and is valid |
| `Forwarding.ExpiryReport` | src/l3_icmp.go:48-149 | an expired transit packet is reported exactly when its source is known, neither address is 224.0.0.0 or above, it is a first fragment and no ICMP error, and there is a route back; the report is of type 11, code 0, to that source, with 64 hops to go, not to be fragmented, valid, and quotes the header and eight bytes |
| `Forwarding.TransitIsForwarded` | src/l3_routing.go:590-671 | an intact transit packet with hops left is forwarded exactly when there is a route |
| `Forwarding.EchoIsAnswered` | src/l3_routing.go:677-699 | an intact echo request is answered to its source with its code, identifier, sequence number and data, a valid checksum, 64 hops to go, and never to be fragmented |
| `Forwarding.IcmpErrorIsValid` | src/l3_icmp.go:100-118 | the message made carries a valid checksum |
| `Forwarding.EchoReplyIsValid` | src/l3_routing.go:691-694 | so does an echo reply, which differs in type and checksum only |
| `Forwarding.BuildIcmpError` | src/l3_icmp.go:100-118 | the buffer filled is that message |
| `Forwarding.QuoteReadableOnlyIfShort` | src/l3_icmp.go:213-217 | the quoted header can be read back exactly when the original had at most eight bytes past its header |
| `Forwarding.OneWordIsNoticed` | src/l3_routing.go:563-586 | a packet with one word of its header changed after the first is dropped, except plus zero for minus zero |
| `Forwarding.OtherwiseSilent` | src/l3_routing.go:673-728 | of packets for the node itself only echo requests and packets in its tunnels make it send anything |
| `Forwarding.TunnelIsOpened` | src/l3_routing.go:1023-1106 | at the end of its tunnel a packet is taken out and received as if it had just come in |
| `Forwarding.UnroutableVanishes` | src/l3_routing.go:590-621 | a transit packet without a route vanishes, however many hops it has left |
| `Journeys.PassesOver` | src/l3_routing.go:590-671 | over routers that all have a route and none of which is the destination a packet with more hops left than there are routers arrives, changed in time to live and checksum only |
| `Journeys.EchoReturns` | src/l3_routing.go:677-699 | so the answer to an echo request comes back over any 63 routers, with time to live 64 - n and its contents as they were sent |
| `Journeys.RunsOut` | src/l3_icmp.go:66-149 | a packet with no more hops than routers on its way gets to the one where they run out, which reports it to its source from its own address, if it may and knows the way back |
| `Forwarding.OriginatedParses` | src/l3_routing.go:798-916 | a locally made packet is valid, parses, and carries its payload |
| `Lldp.UnitRoundTrip` | src/l2_lldp.go:113-229 | deserializing a serialized unit followed by any padding returns it, for every unit that can be serialized |
| `Lldp.AcceptedIffOrdered` | src/l2_lldp.go:160-229 | a payload is accepted exactly when it starts with chassis, port and time-to-live records in that order, with none of them again before an empty End, and of proper lengths; the unit holds their values and the last name, description and capabilities, and nothing of records of other types |
| `Lldp.SerializeUnit` | src/l2_lldp.go:113-158 | succeeds exactly when both identifiers are present and every value fits, and then gives the records in order |
| `Lldp.AppendTlv` | src/l2_lldp.go:90-111 | appends one record, exactly when type and length fit their fields |
| `Lldp.TlvBytes` | src/l2_lldp.go:90-103 | a record starts with seven bits of type and nine of length |
| `Lldp.DeserializeUnit` | src/l2_lldp.go:160-229 | the loop over offsets reads what the recursive definition reads |
| `EventBuses.EveryRun` | src/events.go:61-94 | under any interleaving of concurrent and re-entrant callers at most one thread drains, an idle bus has an empty queue, and events are taken in order, each once |
| `EventBuses.CallsIncrease` | src/events.go:61-94 | sink calls happen in strictly increasing sequence order |
| `EventBuses.EveryRunDelivers` | src/events.go:55-94 | in every run the events taken and waiting are those the actions emitted, with the next number and the sink set at the time, re-entrant or not; a bus that nobody drains has given each to that sink |
| `EventBuses.SinkMayEmit` | src/events.go:61-75 | an emission from inside a sink waits behind the others, and the sink is not called again before it returns |
| `EventBuses.DrainerFinishes` | src/events.go:79-93 | left alone the drainer empties the queue in a bounded number of its own steps, and every event has been handled once |
| `EventBuses.StepKeepsOrder` | src/events.go:55-94 | each locked section and each return from a sink keeps the invariant behind that |
| `EventBuses.EventBus.Begin` | src/events.go:65-77 | numbers and queues the event with the current sink; only the first caller drains |
| `EventBuses.EventBus.Poll` | src/events.go:80-92 | takes the next event, or stops dispatching on an empty queue |
| `EventBuses.EventBus.Emit` | src/events.go:61-94 | alone on the bus, an emission calls the sink once with the next number and leaves the bus idle |
| `MemoryTransports.EveryRun` | src/transport_memory.go:36-81 | what has been delivered is a prefix of what was accepted; unless closed, the rest is still queued, and an idle transport has delivered all |
| `MemoryTransports.ClosedIsFinal` | src/transport_memory.go:75-81 | after closing nothing more is accepted or delivered |
| `MemoryTransports.EveryRunAccepts` | src/transport_memory.go:36-81 | in every run exactly the frames sent before closing are accepted, and delivered in that order |
| `MemoryTransports.DrainerFinishes` | src/transport_memory.go:57-70 | left alone the delivering thread empties the queue in a bounded number of its own steps, and everything that waited has been delivered |
| `MemoryTransports.StepKeepsFifo` | src/transport_memory.go:36-81 | each locked section keeps the invariant behind that |
| `MemoryTransports.MemoryTransport.Begin` | src/transport_memory.go:45-57 | refuses when closed, else queues; only the first sender delivers |
| `MemoryTransports.MemoryTransport.Poll` | src/transport_memory.go:59-69 | takes the next frame, or stops delivering on an empty queue |
| `MemoryTransports.MemoryTransport.Close` | src/transport_memory.go:75-81 | closes and drops the queue |

## Left out

- Clocks, tickers and goroutines: times are parameters, and each section that holds a lock is one atomic step; the RIP
  packet loop, which a flush can interrupt, is one step for each entry (`RipDaemon`).
- Spanning tree: ageing out of records, priority changes and stopping on a running bridge, ports that come and go,
  topology change notifications and flags, adoption of other timer values, the budget of BPDUs, and the early exit of
  ConvergeSpanningTree, whose result is not a proof of convergence.
- Interface names: ports are numbers, in the order of their port identifiers.
- Linked lists of the MAC and ARP tables: the lists are sequences held in a field of a class, so node links are not
  modelled; entries are otherwise updated in place, in the same order.
- Switching: routing between VLANs, frames for the switch itself, and addresses of stations that move.
- `Vlan.AddVlanTag`: a tagged frame of 14 or 15 bytes is excluded, because the code writes past its end: what happens
  depends on the memory behind it. The functions of `Vlan` take it as refused.
- `Vlan.PathKeepsVlan`: excludes frames whose header, or whose second tag, is cut short.
- ARP: updating, deleting and clearing entries by hand, which hand no queued packet on, and the ARP packet format.
- `Checksum.InternetChecksum`: says nothing beyond 131074 bytes, where the 32-bit sum can wrap; no packet is that long.
- `Forwarding.EveryChainEnds`: what RIP sends in answer to a packet is not part of a chain; one packet is followed at a
  time, through each node that receives it.
- Forwarding takes packets as values; the rewrite in the packet's own buffer is `Checksum.ForwardInPlace`. The next hop,
  the outgoing interface and the source address of new packets are left open: the results hold for every choice.
- `Rip.RipState.ProcessRIPPacket`: reads the clock once for a packet; `RipDaemon` reads it at each entry, as the code does.
- RIP: starting a router while its stop is under way, requests and the fan-out of updates over interfaces, the timing of
  triggered updates, and next-hop fields other than
  zero. Metrics are not claimed to reach the shortest distance: a prefix both connected and learned is advertised twice.
- LLDP: neighbours, their expiry and the multicast address.
- `EventBuses.EveryRun`: sequence numbers are unbounded; the code counts in 64 bits.
- User interface, command line, topology files, logging, UDP transport and the texts of events.
