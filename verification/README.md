# Verified models of the OLSR evaluation harness

The harness runs OLSR networks in ns-3 with an optional attack and a trust-based
defense, listens passively to the traffic, and writes one row of features, labels
and oracle values for each measurement window. This project models its algorithms
and protocols in Dafny and proves what they are for. Beside the harness it covers
the test runner's worker pool, the load order of the ns-3 libraries and the
running mean of the scheduler benchmark.

Code that works step by step is modelled by methods with loops or by classes whose
methods update fields; each is proved against a specification function or a
mathematical definition, and the properties are proved of those. The worker pool,
where threads interleave, is a step relation.

- **Graph measures** (`Graphs`, `Adjacency`, `Distances`, `CycleCounter`,
  `Components`, `Triangles`, `PathCounts`, `Dependency`, `ClosenessLaw`, `Brandes`, `CountBounds`, `Sums`). A
  graph is a `seq<seq<nat>>` of sorted, duplicate-free, symmetric neighbour lists,
  which is what the adjacency build is proved to produce from the advertised edges.
  The cycle counter returns the number of simple k-cycles, a cycle being its set of
  undirected edges. The breadth-first passes give true hop distances. Brandes'
  back-accumulation gives, at every vertex, the sum over targets of the fraction of
  shortest paths that pass through it; shortest paths are counted as sets of vertex
  sequences.
- **Window measures** (`BusyTime`, `Sorting`, `Gini`). Busy time is the size of the
  union of the intervals; Gini is the pairwise definition.
- **The collector** (`MapSums`, `Sets`, `Edges`, `Collector`, `Airwaves`, `CollectorTraces`,
  `AirTraces`, `TraceLists`, `FeatureCollectors`). A class with all the collector's fields; its methods are
  proved to take the state from one value to the next, and every trace of
  observations after a reset keeps the redundant fields in agreement with each other
  and with the trace.
- **Packet correlation** (`PacketLedger`, `PacketTimes`, `PacketHarness`). The map from a packet's first
  transmission to its last hop, the window bracket, and the observations the trace
  callbacks hand to the collector. The callbacks are methods over the collector object;
  whatever fires, the collector is as after a trace of what was observed since its last
  reset, so that what holds of traces holds of it.
- **Random choices and routes** (`Shuffle`, `FlowPairs`, `AttackerList`, `PathWalk`).
- **The slot timeline** (`SlotTimeline`, `SlotSchedule`, `SlotHarnesses`,
  `SlotSimulation`, `Gates`, `Study`). Handlers in an event queue ordered by time and
  insertion, traffic anywhere in between, gates over the routing tables that may reject
  the run, and promotion of the staged rows; and a whole run with the harness's own table.
- **Companions** (`WorkerPool`, `LibraryOrder`, `Welford`).

Results that say when the code does *not* do what it is meant to:

- The test runner can return only if the process limit is not negative or there is
  no job: with a negative limit no worker starts and the collector waits for ever
  (`WorkerPool.ReturnsUnlessLimitNegative`).
- The choice of flows takes the first pair whatever the attacker set holds: no flow
  endpoint is an attacker exactly when nodes 0 and 1 are none
  (`FlowPairs.SelectDataFlowPairs`). Its only caller drops those two ids when it reads the
  attacker list (`scratch/olsr-trust-eval-mitigation.cc:2573`), and with the list it reads no
  endpoint of any flow is an attacker (`AttackerList.ChooseFlows`).
- `dependency_order` ends exactly when every dependency is itself a key of the map and
  none leads back to where it started; otherwise it recurses without progress
  (`LibraryOrder.Loader.DependencyOrder`, `LibraryOrder.RankableWhenAcyclic`), as it does for
  `{a: [b]}` and for `{a: [b], b: [a]}` (`LibraryOrder.DivergingMaps`).
- A window's row is written while the next slot's scenario is already applied
  (`SlotSchedule.EndFiresInNextSlot`); the row is right all the same because it is
  labelled from the slot's own scenario.
- Path counts are kept in an `int`. The counts are exact when every number formed fits
  one, and that is so exactly when every shortest-path count does
  (`Brandes.Centralities`). They fit on all graphs of n vertices exactly when n <= 60
  (`CountBounds.CountsFitUpTo60`): on 61 vertices nineteen layers of three and one of two,
  between two end vertices, already carry 2 * 3^19 shortest paths from end to end
  (`CountBounds.LayeredOverflows`).
- A draw rejects outputs until one is accepted. Draws end from every point and for every
  bound exactly when the generator never runs out of outputs in the lower half of its
  range (`Shuffle.DrawsAlwaysEnd`).

Values held in `double` are `real`; times of the timeline and of the intervals the busy
fraction is computed from are integer nanoseconds; counters are unbounded. `NUM_DATA_FLOWS` and `NUM_SLOTS` are
parameters.

## Model

| member | source | states |
|---|---|---|
| Adjacency.BuildAdjacency | scratch/olsr_window_features.h:823-851 | the lists form a valid graph, the index is a bijection from the named addresses to its vertices, and two vertices are adjacent exactly when the addresses differ and some edge joins them |
| Adjacency.IndexAddresses | scratch/olsr_window_features.h:823-836 | exactly the addresses some edge names are indexed, by 0 to N-1 without gaps |
| Adjacency.SortUnique | scratch/olsr_window_features.h:847-851 | strictly increasing, with the same members |
| CycleCounter.CountCyclesOfLength | scratch/olsr_window_features.h:1576-1622 | for every valid graph and every k the count is the number of distinct simple k-cycles, 0 below 3 |
| CycleCounter.Search.Dfs | scratch/olsr_window_features.h:1585-1603 | adds the number of rooted tours that extend the path, and restores `visited` and `path` |
| CycleCounter.Search.FromRoot | scratch/olsr_window_features.h:1604-1620 | adds the number of tours whose least vertex is the root |
| CycleCounter.RootedToursAreTwiceCycles | scratch/olsr_window_features.h:1573-1621 | the raw total is twice the number of cycles, so the halving is exact |
| CycleCounter.ReversedTour | scratch/olsr_window_features.h:1594-1595 | the reversal of a rooted tour is another rooted tour of the same edges, and reversing twice gives it back |
| CycleCounter.ToursComeInPairs | scratch/olsr_window_features.h:1621 | a set of tours closed under reversal has two tours for each edge set |
| CycleCounter.EdgesDetermineTour | scratch/olsr_window_features.h:1621 | a rooted tour with the edges of another is that tour or its reversal |
| Triangles.TrianglesAndClustering | scratch/olsr_window_features.h:862-881 | the triple count divided by 3 is the number of triangles; the clustering coefficient is the mean, over the vertices, of the share of pairs of neighbours that are adjacent, and lies in [0, 1] |
| Triangles.EdgesAmongNeighbours | scratch/olsr_window_features.h:866-877 | adjacent pairs of neighbours of v number the triangles at v, at most half of k(k-1) |
| Triangles.CountedThrice | scratch/olsr_window_features.h:880-882 | counted at each vertex every triangle is counted three times |
| Triangles.TrianglesAreThreeCycles | scratch/olsr_window_features.h:1013-1016 | the cycle counter at length 3 counts the same triangles |
| Components.ConnectedComponents | scratch/olsr_window_features.h:883-903 | labels agree exactly on mutually reachable vertices, and the labels used are exactly 1 to the component count |
| Components.Flood | scratch/olsr_window_features.h:888-902 | labels all that the new root reaches and keeps every label given before |
| Components.Eccentricity | scratch/olsr_window_features.h:908-926 | the greatest true hop distance from s to a vertex it reaches |
| Components.Extremes | scratch/olsr_window_features.h:905-935 | the diameter is the greatest eccentricity, the radius the least positive one, or 0 when none is |
| Components.RadiusAndDiameter | scratch/olsr_window_features.h:928-935 | in a connected graph with two vertices or more, 0 < radius <= diameter <= 2 * radius |
| Distances.Finished | scratch/olsr_window_features.h:916-925 | when the queue is empty, dist is the true hop distance everywhere and -1 out of reach |
| Distances.HopDistMetric | scratch/olsr_window_features.h:905-935 | hop distance is symmetric and obeys the triangle inequality |
| PathCounts.CountFromPreds | scratch/olsr_window_features.h:958-963 | the shortest walks to t through given vertices number the sum over t's predecessors |
| PathCounts.CountsAreLawful | scratch/olsr_window_features.h:946-965 | counts of shortest walks, as sizes of sets of vertex sequences, obey the laws the accumulation rests on |
| Dependency.DepRecursion | scratch/olsr_window_features.h:979-989 | the dependency on v, defined over all targets, is the sum over the vertices v precedes of sigma(v)/sigma(w) * (1 + dependency on w) |
| Dependency.DepAtSource | scratch/olsr_window_features.h:967-969 | the dependency on the source is the number of other vertices reached |
| Dependency.InnerTotal | scratch/olsr_window_features.h:979-991 | dependencies on the other vertices sum to the sum of (distance - 1) over the targets reached |
| Dependency.DepBounded | scratch/olsr_window_features.h:1091-1094 | the dependency on a vertex other than the source lies between 0 and n - 2 |
| Brandes.Forward | scratch/olsr_window_features.h:948-965 | dist is the true distance, sigma the number of shortest walks, the predecessor lists exactly the shortest-path predecessors, the stack in order of distance; all sums fit an int exactly when all the counts do |
| Brandes.Accumulate | scratch/olsr_window_features.h:979-991 | every vertex but the source gains exactly the source's dependency on it |
| Brandes.MeasureCloseness | scratch/olsr_window_features.h:970-980 | closeness times (N-1) times the sum of the true distances to the vertices reached is the square of their number; it is 0 when there are none, and 1 exactly when every other vertex is a neighbour |
| Brandes.Centralities | scratch/olsr_window_features.h:942-995 | betweenness is half the sum over sources and targets of the fraction of shortest paths through the vertex; closeness as above, of every vertex |
| Brandes.FromSource | scratch/olsr_window_features.h:945-992 | one source adds its dependency to every other vertex and sets its closeness, as above; what the accumulation leaves at the source itself is the number of vertices it reaches |
| ClosenessLaw.ClosenessCorrected | scratch/olsr_window_features.h:978-980 | the formula (reach/(N-1)) * (reach/sum) has those three properties |
| Brandes.BetweennessNormalised | scratch/olsr_window_features.h:1091-1094 | divided by (N-1)(N-2)/2, or by 1 below three vertices, betweenness lies in [0, 1] |
| CountBounds.CountsFitUpTo60 | scratch/olsr_window_features.h:943-964 | path counts fit an int on every graph of n vertices exactly when n <= 60 |
| CountBounds.LayeredOverflows | scratch/olsr_window_features.h:943-964 | for every n >= 61 a valid graph of n vertices with a path count that does not fit |
| CountBounds.CountCube | scratch/olsr_window_features.h:959-963 | the shortest paths to a vertex number, cubed, at most 3 to the number of vertices strictly between in distance |
| Brandes.BetweennessTotal | scratch/olsr_window_features.h:993-995 | total betweenness is half the sum of (distance - 1) over ordered connected pairs |
| Brandes.ClosenessUnit | scratch/olsr_window_features.h:970-977 | closeness lies in [0, 1] and the reach is the dependency on the source |
| BusyTime.ComputeBusyFraction | scratch/olsr_window_features.h:1538-1571 | the measure of the union of the intervals inside the window over its length; the final cap at 1 changes nothing |
| BusyTime.UnionLength | scratch/olsr_window_features.h:1554-1570 | merging ascending intervals yields the size of their union, with overlaps, ties and inverted intervals |
| Gini.Gini | scratch/olsr_window_features.h:82-95 | the rank formula equals the pairwise definition for every input order, and lies in [0, (n-1)/n] for nonnegative values with a positive total |
| Gini.RanksArePairs | scratch/olsr_window_features.h:86-94 | on ascending values the rank sum carries the sum of all pairwise differences |
| Gini.RanksGiveGini | scratch/olsr_window_features.h:91-94 | the formula on any ascending rearrangement is the Gini index of the original values |
| Collector.SignedDeltaNearest | scratch/olsr_window_features.h:258-270 | the 16-bit difference read as signed is the only representative in [-2^15, 2^15), per section 3.2 of RFC 1982 on the ANSN of section 9.1 of RFC 3626 |
| Collector.NoteSerialTelescopes | scratch/olsr_window_features.h:261-272 | one more message keeps: increments sum, modulo 2^16, to latest minus first sequence number over all senders |
| Collector.NoteSelectorsAgrees | scratch/olsr_window_features.h:321-331 | one more message keeps: distinct sets are those of the history, and total at most churn events plus senders |
| Collector.NoteMessageAgrees | scratch/olsr_window_features.h:247-318 | one more message keeps: one size, link count and validity time a message, one count and one octet for each link advertised, and senders counted alike in both counters |
| Collector.PhantomsAreTheRest | scratch/olsr_window_features.h:689-696 | addresses seen are the senders and, apart from them, the phantoms |
| CollectorTraces.TracesAgree | scratch/olsr_window_features.h:241-503 | after every trace: the message count is the sum over senders, over contents and of the histories; increments and gaps number messages minus senders; increments telescope modulo 2^16; skips are counted; distinct sets are bounded by churn; first-seen keys are the union of the three roles; packet sizes total the bytes, data packets among them; packets, bytes, deliveries and samples are the sums over flows; path changes go with first hops; without the PHY trace no frame is recorded |
| CollectorTraces.KindsCounted | scratch/olsr_window_features.h:249-374 | counts and bytes of each kind of message are those of the trace |
| CollectorTraces.SendersRecorded | scratch/olsr_window_features.h:249-341 | a sender's count, history, gaps, first and last sequence number and last time are those of its own messages |
| CollectorTraces.AddressTimes | scratch/olsr_window_features.h:288-296 | an address is known exactly when some observation mentions it, with the times of the first and last that do |
| CollectorTraces.EdgeTimes | scratch/olsr_window_features.h:299-307 | the same for edges and the messages that advertise them |
| CollectorTraces.LinksOfTrace | scratch/olsr_window_features.h:297-309 | for nondecreasing time, the undirected set is the canonical image of the directed one, and first-seen <= last-seen <= now |
| AirTraces.FlightTimes | scratch/olsr_window_features.h:380-386 | a flow is known exactly when some first transmission was of it, with the times of the first and last that were |
| AirTraces.FirstHopsOfTrace | scratch/olsr_window_features.h:420-432 | a source's first hops are those its deliveries came by, the all-zero MAC aside |
| AirTraces.PathChanged | scratch/olsr_window_features.h:425-430 | a source has path changes exactly when its deliveries came by different first hops |
| AirTraces.SwitchesOfTrace | scratch/olsr_window_features.h:422-432 | a source's path changes number the deliveries whose known first hop differs from the one before |
| AirTraces.FramesOfTrace | scratch/olsr_window_features.h:446-460 | with the PHY trace spacings are the times between consecutive frames, busy intervals those of the frames with a duration, retransmissions those among the data frames; without it nothing is recorded |
| AirTraces.RelaysOfTrace | scratch/olsr_window_features.h:466-478 | an originator's greatest hop count, sequence numbers and transmitters are exactly those of the copies heard |
| AirTraces.ForwarderChanged | scratch/olsr_window_features.h:485-503 | a forwarder is marked exactly when two of its frames for one destination went to different next hops |
| TraceLists.ListsOfTrace | scratch/olsr_window_features.h:241-434 | control times, packet sizes, message sizes, link counts, validity times, payload octets, latencies and hop counts are, in order, what the observations say |
| TraceLists.AmountsOfTrace | scratch/olsr_window_features.h:249-438 | bytes by sender, messages by content, times advertised, and packets, bytes and deliveries by flow are those of the observations, and so are the bytes delivered |
| TraceLists.ChangesOfTrace | scratch/olsr_window_features.h:258-331 | increments are the signed differences of each sender's consecutive sequence numbers, in the order heard; churn counts the messages whose set differs from the sender's last |
| TraceLists.JittersOfTrace | scratch/olsr_window_features.h:408-418 | a flow's jitter samples are the differences of the latencies of its consecutive deliveries |
| TraceLists.RolesOfTrace | scratch/olsr_window_features.h:286-295 | an address is in a role exactly when some observation puts it there |
| TraceLists.PairsOfTrace | scratch/olsr_window_features.h:298-503 | directed links are exactly those advertised, and pairs of forwarder and next hop exactly those of frames |
| Airwaves.ArrivedSamples | scratch/olsr_window_features.h:402-418 | one more delivery keeps: per flow one delay a delivery and one jitter sample fewer, the samples the sums over flows, hop counts in 1 to 64 |
| Airwaves.NoteFirstHopAgrees | scratch/olsr_window_features.h:420-432 | one more delivery keeps: at most one first hop more than changes, and more than one exactly when there is a change |
| FeatureCollectors.FeatureCollector.Reset | scratch/olsr_window_features.h:152-225 | every field but the availability of the PHY trace is back to its initial value |
| FeatureCollectors.FeatureCollector.NoteAnsn | scratch/olsr_window_features.h:258-272 | the fields for sequence numbers and inter-arrival times step as specified |
| FeatureCollectors.FeatureCollector.NoteMprSet | scratch/olsr_window_features.h:321-331 | the fields for advertised sets and their sizes step as specified |
| FeatureCollectors.FeatureCollector.SeeNeighbors | scratch/olsr_window_features.h:297-316 | the loop over the advertised neighbours steps addresses, advertisement counts, payload octets and edges as specified |
| FeatureCollectors.FeatureCollector.ObserveTc | scratch/olsr_window_features.h:241-344 | the whole state steps as specified for a topology message |
| FeatureCollectors.FeatureCollector.ObserveMid | scratch/olsr_window_features.h:346-353 | the whole state steps as specified |
| FeatureCollectors.FeatureCollector.ObserveHna | scratch/olsr_window_features.h:355-362 | the whole state steps as specified |
| FeatureCollectors.FeatureCollector.ObserveDataSentOnAir | scratch/olsr_window_features.h:369-387 | the whole state steps as specified for a first transmission |
| FeatureCollectors.FeatureCollector.ObserveDataDeliveredOnAir | scratch/olsr_window_features.h:389-434 | the whole state steps as specified: hop, delivery, latency, jitter, delay and first-hop records |
| FeatureCollectors.FeatureCollector.ObserveMacFrame | scratch/olsr_window_features.h:446-460 | the whole state steps as specified for a frame |
| FeatureCollectors.FeatureCollector.ObserveTcRelayOnAir | scratch/olsr_window_features.h:466-478 | the whole state steps as specified for a relayed message |
| FeatureCollectors.FeatureCollector.ObserveDataForwardOnAir | scratch/olsr_window_features.h:485-503 | the whole state steps as specified for a forwarded packet |
| FeatureCollectors.ReplayAgrees | scratch/olsr_window_features.h:152-503 | an object driven through any trace after a reset ends in the traced state, with all redundant fields in agreement |
| Edges.EdgeHalves | scratch/olsr_window_features.h:617-642 | every edge is in a half; for windows longer than 1e-6 s an edge emerged exactly when twice its first time is at least start plus end, and churned exactly when twice its last time is less; for shorter ones the point is start + 5e-7 s; together they are at most all edges |
| Edges.CanonicalJoins | scratch/olsr_window_features.h:302-303 | the canonical edge of two addresses joins them, smaller first, and is that of no other two |
| Edges.EdgesFromPairs | scratch/olsr_window_features.h:297-309 | twice the undirected edges is the directed pairs plus the one-way pairs plus the self-loops |
| Edges.CountOneWay | scratch/olsr_window_features.h:698-704 | the asymmetric count is the number of pairs without a reverse, and completes the identity above |
| PacketLedger.PacketsAreConserved | scratch/olsr-trust-eval-mitigation.cc:1254-1307 | after any callbacks: sent minus delivered is what is in flight, per flow and in bytes, while a window is open; delivered never exceeds sent; jitter samples number deliveries minus one per flow; delivery ratios lie in [0, 1] |
| PacketLedger.StepKeeps | scratch/olsr-trust-eval-mitigation.cc:1090-1120 | every single callback keeps the invariant |
| PacketLedger.FrameData | scratch/olsr-trust-eval-mitigation.cc:1008-1126 | a frame moves the data counters exactly when it ends a known packet's way, and then by one delivery with the record's flow, latency, first hop and bytes |
| PacketLedger.FramesObserved | scratch/olsr-trust-eval-mitigation.cc:973-1127 | every data or management frame shown is observed once, last, with what its header says, unless it carries a HELLO; a flow packet first as forwarded from its transmitter to its receiver |
| PacketLedger.ControlEventsJoin | scratch/olsr-trust-eval-mitigation.cc:1209-1249 | a packet's messages are observed one by one, each as what it is, HELLO not at all |
| PacketLedger.RelayEventsJoin | scratch/olsr-trust-eval-mitigation.cc:1051-1081 | topology messages in a frame are observed as relayed until a HELLO came |
| PacketTimes.LedgerFollows | scratch/olsr-trust-eval-mitigation.cc:1254-1307 | by positions in the sequence of callbacks: a packet is on the air exactly when it was transmitted in the open window and neither took its last hop nor saw a window open or close since; its record tells the first such transmission, the relay known first after it, the last one, and their number |
| PacketTimes.DeliveryMeasured | scratch/olsr-trust-eval-mitigation.cc:1095-1120 | a last hop records as latency the time since the packet's first pending transmission, never negative, and credits that transmission's bytes, one delivery of its flow, and 65 - TTL hops |
| PacketTimes.OthersCountNothing | scratch/olsr-trust-eval-mitigation.cc:1090-1307 | no other callback counts a delivery, and a packet counts as sent exactly at its first transmission |
| PacketLedger.FeaturesAreTraced | scratch/olsr-trust-eval-mitigation.cc:973-1307 | whatever callbacks fire, the collector is as after the trace of observations since its last reset, and its redundant fields agree |
| PacketHarness.Harness.constructor | scratch/olsr-trust-eval-mitigation.cc:2832-2833 | the harness starts inactive with an empty collector that knows whether there is a PHY trace |
| PacketHarness.Harness.TraceOlsrPacket | scratch/olsr-trust-eval-mitigation.cc:1209-1249 | the ledger steps as specified: each TC, MID and HNA message is observed while a window is open, HELLO never |
| PacketHarness.Harness.TraceDataPacket | scratch/olsr-trust-eval-mitigation.cc:1254-1307 | the first transmission enters the map and is observed once; later ones only update the record |
| PacketHarness.Harness.RecordRelays | scratch/olsr-trust-eval-mitigation.cc:1051-1081 | relayed topology messages are observed up to the first HELLO, which is reported |
| PacketHarness.Harness.PhyTxBegin | scratch/olsr-trust-eval-mitigation.cc:973-1127 | the ledger steps as specified for a frame: control frames and frames with a HELLO leave no frame behind, data frames are observed as forwarded, and a last-hop frame delivers a known packet once and removes it |
| PacketHarness.Harness.StartMeasurementWindow | scratch/olsr-trust-eval-mitigation.cc:1908-1929 | unless the run is rejected, map and collector are emptied and the window opens |
| PacketHarness.Harness.EndMeasurementWindow | scratch/olsr-trust-eval-mitigation.cc:1983-1992 | unless the run is rejected, the window closes and what is in flight is dropped |
| Shuffle.DeterministicDraw | scratch/olsr-trust-eval-mitigation.cc:365-376 | the residue of the first accepted raw output, below the bound; nothing is drawn for bound 0 |
| Shuffle.DrawsAlwaysEnd | scratch/olsr-trust-eval-mitigation.cc:365-376 | draws with bounds up to 2^32 end from every point exactly when outputs in the lower half of the range come again and again |
| Shuffle.SomeGeneratorAccepts | scratch/olsr-trust-eval-mitigation.cc:365-376 | there are generators for which every draw ends |
| Shuffle.DrawIsUnbiased | scratch/olsr-trust-eval-mitigation.cc:370-375 | for every bound up to 2^32, of the 2^32 outputs exactly 2^32 / bound yield each number, and more than half yield one |
| Shuffle.DeterministicShuffle | scratch/olsr-trust-eval-mitigation.cc:345-358 | the array in place ends as the shuffle by the choices its draws came to |
| Shuffle.ShuffledIsPermutation | scratch/olsr-trust-eval-mitigation.cc:345-358 | the shuffle only rearranges |
| Shuffle.LastPlaced | scratch/olsr-trust-eval-mitigation.cc:351-357 | the last element is the one at the last choice, and the element it displaced is shuffled with the rest |
| Shuffle.EveryPermutationReached | scratch/olsr-trust-eval-mitigation.cc:451-456 | every permutation comes from some choices |
| Shuffle.EveryShuffleDrawn | scratch/olsr-trust-eval-mitigation.cc:345-376 | every permutation of up to 2^32 elements is what the draws from some generator come to |
| Shuffle.ChoicesReadBack | scratch/olsr-trust-eval-mitigation.cc:451-456 | on distinct elements the choices can be read back from the result, so no two give the same |
| FlowPairs.SelectDataFlowPairs | scratch/olsr-trust-eval-mitigation.cc:412-508 | aborts exactly when candidates are too few; otherwise exactly the wanted flows, 1 to 0 first, endpoints pairwise distinct; the candidates are those listed in ascending order and shuffled by the draws, and each further flow is the first unused pair in that order beyond the bound, or the first of the farthest when none is; attackers are avoided exactly when nodes 0 and 1 are none |
| AttackerList.ParseAttackers | scratch/olsr-trust-eval-mitigation.cc:2562-2584 | the list's numbers, cut to 32 bits, that name a node other than 0 and 1; empty, malformed and other pieces are ignored |
| AttackerList.ChooseFlows | scratch/olsr-trust-eval-mitigation.cc:2562-2713 | with the attackers the harness reads, no endpoint of any flow is an attacker |
| FlowPairs.FarPairsNeedHops | scratch/olsr-trust-eval-mitigation.cc:391-398 | any route of radio hops between nodes beyond (minHops-1)*radioRange has at least minHops hops |
| FlowPairs.BoundIsTight | scratch/olsr-trust-eval-mitigation.cc:433-434 | nodes exactly as far apart as the bound can be joined by a route of one hop fewer |
| FlowPairs.TriangleInequality | scratch/olsr-trust-eval-mitigation.cc:426-431 | the distances of points in space obey the triangle inequality |
| PathWalk.WalkOlsrPath | scratch/olsr-trust-eval-mitigation.cc:864-898 | non-empty exactly when next hops lead from source to destination through known addresses, and then it is that route's nodes, without repeats; the hop bound cuts nothing off |
| PathWalk.RouteIsLoopFree | scratch/olsr-trust-eval-mitigation.cc:872-873 | a route that follows next hops never meets an address twice |
| PathWalk.RoutesAgree | scratch/olsr-trust-eval-mitigation.cc:880-895 | there is at most one such route |
| SlotTimeline.RunAgrees | scratch/olsr-trust-eval-mitigation.cc:1708-1809 | after any events of a run not rejected, attack and defense are those of the last slot entered, every node's attributes mirror them, and each defense holds only what it was given since that transition |
| SlotTimeline.DefenseForgets | scratch/olsr-trust-eval-mitigation.cc:1854-1870 | two runs whose last slots agree on the defense and that gave a node the same since leave that node's defense the same, whatever came before |
| SlotTimeline.SlotTimes | scratch/olsr-trust-eval-mitigation.cc:305-311 | transitions at 60 + 100k s, windows from 120 + 100k s to 160 + 100k s |
| SlotSchedule.WindowsMatchLabels | scratch/olsr-trust-eval-mitigation.cc:305-311 | at every instant of [window start, window end), between same-time events too, attack, defense and every node are as the window's row will say |
| SlotSchedule.EndFiresInNextSlot | scratch/olsr-trust-eval-mitigation.cc:2803-2818 | a window's end fires after the next slot's transition |
| SlotSchedule.GatesSeeNeutral | scratch/olsr-trust-eval-mitigation.cc:2794-2801 | the acceptance gates fire with attack and defense off |
| SlotSchedule.AcceptedStagesAll | scratch/olsr-trust-eval-mitigation.cc:2053-2075 | an accepted run stages one row a slot, in slot order, in each table |
| SlotSchedule.RowsSoFar | scratch/olsr-trust-eval-mitigation.cc:1977-2075 | until rejected, one row a table for each window ended; a rejected run has staged none |
| SlotHarnesses.LabelsForScenario | scratch/olsr-trust-eval-mitigation.cc:1937-1946 | the labels of the first scenario of that name, zeros when there is none |
| SlotHarnesses.SlotHarness.constructor | scratch/olsr-trust-eval-mitigation.cc:2681-2700 | a harness starts with attack and defense off and every defense empty, as the gates and the first transition need it |
| SlotHarnesses.SlotHarness.SetAttackState | scratch/olsr-trust-eval-mitigation.cc:1708-1724 | exactly the OLSR nodes listed as attackers get the attack attributes |
| SlotHarnesses.SlotHarness.SetDefenseState | scratch/olsr-trust-eval-mitigation.cc:1742-1764 | exactly the defended nodes get the switched attributes |
| SlotHarnesses.SlotHarness.ForceDefenseColdStart | scratch/olsr-trust-eval-mitigation.cc:1854-1870 | every defense is emptied and set up from its attributes |
| SlotHarnesses.SlotHarness.ApplyScenarioState | scratch/olsr-trust-eval-mitigation.cc:1777-1809 | the world steps as specified for a transition |
| SlotHarnesses.SlotHarness.EndMeasurementWindow | scratch/olsr-trust-eval-mitigation.cc:1978-2075 | the world steps as specified: one row a table, labelled by the slot's own scenario |
| SlotHarnesses.SlotHarness.PromoteStagedRows | scratch/olsr-trust-eval-mitigation.cc:2162-2223 | appends the staged rows to the files unless the run was rejected |
| SlotSimulation.ScheduleHandlers | scratch/olsr-trust-eval-mitigation.cc:2794-2818 | gates, transitions and brackets are inserted in that order |
| SlotSimulation.RunEvents | scratch/olsr-trust-eval-mitigation.cc:2781-2788 | events fire in order of time and insertion until none is left or the run is rejected |
| SlotSimulation.Simulate | scratch/olsr-trust-eval-mitigation.cc:2855-2873 | a run is rejected exactly when an acceptance gate fails and then leaves every file alone; otherwise every file gains one row a slot |
| Gates.AssertConnectivity | scratch/olsr-trust-eval-mitigation.cc:1312-1345 | passes exactly when every node runs OLSR and has routes to as many addresses as there are other nodes; otherwise rejects for the first that fails, with its reason |
| Gates.ConnectedMeansAll | scratch/olsr-trust-eval-mitigation.cc:1330-1333 | when a table lists only other nodes' addresses, the count passes exactly when it lists them all |
| Gates.AssertMinHops | scratch/olsr-trust-eval-mitigation.cc:1348-1411 | passes exactly when there are fewer than two nodes or, for every flow, the source runs OLSR and the first entry for the destination's address has a distance of minHops or more; otherwise rejects for the first flow that fails, with its reason |
| Gates.EntryIsFollowed | scratch/olsr-trust-eval-mitigation.cc:1381-1389 | the first entry for a destination, which the gate goes by, is the one a walk of the routes follows |
| Study.WindowOrder | scratch/olsr-trust-eval-mitigation.cc:2514-2516 | the four windows in the listed order, or as the draws shuffle them |
| Study.RunStudy | scratch/olsr-trust-eval-mitigation.cc:2781-2873 | a run with the harness's own table is accepted exactly when every node has routes to as many addresses as there are other nodes and every flow one of minHops or more; then every file gains one row for each combination of attack and defense, with its name and labels, in the order of the windows and with their times, and otherwise none changes |
| WorkerPool.StepInv | test.py:1087-1171 | every step of every interleaving keeps: each job is in one place, tokens queued and to come match the live workers, the tally is that of the jobs collected |
| WorkerPool.RunInv | test.py:1087-1171 | so does every run |
| WorkerPool.RunsAreFinite | test.py:1623-1626 | no run goes on for ever |
| WorkerPool.NeverStuck | test.py:1936-1966 | with a worker, or without a job, some step other than an interrupt can always be taken until the runner returns |
| WorkerPool.RunsComplete | test.py:2128-2129 | so any run can be extended until the runner returns |
| WorkerPool.RunnerReturns | test.py:1956-2000 | when it returns, every job has come back exactly once with a verdict it earned, every worker has exited, passed, failed, crashed and valgrind count the runs by their codes, the counts total the jobs, and the exit code is 0 exactly when every job passed or was skipped |
| WorkerPool.VerdictsJustified | test.py:1104-1156 | in every run: a job collected as skipped was marked so; one with a code was not, and a worker that held it ran it to that code; one is interrupted only after an interrupt; without one a job is skipped exactly when marked |
| WorkerPool.StepExplained | test.py:1104-1171 | every step keeps every verdict on its way so justified |
| WorkerPool.UninterruptedReturns | test.py:1956-2000 | without an interrupt the skipped are the marked jobs, every other job is run, and the exit code is 0 exactly when no run ended with another code |
| WorkerPool.Threads | test.py:1597-1626 | all processors without a limit, the smaller of the two with a positive one, no thread with a negative one |
| WorkerPool.ReturnsUnlessLimitNegative | test.py:1597-1626 | the runner can return exactly when the process limit is not negative or there is no job |
| WorkerPool.CollectResults | test.py:1956-2000 | the loop's counters are the tally, and the code is 0 exactly when every job passed or was skipped |
| LibraryOrder.ModulesThatCanBeLoaded | bindings/python/ns__init__.py:444-455 | the pending modules all of whose dependencies are loaded, in order |
| LibraryOrder.RankableWhenAcyclic | bindings/python/ns__init__.py:457-474 | libraries can be ranked above their dependencies exactly when every dependency is a key and there is no cycle |
| LibraryOrder.DivergingMaps | bindings/python/ns__init__.py:457-474 | a dependency that is not a key, and a cycle of two, for which there is no order |
| LibraryOrder.Loader.DependencyOrder | bindings/python/ns__init__.py:457-474 | ends exactly when the dependencies are closed and acyclic, with dependencies in earlier steps and nothing later than needed |
| LibraryOrder.Loader.LoadStep | bindings/python/ns__init__.py:464-471 | the modules that can be loaded move, one by one, from pending to loaded and to the new step |
| LibraryOrder.SortToDependencies | bindings/python/ns__init__.py:433-482 | every library exactly once, at the step equal to its longest dependency chain |
| Welford.Log | utils/bench-scheduler.cc:319-356 | with two results or more each average is the exact mean, each second moment the exact sum of squared deviations from it, and n the number of results |
| Welford.UpdateKeeps | utils/bench-scheduler.cc:341-345 | one update keeps mean and second moment exact |

## Left out

- Rounding of `double`, and features built on square roots, logarithms or iteration (standard deviation, skewness, entropies, Hurst exponent, spectral radius): nothing exact to state.
- Wrap-around of 64-bit counters: unbounded naturals.
- Centralities: does not model what a wrapped `int` path count would lead to; the result is that of exact counts, and the ghost out-parameter `fits` says when the source's counts are exact.
- Extremes: assumes at most 2^31 - 1 vertices, so that distances fit the `int` the source holds them in.
- ComputeBusyFraction: integer nanoseconds instead of real seconds, so that the measure of a union is the size of a set.
- SelectDataFlowPairs: distances are any numbers whose squares are the squared Euclidean distances; the square root itself is not computed.
- DeterministicDraw: like the shuffle and the pair selection built on it, is stated for generators whose draws end, which `Shuffle.DrawsAlwaysEnd` characterises; the generator itself is any sequence of outputs.
- SortUnique: `std::sort` is any stable or unstable sort, modelled by insertion; `std::binary_search` on the sorted lists is membership.
- DependencyOrder: Python's recursion limit, which ends the recursion without progress by an error and would also end a very long chain of steps.
- SortToDependencies: finding the libraries and what they link to.
- FeatureCollectors.FeatureCollector.ObserveTc: a set of advertised addresses stands for its canonical key, and the multiset of them for the sorted content key; the half point it computes and discards is not modelled.
- FeatureCollectors.FeatureCollector.ObserveDataDeliveredOnAir: the delivery time, which the source is passed and ignores.
- PacketHarness.Harness.PhyTxBegin: a frame is given by its parsed headers and the OLSR messages that parse; the byte-wise bounds on parsing are not modelled.
- PacketHarness.Harness.TraceOlsrPacket: likewise, and the counters kept for the oracle alone.
- PacketHarness.Harness.StartMeasurementWindow: the oracle's counters and the flow monitor.
- PacketHarness.Harness.EndMeasurementWindow: the rows, which `SlotHarnesses.SlotHarness.EndMeasurementWindow` builds.
- SlotHarnesses.SlotHarness.EndMeasurementWindow: a row holds window, scenario and labels, not the feature and oracle values beside them.
- Simulate: the instant the simulator is stopped (2 s after the last window), topology probes, traffic generation, and the values in a row other than window, scenario and labels; it takes the two gate outcomes as they come, which `Study.RunStudy` computes from the routing tables.
- Simulate: a defense is represented by the attributes its last setup read and what it was given since, whatever it computes from them.
- PromoteStagedRows: file locking, headers and row formatting.
- RunEvents: the simulator's own queue beyond order of time and insertion.
- WorkerPool: running a job is an arbitrary return code; reports, elapsed times and the signal handler beyond setting its flag.
- Log: the standard deviations and the table.
