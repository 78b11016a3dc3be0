# Verification of purenet

A Dafny model of the stateful parts of purenet, and proofs about it:

- **IPAM** (`pkg/ipam`): the allocator with its two maps, its printed reverse index and its state
  file, under every file-system failure and with process crashes between any two file operations.
- **Node sync** (`pkg/nodesync`, `pkg/network/vxlan.go`): the VXLAN and the host-gateway controllers
  as event handlers over kernel tables, under any legal sequence of node events.
- **Agent** (`pkg/agent`): the per-container lock and the ADD, DEL and CHECK handlers, under every
  interleaving, with any step failing and the agent crashing at any point.

`dafny verify dfyconfig.toml` checks everything.

## How it is laid out

| file | content |
|---|---|
| `Arith`, `IPv4`, `Subnets` | powers of two, addresses, printing and parsing, prefixes, the scanned range |
| `SimpleAllocator` | the reference allocator: one map, searched by value |
| `AllocatorCore` | maps and files as values, every failure, refinement of the reference, round trips |
| `ChangedSubnet` | which tables and files runs reach, and what another pod CIDR restores from them |
| `CrashRuns` | the same operations cut into file-system steps, with crashes and boots |
| `IpamAllocator` | the allocator and its state file as objects, proved against `AllocatorCore` |
| `Cluster` | node objects, the informer's event order, pod CIDR strings |
| `Vxlan`, `Kernel` | peers as entries of three tables, the tunnel lookup; the tables as an object |
| `VxlanSync`, `Forwarding` | the VXLAN handlers, their invariants, where packets go |
| `Restart` | the VXLAN controller on tables left by earlier processes |
| `VxlanNodeSync` | the VXLAN controller as an object, proved against `VxlanSync` |
| `HostGateway` | the host-gateway handlers, their agreement with the kernel, the controller object |
| `Arbiter` | mutex, condition variable and busy set as a step system |
| `GatewayRestart` | the host-gateway controller on routes left by earlier processes |
| `Agent`, `Server` | handlers interleaved under the arbitrator; the handlers as methods of an object |
| `SoloRuns` | requests answered one after the other, and a run that ends in a refused ADD |

What a library or the operating system decides is an input: each method takes a record saying which
of its calls fail, so its contract fixes the outcome for every combination. State-changing methods
are proved equal to a function of the old state, and the claims are lemmas about that function.

## What the proofs say about the source

Some statements one would expect are false. Each has its exact condition, and an input or a run
that shows it failing.

- `firstHostIP` is "network address + 1" exactly when the last byte of the base is not 255, so always
  up to /31 but not for every /32 (`Subnets.FirstHostIsNext`; fails in `Subnets.FirstHostWraps`).
- After a change of pod CIDR a restored container can hold an address the new CIDR reserves. It cannot,
  whatever run came before, exactly when no such address was usable in the old CIDR
  (`ChangedSubnet.RangeSurvivesChange`; fails in `ChangedSubnet.ShrinkKeepsBroadcast`).
- The comment on `DelVXLANPeer` says missing entries count as success. The code recognises only the
  text "no such process", which a missing neighbour or FDB entry does not give, so the deletion
  stops there with an error (`Vxlan.DelSucceedsIff`, which also shows that deleting any programmed
  peer twice fails). The model follows the code.
- A restart repairs every live peer's three entries, but longer leftover routes can still divert
  packets. They do not exactly when each one inside the peer's CIDR already led to the same node
  (`Restart.ReplayForwards`, and `Restart.RestartForwards` for runs that also delete; fails in
  `Restart.LongerLeftoverDiverts`).
- `addRoute` of the host-gateway backend takes any existing route for success, so a failed deletion
  breaks agreement with the kernel unless it is forgiven: the node was not recorded, or the new
  strings are installed at once and mean the same route (`HostGateway.FailedDeleteBreaksAgreement`;
  fails in `HostGateway.FailedDeleteLeavesOldGateway`). For the same reason a restart without any
  failing call can keep a wrong gateway: a live node's route is right exactly when no earlier process
  left a route for its CIDR with another gateway, or the run deleted it
  (`GatewayRestart.RestartGateway`, `GatewayRestart.ReplayGateway`; fails in
  `GatewayRestart.IPChangeWhileDown`).
- A successful DEL always releases the address, but its /32 route stays exactly when DEL was given no
  namespace or failed to open an existing one (a namespace that is gone took the route with it). A
  lingering route makes the next ADD that is granted the address fail (`Agent.RouteLingersIff`,
  `Agent.AddSucceedsIff`; fails in `SoloRuns.LingeringRouteBlocks`, a run without any failing call).

## Assumptions

- Node events come in informer order, and the live remote nodes whose pod CIDR and IP parse have
  pairwise disjoint pod CIDRs after every event. A deletion may carry any stale object.
- The kernel works as its interface says: exclusive route addition, upserts for permanent neighbours
  and FDB entries, deletion of an FDB entry or a gateway route only if it matches, unique link names,
  removal of a veth's peer and routes with it. A namespace exists while a handler has it open.
- A process crash loses memory and keeps files; a rename is atomic.

## Model

| member | source | states |
|---|---|---|
| IPv4.ConversionsInverse | pkg/ipam/ipam.go:233-239 | the four-byte and the uint32 form convert into each other without loss on all 2^32 values |
| IPv4.OrderIsByteOrder | pkg/ipam/ipam.go:233-239 | numbers are ordered like the bytes read from left to right, which with the inverse fixes the conversion |
| IPv4.PrintThenParse | pkg/ipam/ipam.go:206 | parsing the printed form of any address gives it back (IPv4address, section 3.2.2 of RFC 3986) |
| IPv4.ParseThenPrint | pkg/ipam/ipam.go:206-212 | the printed form is the only string that parses to an address, so file keys and index keys agree |
| IPv4.PrintInjective | pkg/ipam/ipam.go:30-31 | two addresses never share an index key |
| IPv4.PrintedFields | pkg/ipam/ipam.go:82 | the printed form is four fields between dots, the decimal value of each byte from left to right without leading zeros |
| Subnets.SubnetFits | pkg/ipam/ipam.go:145-147 | an aligned block never runs past the 32-bit address space |
| Subnets.DisjointBases | pkg/network/vxlan.go:26-27 | disjoint prefixes have distinct network addresses |
| Subnets.FirstHostIsNext | pkg/ipam/ipam.go:224-231 | the one-byte increment gives base+1 if and only if the last byte is not 255, in particular for every length up to /31 |
| Subnets.FirstHostWraps | pkg/ipam/ipam.go:224-231 | some /32 gets a gateway that is not base+1 |
| Subnets.ScanNeverWraps | pkg/ipam/ipam.go:135-154 | no scanned offset wraps in uint32, and its address lies in the subnet and is not the network, gateway or broadcast address |
| Subnets.UsableIsScanned | pkg/ipam/ipam.go:135-154 | every address that is none of the three reserved ones is reached by the scan |
| Subnets.UsableIsInterval | pkg/ipam/ipam.go:135-154 | the usable addresses are exactly base+2 up to the last but one of the block |
| Subnets.CIDRParsesExactly | pkg/ipam/ipam.go:37 | a string parses to a subnet if and only if it is an address of that subnet, a slash and its length in decimal |
| SimpleAllocator.FirstFreeIsLowest | pkg/ipam/ipam.go:149-155 | the scan returns the lowest free address, and nothing exactly when every scanned one is taken |
| SimpleAllocator.OperationsKeepTable | pkg/ipam/ipam.go:67-120 | no operation, durable or not, gives two containers one address or anyone a reserved one |
| SimpleAllocator.AddAnswers | pkg/ipam/ipam.go:67-95 | a retry gets the same address whatever the disk does; a new container is refused exactly if nothing usable is free or else the disk fails, and then nothing changes; otherwise it gets the lowest usable address; the gateway in a reply is base+1 up to /31 |
| SimpleAllocator.DelMeansAbsent | pkg/ipam/ipam.go:99-120 | a release succeeds if and only if the container holds nothing afterwards, fails only for a held address on a failing disk, and touches nobody else |
| SimpleAllocator.DelUndoesAdd | pkg/ipam/ipam.go:99-120 | releasing restores the table, and the next container gets the same address |
| SimpleAllocator.ExhaustedExactly | pkg/ipam/ipam.go:149-155 | up to /30 at most 2^(32-n)-3 containers hold addresses, and a new one is refused as exhausted if and only if exactly that many do |
| SimpleAllocator.TinySubnetsRefuse | pkg/ipam/ipam.go:145-155 | a /31 or /32 refuses every new container and changes nothing |
| AllocatorCore.IndexFindsHolders | pkg/ipam/ipam.go:30-31 | the printed index contains an address if and only if some container holds it |
| AllocatorCore.InverseUnique | pkg/ipam/ipam.go:165-168 | either map determines the other, so the order in which a map is walked does not matter |
| AllocatorCore.InvertedIsInverse | pkg/ipam/ipam.go:205-213 | loading gives inverse maps if and only if no container owns two kept entries |
| AllocatorCore.LoadedIsValid | pkg/ipam/ipam.go:190-216 | loading a readable file with one address per container gives consistent maps inside the subnet that equal the file |
| AllocatorCore.ScanFindsFree | pkg/ipam/ipam.go:139-156 | scanning for a printed address that is not a key of the index finds exactly the lowest free address of the table |
| AllocatorCore.LoadsKept | pkg/ipam/ipam.go:190-216 | a file that is the index of a consistent allocator loads, on any subnet, to the part of its table inside that subnet |
| AllocatorCore.PersistThenLoad | pkg/ipam/ipam.go:162-216 | persist then load is the identity on one CIDR and exactly the restriction to the new subnet after a change of CIDR |
| AllocatorCore.AddRefines | pkg/ipam/ipam.go:67-95 | searching the printed index and, when the disk fails, undoing the insertion in both maps, Add answers and changes the table like the reference allocator, keeps the maps inverse and keeps memory equal to what the file loads to |
| AllocatorCore.DelRefines | pkg/ipam/ipam.go:99-120 | the same for Del, whose rollback re-inserts in both maps and leaves memory as it was |
| AllocatorCore.RunRefines | pkg/ipam/ipam.go:67-216 | any run of Add, Del, Check and restart, with any file failures, gives the answers of a single map for which a restart does nothing |
| AllocatorCore.RetryIsStable | pkg/ipam/ipam.go:65-75 | once granted, every later ADD gets the same address and gateway and every CHECK reports it, through failures, other operations and restarts, until a release is asked for; a retry changes nothing |
| AllocatorCore.ReleaseIsIdempotent | pkg/ipam/ipam.go:97-106 | once released, every further release succeeds and changes nothing, through failures, other operations and restarts, until the container asks again |
| AllocatorCore.RunKeepsRange | pkg/ipam/ipam.go:135-156 | on one CIDR no run ever shares an address or hands out a reserved one |
| ChangedSubnet.EveryTableReached | pkg/ipam/ipam.go:67-120 | every table with distinct usable addresses is what some run of grants and releases on an empty allocator ends with |
| ChangedSubnet.RestoredAfter | pkg/ipam/ipam.go:187-213 | after any run on one CIDR, with any failures and restarts, a start on another CIDR restores exactly the part of the table inside it |
| ChangedSubnet.RangeSurvivesChange | pkg/ipam/ipam.go:187-213 | after a change of CIDR the state file of every run loads without a reserved address if and only if no address the new CIDR reserves was usable in the old one |
| ChangedSubnet.ShrinkKeepsBroadcast | pkg/ipam/ipam.go:187-213 | a run on 10.0.0.0/24 after which a start on 10.0.0.0/25 restores a container with the broadcast address |
| CrashRuns.MoveKeepsInv | pkg/ipam/ipam.go:82-90 | every file-system step, rollback, crash and boot keeps: the state file loads to what was acknowledged, or to that plus the operation in flight once renamed |
| CrashRuns.RenameIsTheCommit | pkg/ipam/ipam.go:175-184 | what the state file loads to changes only at the rename, and there by exactly the operation in flight |
| CrashRuns.CrashConsistency | pkg/ipam/ipam.go:67-216 | over any run with failures and crashes, from any first file with one address per container: with the mutex free, memory, file and acknowledgements agree and no address is shared; nobody holds a reserved address except those who had it in the first file; a crash and boot at any point gives the table after the operation in flight if the rename was done and before it otherwise |
| CrashRuns.GrantedSurvives | pkg/ipam/ipam.go:5-6 | an address granted and not asked back since is still there after any continuation, through any number of failures, crashes and boots |
| CrashRuns.CallsAreRuns | pkg/ipam/ipam.go:67-120 | the outcome of Add and Del under given failures is where the machine's steps lead, so the crash claims cover every intermediate state of the methods |
| IpamAllocator.Allocator.New | pkg/ipam/ipam.go:36-57 | which error is returned exactly when; a created allocator holds exactly the accepted entries, and is consistent if and only if no container has two |
| IpamAllocator.Allocator.Add | pkg/ipam/ipam.go:67-95 | for every failure: a container with an address gets it again and nothing changes; another gets the lowest usable free one, in memory and on disk, or is refused exactly if there is none or the disk fails, and nothing changes in memory; the gateway is base+1 up to /31 |
| IpamAllocator.Allocator.Del | pkg/ipam/ipam.go:99-120 | for every failure: success if and only if the container holds nothing afterwards; a container without an address succeeds and changes nothing; a failure changes no allocation |
| IpamAllocator.Allocator.Check | pkg/ipam/ipam.go:124-133 | answers with the held address, or nothing |
| IpamAllocator.Allocator.NextFreeIP | pkg/ipam/ipam.go:139-156 | the loop over printed keys finds what a search of the held addresses finds |
| IpamAllocator.Allocator.Encode | pkg/ipam/ipam.go:162-168 | whatever order allocs is walked in, the encoded map is the reverse index |
| IpamAllocator.Allocator.Persist | pkg/ipam/ipam.go:162-185 | both file slots and the result after every combination of failures |
| IpamAllocator.Allocator.Load | pkg/ipam/ipam.go:190-216 | which error exactly when; used is the accepted part of the file, and the maps are inverse if and only if no container has two entries |
| IpamAllocator.Allocator.Restore | pkg/ipam/ipam.go:205-213 | whatever order the file's entries are walked in, used ends as the accepted part and every held address comes from an entry of its container |
| Cluster.PrintThenParseCIDR | pkg/nodesync/vxlan.go:219 | every subnet's printed form parses back to it |
| Cluster.EmptyDoesNotParse | pkg/nodesync/vxlan.go:144-148 | the nodes skipped for an empty CIDR or IP are among those that would not parse |
| Cluster.FindInternalIP | pkg/nodesync/nodesync.go:67-74 | the loop returns the first address of type InternalIP, passing over external addresses and host names, and the empty string exactly if there is none |
| Vxlan.VtepsDistinct | pkg/network/vxlan.go:21-36 | distinct network addresses give distinct VTEP addresses and MACs |
| Vxlan.VtepSpellsBase | pkg/network/vxlan.go:21-36 | a VTEP address is the network address of its CIDR, and its MAC is locally administered and unicast and spells that address |
| Vxlan.PeersAreSeparate | pkg/network/vxlan.go:98-182 | adding or deleting a peer, however it fails, leaves every peer with a disjoint CIDR programmed |
| Vxlan.StaysDerived | pkg/network/vxlan.go:107-130 | both operations keep every route's gateway a function of its prefix and every neighbour's MAC a function of its address |
| Vxlan.AddPrograms | pkg/network/vxlan.go:85-143 | an addition that reports success leaves all three entries leading to the node, whatever was there before |
| Vxlan.DelRemoves | pkg/network/vxlan.go:145-182 | deleting a programmed peer without failures removes exactly its three entries |
| Vxlan.DelUndoesAdd | pkg/network/vxlan.go:98-182 | deletion undoes addition |
| Vxlan.DelSucceedsIff | pkg/network/vxlan.go:145-185 | deletion succeeds exactly when the neighbour and this node's FDB entry are there, so deleting twice fails |
| Vxlan.BestRouteIsLongest | pkg/network/vxlan.go:88-90 | the modelled route lookup returns the longest prefix that holds the address, and none only if none does |
| Kernel.AddVXLANPeer | pkg/network/vxlan.go:98-143 | each table and the result after every combination of failing calls: entries made before a failure stay, later ones are not made |
| Kernel.DelVXLANPeer | pkg/network/vxlan.go:147-182 | each table and the result after every combination of failing calls and missing entries |
| VxlanSync.HandleSound | pkg/nodesync/vxlan.go:138-214 | one event with any failures keeps every recorded peer a live node with its three entries in place |
| VxlanSync.RunSound | pkg/nodesync/vxlan.go:138-214 | the same over any legal run, from any sound state |
| VxlanSync.RecordedPeersForward | pkg/nodesync/vxlan.go:150-192 | a new process on any derived tables, any legal run, any kernel failures: every recorded peer is a live node with its current strings and its three entries lead to it |
| VxlanSync.EventInstalls | pkg/nodesync/vxlan.go:150-192 | from any derived state an addition or change of strings that meets no failure in adding ends with the node recorded and programmed, also when the deletion before it failed |
| VxlanSync.RecordedExactly | pkg/nodesync/vxlan.go:138-214 | after any legal run with any failures, a live remote node that parses is recorded if and only if its latest addition or change of strings met no failing call while adding, and then with its current strings and programmed |
| VxlanSync.RunMirrors | pkg/nodesync/vxlan.go:138-214 | runs whose additions work, deletions failing at will, record exactly the live remote nodes that parse; without failures they leave nothing else if nothing else was there |
| VxlanSync.ExactAgreement | pkg/nodesync/vxlan.go:138-240 | after any legal failure-free run from empty tables peers is the projection of the live remote nodes, the tables hold their entries and no others, and the next event's addition meets no existing entry and its deletion finds all three and succeeds |
| VxlanSync.TombstonesDoNotMatter | pkg/nodesync/vxlan.go:107-121 | runs that differ only in the stale objects their deletions carry end in the same state, whatever fails |
| Forwarding.ForwardingCorrect | pkg/nodesync/vxlan.go:20-32 | after any legal failure-free run the lookup route, ARP, FDB takes every address of a live remote CIDR to exactly that node, and an address of none matches no route (section 4.1 of RFC 7348) |
| Restart.AnyRunKeepsDerived | pkg/network/vxlan.go:104-130 | no events and failures ever leave a route whose gateway is not its prefix's address, or a neighbour whose MAC is not derived from its address |
| Restart.RestartHeals | pkg/nodesync/vxlan.go:92-160 | on tables left by any series of earlier processes, a run whose additions work makes every live peer's three entries correct, although deletions may fail |
| Restart.ForwardingAfterHealing | pkg/nodesync/vxlan.go:92-160 | on any derived tables a programmed peer gets all packets for its CIDR if and only if each longer route whose base lies in that CIDR resolves to the same node |
| Restart.RestartForwards | pkg/nodesync/vxlan.go:92-214 | after any failure-free legal run on tables left by earlier processes, a live node gets all packets for its CIDR if and only if each longer leftover route inside it, but for those with its own base, is withdrawn by the run, or led to the node before and has a base the run does not touch |
| Restart.ReplayForwards | pkg/nodesync/vxlan.go:92-160 | for a replay of additions the condition is on the leftover tables alone: each such route led to the node already |
| Restart.OneMaskSizeHeals | pkg/nodesync/vxlan.go:92-160 | with one mask size a restart restores forwarding completely |
| Restart.LongerLeftoverDiverts | pkg/nodesync/vxlan.go:92-160 | a concrete pair of runs after which a live node's address is sent to a node that left |
| VxlanNodeSync.VxlanController.OnNodeAdd | pkg/nodesync/vxlan.go:138-160 | the peers map and tables after an addition, for every failure; without one a remote node that parses is recorded and programmed; the node itself or one that does not parse changes nothing |
| VxlanNodeSync.VxlanController.OnNodeUpdate | pkg/nodesync/vxlan.go:162-193 | the peers map and tables after an update, for every failure; changed strings are installed even if the old ones could not be deleted; unchanged strings change nothing |
| VxlanNodeSync.VxlanController.OnNodeDelete | pkg/nodesync/vxlan.go:195-214 | the peers map and tables after a deletion, for every failure; the record goes even if the kernel refuses; an unrecorded node changes nothing |
| VxlanNodeSync.VxlanController.HandleEvent | pkg/nodesync/vxlan.go:94-121 | handling a delivered event on the object keeps every recorded peer programmed |
| HostGateway.HandleAgrees | pkg/nodesync/hostgw.go:112-188 | one event with a working deletion keeps recorded routes and kernel in agreement |
| HostGateway.RecordedExactly | pkg/nodesync/hostgw.go:112-188 | after any legal run with any failures, a live remote node that parses is recorded if and only if its latest addition or change of strings met no failing call while adding, and then with its current route; if additions work that is every such node |
| HostGateway.GatewayAgreement | pkg/nodesync/hostgw.go:112-226 | with working deletions every recorded node has a kernel route with exactly its gateway and the kernel holds no other node route; if additions work too, every live remote node that parses is recorded |
| HostGateway.AddRouteTrustsExisting | pkg/nodesync/hostgw.go:192-208 | a successful addition leaves the right gateway if and only if there was no route or one with that gateway |
| HostGateway.FailedDeleteBreaksAgreement | pkg/nodesync/hostgw.go:112-188 | any event whose deletion fails keeps agreement if and only if the node was not recorded, or nothing was to delete, or the new route is installed at once and parses to the old one; a failed deletion of a recorded node that leaves never does |
| HostGateway.FailedDeleteLeavesOldGateway | pkg/nodesync/hostgw.go:150-166 | from empty routes, a node added and then moved to another IP while the deletion fails is recorded with the new gateway and routed to the old one |
| GatewayRestart.RestartGateway | pkg/nodesync/hostgw.go:112-226 | on any routes earlier processes left, after a legal run in which no call fails, every live remote node that parses is recorded and routed, with its own gateway if and only if there was no route for its CIDR, or one with this gateway, or one the run deleted |
| GatewayRestart.ReplayGateway | pkg/nodesync/hostgw.go:112-134 | for a replay of additions the condition is on the leftover routes alone |
| GatewayRestart.IPChangeWhileDown | pkg/nodesync/hostgw.go:192-208 | two runs in which no call fails, after which a node whose IP changed while the agent was down is still routed to its old IP |
| HostGateway.HostGatewayController.OnNodeAdd | pkg/nodesync/hostgw.go:112-134 | routes and kernel after an addition, for every failure |
| HostGateway.HostGatewayController.OnNodeUpdate | pkg/nodesync/hostgw.go:136-167 | routes and kernel after an update, for every failure; changed strings are recorded unless adding fails, even if the old route could not be deleted; unchanged strings change nothing |
| HostGateway.HostGatewayController.OnNodeDelete | pkg/nodesync/hostgw.go:169-188 | routes and kernel after a deletion, for every failure |
| HostGateway.HostGatewayController.HandleEvent | pkg/nodesync/hostgw.go:51-76 | handling a delivered event on the object keeps agreement if its deletion works |
| Arbiter.StepKeepsInv | pkg/agent/server.go:57-71 | every step keeps one owner per ID, busy exact, and no sleeper on a free ID without a broadcast to come |
| Arbiter.ArbitratorSafe | pkg/agent/server.go:44-71 | under every schedule at most one RPC per container is between lock and unlock, busy is exactly the held IDs, and with the mutex free every sleeper's ID is busy |
| Arbiter.SomeoneCanMove | pkg/agent/server.go:57-71 | unless all RPCs are done, some RPC can take a step |
| Arbiter.StepDecreases | pkg/agent/server.go:57-71 | every step, including wake-ups that go back to sleep, decreases a measure |
| Arbiter.RunsEnd | pkg/agent/server.go:57-71 | no schedule is longer than the initial measure, and one that cannot continue has every RPC done |
| Agent.BodyKeepsWorld | pkg/agent/server.go:151-383 | every handler step, failing or not, keeps the holdings and routes of all containers that are up, host links only to living namespaces, and no allocation for a released container, and reaches what the next step relies on |
| Agent.BodyKeepsOthers | pkg/agent/server.go:151-345 | a step for one container leaves what handlers of others rely on |
| Agent.Ownership | pkg/agent/server.go:151-345 | under every interleaving and across crashes, a container whose ADD succeeded and whose DEL has not begun holds an address no other holds, even when its namespace is gone; while the namespace exists the /32 route for it leads to its own veth |
| Agent.ReleasedByDel | pkg/agent/server.go:312-345 | a container whose DEL has succeeded has no allocation until an ADD is granted one, and has none from the first step of DEL on, wherever its ADD had failed |
| Agent.ReleaseFrees | pkg/agent/server.go:316-318 | after any run, when the first step of a DEL succeeds the address its container held is nobody's, every other allocation is unchanged, and if the subnet does not reserve it the next search finds an address and none above it |
| Agent.OtherAllocationsStay | pkg/agent/server.go:151-345 | a move for one container never changes another's allocation |
| Agent.EntriesNeverRedirected | pkg/network/network.go:88-107 | an existing host route or host veth name is never taken over by another container |
| Agent.AddLeaves | pkg/agent/server.go:151-310 | the whole world an ADD with any failures leaves, as conditions on the world before: what was reached and worked stays done, and nothing is taken back |
| Agent.AddSucceedsIff | pkg/agent/server.go:151-310 | an ADD succeeds if and only if no call fails, it names an existing namespace, interface and link name are new, an address is granted and no /32 route for it lingers |
| Agent.DelLeaves | pkg/agent/server.go:312-345 | the whole world a DEL with any failures leaves, and its success: unless the disk refuses the release of a held address or the interface of an opened namespace cannot be deleted; a missing allocation, namespace or interface is no error |
| Agent.CheckLeaves | pkg/agent/server.go:347-383 | a CHECK changes nothing, whatever fails |
| Agent.RouteLingersIff | pkg/agent/server.go:312-345 | a successful DEL always releases the address, and its /32 route stays if and only if DEL was given no namespace or failed to open the existing one |
| Agent.EveryRequestEnds | pkg/agent/server.go:75-147 | apart from crashes the moves of every schedule are bounded at the start, and one in which no RPC can move has finished every RPC |
| SoloRuns.GoesOn | pkg/agent/server.go:75-147 | an RPC that runs while no other is under way is answered and leaves the world its handler's steps lead to |
| SoloRuns.LingeringRouteBlocks | pkg/agent/server.go:321-326 | a run of ADD, DEL without a namespace and ADD in which no call fails by itself, whose last ADD is granted the released address and refused its route |
| Server.AgentServer.CmdAdd | pkg/agent/server.go:151-310 | allocator and host after an ADD with any failures, as its steps leave them; success exactly if every step could be taken, and then the container is up with its allocated address and the table is on disk; failure means nothing came up |
| Server.AgentServer.PlugVeth | pkg/agent/server.go:155-221 | the veth half of ADD reaches the allocation step exactly if its calls can be made, and has returned otherwise |
| Server.AgentServer.CreatePair | pkg/agent/server.go:177-199 | the calls inside the namespace: the pair is made and one end moved to the host, or ADD returns with what was made left in place |
| Server.AgentServer.Address | pkg/agent/server.go:223-309 | the allocation half of ADD, from allocation to answer |
| Server.AgentServer.Connect | pkg/agent/server.go:248-309 | the steps after the allocation: host route, interface, answer; succeeds exactly if the link is there, no route for the address exists and no call fails |
| Server.AgentServer.CmdDel | pkg/agent/server.go:312-345 | allocator and host after a DEL with any failures, as its steps leave them; it fails exactly if the disk refuses the release of a held address or the interface of a namespace it opened cannot be deleted; success means no allocation is left in memory or on disk |
| Server.AgentServer.TearDown | pkg/agent/server.go:321-344 | the half after the release: no namespace, or one that cannot be opened, is success |
| Server.AgentServer.CmdCheck | pkg/agent/server.go:347-383 | succeeds exactly with an allocation, a named and existing namespace, and an interface in it that is up and has an address |

## Left out

- gRPC stubs, the JSON codec, error codes and the shim (`pkg/cni/rpc.go`, `cmd/purenet/main.go`): wrappers with one-branch conversions.
- CBOR bytes: the state file is a map that is complete or cut short; decoding fails on a cut file only.
- Loss of unsynced data on power failure: the code does not sync, so only process crashes are modelled.
- The Kubernetes client, informer internals and startup (`cmd/agent/main.go`): only the event order is kept.
- IPv6 subnets, nodes and strings.
- IPv4.ParseThenPrint: only dotted decimal parses here; the source also accepts IPv4-mapped IPv6 strings, so there more than one string reaches an address.
- Subnets.CIDRParsesExactly: covers IPv4 notation; the source also parses IPv6 CIDR strings.
- IpamAllocator.Allocator.New: an IPv6 pod CIDR, which the source accepts, counts as unparsable.
- IpamAllocator.Allocator.Load: a file key in IPv4-mapped form, which the source keeps, is skipped; the agent itself writes dotted decimal only.
- IpamAllocator.Allocator.Restore: skips the same IPv4-mapped keys.
- `SetupVXLAN`, MTU, link up and down, proxy ARP, masquerade, address and default route inside the container: calls that may fail, without state.
- `generateHostVethName`: the host veth name is an arbitrary string per request, so nothing depends on the truncated hash being unique; the kernel refuses a duplicate.
- Aliasing of returned `net.IP` slices with the map's values: addresses are values here.
- IpamAllocator: the mutex of the allocator is modelled by running one operation at a time, in its methods and in `CrashRuns`; other requests answered from memory change nothing.
- Arbiter: a Dafny method cannot be suspended, so `lock` and `unlock` are transitions of a step system and not methods of an object.
- Agent: a crash falls between two handler steps; crashes inside the allocation steps are in `CrashRuns`, and a crash in a node-sync handler leaves what a failure of its next kernel call would.
- Logging, `shortID`, `PrintTo` and writing the CNI config.
