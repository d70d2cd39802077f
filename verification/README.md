# Verification of the FabEdge operator's tables

FabEdge connects edge nodes to a Kubernetes cluster. Its operator keeps several tables in memory in
step with a changing cluster, and its agents reconcile the kernel with what the operator writes. This
project models that logic in Dafny and proves what it keeps:

- **Proxy controller** (`Proxy*.dfy`, `Keeper.dfy`, `Rendering.dfy`): endpoint slices become per-node
  load-balancing rules by an incremental diff, wait in a retrying write queue and are rendered to
  config maps. The queue holds the controller's own maps, so what is written is what they hold at that
  moment. `ProxySpec.dfy` is controller and queue as a state machine over flat sets of rules;
  `Proxy.dfy` and `Keeper.dfy` hold the nested maps and loops and are proved to take those steps
  whatever order a map is walked in (`ProxyFlat.dfy` links the two forms). The other files prove what
  holds after every run.
- **Subnet allocation** (`Addresses.dfy`, `AddressInts.dfy`, `Allocator.dfy`, `Subnets.dfy`,
  `PodCIDRsHandler.dfy`): CIDR arithmetic on byte strings, the cyclic block generator, and the
  allocate, annotate, roll back and reclaim protocol against an API server that rejects stale updates,
  seen through a cache that lags.
- **Endpoints and communities** (`Store.dfy`, `Strings.dfy`, `Peers.dfy`, `Replication.dfy`,
  `Mirror.dfy`): an inverted index, the tunnel topology that follows from it, and the mirror of a host
  cluster that a member keeps in the store its own controllers write to.
- **Agent side** (`Ipvs.dfy`): reconciliation of the IPVS table, stopped at any error and retried.
- **Agent controller** (`AgentController.dfy`, `PodCIDRStore.dfy`): the handler pipeline and the index
  from CIDRs to nodes.

`dafny verify dfyconfig.toml` checks everything.

Where a promise does not hold of the code, the model keeps the code, states exactly when the promise
holds as a condition on what is there before, and gives a run the code can take that breaks it:

- The rules equal recomputation only under `ProxyRuns.KeepsExact`: a backend whose IP moves while its
  slice keeps it stays on the old node, one that two slices list is lost with either, and those of a
  removed node or a cleaned-up service do not come back with it while their slice is unchanged.
- A node's service port goes away with a slice that drops the port even while another slice has
  backends for it there (`ProxyPorts.TakesAll`).
- A changed service does not reach nodes that already announce it (`ProxyPorts.KeepsCurrent`).
- A cleaned-up service leaves rules behind once a backend was disturbed (`ProxyCleanup.Undisturbed`):
  its IP moved, or one of two protocols on its port number went away.
- For a node removed while it served something, and perhaps added again, what the proxy wrote last
  still has the old rules (`ProxyQueue.FollowsIff`) until the node is queued again.
- A node that serves one cluster IP and port number under two protocols renders in several ways, so
  writing it again unchanged can ask for an update (`Keeper.RewriteAsksIff`).
- A node recreated before its deletion is reconciled leaks a block (`Subnets.Overwrites`).
- A pool serves as many allocations as blocks fit only if its start, as an integer, has four
  significant bytes (`Allocator.PoolServesIff`), and blocks inside it only if it is an IPv4 pool too
  (`Allocator.BlocksInPoolIff`): other pools serve blocks that print as nil, or IPv4 blocks elsewhere.
- Appending a CIDR to a second node leaves it in both lists (`PodCIDRStore.StepExactIff`).
- A member that defines a community under a name the host answers with too loses its own, or deletes
  the answered one (`Mirror.StepMergedIff`).
- A cluster whose name begins with a member's name is invisible to that member
  (`Mirror.PrefixClashIff`).
- A comment in the keeper says a failed old version should override the newest; the code does the
  opposite, and the model follows the code.

## Model

| member | source | states |
|---|---|---|
| `ProxyEndToEnd.LatestIsWanted` | pkg/operator/controllers/proxy/proxy.go:365-468 | In every run whose steps keep the tables exact, announced and current, what is to be written for a node (its maps if it waits, else what is written) is what is computed from scratch from the recorded slices and services; once the queue has drained that is what is written, and a node with nothing written is one nothing is asked for. |
| `ProxyEndToEnd.DrainedIsWanted` | pkg/operator/controllers/proxy/load_balance_config_keeper.go:93-120 | After every such run, the round in progress and one more, with writes taken and in any order of the nodes, leave written for every node what the slices and services ask for. |
| `ProxyEndToEnd.DrainedServes` | pkg/operator/controllers/proxy/proxy.go:365-468 | The same in terms of the reconciles alone: after them, what is written for a node has a rule if and only if a slice, as last read, lists that IP on that node and that port; and a service port if and only if it has a rule for it and carries the cluster IP, the port, the affinity and the timeout its service object last gave. |
| `ProxyEndToEnd.SaysRun` | pkg/operator/controllers/proxy/proxy.go:229-256 | After every run the recorded service has the address, affinity and timeout of the last reconcile that read its object, and nothing if it was cleaned up since. |
| `ProxyEndToEnd.RecordedRun` | pkg/operator/controllers/proxy/proxy.go:457-486 | After every run the recorded slices are those last synced and not deleted since. |
| `ProxyEndToEnd.StepExact` | pkg/operator/controllers/proxy/proxy.go:365-468 | From exact tables a step leads to exact tables (rules recomputed, every backend announced, every announcement current) if and only if it satisfies the three conditions, all of which are about the tables before the step. |
| `ProxyEndToEnd.StepLeaves` | pkg/operator/controllers/proxy/proxy.go:461-467 | A step that does not queue a node leaves all of the node's rules and service ports as they were, if the tables were announced and current. |
| `ProxyEndToEnd.ExactIsWanted` | pkg/operator/controllers/proxy/proxy.go:381-456 | Exact tables hold for each node the backends the slices list on it and, for exactly their ports, the service's address and affinity. |
| `ProxyRuns.SyncExactIff` | pkg/operator/controllers/proxy/proxy.go:365-468 | The incremental add-then-remove sync of one slice gives the rules recomputed from all slices if and only if nothing it drops is listed by another slice and everything the old version listed is dropped, still listed, or listed elsewhere. |
| `ProxyRuns.DeleteExactIff` | pkg/operator/controllers/proxy/proxy.go:470-486 | The same, both directions, for the deletion of a slice. |
| `ProxyRuns.StepExactIff` | pkg/operator/controllers/proxy/proxy.go:157-486 | For every kind of reconcile: from exact rules it leads to exact rules if and only if a condition on the state before it holds. |
| `ProxyRuns.SyncRefinesRecompute` | pkg/operator/controllers/proxy/proxy.go:365-468 | Over whole runs of such steps the incrementally kept rules are the ones computed from scratch. |
| `ProxyRuns.RuleAppearsIff` | pkg/operator/controllers/proxy/proxy.go:365-411 | A rule that is not served appears with a step if and only if the step syncs a slice that lists it and differs from the recorded one. |
| `ProxyRuns.TidyRunsAreExact` | pkg/operator/controllers/proxy/proxy.go:365-468 | Without node removal and service cleanup, if slices keep their service, kept IPs keep their node and slices of one service list disjoint IPs, each node's endpoints equal the recomputed ones after every run. |
| `ProxyRuns.NothingStale` | pkg/operator/controllers/proxy/proxy.go:190-486 | Over every interleaving of node add and remove, service update and cleanup, slice sync and deletion in which slices keep their places, every endpoint a node serves is listed by a recorded slice: that IP, on that node, for that port. |
| `ProxyCleanup.BackedRun` | pkg/operator/controllers/proxy/proxy.go:365-557 | In every run, with no assumption on slices, every announced service port has a backend and rules exist only for known nodes. |
| `ProxyCleanup.SyncBacked` | pkg/operator/controllers/proxy/proxy.go:381-456 | A slice sync keeps that every announced service port has a backend, also where it closes a port for one slice only. |
| `ProxyCleanup.SyncKnownIff` | pkg/operator/controllers/proxy/proxy.go:381-456 | A slice sync leaves the service's record knowing the port, the backend and the node of every rule if and only if no rule of the service that stays shares its IP and port number with a rule the sync drops or adds on another node. |
| `ProxyCleanup.StepKnownIff` | pkg/operator/controllers/proxy/proxy.go:157-486 | The same for every kind of reconcile, as a condition on the state before it. |
| `ProxyCleanup.KnownRun` | pkg/operator/controllers/proxy/proxy.go:157-486 | After runs of such steps the service records know every rule. |
| `ProxyCleanup.OrderlyRun` | pkg/operator/controllers/proxy/proxy.go:365-468 | When each IP sits on one node, each port number of a service has one protocol and slices keep their service, every step of a run is such a step. |
| `ProxyCleanup.CleanupCompleteIff` | pkg/operator/controllers/proxy/proxy.go:258-283 | One cleanup leaves no rule and no service port of the service behind if and only if the service record knows the port and the node of each of its rules. |
| `ProxyCleanup.CleanupComplete` | pkg/operator/controllers/proxy/proxy.go:258-305 | After every run of such steps a cleanup removes exactly the service's record and its entries on all nodes, leaves all others alone, and queues each changed node. |
| `ProxyCleanup.ServiceChangeQueues` | pkg/operator/controllers/proxy/proxy.go:219-222 | After every such run an update that changes a service's address, affinity or timeout queues each node that serves it. |
| `ProxyCleanup.SyncRecordIff` | pkg/operator/controllers/proxy/proxy.go:381-456 | A slice sync leaves in the service's record a backend if and only if it was there or is listed and is not dropped, and a port if and only if it was there or is listed and has a backend left or was not the slice's before. |
| `ProxyPorts.SyncAnnouncedIff` | pkg/operator/controllers/proxy/proxy.go:446-448 | A slice sync leaves every backend announced if and only if no port leaves the slice on a node where other backends of that port stay. |
| `ProxyPorts.StepAnnouncedIff` | pkg/operator/controllers/proxy/proxy.go:365-486 | The same for every kind of step. |
| `ProxyPorts.AnnouncedRun` | pkg/operator/controllers/proxy/proxy.go:365-557 | In runs of such steps a node announces a service port exactly when it has a backend for it. |
| `ProxyPorts.SyncCurrentIff` | pkg/operator/controllers/proxy/proxy.go:398-404 | After a slice sync all announced service ports carry the service's present address and affinity if and only if, in case the service changed, the sync touches every node that announces it. |
| `ProxyPorts.SyncAnnounces` | pkg/operator/controllers/proxy/proxy.go:390-411 | After the sync of a changed slice, each slot it lists a backend for announces, and announces only, the cluster IP, affinity and timeout of the service object under the slot's port. |
| `ProxyPorts.StepCurrentIff` | pkg/operator/controllers/proxy/proxy.go:219-256 | A step keeps announcements current if and only if a changed service has none outside what the step touches; a service update alone never refreshes one. |
| `ProxyPorts.CurrentRun` | pkg/operator/controllers/proxy/proxy.go:196-256 | In runs of such steps every announcement is current. |
| `ProxyQueue.NoUpdateLost` | pkg/operator/controllers/proxy/load_balance_config_keeper.go:63-120 | Whatever the interleaving of reconciles, checks, rounds and failed writes, the newest queueing of a node is pending, else in the batch being written, else the one written. |
| `ProxyQueue.OrderedRun` | pkg/operator/controllers/proxy/load_balance_config_keeper.go:70-120 | In every run what is written for a node was queued before what is in the batch, and that before what is pending, and what is written or kept of a removed node shows its maps no earlier than they were queued; so a failed old version never replaces a newer one. |
| `ProxyQueue.WrittenNeverGoesBack` | pkg/operator/controllers/proxy/load_balance_config_keeper.go:114-118 | However a run goes on, what is written for a node is kept or replaced by something queued no earlier that shows the node's maps at a moment no earlier. |
| `ProxyQueue.WrittenWasTrue` | pkg/operator/controllers/proxy/load_balance_config_keeper.go:81-112 | Although the queue holds the node's own maps, what is written for a node is in every run what the node had at some moment of the run, and so is what the queue keeps of a removed node. |
| `ProxyQueue.StepQueues` | pkg/operator/controllers/proxy/proxy.go:461-467 | A step that changes the endpoints of a node and leaves the node there queues it. |
| `ProxyQueue.SyncQueuesIff` | pkg/operator/controllers/proxy/proxy.go:461-467 | From exact rules, with slices that keep their service and an unchanged service, a slice sync queues a node if and only if it changes the node's rules. |
| `ProxyQueue.FollowsIff` | pkg/operator/controllers/proxy/proxy.go:190-194 | In every run and for every node, what is to be written has exactly the rules the node serves if and only if the node was not removed while it served something, or was queued since. |
| `ProxyQueue.DrainEmpties` | pkg/operator/controllers/proxy/load_balance_config_keeper.go:93-120 | After any run, with writes taken and no reconcile in between, the round in progress and the next leave nothing waiting, in whatever order the nodes are written. |
| `ProxyQueue.DrainedIsRecomputed` | pkg/operator/controllers/proxy/load_balance_config_keeper.go:93-120 | With exact rules and a drained queue, what is written for each node is its recomputed rules, and none for a node removed while it served something and not queued since. |
| `ProxyQueue.NoServerWithoutBackend` | pkg/operator/controllers/proxy/load_balance_config_keeper.go:93-120 | Nothing that is ever written, waits to be written or is kept of a removed node announces a service port without a backend. |
| `ProxyLimits.MovedBackendStaysServed` | pkg/operator/controllers/proxy/proxy.go:414-441 | A run of real reconciles in which an IP kept by its slice moves to another node and the old node goes on serving it: why kept IPs must keep their node. |
| `ProxyLimits.MovedBackendOutlivesCleanup` | pkg/operator/controllers/proxy/proxy.go:268-276 | A run of real reconciles in which such a backend outlives the cleanup of its service. |
| `ProxyLimits.ReaddedNodeKeepsOldRules` | pkg/operator/controllers/proxy/proxy.go:181-194 | A run of real reconciles in which a node is written, removed and added again, and what the proxy wrote last still has its old rules with nothing waiting to be written. |
| `ProxyLimits.ReaddedNodeStaysEmpty` | pkg/operator/controllers/proxy/proxy.go:372-375 | A run of real reconciles in which a node is removed and added again, its unchanged slice is synced again, and the backend the slice lists is not served. |
| `ProxyLimits.RecreatedServiceStaysEmpty` | pkg/operator/controllers/proxy/proxy.go:372-375 | The same for a service that is cleaned up and comes back. |
| `ProxyLimits.TwoProtocolsRewrite` | pkg/operator/controllers/proxy/load_balance_config_keeper.go:99-112 | A run of real reconciles that leaves a node with one cluster IP and port number under two protocols; whatever is written for it, rendering it again unchanged can ask for an update. |
| `ProxyLimits.SharedBackendIsLost` | pkg/operator/controllers/proxy/proxy.go:432-441 | A run of real reconciles in which one of two slices listing a backend is deleted and the backend is lost although the other lists it: why IPs must be disjoint. |
| `ProxyLimits.TwoProtocolsOutliveCleanup` | pkg/operator/controllers/proxy/proxy.go:268-276 | A run of real reconciles in which a port number under two protocols outlives the cleanup of its service: why protocols must be unique. |
| `ProxyLimits.SharedPortIsClosed` | pkg/operator/controllers/proxy/proxy.go:446-448 | A run of real reconciles in which deleting one slice ends the announcement of a port whose other backend stays. |
| `ProxyLimits.ServiceChangeStaysOut` | pkg/operator/controllers/proxy/proxy.go:219-222 | A run of real reconciles in which a changed service never reaches the node that announces it. |
| `Proxy.Controller.AddServicePortToNode` | pkg/operator/controllers/proxy/proxy.go:538-546 | Binds one service port on one node, making the node if needed, and changes no rule and no other binding. |
| `Proxy.Controller.AddEndpointToNode` | pkg/operator/controllers/proxy/proxy.go:503-520 | Adds one rule and nothing else; the result says whether it was new. |
| `Proxy.Controller.RemoveEndpointFromNode` | pkg/operator/controllers/proxy/proxy.go:522-536 | Removes one rule, and the service port with it exactly when no rule of that port is left on the node. |
| `Proxy.Controller.RemoveServicePortFromNode` | pkg/operator/controllers/proxy/proxy.go:548-557 | Unbinds one service port and leaves the endpoints, also for an unknown node. |
| `Proxy.Controller.AddPortEndpoints` | pkg/operator/controllers/proxy/proxy.go:390-411 | The addition loop for one port, in any order of the endpoints: the rules, service ports, owners and marked nodes are those of the specification. |
| `Proxy.Controller.RemovePortEndpoints` | pkg/operator/controllers/proxy/proxy.go:429-455 | The removal loop for one port, in any order of the endpoints, likewise. |
| `Proxy.Controller.SyncEndpointTables` | pkg/operator/controllers/proxy/proxy.go:365-459 | Both nested loops together take all four tables to the flat specification's slice sync. |
| `Proxy.Controller.SyncServiceEndpointsFromEndpointSlice` | pkg/operator/controllers/proxy/proxy.go:365-468 | The whole sync, with the nodes it queues; keeps that every service port has a backend. |
| `Proxy.Controller.QueueNodes` | pkg/operator/controllers/proxy/proxy.go:461-467 | Queues exactly the named nodes that exist, each with the maps the controller goes on changing. |
| `Proxy.Controller.CleanupServiceInfo` | pkg/operator/controllers/proxy/proxy.go:258-283 | The nested cleanup loops, in any order, are the specification's cleanup step. |
| `Proxy.Controller.SyncServiceChangesToAgent` | pkg/operator/controllers/proxy/proxy.go:285-305 | Queues the nodes the service's endpoints sit on. |
| `Proxy.Controller.SyncServiceInfoFromService` | pkg/operator/controllers/proxy/proxy.go:229-256 | Takes over address and affinity, reports whether they differed, and leaves the service with allocated maps. |
| `Proxy.Controller.CleanupEndpointsOfEndpointSlice` | pkg/operator/controllers/proxy/proxy.go:470-486 | A deleted slice is synced as an empty one and forgotten; an unknown one changes nothing. |
| `Proxy.Controller.AddEdgeNode` | pkg/operator/controllers/proxy/proxy.go:181-188 | A node is added once, without rules; an existing one keeps its rules. |
| `Proxy.Controller.RemoveEdgeNode` | pkg/operator/controllers/proxy/proxy.go:190-194 | A node leaves with its rules; what waits to be written for it keeps its maps as they were; nothing else changes. |
| `Proxy.Controller.MakeEndpointSliceInfo` | pkg/operator/controllers/proxy/proxy.go:559-598 | The recorded form of a slice: its ports, and the endpoints on known nodes. |
| `Proxy.LastEndpointWins` | pkg/operator/controllers/proxy/proxy.go:581-596 | Of several endpoints with one address the last one on a known node decides. |
| `Proxy.KnownIff` | pkg/operator/controllers/proxy/proxy.go:581-596 | An address is recorded if and only if some endpoint with it sits on a known node, by its node name or, failing that, its label. |
| `Proxy.Controller.OnNodeUpdate` | pkg/operator/controllers/proxy/proxy.go:157-179 | An edge node is in the node set afterwards, a missing or other node is not, a failed lookup changes nothing, and no other node comes or goes; each outcome is one step of the specification, or none. |
| `Proxy.Controller.OnServiceUpdate` | pkg/operator/controllers/proxy/proxy.go:196-225 | A missing service, or one without the ClusterIP type, a cluster IP or a selector, is not recorded afterwards; any other is, with its address and affinity and, for client-IP affinity, its timeout; a failed lookup changes nothing. |
| `Proxy.Controller.OnEndpointSliceUpdate` | pkg/operator/controllers/proxy/proxy.go:307-363 | A missing or terminating slice is not recorded afterwards; one without a service name, or whose lookup or service lookup fails, changes nothing; one whose service is missing or not proxied has the service cleaned up; any other is recorded with its ports and its endpoints on known nodes, and its service with what its object says. Keeps the invariant. |
| `Proxy.Controller.CheckNodeRules` | pkg/operator/controllers/proxy/proxy.go:488-501 | The periodic checker queues a node only if it is not waiting already. |
| `Proxy.Controller.StartRound` | pkg/operator/controllers/proxy/load_balance_config_keeper.go:93-97 | The start of a round is the specification's step on controller and queue together. |
| `Proxy.Controller.WriteNext` | pkg/operator/controllers/proxy/load_balance_config_keeper.go:99-119 | So is one turn of the write loop, with the node's maps as they are at that moment; it succeeds exactly when the config map is found and holds the servers or takes them, and only then changes. |
| `Proxy.SliceStepArisesIff` | pkg/operator/controllers/proxy/proxy.go:307-363 | A slice sync arises from some slice and service objects if and only if its service is named and in its namespace, it lists only known nodes, and the service has a cluster IP and a sticky age only with client-IP affinity: which runs are real. |
| `Proxy.ServiceStepArisesIff` | pkg/operator/controllers/proxy/proxy.go:196-225 | A service update arises from some service object if and only if the service has a cluster IP and a sticky age only with client-IP affinity. |
| `Proxy.Controller.ServicePortsHaveEndpoints` | pkg/operator/controllers/proxy/proxy.go:503-557 | In every valid state the service port keys of a node are among its endpoint keys and no endpoint set is empty. |
| `Keeper.LoadBalanceConfigKeeper.AddNodeIfNotPresent` | pkg/operator/controllers/proxy/load_balance_config_keeper.go:70-79 | Queues a node unless a version of it is waiting. |
| `Keeper.LoadBalanceConfigKeeper.TakeBatch` | pkg/operator/controllers/proxy/load_balance_config_keeper.go:93-97 | A round takes all that is waiting and leaves nothing. |
| `Keeper.LoadBalanceConfigKeeper.WriteToConfigMap` | pkg/operator/controllers/proxy/load_balance_config_keeper.go:122-158 | Succeeds exactly when the config map is found and either holds the servers already or takes the update; asks for an update exactly when it is found and differs; a failure leaves all config maps as they were. |
| `Keeper.LoadBalanceConfigKeeper.WriteNode` | pkg/operator/controllers/proxy/load_balance_config_keeper.go:99-119 | One turn of the write loop: what the node's maps hold now is rendered and written, or the node put back unless it waits again; succeeds exactly when the config map is found and holds the servers or takes them; every config map holds a rendering of what is written to it, and an unchanged unambiguous node causes no update. |
| `Keeper.LoadBalanceConfigKeeper.SyncRules` | pkg/operator/controllers/proxy/load_balance_config_keeper.go:93-120 | A whole round, in any order: a node whose config map is not found waits as before; one whose config map is found and takes the update has a rendering there and waits no more; a refused update leaves the config map alone, and the node waits if it had none; no other node waits and no other config map changes. |
| `Keeper.TurnedMeans` | pkg/operator/controllers/proxy/load_balance_config_keeper.go:99-119 | What one turn comes to in every combination of a config map found or not, an update taken or refused, and a content that is absent, a rendering of the node or something else. |
| `Keeper.RewriteAsksIff` | pkg/operator/controllers/proxy/load_balance_config_keeper.go:146-152 | Writing an unchanged node again asks for no update, whatever order the maps are walked in, if and only if service ports that share a cluster IP and port number render alike. |
| `Keeper.BackedNodeRenders` | pkg/operator/controllers/proxy/load_balance_config_keeper.go:99-112 | A version in which every service port has a backend renders to servers that all have real servers. |
| `Rendering.ConvertEndpointSetToRealServers` | pkg/operator/controllers/proxy/load_balance_config_keeper.go:160-169 | Every endpoint once, sorted, whatever the order of the walk. |
| `Rendering.RealServersUnique` | pkg/common/netconf/ipvs.go:78-90 | The sorted real servers of a set are unique. |
| `Rendering.RenderNode` | pkg/operator/controllers/proxy/load_balance_config_keeper.go:99-112 | The servers of exactly the node's service ports, sorted, whatever the order of the walk. |
| `Rendering.RenderedFrom` | pkg/operator/controllers/proxy/load_balance_config_keeper.go:99-112 | A rendering has exactly one server for each service port of the node, with the keeper's scheduler, the port's cluster IP, number, protocol, affinity and timeout, and exactly its endpoints. |
| `Rendering.ServersSorted` | pkg/common/netconf/ipvs.go:54-66 | A rendering goes by cluster IP and then port number. |
| `Rendering.RealServersSorted` | pkg/common/netconf/ipvs.go:78-90 | So do the real servers of each server. |
| `Strings.StringLessIff` | pkg/common/netconf/ipvs.go:54-66 | The order of strings is the dictionary order: at the first place where they part, one ends or has the smaller character. |
| `Rendering.SortUniqueIff` | pkg/common/netconf/ipvs.go:54-66 | A sort by IP and port has one outcome if and only if elements with equal keys are equal. |
| `Rendering.CanonicalIff` | pkg/operator/controllers/proxy/load_balance_config_keeper.go:99-112 | A node renders in one way only, however maps are walked and ties are broken, if and only if service ports that share cluster IP and port number render alike. |
| `Rendering.TwoProtocolsClash` | pkg/common/netconf/ipvs.go:54-66 | A node with one cluster IP and port number under two protocols always has a second rendering. |
| `Addresses.MatchIsPrefix` | pkg/operator/allocator/allocator.go:95-97 | Addresses match bytewise under a prefix mask if and only if their leading bits agree as numbers. |
| `Addresses.LastIP` | pkg/operator/allocator/allocator.go:223-230 | The bytewise last address of a parsed subnet, IPv4 or IPv6, is its first plus 2^h - 1 with h its host bits. |
| `Addresses.FilledIsLast` | pkg/operator/allocator/allocator.go:223-230 | The same for byte strings of every length. |
| `Addresses.EndsDecide` | pkg/operator/allocator/allocator.go:95-97 | Checking both ends of a subnet holds if and only if all its addresses lie in the pool. |
| `AddressInts.RoundTripIff` | pkg/operator/allocator/allocator.go:189-204 | For every n below 2^128, converting to an address and back gives n if and only if n is outside the IPv4-mapped range of section 2.5.5.2 of RFC 4291. |
| `AddressInts.IntToIPFour` | pkg/operator/allocator/allocator.go:197-204 | Exactly the numbers of four significant bytes become IPv4 addresses, so addresses in 0.0.0.0/8 do not. |
| `AddressInts.IncrementExact` | pkg/operator/allocator/allocator.go:184-187 | Within the IPv4 range above 0.0.0.0/8 incrementing stays four bytes and adds exactly. |
| `Allocator.BlockGenerator.Next` | pkg/operator/allocator/allocator.go:139-181 | For every parsed pool call k yields the k-th block around the circle from the start, as it prints, and nothing after a full circle. |
| `Allocator.FullCircle` | pkg/operator/allocator/allocator.go:139-181 | From every start, one circle visits every block exactly once. |
| `Allocator.BlockInPool` | pkg/operator/allocator/allocator.go:115-182 | Every block of an IPv4 pool outside 0.0.0.0/8, in either notation, is an aligned /26 whose addresses all lie in the pool. |
| `Allocator.BlocksInPoolIff` | pkg/operator/allocator/allocator.go:115-182 | The blocks of a parsed pool are all parsed subnets inside it if and only if none fits or the pool is such an IPv4 pool. |
| `Allocator.ForeignBlocks` | pkg/operator/allocator/allocator.go:184-204 | An IPv6 pool between ::100:0 and ::ffff:ffff hands out IPv4 blocks with the same numbers, none of them in the pool. |
| `Allocator.BlocksDisjoint` | pkg/operator/allocator/allocator.go:115-182 | Different blocks of a pool whose start has four significant bytes share no address. |
| `Allocator.NumBlocksIs` | pkg/operator/allocator/allocator.go:115-130 | A pool with h host bits has 2^(h-6) blocks if h is at least 6, and none otherwise. |
| `Allocator.FailsIffFull` | pkg/operator/allocator/allocator.go:99-113 | Allocation fails if and only if every block of the pool is recorded. |
| `Allocator.FreeBlockIsFirst` | pkg/operator/allocator/allocator.go:99-113 | Allocation gives the first block around the circle from the start that is not recorded. |
| `Allocator.SubnetAllocator.ContainsNet` | pkg/operator/allocator/allocator.go:95-97 | For every parsed pool and subnet, IPv4, IPv6 or IPv4-mapped: holds if and only if every address of the subnet lies in the pool. |
| `Allocator.SubnetAllocator.GetFreeSubnetBlock` | pkg/operator/allocator/allocator.go:99-113 | Terminates with the first unrecorded block around the circle and records only that one, or fails and records nothing. |
| `Allocator.PoolServes` | pkg/operator/allocator/allocator.go:99-113 | A fresh pool of any kind serves exactly as many calls as it has blocks that print differently, all different, whatever the hosts' starting points. |
| `Allocator.BlockCountIff` | pkg/operator/allocator/allocator.go:115-182 | A parsed pool has as many different blocks as fit if and only if at most one fits or its start, as an integer, has four significant bytes. |
| `Allocator.PoolServesIff` | pkg/operator/allocator/allocator.go:99-113 | As many calls to a fresh parsed pool as blocks fit all succeed if and only if that holds, whatever the hosts' starting points. |
| `Allocator.PoolServesExactly` | pkg/operator/allocator/allocator.go:99-113 | A fresh pool with h host bits whose start has four significant bytes serves exactly 2^(h-6) calls, none if h is under 6, and no two of the blocks share an address. |
| `Allocator.UnsupportedServesOne` | pkg/operator/allocator/allocator.go:115-204 | A pool within 0.0.0.0/8, or an IPv6 pool beyond the IPv4-mapped range, serves one block that prints as nil, and then fails. |
| `Allocator.ReclaimReopens` | pkg/operator/allocator/allocator.go:73-113 | A full pool fails until a block is reclaimed, and then serves just that block. |
| `Subnets.RunInv` | pkg/operator/controllers/agent/podcidrshandler.go:42-130 | With a cache that lags by any number of versions and an API server that rejects stale updates, every run keeps: an accepted annotation the operator can still see is the one stored, stored blocks are recorded blocks of the pool, and no two nodes have the same. |
| `Subnets.OwnershipIsExclusive` | pkg/operator/controllers/agent/podcidrshandler.go:42-130 | In every run the blocks stored for two nodes are recorded and share no address. |
| `Subnets.StepOwnedIff` | pkg/operator/controllers/agent/podcidrshandler.go:75-105 | From a state in which recorded means owned, a step keeps that if and only if it does not annotate a node for which a block is already stored. |
| `Subnets.RecordedAreOwned` | pkg/operator/controllers/agent/podcidrshandler.go:42-130 | If every deletion is reconciled before the name comes back, the recorded blocks are exactly the owned ones. |
| `Subnets.DeletionReclaims` | pkg/operator/controllers/agent/podcidrshandler.go:107-130 | After every run, deleting a node with a block, seeing and reconciling that forgets the node and its block and leaves all other nodes and blocks alone. |
| `Subnets.RegistrationGrants` | pkg/operator/controllers/agent/podcidrshandler.go:75-105 | After every run, registering a node, seeing and reconciling it stores and annotates the first free block and records only that one. |
| `Subnets.BlockServesAgain` | pkg/operator/controllers/agent/podcidrshandler.go:42-130 | So a full pool refuses until a node is deleted, and then gives that node's block to the next one. |
| `Subnets.RemembersRun` | pkg/operator/controllers/agent/controller.go:172-206 | In every run a node with a stored block is one whose deletion will be reconciled. |
| `Subnets.RecreationLeaks` | pkg/operator/controllers/agent/podcidrshandler.go:75-105 | After every run that leaves a present node with a block and a free block, deleting and registering the node again unseen loses a block: recorded, owned by nobody. |
| `Subnets.FirstGrant` | pkg/operator/controllers/agent/podcidrshandler.go:75-105 | Such runs exist for every pool of two blocks: registering a node, seeing it and reconciling it leaves it with a block, recorded blocks owned, and a block free. |
| `Subnets.BlockCanLeak` | pkg/operator/controllers/agent/podcidrshandler.go:75-105 | So for every such pool a run of seven steps loses a block. |
| `Subnets.DoIs` | pkg/operator/controllers/agent/podcidrshandler.go:42-105 | In every state of the protocol's invariant, a reconcile of a present node grants it a fresh block if its annotation is not accepted, a block is free and the update is neither stale nor refused, and otherwise changes nothing but the set of names. |
| `PodCIDRsHandler.AllocatablePodCIDRsHandler.IsValidSubnets` | pkg/operator/controllers/agent/podcidrshandler.go:56-73 | Holds if and only if there is a subnet and each parses and lies in the pool. |
| `PodCIDRsHandler.AllocatablePodCIDRsHandler.Do` | pkg/operator/controllers/agent/podcidrshandler.go:42-54 | An accepted annotation is stored without being recorded; otherwise a block of the pool that was not recorded is stored and recorded if the update is taken, and nothing changes if not; other nodes are as before. |
| `PodCIDRsHandler.AllocatablePodCIDRsHandler.AllocateSubnet` | pkg/operator/controllers/agent/podcidrshandler.go:75-105 | Records and stores a free block only if the update is taken. |
| `PodCIDRsHandler.AllocatablePodCIDRsHandler.Undo` | pkg/operator/controllers/agent/podcidrshandler.go:107-130 | The node is not stored afterwards, exactly the subnets stored for it that parse leave the cache, and all other nodes and blocks are as before. |
| `AgentController.Controller.Reconcile` | pkg/operator/controllers/agent/controller.go:172-206 | A node is remembered exactly while some handler's work was attempted since the last complete undo; it leaves only after every undo succeeded; each handler up to the first failure is called once, and sees a restart request exactly if an earlier one of the same reconcile made it. |
| `AgentController.Controller.DoAll` | pkg/operator/controllers/agent/controller.go:193-203 | The forward loop: who is called, with which restart flag, and whether all went well. |
| `AgentController.Controller.UndoAll` | pkg/operator/controllers/agent/controller.go:213-227 | The reverse loop stops at the first handler that cannot undo its work. |
| `AgentController.PendingIff` | pkg/operator/controllers/agent/controller.go:172-227 | The recursive notion of pending work is the one over positions in the log: a call not followed by a complete undo. |
| `PodCIDRStore.SoundRun` | pkg/operator/types/podcidrstore.go:30-114 | After every sequence of operations a CIDR's node has it in its list and no list has duplicates. |
| `PodCIDRStore.StepLists` | pkg/operator/types/podcidrstore.go:30-114 | In every reachable state, which lists have a CIDR after each of the four operations. |
| `PodCIDRStore.StepOwner` | pkg/operator/types/podcidrstore.go:30-114 | And which node the index names for it, or none. |
| `PodCIDRStore.StepExactIff` | pkg/operator/types/podcidrstore.go:30-114 | From exact tables an operation, with all the CIDRs it names, leads to exact tables if and only if each of them is free or its node's own; removing a whole node, or a CIDR through the index, always does. |
| `PodCIDRStore.AppendedTwice` | pkg/operator/types/podcidrstore.go:34-42 | After two nodes have appended one CIDR both list it while the index names only the later. |
| `PodCIDRStore.ExactRun` | pkg/operator/types/podcidrstore.go:30-114 | If every operation names only CIDRs that are free or its node's own, the two tables are inverses after every run. |
| `PodCIDRStore.Store.AppendCIDRs` | pkg/operator/types/podcidrstore.go:30-43 | The loop, with the search for duplicates, is the specification's append. |
| `PodCIDRStore.Store.RemoveCIDRs` | pkg/operator/types/podcidrstore.go:45-60 | The loop is the specification's removal; an emptied list is dropped. |
| `PodCIDRStore.Store.RemoveByCIDR` | pkg/operator/types/podcidrstore.go:62-70 | Removes the CIDR from the node the index names. |
| `PodCIDRStore.Store.RemoveNode` | pkg/operator/types/podcidrstore.go:72-80 | Removes the node and the index entries of everything it lists. |
| `Store.IndexIsScan` | pkg/operator/store/store.go:176-195 | An index that relates members to communities exactly as the communities do gives what a full scan gives. |
| `Store.ClusterStore.SaveCommunityInfo` | pkg/operator/store/store.go:131-166 | Keeps the index exact through both loops and the early return on equal members. |
| `Store.ClusterStore.DeleteCommunityInfo` | pkg/operator/store/store.go:197-212 | Keeps the index exact and leaves no empty entry. |
| `Store.ClusterStore.GetCommunitiesByEndpoint` | pkg/operator/store/store.go:176-195 | Returns the communities a scan would find, each once, with their members. |
| `Store.ClusterStore.GetEndpoints` | pkg/operator/store/store.go:83-97 | The stored endpoints among the names, in order. |
| `Store.ClusterStore.SaveAsLocal` | pkg/operator/store/store.go:67-73 | Saves the endpoint and marks it local. |
| `Store.ClusterStore.Delete` | pkg/operator/store/store.go:123-129 | Deletes the endpoint and its local mark. |
| `Store.TidyRun` | pkg/operator/store/store.go:60-129 | In every reachable store local names are stored endpoints and endpoints are stored under their own names. |
| `Store.LastWord` | pkg/operator/store/store.go:60-212 | After every run an endpoint is stored as it was last saved and not deleted since, local if saved as local and not deleted since, and a community has the members it was last saved with. |
| `Peers.GetAgentPeers` | pkg/operator/controllers/agent/confighandler.go:136-151 | The connector first, then exactly the stored endpoints that share a community, by name in ascending order, without the agent itself. |
| `Peers.GetConnectorPeers` | pkg/operator/controllers/connector/controller.go:307-326 | Exactly the stored endpoints that are local or share a community, by name in ascending order, without the connector itself. |
| `Peers.TunnelsMatch` | pkg/operator/controllers/agent/confighandler.go:117-151 | In every reachable store two stored endpoints other than the connector are in each other's peer lists if and only if they share a community; local endpoints and the connector list each other, and the connector never itself. |
| `Peers.PeersSorted` | pkg/operator/controllers/agent/confighandler.go:117-151 | In every reachable store peers come in ascending order of their names, each once. |
| `Strings.List` | pkg/operator/controllers/agent/confighandler.go:136-151 | The one ascending list of a set of names, whatever order the set is walked in. |
| `Strings.ListingUnique` | pkg/operator/controllers/agent/confighandler.go:136-151 | A set has only one ascending list. |
| `Replication.GetEndpointsAndCommunity` | pkg/operator/apiserver/apiserver.go:195-240 | The answer holds the communities of the exported endpoints and the stored endpoints of their members without the cluster's prefix. |
| `Replication.EndpointsLoader.LoadEndpointsAndCommunities` | pkg/operator/routines/endpoints.go:36-76 | One turn of the routine on the member store and the two remembered name sets; a failed fetch changes nothing. |
| `Mirror.MemberMirrorsHost` | pkg/operator/routines/endpoints.go:36-76 | After every run of fetches, some failing, and changes by the member's own controllers, the foreign endpoints are those of the last successful answer. |
| `Mirror.StepMergedIff` | pkg/operator/controllers/community/controller.go:75-95 | From a store that holds the member's own communities and those of the last answer, a fetch or a change by the member's community controller leads to such a store if and only if no fetch drops a community the member defines too and the controller changes no answered one. |
| `Mirror.MergedRun` | pkg/operator/routines/endpoints.go:36-76 | After every run of such steps the communities are the member's own and those of the last answer, the answered one winning where both have a name. |
| `Mirror.ApartRun` | pkg/operator/routines/endpoints.go:36-76 | Every run is such a run if the member defines no community under a name that is ever answered. |
| `Mirror.FetchContributes` | pkg/operator/routines/endpoints.go:49-56 | Right after a fetch every answered community is stored with the answered members, whatever happened before. |
| `Mirror.SharedNameIsLost` | pkg/operator/routines/endpoints.go:63-65 | A run in which a community the member defines is overridden by one of the same name that a host answers with, and deleted when the host deletes its own. |
| `Mirror.SharedNameIsDeleted` | pkg/operator/controllers/community/controller.go:75-95 | A run in which the member deletes its community and with it the one of the same name that the host goes on answering with, until the next fetch. |
| `Mirror.FetchesLeaveOwnAlone` | pkg/operator/routines/endpoints.go:36-76 | The endpoints with the member's prefix are the same as if nothing had been fetched. |
| `Mirror.AnswersAreProper` | pkg/operator/apiserver/apiserver.go:216-232 | The host's filter lets no endpoint with the cluster's prefix and no empty community through. |
| `Mirror.AnswerCommunities` | pkg/operator/apiserver/apiserver.go:212-229 | An answer has exactly the communities an exported endpoint is in, with their members. |
| `Mirror.AnswerCarries` | pkg/operator/apiserver/apiserver.go:212-236 | An answer holds an endpoint if and only if the host stores it in a community with an exported endpoint and it does not carry the cluster's prefix, and then as the host has it. |
| `Mirror.SamePeers` | pkg/operator/controllers/connector/controller.go:307-326 | Whatever happened, an endpoint of another cluster reaches an exported endpoint on the member if and only if the host offers it, it does not carry the member's prefix, and the host's communities or the member's own tie the two; and then with the host's addresses and subnets. |
| `Mirror.PeersByCluster` | pkg/operator/controllers/connector/controller.go:307-326 | So a node of another cluster whose name clashes is never among the connector's peers on the member, and without a tie of the member's own any other is if and only if the host's communities put it there. |
| `Mirror.PrefixClashIff` | pkg/operator/types/funcs.go:34-36 | An endpoint of cluster B is taken for one of cluster A by its prefix if and only if B's name starts with A's, or A's name is B's, a dot and the start of the node's name. |
| `Mirror.ClusterNamesClash` | pkg/operator/apiserver/apiserver.go:216-232 | A run in which the host's community puts two connectors together and the member never hears of the other, because its cluster's name is the member's followed by a 2. |
| `Ipvs.UpdateRealServers` | pkg/agent/manager.go:519-556 | On success one server has exactly the configured real servers; every change made brought the table closer, also on an early return. |
| `Ipvs.SyncVirtualServer` | pkg/agent/manager.go:463-517 | On success the kernel has exactly the virtual servers of the configuration, each with exactly the real servers of its last entry; success or not, each change lowered the distance to that table. |
| `Ipvs.ConfiguredKeys` | pkg/agent/manager.go:479-483 | The collected configuration has a virtual server if and only if some entry is for it. |
| `Ipvs.ConfiguredLast` | pkg/agent/manager.go:479-483 | It has the real servers of the last entry for it. |
| `Ipvs.RetryForever` | pkg/agent/retry.go:26-36 | Stopped at any error and rerun, the reconciliation ends with the configured table after at most as many changes as the tables differed in. |
| `Ipvs.Closer` | pkg/agent/manager.go:463-556 | A change that only removes disagreements lowers the distance. |

## Left out

- Each reconcile is one atomic step, and so is the rendering and writing of one node. The slice
  reconcile takes the lock twice and reads the node set outside it, and the keeper renders outside the
  controller's lock; interleavings within one of these steps are not modelled.
- The API server, clocks and the network are parameters: what a lookup returned, whether an update was
  taken. An update that is applied but reported as failed is not modelled.
- Proxy.Controller.MakeEndpointSliceInfo: endpoints without an address and ports without a number,
  for which the source would panic, are not representable.
- Proxy.Controller.UpdateServiceInfo: takes a non-empty cluster IP, which the skip test guarantees.
- Rendering.RenderNode: sort.Sort is any sorted permutation and YAML encoding is the identity.
- Keeper.LoadBalanceConfigKeeper.WriteNode: the agent controller deletes a leaving node's config map
  and recreates it empty; what is written is what the proxy wrote last, whatever became of it since.
- Allocator.BlockGenerator.Next: the pseudo-random start is any block number, and a block is known by
  how it prints, as in the cache and the annotation.
- PodCIDRsHandler.AllocatablePodCIDRsHandler.Do: annotations have their host bits clear, as the parser
  leaves them.
- Subnets.OwnershipIsExclusive: stated for the pools whose blocks lie in them
  (`Allocator.BlocksInPoolIff`). Runs start from an empty cluster, only the operator writes accepted
  annotations, and nodes leave by deletion; a restart of the operator and a node that loses its edge
  label are not modelled.
- Mirror.MemberMirrorsHost: the member's own endpoints carry its prefix; a member that stores other
  clusters' endpoints from cluster objects of its own, as a host does, is not modelled.
- Ipvs.SyncVirtualServer: schedulers, flags and the truncation of ports to 16 bits are not modelled,
  and another process changing the table meanwhile is not.
- PodCIDRStore.Store.AppendCIDRs: lists are values; a caller's alias of a returned slice is not.
- The connector's node cache and endpoint rebuild, the binding of cluster IPs to the dummy interface
  and the cluster controller: each copies one object into one table, with no state carried between
  calls that the tables above do not have.
- Certificates, tokens and TLS, strongSwan, routes, iptables, ipset and CNI files, gossip, file
  watching, tickers, flag parsing and validation, and everything that only builds Kubernetes objects.
