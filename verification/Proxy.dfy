/** The proxy controller as the source writes it: nested maps updated in loops. Each method is
    proved to take the corresponding step of ProxySpec, whatever order a map is walked in. */
module Proxy {
  import opened Prelude
  import opened ProxyTypes
  import opened ProxySpec
  import opened ProxyFlat
  import opened ProxyRuns
  import opened ProxyCleanup
  import opened Keeper
  import opened Rendering

  // ---------- what the reconciles read from the API server ----------

  datatype Lookup<T> = Found(item: T) | NotFound | Failed

  datatype ServiceObject = ServiceObject(
    serviceType: string, clusterIP: IP, selectorSize: nat, sessionAffinity: string, affinityTimeout: int)

  datatype EndpointObject = EndpointObject(address: IP, nodeName: Option<NodeName>, hostnameLabel: string)

  datatype SliceObject = SliceObject(
    terminating: bool, serviceName: string, ports: seq<Port>, endpoints: seq<EndpointObject>)

  predicate ShouldSkip(svc: ServiceObject) {
    svc.serviceType != "ClusterIP" || svc.clusterIP == "None" || svc.clusterIP == "" || svc.selectorSize == 0
  }

  function SpecOf(svc: ServiceObject): ServiceSpec {
    ServiceSpec(svc.clusterIP, svc.sessionAffinity,
                if svc.sessionAffinity == "ClientIP" then svc.affinityTimeout else 0)
  }

  function Hostname(ep: EndpointObject): NodeName {
    if ep.nodeName.Some? && ep.nodeName.value != "" then ep.nodeName.value else ep.hostnameLabel
  }

  /** The services the proxy takes care of. */
  predicate Proxied(svc: ServiceObject) {
    svc.serviceType == "ClusterIP" && svc.clusterIP !in {"", "None"} && svc.selectorSize > 0
  }

  /** The endpoint names the node it sits on; if it does not, its label counts. */
  predicate SitsOn(ep: EndpointObject, node: NodeName) {
    if ep.nodeName in {None, Some("")} then ep.hostnameLabel == node else ep.nodeName == Some(node)
  }

  /** The endpoints on known nodes; of two with one address the later wins. */
  function KnownEndpoints(endpoints: seq<EndpointObject>, nodes: set<NodeName>): (r: map<IP, NodeName>)
    ensures r.Values <= nodes
  {
    if endpoints == [] then map[] else
    var init, last := endpoints[..|endpoints| - 1], endpoints[|endpoints| - 1];
    var r := KnownEndpoints(init, nodes);
    if Hostname(last) in nodes then r[last.address := Hostname(last)] else r
  }

  /** An address is recorded exactly when some endpoint with it sits on a known node. */
  lemma {:induction false} KnownIff(endpoints: seq<EndpointObject>, nodes: set<NodeName>, ip: IP)
    ensures ip in KnownEndpoints(endpoints, nodes) <==>
      exists ep <- endpoints :: ep.address == ip && !SitsElsewhere(ep, nodes)
    decreases |endpoints|
  {
    if endpoints != [] {
      var init, last := endpoints[..|endpoints| - 1], endpoints[|endpoints| - 1];
      KnownIff(init, nodes, ip);
      assert endpoints == init + [last];
      ElsewhereIff(last, nodes);
    }
  }

  /** The endpoint sits on none of the nodes. */
  ghost predicate SitsElsewhere(ep: EndpointObject, nodes: set<NodeName>) {
    forall node <- nodes :: !SitsOn(ep, node)
  }

  lemma {:induction false} ElsewhereIff(ep: EndpointObject, nodes: set<NodeName>)
    ensures SitsElsewhere(ep, nodes) <==> Hostname(ep) !in nodes
  {
    SitsOnHost(ep, Hostname(ep));
  }

  lemma {:induction false} SitsOnHost(ep: EndpointObject, node: NodeName)
    ensures SitsOn(ep, node) <==> Hostname(ep) == node
  {}

  lemma {:induction false} LastHostWins(endpoints: seq<EndpointObject>, nodes: set<NodeName>, i: nat)
    requires i < |endpoints| && Hostname(endpoints[i]) in nodes
    requires forall j :: i < j < |endpoints| && endpoints[j].address == endpoints[i].address ==>
      Hostname(endpoints[j]) !in nodes
    ensures endpoints[i].address in KnownEndpoints(endpoints, nodes)
    ensures KnownEndpoints(endpoints, nodes)[endpoints[i].address] == Hostname(endpoints[i])
    decreases |endpoints|
  {
    if i < |endpoints| - 1 {
      LastHostWins(endpoints[..|endpoints| - 1], nodes, i);
    }
  }

  /** The endpoint that decides an address is the last one with it on a known node. */
  lemma {:induction false} LastEndpointWins(endpoints: seq<EndpointObject>, nodes: set<NodeName>, i: nat,
                                            node: NodeName)
    requires i < |endpoints| && SitsOn(endpoints[i], node) && node in nodes
    requires forall j :: i < j < |endpoints| && endpoints[j].address == endpoints[i].address ==>
      SitsElsewhere(endpoints[j], nodes)
    ensures endpoints[i].address in KnownEndpoints(endpoints, nodes)
    ensures KnownEndpoints(endpoints, nodes)[endpoints[i].address] == node
  {
    SitsOnHost(endpoints[i], node);
    forall j | i < j < |endpoints| && endpoints[j].address == endpoints[i].address
      ensures Hostname(endpoints[j]) !in nodes
    {
      ElsewhereIff(endpoints[j], nodes);
    }
    LastHostWins(endpoints, nodes, i);
  }

  function SliceInfoOf(k: ObjectKey, es: SliceObject, nodes: set<NodeName>): SliceInfo {
    SliceInfo(k, ObjectKey(k.namespace, es.serviceName), (set p | p in es.ports), KnownEndpoints(es.endpoints, nodes))
  }

  function NodeOp(n: NodeName, isEdge: Lookup<bool>): Option<Op> {
    match isEdge
    case Failed => None
    case Found(true) => Some(AddNode(n))
    case _ => Some(RemoveNode(n))
  }

  function ServiceOp(k: ObjectKey, got: Lookup<ServiceObject>): Option<Op> {
    if got.Failed? then None
    else if got.NotFound? || ShouldSkip(got.item) then Some(CleanupService(k))
    else Some(UpdateService(k, SpecOf(got.item)))
  }

  function SliceOp(k: ObjectKey, slice: Lookup<SliceObject>, service: Lookup<ServiceObject>,
                   nodes: set<NodeName>): Option<Op> {
    if slice.Failed? then None
    else if slice.NotFound? || slice.item.terminating then Some(DeleteSlice(k))
    else if slice.item.serviceName == "" || service.Failed? then None
    else if service.NotFound? || ShouldSkip(service.item)
    then Some(CleanupService(ObjectKey(k.namespace, slice.item.serviceName)))
    else Some(UpdateSlice(SliceInfoOf(k, slice.item, nodes), SpecOf(service.item)))
  }

  // ---------- which steps arise ----------

  /** Endpoint objects for the given addresses. */
  ghost function EndpointObjects(m: map<IP, NodeName>): seq<EndpointObject>
    decreases m.Keys
  {
    if m == map[] then [] else
    var ip :| ip in m;
    EndpointObjects(m - {ip}) + [EndpointObject(ip, None, m[ip])]
  }

  lemma {:induction false} KnownAppend(endpoints: seq<EndpointObject>, last: EndpointObject, nodes: set<NodeName>)
    requires Hostname(last) in nodes
    ensures KnownEndpoints(endpoints + [last], nodes) ==
      KnownEndpoints(endpoints, nodes)[last.address := Hostname(last)]
  {
    assert (endpoints + [last])[..|endpoints|] == endpoints;
  }

  lemma {:induction false} PutBack(m: map<IP, NodeName>, ip: IP)
    requires ip in m
    ensures (m - {ip})[ip := m[ip]] == m && (m - {ip}).Values <= m.Values && m[ip] in m.Values
  {}

  lemma {:induction false} ObjectsAreKnown(m: map<IP, NodeName>, nodes: set<NodeName>)
    requires m.Values <= nodes
    ensures KnownEndpoints(EndpointObjects(m), nodes) == m
    decreases m.Keys
  {
    if m != map[] {
      var ip :| ip in m && EndpointObjects(m) == EndpointObjects(m - {ip}) + [EndpointObject(ip, None, m[ip])];
      PutBack(m, ip);
      ObjectsAreKnown(m - {ip}, nodes);
      KnownAppend(EndpointObjects(m - {ip}), EndpointObject(ip, None, m[ip]), nodes);
    }
  }

  ghost function PortList(ports: set<Port>): (r: seq<Port>)
    ensures forall p :: p in r <==> p in ports
  {
    if ports == {} then [] else
    var p :| p in ports;
    PortList(ports - {p}) + [p]
  }

  ghost function ServiceFor(spec: ServiceSpec): ServiceObject {
    ServiceObject("ClusterIP", spec.clusterIP, 1, spec.sessionAffinity, spec.stickyMaxAgeSeconds)
  }

  ghost function SliceFor(es: SliceInfo): SliceObject {
    SliceObject(false, es.serviceKey.name, PortList(es.ports), EndpointObjects(es.endpoints))
  }

  /** A slice sync arises from some slice and service objects if and only if it is a real step. */
  lemma {:induction false} SliceStepArisesIff(s: System, es: SliceInfo, spec: ServiceSpec)
    ensures Real(s, UpdateSlice(es, spec)) <==>
      exists slice, service :: SliceOp(es.key, slice, service, s.tables.nodes) == Some(UpdateSlice(es, spec))
  {
    if Real(s, UpdateSlice(es, spec)) {
      ObjectsAreKnown(es.endpoints, s.tables.nodes);
      assert (set p | p in PortList(es.ports)) == es.ports;
      assert SliceInfoOf(es.key, SliceFor(es), s.tables.nodes) == es;
      assert SliceOp(es.key, Found(SliceFor(es)), Found(ServiceFor(spec)), s.tables.nodes) ==
        Some(UpdateSlice(es, spec));
    }
  }

  lemma {:induction false} ServiceStepArisesIff(s: System, k: ObjectKey, spec: ServiceSpec)
    ensures Real(s, UpdateService(k, spec)) <==> exists got :: ServiceOp(k, got) == Some(UpdateService(k, spec))
  {
    if Real(s, UpdateService(k, spec)) {
      assert ServiceOp(k, Found(ServiceFor(spec))) == Some(UpdateService(k, spec));
    }
  }

  /** A reconcile takes at most one step. */
  ghost function TakeStep(s: System, op: Option<Op>): System {
    if op.None? then s else Apply(s, op.value)
  }

  /** An unallocated map is empty, and a service with a cluster IP has its maps. */
  ghost predicate ServiceOk(svc: ServiceInfo) {
    && (!svc.made ==> svc.endpointMap == map[] && svc.endpointToNodes == map[])
    && (svc.clusterIP != "" ==> svc.made)
  }

  ghost predicate ServicesOk(services: map<ObjectKey, ServiceInfo>) {
    forall k <- services :: ServiceOk(services[k])
  }

  class Controller {
    var serviceMap: map<ObjectKey, ServiceInfo>
    var endpointSliceMap: map<ObjectKey, SliceInfo>
    var nodeSet: NodeMap
    const keeper: LoadBalanceConfigKeeper
    /** Counts steps, to stamp what is queued. */
    var now: nat

    ghost predicate Valid()
      reads this, keeper
    {
      && keeper.Valid() && Ready()
      && Backed(BindingsIn(nodeSet), RulesIn(nodeSet))
    }

    ghost predicate Ready()
      reads this
    {
      WellFormed(nodeSet) && ServicesOk(serviceMap) && Keyed(endpointSliceMap)
    }

    ghost function CurrentTables(): Tables
      reads this
    {
      TablesOf(serviceMap, endpointSliceMap, nodeSet)
    }

    ghost function State(): System
      reads this, keeper
    {
      System(now, CurrentTables(), keeper.State())
    }

    /** In every valid state a node announces only service ports it has endpoints for, and no
        endpoint set is empty. */
    lemma {:induction false} ServicePortsHaveEndpoints(n: NodeName)
      requires Valid() && n in nodeSet
      ensures nodeSet[n].servicePortMap.Keys <= nodeSet[n].endpointMap.Keys
      ensures forall spn <- nodeSet[n].endpointMap :: nodeSet[n].endpointMap[spn] != {}
    {
      var node := nodeSet[n];
      forall spn | spn in node.servicePortMap
        ensures spn in node.endpointMap
      {
        assert Binding(Slot(n, spn), node.servicePortMap[spn]) in BindingsIn(nodeSet);
        var r :| r in RulesIn(nodeSet) && r.slot == Slot(n, spn);
      }
    }

    constructor (scheduler: string)
      ensures Valid() && fresh(keeper) && State() == EMPTY
    {
      serviceMap, endpointSliceMap, nodeSet, now := map[], map[], map[], 0;
      keeper := new LoadBalanceConfigKeeper(scheduler);
    }

    method AddServicePortToNode(n: NodeName, spn: ServicePortName, sp: ServicePort)
      requires WellFormed(nodeSet)
      modifies this`nodeSet
      ensures WellFormed(nodeSet) && nodeSet.Keys == old(nodeSet).Keys + {n}
      ensures RulesIn(nodeSet) == old(RulesIn(nodeSet))
      ensures BindingsIn(nodeSet) == Unbind(old(BindingsIn(nodeSet)), {Slot(n, spn)}) + {Binding(Slot(n, spn), sp)}
    {
      PutPort(nodeSet, n, spn, sp);
      var node := NodeOrNew(nodeSet, n);
      nodeSet := nodeSet[n := node.(servicePortMap := node.servicePortMap[spn := sp])];
    }

    method AddEndpointToNode(n: NodeName, spn: ServicePortName, e: Endpoint) returns (added: bool)
      requires WellFormed(nodeSet)
      modifies this`nodeSet
      ensures WellFormed(nodeSet) && nodeSet.Keys == old(nodeSet).Keys + {n}
      ensures added <==> Rule(Slot(n, spn), e) !in old(RulesIn(nodeSet))
      ensures RulesIn(nodeSet) == old(RulesIn(nodeSet)) + {Rule(Slot(n, spn), e)}
      ensures BindingsIn(nodeSet) == old(BindingsIn(nodeSet))
    {
      var node := NodeOrNew(nodeSet, n);
      var endpointSet := Get(node.endpointMap, spn);
      if e in endpointSet {
        return false;
      }
      PutEndpoint(nodeSet, n, spn, e);
      nodeSet := nodeSet[n := node.(endpointMap := node.endpointMap[spn := endpointSet + {e}])];
      return true;
    }

    method RemoveEndpointFromNode(n: NodeName, spn: ServicePortName, e: Endpoint)
      requires WellFormed(nodeSet)
      modifies this`nodeSet
      ensures WellFormed(nodeSet) && nodeSet.Keys == old(nodeSet).Keys
      ensures RulesIn(nodeSet) == old(RulesIn(nodeSet)) - {Rule(Slot(n, spn), e)}
      ensures BindingsIn(nodeSet) == if HasRule(RulesIn(nodeSet), Slot(n, spn)) then old(BindingsIn(nodeSet))
                                     else Unbind(old(BindingsIn(nodeSet)), {Slot(n, spn)})
    {
      if n !in nodeSet {
        return;
      }
      var node := nodeSet[n];
      var eps := Get(node.endpointMap, spn) - {e};
      if eps == {} {
        CutEndpoint(nodeSet, n, spn, e, node.endpointMap - {spn});
        node := node.(endpointMap := node.endpointMap - {spn});
        CutPort(nodeSet[n := node], n, spn);
        node := node.(servicePortMap := node.servicePortMap - {spn});
      } else {
        CutEndpoint(nodeSet, n, spn, e, node.endpointMap[spn := eps]);
        node := node.(endpointMap := node.endpointMap[spn := eps]);
      }
      nodeSet := nodeSet[n := node];
    }

    method RemoveServicePortFromNode(n: NodeName, spn: ServicePortName)
      requires WellFormed(nodeSet)
      modifies this`nodeSet
      ensures WellFormed(nodeSet) && nodeSet.Keys == old(nodeSet).Keys
      ensures RulesIn(nodeSet) == old(RulesIn(nodeSet))
      ensures BindingsIn(nodeSet) == Unbind(old(BindingsIn(nodeSet)), {Slot(n, spn)})
    {
      if n !in nodeSet {
        return;
      }
      CutPort(nodeSet, n, spn);
      var node := nodeSet[n];
      nodeSet := nodeSet[n := node.(servicePortMap := node.servicePortMap - {spn})];
    }

    /** The body of the addition loop: one endpoint of one port. */
    method AddOne(next: SliceInfo, port: Port, ip: IP, sp: ServicePort) returns (added: bool)
      requires WellFormed(nodeSet) && ip in next.endpoints
      modifies this`nodeSet
      ensures WellFormed(nodeSet)
      ensures Flat(nodeSet) == AddRule(old(Flat(nodeSet)), RuleFor(next, port, ip), sp)
      ensures added <==> RuleFor(next, port, ip) !in old(RulesIn(nodeSet))
    {
      var spn := ServicePortName(next.serviceKey, port);
      AddServicePortToNode(next.endpoints[ip], spn, sp);
      added := AddEndpointToNode(next.endpoints[ip], spn, Endpoint(ip, port.number));
    }

    /** The addition loop's inner loop: every endpoint of the slice, for one port. */
    method AddPortEndpoints(svc0: ServiceInfo, next: SliceInfo, port: Port, serviceChanged: bool)
      returns (svc: ServiceInfo, changed: set<NodeName>)
      requires WellFormed(nodeSet) && svc0.made
      modifies this`nodeSet
      ensures WellFormed(nodeSet)
      ensures
        var added := RulesOf(next.(ports := {port}));
        && Flat(nodeSet) == AddRules(old(Flat(nodeSet)), FlatService(svc0), added)
        && changed == Marked(old(RulesIn(nodeSet)), added, serviceChanged)
        && svc == svc0.(endpointMap := svc0.endpointMap[port := Get(svc0.endpointMap, port) + EndpointsOf(added)],
                        endpointToNodes := svc.endpointToNodes)
        && OwnersIn(svc.endpointToNodes) == Own(OwnersIn(svc0.endpointToNodes), added)
    {
      svc, changed := svc0, {};
      var sp := ServicePort(svc.clusterIP, port, svc.sessionAffinity, svc.stickyMaxAgeSeconds);
      var endpointSet := Get(svc.endpointMap, port);
      var ips := next.endpoints.Keys;
      ghost var base := Flat(nodeSet);
      UptoEnds(next, port);
      assert Flat(nodeSet) == AddRules(base, FlatService(svc0), {});
      while ips != {}
        invariant ips <= next.endpoints.Keys
        invariant WellFormed(nodeSet)
        invariant Flat(nodeSet) == AddRules(base, FlatService(svc0), Upto(next, port, ips))
        invariant changed == Marked(base.rules, Upto(next, port, ips), serviceChanged)
        invariant svc == svc0.(endpointToNodes := svc.endpointToNodes)
        invariant endpointSet == Get(svc0.endpointMap, port) + EndpointsOf(Upto(next, port, ips))
        invariant OwnersIn(svc.endpointToNodes) == Own(OwnersIn(svc0.endpointToNodes), Upto(next, port, ips))
      {
        var ip :| ip in ips;
        ghost var done, x := Upto(next, port, ips), RuleFor(next, port, ip);
        UptoStep(next, port, ips, ip, Get(svc0.endpointMap, port));
        AddRulesStep(base, FlatService(svc0), done, x);
        MarkedStep(base.rules, done, serviceChanged, x);
        OwnStep(svc.endpointToNodes, OwnersIn(svc0.endpointToNodes), done, x);
        ips := ips - {ip};
        endpointSet := endpointSet + {Endpoint(ip, port.number)};
        svc := svc.(endpointToNodes := svc.endpointToNodes[Endpoint(ip, port.number) := next.endpoints[ip]]);
        var added := AddOne(next, port, ip, sp);
        if serviceChanged || added {
          changed := changed + {next.endpoints[ip]};
        }
      }
      svc := svc.(endpointMap := svc.endpointMap[port := endpointSet]);
    }

    /** The first half of the sync: add every endpoint of the new slice. */
    method AddNewEndpoints(svc0: ServiceInfo, next: SliceInfo, serviceChanged: bool)
      returns (svc: ServiceInfo, changed: set<NodeName>)
      requires WellFormed(nodeSet) && (next.ports != {} ==> svc0.made)
      modifies this`nodeSet
      ensures WellFormed(nodeSet)
      ensures Flat(nodeSet) == AddRules(old(Flat(nodeSet)), FlatService(svc0), RulesOf(next))
      ensures FlatService(svc) == AddToService(FlatService(svc0), next.ports, RulesOf(next))
      ensures changed == Marked(old(RulesIn(nodeSet)), RulesOf(next), serviceChanged)
    {
      svc, changed := svc0, {};
      var ports := next.ports;
      ghost var base, fsvc := Flat(nodeSet), FlatService(svc0);
      RulesUptoEnds(next);
      assert Flat(nodeSet) == AddRules(base, fsvc, {});
      assert FlatService(svc) == AddToService(fsvc, {}, {});
      while ports != {}
        invariant ports <= next.ports
        invariant WellFormed(nodeSet)
        invariant Flat(nodeSet) == AddRules(base, fsvc, RulesUpto(next, ports))
        invariant FlatService(svc) == AddToService(fsvc, next.ports - ports, RulesUpto(next, ports))
        invariant changed == Marked(base.rules, RulesUpto(next, ports), serviceChanged)
      {
        var port :| port in ports;
        ghost var done, added, before := RulesUpto(next, ports), RulesOf(next.(ports := {port})), svc;
        RulesUptoStep(next, ports, port);
        AddRulesCompose(base, fsvc, FlatService(svc), done, added);
        MarkedCompose(base.rules, done, added, serviceChanged);
        AddToServiceCompose(fsvc, next.ports - ports, done, port, added);
        ports := ports - {port};
        var names: set<NodeName>;
        svc, names := AddPortEndpoints(svc, next, port, serviceChanged);
        changed := changed + names;
        ServicePortAdded(before, port, added, svc.endpointToNodes);
      }
    }

    /** The body of the removal loop, for an endpoint that is dropped. */
    method CutOne(prev: SliceInfo, next: SliceInfo, port: Port, ip: IP)
      requires WellFormed(nodeSet) && ip in prev.endpoints
      modifies this`nodeSet
      ensures WellFormed(nodeSet)
      ensures Flat(nodeSet) ==
        CutRule(old(Flat(nodeSet)), next.ports, RuleFor(prev.(serviceKey := next.serviceKey), port, ip))
    {
      var spn := ServicePortName(next.serviceKey, port);
      RemoveEndpointFromNode(prev.endpoints[ip], spn, Endpoint(ip, port.number));
      if port !in next.ports {
        RemoveServicePortFromNode(prev.endpoints[ip], spn);
      }
    }

    /** The removal loop's inner loop: every endpoint of the old slice, for one port. */
    method RemovePortEndpoints(svc0: ServiceInfo, prev: SliceInfo, next: SliceInfo, port: Port)
      returns (svc: ServiceInfo, changed: set<NodeName>)
      requires WellFormed(nodeSet)
      modifies this`nodeSet
      ensures WellFormed(nodeSet)
      ensures
        var dropped := Dropped(prev.(ports := {port}), next);
        var left := Get(svc0.endpointMap, port) - EndpointsOf(dropped);
        && Flat(nodeSet) == CutRules(old(Flat(nodeSet)), next.ports, dropped)
        && changed == NodesOf(dropped)
        && svc == svc0.(
             endpointMap := if left == {} then svc0.endpointMap - {port} else svc0.endpointMap[port := left],
             endpointToNodes := svc.endpointToNodes)
        && OwnersIn(svc.endpointToNodes) == Disown(OwnersIn(svc0.endpointToNodes), EndpointsOf(dropped))
    {
      svc, changed := svc0, {};
      var endpointSet := Get(svc.endpointMap, port);
      var ips := prev.endpoints.Keys;
      ghost var base, owners := Flat(nodeSet), OwnersIn(svc0.endpointToNodes);
      DroppedUptoEnds(prev, next, port);
      assert base == CutRules(base, next.ports, {});
      assert owners == Disown(owners, EndpointsOf({}));
      while ips != {}
        invariant ips <= prev.endpoints.Keys
        invariant WellFormed(nodeSet)
        invariant Flat(nodeSet) == CutRules(base, next.ports, DroppedUpto(prev, next, port, ips))
        invariant changed == NodesOf(DroppedUpto(prev, next, port, ips))
        invariant svc == svc0.(endpointToNodes := svc.endpointToNodes)
        invariant endpointSet == Get(svc0.endpointMap, port) - EndpointsOf(DroppedUpto(prev, next, port, ips))
        invariant OwnersIn(svc.endpointToNodes) == Disown(owners, EndpointsOf(DroppedUpto(prev, next, port, ips)))
      {
        var ip :| ip in ips;
        DroppedUptoStep(prev, next, port, ips, ip);
        if port !in next.ports || ip !in next.endpoints {
          ghost var done := DroppedUpto(prev, next, port, ips);
          ghost var x := RuleFor(prev.(serviceKey := next.serviceKey), port, ip);
          CutRulesStep(base, next.ports, done, x);
          DisownStep(svc.endpointToNodes, owners, done, x);
          EndpointsStep(done, x, Get(svc0.endpointMap, port));
          endpointSet := endpointSet - {Endpoint(ip, port.number)};
          svc := svc.(endpointToNodes := svc.endpointToNodes - {Endpoint(ip, port.number)});
          CutOne(prev, next, port, ip);
          changed := changed + {prev.endpoints[ip]};
        }
        ips := ips - {ip};
      }
      svc := svc.(endpointMap := if endpointSet == {} then svc.endpointMap - {port}
                                 else svc.endpointMap[port := endpointSet]);
    }

    /** The second half of the sync: remove what the old slice had and the new one has not. */
    method RemoveOldEndpoints(svc0: ServiceInfo, prev: SliceInfo, next: SliceInfo)
      returns (svc: ServiceInfo, changed: set<NodeName>)
      requires WellFormed(nodeSet)
      modifies this`nodeSet
      ensures WellFormed(nodeSet)
      ensures Flat(nodeSet) == CutRules(old(Flat(nodeSet)), next.ports, Dropped(prev, next))
      ensures FlatService(svc) == RemoveFromService(FlatService(svc0), prev.ports, Dropped(prev, next))
      ensures changed == NodesOf(Dropped(prev, next))
    {
      svc, changed := svc0, {};
      var ports := prev.ports;
      ghost var base, fsvc := Flat(nodeSet), FlatService(svc0);
      DroppedPortsEnds(prev, next);
      assert base == CutRules(base, next.ports, {});
      assert fsvc == RemoveFromService(fsvc, {}, {});
      while ports != {}
        invariant ports <= prev.ports
        invariant WellFormed(nodeSet)
        invariant Flat(nodeSet) == CutRules(base, next.ports, DroppedPorts(prev, next, ports))
        invariant FlatService(svc) == RemoveFromService(fsvc, prev.ports - ports, DroppedPorts(prev, next, ports))
        invariant changed == NodesOf(DroppedPorts(prev, next, ports))
      {
        var port :| port in ports;
        ghost var done, dropped, before := DroppedPorts(prev, next, ports), Dropped(prev.(ports := {port}), next), svc;
        DroppedPortsStep(prev, next, ports, port);
        CutRulesCompose(base, next.ports, done, dropped);
        RemoveFromServiceCompose(fsvc, prev.ports - ports, done, port, dropped);
        assert NodesOf(done + dropped) == NodesOf(done) + NodesOf(dropped);
        ports := ports - {port};
        var names: set<NodeName>;
        svc, names := RemovePortEndpoints(svc, prev, next, port);
        changed := changed + names;
        ServicePortCut(before, port, dropped, svc.endpointMap, svc.endpointToNodes);
      }
    }

    /** The loop that hands the named nodes that exist to the keeper. */
    method HandOver(names: set<NodeName>)
      requires WellFormed(nodeSet) && Named(keeper.nodeSet)
      modifies keeper`nodeSet
      ensures Named(keeper.nodeSet) && keeper.nodeSet == Additions(old(keeper.nodeSet), nodeSet, names, now)
    {
      ghost var base := keeper.nodeSet;
      AdditionsNone(base, nodeSet, now);
      var todo, done := names, {};
      while todo != {}
        invariant todo + done == names
        invariant keeper.nodeSet == Additions(base, nodeSet, done, now)
        invariant Named(keeper.nodeSet)
      {
        var n :| n in todo;
        AdditionsStep(base, nodeSet, done, now, n);
        todo, done := todo - {n}, done + {n};
        if n in nodeSet {
          keeper.AddNode(n, now);
        }
      }
      assert done == names;
    }

    /** Queue the named nodes that exist. */
    method QueueNodes(names: set<NodeName>)
      requires WellFormed(nodeSet) && keeper.Valid()
      modifies keeper`nodeSet
      ensures keeper.Valid()
      ensures keeper.State() == Enqueue(old(keeper.State()), CurrentTables(), names, now)
    {
      AdditionsFlat(keeper.nodeSet, nodeSet, names, now, CurrentTables());
      HandOver(names);
    }

    /** Both loops of the sync: add what is new, then remove what is gone. */
    method ExchangeEndpoints(svc0: ServiceInfo, prev: SliceInfo, next: SliceInfo, serviceChanged: bool)
      returns (svc: ServiceInfo, changed: set<NodeName>)
      requires WellFormed(nodeSet) && ServiceOk(svc0) && (next.ports != {} ==> svc0.made)
      modifies this`nodeSet
      ensures WellFormed(nodeSet) && ServiceOk(svc)
      ensures
        var added, dropped := RulesOf(next), Dropped(prev, next);
        && Flat(nodeSet) ==
           CutRules(AddRules(old(Flat(nodeSet)), FlatService(svc0), added), next.ports, dropped)
        && FlatService(svc) ==
           RemoveFromService(AddToService(FlatService(svc0), next.ports, added), prev.ports, dropped)
        && changed == ChangedNodes(old(RulesIn(nodeSet)), added, dropped, serviceChanged)
    {
      var removed: set<NodeName>;
      svc, changed := AddNewEndpoints(svc0, next, serviceChanged);
      svc, removed := RemoveOldEndpoints(svc, prev, next);
      changed := changed + removed;
      SyncedServiceOk(svc0, svc, next, prev);
    }

    /** The slice sync up to the queue: returns the nodes to queue. */
    method SyncEndpointTables(next: SliceInfo, serviceChanged: bool) returns (changed: set<NodeName>)
      requires Ready()
      requires next.ports != {} ==> next.serviceKey in serviceMap && serviceMap[next.serviceKey].made
      modifies this`serviceMap, this`endpointSliceMap, this`nodeSet
      ensures Ready()
      ensures CurrentTables() == SyncSlice(old(CurrentTables()), next)
      ensures changed == QueuedBySlice(old(CurrentTables()), next, serviceChanged)
    {
      if next.key in endpointSliceMap && endpointSliceMap[next.key] == next {
        return {};
      }
      var prev := SliceOrZero(endpointSliceMap, next.key);
      var svc := if next.serviceKey in serviceMap then serviceMap[next.serviceKey] else NO_SERVICE;
      svc, changed := ExchangeEndpoints(svc, prev, next, serviceChanged);
      SyncedTables(old(CurrentTables()), serviceMap, svc, next, nodeSet);
      endpointSliceMap := endpointSliceMap[next.key := next];
      serviceMap := serviceMap[next.serviceKey := svc];
    }

    method SyncServiceEndpointsFromEndpointSlice(next: SliceInfo, serviceChanged: bool)
      requires Valid()
      requires next.ports != {} ==> next.serviceKey in serviceMap && serviceMap[next.serviceKey].made
      modifies this`serviceMap, this`endpointSliceMap, this`nodeSet, keeper`nodeSet
      ensures Valid()
      ensures CurrentTables() == SyncSlice(old(CurrentTables()), next)
      ensures keeper.State() == Enqueue(old(keeper.State()), CurrentTables(),
                                        QueuedBySlice(old(CurrentTables()), next, serviceChanged), now)
    {
      SyncBacked(CurrentTables(), next);
      var changed := SyncEndpointTables(next, serviceChanged);
      QueueNodes(changed);
    }

    method ClearNode(n: NodeName, spn: ServicePortName)
      requires WellFormed(nodeSet)
      modifies this`nodeSet
      ensures WellFormed(nodeSet) && Flat(nodeSet) == ClearSlots(old(Flat(nodeSet)), {Slot(n, spn)})
    {
      if n in nodeSet {
        CutSlot(nodeSet, n, spn);
        var node := nodeSet[n];
        nodeSet := nodeSet[n := node.(servicePortMap := node.servicePortMap - {spn},
                                      endpointMap := node.endpointMap - {spn})];
      } else {
        assert Flat(nodeSet) == ClearSlots(Flat(nodeSet), {Slot(n, spn)});
      }
    }

    /** The cleanup's inner loop: one port, on the node of every endpoint of the service. */
    method ClearPort(k: ObjectKey, port: Port, owners: map<Endpoint, NodeName>)
      requires WellFormed(nodeSet)
      modifies this`nodeSet
      ensures WellFormed(nodeSet)
      ensures Flat(nodeSet) == ClearSlots(old(Flat(nodeSet)), SlotsAt(k, {port}, NodesUnder(owners, owners.Keys)))
    {
      var todo := owners.Keys;
      ghost var base := Flat(nodeSet);
      ClearNothing(base);
      assert SlotsAt(k, {port}, NodesUnder(owners, owners.Keys - todo)) == {};
      while todo != {}
        invariant todo <= owners.Keys
        invariant WellFormed(nodeSet)
        invariant Flat(nodeSet) == ClearSlots(base, SlotsAt(k, {port}, NodesUnder(owners, owners.Keys - todo)))
      {
        var e :| e in todo;
        NodesUnderStep(k, {port}, owners, todo, e);
        assert SlotsAt(k, {port}, {owners[e]}) == {Slot(owners[e], ServicePortName(k, port))};
        ClearCompose(base, SlotsAt(k, {port}, NodesUnder(owners, owners.Keys - todo)), SlotsAt(k, {port}, {owners[e]}));
        todo := todo - {e};
        ClearNode(owners[e], ServicePortName(k, port));
      }
      assert owners.Keys - {} == owners.Keys;
    }

    /** The cleanup's outer loop: every port of the service. */
    method ClearPorts(k: ObjectKey, svc: ServiceInfo)
      requires WellFormed(nodeSet)
      modifies this`nodeSet
      ensures WellFormed(nodeSet)
      ensures Flat(nodeSet) == ClearSlots(
        old(Flat(nodeSet)),
        SlotsAt(k, svc.endpointMap.Keys, NodesUnder(svc.endpointToNodes, svc.endpointToNodes.Keys)))
    {
      var todo := svc.endpointMap.Keys;
      ghost var base, nodes := Flat(nodeSet), NodesUnder(svc.endpointToNodes, svc.endpointToNodes.Keys);
      ClearNothing(base);
      assert SlotsAt(k, svc.endpointMap.Keys - todo, nodes) == {};
      while todo != {}
        invariant todo <= svc.endpointMap.Keys
        invariant WellFormed(nodeSet)
        invariant Flat(nodeSet) == ClearSlots(base, SlotsAt(k, svc.endpointMap.Keys - todo, nodes))
      {
        var port :| port in todo;
        SlotsAtStep(k, svc.endpointMap.Keys, todo, port, nodes);
        ClearCompose(base, SlotsAt(k, svc.endpointMap.Keys - todo, nodes), SlotsAt(k, {port}, nodes));
        todo := todo - {port};
        ClearPort(k, port, svc.endpointToNodes);
      }
      assert svc.endpointMap.Keys - {} == svc.endpointMap.Keys;
    }

    method CleanupServiceInfo(k: ObjectKey)
      requires Valid()
      modifies this, keeper`nodeSet
      ensures Valid()
      ensures State() == Apply(old(State()), CleanupService(k))
    {
      ghost var before := CurrentTables();
      FlatServiceAt(serviceMap, k);
      CleanupStep(State(), k);
      if k !in serviceMap {
        now := now + 1;
        return;
      }
      var svc := serviceMap[k];
      ClearPorts(k, svc);
      CleanedTables(before, serviceMap, k, nodeSet);
      StepBacked(before, CleanupService(k));
      OwnerNodesUnder(svc);
      serviceMap := serviceMap - {k};
      SyncServiceChangesToAgent(svc);
      now := now + 1;
    }

    method SyncServiceChangesToAgent(svc: ServiceInfo)
      requires WellFormed(nodeSet) && keeper.Valid()
      modifies keeper`nodeSet
      ensures keeper.Valid()
      ensures keeper.State() ==
        Enqueue(old(keeper.State()), CurrentTables(), NodesUnder(svc.endpointToNodes, svc.endpointToNodes.Keys), now)
    {
      QueueNodes(set e | e in svc.endpointToNodes :: svc.endpointToNodes[e]);
      assert NodesUnder(svc.endpointToNodes, svc.endpointToNodes.Keys) ==
        set e | e in svc.endpointToNodes :: svc.endpointToNodes[e];
    }

    // ---------- reconciles ----------

    method AddEdgeNode(n: NodeName)
      requires Valid()
      modifies this
      ensures Valid() && State() == Apply(old(State()), AddNode(n))
      ensures endpointSliceMap == old(endpointSliceMap) && serviceMap == old(serviceMap)
    {
      EnqueueNothing(keeper.State(), CurrentTables().(nodes := nodeSet.Keys + {n}), now);
      if n !in nodeSet {
        NewNodeFlat(nodeSet, n);
        nodeSet := nodeSet[n := NewEdgeNode(n)];
      } else {
        assert nodeSet.Keys + {n} == nodeSet.Keys;
      }
      now := now + 1;
    }

    method RemoveEdgeNode(n: NodeName)
      requires Valid()
      modifies this, keeper`nodeSet, keeper`batch
      ensures Valid() && State() == Apply(old(State()), RemoveNode(n))
    {
      RemoveStep(State(), n);
      ForgetNode(n);
      now := now + 1;
    }

    /** A removed node's maps stay with the queue entries made from it. */
    method ForgetNode(n: NodeName)
      requires Valid()
      modifies this`nodeSet, keeper`nodeSet, keeper`batch
      ensures Valid() && CurrentTables() == DropNode(old(CurrentTables()), n)
      ensures keeper.State() ==
        if n in old(nodeSet) then DetachBoth(old(keeper.State()), n, now, ViewOf(old(CurrentTables()), n))
        else old(keeper.State())
    {
      DroppedTables(serviceMap, endpointSliceMap, nodeSet, n);
      if n in nodeSet {
        NodeViewIs(nodeSet, n, CurrentTables());
        keeper.LoseNode(n, nodeSet[n], now);
      }
      nodeSet := nodeSet - {n};
    }

    /** Only the cluster IP and the affinity are taken from the service object. */
    method SyncServiceInfoFromService(k: ObjectKey, spec: ServiceSpec) returns (changed: bool)
      requires Valid() && spec.clusterIP != ""
      modifies this`serviceMap
      ensures Valid()
      ensures CurrentTables() == SyncService(old(CurrentTables()), k, spec)
      ensures changed == ServiceChanged(old(CurrentTables()), k, spec)
      ensures k in serviceMap && serviceMap[k].made
    {
      var svc := if k in serviceMap then serviceMap[k] else NO_SERVICE;
      ServiceLookup(serviceMap, k);
      if svc.clusterIP == spec.clusterIP && svc.sessionAffinity == spec.sessionAffinity
         && svc.stickyMaxAgeSeconds == spec.stickyMaxAgeSeconds {
        return false;
      }
      svc := svc.(made := true, clusterIP := spec.clusterIP,
                  sessionAffinity := spec.sessionAffinity, stickyMaxAgeSeconds := spec.stickyMaxAgeSeconds);
      FlatServicesPut(serviceMap, k, svc);
      serviceMap := serviceMap[k := svc];
      return true;
    }

    method UpdateServiceInfo(k: ObjectKey, spec: ServiceSpec)
      requires Valid() && spec.clusterIP != ""
      modifies this, keeper`nodeSet
      ensures Valid() && State() == Apply(old(State()), UpdateService(k, spec))
    {
      UpdateServiceStep(State(), k, spec);
      var changed := SyncServiceInfoFromService(k, spec);
      if changed {
        OwnerNodesUnder(serviceMap[k]);
        ServiceLookup(serviceMap, k);
        SyncServiceChangesToAgent(serviceMap[k]);
      }
      now := now + 1;
    }

    method UpdateEndpointSlice(es: SliceInfo, spec: ServiceSpec)
      requires Valid() && spec.clusterIP != ""
      modifies this, keeper`nodeSet
      ensures Valid() && State() == Apply(old(State()), UpdateSlice(es, spec))
    {
      UpdateSliceStep(State(), es, spec);
      var changed := SyncServiceInfoFromService(es.serviceKey, spec);
      SyncServiceEndpointsFromEndpointSlice(es, changed);
      now := now + 1;
    }

    method CleanupEndpointsOfEndpointSlice(k: ObjectKey)
      requires Valid()
      modifies this, keeper`nodeSet
      ensures Valid() && State() == Apply(old(State()), DeleteSlice(k))
    {
      DeleteSliceStep(State(), k);
      if k in endpointSliceMap {
        ghost var before := CurrentTables();
        SyncServiceEndpointsFromEndpointSlice(Emptied(endpointSliceMap[k]), false);
        EnqueueReads(old(keeper.State()), CurrentTables(), ForgetSlice(before, k),
                     QueuedBySlice(before, Emptied(before.slices[k]), false), now);
        endpointSliceMap := endpointSliceMap - {k};
      }
      now := now + 1;
    }

    /** The recorded form of a slice: its ports, and the endpoints that sit on known nodes. */
    method MakeEndpointSliceInfo(k: ObjectKey, es: SliceObject) returns (info: SliceInfo)
      ensures info == SliceInfoOf(k, es, nodeSet.Keys)
    {
      var ports: set<Port>, endpoints: map<IP, NodeName> := {}, map[];
      for i := 0 to |es.ports|
        invariant ports == set p | p in es.ports[..i]
      {
        assert es.ports[..i + 1] == es.ports[..i] + [es.ports[i]];
        ports := ports + {es.ports[i]};
      }
      for i := 0 to |es.endpoints|
        invariant endpoints == KnownEndpoints(es.endpoints[..i], nodeSet.Keys)
      {
        assert es.endpoints[..i + 1][..i] == es.endpoints[..i];
        var node := Hostname(es.endpoints[i]);
        if node in nodeSet {
          endpoints := endpoints[es.endpoints[i].address := node];
        }
      }
      assert es.ports[..|es.ports|] == es.ports && es.endpoints[..|es.endpoints|] == es.endpoints;
      info := SliceInfo(k, ObjectKey(k.namespace, es.serviceName), ports, endpoints);
    }

    method OnNodeUpdate(n: NodeName, isEdge: Lookup<bool>)
      requires Valid()
      modifies this, keeper`nodeSet, keeper`batch
      ensures Valid() && State() == TakeStep(old(State()), NodeOp(n, isEdge))
      ensures isEdge.Failed? ==> State() == old(State())
      ensures isEdge == Found(true) ==> n in nodeSet
      ensures isEdge == Found(false) || isEdge.NotFound? ==> n !in nodeSet
      ensures nodeSet.Keys - {n} == old(nodeSet).Keys - {n}
    {
      match isEdge
      case Failed =>
      case Found(true) => AddEdgeNode(n);
      case _ => RemoveEdgeNode(n);
    }

    method OnServiceUpdate(k: ObjectKey, got: Lookup<ServiceObject>)
      requires Valid()
      modifies this, keeper`nodeSet
      ensures Valid() && State() == TakeStep(old(State()), ServiceOp(k, got))
      ensures got.Failed? ==> State() == old(State())
      ensures got.NotFound? || (got.Found? && !Proxied(got.item)) ==> k !in serviceMap
      ensures got.Found? && Proxied(got.item) ==> k in serviceMap && TakenFrom(serviceMap[k], got.item)
    {
      ghost var before := CurrentTables();
      if got.Failed? {
        return;
      }
      if got.NotFound? || ShouldSkip(got.item) {
        CleanupServiceInfo(k);
        CleanedAway(before, CurrentTables(), serviceMap, k);
      } else {
        UpdateServiceInfo(k, SpecOf(got.item));
        TakenOver(before, CurrentTables(), serviceMap, k, got.item);
      }
    }

    method OnEndpointSliceUpdate(k: ObjectKey, slice: Lookup<SliceObject>, service: Lookup<ServiceObject>)
      requires Valid()
      modifies this, keeper`nodeSet
      ensures Valid() && State() == TakeStep(old(State()), SliceOp(k, slice, service, old(nodeSet).Keys))
      ensures slice.Failed? ==> State() == old(State())
      ensures slice.NotFound? || (slice.Found? && slice.item.terminating) ==> k !in endpointSliceMap
      ensures slice.Found? && !slice.item.terminating && (slice.item.serviceName == "" || service.Failed?) ==>
        State() == old(State())
      ensures slice.Found? && !slice.item.terminating && slice.item.serviceName != "" && !service.Failed? ==>
        var svc := ObjectKey(k.namespace, slice.item.serviceName);
        if service.NotFound? || !Proxied(service.item) then svc !in serviceMap
        else
          && svc in serviceMap && TakenFrom(serviceMap[svc], service.item)
          && k in endpointSliceMap && endpointSliceMap[k].key == k && endpointSliceMap[k].serviceKey == svc
          && (forall p :: p in endpointSliceMap[k].ports <==> p in slice.item.ports)
          && endpointSliceMap[k].endpoints == KnownEndpoints(slice.item.endpoints, old(nodeSet).Keys)
    {
      ghost var before := CurrentTables();
      if slice.Failed? {
        return;
      }
      if slice.NotFound? || slice.item.terminating {
        CleanupEndpointsOfEndpointSlice(k);
        SliceGone(before, CurrentTables(), k);
        return;
      }
      if slice.item.serviceName == "" || service.Failed? {
        return;
      }
      if service.NotFound? || ShouldSkip(service.item) {
        CleanupServiceInfo(ObjectKey(k.namespace, slice.item.serviceName));
        CleanedAway(before, CurrentTables(), serviceMap, ObjectKey(k.namespace, slice.item.serviceName));
      } else {
        var info := MakeEndpointSliceInfo(k, slice.item);
        UpdateEndpointSlice(info, SpecOf(service.item));
        SliceTaken(before, CurrentTables(), serviceMap, info, service.item);
      }
    }

    /** One node visited by the periodic checker. */
    method CheckNodeRules(n: NodeName)
      requires Valid() && n in nodeSet
      modifies this`now, keeper`nodeSet
      ensures Valid() && State() == Apply(old(State()), CheckNode(n))
    {
      ghost var before := State();
      keeper.AddNodeIfNotPresent(n, QueuedNode(now, Shared));
      CheckStep(before, n);
      Tick(Apply(before, CheckNode(n)));
    }

    /** The keeper's write loop starts a round. */
    method StartRound()
      requires Valid()
      modifies this`now, keeper`nodeSet, keeper`batch
      ensures Valid() && State() == Apply(old(State()), ProxySpec.TakeBatch)
    {
      ghost var before := State();
      keeper.TakeBatch();
      StartStep(before);
      Tick(Apply(before, ProxySpec.TakeBatch));
    }

    /** The end of a step of the keeper's. */
    method Tick(ghost next: System)
      requires Valid() && next == System(now + 1, CurrentTables(), keeper.State())
      modifies this`now
      ensures Valid() && State() == next
    {
      now := now + 1;
    }

    /** The keeper's write loop writes one node of its round, as the node is at that moment. */
    method WriteNext(n: NodeName, found: bool, accepted: bool) returns (ok: bool, servers: seq<VirtualServer>)
      requires Valid() && n in keeper.batch
      modifies this`now, keeper
      ensures Valid() && State() == Apply(old(State()), WriteNode(n, ok))
      ensures IsRendering(servers, Held(old(keeper.batch)[n], nodeSet, n), keeper.ipvsScheduler)
      ensures ok <==> found && (accepted || (n in old(keeper.configs) && old(keeper.configs)[n] == servers))
      ensures keeper.configs == if ok then old(keeper.configs)[n := servers] else old(keeper.configs)
    {
      ghost var before := State();
      ok, servers := WriteCurrent(n, found, accepted);
      WriteStep(before, n, ok);
      now := now + 1;
    }

    method WriteCurrent(n: NodeName, found: bool, accepted: bool) returns (ok: bool, servers: seq<VirtualServer>)
      requires keeper.Valid() && WellFormed(nodeSet) && n in keeper.batch
      modifies keeper
      ensures keeper.Valid()
      ensures keeper.State() == Write(old(keeper.State()), n, ok, ViewOf(CurrentTables(), n), now)
      ensures IsRendering(servers, Held(old(keeper.batch)[n], nodeSet, n), keeper.ipvsScheduler)
      ensures ok <==> found && (accepted || (n in old(keeper.configs) && old(keeper.configs)[n] == servers))
      ensures keeper.configs == if ok then old(keeper.configs)[n := servers] else old(keeper.configs)
    {
      NodeViewIs(nodeSet, n, CurrentTables());
      ok, servers := keeper.WriteNode(n, nodeSet, now, found, accepted);
    }
  }

  /** What is recorded of a service is what its object says; a timeout counts only with client-IP
      affinity. */
  predicate TakenFrom(svc: ServiceInfo, item: ServiceObject) {
    && svc.clusterIP == item.clusterIP && svc.sessionAffinity == item.sessionAffinity
    && svc.stickyMaxAgeSeconds == if item.sessionAffinity == "ClientIP" then item.affinityTimeout else 0
  }

  lemma {:induction false} CleanedAway(t: Tables, u: Tables, services: map<ObjectKey, ServiceInfo>, k: ObjectKey)
    requires u == Cleanup(t, k) && u.services == FlatServices(services)
    ensures k !in services
  {
    FlatServiceAt(services, k);
  }

  lemma {:induction false} TakenOver(t: Tables, u: Tables, services: map<ObjectKey, ServiceInfo>, k: ObjectKey,
                                     item: ServiceObject)
    requires u == SyncService(t, k, SpecOf(item)) && u.services == FlatServices(services) && item.clusterIP != ""
    ensures k in services && TakenFrom(services[k], item)
  {
    FlatServiceAt(services, k);
  }

  lemma {:induction false} SliceGone(t: Tables, u: Tables, k: ObjectKey)
    requires u == ForgetSlice(t, k)
    ensures k !in u.slices
  {}

  lemma {:induction false} SliceTaken(t: Tables, u: Tables, services: map<ObjectKey, ServiceInfo>, es: SliceInfo,
                                      item: ServiceObject)
    requires u == SyncSlice(SyncService(t, es.serviceKey, SpecOf(item)), es) && u.services == FlatServices(services)
    requires item.clusterIP != ""
    ensures es.serviceKey in services && TakenFrom(services[es.serviceKey], item)
    ensures es.key in u.slices && u.slices[es.key] == es
  {
    FlatServiceAt(services, es.serviceKey);
  }

  // ---------- steps, spelled out ----------

  lemma {:induction false} UpdateSliceStep(s: System, es: SliceInfo, spec: ServiceSpec)
    ensures
      var t := SyncService(s.tables, es.serviceKey, spec);
      var queued := QueuedBySlice(t, es, ServiceChanged(s.tables, es.serviceKey, spec));
      Apply(s, UpdateSlice(es, spec)) ==
      System(s.now + 1, SyncSlice(t, es), Enqueue(s.queue, SyncSlice(t, es), queued, s.now))
  {}

  lemma {:induction false} UpdateServiceStep(s: System, k: ObjectKey, spec: ServiceSpec)
    ensures
      var t := SyncService(s.tables, k, spec);
      Apply(s, UpdateService(k, spec)) ==
      System(s.now + 1, t,
             if ServiceChanged(s.tables, k, spec)
             then Enqueue(s.queue, t, OwnerNodes(ServiceOrZero(t.services, k)), s.now)
             else s.queue)
  {}

  lemma {:induction false} CleanupStep(s: System, k: ObjectKey)
    ensures
      var t := Cleanup(s.tables, k);
      Apply(s, CleanupService(k)) ==
      System(s.now + 1, t,
             if k in s.tables.services then Enqueue(s.queue, t, OwnerNodes(s.tables.services[k]), s.now) else s.queue)
  {}

  lemma {:induction false} CheckStep(s: System, n: NodeName)
    requires n in s.tables.nodes
    ensures Apply(s, CheckNode(n)) == System(s.now + 1, s.tables, EnqueueIfAbsent(s.queue, n, Entry(s.now, Live)))
  {
    EnqueueNothing(EnqueueIfAbsent(s.queue, n, Entry(s.now, Live)), s.tables, s.now);
  }

  lemma {:induction false} DeleteSliceStep(s: System, k: ObjectKey)
    ensures
      var t := ForgetSlice(s.tables, k);
      Apply(s, DeleteSlice(k)) ==
      System(s.now + 1, t,
             if k in s.tables.slices
             then Enqueue(s.queue, t, QueuedBySlice(s.tables, Emptied(s.tables.slices[k]), false), s.now)
             else s.queue)
  {
    EnqueueNothing(s.queue, ForgetSlice(s.tables, k), s.now);
  }

  lemma {:induction false} RemoveStep(s: System, n: NodeName)
    ensures Apply(s, RemoveNode(n)) ==
      System(s.now + 1, DropNode(s.tables, n),
             if n in s.tables.nodes then DetachBoth(s.queue, n, s.now, ViewOf(s.tables, n)) else s.queue)
  {
    EnqueueNothing(ApplyQueue(s.queue, s.tables, RemoveNode(n), s.now), DropNode(s.tables, n), s.now);
  }

  lemma {:induction false} StartStep(s: System)
    ensures Apply(s, ProxySpec.TakeBatch) == System(s.now + 1, s.tables, Take(s.queue))
  {
    EnqueueNothing(Take(s.queue), s.tables, s.now);
  }

  lemma {:induction false} WriteStep(s: System, n: NodeName, ok: bool)
    ensures Apply(s, WriteNode(n, ok)) ==
      System(s.now + 1, s.tables, Write(s.queue, n, ok, ViewOf(s.tables, n), s.now))
  {
    EnqueueNothing(Write(s.queue, n, ok, ViewOf(s.tables, n), s.now), s.tables, s.now);
  }

  ghost function TablesOf(services: map<ObjectKey, ServiceInfo>, slices: map<ObjectKey, SliceInfo>,
                          nodes: NodeMap): Tables {
    Tables(FlatServices(services), slices, nodes.Keys, BindingsIn(nodes), RulesIn(nodes))
  }

  ghost function Additions(base: NodeQueue, nodes: NodeMap, names: set<NodeName>, now: nat): NodeQueue {
    base + Constant(names * nodes.Keys, QueuedNode(now, Shared))
  }

  lemma {:induction false} AdditionsNone(base: NodeQueue, nodes: NodeMap, now: nat)
    ensures Additions(base, nodes, {}, now) == base
  {}

  lemma {:induction false} AdditionsStep(base: NodeQueue, nodes: NodeMap, names: set<NodeName>, now: nat, n: NodeName)
    ensures Additions(base, nodes, names + {n}, now) ==
      if n in nodes then Additions(base, nodes, names, now)[n := QueuedNode(now, Shared)]
      else Additions(base, nodes, names, now)
  {}

  /** What the maps of a node hold is what the flat tables say of it. */
  lemma {:induction false} NodeViewIs(nodes: NodeMap, n: NodeName, t: Tables)
    requires WellFormed(nodes) && t.bindings == BindingsIn(nodes) && t.rules == RulesIn(nodes)
    ensures NodeView(NodeOrNew(nodes, n)) == ViewOf(t, n)
  {}

  lemma {:induction false} AdditionsFlat(base: NodeQueue, nodes: NodeMap, names: set<NodeName>, now: nat, t: Tables)
    requires t.nodes == nodes.Keys
    ensures EntriesOf(Additions(base, nodes, names, now)) ==
      EntriesOf(base) + Constant(names * t.nodes, Entry(now, Live))
  {
    EntriesAre(base);
    EntriesAre(Additions(base, nodes, names, now));
  }

  lemma {:induction false} FlatServicesPut(m: map<ObjectKey, ServiceInfo>, k: ObjectKey, svc: ServiceInfo)
    ensures FlatServices(m[k := svc]) == FlatServices(m)[k := FlatService(svc)]
    ensures FlatServices(m - {k}) == FlatServices(m) - {k}
  {
    FlatServicesAre(m);
    FlatServicesAre(m[k := svc]);
    FlatServicesAre(m - {k});
  }

  lemma {:induction false} FlatServiceAt(m: map<ObjectKey, ServiceInfo>, k: ObjectKey)
    ensures k in FlatServices(m) <==> k in m
    ensures k in m ==> FlatServices(m)[k] == FlatService(m[k])
  {
    FlatServicesAre(m);
  }

  lemma {:induction false} ServiceLookup(m: map<ObjectKey, ServiceInfo>, k: ObjectKey)
    ensures FlatService(if k in m then m[k] else NO_SERVICE) == ServiceOrZero(FlatServices(m), k)
  {
    FlatServicesAre(m);
    assert BackingsIn(map[]) == {} && OwnersIn(map[]) == {};
  }

  lemma {:induction false} NoOwners(m: map<Endpoint, NodeName>)
    ensures OwnersIn(m) == {} ==> m == map[]
  {
    assert forall e <- m :: Owner(e, m[e]) in OwnersIn(m);
  }

  /** A sync never writes to the unallocated maps of a service. */
  lemma {:induction false} SyncedServiceOk(svc: ServiceInfo, after: ServiceInfo, next: SliceInfo, prev: SliceInfo)
    requires ServiceOk(svc) && (next.ports != {} ==> svc.made)
    requires FlatService(after) ==
      RemoveFromService(AddToService(FlatService(svc), next.ports, RulesOf(next)), prev.ports, Dropped(prev, next))
    ensures ServiceOk(after)
  {
    if !svc.made {
      assert RulesOf(next) == {};
      assert FlatService(after).ports == {} && FlatService(after).owners == {};
      assert after.endpointMap.Keys == {};
      NoOwners(after.endpointToNodes);
    }
  }

  /** The two halves of the loop, put together, are the specification's slice sync. */
  lemma {:induction false} SyncedTables(before: Tables, services: map<ObjectKey, ServiceInfo>, after: ServiceInfo,
                                        next: SliceInfo, nodes: NodeMap)
    requires before.services == FlatServices(services) && !Unchanged(before, next)
    requires
      var svc := FlatService(if next.serviceKey in services then services[next.serviceKey] else NO_SERVICE);
      var prev := SliceOrZero(before.slices, next.key);
      var added, dropped := RulesOf(next), Dropped(prev, next);
      && FlatService(after) == RemoveFromService(AddToService(svc, next.ports, added), prev.ports, dropped)
      && Flat(nodes) ==
         CutRules(AddRules(Rules(before.nodes, before.bindings, before.rules), svc, added), next.ports, dropped)
    ensures
      TablesOf(services[next.serviceKey := after], before.slices[next.key := next], nodes) == SyncSlice(before, next)
  {
    ServiceLookup(services, next.serviceKey);
    FlatServicesPut(services, next.serviceKey, after);
  }

  lemma {:induction false} CleanedTables(before: Tables, services: map<ObjectKey, ServiceInfo>, k: ObjectKey,
                                         nodes: NodeMap)
    requires before.services == FlatServices(services) && k in services
    requires
      var svc := services[k];
      Flat(nodes) == ClearSlots(
        Rules(before.nodes, before.bindings, before.rules),
        SlotsAt(k, svc.endpointMap.Keys, NodesUnder(svc.endpointToNodes, svc.endpointToNodes.Keys)))
    ensures TablesOf(services - {k}, before.slices, nodes) == Cleanup(before, k)
  {
    FlatServicesAre(services);
    FlatServicesPut(services, k, services[k]);
    forall slot {
      CleanedSlots(k, services[k], slot);
    }
    var u := Cleanup(before, k);
    assert u.rules == RulesIn(nodes);
    assert u.bindings == BindingsIn(nodes);
  }

  lemma {:induction false} NewNodeFlat(nodes: NodeMap, n: NodeName)
    requires n !in nodes
    ensures Flat(nodes[n := NewEdgeNode(n)]) == Rules(nodes.Keys + {n}, BindingsIn(nodes), RulesIn(nodes))
  {}

  lemma {:induction false} DropNodeFlat(nodes: NodeMap, n: NodeName)
    ensures Flat(nodes - {n}) == Rules(
      nodes.Keys - {n},
      set b | b in BindingsIn(nodes) && b.slot.node != n,
      set r | r in RulesIn(nodes) && r.slot.node != n)
  {}

  lemma {:induction false} DroppedTables(services: map<ObjectKey, ServiceInfo>, slices: map<ObjectKey, SliceInfo>,
                                        nodes: NodeMap, n: NodeName)
    requires WellFormed(nodes) && Backed(BindingsIn(nodes), RulesIn(nodes))
    ensures WellFormed(nodes - {n}) && Backed(BindingsIn(nodes - {n}), RulesIn(nodes - {n}))
    ensures TablesOf(services, slices, nodes - {n}) == DropNode(TablesOf(services, slices, nodes), n)
  {
    DropNodeFlat(nodes, n);
    StepBacked(TablesOf(services, slices, nodes), RemoveNode(n));
  }

  /** Queueing looks only at the node tables. */
  lemma {:induction false} EnqueueReads(q: Queue, t: Tables, u: Tables, names: set<NodeName>, now: nat)
    requires t.nodes == u.nodes && t.bindings == u.bindings && t.rules == u.rules
    ensures Enqueue(q, t, names, now) == Enqueue(q, u, names, now)
  {}
}
