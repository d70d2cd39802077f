/** How the nested tables of the source read as flat sets, and what one map update does to them. */
module ProxyFlat {
  import opened ProxyTypes
  import opened ProxySpec

  /** Every rule in the nodes' endpoint maps. */
  ghost function RulesIn(nodes: NodeMap): (r: set<Rule>)
    ensures forall x :: x in r <==>
      x.slot.node in nodes && x.slot.spn in nodes[x.slot.node].endpointMap
      && x.endpoint in nodes[x.slot.node].endpointMap[x.slot.spn]
  {
    set n, spn, e | n in nodes && spn in nodes[n].endpointMap && e in nodes[n].endpointMap[spn] ::
      Rule(Slot(n, spn), e)
  }

  /** Every service port in the nodes' service port maps. */
  ghost function BindingsIn(nodes: NodeMap): (r: set<Binding>)
    ensures forall b :: b in r <==>
      b.slot.node in nodes && b.slot.spn in nodes[b.slot.node].servicePortMap
      && b.port == nodes[b.slot.node].servicePortMap[b.slot.spn]
  {
    set n, spn | n in nodes && spn in nodes[n].servicePortMap ::
      Binding(Slot(n, spn), nodes[n].servicePortMap[spn])
  }

  ghost function BackingsIn(m: map<Port, set<Endpoint>>): (r: set<Backing>)
    ensures forall b :: b in r <==> b.port in m && b.endpoint in m[b.port]
  {
    set p, e | p in m && e in m[p] :: Backing(p, e)
  }

  ghost function OwnersIn(m: map<Endpoint, NodeName>): (r: set<Owner>)
    ensures forall o :: o in r <==> o.endpoint in m && o.node == m[o.endpoint]
  {
    set e | e in m :: Owner(e, m[e])
  }

  ghost function FlatService(svc: ServiceInfo): Service {
    Service(svc.made, svc.clusterIP, svc.sessionAffinity, svc.stickyMaxAgeSeconds,
            svc.endpointMap.Keys, BackingsIn(svc.endpointMap), OwnersIn(svc.endpointToNodes))
  }

  ghost function FlatServices(m: map<ObjectKey, ServiceInfo>): map<ObjectKey, Service>
    decreases m.Keys
  {
    if m == map[] then map[] else
    var k :| k in m;
    FlatServices(m - {k})[k := FlatService(m[k])]
  }

  lemma {:induction false} FlatServicesAre(m: map<ObjectKey, ServiceInfo>)
    ensures FlatServices(m).Keys == m.Keys && forall k <- m :: FlatServices(m)[k] == FlatService(m[k])
    decreases m.Keys
  {
    if m != map[] {
      var k :| k in m && FlatServices(m) == FlatServices(m - {k})[k := FlatService(m[k])];
      FlatServicesAre(m - {k});
    }
  }

  /** Nodes sit under their own name and no endpoint set is empty. */
  ghost predicate WellFormed(nodes: NodeMap) {
    forall n <- nodes :: nodes[n].name == n && forall spn <- nodes[n].endpointMap :: nodes[n].endpointMap[spn] != {}
  }

  lemma {:induction false} PutPort(nodes: NodeMap, n: NodeName, spn: ServicePortName, sp: ServicePort)
    ensures
      var node := NodeOrNew(nodes, n);
      var after := nodes[n := node.(servicePortMap := node.servicePortMap[spn := sp])];
      && RulesIn(after) == RulesIn(nodes)
      && BindingsIn(after) == Unbind(BindingsIn(nodes), {Slot(n, spn)}) + {Binding(Slot(n, spn), sp)}
  {}

  lemma {:induction false} PutEndpoint(nodes: NodeMap, n: NodeName, spn: ServicePortName, e: Endpoint)
    ensures
      var node := NodeOrNew(nodes, n);
      var after := nodes[n := node.(endpointMap := node.endpointMap[spn := Get(node.endpointMap, spn) + {e}])];
      && RulesIn(after) == RulesIn(nodes) + {Rule(Slot(n, spn), e)}
      && BindingsIn(after) == BindingsIn(nodes)
  {}

  lemma {:induction false} CutPort(nodes: NodeMap, n: NodeName, spn: ServicePortName)
    requires n in nodes
    ensures
      var after := nodes[n := nodes[n].(servicePortMap := nodes[n].servicePortMap - {spn})];
      && RulesIn(after) == RulesIn(nodes)
      && BindingsIn(after) == Unbind(BindingsIn(nodes), {Slot(n, spn)})
  {}

  /** Removing one endpoint: the set shrinks, or goes away when it was the last. */
  lemma {:induction false} CutEndpoint(nodes: NodeMap, n: NodeName, spn: ServicePortName, e: Endpoint,
                                       m: map<ServicePortName, set<Endpoint>>)
    requires n in nodes
    requires
      var left := Get(nodes[n].endpointMap, spn) - {e};
      m == if left == {} then nodes[n].endpointMap - {spn} else nodes[n].endpointMap[spn := left]
    ensures
      var after := nodes[n := nodes[n].(endpointMap := m)];
      && RulesIn(after) == RulesIn(nodes) - {Rule(Slot(n, spn), e)}
      && BindingsIn(after) == BindingsIn(nodes)
      && (HasRule(RulesIn(after), Slot(n, spn)) <==> Get(nodes[n].endpointMap, spn) - {e} != {})
  {
    var after := nodes[n := nodes[n].(endpointMap := m)];
    var left := Get(nodes[n].endpointMap, spn) - {e};
    if left != {} {
      var f :| f in left;
      var r := Rule(Slot(n, spn), f);
      assert r in RulesIn(after) && r.slot == Slot(n, spn);
    } else {
      forall f | f in Get(nodes[n].endpointMap, spn) ensures f == e {
        assert f == e || f in left;
      }
    }
  }

  // ---------- the loops, one rule at a time ----------

  /** The node tables of a controller, flat. */
  datatype Rules = Rules(nodes: set<NodeName>, bindings: set<Binding>, rules: set<Rule>)

  ghost function Flat(nodes: NodeMap): Rules {
    Rules(nodes.Keys, BindingsIn(nodes), RulesIn(nodes))
  }

  function AddRules(t: Rules, svc: Service, added: set<Rule>): Rules {
    Rules(t.nodes + NodesOf(added), Bind(t.bindings, svc, Slots(added)), t.rules + added)
  }

  function AddRule(t: Rules, x: Rule, sp: ServicePort): Rules {
    Rules(t.nodes + {x.slot.node}, Unbind(t.bindings, {x.slot}) + {Binding(x.slot, sp)}, t.rules + {x})
  }

  lemma {:induction false} AddRulesStep(t: Rules, svc: Service, added: set<Rule>, x: Rule)
    ensures AddRules(t, svc, added + {x}) ==
      AddRule(AddRules(t, svc, added), x, MakeServicePort(svc, x.slot.spn.port))
  {}

  function CutRules(t: Rules, ports: set<Port>, dropped: set<Rule>): Rules {
    Rules(t.nodes, Unbind(t.bindings, Closed(dropped, ports, t.rules - dropped)), t.rules - dropped)
  }

  function CutRule(t: Rules, ports: set<Port>, x: Rule): Rules {
    var left := t.rules - {x};
    Rules(t.nodes,
          if x.slot.spn.port !in ports || !HasRule(left, x.slot) then Unbind(t.bindings, {x.slot}) else t.bindings,
          left)
  }

  lemma {:induction false} CutRulesStep(t: Rules, ports: set<Port>, dropped: set<Rule>, x: Rule)
    ensures CutRules(t, ports, dropped + {x}) == CutRule(CutRules(t, ports, dropped), ports, x)
  {}

  function Own(owners: set<Owner>, added: set<Rule>): set<Owner> {
    Disown(owners, EndpointsOf(added)) + OwnersOf(added)
  }

  lemma {:induction false} OwnStep(m: map<Endpoint, NodeName>, owners: set<Owner>, added: set<Rule>, x: Rule)
    requires OwnersIn(m) == Own(owners, added)
    requires forall y <- added :: y.endpoint == x.endpoint ==> y.slot.node == x.slot.node
    ensures OwnersIn(m[x.endpoint := x.slot.node]) == Own(owners, added + {x})
  {}

  lemma {:induction false} DisownStep(m: map<Endpoint, NodeName>, owners: set<Owner>, dropped: set<Rule>, x: Rule)
    requires OwnersIn(m) == Disown(owners, EndpointsOf(dropped))
    ensures OwnersIn(m - {x.endpoint}) == Disown(owners, EndpointsOf(dropped + {x}))
  {}

  /** The nodes an addition marks as changed. */
  function Marked(rules: set<Rule>, added: set<Rule>, serviceChanged: bool): set<NodeName> {
    NodesOf(if serviceChanged then added else added - rules)
  }

  lemma {:induction false} MarkedStep(rules: set<Rule>, added: set<Rule>, serviceChanged: bool, x: Rule)
    ensures Marked(rules, added + {x}, serviceChanged) ==
      if serviceChanged || x !in rules then Marked(rules, added, serviceChanged) + {x.slot.node}
      else Marked(rules, added, serviceChanged)
  {}

  /** The rules of a slice for one port, without the IPs still to do. */
  function Upto(es: SliceInfo, port: Port, todo: set<IP>): set<Rule> {
    set r | r in RulesOf(es.(ports := {port})) && r.endpoint.ip !in todo
  }

  function RuleFor(es: SliceInfo, port: Port, ip: IP): Rule
    requires ip in es.endpoints
  {
    Rule(Slot(es.endpoints[ip], ServicePortName(es.serviceKey, port)), Endpoint(ip, port.number))
  }

  lemma {:induction false} UptoStep(es: SliceInfo, port: Port, todo: set<IP>, ip: IP, base: set<Endpoint>)
    requires ip in todo && todo <= es.endpoints.Keys
    ensures Upto(es, port, todo - {ip}) == Upto(es, port, todo) + {RuleFor(es, port, ip)}
    ensures RuleFor(es, port, ip) !in Upto(es, port, todo)
    ensures base + EndpointsOf(Upto(es, port, todo - {ip})) ==
      base + EndpointsOf(Upto(es, port, todo)) + {Endpoint(ip, port.number)}
  {}

  lemma {:induction false} UptoEnds(es: SliceInfo, port: Port)
    ensures Upto(es, port, {}) == RulesOf(es.(ports := {port}))
    ensures Upto(es, port, es.endpoints.Keys) == {}
  {}

  // ---------- the loops, one port at a time ----------

  /** The rules of a slice without the ports still to do. */
  function RulesUpto(es: SliceInfo, todo: set<Port>): set<Rule> {
    RulesOf(es.(ports := es.ports - todo))
  }

  lemma {:induction false} RulesUptoStep(es: SliceInfo, todo: set<Port>, port: Port)
    requires port in todo && todo <= es.ports
    ensures RulesUpto(es, todo - {port}) == RulesUpto(es, todo) + RulesOf(es.(ports := {port}))
    ensures RulesUpto(es, todo) !! RulesOf(es.(ports := {port}))
    ensures es.ports - (todo - {port}) == es.ports - todo + {port}
  {}

  lemma {:induction false} RulesUptoEnds(es: SliceInfo)
    ensures RulesUpto(es, {}) == RulesOf(es) && es.ports - {} == es.ports
    ensures RulesUpto(es, es.ports) == {} && es.ports - es.ports == {}
  {}

  lemma {:induction false} AddRulesCompose(t: Rules, svc: Service, svc': Service, done: set<Rule>, added: set<Rule>)
    requires svc'.clusterIP == svc.clusterIP && svc'.sessionAffinity == svc.sessionAffinity
    requires svc'.stickyMaxAgeSeconds == svc.stickyMaxAgeSeconds
    ensures AddRules(AddRules(t, svc, done), svc', added) == AddRules(t, svc, done + added)
  {
    assert Slots(done + added) == Slots(done) + Slots(added);
    assert NodesOf(done + added) == NodesOf(done) + NodesOf(added);
    assert t.rules + done + added == t.rules + (done + added);
    assert t.nodes + NodesOf(done) + NodesOf(added) == t.nodes + NodesOf(done + added);
    assert Bind(Bind(t.bindings, svc, Slots(done)), svc', Slots(added)) ==
      Bind(t.bindings, svc, Slots(done) + Slots(added));
  }

  lemma {:induction false} MarkedCompose(rules: set<Rule>, done: set<Rule>, added: set<Rule>, serviceChanged: bool)
    requires done !! added
    ensures Marked(rules, done, serviceChanged) + Marked(rules + done, added, serviceChanged) ==
      Marked(rules, done + added, serviceChanged)
  {}

  lemma {:induction false} ServicePortAdded(svc: ServiceInfo, port: Port, added: set<Rule>, m: map<Endpoint, NodeName>)
    requires forall x <- added :: x.slot.spn.port == port
    requires OwnersIn(m) == Own(OwnersIn(svc.endpointToNodes), added)
    ensures
      var after := svc.(endpointMap := svc.endpointMap[port := Get(svc.endpointMap, port) + EndpointsOf(added)],
                        endpointToNodes := m);
      FlatService(after) == AddToService(FlatService(svc), {port}, added)
  {}

  lemma {:induction false} AddToServiceCompose(svc: Service, ports: set<Port>, done: set<Rule>, port: Port,
                                               added: set<Rule>)
    requires forall x <- done, y <- added :: x.endpoint == y.endpoint ==> x.slot.node == y.slot.node
    ensures AddToService(AddToService(svc, ports, done), {port}, added) ==
      AddToService(svc, ports + {port}, done + added)
  {}

  // ---------- the removal loop ----------

  /** What the removal loop takes away for one port, without the IPs still to do. */
  function DroppedUpto(prev: SliceInfo, next: SliceInfo, port: Port, todo: set<IP>): set<Rule> {
    set r | r in Dropped(prev.(ports := {port}), next) && r.endpoint.ip !in todo
  }

  lemma {:induction false} DroppedUptoStep(prev: SliceInfo, next: SliceInfo, port: Port, todo: set<IP>, ip: IP)
    requires ip in todo && todo <= prev.endpoints.Keys
    ensures DroppedUpto(prev, next, port, todo - {ip}) ==
      if port !in next.ports || ip !in next.endpoints
      then DroppedUpto(prev, next, port, todo) + {RuleFor(prev.(serviceKey := next.serviceKey), port, ip)}
      else DroppedUpto(prev, next, port, todo)
  {}

  lemma {:induction false} DroppedUptoEnds(prev: SliceInfo, next: SliceInfo, port: Port)
    ensures DroppedUpto(prev, next, port, {}) == Dropped(prev.(ports := {port}), next)
    ensures DroppedUpto(prev, next, port, prev.endpoints.Keys) == {}
  {}

  lemma {:induction false} EndpointsStep(rules: set<Rule>, x: Rule, base: set<Endpoint>)
    ensures base - EndpointsOf(rules + {x}) == base - EndpointsOf(rules) - {x.endpoint}
    ensures NodesOf(rules + {x}) == NodesOf(rules) + {x.slot.node}
  {}

  /** What the removal loop takes away, without the ports still to do. */
  function DroppedPorts(prev: SliceInfo, next: SliceInfo, todo: set<Port>): set<Rule> {
    Dropped(prev.(ports := prev.ports - todo), next)
  }

  lemma {:induction false} DroppedPortsStep(prev: SliceInfo, next: SliceInfo, todo: set<Port>, port: Port)
    requires port in todo && todo <= prev.ports
    ensures DroppedPorts(prev, next, todo - {port}) ==
      DroppedPorts(prev, next, todo) + Dropped(prev.(ports := {port}), next)
    ensures prev.ports - (todo - {port}) == prev.ports - todo + {port}
  {}

  lemma {:induction false} DroppedPortsEnds(prev: SliceInfo, next: SliceInfo)
    ensures DroppedPorts(prev, next, {}) == Dropped(prev, next) && prev.ports - {} == prev.ports
    ensures DroppedPorts(prev, next, prev.ports) == {} && prev.ports - prev.ports == {}
  {}

  lemma {:induction false} CutRulesCompose(t: Rules, ports: set<Port>, done: set<Rule>, dropped: set<Rule>)
    ensures CutRules(CutRules(t, ports, done), ports, dropped) == CutRules(t, ports, done + dropped)
  {}

  lemma {:induction false} ServicePortCut(svc: ServiceInfo, port: Port, dropped: set<Rule>, m: map<Port, set<Endpoint>>,
                       owners: map<Endpoint, NodeName>)
    requires forall x <- dropped :: x.slot.spn.port == port
    requires OwnersIn(owners) == Disown(OwnersIn(svc.endpointToNodes), EndpointsOf(dropped))
    requires
      var left := Get(svc.endpointMap, port) - EndpointsOf(dropped);
      m == if left == {} then svc.endpointMap - {port} else svc.endpointMap[port := left]
    ensures FlatService(svc.(endpointMap := m, endpointToNodes := owners)) ==
      RemoveFromService(FlatService(svc), {port}, dropped)
  {
    var left := Get(svc.endpointMap, port) - EndpointsOf(dropped);
    var backings := BackingsIn(svc.endpointMap) - BackingsOf(dropped);
    forall b
      ensures b in BackingsIn(m) <==> b in backings
    {
      if b.port == port {
        assert b in BackingsOf(dropped) <==> b.endpoint in EndpointsOf(dropped);
        assert b.endpoint in Get(svc.endpointMap, port) ==> b.endpoint in EndpointsOf(dropped) || b.endpoint in left;
      }
    }
    assert BackingsIn(m) == backings;
    if left != {} {
      var e :| e in left;
      assert Backing(port, e) in backings;
    }
    assert HasBacking(backings, port) <==> left != {};
    assert m.Keys == set p | p in svc.endpointMap.Keys && (p !in {port} || HasBacking(backings, p));
  }

  lemma {:induction false} RemoveFromServiceCompose(svc: Service, ports: set<Port>, done: set<Rule>, port: Port,
                                                    dropped: set<Rule>)
    requires forall x <- dropped :: x.slot.spn.port == port
    requires port !in ports
    ensures RemoveFromService(RemoveFromService(svc, ports, done), {port}, dropped) ==
      RemoveFromService(svc, ports + {port}, done + dropped)
  {}

  // ---------- service cleanup ----------

  function ClearSlots(t: Rules, slots: set<Slot>): Rules {
    Rules(t.nodes, Unbind(t.bindings, slots), set r | r in t.rules && r.slot !in slots)
  }

  function SlotsAt(k: ObjectKey, ports: set<Port>, nodes: set<NodeName>): (r: set<Slot>)
    ensures forall x :: x in r <==> x.spn.service == k && x.spn.port in ports && x.node in nodes
  {
    set p, n | p in ports && n in nodes :: Slot(n, ServicePortName(k, p))
  }

  lemma {:induction false} ClearCompose(t: Rules, done: set<Slot>, more: set<Slot>)
    ensures ClearSlots(ClearSlots(t, done), more) == ClearSlots(t, done + more)
  {}

  lemma {:induction false} ClearNothing(t: Rules)
    ensures ClearSlots(t, {}) == t
  {}

  lemma {:induction false} CutSlot(nodes: NodeMap, n: NodeName, spn: ServicePortName)
    requires n in nodes
    ensures
      var node := nodes[n].(servicePortMap := nodes[n].servicePortMap - {spn},
                            endpointMap := nodes[n].endpointMap - {spn});
      Flat(nodes[n := node]) == ClearSlots(Flat(nodes), {Slot(n, spn)})
  {
    var node := nodes[n].(servicePortMap := nodes[n].servicePortMap - {spn},
                          endpointMap := nodes[n].endpointMap - {spn});
    assert RulesIn(nodes[n := node]) == set r | r in RulesIn(nodes) && r.slot !in {Slot(n, spn)};
    assert BindingsIn(nodes[n := node]) == Unbind(BindingsIn(nodes), {Slot(n, spn)});
    assert nodes[n := node].Keys == nodes.Keys;
  }

  /** The nodes that a set of endpoints sits on. */
  function NodesUnder(m: map<Endpoint, NodeName>, endpoints: set<Endpoint>): set<NodeName> {
    set e | e in endpoints && e in m :: m[e]
  }

  lemma {:induction false} NodesUnderStep(k: ObjectKey, ports: set<Port>, m: map<Endpoint, NodeName>,
                                          todo: set<Endpoint>, e: Endpoint)
    requires e in todo && todo <= m.Keys
    ensures SlotsAt(k, ports, NodesUnder(m, m.Keys - (todo - {e}))) ==
      SlotsAt(k, ports, NodesUnder(m, m.Keys - todo)) + SlotsAt(k, ports, {m[e]})
  {}

  lemma {:induction false} SlotsAtStep(k: ObjectKey, ports: set<Port>, todo: set<Port>, port: Port,
                                       nodes: set<NodeName>)
    requires port in todo && todo <= ports
    ensures SlotsAt(k, ports - (todo - {port}), nodes) ==
      SlotsAt(k, ports - todo, nodes) + SlotsAt(k, {port}, nodes)
  {}

  lemma {:induction false} CleanedSlots(k: ObjectKey, svc: ServiceInfo, slot: Slot)
    ensures Cleaned(k, FlatService(svc), slot) <==>
      slot in SlotsAt(k, svc.endpointMap.Keys, NodesUnder(svc.endpointToNodes, svc.endpointToNodes.Keys))
  {
    OwnerNodesUnder(svc);
  }

  lemma {:induction false} OwnerNodesUnder(svc: ServiceInfo)
    ensures OwnerNodes(FlatService(svc)) == NodesUnder(svc.endpointToNodes, svc.endpointToNodes.Keys)
  {
    forall e | e in svc.endpointToNodes
      ensures svc.endpointToNodes[e] in OwnerNodes(FlatService(svc))
    {
      assert Owner(e, svc.endpointToNodes[e]) in OwnersIn(svc.endpointToNodes);
    }
  }
}
