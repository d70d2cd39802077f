/** Runs the controller can take that show why the conditions of the proxy theorems are there. */
module ProxyLimits {
  import opened ProxyTypes
  import opened ProxySpec
  import opened ProxyFlat
  import opened ProxyRuns
  import opened ProxyPorts
  import opened ProxyQueue
  import opened Rendering
  import opened Keeper

  function OneEndpoint(k: ObjectKey, svc: ObjectKey, p: Port, ip: IP, n: NodeName): SliceInfo {
    SliceInfo(k, svc, {p}, map[ip := n])
  }

  function TheRule(svc: ObjectKey, p: Port, ip: IP, n: NodeName): Rule {
    Rule(Slot(n, ServicePortName(svc, p)), Endpoint(ip, p.number))
  }

  lemma OneRule(k: ObjectKey, svc: ObjectKey, p: Port, ip: IP, n: NodeName)
    ensures
      var rules := RulesOf(OneEndpoint(k, svc, p, ip, n));
      && rules == {TheRule(svc, p, ip, n)}
      && EndpointsOf(rules) == {Endpoint(ip, p.number)} && OwnersOf(rules) == {Owner(Endpoint(ip, p.number), n)}
  {
    var rules := RulesOf(OneEndpoint(k, svc, p, ip, n));
    assert TheRule(svc, p, ip, n) in rules;
    assert rules == {TheRule(svc, p, ip, n)};
  }

  lemma OneReal(k: ObjectKey, svc: ObjectKey, p: Port, ip: IP, n: NodeName, nodes: set<NodeName>)
    requires Fits(k, svc) && n in nodes
    ensures RealSlice(OneEndpoint(k, svc, p, ip, n), nodes)
  {}

  /** The slice can name the service. */
  predicate Fits(k: ObjectKey, svc: ObjectKey) {
    k.namespace == svc.namespace && svc.name != ""
  }

  // ---------- how the runs begin ----------

  lemma NextTables(ops: seq<Op>, a: Op)
    ensures Run(EMPTY, ops + [a]).tables == ApplyTables(Run(EMPTY, ops).tables, a)
  {
    assert (ops + [a])[..|ops|] == ops;
  }

  lemma NextReal(ops: seq<Op>, a: Op)
    requires RealRun(ops) && Real(Run(EMPTY, ops), a)
    ensures RealRun(ops + [a])
  {
    assert (ops + [a])[..|ops|] == ops;
  }

  lemma NextQueue(ops: seq<Op>, a: Op)
    ensures Run(EMPTY, ops + [a]) == Apply(Run(EMPTY, ops), a)
  {
    assert (ops + [a])[..|ops|] == ops;
  }

  /** Two nodes join. */
  function Joined(n: NodeName, m: NodeName): seq<Op> {
    [] + [AddNode(n)] + [AddNode(m)]
  }

  lemma JoinedTables(n: NodeName, m: NodeName)
    ensures RealRun(Joined(n, m)) && Run(EMPTY, Joined(n, m)).tables == EMPTY.tables.(nodes := {n, m})
  {
    assert Run(EMPTY, []) == EMPTY;
    NextTables([], AddNode(n));
    NextReal([], AddNode(n));
    NextTables([] + [AddNode(n)], AddNode(m));
    NextReal([] + [AddNode(n)], AddNode(m));
  }

  /** What a sync does with a slice that was not there before. */
  lemma FreshSlice(t: Tables, es: SliceInfo, spec: ServiceSpec)
    requires es.key !in t.slices
    ensures
      var u := ApplyTables(t, UpdateSlice(es, spec));
      && u.rules == t.rules + RulesOf(es) && u.slices == t.slices[es.key := es]
      && t.nodes <= u.nodes && es.serviceKey in u.services
      && u.services[es.serviceKey].owners ==
         Disown(ServiceOrZero(t.services, es.serviceKey).owners, EndpointsOf(RulesOf(es))) + OwnersOf(RulesOf(es))
  {
    var t1 := SyncService(t, es.serviceKey, spec);
    var none := Dropped(SliceOrZero(t1.slices, es.key), es);
    assert none == {};
    assert t.rules + RulesOf(es) - {} == t.rules + RulesOf(es);
    var owners := Disown(ServiceOrZero(t.services, es.serviceKey).owners, EndpointsOf(RulesOf(es)))
      + OwnersOf(RulesOf(es));
    assert Disown(owners, EndpointsOf({})) == owners;
  }

  /** Two nodes join and a slice is synced. */
  function First(n: NodeName, m: NodeName, a: SliceInfo, spec: ServiceSpec): seq<Op> {
    Joined(n, m) + [UpdateSlice(a, spec)]
  }

  lemma FirstTables(n: NodeName, m: NodeName, a: SliceInfo, spec: ServiceSpec)
    requires RealSlice(a, {n, m}) && RealSpec(spec)
    ensures RealRun(First(n, m, a, spec))
    ensures
      var t := Run(EMPTY, First(n, m, a, spec)).tables;
      && t.rules == RulesOf(a) && t.slices == map[a.key := a] && {n, m} <= t.nodes
      && a.serviceKey in t.services && t.services[a.serviceKey].owners == OwnersOf(RulesOf(a))
  {
    JoinedTables(n, m);
    NextTables(Joined(n, m), UpdateSlice(a, spec));
    NextReal(Joined(n, m), UpdateSlice(a, spec));
    FreshSlice(EMPTY.tables.(nodes := {n, m}), a, spec);
  }

  lemma FirstIs(n: NodeName, m: NodeName, a: SliceInfo, spec: ServiceSpec)
    ensures Run(EMPTY, First(n, m, a, spec)).tables ==
      ApplyTables(EMPTY.tables.(nodes := {n, m}), UpdateSlice(a, spec))
  {
    JoinedTables(n, m);
    NextTables(Joined(n, m), UpdateSlice(a, spec));
  }

  /** And a second slice of the same service. */
  function Second(n: NodeName, m: NodeName, a: SliceInfo, b: SliceInfo, spec: ServiceSpec): seq<Op> {
    First(n, m, a, spec) + [UpdateSlice(b, spec)]
  }

  lemma SecondTables(n: NodeName, m: NodeName, a: SliceInfo, b: SliceInfo, spec: ServiceSpec)
    requires RealSlice(a, {n, m}) && RealSlice(b, {n, m}) && RealSpec(spec)
    requires a.key != b.key && a.serviceKey == b.serviceKey
    ensures RealRun(Second(n, m, a, b, spec))
    ensures
      var t := Run(EMPTY, Second(n, m, a, b, spec)).tables;
      && t.rules == RulesOf(a) + RulesOf(b) && t.slices == map[a.key := a, b.key := b]
      && b.serviceKey in t.services
      && t.services[b.serviceKey].owners <= OwnersOf(RulesOf(a)) + OwnersOf(RulesOf(b))
  {
    FirstTables(n, m, a, spec);
    NextTables(First(n, m, a, spec), UpdateSlice(b, spec));
    NextReal(First(n, m, a, spec), UpdateSlice(b, spec));
    FreshSlice(Run(EMPTY, First(n, m, a, spec)).tables, b, spec);
  }

  // ---------- a backend that moves ----------

  /** A kept IP moves to another node: the sync adds the new rule and leaves the old one. */
  lemma MovedSync(t: Tables, before: SliceInfo, after: SliceInfo, r: Rule, spec: ServiceSpec)
    requires after.key == before.key && t.slices == map[before.key := before] && r in t.rules
    requires after != before && r !in RulesOf(after)
    requires r.slot.spn.port in after.ports && r.endpoint.ip in after.endpoints
    ensures
      var u := ApplyTables(t, UpdateSlice(after, spec));
      r in u.rules && !Listed(u.slices, r)
  {
    var t1 := SyncService(t, after.serviceKey, spec);
    assert t1.slices == t.slices && t1.rules == t.rules;
    ListedAfter(t.slices, after, r);
  }

  /** A backend whose IP moves to another node while its slice keeps it: the old node goes on serving
      it although no slice lists it there. */
  lemma MovedBackendStaysServed(k: ObjectKey, svc: ObjectKey, p: Port, ip: IP, n: NodeName, m: NodeName,
                                spec: ServiceSpec)
    requires n != m && Fits(k, svc) && RealSpec(spec)
    ensures
      var ops := Second(n, m, OneEndpoint(k, svc, p, ip, n), OneEndpoint(k, svc, p, ip, m), spec);
      var t := Run(EMPTY, ops).tables;
      RealRun(ops) && TheRule(svc, p, ip, n) in t.rules && !Listed(t.slices, TheRule(svc, p, ip, n))
  {
    var before, after := OneEndpoint(k, svc, p, ip, n), OneEndpoint(k, svc, p, ip, m);
    FirstTables(n, m, before, spec);
    NextTables(First(n, m, before, spec), UpdateSlice(after, spec));
    NextReal(First(n, m, before, spec), UpdateSlice(after, spec));
    OneRule(k, svc, p, ip, n);
    OneRule(k, svc, p, ip, m);
    MovedSync(Run(EMPTY, First(n, m, before, spec)).tables, before, after, TheRule(svc, p, ip, n), spec);
  }

  lemma MovedOwner(t: Tables, before: SliceInfo, after: SliceInfo, spec: ServiceSpec, e: Endpoint)
    requires after.key == before.key && t.slices == map[before.key := before] && after != before
    requires after.ports == before.ports && after.endpoints.Keys == before.endpoints.Keys
    requires after.serviceKey in t.services && forall o <- t.services[after.serviceKey].owners :: o.endpoint == e
    requires EndpointsOf(RulesOf(after)) == {e}
    ensures
      var u := ApplyTables(t, UpdateSlice(after, spec));
      after.serviceKey in u.services && u.services[after.serviceKey].owners == OwnersOf(RulesOf(after))
  {
    var t1 := SyncService(t, after.serviceKey, spec);
    assert Dropped(before, after) == {};
    assert Disown(t.services[after.serviceKey].owners, {e}) == {};
    assert Disown(OwnersOf(RulesOf(after)), EndpointsOf({})) == OwnersOf(RulesOf(after));
  }

  lemma MovedThen(ops: seq<Op>, before: SliceInfo, after: SliceInfo, spec: ServiceSpec, e: Endpoint, m: NodeName)
    requires
      var t := Run(EMPTY, ops).tables;
      && after.key == before.key && t.slices == map[before.key := before] && after != before
      && after.ports == before.ports && after.endpoints.Keys == before.endpoints.Keys
      && after.serviceKey in t.services && forall o <- t.services[after.serviceKey].owners :: o.endpoint == e
    requires EndpointsOf(RulesOf(after)) == {e} && OwnersOf(RulesOf(after)) == {Owner(e, m)}
    ensures
      var u := Run(EMPTY, ops + [UpdateSlice(after, spec)]).tables;
      after.serviceKey in u.services && u.services[after.serviceKey].owners == {Owner(e, m)}
  {
    NextTables(ops, UpdateSlice(after, spec));
    MovedOwner(Run(EMPTY, ops).tables, before, after, spec, e);
  }

  /** What the moved backend leaves: the old rule, and a service that knows only the new node. */
  lemma MovedTables(k: ObjectKey, svc: ObjectKey, p: Port, ip: IP, n: NodeName, m: NodeName, spec: ServiceSpec)
    requires n != m && Fits(k, svc) && RealSpec(spec)
    ensures
      var t := Run(EMPTY, Second(n, m, OneEndpoint(k, svc, p, ip, n), OneEndpoint(k, svc, p, ip, m), spec)).tables;
      svc in t.services && t.services[svc].owners == {Owner(Endpoint(ip, p.number), m)}
  {
    var before, after := OneEndpoint(k, svc, p, ip, n), OneEndpoint(k, svc, p, ip, m);
    FirstTables(n, m, before, spec);
    OneRule(k, svc, p, ip, n);
    OneRule(k, svc, p, ip, m);
    assert n in before.endpoints.Values && m in after.endpoints.Values;
    MovedThen(First(n, m, before, spec), before, after, spec, Endpoint(ip, p.number), m);
  }

  /** Such a backend outlives the cleanup of its service, which only knows the new node. */
  lemma MovedBackendOutlivesCleanup(k: ObjectKey, svc: ObjectKey, p: Port, ip: IP, n: NodeName, m: NodeName,
                                    spec: ServiceSpec)
    requires n != m && Fits(k, svc) && RealSpec(spec)
    ensures
      var ops := Second(n, m, OneEndpoint(k, svc, p, ip, n), OneEndpoint(k, svc, p, ip, m), spec)
        + [CleanupService(svc)];
      RealRun(ops) && TheRule(svc, p, ip, n) in Run(EMPTY, ops).tables.rules && svc !in Run(EMPTY, ops).tables.services
  {
    MovedBackendStaysServed(k, svc, p, ip, n, m, spec);
    MovedTables(k, svc, p, ip, n, m, spec);
    CleanupThen(Second(n, m, OneEndpoint(k, svc, p, ip, n), OneEndpoint(k, svc, p, ip, m), spec),
                svc, TheRule(svc, p, ip, n));
  }

  /** A cleanup leaves a rule on a node the service does not know. */
  lemma CleanupThen(ops: seq<Op>, svc: ObjectKey, r: Rule)
    requires
      var t := Run(EMPTY, ops).tables;
      RealRun(ops) && svc in t.services && r in t.rules && forall o <- t.services[svc].owners :: o.node != r.slot.node
    ensures
      var u := Run(EMPTY, ops + [CleanupService(svc)]).tables;
      RealRun(ops + [CleanupService(svc)]) && r in u.rules && svc !in u.services
  {
    NextTables(ops, CleanupService(svc));
    NextReal(ops, CleanupService(svc));
    OtherOwner(Run(EMPTY, ops).tables, svc, r);
  }

  lemma OtherOwner(t: Tables, svc: ObjectKey, r: Rule)
    requires svc in t.services && r in t.rules && forall o <- t.services[svc].owners :: o.node != r.slot.node
    ensures r in Cleanup(t, svc).rules && svc !in Cleanup(t, svc).services
  {}

  // ---------- two slices with one backend ----------

  lemma SharedDelete(t: Tables, a: SliceInfo, b: SliceInfo, r: Rule)
    requires a.key != b.key && t.slices == map[a.key := a, b.key := b] && r in RulesOf(a) && r in RulesOf(b)
    ensures
      var u := ApplyTables(t, DeleteSlice(a.key));
      r !in u.rules && Listed(u.slices, r)
  {
    var u := ApplyTables(t, DeleteSlice(a.key));
    assert r in Dropped(a, Emptied(a));
    assert a != Emptied(a);
    assert b.key in u.slices && u.slices[b.key] == b;
  }

  /** Two slices that list the same backend: deleting one takes the backend away although the other
      still lists it. */
  lemma SharedBackendIsLost(k: ObjectKey, l: ObjectKey, svc: ObjectKey, p: Port, ip: IP, n: NodeName, spec: ServiceSpec)
    requires k != l && Fits(k, svc) && Fits(l, svc) && RealSpec(spec)
    ensures
      var ops := Second(n, n, OneEndpoint(k, svc, p, ip, n), OneEndpoint(l, svc, p, ip, n), spec) + [DeleteSlice(k)];
      var t := Run(EMPTY, ops).tables;
      RealRun(ops) && TheRule(svc, p, ip, n) !in t.rules && Listed(t.slices, TheRule(svc, p, ip, n))
  {
    var a, b := OneEndpoint(k, svc, p, ip, n), OneEndpoint(l, svc, p, ip, n);
    SecondTables(n, n, a, b, spec);
    NextTables(Second(n, n, a, b, spec), DeleteSlice(k));
    NextReal(Second(n, n, a, b, spec), DeleteSlice(k));
    OneRule(k, svc, p, ip, n);
    OneRule(l, svc, p, ip, n);
    SharedDelete(Run(EMPTY, Second(n, n, a, b, spec)).tables, a, b, TheRule(svc, p, ip, n));
  }

  // ---------- one port number under two protocols ----------

  /** A deleted slice drops all it listed. */
  lemma DroppedWhole(b: SliceInfo)
    ensures Dropped(b, Emptied(b)) == RulesOf(b)
  {}

  lemma DropLeaves(t: Tables, b: SliceInfo, r: Rule, e: Endpoint)
    requires b.key in t.slices && t.slices[b.key] == b && b != Emptied(b) && b.serviceKey in t.services
    requires r in t.rules && r !in RulesOf(b) && EndpointsOf(RulesOf(b)) == {e}
    requires forall o <- t.services[b.serviceKey].owners :: o.endpoint == e
    ensures
      var u := ApplyTables(t, DeleteSlice(b.key));
      r in u.rules && b.serviceKey in u.services && u.services[b.serviceKey].owners == {}
  {
    DroppedWhole(b);
  }

  lemma DropThen(ops: seq<Op>, b: SliceInfo, r: Rule, e: Endpoint)
    requires
      var t := Run(EMPTY, ops).tables;
      && RealRun(ops) && b.key in t.slices && t.slices[b.key] == b && b != Emptied(b) && b.serviceKey in t.services
      && r in t.rules && r !in RulesOf(b) && EndpointsOf(RulesOf(b)) == {e}
      && forall o <- t.services[b.serviceKey].owners :: o.endpoint == e
    ensures
      var u := Run(EMPTY, ops + [DeleteSlice(b.key)]).tables;
      && RealRun(ops + [DeleteSlice(b.key)])
      && r in u.rules && b.serviceKey in u.services && u.services[b.serviceKey].owners == {}
  {
    NextTables(ops, DeleteSlice(b.key));
    NextReal(ops, DeleteSlice(b.key));
    DropLeaves(Run(EMPTY, ops).tables, b, r, e);
  }

  /** When the slice of one protocol goes, the service forgets which node the backend sits on. */
  lemma TwoProtocolsForgotten(k: ObjectKey, l: ObjectKey, svc: ObjectKey, p: Port, q: Port, ip: IP, n: NodeName,
                              spec: ServiceSpec)
    requires k != l && Fits(k, svc) && Fits(l, svc) && RealSpec(spec)
    requires p.number == q.number && p.protocol != q.protocol
    ensures
      var ops := Second(n, n, OneEndpoint(k, svc, p, ip, n), OneEndpoint(l, svc, q, ip, n), spec) + [DeleteSlice(l)];
      var t := Run(EMPTY, ops).tables;
      RealRun(ops) && TheRule(svc, p, ip, n) in t.rules && svc in t.services && t.services[svc].owners == {}
  {
    var a, b := OneEndpoint(k, svc, p, ip, n), OneEndpoint(l, svc, q, ip, n);
    var begun := Second(n, n, a, b, spec);
    OneReal(k, svc, p, ip, n, {n, n});
    OneReal(l, svc, q, ip, n, {n, n});
    SecondTables(n, n, a, b, spec);
    OneRule(k, svc, p, ip, n);
    OneRule(l, svc, q, ip, n);
    assert TheRule(svc, p, ip, n) != TheRule(svc, q, ip, n);
    DropThen(begun, b, TheRule(svc, p, ip, n), Endpoint(ip, p.number));
  }

  /** And a later cleanup leaves the other protocol's rule behind. */
  lemma TwoProtocolsOutliveCleanup(k: ObjectKey, l: ObjectKey, svc: ObjectKey, p: Port, q: Port, ip: IP, n: NodeName,
                                   spec: ServiceSpec)
    requires k != l && Fits(k, svc) && Fits(l, svc) && RealSpec(spec)
    requires p.number == q.number && p.protocol != q.protocol
    ensures
      var begun := Second(n, n, OneEndpoint(k, svc, p, ip, n), OneEndpoint(l, svc, q, ip, n), spec);
      var ops := begun + [DeleteSlice(l)] + [CleanupService(svc)];
      RealRun(ops) && TheRule(svc, p, ip, n) in Run(EMPTY, ops).tables.rules && svc !in Run(EMPTY, ops).tables.services
  {
    var begun := Second(n, n, OneEndpoint(k, svc, p, ip, n), OneEndpoint(l, svc, q, ip, n), spec);
    TwoProtocolsForgotten(k, l, svc, p, q, ip, n, spec);
    CleanupThen(begun + [DeleteSlice(l)], svc, TheRule(svc, p, ip, n));
  }

  /** A slice with both protocols, as a DNS service has it. */
  function BothProtocols(k: ObjectKey, svc: ObjectKey, p: Port, q: Port, ip: IP, n: NodeName): SliceInfo {
    SliceInfo(k, svc, {p, q}, map[ip := n])
  }

  lemma BothBound(k: ObjectKey, svc: ObjectKey, p: Port, q: Port, ip: IP, n: NodeName, spec: ServiceSpec, x: Port)
    requires Fits(k, svc) && RealSpec(spec) && x in {p, q}
    ensures
      var ops := First(n, n, BothProtocols(k, svc, p, q, ip, n), spec);
      var t := Run(EMPTY, ops).tables;
      RealRun(ops) && svc in t.services &&
      Binding(Slot(n, ServicePortName(svc, x)), MakeServicePort(t.services[svc], x)) in t.bindings
  {
    var a := BothProtocols(k, svc, p, q, ip, n);
    FirstTables(n, n, a, spec);
    FirstIs(n, n, a, spec);
    assert TheRule(svc, x, ip, n) in RulesOf(a);
    FirstBinding(EMPTY.tables.(nodes := {n, n}), a, spec, TheRule(svc, x, ip, n));
  }

  /** The controller reaches a node that renders in several ways: written and then rendered again,
      unchanged, it can ask for an update. */
  lemma TwoProtocolsRewrite(k: ObjectKey, svc: ObjectKey, p: Port, q: Port, ip: IP, n: NodeName, spec: ServiceSpec,
                            node: EdgeNode, scheduler: string, servers: seq<VirtualServer>)
    returns (again: seq<VirtualServer>)
    requires Fits(k, svc) && RealSpec(spec) && p.number == q.number && p.protocol != q.protocol
    requires node.name == n && IsRendering(servers, node, scheduler)
    requires NodeView(node) == ViewOf(Run(EMPTY, First(n, n, BothProtocols(k, svc, p, q, ip, n), spec)).tables, n)
    ensures RealRun(First(n, n, BothProtocols(k, svc, p, q, ip, n), spec))
    ensures IsRendering(again, node, scheduler) && Asks(map[n := servers], n, again, true)
  {
    var t := Run(EMPTY, First(n, n, BothProtocols(k, svc, p, q, ip, n), spec)).tables;
    BothBound(k, svc, p, q, ip, n, spec, p);
    BothBound(k, svc, p, q, ip, n, spec, q);
    NodeHas(node, Binding(Slot(n, ServicePortName(svc, p)), MakeServicePort(t.services[svc], p)));
    NodeHas(node, Binding(Slot(n, ServicePortName(svc, q)), MakeServicePort(t.services[svc], q)));
    again := TwoProtocolsClash(node, scheduler, servers, ServicePortName(svc, p), ServicePortName(svc, q));
  }

  lemma NodeHas(node: EdgeNode, b: Binding)
    requires b in NodeView(node).bindings
    ensures b.slot.spn in node.servicePortMap && node.servicePortMap[b.slot.spn] == b.port
  {}

  // ---------- service ports ----------

  /** Two slices with backends of one port on one node: when one slice is deleted, the node stops
      announcing the port although the other slice's backend stays. */
  lemma SharedPortIsClosed(k: ObjectKey, l: ObjectKey, svc: ObjectKey, p: Port, ip: IP, jp: IP, n: NodeName,
                           spec: ServiceSpec)
    requires k != l && Fits(k, svc) && Fits(l, svc) && RealSpec(spec) && ip != jp
    ensures
      var ops := Second(n, n, OneEndpoint(k, svc, p, ip, n), OneEndpoint(l, svc, p, jp, n), spec) + [DeleteSlice(k)];
      var t := Run(EMPTY, ops).tables;
      RealRun(ops) && TheRule(svc, p, jp, n) in t.rules && !Bound(t.bindings, TheRule(svc, p, jp, n).slot)
  {
    var a, b := OneEndpoint(k, svc, p, ip, n), OneEndpoint(l, svc, p, jp, n);
    var t := Run(EMPTY, Second(n, n, a, b, spec)).tables;
    SecondTables(n, n, a, b, spec);
    NextTables(Second(n, n, a, b, spec), DeleteSlice(k));
    NextReal(Second(n, n, a, b, spec), DeleteSlice(k));
    OneRule(k, svc, p, ip, n);
    OneRule(l, svc, p, jp, n);
    ClosedByDelete(t, a, TheRule(svc, p, ip, n), TheRule(svc, p, jp, n));
  }

  lemma ClosedByDelete(t: Tables, a: SliceInfo, r: Rule, other: Rule)
    requires a.key in t.slices && t.slices[a.key] == a && r in RulesOf(a) && other !in RulesOf(a)
    requires other in t.rules && other.slot == r.slot
    ensures
      var u := ApplyTables(t, DeleteSlice(a.key));
      other in u.rules && !Bound(u.bindings, other.slot)
  {
    DroppedWhole(a);
    SyncBinds(t, Emptied(a), r.slot);
  }

  /** A changed service alone: the node goes on announcing what it was first given. */
  lemma ServiceChangeStaysOut(k: ObjectKey, svc: ObjectKey, p: Port, ip: IP, n: NodeName, first: ServiceSpec,
                              next: ServiceSpec)
    requires Fits(k, svc) && RealSpec(first) && RealSpec(next) && first != next
    ensures
      var ops := First(n, n, OneEndpoint(k, svc, p, ip, n), first) + [UpdateService(svc, next)];
      RealRun(ops) && !Current(Run(EMPTY, ops).tables)
  {
    var a := OneEndpoint(k, svc, p, ip, n);
    var t := EMPTY.tables.(nodes := {n, n});
    FirstTables(n, n, a, first);
    FirstIs(n, n, a, first);
    NextTables(First(n, n, a, first), UpdateService(svc, next));
    NextReal(First(n, n, a, first), UpdateService(svc, next));
    OneRule(k, svc, p, ip, n);
    FirstBinding(t, a, first, TheRule(svc, p, ip, n));
    StepCurrentIff(ApplyTables(t, UpdateSlice(a, first)), UpdateService(svc, next));
  }

  lemma FirstBinding(t: Tables, a: SliceInfo, spec: ServiceSpec, r: Rule)
    requires t.rules == {} && t.bindings == {} && t.services == map[] && t.slices == map[] && r in RulesOf(a)
    ensures
      var u := ApplyTables(t, UpdateSlice(a, spec));
      Current(u) && Bound(u.bindings, r.slot) && !ServiceChanged(u, a.serviceKey, spec)
  {
    var t1 := SyncService(t, a.serviceKey, spec);
    assert !Unchanged(t1, a);
    assert Dropped(SliceOrZero(t1.slices, a.key), a) == {};
    SyncBinds(t1, a, r.slot);
    StepCurrentIff(t, UpdateSlice(a, spec));
  }

  // ---------- rules that do not come back ----------

  /** A sync of the slice that is recorded already brings no rule. */
  lemma SyncedAgain(ops: seq<Op>, a: SliceInfo, spec: ServiceSpec, r: Rule)
    requires
      var s := Run(EMPTY, ops);
      && RealRun(ops) && Real(s, UpdateSlice(a, spec)) && r in RulesOf(a) && r !in s.tables.rules
      && a.key in s.tables.slices && s.tables.slices[a.key] == a
    ensures
      var again := ops + [UpdateSlice(a, spec)];
      var t := Run(EMPTY, again).tables;
      && RealRun(again) && r !in t.rules && Listed(t.slices, r)
      && Run(EMPTY, ops).tables.nodes <= t.nodes && a.serviceKey in t.services
  {
    NextReal(ops, UpdateSlice(a, spec));
    NextTables(ops, UpdateSlice(a, spec));
    RuleAppearsIff(Run(EMPTY, ops).tables, UpdateSlice(a, spec), r);
  }

  /** A node removed and added again does not get its backends back: the slice that lists them is synced
      again and found unchanged. */
  lemma ReaddedNodeStaysEmpty(k: ObjectKey, svc: ObjectKey, p: Port, ip: IP, n: NodeName, spec: ServiceSpec)
    requires Fits(k, svc) && RealSpec(spec)
    ensures
      var a, r := OneEndpoint(k, svc, p, ip, n), TheRule(svc, p, ip, n);
      var ops := First(n, n, a, spec) + [RemoveNode(n)] + [AddNode(n)] + [UpdateSlice(a, spec)];
      var t := Run(EMPTY, ops).tables;
      RealRun(ops) && n in t.nodes && Listed(t.slices, r) && r !in t.rules
  {
    var a, r := OneEndpoint(k, svc, p, ip, n), TheRule(svc, p, ip, n);
    var begun := First(n, n, a, spec);
    FirstTables(n, n, a, spec);
    OneRule(k, svc, p, ip, n);
    NextReal(begun, RemoveNode(n));
    NextTables(begun, RemoveNode(n));
    NextReal(begun + [RemoveNode(n)], AddNode(n));
    NextTables(begun + [RemoveNode(n)], AddNode(n));
    SyncedAgain(begun + [RemoveNode(n)] + [AddNode(n)], a, spec, r);
  }

  /** What a cleanup takes away of a slice that was synced just before. */
  lemma FirstCleaned(t: Tables, a: SliceInfo, spec: ServiceSpec, r: Rule)
    requires t.rules == {} && t.services == map[] && t.slices == map[] && r in RulesOf(a)
    ensures r !in Cleanup(ApplyTables(t, UpdateSlice(a, spec)), a.serviceKey).rules
  {
    FreshSlice(t, a, spec);
    var svc := ApplyTables(t, UpdateSlice(a, spec)).services[a.serviceKey];
    FreshPorts(t, a, spec);
    assert Disown({}, EndpointsOf(RulesOf(a))) == {};
    assert Owner(r.endpoint, r.slot.node) in svc.owners;
    assert r.slot.node in OwnerNodes(svc);
  }

  lemma FreshPorts(t: Tables, a: SliceInfo, spec: ServiceSpec)
    requires a.key !in t.slices
    ensures
      var u := ApplyTables(t, UpdateSlice(a, spec));
      a.serviceKey in u.services && a.ports <= u.services[a.serviceKey].ports
  {
    assert SliceOrZero(SyncService(t, a.serviceKey, spec).slices, a.key).ports == {};
  }

  lemma CleanedRun(n: NodeName, a: SliceInfo, spec: ServiceSpec, r: Rule)
    requires RealSlice(a, {n}) && RealSpec(spec) && r in RulesOf(a)
    ensures
      var ops := First(n, n, a, spec) + [CleanupService(a.serviceKey)];
      var t := Run(EMPTY, ops).tables;
      RealRun(ops) && r !in t.rules && t.slices == map[a.key := a] && n in t.nodes
  {
    var begun := First(n, n, a, spec);
    FirstTables(n, n, a, spec);
    FirstIs(n, n, a, spec);
    FirstCleaned(EMPTY.tables.(nodes := {n, n}), a, spec, r);
    NextReal(begun, CleanupService(a.serviceKey));
    NextTables(begun, CleanupService(a.serviceKey));
  }

  /** Nor does a service that is cleaned up and comes back. */
  lemma RecreatedServiceStaysEmpty(k: ObjectKey, svc: ObjectKey, p: Port, ip: IP, n: NodeName, spec: ServiceSpec)
    requires Fits(k, svc) && RealSpec(spec)
    ensures
      var a, r := OneEndpoint(k, svc, p, ip, n), TheRule(svc, p, ip, n);
      var ops := First(n, n, a, spec) + [CleanupService(svc)] + [UpdateSlice(a, spec)];
      var t := Run(EMPTY, ops).tables;
      RealRun(ops) && svc in t.services && n in t.nodes && Listed(t.slices, r) && r !in t.rules
  {
    var a, r := OneEndpoint(k, svc, p, ip, n), TheRule(svc, p, ip, n);
    OneRule(k, svc, p, ip, n);
    OneReal(k, svc, p, ip, n, {n});
    CleanedRun(n, a, spec, r);
    OneReal(k, svc, p, ip, n, Run(EMPTY, First(n, n, a, spec) + [CleanupService(svc)]).tables.nodes);
    SyncedAgain(First(n, n, a, spec) + [CleanupService(svc)], a, spec, r);
  }

  // ---------- a node that comes back ----------

  function Readded(begun: seq<Op>, n: NodeName): seq<Op> {
    begun + [TakeBatch] + [WriteNode(n, true)] + [RemoveNode(n)] + [AddNode(n)]
  }

  /** A node that serves a backend is written, removed and added again: what was written for it last has
      the old rules although it serves nothing and nothing waits to be written. */
  lemma ReaddedNodeKeepsOldRules(k: ObjectKey, svc: ObjectKey, p: Port, ip: IP, n: NodeName, spec: ServiceSpec)
    requires Fits(k, svc) && RealSpec(spec)
    ensures
      var ops := Readded(First(n, n, OneEndpoint(k, svc, p, ip, n), spec), n);
      var s := Run(EMPTY, ops);
      && RealRun(ops) && n in s.tables.nodes && RulesAt(s.tables.rules, n) == {}
      && n !in s.queue.pending && n !in s.queue.batch
      && n in s.queue.written && TheRule(svc, p, ip, n) in s.queue.written[n].view.rules
  {
    var a := OneEndpoint(k, svc, p, ip, n);
    FirstTables(n, n, a, spec);
    OneRule(k, svc, p, ip, n);
    FirstQueues(n, a, spec, TheRule(svc, p, ip, n));
    ReaddedRun(First(n, n, a, spec), n, TheRule(svc, p, ip, n));
  }

  lemma FirstQueues(n: NodeName, a: SliceInfo, spec: ServiceSpec, r: Rule)
    requires RealSlice(a, {n}) && RealSpec(spec) && r in RulesOf(a) && r.slot.node == n
    ensures
      var q := Run(EMPTY, First(n, n, a, spec)).queue;
      n in q.pending && q.pending[n].ref.Live? && q.batch == map[]
  {
    JoinedQueue(n);
    JoinedTables(n, n);
    NextQueue(Joined(n, n), UpdateSlice(a, spec));
    FreshQueues(Run(EMPTY, Joined(n, n)), a, spec, r);
  }

  /** A slice sync queues the node of a rule that is new. */
  lemma FreshQueues(s: System, a: SliceInfo, spec: ServiceSpec, r: Rule)
    requires a.key !in s.tables.slices && r in RulesOf(a) && r !in s.tables.rules
    ensures
      var q := Apply(s, UpdateSlice(a, spec)).queue;
      r.slot.node in q.pending && q.pending[r.slot.node] == Entry(s.now, Live) && q.batch == s.queue.batch
  {
    ApplyQueueSplit(s, UpdateSlice(a, spec));
    assert r in RulesOf(a) - s.tables.rules;
    assert r.slot.node in Queued(s.tables, UpdateSlice(a, spec));
    assert r.slot.node in ApplyTables(s.tables, UpdateSlice(a, spec)).nodes;
  }

  lemma AddQueue(s: System, n: NodeName)
    ensures Apply(s, AddNode(n)).queue == s.queue
  {
    EnqueueNothing(s.queue, ApplyTables(s.tables, AddNode(n)), s.now);
  }

  lemma JoinedQueue(n: NodeName)
    ensures Run(EMPTY, Joined(n, n)).queue == EMPTY.queue
  {
    assert Run(EMPTY, []) == EMPTY;
    NextQueue([], AddNode(n));
    NextQueue([] + [AddNode(n)], AddNode(n));
    AddQueue(EMPTY, n);
    AddQueue(Run(EMPTY, [] + [AddNode(n)]), n);
  }

  lemma ReaddedRun(begun: seq<Op>, n: NodeName, r: Rule)
    requires
      var s := Run(EMPTY, begun);
      && RealRun(begun) && s.queue.batch == map[] && n in s.queue.pending && s.queue.pending[n].ref.Live?
      && r in s.tables.rules && r.slot.node == n
    ensures
      var s := Run(EMPTY, Readded(begun, n));
      && RealRun(Readded(begun, n)) && n in s.tables.nodes && RulesAt(s.tables.rules, n) == {}
      && n !in s.queue.pending && n !in s.queue.batch
      && n in s.queue.written && r in s.queue.written[n].view.rules
  {
    TakenRun(begun, n, r);
    var taken := begun + [TakeBatch];
    WrittenRun(taken, n, r);
    var written := taken + [WriteNode(n, true)];
    NextReal(written, RemoveNode(n));
    NextReal(written + [RemoveNode(n)], AddNode(n));
    NextQueue(written, RemoveNode(n));
    NextQueue(written + [RemoveNode(n)], AddNode(n));
    RemoveAdd(Run(EMPTY, written), n);
  }

  lemma TakenRun(begun: seq<Op>, n: NodeName, r: Rule)
    requires
      var s := Run(EMPTY, begun);
      && RealRun(begun) && s.queue.batch == map[] && n in s.queue.pending && s.queue.pending[n].ref.Live?
      && r in s.tables.rules
    ensures
      var s := Run(EMPTY, begun + [TakeBatch]);
      && RealRun(begun + [TakeBatch]) && s.queue.pending == map[] && n in s.queue.batch && s.queue.batch[n].ref.Live?
      && r in s.tables.rules
  {
    NextReal(begun, TakeBatch);
    NextQueue(begun, TakeBatch);
    ApplyQueueSplit(Run(EMPTY, begun), TakeBatch);
  }

  lemma WrittenRun(taken: seq<Op>, n: NodeName, r: Rule)
    requires
      var s := Run(EMPTY, taken);
      && RealRun(taken) && s.queue.pending == map[] && n in s.queue.batch && s.queue.batch[n].ref.Live?
      && r in s.tables.rules && r.slot.node == n
    ensures
      var s := Run(EMPTY, taken + [WriteNode(n, true)]);
      && RealRun(taken + [WriteNode(n, true)]) && n !in s.queue.pending && n !in s.queue.batch
      && n in s.queue.written && r in s.queue.written[n].view.rules
  {
    NextReal(taken, WriteNode(n, true));
    NextQueue(taken, WriteNode(n, true));
    ApplyQueueSplit(Run(EMPTY, taken), WriteNode(n, true));
  }

  lemma RemoveAdd(s: System, n: NodeName)
    requires n !in s.queue.pending && n !in s.queue.batch
    ensures
      var u := Apply(Apply(s, RemoveNode(n)), AddNode(n));
      && n in u.tables.nodes && RulesAt(u.tables.rules, n) == {} && u.queue == s.queue
  {
    ApplyQueueSplit(s, RemoveNode(n));
    AddQueue(Apply(s, RemoveNode(n)), n);
  }
}
