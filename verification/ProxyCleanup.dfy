/** When a service cleanup leaves nothing of the service behind. */
module ProxyCleanup {
  import opened ProxyTypes
  import opened ProxySpec
  import opened ProxyRuns

  type Placement = IP -> NodeName
  type Protocols = (ObjectKey, int) -> string

  // ---------- every virtual server has a backend ----------

  ghost predicate Backed(bindings: set<Binding>, rules: set<Rule>) {
    forall b <- bindings :: HasRule(rules, b.slot)
  }

  /** Rules and bindings exist only for nodes in the node set. */
  ghost predicate Housed(t: Tables) {
    && (forall r <- t.rules :: r.slot.node in t.nodes)
    && (forall b <- t.bindings :: b.slot.node in t.nodes)
  }

  lemma SyncBacked(t: Tables, next: SliceInfo)
    requires Backed(t.bindings, t.rules)
    ensures Backed(SyncSlice(t, next).bindings, SyncSlice(t, next).rules)
  {}

  lemma StepBacked(t: Tables, op: Op)
    requires Backed(t.bindings, t.rules)
    ensures Backed(ApplyTables(t, op).bindings, ApplyTables(t, op).rules)
  {
    var u := ApplyTables(t, op);
    match op
    case UpdateSlice(es, spec) => SyncBacked(SyncService(t, es.serviceKey, spec), es);
    case DeleteSlice(k) =>
      if k in t.slices { SyncBacked(t, Emptied(t.slices[k])); }
    case _ =>
      forall b | b in u.bindings
        ensures HasRule(u.rules, b.slot)
      {
        assert HasRule(t.rules, b.slot);
        var r :| r in t.rules && r.slot == b.slot;
        assert r in u.rules;
      }
  }

  lemma SyncHoused(t: Tables, next: SliceInfo)
    requires Housed(t)
    ensures Housed(SyncSlice(t, next))
  {}

  lemma StepHoused(t: Tables, op: Op)
    requires Housed(t)
    ensures Housed(ApplyTables(t, op))
  {
    match op
    case UpdateSlice(es, spec) => SyncHoused(SyncService(t, es.serviceKey, spec), es);
    case DeleteSlice(k) =>
      if k in t.slices { SyncHoused(t, Emptied(t.slices[k])); }
    case _ =>
  }

  /** In every run, with no assumption on slices, every announced service port has a rule, and
      rules live only on known nodes. */
  lemma {:induction false} BackedRun(ops: seq<Op>)
    ensures
      var t := Run(EMPTY, ops).tables;
      Backed(t.bindings, t.rules) && Housed(t)
    decreases |ops|
  {
    if ops != [] {
      var init := ops[..|ops| - 1];
      BackedRun(init);
      StepBacked(Run(EMPTY, init).tables, ops[|ops| - 1]);
      StepHoused(Run(EMPTY, init).tables, ops[|ops| - 1]);
    }
  }

  // ---------- complete cleanup ----------

  /** The service knows the rule: its port, its backend, and the node the backend sits on. */
  ghost predicate Known(services: map<ObjectKey, Service>, r: Rule) {
    var s := r.slot.spn.service;
    && s in services
    && r.slot.spn.port in services[s].ports
    && Backing(r.slot.spn.port, r.endpoint) in services[s].backings
    && Owner(r.endpoint, r.slot.node) in services[s].owners
  }

  ghost predicate AllKnown(t: Tables) {
    forall r <- t.rules :: Known(t.services, r)
  }

  /** A rule of the service that stays shares its backend, IP and port number, with no rule that the
      sync drops and with none it adds on another node. */
  ghost predicate Undisturbed(t: Tables, next: SliceInfo) {
    var added, dropped := RulesOf(next), Dropped(SliceOrZero(t.slices, next.key), next);
    Unchanged(t, next) ||
    forall r <- t.rules + added - dropped :: r.slot.spn.service == next.serviceKey ==>
      && r.endpoint !in EndpointsOf(dropped)
      && forall a <- added :: a.endpoint == r.endpoint ==> a.slot.node == r.slot.node
  }

  ghost predicate KeepsKnown(t: Tables, op: Op) {
    match op
    case UpdateSlice(es, _) => Undisturbed(t, es)
    case DeleteSlice(k) => k in t.slices ==> Undisturbed(t, Emptied(t.slices[k]))
    case _ => true
  }

  /** The service's record of one rule after a sync. */
  lemma RecordAfter(svc: Service, r: Rule, ports: set<Port>, gone: set<Port>, added: set<Rule>, dropped: set<Rule>)
    requires r in added ==> r.slot.spn.port in ports
    requires r !in added ==>
      && r.slot.spn.port in svc.ports
      && Backing(r.slot.spn.port, r.endpoint) in svc.backings
      && Owner(r.endpoint, r.slot.node) in svc.owners
    requires forall a, b :: a in added && b in added && a.endpoint == b.endpoint ==> a.slot.node == b.slot.node
    ensures
      var u := RemoveFromService(AddToService(svc, ports, added), gone, dropped);
      (&& r.slot.spn.port in u.ports
       && Backing(r.slot.spn.port, r.endpoint) in u.backings
       && Owner(r.endpoint, r.slot.node) in u.owners)
      <==>
      && r.endpoint !in EndpointsOf(dropped)
      && forall a <- added :: a.endpoint == r.endpoint ==> a.slot.node == r.slot.node
  {
    var u := RemoveFromService(AddToService(svc, ports, added), gone, dropped);
    assert Owner(r.endpoint, r.slot.node) in u.owners <==>
      && r.endpoint !in EndpointsOf(dropped)
      && (Owner(r.endpoint, r.slot.node) in OwnersOf(added) || r.endpoint !in EndpointsOf(added));
    if r.endpoint !in EndpointsOf(dropped) {
      assert forall d <- dropped :: d.endpoint != r.endpoint;
      assert Backing(r.slot.spn.port, r.endpoint) in u.backings;
    }
  }

  /** What the service's record holds after a slice sync: the backends it had and the slice's, without the
      dropped ones, and the ports it had and the slice's, without those the slice used to have and no
      backend is left for. */
  lemma SyncRecordIff(t: Tables, next: SliceInfo, p: Port, e: Endpoint)
    requires !Unchanged(t, next)
    ensures
      var svc, u := ServiceOrZero(t.services, next.serviceKey), SyncSlice(t, next).services[next.serviceKey];
      var prev := SliceOrZero(t.slices, next.key);
      && (Backing(p, e) in u.backings <==>
            && (Backing(p, e) in svc.backings || (p in next.ports && e.port == p.number && e.ip in next.endpoints))
            && !(p in prev.ports && e.port == p.number && e.ip in prev.endpoints
                 && (p !in next.ports || e.ip !in next.endpoints)))
      && (p in u.ports <==>
            (p in svc.ports || p in next.ports) && (p in prev.ports ==> exists b <- u.backings :: b.port == p))
  {
    var prev := SliceOrZero(t.slices, next.key);
    BackingListed(next, p, e);
    BackingListed(prev, p, e);
    BackingDropped(prev, next, p, e);
  }

  lemma BackingListed(es: SliceInfo, p: Port, e: Endpoint)
    ensures Backing(p, e) in BackingsOf(RulesOf(es)) <==>
      p in es.ports && e.port == p.number && e.ip in es.endpoints
  {
    if p in es.ports && e.port == p.number && e.ip in es.endpoints {
      assert Rule(Slot(es.endpoints[e.ip], ServicePortName(es.serviceKey, p)), e) in RulesOf(es);
    }
  }

  lemma BackingDropped(prev: SliceInfo, next: SliceInfo, p: Port, e: Endpoint)
    ensures Backing(p, e) in BackingsOf(Dropped(prev, next)) <==>
      && p in prev.ports && e.port == p.number && e.ip in prev.endpoints
      && (p !in next.ports || e.ip !in next.endpoints)
  {
    if p in prev.ports && e.port == p.number && e.ip in prev.endpoints
       && (p !in next.ports || e.ip !in next.endpoints) {
      assert Rule(Slot(prev.endpoints[e.ip], ServicePortName(next.serviceKey, p)), e) in Dropped(prev, next);
    }
  }

  lemma SyncKnownIff(t: Tables, next: SliceInfo)
    requires AllKnown(t)
    ensures AllKnown(SyncSlice(t, next)) <==> Undisturbed(t, next)
  {
    if !Unchanged(t, next) {
      var u := SyncSlice(t, next);
      var svc, prev := ServiceOrZero(t.services, next.serviceKey), SliceOrZero(t.slices, next.key);
      forall r | r in u.rules && r.slot.spn.service == next.serviceKey
        ensures Known(u.services, r) <==>
          && r.endpoint !in EndpointsOf(Dropped(prev, next))
          && forall a <- RulesOf(next) :: a.endpoint == r.endpoint ==> a.slot.node == r.slot.node
      {
        RecordAfter(svc, r, next.ports, prev.ports, RulesOf(next), Dropped(prev, next));
      }
      assert forall r <- u.rules :: r.slot.spn.service != next.serviceKey ==> Known(u.services, r);
    }
  }

  /** From tables in which the service records know every rule, a step leads to such tables if and
      only if it disturbs no backend that stays. */
  lemma StepKnownIff(t: Tables, op: Op)
    requires AllKnown(t)
    ensures AllKnown(ApplyTables(t, op)) <==> KeepsKnown(t, op)
  {
    match op
    case UpdateSlice(es, spec) => SyncKnownIff(SyncService(t, es.serviceKey, spec), es);
    case DeleteSlice(k) =>
      if k in t.slices { SyncKnownIff(t, Emptied(t.slices[k])); }
    case CleanupService(k) => CleanupKnown(t, k);
    case _ =>
  }

  lemma CleanupKnown(t: Tables, k: ObjectKey)
    requires AllKnown(t)
    ensures AllKnown(Cleanup(t, k))
  {}

  lemma {:induction false} KnownRun(ops: seq<Op>)
    requires Along(EMPTY, ops, (s: System, op: Op) => KeepsKnown(s.tables, op))
    ensures AllKnown(Run(EMPTY, ops).tables)
    decreases |ops|
  {
    if ops != [] {
      var init := ops[..|ops| - 1];
      KnownRun(init);
      StepKnownIff(Run(EMPTY, init).tables, ops[|ops| - 1]);
    }
  }

  /** Exactly when one cleanup leaves no rule and no binding of the service. */
  lemma CleanupCompleteIff(t: Tables, k: ObjectKey)
    requires Backed(t.bindings, t.rules)
    ensures
      var u := Cleanup(t, k);
      (&& (forall r <- u.rules :: r.slot.spn.service != k)
       && (forall b <- u.bindings :: b.slot.spn.service != k))
      <==>
      (forall r <- t.rules :: r.slot.spn.service == k ==>
        k in t.services && r.slot.spn.port in t.services[k].ports && r.slot.node in OwnerNodes(t.services[k]))
  {}

  /** After any run that disturbs no backend, a cleanup removes every trace of the service from every
      node, leaves the other services alone, and queues each node it changed. */
  lemma CleanupComplete(ops: seq<Op>, k: ObjectKey)
    requires Along(EMPTY, ops, (s: System, op: Op) => KeepsKnown(s.tables, op))
    ensures
      var s := Run(EMPTY, ops);
      var u := Apply(s, CleanupService(k));
      && u.tables.rules == (set r | r in s.tables.rules && r.slot.spn.service != k)
      && u.tables.bindings == (set b | b in s.tables.bindings && b.slot.spn.service != k)
      && u.tables.services == s.tables.services - {k}
      && u.tables.slices == s.tables.slices && u.tables.nodes == s.tables.nodes
      && forall n <- u.tables.nodes :: ViewOf(u.tables, n) != ViewOf(s.tables, n) ==>
           n in u.queue.pending && u.queue.pending[n] == Entry(s.now, Live)
  {
    var s := Run(EMPTY, ops);
    assert k !in s.tables.services ==> s.tables.services - {k} == s.tables.services;
    KnownRun(ops);
    BackedRun(ops);
    CleanupSplits(s.tables, k);
    CleanupQueues(s, k);
  }

  lemma CleanupSplits(t: Tables, k: ObjectKey)
    requires AllKnown(t) && Backed(t.bindings, t.rules)
    ensures
      var u := Cleanup(t, k);
      && u.rules == (set r | r in t.rules && r.slot.spn.service != k)
      && u.bindings == (set b | b in t.bindings && b.slot.spn.service != k)
  {
    forall r | r in t.rules && r.slot.spn.service == k
      ensures k in t.services && Cleaned(k, t.services[k], r.slot)
    {
      assert Known(t.services, r);
    }
  }

  lemma CleanupQueues(s: System, k: ObjectKey)
    ensures
      var u := Apply(s, CleanupService(k));
      forall n <- u.tables.nodes :: ViewOf(u.tables, n) != ViewOf(s.tables, n) ==>
        n in u.queue.pending && u.queue.pending[n] == Entry(s.now, Live)
  {}

  /** After any run that disturbs no backend, an update that changes the service queues every node that
      serves it. */
  lemma ServiceChangeQueues(ops: seq<Op>, k: ObjectKey, spec: ServiceSpec, r: Rule)
    requires Along(EMPTY, ops, (s: System, op: Op) => KeepsKnown(s.tables, op))
    requires
      var s := Run(EMPTY, ops);
      var svc := ServiceOrZero(s.tables.services, k);
      && r in s.tables.rules && r.slot.spn.service == k
      && (svc.clusterIP != spec.clusterIP || svc.sessionAffinity != spec.sessionAffinity
          || svc.stickyMaxAgeSeconds != spec.stickyMaxAgeSeconds)
    ensures
      var s := Run(EMPTY, ops);
      var q := Apply(s, UpdateService(k, spec)).queue;
      r.slot.node in q.pending && q.pending[r.slot.node] == Entry(s.now, Live)
  {
    var s := Run(EMPTY, ops);
    KnownRun(ops);
    BackedRun(ops);
    assert Known(s.tables.services, r);
    assert r.slot.node in OwnerNodes(s.tables.services[k]);
    assert r.slot.node in Queued(s.tables, UpdateService(k, spec)) * s.tables.nodes;
  }

  // ---------- an everyday condition ----------

  /** Each IP sits on one node, each port number of a service has one protocol. */
  ghost predicate Placed(r: Rule, place: Placement, proto: Protocols) {
    && r.slot.node == place(r.endpoint.ip)
    && r.endpoint.port == r.slot.spn.port.number
    && r.slot.spn.port.protocol == proto(r.slot.spn.service, r.slot.spn.port.number)
  }

  ghost predicate PlacedSlice(es: SliceInfo, place: Placement, proto: Protocols) {
    forall r <- RulesOf(es) :: Placed(r, place, proto)
  }

  ghost predicate Settled(t: Tables, place: Placement, proto: Protocols) {
    && (forall k <- t.slices :: PlacedSlice(t.slices[k], place, proto))
    && (forall r <- t.rules :: Placed(r, place, proto))
  }

  ghost predicate KeepsService(slices: map<ObjectKey, SliceInfo>, next: SliceInfo) {
    next.key in slices ==> slices[next.key].serviceKey == next.serviceKey
  }

  ghost predicate Orderly(t: Tables, op: Op, place: Placement, proto: Protocols) {
    op.UpdateSlice? ==> PlacedSlice(op.slice, place, proto) && KeepsService(t.slices, op.slice)
  }

  /** Two placed rules of one service with the same backend are the same rule. */
  lemma PlacedUnique(r: Rule, d: Rule, place: Placement, proto: Protocols)
    requires Placed(r, place, proto) && Placed(d, place, proto)
    requires r.endpoint == d.endpoint && r.slot.spn.service == d.slot.spn.service
    ensures r == d
  {}

  lemma PlacedUndisturbed(t: Tables, next: SliceInfo, place: Placement, proto: Protocols)
    requires Settled(t, place, proto) && PlacedSlice(next, place, proto) && KeepsService(t.slices, next)
    ensures Undisturbed(t, next)
  {
    var added, dropped := RulesOf(next), Dropped(SliceOrZero(t.slices, next.key), next);
    forall r, d | r in t.rules + added - dropped && r.slot.spn.service == next.serviceKey
        && d in dropped && d.endpoint == r.endpoint
      ensures false
    {
      PlacedUnique(r, d, place, proto);
    }
  }

  lemma SyncSettled(t: Tables, next: SliceInfo, place: Placement, proto: Protocols)
    requires Settled(t, place, proto) && PlacedSlice(next, place, proto)
    ensures Settled(SyncSlice(t, next), place, proto)
  {}

  lemma StepSettled(t: Tables, op: Op, place: Placement, proto: Protocols)
    requires Settled(t, place, proto) && Orderly(t, op, place, proto)
    ensures Settled(ApplyTables(t, op), place, proto)
  {
    match op
    case UpdateSlice(es, spec) => SyncSettled(SyncService(t, es.serviceKey, spec), es, place, proto);
    case DeleteSlice(k) =>
      if k in t.slices { SyncSettled(t, Emptied(t.slices[k]), place, proto); }
    case _ =>
  }

  lemma OrderlyStep(t: Tables, op: Op, place: Placement, proto: Protocols)
    requires Settled(t, place, proto) && Keyed(t.slices) && Orderly(t, op, place, proto)
    ensures KeepsKnown(t, op)
  {
    match op
    case UpdateSlice(es, _) => PlacedUndisturbed(t, es, place, proto);
    case DeleteSlice(k) =>
      if k in t.slices { PlacedUndisturbed(t, Emptied(t.slices[k]), place, proto); }
    case _ =>
  }

  /** When an IP only ever sits on one node, each port number of a service is only ever used with one
      protocol and slices keep their service, no step disturbs a backend. */
  lemma {:induction false} OrderlyRun(ops: seq<Op>, place: Placement, proto: Protocols)
    requires Along(EMPTY, ops, (s: System, op: Op) => Orderly(s.tables, op, place, proto))
    ensures Along(EMPTY, ops, (s: System, op: Op) => KeepsKnown(s.tables, op))
    ensures Settled(Run(EMPTY, ops).tables, place, proto)
    decreases |ops|
  {
    if ops != [] {
      var init := ops[..|ops| - 1];
      OrderlyRun(init, place, proto);
      KeyedRun(init);
      OrderlyStep(Run(EMPTY, init).tables, ops[|ops| - 1], place, proto);
      StepSettled(Run(EMPTY, init).tables, ops[|ops| - 1], place, proto);
    }
  }
}
