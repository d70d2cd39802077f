/** Which service ports the nodes announce, and whether they announce what the service says now. */
module ProxyPorts {
  import opened ProxyTypes
  import opened ProxySpec
  import opened ProxyCleanup

  predicate Bound(bindings: set<Binding>, slot: Slot) {
    exists b <- bindings :: b.slot == slot
  }

  // ---------- every backend is announced ----------

  /** Every rule has its service port on the node. */
  ghost predicate Announced(t: Tables) {
    forall r <- t.rules :: Bound(t.bindings, r.slot)
  }

  /** A port that leaves the slice takes all the rules of its slots along. */
  ghost predicate TakesAll(t: Tables, next: SliceInfo) {
    var dropped := Dropped(SliceOrZero(t.slices, next.key), next);
    forall d <- dropped :: d.slot.spn.port !in next.ports ==>
      forall r <- t.rules :: r.slot == d.slot ==> r in dropped
  }

  ghost predicate KeepsAnnounced(t: Tables, op: Op) {
    match op
    case UpdateSlice(es, _) => TakesAll(t, es)
    case DeleteSlice(k) => k in t.slices ==> TakesAll(t, Emptied(t.slices[k]))
    case _ => true
  }

  lemma SyncBinds(t: Tables, next: SliceInfo, slot: Slot)
    requires !Unchanged(t, next)
    ensures
      var prev := SliceOrZero(t.slices, next.key);
      var added, dropped := RulesOf(next), Dropped(prev, next);
      Bound(SyncSlice(t, next).bindings, slot) <==>
      && (slot in Slots(added) || Bound(t.bindings, slot))
      && slot !in Closed(dropped, next.ports, t.rules + added - dropped)
  {
    var svc := ServiceOrZero(t.services, next.serviceKey);
    var added := RulesOf(next);
    var bound := Bind(t.bindings, svc, Slots(added));
    if slot in Slots(added) {
      assert Binding(slot, MakeServicePort(svc, slot.spn.port)) in bound;
    } else if Bound(t.bindings, slot) {
      var b :| b in t.bindings && b.slot == slot;
      assert b in bound;
    }
  }

  lemma SyncAnnouncedIff(t: Tables, next: SliceInfo)
    requires Announced(t) && !Unchanged(t, next)
    ensures Announced(SyncSlice(t, next)) <==> TakesAll(t, next)
  {
    var u := SyncSlice(t, next);
    var dropped := Dropped(SliceOrZero(t.slices, next.key), next);
    if TakesAll(t, next) {
      forall r | r in u.rules
        ensures Bound(u.bindings, r.slot)
      {
        SyncBinds(t, next, r.slot);
      }
    } else {
      var d, r :| d in dropped && d.slot.spn.port !in next.ports && r in t.rules && r.slot == d.slot && r !in dropped;
      SyncBinds(t, next, r.slot);
      assert r in u.rules;
    }
  }

  lemma UnchangedTakesAll(t: Tables, next: SliceInfo)
    requires Unchanged(t, next)
    ensures TakesAll(t, next)
  {}

  /** From tables in which every rule is announced, a step keeps that if and only if no port
      leaves a slice on a node where another slice still has backends for it. */
  lemma StepAnnouncedIff(t: Tables, op: Op)
    requires Announced(t)
    ensures Announced(ApplyTables(t, op)) <==> KeepsAnnounced(t, op)
  {
    match op
    case UpdateSlice(es, spec) => SyncStepAnnounced(SyncService(t, es.serviceKey, spec), es);
    case DeleteSlice(k) =>
      if k in t.slices { SyncStepAnnounced(t, Emptied(t.slices[k])); }
    case _ => FilterAnnounced(t, op);
  }

  lemma SyncStepAnnounced(t: Tables, next: SliceInfo)
    requires Announced(t)
    ensures Announced(SyncSlice(t, next)) <==> TakesAll(t, next)
  {
    if Unchanged(t, next) {
      UnchangedTakesAll(t, next);
    } else {
      SyncAnnouncedIff(t, next);
    }
  }

  lemma FilterAnnounced(t: Tables, op: Op)
    requires Announced(t) && !op.UpdateSlice? && !op.DeleteSlice?
    ensures Announced(ApplyTables(t, op))
  {}

  /** In such runs a node announces a service port exactly when it has a backend for it. */
  lemma {:induction false} AnnouncedRun(ops: seq<Op>, slot: Slot)
    requires Along(EMPTY, ops, (s: System, op: Op) => KeepsAnnounced(s.tables, op))
    ensures Announced(Run(EMPTY, ops).tables)
    ensures Bound(Run(EMPTY, ops).tables.bindings, slot) <==> HasRule(Run(EMPTY, ops).tables.rules, slot)
    decreases |ops|
  {
    if ops != [] {
      AnnouncedRun(ops[..|ops| - 1], slot);
      StepAnnouncedIff(Run(EMPTY, ops[..|ops| - 1]).tables, ops[|ops| - 1]);
    }
    BackedRun(ops);
  }

  // ---------- what is announced is current ----------

  /** A service port has the service's address and affinity, under the given port. */
  predicate Tells(sp: ServicePort, svc: Service, port: Port) {
    && sp.clusterIP == svc.clusterIP && sp.port == port
    && sp.sessionAffinity == svc.sessionAffinity && sp.stickyMaxAgeSeconds == svc.stickyMaxAgeSeconds
  }

  /** Every service port on a node carries the service's present cluster IP and affinity. */
  ghost predicate Current(t: Tables) {
    forall b <- t.bindings ::
      b.slot.spn.service in t.services && Tells(b.port, t.services[b.slot.spn.service], b.slot.spn.port)
  }

  /** The slots a slice sync writes or closes. */
  function Touched(t: Tables, next: SliceInfo): set<Slot> {
    if Unchanged(t, next) then {} else
    var added, dropped := RulesOf(next), Dropped(SliceOrZero(t.slices, next.key), next);
    Slots(added) + Closed(dropped, next.ports, t.rules + added - dropped)
  }

  ghost predicate KeepsCurrent(t: Tables, op: Op) {
    match op
    case UpdateService(k, spec) =>
      ServiceChanged(t, k, spec) ==> forall b <- t.bindings :: b.slot.spn.service != k
    case UpdateSlice(es, spec) =>
      ServiceChanged(t, es.serviceKey, spec) ==>
        forall b <- t.bindings :: b.slot.spn.service == es.serviceKey ==> b.slot in Touched(t, es)
    case CleanupService(k) =>
      k in t.services ==> forall b <- t.bindings :: b.slot.spn.service == k ==> Cleaned(k, t.services[k], b.slot)
    case _ => true
  }

  /** The bindings of `k` are outdated when `changed`; all others are current. */
  ghost predicate CurrentBut(t: Tables, k: ObjectKey, changed: bool) {
    forall b <- t.bindings ::
      && b.slot.spn.service in t.services
      && (Tells(b.port, t.services[b.slot.spn.service], b.slot.spn.port)
          <==> !(changed && b.slot.spn.service == k))
  }

  lemma ServiceCurrent(t: Tables, k: ObjectKey, spec: ServiceSpec)
    requires Current(t)
    ensures CurrentBut(SyncService(t, k, spec), k, ServiceChanged(t, k, spec))
  {}

  lemma SyncBindings(t: Tables, next: SliceInfo, b: Binding)
    ensures
      b in SyncSlice(t, next).bindings <==>
      if b.slot !in Touched(t, next) then b in t.bindings else
      && b.slot !in Closed(Dropped(SliceOrZero(t.slices, next.key), next), next.ports, SyncSlice(t, next).rules)
      && Tells(b.port, ServiceOrZero(t.services, next.serviceKey), b.slot.spn.port)
  {}

  lemma SyncSpec(t: Tables, next: SliceInfo, b: Binding)
    requires b.slot.spn.service in t.services
    ensures
      var u := SyncSlice(t, next);
      && b.slot.spn.service in u.services
      && (Tells(b.port, u.services[b.slot.spn.service], b.slot.spn.port) <==>
          Tells(b.port, t.services[b.slot.spn.service], b.slot.spn.port))
  {}

  lemma TouchedService(t: Tables, next: SliceInfo, slot: Slot)
    requires slot in Touched(t, next)
    ensures slot.spn.service == next.serviceKey
    ensures !Unchanged(t, next)
  {}

  lemma SyncCurrentIff(t: Tables, next: SliceInfo, changed: bool)
    requires CurrentBut(t, next.serviceKey, changed)
    ensures Current(SyncSlice(t, next)) <==>
      (changed ==> forall b <- t.bindings :: b.slot.spn.service == next.serviceKey ==> b.slot in Touched(t, next))
  {
    var u := SyncSlice(t, next);
    forall b | b in u.bindings && b.slot in Touched(t, next)
      ensures b.slot.spn.service in u.services
      ensures Tells(b.port, u.services[b.slot.spn.service], b.slot.spn.port)
    {
      TouchedService(t, next, b.slot);
      SyncBindings(t, next, b);
    }
    forall b | b in t.bindings && b.slot !in Touched(t, next)
      ensures b in u.bindings
      ensures b.slot.spn.service in u.services
      ensures Tells(b.port, u.services[b.slot.spn.service], b.slot.spn.port)
              <==> !(changed && b.slot.spn.service == next.serviceKey)
    {
      SyncBindings(t, next, b);
      SyncSpec(t, next, b);
    }
    forall b | b in u.bindings && b.slot !in Touched(t, next)
      ensures b in t.bindings
    {
      SyncBindings(t, next, b);
    }
  }

  /** From current tables, a step leads to current tables if and only if `KeepsCurrent`: a changed
      service reaches a node only through a changed slice that lists a backend there. */
  lemma StepCurrentIff(t: Tables, op: Op)
    requires Current(t)
    ensures Current(ApplyTables(t, op)) <==> KeepsCurrent(t, op)
  {
    match op
    case UpdateService(k, spec) => ServiceCurrent(t, k, spec);
    case UpdateSlice(es, spec) =>
      ServiceCurrent(t, es.serviceKey, spec);
      SyncCurrentIff(SyncService(t, es.serviceKey, spec), es, ServiceChanged(t, es.serviceKey, spec));
    case DeleteSlice(k) =>
      if k in t.slices {
        SyncCurrentIff(t, Emptied(t.slices[k]), false);
      }
    case _ =>
  }

  /** A changed slice brings what its service object says: every slot it lists a backend for announces,
      and only announces, the service's address and affinity under the slot's port. */
  lemma SyncAnnounces(t: Tables, es: SliceInfo, spec: ServiceSpec, r: Rule, b: Binding)
    requires !Unchanged(t, es) && r in RulesOf(es) && b.slot == r.slot
    ensures b in ApplyTables(t, UpdateSlice(es, spec)).bindings <==>
      && b.port.clusterIP == spec.clusterIP && b.port.port == b.slot.spn.port
      && b.port.sessionAffinity == spec.sessionAffinity && b.port.stickyMaxAgeSeconds == spec.stickyMaxAgeSeconds
  {
    var t1 := SyncService(t, es.serviceKey, spec);
    SyncBindings(t1, es, b);
    assert r in SyncSlice(t1, es).rules && r.slot in Touched(t1, es);
  }

  lemma {:induction false} CurrentRun(ops: seq<Op>)
    requires Along(EMPTY, ops, (s: System, op: Op) => KeepsCurrent(s.tables, op))
    ensures Current(Run(EMPTY, ops).tables)
    decreases |ops|
  {
    if ops != [] {
      CurrentRun(ops[..|ops| - 1]);
      StepCurrentIff(Run(EMPTY, ops[..|ops| - 1]).tables, ops[|ops| - 1]);
    }
  }
}
