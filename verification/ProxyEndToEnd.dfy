/** From the recorded slices and services to the rules written for each node. */
module ProxyEndToEnd {
  import opened ProxyTypes
  import opened ProxySpec
  import opened ProxyRuns
  import opened ProxyCleanup
  import opened ProxyQueue
  import opened ProxyPorts

  /** What node `n` should be given, computed from the slices and services alone: the backends the
      slices list on it, and for each of their ports the service's present address and affinity. */
  ghost function Wanted(t: Tables, n: NodeName): (v: View)
    ensures forall r :: r in v.rules <==> r.slot.node == n && Listed(t.slices, r)
    ensures forall b :: b in v.bindings <==>
      HasRule(v.rules, b.slot) && Tells(b.port, ServiceOrZero(t.services, b.slot.spn.service), b.slot.spn.port)
  {
    var rules := RulesAt(Recompute(t.slices), n);
    View((set r | r in rules ::
            var svc := ServiceOrZero(t.services, r.slot.spn.service);
            Binding(r.slot, ServicePort(svc.clusterIP, r.slot.spn.port, svc.sessionAffinity, svc.stickyMaxAgeSeconds))),
         rules)
  }

  /** Each step keeps the rules exact, announced and current. */
  ghost predicate Proper(t: Tables, op: Op) {
    KeepsExact(t, op) && KeepsAnnounced(t, op) && KeepsCurrent(t, op)
  }

  ghost predicate Exact(t: Tables) {
    && t.rules == Recompute(t.slices) && Keyed(t.slices)
    && Announced(t) && Current(t) && Backed(t.bindings, t.rules) && Housed(t)
  }

  lemma StepExact(t: Tables, op: Op)
    requires Exact(t)
    ensures
      var u := ApplyTables(t, op);
      (u.rules == Recompute(u.slices) && Announced(u) && Current(u)) <==> Proper(t, op)
  {
    StepExactIff(t, op);
    StepAnnouncedIff(t, op);
    StepCurrentIff(t, op);
  }

  lemma {:induction false} ExactRun(ops: seq<Op>)
    requires Along(EMPTY, ops, (s: System, op: Op) => Proper(s.tables, op))
    ensures Exact(Run(EMPTY, ops).tables)
    decreases |ops|
  {
    KeyedRun(ops);
    BackedRun(ops);
    if ops != [] {
      ExactRun(ops[..|ops| - 1]);
      StepExact(Run(EMPTY, ops[..|ops| - 1]).tables, ops[|ops| - 1]);
    }
  }

  /** Exact tables hold for each node what is wanted for it. */
  lemma ExactIsWanted(t: Tables, n: NodeName)
    requires Exact(t)
    ensures ViewOf(t, n) == Wanted(t, n)
  {}

  // ---------- an unqueued node is an unchanged node ----------

  lemma SyncLeavesBindings(t: Tables, next: SliceInfo, n: NodeName, b: Binding)
    requires Announced(t) && Current(t)
    requires n !in QueuedBySlice(t, next, false) && b.slot.node == n
    ensures b in SyncSlice(t, next).bindings <==> b in t.bindings
  {}

  lemma SyncLeavesBindingsAlone(t: Tables, next: SliceInfo, n: NodeName, b: Binding)
    requires n !in QueuedBySlice(t, next, true) && b.slot.node == n
    ensures b in SyncSlice(t, next).bindings <==> b in t.bindings
  {}

  /** A step that does not queue a node leaves everything the node is given as it was. */
  lemma StepLeaves(t: Tables, op: Op, n: NodeName)
    requires Announced(t) && Current(t)
    requires n !in Queued(t, op) && n in ApplyTables(t, op).nodes
    ensures ViewOf(ApplyTables(t, op), n) == ViewOf(t, n)
  {
    var u := ApplyTables(t, op);
    StepQueues(t, op, n);
    assert ViewOf(u, n).rules == RulesAt(u.rules, n) && ViewOf(t, n).rules == RulesAt(t.rules, n);
    forall b: Binding | b.slot.node == n
      ensures b in u.bindings <==> b in t.bindings
    {
      StepLeavesBinding(t, op, n, b);
    }
  }

  lemma StepLeavesBinding(t: Tables, op: Op, n: NodeName, b: Binding)
    requires Announced(t) && Current(t)
    requires n !in Queued(t, op) && n in ApplyTables(t, op).nodes && b.slot.node == n
    ensures b in ApplyTables(t, op).bindings <==> b in t.bindings
  {
    match op
    case UpdateSlice(es, spec) =>
      var t1 := SyncService(t, es.serviceKey, spec);
      if ServiceChanged(t, es.serviceKey, spec) {
        SyncLeavesBindingsAlone(t1, es, n, b);
      } else {
        SyncLeavesBindings(t, es, n, b);
      }
    case DeleteSlice(k) =>
      if k in t.slices { SyncLeavesBindings(t, Emptied(t.slices[k]), n, b); }
    case _ =>
  }

  // ---------- the queue mirrors the tables ----------

  lemma UnhousedIsEmpty(t: Tables, n: NodeName)
    requires Housed(t) && n !in t.nodes
    ensures ViewOf(t, n) == NOTHING
  {}

  /** A node leaves only when nothing is listed on it, and then it has nothing. */
  lemma LeavesEmpty(t: Tables, n: NodeName)
    requires Exact(t) && KeepsExact(t, RemoveNode(n))
    ensures ViewOf(t, n) == NOTHING
  {}

  /** A step that neither queues the node nor removes it with anything on it leaves what it has. */
  lemma StepKeepsView(s: System, op: Op, n: NodeName)
    requires Exact(s.tables) && Housed(ApplyTables(s.tables, op)) && Proper(s.tables, op) && !Queues(s, op, n)
    ensures ViewOf(ApplyTables(s.tables, op), n) == ViewOf(s.tables, n)
  {
    var t, u := s.tables, ApplyTables(s.tables, op);
    if n in u.nodes {
      if n !in Queued(t, op) {
        StepLeaves(t, op, n);
      }
    } else {
      UnhousedIsEmpty(u, n);
      if op == RemoveNode(n) {
        LeavesEmpty(t, n);
      } else if n in t.nodes {
        NodesStay(t, op, n);
      } else {
        UnhousedIsEmpty(t, n);
      }
    }
  }

  lemma {:induction false} MirrorsRun(ops: seq<Op>, n: NodeName)
    requires Along(EMPTY, ops, (s: System, op: Op) => Proper(s.tables, op))
    ensures LatestView(Run(EMPTY, ops), n) == ViewOf(Run(EMPTY, ops).tables, n)
    decreases |ops|
  {
    if ops != [] {
      var init, op := ops[..|ops| - 1], ops[|ops| - 1];
      MirrorsRun(init, n);
      ExactRun(init);
      BackedRun(ops);
      LatestViewStep(Run(EMPTY, init), op, n);
      if !Queues(Run(EMPTY, init), op, n) {
        StepKeepsView(Run(EMPTY, init), op, n);
      }
    }
  }

  /** End to end: in every run of proper steps, what the config map of a node comes to hold, if nothing
      but writes happens from then on, is what the slices and services ask for. Once the queue has
      drained that is what is written, and a node with nothing written is a node nothing is asked for. */
  lemma LatestIsWanted(ops: seq<Op>, n: NodeName)
    requires Along(EMPTY, ops, (s: System, op: Op) => Proper(s.tables, op))
    ensures
      var s := Run(EMPTY, ops);
      && LatestView(s, n) == Wanted(s.tables, n)
      && (s.queue.pending == map[] && s.queue.batch == map[] ==>
            Wanted(s.tables, n) == if n in s.queue.written then s.queue.written[n].view else NOTHING)
  {
    MirrorsRun(ops, n);
    ExactRun(ops);
    ExactIsWanted(Run(EMPTY, ops).tables, n);
  }

  // ---------- what is wanted gets written ----------

  lemma QueueStepTables(ops: seq<Op>, op: Op)
    requires op.WriteNode? || op.TakeBatch?
    ensures Run(EMPTY, ops + [op]).tables == Run(EMPTY, ops).tables
  {
    assert (ops + [op])[..|ops|] == ops;
  }

  lemma QueueStepThen(ops: seq<Op>, op: Op)
    requires Along(EMPTY, ops, (s: System, op: Op) => Proper(s.tables, op)) && (op.WriteNode? || op.TakeBatch?)
    ensures Along(EMPTY, ops + [op], (s: System, op: Op) => Proper(s.tables, op))
  {
    var all := ops + [op];
    assert all[..|all| - 1] == ops;
  }

  lemma {:induction false} WriteAllKeeps(ops: seq<Op>, names: seq<NodeName>)
    requires Along(EMPTY, ops, (s: System, op: Op) => Proper(s.tables, op))
    ensures Along(EMPTY, WriteAll(ops, names), (s: System, op: Op) => Proper(s.tables, op))
    ensures Run(EMPTY, WriteAll(ops, names)).tables == Run(EMPTY, ops).tables
    decreases |names|
  {
    if names != [] {
      var init := names[..|names| - 1];
      WriteAllKeeps(ops, init);
      QueueStepThen(WriteAll(ops, init), WriteNode(names[|names| - 1], true));
      QueueStepTables(WriteAll(ops, init), WriteNode(names[|names| - 1], true));
    }
  }

  /** After every run of proper steps, once the round in progress and one more have gone through, the
      config map of every node holds what the slices and services ask for. */
  lemma DrainedIsWanted(ops: seq<Op>, first: seq<NodeName>, second: seq<NodeName>, n: NodeName)
    requires Along(EMPTY, ops, (s: System, op: Op) => Proper(s.tables, op))
    requires Run(EMPTY, ops).queue.batch.Keys <= Names(first) && Run(EMPTY, ops).queue.pending.Keys <= Names(second)
    ensures
      var written := Run(EMPTY, Drain(ops, first, second)).queue.written;
      Wanted(Run(EMPTY, ops).tables, n) == if n in written then written[n].view else NOTHING
  {
    var begun := WriteAll(ops, first);
    WriteAllKeeps(ops, first);
    QueueStepThen(begun, TakeBatch);
    QueueStepTables(begun, TakeBatch);
    WriteAllKeeps(begun + [TakeBatch], second);
    DrainEmpties(EMPTY, ops, first, second);
    LatestIsWanted(Drain(ops, first, second), n);
  }

  // ---------- in terms of the reconciles alone ----------

  /** What each service object last said, as the reconciles read it. */
  function LastSpecs(ops: seq<Op>): map<ObjectKey, ServiceSpec>
    decreases |ops|
  {
    if ops == [] then map[] else
    var before := LastSpecs(ops[..|ops| - 1]);
    match ops[|ops| - 1]
    case UpdateService(k, spec) => before[k := spec]
    case UpdateSlice(es, spec) => before[es.serviceKey := spec]
    case CleanupService(k) => before - {k}
    case _ => before
  }

  function NextSlices(slices: map<ObjectKey, SliceInfo>, op: Op): map<ObjectKey, SliceInfo> {
    match op
    case UpdateSlice(es, _) => slices[es.key := es]
    case DeleteSlice(k) => slices - {k}
    case _ => slices
  }

  /** The slices there are, as the reconciles last read them. */
  function LastSlices(ops: seq<Op>): map<ObjectKey, SliceInfo>
    decreases |ops|
  {
    if ops == [] then map[] else NextSlices(LastSlices(ops[..|ops| - 1]), ops[|ops| - 1])
  }

  const NO_SPEC := ServiceSpec("", "", 0)

  function LastSpec(ops: seq<Op>, k: ObjectKey): ServiceSpec {
    if k in LastSpecs(ops) then LastSpecs(ops)[k] else NO_SPEC
  }

  /** The recorded service says what the service object last said. */
  predicate Says(svc: Service, spec: ServiceSpec) {
    && svc.clusterIP == spec.clusterIP && svc.sessionAffinity == spec.sessionAffinity
    && svc.stickyMaxAgeSeconds == spec.stickyMaxAgeSeconds
  }

  lemma StepSays(t: Tables, op: Op, k: ObjectKey, spec: ServiceSpec)
    requires Says(ServiceOrZero(t.services, k), spec)
    ensures
      var svc := ServiceOrZero(ApplyTables(t, op).services, k);
      if op.UpdateService? && op.service == k then Says(svc, op.spec)
      else if op.UpdateSlice? && op.slice.serviceKey == k then Says(svc, op.spec)
      else if op.CleanupService? && op.service == k then Says(svc, NO_SPEC)
      else Says(svc, spec)
  {}

  lemma {:induction false} SaysRun(ops: seq<Op>, k: ObjectKey)
    ensures Says(ServiceOrZero(Run(EMPTY, ops).tables.services, k), LastSpec(ops, k))
    decreases |ops|
  {
    if ops != [] {
      var init, op := ops[..|ops| - 1], ops[|ops| - 1];
      SaysRun(init, k);
      StepSays(Run(EMPTY, init).tables, op, k, LastSpec(init, k));
    }
  }

  lemma StepSlices(t: Tables, op: Op)
    requires Keyed(t.slices)
    ensures ApplyTables(t, op).slices == NextSlices(t.slices, op)
  {
    match op
    case UpdateSlice(es, _) =>
      if Unchanged(t, es) { assert t.slices[es.key := es] == t.slices; }
    case DeleteSlice(k) =>
      if k in t.slices { ForgottenSlices(t.slices, k, Emptied(t.slices[k])); }
      else { assert t.slices - {k} == t.slices; }
    case _ =>
  }

  lemma ForgottenSlices(slices: map<ObjectKey, SliceInfo>, k: ObjectKey, es: SliceInfo)
    ensures slices[k := es] - {k} == slices - {k}
  {}

  /** The recorded slices are the ones last read. */
  lemma {:induction false} RecordedRun(ops: seq<Op>)
    ensures Run(EMPTY, ops).tables.slices == LastSlices(ops)
    decreases |ops|
  {
    if ops != [] {
      RecordedRun(ops[..|ops| - 1]);
      KeyedRun(ops[..|ops| - 1]);
      StepSlices(Run(EMPTY, ops[..|ops| - 1]).tables, ops[|ops| - 1]);
    }
  }

  /** After every run of proper steps and two rounds of accepted writes, what is written for a node is,
      rule by rule, what the slices last listed on it, and, service port by service port, the address and
      affinity its service object last gave. */
  lemma DrainedServes(ops: seq<Op>, first: seq<NodeName>, second: seq<NodeName>, n: NodeName, r: Rule, b: Binding)
    requires Along(EMPTY, ops, (s: System, op: Op) => Proper(s.tables, op))
    requires Run(EMPTY, ops).queue.batch.Keys <= Names(first) && Run(EMPTY, ops).queue.pending.Keys <= Names(second)
    ensures
      var written := Run(EMPTY, Drain(ops, first, second)).queue.written;
      var served := if n in written then written[n].view else NOTHING;
      var spec := LastSpec(ops, b.slot.spn.service);
      && (r in served.rules <==>
            r.slot.node == n && exists k <- LastSlices(ops) ::
              var es := LastSlices(ops)[k];
              && r.slot.spn.service == es.serviceKey && r.slot.spn.port in es.ports
              && r.endpoint.ip in es.endpoints && es.endpoints[r.endpoint.ip] == n
              && r.endpoint.port == r.slot.spn.port.number)
      && (b in served.bindings <==>
            && HasRule(served.rules, b.slot)
            && b.port.clusterIP == spec.clusterIP && b.port.port == b.slot.spn.port
            && b.port.sessionAffinity == spec.sessionAffinity
            && b.port.stickyMaxAgeSeconds == spec.stickyMaxAgeSeconds)
  {
    var t := Run(EMPTY, ops).tables;
    DrainedIsWanted(ops, first, second, n);
    RecordedRun(ops);
    SaysRun(ops, b.slot.spn.service);
    assert Listed(t.slices, r) <==> exists k <- t.slices :: r in RulesOf(t.slices[k]);
  }
}
