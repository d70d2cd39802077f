/** What holds after every run of the proxy controller. */
module ProxyRuns {
  import opened ProxyTypes
  import opened ProxySpec

  // ---------- the incremental sync against recomputation ----------

  ghost predicate Listed(slices: map<ObjectKey, SliceInfo>, r: Rule) {
    exists k <- slices :: r in RulesOf(slices[k])
  }

  ghost predicate ListedByOther(slices: map<ObjectKey, SliceInfo>, key: ObjectKey, r: Rule) {
    exists k <- slices :: k != key && r in RulesOf(slices[k])
  }

  /** The rules computed from scratch from all recorded slices. */
  ghost function Recompute(slices: map<ObjectKey, SliceInfo>): (rules: set<Rule>)
    ensures forall r :: r in rules <==> Listed(slices, r)
  {
    set k, r | k in slices && r in RulesOf(slices[k]) :: r
  }

  /** The slices alone decide whether syncing `next` is exact: nothing it drops may be listed by
      another slice, and whatever its previous version listed is dropped or still listed. */
  ghost predicate Separable(slices: map<ObjectKey, SliceInfo>, next: SliceInfo) {
    var prev := SliceOrZero(slices, next.key);
    && (forall r <- Dropped(prev, next) :: !ListedByOther(slices, next.key, r))
    && (forall r <- RulesOf(prev) ::
          r in Dropped(prev, next) || r in RulesOf(next) || ListedByOther(slices, next.key, r))
  }

  lemma ListedAfter(slices: map<ObjectKey, SliceInfo>, next: SliceInfo, r: Rule)
    ensures Listed(slices[next.key := next], r) <==> r in RulesOf(next) || ListedByOther(slices, next.key, r)
    ensures Listed(slices - {next.key}, r) <==> ListedByOther(slices, next.key, r)
    ensures Listed(slices, r) <==>
      r in RulesOf(SliceOrZero(slices, next.key)) || ListedByOther(slices, next.key, r)
  {
    var after := slices[next.key := next];
    if r in RulesOf(next) {
      assert next.key in after && r in RulesOf(after[next.key]);
    }
    if ListedByOther(slices, next.key, r) {
      var k :| k in slices && k != next.key && r in RulesOf(slices[k]);
      assert k in after && r in RulesOf(after[k]);
      assert k in slices - {next.key};
    }
  }

  /** The rules after a sync, one at a time. */
  lemma SyncedRule(t: Tables, next: SliceInfo, r: Rule)
    requires t.rules == Recompute(t.slices)
    ensures
      var prev := SliceOrZero(t.slices, next.key);
      r in SyncSlice(t, next).rules <==>
      && (r in RulesOf(prev) || ListedByOther(t.slices, next.key, r) || r in RulesOf(next))
      && r !in Dropped(prev, next)
  {}

  lemma SyncExactIff(t: Tables, next: SliceInfo)
    requires t.rules == Recompute(t.slices)
    ensures SyncSlice(t, next).rules == Recompute(t.slices[next.key := next]) <==> Separable(t.slices, next)
  {
    var prev := SliceOrZero(t.slices, next.key);
    var synced, wanted := SyncSlice(t, next).rules, Recompute(t.slices[next.key := next]);
    forall r
      ensures (r in synced <==> r in wanted) <==>
        && (r in Dropped(prev, next) ==> !ListedByOther(t.slices, next.key, r))
        && (r in RulesOf(prev) ==>
              r in Dropped(prev, next) || r in RulesOf(next) || ListedByOther(t.slices, next.key, r))
    {
      ListedAfter(t.slices, next, r);
      SyncedRule(t, next, r);
    }
  }

  /** When a step keeps the tables exact, said about the recorded slices before the step. */
  ghost predicate KeepsExact(t: Tables, op: Op) {
    match op
    case RemoveNode(n) => forall r <- Recompute(t.slices) :: r.slot.node != n
    case CleanupService(k) => k in t.services ==>
      forall r <- Recompute(t.slices) :: !Cleaned(k, t.services[k], r.slot)
    case UpdateSlice(es, _) => Separable(t.slices, es)
    case DeleteSlice(k) => k in t.slices ==> Separable(t.slices, Emptied(t.slices[k]))
    case _ => true
  }

  /** A rule that is not there appears with a step if and only if the step syncs a slice that lists it
      and is not the one recorded already: what a removed node or a cleaned-up service takes along does
      not come back with them. */
  lemma RuleAppearsIff(t: Tables, op: Op, r: Rule)
    requires r !in t.rules
    ensures r in ApplyTables(t, op).rules <==>
      op.UpdateSlice? && !Unchanged(t, op.slice) && r in RulesOf(op.slice)
  {}

  /** Every recorded slice is recorded under its own key. */
  ghost predicate Keyed(slices: map<ObjectKey, SliceInfo>) {
    forall k <- slices :: slices[k].key == k
  }

  lemma DeleteExactIff(t: Tables, k: ObjectKey)
    requires t.rules == Recompute(t.slices) && Keyed(t.slices) && k in t.slices
    ensures
      var u := ForgetSlice(t, k);
      u.rules == Recompute(u.slices) <==> Separable(t.slices, Emptied(t.slices[k]))
  {
    var next := Emptied(t.slices[k]);
    SyncExactIff(t, next);
    EmptySliceListsNothing(t.slices, next);
    DeletedSlices(t, next);
  }

  lemma EmptySliceListsNothing(slices: map<ObjectKey, SliceInfo>, next: SliceInfo)
    requires next.ports == {}
    ensures Recompute(slices[next.key := next]) == Recompute(slices - {next.key})
  {
    forall r {
      ListedAfter(slices, next, r);
    }
  }

  lemma DeletedSlices(t: Tables, next: SliceInfo)
    ensures SyncSlice(t, next).slices - {next.key} == t.slices - {next.key}
  {}

  /** A step from exact tables leads to exact tables if and only if `KeepsExact`. */
  lemma StepExactIff(t: Tables, op: Op)
    requires t.rules == Recompute(t.slices) && Keyed(t.slices)
    ensures
      var u := ApplyTables(t, op);
      u.rules == Recompute(u.slices) <==> KeepsExact(t, op)
  {
    match op
    case UpdateSlice(es, spec) =>
      var t1 := SyncService(t, es.serviceKey, spec);
      SyncExactIff(t1, es);
      assert ApplyTables(t, op).slices == t1.slices[es.key := es];
    case DeleteSlice(k) =>
      if k in t.slices { DeleteExactIff(t, k); }
    case _ =>
  }

  lemma {:induction false} KeyedRun(ops: seq<Op>)
    ensures Keyed(Run(EMPTY, ops).tables.slices)
    decreases |ops|
  {
    if ops != [] {
      KeyedRun(ops[..|ops| - 1]);
    }
  }

  /** In every run all of whose steps satisfy `KeepsExact`, the incrementally kept rules are the
      ones computed from scratch. */
  lemma {:induction false} SyncRefinesRecompute(ops: seq<Op>)
    requires Along(EMPTY, ops, (s: System, op: Op) => KeepsExact(s.tables, op))
    ensures Run(EMPTY, ops).tables.rules == Recompute(Run(EMPTY, ops).tables.slices)
    decreases |ops|
  {
    if ops != [] {
      var init := ops[..|ops| - 1];
      SyncRefinesRecompute(init);
      KeyedRun(init);
      StepExactIff(Run(EMPTY, init).tables, ops[|ops| - 1]);
    }
  }

  /** The slice keeps its service, and an IP it keeps stays on its node. */
  ghost predicate KeepsPlaces(slices: map<ObjectKey, SliceInfo>, next: SliceInfo) {
    next.key in slices ==>
      var prev := slices[next.key];
      && prev.serviceKey == next.serviceKey
      && forall ip <- prev.endpoints :: ip in next.endpoints ==> prev.endpoints[ip] == next.endpoints[ip]
  }

  /** No other recorded slice of the service lists an IP of the slice that is replaced. */
  ghost predicate DisjointIPs(slices: map<ObjectKey, SliceInfo>, key: ObjectKey) {
    key in slices ==>
      forall k <- slices :: k != key && slices[k].serviceKey == slices[key].serviceKey ==>
        slices[k].endpoints.Keys !! slices[key].endpoints.Keys
  }

  /** The everyday discipline: slices keep their places and list disjoint IPs. */
  ghost predicate Tidy(t: Tables, op: Op) {
    match op
    case RemoveNode(_) => false
    case CleanupService(_) => false
    case UpdateSlice(es, _) => KeepsPlaces(t.slices, es) && DisjointIPs(t.slices, es.key)
    case DeleteSlice(k) => DisjointIPs(t.slices, k)
    case _ => true
  }

  lemma TidyKeepsExact(t: Tables, op: Op)
    requires Tidy(t, op) && Keyed(t.slices)
    ensures KeepsExact(t, op)
  {}

  lemma {:induction false} TidyRun(ops: seq<Op>)
    requires Along(EMPTY, ops, (s: System, op: Op) => Tidy(s.tables, op))
    ensures Along(EMPTY, ops, (s: System, op: Op) => KeepsExact(s.tables, op))
    decreases |ops|
  {
    if ops != [] {
      var init := ops[..|ops| - 1];
      TidyRun(init);
      KeyedRun(init);
      TidyKeepsExact(Run(EMPTY, init).tables, ops[|ops| - 1]);
    }
  }

  /** Without node removal and service cleanup, slices that keep their places and list disjoint IPs
      give every node the rules computed from scratch. */
  lemma TidyRunsAreExact(ops: seq<Op>)
    requires Along(EMPTY, ops, (s: System, op: Op) => Tidy(s.tables, op))
    ensures Run(EMPTY, ops).tables.rules == Recompute(Run(EMPTY, ops).tables.slices)
  {
    TidyRun(ops);
    SyncRefinesRecompute(ops);
  }

  // ---------- nothing stale is served ----------

  ghost predicate Justified(t: Tables) {
    forall r <- t.rules :: Listed(t.slices, r)
  }

  ghost predicate InPlace(t: Tables, op: Op) {
    op.UpdateSlice? ==> KeepsPlaces(t.slices, op.slice)
  }

  lemma SyncJustified(t: Tables, next: SliceInfo)
    requires Justified(t) && KeepsPlaces(t.slices, next)
    ensures Justified(SyncSlice(t, next))
  {
    var u := SyncSlice(t, next);
    if !Unchanged(t, next) {
      forall r | r in u.rules
        ensures Listed(u.slices, r)
      {
        ListedAfter(t.slices, next, r);
      }
    }
  }

  lemma StepJustified(t: Tables, op: Op)
    requires Justified(t) && Keyed(t.slices) && InPlace(t, op)
    ensures Justified(ApplyTables(t, op))
  {
    match op
    case UpdateSlice(es, spec) => SyncJustified(SyncService(t, es.serviceKey, spec), es);
    case DeleteSlice(k) =>
      if k in t.slices {
        var next := Emptied(t.slices[k]);
        SyncJustified(t, next);
        var u := SyncSlice(t, next);
        forall r | r in u.rules
          ensures Listed(u.slices - {k}, r)
        {
          ListedAfter(u.slices, next, r);
        }
      }
    case _ =>
  }

  /** Over every interleaving of reconciles in which slices keep their places, every rule any
      node serves is listed by a recorded slice: that IP, on that node, for that port. */
  lemma {:induction false} NothingStale(ops: seq<Op>)
    requires Along(EMPTY, ops, (s: System, op: Op) => InPlace(s.tables, op))
    ensures Justified(Run(EMPTY, ops).tables)
    decreases |ops|
  {
    if ops != [] {
      var init := ops[..|ops| - 1];
      NothingStale(init);
      KeyedRun(init);
      StepJustified(Run(EMPTY, init).tables, ops[|ops| - 1]);
    }
  }
}
