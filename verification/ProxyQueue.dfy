/** No rule change is lost between a reconcile and the config map it ends up in. Queue entries share
    the maps of their nodes, so what a write writes is decided when it happens. */
module ProxyQueue {
  import opened Prelude
  import opened ProxyTypes
  import opened ProxySpec
  import opened ProxyRuns
  import opened ProxyCleanup

  /** The entry of `n` that will be the last to be written. */
  function LatestEntry(q: Queue, n: NodeName): Option<Entry> {
    if n in q.pending then Some(q.pending[n])
    else if n in q.batch then Some(q.batch[n])
    else None
  }

  function LatestStamp(q: Queue, n: NodeName): Option<nat> {
    if LatestEntry(q, n).Some? then Some(LatestEntry(q, n).value.stamp)
    else if n in q.written then Some(q.written[n].stamp)
    else None
  }

  const NOTHING := View({}, {})

  /** What the config map of `n` comes to hold if nothing but writes happens from now on. */
  function LatestView(s: System, n: NodeName): View {
    var e := LatestEntry(s.queue, n);
    if e.Some? then (if e.value.ref.Live? then ViewOf(s.tables, n) else e.value.ref.view)
    else if n in s.queue.written then s.queue.written[n].view
    else NOTHING
  }

  /** Step `op` hands node `n` to the queue and the queue takes it. */
  predicate Queues(s: System, op: Op, n: NodeName) {
    && n in ApplyTables(s.tables, op).nodes
    && (n in Queued(s.tables, op) || (op == CheckNode(n) && n !in s.queue.pending))
  }

  /** The step that last queued `n` in the run. */
  ghost function Newest(ops: seq<Op>, n: NodeName): Option<nat>
    decreases |ops|
  {
    if ops == [] then None else
    var init, op := ops[..|ops| - 1], ops[|ops| - 1];
    if Queues(Run(EMPTY, init), op, n) then Some(Run(EMPTY, init).now) else Newest(init, n)
  }

  lemma LatestStampStep(s: System, op: Op, n: NodeName)
    ensures LatestStamp(Apply(s, op).queue, n) ==
      if Queues(s, op, n) then Some(s.now) else LatestStamp(s.queue, n)
  {}

  /** Whatever the interleaving of reconciles, checks, rounds and failed writes, the newest queueing of
      a node is pending, else in the batch being written, else written. */
  lemma {:induction false} NoUpdateLost(ops: seq<Op>, n: NodeName)
    ensures LatestStamp(Run(EMPTY, ops).queue, n) == Newest(ops, n)
    decreases |ops|
  {
    if ops != [] {
      var init := ops[..|ops| - 1];
      NoUpdateLost(init, n);
      LatestStampStep(Run(EMPTY, init), ops[|ops| - 1], n);
    }
  }

  lemma {:induction false} RunClock(ops: seq<Op>)
    ensures Run(EMPTY, ops).now == |ops|
    decreases |ops|
  {
    if ops != [] {
      RunClock(ops[..|ops| - 1]);
    }
  }

  // ---------- writes are in order ----------

  /** When the rules an entry would be written with date from. */
  function Age(e: Entry, now: nat): nat {
    if e.ref.Live? then now else e.ref.asOf
  }

  ghost predicate EntryOk(e: Entry, now: nat) {
    e.stamp < now && (e.ref.Frozen? ==> e.stamp < e.ref.asOf < now)
  }

  ghost predicate WrittenOk(w: Written, now: nat) {
    w.stamp < w.asOf < now
  }

  /** What is written is older than what waits, by stamp and by age. */
  ghost predicate WrittenBefore(w: Written, e: Entry, now: nat) {
    w.stamp < e.stamp && w.asOf <= Age(e, now)
  }

  ghost predicate EntryBefore(d: Entry, e: Entry, now: nat) {
    d.stamp < e.stamp && Age(d, now) <= Age(e, now)
  }

  /** A written version is older than one in the batch, which is older than one pending, and every
      version is younger than the step that queued it. */
  ghost predicate OrderedAt(q: Queue, now: nat, n: NodeName) {
    && (n in q.written ==> WrittenOk(q.written[n], now))
    && (n in q.batch ==> EntryOk(q.batch[n], now))
    && (n in q.pending ==> EntryOk(q.pending[n], now))
    && (n in q.written && n in q.batch ==> WrittenBefore(q.written[n], q.batch[n], now))
    && (n in q.written && n in q.pending ==> WrittenBefore(q.written[n], q.pending[n], now))
    && (n in q.batch && n in q.pending ==> EntryBefore(q.batch[n], q.pending[n], now))
  }

  lemma DetachOrdered(q: Queue, m: NodeName, view: View, now: nat, n: NodeName)
    requires OrderedAt(q, now, n)
    ensures OrderedAt(DetachBoth(q, m, now, view), now + 1, n)
  {}

  lemma WriteOrdered(q: Queue, m: NodeName, ok: bool, view: View, now: nat, n: NodeName)
    requires OrderedAt(q, now, n)
    ensures OrderedAt(Write(q, m, ok, view, now), now + 1, n)
  {}

  lemma ApplyQueueOrdered(q: Queue, t: Tables, op: Op, now: nat, n: NodeName)
    requires OrderedAt(q, now, n)
    ensures OrderedAt(ApplyQueue(q, t, op, now), now + 1, n)
  {
    match op
    case RemoveNode(m) => DetachOrdered(q, m, ViewOf(t, m), now, n);
    case WriteNode(m, ok) => WriteOrdered(q, m, ok, ViewOf(t, m), now, n);
    case _ =>
  }

  lemma EnqueueOrdered(q: Queue, t: Tables, names: set<NodeName>, now: nat, n: NodeName)
    requires OrderedAt(q, now, n)
    ensures OrderedAt(Enqueue(q, t, names, now), now + 1, n)
  {}

  /** A step either works on the queue or hands nodes to it, not both. */
  lemma ApplyQueueSplit(s: System, op: Op)
    ensures
      Apply(s, op).queue ==
      if op.CheckNode? || op.TakeBatch? || op.WriteNode? || op.RemoveNode?
      then ApplyQueue(s.queue, s.tables, op, s.now)
      else Enqueue(s.queue, ApplyTables(s.tables, op), Queued(s.tables, op), s.now)
  {
    EnqueueNothing(ApplyQueue(s.queue, s.tables, op, s.now), ApplyTables(s.tables, op), s.now);
  }

  lemma StepOrdered(s: System, op: Op, n: NodeName)
    requires OrderedAt(s.queue, s.now, n)
    ensures OrderedAt(Apply(s, op).queue, s.now + 1, n)
  {
    ApplyQueueSplit(s, op);
    ApplyQueueOrdered(s.queue, s.tables, op, s.now, n);
    EnqueueOrdered(s.queue, ApplyTables(s.tables, op), Queued(s.tables, op), s.now, n);
  }

  lemma WrittenAdvances(s: System, op: Op, n: NodeName)
    requires OrderedAt(s.queue, s.now, n) && n in s.queue.written
    ensures
      var w := Apply(s, op).queue.written;
      n in w && s.queue.written[n].stamp <= w[n].stamp && s.queue.written[n].asOf <= w[n].asOf
  {
    ApplyQueueSplit(s, op);
  }

  /** In every run the three places are ordered by age, so a failed old version never replaces a
      newer one. */
  lemma {:induction false} OrderedRun(ops: seq<Op>, n: NodeName)
    ensures OrderedAt(Run(EMPTY, ops).queue, Run(EMPTY, ops).now, n)
    decreases |ops|
  {
    if ops != [] {
      OrderedRun(ops[..|ops| - 1], n);
      StepOrdered(Run(EMPTY, ops[..|ops| - 1]), ops[|ops| - 1], n);
    }
  }

  /** What is written for a node stays or is replaced by something newer, however a run goes on. */
  lemma {:induction false} WrittenNeverGoesBack(ops: seq<Op>, k: nat, n: NodeName)
    requires k <= |ops| && n in Run(EMPTY, ops[..k]).queue.written
    ensures
      var earlier, later := Run(EMPTY, ops[..k]).queue.written, Run(EMPTY, ops).queue.written;
      n in later && earlier[n].stamp <= later[n].stamp && earlier[n].asOf <= later[n].asOf
    decreases |ops|
  {
    if k == |ops| {
      assert ops[..k] == ops;
    } else {
      var init := ops[..|ops| - 1];
      assert init[..k] == ops[..k];
      WrittenNeverGoesBack(init, k, n);
      OrderedRun(init, n);
      WrittenAdvances(Run(EMPTY, init), ops[|ops| - 1], n);
    }
  }

  // ---------- what is written was true ----------

  /** `view` is what node `n` had before step `asOf` of the run. */
  ghost predicate WasTrue(ops: seq<Op>, n: NodeName, asOf: nat, view: View) {
    asOf <= |ops| && view == ViewOf(Run(EMPTY, ops[..asOf]).tables, n)
  }

  ghost predicate EntryWasTrue(ops: seq<Op>, n: NodeName, m: Entries) {
    n in m && m[n].ref.Frozen? ==> WasTrue(ops, n, m[n].ref.asOf, m[n].ref.view)
  }

  ghost predicate QueueWasTrue(ops: seq<Op>, n: NodeName) {
    var q := Run(EMPTY, ops).queue;
    && EntryWasTrue(ops, n, q.pending) && EntryWasTrue(ops, n, q.batch)
    && (n in q.written ==> WasTrue(ops, n, q.written[n].asOf, q.written[n].view))
  }

  lemma StillTrue(ops: seq<Op>, n: NodeName, asOf: nat, view: View)
    requires ops != [] && WasTrue(ops[..|ops| - 1], n, asOf, view)
    ensures WasTrue(ops, n, asOf, view)
  {
    assert ops[..|ops| - 1][..asOf] == ops[..asOf];
  }

  lemma TrueNow(ops: seq<Op>, n: NodeName)
    requires ops != []
    ensures WasTrue(ops, n, |ops| - 1, ViewOf(Run(EMPTY, ops[..|ops| - 1]).tables, n))
  {}

  /** The queue has such rules of the node, frozen or written, or the node has them now. */
  ghost predicate Known(s: System, n: NodeName, asOf: nat, view: View) {
    || (n in s.queue.pending && s.queue.pending[n].ref == Frozen(asOf, view))
    || (n in s.queue.batch && s.queue.batch[n].ref == Frozen(asOf, view))
    || (n in s.queue.written && s.queue.written[n].asOf == asOf && s.queue.written[n].view == view)
    || (asOf == s.now && view == ViewOf(s.tables, n))
  }

  /** Where the frozen and written rules of a node come from in one step. */
  lemma StepSources(s: System, op: Op, n: NodeName)
    ensures
      var u := Apply(s, op).queue;
      && (n in u.pending && u.pending[n].ref.Frozen? ==> Known(s, n, u.pending[n].ref.asOf, u.pending[n].ref.view))
      && (n in u.batch && u.batch[n].ref.Frozen? ==> Known(s, n, u.batch[n].ref.asOf, u.batch[n].ref.view))
      && (n in u.written ==> Known(s, n, u.written[n].asOf, u.written[n].view))
  {
    ApplyQueueSplit(s, op);
  }

  lemma KnownWasTrue(ops: seq<Op>, n: NodeName, asOf: nat, view: View)
    requires ops != [] && QueueWasTrue(ops[..|ops| - 1], n) && Known(Run(EMPTY, ops[..|ops| - 1]), n, asOf, view)
    ensures WasTrue(ops, n, asOf, view)
  {
    var init := ops[..|ops| - 1];
    RunClock(init);
    if WasTrue(init, n, asOf, view) {
      StillTrue(ops, n, asOf, view);
    } else {
      TrueNow(ops, n);
    }
  }

  /** In every run what is written for a node, and what is kept of a removed one, is what the node had
      at a moment of the run; with `OrderedRun`, a moment after the step that queued it. */
  lemma {:induction false} WrittenWasTrue(ops: seq<Op>, n: NodeName)
    ensures QueueWasTrue(ops, n)
    decreases |ops|
  {
    if ops != [] {
      var init, u := ops[..|ops| - 1], Run(EMPTY, ops).queue;
      WrittenWasTrue(init, n);
      StepSources(Run(EMPTY, init), ops[|ops| - 1], n);
      if n in u.pending && u.pending[n].ref.Frozen? {
        KnownWasTrue(ops, n, u.pending[n].ref.asOf, u.pending[n].ref.view);
      }
      if n in u.batch && u.batch[n].ref.Frozen? {
        KnownWasTrue(ops, n, u.batch[n].ref.asOf, u.batch[n].ref.view);
      }
      if n in u.written {
        KnownWasTrue(ops, n, u.written[n].asOf, u.written[n].view);
      }
    }
  }

  // ---------- the queue follows the tables ----------

  function RulesAt(rules: set<Rule>, n: NodeName): set<Rule> {
    set r | r in rules && r.slot.node == n
  }

  lemma SyncQueues(t: Tables, next: SliceInfo, serviceChanged: bool, n: NodeName)
    requires n !in QueuedBySlice(t, next, serviceChanged)
    ensures RulesAt(SyncSlice(t, next).rules, n) == RulesAt(t.rules, n)
  {
    if !Unchanged(t, next) {
      var added, dropped := RulesOf(next), Dropped(SliceOrZero(t.slices, next.key), next);
      forall r: Rule | r.slot.node == n
        ensures r in t.rules + added - dropped <==> r in t.rules
      {
        assert r in dropped ==> r.slot.node in NodesOf(dropped);
        assert r in added - t.rules ==> r.slot.node in NodesOf(added - t.rules);
        assert r in added ==> r.slot.node in NodesOf(added);
      }
    }
  }

  /** A step that changes what a node serves, and leaves the node there, queues it. */
  lemma StepQueues(t: Tables, op: Op, n: NodeName)
    requires n !in Queued(t, op) && n in ApplyTables(t, op).nodes
    ensures RulesAt(ApplyTables(t, op).rules, n) == RulesAt(t.rules, n)
  {
    match op
    case UpdateSlice(es, spec) =>
      SyncQueues(SyncService(t, es.serviceKey, spec), es, ServiceChanged(t, es.serviceKey, spec), n);
    case DeleteSlice(k) =>
      if k in t.slices { SyncQueues(t, Emptied(t.slices[k]), false, n); }
    case _ =>
  }

  /** From exact rules, with slices that keep their service and no change of the service itself, a slice
      sync queues exactly the nodes whose rules it changes. */
  lemma SyncQueuesIff(t: Tables, next: SliceInfo, n: NodeName)
    requires t.rules == Recompute(t.slices)
    requires next.key in t.slices ==> t.slices[next.key].serviceKey == next.serviceKey
    ensures n in QueuedBySlice(t, next, false) <==> RulesAt(SyncSlice(t, next).rules, n) != RulesAt(t.rules, n)
  {
    var prev := SliceOrZero(t.slices, next.key);
    var added, dropped := RulesOf(next), Dropped(prev, next);
    if next.key in t.slices {
      assert forall r <- dropped :: r in RulesOf(t.slices[next.key]);
      assert forall r <- dropped :: Listed(t.slices, r);
    }
    if !Unchanged(t, next) && n in QueuedBySlice(t, next, false) {
      var r :| (r in added - t.rules || r in dropped) && r.slot.node == n;
      assert r in RulesAt(SyncSlice(t, next).rules, n) <==> r !in RulesAt(t.rules, n);
    }
  }

  /** The latest entry, after one step. */
  lemma LatestEntryStep(s: System, op: Op, n: NodeName)
    ensures
      var e, u := LatestEntry(s.queue, n), LatestEntry(Apply(s, op).queue, n);
      if Queues(s, op, n) then u == Some(Entry(s.now, Live))
      else if op == RemoveNode(n) && n in s.tables.nodes && e.Some? && e.value.ref.Live?
      then u == Some(e.value.(ref := Frozen(s.now, ViewOf(s.tables, n))))
      else if op == WriteNode(n, true) && n in s.queue.batch && n !in s.queue.pending
      then u == None && Apply(s, op).queue.written[n] == Render(e.value, ViewOf(s.tables, n), s.now)
      else u == e && (e.None? && n in s.queue.written ==>
             n in Apply(s, op).queue.written && Apply(s, op).queue.written[n] == s.queue.written[n])
    ensures n in Apply(s, op).queue.written ==>
      n in s.queue.written || (op == WriteNode(n, true) && n in s.queue.batch)
  {
    ApplyQueueSplit(s, op);
  }

  /** What the config map comes to hold, after one step. */
  lemma LatestViewStep(s: System, op: Op, n: NodeName)
    ensures
      var e, u := LatestEntry(s.queue, n), Apply(s, op);
      LatestView(u, n) ==
      if Queues(s, op, n) then ViewOf(u.tables, n)
      else if e.Some? && e.value.ref.Live? && !(op == RemoveNode(n) && n in s.tables.nodes) then ViewOf(u.tables, n)
      else LatestView(s, n)
  {
    LatestEntryStep(s, op, n);
    assert op.WriteNode? ==> ApplyTables(s.tables, op) == s.tables;
  }

  /** Live entries are those of nodes in the node set. */
  ghost predicate Attached(s: System) {
    && (forall n <- s.queue.pending :: s.queue.pending[n].ref.Live? ==> n in s.tables.nodes)
    && (forall n <- s.queue.batch :: s.queue.batch[n].ref.Live? ==> n in s.tables.nodes)
  }

  lemma NodesStay(t: Tables, op: Op, n: NodeName)
    requires n in t.nodes && op != RemoveNode(n)
    ensures n in ApplyTables(t, op).nodes
  {}

  lemma StepAttached(s: System, op: Op)
    requires Attached(s)
    ensures Attached(Apply(s, op))
  {
    ApplyQueueSplit(s, op);
    forall n | n in s.tables.nodes && op != RemoveNode(n)
      ensures n in ApplyTables(s.tables, op).nodes
    {
      NodesStay(s.tables, op, n);
    }
  }

  lemma {:induction false} AttachedRun(ops: seq<Op>)
    ensures Attached(Run(EMPTY, ops))
    decreases |ops|
  {
    if ops != [] {
      AttachedRun(ops[..|ops| - 1]);
      StepAttached(Run(EMPTY, ops[..|ops| - 1]), ops[|ops| - 1]);
    }
  }

  /** `n` was removed from the node set while it served something, and not queued since. */
  ghost predicate LeftServing(ops: seq<Op>, n: NodeName)
    decreases |ops|
  {
    ops != [] &&
    (var init, op := ops[..|ops| - 1], ops[|ops| - 1];
     !Queues(Run(EMPTY, init), op, n) &&
     (LeftServing(init, n) || (op == RemoveNode(n) && RulesAt(Run(EMPTY, init).tables.rules, n) != {})))
  }

  /** What is to be written for a node has its rules, unless the node left while it served something;
      then it has none, and what is to be written has some. */
  ghost predicate Follows(s: System, left: bool, n: NodeName) {
    if left then
      && RulesAt(s.tables.rules, n) == {} && LatestView(s, n).rules != {}
      && (LatestEntry(s.queue, n).Some? ==> LatestEntry(s.queue, n).value.ref.Frozen?)
    else LatestView(s, n).rules == RulesAt(s.tables.rules, n)
  }

  lemma StepFollows(s: System, op: Op, left: bool, n: NodeName)
    requires Follows(s, left, n) && Housed(s.tables) && Housed(ApplyTables(s.tables, op)) && Attached(s)
    ensures
      var leaves := op == RemoveNode(n) && RulesAt(s.tables.rules, n) != {};
      Follows(Apply(s, op), !Queues(s, op, n) && (left || leaves), n)
  {
    var t, u := s.tables, ApplyTables(s.tables, op);
    LatestViewStep(s, op, n);
    LatestEntryStep(s, op, n);
    ApplyQueueSplit(s, op);
    if n !in u.nodes {
      assert RulesAt(u.rules, n) == {};
    } else if n !in Queued(t, op) {
      StepQueues(t, op, n);
    }
    if n !in t.nodes {
      assert RulesAt(t.rules, n) == {};
    }
  }

  lemma {:induction false} FollowsRun(ops: seq<Op>, n: NodeName)
    ensures Follows(Run(EMPTY, ops), LeftServing(ops, n), n)
    decreases |ops|
  {
    if ops != [] {
      var init := ops[..|ops| - 1];
      FollowsRun(init, n);
      BackedRun(init);
      BackedRun(ops);
      AttachedRun(init);
      StepFollows(Run(EMPTY, init), ops[|ops| - 1], LeftServing(init, n), n);
    }
  }

  /** In every run what is to be written for a node has exactly the rules the node serves, if and only
      if the node did not leave while it served something, or was queued since. */
  lemma FollowsIff(ops: seq<Op>, n: NodeName)
    ensures
      var s := Run(EMPTY, ops);
      LatestView(s, n).rules == RulesAt(s.tables.rules, n) <==> !LeftServing(ops, n)
  {
    FollowsRun(ops, n);
  }

  // ---------- draining ----------

  /** A run that goes on with accepted writes of the given nodes, one after the other. */
  function WriteAll(ops: seq<Op>, names: seq<NodeName>): seq<Op> {
    if names == [] then ops else WriteAll(ops, names[..|names| - 1]) + [WriteNode(names[|names| - 1], true)]
  }

  /** One accepted write, after a run. */
  lemma WriteThen(s: System, ops: seq<Op>, n: NodeName)
    ensures
      var q, u := Run(s, ops).queue, Run(s, ops + [WriteNode(n, true)]).queue;
      u.pending == q.pending && u.batch == q.batch - {n}
  {
    assert (ops + [WriteNode(n, true)])[..|ops|] == ops;
    ApplyQueueSplit(Run(s, ops), WriteNode(n, true));
    CutAbsent(Run(s, ops).queue.batch, n);
  }

  /** The start of a round, after a run that left no batch. */
  lemma TakeThen(s: System, ops: seq<Op>)
    requires Run(s, ops).queue.batch == map[]
    ensures
      var q, u := Run(s, ops).queue, Run(s, ops + [TakeBatch]).queue;
      u.pending == map[] && u.batch == q.pending
  {
    assert (ops + [TakeBatch])[..|ops|] == ops;
    ApplyQueueSplit(Run(s, ops), TakeBatch);
  }

  lemma CutAbsent(m: Entries, n: NodeName)
    ensures n !in m ==> m - {n} == m
  {}

  lemma CutMore(m: Entries, names: seq<NodeName>, n: NodeName)
    ensures m - Names(names) - {n} == m - Names(names + [n])
  {}

  lemma CutAll(m: Entries, names: set<NodeName>)
    requires m.Keys <= names
    ensures m - names == map[]
  {}

  function Names(names: seq<NodeName>): set<NodeName> {
    set n | n in names
  }

  /** Accepted writes take the named nodes out of the batch and touch nothing else that waits. */
  lemma {:induction false} WriteAllThen(s: System, ops: seq<Op>, names: seq<NodeName>)
    ensures
      var q, u := Run(s, ops).queue, Run(s, WriteAll(ops, names)).queue;
      u.pending == q.pending && u.batch == q.batch - Names(names)
    decreases |names|
  {
    if names == [] {
      assert Run(s, ops).queue.batch - {} == Run(s, ops).queue.batch;
    } else {
      var init, last := names[..|names| - 1], names[|names| - 1];
      WriteAllThen(s, ops, init);
      WriteThen(s, WriteAll(ops, init), last);
      CutMore(Run(s, ops).queue.batch, init, last);
      assert names == init + [last];
    }
  }

  /** A run that goes on with the rest of its round and the round after it, every write accepted. */
  function Drain(ops: seq<Op>, first: seq<NodeName>, second: seq<NodeName>): seq<Op> {
    WriteAll(WriteAll(ops, first) + [TakeBatch], second)
  }

  /** After any run, with writes accepted and no reconcile in between, the present round and the next
      leave nothing waiting, in whatever order the nodes are written. */
  lemma DrainEmpties(s: System, ops: seq<Op>, first: seq<NodeName>, second: seq<NodeName>)
    requires Run(s, ops).queue.batch.Keys <= Names(first) && Run(s, ops).queue.pending.Keys <= Names(second)
    ensures
      var u := Run(s, Drain(ops, first, second)).queue;
      u.pending == map[] && u.batch == map[]
  {
    var begun := WriteAll(ops, first);
    WriteAllThen(s, ops, first);
    CutAll(Run(s, ops).queue.batch, Names(first));
    TakeThen(s, begun);
    WriteAllThen(s, begun + [TakeBatch], second);
    CutAll(Run(s, begun + [TakeBatch]).queue.batch, Names(second));
  }

  /** With exact rules, a drained queue has written the recomputed rules of every node. */
  lemma DrainedIsRecomputed(ops: seq<Op>, n: NodeName)
    requires Along(EMPTY, ops, (s: System, op: Op) => KeepsExact(s.tables, op))
    requires Run(EMPTY, ops).queue.pending == map[] && Run(EMPTY, ops).queue.batch == map[]
    ensures
      var s := Run(EMPTY, ops);
      RulesAt(Recompute(s.tables.slices), n) ==
      if n in s.queue.written && !LeftServing(ops, n) then s.queue.written[n].view.rules else {}
  {
    SyncRefinesRecompute(ops);
    FollowsRun(ops, n);
  }

  // ---------- no virtual server without a backend, anywhere ----------

  ghost predicate BackedEntries(m: Entries) {
    forall n <- m :: m[n].ref.Frozen? ==> Backed(m[n].ref.view.bindings, m[n].ref.view.rules)
  }

  ghost predicate BackedQueue(q: Queue) {
    && BackedEntries(q.pending) && BackedEntries(q.batch)
    && forall n <- q.written :: Backed(q.written[n].view.bindings, q.written[n].view.rules)
  }

  lemma ViewBacked(t: Tables, n: NodeName)
    requires Backed(t.bindings, t.rules)
    ensures Backed(ViewOf(t, n).bindings, ViewOf(t, n).rules)
  {
    var v := ViewOf(t, n);
    forall b | b in v.bindings
      ensures HasRule(v.rules, b.slot)
    {
      assert HasRule(t.rules, b.slot);
      var r :| r in t.rules && r.slot == b.slot;
      assert r in v.rules;
    }
  }

  lemma StepBackedQueue(s: System, op: Op)
    requires BackedQueue(s.queue) && Backed(s.tables.bindings, s.tables.rules)
    ensures BackedQueue(Apply(s, op).queue)
  {
    ApplyQueueSplit(s, op);
    if op.WriteNode? || op.RemoveNode? {
      ViewBacked(s.tables, op.node);
    }
  }

  /** No version that is written, or could be, in any run, announces a service port without a backend:
      no virtual server is ever rendered with zero real servers. */
  lemma {:induction false} NoServerWithoutBackend(ops: seq<Op>, n: NodeName)
    ensures BackedQueue(Run(EMPTY, ops).queue)
    ensures Backed(LatestView(Run(EMPTY, ops), n).bindings, LatestView(Run(EMPTY, ops), n).rules)
    decreases |ops|
  {
    if ops != [] {
      var init := ops[..|ops| - 1];
      NoServerWithoutBackend(init, n);
      BackedRun(init);
      StepBackedQueue(Run(EMPTY, init), ops[|ops| - 1]);
    }
    BackedRun(ops);
    ViewBacked(Run(EMPTY, ops).tables, n);
  }
}
