/** The write queue of the proxy controller: the nodes whose rules wait to be written to their config
    maps. A queued node is the struct the controller has, whose maps both share: what is written is
    what they hold when it is written. */
module Keeper {
  import opened ProxyTypes
  import opened ProxySpec
  import opened ProxyFlat
  import opened ProxyCleanup
  import opened Rendering

  /** The maps of a queued node: those of the node in the controller's node set, or, when that node was
      removed at step `asOf`, maps that nothing else reaches. */
  datatype NodeRef = Shared | Orphan(asOf: nat, node: EdgeNode)

  /** A node queued by step `stamp`. */
  datatype QueuedNode = QueuedNode(stamp: nat, ref: NodeRef)

  datatype WrittenNode = WrittenNode(stamp: nat, asOf: nat, node: EdgeNode)

  type NodeQueue = map<NodeName, QueuedNode>
  type Configs = map<NodeName, seq<VirtualServer>>

  ghost function NodeView(node: EdgeNode): View {
    View(BindingsIn(map[node.name := node]), RulesIn(map[node.name := node]))
  }

  ghost function RefView(ref: NodeRef): Ref {
    if ref.Shared? then Live else Frozen(ref.asOf, NodeView(ref.node))
  }

  ghost function EntryOf(q: QueuedNode): Entry {
    Entry(q.stamp, RefView(q.ref))
  }

  ghost function EntriesOf(m: NodeQueue): Entries
    decreases m.Keys
  {
    if m == map[] then map[] else
    var n :| n in m;
    EntriesOf(m - {n})[n := EntryOf(m[n])]
  }

  lemma {:induction false} EntriesAre(m: NodeQueue)
    ensures EntriesOf(m).Keys == m.Keys && forall n <- m :: EntriesOf(m)[n] == EntryOf(m[n])
    decreases m.Keys
  {
    if m != map[] {
      var n :| n in m && EntriesOf(m) == EntriesOf(m - {n})[n := EntryOf(m[n])];
      EntriesAre(m - {n});
    }
  }

  ghost function WrittenView(w: WrittenNode): Written {
    Written(w.stamp, w.asOf, NodeView(w.node))
  }

  ghost function WrittenOf(m: map<NodeName, WrittenNode>): map<NodeName, Written>
    decreases m.Keys
  {
    if m == map[] then map[] else
    var n :| n in m;
    WrittenOf(m - {n})[n := WrittenView(m[n])]
  }

  lemma {:induction false} WrittenAre(m: map<NodeName, WrittenNode>)
    ensures WrittenOf(m).Keys == m.Keys && forall n <- m :: WrittenOf(m)[n] == WrittenView(m[n])
    decreases m.Keys
  {
    if m != map[] {
      var n :| n in m && WrittenOf(m) == WrittenOf(m - {n})[n := WrittenView(m[n])];
      WrittenAre(m - {n});
    }
  }

  /** What a queued node's maps hold, given the controller's node set. */
  function Held(q: QueuedNode, nodes: NodeMap, n: NodeName): EdgeNode {
    if q.ref.Shared? then NodeOrNew(nodes, n) else q.ref.node
  }

  function Rendered(q: QueuedNode, nodes: NodeMap, n: NodeName, now: nat): WrittenNode {
    WrittenNode(q.stamp, if q.ref.Shared? then now else q.ref.asOf, Held(q, nodes, n))
  }

  /** Orphans keep the names they were queued under. */
  ghost predicate Named(m: NodeQueue) {
    forall n <- m :: m[n].ref.Orphan? ==> m[n].ref.node.name == n
  }

  lemma {:induction false} PutEntry(m: NodeQueue, n: NodeName, q: QueuedNode)
    ensures EntriesOf(m[n := q]) == EntriesOf(m)[n := EntryOf(q)]
  {
    EntriesAre(m);
    EntriesAre(m[n := q]);
  }

  lemma {:induction false} CutEntry(m: NodeQueue, n: NodeName)
    ensures EntriesOf(m - {n}) == EntriesOf(m) - {n}
  {
    EntriesAre(m);
    EntriesAre(m - {n});
  }

  lemma {:induction false} PutWritten(m: map<NodeName, WrittenNode>, n: NodeName, w: WrittenNode)
    ensures WrittenOf(m[n := w]) == WrittenOf(m)[n := WrittenView(w)]
  {
    WrittenAre(m);
    WrittenAre(m[n := w]);
  }

  /** What becomes of a queued node when the controller drops it: the source does nothing, the entry
      just goes on holding the maps. */
  function Orphaned(m: NodeQueue, n: NodeName, asOf: nat, node: EdgeNode): NodeQueue {
    if n in m && m[n].ref.Shared? then m[n := m[n].(ref := Orphan(asOf, node))] else m
  }

  lemma {:induction false} OrphanedDetaches(m: NodeQueue, n: NodeName, asOf: nat, node: EdgeNode)
    ensures EntriesOf(Orphaned(m, n, asOf, node)) == Detach(EntriesOf(m), n, asOf, NodeView(node))
  {
    EntriesAre(m);
    if n in m {
      PutEntry(m, n, m[n].(ref := Orphan(asOf, node)));
    }
  }

  /** A version in which every announced port has a rule renders to servers that all have backends. */
  lemma {:induction false} BackedNodeRenders(node: EdgeNode, scheduler: string, servers: seq<VirtualServer>, i: nat)
    requires Backed(NodeView(node).bindings, NodeView(node).rules)
    requires IsRendering(servers, node, scheduler) && i < |servers|
    ensures servers[i].realServers != []
  {
    forall spn | spn in node.servicePortMap
      ensures Get(node.endpointMap, spn) != {}
    {
      assert Binding(Slot(node.name, spn), node.servicePortMap[spn]) in NodeView(node).bindings;
      var r :| r in NodeView(node).rules && r.slot == Slot(node.name, spn);
    }
    RenderedServersHaveBackends(node, scheduler, servers, i);
  }

  /** Whether writing `servers` asks the API server to update a config map with this content. */
  predicate Asks(configs: Configs, n: NodeName, servers: seq<VirtualServer>, found: bool) {
    found && !(n in configs && configs[n] == servers)
  }

  /** Writing an unchanged node again never asks for an update, whatever it was and is rendered to, if
      and only if service ports that share a cluster IP and port number render alike. */
  lemma {:induction false} RewriteAsksIff(node: EdgeNode, scheduler: string, n: NodeName, servers: seq<VirtualServer>)
    requires IsRendering(servers, node, scheduler)
    ensures Unambiguous(node, scheduler) <==>
      forall again :: IsRendering(again, node, scheduler) ==> !Asks(map[n := servers], n, again, true)
  {
    CanonicalIff(node, scheduler, servers);
    assert forall again :: Asks(map[n := servers], n, again, true) <==> again != servers;
  }

  class LoadBalanceConfigKeeper {
    const ipvsScheduler: string
    var nodeSet: NodeQueue
    /** The round in progress: what the write loop took from `nodeSet` and has not written yet. */
    var batch: NodeQueue
    /** What was last written to each node's config map, and the config maps themselves. */
    var written: map<NodeName, WrittenNode>
    var configs: Configs
    /** How many times the API server was asked to update a config map. */
    var updates: nat

    constructor (scheduler: string)
      ensures Valid() && State() == EMPTY.queue
    {
      ipvsScheduler := scheduler;
      nodeSet, batch, written, configs, updates := map[], map[], map[], map[], 0;
    }

    /** Every config map written holds the servers of the node that was written to it. */
    ghost predicate Valid()
      reads this
    {
      Named(nodeSet) && Named(batch) && Faithful(written, configs, ipvsScheduler)
    }

    ghost function State(): Queue
      reads `nodeSet, `batch, `written
    {
      Queue(EntriesOf(nodeSet), EntriesOf(batch), WrittenOf(written))
    }

    method AddNode(n: NodeName, now: nat)
      modifies this`nodeSet
      ensures nodeSet == old(nodeSet)[n := QueuedNode(now, Shared)]
    {
      nodeSet := nodeSet[n := QueuedNode(now, Shared)];
    }

    method AddNodeIfNotPresent(n: NodeName, q: QueuedNode)
      requires Valid() && (q.ref.Orphan? ==> q.ref.node.name == n)
      modifies this`nodeSet
      ensures Valid()
      ensures State() == EnqueueIfAbsent(old(State()), n, EntryOf(q))
    {
      EntriesAre(nodeSet);
      if n in nodeSet {
        return;
      }
      PutEntry(nodeSet, n, q);
      nodeSet := nodeSet[n := q];
    }

    /** The controller drops a node; entries made from it keep its maps. */
    method LoseNode(n: NodeName, node: EdgeNode, now: nat)
      requires Valid() && node.name == n
      modifies this`nodeSet, this`batch
      ensures Valid() && State() == DetachBoth(old(State()), n, now, NodeView(node))
    {
      OrphanedDetaches(nodeSet, n, now, node);
      OrphanedDetaches(batch, n, now, node);
      nodeSet, batch := Orphaned(nodeSet, n, now, node), Orphaned(batch, n, now, node);
    }

    /** The start of a round: the write loop swaps the node set for an empty one. */
    method TakeBatch()
      requires Valid()
      modifies this`nodeSet, this`batch
      ensures Valid() && State() == Take(old(State()))
      ensures old(batch) == map[] ==> batch == old(nodeSet) && nodeSet == map[]
    {
      if batch == map[] {
        batch := nodeSet;
        nodeSet := map[];
      } else {
        var n :| n in batch;
        EntriesAre(batch);
      }
    }

    /** Write a node's servers unless its config map already holds them. The config map is created
        elsewhere: `found` says whether the API server returned it, `accepted` whether it took the
        update. */
    method WriteToConfigMap(n: NodeName, servers: seq<VirtualServer>, found: bool, accepted: bool) returns (ok: bool)
      modifies this`configs, this`updates
      ensures ok <==> found && (accepted || (n in old(configs) && old(configs)[n] == servers))
      ensures configs == if ok then old(configs)[n := servers] else old(configs)
      ensures updates == old(updates) + if found && !(n in old(configs) && old(configs)[n] == servers) then 1 else 0
    {
      if !found {
        return false;
      }
      if n in configs && configs[n] == servers {
        assert configs == configs[n := servers];
        return true;
      }
      updates := updates + 1;
      if accepted {
        configs := configs[n := servers];
      }
      return accepted;
    }

    /** Render what a queued node's maps hold and write it. */
    method RenderAndWrite(n: NodeName, w: WrittenNode, found: bool, accepted: bool)
      returns (ok: bool, servers: seq<VirtualServer>)
      requires Faithful(written, configs, ipvsScheduler)
      modifies this`configs, this`updates
      ensures Faithful(if ok then written[n := w] else written, configs, ipvsScheduler)
      ensures IsRendering(servers, w.node, ipvsScheduler)
      ensures ok <==> found && (accepted || (n in old(configs) && old(configs)[n] == servers))
      ensures configs == if ok then old(configs)[n := servers] else old(configs)
      ensures updates == old(updates) + if found && !(n in old(configs) && old(configs)[n] == servers) then 1 else 0
      ensures
        n in written && written[n].node == w.node && Unambiguous(w.node, ipvsScheduler) ==> updates == old(updates)
    {
      servers := RenderNode(w.node, ipvsScheduler);
      SameAgain(written, configs, ipvsScheduler, n, servers);
      FaithfulPut(written, configs, ipvsScheduler, n, w, servers);
      ok := WriteToConfigMap(n, servers, found, accepted);
    }

    /** What becomes of a node after the attempt to write it. */
    method Settle(n: NodeName, ok: bool, nodes: NodeMap, now: nat)
      requires n in batch && Named(nodeSet) && Named(batch)
      modifies this`nodeSet, this`batch, this`written
      ensures Named(nodeSet) && Named(batch)
      ensures State() == Write(old(State()), n, ok, NodeView(NodeOrNew(nodes, n)), now)
      ensures written == if ok then old(written)[n := Rendered(old(batch)[n], nodes, n, now)] else old(written)
      ensures batch == old(batch) - {n}
      ensures nodeSet == if ok || n in old(nodeSet) then old(nodeSet) else old(nodeSet)[n := old(batch)[n]]
    {
      WriteFlat(nodeSet, batch, written, n, ok, nodes, now);
      if ok {
        written := written[n := Rendered(batch[n], nodes, n, now)];
      } else if n !in nodeSet {
        nodeSet := nodeSet[n := batch[n]];
      }
      batch := batch - {n};
    }

    /** One turn of the write loop: render what the node's maps hold now, write it, and put the node
        back if that fails. A node that has not changed since it was written, and renders in one way
        only, causes no update. */
    method WriteNode(n: NodeName, nodes: NodeMap, now: nat, found: bool, accepted: bool)
      returns (ok: bool, servers: seq<VirtualServer>)
      requires Valid() && n in batch
      modifies this
      ensures Valid() && State() == Write(old(State()), n, ok, NodeView(NodeOrNew(nodes, n)), now)
      ensures IsRendering(servers, Held(old(batch)[n], nodes, n), ipvsScheduler)
      ensures ok <==> found && (accepted || (n in old(configs) && old(configs)[n] == servers))
      ensures configs == if ok then old(configs)[n := servers] else old(configs)
      ensures updates == old(updates) + if found && !(n in old(configs) && old(configs)[n] == servers) then 1 else 0
      ensures
        (&& n in old(written) && old(written)[n].node == Held(old(batch)[n], nodes, n)
         && Unambiguous(old(written)[n].node, ipvsScheduler))
        ==> updates == old(updates)
      ensures batch == old(batch) - {n}
      ensures nodeSet == if ok || n in old(nodeSet) then old(nodeSet) else old(nodeSet)[n := old(batch)[n]]
    {
      ghost var q := State();
      ok, servers := RenderAndWrite(n, Rendered(batch[n], nodes, n, now), found, accepted);
      assert State() == q;
      Settle(n, ok, nodes, now);
    }

    /** A whole round, with nothing happening in between, in any order of the nodes: every node that
        waited has had its turn, no other node waits, and no other config map changes. */
    method SyncRules(nodes: NodeMap, now: nat, found: set<NodeName>, accepted: set<NodeName>)
      requires Valid() && batch == map[]
      modifies this
      ensures Valid() && batch == map[] && nodeSet.Keys <= old(nodeSet).Keys
      ensures forall n <- old(nodeSet) ::
        Turned(TurnOf(n, old(nodeSet)[n], nodes, found, accepted), old(configs), configs, nodeSet, ipvsScheduler)
      ensures forall n | n !in old(nodeSet) :: SameAt(old(configs), configs, n)
      ensures forall n <- old(nodeSet) ::
        && (n !in found ==> n in nodeSet && nodeSet[n] == old(nodeSet)[n])
        && (n in found && n in accepted ==>
              n !in nodeSet && n in configs && IsRendering(configs[n], Held(old(nodeSet)[n], nodes, n), ipvsScheduler))
        && (n !in accepted ==> SameAt(old(configs), configs, n))
        && (n !in accepted && n !in old(configs) ==> n in nodeSet && nodeSet[n] == old(nodeSet)[n])
    {
      TakeBatch();
      ghost var taken := batch;
      while batch != map[]
        invariant Valid()
        invariant InRound(taken, batch, nodeSet, nodes, found, accepted, old(configs), configs, ipvsScheduler)
        decreases batch.Keys
      {
        var n :| n in batch;
        ghost var before, waiting, todo := configs, nodeSet, batch;
        TakeTurn(n, nodes, now, found, accepted);
        RoundStep(taken, todo, waiting, nodeSet, nodes, found, accepted, old(configs), before, configs,
                  ipvsScheduler, n);
      }
      RoundMeans(taken, nodeSet, nodes, found, accepted, old(configs), configs, ipvsScheduler);
    }

    /** One turn, as a round sees it. */
    method TakeTurn(n: NodeName, nodes: NodeMap, now: nat, found: set<NodeName>, accepted: set<NodeName>)
      requires Valid() && n in batch && n !in nodeSet
      modifies this
      ensures Valid() && batch == old(batch) - {n}
      ensures Turned(TurnOf(n, old(batch)[n], nodes, found, accepted), old(configs), configs, nodeSet, ipvsScheduler)
      ensures forall m | m != n :: SameAt(old(configs), configs, m)
      ensures nodeSet - {n} == old(nodeSet)
    {
      ghost var turn := TurnOf(n, batch[n], nodes, found, accepted);
      var ok, servers := WriteNode(n, nodes, now, n in found, n in accepted);
      TurnTaken(turn, servers, old(configs), configs, old(nodeSet), nodeSet, ok);
    }
  }

  // ---------- a round ----------

  /** What one turn of the write loop depends on. */
  datatype Turn = Turn(name: NodeName, entry: QueuedNode, node: EdgeNode, found: bool, accepted: bool)

  function TurnOf(n: NodeName, entry: QueuedNode, nodes: NodeMap, found: set<NodeName>, accepted: set<NodeName>): Turn {
    Turn(n, entry, Held(entry, nodes, n), n in found, n in accepted)
  }

  predicate SameAt<V(==)>(before: map<NodeName, V>, after: map<NodeName, V>, n: NodeName) {
    (n in before <==> n in after) && (n in before ==> after[n] == before[n])
  }

  /** A node whose write succeeds has its servers in the config map and waits no more; one whose write
      fails waits again, and its config map is left alone. */
  predicate Fares(turn: Turn, servers: seq<VirtualServer>, before: Configs, after: Configs, pending: NodeQueue) {
    if turn.found && (turn.accepted || (turn.name in before && before[turn.name] == servers))
    then turn.name !in pending && turn.name in after && after[turn.name] == servers
    else turn.name in pending && pending[turn.name] == turn.entry && SameAt(before, after, turn.name)
  }

  /** So it fared with some rendering of the node. */
  ghost predicate Turned(turn: Turn, before: Configs, after: Configs, pending: NodeQueue, scheduler: string) {
    exists servers :: IsRendering(servers, turn.node, scheduler) && Fares(turn, servers, before, after, pending)
  }

  lemma {:induction false} TurnTaken(turn: Turn, servers: seq<VirtualServer>, before: Configs, after: Configs,
                                     waiting: NodeQueue, pending: NodeQueue, ok: bool)
    requires turn.name !in waiting
    requires ok <==> turn.found && (turn.accepted || (turn.name in before && before[turn.name] == servers))
    requires after == if ok then before[turn.name := servers] else before
    requires pending == if ok then waiting else waiting[turn.name := turn.entry]
    ensures Fares(turn, servers, before, after, pending)
    ensures forall m | m != turn.name :: SameAt(before, after, m)
    ensures pending - {turn.name} == waiting
  {}

  /** The nodes of the round that are not in `todo` any more have had their turn. */
  ghost predicate InRound(taken: NodeQueue, todo: NodeQueue, pending: NodeQueue, nodes: NodeMap,
                          found: set<NodeName>, accepted: set<NodeName>,
                          before: Configs, after: Configs, scheduler: string) {
    && todo.Keys <= taken.Keys && pending.Keys <= taken.Keys - todo.Keys
    && (forall n <- todo :: todo[n] == taken[n])
    && (forall n | n !in taken || n in todo :: SameAt(before, after, n))
    && (forall n <- taken :: n !in todo ==>
          Turned(TurnOf(n, taken[n], nodes, found, accepted), before, after, pending, scheduler))
  }

  /** What a turn comes to: a node whose config map is not found waits; one whose config map is found and
      takes the update does not, and has its servers there; one whose update is refused keeps its config
      map, and waits unless the map holds a rendering of the node already. */
  lemma {:induction false} TurnedMeans(turn: Turn, before: Configs, after: Configs, pending: NodeQueue,
                                       scheduler: string)
    requires Turned(turn, before, after, pending, scheduler)
    ensures !turn.found ==> turn.name in pending && pending[turn.name] == turn.entry
    ensures turn.found && turn.accepted ==>
      turn.name !in pending && turn.name in after && IsRendering(after[turn.name], turn.node, scheduler)
    ensures !turn.found || !turn.accepted ==> SameAt(before, after, turn.name)
    ensures turn.name !in before && !turn.accepted ==> turn.name in pending && pending[turn.name] == turn.entry
    ensures turn.name in before && !IsRendering(before[turn.name], turn.node, scheduler) && !turn.accepted ==>
      turn.name in pending && pending[turn.name] == turn.entry
    ensures
      && turn.found && turn.name in before && IsRendering(before[turn.name], turn.node, scheduler)
      && Unambiguous(turn.node, scheduler)
      ==> turn.name !in pending && SameAt(before, after, turn.name)
  {
    var servers :| IsRendering(servers, turn.node, scheduler) && Fares(turn, servers, before, after, pending);
    if Unambiguous(turn.node, scheduler) {
      CanonicalIff(turn.node, scheduler, servers);
    }
  }

  /** A turn looks only at its own config map and queue entry. */
  lemma {:induction false} TurnedSame(turn: Turn, before: Configs, after: Configs, pending: NodeQueue,
                                      scheduler: string, before': Configs, after': Configs, pending': NodeQueue)
    requires Turned(turn, before, after, pending, scheduler)
    requires SameAt(before, before', turn.name) && SameAt(after, after', turn.name)
    requires SameAt(pending, pending', turn.name)
    ensures Turned(turn, before', after', pending', scheduler)
  {
    var servers :| IsRendering(servers, turn.node, scheduler) && Fares(turn, servers, before, after, pending);
    assert Fares(turn, servers, before', after', pending');
  }

  lemma {:induction false} RoundMeans(taken: NodeQueue, pending: NodeQueue, nodes: NodeMap,
                                      found: set<NodeName>, accepted: set<NodeName>,
                                      before: Configs, after: Configs, scheduler: string)
    requires forall n <- taken :: Turned(TurnOf(n, taken[n], nodes, found, accepted), before, after, pending, scheduler)
    ensures forall n <- taken ::
      && (n !in found ==> n in pending && pending[n] == taken[n])
      && (n in found && n in accepted ==>
            n !in pending && n in after && IsRendering(after[n], Held(taken[n], nodes, n), scheduler))
      && (n !in accepted ==> SameAt(before, after, n))
      && (n !in accepted && n !in before ==> n in pending && pending[n] == taken[n])
  {
    forall n | n in taken
      ensures
        && (n !in found ==> n in pending && pending[n] == taken[n])
        && (n in found && n in accepted ==>
              n !in pending && n in after && IsRendering(after[n], Held(taken[n], nodes, n), scheduler))
        && (n !in accepted ==> SameAt(before, after, n))
        && (n !in accepted && n !in before ==> n in pending && pending[n] == taken[n])
    {
      TurnedMeans(TurnOf(n, taken[n], nodes, found, accepted), before, after, pending, scheduler);
    }
  }

  lemma {:induction false} RoundStep(taken: NodeQueue, todo: NodeQueue, waiting: NodeQueue, pending: NodeQueue,
                                     nodes: NodeMap, found: set<NodeName>, accepted: set<NodeName>,
                                     start: Configs, before: Configs, after: Configs, scheduler: string, n: NodeName)
    requires InRound(taken, todo, waiting, nodes, found, accepted, start, before, scheduler) && n in todo
    requires Turned(TurnOf(n, todo[n], nodes, found, accepted), before, after, pending, scheduler)
    requires forall m | m != n :: SameAt(before, after, m)
    requires pending - {n} == waiting
    ensures InRound(taken, todo - {n}, pending, nodes, found, accepted, start, after, scheduler)
  {
    forall m | m in taken && m !in todo - {n}
      ensures Turned(TurnOf(m, taken[m], nodes, found, accepted), start, after, pending, scheduler)
    {
      TurnKept(taken, todo, waiting, pending, nodes, found, accepted, start, before, after, scheduler, n, m);
    }
    forall m | m !in taken || m in todo - {n}
      ensures SameAt(start, after, m)
    {
      assert m != n && SameAt(start, before, m) && SameAt(before, after, m);
    }
    forall m | m in pending
      ensures m in taken && m !in todo - {n}
    {
      assert m == n || m in pending - {n};
    }
  }

  lemma {:induction false} TurnKept(taken: NodeQueue, todo: NodeQueue, waiting: NodeQueue, pending: NodeQueue,
                                    nodes: NodeMap, found: set<NodeName>, accepted: set<NodeName>,
                                    start: Configs, before: Configs, after: Configs, scheduler: string,
                                    n: NodeName, m: NodeName)
    requires InRound(taken, todo, waiting, nodes, found, accepted, start, before, scheduler) && n in todo
    requires Turned(TurnOf(n, todo[n], nodes, found, accepted), before, after, pending, scheduler)
    requires m != n ==> SameAt(before, after, m)
    requires pending - {n} == waiting && m in taken && (m == n || m !in todo)
    ensures Turned(TurnOf(m, taken[m], nodes, found, accepted), start, after, pending, scheduler)
  {
    var turn := TurnOf(m, taken[m], nodes, found, accepted);
    if m == n {
      assert SameAt(start, before, n);
      TurnedSame(turn, before, after, pending, scheduler, start, after, pending);
    } else {
      assert m in pending <==> m in pending - {n};
      TurnedSame(turn, start, before, waiting, scheduler, start, after, pending);
    }
  }

  /** Every config map written holds the servers of the node that was written to it. */
  ghost predicate Faithful(written: map<NodeName, WrittenNode>, configs: Configs, scheduler: string) {
    forall n <- written :: n in configs && IsRendering(configs[n], written[n].node, scheduler)
  }

  /** A node rendered again, if it renders in one way only, is what its config map holds. */
  lemma {:induction false} SameAgain(written: map<NodeName, WrittenNode>, configs: Configs, scheduler: string,
                                     n: NodeName, servers: seq<VirtualServer>)
    requires Faithful(written, configs, scheduler)
    ensures n in written && IsRendering(servers, written[n].node, scheduler) && Unambiguous(written[n].node, scheduler)
      ==> n in configs && configs[n] == servers
  {
    if n in written {
      CanonicalIff(written[n].node, scheduler, configs[n]);
    }
  }

  lemma {:induction false} FaithfulPut(written: map<NodeName, WrittenNode>, configs: Configs, scheduler: string,
                    n: NodeName, w: WrittenNode, servers: seq<VirtualServer>)
    requires Faithful(written, configs, scheduler) && IsRendering(servers, w.node, scheduler)
    ensures Faithful(written[n := w], configs[n := servers], scheduler)
  {}

  lemma {:induction false} WriteFlat(pending: NodeQueue, batch: NodeQueue, written: map<NodeName, WrittenNode>,
                                     n: NodeName, ok: bool,
                  nodes: NodeMap, now: nat)
    requires n in batch
    ensures
      Write(Queue(EntriesOf(pending), EntriesOf(batch), WrittenOf(written)), n, ok,
            NodeView(NodeOrNew(nodes, n)), now) ==
      Queue(
        EntriesOf(if ok || n in pending then pending else pending[n := batch[n]]),
        EntriesOf(batch - {n}),
        WrittenOf(if ok then written[n := Rendered(batch[n], nodes, n, now)] else written))
  {
    EntriesAre(batch);
    EntriesAre(pending);
    CutEntry(batch, n);
    PutEntry(pending, n, batch[n]);
    PutWritten(written, n, Rendered(batch[n], nodes, n, now));
    RenderedView(batch[n], nodes, n, now);
  }

  lemma {:induction false} RenderedView(q: QueuedNode, nodes: NodeMap, n: NodeName, now: nat)
    ensures WrittenView(Rendered(q, nodes, n, now)) == Render(EntryOf(q), NodeView(NodeOrNew(nodes, n)), now)
  {}
}
