/** The agent's reconciliation of the kernel's IPVS table with the configured servers: nested set
    differences, with an early return at the first error, retried until it succeeds. */
module Ipvs {
  import opened Prelude

  datatype VsKey = VsKey(address: string, port: int, protocol: string)

  datatype RsKey = RsKey(address: string, port: int)

  datatype Server = Server(virtualServer: VsKey, realServers: seq<RsKey>)

  type Table = map<VsKey, set<RsKey>>

  function RealSet(realServers: seq<RsKey>): set<RsKey> {
    set r | r in realServers
  }

  /** The real servers configured for each virtual server; of two entries for one the later wins. */
  function Configured(servers: seq<Server>): map<VsKey, seq<RsKey>> {
    if servers == [] then map[] else
    var last := servers[|servers| - 1];
    Configured(servers[..|servers| - 1])[last.virtualServer := last.realServers]
  }

  /** The table the configuration asks for. */
  ghost function Wanted(configured: map<VsKey, seq<RsKey>>): (t: Table)
    ensures t.Keys == configured.Keys && forall v <- configured :: t[v] == RealSet(configured[v])
    decreases configured.Keys
  {
    if configured == map[] then map[] else
    var v :| v in configured;
    Wanted(configured - {v})[v := RealSet(configured[v])]
  }

  /** No later entry is for the same virtual server. */
  ghost predicate IsLast(servers: seq<Server>, i: nat) {
    i < |servers| && forall j :: i < j < |servers| ==> servers[j].virtualServer != servers[i].virtualServer
  }

  /** The table has the virtual servers of the configuration, each with the real servers of its last
      entry. */
  ghost predicate Serves(t: Table, servers: seq<Server>) {
    && (forall v :: v in t <==> exists s <- servers :: s.virtualServer == v)
    && forall i: nat :: IsLast(servers, i) ==>
         servers[i].virtualServer in t && forall r :: r in t[servers[i].virtualServer] <==> r in servers[i].realServers
  }

  lemma {:induction false} ConfiguredKeys(servers: seq<Server>)
    ensures forall v :: v in Configured(servers) <==> exists s <- servers :: s.virtualServer == v
    decreases |servers|
  {
    if servers != [] {
      var init, last := servers[..|servers| - 1], servers[|servers| - 1];
      ConfiguredKeys(init);
      assert servers == init + [last];
    }
  }

  lemma {:induction false} ConfiguredLast(servers: seq<Server>, i: nat)
    requires IsLast(servers, i)
    ensures servers[i].virtualServer in Configured(servers)
    ensures Configured(servers)[servers[i].virtualServer] == servers[i].realServers
    decreases |servers|
  {
    if i < |servers| - 1 {
      assert servers[|servers| - 1].virtualServer != servers[i].virtualServer;
      ConfiguredLast(servers[..|servers| - 1], i);
    }
  }

  lemma {:induction false} WantedServes(servers: seq<Server>)
    ensures Serves(Wanted(Configured(servers)), servers)
  {
    ConfiguredKeys(servers);
    forall i: nat | IsLast(servers, i)
      ensures servers[i].virtualServer in Configured(servers)
      ensures Configured(servers)[servers[i].virtualServer] == servers[i].realServers
    {
      ConfiguredLast(servers, i);
    }
  }

  // ---------- the distance between two tables ----------

  datatype Fact = HasServer(vs: VsKey) | HasReal(vs: VsKey, rs: RsKey)

  predicate Holds(t: Table, f: Fact) {
    f.vs in t && (f.HasReal? ==> f.rs in t[f.vs])
  }

  function Facts(t: Table): set<Fact> {
    (set v | v in t :: HasServer(v)) + (set v, r | v in t && r in t[v] :: HasReal(v, r))
  }

  lemma {:induction false} FactsHold(t: Table)
    ensures forall f :: f in Facts(t) <==> Holds(t, f)
  {}

  /** How many facts the two tables disagree on. */
  function Distance(t: Table, w: Table): nat {
    |Facts(t) - Facts(w)| + |Facts(w) - Facts(t)|
  }

  lemma {:induction false} SmallerSize<T>(a: set<T>, b: set<T>, x: T)
    requires a <= b - {x} && x in b
    ensures |a| < |b|
  {
    var rest := b - {x} - a;
    assert b == a + rest + {x};
  }

  /** A change that only removes disagreements, and at least one, brings the tables closer. */
  lemma {:induction false} Closer(t: Table, u: Table, w: Table, f: Fact)
    requires Facts(u) - Facts(w) <= Facts(t) - Facts(w)
    requires Facts(w) - Facts(u) <= Facts(w) - Facts(t)
    requires (f in Facts(t)) != (f in Facts(w)) && ((f in Facts(u)) <==> (f in Facts(w)))
    ensures Distance(u, w) < Distance(t, w)
  {
    SubsetSize(Facts(u) - Facts(w), Facts(t) - Facts(w));
    SubsetSize(Facts(w) - Facts(u), Facts(w) - Facts(t));
    if f in Facts(t) {
      SmallerSize(Facts(u) - Facts(w), Facts(t) - Facts(w), f);
    } else {
      SmallerSize(Facts(w) - Facts(u), Facts(w) - Facts(t), f);
    }
  }

  lemma {:induction false} AddServerCloser(t: Table, w: Table, v: VsKey)
    requires v !in t && v in w
    ensures Distance(t[v := {}], w) < Distance(t, w)
  {
    var u := t[v := {}];
    FactsHold(t);
    FactsHold(u);
    FactsHold(w);
    assert Facts(u) == Facts(t) + {HasServer(v)};
    Closer(t, u, w, HasServer(v));
  }

  lemma {:induction false} DeleteServerCloser(t: Table, w: Table, v: VsKey)
    requires v in t && v !in w
    ensures Distance(t - {v}, w) < Distance(t, w)
  {
    var u := t - {v};
    FactsHold(t);
    FactsHold(u);
    FactsHold(w);
    Closer(t, u, w, HasServer(v));
  }

  lemma {:induction false} AddRealCloser(t: Table, w: Table, v: VsKey, r: RsKey)
    requires v in t && v in w && r !in t[v] && r in w[v]
    ensures Distance(t[v := t[v] + {r}], w) < Distance(t, w)
  {
    var u := t[v := t[v] + {r}];
    FactsHold(t);
    FactsHold(u);
    FactsHold(w);
    assert Facts(u) == Facts(t) + {HasReal(v, r)};
    Closer(t, u, w, HasReal(v, r));
  }

  lemma {:induction false} DeleteRealCloser(t: Table, w: Table, v: VsKey, r: RsKey)
    requires v in t && v in w && r in t[v] && r !in w[v]
    ensures Distance(t[v := t[v] - {r}], w) < Distance(t, w)
  {
    var u := t[v := t[v] - {r}];
    FactsHold(t);
    FactsHold(u);
    FactsHold(w);
    assert Facts(u) == Facts(t) - {HasReal(v, r)};
    Closer(t, u, w, HasReal(v, r));
  }

  // ---------- the kernel ----------

  /** The IPVS table and the calls on it. Any call may fail and then changes nothing. `faults` is how
      many failures are still to come, `changes` counts the calls that changed the table. */
  class Kernel {
    var table: Table
    var faults: nat
    var changes: nat

    method Fails() returns (failed: bool)
      modifies this`faults
      ensures if failed then faults < old(faults) else faults == old(faults)
    {
      failed := false;
      if faults > 0 {
        failed := *;
        if failed {
          faults := faults - 1;
        }
      }
    }

    method GetVirtualServers() returns (ok: bool, keys: set<VsKey>)
      modifies this`faults
      ensures if ok then faults == old(faults) && keys == table.Keys else faults < old(faults)
    {
      var failed := Fails();
      ok, keys := !failed, table.Keys;
    }

    method GetRealServers(v: VsKey) returns (ok: bool, keys: set<RsKey>)
      requires v in table
      modifies this`faults
      ensures if ok then faults == old(faults) && keys == table[v] else faults < old(faults)
    {
      var failed := Fails();
      ok, keys := !failed, table[v];
    }

    method AddVirtualServer(v: VsKey) returns (ok: bool)
      requires v !in table
      modifies this
      ensures if ok then faults == old(faults) && table == old(table)[v := {}] && changes == old(changes) + 1
              else faults < old(faults) && table == old(table) && changes == old(changes)
    {
      var failed := Fails();
      ok := !failed;
      if ok {
        table := table[v := {}];
        changes := changes + 1;
      }
    }

    method DeleteVirtualServer(v: VsKey) returns (ok: bool)
      requires v in table
      modifies this
      ensures if ok then faults == old(faults) && table == old(table) - {v} && changes == old(changes) + 1
              else faults < old(faults) && table == old(table) && changes == old(changes)
    {
      var failed := Fails();
      ok := !failed;
      if ok {
        table := table - {v};
        changes := changes + 1;
      }
    }

    method AddRealServer(v: VsKey, r: RsKey) returns (ok: bool)
      requires v in table && r !in table[v]
      modifies this
      ensures
        if ok then faults == old(faults) && table == old(table)[v := old(table)[v] + {r}] && changes == old(changes) + 1
              else faults < old(faults) && table == old(table) && changes == old(changes)
    {
      var failed := Fails();
      ok := !failed;
      if ok {
        table := table[v := table[v] + {r}];
        changes := changes + 1;
      }
    }

    method DeleteRealServer(v: VsKey, r: RsKey) returns (ok: bool)
      requires v in table && r in table[v]
      modifies this
      ensures
        if ok then faults == old(faults) && table == old(table)[v := old(table)[v] - {r}] && changes == old(changes) + 1
              else faults < old(faults) && table == old(table) && changes == old(changes)
    {
      var failed := Fails();
      ok := !failed;
      if ok {
        table := table[v := table[v] - {r}];
        changes := changes + 1;
      }
    }
  }

  // ---------- reconciliation ----------

  /** What every piece of the reconciliation keeps: each change brought the table closer, and an early
      return means a failure was used up. */
  twostate predicate Progress(k: Kernel, w: Table, ok: bool)
    reads k
  {
    && Distance(k.table, w) + k.changes <= Distance(old(k.table), w) + old(k.changes)
    && (if ok then k.faults == old(k.faults) else k.faults < old(k.faults))
  }

  function AddReals(t: Table, v: VsKey, more: set<RsKey>): Table
    requires v in t
  {
    t[v := t[v] + more]
  }

  function CutReals(t: Table, v: VsKey, less: set<RsKey>): Table
    requires v in t
  {
    t[v := t[v] - less]
  }

  lemma {:induction false} RealsNone(t: Table, v: VsKey)
    requires v in t
    ensures AddReals(t, v, {}) == t && CutReals(t, v, {}) == t
  {
    assert t[v] + {} == t[v] && t[v] - {} == t[v];
  }

  lemma {:induction false} RealsStep(t: Table, v: VsKey, all: set<RsKey>, todo: set<RsKey>, r: RsKey)
    requires v in t && r in todo && todo <= all
    ensures
      var before := AddReals(t, v, all - todo);
      AddReals(t, v, all - (todo - {r})) == before[v := before[v] + {r}]
    ensures
      var before := CutReals(t, v, all - todo);
      CutReals(t, v, all - (todo - {r})) == before[v := before[v] - {r}]
  {
    assert t[v] + (all - todo) + {r} == t[v] + (all - (todo - {r}));
    assert t[v] - (all - todo) - {r} == t[v] - (all - (todo - {r}));
  }

  lemma {:induction false} RealsBoth(t: Table, v: VsKey, all: set<RsKey>)
    requires v in t
    ensures CutReals(AddReals(t, v, all - t[v]), v, t[v] - all) == t[v := all]
  {
    assert t[v] + (all - t[v]) - (t[v] - all) == all;
  }

  method AddRealServers(k: Kernel, v: VsKey, toAdd: set<RsKey>, ghost w: Table) returns (ok: bool)
    requires v in k.table && v in w && toAdd !! k.table[v] && toAdd <= w[v]
    modifies k
    ensures Progress(k, w, ok)
    ensures ok ==> k.table == AddReals(old(k.table), v, toAdd)
  {
    var todo := toAdd;
    ghost var base := k.table;
    RealsNone(base, v);
    assert toAdd - todo == {};
    while todo != {}
      invariant todo <= toAdd
      invariant k.table == AddReals(base, v, toAdd - todo)
      invariant Distance(k.table, w) + k.changes <= Distance(base, w) + old(k.changes)
      invariant k.faults == old(k.faults)
    {
      var r :| r in todo;
      AddRealCloser(k.table, w, v, r);
      RealsStep(base, v, toAdd, todo, r);
      todo := todo - {r};
      var added := k.AddRealServer(v, r);
      if !added {
        return false;
      }
    }
    assert toAdd - {} == toAdd;
    return true;
  }

  method DeleteRealServers(k: Kernel, v: VsKey, toDel: set<RsKey>, ghost w: Table) returns (ok: bool)
    requires v in k.table && v in w && toDel <= k.table[v] && toDel !! w[v]
    modifies k
    ensures Progress(k, w, ok)
    ensures ok ==> k.table == CutReals(old(k.table), v, toDel)
  {
    var todo := toDel;
    ghost var base := k.table;
    RealsNone(base, v);
    assert toDel - todo == {};
    while todo != {}
      invariant todo <= toDel
      invariant k.table == CutReals(base, v, toDel - todo)
      invariant Distance(k.table, w) + k.changes <= Distance(base, w) + old(k.changes)
      invariant k.faults == old(k.faults)
    {
      var r :| r in todo;
      DeleteRealCloser(k.table, w, v, r);
      RealsStep(base, v, toDel, todo, r);
      todo := todo - {r};
      var deleted := k.DeleteRealServer(v, r);
      if !deleted {
        return false;
      }
    }
    assert toDel - {} == toDel;
    return true;
  }

  method UpdateRealServers(k: Kernel, v: VsKey, realServers: seq<RsKey>, ghost w: Table) returns (ok: bool)
    requires v in k.table && v in w && w[v] == RealSet(realServers)
    modifies k
    ensures Progress(k, w, ok)
    ensures ok ==> k.table == old(k.table)[v := w[v]]
  {
    var have: set<RsKey>;
    ok, have := k.GetRealServers(v);
    if !ok {
      return;
    }
    var all := RealSet(realServers);
    RealsBoth(k.table, v, all);
    ok := AddRealServers(k, v, all - have, w);
    if !ok {
      return;
    }
    ok := DeleteRealServers(k, v, have - all, w);
  }

  /** `t` with the entries of `w` for the given keys. */
  function Overlay(t: Table, w: Table, keys: set<VsKey>): Table {
    t + (w - (w.Keys - keys))
  }

  lemma {:induction false} PutTwice(t: Table, v: VsKey, a: set<RsKey>, b: set<RsKey>)
    ensures t[v := a][v := b] == t[v := b]
  {}

  lemma {:induction false} OverlayNone(t: Table, w: Table)
    ensures Overlay(t, w, {}) == t
  {}

  lemma {:induction false} OverlayStep(t: Table, w: Table, all: set<VsKey>, todo: set<VsKey>, v: VsKey)
    requires v in todo && todo <= all && v in w
    ensures Overlay(t, w, all - (todo - {v})) == Overlay(t, w, all - todo)[v := w[v]]
    ensures v in Overlay(t, w, all - todo) <==> v in t
  {}

  lemma {:induction false} OverlayOne(t: Table, w: Table, done: set<VsKey>, v: VsKey)
    requires v in w && v !in done
    ensures Overlay(t, w, done + {v}) == Overlay(t, w, done)[v := w[v]]
    ensures v in Overlay(t, w, done) <==> v in t
  {}

  /** The three steps of the reconciliation, in order, make the wanted table. */
  lemma {:induction false} Reconciled(t: Table, w: Table, all: set<VsKey>)
    requires all == w.Keys
    ensures Overlay(Overlay(t, w, all - t.Keys) - (t.Keys - all), w, all * t.Keys) == w
    ensures all * t.Keys <= (Overlay(t, w, all - t.Keys) - (t.Keys - all)).Keys
    ensures t.Keys - all <= Overlay(t, w, all - t.Keys).Keys
  {}

  /** For the given keys, `w` holds the configured real servers. */
  ghost predicate Agrees(configured: map<VsKey, seq<RsKey>>, w: Table, keys: set<VsKey>) {
    forall v <- keys :: v in configured && v in w && w[v] == RealSet(configured[v])
  }

  lemma {:induction false} WantedAgrees(configured: map<VsKey, seq<RsKey>>)
    ensures configured.Keys == Wanted(configured).Keys
    ensures Agrees(configured, Wanted(configured), configured.Keys)
  {}

  method AddServer(k: Kernel, v: VsKey, realServers: seq<RsKey>, ghost w: Table) returns (ok: bool)
    requires v !in k.table && v in w && w[v] == RealSet(realServers)
    modifies k
    ensures Progress(k, w, ok)
    ensures ok ==> k.table == old(k.table)[v := w[v]]
  {
    AddServerCloser(k.table, w, v);
    PutTwice(k.table, v, {}, w[v]);
    ok := k.AddVirtualServer(v);
    if !ok {
      return;
    }
    ok := UpdateRealServers(k, v, realServers, w);
  }

  lemma {:induction false} AddReady(configured: map<VsKey, seq<RsKey>>, w: Table, toAdd: set<VsKey>, todo: set<VsKey>,
                                    done: set<VsKey>,
                 base: Table, v: VsKey)
    requires Agrees(configured, w, toAdd) && toAdd !! base.Keys
    requires todo + done == toAdd && todo !! done && v in todo
    ensures Agrees(configured, w, {v}) && v !in base && v !in done
    ensures todo - {v} + (done + {v}) == toAdd && todo - {v} !! done + {v}
  {}

  /** One turn of the loop over the new servers. */
  method AddNext(k: Kernel, v: VsKey, done: set<VsKey>, configured: map<VsKey, seq<RsKey>>, ghost base: Table,
                 ghost w: Table)
    returns (ok: bool)
    requires Agrees(configured, w, {v}) && v !in base && v !in done && k.table == Overlay(base, w, done)
    modifies k
    ensures Progress(k, w, ok)
    ensures ok ==> k.table == Overlay(base, w, done + {v})
  {
    assert v in configured && v in w && w[v] == RealSet(configured[v]);
    OverlayOne(base, w, done, v);
    ok := AddServer(k, v, configured[v], w);
  }

  method AddServers(k: Kernel, toAdd: set<VsKey>, configured: map<VsKey, seq<RsKey>>, ghost w: Table) returns (ok: bool)
    requires Agrees(configured, w, toAdd) && toAdd !! k.table.Keys
    modifies k
    ensures Progress(k, w, ok)
    ensures ok ==> k.table == Overlay(old(k.table), w, toAdd)
  {
    ghost var base, bound := k.table, Distance(k.table, w) + k.changes;
    OverlayNone(base, w);
    var todo, done := toAdd, {};
    while todo != {}
      invariant todo + done == toAdd && todo !! done
      invariant k.table == Overlay(base, w, done)
      invariant Distance(k.table, w) + k.changes <= bound
      invariant k.faults == old(k.faults)
    {
      var v :| v in todo;
      AddReady(configured, w, toAdd, todo, done, base, v);
      ok := AddNext(k, v, done, configured, base, w);
      if !ok {
        return;
      }
      todo, done := todo - {v}, done + {v};
    }
    assert done == toAdd;
    return true;
  }

  method DeleteServers(k: Kernel, toDel: set<VsKey>, ghost w: Table) returns (ok: bool)
    requires toDel <= k.table.Keys && toDel !! w.Keys
    modifies k
    ensures Progress(k, w, ok)
    ensures ok ==> k.table == old(k.table) - toDel
  {
    var todo := toDel;
    ghost var base := k.table;
    assert base - (toDel - todo) == base;
    while todo != {}
      invariant todo <= toDel
      invariant k.table == base - (toDel - todo)
      invariant Distance(k.table, w) + k.changes <= Distance(base, w) + old(k.changes)
      invariant k.faults == old(k.faults)
    {
      var v :| v in todo;
      assert base - (toDel - todo) - {v} == base - (toDel - (todo - {v}));
      DeleteServerCloser(k.table, w, v);
      todo := todo - {v};
      ok := k.DeleteVirtualServer(v);
      if !ok {
        return;
      }
    }
    assert toDel - {} == toDel;
    return true;
  }

  method UpdateServers(k: Kernel, toUpdate: set<VsKey>, configured: map<VsKey, seq<RsKey>>,
                       ghost w: Table) returns (ok: bool)
    requires Agrees(configured, w, toUpdate) && toUpdate <= k.table.Keys
    modifies k
    ensures Progress(k, w, ok)
    ensures ok ==> k.table == Overlay(old(k.table), w, toUpdate)
  {
    var todo := toUpdate;
    ghost var base := k.table;
    OverlayNone(base, w);
    assert toUpdate - todo == {};
    while todo != {}
      invariant todo <= toUpdate
      invariant k.table == Overlay(base, w, toUpdate - todo)
      invariant Distance(k.table, w) + k.changes <= Distance(base, w) + old(k.changes)
      invariant k.faults == old(k.faults)
    {
      var v :| v in todo;
      OverlayStep(base, w, toUpdate, todo, v);
      todo := todo - {v};
      ok := UpdateRealServers(k, v, configured[v], w);
      if !ok {
        return;
      }
    }
    assert toUpdate - {} == toUpdate;
    return true;
  }

  /** The three loops, given the virtual servers present at the start. */
  method SyncTable(k: Kernel, present: set<VsKey>, configured: map<VsKey, seq<RsKey>>,
                   ghost w: Table) returns (ok: bool)
    requires present == k.table.Keys && configured.Keys == w.Keys && Agrees(configured, w, configured.Keys)
    modifies k
    ensures Progress(k, w, ok)
    ensures ok ==> k.table == w
  {
    Reconciled(k.table, w, configured.Keys);
    ok := AddServers(k, configured.Keys - present, configured, w);
    if !ok {
      return;
    }
    ok := DeleteServers(k, present - configured.Keys, w);
    if !ok {
      return;
    }
    ok := UpdateServers(k, configured.Keys * present, configured, w);
  }

  /** On success the kernel's table is the configured one, whatever it was before. Success or not,
      every change made brought it closer. */
  method SyncVirtualServer(k: Kernel, servers: seq<Server>) returns (ok: bool)
    modifies k
    ensures Progress(k, Wanted(Configured(servers)), ok)
    ensures ok ==> k.table == Wanted(Configured(servers)) && Serves(k.table, servers)
  {
    WantedServes(servers);
    var present: set<VsKey>;
    ok, present := k.GetVirtualServers();
    if !ok {
      return;
    }
    var configured := CollectServers(servers);
    WantedAgrees(configured);
    ok := SyncTable(k, present, configured, Wanted(configured));
  }

  method CollectServers(servers: seq<Server>) returns (configured: map<VsKey, seq<RsKey>>)
    ensures configured == Configured(servers)
  {
    configured := map[];
    for i := 0 to |servers|
      invariant configured == Configured(servers[..i])
    {
      assert servers[..i + 1][..i] == servers[..i];
      configured := configured[servers[i].virtualServer := servers[i].realServers];
    }
    assert servers[..|servers|] == servers;
  }

  /** Retried until it succeeds, the reconciliation ends with the configured table after finitely many
      failures, having made no more changes than the tables disagreed on at the start. */
  method RetryForever(k: Kernel, servers: seq<Server>)
    modifies k
    ensures k.table == Wanted(Configured(servers)) && Serves(k.table, servers)
    ensures k.changes <= old(k.changes) + Distance(old(k.table), Wanted(Configured(servers)))
  {
    WantedServes(servers);
    var ok := SyncVirtualServer(k, servers);
    while !ok
      invariant ok ==> k.table == Wanted(Configured(servers))
      invariant Distance(k.table, Wanted(Configured(servers))) + k.changes
        <= Distance(old(k.table), Wanted(Configured(servers))) + old(k.changes)
      decreases if ok then 0 else 1 + k.faults
    {
      ok := SyncVirtualServer(k, servers);
    }
  }
}
