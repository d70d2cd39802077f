/** Who owns which block: the protocol between the operator, which allocates a block and annotates
    the node with it, and an API server that rejects stale updates. The operator works from a
    cache that lags behind the server by any number of versions. */
module Subnets {
  import opened Prelude
  import opened Addresses
  import opened AddressInts
  import opened Allocator

  type Name = string

  /** The annotation, split and parsed; `None` for a piece that does not parse. */
  type Cidrs = seq<Option<IPNet>>

  /** A node object as the API server has it at some moment. */
  datatype View = Absent | Present(version: nat, cidrs: Cidrs)

  /** `hist` holds every version of each node, newest last, and `seen` which of them the operator's
      cache shows; the rest is the operator's own memory. */
  datatype State = State(
    clock: nat, hist: map<Name, seq<View>>, seen: map<Name, nat>,
    recorded: set<IPNet>, store: map<Name, Cidrs>, edgeNames: set<Name>)

  datatype Op =
    /** Someone registers a node; its annotation is not one the operator would accept. */
    | Create(name: Name, cidrs: Cidrs)
    /** Someone changes the node, but not its annotation. */
    | Touch(name: Name)
    | Delete(name: Name)
    /** The operator's cache catches up, perhaps not all the way. */
    | Observe(name: Name, upto: nat)
    /** A reconcile of the cached node. `start` is the generator's starting point, `accepted` whether
        the API server takes an update that is not stale, `undone` whether the other handlers'
        cleanups succeed. */
    | Reconcile(name: Name, start: nat, accepted: bool, undone: bool)

  const EMPTY := State(0, map[], map[], {}, map[], {})

  function Hist(s: State, n: Name): seq<View> {
    if n in s.hist then s.hist[n] else [Absent]
  }

  function Seen(s: State, n: Name): nat {
    if n in s.seen then s.seen[n] else 0
  }

  function Last(h: seq<View>): View {
    if h == [] then Absent else h[|h| - 1]
  }

  ghost predicate ValidCidr(pool: IPNet, cidr: Option<IPNet>) {
    cidr.Some? && InPool(pool, cidr.value)
  }

  ghost predicate AllValid(pool: IPNet, cidrs: Cidrs) {
    cidrs == [] || (AllValid(pool, cidrs[..|cidrs| - 1]) && ValidCidr(pool, cidrs[|cidrs| - 1]))
  }

  ghost predicate ValidCidrs(pool: IPNet, cidrs: Cidrs) {
    cidrs != [] && AllValid(pool, cidrs)
  }

  /** Append a version to a node's history. */
  function Push(s: State, n: Name, v: View): State {
    s.(clock := s.clock + 1, hist := s.hist[n := Hist(s, n) + [v]])
  }

  /** What the endpoint and the annotation come to hold for a block: it prints, or it does not parse. */
  function Saved(block: IPNet): Option<IPNet> {
    if block == NIL_NET then None else Some(block)
  }

  /** The handler's own memory: the allocator's cache, and the subnets of each node's endpoint. */
  datatype Memory = Memory(recorded: set<IPNet>, store: map<Name, Cidrs>)

  /** What the handler's `Do` does to it; `updated` says whether the API server takes the annotation. */
  ghost function DoMemory(pool: IPNet, m: Memory, n: Name, cidrs: Cidrs, start: nat, updated: bool): Memory
    requires StartOk(pool, start)
  {
    var block := FreeBlock(pool, start, m.recorded);
    if ValidCidrs(pool, cidrs) then m.(store := m.store[n := cidrs])
    else if block.Some? && updated then Memory(m.recorded + {block.value}, m.store[n := [Saved(block.value)]])
    else m
  }

  /** What its `Undo` does. */
  function UndoMemory(m: Memory, n: Name): Memory {
    if n in m.store then Memory(m.recorded - Nets(m.store[n]), m.store - {n}) else m
  }

  function MemoryOf(s: State): Memory {
    Memory(s.recorded, s.store)
  }

  /** The reconcile of a node that is there: the handler's `Do`, with the annotated node pushed if the API
      server takes it, which it does only if the node the operator saw is not stale. */
  ghost function Do(pool: IPNet, s: State, n: Name, view: View, start: nat, accepted: bool): State
    requires view.Present? && StartOk(pool, start)
  {
    var head := Last(Hist(s, n));
    var updated := accepted && head.Present? && head.version == view.version;
    var block, m := FreeBlock(pool, start, s.recorded), DoMemory(pool, MemoryOf(s), n, view.cidrs, start, updated);
    var pushed := if !ValidCidrs(pool, view.cidrs) && block.Some? && updated
      then Push(s, n, Present(s.clock, [Saved(block.value)])) else s;
    pushed.(recorded := m.recorded, store := m.store, edgeNames := s.edgeNames + {n})
  }

  /** The subnets of a saved endpoint that parse. */
  function Nets(cidrs: Cidrs): set<IPNet> {
    set i | 0 <= i < |cidrs| && cidrs[i].Some? :: UnmappedNet(cidrs[i].value)
  }

  /** The reconcile of a node that is gone: the handler's `Undo`. */
  function Undo(s: State, n: Name): State {
    if n !in s.edgeNames then s else
    var m := UndoMemory(MemoryOf(s), n);
    s.(recorded := m.recorded, store := m.store, edgeNames := s.edgeNames - {n})
  }

  ghost function Apply(pool: IPNet, s: State, op: Op): State {
    match op
    case Create(n, cidrs) =>
      if Last(Hist(s, n)).Absent? && !ValidCidrs(pool, cidrs) then Push(s, n, Present(s.clock, cidrs)) else s
    case Touch(n) =>
      var head := Last(Hist(s, n));
      if head.Present? then Push(s, n, head.(version := s.clock)) else s
    case Delete(n) =>
      if Last(Hist(s, n)).Present? then Push(s, n, Absent) else s
    case Observe(n, upto) =>
      if Seen(s, n) <= upto < |Hist(s, n)| then s.(seen := s.seen[n := upto]) else s
    case Reconcile(n, start, accepted, undone) =>
      if Seen(s, n) >= |Hist(s, n)| || !StartOk(pool, start) then s else
      var view := Hist(s, n)[Seen(s, n)];
      if view.Present? then Do(pool, s, n, view, start, accepted)
      else if undone then Undo(s, n) else s
  }

  ghost function Run(pool: IPNet, ops: seq<Op>): State
    decreases |ops|
  {
    if ops == [] then EMPTY else Apply(pool, Run(pool, ops[..|ops| - 1]), ops[|ops| - 1])
  }

  // ---------- what every run keeps ----------

  /** Versions in a node's history grow, and stay below the clock. */
  ghost predicate Ordered(h: seq<View>, clock: nat) {
    && (forall i, j :: 0 <= i < j < |h| && h[i].Present? && h[j].Present? ==> h[i].version < h[j].version)
    && (forall i :: 0 <= i < |h| && h[i].Present? ==> h[i].version < clock)
  }

  /** Every accepted annotation in the history from `k` on is the stored one, and the node was not
      deleted in between. */
  ghost predicate Accepted(pool: IPNet, h: seq<View>, k: nat, stored: Option<Cidrs>) {
    forall i :: k <= i < |h| && h[i].Present? && ValidCidrs(pool, h[i].cidrs) ==>
      stored == Some(h[i].cidrs) && forall j :: k <= j <= i ==> h[j].Present?
  }

  function Stored(s: State, n: Name): Option<Cidrs> {
    if n in s.store then Some(s.store[n]) else None
  }

  /** Every accepted annotation the operator can still come to see is the one it has stored. */
  ghost predicate Agreed(pool: IPNet, s: State, n: Name) {
    var h, k := Hist(s, n), Seen(s, n);
    k < |h| && Ordered(h, s.clock) && Accepted(pool, h, k, Stored(s, n))
  }

  /** What is stored for a node is one recorded block of the pool. */
  ghost predicate Holds(pool: IPNet, s: State, n: Name) {
    n in s.store ==>
      |s.store[n]| == 1 && s.store[n][0].Some? && s.store[n][0].value in s.recorded * BlockSet(pool)
  }

  ghost predicate Apart(s: State) {
    forall m <- s.store, n <- s.store :: m != n ==> s.store[m] != s.store[n]
  }

  ghost predicate Inv(pool: IPNet, s: State) {
    (forall n :: Agreed(pool, s, n)) && (forall n :: Holds(pool, s, n)) && Apart(s)
  }

  lemma OtherNodes(pool: IPNet, s: State, u: State, n: Name)
    requires Agreed(pool, s, n) && u.clock >= s.clock
    requires Hist(u, n) == Hist(s, n) && Seen(u, n) == Seen(s, n)
    requires n in u.store <==> n in s.store
    requires n in s.store ==> u.store[n] == s.store[n]
    ensures Agreed(pool, u, n)
  {}

  lemma PushAgreed(pool: IPNet, s: State, n: Name, v: View)
    requires Agreed(pool, s, n) && (v.Present? ==> v.version == s.clock)
    requires v.Present? && ValidCidrs(pool, v.cidrs) ==>
      Last(Hist(s, n)).Present? && Last(Hist(s, n)).cidrs == v.cidrs
    ensures Agreed(pool, Push(s, n, v), n)
  {
    var h, u := Hist(s, n), Push(s, n, v);
    assert Hist(u, n) == h + [v];
    OrderedAppend(h, v, s.clock);
    AcceptedAppend(pool, h, Seen(s, n), Stored(s, n), v);
  }

  lemma AcceptedAppend(pool: IPNet, h: seq<View>, k: nat, stored: Option<Cidrs>, v: View)
    requires k < |h| && Accepted(pool, h, k, stored)
    requires v.Present? && ValidCidrs(pool, v.cidrs) ==> Last(h).Present? && Last(h).cidrs == v.cidrs
    ensures Accepted(pool, h + [v], k, stored)
  {
    var h' := h + [v];
    forall i | k <= i < |h'| && h'[i].Present? && ValidCidrs(pool, h'[i].cidrs)
      ensures stored == Some(h'[i].cidrs) && forall j :: k <= j <= i ==> h'[j].Present?
    {
      if i == |h| {
        assert h[|h| - 1] == Last(h);
        assert stored == Some(h[|h| - 1].cidrs) && forall j :: k <= j <= |h| - 1 ==> h[j].Present?;
      } else {
        assert h'[i] == h[i];
      }
    }
  }

  lemma PushInv(pool: IPNet, s: State, n: Name, v: View)
    requires Inv(pool, s) && (v.Present? ==> v.version == s.clock)
    requires v.Present? && ValidCidrs(pool, v.cidrs) ==>
      Last(Hist(s, n)).Present? && Last(Hist(s, n)).cidrs == v.cidrs
    ensures Inv(pool, Push(s, n, v))
  {
    var u := Push(s, n, v);
    forall m ensures Agreed(pool, u, m) && Holds(pool, u, m) {
      assert Agreed(pool, s, m) && Holds(pool, s, m);
      if m == n {
        PushAgreed(pool, s, n, v);
      } else {
        OtherNodes(pool, s, u, m);
      }
    }
  }

  lemma ObserveInv(pool: IPNet, s: State, n: Name, upto: nat)
    requires Inv(pool, s) && Seen(s, n) <= upto < |Hist(s, n)|
    ensures Inv(pool, s.(seen := s.seen[n := upto]))
  {
    var u := s.(seen := s.seen[n := upto]);
    forall m ensures Agreed(pool, u, m) && Holds(pool, u, m) {
      assert Agreed(pool, s, m) && Holds(pool, s, m);
    }
  }

  /** A version the cache shows and the server still has is the newest. */
  lemma CurrentIsLast(h: seq<View>, k: nat, clock: nat)
    requires Ordered(h, clock) && k < |h| && h[k].Present? && Last(h).Present? && h[k].version == Last(h).version
    ensures k == |h| - 1
  {}

  lemma SingleValid(pool: IPNet, cidr: Option<IPNet>)
    requires ValidCidr(pool, cidr)
    ensures ValidCidrs(pool, [cidr])
  {
    assert [cidr][..0] == [];
  }

  lemma BlockValid(pool: IPNet, j: nat)
    requires PoolOk(pool) && j < NumBlocks(pool)
    ensures ValidCidrs(pool, [Some(Block(pool, j))])
  {
    BlockInPool(pool, j);
    SingleValid(pool, Some(Block(pool, j)));
  }

  lemma FreshBlock(pool: IPNet, start: nat, recorded: set<IPNet>)
    requires PoolOk(pool) && StartOk(pool, start) && FreeBlock(pool, start, recorded).Some?
    ensures
      var b := FreeBlock(pool, start, recorded);
      b.value !in recorded && b.value in BlockSet(pool) && ValidCidrs(pool, [b]) && Saved(b.value) == b
  {
    BlockValid(pool, FreeFrom(pool, start, 0, recorded).value);
    BlockValue(pool, FreeFrom(pool, start, 0, recorded).value);
  }

  /** The state after a successful annotation. */
  function Granted(s: State, n: Name, block: Option<IPNet>): State
    requires block.Some?
  {
    Push(s, n, Present(s.clock, [block])).(
      recorded := s.recorded + {block.value}, store := s.store[n := [block]])
  }

  lemma OrderedAppend(h: seq<View>, v: View, clock: nat)
    requires Ordered(h, clock) && (v.Present? ==> v.version == clock)
    ensures Ordered(h + [v], clock + 1)
  {}

  /** After an unaccepted annotation only the new one can be accepted. */
  lemma AcceptedGranted(pool: IPNet, h: seq<View>, version: nat, cidrs: Cidrs)
    requires h != [] && Last(h).Present? && !ValidCidrs(pool, Last(h).cidrs)
    ensures Accepted(pool, h + [Present(version, cidrs)], |h| - 1, Some(cidrs))
  {
    var h' := h + [Present(version, cidrs)];
    assert h'[|h| - 1] == Last(h) && h'[|h|] == Present(version, cidrs);
    forall i | |h| - 1 <= i < |h'| && h'[i].Present? && ValidCidrs(pool, h'[i].cidrs)
      ensures h'[i].cidrs == cidrs && forall j :: |h| - 1 <= j <= i ==> h'[j].Present?
    {
      assert i == |h|;
    }
  }

  lemma GrantedAgreed(pool: IPNet, s: State, n: Name, block: Option<IPNet>)
    requires Agreed(pool, s, n) && block.Some?
    requires Seen(s, n) == |Hist(s, n)| - 1 && Last(Hist(s, n)).Present?
    requires !ValidCidrs(pool, Last(Hist(s, n)).cidrs)
    ensures Agreed(pool, Granted(s, n, block), n)
  {
    OrderedAppend(Hist(s, n), Present(s.clock, [block]), s.clock);
    AcceptedGranted(pool, Hist(s, n), s.clock, [block]);
  }

  lemma GrantedInv(pool: IPNet, s: State, n: Name, block: Option<IPNet>)
    requires Inv(pool, s) && block.Some? && block.value !in s.recorded && block.value in BlockSet(pool)
    requires Agreed(pool, Granted(s, n, block), n)
    ensures Inv(pool, Granted(s, n, block))
  {
    var u := Granted(s, n, block);
    forall m ensures Agreed(pool, u, m) && Holds(pool, u, m) {
      assert Agreed(pool, s, m) && Holds(pool, s, m);
      if m != n {
        OtherNodes(pool, s, u, m);
      }
    }
    forall m | m in s.store && m != n
      ensures s.store[m] != [block]
    {
      assert Holds(pool, s, m);
    }
  }

  /** The reconcile annotates the node: what it has is not accepted, a block is free, and the server takes
      the update. */
  ghost predicate Grants(pool: IPNet, s: State, n: Name, view: View, start: nat, accepted: bool)
    requires view.Present? && StartOk(pool, start)
  {
    var head := Last(Hist(s, n));
    && !ValidCidrs(pool, view.cidrs) && FreeBlock(pool, start, s.recorded).Some?
    && accepted && head.Present? && head.version == view.version
  }

  /** A reconcile of a node that is there grants a block or only remembers the name. */
  lemma DoIs(pool: IPNet, s: State, n: Name, start: nat, accepted: bool)
    requires PoolOk(pool) && Agreed(pool, s, n) && StartOk(pool, start) && Hist(s, n)[Seen(s, n)].Present?
    ensures
      var view, named := Hist(s, n)[Seen(s, n)], s.(edgeNames := s.edgeNames + {n});
      Do(pool, s, n, view, start, accepted) ==
      if Grants(pool, s, n, view, start, accepted) then Granted(named, n, FreeBlock(pool, start, s.recorded))
      else named
  {
    var view := Hist(s, n)[Seen(s, n)];
    if Grants(pool, s, n, view, start, accepted) {
      FreshBlock(pool, start, s.recorded);
    } else if ValidCidrs(pool, view.cidrs) {
      assert s.store[n := view.cidrs] == s.store;
    }
  }

  lemma DoInv(pool: IPNet, s: State, n: Name, start: nat, accepted: bool)
    requires PoolOk(pool) && Inv(pool, s) && StartOk(pool, start)
    requires Seen(s, n) < |Hist(s, n)| && Hist(s, n)[Seen(s, n)].Present?
    ensures Inv(pool, Do(pool, s, n, Hist(s, n)[Seen(s, n)], start, accepted))
  {
    var h, k := Hist(s, n), Seen(s, n);
    var named := s.(edgeNames := s.edgeNames + {n});
    assert Agreed(pool, s, n);
    SameMemory(pool, s, named);
    DoIs(pool, s, n, start, accepted);
    if Grants(pool, s, n, h[k], start, accepted) {
      var block := FreeBlock(pool, start, s.recorded);
      FreshBlock(pool, start, s.recorded);
      CurrentIsLast(h, k, s.clock);
      GrantedAgreed(pool, named, n, block);
      GrantedInv(pool, named, n, block);
    }
  }

  /** The invariant does not look at the set of node names. */
  lemma SameMemory(pool: IPNet, s: State, u: State)
    requires Inv(pool, s) && u == s.(edgeNames := u.edgeNames)
    ensures Inv(pool, u)
  {
    forall m ensures Agreed(pool, u, m) && Holds(pool, u, m) {
      assert Agreed(pool, s, m) && Holds(pool, s, m);
    }
  }

  lemma UndoInv(pool: IPNet, s: State, n: Name)
    requires Inv(pool, s) && Seen(s, n) < |Hist(s, n)| && Hist(s, n)[Seen(s, n)].Absent?
    ensures Inv(pool, Undo(s, n))
  {
    var u := Undo(s, n);
    forall m ensures Agreed(pool, u, m) && Holds(pool, u, m) {
      assert Agreed(pool, s, m) && Holds(pool, s, m) && Holds(pool, s, n);
      if m != n {
        OtherNodes(pool, s, u, m);
      }
    }
  }

  lemma StepInv(pool: IPNet, s: State, op: Op)
    requires PoolOk(pool) && Inv(pool, s)
    ensures Inv(pool, Apply(pool, s, op))
  {
    match op
    case Create(n, cidrs) =>
      if Last(Hist(s, n)).Absent? && !ValidCidrs(pool, cidrs) { PushInv(pool, s, n, Present(s.clock, cidrs)); }
    case Touch(n) =>
      var head := Last(Hist(s, n));
      if head.Present? { PushInv(pool, s, n, head.(version := s.clock)); }
    case Delete(n) =>
      if Last(Hist(s, n)).Present? { PushInv(pool, s, n, Absent); }
    case Observe(n, upto) =>
      if Seen(s, n) <= upto < |Hist(s, n)| { ObserveInv(pool, s, n, upto); }
    case Reconcile(n, start, accepted, undone) =>
      if Seen(s, n) < |Hist(s, n)| && StartOk(pool, start) {
        if Hist(s, n)[Seen(s, n)].Present? {
          DoInv(pool, s, n, start, accepted);
        } else if undone {
          UndoInv(pool, s, n);
        }
      }
  }

  lemma {:induction false} RunInv(pool: IPNet, ops: seq<Op>)
    requires PoolOk(pool)
    ensures Inv(pool, Run(pool, ops))
    decreases |ops|
  {
    if ops != [] {
      RunInv(pool, ops[..|ops| - 1]);
      StepInv(pool, Run(pool, ops[..|ops| - 1]), ops[|ops| - 1]);
    } else {
      forall n ensures Agreed(pool, EMPTY, n) && Holds(pool, EMPTY, n) {}
    }
  }

  /** In every run, what is stored for a node is one block, recorded in the allocator, and the blocks
      of two different nodes share no address. */
  lemma OwnershipIsExclusive(pool: IPNet, ops: seq<Op>, m: Name, n: Name, ip: IP)
    requires PoolOk(pool) && m != n && |ip| == 4
    requires m in Run(pool, ops).store && n in Run(pool, ops).store
    ensures
      var s := Run(pool, ops);
      && |s.store[m]| == 1 && s.store[m][0].Some? && s.store[m][0].value in s.recorded
      && |s.store[n]| == 1 && s.store[n][0].Some? && s.store[n][0].value in s.recorded
      && !(Contains(s.store[m][0].value, ip) && Contains(s.store[n][0].value, ip))
  {
    var s := Run(pool, ops);
    RunInv(pool, ops);
    assert Holds(pool, s, m) && Holds(pool, s, n);
    var i :| 0 <= i < NumBlocks(pool) && s.store[m][0].value == Block(pool, i);
    var j :| 0 <= j < NumBlocks(pool) && s.store[n][0].value == Block(pool, j);
    assert s.store[m] == [s.store[m][0]] && s.store[n] == [s.store[n][0]];
    BlocksDisjoint(pool, i, j, ip);
  }

  // ---------- nothing is recorded without an owner ----------

  function OwnedBy(cidrs: Cidrs): IPNet
    requires cidrs != [] && cidrs[0].Some?
  {
    cidrs[0].value
  }

  ghost function Owned(s: State): (r: set<IPNet>)
    ensures forall b :: b in r <==> exists n <- s.store :: s.store[n] == [Some(b)]
  {
    set n | n in s.store && |s.store[n]| == 1 && s.store[n][0].Some? :: OwnedBy(s.store[n])
  }

  /** The step annotates a node for which a block is already stored. */
  ghost predicate Overwrites(pool: IPNet, s: State, op: Op) {
    op.Reconcile? && op.name in s.store && StartOk(pool, op.start) && Seen(s, op.name) < |Hist(s, op.name)|
    && (var view := Hist(s, op.name)[Seen(s, op.name)];
        view.Present? && Grants(pool, s, op.name, view, op.start, op.accepted))
  }

  lemma GrantedOwned(pool: IPNet, s: State, n: Name, block: Option<IPNet>)
    requires Inv(pool, s) && s.recorded == Owned(s) && block.Some? && block.value !in s.recorded
    ensures Granted(s, n, block).recorded == Owned(Granted(s, n, block)) <==> n !in s.store
  {
    var u := Granted(s, n, block);
    assert Holds(pool, s, n);
    forall b
      ensures b in Owned(u) <==> b == block.value || exists m <- s.store :: m != n && s.store[m] == [Some(b)]
    {
      assert [block] == [Some(b)] <==> b == block.value;
      if m :| m in s.store && m != n && s.store[m] == [Some(b)] {
        assert m in u.store && u.store[m] == [Some(b)];
      }
      assert n in u.store && u.store[n] == [block];
    }
    if n in s.store {
      var b := s.store[n][0].value;
      assert s.store[n] == [Some(b)];
      assert b in u.recorded && b !in Owned(u);
    } else {
      assert u.recorded == Owned(u);
    }
  }

  lemma UndoOwned(pool: IPNet, s: State, n: Name)
    requires Inv(pool, s) && s.recorded == Owned(s)
    ensures Undo(s, n).recorded == Owned(Undo(s, n))
  {
    var u := Undo(s, n);
    assert Holds(pool, s, n);
    if n in s.edgeNames && n in s.store {
      var b := s.store[n][0].value;
      assert s.store[n] == [Some(b)] && Nets(s.store[n]) == {b};
      forall c
        ensures c in Owned(u) <==> c in Owned(s) && c != b
      {
        if m :| m in s.store && s.store[m] == [Some(c)] {
          assert m != n ==> m in u.store && u.store[m] == s.store[m];
        }
      }
    } else {
      assert u.store == s.store;
    }
  }

  /** A step keeps "recorded means owned" exactly when it does not annotate a node that has a block
      stored already. */
  lemma StepOwnedIff(pool: IPNet, s: State, op: Op)
    requires PoolOk(pool) && Inv(pool, s) && s.recorded == Owned(s)
    ensures Apply(pool, s, op).recorded == Owned(Apply(pool, s, op)) <==> !Overwrites(pool, s, op)
  {
    var n := op.name;
    assert Agreed(pool, s, n);
    if op.Reconcile? && StartOk(pool, op.start) {
      if Hist(s, n)[Seen(s, n)].Absent? {
        UndoOwned(pool, s, n);
      } else {
        DoOwned(pool, s, n, op.start, op.accepted);
      }
    }
  }

  lemma DoOwned(pool: IPNet, s: State, n: Name, start: nat, accepted: bool)
    requires PoolOk(pool) && Inv(pool, s) && s.recorded == Owned(s) && StartOk(pool, start)
    requires Agreed(pool, s, n) && Hist(s, n)[Seen(s, n)].Present?
    ensures
      var view := Hist(s, n)[Seen(s, n)];
      var u := Do(pool, s, n, view, start, accepted);
      u.recorded == Owned(u) <==> !(Grants(pool, s, n, view, start, accepted) && n in s.store)
  {
    var named := s.(edgeNames := s.edgeNames + {n});
    DoIs(pool, s, n, start, accepted);
    SameMemory(pool, s, named);
    if Grants(pool, s, n, Hist(s, n)[Seen(s, n)], start, accepted) {
      FreshBlock(pool, start, s.recorded);
      GrantedOwned(pool, named, n, FreeBlock(pool, start, s.recorded));
    }
  }

  /** A stored block is what the newest version of the node says, or the node has been deleted. */
  ghost predicate Current(s: State, n: Name) {
    n in s.store ==> Last(Hist(s, n)).Absent? || Last(Hist(s, n)).cidrs == s.store[n]
  }

  /** A name comes back only after its deletion has been reconciled. */
  ghost predicate Reconciled(s: State, op: Op) {
    op.Create? ==> op.name !in s.store
  }

  ghost predicate AllCurrent(s: State) {
    forall n :: Current(s, n)
  }

  lemma PushCurrent(s: State, n: Name, v: View)
    requires AllCurrent(s) && (n in s.store ==> v.Absent? || v.cidrs == s.store[n])
    ensures AllCurrent(Push(s, n, v))
  {
    forall m ensures Current(Push(s, n, v), m) {
      assert Current(s, m);
    }
  }

  lemma GrantedCurrent(s: State, n: Name, block: Option<IPNet>)
    requires AllCurrent(s) && block.Some?
    ensures AllCurrent(Granted(s, n, block))
  {
    forall m ensures Current(Granted(s, n, block), m) {
      assert Current(s, m);
    }
  }

  /** Forgetting some stored blocks, and changing nothing the server has, keeps the rest current. */
  lemma ShrinkCurrent(s: State, u: State)
    requires AllCurrent(s) && u.hist == s.hist && forall n <- u.store :: n in s.store && u.store[n] == s.store[n]
    ensures AllCurrent(u)
  {
    forall m ensures Current(u, m) {
      assert Current(s, m);
    }
  }

  lemma NeverOverwrites(pool: IPNet, s: State, op: Op)
    requires PoolOk(pool) && Inv(pool, s) && AllCurrent(s)
    ensures !Overwrites(pool, s, op)
  {
    var n := op.name;
    assert Agreed(pool, s, n) && Holds(pool, s, n) && Current(s, n);
    var h, k := Hist(s, n), Seen(s, n);
    if h[k].Present? && Last(h).Present? && Last(h).version == h[k].version && n in s.store {
      CurrentIsLast(h, k, s.clock);
      StoredIsValid(pool, s, n);
    }
  }

  lemma StoredIsValid(pool: IPNet, s: State, n: Name)
    requires PoolOk(pool) && Holds(pool, s, n) && n in s.store
    ensures ValidCidrs(pool, s.store[n])
  {
    var j :| 0 <= j < NumBlocks(pool) && s.store[n][0].value == Block(pool, j);
    assert s.store[n] == [Some(Block(pool, j))];
    BlockValid(pool, j);
  }

  lemma DoCurrent(pool: IPNet, s: State, n: Name, start: nat, accepted: bool)
    requires PoolOk(pool) && Inv(pool, s) && AllCurrent(s) && StartOk(pool, start)
    requires Seen(s, n) < |Hist(s, n)| && Hist(s, n)[Seen(s, n)].Present?
    ensures AllCurrent(Do(pool, s, n, Hist(s, n)[Seen(s, n)], start, accepted))
  {
    var named := s.(edgeNames := s.edgeNames + {n});
    assert Agreed(pool, s, n);
    DoIs(pool, s, n, start, accepted);
    ShrinkCurrent(s, named);
    if Grants(pool, s, n, Hist(s, n)[Seen(s, n)], start, accepted) {
      GrantedCurrent(named, n, FreeBlock(pool, start, s.recorded));
    }
  }

  lemma StepCurrent(pool: IPNet, s: State, op: Op)
    requires PoolOk(pool) && Inv(pool, s) && Reconciled(s, op) && AllCurrent(s)
    ensures AllCurrent(Apply(pool, s, op))
  {
    var n, u := op.name, Apply(pool, s, op);
    assert Current(s, n);
    match op
    case Create(_, cidrs) => PushCurrent(s, n, Present(s.clock, cidrs));
    case Touch(_) =>
      var head := Last(Hist(s, n));
      if head.Present? { PushCurrent(s, n, head.(version := s.clock)); }
    case Delete(_) => PushCurrent(s, n, Absent);
    case Observe(_, _) => ShrinkCurrent(s, u);
    case Reconcile(_, start, accepted, undone) =>
      if u == s {
      } else if Hist(s, n)[Seen(s, n)].Present? {
        DoCurrent(pool, s, n, start, accepted);
      } else {
        ShrinkCurrent(s, u);
      }
  }

  ghost predicate AllReconciled(pool: IPNet, ops: seq<Op>)
    decreases |ops|
  {
    ops == [] ||
    (var init := ops[..|ops| - 1];
     AllReconciled(pool, init) && Reconciled(Run(pool, init), ops[|ops| - 1]))
  }

  /** If every deletion is reconciled before the name comes back, the recorded blocks are exactly the
      owned ones. */
  lemma {:induction false} RecordedAreOwned(pool: IPNet, ops: seq<Op>)
    requires PoolOk(pool) && AllReconciled(pool, ops)
    ensures Run(pool, ops).recorded == Owned(Run(pool, ops))
    ensures AllCurrent(Run(pool, ops))
    decreases |ops|
  {
    if ops != [] {
      var init := ops[..|ops| - 1];
      RecordedAreOwned(pool, init);
      RunInv(pool, init);
      StepCurrent(pool, Run(pool, init), ops[|ops| - 1]);
      NeverOverwrites(pool, Run(pool, init), ops[|ops| - 1]);
      StepOwnedIff(pool, Run(pool, init), ops[|ops| - 1]);
    }
  }

  // ---------- a name that comes back too soon ----------

  lemma RunNext(pool: IPNet, ops: seq<Op>, op: Op)
    ensures Run(pool, ops + [op]) == Apply(pool, Run(pool, ops), op)
  {}

  /** The operator sees the node as it is now, without an annotation, and remembers what it did. */
  ghost predicate Renewed(s: State, u: State, n: Name) {
    && u.store == s.store && u.recorded == s.recorded
    && Hist(u, n) != [] && Seen(u, n) == |Hist(u, n)| - 1
    && Last(Hist(u, n)).Present? && Last(Hist(u, n)).cidrs == []
  }

  lemma RecreationRenews(pool: IPNet, s: State, n: Name)
    requires Last(Hist(s, n)).Present? && Seen(s, n) < |Hist(s, n)|
    ensures Renewed(s, RecreatedState(pool, s, n), n)
  {
    assert !ValidCidrs(pool, []);
    var d := Apply(pool, s, Delete(n));
    assert Hist(d, n) == Hist(s, n) + [Absent];
    var c := Apply(pool, d, Create(n, []));
    assert Hist(c, n) == Hist(d, n) + [Present(d.clock, [])];
  }

  /** A node deleted and registered again, with the cache seeing only the second registration, is
      given another block while the first is still stored for it. */
  lemma RenewedOverwrites(pool: IPNet, s: State, u: State, n: Name, start: nat)
    requires Renewed(s, u, n) && n in s.store && StartOk(pool, start) && FreeBlock(pool, start, s.recorded).Some?
    ensures Overwrites(pool, u, Reconcile(n, start, true, true))
  {
    assert !ValidCidrs(pool, []);
  }

  // ---------- what is given back ----------

  lemma StepRemembers(pool: IPNet, s: State, op: Op, n: Name)
    requires n in s.store ==> n in s.edgeNames
    ensures n in Apply(pool, s, op).store ==> n in Apply(pool, s, op).edgeNames
  {
    if op.Reconcile? && Seen(s, op.name) < |Hist(s, op.name)| && StartOk(pool, op.start) {
      var view := Hist(s, op.name)[Seen(s, op.name)];
      if view.Present? {
        DoRemembers(pool, s, op.name, view, op.start, op.accepted, n);
      }
    }
  }

  lemma DoRemembers(pool: IPNet, s: State, m: Name, view: View, start: nat, accepted: bool, n: Name)
    requires view.Present? && StartOk(pool, start) && (n in s.store ==> n in s.edgeNames)
    ensures
      var u := Do(pool, s, m, view, start, accepted);
      n in u.store ==> n in u.edgeNames
  {}

  /** A block is stored only for nodes whose deletion the operator will reconcile. */
  lemma {:induction false} RemembersRun(pool: IPNet, ops: seq<Op>, n: Name)
    ensures n in Run(pool, ops).store ==> n in Run(pool, ops).edgeNames
    decreases |ops|
  {
    if ops != [] {
      RemembersRun(pool, ops[..|ops| - 1], n);
      StepRemembers(pool, Run(pool, ops[..|ops| - 1]), ops[|ops| - 1], n);
    }
  }

  /** A node is deleted, and its deletion is seen and reconciled. */
  ghost function Deleted(pool: IPNet, ops: seq<Op>, n: Name, start: nat): seq<Op> {
    ops + [Delete(n)] + [Observe(n, |Hist(Run(pool, ops), n)|)] + [Reconcile(n, start, true, true)]
  }

  lemma DeleteSeen(pool: IPNet, s: State, n: Name)
    requires Agreed(pool, s, n) && Last(Hist(s, n)).Present?
    ensures
      var u := Apply(pool, Apply(pool, s, Delete(n)), Observe(n, |Hist(s, n)|));
      && u.store == s.store && u.recorded == s.recorded && u.edgeNames == s.edgeNames
      && Seen(u, n) < |Hist(u, n)| && Hist(u, n)[Seen(u, n)].Absent?
      && forall m | m != n :: Hist(u, m) == Hist(s, m) && Seen(u, m) == Seen(s, m)
  {
    var d := Apply(pool, s, Delete(n));
    assert Hist(d, n) == Hist(s, n) + [Absent];
  }

  /** The node's block goes with it: it is not recorded any more, and everything else stays. */
  lemma DeletionReclaims(pool: IPNet, ops: seq<Op>, n: Name, start: nat)
    requires PoolOk(pool) && StartOk(pool, start)
    requires n in Run(pool, ops).store && Last(Hist(Run(pool, ops), n)).Present?
    ensures
      var s, u := Run(pool, ops), Run(pool, Deleted(pool, ops, n, start));
      && |s.store[n]| == 1 && s.store[n][0].Some? && s.store[n][0].value in s.recorded
      && n !in u.store && u.store == s.store - {n} && u.recorded == s.recorded - {s.store[n][0].value}
      && forall m | m != n :: Hist(u, m) == Hist(s, m) && Seen(u, m) == Seen(s, m)
  {
    var s := Run(pool, ops);
    RunInv(pool, ops);
    assert Agreed(pool, s, n) && Holds(pool, s, n);
    DeleteSeen(pool, s, n);
    DeletedRun(pool, ops, n, start);
    RemembersRun(pool, ops, n);
    var _ := StoredBlock(pool, ops, n);
    UndoOne(pool, Apply(pool, Apply(pool, s, Delete(n)), Observe(n, |Hist(s, n)|)), n, start);
  }

  lemma DeletedRun(pool: IPNet, ops: seq<Op>, n: Name, start: nat)
    ensures
      var s := Run(pool, ops);
      var seen := Apply(pool, Apply(pool, s, Delete(n)), Observe(n, |Hist(s, n)|));
      Run(pool, Deleted(pool, ops, n, start)) == Apply(pool, seen, Reconcile(n, start, true, true))
  {
    var upto := |Hist(Run(pool, ops), n)|;
    RunNext(pool, ops, Delete(n));
    RunNext(pool, ops + [Delete(n)], Observe(n, upto));
    RunNext(pool, ops + [Delete(n)] + [Observe(n, upto)], Reconcile(n, start, true, true));
  }

  lemma UndoOne(pool: IPNet, s: State, n: Name, start: nat)
    requires StartOk(pool, start) && Seen(s, n) < |Hist(s, n)| && Hist(s, n)[Seen(s, n)].Absent?
    requires n in s.edgeNames && n in s.store && |s.store[n]| == 1 && s.store[n][0].Some?
    requires UnmappedNet(s.store[n][0].value) == s.store[n][0].value
    ensures
      var u := Apply(pool, s, Reconcile(n, start, true, true));
      && u.store == s.store - {n} && u.recorded == s.recorded - {s.store[n][0].value}
      && u.hist == s.hist && u.seen == s.seen
  {
    OneNet(s.store[n]);
  }

  lemma OneNet(cidrs: Cidrs)
    requires |cidrs| == 1 && cidrs[0].Some? && UnmappedNet(cidrs[0].value) == cidrs[0].value
    ensures Nets(cidrs) == {cidrs[0].value}
  {}

  /** A node is registered without an annotation, seen and reconciled. */
  ghost function Registered(pool: IPNet, ops: seq<Op>, n: Name, start: nat): seq<Op> {
    ops + [Create(n, [])] + [Observe(n, |Hist(Run(pool, ops), n)|)] + [Reconcile(n, start, true, true)]
  }

  lemma CreateSeen(pool: IPNet, s: State, n: Name)
    requires Agreed(pool, s, n) && Last(Hist(s, n)).Absent?
    ensures
      var u := Apply(pool, Apply(pool, s, Create(n, [])), Observe(n, |Hist(s, n)|));
      && u.store == s.store && u.recorded == s.recorded
      && Seen(u, n) == |Hist(u, n)| - 1 && Last(Hist(u, n)) == Present(s.clock, [])
  {
    var c := Apply(pool, s, Create(n, []));
    assert !ValidCidrs(pool, []);
    assert Hist(c, n) == Hist(s, n) + [Present(s.clock, [])];
  }

  /** It is given the free block the generator comes to first. */
  lemma RegistrationGrants(pool: IPNet, ops: seq<Op>, n: Name, start: nat)
    requires PoolOk(pool) && StartOk(pool, start) && Last(Hist(Run(pool, ops), n)).Absent?
    requires FreeBlock(pool, start, Run(pool, ops).recorded).Some?
    ensures
      var s, u := Run(pool, ops), Run(pool, Registered(pool, ops, n, start));
      var block := FreeBlock(pool, start, s.recorded);
      && u.store == s.store[n := [block]] && u.recorded == s.recorded + {block.value}
      && Last(Hist(u, n)).Present? && Last(Hist(u, n)).cidrs == [block]
  {
    var s := Run(pool, ops);
    RunInv(pool, ops);
    assert Agreed(pool, s, n);
    CreateSeen(pool, s, n);
    RegisteredRun(pool, ops, n, start);
    GrantOne(pool, Apply(pool, Apply(pool, s, Create(n, [])), Observe(n, |Hist(s, n)|)), n, start);
  }

  lemma RegisteredRun(pool: IPNet, ops: seq<Op>, n: Name, start: nat)
    ensures
      var s := Run(pool, ops);
      var seen := Apply(pool, Apply(pool, s, Create(n, [])), Observe(n, |Hist(s, n)|));
      Run(pool, Registered(pool, ops, n, start)) == Apply(pool, seen, Reconcile(n, start, true, true))
  {
    var upto := |Hist(Run(pool, ops), n)|;
    RunNext(pool, ops, Create(n, []));
    RunNext(pool, ops + [Create(n, [])], Observe(n, upto));
    RunNext(pool, ops + [Create(n, [])] + [Observe(n, upto)], Reconcile(n, start, true, true));
  }

  lemma GrantOne(pool: IPNet, s: State, n: Name, start: nat)
    requires PoolOk(pool) && StartOk(pool, start) && FreeBlock(pool, start, s.recorded).Some?
    requires Hist(s, n) != [] && Seen(s, n) == |Hist(s, n)| - 1
    requires Last(Hist(s, n)).Present? && Last(Hist(s, n)).cidrs == []
    ensures
      var u := Apply(pool, s, Reconcile(n, start, true, true));
      var block := FreeBlock(pool, start, s.recorded);
      && u.store == s.store[n := [block]] && u.recorded == s.recorded + {block.value}
      && Last(Hist(u, n)).Present? && Last(Hist(u, n)).cidrs == [block]
  {
    assert !ValidCidrs(pool, []);
    FreshBlock(pool, start, s.recorded);
    DoGrants(pool, s, n, start);
  }

  lemma DoGrants(pool: IPNet, s: State, n: Name, start: nat)
    requires StartOk(pool, start) && Last(Hist(s, n)).Present? && Grants(pool, s, n, Last(Hist(s, n)), start, true)
    ensures
      var u, block := Do(pool, s, n, Last(Hist(s, n)), start, true), FreeBlock(pool, start, s.recorded).value;
      && u.store == s.store[n := [Saved(block)]] && u.recorded == s.recorded + {block}
      && Hist(u, n) == Hist(s, n) + [Present(s.clock, [Saved(block)])]
  {}

  /** A full pool, one of whose nodes is deleted, serves that node's block to the next one. */
  lemma BlockServesAgain(pool: IPNet, ops: seq<Op>, n: Name, m: Name, start: nat, next: nat)
    requires PoolOk(pool) && StartOk(pool, start) && StartOk(pool, next) && m != n
    requires
      var s := Run(pool, ops);
      && n in s.store && Last(Hist(s, n)).Present? && Last(Hist(s, m)).Absent?
      && forall j :: 0 <= j < NumBlocks(pool) ==> Block(pool, j) in s.recorded
    ensures
      var s, gone := Run(pool, ops), Deleted(pool, ops, n, start);
      var u := Run(pool, Registered(pool, gone, m, next));
      && FreeBlock(pool, next, s.recorded).None?
      && n !in u.store && m in u.store && u.store[m] == s.store[n] && u.recorded == s.recorded
  {
    var s, gone := Run(pool, ops), Deleted(pool, ops, n, start);
    var j := StoredBlock(pool, ops, n);
    DeletionReclaims(pool, ops, n, start);
    ReclaimReopens(pool, next, s.recorded, j);
    RegistrationGrants(pool, gone, m, next);
  }

  lemma StoredBlock(pool: IPNet, ops: seq<Op>, n: Name) returns (j: nat)
    requires PoolOk(pool) && n in Run(pool, ops).store
    ensures j < NumBlocks(pool) && Run(pool, ops).store[n] == [Some(Block(pool, j))]
    ensures UnmappedNet(Block(pool, j)) == Block(pool, j)
  {
    var s := Run(pool, ops);
    RunInv(pool, ops);
    assert Holds(pool, s, n);
    j :| 0 <= j < NumBlocks(pool) && s.store[n][0].value == Block(pool, j);
    BlockValue(pool, j);
  }

  // ---------- a node that comes back unseen ----------

  /** A run that goes on with the node deleted and registered again, and only that seen. */
  ghost function Recreated(pool: IPNet, ops: seq<Op>, n: Name): seq<Op> {
    ops + [Delete(n)] + [Create(n, [])] + [Observe(n, |Hist(Run(pool, ops), n)| + 1)]
  }

  ghost function RecreatedState(pool: IPNet, s: State, n: Name): State {
    Apply(pool, Apply(pool, Apply(pool, s, Delete(n)), Create(n, [])), Observe(n, |Hist(s, n)| + 1))
  }

  lemma RecreatedSteps(pool: IPNet, ops: seq<Op>, n: Name)
    ensures Run(pool, Recreated(pool, ops, n)) == RecreatedState(pool, Run(pool, ops), n)
  {
    RunNext(pool, ops, Delete(n));
    RunNext(pool, ops + [Delete(n)], Create(n, []));
    RunNext(pool, ops + [Delete(n)] + [Create(n, [])], Observe(n, |Hist(Run(pool, ops), n)| + 1));
  }

  lemma RecreatedRun(pool: IPNet, ops: seq<Op>, n: Name)
    requires PoolOk(pool) && Last(Hist(Run(pool, ops), n)).Present?
    ensures Renewed(Run(pool, ops), Run(pool, Recreated(pool, ops, n)), n)
  {
    SeenInside(pool, ops, n);
    RecreationRenews(pool, Run(pool, ops), n);
    RecreatedSteps(pool, ops, n);
  }

  /** So after any run that leaves such a node and a free block, that sequence loses a block: it is
      recorded, and no node owns it. */
  lemma RecreationLeaks(pool: IPNet, ops: seq<Op>, n: Name, start: nat)
    requires PoolOk(pool) && StartOk(pool, start)
    requires
      var s := Run(pool, ops);
      && n in s.store && Last(Hist(s, n)).Present? && s.recorded == Owned(s)
      && FreeBlock(pool, start, s.recorded).Some?
    ensures
      var u := Run(pool, Recreated(pool, ops, n) + [Reconcile(n, start, true, true)]);
      u.recorded != Owned(u)
  {
    RecreatedRun(pool, ops, n);
    RecreatedLeaks(pool, ops, Recreated(pool, ops, n), n, start);
  }

  lemma RecreatedLeaks(pool: IPNet, ops: seq<Op>, before: seq<Op>, n: Name, start: nat)
    requires PoolOk(pool) && StartOk(pool, start)
    requires
      var s := Run(pool, ops);
      && n in s.store && Last(Hist(s, n)).Present? && s.recorded == Owned(s)
      && FreeBlock(pool, start, s.recorded).Some? && Renewed(s, Run(pool, before), n)
    ensures
      var u := Run(pool, before + [Reconcile(n, start, true, true)]);
      u.recorded != Owned(u)
  {
    RenewedOverwrites(pool, Run(pool, ops), Run(pool, before), n, start);
    OverwritingLeaks(pool, before, Run(pool, ops), Reconcile(n, start, true, true));
  }

  lemma SeenInside(pool: IPNet, ops: seq<Op>, n: Name)
    requires PoolOk(pool)
    ensures Seen(Run(pool, ops), n) < |Hist(Run(pool, ops), n)|
  {
    RunInv(pool, ops);
    assert Agreed(pool, Run(pool, ops), n);
  }

  lemma OverwritingLeaks(pool: IPNet, ops: seq<Op>, s: State, op: Op)
    requires PoolOk(pool) && Overwrites(pool, Run(pool, ops), op)
    requires s.recorded == Owned(s) && Run(pool, ops).recorded == s.recorded && Run(pool, ops).store == s.store
    ensures Run(pool, ops + [op]).recorded != Owned(Run(pool, ops + [op]))
  {
    RunInv(pool, ops);
    SameOwned(s, Run(pool, ops));
    StepOwnedIff(pool, Run(pool, ops), op);
    RunNext(pool, ops, op);
  }

  lemma SameOwned(s: State, u: State)
    requires s.store == u.store
    ensures Owned(s) == Owned(u)
  {}

  /** A node is registered, seen and given its first block. */
  function FirstSteps(n: Name, start: nat): seq<Op> {
    [] + [Create(n, [])] + [Observe(n, 1)] + [Reconcile(n, start, true, true)]
  }

  lemma NextReconciled(pool: IPNet, ops: seq<Op>, op: Op)
    requires AllReconciled(pool, ops) && Reconciled(Run(pool, ops), op)
    ensures AllReconciled(pool, ops + [op])
  {
    assert (ops + [op])[..|ops|] == ops;
  }

  lemma FirstReconciled(pool: IPNet, n: Name, start: nat)
    ensures AllReconciled(pool, FirstSteps(n, start))
  {
    assert Run(pool, []) == EMPTY && AllReconciled(pool, []);
    NextReconciled(pool, [], Create(n, []));
    NextReconciled(pool, [] + [Create(n, [])], Observe(n, 1));
    NextReconciled(pool, [] + [Create(n, [])] + [Observe(n, 1)], Reconcile(n, start, true, true));
  }

  /** That run leaves a present node with a block, every recorded block owned, and, in a pool of at
      least two blocks, one that is free. */
  lemma FirstGrant(pool: IPNet, n: Name, start: nat)
    requires PoolOk(pool) && StartOk(pool, start) && NumBlocks(pool) >= 2
    ensures
      var s := Run(pool, FirstSteps(n, start));
      && n in s.store && Last(Hist(s, n)).Present? && s.recorded == Owned(s)
      && FreeBlock(pool, start, s.recorded).Some?
  {
    BlockCountIff(pool);
    ServeOne(pool, start, {});
    assert Run(pool, []) == EMPTY && FirstSteps(n, start) == Registered(pool, [], n, start);
    RegistrationGrants(pool, [], n, start);
    FirstReconciled(pool, n, start);
    RecordedAreOwned(pool, FirstSteps(n, start));
    ServeOne(pool, start, Run(pool, FirstSteps(n, start)).recorded);
  }

  /** So there is a run of seven steps that loses a block. */
  lemma BlockCanLeak(pool: IPNet, n: Name, start: nat)
    requires PoolOk(pool) && StartOk(pool, start) && NumBlocks(pool) >= 2
    ensures
      var u := Run(pool, Recreated(pool, FirstSteps(n, start), n) + [Reconcile(n, start, true, true)]);
      u.recorded != Owned(u)
  {
    FirstGrant(pool, n, start);
    RecreationLeaks(pool, FirstSteps(n, start), n, start);
  }
}
