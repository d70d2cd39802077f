/** The store of pod CIDRs per node, with the reverse index from a CIDR to its node. */
module PodCIDRStore {

  type Name = string
  type Cidr = string

  /** `nodeToPodCIDRs` and `podCIDRToNode`. */
  datatype State = State(lists: map<Name, seq<Cidr>>, owners: map<Cidr, Name>)

  const EMPTY := State(map[], map[])

  function ListOf(s: State, n: Name): seq<Cidr> {
    if n in s.lists then s.lists[n] else []
  }

  function OwnerOf(s: State, c: Cidr): Name {
    if c in s.owners then s.owners[c] else ""
  }

  /** The list without the first occurrence. */
  function Without(c: Cidr, l: seq<Cidr>): (r: seq<Cidr>)
    ensures NoDup(l) ==> NoDup(r) && forall x :: x in r <==> x in l && x != c
  {
    if l == [] then [] else
    assert l == [l[0]] + l[1..];
    if l[0] == c then l[1..]
    else
      var r := Without(c, l[1..]);
      assert forall x :: x in [l[0]] + r <==> x == l[0] || x in r;
      assert NoDup(l) ==> NoDup(l[1..]) && l[0] !in l[1..];
      [l[0]] + r
  }

  ghost predicate NoDup(l: seq<Cidr>) {
    forall i, j :: 0 <= i < j < |l| ==> l[i] != l[j]
  }

  datatype Op =
    | Append(node: Name, cidrs: seq<Cidr>)
    | Remove(node: Name, cidrs: seq<Cidr>)
    | RemoveByPodCIDR(cidr: Cidr)
    | RemoveAll(node: Name)

  // ---------- one CIDR at a time ----------

  function AppendOne(s: State, n: Name, c: Cidr): State {
    if c in ListOf(s, n) then s.(lists := s.lists[n := ListOf(s, n)])
    else State(s.lists[n := ListOf(s, n) + [c]], s.owners[c := n])
  }

  function RemoveOne(s: State, n: Name, c: Cidr): State {
    State(s.lists[n := Without(c, ListOf(s, n))], s.owners - {c})
  }

  function AppendSome(s: State, n: Name, cidrs: seq<Cidr>): State {
    if cidrs == [] then s.(lists := s.lists[n := ListOf(s, n)])
    else AppendOne(AppendSome(s, n, cidrs[..|cidrs| - 1]), n, cidrs[|cidrs| - 1])
  }

  function RemoveSome(s: State, n: Name, cidrs: seq<Cidr>): State {
    if cidrs == [] then s.(lists := s.lists[n := ListOf(s, n)])
    else RemoveOne(RemoveSome(s, n, cidrs[..|cidrs| - 1]), n, cidrs[|cidrs| - 1])
  }

  /** Drop the entry of a node whose list is empty. */
  function Trim(s: State, n: Name): State {
    if ListOf(s, n) == [] then s.(lists := s.lists - {n}) else s
  }

  function Apply(s: State, op: Op): State {
    match op
    case Append(n, cidrs) => AppendSome(s, n, cidrs)
    case Remove(n, cidrs) => Trim(RemoveSome(s, n, cidrs), n)
    case RemoveByPodCIDR(c) => RemoveOne(s, OwnerOf(s, c), c)
    case RemoveAll(n) => State(s.lists - {n}, s.owners - set c | c in ListOf(s, n))
  }

  // ---------- the index is sound in every run ----------

  /** A CIDR's node has it in its list, and no list has duplicates. */
  ghost predicate Sound(s: State) {
    && (forall c <- s.owners :: c in ListOf(s, s.owners[c]))
    && (forall n <- s.lists :: NoDup(s.lists[n]))
  }

  lemma AppendOneSound(s: State, n: Name, c: Cidr)
    requires Sound(s)
    ensures Sound(AppendOne(s, n, c))
  {}

  lemma RemoveOneSound(s: State, n: Name, c: Cidr)
    requires Sound(s)
    ensures Sound(RemoveOne(s, n, c))
  {}

  lemma {:induction false} AppendSomeSound(s: State, n: Name, cidrs: seq<Cidr>)
    requires Sound(s)
    ensures Sound(AppendSome(s, n, cidrs))
    decreases |cidrs|
  {
    if cidrs != [] {
      AppendSomeSound(s, n, cidrs[..|cidrs| - 1]);
      AppendOneSound(AppendSome(s, n, cidrs[..|cidrs| - 1]), n, cidrs[|cidrs| - 1]);
    }
  }

  lemma {:induction false} RemoveSomeSound(s: State, n: Name, cidrs: seq<Cidr>)
    requires Sound(s)
    ensures Sound(RemoveSome(s, n, cidrs))
    decreases |cidrs|
  {
    if cidrs != [] {
      RemoveSomeSound(s, n, cidrs[..|cidrs| - 1]);
      RemoveOneSound(RemoveSome(s, n, cidrs[..|cidrs| - 1]), n, cidrs[|cidrs| - 1]);
    }
  }

  function Run(ops: seq<Op>): State
    decreases |ops|
  {
    if ops == [] then EMPTY else Apply(Run(ops[..|ops| - 1]), ops[|ops| - 1])
  }

  lemma {:induction false} SoundRun(ops: seq<Op>)
    ensures Sound(Run(ops))
    decreases |ops|
  {
    if ops != [] {
      var s, op := Run(ops[..|ops| - 1]), ops[|ops| - 1];
      SoundRun(ops[..|ops| - 1]);
      match op
      case Append(n, cidrs) => AppendSomeSound(s, n, cidrs);
      case Remove(n, cidrs) => RemoveSomeSound(s, n, cidrs);
      case RemoveByPodCIDR(c) => RemoveOneSound(s, OwnerOf(s, c), c);
      case RemoveAll(n) =>
    }
  }

  // ---------- exact inverses ----------

  /** The two tables are inverses: a CIDR is in a node's list exactly when the index says so. */
  ghost predicate Exact(s: State) {
    && (forall n <- s.lists :: NoDup(s.lists[n]))
    && forall c, n :: c in ListOf(s, n) <==> c in s.owners && s.owners[c] == n
  }

  /** Appending keeps the tables inverse exactly when the CIDR is not another node's. */
  lemma AppendExactIff(s: State, n: Name, c: Cidr)
    requires Exact(s)
    ensures Exact(AppendOne(s, n, c)) <==> (c in s.owners ==> s.owners[c] == n)
  {
    var u := AppendOne(s, n, c);
    if c in s.owners && s.owners[c] != n {
      assert c in ListOf(s, s.owners[c]);
      assert c in ListOf(u, s.owners[c]) && u.owners[c] == n;
    } else {
      forall d, m ensures d in ListOf(u, m) <==> d in u.owners && u.owners[d] == m {
        assert d in ListOf(s, m) <==> d in s.owners && s.owners[d] == m;
        assert c in ListOf(s, n) <==> c in s.owners && s.owners[c] == n;
      }
    }
  }

  /** Removing keeps them inverse exactly when the CIDR is not another node's. */
  lemma RemoveExactIff(s: State, n: Name, c: Cidr)
    requires Exact(s)
    ensures Exact(RemoveOne(s, n, c)) <==> (c in s.owners ==> s.owners[c] == n)
  {
    var u := RemoveOne(s, n, c);
    if c in s.owners && s.owners[c] != n {
      assert c in ListOf(s, s.owners[c]);
      assert c in ListOf(u, s.owners[c]) && c !in u.owners;
    } else {
      forall d, m ensures d in ListOf(u, m) <==> d in u.owners && u.owners[d] == m {
        assert d in ListOf(s, m) <==> d in s.owners && s.owners[d] == m;
        assert c in ListOf(s, n) <==> c in s.owners && s.owners[c] == n;
      }
    }
  }

  /** Every CIDR an operation names is free or belongs to the node it names. */
  ghost predicate Owned(s: State, n: Name, cidrs: seq<Cidr>) {
    forall i :: 0 <= i < |cidrs| && cidrs[i] in s.owners ==> s.owners[cidrs[i]] == n
  }

  /** Entering an empty list for a node, or dropping one, changes nothing that can be looked up. */
  lemma TouchExact(s: State, n: Name)
    requires Exact(s)
    ensures Exact(s.(lists := s.lists[n := ListOf(s, n)]))
  {
    var u := s.(lists := s.lists[n := ListOf(s, n)]);
    forall d, m ensures d in ListOf(u, m) <==> d in u.owners && u.owners[d] == m {
      assert d in ListOf(s, m) <==> d in s.owners && s.owners[d] == m;
    }
  }

  lemma TrimExact(s: State, n: Name)
    requires Exact(s)
    ensures Exact(Trim(s, n))
  {
    var u := Trim(s, n);
    forall d, m ensures d in ListOf(u, m) <==> d in u.owners && u.owners[d] == m {
      assert d in ListOf(s, m) <==> d in s.owners && s.owners[d] == m;
    }
  }

  lemma {:induction false} AppendSomeExact(s: State, n: Name, cidrs: seq<Cidr>)
    requires Exact(s) && Owned(s, n, cidrs)
    ensures Exact(AppendSome(s, n, cidrs))
    ensures forall c :: c in s.owners ==> c in AppendSome(s, n, cidrs).owners
    ensures forall c <- AppendSome(s, n, cidrs).owners ::
      AppendSome(s, n, cidrs).owners[c] == if c in s.owners then s.owners[c] else n
    decreases |cidrs|
  {
    if cidrs == [] {
      TouchExact(s, n);
    } else {
      var init, c := cidrs[..|cidrs| - 1], cidrs[|cidrs| - 1];
      assert Owned(s, n, init) && cidrs[|cidrs| - 1] == c;
      AppendSomeExact(s, n, init);
      AppendExactIff(AppendSome(s, n, init), n, c);
    }
  }

  lemma {:induction false} RemoveSomeExact(s: State, n: Name, cidrs: seq<Cidr>)
    requires Exact(s) && Owned(s, n, cidrs)
    ensures Exact(RemoveSome(s, n, cidrs))
    ensures forall c <- RemoveSome(s, n, cidrs).owners ::
      c in s.owners && RemoveSome(s, n, cidrs).owners[c] == s.owners[c]
    decreases |cidrs|
  {
    if cidrs == [] {
      TouchExact(s, n);
    } else {
      var init, c := cidrs[..|cidrs| - 1], cidrs[|cidrs| - 1];
      assert Owned(s, n, init) && cidrs[|cidrs| - 1] == c;
      RemoveSomeExact(s, n, init);
      RemoveExactIff(RemoveSome(s, n, init), n, c);
    }
  }

  /** Appending enters every CIDR in the node's list and touches no other list. */
  lemma {:induction false} AppendSomeLists(s: State, n: Name, cidrs: seq<Cidr>, m: Name)
    ensures
      var u := AppendSome(s, n, cidrs);
      && (m != n ==> ListOf(u, m) == ListOf(s, m))
      && (forall c <- cidrs :: c in ListOf(u, n))
    decreases |cidrs|
  {
    if cidrs != [] {
      var init, last := cidrs[..|cidrs| - 1], cidrs[|cidrs| - 1];
      AppendSomeLists(s, n, init, m);
      assert cidrs == init + [last];
    }
  }

  /** Removing drops every CIDR from the index and touches no other list. */
  lemma {:induction false} RemoveSomeLists(s: State, n: Name, cidrs: seq<Cidr>, m: Name)
    ensures
      var u := RemoveSome(s, n, cidrs);
      && (m != n ==> ListOf(u, m) == ListOf(s, m))
      && (forall c <- cidrs :: c !in u.owners)
    decreases |cidrs|
  {
    if cidrs != [] {
      var init, last := cidrs[..|cidrs| - 1], cidrs[|cidrs| - 1];
      RemoveSomeLists(s, n, init, m);
      assert cidrs == init + [last];
    }
  }

  // ---------- what each operation does ----------

  lemma {:induction false} AppendMeans(s: State, n: Name, cidrs: seq<Cidr>, c: Cidr)
    ensures
      var u := AppendSome(s, n, cidrs);
      && (c in ListOf(u, n) <==> c in ListOf(s, n) || c in cidrs)
      && (if c in cidrs && c !in ListOf(s, n) then c in u.owners && u.owners[c] == n else SameOwner(s, u, c))
    decreases |cidrs|
  {
    if cidrs != [] {
      var init, last := cidrs[..|cidrs| - 1], cidrs[|cidrs| - 1];
      AppendMeans(s, n, init, c);
      assert cidrs == init + [last];
    }
  }

  lemma {:induction false} RemoveMeans(s: State, n: Name, cidrs: seq<Cidr>, c: Cidr)
    requires NoDup(ListOf(s, n))
    ensures
      var u := RemoveSome(s, n, cidrs);
      && NoDup(ListOf(u, n)) && (c in ListOf(u, n) <==> c in ListOf(s, n) && c !in cidrs)
      && (if c in cidrs then c !in u.owners else SameOwner(s, u, c))
    decreases |cidrs|
  {
    if cidrs != [] {
      var init, last := cidrs[..|cidrs| - 1], cidrs[|cidrs| - 1];
      RemoveMeans(s, n, init, c);
      assert cidrs == init + [last];
    }
  }

  predicate SameOwner(s: State, u: State, c: Cidr) {
    (c in s.owners <==> c in u.owners) && (c in s.owners ==> u.owners[c] == s.owners[c])
  }

  /** In every reachable state: which lists have a CIDR after an operation. */
  lemma StepLists(s: State, op: Op, m: Name, c: Cidr)
    requires Sound(s)
    ensures c in ListOf(Apply(s, op), m) <==>
      match op
      case Append(n, cidrs) => c in ListOf(s, m) || (m == n && c in cidrs)
      case Remove(n, cidrs) => c in ListOf(s, m) && !(m == n && c in cidrs)
      case RemoveByPodCIDR(d) => c in ListOf(s, m) && !(c == d && m == if d in s.owners then s.owners[d] else "")
      case RemoveAll(n) => c in ListOf(s, m) && m != n
  {
    match op
    case Append(n, cidrs) =>
      AppendMeans(s, n, cidrs, c);
      AppendSomeLists(s, n, cidrs, m);
    case Remove(n, cidrs) =>
      RemoveMeans(s, n, cidrs, c);
      RemoveSomeLists(s, n, cidrs, m);
    case RemoveByPodCIDR(d) =>
    case RemoveAll(n) =>
  }

  /** And which node the index names for it. */
  lemma StepOwner(s: State, op: Op, c: Cidr)
    requires Sound(s)
    ensures
      var u := Apply(s, op);
      match op
      case Append(n, cidrs) =>
        if c in cidrs && c !in ListOf(s, n) then c in u.owners && u.owners[c] == n else SameOwner(s, u, c)
      case Remove(n, cidrs) => if c in cidrs then c !in u.owners else SameOwner(s, u, c)
      case RemoveByPodCIDR(d) => if c == d then c !in u.owners else SameOwner(s, u, c)
      case RemoveAll(n) => if c in ListOf(s, n) then c !in u.owners else SameOwner(s, u, c)
  {
    match op
    case Append(n, cidrs) => AppendMeans(s, n, cidrs, c);
    case Remove(n, cidrs) => RemoveMeans(s, n, cidrs, c);
    case RemoveByPodCIDR(d) =>
    case RemoveAll(n) =>
  }

  /** The operation names only CIDRs that are free or its node's own. */
  ghost predicate KeepsExact(s: State, op: Op) {
    op.Append? || op.Remove? ==> Owned(s, op.node, op.cidrs)
  }

  /** From exact tables an operation, with all its CIDRs, leads to exact tables if and only if every
      CIDR it names is free or its node's own. */
  lemma StepExactIff(s: State, op: Op)
    requires Exact(s)
    ensures Exact(Apply(s, op)) <==> KeepsExact(s, op)
  {
    match op
    case Append(n, cidrs) =>
      if Owned(s, n, cidrs) {
        AppendSomeExact(s, n, cidrs);
      } else {
        AppendBreaks(s, n, cidrs);
      }
    case Remove(n, cidrs) =>
      if Owned(s, n, cidrs) {
        RemoveSomeExact(s, n, cidrs);
        TrimExact(RemoveSome(s, n, cidrs), n);
      } else {
        RemoveBreaks(s, n, cidrs);
      }
    case RemoveByPodCIDR(c) => RemoveExactIff(s, OwnerOf(s, c), c);
    case RemoveAll(n) => RemoveAllExact(s, n);
  }

  lemma ListedOwner(u: State, c: Cidr, n: Name)
    requires c in ListOf(u, n)
    ensures Exact(u) ==> OwnerOf(u, c) == n
  {}

  lemma InTwoLists(u: State, c: Cidr, n: Name, m: Name)
    requires n != m && c in ListOf(u, n) && c in ListOf(u, m)
    ensures !Exact(u)
  {
    ListedOwner(u, c, n);
    ListedOwner(u, c, m);
  }

  lemma Unindexed(u: State, c: Cidr, m: Name)
    requires c in ListOf(u, m) && c !in u.owners
    ensures !Exact(u)
  {}

  lemma {:induction false} AppendBreaks(s: State, n: Name, cidrs: seq<Cidr>)
    requires Exact(s) && !Owned(s, n, cidrs)
    ensures !Exact(AppendSome(s, n, cidrs))
  {
    var u := AppendSome(s, n, cidrs);
    var i :| 0 <= i < |cidrs| && cidrs[i] in s.owners && s.owners[cidrs[i]] != n;
    var c, m := cidrs[i], s.owners[cidrs[i]];
    AppendSomeLists(s, n, cidrs, m);
    assert c in ListOf(s, m) && c in cidrs;
    InTwoLists(u, c, n, m);
  }

  lemma {:induction false} RemoveBreaks(s: State, n: Name, cidrs: seq<Cidr>)
    requires Exact(s) && !Owned(s, n, cidrs)
    ensures !Exact(Trim(RemoveSome(s, n, cidrs), n))
  {
    var u := Trim(RemoveSome(s, n, cidrs), n);
    var i :| 0 <= i < |cidrs| && cidrs[i] in s.owners && s.owners[cidrs[i]] != n;
    var c, m := cidrs[i], s.owners[cidrs[i]];
    RemoveSomeLists(s, n, cidrs, m);
    assert c in ListOf(s, m) && c in cidrs;
    Unindexed(u, c, m);
  }

  ghost predicate AllOwned(ops: seq<Op>)
    decreases |ops|
  {
    ops == [] || (AllOwned(ops[..|ops| - 1]) && KeepsExact(Run(ops[..|ops| - 1]), ops[|ops| - 1]))
  }

  /** If every operation names only CIDRs that are free or its node's own, the tables stay inverses. */
  lemma {:induction false} ExactRun(ops: seq<Op>)
    requires AllOwned(ops)
    ensures Exact(Run(ops))
    decreases |ops|
  {
    if ops != [] {
      ExactRun(ops[..|ops| - 1]);
      StepExactIff(Run(ops[..|ops| - 1]), ops[|ops| - 1]);
    }
  }

  /** Two nodes that append one CIDR: both lists have it, the index names the later. */
  lemma AppendedTwice(n: Name, m: Name, c: Cidr)
    requires n != m
    ensures
      var s := Run([Append(n, [c]), Append(m, [c])]);
      c in ListOf(s, n) && c in ListOf(s, m) && OwnerOf(s, c) == m && !Exact(s)
  {
    var ops := [Append(n, [c]), Append(m, [c])];
    assert ops[..1] == [Append(n, [c])] && ops[..1][..0] == [] && [c][..0] == [];
    assert Run([]) == EMPTY;
    var t := Run(ops[..1]);
    assert t == AppendSome(EMPTY, n, [c]);
    assert AppendSome(EMPTY, n, [c]) == AppendOne(AppendSome(EMPTY, n, []), n, c);
    assert AppendSome(t, m, [c]) == AppendOne(AppendSome(t, m, []), m, c);
    assert Run(ops) == AppendSome(t, m, [c]);
  }

  lemma RemoveAllExact(s: State, n: Name)
    requires Exact(s)
    ensures Exact(Apply(s, RemoveAll(n)))
  {
    var u := Apply(s, RemoveAll(n));
    forall c, m ensures c in ListOf(u, m) <==> c in u.owners && u.owners[c] == m {
      assert c in ListOf(s, m) <==> c in s.owners && s.owners[c] == m;
      assert c in ListOf(s, n) <==> c in s.owners && s.owners[c] == n;
    }
  }

  // ---------- the store ----------

  class Store {
    var nodeToPodCIDRs: map<Name, seq<Cidr>>
    var podCIDRToNode: map<Cidr, Name>

    ghost function Current(): State
      reads this
    {
      State(nodeToPodCIDRs, podCIDRToNode)
    }

    constructor ()
      ensures Current() == EMPTY
    {
      nodeToPodCIDRs, podCIDRToNode := map[], map[];
    }

    method AppendCIDRs(n: Name, cidrs: seq<Cidr>)
      modifies this
      ensures Current() == Apply(old(Current()), Append(n, cidrs))
    {
      var list := if n in nodeToPodCIDRs then nodeToPodCIDRs[n] else [];
      for i := 0 to |cidrs|
        invariant nodeToPodCIDRs == old(nodeToPodCIDRs)
        invariant State(nodeToPodCIDRs[n := list], podCIDRToNode) == AppendSome(old(Current()), n, cidrs[..i])
      {
        assert cidrs[..i + 1][..i] == cidrs[..i];
        PutTwice(nodeToPodCIDRs, n, list, list);
        PutTwice(nodeToPodCIDRs, n, list, list + [cidrs[i]]);
        if cidrs[i] !in list {
          list := list + [cidrs[i]];
          podCIDRToNode := podCIDRToNode[cidrs[i] := n];
        }
      }
      assert cidrs[..|cidrs|] == cidrs;
      nodeToPodCIDRs := nodeToPodCIDRs[n := list];
    }

    method RemoveCIDRs(n: Name, cidrs: seq<Cidr>)
      modifies this
      ensures Current() == Apply(old(Current()), Remove(n, cidrs))
      ensures n in nodeToPodCIDRs ==> nodeToPodCIDRs[n] != []
    {
      var list := if n in nodeToPodCIDRs then nodeToPodCIDRs[n] else [];
      for i := 0 to |cidrs|
        invariant nodeToPodCIDRs == old(nodeToPodCIDRs)
        invariant State(nodeToPodCIDRs[n := list], podCIDRToNode) == RemoveSome(old(Current()), n, cidrs[..i])
      {
        assert cidrs[..i + 1][..i] == cidrs[..i];
        PutTwice(nodeToPodCIDRs, n, list, Without(cidrs[i], list));
        list := Without(cidrs[i], list);
        podCIDRToNode := podCIDRToNode - {cidrs[i]};
      }
      assert cidrs[..|cidrs|] == cidrs;
      assert nodeToPodCIDRs[n := list] - {n} == nodeToPodCIDRs - {n};
      if |list| > 0 {
        nodeToPodCIDRs := nodeToPodCIDRs[n := list];
      } else {
        nodeToPodCIDRs := nodeToPodCIDRs - {n};
      }
    }

    method RemoveByCIDR(c: Cidr)
      modifies this
      ensures Current() == Apply(old(Current()), RemoveByPodCIDR(c))
    {
      var n := if c in podCIDRToNode then podCIDRToNode[c] else "";
      var list := if n in nodeToPodCIDRs then nodeToPodCIDRs[n] else [];
      nodeToPodCIDRs := nodeToPodCIDRs[n := Without(c, list)];
      podCIDRToNode := podCIDRToNode - {c};
    }

    method RemoveNode(n: Name)
      modifies this
      ensures Current() == Apply(old(Current()), RemoveAll(n))
    {
      var list := if n in nodeToPodCIDRs then nodeToPodCIDRs[n] else [];
      for i := 0 to |list|
        invariant nodeToPodCIDRs == old(nodeToPodCIDRs)
        invariant podCIDRToNode == old(podCIDRToNode) - set c | c in list[..i]
      {
        assert list[..i + 1] == list[..i] + [list[i]];
        podCIDRToNode := podCIDRToNode - {list[i]};
      }
      assert list[..|list|] == list;
      nodeToPodCIDRs := nodeToPodCIDRs - {n};
    }
  }

  lemma PutTwice(m: map<Name, seq<Cidr>>, n: Name, a: seq<Cidr>, b: seq<Cidr>)
    ensures m[n := a][n := b] == m[n := b]
  {}
}
