/** What a member cluster's store holds after any run of fetches from the host, some failing, and of
    operations of the member's own controllers. */
module Mirror {
  import opened Prelude
  import opened Store
  import opened Strings
  import opened Peers
  import opened Replication

  /** A fetch, or an operation of a controller of the member: the agent and connector controllers save
      and delete its own endpoints, the community controller the communities defined in the member. */
  datatype MemberOp = Fetch(response: Option<Response>) | Local(op: Op)

  const NEW_MEMBER := Member(Store.EMPTY, {}, {})

  function ApplyMember(m: Member, op: MemberOp): Member {
    match op
    case Fetch(r) => Load(m, r)
    case Local(o) => m.(store := Apply(m.store, o))
  }

  function RunMember(ops: seq<MemberOp>): Member
    decreases |ops|
  {
    if ops == [] then NEW_MEMBER else ApplyMember(RunMember(ops[..|ops| - 1]), ops[|ops| - 1])
  }

  const NO_ANSWER := Response(map[], [])

  function NextAnswer(r: Response, op: MemberOp): Response {
    if op.Fetch? && op.response.Some? then op.response.value else r
  }

  function NextLocal(local: Contents, op: MemberOp): Contents {
    if op.Local? then Apply(local, op.op) else local
  }

  /** The last successful answer of the run; an empty one before the first. */
  function LastAnswer(ops: seq<MemberOp>): Response
    decreases |ops|
  {
    if ops == [] then NO_ANSWER else NextAnswer(LastAnswer(ops[..|ops| - 1]), ops[|ops| - 1])
  }

  /** What the store would hold without the fetches. */
  function LocalStore(ops: seq<MemberOp>): Contents
    decreases |ops|
  {
    if ops == [] then Store.EMPTY else NextLocal(LocalStore(ops[..|ops| - 1]), ops[|ops| - 1])
  }

  predicate OwnName(name: string, own: string) {
    HasPrefix(name, own + ".")
  }

  /** Answers hold no endpoint with the member's prefix and no empty community; the member's own
      controllers touch only the endpoints of its own nodes. */
  ghost predicate Proper(op: MemberOp, own: string) {
    match op
    case Fetch(None) => true
    case Fetch(Some(r)) => ProperAnswer(r, own)
    case Local(SaveEndpoint(ep)) => OwnName(ep.name, own)
    case Local(SaveEndpointAsLocal(ep)) => OwnName(ep.name, own)
    case Local(DeleteEndpoint(n)) => OwnName(n, own)
    case Local(_) => true
  }

  ghost predicate ProperAnswer(r: Response, own: string) {
    && (forall e <- r.endpoints :: !HasPrefix(e.name, own))
    && (forall k <- r.communities :: r.communities[k] != {})
  }

  ghost predicate AllProper(ops: seq<MemberOp>, own: string)
    decreases |ops|
  {
    ops == [] || (AllProper(ops[..|ops| - 1], own) && Proper(ops[|ops| - 1], own))
  }

  lemma OwnIsPrefixed(name: string, own: string)
    ensures OwnName(name, own) ==> HasPrefix(name, own)
  {
    if OwnName(name, own) {
      assert name[..|own|] == (own + ".")[..|own|] == own;
    }
  }

  // ---------- endpoints ----------

  function Foreign(endpoints: map<string, Endpoint>, own: string): map<string, Endpoint> {
    endpoints - set n | n in endpoints && OwnName(n, own)
  }

  function Own(endpoints: map<string, Endpoint>, own: string): map<string, Endpoint> {
    endpoints - set n | n in endpoints && !HasPrefix(n, own)
  }

  /** Saving a list adds its names and, for those, no longer depends on what was there. */
  lemma {:induction false} SaveAllIs(endpoints: map<string, Endpoint>, eps: seq<Endpoint>)
    ensures SaveAll(map[], eps).Keys == NamesIn(eps)
    ensures SaveAll(endpoints, eps) == endpoints + SaveAll(map[], eps)
    decreases |eps|
  {
    if eps != [] {
      var init, last := eps[..|eps| - 1], eps[|eps| - 1];
      assert eps == init + [last];
      SaveAllIs(endpoints, init);
      NamesInAppend(init, last);
      assert (endpoints + SaveAll(map[], init))[last.name := last] ==
        endpoints + SaveAll(map[], init)[last.name := last];
    } else {
      assert endpoints + map[] == endpoints;
    }
  }

  lemma NamesInAppend(eps: seq<Endpoint>, last: Endpoint)
    ensures NamesIn(eps + [last]) == NamesIn(eps) + {last.name}
  {}

  /** What is saved under a name is one of the list, with that name. */
  lemma {:induction false} SavedFrom(eps: seq<Endpoint>, n: string)
    requires n in SaveAll(map[], eps)
    ensures SaveAll(map[], eps)[n] in eps && SaveAll(map[], eps)[n].name == n
    decreases |eps|
  {
    var init, last := eps[..|eps| - 1], eps[|eps| - 1];
    assert eps == init + [last];
    if n != last.name {
      SavedFrom(init, n);
    }
  }

  /** The member mirrors the endpoints of an answer, and remembers its names. */
  ghost predicate Mirrors(m: Member, r: Response, own: string) {
    && m.endpointSet == NamesIn(r.endpoints)
    && m.communitySet == r.communities.Keys
    && Foreign(m.store.endpoints, own) == SaveAll(map[], r.endpoints)
    && (forall n <- m.store.localNames :: OwnName(n, own))
    && ProperAnswer(r, own)
  }

  lemma LoadForeign(have: map<string, Endpoint>, before: set<string>, saved: map<string, Endpoint>, own: string)
    requires Foreign(have, own).Keys == before && forall n <- saved.Keys + before :: !HasPrefix(n, own)
    ensures Foreign(have + saved - (before - saved.Keys), own) == saved
    ensures Own(have + saved - (before - saved.Keys), own) == Own(have, own)
  {
    forall n: string {
      OwnIsPrefixed(n, own);
    }
  }

  lemma LoadMirrors(m: Member, before: Response, r: Response, own: string)
    requires Mirrors(m, before, own) && ProperAnswer(r, own)
    ensures Mirrors(Load(m, Some(r)), r, own)
    ensures Own(Load(m, Some(r)).store.endpoints, own) == Own(m.store.endpoints, own)
  {
    SaveAllIs(m.store.endpoints, r.endpoints);
    SaveAllIs(map[], before.endpoints);
    LoadForeign(m.store.endpoints, m.endpointSet, SaveAll(map[], r.endpoints), own);
  }

  lemma LocalMirrors(m: Member, r: Response, op: Op, own: string)
    requires Mirrors(m, r, own) && Proper(Local(op), own)
    ensures Mirrors(ApplyMember(m, Local(op)), r, own)
  {
    var u := ApplyMember(m, Local(op));
    assert Foreign(u.store.endpoints, own) == Foreign(m.store.endpoints, own);
  }

  /** After any run of fetches, some failing, and local operations: the endpoints the member has from
      other clusters are exactly those of the last successful answer. */
  lemma {:induction false} MemberMirrorsHost(ops: seq<MemberOp>, own: string)
    requires AllProper(ops, own)
    ensures Mirrors(RunMember(ops), LastAnswer(ops), own)
    decreases |ops|
  {
    if ops != [] {
      var init, op := ops[..|ops| - 1], ops[|ops| - 1];
      MemberMirrorsHost(init, own);
      match op
      case Fetch(None) =>
      case Fetch(Some(r)) => LoadMirrors(RunMember(init), LastAnswer(init), r, own);
      case Local(o) => LocalMirrors(RunMember(init), LastAnswer(init), o, own);
    } else {
      assert NamesIn([]) == {};
    }
  }

  lemma LocalKeepsOwn(m: Contents, n: Contents, op: Op, own: string)
    requires Own(m.endpoints, own) == Own(n.endpoints, own) && Proper(Local(op), own)
    ensures Own(Apply(m, op).endpoints, own) == Own(Apply(n, op).endpoints, own)
  {
    match op
    case SaveCommunity(_) =>
    case DeleteCommunity(_) =>
    case DeleteEndpoint(k) => CutOwn(m.endpoints, k, own); CutOwn(n.endpoints, k, own);
    case SaveEndpoint(ep) => PutOwn(m.endpoints, ep, own); PutOwn(n.endpoints, ep, own);
    case SaveEndpointAsLocal(ep) => PutOwn(m.endpoints, ep, own); PutOwn(n.endpoints, ep, own);
  }

  lemma PutOwn(endpoints: map<string, Endpoint>, ep: Endpoint, own: string)
    requires OwnName(ep.name, own)
    ensures Own(endpoints[ep.name := ep], own) == Own(endpoints, own)[ep.name := ep]
  {
    OwnIsPrefixed(ep.name, own);
  }

  lemma CutOwn(endpoints: map<string, Endpoint>, n: string, own: string)
    ensures Own(endpoints - {n}, own) == Own(endpoints, own) - {n}
  {}

  /** Fetches never overwrite or delete an endpoint named with the member's own prefix: those are
      what the run without its fetches would leave. */
  lemma {:induction false} FetchesLeaveOwnAlone(ops: seq<MemberOp>, own: string)
    requires AllProper(ops, own)
    ensures Own(RunMember(ops).store.endpoints, own) == Own(LocalStore(ops).endpoints, own)
    decreases |ops|
  {
    if ops != [] {
      var init, op := ops[..|ops| - 1], ops[|ops| - 1];
      FetchesLeaveOwnAlone(init, own);
      MemberMirrorsHost(init, own);
      match op
      case Fetch(None) =>
      case Fetch(Some(r)) => LoadMirrors(RunMember(init), LastAnswer(init), r, own);
      case Local(o) => LocalKeepsOwn(RunMember(init).store, LocalStore(init), o, own);
    }
  }

  // ---------- communities ----------

  /** The member has the communities of its own and those of the answer; of two with one name it has
      the answered one. */
  ghost predicate Merged(m: Contents, local: Contents, r: Response) {
    m.communities == local.communities + r.communities
  }

  /** The member's community controller and the routine do not get in each other's way. */
  ghost predicate KeepsMerged(local: Contents, r: Response, op: MemberOp) {
    match op
    case Fetch(Some(next)) => local.communities.Keys !! (r.communities.Keys - next.communities.Keys)
    case Local(SaveCommunity(cm)) => cm.name in r.communities ==> cm.members == r.communities[cm.name]
    case Local(DeleteCommunity(k)) => k !in r.communities
    case _ => true
  }

  lemma FetchMerged(m: Member, local: Contents, r: Response, next: Response, own: string)
    requires Merged(m.store, local, r) && m.communitySet == r.communities.Keys && ProperAnswer(next, own)
    ensures Merged(Load(m, Some(next)).store, local, next) <==> KeepsMerged(local, r, Fetch(Some(next)))
  {
    var u := Load(m, Some(next)).store.communities;
    var lost := local.communities.Keys * (r.communities.Keys - next.communities.Keys);
    assert forall k :: k in u <==> k in next.communities || (k in local.communities && k !in lost);
    assert lost == {} ==> u == local.communities + next.communities;
  }

  lemma LocalMerged(m: Contents, local: Contents, r: Response, op: Op, own: string)
    requires Merged(m, local, r) && ProperAnswer(r, own)
    ensures Merged(Apply(m, op), Apply(local, op), r) <==> KeepsMerged(local, r, Local(op))
  {
    match op
    case SaveCommunity(cm) =>
      var u, l := Apply(m, op).communities, Apply(local, op).communities;
      assert cm.name !in r.communities ==> Get(m.communities, cm.name) == Get(local.communities, cm.name);
      if cm.name in r.communities && cm.members != r.communities[cm.name] {
        assert u[cm.name] == cm.members && (l + r.communities)[cm.name] == r.communities[cm.name];
      } else {
        assert u == l + r.communities;
      }
    case DeleteCommunity(k) =>
      assert k !in r.communities ==> m.communities - {k} == local.communities - {k} + r.communities;
    case _ =>
  }

  /** A step keeps the two sets of communities merged if and only if `KeepsMerged`: no fetch drops a
      community that the member defines too, and the member changes no answered one. */
  lemma StepMergedIff(m: Member, local: Contents, r: Response, op: MemberOp, own: string)
    requires Merged(m.store, local, r) && m.communitySet == r.communities.Keys
    requires ProperAnswer(r, own) && Proper(op, own)
    ensures Merged(ApplyMember(m, op).store, NextLocal(local, op), NextAnswer(r, op)) <==> KeepsMerged(local, r, op)
  {
    match op
    case Fetch(None) =>
    case Fetch(Some(next)) => FetchMerged(m, local, r, next, own);
    case Local(o) => LocalMerged(m.store, local, r, o, own);
  }

  ghost predicate AllKeepMerged(ops: seq<MemberOp>)
    decreases |ops|
  {
    ops == [] ||
    (var init := ops[..|ops| - 1];
     AllKeepMerged(init) && KeepsMerged(LocalStore(init), LastAnswer(init), ops[|ops| - 1]))
  }

  lemma {:induction false} MergedRun(ops: seq<MemberOp>, own: string)
    requires AllProper(ops, own) && AllKeepMerged(ops)
    ensures Merged(RunMember(ops).store, LocalStore(ops), LastAnswer(ops))
    decreases |ops|
  {
    if ops != [] {
      var init := ops[..|ops| - 1];
      MergedRun(init, own);
      MemberMirrorsHost(init, own);
      StepMergedIff(RunMember(init), LocalStore(init), LastAnswer(init), ops[|ops| - 1], own);
    }
  }

  /** Right after a fetch the answered communities are there whatever happened before. */
  lemma FetchContributes(m: Member, r: Response, own: string, k: string)
    requires ProperAnswer(r, own) && k in r.communities
    ensures
      var u := Load(m, Some(r)).store.communities;
      k in u && u[k] == r.communities[k]
  {}

  /** The names of communities that the member's own controller saves or deletes in the run. */
  function LocalNames(ops: seq<MemberOp>): set<string>
    decreases |ops|
  {
    if ops == [] then {} else
    LocalNames(ops[..|ops| - 1]) +
    (match ops[|ops| - 1]
     case Local(SaveCommunity(cm)) => {cm.name}
     case Local(DeleteCommunity(k)) => {k}
     case _ => {})
  }

  /** The names of all communities answered in the run. */
  function AnsweredNames(ops: seq<MemberOp>): set<string>
    decreases |ops|
  {
    if ops == [] then {} else
    AnsweredNames(ops[..|ops| - 1]) + NextAnswer(NO_ANSWER, ops[|ops| - 1]).communities.Keys
  }

  lemma {:induction false} NamesBound(ops: seq<MemberOp>)
    ensures LocalStore(ops).communities.Keys <= LocalNames(ops)
    ensures LastAnswer(ops).communities.Keys <= AnsweredNames(ops)
    decreases |ops|
  {
    if ops != [] {
      NamesBound(ops[..|ops| - 1]);
    }
  }

  /** If the member defines no community under a name that is ever answered, the member has its own
      communities and those of the last answer, after every run. */
  lemma {:induction false} ApartRun(ops: seq<MemberOp>, own: string)
    requires AllProper(ops, own) && LocalNames(ops) !! AnsweredNames(ops)
    ensures AllKeepMerged(ops)
    ensures Merged(RunMember(ops).store, LocalStore(ops), LastAnswer(ops))
    decreases |ops|
  {
    if ops != [] {
      ApartRun(ops[..|ops| - 1], own);
      NamesBound(ops[..|ops| - 1]);
    }
    MergedRun(ops, own);
  }

  lemma Then(ops: seq<MemberOp>, op: MemberOp, own: string)
    ensures RunMember(ops + [op]) == ApplyMember(RunMember(ops), op)
    ensures LocalStore(ops + [op]) == NextLocal(LocalStore(ops), op)
    ensures AllProper(ops + [op], own) <==> AllProper(ops, own) && Proper(op, own)
  {
    assert (ops + [op])[..|ops|] == ops;
  }

  /** What a host with one community, or with none left, answers. */
  lemma HostAnswers(k: string, theirs: set<string>, name: string, cluster: string)
    requires name in theirs
    ensures AnswerOf(OneCommunity(k, theirs), cluster, [name]) == Response(map[k := theirs], [])
    ensures AnswerOf(NoCommunity(k, theirs), cluster, [name]) == NO_ANSWER
  {
    var saved := [SaveCommunity(Community(k, theirs))];
    assert saved[..0] == [] && (saved + [DeleteCommunity(k)])[..1] == saved;
    assert Run(EMPTY, saved[..0]) == EMPTY;
    var host := OneCommunity(k, theirs);
    assert host == EMPTY.(communities := map[k := theirs]) && NoCommunity(k, theirs) == EMPTY;
    assert name in host.communities[k];
    assert Involved(host, [name]) == {k} && Involved(EMPTY, [name]) == {};
    NothingStored(host, cluster, [name]);
    NothingStored(EMPTY, cluster, [name]);
  }

  lemma NothingStored(host: Contents, cluster: string, exported: seq<string>)
    requires host.endpoints == map[]
    ensures AnswerOf(host, cluster, exported).endpoints == []
  {
    PickNothing(Listing(ForeignMembers(host, cluster, Involved(host, exported))));
  }

  lemma {:induction false} PickNothing(names: seq<string>)
    ensures Pick(map[], names) == []
    decreases |names|
  {
    if names != [] {
      PickNothing(names[..|names| - 1]);
    }
  }

  function OneCommunity(k: string, theirs: set<string>): Contents {
    Run(EMPTY, [SaveCommunity(Community(k, theirs))])
  }

  function NoCommunity(k: string, theirs: set<string>): Contents {
    Run(EMPTY, [SaveCommunity(Community(k, theirs))] + [DeleteCommunity(k)])
  }

  /** The member defines a community and fetches one of the same name. */
  ghost function Shared(k: string, mine: set<string>, theirs: set<string>, name: string, cluster: string)
    : seq<MemberOp>
  {
    [] + [Local(SaveCommunity(Community(k, mine)))] + [Fetch(Some(AnswerOf(OneCommunity(k, theirs), cluster, [name])))]
  }

  lemma SharedRun(k: string, mine: set<string>, theirs: set<string>, name: string, cluster: string)
    requires mine != {} && name in theirs
    ensures
      var ops := Shared(k, mine, theirs, name, cluster);
      && AllProper(ops, cluster) && LocalStore(ops).communities == map[k := mine]
      && RunMember(ops).store.communities == map[k := theirs] && RunMember(ops).communitySet == {k}
  {
    var saved := [] + [Local(SaveCommunity(Community(k, mine)))];
    HostAnswers(k, theirs, name, cluster);
    assert RunMember([]) == NEW_MEMBER && LocalStore([]) == Store.EMPTY && AllProper([], cluster);
    Then([], Local(SaveCommunity(Community(k, mine))), cluster);
    Then(saved, Fetch(Some(Response(map[k := theirs], []))), cluster);
  }

  /** A community that both define: the answer overrides the member's, and when the host deletes its
      own, the member's is deleted although it still exists. */
  lemma SharedNameIsLost(k: string, mine: set<string>, theirs: set<string>, name: string, cluster: string)
    requires mine != {} && name in theirs
    ensures
      var fetched := Shared(k, mine, theirs, name, cluster);
      var dropped := fetched + [Fetch(Some(AnswerOf(NoCommunity(k, theirs), cluster, [name])))];
      && AllProper(dropped, cluster) && RunMember(fetched).store.communities == map[k := theirs]
      && RunMember(dropped).store.communities == map[] && LocalStore(dropped).communities == map[k := mine]
  {
    HostAnswers(k, theirs, name, cluster);
    SharedRun(k, mine, theirs, name, cluster);
    Then(Shared(k, mine, theirs, name, cluster), Fetch(Some(NO_ANSWER)), cluster);
  }

  /** And when the member deletes its own, the answered one is gone until the next fetch. */
  lemma SharedNameIsDeleted(k: string, mine: set<string>, theirs: set<string>, name: string, cluster: string)
    requires mine != {} && name in theirs
    ensures
      var deleted := Shared(k, mine, theirs, name, cluster) + [Local(DeleteCommunity(k))];
      && AllProper(deleted, cluster) && RunMember(deleted).store.communities == map[]
      && LastAnswer(deleted).communities == map[k := theirs]
  {
    HostAnswers(k, theirs, name, cluster);
    SharedRun(k, mine, theirs, name, cluster);
    var fetched := Shared(k, mine, theirs, name, cluster);
    Then(fetched, Local(DeleteCommunity(k)), cluster);
    assert (fetched + [Local(DeleteCommunity(k))])[..|fetched|] == fetched;
    assert fetched[|fetched| - 1] == Fetch(Some(Response(map[k := theirs], [])));
  }

  // ---------- the connector's peers ----------

  /** The host's filter lets no endpoint with the cluster's prefix through, and every community it
      answers with has a member. */
  lemma AnswersAreProper(host: Contents, cluster: string, exported: seq<string>)
    requires Tidy(host)
    ensures ProperAnswer(AnswerOf(host, cluster, exported), cluster)
  {
    var foreign := ForeignMembers(host, cluster, Involved(host, exported));
    PickLists(host, Listing(foreign), foreign);
  }

  /** The host answers with exactly the communities an exported endpoint is in, with their members. */
  lemma AnswerCommunities(host: Contents, cluster: string, exported: seq<string>, k: string)
    ensures
      var r := AnswerOf(host, cluster, exported).communities;
      && (k in r <==> k in host.communities && exists e <- exported :: e in host.communities[k])
      && (k in r ==> r[k] == host.communities[k])
  {
    assert k in Involved(host, exported) <==> k in host.communities && exists e <- exported :: e in host.communities[k];
  }

  /** A community of the member's own, not overridden by the answer, puts the two names together. */
  ghost predicate LocalTie(local: Contents, r: Response, a: string, b: string) {
    exists k <- local.communities :: k !in r.communities && a in local.communities[k] && b in local.communities[k]
  }

  /** The neighbours of an exported endpoint on the member are those on the host and those the member's
      own communities add. */
  lemma MemberNeighbours(m: Contents, local: Contents, host: Contents, cluster: string, exported: seq<string>,
                         name: string, x: string)
    requires Merged(m, local, AnswerOf(host, cluster, exported)) && name in exported
    ensures x in Neighbours(m, name) <==>
      x in Neighbours(host, name) || LocalTie(local, AnswerOf(host, cluster, exported), name, x)
  {
    var r := AnswerOf(host, cluster, exported);
    if x in Neighbours(host, name) {
      var k :| k in host.communities && name in host.communities[k] && x in host.communities[k];
      assert k in Involved(host, exported);
      assert k in m.communities && m.communities[k] == host.communities[k];
    }
    if LocalTie(local, r, name, x) {
      var k :| k in local.communities && k !in r.communities
        && name in local.communities[k] && x in local.communities[k];
      assert k in m.communities && m.communities[k] == local.communities[k];
    }
  }

  /** The endpoint can be told to the peer list of `name`: they share a community and it is stored. */
  predicate Reaches(c: Contents, name: string, x: string) {
    x in Neighbours(c, name) && x in c.endpoints
  }

  /** The host can tell the cluster about the endpoint: it reaches one that the cluster exports. */
  ghost predicate Offered(host: Contents, exported: seq<string>, x: string) {
    exists e <- exported :: Reaches(host, e, x)
  }

  lemma ForeignIsOffered(host: Contents, cluster: string, exported: seq<string>, x: string)
    ensures
      x in ForeignMembers(host, cluster, Involved(host, exported)) && x in host.endpoints <==>
      Offered(host, exported, x) && !HasPrefix(x, cluster)
  {
    if x in ForeignMembers(host, cluster, Involved(host, exported)) && x in host.endpoints {
      var k :| k in Involved(host, exported) && x in host.communities[k];
      var e :| e in exported && e in host.communities[k];
      assert Reaches(host, e, x);
    }
    if Offered(host, exported, x) {
      var e :| e in exported && Reaches(host, e, x);
      var k :| k in host.communities && e in host.communities[k] && x in host.communities[k];
      assert k in Involved(host, exported);
    }
  }

  /** An answer carries exactly the stored neighbours of the exported endpoints without the cluster's
      prefix, with the endpoints the host has. */
  lemma AnswerCarries(host: Contents, cluster: string, exported: seq<string>, x: string)
    requires Tidy(host)
    ensures
      var saved := SaveAll(map[], AnswerOf(host, cluster, exported).endpoints);
      && (x in saved <==> Offered(host, exported, x) && !HasPrefix(x, cluster))
      && (x in saved ==> x in host.endpoints && saved[x] == host.endpoints[x])
  {
    var r := AnswerOf(host, cluster, exported);
    var foreign := ForeignMembers(host, cluster, Involved(host, exported));
    ForeignIsOffered(host, cluster, exported, x);
    ListsPicked(host, foreign, x);
    PickLists(host, Listing(foreign), foreign);
    SaveAllIs(map[], r.endpoints);
    assert x in NamesIn(r.endpoints) <==> Names(r.endpoints, x);
    if x in SaveAll(map[], r.endpoints) {
      SavedFrom(r.endpoints, x);
    }
  }

  /** Whatever happened before and since: an endpoint of another cluster reaches the member's exported
      endpoint exactly when the host offers it, it is not taken for one of the member's own, and the
      host's communities or the member's tie the two; and then with the host's addresses and subnets. */
  lemma SamePeers(ops: seq<MemberOp>, host: Contents, cluster: string, exported: seq<string>, name: string, x: string)
    requires AllProper(ops, cluster) && AllKeepMerged(ops) && Tidy(host)
    requires LastAnswer(ops) == AnswerOf(host, cluster, exported)
    requires name in exported && !OwnName(x, cluster)
    ensures
      var m := RunMember(ops).store;
      && (Reaches(m, name, x) <==>
            && Offered(host, exported, x) && !HasPrefix(x, cluster)
            && (x in Neighbours(host, name) || LocalTie(LocalStore(ops), LastAnswer(ops), name, x)))
      && (Reaches(m, name, x) ==> x in host.endpoints && m.endpoints[x] == host.endpoints[x])
  {
    var m := RunMember(ops).store;
    MemberMirrorsHost(ops, cluster);
    MergedRun(ops, cluster);
    MemberNeighbours(m, LocalStore(ops), host, cluster, exported, name, x);
    AnswerCarries(host, cluster, exported, x);
    assert x in m.endpoints <==> x in Foreign(m.endpoints, cluster);
  }

  /** Exactly when an endpoint of cluster `other` is taken for one of cluster `own`: never, if neither
      cluster name is a prefix of the other. */
  predicate PrefixClash(own: string, other: string, node: string) {
    own <= other || (other + "." <= own && own[|other| + 1..] <= node)
  }

  lemma PrefixClashIff(own: string, other: string, node: string)
    ensures HasPrefix(other + "." + node, own) <==> PrefixClash(own, other, node)
    ensures HasPrefix(own + "." + node, own)
  {}

  /** The connector's peers, by cluster: if the member's own communities do not tie the two, node `node`
      of cluster `other` is among the peers the member gives its connector if and only if the host's
      communities put it there and the names do not clash. */
  lemma PeersByCluster(ops: seq<MemberOp>, host: Contents, cluster: string, exported: seq<string>, name: string,
                       other: string, node: string)
    requires AllProper(ops, cluster) && AllKeepMerged(ops) && Tidy(host)
    requires LastAnswer(ops) == AnswerOf(host, cluster, exported)
    requires name in exported && OwnName(name, cluster) && !OwnName(other + "." + node, cluster)
    ensures
      var x := other + "." + node;
      var listed := Names(ConnectorPeers(RunMember(ops).store, name), x);
      && (PrefixClash(cluster, other, node) ==> !listed)
      && (!LocalTie(LocalStore(ops), LastAnswer(ops), name, x) ==>
            (listed <==> Reaches(host, name, x) && !PrefixClash(cluster, other, node)))
  {
    var m, x := RunMember(ops).store, other + "." + node;
    SamePeers(ops, host, cluster, exported, name, x);
    PrefixClashIff(cluster, other, node);
    MemberMirrorsHost(ops, cluster);
    TidyMember(ops);
    ListsPicked(m, m.localNames + Neighbours(m, name) - {name}, x);
  }

  lemma {:induction false} TidyMember(ops: seq<MemberOp>)
    ensures Tidy(RunMember(ops).store)
    decreases |ops|
  {
    if ops != [] {
      var init, op := ops[..|ops| - 1], ops[|ops| - 1];
      TidyMember(init);
      if op.Fetch? && op.response.Some? {
        LoadTidy(RunMember(init), op.response.value);
      }
    }
  }

  lemma LoadTidy(m: Member, r: Response)
    requires Tidy(m.store)
    ensures Tidy(Load(m, Some(r)).store)
  {
    SaveAllIs(m.store.endpoints, r.endpoints);
    forall n | n in SaveAll(map[], r.endpoints)
      ensures SaveAll(map[], r.endpoints)[n].name == n
    {
      SavedFrom(r.endpoints, n);
    }
  }

  /** Member "fab" never hears of the connector of cluster "fab2", although the host's community puts
      the two connectors together. */
  lemma ClusterNamesClash(cluster: string, ep: Endpoint)
    requires ep.name == cluster + "2" + "." + "connector"
    ensures
      var name := cluster + "." + "connector";
      var host := Run(EMPTY, [SaveEndpoint(ep), SaveCommunity(Community("connectors", {name, ep.name}))]);
      var ops := [] + [Fetch(Some(AnswerOf(host, cluster, [name])))];
      && AllProper(ops, cluster) && Reaches(host, name, ep.name)
      && ep.name !in RunMember(ops).store.endpoints
  {
    var name := cluster + "." + "connector";
    var setup := [SaveEndpoint(ep), SaveCommunity(Community("connectors", {name, ep.name}))];
    assert setup[..1] == [SaveEndpoint(ep)] && setup[..1][..0] == [];
    var host := Run(EMPTY, setup);
    assert Run(EMPTY, setup[..1]) == Contents({}, map[ep.name := ep], map[]) by {
      assert Run(EMPTY, setup[..1][..0]) == EMPTY;
    }
    assert ep.name in {name, ep.name};
    assert host == Contents({}, map[ep.name := ep], map["connectors" := {name, ep.name}]);
    var r := AnswerOf(host, cluster, [name]);
    AnswersAreProper(host, cluster, [name]);
    assert RunMember([]) == NEW_MEMBER && AllProper([], cluster);
    Then([], Fetch(Some(r)), cluster);
    assert "connectors" in host.communities && ep.name in Neighbours(host, name);
    PrefixClashIff(cluster, cluster + "2", "connector");
    AnswerCarries(host, cluster, [name], ep.name);
    SaveAllIs(map[], r.endpoints);
  }
}
