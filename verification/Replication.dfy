/** The pull protocol between clusters: the host's answer to a fetch, and the routine on the member
    that applies it. */
module Replication {
  import opened Prelude
  import opened Store
  import opened Strings

  /** The host's answer: the communities the cluster takes part in, and the endpoints of others. */
  datatype Response = Response(communities: map<string, set<string>>, endpoints: seq<Endpoint>)

  /** Go's strings.HasPrefix. */
  predicate HasPrefix(s: string, prefix: string) {
    prefix <= s
  }

  // ---------- the host ----------

  /** A map cut down to the given keys. */
  function Restrict(m: map<string, set<string>>, keys: set<string>): map<string, set<string>> {
    m - (m.Keys - keys)
  }

  /** The communities of any of the given endpoints. */
  function Involved(host: Contents, exported: seq<string>): set<string> {
    set k | k in host.communities && exists n <- exported :: n in host.communities[k]
  }

  /** The members of those communities that are not named with the cluster's prefix. */
  function ForeignMembers(host: Contents, cluster: string, communities: set<string>): set<string> {
    set k, m | k in communities && k in host.communities && m in host.communities[k] && !HasPrefix(m, cluster) :: m
  }

  /** The host's answer to a cluster that exports the given endpoints. */
  ghost function AnswerOf(host: Contents, cluster: string, exported: seq<string>): Response {
    var involved := Involved(host, exported);
    Response(Restrict(host.communities, involved),
             Pick(host.endpoints, Listing(ForeignMembers(host, cluster, involved))))
  }

  /** The communities entered into the answer so far, and the names collected from them. */
  ghost predicate Collected(host: Contents, cluster: string, done: set<string>,
                            communities: map<string, set<string>>, names: set<string>) {
    && done <= host.communities.Keys
    && communities == Restrict(host.communities, done)
    && names == ForeignMembers(host, cluster, done)
  }

  lemma CollectOne(host: Contents, cluster: string, done: set<string>, k: string,
                   communities: map<string, set<string>>, names: set<string>)
    requires Collected(host, cluster, done, communities, names) && k in host.communities
    ensures Collected(host, cluster, done + {k}, communities[k := host.communities[k]],
                      names + set m | m in host.communities[k] && !HasPrefix(m, cluster))
  {}

  /** The inner loop: the communities of one exported endpoint. */
  method CollectFrom(store: ClusterStore, cluster: string, name: string, ghost done: set<string>,
                     communities0: map<string, set<string>>, names0: set<string>)
    returns (communities: map<string, set<string>>, names: set<string>)
    requires store.Valid() && Collected(store.State(), cluster, done, communities0, names0)
    ensures Collected(store.State(), cluster, done + Scan(store.State(), name), communities, names)
  {
    communities, names := communities0, names0;
    var cms := store.GetCommunitiesByEndpoint(name);
    ghost var all := done;
    for i := 0 to |cms|
      invariant Collected(store.State(), cluster, all, communities, names)
      invariant all == done + set cm | cm in cms[..i] :: cm.name
    {
      var cm := cms[i];
      assert cms[..i + 1] == cms[..i] + [cm];
      NamesAppend(cms[..i], cm);
      if cm.name !in communities {
        CollectOne(store.State(), cluster, all, cm.name, communities, names);
        communities := communities[cm.name := cm.members];
        names := names + set m | m in cm.members && !HasPrefix(m, cluster);
      } else {
        assert all + {cm.name} == all;
      }
      all := all + {cm.name};
    }
    assert cms[..|cms|] == cms;
  }

  method GetEndpointsAndCommunity(store: ClusterStore, cluster: string, exported: seq<string>) returns (r: Response)
    requires store.Valid()
    ensures r == AnswerOf(store.State(), cluster, exported)
  {
    var communities: map<string, set<string>>, names: set<string> := map[], {};
    ghost var done: set<string> := {};
    assert Involved(store.State(), []) == {};
    for i := 0 to |exported|
      invariant Collected(store.State(), cluster, done, communities, names)
      invariant done == Involved(store.State(), exported[..i])
    {
      InvolvedStep(store.State(), exported, i);
      communities, names := CollectFrom(store, cluster, exported[i], done, communities, names);
      done := done + Scan(store.State(), exported[i]);
    }
    assert exported[..|exported|] == exported;
    var list := List(names);
    var endpoints := store.GetEndpoints(list);
    r := Response(communities, endpoints);
  }

  lemma InvolvedStep(host: Contents, exported: seq<string>, i: nat)
    requires i < |exported|
    ensures Involved(host, exported[..i + 1]) == Involved(host, exported[..i]) + Scan(host, exported[i])
  {}

  // ---------- the member ----------

  /** The member's store, and the names the routine remembers from its last successful fetch. */
  datatype Member = Member(store: Contents, communitySet: set<string>, endpointSet: set<string>)

  function SaveAll(endpoints: map<string, Endpoint>, eps: seq<Endpoint>): map<string, Endpoint> {
    if eps == [] then endpoints
    else var last := eps[|eps| - 1]; SaveAll(endpoints, eps[..|eps| - 1])[last.name := last]
  }

  function NamesIn(eps: seq<Endpoint>): set<string> {
    set e | e in eps :: e.name
  }

  /** Communities after saving the given ones; an empty one that is not there is not entered. */
  function SaveCommunities(have: map<string, set<string>>, wanted: map<string, set<string>>): map<string, set<string>> {
    have + (wanted - set k | k in wanted && wanted[k] == {} && k !in have)
  }

  /** One run of the routine: a failed fetch changes nothing. */
  function Load(m: Member, r: Option<Response>): Member {
    if r.None? then m else
    var names := NamesIn(r.value.endpoints);
    var gone := m.endpointSet - names;
    Member(
      Contents(
        m.store.localNames - gone,
        SaveAll(m.store.endpoints, r.value.endpoints) - gone,
        SaveCommunities(m.store.communities, r.value.communities) - (m.communitySet - r.value.communities.Keys)),
      r.value.communities.Keys,
      names)
  }

  lemma SaveCommunitiesStep(have: map<string, set<string>>, wanted: map<string, set<string>>, todo: set<string>,
                            k: string)
    requires k in todo && todo <= wanted.Keys
    ensures
      var before := SaveCommunities(have, wanted - todo);
      SaveCommunities(have, wanted - (todo - {k})) ==
      if Get(before, k) == wanted[k] then before else before[k := wanted[k]]
  {}

  class EndpointsLoader {
    const store: ClusterStore
    var communitySet: set<string>
    var endpointSet: set<string>

    constructor (store: ClusterStore)
      ensures this.store == store && communitySet == {} && endpointSet == {}
    {
      this.store := store;
      communitySet, endpointSet := {}, {};
    }

    ghost function State(): Member
      reads this, store
    {
      Member(store.State(), communitySet, endpointSet)
    }

    method SaveCommunitiesLoop(communities: map<string, set<string>>)
      requires store.Valid()
      modifies store
      ensures store.Valid()
      ensures store.State() == old(store.State()).(
        communities := SaveCommunities(old(store.State()).communities, communities))
    {
      var todo := communities.Keys;
      ghost var have := store.communities;
      assert SaveCommunities(have, communities - todo) == have;
      while todo != {}
        invariant todo <= communities.Keys && store.Valid()
        invariant store.State() == old(store.State()).(communities := SaveCommunities(have, communities - todo))
      {
        var k :| k in todo;
        SaveCommunitiesStep(have, communities, todo, k);
        todo := todo - {k};
        store.SaveCommunityInfo(Community(k, communities[k]));
      }
      assert communities - {} == communities;
    }

    method SaveEndpointsLoop(eps: seq<Endpoint>)
      requires store.Valid()
      modifies store
      ensures store.Valid()
      ensures store.State() == old(store.State()).(endpoints := SaveAll(old(store.State()).endpoints, eps))
    {
      ghost var have := store.endpoints;
      for i := 0 to |eps|
        invariant store.Valid()
        invariant store.State() == old(store.State()).(endpoints := SaveAll(have, eps[..i]))
      {
        assert eps[..i + 1][..i] == eps[..i];
        store.Save(eps[i]);
      }
      assert eps[..|eps|] == eps;
    }

    method DeleteCommunitiesLoop(gone: set<string>)
      requires store.Valid()
      modifies store
      ensures store.Valid()
      ensures store.State() == old(store.State()).(communities := old(store.State()).communities - gone)
    {
      var todo := gone;
      ghost var have := store.communities;
      assert have - (gone - todo) == have;
      while todo != {}
        invariant todo <= gone && store.Valid()
        invariant store.State() == old(store.State()).(communities := have - (gone - todo))
      {
        var k :| k in todo;
        assert have - (gone - todo) - {k} == have - (gone - (todo - {k}));
        todo := todo - {k};
        store.DeleteCommunityInfo(k);
      }
      assert gone - {} == gone;
    }

    method DeleteEndpointsLoop(gone: set<string>)
      requires store.Valid()
      modifies store
      ensures store.Valid()
      ensures store.State() == old(store.State()).(
        endpoints := old(store.State()).endpoints - gone, localNames := old(store.State()).localNames - gone)
    {
      var todo := gone;
      ghost var have, locals := store.endpoints, store.localNameSet;
      assert have - (gone - todo) == have && locals - (gone - todo) == locals;
      while todo != {}
        invariant todo <= gone && store.Valid()
        invariant store.State() == old(store.State()).(
          endpoints := have - (gone - todo), localNames := locals - (gone - todo))
      {
        var k :| k in todo;
        assert have - (gone - todo) - {k} == have - (gone - (todo - {k}));
        assert locals - (gone - todo) - {k} == locals - (gone - (todo - {k}));
        todo := todo - {k};
        store.Delete(k);
      }
      assert gone - {} == gone;
    }

    /** What the periodic routine does with the outcome of a fetch. */
    method LoadEndpointsAndCommunities(r: Option<Response>)
      requires store.Valid()
      modifies this, store
      ensures store.Valid() && State() == Load(old(State()), r)
    {
      if r.None? {
        return;
      }
      SaveCommunitiesLoop(r.value.communities);
      SaveEndpointsLoop(r.value.endpoints);
      var current := set i | 0 <= i < |r.value.endpoints| :: r.value.endpoints[i].name;
      assert current == NamesIn(r.value.endpoints);
      DeleteCommunitiesLoop(communitySet - r.value.communities.Keys);
      DeleteEndpointsLoop(endpointSet - current);
      communitySet := r.value.communities.Keys;
      endpointSet := current;
    }
  }
}
