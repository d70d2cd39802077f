/** The operator's store of endpoints and communities, with the index from endpoints to the
    communities they are in. */
module Store {
  import opened Prelude

  datatype EndpointType = Connector | EdgeNode

  datatype Endpoint = Endpoint(
    id: string, name: string, publicAddresses: seq<string>,
    subnets: seq<string>, nodeSubnets: seq<string>, kind: EndpointType)

  datatype Community = Community(name: string, members: set<string>)

  type Index = map<string, set<string>>

  /** What the store holds, without the index. */
  datatype Contents = Contents(
    localNames: set<string>, endpoints: map<string, Endpoint>, communities: map<string, set<string>>)

  const EMPTY := Contents({}, map[], map[])

  function Get(m: Index, k: string): set<string> {
    if k in m then m[k] else {}
  }

  // ---------- the operations, without the index ----------

  datatype Op =
    | SaveEndpoint(ep: Endpoint)
    | SaveEndpointAsLocal(ep: Endpoint)
    | DeleteEndpoint(name: string)
    | SaveCommunity(community: Community)
    | DeleteCommunity(name: string)

  /** Saving a community with the members it has, or an empty one that is not there, does nothing. */
  function Apply(c: Contents, op: Op): Contents {
    match op
    case SaveEndpoint(ep) => c.(endpoints := c.endpoints[ep.name := ep])
    case SaveEndpointAsLocal(ep) =>
      c.(endpoints := c.endpoints[ep.name := ep], localNames := c.localNames + {ep.name})
    case DeleteEndpoint(n) => c.(endpoints := c.endpoints - {n}, localNames := c.localNames - {n})
    case SaveCommunity(cm) =>
      if Get(c.communities, cm.name) == cm.members then c
      else c.(communities := c.communities[cm.name := cm.members])
    case DeleteCommunity(n) => c.(communities := c.communities - {n})
  }

  /** A full scan for the communities an endpoint is in. */
  function Scan(c: Contents, name: string): set<string> {
    set k | k in c.communities && name in c.communities[k]
  }

  // ---------- the index ----------

  predicate Related(index: Index, member: string, community: string) {
    member in index && community in index[member]
  }

  /** The index relates a member to a community exactly when the community has it, and has no empty
      entries. */
  ghost predicate IndexOk(index: Index, communities: map<string, set<string>>) {
    && (forall m, k :: Related(index, m, k) <==> k in communities && m in communities[k])
    && (forall m <- index :: index[m] != {})
  }

  lemma IndexIsScan(c: Contents, index: Index, name: string)
    requires IndexOk(index, c.communities)
    ensures Get(index, name) == Scan(c, name)
  {
    forall k ensures k in Get(index, name) <==> k in Scan(c, name) {
      assert Related(index, name, k) <==> k in c.communities && name in c.communities[k];
    }
  }

  /** One index entry gains or loses a community. */
  function Link(index: Index, m: string, k: string): Index {
    index[m := Get(index, m) + {k}]
  }

  function Unlink(index: Index, m: string, k: string): Index {
    var left := Get(index, m) - {k};
    if left == {} then index - {m} else index[m := left]
  }

  ghost predicate NoEmpty(index: Index) {
    forall m <- index :: index[m] != {}
  }

  lemma LinkRelates(index: Index, m: string, k: string)
    requires NoEmpty(index)
    ensures NoEmpty(Link(index, m, k))
    ensures forall n, l :: Related(Link(index, m, k), n, l) <==> Related(index, n, l) || (n == m && l == k)
  {}

  lemma UnlinkRelates(index: Index, m: string, k: string)
    requires NoEmpty(index)
    ensures NoEmpty(Unlink(index, m, k))
    ensures forall n, l :: Related(Unlink(index, m, k), n, l) <==> Related(index, n, l) && !(n == m && l == k)
  {
    var left := Get(index, m) - {k};
    if left == {} {
      assert forall l :: l in Get(index, m) ==> l == k || l in left;
    }
  }

  class ClusterStore {
    var localNameSet: set<string>
    var endpoints: map<string, Endpoint>
    var communities: map<string, set<string>>
    var endpointToCommunities: Index

    ghost predicate Valid()
      reads this
    {
      IndexOk(endpointToCommunities, communities)
    }

    ghost function State(): Contents
      reads this
    {
      Contents(localNameSet, endpoints, communities)
    }

    constructor ()
      ensures Valid() && State() == EMPTY
    {
      localNameSet, endpoints, communities, endpointToCommunities := {}, map[], map[], map[];
    }

    method Save(ep: Endpoint)
      requires Valid()
      modifies this`endpoints
      ensures Valid() && State() == Apply(old(State()), SaveEndpoint(ep))
      ensures ep.name in endpoints && endpoints[ep.name] == ep && endpoints - {ep.name} == old(endpoints) - {ep.name}
    {
      endpoints := endpoints[ep.name := ep];
    }

    method SaveAsLocal(ep: Endpoint)
      requires Valid()
      modifies this`endpoints, this`localNameSet
      ensures Valid() && State() == Apply(old(State()), SaveEndpointAsLocal(ep))
      ensures ep.name in endpoints && endpoints[ep.name] == ep && endpoints - {ep.name} == old(endpoints) - {ep.name}
      ensures ep.name in localNameSet && localNameSet - {ep.name} == old(localNameSet) - {ep.name}
    {
      endpoints := endpoints[ep.name := ep];
      localNameSet := localNameSet + {ep.name};
    }

    method Delete(name: string)
      requires Valid()
      modifies this`endpoints, this`localNameSet
      ensures Valid() && State() == Apply(old(State()), DeleteEndpoint(name))
      ensures name !in endpoints && endpoints == old(endpoints) - {name}
      ensures name !in localNameSet && localNameSet == old(localNameSet) - {name}
    {
      endpoints := endpoints - {name};
      localNameSet := localNameSet - {name};
    }

    /** The loop that enters a community under each of its members. */
    method LinkAll(k: string, members: set<string>)
      requires NoEmpty(endpointToCommunities)
      modifies this`endpointToCommunities
      ensures NoEmpty(endpointToCommunities)
      ensures forall m, l :: Related(endpointToCommunities, m, l) <==>
        old(Related(endpointToCommunities, m, l)) || (m in members && l == k)
    {
      var todo := members;
      while todo != {}
        invariant todo <= members && NoEmpty(endpointToCommunities)
        invariant forall m, l :: Related(endpointToCommunities, m, l) <==>
          old(Related(endpointToCommunities, m, l)) || (m in members - todo && l == k)
      {
        var m :| m in todo;
        LinkRelates(endpointToCommunities, m, k);
        todo := todo - {m};
        endpointToCommunities := endpointToCommunities[m := Get(endpointToCommunities, m) + {k}];
      }
    }

    /** The loop that takes a community out from under the given members. */
    method UnlinkAll(k: string, members: set<string>)
      requires NoEmpty(endpointToCommunities)
      modifies this`endpointToCommunities
      ensures NoEmpty(endpointToCommunities)
      ensures forall m, l :: Related(endpointToCommunities, m, l) <==>
        old(Related(endpointToCommunities, m, l)) && !(m in members && l == k)
    {
      var todo := members;
      while todo != {}
        invariant todo <= members && NoEmpty(endpointToCommunities)
        invariant forall m, l :: Related(endpointToCommunities, m, l) <==>
          old(Related(endpointToCommunities, m, l)) && !(m in members - todo && l == k)
      {
        var m :| m in todo;
        UnlinkRelates(endpointToCommunities, m, k);
        todo := todo - {m};
        var cs := Get(endpointToCommunities, m) - {k};
        endpointToCommunities := if cs == {} then endpointToCommunities - {m} else endpointToCommunities[m := cs];
      }
    }

    method SaveCommunityInfo(c: Community)
      requires Valid()
      modifies this`communities, this`endpointToCommunities
      ensures Valid() && State() == Apply(old(State()), SaveCommunity(c))
      ensures Get(communities, c.name) == c.members && communities - {c.name} == old(communities) - {c.name}
    {
      var oldMembers := Get(communities, c.name);
      if oldMembers == c.members {
        return;
      }
      communities := communities[c.name := c.members];
      LinkAll(c.name, c.members);
      UnlinkAll(c.name, oldMembers - c.members);
    }

    method DeleteCommunityInfo(name: string)
      requires Valid()
      modifies this`communities, this`endpointToCommunities
      ensures Valid() && State() == Apply(old(State()), DeleteCommunity(name))
      ensures name !in communities && communities == old(communities) - {name}
    {
      UnlinkAll(name, Get(communities, name));
      communities := communities - {name};
    }

    /** The lookup through the index finds what a scan of all communities would, each once. */
    method GetCommunitiesByEndpoint(name: string) returns (r: seq<Community>)
      requires Valid()
      ensures forall i, j :: 0 <= i < j < |r| ==> r[i].name != r[j].name
      ensures (set cm | cm in r :: cm.name) == Scan(State(), name)
      ensures forall cm <- r :: cm.name in communities && cm.members == communities[cm.name]
    {
      r := [];
      var todo := Get(endpointToCommunities, name);
      IndexIsScan(State(), endpointToCommunities, name);
      ghost var all := todo;
      while todo != {}
        invariant todo <= all
        invariant forall i, j :: 0 <= i < j < |r| ==> r[i].name != r[j].name
        invariant (set cm | cm in r :: cm.name) == all - todo
        invariant forall cm <- r :: cm.name in communities && cm.members == communities[cm.name]
      {
        var k :| k in todo;
        todo := todo - {k};
        if k in communities {
          ghost var before := r;
          r := r + [Community(k, communities[k])];
          NamesAppend(before, Community(k, communities[k]));
        }
      }
    }

    /** The stored endpoints among the given names, in order; unknown names are skipped. */
    method GetEndpoints(names: seq<string>) returns (r: seq<Endpoint>)
      ensures r == Pick(endpoints, names)
    {
      r := [];
      for i := 0 to |names|
        invariant r == Pick(endpoints, names[..i])
      {
        assert names[..i + 1][..i] == names[..i];
        if names[i] in endpoints {
          r := r + [endpoints[names[i]]];
        }
      }
      assert names[..|names|] == names;
    }
  }

  lemma NamesAppend(r: seq<Community>, c: Community)
    ensures (set cm | cm in r + [c] :: cm.name) == (set cm | cm in r :: cm.name) + {c.name}
  {}

  function Pick(endpoints: map<string, Endpoint>, names: seq<string>): (r: seq<Endpoint>)
    ensures forall e :: e in r <==> exists n <- names :: n in endpoints && endpoints[n] == e
  {
    if names == [] then [] else
    var init, last := names[..|names| - 1], names[|names| - 1];
    assert names == init + [last];
    Pick(endpoints, init) + (if last in endpoints then [endpoints[last]] else [])
  }

  // ---------- whole runs ----------

  function Run(c: Contents, ops: seq<Op>): Contents
    decreases |ops|
  {
    if ops == [] then c else Apply(Run(c, ops[..|ops| - 1]), ops[|ops| - 1])
  }

  /** Local names are stored endpoints, and endpoints are stored under their own names. */
  ghost predicate Tidy(c: Contents) {
    c.localNames <= c.endpoints.Keys && forall n <- c.endpoints :: c.endpoints[n].name == n
  }

  lemma {:induction false} TidyRun(ops: seq<Op>)
    ensures Tidy(Run(EMPTY, ops))
    decreases |ops|
  {
    if ops != [] {
      TidyRun(ops[..|ops| - 1]);
    }
  }

  /** How an endpoint was last saved, if it was not deleted since. */
  function LastSaved(ops: seq<Op>, n: string): Option<Endpoint>
    decreases |ops|
  {
    if ops == [] then None else
    var op := ops[|ops| - 1];
    if (op.SaveEndpoint? || op.SaveEndpointAsLocal?) && op.ep.name == n then Some(op.ep)
    else if op == DeleteEndpoint(n) then None
    else LastSaved(ops[..|ops| - 1], n)
  }

  /** The endpoint was saved as local and not deleted since; saving it again does not take that back. */
  predicate WasLocal(ops: seq<Op>, n: string)
    decreases |ops|
  {
    ops != [] &&
    (var op := ops[|ops| - 1];
     if op.SaveEndpointAsLocal? && op.ep.name == n then true
     else op != DeleteEndpoint(n) && WasLocal(ops[..|ops| - 1], n))
  }

  /** The members a community was last saved with, if it was not deleted since. */
  function LastMembers(ops: seq<Op>, k: string): set<string>
    decreases |ops|
  {
    if ops == [] then {} else
    var op := ops[|ops| - 1];
    if op.SaveCommunity? && op.community.name == k then op.community.members
    else if op == DeleteCommunity(k) then {}
    else LastMembers(ops[..|ops| - 1], k)
  }

  /** After every run an endpoint is stored as it was last saved, local if it was saved as local since it
      was last deleted, and a community has the members it was last saved with. */
  lemma {:induction false} LastWord(ops: seq<Op>, n: string)
    ensures
      var c := Run(EMPTY, ops);
      && (n in c.endpoints <==> LastSaved(ops, n).Some?)
      && (n in c.endpoints ==> c.endpoints[n] == LastSaved(ops, n).value)
      && (n in c.localNames <==> WasLocal(ops, n))
      && Get(c.communities, n) == LastMembers(ops, n)
    decreases |ops|
  {
    if ops != [] {
      LastWord(ops[..|ops| - 1], n);
    }
  }
}
