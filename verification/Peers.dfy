/** Who tunnels to whom: the peer lists that agents and the connector are configured with. */
module Peers {
  import opened Store
  import opened Strings

  /** The names that share a community with `name`. */
  function Neighbours(c: Contents, name: string): (r: set<string>)
    ensures forall m :: m in r <==> exists k :: k in c.communities && name in c.communities[k] && m in c.communities[k]
  {
    set k, m | k in c.communities && name in c.communities[k] && m in c.communities[k] :: m
  }

  predicate Shares(c: Contents, a: string, b: string) {
    exists k <- c.communities :: a in c.communities[k] && b in c.communities[k]
  }

  /** `r` holds exactly the stored endpoints among `names`. */
  ghost predicate Lists(r: seq<Endpoint>, c: Contents, names: set<string>) {
    forall e :: e in r <==> exists n :: n in names && n in c.endpoints && c.endpoints[n] == e
  }

  /** The members of all the communities of an endpoint. */
  method CollectMembers(store: ClusterStore, name: string) returns (names: set<string>)
    requires store.Valid()
    ensures names == Neighbours(store.State(), name)
  {
    var cms := store.GetCommunitiesByEndpoint(name);
    names := {};
    for i := 0 to |cms|
      invariant forall m :: m in names <==> exists j :: 0 <= j < i && m in cms[j].members
    {
      names := names + cms[i].members;
    }
    MembersAreNeighbours(store.State(), name, cms, names);
  }

  lemma MembersAreNeighbours(c: Contents, name: string, cms: seq<Community>, names: set<string>)
    requires (set cm | cm in cms :: cm.name) == Scan(c, name)
    requires forall cm <- cms :: cm.name in c.communities && cm.members == c.communities[cm.name]
    requires forall m :: m in names <==> exists j :: 0 <= j < |cms| && m in cms[j].members
    ensures names == Neighbours(c, name)
  {
    forall m ensures m in names <==> m in Neighbours(c, name) {
      if m in names {
        var j :| 0 <= j < |cms| && m in cms[j].members;
        assert cms[j].name in Scan(c, name);
      }
      if m in Neighbours(c, name) {
        var k :| k in c.communities && name in c.communities[k] && m in c.communities[k];
        assert k in Scan(c, name);
        var cm :| cm in cms && cm.name == k;
        var j :| 0 <= j < |cms| && cms[j] == cm;
      }
    }
  }

  /** What an agent is configured with: the connector first, then the members of its communities. */
  ghost function AgentPeers(c: Contents, connector: Endpoint, name: string): seq<Endpoint> {
    [connector] + Pick(c.endpoints, Listing(Neighbours(c, name) - {name}))
  }

  /** What the connector is configured with: every local endpoint and the members of its communities. */
  ghost function ConnectorPeers(c: Contents, name: string): seq<Endpoint> {
    Pick(c.endpoints, Listing(c.localNames + Neighbours(c, name) - {name}))
  }

  method GetAgentPeers(store: ClusterStore, connector: Endpoint, name: string) returns (r: seq<Endpoint>)
    requires store.Valid()
    ensures r == AgentPeers(store.State(), connector, name)
    ensures |r| > 0 && r[0] == connector
    ensures forall e :: e in r[1..] <==>
      exists n ::
        && n != name && n in store.endpoints && store.endpoints[n] == e
        && exists k <- store.communities :: name in store.communities[k] && n in store.communities[k]
  {
    ghost var wanted := Neighbours(store.State(), name) - {name};
    PickLists(store.State(), Listing(wanted), wanted);
    var nameSet := CollectMembers(store, name);
    nameSet := nameSet - {name};
    var names := List(nameSet);
    var eps := store.GetEndpoints(names);
    r := [connector] + eps;
  }

  method GetConnectorPeers(store: ClusterStore, name: string) returns (r: seq<Endpoint>)
    requires store.Valid()
    ensures r == ConnectorPeers(store.State(), name)
    ensures forall e :: e in r <==>
      exists n ::
        && n != name && n in store.endpoints && store.endpoints[n] == e
        && (n in store.localNameSet ||
            exists k <- store.communities :: name in store.communities[k] && n in store.communities[k])
  {
    ghost var wanted := store.localNameSet + Neighbours(store.State(), name) - {name};
    PickLists(store.State(), Listing(wanted), wanted);
    var members := CollectMembers(store, name);
    var nameSet := store.localNameSet + members - {name};
    var names := List(nameSet);
    r := store.GetEndpoints(names);
  }

  lemma PickLists(c: Contents, names: seq<string>, nameSet: set<string>)
    requires forall n :: n in names <==> n in nameSet
    ensures Lists(Pick(c.endpoints, names), c, nameSet)
  {}

  predicate Names(r: seq<Endpoint>, name: string) {
    exists e <- r :: e.name == name
  }

  lemma ListsNames(r: seq<Endpoint>, c: Contents, names: set<string>, b: string)
    requires Lists(r, c, names) && Tidy(c)
    ensures Names(r, b) <==> b in names && b in c.endpoints
  {}

  /** The names along a list of endpoints. */
  function NamesOf(r: seq<Endpoint>): seq<string> {
    seq(|r|, i requires 0 <= i < |r| => r[i].name)
  }

  /** Picking sorted names from a store in which endpoints are under their own names gives the
      endpoints sorted by name, each once. */
  lemma {:induction false} PickAscending(endpoints: map<string, Endpoint>, names: seq<string>)
    requires Ascending(names) && forall n <- endpoints :: endpoints[n].name == n
    ensures Ascending(NamesOf(Pick(endpoints, names)))
    decreases |names|
  {
    if names != [] {
      var init, last := names[..|names| - 1], names[|names| - 1];
      PickAscending(endpoints, init);
      var picked := Pick(endpoints, init);
      forall i | 0 <= i < |picked|
        ensures StringLess(picked[i].name, last)
      {
        assert picked[i] in picked;
        var n :| n in init && n in endpoints && endpoints[n] == picked[i];
      }
      if last in endpoints {
        assert NamesOf(Pick(endpoints, names)) == NamesOf(picked) + [last];
      } else {
        assert picked + [] == picked;
      }
    }
  }

  lemma ListsPicked(c: Contents, names: set<string>, b: string)
    requires Tidy(c)
    ensures Names(Pick(c.endpoints, Listing(names)), b) <==> b in names && b in c.endpoints
  {
    PickLists(c, Listing(names), names);
    ListsNames(Pick(c.endpoints, Listing(names)), c, names, b);
  }

  lemma AgentNames(c: Contents, connector: Endpoint, a: string, b: string)
    requires Tidy(c) && b in c.endpoints && a != b && b != connector.name
    ensures Names(AgentPeers(c, connector, a), b) <==> Shares(c, a, b)
  {
    var r := AgentPeers(c, connector, a);
    ListsPicked(c, Neighbours(c, a) - {a}, b);
    assert r[1..] == Pick(c.endpoints, Listing(Neighbours(c, a) - {a}));
    assert Names(r, b) <==> Names(r[1..], b);
    if Shares(c, a, b) {
      var k :| k in c.communities && a in c.communities[k] && b in c.communities[k];
      assert b in Neighbours(c, a);
    }
  }

  /** In every reachable store, two stored endpoints other than the connector are in each other's
      peer lists exactly when they share a community: a tunnel is configured at both ends or at
      neither. The connector's list has every local endpoint but itself, and every agent has the
      connector. */
  lemma TunnelsMatch(ops: seq<Op>, connector: Endpoint, a: string, b: string)
    requires
      var c := Run(EMPTY, ops);
      a in c.endpoints && b in c.endpoints && a != b && a != connector.name && b != connector.name
    ensures
      var c := Run(EMPTY, ops);
      var pa, pb, pc := AgentPeers(c, connector, a), AgentPeers(c, connector, b), ConnectorPeers(c, connector.name);
      && (Names(pa, b) <==> Shares(c, a, b)) && (Names(pb, a) <==> Shares(c, a, b))
      && (a in c.localNames ==> Names(pc, a) && Names(pa, connector.name))
      && !Names(pc, connector.name)
  {
    var c := Run(EMPTY, ops);
    TidyRun(ops);
    AgentNames(c, connector, a, b);
    AgentNames(c, connector, b, a);
    ListsPicked(c, c.localNames + Neighbours(c, connector.name) - {connector.name}, a);
    ListsPicked(c, c.localNames + Neighbours(c, connector.name) - {connector.name}, connector.name);
    assert AgentPeers(c, connector, a)[0] in AgentPeers(c, connector, a);
  }

  /** In every reachable store the peers after the connector, and the connector's peers, come sorted
      by name and each once. */
  lemma PeersSorted(ops: seq<Op>, connector: Endpoint, name: string)
    ensures
      var c := Run(EMPTY, ops);
      Ascending(NamesOf(AgentPeers(c, connector, name)[1..])) && Ascending(NamesOf(ConnectorPeers(c, name)))
  {
    var c := Run(EMPTY, ops);
    TidyRun(ops);
    PickAscending(c.endpoints, Listing(Neighbours(c, name) - {name}));
    PickAscending(c.endpoints, Listing(c.localNames + Neighbours(c, name) - {name}));
    assert AgentPeers(c, connector, name)[1..] == Pick(c.endpoints, Listing(Neighbours(c, name) - {name}));
  }
}
