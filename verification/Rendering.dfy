/** How a node's rules become the sorted list of virtual servers in its config map, and when that
    list is unique. Go's sort is unstable, so any sorted permutation may come out. */
module Rendering {
  import opened ProxyTypes
  import opened Strings

  datatype VirtualServer = VirtualServer(
    ip: IP, port: Port, scheduler: string, sessionAffinity: string, stickyMaxAgeSeconds: int,
    realServers: seq<Endpoint>)

  // ---------- the order ----------

  /** The comparison of both `Less` methods: by IP, then by port number. */
  predicate Less(a: Endpoint, b: Endpoint) {
    StringLess(a.ip, b.ip) || (a.ip == b.ip && a.port < b.port)
  }

  lemma {:induction false} LessTotal(a: Endpoint, b: Endpoint)
    ensures Less(a, b) || Less(b, a) || a == b
    ensures !(Less(a, b) && Less(b, a))
  {
    StringLessTotal(a.ip, b.ip);
  }

  /** "Not less" is transitive, so sorted neighbours make a sorted sequence. */
  lemma {:induction false} NotLessTransitive(a: Endpoint, b: Endpoint, c: Endpoint)
    requires !Less(b, a) && !Less(c, b)
    ensures !Less(c, a)
  {
    LessTotal(a, b);
    LessTotal(b, c);
    LessTotal(a, c);
    StringLessTotal(a.ip, b.ip);
    StringLessTotal(b.ip, c.ip);
    StringLessTotal(a.ip, c.ip);
    if StringLess(a.ip, b.ip) && StringLess(b.ip, c.ip) {
      StringLessTransitive(a.ip, b.ip, c.ip);
    }
  }

  ghost predicate Sorted<T>(s: seq<T>, key: T -> Endpoint) {
    forall i, j :: 0 <= i < j < |s| ==> !Less(key(s[j]), key(s[i]))
  }

  /** What sort.Sort may leave: some permutation in which no later element is less. */
  ghost predicate IsSort<T>(s: seq<T>, items: multiset<T>, key: T -> Endpoint) {
    multiset(s) == items && Sorted(s, key)
  }

  // ---------- sorting ----------

  lemma {:induction false} SortedAppend<T>(s: seq<T>, x: T, key: T -> Endpoint)
    requires Sorted(s, key) && (s != [] ==> !Less(key(x), key(s[|s| - 1])))
    ensures Sorted(s + [x], key)
  {
    forall i | 0 <= i < |s|
      ensures !Less(key(x), key(s[i]))
    {
      if i < |s| - 1 {
        NotLessTransitive(key(s[i]), key(s[|s| - 1]), key(x));
      }
    }
  }

  function Insert<T>(s: seq<T>, x: T, key: T -> Endpoint): (t: seq<T>)
    requires Sorted(s, key)
    ensures multiset(t) == multiset(s) + multiset{x}
    ensures Sorted(t, key)
    ensures t[|t| - 1] == x || (s != [] && t[|t| - 1] == s[|s| - 1])
  {
    if s == [] then [x] else
    var last := s[|s| - 1];
    assert s == s[..|s| - 1] + [last];
    if Less(key(x), key(last)) then
      var t := Insert(s[..|s| - 1], x, key);
      LessTotal(key(x), key(last));
      SortedAppend(t, last, key);
      t + [last]
    else
      SortedAppend(s, x, key);
      s + [x]
  }

  /** One possible outcome of sort.Sort. */
  function Sort<T>(items: seq<T>, key: T -> Endpoint): (s: seq<T>)
    ensures IsSort(s, multiset(items), key)
  {
    if items == [] then []
    else
      assert items == items[..|items| - 1] + [items[|items| - 1]];
      Insert(Sort(items[..|items| - 1], key), items[|items| - 1], key)
  }

  // ---------- uniqueness ----------

  ghost predicate KeysDecide<T(!new)>(items: multiset<T>, key: T -> Endpoint) {
    forall a, b :: a in items && b in items && key(a) == key(b) ==> a == b
  }

  /** A sorted sequence starts with a least element. */
  lemma {:induction false} FirstIsLeast<T>(s: seq<T>, x: T, key: T -> Endpoint)
    requires Sorted(s, key) && s != [] && x in s
    ensures !Less(key(x), key(s[0]))
  {
    LessTotal(key(s[0]), key(s[0]));
  }

  lemma {:induction false} SortTail<T>(s: seq<T>, items: multiset<T>, key: T -> Endpoint)
    requires IsSort(s, items, key) && s != []
    ensures s[0] in items && IsSort(s[1..], items - multiset{s[0]}, key)
  {
    assert s == [s[0]] + s[1..];
    assert multiset(s[1..]) == items - multiset{s[0]};
  }

  lemma {:induction false} SortSize<T>(s: seq<T>, items: multiset<T>, key: T -> Endpoint)
    requires IsSort(s, items, key)
    ensures |s| == |items|
  {}

  lemma {:induction false} SameParts<T>(s: seq<T>, t: seq<T>)
    requires s != [] && t != [] && s[0] == t[0] && s[1..] == t[1..]
    ensures s == t
  {}

  lemma {:induction false} FewerDecide<T(!new)>(items: multiset<T>, x: T, key: T -> Endpoint)
    requires KeysDecide(items, key)
    ensures KeysDecide(items - multiset{x}, key)
  {}

  /** Two sorted permutations start alike if keys decide. */
  lemma {:induction false} SortSameFirst<T(!new)>(s: seq<T>, t: seq<T>, items: multiset<T>, key: T -> Endpoint)
    requires KeysDecide(items, key) && IsSort(s, items, key) && IsSort(t, items, key) && s != [] && t != []
    ensures s[0] == t[0]
  {
    assert s[0] in multiset(t) && t[0] in multiset(s);
    FirstIsLeast(s, t[0], key);
    FirstIsLeast(t, s[0], key);
    LessTotal(key(s[0]), key(t[0]));
  }

  lemma {:induction false} SortUnique<T(!new)>(s: seq<T>, t: seq<T>, items: multiset<T>, key: T -> Endpoint)
    requires KeysDecide(items, key) && IsSort(s, items, key) && IsSort(t, items, key)
    ensures s == t
    decreases |s|
  {
    SortSize(s, items, key);
    SortSize(t, items, key);
    if s != [] {
      SortSameFirst(s, t, items, key);
      SortTail(s, items, key);
      SortTail(t, items, key);
      FewerDecide(items, s[0], key);
      SortUnique(s[1..], t[1..], items - multiset{s[0]}, key);
      SameParts(s, t);
    }
  }

  /** Exchanging two elements with equal keys keeps a sorted permutation sorted. */
  lemma {:induction false} SwapEqual<T>(s: seq<T>, i: nat, j: nat, key: T -> Endpoint)
    requires i < j < |s| && Sorted(s, key) && key(s[i]) == key(s[j])
    ensures IsSort(s[i := s[j]][j := s[i]], multiset(s), key)
  {}

  /** Two different elements with one key give a second outcome. */
  lemma {:induction false} SecondSort<T>(items: multiset<T>, s: seq<T>, a: T, b: T,
                                         key: T -> Endpoint) returns (t: seq<T>)
    requires IsSort(s, items, key) && a in items && b in items && key(a) == key(b) && a != b
    ensures IsSort(t, items, key) && t != s
  {
    assert a in s && b in s;
    var i :| 0 <= i < |s| && s[i] == a;
    var j :| 0 <= j < |s| && s[j] == b;
    var lo, hi := if i < j then i else j, if i < j then j else i;
    SwapEqual(s, lo, hi, key);
    t := s[lo := s[hi]][hi := s[lo]];
    assert t[lo] != s[lo];
  }

  /** Sorting has one outcome exactly when elements with equal keys are equal. */
  lemma {:induction false} SortUniqueIff<T(!new)>(items: multiset<T>, s: seq<T>, key: T -> Endpoint)
    requires IsSort(s, items, key)
    ensures KeysDecide(items, key) <==> forall t :: IsSort(t, items, key) ==> t == s
  {
    if KeysDecide(items, key) {
      forall t | IsSort(t, items, key)
        ensures t == s
      {
        SortUnique(s, t, items, key);
      }
    } else {
      var a, b :| a in items && b in items && key(a) == key(b) && a != b;
      var t := SecondSort(items, s, a, b, key);
    }
  }

  // ---------- rendering a node ----------

  function Self(e: Endpoint): Endpoint { e }

  function ServerKey(v: VirtualServer): Endpoint { Endpoint(v.ip, v.port.number) }

  ghost predicate IsRealServers(s: seq<Endpoint>, endpoints: set<Endpoint>) {
    IsSort(s, multiset(endpoints), Self)
  }

  /** Real servers are sorted by everything they hold, so their order is always unique. */
  lemma {:induction false} RealServersUnique(s: seq<Endpoint>, t: seq<Endpoint>, endpoints: set<Endpoint>)
    requires IsRealServers(s, endpoints) && IsRealServers(t, endpoints)
    ensures s == t
  {
    SortUnique(s, t, multiset(endpoints), Self);
  }

  ghost function SortedSet(endpoints: set<Endpoint>): (s: seq<Endpoint>)
    ensures IsRealServers(s, endpoints)
  {
    if endpoints == {} then [] else
    var e :| e in endpoints;
    assert multiset(endpoints) == multiset(endpoints - {e}) + multiset{e};
    Insert(SortedSet(endpoints - {e}), e, Self)
  }

  ghost function ServerOf(node: EdgeNode, spn: ServicePortName, scheduler: string): VirtualServer
    requires spn in node.servicePortMap
  {
    var sp := node.servicePortMap[spn];
    VirtualServer(sp.clusterIP, sp.port, scheduler, sp.sessionAffinity, sp.stickyMaxAgeSeconds,
                  SortedSet(Get(node.endpointMap, spn)))
  }

  ghost function ServersUnder(node: EdgeNode, scheduler: string,
                              keys: set<ServicePortName>): (m: map<ServicePortName, VirtualServer>)
    requires keys <= node.servicePortMap.Keys
    ensures m.Keys == keys && forall spn <- keys :: m[spn] == ServerOf(node, spn, scheduler)
  {
    if keys == {} then map[] else
    var spn :| spn in keys;
    ServersUnder(node, scheduler, keys - {spn})[spn := ServerOf(node, spn, scheduler)]
  }

  ghost function ServerMap(node: EdgeNode, scheduler: string): (m: map<ServicePortName, VirtualServer>) {
    ServersUnder(node, scheduler, node.servicePortMap.Keys)
  }

  /** The values of a map, each as often as it has keys. */
  ghost function Bag<K, V>(m: map<K, V>): multiset<V>
    decreases m.Keys
  {
    if m == map[] then multiset{} else
    var k :| k in m;
    multiset{m[k]} + Bag(m - {k})
  }

  lemma {:induction false} SwapFirst<V>(x: V, y: V, rest: multiset<V>)
    ensures multiset{x} + (multiset{y} + rest) == multiset{y} + (multiset{x} + rest)
  {}

  lemma {:induction false} CutBoth<K, V>(m: map<K, V>, k: K, l: K)
    ensures m - {l} - {k} == m - {k} - {l}
  {}

  lemma {:induction false} BagStep<K, V>(m: map<K, V>, k: K)
    requires k in m
    ensures Bag(m) == multiset{m[k]} + Bag(m - {k})
    decreases m.Keys
  {
    var l :| l in m && Bag(m) == multiset{m[l]} + Bag(m - {l});
    if l != k {
      BagStep(m - {l}, k);
      BagStep(m - {k}, l);
      CutBoth(m, k, l);
      SwapFirst(m[k], m[l], Bag(m - {k} - {l}));
    }
  }

  lemma {:induction false} BagMember<K, V>(m: map<K, V>, v: V)
    ensures v in Bag(m) <==> exists k :: k in m && m[k] == v
    decreases m.Keys
  {
    if m != map[] {
      var k :| k in m && Bag(m) == multiset{m[k]} + Bag(m - {k});
      BagMember(m - {k}, v);
      if l :| l in m && m[l] == v && l != k {
        assert l in m - {k} && (m - {k})[l] == v;
      }
    }
  }

  /** A possible content of the node's config map. */
  ghost predicate IsRendering(servers: seq<VirtualServer>, node: EdgeNode, scheduler: string) {
    IsSort(servers, Bag(ServerMap(node, scheduler)), ServerKey)
  }

  method ConvertEndpointSetToRealServers(endpoints: set<Endpoint>) returns (s: seq<Endpoint>)
    ensures IsRealServers(s, endpoints)
  {
    s := [];
    var todo := endpoints;
    while todo != {}
      invariant todo <= endpoints
      invariant multiset(s) == multiset(endpoints - todo)
    {
      var e :| e in todo;
      assert endpoints - (todo - {e}) == endpoints - todo + {e};
      todo := todo - {e};
      s := s + [e];
    }
    assert endpoints - {} == endpoints;
    s := Sort(s, Self);
  }

  method RenderServer(node: EdgeNode, spn: ServicePortName, scheduler: string) returns (v: VirtualServer)
    requires spn in node.servicePortMap
    ensures spn in ServerMap(node, scheduler) && v == ServerMap(node, scheduler)[spn]
  {
    var sp := node.servicePortMap[spn];
    var realServers := ConvertEndpointSetToRealServers(Get(node.endpointMap, spn));
    RealServersUnique(realServers, SortedSet(Get(node.endpointMap, spn)), Get(node.endpointMap, spn));
    v := VirtualServer(sp.clusterIP, sp.port, scheduler, sp.sessionAffinity, sp.stickyMaxAgeSeconds, realServers);
  }

  /** `values` are the values of `m`, one for each key, in some order. */
  ghost predicate Walks<K(!new), V>(m: map<K, V>, order: seq<K>, values: seq<V>) {
    && |values| == |order|
    && (forall i, j :: 0 <= i < j < |order| ==> order[i] != order[j])
    && (forall k :: k in m <==> k in order)
    && (forall i :: 0 <= i < |order| ==> order[i] in m && values[i] == m[order[i]])
  }

  lemma {:induction false} WalkNone<K(!new), V>(m: map<K, V>, order: seq<K>, values: seq<V>)
    requires Walks(m, order, values) && order == []
    ensures m == map[] && values == []
  {}

  lemma {:induction false} LastAside<V>(values: seq<V>)
    requires values != []
    ensures multiset(values) == multiset{values[|values| - 1]} + multiset(values[..|values| - 1])
  {
    assert values == values[..|values| - 1] + [values[|values| - 1]];
  }

  lemma {:induction false} WalkInit<K(!new), V>(m: map<K, V>, order: seq<K>, values: seq<V>)
    requires Walks(m, order, values) && order != []
    ensures
      var k := order[|order| - 1];
      && k in m && |values| == |order| && values[|order| - 1] == m[k]
      && Walks(m - {k}, order[..|order| - 1], values[..|order| - 1])
  {}

  lemma {:induction false} WalkIsBag<K(!new), V>(m: map<K, V>, order: seq<K>, values: seq<V>)
    requires Walks(m, order, values)
    ensures multiset(values) == Bag(m)
    decreases |order|
  {
    if order == [] {
      WalkNone(m, order, values);
    } else {
      var k := order[|order| - 1];
      WalkInit(m, order, values);
      WalkIsBag(m - {k}, order[..|order| - 1], values[..|order| - 1]);
      BagStep(m, k);
      LastAside(values);
    }
  }

  /** One more key walked. */
  lemma {:induction false} WalkStep<K(!new), V>(m: map<K, V>, k: K, order: seq<K>, values: seq<V>)
    requires k in m && Walks(m - {k}, order, values)
    ensures Walks(m, order + [k], values + [m[k]])
  {}

  /** The keys outside `todo` are walked. */
  ghost predicate Walked<K(!new), V>(m: map<K, V>, todo: set<K>, values: seq<V>) {
    exists order :: Walks(m - todo, order, values)
  }

  lemma {:induction false} WalkedNone<K(!new), V>(m: map<K, V>)
    ensures Walked(m, m.Keys, [])
  {
    assert Walks(m - m.Keys, [], []);
  }

  lemma {:induction false} WalkedStep<K(!new), V>(m: map<K, V>, todo: set<K>, k: K, values: seq<V>)
    requires k in todo && k in m && Walked(m, todo, values)
    ensures Walked(m, todo - {k}, values + [m[k]])
  {
    var order :| Walks(m - todo, order, values);
    var more := m - (todo - {k});
    assert k in more && more[k] == m[k];
    assert more - {k} == m - todo;
    WalkStep(more, k, order, values);
  }

  lemma {:induction false} WalkedAll<K(!new), V>(m: map<K, V>, values: seq<V>)
    requires Walked(m, {}, values)
    ensures multiset(values) == Bag(m)
  {
    assert m - {} == m;
    var order :| Walks(m, order, values);
    WalkIsBag(m, order, values);
  }

  /** The loop over the service ports, in any order. */
  method CollectServers(node: EdgeNode, scheduler: string) returns (servers: seq<VirtualServer>)
    ensures multiset(servers) == Bag(ServerMap(node, scheduler))
  {
    servers := [];
    ghost var m := ServerMap(node, scheduler);
    var todo := node.servicePortMap.Keys;
    WalkedNone(m);
    while todo != {}
      invariant todo <= node.servicePortMap.Keys
      invariant Walked(m, todo, servers)
    {
      var spn :| spn in todo;
      var v := RenderServer(node, spn, scheduler);
      WalkedStep(m, todo, spn, servers);
      todo := todo - {spn};
      servers := servers + [v];
    }
    WalkedAll(m, servers);
  }

  method RenderNode(node: EdgeNode, scheduler: string) returns (servers: seq<VirtualServer>)
    ensures IsRendering(servers, node, scheduler)
  {
    servers := CollectServers(node, scheduler);
    servers := Sort(servers, ServerKey);
  }

  ghost predicate Matched<K(!new), V>(m: map<K, V>, values: seq<V>) {
    exists order :: Walks(m, order, values)
  }

  lemma {:induction false} MatchedNone<K(!new), V>(m: map<K, V>, values: seq<V>)
    requires values == [] && m == map[]
    ensures Matched(m, values)
  {
    assert Walks(m, [], values);
  }

  lemma {:induction false} MatchedStep<K(!new), V>(m: map<K, V>, k: K, values: seq<V>)
    requires k in m && Matched(m - {k}, values)
    ensures Matched(m, values + [m[k]])
  {
    var order :| Walks(m - {k}, order, values);
    WalkStep(m, k, order, values);
  }

  lemma {:induction false} LastKey<K, V>(m: map<K, V>, values: seq<V>) returns (k: K, init: seq<V>)
    requires values != [] && multiset(values) == Bag(m)
    ensures k in m && |init| < |values| && values == init + [m[k]] && multiset(init) == Bag(m - {k})
  {
    init := values[..|values| - 1];
    var last := values[|values| - 1];
    LastAside(values);
    assert last in multiset(values);
    BagMember(m, last);
    k :| k in m && m[k] == last;
    BagStep(m, k);
    Cancel(last, multiset(init), Bag(m - {k}));
  }

  /** Values that are those of a map, as often as they occur there, can be matched with its keys. */
  lemma {:induction false} BagMatches<K(!new), V>(m: map<K, V>, values: seq<V>)
    requires multiset(values) == Bag(m)
    ensures Matched(m, values)
    decreases |values|
  {
    if values == [] {
      BagEmpty(m);
      MatchedNone(m, values);
    } else {
      var k, init := LastKey(m, values);
      BagMatches(m - {k}, init);
      MatchedStep(m, k, init);
    }
  }

  lemma {:induction false} BagEmpty<K, V>(m: map<K, V>)
    requires Bag(m) == multiset{}
    ensures m == map[]
  {}

  lemma {:induction false} Cancel<V>(x: V, a: multiset<V>, b: multiset<V>)
    requires multiset{x} + a == multiset{x} + b
    ensures a == b
  {
    assert multiset{x} + a - multiset{x} == a;
    assert multiset{x} + b - multiset{x} == b;
  }

  /** The service ports in the order in which they are rendered. */
  lemma {:induction false} RenderedOrder(node: EdgeNode, scheduler: string, servers: seq<VirtualServer>)
    returns (order: seq<ServicePortName>)
    requires IsRendering(servers, node, scheduler)
    ensures |order| == |servers| && forall i, j :: 0 <= i < j < |order| ==> order[i] != order[j]
    ensures forall spn :: spn in order <==> spn in node.servicePortMap
    ensures forall i :: 0 <= i < |order| ==>
      order[i] in node.servicePortMap && servers[i] == ServerOf(node, order[i], scheduler)
  {
    var m := ServerMap(node, scheduler);
    BagMatches(m, servers);
    order :| Walks(m, order, servers);
  }

  lemma {:induction false} ServerSays(node: EdgeNode, spn: ServicePortName, scheduler: string)
    requires spn in node.servicePortMap
    ensures
      var v, sp := ServerOf(node, spn, scheduler), node.servicePortMap[spn];
      && v.ip == sp.clusterIP && v.port == sp.port && v.scheduler == scheduler
      && v.sessionAffinity == sp.sessionAffinity && v.stickyMaxAgeSeconds == sp.stickyMaxAgeSeconds
      && multiset(v.realServers) == multiset(Get(node.endpointMap, spn))
    ensures
      var s := ServerOf(node, spn, scheduler).realServers;
      forall i, j :: 0 <= i < j < |s| ==>
        !StringLess(s[j].ip, s[i].ip) && (s[i].ip == s[j].ip ==> s[i].port <= s[j].port)
  {
    var s := ServerOf(node, spn, scheduler).realServers;
    forall i, j | 0 <= i < j < |s|
      ensures !StringLess(s[j].ip, s[i].ip) && (s[i].ip == s[j].ip ==> s[i].port <= s[j].port)
    {
      SortedPair(s, Get(node.endpointMap, spn), i, j);
    }
  }

  /** A rendering is the node's service ports in some order, each once: what each server says is what the
      keeper's scheduler, the service port and its endpoints say. */
  lemma {:induction false} RenderedFrom(node: EdgeNode, scheduler: string, servers: seq<VirtualServer>)
    returns (order: seq<ServicePortName>)
    requires IsRendering(servers, node, scheduler)
    ensures |order| == |servers| == |node.servicePortMap|
    ensures forall i, j :: 0 <= i < j < |order| ==> order[i] != order[j]
    ensures forall spn :: spn in order <==> spn in node.servicePortMap
    ensures forall i :: 0 <= i < |servers| ==>
      var v, sp := servers[i], node.servicePortMap[order[i]];
      && v.ip == sp.clusterIP && v.port == sp.port && v.scheduler == scheduler
      && v.sessionAffinity == sp.sessionAffinity && v.stickyMaxAgeSeconds == sp.stickyMaxAgeSeconds
      && multiset(v.realServers) == multiset(Get(node.endpointMap, order[i]))
  {
    order := RenderedOrder(node, scheduler, servers);
    OrderSize(node.servicePortMap.Keys, order);
    forall i | 0 <= i < |servers|
      ensures
        var v, sp := servers[i], node.servicePortMap[order[i]];
        && v.ip == sp.clusterIP && v.port == sp.port && v.scheduler == scheduler
        && v.sessionAffinity == sp.sessionAffinity && v.stickyMaxAgeSeconds == sp.stickyMaxAgeSeconds
        && multiset(v.realServers) == multiset(Get(node.endpointMap, order[i]))
    {
      ServerSays(node, order[i], scheduler);
    }
  }

  /** Servers come by IP and port number. */
  lemma {:induction false} ServersSorted(node: EdgeNode, scheduler: string, servers: seq<VirtualServer>, i: nat, j: nat)
    requires IsRendering(servers, node, scheduler) && i < j < |servers|
    ensures !StringLess(servers[j].ip, servers[i].ip)
    ensures servers[i].ip == servers[j].ip ==> servers[i].port.number <= servers[j].port.number
  {
    assert !Less(ServerKey(servers[j]), ServerKey(servers[i]));
  }

  /** And so do the real servers of each. */
  lemma {:induction false} RealServersSorted(node: EdgeNode, scheduler: string, servers: seq<VirtualServer>,
                                             k: nat, i: nat, j: nat)
    requires IsRendering(servers, node, scheduler) && k < |servers| && i < j < |servers[k].realServers|
    ensures
      var a, b := servers[k].realServers[i], servers[k].realServers[j];
      !StringLess(b.ip, a.ip) && (a.ip == b.ip ==> a.port <= b.port)
  {
    var order := RenderedOrder(node, scheduler, servers);
    ServerSays(node, order[k], scheduler);
  }

  lemma {:induction false} SortedPair(s: seq<Endpoint>, endpoints: set<Endpoint>, i: nat, j: nat)
    requires IsRealServers(s, endpoints) && i < j < |s|
    ensures !Less(s[j], s[i])
  {
    assert !Less(Self(s[j]), Self(s[i]));
  }

  /** A list without repetitions is as long as the set it lists. */
  lemma {:induction false} OrderSize<K>(keys: set<K>, order: seq<K>)
    requires forall i, j :: 0 <= i < j < |order| ==> order[i] != order[j]
    requires forall k :: k in keys <==> k in order
    ensures |order| == |keys|
    decreases |order|
  {
    if order != [] {
      var init, last := order[..|order| - 1], order[|order| - 1];
      assert order == init + [last] && last in keys;
      OrderSize(keys - {last}, init);
    } else {
      assert keys == {};
    }
  }

  /** Service ports that share a cluster IP and port number render alike. */
  ghost predicate Unambiguous(node: EdgeNode, scheduler: string) {
    forall k <- node.servicePortMap, l <- node.servicePortMap ::
      && node.servicePortMap[k].clusterIP == node.servicePortMap[l].clusterIP
      && node.servicePortMap[k].port.number == node.servicePortMap[l].port.number
      ==> ServerOf(node, k, scheduler) == ServerOf(node, l, scheduler)
  }

  lemma {:induction false} UnambiguousKeys(node: EdgeNode, scheduler: string)
    ensures Unambiguous(node, scheduler) <==> KeysDecide(Bag(ServerMap(node, scheduler)), ServerKey)
  {
    var m := ServerMap(node, scheduler);
    if KeysDecide(Bag(m), ServerKey) {
      forall k, l | k in node.servicePortMap && l in node.servicePortMap
          && ServerKey(ServerOf(node, k, scheduler)) == ServerKey(ServerOf(node, l, scheduler))
        ensures ServerOf(node, k, scheduler) == ServerOf(node, l, scheduler)
      {
        BagMember(m, m[k]);
        BagMember(m, m[l]);
      }
    }
    if Unambiguous(node, scheduler) {
      forall a, b | a in Bag(m) && b in Bag(m) && ServerKey(a) == ServerKey(b)
        ensures a == b
      {
        BagMember(m, a);
        BagMember(m, b);
        var k :| k in m && m[k] == a;
        var l :| l in m && m[l] == b;
      }
    }
  }

  /** Rendering is canonical, whatever order the maps are walked in and however sort breaks ties,
      exactly when service ports that share a cluster IP and port number render alike. */
  lemma {:induction false} CanonicalIff(node: EdgeNode, scheduler: string, servers: seq<VirtualServer>)
    requires IsRendering(servers, node, scheduler)
    ensures Unambiguous(node, scheduler) <==> forall t :: IsRendering(t, node, scheduler) ==> t == servers
  {
    var items := Bag(ServerMap(node, scheduler));
    SortUniqueIff(items, servers, ServerKey);
    UnambiguousKeys(node, scheduler);
    if forall t :: IsRendering(t, node, scheduler) ==> t == servers {
      forall t | IsSort(t, items, ServerKey)
        ensures t == servers
      {
        assert IsRendering(t, node, scheduler);
      }
    }
  }

  /** One port number under two protocols, as a DNS service has it, always renders in two ways. */
  lemma {:induction false} TwoProtocolsClash(node: EdgeNode, scheduler: string, servers: seq<VirtualServer>,
                                             k: ServicePortName, l: ServicePortName)
    returns (other: seq<VirtualServer>)
    requires IsRendering(servers, node, scheduler) && k in node.servicePortMap && l in node.servicePortMap
    requires
      var a, b := node.servicePortMap[k], node.servicePortMap[l];
      a.clusterIP == b.clusterIP && a.port.number == b.port.number && a.port.protocol != b.port.protocol
    ensures IsRendering(other, node, scheduler) && other != servers
  {
    var m := ServerMap(node, scheduler);
    BagMember(m, m[k]);
    BagMember(m, m[l]);
    other := SecondSort(Bag(m), servers, m[k], m[l], ServerKey);
  }

  /** A node in which every service port has a backend renders without empty servers. */
  lemma {:induction false} RenderedServersHaveBackends(node: EdgeNode, scheduler: string, servers: seq<VirtualServer>,
                                                       i: nat)
    requires IsRendering(servers, node, scheduler) && i < |servers|
    requires forall spn <- node.servicePortMap :: Get(node.endpointMap, spn) != {}
    ensures servers[i].realServers != []
  {
    var m := ServerMap(node, scheduler);
    assert servers[i] in multiset(servers);
    BagMember(m, servers[i]);
    var k :| k in m && m[k] == servers[i];
    var endpoints := Get(node.endpointMap, k);
    assert |multiset(SortedSet(endpoints))| == |multiset(endpoints)|;
  }
}
