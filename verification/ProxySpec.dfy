/** The proxy controller and its write queue as a state machine over flat tables. One `Op` is
    one reconcile, one tick of the checker, or one step of the queue's write loop. The classes
    in Proxy.dfy and Keeper.dfy are proved to take these steps on the source's nested maps. */
module ProxySpec {
  import opened Prelude
  import opened ProxyTypes

  datatype Owner = Owner(endpoint: Endpoint, node: NodeName)

  datatype Backing = Backing(port: Port, endpoint: Endpoint)

  datatype Service = Service(
    made: bool,
    clusterIP: IP, sessionAffinity: string, stickyMaxAgeSeconds: int,
    ports: set<Port>, backings: set<Backing>, owners: set<Owner>)

  datatype Tables = Tables(
    services: map<ObjectKey, Service>,
    slices: map<ObjectKey, SliceInfo>,
    nodes: set<NodeName>,
    bindings: set<Binding>,
    rules: set<Rule>)

  /** The rules of one node. */
  datatype View = View(bindings: set<Binding>, rules: set<Rule>)

  /** A queue entry shares the maps of the node it was made from. While that node is in the node set
      they hold its present rules; once it is removed, at step `asOf`, nothing changes them any more. */
  datatype Ref = Live | Frozen(asOf: nat, view: View)

  /** `stamp` numbers the step that queued the entry; the source has no such number, it is here so that
      "newer" can be said. */
  datatype Entry = Entry(stamp: nat, ref: Ref)

  /** What was written from an entry: the rules its node had just before step `asOf`. */
  datatype Written = Written(stamp: nat, asOf: nat, view: View)

  type Entries = map<NodeName, Entry>

  /** `pending` is the keeper's node set, `batch` what its write loop has taken and not yet
      written, `written` what it wrote last for each node. */
  datatype Queue = Queue(pending: Entries, batch: Entries, written: map<NodeName, Written>)

  datatype System = System(now: nat, tables: Tables, queue: Queue)

  datatype ServiceSpec = ServiceSpec(clusterIP: IP, sessionAffinity: string, stickyMaxAgeSeconds: int)

  datatype Op =
    | AddNode(node: NodeName)
    | RemoveNode(node: NodeName)
    | UpdateService(service: ObjectKey, spec: ServiceSpec)
    | CleanupService(service: ObjectKey)
    | UpdateSlice(slice: SliceInfo, spec: ServiceSpec)
    | DeleteSlice(key: ObjectKey)
    | CheckNode(node: NodeName)
    | TakeBatch
    | WriteNode(node: NodeName, ok: bool)

  const EMPTY := System(0, Tables(map[], map[], {}, {}, {}), Queue(map[], map[], map[]))

  const ZERO_SERVICE := Service(false, "", "", 0, {}, {}, {})

  function ServiceOrZero(services: map<ObjectKey, Service>, k: ObjectKey): Service {
    if k in services then services[k] else ZERO_SERVICE
  }

  // ---------- sets of rules ----------

  /** The rules an endpoint slice asks for. */
  function RulesOf(es: SliceInfo): (r: set<Rule>)
    ensures forall x :: x in r <==>
      && x.slot.spn.service == es.serviceKey
      && x.slot.spn.port in es.ports
      && x.endpoint.port == x.slot.spn.port.number
      && x.endpoint.ip in es.endpoints
      && es.endpoints[x.endpoint.ip] == x.slot.node
  {
    set p, ip | p in es.ports && ip in es.endpoints ::
      Rule(Slot(es.endpoints[ip], ServicePortName(es.serviceKey, p)), Endpoint(ip, p.number))
  }

  /** The rules the removal loop takes away when `next` replaces `prev`. The loop looks them up
      under the service of `next`. */
  function Dropped(prev: SliceInfo, next: SliceInfo): (r: set<Rule>) {
    set x | x in RulesOf(prev.(serviceKey := next.serviceKey))
            && (x.slot.spn.port !in next.ports || x.endpoint.ip !in next.endpoints)
  }

  function Slots(rules: set<Rule>): (r: set<Slot>)
    ensures forall x <- rules :: x.slot in r
  {
    set x | x in rules :: x.slot
  }

  function NodesOf(rules: set<Rule>): (r: set<NodeName>) {
    set x | x in rules :: x.slot.node
  }

  function EndpointsOf(rules: set<Rule>): (r: set<Endpoint>) {
    set x | x in rules :: x.endpoint
  }

  function BackingsOf(rules: set<Rule>): (r: set<Backing>) {
    set x | x in rules :: Backing(x.slot.spn.port, x.endpoint)
  }

  function OwnersOf(rules: set<Rule>): (r: set<Owner>) {
    set x | x in rules :: Owner(x.endpoint, x.slot.node)
  }

  predicate HasRule(rules: set<Rule>, slot: Slot) {
    exists x <- rules :: x.slot == slot
  }

  predicate HasBacking(backings: set<Backing>, port: Port) {
    exists b <- backings :: b.port == port
  }

  // ---------- sets of bindings ----------

  function Unbind(bindings: set<Binding>, slots: set<Slot>): set<Binding> {
    set b | b in bindings && b.slot !in slots
  }

  function MakeServicePort(svc: Service, port: Port): ServicePort {
    ServicePort(svc.clusterIP, port, svc.sessionAffinity, svc.stickyMaxAgeSeconds)
  }

  function Bind(bindings: set<Binding>, svc: Service, slots: set<Slot>): set<Binding> {
    Unbind(bindings, slots) + set k | k in slots :: Binding(k, MakeServicePort(svc, k.spn.port))
  }

  /** The slots the removal loop closes: their port left the slice, or no rule is left. */
  function Closed(dropped: set<Rule>, ports: set<Port>, left: set<Rule>): set<Slot> {
    set x | x in dropped && (x.slot.spn.port !in ports || !HasRule(left, x.slot)) :: x.slot
  }

  // ---------- one slice sync ----------

  function Disown(owners: set<Owner>, endpoints: set<Endpoint>): set<Owner> {
    set o | o in owners && o.endpoint !in endpoints
  }

  function AddToService(svc: Service, ports: set<Port>, added: set<Rule>): Service {
    svc.(ports := svc.ports + ports,
         backings := svc.backings + BackingsOf(added),
         owners := Disown(svc.owners, EndpointsOf(added)) + OwnersOf(added))
  }

  function RemoveFromService(svc: Service, ports: set<Port>, dropped: set<Rule>): Service {
    var left := svc.backings - BackingsOf(dropped);
    svc.(ports := (set p | p in svc.ports && (p !in ports || HasBacking(left, p))),
         backings := left,
         owners := Disown(svc.owners, EndpointsOf(dropped)))
  }

  /** The nodes a slice sync queues. */
  function ChangedNodes(rules: set<Rule>, added: set<Rule>, dropped: set<Rule>, serviceChanged: bool): set<NodeName> {
    NodesOf(if serviceChanged then added else added - rules) + NodesOf(dropped)
  }

  predicate Unchanged(t: Tables, next: SliceInfo) {
    next.key in t.slices && t.slices[next.key] == next
  }

  function SyncSlice(t: Tables, next: SliceInfo): Tables {
    if Unchanged(t, next) then t else
    var svc := ServiceOrZero(t.services, next.serviceKey);
    var prev := SliceOrZero(t.slices, next.key);
    var added, dropped := RulesOf(next), Dropped(prev, next);
    var rules := t.rules + added - dropped;
    Tables(
      t.services[next.serviceKey :=
                   RemoveFromService(AddToService(svc, next.ports, added), prev.ports, dropped)],
      t.slices[next.key := next],
      t.nodes + NodesOf(added),
      Unbind(Bind(t.bindings, svc, Slots(added)), Closed(dropped, next.ports, rules)),
      rules)
  }

  function QueuedBySlice(t: Tables, next: SliceInfo, serviceChanged: bool): set<NodeName> {
    if Unchanged(t, next) then {}
    else ChangedNodes(t.rules, RulesOf(next), Dropped(SliceOrZero(t.slices, next.key), next), serviceChanged)
  }

  // ---------- services and nodes ----------

  predicate ServiceChanged(t: Tables, k: ObjectKey, spec: ServiceSpec) {
    var svc := ServiceOrZero(t.services, k);
    ServiceSpec(svc.clusterIP, svc.sessionAffinity, svc.stickyMaxAgeSeconds) != spec
  }

  function SyncService(t: Tables, k: ObjectKey, spec: ServiceSpec): Tables {
    if !ServiceChanged(t, k, spec) then t else
    t.(services := t.services[k := ServiceOrZero(t.services, k).(
         made := true, clusterIP := spec.clusterIP,
         sessionAffinity := spec.sessionAffinity, stickyMaxAgeSeconds := spec.stickyMaxAgeSeconds)])
  }

  function OwnerNodes(svc: Service): set<NodeName> {
    set o | o in svc.owners :: o.node
  }

  /** The slots a service cleanup empties: each port of the service on each node it knows of. */
  predicate Cleaned(k: ObjectKey, svc: Service, slot: Slot) {
    slot.spn.service == k && slot.spn.port in svc.ports && slot.node in OwnerNodes(svc)
  }

  function Cleanup(t: Tables, k: ObjectKey): Tables {
    if k !in t.services then t else
    t.(services := t.services - {k},
       bindings := (set b | b in t.bindings && !Cleaned(k, t.services[k], b.slot)),
       rules := (set r | r in t.rules && !Cleaned(k, t.services[k], r.slot)))
  }

  function DropNode(t: Tables, n: NodeName): Tables {
    t.(nodes := t.nodes - {n},
       bindings := (set b | b in t.bindings && b.slot.node != n),
       rules := (set r | r in t.rules && r.slot.node != n))
  }

  function Emptied(es: SliceInfo): SliceInfo {
    es.(ports := {}, endpoints := map[])
  }

  /** A deleted slice is synced as an empty one and then forgotten. */
  function ForgetSlice(t: Tables, k: ObjectKey): Tables {
    if k !in t.slices then t
    else var u := SyncSlice(t, Emptied(t.slices[k])); u.(slices := u.slices - {k})
  }

  // ---------- the queue ----------

  function ViewOf(t: Tables, n: NodeName): View {
    View((set b | b in t.bindings && b.slot.node == n), (set r | r in t.rules && r.slot.node == n))
  }

  ghost function Enqueue(q: Queue, t: Tables, names: set<NodeName>, now: nat): Queue {
    q.(pending := q.pending + Constant(names * t.nodes, Entry(now, Live)))
  }

  lemma EnqueueNothing(q: Queue, t: Tables, now: nat)
    ensures Enqueue(q, t, {}, now) == q
  {}

  function EnqueueIfAbsent(q: Queue, n: NodeName, e: Entry): Queue {
    if n in q.pending then q else q.(pending := q.pending[n := e])
  }

  /** An entry whose node is removed keeps the rules the node had. */
  function Detach(m: Entries, n: NodeName, asOf: nat, view: View): Entries {
    if n in m && m[n].ref.Live? then m[n := m[n].(ref := Frozen(asOf, view))] else m
  }

  function DetachBoth(q: Queue, n: NodeName, asOf: nat, view: View): Queue {
    q.(pending := Detach(q.pending, n, asOf, view), batch := Detach(q.batch, n, asOf, view))
  }

  /** A new round starts only when the previous one is done: there is one write loop. */
  function Take(q: Queue): Queue {
    if q.batch != map[] then q else q.(pending := map[], batch := q.pending)
  }

  /** What writing an entry writes: the rules its maps hold at that moment. */
  function Render(e: Entry, view: View, now: nat): Written {
    if e.ref.Live? then Written(e.stamp, now, view) else Written(e.stamp, e.ref.asOf, e.ref.view)
  }

  /** A failed write puts the entry back unless a newer one is waiting. `view` is what the node has. */
  function Write(q: Queue, n: NodeName, ok: bool, view: View, now: nat): Queue {
    if n !in q.batch then q
    else if ok then q.(batch := q.batch - {n}, written := q.written[n := Render(q.batch[n], view, now)])
    else EnqueueIfAbsent(q, n, q.batch[n]).(batch := q.batch - {n})
  }

  // ---------- steps and runs ----------

  function ApplyTables(t: Tables, op: Op): Tables {
    match op
    case AddNode(n) => t.(nodes := t.nodes + {n})
    case RemoveNode(n) => DropNode(t, n)
    case UpdateService(k, spec) => SyncService(t, k, spec)
    case CleanupService(k) => Cleanup(t, k)
    case UpdateSlice(es, spec) => SyncSlice(SyncService(t, es.serviceKey, spec), es)
    case DeleteSlice(k) => ForgetSlice(t, k)
    case _ => t
  }

  /** The nodes a step hands to the queue. */
  function Queued(t: Tables, op: Op): set<NodeName> {
    match op
    case UpdateService(k, spec) =>
      if ServiceChanged(t, k, spec) then OwnerNodes(ServiceOrZero(t.services, k)) else {}
    case CleanupService(k) => OwnerNodes(ServiceOrZero(t.services, k))
    case UpdateSlice(es, spec) =>
      QueuedBySlice(t, es, ServiceChanged(t, es.serviceKey, spec))
    case DeleteSlice(k) =>
      if k in t.slices then QueuedBySlice(t, Emptied(t.slices[k]), false) else {}
    case _ => {}
  }

  /** What a step does to the queue itself; `t` are the tables before the step. */
  function ApplyQueue(q: Queue, t: Tables, op: Op, now: nat): Queue {
    match op
    case RemoveNode(n) => if n in t.nodes then DetachBoth(q, n, now, ViewOf(t, n)) else q
    case CheckNode(n) => if n in t.nodes then EnqueueIfAbsent(q, n, Entry(now, Live)) else q
    case TakeBatch => Take(q)
    case WriteNode(n, ok) => Write(q, n, ok, ViewOf(t, n), now)
    case _ => q
  }

  ghost function Apply(s: System, op: Op): System {
    var t := ApplyTables(s.tables, op);
    System(s.now + 1, t, Enqueue(ApplyQueue(s.queue, s.tables, op, s.now), t, Queued(s.tables, op), s.now))
  }

  ghost function Run(s: System, ops: seq<Op>): System
    decreases |ops|
  {
    if ops == [] then s else Apply(Run(s, ops[..|ops| - 1]), ops[|ops| - 1])
  }

  /** Every step of the run satisfies `guard` in the state it is taken in. */
  ghost predicate Along(s: System, ops: seq<Op>, guard: (System, Op) -> bool)
    decreases |ops|
  {
    ops == [] ||
    (var init := ops[..|ops| - 1];
     Along(s, init, guard) && guard(Run(s, init), ops[|ops| - 1]))
  }

  // ---------- steps the controller can take ----------

  /** What can be taken over from a service that is not skipped. */
  predicate RealSpec(spec: ServiceSpec) {
    && spec.clusterIP != "" && spec.clusterIP != "None"
    && (spec.sessionAffinity == "ClientIP" || spec.stickyMaxAgeSeconds == 0)
  }

  /** What can be recorded of a slice: its service is in its namespace, its endpoints on known nodes. */
  predicate RealSlice(es: SliceInfo, nodes: set<NodeName>) {
    && es.serviceKey.namespace == es.key.namespace && es.serviceKey.name != ""
    && es.endpoints.Values <= nodes
  }

  /** A step the controller or its keeper can take in this state. */
  predicate Real(s: System, op: Op) {
    match op
    case UpdateService(_, spec) => RealSpec(spec)
    case UpdateSlice(es, spec) => RealSlice(es, s.tables.nodes) && RealSpec(spec)
    case CheckNode(n) => n in s.tables.nodes
    case TakeBatch => s.queue.batch == map[]
    case WriteNode(n, _) => n in s.queue.batch
    case _ => true
  }

  /** A run the controller and its keeper can take. */
  ghost predicate RealRun(ops: seq<Op>)
    decreases |ops|
  {
    ops == [] || (RealRun(ops[..|ops| - 1]) && Real(Run(EMPTY, ops[..|ops| - 1]), ops[|ops| - 1]))
  }
}
