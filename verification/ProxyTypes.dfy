/** The tables of the proxy controller, twice: nested as the source keeps them, and flat,
    which is the form the specification reasons about. Go maps that are mutated through a
    reference are value maps here; every place that mutates one writes the new value back. */
module ProxyTypes {

  type NodeName = string
  type IP = string

  datatype ObjectKey = ObjectKey(namespace: string, name: string)

  datatype Port = Port(protocol: string, number: int)

  /** A backend. Like the source's, it carries the port number but not the protocol. */
  datatype Endpoint = Endpoint(ip: IP, port: int)

  datatype ServicePortName = ServicePortName(service: ObjectKey, port: Port)

  datatype ServicePort = ServicePort(
    clusterIP: IP, port: Port, sessionAffinity: string, stickyMaxAgeSeconds: int)

  /** `made` says whether the two maps have been allocated: writing to an unallocated Go map
      panics, reading from one finds nothing. */
  datatype ServiceInfo = ServiceInfo(
    made: bool,
    clusterIP: IP, sessionAffinity: string, stickyMaxAgeSeconds: int,
    endpointMap: map<Port, set<Endpoint>>,
    endpointToNodes: map<Endpoint, NodeName>)

  /** The recorded form of an endpoint slice. `endpoints` maps an IP to the node it sits on. */
  datatype SliceInfo = SliceInfo(
    key: ObjectKey, serviceKey: ObjectKey, ports: set<Port>, endpoints: map<IP, NodeName>)

  datatype EdgeNode = EdgeNode(
    name: NodeName,
    servicePortMap: map<ServicePortName, ServicePort>,
    endpointMap: map<ServicePortName, set<Endpoint>>)

  type NodeMap = map<NodeName, EdgeNode>

  const NO_SERVICE := ServiceInfo(false, "", "", 0, map[], map[])

  function NewEdgeNode(name: NodeName): EdgeNode {
    EdgeNode(name, map[], map[])
  }

  /** Go's lookup of an absent set: the empty one. */
  function Get<K, V>(m: map<K, set<V>>, k: K): set<V> {
    if k in m then m[k] else {}
  }

  function NodeOrNew(nodes: NodeMap, n: NodeName): EdgeNode {
    if n in nodes then nodes[n] else NewEdgeNode(n)
  }

  function SliceOrZero(slices: map<ObjectKey, SliceInfo>, k: ObjectKey): SliceInfo {
    if k in slices then slices[k] else SliceInfo(k, k, {}, map[])
  }

  /** Node `node` proxies service port `spn`. */
  datatype Slot = Slot(node: NodeName, spn: ServicePortName)

  /** Node `slot.node` sends traffic for `slot.spn` to `endpoint`. */
  datatype Rule = Rule(slot: Slot, endpoint: Endpoint)

  /** Node `slot.node` announces `port` as the virtual server of `slot.spn`. */
  datatype Binding = Binding(slot: Slot, port: ServicePort)
}
