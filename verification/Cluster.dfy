/** Node objects and the order in which the informer delivers them (pkg/nodesync/nodesync.go and
    the handler registration of pkg/nodesync/vxlan.go and hostgw.go). */
module Cluster {
  import opened Wrappers
  import opened IPv4
  import opened Subnets

  datatype AddressType = InternalIP | ExternalIP | Hostname

  datatype NodeAddress = NodeAddress(kind: AddressType, address: string)

  datatype Node = Node(name: string, podCIDR: string, addresses: seq<NodeAddress>)

  /** internalIP: the first address of that type, or the empty string. */
  function InternalAddress(n: Node): string {
    FirstInternal(n.addresses)
  }

  function FirstInternal(a: seq<NodeAddress>): string {
    if a == [] then ""
    else if a[0].kind.InternalIP? then a[0].address
    else FirstInternal(a[1..])
  }

  /** nodeRoute: what a controller remembers having programmed for a node. */
  datatype NodeRoute = NodeRoute(podCIDR: string, nodeIP: string)

  function RouteOf(n: Node): NodeRoute {
    NodeRoute(n.podCIDR, InternalAddress(n))
  }

  /** A parsed pod CIDR and node IP. */
  datatype Target = Target(cidr: Subnet, nodeIP: IP)

  /** What the helpers of both controllers parse before they touch the kernel. */
  function Parse(r: NodeRoute): Option<Target> {
    match ParseCIDR(r.podCIDR)
    case None => None
    case Some(cidr) =>
      match ParseIP(r.nodeIP)
      case None => None
      case Some(ip) => Some(Target(cidr, ip))
  }

  /** The address at this index is internal and none before it is. */
  predicate InternalAt(a: seq<NodeAddress>, k: nat) {
    k < |a| && a[k].kind.InternalIP? && forall j :: 0 <= j < k ==> !a[j].kind.InternalIP?
  }

  /** internalIP: the loop over the node's addresses finds the first internal one; external addresses
      and host names are passed over. */
  method FindInternalIP(node: Node) returns (address: string)
    ensures address == InternalAddress(node)
    ensures (forall i :: 0 <= i < |node.addresses| ==> !node.addresses[i].kind.InternalIP?) ==> address == ""
    ensures forall k: nat :: InternalAt(node.addresses, k) ==> address == node.addresses[k].address
    ensures (exists k: nat :: InternalAt(node.addresses, k)) <==>
              exists i :: 0 <= i < |node.addresses| && node.addresses[i].kind.InternalIP?
  {
    var i := 0;
    while i < |node.addresses|
      invariant 0 <= i <= |node.addresses|
      invariant forall j :: 0 <= j < i ==> !node.addresses[j].kind.InternalIP?
      invariant FirstInternal(node.addresses[i..]) == InternalAddress(node)
    {
      if node.addresses[i].kind.InternalIP? {
        assert InternalAt(node.addresses, i);
        return node.addresses[i].address;
      }
      i := i + 1;
    }
    return "";
  }

  /** A node whose CIDR or IP is missing is skipped. */
  predicate Incomplete(r: NodeRoute) {
    r.podCIDR == "" || r.nodeIP == ""
  }

  lemma EmptyDoesNotParse(r: NodeRoute)
    requires Incomplete(r)
    ensures Parse(r).None?
  {
  }

  /** The last delivered object of every node that exists. */
  type Live = map<string, Node>

  /** A deletion may carry a tombstone: an object older than the last delivered one. */
  datatype Event = Added(n: Node) | Updated(prev: Node, n: Node) | Deleted(n: Node)

  /** An event together with the kernel failures its handler will meet. */
  datatype Stimulus<F> = Stimulus(e: Event, f: F)

  predicate InOrder(live: Live, e: Event) {
    match e
    case Added(n) => n.name !in live
    case Updated(p, n) => p.name in live && live[p.name] == p && n.name == p.name
    case Deleted(n) => n.name in live
  }

  function Deliver(live: Live, e: Event): Live {
    if e.Deleted? then live - {e.n.name} else live[e.n.name := e.n]
  }

  /** The target of a live node other than the node itself, if it has one. */
  function TargetOf(self: string, live: Live, name: string): Option<Target> {
    if name in live && name != self then Parse(RouteOf(live[name])) else None
  }

  ghost predicate DisjointTargets(self: string, live: Live) {
    forall m, n :: m != n && TargetOf(self, live, m).Some? && TargetOf(self, live, n).Some? ==>
      Disjoint(TargetOf(self, live, m).value.cidr, TargetOf(self, live, n).value.cidr)
  }

  /** Informer order, and pairwise disjoint pod CIDRs after every event. */
  ghost predicate Legal<F>(self: string, live: Live, run: seq<Stimulus<F>>)
    decreases |run|
  {
    run == [] ||
    (InOrder(live, run[0].e) && DisjointTargets(self, Deliver(live, run[0].e)) &&
     Legal(self, Deliver(live, run[0].e), run[1..]))
  }

  function LiveAfter<F>(live: Live, run: seq<Stimulus<F>>): Live
    decreases |run|
  {
    if run == [] then live else LiveAfter(Deliver(live, run[0].e), run[1..])
  }

  /** The initial list: only additions. */
  predicate Replay<F>(run: seq<Stimulus<F>>) {
    forall i :: 0 <= i < |run| ==> run[i].e.Added?
  }

  lemma DropOne(self: string, live: Live, name: string, m: string)
    ensures TargetOf(self, live - {name}, m) == if m == name then None else TargetOf(self, live, m)
  {
  }

  lemma SameOthers(live: Live, e: Event)
    ensures Deliver(live, e) - {e.n.name} == live - {e.n.name}
    ensures e.Deleted? ==> Deliver(live, e) == live - {e.n.name}
  {
  }

  lemma DistinctBases(self: string, live: Live, m: string, n: string)
    requires DisjointTargets(self, live) && m != n
    requires TargetOf(self, live, m).Some? && TargetOf(self, live, n).Some?
    ensures TargetOf(self, live, m).value.cidr.base != TargetOf(self, live, n).value.cidr.base
  {
    DisjointBases(TargetOf(self, live, m).value.cidr, TargetOf(self, live, n).value.cidr);
  }

  /** The nodes whose latest addition, or change of strings, met no failure while adding. */
  function AttemptedBy<F>(works: F -> bool, done: set<string>, x: Stimulus<F>): set<string> {
    if x.e.Updated? && RouteOf(x.e.prev) == RouteOf(x.e.n) then done
    else if x.e.Deleted? || !works(x.f) then done - {x.e.n.name}
    else done + {x.e.n.name}
  }

  function Attempted<F>(works: F -> bool, done: set<string>, run: seq<Stimulus<F>>): set<string>
    decreases |run|
  {
    if run == [] then done else Attempted(works, AttemptedBy(works, done, run[0]), run[1..])
  }

  // ----- printed CIDRs -----

  /** IPNet.String: what Kubernetes writes into a node's spec. */
  function PrintCIDR(s: Subnet): string {
    Print(Uint32ToIP(s.base)) + "/" + PrintOctet(s.ones)
  }

  /** Every subnet's printed form parses back to it. */
  lemma PrintThenParseCIDR(s: Subnet)
    ensures ParseCIDR(PrintCIDR(s)) == Some(s)
  {
    hide Print, DigitsValue, PrintOctet;
    FromUint32(s.base);
    OctetDecimal(s.ones);
    ContainsBase(s);
    CIDRParses(PrintCIDR(s), Uint32ToIP(s.base), PrintOctet(s.ones), s);
  }

  // ----- nodes with a given target -----

  function NodeAt(name: string, c: Subnet, ip: IP): Node {
    Node(name, PrintCIDR(c), [NodeAddress(InternalIP, Print(ip))])
  }

  lemma NodeAtName(name: string, c: Subnet, ip: IP)
    ensures NodeAt(name, c, ip).name == name
  {
  }

  lemma NodeAtTarget(name: string, c: Subnet, ip: IP)
    ensures Parse(RouteOf(NodeAt(name, c, ip))) == Some(Target(c, ip))
    ensures !Incomplete(RouteOf(NodeAt(name, c, ip)))
  {
    hide PrintCIDR, Print, ParseCIDR, ParseIP;
    PrintThenParseCIDR(c);
    PrintThenParse(ip);
    assert FirstInternal([NodeAddress(InternalIP, Print(ip))]) == Print(ip);
    if Incomplete(RouteOf(NodeAt(name, c, ip))) {
      EmptyDoesNotParse(RouteOf(NodeAt(name, c, ip)));
    }
  }
}
