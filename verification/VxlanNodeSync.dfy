/** pkg/nodesync/vxlan.go in its own form: a controller object whose handlers update the peers map
    and the kernel tables in sequence. Every handler is proved against VxlanSync. */
module VxlanNodeSync {
  import opened IPv4
  import opened Subnets
  import opened Cluster
  import opened Vxlan
  import opened VxlanSync
  import opened Kernel

  class VxlanController {
    const nodeName: string
    const kernel: Tunnel
    var peers: Peers

    constructor (nodeName: string, kernel: Tunnel)
      ensures this.nodeName == nodeName && this.kernel == kernel && peers == map[]
    {
      this.nodeName := nodeName;
      this.kernel := kernel;
      peers := map[];
    }

    ghost function State(): Sync
      reads this, kernel
    {
      Sync(peers, kernel.Contents())
    }

    /** A remote node whose CIDR and IP parse, and no failure in adding it. */
    ghost predicate Installs(node: Node, t: Tables, f: Fail) {
      node.name != nodeName && Parse(RouteOf(node)).Some? && f == NOFAIL && Derived(t)
    }

    /** The node is recorded with its strings, and its three entries lead to it. */
    ghost predicate Installed(node: Node)
      reads this, kernel
      requires Parse(RouteOf(node)).Some?
    {
      && node.name in peers && peers[node.name] == RouteOf(node)
      && Programmed(kernel.Contents(), Parse(RouteOf(node)).value)
    }

    method OnNodeAdd(node: Node, f: Fail)
      modifies this, kernel
      ensures State() == OnAdd(nodeName, old(State()), node, f)
      ensures Installs(node, old(kernel.Contents()), f) ==> Installed(node)
      ensures node.name == nodeName || Parse(RouteOf(node)).None? ==> State() == old(State())
    {
      if Installs(node, kernel.Contents(), f) {
        EventInstalls(nodeName, State(), Stimulus(Added(node), Fails(NOFAIL, f)));
      }
      hide Derived, Programmed, AddPeer;
      if node.name == nodeName {
        return;
      }
      var podCIDR := node.podCIDR;
      var nodeIP := FindInternalIP(node);
      if podCIDR == "" || nodeIP == "" {
        return;
      }
      var ok := AddPeerStrings(podCIDR, nodeIP, f);
      if !ok {
        return;
      }
      peers := peers[node.name := NodeRoute(podCIDR, nodeIP)];
    }

    method OnNodeUpdate(prev: Node, node: Node, f: Fails)
      modifies this, kernel
      ensures State() == OnUpdate(nodeName, old(State()), prev, node, f)
      ensures RouteOf(prev) != RouteOf(node) && Installs(node, old(kernel.Contents()), f.add) ==> Installed(node)
      ensures RouteOf(prev) == RouteOf(node) || node.name == nodeName ==> State() == old(State())
    {
      if RouteOf(prev) != RouteOf(node) && Installs(node, kernel.Contents(), f.add) {
        EventInstalls(nodeName, State(), Stimulus(Updated(prev, node), f));
      }
      hide Derived, Programmed, AddPeer, DelPeer;
      if node.name == nodeName {
        return;
      }
      var oldCIDR, newCIDR := prev.podCIDR, node.podCIDR;
      var oldIP := FindInternalIP(prev);
      var newIP := FindInternalIP(node);
      if oldCIDR == newCIDR && oldIP == newIP {
        return;
      }
      if oldCIDR != "" && oldIP != "" {
        DelPeerStrings(oldCIDR, oldIP, f.del);
        peers := peers - {prev.name};
      }
      if newCIDR != "" && newIP != "" {
        var ok := AddPeerStrings(newCIDR, newIP, f.add);
        if !ok {
          return;
        }
        peers := peers[node.name := NodeRoute(newCIDR, newIP)];
      }
    }

    method OnNodeDelete(node: Node, f: Fail)
      modifies this, kernel
      ensures State() == OnDelete(nodeName, old(State()), node, f)
      ensures peers == if node.name == nodeName then old(peers) else old(peers) - {node.name}
      ensures node.name == nodeName || node.name !in old(peers) ==> State() == old(State())
    {
      if node.name == nodeName {
        return;
      }
      if node.name !in peers {
        return;
      }
      var r := peers[node.name];
      DelPeerStrings(r.podCIDR, r.nodeIP, f);
      peers := peers - {node.name};
    }

    /** addPeer: parse, then program. */
    method AddPeerStrings(podCIDR: string, nodeIP: string, f: Fail) returns (ok: bool)
      modifies kernel
      ensures (kernel.Contents(), ok) == AddRoute(old(kernel.Contents()), NodeRoute(podCIDR, nodeIP), f)
    {
      var cidr := ParseCIDR(podCIDR);
      if cidr.None? {
        return false;
      }
      var ip := ParseIP(nodeIP);
      if ip.None? {
        return false;
      }
      ok := AddVXLANPeer(kernel, cidr.value, ip.value, f);
    }

    /** delPeer: the callers only log its error. */
    method DelPeerStrings(podCIDR: string, nodeIP: string, f: Fail)
      modifies kernel
      ensures kernel.Contents() == DelRoute(old(kernel.Contents()), NodeRoute(podCIDR, nodeIP), f)
    {
      var cidr := ParseCIDR(podCIDR);
      if cidr.None? {
        return;
      }
      var ip := ParseIP(nodeIP);
      if ip.None? {
        return;
      }
      var _ := DelVXLANPeer(kernel, cidr.value, ip.value, f);
    }

    /** Any failures: handling one delivered event keeps every recorded peer programmed. */
    method HandleEvent(x: Stimulus<Fails>, ghost live: Live)
      requires DisjointTargets(nodeName, live) && Sound(nodeName, live, State())
      requires InOrder(live, x.e) && DisjointTargets(nodeName, Deliver(live, x.e))
      modifies this, kernel
      ensures State() == Handle(nodeName, old(State()), x)
      ensures Sound(nodeName, Deliver(live, x.e), State())
    {
      hide Sound, DisjointTargets, OnAdd, OnUpdate, OnDelete;
      HandleSound(nodeName, live, State(), x);
      match x.e {
        case Added(n) => OnNodeAdd(n, x.f.add);
        case Updated(prev, n) => OnNodeUpdate(prev, n, x.f);
        case Deleted(n) => OnNodeDelete(n, x.f.del);
      }
    }
  }
}
