/** The kernel as the netlink calls of pkg/network/vxlan.go and pkg/nodesync/hostgw.go see it:
    tables changed in place, and the error text each call returns. */
module Kernel {
  import opened IPv4
  import opened Subnets
  import opened Vxlan
  import Cluster

  /** No error, "file exists", "no such process", "no such file or directory", or any other. */
  datatype Errno = OK | EEXIST | ESRCH | ENOENT | EOTHER

  /** isEEXISTErr and isEEXIST. */
  predicate IsExists(e: Errno) { e.EEXIST? }

  /** isENOENTErr and isENOENT: despite their names they match "no such process" only. */
  predicate IsMissing(e: Errno) { e.ESRCH? }

  /** The tables behind the VXLAN interface. Each call is told whether it fails for a reason of
      its own, in which case it changes nothing. */
  class Tunnel {
    var routes: map<Subnet, IP>
    var arp: map<IP, MAC>
    var fdb: map<MAC, IP>

    constructor ()
      ensures Contents() == EMPTY
    {
      routes, arp, fdb := map[], map[], map[];
    }

    ghost function Contents(): Tables
      reads this
    {
      Tables(routes, arp, fdb)
    }

    method LinkByName(fails: bool) returns (e: Errno)
      ensures e == if fails then EOTHER else OK
    {
      return if fails then EOTHER else OK;
    }

    /** Exclusive: an existing route for the prefix is an error. */
    method RouteAdd(dst: Subnet, gw: IP, fails: bool) returns (e: Errno)
      modifies this`routes
      ensures e == if fails then EOTHER else if dst in old(routes) then EEXIST else OK
      ensures routes == if e.OK? then old(routes)[dst := gw] else old(routes)
    {
      if fails { return EOTHER; }
      if dst in routes { return EEXIST; }
      routes := routes[dst := gw];
      return OK;
    }

    method RouteDel(dst: Subnet, fails: bool) returns (e: Errno)
      modifies this`routes
      ensures e == if fails then EOTHER else if dst !in old(routes) then ESRCH else OK
      ensures routes == if fails then old(routes) else old(routes) - {dst}
    {
      if fails { return EOTHER; }
      if dst !in routes { return ESRCH; }
      routes := routes - {dst};
      return OK;
    }

    /** Upsert of a permanent neighbour. */
    method NeighSet(ip: IP, mac: MAC, fails: bool) returns (e: Errno)
      modifies this`arp
      ensures e == if fails then EOTHER else OK
      ensures arp == if fails then old(arp) else old(arp)[ip := mac]
    {
      if fails { return EOTHER; }
      arp := arp[ip := mac];
      return OK;
    }

    method NeighDel(ip: IP, fails: bool) returns (e: Errno)
      modifies this`arp
      ensures e == if fails then EOTHER else if ip !in old(arp) then ENOENT else OK
      ensures arp == if e.OK? then old(arp) - {ip} else old(arp)
    {
      if fails { return EOTHER; }
      if ip !in arp { return ENOENT; }
      arp := arp - {ip};
      return OK;
    }

    /** Upsert of a permanent FDB entry. */
    method FdbSet(mac: MAC, dst: IP, fails: bool) returns (e: Errno)
      modifies this`fdb
      ensures e == if fails then EOTHER else OK
      ensures fdb == if fails then old(fdb) else old(fdb)[mac := dst]
    {
      if fails { return EOTHER; }
      fdb := fdb[mac := dst];
      return OK;
    }

    /** Removes the entry only if its destination is the one named. */
    method FdbDel(mac: MAC, dst: IP, fails: bool) returns (e: Errno)
      modifies this`fdb
      ensures e == if fails then EOTHER
                   else if mac in old(fdb) && old(fdb)[mac] == dst then OK else ENOENT
      ensures fdb == if e.OK? then old(fdb) - {mac} else old(fdb)
    {
      if fails { return EOTHER; }
      if mac !in fdb || fdb[mac] != dst { return ENOENT; }
      fdb := fdb - {mac};
      return OK;
    }
  }

  /** AddVXLANPeer: three kernel calls in order, stopping at the first error. */
  method AddVXLANPeer(k: Tunnel, remotePodCIDR: Subnet, remoteNodeIP: IP, f: Fail) returns (ok: bool)
    modifies k
    ensures (k.Contents(), ok) == AddPeer(old(k.Contents()), Cluster.Target(remotePodCIDR, remoteNodeIP), f)
    ensures ok <==> !f.link && !f.route && !f.arp && !f.fdb
    ensures k.routes == if f.link || f.route || remotePodCIDR in old(k.routes) then old(k.routes)
                        else old(k.routes)[remotePodCIDR := VtepIP(remotePodCIDR)]
    ensures k.arp == if f.link || f.route || f.arp then old(k.arp)
                     else old(k.arp)[VtepIP(remotePodCIDR) := VtepMAC(remotePodCIDR)]
    ensures k.fdb == if ok then old(k.fdb)[VtepMAC(remotePodCIDR) := remoteNodeIP] else old(k.fdb)
  {
    var e := k.LinkByName(f.link);
    if !e.OK? { return false; }

    var remoteVTEPIP := VtepIP(remotePodCIDR);
    var remoteMAC := VTEPMAC(remoteVTEPIP);

    e := k.RouteAdd(remotePodCIDR, remoteVTEPIP, f.route);
    if !e.OK? && !IsExists(e) { return false; }

    e := k.NeighSet(remoteVTEPIP, remoteMAC, f.arp);
    if !e.OK? { return false; }

    e := k.FdbSet(remoteMAC, remoteNodeIP, f.fdb);
    return e.OK?;
  }

  /** DelVXLANPeer: the same three in order; only a missing route is taken for success. */
  method DelVXLANPeer(k: Tunnel, remotePodCIDR: Subnet, remoteNodeIP: IP, f: Fail) returns (ok: bool)
    modifies k
    ensures (k.Contents(), ok) == DelPeer(old(k.Contents()), Cluster.Target(remotePodCIDR, remoteNodeIP), f)
    ensures ok <==> !f.link && !f.route && !f.arp && !f.fdb && VtepIP(remotePodCIDR) in old(k.arp) &&
                    VtepMAC(remotePodCIDR) in old(k.fdb) && old(k.fdb)[VtepMAC(remotePodCIDR)] == remoteNodeIP
    ensures k.routes == if f.link || f.route then old(k.routes) else old(k.routes) - {remotePodCIDR}
    ensures k.arp == if f.link || f.route || f.arp then old(k.arp) else old(k.arp) - {VtepIP(remotePodCIDR)}
    ensures k.fdb == if ok then old(k.fdb) - {VtepMAC(remotePodCIDR)} else old(k.fdb)
  {
    var e := k.LinkByName(f.link);
    if !e.OK? { return false; }

    var remoteVTEPIP := VtepIP(remotePodCIDR);
    var remoteMAC := VTEPMAC(remoteVTEPIP);

    e := k.RouteDel(remotePodCIDR, f.route);
    if !e.OK? && !IsMissing(e) { return false; }

    e := k.NeighDel(remoteVTEPIP, f.arp);
    if !e.OK? && !IsMissing(e) { return false; }

    e := k.FdbDel(remoteMAC, remoteNodeIP, f.fdb);
    return e.OK? || IsMissing(e);
  }

  /** The main route table as the host-gateway backend uses it. */
  class RouteTable {
    var routes: map<Subnet, IP>

    method RouteAdd(dst: Subnet, gw: IP, fails: bool) returns (e: Errno)
      modifies this
      ensures e == if fails then EOTHER else if dst in old(routes) then EEXIST else OK
      ensures routes == if e.OK? then old(routes)[dst := gw] else old(routes)
    {
      if fails { return EOTHER; }
      if dst in routes { return EEXIST; }
      routes := routes[dst := gw];
      return OK;
    }

    /** Removes the route only if its gateway is the one named. */
    method RouteDel(dst: Subnet, gw: IP, fails: bool) returns (e: Errno)
      modifies this
      ensures e == if fails then EOTHER
                   else if dst in old(routes) && old(routes)[dst] == gw then OK else ESRCH
      ensures routes == if e.OK? then old(routes) - {dst} else old(routes)
    {
      if fails { return EOTHER; }
      if dst !in routes || routes[dst] != gw { return ESRCH; }
      routes := routes - {dst};
      return OK;
    }
  }
}
