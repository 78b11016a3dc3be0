/** Peers of the VXLAN overlay as entries of three kernel tables (pkg/network/vxlan.go) and the
    tunnel lookup over them (section 4.1 of RFC 7348). */
module Vxlan {
  import opened Wrappers
  import opened IPv4
  import opened Arith
  import opened Subnets
  import opened Cluster

  datatype MAC = MAC(m0: Byte, m1: Byte, m2: Byte, m3: Byte, m4: Byte, m5: Byte)

  /** VTEPMAC: 02:00 followed by the four bytes of the network address. */
  function VTEPMAC(ip: IP): MAC {
    MAC(2, 0, ip.b0, ip.b1, ip.b2, ip.b3)
  }

  /** The address a remote node's VTEP has: the network address of its pod CIDR. */
  function VtepIP(c: Subnet): IP {
    Uint32ToIP(c.base)
  }

  function VtepMAC(c: Subnet): MAC {
    VTEPMAC(VtepIP(c))
  }

  /** Routes by destination prefix, permanent neighbours by address, FDB entries by MAC. */
  datatype Tables = Tables(routes: map<Subnet, IP>, arp: map<IP, MAC>, fdb: map<MAC, IP>)

  const EMPTY := Tables(map[], map[], map[])

  /** Which of a helper's four kernel calls fail. */
  datatype Fail = Fail(link: bool, route: bool, arp: bool, fdb: bool)

  const NOFAIL := Fail(false, false, false, false)

  /** AddVXLANPeer: an existing route counts as success, the other two entries are overwritten. */
  function AddPeer(t: Tables, g: Target, f: Fail): (Tables, bool) {
    if f.link || f.route then (t, false)
    else
      var t1 := if g.cidr in t.routes then t else t.(routes := t.routes[g.cidr := VtepIP(g.cidr)]);
      if f.arp then (t1, false)
      else
        var t2 := t1.(arp := t1.arp[VtepIP(g.cidr) := VtepMAC(g.cidr)]);
        if f.fdb then (t2, false)
        else (t2.(fdb := t2.fdb[VtepMAC(g.cidr) := g.nodeIP]), true)
  }

  /** DelVXLANPeer: a missing route counts as success; a missing neighbour or FDB entry does not,
      and stops the deletion. */
  function DelPeer(t: Tables, g: Target, f: Fail): (Tables, bool) {
    if f.link || f.route then (t, false)
    else
      var t1 := t.(routes := t.routes - {g.cidr});
      if f.arp || VtepIP(g.cidr) !in t.arp then (t1, false)
      else
        var t2 := t1.(arp := t1.arp - {VtepIP(g.cidr)});
        var mac := VtepMAC(g.cidr);
        if f.fdb || mac !in t.fdb || t.fdb[mac] != g.nodeIP then (t2, false)
        else (t2.(fdb := t2.fdb - {mac}), true)
  }

  /** A remote VTEP's address is the network address of its CIDR, and its MAC a locally administered
      unicast one whose last four bytes spell that address. */
  lemma VtepSpellsBase(c: Subnet)
    ensures IpToUint32(VtepIP(c)) == c.base
    ensures var m := VtepMAC(c);
            && m.m0 % 4 == 2 && m.m0 < 4 && m.m1 == 0
            && m.m2 * 0x100_0000 + m.m3 * 0x1_0000 + m.m4 * 0x100 + m.m5 == c.base
  {
    FromUint32(c.base);
  }

  // ----- separation of peers -----

  /** Distinct network addresses have distinct VTEP addresses and MACs. */
  lemma VtepsDistinct(c: Subnet, d: Subnet)
    requires c.base != d.base
    ensures VtepIP(c) != VtepIP(d) && VtepMAC(c) != VtepMAC(d)
  {
    FromUint32(c.base);
    FromUint32(d.base);
  }

  /** The three entries of a peer are present and lead to the node. */
  predicate Programmed(t: Tables, g: Target) {
    && g.cidr in t.routes && t.routes[g.cidr] == VtepIP(g.cidr)
    && VtepIP(g.cidr) in t.arp && t.arp[VtepIP(g.cidr)] == VtepMAC(g.cidr)
    && VtepMAC(g.cidr) in t.fdb && t.fdb[VtepMAC(g.cidr)] == g.nodeIP
  }

  /** Every route's gateway is a function of its prefix, and every MAC one of its address. */
  ghost predicate Derived(t: Tables) {
    && (forall c :: c in t.routes ==> t.routes[c] == VtepIP(c))
    && (forall ip :: ip in t.arp ==> t.arp[ip] == VTEPMAC(ip))
  }

  /** Adding or deleting one peer, however it fails, never touches a peer whose pod CIDR is
      disjoint. */
  lemma PeersAreSeparate(t: Tables, g: Target, h: Target, f: Fail)
    requires Disjoint(g.cidr, h.cidr)
    ensures Programmed(t, h) ==> Programmed(AddPeer(t, g, f).0, h) && Programmed(DelPeer(t, g, f).0, h)
  {
    hide VtepIP, VtepMAC;
    DisjointBases(g.cidr, h.cidr);
    VtepsDistinct(g.cidr, h.cidr);
  }

  /** However it fails, an addition writes these keys or leaves them. */
  lemma AddShape(t: Tables, g: Target, f: Fail)
    ensures var u := AddPeer(t, g, f).0;
            && (u.routes == t.routes || u.routes == t.routes[g.cidr := VtepIP(g.cidr)])
            && (u.arp == t.arp || u.arp == t.arp[VtepIP(g.cidr) := VtepMAC(g.cidr)])
            && (u.fdb == t.fdb || u.fdb == t.fdb[VtepMAC(g.cidr) := g.nodeIP])
  {
    hide VtepIP, VtepMAC;
  }

  /** However it fails, a deletion removes these keys or leaves them. */
  lemma DelShape(t: Tables, g: Target, f: Fail)
    ensures var u := DelPeer(t, g, f).0;
            && (u.routes == t.routes || u.routes == t.routes - {g.cidr})
            && (u.arp == t.arp || u.arp == t.arp - {VtepIP(g.cidr)})
            && (u.fdb == t.fdb || u.fdb == t.fdb - {VtepMAC(g.cidr)})
  {
    hide VtepIP, VtepMAC;
  }

  /** Both operations keep gateways and MACs derived. */
  lemma StaysDerived(t: Tables, g: Target, f: Fail)
    requires Derived(t)
    ensures Derived(AddPeer(t, g, f).0) && Derived(DelPeer(t, g, f).0)
  {
    hide VtepIP, VTEPMAC, AddPeer, DelPeer;
    AddShape(t, g, f);
    DelShape(t, g, f);
  }

  /** An addition that reports success has programmed the peer, whatever entries were there. */
  lemma AddPrograms(t: Tables, g: Target, f: Fail)
    requires Derived(t)
    ensures AddPeer(t, g, f).1 ==> Programmed(AddPeer(t, g, f).0, g)
    ensures AddPeer(t, g, NOFAIL).1
  {
    hide VtepIP, VtepMAC;
  }

  lemma AddSucceedsIff(t: Tables, g: Target, f: Fail)
    ensures AddPeer(t, g, f).1 <==> f == NOFAIL
  {
    hide VtepIP, VtepMAC;
  }

  /** Deleting a programmed peer without failures removes exactly its entries. */
  lemma DelRemoves(t: Tables, g: Target)
    requires Programmed(t, g)
    ensures DelPeer(t, g, NOFAIL)
         == (Tables(t.routes - {g.cidr}, t.arp - {VtepIP(g.cidr)}, t.fdb - {VtepMAC(g.cidr)}), true)
  {
  }

  /** Deletion is not idempotent, although its comment promises that missing entries are fine: it
      succeeds without kernel failures exactly when the neighbour and the FDB entry for this node
      are there, so deleting a programmed peer twice reports an error. */
  lemma DelSucceedsIff(t: Tables, g: Target)
    ensures DelPeer(t, g, NOFAIL).1 <==>
              VtepIP(g.cidr) in t.arp && VtepMAC(g.cidr) in t.fdb && t.fdb[VtepMAC(g.cidr)] == g.nodeIP
    ensures Programmed(t, g) ==> !DelPeer(DelPeer(t, g, NOFAIL).0, g, NOFAIL).1
  {
    hide VtepIP, VtepMAC;
  }

  /** Deletion undoes addition on tables that hold nothing of the peer. */
  lemma DelUndoesAdd(t: Tables, g: Target)
    requires g.cidr !in t.routes && VtepIP(g.cidr) !in t.arp && VtepMAC(g.cidr) !in t.fdb
    ensures DelPeer(AddPeer(t, g, NOFAIL).0, g, NOFAIL) == (t, true)
  {
    hide VtepIP, VtepMAC;
    var u := AddPeer(t, g, NOFAIL).0;
    assert u.routes - {g.cidr} == t.routes;
    assert u.arp - {VtepIP(g.cidr)} == t.arp;
    assert u.fdb - {VtepMAC(g.cidr)} == t.fdb;
  }

  // ----- the tunnel lookup -----

  function PrefixOf(a: Uint32, ones: nat): Subnet
    requires ones <= 32
  {
    RoundedDown(a, Size(ones));
    Prefix(Mask(a, ones), ones)
  }

  /** Longest-prefix match among prefixes of at most this length. */
  function BestRoute(routes: map<Subnet, IP>, a: Uint32, ones: nat): Option<Subnet>
    requires ones <= 32
  {
    if PrefixOf(a, ones) in routes then Some(PrefixOf(a, ones))
    else if ones == 0 then None
    else BestRoute(routes, a, ones - 1)
  }

  /** Gateway to MAC to outer destination. */
  function Resolve(t: Tables, gw: IP): Option<IP> {
    if gw in t.arp && t.arp[gw] in t.fdb then Some(t.fdb[t.arp[gw]]) else None
  }

  /** Where the tunnel sends a packet for a pod address. */
  function Forward(t: Tables, a: Uint32): Option<IP> {
    match BestRoute(t.routes, a, 32)
    case None => None
    case Some(c) =>
      BestRouteIsLongest(t.routes, a, 32);
      Resolve(t, t.routes[c])
  }

  /** BestRoute really is the longest match: it returns c if and only if c is a route, holds the
      address, and no route holding the address is longer. */
  lemma {:induction false} BestRouteIsLongest(routes: map<Subnet, IP>, a: Uint32, ones: nat)
    requires ones <= 32
    ensures var r := BestRoute(routes, a, ones);
            && (r.Some? ==> r.value in routes && Contains(r.value, a) && r.value.ones <= ones)
            && (forall d :: d in routes && Contains(d, a) && d.ones <= ones ==>
                  r.Some? && d.ones <= r.value.ones)
  {
    hide Mask;
    if PrefixOf(a, ones) !in routes {
      if ones > 0 { BestRouteIsLongest(routes, a, ones - 1); }
      forall d | d in routes && Contains(d, a) && d.ones <= ones
        ensures d.ones < ones
      {
      }
    }
  }

  /** A route shadowed by no longer one is the one taken. */
  lemma TakesRoute(routes: map<Subnet, IP>, a: Uint32, c: Subnet)
    requires c in routes && Contains(c, a)
    requires forall d :: d in routes && Contains(d, a) ==> d.ones <= c.ones
    ensures BestRoute(routes, a, 32) == Some(c)
  {
    hide Contains, BestRoute;
    BestRouteIsLongest(routes, a, 32);
    SharedAddressNests(c, BestRoute(routes, a, 32).value, a, a);
  }

  lemma MatchesNothing(routes: map<Subnet, IP>, a: Uint32)
    requires forall d :: d in routes ==> !Contains(d, a)
    ensures BestRoute(routes, a, 32).None?
  {
    BestRouteIsLongest(routes, a, 32);
  }
}
