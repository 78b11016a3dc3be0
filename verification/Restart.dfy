/** The VXLAN controller restarted on tables that earlier processes left behind: what the replay of
    the current nodes repairs, and exactly when packets go to the right node again. */
module Restart {
  import opened Wrappers
  import opened IPv4
  import opened Arith
  import opened Subnets
  import opened Cluster
  import opened Vxlan
  import opened VxlanSync
  import opened Forwarding

  /** Whatever events arrive and whatever fails, gateways stay a function of the prefix. */
  lemma {:induction false} AnyRunKeepsDerived(self: string, v: Sync, run: seq<Stimulus<Fails>>)
    requires Derived(v.t)
    ensures Derived(Run(self, v, run).t)
    decreases |run|
  {
    hide Derived, Handle;
    if run != [] {
      HandleKeepsDerived(self, v, run[0]);
      AnyRunKeepsDerived(self, Handle(self, v, run[0]), run[1..]);
    }
  }

  lemma HandleKeepsDerived(self: string, v: Sync, x: Stimulus<Fails>)
    requires Derived(v.t)
    ensures Derived(Handle(self, v, x).t)
  {
    hide Derived, Install, Uninstall, RouteOf, Incomplete;
    match x.e {
      case Added(n) => InstallKeepsDerived(v, n.name, RouteOf(n), x.f.add);
      case Updated(prev, n) =>
        var v1 := if Incomplete(RouteOf(prev)) then v else Uninstall(v, prev.name, RouteOf(prev), x.f.del);
        UninstallKeepsDerived(v, prev.name, RouteOf(prev), x.f.del);
        InstallKeepsDerived(v1, n.name, RouteOf(n), x.f.add);
      case Deleted(n) =>
        if n.name in v.peers { UninstallKeepsDerived(v, n.name, v.peers[n.name], x.f.del); }
    }
  }

  lemma InstallKeepsDerived(v: Sync, name: string, r: NodeRoute, f: Fail)
    requires Derived(v.t)
    ensures Derived(Install(v, name, r, f).t)
  {
    hide Derived, Parse, AddPeer;
    if Parse(r).Some? { StaysDerived(v.t, Parse(r).value, f); }
  }

  /** The tables after a series of agent processes. Each starts with no recorded peers on the
      tables of the one before. */
  function Lifetimes(self: string, t: Tables, runs: seq<seq<Stimulus<Fails>>>): Tables
    decreases |runs|
  {
    if runs == [] then t else Lifetimes(self, Run(self, Sync(map[], t), runs[0]).t, runs[1..])
  }

  lemma {:induction false} LifetimesKeepDerived(self: string, t: Tables, runs: seq<seq<Stimulus<Fails>>>)
    requires Derived(t)
    ensures Derived(Lifetimes(self, t, runs))
    decreases |runs|
  {
    hide Derived, Run;
    if runs != [] {
      AnyRunKeepsDerived(self, Sync(map[], t), runs[0]);
      LifetimesKeepDerived(self, Run(self, Sync(map[], t), runs[0]).t, runs[1..]);
    }
  }

  /** Restart heals: on the tables left by any earlier processes, whatever they missed and whatever
      failed, a legal run whose additions work (in particular an addition for every current node)
      ends with exactly the live remote nodes recorded and all three entries of each correct,
      although deletions may fail. */
  lemma RestartHeals(self: string, earlier: seq<seq<Stimulus<Fails>>>, run: seq<Stimulus<Fails>>)
    requires Legal(self, map[], run) && AddsWork(run)
    ensures var live := LiveAfter(map[], run);
            var v := Run(self, Sync(map[], Lifetimes(self, EMPTY, earlier)), run);
            && (forall n :: n in v.peers <==> TargetOf(self, live, n).Some?)
            && (forall n :: n in v.peers ==> v.peers[n] == RouteOf(live[n]))
            && (forall n :: TargetOf(self, live, n).Some? ==> Programmed(v.t, TargetOf(self, live, n).value))
            && Derived(v.t)
  {
    hide Programmed, Handle, Legal, Derived, Run, Lifetimes, TargetOf, RouteOf;
    var t := Lifetimes(self, EMPTY, earlier);
    assert Derived(EMPTY) by { EmptyDerived(); }
    LifetimesKeepDerived(self, EMPTY, earlier);
    EmptyMirrors(self, t);
    RunMirrors(self, map[], Sync(map[], t), run);
  }

  lemma EmptyDerived()
    ensures Derived(EMPTY)
  {
  }

  // ----- which leftovers divert packets -----

  /** A route inside the peer's CIDR and longer than it. */
  predicate Shadows(t: Tables, g: Target, c: Subnet) {
    c in t.routes && c.ones > g.cidr.ones && Contains(g.cidr, c.base)
  }

  /** Packets for a route's own base take that route or a longer one with the same base. */
  lemma BaseTakesSameGateway(t: Tables, c: Subnet)
    requires Derived(t) && c in t.routes
    ensures Forward(t, c.base) == Resolve(t, VtepIP(c))
  {
    hide VtepIP, VtepMAC, BestRoute;
    ContainsBase(c);
    BestRouteIsLongest(t.routes, c.base, 32);
    var d := BestRoute(t.routes, c.base, 32).value;
    ContainsBase(d);
    SharedAddressNests(c, d, c.base, d.base);
    MaskBelow(c.base, d.ones);
    MaskBelow(d.base, c.ones);
    SameBaseSameVtep(c, d);
  }

  lemma MaskBelow(a: Uint32, ones: nat)
    requires ones <= 32
    ensures Mask(a, ones) <= a
  {
    RoundedDown(a, Size(ones));
  }

  lemma SameBaseSameVtep(c: Subnet, d: Subnet)
    requires c.base == d.base
    ensures VtepIP(c) == VtepIP(d) && VtepMAC(c) == VtepMAC(d)
  {
  }

  /** On any tables the controllers can leave, a programmed peer receives every packet for its CIDR
      if and only if each longer route inside it resolves to the same node. */
  lemma ForwardingAfterHealing(t: Tables, g: Target)
    requires Programmed(t, g) && Derived(t)
    ensures (forall a: Uint32 :: Contains(g.cidr, a) ==> Forward(t, a) == Some(g.nodeIP))
       <==> (forall c :: Shadows(t, g, c) ==> Resolve(t, VtepIP(c)) == Some(g.nodeIP))
  {
    hide Contains, VtepIP, VtepMAC, BestRoute, Resolve, Programmed;
    if forall c :: Shadows(t, g, c) ==> Resolve(t, VtepIP(c)) == Some(g.nodeIP) {
      forall a: Uint32 | Contains(g.cidr, a)
        ensures Forward(t, a) == Some(g.nodeIP)
      {
        ShadowsDecide(t, g, a);
      }
    }
    if forall a: Uint32 :: Contains(g.cidr, a) ==> Forward(t, a) == Some(g.nodeIP) {
      forall c | Shadows(t, g, c)
        ensures Resolve(t, VtepIP(c)) == Some(g.nodeIP)
      {
        BaseTakesSameGateway(t, c);
      }
    }
  }

  lemma ShadowsDecide(t: Tables, g: Target, a: Uint32)
    requires Programmed(t, g) && Derived(t) && Contains(g.cidr, a)
    requires forall c :: Shadows(t, g, c) ==> Resolve(t, VtepIP(c)) == Some(g.nodeIP)
    ensures Forward(t, a) == Some(g.nodeIP)
  {
    hide Contains, VtepIP, VtepMAC, BestRoute;
    BestRouteIsLongest(t.routes, a, 32);
    var c := BestRoute(t.routes, a, 32).value;
    ContainsBase(c);
    SharedAddressNests(g.cidr, c, a, c.base);
    if c.ones > g.cidr.ones {
      assert Shadows(t, g, c);
    }
  }

  // ----- the restart as a whole -----

  /** The CIDR this event programs. */
  function TouchedBy(self: string, e: Event): set<Subnet> {
    if !e.Deleted? && e.n.name != self && Parse(RouteOf(e.n)).Some? then {Parse(RouteOf(e.n)).value.cidr} else {}
  }

  function Touched(self: string, run: seq<Stimulus<Fails>>): set<Subnet> {
    if run == [] then {} else TouchedBy(self, run[0].e) + Touched(self, run[1..])
  }

  /** The entries under no key of these CIDRs. */
  function Outside(t: Tables, w: set<Subnet>): Tables {
    Tables(t.routes - w, t.arp - set c | c in w :: VtepIP(c), t.fdb - set c | c in w :: VtepMAC(c))
  }

  lemma KeyInside<K, V>(m: map<K, V>, k: K, x: V, inside: set<K>)
    requires k in inside
    ensures m[k := x] - inside == m - inside == (m - {k}) - inside
  {
  }

  lemma PeerStaysInside(t: Tables, g: Target, f: Fail, w: set<Subnet>)
    requires g.cidr in w
    ensures Outside(AddPeer(t, g, f).0, w) == Outside(t, w) == Outside(DelPeer(t, g, f).0, w)
  {
    hide AddPeer, DelPeer;
    AddStaysInside(t, g, f, w);
    DelStaysInside(t, g, f, w);
  }

  lemma AddStaysInside(t: Tables, g: Target, f: Fail, w: set<Subnet>)
    requires g.cidr in w
    ensures Outside(AddPeer(t, g, f).0, w) == Outside(t, w)
  {
    hide VtepIP, VtepMAC, AddPeer;
    AddShape(t, g, f);
    KeyInside(t.routes, g.cidr, VtepIP(g.cidr), w);
    KeyInside(t.arp, VtepIP(g.cidr), VtepMAC(g.cidr), set c | c in w :: VtepIP(c));
    KeyInside(t.fdb, VtepMAC(g.cidr), g.nodeIP, set c | c in w :: VtepMAC(c));
  }

  lemma DelStaysInside(t: Tables, g: Target, f: Fail, w: set<Subnet>)
    requires g.cidr in w
    ensures Outside(DelPeer(t, g, f).0, w) == Outside(t, w)
  {
    hide VtepIP, VtepMAC, DelPeer;
    DelShape(t, g, f);
    KeyInside(t.routes, g.cidr, VtepIP(g.cidr), w);
    KeyInside(t.arp, VtepIP(g.cidr), VtepMAC(g.cidr), set c | c in w :: VtepIP(c));
    KeyInside(t.fdb, VtepMAC(g.cidr), g.nodeIP, set c | c in w :: VtepMAC(c));
  }

  lemma OutsideGrows(t: Tables, u: Tables, w: set<Subnet>, x: set<Subnet>)
    requires Outside(t, w) == Outside(u, w)
    ensures Outside(t, w + x) == Outside(u, w + x)
  {
    hide VtepIP, VtepMAC;
    var ips, macs := set c | c in x :: VtepIP(c), set c | c in x :: VtepMAC(c);
    forall z: Tables
      ensures Outside(z, w + x)
           == Tables(Outside(z, w).routes - x, Outside(z, w).arp - ips, Outside(z, w).fdb - macs)
    {
      assert (set c | c in w + x :: VtepIP(c)) == (set c | c in w :: VtepIP(c)) + ips;
      assert (set c | c in w + x :: VtepMAC(c)) == (set c | c in w :: VtepMAC(c)) + macs;
    }
  }

  /** Compared with the tables t0 before the restart, only keys of w have changed, and what is there
      under such a key belongs to a live node. */
  ghost predicate Traces(self: string, live: Live, t: Tables, t0: Tables, w: set<Subnet>) {
    && Outside(t, w) == Outside(t0, w)
    && Accounted(self, live, t, Outside(t0, w))
    && forall n :: TargetOf(self, live, n).Some? ==> TargetOf(self, live, n).value.cidr in w
  }

  lemma HandleStaysInside(self: string, live: Live, v: Sync, x: Stimulus<Fails>, w: set<Subnet>)
    requires Sound(self, live, v) && InOrder(live, x.e)
    requires forall n :: TargetOf(self, live, n).Some? ==> TargetOf(self, live, n).value.cidr in w
    requires TouchedBy(self, x.e) <= w
    ensures Outside(Handle(self, v, x).t, w) == Outside(v.t, w)
  {
    hide Parse, RouteOf, Outside, AddPeer, DelPeer, Derived, Programmed;
    var n := x.e.n;
    if n.name != self {
      if !x.e.Added? && Parse(RouteOf(live[n.name])).Some? {
        assert TargetOf(self, live, n.name) == Parse(RouteOf(live[n.name]));
        PeerStaysInside(v.t, Parse(RouteOf(live[n.name])).value, x.f.del, w);
      }
      if !x.e.Deleted? && Parse(RouteOf(n)).Some? {
        PeerStaysInside(v.t, Parse(RouteOf(n)).value, x.f.add, w);
        if x.e.Updated? {
          PeerStaysInside(DelRoute(v.t, RouteOf(x.e.prev), x.f.del), Parse(RouteOf(n)).value, x.f.add, w);
        }
      }
    }
  }

  lemma AccountShrinks(self: string, live: Live, e: Event, t: Tables, t0: Tables, w: set<Subnet>)
    requires Accounted(self, Deliver(live, e), t, Outside(t0, w))
    ensures Accounted(self, Deliver(live, e), t, Outside(t0, w + TouchedBy(self, e)))
  {
    hide Parse, RouteOf, VtepIP, VtepMAC;
    var live' := Deliver(live, e);
    forall c | c in TouchedBy(self, e)
      ensures HasCidr(self, live', e.n.name, c)
      ensures HasVtep(self, live', e.n.name, VtepIP(c)) && HasMac(self, live', e.n.name, VtepMAC(c))
    {
    }
  }

  lemma LiveTouched(self: string, live: Live, e: Event, w: set<Subnet>)
    requires InOrder(live, e)
    requires forall n :: TargetOf(self, live, n).Some? ==> TargetOf(self, live, n).value.cidr in w
    ensures var live' := Deliver(live, e);
            forall n :: TargetOf(self, live', n).Some? ==>
              TargetOf(self, live', n).value.cidr in w + TouchedBy(self, e)
  {
    hide Parse, RouteOf;
    forall n | TargetOf(self, Deliver(live, e), n).Some? && n != e.n.name
      ensures TargetOf(self, Deliver(live, e), n) == TargetOf(self, live, n)
    {
    }
  }

  lemma HandleTraces(self: string, live: Live, v: Sync, x: Stimulus<Fails>, t0: Tables, w: set<Subnet>)
    requires Mirrors(self, live, v) && Traces(self, live, v.t, t0, w)
    requires InOrder(live, x.e) && x.f == NOFAILS
    ensures Traces(self, Deliver(live, x.e), Handle(self, v, x).t, t0, w + TouchedBy(self, x.e))
  {
    hide Sound, Complete, Outside, Accounted, Handle, TargetOf, InOrder, Deliver;
    var w' := w + TouchedBy(self, x.e);
    HandleStaysInside(self, live, v, x, w');
    OutsideGrows(v.t, t0, w, TouchedBy(self, x.e));
    HandleAccounts(self, live, v, x, Outside(t0, w));
    AccountShrinks(self, live, x.e, Handle(self, v, x).t, t0, w);
    LiveTouched(self, live, x.e, w);
  }

  lemma {:induction false} RunTraces(self: string, live: Live, v: Sync, run: seq<Stimulus<Fails>>,
                                     t0: Tables, w: set<Subnet>)
    requires DisjointTargets(self, live) && Mirrors(self, live, v) && Traces(self, live, v.t, t0, w)
    requires Legal(self, live, run) && NoFailures(run)
    ensures Traces(self, LiveAfter(live, run), Run(self, v, run).t, t0, w + Touched(self, run))
    decreases |run|
  {
    hide Sound, Complete, Traces, DisjointTargets, Handle, Deliver, InOrder, TouchedBy;
    if run == [] {
      assert w + Touched(self, run) == w;
    } else {
      HandleSound(self, live, v, run[0]);
      HandleComplete(self, live, v, run[0]);
      HandleTraces(self, live, v, run[0], t0, w);
      var w' := w + TouchedBy(self, run[0].e);
      assert w' + Touched(self, run[1..]) == w + Touched(self, run);
      RunTraces(self, Deliver(live, run[0].e), Handle(self, v, run[0]), run[1..], t0, w');
    }
  }

  lemma NothingTouched(self: string, t0: Tables)
    ensures Traces(self, map[], t0, t0, {})
  {
  }

  /** A leftover route inside the peer's CIDR is gone afterwards, or leads to the same node because
      nothing under its gateway has changed and it led there before. */
  predicate Harmless(t0: Tables, w: set<Subnet>, g: Target, c: Subnet) {
    Shadows(t0, g, c) && c.base != g.cidr.base ==>
      c in w || ((forall d :: d in w ==> d.base != c.base) && Resolve(t0, VtepIP(c)) == Some(g.nodeIP))
  }

  /** A CIDR inside the peer's other than the peer's own is no live node's. */
  lemma NoOtherInside(self: string, live: Live, m: string, n: string, c: Subnet)
    requires DisjointTargets(self, live) && TargetOf(self, live, n).Some? && TargetOf(self, live, m).Some?
    requires Contains(TargetOf(self, live, n).value.cidr, c.base)
    requires TargetOf(self, live, m).value.cidr.base == c.base
    ensures m == n
  {
    hide TargetOf, Contains;
    ContainsBase(TargetOf(self, live, m).value.cidr);
  }

  /** What a longer route inside a live peer's CIDR resolves to after the run. */
  lemma LeftoverResolves(self: string, live: Live, t: Tables, t0: Tables, w: set<Subnet>, n: string, c: Subnet)
    requires Traces(self, live, t, t0, w) && DisjointTargets(self, live) && Derived(t0)
    requires TargetOf(self, live, n).Some? && Programmed(t, TargetOf(self, live, n).value)
    requires c.ones > TargetOf(self, live, n).value.cidr.ones && Contains(TargetOf(self, live, n).value.cidr, c.base)
    ensures var g := TargetOf(self, live, n).value;
            (c in t.routes ==> Resolve(t, VtepIP(c)) == Some(g.nodeIP)) <==> Harmless(t0, w, g, c)
  {
    hide TargetOf, VtepIP, VtepMAC, Contains, Outside, DisjointTargets, Derived;
    var g := TargetOf(self, live, n).value;
    RouteKept(self, live, t, t0, w, n, c);
    if c.base == g.cidr.base {
      SameBaseSameVtep(c, g.cidr);
    } else if d :| d in w && d.base == c.base {
      GatewayLost(self, live, t, t0, w, n, c, d);
    } else {
      ResolvesAsBefore(t, t0, w, c);
    }
  }

  lemma RouteKept(self: string, live: Live, t: Tables, t0: Tables, w: set<Subnet>, n: string, c: Subnet)
    requires Traces(self, live, t, t0, w) && DisjointTargets(self, live)
    requires TargetOf(self, live, n).Some? && c.ones > TargetOf(self, live, n).value.cidr.ones
    requires Contains(TargetOf(self, live, n).value.cidr, c.base)
    ensures c in t.routes <==> c in t0.routes && c !in w
  {
    hide TargetOf, VtepIP, VtepMAC, Contains, DisjointTargets;
    if c in w && c in t.routes {
      assert c !in Outside(t0, w).routes;
      var m :| HasCidr(self, live, m, c);
      NoOtherInside(self, live, m, n, c);
    }
    assert c !in w ==> (c in t.routes <==> c in Outside(t, w).routes);
    assert c !in w ==> (c in t0.routes <==> c in Outside(t0, w).routes);
  }

  lemma GatewayLost(self: string, live: Live, t: Tables, t0: Tables, w: set<Subnet>, n: string, c: Subnet, d: Subnet)
    requires Traces(self, live, t, t0, w) && DisjointTargets(self, live)
    requires TargetOf(self, live, n).Some? && Contains(TargetOf(self, live, n).value.cidr, c.base)
    requires c.base != TargetOf(self, live, n).value.cidr.base && d in w && d.base == c.base
    ensures Resolve(t, VtepIP(c)).None?
  {
    hide TargetOf, VtepIP, VtepMAC, Contains, DisjointTargets;
    SameBaseSameVtep(c, d);
    if VtepIP(c) in t.arp {
      assert VtepIP(d) !in Outside(t0, w).arp;
      var m :| HasVtep(self, live, m, VtepIP(c));
      if TargetOf(self, live, m).value.cidr.base != c.base {
        VtepsDistinct(TargetOf(self, live, m).value.cidr, c);
      }
      NoOtherInside(self, live, m, n, c);
    }
  }

  lemma ResolvesAsBefore(t: Tables, t0: Tables, w: set<Subnet>, c: Subnet)
    requires Outside(t, w) == Outside(t0, w) && Derived(t0)
    requires forall d :: d in w ==> d.base != c.base
    ensures Resolve(t, VtepIP(c)) == Resolve(t0, VtepIP(c))
  {
    hide VtepIP, VTEPMAC;
    var ip, mac := VtepIP(c), VtepMAC(c);
    forall d | d in w
      ensures VtepIP(d) != ip && VtepMAC(d) != mac
    {
      VtepsDistinct(d, c);
    }
    var x, y := Outside(t, w), Outside(t0, w);
    assert ip in t.arp <==> ip in x.arp;
    assert ip in t0.arp <==> ip in y.arp;
    assert mac in t.fdb <==> mac in x.fdb;
    assert mac in t0.fdb <==> mac in y.fdb;
  }

  /** Forwarding after a restart: on the tables left by any earlier processes, after a failure-free
      legal run, a live node receives every packet for its CIDR if and only if each longer leftover
      route inside its CIDR, other than one with the same base, is withdrawn by the run or led to
      the node already and has a base the run does not touch. */
  lemma RestartForwards(self: string, earlier: seq<seq<Stimulus<Fails>>>, run: seq<Stimulus<Fails>>, n: string)
    requires Legal(self, map[], run) && NoFailures(run)
    requires TargetOf(self, LiveAfter(map[], run), n).Some?
    ensures var t0, g := Lifetimes(self, EMPTY, earlier), TargetOf(self, LiveAfter(map[], run), n).value;
            var t := Run(self, Sync(map[], t0), run).t;
            (forall a: Uint32 :: Contains(g.cidr, a) ==> Forward(t, a) == Some(g.nodeIP)) <==>
            (forall c :: Harmless(t0, Touched(self, run), g, c))
  {
    hide Programmed, Handle, Legal, Derived, Run, Lifetimes, TargetOf, RouteOf, Contains, VtepIP;
    hide Touched, LiveAfter, Forward, Resolve, Outside, Accounted, DisjointTargets;
    var live, t0 := LiveAfter(map[], run), Lifetimes(self, EMPTY, earlier);
    var t, g := Run(self, Sync(map[], t0), run).t, TargetOf(self, live, n).value;
    EmptyDerived();
    LifetimesKeepDerived(self, EMPTY, earlier);
    EmptyMirrors(self, t0);
    NothingTouched(self, t0);
    RunMirrors(self, map[], Sync(map[], t0), run);
    RunTraces(self, map[], Sync(map[], t0), run, t0, {});
    assert {} + Touched(self, run) == Touched(self, run);
    LegalStaysDisjoint(self, map[], run);
    ForwardingAfterHealing(t, g);
    forall c: Subnet | c.ones > g.cidr.ones && Contains(g.cidr, c.base)
      ensures (c in t.routes ==> Resolve(t, VtepIP(c)) == Some(g.nodeIP)) <==>
              Harmless(t0, Touched(self, run), g, c)
    {
      LeftoverResolves(self, live, t, t0, Touched(self, run), n, c);
    }
  }

  /** A leftover route inside the peer's CIDR leads to the same node already. */
  predicate LedThere(t0: Tables, g: Target, c: Subnet) {
    Shadows(t0, g, c) && c.base != g.cidr.base ==> Resolve(t0, VtepIP(c)) == Some(g.nodeIP)
  }

  lemma {:induction false} ReplayTouchesLive(self: string, live: Live, run: seq<Stimulus<Fails>>, c: Subnet)
    requires Legal(self, live, run) && Replay(run)
    requires c in Touched(self, run) || exists n :: HasCidr(self, live, n, c)
    ensures exists n :: HasCidr(self, LiveAfter(live, run), n, c)
    decreases |run|
  {
    hide DisjointTargets, Parse, RouteOf;
    if run == [] {
      assert LiveAfter(live, run) == live;
    } else {
      var e := run[0].e;
      if c in TouchedBy(self, e) {
        assert HasCidr(self, Deliver(live, e), e.n.name, c);
      } else if n :| HasCidr(self, live, n, c) {
        assert HasCidr(self, Deliver(live, e), n, c);
      }
      ReplayTouchesLive(self, Deliver(live, e), run[1..], c);
      assert LiveAfter(live, run) == LiveAfter(Deliver(live, e), run[1..]);
    }
  }

  /** For the replay itself the condition is on the leftover tables alone: each longer route inside
      the node's CIDR, other than one with the same base, must lead to the node already. */
  lemma ReplayForwards(self: string, earlier: seq<seq<Stimulus<Fails>>>, run: seq<Stimulus<Fails>>, n: string)
    requires Legal(self, map[], run) && NoFailures(run) && Replay(run)
    requires TargetOf(self, LiveAfter(map[], run), n).Some?
    ensures var t0, g := Lifetimes(self, EMPTY, earlier), TargetOf(self, LiveAfter(map[], run), n).value;
            var t := Run(self, Sync(map[], t0), run).t;
            (forall a: Uint32 :: Contains(g.cidr, a) ==> Forward(t, a) == Some(g.nodeIP)) <==>
            (forall c :: LedThere(t0, g, c))
  {
    hide *;
    var t0, g := Lifetimes(self, EMPTY, earlier), TargetOf(self, LiveAfter(map[], run), n).value;
    RestartForwards(self, earlier, run, n);
    forall c: Subnet
      ensures Harmless(t0, Touched(self, run), g, c) <==> LedThere(t0, g, c)
    {
      HarmlessIfLedThere(self, run, n, t0, c);
    }
  }

  lemma HarmlessIfLedThere(self: string, run: seq<Stimulus<Fails>>, n: string, t0: Tables, c: Subnet)
    requires Legal(self, map[], run) && Replay(run)
    requires TargetOf(self, LiveAfter(map[], run), n).Some?
    ensures var g := TargetOf(self, LiveAfter(map[], run), n).value;
            Harmless(t0, Touched(self, run), g, c) <==> LedThere(t0, g, c)
  {
    hide Legal, TargetOf, VtepIP, Contains, Resolve, Touched, LiveAfter;
    var g := TargetOf(self, LiveAfter(map[], run), n).value;
    EmptyDisjoint(self);
    LegalStaysDisjoint(self, map[], run);
    if Shadows(t0, g, c) && c.base != g.cidr.base {
      InsideUntouched(self, run, n, c);
    }
  }

  lemma EmptyDisjoint(self: string)
    ensures DisjointTargets(self, map[])
  {
  }

  lemma InsideUntouched(self: string, run: seq<Stimulus<Fails>>, n: string, c: Subnet)
    requires Legal(self, map[], run) && Replay(run) && DisjointTargets(self, LiveAfter(map[], run))
    requires TargetOf(self, LiveAfter(map[], run), n).Some?
    requires Contains(TargetOf(self, LiveAfter(map[], run), n).value.cidr, c.base)
    requires c.base != TargetOf(self, LiveAfter(map[], run), n).value.cidr.base
    ensures forall d :: d in Touched(self, run) ==> d.base != c.base
  {
    hide Legal, TargetOf, Contains, Touched, LiveAfter, DisjointTargets;
    var live := LiveAfter(map[], run);
    forall d | d in Touched(self, run)
      ensures d.base != c.base
    {
      ReplayTouchesLive(self, map[], run, d);
      var m :| HasCidr(self, live, m, d);
      if d.base == c.base { NoOtherInside(self, live, m, n, c); }
    }
  }

  /** So a cluster with one mask size forwards correctly after any restart. */
  lemma OneMaskSizeHeals(self: string, earlier: seq<seq<Stimulus<Fails>>>, run: seq<Stimulus<Fails>>,
                         n: string, a: Uint32)
    requires Legal(self, map[], run) && NoFailures(run)
    requires TargetOf(self, LiveAfter(map[], run), n).Some?
    requires var g := TargetOf(self, LiveAfter(map[], run), n).value;
             && Contains(g.cidr, a)
             && forall c :: c in Lifetimes(self, EMPTY, earlier).routes ==> c.ones <= g.cidr.ones
    ensures Forward(Run(self, Sync(map[], Lifetimes(self, EMPTY, earlier)), run).t, a)
         == Some(TargetOf(self, LiveAfter(map[], run), n).value.nodeIP)
  {
    hide Legal, Run, Lifetimes, TargetOf, Contains, Resolve, Touched, LiveAfter, Forward, NoFailures;
    RestartForwards(self, earlier, run, n);
  }

  // ----- a leftover that does divert traffic -----

  /** A node leaves while the agent is down, and another takes a CIDR around the old one: packets
      for the old range still go to the node that left. Here 10.0.0.128/25 at 172.18.0.9 is
      replaced by 10.0.0.0/24 at 172.18.0.4, and 10.0.0.200 goes astray. */
  lemma LongerLeftoverDiverts()
    ensures exists before: seq<Stimulus<Fails>>, run: seq<Stimulus<Fails>>, n: string, a: Uint32 ::
              && Legal("self", map[], before) && NoFailures(before)
              && Legal("self", map[], run) && NoFailures(run)
              && Astray("self", before, run, n, a)
  {
    hide Legal, NoFailures, Astray, NodeAt, Contains, Size;
    ExampleRanges();
    var wide: Subnet := Prefix(0x0A00_0000, 24);
    var narrow: Subnet := Prefix(0x0A00_0080, 25);
    OneAddIsLegal("self", NodeAt("x", narrow, IP(172, 18, 0, 9)));
    OneAddIsLegal("self", NodeAt("y", wide, IP(172, 18, 0, 4)));
    DivertsAround(wide, narrow, IP(172, 18, 0, 9), IP(172, 18, 0, 4), 0x0A00_00C8);
  }

  lemma ExampleRanges()
    ensures Prefix(0x0A00_0000, 24).Valid() && Prefix(0x0A00_0080, 25).Valid()
    ensures Contains(Prefix(0x0A00_0000, 24), 0x0A00_00C8) && Contains(Prefix(0x0A00_0080, 25), 0x0A00_00C8)
  {
  }

  ghost predicate Astray(self: string, before: seq<Stimulus<Fails>>, run: seq<Stimulus<Fails>>, n: string, a: Uint32) {
    var live := LiveAfter(map[], run);
    && TargetOf(self, live, n).Some? && Contains(TargetOf(self, live, n).value.cidr, a)
    && Forward(Run(self, Sync(map[], Run(self, START, before).t), run).t, a)
    != Some(TargetOf(self, live, n).value.nodeIP)
  }

  lemma OneAddIsLegal(self: string, n: Node)
    ensures Legal(self, map[], [Stimulus(Added(n), NOFAILS)])
    ensures NoFailures([Stimulus(Added(n), NOFAILS)])
    ensures LiveAfter(map[], [Stimulus(Added(n), NOFAILS)]) == map[n.name := n]
  {
  }

  lemma DivertsAround(wide: Subnet, narrow: Subnet, was: IP, ip: IP, a: Uint32)
    requires wide.ones < narrow.ones && wide.base != narrow.base && was != ip
    requires Contains(wide, a) && Contains(narrow, a)
    ensures Astray("self", [Stimulus(Added(NodeAt("x", narrow, was)), NOFAILS)],
                   [Stimulus(Added(NodeAt("y", wide, ip)), NOFAILS)], "y", a)
  {
    hide Contains, VtepIP, VtepMAC, BestRoute, NodeAt, Parse, RouteOf, Legal, Incomplete;
    var gone, here := NodeAt("x", narrow, was), NodeAt("y", wide, ip);
    NodeAtTarget("x", narrow, was);
    NodeAtTarget("y", wide, ip);
    NodeAtName("x", narrow, was);
    NodeAtName("y", wide, ip);
    var before, run := [Stimulus(Added(gone), NOFAILS)], [Stimulus(Added(here), NOFAILS)];
    OneAddIsLegal("self", gone);
    OneAddIsLegal("self", here);
    VtepsDistinct(wide, narrow);
    SingleRun("self", START, gone);
    var t := Run("self", START, before).t;
    SingleRun("self", Sync(map[], t), here);
    var u := Run("self", Sync(map[], t), run).t;
    assert narrow in u.routes && u.routes[narrow] == VtepIP(narrow);
    assert forall d :: d in u.routes ==> d == narrow || d == wide;
    TakesRoute(u.routes, a, narrow);
    assert Forward(u, a) == Some(was);
  }

  lemma SingleRun(self: string, v: Sync, n: Node)
    ensures Run(self, v, [Stimulus(Added(n), NOFAILS)]) == OnAdd(self, v, n, NOFAIL)
  {
  }
}
