/** Where packets go: the tunnel lookup over the tables the controller has programmed. */
module Forwarding {
  import opened Wrappers
  import opened IPv4
  import opened Subnets
  import opened Cluster
  import opened Vxlan
  import opened VxlanSync

  lemma {:induction false} LegalStaysDisjoint<F>(self: string, live: Live, run: seq<Stimulus<F>>)
    requires DisjointTargets(self, live) && Legal(self, live, run)
    ensures DisjointTargets(self, LiveAfter(live, run))
    decreases |run|
  {
    hide DisjointTargets, Deliver, InOrder;
    if run != [] {
      LegalStaysDisjoint(self, Deliver(live, run[0].e), run[1..]);
    }
  }

  lemma OnlyOwnRoute(self: string, live: Live, t: Tables, n: string, a: Uint32, d: Subnet)
    requires NoLeftovers(self, live, t) && DisjointTargets(self, live)
    requires TargetOf(self, live, n).Some? && Contains(TargetOf(self, live, n).value.cidr, a)
    requires d in t.routes && Contains(d, a)
    ensures d == TargetOf(self, live, n).value.cidr
  {
  }

  lemma ProgrammedForwards(t: Tables, g: Target, a: Uint32)
    requires Programmed(t, g) && BestRoute(t.routes, a, 32) == Some(g.cidr)
    ensures Forward(t, a) == Some(g.nodeIP)
  {
    hide VtepIP, VtepMAC, BestRoute;
  }

  lemma OwnRouteTaken(self: string, live: Live, v: Sync, n: string, a: Uint32)
    requires Mirrors(self, live, v) && NoLeftovers(self, live, v.t) && DisjointTargets(self, live)
    requires TargetOf(self, live, n).Some? && Contains(TargetOf(self, live, n).value.cidr, a)
    ensures Forward(v.t, a) == Some(TargetOf(self, live, n).value.nodeIP)
  {
    hide Contains, BestRoute, TargetOf, RouteOf, NoLeftovers, DisjointTargets, Forward;
    hide Derived, VtepIP, VtepMAC;
    var g := TargetOf(self, live, n).value;
    assert Programmed(v.t, g);
    forall d | d in v.t.routes && Contains(d, a)
      ensures d == g.cidr
    {
      OnlyOwnRoute(self, live, v.t, n, a, d);
    }
    TakesRoute(v.t.routes, a, g.cidr);
    ProgrammedForwards(v.t, g, a);
  }

  lemma NoRouteTaken(self: string, live: Live, v: Sync, a: Uint32)
    requires NoLeftovers(self, live, v.t)
    requires forall n :: TargetOf(self, live, n).Some? ==> !Contains(TargetOf(self, live, n).value.cidr, a)
    ensures BestRoute(v.t.routes, a, 32).None?
  {
    hide Contains, Parse, RouteOf, BestRoute, TargetOf;
    forall d | d in v.t.routes
      ensures !Contains(d, a)
    {
      var m :| HasCidr(self, live, m, d);
    }
    MatchesNothing(v.t.routes, a);
  }

  /** Forwarding is correct: from empty tables, after any legal failure-free run of node events,
      every address in a live remote node's pod CIDR reaches exactly that node, and an address in
      none of them matches no tunnel route. */
  lemma ForwardingCorrect(self: string, run: seq<Stimulus<Fails>>, a: Uint32)
    requires Legal(self, map[], run) && NoFailures(run)
    ensures var live, t := LiveAfter(map[], run), Run(self, START, run).t;
            && (forall n :: TargetOf(self, live, n).Some? && Contains(TargetOf(self, live, n).value.cidr, a) ==>
                  Forward(t, a) == Some(TargetOf(self, live, n).value.nodeIP))
            && ((forall n :: TargetOf(self, live, n).Some? ==> !Contains(TargetOf(self, live, n).value.cidr, a)) ==>
                  BestRoute(t.routes, a, 32).None? && Forward(t, a).None?)
  {
    hide Contains, BestRoute, TargetOf, Handle, Legal, Mirrors, NoLeftovers, LiveAfter, Resolve;
    var live, v := LiveAfter(map[], run), Run(self, START, run);
    EmptyMirrors(self, EMPTY);
    NothingLeft(self);
    RunMirrors(self, map[], START, run);
    LegalStaysDisjoint(self, map[], run);
    forall n | TargetOf(self, live, n).Some? && Contains(TargetOf(self, live, n).value.cidr, a)
      ensures Forward(v.t, a) == Some(TargetOf(self, live, n).value.nodeIP)
    {
      OwnRouteTaken(self, live, v, n, a);
    }
    if forall n :: TargetOf(self, live, n).Some? ==> !Contains(TargetOf(self, live, n).value.cidr, a) {
      NoRouteTaken(self, live, v, a);
    }
  }
}
