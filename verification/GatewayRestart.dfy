/** The host-gateway controller restarted on routes that earlier processes left behind: which of them
    keep a wrong gateway although no call fails. */
module GatewayRestart {
  import opened Wrappers
  import opened IPv4
  import opened Subnets
  import opened Cluster
  import opened HostGateway

  /** The route this event makes the controller delete. */
  function WithdrawnBy(self: string, live: Live, e: Event): set<Target> {
    match TargetOf(self, live, e.n.name)
    case None => {}
    case Some(g) => if e.Updated? && RouteOf(e.prev) == RouteOf(e.n) then {} else {g}
  }

  function Withdrawn(self: string, live: Live, run: seq<Stimulus<GwFails>>): set<Target>
    decreases |run|
  {
    if run == [] then {}
    else WithdrawnBy(self, live, run[0].e) + Withdrawn(self, Deliver(live, run[0].e), run[1..])
  }

  /** A leftover route that no deletion in w has matched. */
  predicate Stays(k: Routes, w: set<Target>, c: Subnet) {
    c in k && Target(c, k[c]) !in w
  }

  predicate LeadsTo(self: string, live: Live, n: string, c: Subnet, ip: IP) {
    TargetOf(self, live, n) == Some(Target(c, ip))
  }

  /** The routes now are the leftovers that stay and, under every other live CIDR, the live node's. */
  ghost predicate Overlaid(self: string, live: Live, now: Routes, k: Routes, w: set<Target>) {
    && (forall c :: Stays(k, w, c) ==> c in now && now[c] == k[c])
    && (forall c :: c in now ==> Stays(k, w, c) || exists n :: LeadsTo(self, live, n, c, now[c]))
    && (forall n :: TargetOf(self, live, n).Some? ==> TargetOf(self, live, n).value.cidr in now)
  }

  /** Overlaid depends on the targets only. */
  lemma SameTargetsOverlaid(self: string, live: Live, live': Live, now: Routes, k: Routes, w: set<Target>)
    requires Overlaid(self, live, now, k, w)
    requires forall n :: TargetOf(self, live', n) == TargetOf(self, live, n)
    ensures Overlaid(self, live', now, k, w)
  {
    hide TargetOf;
    forall c | c in now && !Stays(k, w, c)
      ensures exists n :: LeadsTo(self, live', n, c, now[c])
    {
      var n :| LeadsTo(self, live, n, c, now[c]);
      assert LeadsTo(self, live', n, c, now[c]);
    }
  }

  lemma WithdrawOverlays(self: string, live: Live, now: Routes, k: Routes, w: set<Target>, name: string)
    requires DisjointTargets(self, live) && Overlaid(self, live, now, k, w)
    requires name in live && name != self && TargetOf(self, live, name).Some?
    ensures Overlaid(self, live - {name}, DelRoute(now, RouteOf(live[name]), false), k,
                     w + {TargetOf(self, live, name).value})
  {
    hide Parse, RouteOf, DisjointTargets;
    var g := TargetOf(self, live, name).value;
    var rest, later, w' := live - {name}, DelRoute(now, RouteOf(live[name]), false), w + {g};
    assert g == Parse(RouteOf(live[name])).value;
    forall m
      ensures TargetOf(self, rest, m) == if m == name then None else TargetOf(self, live, m)
    {
      DropOne(self, live, name, m);
    }
    hide TargetOf;
    forall m | TargetOf(self, rest, m).Some?
      ensures TargetOf(self, rest, m).value.cidr in later
    {
      DistinctBases(self, live, m, name);
    }
    forall c | c in later && !Stays(k, w', c)
      ensures exists n :: LeadsTo(self, rest, n, c, later[c])
    {
      assert !Stays(k, w, c);
      var n :| LeadsTo(self, live, n, c, now[c]);
      assert LeadsTo(self, rest, n, c, later[c]);
    }
  }

  lemma InstallOverlays(self: string, live: Live, now: Routes, k: Routes, w: set<Target>, name: string)
    requires name in live && name != self && TargetOf(self, live, name).Some?
    requires Overlaid(self, live - {name}, now, k, w)
    ensures Overlaid(self, live, AddRoute(now, RouteOf(live[name]), false).0, k, w)
  {
    hide Parse, RouteOf;
    var g := TargetOf(self, live, name).value;
    var rest, later := live - {name}, AddRoute(now, RouteOf(live[name]), false).0;
    AddRouteTrustsExisting(now, RouteOf(live[name]));
    forall m
      ensures TargetOf(self, rest, m) == if m == name then None else TargetOf(self, live, m)
    {
      DropOne(self, live, name, m);
    }
    forall c | c in later && !Stays(k, w, c)
      ensures exists n :: LeadsTo(self, live, n, c, later[c])
    {
      if c in now {
        var n :| LeadsTo(self, rest, n, c, now[c]);
        assert LeadsTo(self, live, n, c, later[c]);
      } else {
        assert LeadsTo(self, live, name, c, later[c]);
      }
    }
  }

  /** The first half of an update or a deletion, without failures. */
  lemma TakenOut(self: string, live: Live, v: Gw, k: Routes, w: set<Target>, name: string)
    requires DisjointTargets(self, live) && Overlaid(self, live, v.kernel, k, w)
    requires name in live && name != self
    ensures var w' := if TargetOf(self, live, name).Some? then w + {TargetOf(self, live, name).value} else w;
            Overlaid(self, live - {name}, DelRoute(v.kernel, RouteOf(live[name]), false), k, w')
  {
    hide DisjointTargets, Overlaid, RouteOf, Parse;
    if TargetOf(self, live, name).Some? {
      WithdrawOverlays(self, live, v.kernel, k, w, name);
    } else {
      forall m
        ensures TargetOf(self, live - {name}, m) == TargetOf(self, live, m)
      {
        DropOne(self, live, name, m);
      }
      SameTargetsOverlaid(self, live, live - {name}, v.kernel, k, w);
    }
  }

  /** The second half of an update, or an addition, without failures. */
  lemma PutIn(self: string, live: Live, v: Gw, k: Routes, w: set<Target>, name: string)
    requires name in live && name != self && Overlaid(self, live - {name}, v.kernel, k, w)
    ensures Overlaid(self, live, Install(v, name, RouteOf(live[name]), false).kernel, k, w)
  {
    hide Overlaid, RouteOf, Parse, AddRoute;
    var r := RouteOf(live[name]);
    if TargetOf(self, live, name).Some? {
      if Incomplete(r) { EmptyDoesNotParse(r); }
      InstallOverlays(self, live, v.kernel, k, w, name);
    } else {
      forall m
        ensures TargetOf(self, live - {name}, m) == TargetOf(self, live, m)
      {
        DropOne(self, live, name, m);
      }
      SameTargetsOverlaid(self, live - {name}, live, v.kernel, k, w);
      UnparsedAddsNothing(v.kernel, r);
    }
  }

  lemma UnparsedAddsNothing(k: Routes, r: NodeRoute)
    requires Parse(r).None?
    ensures AddRoute(k, r, false).0 == k && DelRoute(k, r, false) == k
  {
  }

  lemma UnchangedTargets(self: string, live: Live, e: Event)
    requires InOrder(live, e)
    requires e.n.name == self || (e.Updated? && RouteOf(e.prev) == RouteOf(e.n))
    ensures forall m :: TargetOf(self, Deliver(live, e), m) == TargetOf(self, live, m)
    ensures WithdrawnBy(self, live, e) == {}
  {
    hide Parse, RouteOf;
  }

  lemma HandleOverlays(self: string, live: Live, v: Gw, x: Stimulus<GwFails>, k: Routes, w: set<Target>)
    requires Current(self, live, v) && Records(self, live, v, live.Keys) && DisjointTargets(self, live)
    requires Overlaid(self, live, v.kernel, k, w)
    requires InOrder(live, x.e) && x.f == GwFails(false, false)
    ensures Overlaid(self, Deliver(live, x.e), Handle(self, v, x).kernel, k, w + WithdrawnBy(self, live, x.e))
  {
    hide Overlaid, DisjointTargets, Parse, RouteOf, Install, DelRoute, Incomplete;
    var live', name, w' := Deliver(live, x.e), x.e.n.name, w + WithdrawnBy(self, live, x.e);
    SameOthers(live, x.e);
    if name == self || (x.e.Updated? && RouteOf(x.e.prev) == RouteOf(x.e.n)) {
      UnchangedTargets(self, live, x.e);
      assert w' == w;
      SameTargetsOverlaid(self, live, live', v.kernel, k, w);
    } else if x.e.Added? {
      assert w' == w && live' - {name} == live;
      PutIn(self, live', v, k, w, name);
    } else {
      TakenOut(self, live, v, k, w, name);
      assert TargetOf(self, live, name).None? ==> w' == w;
      if TargetOf(self, live, name).None? { UnparsedAddsNothing(v.kernel, RouteOf(live[name])); }
      if x.e.Updated? {
        var r := RouteOf(x.e.prev);
        if Incomplete(r) { EmptyDoesNotParse(r); }
        PutIn(self, live', if Incomplete(r) then v else Uninstall(v, name, r, false), k, w', name);
      }
    }
  }

  lemma KeysAttempted(live: Live, x: Stimulus<GwFails>)
    requires InOrder(live, x.e) && !x.f.add
    ensures AttemptedBy(AddWorks, live.Keys, x) == Deliver(live, x.e).Keys
  {
    hide RouteOf;
  }

  lemma {:induction false} RunOverlays(self: string, live: Live, v: Gw, run: seq<Stimulus<GwFails>>,
                                       k: Routes, w: set<Target>)
    requires Current(self, live, v) && Records(self, live, v, live.Keys) && DisjointTargets(self, live)
    requires Overlaid(self, live, v.kernel, k, w)
    requires Legal(self, live, run) && AddsWork(run) && DeletesWork(run)
    ensures DisjointTargets(self, LiveAfter(live, run))
    ensures Overlaid(self, LiveAfter(live, run), Run(self, v, run).kernel, k, w + Withdrawn(self, live, run))
    decreases |run|
  {
    hide Current, Records, Overlaid, DisjointTargets, Handle, Deliver, InOrder, WithdrawnBy;
    if run == [] {
      assert w + Withdrawn(self, live, run) == w;
    } else {
      HandleCurrent(self, live, v, run[0]);
      HandleRecords(self, live, v, run[0], live.Keys);
      KeysAttempted(live, run[0]);
      HandleOverlays(self, live, v, run[0], k, w);
      var w' := w + WithdrawnBy(self, live, run[0].e);
      var live' := Deliver(live, run[0].e);
      assert w' + Withdrawn(self, live', run[1..]) == w + Withdrawn(self, live, run);
      RunOverlays(self, live', Handle(self, v, run[0]), run[1..], k, w');
    }
  }

  /** Restart: on any routes k, after a legal run in which no call fails, every live remote node that
      parses is recorded and has a route for its CIDR; its gateway is the node's if and only if k
      had no route for the CIDR, or one with this gateway, or one the run deleted. */
  lemma RestartGateway(self: string, k: Routes, run: seq<Stimulus<GwFails>>, n: string)
    requires Legal(self, map[], run) && AddsWork(run) && DeletesWork(run)
    requires TargetOf(self, LiveAfter(map[], run), n).Some?
    ensures var g, v := TargetOf(self, LiveAfter(map[], run), n).value, Run(self, Gw(map[], k), run);
            && n in v.recorded && g.cidr in v.kernel
            && (v.kernel[g.cidr] == g.nodeIP <==>
                  g.cidr !in k || k[g.cidr] == g.nodeIP || Target(g.cidr, k[g.cidr]) in Withdrawn(self, map[], run))
  {
    hide Legal, TargetOf, Handle, DisjointTargets, AddsWork, DeletesWork, Run, Withdrawn, LiveAfter;
    var live, v := LiveAfter(map[], run), Run(self, Gw(map[], k), run);
    var g, w := TargetOf(self, live, n).value, Withdrawn(self, map[], run);
    NothingLive(self, k);
    RunOverlays(self, map[], Gw(map[], k), run, k, {});
    RecordedExactly(self, k, run);
    assert {} + w == w;
    if !Stays(k, w, g.cidr) {
      var m :| LeadsTo(self, live, m, g.cidr, v.kernel[g.cidr]);
      if m != n { DistinctBases(self, live, m, n); }
    }
  }

  lemma NothingLive(self: string, k: Routes)
    ensures Overlaid(self, map[], k, k, {}) && DisjointTargets(self, map[])
    ensures Current(self, map[], Gw(map[], k)) && Records(self, map[], Gw(map[], k), {})
  {
  }

  lemma {:induction false} ReplayWithdrawsNothing(self: string, live: Live, run: seq<Stimulus<GwFails>>)
    requires Legal(self, live, run) && Replay(run)
    ensures Withdrawn(self, live, run) == {}
    decreases |run|
  {
    hide DisjointTargets, Parse, RouteOf;
    if run != [] {
      ReplayWithdrawsNothing(self, Deliver(live, run[0].e), run[1..]);
    }
  }

  /** For the replay itself the condition is on the leftover routes alone. */
  lemma ReplayGateway(self: string, k: Routes, run: seq<Stimulus<GwFails>>, n: string)
    requires Legal(self, map[], run) && AddsWork(run) && DeletesWork(run) && Replay(run)
    requires TargetOf(self, LiveAfter(map[], run), n).Some?
    ensures var g, v := TargetOf(self, LiveAfter(map[], run), n).value, Run(self, Gw(map[], k), run);
            && n in v.recorded && g.cidr in v.kernel
            && (v.kernel[g.cidr] == g.nodeIP <==> g.cidr !in k || k[g.cidr] == g.nodeIP)
  {
    hide Legal, TargetOf, Run, LiveAfter, Withdrawn;
    RestartGateway(self, k, run, n);
    ReplayWithdrawsNothing(self, map[], run);
  }

  /** Nothing fails, and the old gateway stays: a node is added, the agent stops, the node's IP
      changes, and the agent starts again and is told of the node. */
  lemma IPChangeWhileDown(c: Subnet, was: IP, ip: IP)
    requires was != ip
    ensures exists before, run :: OldGatewayStays(before, run, "x")
  {
    hide Legal, NodeAt, RouteOf, Parse, Run;
    var before, run := [FirstSeen(NodeAt("x", c, was))], [FirstSeen(NodeAt("x", c, ip))];
    OneAdd(c, was, map[]);
    var k := Run("self", Gw(map[], map[]), before).kernel;
    OneAdd(c, ip, k);
    assert OldGatewayStays(before, run, "x");
  }

  function FirstSeen(n: Node): Stimulus<GwFails> {
    Stimulus(Added(n), GwFails(false, false))
  }

  /** A whole life on empty routes, and a second one on the routes it left. */
  ghost predicate OldGatewayStays(before: seq<Stimulus<GwFails>>, run: seq<Stimulus<GwFails>>, n: string) {
    && Legal("self", map[], before) && AddsWork(before) && DeletesWork(before)
    && Legal("self", map[], run) && AddsWork(run) && DeletesWork(run)
    && WrongGateway(Run("self", Gw(map[], Run("self", Gw(map[], map[]), before).kernel), run), n)
  }

  lemma OneAdd(c: Subnet, ip: IP, k: Routes)
    ensures var run, r := [FirstSeen(NodeAt("x", c, ip))], RouteOf(NodeAt("x", c, ip));
            && Legal("self", map[], run) && AddsWork(run) && DeletesWork(run)
            && Parse(r) == Some(Target(c, ip))
            && Run("self", Gw(map[], k), run)
            == Gw(map["x" := r], if c in k then k else k[c := ip])
  {
    hide Parse, RouteOf, NodeAt, Incomplete, Disjoint;
    NodeAtTarget("x", c, ip);
    NodeAtName("x", c, ip);
    var run := [FirstSeen(NodeAt("x", c, ip))];
    assert run[1..] == [];
  }
}
