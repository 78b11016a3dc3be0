/** The host-gateway controller (pkg/nodesync/hostgw.go): the same events over one route table in
    which adding an existing route counts as success whatever its gateway. */
module HostGateway {
  import opened Wrappers
  import opened IPv4
  import opened Subnets
  import opened Cluster
  import opened Kernel

  type Routes = map<Subnet, IP>

  datatype Gw = Gw(recorded: map<string, NodeRoute>, kernel: Routes)

  datatype GwFails = GwFails(del: bool, add: bool)

  // ----- handlers as state changes -----

  function AddRoute(k: Routes, r: NodeRoute, fails: bool): (Routes, bool) {
    match Parse(r)
    case None => (k, false)
    case Some(g) =>
      if fails then (k, false)
      else if g.cidr in k then (k, true)
      else (k[g.cidr := g.nodeIP], true)
  }

  function DelRoute(k: Routes, r: NodeRoute, fails: bool): Routes {
    match Parse(r)
    case None => k
    case Some(g) => if !fails && g.cidr in k && k[g.cidr] == g.nodeIP then k - {g.cidr} else k
  }

  function Install(v: Gw, name: string, r: NodeRoute, fails: bool): Gw {
    if Incomplete(r) then v
    else
      var (k, ok) := AddRoute(v.kernel, r, fails);
      Gw(if ok then v.recorded[name := r] else v.recorded, k)
  }

  function Uninstall(v: Gw, name: string, r: NodeRoute, fails: bool): Gw {
    Gw(v.recorded - {name}, DelRoute(v.kernel, r, fails))
  }

  function OnAdd(self: string, v: Gw, n: Node, fails: bool): Gw {
    if n.name == self then v else Install(v, n.name, RouteOf(n), fails)
  }

  function OnUpdate(self: string, v: Gw, prev: Node, n: Node, f: GwFails): Gw {
    if n.name == self || RouteOf(prev) == RouteOf(n) then v
    else
      var v1 := if Incomplete(RouteOf(prev)) then v else Uninstall(v, prev.name, RouteOf(prev), f.del);
      Install(v1, n.name, RouteOf(n), f.add)
  }

  function OnDelete(self: string, v: Gw, n: Node, fails: bool): Gw {
    if n.name == self || n.name !in v.recorded then v
    else Uninstall(v, n.name, v.recorded[n.name], fails)
  }

  function Handle(self: string, v: Gw, x: Stimulus<GwFails>): Gw {
    match x.e
    case Added(n) => OnAdd(self, v, n, x.f.add)
    case Updated(prev, n) => OnUpdate(self, v, prev, n, x.f)
    case Deleted(n) => OnDelete(self, v, n, x.f.del)
  }

  function Run(self: string, v: Gw, run: seq<Stimulus<GwFails>>): Gw
    decreases |run|
  {
    if run == [] then v else Run(self, Handle(self, v, run[0]), run[1..])
  }

  // ----- agreement -----

  /** Every recorded node has a kernel route for its CIDR with exactly the recorded gateway, and
      the kernel holds no other route. */
  ghost predicate Agree(v: Gw) {
    && (forall n :: n in v.recorded ==> HasRoute(v, n))
    && (forall c :: c in v.kernel ==> exists n :: RecordedFor(v, n, c))
  }

  predicate HasRoute(v: Gw, n: string)
    requires n in v.recorded
  {
    match Parse(v.recorded[n])
    case None => false
    case Some(g) => g.cidr in v.kernel && v.kernel[g.cidr] == g.nodeIP
  }

  predicate RecordedFor(v: Gw, n: string, c: Subnet) {
    n in v.recorded && Parse(v.recorded[n]).Some? && Parse(v.recorded[n]).value.cidr == c
  }

  /** Recorded nodes are live, with their current route. */
  ghost predicate Current(self: string, live: Live, v: Gw) {
    forall n :: n in v.recorded ==> TargetOf(self, live, n).Some? && v.recorded[n] == RouteOf(live[n])
  }

  ghost predicate Apart(v: Gw) {
    forall m, n ::
      m in v.recorded && n in v.recorded && m != n &&
      Parse(v.recorded[m]).Some? && Parse(v.recorded[n]).Some? ==>
        Parse(v.recorded[m]).value.cidr != Parse(v.recorded[n]).value.cidr
  }

  lemma CurrentApart(self: string, live: Live, v: Gw)
    requires DisjointTargets(self, live) && Current(self, live, v)
    ensures Apart(v)
  {
    hide Parse, RouteOf, Disjoint;
    forall m, n |
      m in v.recorded && n in v.recorded && m != n &&
      Parse(v.recorded[m]).Some? && Parse(v.recorded[n]).Some?
      ensures Parse(v.recorded[m]).value.cidr != Parse(v.recorded[n]).value.cidr
    {
      DistinctBases(self, live, m, n);
    }
  }

  lemma UninstallAgrees(v: Gw, name: string, r: NodeRoute)
    requires Agree(v) && Apart(v)
    requires name in v.recorded ==> v.recorded[name] == r
    requires name !in v.recorded ==> Unused(v, r)
    ensures Agree(Uninstall(v, name, r, false))
  {
    hide Parse, HasRoute, RecordedFor;
    if name in v.recorded {
      OthersKeepRoutes(v, name);
      RoutesKeepOwners(v, name);
    } else {
      assert Uninstall(v, name, r, false) == v by { UnusedStays(v, r); }
    }
  }

  lemma UnusedStays(v: Gw, r: NodeRoute)
    requires Unused(v, r)
    ensures DelRoute(v.kernel, r, false) == v.kernel
  {
  }

  lemma OthersKeepRoutes(v: Gw, name: string)
    requires Agree(v) && Apart(v) && name in v.recorded
    ensures var w := Uninstall(v, name, v.recorded[name], false);
            forall n :: n in w.recorded ==> HasRoute(w, n)
  {
    hide Parse, RecordedFor;
    assert HasRoute(v, name);
    forall n | n in v.recorded
      ensures HasRoute(v, n)
    {
    }
  }

  lemma RoutesKeepOwners(v: Gw, name: string)
    requires Agree(v) && name in v.recorded
    ensures var w := Uninstall(v, name, v.recorded[name], false);
            forall c :: c in w.kernel ==> exists n :: RecordedFor(w, n, c)
  {
    hide Parse;
    assert HasRoute(v, name);
    var w := Uninstall(v, name, v.recorded[name], false);
    forall c | c in w.kernel
      ensures exists n :: RecordedFor(w, n, c)
    {
      var n :| RecordedFor(v, n, c);
      assert RecordedFor(w, n, c);
    }
  }

  /** No kernel route has this CIDR. */
  predicate Unused(v: Gw, r: NodeRoute) {
    Parse(r).Some? ==> Parse(r).value.cidr !in v.kernel
  }

  lemma InstallAgrees(v: Gw, name: string, r: NodeRoute, fails: bool)
    requires Agree(v) && name !in v.recorded && Unused(v, r)
    ensures Agree(Install(v, name, r, fails))
  {
    hide Parse;
    var w := Install(v, name, r, fails);
    if !Incomplete(r) && AddRoute(v.kernel, r, fails).1 {
      var g := Parse(r).value;
      forall n | n in w.recorded
        ensures HasRoute(w, n)
      {
        if n != name { assert HasRoute(v, n); }
      }
      assert RecordedFor(w, name, g.cidr);
      forall c | c in w.kernel
        ensures exists n :: RecordedFor(w, n, c)
      {
        if c != g.cidr {
          var n :| RecordedFor(v, n, c);
          assert RecordedFor(w, n, c);
        }
      }
    }
  }

  /** The CIDR of a live node that is not recorded is in no kernel route. */
  lemma UnrecordedUnused(self: string, live: Live, v: Gw, name: string)
    requires Agree(v) && Current(self, live - {name}, v)
    requires DisjointTargets(self, live) && name in live && name != self && name !in v.recorded
    ensures Unused(v, RouteOf(live[name]))
  {
    hide Parse, RouteOf, Disjoint;
    if Parse(RouteOf(live[name])).Some? {
      var c := Parse(RouteOf(live[name])).value.cidr;
      if c in v.kernel {
        var n :| RecordedFor(v, n, c);
        assert TargetOf(self, live, n) == TargetOf(self, live - {name}, n);
        DistinctBases(self, live, n, name);
      }
    }
  }

  lemma CurrentFrame(self: string, live: Live, live': Live, v: Gw, w: Gw, name: string)
    requires Current(self, live, v) && live - {name} == live' - {name}
    requires name !in w.recorded && forall n :: n in w.recorded ==> n in v.recorded && v.recorded[n] == w.recorded[n]
    ensures Current(self, live' - {name}, w) && Current(self, live', w)
  {
    hide Parse, RouteOf;
    forall n | n in w.recorded
      ensures TargetOf(self, live', n) == TargetOf(self, live, n) == TargetOf(self, live' - {name}, n)
      ensures live'[n] == live[n]
    {
      assert n in live - {name};
    }
  }

  lemma CurrentInstall(self: string, live: Live, v: Gw, name: string, fails: bool)
    requires Current(self, live, v) && name in live && name != self
    ensures Current(self, live, Install(v, name, RouteOf(live[name]), fails))
  {
    hide Parse, RouteOf;
  }

  lemma CurrentSame(self: string, live: Live, e: Event, v: Gw)
    requires InOrder(live, e) && Current(self, live, v)
    requires e.n.name == self || (e.Updated? && RouteOf(e.prev) == RouteOf(e.n))
    ensures Current(self, Deliver(live, e), v)
  {
    hide Parse, RouteOf;
  }

  lemma TargetlessUnrecorded(self: string, live: Live, v: Gw, name: string)
    requires Current(self, live, v) && TargetOf(self, live, name).None?
    ensures name !in v.recorded
  {
  }

  lemma RecordedRoute(self: string, live: Live, v: Gw, name: string)
    requires Current(self, live, v) && name in v.recorded
    ensures name != self && name in live && v.recorded[name] == RouteOf(live[name])
  {
  }

  /** One event, any failures: recorded nodes are live, with their current route. */
  lemma HandleCurrent(self: string, live: Live, v: Gw, x: Stimulus<GwFails>)
    requires Current(self, live, v) && InOrder(live, x.e)
    ensures Current(self, Deliver(live, x.e), Handle(self, v, x))
  {
    hide Current, Install, RouteOf, Parse, DelRoute;
    var live' := Deliver(live, x.e);
    var name := x.e.n.name;
    SameOthers(live, x.e);
    if name == self || (x.e.Updated? && RouteOf(x.e.prev) == RouteOf(x.e.n)) {
      CurrentSame(self, live, x.e, v);
    } else {
      match x.e {
        case Added(n) =>
          TargetlessUnrecorded(self, live, v, name);
          CurrentFrame(self, live, live', v, v, name);
          CurrentInstall(self, live', v, name, x.f.add);
        case Updated(prev, n) =>
          var w := if Incomplete(RouteOf(prev)) then v else Uninstall(v, name, RouteOf(prev), x.f.del);
          if Incomplete(RouteOf(prev)) {
            EmptyDoesNotParse(RouteOf(prev));
            TargetlessUnrecorded(self, live, v, name);
          }
          CurrentFrame(self, live, live', v, w, name);
          CurrentInstall(self, live', w, name, x.f.add);
        case Deleted(n) =>
          CurrentFrame(self, live, live', v, Handle(self, v, x), name);
      }
    }
  }

  function AddWorks(f: GwFails): bool {
    !f.add
  }

  /** Recorded are the live remote nodes with a target among these. */
  ghost predicate Records(self: string, live: Live, v: Gw, done: set<string>) {
    forall n :: n in v.recorded <==> n in done && TargetOf(self, live, n).Some?
  }

  /** One event, any failures, any routes: an addition or a change of strings is always attempted,
      also when the deletion before it failed, and it alone decides whether the node is recorded. */
  lemma HandleRecords(self: string, live: Live, v: Gw, x: Stimulus<GwFails>, done: set<string>)
    requires Records(self, live, v, done) && InOrder(live, x.e)
    ensures Records(self, Deliver(live, x.e), Handle(self, v, x), AttemptedBy(AddWorks, done, x))
  {
    hide Parse, RouteOf, DelRoute;
    var r := RouteOf(x.e.n);
    if Incomplete(r) { EmptyDoesNotParse(r); }
    if x.e.Updated? && Incomplete(RouteOf(x.e.prev)) { EmptyDoesNotParse(RouteOf(x.e.prev)); }
    forall m | m != x.e.n.name
      ensures TargetOf(self, Deliver(live, x.e), m) == TargetOf(self, live, m)
    {
    }
  }

  lemma {:induction false} RunRecords(self: string, live: Live, v: Gw, run: seq<Stimulus<GwFails>>, done: set<string>)
    requires Records(self, live, v, done) && Legal(self, live, run)
    ensures Records(self, LiveAfter(live, run), Run(self, v, run), Attempted(AddWorks, done, run))
    decreases |run|
  {
    hide Records, DisjointTargets, Handle, Deliver, InOrder, AttemptedBy;
    if run != [] {
      HandleRecords(self, live, v, run[0], done);
      RunRecords(self, Deliver(live, run[0].e), Handle(self, v, run[0]), run[1..],
                 AttemptedBy(AddWorks, done, run[0]));
    }
  }

  predicate AddsWork(run: seq<Stimulus<GwFails>>) {
    forall i :: 0 <= i < |run| ==> !run[i].f.add
  }

  lemma {:induction false} RunCurrent(self: string, live: Live, v: Gw, run: seq<Stimulus<GwFails>>)
    requires Current(self, live, v) && Legal(self, live, run)
    ensures Current(self, LiveAfter(live, run), Run(self, v, run))
    decreases |run|
  {
    hide Current, DisjointTargets, Handle, Deliver, InOrder;
    if run != [] {
      HandleCurrent(self, live, v, run[0]);
      RunCurrent(self, Deliver(live, run[0].e), Handle(self, v, run[0]), run[1..]);
    }
  }

  /** Nobody is missed by a run whose additions work. */
  lemma {:induction false} AllAttempted(self: string, live: Live, run: seq<Stimulus<GwFails>>, done: set<string>)
    requires Legal(self, live, run) && AddsWork(run) && live.Keys <= done
    ensures LiveAfter(live, run).Keys <= Attempted(AddWorks, done, run)
    decreases |run|
  {
    hide DisjointTargets, RouteOf;
    if run != [] {
      AllAttempted(self, Deliver(live, run[0].e), run[1..], AttemptedBy(AddWorks, done, run[0]));
    }
  }

  /** What is recorded, exactly, whatever fails: after any legal run of a new process on any routes, a
      live remote node whose CIDR and IP parse is recorded if and only if its latest addition or change
      of strings met no failing call while adding, and then with its current route. If additions work
      that is every such node. */
  lemma RecordedExactly(self: string, k: Routes, run: seq<Stimulus<GwFails>>)
    requires Legal(self, map[], run)
    ensures var live, v := LiveAfter(map[], run), Run(self, Gw(map[], k), run);
            && (forall n :: n in v.recorded <==> n in Attempted(AddWorks, {}, run) && TargetOf(self, live, n).Some?)
            && (forall n :: n in v.recorded ==> v.recorded[n] == RouteOf(live[n]))
            && (AddsWork(run) ==> forall n :: n in v.recorded <==> TargetOf(self, live, n).Some?)
  {
    hide Legal, Handle, Parse, RouteOf, Attempted;
    RunCurrent(self, map[], Gw(map[], k), run);
    RunRecords(self, map[], Gw(map[], k), run, {});
    if AddsWork(run) { AllAttempted(self, map[], run, {}); }
  }

  /** Replacing or adding one node's route when deletions work. */
  lemma ReplaceAgrees(self: string, live: Live, live': Live, v: Gw, w: Gw, name: string, fails: bool)
    requires Current(self, live, v) && Agree(w) && DisjointTargets(self, live')
    requires live - {name} == live' - {name} && name in live' && name != self
    requires name !in w.recorded && forall n :: n in w.recorded ==> n in v.recorded && v.recorded[n] == w.recorded[n]
    ensures Agree(Install(w, name, RouteOf(live'[name]), fails))
  {
    hide Agree, Current, DisjointTargets, Install, RouteOf;
    CurrentFrame(self, live, live', v, w, name);
    UnrecordedUnused(self, live', w, name);
    InstallAgrees(w, name, RouteOf(live'[name]), fails);
  }

  lemma TakeDown(self: string, live: Live, v: Gw, name: string)
    requires Agree(v) && Current(self, live, v) && DisjointTargets(self, live)
    requires name in live && name != self
    ensures Agree(Uninstall(v, name, RouteOf(live[name]), false))
  {
    hide Agree, DisjointTargets, Uninstall, RouteOf, Parse;
    CurrentApart(self, live, v);
    if name !in v.recorded {
      CurrentFrame(self, live, live, v, v, name);
      UnrecordedUnused(self, live, v, name);
    }
    UninstallAgrees(v, name, RouteOf(live[name]));
  }

  lemma HandleAgrees(self: string, live: Live, v: Gw, x: Stimulus<GwFails>)
    requires Agree(v) && Current(self, live, v) && DisjointTargets(self, live)
    requires InOrder(live, x.e) && DisjointTargets(self, Deliver(live, x.e)) && !x.f.del
    ensures Agree(Handle(self, v, x)) && Current(self, Deliver(live, x.e), Handle(self, v, x))
  {
    hide Agree, Current, DisjointTargets, Install, RouteOf, Parse, DelRoute;
    var live' := Deliver(live, x.e);
    var name := x.e.n.name;
    SameOthers(live, x.e);
    HandleCurrent(self, live, v, x);
    if name != self && !(x.e.Updated? && RouteOf(x.e.prev) == RouteOf(x.e.n)) {
      match x.e {
        case Added(n) =>
          TargetlessUnrecorded(self, live, v, name);
          ReplaceAgrees(self, live, live', v, v, name, x.f.add);
        case Updated(prev, n) =>
          if Incomplete(RouteOf(prev)) {
            EmptyDoesNotParse(RouteOf(prev));
            TargetlessUnrecorded(self, live, v, name);
            ReplaceAgrees(self, live, live', v, v, name, x.f.add);
          } else {
            TakeDown(self, live, v, name);
            ReplaceAgrees(self, live, live', v, Uninstall(v, name, RouteOf(prev), false), name, x.f.add);
          }
        case Deleted(n) =>
          if name in v.recorded {
            RecordedRoute(self, live, v, name);
            TakeDown(self, live, v, name);
          }
      }
    }
  }

  predicate DeletesWork(run: seq<Stimulus<GwFails>>) {
    forall i :: 0 <= i < |run| ==> !run[i].f.del
  }

  lemma {:induction false} RunAgrees(self: string, live: Live, v: Gw, run: seq<Stimulus<GwFails>>)
    requires Agree(v) && Current(self, live, v) && DisjointTargets(self, live)
    requires Legal(self, live, run) && DeletesWork(run)
    ensures Agree(Run(self, v, run)) && Current(self, LiveAfter(live, run), Run(self, v, run))
    decreases |run|
  {
    hide Agree, Current, DisjointTargets, Handle, Deliver, InOrder;
    if run != [] {
      HandleAgrees(self, live, v, run[0]);
      RunAgrees(self, Deliver(live, run[0].e), Handle(self, v, run[0]), run[1..]);
    }
  }

  /** Host-gateway agreement: with no node routes at the start and deletions that work, additions
      failing at will, after any legal run every recorded node has a kernel route for its CIDR
      with exactly its recorded gateway, which is the live node's, and there is no other route. If
      additions work too, every live remote node whose CIDR and IP parse is recorded. */
  lemma GatewayAgreement(self: string, run: seq<Stimulus<GwFails>>)
    requires Legal(self, map[], run) && DeletesWork(run)
    ensures var live, v := LiveAfter(map[], run), Run(self, Gw(map[], map[]), run);
            && (forall n :: n in v.recorded ==>
                  && TargetOf(self, live, n).Some? && v.recorded[n] == RouteOf(live[n])
                  && TargetOf(self, live, n).value.cidr in v.kernel
                  && v.kernel[TargetOf(self, live, n).value.cidr] == TargetOf(self, live, n).value.nodeIP)
            && (forall c :: c in v.kernel ==>
                  exists n ::
                    n in v.recorded && TargetOf(self, live, n).Some? && TargetOf(self, live, n).value.cidr == c)
            && (AddsWork(run) ==> forall n :: TargetOf(self, live, n).Some? ==> n in v.recorded)
  {
    hide Legal, Handle, Parse, RouteOf;
    RecordedExactly(self, map[], run);
    RunAgrees(self, map[], Gw(map[], map[]), run);
    var live, v := LiveAfter(map[], run), Run(self, Gw(map[], map[]), run);
    forall n | n in v.recorded
      ensures HasRoute(v, n) && TargetOf(self, live, n) == Parse(v.recorded[n])
    {
    }
    forall c | c in v.kernel
      ensures exists n :: n in v.recorded && TargetOf(self, live, n).Some? && TargetOf(self, live, n).value.cidr == c
    {
      var n :| RecordedFor(v, n, c);
      assert TargetOf(self, live, n) == Parse(v.recorded[n]);
    }
  }

  // ----- when a deletion fails -----

  /** addRoute leaves the right gateway exactly when there was no route or one with that gateway. */
  lemma AddRouteTrustsExisting(k: Routes, r: NodeRoute)
    requires Parse(r).Some?
    ensures var (k', ok), g := AddRoute(k, r, false), Parse(r).value;
            && ok && g.cidr in k'
            && (k'[g.cidr] == g.nodeIP <==> (g.cidr !in k || k[g.cidr] == g.nodeIP))
  {
  }

  /** When a failing deletion does no harm: it was not attempted for a recorded node, or the new
      strings are installed at once and parse to the same CIDR and address as the old ones. */
  predicate Forgiven(v: Gw, e: Event, addFails: bool) {
    e.n.name in v.recorded ==>
      match e
      case Added(_) => true
      case Deleted(_) => false
      case Updated(prev, n) =>
        RouteOf(prev) == RouteOf(n) ||
        (!addFails && !Incomplete(RouteOf(n)) && Parse(RouteOf(n)) == Parse(RouteOf(prev)))
  }

  /** Deletions must work: an event whose deletion fails, starting in agreement, ends in agreement if
      and only if the failure is forgiven. */
  lemma FailedDeleteBreaksAgreement(self: string, live: Live, v: Gw, e: Event, addFails: bool)
    requires Agree(v) && Current(self, live, v) && DisjointTargets(self, live)
    requires InOrder(live, e) && DisjointTargets(self, Deliver(live, e))
    ensures Agree(Handle(self, v, Stimulus(e, GwFails(true, addFails)))) <==> Forgiven(v, e, addFails)
  {
    hide Agree, Current, DisjointTargets, Parse, Install, DelRoute, RouteOf;
    var name := e.n.name;
    var live' := Deliver(live, e);
    SameOthers(live, e);
    if name in v.recorded {
      RecordedRoute(self, live, v, name);
      CurrentApart(self, live, v);
      FailedDelRoute(v.kernel, v.recorded[name]);
      match e {
        case Added(n) =>
        case Updated(prev, n) =>
          EmptyUnrecorded(v, name);
          LeftBehind(v, name, RouteOf(n), addFails);
        case Deleted(n) =>
          RouteOrphaned(v, name);
      }
    } else if name != self && !e.Deleted? {
      assert e.Updated? ==> v.recorded - {name} == v.recorded;
      if e.Updated? { FailedDelRoute(v.kernel, RouteOf(e.prev)); }
      ReplaceAgrees(self, live, live', v, v, name, addFails);
    }
  }

  lemma EmptyUnrecorded(v: Gw, name: string)
    requires Agree(v) && name in v.recorded
    ensures !Incomplete(v.recorded[name])
  {
    hide Parse, Incomplete;
    assert HasRoute(v, name);
    if Incomplete(v.recorded[name]) { EmptyDoesNotParse(v.recorded[name]); }
  }

  /** Dropping the record of a node and keeping its route breaks agreement. */
  lemma RouteOrphaned(v: Gw, name: string)
    requires Agree(v) && Apart(v) && name in v.recorded
    ensures !Agree(Gw(v.recorded - {name}, v.kernel))
  {
    hide Parse;
    assert HasRoute(v, name);
    var c := Parse(v.recorded[name]).value.cidr;
    var w := Gw(v.recorded - {name}, v.kernel);
    assert forall n :: !RecordedFor(w, n, c);
  }

  lemma FailedDelRoute(k: Routes, r: NodeRoute)
    ensures DelRoute(k, r, true) == k
  {
  }

  /** The route of a node no longer recorded stays unrecorded unless the node's new route is
      installed and is the same one. */
  lemma StuckRoute(v: Gw, name: string, s: NodeRoute, addFails: bool)
    requires Agree(v) && Apart(v) && name in v.recorded
    requires Agree(Install(Gw(v.recorded - {name}, v.kernel), name, s, addFails))
    ensures !addFails && !Incomplete(s) && Parse(s) == Parse(v.recorded[name])
  {
    hide Parse, Incomplete;
    var z := Install(Gw(v.recorded - {name}, v.kernel), name, s, addFails);
    assert HasRoute(v, name);
    var g := Parse(v.recorded[name]).value;
    assert g.cidr in z.kernel && z.kernel[g.cidr] == g.nodeIP;
    var n :| RecordedFor(z, n, g.cidr);
    assert n == name;
    assert HasRoute(z, name);
  }

  lemma LeftBehind(v: Gw, name: string, s: NodeRoute, addFails: bool)
    requires Agree(v) && Apart(v) && name in v.recorded
    ensures Agree(Install(Gw(v.recorded - {name}, v.kernel), name, s, addFails))
       <==> (!addFails && !Incomplete(s) && Parse(s) == Parse(v.recorded[name]))
  {
    hide Parse, Incomplete;
    var z := Install(Gw(v.recorded - {name}, v.kernel), name, s, addFails);
    assert HasRoute(v, name);
    if !addFails && !Incomplete(s) && Parse(s) == Parse(v.recorded[name]) {
      forall n | n in z.recorded
        ensures HasRoute(z, n)
      {
        assert HasRoute(v, n);
      }
      forall c | c in z.kernel
        ensures exists n :: RecordedFor(z, n, c)
      {
        var n :| RecordedFor(v, n, c);
        assert RecordedFor(z, n, c);
      }
    }
    if Agree(z) {
      StuckRoute(v, name, s, addFails);
    }
  }

  /** A recorded node whose kernel route has another gateway. */
  predicate WrongGateway(v: Gw, n: string) {
    && n in v.recorded && Parse(v.recorded[n]).Some?
    && var g := Parse(v.recorded[n]).value;
       g.cidr in v.kernel && v.kernel[g.cidr] != g.nodeIP
  }

  /** The break is reached from empty routes by two events: a node is added and then changes its IP
      while the deletion fails. The route keeps the old gateway and is recorded with the new one. */
  lemma FailedDeleteLeavesOldGateway(c: Subnet, was: IP, ip: IP)
    requires was != ip
    ensures exists run :: Legal("self", map[], run) && AddsWork(run)
                       && WrongGateway(Run("self", Gw(map[], map[]), run), "x")
  {
    hide Parse, RouteOf, NodeAt, Legal, Handle, Incomplete;
    var prev, n := NodeAt("x", c, was), NodeAt("x", c, ip);
    NodeAtTarget("x", c, was);
    NodeAtTarget("x", c, ip);
    NodeAtName("x", c, was);
    NodeAtName("x", c, ip);
    var run := [Stimulus(Added(prev), GwFails(false, false)), Stimulus(Updated(prev, n), GwFails(true, false))];
    AddThenUpdateIsLegal(prev, n, run);
    var v1 := Gw(map["x" := RouteOf(prev)], map[c := was]);
    var v2 := Gw(map["x" := RouteOf(n)], map[c := was]);
    assert Handle("self", Gw(map[], map[]), run[0]) == v1 by { FirstRoute(prev, Target(c, was)); }
    assert Handle("self", v1, run[1]) == v2 by { FailedMove(prev, n, Target(c, was), ip); }
    assert run[1..] == [run[1]] && [run[1]][1..] == [];
    assert Run("self", v1, [run[1]]) == v2;
  }

  lemma FirstRoute(n: Node, g: Target)
    requires n.name == "x" && Parse(RouteOf(n)) == Some(g) && !Incomplete(RouteOf(n))
    ensures Handle("self", Gw(map[], map[]), Stimulus(Added(n), GwFails(false, false)))
         == Gw(map["x" := RouteOf(n)], map[g.cidr := g.nodeIP])
  {
    hide Parse, RouteOf, Incomplete;
  }

  lemma FailedMove(prev: Node, n: Node, g: Target, ip: IP)
    requires prev.name == n.name == "x" && Parse(RouteOf(prev)) == Some(g) && !Incomplete(RouteOf(prev))
    requires Parse(RouteOf(n)) == Some(Target(g.cidr, ip)) && !Incomplete(RouteOf(n)) && ip != g.nodeIP
    ensures Handle("self", Gw(map["x" := RouteOf(prev)], map[g.cidr := g.nodeIP]),
                   Stimulus(Updated(prev, n), GwFails(true, false)))
         == Gw(map["x" := RouteOf(n)], map[g.cidr := g.nodeIP])
  {
    hide Parse, RouteOf, Incomplete;
  }

  lemma AddThenUpdateIsLegal(prev: Node, n: Node, run: seq<Stimulus<GwFails>>)
    requires prev.name == n.name == "x" && |run| == 2 && run[0].e == Added(prev) && run[1].e == Updated(prev, n)
    ensures Legal("self", map[], run)
  {
    hide Parse, RouteOf, Disjoint;
    assert Legal("self", map["x" := n], run[1..][1..]);
    assert Legal("self", map["x" := prev], run[1..]);
  }

  // ----- the controller object -----

  class HostGatewayController {
    const nodeName: string
    const kernel: RouteTable
    var routes: map<string, NodeRoute>

    constructor (nodeName: string, kernel: RouteTable)
      ensures this.nodeName == nodeName && this.kernel == kernel && routes == map[]
    {
      this.nodeName := nodeName;
      this.kernel := kernel;
      routes := map[];
    }

    ghost function State(): Gw
      reads this, kernel
    {
      Gw(routes, kernel.routes)
    }

    method OnNodeAdd(node: Node, fails: bool)
      modifies this, kernel
      ensures State() == OnAdd(nodeName, old(State()), node, fails)
      ensures node.name == nodeName || Parse(RouteOf(node)).None? ==> State() == old(State())
      ensures node.name != nodeName && Parse(RouteOf(node)).Some? && !fails ==>
                node.name in routes && routes[node.name] == RouteOf(node)
    {
      if node.name == nodeName {
        return;
      }
      var podCIDR := node.podCIDR;
      var nodeIP := FindInternalIP(node);
      if podCIDR == "" || nodeIP == "" {
        return;
      }
      var ok := AddNodeRoute(podCIDR, nodeIP, fails);
      if !ok {
        return;
      }
      routes := routes[node.name := NodeRoute(podCIDR, nodeIP)];
    }

    method OnNodeUpdate(prev: Node, node: Node, f: GwFails)
      modifies this, kernel
      ensures State() == OnUpdate(nodeName, old(State()), prev, node, f)
      ensures node.name == nodeName || RouteOf(prev) == RouteOf(node) ==> State() == old(State())
      ensures node.name != nodeName && RouteOf(prev) != RouteOf(node) && Parse(RouteOf(node)).Some? && !f.add ==>
                node.name in routes && routes[node.name] == RouteOf(node)
    {
      if node.name == nodeName {
        return;
      }
      var oldCIDR, newCIDR := prev.podCIDR, node.podCIDR;
      var oldIP := FindInternalIP(prev);
      var newIP := FindInternalIP(node);
      if oldCIDR == newCIDR && oldIP == newIP {
        return;
      }
      if oldCIDR != "" && oldIP != "" {
        DelNodeRoute(oldCIDR, oldIP, f.del);
        routes := routes - {prev.name};
      }
      if newCIDR != "" && newIP != "" {
        var ok := AddNodeRoute(newCIDR, newIP, f.add);
        if !ok {
          return;
        }
        routes := routes[node.name := NodeRoute(newCIDR, newIP)];
      }
    }

    method OnNodeDelete(node: Node, fails: bool)
      modifies this, kernel
      ensures State() == OnDelete(nodeName, old(State()), node, fails)
      ensures routes == if node.name == nodeName then old(routes) else old(routes) - {node.name}
      ensures node.name == nodeName || node.name !in old(routes) || fails ==> kernel.routes == old(kernel.routes)
    {
      if node.name == nodeName {
        return;
      }
      if node.name !in routes {
        return;
      }
      var r := routes[node.name];
      DelNodeRoute(r.podCIDR, r.nodeIP, fails);
      routes := routes - {node.name};
    }

    /** addRoute: "file exists" is success. */
    method AddNodeRoute(podCIDR: string, nodeIP: string, fails: bool) returns (ok: bool)
      modifies kernel
      ensures (kernel.routes, ok) == AddRoute(old(kernel.routes), NodeRoute(podCIDR, nodeIP), fails)
    {
      var dst := ParseCIDR(podCIDR);
      if dst.None? {
        return false;
      }
      var gw := ParseIP(nodeIP);
      if gw.None? {
        return false;
      }
      var e := kernel.RouteAdd(dst.value, gw.value, fails);
      return e.OK? || IsExists(e);
    }

    /** delRoute: the callers only log its error. */
    method DelNodeRoute(podCIDR: string, nodeIP: string, fails: bool)
      modifies kernel
      ensures kernel.routes == DelRoute(old(kernel.routes), NodeRoute(podCIDR, nodeIP), fails)
    {
      var dst := ParseCIDR(podCIDR);
      if dst.None? {
        return;
      }
      var gw := ParseIP(nodeIP);
      if gw.None? {
        return;
      }
      var _ := kernel.RouteDel(dst.value, gw.value, fails);
    }

    /** One delivered event keeps recorded routes and kernel in agreement, if its deletion works. */
    method HandleEvent(x: Stimulus<GwFails>, ghost live: Live)
      requires Agree(State()) && Current(nodeName, live, State()) && DisjointTargets(nodeName, live)
      requires InOrder(live, x.e) && DisjointTargets(nodeName, Deliver(live, x.e)) && !x.f.del
      modifies this, kernel
      ensures State() == Handle(nodeName, old(State()), x)
      ensures Agree(State()) && Current(nodeName, Deliver(live, x.e), State())
    {
      hide Agree, Current, DisjointTargets, OnAdd, OnUpdate, OnDelete;
      HandleAgrees(nodeName, live, State(), x);
      match x.e {
        case Added(n) => OnNodeAdd(n, x.f.add);
        case Updated(prev, n) => OnNodeUpdate(prev, n, x.f);
        case Deleted(n) => OnNodeDelete(n, x.f.del);
      }
    }
  }
}
