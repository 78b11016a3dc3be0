/** The VXLAN controller's event handlers as state changes (pkg/nodesync/vxlan.go), and what they
    keep over every legal run of node events, with and without kernel failures. */
module VxlanSync {
  import opened Wrappers
  import opened IPv4
  import opened Subnets
  import opened Cluster
  import opened Vxlan

  type Peers = map<string, NodeRoute>

  datatype Sync = Sync(peers: Peers, t: Tables)

  const START := Sync(map[], EMPTY)

  /** The failures a handler meets: in its deletion and in its addition. */
  datatype Fails = Fails(del: Fail, add: Fail)

  const NOFAILS := Fails(NOFAIL, NOFAIL)

  /** addPeer and delPeer: parse both strings before touching the kernel. */
  function AddRoute(t: Tables, r: NodeRoute, f: Fail): (Tables, bool) {
    match Parse(r)
    case None => (t, false)
    case Some(g) => AddPeer(t, g, f)
  }

  function DelRoute(t: Tables, r: NodeRoute, f: Fail): Tables {
    match Parse(r)
    case None => t
    case Some(g) => DelPeer(t, g, f).0
  }

  /** The common second half of onAdd and onUpdate. */
  function Install(v: Sync, name: string, r: NodeRoute, f: Fail): Sync {
    if Incomplete(r) then v
    else
      var (t, ok) := AddRoute(v.t, r, f);
      Sync(if ok then v.peers[name := r] else v.peers, t)
  }

  function Uninstall(v: Sync, name: string, r: NodeRoute, f: Fail): Sync {
    Sync(v.peers - {name}, DelRoute(v.t, r, f))
  }

  function OnAdd(self: string, v: Sync, n: Node, f: Fail): Sync {
    if n.name == self then v else Install(v, n.name, RouteOf(n), f)
  }

  function OnUpdate(self: string, v: Sync, prev: Node, n: Node, f: Fails): Sync {
    if n.name == self || RouteOf(prev) == RouteOf(n) then v
    else
      var v1 := if Incomplete(RouteOf(prev)) then v else Uninstall(v, prev.name, RouteOf(prev), f.del);
      Install(v1, n.name, RouteOf(n), f.add)
  }

  function OnDelete(self: string, v: Sync, n: Node, f: Fail): Sync {
    if n.name == self || n.name !in v.peers then v
    else Uninstall(v, n.name, v.peers[n.name], f)
  }

  function Handle(self: string, v: Sync, x: Stimulus<Fails>): Sync {
    match x.e
    case Added(n) => OnAdd(self, v, n, x.f.add)
    case Updated(prev, n) => OnUpdate(self, v, prev, n, x.f)
    case Deleted(n) => OnDelete(self, v, n, x.f.del)
  }

  function Run(self: string, v: Sync, run: seq<Stimulus<Fails>>): Sync
    decreases |run|
  {
    if run == [] then v else Run(self, Handle(self, v, run[0]), run[1..])
  }

  // ----- what survives any failure -----

  /** Every recorded peer is a live node's route, and its three entries are in the kernel. */
  ghost predicate Sound(self: string, live: Live, v: Sync) {
    && Derived(v.t)
    && forall n :: n in v.peers ==>
         && TargetOf(self, live, n).Some?
         && v.peers[n] == RouteOf(live[n])
         && Programmed(v.t, TargetOf(self, live, n).value)
  }

  /** Apart from one node, the peers are sound for the others of this cluster. */
  ghost predicate SoundBut(self: string, live: Live, v: Sync, name: string) {
    name !in v.peers && Sound(self, live - {name}, v)
  }

  lemma InstallSound(self: string, live: Live, v: Sync, name: string, f: Fail)
    requires DisjointTargets(self, live) && name in live && name != self
    requires SoundBut(self, live, v, name)
    ensures Sound(self, live, Install(v, name, RouteOf(live[name]), f))
  {
    hide Programmed, AddPeer, Disjoint, Parse, RouteOf, Derived;
    var r := RouteOf(live[name]);
    if Parse(r).Some? {
      var g := Parse(r).value;
      StaysDerived(v.t, g, f);
      AddPrograms(v.t, g, f);
      forall m | m in v.peers
        ensures TargetOf(self, live, m).Some? && v.peers[m] == RouteOf(live[m])
        ensures Programmed(AddPeer(v.t, g, f).0, TargetOf(self, live, m).value)
      {
        DropOne(self, live, name, m);
        assert TargetOf(self, live, name) == Some(g);
        PeersAreSeparate(v.t, g, TargetOf(self, live, m).value, f);
      }
    } else {
      forall m | m in v.peers
        ensures TargetOf(self, live, m).Some? && v.peers[m] == RouteOf(live[m])
      {
        DropOne(self, live, name, m);
      }
    }
  }

  lemma UninstallSound(self: string, live: Live, v: Sync, name: string, f: Fail)
    requires DisjointTargets(self, live) && name in live && name != self
    requires Sound(self, live, v)
    ensures SoundBut(self, live, Uninstall(v, name, RouteOf(live[name]), f), name)
  {
    hide Programmed, DelPeer, Disjoint, Parse, RouteOf, Derived;
    var r := RouteOf(live[name]);
    var w := Uninstall(v, name, r, f);
    if Parse(r).Some? {
      StaysDerived(v.t, Parse(r).value, f);
    }
    forall m | m in w.peers
      ensures TargetOf(self, live - {name}, m).Some? && w.peers[m] == RouteOf((live - {name})[m])
      ensures Programmed(w.t, TargetOf(self, live - {name}, m).value)
    {
      DropOne(self, live, name, m);
      if Parse(r).Some? {
        assert TargetOf(self, live, name) == Parse(r);
        PeersAreSeparate(v.t, Parse(r).value, TargetOf(self, live, m).value, f);
      }
    }
  }

  /** A node without a target is not recorded. */
  lemma UnrecordedSound(self: string, live: Live, v: Sync, name: string)
    requires Sound(self, live, v) && TargetOf(self, live, name).None?
    ensures SoundBut(self, live, v, name)
  {
    hide Programmed, Parse, RouteOf, Derived;
    forall m | m in v.peers
      ensures m != name && TargetOf(self, live - {name}, m) == TargetOf(self, live, m)
    {
      DropOne(self, live, name, m);
    }
  }

  /** Events about the node itself, and updates that change neither field, leave every target. */
  lemma NoTargetChange(self: string, live: Live, e: Event, v: Sync)
    requires InOrder(live, e) && Sound(self, live, v)
    requires e.n.name == self || (e.Updated? && RouteOf(e.prev) == RouteOf(e.n))
    ensures Sound(self, Deliver(live, e), v)
  {
    hide Programmed, Parse, RouteOf, Derived;
    forall m | m in v.peers
      ensures TargetOf(self, Deliver(live, e), m) == TargetOf(self, live, m)
      ensures v.peers[m] == RouteOf(Deliver(live, e)[m])
    {
    }
  }

  /** One event, any failures: every recorded peer keeps its route, ARP and FDB entries. */
  lemma HandleSound(self: string, live: Live, v: Sync, x: Stimulus<Fails>)
    requires DisjointTargets(self, live) && Sound(self, live, v)
    requires InOrder(live, x.e) && DisjointTargets(self, Deliver(live, x.e))
    ensures Sound(self, Deliver(live, x.e), Handle(self, v, x))
  {
    hide Sound, DisjointTargets, Parse, RouteOf, Install, Uninstall;
    var live' := Deliver(live, x.e);
    var name := x.e.n.name;
    SameOthers(live, x.e);
    if name == self || (x.e.Updated? && RouteOf(x.e.prev) == RouteOf(x.e.n)) {
      NoTargetChange(self, live, x.e, v);
    } else {
      match x.e {
        case Added(n) =>
          UnrecordedSound(self, live, v, name);
          SoundButOthers(self, live, live', v, name);
          InstallSound(self, live', v, name, x.f.add);
        case Updated(prev, n) =>
          var v1 := if Incomplete(RouteOf(prev)) then v else Uninstall(v, name, RouteOf(prev), x.f.del);
          if Incomplete(RouteOf(prev)) {
            EmptyDoesNotParse(RouteOf(prev));
            UnrecordedSound(self, live, v, name);
          } else {
            UninstallSound(self, live, v, name, x.f.del);
          }
          SoundButOthers(self, live, live', v1, name);
          InstallSound(self, live', v1, name, x.f.add);
        case Deleted(n) =>
          if name in v.peers {
            RecordedRoute(self, live, v, name);
            UninstallSound(self, live, v, name, x.f.del);
            SoundButGone(self, live, Uninstall(v, name, v.peers[name], x.f.del), name);
          } else {
            GoneSound(self, live, v, name);
          }
      }
    }
  }

  lemma SoundButOthers(self: string, live: Live, live': Live, v: Sync, name: string)
    requires SoundBut(self, live, v, name) && live - {name} == live' - {name}
    ensures SoundBut(self, live', v, name)
  {
  }

  lemma SoundButGone(self: string, live: Live, v: Sync, name: string)
    requires SoundBut(self, live, v, name)
    ensures Sound(self, live - {name}, v)
  {
  }

  lemma RecordedRoute(self: string, live: Live, v: Sync, name: string)
    requires Sound(self, live, v) && name in v.peers
    ensures name in live && v.peers[name] == RouteOf(live[name])
  {
  }

  lemma GoneSound(self: string, live: Live, v: Sync, name: string)
    requires Sound(self, live, v) && name !in v.peers
    ensures Sound(self, live - {name}, v)
  {
    hide Programmed, Parse, RouteOf, Derived;
    forall m | m in v.peers
      ensures TargetOf(self, live - {name}, m) == TargetOf(self, live, m)
    {
      DropOne(self, live, name, m);
    }
  }

  /** Robustness: over any legal run, from tables an earlier process may have left, with any
      kernel calls failing anywhere, every recorded peer forwards to the recorded node. */
  lemma {:induction false} RunSound(self: string, live: Live, v: Sync, run: seq<Stimulus<Fails>>)
    requires DisjointTargets(self, live) && Sound(self, live, v) && Legal(self, live, run)
    ensures Sound(self, LiveAfter(live, run), Run(self, v, run))
    decreases |run|
  {
    hide Sound, DisjointTargets, Handle, Deliver;
    if run != [] {
      HandleSound(self, live, v, run[0]);
      RunSound(self, Deliver(live, run[0].e), Handle(self, v, run[0]), run[1..]);
    }
  }

  // ----- what is recorded -----

  function AddWorks(f: Fails): bool {
    f.add == NOFAIL
  }

  /** Recorded are the live remote nodes with a target among these. */
  ghost predicate Records(self: string, live: Live, v: Sync, done: set<string>) {
    forall n :: n in v.peers <==> n in done && TargetOf(self, live, n).Some?
  }

  /** One event, any failures, any tables: an addition or a change of strings is always attempted,
      also when the deletion before it failed, and it alone decides whether the node is recorded. */
  lemma HandleRecords(self: string, live: Live, v: Sync, x: Stimulus<Fails>, done: set<string>)
    requires Records(self, live, v, done) && InOrder(live, x.e)
    ensures Records(self, Deliver(live, x.e), Handle(self, v, x), AttemptedBy(AddWorks, done, x))
  {
    hide Parse, RouteOf, DelRoute, AddPeer;
    var r := RouteOf(x.e.n);
    if Incomplete(r) { EmptyDoesNotParse(r); }
    if x.e.Updated? && Incomplete(RouteOf(x.e.prev)) { EmptyDoesNotParse(RouteOf(x.e.prev)); }
    forall t | Parse(r).Some?
      ensures AddPeer(t, Parse(r).value, x.f.add).1 <==> AddWorks(x.f)
    {
      AddSucceedsIff(t, Parse(r).value, x.f.add);
    }
    forall m | m != x.e.n.name
      ensures TargetOf(self, Deliver(live, x.e), m) == TargetOf(self, live, m)
    {
    }
  }

  lemma {:induction false} RunRecords(self: string, live: Live, v: Sync, run: seq<Stimulus<Fails>>, done: set<string>)
    requires Records(self, live, v, done) && Legal(self, live, run)
    ensures Records(self, LiveAfter(live, run), Run(self, v, run), Attempted(AddWorks, done, run))
    decreases |run|
  {
    hide Records, DisjointTargets, Handle, Deliver, InOrder, AttemptedBy;
    if run != [] {
      HandleRecords(self, live, v, run[0], done);
      RunRecords(self, Deliver(live, run[0].e), Handle(self, v, run[0]), run[1..], AttemptedBy(AddWorks, done, run[0]));
    }
  }

  /** What is recorded, exactly, whatever fails: after any legal run of a new process on any derived
      tables, a live remote node whose CIDR and IP parse is recorded if and only if its latest
      addition or change of strings met no failing call while adding; failing deletions do not
      matter. It is then recorded with its current strings and programmed. */
  lemma RecordedExactly(self: string, t: Tables, run: seq<Stimulus<Fails>>, n: string)
    requires Derived(t) && Legal(self, map[], run)
    ensures var live, v := LiveAfter(map[], run), Run(self, Sync(map[], t), run);
            && (n in v.peers <==> n in Attempted(AddWorks, {}, run) && TargetOf(self, live, n).Some?)
            && (n in v.peers ==> v.peers[n] == RouteOf(live[n]) && Programmed(v.t, TargetOf(self, live, n).value))
  {
    hide Legal, Derived, Programmed, Handle, RouteOf, Parse, Attempted, Run;
    NothingRecorded(self, t);
    RunRecords(self, map[], Sync(map[], t), run, {});
    RecordedPeersForward(self, t, run, n);
  }

  lemma NothingRecorded(self: string, t: Tables)
    ensures Records(self, map[], Sync(map[], t), {})
  {
  }

  /** One event, any state, any failure of the deletion: unless adding fails, the node ends recorded
      with its new strings and programmed. */
  lemma EventInstalls(self: string, v: Sync, x: Stimulus<Fails>)
    requires Derived(v.t) && x.f.add == NOFAIL && !x.e.Deleted? && x.e.n.name != self
    requires x.e.Updated? ==> RouteOf(x.e.prev) != RouteOf(x.e.n)
    requires Parse(RouteOf(x.e.n)).Some?
    ensures var w, r := Handle(self, v, x), RouteOf(x.e.n);
            x.e.n.name in w.peers && w.peers[x.e.n.name] == r && Programmed(w.t, Parse(r).value)
  {
    hide Derived, Programmed, AddPeer, DelRoute, Parse, RouteOf;
    var r := RouteOf(x.e.n);
    if Incomplete(r) { EmptyDoesNotParse(r); }
    AddPrograms(v.t, Parse(r).value, NOFAIL);
    if x.e.Updated? {
      var prev := RouteOf(x.e.prev);
      UninstallKeepsDerived(v, x.e.prev.name, prev, x.f.del);
      AddPrograms(DelRoute(v.t, prev, x.f.del), Parse(r).value, NOFAIL);
    }
  }

  // ----- runs whose additions work -----

  predicate AddsWork(run: seq<Stimulus<Fails>>) {
    forall i :: 0 <= i < |run| ==> run[i].f.add == NOFAIL
  }

  predicate NoFailures(run: seq<Stimulus<Fails>>) {
    forall i :: 0 <= i < |run| ==> run[i].f == NOFAILS
  }

  /** Exactly the live remote nodes with a target are recorded. */
  ghost predicate Complete(self: string, live: Live, v: Sync) {
    forall n :: n in v.peers <==> TargetOf(self, live, n).Some?
  }

  lemma CompleteRecords(self: string, live: Live, v: Sync)
    ensures Complete(self, live, v) <==> Records(self, live, v, live.Keys)
  {
    hide Parse, RouteOf;
  }

  lemma HandleComplete(self: string, live: Live, v: Sync, x: Stimulus<Fails>)
    requires Complete(self, live, v) && InOrder(live, x.e) && x.f.add == NOFAIL
    ensures Complete(self, Deliver(live, x.e), Handle(self, v, x))
  {
    hide Records, Complete, Handle, RouteOf;
    CompleteRecords(self, live, v);
    CompleteRecords(self, Deliver(live, x.e), Handle(self, v, x));
    HandleRecords(self, live, v, x, live.Keys);
    assert AttemptedBy(AddWorks, live.Keys, x) == Deliver(live, x.e).Keys;
  }

  lemma UninstallKeepsDerived(v: Sync, name: string, r: NodeRoute, f: Fail)
    requires Derived(v.t)
    ensures Derived(Uninstall(v, name, r, f).t)
  {
    hide DelPeer, Parse, Derived;
    if Parse(r).Some? { StaysDerived(v.t, Parse(r).value, f); }
  }

  // ----- no leftovers -----

  /** Every entry belongs to a live remote node, or stands under a key of rest. */
  ghost predicate Accounted(self: string, live: Live, t: Tables, rest: Tables) {
    && (forall c :: c in t.routes ==> c in rest.routes || exists n :: HasCidr(self, live, n, c))
    && (forall ip :: ip in t.arp ==> ip in rest.arp || exists n :: HasVtep(self, live, n, ip))
    && (forall mac :: mac in t.fdb ==> mac in rest.fdb || exists n :: HasMac(self, live, n, mac))
  }

  /** Every entry belongs to a live remote node. */
  ghost predicate NoLeftovers(self: string, live: Live, t: Tables) {
    Accounted(self, live, t, EMPTY)
  }

  predicate HasCidr(self: string, live: Live, n: string, c: Subnet) {
    TargetOf(self, live, n).Some? && TargetOf(self, live, n).value.cidr == c
  }

  predicate HasVtep(self: string, live: Live, n: string, ip: IP) {
    TargetOf(self, live, n).Some? && VtepIP(TargetOf(self, live, n).value.cidr) == ip
  }

  predicate HasMac(self: string, live: Live, n: string, mac: MAC) {
    TargetOf(self, live, n).Some? && VtepMAC(TargetOf(self, live, n).value.cidr) == mac
  }

  /** Targets carry over from one cluster view to another. */
  ghost predicate Covers(self: string, small: Live, big: Live) {
    forall n :: TargetOf(self, small, n).Some? ==> TargetOf(self, big, n) == TargetOf(self, small, n)
  }

  lemma CoveredAccount(self: string, small: Live, big: Live, t: Tables, rest: Tables)
    requires Accounted(self, small, t, rest) && Covers(self, small, big)
    ensures Accounted(self, big, t, rest)
  {
    hide TargetOf, VtepIP, VtepMAC;
    forall c | c in t.routes && c !in rest.routes
      ensures exists n :: HasCidr(self, big, n, c)
    {
      var n :| HasCidr(self, small, n, c);
      assert HasCidr(self, big, n, c);
    }
    forall ip | ip in t.arp && ip !in rest.arp
      ensures exists n :: HasVtep(self, big, n, ip)
    {
      var n :| HasVtep(self, small, n, ip);
      assert HasVtep(self, big, n, ip);
    }
    forall mac | mac in t.fdb && mac !in rest.fdb
      ensures exists n :: HasMac(self, big, n, mac)
    {
      var n :| HasMac(self, small, n, mac);
      assert HasMac(self, big, n, mac);
    }
  }

  lemma DropCovers(self: string, live: Live, name: string)
    ensures Covers(self, live - {name}, live)
  {
  }

  lemma InstallAccounts(self: string, live: Live, v: Sync, name: string, rest: Tables)
    requires name in live && name != self && Accounted(self, live - {name}, v.t, rest)
    ensures Accounted(self, live, Install(v, name, RouteOf(live[name]), NOFAIL).t, rest)
  {
    DropCovers(self, live, name);
    CoveredAccount(self, live - {name}, live, v.t, rest);
    InstallAddsOwn(self, live, v, name, rest);
  }

  lemma InstallAddsOwn(self: string, live: Live, v: Sync, name: string, rest: Tables)
    requires name in live && name != self && Accounted(self, live, v.t, rest)
    ensures Accounted(self, live, Install(v, name, RouteOf(live[name]), NOFAIL).t, rest)
  {
    hide Parse, RouteOf, VtepIP, VtepMAC;
    var r := RouteOf(live[name]);
    if Parse(r).Some? {
      var g := Parse(r).value;
      assert TargetOf(self, live, name) == Some(g);
      assert HasCidr(self, live, name, g.cidr);
      assert HasVtep(self, live, name, VtepIP(g.cidr));
      assert HasMac(self, live, name, VtepMAC(g.cidr));
    }
  }

  lemma UninstallAccounts(self: string, live: Live, v: Sync, name: string, rest: Tables)
    requires name in live && name != self && Accounted(self, live, v.t, rest)
    requires TargetOf(self, live, name).Some? ==> Programmed(v.t, TargetOf(self, live, name).value)
    ensures Accounted(self, live - {name}, Uninstall(v, name, RouteOf(live[name]), NOFAIL).t, rest)
  {
    hide Parse, RouteOf, VtepIP, VtepMAC, DelPeer, Programmed;
    var r := RouteOf(live[name]);
    var w := Uninstall(v, name, r, NOFAIL);
    var others := live - {name};
    forall m
      ensures TargetOf(self, others, m) == if m == name then None else TargetOf(self, live, m)
    {
      DropOne(self, live, name, m);
    }
    if Parse(r).Some? {
      DelRemoves(v.t, Parse(r).value);
    }
    forall c | c in w.t.routes && c !in rest.routes
      ensures exists n :: HasCidr(self, others, n, c)
    {
      var n :| HasCidr(self, live, n, c);
      assert HasCidr(self, others, n, c);
    }
    forall ip | ip in w.t.arp && ip !in rest.arp
      ensures exists n :: HasVtep(self, others, n, ip)
    {
      var n :| HasVtep(self, live, n, ip);
      assert HasVtep(self, others, n, ip);
    }
    forall mac | mac in w.t.fdb && mac !in rest.fdb
      ensures exists n :: HasMac(self, others, n, mac)
    {
      var n :| HasMac(self, live, n, mac);
      assert HasMac(self, others, n, mac);
    }
  }

  lemma TargetlessCovers(self: string, live: Live, name: string)
    requires TargetOf(self, live, name).None?
    ensures Covers(self, live, live - {name})
  {
  }

  lemma SameTargetsCover(self: string, live: Live, e: Event)
    requires InOrder(live, e)
    requires e.n.name == self || (e.Updated? && RouteOf(e.prev) == RouteOf(e.n))
    ensures Covers(self, live, Deliver(live, e))
  {
    hide Parse, RouteOf;
  }

  lemma HandleAccounts(self: string, live: Live, v: Sync, x: Stimulus<Fails>, rest: Tables)
    requires Sound(self, live, v) && Complete(self, live, v) && Accounted(self, live, v.t, rest)
    requires InOrder(live, x.e) && x.f == NOFAILS
    ensures Accounted(self, Deliver(live, x.e), Handle(self, v, x).t, rest)
  {
    hide Accounted, Parse, RouteOf, Install, Uninstall, Programmed, Derived;
    var live' := Deliver(live, x.e);
    var name := x.e.n.name;
    SameOthers(live, x.e);
    if name == self || (x.e.Updated? && RouteOf(x.e.prev) == RouteOf(x.e.n)) {
      SameTargetsCover(self, live, x.e);
      CoveredAccount(self, live, live', v.t, rest);
    } else {
      match x.e {
        case Added(n) =>
          TargetlessCovers(self, live, name);
          CoveredAccount(self, live, live - {name}, v.t, rest);
          InstallAccounts(self, live', v, name, rest);
        case Updated(prev, n) =>
          var v1 := if Incomplete(RouteOf(prev)) then v else Uninstall(v, name, RouteOf(prev), NOFAIL);
          if Incomplete(RouteOf(prev)) {
            EmptyDoesNotParse(RouteOf(prev));
            TargetlessCovers(self, live, name);
            CoveredAccount(self, live, live - {name}, v.t, rest);
          } else {
            UninstallAccounts(self, live, v, name, rest);
          }
          InstallAccounts(self, live', v1, name, rest);
        case Deleted(n) =>
          if name in v.peers {
            UninstallAccounts(self, live, v, name, rest);
          } else {
            TargetlessCovers(self, live, name);
            CoveredAccount(self, live, live - {name}, v.t, rest);
          }
      }
    }
  }

  // ----- whole failure-free runs -----

  /** The controller mirrors the cluster: it records exactly the live remote nodes with a target,
      and every one of them is programmed. */
  ghost predicate Mirrors(self: string, live: Live, v: Sync) {
    Sound(self, live, v) && Complete(self, live, v)
  }

  lemma {:induction false} RunMirrors(self: string, live: Live, v: Sync, run: seq<Stimulus<Fails>>)
    requires DisjointTargets(self, live) && Mirrors(self, live, v)
    requires Legal(self, live, run) && AddsWork(run)
    ensures Mirrors(self, LiveAfter(live, run), Run(self, v, run))
    ensures NoFailures(run) && NoLeftovers(self, live, v.t) ==>
              NoLeftovers(self, LiveAfter(live, run), Run(self, v, run).t)
    decreases |run|
  {
    hide Sound, Complete, Accounted, DisjointTargets, Handle, Deliver, InOrder;
    if run != [] {
      HandleSound(self, live, v, run[0]);
      HandleComplete(self, live, v, run[0]);
      if NoFailures(run) && NoLeftovers(self, live, v.t) {
        HandleAccounts(self, live, v, run[0], EMPTY);
      }
      RunMirrors(self, Deliver(live, run[0].e), Handle(self, v, run[0]), run[1..]);
    }
  }

  lemma EmptyMirrors(self: string, t: Tables)
    requires Derived(t)
    ensures Mirrors(self, map[], Sync(map[], t)) && DisjointTargets(self, map[])
  {
  }

  // ----- what each kernel call meets -----

  /** Nothing of the peer is in the kernel. */
  predicate Absent(t: Tables, g: Target) {
    g.cidr !in t.routes && VtepIP(g.cidr) !in t.arp && VtepMAC(g.cidr) !in t.fdb
  }

  predicate FindsNone(t: Tables, r: NodeRoute) {
    Parse(r).Some? ==> Absent(t, Parse(r).value)
  }

  predicate FindsAll(t: Tables, r: NodeRoute) {
    Parse(r).Some? ==> Programmed(t, Parse(r).value) && DelPeer(t, Parse(r).value, NOFAIL).1
  }

  /** Every peer this event adds is absent just before, every peer it deletes is there with all
      three entries, and the deletion succeeds. */
  predicate CallsFit(self: string, v: Sync, e: Event) {
    if e.n.name == self then true
    else
      match e
      case Added(n) => FindsNone(v.t, RouteOf(n))
      case Updated(prev, n) =>
        RouteOf(prev) == RouteOf(n) ||
        (FindsAll(v.t, RouteOf(prev)) && FindsNone(DelRoute(v.t, RouteOf(prev), NOFAIL), RouteOf(n)))
      case Deleted(n) => n.name in v.peers ==> Parse(v.peers[n.name]).Some? && FindsAll(v.t, v.peers[n.name])
  }

  lemma OthersLeaveAbsent(self: string, live: Live, t: Tables, name: string)
    requires DisjointTargets(self, live) && Accounted(self, live - {name}, t, EMPTY)
    requires TargetOf(self, live, name).Some?
    ensures Absent(t, TargetOf(self, live, name).value)
  {
    hide TargetOf, VtepIP, VtepMAC, DisjointTargets;
    var g := TargetOf(self, live, name).value;
    forall m | TargetOf(self, live - {name}, m).Some?
      ensures VtepIP(TargetOf(self, live - {name}, m).value.cidr) != VtepIP(g.cidr)
      ensures VtepMAC(TargetOf(self, live - {name}, m).value.cidr) != VtepMAC(g.cidr)
      ensures TargetOf(self, live - {name}, m).value.cidr != g.cidr
    {
      DropOne(self, live, name, m);
      DistinctBases(self, live, m, name);
      VtepsDistinct(TargetOf(self, live, m).value.cidr, g.cidr);
    }
  }

  lemma TargetFindsAll(self: string, live: Live, v: Sync, name: string)
    requires Mirrors(self, live, v) && name in live && name != self
    ensures FindsAll(v.t, RouteOf(live[name]))
  {
    hide Parse, RouteOf, Programmed, DelPeer;
    if Parse(RouteOf(live[name])).Some? {
      DelRemoves(v.t, Parse(RouteOf(live[name])).value);
    }
  }

  lemma EventFits(self: string, live: Live, v: Sync, e: Event)
    requires Mirrors(self, live, v) && NoLeftovers(self, live, v.t)
    requires InOrder(live, e) && DisjointTargets(self, Deliver(live, e))
    ensures CallsFit(self, v, e)
  {
    hide Accounted, DisjointTargets, Parse, RouteOf, Programmed, Derived, DelPeer, Absent, DelRoute;
    var live' := Deliver(live, e);
    var name := e.n.name;
    SameOthers(live, e);
    if name != self && !(e.Updated? && RouteOf(e.prev) == RouteOf(e.n)) {
      if e.Added? {
        TargetlessCovers(self, live, name);
        CoveredAccount(self, live, live - {name}, v.t, EMPTY);
      } else {
        TargetFindsAll(self, live, v, name);
        UninstallAccounts(self, live, v, name, EMPTY);
      }
      if TargetOf(self, live', name).Some? {
        OthersLeaveAbsent(self, live', if e.Added? then v.t else DelRoute(v.t, RouteOf(live[name]), NOFAIL), name);
      }
    }
  }

  /** Exact agreement: from empty tables, after any legal failure-free run, the recorded peers are
      the live remote nodes whose CIDR and IP parse, each with its own route, and the tables hold
      their entries and nothing else; and whatever event comes next, no addition meets an existing
      entry and no deletion a missing one. */
  lemma ExactAgreement(self: string, run: seq<Stimulus<Fails>>, e: Event)
    requires Legal(self, map[], run) && NoFailures(run)
    ensures var live, v := LiveAfter(map[], run), Run(self, START, run);
            && (forall n :: n in v.peers <==> TargetOf(self, live, n).Some?)
            && (forall n :: n in v.peers ==> v.peers[n] == RouteOf(live[n]))
            && (forall n :: n in v.peers ==> Programmed(v.t, TargetOf(self, live, n).value))
            && NoLeftovers(self, live, v.t)
            && (InOrder(live, e) && DisjointTargets(self, Deliver(live, e)) ==> CallsFit(self, v, e))
  {
    hide Parse, RouteOf, Programmed, Handle, Legal, CallsFit, InOrder, DisjointTargets, Accounted;
    EmptyMirrors(self, EMPTY);
    NothingLeft(self);
    RunMirrors(self, map[], START, run);
    if InOrder(LiveAfter(map[], run), e) && DisjointTargets(self, Deliver(LiveAfter(map[], run), e)) {
      EventFits(self, LiveAfter(map[], run), Run(self, START, run), e);
    }
  }

  lemma NothingLeft(self: string)
    ensures NoLeftovers(self, map[], EMPTY)
  {
  }

  // ----- stale deletions -----

  /** The same events, except that deletions may carry other objects of the same name. */
  predicate SameButTombstones(x: seq<Stimulus<Fails>>, y: seq<Stimulus<Fails>>) {
    && |x| == |y|
    && forall i :: 0 <= i < |x| ==>
         x[i] == y[i] || (x[i].f == y[i].f && x[i].e.Deleted? && y[i].e.Deleted? && x[i].e.n.name == y[i].e.n.name)
  }

  /** The object a deletion carries makes no difference: the handler goes by what it recorded. */
  lemma {:induction false} TombstonesDoNotMatter(self: string, live: Live, v: Sync,
                                                 x: seq<Stimulus<Fails>>, y: seq<Stimulus<Fails>>)
    requires SameButTombstones(x, y)
    ensures Run(self, v, x) == Run(self, v, y) && LiveAfter(live, x) == LiveAfter(live, y)
    ensures Legal(self, live, x) <==> Legal(self, live, y)
    decreases |x|
  {
    hide Install, Uninstall, DisjointTargets;
    if x != [] {
      assert Handle(self, v, x[0]) == Handle(self, v, y[0]);
      assert Deliver(live, x[0].e) == Deliver(live, y[0].e);
      TombstonesDoNotMatter(self, Deliver(live, x[0].e), Handle(self, v, x[0]), x[1..], y[1..]);
    }
  }

  /** Robustness in one statement: a new process on any tables with derived gateways, any legal run
      of events, any kernel calls failing, deletions that stop halfway included: every recorded
      peer is a live node with its current strings, and its three entries lead to it. */
  lemma RecordedPeersForward(self: string, t: Tables, run: seq<Stimulus<Fails>>, n: string)
    requires Derived(t) && Legal(self, map[], run)
    ensures var live, v := LiveAfter(map[], run), Run(self, Sync(map[], t), run);
            n in v.peers ==>
              && TargetOf(self, live, n).Some? && v.peers[n] == RouteOf(live[n])
              && Programmed(v.t, TargetOf(self, live, n).value)
  {
    hide Parse, RouteOf, Programmed, Handle, Legal, Derived;
    EmptyMirrors(self, t);
    RunSound(self, map[], Sync(map[], t), run);
  }
}
