/** The agent's RPC handlers (pkg/agent/server.go, pkg/network/network.go) cut into steps and
    interleaved: many ADD, DEL and CHECK requests under the arbitrator, sharing one allocator and
    one host, each step free to fail, container namespaces free to disappear, the agent free to
    crash and start again. */
module Agent {
  import opened Wrappers
  import opened IPv4
  import opened Subnets
  import opened Arbiter
  import Simple = SimpleAllocator

  datatype Kind = ADD | DEL | CHECK

  /** veth is the host-side name derived from the container ID; nothing is assumed about it, not
      even that two containers get different ones. hasNetns is false for an empty Netns. */
  datatype Request = Request(kind: Kind, cid: string, hasNetns: bool, ifName: string, veth: string)

  /** A container-side interface. */
  datatype Nic = Nic(cid: string, ifName: string)

  /** The allocator's table, and the kernel: container-side interfaces, host-side veths by name
      with their other end, /32 host routes by address with their device, and the namespaces that
      exist. The last two are bookkeeping: up has the address of each container whose ADD has
      succeeded and whose DEL has not begun, released each container whose last DEL has succeeded
      and which no ADD has been granted an address since. */
  datatype World = World(
    allocs: Simple.Table,
    nics: set<Nic>,
    links: map<string, Nic>,
    routes: map<IP, string>,
    alive: set<string>,
    up: map<string, IP>,
    released: set<string>)

  /** What a handler step does: continue at a step with its podIP variable, or return. */
  datatype Outcome = Next(step: nat, w: World, podIP: Option<IP>) | Exit(w: World)

  // ----- handler steps -----

  function AddStep(s: Subnet, r: Request, k: nat, w: World, podIP: Option<IP>, fails: bool): (o: Outcome)
    ensures o.Next? ==> o.step == k + 1 <= LAST
  {
    match k
    case 0 =>                                   // LoadConf
      if fails then Exit(w) else Next(1, w, None)
    case 1 =>                                   // GetNS
      if !r.hasNetns || fails || r.cid !in w.alive then Exit(w) else Next(2, w, None)
    case 2 =>                                   // SetupVeth: create the pair in the container
      if fails || Nic(r.cid, r.ifName) in w.nics then Exit(w)
      else Next(3, w.(nics := w.nics + {Nic(r.cid, r.ifName)}), None)
    case 3 =>                                   // LinkSetNsFd: move one end; names are unique
      if fails || r.veth in w.links then Exit(w)
      else Next(4, w.(links := w.links[r.veth := Nic(r.cid, r.ifName)]), None)
    case 4 =>                                   // LinkByName, LinkSetUp, EnableProxyARP
      if fails || r.veth !in w.links then Exit(w) else Next(5, w, None)
    case 5 =>                                   // alloc.Add
      (match Simple.Add(s, w.allocs, r.cid, !fails)
       case (m, Granted(ip, _)) => Next(6, w.(allocs := m, released := w.released - {r.cid}), Some(ip))
       case _ => Exit(w))
    case 6 =>                                   // SetupHostRoute: an existing route is an error
      if fails || r.veth !in w.links || podIP.None? || podIP.value in w.routes then Exit(w)
      else Next(7, w.(routes := w.routes[podIP.value := r.veth]), podIP)
    case 7 =>                                   // ConfigureInterface, default route
      if fails then Exit(w) else Next(8, w, podIP)
    case _ =>                                   // GetAsVersion: success
      if fails || podIP.None? then Exit(w) else Exit(w.(up := w.up[r.cid := podIP.value]))
  }

  /** The host-side names whose other end is among these interfaces. */
  function PeersOf(links: map<string, Nic>, gone: set<Nic>): set<string> {
    set h | h in links && links[h] in gone
  }

  function RoutesWithout(routes: map<IP, string>, dead: set<string>): map<IP, string> {
    map ip | ip in routes && routes[ip] !in dead :: routes[ip]
  }

  /** Deleting a veth end removes the other end and every route through it. */
  function DropNics(w: World, gone: set<Nic>): World {
    var dead := PeersOf(w.links, gone);
    w.(nics := w.nics - gone, links := w.links - dead, routes := RoutesWithout(w.routes, dead))
  }

  function DelStep(r: Request, k: nat, w: World, fails: bool): (o: Outcome)
    ensures o.Next? ==> o.step == k + 1 <= LAST
  {
    match k
    case 0 =>                                   // alloc.Del
      var (m, ok) := Simple.Del(w.allocs, r.cid, !fails);
      var w1 := w.(up := w.up - {r.cid}, released := w.released - {r.cid});
      if ok then Next(1, w1.(allocs := m), None) else Exit(w1)
    case 1 =>                                   // GetNS: no namespace means success
      if !r.hasNetns || fails || r.cid !in w.alive then Exit(Released(w, r.cid)) else Next(2, w, None)
    case _ =>                                   // DeleteVeth: a missing interface means success
      if fails then Exit(w) else Exit(Released(DropNics(w, {Nic(r.cid, r.ifName)}), r.cid))
  }

  /** A DEL of the container reports success. */
  function Released(w: World, cid: string): World {
    w.(released := w.released + {cid})
  }

  function CheckStep(r: Request, k: nat, w: World, fails: bool): (o: Outcome)
    ensures o.Next? ==> o.step == k + 1 <= LAST
  {
    match k
    case 0 =>                                   // alloc.Check
      if r.cid !in w.allocs then Exit(w) else Next(1, w, None)
    case 1 =>                                   // GetNS
      if !r.hasNetns || fails || r.cid !in w.alive then Exit(w) else Next(2, w, None)
    case _ =>                                   // look at the interface and answer
      Exit(w)
  }

  function Body(s: Subnet, r: Request, k: nat, w: World, podIP: Option<IP>, fails: bool): (o: Outcome)
    ensures o.Next? ==> o.step == k + 1 <= LAST
  {
    match r.kind
    case ADD => AddStep(s, r, k, w, podIP, fails)
    case DEL => DelStep(r, k, w, fails)
    case CHECK => CheckStep(r, k, w, fails)
  }

  // ----- the system -----

  datatype Agent = Agent(arb: Arb, reqs: seq<Request>, podIPs: seq<Option<IP>>, w: World)

  /** A turn of one RPC, the removal of a container's namespace, or the agent dying and starting
      again: requests under way get no answer, later ones are still to come, memory is reloaded
      from the state file, which holds the same table. */
  datatype Action = Run(p: nat, fails: bool) | RemoveNetns(cid: string) | Crash

  predicate Shaped(a: Agent) {
    && |a.reqs| == |a.arb.procs| == |a.podIPs|
    && forall p :: 0 <= p < |a.reqs| ==> a.arb.procs[p].cid == a.reqs[p].cid
  }

  /** The handler has the namespace open, which keeps it alive. */
  predicate HasNetnsOpen(r: Request, s: Stage) {
    s.Critical? && match r.kind
                   case ADD => s.step >= 2
                   case DEL => s.step >= 2
                   case CHECK => s.step >= 2
  }

  predicate NetnsOpen(a: Agent, cid: string)
    requires Shaped(a)
  {
    exists p :: 0 <= p < |a.reqs| && a.reqs[p].cid == cid && HasNetnsOpen(a.reqs[p], a.arb.procs[p].stage)
  }

  function Removed(w: World, cid: string): World {
    var gone := set n | n in w.nics && n.cid == cid;
    var cut := DropNics(w, gone + set h | h in w.links && w.links[h].cid == cid :: w.links[h]);
    cut.(alive := w.alive - {cid})
  }

  function Choose(o: Outcome): Choice {
    match o
    case Next(k, _, _) => Advance(k)
    case Exit(_) => Return
  }

  /** The arbitrator of a new process. */
  function Restarted(arb: Arb): (b: Arb)
    ensures |b.procs| == |arb.procs|
    ensures forall i :: 0 <= i < |arb.procs| ==> b.procs[i] == Halt(arb.procs[i])
  {
    Arb(None, {}, seq(|arb.procs|, i requires 0 <= i < |arb.procs| => Halt(arb.procs[i])))
  }

  function Halt(q: Proc): Proc {
    if q.stage.Start? then q else q.(stage := Done)
  }

  function Apply(s: Subnet, a: Agent, v: Action): Option<Agent>
    requires Shaped(a)
  {
    match v
    case Crash => Some(a.(arb := Restarted(a.arb)))
    case RemoveNetns(cid) =>
      if cid !in a.w.alive || NetnsOpen(a, cid) then None else Some(a.(w := Removed(a.w, cid)))
    case Run(p, fails) =>
      if p >= |a.reqs| then None
      else if a.arb.procs[p].stage.Critical? then
        var o := Body(s, a.reqs[p], a.arb.procs[p].stage.step, a.w, a.podIPs[p], fails);
        match Step(a.arb, p, Choose(o)) {
          case None => None
          case Some(arb) =>
            Some(Agent(arb, a.reqs, if o.Next? then a.podIPs[p := o.podIP] else a.podIPs, o.w))
        }
      else
        match Step(a.arb, p, Return) {
          case None => None
          case Some(arb) => Some(a.(arb := arb))
        }
  }

  /** The arbitrator's view of a turn. */
  function ChoiceOf(s: Subnet, a: Agent, p: nat, fails: bool): Choice
    requires Shaped(a) && p < |a.reqs|
  {
    if a.arb.procs[p].stage.Critical? then
      Choose(Body(s, a.reqs[p], a.arb.procs[p].stage.step, a.w, a.podIPs[p], fails))
    else Return
  }

  /** Every turn is a step of the arbitrator; handlers never block it and never skip past the end. */
  lemma TurnIsAStep(s: Subnet, a: Agent, p: nat, fails: bool)
    requires Shaped(a) && StepsBounded(a.arb) && p < |a.reqs|
    ensures Apply(s, a, Run(p, fails)).Some? <==> Step(a.arb, p, ChoiceOf(s, a, p, fails)).Some?
    ensures Apply(s, a, Run(p, fails)).Some? ==>
              Step(a.arb, p, ChoiceOf(s, a, p, fails)) == Some(Apply(s, a, Run(p, fails)).value.arb)
    ensures a.arb.procs[p].stage.Critical? && a.arb.procs[p].stage.step <= LAST ==>
              Apply(s, a, Run(p, fails)).Some?
  {
  }

  // ----- the invariant -----

  /** Kernel facts, ownership of the containers that are up, and release. */
  ghost predicate WorldInv(w: World) {
    && Simple.Injective(w.allocs)
    && (forall ip :: ip in w.routes ==> w.routes[ip] in w.links)
    && (forall h :: h in w.links ==> w.links[h].cid in w.alive)
    && (forall c :: c in w.up ==> Holds(w, c, w.up[c]) && (c in w.alive ==> Routed(w, c, w.up[c])))
    && (forall c :: c in w.released ==> c !in w.allocs)
  }

  predicate Holds(w: World, c: string, ip: IP) {
    c in w.allocs && w.allocs[c] == ip
  }

  /** The /32 route of the address leads to the container's own veth. */
  predicate Routed(w: World, c: string, ip: IP) {
    ip in w.routes && w.routes[ip] in w.links && w.links[w.routes[ip]].cid == c
  }

  /** What a handler in its critical section can rely on. */
  predicate Progress(r: Request, k: nat, w: World, podIP: Option<IP>) {
    match r.kind
    case ADD =>
      && (k >= 2 ==> r.cid in w.alive)
      && (k >= 4 ==> r.veth in w.links && w.links[r.veth] == Nic(r.cid, r.ifName))
      && (k >= 6 ==> podIP.Some? && r.cid in w.allocs && w.allocs[r.cid] == podIP.value)
      && (k >= 7 ==> podIP.value in w.routes && w.routes[podIP.value] == r.veth)
    case DEL =>
      k >= 1 ==> r.cid !in w.allocs && r.cid !in w.up
    case CHECK => true
  }

  ghost predicate AgentInv(a: Agent) {
    && Shaped(a) && Inv(a.arb) && WorldInv(a.w)
    && forall p :: 0 <= p < |a.reqs| && a.arb.procs[p].stage.Critical? ==>
         Progress(a.reqs[p], a.arb.procs[p].stage.step, a.w, a.podIPs[p])
  }

  /** A handler step keeps the world consistent and reaches what the next step relies on. */
  lemma BodyKeepsWorld(s: Subnet, r: Request, k: nat, w: World, podIP: Option<IP>, fails: bool)
    requires WorldInv(w) && Progress(r, k, w, podIP)
    ensures var o := Body(s, r, k, w, podIP, fails);
            WorldInv(o.w) && (o.Next? ==> Progress(r, o.step, o.w, o.podIP))
  {
    hide Simple.FirstFree, FirstHostIP;
    match r.kind {
      case ADD => AddKeepsWorld(s, r, k, w, podIP, fails);
      case DEL => DelKeepsWorld(s, r, k, w, fails);
      case CHECK =>
    }
  }

  lemma AddKeepsWorld(s: Subnet, r: Request, k: nat, w: World, podIP: Option<IP>, fails: bool)
    requires WorldInv(w) && r.kind.ADD? && Progress(r, k, w, podIP)
    ensures var o := AddStep(s, r, k, w, podIP, fails);
            WorldInv(o.w) && (o.Next? ==> Progress(r, o.step, o.w, o.podIP))
  {
    hide WorldInv, AddStep;
    if k <= 4 {
      PlugKeepsWorld(s, r, k, w, podIP, fails);
    } else if k == 5 {
      GrantKeepsWorld(s, r, w, podIP, fails);
    } else {
      ConnectKeepsWorld(s, r, k, w, podIP, fails);
    }
  }

  lemma PlugKeepsWorld(s: Subnet, r: Request, k: nat, w: World, podIP: Option<IP>, fails: bool)
    requires WorldInv(w) && r.kind.ADD? && k <= 4 && Progress(r, k, w, podIP)
    ensures var o := AddStep(s, r, k, w, podIP, fails);
            WorldInv(o.w) && (o.Next? ==> Progress(r, o.step, o.w, o.podIP))
  {
    hide Simple.Add, Simple.Injective;
  }

  lemma ConnectKeepsWorld(s: Subnet, r: Request, k: nat, w: World, podIP: Option<IP>, fails: bool)
    requires WorldInv(w) && r.kind.ADD? && k >= 6 && Progress(r, k, w, podIP)
    ensures var o := AddStep(s, r, k, w, podIP, fails);
            WorldInv(o.w) && (o.Next? ==> Progress(r, o.step, o.w, o.podIP))
  {
    hide Simple.Add, Simple.Injective;
  }

  lemma GrantKeepsWorld(s: Subnet, r: Request, w: World, podIP: Option<IP>, fails: bool)
    requires WorldInv(w) && r.kind.ADD? && Progress(r, 5, w, podIP)
    ensures var o := AddStep(s, r, 5, w, podIP, fails);
            WorldInv(o.w) && (o.Next? ==> Progress(r, o.step, o.w, o.podIP))
  {
    hide Simple.Add, Simple.Injective;
    Simple.OperationsKeepTable(s, w.allocs, r.cid, !fails);
    AddFrame(s, w.allocs, r.cid, !fails);
  }

  lemma AddFrame(s: Subnet, m: Simple.Table, cid: string, durable: bool)
    ensures var (n, reply) := Simple.Add(s, m, cid, durable);
            && (forall c :: c in m ==> c in n && n[c] == m[c])
            && (forall c :: c in n && c != cid ==> c in m)
            && (reply.Granted? ==> cid in n && n[cid] == reply.ip)
            && (!reply.Granted? ==> n == m)
  {
    hide Simple.FirstFree, FirstHostIP;
  }

  lemma DelKeepsWorld(s: Subnet, r: Request, k: nat, w: World, fails: bool)
    requires WorldInv(w) && r.kind.DEL? && Progress(r, k, w, None)
    ensures var o := DelStep(r, k, w, fails);
            WorldInv(o.w) && (o.Next? ==> Progress(r, o.step, o.w, o.podIP))
  {
    hide WorldInv, DropNics, Simple.Del;
    if k == 0 {
      ReleaseKeepsWorld(s, r, w, fails);
    } else {
      ReportKeepsWorld(w, r.cid);
      TearDownKeepsWorld(r, w);
    }
  }

  lemma ReleaseKeepsWorld(s: Subnet, r: Request, w: World, fails: bool)
    requires WorldInv(w) && r.kind.DEL?
    ensures var o := DelStep(r, 0, w, fails);
            WorldInv(o.w) && (o.Next? ==> Progress(r, 1, o.w, o.podIP))
  {
    hide Simple.Injective, Simple.Del;
    Simple.OperationsKeepTable(s, w.allocs, r.cid, !fails);
    hide WorldInv;
    DelFrame(w.allocs, r.cid, !fails);
    LetGoKeepsWorld(w, r.cid, Simple.Del(w.allocs, r.cid, !fails).0);
  }

  lemma DelFrame(m: Simple.Table, cid: string, durable: bool)
    ensures var (n, ok) := Simple.Del(m, cid, durable);
            n == if ok then m - {cid} else m
  {
  }

  /** Taking the container off the books, and off the allocator's table if that worked. */
  lemma LetGoKeepsWorld(w: World, cid: string, m: Simple.Table)
    requires WorldInv(w) && Simple.Injective(m) && (m == w.allocs || m == w.allocs - {cid})
    ensures WorldInv(w.(allocs := m, up := w.up - {cid}, released := w.released - {cid}))
  {
    hide Simple.Injective;
  }

  lemma ReportKeepsWorld(w: World, cid: string)
    requires WorldInv(w) && cid !in w.allocs
    ensures WorldInv(Released(w, cid))
  {
    hide Simple.Injective;
  }

  lemma TearDownKeepsWorld(r: Request, w: World)
    requires WorldInv(w) && r.cid !in w.allocs && r.cid !in w.up
    ensures WorldInv(Released(DropNics(w, {Nic(r.cid, r.ifName)}), r.cid))
  {
    hide Simple.Injective, DropNics;
    DropKeepsOthers(w, {Nic(r.cid, r.ifName)}, r.cid);
    DropKeepsTables(w, {Nic(r.cid, r.ifName)});
    DropCuts(w, {Nic(r.cid, r.ifName)});
  }

  /** Deleting interfaces of one container disturbs no other container. */
  lemma DropKeepsOthers(w: World, gone: set<Nic>, cid: string)
    requires WorldInv(w) && forall n :: n in gone ==> n.cid == cid
    ensures var z := DropNics(w, gone);
            && Simple.Injective(z.allocs) && (forall ip :: ip in z.routes ==> z.routes[ip] in z.links)
            && (forall c, ip :: c != cid && Routed(w, c, ip) ==> Routed(z, c, ip))
            && (forall h :: h in w.links && w.links[h].cid != cid ==> h in z.links && z.links[h] == w.links[h])
            && (forall ip :: ip in w.routes && w.links[w.routes[ip]].cid != cid ==>
                  ip in z.routes && z.routes[ip] == w.routes[ip])
  {
    hide Simple.Injective;
  }

  /** A handler step for one container leaves what handlers of others rely on. */
  lemma BodyKeepsOthers(s: Subnet, r: Request, k: nat, w: World, podIP: Option<IP>, fails: bool,
                        q: Request, j: nat, qIP: Option<IP>)
    requires WorldInv(w) && r.cid != q.cid && Progress(q, j, w, qIP)
    ensures Progress(q, j, Body(s, r, k, w, podIP, fails).w, qIP)
  {
    hide AddStep, DelStep, WorldInv, Progress;
    match r.kind {
      case ADD => AddKeepsOthers(s, r, k, w, podIP, fails, q, j, qIP);
      case DEL => DelKeepsOthers(r, k, w, fails, q, j, qIP);
      case CHECK =>
    }
  }

  lemma AddKeepsOthers(s: Subnet, r: Request, k: nat, w: World, podIP: Option<IP>, fails: bool,
                       q: Request, j: nat, qIP: Option<IP>)
    requires r.cid != q.cid && Progress(q, j, w, qIP)
    ensures Progress(q, j, AddStep(s, r, k, w, podIP, fails).w, qIP)
  {
    hide Simple.Add;
    if k == 5 {
      AddFrame(s, w.allocs, r.cid, !fails);
    }
  }

  lemma DelKeepsOthers(r: Request, k: nat, w: World, fails: bool, q: Request, j: nat, qIP: Option<IP>)
    requires WorldInv(w) && r.cid != q.cid && Progress(q, j, w, qIP)
    ensures Progress(q, j, DelStep(r, k, w, fails).w, qIP)
  {
    hide Simple.Injective, DropNics;
    if k >= 2 {
      DropKeepsOthers(w, {Nic(r.cid, r.ifName)}, r.cid);
      DropKeepsTables(w, {Nic(r.cid, r.ifName)});
    }
  }

  lemma DropCuts(w: World, gone: set<Nic>)
    ensures var z := DropNics(w, gone);
            forall h :: h in z.links ==> h in w.links && z.links[h] == w.links[h] && w.links[h] !in gone
  {
  }

  lemma DropKeepsTables(w: World, gone: set<Nic>)
    ensures var z := DropNics(w, gone);
            z.allocs == w.allocs && z.up == w.up && z.released == w.released && z.alive == w.alive
  {
  }

  lemma RemovalKeepsWorld(w: World, cid: string)
    requires WorldInv(w)
    ensures WorldInv(Removed(w, cid)) && Removed(w, cid).allocs == w.allocs && Removed(w, cid).up == w.up
    ensures forall h :: h in w.links && w.links[h].cid != cid ==>
              h in Removed(w, cid).links && Removed(w, cid).links[h] == w.links[h]
    ensures forall ip :: ip in w.routes && w.links[w.routes[ip]].cid != cid ==>
              ip in Removed(w, cid).routes && Removed(w, cid).routes[ip] == w.routes[ip]
  {
    hide Simple.Injective, DropNics;
    var gone := (set n | n in w.nics && n.cid == cid) + set h | h in w.links && w.links[h].cid == cid :: w.links[h];
    DropKeepsOthers(w, gone, cid);
    DropKeepsTables(w, gone);
    DropCuts(w, gone);
  }

  lemma RemovalKeepsInv(s: Subnet, a: Agent, cid: string)
    requires AgentInv(a) && Apply(s, a, RemoveNetns(cid)).Some?
    ensures AgentInv(Apply(s, a, RemoveNetns(cid)).value)
  {
    hide Inv, WorldInv, DropNics;
    RemovalKeepsWorld(a.w, cid);
    var b := Apply(s, a, RemoveNetns(cid)).value;
    forall p | 0 <= p < |a.reqs| && a.arb.procs[p].stage.Critical?
      ensures Progress(b.reqs[p], b.arb.procs[p].stage.step, b.w, b.podIPs[p])
    {
      assert Progress(a.reqs[p], a.arb.procs[p].stage.step, a.w, a.podIPs[p]);
      assert a.reqs[p].cid == cid ==> !HasNetnsOpen(a.reqs[p], a.arb.procs[p].stage);
    }
  }

  lemma CriticalOthers(a: Agent, p: nat, q: nat)
    requires Shaped(a) && Exclusive(a.arb) && p < |a.reqs| && q < |a.reqs| && p != q
    requires a.arb.procs[p].stage.Critical? && a.arb.procs[q].stage.Critical?
    ensures a.reqs[p].cid != a.reqs[q].cid
  {
    assert OwnsId(a.arb, p, a.reqs[p].cid) && OwnsId(a.arb, q, a.reqs[q].cid);
  }

  lemma TurnKeepsShape(s: Subnet, a: Agent, p: nat, fails: bool)
    requires Shaped(a) && Inv(a.arb) && Apply(s, a, Run(p, fails)).Some?
    ensures Shaped(Apply(s, a, Run(p, fails)).value) && Inv(Apply(s, a, Run(p, fails)).value.arb)
    ensures Apply(s, a, Run(p, fails)).value.reqs == a.reqs
  {
    hide Body, Step, Exclusive, BusyExact, NoLostWakeup;
    TurnIsAStep(s, a, p, fails);
    StepKeepsMutex(a.arb, p, ChoiceOf(s, a, p, fails));
    StepKeepsInv(a.arb, p, ChoiceOf(s, a, p, fails));
  }

  /** What a turn does to its own RPC and to the world. */
  lemma TurnEffect(s: Subnet, a: Agent, p: nat, fails: bool)
    requires Shaped(a) && p < |a.reqs| && Apply(s, a, Run(p, fails)).Some?
    ensures var b := Apply(s, a, Run(p, fails)).value;
            && |b.podIPs| == |a.podIPs| && |b.arb.procs| == |a.arb.procs|
            && (forall q :: 0 <= q < |a.podIPs| && q != p ==> b.podIPs[q] == a.podIPs[q])
            && (!a.arb.procs[p].stage.Critical? ==>
                  b.w == a.w && b.podIPs == a.podIPs &&
                  (b.arb.procs[p].stage.Critical? ==> b.arb.procs[p].stage.step == 0))
            && (a.arb.procs[p].stage.Critical? ==>
                  var o := Body(s, a.reqs[p], a.arb.procs[p].stage.step, a.w, a.podIPs[p], fails);
                  && b.w == o.w
                  && (b.arb.procs[p].stage.Critical? <==> o.Next?)
                  && (o.Next? ==> b.arb.procs[p].stage.step == o.step && b.podIPs[p] == o.podIP))
  {
    hide Body;
  }

  lemma TurnKeepsInv(s: Subnet, a: Agent, p: nat, fails: bool)
    requires AgentInv(a) && p < |a.reqs| && Apply(s, a, Run(p, fails)).Some?
    ensures AgentInv(Apply(s, a, Run(p, fails)).value)
  {
    hide Body, Inv, Step, Apply, WorldInv, Progress;
    var b := Apply(s, a, Run(p, fails)).value;
    TurnKeepsShape(s, a, p, fails);
    TurnEffect(s, a, p, fails);
    var stage := a.arb.procs[p].stage;
    if stage.Critical? {
      BodyKeepsWorld(s, a.reqs[p], stage.step, a.w, a.podIPs[p], fails);
    }
    forall q: nat | q < |b.reqs| && b.arb.procs[q].stage.Critical?
      ensures Progress(b.reqs[q], b.arb.procs[q].stage.step, b.w, b.podIPs[q])
    {
      if q == p {
        if !stage.Critical? { ProgressAtStart(b.reqs[p], b.w, b.podIPs[p]); }
      } else {
        TurnIsHarmless(s, a, p, fails, q);
      }
    }
  }

  lemma ProgressAtStart(r: Request, w: World, podIP: Option<IP>)
    ensures Progress(r, 0, w, podIP)
  {
  }

  lemma TurnIsHarmless(s: Subnet, a: Agent, p: nat, fails: bool, q: nat)
    requires AgentInv(a) && p < |a.reqs| && Apply(s, a, Run(p, fails)).Some?
    requires q < |a.reqs| && q != p
    requires var b := Apply(s, a, Run(p, fails)).value; q < |b.arb.procs| && b.arb.procs[q].stage.Critical?
    ensures var b := Apply(s, a, Run(p, fails)).value;
            q < |b.reqs| && q < |b.podIPs| && Progress(b.reqs[q], b.arb.procs[q].stage.step, b.w, b.podIPs[q])
  {
    hide Body, Step, Apply, WorldInv, Progress, MutexInv, BusyExact, NoLostWakeup, Exclusive;
    var b := Apply(s, a, Run(p, fails)).value;
    TurnKeepsShape(s, a, p, fails);
    TurnEffect(s, a, p, fails);
    TurnIsAStep(s, a, p, fails);
    OwnersElsewhere(a.arb, p, ChoiceOf(s, a, p, fails), q);
    if a.arb.procs[p].stage.Critical? {
      CriticalOthers(a, p, q);
      BodyKeepsOthers(s, a.reqs[p], a.arb.procs[p].stage.step, a.w, a.podIPs[p], fails,
                      a.reqs[q], a.arb.procs[q].stage.step, a.podIPs[q]);
    }
  }

  lemma CrashKeepsInv(s: Subnet, a: Agent)
    requires AgentInv(a)
    ensures AgentInv(Apply(s, a, Crash).value)
  {
    hide WorldInv, Progress;
  }

  // ----- whole runs -----

  function AfterMoves(s: Subnet, a: Agent, moves: seq<Action>): Option<Agent>
    requires Shaped(a)
    decreases |moves|
  {
    if moves == [] then Some(a)
    else
      match Apply(s, a, moves[0])
      case None => None
      case Some(b) => if Shaped(b) then AfterMoves(s, b, moves[1..]) else None
  }

  lemma MoveKeepsInv(s: Subnet, a: Agent, v: Action)
    requires AgentInv(a) && Apply(s, a, v).Some?
    ensures AgentInv(Apply(s, a, v).value)
  {
    hide AgentInv;
    match v {
      case Crash => CrashKeepsInv(s, a);
      case RemoveNetns(cid) => RemovalKeepsInv(s, a, cid);
      case Run(p, fails) => TurnKeepsInv(s, a, p, fails);
    }
  }

  lemma {:induction false} RunKeepsAgent(s: Subnet, a: Agent, moves: seq<Action>)
    requires AgentInv(a) && AfterMoves(s, a, moves).Some?
    ensures AgentInv(AfterMoves(s, a, moves).value)
    decreases |moves|
  {
    hide Inv, WorldInv, Progress, Apply;
    if moves != [] {
      MoveKeepsInv(s, a, moves[0]);
      RunKeepsAgent(s, Apply(s, a, moves[0]).value, moves[1..]);
    }
  }

  /** No RPC has begun; the host may carry any containers from before. */
  ghost predicate AtStart(a: Agent) {
    Shaped(a) && Initial(a.arb) && WorldInv(a.w)
  }

  /** Ownership under every interleaving, over any number of agent lifetimes: a container whose ADD
      has succeeded and whose DEL has not begun holds its address and no other container does; and
      while its namespace exists the /32 host route for the address leads to its own veth. */
  lemma Ownership(s: Subnet, a0: Agent, moves: seq<Action>, c: string)
    requires AtStart(a0) && AfterMoves(s, a0, moves).Some?
    ensures var w := AfterMoves(s, a0, moves).value.w;
            c in w.up ==>
              && Holds(w, c, w.up[c])
              && (forall d :: d in w.allocs && w.allocs[d] == w.up[c] ==> d == c)
              && (c in w.alive ==> Routed(w, c, w.up[c]))
  {
    hide Inv, Progress, Apply, AfterMoves;
    InitialInv(a0.arb);
    RunKeepsAgent(s, a0, moves);
  }

  /** A DEL past its first step. */
  predicate Deleting(a: Agent, p: nat) {
    && p < |a.reqs| == |a.arb.procs| && a.reqs[p].kind.DEL?
    && a.arb.procs[p].stage.Critical? && a.arb.procs[p].stage.step >= 1
  }

  /** Release: a container whose DEL has succeeded has no allocation until an ADD is granted one; nor
      has it from the first step of DEL on, at whatever step its ADD had failed. */
  lemma ReleasedByDel(s: Subnet, a0: Agent, moves: seq<Action>)
    requires AtStart(a0) && AfterMoves(s, a0, moves).Some?
    ensures var a := AfterMoves(s, a0, moves).value;
            && (forall c :: c in a.w.released ==> c !in a.w.allocs && c !in a.w.up)
            && (forall p: nat :: Deleting(a, p) ==> a.reqs[p].cid !in a.w.allocs && a.reqs[p].cid !in a.w.up)
  {
    hide Inv, Apply, AfterMoves;
    InitialInv(a0.arb);
    RunKeepsAgent(s, a0, moves);
  }

  /** The release: after any run, when the first step of a DEL succeeds, the address its container
      held is nobody's and every other allocation is as it was; unless the subnet reserves the
      address, the search of the next ADD finds one, and none above it. */
  lemma ReleaseFrees(s: Subnet, a0: Agent, moves: seq<Action>, p: nat)
    requires AtStart(a0) && AfterMoves(s, a0, moves).Some? && AboutToRelease(AfterMoves(s, a0, moves).value, p)
    ensures Apply(s, AfterMoves(s, a0, moves).value, Run(p, false)).Some?
    ensures var a := AfterMoves(s, a0, moves).value;
            var m, n, c := a.w.allocs, Apply(s, a, Run(p, false)).value.w.allocs, a.reqs[p].cid;
            && c !in n && m[c] !in n.Values
            && (forall d :: d != c ==> (d in n <==> d in m) && (d in m ==> n[d] == m[d]))
            && (Usable(s, m[c]) ==>
                  var free := Simple.FirstFree(s, n.Values, 2);
                  free.Some? && IpToUint32(free.value) <= IpToUint32(m[c]))
  {
    hide Inv, AfterMoves, Usable, Progress, DropNics, AddStep, CheckStep, Simple.FirstFree;
    InitialInv(a0.arb);
    RunKeepsAgent(s, a0, moves);
    var a := AfterMoves(s, a0, moves).value;
    InvBounds(a.arb);
    TurnIsAStep(s, a, p, false);
    var m, c := a.w.allocs, a.reqs[p].cid;
    assert Apply(s, a, Run(p, false)).value.w.allocs == m - {c};
    if Usable(s, m[c]) {
      Simple.FreeAgain(s, (m - {c}).Values, m[c]);
    }
  }

  /** A DEL of a container with an allocation, before its first step. */
  predicate AboutToRelease(a: Agent, p: nat) {
    && Shaped(a) && p < |a.reqs| && a.reqs[p].kind.DEL? && a.arb.procs[p].stage == Critical(0)
    && a.reqs[p].cid in a.w.allocs
  }

  /** Every move changes at most the allocation of the container it is about. */
  lemma OtherAllocationsStay(s: Subnet, a: Agent, v: Action, d: string)
    requires Shaped(a) && Apply(s, a, v).Some?
    requires v.Run? && v.p < |a.reqs| ==> a.reqs[v.p].cid != d
    ensures var b := Apply(s, a, v).value;
            (d in b.w.allocs <==> d in a.w.allocs) && (d in a.w.allocs ==> b.w.allocs[d] == a.w.allocs[d])
  {
    hide Step, DropNics, Simple.Add, WakeAll;
    if v.Run? {
      var r := a.reqs[v.p];
      AddFrame(s, a.w.allocs, r.cid, !v.fails);
      DropKeepsTables(a.w, {Nic(r.cid, r.ifName)});
    } else if v.RemoveNetns? {
      var gone := (set n | n in a.w.nics && n.cid == v.cid)
        + set h | h in a.w.links && a.w.links[h].cid == v.cid :: a.w.links[h];
      DropKeepsTables(a.w, gone);
    }
  }

  /** A host route or veth name is never taken over: while an entry exists it keeps its meaning. */
  lemma EntriesNeverRedirected(s: Subnet, a: Agent, v: Action)
    requires Shaped(a) && Apply(s, a, v).Some?
    ensures var b := Apply(s, a, v).value;
            && (forall ip :: ip in a.w.routes && ip in b.w.routes ==> b.w.routes[ip] == a.w.routes[ip])
            && (forall h :: h in a.w.links && h in b.w.links ==> b.w.links[h] == a.w.links[h])
  {
    hide Step, Simple.Add, WakeAll;
  }

  // ----- one handler on its own -----

  /** A handler on its own from a given step to its return; fails[k] tells whether step k fails for a
      reason of its own. */
  function Finish(s: Subnet, r: Request, k: nat, w: World, podIP: Option<IP>, fails: seq<bool>): World
    requires k <= LAST && |fails| == LAST + 1
    decreases LAST - k
  {
    match Body(s, r, k, w, podIP, fails[k])
    case Exit(w') => w'
    case Next(j, w', ip) => Finish(s, r, j, w', ip, fails)
  }

  lemma FinishUnfold(s: Subnet, r: Request, k: nat, w: World, podIP: Option<IP>, fails: seq<bool>)
    requires k <= LAST && |fails| == LAST + 1
    ensures Finish(s, r, k, w, podIP, fails) ==
              match Body(s, r, k, w, podIP, fails[k])
              case Exit(w') => w'
              case Next(j, w', ip) => Finish(s, r, j, w', ip, fails)
  {
    hide Body;
  }

  const SMOOTH := [false, false, false, false, false, false, false, false, false]

  // How far an ADD gets on its own, as conditions on the world it starts in.

  predicate Opened(r: Request, w: World, fails: seq<bool>)
    requires |fails| == LAST + 1
  {
    !fails[0] && r.hasNetns && !fails[1] && r.cid in w.alive
  }

  predicate Paired(r: Request, w: World, fails: seq<bool>)
    requires |fails| == LAST + 1
  {
    Opened(r, w, fails) && !fails[2] && Nic(r.cid, r.ifName) !in w.nics
  }

  predicate Moved(r: Request, w: World, fails: seq<bool>)
    requires |fails| == LAST + 1
  {
    Paired(r, w, fails) && !fails[3] && r.veth !in w.links
  }

  predicate Plugged(r: Request, w: World, fails: seq<bool>)
    requires |fails| == LAST + 1
  {
    Moved(r, w, fails) && !fails[4]
  }

  predicate RouteMade(w: World, reply: Simple.AddReply, fails: seq<bool>)
    requires |fails| == LAST + 1
  {
    reply.Granted? && !fails[6] && reply.ip !in w.routes
  }

  predicate AddDone(s: Subnet, r: Request, w: World, fails: seq<bool>)
    requires |fails| == LAST + 1
  {
    && Plugged(r, w, fails) && RouteMade(w, Simple.Add(s, w.allocs, r.cid, !fails[5]).1, fails)
    && !fails[7] && !fails[8]
  }

  /** What an ADD leaves behind, whatever fails: every step that was reached and worked stays done;
      nothing is taken back, in particular neither the address nor the interface of a failed ADD. */
  lemma AddLeaves(s: Subnet, r: Request, w: World, fails: seq<bool>)
    requires r.kind.ADD? && |fails| == LAST + 1
    ensures var z := Finish(s, r, 0, w, None, fails);
            var nic, plugged := Nic(r.cid, r.ifName), Plugged(r, w, fails);
            var (m, reply) := Simple.Add(s, w.allocs, r.cid, !fails[5]);
            && z.alive == w.alive
            && z.nics == (if Paired(r, w, fails) then w.nics + {nic} else w.nics)
            && z.links == (if Moved(r, w, fails) then w.links[r.veth := nic] else w.links)
            && z.allocs == (if plugged then m else w.allocs)
            && z.released == (if plugged && reply.Granted? then w.released - {r.cid} else w.released)
            && z.routes == (if plugged && RouteMade(w, reply, fails) then w.routes[reply.ip := r.veth] else w.routes)
            && z.up == (if AddDone(s, r, w, fails) then w.up[r.cid := reply.ip] else w.up)
  {
    hide Finish, Simple.Add;
    if Plugged(r, w, fails) {
      AddFrame(s, w.allocs, r.cid, !fails[5]);
    }
    PlugLeaves(s, r, w, fails);
    if Plugged(r, w, fails) {
      ConnectLeaves(s, r, Linked(r, w), fails);
    }
  }

  /** Both ends of the pair are in place. */
  function Linked(r: Request, w: World): World {
    var nic := Nic(r.cid, r.ifName);
    w.(nics := w.nics + {nic}, links := w.links[r.veth := nic])
  }

  lemma PlugLeaves(s: Subnet, r: Request, w: World, fails: seq<bool>)
    requires r.kind.ADD? && |fails| == LAST + 1
    ensures Finish(s, r, 0, w, None, fails)
         == if Plugged(r, w, fails) then Finish(s, r, 5, Linked(r, w), None, fails)
            else if Moved(r, w, fails) then Linked(r, w)
            else if Paired(r, w, fails) then w.(nics := w.nics + {Nic(r.cid, r.ifName)})
            else w
  {
    hide Finish, Simple.Add;
    var paired := w.(nics := w.nics + {Nic(r.cid, r.ifName)});
    FinishUnfold(s, r, 0, w, None, fails);
    FinishUnfold(s, r, 1, w, None, fails);
    FinishUnfold(s, r, 2, w, None, fails);
    FinishUnfold(s, r, 3, paired, None, fails);
    FinishUnfold(s, r, 4, Linked(r, w), None, fails);
  }

  lemma ConnectLeaves(s: Subnet, r: Request, w: World, fails: seq<bool>)
    requires r.kind.ADD? && |fails| == LAST + 1 && r.veth in w.links
    ensures var z := Finish(s, r, 5, w, None, fails);
            var (m, reply) := Simple.Add(s, w.allocs, r.cid, !fails[5]);
            var routed := RouteMade(w, reply, fails);
            && z.alive == w.alive && z.nics == w.nics && z.links == w.links
            && z.allocs == m
            && z.released == (if reply.Granted? then w.released - {r.cid} else w.released)
            && z.routes == (if routed then w.routes[reply.ip := r.veth] else w.routes)
            && z.up == (if routed && !fails[7] && !fails[8] then w.up[r.cid := reply.ip] else w.up)
  {
    hide Finish, Simple.Add;
    AddFrame(s, w.allocs, r.cid, !fails[5]);
    FinishUnfold(s, r, 5, w, None, fails);
    var (m, reply) := Simple.Add(s, w.allocs, r.cid, !fails[5]);
    if reply.Granted? {
      var w6 := w.(allocs := m, released := w.released - {r.cid});
      var w7 := w6.(routes := w6.routes[reply.ip := r.veth]);
      FinishUnfold(s, r, 6, w6, Some(reply.ip), fails);
      FinishUnfold(s, r, 7, w7, Some(reply.ip), fails);
      FinishUnfold(s, r, 8, w7, Some(reply.ip), fails);
    }
  }

  /** An ADD of a container that is not up succeeds if and only if every step can be taken: the
      namespace is named and exists, interface and link name are new, no call fails, and the
      allocator grants an address for which no /32 route lingers. */
  lemma AddSucceedsIff(s: Subnet, r: Request, w: World, fails: seq<bool>)
    requires r.kind.ADD? && |fails| == LAST + 1 && r.cid !in w.up
    ensures r.cid in Finish(s, r, 0, w, None, fails).up <==>
              && (forall k :: 0 <= k <= LAST && k != 5 ==> !fails[k])
              && r.hasNetns && r.cid in w.alive && Nic(r.cid, r.ifName) !in w.nics && r.veth !in w.links
              && var reply := Simple.Add(s, w.allocs, r.cid, !fails[5]).1;
                 reply.Granted? && reply.ip !in w.routes
  {
    hide Finish, Simple.Add;
    AddLeaves(s, r, w, fails);
  }

  /** A DEL reports success unless the disk refuses the release of an address the container holds, or
      the interface of a namespace that could be opened cannot be deleted. */
  predicate DelDone(r: Request, w: World, fails: seq<bool>)
    requires |fails| == LAST + 1
  {
    && (r.cid !in w.allocs || !fails[0])
    && (!r.hasNetns || fails[1] || r.cid !in w.alive || !fails[2])
  }

  /** What a DEL leaves behind and when it succeeds, whatever fails. A container without an address, an
      unnamed or vanished namespace and a missing interface are no errors. */
  lemma DelLeaves(s: Subnet, r: Request, w: World, fails: seq<bool>)
    requires r.kind.DEL? && |fails| == LAST + 1
    ensures var z := Finish(s, r, 0, w, None, fails);
            var freed := r.cid !in w.allocs || !fails[0];
            var gone := if freed && r.hasNetns && !fails[1] && r.cid in w.alive && !fails[2]
                        then {Nic(r.cid, r.ifName)} else {};
            && (r.cid in z.released <==> DelDone(r, w, fails))
            && z.released - {r.cid} == w.released - {r.cid}
            && z.allocs == (if freed then w.allocs - {r.cid} else w.allocs)
            && z.alive == w.alive && z.up == w.up - {r.cid}
            && z.nics == w.nics - gone
            && (forall h :: h in z.links <==> h in w.links && w.links[h] !in gone)
            && (forall h :: h in z.links ==> z.links[h] == w.links[h])
            && (forall ip :: ip in z.routes <==>
                  ip in w.routes && !(w.routes[ip] in w.links && w.links[w.routes[ip]] in gone))
            && (forall ip :: ip in z.routes ==> z.routes[ip] == w.routes[ip])
  {
    hide Finish;
    FinishUnfold(s, r, 0, w, None, fails);
    var w1 := w.(up := w.up - {r.cid}, released := w.released - {r.cid}, allocs := w.allocs - {r.cid});
    assert r.cid !in w.allocs ==> w.allocs - {r.cid} == w.allocs;
    FinishUnfold(s, r, 1, w1, None, fails);
    FinishUnfold(s, r, 2, w1, None, fails);
  }

  /** A CHECK changes nothing, whatever fails. */
  lemma CheckLeaves(s: Subnet, r: Request, w: World, fails: seq<bool>)
    requires r.kind.CHECK? && |fails| == LAST + 1
    ensures Finish(s, r, 0, w, None, fails) == w
  {
  }

  /** A DEL that reports success has always released the address, but the /32 route through the
      container's veth stays exactly when DEL was given no namespace or failed to open it. (The route
      of a namespace that is gone went with it.) */
  lemma RouteLingersIff(s: Subnet, r: Request, w: World, fails: seq<bool>, ip: IP)
    requires r.kind.DEL? && WorldInv(w) && |fails| == LAST + 1
    requires ip in w.routes && w.links[w.routes[ip]] == Nic(r.cid, r.ifName)
    requires r.cid in Finish(s, r, 0, w, None, fails).released
    ensures var z := Finish(s, r, 0, w, None, fails);
            && r.cid !in z.allocs
            && (ip in z.routes <==> !r.hasNetns || fails[1])
  {
    hide Finish, Simple.Injective;
    DelLeaves(s, r, w, fails);
  }

  // ----- every request is answered -----

  function AgentMeasure(a: Agent): nat {
    Measure(a.arb) + |a.w.alive|
  }

  lemma {:induction false} SumRestarted(f: Stage -> nat, arb: Arb)
    requires f(Done) == 0
    ensures Sum(f, Restarted(arb).procs) <= Sum(f, arb.procs)
    decreases |arb.procs|
  {
    if arb.procs != [] {
      var rest := arb.(procs := arb.procs[1..]);
      assert Restarted(arb).procs[1..] == Restarted(rest).procs;
      SumRestarted(f, rest);
    }
  }

  lemma ProductGrows(e: nat, d: nat, n: nat)
    requires e <= d
    ensures e * n <= d * n
  {
  }

  lemma RestartDecreases(arb: Arb)
    ensures Measure(Restarted(arb)) <= Measure(arb)
  {
    hide Sum, Restarted;
    SumRestarted(Distance, arb);
    SumRestarted(Round, arb);
    ProductGrows(Sum(Distance, Restarted(arb).procs), Sum(Distance, arb.procs), 3 * |arb.procs| + 1);
  }

  /** Every move but a crash makes the measure smaller, and a crash does not make it larger. */
  lemma MoveDecreases(s: Subnet, a: Agent, v: Action)
    requires Shaped(a) && StepsBounded(a.arb) && Apply(s, a, v).Some?
    ensures AgentMeasure(Apply(s, a, v).value) + (if v.Crash? then 0 else 1) <= AgentMeasure(a)
  {
    hide Step, Measure, StepsBounded;
    match v {
      case Crash => RestartDecreases(a.arb);
      case RemoveNetns(cid) =>
        hide Body, DropNics;
        assert a.w.alive - {cid} < a.w.alive;
      case Run(p, fails) =>
        TurnIsAStep(s, a, p, fails);
        StepDecreases(a.arb, p, ChoiceOf(s, a, p, fails));
        AliveStays(s, a, p, fails);
    }
  }

  lemma AliveStays(s: Subnet, a: Agent, p: nat, fails: bool)
    requires Shaped(a) && Apply(s, a, Run(p, fails)).Some?
    ensures Apply(s, a, Run(p, fails)).value.w.alive == a.w.alive
  {
    hide Step, Simple.Add;
  }

  function Crashes(moves: seq<Action>): nat {
    if moves == [] then 0 else (if moves[0].Crash? then 1 else 0) + Crashes(moves[1..])
  }

  /** Every schedule ends: apart from crashes the number of moves is bounded at the start, and a
      schedule in which no RPC can move any more has finished every RPC. */
  lemma {:induction false} EveryRequestEnds(s: Subnet, a: Agent, moves: seq<Action>)
    requires AgentInv(a) && AfterMoves(s, a, moves).Some?
    ensures |moves| + AgentMeasure(AfterMoves(s, a, moves).value) <= AgentMeasure(a) + Crashes(moves)
    ensures var b := AfterMoves(s, a, moves).value;
            Shaped(b) && ((forall p: nat, fails :: Apply(s, b, Run(p, fails)).None?) ==> Finished(b.arb))
    decreases |moves|
  {
    hide WorldInv, Progress, Apply, AgentMeasure, MutexInv, Exclusive, BusyExact, NoLostWakeup;
    if moves == [] {
      if !Finished(a.arb) { SomeTurnPossible(s, a); }
    } else {
      MoveKeepsInv(s, a, moves[0]);
      MoveDecreases(s, a, moves[0]);
      EveryRequestEnds(s, Apply(s, a, moves[0]).value, moves[1..]);
    }
  }

  lemma SomeTurnPossible(s: Subnet, a: Agent)
    requires Shaped(a) && Inv(a.arb) && !Finished(a.arb)
    ensures exists p: nat, fails :: Apply(s, a, Run(p, fails)).Some?
  {
    hide Body, MutexInv, Exclusive, BusyExact, NoLostWakeup;
    SomeoneCanMove(a.arb);
    var p: nat, ch :| Step(a.arb, p, ch).Some?;
    TurnIsAStep(s, a, p, false);
    assert Apply(s, a, Run(p, false)).Some?;
  }
}
