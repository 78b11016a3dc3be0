/** cmdAdd, cmdDel and cmdCheck of pkg/agent/server.go in their own form: ordered side effects on
    the allocator object and on the kernel's pod plumbing (pkg/network/network.go). Each handler is
    proved to do what its steps in Agent do one after the other. */
module Server {
  import opened Wrappers
  import opened IPv4
  import opened Arbiter
  import opened Agent
  import opened AllocatorCore
  import opened IpamAllocator
  import Simple = SimpleAllocator

  /** Namespaces, veth pairs and host routes. Each call is told whether it fails by itself. */
  class Host {
    var nics: set<Nic>
    var links: map<string, Nic>
    var routes: map<IP, string>
    var alive: set<string>

    /** An empty path names no namespace. */
    method GetNS(req: Request, fails: bool) returns (ok: bool)
      ensures ok == (req.hasNetns && !fails && req.cid in alive)
    {
      return req.hasNetns && !fails && req.cid in alive;
    }

    method SetupVeth(cid: string, ifName: string, fails: bool) returns (ok: bool)
      modifies this`nics
      ensures ok == (!fails && Nic(cid, ifName) !in old(nics))
      ensures nics == if ok then old(nics) + {Nic(cid, ifName)} else old(nics)
    {
      ok := !fails && Nic(cid, ifName) !in nics;
      if ok {
        nics := nics + {Nic(cid, ifName)};
      }
    }

    /** LinkSetNsFd: the name must be free in the host namespace. */
    method MoveToHost(veth: string, nic: Nic, fails: bool) returns (ok: bool)
      modifies this`links
      ensures ok == (!fails && veth !in old(links))
      ensures links == if ok then old(links)[veth := nic] else old(links)
    {
      ok := !fails && veth !in links;
      if ok {
        links := links[veth := nic];
      }
    }

    method LinkByName(veth: string, fails: bool) returns (ok: bool)
      ensures ok == (!fails && veth in links)
    {
      return !fails && veth in links;
    }

    method SetupHostRoute(veth: string, ip: IP, fails: bool) returns (ok: bool)
      modifies this`routes
      ensures ok == (!fails && veth in links && ip !in old(routes))
      ensures routes == if ok then old(routes)[ip := veth] else old(routes)
    {
      var found := LinkByName(veth, fails);
      ok := found && ip !in routes;
      if ok {
        routes := routes[ip := veth];
      }
    }

    /** DeleteVeth: the kernel removes the peer and every route through it. */
    method DeleteVeth(nic: Nic, fails: bool) returns (ok: bool)
      modifies this`nics, this`links, this`routes
      ensures ok == !fails
      ensures var dead := PeersOf(old(links), {nic});
              if ok then
                nics == old(nics) - {nic} && links == old(links) - dead && routes == RoutesWithout(old(routes), dead)
              else nics == old(nics) && links == old(links) && routes == old(routes)
    {
      if fails {
        return false;
      }
      var dead := PeersOf(links, {nic});
      nics := nics - {nic};
      routes := RoutesWithout(routes, dead);
      links := links - dead;
      return true;
    }
  }

  /** What can go wrong in an ADD, call by call. */
  datatype AddFaults = AddFaults(conf: bool, netns: bool, veth: bool, move: bool, linkUp: bool,
                                 persist: Faults, route: bool, configure: bool, result: bool)

  function AsSteps(f: AddFaults): seq<bool> {
    [f.conf, f.netns, f.veth, f.move, f.linkUp, !Durable(f.persist), f.route, f.configure, f.result]
  }

  datatype DelFaults = DelFaults(persist: Faults, netns: bool, veth: bool)

  function AsDelSteps(f: DelFaults): seq<bool> {
    [!Durable(f.persist), f.netns, f.veth, false, false, false, false, false, false]
  }

  /** Which calls of a CHECK fail, and what it reads of the interface it finds. */
  datatype CheckFaults = CheckFaults(netns: bool, link: bool, isUp: bool, list: bool, addresses: nat)

  class AgentServer {
    const alloc: Allocator
    const host: Host
    ghost var up: map<string, IP>
    ghost var released: set<string>

    constructor (alloc: Allocator, host: Host)
      ensures this.alloc == alloc && this.host == host && up == map[] && released == {}
    {
      this.alloc := alloc;
      this.host := host;
      up := map[];
      released := {};
    }

    ghost function View(): World
      reads this, alloc, host
    {
      World(alloc.allocs, host.nics, host.links, host.routes, host.alive, up, released)
    }

    /** The first half of cmdAdd: parse, open the namespace, create the veth pair and bring the host
        end up. */
    method PlugVeth(req: Request, f: AddFaults) returns (ok: bool)
      requires req.kind.ADD?
      modifies host
      ensures Finish(alloc.subnet, req, 0, old(View()), None, AsSteps(f))
           == if ok then Finish(alloc.subnet, req, 5, View(), None, AsSteps(f)) else View()
      ensures ok <==> Plugged(req, old(View()), AsSteps(f))
      ensures ok ==> View() == Linked(req, old(View()))
    {
      hide Simple.Add, Finish, DelStep, CheckStep;
      ghost var s, fails := alloc.subnet, AsSteps(f);
      FinishUnfold(s, req, 0, View(), None, fails);
      if f.conf { return false; }

      FinishUnfold(s, req, 1, View(), None, fails);
      var inNs := host.GetNS(req, f.netns);
      if !inNs { return false; }

      ok := CreatePair(req, f);
      if !ok { return; }

      FinishUnfold(s, req, 4, View(), None, fails);
      ok := host.LinkByName(req.veth, f.linkUp);
    }

    /** What cmdAdd does inside the namespace: create the pair and move one end to the host. */
    method CreatePair(req: Request, f: AddFaults) returns (ok: bool)
      requires req.kind.ADD?
      modifies host
      ensures Finish(alloc.subnet, req, 2, old(View()), None, AsSteps(f))
           == if ok then Finish(alloc.subnet, req, 4, View(), None, AsSteps(f)) else View()
      ensures ok <==> !f.veth && Nic(req.cid, req.ifName) !in old(host.nics) && !f.move && req.veth !in old(host.links)
      ensures ok ==> View() == Linked(req, old(View()))
    {
      hide Simple.Add, Finish, DelStep, CheckStep;
      ghost var s, fails := alloc.subnet, AsSteps(f);
      FinishUnfold(s, req, 2, View(), None, fails);
      var made := host.SetupVeth(req.cid, req.ifName, f.veth);
      if !made { return false; }

      FinishUnfold(s, req, 3, View(), None, fails);
      ok := host.MoveToHost(req.veth, Nic(req.cid, req.ifName), f.move);
    }

    /** The second half: allocate, then connect. */
    method Address(req: Request, f: AddFaults) returns (ok: bool)
      requires alloc.Consistent() && req.kind.ADD?
      modifies this, alloc, alloc.dir, host
      ensures alloc.Consistent()
      ensures View() == Finish(alloc.subnet, req, 5, old(View()), None, AsSteps(f))
      ensures var reply := Simple.Add(alloc.subnet, old(alloc.allocs), req.cid, Durable(f.persist)).1;
              ok <==> req.veth in old(host.links) && RouteMade(old(View()), reply, AsSteps(f))
                      && !f.configure && !f.result
      ensures ok ==> req.cid in up && req.cid in alloc.allocs && up[req.cid] == alloc.allocs[req.cid]
      ensures !ok ==> up == old(up)
    {
      hide Simple.Add, Simple.AddAnswer, Finish, AllocatorCore.Add, Valid, PersistFiles, DelStep, CheckStep;
      FinishUnfold(alloc.subnet, req, 5, View(), None, AsSteps(f));
      AddFrame(alloc.subnet, alloc.allocs, req.cid, Durable(f.persist));
      var reply := alloc.Add(req.cid, f.persist);
      if !reply.Granted? { return false; }
      released := released - {req.cid};
      ok := Connect(req, reply.ip, f);
    }

    /** Route the address to the veth, configure the interface, answer. */
    method Connect(req: Request, podIP: IP, f: AddFaults) returns (ok: bool)
      requires req.kind.ADD?
      modifies this, host
      ensures View() == Finish(alloc.subnet, req, 6, old(View()), Some(podIP), AsSteps(f))
      ensures ok <==> req.veth in old(host.links) && !f.route && podIP !in old(host.routes) && !f.configure && !f.result
      ensures released == old(released) && up == if ok then old(up)[req.cid := podIP] else old(up)
    {
      hide Finish, DelStep, CheckStep;
      ghost var s, fails := alloc.subnet, AsSteps(f);
      FinishUnfold(s, req, 6, View(), Some(podIP), fails);
      var routed := host.SetupHostRoute(req.veth, podIP, f.route);
      if !routed { return false; }

      FinishUnfold(s, req, 7, View(), Some(podIP), fails);
      if f.configure { return false; }

      FinishUnfold(s, req, 8, View(), Some(podIP), fails);
      if f.result { return false; }
      up := up[req.cid := podIP];
      return true;
    }

    /** cmdAdd. Whatever fails where, the world ends as the steps one by one would leave it, which
        AddLeaves spells out, and the call succeeds exactly if every step could be taken; then the
        container is up with an address that is on disk. */
    method CmdAdd(req: Request, f: AddFaults) returns (ok: bool)
      requires alloc.Consistent() && req.kind.ADD?
      modifies this, alloc, alloc.dir, host
      ensures alloc.Consistent()
      ensures View() == Finish(alloc.subnet, req, 0, old(View()), None, AsSteps(f))
      ensures ok <==> AddDone(alloc.subnet, req, old(View()), AsSteps(f))
      ensures ok ==> req.cid in up && req.cid in alloc.allocs && up[req.cid] == alloc.allocs[req.cid]
      ensures ok ==> Stored(alloc.subnet, alloc.dir.Contents()) == alloc.allocs
      ensures !ok ==> up == old(up)
    {
      hide Finish, Valid, Simple.Add;
      ok := PlugVeth(req, f);
      if ok {
        ok := Address(req, f);
        ValidStored(alloc.subnet, alloc.State());
      }
    }

    /** cmdDel: release first, then tear down what can be reached. It fails only if the disk refuses
        the release of a held address, or the interface of a namespace it opened cannot be deleted.
        Success means that the container has no allocation, in memory or on disk. */
    method CmdDel(req: Request, f: DelFaults) returns (ok: bool)
      requires alloc.Consistent() && req.kind.DEL?
      modifies this, alloc, alloc.dir, host
      ensures alloc.Consistent()
      ensures View() == Finish(alloc.subnet, req, 0, old(View()), None, AsDelSteps(f))
      ensures ok <==> (req.cid !in old(alloc.allocs) || Durable(f.persist)) &&
                      (!req.hasNetns || f.netns || req.cid !in old(host.alive) || !f.veth)
      ensures ok <==> req.cid in released
      ensures ok ==> req.cid !in alloc.allocs && req.cid !in Stored(alloc.subnet, alloc.dir.Contents())
    {
      hide AllocatorCore.Del, PersistFiles, Finish, AddStep, CheckStep;
      ghost var s, fails := alloc.subnet, AsDelSteps(f);
      FinishUnfold(s, req, 0, View(), None, fails);
      up := up - {req.cid};
      released := released - {req.cid};
      var freed := alloc.Del(req.cid, f.persist);
      if !freed { return false; }
      ok := TearDown(req, f);
    }

    /** What cmdDel does after the release: no namespace, or one that cannot be opened, is success. */
    method TearDown(req: Request, f: DelFaults) returns (ok: bool)
      requires req.kind.DEL?
      modifies this`released, host
      ensures View() == Finish(alloc.subnet, req, 1, old(View()), None, AsDelSteps(f))
      ensures ok <==> !req.hasNetns || f.netns || req.cid !in old(host.alive) || !f.veth
      ensures released == if ok then old(released) + {req.cid} else old(released)
    {
      hide Finish, AddStep, CheckStep;
      ghost var s, fails := alloc.subnet, AsDelSteps(f);
      FinishUnfold(s, req, 1, View(), None, fails);
      ok := true;
      if req.hasNetns {
        var inNs := host.GetNS(req, f.netns);
        if inNs {
          FinishUnfold(s, req, 2, View(), None, fails);
          ok := host.DeleteVeth(Nic(req.cid, req.ifName), f.veth);
        }
      }
      released := if ok then released + {req.cid} else released;
    }

    /** cmdCheck: succeeds exactly with an allocation, a namespace, and an interface in it that is up
        and has an address; changes nothing. */
    method CmdCheck(req: Request, f: CheckFaults) returns (ok: bool)
      ensures ok == (req.cid in alloc.allocs && req.hasNetns && !f.netns && req.cid in host.alive &&
                     Nic(req.cid, req.ifName) in host.nics && !f.link && f.isUp && !f.list && f.addresses > 0)
    {
      var ip := alloc.Check(req.cid);
      if ip.None? { return false; }
      var inNs := host.GetNS(req, f.netns);
      if !inNs { return false; }
      if f.link || Nic(req.cid, req.ifName) !in host.nics { return false; }
      if !f.isUp { return false; }
      return !f.list && f.addresses > 0;
    }
  }
}
