/** Requests answered one after the other: an RPC that runs alone takes the step system exactly where
    its handler's steps lead, and a run of three requests leaves a /32 route that blocks the last. */
module SoloRuns {
  import opened Wrappers
  import opened IPv4
  import opened Subnets
  import opened Arbiter
  import opened Handlers = Agent
  import Simple = SimpleAllocator

  /** Every other RPC is done or not yet begun, and p is not waiting. */
  predicate Alone(a: Agent, p: nat) {
    && Shaped(a) && p < |a.reqs|
    && (forall q :: 0 <= q < |a.reqs| && q != p ==> Idle(a.arb.procs[q].stage))
    && var t := a.arb.procs[p].stage;
       && !Waits(t) && !t.Awake? && (t.Critical? ==> t.step <= LAST)
       && a.arb.mutex == (if HoldsMutex(t) then Some(p) else None)
       && a.arb.busy == (if Owns(t) then {a.reqs[p].cid} else {})
  }

  predicate Idle(t: Stage) {
    t.Start? || t.Done?
  }

  /** Nobody is being served. */
  predicate Quiet(a: Agent) {
    && Shaped(a) && a.arb.mutex == None && a.arb.busy == {}
    && forall q :: 0 <= q < |a.reqs| ==> Idle(a.arb.procs[q].stage)
  }

  /** The world p will leave behind if it goes on alone without failures. */
  function Left(s: Subnet, a: Agent, p: nat): World
    requires Alone(a, p)
  {
    match a.arb.procs[p].stage
    case Start => Finish(s, a.reqs[p], 0, a.w, None, SMOOTH)
    case Testing => Finish(s, a.reqs[p], 0, a.w, None, SMOOTH)
    case Entered => Finish(s, a.reqs[p], 0, a.w, None, SMOOTH)
    case Critical(k) => Finish(s, a.reqs[p], k, a.w, a.podIPs[p], SMOOTH)
    case _ => a.w
  }

  /** Only p has moved. */
  predicate OthersStay(a: Agent, b: Agent, p: nat) {
    && b.reqs == a.reqs && |b.arb.procs| == |a.arb.procs|
    && forall q :: 0 <= q < |a.arb.procs| && q != p ==> b.arb.procs[q] == a.arb.procs[q]
  }

  lemma FirstStepIgnoresIP(s: Subnet, r: Request, w: World, podIP: Option<IP>)
    ensures Finish(s, r, 0, w, podIP, SMOOTH) == Finish(s, r, 0, w, None, SMOOTH)
  {
    hide Finish;
    FinishUnfold(s, r, 0, w, podIP, SMOOTH);
    FinishUnfold(s, r, 0, w, None, SMOOTH);
  }

  lemma AloneStep(s: Subnet, a: Agent, p: nat)
    requires Alone(a, p) && !a.arb.procs[p].stage.Done?
    ensures Apply(s, a, Run(p, false)).Some?
    ensures var b := Apply(s, a, Run(p, false)).value;
            Alone(b, p) && OthersStay(a, b, p) && Left(s, b, p) == Left(s, a, p)
  {
    hide Apply;
    match a.arb.procs[p].stage {
      case Critical(_) => HandlerStep(s, a, p);
      case Start => LockStep(s, a, p);
      case Testing => LockStep(s, a, p);
      case Entered => LockStep(s, a, p);
      case _ => UnlockStep(s, a, p);
    }
  }

  lemma LockStep(s: Subnet, a: Agent, p: nat)
    requires Alone(a, p)
    requires var t := a.arb.procs[p].stage; t.Start? || t.Testing? || t.Entered?
    ensures Apply(s, a, Run(p, false)).Some?
    ensures var b := Apply(s, a, Run(p, false)).value;
            Alone(b, p) && OthersStay(a, b, p) && Left(s, b, p) == Left(s, a, p)
  {
    hide Body, Finish;
    assert a.arb.procs[p].cid == a.reqs[p].cid;
    FirstStepIgnoresIP(s, a.reqs[p], a.w, a.podIPs[p]);
  }

  lemma UnlockStep(s: Subnet, a: Agent, p: nat)
    requires Alone(a, p)
    requires var t := a.arb.procs[p].stage; t.Leaving? || t.Unlocking? || t.Signalling? || t.Left?
    ensures Apply(s, a, Run(p, false)).Some?
    ensures var b := Apply(s, a, Run(p, false)).value;
            Alone(b, p) && OthersStay(a, b, p) && Left(s, b, p) == Left(s, a, p)
  {
    hide Body, Finish;
    assert a.arb.procs[p].cid == a.reqs[p].cid;
  }

  lemma HandlerStep(s: Subnet, a: Agent, p: nat)
    requires Alone(a, p) && a.arb.procs[p].stage.Critical?
    ensures Apply(s, a, Run(p, false)).Some?
    ensures var b := Apply(s, a, Run(p, false)).value;
            Alone(b, p) && OthersStay(a, b, p) && Left(s, b, p) == Left(s, a, p)
  {
    hide Body, Finish;
    FinishUnfold(s, a.reqs[p], a.arb.procs[p].stage.step, a.w, a.podIPs[p], SMOOTH);
  }

  /** Turns of RPC p that meet no failure. */
  predicate TurnsOf(moves: seq<Action>, p: nat) {
    forall i :: 0 <= i < |moves| ==> moves[i] == Run(p, false)
  }

  lemma AfterCons(s: Subnet, a: Agent, v: Action, rest: seq<Action>)
    requires Shaped(a) && Apply(s, a, v).Some? && Shaped(Apply(s, a, v).value)
    ensures AfterMoves(s, a, [v] + rest) == AfterMoves(s, Apply(s, a, v).value, rest)
  {
    hide Apply;
    assert ([v] + rest)[1..] == rest;
  }

  /** An RPC that goes on alone is answered, and the world ends where its handler's steps lead. */
  lemma {:induction false} GoesOn(s: Subnet, a: Agent, p: nat) returns (moves: seq<Action>)
    requires Alone(a, p)
    ensures TurnsOf(moves, p) && AfterMoves(s, a, moves).Some?
    ensures var b := AfterMoves(s, a, moves).value;
            && Alone(b, p) && b.arb.procs[p].stage.Done? && OthersStay(a, b, p) && b.w == Left(s, a, p)
    decreases AgentMeasure(a)
  {
    hide Apply, Finish, AgentMeasure;
    if a.arb.procs[p].stage.Done? {
      moves := [];
    } else {
      AloneStep(s, a, p);
      var b := Apply(s, a, Run(p, false)).value;
      MoveDecreases(s, a, Run(p, false));
      var rest := GoesOn(s, b, p);
      AfterCons(s, a, Run(p, false), rest);
      moves := [Run(p, false)] + rest;
    }
  }

  /** Serving one request that has not begun. */
  lemma Serve(s: Subnet, a: Agent, p: nat) returns (moves: seq<Action>)
    requires Quiet(a) && p < |a.reqs| && a.arb.procs[p].stage.Start?
    ensures TurnsOf(moves, p) && AfterMoves(s, a, moves).Some?
    ensures var b := AfterMoves(s, a, moves).value;
            && Quiet(b) && OthersStay(a, b, p) && b.arb.procs[p].stage.Done?
            && b.w == Finish(s, a.reqs[p], 0, a.w, None, SMOOTH)
  {
    hide Apply, Finish, AfterMoves;
    moves := GoesOn(s, a, p);
  }

  lemma {:induction false} AfterConcat(s: Subnet, a: Agent, u: seq<Action>, v: seq<Action>)
    requires Shaped(a) && AfterMoves(s, a, u).Some? && Shaped(AfterMoves(s, a, u).value)
    ensures AfterMoves(s, a, u + v) == AfterMoves(s, AfterMoves(s, a, u).value, v)
    decreases |u|
  {
    hide Apply;
    if u == [] {
      assert u + v == v;
    } else {
      assert (u + v)[1..] == u[1..] + v;
      AfterConcat(s, Apply(s, a, u[0]).value, u[1..], v);
    }
  }

  // ----- a lingering route -----

  const ADDA := Request(ADD, "a", true, "eth0", "veth-a")
  const DELA := Request(DEL, "a", false, "eth0", "veth-a")
  const ADDB := Request(ADD, "b", true, "eth0", "veth-b")

  const NICA := Nic("a", "eth0")
  const NICB := Nic("b", "eth0")

  const IDLE := Arb(None, {}, [Proc("a", Start), Proc("a", Start), Proc("b", Start)])

  /** Two containers, nothing set up, three requests to come. */
  const BEGIN := Agent(IDLE, [ADDA, DELA, ADDB], [None, None, None],
                             World(map[], {}, map[], map[], {"a", "b"}, map[], {}))

  /** What the three requests leave, one after the other. */
  function WithA(ip: IP): World {
    World(map["a" := ip], {NICA}, map["veth-a" := NICA], map[ip := "veth-a"], {"a", "b"}, map["a" := ip], {})
  }

  function WithoutA(ip: IP): World {
    World(map[], {NICA}, map["veth-a" := NICA], map[ip := "veth-a"], {"a", "b"}, map[], {"a"})
  }

  function Blocked(ip: IP): World {
    World(map["b" := ip], {NICA, NICB}, map["veth-a" := NICA, "veth-b" := NICB], map[ip := "veth-a"],
          {"a", "b"}, map[], {"a"})
  }

  lemma SetUpA(s: Subnet, ip: IP)
    requires Simple.FirstFree(s, {}, 2) == Some(ip)
    ensures Finish(s, ADDA, 0, BEGIN.w, None, SMOOTH) == WithA(ip)
  {
  }

  lemma DeleteA(s: Subnet, ip: IP)
    ensures Finish(s, DELA, 0, WithA(ip), None, SMOOTH) == WithoutA(ip)
  {
  }

  lemma RefuseB(s: Subnet, ip: IP)
    requires Simple.FirstFree(s, {}, 2) == Some(ip)
    ensures Finish(s, ADDB, 0, WithoutA(ip), None, SMOOTH) == Blocked(ip)
  {
  }

  ghost predicate BlockedRun(s: Subnet, moves: seq<Action>) {
    && AtStart(BEGIN) && (forall i :: 0 <= i < |moves| ==> moves[i].Run? && !moves[i].fails)
    && AfterMoves(s, BEGIN, moves).Some?
    && var b := AfterMoves(s, BEGIN, moves).value;
       && Finished(b.arb) && "a" in b.w.released && "b" in b.w.allocs && "b" !in b.w.up
       && Routed(b.w, "a", b.w.allocs["b"])
  }

  lemma SomethingFree(s: Subnet)
    requires s.ones <= 30
    ensures Simple.FirstFree(s, {}, 2).Some?
  {
    hide Size;
    ShortPrefix(s);
  }

  lemma BeginIsQuiet()
    ensures AtStart(BEGIN) && Quiet(BEGIN)
  {
  }

  /** A run without a single failure in which an ADD is refused: a is set up and deleted without its
      namespace being named, b is granted the address a had, and cannot have the route, which still
      leads to a. */
  lemma LingeringRouteBlocks(s: Subnet)
    requires s.ones <= 30
    ensures exists moves :: BlockedRun(s, moves)
  {
    hide Apply, Finish, AfterMoves, Simple.FirstFree, WorldInv, Size, AtStart;
    BeginIsQuiet();
    SomethingFree(s);
    var ip := Simple.FirstFree(s, {}, 2).value;
    SetUpA(s, ip);
    DeleteA(s, ip);
    RefuseB(s, ip);
    var u := Serve(s, BEGIN, 0);
    var a1 := AfterMoves(s, BEGIN, u).value;
    var v := Serve(s, a1, 1);
    var a2 := AfterMoves(s, a1, v).value;
    var w := Serve(s, a2, 2);
    AfterConcat(s, BEGIN, u, v);
    AfterConcat(s, BEGIN, u + v, w);
    assert BlockedRun(s, u + v + w);
  }
}
