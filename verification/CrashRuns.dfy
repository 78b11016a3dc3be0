/** The allocator cut into its file-system steps, with a process crash possible between any two
    of them. One run is a list of moves; every claim is about every run on one CIDR. */
module CrashRuns {
  import opened Wrappers
  import opened IPv4
  import opened Subnets
  import opened AllocatorCore
  import Simple = SimpleAllocator

  /** The change an operation is making. */
  datatype Op = Alloc(cid: string, ip: IP) | Release(cid: string, ip: IP)

  datatype Phase =
    | Down(lost: Option<Op>)   // the process is gone, with the operation it was in
    | Idle                     // the mutex is free
    | Updated(op: Op)          // the maps are changed, the disk is not
    | Opened(op: Op)           // the temporary file exists, incomplete
    | TmpWritten(op: Op)       // the temporary file is complete
    | RenameRefused(op: Op)    // the temporary file is still to be removed
    | Failing(op: Op)          // persist has failed, the maps are still to be rolled back
    | Renamed(op: Op)          // the state file is replaced, the caller not yet told

  /** acked is what callers have been told: every granted and not yet released address. A boot
      sets it to what the new process will answer. */
  datatype System = System(core: Core, phase: Phase, acked: Simple.Table)

  datatype Move =
    | BeginAdd(cid: string) | BeginDel(cid: string)
    | OpenTmp | RefuseOpen | FinishTmp | CutTmp
    | RenameTmp | RefuseRename | RemoveTmp(ok: bool)
    | RollBack | Return
    | Crash | Boot

  predicate InFlight(p: Phase) {
    !p.Down? && !p.Idle?
  }

  function OpOf(p: Phase): Op
    requires InFlight(p)
  {
    p.op
  }

  function ApplyOp(m: Simple.Table, op: Op): Simple.Table {
    match op
    case Alloc(cid, ip) => m[cid := ip]
    case Release(cid, _) => m - {cid}
  }

  function Do(m: Mem, op: Op): Mem {
    match op
    case Alloc(cid, ip) => Insert(m, cid, ip)
    case Release(cid, ip) => Remove(m, cid, ip)
  }

  function Undo(m: Mem, op: Op): Mem {
    match op
    case Alloc(cid, ip) => Remove(m, cid, ip)
    case Release(cid, ip) => Insert(m, cid, ip)
  }

  /** The process dies: memory is gone, the files stay. */
  function Crashed(a: System): System
    requires !a.phase.Down?
  {
    var lost := if a.phase.Idle? then None else Some(OpOf(a.phase));
    a.(core := Core(Mem(map[], map[]), a.core.files), phase := Down(lost))
  }

  /** One move, or None when it is not possible in this state. */
  ghost function Apply(s: Subnet, a: System, v: Move): Option<System> {
    var mem, files, p := a.core.mem, a.core.files, a.phase;
    match v
    case BeginAdd(cid) =>
      var free := ScanIndex(s, mem.used, 2);
      if p.Idle? && cid !in mem.allocs && free.Some? then
        var op := Alloc(cid, free.value);
        Some(a.(core := Core(Do(mem, op), files), phase := Updated(op)))
      else None
    case BeginDel(cid) =>
      if p.Idle? && cid in mem.allocs then
        var op := Release(cid, mem.allocs[cid]);
        Some(a.(core := Core(Do(mem, op), files), phase := Updated(op)))
      else None
    case RefuseOpen =>
      if p.Updated? then Some(a.(phase := Failing(p.op))) else None
    case OpenTmp =>
      if p.Updated? then Some(a.(core := Core(mem, files.(tmp := Some(Partial))), phase := Opened(p.op))) else None
    case CutTmp =>
      if p.Opened? then Some(a.(phase := Failing(p.op))) else None
    case FinishTmp =>
      if p.Opened? then
        Some(a.(core := Core(mem, files.(tmp := Some(Complete(mem.used)))), phase := TmpWritten(p.op)))
      else None
    case RenameTmp =>
      if p.TmpWritten? then Some(a.(core := Core(mem, Files(None, files.tmp)), phase := Renamed(p.op))) else None
    case RefuseRename =>
      if p.TmpWritten? then Some(a.(phase := RenameRefused(p.op))) else None
    case RemoveTmp(ok) =>
      if p.RenameRefused? then
        Some(a.(core := Core(mem, if ok then files.(tmp := None) else files), phase := Failing(p.op)))
      else None
    case RollBack =>
      if p.Failing? then Some(a.(core := Core(Undo(mem, p.op), files), phase := Idle)) else None
    case Return =>
      if p.Renamed? then Some(a.(phase := Idle, acked := ApplyOp(a.acked, p.op))) else None
    case Crash =>
      if p.Down? then None else Some(Crashed(a))
    case Boot =>
      if p.Down? && files.state != Some(Partial) then
        var loaded := Mem(Stored(s, files), OnDisk(s, files));
        Some(System(Core(loaded, files), Idle, loaded.allocs))
      else None
  }

  ghost function After(s: Subnet, a: System, moves: seq<Move>): Option<System>
    decreases |moves|
  {
    if moves == [] then Some(a)
    else
      match Apply(s, a, moves[0])
      case None => None
      case Some(b) => After(s, b, moves[1..])
  }

  /** A first start: no process, and a state file on which every container has one address. After a
      change of pod CIDR that may be an address the subnet now reserves. */
  ghost predicate Start(s: Subnet, a: System) {
    && a.phase == Down(None)
    && FileOk(s, a.core.files)
    && a.acked == Stored(s, a.core.files)
  }

  // ----- the invariant -----

  /** The operation was possible on the acknowledged table. */
  predicate Fits(s: Subnet, m: Simple.Table, op: Op) {
    match op
    case Alloc(cid, ip) => cid !in m && ip !in m.Values && Usable(s, ip)
    case Release(cid, ip) => cid in m && m[cid] == ip
  }

  /** Memory holds the change, and undoing it gives back what the state file loads to. */
  ghost predicate Pending(s: Subnet, a: System, op: Op) {
    && Fits(s, a.acked, op)
    && Valid(s, Core(Undo(a.core.mem, op), a.core.files))
    && Undo(a.core.mem, op).allocs == a.acked
    && Do(Undo(a.core.mem, op), op) == a.core.mem
  }

  ghost predicate Inv(s: Subnet, a: System) {
    && FileOk(s, a.core.files)
    && Simple.Injective(a.acked)
    && match a.phase
       case Down(None) => Stored(s, a.core.files) == a.acked
       case Down(Some(op)) =>
         && Fits(s, a.acked, op)
         && Stored(s, a.core.files) in {a.acked, ApplyOp(a.acked, op)}
       case Idle => Valid(s, a.core) && a.core.mem.allocs == a.acked
       case Renamed(op) =>
         Fits(s, a.acked, op) && Valid(s, a.core) && a.core.mem.allocs == ApplyOp(a.acked, op)
       case TmpWritten(op) => Pending(s, a, op) && a.core.files.tmp == Some(Complete(a.core.mem.used))
       case _ => Pending(s, a, OpOf(a.phase))
  }

  ghost predicate Safe(s: Subnet, r: Option<System>) {
    r.Some? ==> Inv(s, r.value)
  }

  lemma StartInv(s: Subnet, a: System)
    requires Start(s, a)
    ensures Inv(s, a)
  {
    hide Inverse, OnDisk, Accepted;
    LoadedIsValid(s, a.core.files);
    assert Inverse(a.acked, OnDisk(s, a.core.files));
    InverseInjective(a.acked, OnDisk(s, a.core.files));
  }

  lemma ApplyKeepsTable(s: Subnet, m: Simple.Table, op: Op)
    requires Fits(s, m, op) && Simple.Injective(m)
    ensures Simple.Injective(ApplyOp(m, op))
    ensures ApplyOp(m, op) != m
  {
  }

  lemma DoIsConsistent(s: Subnet, k: Core, op: Op)
    requires Valid(s, k) && Fits(s, k.mem.allocs, op)
    ensures Do(k.mem, op).allocs == ApplyOp(k.mem.allocs, op)
    ensures Undo(Do(k.mem, op), op) == k.mem
    ensures Inverse(Do(k.mem, op).allocs, Do(k.mem, op).used)
    ensures forall c :: c in Do(k.mem, op).allocs ==> ContainsIP(s, Do(k.mem, op).allocs[c])
  {
    hide Print, ContainsIP, Reserved, OnDisk;
    match op
    case Alloc(cid, ip) =>
      IndexFindsHolders(k.mem.allocs, k.mem.used, ip);
      InverseInsert(k.mem, cid, ip);
    case Release(cid, ip) =>
      InverseRemove(k.mem, cid);
  }

  /** A complete temporary file becomes a state file that loads to memory. */
  lemma RenamedIsValid(s: Subnet, a: System, op: Op)
    requires Pending(s, a, op) && a.core.files.tmp == Some(Complete(a.core.mem.used))
    ensures Valid(s, Core(a.core.mem, Files(None, a.core.files.tmp)))
    ensures a.core.mem.allocs == ApplyOp(a.acked, op)
  {
    hide Do, Undo, Fits, Inverse, ContainsIP, Accepted;
    DoIsConsistent(s, Core(Undo(a.core.mem, op), a.core.files), op);
    AcceptsOwn(s, a.core.mem);
  }

  lemma PendingStored(s: Subnet, a: System, op: Op)
    requires Pending(s, a, op)
    ensures FileOk(s, a.core.files) && Stored(s, a.core.files) == a.acked
  {
    hide Do, Undo, Fits, Valid;
    ValidStored(s, Core(Undo(a.core.mem, op), a.core.files));
  }

  lemma BeginPends(s: Subnet, a: System, v: Move)
    requires Inv(s, a) && (v.BeginAdd? || v.BeginDel?) && Apply(s, a, v).Some?
    ensures Safe(s, Apply(s, a, v))
  {
    hide Do, Undo, FileOk, Usable, Simple.Injective, Simple.FirstFree, ScanIndex;
    hide Inverse, ContainsIP, OnDisk;
    var op := Apply(s, a, v).value.phase.op;
    if v.BeginAdd? {
      ScanFindsFree(s, a.core.mem.allocs, a.core.mem.used, 2);
      Simple.FreshAddress(s, a.core.mem.allocs.Values);
    }
    DoIsConsistent(s, a.core, op);
  }

  /** What the state file holds in every phase of a live process. */
  lemma StoredInPhase(s: Subnet, a: System)
    requires Inv(s, a) && !a.phase.Down?
    ensures Stored(s, a.core.files)
         == if a.phase.Renamed? then ApplyOp(a.acked, a.phase.op) else a.acked
  {
    hide Valid, Fits, FileOk, ApplyOp, Do, Undo, Stored, Simple.Injective;
    if a.phase.Idle? || a.phase.Renamed? {
      ValidStored(s, a.core);
    } else {
      PendingStored(s, a, OpOf(a.phase));
    }
  }

  lemma CrashIsSafe(s: Subnet, a: System)
    requires Inv(s, a) && !a.phase.Down?
    ensures Inv(s, Crashed(a))
    ensures Stored(s, a.core.files)
         == if a.phase.Renamed? then ApplyOp(a.acked, a.phase.op) else a.acked
  {
    hide Valid, Fits, FileOk, ApplyOp, Do, Undo, Stored, Simple.Injective;
    StoredInPhase(s, a);
  }

  lemma BootIsSafe(s: Subnet, a: System)
    requires Inv(s, a) && a.phase.Down?
    ensures Apply(s, a, Boot).Some? && Safe(s, Apply(s, a, Boot))
  {
    hide Valid, Fits, Stored, OnDisk, ApplyOp, Simple.Injective;
    LoadedIsValid(s, a.core.files);
    if a.phase.lost.Some? {
      ApplyKeepsTable(s, a.acked, a.phase.lost.value);
    }
  }

  lemma OnlyRenameChangesState(s: Subnet, a: System, v: Move)
    requires Apply(s, a, v).Some? && !v.RenameTmp?
    ensures Apply(s, a, v).value.core.files.state == a.core.files.state
  {
    hide Do, Undo, ApplyOp, Stored, OnDisk, Simple.FirstFree, ScanIndex;
  }

  lemma StoredReadsState(s: Subnet, f: Files, g: Files)
    requires f.state == g.state
    ensures Stored(s, f) == Stored(s, g)
  {
  }

  /** The state file is what counts: it changes only at the rename, and there by exactly the
      operation in flight. */
  lemma RenameIsTheCommit(s: Subnet, a: System, v: Move)
    requires Inv(s, a) && Apply(s, a, v).Some?
    ensures Stored(s, Apply(s, a, v).value.core.files)
         == if v.RenameTmp? then ApplyOp(Stored(s, a.core.files), a.phase.op) else Stored(s, a.core.files)
  {
    hide Valid, Fits, FileOk, ApplyOp, Do, Undo, Stored, OnDisk, Simple.Injective, ScanIndex;
    if v.RenameTmp? {
      RenamedIsValid(s, a, a.phase.op);
      PendingStored(s, a, a.phase.op);
      ValidStored(s, Core(a.core.mem, Files(None, a.core.files.tmp)));
    } else {
      OnlyRenameChangesState(s, a, v);
      StoredReadsState(s, a.core.files, Apply(s, a, v).value.core.files);
    }
  }

  lemma TmpIsIgnored(s: Subnet, k: Core, f: Files)
    requires f.state == k.files.state
    ensures Valid(s, k) <==> Valid(s, Core(k.mem, f))
    ensures FileOk(s, k.files) <==> FileOk(s, f)
  {
  }

  lemma FileMovesKeepInv(s: Subnet, a: System, v: Move)
    requires Inv(s, a) && Apply(s, a, v).Some?
    requires v in {OpenTmp, RefuseOpen, FinishTmp, CutTmp, RefuseRename} || v.RemoveTmp?
    ensures Safe(s, Apply(s, a, v))
  {
    hide Valid, Fits, Do, Undo, FileOk, Simple.Injective;
    var b := Apply(s, a, v).value;
    TmpIsIgnored(s, Core(Undo(a.core.mem, a.phase.op), a.core.files), b.core.files);
  }

  lemma RenameKeepsInv(s: Subnet, a: System)
    requires Inv(s, a) && a.phase.TmpWritten?
    ensures Safe(s, Apply(s, a, RenameTmp))
  {
    hide Valid, Fits, Do, Undo, FileOk, ApplyOp, Stored, Simple.Injective;
    var b := Apply(s, a, RenameTmp).value;
    RenamedIsValid(s, a, a.phase.op);
    ValidStored(s, b.core);
  }

  lemma RollBackKeepsInv(s: Subnet, a: System)
    requires Inv(s, a) && a.phase.Failing?
    ensures Safe(s, Apply(s, a, RollBack))
  {
    hide Valid, Fits, Do, Undo, FileOk, Stored, Simple.Injective;
  }

  lemma ReturnKeepsInv(s: Subnet, a: System)
    requires Inv(s, a) && a.phase.Renamed?
    ensures Safe(s, Apply(s, a, Return))
  {
    hide Valid, Fits, FileOk, ApplyOp, Stored, Simple.Injective;
    ApplyKeepsTable(s, a.acked, a.phase.op);
  }

  lemma MoveKeepsInv(s: Subnet, a: System, v: Move)
    requires Inv(s, a)
    ensures Safe(s, Apply(s, a, v))
  {
    if Apply(s, a, v).Some? {
      EnabledMoveKeepsInv(s, a, v);
    }
  }

  lemma EnabledMoveKeepsInv(s: Subnet, a: System, v: Move)
    requires Inv(s, a) && Apply(s, a, v).Some?
    ensures Safe(s, Apply(s, a, v))
  {
    hide Inv;
    match v {
      case BeginAdd(_) => BeginPends(s, a, v);
      case BeginDel(_) => BeginPends(s, a, v);
      case Crash => CrashIsSafe(s, a);
      case Boot => BootIsSafe(s, a);
      case RenameTmp => RenameKeepsInv(s, a);
      case RollBack => RollBackKeepsInv(s, a);
      case Return => ReturnKeepsInv(s, a);
      case _ => FileMovesKeepInv(s, a, v);
    }
  }

  // ----- the claims over whole runs -----

  lemma {:induction false} RunKeepsInv(s: Subnet, a: System, moves: seq<Move>)
    requires Inv(s, a) && After(s, a, moves).Some?
    ensures Inv(s, After(s, a, moves).value)
    decreases |moves|
  {
    hide Inv, Apply;
    if moves != [] {
      MoveKeepsInv(s, a, moves[0]);
      RunKeepsInv(s, Apply(s, a, moves[0]).value, moves[1..]);
    }
  }

  /** Nobody holds a reserved address but who had it in the first table. */
  ghost predicate NoNewStrays(s: Subnet, first: Simple.Table, m: Simple.Table) {
    forall c :: c in m ==> Usable(s, m[c]) || (c in first && first[c] == m[c])
  }

  lemma FirstHasNone(s: Subnet, first: Simple.Table)
    ensures NoNewStrays(s, first, first)
  {
    hide Usable;
  }

  lemma OpAddsNoStray(s: Subnet, first: Simple.Table, m: Simple.Table, op: Op)
    requires Fits(s, m, op) && NoNewStrays(s, first, m)
    ensures NoNewStrays(s, first, ApplyOp(m, op))
  {
    hide Usable;
  }

  lemma MoveAddsNoStray(s: Subnet, first: Simple.Table, a: System, v: Move)
    requires Inv(s, a) && Apply(s, a, v).Some? && NoNewStrays(s, first, a.acked)
    ensures NoNewStrays(s, first, Apply(s, a, v).value.acked)
  {
    hide Valid, FileOk, Do, Undo, Stored, OnDisk, Simple.Injective, NoNewStrays, ScanIndex, Usable, Fits;
    if v.Return? {
      OpAddsNoStray(s, first, a.acked, a.phase.op);
    } else if v.Boot? && a.phase.lost.Some? {
      OpAddsNoStray(s, first, a.acked, a.phase.lost.value);
    }
  }

  lemma {:induction false} RunAddsNoStray(s: Subnet, first: Simple.Table, a: System, moves: seq<Move>)
    requires Inv(s, a) && After(s, a, moves).Some? && NoNewStrays(s, first, a.acked)
    ensures NoNewStrays(s, first, After(s, a, moves).value.acked)
    decreases |moves|
  {
    hide Inv, Apply, NoNewStrays;
    if moves != [] {
      MoveKeepsInv(s, a, moves[0]);
      MoveAddsNoStray(s, first, a, moves[0]);
      RunAddsNoStray(s, first, Apply(s, a, moves[0]).value, moves[1..]);
    }
  }

  /** Crash consistency. After any run of operations, failures, crashes and boots: whenever the
      mutex is free, memory, the state file and what callers were told agree, and nobody shares
      an address; nobody ever holds a reserved one except those who had it in the first state file;
      and a crash now, followed by a boot, gives the table after the operation in flight if its
      rename was done, and otherwise the table before it. */
  lemma CrashConsistency(s: Subnet, a0: System, moves: seq<Move>)
    requires Start(s, a0) && After(s, a0, moves).Some?
    ensures var a := After(s, a0, moves).value;
            a.phase.Idle? ==>
              && Stored(s, a.core.files) == a.core.mem.allocs == a.acked
              && Inverse(a.core.mem.allocs, a.core.mem.used)
              && Simple.Injective(a.acked)
    ensures NoNewStrays(s, Stored(s, a0.core.files), After(s, a0, moves).value.acked)
    ensures var a := After(s, a0, moves).value;
            !a.phase.Down? ==>
              && After(s, a, [Crash, Boot]).Some?
              && After(s, a, [Crash, Boot]).value.phase.Idle?
              && After(s, a, [Crash, Boot]).value.core.mem.allocs
              == if a.phase.Renamed? then ApplyOp(a.acked, a.phase.op) else a.acked
    ensures var a := After(s, a0, moves).value;
            InFlight(a.phase) ==> ApplyOp(a.acked, OpOf(a.phase)) != a.acked
  {
    hide Fits, Stored, FileOk, ApplyOp, Do, Undo, NoNewStrays, Simple.Injective;
    StartInv(s, a0);
    RunKeepsInv(s, a0, moves);
    FirstHasNone(s, a0.acked);
    RunAddsNoStray(s, a0.acked, a0, moves);
    var a := After(s, a0, moves).value;
    if a.phase.Idle? {
      ValidStored(s, a.core);
    }
    if !a.phase.Down? {
      CrashIsSafe(s, a);
      var b := Apply(s, a, Crash).value;
      BootIsSafe(s, b);
      CrashThenBoot(s, a);
    }
    if InFlight(a.phase) {
      ApplyKeepsTable(s, a.acked, OpOf(a.phase));
    }
  }

  lemma CrashThenBoot(s: Subnet, a: System)
    requires Apply(s, a, Crash).Some? && Apply(s, Apply(s, a, Crash).value, Boot).Some?
    ensures After(s, a, [Crash, Boot]) == Apply(s, Apply(s, a, Crash).value, Boot)
    ensures After(s, a, [Crash, Boot]).value.core.mem.allocs == Stored(s, a.core.files)
  {
    var b := Apply(s, a, Crash).value;
    assert [Crash, Boot][1..] == [Boot];
    assert [Boot][1..] == [];
    assert After(s, b, [Boot]) == Apply(s, b, Boot);
  }

  /** The state file has this address for the container, and no release of it is on its way. */
  ghost predicate Safeguarded(s: Subnet, a: System, c: string, ip: IP) {
    && c in Stored(s, a.core.files) && Stored(s, a.core.files)[c] == ip
    && (InFlight(a.phase) ==> !Releases(OpOf(a.phase), c))
  }

  predicate Releases(op: Op, c: string) {
    op.Release? && op.cid == c
  }

  /** Any move but the start of a release keeps the address in the state file. */
  lemma MoveSafeguards(s: Subnet, a: System, v: Move, c: string, ip: IP)
    requires Inv(s, a) && Safeguarded(s, a, c, ip) && Apply(s, a, v).Some? && v != BeginDel(c)
    ensures Safeguarded(s, Apply(s, a, v).value, c, ip)
  {
    hide Valid, FileOk, Do, Undo, Stored, OnDisk, Inv, ScanIndex, Usable;
    RenameIsTheCommit(s, a, v);
    if v.RenameTmp? {
      CommitFits(s, a);
    }
  }

  lemma CommitFits(s: Subnet, a: System)
    requires Inv(s, a) && a.phase.TmpWritten?
    ensures Fits(s, Stored(s, a.core.files), a.phase.op)
  {
    hide Valid, FileOk, Do, Undo, Stored, Fits, Simple.Injective;
    PendingStored(s, a, a.phase.op);
  }

  lemma {:induction false} RunSafeguards(s: Subnet, a: System, moves: seq<Move>, c: string, ip: IP)
    requires Inv(s, a) && Safeguarded(s, a, c, ip) && After(s, a, moves).Some? && BeginDel(c) !in moves
    ensures Safeguarded(s, After(s, a, moves).value, c, ip)
    decreases |moves|
  {
    hide Inv, Safeguarded, Apply;
    if moves != [] {
      MoveKeepsInv(s, a, moves[0]);
      assert Safe(s, Apply(s, a, moves[0]));
      MoveSafeguards(s, a, moves[0], c, ip);
      RunSafeguards(s, Apply(s, a, moves[0]).value, moves[1..], c, ip);
    }
  }

  lemma AckedIsSafeguarded(s: Subnet, a: System, c: string)
    requires Inv(s, a) && !a.phase.Down? && c in a.acked
    requires InFlight(a.phase) ==> !Releases(OpOf(a.phase), c)
    ensures Safeguarded(s, a, c, a.acked[c])
  {
    hide Valid, FileOk, Do, Undo, Stored, Simple.Injective, Usable;
    StoredInPhase(s, a);
  }

  /** Nothing acknowledged is lost: an address a caller was granted at some point, and whose release
      nobody starts from then on, stays in the state file through any further operations, failures,
      crashes and boots, and is what every later idle process answers. */
  lemma GrantedSurvives(s: Subnet, a0: System, before: seq<Move>, after: seq<Move>, c: string)
    requires Start(s, a0) && After(s, a0, before).Some?
    requires var a := After(s, a0, before).value;
             && !a.phase.Down? && c in a.acked && (InFlight(a.phase) ==> !Releases(OpOf(a.phase), c))
             && After(s, a, after).Some? && BeginDel(c) !in after
    ensures var a := After(s, a0, before).value;
            var b := After(s, a, after).value;
            && c in Stored(s, b.core.files) && Stored(s, b.core.files)[c] == a.acked[c]
            && (b.phase.Idle? ==> c in b.core.mem.allocs && b.core.mem.allocs[c] == a.acked[c])
  {
    hide Inv, Apply, Stored, After;
    StartInv(s, a0);
    RunKeepsInv(s, a0, before);
    var a := After(s, a0, before).value;
    AckedIsSafeguarded(s, a, c);
    RunSafeguards(s, a, after, c, a.acked[c]);
    RunKeepsInv(s, a, after);
    IdleAnswersStored(s, After(s, a, after).value);
  }

  lemma IdleAnswersStored(s: Subnet, a: System)
    requires Inv(s, a)
    ensures a.phase.Idle? ==> a.core.mem.allocs == Stored(s, a.core.files)
  {
    hide Valid, FileOk, Stored, Simple.Injective;
    if a.phase.Idle? { ValidStored(s, a.core); }
  }

  // ----- the methods are runs of this machine -----

  function PersistMoves(x: Faults): seq<Move> {
    match x.write
    case NotCreated => [RefuseOpen, RollBack]
    case CutShort => [OpenTmp, CutTmp, RollBack]
    case Written =>
      [OpenTmp, FinishTmp] +
      if x.renameOk then [RenameTmp, Return] else [RefuseRename, RemoveTmp(x.removeOk), RollBack]
  }

  lemma AfterCons(s: Subnet, a: System, v: Move, rest: seq<Move>)
    requires Apply(s, a, v).Some?
    ensures After(s, a, [v] + rest) == After(s, Apply(s, a, v).value, rest)
  {
  }

  lemma {:induction false} AfterConcat(s: Subnet, a: System, p: seq<Move>, q: seq<Move>)
    requires After(s, a, p).Some?
    ensures After(s, a, p + q) == After(s, After(s, a, p).value, q)
    decreases |p|
  {
    hide Apply;
    if p == [] {
      assert p + q == q;
    } else {
      assert (p + q)[1..] == p[1..] + q;
      AfterConcat(s, Apply(s, a, p[0]).value, p[1..], q);
    }
  }

  lemma After2(s: Subnet, a: System, v: Move, w: Move)
    requires Apply(s, a, v).Some?
    ensures After(s, a, [v, w]) == Apply(s, Apply(s, a, v).value, w)
  {
    hide Apply;
    assert [v, w][1..] == [w] && [w][1..] == [];
    var b := Apply(s, a, v).value;
    assert After(s, b, [w]) == Apply(s, b, w);
  }

  lemma After3(s: Subnet, a: System, v: Move, w: Move, z: Move)
    requires Apply(s, a, v).Some? && Apply(s, Apply(s, a, v).value, w).Some?
    ensures After(s, a, [v, w, z]) == Apply(s, Apply(s, Apply(s, a, v).value, w).value, z)
  {
    hide Apply;
    assert [v, w, z][1..] == [w, z];
    After2(s, Apply(s, a, v).value, w, z);
  }

  /** What persist and its caller do under given failures, as moves from the changed maps. */
  lemma PersistIsARun(s: Subnet, a: System, x: Faults)
    requires a.phase.Updated?
    ensures var op := a.phase.op;
            After(s, a, PersistMoves(x)) == Some(System(
              Core(if Durable(x) then a.core.mem else Undo(a.core.mem, op),
                   PersistFiles(a.core.files, a.core.mem.used, x)),
              Idle,
              if Durable(x) then ApplyOp(a.acked, op) else a.acked))
  {
    hide Undo, Do, ApplyOp;
    match x.write {
      case NotCreated => After2(s, a, RefuseOpen, RollBack);
      case CutShort => After3(s, a, OpenTmp, CutTmp, RollBack);
      case Written =>
        After2(s, a, OpenTmp, FinishTmp);
        var b := After(s, a, [OpenTmp, FinishTmp]).value;
        if x.renameOk {
          After2(s, b, RenameTmp, Return);
          AfterConcat(s, a, [OpenTmp, FinishTmp], [RenameTmp, Return]);
        } else {
          After3(s, b, RefuseRename, RemoveTmp(x.removeOk), RollBack);
          AfterConcat(s, a, [OpenTmp, FinishTmp], [RefuseRename, RemoveTmp(x.removeOk), RollBack]);
        }
    }
  }

  /** A call of Add or Del that changes something is a run of the machine: the method's outcome
      is where the moves lead, so every state a crash can leave is covered above. */
  lemma CallsAreRuns(s: Subnet, a: System, cid: string, x: Faults)
    requires Inv(s, a) && a.phase.Idle?
    ensures cid !in a.acked && Simple.FirstFree(s, a.acked.Values, 2).Some? ==>
              var end := After(s, a, [BeginAdd(cid)] + PersistMoves(x));
              end.Some? && end.value.phase.Idle? && end.value.core == AllocatorCore.Add(s, a.core, cid, x).0
    ensures cid in a.acked ==>
              var end := After(s, a, [BeginDel(cid)] + PersistMoves(x));
              end.Some? && end.value.phase.Idle? && end.value.core == AllocatorCore.Del(a.core, cid, x).0
  {
    hide FileOk, PersistMoves, Simple.FirstFree, ScanIndex, Simple.Injective, Usable;
    hide Inverse, ContainsIP, OnDisk, Insert, Remove;
    ScanFindsFree(s, a.acked, a.core.mem.used, 2);
    if cid !in a.acked && Simple.FirstFree(s, a.acked.Values, 2).Some? {
      var b := Apply(s, a, BeginAdd(cid)).value;
      Simple.FreshAddress(s, a.acked.Values);
      DoIsConsistent(s, a.core, b.phase.op);
      AfterCons(s, a, BeginAdd(cid), PersistMoves(x));
      PersistIsARun(s, b, x);
    }
    if cid in a.acked {
      var b := Apply(s, a, BeginDel(cid)).value;
      DoIsConsistent(s, a.core, b.phase.op);
      AfterCons(s, a, BeginDel(cid), PersistMoves(x));
      PersistIsARun(s, b, x);
    }
  }
}
