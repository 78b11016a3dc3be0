/** The allocator's state as a value: the two in-memory maps and the two file slots, with what
    each operation of pkg/ipam/ipam.go does to them under every combination of file-system
    failures. Proves that the printed reverse index, the state file and both rollbacks are
    invisible: the operations answer like SimpleAllocator. */
module AllocatorCore {
  import opened Wrappers
  import opened IPv4
  import opened Subnets
  import Simple = SimpleAllocator

  type Index = map<string, string>

  /** Contents of a file: everything that was to be written, or a truncated prefix of it. */
  datatype Blob = Complete(entries: Index) | Partial

  /** allocations.cbor.tmp and allocations.cbor. */
  datatype Files = Files(tmp: Option<Blob>, state: Option<Blob>)

  /** How writing the temporary file ends: done, nothing created, or cut short. */
  datatype WriteOutcome = Written | NotCreated | CutShort

  datatype Faults = Faults(write: WriteOutcome, renameOk: bool, removeOk: bool)

  predicate Durable(x: Faults) {
    x.write.Written? && x.renameOk
  }

  function PersistFiles(f: Files, data: Index, x: Faults): Files {
    match x.write
    case NotCreated => f
    case CutShort => f.(tmp := Some(Partial))
    case Written =>
      if x.renameOk then Files(None, Some(Complete(data)))
      else f.(tmp := if x.removeOk then None else Some(Complete(data)))
  }

  datatype Mem = Mem(allocs: Simple.Table, used: Index)

  datatype Core = Core(mem: Mem, files: Files)

  function Insert(m: Mem, cid: string, ip: IP): Mem {
    Mem(m.allocs[cid := ip], m.used[Print(ip) := cid])
  }

  function Remove(m: Mem, cid: string, ip: IP): Mem {
    Mem(m.allocs - {cid}, m.used - {Print(ip)})
  }

  // ----- the reverse index -----

  /** used is the inverse of allocs, keyed by the printed address. */
  ghost predicate Inverse(allocs: Simple.Table, used: Index) {
    && (forall c :: c in allocs ==> Print(allocs[c]) in used && used[Print(allocs[c])] == c)
    && (forall k :: k in used ==> used[k] in allocs && Print(allocs[used[k]]) == k)
  }

  lemma InverseInjective(allocs: Simple.Table, used: Index)
    requires Inverse(allocs, used)
    ensures Simple.Injective(allocs)
  {
  }

  /** An address is taken according to the index exactly when some container holds it. */
  lemma IndexFindsHolders(allocs: Simple.Table, used: Index, ip: IP)
    requires Inverse(allocs, used)
    ensures Print(ip) in used <==> ip in allocs.Values
  {
    hide Print;
    if Print(ip) in used {
      PrintInjective(allocs[used[Print(ip)]], ip);
    }
  }

  lemma InverseInsert(m: Mem, cid: string, ip: IP)
    requires Inverse(m.allocs, m.used) && cid !in m.allocs && Print(ip) !in m.used
    ensures Inverse(Insert(m, cid, ip).allocs, Insert(m, cid, ip).used)
    ensures Remove(Insert(m, cid, ip), cid, ip) == m
  {
    hide Print;
    var n := Insert(m, cid, ip);
    assert n.allocs - {cid} == m.allocs;
    assert n.used - {Print(ip)} == m.used;
  }

  lemma InverseRemove(m: Mem, cid: string)
    requires Inverse(m.allocs, m.used) && cid in m.allocs
    ensures Inverse(Remove(m, cid, m.allocs[cid]).allocs, Remove(m, cid, m.allocs[cid]).used)
    ensures Insert(Remove(m, cid, m.allocs[cid]), cid, m.allocs[cid]) == m
  {
    hide Print;
    var ip := m.allocs[cid];
    var n := Remove(m, cid, ip);
    assert n.allocs[cid := ip] == m.allocs;
    assert n.used[Print(ip) := cid] == m.used;
  }

  /** Either map determines the other, so whatever order the source walks a map in, it writes
      and reads the same thing. */
  lemma InverseUnique(a: Simple.Table, b: Simple.Table, u: Index, v: Index)
    requires Inverse(a, u) && Inverse(b, v)
    ensures a == b <==> u == v
  {
    hide Print;
    if a == b {
      assert forall k :: k in u <==> k in v;
    }
    if u == v {
      forall c | c in a
        ensures c in b && a[c] == b[c]
      {
        PrintInjective(a[c], b[c]);
      }
      assert forall c :: c in b ==> c in a;
    }
  }

  // ----- the state file -----

  /** An entry that load keeps: the key parses and lies in the subnet. */
  predicate Accepts(s: Subnet, key: string) {
    ParseIP(key).Some? && ContainsIP(s, ParseIP(key).value)
  }

  function Accepted(s: Subnet, entries: Index): Index {
    map k | k in entries && Accepts(s, k) :: entries[k]
  }

  ghost predicate OneAddressEach(used: Index) {
    forall k, l :: k in used && l in used && used[k] == used[l] ==> k == l
  }

  ghost predicate AllParse(used: Index) {
    forall k :: k in used ==> ParseIP(k).Some?
  }

  ghost function Inverted(used: Index): Simple.Table
    requires AllParse(used)
  {
    map c | c in used.Values :: var k :| k in used && used[k] == c; ParseIP(k).value
  }

  /** Inverting the parsed keys gives the inverse exactly when no container owns two entries. */
  lemma InvertedIsInverse(used: Index)
    requires AllParse(used)
    ensures Inverse(Inverted(used), used) <==> OneAddressEach(used)
  {
    hide Print, ParseIP;
    var allocs := Inverted(used);
    forall c | c in allocs
      ensures Print(allocs[c]) in used && used[Print(allocs[c])] == c
    {
      var k :| k in used && used[k] == c && allocs[c] == ParseIP(k).value;
      ParseThenPrint(k);
    }
    if OneAddressEach(used) {
      forall k | k in used
        ensures used[k] in allocs && Print(allocs[used[k]]) == k
      {
        assert used[k] in used.Values;
        assert Print(allocs[used[k]]) in used;
      }
    }
  }

  lemma InverseOneEach(allocs: Simple.Table, used: Index)
    requires Inverse(allocs, used)
    ensures OneAddressEach(used) && AllParse(used) && Inverted(used) == allocs
  {
    hide Print, ParseIP;
    forall k | k in used
      ensures ParseIP(k).Some?
    {
      PrintThenParse(allocs[used[k]]);
    }
    InvertedIsInverse(used);
    InverseUnique(Inverted(used), allocs, used, used);
  }

  /** What a restart on this subnet would read back. */
  function OnDisk(s: Subnet, f: Files): Index {
    match f.state
    case Some(Complete(entries)) => Accepted(s, entries)
    case _ => map[]
  }

  lemma OnDiskParses(s: Subnet, f: Files)
    ensures AllParse(OnDisk(s, f))
  {
  }

  ghost function Stored(s: Subnet, f: Files): Simple.Table {
    OnDiskParses(s, f);
    Inverted(OnDisk(s, f))
  }

  /** The state file is readable and gives each container at most one address. */
  ghost predicate FileOk(s: Subnet, f: Files) {
    f.state != Some(Partial) && OneAddressEach(OnDisk(s, f))
  }

  // ----- the invariant -----

  /** Memory is consistent and equals what the state file would load to. */
  ghost predicate Valid(s: Subnet, k: Core) {
    && Inverse(k.mem.allocs, k.mem.used)
    && (forall c :: c in k.mem.allocs ==> ContainsIP(s, k.mem.allocs[c]))
    && k.files.state != Some(Partial)
    && OnDisk(s, k.files) == k.mem.used
  }

  lemma ValidStored(s: Subnet, k: Core)
    requires Valid(s, k)
    ensures FileOk(s, k.files) && Stored(s, k.files) == k.mem.allocs
    ensures Core(Mem(Stored(s, k.files), OnDisk(s, k.files)), k.files) == k
  {
    InverseOneEach(k.mem.allocs, k.mem.used);
  }

  /** Loading any readable one-address-each file gives a consistent allocator. */
  lemma LoadedIsValid(s: Subnet, f: Files)
    requires FileOk(s, f)
    ensures Valid(s, Core(Mem(Stored(s, f), OnDisk(s, f)), f))
  {
    var used := OnDisk(s, f);
    InvertedIsInverse(used);
    var allocs := Inverted(used);
    forall c | c in allocs
      ensures ContainsIP(s, allocs[c])
    {
      var k :| k in used && used[k] == c && allocs[c] == ParseIP(k).value;
    }
  }

  // ----- round trip -----

  lemma AcceptsOwn(s: Subnet, m: Mem)
    requires Inverse(m.allocs, m.used)
    requires forall c :: c in m.allocs ==> ContainsIP(s, m.allocs[c])
    ensures Accepted(s, m.used) == m.used
  {
    hide Print, ParseIP;
    forall k | k in m.used
      ensures Accepts(s, k)
    {
      PrintThenParse(m.allocs[m.used[k]]);
    }
  }

  /** The part of a table whose addresses lie in a subnet. */
  function Kept(t: Subnet, m: Simple.Table): Simple.Table {
    map c | c in m && ContainsIP(t, m[c]) :: m[c]
  }

  /** A state file that holds a consistent index loads, on any subnet, to the part of the table
      that lies in it. */
  lemma LoadsKept(m: Mem, t: Subnet, f: Files)
    requires Inverse(m.allocs, m.used) && f.state == Some(Complete(m.used))
    ensures FileOk(t, f) && Stored(t, f) == Kept(t, m.allocs)
  {
    hide Print, ParseIP, ContainsIP;
    var kept := Kept(t, m.allocs);
    var used := Accepted(t, m.used);
    forall c | c in m.allocs
      ensures Accepts(t, Print(m.allocs[c])) <==> ContainsIP(t, m.allocs[c])
    {
      PrintThenParse(m.allocs[c]);
    }
    assert Inverse(kept, used);
    InverseOneEach(kept, used);
  }

  /** Persisting and loading is the identity on one CIDR, and keeps exactly the containers whose
      address lies in the new subnet after a change of CIDR. */
  lemma PersistThenLoad(m: Mem, t: Subnet, f: Files, x: Faults)
    requires Inverse(m.allocs, m.used) && Durable(x)
    ensures FileOk(t, PersistFiles(f, m.used, x))
    ensures Stored(t, PersistFiles(f, m.used, x)) == Kept(t, m.allocs)
    ensures (forall c :: c in m.allocs ==> ContainsIP(t, m.allocs[c])) ==>
              Stored(t, PersistFiles(f, m.used, x)) == m.allocs
  {
    hide Print, ContainsIP, Stored, FileOk, Inverse;
    LoadsKept(m, t, PersistFiles(f, m.used, x));
    if forall c :: c in m.allocs ==> ContainsIP(t, m.allocs[c]) {
      assert Kept(t, m.allocs) == m.allocs;
    }
  }

  // ----- the operations -----

  /** nextFreeIP: the first scanned address whose printed form is not in the index. */
  function ScanIndex(s: Subnet, used: Index, offset: nat): Option<IP>
    decreases Size(s.ones) - offset
  {
    if offset >= Size(s.ones) - 1 then None
    else if Print(AddressAt(s, offset)) !in used then Some(AddressAt(s, offset))
    else ScanIndex(s, used, offset + 1)
  }

  /** The index answers for the table: scanning printed keys finds what searching the held
      addresses finds. */
  lemma {:induction false} ScanFindsFree(s: Subnet, allocs: Simple.Table, used: Index, offset: nat)
    requires Inverse(allocs, used)
    ensures ScanIndex(s, used, offset) == Simple.FirstFree(s, allocs.Values, offset)
    decreases Size(s.ones) - offset
  {
    hide Print, AddressAt, Inverse;
    if offset < Size(s.ones) - 1 {
      IndexFindsHolders(allocs, used, AddressAt(s, offset));
      ScanFindsFree(s, allocs, used, offset + 1);
    }
  }

  /** Add: both maps are changed before the disk is, and changed back if it fails. */
  function Add(s: Subnet, k: Core, cid: string, x: Faults): (Core, Simple.AddReply) {
    if cid in k.mem.allocs then (k, Simple.Granted(k.mem.allocs[cid], FirstHostIP(s)))
    else
      match ScanIndex(s, k.mem.used, 2)
      case None => (k, Simple.Exhausted)
      case Some(ip) =>
        var mem := Insert(k.mem, cid, ip);
        var files := PersistFiles(k.files, mem.used, x);
        if Durable(x) then (Core(mem, files), Simple.Granted(ip, FirstHostIP(s)))
        else (Core(Remove(mem, cid, ip), files), Simple.NotPersisted)
  }

  /** Del: likewise. */
  function Del(k: Core, cid: string, x: Faults): (Core, bool) {
    if cid !in k.mem.allocs then (k, true)
    else
      var ip := k.mem.allocs[cid];
      var mem := Remove(k.mem, cid, ip);
      var files := PersistFiles(k.files, mem.used, x);
      if Durable(x) then (Core(mem, files), true) else (Core(Insert(mem, cid, ip), files), false)
  }

  /** Add with every failure: the printed index and the rollback are invisible. The maps stay
      inverse, memory equals what the file would load to, and the answer is the reference
      allocator's. */
  lemma AddRefines(s: Subnet, k: Core, cid: string, x: Faults)
    requires Valid(s, k)
    ensures Valid(s, Add(s, k, cid, x).0)
    ensures Simple.Add(s, k.mem.allocs, cid, Durable(x))
         == (Add(s, k, cid, x).0.mem.allocs, Add(s, k, cid, x).1)
    ensures !Durable(x) ==> Add(s, k, cid, x).0.mem == k.mem
  {
    hide Print, ContainsIP, AddressAt, FirstHostIP, Accepted, Usable, Inverse, Simple.FirstFree, ScanIndex;
    hide Insert, Remove;
    ScanFindsFree(s, k.mem.allocs, k.mem.used, 2);
    if cid !in k.mem.allocs && Simple.FirstFree(s, k.mem.allocs.Values, 2).Some? {
      var ip := Simple.FirstFree(s, k.mem.allocs.Values, 2).value;
      Simple.FreshAddress(s, k.mem.allocs.Values);
      IndexFindsHolders(k.mem.allocs, k.mem.used, ip);
      InverseInsert(k.mem, cid, ip);
      InsertTable(s, k.mem, cid, ip);
      AcceptsOwn(s, Insert(k.mem, cid, ip));
    }
  }

  lemma InsertTable(s: Subnet, m: Mem, cid: string, ip: IP)
    requires Usable(s, ip) && forall c :: c in m.allocs ==> ContainsIP(s, m.allocs[c])
    ensures Insert(m, cid, ip).allocs == m.allocs[cid := ip]
    ensures forall c :: c in Insert(m, cid, ip).allocs ==> ContainsIP(s, Insert(m, cid, ip).allocs[c])
  {
    hide Print, ContainsIP, Reserved;
  }

  lemma DelRefines(s: Subnet, k: Core, cid: string, x: Faults)
    requires Valid(s, k)
    ensures Valid(s, Del(k, cid, x).0)
    ensures Simple.Del(k.mem.allocs, cid, Durable(x))
         == (Del(k, cid, x).0.mem.allocs, Del(k, cid, x).1)
    ensures !Durable(x) ==> Del(k, cid, x).0.mem == k.mem
  {
    hide Print, ContainsIP, Accepted, Inverse, Insert;
    if cid in k.mem.allocs {
      InverseRemove(k.mem, cid);
      AcceptsOwn(s, Remove(k.mem, cid, k.mem.allocs[cid]));
    }
  }

  // ----- whole runs -----

  datatype Call = CallAdd(cid: string, x: Faults) | CallDel(cid: string, x: Faults) | CallCheck(cid: string) | Restart

  datatype Answer = Added(r: Simple.AddReply) | Deleted(ok: bool) | Checked(ip: Option<IP>) | Restarted

  ghost function Step(s: Subnet, k: Core, c: Call): (Core, Answer) {
    match c
    case CallAdd(cid, x) => var (k', r) := Add(s, k, cid, x); (k', Added(r))
    case CallDel(cid, x) => var (k', ok) := Del(k, cid, x); (k', Deleted(ok))
    case CallCheck(cid) => (k, Checked(Simple.Check(k.mem.allocs, cid)))
    case Restart => (Core(Mem(Stored(s, k.files), OnDisk(s, k.files)), k.files), Restarted)
  }

  ghost function SimpleStep(s: Subnet, m: Simple.Table, c: Call): (Simple.Table, Answer) {
    match c
    case CallAdd(cid, x) => var (m', r) := Simple.Add(s, m, cid, Durable(x)); (m', Added(r))
    case CallDel(cid, x) => var (m', ok) := Simple.Del(m, cid, Durable(x)); (m', Deleted(ok))
    case CallCheck(cid) => (m, Checked(Simple.Check(m, cid)))
    case Restart => (m, Restarted)
  }

  ghost function Run(s: Subnet, k: Core, calls: seq<Call>): (Core, seq<Answer>)
    decreases |calls|
  {
    if calls == [] then (k, [])
    else
      var (k1, a) := Step(s, k, calls[0]);
      var (k2, rest) := Run(s, k1, calls[1..]);
      (k2, [a] + rest)
  }

  ghost function SimpleRun(s: Subnet, m: Simple.Table, calls: seq<Call>): (Simple.Table, seq<Answer>)
    decreases |calls|
  {
    if calls == [] then (m, [])
    else
      var (m1, a) := SimpleStep(s, m, calls[0]);
      var (m2, rest) := SimpleRun(s, m1, calls[1..]);
      (m2, [a] + rest)
  }

  /** Refinement: over any run of allocations, releases, checks and restarts, with any file
      failures, the allocator gives the answers of a single map, for which a restart is nothing. */
  lemma {:induction false} RunRefines(s: Subnet, k: Core, calls: seq<Call>)
    requires Valid(s, k)
    ensures Valid(s, Run(s, k, calls).0)
    ensures SimpleRun(s, k.mem.allocs, calls)
         == (Run(s, k, calls).0.mem.allocs, Run(s, k, calls).1)
    decreases |calls|
  {
    hide Valid, Add, Del, Simple.Add, Simple.Del, Stored;
    if calls != [] {
      match calls[0] {
        case CallAdd(cid, x) => AddRefines(s, k, cid, x);
        case CallDel(cid, x) => DelRefines(s, k, cid, x);
        case CallCheck(cid) =>
        case Restart => ValidStored(s, k);
      }
      RunRefines(s, Step(s, k, calls[0]).0, calls[1..]);
    }
  }

  predicate AddsNot(calls: seq<Call>, cid: string) {
    forall i :: 0 <= i < |calls| ==> !(calls[i].CallAdd? && calls[i].cid == cid)
  }

  predicate DelsNot(calls: seq<Call>, cid: string) {
    forall i :: 0 <= i < |calls| ==> !(calls[i].CallDel? && calls[i].cid == cid)
  }

  /** What a container holds it keeps until it is released, through failures and restarts. */
  lemma {:induction false} HeldStays(s: Subnet, m: Simple.Table, calls: seq<Call>, cid: string)
    requires cid in m && DelsNot(calls, cid)
    ensures var n := SimpleRun(s, m, calls).0; cid in n && n[cid] == m[cid]
    decreases |calls|
  {
    hide Simple.Add, Simple.Del, Simple.AddAnswer;
    if calls != [] {
      match calls[0] {
        case CallAdd(c, x) => AddKeepsHeld(s, m, c, Durable(x), cid);
        case CallDel(c, x) => Simple.DelMeansAbsent(m, c, Durable(x));
        case CallCheck(_) =>
        case Restart =>
      }
      HeldStays(s, SimpleStep(s, m, calls[0]).0, calls[1..], cid);
    }
  }

  lemma AddKeepsHeld(s: Subnet, m: Simple.Table, c: string, durable: bool, cid: string)
    requires cid in m
    ensures var n := Simple.Add(s, m, c, durable).0; cid in n && n[cid] == m[cid]
  {
    hide Simple.Add, Simple.LowestUsable, Usable;
    Simple.AddAnswers(s, m, c, durable);
  }

  lemma AddGivesNobodyElse(s: Subnet, m: Simple.Table, c: string, durable: bool, cid: string)
    requires cid !in m && c != cid
    ensures cid !in Simple.Add(s, m, c, durable).0
  {
    hide Simple.Add, Simple.LowestUsable, Usable;
    Simple.AddAnswers(s, m, c, durable);
  }

  /** A container without an address stays without one until it asks. */
  lemma {:induction false} AbsentStays(s: Subnet, m: Simple.Table, calls: seq<Call>, cid: string)
    requires cid !in m && AddsNot(calls, cid)
    ensures cid !in SimpleRun(s, m, calls).0
    decreases |calls|
  {
    hide Simple.Add, Simple.Del, Simple.AddAnswer;
    if calls != [] {
      match calls[0] {
        case CallAdd(c, x) => AddGivesNobodyElse(s, m, c, Durable(x), cid);
        case CallDel(c, x) => Simple.DelMeansAbsent(m, c, Durable(x));
        case CallCheck(_) =>
        case Restart =>
      }
      AbsentStays(s, SimpleStep(s, m, calls[0]).0, calls[1..], cid);
    }
  }

  lemma RetryChangesNothing(s: Subnet, k: Core, cid: string, x: Faults)
    requires cid in k.mem.allocs
    ensures Add(s, k, cid, x) == (k, Simple.Granted(k.mem.allocs[cid], FirstHostIP(s)))
  {
  }

  lemma ReleaseOfNothing(k: Core, cid: string, x: Faults)
    requires cid !in k.mem.allocs
    ensures Del(k, cid, x) == (k, true)
  {
  }

  lemma GatewayIsFixed(s: Subnet, m: Simple.Table, cid: string, durable: bool)
    ensures var r := Simple.Add(s, m, cid, durable).1; r.Granted? ==> r.gateway == FirstHostIP(s)
  {
    hide Simple.FirstFree, FirstHostIP;
  }

  /** Retries: once a container has been granted an address, every later ADD is granted the same
      address and gateway and every CHECK reports it, with any failures, operations of others and
      restarts in between, until a release is asked for; and a retry changes nothing. */
  lemma RetryIsStable(s: Subnet, k: Core, cid: string, x: Faults, between: seq<Call>, y: Faults)
    requires Valid(s, k) && DelsNot(between, cid)
    ensures var (k1, a) := Step(s, k, CallAdd(cid, x));
            var k2 := Run(s, k1, between).0;
            a.r.Granted? ==>
              && Step(s, k2, CallAdd(cid, y)) == (k2, a)
              && Step(s, k2, CallCheck(cid)) == (k2, Checked(Some(a.r.ip)))
  {
    hide Valid, Add, Simple.Add, Simple.LowestUsable, Usable, Print, Run, SimpleRun;
    AddRefines(s, k, cid, x);
    var k1 := Step(s, k, CallAdd(cid, x)).0;
    Simple.AddAnswers(s, k.mem.allocs, cid, Durable(x));
    GatewayIsFixed(s, k.mem.allocs, cid, Durable(x));
    RunRefines(s, k1, between);
    if cid in k1.mem.allocs {
      HeldStays(s, k1.mem.allocs, between, cid);
      RetryChangesNothing(s, Run(s, k1, between).0, cid, y);
    }
  }

  /** Releases are idempotent: once a release has succeeded, every further one succeeds and changes
      nothing, with any failures, operations of others and restarts in between, until the container
      asks for an address again. */
  lemma ReleaseIsIdempotent(s: Subnet, k: Core, cid: string, x: Faults, between: seq<Call>, y: Faults)
    requires Valid(s, k) && AddsNot(between, cid)
    ensures var (k1, a) := Step(s, k, CallDel(cid, x));
            var k2 := Run(s, k1, between).0;
            a.ok ==> Step(s, k2, CallDel(cid, y)) == (k2, Deleted(true))
  {
    hide Valid, Del, Simple.Del, Print, Run, SimpleRun;
    DelRefines(s, k, cid, x);
    var k1 := Step(s, k, CallDel(cid, x)).0;
    Simple.DelMeansAbsent(k.mem.allocs, cid, Durable(x));
    RunRefines(s, k1, between);
    if cid !in k1.mem.allocs {
      AbsentStays(s, k1.mem.allocs, between, cid);
      ReleaseOfNothing(Run(s, k1, between).0, cid, y);
    }
  }

  /** On one CIDR, no run ever gives two containers one address, or anyone the network, gateway
      or broadcast address. */
  lemma {:induction false} RunKeepsRange(s: Subnet, m: Simple.Table, calls: seq<Call>)
    requires Simple.Injective(m) && Simple.InRange(s, m)
    ensures Simple.Injective(SimpleRun(s, m, calls).0) && Simple.InRange(s, SimpleRun(s, m, calls).0)
    decreases |calls|
  {
    hide Simple.Add, Simple.Del, Simple.Injective, Simple.InRange;
    if calls != [] {
      match calls[0] {
        case CallAdd(cid, x) => Simple.OperationsKeepTable(s, m, cid, Durable(x));
        case CallDel(cid, x) => Simple.OperationsKeepTable(s, m, cid, Durable(x));
        case CallCheck(cid) =>
        case Restart =>
      }
      RunKeepsRange(s, SimpleStep(s, m, calls[0]).0, calls[1..]);
    }
  }
}
