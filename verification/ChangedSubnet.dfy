/** What a restart on a different pod CIDR can restore: which tables runs of the allocator reach,
    and which of them the new subnet can take over (load in pkg/ipam/ipam.go). */
module ChangedSubnet {
  import opened Wrappers
  import opened IPv4
  import opened Subnets
  import opened AllocatorCore
  import Arith
  import Simple = SimpleAllocator

  /** A first start: empty maps, no files. */
  const FRESH := Core(Mem(map[], map[]), Files(None, None))

  const WORKS := Faults(Written, true, true)

  lemma FreshIsValid(s: Subnet)
    ensures Valid(s, FRESH)
  {
  }

  // ----- every consistent table is reached -----

  lemma {:induction false} SimpleRunConcat(s: Subnet, m: Simple.Table, p: seq<Call>, q: seq<Call>)
    ensures SimpleRun(s, m, p + q).0 == SimpleRun(s, SimpleRun(s, m, p).0, q).0
    decreases |p|
  {
    hide SimpleStep;
    if p == [] {
      assert p + q == q;
    } else {
      assert (p + q)[1..] == p[1..] + q;
      SimpleRunConcat(s, SimpleStep(s, m, p[0]).0, p[1..], q);
    }
  }

  lemma SimpleRunCons(s: Subnet, m: Simple.Table, c: Call, rest: seq<Call>)
    ensures SimpleRun(s, m, [c] + rest).0 == SimpleRun(s, SimpleStep(s, m, c).0, rest).0
  {
    hide SimpleStep;
    assert ([c] + rest)[1..] == rest;
  }

  /** A name longer than any in the table, one for each offset. */
  function Filler(long: nat, k: nat): string {
    seq(long + k, _ => 'x')
  }

  lemma {:induction false} NamesAreBounded(names: set<string>) returns (long: nat)
    ensures forall c :: c in names ==> |c| < long
  {
    if names == {} {
      long := 0;
    } else {
      var c :| c in names;
      var rest := NamesAreBounded(names - {c});
      long := if |c| < rest then rest else |c| + 1;
    }
  }

  /** Who is to get the address at this offset: its holder in m, or a filler. */
  ghost function NameAt(s: Subnet, m: Simple.Table, long: nat, k: nat): string {
    if AddressAt(s, k) in m.Values then Holder(m, AddressAt(s, k)) else Filler(long, k)
  }

  ghost function Holder(m: Simple.Table, ip: IP): string
    requires ip in m.Values
  {
    var c :| c in m && m[c] == ip; c
  }

  ghost predicate Goal(s: Subnet, m: Simple.Table, long: nat) {
    && Simple.Injective(m) && Simple.InRange(s, m)
    && forall c :: c in m ==> |c| < long
  }

  /** Offsets 2 .. k-1 are handed out by name, and nothing else. */
  ghost predicate FilledTo(s: Subnet, m: Simple.Table, long: nat, k: nat, t: Simple.Table) {
    && (forall j: nat :: 2 <= j < k ==> NameAt(s, m, long, j) in t && t[NameAt(s, m, long, j)] == AddressAt(s, j))
    && (forall c :: c in t ==> exists j: nat :: 2 <= j < k && NameAt(s, m, long, j) == c)
  }

  lemma AddressesDistinct(s: Subnet, j: nat, k: nat)
    requires Scanned(s, j) && Scanned(s, k) && j != k
    ensures AddressAt(s, j) != AddressAt(s, k)
  {
    hide AddressAt, Usable;
    ScanNeverWraps(s, j);
    ScanNeverWraps(s, k);
  }

  lemma NamesDistinct(s: Subnet, m: Simple.Table, long: nat, j: nat, k: nat)
    requires Goal(s, m, long) && Scanned(s, j) && Scanned(s, k) && j != k
    ensures NameAt(s, m, long, j) != NameAt(s, m, long, k)
  {
    hide AddressAt, Scanned, Usable;
    AddressesDistinct(s, j, k);
    assert |Filler(long, j)| == long + j && |Filler(long, k)| == long + k;
  }

  /** First fit gives the next offset its turn. */
  lemma NextInLine(s: Subnet, m: Simple.Table, long: nat, k: nat, t: Simple.Table)
    requires Goal(s, m, long) && Scanned(s, k) && FilledTo(s, m, long, k, t)
    ensures Simple.FirstFree(s, t.Values, 2) == Some(AddressAt(s, k))
    ensures NameAt(s, m, long, k) !in t
  {
    hide AddressAt, NameAt, Usable, Goal;
    Simple.FirstFreeIsLowest(s, t.Values, 2);
    forall j: nat | 2 <= j < k
      ensures AddressAt(s, j) in t.Values && AddressAt(s, j) != AddressAt(s, k)
      ensures NameAt(s, m, long, j) != NameAt(s, m, long, k)
    {
      assert t[NameAt(s, m, long, j)] == AddressAt(s, j);
      AddressesDistinct(s, j, k);
      NamesDistinct(s, m, long, j, k);
    }
    assert AddressAt(s, k) !in t.Values;
    assert Simple.LowestFree(s, t.Values, 2, k);
  }

  /** Allocating by name fills the subnet from any offset on. */
  lemma {:induction false} Fill(s: Subnet, m: Simple.Table, long: nat, k: nat, t: Simple.Table)
    returns (calls: seq<Call>)
    requires Goal(s, m, long) && k >= 2 && FilledTo(s, m, long, k, t)
    ensures FilledTo(s, m, long, if k < Size(s.ones) - 1 then Size(s.ones) - 1 else k, SimpleRun(s, t, calls).0)
    decreases Size(s.ones) - k
  {
    hide Goal, NameAt, AddressAt, Simple.FirstFree;
    calls := [];
    if k < Size(s.ones) - 1 {
      var c := NameAt(s, m, long, k);
      NextInLine(s, m, long, k, t);
      var u := t[c := AddressAt(s, k)];
      assert SimpleStep(s, t, CallAdd(c, WORKS)).0 == u;
      FillOne(s, m, long, k, t);
      var rest := Fill(s, m, long, k + 1, u);
      SimpleRunCons(s, t, CallAdd(c, WORKS), rest);
      calls := [CallAdd(c, WORKS)] + rest;
    }
  }

  lemma FillOne(s: Subnet, m: Simple.Table, long: nat, k: nat, t: Simple.Table)
    requires k >= 2 && FilledTo(s, m, long, k, t) && NameAt(s, m, long, k) !in t
    ensures FilledTo(s, m, long, k + 1, t[NameAt(s, m, long, k) := AddressAt(s, k)])
  {
    hide NameAt, AddressAt;
    var u := t[NameAt(s, m, long, k) := AddressAt(s, k)];
    forall c | c in u
      ensures exists j: nat :: 2 <= j < k + 1 && NameAt(s, m, long, j) == c
    {
      if c != NameAt(s, m, long, k) {
        var j: nat :| 2 <= j < k && NameAt(s, m, long, j) == c;
      }
    }
  }

  /** Releasing everybody else leaves the table. */
  lemma {:induction false} Drain(s: Subnet, m: Simple.Table, t: Simple.Table) returns (calls: seq<Call>)
    requires forall c :: c in m ==> c in t && t[c] == m[c]
    ensures SimpleRun(s, t, calls).0 == m
    decreases |t|
  {
    if t.Keys == m.Keys {
      assert t == m;
      calls := [];
    } else {
      var c :| c in t && c !in m;
      var rest := Drain(s, m, t - {c});
      SimpleRunCons(s, t, CallDel(c, WORKS), rest);
      calls := [CallDel(c, WORKS)] + rest;
    }
  }

  lemma FilledHoldsGoal(s: Subnet, m: Simple.Table, long: nat, hi: nat, t: Simple.Table, c: string)
    requires Goal(s, m, long) && c in m
    requires hi == (if Size(s.ones) > 3 then Size(s.ones) - 1 else 2) && FilledTo(s, m, long, hi, t)
    ensures c in t && t[c] == m[c]
  {
    hide AddressAt, Usable;
    UsableIsScanned(s, m[c]);
    var k: nat := IpToUint32(m[c]) - s.base;
    assert AddressAt(s, k) == m[c];
    assert NameAt(s, m, long, k) == c;
  }

  /** Every injective table of usable addresses is what some run of allocations and releases from
      an empty allocator ends with. */
  lemma EveryTableReached(s: Subnet, m: Simple.Table) returns (calls: seq<Call>)
    requires Simple.Injective(m) && Simple.InRange(s, m)
    ensures SimpleRun(s, map[], calls).0 == m
  {
    hide NameAt, AddressAt, Usable, Simple.FirstFree, SimpleStep;
    var long := NamesAreBounded(m.Keys);
    var fill := Fill(s, m, long, 2, map[]);
    var t := SimpleRun(s, map[], fill).0;
    forall c | c in m
      ensures c in t && t[c] == m[c]
    {
      FilledHoldsGoal(s, m, long, if Size(s.ones) > 3 then Size(s.ones) - 1 else 2, t, c);
    }
    var drain := Drain(s, m, t);
    SimpleRunConcat(s, map[], fill, drain);
    calls := fill + drain;
  }

  // ----- what the state file holds -----

  /** The state file is exactly the reverse index, or missing before the first write. */
  ghost predicate FileIsIndex(k: Core) {
    || k.files.state == Some(Complete(k.mem.used))
    || (k.files.state.None? && k.mem.used == map[])
  }

  lemma StepKeepsFile(s: Subnet, k: Core, c: Call)
    requires Valid(s, k) && FileIsIndex(k)
    ensures FileIsIndex(Step(s, k, c).0)
  {
    hide Valid, Insert, Remove, Simple.Add, Simple.Del, ScanIndex, OnDisk, Stored, FirstHostIP;
    match c {
      case CallAdd(cid, x) => AddRefines(s, k, cid, x);
      case CallDel(cid, x) => DelRefines(s, k, cid, x);
      case CallCheck(cid) =>
      case Restart => ValidStored(s, k);
    }
  }

  lemma {:induction false} RunKeepsFile(s: Subnet, k: Core, calls: seq<Call>)
    requires Valid(s, k) && FileIsIndex(k)
    ensures FileIsIndex(Run(s, k, calls).0)
    decreases |calls|
  {
    hide Valid, FileIsIndex, Step;
    if calls != [] {
      StepKeepsFile(s, k, calls[0]);
      StepKeepsValid(s, k, calls[0]);
      RunKeepsFile(s, Step(s, k, calls[0]).0, calls[1..]);
    }
  }

  lemma StepKeepsValid(s: Subnet, k: Core, c: Call)
    requires Valid(s, k)
    ensures Valid(s, Step(s, k, c).0)
  {
    hide Valid, AllocatorCore.Add, AllocatorCore.Del, Simple.Add, Simple.Del, Stored, OnDisk;
    match c {
      case CallAdd(cid, x) => AddRefines(s, k, cid, x);
      case CallDel(cid, x) => DelRefines(s, k, cid, x);
      case CallCheck(cid) =>
      case Restart => ValidStored(s, k);
    }
  }

  /** What a restart on subnet t restores after a run on subnet s: the part of the table in t. */
  lemma RestoredAfter(s: Subnet, t: Subnet, calls: seq<Call>)
    ensures Stored(t, Run(s, FRESH, calls).0.files) == Kept(t, SimpleRun(s, map[], calls).0)
    ensures FileOk(t, Run(s, FRESH, calls).0.files)
  {
    hide Run, SimpleRun, Stored, FileOk, ContainsIP, Print, OnDisk;
    FreshIsValid(s);
    RunRefines(s, FRESH, calls);
    RunKeepsFile(s, FRESH, calls);
    var k := Run(s, FRESH, calls).0;
    if k.files.state.Some? {
      LoadsKept(k.mem, t, k.files);
    } else {
      NothingStored(t, k.files);
      assert k.mem.allocs == map[];
      assert Kept(t, map[]) == map[];
    }
  }

  lemma NothingStored(t: Subnet, f: Files)
    requires f.state.None?
    ensures Stored(t, f) == map[] && FileOk(t, f)
  {
  }

  // ----- the range after a change -----

  /** No container restored on subnet t after this run holds an address t reserves. */
  ghost predicate RangeKept(s: Subnet, t: Subnet, calls: seq<Call>) {
    Simple.InRange(t, Stored(t, Run(s, FRESH, calls).0.files))
  }

  /** After the node's CIDR changes from s to t, the state file of every run on s loads without a
      reserved address if and only if no address t reserves was usable in s. */
  lemma RangeSurvivesChange(s: Subnet, t: Subnet)
    ensures (forall calls :: RangeKept(s, t, calls))
       <==> (forall ip: IP :: ContainsIP(t, ip) && Reserved(t, ip) ==> !Usable(s, ip))
  {
    hide ContainsIP, Reserved, Usable, Run, Stored, Kept;
    if ip: IP :| ContainsIP(t, ip) && Reserved(t, ip) && Usable(s, ip) {
      var calls := StrayReached(s, t, ip);
    } else {
      forall calls
        ensures RangeKept(s, t, calls)
      {
        AllKept(s, t, calls);
      }
    }
  }

  /** A run that leaves exactly this address allocated. */
  lemma StrayReached(s: Subnet, t: Subnet, ip: IP) returns (calls: seq<Call>)
    requires ContainsIP(t, ip) && Reserved(t, ip) && Usable(s, ip)
    ensures !RangeKept(s, t, calls)
  {
    hide ContainsIP, Reserved, Run, SimpleRun, Stored, Usable;
    calls := EveryTableReached(s, map["c" := ip]);
    RestoredAfter(s, t, calls);
    assert "c" in Kept(t, map["c" := ip]);
    ReservedNotUsable(t, ip);
  }

  lemma ReservedNotUsable(t: Subnet, ip: IP)
    requires Reserved(t, ip)
    ensures !Usable(t, ip)
  {
    hide Reserved;
  }

  lemma AllKept(s: Subnet, t: Subnet, calls: seq<Call>)
    requires forall ip: IP :: ContainsIP(t, ip) && Reserved(t, ip) ==> !Usable(s, ip)
    ensures RangeKept(s, t, calls)
  {
    hide ContainsIP, Reserved, Run, SimpleRun, Stored;
    RunKeepsRange(s, map[], calls);
    RestoredAfter(s, t, calls);
  }

  /** It does go wrong: a run on 10.0.0.0/24 leaves a container with 10.0.0.127, and after the CIDR
      has shrunk to 10.0.0.0/25 a restart restores it although that is now the broadcast address. */
  lemma ShrinkKeepsBroadcast()
    ensures exists s: Subnet, t: Subnet, calls ::
              s == Prefix(0x0A00_0000, 24) && t == Prefix(0x0A00_0000, 25) && !RangeKept(s, t, calls)
  {
    hide RangeKept, Usable, ContainsIP, Reserved, Size;
    ExampleShrink();
    var s: Subnet, t: Subnet := Prefix(0x0A00_0000, 24), Prefix(0x0A00_0000, 25);
    var calls := StrayReached(s, t, Uint32ToIP(0x0A00_007F));
  }

  lemma ExampleShrink()
    ensures Prefix(0x0A00_0000, 24).Valid() && Prefix(0x0A00_0000, 25).Valid()
    ensures var ip := Uint32ToIP(0x0A00_007F);
            && Usable(Prefix(0x0A00_0000, 24), ip)
            && ContainsIP(Prefix(0x0A00_0000, 25), ip) && Reserved(Prefix(0x0A00_0000, 25), ip)
  {
    hide Arith.Pow2, IpToUint32;
    Arith.PowSmall();
    Arith.PowAdd(1, 7);
    assert Size(24) == 256 && Size(25) == 128;
    FromUint32(0x0A00_007F);
  }
}
