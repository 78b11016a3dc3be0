/** The reference allocator: one map from container to address, searched by value. It has no
    reverse index, no printed keys and no files; it says what pkg/ipam/ipam.go is for. */
module SimpleAllocator {
  import opened Wrappers
  import opened IPv4
  import opened Subnets
  import opened Arith

  type Table = map<string, IP>

  datatype AddReply = Granted(ip: IP, gateway: IP) | Exhausted | NotPersisted

  /** The first address at or after an offset that nobody holds. */
  function FirstFree(s: Subnet, taken: set<IP>, offset: nat): Option<IP>
    decreases Size(s.ones) - offset
  {
    if offset >= Size(s.ones) - 1 then None
    else if AddressAt(s, offset) !in taken then Some(AddressAt(s, offset))
    else FirstFree(s, taken, offset + 1)
  }

  function Add(s: Subnet, m: Table, cid: string, durable: bool): (Table, AddReply) {
    if cid in m then (m, Granted(m[cid], FirstHostIP(s)))
    else
      match FirstFree(s, m.Values, 2)
      case None => (m, Exhausted)
      case Some(ip) =>
        if durable then (m[cid := ip], Granted(ip, FirstHostIP(s))) else (m, NotPersisted)
  }

  /** The flag reports success. */
  function Del(m: Table, cid: string, durable: bool): (Table, bool) {
    if cid !in m then (m, true)
    else if durable then (m - {cid}, true)
    else (m, false)
  }

  function Check(m: Table, cid: string): Option<IP> {
    if cid in m then Some(m[cid]) else None
  }

  /** No two containers hold the same address. */
  ghost predicate Injective(m: Table) {
    forall c, d :: c in m && d in m && m[c] == m[d] ==> c == d
  }

  /** Nobody holds the network, gateway or broadcast address, or one outside the subnet. */
  ghost predicate InRange(s: Subnet, m: Table) {
    forall c :: c in m ==> Usable(s, m[c])
  }

  // ----- the scan -----

  ghost predicate LowestFree(s: Subnet, taken: set<IP>, from: nat, k: nat) {
    && from <= k < Size(s.ones) - 1
    && AddressAt(s, k) !in taken
    && forall j :: from <= j < k ==> AddressAt(s, j) in taken
  }

  /** The scan finds the lowest free address, and fails exactly when every scanned one is taken. */
  lemma {:induction false} FirstFreeIsLowest(s: Subnet, taken: set<IP>, from: nat)
    ensures FirstFree(s, taken, from).Some? ==>
              exists k :: LowestFree(s, taken, from, k) && FirstFree(s, taken, from) == Some(AddressAt(s, k))
    ensures FirstFree(s, taken, from).None? <==>
              forall k :: from <= k < Size(s.ones) - 1 ==> AddressAt(s, k) in taken
    decreases Size(s.ones) - from
  {
    hide AddressAt;
    if from < Size(s.ones) - 1 {
      if AddressAt(s, from) !in taken {
        assert LowestFree(s, taken, from, from);
      } else {
        FirstFreeIsLowest(s, taken, from + 1);
        if FirstFree(s, taken, from + 1).Some? {
          var k :| LowestFree(s, taken, from + 1, k) && FirstFree(s, taken, from + 1) == Some(AddressAt(s, k));
          assert LowestFree(s, taken, from, k);
        }
      }
    }
  }

  /** A usable address nobody holds is found, or a lower one is. */
  lemma FreeAgain(s: Subnet, taken: set<IP>, ip: IP)
    requires Usable(s, ip) && ip !in taken
    ensures var free := FirstFree(s, taken, 2);
            free.Some? && IpToUint32(free.value) <= IpToUint32(ip)
  {
    hide AddressAt, Usable, IpToUint32, FirstFree;
    UsableIsScanned(s, ip);
    FirstFreeIsLowest(s, taken, 2);
    var j :| LowestFree(s, taken, 2, j) && FirstFree(s, taken, 2) == Some(AddressAt(s, j));
    ScanNeverWraps(s, j);
  }

  lemma FreshAddress(s: Subnet, taken: set<IP>)
    requires FirstFree(s, taken, 2).Some?
    ensures Usable(s, FirstFree(s, taken, 2).value)
    ensures FirstFree(s, taken, 2).value !in taken
  {
    FirstFreeIsLowest(s, taken, 2);
    var k :| LowestFree(s, taken, 2, k) && FirstFree(s, taken, 2) == Some(AddressAt(s, k));
    ScanNeverWraps(s, k);
  }

  /** The lowest usable address nobody holds. */
  ghost predicate LowestUsable(s: Subnet, taken: set<IP>, ip: IP) {
    && Usable(s, ip) && ip !in taken
    && forall j: IP :: Usable(s, j) && j !in taken ==> IpToUint32(ip) <= IpToUint32(j)
  }

  lemma FreeIsLowestUsable(s: Subnet, taken: set<IP>)
    ensures FirstFree(s, taken, 2).Some? ==> LowestUsable(s, taken, FirstFree(s, taken, 2).value)
    ensures FirstFree(s, taken, 2).None? <==> forall ip: IP :: Usable(s, ip) ==> ip in taken
  {
    hide Usable, IpToUint32, FirstFree;
    if FirstFree(s, taken, 2).Some? { FreshAddress(s, taken); }
    forall ip: IP | Usable(s, ip) && ip !in taken
      ensures FirstFree(s, taken, 2).Some? && IpToUint32(FirstFree(s, taken, 2).value) <= IpToUint32(ip)
    {
      FreeAgain(s, taken, ip);
    }
  }

  /** What Add answers and leaves, by what is usable and held. A retry gets the same address whatever
      the disk does; a new container is refused if nothing usable is free, or if the disk fails, and
      then nothing changes; otherwise it gets the lowest. */
  ghost predicate AddAnswer(s: Subnet, m: Table, cid: string, durable: bool, n: Table, r: AddReply) {
    if cid in m then n == m && r.Granted? && r.ip == m[cid]
    else
      && (r.Exhausted? <==> forall ip: IP :: Usable(s, ip) ==> ip in m.Values)
      && (r.Granted? ==> durable && LowestUsable(s, m.Values, r.ip) && n == m[cid := r.ip])
      && (!r.Granted? ==> n == m)
      && (r.NotPersisted? ==> !durable)
  }

  lemma AddAnswers(s: Subnet, m: Table, cid: string, durable: bool)
    ensures var (n, r) := Add(s, m, cid, durable);
            && AddAnswer(s, m, cid, durable, n, r)
            && (r.Granted? && s.ones <= 31 ==> IpToUint32(r.gateway) == s.base + 1)
  {
    hide Usable, IpToUint32, FirstFree, LowestUsable, FirstHostIP;
    FreeIsLowestUsable(s, m.Values);
    FirstHostIsNext(s);
  }

  /** A release reports success if and only if the container holds nothing afterwards, which can
      fail only for one that held something; nobody else is touched. */
  lemma DelMeansAbsent(m: Table, cid: string, durable: bool)
    ensures var (n, ok) := Del(m, cid, durable);
            && (ok <==> cid !in n)
            && (!ok ==> cid in m && !durable)
            && (forall d :: d != cid ==> (d in n <==> d in m) && (d in n ==> n[d] == m[d]))
            && (cid in n ==> n[cid] == m[cid])
  {
  }

  /** Every operation, durable or not, keeps the table injective and in range. */
  lemma OperationsKeepTable(s: Subnet, m: Table, cid: string, durable: bool)
    requires Injective(m)
    ensures Injective(Add(s, m, cid, durable).0) && Injective(Del(m, cid, durable).0)
    ensures InRange(s, m) ==> InRange(s, Add(s, m, cid, durable).0) && InRange(s, Del(m, cid, durable).0)
  {
    if cid !in m && FirstFree(s, m.Values, 2).Some? {
      FreshAddress(s, m.Values);
      var ip := FirstFree(s, m.Values, 2).value;
      assert forall c :: c in m ==> m[c] in m.Values;
    }
  }

  /** A release undoes an allocation, and the address is the next one handed out if it was
      the lowest free one before. */
  lemma DelUndoesAdd(s: Subnet, m: Table, cid: string, other: string)
    requires cid !in m && other !in m && FirstFree(s, m.Values, 2).Some?
    ensures var (m1, r) := Add(s, m, cid, true);
            && r.Granted? && Del(m1, cid, true) == (m, true)
            && Add(s, Del(m1, cid, true).0, other, true).1 == r
  {
    var m1 := Add(s, m, cid, true).0;
    assert m1 - {cid} == m;
  }

  // ----- counting -----

  ghost function ScannedSet(s: Subnet, hi: nat): set<IP> {
    set k: nat | 2 <= k < hi :: AddressAt(s, k)
  }

  lemma {:induction false} ScannedSetSize(s: Subnet, hi: nat)
    requires 2 <= hi <= Size(s.ones) - 1
    ensures |ScannedSet(s, hi)| == hi - 2
  {
    hide AddressAt, Usable;
    if hi == 2 {
      assert ScannedSet(s, hi) == {};
    } else {
      ScannedSetSize(s, hi - 1);
      var ip := AddressAt(s, hi - 1);
      ScanNeverWraps(s, hi - 1);
      forall k: nat | 2 <= k < hi - 1
        ensures AddressAt(s, k) != ip
      {
        ScanNeverWraps(s, k);
      }
      assert ScannedSet(s, hi) == ScannedSet(s, hi - 1) + {ip};
    }
  }

  lemma {:induction false} InjectiveSize(m: Table)
    requires Injective(m)
    ensures |m.Values| == |m|
    decreases |m|
  {
    if m != map[] {
      var c :| c in m;
      var n := m - {c};
      InjectiveSize(n);
      assert n.Keys == m.Keys - {c};
      assert m.Values == n.Values + {m[c]} by {
        forall v | v in m.Values
          ensures v in n.Values + {m[c]}
        {
          var d :| d in m && m[d] == v;
          if d != c { assert n[d] == v; }
        }
      }
      assert m[c] !in n.Values;
    }
  }

  lemma {:induction false} SubsetOfSameSize<T>(a: set<T>, b: set<T>)
    requires a <= b && |a| == |b|
    ensures a == b
  {
    assert |b - a| == |b| - |a|;
  }

  lemma SubsetSize<T>(a: set<T>, b: set<T>)
    requires a <= b
    ensures |a| <= |b|
  {
    assert |b - a| == |b| - |a|;
  }

  /** Exhaustion is exact: an allocation is refused for want of addresses if and only if exactly
      2^(32-n) - 3 containers hold one. */
  lemma ExhaustedExactly(s: Subnet, m: Table, cid: string, durable: bool)
    requires s.ones <= 30 && Injective(m) && InRange(s, m)
    ensures |m| <= Pow2(32 - s.ones) - 3
    ensures cid !in m ==>
              (Add(s, m, cid, durable).1.Exhausted? <==> |m| == Pow2(32 - s.ones) - 3)
  {
    hide AddressAt, FirstHostIP, Usable;
    ShortPrefix(s);
    var all := ScannedSet(s, Size(s.ones) - 1);
    ScannedSetSize(s, Size(s.ones) - 1);
    InjectiveSize(m);
    ValuesAreScanned(s, m);
    SubsetSize(m.Values, all);
    FirstFreeIsLowest(s, m.Values, 2);
    if FirstFree(s, m.Values, 2).None? {
      assert m.Values == all;
    }
    if |m| == Pow2(32 - s.ones) - 3 {
      SubsetOfSameSize(m.Values, all);
      forall k | 2 <= k < Size(s.ones) - 1
        ensures AddressAt(s, k) in m.Values
      {
        assert AddressAt(s, k) in all;
      }
    }
  }

  /** Subnets too small to have a usable address refuse every new container. */
  lemma TinySubnetsRefuse(s: Subnet, m: Table, cid: string, durable: bool)
    requires s.ones >= 31 && cid !in m
    ensures Add(s, m, cid, durable) == (m, Exhausted)
  {
  }

  lemma ValuesAreScanned(s: Subnet, m: Table)
    requires s.ones <= 30 && InRange(s, m)
    ensures m.Values <= ScannedSet(s, Size(s.ones) - 1)
  {
    forall ip | ip in m.Values
      ensures ip in ScannedSet(s, Size(s.ones) - 1)
    {
      UsableIsScanned(s, ip);
      var k: nat := IpToUint32(ip) - s.base;
      assert AddressAt(s, k) == ip;
    }
  }
}
