/** pkg/ipam/ipam.go in its own form: an allocator object that updates two maps and a state file
    in place. Every method is proved against the value-level operations of AllocatorCore. */
module IpamAllocator {
  import opened Wrappers
  import opened IPv4
  import opened Subnets
  import opened AllocatorCore
  import Simple = SimpleAllocator

  /** The two file slots in the data directory. Each operation takes the outcome the operating
      system will give it. */
  class StateFile {
    var tmp: Option<Blob>
    var state: Option<Blob>

    ghost function Contents(): Files
      reads this
    {
      Files(tmp, state)
    }

    /** os.WriteFile on the temporary path. */
    method WriteTmp(data: Index, outcome: WriteOutcome) returns (ok: bool)
      modifies this`tmp
      ensures ok == outcome.Written?
      ensures tmp == match outcome {
                       case Written => Some(Complete(data))
                       case NotCreated => old(tmp)
                       case CutShort => Some(Partial)
                     }
    {
      match outcome {
        case Written => tmp := Some(Complete(data));
        case NotCreated =>
        case CutShort => tmp := Some(Partial);
      }
      return outcome.Written?;
    }

    /** os.Rename of the temporary file over the state file: all or nothing. */
    method Rename(works: bool) returns (ok: bool)
      requires tmp.Some?
      modifies this
      ensures ok == works
      ensures Contents() == if works then Files(None, old(tmp)) else old(Contents())
    {
      if works {
        state := tmp;
        tmp := None;
      }
      return works;
    }

    /** os.Remove of the temporary file, result ignored by the caller. */
    method RemoveTmp(works: bool)
      modifies this`tmp
      ensures tmp == if works then None else old(tmp)
    {
      if works {
        tmp := None;
      }
    }
  }

  datatype NewError = InvalidCIDR | NoDataDir | Unreadable | Undecodable

  datatype NewReply = Created(a: Allocator) | Failed(error: NewError)

  class Allocator {
    const subnet: Subnet
    const gateway: IP
    const dir: StateFile
    var allocs: Simple.Table
    var used: Index

    ghost function State(): Core
      reads this, dir
    {
      Core(Mem(allocs, used), dir.Contents())
    }

    ghost predicate Consistent()
      reads this, dir
    {
      gateway == FirstHostIP(subnet) && Valid(subnet, State())
    }

    /** The allocator New builds before it loads the state file. */
    constructor Empty(subnet: Subnet, dir: StateFile)
      ensures this.subnet == subnet && this.dir == dir && gateway == FirstHostIP(subnet)
      ensures allocs == map[] && used == map[]
    {
      this.subnet := subnet;
      this.gateway := FirstHostIP(subnet);
      this.dir := dir;
      this.allocs := map[];
      this.used := map[];
    }

    /** New: parse the CIDR, create the directory, load the state file. Reading a file that gives
        each container one address yields a consistent allocator holding exactly its entries. */
    static method New(podCIDR: string, dir: StateFile, mkdirOk: bool, readOk: bool) returns (r: NewReply)
      ensures r.Failed? && r.error.InvalidCIDR? <==> ParseCIDR(podCIDR).None?
      ensures r.Failed? && r.error.NoDataDir? <==> ParseCIDR(podCIDR).Some? && !mkdirOk
      ensures r.Failed? && r.error.Unreadable? <==> ParseCIDR(podCIDR).Some? && mkdirOk && !readOk
      ensures r.Failed? && r.error.Undecodable? <==>
                ParseCIDR(podCIDR).Some? && mkdirOk && readOk && dir.state == Some(Partial)
      ensures r.Created? ==> fresh(r.a) && r.a.subnet == ParseCIDR(podCIDR).value && r.a.dir == dir
      ensures r.Created? ==> r.a.used == OnDisk(r.a.subnet, dir.Contents())
      ensures r.Created? ==> (r.a.Consistent() <==> FileOk(r.a.subnet, dir.Contents()))
      ensures r.Created? && r.a.Consistent() ==> r.a.allocs == Stored(r.a.subnet, dir.Contents())
    {
      var subnet := ParseCIDR(podCIDR);
      if subnet.None? {
        return Failed(InvalidCIDR);
      }
      var a := new Allocator.Empty(subnet.value, dir);
      if !mkdirOk {
        return Failed(NoDataDir);
      }
      var error := a.Load(readOk);
      if error.Some? {
        return Failed(error.value);
      }
      return Created(a);
    }

    /** Add: the existing address on a retry, otherwise the first free one, remembered in both
        maps and on disk or, if the disk fails, nowhere. */
    method Add(cid: string, x: Faults) returns (r: Simple.AddReply)
      requires Consistent()
      modifies this, dir
      ensures Consistent()
      ensures (State(), r) == AllocatorCore.Add(subnet, old(State()), cid, x)
      ensures (allocs, r) == Simple.Add(subnet, old(allocs), cid, Durable(x))
      ensures Simple.AddAnswer(subnet, old(allocs), cid, Durable(x), allocs, r)
      ensures cid in old(allocs) ==> r.Granted? && r.ip == old(allocs)[cid] && State() == old(State())
      ensures r.Granted? && subnet.ones <= 31 ==> IpToUint32(r.gateway) == subnet.base + 1
    {
      hide Simple.AddAnswer;
      Simple.AddAnswers(subnet, allocs, cid, Durable(x));
      AddRefines(subnet, State(), cid, x);
      if cid in allocs {
        return Simple.Granted(allocs[cid], gateway);
      }
      var free := NextFreeIP();
      if free.None? {
        return Simple.Exhausted;
      }
      var ip := free.value;
      Simple.FreshAddress(subnet, allocs.Values);
      IndexFindsHolders(allocs, used, ip);
      InverseInsert(Mem(allocs, used), cid, ip);

      allocs := allocs[cid := ip];
      used := used[Print(ip) := cid];

      var ok := Persist(x);
      if !ok {
        allocs := allocs - {cid};
        used := used - {Print(ip)};
        return Simple.NotPersisted;
      }
      return Simple.Granted(ip, gateway);
    }

    /** Del: idempotent, and undone in memory if the disk fails. */
    method Del(cid: string, x: Faults) returns (ok: bool)
      requires Consistent()
      modifies this, dir
      ensures Consistent()
      ensures (State(), ok) == AllocatorCore.Del(old(State()), cid, x)
      ensures (allocs, ok) == Simple.Del(old(allocs), cid, Durable(x))
      ensures ok <==> cid !in allocs
      ensures cid !in old(allocs) ==> ok && State() == old(State())
      ensures allocs == old(allocs) || (ok && allocs == old(allocs) - {cid})
    {
      Simple.DelMeansAbsent(allocs, cid, Durable(x));
      DelRefines(subnet, State(), cid, x);
      if cid !in allocs {
        return true;
      }
      var ip := allocs[cid];
      InverseRemove(Mem(allocs, used), cid);

      allocs := allocs - {cid};
      used := used - {Print(ip)};

      ok := Persist(x);
      if !ok {
        allocs := allocs[cid := ip];
        used := used[Print(ip) := cid];
      }
    }

    method Check(cid: string) returns (ip: Option<IP>)
      ensures ip == Simple.Check(allocs, cid)
      ensures cid in allocs ==> ip == Some(allocs[cid])
      ensures cid !in allocs ==> ip.None?
    {
      if cid in allocs {
        return Some(allocs[cid]);
      }
      return None;
    }

    /** nextFreeIP: scans offsets 2 .. size-2 through the printed index, and finds what a search
        of the held addresses would. */
    method NextFreeIP() returns (r: Option<IP>)
      requires Inverse(allocs, used)
      ensures r == ScanIndex(subnet, used, 2) == Simple.FirstFree(subnet, allocs.Values, 2)
    {
      hide Print, AddressAt, Inverse, Simple.FirstFree;
      ScanFindsFree(subnet, allocs, used, 2);
      var baseN := subnet.base;
      var offset := 2;
      while offset < Size(subnet.ones) - 1
        invariant offset >= 2
        invariant ScanIndex(subnet, used, 2) == ScanIndex(subnet, used, offset)
        decreases Size(subnet.ones) - offset
      {
        var ip := Uint32ToIP((baseN + offset) % 0x1_0000_0000);
        assert ip == AddressAt(subnet, offset) by { OffsetAddress(subnet, offset); }
        if Print(ip) !in used {
          return Some(ip);
        }
        offset := offset + 1;
      }
      return None;
    }

    /** The loop that turns container -> address around. Whatever order the map is walked in, the
        result is the reverse index. */
    method Encode() returns (m: Index)
      requires Inverse(allocs, used)
      ensures m == used
    {
      hide Print;
      m := map[];
      var rest := allocs.Keys;
      while rest != {}
        invariant rest <= allocs.Keys
        invariant forall c :: c in allocs && c !in rest ==> Print(allocs[c]) in m
        invariant forall k :: k in m ==> k in used && m[k] == used[k]
        decreases rest
      {
        var cid :| cid in rest;
        m := m[Print(allocs[cid]) := cid];
        rest := rest - {cid};
      }
    }

    /** persist: encode, write the temporary file, rename it over the state file. */
    method Persist(x: Faults) returns (ok: bool)
      requires Inverse(allocs, used)
      modifies dir
      ensures ok == Durable(x)
      ensures dir.Contents() == PersistFiles(old(dir.Contents()), used, x)
    {
      var data := Encode();
      var written := dir.WriteTmp(data, x.write);
      if !written {
        return false;
      }
      var renamed := dir.Rename(x.renameOk);
      if !renamed {
        dir.RemoveTmp(x.removeOk);
        return false;
      }
      return true;
    }

    /** load: fills both maps from the entries that parse and lie in the subnet. The maps come out
        inverse exactly when no container has two such entries. */
    method Load(readOk: bool) returns (error: Option<NewError>)
      requires allocs == map[] && used == map[]
      modifies this
      ensures error == if !readOk then Some(Unreadable)
                       else if dir.state == Some(Partial) then Some(Undecodable)
                       else None
      ensures error.Some? ==> allocs == map[] && used == map[]
      ensures error.None? ==> used == OnDisk(subnet, dir.Contents())
      ensures error.None? ==> (Inverse(allocs, used) <==> OneAddressEach(used))
      ensures error.None? ==> forall c :: c in allocs ==> ContainsIP(subnet, allocs[c])
      ensures error.None? && OneAddressEach(used) ==> allocs == Stored(subnet, dir.Contents())
    {
      hide Print, ParseIP, ContainsIP;
      if !readOk {
        return Some(Unreadable);
      }
      if dir.state.None? {
        return None;
      }
      if dir.state.value.Partial? {
        return Some(Undecodable);
      }
      Restore(dir.state.value.entries);
      LoadedInverse(subnet, allocs, used);
      return None;
    }

    method Restore(m: Index)
      requires allocs == map[] && used == map[]
      modifies this
      ensures used == Accepted(subnet, m)
      ensures HeldFrom(allocs, used) && (forall k :: k in used ==> used[k] in allocs)
    {
      hide Print, ParseIP, ContainsIP;
      var rest := m.Keys;
      while rest != {}
        invariant rest <= m.Keys
        invariant forall k :: k in used <==> k in m && k !in rest && Accepts(subnet, k)
        invariant forall k :: k in used ==> used[k] == m[k]
        invariant HeldFrom(allocs, used)
        invariant forall k :: k in used ==> used[k] in allocs
        decreases rest
      {
        var ipStr :| ipStr in rest;
        rest := rest - {ipStr};
        var ip := ParseIP(ipStr);
        if ip.None? || !ContainsIP(subnet, ip.value) {
          continue;
        }
        ParseThenPrint(ipStr);
        allocs := allocs[m[ipStr] := ip.value];
        used := used[ipStr := m[ipStr]];
      }
    }
  }

  lemma OffsetAddress(s: Subnet, offset: nat)
    ensures Uint32ToIP((s.base + offset) % 0x1_0000_0000) == AddressAt(s, offset)
  {
  }

  /** Every held address comes from an entry for its container. */
  ghost predicate HeldFrom(allocs: Simple.Table, used: Index) {
    forall c :: c in allocs ==> Print(allocs[c]) in used && used[Print(allocs[c])] == c
  }

  lemma LoadedInverse(s: Subnet, allocs: Simple.Table, used: Index)
    requires HeldFrom(allocs, used) && forall k :: k in used ==> used[k] in allocs
    requires forall k :: k in used ==> Accepts(s, k)
    ensures Inverse(allocs, used) <==> OneAddressEach(used)
    ensures forall c :: c in allocs ==> ContainsIP(s, allocs[c])
    ensures AllParse(used) && (OneAddressEach(used) ==> allocs == Inverted(used))
  {
    hide Print, ParseIP, ContainsIP;
    forall c | c in allocs
      ensures ContainsIP(s, allocs[c])
    {
      assert Accepts(s, Print(allocs[c]));
      PrintThenParse(allocs[c]);
    }
    if Inverse(allocs, used) || OneAddressEach(used) {
      assert Inverse(allocs, used);
      InverseOneEach(allocs, used);
    }
  }
}
