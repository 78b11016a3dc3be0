/** IPv4 prefixes (section 3.1 of RFC 4632): parsing, membership, the gateway address and the
    addresses the allocator scans. Models firstHostIP and the arithmetic of nextFreeIP in
    pkg/ipam/ipam.go, and net.ParseCIDR and IPNet.Contains as the source uses them. */
module Subnets {
  import opened Wrappers
  import opened IPv4
  import opened Arith

  /** The number of addresses under a mask with this many leading ones. */
  function Size(ones: nat): (n: nat)
    requires ones <= 32
    ensures n >= 1
  {
    Pow2(32 - ones)
  }

  datatype Prefix = Prefix(base: Uint32, ones: nat) {
    predicate Valid() {
      ones <= 32 && base % Size(ones) == 0
    }
  }

  /** A parsed CIDR: the base is the masked address, so it is aligned. */
  type Subnet = p: Prefix | p.Valid() witness Prefix(0, 0)

  /** The address with its host bits cleared. */
  function Mask(a: Uint32, ones: nat): Uint32
    requires ones <= 32
  {
    RemainderBounds(a, Size(ones));
    a - a % Size(ones)
  }

  predicate Contains(s: Subnet, a: Uint32) {
    Mask(a, s.ones) == s.base
  }

  ghost predicate Disjoint(s: Subnet, t: Subnet) {
    forall a: Uint32 :: !(Contains(s, a) && Contains(t, a))
  }

  // ----- prefixes as intervals -----

  lemma SizeDivides(m: nat, n: nat)
    requires m <= n <= 32
    ensures Size(m) == Pow2(n - m) * Size(n)
  {
    PowAdd(n - m, 32 - n);
  }

  /** An aligned block never runs past the 32-bit address space. */
  lemma SubnetFits(s: Subnet)
    ensures s.base + Size(s.ones) <= TWO32
  {
    var d := Size(s.ones);
    SizeDivides(0, s.ones);
    PowWord();
    ExactMultiple(s.base, d);
    MultipleGap(s.base / d, Pow2(s.ones), d);
  }

  lemma ContainsIsInterval(s: Subnet, a: Uint32)
    ensures Contains(s, a) <==> s.base <= a < s.base + Size(s.ones)
  {
    var d := Size(s.ones);
    RoundedDown(a, d);
    if s.base <= a < s.base + d {
      ExactMultiple(s.base, d);
      DivModUnique(a, d, s.base / d, a - s.base);
    }
  }

  lemma ContainsBase(s: Subnet)
    ensures Contains(s, s.base)
  {
  }

  /** Masking with fewer bits forgets more. */
  lemma MaskNested(a: Uint32, m: nat, n: nat)
    requires m <= n <= 32
    ensures Mask(Mask(a, n), m) == Mask(a, m)
  {
    SizeDivides(m, n);
    RoundTwice(a, Pow2(n - m), Size(n));
  }

  /** Two prefixes that share an address are nested: the longer one lies inside the shorter. */
  lemma SharedAddressNests(s: Subnet, t: Subnet, a: Uint32, b: Uint32)
    requires s.ones <= t.ones
    requires Contains(s, a) && Contains(t, a) && Contains(t, b)
    ensures Contains(s, b)
    ensures s.ones == t.ones ==> s == t
  {
    MaskNested(a, s.ones, t.ones);
    MaskNested(b, s.ones, t.ones);
  }

  /** Disjoint prefixes have distinct network addresses. */
  lemma DisjointBases(s: Subnet, t: Subnet)
    requires Disjoint(s, t)
    ensures s.base != t.base
  {
    ContainsBase(s);
    ContainsBase(t);
    assert !(Contains(s, s.base) && Contains(t, s.base));
  }

  // ----- the gateway -----

  /** firstHostIP: increments the last byte only, wrapping within it. */
  function FirstHostIP(s: Subnet): IP {
    var ip := Uint32ToIP(s.base);
    IP(ip.b0, ip.b1, ip.b2, (ip.b3 + 1) % 256)
  }

  lemma BumpLastByte(ip: IP)
    ensures IpToUint32(IP(ip.b0, ip.b1, ip.b2, (ip.b3 + 1) % 256)) == IpToUint32(ip) + 1 <==> ip.b3 != 255
  {
  }

  lemma WideBaseIsEven(s: Subnet)
    requires s.ones <= 31
    ensures s.base % 2 == 0
  {
    SizeDivides(s.ones, 31);
    PowSmall();
    var d, k := Size(s.ones), Pow2(31 - s.ones);
    ExactMultiple(s.base, d);
    assert d == 2 * k;
    MulAssoc(2, k, s.base / d);
    DivModUnique(s.base, 2, k * (s.base / d), 0);
  }

  /** The one-byte increment is the address after the base exactly when the last byte does not
      wrap, which covers every prefix length up to 31. */
  lemma FirstHostIsNext(s: Subnet)
    ensures IpToUint32(FirstHostIP(s)) == s.base + 1 <==> s.base % 256 != 255
    ensures s.ones <= 31 ==> s.base % 256 != 255
  {
    hide IpToUint32;
    FromUint32(s.base);
    BumpLastByte(Uint32ToIP(s.base));
    if s.ones <= 31 {
      WideBaseIsEven(s);
    }
  }

  /** The increment does go wrong for a /32 that ends in 255. */
  lemma FirstHostWraps()
    ensures exists s: Subnet :: IpToUint32(FirstHostIP(s)) != s.base + 1
  {
    var s: Prefix := Prefix(0x0A0000FF, 32);
    assert Size(32) == 1;
    assert s.Valid();
    FirstHostIsNext(s);
  }

  // ----- the scanned range -----

  /** The address at an offset, with the wrap-around of uint32 addition. */
  function AddressAt(s: Subnet, offset: nat): IP {
    Uint32ToIP((s.base + offset) % 0x1_0000_0000)
  }

  /** Offsets 2 .. size-2: what nextFreeIP scans. */
  predicate Scanned(s: Subnet, offset: int) {
    2 <= offset < Size(s.ones) - 1
  }

  predicate ContainsIP(s: Subnet, ip: IP) {
    Contains(s, IpToUint32(ip))
  }

  function Broadcast(s: Subnet): int {
    s.base + Size(s.ones) - 1
  }

  /** Addresses that must never be handed out: network, gateway and broadcast. */
  predicate Reserved(s: Subnet, ip: IP) {
    || IpToUint32(ip) == s.base
    || ip == FirstHostIP(s)
    || IpToUint32(ip) == Broadcast(s)
  }

  predicate Usable(s: Subnet, ip: IP) {
    ContainsIP(s, ip) && !Reserved(s, ip)
  }

  /** No scanned offset wraps, and the scanned addresses are exactly the usable ones. */
  lemma ScanNeverWraps(s: Subnet, offset: nat)
    requires Scanned(s, offset)
    ensures s.base + offset < TWO32
    ensures IpToUint32(AddressAt(s, offset)) == s.base + offset
    ensures Usable(s, AddressAt(s, offset))
  {
    SubnetFits(s);
    AddressNumber(s, offset);
    ContainsIsInterval(s, s.base + offset);
    ShortPrefix(s);
    FirstHostIsNext(s);
  }

  lemma ShortPrefix(s: Subnet)
    ensures Size(s.ones) > 2 <==> s.ones <= 30
    ensures Size(s.ones) > 2 <==> Size(s.ones) >= 4
  {
    PowSmall();
    if s.ones <= 30 { SizeDivides(s.ones, 30); }
  }

  lemma AddressNumber(s: Subnet, offset: nat)
    requires s.base + offset < TWO32
    ensures IpToUint32(AddressAt(s, offset)) == s.base + offset
  {
    hide Uint32ToIP, IpToUint32;
    assert (s.base + offset) % 0x1_0000_0000 == s.base + offset;
    FromUint32(s.base + offset);
  }

  lemma UsableIsScanned(s: Subnet, ip: IP)
    requires Usable(s, ip)
    ensures Scanned(s, IpToUint32(ip) - s.base)
    ensures AddressAt(s, IpToUint32(ip) - s.base) == ip
  {
    var offset := IpToUint32(ip) - s.base;
    ContainsIsInterval(s, IpToUint32(ip));
    AddressNumber(s, offset);
    IpInjective(AddressAt(s, offset), ip);
    FirstHostIsNext(s);
    ShortPrefix(s);
    if offset == 1 {
      IpInjective(ip, FirstHostIP(s));
    }
  }

  /** The usable addresses are base+2 up to the last but one of the block. */
  lemma UsableIsInterval(s: Subnet, ip: IP)
    ensures Usable(s, ip) <==> s.base + 2 <= IpToUint32(ip) <= s.base + Size(s.ones) - 2
  {
    hide Usable, AddressAt, IpToUint32;
    var k := IpToUint32(ip) - s.base;
    if Usable(s, ip) {
      UsableIsScanned(s, ip);
    } else if Scanned(s, k) {
      ScanNeverWraps(s, k);
      IpInjective(AddressAt(s, k), ip);
    }
  }

  // ----- parsing -----

  /** net.ParseCIDR on the IPv4 notation; the result is the masked network. */
  function ParseCIDR(s: string): Option<Subnet> {
    var f := Split(s, '/');
    if |f| != 2 || f[1] == "" || !AllDigits(f[1]) || DigitsValue(f[1]) > 32 then None
    else
      match ParseIP(f[0])
      case None => None
      case Some(ip) =>
        var ones := DigitsValue(f[1]);
        var base := Mask(IpToUint32(ip), ones);
        RoundedDown(IpToUint32(ip), Size(ones));
        Some(Prefix(base, ones))
  }

  /** s is an address, a slash and a decimal length, and p the network of that length it lies in. */
  predicate IsCIDR(s: string, ip: IP, length: string, p: Subnet) {
    && s == Print(ip) + "/" + length
    && length != "" && AllDigits(length) && DigitsValue(length) == p.ones
    && Contains(p, IpToUint32(ip))
  }

  lemma {:induction false} JoinAvoids(fields: seq<string>, sep: char, c: char)
    requires c != sep && forall i :: 0 <= i < |fields| ==> c !in fields[i]
    ensures c !in Join(fields, sep)
  {
    if |fields| > 1 {
      JoinAvoids(fields[1..], sep, c);
    }
  }

  lemma NoSlashInOctet(b: Byte)
    ensures '/' !in PrintOctet(b)
  {
  }

  lemma NoSlashInPrint(ip: IP)
    ensures '/' !in Print(ip)
  {
    hide PrintOctet;
    NoSlashInOctet(ip.b0);
    NoSlashInOctet(ip.b1);
    NoSlashInOctet(ip.b2);
    NoSlashInOctet(ip.b3);
    JoinAvoids([PrintOctet(ip.b0), PrintOctet(ip.b1), PrintOctet(ip.b2), PrintOctet(ip.b3)], '.', '/');
  }

  lemma CIDRParses(s: string, ip: IP, length: string, p: Subnet)
    requires IsCIDR(s, ip, length, p)
    ensures ParseCIDR(s) == Some(p)
  {
    hide Print, ParseIP, DigitsValue, Mask, IpToUint32;
    NoSlashInPrint(ip);
    SplitField(length, '/');
    SplitCons(Print(ip), length, '/');
    PrintThenParse(ip);
  }

  /** Exactly these strings parse: any address of the network may be written, not only its first. */
  lemma CIDRParsesExactly(s: string, p: Subnet)
    ensures ParseCIDR(s) == Some(p) <==> exists ip: IP, length: string :: IsCIDR(s, ip, length, p)
  {
    hide Print, ParseIP, DigitsValue, Mask, IpToUint32;
    if ip: IP, length: string :| IsCIDR(s, ip, length, p) {
      CIDRParses(s, ip, length, p);
    }
    if ParseCIDR(s) == Some(p) {
      var f := Split(s, '/');
      JoinSplit(s, '/');
      assert f == [f[0], f[1]] && f[1..] == [f[1]];
      assert s == f[0] + "/" + f[1];
      ParseThenPrint(f[0]);
      assert IsCIDR(s, ParseIP(f[0]).value, f[1], p);
    }
  }
}
