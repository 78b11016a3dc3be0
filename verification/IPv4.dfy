/** IPv4 addresses: the four-byte form, the uint32 form and the printed form.
    Models ipToUint32 and uint32ToIP of pkg/ipam/ipam.go, together with the dotted-decimal
    printer and parser those files rely on (IPv4address, section 3.2.2 of RFC 3986). */
module IPv4 {
  import opened Wrappers
  import opened Arith

  const TWO32 := 0x1_0000_0000

  type Byte = b: int | 0 <= b < 256
  type Uint32 = n: int | 0 <= n < 0x1_0000_0000

  datatype IP = IP(b0: Byte, b1: Byte, b2: Byte, b3: Byte)

  /** The big-endian value of an address. The shifted bytes never overlap, so the source's
      bitwise or is a sum. */
  function IpToUint32(ip: IP): Uint32 {
    ip.b0 * 0x100_0000 + ip.b1 * 0x1_0000 + ip.b2 * 0x100 + ip.b3
  }

  function Uint32ToIP(n: Uint32): IP {
    IP(n / 0x100_0000 % 256, n / 0x1_0000 % 256, n / 0x100 % 256, n % 256)
  }

  /** Division by 256 peels one byte off a number built from bytes. */
  lemma PeelByte(hi: nat, lo: Byte)
    ensures (hi * 256 + lo) / 256 == hi && (hi * 256 + lo) % 256 == lo
  {
  }

  lemma Regroup(n: nat)
    ensures n / 0x100 / 0x100 == n / 0x1_0000
    ensures n / 0x1_0000 / 0x100 == n / 0x100_0000
  {
  }

  lemma FromUint32(n: Uint32)
    ensures IpToUint32(Uint32ToIP(n)) == n
  {
    Regroup(n);
    var h, g, f := n / 0x100, n / 0x1_0000, n / 0x100_0000;
    assert n == h * 256 + n % 256 && h == g * 256 + h % 256 && g == f * 256 + g % 256;
    assert f % 256 == f;
  }

  lemma ToUint32(ip: IP)
    ensures Uint32ToIP(IpToUint32(ip)) == ip
  {
    var m := IpToUint32(ip);
    var f, g := ip.b0 as nat, ip.b0 * 256 + ip.b1;
    var h := g * 256 + ip.b2;
    Regroup(m);
    PeelByte(h, ip.b3);
    PeelByte(g, ip.b2);
    PeelByte(f, ip.b1);
    assert m == h * 256 + ip.b3;
  }

  lemma IpInjective(x: IP, y: IP)
    requires IpToUint32(x) == IpToUint32(y)
    ensures x == y
  {
    ToUint32(x);
    ToUint32(y);
  }

  /** The two conversions are inverse on all 2^32 values. */
  lemma ConversionsInverse(n: Uint32, ip: IP)
    ensures IpToUint32(Uint32ToIP(n)) == n
    ensures Uint32ToIP(IpToUint32(ip)) == ip
  {
    FromUint32(n);
    ToUint32(ip);
  }

  /** Numbers are ordered as the bytes are read from left to right. With the inverse above this makes
      the conversion unique. */
  lemma OrderIsByteOrder(x: IP, y: IP)
    ensures IpToUint32(x) < IpToUint32(y) <==>
              || x.b0 < y.b0
              || (x.b0 == y.b0 && x.b1 < y.b1)
              || (x.b0 == y.b0 && x.b1 == y.b1 && x.b2 < y.b2)
              || (x.b0 == y.b0 && x.b1 == y.b1 && x.b2 == y.b2 && x.b3 < y.b3)
  {
  }

  // ----- printing -----

  function Digit(d: int): char
    requires 0 <= d < 10
  {
    ['0', '1', '2', '3', '4', '5', '6', '7', '8', '9'][d]
  }

  predicate IsDigit(c: char) { '0' <= c <= '9' }

  function DigitValue(c: char): int
    requires IsDigit(c)
  {
    c as int - '0' as int
  }

  function PrintOctet(b: Byte): string {
    if b < 10 then [Digit(b)]
    else if b < 100 then [Digit(b / 10), Digit(b % 10)]
    else [Digit(b / 100), Digit(b / 10 % 10), Digit(b % 10)]
  }

  /** net.IP.String for a four-byte address. */
  function Print(ip: IP): string {
    Join([PrintOctet(ip.b0), PrintOctet(ip.b1), PrintOctet(ip.b2), PrintOctet(ip.b3)], '.')
  }

  // ----- splitting and joining fields -----

  function Split(s: string, sep: char): (fields: seq<string>)
    ensures |fields| >= 1
  {
    if s == "" then [""]
    else if s[0] == sep then [""] + Split(s[1..], sep)
    else
      var rest := Split(s[1..], sep);
      [[s[0]] + rest[0]] + rest[1..]
  }

  function Join(fields: seq<string>, sep: char): string {
    if fields == [] then ""
    else if |fields| == 1 then fields[0]
    else fields[0] + [sep] + Join(fields[1..], sep)
  }

  lemma JoinHead(c: char, rest: seq<string>, sep: char)
    requires |rest| >= 1
    ensures Join([[c] + rest[0]] + rest[1..], sep) == [c] + Join(rest, sep)
  {
  }

  lemma {:induction false} JoinSplit(s: string, sep: char)
    ensures Join(Split(s, sep), sep) == s
  {
    if s != "" {
      JoinSplit(s[1..], sep);
      var rest := Split(s[1..], sep);
      if s[0] == sep {
        assert ([""] + rest)[1..] == rest;
        assert Join([""] + rest, sep) == "" + [sep] + s[1..];
      } else {
        JoinHead(s[0], rest, sep);
      }
    }
  }

  lemma {:induction false} SplitField(f: string, sep: char)
    requires sep !in f
    ensures Split(f, sep) == [f]
  {
    if f != "" {
      SplitField(f[1..], sep);
      assert f == [f[0]] + f[1..];
    }
  }

  lemma {:induction false} SplitCons(f: string, tail: string, sep: char)
    requires sep !in f
    ensures Split(f + [sep] + tail, sep) == [f] + Split(tail, sep)
  {
    if f == "" {
      assert (f + [sep] + tail)[1..] == tail;
    } else {
      SplitCons(f[1..], tail, sep);
      var s := f + [sep] + tail;
      assert s[1..] == f[1..] + [sep] + tail;
      assert f == [f[0]] + f[1..];
    }
  }

  lemma {:induction false} SplitJoin(fields: seq<string>, sep: char)
    requires fields != []
    requires forall i :: 0 <= i < |fields| ==> sep !in fields[i]
    ensures Split(Join(fields, sep), sep) == fields
  {
    if |fields| == 1 {
      SplitField(fields[0], sep);
    } else {
      SplitJoin(fields[1..], sep);
      SplitCons(fields[0], Join(fields[1..], sep), sep);
    }
  }

  // ----- parsing -----

  /** dec-octet: one to three digits, no leading zero, at most 255. */
  function ParseOctet(s: string): Option<Byte> {
    if !(1 <= |s| <= 3) || exists i :: 0 <= i < |s| && !IsDigit(s[i]) then None
    else if |s| > 1 && s[0] == '0' then None
    else
      var v := if |s| == 1 then DigitValue(s[0])
               else if |s| == 2 then 10 * DigitValue(s[0]) + DigitValue(s[1])
               else 100 * DigitValue(s[0]) + 10 * DigitValue(s[1]) + DigitValue(s[2]);
      if v > 255 then None else Some(v)
  }

  /** net.ParseIP on the IPv4 notation. */
  function ParseIP(s: string): Option<IP> {
    var f := Split(s, '.');
    if |f| != 4 then None
    else
      match (ParseOctet(f[0]), ParseOctet(f[1]), ParseOctet(f[2]), ParseOctet(f[3]))
      case (Some(a), Some(b), Some(c), Some(d)) => Some(IP(a, b, c, d))
      case _ => None
  }

  lemma DigitFacts(d: int)
    requires 0 <= d < 10
    ensures IsDigit(Digit(d)) && DigitValue(Digit(d)) == d
    ensures Digit(d) == '0' <==> d == 0
  {
  }

  lemma ParseOneDigit(x: int)
    requires 0 <= x < 10
    ensures ParseOctet([Digit(x)]) == Some(x)
  {
  }

  lemma ParseTwoDigits(x: int, y: int)
    requires 0 < x < 10 && 0 <= y < 10
    ensures ParseOctet([Digit(x), Digit(y)]) == Some(10 * x + y)
  {
    DigitFacts(x);
    DigitFacts(y);
  }

  lemma ParseThreeDigits(x: int, y: int, z: int)
    requires 0 < x < 10 && 0 <= y < 10 && 0 <= z < 10 && 100 * x + 10 * y + z <= 255
    ensures ParseOctet([Digit(x), Digit(y), Digit(z)]) == Some(100 * x + 10 * y + z)
  {
    DigitFacts(x);
    DigitFacts(y);
    DigitFacts(z);
  }

  lemma OctetDigits(b: Byte)
    ensures b == 100 * (b / 100) + 10 * (b / 10 % 10) + b % 10
    ensures b < 100 ==> b == 10 * (b / 10) + b % 10
  {
  }

  lemma OctetRoundTrip(b: Byte)
    ensures ParseOctet(PrintOctet(b)) == Some(b)
    ensures '.' !in PrintOctet(b)
  {
    hide ParseOctet, Digit;
    OctetDigits(b);
    NoDots();
    if b < 10 {
      ParseOneDigit(b);
    } else if b < 100 {
      ParseTwoDigits(b / 10, b % 10);
    } else {
      ParseThreeDigits(b / 100, b / 10 % 10, b % 10);
    }
  }

  lemma NoDots()
    ensures forall d :: 0 <= d < 10 ==> Digit(d) != '.'
  {
  }

  lemma OctetCanonical(s: string)
    requires ParseOctet(s).Some?
    ensures s == PrintOctet(ParseOctet(s).value)
  {
    assert forall i :: 0 <= i < |s| ==> IsDigit(s[i]);
    DigitInverse(s[0]);
    if |s| == 2 {
      DigitInverse(s[1]);
      TwoDigits(s);
    } else if |s| == 3 {
      DigitInverse(s[1]);
      DigitInverse(s[2]);
      ThreeDigits(s);
    }
  }

  lemma TwoDigits(s: string)
    requires |s| == 2 && IsDigit(s[0]) && IsDigit(s[1]) && s[0] != '0'
    ensures var v := 10 * DigitValue(s[0]) + DigitValue(s[1]);
            10 <= v < 100 && s == [Digit(v / 10), Digit(v % 10)]
  {
    DigitInverse(s[0]);
    DigitInverse(s[1]);
    var x, y := DigitValue(s[0]), DigitValue(s[1]);
    assert (10 * x + y) / 10 == x && (10 * x + y) % 10 == y;
  }

  lemma ThreeDigits(s: string)
    requires |s| == 3 && IsDigit(s[0]) && IsDigit(s[1]) && IsDigit(s[2]) && s[0] != '0'
    ensures var v := 100 * DigitValue(s[0]) + 10 * DigitValue(s[1]) + DigitValue(s[2]);
            100 <= v < 1000 && s == [Digit(v / 100), Digit(v / 10 % 10), Digit(v % 10)]
  {
    hide Digit;
    DigitInverse(s[0]);
    DigitInverse(s[1]);
    DigitInverse(s[2]);
    var x, y, z := DigitValue(s[0]), DigitValue(s[1]), DigitValue(s[2]);
    var v := 100 * x + 10 * y + z;
    DivModUnique(v, 100, x, 10 * y + z);
    DivModUnique(v, 10, 10 * x + y, z);
    DivModUnique(10 * x + y, 10, x, y);
  }

  lemma DigitInverse(c: char)
    requires IsDigit(c)
    ensures 0 <= DigitValue(c) < 10 && Digit(DigitValue(c)) == c
  {
  }

  /** For every one of the 2^32 addresses, parsing the printed form gives the address back. */
  lemma PrintThenParse(ip: IP)
    ensures ParseIP(Print(ip)) == Some(ip)
  {
    OctetRoundTrip(ip.b0);
    OctetRoundTrip(ip.b1);
    OctetRoundTrip(ip.b2);
    OctetRoundTrip(ip.b3);
    SplitJoin([PrintOctet(ip.b0), PrintOctet(ip.b1), PrintOctet(ip.b2), PrintOctet(ip.b3)], '.');
  }

  /** Conversely only the printed form parses: there is one string per address. */
  lemma ParseThenPrint(s: string)
    requires ParseIP(s).Some?
    ensures Print(ParseIP(s).value) == s
  {
    var f := Split(s, '.');
    var ip := ParseIP(s).value;
    OctetCanonical(f[0]);
    OctetCanonical(f[1]);
    OctetCanonical(f[2]);
    OctetCanonical(f[3]);
    assert f == [PrintOctet(ip.b0), PrintOctet(ip.b1), PrintOctet(ip.b2), PrintOctet(ip.b3)];
    JoinSplit(s, '.');
  }

  predicate AllDigits(s: string) {
    forall i :: 0 <= i < |s| ==> IsDigit(s[i])
  }

  function DigitsValue(s: string): nat
    requires AllDigits(s)
  {
    if s == "" then 0 else 10 * DigitsValue(s[..|s| - 1]) + DigitValue(s[|s| - 1])
  }

  /** A decimal numeral without a leading zero. */
  predicate IsDecimal(s: string, n: int) {
    s != "" && AllDigits(s) && DigitsValue(s) == n && (|s| > 1 ==> s[0] != '0')
  }

  lemma DigitsAppend(s: string, d: int)
    requires AllDigits(s) && 0 <= d < 10
    ensures AllDigits(s + [Digit(d)]) && DigitsValue(s + [Digit(d)]) == 10 * DigitsValue(s) + d
  {
    hide Digit;
    DigitFacts(d);
    assert (s + [Digit(d)])[..|s|] == s;
  }

  lemma OctetDecimal(b: Byte)
    ensures IsDecimal(PrintOctet(b), b)
  {
    hide Digit, DigitsValue, DigitValue;
    OctetDigits(b);
    EmptyIsZero();
    if b < 10 {
      DigitsAppend("", b);
      assert "" + [Digit(b)] == PrintOctet(b);
    } else if b < 100 {
      DigitFacts(b / 10);
      DigitsAppend("", b / 10);
      var one := "" + [Digit(b / 10)];
      DigitsAppend(one, b % 10);
      assert one + [Digit(b % 10)] == PrintOctet(b);
    } else {
      DigitFacts(b / 100);
      DigitsAppend("", b / 100);
      var one := "" + [Digit(b / 100)];
      DigitsAppend(one, b / 10 % 10);
      var two := one + [Digit(b / 10 % 10)];
      DigitsAppend(two, b % 10);
      assert two + [Digit(b % 10)] == PrintOctet(b);
    }
  }

  lemma EmptyIsZero()
    ensures AllDigits("") && DigitsValue("") == 0
  {
  }

  /** The printed form is four fields between dots, one byte each from left to right: its decimal
      digits without a leading zero. */
  lemma PrintedFields(ip: IP)
    ensures Split(Print(ip), '.') == [PrintOctet(ip.b0), PrintOctet(ip.b1), PrintOctet(ip.b2), PrintOctet(ip.b3)]
    ensures forall b: Byte :: IsDecimal(PrintOctet(b), b)
  {
    OctetRoundTrip(ip.b0);
    OctetRoundTrip(ip.b1);
    OctetRoundTrip(ip.b2);
    OctetRoundTrip(ip.b3);
    SplitJoin([PrintOctet(ip.b0), PrintOctet(ip.b1), PrintOctet(ip.b2), PrintOctet(ip.b3)], '.');
    forall b: Byte
      ensures IsDecimal(PrintOctet(b), b)
    {
      OctetDecimal(b);
    }
  }

  lemma PrintInjective(x: IP, y: IP)
    requires Print(x) == Print(y)
    ensures x == y
  {
    PrintThenParse(x);
    PrintThenParse(y);
  }
}
