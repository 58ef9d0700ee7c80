/** The address plan of src/jail/linux/mod.rs: every jail gets a /30 block of 10.99.0.0/16. */
module Subnet {
  import opened Wrappers
  import Decimal

  const BLOCKS: nat := 16384

  type Octet = n: int | 0 <= n < 256

  datatype Ip = Ip(a: Octet, b: Octet, c: Octet, d: Octet)

  datatype Plan = Plan(network: Ip, host: Ip, guest: Ip, hostCidr: string, guestCidr: string, subnetCidr: string)

  /** `u8::saturating_add`. */
  function SaturatingAdd(x: Octet, n: nat): Octet {
    if x + n > 255 then 255 else x + n
  }

  /** `(x >> 8) & 0xFF` and `x & 0xFF`. */
  function HighByte(x: nat): Octet {
    x / 256 % 256
  }

  function LowByte(x: nat): Octet {
    x % 256
  }

  function Dotted(n: nat, rest: string): string {
    Decimal.Show(n) + "." + rest
  }

  function FormatIp(ip: Ip): string {
    Dotted(ip.a, Dotted(ip.b, Dotted(ip.c, Decimal.Show(ip.d))))
  }

  /** `compute_subnet_for_jail` after hashing the id to any u64. */
  function ComputeSubnet(hash: nat): Plan {
    var base := hash % BLOCKS * 4;
    var network := Ip(10, 99, HighByte(base), LowByte(base));
    var host := network.(d := SaturatingAdd(network.d, 1));
    var guest := network.(d := SaturatingAdd(network.d, 2));
    Plan(network, host, guest, FormatIp(host) + "/30", FormatIp(guest) + "/30", FormatIp(network) + "/30")
  }

  // ----- arithmetic meaning

  /** The address as a 32-bit number. */
  function Number(ip: Ip): nat {
    ((ip.a * 256 + ip.b) * 256 + ip.c) * 256 + ip.d
  }

  const BASE: nat := (10 * 256 + 99) * 65536

  /** The four addresses of a /30 block; the outer two are its network and broadcast addresses. */
  predicate InBlock(index: nat, address: nat) {
    BASE + 4 * index <= address < BASE + 4 * index + 4
  }

  /** Hash values map onto the blocks of the /16: the block is that of the hash modulo 16384, its
      network address is the first, host and guest are its two usable ones, and the saturating sums
      never saturate. */
  lemma PlanIsBlock(hash: nat)
    ensures var p := ComputeSubnet(hash);
            var index := hash % BLOCKS;
            && Number(p.network) == BASE + 4 * index
            && Number(p.host) == BASE + 4 * index + 1
            && Number(p.guest) == BASE + 4 * index + 2
            && BASE <= Number(p.network) < BASE + 65536
  {
    var base := hash % BLOCKS * 4;
    assert base < 65536;
    assert base / 256 < 256;
    assert base == base / 256 * 256 + base % 256;
    assert base % 256 % 4 == 0;
    assert base % 256 <= 252;
  }

  /** The blocks begin and end where 10.99.0.0/16 does. */
  lemma FirstAndLastBlock()
    ensures BASE == Number(Ip(10, 99, 0, 0)) && BASE + 4 * (BLOCKS - 1) + 3 == Number(Ip(10, 99, 255, 255))
  {
  }

  /** Every block is the block of some hash. */
  lemma EveryBlockIsUsed(address: nat)
    requires BASE <= address < BASE + 65536
    ensures var index := (address - BASE) / 4;
            && index < BLOCKS && InBlock(index, address)
            && Number(ComputeSubnet(index).network) == BASE + 4 * index
  {
    var index := (address - BASE) / 4;
    assert index % BLOCKS == index;
    PlanIsBlock(index);
  }

  /** Two hashes share a block exactly when they agree modulo 16384; otherwise the blocks are disjoint. */
  lemma BlocksDisjointIff(h: nat, k: nat)
    ensures h % BLOCKS != k % BLOCKS <==>
            !exists address :: InBlock(h % BLOCKS, address) && InBlock(k % BLOCKS, address)
  {
    if h % BLOCKS == k % BLOCKS {
      assert InBlock(h % BLOCKS, BASE + 4 * (h % BLOCKS)) && InBlock(k % BLOCKS, BASE + 4 * (h % BLOCKS));
    }
  }

  // ----- texts

  /** What stands before the first `sep`, and behind it. */
  function Before(s: string, sep: char): string {
    if s == [] || s[0] == sep then [] else [s[0]] + Before(s[1..], sep)
  }

  function Behind(s: string, sep: char): string {
    if s == [] then [] else if s[0] == sep then s[1..] else Behind(s[1..], sep)
  }

  function ReadOctet(s: string): Option<Octet> {
    if s != [] && Decimal.AllDigits(s) && Decimal.Read(s) < 256 then Some(Decimal.Read(s)) else None
  }

  /** Four decimal octets with dots between them, a slash, and the decimal length of the prefix. */
  function ReadCidr(s: string): Option<(Ip, nat)> {
    var r1 := Behind(s, '.');
    var r2 := Behind(r1, '.');
    var r3 := Behind(r2, '.');
    var prefix := Behind(r3, '/');
    match (ReadOctet(Before(s, '.')), ReadOctet(Before(r1, '.')), ReadOctet(Before(r2, '.')),
           ReadOctet(Before(r3, '/')))
    case (Some(a), Some(b), Some(c), Some(d)) =>
      if prefix != [] && Decimal.AllDigits(prefix) then Some((Ip(a, b, c, d), Decimal.Read(prefix))) else None
    case _ => None
  }

  lemma {:induction false} SplitsAt(x: string, sep: char, rest: string)
    requires sep !in x
    ensures Before(x + [sep] + rest, sep) == x && Behind(x + [sep] + rest, sep) == rest
    decreases |x|
  {
    if x != [] {
      SplitsAt(x[1..], sep, rest);
      assert (x + [sep] + rest)[1..] == x[1..] + [sep] + rest;
      assert [x[0]] + x[1..] == x;
    } else {
      assert x + [sep] + rest == [sep] + rest;
    }
  }

  lemma OctetIsRead(n: Octet, sep: char, rest: string)
    requires sep == '.' || sep == '/'
    ensures ReadOctet(Before(Decimal.Show(n) + [sep] + rest, sep)) == Some(n)
    ensures Behind(Decimal.Show(n) + [sep] + rest, sep) == rest
  {
    assert sep !in Decimal.Show(n) by {
      assert !Decimal.IsDigit(sep);
    }
    SplitsAt(Decimal.Show(n), sep, rest);
    Decimal.ReadShow(n);
  }

  lemma PrefixLengthIsRead()
    ensures Decimal.AllDigits("30") && Decimal.Read("30") == 30
  {
    assert "30"[..1] == "3" && "3"[..0] == [];
    assert Decimal.Read("3") == 3;
  }

  lemma CidrText(ip: Ip)
    ensures FormatIp(ip) + "/30" ==
            Decimal.Show(ip.a) + "." +
            (Decimal.Show(ip.b) + "." + (Decimal.Show(ip.c) + "." + (Decimal.Show(ip.d) + "/" + "30")))
  {
    var c := Dotted(ip.c, Decimal.Show(ip.d));
    var b := Dotted(ip.b, c);
    assert c + "/30" == Decimal.Show(ip.c) + "." + (Decimal.Show(ip.d) + "/" + "30");
    assert b + "/30" == Decimal.Show(ip.b) + "." + (c + "/30");
    assert FormatIp(ip) + "/30" == Decimal.Show(ip.a) + "." + (b + "/30");
  }

  /** A formatted address with its prefix length reads back as both, octet by octet. */
  lemma CidrReadsBack(ip: Ip)
    ensures ReadCidr(FormatIp(ip) + "/30") == Some((ip, 30))
  {
    var d := Decimal.Show(ip.d) + "/" + "30";
    var c := Decimal.Show(ip.c) + "." + d;
    var b := Decimal.Show(ip.b) + "." + c;
    var a := Decimal.Show(ip.a) + "." + b;
    OctetIsRead(ip.d, '/', "30");
    OctetIsRead(ip.c, '.', d);
    OctetIsRead(ip.b, '.', c);
    OctetIsRead(ip.a, '.', b);
    PrefixLengthIsRead();
    CidrText(ip);
  }

  /** Host, guest and subnet are given to the tools as exactly their addresses, each with a /30 prefix. */
  lemma PlanTexts(hash: nat)
    ensures var p := ComputeSubnet(hash);
            && ReadCidr(p.hostCidr) == Some((p.host, 30))
            && ReadCidr(p.guestCidr) == Some((p.guest, 30))
            && ReadCidr(p.subnetCidr) == Some((p.network, 30))
  {
    var p := ComputeSubnet(hash);
    CidrReadsBack(p.host);
    CidrReadsBack(p.guest);
    CidrReadsBack(p.network);
  }

  /** Formatting loses nothing. */
  lemma FormatIpInjective(x: Ip, y: Ip)
    requires FormatIp(x) == FormatIp(y)
    ensures x == y
  {
    CidrReadsBack(x);
    CidrReadsBack(y);
  }

  /** Jails are given the same subnet text exactly when their hashes agree modulo 16384. */
  lemma SameSubnetIff(h: nat, k: nat)
    ensures ComputeSubnet(h).subnetCidr == ComputeSubnet(k).subnetCidr <==> h % BLOCKS == k % BLOCKS
  {
    PlanTexts(h);
    PlanTexts(k);
    PlanIsBlock(h);
    PlanIsBlock(k);
  }
}
