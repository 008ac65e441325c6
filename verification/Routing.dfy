/** The pool of virtual addresses (class IpPool of src/routing.py). Addresses are their
    numbers; Dotted is the text the source keeps in their place. */
module Routing {
  import opened Bytes

  type Ip = int

  /** A peer's network address, which also names the client in the pool. */
  datatype Addr = Addr(host: string, port: nat)

  /** The three collections of a pool. */
  datatype Pool = Pool(available: set<Ip>, byClient: map<Addr, Ip>, byIp: map<Ip, Addr>)

  /** range(start, end + 1) */
  function Range(first: Ip, last: Ip): (ips: set<Ip>)
    ensures forall ip :: ip in ips <==> first <= ip <= last
    decreases last - first
  {
    if last < first then {} else Range(first, last - 1) + {last}
  }

  function FullPool(first: Ip, last: Ip): Pool {
    Pool(Range(first, last), map[], map[])
  }

  // ---- The range of a pool ----

  /** IPv4Network: the network's own address and its broadcast address. */
  datatype Network = Network(address: Ip, broadcast: Ip)

  /** The server takes the first address after the network's own. */
  function ServerIp(net: Network): Ip {
    net.address + 1
  }

  /** The configured range, or else all addresses after the server's and before broadcast. */
  function PoolRange(net: Network, configured: Option<(Ip, Ip)>): (Ip, Ip) {
    match configured
    case Some(range) => range
    case None => (net.address + 2, net.broadcast - 1)
  }

  /** The pool can give away the server's own address exactly if a configured range has it;
      the default range has neither that nor the network's or the broadcast address. */
  lemma PoolSparesServer(net: Network, configured: Option<(Ip, Ip)>)
    ensures var (first, last) := PoolRange(net, configured);
      && (ServerIp(net) in Range(first, last) <==>
            configured.Some? && configured.value.0 <= ServerIp(net) <= configured.value.1)
      && (configured == None ==> net.address !in Range(first, last) && net.broadcast !in Range(first, last))
  {
  }

  /** By default the server has the network's first host address and the pool all others. */
  lemma DefaultRangeExact(net: Network, ip: Ip)
    requires net.address + 1 < net.broadcast
    ensures var (first, last) := PoolRange(net, None);
      && (ip == ServerIp(net) || ip in Range(first, last) <==> net.address < ip < net.broadcast)
      && (net.address < ip < net.broadcast ==> ServerIp(net) <= ip)
      && ServerIp(net) !in Range(first, last)
  {
  }

  // ---- Addresses as text ----

  const DOT: byte := 46

  /** str of a number below 256 */
  function Decimal(n: byte): bytes {
    if n < 10 then [48 + n]
    else if n < 100 then [48 + n / 10, 48 + n % 10]
    else [48 + n / 100, 48 + n / 10 % 10, 48 + n % 10]
  }

  predicate IsAddress(ip: Ip) {
    0 <= ip < 0x1_0000_0000
  }

  /** str(IPv4Address(ip)) */
  function Dotted(ip: Ip): bytes {
    Decimal(ip / 256 / 256 / 256 % 256) + [DOT] + Decimal(ip / 256 / 256 % 256) + [DOT]
    + Decimal(ip / 256 % 256) + [DOT] + Decimal(ip % 256)
  }

  /** What a reader knows after a prefix of an address: the dots so far, the number before the
      last of them, and the number since. */
  datatype Reader = Reader(dots: nat, before: int, octet: int)

  /** Reading digits and dots, most significant first; None at any other character. */
  function ReadText(text: bytes): Option<Reader> {
    if text == [] then Some(Reader(0, 0, 0))
    else
      var c := text[|text| - 1];
      match ReadText(text[..|text| - 1])
      case None => None
      case Some(r) =>
        if c == DOT then Some(Reader(r.dots + 1, 256 * r.before + r.octet, 0))
        else if 48 <= c <= 57 then Some(r.(octet := 10 * r.octet + (c - 48)))
        else None
  }

  /** The address that four decimal numbers separated by dots stand for. */
  function AddressIn(text: bytes): Option<Ip> {
    match ReadText(text)
    case Some(Reader(dots, before, octet)) => if dots == 3 then Some(256 * before + octet) else None
    case None => None
  }

  lemma {:induction false} ReadDigit(text: bytes, r: Reader, d: int)
    requires ReadText(text) == Some(r) && 0 <= d < 10
    ensures ReadText(text + [48 + d]) == Some(r.(octet := 10 * r.octet + d))
  {
    assert (text + [48 + d])[..|text|] == text;
  }

  lemma {:induction false} ReadDot(text: bytes, r: Reader)
    requires ReadText(text) == Some(r)
    ensures ReadText(text + [DOT]) == Some(Reader(r.dots + 1, 256 * r.before + r.octet, 0))
  {
    assert (text + [DOT])[..|text|] == text;
  }

  lemma {:induction false} ReadTwo(text: bytes, r: Reader, t: int, u: int)
    requires ReadText(text) == Some(r) && 0 <= t < 10 && 0 <= u < 10
    ensures ReadText(text + [48 + t, 48 + u]) == Some(r.(octet := 10 * (10 * r.octet + t) + u))
  {
    ReadDigit(text, r, t);
    ReadDigit(text + [48 + t], r.(octet := 10 * r.octet + t), u);
    assert text + [48 + t, 48 + u] == text + [48 + t] + [48 + u];
  }

  lemma {:induction false} ReadThree(text: bytes, r: Reader, h: int, t: int, u: int)
    requires ReadText(text) == Some(r) && 0 <= h < 10 && 0 <= t < 10 && 0 <= u < 10
    ensures ReadText(text + [48 + h, 48 + t, 48 + u]) == Some(r.(octet := 10 * (10 * (10 * r.octet + h) + t) + u))
  {
    ReadDigit(text, r, h);
    ReadTwo(text + [48 + h], r.(octet := 10 * r.octet + h), t, u);
    assert text + [48 + h, 48 + t, 48 + u] == text + [48 + h] + [48 + t, 48 + u];
  }

  lemma DecimalDigits(n: byte) returns (h: int, t: int, u: int)
    ensures 0 <= h < 10 && 0 <= t < 10 && 0 <= u < 10 && n == 10 * (10 * h + t) + u
    ensures Decimal(n) == if n < 10 then [48 + u] else if n < 100 then [48 + t, 48 + u] else [48 + h, 48 + t, 48 + u]
    ensures (n < 100 ==> h == 0) && (n < 10 ==> t == 0)
  {
    h, t, u := n / 100, n / 10 % 10, n % 10;
  }

  lemma {:induction false} ReadDecimal(text: bytes, r: Reader, n: byte)
    requires ReadText(text) == Some(r) && r.octet == 0
    ensures ReadText(text + Decimal(n)) == Some(r.(octet := n))
  {
    var h, t, u := DecimalDigits(n);
    if n < 10 {
      ReadDigit(text, r, u);
    } else if n < 100 {
      ReadTwo(text, r, t, u);
    } else {
      ReadThree(text, r, h, t, u);
    }
  }

  lemma {:induction false} ReadOctet(text: bytes, r: Reader, n: byte)
    requires ReadText(text) == Some(r) && r.octet == 0
    ensures ReadText(text + Decimal(n) + [DOT]) == Some(Reader(r.dots + 1, 256 * r.before + n, 0))
  {
    ReadDecimal(text, r, n);
    ReadDot(text + Decimal(n), r.(octet := n));
  }

  lemma {:induction false} ReadFirst(n: byte)
    ensures ReadText(Decimal(n) + [DOT]) == Some(Reader(1, n, 0))
  {
    ReadOctet([], Reader(0, 0, 0), n);
    assert [] + Decimal(n) == Decimal(n);
  }

  lemma {:induction false} ReadQuad(a: byte, b: byte, c: byte, d: byte)
    ensures ReadText(Decimal(a) + [DOT] + Decimal(b) + [DOT] + Decimal(c) + [DOT] + Decimal(d))
      == Some(Reader(3, 256 * (256 * a + b) + c, d))
  {
    ReadFirst(a);
    var s1 := Decimal(a) + [DOT];
    ReadOctet(s1, Reader(1, a, 0), b);
    var s2 := s1 + Decimal(b) + [DOT];
    ReadOctet(s2, Reader(2, 256 * a + b, 0), c);
    ReadDecimal(s2 + Decimal(c) + [DOT], Reader(3, 256 * (256 * a + b) + c, 0), d);
  }

  lemma OctetsMakeAddress(ip: Ip)
    requires IsAddress(ip)
    ensures 256 * (256 * (256 * (ip / 256 / 256 / 256 % 256) + ip / 256 / 256 % 256) + ip / 256 % 256) + ip % 256 == ip
  {
    var i1 := ip / 256;
    var i2 := i1 / 256;
    assert 0 <= i2 / 256 < 256;
  }

  /** The text of an address, read back, is the address. */
  lemma DottedReads(ip: Ip)
    ensures ReadText(Dotted(ip)).Some?
    ensures IsAddress(ip) ==> AddressIn(Dotted(ip)) == Some(ip)
  {
    ReadQuad(ip / 256 / 256 / 256 % 256, ip / 256 / 256 % 256, ip / 256 % 256, ip % 256);
    if IsAddress(ip) {
      OctetsMakeAddress(ip);
    }
  }

  /** So different addresses have different texts, and an address can stand for its text. */
  lemma DottedDistinct(a: Ip, b: Ip)
    requires IsAddress(a) && IsAddress(b) && Dotted(a) == Dotted(b)
    ensures a == b
  {
    DottedReads(a);
    DottedReads(b);
  }

  // ---- Allocation ----

  ghost predicate IsLeast(ip: Ip, ips: set<Ip>) {
    ip in ips && forall other :: other in ips ==> ip <= other
  }

  lemma {:induction false} LeastExists(ips: set<Ip>) returns (least: Ip)
    requires ips != {}
    ensures IsLeast(least, ips)
  {
    var ip := AnElement(ips);
    if ips - {ip} == {} {
      assert ips == {ip};
      least := ip;
    } else {
      var rest := LeastExists(ips - {ip});
      least := if rest < ip then rest else ip;
      forall other | other in ips
        ensures least <= other
      {
        assert other == ip || other in ips - {ip};
      }
    }
  }

  /** min(ips) */
  ghost function Least(ips: set<Ip>): (least: Ip)
    requires ips != {}
    ensures IsLeast(least, ips)
  {
    assert exists ip :: IsLeast(ip, ips) by {
      var ip := LeastExists(ips);
    }
    var least :| IsLeast(least, ips);
    least
  }

  lemma LeastOfRange(first: Ip, last: Ip)
    requires first <= last
    ensures first in Range(first, last) && Least(Range(first, last)) == first
  {
    assert first in Range(first, last);
  }

  ghost function AllocateIn(p: Pool, id: Addr): (Pool, Option<Ip>) {
    if p.available == {} then (p, None)
    else
      var ip := Least(p.available);
      (Pool(p.available - {ip}, p.byClient[id := ip], p.byIp[ip := id]), Some(ip))
  }

  function ReleaseIn(p: Pool, id: Addr): Pool {
    if id !in p.byClient then p
    else
      var ip := p.byClient[id];
      Pool(p.available + {ip}, p.byClient - {id}, p.byIp - {ip})
  }

  /** The two directions agree, and free and allocated addresses make up the range. */
  ghost predicate PoolOk(p: Pool, range: set<Ip>) {
    && (forall id :: id in p.byClient ==> p.byClient[id] in p.byIp && p.byIp[p.byClient[id]] == id)
    && (forall ip :: ip in p.byIp ==> p.byIp[ip] in p.byClient && p.byClient[p.byIp[ip]] == ip)
    && p.available + p.byIp.Keys == range
    && p.available !! p.byIp.Keys
  }

  lemma FullPoolOk(first: Ip, last: Ip)
    ensures PoolOk(FullPool(first, last), Range(first, last))
  {
    assert FullPool(first, last).byIp.Keys == {};
  }

  /** Releasing always keeps the pool in order. */
  lemma ReleaseKeeps(p: Pool, range: set<Ip>, id: Addr)
    requires PoolOk(p, range)
    ensures PoolOk(ReleaseIn(p, id), range)
  {
    var p' := ReleaseIn(p, id);
    if id in p.byClient {
      var ip := p.byClient[id];
      assert p'.byIp.Keys == p.byIp.Keys - {ip};
      assert p'.byClient.Keys == p.byClient.Keys - {id};
    }
  }

  /** Allocating keeps it in order exactly for a client without an address (or when there is
      nothing to give): a second allocation overwrites the first. */
  lemma AllocateKeepsExactly(p: Pool, range: set<Ip>, id: Addr)
    requires PoolOk(p, range)
    ensures PoolOk(AllocateIn(p, id).0, range) <==> id !in p.byClient || p.available == {}
  {
    if p.available != {} {
      var (p', ip) := AllocateIn(p, id);
      assert p'.byIp.Keys == p.byIp.Keys + {ip.value};
      if id in p.byClient {
        var before := p.byClient[id];
        assert before in p'.byIp && p'.byClient[p'.byIp[before]] != before;
      }
    }
  }

  /** After a second allocation, releasing the client does not give its first address back. */
  lemma SecondAllocationLeaks(p: Pool, range: set<Ip>, id: Addr)
    requires PoolOk(p, range) && id in p.byClient && p.available != {}
    ensures var p' := ReleaseIn(AllocateIn(p, id).0, id);
      p.byClient[id] !in p'.available && p.byClient[id] in p'.byIp && id !in p'.byClient
  {
  }

  /** Nothing is lost: addresses in use and free ones always count up to the range. */
  lemma PoolConserves(p: Pool, range: set<Ip>)
    requires PoolOk(p, range)
    ensures |p.available| + |p.byClient| == |range|
  {
    assert |p.available + p.byIp.Keys| == |p.available| + |p.byIp.Keys|;
    SameSize(p.byClient, p.byIp);
    assert |p.byIp| == |p.byIp.Keys|;
  }

  /** Two maps that are inverse to each other are equally large. */
  lemma {:induction false} SameSize(byClient: map<Addr, Ip>, byIp: map<Ip, Addr>)
    requires forall id :: id in byClient ==> byClient[id] in byIp && byIp[byClient[id]] == id
    requires forall ip :: ip in byIp ==> byIp[ip] in byClient && byClient[byIp[ip]] == ip
    ensures |byClient| == |byIp|
  {
    if byClient.Keys == {} {
      NoKeys(byClient, byIp);
    } else {
      var id := AnElement(byClient.Keys);
      var ip := byClient[id];
      var fewerClients, fewerIps := byClient - {id}, byIp - {ip};
      assert fewerClients.Keys == byClient.Keys - {id} && fewerIps.Keys == byIp.Keys - {ip};
      SameSize(fewerClients, fewerIps);
      assert |byClient| == |byClient.Keys| && |fewerClients| == |fewerClients.Keys|;
      assert |byIp| == |byIp.Keys| && |fewerIps| == |fewerIps.Keys|;
    }
  }

  lemma NoKeys(byClient: map<Addr, Ip>, byIp: map<Ip, Addr>)
    requires byClient.Keys == {}
    requires forall ip :: ip in byIp ==> byIp[ip] in byClient
    ensures |byClient| == |byIp| == 0
  {
    assert |byClient| == |byClient.Keys|;
    if byIp.Keys != {} {
      var ip := AnElement(byIp.Keys);
      assert false;
    }
    assert |byIp| == |byIp.Keys|;
  }

  // ---- The class ----

  class IpPool {
    const serverIp: Ip
    var available: set<Ip>
    var byClient: map<Addr, Ip>
    var byIp: map<Ip, Addr>

    function Value(): Pool
      reads this
    {
      Pool(available, byClient, byIp)
    }

    /** IpPool(subnet, pool_range), the strings parsed. */
    constructor (net: Network, configured: Option<(Ip, Ip)>)
      ensures serverIp == ServerIp(net)
      ensures var (first, last) := PoolRange(net, configured);
        Value() == FullPool(first, last) && PoolOk(Value(), Range(first, last))
    {
      serverIp := net.address + 1;
      var first, last := net.address + 2, net.broadcast - 1;
      if configured.Some? {
        first, last := configured.value.0, configured.value.1;
      }
      available := Range(first, last);
      byClient := map[];
      byIp := map[];
      new;
      FullPoolOk(first, last);
    }

    method Allocate(id: Addr) returns (ip: Option<Ip>)
      modifies this
      ensures (Value(), ip) == AllocateIn(old(Value()), id)
    {
      if available == {} {
        return None;
      }
      var least := LeastOf(available);
      available := available - {least};
      byClient := byClient[id := least];
      byIp := byIp[least := id];
      return Some(least);
    }

    /** Python's min. */
    static method LeastOf(ips: set<Ip>) returns (least: Ip)
      requires ips != {}
      ensures least == Least(ips)
    {
      ghost var some := AnElement(ips);
      least :| least in ips;
      var rest := ips - {least};
      while rest != {}
        invariant rest <= ips && least in ips
        invariant forall ip :: ip in ips && ip !in rest ==> least <= ip
        decreases |rest|
      {
        ghost var other := AnElement(rest);
        var ip :| ip in rest;
        rest := rest - {ip};
        if ip < least {
          least := ip;
        }
      }
    }

    method Release(id: Addr)
      modifies this
      ensures Value() == ReleaseIn(old(Value()), id)
    {
      if id in byClient {
        var ip := byClient[id];
        byClient := byClient - {id};
        byIp := byIp - {ip};
        available := available + {ip};
      }
    }
  }
}
