/** The parser of client packets against packets put together from their parts, and its forbidden
    destinations against a list of prefixes. */
module ClientPackets {
  import opened Bytes
  import opened TunRewrite
  import opened Reply
  import opened PrefixSet
  import RewriteTheorems

  // --- Forbidden destinations ---

  function Number(ip: Ipv4): u32 {
    Word(ip.a, ip.b) * 0x1_0000 + Word(ip.c, ip.d)
  }

  /** The network a.b.0.0 with this prefix length. */
  datatype Block = Block(a: u8, b: u8, len: nat)

  /** Private use (RFC 1918), loopback and "this network" (RFC 1122), link local (RFC 3927), shared
      address space (RFC 6598), multicast (RFC 5771), reserved and limited broadcast (RFC 1112, 919). */
  const FORBIDDEN: seq<Block> :=
    [Block(10, 0, 8), Block(172, 16, 12), Block(192, 168, 16), Block(127, 0, 8), Block(0, 0, 8),
     Block(169, 254, 16), Block(100, 64, 10), Block(224, 0, 4), Block(240, 0, 4)]

  predicate InBlock(k: Block, ip: Ipv4) {
    0 < k.len <= 32 && Contains(Net(Number(Ipv4(k.a, k.b, 0, 0)), MaskOf(k.len)), Number(ip))
  }

  lemma Sizes()
    ensures Pow2(16) == 0x1_0000 && Pow2(20) == 0x10_0000 && Pow2(22) == 0x40_0000 && Pow2(24) == 0x100_0000
    ensures Pow2(28) == 0x1000_0000
  {
    assert Pow2(8) == 0x100;
    assert Pow2(16) == 0x1_0000;
    assert Pow2(24) == 0x100_0000;
  }

  /** A block whose address has no bits below the mask is an interval. */
  lemma BlockIsInterval(k: Block, ip: Ipv4)
    requires 0 < k.len <= 16 && Number(Ipv4(k.a, k.b, 0, 0)) % Pow2(32 - k.len) == 0
    ensures var base := Number(Ipv4(k.a, k.b, 0, 0)); InBlock(k, ip) <==> base <= Number(ip) < base + Pow2(32 - k.len)
  {
    hide Pow2;
    PrefixIsInterval(Net(Number(Ipv4(k.a, k.b, 0, 0)), MaskOf(k.len)), Number(ip));
  }

  /** Blocks of a power of two of /8 networks, and of /16 networks inside one /8. */
  lemma WideBlock(k: Block, span: nat, ip: Ipv4)
    requires 0 < k.len <= 8 && k.b == 0 && Pow2(32 - k.len) == span * 0x100_0000
    requires Number(Ipv4(k.a, 0, 0, 0)) % Pow2(32 - k.len) == 0
    ensures InBlock(k, ip) <==> k.a <= ip.a < k.a + span
  {
    hide Pow2, InBlock;
    BlockIsInterval(k, ip);
  }

  lemma NarrowInterval(a: nat, b: nat, span: nat, x: nat, y: nat, z: nat)
    requires b + span <= 256 && y < 256 && z < 0x1_0000
    ensures var base, n := a * 0x100_0000 + b * 0x1_0000, x * 0x100_0000 + y * 0x1_0000 + z;
            base <= n < base + span * 0x1_0000 <==> x == a && b <= y < b + span
  {
    if x < a {
      assert (x + 1) * 0x100_0000 <= a * 0x100_0000;
    } else if a < x {
      assert (a + 1) * 0x100_0000 <= x * 0x100_0000;
    }
  }

  lemma NarrowBlock(k: Block, span: nat, ip: Ipv4)
    requires 8 < k.len <= 16 && k.b + span <= 256 && Pow2(32 - k.len) == span * 0x1_0000
    requires Number(Ipv4(k.a, k.b, 0, 0)) % Pow2(32 - k.len) == 0
    ensures InBlock(k, ip) <==> ip.a == k.a && k.b <= ip.b < k.b + span
  {
    hide Pow2, InBlock;
    BlockIsInterval(k, ip);
    NarrowInterval(k.a, k.b, span, ip.a, ip.b, Word(ip.c, ip.d));
  }

  lemma OneWide(a: u8, ip: Ipv4)
    ensures InBlock(Block(a, 0, 8), ip) <==> ip.a == a
  {
    hide InBlock, Pow2;
    Sizes();
    Multiple(a, 0x100_0000, 0);
    WideBlock(Block(a, 0, 8), 1, ip);
  }

  lemma SixteenWide(a: u8, ip: Ipv4)
    requires a % 16 == 0
    ensures InBlock(Block(a, 0, 4), ip) <==> a <= ip.a < a + 16
  {
    hide InBlock, Pow2;
    Sizes();
    Multiple(a / 16, 0x1000_0000, 0);
    WideBlock(Block(a, 0, 4), 16, ip);
  }

  lemma NarrowBlocks(ip: Ipv4)
    ensures InBlock(Block(172, 16, 12), ip) <==> ip.a == 172 && 16 <= ip.b < 32
    ensures InBlock(Block(192, 168, 16), ip) <==> ip.a == 192 && ip.b == 168
    ensures InBlock(Block(169, 254, 16), ip) <==> ip.a == 169 && ip.b == 254
    ensures InBlock(Block(100, 64, 10), ip) <==> ip.a == 100 && 64 <= ip.b < 128
  {
    hide InBlock, Pow2;
    Sizes();
    NarrowBlock(Block(172, 16, 12), 16, ip);
    NarrowBlock(Block(192, 168, 16), 1, ip);
    NarrowBlock(Block(169, 254, 16), 1, ip);
    NarrowBlock(Block(100, 64, 10), 64, ip);
  }

  /** Exactly the addresses of these prefixes are refused. */
  lemma ForbiddenIsListed(ip: Ipv4)
    ensures IsForbiddenDst(ip) <==> exists i :: 0 <= i < |FORBIDDEN| && InBlock(FORBIDDEN[i], ip)
  {
    hide InBlock;
    OneWide(10, ip);
    OneWide(127, ip);
    OneWide(0, ip);
    SixteenWide(224, ip);
    SixteenWide(240, ip);
    NarrowBlocks(ip);
    assert IsForbiddenDst(ip) ==>
             || InBlock(FORBIDDEN[0], ip) || InBlock(FORBIDDEN[1], ip) || InBlock(FORBIDDEN[2], ip)
             || InBlock(FORBIDDEN[3], ip) || InBlock(FORBIDDEN[4], ip) || InBlock(FORBIDDEN[5], ip)
             || InBlock(FORBIDDEN[6], ip) || InBlock(FORBIDDEN[7], ip) || InBlock(FORBIDDEN[8], ip);
  }

  // --- Packets put together ---

  /** The fields of an IPv4 header beside its lengths and protocol. */
  datatype Outer = Outer(tos: u8, ident: u16, flags: u16, ttl: u8, check: u16, src: Ipv4, dst: Ipv4, options: seq<u8>)

  predicate OptionsFit(o: Outer) {
    |o.options| % 4 == 0 && |o.options| <= 40
  }

  function IpPacket(o: Outer, proto: u8, body: seq<u8>): (p: seq<u8>)
    requires OptionsFit(o) && 20 + |o.options| + |body| <= 0xFFFF
    ensures |p| == 20 + |o.options| + |body|
  {
    [0x45 + |o.options| / 4, o.tos] + Port(20 + |o.options| + |body|) + Port(o.ident) + Port(o.flags)
    + [o.ttl, proto] + Port(o.check) + Octets(o.src) + Octets(o.dst) + o.options + body
  }

  lemma IpPacketFields(o: Outer, proto: u8, body: seq<u8>)
    requires OptionsFit(o) && 20 + |o.options| + |body| <= 0xFFFF
    ensures var p := IpPacket(o, proto, body);
            && p[0] / 16 == 4 && HeaderLen(p) == 20 + |o.options| && TotalLen(p) == |p|
            && p[1] == o.tos && FragmentBits(p) == o.flags && p[9] == proto
            && AddressAt(p, 12) == o.src && AddressAt(p, 16) == o.dst && p[20 + |o.options|..] == body
  {
  }

  function UdpBody(sport: u16, dport: u16, check: u16, payload: seq<u8>, pad: seq<u8>): seq<u8>
    requires 8 + |payload| <= 0xFFFF
  {
    Port(sport) + Port(dport) + Port(8 + |payload|) + Port(check) + payload + pad
  }

  /** What is beyond the packet's own length does not count, and the rest goes by fragment and protocol. */
  lemma Dispatched(o: Outer, proto: u8, body: seq<u8>, trailing: seq<u8>, permits: Permits)
    requires OptionsFit(o) && 20 + |o.options| + |body| <= 0xFFFF
    ensures var p, hl := IpPacket(o, proto, body), 20 + |o.options|;
            Parse(p + trailing, permits) ==
              if o.flags % 0x4000 != 0 then ParsedFragment(p, hl, permits)
              else if proto == 17 then ParsedUdp(p, hl, permits)
              else if proto == 6 then ParsedTcp(p, hl, permits)
              else None
  {
    hide IpPacket, ParsedFragment, ParsedUdp, ParsedTcp, Word, AddressAt;
    var p := IpPacket(o, proto, body);
    IpPacketFields(o, proto, body);
    assert (p + trailing)[..|p|] == p;
    RewriteTheorems.LowBits(o.flags);
  }

  predicate Refused(proto: u8, dst: Ipv4, port: Option<u16>, permits: Permits) {
    IsForbiddenDst(dst) || (proto == 17 && port.Some? && IsForbiddenPort(port.value)) || !permits(proto, dst, port)
  }

  /** A UDP packet, with any options, bytes after the datagram and bytes after the packet: what is taken
      from it is the payload, and the fields as they were put in. */
  lemma UdpPacketParses(o: Outer, sport: u16, dport: u16, check: u16, payload: seq<u8>, pad: seq<u8>,
                        trailing: seq<u8>, permits: Permits)
    requires OptionsFit(o) && 28 + |o.options| + |payload| + |pad| <= 0xFFFF && o.flags % 0x4000 == 0
    ensures Parse(IpPacket(o, 17, UdpBody(sport, dport, check, payload, pad)) + trailing, permits) == Some(
              if Refused(17, o.dst, Some(dport), permits) then ForbiddenDst
              else Udp(o.dst, dport, payload, Original(o.tos, o.src, sport, o.dst, dport)))
  {
    hide IpPacket, UdpBody, IsForbiddenDst, IsForbiddenPort, Parse, AddressAt, Word, Port;
    UdpBodyFields(sport, dport, check, payload, pad);
    var body := UdpBody(sport, dport, check, payload, pad);
    var p, hl := IpPacket(o, 17, body), 20 + |o.options|;
    IpPacketFields(o, 17, body);
    Dispatched(o, 17, body, trailing, permits);
    assert forall k :: 0 <= k < |body| ==> p[hl + k] == p[hl..][k] == body[k];
    assert p[hl + 8..hl + 8 + |payload|] == body[8..8 + |payload|];
  }

  lemma UdpBodyFields(sport: u16, dport: u16, check: u16, payload: seq<u8>, pad: seq<u8>)
    requires 8 + |payload| <= 0xFFFF
    ensures var b := UdpBody(sport, dport, check, payload, pad);
            && |b| == 8 + |payload| + |pad| && b[8..8 + |payload|] == payload
            && Word(b[0], b[1]) == sport && Word(b[2], b[3]) == dport && Word(b[4], b[5]) == 8 + |payload|
  {
  }

  /** A TCP packet is taken whole, if its header fits. */
  lemma TcpPacketParses(o: Outer, body: seq<u8>, trailing: seq<u8>, permits: Permits)
    requires OptionsFit(o) && 20 + |o.options| + |body| <= 0xFFFF && o.flags % 0x4000 == 0
    ensures var p := IpPacket(o, 6, body);
            Parse(p + trailing, permits) ==
              if |body| < 20 || body[12] / 16 < 5 || body[12] / 16 * 4 > |body| then None
              else if Refused(6, o.dst, Some(Word(body[2], body[3])), permits) then Some(ForbiddenDst)
              else Some(Tcp(Original(o.tos, o.src, Word(body[0], body[1]), o.dst, Word(body[2], body[3])), p))
  {
    hide IpPacket, IsForbiddenDst, IsForbiddenPort, Parse, AddressAt, Word;
    var p, hl := IpPacket(o, 6, body), 20 + |o.options|;
    IpPacketFields(o, 6, body);
    Dispatched(o, 6, body, trailing, permits);
    assert forall k :: 0 <= k < |body| ==> p[hl + k] == p[hl..][k] == body[k];
  }

  /** A fragment of any protocol is taken whole; only the first one of TCP or UDP has a port to check. */
  lemma FragmentParses(o: Outer, proto: u8, body: seq<u8>, trailing: seq<u8>, permits: Permits)
    requires OptionsFit(o) && 20 + |o.options| + |body| <= 0xFFFF && o.flags % 0x4000 != 0
    ensures var p, first := IpPacket(o, proto, body), o.flags % 0x2000 == 0 && (proto == 6 || proto == 17);
            Parse(p + trailing, permits) ==
              if first && |body| < 4 then None
              else if Refused(proto, o.dst, if first then Some(Word(body[2], body[3])) else None, permits)
                then Some(ForbiddenDst)
              else Some(Fragment(proto, o.src, p))
  {
    hide IpPacket, IsForbiddenDst, IsForbiddenPort, Parse, AddressAt, Word;
    var p, hl := IpPacket(o, proto, body), 20 + |o.options|;
    IpPacketFields(o, proto, body);
    Dispatched(o, proto, body, trailing, permits);
    assert forall k :: 0 <= k < |body| ==> p[hl + k] == p[hl..][k] == body[k];
  }

  /** An unfragmented packet of any other protocol is not taken. */
  lemma OtherProtocolsDoNotParse(o: Outer, proto: u8, body: seq<u8>, trailing: seq<u8>, permits: Permits)
    requires OptionsFit(o) && 20 + |o.options| + |body| <= 0xFFFF && o.flags % 0x4000 == 0 && proto != 6 && proto != 17
    ensures Parse(IpPacket(o, proto, body) + trailing, permits) == None
  {
    Dispatched(o, proto, body, trailing, permits);
  }

  /** Nothing else is taken: what parses is an IPv4 packet whose lengths fit, and, unless it is a
      fragment, UDP or TCP with a header that fits. */
  lemma ParsedIsWellFormed(p: seq<u8>, permits: Permits)
    requires Parse(p, permits).Some?
    ensures |p| >= 20 && p[0] / 16 == 4
    ensures var hl, total: nat := p[0] % 16 * 4, Word(p[2], p[3]);
            && 20 <= hl <= total <= |p|
            && (Word(p[6], p[7]) % 0x4000 == 0 ==>
                  || (p[9] == 17 && hl + 8 <= total && 8 <= Word(p[hl + 4], p[hl + 5]) <= total - hl)
                  || (p[9] == 6 && hl + 20 <= total && 20 <= p[hl + 12] / 16 * 4 <= total - hl))
  {
    hide ParsedFragment, ParsedUdp, ParsedTcp, Word;
    var hl, total: nat := p[0] % 16 * 4, Word(p[2], p[3]);
    RewriteTheorems.LowBits(Word(p[6], p[7]));
    var q := p[..total];
    UdpFits(q, hl, permits);
    TcpFits(q, hl, permits);
  }

  lemma UdpFits(p: seq<u8>, hl: nat, permits: Permits)
    requires 20 <= hl <= |p|
    ensures ParsedUdp(p, hl, permits).Some? ==> hl + 8 <= |p| && 8 <= Word(p[hl + 4], p[hl + 5]) <= |p| - hl
  {
    hide IsForbiddenDst, IsForbiddenPort, AddressAt, Word;
  }

  lemma TcpFits(p: seq<u8>, hl: nat, permits: Permits)
    requires 20 <= hl <= |p|
    ensures ParsedTcp(p, hl, permits).Some? ==> hl + 20 <= |p| && 20 <= p[hl + 12] / 16 * 4 <= |p| - hl
  {
    hide IsForbiddenDst, IsForbiddenPort, AddressAt, Word;
  }
}
