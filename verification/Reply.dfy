/** Answers to clients: the UDP/IPv4 packet built around a game server's payload, by the v1 builder
    and by the v2 writer into a buffer, and the parser of client packets. */
module Reply {
  import opened Bytes
  import opened OnesComplement
  import opened TunRewrite
  import RewriteTheorems

  const UDP_HEADER_SIZE := 8
  const TCP_HEADER_MIN := 20

  datatype Ipv4 = Ipv4(a: u8, b: u8, c: u8, d: u8)

  function Octets(ip: Ipv4): seq<u8> {
    [ip.a, ip.b, ip.c, ip.d]
  }

  /** What is kept of a client's packet to answer it. */
  datatype Original = Original(tos: u8, srcIp: Ipv4, srcPort: u16, dstIp: Ipv4, dstPort: u16)

  // --- The packet ---

  /** The low 16 bits of a length, as two bytes. */
  function Length(n: nat): seq<u8> {
    [n / 256 % 256, n % 256]
  }

  function Port(p: u16): seq<u8> {
    [p / 256, p % 256]
  }

  /** The IP header, from the game server to the client, its checksum zero. */
  function Header(totalLen: nat, info: Original, tos: u8): (h: seq<u8>)
    ensures |h| == IP_HEADER_MIN
  {
    [0x45, tos] + Length(totalLen) + [0, 0, 0x40, 0, 64, 17, 0, 0] + Octets(info.dstIp) + Octets(info.srcIp)
  }

  function UdpHeader(udpLen: nat, info: Original): (h: seq<u8>)
    ensures |h| == UDP_HEADER_SIZE
  {
    Port(info.dstPort) + Port(info.srcPort) + Length(udpLen) + [0, 0]
  }

  /** A header with its checksum filled in. */
  function Summed(h: seq<u8>): (r: seq<u8>)
    requires |h| == IP_HEADER_MIN
    ensures |r| == |h|
  {
    SetWord(h, 10, Checksum(Sum16(h)))
  }

  /** The whole answer. */
  function Answer(payload: seq<u8>, info: Original, tos: u8): (p: seq<u8>)
    ensures |p| == IP_HEADER_MIN + UDP_HEADER_SIZE + |payload|
  {
    var udpLen := UDP_HEADER_SIZE + |payload|;
    Summed(Header(IP_HEADER_MIN + udpLen, info, tos)) + UdpHeader(udpLen, info) + payload
  }

  /** The v1 builder. */
  method BuildResponse(payload: seq<u8>, info: Original, tos: u8) returns (packet: array<u8>)
    ensures fresh(packet) && packet[..] == Answer(payload, info, tos)
  {
    hide Header, UdpHeader, Summed;
    var udpLen := UDP_HEADER_SIZE + |payload|;
    var totalLen := IP_HEADER_MIN + udpLen;
    packet := new u8[totalLen](_ => 0);
    WriteHeader(packet, totalLen, info, tos);
    WriteChecksum(packet);
    ghost var header := packet[..20];
    WriteUdpHeader(packet, udpLen, info);
    ghost var udp := packet[20..28];
    CopyPayload(packet, payload);
    assert packet[..20] == packet[..28][..20] == header && packet[20..28] == packet[..28][20..28] == udp;
    assert packet[..] == packet[..20] + packet[20..28] + packet[28..totalLen];
  }

  method WriteFour(packet: array<u8>, i: nat, bytes: seq<u8>)
    requires |bytes| == 4 && i + 4 <= packet.Length
    modifies packet
    ensures packet[i..i + 4] == bytes
    ensures packet[..i] == old(packet[..i]) && packet[i + 4..] == old(packet[i + 4..])
  {
    packet[i], packet[i + 1], packet[i + 2], packet[i + 3] := bytes[0], bytes[1], bytes[2], bytes[3];
  }

  method WriteFixedFields(packet: array<u8>, totalLen: nat, tos: u8)
    requires packet.Length >= IP_HEADER_MIN
    modifies packet
    ensures packet[..12] == [0x45, tos] + Length(totalLen) + [0, 0, 0x40, 0, 64, 17, 0, 0]
    ensures packet[12..] == old(packet[12..])
  {
    WriteFour(packet, 0, [0x45, tos] + Length(totalLen));
    assert packet[12..] == packet[4..][8..] == old(packet[4..])[8..];
    WriteFour(packet, 4, [0, 0, 0x40, 0]);
    assert packet[..8] == packet[..4] + packet[4..8] && packet[12..] == packet[8..][4..];
    WriteFour(packet, 8, [64, 17, 0, 0]);
    assert packet[..12] == packet[..8] + packet[8..12];
    assert [0, 0, 0x40, 0, 64, 17, 0, 0] == [0, 0, 0x40, 0] + [64, 17, 0, 0];
  }

  method WriteHeader(packet: array<u8>, totalLen: nat, info: Original, tos: u8)
    requires packet.Length >= IP_HEADER_MIN
    modifies packet
    ensures packet[..20] == Header(totalLen, info, tos)
    ensures packet[20..] == old(packet[20..])
  {
    hide Length;
    WriteFixedFields(packet, totalLen, tos);
    WriteFour(packet, 12, Octets(info.dstIp));
    assert packet[..16] == packet[..12] + packet[12..16];
    assert packet[20..] == packet[16..][4..] && old(packet[20..]) == old(packet[12..])[8..];
    WriteFour(packet, 16, Octets(info.srcIp));
    assert packet[..20] == packet[..16] + packet[16..20];
  }

  method WriteChecksum(packet: array<u8>)
    requires packet.Length >= IP_HEADER_MIN
    modifies packet
    ensures packet[..20] == Summed(old(packet[..20]))
    ensures packet[20..] == old(packet[20..])
  {
    hide Sum16, Checksum;
    var checksum := CalculateIpChecksum(packet[..IP_HEADER_MIN]);
    packet[10], packet[11] := checksum / 256, checksum % 256;
  }

  method WriteUdpHeader(packet: array<u8>, udpLen: nat, info: Original)
    requires packet.Length >= IP_HEADER_MIN + UDP_HEADER_SIZE
    modifies packet
    ensures packet[20..28] == UdpHeader(udpLen, info)
    ensures packet[..20] == old(packet[..20]) && packet[28..] == old(packet[28..])
  {
    packet[20], packet[21] := info.dstPort / 256, info.dstPort % 256;
    packet[22], packet[23] := info.srcPort / 256, info.srcPort % 256;
    packet[24], packet[25] := udpLen / 256 % 256, udpLen % 256;
    packet[26], packet[27] := 0, 0;
  }

  method CopyPayload(packet: array<u8>, payload: seq<u8>)
    requires packet.Length >= 28 + |payload|
    modifies packet
    ensures packet[28..28 + |payload|] == payload
    ensures packet[..28] == old(packet[..28]) && packet[28 + |payload|..] == old(packet[28 + |payload|..])
  {
    for i := 0 to |payload|
      invariant packet[28..28 + i] == payload[..i]
      invariant packet[..28] == old(packet[..28]) && packet[28 + i..] == old(packet[28 + i..])
    {
      assert packet[28 + i..] == old(packet[28 + i..]);
      packet[28 + i] := payload[i];
    }
  }

  /** The v2 writer: the same bytes, in place; nothing is written if they do not fit, and nothing
      beyond them if they do. */
  method WriteResponseInto(dst: array<u8>, payload: seq<u8>, info: Original, tos: u8) returns (len: Option<nat>)
    modifies dst
    ensures len == if 28 + |payload| <= dst.Length then Some(28 + |payload|) else None
    ensures len.None? ==> dst[..] == old(dst[..])
    ensures len.Some? ==> dst[..len.value] == Answer(payload, info, tos) && dst[len.value..] == old(dst[len.value..])
  {
    hide Header, UdpHeader, Summed;
    var udpLen := UDP_HEADER_SIZE + |payload|;
    var totalLen := IP_HEADER_MIN + udpLen;
    if totalLen > dst.Length {
      return None;
    }
    WriteHeader(dst, totalLen, info, tos);
    WriteChecksum(dst);
    ghost var header, rest := dst[..20], dst[20..];
    WriteUdpHeader(dst, udpLen, info);
    ghost var udp := dst[20..28];
    assert dst[totalLen..] == dst[28..][|payload|..] && rest[8..][|payload|..] == old(dst[totalLen..]);
    CopyPayload(dst, payload);
    assert dst[..20] == dst[..28][..20] == header && dst[20..28] == dst[..28][20..28] == udp;
    assert dst[..totalLen] == dst[..20] + dst[20..28] + dst[28..totalLen];
    return Some(totalLen);
  }

  /** The header checksum of every answer verifies. */
  lemma AnswerHeaderVerifies(payload: seq<u8>, info: Original, tos: u8)
    ensures var p := Answer(payload, info, tos); HasHeader(p) && RewriteTheorems.HeaderVerifies(p)
  {
    hide Sum16, Checksum, UdpHeader;
    var h := Header(28 + |payload|, info, tos);
    var p := h + UdpHeader(8 + |payload|, info) + payload;
    assert SetWord(p, 10, 0)[..20] == h;
    assert IpFixed(p) == Answer(payload, info, tos);
    RewriteTheorems.IpFixedVerifies(p);
  }

  // --- Parsing ---

  datatype Parsed =
    | Udp(gameIp: Ipv4, gamePort: u16, payload: seq<u8>, info: Original)
    | Tcp(info: Original, raw: seq<u8>)
    | Fragment(protocol: u8, srcIp: Ipv4, raw: seq<u8>)
    | ForbiddenDst

  const FORBIDDEN_DST_PORTS: set<u16> :=
    {7, 17, 19, 53, 69, 111, 123, 137, 161, 162, 389, 520, 623, 1434, 1900, 3702, 5093, 5351, 5353, 10001, 11211, 32414}

  predicate IsForbiddenPort(port: u16) {
    port == 0 || port in FORBIDDEN_DST_PORTS
  }

  /** Private, loopback, link-local, multicast, broadcast, unspecified, this-network, reserved and
      carrier-grade NAT addresses. */
  predicate IsForbiddenDst(ip: Ipv4) {
    || ip.a == 10 || (ip.a == 172 && 16 <= ip.b <= 31) || (ip.a == 192 && ip.b == 168)
    || ip.a == 127
    || (ip.a == 169 && ip.b == 254)
    || 224 <= ip.a <= 239
    || ip == Ipv4(255, 255, 255, 255)
    || ip.a == 0
    || ip.a >= 240
    || (ip.a == 100 && 64 <= ip.b <= 127)
  }

  /** The destination policy's answers to protocol, address and port. */
  type Permits = (u8, Ipv4, Option<u16>) -> bool

  function AddressAt(p: seq<u8>, i: nat): Ipv4
    requires i + 4 <= |p|
  {
    Ipv4(p[i], p[i + 1], p[i + 2], p[i + 3])
  }

  function InfoOf(p: seq<u8>, hl: nat): Original
    requires IP_HEADER_MIN <= hl && hl + 4 <= |p|
  {
    Original(p[1], AddressAt(p, 12), Word(p[hl], p[hl + 1]), AddressAt(p, 16), Word(p[hl + 2], p[hl + 3]))
  }

  function ParsedFragment(p: seq<u8>, hl: nat, permits: Permits): Option<Parsed>
    requires IP_HEADER_MIN <= hl <= |p|
  {
    var protocol, dst := p[9], AddressAt(p, 16);
    var first := FragmentBits(p) % 0x2000 == 0 && CarriesChecksum(protocol);
    if first && |p| < hl + 4 then None
    else
      var port := if first then Some(Word(p[hl + 2], p[hl + 3])) else None;
      if IsForbiddenDst(dst) || (protocol == 17 && port.Some? && IsForbiddenPort(port.value))
         || !permits(protocol, dst, port)
      then Some(ForbiddenDst)
      else Some(Fragment(protocol, AddressAt(p, 12), p))
  }

  function ParsedUdp(p: seq<u8>, hl: nat, permits: Permits): Option<Parsed>
    requires IP_HEADER_MIN <= hl <= |p|
  {
    if |p| < hl + UDP_HEADER_SIZE then None
    else
      var info := InfoOf(p, hl);
      var udpLen: u16 := Word(p[hl + 4], p[hl + 5]);
      if udpLen < UDP_HEADER_SIZE || hl + udpLen > |p| then None
      else if IsForbiddenDst(info.dstIp) || IsForbiddenPort(info.dstPort)
              || !permits(17, info.dstIp, Some(info.dstPort))
      then Some(ForbiddenDst)
      else Some(Udp(info.dstIp, info.dstPort, p[hl + UDP_HEADER_SIZE..hl + udpLen], info))
  }

  function ParsedTcp(p: seq<u8>, hl: nat, permits: Permits): Option<Parsed>
    requires IP_HEADER_MIN <= hl <= |p|
  {
    if |p| < hl + TCP_HEADER_MIN then None
    else
      var info := InfoOf(p, hl);
      var tcpLen := p[hl + 12] / 16 * 4;
      if tcpLen < TCP_HEADER_MIN || |p| < hl + tcpLen then None
      else if IsForbiddenDst(info.dstIp) || !permits(6, info.dstIp, Some(info.dstPort)) then Some(ForbiddenDst)
      else Some(Tcp(info, p))
  }

  function Parse(packet: seq<u8>, permits: Permits): Option<Parsed> {
    if |packet| < IP_HEADER_MIN || packet[0] / 16 != 4 then None
    else
      var hl := HeaderLen(packet);
      if hl < IP_HEADER_MIN || |packet| < hl || TotalLen(packet) < hl || TotalLen(packet) > |packet| then None
      else
        var p: seq<u8> := packet[..TotalLen(packet)];
        if MoreFragments(p) || FragmentBits(p) % 0x2000 != 0 then ParsedFragment(p, hl, permits)
        else if p[9] == 17 then ParsedUdp(p, hl, permits)
        else if p[9] == 6 then ParsedTcp(p, hl, permits)
        else None
  }

  predicate Deliverable(info: Original, permits: Permits) {
    !IsForbiddenDst(info.dstIp) && !IsForbiddenPort(info.dstPort) && permits(17, info.dstIp, Some(info.dstPort))
  }

  /** The answer's own addressing: source and destination changed places. */
  function Swapped(info: Original, tos: u8): Original {
    Original(tos, info.dstIp, info.dstPort, info.srcIp, info.srcPort)
  }

  predicate LostOrCut(parsed: Option<Parsed>, payload: seq<u8>) {
    parsed.Some? && parsed.value.Udp? ==> |parsed.value.payload| < |payload|
  }

  lemma AnswerFields(payload: seq<u8>, info: Original, tos: u8)
    ensures var p := Answer(payload, info, tos);
            && p[0] == 0x45 && p[9] == 17 && Word(p[6], p[7]) == 0x4000
            && Word(p[2], p[3]) == (28 + |payload|) % 0x1_0000 && Word(p[24], p[25]) == (8 + |payload|) % 0x1_0000
            && InfoOf(p, 20) == Swapped(info, tos)
            && p[28..] == payload
  {
    hide Sum16, Checksum;
    LengthWord(28 + |payload|);
    LengthWord(8 + |payload|);
  }

  lemma LengthWord(n: nat)
    ensures Word(Length(n)[0], Length(n)[1]) == n % 0x1_0000
  {
  }

  /** An answer is taken for a UDP packet by the length its header says, if that covers both headers. */
  lemma AnswerIsUdp(payload: seq<u8>, info: Original, tos: u8, permits: Permits)
    ensures var p, n := Answer(payload, info, tos), (28 + |payload|) % 0x1_0000;
            Parse(p, permits) == if n < 20 then None else ParsedUdp(p[..n], 20, permits)
  {
    hide Answer, ParsedFragment, ParsedTcp, ParsedUdp;
    AnswerFields(payload, info, tos);
  }

  lemma UdpOfAnswer(p: seq<u8>, payload: seq<u8>, swapped: Original, permits: Permits)
    requires |p| == 28 + |payload| <= 0xFFFF && p[28..] == payload && InfoOf(p, 20) == swapped
    requires Word(p[24], p[25]) == 8 + |payload|
    ensures ParsedUdp(p, 20, permits)
            == Some(if Deliverable(swapped, permits) then Udp(swapped.dstIp, swapped.dstPort, payload, swapped)
                    else ForbiddenDst)
  {
    hide IsForbiddenDst, IsForbiddenPort, InfoOf, Word;
    assert p[28..20 + Word(p[24], p[25])] == payload;
  }

  /** Parsing an answer gives back its payload, with addresses and ports swapped, exactly when the
      packet is no longer than a length field can say and its destination is let through. */
  lemma AnswerParsesBack(payload: seq<u8>, info: Original, tos: u8, permits: Permits)
    ensures var parsed, swapped := Parse(Answer(payload, info, tos), permits), Swapped(info, tos);
            && (28 + |payload| <= 0xFFFF ==>
                  parsed == Some(if Deliverable(swapped, permits)
                                 then Udp(info.srcIp, info.srcPort, payload, swapped) else ForbiddenDst))
            && (28 + |payload| > 0xFFFF ==> LostOrCut(parsed, payload))
  {
    hide Answer, Parse, IsForbiddenDst, IsForbiddenPort, InfoOf, Word;
    var p := Answer(payload, info, tos);
    AnswerFields(payload, info, tos);
    AnswerIsUdp(payload, info, tos, permits);
    if |p| <= 0xFFFF {
      assert p[..|p|] == p;
      UdpOfAnswer(p, payload, Swapped(info, tos), permits);
    }
  }

  /** An answer a length field can describe is a whole, unfragmented UDP packet with 64 hops to live,
      not to be fragmented, from the game server to the client, with the type of service it was given,
      and every receiver accepts it: its header verifies and its UDP checksum says there is none. */
  lemma AnswerIsAccepted(payload: seq<u8>, info: Original, tos: u8)
    requires 28 + |payload| <= 0xFFFF
    ensures var p := Answer(payload, info, tos);
            && RewriteTheorems.WholePacket(p) && RewriteTheorems.HeaderVerifies(p)
            && RewriteTheorems.TransportVerifies(p)
            && p[0] == 0x45 && p[1] == tos && p[4] == p[5] == 0 && p[6] == 0x40 && p[7] == 0 && p[8] == 64 && p[9] == 17
            && Word(p[2], p[3]) == |p| && Word(p[24], p[25]) == |p| - 20 && p[26] == p[27] == 0
            && p[12..16] == Octets(info.dstIp) && p[16..20] == Octets(info.srcIp)
            && Word(p[20], p[21]) == info.dstPort && Word(p[22], p[23]) == info.srcPort
  {
    hide Answer, RewriteTheorems.WholePacket, RewriteTheorems.TransportVerifies, RewriteTheorems.HeaderVerifies;
    hide Number, Even, Octets, InfoOf;
    AnswerHeaderVerifies(payload, info, tos);
    AnswerFields(payload, info, tos);
    var p := Answer(payload, info, tos);
    AnswerBytes(payload, info, tos);
    RewriteTheorems.WholePacketOnBytes(p);
    RewriteTheorems.TransportVerifiesOnBytes(p);
  }

  lemma AnswerBytes(payload: seq<u8>, info: Original, tos: u8)
    ensures var p := Answer(payload, info, tos);
            && p[1] == tos && p[4] == p[5] == 0 && p[6] == 0x40 && p[7] == 0 && p[8] == 64 && p[26] == p[27] == 0
            && p[12..16] == Octets(info.dstIp) && p[16..20] == Octets(info.srcIp)
            && Word(p[20], p[21]) == info.dstPort && Word(p[22], p[23]) == info.srcPort
  {
    hide Sum16, Checksum;
  }
}
