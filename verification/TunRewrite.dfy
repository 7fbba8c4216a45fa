/** Rewriting one address of an IPv4 packet in place, as the TUN writer and reader do, with the
    header checksum and the TCP or UDP checksum brought up to date. */
module TunRewrite {
  import opened Bytes
  import opened OnesComplement

  const IP_HEADER_MIN := 20
  const IP_SRC_OFFSET := 12
  const IP_DST_OFFSET := 16
  const IPPROTO_TCP: u8 := 6
  const IPPROTO_UDP: u8 := 17

  // --- Header fields (section 3.1 of RFC 791) ---

  function HeaderLen(p: seq<u8>): nat
    requires |p| >= IP_HEADER_MIN
  {
    p[0] % 16 * 4
  }

  function TotalLen(p: seq<u8>): u16
    requires |p| >= IP_HEADER_MIN
  {
    Word(p[2], p[3])
  }

  function FragmentBits(p: seq<u8>): u16
    requires |p| >= IP_HEADER_MIN
  {
    Word(p[6], p[7])
  }

  predicate MoreFragments(p: seq<u8>)
    requires |p| >= IP_HEADER_MIN
  {
    FragmentBits(p) / 0x2000 % 2 == 1
  }

  /** `None` for a packet whose header is cut short. */
  function FragmentOffset(p: seq<u8>): Option<u16> {
    if |p| < IP_HEADER_MIN || HeaderLen(p) < IP_HEADER_MIN || |p| < HeaderLen(p) then None
    else Some(FragmentBits(p) % 0x2000)
  }

  predicate IsFragment(p: seq<u8>) {
    FragmentOffset(p).Some? && (MoreFragments(p) || FragmentOffset(p).value != 0)
  }

  predicate CarriesChecksum(proto: u8) {
    proto == IPPROTO_TCP || proto == IPPROTO_UDP
  }

  /** Offset of the checksum inside the transport header. */
  function ChecksumAt(proto: u8): nat {
    if proto == IPPROTO_TCP then 16 else 6
  }

  /** The shortest transport header whose checksum is recomputed. */
  function TransportMin(proto: u8): nat {
    if proto == IPPROTO_TCP then 20 else 8
  }

  /** Index of the transport checksum in the packet. */
  function FieldAt(p: seq<u8>, proto: u8): nat
    requires |p| >= IP_HEADER_MIN
  {
    HeaderLen(p) + ChecksumAt(proto)
  }

  function Field(p: seq<u8>, proto: u8): u16
    requires |p| >= IP_HEADER_MIN && FieldAt(p, proto) + 2 <= |p|
  {
    Word(p[FieldAt(p, proto)], p[FieldAt(p, proto) + 1])
  }

  /** The pseudo-header of RFC 768 and section 3.1 of RFC 9293. */
  function PseudoHeader(p: seq<u8>, proto: u8, len: u16): seq<u8>
    requires |p| >= IP_HEADER_MIN
  {
    p[12..20] + [0, proto, len / 256, len % 256]
  }

  /** The sum a receiver forms over the pseudo-header and the transport bytes. */
  function TransportSum(p: seq<u8>, proto: u8): nat
    requires |p| >= IP_HEADER_MIN && HeaderLen(p) <= TotalLen(p) <= |p|
  {
    Sum16(PseudoHeader(p, proto, TotalLen(p) - HeaderLen(p)) + p[HeaderLen(p)..TotalLen(p)])
  }

  // --- What each helper leaves in the packet ---

  predicate HasHeader(p: seq<u8>) {
    |p| >= IP_HEADER_MIN && IP_HEADER_MIN <= HeaderLen(p) <= |p|
  }

  function HeaderChecksum(p: seq<u8>): u16
    requires HasHeader(p)
  {
    Checksum(Sum16(SetWord(p, 10, 0)[..HeaderLen(p)]))
  }

  function IpFixed(p: seq<u8>): (q: seq<u8>)
    ensures |q| == |p|
  {
    if HasHeader(p) then SetWord(p, 10, HeaderChecksum(p)) else p
  }

  /** A packet whose TCP or UDP checksum the relay recomputes. */
  predicate Recomputable(p: seq<u8>, proto: u8) {
    && |p| >= IP_HEADER_MIN
    && HeaderLen(p) + TransportMin(proto) <= TotalLen(p) <= |p|
  }

  /** The packet with its transport checksum field set to `c`. */
  function WithField(p: seq<u8>, proto: u8, c: u16): (q: seq<u8>)
    requires |p| >= IP_HEADER_MIN && FieldAt(p, proto) + 2 <= |p|
    ensures |q| == |p| && HeaderLen(q) == HeaderLen(p) && TotalLen(q) == TotalLen(p)
    ensures Field(q, proto) == c
  {
    SetWord(p, FieldAt(p, proto), c)
  }

  /** The transport sum with the checksum field zeroed. */
  function ZeroedSum(p: seq<u8>, proto: u8): nat
    requires Recomputable(p, proto)
  {
    TransportSum(WithField(p, proto, 0), proto)
  }

  /** Zero means "no checksum" for UDP, so a computed zero is sent as all ones. */
  function Sent(proto: u8, c: u16): u16 {
    if proto == IPPROTO_UDP then NonZero(c) else c
  }

  predicate Omitted(p: seq<u8>, proto: u8)
    requires |p| >= IP_HEADER_MIN && FieldAt(p, proto) + 2 <= |p|
  {
    proto == IPPROTO_UDP && Field(p, proto) == 0
  }

  function TransportFixed(p: seq<u8>, proto: u8): (q: seq<u8>)
    ensures |q| == |p|
  {
    if !Recomputable(p, proto) || Omitted(p, proto) then p
    else WithField(p, proto, Sent(proto, Checksum(ZeroedSum(p, proto))))
  }

  /** A first fragment whose checksum field can be patched. */
  predicate Patchable(p: seq<u8>, proto: u8) {
    |p| >= IP_HEADER_MIN && HeaderLen(p) >= IP_HEADER_MIN && FieldAt(p, proto) + 2 <= |p|
  }

  function Patched(p: seq<u8>, proto: u8, oldIp: seq<u8>, newIp: seq<u8>): (q: seq<u8>)
    requires |oldIp| == |newIp| == 4
    ensures |q| == |p|
  {
    if !Patchable(p, proto) || Omitted(p, proto) then p
    else WithField(p, proto, Sent(proto, Adjusted(Field(p, proto), oldIp, newIp)))
  }

  predicate IsAddressOffset(offset: nat) {
    offset == IP_SRC_OFFSET || offset == IP_DST_OFFSET
  }

  /** The whole rewrite. */
  function Rewritten(p: seq<u8>, offset: nat, newIp: seq<u8>): (q: seq<u8>)
    requires IsAddressOffset(offset) && |newIp| == 4
    ensures |q| == |p|
  {
    if |p| < IP_HEADER_MIN then p
    else
      var q := IpFixed(Splice(p, offset, newIp));
      var proto := q[9];
      if !CarriesChecksum(proto) then q
      else if IsFragment(q) then
        if FragmentOffset(q) == Some(0) then Patched(q, proto, p[offset..offset + 4], newIp) else q
      else TransportFixed(q, proto)
  }

  // --- The in-place code ---

  method PutWord(packet: array<u8>, i: nat, w: u16)
    requires i + 1 < packet.Length
    modifies packet
    ensures packet[..] == SetWord(old(packet[..]), i, w)
  {
    packet[i], packet[i + 1] := w / 256, w % 256;
  }

  function WordAt(packet: array<u8>, i: nat): (w: u16)
    requires i + 1 < packet.Length
    reads packet
    ensures w == Word(packet[..][i], packet[..][i + 1])
  {
    Word(packet[i], packet[i + 1])
  }

  function HeaderLenOf(packet: array<u8>): (n: nat)
    requires packet.Length >= IP_HEADER_MIN
    reads packet
    ensures n == HeaderLen(packet[..])
  {
    packet[0] % 16 * 4
  }

  method RecalculateIpChecksum(packet: array<u8>)
    modifies packet
    ensures packet[..] == IpFixed(old(packet[..]))
  {
    if packet.Length < IP_HEADER_MIN {
      return;
    }
    var ihl := HeaderLenOf(packet);
    if ihl < IP_HEADER_MIN || packet.Length < ihl {
      return;
    }
    PutWord(packet, 10, 0);
    var checksum := CalculateIpChecksum(packet[..ihl]);
    assert checksum == HeaderChecksum(old(packet[..])) by {
      assert packet[..ihl] == SetWord(old(packet[..]), 10, 0)[..ihl];
    }
    PutWord(packet, 10, checksum);
    SetWordTwice(old(packet[..]), 10, 0, checksum);
  }

  /** The word loop over packet[lo..hi], continuing from `start`. */
  method AddWords(packet: array<u8>, lo: nat, hi: nat, start: u32) returns (sum: u32)
    requires lo <= hi <= packet.Length && hi - lo <= 0xFFFF && start <= 6 * 0xFFFF
    ensures sum == start + Sum16(packet[lo..hi])
  {
    ghost var seg := packet[lo..hi];
    var len := hi - lo;
    sum := start;
    var i := 0;
    while i + 1 < len
      invariant 0 <= i <= len && i % 2 == 0
      invariant sum == start + Sum16(seg[..i])
    {
      Sum16Step(seg, i);
      sum := sum + Word(packet[lo + i], packet[lo + i + 1]);
      i := i + 2;
    }
    if len % 2 == 1 {
      Sum16LastStep(seg, i);
      sum := sum + Word(packet[hi - 1], 0);
    } else {
      assert seg[..i] == seg;
    }
  }

  /** The pseudo-header loop. */
  method AddPseudoHeader(packet: array<u8>, proto: u8, len: u16) returns (sum: u32)
    requires IP_HEADER_MIN <= packet.Length
    ensures sum == Sum16(PseudoHeader(packet[..], proto, len)) <= 6 * 0xFFFF
  {
    var pseudo: seq<u8> := packet[12..20] + [0, proto, len / 256, len % 256];
    sum := 0;
    var i := 0;
    while i < 12
      invariant 0 <= i <= 12 && i % 2 == 0
      invariant sum == Sum16(pseudo[..i]) && 2 * sum <= i * 0xFFFF
    {
      Sum16Step(pseudo, i);
      sum := sum + Word(pseudo[i], pseudo[i + 1]);
      i := i + 2;
    }
    assert pseudo[..12] == pseudo == PseudoHeader(packet[..], proto, len);
  }

  /** Pseudo-header sum, segment sum, fold and complement, on a packet whose field is zeroed. */
  method TransportChecksum(packet: array<u8>, proto: u8, ihl: nat, totalLen: u16) returns (c: u16)
    requires IP_HEADER_MIN <= packet.Length && ihl == HeaderLen(packet[..])
    requires ihl <= totalLen == TotalLen(packet[..]) <= packet.Length
    ensures c == Checksum(TransportSum(packet[..], proto))
  {
    var sum: u32 := AddPseudoHeader(packet, proto, totalLen - ihl);
    Sum16Concat(PseudoHeader(packet[..], proto, totalLen - ihl), packet[ihl..totalLen]);
    assert packet[ihl..totalLen] == packet[..][ihl..totalLen];
    sum := AddWords(packet, ihl, totalLen, sum);
    var folded := FoldLoop(sum);
    c := 0xFFFF - folded;
  }

  method RecalculateTcpChecksum(packet: array<u8>)
    modifies packet
    ensures packet[..] == TransportFixed(old(packet[..]), IPPROTO_TCP)
  {
    hide SetWord, TransportSum, Checksum;
    if packet.Length < IP_HEADER_MIN {
      return;
    }
    var ihl := HeaderLenOf(packet);
    if packet.Length < ihl {
      return;
    }
    var totalLen: u16 := WordAt(packet, 2);
    if totalLen < ihl || packet.Length < totalLen || totalLen - ihl < 20 {
      return;
    }
    PutWord(packet, ihl + 16, 0);
    assert packet[..] == WithField(old(packet[..]), IPPROTO_TCP, 0);
    var checksum := TransportChecksum(packet, IPPROTO_TCP, ihl, totalLen);
    PutWord(packet, ihl + 16, checksum);
    SetWordTwice(old(packet[..]), ihl + 16, 0, checksum);
  }

  method RecalculateUdpChecksum(packet: array<u8>)
    modifies packet
    ensures packet[..] == TransportFixed(old(packet[..]), IPPROTO_UDP)
  {
    hide SetWord, TransportSum, Checksum;
    if packet.Length < IP_HEADER_MIN {
      return;
    }
    var ihl := HeaderLenOf(packet);
    if packet.Length < ihl {
      return;
    }
    var totalLen: u16 := WordAt(packet, 2);
    if totalLen < ihl + 8 || packet.Length < totalLen {
      return;
    }
    if WordAt(packet, ihl + 6) == 0 {
      return;
    }
    PutWord(packet, ihl + 6, 0);
    assert packet[..] == WithField(old(packet[..]), IPPROTO_UDP, 0);
    var computed := TransportChecksum(packet, IPPROTO_UDP, ihl, totalLen);
    PutWord(packet, ihl + 6, NonZero(computed));
    SetWordTwice(old(packet[..]), ihl + 6, 0, NonZero(computed));
  }

  method UpdateFragmentTcpChecksum(packet: array<u8>, oldIp: seq<u8>, newIp: seq<u8>)
    requires packet.Length >= IP_HEADER_MIN && |oldIp| == |newIp| == 4
    modifies packet
    ensures packet[..] == Patched(old(packet[..]), IPPROTO_TCP, oldIp, newIp)
  {
    var ihl := HeaderLenOf(packet);
    if ihl < IP_HEADER_MIN || packet.Length < ihl + 18 {
      return;
    }
    var adjusted := AdjustChecksumForAddrChange(WordAt(packet, ihl + 16), oldIp, newIp);
    PutWord(packet, ihl + 16, adjusted);
  }

  method UpdateFragmentUdpChecksum(packet: array<u8>, oldIp: seq<u8>, newIp: seq<u8>)
    requires packet.Length >= IP_HEADER_MIN && |oldIp| == |newIp| == 4
    modifies packet
    ensures packet[..] == Patched(old(packet[..]), IPPROTO_UDP, oldIp, newIp)
  {
    var ihl := HeaderLenOf(packet);
    if ihl < IP_HEADER_MIN || packet.Length < ihl + 8 {
      return;
    }
    ghost var before := packet[..];
    var checksum := WordAt(packet, ihl + 6);
    assert checksum == Field(before, IPPROTO_UDP);
    if checksum != 0 {
      var adjusted := AdjustChecksumForAddrChange(checksum, oldIp, newIp);
      var sent := NonZero(adjusted);
      assert sent == Sent(IPPROTO_UDP, Adjusted(Field(before, IPPROTO_UDP), oldIp, newIp));
      PutWord(packet, ihl + 6, sent);
      assert packet[..] == WithField(before, IPPROTO_UDP, sent);
    }
  }

  method RewriteIpField(packet: array<u8>, offset: nat, newIp: seq<u8>)
    requires IsAddressOffset(offset) && |newIp| == 4
    modifies packet
    ensures packet[..] == Rewritten(old(packet[..]), offset, newIp)
  {
    hide IpFixed, TransportFixed, Patched;
    if packet.Length < IP_HEADER_MIN || packet.Length < offset + 4 {
      return;
    }
    var oldIp := packet[offset..offset + 4];
    packet[offset], packet[offset + 1] := newIp[0], newIp[1];
    packet[offset + 2], packet[offset + 3] := newIp[2], newIp[3];
    assert packet[..] == Splice(old(packet[..]), offset, newIp);
    RecalculateIpChecksum(packet);
    var proto := packet[9];
    if IsFragment(packet[..]) {
      if FragmentOffset(packet[..]) == Some(0) {
        if proto == IPPROTO_TCP {
          UpdateFragmentTcpChecksum(packet, oldIp, newIp);
        } else if proto == IPPROTO_UDP {
          UpdateFragmentUdpChecksum(packet, oldIp, newIp);
        }
      }
      return;
    }
    if proto == IPPROTO_TCP {
      RecalculateTcpChecksum(packet);
    } else if proto == IPPROTO_UDP {
      RecalculateUdpChecksum(packet);
    }
  }
}
