/** What an address rewrite guarantees for whole TCP and UDP packets. */
module RewriteTheorems {
  import opened Bytes
  import opened OnesComplement
  import opened TunRewrite

  /** A whole TCP or UDP packet; bytes beyond its total length are no part of it. */
  predicate WholePacket(p: seq<u8>) {
    && HasHeader(p)
    && CarriesChecksum(p[9])
    && HeaderLen(p) + TransportMin(p[9]) <= TotalLen(p) <= |p|
    && !IsFragment(p)
  }

  predicate HeaderVerifies(p: seq<u8>)
    requires HasHeader(p)
  {
    Verifies(Sum16(p[..HeaderLen(p)]))
  }

  /** The length the receiver puts into the pseudo-header: UDP declares its own. */
  function DeclaredLen(p: seq<u8>): nat
    requires HasHeader(p) && Recomputable(p, p[9])
  {
    if p[9] == IPPROTO_UDP then Word(p[HeaderLen(p) + 4], p[HeaderLen(p) + 5])
    else TotalLen(p) - HeaderLen(p)
  }

  /** The length covers the transport header and lies within the IP payload. */
  predicate LengthFits(p: seq<u8>)
    requires HasHeader(p) && Recomputable(p, p[9])
  {
    TransportMin(p[9]) <= DeclaredLen(p) <= TotalLen(p) - HeaderLen(p)
  }

  /** RFC 768 and section 3.1 of RFC 9293: the receiver's check, or UDP's "no checksum". */
  predicate TransportVerifies(p: seq<u8>)
    requires HasHeader(p) && Recomputable(p, p[9])
  {
    || Omitted(p, p[9])
    || (var hl, len := HeaderLen(p), DeclaredLen(p);
        LengthFits(p) && Verifies(Sum16(PseudoHeader(p, p[9], len) + p[hl..hl + len])))
  }

  /** Both checksums verify, and in their usual form: of the two fields that verify when the sum
      without it is a multiple of 65535, the header and TCP carry zero; UDP, where zero means no
      checksum, carries all ones. */
  predicate Canonical(p: seq<u8>)
    requires WholePacket(p)
  {
    && HeaderVerifies(p) && Word(p[10], p[11]) != 0xFFFF
    && (|| Omitted(p, p[9])
        || (Verifies(TransportSum(p, p[9])) && (p[9] == IPPROTO_TCP ==> Field(p, p[9]) != 0xFFFF)))
  }

  // --- Sums ---

  lemma TransportSumSplit(p: seq<u8>, proto: u8)
    requires |p| >= IP_HEADER_MIN && HeaderLen(p) <= TotalLen(p) <= |p|
    ensures TransportSum(p, proto)
            == Sum16(p[12..16]) + Sum16(p[16..20]) + proto + (TotalLen(p) - HeaderLen(p))
               + Sum16(p[HeaderLen(p)..TotalLen(p)])
  {
    PseudoSum(p, proto, TotalLen(p) - HeaderLen(p), p[HeaderLen(p)..TotalLen(p)]);
  }

  lemma SliceOfSetWord(p: seq<u8>, lo: nat, hi: nat, i: nat, w: u16)
    requires lo <= i && i + 1 < hi <= |p|
    ensures SetWord(p, i, w)[lo..hi] == SetWord(p[lo..hi], i - lo, w)
  {
  }

  /** An aligned word adds exactly its value to the sum of a slice. */
  lemma WordContributes(p: seq<u8>, lo: nat, hi: nat, i: nat, w: u16)
    requires lo <= i && i + 1 < hi <= |p| && (i - lo) % 2 == 0
    ensures Sum16(SetWord(p, i, w)[lo..hi]) == Sum16(SetWord(p, i, 0)[lo..hi]) + w
  {
    hide Sum16, SetWord, Word;
    SliceOfSetWord(p, lo, hi, i, w);
    SliceOfSetWord(p, lo, hi, i, 0);
    Sum16SetWord(p[lo..hi], i - lo, w);
    Sum16SetWord(p[lo..hi], i - lo, 0);
  }

  lemma Sum16Positive(b: seq<u8>)
    requires |b| >= 2 && b[0] > 0
    ensures Sum16(b) > 0
  {
  }

  /** The field adds exactly its value to the transport sum, which is never zero without it. */
  lemma FieldContributes(p: seq<u8>, proto: u8, c: u16)
    requires HasHeader(p) && CarriesChecksum(proto) && Recomputable(p, proto)
    ensures TransportSum(WithField(p, proto, c), proto) == ZeroedSum(p, proto) + c
    ensures ZeroedSum(p, proto) > 0
  {
    hide Sum16, SetWord, Word;
    var z, q := WithField(p, proto, 0), WithField(p, proto, c);
    TransportSumSplit(z, proto);
    TransportSumSplit(q, proto);
    SameAddresses(z, q);
    WordContributes(p, HeaderLen(p), TotalLen(p), FieldAt(p, proto), c);
  }

  lemma SameAddresses(p: seq<u8>, q: seq<u8>)
    requires |p| == |q| >= IP_HEADER_MIN && forall k :: 12 <= k < 20 ==> p[k] == q[k]
    ensures p[12..16] == q[12..16] && p[16..20] == q[16..20]
  {
  }

  /** Replacing an address shifts the transport sum by the difference of the address sums. */
  lemma AddressContributes(p: seq<u8>, offset: nat, newIp: seq<u8>, proto: u8)
    requires IsAddressOffset(offset) && |newIp| == 4
    requires HasHeader(p) && Recomputable(p, proto)
    ensures var q := Splice(p, offset, newIp);
            && HeaderLen(q) == HeaderLen(p) && TotalLen(q) == TotalLen(p)
            && TransportSum(q, proto) + Sum16(p[offset..offset + 4]) == TransportSum(p, proto) + Sum16(newIp)
  {
    var q := Splice(p, offset, newIp);
    TransportSumSplit(p, proto);
    TransportSumSplit(q, proto);
    SpliceSlices(p, offset, newIp, HeaderLen(p), TotalLen(p));
  }

  lemma SpliceSlices(p: seq<u8>, offset: nat, newIp: seq<u8>, lo: nat, hi: nat)
    requires IsAddressOffset(offset) && |newIp| == 4 && 20 <= lo <= hi <= |p|
    ensures var q := Splice(p, offset, newIp);
            && q[lo..hi] == p[lo..hi]
            && q[offset..offset + 4] == newIp
            && (offset == 12 ==> q[16..20] == p[16..20])
            && (offset == 16 ==> q[12..16] == p[12..16])
  {
  }

  lemma IpFixedVerifies(p: seq<u8>)
    requires HasHeader(p)
    ensures HasHeader(IpFixed(p)) && HeaderVerifies(IpFixed(p))
  {
    hide Sum16, SetWord, Word;
    var hl, z := HeaderLen(p), SetWord(p, 10, 0);
    WordContributes(p, 0, hl, 10, HeaderChecksum(p));
    Sum16Positive(z[..hl]);
    ChecksumVerifies(Sum16(z[..hl]));
  }

  lemma TransportFixedVerifies(p: seq<u8>, proto: u8)
    requires HasHeader(p) && CarriesChecksum(proto) && Recomputable(p, proto)
    ensures var q := TransportFixed(p, proto);
            && HeaderLen(q) == HeaderLen(p) && TotalLen(q) == TotalLen(p)
            && (Omitted(q, proto) || Verifies(TransportSum(q, proto)))
            && (Omitted(q, proto) <==> Omitted(p, proto))
  {
    if !Omitted(p, proto) {
      var s := ZeroedSum(p, proto);
      var c := Sent(proto, Checksum(s));
      FieldContributes(p, proto, c);
      ChecksumVerifies(s);
      VerifiesIffMultiple(s + Checksum(s));
      VerifiesIffMultiple(s + c);
      assert c == Checksum(s) || c == Checksum(s) + 65535;
    }
  }

  // --- What a checksum depends on ---

  /** Equal except for the header checksum and the two bytes at `at`. */
  predicate AgreeBeside(p: seq<u8>, q: seq<u8>, at: nat) {
    && |p| == |q|
    && (forall k :: 0 <= k < |p| && k != 10 && k != 11 && k != at && k != at + 1 ==> p[k] == q[k])
  }

  lemma SameShape(p: seq<u8>, q: seq<u8>, at: nat)
    requires HasHeader(p) && AgreeBeside(p, q, at) && at >= 10
    ensures HasHeader(q) && HeaderLen(p) == HeaderLen(q) && TotalLen(p) == TotalLen(q) && p[9] == q[9]
    ensures FragmentOffset(p) == FragmentOffset(q) && MoreFragments(p) == MoreFragments(q)
    ensures IsFragment(p) == IsFragment(q)
  {
  }

  lemma SetWordAgrees(p: seq<u8>, q: seq<u8>, i: nat, w: u16)
    requires |p| == |q| && i + 1 < |p|
    requires forall k :: 0 <= k < |p| && k != i && k != i + 1 ==> p[k] == q[k]
    ensures SetWord(p, i, w) == SetWord(q, i, w)
  {
  }

  lemma SliceAgrees(p: seq<u8>, q: seq<u8>, lo: nat, hi: nat)
    requires lo <= hi <= |p| == |q| && forall k :: lo <= k < hi ==> p[k] == q[k]
    ensures p[lo..hi] == q[lo..hi]
  {
  }

  lemma HeaderChecksumDepends(p: seq<u8>, q: seq<u8>, at: nat)
    requires HasHeader(p) && AgreeBeside(p, q, at) && at >= HeaderLen(p)
    ensures HasHeader(q) && HeaderChecksum(p) == HeaderChecksum(q)
  {
    hide Sum16, SetWord, Word, HeaderLen, TotalLen;
    SameShape(p, q, at);
    var hl := HeaderLen(p);
    SliceOfSetWord(p, 0, hl, 10, 0);
    SliceOfSetWord(q, 0, hl, 10, 0);
    SetWordAgrees(p[..hl], q[..hl], 10, 0);
  }

  lemma ZeroedSumDepends(p: seq<u8>, q: seq<u8>, proto: u8)
    requires HasHeader(p) && Recomputable(p, proto) && AgreeBeside(p, q, FieldAt(p, proto))
    ensures Recomputable(q, proto) && ZeroedSum(p, proto) == ZeroedSum(q, proto)
  {
    hide Sum16, SetWord, Word, HeaderLen, TotalLen;
    var at := FieldAt(p, proto);
    SameShape(p, q, at);
    var hl, tl := HeaderLen(p), TotalLen(p);
    var z, y := WithField(p, proto, 0), WithField(q, proto, 0);
    SliceAgrees(z, y, 12, 20);
    SliceOfSetWord(p, hl, tl, at, 0);
    SliceOfSetWord(q, hl, tl, at, 0);
    SetWordAgrees(p[hl..tl], q[hl..tl], at - hl, 0);
  }

  // --- Whole packets ---

  /** The rewrite keeps the packet's shape and every byte that is not the address or a checksum. */
  lemma RewriteFrame(p: seq<u8>, offset: nat, newIp: seq<u8>)
    requires WholePacket(p) && IsAddressOffset(offset) && |newIp| == 4
    ensures var s, q := Splice(p, offset, newIp), Rewritten(p, offset, newIp);
            && q == TransportFixed(IpFixed(s), p[9])
            && WholePacket(s) && WholePacket(IpFixed(s)) && WholePacket(q)
            && q[9] == p[9] && FieldAt(q, q[9]) == FieldAt(p, p[9])
            && AgreeBeside(q, s, FieldAt(p, p[9]))
            && (Omitted(q, p[9]) <==> Omitted(p, p[9]))
  {
    hide Sum16, SetWord, Word, HeaderLen, TotalLen, Checksum;
    var proto, at := p[9], FieldAt(p, p[9]);
    var s := Splice(p, offset, newIp);
    var q := IpFixed(s);
    SpliceShape(p, offset, newIp);
    SameShape(s, q, at);
    TransportFixedVerifies(q, proto);
    SameShape(q, TransportFixed(q, proto), at);
  }

  lemma SpliceShape(p: seq<u8>, offset: nat, newIp: seq<u8>)
    requires HasHeader(p) && IsAddressOffset(offset) && |newIp| == 4
    ensures var q := Splice(p, offset, newIp);
            && HasHeader(q) && HeaderLen(p) == HeaderLen(q) && TotalLen(p) == TotalLen(q) && p[9] == q[9]
            && FragmentOffset(p) == FragmentOffset(q) && MoreFragments(p) == MoreFragments(q)
            && IsFragment(p) == IsFragment(q)
  {
  }

  lemma SetWordBytes(p: seq<u8>, q: seq<u8>, i: nat, w: u16)
    requires |p| == |q| && i + 1 < |p|
    ensures SetWord(p, i, w)[i] == SetWord(q, i, w)[i] && SetWord(p, i, w)[i + 1] == SetWord(q, i, w)[i + 1]
  {
  }

  predicate AgreeExceptAt(p: seq<u8>, q: seq<u8>, at: nat) {
    && |p| == |q|
    && (forall k :: 0 <= k < |p| && k != at && k != at + 1 ==> p[k] == q[k])
  }

  lemma IpFixedAlike(u: seq<u8>, v: seq<u8>, at: nat)
    requires HasHeader(u) && AgreeBeside(u, v, at) && at >= HeaderLen(u)
    ensures HasHeader(v) && AgreeExceptAt(IpFixed(u), IpFixed(v), at)
    ensures at + 1 < |u| ==> IpFixed(u)[at] == u[at] && IpFixed(u)[at + 1] == u[at + 1]
    ensures at + 1 < |u| ==> IpFixed(v)[at] == v[at] && IpFixed(v)[at + 1] == v[at + 1]
  {
    hide Sum16, SetWord, Word, HeaderLen, Checksum;
    HeaderChecksumDepends(u, v, at);
    SetWordBytes(u, v, 10, HeaderChecksum(u));
  }

  lemma TransportFixedAlike(u: seq<u8>, v: seq<u8>, proto: u8)
    requires HasHeader(u) && Recomputable(u, proto) && AgreeExceptAt(u, v, FieldAt(u, proto))
    requires HasHeader(v) && Recomputable(v, proto) && (Omitted(u, proto) <==> Omitted(v, proto))
    ensures TransportFixed(u, proto) == TransportFixed(v, proto)
  {
    hide Sum16, SetWord, HeaderLen, TotalLen, Checksum, Word;
    var at := FieldAt(u, proto);
    SameShape(u, v, at);
    ZeroedSumDepends(u, v, proto);
    if Omitted(u, proto) {
      WordZero(u[at], u[at + 1]);
      WordZero(v[at], v[at + 1]);
      assert u == v;
    } else {
      SetWordAgrees(u, v, at, Sent(proto, Checksum(ZeroedSum(u, proto))));
    }
  }

  lemma WordZero(hi: u8, lo: u8)
    requires Word(hi, lo) == 0
    ensures hi == 0 && lo == 0
  {
  }

  /** Packets that differ only in their checksums are fixed to the same packet. */
  lemma FixedAlike(u: seq<u8>, v: seq<u8>, proto: u8)
    requires WholePacket(u) && WholePacket(v) && u[9] == v[9] == proto
    requires AgreeBeside(u, v, FieldAt(u, proto)) && (Omitted(u, proto) <==> Omitted(v, proto))
    ensures TransportFixed(IpFixed(u), proto) == TransportFixed(IpFixed(v), proto)
  {
    hide Sum16, SetWord, HeaderLen, TotalLen, Checksum, IpFixed, TransportFixed, Word;
    var at := FieldAt(u, proto);
    SameShape(u, v, at);
    IpFixedAlike(u, v, at);
    IpFixedShape(u);
    IpFixedShape(v);
    TransportFixedAlike(IpFixed(u), IpFixed(v), proto);
  }

  lemma IpFixedShape(p: seq<u8>)
    requires HasHeader(p)
    ensures var q := IpFixed(p);
            && HasHeader(q) && HeaderLen(p) == HeaderLen(q) && TotalLen(p) == TotalLen(q) && p[9] == q[9]
            && FragmentOffset(p) == FragmentOffset(q) && IsFragment(p) == IsFragment(q)
            && AgreeExceptAt(p, q, 10)
  {
    hide Sum16, HeaderLen, TotalLen, Checksum, Word;
    SameShape(p, IpFixed(p), 10);
  }

  // --- A UDP length other than the length of the IP payload ---

  /** What the bytes beyond the declared length, and the length itself, add to the sum over the whole
      IP payload. */
  function Tail(segment: seq<u8>, len: nat): nat
    requires len <= |segment|
  {
    |segment| - len
    + if len % 2 == 0 then Sum16(segment[len..])
      else if len < |segment| then segment[len] + Sum16(segment[len + 1..])
      else 0
  }

  lemma ShorterSum(segment: seq<u8>, len: nat)
    requires len <= |segment|
    ensures Sum16(segment) + |segment| == Sum16(segment[..len]) + len + Tail(segment, len)
  {
    hide Sum16;
    if len % 2 == 0 {
      Sum16Concat(segment[..len], segment[len..]);
      assert segment == segment[..len] + segment[len..];
    } else if len < |segment| {
      Sum16Concat(segment[..len + 1], segment[len + 1..]);
      assert segment == segment[..len + 1] + segment[len + 1..];
      OddPrefix(segment, len);
    } else {
      assert segment[..len] == segment;
    }
  }

  lemma OddPrefix(segment: seq<u8>, len: nat)
    requires len % 2 == 1 && len < |segment|
    ensures Sum16(segment[..len + 1]) == Sum16(segment[..len]) + segment[len]
  {
    hide Sum16;
    Sum16Step(segment, len - 1);
    Sum16LastStep(segment[..len], len - 1);
    assert segment[..len][..len - 1] == segment[..len - 1];
  }

  lemma PseudoSum(p: seq<u8>, proto: u8, len: u16, segment: seq<u8>)
    requires |p| >= IP_HEADER_MIN
    ensures Sum16(PseudoHeader(p, proto, len) + segment)
            == Sum16(p[12..16]) + Sum16(p[16..20]) + proto + len + Sum16(segment)
  {
    hide Sum16;
    var tail: seq<u8> := [0, proto, len / 256, len % 256];
    Sum16Concat(PseudoHeader(p, proto, len), segment);
    Sum16Concat(p[12..20], tail);
    Sum16Concat(p[12..16], p[16..20]);
    assert p[12..20] == p[12..16] + p[16..20];
    Sum16Address(tail);
  }

  function Segment(p: seq<u8>): seq<u8>
    requires HasHeader(p) && HeaderLen(p) <= TotalLen(p) <= |p|
  {
    p[HeaderLen(p)..TotalLen(p)]
  }

  /** The declared length fits, and what is beyond it adds nothing. */
  predicate TailVanishes(p: seq<u8>)
    requires WholePacket(p)
  {
    LengthFits(p) && Tail(Segment(p), DeclaredLen(p)) % 65535 == 0
  }

  /** The receiver's sum and the sum over the whole IP payload differ by the tail. */
  lemma ReceiverSum(q: seq<u8>)
    requires WholePacket(q) && LengthFits(q)
    ensures var hl, len := HeaderLen(q), DeclaredLen(q);
            TransportSum(q, q[9])
            == Sum16(PseudoHeader(q, q[9], len) + q[hl..hl + len]) + Tail(Segment(q), len)
  {
    hide Sum16, Word, HeaderLen, TotalLen, IsFragment, Tail, PseudoHeader;
    var hl, n, len, seg := HeaderLen(q), TotalLen(q) - HeaderLen(q), DeclaredLen(q), Segment(q);
    PseudoSum(q, q[9], n, seg);
    PseudoSum(q, q[9], len, seg[..len]);
    ShorterSum(seg, len);
    assert seg[..len] == q[hl..hl + len];
  }

  /** With a checksum that is right for the whole IP payload, the receiver's check passes exactly when
      the tail vanishes. */
  lemma ReceiverChecks(q: seq<u8>)
    requires WholePacket(q) && !Omitted(q, q[9]) && Verifies(TransportSum(q, q[9]))
    ensures TransportVerifies(q) <==> TailVanishes(q)
  {
    hide IsFragment, Sum16, Word, HeaderLen, TotalLen, Verifies, Tail, PseudoHeader, TransportSum;
    if LengthFits(q) {
      var hl, len := HeaderLen(q), DeclaredLen(q);
      var received := Sum16(PseudoHeader(q, q[9], len) + q[hl..hl + len]);
      ReceiverSum(q);
      VerifiesIffMultiple(TransportSum(q, q[9]));
      VerifiesIffMultiple(received);
      ReceivedPositive(q, len);
      MultiplesDiffer(received, Tail(Segment(q), len));
    }
  }

  /** The protocol number alone makes the receiver's sum positive. */
  lemma ReceivedPositive(q: seq<u8>, len: u16)
    requires WholePacket(q) && HeaderLen(q) + len <= |q|
    ensures Sum16(PseudoHeader(q, q[9], len) + q[HeaderLen(q)..HeaderLen(q) + len]) > 0
  {
    hide Sum16, Word, HeaderLen, TotalLen, IsFragment, PseudoHeader;
    PseudoSum(q, q[9], len, q[HeaderLen(q)..HeaderLen(q) + len]);
  }

  lemma MultiplesDiffer(a: nat, b: nat)
    requires (a + b) % 65535 == 0
    ensures a % 65535 == 0 <==> b % 65535 == 0
  {
  }

  lemma TailDepends(a: seq<u8>, b: seq<u8>, len: nat)
    requires len <= |a| == |b| && forall k :: len <= k < |a| ==> a[k] == b[k]
    ensures Tail(a, len) == Tail(b, len)
  {
    hide Sum16;
    assert a[len..] == b[len..];
    assert len < |a| ==> a[len + 1..] == b[len + 1..];
  }

  lemma SegmentsAgree(p: seq<u8>, q: seq<u8>, len: nat)
    requires WholePacket(p) && WholePacket(q) && |p| == |q| && p[9] == q[9]
    requires HeaderLen(q) == HeaderLen(p) && TotalLen(q) == TotalLen(p)
    requires forall k :: HeaderLen(p) <= k < |p| && k != FieldAt(p, p[9]) && k != FieldAt(p, p[9]) + 1 ==> q[k] == p[k]
    requires TransportMin(p[9]) <= len <= |Segment(p)|
    ensures Tail(Segment(p), len) == Tail(Segment(q), len)
  {
    hide Word, HeaderLen, TotalLen, IsFragment, Tail;
    TailDepends(Segment(p), Segment(q), len);
  }

  /** The rewrite leaves the declared length and the bytes beyond it. */
  lemma SameTail(p: seq<u8>, offset: nat, newIp: seq<u8>)
    requires WholePacket(p) && IsAddressOffset(offset) && |newIp| == 4
    requires WholePacket(Rewritten(p, offset, newIp))
    ensures var q := Rewritten(p, offset, newIp);
            DeclaredLen(q) == DeclaredLen(p) && (TailVanishes(q) <==> TailVanishes(p))
  {
    hide Sum16, SetWord, HeaderLen, TotalLen, Checksum, Rewritten, IpFixed, TransportFixed, Word, IsFragment, Tail;
    var s, q := Splice(p, offset, newIp), Rewritten(p, offset, newIp);
    RewriteFrame(p, offset, newIp);
    SpliceShape(p, offset, newIp);
    SameShape(s, q, FieldAt(p, p[9]));
    assert DeclaredLen(q) == DeclaredLen(p);
    if LengthFits(p) {
      SegmentsAgree(p, q, DeclaredLen(p));
    }
  }

  /** After a rewrite of a whole packet the header verifies, the sum over the IP payload verifies or a
      UDP packet sent without a checksum still goes without, and so the receiver's own check passes
      if and only if the UDP length fits and the bytes beyond it, if any, add up to nothing. */
  lemma RewriteVerifies(p: seq<u8>, offset: nat, newIp: seq<u8>)
    requires WholePacket(p) && IsAddressOffset(offset) && |newIp| == 4
    ensures var q := Rewritten(p, offset, newIp);
            && WholePacket(q) && HeaderVerifies(q)
            && (Omitted(q, q[9]) <==> Omitted(p, p[9]))
            && (Omitted(q, q[9]) || Verifies(TransportSum(q, q[9])))
            && (TransportVerifies(q) <==> Omitted(p, p[9]) || TailVanishes(p))
  {
    hide Sum16, SetWord, HeaderLen, TotalLen, Checksum, Rewritten, IpFixed, TransportFixed, Word, TransportVerifies;
    hide TailVanishes;
    var s, q := Splice(p, offset, newIp), Rewritten(p, offset, newIp);
    RewriteFrame(p, offset, newIp);
    IpFixedVerifies(s);
    IpFixedShape(s);
    TransportFixedVerifies(IpFixed(s), p[9]);
    TransportFixedHeader(IpFixed(s), p[9]);
    SpliceShape(p, offset, newIp);
    SameTail(p, offset, newIp);
    if !Omitted(q, q[9]) {
      ReceiverChecks(q);
    } else {
      OmittedVerifies(q);
    }
  }

  lemma OmittedVerifies(q: seq<u8>)
    requires WholePacket(q) && Omitted(q, q[9])
    ensures TransportVerifies(q)
  {
  }

  /** Where the UDP length is the length of the IP payload, as it always is for TCP, there is no tail. */
  lemma NoTail(p: seq<u8>)
    requires WholePacket(p) && DeclaredLen(p) == TotalLen(p) - HeaderLen(p)
    ensures TailVanishes(p)
  {
    hide HeaderLen, TotalLen, IsFragment, Word;
    assert Segment(p)[DeclaredLen(p)..] == [];
  }

  lemma TransportFixedHeader(p: seq<u8>, proto: u8)
    requires HasHeader(p)
    ensures TransportFixed(p, proto)[..HeaderLen(p)] == p[..HeaderLen(p)]
  {
    hide Sum16, HeaderLen, TotalLen, Checksum, Word;
  }

  lemma SpliceAgrees(p: seq<u8>, r: seq<u8>, offset: nat, a: seq<u8>, b: seq<u8>, at: nat)
    requires |a| == |b| && offset + |a| <= |p|
    requires AgreeBeside(r, Splice(p, offset, a), at)
    ensures AgreeBeside(Splice(r, offset, b), Splice(p, offset, b), at)
  {
  }

  /** Rewriting the same field twice is rewriting it once, to the last address. */
  lemma RewriteTwice(p: seq<u8>, offset: nat, a: seq<u8>, b: seq<u8>)
    requires WholePacket(p) && IsAddressOffset(offset) && |a| == |b| == 4
    ensures Rewritten(Rewritten(p, offset, a), offset, b) == Rewritten(p, offset, b)
  {
    hide Sum16, SetWord, Word, HeaderLen, TotalLen, Checksum, Rewritten, IpFixed, TransportFixed;
    hide AgreeBeside, Splice, IsFragment;
    var r, at := Rewritten(p, offset, a), FieldAt(p, p[9]);
    RewriteFrame(p, offset, a);
    RewriteFrame(r, offset, b);
    RewriteFrame(p, offset, b);
    SpliceAgrees(p, r, offset, a, b, at);
    var u, v := Splice(r, offset, b), Splice(p, offset, b);
    SpliceShape(r, offset, b);
    SpliceShape(p, offset, b);
    SpliceField(r, offset, b, at);
    SpliceField(p, offset, b, at);
    FixedAlike(u, v, p[9]);
  }

  lemma SpliceField(p: seq<u8>, offset: nat, ip: seq<u8>, at: nat)
    requires offset + |ip| <= at && at + 1 < |p|
    ensures Splice(p, offset, ip)[at] == p[at] && Splice(p, offset, ip)[at + 1] == p[at + 1]
  {
  }

  function ThereAndBack(p: seq<u8>, offset: nat, newIp: seq<u8>): seq<u8>
    requires IsAddressOffset(offset) && |newIp| == 4 && |p| >= IP_HEADER_MIN
  {
    Rewritten(Rewritten(p, offset, newIp), offset, p[offset..offset + 4])
  }

  /** Of the fields that verify with a positive sum, the computed one is the one that is not all
      ones, and for UDP the one that is not zero. */
  lemma ChecksumUnique(s: nat, c: u16)
    requires s > 0
    ensures c == Checksum(s) <==> Verifies(s + c) && c != 0xFFFF
    ensures c == NonZero(Checksum(s)) <==> Verifies(s + c) && c != 0
  {
    FoldClosed(s);
    VerifiesIffMultiple(s + c);
    ModPred(s);
  }

  lemma HeaderIsFixed(p: seq<u8>)
    requires HasHeader(p)
    ensures IpFixed(p) == p <==> HeaderVerifies(p) && Word(p[10], p[11]) != 0xFFFF
  {
    hide Sum16, SetWord, Word, HeaderLen, Checksum, Verifies;
    var hl, field := HeaderLen(p), Word(p[10], p[11]);
    var s := Sum16(SetWord(p, 10, 0)[..hl]);
    SetWordSame(p, 10, field);
    SetWordSame(p, 10, HeaderChecksum(p));
    WordContributes(p, 0, hl, 10, field);
    HeaderSumPositive(p);
    ChecksumUnique(s, field);
  }

  lemma HeaderSumPositive(p: seq<u8>)
    requires HasHeader(p)
    ensures Sum16(SetWord(p, 10, 0)[..HeaderLen(p)]) > 0
  {
    hide Sum16, SetWord, Word;
    Sum16Positive(SetWord(p, 10, 0)[..HeaderLen(p)]);
  }

  lemma TransportIsFixed(p: seq<u8>)
    requires WholePacket(p) && !Omitted(p, p[9])
    ensures TransportFixed(p, p[9]) == p
            <==> Verifies(TransportSum(p, p[9])) && (p[9] == IPPROTO_TCP ==> Field(p, p[9]) != 0xFFFF)
  {
    hide Sum16, SetWord, Word, HeaderLen, TotalLen, Checksum, Verifies, TransportSum, IsFragment;
    var proto, at, s := p[9], FieldAt(p, p[9]), ZeroedSum(p, p[9]);
    var c := Field(p, proto);
    SetWordSame(p, at, c);
    SetWordSame(p, at, Sent(proto, Checksum(s)));
    FieldContributes(p, proto, c);
    ChecksumUnique(s, c);
  }

  /** Rewriting an address and then back gives the packet exactly as it was if and only if its
      checksums were right and in the usual form. */
  lemma RewriteThereAndBack(p: seq<u8>, offset: nat, newIp: seq<u8>)
    requires WholePacket(p) && IsAddressOffset(offset) && |newIp| == 4
    ensures ThereAndBack(p, offset, newIp) == p <==> Canonical(p)
  {
    hide Sum16, SetWord, Word, HeaderLen, TotalLen, Checksum, Rewritten, IpFixed, TransportFixed, HeaderVerifies;
    hide Verifies, TransportSum;
    var oldIp := p[offset..offset + 4];
    RewriteTwice(p, offset, newIp, oldIp);
    RewriteFrame(p, offset, oldIp);
    assert Splice(p, offset, oldIp) == p;
    BothFixed(p);
    HeaderIsFixed(p);
    if !Omitted(p, p[9]) {
      TransportIsFixed(p);
    } else {
      OmittedIsFixed(p);
    }
  }

  lemma OmittedIsFixed(p: seq<u8>)
    requires WholePacket(p) && Omitted(p, p[9])
    ensures TransportFixed(p, p[9]) == p
  {
  }

  /** The two fixes leave a packet alone together if and only if each does. */
  lemma BothFixed(p: seq<u8>)
    requires WholePacket(p)
    ensures TransportFixed(IpFixed(p), p[9]) == p <==> IpFixed(p) == p && TransportFixed(p, p[9]) == p
  {
    hide Sum16, SetWord, Word, HeaderLen, TotalLen, Checksum;
    IpFixedShape(p);
    TransportFixedHeader(IpFixed(p), p[9]);
    var q := TransportFixed(IpFixed(p), p[9]);
    if q == p {
      assert forall k :: 0 <= k < HeaderLen(p) ==> IpFixed(p)[k] == q[..HeaderLen(p)][k] == p[k];
      assert IpFixed(p) == p;
    }
  }

  // --- A packet with bytes beyond its UDP length ---

  /** Ports 1 and 2, UDP length 8, and two more bytes in the IP payload; both checksums verify. */
  function Trailing(): seq<u8> {
    [0x45, 0, 0, 30, 0, 0, 0, 0, 64, 17, 0x6A, 0xBC, 1, 2, 3, 4, 5, 6, 7, 8, 0, 1, 0, 2, 0, 8, 0xEF, 0xC7, 0, 1]
  }

  lemma Sum16Eight(b: seq<u8>)
    requires |b| == 8
    ensures Sum16(b) == Word(b[0], b[1]) + Word(b[2], b[3]) + Word(b[4], b[5]) + Word(b[6], b[7])
  {
    hide Sum16;
    Sum16Concat(b[..4], b[4..]);
    assert b == b[..4] + b[4..];
    Sum16Address(b[..4]);
    Sum16Address(b[4..]);
  }

  lemma TrailingBytes()
    ensures var p := Trailing();
            && |p| == 30
            && p[0] == 0x45 && p[1] == p[2] == p[4] == p[5] == p[6] == p[7] == 0 && p[3] == 30
            && p[8] == 64 && p[9] == 17 && p[10] == 0x6A && p[11] == 0xBC
            && p[12] == 1 && p[13] == 2 && p[14] == 3 && p[15] == 4
            && p[16] == 5 && p[17] == 6 && p[18] == 7 && p[19] == 8
            && p[20] == 0 && p[21] == 1 && p[22] == 0 && p[23] == 2
            && p[24] == 0 && p[25] == 8 && p[26] == 0xEF && p[27] == 0xC7 && p[28] == 0 && p[29] == 1
  {
  }

  lemma TrailingHeader()
    ensures Sum16(Trailing()[..20]) == 0xFFFF
  {
    hide Sum16, Trailing;
    var p := Trailing();
    TrailingBytes();
    Sum16Concat(p[..8], p[8..16] + p[16..20]);
    Sum16Concat(p[8..16], p[16..20]);
    assert p[..20] == p[..8] + (p[8..16] + p[16..20]);
    Sum16Eight(p[..8]);
    Sum16Eight(p[8..16]);
    Sum16Address(p[16..20]);
  }

  lemma TrailingSegment()
    ensures Sum16(PseudoHeader(Trailing(), 17, 8) + Trailing()[20..28]) == 0xFFFF
  {
    hide Sum16, Trailing, PseudoHeader;
    var p := Trailing();
    TrailingBytes();
    PseudoSum(p, 17, 8, p[20..28]);
    Sum16Address(p[12..16]);
    Sum16Address(p[16..20]);
    Sum16Eight(p[20..28]);
  }

  lemma TrailingShape()
    ensures var p := Trailing();
            && WholePacket(p) && p[9] == 17 && HeaderLen(p) == 20 && TotalLen(p) == 30
            && !Omitted(p, 17) && DeclaredLen(p) == 8
  {
    hide Trailing;
    TrailingBytes();
  }

  /** A packet every receiver accepts, and that no receiver accepts any more after any rewrite: the
      relay's checksum covers the bytes beyond the UDP length, the receiver's does not. */
  lemma RewriteCanSpoilChecksum(offset: nat, newIp: seq<u8>)
    requires IsAddressOffset(offset) && |newIp| == 4
    ensures WholePacket(Trailing()) && HeaderVerifies(Trailing()) && TransportVerifies(Trailing())
    ensures var q := Rewritten(Trailing(), offset, newIp); WholePacket(q) && !TransportVerifies(q)
  {
    hide Trailing, Rewritten, Sum16, IsFragment, HeaderLen, TotalLen, Word, PseudoHeader;
    TrailingShape();
    TrailingHeader();
    TrailingSegment();
    VerifiesIffMultiple(0xFFFF);
    RewriteVerifies(Trailing(), offset, newIp);
    TrailingTail();
  }

  lemma TrailingTail()
    ensures |Trailing()| == 30 && Tail(Trailing()[20..30], 8) == 3
  {
    hide Trailing;
    var p := Trailing();
    TrailingBytes();
    assert p[20..30][8..] == [0, 1];
    assert Sum16([0, 1]) == Word(0, 1) + Sum16([0, 1][2..]);
  }

  // --- The same on bytes ---

  predicate InAddress(k: nat, offset: nat) {
    offset <= k < offset + 4
  }

  /** The two bytes of a TCP or UDP checksum. */
  predicate InTransportField(p: seq<u8>, k: nat)
    requires |p| >= 20
  {
    var hl := p[0] % 16 * 4;
    || (p[9] == 6 && (k == hl + 16 || k == hl + 17))
    || (p[9] == 17 && (k == hl + 6 || k == hl + 7))
  }

  /** Whatever the protocol, and whether or not the packet is a fragment: the address becomes the new
      one, the header verifies, and beside the header checksum and a TCP or UDP checksum no other byte
      changes. */
  lemma RewriteReachesEveryProtocol(p: seq<u8>, offset: nat, newIp: seq<u8>)
    requires |p| >= 20 && 20 <= p[0] % 16 * 4 <= |p| && (offset == 12 || offset == 16) && |newIp| == 4
    ensures var q := Rewritten(p, offset, newIp);
            && |q| == |p| && q[offset..offset + 4] == newIp
            && HasHeader(q) && HeaderVerifies(q)
            && forall k :: 0 <= k < |p| && !InAddress(k, offset) && k != 10 && k != 11 && !InTransportField(p, k) ==>
                             q[k] == p[k]
  {
    hide Sum16, SetWord, Checksum, TransportSum, Rewritten, Verifies, Word, IpFixed, Splice;
    var s, q := Splice(p, offset, newIp), Rewritten(p, offset, newIp);
    SpliceShape(p, offset, newIp);
    IpFixedVerifies(s);
    IpFixedShape(s);
    var r, hl := IpFixed(s), HeaderLen(p);
    OnlyTheField(p, offset, newIp);
    assert q[..hl] == r[..hl];
    assert q[offset..offset + 4] == r[offset..offset + 4] == s[offset..offset + 4];
  }

  /** After the header checksum is set, a rewrite changes at most a TCP or UDP checksum. */
  lemma OnlyTheField(p: seq<u8>, offset: nat, newIp: seq<u8>)
    requires HasHeader(p) && IsAddressOffset(offset) && |newIp| == 4
    ensures var r, q := IpFixed(Splice(p, offset, newIp)), Rewritten(p, offset, newIp);
            && |r| == |q| == |p|
            && forall k :: 0 <= k < |p| && !InTransportField(p, k) ==> q[k] == r[k]
  {
    hide Sum16, SetWord, Checksum, TransportSum, Adjusted, Word, IpFixed, Splice;
    SpliceShape(p, offset, newIp);
    IpFixedShape(Splice(p, offset, newIp));
  }

  /** A packet without a whole header has only its address changed, unless it is taken for TCP or UDP;
      a packet too short for addresses is left alone. */
  lemma RewriteWithoutHeader(p: seq<u8>, offset: nat, newIp: seq<u8>)
    requires !HasHeader(p) && IsAddressOffset(offset) && |newIp| == 4
    ensures var q := Rewritten(p, offset, newIp);
            && (|p| < 20 ==> q == p)
            && (|p| >= 20 && p[9] != 6 && p[9] != 17 ==> q == p[..offset] + newIp + p[offset + 4..])
  {
  }

  /** Unfragmented: no more fragments, and offset zero. */
  lemma FragmentOnBytes(p: seq<u8>)
    requires HasHeader(p)
    ensures IsFragment(p) <==> Word(p[6], p[7]) % 0x4000 != 0
  {
    hide Word;
    LowBits(FragmentBits(p));
  }

  lemma LowBits(bits: nat)
    ensures bits % 0x4000 == 0 <==> bits % 0x2000 == 0 && bits / 0x2000 % 2 == 0
  {
  }

  lemma WholePacketOnBytes(p: seq<u8>)
    ensures WholePacket(p) <==>
              && |p| >= 20
              && var hl, total := p[0] % 16 * 4, Word(p[2], p[3]);
              && 20 <= hl && total <= |p| && Word(p[6], p[7]) % 0x4000 == 0
              && ((p[9] == 6 && hl + 20 <= total) || (p[9] == 17 && hl + 8 <= total))
  {
    hide IsFragment, Word;
    if HasHeader(p) {
      FragmentOnBytes(p);
    }
  }

  /** A receiver accepts a header that is a multiple of 65535 as a number. */
  lemma HeaderVerifiesOnBytes(p: seq<u8>)
    requires HasHeader(p)
    ensures HeaderVerifies(p) <==> Number(p[..p[0] % 16 * 4]) % 65535 == 0
  {
    hide Number, Verifies, Sum16;
    var h := p[..HeaderLen(p)];
    VerifiesIffNumber(h);
    EvenSum(h);
    assert Sum16(h) > 0 by { Sum16Positive(h); }
  }

  /** A receiver accepts the transport part if UDP carries no checksum, or the length fits and the
      pseudo-header with that many bytes is a multiple of 65535 as a number. */
  lemma TransportVerifiesOnBytes(p: seq<u8>)
    requires WholePacket(p)
    ensures var hl, total: nat := p[0] % 16 * 4, Word(p[2], p[3]);
            TransportVerifies(p) <==>
              || (p[9] == 17 && p[hl + 6] == p[hl + 7] == 0)
              || (var len: u16 := if p[9] == 17 then Word(p[hl + 4], p[hl + 5]) else total - hl;
                  && (if p[9] == 17 then 8 else 20) <= len <= total - hl
                  && Number(Even(p[12..20] + [0, p[9], len / 256, len % 256] + p[hl..hl + len])) % 65535 == 0)
  {
    hide Number, Verifies, Sum16, IsFragment, Word, Even;
    var hl, len := HeaderLen(p), DeclaredLen(p);
    OmittedOnBytes(p);
    if LengthFits(p) {
      var b := PseudoHeader(p, p[9], len) + p[hl..hl + len];
      VerifiesIffNumber(b);
      ReceivedPositive(p, len);
      NumberPositive(b);
    }
  }

  lemma OmittedOnBytes(p: seq<u8>)
    requires WholePacket(p)
    ensures Omitted(p, p[9]) <==> p[9] == 17 && p[p[0] % 16 * 4 + 6] == p[p[0] % 16 * 4 + 7] == 0
  {
    hide IsFragment, TotalLen;
  }

  lemma NumberPositive(b: seq<u8>)
    requires Sum16(b) > 0
    ensures Number(Even(b)) > 0
  {
    hide Number, Sum16, Even;
    PaddingKeepsSum(b);
    EvenSum(Even(b));
  }
}
