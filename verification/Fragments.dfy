/** Rewriting the fragments of a datagram one by one, against rewriting the datagram they make.
    Only fragment 0 carries the transport checksum; it is patched, later fragments are left alone. */
module Fragments {
  import opened Bytes
  import opened OnesComplement
  import opened TunRewrite
  import opened RewriteTheorems

  function Payload(p: seq<u8>): seq<u8>
    requires HasHeader(p)
  {
    p[HeaderLen(p)..]
  }

  predicate AllHeaders(fs: seq<seq<u8>>) {
    forall i :: 0 <= i < |fs| ==> HasHeader(fs[i])
  }

  function Joined(fs: seq<seq<u8>>): seq<u8>
    requires AllHeaders(fs)
  {
    if fs == [] then [] else Payload(fs[0]) + Joined(fs[1..])
  }

  /** Two packets that belong to one datagram: same protocol, identification and addresses. */
  predicate SameDatagram(p: seq<u8>, q: seq<u8>)
    requires HasHeader(p) && HasHeader(q)
  {
    p[9] == q[9] && p[4..6] == q[4..6] && p[12..20] == q[12..20]
  }

  /** All fragments of one TCP or UDP datagram in offset order (section 3.2 of RFC 791), fragment 0
      holding the checksum field. */
  ghost predicate Fragmentation(fs: seq<seq<u8>>) {
    && |fs| >= 2
    && AllHeaders(fs)
    && (forall i :: 0 <= i < |fs| ==>
          && TotalLen(fs[i]) == |fs[i]|
          && SameDatagram(fs[i], fs[0])
          && (MoreFragments(fs[i]) <==> i < |fs| - 1)
          && FragmentOffset(fs[i]).value * 8 == |Joined(fs[..i])|)
    && var proto := fs[0][9];
    && CarriesChecksum(proto)
    && |Payload(fs[0])| >= ChecksumAt(proto) + 2
    && |Joined(fs)| >= TransportMin(proto)
    && HeaderLen(fs[0]) + |Joined(fs)| <= 0xFFFF
  }

  /** The unfragmented packet with fragment 0's header, before its header checksum is set. */
  function Unfragmented(first: seq<u8>, data: seq<u8>): (p: seq<u8>)
    requires HasHeader(first) && HeaderLen(first) + |data| <= 0xFFFF
  {
    var hl := HeaderLen(first);
    SetWord(SetWord(first[..hl], 2, hl + |data|), 6, FragmentBits(first) / 0x4000 * 0x4000) + data
  }

  function Reassembled(fs: seq<seq<u8>>): seq<u8>
    requires |fs| > 0 && AllHeaders(fs) && HeaderLen(fs[0]) + |Joined(fs)| <= 0xFFFF
  {
    IpFixed(Unfragmented(fs[0], Joined(fs)))
  }

  function RewriteEach(fs: seq<seq<u8>>, offset: nat, newIp: seq<u8>): (gs: seq<seq<u8>>)
    requires IsAddressOffset(offset) && |newIp| == 4
    ensures |gs| == |fs|
  {
    seq(|fs|, i requires 0 <= i < |fs| => Rewritten(fs[i], offset, newIp))
  }

  // --- One fragment ---

  lemma LaterFragment(p: seq<u8>, offset: nat, newIp: seq<u8>)
    requires HasHeader(p) && FragmentOffset(p) != Some(0) && IsAddressOffset(offset) && |newIp| == 4
    ensures var q := Rewritten(p, offset, newIp);
            && HasHeader(q) && HeaderLen(q) == HeaderLen(p) && Payload(q) == Payload(p)
            && q == IpFixed(Splice(p, offset, newIp))
  {
    hide Sum16, SetWord, HeaderLen, TotalLen, Checksum, Word, IpFixed;
    var s := Splice(p, offset, newIp);
    SpliceShape(p, offset, newIp);
    IpFixedShape(s);
    SliceAgrees(p, IpFixed(s), HeaderLen(p), |p|);
  }

  /** The value the patch leaves in the checksum field of fragment 0. */
  function PatchedField(c: u16, proto: u8, oldIp: seq<u8>, newIp: seq<u8>): u16
    requires |oldIp| == |newIp| == 4
  {
    if proto == IPPROTO_UDP && c == 0 then 0 else Sent(proto, Adjusted(c, oldIp, newIp))
  }

  lemma PatchedForm(f: seq<u8>, proto: u8, oldIp: seq<u8>, newIp: seq<u8>)
    requires Patchable(f, proto) && |oldIp| == |newIp| == 4
    ensures Patched(f, proto, oldIp, newIp)
            == WithField(f, proto, PatchedField(Field(f, proto), proto, oldIp, newIp))
  {
    hide SetWord, HeaderLen, Word, Adjusted;
    SetWordSame(f, FieldAt(f, proto), Field(f, proto));
  }

  lemma FirstFragment(p: seq<u8>, offset: nat, newIp: seq<u8>)
    requires HasHeader(p) && FragmentOffset(p) == Some(0) && MoreFragments(p)
    requires CarriesChecksum(p[9]) && FieldAt(p, p[9]) + 2 <= |p|
    requires IsAddressOffset(offset) && |newIp| == 4
    ensures Rewritten(p, offset, newIp)
            == WithField(IpFixed(Splice(p, offset, newIp)), p[9],
                         PatchedField(Field(p, p[9]), p[9], p[offset..offset + 4], newIp))
  {
    hide Sum16, SetWord, HeaderLen, TotalLen, Checksum, Word, IpFixed, Patched, WithField, PatchedField, Splice;
    var s := Splice(p, offset, newIp);
    var f, at := IpFixed(s), FieldAt(p, p[9]);
    SpliceShape(p, offset, newIp);
    SpliceField(p, offset, newIp, at);
    IpFixedShape(s);
    PatchedForm(f, p[9], p[offset..offset + 4], newIp);
  }

  // --- All fragments ---

  lemma {:induction false} LaterJoined(fs: seq<seq<u8>>, offset: nat, newIp: seq<u8>)
    requires AllHeaders(fs) && IsAddressOffset(offset) && |newIp| == 4
    requires forall i :: 0 <= i < |fs| ==> FragmentOffset(fs[i]) != Some(0)
    ensures AllHeaders(RewriteEach(fs, offset, newIp))
    ensures Joined(RewriteEach(fs, offset, newIp)) == Joined(fs)
  {
    hide Rewritten, Payload, HasHeader, FragmentOffset;
    if fs != [] {
      var gs := RewriteEach(fs, offset, newIp);
      assert gs[1..] == RewriteEach(fs[1..], offset, newIp);
      LaterJoined(fs[1..], offset, newIp);
      LaterFragment(fs[0], offset, newIp);
    }
  }

  lemma LaterOffsets(fs: seq<seq<u8>>, i: nat)
    requires Fragmentation(fs) && 1 <= i < |fs|
    ensures FragmentOffset(fs[i]) != Some(0)
  {
    assert |Joined(fs[..i])| >= |Payload(fs[..i][0])|;
    assert fs[..i][0] == fs[0];
  }

  lemma JoinedRewritten(fs: seq<seq<u8>>, offset: nat, newIp: seq<u8>, c: u16)
    requires Fragmentation(fs) && IsAddressOffset(offset) && |newIp| == 4
    requires Rewritten(fs[0], offset, newIp) == WithField(IpFixed(Splice(fs[0], offset, newIp)), fs[0][9], c)
    ensures var gs := RewriteEach(fs, offset, newIp);
            AllHeaders(gs) && HeaderLen(gs[0]) == HeaderLen(fs[0])
            && Joined(gs) == SetWord(Joined(fs), ChecksumAt(fs[0][9]), c)
  {
    hide Rewritten, Splice, IpFixed, SetWord, Word, HeaderLen, TotalLen, Sum16;
    var gs, at := RewriteEach(fs, offset, newIp), ChecksumAt(fs[0][9]);
    forall i | 1 <= i < |fs|
      ensures FragmentOffset(fs[i]) != Some(0)
    {
      LaterOffsets(fs, i);
    }
    assert gs[1..] == RewriteEach(fs[1..], offset, newIp);
    LaterJoined(fs[1..], offset, newIp);
    var s := Splice(fs[0], offset, newIp);
    SpliceShape(fs[0], offset, newIp);
    IpFixedShape(s);
    FirstPayload(fs[0], offset, newIp, c);
    assert SetWord(Payload(fs[0]), at, c) + Joined(fs[1..]) == SetWord(Joined(fs), at, c) by {
      SetWordInPrefix(Payload(fs[0]), Joined(fs[1..]), at, c);
    }
  }

  lemma SetWordInPrefix(a: seq<u8>, b: seq<u8>, i: nat, w: u16)
    requires i + 1 < |a|
    ensures SetWord(a + b, i, w) == SetWord(a, i, w) + b
  {
  }

  lemma DropOfSetWord(p: seq<u8>, lo: nat, i: nat, w: u16)
    requires lo <= i && i + 1 < |p|
    ensures SetWord(p, i, w)[lo..] == SetWord(p[lo..], i - lo, w)
  {
  }

  lemma DropAgrees(p: seq<u8>, q: seq<u8>, lo: nat)
    requires lo <= |p| == |q| && forall k :: lo <= k < |p| ==> p[k] == q[k]
    ensures p[lo..] == q[lo..]
  {
  }

  lemma FirstPayload(p: seq<u8>, offset: nat, newIp: seq<u8>, c: u16)
    requires HasHeader(p) && FieldAt(p, p[9]) + 2 <= |p| && IsAddressOffset(offset) && |newIp| == 4
    ensures var f := IpFixed(Splice(p, offset, newIp));
            && HasHeader(f) && HeaderLen(f) == HeaderLen(p) && f[9] == p[9]
            && var q := WithField(f, p[9], c);
            && HasHeader(q) && HeaderLen(q) == HeaderLen(p)
            && Payload(q) == SetWord(Payload(p), ChecksumAt(p[9]), c)
  {
    hide Splice, IpFixed, SetWord, Word, HeaderLen, TotalLen, Sum16;
    var s := Splice(p, offset, newIp);
    var f, hl := IpFixed(s), HeaderLen(p);
    SpliceShape(p, offset, newIp);
    IpFixedShape(s);
    DropAgrees(p, f, hl);
    DropOfSetWord(f, hl, FieldAt(p, p[9]), c);
    assert Payload(f) == Payload(p);
  }

  // --- The reassembled packet ---

  lemma ClearedBits(bits: u16)
    ensures var cleared := bits / 0x4000 * 0x4000;
            0 <= cleared < 0x1_0000 && cleared % 0x2000 == 0 && cleared / 0x2000 % 2 == 0
  {
    var n := bits / 0x4000;
    assert n * 0x4000 == (2 * n) * 0x2000;
  }

  lemma UnfragmentedShape(first: seq<u8>, data: seq<u8>)
    requires HasHeader(first) && HeaderLen(first) + |data| <= 0xFFFF
    ensures var p, hl := Unfragmented(first, data), HeaderLen(first);
            && HasHeader(p) && HeaderLen(p) == hl && TotalLen(p) == |p| == hl + |data|
            && !IsFragment(p)
            && p[hl..] == data
            && (forall k :: 0 <= k < hl && k != 2 && k != 3 && k != 6 && k != 7 ==> p[k] == first[k])
  {
    ClearedBits(FragmentBits(first));
  }

  /** The header of a reassembled packet depends only on fragment 0's header and the length. */
  lemma UnfragmentedAgrees(p: seq<u8>, q: seq<u8>, data: seq<u8>, data': seq<u8>)
    requires HasHeader(p) && HasHeader(q) && HeaderLen(q) == HeaderLen(p)
    requires FragmentBits(p) == FragmentBits(q) && |data| == |data'|
    requires HeaderLen(p) + |data| <= 0xFFFF
    ensures var u, v := Unfragmented(p, data), Unfragmented(q, data');
            |u| == |v| && u[2] == v[2] && u[3] == v[3] && u[6] == v[6] && u[7] == v[7]
  {
    hide Word, HeaderLen, FragmentBits;
  }

  /** Reassembling the rewritten fragments gives the rewritten datagram, up to the header
      checksum, with the patched field in place of the recomputed one. */
  lemma UnfragmentedRewrite(p: seq<u8>, data: seq<u8>, offset: nat, newIp: seq<u8>, c: u16)
    requires HasHeader(p) && HeaderLen(p) + |data| <= 0xFFFF && IsAddressOffset(offset) && |newIp| == 4
    requires FieldAt(p, p[9]) + 2 <= |p| && ChecksumAt(p[9]) + 2 <= |data|
    ensures var f := IpFixed(Splice(p, offset, newIp));
            && HasHeader(f) && HeaderLen(f) == HeaderLen(p) && f[9] == p[9]
            && var q := WithField(f, p[9], c);
            && HasHeader(q)
            && var s := Splice(Unfragmented(p, data), offset, newIp);
            && HeaderLen(s) == HeaderLen(p)
            && AgreeExceptAt(Unfragmented(q, SetWord(data, ChecksumAt(p[9]), c)), WithField(s, p[9], c), 10)
  {
    hide SetWord, Splice, Word, HeaderLen, TotalLen, Sum16, Checksum, Unfragmented, IpFixed;
    var proto, hl := p[9], HeaderLen(p);
    var at := ChecksumAt(proto);
    var sp := Splice(p, offset, newIp);
    var f := IpFixed(sp);
    SpliceShape(p, offset, newIp);
    IpFixedShape(sp);
    var q, data' := WithField(f, proto, c), SetWord(data, at, c);
    var u, u' := Unfragmented(p, data), Unfragmented(q, data');
    UnfragmentedShape(p, data);
    UnfragmentedShape(q, data');
    assert FragmentBits(q) == FragmentBits(p);
    UnfragmentedAgrees(p, q, data, data');
    var s := Splice(u, offset, newIp);
    SpliceShape(u, offset, newIp);
    var w := WithField(s, proto, c);
    DropOfSetWord(s, hl, hl + at, c);
    DropAgrees(s, u, hl);
    assert w[hl..] == data' == u'[hl..];
    forall k | 0 <= k < |w| && k != 10 && k != 11
      ensures u'[k] == w[k]
    {
      if k >= hl {
        assert u'[k] == u'[hl..][k - hl] && w[k] == w[hl..][k - hl];
      } else if k == 2 || k == 3 || k == 6 || k == 7 {
        assert w[k] == s[k] == u[k];
      } else {
        assert u'[k] == q[k] == f[k] == sp[k] && w[k] == s[k];
        if offset <= k < offset + 4 {
          assert sp[k] == sp[offset..offset + 4][k - offset] && s[k] == s[offset..offset + 4][k - offset];
        }
      }
    }
  }

  lemma FieldAndHeaderCommute(s: seq<u8>, proto: u8, c: u16)
    requires HasHeader(s) && FieldAt(s, proto) + 2 <= |s|
    ensures IpFixed(WithField(s, proto, c)) == WithField(IpFixed(s), proto, c)
  {
    hide Sum16, Word, HeaderLen, TotalLen, Checksum;
    var w, at := WithField(s, proto, c), FieldAt(s, proto);
    IpFixedShape(s);
    HeaderChecksumDepends(s, w, at);
  }

  /** The left-hand side: rewrite every fragment, then reassemble. */
  lemma RewriteThenReassemble(fs: seq<seq<u8>>, offset: nat, newIp: seq<u8>)
    requires Fragmentation(fs) && IsAddressOffset(offset) && |newIp| == 4
    ensures var gs, p := RewriteEach(fs, offset, newIp), fs[0];
            var c := PatchedField(Field(p, p[9]), p[9], p[offset..offset + 4], newIp);
            var s := Splice(Unfragmented(p, Joined(fs)), offset, newIp);
            && AllHeaders(gs) && HeaderLen(gs[0]) == HeaderLen(p) && |Joined(gs)| == |Joined(fs)|
            && WholePacket(s) && HeaderLen(s) == HeaderLen(p) && s[9] == p[9]
            && Reassembled(gs) == WithField(IpFixed(s), p[9], c)
  {
    hide Rewritten, Splice, IpFixed, SetWord, Word, HeaderLen, TotalLen, Sum16, Unfragmented, PatchedField, Payload;
    var gs, p, data := RewriteEach(fs, offset, newIp), fs[0], Joined(fs);
    FirstHasField(fs);
    var c := PatchedField(Field(p, p[9]), p[9], p[offset..offset + 4], newIp);
    FirstFragment(p, offset, newIp);
    JoinedRewritten(fs, offset, newIp, c);
    UnfragmentedShape(p, data);
    UnfragmentedRewrite(p, data, offset, newIp, c);
    var u := Unfragmented(p, data);
    SpliceShape(u, offset, newIp);
    var s := Splice(u, offset, newIp);
    var u', w := Unfragmented(gs[0], Joined(gs)), WithField(s, p[9], c);
    UnfragmentedShape(gs[0], Joined(gs));
    IpFixedAlike(u', w, |u'|);
    FieldAndHeaderCommute(s, p[9], c);
  }

  lemma FirstHasField(fs: seq<seq<u8>>)
    requires Fragmentation(fs)
    ensures FragmentOffset(fs[0]) == Some(0) && MoreFragments(fs[0]) && CarriesChecksum(fs[0][9])
    ensures FieldAt(fs[0], fs[0][9]) + 2 <= |fs[0]|
    ensures |Joined(fs)| >= TransportMin(fs[0][9]) >= ChecksumAt(fs[0][9]) + 2
  {
    assert fs[..0] == [];
    assert Joined(fs[..0]) == [];
    assert FragmentOffset(fs[0]).value * 8 == |Joined(fs[..0])|;
  }

  /** The right-hand side: reassemble, then rewrite. */
  lemma ReassembleThenRewrite(u: seq<u8>, offset: nat, newIp: seq<u8>)
    requires WholePacket(u) && IsAddressOffset(offset) && |newIp| == 4
    ensures var s := Splice(u, offset, newIp);
            && WholePacket(s) && WholePacket(IpFixed(u)) && s[9] == u[9]
            && Rewritten(IpFixed(u), offset, newIp) == TransportFixed(IpFixed(s), u[9])
  {
    hide Rewritten, IpFixed, SetWord, Word, HeaderLen, TotalLen, Sum16, TransportFixed, Splice, AgreeBeside;
    var d, at := IpFixed(u), FieldAt(u, u[9]);
    IpFixedShape(u);
    RewriteFrame(d, offset, newIp);
    SpliceShape(u, offset, newIp);
    SpliceShape(d, offset, newIp);
    var x, s := Splice(d, offset, newIp), Splice(u, offset, newIp);
    SplicedAlike(d, u, offset, newIp, at);
    FixedAlike(x, s, u[9]);
  }

  lemma SplicedAlike(d: seq<u8>, u: seq<u8>, offset: nat, ip: seq<u8>, at: nat)
    requires AgreeExceptAt(u, d, 10) && offset + |ip| <= at && 12 <= at && at + 1 < |u|
    ensures var x, s := Splice(d, offset, ip), Splice(u, offset, ip);
            AgreeBeside(x, s, at) && x[at] == s[at] && x[at + 1] == s[at + 1]
  {
  }

  /** The zeroed sums before and after the address changes differ by the address words. */
  lemma ZeroedSumShift(u: seq<u8>, offset: nat, newIp: seq<u8>)
    requires WholePacket(u) && IsAddressOffset(offset) && |newIp| == 4
    ensures var s := Splice(u, offset, newIp);
            && WholePacket(s) && WholePacket(IpFixed(s)) && s[9] == u[9] && IpFixed(s)[9] == u[9]
            && ZeroedSum(IpFixed(s), u[9]) + Sum16(u[offset..offset + 4]) == ZeroedSum(u, u[9]) + Sum16(newIp)
  {
    hide IpFixed, SetWord, Word, HeaderLen, TotalLen, Sum16, TransportSum;
    var s, proto, at := Splice(u, offset, newIp), u[9], FieldAt(u, u[9]);
    SpliceShape(u, offset, newIp);
    IpFixedShape(s);
    ZeroedSumDepends(s, IpFixed(s), proto);
    var z := WithField(u, proto, 0);
    SameShape(u, z, at);
    AddressContributes(z, offset, newIp, proto);
    SliceAgrees(z, u, offset, offset + 4);
    SpliceCommutes(u, offset, newIp, at, 0);
  }

  lemma SpliceCommutes(p: seq<u8>, offset: nat, ip: seq<u8>, at: nat, w: u16)
    requires offset + |ip| <= at && at + 1 < |p|
    ensures Splice(SetWord(p, at, w), offset, ip) == SetWord(Splice(p, offset, ip), at, w)
  {
  }

  /** The field itself is what the zeroed sum lacks; the header checksum plays no part. */
  lemma SumOfReassembled(u: seq<u8>)
    requires WholePacket(u)
    ensures WholePacket(IpFixed(u)) && IpFixed(u)[9] == u[9]
    ensures TransportSum(IpFixed(u), u[9]) == ZeroedSum(u, u[9]) + Field(u, u[9])
    ensures Omitted(IpFixed(u), u[9]) == Omitted(u, u[9])
  {
    hide IpFixed, SetWord, Word, HeaderLen, TotalLen, Sum16;
    IpFixedShape(u);
    var d, proto := IpFixed(u), u[9];
    FieldContributes(u, proto, Field(u, proto));
    SetWordSame(u, FieldAt(u, proto), Field(u, proto));
    SliceAgrees(u, d, 12, 20);
    SliceAgrees(u, d, HeaderLen(u), TotalLen(u));
  }

  /** When the transport checksum of the datagram is one the patch keeps up with. */
  predicate PatchKeepsUp(d: seq<u8>, oldIp: seq<u8>, newIp: seq<u8>)
    requires WholePacket(d)
  {
    || Omitted(d, d[9])
    || (&& Verifies(TransportSum(d, d[9]))
        && (d[9] == IPPROTO_TCP ==> !LosesCarry(Field(d, d[9]), oldIp, newIp)))
  }

  lemma FieldOfFixed(u: seq<u8>, offset: nat, newIp: seq<u8>)
    requires WholePacket(u) && IsAddressOffset(offset) && |newIp| == 4
    ensures var w := IpFixed(Splice(u, offset, newIp));
            && WholePacket(w) && w[9] == u[9] && FieldAt(w, u[9]) == FieldAt(u, u[9])
            && Field(w, u[9]) == Field(u, u[9])
  {
    hide Splice, IpFixed, Word, HeaderLen, TotalLen;
    var s := Splice(u, offset, newIp);
    SpliceShape(u, offset, newIp);
    SpliceField(u, offset, newIp, FieldAt(u, u[9]));
    IpFixedShape(s);
  }

  /** The value a full recompute leaves in the checksum field. */
  function RecomputedField(c: u16, proto: u8, sum: nat): u16 {
    if proto == IPPROTO_UDP && c == 0 then 0 else Sent(proto, Checksum(sum))
  }

  lemma TransportFixedForm(w: seq<u8>, proto: u8)
    requires Recomputable(w, proto) && CarriesChecksum(proto)
    ensures TransportFixed(w, proto)
            == WithField(w, proto, RecomputedField(Field(w, proto), proto, ZeroedSum(w, proto)))
  {
    hide SetWord, Word, HeaderLen, TotalLen, TransportSum, Checksum;
    SetWordSame(w, FieldAt(w, proto), Field(w, proto));
  }

  /** Patched and recomputed field agree exactly when the old one verified and kept its carry. */
  lemma FieldsAgree(c: u16, proto: u8, oldIp: seq<u8>, newIp: seq<u8>, s: nat, t: nat)
    requires CarriesChecksum(proto) && |oldIp| == |newIp| == 4
    requires s > 0 && t > 0 && t + Sum16(oldIp) == s + Sum16(newIp)
    ensures PatchedField(c, proto, oldIp, newIp) == RecomputedField(c, proto, t)
            <==> || (proto == IPPROTO_UDP && c == 0)
                 || (Verifies(s + c) && (proto == IPPROTO_TCP ==> !LosesCarry(c, oldIp, newIp)))
  {
    hide Sum16, Checksum, Adjusted, Verifies;
    AdjustedIsRecomputed(c, oldIp, newIp, s, t);
  }

  lemma FieldOfIpFixed(u: seq<u8>)
    requires WholePacket(u)
    ensures WholePacket(IpFixed(u)) && IpFixed(u)[9] == u[9] && Field(IpFixed(u), u[9]) == Field(u, u[9])
  {
    hide IpFixed, Word, HeaderLen, TotalLen;
    IpFixedShape(u);
  }

  /** Fragment 0's address and checksum field are those of the reassembled packet. */
  lemma FirstIsReassembled(fs: seq<seq<u8>>, offset: nat)
    requires Fragmentation(fs) && IsAddressOffset(offset)
    ensures var u, p := Unfragmented(fs[0], Joined(fs)), fs[0];
            && WholePacket(u) && u[9] == p[9] && FieldAt(p, p[9]) + 2 <= |p|
            && Field(u, p[9]) == Field(p, p[9]) && u[offset..offset + 4] == p[offset..offset + 4]
  {
    hide Word, HeaderLen, TotalLen, Unfragmented, SetWord;
    FirstHasField(fs);
    var u, p, at := Unfragmented(fs[0], Joined(fs)), fs[0], ChecksumAt(fs[0][9]);
    var hl := HeaderLen(p);
    UnfragmentedShape(p, Joined(fs));
    assert u[hl + at] == u[hl..][at] == Payload(p)[at] == p[hl + at];
    assert u[hl + at + 1] == u[hl..][at + 1] == Payload(p)[at + 1] == p[hl + at + 1];
    assert u[offset] == p[offset] && u[offset + 1] == p[offset + 1];
    assert u[offset + 2] == p[offset + 2] && u[offset + 3] == p[offset + 3];
  }

  /** Rewriting commutes with reassembly.  For every fragmentation of a TCP or UDP datagram whose
      fragment 0 holds the checksum field, rewriting the fragments and reassembling them gives
      byte for byte the rewritten datagram if and only if the datagram was sent without a checksum,
      or its checksum verified and the one lost-carry case of TCP is not met. */
  lemma RewriteCommutesWithReassembly(fs: seq<seq<u8>>, offset: nat, newIp: seq<u8>)
    requires Fragmentation(fs) && IsAddressOffset(offset) && |newIp| == 4
    ensures var gs, d := RewriteEach(fs, offset, newIp), Reassembled(fs);
            && AllHeaders(gs) && HeaderLen(gs[0]) == HeaderLen(fs[0]) && |Joined(gs)| == |Joined(fs)|
            && WholePacket(d)
            && (Reassembled(gs) == Rewritten(d, offset, newIp)
                <==> PatchKeepsUp(d, fs[0][offset..offset + 4], newIp))
  {
    hide Rewritten, Splice, IpFixed, SetWord, Word, HeaderLen, TotalLen, Sum16, Unfragmented, Payload;
    hide PatchedField, RecomputedField, TransportFixed, TransportSum, ZeroedSum, Verifies, IsFragment;
    var u := Unfragmented(fs[0], Joined(fs));
    FirstIsReassembled(fs, offset);
    RewriteThenReassemble(fs, offset, newIp);
    ReassembleThenRewrite(u, offset, newIp);
    var w, proto, oldIp := IpFixed(Splice(u, offset, newIp)), u[9], u[offset..offset + 4];
    FieldOfFixed(u, offset, newIp);
    FieldOfIpFixed(u);
    SumOfReassembled(u);
    ZeroedSumShift(u, offset, newIp);
    FieldContributes(u, proto, 0);
    FieldContributes(w, proto, 0);
    TransportFixedForm(w, proto);
    FieldsAgree(Field(u, proto), proto, oldIp, newIp, ZeroedSum(u, proto), ZeroedSum(w, proto));
  }

  // --- The rewritten fragments are again a fragmentation ---

  lemma RewriteKeepsShape(p: seq<u8>, offset: nat, newIp: seq<u8>)
    requires HasHeader(p) && IsFragment(p) && CarriesChecksum(p[9]) && IsAddressOffset(offset) && |newIp| == 4
    requires FragmentOffset(p) == Some(0) ==> FieldAt(p, p[9]) + 2 <= |p|
    ensures var q, s := Rewritten(p, offset, newIp), Splice(p, offset, newIp);
            && HasHeader(q) && HeaderLen(q) == HeaderLen(p) && TotalLen(q) == TotalLen(p)
            && MoreFragments(q) == MoreFragments(p) && FragmentOffset(q) == FragmentOffset(p)
            && q[9] == p[9] && q[4..6] == p[4..6] && q[12..20] == s[12..20]
  {
    hide Sum16, SetWord, HeaderLen, TotalLen, Checksum, Word, IpFixed, Rewritten, PatchedField;
    var s, q := Splice(p, offset, newIp), Rewritten(p, offset, newIp);
    SpliceShape(p, offset, newIp);
    IpFixedShape(s);
    var at := if FragmentOffset(p) == Some(0) then FieldAt(p, p[9]) else |p|;
    if FragmentOffset(p) == Some(0) {
      FirstFragment(p, offset, newIp);
    } else {
      LaterFragment(p, offset, newIp);
    }
    assert AgreeBeside(s, q, at);
    SameShape(s, q, at);
  }

  lemma {:induction false} JoinedLength(fs: seq<seq<u8>>, gs: seq<seq<u8>>)
    requires AllHeaders(fs) && AllHeaders(gs) && |fs| == |gs|
    requires forall i :: 0 <= i < |fs| ==> |gs[i]| == |fs[i]| && HeaderLen(gs[i]) == HeaderLen(fs[i])
    ensures |Joined(gs)| == |Joined(fs)|
  {
    hide HeaderLen;
    if fs != [] {
      JoinedLength(fs[1..], gs[1..]);
    }
  }

  lemma RewriteKeepsFragmentation(fs: seq<seq<u8>>, offset: nat, newIp: seq<u8>)
    requires Fragmentation(fs) && IsAddressOffset(offset) && |newIp| == 4
    ensures Fragmentation(RewriteEach(fs, offset, newIp))
  {
    hide Sum16, SetWord, HeaderLen, TotalLen, Checksum, Word, IpFixed, Rewritten, Joined, MoreFragments;
    var gs := RewriteEach(fs, offset, newIp);
    FirstHasField(fs);
    forall i | 0 <= i < |fs|
      ensures HasHeader(gs[i]) && HeaderLen(gs[i]) == HeaderLen(fs[i]) && TotalLen(gs[i]) == TotalLen(fs[i])
      ensures MoreFragments(gs[i]) == MoreFragments(fs[i]) && FragmentOffset(gs[i]) == FragmentOffset(fs[i])
      ensures gs[i][9] == fs[i][9] && gs[i][4..6] == fs[i][4..6]
      ensures gs[i][12..20] == Splice(fs[i], offset, newIp)[12..20] == Splice(fs[0], offset, newIp)[12..20]
    {
      if i > 0 {
        LaterOffsets(fs, i);
      }
      RewriteKeepsShape(fs[i], offset, newIp);
      SpliceAddresses(fs[i], fs[0], offset, newIp);
    }
    JoinedLength(fs, gs);
    forall i | 0 <= i < |fs|
      ensures |Joined(gs[..i])| == |Joined(fs[..i])|
    {
      JoinedLength(fs[..i], gs[..i]);
    }
  }

  lemma SpliceAddresses(p: seq<u8>, q: seq<u8>, offset: nat, newIp: seq<u8>)
    requires |p| >= 20 && |q| >= 20 && p[12..20] == q[12..20] && IsAddressOffset(offset) && |newIp| == 4
    ensures Splice(p, offset, newIp)[12..20] == Splice(q, offset, newIp)[12..20]
  {
    forall k | 12 <= k < 20
      ensures Splice(p, offset, newIp)[k] == Splice(q, offset, newIp)[k]
    {
      assert p[k] == p[12..20][k - 12] && q[k] == q[12..20][k - 12];
    }
  }

  // --- The lost carry on real fragments ---

  function Zeros(n: nat): seq<u8> {
    seq(n, i => 0)
  }

  lemma {:induction false} Sum16Zeros(n: nat)
    ensures Sum16(Zeros(n)) == 0
  {
    if n >= 2 {
      assert Zeros(n)[2..] == Zeros(n - 2);
      Sum16Zeros(n - 2);
    }
  }

  /** A TCP header from 255.255.255.255 to 10.0.0.1 of this total length and fragment bits. */
  function BroadcastHeader(len: u8, bitsHi: u8, bitsLo: u8): seq<u8> {
    [0x45, 0, 0, len, 0, 0, bitsHi, bitsLo, 64, 6, 0, 0, 255, 255, 255, 255, 10, 0, 0, 1]
  }

  /** 32 bytes of TCP with an all-ones checksum that verifies. */
  function BroadcastSegment(): seq<u8> {
    Zeros(16) + [255, 255] + Zeros(12) + [0xF5, 0xD8]
  }

  /** The segment cut after 24 bytes. */
  function BroadcastFragments(): seq<seq<u8>> {
    [BroadcastHeader(44, 0x20, 0) + BroadcastSegment()[..24], BroadcastHeader(28, 0, 3) + BroadcastSegment()[24..]]
  }

  lemma BroadcastJoined()
    ensures var fs := BroadcastFragments();
            && |fs[0]| == 44 && |fs[1]| == 28 && AllHeaders(fs)
            && Payload(fs[0]) == BroadcastSegment()[..24] && Payload(fs[1]) == BroadcastSegment()[24..]
            && Joined(fs) == BroadcastSegment() && Joined(fs[..1]) == BroadcastSegment()[..24] && Joined(fs[..0]) == []
  {
    hide BroadcastSegment;
    var fs, seg := BroadcastFragments(), BroadcastSegment();
    assert |seg| == 32 by { BroadcastLength(); }
    assert HeaderLen(fs[0]) == 20 && HeaderLen(fs[1]) == 20;
    var first: seq<seq<u8>>, second: seq<seq<u8>> := fs[..1], fs[1..];
    assert second[0] == fs[1] && second[1..] == [] && first[1..] == [] && first[0] == fs[0];
    assert Joined(fs[1..]) == seg[24..] + [] == seg[24..];
    assert seg == seg[..24] + seg[24..];
    assert Joined(fs[..1]) == seg[..24] + [] == seg[..24];
  }

  lemma BroadcastLength()
    ensures |BroadcastSegment()| == 32 && BroadcastSegment()[16] == 255 && BroadcastSegment()[17] == 255
  {
  }

  lemma BroadcastSum()
    ensures Sum16(BroadcastSegment()) == 0xFFFF + 0xF5D8
  {
    hide Sum16, Zeros;
    Sum16Zeros(16);
    Sum16Zeros(12);
    assert |Zeros(16)| == 16 && |Zeros(12)| == 12 by { ZerosLength(); }
    Sum16Pair(Zeros(16), 255, 255);
    Sum16Concat(Zeros(16) + [255, 255], Zeros(12));
    Sum16Pair(Zeros(16) + [255, 255] + Zeros(12), 0xF5, 0xD8);
  }

  lemma ZerosLength()
    ensures |Zeros(16)| == 16 && |Zeros(12)| == 12
  {
  }

  lemma BroadcastIsFragmentation()
    ensures Fragmentation(BroadcastFragments())
  {
    hide BroadcastSegment, Joined;
    BroadcastJoined();
    BroadcastLength();
    var fs := BroadcastFragments();
    assert fs[0][12..20] == fs[1][12..20] && fs[0][4..6] == fs[1][4..6];
  }

  /** Fragments of a TCP datagram whose checksum verifies, on which rewriting the fragments and
      rewriting the datagram come to different packets. */
  lemma LostCarryFragments()
    ensures var fs, newIp: seq<u8> := BroadcastFragments(), [0, 0, 0, 0];
            && Fragmentation(fs) && WholePacket(Reassembled(fs))
            && Verifies(TransportSum(Reassembled(fs), IPPROTO_TCP))
            && AllHeaders(RewriteEach(fs, IP_SRC_OFFSET, newIp))
            && HeaderLen(RewriteEach(fs, IP_SRC_OFFSET, newIp)[0])
                 + |Joined(RewriteEach(fs, IP_SRC_OFFSET, newIp))| <= 0xFFFF
            && Reassembled(RewriteEach(fs, IP_SRC_OFFSET, newIp)) != Rewritten(Reassembled(fs), IP_SRC_OFFSET, newIp)
  {
    hide BroadcastSegment, Joined, Rewritten, IpFixed, TransportSum, Sum16, Verifies, Fragmentation, IsFragment;
    var fs := BroadcastFragments();
    BroadcastIsFragmentation();
    BroadcastJoined();
    RewriteCommutesWithReassembly(fs, IP_SRC_OFFSET, [0, 0, 0, 0]);
    BroadcastVerifies();
  }

  /** The reassembled packet before its header checksum is set. */
  lemma BroadcastUnfragmented() returns (u: seq<u8>)
    ensures var fs := BroadcastFragments();
            HasHeader(fs[0]) && HeaderLen(fs[0]) + |Joined(fs)| <= 0xFFFF && u == Unfragmented(fs[0], Joined(fs))
    ensures HasHeader(u) && HeaderLen(u) == 20 && TotalLen(u) == |u| == 52 && u[9] == IPPROTO_TCP
    ensures TransportSum(u, IPPROTO_TCP) == 4 * 0xFFFF
  {
    hide BroadcastSegment, Joined, Sum16, Unfragmented, IsFragment;
    var fs, seg := BroadcastFragments(), BroadcastSegment();
    BroadcastJoined();
    BroadcastLength();
    u := Unfragmented(fs[0], Joined(fs));
    UnfragmentedShape(fs[0], seg);
    assert u[20..52] == u[20..] == seg;
    TransportSumSplit(u, IPPROTO_TCP);
    Sum16Address(u[12..16]);
    Sum16Address(u[16..20]);
    BroadcastSum();
  }

  lemma BroadcastVerifies()
    requires Fragmentation(BroadcastFragments())
    ensures var d := Reassembled(BroadcastFragments());
            && WholePacket(d) && d[9] == IPPROTO_TCP && Field(d, d[9]) == 0xFFFF
            && Verifies(TransportSum(d, IPPROTO_TCP))
  {
    hide BroadcastSegment, Joined, IpFixed, Sum16, Verifies, Fragmentation;
    hide Unfragmented, IsFragment, TransportSum, SetWord;
    var fs := BroadcastFragments();
    var u := BroadcastUnfragmented();
    BroadcastJoined();
    BroadcastLength();
    FirstIsReassembled(fs, IP_SRC_OFFSET);
    FieldOfIpFixed(u);
    SumOfReassembled(u);
    FieldContributes(u, IPPROTO_TCP, Field(u, IPPROTO_TCP));
    SetWordSame(u, FieldAt(u, IPPROTO_TCP), Field(u, IPPROTO_TCP));
    assert Field(fs[0], IPPROTO_TCP) == Word(BroadcastSegment()[..24][16], BroadcastSegment()[..24][17]);
    VerifiesIffMultiple(4 * 0xFFFF);
  }
}
