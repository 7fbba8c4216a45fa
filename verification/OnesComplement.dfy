/** The Internet checksum: 16-bit one's-complement sums as in sections 1 and 2 of RFC 1071, and
    the incremental update of equation 3 in section 3 of RFC 1624. */
module OnesComplement {
  import opened Bytes

  /** The plain sum of the big-endian words of `b`; an odd last byte is padded with zero. */
  function Sum16(b: seq<u8>): nat {
    if |b| == 0 then 0
    else if |b| == 1 then Word(b[0], 0)
    else Word(b[0], b[1]) + Sum16(b[2..])
  }

  /** What folding the carries of a sum comes to: zero stays zero, every other sum becomes its
      representative modulo 65535 in 1..65535. */
  function Fold(s: nat): u16 {
    if s <= 0xFFFF then s else Fold(s - 0xFFFF)
  }

  lemma {:induction false} FoldClosed(s: nat)
    ensures Fold(s) == if s == 0 then 0 else 1 + (s - 1) % 65535
  {
    if s > 0xFFFF {
      FoldClosed(s - 0xFFFF);
    }
  }

  lemma CarryKeepsFold(s: nat)
    ensures Fold(s % 0x1_0000 + s / 0x1_0000) == Fold(s)
  {
    var q, r := s / 0x1_0000, s % 0x1_0000;
    FoldClosed(s);
    FoldClosed(r + q);
    if s > 0 {
      assert s - 1 == (r + q - 1) + 65535 * q;
    }
  }

  function Checksum(s: nat): u16 {
    0xFFFF - Fold(s)
  }

  /** A receiver accepts a sum, checksum field included, when it folds to all ones. */
  predicate Verifies(s: nat) {
    Fold(s) == 0xFFFF
  }

  lemma VerifiesIffMultiple(s: nat)
    ensures Verifies(s) <==> s > 0 && s % 65535 == 0
  {
    FoldClosed(s);
  }

  lemma CongruentSumsFoldAlike(a: nat, b: nat)
    requires a > 0 && b > 0 && a % 65535 == b % 65535
    ensures Fold(a) == Fold(b)
  {
    FoldClosed(a);
    FoldClosed(b);
    ModPred(a);
    ModPred(b);
  }

  lemma ModPred(a: nat)
    requires a > 0
    ensures (a - 1) % 65535 == if a % 65535 == 0 then 65534 else a % 65535 - 1
  {
  }

  /** Storing the checksum of a positive sum makes the whole verify. */
  lemma ChecksumVerifies(s: nat)
    requires s > 0
    ensures Verifies(s + Checksum(s))
  {
    FoldClosed(s);
    VerifiesIffMultiple(s + Checksum(s));
  }

  lemma {:induction false} Sum16Concat(a: seq<u8>, b: seq<u8>)
    requires |a| % 2 == 0
    ensures Sum16(a + b) == Sum16(a) + Sum16(b)
  {
    if a == [] {
      assert a + b == b;
    } else {
      assert (a + b)[2..] == a[2..] + b;
      Sum16Concat(a[2..], b);
    }
  }

  lemma Sum16Pair(a: seq<u8>, hi: u8, lo: u8)
    requires |a| % 2 == 0
    ensures Sum16(a + [hi, lo]) == Sum16(a) + Word(hi, lo)
  {
    Sum16Concat(a, [hi, lo]);
    assert [hi, lo][2..] == [];
  }

  lemma {:induction false} Sum16Bound(b: seq<u8>)
    ensures 2 * Sum16(b) <= (|b| + 1) * 65535
    ensures |b| % 2 == 0 ==> 2 * Sum16(b) <= |b| * 65535
  {
    if |b| >= 2 {
      Sum16Bound(b[2..]);
    }
  }

  /** The bytes as one big-endian number. */
  function Number(b: seq<u8>): nat {
    if b == [] then 0 else Number(b[..|b| - 1]) * 256 + b[|b| - 1]
  }

  /** An odd last byte is followed by a zero. */
  function Even(b: seq<u8>): seq<u8> {
    if |b| % 2 == 0 then b else b + [0]
  }

  lemma NumberPair(a: seq<u8>, hi: u8, lo: u8)
    ensures Number(a + [hi, lo]) == Number(a) * 0x1_0000 + Word(hi, lo)
  {
    assert (a + [hi, lo])[..|a| + 1] == a + [hi] && (a + [hi])[..|a|] == a;
  }

  lemma {:induction false} EvenSum(b: seq<u8>)
    requires |b| % 2 == 0
    ensures Sum16(b) % 65535 == Number(b) % 65535 && (Sum16(b) == 0 <==> Number(b) == 0)
  {
    if b != [] {
      hide Sum16, Number, Word;
      var n := |b| - 2;
      assert b == b[..n] + [b[n], b[n + 1]];
      EvenSum(b[..n]);
      Sum16Pair(b[..n], b[n], b[n + 1]);
      NumberPair(b[..n], b[n], b[n + 1]);
      ShiftKeepsResidue(Sum16(b[..n]), Number(b[..n]), Word(b[n], b[n + 1]));
    }
  }

  lemma ShiftKeepsResidue(s: nat, x: nat, w: nat)
    requires s % 65535 == x % 65535 && (s == 0 <==> x == 0)
    ensures (s + w) % 65535 == (x * 0x1_0000 + w) % 65535 && (s + w == 0 <==> x * 0x1_0000 + w == 0)
  {
    assert x * 0x1_0000 + w == x * 65535 + (x + w);
  }

  /** Section 2 of RFC 1071: the one's-complement sum of the words is the number they make, modulo
      65535.  So a sum verifies exactly when that number is a multiple of 65535 other than zero. */
  lemma VerifiesIffNumber(b: seq<u8>)
    ensures Verifies(Sum16(b)) <==> Number(Even(b)) > 0 && Number(Even(b)) % 65535 == 0
  {
    hide Verifies, Number, Sum16, Even;
    PaddingKeepsSum(b);
    EvenSum(Even(b));
    VerifiesIffMultiple(Sum16(b));
  }

  lemma PaddingKeepsSum(b: seq<u8>)
    ensures |Even(b)| % 2 == 0 && Sum16(Even(b)) == Sum16(b)
  {
    hide Sum16;
    if |b| % 2 == 1 {
      var n := |b| - 1;
      Sum16LastStep(b, n);
      Sum16Pair(b[..n], b[n], 0);
      assert Even(b) == b[..n] + [b[n], 0];
    }
  }

  lemma Sum16Step(b: seq<u8>, i: nat)
    requires i + 1 < |b| && i % 2 == 0
    ensures Sum16(b[..i + 2]) == Sum16(b[..i]) + Word(b[i], b[i + 1])
    ensures 2 * Sum16(b[..i]) <= i * 65535
  {
    Sum16Bound(b[..i]);
    Sum16Pair(b[..i], b[i], b[i + 1]);
    assert b[..i + 2] == b[..i] + [b[i], b[i + 1]];
  }

  lemma Sum16LastStep(b: seq<u8>, i: nat)
    requires i + 1 == |b| && i % 2 == 0
    ensures Sum16(b) == Sum16(b[..i]) + Word(b[i], 0)
    ensures 2 * Sum16(b[..i]) <= i * 65535
  {
    Sum16Bound(b[..i]);
    Sum16Concat(b[..i], [b[i]]);
    assert b == b[..i] + [b[i]];
  }

  /** Replacing an aligned word changes the sum by the difference of the words. */
  lemma {:induction false} Sum16SetWord(b: seq<u8>, i: nat, w: u16)
    requires i + 1 < |b| && i % 2 == 0
    ensures Sum16(SetWord(b, i, w)) + Word(b[i], b[i + 1]) == Sum16(b) + w
  {
    if i > 0 {
      assert SetWord(b, i, w)[2..] == SetWord(b[2..], i - 2, w);
      Sum16SetWord(b[2..], i - 2, w);
    } else {
      assert SetWord(b, i, w)[2..] == b[2..];
    }
  }

  /** RFC 768: a computed checksum of zero is sent as all ones. */
  function NonZero(c: u16): u16 {
    if c == 0 then 0xFFFF else c
  }

  /** The sum of the incremental update: ~HC + ~m + m' for the two words of an address. */
  function AdjustSum(c: u16, oldIp: seq<u8>, newIp: seq<u8>): nat
    requires |oldIp| == |newIp| == 4
  {
    (0xFFFF - c)
    + (0xFFFF - Word(oldIp[0], oldIp[1])) + Word(newIp[0], newIp[1])
    + (0xFFFF - Word(oldIp[2], oldIp[3])) + Word(newIp[2], newIp[3])
  }

  function Adjusted(c: u16, oldIp: seq<u8>, newIp: seq<u8>): u16
    requires |oldIp| == |newIp| == 4
  {
    Checksum(AdjustSum(c, oldIp, newIp))
  }

  /** The one input on which the two representations of zero come apart: an all-ones checksum
      with every address bit turned from one to zero. */
  predicate LosesCarry(c: u16, oldIp: seq<u8>, newIp: seq<u8>) {
    c == 0xFFFF && oldIp == [255, 255, 255, 255] && newIp == [0, 0, 0, 0]
  }

  lemma Sum16Address(ip: seq<u8>)
    requires |ip| == 4
    ensures Sum16(ip) == Word(ip[0], ip[1]) + Word(ip[2], ip[3])
  {
    assert Sum16(ip) == Word(ip[0], ip[1]) + Sum16(ip[2..]);
    assert ip[2..][2..] == [];
  }

  /** Whatever 16 bits `c` the field holds, the patched field equals the recomputed one exactly when
      `c` verified before the change and the carry is not lost.  `s` is the sum with the old
      address and a zero field, `t` the same sum with the new address. */
  lemma AdjustedIsRecomputed(c: u16, oldIp: seq<u8>, newIp: seq<u8>, s: nat, t: nat)
    requires |oldIp| == |newIp| == 4
    requires s > 0 && t > 0 && t + Sum16(oldIp) == s + Sum16(newIp)
    ensures Adjusted(c, oldIp, newIp) == Checksum(t)
            <==> Verifies(s + c) && !LosesCarry(c, oldIp, newIp)
    ensures NonZero(Adjusted(c, oldIp, newIp)) == NonZero(Checksum(t)) <==> Verifies(s + c)
  {
    var a := AdjustSum(c, oldIp, newIp);
    AdjustSumBalance(c, oldIp, newIp, s, t);
    VerifiesIffMultiple(s + c);
    if (s + c) % 65535 == 0 {
      if a > 0 {
        SameResidue(a, t, s + c);
        CongruentSumsFoldAlike(a, t);
      } else {
        SameResidue(a, t, s + c);
        VerifiesIffMultiple(t);
      }
    } else {
      DifferentResiduesFoldApart(a, t, s + c);
    }
  }

  lemma AdjustSumBalance(c: u16, oldIp: seq<u8>, newIp: seq<u8>, s: nat, t: nat)
    requires |oldIp| == |newIp| == 4
    requires t + Sum16(oldIp) == s + Sum16(newIp)
    ensures AdjustSum(c, oldIp, newIp) + (s + c) == t + 3 * 65535
    ensures AdjustSum(c, oldIp, newIp) == 0 <==> LosesCarry(c, oldIp, newIp)
  {
    Sum16Address(oldIp);
    Sum16Address(newIp);
  }

  lemma SameResidue(a: nat, t: nat, d: nat)
    requires d % 65535 == 0 && a + d == t + 3 * 65535
    ensures a % 65535 == t % 65535
  {
  }

  lemma DifferentResiduesFoldApart(a: nat, t: nat, d: nat)
    requires t > 0 && d % 65535 != 0 && a + d == t + 3 * 65535
    ensures Fold(a) != Fold(t) && NonZero(Checksum(a)) != NonZero(Checksum(t))
  {
    FoldClosed(a);
    FoldClosed(t);
    ModPred(t);
    if a > 0 {
      ModPred(a);
      assert a % 65535 != t % 65535;
    }
  }

  /** The carry loop on a 32-bit accumulator: it terminates, stays in range and folds. */
  method FoldLoop(sum0: u32) returns (r: u16)
    ensures r == Fold(sum0)
  {
    var sum: u32 := sum0;
    while sum / 0x1_0000 != 0
      invariant Fold(sum) == Fold(sum0)
      decreases sum
    {
      CarryKeepsFold(sum);
      sum := sum % 0x1_0000 + sum / 0x1_0000;
    }
    r := sum;
  }

  /** `u32::wrapping_add` */
  function WrappingAdd(a: u32, b: u32): (r: u32)
    ensures a + b < 0x1_0000_0000 ==> r == a + b
  {
    (a + b) % 0x1_0000_0000
  }

  /** The header checksum loop.  It adds with wrap-around, which cannot happen below 128 KiB. */
  method CalculateIpChecksum(header: seq<u8>) returns (c: u16)
    ensures |header| <= 0x2_0000 ==> c == Checksum(Sum16(header))
  {
    hide Sum16, Fold;
    var sum: u32 := 0;
    var i := 0;
    assert header[..0] == [] && Sum16([]) == 0 by { Sum16Empty(); }
    while i < |header|
      invariant 0 <= i && i % 2 == 0
      invariant |header| <= 0x2_0000 && i <= |header| ==> sum == Sum16(header[..i])
      invariant |header| <= 0x2_0000 && i >= |header| ==> sum == Sum16(header)
    {
      if i + 1 < |header| {
        Sum16Step(header, i);
        sum := WrappingAdd(sum, Word(header[i], header[i + 1]));
      } else {
        Sum16LastStep(header, i);
        sum := WrappingAdd(sum, Word(header[i], 0));
      }
      i := i + 2;
      assert i == |header| ==> header[..i] == header;
    }
    var folded := FoldLoop(sum);
    c := 0xFFFF - folded;
  }

  lemma Sum16Empty()
    ensures Sum16([]) == 0
  {
  }

  method AdjustChecksumForAddrChange(checksum: u16, oldIp: seq<u8>, newIp: seq<u8>) returns (r: u16)
    requires |oldIp| == |newIp| == 4
    ensures r == Adjusted(checksum, oldIp, newIp)
  {
    var oldHi, oldLo := Word(oldIp[0], oldIp[1]), Word(oldIp[2], oldIp[3]);
    var newHi, newLo := Word(newIp[0], newIp[1]), Word(newIp[2], newIp[3]);
    var sum: u32 := (0xFFFF - checksum) + (0xFFFF - oldHi) + newHi + (0xFFFF - oldLo) + newLo;
    var folded := FoldLoop(sum);
    r := 0xFFFF - folded;
  }
}
