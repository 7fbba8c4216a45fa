/** Octets, 16-bit words and 32-bit accumulators as bounded integers.  A value assigned to one of
    these types is proved to be in range, so a `u32` local doubles as a proof that the relay's
    32-bit arithmetic does not overflow. */
module Bytes {
  type u8 = x: int | 0 <= x < 0x100
  type u16 = x: int | 0 <= x < 0x1_0000
  type u32 = x: int | 0 <= x < 0x1_0000_0000
  type u64 = x: int | 0 <= x < 0x1_0000_0000_0000_0000

  const U64_MAX := 0xFFFF_FFFF_FFFF_FFFF

  datatype Option<+T> = None | Some(value: T)

  /** `u64::saturating_add` */
  function SatAdd(a: u64, b: u64): u64 {
    if a + b > U64_MAX then U64_MAX else a + b
  }

  /** `u64::saturating_sub` */
  function SatSub(a: u64, b: u64): u64 {
    if a < b then 0 else a - b
  }

  /** `u16::from_be_bytes` */
  function Word(hi: u8, lo: u8): u16 {
    hi * 256 + lo
  }

  /** Replace the big-endian word at index `i`. */
  function SetWord(p: seq<u8>, i: nat, w: u16): (q: seq<u8>)
    requires i + 1 < |p|
    ensures |q| == |p|
    ensures Word(q[i], q[i + 1]) == w
    ensures forall k :: 0 <= k < |p| && k != i && k != i + 1 ==> q[k] == p[k]
  {
    p[i := w / 256][i + 1 := w % 256]
  }

  /** Replace the bytes at index `i` by those of `s`. */
  function Splice(p: seq<u8>, i: nat, s: seq<u8>): (q: seq<u8>)
    requires i + |s| <= |p|
    ensures |q| == |p| && q[i..i + |s|] == s
    ensures forall k :: 0 <= k < |p| && !(i <= k < i + |s|) ==> q[k] == p[k]
  {
    p[..i] + s + p[i + |s|..]
  }

  lemma SetWordSame(p: seq<u8>, i: nat, w: u16)
    requires i + 1 < |p|
    ensures SetWord(p, i, w) == p <==> w == Word(p[i], p[i + 1])
  {
  }

  lemma SetWordTwice(p: seq<u8>, i: nat, v: u16, w: u16)
    requires i + 1 < |p|
    ensures SetWord(SetWord(p, i, v), i, w) == SetWord(p, i, w)
  {
  }
}
