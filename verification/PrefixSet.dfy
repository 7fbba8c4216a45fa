/** Sets of IPv4 prefixes: sorting, one-pass collapse and partition-point lookup against plain CIDR
    membership (section 3.1 of RFC 4632). */
module PrefixSet {
  import opened Bytes

  const MIN_PREFIX_LEN := 8

  function Pow2(k: nat): (p: nat)
    ensures p > 0
  {
    if k == 0 then 1 else 2 * Pow2(k - 1)
  }

  /** A prefix as its first address and mask. */
  datatype Net = Net(base: u32, mask: u32)

  /** How many addresses a mask leaves free. */
  function Size(mask: u32): nat {
    0x1_0000_0000 - mask
  }

  /** Ones, then zeros. */
  ghost predicate IsMask(mask: u32) {
    exists k :: 0 <= k <= 32 && Pow2(k) == Size(mask)
  }

  /** `ip & mask`: the bits under the zeros of the mask are cleared. */
  function Masked(ip: u32, mask: u32): u32 {
    Divided(ip, Size(mask));
    ip - ip % Size(mask)
  }

  ghost predicate Valid(n: Net) {
    IsMask(n.mask) && Masked(n.base, n.mask) == n.base
  }

  predicate Contains(n: Net, ip: u32) {
    Masked(ip, n.mask) == n.base
  }

  predicate Covers(n: Net, other: Net) {
    other.mask >= n.mask && Contains(n, other.base)
  }

  /** The mask of a prefix length. */
  function MaskOf(len: nat): (mask: u32)
    requires 0 < len <= 32
    ensures IsMask(mask)
  {
    Pow2Below(32 - len);
    assert Pow2(32 - len) == Size(0x1_0000_0000 - Pow2(32 - len));
    0x1_0000_0000 - Pow2(32 - len)
  }

  lemma {:induction false} Pow2Below(k: nat)
    requires k < 32
    ensures Pow2(k) <= 0x8000_0000
  {
    Pow2Grows(k, 31);
    assert Pow2(31) == 0x8000_0000 by {
      assert Pow2(8) == 0x100;
      assert Pow2(16) == 0x1_0000;
      assert Pow2(24) == 0x100_0000;
    }
  }

  lemma {:induction false} Pow2Grows(j: nat, k: nat)
    requires j <= k
    ensures Pow2(j) <= Pow2(k)
  {
    if j < k {
      Pow2Grows(j, k - 1);
    }
  }

  /** A prefix as written, address and length: none if the length is out of range. */
  function Parsed(addr: u32, len: nat): Option<Net> {
    if MIN_PREFIX_LEN <= len <= 32 then Some(Net(Masked(addr, MaskOf(len)), MaskOf(len))) else None
  }

  /** A length of 8 to 32 is taken and no other, with that many leading ones for a mask. */
  lemma ParsedExactly(addr: u32, len: nat)
    ensures Parsed(addr, len).Some? <==> 8 <= len <= 32
    ensures Parsed(addr, len).Some? ==>
              var n := Parsed(addr, len).value;
              0x1_0000_0000 - n.mask == Pow2(32 - len) && n.base <= addr < n.base + Pow2(32 - len)
  {
    hide Pow2;
    if 8 <= len <= 32 {
      Divided(addr, Pow2(32 - len));
    }
  }

  /** What is parsed is a proper prefix that contains the address it was written with. */
  lemma ParsedIsValid(addr: u32, len: nat)
    requires Parsed(addr, len).Some?
    ensures Valid(Parsed(addr, len).value) && Contains(Parsed(addr, len).value, addr)
  {
    var size := Size(MaskOf(len));
    Divided(addr, size);
    Multiple(addr / size, size, 0);
  }

  // --- Multiples ---

  lemma Divided(x: nat, size: nat)
    requires size > 0
    ensures 0 <= x % size < size && x % size <= x && x == (x / size) * size + x % size
  {
  }

  lemma AtLeastOnce(d: int, size: nat)
    ensures d >= 1 ==> d * size >= size
    ensures d <= -1 ==> d * size <= -(size as int)
  {
  }

  lemma Distributes(a: int, b: int, size: int)
    ensures (a + b) * size == a * size + b * size
    ensures (a - b) * size == a * size - b * size
    ensures a * (b * size) == (a * b) * size
  {
  }

  lemma Multiple(q: nat, size: nat, r: nat)
    requires r < size
    ensures (q * size + r) % size == r && (q * size + r) / size == q
  {
    var x := q * size + r;
    Divided(x, size);
    Distributes(x / size, q, size);
    AtLeastOnce(x / size - q, size);
  }

  /** Sizes are powers of two, so the smaller divides the larger. */
  lemma {:induction false} SizesDivide(j: nat, k: nat) returns (f: nat)
    requires j <= k
    ensures f > 0 && Pow2(k) == f * Pow2(j)
  {
    if j == k {
      f := 1;
    } else {
      var g := SizesDivide(j, k - 1);
      f := 2 * g;
    }
  }

  // --- The mask as machine operations ---

  /** `a & b`, bit by bit from the lowest. */
  function BitAnd(a: nat, b: nat): nat {
    if a == 0 || b == 0 then 0 else a % 2 * (b % 2) + 2 * BitAnd(a / 2, b / 2)
  }

  lemma EvenAnd(a: nat, b: nat)
    ensures BitAnd(a, 2 * b) == 2 * BitAnd(a / 2, b)
  {
    assert 2 * b / 2 == b && 2 * b % 2 == 0;
  }

  lemma OddAnd(a: nat, b: nat)
    ensures BitAnd(a, 2 * b + 1) == a % 2 + 2 * BitAnd(a / 2, b)
  {
    assert (2 * b + 1) / 2 == b && (2 * b + 1) % 2 == 1;
  }

  lemma AndZero(a: nat)
    ensures BitAnd(a, 0) == 0
  {
  }

  lemma Doubled(u: nat, p: nat, v: nat)
    ensures u * (2 * p) + 2 * v == 2 * (u * p + v)
  {
  }

  lemma ModDouble(a: nat, p: nat)
    requires p > 0
    ensures a % (2 * p) == 2 * (a / 2 % p) + a % 2
  {
    var u, v := a / 2 / p, a / 2 % p;
    Divided(a / 2, p);
    Doubled(u, p, v);
    Multiple(u, 2 * p, 2 * v + a % 2);
  }

  lemma ClearStep(a: nat, b: nat, p: nat)
    requires p > 0 && BitAnd(a / 2, b) == a / 2 - a / 2 % p
    ensures BitAnd(a, 2 * b) == a - a % (2 * p)
  {
    hide BitAnd;
    EvenAnd(a, b);
    ModDouble(a, p);
  }

  lemma {:induction false} AllOnesKeep(a: nat, n: nat)
    requires a < Pow2(n)
    ensures BitAnd(a, Pow2(n) - 1) == a
  {
    if n > 0 {
      AllOnesKeep(a / 2, n - 1);
      OddAnd(a, Pow2(n - 1) - 1);
    }
  }

  /** The high ones of an n-bit mask clear the low k bits. */
  lemma {:induction false} HighOnesClear(a: nat, n: nat, k: nat)
    requires k <= n && a < Pow2(n)
    ensures Pow2(k) <= Pow2(n) && BitAnd(a, Pow2(n) - Pow2(k)) == a - a % Pow2(k)
    decreases n
  {
    hide BitAnd;
    Pow2Grows(k, n);
    if k == n {
      Multiple(0, Pow2(n), a);
      AndZero(a);
    } else if k == 0 {
      AllOnesKeep(a, n);
    } else {
      HighOnesClear(a / 2, n - 1, k - 1);
      ClearStep(a, Pow2(n - 1) - Pow2(k - 1), Pow2(k - 1));
    }
  }

  lemma Pow2Word()
    ensures Pow2(32) == 0x1_0000_0000
  {
    assert Pow2(8) == 0x100;
    assert Pow2(16) == 0x1_0000;
    assert Pow2(24) == 0x100_0000;
  }

  /** Clearing the bits under the zeros of a mask is the bitwise conjunction with it. */
  lemma MaskedIsBitAnd(ip: u32, mask: u32)
    requires IsMask(mask)
    ensures Masked(ip, mask) == BitAnd(ip, mask)
  {
    hide Pow2, BitAnd;
    var k :| 0 <= k <= 32 && Pow2(k) == Size(mask);
    Pow2Word();
    HighOnesClear(ip, 32, k);
  }

  /** The mask of a length is all ones shifted left, what leaves the 32 bits dropped. */
  lemma MaskIsShifted(len: nat)
    requires 0 < len <= 32
    ensures MaskOf(len) == 0xFFFF_FFFF * Pow2(32 - len) % 0x1_0000_0000
  {
    var p := Pow2(32 - len);
    Pow2Below(32 - len);
    Multiple(p - 1, 0x1_0000_0000, 0x1_0000_0000 - p);
  }

  // --- Prefixes as intervals, nested or apart ---

  /** A prefix is the addresses from its base on, as many as its mask leaves free. */
  lemma PrefixIsInterval(n: Net, ip: u32)
    requires Valid(n)
    ensures Contains(n, ip) <==> n.base <= ip < n.base + Size(n.mask)
  {
    var size := Size(n.mask);
    Divided(ip, size);
    Divided(n.base, size);
    if n.base <= ip < n.base + size {
      Multiple(n.base / size, size, ip - n.base);
    }
  }

  lemma MasksDivide(small: u32, large: u32) returns (f: nat)
    requires IsMask(small) && IsMask(large) && Size(small) <= Size(large)
    ensures Size(large) == f * Size(small) && f > 0
  {
    hide Pow2;
    var j :| 0 <= j <= 32 && Pow2(j) == Size(small);
    var k :| 0 <= k <= 32 && Pow2(k) == Size(large);
    if k < j {
      Pow2Grows(k, j);
      f := 1;
    } else {
      f := SizesDivide(j, k);
    }
  }

  /** One size is a multiple of the other, and so every base of the larger. */
  lemma Aligned(small: Net, large: Net) returns (f: nat, p: nat, q: nat)
    requires Valid(small) && Valid(large) && Size(small.mask) <= Size(large.mask)
    ensures Size(large.mask) == f * Size(small.mask) && f > 0
    ensures large.base == p * Size(small.mask) && small.base == q * Size(small.mask)
  {
    hide Masked, BaseMultiple, IsMask, Size;
    BaseIsMultiple(small);
    BaseIsMultiple(large);
    f := MasksDivide(small.mask, large.mask);
    p, q := BaseMultiple(large) * f, BaseMultiple(small);
    Distributes(BaseMultiple(large), f, Size(small.mask));
  }

  function BaseMultiple(n: Net): nat {
    n.base / Size(n.mask)
  }

  lemma BaseIsMultiple(n: Net)
    requires Valid(n)
    ensures n.base == BaseMultiple(n) * Size(n.mask)
  {
    Divided(n.base, Size(n.mask));
  }

  lemma MultiplesApart(p: nat, q: nat, size: nat)
    requires p * size < q * size
    ensures p * size + size <= q * size
  {
    Distributes(q, p, size);
    AtLeastOnce(q - p, size);
  }

  lemma CoversAll(n: Net, other: Net, ip: u32)
    requires Valid(n) && Valid(other) && Covers(n, other) && Contains(other, ip)
    ensures Contains(n, ip)
  {
    hide Valid, Contains;
    PrefixIsInterval(n, other.base);
    PrefixIsInterval(n, ip);
    PrefixIsInterval(other, ip);
    var f, p, q := Aligned(other, n);
    var size := Size(other.mask);
    Distributes(p, f, size);
    MultiplesApart(q, p + f, size);
  }

  /** A prefix sorts no later than what lies inside it. */
  predicate Before(a: Net, b: Net) {
    a.base < b.base || (a.base == b.base && a.mask <= b.mask)
  }

  /** A prefix that starts inside an earlier one is covered by it. */
  lemma StartsInsideIsCovered(a: Net, b: Net)
    requires Valid(a) && Valid(b) && Before(a, b) && Contains(a, b.base)
    ensures Covers(a, b)
  {
    hide Valid, Contains;
    PrefixIsInterval(a, b.base);
    if b.mask < a.mask {
      var f, p, q := Aligned(a, b);
      if a.base < b.base {
        MultiplesApart(q, p, Size(a.mask));
      }
    }
  }

  ghost predicate Disjoint(a: Net, b: Net) {
    forall ip: u32 :: !(Contains(a, ip) && Contains(b, ip))
  }

  lemma ApartIfStartsOutside(a: Net, b: Net)
    requires Valid(a) && Valid(b) && a.base <= b.base && !Contains(a, b.base)
    ensures Disjoint(a, b)
  {
    hide Valid, Contains;
    PrefixIsInterval(a, b.base);
    forall ip: u32
      ensures !(Contains(a, ip) && Contains(b, ip))
    {
      PrefixIsInterval(a, ip);
      PrefixIsInterval(b, ip);
    }
  }

  // --- Building the set ---

  ghost predicate Member(nets: seq<Net>, ip: u32) {
    exists i :: 0 <= i < |nets| && Contains(nets[i], ip)
  }

  ghost predicate AllValid(nets: seq<Net>) {
    forall i :: 0 <= i < |nets| ==> Valid(nets[i])
  }

  predicate IsSorted(nets: seq<Net>) {
    forall i, j :: 0 <= i < j < |nets| ==> Before(nets[i], nets[j])
  }

  /** Sorted by first address and pairwise disjoint. */
  ghost predicate IsSet(nets: seq<Net>) {
    && AllValid(nets)
    && (forall i, j :: 0 <= i < j < |nets| ==> nets[i].base < nets[j].base && Disjoint(nets[i], nets[j]))
  }

  lemma BeforeOrders(a: Net, b: Net, c: Net)
    ensures Before(a, b) || Before(b, a)
    ensures Before(a, b) && Before(b, c) ==> Before(a, c)
  {
  }

  lemma InsertedSorted(nets: seq<Net>, n: Net, pos: nat)
    requires IsSorted(nets) && pos <= |nets|
    requires forall i :: 0 <= i < pos ==> Before(nets[i], n)
    requires forall i :: pos <= i < |nets| ==> Before(n, nets[i])
    ensures IsSorted(nets[..pos] + [n] + nets[pos..])
  {
    hide Before;
    var r := nets[..pos] + [n] + nets[pos..];
    forall i, j | 0 <= i < j < |r|
      ensures Before(r[i], r[j])
    {
      var x, y := if i < pos then i else i - 1, if j < pos then j else j - 1;
      assert i != pos ==> r[i] == nets[x];
      assert j != pos ==> r[j] == nets[y];
    }
  }

  method Insert(nets: seq<Net>, n: Net) returns (r: seq<Net>)
    requires IsSorted(nets)
    ensures IsSorted(r) && multiset(r) == multiset(nets) + multiset{n}
  {
    hide Before;
    var pos := |nets|;
    while pos > 0 && !Before(nets[pos - 1], n)
      invariant 0 <= pos <= |nets|
      invariant forall i :: pos <= i < |nets| ==> Before(n, nets[i])
    {
      pos := pos - 1;
      BeforeOrders(nets[pos], n, n);
    }
    r := nets[..pos] + [n] + nets[pos..];
    assert nets == nets[..pos] + nets[pos..];
    forall i | 0 <= i < pos
      ensures Before(nets[i], n)
    {
      BeforeOrders(nets[i], nets[pos - 1], n);
    }
    InsertedSorted(nets, n, pos);
  }

  /** The library sort by first address and mask. */
  method Sort(nets: seq<Net>) returns (r: seq<Net>)
    ensures IsSorted(r) && multiset(r) == multiset(nets)
  {
    hide Before;
    r := [];
    for i := 0 to |nets|
      invariant IsSorted(r) && multiset(r) == multiset(nets[..i])
    {
      r := Insert(r, nets[i]);
      assert nets[..i + 1] == nets[..i] + [nets[i]];
    }
    assert nets[..|nets|] == nets;
  }

  lemma SameMembers(a: seq<Net>, b: seq<Net>)
    requires multiset(a) == multiset(b)
    ensures AllValid(a) ==> AllValid(b)
    ensures forall ip :: Member(a, ip) ==> Member(b, ip)
  {
    hide Valid, Contains;
    forall i | 0 <= i < |a|
      ensures a[i] in b
    {
      assert a[i] in multiset(a);
    }
    forall i | 0 <= i < |b|
      ensures b[i] in a
    {
      assert b[i] in multiset(b);
    }
  }

  /** One pass drops what the last kept prefix covers; what is left is a set, with the same members. */
  method Collapse(nets: seq<Net>) returns (kept: seq<Net>)
    requires IsSorted(nets) && AllValid(nets)
    ensures IsSet(kept)
    ensures forall ip :: Member(kept, ip) <==> Member(nets, ip)
  {
    hide Valid, Contains, Before, Covers, Disjoint;
    kept := [];
    for i := 0 to |nets|
      invariant IsSet(kept)
      invariant kept != [] ==> forall j :: i <= j < |nets| ==> Before(kept[|kept| - 1], nets[j])
      invariant forall ip :: Member(kept, ip) <==> Member(nets[..i], ip)
    {
      var n := nets[i];
      assert nets[..i + 1] == nets[..i] + [n];
      MemberAppend(nets[..i], n);
      if kept != [] && Covers(kept[|kept| - 1], n) {
        CoveredAddsNothing(kept, n);
        continue;
      }
      NotCoveredIsApart(kept, n);
      MemberAppend(kept, n);
      kept := kept + [n];
    }
    assert nets[..|nets|] == nets;
  }

  lemma MemberAppend(nets: seq<Net>, n: Net)
    ensures forall ip :: Member(nets + [n], ip) <==> Member(nets, ip) || Contains(n, ip)
  {
    hide Contains;
    forall ip
      ensures Member(nets + [n], ip) <==> Member(nets, ip) || Contains(n, ip)
    {
      if Member(nets, ip) {
        var i :| 0 <= i < |nets| && Contains(nets[i], ip);
        assert Contains((nets + [n])[i], ip);
      }
      if Contains(n, ip) {
        assert Contains((nets + [n])[|nets|], ip);
      }
    }
  }

  lemma CoveredAddsNothing(kept: seq<Net>, n: Net)
    requires AllValid(kept) && Valid(n) && kept != [] && Covers(kept[|kept| - 1], n)
    ensures forall ip :: Contains(n, ip) ==> Member(kept, ip)
  {
    hide Valid, Contains, Covers;
    forall ip | Contains(n, ip)
      ensures Member(kept, ip)
    {
      CoversAll(kept[|kept| - 1], n, ip);
    }
  }

  lemma NotCoveredIsApart(kept: seq<Net>, n: Net)
    requires IsSet(kept) && Valid(n)
    requires kept != [] ==> Before(kept[|kept| - 1], n) && !Covers(kept[|kept| - 1], n)
    ensures IsSet(kept + [n])
  {
    hide Valid, Contains, Covers, Disjoint;
    forall i | 0 <= i < |kept|
      ensures kept[i].base < n.base && Disjoint(kept[i], n)
    {
      var last := kept[|kept| - 1];
      if Contains(last, n.base) {
        StartsInsideIsCovered(last, n);
      }
      BaseInside(last);
      if i < |kept| - 1 && Contains(kept[i], n.base) {
        PrefixIsInterval(kept[i], last.base);
        PrefixIsInterval(kept[i], n.base);
        NotBoth(kept[i], last, last.base);
      }
      ApartIfStartsOutside(kept[i], n);
    }
  }

  lemma BaseInside(n: Net)
    requires Valid(n)
    ensures Contains(n, n.base)
  {
  }

  lemma NotBoth(a: Net, b: Net, ip: u32)
    requires Disjoint(a, b)
    ensures !(Contains(a, ip) && Contains(b, ip))
  {
  }

  method New(nets: seq<Net>) returns (kept: seq<Net>)
    requires AllValid(nets)
    ensures IsSet(kept)
    ensures forall ip :: Member(kept, ip) <==> Member(nets, ip)
  {
    hide Valid, Contains, Before;
    var sorted := Sort(nets);
    SameMembers(nets, sorted);
    SameMembers(sorted, nets);
    kept := Collapse(sorted);
  }

  // --- Looking up ---

  /** How many prefixes start at or before the address. */
  method PartitionPoint(kept: seq<Net>, ip: u32) returns (after: nat)
    requires forall i, j :: 0 <= i < j < |kept| ==> kept[i].base < kept[j].base
    ensures after <= |kept|
    ensures forall i :: 0 <= i < |kept| ==> (i < after <==> kept[i].base <= ip)
  {
    var lo, hi := 0, |kept|;
    while lo < hi
      invariant 0 <= lo <= hi <= |kept|
      invariant forall i :: 0 <= i < lo ==> kept[i].base <= ip
      invariant forall i :: hi <= i < |kept| ==> kept[i].base > ip
    {
      var mid := (lo + hi) / 2;
      if kept[mid].base <= ip {
        lo := mid + 1;
      } else {
        hi := mid;
      }
    }
    after := lo;
  }

  /** Only the last prefix starting at or before the address can contain it. */
  lemma OnlyCandidate(kept: seq<Net>, ip: u32, after: nat, i: nat)
    requires IsSet(kept) && after <= |kept| && i < |kept| && Contains(kept[i], ip)
    requires forall j :: 0 <= j < |kept| ==> (j < after <==> kept[j].base <= ip)
    ensures i == after - 1
  {
    hide Valid, Contains, Disjoint;
    PrefixIsInterval(kept[i], ip);
    if i < after - 1 {
      var n := kept[after - 1];
      PrefixIsInterval(kept[i], n.base);
      BaseInside(n);
      NotBoth(kept[i], n, n.base);
    }
  }

  method Lookup(kept: seq<Net>, ip: u32) returns (found: bool)
    requires IsSet(kept)
    ensures found <==> Member(kept, ip)
  {
    hide Valid, Contains, Disjoint;
    var after := PartitionPoint(kept, ip);
    found := after > 0 && Contains(kept[after - 1], ip);
    if Member(kept, ip) {
      var i :| 0 <= i < |kept| && Contains(kept[i], ip);
      OnlyCandidate(kept, ip, after, i);
    }
  }
}
