/** Addresses as big-endian bytes, and the expansion of a CIDR block into hosts. */
module NetAddr {

  type Byte = b: int | 0 <= b < 256

  type Addr = seq<Byte>

  function Pow2(k: nat): (r: nat)
    ensures r > 0
  {
    if k == 0 then 1 else 2 * Pow2(k - 1)
  }

  /** How many addresses of n bytes there are. */
  function Space(n: nat): (r: nat)
    ensures r > 0
  {
    if n == 0 then 1 else 256 * Space(n - 1)
  }

  /** The number a big-endian address denotes. */
  function Value(a: Addr): nat {
    if a == [] then 0 else Value(a[..|a| - 1]) * 256 + a[|a| - 1]
  }

  lemma {:induction false} ValueInSpace(a: Addr)
    ensures Value(a) < Space(|a|)
  {
    if a != [] { ValueInSpace(a[..|a| - 1]); }
  }

  lemma {:induction false} ValueInjective(a: Addr, b: Addr)
    requires |a| == |b| && Value(a) == Value(b)
    ensures a == b
    decreases |a|
  {
    if a != [] {
      var n := |a| - 1;
      ValueInjective(a[..n], b[..n]);
      assert a == a[..n] + [a[n]] && b == b[..n] + [b[n]];
    }
  }

  // ---- inc ----

  /** The address after a, the all-ones address being followed by zero. */
  function Successor(a: Addr): (r: Addr)
    ensures |r| == |a|
  {
    if a == [] then []
    else if a[|a| - 1] == 255 then Successor(a[..|a| - 1]) + [0]
    else a[..|a| - 1] + [a[|a| - 1] + 1]
  }

  lemma {:induction false} SuccessorValue(a: Addr)
    ensures Value(Successor(a)) == if Value(a) + 1 == Space(|a|) then 0 else Value(a) + 1
  {
    if a != [] {
      var n := |a| - 1;
      SuccessorValue(a[..n]);
      ValueInSpace(a[..n]);
      assert Successor(a)[..n] == if a[n] == 255 then Successor(a[..n]) else a[..n];
    }
  }

  /** One byte of the carry: it stops here, or goes on with this byte back at zero. */
  lemma Carry(a: Addr, front: Addr, last: Byte, rest: Addr)
    requires a == front + [last]
    ensures Successor(a) + rest ==
            if last == 255 then Successor(front) + ([0] + rest) else front + ([last + 1] + rest)
  {
    assert a[..|a| - 1] == front;
  }

  /** The in-place carry. */
  method Inc(ip: array<Byte>)
    modifies ip
    ensures ip[..] == Successor(old(ip[..]))
  {
    ghost var was := ip[..];
    var i := ip.Length - 1;
    assert was[..i + 1] == was && ip[..i + 1] == was;
    while i >= 0
      invariant -1 <= i < ip.Length
      invariant ip[..i + 1] == was[..i + 1]
      invariant Successor(was) == Successor(was[..i + 1]) + ip[i + 1..]
    {
      var b := ip[i];
      ghost var rest := ip[i + 1..];
      Carry(was[..i + 1], was[..i], b, rest);
      ip[i] := if b == 255 then 0 else b + 1;
      assert ip[i..] == [ip[i]] + rest && ip[..i] == was[..i];
      if ip[i] != 0 {
        assert ip[..] == ip[..i] + ip[i..];
        return;
      }
      i := i - 1;
    }
  }

  // ---- masks ----

  /** How many of the leading p bits fall into byte i. */
  function BitsIn(p: nat, i: nat): (k: nat)
    ensures k <= 8
  {
    if p <= 8 * i then 0 else if p >= 8 * i + 8 then 8 else p - 8 * i
  }

  /** The number the low k bits of v denote. */
  function LowBits(v: nat, k: nat): (r: nat)
    ensures r <= v
    decreases k
  {
    if k == 0 then 0 else 2 * LowBits(v / 2, k - 1) + v % 2
  }

  function MaskByte(b: Byte, k: nat): (r: Byte)
    requires k <= 8
    ensures r <= b
  {
    b - LowBits(b, 8 - k)
  }

  /** The address with all but its leading p bits cleared. */
  function Masked(a: Addr, p: nat): (r: Addr)
    ensures |r| == |a|
  {
    if a == [] then []
    else
      var n := |a| - 1;
      Masked(a[..n], p) + [MaskByte(a[n], BitsIn(p, n))]
  }

  lemma {:induction false} MaskedAt(a: Addr, p: nat, i: nat)
    requires i < |a|
    ensures Masked(a, p)[i] == MaskByte(a[i], BitsIn(p, i))
    decreases |a|
  {
    if i < |a| - 1 { MaskedAt(a[..|a| - 1], p, i); }
  }

  /** `net.IPNet.Contains`, byte by byte. */
  predicate Contains(base: Addr, p: nat, a: Addr) {
    |a| == |base| && forall i :: 0 <= i < |a| ==> MaskByte(base[i], BitsIn(p, i)) == MaskByte(a[i], BitsIn(p, i))
  }

  /** How many addresses share a prefix of p bits. */
  function BlockSize(n: nat, p: nat): (r: nat)
    requires p <= 8 * n
    ensures r > 0
  {
    Pow2(8 * n - p)
  }

  lemma Pow2Byte(k: nat)
    ensures Pow2(8) == 256 && Pow2(k + 8) == 256 * Pow2(k)
  {
    assert Pow2(k + 8) == 2 * Pow2(k + 7) == 4 * Pow2(k + 6) == 8 * Pow2(k + 5) == 16 * Pow2(k + 4);
    assert Pow2(k + 4) == 2 * Pow2(k + 3) == 4 * Pow2(k + 2) == 8 * Pow2(k + 1) == 16 * Pow2(k);
    assert Pow2(8) == 2 * Pow2(7) == 4 * Pow2(6) == 8 * Pow2(5) == 16 * Pow2(4) == 256;
  }

  lemma {:induction false} Pow2Grows(j: nat, k: nat)
    requires j <= k
    ensures Pow2(j) <= Pow2(k)
    ensures j < k ==> 2 * Pow2(j) <= Pow2(k)
    decreases k
  {
    if j < k { Pow2Grows(j, k - 1); }
  }

  lemma {:induction false} SpaceIsPow2(n: nat)
    ensures Space(n) == Pow2(8 * n)
  {
    if n > 0 {
      SpaceIsPow2(n - 1);
      Pow2Byte(8 * (n - 1));
    }
  }

  lemma OneBit(x: nat, d: nat, k: nat)
    requires d < 2
    ensures LowBits(2 * x + d, k + 1) == 2 * LowBits(x, k) + d
  {
    assert (2 * x + d) / 2 == x && (2 * x + d) % 2 == d;
  }

  lemma TwoBits(x: nat, d: nat, k: nat)
    requires d < 4
    ensures LowBits(4 * x + d, k + 2) == 4 * LowBits(x, k) + d
  {
    OneBit(2 * x + d / 2, d % 2, k + 1);
    OneBit(x, d / 2, k);
  }

  lemma FourBits(x: nat, d: nat, k: nat)
    requires d < 16
    ensures LowBits(16 * x + d, k + 4) == 16 * LowBits(x, k) + d
  {
    TwoBits(4 * x + d / 4, d % 4, k + 2);
    TwoBits(x, d / 4, k);
  }

  /** A value in front of a byte leaves the byte, and is cut where it would be cut alone. */
  lemma LowBitsByte(v: nat, b: nat, k: nat)
    requires b < 256
    ensures LowBits(256 * v + b, k + 8) == 256 * LowBits(v, k) + b
  {
    FourBits(16 * v + b / 16, b % 16, k + 4);
    FourBits(v, b / 16, k);
  }

  predicate Aligned(v: nat, k: nat) { LowBits(v, k) == 0 }

  lemma {:induction false} LowBitsPlus(w: nat, b: nat, k: nat)
    requires Aligned(w, k)
    ensures LowBits(w + b, k) == LowBits(b, k)
    decreases k
  {
    if k > 0 {
      assert (w + b) / 2 == w / 2 + b / 2;
      LowBitsPlus(w / 2, b / 2, k - 1);
    }
  }

  lemma LowBitsOfLastByte(v: nat, b: nat, k: nat)
    requires k <= 8
    ensures LowBits(256 * v + b, k) == LowBits(b, k)
  {
    LowBitsByte(v, 0, 0);
    AlignedToLess(256 * v, k, 8);
    LowBitsPlus(256 * v, b, k);
  }

  lemma LastByteMasked(v: nat, v': nat, b: Byte, k: nat, m: Byte)
    requires k >= 8 ==> v' == v - LowBits(v, k - 8) && m == 0
    requires k < 8 ==> v' == v && m == b - LowBits(b, k)
    ensures v' * 256 + m == v * 256 + b - LowBits(v * 256 + b, k)
  {
    if k >= 8 { LowBitsByte(v, b, k - 8); } else { LowBitsOfLastByte(v, b, k); }
  }

  lemma MaskedLast(b: Byte, p: nat, n: nat, k: nat)
    requires k == if p <= 8 * n + 8 then 8 * n + 8 - p else 0
    ensures k >= 8 ==> MaskByte(b, BitsIn(p, n)) == 0
    ensures k < 8 ==> MaskByte(b, BitsIn(p, n)) == b - LowBits(b, k)
  {
    MaskAll(b);
  }

  lemma ValueOfLast(a: Addr, b: Byte)
    ensures Value(a + [b]) == Value(a) * 256 + b
  {
    assert (a + [b])[..|a|] == a;
  }

  /** Clearing bits byte by byte clears the low bits of the whole address. */
  lemma {:induction false} MaskedValue(a: Addr, p: nat, k: nat)
    requires k == if p <= 8 * |a| then 8 * |a| - p else 0
    ensures Value(Masked(a, p)) == Value(a) - LowBits(Value(a), k)
    decreases |a|
  {
    if a != [] {
      var n := |a| - 1;
      var m := MaskByte(a[n], BitsIn(p, n));
      MaskedValue(a[..n], p, if k >= 8 then k - 8 else 0);
      MaskedLast(a[n], p, n, k);
      LastByteMasked(Value(a[..n]), Value(Masked(a[..n], p)), a[n], k, m);
      ValueOfLast(Masked(a[..n], p), m);
    }
  }

  lemma MaskAll(b: Byte)
    ensures MaskByte(b, 0) == 0
  {
    LowBitsByte(0, b, 0);
  }

  /** Rounding down to a multiple of 2^k gives b exactly for the 2^k values from b on. */
  lemma {:induction false} RoundDown(v: nat, b: nat, k: nat)
    requires Aligned(b, k)
    ensures v - LowBits(v, k) == b <==> b <= v < b + Pow2(k)
    ensures b <= v ==> b <= v - LowBits(v, k)
    decreases k
  {
    if k > 0 { RoundDown(v / 2, b / 2, k - 1); }
  }

  lemma {:induction false} RoundedAligned(v: nat, k: nat)
    ensures Aligned(v - LowBits(v, k), k)
    decreases k
  {
    if k > 0 {
      RoundedAligned(v / 2, k - 1);
      assert (v - LowBits(v, k)) / 2 == v / 2 - LowBits(v / 2, k - 1);
    }
  }

  lemma {:induction false} AlignedToLess(v: nat, j: nat, k: nat)
    requires Aligned(v, k) && j <= k
    ensures Aligned(v, j)
    decreases j
  {
    if j > 0 { AlignedToLess(v / 2, j - 1, k - 1); }
  }

  /** Two aligned power-of-two blocks that share an address are nested. */
  lemma AlignedNested(a: nat, j: nat, b: nat, k: nat, v: nat)
    requires j <= k && Aligned(a, j) && Aligned(b, k)
    requires a <= v < a + Pow2(j) && b <= v < b + Pow2(k)
    ensures b <= a < b + Pow2(k)
  {
    AlignedToLess(b, j, k);
    RoundDown(v, a, j);
    RoundDown(v, b, j);
  }

  /** The byte-wise test is membership in a run of consecutive addresses. */
  lemma ContainsIsRange(base: Addr, p: nat, a: Addr)
    requires |a| == |base| && p <= 8 * |base| && Masked(base, p) == base
    ensures Contains(base, p, a) <==> Value(base) <= Value(a) < Value(base) + BlockSize(|base|, p)
  {
    var k := 8 * |base| - p;
    MaskedValue(base, p, k);
    MaskedValue(a, p, k);
    ContainsIsMasked(base, p, a);
    SameValue(Masked(a, p), base);
    RoundDown(Value(a), Value(base), k);
  }

  lemma SameValue(a: Addr, b: Addr)
    requires |a| == |b|
    ensures a == b <==> Value(a) == Value(b)
  {
    if Value(a) == Value(b) { ValueInjective(a, b); }
  }

  lemma ContainsIsMasked(base: Addr, p: nat, a: Addr)
    requires |a| == |base| && Masked(base, p) == base
    ensures Contains(base, p, a) <==> Masked(a, p) == base
  {
    forall i | 0 <= i < |a|
      ensures Masked(a, p)[i] == MaskByte(a[i], BitsIn(p, i)) && base[i] == MaskByte(base[i], BitsIn(p, i))
    {
      MaskedAt(a, p, i);
      MaskedAt(base, p, i);
    }
    if Contains(base, p, a) { assert Masked(a, p) == base; }
  }

  lemma MaskedTwice(a: Addr, p: nat)
    requires p <= 8 * |a|
    ensures Masked(Masked(a, p), p) == Masked(a, p)
    ensures Aligned(Value(Masked(a, p)), 8 * |a| - p)
  {
    var k := 8 * |a| - p;
    MaskedValue(a, p, k);
    MaskedValue(Masked(a, p), p, k);
    RoundedAligned(Value(a), k);
    SameValue(Masked(Masked(a, p), p), Masked(a, p));
  }

  // ---- expansion ----

  function Max(a: int, b: int): int { if a < b then b else a }

  const MAPPED_PREFIX: Addr := [0, 0, 0, 0, 0, 0, 0, 0, 0, 0, 255, 255]
  const MAPPED_FIRST: nat := 0xFFFF_0000_0000

  /** An IPv4 address written as an IPv6 one. */
  predicate Mapped(a: Addr) { |a| == 16 && a[..12] == MAPPED_PREFIX }

  /** The containment test of the code: it reads mapped addresses as IPv4, so they are in no IPv6 block but
      a mapped one. */
  predicate Holds(base: Addr, p: nat, a: Addr) { Contains(base, p, a) && (Mapped(a) <==> Mapped(base)) }

  /** How far the block goes on from its base for that test: to its end, or to the first mapped address. */
  function Reach(base: Addr, p: nat): (r: nat)
    requires p <= 8 * |base|
    ensures 0 < r <= BlockSize(|base|, p)
  {
    var size := BlockSize(|base|, p);
    if |base| == 16 && !Mapped(base) && Value(base) < MAPPED_FIRST < Value(base) + size
    then MAPPED_FIRST - Value(base) else size
  }

  /** The whole IPv4 space: incrementing the last address wraps around into the block again. */
  predicate Endless(base: Addr, p: nat) { p == 0 && |base| != 16 }

  /** How many addresses an expansion returns. A cap below one still yields the first. */
  function Expanded(base: Addr, p: nat, cap: int): (k: nat)
    requires p <= 8 * |base|
  {
    if !Endless(base, p) && Reach(base, p) < Max(cap, 1) then Reach(base, p) else Max(cap, 1)
  }

  lemma {:induction false} ValueSplit(a: Addr, n: nat)
    requires n <= |a|
    ensures Value(a) == Value(a[..n]) * Space(|a| - n) + Value(a[n..])
    decreases |a|
  {
    if n == |a| {
      assert a[..n] == a && a[n..] == [];
    } else {
      var m := |a| - 1;
      ValueSplit(a[..m], n);
      assert a[..m][..n] == a[..n] && a[..m][n..] == a[n..m];
      assert a[n..][..m - n] == a[n..m];
      SplitStep(Value(a[..n]), Space(m - n), Value(a[n..m]), a[m]);
    }
  }

  lemma SplitStep(hi: nat, space: nat, mid: nat, last: nat)
    ensures (hi * space + mid) * 256 + last == hi * (256 * space) + (mid * 256 + last)
  {
  }

  lemma PrefixValue(a: Addr)
    requires a == MAPPED_PREFIX
    ensures Value(a) == 0xFFFF
  {
    ValueSplit(a, 10);
    assert a[..10] == [0, 0, 0, 0, 0, 0, 0, 0, 0, 0] && a[10..] == [255, 255];
    ZeroValue(a[..10]);
    assert [255, 255][..1] == [255] && [255][..0] == [];
  }

  lemma {:induction false} ZeroValue(a: Addr)
    requires forall i :: 0 <= i < |a| ==> a[i] == 0
    ensures Value(a) == 0
    decreases |a|
  {
    if a != [] { ZeroValue(a[..|a| - 1]); }
  }

  lemma Space4()
    ensures Space(4) == 0x1_0000_0000
  {
    assert Space(4) == 256 * Space(3) && Space(3) == 256 * Space(2) && Space(2) == 256 * Space(1) && Space(1) == 256 * Space(0);
  }

  /** The mapped addresses are one range. */
  lemma MappedIsRange(a: Addr)
    requires |a| == 16
    ensures Mapped(a) <==> MAPPED_FIRST <= Value(a) < MAPPED_FIRST + 0x1_0000_0000
  {
    var hi, lo := a[..12], a[12..];
    ValueSplit(a, 12);
    Space4();
    ValueInSpace(lo);
    PrefixValue(MAPPED_PREFIX);
    SameValue(hi, MAPPED_PREFIX);
    HighPart(Value(hi), Value(lo), Value(a));
  }

  lemma HighPart(hi: nat, lo: nat, v: nat)
    requires v == hi * 0x1_0000_0000 + lo && lo < 0x1_0000_0000
    ensures hi == 0xFFFF <==> MAPPED_FIRST <= v < MAPPED_FIRST + 0x1_0000_0000
  {
  }

  /** A block with a mapped base is as narrow as the mapped range or narrower. */
  lemma MappedBlock(base: Addr, p: nat, a: Addr)
    requires p <= 128 && Masked(base, p) == base && Mapped(base) && Contains(base, p, a)
    ensures p >= 96 && Mapped(a)
  {
    assert base[11] == base[..12][11] == 255;
    MaskedAt(base, p, 11);
    OddKept(BitsIn(p, 11));
    forall i | 0 <= i < 12 ensures a[i] == base[i] {
      assert MaskByte(base[i], BitsIn(p, i)) == MaskByte(a[i], BitsIn(p, i)) && BitsIn(p, i) == 8;
    }
    assert a[..12] == base[..12];
  }

  lemma OddKept(k: nat)
    requires k <= 8
    ensures MaskByte(255, k) == 255 ==> k == 8
  {
    if k < 8 { assert LowBits(255, 8 - k) == 2 * LowBits(127, 7 - k) + 1; }
  }

  lemma {:induction false} AlignedBlockFits(b: nat, k: nat, p: nat)
    requires Aligned(b, k) && b < Pow2(k + p)
    ensures b + Pow2(k) <= Pow2(k + p)
    decreases k
  {
    if k > 0 { AlignedBlockFits(b / 2, k - 1, p); }
  }

  lemma BlockInSpace(base: Addr, p: nat)
    requires p <= 8 * |base| && Masked(base, p) == base
    ensures Value(base) + BlockSize(|base|, p) <= Space(|base|)
    ensures p > 0 ==> 2 * BlockSize(|base|, p) <= Space(|base|)
  {
    var k := 8 * |base| - p;
    MaskedTwice(base, p);
    ValueInSpace(base);
    SpaceIsPow2(|base|);
    assert k + p == 8 * |base|;
    AlignedBlockFits(Value(base), k, p);
    Pow2Grows(k, k + p);
  }

  /** Stepping on from the k-th address of a block: to the next one, or out of the block. */
  lemma NextInBlock(base: Addr, p: nat, a: Addr, k: nat)
    requires p <= 8 * |base| && Masked(base, p) == base && |a| == |base|
    requires k < BlockSize(|base|, p) && Value(a) == Value(base) + k
    ensures k + 1 < BlockSize(|base|, p) ==>
              Contains(base, p, Successor(a)) && Value(Successor(a)) == Value(base) + k + 1
    ensures k + 1 == BlockSize(|base|, p) && p > 0 ==> !Contains(base, p, Successor(a))
  {
    SuccessorValue(a);
    BlockInSpace(base, p);
    ContainsIsRange(base, p, Successor(a));
  }

  lemma WholeSpace(base: Addr, a: Addr)
    requires |a| == |base|
    ensures Contains(base, 0, a)
  {
    forall i | 0 <= i < |a| ensures MaskByte(base[i], BitsIn(0, i)) == MaskByte(a[i], BitsIn(0, i)) {
      MaskAll(base[i]);
      MaskAll(a[i]);
    }
  }

  /** Where the loop stands after k addresses: at the k-th of the block, or past its end. */
  predicate StandsAt(base: Addr, p: nat, a: Addr, k: nat)
    requires p <= 8 * |base|
  {
    && |a| == |base|
    && (k < BlockSize(|base|, p) ==> Contains(base, p, a) && Value(a) == Value(base) + k)
    && (k == BlockSize(|base|, p) && p > 0 ==> !Contains(base, p, a))
    && (p == 0 ==> Contains(base, p, a))
  }

  lemma StandsAtNext(base: Addr, p: nat, a: Addr, k: nat)
    requires p <= 8 * |base| && Masked(base, p) == base
    requires StandsAt(base, p, a, k) && (p > 0 ==> k < BlockSize(|base|, p))
    ensures StandsAt(base, p, Successor(a), k + 1)
  {
    if k < BlockSize(|base|, p) { NextInBlock(base, p, a, k); }
    if p == 0 { WholeSpace(base, Successor(a)); }
  }

  /** The addresses of base's block in order, starting over where the block is the whole space. */
  predicate Enumerates(out: seq<Addr>, base: Addr, p: nat)
    requires p <= 8 * |base|
  {
    && (forall i :: 0 <= i < |out| ==> |out[i]| == |base| && Holds(base, p, out[i]))
    && (forall i :: 0 <= i < |out| && i < BlockSize(|base|, p) ==> Value(out[i]) == Value(base) + i)
  }

  /** k steps on from a. */
  function Onward(a: Addr, k: nat): (r: Addr)
    ensures |r| == |a|
  {
    if k == 0 then a else Successor(Onward(a, k - 1))
  }

  /** The first n addresses from a on. */
  function Walk(a: Addr, n: nat): (r: seq<Addr>)
    ensures |r| == n
  {
    if n == 0 then [] else Walk(a, n - 1) + [Onward(a, n - 1)]
  }

  lemma {:induction false} WalkAt(a: Addr, n: nat, i: nat)
    requires i < n
    ensures Walk(a, n)[i] == Onward(a, i)
    decreases n
  {
    if i < n - 1 { WalkAt(a, n - 1, i); }
  }

  /** The hosts of the block a lies in, up to a cap. */
  function Hosts(a: Addr, p: nat, cap: int): seq<Addr>
    requires p <= 8 * |a|
  {
    Walk(Masked(a, p), Expanded(Masked(a, p), p, cap))
  }

  lemma {:induction false} OnwardStands(base: Addr, p: nat, k: nat)
    requires p <= 8 * |base| && Masked(base, p) == base && (p > 0 ==> k <= BlockSize(|base|, p))
    ensures StandsAt(base, p, Onward(base, k), k)
    decreases k
  {
    if k > 0 {
      OnwardStands(base, p, k - 1);
      StandsAtNext(base, p, Onward(base, k - 1), k - 1);
    }
  }

  /** The hosts are the block's addresses in order, from its first. */
  lemma HostsEnumerate(a: Addr, p: nat, cap: int)
    requires p <= 8 * |a|
    ensures |Hosts(a, p, cap)| == Expanded(Masked(a, p), p, cap) && Enumerates(Hosts(a, p, cap), Masked(a, p), p)
  {
    var base := Masked(a, p);
    MaskedTwice(a, p);
    forall i | 0 <= i < Expanded(base, p, cap)
      ensures StandsAt(base, p, Hosts(a, p, cap)[i], i) && Holds(base, p, Hosts(a, p, cap)[i])
    {
      OnwardStands(base, p, i);
      InBlockAt(base, p, Onward(base, i), i);
      WalkAt(base, Expanded(base, p, cap), i);
    }
  }

  /** Expansion of the block a lies in, up to a cap. Any cap is honoured, and the loop always ends. */
  method ExpandCIDRHosts(a: Addr, p: nat, cap: int) returns (out: seq<Addr>)
    requires p <= 8 * |a|
    ensures out == Hosts(a, p, cap)
    ensures Enumerates(out, Masked(a, p), p)
  {
    MaskedTwice(a, p);
    out := ExpandFrom(Masked(a, p), p, cap);
    HostsEnumerate(a, p, cap);
  }

  /** The loop leaves the block after its last address or at the first mapped one, and never where the block
      is the whole IPv4 space. */
  lemma InBlockAt(base: Addr, p: nat, a: Addr, k: nat)
    requires p <= 8 * |base| && Masked(base, p) == base && (!Endless(base, p) ==> k <= Reach(base, p)) && a == Onward(base, k)
    ensures Holds(base, p, a) <==> Endless(base, p) || k < Reach(base, p)
  {
    OnwardStands(base, p, k);
    if |base| == 16 { InIPv6BlockAt(base, p, a, k); }
  }

  lemma InIPv6BlockAt(base: Addr, p: nat, a: Addr, k: nat)
    requires |base| == 16 && p <= 128 && Masked(base, p) == base && k <= Reach(base, p) && StandsAt(base, p, a, k)
    ensures Holds(base, p, a) <==> k < Reach(base, p)
  {
    MappedIsRange(base);
    MappedIsRange(a);
    if p == 0 { WholeIPv6(base); }
    if Mapped(base) && Contains(base, p, a) { MappedBlock(base, p, a); }
    if Mapped(base) { MappedBlock(base, p, base); }
  }

  /** The whole IPv6 space starts at zero and runs into the mapped addresses. */
  lemma WholeIPv6(base: Addr)
    requires |base| == 16 && Masked(base, 0) == base
    ensures Value(base) == 0 && MAPPED_FIRST < BlockSize(16, 0)
  {
    MaskedValue(base, 0, 128);
    ValueInSpace(base);
    SpaceIsPow2(16);
    AllLow(Value(base), 128);
    Pow2Grows(48, 128);
    Pow2At48();
  }

  lemma {:induction false} AllLow(v: nat, k: nat)
    requires v < Pow2(k)
    ensures LowBits(v, k) == v
    decreases k
  {
    if k > 0 { AllLow(v / 2, k - 1); }
  }

  lemma Pow2At48()
    ensures Pow2(48) == 0x1_0000_0000_0000
  {
    Pow2Byte(0);
    Pow2Byte(8);
    Pow2Byte(16);
    Pow2Byte(24);
    Pow2Byte(32);
    Pow2Byte(40);
  }

  /** What is in a block, by value: its range, of which the mapped addresses count only for a mapped block. */
  lemma HoldsIsRange(base: Addr, p: nat, a: Addr)
    requires |a| == |base| && p <= 8 * |base| && Masked(base, p) == base
    ensures Holds(base, p, a) <==>
            && Value(base) <= Value(a) < Value(base) + BlockSize(|base|, p)
            && (|a| == 16 && MAPPED_FIRST <= Value(a) < MAPPED_FIRST + 0x1_0000_0000 ==>
                  MAPPED_FIRST <= Value(base) < MAPPED_FIRST + 0x1_0000_0000)
  {
    ContainsIsRange(base, p, a);
    if |a| == 16 {
      MappedIsRange(a);
      MappedIsRange(base);
      if Mapped(base) && Contains(base, p, a) { MappedBlock(base, p, a); }
    }
  }

  method ExpandFrom(base: Addr, p: nat, cap: int) returns (out: seq<Addr>)
    requires p <= 8 * |base| && Masked(base, p) == base
    ensures out == Walk(base, Expanded(base, p, cap))
  {
    out := ExpandUpTo(base, p, cap, Reach(base, p));
    Stops(base, p, cap, |out|);
  }

  lemma Stops(base: Addr, p: nat, cap: int, k: nat)
    requires p <= 8 * |base|
    requires || (!Endless(base, p) && k == Reach(base, p) && (k == 0 || k < cap))
             || (k == Max(cap, 1) && (!Endless(base, p) ==> k <= Reach(base, p)))
    ensures k == Expanded(base, p, cap)
  {
  }

  lemma WalkNext(a: Addr, n: nat)
    ensures Walk(a, n + 1) == Walk(a, n) + [Onward(a, n)] && Onward(a, n + 1) == Successor(Onward(a, n))
  {
  }

  method ExpandUpTo(base: Addr, p: nat, cap: int, ghost reach: nat) returns (out: seq<Addr>)
    requires p <= 8 * |base| && Masked(base, p) == base && reach == Reach(base, p)
    ensures out == Walk(base, |out|)
    ensures || (!Endless(base, p) && |out| == reach && (|out| == 0 || |out| < cap))
            || (|out| == Max(cap, 1) && (!Endless(base, p) ==> |out| <= reach))
  {
    var ip := new Byte[|base|](i requires 0 <= i < |base| => base[i]);
    assert ip[..] == base;
    out := [];
    var inside := Inside(base, p, ip[..], 0);
    while inside
      invariant |out| == 0 || |out| < cap
      invariant !Endless(base, p) ==> |out| <= reach
      invariant ip[..] == Onward(base, |out|) && out == Walk(base, |out|)
      invariant inside <==> Endless(base, p) || |out| < reach
      decreases cap - |out|
    {
      WalkNext(base, |out|);
      out := out + [ip[..]];
      if |out| >= cap { return; }
      Inc(ip);
      inside := Inside(base, p, ip[..], |out|);
    }
  }

  /** Whether an address is still in the block, asked of the k-th from its start. */
  method Inside(base: Addr, p: nat, a: Addr, ghost k: nat) returns (inside: bool)
    requires p <= 8 * |base| && Masked(base, p) == base && (!Endless(base, p) ==> k <= Reach(base, p)) && a == Onward(base, k)
    ensures inside <==> Endless(base, p) || k < Reach(base, p)
  {
    InBlockAt(base, p, a, k);
    inside := Contains(base, p, a) && (Mapped(a) <==> Mapped(base));
  }

  /** The hosts are pairwise different exactly when the block is not the whole IPv4 space, or the cap does not
      exceed it. */
  lemma DistinctExactly(base: Addr, p: nat, cap: int, out: seq<Addr>)
    requires p <= 8 * |base| && Masked(base, p) == base
    requires |out| == Expanded(base, p, cap) && Enumerates(out, base, p)
    ensures (forall i, j :: 0 <= i < j < |out| ==> out[i] != out[j]) <==> !Endless(base, p) || Max(cap, 1) <= Space(|base|)
  {
    WholeSpaceSize(|base|, p);
    if |out| > BlockSize(|base|, p) {
      ExtraRepeats(base, p, out);
    } else {
      Differ(base, p, out);
    }
  }

  lemma WholeSpaceSize(n: nat, p: nat)
    requires p <= 8 * n
    ensures p == 0 ==> BlockSize(n, p) == Space(n)
  {
    SpaceIsPow2(n);
  }

  /** One more address than there are: the extra one is among the first. */
  lemma ExtraRepeats(base: Addr, p: nat, out: seq<Addr>)
    requires p <= 8 * |base| && Masked(base, p) == base
    requires Enumerates(out, base, p) && |out| > BlockSize(|base|, p)
    ensures exists i, j :: 0 <= i < j < |out| && out[i] == out[j]
  {
    var n := BlockSize(|base|, p);
    ContainsIsRange(base, p, out[n]);
    var k := Value(out[n]) - Value(base);
    ValueInjective(out[k], out[n]);
  }

  lemma Differ(base: Addr, p: nat, out: seq<Addr>)
    requires p <= 8 * |base| && Enumerates(out, base, p) && |out| <= BlockSize(|base|, p)
    ensures forall i, j :: 0 <= i < j < |out| ==> out[i] != out[j]
  {
    forall i, j | 0 <= i < j < |out| ensures out[i] != out[j] {
      assert Value(out[i]) == Value(base) + i && Value(out[j]) == Value(base) + j;
    }
  }
}
