/** The scope guard and the planner's private-target test, and why the cap on expansion matters to both. */
module Guard {
  import opened NetAddr
  import opened Options
  import opened Targets

  const CIDR_HOST_CAP: nat := 4096

  /** `IsPrivate`, `IsLoopback` or `IsLinkLocalUnicast` of an IPv4 address. */
  predicate Internal(a: Addr)
    requires |a| == 4
  {
    || a[0] == 10
    || (a[0] == 172 && 16 <= a[1] < 32)
    || (a[0] == 192 && a[1] == 168)
    || a[0] == 127
    || (a[0] == 169 && a[1] == 254)
  }

  /** What the planner looks at: the address as written, before its host bits are cleared. */
  predicate IsPrivateTarget(written: Addr) {
    if |written| == 4 then Internal(written)
    else if |written| == 16 then
      if Mapped(written) then Internal(written[12..])
      else
        || Contains(LOOPBACK6, 128, written) || Contains(UNIQUE_LOCAL6, 7, written)
        || Contains(LINK_LOCAL6, 10, written)
    else false
  }

  const LOOPBACK6: Addr := [0, 0, 0, 0, 0, 0, 0, 0, 0, 0, 0, 0, 0, 0, 0, 1]
  const UNIQUE_LOCAL6: Addr := [0xFC, 0, 0, 0, 0, 0, 0, 0, 0, 0, 0, 0, 0, 0, 0, 0]
  const LINK_LOCAL6: Addr := [0xFE, 0x80, 0, 0, 0, 0, 0, 0, 0, 0, 0, 0, 0, 0, 0, 0]

  /** The internal ranges as (first address, size in bits). */
  datatype Range = Range(first: nat, bits: nat)

  const INTERNAL: seq<Range> := [
    Range(0x0A00_0000, 24), Range(0xAC10_0000, 20), Range(0xC0A8_0000, 16), Range(0x7F00_0000, 24),
    Range(0xA9FE_0000, 16)
  ]

  predicate InRange(v: nat, r: Range) { r.first <= v < r.first + Pow2(r.bits) }

  lemma FourByteValue(a: Addr)
    requires |a| == 4
    ensures Value(a) == 0x100_0000 * (a[0] as int) + 0x1_0000 * (a[1] as int) + 0x100 * (a[2] as int) + a[3]
  {
    assert a[..3][..2] == a[..2] && a[..2][..1] == a[..1];
    assert Value(a) == Value(a[..3]) * 256 + a[3];
    assert Value(a[..3]) == Value(a[..2]) * 256 + a[2];
    assert Value(a[..2]) == Value(a[..1]) * 256 + a[1];
    assert Value(a[..1]) == a[0];
  }

  lemma RangeSizes()
    ensures Pow2(16) == 0x1_0000 && Pow2(20) == 0x10_0000 && Pow2(24) == 0x100_0000
  {
    Pow2Byte(0);
    Pow2Byte(8);
    Pow2Byte(16);
    assert Pow2(20) == 2 * Pow2(19) == 4 * Pow2(18) == 8 * Pow2(17) == 16 * Pow2(16);
  }

  lemma InternalIsRanges(a: Addr)
    requires |a| == 4
    ensures Internal(a) <==> exists i :: 0 <= i < |INTERNAL| && InRange(Value(a), INTERNAL[i])
  {
    FourByteValue(a);
    RangeSizes();
    var v := Value(a);
    assert a[0] == 10 <==> InRange(v, INTERNAL[0]);
    assert a[0] == 172 && 16 <= a[1] < 32 <==> InRange(v, INTERNAL[1]);
    assert a[0] == 192 && a[1] == 168 <==> InRange(v, INTERNAL[2]);
    assert a[0] == 127 <==> InRange(v, INTERNAL[3]);
    assert a[0] == 169 && a[1] == 254 <==> InRange(v, INTERNAL[4]);
  }

  /** A block that meets an internal range within as many addresses of its base as the smallest such range
      holds has its base inside that range: aligned power-of-two blocks are nested or disjoint. */
  lemma BaseInRange(b: nat, k: nat, v: nat, cap: nat, r: Range)
    requires Aligned(b, k) && Aligned(r.first, r.bits) && cap <= Pow2(r.bits)
    requires b <= v < b + cap && v < b + Pow2(k) && InRange(v, r)
    ensures InRange(b, r)
  {
    if k <= r.bits {
      AlignedNested(b, k, r.first, r.bits, v);
    } else {
      AlignedToLess(b, r.bits, k);
      AlignedNested(b, r.bits, r.first, r.bits, v);
    }
  }

  lemma {:induction false} AlignedMultiple(v: nat, w: nat, k: nat)
    requires v == w * Pow2(k)
    ensures Aligned(v, k)
    decreases k
  {
    if k > 0 {
      assert w * Pow2(k) == 2 * (w * Pow2(k - 1));
      AlignedMultiple(v / 2, w, k - 1);
    }
  }

  lemma RangesAligned(i: nat)
    requires i < |INTERNAL|
    ensures Aligned(INTERNAL[i].first, INTERNAL[i].bits) && CIDR_HOST_CAP <= Pow2(INTERNAL[i].bits)
  {
    RangeSizes();
    AlignedMultiple(0x0A00_0000, 0x0A, 24);
    AlignedMultiple(0xAC10_0000, 0xAC1, 20);
    AlignedMultiple(0xC0A8_0000, 0xC0A8, 16);
    AlignedMultiple(0x7F00_0000, 0x7F, 24);
    AlignedMultiple(0xA9FE_0000, 0xA9FE, 16);
  }

  predicate AnyInternal(hosts: seq<Addr>) {
    exists i :: 0 <= i < |hosts| && |hosts[i]| == 4 && Internal(hosts[i])
  }

  /** For every IPv4 CIDR, whether or not its host bits are clear: an internal address is among the hosts
      the planner expands it to exactly when the block's first address is internal. */
  lemma ExpandsInternalExactly(a: Addr, p: nat, out: seq<Addr>)
    requires |a| == 4 && p <= 32
    requires |out| == Expanded(Masked(a, p), p, CIDR_HOST_CAP) && Enumerates(out, Masked(a, p), p)
    ensures AnyInternal(out) <==> Internal(Masked(a, p))
  {
    FirstIsBase(a, p, out);
    if AnyInternal(out) {
      var i :| 0 <= i < |out| && |out[i]| == 4 && Internal(out[i]);
      SomeHostInternal(a, p, out, i);
    }
  }

  lemma SomeHostInternal(a: Addr, p: nat, out: seq<Addr>, i: nat)
    requires |a| == 4 && p <= 32 && i < |out| && |out[i]| == 4 && Internal(out[i])
    requires |out| == Expanded(Masked(a, p), p, CIDR_HOST_CAP) && Enumerates(out, Masked(a, p), p)
    ensures Internal(Masked(a, p))
  {
    CapWithinSpace(Masked(a, p), p);
    HostValue(Masked(a, p), p, out, i);
    BaseAligned(a, p, 32 - p);
    HostInternal(Masked(a, p), 32 - p, out[i]);
  }

  lemma HostValue(base: Addr, p: nat, out: seq<Addr>, i: nat)
    requires p <= 8 * |base| && i < |out| && i < BlockSize(|base|, p) && Enumerates(out, base, p)
    ensures Value(out[i]) == Value(base) + i
  {
  }

  lemma BaseAligned(a: Addr, p: nat, k: nat)
    requires p <= 8 * |a| && k == 8 * |a| - p
    ensures Aligned(Value(Masked(a, p)), k)
  {
    MaskedTwice(a, p);
  }

  lemma FirstIsBase(a: Addr, p: nat, out: seq<Addr>)
    requires |a| == 4 && p <= 32 && |out| >= 1 && Enumerates(out, Masked(a, p), p)
    ensures out[0] == Masked(a, p)
  {
    ValueInjective(out[0], Masked(a, p));
  }

  lemma HostInternal(base: Addr, k: nat, x: Addr)
    requires |base| == 4 && |x| == 4 && Aligned(Value(base), k)
    requires Value(base) <= Value(x) < Value(base) + Pow2(k) && Value(x) < Value(base) + CIDR_HOST_CAP
    requires Internal(x)
    ensures Internal(base)
  {
    InternalIsRanges(x);
    InternalIsRanges(base);
    var j :| 0 <= j < |INTERNAL| && InRange(Value(x), INTERNAL[j]);
    RangesAligned(j);
    BaseInRange(Value(base), k, Value(x), CIDR_HOST_CAP, INTERNAL[j]);
  }

  lemma CapWithinSpace(base: Addr, p: nat)
    requires |base| == 4 && p <= 32
    ensures Expanded(base, p, CIDR_HOST_CAP) <= BlockSize(4, p) && Expanded(base, p, CIDR_HOST_CAP) <= CIDR_HOST_CAP
  {
    if p == 0 {
      RangeSizes();
      Pow2Grows(16, 32);
    }
  }

  /** Written with its host bits clear, a CIDR the planner does not skip expands to no internal host. */
  lemma CleanCIDRExpandsSafely(a: Addr, p: nat, out: seq<Addr>)
    requires |a| == 4 && p <= 32 && Masked(a, p) == a && !IsPrivateTarget(a)
    requires |out| == Expanded(Masked(a, p), p, CIDR_HOST_CAP) && Enumerates(out, Masked(a, p), p)
    ensures !AnyInternal(out)
  {
    ExpandsInternalExactly(a, p, out);
  }

  lemma HostsInternalExactly(a: Addr, p: nat, cap: nat)
    requires |a| == 4 && p <= 32 && cap == CIDR_HOST_CAP
    ensures AnyInternal(Hosts(a, p, cap)) <==> Internal(Masked(a, p))
  {
    HostsEnumerate(a, p, cap);
    ExpandsInternalExactly(a, p, Hosts(a, p, cap));
  }

  /** Written with host bits set it may be let through: 11.0.0.0/7 starts at 10.0.0.0. */
  lemma HostBitsHideAnInternalBlock(out: seq<Addr>)
    requires |out| == Expanded(Masked([11, 0, 0, 0], 7), 7, CIDR_HOST_CAP) && Enumerates(out, Masked([11, 0, 0, 0], 7), 7)
    ensures !IsPrivateTarget([11, 0, 0, 0]) && AnyInternal(out)
  {
    var a: Addr := [11, 0, 0, 0];
    MaskedAt(a, 7, 0);
    OneBit(5, 1, 0);
    assert Masked(a, 7)[0] == 10;
    ExpandsInternalExactly(a, 7, out);
  }

  // ---- the guard ----

  datatype Prefix = Prefix(addr: Addr, bits: nat)

  predicate PrefixContains(p: Prefix, a: Addr) {
    |p.addr| == |a| && Contains(p.addr, p.bits, a)
  }

  const PRIVATE_BLOCKS: seq<Prefix> := [
    Prefix([10, 0, 0, 0], 8), Prefix([172, 16, 0, 0], 12), Prefix([192, 168, 0, 0], 16), Prefix([127, 0, 0, 0], 8),
    Prefix([169, 254, 0, 0], 16),
    Prefix(LOOPBACK6, 128), Prefix(UNIQUE_LOCAL6, 7), Prefix(LINK_LOCAL6, 10),
    Prefix([0, 0, 0, 0], 8)
  ]

  datatype Decision = Allowed | Invalid | PrivateRange | ExcludedByScope | SharedHost

  predicate Covered(ps: seq<Prefix>, a: Addr) {
    exists i :: 0 <= i < |ps| && PrefixContains(ps[i], a)
  }

  /** `CheckIP` of an address as it parsed, None where it did not. */
  function CheckIP(allowPrivate: bool, exclusions: seq<Prefix>, addr: Option<Addr>, shared: bool): Decision {
    if addr.None? then Invalid
    else if !allowPrivate && Covered(PRIVATE_BLOCKS, addr.value) then PrivateRange
    else if Covered(exclusions, addr.value) then ExcludedByScope
    else if shared then SharedHost
    else Allowed
  }

  /** Private ranges, unless they are open, come before exclusions, and exclusions before shared hosting. */
  lemma DecisionsAre(allowPrivate: bool, exclusions: seq<Prefix>, addr: Option<Addr>, shared: bool)
    ensures
      var d := CheckIP(allowPrivate, exclusions, addr, shared);
      && (d == Invalid <==> addr == None)
      && (d == PrivateRange <==> addr.Some? && !allowPrivate && Covered(PRIVATE_BLOCKS, addr.value))
      && (d == ExcludedByScope <==> addr.Some? && d != PrivateRange && Covered(exclusions, addr.value))
      && (d == SharedHost <==> addr.Some? && d != PrivateRange && !Covered(exclusions, addr.value) && shared)
      && (d == Allowed <==> addr.Some? && d != PrivateRange && !Covered(exclusions, addr.value) && !shared)
  {
  }

  /** How target values parse: as a prefix, or as an address, which stands for the prefix of all its bits. */
  function Exclusions(targets: seq<ScopeTarget>, parsed: map<string, Prefix>): seq<Prefix> {
    if targets == [] then []
    else
      var t := targets[|targets| - 1];
      Exclusions(targets[..|targets| - 1], parsed)
      + if t.Excluded() && t.value in parsed then [parsed[t.value]] else []
  }

  method New(targets: seq<ScopeTarget>, parsed: map<string, Prefix>) returns (exclusions: seq<Prefix>)
    ensures exclusions == Exclusions(targets, parsed)
  {
    exclusions := [];
    for i := 0 to |targets|
      invariant exclusions == Exclusions(targets[..i], parsed)
    {
      assert targets[..i + 1][..i] == targets[..i];
      var t := targets[i];
      if !t.mode.Exclude? { continue; }
      if t.value in parsed { exclusions := exclusions + [parsed[t.value]]; }
    }
    assert targets[..|targets|] == targets;
  }

  lemma {:induction false} ExclusionsAre(targets: seq<ScopeTarget>, parsed: map<string, Prefix>, a: Addr)
    ensures Covered(Exclusions(targets, parsed), a) <==>
            exists t :: t in targets && t.Excluded() && t.value in parsed && PrefixContains(parsed[t.value], a)
  {
    if targets != [] {
      var n := |targets| - 1;
      var t, before := targets[n], Exclusions(targets[..n], parsed);
      var all := Exclusions(targets, parsed);
      ExclusionsAre(targets[..n], parsed, a);
      assert targets == targets[..n] + [t];
      if Covered(before, a) {
        var i :| 0 <= i < |before| && PrefixContains(before[i], a);
        assert all[i] == before[i];
      }
      if t.Excluded() && t.value in parsed {
        assert all[|before|] == parsed[t.value];
        assert forall i :: 0 <= i < |before| ==> before[i] == all[i];
      }
    }
  }

  /** An address is excluded exactly when some group of the company excludes a target it lies in,
      whatever other groups say of that target and in whatever order they say it. */
  lemma ExcludedAnywhere(rows: seq<ScopeTarget>, parsed: map<string, Prefix>, a: Addr)
    ensures Covered(Exclusions(Merged(rows), parsed), a) <==>
            exists t :: t in rows && t.Excluded() && t.value in parsed && PrefixContains(parsed[t.value], a)
  {
    ExclusionsAre(Merged(rows), parsed, a);
    forall t | t in Merged(rows) ensures t in rows { MergedDecides(rows, t); }
    forall t | t in rows && t.Excluded() ensures exists m :: m in Merged(rows) && m.Excluded() && m.value == t.value {
      MergedCovers(rows, t);
      var m :| m in Merged(rows) && m.Key() == t.Key();
      MergedDecides(rows, m);
      KeyNamesOne(m, t);
      var i :| 0 <= i < |rows| && rows[i] == t;
      assert AnyExcluded(rows, t.Key());
    }
  }

  lemma WholeByte(b: Byte)
    ensures MaskByte(b, 8) == b && MaskByte(b, 0) == 0
  {
    MaskAll(b);
  }

  lemma HighNibble(b: Byte)
    ensures MaskByte(b, 4) == MaskByte(16, 4) <==> 16 <= b < 32
  {
    FourBits(1, 0, 0);
    RoundDown(b, 16, 4);
  }

  lemma InBlockOf(p: Prefix, a: Addr, whole: nat)
    requires |p.addr| == 4 && |a| == 4 && (whole == 1 || whole == 2) && p.bits == 8 * whole
    ensures PrefixContains(p, a) <==> a[0] == p.addr[0] && (whole == 2 ==> a[1] == p.addr[1])
  {
    forall i | 0 <= i < 4
      ensures MaskByte(a[i], BitsIn(p.bits, i)) == (if i < whole then a[i] else 0)
      ensures MaskByte(p.addr[i], BitsIn(p.bits, i)) == (if i < whole then p.addr[i] else 0)
    {
      WholeByte(a[i]);
      WholeByte(p.addr[i]);
    }
  }

  lemma FourBytes(p: Prefix, a: Addr, k1: nat)
    requires |p.addr| == 4 && |a| == 4 && 8 <= p.bits <= 16 && k1 == p.bits - 8
    ensures PrefixContains(p, a) <==>
            a[0] == p.addr[0] && MaskByte(a[1], k1) == MaskByte(p.addr[1], k1)
  {
    forall i | 0 <= i < 4 && i != 1
      ensures MaskByte(a[i], BitsIn(p.bits, i)) == (if i == 0 then a[i] else 0)
      ensures MaskByte(p.addr[i], BitsIn(p.bits, i)) == (if i == 0 then p.addr[i] else 0)
    {
      WholeByte(a[i]);
      WholeByte(p.addr[i]);
    }
    assert BitsIn(p.bits, 1) == k1;
  }

  lemma InCarrierBlock(p: Prefix, a: Addr)
    requires |p.addr| == 4 && p.addr[0] == 172 && p.addr[1] == 16 && p.bits == 12 && |a| == 4
    ensures PrefixContains(p, a) <==> a[0] == 172 && 16 <= a[1] < 32
  {
    FourBytes(p, a, 4);
    HighNibble(a[1]);
  }

  lemma NineBlocks(bs: seq<Prefix>, a: Addr)
    requires |bs| == 9 && |a| == 4 && forall i :: 5 <= i < 8 ==> |bs[i].addr| == 16
    ensures Covered(bs, a) <==>
            || PrefixContains(bs[0], a) || PrefixContains(bs[1], a) || PrefixContains(bs[2], a)
            || PrefixContains(bs[3], a) || PrefixContains(bs[4], a) || PrefixContains(bs[8], a)
  {
  }

  lemma IPv4Blocks(bs: seq<Prefix>, a: Addr)
    requires |bs| == 9 && |a| == 4 && forall i :: 5 <= i < 8 ==> |bs[i].addr| == 16
    requires forall i :: 0 <= i < 9 && (i < 5 || i == 8) ==> |bs[i].addr| == 4
    requires bs[0].addr[0] == 10 && bs[3].addr[0] == 127 && bs[8].addr[0] == 0
    requires bs[0].bits == bs[3].bits == bs[8].bits == 8 && bs[2].bits == bs[4].bits == 16
    requires bs[2].addr[0] == 192 && bs[2].addr[1] == 168 && bs[4].addr[0] == 169 && bs[4].addr[1] == 254
    requires bs[1].addr[0] == 172 && bs[1].addr[1] == 16 && bs[1].bits == 12
    ensures Covered(bs, a) <==> Internal(a) || a[0] == 0
  {
    NineBlocks(bs, a);
    InBlockOf(bs[0], a, 1);
    InCarrierBlock(bs[1], a);
    InBlockOf(bs[2], a, 2);
    InBlockOf(bs[3], a, 1);
    InBlockOf(bs[4], a, 2);
    InBlockOf(bs[8], a, 1);
  }

  lemma OtherBlocks(bs: seq<Prefix>, a: Addr)
    requires |bs| == 9 && |a| == 16
    requires forall i :: 0 <= i < 9 ==> |bs[i].addr| == if 5 <= i < 8 then 16 else 4
    ensures Covered(bs, a) <==> PrefixContains(bs[5], a) || PrefixContains(bs[6], a) || PrefixContains(bs[7], a)
  {
  }

  /** Masks of all but at most the last bit tell bytes apart that are not neighbours. */
  lemma MasksApart(b: int, c: int, k: nat)
    requires 0 <= b && b + 2 <= c < 256 && 7 <= k <= 8
    ensures MaskByte(b, k) != MaskByte(c, k)
  {
    assert LowBits(c / 2, 0) == 0;
    assert LowBits(c, 8 - k) <= 1;
  }

  lemma OutsideAt(base: Addr, p: nat, a: Addr, i: nat)
    requires i < |a| == |base| && BitsIn(p, i) >= 7
    requires (a[i] as int) + 2 <= base[i] || (base[i] as int) + 2 <= a[i]
    ensures !Contains(base, p, a)
  {
    var k := BitsIn(p, i);
    if a[i] < base[i] { MasksApart(a[i], base[i], k); } else { MasksApart(base[i], a[i], k); }
  }

  /** A mapped address starts with a zero byte and has 255 where ::1 has zero. */
  lemma MappedOutside(a: Addr)
    requires Mapped(a)
    ensures !Contains(LOOPBACK6, 128, a) && !Contains(UNIQUE_LOCAL6, 7, a) && !Contains(LINK_LOCAL6, 10, a)
  {
    assert a[0] == a[..12][0] == 0 && a[10] == a[..12][10] == 255;
    OutsideAt(LOOPBACK6, 128, a, 10);
    OutsideAt(UNIQUE_LOCAL6, 7, a, 0);
    OutsideAt(LINK_LOCAL6, 10, a, 0);
  }

  /** The guard refuses what the planner's own test calls internal, but for IPv4 addresses written as IPv6
      ones, which it lets through; and besides it refuses the block 0.0.0.0/8. */
  lemma GuardAndPlannerAgree(a: Addr)
    ensures Covered(PRIVATE_BLOCKS, a) <==> (IsPrivateTarget(a) && !Mapped(a)) || (|a| == 4 && a[0] == 0)
    ensures |a| == 4 ==> (Covered(PRIVATE_BLOCKS, a) <==> Internal(a) || a[0] == 0)
  {
    if |a| == 4 {
      IPv4Blocks(PRIVATE_BLOCKS, a);
    } else if |a| == 16 {
      OtherBlocks(PRIVATE_BLOCKS, a);
      if Mapped(a) { MappedOutside(a); }
    }
  }

  /** So the two tests tell an address apart exactly when it is a mapped internal one or begins with zero. */
  lemma GuardAndPlannerDifferExactly(a: Addr)
    ensures Covered(PRIVATE_BLOCKS, a) != IsPrivateTarget(a) <==>
            (Mapped(a) && Internal(a[12..])) || (|a| == 4 && a[0] == 0)
  {
    GuardAndPlannerAgree(a);
  }

  /** ::ffff:10.0.0.1 is allowed, and 10.0.0.1 is not. */
  lemma MappedInternalIsAllowed(mapped: Addr)
    requires mapped == MAPPED_PREFIX + [10, 0, 0, 1]
    ensures CheckIP(false, [], Some(mapped), false) == Allowed && IsPrivateTarget(mapped)
    ensures CheckIP(false, [], Some(mapped[12..]), false) == PrivateRange
  {
    assert mapped[..12] == MAPPED_PREFIX && mapped[12..] == [10, 0, 0, 1];
    GuardAndPlannerAgree(mapped);
    GuardAndPlannerAgree(mapped[12..]);
  }
}
