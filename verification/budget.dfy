/** How long a port sweep or service detection may take. Durations are in nanoseconds. */
module Budget {

  const SECOND: int := 1_000_000_000
  const MILLISECOND: int := 1_000_000
  const MINUTE: int := 60 * SECOND
  const ALL_PORTS: int := 65535

  // ---- counting ports ----

  /** One element of a port list, as it parses. */
  datatype Part = Blank | Port(port: int) | Range(lo: int, hi: int) | Unparsable

  datatype Selection = Full | Top100 | Top1000 | Listed(parts: seq<Part>)

  predicate Readable(p: Part) { !p.Unparsable? && (p.Range? ==> p.lo <= p.hi) }

  predicate AllReadable(parts: seq<Part>) { forall i :: 0 <= i < |parts| ==> Readable(parts[i]) }

  function Size(p: Part): int {
    match p
    case Blank | Unparsable => 0
    case Port(_) => 1
    case Range(lo, hi) => hi - lo + 1
  }

  function Total(parts: seq<Part>): int {
    if parts == [] then 0 else Total(parts[..|parts| - 1]) + Size(parts[|parts| - 1])
  }

  function Count(sel: Selection, deep: bool): int {
    if deep then ALL_PORTS
    else
      match sel
      case Full => ALL_PORTS
      case Top100 => 100
      case Top1000 => 1000
      case Listed(parts) => if !AllReadable(parts) || Total(parts) == 0 then ALL_PORTS else Total(parts)
  }

  method PortCount(sel: Selection, deep: bool) returns (n: int)
    ensures n == Count(sel, deep)
  {
    if deep || sel.Full? { return ALL_PORTS; }
    if sel.Top100? { return 100; }
    if sel.Top1000? { return 1000; }
    n := 0;
    var parts := sel.parts;
    for i := 0 to |parts|
      invariant AllReadable(parts[..i]) && n == Total(parts[..i])
    {
      assert parts[..i + 1][..i] == parts[..i];
      match parts[i] {
        case Blank =>
        case Unparsable => return ALL_PORTS;
        case Port(_) => n := n + 1;
        case Range(lo, hi) =>
          if hi < lo { return ALL_PORTS; }
          n := n + hi - lo + 1;
      }
    }
    assert parts[..|parts|] == parts;
    if n == 0 { return ALL_PORTS; }
  }

  function PortsOf(p: Part): set<int> {
    match p
    case Blank | Unparsable => {}
    case Port(port) => {port}
    case Range(lo, hi) => Span(lo, hi)
  }

  function Span(lo: int, hi: int): (r: set<int>)
    ensures forall x :: x in r <==> lo <= x <= hi
    decreases hi - lo + 1
  {
    if hi < lo then {} else Span(lo, hi - 1) + {hi}
  }

  function Ports(parts: seq<Part>): set<int> {
    if parts == [] then {} else Ports(parts[..|parts| - 1]) + PortsOf(parts[|parts| - 1])
  }

  lemma {:induction false} SpanSize(lo: int, hi: int)
    requires lo <= hi + 1
    ensures |Span(lo, hi)| == hi - lo + 1
    decreases hi - lo + 1
  {
    if lo <= hi { SpanSize(lo, hi - 1); }
  }

  lemma PartSize(p: Part)
    requires Readable(p)
    ensures |PortsOf(p)| == Size(p)
  {
    if p.Range? { SpanSize(p.lo, p.hi); }
  }

  predicate Apart(parts: seq<Part>) {
    forall i, j :: 0 <= i < j < |parts| ==> PortsOf(parts[i]) !! PortsOf(parts[j])
  }

  lemma {:induction false} InSomePart(parts: seq<Part>, x: int)
    ensures x in Ports(parts) <==> exists i :: 0 <= i < |parts| && x in PortsOf(parts[i])
    decreases |parts|
  {
    if parts != [] {
      var n := |parts| - 1;
      InSomePart(parts[..n], x);
      assert forall i :: 0 <= i < n ==> parts[..n][i] == parts[i];
      if x in Ports(parts[..n]) {
        var i :| 0 <= i < n && x in PortsOf(parts[..n][i]);
        assert x in PortsOf(parts[i]);
      }
    }
  }

  lemma UnionSize(a: set<int>, b: set<int>)
    ensures |a + b| <= |a| + |b|
    ensures |a + b| == |a| + |b| <==> a !! b
  {
    assert a + b == a + (b - a);
    assert b == (b - a) + (b * a);
    if a * b == {} { assert b * a == {}; } else { assert b * a == a * b; }
  }

  /** The count never falls short of the ports listed, so a budget is never too small for them; it is exact
      exactly when nothing is listed twice. */
  lemma {:induction false} CountCovers(parts: seq<Part>)
    requires AllReadable(parts)
    ensures |Ports(parts)| <= Total(parts)
    ensures |Ports(parts)| == Total(parts) <==> Apart(parts)
    decreases |parts|
  {
    if parts != [] {
      var n := |parts| - 1;
      var before, last := parts[..n], parts[n];
      assert forall i :: 0 <= i < n ==> before[i] == parts[i];
      CountCovers(before);
      PartSize(last);
      UnionSize(Ports(before), PortsOf(last));
      if Apart(parts) {
        forall x | x in Ports(before) ensures x !in PortsOf(last) { InSomePart(before, x); }
      } else if Apart(before) {
        var i, j :| 0 <= i < j < |parts| && !(PortsOf(parts[i]) !! PortsOf(parts[j]));
        assert j == n;
        var x :| x in PortsOf(parts[i]) && x in PortsOf(last);
        assert x in PortsOf(before[i]);
        InSomePart(before, x);
      }
    }
  }

  /** Something is not a port, or a range runs backwards. */
  predicate AnyGarbled(parts: seq<Part>) {
    exists i :: 0 <= i < |parts| && (parts[i].Unparsable? || (parts[i].Range? && parts[i].hi < parts[i].lo))
  }

  /** How many ports a selection is taken to cover: a preset what its name says; a list at least its ports, and
      exactly those if none is listed twice; everything where that cannot be told. */
  lemma CountIs(sel: Selection, deep: bool)
    ensures deep || sel.Full? ==> Count(sel, deep) == 65535
    ensures !deep && sel.Top100? ==> Count(sel, deep) == 100
    ensures !deep && sel.Top1000? ==> Count(sel, deep) == 1000
    ensures !deep && sel.Listed? && AnyGarbled(sel.parts) ==> Count(sel, deep) == 65535
    ensures !deep && sel.Listed? && (forall i :: 0 <= i < |sel.parts| ==> sel.parts[i].Blank?) ==> Count(sel, deep) == 65535
    ensures !deep && sel.Listed? && !AnyGarbled(sel.parts) && Ports(sel.parts) != {} ==>
              Count(sel, deep) >= |Ports(sel.parts)| && (Apart(sel.parts) ==> Count(sel, deep) == |Ports(sel.parts)|)
  {
    if sel.Listed? {
      assert AllReadable(sel.parts) <==> !AnyGarbled(sel.parts);
      if AllReadable(sel.parts) { CountCovers(sel.parts); }
      if forall i :: 0 <= i < |sel.parts| ==> sel.parts[i].Blank? { NothingListed(sel.parts); }
    }
  }

  lemma {:induction false} NothingListed(parts: seq<Part>)
    requires forall i :: 0 <= i < |parts| ==> parts[i].Blank?
    ensures Total(parts) == 0
    decreases |parts|
  {
    if parts != [] { NothingListed(parts[..|parts| - 1]); }
  }

  // ---- the sweep's budget ----

  /** Integer division as the code does it, towards zero. */
  function Quotient(a: int, b: int): int
    requires b > 0
  {
    if a >= 0 then a / b else -((-a) / b)
  }

  function AtLeast(x: int, least: int): (r: int)
    ensures r >= least && r >= x && (r == x || r == least)
  {
    if x < least then least else x
  }

  function BySend(probes: int, rate: int): int
    requires rate > 0
  {
    (Quotient(probes, rate) + 1) * SECOND
  }

  function ByWait(waits: int, concurrency: int): int
    requires concurrency > 0
  {
    Quotient(waits, concurrency) * MILLISECOND
  }

  /** The longer of the two, four times over, and at least a quarter of an hour. */
  function Needed(probes: int, waits: int, rate: int, concurrency: int): int
    requires rate > 0 && concurrency > 0
  {
    AtLeast(4 * AtLeast(ByWait(waits, concurrency), BySend(probes, rate)), 15 * MINUTE)
  }

  function Capped(budget: int, max: int): int { if 0 < max < budget then max else budget }

  /** A positive maximum is never exceeded, and changes nothing that is within it. */
  lemma CappedExactly(budget: int, max: int)
    ensures max > 0 ==> Capped(budget, max) <= max
    ensures max <= 0 || budget <= max ==> Capped(budget, max) == budget
    ensures max > 0 && budget > max ==> Capped(budget, max) == max
  {
  }

  /** A sweep: what to probe, and how. */
  datatype Sweep = Sweep(ports: int, hosts: int, rate: int, timeoutMS: int, retries: int, concurrency: int)
  {
    /** With the values the code falls back on. */
    function Clamped(): Sweep {
      Sweep(ports, AtLeast(hosts, 1), AtLeast(rate, 1), timeoutMS, AtLeast(retries, 0), AtLeast(concurrency, 1))
    }

    function Probes(): int { ports * hosts }

    /** Milliseconds of waiting over all probes if none is answered. */
    function Waits(): int { Probes() * timeoutMS * (retries + 1) }

    predicate Usable() {
      ports >= 0 && hosts >= 1 && rate >= 1 && timeoutMS >= 0 && retries >= 0 && concurrency >= 1
    }
  }

  function SweepNeeds(sw: Sweep): int
    requires sw.rate > 0 && sw.concurrency > 0
  {
    Needed(sw.Probes(), sw.Waits(), sw.rate, sw.concurrency)
  }

  method PortScanBudget(sw: Sweep, max: int) returns (budget: int)
    ensures budget == Capped(SweepNeeds(sw.Clamped()), max)
  {
    var hosts, rate, concurrency, retries := sw.hosts, sw.rate, sw.concurrency, sw.retries;
    if hosts < 1 { hosts := 1; }
    if rate < 1 { rate := 1; }
    if concurrency < 1 { concurrency := 1; }
    if retries < 0 { retries := 0; }
    var probes := sw.ports * hosts;
    var bySend := (Quotient(probes, rate) + 1) * SECOND;
    var byWait := Quotient(probes * sw.timeoutMS * (retries + 1), concurrency) * MILLISECOND;
    budget := bySend;
    if byWait > budget { budget := byWait; }
    budget := budget * 4;
    if budget < 15 * MINUTE { budget := 15 * MINUTE; }
    if max > 0 && budget > max { budget := max; }
  }

  lemma Times(x: int, y: int, z: int)
    requires x <= y && z >= 0
    ensures x * z <= y * z
  {
  }

  lemma NotNegative(x: int, y: int)
    requires x >= 0 && y >= 0
    ensures x * y >= 0
  {
  }

  /** A quotient and its neighbours. */
  lemma QuotientBounds(a: int, b: int)
    requires a >= 0 && b > 0
    ensures Quotient(a, b) >= 0 && Quotient(a, b) * b <= a < (Quotient(a, b) + 1) * b
  {
  }

  lemma QuotientMonotone(a: int, b: int, c: int, d: int)
    requires 0 <= a <= b && c >= d > 0
    ensures Quotient(a, c) <= Quotient(b, d)
  {
    var q, r := Quotient(a, c), Quotient(b, d);
    QuotientBounds(a, c);
    QuotientBounds(b, d);
    if q > r {
      Times(d, c, q);
      Times(r + 1, q, d);
    }
  }

  /** An uncapped budget is at least four times what sending all probes at the rate really takes, and at
      least what waiting for them all with so many in flight really takes, although both were rounded down. */
  lemma BudgetCovers(probes: int, waits: int, rate: int, concurrency: int)
    requires probes >= 0 && waits >= 0 && rate > 0 && concurrency > 0
    ensures Needed(probes, waits, rate, concurrency) * rate >= 4 * probes * SECOND
    ensures Needed(probes, waits, rate, concurrency) * concurrency >= waits * MILLISECOND
  {
    var need := Needed(probes, waits, rate, concurrency);
    var q := Quotient(probes, rate);
    QuotientBounds(probes, rate);
    Times(4 * (q + 1) * SECOND, need, rate);
    assert (4 * (q + 1) * SECOND) * rate == 4 * ((q + 1) * rate) * SECOND;
    var w := Quotient(waits, concurrency);
    QuotientBounds(waits, concurrency);
    WaitCovered(need, w, concurrency);
  }

  /** Nor is it longer than it has to be: it is a quarter of an hour, or four times what sending takes, give or
      take a second, or at most four times what waiting takes. */
  lemma BudgetIsTight(probes: int, waits: int, rate: int, concurrency: int)
    requires probes >= 0 && waits >= 0 && rate > 0 && concurrency > 0
    ensures
      var need := Needed(probes, waits, rate, concurrency);
      && need >= 15 * 60 * 1_000_000_000
      && (|| need == 15 * 60 * 1_000_000_000
          || need * rate <= 4 * (probes + rate) * 1_000_000_000
          || need * concurrency <= 4 * waits * 1_000_000)
      && need * concurrency >= 4 * (waits - concurrency) * 1_000_000
  {
    var need := Needed(probes, waits, rate, concurrency);
    var q, w := Quotient(probes, rate), Quotient(waits, concurrency);
    QuotientBounds(probes, rate);
    QuotientBounds(waits, concurrency);
    assert (q + 1) * rate <= probes + rate;
    assert (4 * (q + 1) * SECOND) * rate == 4 * ((q + 1) * rate) * SECOND;
    assert (4 * w * MILLISECOND) * concurrency == 4 * (w * concurrency) * MILLISECOND;
    Times(4 * w * MILLISECOND, need, concurrency);
    assert w * concurrency >= waits - concurrency;
  }

  /** Values out of range are replaced by the least that makes sense, and no others. */
  lemma ClampedAre(sw: Sweep)
    ensures
      var c := sw.Clamped();
      && c.ports == sw.ports && c.timeoutMS == sw.timeoutMS
      && c.hosts == (if sw.hosts < 1 then 1 else sw.hosts) && c.rate == (if sw.rate < 1 then 1 else sw.rate)
      && c.retries == (if sw.retries < 0 then 0 else sw.retries)
      && c.concurrency == (if sw.concurrency < 1 then 1 else sw.concurrency)
  {
  }

  lemma WaitCovered(need: int, w: int, concurrency: int)
    requires need >= 4 * w * MILLISECOND && need >= 15 * MINUTE && w >= 0 && concurrency > 0
    ensures need * concurrency >= (w + 1) * concurrency * MILLISECOND
  {
    assert need >= (w + 1) * MILLISECOND;
    Times((w + 1) * MILLISECOND, need, concurrency);
    assert ((w + 1) * MILLISECOND) * concurrency == (w + 1) * concurrency * MILLISECOND;
  }

  lemma NeededMonotone(p: int, w: int, rate: int, conc: int, p': int, w': int, rate': int, conc': int)
    requires 0 <= p <= p' && 0 <= w <= w' && rate >= rate' > 0 && conc >= conc' > 0
    ensures Needed(p, w, rate, conc) <= Needed(p', w', rate', conc')
  {
    QuotientMonotone(p, p', rate, rate');
    QuotientMonotone(w, w', conc, conc');
  }

  lemma ProductMonotone(a: int, b: int, a': int, b': int)
    requires 0 <= a <= a' && 0 <= b <= b'
    ensures 0 <= a * b <= a' * b'
  {
    Times(a, a', b);
    Times(b, b', a');
    NotNegative(a, b);
  }

  lemma WaitsMonotone(a: Sweep, b: Sweep)
    requires a.Usable() && b.Usable()
    requires a.ports <= b.ports && a.hosts <= b.hosts && a.timeoutMS <= b.timeoutMS && a.retries <= b.retries
    ensures 0 <= a.Probes() <= b.Probes() && 0 <= a.Waits() <= b.Waits()
  {
    ProductMonotone(a.ports, a.hosts, b.ports, b.hosts);
    ProductMonotone(a.Probes(), a.timeoutMS, b.Probes(), b.timeoutMS);
    ProductMonotone(a.Probes() * a.timeoutMS, a.retries + 1, b.Probes() * b.timeoutMS, b.retries + 1);
  }

  /** More ports, hosts, timeout or retries, or less rate or concurrency, never makes for a smaller budget,
      capped or not. */
  lemma BudgetMonotone(a: Sweep, b: Sweep, max: int)
    requires a.Usable() && b.Usable()
    requires a.ports <= b.ports && a.hosts <= b.hosts && a.timeoutMS <= b.timeoutMS && a.retries <= b.retries
    requires a.rate >= b.rate && a.concurrency >= b.concurrency
    ensures Capped(SweepNeeds(a), max) <= Capped(SweepNeeds(b), max)
  {
    WaitsMonotone(a, b);
    NeededMonotone(a.Probes(), a.Waits(), a.rate, a.concurrency, b.Probes(), b.Waits(), b.rate, b.concurrency);
  }

  /** A sweep's own terms: what BudgetCovers says of it. */
  lemma SweepCovered(sw: Sweep)
    requires sw.Usable()
    ensures SweepNeeds(sw) * sw.rate >= 4 * (sw.ports * sw.hosts) * SECOND
    ensures SweepNeeds(sw) * sw.concurrency >= sw.ports * sw.hosts * sw.timeoutMS * (sw.retries + 1) * MILLISECOND
  {
    WaitsMonotone(sw, sw);
    BudgetCovers(sw.Probes(), sw.Waits(), sw.rate, sw.concurrency);
  }

  predicate FitsInt64(x: int) { -0x8000_0000_0000_0000 <= x < 0x8000_0000_0000_0000 }

  /** The ranges scan parameters are validated to, with a batch of hosts and at most 100000 ports. */
  predicate Validated(sw: Sweep) {
    && 0 <= sw.ports <= 100_000 && 1 <= sw.hosts <= 64 && 1 <= sw.rate <= 20_000
    && 100 <= sw.timeoutMS <= 10_000 && 1 <= sw.retries <= 5 && 1 <= sw.concurrency <= 1_000
  }

  lemma QuotientShrinks(a: int, b: int)
    requires a >= 0 && b > 0
    ensures 0 <= Quotient(a, b) <= a
  {
    QuotientBounds(a, b);
    Times(1, b, Quotient(a, b));
  }

  /** No step of the computation overflows a 64-bit integer for any validated sweep. */
  lemma NoOverflow(sw: Sweep)
    requires Validated(sw)
    ensures FitsInt64(sw.Probes()) && FitsInt64(sw.Probes() * sw.timeoutMS) && FitsInt64(sw.Waits())
    ensures FitsInt64(BySend(sw.Probes(), sw.rate)) && FitsInt64(4 * BySend(sw.Probes(), sw.rate))
    ensures FitsInt64(ByWait(sw.Waits(), sw.concurrency)) && FitsInt64(4 * ByWait(sw.Waits(), sw.concurrency))
  {
    ProductMonotone(sw.ports, sw.hosts, 100_000, 64);
    ProductMonotone(sw.Probes(), sw.timeoutMS, 6_400_000, 10_000);
    ProductMonotone(sw.Probes() * sw.timeoutMS, sw.retries + 1, 64_000_000_000, 6);
    QuotientShrinks(sw.Probes(), sw.rate);
    QuotientShrinks(sw.Waits(), sw.concurrency);
  }

  // ---- service detection's budget ----

  function Groups(hosts: int): int { (hosts + 63) / 64 }

  function DetectionNeeds(ports: int, hosts: int, deep: bool): int {
    AtLeast(ports * Groups(hosts) * (if deep then 8 else 2) * (5 * SECOND), (if deep then 60 else 20) * MINUTE)
  }

  method NmapBudget(ports: int, hosts: int, deep: bool, max: int) returns (budget: int)
    ensures budget == Capped(DetectionNeeds(ports, AtLeast(hosts, 1), deep), max)
  {
    var h := hosts;
    if h < 1 { h := 1; }
    var groups := (h + 63) / 64;
    var slack, floor := 2, 20 * MINUTE;
    if deep { slack, floor := 8, 60 * MINUTE; }
    budget := ports * groups * slack * (5 * SECOND);
    if budget < floor { budget := floor; }
    if max > 0 && budget > max { budget := max; }
  }

  /** Ten seconds for each port and each started group of 64 hosts, forty when deep, and at least twenty minutes or
      an hour. */
  lemma DetectionIs(ports: int, hosts: int, deep: bool, groups: int)
    requires ports >= 0 && hosts >= 1 && 64 * (groups - 1) < hosts <= 64 * groups
    ensures
      var need, per, least := DetectionNeeds(ports, hosts, deep), if deep then 40 else 10, if deep then 3600 else 1200;
      && need >= ports * groups * per * 1_000_000_000 && need >= least * 1_000_000_000
      && (need == ports * groups * per * 1_000_000_000 || need == least * 1_000_000_000)
  {
    assert Groups(hosts) == groups;
    var work := ports * groups;
    assert work * 8 * (5 * SECOND) == work * 40 * SECOND && work * 2 * (5 * SECOND) == work * 10 * SECOND;
  }

  /** It grows with the ports, the hosts and the depth. */
  lemma DetectionMonotone(ports: int, hosts: int, deep: bool, ports': int, hosts': int, deep': bool, max: int)
    requires 0 <= ports <= ports' && 1 <= hosts <= hosts' && (deep ==> deep')
    ensures Capped(DetectionNeeds(ports, hosts, deep), max) <= Capped(DetectionNeeds(ports', hosts', deep'), max)
  {
    ProductMonotone(ports, Groups(hosts), ports', Groups(hosts'));
    var a, b := ports * Groups(hosts), ports' * Groups(hosts');
    assert a * (if deep then 8 else 2) <= b * (if deep' then 8 else 2);
  }
}
