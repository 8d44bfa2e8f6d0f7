/** The tasks a run starts with, one for one with what it was started for. */
module PlannerStart {
  import opened Options
  import opened Targets
  import opened Planner
  import opened PlannerAuth
  import opened PlannerTick
  import opened PlannerInitial
  import Guard
  import LeaseTable
  import NetAddr

  // ---- lists by stage ----

  function OfStage(tasks: seq<Task>, stage: Stage): seq<Task> {
    if tasks == [] then []
    else OfStage(tasks[..|tasks| - 1], stage) + if tasks[|tasks| - 1].stage == stage then [tasks[|tasks| - 1]] else []
  }

  function SpecsOf(specs: seq<Spec>, stage: Stage): seq<Spec> {
    if specs == [] then []
    else SpecsOf(specs[..|specs| - 1], stage) + if specs[|specs| - 1].stage == stage then [specs[|specs| - 1]] else []
  }

  lemma {:induction false} SpecsOfBoth(a: seq<Spec>, b: seq<Spec>, stage: Stage)
    ensures SpecsOf(a + b, stage) == SpecsOf(a, stage) + SpecsOf(b, stage)
    decreases |b|
  {
    if b == [] {
      assert a + b == a;
    } else {
      assert (a + b)[..|a + b| - 1] == a + b[..|b| - 1];
      SpecsOfBoth(a, b[..|b| - 1], stage);
    }
  }

  lemma {:induction false} SpecsAllOf(specs: seq<Spec>, stage: Stage)
    ensures (forall i :: 0 <= i < |specs| ==> specs[i].stage == stage) ==> SpecsOf(specs, stage) == specs
    ensures (forall i :: 0 <= i < |specs| ==> specs[i].stage != stage) ==> SpecsOf(specs, stage) == []
    decreases |specs|
  {
    if specs != [] {
      var n := |specs| - 1;
      SpecsAllOf(specs[..n], stage);
      assert forall i :: 0 <= i < n ==> specs[..n][i] == specs[i];
      assert specs == specs[..n] + [specs[n]];
    }
  }

  /** t is the task planned for sp. */
  predicate Carries(t: Task, sp: Spec, run: Run) { t == TaskOf(RoutedSpec(sp, run)) }

  lemma {:induction false} TasksOfSpecs(tasks: seq<Task>, specs: seq<Spec>, run: Run, stage: Stage)
    requires |tasks| == |specs| && forall i :: 0 <= i < |tasks| ==> Carries(tasks[i], specs[i], run)
    ensures |OfStage(tasks, stage)| == |SpecsOf(specs, stage)|
    ensures forall i :: 0 <= i < |OfStage(tasks, stage)| ==> Carries(OfStage(tasks, stage)[i], SpecsOf(specs, stage)[i], run)
    decreases |tasks|
  {
    if tasks != [] {
      var n := |tasks| - 1;
      assert Carries(tasks[n], specs[n], run);
      TasksOfSpecs(tasks[..n], specs[..n], run, stage);
    }
  }

  lemma BegunCarries(st: Start, run: Run, text: NetAddr.Addr -> string, stage: Stage)
    requires Initial(st, run, text).Begun?
    ensures run.passivePool.Some?
    ensures
      var tasks, specs := OfStage(Initial(st, run, text).tasks, stage), SpecsOf(StartSpecs(st, run.passive, text), stage);
      |tasks| == |specs| && forall i :: 0 <= i < |tasks| ==> Carries(tasks[i], specs[i], run)
  {
    var specs, tasks := StartSpecs(st, run.passive, text), Initial(st, run, text).tasks;
    PlanAppends([], specs, run, tasks);
    forall i | 0 <= i < |tasks| ensures Carries(tasks[i], specs[i], run) {
      assert tasks[0 + i] == TaskOf(RoutedSpec(specs[i], run));
    }
    TasksOfSpecs(tasks, specs, run, stage);
  }

  // ---- discovery ----

  function Domains(ts: seq<StartTarget>): seq<StartTarget> {
    if ts == [] then []
    else Domains(ts[..|ts| - 1]) + if ts[|ts| - 1].kind == Domain then [ts[|ts| - 1]] else []
  }

  datatype Guess = Guess(target: StartTarget, wordlist: string)

  /** Every domain that is not skipped with every wordlist, in order. */
  function ToBrute(ts: seq<StartTarget>, wordlists: seq<string>): seq<Guess> {
    if ts == [] then []
    else
      var t := ts[|ts| - 1];
      ToBrute(ts[..|ts| - 1], wordlists)
      + if t.kind == Domain && !t.skipped then seq(|wordlists|, i requires 0 <= i < |wordlists| => Guess(t, wordlists[i])) else []
  }

  /** sp discovers the domain of target t, with a wordlist if any. */
  predicate Explores(sp: Spec, t: StartTarget, wordlist: string) {
    sp.target.domain == t.value && sp.target == DomainTarget(t.value, wordlist) && sp.origins == [t.id]
  }

  lemma OneTargetsSpecs(st: Start, passive: bool, t: StartTarget, text: NetAddr.Addr -> string, stage: Stage)
    requires stage == PassiveEnum || stage == DnsResolve
    ensures
      var specs := SpecsOf(SpecsFor(st, passive, t, text), stage);
      && |specs| == (if t.kind == Domain then 1 else 0)
      && (t.kind == Domain ==> specs[0].stage == stage && Explores(specs[0], t, ""))
  {
    var specs := SpecsFor(st, passive, t, text);
    if t.kind == Domain {
      assert |specs| == 2 && specs[0].stage == PassiveEnum && specs[1].stage == DnsResolve;
      assert specs[..1][..0] == [] && specs[..1][0] == specs[0];
      assert SpecsOf(specs[..1][..0], stage) == [];
      assert SpecsOf(specs[..1], stage) == if stage == PassiveEnum then [specs[0]] else [];
      assert SpecsOf(specs, stage) == if stage == PassiveEnum then [specs[0]] else [specs[1]];
    } else {
      SpecsAllOf(specs, stage);
    }
  }

  lemma {:induction false} DomainsExplored(st: Start, passive: bool, ts: seq<StartTarget>, text: NetAddr.Addr -> string, stage: Stage)
    requires stage == PassiveEnum || stage == DnsResolve
    ensures
      var specs, ds := SpecsOf(TargetsSpecs(st, passive, ts, text), stage), Domains(ts);
      |specs| == |ds| && forall i :: 0 <= i < |ds| ==> specs[i].stage == stage && Explores(specs[i], ds[i], "")
    decreases |ts|
  {
    if ts != [] {
      var n := |ts| - 1;
      DomainsExplored(st, passive, ts[..n], text, stage);
      SpecsOfBoth(TargetsSpecs(st, passive, ts[..n], text), SpecsFor(st, passive, ts[n], text), stage);
      OneTargetsSpecs(st, passive, ts[n], text, stage);
    }
  }

  predicate Guesses(sp: Spec, g: Guess) { sp.stage == DnsBrute && Explores(sp, g.target, g.wordlist) }

  lemma {:induction false} BruteListed(ts: seq<StartTarget>, wordlists: seq<string>)
    ensures
      var specs, to := BruteSpecs(ts, wordlists), ToBrute(ts, wordlists);
      |specs| == |to| && forall i :: 0 <= i < |to| ==> Guesses(specs[i], to[i])
    decreases |ts|
  {
    if ts != [] { BruteListed(ts[..|ts| - 1], wordlists); }
  }

  lemma NoDiscoveryAmongScans(st: Start, passive: bool, text: NetAddr.Addr -> string, stage: Stage)
    ensures
      var specs := SpecsOf(StartSpecs(st, passive, text), stage);
      && (stage == PassiveEnum || stage == DnsResolve || stage == PortScan ==>
            specs == SpecsOf(TargetsSpecs(st, passive, st.targets, text), stage))
      && (stage == DnsBrute ==> specs == if passive || st.bruteOff then [] else BruteSpecs(st.targets, st.wordlists))
  {
    var own := TargetsSpecs(st, passive, st.targets, text);
    var brute := if passive || st.bruteOff then [] else BruteSpecs(st.targets, st.wordlists);
    BruteSpecsAre(st.targets, st.wordlists);
    SpecsOfBoth(own, brute, stage);
    SpecsAllOf(brute, stage);
    if stage == DnsBrute {
      forall i | 0 <= i < |own| ensures own[i].stage != DnsBrute {
        TargetsSpecsAre(st, passive, st.targets, text, i);
      }
      SpecsAllOf(own, stage);
    }
  }

  /** A queued task of the passive pool for the target's own id that names the domain, the wordlist if any, and
      nothing else. */
  predicate ExploreTask(t: Task, stage: Stage, target: StartTarget, wordlist: string, run: Run) {
    && t.stage == stage && t.status == LeaseTable.Pending && t.pool == run.passivePool && t.pool.Some?
    && t.target.domain == target.value && t.target.wordlist == wordlist && t.target.ips == [] && t.target.ip == ""
    && t.target.port == 0 && t.target.url == "" && t.target.host == "" && t.target.ports == ""
    && t.origins == if target.id == NIL then [] else [target.id]
  }

  lemma ExploresTask(t: Task, sp: Spec, run: Run, target: StartTarget, wordlist: string)
    requires Carries(t, sp, run) && Explores(sp, target, wordlist) && run.passivePool.Some?
    requires sp.stage == PassiveEnum || sp.stage == DnsResolve || sp.stage == DnsBrute
    ensures ExploreTask(t, sp.stage, target, wordlist, run)
  {
    assert [target.id][..0] == [];
    assert StoredOrigins([]) == [];
  }

  /** A run starts with one passive_enum and one dns_resolve task for each domain it was started for, in that
      order. */
  lemma StartExploresDomains(st: Start, run: Run, text: NetAddr.Addr -> string, stage: Stage)
    requires Initial(st, run, text).Begun? && (stage == PassiveEnum || stage == DnsResolve)
    ensures
      var tasks, ds := OfStage(Initial(st, run, text).tasks, stage), Domains(st.targets);
      |tasks| == |ds| && forall i :: 0 <= i < |ds| ==> ExploreTask(tasks[i], stage, ds[i], "", run)
  {
    var tasks, ds := OfStage(Initial(st, run, text).tasks, stage), Domains(st.targets);
    BegunCarries(st, run, text, stage);
    NoDiscoveryAmongScans(st, run.passive, text, stage);
    DomainsExplored(st, run.passive, st.targets, text, stage);
    var specs := SpecsOf(StartSpecs(st, run.passive, text), stage);
    forall i | 0 <= i < |ds| ensures ExploreTask(tasks[i], stage, ds[i], "", run) {
      assert Carries(tasks[i], specs[i], run) && Explores(specs[i], ds[i], "");
      ExploresTask(tasks[i], specs[i], run, ds[i], "");
    }
  }

  /** And with one dns_brute task for each domain that is not skipped and each wordlist, unless it is passive or
      brute-forcing is switched off. */
  lemma StartBrutesDomains(st: Start, run: Run, text: NetAddr.Addr -> string)
    requires Initial(st, run, text).Begun?
    ensures
      var tasks := OfStage(Initial(st, run, text).tasks, DnsBrute);
      var to := if run.passive || st.bruteOff then [] else ToBrute(st.targets, st.wordlists);
      |tasks| == |to| && forall i :: 0 <= i < |to| ==> ExploreTask(tasks[i], DnsBrute, to[i].target, to[i].wordlist, run)
  {
    var tasks := OfStage(Initial(st, run, text).tasks, DnsBrute);
    var to := if run.passive || st.bruteOff then [] else ToBrute(st.targets, st.wordlists);
    BegunCarries(st, run, text, DnsBrute);
    NoDiscoveryAmongScans(st, run.passive, text, DnsBrute);
    BruteListed(st.targets, st.wordlists);
    var specs := SpecsOf(StartSpecs(st, run.passive, text), DnsBrute);
    forall i | 0 <= i < |to| ensures ExploreTask(tasks[i], DnsBrute, to[i].target, to[i].wordlist, run) {
      assert Carries(tasks[i], specs[i], run) && Guesses(specs[i], to[i]);
      ExploresTask(tasks[i], specs[i], run, to[i].target, to[i].wordlist);
    }
  }

  /** There are no other tasks than these and port scans. */
  lemma StartStages(st: Start, run: Run, text: NetAddr.Addr -> string, i: nat)
    requires Initial(st, run, text).Begun? && i < |Initial(st, run, text).tasks|
    ensures
      var stage := Initial(st, run, text).tasks[i].stage;
      stage == PassiveEnum || stage == DnsResolve || stage == DnsBrute || stage == PortScan
  {
    BegunFrom(st, run, text, i);
    StartSpecsAre(st, run.passive, text, i);
  }

  // ---- port scans ----

  /** The last row of the value authorizes it. */
  ghost predicate Allowed(rows: seq<ScopeTarget>, value: string) {
    exists j :: LastOf(rows, j) && rows[j].value == value && rows[j].mode == Active && rows[j].authorizedBy && rows[j].authorizedAt
  }

  /** Whether a target of addresses is scanned, told from the rows and the addresses themselves. */
  ghost predicate Scans(st: Start, passive: bool, t: StartTarget) {
    && (t.kind == Ip || t.kind == Cidr) && !passive && Allowed(st.rows, t.value)
    && (st.allowPrivate || t.value !in st.written || !Guard.IsPrivateTarget(st.written[t.value]))
  }

  lemma AuthorizedExactly(rows: seq<ScopeTarget>, value: string)
    ensures AuthorizedValue(rows, value) <==> Allowed(rows, value)
  {
    ValuesListed(rows, value);
    forall j | LastOf(rows, j) ensures rows[j].value in AuthByValue(rows) && AuthByValue(rows)[rows[j].value] == rows[j].Authorized() {
      LastRowSays(rows, j);
    }
    if AuthorizedValue(rows, value) { var j := HasLast(rows, value); }
  }

  /** What becomes of each target: a domain is explored; an address or block is scanned, or skipped for the first
      reason that applies. */
  lemma FatesAre(st: Start, passive: bool, i: nat)
    requires i < |st.targets|
    ensures |Fates(st, passive, st.targets)| == |st.targets|
    ensures
      var t, fate := st.targets[i], Fates(st, passive, st.targets)[i];
      && (fate == Running <==> t.kind == Domain || Scans(st, passive, t))
      && (fate == Untouched <==> t.kind == Other)
      && (fate == Skipped(PassiveProfile) <==> (t.kind == Ip || t.kind == Cidr) && passive)
      && (fate == Skipped(NotAuthorized) <==> (t.kind == Ip || t.kind == Cidr) && !passive && !Allowed(st.rows, t.value))
      && (fate == Skipped(InternalRange) <==>
            (t.kind == Ip || t.kind == Cidr) && !passive && Allowed(st.rows, t.value) && !Scans(st, passive, t))
  {
    FatesListed(st, passive, st.targets, i);
    AuthorizedExactly(st.rows, st.targets[i].value);
  }

  lemma {:induction false} FatesListed(st: Start, passive: bool, ts: seq<StartTarget>, i: nat)
    requires i < |ts|
    ensures |Fates(st, passive, ts)| == |ts| && Fates(st, passive, ts)[i] == FateOf(st, passive, ts[i])
    decreases |ts|
  {
    var n := |ts| - 1;
    if n > 0 { FatesListed(st, passive, ts[..n], if i < n then i else 0); }
  }

  datatype Address = Address(ip: string, o: Origin)

  function With(ips: seq<string>, o: Origin): seq<Address> { seq(|ips|, i requires 0 <= i < |ips| => Address(ips[i], o)) }

  /** The addresses a target stands for: itself, or the first 4096 hosts of its block. */
  function Named(st: Start, t: StartTarget, text: NetAddr.Addr -> string): seq<string> {
    if t.kind == Ip then [t.value]
    else if t.value in st.cidrs && st.cidrs[t.value].bits <= 8 * |st.cidrs[t.value].addr| then
      var hosts := NetAddr.Hosts(st.cidrs[t.value].addr, st.cidrs[t.value].bits, 4096);
      seq(|hosts|, i requires 0 <= i < |hosts| => text(hosts[i]))
    else []
  }

  lemma NamedAre(st: Start, t: StartTarget, text: NetAddr.Addr -> string)
    ensures Named(st, t, text) == PlannerInitial.AddressesOf(st, t, text)
  {
  }

  /** Every address of every target to be scanned, in order. */
  ghost function ToScan(st: Start, passive: bool, ts: seq<StartTarget>, text: NetAddr.Addr -> string): seq<Address> {
    if ts == [] then []
    else
      var t := ts[|ts| - 1];
      ToScan(st, passive, ts[..|ts| - 1], text)
      + if Scans(st, passive, t) then With(Named(st, t, text), t.id) else []
  }

  predicate ScansIt(sp: Spec, a: Address) { sp.stage == PortScan && sp.target == HostTarget(a.ip) && sp.origins == [a.o] }

  lemma ScansOfAre(ips: seq<string>, o: Origin)
    ensures |ScansOf(ips, o)| == |With(ips, o)|
    ensures forall i :: 0 <= i < |ips| ==> ScansIt(ScansOf(ips, o)[i], With(ips, o)[i])
  {
  }

  lemma RunsExactly(st: Start, passive: bool, t: StartTarget)
    requires t.kind != Domain
    ensures FateOf(st, passive, t) == Running <==> Scans(st, passive, t)
  {
    AuthorizedExactly(st.rows, t.value);
  }

  lemma ScansOfOne(st: Start, passive: bool, t: StartTarget, text: NetAddr.Addr -> string)
    ensures
      var specs := SpecsOf(SpecsFor(st, passive, t, text), PortScan);
      var to := if Scans(st, passive, t) then With(Named(st, t, text), t.id) else [];
      |specs| == |to| && forall i :: 0 <= i < |to| ==> ScansIt(specs[i], to[i])
  {
    SpecsAllOf(SpecsFor(st, passive, t, text), PortScan);
    if t.kind != Domain {
      RunsExactly(st, passive, t);
      NamedAre(st, t, text);
      ScansOfAre(Named(st, t, text), t.id);
    }
  }

  predicate ScansThem(specs: seq<Spec>, to: seq<Address>) {
    |specs| == |to| && forall i :: 0 <= i < |to| ==> ScansIt(specs[i], to[i])
  }

  lemma ScansBoth(a: seq<Spec>, to: seq<Address>, b: seq<Spec>, more: seq<Address>)
    requires ScansThem(a, to) && ScansThem(b, more)
    ensures ScansThem(a + b, to + more)
  {
  }

  lemma {:induction false} ScansListed(st: Start, passive: bool, ts: seq<StartTarget>, text: NetAddr.Addr -> string)
    ensures ScansThem(SpecsOf(TargetsSpecs(st, passive, ts, text), PortScan), ToScan(st, passive, ts, text))
    decreases |ts|
  {
    if ts != [] {
      var before, t := ts[..|ts| - 1], ts[|ts| - 1];
      var to := if Scans(st, passive, t) then With(Named(st, t, text), t.id) else [];
      ScansListed(st, passive, before, text);
      SpecsOfBoth(TargetsSpecs(st, passive, before, text), SpecsFor(st, passive, t, text), PortScan);
      ScansOfOne(st, passive, t, text);
      ScansBoth(SpecsOf(TargetsSpecs(st, passive, before, text), PortScan), ToScan(st, passive, before, text),
                SpecsOf(SpecsFor(st, passive, t, text), PortScan), to);
    }
  }

  predicate ScanTask(t: Task, a: Address, run: Run) {
    && t.stage == PortScan && t.status == LeaseTable.Pending && t.pool == run.exitPool && t.pool.Some?
    && t.target.ip == a.ip && t.target.ips == [] && t.target.ports == "" && t.target.port == 0
    && t.origins == if a.o == NIL then [] else [a.o]
  }

  /** A run starts with one port scan for each address of each target that may be scanned, in order, and with no
      others. */
  lemma StartScansExactly(st: Start, run: Run, text: NetAddr.Addr -> string)
    requires Initial(st, run, text).Begun?
    ensures
      var tasks, to := OfStage(Initial(st, run, text).tasks, PortScan), ToScan(st, run.passive, st.targets, text);
      |tasks| == |to| && forall i :: 0 <= i < |to| ==> ScanTask(tasks[i], to[i], run)
  {
    var tasks, to := OfStage(Initial(st, run, text).tasks, PortScan), ToScan(st, run.passive, st.targets, text);
    BegunCarries(st, run, text, PortScan);
    NoDiscoveryAmongScans(st, run.passive, text, PortScan);
    ScansListed(st, run.passive, st.targets, text);
    var specs := SpecsOf(StartSpecs(st, run.passive, text), PortScan);
    if specs != [] { ScansNeedExit(st, run, text); }
    forall i | 0 <= i < |to| ensures ScanTask(tasks[i], to[i], run) {
      ScansTask(tasks[i], specs[i], run, to[i]);
    }
  }

  lemma ScansTask(t: Task, sp: Spec, run: Run, a: Address)
    requires Carries(t, sp, run) && ScansIt(sp, a) && run.exitPool.Some?
    ensures ScanTask(t, a, run)
  {
    assert [a.o][..0] == [] && StoredOrigins([]) == [];
  }

  lemma {:induction false} SpecsOfFrom(specs: seq<Spec>, stage: Stage) returns (i: nat)
    requires SpecsOf(specs, stage) != []
    ensures i < |specs| && specs[i].stage == stage
    decreases |specs|
  {
    var n := |specs| - 1;
    if specs[n].stage == stage { i := n; } else { i := SpecsOfFrom(specs[..n], stage); }
  }

  lemma ScansNeedExit(st: Start, run: Run, text: NetAddr.Addr -> string)
    requires Initial(st, run, text).Begun? && SpecsOf(StartSpecs(st, run.passive, text), PortScan) != []
    ensures run.exitPool.Some?
  {
    var specs := StartSpecs(st, run.passive, text);
    var i := SpecsOfFrom(specs, PortScan);
    PlanAppends([], specs, run, Initial(st, run, text).tasks);
  }

  /** Nothing to explore and nothing to scan. */
  ghost predicate NothingAsked(st: Start, passive: bool, text: NetAddr.Addr -> string) {
    Domains(st.targets) == [] && ToScan(st, passive, st.targets, text) == []
  }

  lemma {:induction false} NoDomainsNoGuesses(ts: seq<StartTarget>, wordlists: seq<string>)
    requires Domains(ts) == []
    ensures ToBrute(ts, wordlists) == []
    decreases |ts|
  {
    if ts != [] { NoDomainsNoGuesses(ts[..|ts| - 1], wordlists); }
  }

  lemma {:induction false} AllStages(specs: seq<Spec>)
    requires specs != []
    ensures SpecsOf(specs, specs[|specs| - 1].stage) != []
  {
  }

  lemma NoSpecsExactly(st: Start, passive: bool, text: NetAddr.Addr -> string)
    ensures StartSpecs(st, passive, text) == [] <==> NothingAsked(st, passive, text)
  {
    var specs := StartSpecs(st, passive, text);
    NoDiscoveryAmongScans(st, passive, text, PassiveEnum);
    DomainsExplored(st, passive, st.targets, text, PassiveEnum);
    NoDiscoveryAmongScans(st, passive, text, PortScan);
    ScansListed(st, passive, st.targets, text);
    if specs != [] && NothingAsked(st, passive, text) {
      LastIsAsked(st, passive, text, specs[|specs| - 1].stage);
    }
  }

  lemma LastIsAsked(st: Start, passive: bool, text: NetAddr.Addr -> string, stage: Stage)
    requires
      var specs := StartSpecs(st, passive, text);
      specs != [] && stage == specs[|specs| - 1].stage
    ensures !NothingAsked(st, passive, text)
  {
    var specs := StartSpecs(st, passive, text);
    AllStages(specs);
    StartSpecsAre(st, passive, text, |specs| - 1);
    NoDiscoveryAmongScans(st, passive, text, stage);
    if stage == PassiveEnum || stage == DnsResolve {
      DomainsExplored(st, passive, st.targets, text, stage);
    } else if stage == PortScan {
      ScansListed(st, passive, st.targets, text);
    } else {
      BruteListed(st.targets, st.wordlists);
      if Domains(st.targets) == [] { NoDomainsNoGuesses(st.targets, st.wordlists); }
    }
  }

  lemma {:induction false} SpecsOfHas(specs: seq<Spec>, i: nat)
    requires i < |specs|
    ensures SpecsOf(specs, specs[i].stage) != []
    decreases |specs|
  {
    if i < |specs| - 1 { SpecsOfHas(specs[..|specs| - 1], i); }
  }

  lemma SendsExactly(st: Start, passive: bool, text: NetAddr.Addr -> string)
    ensures (exists i :: 0 <= i < |StartSpecs(st, passive, text)| && StartSpecs(st, passive, text)[i].stage.SendsTrafficToTarget())
            <==> ToScan(st, passive, st.targets, text) != []
  {
    var specs := StartSpecs(st, passive, text);
    NoDiscoveryAmongScans(st, passive, text, PortScan);
    ScansListed(st, passive, st.targets, text);
    if i :| 0 <= i < |specs| && specs[i].stage.SendsTrafficToTarget() {
      StartSpecsAre(st, passive, text, i);
      SpecsOfHas(specs, i);
    }
    if ToScan(st, passive, st.targets, text) != [] {
      var i := SpecsOfFrom(specs, PortScan);
      assert specs[i].stage.SendsTrafficToTarget();
    }
  }

  /** A run cannot start without the pool for passive stages, nor, if it has anything to scan, without its exit
      pool; it has nothing to do where nothing is asked; otherwise it begins. */
  lemma StartOutcomeExactly(st: Start, run: Run, text: NetAddr.Addr -> string)
    ensures
      var begin, nothing := Initial(st, run, text), NothingAsked(st, run.passive, text);
      && (begin.Failed? <==>
            run.passivePool.None? || (run.exitPool.None? && ToScan(st, run.passive, st.targets, text) != []))
      && (begin.NothingToDo? <==> run.passivePool.Some? && nothing)
      && (begin.Begun? ==> begin.tasks != [])
  {
    NoSpecsExactly(st, run.passive, text);
    SendsExactly(st, run.passive, text);
    if Initial(st, run, text).Begun? {
      PlanAppends([], StartSpecs(st, run.passive, text), run, Initial(st, run, text).tasks);
    }
  }
}
