/** How a run starts: its first tasks, and what then holds of it for good. */
module PlannerInitial {
  import opened Options
  import opened Targets
  import opened Planner
  import opened PlannerTick
  import opened PlannerRuns
  import opened PlannerSteps
  import Guard
  import NetAddr

  datatype Kind = Domain | Ip | Cidr | Other

  /** `skipped` is the status the target came with. */
  datatype StartTarget = StartTarget(id: Origin, kind: Kind, value: string, skipped: bool)

  /** What planning starts from. `written` is the address a value names, alone or as a prefix, and `cidrs`
      how a value reads as a block; both are absent where it does not parse. */
  datatype Start = Start(targets: seq<StartTarget>, rows: seq<ScopeTarget>, allowPrivate: bool,
                         written: map<string, NetAddr.Addr>, cidrs: map<string, Guard.Prefix>,
                         bruteOff: bool, wordlists: seq<string>)

  datatype Reason = NotAuthorized | PassiveProfile | InternalRange

  datatype Fate = Running | Skipped(reason: Reason) | Untouched

  predicate AuthorizedValue(rows: seq<ScopeTarget>, value: string) {
    value in AuthByValue(rows) && AuthByValue(rows)[value]
  }

  predicate InternalValue(st: Start, value: string) {
    value in st.written && Guard.IsPrivateTarget(st.written[value])
  }

  function FateOf(st: Start, passive: bool, t: StartTarget): Fate {
    if t.kind.Domain? then Running
    else if t.kind.Other? then Untouched
    else if passive then Skipped(PassiveProfile)
    else if !AuthorizedValue(st.rows, t.value) then Skipped(NotAuthorized)
    else if InternalValue(st, t.value) && !st.allowPrivate then Skipped(InternalRange)
    else Running
  }

  /** What becomes of each target, in order. */
  function Fates(st: Start, passive: bool, ts: seq<StartTarget>): seq<Fate> {
    if ts == [] then [] else Fates(st, passive, ts[..|ts| - 1]) + [FateOf(st, passive, ts[|ts| - 1])]
  }

  function HostsOf(st: Start, t: StartTarget): seq<NetAddr.Addr> {
    if t.value !in st.cidrs then []
    else
      var p := st.cidrs[t.value];
      if p.bits <= 8 * |p.addr| then NetAddr.Hosts(p.addr, p.bits, Guard.CIDR_HOST_CAP) else []
  }

  /** The addresses to scan for a target; `text` is how an address is written. */
  function AddressesOf(st: Start, t: StartTarget, text: NetAddr.Addr -> string): seq<string> {
    if t.kind.Ip? then [t.value]
    else
      var hosts := HostsOf(st, t);
      seq(|hosts|, i requires 0 <= i < |hosts| => text(hosts[i]))
  }

  function ScanSpec(ip: string, o: Origin): Spec { Spec(PortScan, HostTarget(ip), 100, [RAW_SOCKET], [o], None) }

  function ScansOf(ips: seq<string>, o: Origin): seq<Spec> {
    seq(|ips|, i requires 0 <= i < |ips| => ScanSpec(ips[i], o))
  }

  function SpecsFor(st: Start, passive: bool, t: StartTarget, text: NetAddr.Addr -> string): seq<Spec> {
    if t.kind.Domain? then
      [Spec(PassiveEnum, DomainTarget(t.value, ""), 10, [], [t.id], None),
       Spec(DnsResolve, DomainTarget(t.value, ""), 30, [], [t.id], None)]
    else if FateOf(st, passive, t).Running? then ScansOf(AddressesOf(st, t, text), t.id)
    else []
  }

  function TargetsSpecs(st: Start, passive: bool, ts: seq<StartTarget>, text: NetAddr.Addr -> string): seq<Spec> {
    if ts == [] then []
    else TargetsSpecs(st, passive, ts[..|ts| - 1], text) + SpecsFor(st, passive, ts[|ts| - 1], text)
  }

  function BruteSpec(value: string, wordlist: string, o: Origin): Spec {
    Spec(DnsBrute, DomainTarget(value, wordlist), 20, [], [o], None)
  }

  /** One brute-force task per domain and wordlist. */
  function BruteSpecs(ts: seq<StartTarget>, wordlists: seq<string>): seq<Spec> {
    if ts == [] then []
    else
      var t := ts[|ts| - 1];
      BruteSpecs(ts[..|ts| - 1], wordlists)
      + if t.kind.Domain? && !t.skipped then
          seq(|wordlists|, i requires 0 <= i < |wordlists| => BruteSpec(t.value, wordlists[i], t.id))
        else []
  }

  function StartSpecs(st: Start, passive: bool, text: NetAddr.Addr -> string): seq<Spec> {
    TargetsSpecs(st, passive, st.targets, text)
    + if passive || st.bruteOff then [] else BruteSpecs(st.targets, st.wordlists)
  }

  datatype Begin = Failed | NothingToDo | Begun(tasks: seq<Task>)

  function Initial(st: Start, run: Run, text: NetAddr.Addr -> string): Begin {
    if run.passivePool.None? then Failed
    else
      var specs := StartSpecs(st, run.passive, text);
      if specs == [] then NothingToDo
      else
        var planned := Plan([], specs, run);
        if planned.None? then Failed else Begun(planned.value)
  }

  // ---- as it is carried out ----

  method ExpandTarget(st: Start, t: StartTarget, text: NetAddr.Addr -> string) returns (specs: seq<Spec>)
    ensures specs == ScansOf(AddressesOf(st, t, text), t.id)
  {
    if t.kind.Ip? { return [ScanSpec(t.value, t.id)]; }
    specs := [];
    if t.value !in st.cidrs || st.cidrs[t.value].bits > 8 * |st.cidrs[t.value].addr| { return; }
    var hosts := NetAddr.ExpandCIDRHosts(st.cidrs[t.value].addr, st.cidrs[t.value].bits, Guard.CIDR_HOST_CAP);
    for i := 0 to |hosts|
      invariant |specs| == i && forall j :: 0 <= j < i ==> specs[j] == ScanSpec(text(hosts[j]), t.id)
    {
      specs := specs + [ScanSpec(text(hosts[i]), t.id)];
    }
  }

  method BruteTasks(st: Start, passive: bool) returns (specs: seq<Spec>)
    ensures specs == if passive || st.bruteOff then [] else BruteSpecs(st.targets, st.wordlists)
  {
    specs := [];
    if passive || st.bruteOff { return; }
    var ts := st.targets;
    for i := 0 to |ts|
      invariant specs == BruteSpecs(ts[..i], st.wordlists)
    {
      assert ts[..i + 1][..i] == ts[..i];
      if !ts[i].kind.Domain? || ts[i].skipped { continue; }
      var more: seq<Spec> := [];
      for j := 0 to |st.wordlists|
        invariant |more| == j && forall k :: 0 <= k < j ==> more[k] == BruteSpec(ts[i].value, st.wordlists[k], ts[i].id)
      {
        more := more + [BruteSpec(ts[i].value, st.wordlists[j], ts[i].id)];
      }
      specs := specs + more;
    }
    assert ts[..|ts|] == ts;
  }

  method PlanInitial(st: Start, run: Run, text: NetAddr.Addr -> string) returns (r: Begin, fates: seq<Fate>)
    ensures r == Initial(st, run, text)
    ensures run.passivePool.Some? ==> fates == Fates(st, run.passive, st.targets)
  {
    if run.passivePool.None? { return Failed, []; }
    var specs: seq<Spec>;
    specs, fates := TargetTasks(st, run.passive, text);
    var brute := BruteTasks(st, run.passive);
    specs := specs + brute;
    if specs == [] { return NothingToDo, fates; }
    var table := new TaskTable([]);
    var ok := table.PlanTasks(specs, run);
    r := if ok then Begun(table.tasks) else Failed;
  }

  method TargetTasks(st: Start, passive: bool, text: NetAddr.Addr -> string) returns (specs: seq<Spec>, fates: seq<Fate>)
    ensures specs == TargetsSpecs(st, passive, st.targets, text)
    ensures fates == Fates(st, passive, st.targets)
  {
    specs, fates := [], [];
    for i := 0 to |st.targets|
      invariant specs == TargetsSpecs(st, passive, st.targets[..i], text)
      invariant fates == Fates(st, passive, st.targets[..i])
    {
      TargetsNext(st, passive, st.targets, i, text);
      var more, fate := OneTarget(st, passive, st.targets[i], text);
      specs := specs + more;
      fates := fates + [fate];
    }
    assert st.targets[..|st.targets|] == st.targets;
  }

  lemma TargetsNext(st: Start, passive: bool, ts: seq<StartTarget>, i: nat, text: NetAddr.Addr -> string)
    requires i < |ts|
    ensures TargetsSpecs(st, passive, ts[..i + 1], text) ==
            TargetsSpecs(st, passive, ts[..i], text) + SpecsFor(st, passive, ts[i], text)
    ensures Fates(st, passive, ts[..i + 1]) == Fates(st, passive, ts[..i]) + [FateOf(st, passive, ts[i])]
  {
    assert ts[..i + 1][..i] == ts[..i];
  }

  method OneTarget(st: Start, passive: bool, t: StartTarget, text: NetAddr.Addr -> string) returns (specs: seq<Spec>, fate: Fate)
    ensures specs == SpecsFor(st, passive, t, text) && fate == FateOf(st, passive, t)
  {
    if t.kind.Domain? {
      specs := [Spec(PassiveEnum, DomainTarget(t.value, ""), 10, [], [t.id], None),
                Spec(DnsResolve, DomainTarget(t.value, ""), 30, [], [t.id], None)];
      return specs, Running;
    }
    if t.kind.Other? { return [], Untouched; }
    if passive || !AuthorizedValue(st.rows, t.value) {
      var reason := NotAuthorized;
      if passive { reason := PassiveProfile; }
      return [], Skipped(reason);
    }
    if InternalValue(st, t.value) && !st.allowPrivate { return [], Skipped(InternalRange); }
    specs := ExpandTarget(st, t, text);
    fate := Running;
  }

  // ---- what a run starts with ----

  /** sp is the first scan of an address of a target that may be scanned. */
  predicate ScanFor(st: Start, passive: bool, t: StartTarget, text: NetAddr.Addr -> string, sp: Spec) {
    && (t.kind.Ip? || t.kind.Cidr?) && FateOf(st, passive, t).Running?
    && sp.target.ip in AddressesOf(st, t, text) && sp == ScanSpec(sp.target.ip, t.id)
  }

  lemma {:induction false} TargetsSpecsAre(st: Start, passive: bool, ts: seq<StartTarget>, text: NetAddr.Addr -> string, i: nat)
    requires i < |TargetsSpecs(st, passive, ts, text)|
    ensures
      var sp := TargetsSpecs(st, passive, ts, text)[i];
      || sp.stage.PassiveEnum? || sp.stage.DnsResolve?
      || exists t :: t in ts && ScanFor(st, passive, t, text, sp)
    decreases |ts|
  {
    var n := |ts| - 1;
    var before := TargetsSpecs(st, passive, ts[..n], text);
    var sp := TargetsSpecs(st, passive, ts, text)[i];
    if i < |before| {
      TargetsSpecsAre(st, passive, ts[..n], text, i);
      if t :| t in ts[..n] && ScanFor(st, passive, t, text, sp) { assert t in ts; }
    } else if !ts[n].kind.Domain? {
      var ips := AddressesOf(st, ts[n], text);
      assert sp == ScansOf(ips, ts[n].id)[i - |before|];
      assert sp.target.ip == ips[i - |before|];
      assert ts[n] in ts && ScanFor(st, passive, ts[n], text, sp);
    }
  }

  lemma {:induction false} BruteSpecsAre(ts: seq<StartTarget>, wordlists: seq<string>)
    ensures forall i :: 0 <= i < |BruteSpecs(ts, wordlists)| ==> BruteSpecs(ts, wordlists)[i].stage.DnsBrute?
    decreases |ts|
  {
    if ts != [] { BruteSpecsAre(ts[..|ts| - 1], wordlists); }
  }

  lemma StartSpecsAre(st: Start, passive: bool, text: NetAddr.Addr -> string, i: nat)
    requires i < |StartSpecs(st, passive, text)|
    ensures
      var sp := StartSpecs(st, passive, text)[i];
      || sp.stage.PassiveEnum? || sp.stage.DnsResolve? || (sp.stage.DnsBrute? && !passive)
      || exists t :: t in st.targets && ScanFor(st, passive, t, text, sp)
  {
    var own := TargetsSpecs(st, passive, st.targets, text);
    if i < |own| {
      TargetsSpecsAre(st, passive, st.targets, text, i);
    } else {
      BruteSpecsAre(st.targets, st.wordlists);
    }
  }

  lemma BegunFrom(st: Start, run: Run, text: NetAddr.Addr -> string, i: nat)
    requires Initial(st, run, text).Begun? && i < |Initial(st, run, text).tasks|
    ensures
      var specs := StartSpecs(st, run.passive, text);
      var tasks := Initial(st, run, text).tasks;
      && |tasks| == |specs| && tasks[i] == TaskOf(RoutedSpec(specs[i], run)) && run.passivePool.Some?
      && (specs[i].stage.SendsTrafficToTarget() ==> run.exitPool.Some?)
  {
    var specs := StartSpecs(st, run.passive, text);
    var tasks := Initial(st, run, text).tasks;
    PlanAppends([], specs, run, tasks);
    assert tasks[0 + i] == TaskOf(RoutedSpec(specs[i], run));
  }

  /** Every port scan a run starts with is of an address of a target that the company's rows authorize,
      that does not itself name an internal address, and never in a passive run. */
  lemma StartScansOnlyAuthorized(st: Start, run: Run, text: NetAddr.Addr -> string, i: nat)
    requires Initial(st, run, text).Begun? && i < |Initial(st, run, text).tasks|
    requires Initial(st, run, text).tasks[i].stage.PortScan?
    ensures !run.passive
    ensures exists t :: t in st.targets && ScanFor(st, run.passive, t, text, StartSpecs(st, run.passive, text)[i])
                        && AuthorizedValue(st.rows, t.value) && (st.allowPrivate || !InternalValue(st, t.value))
                        && Initial(st, run, text).tasks[i].target.ip in AddressesOf(st, t, text)
  {
    BegunFrom(st, run, text, i);
    StartSpecsAre(st, run.passive, text, i);
    var sp := StartSpecs(st, run.passive, text)[i];
    var t :| t in st.targets && ScanFor(st, run.passive, t, text, sp);
    assert Initial(st, run, text).tasks[i].target == sp.target;
  }

  lemma {:induction false} TargetsSpecsCover(st: Start, passive: bool, ts: seq<StartTarget>, text: NetAddr.Addr -> string,
                                             j: nat, ip: string) returns (i: nat)
    requires j < |ts| && (ts[j].kind.Ip? || ts[j].kind.Cidr?) && FateOf(st, passive, ts[j]).Running?
    requires ip in AddressesOf(st, ts[j], text)
    ensures i < |TargetsSpecs(st, passive, ts, text)| && TargetsSpecs(st, passive, ts, text)[i] == ScanSpec(ip, ts[j].id)
    decreases |ts|
  {
    var n := |ts| - 1;
    assert ts[..n + 1] == ts;
    TargetsNext(st, passive, ts, n, text);
    if j < n {
      i := TargetsSpecsCover(st, passive, ts[..n], text, j, ip);
    } else {
      var k := ScanListed(AddressesOf(st, ts[n], text), ts[n].id, ip);
      i := |TargetsSpecs(st, passive, ts[..n], text)| + k;
    }
  }

  lemma ScanListed(ips: seq<string>, o: Origin, ip: string) returns (k: nat)
    requires ip in ips
    ensures k < |ScansOf(ips, o)| && ScansOf(ips, o)[k] == ScanSpec(ip, o)
  {
    k :| 0 <= k < |ips| && ips[k] == ip;
  }

  /** And none is left out: a run that is not passive starts with a port scan of every address of every
      authorized target that names no internal address, on the run's exit pool and attributed to it. */
  lemma StartScansAllAuthorized(st: Start, run: Run, text: NetAddr.Addr -> string, j: nat, ip: string) returns (i: nat)
    requires Initial(st, run, text).Begun? && !run.passive && j < |st.targets|
    requires
      var t := st.targets[j];
      && (t.kind.Ip? || t.kind.Cidr?) && AuthorizedValue(st.rows, t.value)
      && (st.allowPrivate || !InternalValue(st, t.value)) && ip in AddressesOf(st, t, text)
    ensures i < |Initial(st, run, text).tasks|
    ensures
      var t := Initial(st, run, text).tasks[i];
      && t.stage.PortScan? && t.target == HostTarget(ip) && t.pool == run.exitPool && t.pool.Some?
      && t.origins == StoredOrigins([st.targets[j].id])
  {
    i := TargetsSpecsCover(st, run.passive, st.targets, text, j, ip);
    var specs, tasks := StartSpecs(st, run.passive, text), Initial(st, run, text).tasks;
    assert specs[i] == ScanSpec(ip, st.targets[j].id);
    PlanAppends([], specs, run, tasks);
    BegunFrom(st, run, text, i);
  }

  /** A CIDR target that is let through expands to internal addresses exactly when its block starts at
      one: never when it is written with clear host bits. */
  lemma BlockStartDecides(st: Start, t: StartTarget, a: NetAddr.Addr, p: nat)
    requires !st.allowPrivate && t.kind.Cidr? && FateOf(st, false, t).Running?
    requires t.value in st.cidrs && st.cidrs[t.value] == Guard.Prefix(a, p) && |a| == 4 && p <= 32
    requires t.value in st.written && st.written[t.value] == a
    ensures Guard.AnyInternal(HostsOf(st, t)) <==> Guard.Internal(NetAddr.Masked(a, p))
    ensures NetAddr.Masked(a, p) == a ==> !Guard.AnyInternal(HostsOf(st, t))
  {
    Guard.HostsInternalExactly(a, p, Guard.CIDR_HOST_CAP);
  }

  // ---- the run that follows ----

  function StateOf(run: Run, tasks: seq<Task>): State { State(run, tasks, false) }

  /** A started run meets the invariant of all runs, so it holds in every state the run ever gets to. */
  lemma StartedRunsStaySound(st: Start, run: Run, text: NetAddr.Addr -> string, steps: seq<Step>)
    requires Initial(st, run, text).Begun?
    ensures
      var tasks := Initial(st, run, text).tasks;
      Invariant(After(StateOf(run, tasks), steps), |tasks|)
  {
    var tasks := Initial(st, run, text).tasks;
    forall i | 0 <= i < |tasks| ensures PoolOk(tasks[i], run) && !tasks[i].stage.ServiceProbe? {
      BegunFrom(st, run, text, i);
      StartSpecsAre(st, run.passive, text, i);
    }
    forall i, j | 0 <= i < j < |tasks| ensures !SameEndpoint(tasks[i], tasks[j]) {
      assert !tasks[i].stage.ServiceProbe?;
    }
    RunKeepsInvariant(StateOf(run, tasks), steps, |tasks|);
  }

  predicate Silent(tasks: seq<Task>) {
    forall i :: 0 <= i < |tasks| ==> Quiet(tasks[i].stage) && tasks[i].stage != DnsBrute
  }

  lemma {:induction false} PassiveStaysSilent(s: State, steps: seq<Step>)
    requires s.run.passive && Silent(s.tasks)
    ensures Silent(After(s, steps).tasks)
    decreases |steps|
  {
    if steps != [] { PassiveStaysSilent(Apply(s, steps[0]), steps[1..]); }
  }

  /** A passive run never has a task that touches the target, or queries names of its own. */
  lemma PassiveRunsSendNothing(st: Start, run: Run, text: NetAddr.Addr -> string, steps: seq<Step>)
    requires run.passive && Initial(st, run, text).Begun?
    ensures Silent(After(StateOf(run, Initial(st, run, text).tasks), steps).tasks)
  {
    var tasks := Initial(st, run, text).tasks;
    forall i | 0 <= i < |tasks| ensures Quiet(tasks[i].stage) && tasks[i].stage != DnsBrute {
      BegunFrom(st, run, text, i);
      StartSpecsAre(st, run.passive, text, i);
    }
    PassiveStaysSilent(StateOf(run, tasks), steps);
  }
}
