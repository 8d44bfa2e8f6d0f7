/** What holds after any one tick, whatever the state it starts from. */
module PlannerTick {
  import opened Options
  import opened Text
  import opened Targets
  import opened Summary
  import opened Planner
  import opened PlannerFacts
  import opened PlannerAuth
  import Guard

  /** r is tasks with new ones behind them, none of which has run yet, and all of which send traffic. */
  predicate Grows(tasks: seq<Task>, r: seq<Task>) {
    && |tasks| <= |r| && r[..|tasks|] == tasks
    && forall i :: |tasks| <= i < |r| ==>
         r[i].status.Pending? && r[i].result == EMPTY && r[i].stage.SendsTrafficToTarget()
  }

  lemma GrowsTwice(a: seq<Task>, b: seq<Task>, c: seq<Task>)
    requires Grows(a, b) && Grows(b, c)
    ensures Grows(a, c)
  {
    assert c[..|a|] == b[..|a|];
    forall i | |a| <= i < |c| ensures c[i].status.Pending? && c[i].result == EMPTY && c[i].stage.SendsTrafficToTarget() {
      if i < |b| { assert c[i] == c[..|b|][i] == b[i]; }
    }
  }

  lemma GrowsKeeps(tasks: seq<Task>, r: seq<Task>, i: nat)
    requires Grows(tasks, r) && i < |tasks|
    ensures r[i] == tasks[i]
  {
    assert r[i] == r[..|tasks|][i];
  }

  /** What planning appends: one task per spec, on the pool of its class. */
  lemma PlanAppends(tasks: seq<Task>, specs: seq<Spec>, run: Run, r: seq<Task>)
    requires Plan(tasks, specs, run) == Some(r)
    ensures |r| == |tasks| + |specs| && r[..|tasks|] == tasks
    ensures forall i :: 0 <= i < |specs| ==> r[|tasks| + i] == TaskOf(RoutedSpec(specs[i], run))
    ensures run.exitPool.None? ==> forall i :: 0 <= i < |specs| ==> !specs[i].stage.SendsTrafficToTarget()
  {
  }

  lemma PlanGrows(tasks: seq<Task>, specs: seq<Spec>, run: Run, r: seq<Task>)
    requires Plan(tasks, specs, run) == Some(r)
    requires forall i :: 0 <= i < |specs| ==> specs[i].stage.SendsTrafficToTarget()
    ensures Grows(tasks, r) && |r| == |tasks| + |specs|
    ensures forall i :: |tasks| <= i < |r| ==> r[i] == TaskOf(RoutedSpec(specs[i - |tasks|], run))
    ensures |specs| > 0 ==> run.exitPool.Some?
  {
    PlanAppends(tasks, specs, run, r);
    assert |specs| > 0 ==> specs[0].stage.SendsTrafficToTarget();
    forall i | |tasks| <= i < |r| ensures r[i] == TaskOf(RoutedSpec(specs[i - |tasks|], run)) {
      assert r[|tasks| + (i - |tasks|)] == TaskOf(RoutedSpec(specs[i - |tasks|], run));
    }
  }

  // ---- the three phases ----

  lemma ScanGrows(tasks: seq<Task>, env: Env, run: Run, r: seq<Task>)
    requires ScanNewAddresses(tasks, env, run) == Some(r)
    ensures Grows(tasks, r)
    ensures forall i :: |tasks| <= i < |r| ==>
              && i - |tasks| < |ScanSpecs(tasks, env)|
              && r[i] == TaskOf(RoutedSpec(ScanSpecs(tasks, env)[i - |tasks|], run))
    ensures Found(tasks) != map[] ==> |r| == |tasks| + |ScanSpecs(tasks, env)|
    ensures |r| > |tasks| ==> run.exitPool.Some?
  {
    if Found(tasks) != map[] {
      ScanSpecsPartition(tasks, env);
      forall i | 0 <= i < |ScanSpecs(tasks, env)| ensures ScanSpecs(tasks, env)[i].stage.PortScan? {
        var sp := ScanSpecs(tasks, env)[i];
        assert BatchOk(sp, sp.target.ports, Found(tasks));
      }
      PlanGrows(tasks, ScanSpecs(tasks, env), run, r);
    }
  }

  function SpecKey(sp: Spec): string { EndpointKey(sp.target.ip, sp.target.port) }

  function KeysOf(specs: seq<Spec>): seq<string> {
    seq(|specs|, i requires 0 <= i < |specs| => SpecKey(specs[i]))
  }

  /** Each new key once, none of them known before, and nothing else seen. */
  predicate KeysOk(keys: seq<string>, seen: set<string>, already: set<string>) {
    && seen == already + Elements(keys)
    && (forall i :: 0 <= i < |keys| ==> keys[i] !in already)
    && (forall i, j :: 0 <= i < j < |keys| ==> keys[i] != keys[j])
  }

  /** While probes are collected: what is seen is what was probed before and what is planned now, and
      nothing is planned twice. */
  predicate ProbingOk(p: Probing, already: set<string>) {
    KeysOk(KeysOf(p.specs), p.seen, already) && forall i :: 0 <= i < |p.specs| ==> IsProbe(p.specs[i])
  }

  predicate IsProbe(sp: Spec) {
    sp.stage.ServiceProbe? && sp.target == EndpointTarget(sp.target.ip, sp.target.port)
  }

  lemma KeysNext(keys: seq<string>, seen: set<string>, already: set<string>, key: string)
    requires KeysOk(keys, seen, already) && key !in seen
    ensures KeysOk(keys + [key], seen + {key}, already)
  {
    assert forall i :: 0 <= i < |keys| ==> keys[i] in Elements(keys);
  }

  lemma ProbingNext(p: Probing, already: set<string>, sv: IPPort, o: Origin, key: string)
    requires ProbingOk(p, already) && key == EndpointKey(sv.ip, sv.port) && key !in p.seen
    ensures ProbingOk(Probing(p.specs + [ProbeSpec(sv, o)], p.seen + {key}), already)
  {
    KeysNext(KeysOf(p.specs), p.seen, already, key);
    assert KeysOf(p.specs + [ProbeSpec(sv, o)]) == KeysOf(p.specs) + [key];
  }

  lemma {:induction false} AddServicesOk(p: Probing, already: set<string>, services: seq<IPPort>, o: Origin)
    requires ProbingOk(p, already)
    ensures ProbingOk(AddServices(p, services, o), already)
    decreases |services|
  {
    if services != [] {
      var n := |services| - 1;
      var sv := services[n];
      var q := AddServices(p, services[..n], o);
      AddServicesOk(p, already, services[..n], o);
      if EndpointKey(sv.ip, sv.port) !in q.seen { ProbingNext(q, already, sv, o, EndpointKey(sv.ip, sv.port)); }
    }
  }

  /** What is seen stays seen, and every service given is. */
  lemma {:induction false} AddServicesSees(p: Probing, services: seq<IPPort>, o: Origin, sv: IPPort, key: string)
    requires key == EndpointKey(sv.ip, sv.port) && (sv in services || key in p.seen)
    ensures key in AddServices(p, services, o).seen
    decreases |services|
  {
    if services != [] && services[|services| - 1] != sv {
      AddServicesSees(p, services[..|services| - 1], o, sv, key);
    }
  }

  lemma {:induction false} ProbesSee(tasks: seq<Task>, already: set<string>, i: nat, sv: IPPort, key: string)
    requires i < |tasks| && ScanOver(tasks[i]) && sv in tasks[i].result.services && key == EndpointKey(sv.ip, sv.port)
    ensures key in Probes(tasks, already).seen
    decreases |tasks|
  {
    var n := |tasks| - 1;
    var p, t := Probes(tasks[..n], already), tasks[n];
    if i < n {
      assert tasks[..n][i] == tasks[i];
      ProbesSee(tasks[..n], already, i, sv, key);
    }
    if ScanOver(t) { AddServicesSees(p, t.result.services, Origin0(t.origins), sv, key); }
  }

  lemma {:induction false} ProbingIsOk(tasks: seq<Task>, already: set<string>)
    ensures ProbingOk(Probes(tasks, already), already)
    decreases |tasks|
  {
    if tasks != [] {
      var n := |tasks| - 1;
      var t := tasks[n];
      ProbingIsOk(tasks[..n], already);
      if ScanOver(t) { AddServicesOk(Probes(tasks[..n], already), already, t.result.services, Origin0(t.origins)); }
    }
  }

  lemma ProbesOk(tasks: seq<Task>, already: set<string>)
    ensures ProbingOk(Probes(tasks, already), already)
    ensures forall i, sv :: 0 <= i < |tasks| && ScanOver(tasks[i]) && sv in tasks[i].result.services ==>
              EndpointKey(sv.ip, sv.port) in Probes(tasks, already).seen
  {
    ProbingIsOk(tasks, already);
    forall i, sv | 0 <= i < |tasks| && ScanOver(tasks[i]) && sv in tasks[i].result.services
      ensures EndpointKey(sv.ip, sv.port) in Probes(tasks, already).seen
    {
      ProbesSee(tasks, already, i, sv, EndpointKey(sv.ip, sv.port));
    }
  }

  lemma ProbeGrows(tasks: seq<Task>, run: Run, r: seq<Task>)
    requires ProbeNewServices(tasks, run) == Some(r)
    ensures Grows(tasks, r)
    ensures
      var specs := Probes(tasks, Probed(tasks)).specs;
      && |r| == |tasks| + |specs|
      && forall i :: |tasks| <= i < |r| ==> r[i] == TaskOf(RoutedSpec(specs[i - |tasks|], run))
    ensures |r| > |tasks| ==> run.exitPool.Some?
  {
    ProbesOk(tasks, Probed(tasks));
    PlanGrows(tasks, Probes(tasks, Probed(tasks)).specs, run, r);
  }

  predicate IsWebStage(stage: Stage) {
    stage.TechDetect? || stage.Screenshot? || stage.DirBrute? || stage.VulnCheck?
  }

  lemma {:induction false} TargetSpecsWeb(env: Env, targets: seq<Target>, o: Origin)
    ensures forall i :: 0 <= i < |TargetSpecs(env, targets, o)| ==> IsWebStage(TargetSpecs(env, targets, o)[i].stage)
    ensures targets != [] ==> TargetSpecs(env, targets, o) != [] && TargetSpecs(env, targets, o)[0].stage.TechDetect?
    decreases |targets|
  {
    if targets != [] {
      TargetSpecsWeb(env, targets[..|targets| - 1], o);
    }
  }

  lemma {:induction false} UrlSpecsWeb(env: Env, urls: seq<string>, o: Origin)
    ensures forall i :: 0 <= i < |UrlSpecs(env, urls, o)| ==> IsWebStage(UrlSpecs(env, urls, o)[i].stage)
    ensures urls != [] ==> UrlSpecs(env, urls, o) != [] && UrlSpecs(env, urls, o)[0].stage.TechDetect?
    decreases |urls|
  {
    if urls != [] {
      UrlSpecsWeb(env, urls[..|urls| - 1], o);
      TargetSpecsWeb(env, TargetsFor(env, urls[|urls| - 1]), o);
    }
  }

  /** Some probe has reported a live web endpoint. */
  predicate WebFound(tasks: seq<Task>) {
    exists i :: 0 <= i < |tasks| && tasks[i].stage.ServiceProbe? && tasks[i].result.webURLs != []
  }

  lemma {:induction false} PostProbeSpecsWeb(env: Env, tasks: seq<Task>)
    ensures forall i :: 0 <= i < |PostProbeSpecs(env, tasks)| ==> IsWebStage(PostProbeSpecs(env, tasks)[i].stage)
    ensures WebFound(tasks) <==> PostProbeSpecs(env, tasks) != []
    ensures PostProbeSpecs(env, tasks) != [] ==> PostProbeSpecs(env, tasks)[0].stage.TechDetect?
    decreases |tasks|
  {
    if tasks != [] {
      var n := |tasks| - 1;
      PostProbeSpecsWeb(env, tasks[..n]);
      UrlSpecsWeb(env, tasks[n].result.webURLs, Origin0(tasks[n].origins));
      assert forall i :: 0 <= i < n ==> tasks[..n][i] == tasks[i];
      if WebFound(tasks[..n]) {
        var i :| 0 <= i < n && tasks[..n][i].stage.ServiceProbe? && tasks[..n][i].result.webURLs != [];
        assert tasks[i].stage.ServiceProbe?;
      }
    }
  }

  lemma PostGrows(tasks: seq<Task>, env: Env, run: Run, r: seq<Task>)
    requires MaybePostProbe(tasks, env, run) == Some(r)
    ensures Grows(tasks, r)
    ensures forall i :: |tasks| <= i < |r| ==> IsWebStage(r[i].stage) && r[i].pool == run.exitPool
    ensures |r| > |tasks| ==> run.exitPool.Some? && !StageExists(tasks, TechDetect) && r[|tasks|].stage.TechDetect?
    ensures r == tasks ==> StageExists(tasks, TechDetect) || StageOutstanding(tasks, ServiceProbe) || !WebFound(tasks)
  {
    if !StageExists(tasks, TechDetect) && !StageOutstanding(tasks, ServiceProbe) {
      PostProbeSpecsWeb(env, tasks);
      PlanGrows(tasks, PostProbeSpecs(env, tasks), run, r);
    }
  }

  // ---- the whole tick ----

  lemma TickGrows(tasks: seq<Task>, env: Env, run: Run)
    ensures Grows(tasks, Advance(tasks, env, run).tasks)
  {
    if !run.passive {
      var a := ScanNewAddresses(tasks, env, run);
      if a.Some? {
        ScanGrows(tasks, env, run, a.value);
        var b := ProbeNewServices(a.value, run);
        if b.Some? {
          ProbeGrows(a.value, run, b.value);
          GrowsTwice(tasks, a.value, b.value);
          var c := MaybePostProbe(b.value, env, run);
          if c.Some? {
            PostGrows(b.value, env, run, c.value);
            GrowsTwice(tasks, b.value, c.value);
          }
        }
      }
    }
  }

  /** t is a port scan of the address, alone or among others. */
  predicate InPortScan(t: Task, ip: string) {
    t.stage == PortScan && (ip in t.target.ips || (ip != "" && ip == t.target.ip))
  }

  predicate InAnyScan(tasks: seq<Task>, ip: string) { exists i :: 0 <= i < |tasks| && InPortScan(tasks[i], ip) }

  lemma ScannedExactly(tasks: seq<Task>, ip: string)
    ensures ip in Scanned(tasks) <==> InAnyScan(tasks, ip)
  {
    ScannedIs(tasks, ip);
    forall i | 0 <= i < |tasks| ensures ip in ScannedBy(tasks[i]) <==> InPortScan(tasks[i], ip) {
    }
  }

  lemma GrowsScanned(tasks: seq<Task>, r: seq<Task>, ip: string)
    requires Grows(tasks, r) && ip in Scanned(tasks)
    ensures ip in Scanned(r)
  {
    ScannedIs(tasks, ip);
    ScannedIs(r, ip);
    var i :| 0 <= i < |tasks| && ip in ScannedBy(tasks[i]);
    GrowsKeeps(tasks, r, i);
  }

  lemma GrowsFound(tasks: seq<Task>, r: seq<Task>, ip: string, o: Origin)
    requires Grows(tasks, r)
    ensures FoundByAny(tasks, ip) <==> FoundByAny(r, ip)
    ensures Serves(tasks, ip, o) <==> Serves(r, ip, o)
  {
    forall i | 0 <= i < |tasks| ensures r[i] == tasks[i] { GrowsKeeps(tasks, r, i); }
    if FoundByAny(tasks, ip) {
      var i :| 0 <= i < |tasks| && Reports(tasks[i], ip);
      assert Reports(r[i], ip);
    }
    if FoundByAny(r, ip) {
      var i :| 0 <= i < |r| && Reports(r[i], ip);
      assert Reports(tasks[i], ip);
    }
    if Serves(tasks, ip, o) {
      var i :| 0 <= i < |tasks| && ServesVia(tasks[i], ip, o);
      assert ServesVia(r[i], ip, o);
    }
    if Serves(r, ip, o) {
      var i :| 0 <= i < |r| && ServesVia(r[i], ip, o);
      assert Reports(r[i], ip);
      assert ServesVia(tasks[i], ip, o);
    }
  }

  /** An address that may be scanned: it parses, it is in no private block unless those are opened, and
      no target of the company excludes it. */
  predicate Scannable(env: Env, ip: string) {
    && ip in env.addrs
    && (env.allowPrivate || !Guard.Covered(Guard.PRIVATE_BLOCKS, env.addrs[ip]))
    && (forall t :: t in env.scope && t.mode == Exclude && t.value in env.prefixes ==>
          !Guard.PrefixContains(env.prefixes[t.value], env.addrs[ip]))
  }

  lemma AllowedExactlyScannable(env: Env, ip: string)
    ensures GuardDecision(env, ip).Allowed? <==> Scannable(env, ip)
  {
    if ip in env.addrs { Guard.ExcludedAnywhere(env.scope, env.prefixes, env.addrs[ip]); }
  }

  /** The ports to scan on a CDN's address: those the run's parameters name, or else the two of the web. */
  function PortsForCdn(env: Env): string {
    if "cdn_ports" in env.params && |env.params["cdn_ports"]| > 0 then env.params["cdn_ports"] else "80,443"
  }

  /** The address is a CDN's, and those are not scanned like others. */
  predicate OnCdn(env: Env, ip: string) { ip in env.shared && PortsForCdn(env) != "all" }

  /** Queued for scanning, or not to be scanned: no run target that the company sanctions led to it, it is a CDN's and
      those are left out, or the scope guard refuses it. */
  ghost predicate Accounted(env: Env, tasks: seq<Task>, ip: string) {
    || InAnyScan(tasks, ip)
    || (forall o :: Serves(tasks, ip, o) ==> !Sanctioned(env, o))
    || (ip in env.shared && PortsForCdn(env) == "none")
    || !Scannable(env, ip)
  }

  /** No origin of the address is permitted, so none that it serves is sanctioned. */
  lemma Unsanctioned(tasks: seq<Task>, env: Env, r: seq<Task>, ip: string, o: Origin)
    requires Grows(tasks, r) && ip in Found(tasks) && !AnyPermitted(Auth(env), Found(tasks)[ip]) && Serves(r, ip, o)
    ensures !Sanctioned(env, o)
  {
    var origins := Found(tasks)[ip];
    GrowsFound(tasks, r, ip, o);
    FoundIs(tasks, ip, o);
    var k :| 0 <= k < |origins| && origins[k] == o;
    assert !Permits(Auth(env), origins[k]);
    PermittedExactlySanctioned(env, o);
  }

  lemma RefusedIsAccounted(env: Env, tasks: seq<Task>, ip: string, verdict: Admission, origins: seq<Origin>)
    requires verdict == Admit(env, Scanned(tasks), ip, origins) && (verdict.CdnRefused? || verdict.GuardRefused?)
    ensures (ip in env.shared && PortsForCdn(env) == "none") || !Scannable(env, ip)
  {
    AllowedExactlyScannable(env, ip);
  }

  lemma ScanCovers(tasks: seq<Task>, env: Env, run: Run, r: seq<Task>, ip: string)
    requires ScanNewAddresses(tasks, env, run) == Some(r) && FoundByAny(tasks, ip)
    ensures Accounted(env, r, ip)
  {
    FoundIs(tasks, ip, NIL);
    ScanGrows(tasks, env, run, r);
    var origins := Found(tasks)[ip];
    var verdict := Admit(env, Scanned(tasks), ip, origins);
    if verdict.Known? {
      GrowsScanned(tasks, r, ip);
      ScannedExactly(r, ip);
    } else if verdict.Unauthorized? {
      forall o | Serves(r, ip, o) ensures !Sanctioned(env, o) { Unsanctioned(tasks, env, r, ip, o); }
    } else if verdict.Fresh? || verdict.Edge? {
      ScanQueues(tasks, env, run, r, ip, verdict);
      ScannedExactly(r, ip);
    } else {
      RefusedIsAccounted(env, tasks, ip, verdict, origins);
    }
  }

  lemma ScanQueues(tasks: seq<Task>, env: Env, run: Run, r: seq<Task>, ip: string, verdict: Admission)
    requires ScanNewAddresses(tasks, env, run) == Some(r) && (verdict.Fresh? || verdict.Edge?)
    requires ip in Admitted(env, tasks, Found(tasks), verdict)
    ensures ip in Scanned(r)
  {
    var specs := ScanSpecs(tasks, env);
    var own, edge := Admitted(env, tasks, Found(tasks), Fresh), Admitted(env, tasks, Found(tasks), Edge);
    ScanSpecsPartition(tasks, env);
    assert ip in Elements(SortedOf(own)) || ip in Elements(SortedOf(edge));
    assert ip in AddressesOfSpecs(specs);
    AddressInSomeSpec(specs, ip);
    var i :| 0 <= i < |specs| && ip in specs[i].target.ips;
    assert BatchOk(specs[i], specs[i].target.ports, Found(tasks));
    ScanGrows(tasks, env, run, r);
    assert r[|tasks| + i] == TaskOf(RoutedSpec(specs[i], run));
    ScannedIs(r, ip);
    assert ip in ScannedBy(r[|tasks| + i]);
  }

  predicate ProbeOf(t: Task, sv: IPPort) {
    t.stage.ServiceProbe? && t.target.ip == sv.ip && t.target.port == sv.port
  }

  predicate ServiceProbed(tasks: seq<Task>, sv: IPPort) {
    exists i :: 0 <= i < |tasks| && ProbeOf(tasks[i], sv)
  }

  lemma ProbeCovers(tasks: seq<Task>, run: Run, r: seq<Task>, k: nat, sv: IPPort)
    requires ProbeNewServices(tasks, run) == Some(r)
    requires k < |tasks| && ScanOver(tasks[k]) && sv in tasks[k].result.services
    ensures ServiceProbed(r, sv)
  {
    var already := Probed(tasks);
    var p := Probes(tasks, already);
    var key := EndpointKey(sv.ip, sv.port);
    ProbesOk(tasks, already);
    ProbeGrows(tasks, run, r);
    assert key in p.seen;
    if key in already {
      var i := ProbedFrom(tasks, key);
      EndpointKeyInjective(sv.ip, sv.port, tasks[i].target.ip, tasks[i].target.port);
      GrowsKeeps(tasks, r, i);
      assert ProbeOf(r[i], sv);
    } else {
      var i :| 0 <= i < |KeysOf(p.specs)| && KeysOf(p.specs)[i] == key;
      EndpointKeyInjective(sv.ip, sv.port, p.specs[i].target.ip, p.specs[i].target.port);
      assert r[|tasks| + i] == TaskOf(RoutedSpec(p.specs[i], run));
      assert ProbeOf(r[|tasks| + i], sv);
    }
  }

  lemma GrowsAccounted(env: Env, tasks: seq<Task>, r: seq<Task>, ip: string)
    requires Grows(tasks, r) && Accounted(env, tasks, ip)
    ensures Accounted(env, r, ip)
  {
    ScannedExactly(tasks, ip);
    ScannedExactly(r, ip);
    if ip in Scanned(tasks) {
      GrowsScanned(tasks, r, ip);
    } else {
      forall o ensures Serves(tasks, ip, o) <==> Serves(r, ip, o) { GrowsFound(tasks, r, ip, o); }
    }
  }

  lemma GrowsProbed(tasks: seq<Task>, r: seq<Task>, sv: IPPort)
    requires Grows(tasks, r) && ServiceProbed(tasks, sv)
    ensures ServiceProbed(r, sv)
  {
    var i :| 0 <= i < |tasks| && ProbeOf(tasks[i], sv);
    GrowsKeeps(tasks, r, i);
    assert ProbeOf(r[i], sv);
  }

  /** After every tick that does not fail, each address a finished discovery task reported is queued or
      has a reason not to be. */
  lemma TickCoversAddresses(tasks: seq<Task>, env: Env, run: Run, ip: string)
    requires !run.passive && !Advance(tasks, env, run).outcome.Errored?
    requires FoundByAny(Advance(tasks, env, run).tasks, ip)
    ensures Accounted(env, Advance(tasks, env, run).tasks, ip)
  {
    var a := ScanNewAddresses(tasks, env, run).value;
    var b := ProbeNewServices(a, run).value;
    var c := MaybePostProbe(b, env, run).value;
    TickGrows(tasks, env, run);
    GrowsFound(tasks, c, ip, NIL);
    ScanCovers(tasks, env, run, a, ip);
    ProbeGrows(a, run, b);
    PostGrows(b, env, run, c);
    GrowsTwice(a, b, c);
    GrowsAccounted(env, a, c, ip);
  }

  /** ... and every service of a port scan that is over, done or failed, has a probe. */
  lemma TickCoversServices(tasks: seq<Task>, env: Env, run: Run, k: nat, sv: IPPort)
    requires !run.passive && !Advance(tasks, env, run).outcome.Errored?
    requires
      var r := Advance(tasks, env, run).tasks;
      k < |r| && ScanOver(r[k]) && sv in r[k].result.services
    ensures ServiceProbed(Advance(tasks, env, run).tasks, sv)
  {
    var a := ScanNewAddresses(tasks, env, run).value;
    var b := ProbeNewServices(a, run).value;
    var c := MaybePostProbe(b, env, run).value;
    ScanGrows(tasks, env, run, a);
    ProbeGrows(a, run, b);
    PostGrows(b, env, run, c);
    GrowsTwice(a, b, c);
    assert k < |a|;
    GrowsKeeps(a, c, k);
    ProbeCovers(a, run, b, k, sv);
    GrowsProbed(b, c, sv);
  }

  /** A run finishes only with nothing outstanding, every reported address accounted for, every service
      probed, and the web stages planned if any probe found a web endpoint. */
  lemma FinishedMeansCovered(tasks: seq<Task>, env: Env, run: Run)
    requires !run.passive && Advance(tasks, env, run).outcome.Finished?
    ensures
      var r := Advance(tasks, env, run).tasks;
      && r == tasks
      && (forall i :: 0 <= i < |r| ==> !r[i].Outstanding())
      && (forall ip :: FoundByAny(r, ip) ==> Accounted(env, r, ip))
      && (forall k, sv :: 0 <= k < |r| && ScanOver(r[k]) && sv in r[k].result.services ==> ServiceProbed(r, sv))
      && (WebFound(r) ==> StageExists(r, TechDetect))
  {
    FinishedAddsNothing(tasks, env, run);
    forall ip | FoundByAny(tasks, ip) ensures Accounted(env, tasks, ip) { TickCoversAddresses(tasks, env, run, ip); }
    forall k, sv | 0 <= k < |tasks| && ScanOver(tasks[k]) && sv in tasks[k].result.services ensures ServiceProbed(tasks, sv) {
      TickCoversServices(tasks, env, run, k, sv);
    }
    FinishedWeb(tasks, env, run);
  }

  lemma TickVerdict(tasks: seq<Task>, env: Env, run: Run)
    requires !Advance(tasks, env, run).outcome.Errored?
    ensures Advance(tasks, env, run) == Verdict(Advance(tasks, env, run).tasks)
  {
  }

  lemma NewIsOutstanding(tasks: seq<Task>, r: seq<Task>)
    requires Grows(tasks, r) && |r| > |tasks|
    ensures AnyOutstanding(r)
  {
    assert r[|tasks|].Outstanding();
  }

  lemma FinishedAddsNothing(tasks: seq<Task>, env: Env, run: Run)
    requires !run.passive && Advance(tasks, env, run).outcome.Finished?
    ensures Advance(tasks, env, run).tasks == tasks && forall i :: 0 <= i < |tasks| ==> !tasks[i].Outstanding()
  {
    var r := Advance(tasks, env, run).tasks;
    TickGrows(tasks, env, run);
    TickVerdict(tasks, env, run);
    if |r| > |tasks| { NewIsOutstanding(tasks, r); }
    assert r[..|r|] == r;
  }

  lemma FinishedWeb(tasks: seq<Task>, env: Env, run: Run)
    requires !run.passive && Advance(tasks, env, run).outcome.Finished?
    ensures
      var r := Advance(tasks, env, run).tasks;
      WebFound(r) ==> StageExists(r, TechDetect)
  {
    var a := ScanNewAddresses(tasks, env, run).value;
    var b := ProbeNewServices(a, run).value;
    var c := MaybePostProbe(b, env, run).value;
    PostGrows(b, env, run, c);
    if |c| > |b| {
      assert c[|b|].Outstanding();
    } else {
      assert c == b;
    }
  }

  // ---- who is scanned ----

  ghost predicate SanctionedVia(env: Env, tasks: seq<Task>, ip: string, o: Origin) {
    Serves(tasks, ip, o) && Sanctioned(env, o)
  }

  /** Every address any tick queues was found for a run target the company authorized, passed the guard,
      was not queued before, and is scanned on the CDN's ports exactly when it is a CDN's. */
  lemma TickAdmitsOnlySanctioned(tasks: seq<Task>, env: Env, run: Run, i: nat, ip: string)
    requires
      var r := Advance(tasks, env, run).tasks;
      |tasks| <= i < |r| && r[i].stage.PortScan? && ip in r[i].target.ips
    ensures
      var t := Advance(tasks, env, run).tasks[i];
      && (exists o :: SanctionedVia(env, tasks, ip, o))
      && Scannable(env, ip)
      && !InAnyScan(tasks, ip)
      && |t.target.ips| <= SCAN_BATCH_SIZE && t.target.ip == ""
      && (if OnCdn(env, ip) then t.target.ports == PortsForCdn(env) != "none" else t.target.ports == "")
  {
    var a := NewScansAreScanned(tasks, env, run, i);
    ScanGrows(tasks, env, run, a);
    QueuedAdmitted(tasks, env, i - |tasks|, ip);
    AllowedExactlyScannable(env, ip);
    ScannedExactly(tasks, ip);
  }

  /** Port scans come from the first phase of a tick. */
  lemma NewScansAreScanned(tasks: seq<Task>, env: Env, run: Run, i: nat) returns (a: seq<Task>)
    requires
      var r := Advance(tasks, env, run).tasks;
      |tasks| <= i < |r| && r[i].stage.PortScan?
    ensures ScanNewAddresses(tasks, env, run) == Some(a) && i < |a| && a[i] == Advance(tasks, env, run).tasks[i]
  {
    a := ScanNewAddresses(tasks, env, run).value;
    var r := Advance(tasks, env, run).tasks;
    var b := ProbeNewServices(a, run);
    if b.Some? {
      ProbeGrows(a, run, b.value);
      ProbesOk(a, Probed(a));
      var specs := Probes(a, Probed(a)).specs;
      forall j | |a| <= j < |b.value| ensures b.value[j].stage.ServiceProbe? {
        assert IsProbe(specs[j - |a|]);
      }
      var c := MaybePostProbe(b.value, env, run);
      if c.Some? {
        PostGrows(b.value, env, run, c.value);
        assert i < |b.value|;
        GrowsKeeps(b.value, c.value, i);
      }
      assert r[i] == b.value[i];
      assert i < |a|;
      GrowsKeeps(a, b.value, i);
    }
  }

  lemma {:induction false} BatchSpecAddresses(ips: seq<string>, ports: string, found: map<string, seq<Origin>>, i: nat, ip: string)
    requires i < |BatchSpecs(ips, ports, found)| && ip in BatchSpecs(ips, ports, found)[i].target.ips
    ensures ip in ips && BatchSpecs(ips, ports, found)[i].target.ports == ports
    decreases |ips|
  {
    var k := if |ips| < SCAN_BATCH_SIZE then |ips| else SCAN_BATCH_SIZE;
    var head := if BatchOrigins(ips[..k], found) == [] then [] else [BatchSpec(ips[..k], ports, BatchOrigins(ips[..k], found))];
    assert BatchSpecs(ips, ports, found) == head + BatchSpecs(ips[k..], ports, found);
    if i >= |head| { BatchSpecAddresses(ips[k..], ports, found, i - |head|, ip); }
  }

  /** The verdict under which a queued address was admitted, and the ports that go with it. */
  lemma QueuedUnder(tasks: seq<Task>, env: Env, i: nat, ip: string) returns (verdict: Admission)
    requires i < |ScanSpecs(tasks, env)| && ip in ScanSpecs(tasks, env)[i].target.ips
    ensures (verdict.Fresh? || verdict.Edge?) && ip in Admitted(env, tasks, Found(tasks), verdict)
    ensures ScanSpecs(tasks, env)[i].target.ports == if verdict.Fresh? then "" else env.CdnPorts()
  {
    var found := Found(tasks);
    var own := BatchSpecs(SortedOf(Admitted(env, tasks, found, Fresh)), "", found);
    if i < |own| {
      verdict := Fresh;
      BatchSpecAddresses(SortedOf(Admitted(env, tasks, found, Fresh)), "", found, i, ip);
    } else {
      verdict := Edge;
      BatchSpecAddresses(SortedOf(Admitted(env, tasks, found, Edge)), env.CdnPorts(), found, i - |own|, ip);
    }
    InSorted(Admitted(env, tasks, found, verdict), ip);
  }

  lemma AdmittedMeans(tasks: seq<Task>, env: Env, ip: string, verdict: Admission)
    requires (verdict.Fresh? || verdict.Edge?) && ip in Admitted(env, tasks, Found(tasks), verdict)
    ensures ip in Found(tasks) && AnyPermitted(Auth(env), Found(tasks)[ip])
    ensures GuardDecision(env, ip).Allowed? && ip !in Scanned(tasks)
    ensures verdict.Edge? <==> OnCdn(env, ip)
    ensures verdict.Edge? ==> env.CdnPorts() != "none"
  {
  }

  lemma QueuedAdmitted(tasks: seq<Task>, env: Env, i: nat, ip: string)
    requires i < |ScanSpecs(tasks, env)| && ip in ScanSpecs(tasks, env)[i].target.ips
    ensures
      var sp := ScanSpecs(tasks, env)[i];
      && BatchOk(sp, sp.target.ports, Found(tasks))
      && (exists o :: SanctionedVia(env, tasks, ip, o))
      && GuardDecision(env, ip).Allowed? && ip !in Scanned(tasks)
      && (if OnCdn(env, ip) then sp.target.ports == env.CdnPorts() && env.CdnPorts() != "none" else sp.target.ports == "")
  {
    ScanSpecsPartition(tasks, env);
    var verdict := QueuedUnder(tasks, env, i, ip);
    AdmittedMeans(tasks, env, ip, verdict);
    FoundOrigin(tasks, env, ip);
  }

  lemma InSorted(names: set<string>, x: string)
    requires x in SortedOf(names)
    ensures x in names
  {
    assert x in Elements(SortedOf(names));
  }

  lemma FoundOrigin(tasks: seq<Task>, env: Env, ip: string)
    requires ip in Found(tasks) && AnyPermitted(Auth(env), Found(tasks)[ip])
    ensures exists o :: SanctionedVia(env, tasks, ip, o)
  {
    var k :| 0 <= k < |Found(tasks)[ip]| && Permits(Auth(env), Found(tasks)[ip][k]);
    var o := Found(tasks)[ip][k];
    FoundIs(tasks, ip, o);
    PermittedExactlySanctioned(env, o);
    assert SanctionedVia(env, tasks, ip, o);
  }
}
