/** Probes and web stages: exactly which of them a tick plans, and against what. */
module PlannerWave {
  import opened Options
  import opened Text
  import opened Summary
  import opened Planner
  import opened PlannerFacts
  import opened PlannerTick
  import opened PlannerSettles
  import opened PlannerStart
  import LeaseTable

  predicate IsOver(t: Task) {
    t.status == LeaseTable.Done || t.status == LeaseTable.Failed || t.status == LeaseTable.Cancelled
  }

  // ---- probes ----

  /** Task t is a port scan that ran, whether it ended well or not, and reports the service. */
  predicate ReportsOpen(t: Task, ip: string, port: int) {
    && t.stage == PortScan && (t.status == LeaseTable.Done || t.status == LeaseTable.Failed)
    && exists i :: 0 <= i < |t.result.services| && t.result.services[i].ip == ip && t.result.services[i].port == port
  }

  predicate ProbeFrom(sp: Spec, tasks: seq<Task>, k: int) {
    && 0 <= k < |tasks| && ReportsOpen(tasks[k], sp.target.ip, sp.target.port)
    && sp.origins == [if tasks[k].origins == [] then NIL else tasks[k].origins[0]]
  }

  predicate HasSource(sp: Spec, tasks: seq<Task>) { exists k :: 0 <= k < |tasks| && ProbeFrom(sp, tasks, k) }

  predicate ProbesFrom(specs: seq<Spec>, tasks: seq<Task>) {
    forall i :: 0 <= i < |specs| ==> HasSource(specs[i], tasks)
  }

  lemma {:induction false} AddServicesFrom(p: Probing, services: seq<IPPort>, tasks: seq<Task>, k: nat)
    requires k < |tasks| && ScanOver(tasks[k]) && services <= tasks[k].result.services && ProbesFrom(p.specs, tasks)
    ensures ProbesFrom(AddServices(p, services, Origin0(tasks[k].origins)).specs, tasks)
    decreases |services|
  {
    if services != [] {
      var n := |services| - 1;
      var o := Origin0(tasks[k].origins);
      AddServicesFrom(p, services[..n], tasks, k);
      assert services[n] == tasks[k].result.services[n];
      assert ProbeFrom(ProbeSpec(services[n], o), tasks, k);
      assert HasSource(ProbeSpec(services[n], o), tasks);
    }
  }

  lemma {:induction false} ProbesAreFrom(tasks: seq<Task>, already: set<string>, m: nat)
    requires m <= |tasks|
    ensures ProbesFrom(Probes(tasks[..m], already).specs, tasks)
    decreases m
  {
    if m > 0 {
      ProbesAreFrom(tasks, already, m - 1);
      assert tasks[..m][..m - 1] == tasks[..m - 1];
      if ScanOver(tasks[m - 1]) {
        AddServicesFrom(Probes(tasks[..m - 1], already), tasks[m - 1].result.services, tasks, m - 1);
      }
    }
  }

  /** Nothing is probed but services that a port scan of the run reports, each for the first target of one that
      does. */
  lemma ProbesOnlyReported(tasks: seq<Task>, run: Run, r: seq<Task>, i: nat) returns (k: nat)
    requires ProbeNewServices(tasks, run) == Some(r) && |tasks| <= i < |r|
    ensures r[i].stage == ServiceProbe && k < |tasks| && ReportsOpen(tasks[k], r[i].target.ip, r[i].target.port)
    ensures r[i].origins == if tasks[k].origins == [] || tasks[k].origins[0] == NIL then [] else [tasks[k].origins[0]]
    ensures r[i].target == EndpointTarget(r[i].target.ip, r[i].target.port) && r[i].pool == run.exitPool
  {
    var specs := Probes(tasks, Probed(tasks)).specs;
    ProbeGrows(tasks, run, r);
    ProbesOk(tasks, Probed(tasks));
    ProbesAreFrom(tasks, Probed(tasks), |tasks|);
    assert tasks[..|tasks|] == tasks;
    var sp := specs[i - |tasks|];
    assert IsProbe(sp) && HasSource(sp, tasks);
    k :| 0 <= k < |tasks| && ProbeFrom(sp, tasks, k);
    assert sp.origins[..0] == [] && StoredOrigins([]) == [];
  }

  /** And after a tick that succeeds every service that a port scan reports has a probe. */
  lemma TickProbesAllReported(tasks: seq<Task>, env: Env, run: Run, k: nat, ip: string, port: int)
    requires !run.passive && !Advance(tasks, env, run).outcome.Errored?
    requires k < |Advance(tasks, env, run).tasks| && ReportsOpen(Advance(tasks, env, run).tasks[k], ip, port)
    ensures
      var r := Advance(tasks, env, run).tasks;
      exists i :: 0 <= i < |r| && r[i].stage == ServiceProbe && r[i].target.ip == ip && r[i].target.port == port
  {
    var t := Advance(tasks, env, run).tasks[k];
    var i :| 0 <= i < |t.result.services| && t.result.services[i].ip == ip && t.result.services[i].port == port;
    TickCoversServices(tasks, env, run, k, t.result.services[i]);
  }

  // ---- when the web stages are planned ----

  predicate AllProbesOver(tasks: seq<Task>) {
    forall i :: 0 <= i < |tasks| && tasks[i].stage == ServiceProbe ==> IsOver(tasks[i])
  }

  /** There are no web stages yet, no probe is still to come or under way, and some probe reported a web endpoint. */
  predicate WaveDue(tasks: seq<Task>) {
    && (forall i :: 0 <= i < |tasks| ==> tasks[i].stage != TechDetect) && AllProbesOver(tasks)
    && exists i :: 0 <= i < |tasks| && tasks[i].stage == ServiceProbe && tasks[i].result.webURLs != []
  }

  /** Web stages are added exactly then. */
  lemma WavePlannedExactly(tasks: seq<Task>, env: Env, run: Run, r: seq<Task>)
    requires MaybePostProbe(tasks, env, run) == Some(r)
    ensures |r| > |tasks| <==> WaveDue(tasks)
  {
    PostProbeSpecsWeb(env, tasks);
    assert StageOutstanding(tasks, ServiceProbe) <==> !AllProbesOver(tasks);
    if !StageExists(tasks, TechDetect) && !StageOutstanding(tasks, ServiceProbe) {
      PlanAppends(tasks, PostProbeSpecs(env, tasks), run, r);
    }
  }

  /** A run is finished by a tick that fails nowhere exactly when it then has tasks and all are over. */
  lemma FinishedExactly(tasks: seq<Task>, env: Env, run: Run)
    requires !Advance(tasks, env, run).outcome.Errored?
    ensures
      var r := Advance(tasks, env, run).tasks;
      Advance(tasks, env, run).outcome == Finished <==> r != [] && forall i :: 0 <= i < |r| ==> IsOver(r[i])
  {
    TickVerdict(tasks, env, run);
  }

  // ---- when a tick fails ----

  ghost predicate AddressDue(tasks: seq<Task>, env: Env) {
    exists ip :: FoundByAny(tasks, ip) && !Accounted(env, tasks, ip)
  }

  /** Some service that a port scan reports has no probe that can be told to be its own. */
  predicate ServiceDue(tasks: seq<Task>) { !AllProbed(tasks) }

  lemma ScanSpecsDue(tasks: seq<Task>, env: Env, run: Run)
    ensures Found(tasks) != map[] && ScanSpecs(tasks, env) != [] <==> AddressDue(tasks, env)
  {
    if AddressDue(tasks, env) {
      var ip :| FoundByAny(tasks, ip) && !Accounted(env, tasks, ip);
      FoundIs(tasks, ip, NIL);
      var any := Run(false, Some(0), Some(0));
      if ScanSpecs(tasks, env) == [] {
        assert ScanNewAddresses(tasks, env, any) == Some(tasks);
        ScanCovers(tasks, env, any, tasks, ip);
      }
    } else {
      var any := Run(false, Some(0), Some(0));
      assert AllAccounted(env, tasks);
      if Found(tasks) != map[] && ScanSpecs(tasks, env) != [] {
        NoNewScans(tasks, env, any);
        PlanAppends(tasks, ScanSpecs(tasks, env), any, tasks);
      }
    }
  }

  lemma ProbesDue(tasks: seq<Task>)
    ensures Probes(tasks, Probed(tasks)).specs != [] <==> ServiceDue(tasks)
  {
    if AllProbed(tasks) {
      NoProbes(tasks, Probed(tasks));
    } else {
      ProbesOk(tasks, Probed(tasks));
    }
  }

  lemma PlanFailsExactly(tasks: seq<Task>, specs: seq<Spec>, run: Run)
    requires forall i :: 0 <= i < |specs| ==> specs[i].stage.SendsTrafficToTarget()
    ensures Plan(tasks, specs, run).None? <==> specs != [] && run.exitPool.None?
  {
    if specs != [] { assert specs[0].stage.SendsTrafficToTarget(); }
  }

  lemma ScanPhaseFailsExactly(tasks: seq<Task>, env: Env, run: Run)
    requires run.passivePool.Some?
    ensures ScanNewAddresses(tasks, env, run).None? <==> run.exitPool.None? && AddressDue(tasks, env)
  {
    ScanSpecsDue(tasks, env, run);
    ScanSpecsPartition(tasks, env);
    forall i | 0 <= i < |ScanSpecs(tasks, env)| ensures ScanSpecs(tasks, env)[i].stage.SendsTrafficToTarget() {
      assert BatchOk(ScanSpecs(tasks, env)[i], ScanSpecs(tasks, env)[i].target.ports, Found(tasks));
    }
    PlanFailsExactly(tasks, ScanSpecs(tasks, env), run);
  }

  lemma ProbePhaseFailsExactly(tasks: seq<Task>, run: Run)
    requires run.passivePool.Some?
    ensures ProbeNewServices(tasks, run).None? <==> AnyUnreadable(tasks) || (run.exitPool.None? && ServiceDue(tasks))
  {
    var specs := Probes(tasks, Probed(tasks)).specs;
    ProbesDue(tasks);
    ProbesOk(tasks, Probed(tasks));
    forall i | 0 <= i < |specs| ensures specs[i].stage.SendsTrafficToTarget() { assert IsProbe(specs[i]); }
    PlanFailsExactly(tasks, specs, run);
  }

  lemma WavePhaseFailsExactly(tasks: seq<Task>, env: Env, run: Run)
    requires run.passivePool.Some?
    ensures MaybePostProbe(tasks, env, run).None? <==> run.exitPool.None? && WaveDue(tasks)
  {
    PostProbeSpecsWeb(env, tasks);
    assert StageOutstanding(tasks, ServiceProbe) <==> !AllProbesOver(tasks);
    PlanFailsExactly(tasks, PostProbeSpecs(env, tasks), run);
  }

  lemma UnreadableSame(tasks: seq<Task>, a: seq<Task>)
    requires Grows(tasks, a) && forall i :: |tasks| <= i < |a| ==> a[i].stage != ServiceProbe
    ensures AnyUnreadable(tasks) <==> AnyUnreadable(a)
  {
    forall i | 0 <= i < |tasks| ensures a[i] == tasks[i] { GrowsKeeps(tasks, a, i); }
  }

  lemma ScansOnly(tasks: seq<Task>, env: Env, run: Run, a: seq<Task>)
    requires ScanNewAddresses(tasks, env, run) == Some(a)
    ensures Grows(tasks, a) && forall i :: |tasks| <= i < |a| ==> a[i].stage == PortScan
  {
    ScanGrows(tasks, env, run, a);
    ScanSpecsPartition(tasks, env);
    forall i | |tasks| <= i < |a| ensures a[i].stage == PortScan {
      var sp := ScanSpecs(tasks, env)[i - |tasks|];
      assert BatchOk(sp, sp.target.ports, Found(tasks));
    }
  }

  lemma PhaseAddsNothing(tasks: seq<Task>, r: seq<Task>, run: Run)
    requires Grows(tasks, r) && (|r| > |tasks| ==> run.exitPool.Some?) && run.exitPool.None?
    ensures r == tasks
  {
    assert r[..|r|] == r;
  }

  /** A tick of a run that is not passive fails exactly when the pool of the passive stages is missing, when a probe
      cannot be read back, or when there is anything to plan and the run has no exit pool. */
  lemma TickFailsExactly(tasks: seq<Task>, env: Env, run: Run)
    requires !run.passive
    ensures Advance(tasks, env, run).outcome == Errored <==>
            || run.passivePool.None? || AnyUnreadable(tasks)
            || (run.exitPool.None? && (AddressDue(tasks, env) || ServiceDue(tasks) || WaveDue(tasks)))
    ensures run.passivePool.None? ==> Advance(tasks, env, run).tasks == tasks
  {
    if run.passivePool.Some? {
      ScanPhaseFailsExactly(tasks, env, run);
      var a := ScanNewAddresses(tasks, env, run);
      if a.Some? {
        ScansOnly(tasks, env, run, a.value);
        ScanGrows(tasks, env, run, a.value);
        UnreadableSame(tasks, a.value);
        if run.exitPool.None? { PhaseAddsNothing(tasks, a.value, run); }
        ProbePhaseFailsExactly(a.value, run);
        var b := ProbeNewServices(a.value, run);
        if b.Some? {
          ProbeGrows(a.value, run, b.value);
          if run.exitPool.None? { PhaseAddsNothing(a.value, b.value, run); }
          WavePhaseFailsExactly(b.value, env, run);
        }
      }
    }
  }

  // ---- what they are run against ----

  datatype Aim = Aim(target: Target, o: Origin)

  function AimsAt(targets: seq<Target>, o: Origin): seq<Aim> {
    seq(|targets|, i requires 0 <= i < |targets| => Aim(targets[i], o))
  }

  function AimsOfUrls(env: Env, urls: seq<string>, o: Origin): seq<Aim> {
    if urls == [] then []
    else AimsOfUrls(env, urls[..|urls| - 1], o) + AimsAt(TargetsFor(env, urls[|urls| - 1]), o)
  }

  /** Every target of every web endpoint that any probe reported, for the first target of that probe. */
  function Aims(env: Env, tasks: seq<Task>): seq<Aim> {
    if tasks == [] then []
    else
      var t := tasks[|tasks| - 1];
      Aims(env, tasks[..|tasks| - 1])
      + if t.stage == ServiceProbe
        then AimsOfUrls(env, t.result.webURLs, if t.origins == [] then NIL else t.origins[0]) else []
  }

  predicate SwitchedOff(env: Env, key: string) { key in env.params && env.params[key] == "false" }

  /** Technologies and a screenshot always; directories unless both tools for them are off; vulnerabilities
      unless their tool is off. */
  predicate Wanted(env: Env, stage: Stage) {
    || stage == TechDetect || stage == Stage.Screenshot
    || (stage == DirBrute && !(SwitchedOff(env, "gobuster_enabled") && SwitchedOff(env, "katana_enabled")))
    || (stage == VulnCheck && !SwitchedOff(env, "nuclei_enabled"))
  }

  predicate RunsAgainst(sp: Spec, a: Aim) { sp.target == a.target && sp.origins == [a.o] }

  predicate Aimed(specs: seq<Spec>, aims: seq<Aim>, wanted: bool) {
    if wanted then |specs| == |aims| && forall i :: 0 <= i < |specs| ==> RunsAgainst(specs[i], aims[i]) else specs == []
  }

  lemma AimedBoth(a: seq<Spec>, aims: seq<Aim>, b: seq<Spec>, more: seq<Aim>, wanted: bool)
    requires Aimed(a, aims, wanted) && Aimed(b, more, wanted)
    ensures Aimed(a + b, aims + more, wanted)
  {
  }

  /** Specs of one stage, looked for by stage. */
  lemma OneStage(specs: seq<Spec>, own: Stage, stage: Stage)
    requires forall i :: 0 <= i < |specs| ==> specs[i].stage == own
    ensures SpecsOf(specs, stage) == if stage == own then specs else []
  {
    SpecsAllOf(specs, stage);
  }

  lemma FourParts(a: seq<Spec>, b: seq<Spec>, c: seq<Spec>, d: seq<Spec>, stage: Stage)
    ensures SpecsOf(a + b + c + d, stage) == SpecsOf(a, stage) + SpecsOf(b, stage) + SpecsOf(c, stage) + SpecsOf(d, stage)
  {
    SpecsOfBoth(a + b + c, d, stage);
    SpecsOfBoth(a + b, c, stage);
    SpecsOfBoth(a, b, stage);
  }

  predicate AllOf(specs: seq<Spec>, stage: Stage) { forall i :: 0 <= i < |specs| ==> specs[i].stage == stage }

  lemma FourOf(a: seq<Spec>, b: seq<Spec>, c: seq<Spec>, d: seq<Spec>, stage: Stage)
    requires AllOf(a, TechDetect) && AllOf(b, Stage.Screenshot) && AllOf(c, DirBrute) && AllOf(d, VulnCheck)
    ensures SpecsOf(a + b + c + d, stage) ==
            match stage
            case TechDetect => a
            case Screenshot => b
            case DirBrute => c
            case VulnCheck => d
            case _ => []
  {
    FourParts(a, b, c, d, stage);
    OneStage(a, TechDetect, stage);
    OneStage(b, Stage.Screenshot, stage);
    OneStage(c, DirBrute, stage);
    OneStage(d, VulnCheck, stage);
  }

  lemma AimedOnce(specs: seq<Spec>, a: Aim, wanted: bool)
    requires |specs| == (if wanted then 1 else 0) && forall i :: 0 <= i < |specs| ==> RunsAgainst(specs[i], a)
    ensures Aimed(specs, [a], wanted)
  {
  }

  lemma WantedIs(env: Env)
    ensures Wanted(env, DirBrute) <==> DirBrutePlanned(env)
    ensures Wanted(env, VulnCheck) <==> VulnCheckPlanned(env)
    ensures Wanted(env, TechDetect) && Wanted(env, Stage.Screenshot)
  {
  }

  lemma OneAimedOf(a: seq<Spec>, b: seq<Spec>, c: seq<Spec>, d: seq<Spec>, aim: Aim, stage: Stage, wanted: bool)
    requires |a| == 1 && |b| == 1 && |c| <= 1 && |d| <= 1
    requires AllOf(a, TechDetect) && AllOf(b, Stage.Screenshot) && AllOf(c, DirBrute) && AllOf(d, VulnCheck)
    requires forall sp :: sp in a || sp in b || sp in c || sp in d ==> RunsAgainst(sp, aim)
    requires wanted <==> stage == TechDetect || stage == Stage.Screenshot || (stage == DirBrute && c != []) || (stage == VulnCheck && d != [])
    ensures Aimed(SpecsOf(a + b + c + d, stage), [aim], wanted)
  {
    FourOf(a, b, c, d, stage);
    AimedOnce(SpecsOf(a + b + c + d, stage), aim, wanted);
  }

  lemma OneAimed(env: Env, tgt: Target, o: Origin, stage: Stage)
    ensures Aimed(SpecsOf(WebSpecs(env, tgt, o), stage), [Aim(tgt, o)], Wanted(env, stage))
  {
    var a, b := [Spec(TechDetect, tgt, 300, [], [o], None)], [Spec(Stage.Screenshot, tgt, 310, [BROWSER], [o], None)];
    var c := if DirBrutePlanned(env) then [Spec(DirBrute, tgt, 320, [], [o], None)] else [];
    var d := if VulnCheckPlanned(env) then [Spec(VulnCheck, tgt, 330, [], [o], None)] else [];
    assert WebSpecs(env, tgt, o) == a + b + c + d;
    WantedIs(env);
    OneAimedOf(a, b, c, d, Aim(tgt, o), stage, Wanted(env, stage));
  }

  lemma AimsNext(targets: seq<Target>, o: Origin)
    requires targets != []
    ensures AimsAt(targets, o) == AimsAt(targets[..|targets| - 1], o) + [Aim(targets[|targets| - 1], o)]
  {
  }

  lemma {:induction false} TargetsAimed(env: Env, targets: seq<Target>, o: Origin, stage: Stage)
    ensures Aimed(SpecsOf(TargetSpecs(env, targets, o), stage), AimsAt(targets, o), Wanted(env, stage))
    decreases |targets|
  {
    if targets != [] {
      var before, t := targets[..|targets| - 1], targets[|targets| - 1];
      TargetsAimed(env, before, o, stage);
      OneAimed(env, t, o, stage);
      SpecsOfBoth(TargetSpecs(env, before, o), WebSpecs(env, t, o), stage);
      AimedBoth(SpecsOf(TargetSpecs(env, before, o), stage), AimsAt(before, o),
                SpecsOf(WebSpecs(env, t, o), stage), [Aim(t, o)], Wanted(env, stage));
      AimsNext(targets, o);
    }
  }

  lemma {:induction false} UrlsAimed(env: Env, urls: seq<string>, o: Origin, stage: Stage)
    ensures Aimed(SpecsOf(UrlSpecs(env, urls, o), stage), AimsOfUrls(env, urls, o), Wanted(env, stage))
    decreases |urls|
  {
    if urls != [] {
      var n := |urls| - 1;
      var targets := TargetsFor(env, urls[n]);
      UrlsAimed(env, urls[..n], o, stage);
      TargetsAimed(env, targets, o, stage);
      SpecsOfBoth(UrlSpecs(env, urls[..n], o), TargetSpecs(env, targets, o), stage);
      AimedBoth(SpecsOf(UrlSpecs(env, urls[..n], o), stage), AimsOfUrls(env, urls[..n], o),
                SpecsOf(TargetSpecs(env, targets, o), stage), AimsAt(targets, o), Wanted(env, stage));
    }
  }

  /** Stage by stage, a wave is exactly one task for each target of each web endpoint reported, if the stage is
      wanted, and none if it is not. */
  lemma {:induction false} WaveIsExact(env: Env, tasks: seq<Task>, stage: Stage)
    ensures Aimed(SpecsOf(PostProbeSpecs(env, tasks), stage), Aims(env, tasks), Wanted(env, stage))
    decreases |tasks|
  {
    if tasks != [] {
      var n := |tasks| - 1;
      var t := tasks[n];
      var o := if t.origins == [] then NIL else t.origins[0];
      WaveIsExact(env, tasks[..n], stage);
      if t.stage == ServiceProbe {
        UrlsAimed(env, t.result.webURLs, o, stage);
        SpecsOfBoth(PostProbeSpecs(env, tasks[..n]), UrlSpecs(env, t.result.webURLs, o), stage);
        AimedBoth(SpecsOf(PostProbeSpecs(env, tasks[..n]), stage), Aims(env, tasks[..n]),
                  SpecsOf(UrlSpecs(env, t.result.webURLs, o), stage), AimsOfUrls(env, t.result.webURLs, o), Wanted(env, stage));
      } else {
        assert PostProbeSpecs(env, tasks) == PostProbeSpecs(env, tasks[..n]) && Aims(env, tasks) == Aims(env, tasks[..n]);
      }
    }
  }

  // ---- the targets of a web endpoint ----

  /** How a live URL reads; nothing where it does not. */
  function Read(env: Env, url: string): UrlParts { if url in env.urls then env.urls[url] else UrlParts("", "", 0) }

  function SchemeOf(parts: UrlParts): string { if parts.scheme == "" then "http" else parts.scheme }

  predicate OwnPort(scheme: string, port: int) { (scheme == "https" && port == 443) || (scheme == "http" && port == 80) }

  function CapOf(env: Env): int { if env.vhosts.Some? && env.vhosts.value > 0 then env.vhosts.value else 20 }

  predicate OnEndpoint(t: Target, parts: UrlParts) {
    t.ip == parts.host && t.port == parts.port && t.domain == "" && t.wordlist == "" && t.ips == [] && t.ports == ""
  }

  /** The site of a name: the live URL's scheme, the name, and the port unless it is the scheme's own. */
  predicate SiteOf(t: Target, parts: UrlParts, name: string) {
    && t.host == name
    && t.url == if OwnPort(SchemeOf(parts), parts.port) then SchemeOf(parts) + "://" + name
                else SchemeOf(parts) + "://" + name + ":" + Itoa(parts.port)
  }

  lemma SiteText(scheme: string, name: string, port: int)
    ensures scheme + "://" + name + PortText(scheme, port) ==
            if OwnPort(scheme, port) then scheme + "://" + name else scheme + "://" + name + ":" + Itoa(port)
  {
    assert scheme + "://" + name + "" == scheme + "://" + name;
    assert scheme + "://" + name + (":" + Itoa(port)) == scheme + "://" + name + ":" + Itoa(port);
  }

  lemma SitesAre(url: string, parts: Option<UrlParts>, names: seq<string>, cap: int, read: UrlParts)
    requires read == (if parts.Some? then parts.value else UrlParts("", "", 0)) && names != [] && cap > 0
    ensures
      var targets := WebTargets(url, parts, read.host, read.port, names, cap);
      && |targets| == (if |names| < cap then |names| else cap)
      && forall k :: 0 <= k < |targets| ==> OnEndpoint(targets[k], read) && SiteOf(targets[k], read, names[k])
  {
    var targets := WebTargets(url, parts, read.host, read.port, names, cap);
    forall k | 0 <= k < |targets| ensures OnEndpoint(targets[k], read) && SiteOf(targets[k], read, names[k]) {
      SiteText(SchemeOf(read), names[k], read.port);
    }
  }

  /** The targets of a web endpoint: one for each name that resolves to the address, up to the cap, under that
      name; or the live URL itself if there are none. */
  lemma TargetsForAre(env: Env, url: string)
    ensures
      var parts, targets := Read(env, url), TargetsFor(env, url);
      var names := if parts.host in env.names then env.names[parts.host] else [];
      && (forall k :: 0 <= k < |targets| ==> OnEndpoint(targets[k], parts))
      && (if names == [] then |targets| == 1 && targets[0].host == "" && targets[0].url == url
          else
            && |targets| == (if |names| < CapOf(env) then |names| else CapOf(env))
            && forall k :: 0 <= k < |targets| ==> SiteOf(targets[k], parts, names[k]))
  {
    var parts := if url in env.urls then Some(env.urls[url]) else None;
    var names := NamesFor(env, Read(env, url).host);
    if names != [] { SitesAre(url, parts, names, MaxVhosts(env), Read(env, url)); }
  }
}
