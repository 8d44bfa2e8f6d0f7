/** What every task of a run looks like, and for whom it is done. */
module PlannerShape {
  import opened Options
  import opened Summary
  import opened Planner
  import opened PlannerFacts
  import opened PlannerTick
  import opened PlannerRuns
  import opened PlannerInitial
  import NetAddr

  /** Tasks are leased in this order: discovery, then scanning, probing and the web stages. */
  function PriorityOf(stage: Stage): nat {
    match stage
    case PassiveEnum => 10
    case DnsBrute => 20
    case DnsResolve => 30
    case IpEnrich => 40
    case PortScan => 100
    case ServiceProbe => 200
    case TechDetect => 300
    case Screenshot => 310
    case DirBrute => 320
    case VulnCheck => 330
  }

  /** What a worker must be capable of. */
  function NeedsOf(stage: Stage): seq<string> {
    if stage.PortScan? then [RAW_SOCKET] else if stage.Screenshot? then [BROWSER] else []
  }

  predicate Serving(origins: seq<Origin>, ids: set<Origin>) {
    forall i :: 0 <= i < |origins| ==> origins[i] in ids
  }

  predicate ServingOrNil(origins: seq<Origin>, ids: set<Origin>) {
    forall i :: 0 <= i < |origins| ==> origins[i] in ids || origins[i] == NIL
  }

  /** A task of its stage's priority and needs, done for some of the run's targets and no others. */
  predicate TaskOk(t: Task, ids: set<Origin>) {
    t.priority == PriorityOf(t.stage) && t.needs == NeedsOf(t.stage) && Serving(t.origins, ids)
  }

  predicate SpecOk(sp: Spec, ids: set<Origin>) {
    sp.priority == PriorityOf(sp.stage) && sp.needs == NeedsOf(sp.stage) && ServingOrNil(sp.origins, ids)
  }

  predicate TasksOk(tasks: seq<Task>, ids: set<Origin>) { forall i :: 0 <= i < |tasks| ==> TaskOk(tasks[i], ids) }

  predicate SpecsOk(specs: seq<Spec>, ids: set<Origin>) { forall i :: 0 <= i < |specs| ==> SpecOk(specs[i], ids) }

  lemma {:induction false} StoredServing(o: seq<Origin>, ids: set<Origin>)
    requires ServingOrNil(o, ids)
    ensures Serving(StoredOrigins(o), ids)
    decreases |o|
  {
    if o != [] { StoredServing(o[..|o| - 1], ids); }
  }

  lemma PlanKeepsShape(tasks: seq<Task>, specs: seq<Spec>, run: Run, r: seq<Task>, ids: set<Origin>)
    requires TasksOk(tasks, ids) && SpecsOk(specs, ids) && Plan(tasks, specs, run) == Some(r)
    ensures TasksOk(r, ids)
  {
    PlanAppends(tasks, specs, run, r);
    forall i | 0 <= i < |r| ensures TaskOk(r[i], ids) {
      if i < |tasks| {
        assert r[i] == r[..|tasks|][i];
      } else {
        var sp := specs[i - |tasks|];
        assert r[|tasks| + (i - |tasks|)] == TaskOf(RoutedSpec(sp, run));
        StoredServing(sp.origins, ids);
      }
    }
  }

  lemma FoundServing(tasks: seq<Task>, ids: set<Origin>, ip: string)
    requires TasksOk(tasks, ids) && ip in Found(tasks)
    ensures Serving(Found(tasks)[ip], ids)
  {
    var origins := Found(tasks)[ip];
    forall k | 0 <= k < |origins| ensures origins[k] in ids {
      FoundIs(tasks, ip, origins[k]);
      var i :| 0 <= i < |tasks| && ServesVia(tasks[i], ip, origins[k]);
      assert TaskOk(tasks[i], ids);
    }
  }

  lemma BatchServing(batch: seq<string>, tasks: seq<Task>, ids: set<Origin>)
    requires TasksOk(tasks, ids)
    ensures ServingOrNil(BatchOrigins(batch, Found(tasks)), ids)
  {
    var origins := BatchOrigins(batch, Found(tasks));
    forall k | 0 <= k < |origins| ensures origins[k] in ids {
      BatchOriginsAre(batch, Found(tasks), origins[k]);
      var ip :| ip in batch && ip in Found(tasks) && origins[k] in Found(tasks)[ip];
      FoundServing(tasks, ids, ip);
    }
  }

  lemma ScanSpecsOk(tasks: seq<Task>, env: Env, ids: set<Origin>)
    requires TasksOk(tasks, ids)
    ensures SpecsOk(ScanSpecs(tasks, env), ids)
  {
    ScanSpecsPartition(tasks, env);
    BatchesOk(ScanSpecs(tasks, env), tasks, ids);
  }

  lemma BatchesOk(specs: seq<Spec>, tasks: seq<Task>, ids: set<Origin>)
    requires TasksOk(tasks, ids) && forall i :: 0 <= i < |specs| ==> BatchOk(specs[i], specs[i].target.ports, Found(tasks))
    ensures SpecsOk(specs, ids)
  {
    forall i | 0 <= i < |specs| ensures SpecOk(specs[i], ids) {
      assert BatchOk(specs[i], specs[i].target.ports, Found(tasks));
      BatchServing(specs[i].target.ips, tasks, ids);
    }
  }

  lemma {:induction false} AddServicesShaped(p: Probing, services: seq<IPPort>, o: Origin, ids: set<Origin>)
    requires SpecsOk(p.specs, ids) && (o in ids || o == NIL)
    ensures SpecsOk(AddServices(p, services, o).specs, ids)
    decreases |services|
  {
    if services != [] { AddServicesShaped(p, services[..|services| - 1], o, ids); }
  }

  lemma {:induction false} ProbesShaped(tasks: seq<Task>, already: set<string>, ids: set<Origin>)
    requires TasksOk(tasks, ids)
    ensures SpecsOk(Probes(tasks, already).specs, ids)
    decreases |tasks|
  {
    if tasks != [] {
      var n := |tasks| - 1;
      assert forall i :: 0 <= i < n ==> tasks[..n][i] == tasks[i];
      ProbesShaped(tasks[..n], already, ids);
      assert TaskOk(tasks[n], ids);
      AddServicesShaped(Probes(tasks[..n], already), tasks[n].result.services, Origin0(tasks[n].origins), ids);
    }
  }

  lemma {:induction false} TargetSpecsShaped(env: Env, targets: seq<Target>, o: Origin, ids: set<Origin>)
    requires o in ids || o == NIL
    ensures SpecsOk(TargetSpecs(env, targets, o), ids)
    decreases |targets|
  {
    if targets != [] { TargetSpecsShaped(env, targets[..|targets| - 1], o, ids); }
  }

  lemma {:induction false} UrlSpecsShaped(env: Env, urls: seq<string>, o: Origin, ids: set<Origin>)
    requires o in ids || o == NIL
    ensures SpecsOk(UrlSpecs(env, urls, o), ids)
    decreases |urls|
  {
    if urls != [] {
      UrlSpecsShaped(env, urls[..|urls| - 1], o, ids);
      TargetSpecsShaped(env, TargetsFor(env, urls[|urls| - 1]), o, ids);
    }
  }

  lemma {:induction false} PostProbeShaped(env: Env, tasks: seq<Task>, ids: set<Origin>)
    requires TasksOk(tasks, ids)
    ensures SpecsOk(PostProbeSpecs(env, tasks), ids)
    decreases |tasks|
  {
    if tasks != [] {
      var n := |tasks| - 1;
      assert forall i :: 0 <= i < n ==> tasks[..n][i] == tasks[i];
      PostProbeShaped(env, tasks[..n], ids);
      assert TaskOk(tasks[n], ids);
      UrlSpecsShaped(env, tasks[n].result.webURLs, Origin0(tasks[n].origins), ids);
    }
  }

  lemma TickKeepsShape(tasks: seq<Task>, env: Env, run: Run, ids: set<Origin>)
    requires TasksOk(tasks, ids)
    ensures TasksOk(Advance(tasks, env, run).tasks, ids)
  {
    if !run.passive {
      var a := ScanNewAddresses(tasks, env, run);
      if a.Some? {
        if Found(tasks) != map[] {
          ScanSpecsOk(tasks, env, ids);
          PlanKeepsShape(tasks, ScanSpecs(tasks, env), run, a.value, ids);
        }
        var b := ProbeNewServices(a.value, run);
        if b.Some? {
          ProbesShaped(a.value, Probed(a.value), ids);
          PlanKeepsShape(a.value, Probes(a.value, Probed(a.value)).specs, run, b.value, ids);
          var c := MaybePostProbe(b.value, env, run);
          if c.Some? && c.value != b.value {
            PostProbeShaped(env, b.value, ids);
            PlanKeepsShape(b.value, PostProbeSpecs(env, b.value), run, c.value, ids);
          }
        }
      }
    }
  }

  /** Over every run each task has the priority and needs of its stage, and is attributed to targets of the
      run only. */
  lemma {:induction false} RunKeepsShape(s: State, steps: seq<Step>, ids: set<Origin>)
    requires TasksOk(s.tasks, ids)
    ensures TasksOk(After(s, steps).tasks, ids)
    decreases |steps|
  {
    if steps != [] {
      var st := steps[0];
      if st.Tick? && !s.finished {
        TickKeepsShape(s.tasks, st.env, s.run, ids);
      } else if !st.Tick? {
        forall i | 0 <= i < |Apply(s, st).tasks| ensures TaskOk(Apply(s, st).tasks[i], ids) {
          assert TaskOk(s.tasks[i], ids);
        }
      }
      RunKeepsShape(Apply(s, st), steps[1..], ids);
    }
  }

  function IdsOf(ts: seq<StartTarget>): set<Origin> { set i | 0 <= i < |ts| :: ts[i].id }

  lemma {:induction false} TargetsSpecsShaped(st: Start, passive: bool, ts: seq<StartTarget>, text: NetAddr.Addr -> string,
                                              ids: set<Origin>)
    requires IdsOf(ts) <= ids
    ensures SpecsOk(TargetsSpecs(st, passive, ts, text), ids)
    decreases |ts|
  {
    if ts != [] {
      var n := |ts| - 1;
      assert ts[n].id in IdsOf(ts);
      assert IdsOf(ts[..n]) <= IdsOf(ts);
      TargetsSpecsShaped(st, passive, ts[..n], text, ids);
      SpecsForShaped(st, passive, ts[n], text, ids);
    }
  }

  lemma SpecsForShaped(st: Start, passive: bool, t: StartTarget, text: NetAddr.Addr -> string, ids: set<Origin>)
    requires t.id in ids
    ensures SpecsOk(SpecsFor(st, passive, t, text), ids)
  {
    if !t.kind.Domain? && FateOf(st, passive, t).Running? { ScansShaped(PlannerInitial.AddressesOf(st, t, text), t.id, ids); }
  }

  lemma ScansShaped(ips: seq<string>, o: Origin, ids: set<Origin>)
    requires o in ids
    ensures SpecsOk(ScansOf(ips, o), ids)
  {
  }

  lemma {:induction false} BruteSpecsShaped(ts: seq<StartTarget>, wordlists: seq<string>, ids: set<Origin>)
    requires IdsOf(ts) <= ids
    ensures SpecsOk(BruteSpecs(ts, wordlists), ids)
    decreases |ts|
  {
    if ts != [] {
      var n := |ts| - 1;
      assert ts[n].id in IdsOf(ts);
      assert IdsOf(ts[..n]) <= IdsOf(ts);
      BruteSpecsShaped(ts[..n], wordlists, ids);
    }
  }

  /** From the first task on: a run never does anything for a target it was not started for. */
  lemma StartedRunsServeTheirTargets(st: Start, run: Run, text: NetAddr.Addr -> string, steps: seq<Step>)
    requires Initial(st, run, text).Begun?
    ensures TasksOk(After(StateOf(run, Initial(st, run, text).tasks), steps).tasks, IdsOf(st.targets))
  {
    var ids := IdsOf(st.targets);
    TargetsSpecsShaped(st, run.passive, st.targets, text, ids);
    BruteSpecsShaped(st.targets, st.wordlists, ids);
    var tasks := Initial(st, run, text).tasks;
    PlanKeepsShape([], StartSpecs(st, run.passive, text), run, tasks, ids);
    RunKeepsShape(StateOf(run, tasks), steps, ids);
  }

  // ---- the web stages of a wave ----

  /** The stages a web target gets. */
  predicate PlannedStage(env: Env, stage: Stage) {
    || stage.TechDetect? || stage.Screenshot?
    || (stage.DirBrute? && !(env.Off("gobuster_enabled") && env.Off("katana_enabled")))
    || (stage.VulnCheck? && !env.Off("nuclei_enabled"))
  }

  predicate InSpecs(specs: seq<Spec>, stage: Stage, tgt: Target, o: Origin) {
    exists i :: 0 <= i < |specs| && IsFor(specs[i], stage, tgt, o)
  }

  predicate IsFor(sp: Spec, stage: Stage, tgt: Target, o: Origin) {
    sp.stage == stage && sp.target == tgt && sp.origins == [o]
  }

  lemma InMore(a: seq<Spec>, b: seq<Spec>, stage: Stage, tgt: Target, o: Origin)
    requires InSpecs(a, stage, tgt, o) || InSpecs(b, stage, tgt, o)
    ensures InSpecs(a + b, stage, tgt, o)
  {
    if InSpecs(a, stage, tgt, o) {
      var i :| 0 <= i < |a| && IsFor(a[i], stage, tgt, o);
      assert IsFor((a + b)[i], stage, tgt, o);
    } else {
      var i :| 0 <= i < |b| && IsFor(b[i], stage, tgt, o);
      assert IsFor((a + b)[|a| + i], stage, tgt, o);
    }
  }

  lemma WebSpecsCover(env: Env, tgt: Target, o: Origin, stage: Stage)
    requires PlannedStage(env, stage)
    ensures InSpecs(WebSpecs(env, tgt, o), stage, tgt, o)
  {
    var specs := WebSpecs(env, tgt, o);
    var at := if stage.TechDetect? then 0 else if stage.Screenshot? then 1 else if stage.DirBrute? then 2 else |specs| - 1;
    assert IsFor(specs[at], stage, tgt, o);
  }

  lemma {:induction false} TargetSpecsCover(env: Env, targets: seq<Target>, k: nat, o: Origin, stage: Stage)
    requires PlannedStage(env, stage) && k < |targets|
    ensures InSpecs(TargetSpecs(env, targets, o), stage, targets[k], o)
    decreases |targets|
  {
    var n := |targets| - 1;
    if k < n { TargetSpecsCover(env, targets[..n], k, o, stage); } else { WebSpecsCover(env, targets[n], o, stage); }
    InMore(TargetSpecs(env, targets[..n], o), WebSpecs(env, targets[n], o), stage, targets[k], o);
  }

  lemma {:induction false} UrlSpecsCover(env: Env, urls: seq<string>, j: nat, k: nat, o: Origin, stage: Stage)
    requires PlannedStage(env, stage) && j < |urls| && k < |TargetsFor(env, urls[j])|
    ensures InSpecs(UrlSpecs(env, urls, o), stage, TargetsFor(env, urls[j])[k], o)
    decreases |urls|
  {
    var n := |urls| - 1;
    if j < n {
      UrlSpecsCover(env, urls[..n], j, k, o, stage);
    } else {
      TargetSpecsCover(env, TargetsFor(env, urls[n]), k, o, stage);
    }
    InMore(UrlSpecs(env, urls[..n], o), TargetSpecs(env, TargetsFor(env, urls[n]), o), stage, TargetsFor(env, urls[j])[k], o);
  }

  /** A wave leaves nothing out: every name of every web endpoint any probe has reported gets every stage
      that is not switched off, for the run target of the probe. */
  lemma {:induction false} WaveIsComplete(env: Env, tasks: seq<Task>, i: nat, j: nat, k: nat, stage: Stage)
    requires PlannedStage(env, stage) && i < |tasks| && tasks[i].stage.ServiceProbe?
    requires j < |tasks[i].result.webURLs| && k < |TargetsFor(env, tasks[i].result.webURLs[j])|
    ensures InSpecs(PostProbeSpecs(env, tasks), stage, TargetsFor(env, tasks[i].result.webURLs[j])[k], Origin0(tasks[i].origins))
    decreases |tasks|
  {
    var n := |tasks| - 1;
    var tgt, o := TargetsFor(env, tasks[i].result.webURLs[j])[k], Origin0(tasks[i].origins);
    if i < n {
      assert tasks[..n][i] == tasks[i];
      WaveIsComplete(env, tasks[..n], i, j, k, stage);
    } else {
      UrlSpecsCover(env, tasks[n].result.webURLs, j, k, o, stage);
    }
    InMore(PostProbeSpecs(env, tasks[..n]),
           if tasks[n].stage.ServiceProbe? then UrlSpecs(env, tasks[n].result.webURLs, Origin0(tasks[n].origins)) else [],
           stage, tgt, o);
  }
}
