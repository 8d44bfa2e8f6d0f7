/** Whole runs: ticks of the planner in any order with whatever the workers do to the tasks. */
module PlannerRuns {
  import opened Options
  import opened Text
  import opened Summary
  import opened Planner
  import opened PlannerFacts
  import opened PlannerSettles
  import opened PlannerTick
  import LeaseTable

  datatype State = State(run: Run, tasks: seq<Task>, finished: bool)

  /** A tick sees the database as it then is; between ticks any task's status and result may change, and a
      pool made for the run may be removed with the run's fleet. */
  datatype Step =
    | Tick(env: Env)
    | Work(i: nat, status: LeaseTable.Status, result: StageSummary)
    | RemovePool(pool: Pool)

  function Without(t: Task, pool: Pool): Task { if t.pool == Some(pool) then t.(pool := None) else t }

  /** Rows that refer to a removed pool are left with none. The pool of the passive stages is no run's own and
      is never removed. */
  function PoolRemoved(s: State, pool: Pool): State {
    if s.run.passivePool == Some(pool) then s
    else
      s.(tasks := seq(|s.tasks|, i requires 0 <= i < |s.tasks| => Without(s.tasks[i], pool)),
         run := if s.run.exitPool == Some(pool) then s.run.(exitPool := None) else s.run)
  }

  ghost function Apply(s: State, st: Step): State {
    match st
    case Tick(env) =>
      if s.finished then s
      else
        var t := Advance(s.tasks, env, s.run);
        s.(tasks := t.tasks, finished := t.outcome.Finished?)
    case Work(i, status, result) =>
      if i < |s.tasks| then s.(tasks := s.tasks[i := s.tasks[i].(status := status, result := result)]) else s
    case RemovePool(pool) => PoolRemoved(s, pool)
  }

  /** Work on a task changes its status and result to what was reported, and nothing else; a tick of a finished run
      changes nothing. */
  lemma StepDoes(s: State, st: Step)
    ensures st.Work? && st.i < |s.tasks| ==>
      var s' := Apply(s, st);
      && s'.run == s.run && s'.finished == s.finished && |s'.tasks| == |s.tasks|
      && s'.tasks[st.i].status == st.status && s'.tasks[st.i].result == st.result
      && s'.tasks[st.i].origins == s.tasks[st.i].origins && s'.tasks[st.i].pool == s.tasks[st.i].pool
      && forall j :: 0 <= j < |s.tasks| && j != st.i ==> s'.tasks[j] == s.tasks[j]
    ensures st.Tick? && s.finished ==> Apply(s, st) == s
    ensures st.Tick? && !s.finished ==> Apply(s, st).run == s.run
  {
  }

  ghost function After(s: State, steps: seq<Step>): State
    decreases |steps|
  {
    if steps == [] then s else After(Apply(s, steps[0]), steps[1..])
  }

  // ---- pools ----

  /** The stages that never send a packet at the target; all others do. */
  predicate Quiet(stage: Stage) {
    stage == PassiveEnum || stage == DnsBrute || stage == DnsResolve || stage == IpEnrich
  }

  lemma QuietOrSends(stage: Stage)
    ensures stage.SendsTrafficToTarget() <==> !Quiet(stage)
  {
  }

  /** A task is on the pool of its class; only one that sends traffic can be left without. */
  predicate PoolOk(t: Task, run: Run) {
    && t.pool == (if Quiet(t.stage) then run.passivePool else run.exitPool)
    && (t.pool.None? ==> !Quiet(t.stage))
  }

  predicate PoolsOk(tasks: seq<Task>, run: Run) {
    forall i :: 0 <= i < |tasks| ==> PoolOk(tasks[i], run)
  }

  lemma TickKeepsPools(tasks: seq<Task>, env: Env, run: Run)
    requires PoolsOk(tasks, run)
    ensures PoolsOk(Advance(tasks, env, run).tasks, run)
    ensures |Advance(tasks, env, run).tasks| > |tasks| ==> run.exitPool.Some?
  {
    if !run.passive {
      var a := ScanNewAddresses(tasks, env, run);
      if a.Some? {
        ScanGrows(tasks, env, run, a.value);
        PoolsGrow(tasks, a.value, run);
        var b := ProbeNewServices(a.value, run);
        if b.Some? {
          ProbeGrows(a.value, run, b.value);
          PoolsGrow(a.value, b.value, run);
          var c := MaybePostProbe(b.value, env, run);
          if c.Some? {
            PostGrows(b.value, env, run, c.value);
            PoolsGrow(b.value, c.value, run);
          }
        }
      }
    }
  }

  lemma PoolsGrow(tasks: seq<Task>, r: seq<Task>, run: Run)
    requires PoolsOk(tasks, run) && Grows(tasks, r) && (|r| > |tasks| ==> run.exitPool.Some?)
    requires forall i :: |tasks| <= i < |r| ==> r[i].pool == run.exitPool
    ensures PoolsOk(r, run)
  {
    forall i | 0 <= i < |r| ensures PoolOk(r[i], run) {
      if i < |tasks| {
        GrowsKeeps(tasks, r, i);
        assert PoolOk(tasks[i], run);
      }
    }
  }

  // ---- nothing twice ----

  /** No address is in both port scans. */
  ghost predicate Apart(a: Task, b: Task) { forall ip :: InPortScan(a, ip) ==> !InPortScan(b, ip) }

  predicate Unrepeated(ips: seq<string>) {
    forall k, l :: 0 <= k < l < |ips| ==> ips[k] != ips[l]
  }

  /** Tasks from n0 on were planned by ticks: no address in one of their port scans is in any other port
      scan before it, nor twice in the same one. */
  ghost predicate ScannedOnce(tasks: seq<Task>, n0: nat) {
    && (forall j :: n0 <= j < |tasks| && tasks[j].stage.PortScan? ==> Unrepeated(tasks[j].target.ips))
    && (forall i, j :: 0 <= i < j < |tasks| && n0 <= j ==> Apart(tasks[i], tasks[j]))
  }

  predicate SameEndpoint(a: Task, b: Task) {
    && a.stage.ServiceProbe? && b.stage.ServiceProbe?
    && a.target.ip == b.target.ip && a.target.port == b.target.port && a.target.ip != ""
  }

  /** No endpoint is probed twice. */
  predicate ProbedOnce(tasks: seq<Task>) {
    forall i, j :: 0 <= i < j < |tasks| ==> !SameEndpoint(tasks[i], tasks[j])
  }

  lemma UnrepeatedParts(a: seq<string>, b: seq<string>)
    requires Unrepeated(a + b)
    ensures Unrepeated(a) && Unrepeated(b) && forall x :: x in a ==> x !in b
  {
    var all := a + b;
    forall k, l | 0 <= k < l < |a| ensures a[k] != a[l] { assert all[k] != all[l]; }
    forall k, l | 0 <= k < l < |b| ensures b[k] != b[l] { assert all[|a| + k] != all[|a| + l]; }
    forall k, l | 0 <= k < |a| && 0 <= l < |b| ensures a[k] != b[l] { assert all[k] != all[|a| + l]; }
  }

  lemma {:induction false} SpecsApart(specs: seq<Spec>, i: nat, j: nat, ip: string)
    requires Unrepeated(AddressesOfSpecs(specs)) && i < j < |specs| && ip in specs[i].target.ips
    ensures ip !in specs[j].target.ips
    decreases |specs|
  {
    UnrepeatedParts(specs[0].target.ips, AddressesOfSpecs(specs[1..]));
    assert specs[1..][j - 1] == specs[j];
    if i == 0 {
      AddressInSomeSpec(specs[1..], ip);
    } else {
      assert specs[1..][i - 1] == specs[i];
      SpecsApart(specs[1..], i - 1, j - 1, ip);
    }
  }

  lemma {:induction false} SpecUnrepeated(specs: seq<Spec>, i: nat)
    requires Unrepeated(AddressesOfSpecs(specs)) && i < |specs|
    ensures Unrepeated(specs[i].target.ips)
    decreases |specs|
  {
    UnrepeatedParts(specs[0].target.ips, AddressesOfSpecs(specs[1..]));
    if i > 0 { SpecUnrepeated(specs[1..], i - 1); }
  }

  lemma SortedUnrepeated(names: set<string>)
    ensures Unrepeated(SortedOf(names))
  {
    var s := SortedOf(names);
    forall k, l | 0 <= k < l < |s| ensures s[k] != s[l] { LexIrreflexive(s[k]); }
  }

  lemma ScanSpecsUnrepeated(tasks: seq<Task>, env: Env)
    ensures Unrepeated(AddressesOfSpecs(ScanSpecs(tasks, env)))
  {
    var found := Found(tasks);
    var own, edge := Admitted(env, tasks, found, Fresh), Admitted(env, tasks, found, Edge);
    ScanSpecsPartition(tasks, env);
    var a, b := SortedOf(own), SortedOf(edge);
    SortedUnrepeated(own);
    SortedUnrepeated(edge);
    forall k, l | 0 <= k < l < |a + b| ensures (a + b)[k] != (a + b)[l] {
      if k < |a| <= l {
        assert (a + b)[k] in Elements(a) && (a + b)[l] in Elements(b);
      }
    }
  }

  /** r is tasks followed by the port scans of specs. */
  predicate ScansBehind(tasks: seq<Task>, r: seq<Task>, specs: seq<Spec>) {
    && Grows(tasks, r) && |r| <= |tasks| + |specs|
    && forall k :: |tasks| <= k < |r| ==> r[k].target == specs[k - |tasks|].target && r[k].target.ip == ""
  }

  predicate NoneKnown(specs: seq<Spec>, known: set<string>) {
    forall i :: 0 <= i < |specs| ==> Elements(specs[i].target.ips) !! known
  }

  lemma ScansAreBehind(tasks: seq<Task>, env: Env, run: Run, r: seq<Task>)
    requires ScanNewAddresses(tasks, env, run) == Some(r)
    ensures ScansBehind(tasks, r, ScanSpecs(tasks, env))
  {
    var specs := ScanSpecs(tasks, env);
    ScanGrows(tasks, env, run, r);
    ScanSpecsPartition(tasks, env);
    forall k | |tasks| <= k < |r| ensures r[k].target == specs[k - |tasks|].target && r[k].target.ip == "" {
      assert BatchOk(specs[k - |tasks|], specs[k - |tasks|].target.ports, Found(tasks));
    }
  }

  lemma ScanSpecsUnknown(tasks: seq<Task>, env: Env)
    ensures NoneKnown(ScanSpecs(tasks, env), Scanned(tasks))
  {
    forall i, ip | 0 <= i < |ScanSpecs(tasks, env)| && ip in ScanSpecs(tasks, env)[i].target.ips
      ensures ip !in Scanned(tasks)
    {
      QueuedAdmitted(tasks, env, i, ip);
    }
  }

  lemma NewScanApart(tasks: seq<Task>, r: seq<Task>, specs: seq<Spec>, i: nat, j: nat)
    requires ScansBehind(tasks, r, specs) && NoneKnown(specs, Scanned(tasks)) && Unrepeated(AddressesOfSpecs(specs))
    requires i < j < |r| && |tasks| <= j
    ensures Apart(r[i], r[j])
  {
    forall ip | InPortScan(r[i], ip) ensures !InPortScan(r[j], ip) {
      if InPortScan(r[j], ip) {
        assert ip in Elements(specs[j - |tasks|].target.ips);
        if i < |tasks| {
          GrowsKeeps(tasks, r, i);
          ScannedExactly(tasks, ip);
        } else {
          SpecsApart(specs, i - |tasks|, j - |tasks|, ip);
        }
      }
    }
  }

  lemma NewScansOnce(tasks: seq<Task>, r: seq<Task>, specs: seq<Spec>, n0: nat)
    requires ScansBehind(tasks, r, specs) && NoneKnown(specs, Scanned(tasks)) && Unrepeated(AddressesOfSpecs(specs))
    requires ScannedOnce(tasks, n0) && n0 <= |tasks|
    ensures ScannedOnce(r, n0)
  {
    forall i | 0 <= i < |tasks| ensures r[i] == tasks[i] { GrowsKeeps(tasks, r, i); }
    forall j | n0 <= j < |r| && r[j].stage.PortScan? ensures Unrepeated(r[j].target.ips) {
      if j >= |tasks| { SpecUnrepeated(specs, j - |tasks|); }
    }
    forall i, j | 0 <= i < j < |r| && n0 <= j ensures Apart(r[i], r[j]) {
      if j < |tasks| { assert Apart(tasks[i], tasks[j]); } else { NewScanApart(tasks, r, specs, i, j); }
    }
  }

  lemma ScanKeepsOnce(tasks: seq<Task>, env: Env, run: Run, r: seq<Task>, n0: nat)
    requires ScanNewAddresses(tasks, env, run) == Some(r) && ScannedOnce(tasks, n0) && n0 <= |tasks|
    ensures ScannedOnce(r, n0)
  {
    ScansAreBehind(tasks, env, run, r);
    ScanSpecsUnknown(tasks, env);
    ScanSpecsUnrepeated(tasks, env);
    NewScansOnce(tasks, r, ScanSpecs(tasks, env), n0);
  }

  /** Phases that plan no port scan keep it. */
  lemma OthersKeepScannedOnce(tasks: seq<Task>, r: seq<Task>, n0: nat)
    requires ScannedOnce(tasks, n0) && Grows(tasks, r) && n0 <= |tasks|
    requires forall i :: |tasks| <= i < |r| ==> !r[i].stage.PortScan?
    ensures ScannedOnce(r, n0)
  {
    forall i | 0 <= i < |tasks| ensures r[i] == tasks[i] { GrowsKeeps(tasks, r, i); }
    forall i, j | 0 <= i < j < |r| && n0 <= j ensures Apart(r[i], r[j]) {
      if j < |tasks| { assert Apart(tasks[i], tasks[j]); }
    }
  }

  lemma ProbeKeepsOnce(tasks: seq<Task>, run: Run, r: seq<Task>)
    requires ProbeNewServices(tasks, run) == Some(r) && ProbedOnce(tasks)
    ensures ProbedOnce(r)
    ensures forall i :: |tasks| <= i < |r| ==> r[i].stage.ServiceProbe?
  {
    var already := Probed(tasks);
    var specs := Probes(tasks, already).specs;
    ProbeGrows(tasks, run, r);
    ProbesOk(tasks, already);
    forall i | |tasks| <= i < |r| ensures r[i].stage.ServiceProbe? && TaskKey(r[i]) == KeysOf(specs)[i - |tasks|] {
      assert IsProbe(specs[i - |tasks|]);
    }
    forall i, j | 0 <= i < j < |r| ensures !SameEndpoint(r[i], r[j]) {
      if i < |tasks| { GrowsKeeps(tasks, r, i); }
      if j < |tasks| {
        GrowsKeeps(tasks, r, j);
        assert !SameEndpoint(tasks[i], tasks[j]);
      } else {
        assert TaskKey(r[i]) != TaskKey(r[j]) || r[i].target.ip == "" || !r[i].stage.ServiceProbe? by {
          if i < |tasks| && TaskKey(r[j]) in EndpointOf(tasks[i]) { ProbedHas(tasks, i, TaskKey(r[j])); }
        }
      }
    }
  }

  function TaskKey(t: Task): string { EndpointKey(t.target.ip, t.target.port) }

  lemma OthersKeepProbedOnce(tasks: seq<Task>, r: seq<Task>)
    requires ProbedOnce(tasks) && Grows(tasks, r)
    requires forall i :: |tasks| <= i < |r| ==> !r[i].stage.ServiceProbe?
    ensures ProbedOnce(r)
  {
    forall i, j | 0 <= i < j < |r| ensures !SameEndpoint(r[i], r[j]) {
      if j < |tasks| {
        GrowsKeeps(tasks, r, i);
        GrowsKeeps(tasks, r, j);
        assert !SameEndpoint(tasks[i], tasks[j]);
      }
    }
  }

  ghost predicate NothingTwice(tasks: seq<Task>, n0: nat) {
    n0 <= |tasks| && ScannedOnce(tasks, n0) && ProbedOnce(tasks)
  }

  ghost predicate Invariant(s: State, n0: nat) {
    PoolsOk(s.tasks, s.run) && NothingTwice(s.tasks, n0)
  }

  lemma NewScansOnly(tasks: seq<Task>, env: Env, run: Run, r: seq<Task>)
    requires ScanNewAddresses(tasks, env, run) == Some(r)
    ensures forall i :: |tasks| <= i < |r| ==> r[i].stage.PortScan?
  {
    ScanGrows(tasks, env, run, r);
    ScanSpecsPartition(tasks, env);
    forall i | |tasks| <= i < |r| ensures r[i].stage.PortScan? {
      var sp := ScanSpecs(tasks, env)[i - |tasks|];
      assert BatchOk(sp, sp.target.ports, Found(tasks));
    }
  }

  lemma ScanPhaseKeepsOnce(tasks: seq<Task>, env: Env, run: Run, r: seq<Task>, n0: nat)
    requires ScanNewAddresses(tasks, env, run) == Some(r) && NothingTwice(tasks, n0)
    ensures NothingTwice(r, n0)
  {
    ScanGrows(tasks, env, run, r);
    ScanKeepsOnce(tasks, env, run, r, n0);
    NewScansOnly(tasks, env, run, r);
    OthersKeepProbedOnce(tasks, r);
  }

  lemma ProbePhaseKeepsOnce(tasks: seq<Task>, run: Run, r: seq<Task>, n0: nat)
    requires ProbeNewServices(tasks, run) == Some(r) && NothingTwice(tasks, n0)
    ensures NothingTwice(r, n0)
  {
    ProbeGrows(tasks, run, r);
    ProbeKeepsOnce(tasks, run, r);
    OthersKeepScannedOnce(tasks, r, n0);
  }

  lemma PostPhaseKeepsOnce(tasks: seq<Task>, env: Env, run: Run, r: seq<Task>, n0: nat)
    requires MaybePostProbe(tasks, env, run) == Some(r) && NothingTwice(tasks, n0)
    ensures NothingTwice(r, n0)
  {
    PostGrows(tasks, env, run, r);
    OthersKeepScannedOnce(tasks, r, n0);
    OthersKeepProbedOnce(tasks, r);
  }

  lemma TickKeepsOnce(tasks: seq<Task>, env: Env, run: Run, n0: nat)
    requires NothingTwice(tasks, n0)
    ensures NothingTwice(Advance(tasks, env, run).tasks, n0)
  {
    if !run.passive {
      var a := ScanNewAddresses(tasks, env, run);
      if a.Some? {
        ScanPhaseKeepsOnce(tasks, env, run, a.value, n0);
        var b := ProbeNewServices(a.value, run);
        if b.Some? {
          ProbePhaseKeepsOnce(a.value, run, b.value, n0);
          var c := MaybePostProbe(b.value, env, run);
          if c.Some? { PostPhaseKeepsOnce(b.value, env, run, c.value, n0); }
        }
      }
    }
  }

  /** s' has the tasks of s, as far as stages and targets go. */
  predicate SamePlan(s: State, s': State) {
    && |s'.tasks| == |s.tasks|
    && forall i :: 0 <= i < |s.tasks| ==>
         s'.tasks[i].stage == s.tasks[i].stage && s'.tasks[i].target == s.tasks[i].target
  }

  lemma SamePlanKeepsOnce(s: State, s': State, n0: nat)
    requires SamePlan(s, s') && NothingTwice(s.tasks, n0)
    ensures NothingTwice(s'.tasks, n0)
  {
    forall i, j | 0 <= i < j < |s'.tasks| && n0 <= j ensures Apart(s'.tasks[i], s'.tasks[j]) {
      assert Apart(s.tasks[i], s.tasks[j]);
      forall ip | InPortScan(s'.tasks[i], ip) ensures !InPortScan(s'.tasks[j], ip) { assert InPortScan(s.tasks[i], ip); }
    }
    forall i, j | 0 <= i < j < |s'.tasks| ensures !SameEndpoint(s'.tasks[i], s'.tasks[j]) {
      assert !SameEndpoint(s.tasks[i], s.tasks[j]);
    }
  }

  lemma OtherStepKeeps(s: State, st: Step, n0: nat)
    requires Invariant(s, n0) && !st.Tick?
    ensures Invariant(Apply(s, st), n0)
  {
    var s' := Apply(s, st);
    SamePlanKeepsOnce(s, s', n0);
    forall i | 0 <= i < |s.tasks| ensures PoolOk(s'.tasks[i], s'.run) { assert PoolOk(s.tasks[i], s.run); }
  }

  /** Over every run, with every task ever planned on the pool of its class: no tick queues an address
      that any port scan already has, and no endpoint is ever probed twice, whatever the workers report and
      however the scope changes meanwhile. */
  lemma {:induction false} RunKeepsInvariant(s: State, steps: seq<Step>, n0: nat)
    requires Invariant(s, n0)
    ensures Invariant(After(s, steps), n0)
    decreases |steps|
  {
    if steps != [] {
      var st := steps[0];
      if st.Tick? && !s.finished {
        TickKeepsPools(s.tasks, st.env, s.run);
        TickKeepsOnce(s.tasks, st.env, s.run, n0);
      } else if !st.Tick? {
        OtherStepKeeps(s, st, n0);
      }
      RunKeepsInvariant(Apply(s, st), steps[1..], n0);
    }
  }

  predicate AllPooled(tasks: seq<Task>) { forall i :: 0 <= i < |tasks| ==> tasks[i].pool.Some? }

  predicate SendsNothing(tasks: seq<Task>) {
    forall i :: 0 <= i < |tasks| ==> Quiet(tasks[i].stage)
  }

  lemma {:induction false} ExitPoolStays(s: State, steps: seq<Step>, p: Pool)
    requires s.run.passivePool != Some(p) && (s.run.exitPool == Some(p) || s.run.exitPool.None?)
    ensures After(s, steps).run.exitPool == if RemovePool(p) in steps then None else s.run.exitPool
    decreases |steps|
  {
    if steps != [] {
      assert forall st :: st in steps <==> st == steps[0] || st in steps[1..];
      ExitPoolStays(Apply(s, steps[0]), steps[1..], p);
    }
  }

  /** Over every run, all tasks have a pool to run from exactly when the run's own pool was not removed, or
      there is no task that needs it. */
  lemma PooledExactlyUntilRemoved(s: State, steps: seq<Step>, n0: nat, p: Pool)
    requires Invariant(s, n0) && s.run.exitPool == Some(p) && s.run.passivePool != Some(p)
    ensures AllPooled(After(s, steps).tasks) <==> RemovePool(p) !in steps || SendsNothing(After(s, steps).tasks)
  {
    RunKeepsInvariant(s, steps, n0);
    ExitPoolStays(s, steps, p);
    var s' := After(s, steps);
    assert forall i :: 0 <= i < |s'.tasks| ==> PoolOk(s'.tasks[i], s'.run);
    if SendsNothing(s'.tasks) || RemovePool(p) !in steps {
      forall i | 0 <= i < |s'.tasks| ensures s'.tasks[i].pool.Some? { assert PoolOk(s'.tasks[i], s'.run); }
    } else {
      var i :| 0 <= i < |s'.tasks| && !Quiet(s'.tasks[i].stage);
      assert PoolOk(s'.tasks[i], s'.run);
    }
  }

  // ---- what a task is never changes ----

  lemma StepKeepsTarget(s: State, st: Step, i: nat)
    requires i < |s.tasks|
    ensures |s.tasks| <= |Apply(s, st).tasks|
    ensures Apply(s, st).tasks[i].stage == s.tasks[i].stage && Apply(s, st).tasks[i].target == s.tasks[i].target
  {
    if st.Tick? && !s.finished {
      TickGrows(s.tasks, st.env, s.run);
      GrowsKeeps(s.tasks, Advance(s.tasks, st.env, s.run).tasks, i);
    }
  }

  lemma {:induction false} RunKeepsTarget(s: State, steps: seq<Step>, i: nat)
    requires i < |s.tasks|
    ensures |s.tasks| <= |After(s, steps).tasks|
    ensures After(s, steps).tasks[i].stage == s.tasks[i].stage && After(s, steps).tasks[i].target == s.tasks[i].target
    decreases |steps|
  {
    if steps != [] {
      StepKeepsTarget(s, steps[0], i);
      RunKeepsTarget(Apply(s, steps[0]), steps[1..], i);
    }
  }

  /** ip was admitted, at the tick that queued it, for the scan of target: found for a run target the
      company then authorized, let through by the guard, in no earlier scan, and on the CDN's ports exactly
      when it is a CDN's. */
  ghost predicate AdmittedAt(tasks: seq<Task>, env: Env, target: Target, ip: string) {
    && (exists o :: SanctionedVia(env, tasks, ip, o))
    && Scannable(env, ip) && !InAnyScan(tasks, ip)
    && |target.ips| <= SCAN_BATCH_SIZE && target.ip == ""
    && (if OnCdn(env, ip) then target.ports == PortsForCdn(env) != "none" else target.ports == "")
  }

  ghost predicate AdmittedBy(s: State, steps: seq<Step>, k: nat, target: Target, ip: string) {
    k < |steps| && steps[k].Tick? && AdmittedAt(After(s, steps[..k]).tasks, steps[k].env, target, ip)
  }

  /** Every address of every port scan that a run's ticks planned was admitted by one of those ticks. */
  lemma {:induction false} ScansWereAdmitted(s: State, steps: seq<Step>, j: nat, ip: string) returns (k: nat)
    requires
      var t := After(s, steps).tasks;
      |s.tasks| <= j < |t| && t[j].stage.PortScan? && ip in t[j].target.ips
    ensures AdmittedBy(s, steps, k, After(s, steps).tasks[j].target, ip)
    decreases |steps|
  {
    var s', rest := Apply(s, steps[0]), steps[1..];
    if j < |s'.tasks| {
      RunKeepsTarget(s', rest, j);
      TickAdmitsOnlySanctioned(s.tasks, steps[0].env, s.run, j, ip);
      assert steps[..0] == [];
      k := 0;
    } else {
      var k' := ScansWereAdmitted(s', rest, j, ip);
      k := k' + 1;
      assert steps[..k][0] == steps[0] && steps[..k][1..] == rest[..k'];
    }
  }

  // ---- one wave of web stages ----

  predicate NoWebFrom(tasks: seq<Task>, n: nat) {
    forall i :: n <= i < |tasks| ==> !IsWebStage(tasks[i].stage)
  }

  /** Tasks from n on are not web stages, and the run has its web stages already. */
  predicate WebOver(tasks: seq<Task>, n: nat) { StageExists(tasks, TechDetect) && NoWebFrom(tasks, n) }

  lemma GrowsWithoutWeb(tasks: seq<Task>, r: seq<Task>, n: nat)
    requires Grows(tasks, r) && WebOver(tasks, n) && NoWebFrom(r, |tasks|)
    ensures WebOver(r, n)
  {
    StageStays(tasks, r);
    forall i | n <= i < |r| ensures !IsWebStage(r[i].stage) {
      if i < |tasks| { GrowsKeeps(tasks, r, i); }
    }
  }

  lemma ScanPhaseKeepsWebOver(tasks: seq<Task>, env: Env, run: Run, r: seq<Task>, n: nat)
    requires ScanNewAddresses(tasks, env, run) == Some(r) && WebOver(tasks, n)
    ensures WebOver(r, n)
  {
    ScanGrows(tasks, env, run, r);
    NewScansOnly(tasks, env, run, r);
    GrowsWithoutWeb(tasks, r, n);
  }

  lemma ProbePhaseKeepsWebOver(tasks: seq<Task>, run: Run, r: seq<Task>, n: nat)
    requires ProbeNewServices(tasks, run) == Some(r) && WebOver(tasks, n)
    ensures WebOver(r, n)
  {
    ProbeGrows(tasks, run, r);
    ProbesOnly(tasks, run, r);
    GrowsWithoutWeb(tasks, r, n);
  }

  lemma TickPlansNoMoreWeb(tasks: seq<Task>, env: Env, run: Run, n: nat)
    requires WebOver(tasks, n)
    ensures WebOver(Advance(tasks, env, run).tasks, n)
  {
    if !run.passive {
      var a := ScanNewAddresses(tasks, env, run);
      if a.Some? {
        ScanPhaseKeepsWebOver(tasks, env, run, a.value, n);
        var b := ProbeNewServices(a.value, run);
        if b.Some? { ProbePhaseKeepsWebOver(a.value, run, b.value, n); }
      }
    }
  }

  lemma StageStays(tasks: seq<Task>, r: seq<Task>)
    requires Grows(tasks, r) && StageExists(tasks, TechDetect)
    ensures StageExists(r, TechDetect)
  {
    var i :| 0 <= i < |tasks| && tasks[i].stage.TechDetect?;
    GrowsKeeps(tasks, r, i);
  }

  lemma ProbesOnly(tasks: seq<Task>, run: Run, r: seq<Task>)
    requires ProbeNewServices(tasks, run) == Some(r)
    ensures forall i :: |tasks| <= i < |r| ==> r[i].stage.ServiceProbe?
  {
    var specs := Probes(tasks, Probed(tasks)).specs;
    ProbeGrows(tasks, run, r);
    ProbesOk(tasks, Probed(tasks));
    forall i | |tasks| <= i < |r| ensures r[i].stage.ServiceProbe? {
      assert IsProbe(specs[i - |tasks|]);
    }
  }

  /** Once a run has its web stages, no later tick adds any, so a web endpoint that a probe reports after
      that gets none. */
  lemma {:induction false} OneWebWave(s: State, steps: seq<Step>, n: nat)
    requires StageExists(s.tasks, TechDetect) && n <= |s.tasks| && NoWebFrom(s.tasks, n)
    ensures NoWebFrom(After(s, steps).tasks, n)
    decreases |steps|
  {
    if steps != [] {
      var s' := Apply(s, steps[0]);
      forall i | 0 <= i < |s.tasks| ensures i < |s'.tasks| && s'.tasks[i].stage == s.tasks[i].stage {
        StepKeepsTarget(s, steps[0], i);
      }
      if steps[0].Tick? && !s.finished { TickPlansNoMoreWeb(s.tasks, steps[0].env, s.run, n); }
      var i :| 0 <= i < |s.tasks| && s.tasks[i].stage.TechDetect?;
      assert s'.tasks[i].stage.TechDetect?;
      OneWebWave(s', steps[1..], n);
    }
  }

  // ---- a probe of port zero ----

  /** A service on port zero gets a probe whose stored target the planner cannot read back. */
  lemma PortZeroIsUnreadable(tasks: seq<Task>, env: Env, run: Run, k: nat, sv: IPPort)
    requires !run.passive && !Advance(tasks, env, run).outcome.Errored?
    requires k < |tasks| && ScanOver(tasks[k]) && sv in tasks[k].result.services && sv.ip != "" && sv.port == 0
    ensures AnyUnreadable(Advance(tasks, env, run).tasks)
  {
    TickGrows(tasks, env, run);
    GrowsKeeps(tasks, Advance(tasks, env, run).tasks, k);
    TickCoversServices(tasks, env, run, k, sv);
    var r := Advance(tasks, env, run).tasks;
    var i :| 0 <= i < |r| && ProbeOf(r[i], sv);
    assert Portless(r[i]);
  }

  lemma UnreadableFails(tasks: seq<Task>, env: Env, run: Run)
    requires !run.passive && AnyUnreadable(tasks)
    ensures Advance(tasks, env, run).outcome.Errored?
  {
    var a := ScanNewAddresses(tasks, env, run);
    if a.Some? {
      ScanGrows(tasks, env, run, a.value);
      UnreadableStays(tasks, a.value);
      ProbingFails(a.value, run);
    }
  }

  lemma UnreadableStays(tasks: seq<Task>, r: seq<Task>)
    requires Grows(tasks, r) && AnyUnreadable(tasks)
    ensures AnyUnreadable(r)
  {
    var i :| 0 <= i < |tasks| && Portless(tasks[i]);
    GrowsKeeps(tasks, r, i);
    assert Portless(r[i]);
  }

  lemma ProbingFails(tasks: seq<Task>, run: Run)
    requires AnyUnreadable(tasks)
    ensures ProbeNewServices(tasks, run).None?
  {
    var i :| 0 <= i < |tasks| && Portless(tasks[i]);
    assert Unreadable(tasks[i]);
  }

  /** From then on every tick fails before it gets to finish: whatever the workers do, such a run never
      completes. */
  lemma {:induction false} UnreadableNeverFinishes(s: State, steps: seq<Step>)
    requires !s.run.passive && !s.finished && AnyUnreadable(s.tasks)
    ensures !After(s, steps).finished
    decreases |steps|
  {
    if steps != [] {
      var st := steps[0];
      if st.Tick? { UnreadableFails(s.tasks, st.env, s.run); }
      var i :| 0 <= i < |s.tasks| && Portless(s.tasks[i]);
      StepKeepsTarget(s, st, i);
      assert Portless(Apply(s, st).tasks[i]);
      UnreadableNeverFinishes(Apply(s, st), steps[1..]);
    }
  }

  /** Conversely a run whose tasks are all readable and over, whose services have addresses, and that a
      tick has nothing to add to, completes at that tick. */
  lemma ReadableFinishes(tasks: seq<Task>, env: Env, run: Run)
    requires !run.passive && run.passivePool.Some? && tasks != [] && !AnyUnreadable(tasks) && !AnyOutstanding(tasks)
    requires AllAccounted(env, tasks) && AllProbed(tasks) && (WebFound(tasks) ==> StageExists(tasks, TechDetect))
    ensures Advance(tasks, env, run) == Ticked(tasks, Finished)
  {
    NoNewScans(tasks, env, run);
    NoNewProbes(tasks, run);
    PostProbeSpecsWeb(env, tasks);
  }

  // ---- results that ingestion stored ----

  ghost predicate IsSummary(r: StageSummary) { exists obs :: r == Summarize(obs) }

  ghost predicate Ingested(steps: seq<Step>) {
    forall k :: 0 <= k < |steps| && steps[k].Work? ==> IsSummary(steps[k].result)
  }

  predicate AllAddressed(tasks: seq<Task>) {
    forall i, sv :: 0 <= i < |tasks| && sv in tasks[i].result.services ==> sv.ip != ""
  }

  lemma SummaryAddressed(r: StageSummary)
    requires IsSummary(r)
    ensures forall sv :: sv in r.services ==> sv.ip != ""
  {
    var obs :| r == Summarize(obs);
    forall sv | sv in r.services ensures sv.ip != "" { ServicesHaveAddresses(obs, sv); }
  }

  /** Where results are what ingestion distils from observations, services always have addresses, so a
      second tick never adds anything. */
  lemma {:induction false} IngestedStaysAddressed(s: State, steps: seq<Step>)
    requires AllAddressed(s.tasks) && Ingested(steps)
    ensures AllAddressed(After(s, steps).tasks) && Addressed(After(s, steps).tasks)
    decreases |steps|
  {
    if steps != [] {
      var st := steps[0];
      if st.Work? {
        SummaryAddressed(st.result);
      } else if st.Tick? && !s.finished {
        TickGrows(s.tasks, st.env, s.run);
        GrowsAddressed(s.tasks, Advance(s.tasks, st.env, s.run).tasks);
      }
      assert Ingested(steps[1..]);
      IngestedStaysAddressed(Apply(s, st), steps[1..]);
    }
  }

  lemma GrowsAddressed(tasks: seq<Task>, r: seq<Task>)
    requires Grows(tasks, r) && AllAddressed(tasks)
    ensures AllAddressed(r)
  {
    forall i, sv | 0 <= i < |r| && sv in r[i].result.services ensures sv.ip != "" {
      if i < |tasks| { GrowsKeeps(tasks, r, i); }
    }
  }
}
