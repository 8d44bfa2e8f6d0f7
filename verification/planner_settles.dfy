/** A second tick with nothing changed in between. */
module PlannerSettles {
  import opened Options
  import opened Text
  import opened Summary
  import opened Planner
  import opened PlannerFacts
  import opened PlannerAuth
  import opened PlannerTick

  /** Every service of a port scan that is over has an address; what ingestion stores always does. */
  predicate Addressed(tasks: seq<Task>) {
    forall k, sv :: 0 <= k < |tasks| && ScanOver(tasks[k]) && sv in tasks[k].result.services ==> sv.ip != ""
  }

  /** A probe stored with an address and without a port. */
  predicate Portless(t: Task) { t.stage == ServiceProbe && t.target.ip != "" && t.target.port == 0 }

  predicate AnyUnreadable(tasks: seq<Task>) {
    exists i :: 0 <= i < |tasks| && Portless(tasks[i])
  }

  ghost predicate AllAccounted(env: Env, tasks: seq<Task>) {
    forall ip :: FoundByAny(tasks, ip) ==> Accounted(env, tasks, ip)
  }

  predicate AllProbed(tasks: seq<Task>) {
    forall k, sv :: 0 <= k < |tasks| && ScanOver(tasks[k]) && sv in tasks[k].result.services ==>
      EndpointKey(sv.ip, sv.port) in Probed(tasks)
  }

  lemma AccountedIsNotAdmitted(env: Env, tasks: seq<Task>, ip: string, verdict: Admission)
    requires Accounted(env, tasks, ip) && (verdict.Fresh? || verdict.Edge?)
    ensures ip !in Admitted(env, tasks, Found(tasks), verdict)
  {
    if ip in Found(tasks) {
      var origins := Found(tasks)[ip];
      AllowedExactlyScannable(env, ip);
      ScannedExactly(tasks, ip);
      forall k | 0 <= k < |origins|
        ensures Serves(tasks, ip, origins[k]) && (Permits(Auth(env), origins[k]) <==> Sanctioned(env, origins[k]))
      {
        assert origins[k] in origins;
        FoundIs(tasks, ip, origins[k]);
        PermittedExactlySanctioned(env, origins[k]);
      }
    }
  }

  lemma NoNewScans(tasks: seq<Task>, env: Env, run: Run)
    requires AllAccounted(env, tasks) && (Found(tasks) == map[] || run.passivePool.Some?)
    ensures ScanNewAddresses(tasks, env, run) == Some(tasks)
  {
    forall ip, verdict | verdict == Fresh || verdict == Edge ensures ip !in Admitted(env, tasks, Found(tasks), verdict) {
      if ip in Found(tasks) {
        FoundIs(tasks, ip, NIL);
        AccountedIsNotAdmitted(env, tasks, ip, verdict);
      }
    }
    var own, edge := Admitted(env, tasks, Found(tasks), Fresh), Admitted(env, tasks, Found(tasks), Edge);
    assert own == {} && edge == {};
    assert SortedOf(own) == [] && SortedOf(edge) == [];
    assert ScanSpecs(tasks, env) == [];
  }

  lemma {:induction false} NoServices(p: Probing, services: seq<IPPort>, o: Origin)
    requires forall sv :: sv in services ==> EndpointKey(sv.ip, sv.port) in p.seen
    ensures AddServices(p, services, o) == p
    decreases |services|
  {
    if services != [] {
      NoServices(p, services[..|services| - 1], o);
    }
  }

  lemma {:induction false} NoProbes(tasks: seq<Task>, already: set<string>)
    requires forall k, sv :: 0 <= k < |tasks| && ScanOver(tasks[k]) && sv in tasks[k].result.services ==>
               EndpointKey(sv.ip, sv.port) in already
    ensures Probes(tasks, already) == Probing([], already)
    decreases |tasks|
  {
    if tasks != [] {
      var n := |tasks| - 1;
      assert forall k :: 0 <= k < n ==> tasks[..n][k] == tasks[k];
      NoProbes(tasks[..n], already);
      if ScanOver(tasks[n]) { NoServices(Probing([], already), tasks[n].result.services, Origin0(tasks[n].origins)); }
    }
  }

  lemma ServiceProbedKnown(tasks: seq<Task>, sv: IPPort)
    requires ServiceProbed(tasks, sv) && sv.ip != ""
    ensures EndpointKey(sv.ip, sv.port) in Probed(tasks)
  {
    var i :| 0 <= i < |tasks| && ProbeOf(tasks[i], sv);
    assert EndpointKey(sv.ip, sv.port) in EndpointOf(tasks[i]);
    ProbedHas(tasks, i, EndpointKey(sv.ip, sv.port));
  }

  /** With every service's endpoint known the probing phase adds nothing. */
  lemma NoNewProbes(tasks: seq<Task>, run: Run)
    requires !AnyUnreadable(tasks) && run.passivePool.Some? && AllProbed(tasks)
    ensures ProbeNewServices(tasks, run) == Some(tasks)
  {
    NoProbes(tasks, Probed(tasks));
  }

  /** An endpoint without an address is never known as probed. */
  lemma UnaddressedAgain(tasks: seq<Task>, run: Run, k: nat, sv: IPPort)
    requires k < |tasks| && ScanOver(tasks[k]) && sv in tasks[k].result.services && sv.ip == ""
    ensures ProbeNewServices(tasks, run) != Some(tasks)
  {
    var key := EndpointKey(sv.ip, sv.port);
    var p := Probes(tasks, Probed(tasks));
    ProbesOk(tasks, Probed(tasks));
    if key in Probed(tasks) {
      var i := ProbedFrom(tasks, key);
      EndpointKeyInjective(sv.ip, sv.port, tasks[i].target.ip, tasks[i].target.port);
    } else {
      assert key in p.seen;
      assert KeysOf(p.specs) != [];
      var r := ProbeNewServices(tasks, run);
      if r.Some? { ProbeGrows(tasks, run, r.value); }
    }
  }

  /** What a tick that did not fail leaves behind. */
  lemma TickCovers(tasks: seq<Task>, env: Env, run: Run)
    requires !run.passive && !Advance(tasks, env, run).outcome.Errored?
    ensures
      var r := Advance(tasks, env, run).tasks;
      && AllAccounted(env, r) && run.passivePool.Some? && (Addressed(r) ==> AllProbed(r))
      && MaybePostProbe(r, env, run) == Some(r)
  {
    var r := Advance(tasks, env, run).tasks;
    forall ip | FoundByAny(r, ip) ensures Accounted(env, r, ip) { TickCoversAddresses(tasks, env, run, ip); }
    forall k, sv | Addressed(r) && 0 <= k < |r| && ScanOver(r[k]) && sv in r[k].result.services
      ensures EndpointKey(sv.ip, sv.port) in Probed(r)
    {
      TickCoversServices(tasks, env, run, k, sv);
      ServiceProbedKnown(r, sv);
    }
    WebOnce(tasks, env, run);
  }

  lemma WebOnce(tasks: seq<Task>, env: Env, run: Run)
    requires !run.passive && !Advance(tasks, env, run).outcome.Errored?
    ensures MaybePostProbe(Advance(tasks, env, run).tasks, env, run) == Some(Advance(tasks, env, run).tasks)
  {
    var a := ScanNewAddresses(tasks, env, run).value;
    var b := ProbeNewServices(a, run).value;
    var c := MaybePostProbe(b, env, run).value;
    PostGrows(b, env, run, c);
    if |c| > |b| {
      assert StageExists(c, TechDetect);
    } else {
      assert c == b;
    }
  }

  /** A second tick over unchanged tasks and an unchanged database inserts nothing and decides the same,
      exactly when every service has an address; an endpoint of port zero makes it fail instead. */
  lemma SecondTickAddsNothing(tasks: seq<Task>, env: Env, run: Run)
    requires !run.passive && !Advance(tasks, env, run).outcome.Errored?
    ensures
      var r := Advance(tasks, env, run);
      && (AnyUnreadable(r.tasks) ==> Advance(r.tasks, env, run) == Ticked(r.tasks, Errored))
      && (!AnyUnreadable(r.tasks) ==> (Addressed(r.tasks) <==> Advance(r.tasks, env, run) == r))
  {
    TickCovers(tasks, env, run);
    TickVerdict(tasks, env, run);
    SecondOf(Advance(tasks, env, run), env, run);
  }

  lemma SecondOf(r: Ticked, env: Env, run: Run)
    requires !run.passive && run.passivePool.Some? && AllAccounted(env, r.tasks) && (Addressed(r.tasks) ==> AllProbed(r.tasks))
    requires MaybePostProbe(r.tasks, env, run) == Some(r.tasks) && r == Verdict(r.tasks)
    ensures AnyUnreadable(r.tasks) ==> Advance(r.tasks, env, run) == Ticked(r.tasks, Errored)
    ensures !AnyUnreadable(r.tasks) ==> (Addressed(r.tasks) <==> Advance(r.tasks, env, run) == r)
  {
    Settled(r.tasks, env, run);
  }

  lemma Settled(tasks: seq<Task>, env: Env, run: Run)
    requires !run.passive && run.passivePool.Some? && AllAccounted(env, tasks) && (Addressed(tasks) ==> AllProbed(tasks))
    requires MaybePostProbe(tasks, env, run) == Some(tasks)
    ensures AnyUnreadable(tasks) ==> Advance(tasks, env, run) == Ticked(tasks, Errored)
    ensures !AnyUnreadable(tasks) ==> (Addressed(tasks) <==> Advance(tasks, env, run) == Verdict(tasks))
  {
    NoNewScans(tasks, env, run);
    if !AnyUnreadable(tasks) {
      if Addressed(tasks) {
        NoNewProbes(tasks, run);
      } else {
        var k, sv :| 0 <= k < |tasks| && ScanOver(tasks[k]) && sv in tasks[k].result.services && sv.ip == "";
        UnaddressedAgain(tasks, run, k, sv);
        ProbingAgainShows(tasks, env, run);
      }
    }
  }

  lemma ProbingAgainShows(tasks: seq<Task>, env: Env, run: Run)
    requires !run.passive && ScanNewAddresses(tasks, env, run) == Some(tasks)
    requires ProbeNewServices(tasks, run) != Some(tasks)
    ensures Advance(tasks, env, run).outcome.Errored? || |Advance(tasks, env, run).tasks| > |tasks|
  {
    var b := ProbeNewServices(tasks, run);
    if b.Some? {
      ProbeGrows(tasks, run, b.value);
      assert b.value[..|b.value|] == b.value;
      assert |b.value| > |tasks|;
      var c := MaybePostProbe(b.value, env, run);
      if c.Some? { PostGrows(b.value, env, run, c.value); }
    }
  }

  /** Ticks that fail leave a state in which the same tick fails again and adds nothing, provided the
      services have addresses. */
  lemma FailedTickFailsAgain(tasks: seq<Task>, env: Env, run: Run)
    requires Advance(tasks, env, run).outcome.Errored?
    requires Addressed(Advance(tasks, env, run).tasks)
    ensures Advance(Advance(tasks, env, run).tasks, env, run) == Advance(tasks, env, run)
  {
    var a := ScanNewAddresses(tasks, env, run);
    if a.Some? {
      ScanGrows(tasks, env, run, a.value);
      forall ip | FoundByAny(a.value, ip) ensures Accounted(env, a.value, ip) {
        GrowsFound(tasks, a.value, ip, NIL);
        ScanCovers(tasks, env, run, a.value, ip);
      }
      FoundNothing(tasks, a.value);
      var b := ProbeNewServices(a.value, run);
      if b.None? {
        NoNewScans(a.value, env, run);
      } else {
        ProbedThenFailed(a.value, b.value, env, run);
      }
    }
  }

  lemma FoundNothing(tasks: seq<Task>, r: seq<Task>)
    requires Grows(tasks, r)
    ensures Found(tasks) == map[] <==> Found(r) == map[]
  {
    forall ip ensures ip in Found(tasks) <==> ip in Found(r) {
      GrowsFound(tasks, r, ip, NIL);
      FoundIs(tasks, ip, NIL);
      FoundIs(r, ip, NIL);
    }
  }

  lemma ProbedThenFailed(a: seq<Task>, b: seq<Task>, env: Env, run: Run)
    requires !run.passive && ProbeNewServices(a, run) == Some(b) && MaybePostProbe(b, env, run).None?
    requires AllAccounted(env, a) && Addressed(b)
    ensures Advance(b, env, run) == Ticked(b, Errored)
  {
    ProbeGrows(a, run, b);
    forall ip | FoundByAny(b, ip) ensures Accounted(env, b, ip) {
      GrowsFound(a, b, ip, NIL);
      GrowsAccounted(env, a, b, ip);
    }
    NoNewScans(b, env, run);
    forall k, sv | 0 <= k < |b| && ScanOver(b[k]) && sv in b[k].result.services
      ensures EndpointKey(sv.ip, sv.port) in Probed(b)
    {
      GrowsKeeps(a, b, k);
      ProbeCovers(a, run, b, k, sv);
      ServiceProbedKnown(b, sv);
    }
    if !AnyUnreadable(b) { NoNewProbes(b, run); }
  }
}
