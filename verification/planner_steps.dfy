/** The planner's tick as it is carried out, on the run's task table in place. */
module PlannerSteps {
  import opened Lists
  import opened Options
  import opened Text
  import opened Targets
  import opened Summary
  import opened Planner
  import Guard

  method MergeOrigins(a: seq<Origin>, b: seq<Origin>) returns (r: seq<Origin>)
    ensures r == Merge(a, b)
  {
    r := a;
    var seen: set<Origin> := set x | x in a;
    for i := 0 to |b|
      invariant r == Merge(a, b[..i]) && seen == set x | x in r
    {
      assert b[..i + 1][..i] == b[..i];
      if b[i] !in seen {
        r := r + [b[i]];
        seen := seen + {b[i]};
      }
    }
    assert b[..|b|] == b;
  }

  method StoreOrigins(o: seq<Origin>) returns (r: seq<Origin>)
    ensures r == StoredOrigins(o)
  {
    r := [];
    for i := 0 to |o|
      invariant r == StoredOrigins(o[..i])
    {
      assert o[..i + 1][..i] == o[..i];
      if o[i] != NIL && o[i] !in r { r := r + [o[i]]; }
    }
    assert o[..|o|] == o;
  }

  /** Stops at the first active task that has no pool to run from. */
  method RouteTasks(specs: seq<Spec>, run: Run) returns (r: Option<seq<Spec>>)
    ensures r == Routed(specs, run)
  {
    var out := specs;
    for i := 0 to |specs|
      invariant |out| == |specs| && out[i..] == specs[i..]
      invariant forall j :: 0 <= j < i ==> out[j] == RoutedSpec(specs[j], run)
      invariant run.exitPool.None? ==> forall j :: 0 <= j < i ==> !specs[j].stage.SendsTrafficToTarget()
    {
      if out[i].stage.SendsTrafficToTarget() {
        if run.exitPool.None? { return None; }
        out := out[i := out[i].(pool := run.exitPool)];
      } else {
        out := out[i := out[i].(pool := run.passivePool)];
      }
    }
    assert out == seq(|specs|, i requires 0 <= i < |specs| => RoutedSpec(specs[i], run));
    r := Some(out);
  }

  method AuthorizedTargets(env: Env) returns (auth: map<Origin, bool>)
    ensures auth == Auth(env)
  {
    var rows := Merged(env.scope);
    var byValue: map<string, bool> := map[];
    for i := 0 to |rows|
      invariant byValue == AuthByValue(rows[..i])
    {
      assert rows[..i + 1][..i] == rows[..i];
      byValue := byValue[rows[i].value := rows[i].Authorized()];
    }
    assert rows[..|rows|] == rows;
    auth := map[];
    var rts := env.runTargets;
    for i := 0 to |rts|
      invariant auth == AuthorizedRunTargets(rts[..i], byValue)
    {
      assert rts[..i + 1][..i] == rts[..i];
      auth := auth[rts[i].id := rts[i].value in byValue && byValue[rts[i].value]];
    }
    assert rts[..|rts|] == rts;
  }

  method AnyOf(auth: map<Origin, bool>, origins: seq<Origin>) returns (permitted: bool)
    ensures permitted == AnyPermitted(auth, origins)
  {
    permitted := false;
    for i := 0 to |origins|
      invariant !permitted && forall j :: 0 <= j < i ==> !Permits(auth, origins[j])
    {
      if Permits(auth, origins[i]) { return true; }
    }
  }

  method OriginsOf(batch: seq<string>, found: map<string, seq<Origin>>) returns (origins: seq<Origin>)
    ensures origins == BatchOrigins(batch, found)
  {
    origins := [];
    for j := 0 to |batch|
      invariant origins == BatchOrigins(batch[..j], found)
    {
      assert batch[..j + 1][..j] == batch[..j];
      origins := MergeOrigins(origins, if batch[j] in found then found[batch[j]] else []);
    }
    assert batch[..|batch|] == batch;
  }

  lemma NextBatch(ips: seq<string>, i: nat, end: nat, ports: string, found: map<string, seq<Origin>>, origins: seq<Origin>,
                  done: seq<Spec>, left: seq<Spec>) returns (left': seq<Spec>)
    requires i < |ips| && end == if i + SCAN_BATCH_SIZE > |ips| then |ips| else i + SCAN_BATCH_SIZE
    requires origins == BatchOrigins(ips[i..end], found) && left == BatchSpecs(ips[i..], ports, found)
    ensures left' == BatchSpecs(ips[end..], ports, found)
    ensures done + left == done + (if origins == [] then [] else [BatchSpec(ips[i..end], ports, origins)]) + left'
  {
    left' := BatchSpecs(ips[end..], ports, found);
    Slices(ips, i, end);
    FirstBatch(ips[i..], end - i, ips[i..end], ips[end..], ports, found);
    Associative(done, if origins == [] then [] else [BatchSpec(ips[i..end], ports, origins)], left');
  }

  lemma Slices(s: seq<string>, i: nat, end: nat)
    requires i <= end <= |s|
    ensures s[i..][..end - i] == s[i..end] && s[i..][end - i..] == s[end..]
  {
  }

  lemma FirstBatch(ips: seq<string>, k: nat, batch: seq<string>, rest: seq<string>, ports: string, found: map<string, seq<Origin>>)
    requires ips != [] && k == (if |ips| < SCAN_BATCH_SIZE then |ips| else SCAN_BATCH_SIZE)
    requires batch == ips[..k] && rest == ips[k..]
    ensures
      var origins := BatchOrigins(batch, found);
      BatchSpecs(ips, ports, found) ==
        (if origins == [] then [] else [BatchSpec(batch, ports, origins)]) + BatchSpecs(rest, ports, found)
  {
  }

  /** Cuts sorted addresses into batches of at most 64, with a port scan for each. */
  method Batches(ips: seq<string>, ports: string, found: map<string, seq<Origin>>) returns (specs: seq<Spec>)
    ensures specs == BatchSpecs(ips, ports, found)
  {
    specs := [];
    var i := 0;
    ghost var all, left := BatchSpecs(ips, ports, found), BatchSpecs(ips, ports, found);
    assert ips[0..] == ips;
    while i < |ips|
      invariant 0 <= i <= |ips| && specs + left == all && left == BatchSpecs(ips[i..], ports, found)
    {
      var end := if i + SCAN_BATCH_SIZE > |ips| then |ips| else i + SCAN_BATCH_SIZE;
      var origins := OriginsOf(ips[i..end], found);
      var next := if origins == [] then []
                  else [Spec(PortScan, BatchTarget(ips[i..end], ports), 100, [RAW_SOCKET], origins, None)];
      left := NextBatch(ips, i, end, ports, found, origins, specs, left);
      specs := specs + next;
      i := end;
    }
  }

  method WebTargetsOf(url: string, parts: Option<UrlParts>, ip: string, port: int, names: seq<string>, cap: int)
    returns (r: seq<Target>)
    ensures r == WebTargets(url, parts, ip, port, names, cap)
  {
    if names == [] { return [Target("", "", [], ip, port, url, "", "")]; }
    var scheme := if parts.Some? && parts.value.scheme != "" then parts.value.scheme else "http";
    var kept := if 0 < cap < |names| then names[..cap] else names;
    r := [];
    for i := 0 to |kept|
      invariant |r| == i
      invariant forall j :: 0 <= j < i ==>
        r[j] == Target("", "", [], ip, port, scheme + "://" + kept[j] + PortText(scheme, port), kept[j], "")
    {
      r := r + [Target("", "", [], ip, port, scheme + "://" + kept[i] + PortText(scheme, port), kept[i], "")];
    }
  }

  class TaskTable {
    /** The run's tasks, oldest first. */
    var tasks: seq<Task>

    constructor (tasks: seq<Task>)
      ensures this.tasks == tasks
    {
      this.tasks := tasks;
    }

    method InsertTasks(specs: seq<Spec>)
      modifies this
      ensures tasks == Inserted(old(tasks), specs)
    {
      for i := 0 to |specs|
        invariant |tasks| == |old(tasks)| + i && tasks[..|old(tasks)|] == old(tasks)
        invariant forall j :: 0 <= j < i ==> tasks[|old(tasks)| + j] == TaskOf(specs[j])
      {
        var origins := StoreOrigins(specs[i].origins);
        tasks := tasks + [TaskOf(specs[i]).(origins := origins)];
      }
    }

    /** Routes and inserts; on failure the table is as it was. */
    method PlanTasks(specs: seq<Spec>, run: Run) returns (ok: bool)
      modifies this
      ensures ok <==> Plan(old(tasks), specs, run).Some?
      ensures tasks == if ok then Plan(old(tasks), specs, run).value else old(tasks)
    {
      if specs == [] { return true; }
      var routed := RouteTasks(specs, run);
      ok := routed.Some?;
      if ok { InsertTasks(routed.value); }
    }

    method AddFound(m: map<string, seq<Origin>>, stage: Stage) returns (r: map<string, seq<Origin>>)
      ensures r == AddStage(m, tasks, stage)
    {
      r := m;
      for i := 0 to |tasks|
        invariant r == AddStage(m, tasks[..i], stage)
      {
        assert tasks[..i + 1][..i] == tasks[..i];
        var t := tasks[i];
        if t.stage != stage || !t.status.Done? { continue; }
        var ips := t.result.ips;
        ghost var before := r;
        for k := 0 to |ips|
          invariant r == AddAddresses(before, ips[..k], t.origins)
        {
          assert ips[..k + 1][..k] == ips[..k];
          var merged := MergeOrigins(if ips[k] in r then r[ips[k]] else [], t.origins);
          r := r[ips[k] := merged];
        }
        assert ips[..|ips|] == ips;
      }
      assert tasks[..|tasks|] == tasks;
    }

    method AlreadyScanned() returns (r: set<string>)
      ensures r == Scanned(tasks)
    {
      r := {};
      for i := 0 to |tasks|
        invariant r == Scanned(tasks[..i])
      {
        assert tasks[..i + 1][..i] == tasks[..i];
        r := r + ScannedBy(tasks[i]);
      }
      assert tasks[..|tasks|] == tasks;
    }

    /** Goes through the found addresses in no particular order. */
    method Sift(env: Env, found: map<string, seq<Origin>>) returns (own: set<string>, edge: set<string>)
      ensures own == Admitted(env, tasks, found, Fresh) && edge == Admitted(env, tasks, found, Edge)
    {
      var auth := AuthorizedTargets(env);
      var already := AlreadyScanned();
      var exclusions := Guard.New(Merged(env.scope), env.prefixes);
      own, edge := {}, {};
      var left := found.Keys;
      while left != {}
        invariant left <= found.Keys
        invariant own == set ip | ip in found.Keys - left && Admit(env, already, ip, found[ip]) == Fresh
        invariant edge == set ip | ip in found.Keys - left && Admit(env, already, ip, found[ip]) == Edge
        decreases left
      {
        var ip :| ip in left;
        left := left - {ip};
        if ip in already { continue; }
        var permitted := AnyOf(auth, found[ip]);
        if !permitted { continue; }
        var isCDN := ip in env.shared && env.CdnPorts() != "all";
        if isCDN && env.CdnPorts() == "none" { continue; }
        var d := Guard.CheckIP(env.allowPrivate, exclusions, if ip in env.addrs then Some(env.addrs[ip]) else None, false);
        if !d.Allowed? { continue; }
        if isCDN { edge := edge + {ip}; } else { own := own + {ip}; }
      }
    }

    method CollectFound() returns (found: map<string, seq<Origin>>)
      ensures found == Found(tasks)
    {
      found := AddFound(map[], PassiveEnum);
      found := AddFound(found, DnsBrute);
      found := AddFound(found, DnsResolve);
    }

    /** Addresses on the run's own ports first, then those of a CDN on its ports. */
    method ScanBatches(env: Env, found: map<string, seq<Origin>>) returns (specs: seq<Spec>)
      ensures specs == BatchSpecs(SortedOf(Admitted(env, tasks, found, Fresh)), "", found)
                       + BatchSpecs(SortedOf(Admitted(env, tasks, found, Edge)), env.CdnPorts(), found)
    {
      var own, edge := Sift(env, found);
      var sorted := Sort(own);
      specs := Batches(sorted, "", found);
      sorted := Sort(edge);
      var more := Batches(sorted, env.CdnPorts(), found);
      specs := specs + more;
    }

    method ScanAddresses(env: Env, run: Run) returns (ok: bool)
      modifies this
      ensures ok <==> ScanNewAddresses(old(tasks), env, run).Some?
      ensures tasks == if ok then ScanNewAddresses(old(tasks), env, run).value else old(tasks)
    {
      var found := CollectFound();
      if found == map[] { return true; }
      if run.passivePool.None? { return false; }
      var specs := ScanBatches(env, found);
      ok := PlanTasks(specs, run);
    }

    /** None where a stored endpoint cannot be read back. */
    method ReadProbed() returns (r: Option<set<string>>)
      ensures r == ProbedEndpoints(tasks)
    {
      var keys: set<string> := {};
      for i := 0 to |tasks|
        invariant keys == Probed(tasks[..i]) && forall j :: 0 <= j < i ==> !Unreadable(tasks[j])
      {
        assert tasks[..i + 1][..i] == tasks[..i];
        if Unreadable(tasks[i]) { return None; }
        keys := keys + EndpointOf(tasks[i]);
      }
      assert tasks[..|tasks|] == tasks;
      r := Some(keys);
    }

    static method MoreProbes(planned: seq<Spec>, known: set<string>, services: seq<IPPort>, o: Origin)
      returns (specs: seq<Spec>, already: set<string>)
      ensures Probing(specs, already) == AddServices(Probing(planned, known), services, o)
    {
      specs, already := planned, known;
      for k := 0 to |services|
        invariant Probing(specs, already) == AddServices(Probing(planned, known), services[..k], o)
      {
        assert services[..k + 1][..k] == services[..k];
        var key := EndpointKey(services[k].ip, services[k].port);
        if key in already { continue; }
        already := already + {key};
        specs := specs + [Spec(ServiceProbe, EndpointTarget(services[k].ip, services[k].port), 200, [], [o], None)];
      }
      assert services[..|services|] == services;
    }

    method ProbeServices(run: Run) returns (ok: bool)
      modifies this
      ensures ok <==> ProbeNewServices(old(tasks), run).Some?
      ensures tasks == if ok then ProbeNewServices(old(tasks), run).value else old(tasks)
    {
      var probed := ReadProbed();
      if probed.None? || run.passivePool.None? { return false; }
      var specs: seq<Spec>, already := [], probed.value;
      for i := 0 to |tasks|
        invariant tasks == old(tasks)
        invariant Probing(specs, already) == Probes(tasks[..i], probed.value)
      {
        assert tasks[..i + 1][..i] == tasks[..i];
        var t := tasks[i];
        if !ScanOver(t) { continue; }
        specs, already := MoreProbes(specs, already, t.result.services, Origin0(t.origins));
      }
      assert tasks[..|tasks|] == tasks;
      ok := PlanTasks(specs, run);
    }

    static method NamesOnce(env: Env, known: map<string, seq<string>>, ip: string) returns (r: map<string, seq<string>>)
      requires forall ip :: ip in known ==> known[ip] == NamesFor(env, ip)
      ensures ip in r && forall ip :: ip in r ==> r[ip] == NamesFor(env, ip)
    {
      r := if ip in known then known else known[ip := NamesFor(env, ip)];
    }

    static method UrlStages(env: Env, urls: seq<string>, o: Origin, known: map<string, seq<string>>)
      returns (specs: seq<Spec>, r: map<string, seq<string>>)
      requires forall ip :: ip in known ==> known[ip] == NamesFor(env, ip)
      ensures specs == UrlSpecs(env, urls, o) && forall ip :: ip in r ==> r[ip] == NamesFor(env, ip)
    {
      specs, r := [], known;
      for k := 0 to |urls|
        invariant specs == UrlSpecs(env, urls[..k], o)
        invariant forall ip :: ip in r ==> r[ip] == NamesFor(env, ip)
      {
        assert urls[..k + 1][..k] == urls[..k];
        var parts := if urls[k] in env.urls then Some(env.urls[urls[k]]) else None;
        var (ip, port) := Endpoint(parts);
        r := NamesOnce(env, r, ip);
        var targets := WebTargetsOf(urls[k], parts, ip, port, r[ip], MaxVhosts(env));
        assert targets == TargetsFor(env, urls[k]);
        var planned := StagesFor(env, targets, o);
        specs := specs + planned;
      }
      assert urls[..|urls|] == urls;
    }

    /** The web stages of every target of every live URL; names are looked up once per address. */
    method WebStages(env: Env) returns (specs: seq<Spec>)
      ensures specs == PostProbeSpecs(env, tasks)
    {
      var namesFor: map<string, seq<string>> := map[];
      specs := [];
      for i := 0 to |tasks|
        invariant specs == PostProbeSpecs(env, tasks[..i])
        invariant forall ip :: ip in namesFor ==> namesFor[ip] == NamesFor(env, ip)
      {
        assert tasks[..i + 1][..i] == tasks[..i];
        if !tasks[i].stage.ServiceProbe? { continue; }
        var planned: seq<Spec>;
        planned, namesFor := UrlStages(env, tasks[i].result.webURLs, Origin0(tasks[i].origins), namesFor);
        specs := specs + planned;
      }
      assert tasks[..|tasks|] == tasks;
    }

    static method StagesFor(env: Env, targets: seq<Target>, o: Origin) returns (specs: seq<Spec>)
      ensures specs == TargetSpecs(env, targets, o)
    {
      specs := [];
      for j := 0 to |targets|
        invariant specs == TargetSpecs(env, targets[..j], o)
      {
        assert targets[..j + 1][..j] == targets[..j];
        var tgt := targets[j];
        ghost var before := specs;
        specs := specs + [Spec(TechDetect, tgt, 300, [], [o], None), Spec(Stage.Screenshot, tgt, 310, [BROWSER], [o], None)];
        if DirBrutePlanned(env) { specs := specs + [Spec(DirBrute, tgt, 320, [], [o], None)]; }
        if VulnCheckPlanned(env) { specs := specs + [Spec(VulnCheck, tgt, 330, [], [o], None)]; }
        assert specs == before + WebSpecs(env, tgt, o);
      }
      assert targets[..|targets|] == targets;
    }

    method PostProbe(env: Env, run: Run) returns (ok: bool)
      modifies this
      ensures ok <==> MaybePostProbe(old(tasks), env, run).Some?
      ensures tasks == if ok then MaybePostProbe(old(tasks), env, run).value else old(tasks)
    {
      if StageExists(tasks, TechDetect) || StageOutstanding(tasks, ServiceProbe) { return true; }
      if run.passivePool.None? { return false; }
      var specs := WebStages(env);
      ok := PlanTasks(specs, run);
    }

    method Tick(env: Env, run: Run) returns (outcome: Outcome)
      modifies this
      ensures Ticked(tasks, outcome) == Advance(old(tasks), env, run)
    {
      if !run.passive {
        var ok := ScanAddresses(env, run);
        if !ok { return Errored; }
        ok := ProbeServices(run);
        if !ok { return Errored; }
        ok := PostProbe(env, run);
        if !ok { return Errored; }
      }
      var outstanding := 0;
      for i := 0 to |tasks|
        invariant outstanding > 0 <==> exists j :: 0 <= j < i && tasks[j].Outstanding()
      {
        if tasks[i].Outstanding() { outstanding := outstanding + 1; }
      }
      outcome := if |tasks| > 0 && outstanding == 0 then Finished else Going;
    }
  }
}
