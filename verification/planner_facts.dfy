/** What one tick of the planner does, independently of how it computes it. */
module PlannerFacts {
  import opened Lists
  import opened Text
  import opened Planner

  // ---- stored origins ----

  function NotNil(o: seq<Origin>): seq<Origin> {
    if o == [] then [] else NotNil(o[..|o| - 1]) + if o[|o| - 1] != 0 then [o[|o| - 1]] else []
  }

  lemma {:induction false} NotNilAre(o: seq<Origin>, x: Origin)
    ensures x in NotNil(o) <==> x in o && x != 0
    decreases |o|
  {
    if o != [] {
      NotNilAre(o[..|o| - 1], x);
      assert o == o[..|o| - 1] + [o[|o| - 1]];
    }
  }

  lemma {:induction false} StoredIsDistinct(o: seq<Origin>)
    ensures StoredOrigins(o) == Distinct(NotNil(o))
    decreases |o|
  {
    if o != [] {
      var before := NotNil(o[..|o| - 1]);
      StoredIsDistinct(o[..|o| - 1]);
      if o[|o| - 1] != 0 { assert NotNil(o)[..|before|] == before; } else { assert NotNil(o) == before; }
    }
  }

  /** Stored are the ids given other than nil, each once, in the order they were first given. */
  lemma StoredOriginsAre(o: seq<Origin>)
    ensures FirstSeen(StoredOrigins(o), NotNil(o))
    ensures forall x :: x in StoredOrigins(o) <==> x in o && x != 0
  {
    StoredIsDistinct(o);
    DistinctIsFirstSeen(NotNil(o));
    forall x ensures x in StoredOrigins(o) <==> x in o && x != 0 { NotNilAre(o, x); }
  }

  // ---- the addresses found ----

  predicate ReportsAs(t: Task, stage: Stage, ip: string) {
    t.stage == stage && t.status.Done? && ip in t.result.ips
  }

  predicate FoundAs(tasks: seq<Task>, stage: Stage, ip: string) {
    exists i :: 0 <= i < |tasks| && ReportsAs(tasks[i], stage, ip)
  }

  predicate FoundFor(tasks: seq<Task>, stage: Stage, ip: string, o: Origin) {
    exists i :: 0 <= i < |tasks| && ReportsAs(tasks[i], stage, ip) && o in tasks[i].origins
  }

  lemma {:induction false} AddAddressesIs(m: map<string, seq<Origin>>, ips: seq<string>, os: seq<Origin>, ip: string, o: Origin)
    ensures ip in AddAddresses(m, ips, os) <==> ip in m || ip in ips
    ensures ip in AddAddresses(m, ips, os) ==>
              (o in AddAddresses(m, ips, os)[ip] <==> (ip in m && o in m[ip]) || (ip in ips && o in os))
    decreases |ips|
  {
    if ips != [] {
      var n := |ips| - 1;
      var m' := AddAddresses(m, ips[..n], os);
      AddAddressesIs(m, ips[..n], os, ip, o);
      assert ips == ips[..n] + [ips[n]];
      MergeElements(if ip in m' then m'[ip] else [], os);
    }
  }

  lemma LastFound(tasks: seq<Task>, stage: Stage, ip: string, o: Origin)
    requires tasks != []
    ensures
      var n := |tasks| - 1;
      && (FoundAs(tasks, stage, ip) <==> FoundAs(tasks[..n], stage, ip) || ReportsAs(tasks[n], stage, ip))
      && (FoundFor(tasks, stage, ip, o) <==>
            FoundFor(tasks[..n], stage, ip, o) || (ReportsAs(tasks[n], stage, ip) && o in tasks[n].origins))
  {
    var n := |tasks| - 1;
    assert forall i :: 0 <= i < n ==> tasks[..n][i] == tasks[i];
    if FoundAs(tasks[..n], stage, ip) {
      var i :| 0 <= i < n && ReportsAs(tasks[..n][i], stage, ip);
      assert ReportsAs(tasks[i], stage, ip);
    }
    if FoundFor(tasks[..n], stage, ip, o) {
      var i :| 0 <= i < n && ReportsAs(tasks[..n][i], stage, ip) && o in tasks[..n][i].origins;
      assert ReportsAs(tasks[i], stage, ip);
    }
  }

  lemma {:induction false} AddStageIs(m: map<string, seq<Origin>>, tasks: seq<Task>, stage: Stage, ip: string, o: Origin)
    ensures
      var r := AddStage(m, tasks, stage);
      && (ip in r <==> ip in m || FoundAs(tasks, stage, ip))
      && (ip in r ==> (o in r[ip] <==> (ip in m && o in m[ip]) || FoundFor(tasks, stage, ip, o)))
    decreases |tasks|
  {
    if tasks != [] {
      var n := |tasks| - 1;
      AddStageIs(m, tasks[..n], stage, ip, o);
      LastFound(tasks, stage, ip, o);
      AddAddressesIs(AddStage(m, tasks[..n], stage), tasks[n].result.ips, tasks[n].origins, ip, o);
    }
  }

  predicate FoundByAny(tasks: seq<Task>, ip: string) {
    exists i :: 0 <= i < |tasks| && Reports(tasks[i], ip)
  }

  predicate ServesVia(t: Task, ip: string, o: Origin) { Reports(t, ip) && o in t.origins }

  predicate Serves(tasks: seq<Task>, ip: string, o: Origin) {
    exists i :: 0 <= i < |tasks| && ServesVia(tasks[i], ip, o)
  }

  /** The union over all discovery tasks that are done: every address any of them reports, with the run
      targets of all that report it. */
  lemma FoundIs(tasks: seq<Task>, ip: string, o: Origin)
    ensures ip in Found(tasks) <==> FoundByAny(tasks, ip)
    ensures ip in Found(tasks) ==> (o in Found(tasks)[ip] <==> Serves(tasks, ip, o))
  {
    var m1 := AddStage(map[], tasks, PassiveEnum);
    var m2 := AddStage(m1, tasks, DnsBrute);
    AddStageIs(map[], tasks, PassiveEnum, ip, o);
    AddStageIs(m1, tasks, DnsBrute, ip, o);
    AddStageIs(m2, tasks, DnsResolve, ip, o);
    AnyStage(tasks, ip, o);
  }

  lemma AnyStage(tasks: seq<Task>, ip: string, o: Origin)
    ensures FoundByAny(tasks, ip) <==>
            FoundAs(tasks, PassiveEnum, ip) || FoundAs(tasks, DnsBrute, ip) || FoundAs(tasks, DnsResolve, ip)
    ensures Serves(tasks, ip, o) <==>
            FoundFor(tasks, PassiveEnum, ip, o) || FoundFor(tasks, DnsBrute, ip, o) || FoundFor(tasks, DnsResolve, ip, o)
  {
    forall i | 0 <= i < |tasks|
      ensures Reports(tasks[i], ip) <==>
              || ReportsAs(tasks[i], PassiveEnum, ip) || ReportsAs(tasks[i], DnsBrute, ip)
              || ReportsAs(tasks[i], DnsResolve, ip)
    {
    }
    assert FoundByAny(tasks, ip) ==>
      FoundAs(tasks, PassiveEnum, ip) || FoundAs(tasks, DnsBrute, ip) || FoundAs(tasks, DnsResolve, ip);
    if Serves(tasks, ip, o) {
      var i :| 0 <= i < |tasks| && ServesVia(tasks[i], ip, o);
      assert Reports(tasks[i], ip);
    }
    forall i | 0 <= i < |tasks| && Reports(tasks[i], ip) && o in tasks[i].origins ensures Serves(tasks, ip, o) {
      assert ServesVia(tasks[i], ip, o);
    }
  }

  // ---- what is scanned and probed already ----

  lemma {:induction false} ScannedIs(tasks: seq<Task>, ip: string)
    ensures ip in Scanned(tasks) <==> exists i :: 0 <= i < |tasks| && ip in ScannedBy(tasks[i])
    decreases |tasks|
  {
    if tasks != [] {
      var n := |tasks| - 1;
      ScannedIs(tasks[..n], ip);
      assert forall i :: 0 <= i < n ==> tasks[..n][i] == tasks[i];
      if ip in Scanned(tasks[..n]) {
        var i :| 0 <= i < n && ip in ScannedBy(tasks[..n][i]);
        assert ip in ScannedBy(tasks[i]);
      }
    }
  }

  lemma {:induction false} ProbedHas(tasks: seq<Task>, i: nat, key: string)
    requires i < |tasks| && key in EndpointOf(tasks[i])
    ensures key in Probed(tasks)
    decreases |tasks|
  {
    var n := |tasks| - 1;
    if i < n {
      assert tasks[..n][i] == tasks[i];
      ProbedHas(tasks[..n], i, key);
    }
  }

  lemma {:induction false} ProbedFrom(tasks: seq<Task>, key: string) returns (i: nat)
    requires key in Probed(tasks)
    ensures i < |tasks| && key in EndpointOf(tasks[i])
    decreases |tasks|
  {
    var n := |tasks| - 1;
    if key in EndpointOf(tasks[n]) {
      i := n;
    } else {
      i := ProbedFrom(tasks[..n], key);
      assert tasks[..n][i] == tasks[i];
    }
  }

  // ---- batches ----

  lemma {:induction false} BatchOriginsAre(batch: seq<string>, found: map<string, seq<Origin>>, o: Origin)
    ensures o in BatchOrigins(batch, found) <==> exists ip :: ip in batch && ip in found && o in found[ip]
    decreases |batch|
  {
    if batch != [] {
      var n := |batch| - 1;
      BatchOriginsAre(batch[..n], found, o);
      assert batch == batch[..n] + [batch[n]];
      MergeElements(BatchOrigins(batch[..n], found), if batch[n] in found then found[batch[n]] else []);
    }
  }

  function AddressesOfSpecs(specs: seq<Spec>): seq<string> {
    if specs == [] then [] else specs[0].target.ips + AddressesOfSpecs(specs[1..])
  }

  /** A batch: at most 64 addresses, on one port set, for the run targets of all of them. */
  predicate BatchOk(sp: Spec, ports: string, found: map<string, seq<Origin>>) {
    && sp == BatchSpec(sp.target.ips, ports, BatchOrigins(sp.target.ips, found))
    && 0 < |sp.target.ips| <= SCAN_BATCH_SIZE
  }

  /** The batches are the given addresses cut into consecutive pieces. Addresses that were found for
      someone never meet the skip for a batch without run targets, so none is lost. */
  lemma {:induction false} BatchesPartition(ips: seq<string>, ports: string, found: map<string, seq<Origin>>)
    requires forall i :: 0 <= i < |ips| ==> ips[i] in found && found[ips[i]] != []
    ensures AddressesOfSpecs(BatchSpecs(ips, ports, found)) == ips
    ensures forall i :: 0 <= i < |BatchSpecs(ips, ports, found)| ==> BatchOk(BatchSpecs(ips, ports, found)[i], ports, found)
    decreases |ips|
  {
    if ips != [] {
      var k := if |ips| < SCAN_BATCH_SIZE then |ips| else SCAN_BATCH_SIZE;
      var batch := ips[..k];
      var origins := BatchOrigins(batch, found);
      BatchOriginsAre(batch, found, found[ips[0]][0]);
      assert batch[0] == ips[0] && batch[0] in batch;
      assert origins != [];
      BatchesPartition(ips[k..], ports, found);
      assert BatchSpecs(ips, ports, found) == [BatchSpec(batch, ports, origins)] + BatchSpecs(ips[k..], ports, found);
      assert ips == batch + ips[k..];
    }
  }

  lemma {:induction false} AddressesConcat(a: seq<Spec>, b: seq<Spec>)
    ensures AddressesOfSpecs(a + b) == AddressesOfSpecs(a) + AddressesOfSpecs(b)
    decreases |a|
  {
    if a == [] {
      assert a + b == b;
    } else {
      assert (a + b)[1..] == a[1..] + b;
      AddressesConcat(a[1..], b);
    }
  }

  lemma {:induction false} AddressInSomeSpec(specs: seq<Spec>, ip: string)
    ensures ip in AddressesOfSpecs(specs) <==> exists i :: 0 <= i < |specs| && ip in specs[i].target.ips
    decreases |specs|
  {
    if specs != [] {
      AddressInSomeSpec(specs[1..], ip);
      if ip in AddressesOfSpecs(specs[1..]) {
        var i :| 0 <= i < |specs[1..]| && ip in specs[1..][i].target.ips;
        assert specs[i + 1] == specs[1..][i];
      }
      if i :| 0 <= i < |specs| && ip in specs[i].target.ips {
        if i > 0 { assert specs[1..][i - 1] == specs[i]; }
      }
    }
  }

  /** Admitted addresses are found ones, and each was found for an authorized run target. */
  lemma AdmittedFound(env: Env, tasks: seq<Task>, verdict: Admission, ips: seq<string>)
    requires verdict.Fresh? || verdict.Edge?
    requires Elements(ips) == Admitted(env, tasks, Found(tasks), verdict)
    ensures forall i :: 0 <= i < |ips| ==>
              && ips[i] in Found(tasks) && Found(tasks)[ips[i]] != []
              && Admit(env, Scanned(tasks), ips[i], Found(tasks)[ips[i]]) == verdict
  {
    forall i | 0 <= i < |ips| ensures ips[i] in Admitted(env, tasks, Found(tasks), verdict) {
      assert ips[i] in Elements(ips);
    }
  }

  lemma AdmittedPartition(tasks: seq<Task>, env: Env, verdict: Admission, ports: string)
    requires verdict.Fresh? || verdict.Edge?
    ensures
      var found := Found(tasks);
      var ips := SortedOf(Admitted(env, tasks, found, verdict));
      && AddressesOfSpecs(BatchSpecs(ips, ports, found)) == ips
      && forall i :: 0 <= i < |BatchSpecs(ips, ports, found)| ==> BatchOk(BatchSpecs(ips, ports, found)[i], ports, found)
  {
    var ips := SortedOf(Admitted(env, tasks, Found(tasks), verdict));
    AdmittedFound(env, tasks, verdict, ips);
    BatchesPartition(ips, ports, Found(tasks));
  }

  /** Each tick's batches hold exactly the admitted addresses, each once: first those on the run's own
      ports, then those of a CDN on its ports. */
  lemma ScanSpecsPartition(tasks: seq<Task>, env: Env)
    ensures
      var found := Found(tasks);
      var own, edge := Admitted(env, tasks, found, Fresh), Admitted(env, tasks, found, Edge);
      && AddressesOfSpecs(ScanSpecs(tasks, env)) == SortedOf(own) + SortedOf(edge)
      && forall i :: 0 <= i < |ScanSpecs(tasks, env)| ==>
           var sp := ScanSpecs(tasks, env)[i];
           BatchOk(sp, sp.target.ports, found) && (sp.target.ports == "" || sp.target.ports == env.CdnPorts())
  {
    var found := Found(tasks);
    var own, edge := SortedOf(Admitted(env, tasks, found, Fresh)), SortedOf(Admitted(env, tasks, found, Edge));
    AdmittedPartition(tasks, env, Fresh, "");
    AdmittedPartition(tasks, env, Edge, env.CdnPorts());
    AddressesConcat(BatchSpecs(own, "", found), BatchSpecs(edge, env.CdnPorts(), found));
  }
}
