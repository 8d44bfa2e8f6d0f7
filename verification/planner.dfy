/** The planner's stage machine: what one tick adds to a run's tasks. */
module Planner {
  import opened Lists
  import opened Options
  import opened Text
  import opened Targets
  import opened Summary
  import Guard
  import LeaseTable
  import NetAddr

  datatype Stage =
    | PassiveEnum | DnsBrute | DnsResolve | IpEnrich | PortScan
    | ServiceProbe | TechDetect | Screenshot | DirBrute | VulnCheck
  {
    predicate SendsTrafficToTarget() {
      PortScan? || ServiceProbe? || TechDetect? || Screenshot? || DirBrute? || VulnCheck?
    }

    predicate Discovers() { PassiveEnum? || DnsBrute? || DnsResolve? }
  }

  /** What a task acts on; unused fields are empty. */
  datatype Target = Target(domain: string, wordlist: string, ips: seq<string>, ip: string, port: int, url: string,
                           host: string, ports: string)

  function DomainTarget(domain: string, wordlist: string): Target { Target(domain, wordlist, [], "", 0, "", "", "") }

  function HostTarget(ip: string): Target { Target("", "", [], ip, 0, "", "", "") }

  function BatchTarget(ips: seq<string>, ports: string): Target { Target("", "", ips, "", 0, "", "", ports) }

  function EndpointTarget(ip: string, port: int): Target { Target("", "", [], ip, port, "", "", "") }

  /** A run target's id; zero is the nil id. */
  type Origin = nat

  const NIL: Origin := 0

  type Pool = nat

  datatype Spec = Spec(stage: Stage, target: Target, priority: nat, needs: seq<string>, origins: seq<Origin>,
                       pool: Option<Pool>)

  datatype Task = Task(stage: Stage, target: Target, priority: nat, needs: seq<string>, origins: seq<Origin>,
                       pool: Option<Pool>, status: LeaseTable.Status, result: StageSummary)
  {
    predicate Outstanding() { status.Pending? || status.Leased? || status.Running? }
  }

  const RAW_SOCKET := "raw_socket"
  const BROWSER := "browser"
  const SCAN_BATCH_SIZE: nat := 64

  // ---- inserting and routing ----

  /** Origin rows: the nil id is not stored, and an id is stored once. */
  function StoredOrigins(o: seq<Origin>): seq<Origin> {
    if o == [] then []
    else
      var before, x := StoredOrigins(o[..|o| - 1]), o[|o| - 1];
      if x == NIL || x in before then before else before + [x]
  }

  function TaskOf(sp: Spec): Task {
    Task(sp.stage, sp.target, sp.priority, sp.needs, StoredOrigins(sp.origins), sp.pool, LeaseTable.Pending, EMPTY)
  }

  function Inserted(tasks: seq<Task>, specs: seq<Spec>): seq<Task> {
    tasks + seq(|specs|, i requires 0 <= i < |specs| => TaskOf(specs[i]))
  }

  /** A run's pools. */
  datatype Run = Run(passive: bool, exitPool: Option<Pool>, passivePool: Option<Pool>)

  function RoutedSpec(sp: Spec, run: Run): Spec {
    sp.(pool := if sp.stage.SendsTrafficToTarget() then run.exitPool else run.passivePool)
  }

  /** None where an active task has no pool to run from. */
  function Routed(specs: seq<Spec>, run: Run): Option<seq<Spec>> {
    if run.exitPool.None? && exists i :: 0 <= i < |specs| && specs[i].stage.SendsTrafficToTarget() then None
    else Some(seq(|specs|, i requires 0 <= i < |specs| => RoutedSpec(specs[i], run)))
  }

  /** Planned specs inserted, or an error; a batch is inserted whole or not at all. */
  function Plan(tasks: seq<Task>, specs: seq<Spec>, run: Run): Option<seq<Task>> {
    if specs == [] then Some(tasks)
    else
      var routed := Routed(specs, run);
      if routed.None? then None else Some(Inserted(tasks, routed.value))
  }

  // ---- what a tick reads besides the tasks ----

  datatype RunTarget = RunTarget(id: Origin, value: string)

  datatype UrlParts = UrlParts(scheme: string, host: string, port: int)

  /** The database as a tick sees it. `addrs`, `prefixes`, `urls` and `vhosts` are how texts parse, absent
      where they do not; `names` are the names that resolve to an address. */
  datatype Env = Env(scope: seq<ScopeTarget>, runTargets: seq<RunTarget>, shared: set<string>,
                     params: map<string, string>, allowPrivate: bool,
                     addrs: map<string, NetAddr.Addr>, prefixes: map<string, Guard.Prefix>,
                     names: map<string, seq<string>>, urls: map<string, UrlParts>, vhosts: Option<int>)
  {
    function CdnPorts(): string {
      if "cdn_ports" in params && params["cdn_ports"] != "" then params["cdn_ports"] else "80,443"
    }

    predicate Off(key: string) { key in params && params[key] == "false" }
  }

  /** Whether each value is authorized: where a value is listed under several kinds the last one counts. */
  function AuthByValue(rows: seq<ScopeTarget>): map<string, bool> {
    if rows == [] then map[]
    else AuthByValue(rows[..|rows| - 1])[rows[|rows| - 1].value := rows[|rows| - 1].Authorized()]
  }

  function AuthorizedRunTargets(rts: seq<RunTarget>, byValue: map<string, bool>): map<Origin, bool> {
    if rts == [] then map[]
    else
      var rt := rts[|rts| - 1];
      AuthorizedRunTargets(rts[..|rts| - 1], byValue)[rt.id := rt.value in byValue && byValue[rt.value]]
  }

  predicate Permits(auth: map<Origin, bool>, o: Origin) { o in auth && auth[o] }

  predicate AnyPermitted(auth: map<Origin, bool>, origins: seq<Origin>) {
    exists i :: 0 <= i < |origins| && Permits(auth, origins[i])
  }

  function Auth(env: Env): map<Origin, bool> {
    AuthorizedRunTargets(env.runTargets, AuthByValue(Merged(env.scope)))
  }

  // ---- addresses to scan ----

  /** t has finished discovering and reports ip. */
  predicate Reports(t: Task, ip: string) {
    t.stage.Discovers() && t.status.Done? && ip in t.result.ips
  }

  function AddAddresses(m: map<string, seq<Origin>>, ips: seq<string>, o: seq<Origin>): map<string, seq<Origin>> {
    if ips == [] then m
    else
      var m', ip := AddAddresses(m, ips[..|ips| - 1], o), ips[|ips| - 1];
      m'[ip := Merge(if ip in m' then m'[ip] else [], o)]
  }

  function AddStage(m: map<string, seq<Origin>>, tasks: seq<Task>, stage: Stage): map<string, seq<Origin>> {
    if tasks == [] then m
    else
      var m', t := AddStage(m, tasks[..|tasks| - 1], stage), tasks[|tasks| - 1];
      if t.stage == stage && t.status.Done? then AddAddresses(m', t.result.ips, t.origins) else m'
  }

  /** Every address a finished discovery task reported, with the run targets it was found for. */
  function Found(tasks: seq<Task>): map<string, seq<Origin>> {
    AddStage(AddStage(AddStage(map[], tasks, PassiveEnum), tasks, DnsBrute), tasks, DnsResolve)
  }

  function ScannedBy(t: Task): set<string> {
    if !t.stage.PortScan? then {} else Elements(t.target.ips) + if t.target.ip != "" then {t.target.ip} else {}
  }

  function Scanned(tasks: seq<Task>): set<string> {
    if tasks == [] then {} else Scanned(tasks[..|tasks| - 1]) + ScannedBy(tasks[|tasks| - 1])
  }

  datatype Admission = Known | Unauthorized | CdnRefused | GuardRefused | Edge | Fresh

  function GuardDecision(env: Env, ip: string): Guard.Decision {
    Guard.CheckIP(env.allowPrivate, Guard.Exclusions(Merged(env.scope), env.prefixes),
                  if ip in env.addrs then Some(env.addrs[ip]) else None, false)
  }

  function Admit(env: Env, already: set<string>, ip: string, origins: seq<Origin>): Admission {
    if ip in already then Known
    else if !AnyPermitted(Auth(env), origins) then Unauthorized
    else
      var isCDN := ip in env.shared && env.CdnPorts() != "all";
      if isCDN && env.CdnPorts() == "none" then CdnRefused
      else if !GuardDecision(env, ip).Allowed? then GuardRefused
      else if isCDN then Edge
      else Fresh
  }

  function Admitted(env: Env, tasks: seq<Task>, found: map<string, seq<Origin>>, verdict: Admission): set<string> {
    set ip | ip in found && Admit(env, Scanned(tasks), ip, found[ip]) == verdict
  }

  /** The run targets a batch serves. */
  function BatchOrigins(batch: seq<string>, found: map<string, seq<Origin>>): seq<Origin> {
    if batch == [] then []
    else
      var ip := batch[|batch| - 1];
      Merge(BatchOrigins(batch[..|batch| - 1], found), if ip in found then found[ip] else [])
  }

  function BatchSpec(batch: seq<string>, ports: string, origins: seq<Origin>): Spec {
    Spec(PortScan, BatchTarget(batch, ports), 100, [RAW_SOCKET], origins, None)
  }

  function BatchSpecs(ips: seq<string>, ports: string, found: map<string, seq<Origin>>): seq<Spec>
    decreases |ips|
  {
    if ips == [] then []
    else
      var k := if |ips| < SCAN_BATCH_SIZE then |ips| else SCAN_BATCH_SIZE;
      var origins := BatchOrigins(ips[..k], found);
      (if origins == [] then [] else [BatchSpec(ips[..k], ports, origins)]) + BatchSpecs(ips[k..], ports, found)
  }

  ghost function ScanSpecs(tasks: seq<Task>, env: Env): seq<Spec> {
    var found := Found(tasks);
    BatchSpecs(SortedOf(Admitted(env, tasks, found, Fresh)), "", found)
    + BatchSpecs(SortedOf(Admitted(env, tasks, found, Edge)), env.CdnPorts(), found)
  }

  ghost function ScanNewAddresses(tasks: seq<Task>, env: Env, run: Run): Option<seq<Task>> {
    if Found(tasks) == map[] then Some(tasks)
    else if run.passivePool.None? then None
    else Plan(tasks, ScanSpecs(tasks, env), run)
  }

  // ---- services to probe ----

  /** Port zero is left out of a stored target, which makes the query for probed endpoints fail. */
  predicate Unreadable(t: Task) {
    t.stage.ServiceProbe? && t.target.ip != "" && t.target.port == 0
  }

  function EndpointOf(t: Task): set<string> {
    if t.stage.ServiceProbe? && t.target.ip != "" then {EndpointKey(t.target.ip, t.target.port)} else {}
  }

  function Probed(tasks: seq<Task>): set<string> {
    if tasks == [] then {} else Probed(tasks[..|tasks| - 1]) + EndpointOf(tasks[|tasks| - 1])
  }

  function ProbedEndpoints(tasks: seq<Task>): Option<set<string>> {
    if exists i :: 0 <= i < |tasks| && Unreadable(tasks[i]) then None else Some(Probed(tasks))
  }

  function Origin0(o: seq<Origin>): Origin { if o == [] then NIL else o[0] }

  function ProbeSpec(sv: IPPort, o: Origin): Spec {
    Spec(ServiceProbe, EndpointTarget(sv.ip, sv.port), 200, [], [o], None)
  }

  datatype Probing = Probing(specs: seq<Spec>, seen: set<string>)

  function AddServices(p: Probing, services: seq<IPPort>, o: Origin): Probing {
    if services == [] then p
    else
      var p', sv := AddServices(p, services[..|services| - 1], o), services[|services| - 1];
      if EndpointKey(sv.ip, sv.port) in p'.seen then p'
      else Probing(p'.specs + [ProbeSpec(sv, o)], p'.seen + {EndpointKey(sv.ip, sv.port)})
  }

  /** A port scan that is over, done or failed: what it found deserves probing either way. */
  predicate ScanOver(t: Task) { t.stage.PortScan? && (t.status.Done? || t.status.Failed?) }

  function Probes(tasks: seq<Task>, already: set<string>): Probing {
    if tasks == [] then Probing([], already)
    else
      var p, t := Probes(tasks[..|tasks| - 1], already), tasks[|tasks| - 1];
      if ScanOver(t) then AddServices(p, t.result.services, Origin0(t.origins)) else p
  }

  function ProbeNewServices(tasks: seq<Task>, run: Run): Option<seq<Task>> {
    var already := ProbedEndpoints(tasks);
    if already.None? || run.passivePool.None? then None
    else Plan(tasks, Probes(tasks, already.value).specs, run)
  }

  // ---- the web stages ----

  function PortText(scheme: string, port: int): string {
    if (scheme == "https" && port == 443) || (scheme == "http" && port == 80) then "" else ":" + Itoa(port)
  }

  /** One target per name, up to the cap, or the address itself where nothing resolves to it. */
  function WebTargets(url: string, parts: Option<UrlParts>, ip: string, port: int, names: seq<string>, cap: int): seq<Target> {
    if names == [] then [Target("", "", [], ip, port, url, "", "")]
    else
      var scheme := if parts.Some? && parts.value.scheme != "" then parts.value.scheme else "http";
      var kept := if 0 < cap < |names| then names[..cap] else names;
      seq(|kept|, i requires 0 <= i < |kept| =>
        Target("", "", [], ip, port, scheme + "://" + kept[i] + PortText(scheme, port), kept[i], ""))
  }

  /** `ipPortFromURL`. */
  function Endpoint(parts: Option<UrlParts>): (string, int) {
    if parts.None? then ("", 0) else (parts.value.host, parts.value.port)
  }

  const DEFAULT_VHOSTS: int := 20

  function MaxVhosts(env: Env): int {
    if env.vhosts.Some? && env.vhosts.value > 0 then env.vhosts.value else DEFAULT_VHOSTS
  }

  function NamesFor(env: Env, ip: string): seq<string> {
    if ip !in env.names then []
    else if |env.names[ip]| > MaxVhosts(env) + 1 then env.names[ip][..MaxVhosts(env) + 1]
    else env.names[ip]
  }

  function TargetsFor(env: Env, url: string): seq<Target> {
    var parts := if url in env.urls then Some(env.urls[url]) else None;
    var (ip, port) := Endpoint(parts);
    WebTargets(url, parts, ip, port, NamesFor(env, ip), MaxVhosts(env))
  }

  predicate DirBrutePlanned(env: Env) { !(env.Off("gobuster_enabled") && env.Off("katana_enabled")) }

  predicate VulnCheckPlanned(env: Env) { !env.Off("nuclei_enabled") }

  function WebSpecs(env: Env, tgt: Target, o: Origin): seq<Spec> {
    [Spec(TechDetect, tgt, 300, [], [o], None), Spec(Stage.Screenshot, tgt, 310, [BROWSER], [o], None)]
    + (if DirBrutePlanned(env) then [Spec(DirBrute, tgt, 320, [], [o], None)] else [])
    + (if VulnCheckPlanned(env) then [Spec(VulnCheck, tgt, 330, [], [o], None)] else [])
  }

  function TargetSpecs(env: Env, targets: seq<Target>, o: Origin): seq<Spec> {
    if targets == [] then []
    else TargetSpecs(env, targets[..|targets| - 1], o) + WebSpecs(env, targets[|targets| - 1], o)
  }

  function UrlSpecs(env: Env, urls: seq<string>, o: Origin): seq<Spec> {
    if urls == [] then []
    else UrlSpecs(env, urls[..|urls| - 1], o) + TargetSpecs(env, TargetsFor(env, urls[|urls| - 1]), o)
  }

  function PostProbeSpecs(env: Env, tasks: seq<Task>): seq<Spec> {
    if tasks == [] then []
    else
      var t := tasks[|tasks| - 1];
      PostProbeSpecs(env, tasks[..|tasks| - 1])
      + if t.stage.ServiceProbe? then UrlSpecs(env, t.result.webURLs, Origin0(t.origins)) else []
  }

  predicate StageExists(tasks: seq<Task>, stage: Stage) {
    exists i :: 0 <= i < |tasks| && tasks[i].stage == stage
  }

  predicate StageOutstanding(tasks: seq<Task>, stage: Stage) {
    exists i :: 0 <= i < |tasks| && tasks[i].stage == stage && tasks[i].Outstanding()
  }

  function MaybePostProbe(tasks: seq<Task>, env: Env, run: Run): Option<seq<Task>> {
    if StageExists(tasks, TechDetect) || StageOutstanding(tasks, ServiceProbe) then Some(tasks)
    else if run.passivePool.None? then None
    else Plan(tasks, PostProbeSpecs(env, tasks), run)
  }

  // ---- a tick ----

  predicate AnyOutstanding(tasks: seq<Task>) {
    exists i :: 0 <= i < |tasks| && tasks[i].Outstanding()
  }

  datatype Outcome = Errored | Going | Finished

  datatype Ticked = Ticked(tasks: seq<Task>, outcome: Outcome)

  function Verdict(tasks: seq<Task>): Ticked {
    Ticked(tasks, if |tasks| > 0 && !AnyOutstanding(tasks) then Finished else Going)
  }

  /** `Advance` of a running run. What an earlier phase inserted stays when a later one fails. */
  ghost function Advance(tasks: seq<Task>, env: Env, run: Run): Ticked {
    if run.passive then Verdict(tasks)
    else
      var a := ScanNewAddresses(tasks, env, run);
      if a.None? then Ticked(tasks, Errored)
      else
        var b := ProbeNewServices(a.value, run);
        if b.None? then Ticked(a.value, Errored)
        else
          var c := MaybePostProbe(b.value, env, run);
          if c.None? then Ticked(b.value, Errored) else Verdict(c.value)
  }
}
