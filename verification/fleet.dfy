/** Building run fleets under a ceiling, and failing runs whose workers are gone. */
module Fleet {
  import opened Options

  type RunId = nat

  datatype Status = Requested | Up | Failed | TornDown

  type Fleets = map<RunId, Status>

  /** The runs the ceiling counts: those whose row says that they are up. */
  function Holding(fleets: Fleets): set<RunId> {
    set r | r in fleets && fleets[r].Up?
  }

  // ---- the ceiling ----

  predicate MustWait(holding: int, max: int) { holding >= max }

  /** Pending fleets in the order they were asked for: each is built, for better or worse, while there is
      room, and left waiting from the first one on that finds none. */
  function Built(fleets: Fleets, pending: seq<RunId>, outcome: map<RunId, Status>, max: int): Fleets
    requires forall i :: 0 <= i < |pending| ==> pending[i] in outcome
    decreases |pending|
  {
    if pending == [] || MustWait(|Holding(fleets)|, max) then fleets
    else Built(fleets[pending[0] := outcome[pending[0]]], pending[1..], outcome, max)
  }

  /** Runs that have a fleet row still to build, each once. */
  predicate Waiting(fleets: Fleets, pending: seq<RunId>) {
    && (forall i :: 0 <= i < |pending| ==> pending[i] in fleets && fleets[pending[i]].Requested?)
    && (forall i, j :: 0 <= i < j < |pending| ==> pending[i] != pending[j])
  }

  /** One attempt takes at most one more slot, and exactly one when it succeeds. */
  lemma OneMore(fleets: Fleets, r: RunId, status: Status)
    requires r in fleets && !fleets[r].Up?
    ensures |Holding(fleets[r := status])| == |Holding(fleets)| + if status.Up? then 1 else 0
  {
    if status.Up? {
      assert Holding(fleets[r := status]) == Holding(fleets) + {r};
    } else {
      assert Holding(fleets[r := status]) == Holding(fleets);
    }
  }

  /** Attempts made: how many pending fleets were tried before the rest had to wait. */
  function Tried(fleets: Fleets, pending: seq<RunId>, outcome: map<RunId, Status>, max: int): (n: nat)
    requires forall i :: 0 <= i < |pending| ==> pending[i] in outcome
    ensures n <= |pending|
    decreases |pending|
  {
    if pending == [] || MustWait(|Holding(fleets)|, max) then 0
    else 1 + Tried(fleets[pending[0] := outcome[pending[0]]], pending[1..], outcome, max)
  }

  /** The ceiling is never passed, and no fleet waits while there is room. Those tried end as their attempt
      went; those behind them, and all other rows, are as they were. */
  lemma {:induction false} CeilingExactly(fleets: Fleets, pending: seq<RunId>, outcome: map<RunId, Status>, max: int)
    requires Waiting(fleets, pending) && forall i :: 0 <= i < |pending| ==> pending[i] in outcome
    ensures
      var r, n := Built(fleets, pending, outcome, max), Tried(fleets, pending, outcome, max);
      && (|Holding(fleets)| <= max ==> |Holding(r)| <= max)
      && (n < |pending| ==> |Holding(r)| >= max)
      && r.Keys == fleets.Keys
      && (forall i :: 0 <= i < n ==> r[pending[i]] == outcome[pending[i]])
      && (forall id :: id in fleets && id !in pending[..n] ==> r[id] == fleets[id])
    decreases |pending|
  {
    if pending != [] && !MustWait(|Holding(fleets)|, max) {
      var p := pending[0];
      var fleets', rest := fleets[p := outcome[p]], pending[1..];
      OneMore(fleets, p, outcome[p]);
      CeilingExactly(fleets', rest, outcome, max);
      var r, n := Built(fleets, pending, outcome, max), Tried(fleets, pending, outcome, max);
      assert p !in rest;
      assert pending[..n] == [p] + rest[..n - 1];
      forall i | 0 <= i < n ensures r[pending[i]] == outcome[pending[i]] {
        if i > 0 { assert pending[i] == rest[i - 1]; }
      }
    }
  }

  /** Anything else that happens to fleets: none of it brings one up. */
  datatype Step =
    | Build(pending: seq<RunId>, outcome: map<RunId, Status>)
    | Request(id: RunId)
    | Drop(id: RunId, status: Status)

  predicate Enabled(fleets: Fleets, st: Step) {
    match st
    case Build(pending, outcome) => Waiting(fleets, pending) && forall i :: 0 <= i < |pending| ==> pending[i] in outcome
    case Request(id) => id !in fleets
    case Drop(id, status) => id in fleets && !status.Up?
  }

  function Apply(fleets: Fleets, st: Step, max: int): Fleets
    requires Enabled(fleets, st)
  {
    match st
    case Build(pending, outcome) => Built(fleets, pending, outcome, max)
    case Request(id) => fleets[id := Requested]
    case Drop(id, status) => fleets[id := status]
  }

  predicate Runs(fleets: Fleets, steps: seq<Step>, max: int)
    decreases |steps|
  {
    steps == [] || (Enabled(fleets, steps[0]) && Runs(Apply(fleets, steps[0], max), steps[1..], max))
  }

  function After(fleets: Fleets, steps: seq<Step>, max: int): Fleets
    requires Runs(fleets, steps, max)
    decreases |steps|
  {
    if steps == [] then fleets else After(Apply(fleets, steps[0], max), steps[1..], max)
  }

  lemma StepKeepsCeiling(fleets: Fleets, st: Step, max: int)
    requires Enabled(fleets, st) && |Holding(fleets)| <= max
    ensures |Holding(Apply(fleets, st, max))| <= max
  {
    match st
    case Build(pending, outcome) => CeilingExactly(fleets, pending, outcome, max);
    case Request(id) => assert Holding(fleets[id := Requested]) == Holding(fleets);
    case Drop(id, status) =>
      assert Holding(fleets[id := status]) == Holding(fleets) - {id};
  }

  /** Over every sequence of ticks and changes the ceiling holds if it held at first. */
  lemma {:induction false} CeilingAlways(fleets: Fleets, steps: seq<Step>, max: int)
    requires Runs(fleets, steps, max) && |Holding(fleets)| <= max
    ensures |Holding(After(fleets, steps, max))| <= max
    decreases |steps|
  {
    if steps != [] {
      StepKeepsCeiling(fleets, steps[0], max);
      CeilingAlways(Apply(fleets, steps[0], max), steps[1..], max);
    }
  }

  // ---- the containers themselves ----

  /** The fleet rows, and the runs that have containers whatever their rows say. */
  datatype Host = Host(fleets: Fleets, containers: set<RunId>)

  /** An attempt at building ends with the row in some status and containers left or not: a removal may have
      failed, or the server gone before it recorded anything. A fleet fails and keeps its containers until a
      removal succeeds; a run is deleted with its row; containers are swept up or removed by other hands. */
  datatype Event =
    | Attempt(id: RunId, status: Status, left: bool)
    | Ask(id: RunId)
    | Fail(id: RunId)
    | Remove(id: RunId)
    | Forget(id: RunId)
    | Clear(id: RunId)

  predicate Can(h: Host, e: Event, max: int) {
    match e
    case Attempt(id, status, left) =>
      && id in h.fleets && h.fleets[id].Requested? && !MustWait(|Holding(h.fleets)|, max)
      && (status.Up? ==> left) && (status.TornDown? ==> !left)
    case Ask(id) => id !in h.fleets && id !in h.containers
    case Fail(id) => id in h.fleets
    case Remove(id) => id in h.fleets
    case Forget(id) => id in h.fleets
    case Clear(_) => true
  }

  function Happens(h: Host, e: Event, max: int): Host
    requires Can(h, e, max)
  {
    match e
    case Attempt(id, status, left) =>
      Host(h.fleets[id := status], if left then h.containers + {id} else h.containers - {id})
    case Ask(id) => h.(fleets := h.fleets[id := Requested])
    case Fail(id) => h.(fleets := h.fleets[id := Failed])
    case Remove(id) => Host(h.fleets[id := TornDown], h.containers - {id})
    case Forget(id) => h.(fleets := h.fleets - {id})
    case Clear(id) => h.(containers := h.containers - {id})
  }

  /** Who has containers after an event, and what the rows then say. */
  lemma HostChangesExactly(h: Host, e: Event, max: int, id: RunId)
    requires Can(h, e, max)
    ensures
      var h' := Happens(h, e, max);
      && (id in h'.containers <==>
            if e.id != id || e.Ask? || e.Fail? || e.Forget? then id in h.containers else e.Attempt? && e.left)
      && (e.id != id || e.Clear? ==> (id in h'.fleets <==> id in h.fleets) && (id in h.fleets ==> h'.fleets[id] == h.fleets[id]))
      && (e.id == id && e.Forget? ==> id !in h'.fleets)
      && (e.id == id && !e.Clear? && !e.Forget? ==>
            id in h'.fleets && h'.fleets[id] == match e
                                                case Attempt(_, status, _) => status
                                                case Ask(_) => Requested
                                                case Fail(_) => Failed
                                                case _ => TornDown)
  {
  }

  /** Containers come up where as many runs have containers as may. */
  predicate Crowds(h: Host, e: Event, max: int) {
    e.Attempt? && e.left && e.id !in h.containers && |h.containers| >= max
  }

  lemma EventWithinExactly(h: Host, e: Event, max: int)
    requires Can(h, e, max) && |h.containers| <= max
    ensures |Happens(h, e, max).containers| <= max <==> !Crowds(h, e, max)
  {
    var c, c' := h.containers, Happens(h, e, max).containers;
    match e
    case Attempt(id, _, left) =>
      if left && id in c { assert c' == c; }
      if left && id !in c { assert |c'| == |c| + 1; }
      if !left { FewerWithout(c, id); }
    case Ask(_) =>
    case Fail(_) =>
    case Remove(id) => FewerWithout(c, id);
    case Forget(_) =>
    case Clear(id) => FewerWithout(c, id);
  }

  lemma FewerWithout(c: set<RunId>, id: RunId)
    ensures |c - {id}| <= |c|
  {
    if id !in c { assert c - {id} == c; }
  }

  ghost predicate Happening(h: Host, events: seq<Event>, max: int)
    decreases |events|
  {
    events == [] || (Can(h, events[0], max) && Happening(Happens(h, events[0], max), events[1..], max))
  }

  /** In every state no more runs have containers than may. */
  ghost predicate AlwaysWithin(h: Host, events: seq<Event>, max: int)
    requires Happening(h, events, max)
    decreases |events|
  {
    |h.containers| <= max && (events != [] ==> AlwaysWithin(Happens(h, events[0], max), events[1..], max))
  }

  ghost predicate NeverCrowds(h: Host, events: seq<Event>, max: int)
    requires Happening(h, events, max)
    decreases |events|
  {
    events != [] ==> !Crowds(h, events[0], max) && NeverCrowds(Happens(h, events[0], max), events[1..], max)
  }

  /** The promised ceiling on runs with containers holds exactly as long as no fleet is built while that many
      have them, which the code does not ask. */
  lemma {:induction false} ContainersWithinExactly(h: Host, events: seq<Event>, max: int)
    requires Happening(h, events, max) && |h.containers| <= max
    ensures AlwaysWithin(h, events, max) <==> NeverCrowds(h, events, max)
    decreases |events|
  {
    if events != [] {
      EventWithinExactly(h, events[0], max);
      if !Crowds(h, events[0], max) { ContainersWithinExactly(Happens(h, events[0], max), events[1..], max); }
    }
  }

  /** Runs that have containers and are not counted. */
  function Leftover(h: Host): set<RunId> { h.containers - Holding(h.fleets) }

  lemma CrowdingNeedsLeftovers(h: Host, e: Event, max: int)
    requires Can(h, e, max) && Crowds(h, e, max)
    ensures |Leftover(h)| >= |h.containers| - |Holding(h.fleets)| > 0
  {
    var counted := h.containers * Holding(h.fleets);
    assert h.containers == Leftover(h) + counted;
    assert Holding(h.fleets) == counted + (Holding(h.fleets) - counted);
  }

  /** A fleet's containers outlive its being up: a removal failed, the row went, or nothing was recorded. */
  predicate Strands(h: Host, e: Event) {
    match e
    case Attempt(_, status, left) => left && !status.Up?
    case Fail(id) => id in h.containers
    case Forget(id) => id in h.containers
    case _ => false
  }

  ghost predicate NeverStrands(h: Host, events: seq<Event>, max: int)
    requires Happening(h, events, max)
    decreases |events|
  {
    events != [] ==> !Strands(h, events[0]) && NeverStrands(Happens(h, events[0], max), events[1..], max)
  }

  /** So it holds as long as every fleet that is no longer up has been removed. */
  lemma {:induction false} TidyKeepsCeiling(h: Host, events: seq<Event>, max: int)
    requires Happening(h, events, max) && |h.containers| <= max && Leftover(h) == {} && NeverStrands(h, events, max)
    ensures AlwaysWithin(h, events, max)
    decreases |events|
  {
    if events != [] {
      var e := events[0];
      if Crowds(h, e, max) { CrowdingNeedsLeftovers(h, e, max); }
      EventWithinExactly(h, e, max);
      assert Leftover(Happens(h, e, max)) == {};
      TidyKeepsCeiling(Happens(h, e, max), events[1..], max);
    }
  }

  /** With a ceiling of one: a run's fleet fails, its removal fails too, and the next run gets its own. */
  lemma LeftoversPassCeiling()
    ensures
      var h := Host(map[0 := Up, 1 := Requested], {0});
      var events := [Fail(0), Attempt(1, Up, true)];
      && |h.containers| <= 1 && Leftover(h) == {} && Happening(h, events, 1) && !AlwaysWithin(h, events, 1)
  {
    var h := Host(map[0 := Up, 1 := Requested], {0});
    var h1 := Happens(h, Fail(0), 1);
    assert Holding(h1.fleets) == {};
    assert [Fail(0), Attempt(1, Up, true)][1..] == [Attempt(1, Up, true)];
    assert Crowds(h1, Attempt(1, Up, true), 1);
    assert Happening(h1, [Attempt(1, Up, true)], 1);
    ContainersWithinExactly(h, [Fail(0), Attempt(1, Up, true)], 1);
  }

  /** The attempts that building makes. */
  function Attempts(fleets: Fleets, pending: seq<RunId>, outcome: map<RunId, Status>, left: set<RunId>,
                    max: int): seq<Event>
    requires forall i :: 0 <= i < |pending| ==> pending[i] in outcome
    decreases |pending|
  {
    if pending == [] || MustWait(|Holding(fleets)|, max) then []
    else
      var p := pending[0];
      [Attempt(p, outcome[p], p in left)] + Attempts(fleets[p := outcome[p]], pending[1..], outcome, left, max)
  }

  ghost function Happened(h: Host, events: seq<Event>, max: int): Host
    requires Happening(h, events, max)
    decreases |events|
  {
    if events == [] then h else Happened(Happens(h, events[0], max), events[1..], max)
  }

  /** Building a list of fleets is those attempts, one by one. */
  lemma {:induction false} BuildingIsAttempts(h: Host, pending: seq<RunId>, outcome: map<RunId, Status>, left: set<RunId>,
                                              max: int)
    requires Waiting(h.fleets, pending) && forall i :: 0 <= i < |pending| ==> pending[i] in outcome
    requires forall r :: r in outcome ==> (outcome[r].Up? ==> r in left) && (outcome[r].TornDown? ==> r !in left)
    ensures
      var events := Attempts(h.fleets, pending, outcome, left, max);
      Happening(h, events, max) && Happened(h, events, max).fleets == Built(h.fleets, pending, outcome, max)
    decreases |pending|
  {
    if pending != [] && !MustWait(|Holding(h.fleets)|, max) {
      var p, rest := pending[0], pending[1..];
      var e := Attempt(p, outcome[p], p in left);
      var more := Attempts(h.fleets[p := outcome[p]], rest, outcome, left, max);
      assert forall i :: 0 <= i < |rest| ==> rest[i] == pending[i + 1] && rest[i] != p;
      BuildingIsAttempts(Happens(h, e, max), rest, outcome, left, max);
      assert ([e] + more)[1..] == more;
    }
  }

  // ---- supervision ----

  const GRACE: int := 120_000_000_000

  /** One look at the live fleets: how many workers each has, None where that could not be read. */
  datatype Tick = Tick(now: int, counts: map<RunId, Option<nat>>)

  datatype Look = Look(since: Option<int>, fails: bool)

  /** What one count makes of since when a run is without workers. */
  function Looked(since: Option<int>, count: Option<nat>, now: int): Look {
    if count.None? then Look(since, false)
    else if count.value > 0 then Look(None, false)
    else if since.None? then Look(Some(now), false)
    else if now - since.value >= GRACE then Look(None, true)
    else Look(since, false)
  }

  /** Since when a run is known to be without workers. */
  function Dead(ticks: seq<Tick>, r: RunId): Option<int> {
    if ticks == [] then None
    else
      var t := ticks[|ticks| - 1];
      if r !in t.counts then None else Looked(Dead(ticks[..|ticks| - 1], r), t.counts[r], t.now).since
  }

  /** The latest tick fails run r. */
  predicate Fails(ticks: seq<Tick>, r: RunId) {
    ticks != [] &&
    var t := ticks[|ticks| - 1];
    r in t.counts && Looked(Dead(ticks[..|ticks| - 1], r), t.counts[r], t.now).fails
  }

  /** Tick k fails run r. */
  predicate FailsAt(ticks: seq<Tick>, k: nat, r: RunId) { k < |ticks| && Fails(ticks[..k + 1], r) }

  predicate QuietAt(t: Tick, r: RunId) { r in t.counts && (t.counts[r].None? || t.counts[r].value == 0) }

  /** From tick j on the run was live and no count found a worker. */
  predicate Quiet(ticks: seq<Tick>, j: nat, r: RunId) {
    forall k :: j <= k < |ticks| ==> QuietAt(ticks[k], r)
  }

  predicate ZeroAt(ticks: seq<Tick>, j: nat, r: RunId) {
    j < |ticks| && r in ticks[j].counts && ticks[j].counts[r] == Some(0)
  }

  lemma {:induction false} DeadMeansQuiet(ticks: seq<Tick>, r: RunId) returns (j: nat)
    requires Dead(ticks, r).Some?
    ensures ZeroAt(ticks, j, r) && ticks[j].now == Dead(ticks, r).value && Quiet(ticks, j, r)
    decreases |ticks|
  {
    var n := |ticks| - 1;
    if Dead(ticks[..n], r).None? {
      j := n;
    } else {
      j := DeadMeansQuiet(ticks[..n], r);
      forall k | j <= k < |ticks| ensures QuietAt(ticks[k], r) {
        if k < n { assert QuietAt(ticks[..n][k], r); }
      }
    }
  }

  /** A run is failed only if it was live at every look over at least the grace period, with a count of
      zero at both ends of it and no worker ever counted between. */
  lemma FailsOnlyAfterGrace(ticks: seq<Tick>, r: RunId) returns (j: nat)
    requires Fails(ticks, r)
    ensures j < |ticks| - 1 && ZeroAt(ticks, j, r) && ZeroAt(ticks, |ticks| - 1, r) && Quiet(ticks, j, r)
    ensures ticks[|ticks| - 1].now - ticks[j].now >= GRACE
  {
    var n := |ticks| - 1;
    j := DeadMeansQuiet(ticks[..n], r);
    forall k | j <= k < |ticks| ensures QuietAt(ticks[k], r) {
      if k < n { assert QuietAt(ticks[..n][k], r); }
    }
  }

  predicate Forward(ticks: seq<Tick>) {
    forall i, j :: 0 <= i < j < |ticks| ==> ticks[i].now <= ticks[j].now
  }

  lemma ShorterQuiet(ticks: seq<Tick>, n: nat, j: nat, r: RunId)
    requires j < n <= |ticks| && ZeroAt(ticks, j, r) && Quiet(ticks, j, r) && Forward(ticks)
    requires forall k :: j <= k < |ticks| ==> !FailsAt(ticks, k, r)
    ensures ZeroAt(ticks[..n], j, r) && Quiet(ticks[..n], j, r) && Forward(ticks[..n])
    ensures forall k :: j <= k < n ==> !FailsAt(ticks[..n], k, r)
  {
    forall k | j <= k < n ensures QuietAt(ticks[..n][k], r) && !FailsAt(ticks[..n], k, r) {
      assert QuietAt(ticks[k], r) && !FailsAt(ticks, k, r);
      assert ticks[..n][..k + 1] == ticks[..k + 1];
    }
  }

  lemma {:induction false} QuietMeansDead(ticks: seq<Tick>, j: nat, r: RunId)
    requires ZeroAt(ticks, j, r) && Quiet(ticks, j, r) && Forward(ticks)
    requires forall k :: j <= k < |ticks| ==> !FailsAt(ticks, k, r)
    ensures Dead(ticks, r).Some? && Dead(ticks, r).value <= ticks[j].now
    decreases |ticks|
  {
    var n := |ticks| - 1;
    assert ticks[..n + 1] == ticks && !FailsAt(ticks, n, r);
    if j == n {
      if Dead(ticks[..n], r).Some? {
        var i := DeadMeansQuiet(ticks[..n], r);
        assert ticks[..n][i] == ticks[i];
      }
    } else {
      ShorterQuiet(ticks, n, j, r);
      QuietMeansDead(ticks[..n], j, r);
      assert QuietAt(ticks[n], r);
    }
  }

  /** And it is failed by then: once the grace period has passed since a count of zero, with the run live
      and quiet throughout, the next count of zero fails it unless an earlier one has. */
  lemma QuietPastGraceFails(ticks: seq<Tick>, j: nat, r: RunId)
    requires ZeroAt(ticks, j, r) && Quiet(ticks, j, r) && Forward(ticks)
    requires j < |ticks| - 1 && ZeroAt(ticks, |ticks| - 1, r) && ticks[|ticks| - 1].now - ticks[j].now >= GRACE
    ensures exists k :: j <= k < |ticks| && FailsAt(ticks, k, r)
  {
    if forall k :: j <= k < |ticks| ==> !FailsAt(ticks, k, r) {
      var n := |ticks| - 1;
      ShorterQuiet(ticks, n, j, r);
      QuietMeansDead(ticks[..n], j, r);
      assert ticks[..n + 1] == ticks;
      assert FailsAt(ticks, n, r);
    }
  }

  // ---- as it is carried out ----

  class Manager {
    const maxLive: int
    var fleets: Fleets
    var deadSince: map<RunId, int>
    ghost var ticks: seq<Tick>

    /** The map holds exactly the runs known to be without workers, each since when. */
    ghost predicate Valid()
      reads this
    {
      Matches(deadSince, ticks)
    }

    constructor (maxLive: int)
      ensures Valid() && fleets == map[] && ticks == [] && this.maxLive == if maxLive > 0 then maxLive else 3
    {
      this.maxLive := if maxLive <= 0 then 3 else maxLive;
      fleets, deadSince, ticks := map[], map[], [];
    }

    method BuildPending(pending: seq<RunId>, outcome: map<RunId, Status>)
      requires Waiting(fleets, pending) && forall i :: 0 <= i < |pending| ==> pending[i] in outcome
      modifies this`fleets
      ensures fleets == Built(old(fleets), pending, outcome, maxLive)
    {
      var holding := |Holding(fleets)|;
      ghost var all := Built(fleets, pending, outcome, maxLive);
      assert pending[0..] == pending;
      for i := 0 to |pending|
        invariant holding == |Holding(fleets)| && Waiting(fleets, pending[i..])
        invariant Built(fleets, pending[i..], outcome, maxLive) == all
      {
        var id := pending[i];
        assert pending[i..][0] == id && pending[i..][1..] == pending[i + 1..];
        if MustWait(holding, maxLive) {
          assert fleets[id := Requested] == fleets;
          fleets := fleets[id := Requested];
          continue;
        }
        OneMore(fleets, id, outcome[id]);
        assert forall k :: 1 <= k < |pending[i..]| ==> pending[i..][k] != id;
        fleets := fleets[id := outcome[id]];
        if outcome[id].Up? { holding := holding + 1; }
      }
    }

    /** Looks at one live fleet. */
    method LookAt(r: RunId, count: Option<nat>, now: int) returns (fails: bool)
      modifies this`deadSince, this`fleets
      ensures Look(Since(deadSince, r), fails) == Looked(Since(old(deadSince), r), count, now)
      ensures forall q :: q != r ==> Since(deadSince, q) == Since(old(deadSince), q)
      ensures fleets == if fails then old(fleets)[r := Failed] else old(fleets)
    {
      fails := false;
      if count.None? { return; }
      if count.value > 0 {
        deadSince := deadSince - {r};
        return;
      }
      if r !in deadSince {
        deadSince := deadSince[r := now];
        return;
      }
      if now - deadSince[r] >= GRACE {
        deadSince := deadSince - {r};
        fails := true;
        fleets := fleets[r := Failed];
      }
    }

    /** Looks at every live fleet, and forgets those no longer live. */
    method SuperviseLive(t: Tick) returns (failed: set<RunId>)
      requires Valid()
      modifies this
      ensures Valid() && ticks == old(ticks) + [t]
      ensures forall r :: r in failed <==> Fails(ticks, r)
      ensures fleets == AllFailed(old(fleets), failed)
    {
      failed := {};
      var left := t.counts.Keys;
      assert AllFailed(fleets, failed) == fleets;
      while left != {}
        invariant left <= t.counts.Keys && ticks == old(ticks)
        invariant Halfway(deadSince, failed, ticks, t, left)
        invariant fleets == AllFailed(old(fleets), failed)
        decreases left
      {
        var r :| r in left;
        ghost var was := deadSince;
        var fails := LookAt(r, t.counts[r], t.now);
        OneLooked(was, deadSince, failed, ticks, t, left, r, fails);
        left := left - {r};
        if fails {
          OneFailed(old(fleets), failed, r);
          failed := failed + {r};
        }
      }
      TickEnds(deadSince, failed, ticks, t);
      deadSince := map r | r in deadSince && r in t.counts :: deadSince[r];
      ticks := ticks + [t];
    }
  }

  function AllFailed(fleets: Fleets, failed: set<RunId>): Fleets {
    fleets + map r | r in failed :: Failed
  }

  lemma OneFailed(fleets: Fleets, failed: set<RunId>, r: RunId)
    ensures AllFailed(fleets, failed)[r := Failed] == AllFailed(fleets, failed + {r})
  {
  }

  /** In the middle of a tick, with the fleets in left still to be looked at. */
  ghost predicate Halfway(since: map<RunId, int>, failed: set<RunId>, ticks: seq<Tick>, t: Tick, left: set<RunId>) {
    && (forall r :: r in left ==> Since(since, r) == Dead(ticks, r))
    && (forall r :: r in t.counts && r !in left ==> Since(since, r) == Looked(Dead(ticks, r), t.counts[r], t.now).since)
    && (forall r :: r in failed <==> r in t.counts && r !in left && Looked(Dead(ticks, r), t.counts[r], t.now).fails)
  }

  lemma OneLooked(was: map<RunId, int>, since: map<RunId, int>, failed: set<RunId>, ticks: seq<Tick>, t: Tick,
                  left: set<RunId>, r: RunId, fails: bool)
    requires r in left && left <= t.counts.Keys && Halfway(was, failed, ticks, t, left)
    requires Look(Since(since, r), fails) == Looked(Since(was, r), t.counts[r], t.now)
    requires forall q :: q != r ==> Since(since, q) == Since(was, q)
    ensures Halfway(since, if fails then failed + {r} else failed, ticks, t, left - {r})
  {
  }

  lemma TickEnds(since: map<RunId, int>, failed: set<RunId>, ticks: seq<Tick>, t: Tick)
    requires Halfway(since, failed, ticks, t, {})
    ensures Matches(map r | r in since && r in t.counts :: since[r], ticks + [t])
    ensures forall r :: r in failed <==> Fails(ticks + [t], r)
  {
    var after := ticks + [t];
    assert after[..|ticks|] == ticks;
    var kept := map r | r in since && r in t.counts :: since[r];
    forall r ensures Since(kept, r) == Dead(after, r) && (r in failed <==> Fails(after, r)) {
      if r in t.counts { assert Since(since, r) == Looked(Dead(ticks, r), t.counts[r], t.now).since; }
    }
  }

  function Since(deadSince: map<RunId, int>, r: RunId): Option<int> {
    if r in deadSince then Some(deadSince[r]) else None
  }

  ghost predicate Matches(deadSince: map<RunId, int>, ticks: seq<Tick>) {
    forall r :: Since(deadSince, r) == Dead(ticks, r)
  }
}
