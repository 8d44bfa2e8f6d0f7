/** Leasing, heartbeats, expiry, handback, delivery and closing as interleaved steps over the task table.
    A results request is two steps: the load check, and later the statement that closes or extends. */
module LeaseProtocol {
  import opened Options
  import opened LeaseTable

  /** What a delivered batch asks for once its observations are ingested. */
  datatype Closing = KeepAlive | Complete | Retry(note: bool) | GiveUp(note: bool)

  datatype Request = Request(task: TaskId, worker: WorkerId, token: Token, closing: Closing)

  /** To whom, and for which task, a lease was made. */
  datatype Issue = Issue(task: TaskId, worker: WorkerId)

  /** A batch that passed the load check. */
  datatype Accepted = Accepted(task: TaskId, worker: WorkerId, token: Token)

  /** `issues`, `accepted`, `loaded` and `releases` record what has happened so far. */
  datatype State = State(
    ttl: nat,
    table: Table,
    running: set<RunId>,
    issues: seq<Issue>,
    accepted: seq<Accepted>,
    loaded: set<Request>,
    releases: map<TaskId, nat>)

  datatype Step =
    | Insert(t: TaskId, run: RunId, maxAttempts: nat)
    | SetRunning(run: RunId, on: bool)
    | Lease(t: TaskId, w: WorkerId, now: int)
    | Extend(t: TaskId, w: WorkerId, now: int)
    | Readopt(t: TaskId, w: WorkerId, tok: Token, now: int)
    | Reap(t: TaskId, now: int)
    | Release(w: WorkerId)
    | Cancel(run: RunId)
    | Remove(w: WorkerId)
    | Load(req: Request)
    | Close(req: Request, now: int)

  function Initial(ttl: nat): State {
    State(ttl, map[], {}, [], [], {}, map[])
  }

  /** A token presented by a worker was issued before, or was never issued by anyone. */
  predicate Known(s: State, tok: Token) {
    tok.Issued? ==> tok.n < |s.issues|
  }

  predicate Enabled(s: State, st: Step) {
    match st
    case Insert(t, run, maxAttempts) => t !in s.table && maxAttempts >= 1
    case Readopt(t, w, tok, now) => Known(s, tok)
    case Load(req) => Known(s, req.token)
    case Close(req, now) => req in s.loaded
    case _ => true
  }

  function Apply(s: State, st: Step): State {
    match st
    case Insert(t, run, maxAttempts) =>
      s.(table := InsertTask(s.table, t, run, maxAttempts), releases := s.releases[t := 0])
    case SetRunning(run, on) =>
      s.(running := if on then s.running + {run} else s.running - {run})
    case Lease(t, w, now) =>
      if Leasable(s.table, s.running, t)
      then s.(table := LeaseTask(s.table, t, w, Issued(|s.issues|), now + s.ttl), issues := s.issues + [Issue(t, w)])
      else s
    case Extend(t, w, now) => s.(table := ExtendLeaseForWorker(s.table, t, w, now + s.ttl))
    case Readopt(t, w, tok, now) => s.(table := ReadoptTask(s.table, t, w, tok, now + s.ttl))
    case Reap(t, now) => s.(table := ReapLease(s.table, t, now))
    case Release(w) =>
      s.(table := ReleaseWorkerLeases(s.table, w),
         releases := map t | t in s.releases ::
           if Extendable(s.table, t, w) then s.releases[t] + 1 else s.releases[t])
    case Cancel(run) => s.(table := CancelRunTasks(s.table, run))
    case Remove(w) => s.(table := DeleteWorker(s.table, w))
    case Load(req) =>
      if req.task in s.table && s.table[req.task].HeldBy(req.worker, req.token)
      then s.(accepted := s.accepted + [Accepted(req.task, req.worker, req.token)], loaded := s.loaded + {req})
      else s
    case Close(req, now) =>
      s.(table := match req.closing
                  case KeepAlive => ExtendLease(s.table, req.task, req.token, now + s.ttl)
                  case Complete => CompleteTask(s.table, req.task, req.token)
                  case Retry(note) => FailTask(s.table, req.task, req.token, note)
                  case GiveUp(note) => FailTaskPermanently(s.table, req.task, req.token, note))
  }

  /** The steps may follow one another from s. */
  predicate Runs(s: State, steps: seq<Step>)
    decreases |steps|
  {
    steps == [] || (Enabled(s, steps[0]) && Runs(Apply(s, steps[0]), steps[1..]))
  }

  function After(s: State, steps: seq<Step>): State
    decreases |steps|
  {
    if steps == [] then s else After(Apply(s, steps[0]), steps[1..])
  }

  // ---- what every step keeps ----

  function LeasesOf(issues: seq<Issue>, t: TaskId): nat {
    if issues == [] then 0
    else LeasesOf(issues[..|issues| - 1], t) + if issues[|issues| - 1].task == t then 1 else 0
  }

  /** Nobody holds a queued or failed task; a live one has a lease that runs out; the attempts
      counted on a row are the leases made for it, and only a clean hand-back buys an extra one. */
  predicate RowOk(s: State, t: TaskId)
    requires t in s.table
  {
    var r := s.table[t];
    && (r.Live() ==> r.token.Some? && r.expires.Some?)
    && (r.status.Pending? || r.status.Failed? ==> r.worker.None? && r.token.None?)
    && (r.token.Some? ==> Known(s, r.token.value))
    && t in s.releases
    && r.attempts == LeasesOf(s.issues, t)
    && r.attempts <= r.maxAttempts + s.releases[t]
    && (r.status.Pending? ==> r.attempts < r.maxAttempts + s.releases[t])
  }

  predicate Invariant(s: State) {
    && (forall t :: t in s.table ==> RowOk(s, t))
    && (forall i :: 0 <= i < |s.issues| ==> s.issues[i].task in s.table)
    && (forall i :: 0 <= i < |s.accepted| ==> s.accepted[i].task in s.table)
    && (forall req :: req in s.loaded ==> Known(s, req.token))
  }

  lemma NoLeasesYet(issues: seq<Issue>, t: TaskId)
    requires forall i :: 0 <= i < |issues| ==> issues[i].task != t
    ensures LeasesOf(issues, t) == 0
  {
  }

  lemma StepKeepsRow(s: State, st: Step, t: TaskId)
    requires t in s.table && RowOk(s, t) && Enabled(s, st)
    ensures t in Apply(s, st).table && RowOk(Apply(s, st), t)
  {
    var s' := Apply(s, st);
    if s'.issues != s.issues { assert s'.issues[..|s'.issues| - 1] == s.issues; }
  }

  lemma StepKeepsInvariant(s: State, st: Step)
    requires Invariant(s) && Enabled(s, st)
    ensures Invariant(Apply(s, st))
  {
    var s' := Apply(s, st);
    forall t | t in s'.table ensures RowOk(s', t) {
      if t in s.table { StepKeepsRow(s, st, t); } else { NoLeasesYet(s.issues, t); }
    }
    forall t | t in s.table ensures t in s'.table { StepKeepsRow(s, st, t); }
  }

  lemma {:induction false} InvariantAlways(s: State, steps: seq<Step>)
    requires Invariant(s) && Runs(s, steps)
    ensures Invariant(After(s, steps))
    decreases |steps|
  {
    if steps != [] {
      StepKeepsInvariant(s, steps[0]);
      InvariantAlways(Apply(s, steps[0]), steps[1..]);
    }
  }

  /** Whatever happens, a task is leased at most maxAttempts times, plus once for each time a worker
      that was shutting down handed it back; and a task nobody holds is queued with an attempt left. */
  lemma LeasesBounded(ttl: nat, steps: seq<Step>, t: TaskId)
    requires Runs(Initial(ttl), steps) && t in After(Initial(ttl), steps).table
    ensures
      var s := After(Initial(ttl), steps);
      && t in s.releases
      && LeasesOf(s.issues, t) <= s.table[t].maxAttempts + s.releases[t]
      && (s.table[t].status.Pending? ==> LeasesOf(s.issues, t) < s.table[t].maxAttempts + s.releases[t])
  {
    InvariantAlways(Initial(ttl), steps);
    assert RowOk(After(Initial(ttl), steps), t);
  }

  // ---- the maximum of attempts ----

  /** No task has been leased more often than it may, and every queued one may still be. */
  predicate WithinAttempts(s: State) {
    forall t :: t in s.table ==>
      && LeasesOf(s.issues, t) <= s.table[t].maxAttempts
      && (s.table[t].status.Pending? ==> LeasesOf(s.issues, t) < s.table[t].maxAttempts)
  }

  predicate SpentAt(tb: Table, t: TaskId, w: WorkerId) {
    Extendable(tb, t, w) && tb[t].attempts >= tb[t].maxAttempts
  }

  /** A worker shutting down hands back a task whose last attempt it is running: the statement queues it
      without looking at the attempts. */
  predicate SpentRelease(s: State, st: Step) {
    st.Release? && exists t :: t in s.table && SpentAt(s.table, t, st.w)
  }

  lemma StepWithinAttemptsIff(s: State, st: Step)
    requires Invariant(s) && WithinAttempts(s) && Enabled(s, st)
    ensures WithinAttempts(Apply(s, st)) <==> !SpentRelease(s, st)
  {
    var s' := Apply(s, st);
    StepKeepsInvariant(s, st);
    if SpentRelease(s, st) {
      var t :| t in s.table && SpentAt(s.table, t, st.w);
      assert RowOk(s, t) && s'.table[t].status.Pending?;
    } else {
      forall t | t in s'.table
        ensures && LeasesOf(s'.issues, t) <= s'.table[t].maxAttempts
                && (s'.table[t].status.Pending? ==> LeasesOf(s'.issues, t) < s'.table[t].maxAttempts)
      {
        assert RowOk(s', t);
        if t in s.table { RowWithinAttempts(s, st, t); }
      }
    }
  }

  lemma RowWithinAttempts(s: State, st: Step, t: TaskId)
    requires t in s.table && RowOk(s, t) && Enabled(s, st) && !SpentRelease(s, st)
    requires s.table[t].attempts <= s.table[t].maxAttempts
    requires s.table[t].status.Pending? ==> s.table[t].attempts < s.table[t].maxAttempts
    ensures
      var r := Apply(s, st).table[t];
      t in Apply(s, st).table && r.attempts <= r.maxAttempts && (r.status.Pending? ==> r.attempts < r.maxAttempts)
  {
    assert st.Release? ==> !SpentAt(s.table, t, st.w);
  }

  ghost predicate WithinThroughout(s: State, steps: seq<Step>)
    decreases |steps|
  {
    WithinAttempts(s) && (steps != [] ==> WithinThroughout(Apply(s, steps[0]), steps[1..]))
  }

  predicate NoSpentRelease(s: State, steps: seq<Step>)
    decreases |steps|
  {
    steps != [] ==> !SpentRelease(s, steps[0]) && NoSpentRelease(Apply(s, steps[0]), steps[1..])
  }

  /** Along any interleaving every task keeps to its maximum exactly when no worker that shuts down holds a
      task on its last attempt. */
  lemma {:induction false} WithinAttemptsExactly(s: State, steps: seq<Step>)
    requires Invariant(s) && WithinAttempts(s) && Runs(s, steps)
    ensures WithinThroughout(s, steps) <==> NoSpentRelease(s, steps)
    decreases |steps|
  {
    if steps != [] {
      StepWithinAttemptsIff(s, steps[0]);
      StepKeepsInvariant(s, steps[0]);
      if !SpentRelease(s, steps[0]) { WithinAttemptsExactly(Apply(s, steps[0]), steps[1..]); }
    }
  }

  /** Such a release does let the maximum be passed: the task can be leased once more right away. */
  lemma SpentReleaseAllowsMore(s: State, t: TaskId, w: WorkerId, now: int)
    requires Invariant(s) && t in s.table && SpentAt(s.table, t, w)
    ensures
      var s' := Apply(Apply(Apply(s, Release(w)), SetRunning(s.table[t].run, true)), Lease(t, w, now));
      t in s'.table && LeasesOf(s'.issues, t) > s'.table[t].maxAttempts
  {
    var s2 := Apply(Apply(s, Release(w)), SetRunning(s.table[t].run, true));
    StepKeepsInvariant(s, Release(w));
    StepKeepsInvariant(Apply(s, Release(w)), SetRunning(s.table[t].run, true));
    assert RowOk(s2, t) && Leasable(s2.table, s2.running, t);
    StepKeepsInvariant(s2, Lease(t, w, now));
    assert RowOk(Apply(s2, Lease(t, w, now)), t);
  }

  /** One attempt is allowed, and two leases are made. */
  lemma ReleasePassesMaximum()
    ensures
      var steps := Leased1(1) + [Release(1), Lease(0, 1, 1)];
      && Runs(Initial(5), steps)
      && 0 in After(Initial(5), steps).table && After(Initial(5), steps).table[0].maxAttempts == 1
      && LeasesOf(After(Initial(5), steps).issues, 0) == 2
  {
    Leased1Runs(1);
    var s := AfterLeased1(1);
    TwoSteps(s, Release(1), Lease(0, 1, 1));
    InTwoParts(Initial(5), Leased1(1), [Release(1), Lease(0, 1, 1)]);
    var issues := After(s, [Release(1), Lease(0, 1, 1)]).issues;
    assert issues == [Issue(0, 1), Issue(0, 1)];
    assert issues[..1] == [Issue(0, 1)] && issues[..1][..0] == [];
  }

  // ---- the order of accepted batches ----

  /** The batch was sent by the worker the lease was made to, for the task it was made for. */
  predicate Rightful(issues: seq<Issue>, a: Accepted) {
    a.token.Issued? && a.token.n < |issues| && issues[a.token.n] == Issue(a.task, a.worker)
  }

  /** a's lease is no older than that of any batch accepted for the same task so far. */
  predicate Latest(s: State, a: Accepted) {
    && Rightful(s.issues, a)
    && forall i :: 0 <= i < |s.accepted| && s.accepted[i].task == a.task ==>
         s.accepted[i].token.Issued? && s.accepted[i].token.n <= a.token.n
  }

  /** Every batch was accepted on its sender's own lease of the task, and none on an older lease than a
      batch of that task accepted before. */
  predicate AcceptedInOrder(s: State) {
    && (forall i :: 0 <= i < |s.accepted| ==> Rightful(s.issues, s.accepted[i]))
    && (forall i, j :: 0 <= i < j < |s.accepted| && s.accepted[i].task == s.accepted[j].task ==>
          s.accepted[i].token.n <= s.accepted[j].token.n)
  }

  predicate DeliversInOrder(s: State, req: Request) { AcceptedInOrder(Apply(s, Load(req))) }

  /** ... and no batch that anybody might present now would break that. */
  ghost predicate AcceptsInOrder(s: State) {
    AcceptedInOrder(s) && forall req: Request :: DeliversInOrder(s, req)
  }

  predicate HoldersLatest(s: State) {
    forall t :: t in s.table && s.table[t].Live() && s.table[t].worker.Some? && s.table[t].token.Some? ==>
      Latest(s, Accepted(t, s.table[t].worker.value, s.table[t].token.value))
  }

  lemma LoadInOrder(s: State, req: Request)
    requires AcceptedInOrder(s) && req.task in s.table && s.table[req.task].HeldBy(req.worker, req.token)
    ensures AcceptedInOrder(Apply(s, Load(req))) <==> Latest(s, Accepted(req.task, req.worker, req.token))
  {
    var s', a, n := Apply(s, Load(req)), Accepted(req.task, req.worker, req.token), |s.accepted|;
    assert s'.accepted[n] == a && forall i :: 0 <= i < n ==> s'.accepted[i] == s.accepted[i];
    if AcceptedInOrder(s') {
      forall i | 0 <= i < n && s.accepted[i].task == a.task ensures s.accepted[i].token.n <= a.token.n {
        assert s'.accepted[i].task == s'.accepted[n].task;
      }
    }
  }

  /** Who may deliver in order is who holds the latest lease heard from. */
  lemma HoldersDecide(s: State)
    requires AcceptedInOrder(s)
    ensures AcceptsInOrder(s) <==> HoldersLatest(s)
  {
    if AcceptsInOrder(s) {
      forall t | t in s.table && s.table[t].Live() && s.table[t].worker.Some? && s.table[t].token.Some?
        ensures Latest(s, Accepted(t, s.table[t].worker.value, s.table[t].token.value))
      {
        var req := Request(t, s.table[t].worker.value, s.table[t].token.value, KeepAlive);
        assert DeliversInOrder(s, req);
        LoadInOrder(s, req);
      }
    }
    if HoldersLatest(s) {
      forall req: Request ensures DeliversInOrder(s, req) {
        if req.task in s.table && s.table[req.task].HeldBy(req.worker, req.token) { LoadInOrder(s, req); }
      }
    }
  }

  /** A handback that takes effect goes to the worker's own lease, and to one no older than any already
      heard from. ReadoptTask itself checks neither, only that the task is queued and has expired before. */
  predicate HandbackInOrder(s: State, st: Step) {
    st.Readopt? && Reclaims(s.table, st.t) ==> Latest(s, Accepted(st.t, st.w, st.tok))
  }

  /** The batch a handback is made for is accepted in order exactly when the handback goes to a lease that
      is the worker's own and the latest heard from. */
  lemma HandbackDecidesNextBatch(s: State, st: Step)
    requires AcceptedInOrder(s) && st.Readopt? && Reclaims(s.table, st.t)
    ensures AcceptedInOrder(Apply(Apply(s, st), Load(Request(st.t, st.w, st.tok, KeepAlive)))) <==> HandbackInOrder(s, st)
  {
    LoadInOrder(Apply(s, st), Request(st.t, st.w, st.tok, KeepAlive));
  }

  /** A step keeps it so that only batches in order are accepted, now and next, exactly when it is not a
      handback out of order. */
  lemma StepOrderedIff(s: State, st: Step)
    requires Invariant(s) && AcceptsInOrder(s) && Enabled(s, st)
    ensures AcceptsInOrder(Apply(s, st)) <==> HandbackInOrder(s, st)
  {
    var s' := Apply(s, st);
    HoldersDecide(s);
    AcceptedStays(s, st);
    HoldersDecide(s');
    if st.Readopt? && Reclaims(s.table, st.t) {
      assert s'.table[st.t].Live();
    }
    if HandbackInOrder(s, st) {
      forall t | t in s'.table && s'.table[t].Live() && s'.table[t].worker.Some? && s'.table[t].token.Some?
        ensures Latest(s', Accepted(t, s'.table[t].worker.value, s'.table[t].token.value))
      {
        HolderStaysLatest(s, st, t);
      }
    }
  }

  lemma AcceptedStays(s: State, st: Step)
    requires AcceptsInOrder(s) && Enabled(s, st)
    ensures AcceptedInOrder(Apply(s, st))
  {
    var s' := Apply(s, st);
    if st.Load? {
      assert DeliversInOrder(s, st.req);
    } else {
      assert s'.accepted == s.accepted && forall i :: 0 <= i < |s.issues| ==> s'.issues[i] == s.issues[i];
    }
  }

  lemma HolderStaysLatest(s: State, st: Step, t: TaskId)
    requires Invariant(s) && HoldersLatest(s) && AcceptedInOrder(s) && Enabled(s, st) && HandbackInOrder(s, st)
    requires
      var s' := Apply(s, st);
      t in s'.table && s'.table[t].Live() && s'.table[t].worker.Some? && s'.table[t].token.Some?
    ensures
      var s' := Apply(s, st);
      Latest(s', Accepted(t, s'.table[t].worker.value, s'.table[t].token.value))
  {
    assert t in s.table ==> RowOk(s, t);
  }

  ghost predicate OrderedThroughout(s: State, steps: seq<Step>)
    decreases |steps|
  {
    AcceptsInOrder(s) && (steps != [] ==> OrderedThroughout(Apply(s, steps[0]), steps[1..]))
  }

  predicate HandbacksInOrder(s: State, steps: seq<Step>)
    decreases |steps|
  {
    steps != [] ==> HandbackInOrder(s, steps[0]) && HandbacksInOrder(Apply(s, steps[0]), steps[1..])
  }

  /** Along any interleaving, batches are accepted in lease order at every point, including the next batch
      anybody could send there, exactly when every handback goes to its worker's own lease and to one no
      older than any already heard from. */
  lemma {:induction false} OrderedExactlyWhenHandbacksAre(s: State, steps: seq<Step>)
    requires Invariant(s) && AcceptsInOrder(s) && Runs(s, steps)
    ensures OrderedThroughout(s, steps) <==> HandbacksInOrder(s, steps)
    decreases |steps|
  {
    if steps != [] {
      var s' := Apply(s, steps[0]);
      StepOrderedIff(s, steps[0]);
      StepKeepsInvariant(s, steps[0]);
      if HandbackInOrder(s, steps[0]) {
        OrderedExactlyWhenHandbacksAre(s', steps[1..]);
      }
    }
  }

  lemma {:induction false} InTwoParts(s: State, a: seq<Step>, b: seq<Step>)
    ensures Runs(s, a + b) <==> Runs(s, a) && Runs(After(s, a), b)
    ensures After(s, a + b) == After(After(s, a), b)
    decreases |a|
  {
    if a == [] {
      assert a + b == b;
    } else {
      assert (a + b)[0] == a[0] && (a + b)[1..] == a[1..] + b;
      InTwoParts(Apply(s, a[0]), a[1..], b);
    }
  }

  lemma OneStep(s: State, a: Step)
    ensures Runs(s, [a]) <==> Enabled(s, a)
    ensures After(s, [a]) == Apply(s, a)
  {
  }

  lemma TwoSteps(s: State, a: Step, b: Step)
    ensures Runs(s, [a, b]) <==> Enabled(s, a) && Enabled(Apply(s, a), b)
    ensures After(s, [a, b]) == Apply(Apply(s, a), b)
  {
    OneStep(s, a);
    OneStep(Apply(s, a), b);
    InTwoParts(s, [a], [b]);
    assert [a] + [b] == [a, b];
  }

  /** One task of one running run, leased to worker 1 at time 0. */
  function Leased1(max: nat): seq<Step> {
    [Insert(0, 0, max), SetRunning(0, true), Lease(0, 1, 0)]
  }

  function AfterLeased1(max: nat): State {
    State(5, map[0 := Row(0, Leased, Some(1), Some(Issued(0)), Some(5), 1, max, false)], {0}, [Issue(0, 1)],
          [], {}, map[0 := 0])
  }

  lemma Leased1Runs(max: nat)
    requires max >= 1
    ensures Runs(Initial(5), Leased1(max)) && After(Initial(5), Leased1(max)) == AfterLeased1(max)
  {
    var s1 := Apply(Initial(5), Insert(0, 0, max));
    var s2 := Apply(s1, SetRunning(0, true));
    var s3 := Apply(s2, Lease(0, 1, 0));
    assert s3 == AfterLeased1(max);
    TwoSteps(Initial(5), Insert(0, 0, max), SetRunning(0, true));
    OneStep(s2, Lease(0, 1, 0));
    InTwoParts(Initial(5), [Insert(0, 0, max), SetRunning(0, true)], [Lease(0, 1, 0)]);
    assert Leased1(max) == [Insert(0, 0, max), SetRunning(0, true)] + [Lease(0, 1, 0)];
  }

  /** Two workers and two expiries: the second holder has delivered, its lease expires too, and the
      first holder is handed the task back on its old lease and accepted again. */
  lemma StaleHandbackGoesBack(first: Request, second: Request)
    requires first == Request(0, 1, Issued(0), KeepAlive) && second == Request(0, 2, Issued(1), KeepAlive)
    ensures
      var steps := Leased1(3) + [Load(first), Reap(0, 10)] + [Lease(0, 2, 10), Load(second), Reap(0, 20)]
                   + [Readopt(0, 1, Issued(0), 20), Load(first)];
      && Runs(Initial(5), steps)
      && After(Initial(5), steps).accepted ==
           [Accepted(0, 1, Issued(0)), Accepted(0, 2, Issued(1)), Accepted(0, 1, Issued(0))]
      && !AcceptedInOrder(After(Initial(5), steps))
  {
    var b, c := [Load(first), Reap(0, 10)], [Lease(0, 2, 10), Load(second), Reap(0, 20)];
    var d := [Readopt(0, 1, Issued(0), 20), Load(first)];
    Leased1Runs(3);
    var s1 := AfterLeased1(3);
    var s2 := State(5, map[0 := Row(0, Pending, None, None, None, 1, 3, true)], {0}, [Issue(0, 1)],
                    [Accepted(0, 1, Issued(0))], {first}, map[0 := 0]);
    TwoSteps(s1, b[0], b[1]);
    assert After(s1, b) == s2;
    var s3 := State(5, map[0 := Row(0, Pending, None, None, None, 2, 3, true)], {0}, [Issue(0, 1), Issue(0, 2)],
                    [Accepted(0, 1, Issued(0)), Accepted(0, 2, Issued(1))], {first, second}, map[0 := 0]);
    TwoSteps(s2, c[0], c[1]);
    OneStep(After(s2, [c[0], c[1]]), c[2]);
    InTwoParts(s2, [c[0], c[1]], [c[2]]);
    assert c == [c[0], c[1]] + [c[2]];
    assert After(s2, c) == s3;
    TwoSteps(s3, d[0], d[1]);
    var s4 := After(s3, d);
    assert s4.accepted[1].token.n > s4.accepted[2].token.n;
    InTwoParts(Initial(5), Leased1(3), b);
    InTwoParts(Initial(5), Leased1(3) + b, c);
    InTwoParts(Initial(5), Leased1(3) + b + c, d);
  }

  // ---- finished tasks ----

  /** A failure, for good or not, whose lease's token is still on a task that is over: it passed the load
      check before the task was completed or cancelled, and those two leave the token on the row. */
  predicate LateVerdict(s: State, st: Step) {
    && st.Close? && (st.req.closing.Retry? || st.req.closing.GiveUp?) && st.req.task in s.table
    && s.table[st.req.task].Terminal() && s.table[st.req.task].token == Some(st.req.token)
  }

  /** Every task that is over is as it was. */
  ghost predicate FinishedSame(s: State, s': State) {
    forall t :: t in s.table && s.table[t].Terminal() ==> t in s'.table && s'.table[t].SameAs(s.table[t])
  }

  lemma StepFinishedIff(s: State, st: Step)
    requires Invariant(s) && Enabled(s, st)
    ensures FinishedSame(s, Apply(s, st)) <==> !LateVerdict(s, st)
  {
    var s' := Apply(s, st);
    if LateVerdict(s, st) {
      assert s'.table[st.req.task].token.None?;
    } else {
      forall t | t in s.table && s.table[t].Terminal() ensures t in s'.table && s'.table[t].SameAs(s.table[t]) {
        FinishedRowSame(s, st, t);
      }
    }
  }

  lemma FinishedRowSame(s: State, st: Step, t: TaskId)
    requires t in s.table && RowOk(s, t) && s.table[t].Terminal() && Enabled(s, st) && !LateVerdict(s, st)
    ensures t in Apply(s, st).table && Apply(s, st).table[t].SameAs(s.table[t])
  {
  }

  ghost predicate FinishedSameThroughout(s: State, steps: seq<Step>)
    decreases |steps|
  {
    steps != [] ==> FinishedSame(s, Apply(s, steps[0])) && FinishedSameThroughout(Apply(s, steps[0]), steps[1..])
  }

  predicate NoLateVerdict(s: State, steps: seq<Step>)
    decreases |steps|
  {
    steps != [] ==> !LateVerdict(s, steps[0]) && NoLateVerdict(Apply(s, steps[0]), steps[1..])
  }

  /** Along any interleaving, what is done, failed or cancelled stays as it is exactly when no failure
      arrives for a task that is over and still carries its token. */
  lemma {:induction false} FinishedExactlyWithoutLateVerdict(s: State, steps: seq<Step>)
    requires Invariant(s) && Runs(s, steps)
    ensures FinishedSameThroughout(s, steps) <==> NoLateVerdict(s, steps)
    decreases |steps|
  {
    if steps != [] {
      StepFinishedIff(s, steps[0]);
      StepKeepsInvariant(s, steps[0]);
      FinishedExactlyWithoutLateVerdict(Apply(s, steps[0]), steps[1..]);
    }
  }

  /** A failure reported under a lease that passed the load check before the task was completed or
      cancelled. FailTask matches on the token those two leave on the row, and attempts remain. */
  predicate LateFailure(s: State, st: Step) {
    && st.Close? && st.req.closing.Retry? && st.req.task in s.table
    && var r := s.table[st.req.task];
       r.Terminal() && r.token == Some(st.req.token) && r.attempts < r.maxAttempts
  }

  ghost predicate TerminalKept(s: State, s': State) {
    forall t :: t in s.table && s.table[t].Terminal() ==> t in s'.table && s'.table[t].Terminal()
  }

  lemma StepTerminalIff(s: State, st: Step)
    requires Invariant(s) && Enabled(s, st)
    ensures TerminalKept(s, Apply(s, st)) <==> !LateFailure(s, st)
  {
    var s' := Apply(s, st);
    if LateFailure(s, st) {
      assert s'.table[st.req.task].status.Pending?;
    } else {
      forall t | t in s.table && s.table[t].Terminal() ensures t in s'.table && s'.table[t].Terminal() {
        StepKeepsRow(s, st, t);
      }
    }
  }

  ghost predicate TerminalThroughout(s: State, steps: seq<Step>)
    decreases |steps|
  {
    steps != [] ==> TerminalKept(s, Apply(s, steps[0])) && TerminalThroughout(Apply(s, steps[0]), steps[1..])
  }

  predicate NoLateFailure(s: State, steps: seq<Step>)
    decreases |steps|
  {
    steps != [] ==> !LateFailure(s, steps[0]) && NoLateFailure(Apply(s, steps[0]), steps[1..])
  }

  /** Along any interleaving, a task that is over, one way or another, stays over exactly when no late
      failure with attempts left occurs. */
  lemma {:induction false} TerminalExactlyWithoutLateFailure(s: State, steps: seq<Step>)
    requires Invariant(s) && Runs(s, steps)
    ensures TerminalThroughout(s, steps) <==> NoLateFailure(s, steps)
    decreases |steps|
  {
    if steps != [] {
      StepTerminalIff(s, steps[0]);
      StepKeepsInvariant(s, steps[0]);
      TerminalExactlyWithoutLateFailure(Apply(s, steps[0]), steps[1..]);
    }
  }

  /** ... and then no batch of a finished task is ever accepted again. */
  lemma {:induction false} FinishedAcceptsNothing(s: State, steps: seq<Step>, t: TaskId)
    requires Invariant(s) && Runs(s, steps) && NoLateFailure(s, steps)
    requires t in s.table && s.table[t].Terminal()
    ensures
      var s' := After(s, steps);
      && t in s'.table && s'.table[t].Terminal()
      && |s.accepted| <= |s'.accepted|
      && forall i :: |s.accepted| <= i < |s'.accepted| ==> s'.accepted[i].task != t
    decreases |steps|
  {
    if steps != [] {
      StepTerminalIff(s, steps[0]);
      StepKeepsInvariant(s, steps[0]);
      FinishedAcceptsNothing(Apply(s, steps[0]), steps[1..], t);
      AcceptedGrows(Apply(s, steps[0]), steps[1..]);
    }
  }

  /** A worker reports an error, the run is cancelled while the gateway ingests the batch, and the
      failure then puts the cancelled task back in the queue. */
  lemma LateFailureRevives(bad: Request, now: int)
    requires bad == Request(0, 1, Issued(0), Retry(false))
    ensures
      var cancelled := Leased1(3) + [Load(bad), Cancel(0)];
      && Runs(Initial(5), cancelled + [Close(bad, now)])
      && 0 in After(Initial(5), cancelled).table
      && After(Initial(5), cancelled).table[0].status.Cancelled?
      && 0 in After(Initial(5), cancelled + [Close(bad, now)]).table
      && After(Initial(5), cancelled + [Close(bad, now)]).table[0].status.Pending?
  {
    var b := [Load(bad), Cancel(0)];
    Leased1Runs(3);
    var s2 := AfterLeased1(3).(table := map[0 := Row(0, Cancelled, Some(1), Some(Issued(0)), Some(5), 1, 3, false)],
                              accepted := [Accepted(0, 1, Issued(0))], loaded := {bad});
    TwoSteps(AfterLeased1(3), b[0], b[1]);
    assert After(AfterLeased1(3), b) == s2;
    OneStep(s2, Close(bad, now));
    InTwoParts(Initial(5), Leased1(3), b);
    InTwoParts(Initial(5), Leased1(3) + b, [Close(bad, now)]);
  }

  /** A failure for good that arrives after a cancellation makes the cancelled task a failed one. */
  lemma LateGiveUpFailsCancelled(bad: Request, now: int)
    requires bad == Request(0, 1, Issued(0), GiveUp(false))
    ensures
      var cancelled := Leased1(3) + [Load(bad), Cancel(0)];
      && Runs(Initial(5), cancelled + [Close(bad, now)])
      && 0 in After(Initial(5), cancelled).table && After(Initial(5), cancelled).table[0].status.Cancelled?
      && 0 in After(Initial(5), cancelled + [Close(bad, now)]).table
      && After(Initial(5), cancelled + [Close(bad, now)]).table[0].status.Failed?
  {
    var b := [Load(bad), Cancel(0)];
    Leased1Runs(3);
    var s2 := AfterLeased1(3).(table := map[0 := Row(0, Cancelled, Some(1), Some(Issued(0)), Some(5), 1, 3, false)],
                               accepted := [Accepted(0, 1, Issued(0))], loaded := {bad});
    TwoSteps(AfterLeased1(3), b[0], b[1]);
    assert After(AfterLeased1(3), b) == s2;
    OneStep(s2, Close(bad, now));
    InTwoParts(Initial(5), Leased1(3), b);
    InTwoParts(Initial(5), Leased1(3) + b, [Close(bad, now)]);
  }

  /** On its last attempt a task that is done becomes a failed one when its worker reports an error too: the
      planner then no longer reads what it found. */
  lemma LateFailureFailsDone(good: Request, bad: Request, now: int)
    requires good == Request(0, 1, Issued(0), Complete) && bad == Request(0, 1, Issued(0), Retry(false))
    ensures
      var done := Leased1(1) + [Load(good), Load(bad)] + [Close(good, now)];
      && Runs(Initial(5), done + [Close(bad, now)])
      && 0 in After(Initial(5), done).table && After(Initial(5), done).table[0].status.Done?
      && 0 in After(Initial(5), done + [Close(bad, now)]).table
      && After(Initial(5), done + [Close(bad, now)]).table[0].status.Failed?
  {
    var b := [Load(good), Load(bad)];
    Leased1Runs(1);
    var s2 := AfterLeased1(1).(accepted := [Accepted(0, 1, Issued(0)), Accepted(0, 1, Issued(0))], loaded := {good, bad});
    TwoSteps(AfterLeased1(1), b[0], b[1]);
    assert After(AfterLeased1(1), b) == s2;
    OneStep(s2, Close(good, now));
    OneStep(Apply(s2, Close(good, now)), Close(bad, now));
    InTwoParts(Initial(5), Leased1(1), b);
    InTwoParts(Initial(5), Leased1(1) + b, [Close(good, now)]);
    InTwoParts(Initial(5), Leased1(1) + b + [Close(good, now)], [Close(bad, now)]);
  }

  /** A task that was done and is put back by a late failure is leased again, and a batch of it accepted. */
  lemma RevivedAcceptsAgain(good: Request, bad: Request, again: Request, now: int)
    requires good == Request(0, 1, Issued(0), Complete) && bad == Request(0, 1, Issued(0), Retry(false))
    requires again == Request(0, 2, Issued(1), KeepAlive)
    ensures
      var done := Leased1(3) + [Load(good), Load(bad)] + [Close(good, now)];
      var steps := done + [Close(bad, now)] + [Lease(0, 2, now), Load(again)];
      && Runs(Initial(5), steps)
      && 0 in After(Initial(5), done).table && After(Initial(5), done).table[0].status.Done?
      && After(Initial(5), steps).accepted == After(Initial(5), done).accepted + [Accepted(0, 2, Issued(1))]
  {
    var b, d := [Load(good), Load(bad)], [Lease(0, 2, now), Load(again)];
    Leased1Runs(3);
    var s2 := AfterLeased1(3).(accepted := [Accepted(0, 1, Issued(0)), Accepted(0, 1, Issued(0))], loaded := {good, bad});
    TwoSteps(AfterLeased1(3), b[0], b[1]);
    assert After(AfterLeased1(3), b) == s2;
    var s3 := Apply(s2, Close(good, now));
    var s4 := Apply(s3, Close(bad, now));
    OneStep(s2, Close(good, now));
    OneStep(s3, Close(bad, now));
    TwoSteps(s4, d[0], d[1]);
    InTwoParts(Initial(5), Leased1(3), b);
    InTwoParts(Initial(5), Leased1(3) + b, [Close(good, now)]);
    InTwoParts(Initial(5), Leased1(3) + b + [Close(good, now)], [Close(bad, now)]);
    InTwoParts(Initial(5), Leased1(3) + b + [Close(good, now)] + [Close(bad, now)], d);
  }

  /** One execution of a task ends one way, however often its last batch is re-sent. */
  predicate OneVerdict(loaded: set<Request>) {
    forall a, b :: a in loaded && b in loaded && a.token == b.token && a.closing.Complete? ==>
      !b.closing.Retry? && !b.closing.GiveUp?
  }

  predicate DoneOnRequest(s: State) {
    forall t :: t in s.table && s.table[t].status.Done? ==> Requested(s, s.table[t])
  }

  /** A request that completes the task was loaded under the row's token. */
  predicate Requested(s: State, row: Row) {
    row.token.Some? && exists req :: req in s.loaded && req.token == row.token.value && req.closing.Complete?
  }

  /** Where workers keep to one verdict per lease, a task that is done stays done: nothing that
      arrives late, not even a failure, changes it. */
  lemma {:induction false} DoneIsFinal(s: State, steps: seq<Step>, t: TaskId)
    requires Invariant(s) && DoneOnRequest(s) && Runs(s, steps)
    requires OneVerdict(After(s, steps).loaded)
    ensures s.loaded <= After(s, steps).loaded && DoneOnRequest(After(s, steps))
    ensures t in s.table && s.table[t].status.Done? ==>
              t in After(s, steps).table && After(s, steps).table[t].SameAs(s.table[t])
    decreases |steps|
  {
    if steps != [] {
      var s' := Apply(s, steps[0]);
      StepKeepsInvariant(s, steps[0]);
      LoadedGrows(s', steps[1..]);
      StepKeepsDone(s, steps[0]);
      DoneIsFinal(s', steps[1..], t);
    }
  }

  lemma {:induction false} AcceptedGrows(s: State, steps: seq<Step>)
    ensures s.accepted <= After(s, steps).accepted
    decreases |steps|
  {
    if steps != [] { AcceptedGrows(Apply(s, steps[0]), steps[1..]); }
  }

  lemma {:induction false} LoadedGrows(s: State, steps: seq<Step>)
    ensures s.loaded <= After(s, steps).loaded
    decreases |steps|
  {
    if steps != [] { LoadedGrows(Apply(s, steps[0]), steps[1..]); }
  }

  lemma StepKeepsDone(s: State, st: Step)
    requires Invariant(s) && DoneOnRequest(s) && Enabled(s, st) && OneVerdict(Apply(s, st).loaded)
    ensures DoneOnRequest(Apply(s, st))
    ensures forall t :: t in s.table && s.table[t].status.Done? ==>
              t in Apply(s, st).table && Apply(s, st).table[t].SameAs(s.table[t])
  {
    var s' := Apply(s, st);
    forall t | t in s.table && s.table[t].status.Done? ensures t in s'.table && s'.table[t].SameAs(s.table[t]) {
      DoneRowStays(s, st, t);
    }
    forall t | t in s'.table && s'.table[t].status.Done? ensures Requested(s', s'.table[t]) {
      DoneWasRequested(s, st, t);
    }
  }

  lemma DoneRowStays(s: State, st: Step, t: TaskId)
    requires Invariant(s) && Enabled(s, st) && OneVerdict(Apply(s, st).loaded)
    requires t in s.table && s.table[t].status.Done? && Requested(s, s.table[t])
    ensures t in Apply(s, st).table && Apply(s, st).table[t].SameAs(s.table[t])
  {
    assert s.loaded <= Apply(s, st).loaded;
  }

  lemma DoneWasRequested(s: State, st: Step, t: TaskId)
    requires Invariant(s) && DoneOnRequest(s) && Enabled(s, st)
    requires t in Apply(s, st).table && Apply(s, st).table[t].status.Done?
    ensures Requested(Apply(s, st), Apply(s, st).table[t])
  {
    assert s.loaded <= Apply(s, st).loaded;
  }
}
