/** Handing out tasks: brute-force tasks apart from the rest, and no more of them at a time than a cap.
    Counting the room and leasing are separate statements, with anything in between. */
module Dispatch {

  type TaskId = nat
  type WorkerId = nat

  datatype Standing = Waiting | Held(worker: WorkerId) | Over

  datatype Item = Item(brute: bool, standing: Standing)

  type Table = map<TaskId, Item>

  /** The brute-force tasks a worker holds. */
  function BruteHeld(tb: Table, w: WorkerId): set<TaskId> {
    set t | t in tb && tb[t].brute && tb[t].standing == Held(w)
  }

  function BruteRoom(tb: Table, w: WorkerId, cap: int): int { cap - |BruteHeld(tb, w)| }

  predicate Eligible(tb: Table, t: TaskId, brute: bool) {
    t in tb && tb[t].standing.Waiting? && tb[t].brute == brute
  }

  datatype Lent = Lent(table: Table, jobs: seq<TaskId>)

  /** Leases the first n eligible tasks, in the order the query ranks them. */
  function Takes(tb: Table, w: WorkerId, order: seq<TaskId>, n: int, brute: bool): Lent
    decreases |order|
  {
    if order == [] || n <= 0 then Lent(tb, [])
    else if Eligible(tb, order[0], brute) then
      var t := order[0];
      var r := Takes(tb[t := tb[t].(standing := Held(w))], w, order[1..], n - 1, brute);
      Lent(r.table, [t] + r.jobs)
    else Takes(tb, w, order[1..], n, brute)
  }

  function Least(a: int, b: int): int { if a < b then a else b }

  /** A worker asking for up to `limit` tasks, with nothing else going on meanwhile. */
  function Leases(tb: Table, w: WorkerId, cap: int, limit: int, order: seq<TaskId>): Lent {
    var room := BruteRoom(tb, w, cap);
    var first := if room > 0 then Takes(tb, w, order, Least(room, limit), true) else Lent(tb, []);
    var rest := limit - |first.jobs|;
    if rest <= 0 then first
    else
      var second := Takes(first.table, w, order, rest, false);
      Lent(second.table, first.jobs + second.jobs)
  }

  class Dispatcher {
    const bruteCap: int
    var table: Table

    constructor (n: int)
      ensures bruteCap == (if n < 1 then 1 else n) && table == map[]
    {
      bruteCap, table := if n < 1 then 1 else n, map[];
    }

    method LeaseTasksWhere(w: WorkerId, order: seq<TaskId>, n: int, brute: bool) returns (jobs: seq<TaskId>)
      modifies this`table
      ensures Lent(table, jobs) == Takes(old(table), w, order, n, brute)
    {
      jobs := [];
      assert order[0..] == order;
      ghost var all := Takes(table, w, order, n, brute);
      for i := 0 to |order|
        invariant var r := Takes(table, w, order[i..], n - |jobs|, brute); Lent(r.table, jobs + r.jobs) == all
      {
        assert order[i..][0] == order[i] && order[i..][1..] == order[i + 1..];
        if |jobs| >= n { return; }
        var t := order[i];
        if Eligible(table, t, brute) {
          ghost var r := Takes(table[t := table[t].(standing := Held(w))], w, order[i + 1..], n - |jobs| - 1, brute);
          assert jobs + ([t] + r.jobs) == jobs + [t] + r.jobs;
          table := table[t := table[t].(standing := Held(w))];
          jobs := jobs + [t];
        }
      }
    }

    method Lease(w: WorkerId, limit: int, order: seq<TaskId>) returns (jobs: seq<TaskId>)
      modifies this`table
      ensures Lent(table, jobs) == Leases(old(table), w, bruteCap, limit, order)
    {
      jobs := [];
      var room := BruteRoom(table, w, bruteCap);
      if room > 0 {
        var n := room;
        if n > limit { n := limit; }
        jobs := LeaseTasksWhere(w, order, n, true);
      }
      if limit - |jobs| > 0 {
        var more := LeaseTasksWhere(w, order, limit - |jobs|, false);
        jobs := jobs + more;
      }
    }
  }

  // ---- what one lease does ----

  /** r is tb with the jobs, all of one sort and waiting before, held by w. */
  predicate Took(tb: Table, w: WorkerId, r: Lent, brute: bool) {
    && r.table.Keys == tb.Keys
    && (forall t :: t in r.jobs ==>
          t in tb && tb[t].standing == Waiting && tb[t].brute == brute && r.table[t] == tb[t].(standing := Held(w)))
    && (forall t :: t in tb && t !in r.jobs ==> r.table[t] == tb[t])
    && (forall i, j :: 0 <= i < j < |r.jobs| ==> r.jobs[i] != r.jobs[j])
  }

  lemma {:induction false} TakesIs(tb: Table, w: WorkerId, order: seq<TaskId>, n: int, brute: bool)
    ensures Took(tb, w, Takes(tb, w, order, n, brute), brute)
    ensures |Takes(tb, w, order, n, brute).jobs| <= if n < 0 then 0 else n
    decreases |order|
  {
    if order != [] && n > 0 {
      if Eligible(tb, order[0], brute) {
        var t := order[0];
        var tb' := tb[t := tb[t].(standing := Held(w))];
        TakesIs(tb', w, order[1..], n - 1, brute);
        var r := Takes(tb', w, order[1..], n - 1, brute);
        assert !Eligible(tb', t, brute);
        assert t !in r.jobs;
      } else {
        TakesIs(tb, w, order[1..], n, brute);
      }
    }
  }

  function JobSet(jobs: seq<TaskId>): set<TaskId> { set t | t in jobs }

  lemma {:induction false} JobsSize(jobs: seq<TaskId>)
    requires forall i, j :: 0 <= i < j < |jobs| ==> jobs[i] != jobs[j]
    ensures |JobSet(jobs)| == |jobs|
    decreases |jobs|
  {
    if jobs != [] {
      var n := |jobs| - 1;
      JobsSize(jobs[..n]);
      assert forall t :: t in jobs <==> t in jobs[..n] || t == jobs[n];
      assert JobSet(jobs) == JobSet(jobs[..n]) + {jobs[n]};
      assert jobs[n] !in jobs[..n];
    }
  }

  lemma TookBrute(tb: Table, w: WorkerId, r: Lent, brute: bool, v: WorkerId)
    requires Took(tb, w, r, brute)
    ensures |BruteHeld(r.table, v)| == |BruteHeld(tb, v)| + if brute && v == w then |r.jobs| else 0
  {
    if brute && v == w {
      var jobs := JobSet(r.jobs);
      assert BruteHeld(r.table, v) == BruteHeld(tb, v) + jobs;
      assert BruteHeld(tb, v) !! jobs;
      JobsSize(r.jobs);
      assert |BruteHeld(tb, v) + jobs| == |BruteHeld(tb, v)| + |jobs|;
    } else {
      assert BruteHeld(r.table, v) == BruteHeld(tb, v);
    }
  }

  /** The tasks of the ranking that can be taken. */
  function Candidates(tb: Table, order: seq<TaskId>, brute: bool): set<TaskId> {
    set t | t in order && t in tb && tb[t].standing == Waiting && tb[t].brute == brute
  }

  /** As many are taken as were asked for, or all there are. */
  lemma {:induction false} TakesCount(tb: Table, w: WorkerId, order: seq<TaskId>, n: int, brute: bool)
    ensures |Takes(tb, w, order, n, brute).jobs| == if n < 0 then 0 else Least(n, |Candidates(tb, order, brute)|)
    decreases |order|
  {
    if order != [] && n > 0 {
      var t, rest := order[0], order[1..];
      assert forall u :: u in order <==> u == t || u in rest;
      if Eligible(tb, t, brute) {
        var tb' := tb[t := tb[t].(standing := Held(w))];
        TakesCount(tb', w, rest, n - 1, brute);
        assert Candidates(tb, order, brute) == Candidates(tb', rest, brute) + {t};
        assert t !in Candidates(tb', rest, brute);
      } else {
        TakesCount(tb, w, rest, n, brute);
        assert Candidates(tb, order, brute) == Candidates(tb, rest, brute);
      }
    }
  }

  /** A call that nothing runs into hands out no more tasks than asked for, and leaves the worker with no more
      brute-force tasks than the cap or than it had; other workers keep what they hold. */
  lemma LeaseBounds(tb: Table, w: WorkerId, cap: int, limit: int, order: seq<TaskId>, v: WorkerId)
    ensures
      var r := Leases(tb, w, cap, limit, order);
      && |r.jobs| <= (if limit < 0 then 0 else limit)
      && |BruteHeld(r.table, v)| <= (if v == w && |BruteHeld(tb, v)| < cap then cap else |BruteHeld(tb, v)|)
  {
    var room := BruteRoom(tb, w, cap);
    var first := if room > 0 then Takes(tb, w, order, Least(room, limit), true) else Lent(tb, []);
    if room > 0 {
      TakesIs(tb, w, order, Least(room, limit), true);
    }
    TookBrute(tb, w, first, true, v);
    if limit - |first.jobs| > 0 {
      TakesIs(first.table, w, order, limit - |first.jobs|, false);
      TookBrute(first.table, w, Takes(first.table, w, order, limit - |first.jobs|, false), false, v);
    }
  }

  // ---- over whole runs ----

  type CallId = nat

  /** A call of `Lease` under way: it knows the room it counted, or how many tasks it may still hand out. */
  datatype Call = Counted(worker: WorkerId, room: int, limit: int) | Resting(worker: WorkerId, left: int)

  datatype State = State(table: Table, calls: map<CallId, Call>)

  /** Calls count, take brute-force tasks and take the rest in statements of their own, any number of calls
      at once; one may end early on an error, or find no room because counting failed. Meanwhile tasks are
      planned, let go of (done, failed, expired or released), and handed back to a worker that was still at
      one when its lease had expired. */
  datatype Step =
    | Count(call: CallId, worker: WorkerId, limit: int, ok: bool)
    | TakeBrute(call: CallId, order: seq<TaskId>)
    | TakeRest(call: CallId, order: seq<TaskId>)
    | GiveUp(call: CallId)
    | Plan(task: TaskId, brute: bool)
    | LetGo(task: TaskId, standing: Standing)
    | Readopt(worker: WorkerId, task: TaskId)

  predicate Enabled(s: State, st: Step) {
    match st
    case Count(c, _, _, _) => c !in s.calls
    case TakeBrute(c, _) => c in s.calls && s.calls[c].Counted?
    case TakeRest(c, _) => c in s.calls && s.calls[c].Resting?
    case GiveUp(c) => c in s.calls
    case Plan(t, _) => t !in s.table
    case LetGo(t, standing) => t in s.table && !standing.Held?
    case Readopt(_, t) => t in s.table && s.table[t].standing.Waiting?
  }

  function Apply(s: State, st: Step, cap: int): State
    requires Enabled(s, st)
  {
    match st
    case Count(c, w, limit, ok) =>
      s.(calls := s.calls[c := Counted(w, if ok then BruteRoom(s.table, w, cap) else 0, limit)])
    case TakeBrute(c, order) =>
      var k := s.calls[c];
      var r := Takes(s.table, k.worker, order, Least(k.room, k.limit), true);
      State(r.table, s.calls[c := Resting(k.worker, k.limit - |r.jobs|)])
    case TakeRest(c, order) =>
      State(Takes(s.table, s.calls[c].worker, order, s.calls[c].left, false).table, s.calls - {c})
    case GiveUp(c) => s.(calls := s.calls - {c})
    case Plan(t, brute) => s.(table := s.table[t := Item(brute, Waiting)])
    case LetGo(t, standing) => s.(table := s.table[t := s.table[t].(standing := standing)])
    case Readopt(w, t) => s.(table := s.table[t := s.table[t].(standing := Held(w))])
  }

  /** What the statements of the calls do to the calls: one counts the room there is, or none if it cannot; one takes
      brute-force tasks and has the rest of its limit left; the last one, or an error, ends the call. */
  lemma CallsChangeExactly(s: State, st: Step, cap: int, c: CallId)
    requires Enabled(s, st)
    ensures
      var calls := Apply(s, st, cap).calls;
      if st.Count? && st.call == c then
        c in calls && calls[c] == Counted(st.worker, if st.ok then cap - |BruteHeld(s.table, st.worker)| else 0, st.limit)
      else if st.TakeBrute? && st.call == c then
        var k := s.calls[c];
        c in calls && calls[c] == Resting(k.worker, k.limit - |Takes(s.table, k.worker, st.order, Least(k.room, k.limit), true).jobs|)
      else if (st.TakeRest? || st.GiveUp?) && st.call == c then c !in calls
      else (c in calls <==> c in s.calls) && (c in calls ==> calls[c] == s.calls[c])
  {
  }

  /** What they do to a task: only a take holds it for the call's worker, only letting go or handing back changes it
      otherwise. */
  lemma TaskChangesExactly(s: State, st: Step, cap: int, t: TaskId)
    requires Enabled(s, st)
    ensures t in Apply(s, st, cap).table <==> t in s.table || (st.Plan? && st.task == t)
    ensures t in s.table ==>
      var item, after := s.table[t], Apply(s, st, cap).table[t];
      && after.brute == item.brute
      && (st.LetGo? && st.task == t ==> after.standing == st.standing)
      && (st.Readopt? && st.task == t ==> after.standing == Held(st.worker))
      && (after != item && !(st.LetGo? && st.task == t) && !(st.Readopt? && st.task == t) ==>
            && (st.TakeBrute? || st.TakeRest?) && item.standing == Waiting && item.brute == st.TakeBrute?
            && after.standing == Held(s.calls[st.call].worker))
    ensures st.Plan? && st.task == t ==> Apply(s, st, cap).table[t] == Item(st.brute, Waiting)
  {
    if st.TakeBrute? {
      var k := s.calls[st.call];
      TakesIs(s.table, k.worker, st.order, Least(k.room, k.limit), true);
    } else if st.TakeRest? {
      TakesIs(s.table, s.calls[st.call].worker, st.order, s.calls[st.call].left, false);
    }
  }

  /** With nothing in between, the three statements of a call do what the call does as a whole. */
  lemma LeaseIsSteps(s: State, c: CallId, w: WorkerId, limit: int, order: seq<TaskId>, cap: int)
    requires c !in s.calls
    ensures
      var s1 := Apply(s, Count(c, w, limit, true), cap);
      var s2 := Apply(s1, TakeBrute(c, order), cap);
      && Enabled(s2, TakeRest(c, order))
      && Apply(s2, TakeRest(c, order), cap) == s.(table := Leases(s.table, w, cap, limit, order).table)
  {
    assert (s.calls[c := Counted(w, BruteRoom(s.table, w, cap), limit)]) - {c} == s.calls;
  }

  ghost predicate WithinCap(tb: Table, cap: int) { forall w :: |BruteHeld(tb, w)| <= cap }

  /** A brute-force task handed back to a worker that has its share already. */
  predicate OverReadopt(s: State, st: Step, cap: int) {
    && st.Readopt? && st.task in s.table && s.table[st.task].brute
    && |BruteHeld(s.table, st.worker)| >= cap
  }

  /** Brute-force tasks taken on a count that no longer holds: the room that is left is less than the room
      the call counted, than what it may hand out, and than the tasks there are. */
  predicate StaleTake(s: State, st: Step, cap: int) {
    && st.TakeBrute? && st.call in s.calls && s.calls[st.call].Counted?
    && var k := s.calls[st.call];
       BruteRoom(s.table, k.worker, cap) < Least(Least(k.room, k.limit), |Candidates(s.table, st.order, true)|)
  }

  predicate PassesCap(s: State, st: Step, cap: int) { OverReadopt(s, st, cap) || StaleTake(s, st, cap) }

  lemma TakeBruteWithinExactly(s: State, st: Step, cap: int)
    requires Enabled(s, st) && st.TakeBrute? && WithinCap(s.table, cap)
    ensures WithinCap(Apply(s, st, cap).table, cap) <==> !StaleTake(s, st, cap)
  {
    var k := s.calls[st.call];
    var n := Least(k.room, k.limit);
    var r := Takes(s.table, k.worker, st.order, n, true);
    TakesIs(s.table, k.worker, st.order, n, true);
    TakesCount(s.table, k.worker, st.order, n, true);
    assert |BruteHeld(s.table, k.worker)| <= cap;
    forall v
      ensures |BruteHeld(r.table, v)| == |BruteHeld(s.table, v)| + if v == k.worker then |r.jobs| else 0
    {
      TookBrute(s.table, k.worker, r, true, v);
    }
    if !StaleTake(s, st, cap) {
      forall v ensures |BruteHeld(r.table, v)| <= cap { assert |BruteHeld(s.table, v)| <= cap; }
    }
  }

  lemma OtherTakeKeepsCap(tb: Table, w: WorkerId, order: seq<TaskId>, n: int, cap: int)
    requires WithinCap(tb, cap)
    ensures WithinCap(Takes(tb, w, order, n, false).table, cap)
  {
    var r := Takes(tb, w, order, n, false);
    TakesIs(tb, w, order, n, false);
    forall v ensures |BruteHeld(r.table, v)| <= cap {
      assert |BruteHeld(tb, v)| <= cap;
      TookBrute(tb, w, r, false, v);
    }
  }

  lemma ChangeKeepsCap(tb: Table, tb': Table, t: TaskId, cap: int)
    requires WithinCap(tb, cap) && t in tb' && !tb'[t].standing.Held? && tb' == tb[t := tb'[t]]
    ensures WithinCap(tb', cap)
  {
    forall v ensures |BruteHeld(tb', v)| <= cap {
      assert |BruteHeld(tb, v)| <= cap;
      assert BruteHeld(tb', v) <= BruteHeld(tb, v);
      SubsetSize(BruteHeld(tb', v), BruteHeld(tb, v));
    }
  }

  lemma ReadoptHeld(tb: Table, tb': Table, w: WorkerId, t: TaskId, v: WorkerId)
    requires t in tb && tb[t].standing.Waiting? && tb' == tb[t := tb[t].(standing := Held(w))]
    ensures |BruteHeld(tb', v)| == |BruteHeld(tb, v)| + if v == w && tb[t].brute then 1 else 0
  {
    var before, after := BruteHeld(tb, v), BruteHeld(tb', v);
    assert t !in before;
    forall u | u != t ensures u in after <==> u in before {
    }
    if v == w && tb[t].brute { assert after == before + {t}; } else { assert after == before; }
  }

  lemma ReadoptWithinExactly(tb: Table, tb': Table, w: WorkerId, t: TaskId, cap: int)
    requires WithinCap(tb, cap) && t in tb && tb[t].standing.Waiting? && tb' == tb[t := tb[t].(standing := Held(w))]
    ensures WithinCap(tb', cap) <==> !(tb[t].brute && |BruteHeld(tb, w)| >= cap)
  {
    ReadoptHeld(tb, tb', w, t, w);
    assert |BruteHeld(tb, w)| <= cap;
    if !(tb[t].brute && |BruteHeld(tb, w)| >= cap) {
      forall v ensures |BruteHeld(tb', v)| <= cap {
        assert |BruteHeld(tb, v)| <= cap;
        ReadoptHeld(tb, tb', w, t, v);
      }
    }
  }

  lemma StepWithinCapExactly(s: State, st: Step, cap: int)
    requires Enabled(s, st) && WithinCap(s.table, cap)
    ensures WithinCap(Apply(s, st, cap).table, cap) <==> !PassesCap(s, st, cap)
  {
    var tb' := Apply(s, st, cap).table;
    match st
    case Count(_, _, _, _) =>
    case TakeBrute(_, _) => TakeBruteWithinExactly(s, st, cap);
    case TakeRest(c, order) => OtherTakeKeepsCap(s.table, s.calls[c].worker, order, s.calls[c].left, cap);
    case GiveUp(_) =>
    case Plan(t, _) => ChangeKeepsCap(s.table, tb', t, cap);
    case LetGo(t, _) => ChangeKeepsCap(s.table, tb', t, cap);
    case Readopt(w, t) => ReadoptWithinExactly(s.table, tb', w, t, cap);
  }

  predicate Runs(s: State, steps: seq<Step>, cap: int)
    decreases |steps|
  {
    steps == [] || (Enabled(s, steps[0]) && Runs(Apply(s, steps[0], cap), steps[1..], cap))
  }

  function After(s: State, steps: seq<Step>, cap: int): State
    requires Runs(s, steps, cap)
    decreases |steps|
  {
    if steps == [] then s else After(Apply(s, steps[0], cap), steps[1..], cap)
  }

  /** Every state of the run is within the cap. */
  ghost predicate AlwaysWithinCap(s: State, steps: seq<Step>, cap: int)
    requires Runs(s, steps, cap)
    decreases |steps|
  {
    WithinCap(s.table, cap) && (steps != [] ==> AlwaysWithinCap(Apply(s, steps[0], cap), steps[1..], cap))
  }

  predicate NeverPassesCap(s: State, steps: seq<Step>, cap: int)
    requires Runs(s, steps, cap)
    decreases |steps|
  {
    steps != [] ==> !PassesCap(s, steps[0], cap) && NeverPassesCap(Apply(s, steps[0], cap), steps[1..], cap)
  }

  /** A worker never holds more brute-force tasks than the cap exactly when none is ever handed back to a
      worker that is at it and no call takes more than the room there then is. */
  lemma {:induction false} CapKeptExactly(s: State, steps: seq<Step>, cap: int)
    requires Runs(s, steps, cap) && WithinCap(s.table, cap)
    ensures AlwaysWithinCap(s, steps, cap) <==> NeverPassesCap(s, steps, cap)
    decreases |steps|
  {
    if steps != [] {
      StepWithinCapExactly(s, steps[0], cap);
      if !PassesCap(s, steps[0], cap) { CapKeptExactly(Apply(s, steps[0], cap), steps[1..], cap); }
    }
  }

  // ---- what makes a count stale ----

  predicate NeverOverReadopts(s: State, steps: seq<Step>, cap: int)
    requires Runs(s, steps, cap)
    decreases |steps|
  {
    steps != [] ==> !OverReadopt(s, steps[0], cap) && NeverOverReadopts(Apply(s, steps[0], cap), steps[1..], cap)
  }

  /** No call under way has counted more room than there is. */
  predicate Current(s: State, cap: int) {
    forall c :: c in s.calls && s.calls[c].Counted? ==>
      s.calls[c].room <= 0 || s.calls[c].room <= BruteRoom(s.table, s.calls[c].worker, cap)
  }

  /** Call c of worker w is between counting and taking. */
  predicate Between(s: State, c: CallId, w: WorkerId) {
    c in s.calls && s.calls[c].Counted? && s.calls[c].worker == w
  }

  /** A brute-force task comes to a worker, from a heartbeat or another call, while a call of its own is between
      counting and taking. */
  predicate Disturbs(s: State, st: Step) {
    match st
    case Readopt(w, t) => t in s.table && s.table[t].brute && exists c :: c in s.calls && Between(s, c, w)
    case TakeBrute(c, order) =>
      && c in s.calls && s.calls[c].Counted? && Candidates(s.table, order, true) != {}
      && exists d :: d in s.calls && d != c && Between(s, d, s.calls[c].worker)
    case _ => false
  }

  predicate Undisturbed(s: State, steps: seq<Step>, cap: int)
    requires Runs(s, steps, cap)
    decreases |steps|
  {
    steps != [] ==> !Disturbs(s, steps[0]) && Undisturbed(Apply(s, steps[0], cap), steps[1..], cap)
  }

  lemma CurrentNeverStale(s: State, st: Step, cap: int)
    requires Current(s, cap) && WithinCap(s.table, cap)
    ensures !StaleTake(s, st, cap)
  {
    if st.TakeBrute? && st.call in s.calls {
      assert |BruteHeld(s.table, s.calls[st.call].worker)| <= cap;
    }
  }

  /** What a step adds to the brute-force tasks a worker holds. */
  lemma HeldGrowsOnlyBy(s: State, st: Step, cap: int, v: WorkerId)
    requires Enabled(s, st)
    requires !(st.Readopt? && st.worker == v && s.table[st.task].brute)
    requires !(st.TakeBrute? && s.calls[st.call].worker == v && Candidates(s.table, st.order, true) != {})
    ensures |BruteHeld(Apply(s, st, cap).table, v)| <= |BruteHeld(s.table, v)|
  {
    var tb, tb' := s.table, Apply(s, st, cap).table;
    match st
    case Count(_, _, _, _) =>
    case TakeBrute(c, order) =>
      var k := s.calls[c];
      var n := Least(k.room, k.limit);
      TakesIs(tb, k.worker, order, n, true);
      TakesCount(tb, k.worker, order, n, true);
      TookBrute(tb, k.worker, Takes(tb, k.worker, order, n, true), true, v);
    case TakeRest(c, order) =>
      var k := s.calls[c];
      TakesIs(tb, k.worker, order, k.left, false);
      TookBrute(tb, k.worker, Takes(tb, k.worker, order, k.left, false), false, v);
    case GiveUp(_) =>
    case Plan(_, _) => assert BruteHeld(tb', v) == BruteHeld(tb, v);
    case LetGo(t, _) => assert BruteHeld(tb', v) == BruteHeld(tb, v) - {t};
    case Readopt(_, _) => assert BruteHeld(tb', v) == BruteHeld(tb, v);
  }

  lemma StepKeepsCurrent(s: State, st: Step, cap: int)
    requires Enabled(s, st) && Current(s, cap) && !Disturbs(s, st)
    ensures Current(Apply(s, st, cap), cap)
  {
    var s' := Apply(s, st, cap);
    forall c | c in s'.calls && s'.calls[c].Counted?
      ensures s'.calls[c].room <= 0 || s'.calls[c].room <= BruteRoom(s'.table, s'.calls[c].worker, cap)
    {
      if c in s.calls && s.calls[c] == s'.calls[c] {
        assert Between(s, c, s.calls[c].worker);
        HeldGrowsOnlyBy(s, st, cap, s.calls[c].worker);
      }
    }
  }

  /** So a worker whose calls are left alone while they are between counting and taking stays within the
      cap, if also no brute-force task is handed back to it at the cap: leasing alone passes the cap only
      when two calls of one worker cross. */
  lemma {:induction false} UndisturbedKeepsCap(s: State, steps: seq<Step>, cap: int)
    requires Runs(s, steps, cap) && WithinCap(s.table, cap) && Current(s, cap) && Undisturbed(s, steps, cap)
    ensures AlwaysWithinCap(s, steps, cap) <==> NeverOverReadopts(s, steps, cap)
    decreases |steps|
  {
    if steps != [] {
      StepWithinCapExactly(s, steps[0], cap);
      CurrentNeverStale(s, steps[0], cap);
      StepKeepsCurrent(s, steps[0], cap);
      if !OverReadopt(s, steps[0], cap) { UndisturbedKeepsCap(Apply(s, steps[0], cap), steps[1..], cap); }
    }
  }

  // ---- runs that pass the cap ----

  lemma FirstOf(s: State, a: Step, rest: seq<Step>, cap: int)
    requires Enabled(s, a) && Runs(Apply(s, a, cap), rest, cap)
    ensures Runs(s, [a] + rest, cap) && After(s, [a] + rest, cap) == After(Apply(s, a, cap), rest, cap)
    ensures NeverOverReadopts(s, [a] + rest, cap) <==>
            !OverReadopt(s, a, cap) && NeverOverReadopts(Apply(s, a, cap), rest, cap)
    ensures Undisturbed(s, [a] + rest, cap) <==> !Disturbs(s, a) && Undisturbed(Apply(s, a, cap), rest, cap)
  {
    assert ([a] + rest)[1..] == rest;
  }

  predicate Goes(s: State, st: Step, s': State, cap: int) { Enabled(s, st) && Apply(s, st, cap) == s' }

  lemma FourSteps(s: State, a: Step, s1: State, b: Step, s2: State, c: Step, s3: State, d: Step, s4: State, cap: int)
    requires Goes(s, a, s1, cap) && Goes(s1, b, s2, cap) && Goes(s2, c, s3, cap) && Goes(s3, d, s4, cap)
    ensures Runs(s, [a, b, c, d], cap) && After(s, [a, b, c, d], cap) == s4
    ensures NeverOverReadopts(s, [a, b, c, d], cap) <==>
            !OverReadopt(s, a, cap) && !OverReadopt(s1, b, cap) && !OverReadopt(s2, c, cap) && !OverReadopt(s3, d, cap)
    ensures Undisturbed(s, [a, b, c, d], cap) <==>
            !Disturbs(s, a) && !Disturbs(s1, b) && !Disturbs(s2, c) && !Disturbs(s3, d)
  {
    FirstOf(s3, d, [], cap);
    FirstOf(s2, c, [d] + [], cap);
    FirstOf(s1, b, [c] + ([d] + []), cap);
    FirstOf(s, a, [b] + ([c] + ([d] + [])), cap);
    assert [a] + ([b] + ([c] + ([d] + []))) == [a, b, c, d];
  }

  lemma HoldsTwo(tb: Table, w: WorkerId)
    requires 0 in tb && 1 in tb && tb[0] == tb[1] == Item(true, Held(w))
    ensures |BruteHeld(tb, w)| >= 2
  {
    SubsetSize({0, 1}, BruteHeld(tb, w));
  }

  const QUEUED: Table := map[0 := Item(true, Waiting), 1 := Item(true, Waiting)]

  const EXPIRING: Table := map[0 := Item(true, Held(7)), 1 := Item(true, Waiting)]

  /** With a cap of one: a lease expires, a call counts room for one, a heartbeat hands the task back, below
      the cap, and the call still takes another. */
  lemma HandbackBetweenPassesCap()
    ensures
      var s := State(EXPIRING, map[]);
      var steps := [LetGo(0, Waiting), Count(0, 7, 1, true), Readopt(7, 0), TakeBrute(0, [1])];
      && WithinCap(s.table, 1) && Runs(s, steps, 1) && NeverOverReadopts(s, steps, 1)
      && !WithinCap(After(s, steps, 1).table, 1)
  {
    var s, a, b := State(EXPIRING, map[]), LetGo(0, Waiting), Count(0, 7, 1, true);
    var c, d := Readopt(7, 0), TakeBrute(0, [1]);
    ExpiringWithin();
    var s1 := State(QUEUED, map[]);
    assert Apply(s, a, 1) == s1;
    assert BruteHeld(QUEUED, 7) == {};
    var s2 := State(QUEUED, map[0 := Counted(7, 1, 1)]);
    assert Apply(s1, b, 1) == s2;
    var s3 := State(EXPIRING, s2.calls);
    assert Apply(s2, c, 1) == s3;
    assert Takes(EXPIRING, 7, [1], 1, true).table == EXPIRING[1 := Item(true, Held(7))];
    var s4 := Apply(s3, d, 1);
    HoldsTwo(s4.table, 7);
    FourSteps(s, a, s1, b, s2, c, s3, d, s4, 1);
  }

  /** Two calls of one worker, one on a connection that has been replaced, count the same room. */
  lemma TwoCallsPassCap()
    ensures
      var s := State(QUEUED, map[]);
      var steps := [Count(0, 7, 1, true), Count(1, 7, 1, true), TakeBrute(0, [0]), TakeBrute(1, [1])];
      && WithinCap(s.table, 1) && Runs(s, steps, 1) && NeverOverReadopts(s, steps, 1)
      && !WithinCap(After(s, steps, 1).table, 1)
  {
    var s, a, b := State(QUEUED, map[]), Count(0, 7, 1, true), Count(1, 7, 1, true);
    var c, d := TakeBrute(0, [0]), TakeBrute(1, [1]);
    assert forall w :: BruteHeld(QUEUED, w) == {};
    var s1 := State(QUEUED, map[0 := Counted(7, 1, 1)]);
    assert Apply(s, a, 1) == s1;
    var s2 := State(QUEUED, map[0 := Counted(7, 1, 1), 1 := Counted(7, 1, 1)]);
    assert Apply(s1, b, 1) == s2;
    assert Takes(QUEUED, 7, [0], 1, true).jobs == [0];
    var s3 := State(EXPIRING, map[0 := Resting(7, 0), 1 := Counted(7, 1, 1)]);
    assert Apply(s2, c, 1) == s3;
    assert Takes(EXPIRING, 7, [1], 1, true).table == EXPIRING[1 := Item(true, Held(7))];
    var s4 := Apply(s3, d, 1);
    HoldsTwo(s4.table, 7);
    FourSteps(s, a, s1, b, s2, c, s3, d, s4, 1);
  }

  /** A lease expires, its worker leases another such task in a call that nothing disturbs, and then gets the
      first one back. */
  lemma ReadoptPassesCap()
    ensures
      var s := State(EXPIRING, map[]);
      var steps := [LetGo(0, Waiting), Count(0, 7, 1, true), TakeBrute(0, [1]), Readopt(7, 0)];
      && WithinCap(s.table, 1) && Runs(s, steps, 1) && Undisturbed(s, steps, 1)
      && !WithinCap(After(s, steps, 1).table, 1)
  {
    var s, a, b := State(EXPIRING, map[]), LetGo(0, Waiting), Count(0, 7, 1, true);
    var c, d := TakeBrute(0, [1]), Readopt(7, 0);
    ExpiringWithin();
    var s1 := State(QUEUED, map[]);
    assert Apply(s, a, 1) == s1;
    assert BruteHeld(QUEUED, 7) == {};
    var s2 := State(QUEUED, map[0 := Counted(7, 1, 1)]);
    assert Apply(s1, b, 1) == s2;
    assert Takes(QUEUED, 7, [1], 1, true).jobs == [1];
    var s3 := State(QUEUED[1 := Item(true, Held(7))], map[0 := Resting(7, 0)]);
    assert Apply(s2, c, 1) == s3;
    var s4 := Apply(s3, d, 1);
    HoldsTwo(s4.table, 7);
    FourSteps(s, a, s1, b, s2, c, s3, d, s4, 1);
  }

  lemma ExpiringWithin()
    ensures WithinCap(EXPIRING, 1)
  {
    forall w ensures |BruteHeld(EXPIRING, w)| <= 1 { SubsetSize(BruteHeld(EXPIRING, w), {0}); }
  }

  lemma SubsetSize(a: set<TaskId>, b: set<TaskId>)
    requires a <= b
    ensures |a| <= |b|
  {
    assert b == a + (b - a);
  }
}
