/** What each step does to a task, told from the events that reach it: when its status changes and to what,
    and what that makes of every state a run can get to. */
module LeaseEffects {
  import opened Options
  import opened LeaseTable
  import opened LeaseProtocol

  // ---- events ----

  /** A request that a worker's batch made of t is carried out while the row still bears its token. */
  predicate Closes(st: Step, t: TaskId, row: Row) {
    st.Close? && st.req.task == t && row.token == Some(st.req.token)
  }

  predicate Working(row: Row) { row.status == Leased || row.status == Running }

  /** The reaper comes upon a lease that has run out. */
  predicate RunsOut(st: Step, t: TaskId, row: Row) {
    st.Reap? && st.t == t && Working(row) && row.expires.Some? && st.now > row.expires.value
  }

  /** The attempt is over without a result, and another one is due if there is any left. */
  predicate AttemptFails(st: Step, t: TaskId, row: Row) {
    (Closes(st, t, row) && st.req.closing.Retry?) || RunsOut(st, t, row)
  }

  predicate GivenUp(st: Step, t: TaskId, row: Row) { Closes(st, t, row) && st.req.closing.GiveUp? }

  predicate HandedBack(st: Step, row: Row) { st.Release? && Working(row) && row.worker == Some(st.w) }

  predicate LetGo(st: Step, t: TaskId, row: Row) {
    AttemptFails(st, t, row) || GivenUp(st, t, row) || HandedBack(st, row)
  }

  predicate Taken(s: State, st: Step, t: TaskId, row: Row) {
    st.Lease? && st.t == t && row.status == Pending && row.run in s.running
  }

  /** Given back to a worker that is still at it: queued by the reaper, and nobody's since. */
  predicate TakenBack(st: Step, t: TaskId, row: Row) {
    st.Readopt? && st.t == t && row.status == Pending && row.token == None && row.expiredNote
  }

  /** A sign of life from the worker that holds it: a heartbeat, or a batch that leaves the task open. */
  predicate Heard(st: Step, t: TaskId, row: Row) {
    Working(row) && ((st.Extend? && st.t == t && row.worker == Some(st.w))
                     || (Closes(st, t, row) && st.req.closing.KeepAlive?))
  }

  predicate Completed(st: Step, t: TaskId, row: Row) { Closes(st, t, row) && st.req.closing.Complete? && Working(row) }

  predicate CalledOff(st: Step, row: Row) {
    st.Cancel? && row.run == st.run && (row.status == Pending || Working(row))
  }

  predicate AttemptLeft(s: State, t: TaskId)
    requires t in s.table
  {
    LeasesOf(s.issues, t) < s.table[t].maxAttempts
  }

  /** An event that ends what goes on with a task in the queue or at work. */
  predicate Ends(st: Step, t: TaskId, row: Row) {
    LetGo(st, t, row) || Completed(st, t, row) || CalledOff(st, row)
  }

  function StatusOf(s: State, st: Step, t: TaskId): Status
    requires t in s.table
  {
    if t in Apply(s, st).table then Apply(s, st).table[t].status else s.table[t].status
  }

  lemma PendingExactly(s: State, st: Step, t: TaskId)
    requires t in s.table && RowOk(s, t) && Enabled(s, st)
    ensures
      var row := s.table[t];
      StatusOf(s, st, t) == Pending <==>
        if row.status == Pending then !Taken(s, st, t, row) && !TakenBack(st, t, row) && !CalledOff(st, row)
        else (AttemptFails(st, t, row) && AttemptLeft(s, t)) || HandedBack(st, row)
  {
  }

  lemma FailedExactly(s: State, st: Step, t: TaskId)
    requires t in s.table && RowOk(s, t) && Enabled(s, st)
    ensures
      var row := s.table[t];
      StatusOf(s, st, t) == Failed <==>
        row.status == Failed || GivenUp(st, t, row) || (AttemptFails(st, t, row) && !AttemptLeft(s, t))
  {
  }

  lemma OverExactly(s: State, st: Step, t: TaskId)
    requires t in s.table && RowOk(s, t) && Enabled(s, st)
    ensures
      var row := s.table[t];
      && (StatusOf(s, st, t) == Cancelled <==> CalledOff(st, row) || (row.status == Cancelled && !LetGo(st, t, row)))
      && (StatusOf(s, st, t) == Done <==> Completed(st, t, row) || (row.status == Done && !LetGo(st, t, row)))
  {
  }

  lemma WorkingExactly(s: State, st: Step, t: TaskId)
    requires t in s.table && RowOk(s, t) && Enabled(s, st)
    ensures
      var row := s.table[t];
      && (StatusOf(s, st, t) == Leased <==>
            Taken(s, st, t, row) || (row.status == Leased && !Heard(st, t, row) && !Ends(st, t, row)))
      && (StatusOf(s, st, t) == Running <==>
            TakenBack(st, t, row) || Heard(st, t, row) || (row.status == Running && !Ends(st, t, row)))
  {
  }

  /** Status by status, what makes a task get there. An attempt that fails is repeated exactly while fewer
      leases were made than the task may have. */
  lemma StatusChangesExactly(s: State, st: Step, t: TaskId)
    requires Invariant(s) && Enabled(s, st) && t in s.table
    ensures t in Apply(s, st).table
    ensures
      var row, after := s.table[t], Apply(s, st).table[t].status;
      && (after == Pending <==>
            if row.status == Pending then !Taken(s, st, t, row) && !TakenBack(st, t, row) && !CalledOff(st, row)
            else (AttemptFails(st, t, row) && AttemptLeft(s, t)) || HandedBack(st, row))
      && (after == Failed <==>
            row.status == Failed || GivenUp(st, t, row) || (AttemptFails(st, t, row) && !AttemptLeft(s, t)))
      && (after == Cancelled <==> CalledOff(st, row) || (row.status == Cancelled && !LetGo(st, t, row)))
      && (after == Done <==> Completed(st, t, row) || (row.status == Done && !LetGo(st, t, row)))
      && (after == Leased <==>
            Taken(s, st, t, row) || (row.status == Leased && !Heard(st, t, row) && !Ends(st, t, row)))
      && (after == Running <==>
            TakenBack(st, t, row) || Heard(st, t, row) || (row.status == Running && !Ends(st, t, row)))
  {
    assert RowOk(s, t);
    StepKeepsRow(s, st, t);
    PendingExactly(s, st, t);
    FailedExactly(s, st, t);
    OverExactly(s, st, t);
    WorkingExactly(s, st, t);
    assert StatusOf(s, st, t) == Apply(s, st).table[t].status;
  }

  lemma TakenHolder(s: State, st: Step, t: TaskId)
    requires Enabled(s, st) && t in s.table && (Taken(s, st, t, s.table[t]) || TakenBack(st, t, s.table[t]))
    ensures t in Apply(s, st).table
    ensures
      var after := Apply(s, st).table[t];
      && after.worker == Some(st.w) && after.expires == Some(st.now + s.ttl)
      && after.token == Some(if st.Lease? then Issued(|s.issues|) else st.tok)
  {
  }

  lemma LetGoHolder(s: State, st: Step, t: TaskId)
    requires Enabled(s, st) && t in s.table && LetGo(st, t, s.table[t])
    ensures t in Apply(s, st).table
    ensures
      var after := Apply(s, st).table[t];
      after.worker == None && after.token == None && after.expires == None
  {
  }

  lemma OtherHolder(s: State, st: Step, t: TaskId)
    requires Enabled(s, st) && t in s.table
    requires !Taken(s, st, t, s.table[t]) && !TakenBack(st, t, s.table[t]) && !LetGo(st, t, s.table[t])
    ensures t in Apply(s, st).table
    ensures
      var row, after := s.table[t], Apply(s, st).table[t];
      && after.token == row.token
      && after.worker == (if st.Remove? && row.worker == Some(st.w) then None else row.worker)
      && after.expires == if Heard(st, t, row) then Some(st.now + s.ttl) else row.expires
  {
  }

  /** Who holds the task, under which token and until when. */
  lemma HolderChangesExactly(s: State, st: Step, t: TaskId)
    requires Enabled(s, st) && t in s.table
    ensures t in Apply(s, st).table
    ensures
      var row, after := s.table[t], Apply(s, st).table[t];
      if Taken(s, st, t, row) || TakenBack(st, t, row) then
        && after.worker == Some(st.w) && after.expires == Some(st.now + s.ttl)
        && after.token == Some(if st.Lease? then Issued(|s.issues|) else st.tok)
      else if LetGo(st, t, row) then after.worker == None && after.token == None && after.expires == None
      else
        && after.token == row.token
        && after.worker == (if st.Remove? && row.worker == Some(st.w) then None else row.worker)
        && after.expires == if Heard(st, t, row) then Some(st.now + s.ttl) else row.expires
  {
    var row := s.table[t];
    if Taken(s, st, t, row) || TakenBack(st, t, row) {
      TakenHolder(s, st, t);
    } else if LetGo(st, t, row) {
      LetGoHolder(s, st, t);
    } else {
      OtherHolder(s, st, t);
    }
  }

  /** What a task is never changes, its attempts count its leases, and it bears the reaper's note from the
      time a lease of it ran out until a failure is reported. */
  lemma RestChangesExactly(s: State, st: Step, t: TaskId)
    requires Invariant(s) && Enabled(s, st) && t in s.table
    ensures t in Apply(s, st).table
    ensures
      var row, after := s.table[t], Apply(s, st).table[t];
      && after.run == row.run && after.maxAttempts == row.maxAttempts
      && after.attempts == row.attempts + (if Taken(s, st, t, row) then 1 else 0)
      && (after.expiredNote <==>
            if RunsOut(st, t, row) then true
            else if Closes(st, t, row) && st.req.closing.Retry? then st.req.closing.note
            else if GivenUp(st, t, row) then st.req.closing.note
            else row.expiredNote)
  {
  }

  /** Rows come from inserting, as queued tasks that nobody has tried. */
  lemma RowsComeFromInserts(s: State, st: Step, t: TaskId)
    requires Enabled(s, st) && t !in s.table
    ensures t in Apply(s, st).table <==> st.Insert? && st.t == t
    ensures st.Insert? && st.t == t ==>
      var row := Apply(s, st).table[t];
      && row.run == st.run && row.status == Pending && row.maxAttempts == st.maxAttempts && row.attempts == 0
      && row.worker == None && row.token == None && row.expires == None && !row.expiredNote
  {
  }

  /** A batch is accepted exactly when its worker holds the task under the token it presents; leases are
      recorded as they are made. */
  lemma RecordsExactly(s: State, st: Step)
    requires Enabled(s, st)
    ensures Apply(s, st).accepted ==
            if st.Load? && st.req.task in s.table && Working(s.table[st.req.task])
               && s.table[st.req.task].worker == Some(st.req.worker) && s.table[st.req.task].token == Some(st.req.token)
            then s.accepted + [Accepted(st.req.task, st.req.worker, st.req.token)] else s.accepted
    ensures forall r :: r in Apply(s, st).loaded <==>
              r in s.loaded || (st.Load? && st.req == r && |Apply(s, st).accepted| > |s.accepted|)
    ensures Apply(s, st).issues ==
            if st.Lease? && st.t in s.table && Taken(s, st, st.t, s.table[st.t]) then s.issues + [Issue(st.t, st.w)] else s.issues
    ensures forall run :: run in Apply(s, st).running <==>
              if st.SetRunning? && st.run == run then st.on else run in s.running
    ensures forall t :: t in s.releases && t in s.table && !st.Insert? ==>
              t in Apply(s, st).releases
              && Apply(s, st).releases[t] == s.releases[t] + if HandedBack(st, s.table[t]) then 1 else 0
  {
  }

  /** A worker may present any token that was issued, or one that never was; requests are carried out at any later
      time, in any order. */
  lemma AnyTokenComes(s: State, t: TaskId, w: WorkerId, tok: Token, now: int, req: Request)
    ensures Enabled(s, Readopt(t, w, tok, now)) <==> tok.Unissued? || tok.n < |s.issues|
    ensures Enabled(s, Load(req)) <==> req.token.Unissued? || req.token.n < |s.issues|
    ensures Enabled(s, Close(req, now)) <==> req in s.loaded
  {
  }

  // ---- over whole runs ----

  predicate SomeLoaded(loaded: set<Request>, t: TaskId, complete: bool) {
    exists req :: req in loaded && req.task == t && (if complete then req.closing.Complete? else req.closing.GiveUp?)
  }

  /** A task has failed because its attempts are used up or its worker said that more would not help; it is
      done because its worker said so; it was called off only with its run. */
  predicate Explained(s: State, calledOff: set<RunId>) {
    forall t :: t in s.table ==> RowExplained(s, calledOff, t)
  }

  predicate RowExplained(s: State, calledOff: set<RunId>, t: TaskId)
    requires t in s.table
  {
    var row := s.table[t];
    && (row.status == Failed ==> LeasesOf(s.issues, t) >= row.maxAttempts || SomeLoaded(s.loaded, t, false))
    && (row.status == Done ==> SomeLoaded(s.loaded, t, true))
    && (row.status == Cancelled ==> row.run in calledOff)
  }

  function CalledOffBy(calledOff: set<RunId>, st: Step): set<RunId> {
    if st.Cancel? then calledOff + {st.run} else calledOff
  }

  lemma LeasesGrow(s: State, st: Step, t: TaskId)
    ensures LeasesOf(s.issues, t) <= LeasesOf(Apply(s, st).issues, t)
  {
    var after := Apply(s, st).issues;
    if after != s.issues { assert after[..|after| - 1] == s.issues; }
  }

  lemma LoadedStays(s: State, st: Step, t: TaskId, complete: bool)
    requires SomeLoaded(s.loaded, t, complete)
    ensures SomeLoaded(Apply(s, st).loaded, t, complete)
  {
    var req :| req in s.loaded && req.task == t && (if complete then req.closing.Complete? else req.closing.GiveUp?);
    assert req in Apply(s, st).loaded;
  }

  lemma StepKeepsRowExplained(s: State, st: Step, calledOff: set<RunId>, t: TaskId)
    requires Invariant(s) && Enabled(s, st) && t in s.table && RowExplained(s, calledOff, t)
    ensures t in Apply(s, st).table && RowExplained(Apply(s, st), CalledOffBy(calledOff, st), t)
  {
    var row := s.table[t];
    StatusChangesExactly(s, st, t);
    RestChangesExactly(s, st, t);
    LeasesGrow(s, st, t);
    if SomeLoaded(s.loaded, t, false) { LoadedStays(s, st, t, false); }
    if SomeLoaded(s.loaded, t, true) { LoadedStays(s, st, t, true); }
    if Completed(st, t, row) { assert SomeLoaded(Apply(s, st).loaded, t, true); }
    if GivenUp(st, t, row) { assert SomeLoaded(Apply(s, st).loaded, t, false); }
  }

  lemma StepKeepsExplained(s: State, st: Step, calledOff: set<RunId>)
    requires Invariant(s) && Enabled(s, st) && Explained(s, calledOff)
    ensures Explained(Apply(s, st), CalledOffBy(calledOff, st))
  {
    var s' := Apply(s, st);
    forall t | t in s'.table ensures RowExplained(s', CalledOffBy(calledOff, st), t) {
      if t in s.table { StepKeepsRowExplained(s, st, calledOff, t); } else { RowsComeFromInserts(s, st, t); }
    }
  }

  function CalledOffIn(calledOff: set<RunId>, steps: seq<Step>): set<RunId>
    decreases |steps|
  {
    if steps == [] then calledOff else CalledOffIn(CalledOffBy(calledOff, steps[0]), steps[1..])
  }

  lemma {:induction false} CalledOffIs(calledOff: set<RunId>, steps: seq<Step>, run: RunId)
    ensures run in CalledOffIn(calledOff, steps) <==> run in calledOff || Cancel(run) in steps
    decreases |steps|
  {
    if steps != [] {
      CalledOffIs(CalledOffBy(calledOff, steps[0]), steps[1..], run);
      assert Cancel(run) in steps <==> Cancel(run) == steps[0] || Cancel(run) in steps[1..];
    }
  }

  lemma {:induction false} ExplainedAlways(s: State, steps: seq<Step>, calledOff: set<RunId>)
    requires Invariant(s) && Runs(s, steps) && Explained(s, calledOff)
    ensures Explained(After(s, steps), CalledOffIn(calledOff, steps))
    decreases |steps|
  {
    if steps != [] {
      StepKeepsInvariant(s, steps[0]);
      StepKeepsExplained(s, steps[0], calledOff);
      ExplainedAlways(Apply(s, steps[0]), steps[1..], CalledOffBy(calledOff, steps[0]));
    }
  }

  /** So over every run a task that has failed had as many leases as it may, or its worker gave it up; one
      that is done was reported done; and one that is cancelled belongs to a run that was. */
  lemma EndsAreEarned(ttl: nat, steps: seq<Step>, t: TaskId)
    requires Runs(Initial(ttl), steps) && t in After(Initial(ttl), steps).table
    ensures
      var s := After(Initial(ttl), steps);
      var row := s.table[t];
      && (row.status == Failed ==> LeasesOf(s.issues, t) >= row.maxAttempts || SomeLoaded(s.loaded, t, false))
      && (row.status == Done ==> SomeLoaded(s.loaded, t, true))
      && (row.status == Cancelled ==> Cancel(row.run) in steps)
  {
    var s := After(Initial(ttl), steps);
    ExplainedAlways(Initial(ttl), steps, {});
    assert RowExplained(s, CalledOffIn({}, steps), t);
    CalledOffIs({}, steps, s.table[t].run);
  }

  /** A failure reported for a task that is being worked on queues it again exactly while it was leased less
      often than it may be, and fails it otherwise; so does its lease running out. */
  lemma FailedAttemptIsRepeatedExactly(s: State, st: Step, t: TaskId)
    requires Invariant(s) && Enabled(s, st) && t in s.table && Working(s.table[t]) && AttemptFails(st, t, s.table[t])
    ensures
      var row, after := s.table[t], Apply(s, st).table[t];
      && (after.status == Pending <==> LeasesOf(s.issues, t) < row.maxAttempts)
      && (after.status == Failed <==> LeasesOf(s.issues, t) >= row.maxAttempts)
      && after.worker == None && after.token == None
  {
    StatusChangesExactly(s, st, t);
    HolderChangesExactly(s, st, t);
  }
}
