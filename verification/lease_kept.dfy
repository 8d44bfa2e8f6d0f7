/** How long a worker keeps a task: as long as it is heard from before the lease runs out. */
module LeaseKept {
  import opened Options
  import opened LeaseTable
  import opened LeaseProtocol

  /** w holds t under tok, and was last heard from at `beat`. */
  predicate HeldSince(s: State, t: TaskId, w: WorkerId, tok: Token, beat: int) {
    t in s.table && s.table[t].HeldBy(w, tok) && s.table[t].expires == Some(beat + s.ttl)
  }

  /** What ends a lease other than time: its worker shutting down or being deleted, its run being
      cancelled, its own verdict. */
  predicate EndsLease(st: Step, t: TaskId, run: RunId, w: WorkerId, tok: Token) {
    || (st.Release? && st.w == w)
    || (st.Remove? && st.w == w)
    || (st.Cancel? && st.run == run)
    || (st.Close? && st.req.task == t && st.req.token == tok && !st.req.closing.KeepAlive?)
  }

  /** When the worker was last heard from: by a heartbeat, or by a batch that does not close the task. */
  function BeatAfter(beat: int, st: Step, t: TaskId, w: WorkerId, tok: Token): int {
    if st.Extend? && st.t == t && st.w == w then st.now
    else if st.Close? && st.req.task == t && st.req.token == tok && st.req.closing.KeepAlive? then st.now
    else beat
  }

  /** A step other than those that end a lease takes the task from its worker exactly when it reaps it more
      than a lease's length after the last sign of life. */
  lemma StepKeepsLeaseExactly(s: State, st: Step, t: TaskId, w: WorkerId, tok: Token, beat: int)
    requires Enabled(s, st) && HeldSince(s, t, w, tok, beat) && !EndsLease(st, t, s.table[t].run, w, tok)
    ensures HeldSince(Apply(s, st), t, w, tok, BeatAfter(beat, st, t, w, tok))
            <==> !(st.Reap? && st.t == t && st.now > beat + s.ttl)
    ensures t in Apply(s, st).table && Apply(s, st).table[t].run == s.table[t].run && Apply(s, st).ttl == s.ttl
    ensures !(st.Reap? && st.t == t) ==> Apply(s, st).table[t].attempts == s.table[t].attempts
  {
    match st
    case Reap(u, now) => if u == t { assert s.table[t].Expired(now) <==> now > beat + s.ttl; }
    case _ =>
  }

  /** Along the steps no reap of t comes more than ttl after the last sign of life, and nothing ends the lease. */
  predicate InTime(steps: seq<Step>, ttl: nat, t: TaskId, run: RunId, w: WorkerId, tok: Token, beat: int)
    decreases |steps|
  {
    steps == [] ||
    var st := steps[0];
    && !EndsLease(st, t, run, w, tok)
    && !(st.Reap? && st.t == t && st.now > beat + ttl)
    && InTime(steps[1..], ttl, t, run, w, tok, BeatAfter(beat, st, t, w, tok))
  }

  /** However long a task takes, and whatever else goes on, a worker that is heard from often enough keeps
      it under the same lease: it is neither retried nor given to anyone else. */
  lemma {:induction false} HeartbeatsKeepLease(s: State, steps: seq<Step>, t: TaskId, w: WorkerId, tok: Token, beat: int)
    requires Runs(s, steps) && HeldSince(s, t, w, tok, beat) && InTime(steps, s.ttl, t, s.table[t].run, w, tok, beat)
    ensures t in After(s, steps).table && After(s, steps).table[t].HeldBy(w, tok)
    ensures After(s, steps).table[t].attempts == s.table[t].attempts
    decreases |steps|
  {
    if steps != [] {
      var st := steps[0];
      StepKeepsLeaseExactly(s, st, t, w, tok, beat);
      ReapInTimeChangesNothing(s, st, t, w, tok, beat);
      HeartbeatsKeepLease(Apply(s, st), steps[1..], t, w, tok, BeatAfter(beat, st, t, w, tok));
    }
  }

  lemma ReapInTimeChangesNothing(s: State, st: Step, t: TaskId, w: WorkerId, tok: Token, beat: int)
    requires HeldSince(s, t, w, tok, beat)
    ensures st.Reap? && st.t == t && st.now <= beat + s.ttl ==> Apply(s, st) == s
  {
  }
}
